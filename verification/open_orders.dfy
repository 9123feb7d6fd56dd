/** The order browser: a list of orders, three filter criteria that derive
    the displayed list from it, and the update handler every view uses to
    change an order. */
module OpenOrders {
  import opened Common
  import opened Text
  import opened Seqs

  datatype Status = Pending | Processing | Shipped | Delivered | Cancelled

  datatype Priority = Low | Medium | High | Urgent

  /** The reduced address an order carries. */
  datatype Place = Place(name: string, city: string, state: string, country: string)

  /** An order. `createdDate` is the creation instant as an ordered key
      (the views only compare it). */
  datatype Order = Order(
    id: string,
    orderNumber: string,
    productName: string,
    customerName: string,
    customerEmail: string,
    status: Status,
    priority: Priority,
    createdDate: int,
    estimatedDelivery: string,
    totalAmount: real,
    fromAddress: Place,
    toAddress: Place,
    dimensions: Dimensions,
    trackingNumber: Option<string>)

  // ---------------------------------------------------------------------
  // Filtering
  // ---------------------------------------------------------------------

  /** A status or priority filter: the sentinel `all`, or one value. */
  datatype Criterion<T> = All | Only(value: T)

  predicate Admits<T(==)>(c: Criterion<T>, v: T) {
    c.All? || c.value == v
  }

  datatype Criteria = Criteria(searchTerm: string, status: Criterion<Status>, priority: Criterion<Priority>)

  /** The case-insensitive search: an order matches when the lowered term
      occurs, at some index, in the lowered order number, product name or
      customer name; the empty term occurs everywhere. */
  function MatchesSearch(term: string, o: Order): (b: bool)
    ensures b <==> || (exists i :: OccursAt(Lower(o.orderNumber), Lower(term), i))
                   || (exists i :: OccursAt(Lower(o.productName), Lower(term), i))
                   || (exists i :: OccursAt(Lower(o.customerName), Lower(term), i))
    ensures term == "" ==> b
  {
    var t := Lower(term);
    || Includes(Lower(o.orderNumber), t)
    || Includes(Lower(o.productName), t)
    || Includes(Lower(o.customerName), t)
  }

  function SearchKeep(term: string): Order -> bool {
    (o: Order) => MatchesSearch(term, o)
  }

  function StatusKeep(s: Status): Order -> bool {
    (o: Order) => o.status == s
  }

  function PriorityKeep(p: Priority): Order -> bool {
    (o: Order) => o.priority == p
  }

  /** The search step runs only for a non-empty term. */
  function SearchStep(orders: seq<Order>, term: string): seq<Order> {
    if term != "" then Filter(orders, SearchKeep(term)) else orders
  }

  function StatusStep(orders: seq<Order>, c: Criterion<Status>): seq<Order> {
    if c.Only? then Filter(orders, StatusKeep(c.value)) else orders
  }

  function PriorityStep(orders: seq<Order>, c: Criterion<Priority>): seq<Order> {
    if c.Only? then Filter(orders, PriorityKeep(c.value)) else orders
  }

  /** An order passes all three criteria. */
  predicate Selected(c: Criteria, o: Order) {
    && (c.searchTerm == "" || MatchesSearch(c.searchTerm, o))
    && Admits(c.status, o.status)
    && Admits(c.priority, o.priority)
  }

  function SelectedKeep(c: Criteria): Order -> bool {
    (o: Order) => Selected(c, o)
  }

  /** Each criterion on its own, with an unset criterion admitting
      everything. */
  function SearchCriterion(term: string): Order -> bool {
    (o: Order) => term == "" || MatchesSearch(term, o)
  }

  function StatusCriterion(c: Criterion<Status>): Order -> bool {
    (o: Order) => Admits(c, o.status)
  }

  function PriorityCriterion(c: Criterion<Priority>): Order -> bool {
    (o: Order) => Admits(c, o.priority)
  }

  /** The filtering effect: search, then status, then priority. The three
      chained steps are one filter by the conjunction of the criteria. */
  function FilterOrders(orders: seq<Order>, c: Criteria): (r: seq<Order>)
    ensures |r| <= |orders|
    ensures r == Filter(orders, SelectedKeep(c))
  {
    var search, status, priority := SearchCriterion(c.searchTerm), StatusCriterion(c.status), PriorityCriterion(c.priority);
    var searchAndStatus := (o: Order) => search(o) && status(o);
    SearchStepIsFilter(orders, c.searchTerm);
    var afterSearch := SearchStep(orders, c.searchTerm);
    StatusStepIsFilter(afterSearch, c.status);
    var afterStatus := StatusStep(afterSearch, c.status);
    PriorityStepIsFilter(afterStatus, c.priority);
    FilterFuse(orders, search, status, searchAndStatus);
    FilterFuse(orders, searchAndStatus, priority, SelectedKeep(c));
    PriorityStep(afterStatus, c.priority)
  }

  /** The step applied when the criterion is set, identity otherwise, as a
      filter by a predicate that is constantly true when it is not set. */
  lemma SearchStepIsFilter(orders: seq<Order>, term: string)
    ensures SearchStep(orders, term) == Filter(orders, SearchCriterion(term))
  {
    if term == "" {
      FilterKeepsAll(orders, SearchCriterion(term));
    } else {
      FilterExtensional(orders, SearchKeep(term), SearchCriterion(term));
    }
  }

  lemma StatusStepIsFilter(orders: seq<Order>, c: Criterion<Status>)
    ensures StatusStep(orders, c) == Filter(orders, StatusCriterion(c))
  {
    if c.All? {
      FilterKeepsAll(orders, StatusCriterion(c));
    } else {
      FilterExtensional(orders, StatusKeep(c.value), StatusCriterion(c));
    }
  }

  lemma PriorityStepIsFilter(orders: seq<Order>, c: Criterion<Priority>)
    ensures PriorityStep(orders, c) == Filter(orders, PriorityCriterion(c))
  {
    if c.All? {
      FilterKeepsAll(orders, PriorityCriterion(c));
    } else {
      FilterExtensional(orders, PriorityKeep(c.value), PriorityCriterion(c));
    }
  }

  /** Filters by pointwise-equal predicates agree. */
  lemma {:induction false} FilterExtensional(s: seq<Order>, p: Order -> bool, q: Order -> bool)
    requires forall o :: p(o) == q(o)
    ensures Filter(s, p) == Filter(s, q)
    decreases |s|
  {
    if |s| > 0 {
      FilterExtensional(s[1..], p, q);
    }
  }

  /** The displayed list holds exactly the source orders that pass all
      three criteria. */
  lemma FilterOrdersSelects(orders: seq<Order>, c: Criteria)
    ensures var r := FilterOrders(orders, c);
            && (forall i :: 0 <= i < |r| ==> Selected(c, r[i]) && r[i] in orders)
            && (forall i :: 0 <= i < |orders| && Selected(c, orders[i]) ==> orders[i] in r)
  {
  }

  /** The displayed list keeps the relative order of the source list. */
  lemma FilterOrdersIsSubsequence(orders: seq<Order>, c: Criteria)
    ensures IsSubsequence(FilterOrders(orders, c), orders)
  {
    FilterIsSubsequence(orders, SelectedKeep(c));
  }

  /** Applying the same criteria to the displayed list changes nothing. */
  lemma FilterOrdersIdempotent(orders: seq<Order>, c: Criteria)
    ensures FilterOrders(FilterOrders(orders, c), c) == FilterOrders(orders, c)
  {
    FilterIdempotent(orders, SelectedKeep(c));
  }

  /** The priority and status criteria together. */
  function PriorityAndStatus(c: Criteria): Order -> bool {
    (o: Order) => Admits(c.priority, o.priority) && Admits(c.status, o.status)
  }

  /** Priority then status is one filter by both. */
  lemma PriorityThenStatus(orders: seq<Order>, c: Criteria)
    ensures StatusStep(PriorityStep(orders, c.priority), c.status) == Filter(orders, PriorityAndStatus(c))
  {
    PriorityStepIsFilter(orders, c.priority);
    StatusStepIsFilter(PriorityStep(orders, c.priority), c.status);
    forall o ensures PriorityAndStatus(c)(o) == (PriorityCriterion(c.priority)(o) && StatusCriterion(c.status)(o)) {
      assert PriorityCriterion(c.priority)(o) == Admits(c.priority, o.priority);
      assert StatusCriterion(c.status)(o) == Admits(c.status, o.status);
    }
    FilterFuse(orders, PriorityCriterion(c.priority), StatusCriterion(c.status), PriorityAndStatus(c));
  }

  lemma SelectionReordered(c: Criteria)
    ensures forall o :: SelectedKeep(c)(o) == (PriorityAndStatus(c)(o) && SearchCriterion(c.searchTerm)(o))
  {
    forall o ensures SelectedKeep(c)(o) == (PriorityAndStatus(c)(o) && SearchCriterion(c.searchTerm)(o)) {
      assert SelectedKeep(c)(o) == Selected(c, o);
      assert PriorityAndStatus(c)(o) == (Admits(c.priority, o.priority) && Admits(c.status, o.status));
      assert SearchCriterion(c.searchTerm)(o) == (c.searchTerm == "" || MatchesSearch(c.searchTerm, o));
    }
  }

  /** The steps may run in any order: priority, status, then search gives
      the same list. */
  lemma FilterStepsCommute(orders: seq<Order>, c: Criteria)
    ensures SearchStep(StatusStep(PriorityStep(orders, c.priority), c.status), c.searchTerm)
            == FilterOrders(orders, c)
  {
    var afterStatus := StatusStep(PriorityStep(orders, c.priority), c.status);
    PriorityThenStatus(orders, c);
    SearchStepIsFilter(afterStatus, c.searchTerm);
    SelectionReordered(c);
    FilterFuse(orders, PriorityAndStatus(c), SearchCriterion(c.searchTerm), SelectedKeep(c));
  }

  /** With no search term and both filters at `all`, every order shows. */
  lemma NoCriteriaKeepsAll(orders: seq<Order>)
    ensures FilterOrders(orders, Criteria("", All, All)) == orders
  {
  }

  /** The search predicate itself accepts every order for the empty term,
      so skipping the step for it loses nothing. */
  /** The search ignores the case of the term: lowering it first changes
      nothing. */
  lemma SearchIgnoresCase(term: string, o: Order)
    ensures MatchesSearch(Lower(term), o) == MatchesSearch(term, o)
  {
    LowerIdempotent(term);
  }

  // ---------------------------------------------------------------------
  // Updates
  // ---------------------------------------------------------------------

  /** A partial order record: the fields present overwrite the order's. */
  datatype OrderPatch = OrderPatch(
    id: Option<string>,
    orderNumber: Option<string>,
    productName: Option<string>,
    customerName: Option<string>,
    customerEmail: Option<string>,
    status: Option<Status>,
    priority: Option<Priority>,
    createdDate: Option<int>,
    estimatedDelivery: Option<string>,
    totalAmount: Option<real>,
    fromAddress: Option<Place>,
    toAddress: Option<Place>,
    dimensions: Option<Dimensions>,
    trackingNumber: Option<Option<string>>)

  const EmptyPatch: OrderPatch :=
    OrderPatch(None, None, None, None, None, None, None, None, None, None, None, None, None, None)

  /** The patch a status selector sends: only `status`. */
  function StatusPatch(s: Status): OrderPatch {
    EmptyPatch.(status := Some(s))
  }

  /** `{ ...order, ...updates }`: an empty patch changes nothing, a field
      the patch carries takes the patch's value, a patch without an id keeps
      the id, and a patch carrying only a status changes only the status. */
  function ApplyPatch(o: Order, p: OrderPatch): (r: Order)
    ensures p == EmptyPatch ==> r == o
    ensures p.status.Some? ==> r.status == p.status.value
    ensures p.id.None? ==> r.id == o.id
    ensures p == EmptyPatch.(status := p.status) ==> r == o.(status := r.status)
  {
    Order(
      p.id.GetOr(o.id),
      p.orderNumber.GetOr(o.orderNumber),
      p.productName.GetOr(o.productName),
      p.customerName.GetOr(o.customerName),
      p.customerEmail.GetOr(o.customerEmail),
      p.status.GetOr(o.status),
      p.priority.GetOr(o.priority),
      p.createdDate.GetOr(o.createdDate),
      p.estimatedDelivery.GetOr(o.estimatedDelivery),
      p.totalAmount.GetOr(o.totalAmount),
      p.fromAddress.GetOr(o.fromAddress),
      p.toAddress.GetOr(o.toAddress),
      p.dimensions.GetOr(o.dimensions),
      p.trackingNumber.GetOr(o.trackingNumber))
  }

  /** A patch applied twice is applied once. */
  lemma ApplyPatchIdempotent(o: Order, p: OrderPatch)
    ensures ApplyPatch(ApplyPatch(o, p), p) == ApplyPatch(o, p)
  {
  }

  /** `handleOrderUpdate`: the patch is applied to the orders with the given
      id; the list keeps its length and order and every other order stays
      as it was. */
  function HandleOrderUpdate(orders: seq<Order>, orderId: string, p: OrderPatch): (r: seq<Order>)
    ensures |r| == |orders|
    ensures forall i :: 0 <= i < |orders| && orders[i].id != orderId ==> r[i] == orders[i]
    ensures forall i :: 0 <= i < |orders| && orders[i].id == orderId ==> r[i] == ApplyPatch(orders[i], p)
  {
    if |orders| == 0 then []
    else
      var head := if orders[0].id == orderId then ApplyPatch(orders[0], p) else orders[0];
      [head] + HandleOrderUpdate(orders[1..], orderId, p)
  }

  /** An id that no order has leaves the list as it is. */
  lemma UpdateOfUnknownIdIsNoOp(orders: seq<Order>, orderId: string, p: OrderPatch)
    requires forall i :: 0 <= i < |orders| ==> orders[i].id != orderId
    ensures HandleOrderUpdate(orders, orderId, p) == orders
  {
  }

  /** Sending the same update twice has the effect of sending it once. */
  lemma UpdateIdempotent(orders: seq<Order>, orderId: string, p: OrderPatch)
    ensures HandleOrderUpdate(HandleOrderUpdate(orders, orderId, p), orderId, p)
            == HandleOrderUpdate(orders, orderId, p)
  {
    var once := HandleOrderUpdate(orders, orderId, p);
    var twice := HandleOrderUpdate(once, orderId, p);
    forall i | 0 <= i < |orders| ensures twice[i] == once[i] {
      ApplyPatchIdempotent(orders[i], p);
    }
  }

  // ---------------------------------------------------------------------
  // The sample data
  // ---------------------------------------------------------------------

  const Headphones: Order :=
    Order("1", "ORD-2024-001", "Wireless Headphones", "John Doe", "john@example.com",
          Processing, High, 20240115, "2024-01-20", 299.99,
          Place("Tech Store", "New York", "NY", "USA"), Place("John Doe", "Los Angeles", "CA", "USA"),
          Dimensions(8.0, 6.0, 3.0, 1.2, "in", "lb"), Some("TRK123456789"))
  const GamingLaptop: Order :=
    Order("2", "ORD-2024-002", "Gaming Laptop", "Jane Smith", "jane@example.com",
          Pending, Medium, 20240116, "2024-01-25", 1299.99,
          Place("Computer Hub", "Austin", "TX", "USA"), Place("Jane Smith", "Seattle", "WA", "USA"),
          Dimensions(15.0, 10.0, 2.0, 4.5, "in", "lb"), None)
  const SmartWatch: Order :=
    Order("3", "ORD-2024-003", "Smart Watch", "Mike Johnson", "mike@example.com",
          Shipped, Low, 20240112, "2024-01-18", 399.99,
          Place("Gadget Store", "Chicago", "IL", "USA"), Place("Mike Johnson", "Miami", "FL", "USA"),
          Dimensions(4.0, 4.0, 1.0, 0.3, "in", "lb"), Some("TRK987654321"))
  const Speaker: Order :=
    Order("4", "ORD-2024-004", "Bluetooth Speaker", "Sarah Wilson", "sarah@example.com",
          Delivered, Medium, 20240110, "2024-01-15", 149.99,
          Place("Audio Plus", "Denver", "CO", "USA"), Place("Sarah Wilson", "Portland", "OR", "USA"),
          Dimensions(6.0, 4.0, 4.0, 2.1, "in", "lb"), Some("TRK456789123"))

  /** The four sample orders the page starts with. */
  const MockOrders: seq<Order> := [Headphones, GamingLaptop, SmartWatch, Speaker]

  /** An order is missed by a search when, for each searched field, some
      letter of the term cannot be lined up inside the field in either
      case. */
  lemma MissedByLetters(o: Order, term: string, j1: int, j2: int, j3: int)
    requires ExcludesLetter(o.orderNumber, term, j1)
    requires ExcludesLetter(o.productName, term, j2)
    requires ExcludesLetter(o.customerName, term, j3)
    ensures !MatchesSearch(term, o)
  {
    ExcludesLetterLowered(o.orderNumber, term, j1);
    ExcludesLetterLowered(o.productName, term, j2);
    ExcludesLetterLowered(o.customerName, term, j3);
    ExcludesNotIncluded(Lower(o.orderNumber), Lower(term), j1);
    ExcludesNotIncluded(Lower(o.productName), Lower(term), j2);
    ExcludesNotIncluded(Lower(o.customerName), Lower(term), j3);
  }

  lemma LaptopMatchesGamingLaptop()
    ensures MatchesSearch("laptop", GamingLaptop)
  {
    assert Lower("laptop") == "laptop";
    var product := Lower(GamingLaptop.productName);
    assert product[7..13] == "laptop";
    assert OccursAt(product, "laptop", 7);
  }

  // The nine lemmas below each state, for one field of one sample order,
  // which letter of "laptop" that field lacks. They take the order and the
  // term as parameters fixed by `requires` rather than naming the constants
  // in their contracts: the solver then meets the literal strings only
  // inside one small proof at a time, instead of unfolding all of them
  // wherever a scenario lemma uses the fact.

  lemma HeadphonesNumberLacksLetter(o: Order, term: string)
    requires o == Headphones && term == "laptop"
    ensures ExcludesLetter(o.orderNumber, term, 0)
  {
  }

  lemma HeadphonesProductLacksLetter(o: Order, term: string)
    requires o == Headphones && term == "laptop"
    ensures ExcludesLetter(o.productName, term, 3)
  {
  }

  lemma HeadphonesCustomerLacksLetter(o: Order, term: string)
    requires o == Headphones && term == "laptop"
    ensures ExcludesLetter(o.customerName, term, 0)
  {
  }

  lemma LaptopMissesHeadphones(o: Order, term: string)
    requires o == Headphones && term == "laptop"
    ensures !MatchesSearch(term, o)
  {
    HeadphonesNumberLacksLetter(o, term);
    HeadphonesProductLacksLetter(o, term);
    HeadphonesCustomerLacksLetter(o, term);
    MissedByLetters(o, term, 0, 3, 0);
  }

  lemma SmartWatchNumberLacksLetter(o: Order, term: string)
    requires o == SmartWatch && term == "laptop"
    ensures ExcludesLetter(o.orderNumber, term, 0)
  {
  }

  lemma SmartWatchProductLacksLetter(o: Order, term: string)
    requires o == SmartWatch && term == "laptop"
    ensures ExcludesLetter(o.productName, term, 0)
  {
  }

  lemma SmartWatchCustomerLacksLetter(o: Order, term: string)
    requires o == SmartWatch && term == "laptop"
    ensures ExcludesLetter(o.customerName, term, 0)
  {
  }

  lemma LaptopMissesSmartWatch(o: Order, term: string)
    requires o == SmartWatch && term == "laptop"
    ensures !MatchesSearch(term, o)
  {
    SmartWatchNumberLacksLetter(o, term);
    SmartWatchProductLacksLetter(o, term);
    SmartWatchCustomerLacksLetter(o, term);
    MissedByLetters(o, term, 0, 0, 0);
  }

  lemma SpeakerNumberLacksLetter(o: Order, term: string)
    requires o == Speaker && term == "laptop"
    ensures ExcludesLetter(o.orderNumber, term, 0)
  {
  }

  lemma SpeakerProductLacksLetter(o: Order, term: string)
    requires o == Speaker && term == "laptop"
    ensures ExcludesLetter(o.productName, term, 1)
  {
  }

  lemma SpeakerCustomerLacksLetter(o: Order, term: string)
    requires o == Speaker && term == "laptop"
    ensures ExcludesLetter(o.customerName, term, 3)
  {
  }

  lemma LaptopMissesSpeaker(o: Order, term: string)
    requires o == Speaker && term == "laptop"
    ensures !MatchesSearch(term, o)
  {
    SpeakerNumberLacksLetter(o, term);
    SpeakerProductLacksLetter(o, term);
    SpeakerCustomerLacksLetter(o, term);
    MissedByLetters(o, term, 0, 1, 3);
  }

  /** A filter over four orders that keeps only the second. */
  lemma KeepsOnlySecond(a: Order, b: Order, c: Order, d: Order, keep: Order -> bool)
    requires !keep(a) && keep(b) && !keep(c) && !keep(d)
    ensures Filter([a, b, c, d], keep) == [b]
  {
    assert [a, b, c, d][1..] == [b, c, d];
    assert [b, c, d][1..] == [c, d];
    assert [c, d][1..] == [d];
  }

  /** With both selectors at `all`, only a non-empty search narrows the
      list. */
  lemma SearchOnly(orders: seq<Order>, term: string)
    requires term != ""
    ensures FilterOrders(orders, Criteria(term, All, All)) == Filter(orders, SearchKeep(term))
  {
  }

  lemma LaptopFilter(keep: Order -> bool)
    requires keep == SearchKeep("laptop")
    ensures Filter(MockOrders, keep) == [GamingLaptop]
  {
    LaptopMatchesGamingLaptop();
    LaptopMissesHeadphones(Headphones, "laptop");
    LaptopMissesSmartWatch(SmartWatch, "laptop");
    LaptopMissesSpeaker(Speaker, "laptop");
    KeepsOnlySecond(Headphones, GamingLaptop, SmartWatch, Speaker, keep);
  }

  /** Searching the sample orders for "laptop" finds the Gaming Laptop
      order alone. */
  lemma LaptopSearchScenario()
    ensures FilterOrders(MockOrders, Criteria("laptop", All, All)) == [GamingLaptop]
  {
    SearchOnly(MockOrders, "laptop");
    LaptopFilter(SearchKeep("laptop"));
  }

  /** Changing the status of order "3" on the sample orders changes that
      one field of that one order. */
  lemma MockStatusUpdateScenario(s: Status)
    ensures HandleOrderUpdate(MockOrders, "3", StatusPatch(s)) == MockOrders[2 := MockOrders[2].(status := s)]
  {
    assert ApplyPatch(MockOrders[2], StatusPatch(s)) == MockOrders[2].(status := s);
  }
}
