/** The board view of the orders: one column per status, in a fixed order,
    each holding the orders of that status, and a per-card selector that
    moves an order to another status through the shared update handler. */
module OrderKanban {
  import opened Common
  import opened Text
  import opened Seqs
  import opened OpenOrders

  /** The columns, left to right. */
  const Statuses: seq<Status> := [Pending, Processing, Shipped, Delivered, Cancelled]

  /** Every status has exactly one column. */
  lemma StatusesListsEachOnce()
    ensures |Statuses| == 5
    ensures forall s: Status :: s in Statuses
    ensures forall i, j :: 0 <= i < j < |Statuses| ==> Statuses[i] != Statuses[j]
  {
    forall s: Status ensures s in Statuses {
      match s
      case Pending => assert Statuses[0] == s;
      case Processing => assert Statuses[1] == s;
      case Shipped => assert Statuses[2] == s;
      case Delivered => assert Statuses[3] == s;
      case Cancelled => assert Statuses[4] == s;
    }
  }

  /** The heading of a column. */
  function Title(s: Status): string {
    match s
    case Pending => "Pending"
    case Processing => "Processing"
    case Shipped => "Shipped"
    case Delivered => "Delivered"
    case Cancelled => "Cancelled"
  }

  /** The orders of one status, in list order. */
  function OrdersByStatus(orders: seq<Order>, s: Status): (r: seq<Order>)
    ensures |r| <= |orders|
    ensures forall i :: 0 <= i < |r| ==> r[i].status == s && r[i] in orders
    ensures forall i :: 0 <= i < |orders| && orders[i].status == s ==> orders[i] in r
  {
    Filter(orders, StatusKeep(s))
  }

  /** A column lists its orders in the order of the list it is drawn
      from. */
  lemma ColumnKeepsListOrder(orders: seq<Order>, s: Status)
    ensures IsSubsequence(OrdersByStatus(orders, s), orders)
  {
    FilterIsSubsequence(orders, StatusKeep(s));
  }

  /** One rendered column: its status, heading, cards, the count shown next
      to the heading, and the note shown when it has no cards. */
  datatype Column = Column(status: Status, title: string, cards: seq<Order>, count: nat, emptyNote: Option<string>)

  function ColumnOf(orders: seq<Order>, s: Status): (c: Column)
    ensures c.status == s && c.title == Title(s)
    ensures c.count == |c.cards|
    ensures forall i :: 0 <= i < |c.cards| ==> c.cards[i].status == s
    ensures c.emptyNote.Some? <==> (forall i :: 0 <= i < |orders| ==> orders[i].status != s)
    ensures c.emptyNote.Some? ==> c.emptyNote.value == "No orders in " + Lower(Title(s))
  {
    var cards := OrdersByStatus(orders, s);
    assert cards == [] <==> (forall i :: 0 <= i < |orders| ==> orders[i].status != s) by {
      if cards != [] {
        assert cards[0] in orders;
      }
    }
    Column(s, Title(s), cards, |cards|, if |cards| == 0 then Some("No orders in " + Lower(Title(s))) else None)
  }

  /** The columns for the statuses `ss`, in that order. */
  function Columns(orders: seq<Order>, ss: seq<Status>): (r: seq<Column>)
    ensures |r| == |ss|
    ensures forall i :: 0 <= i < |r| ==> r[i] == ColumnOf(orders, ss[i])
  {
    if |ss| == 0 then [] else [ColumnOf(orders, ss[0])] + Columns(orders, ss[1..])
  }

  /** The board: one column per status, in the order of `Statuses`. */
  function Board(orders: seq<Order>): (r: seq<Column>)
    ensures |r| == |Statuses|
    ensures forall i :: 0 <= i < |r| ==> r[i].status == Statuses[i] && r[i].cards == OrdersByStatus(orders, Statuses[i])
  {
    Columns(orders, Statuses)
  }

  /** An order sits in the column of its own status and in no other. */
  lemma OrderInExactlyOneColumn(orders: seq<Order>, i: int)
    requires 0 <= i < |orders|
    ensures forall s :: orders[i] in OrdersByStatus(orders, s) <==> s == orders[i].status
  {
    forall s ensures orders[i] in OrdersByStatus(orders, s) ==> s == orders[i].status {
      var r := OrdersByStatus(orders, s);
      if orders[i] in r {
        var k :| 0 <= k < |r| && r[k] == orders[i];
      }
    }
  }

  /** The cards of a row of columns, counted with multiplicity. */
  ghost function AllCards(cols: seq<Column>): multiset<Order> {
    if |cols| == 0 then multiset{} else multiset(cols[0].cards) + AllCards(cols[1..])
  }

  /** The counts shown on a row of columns, added up. */
  function TotalCount(cols: seq<Column>): nat {
    if |cols| == 0 then 0 else cols[0].count + TotalCount(cols[1..])
  }

  lemma {:induction false} TotalCountIsCards(orders: seq<Order>, ss: seq<Status>)
    ensures TotalCount(Columns(orders, ss)) == |AllCards(Columns(orders, ss))|
    decreases |ss|
  {
    if |ss| > 0 {
      TotalCountIsCards(orders, ss[1..]);
      var cols := Columns(orders, ss);
      assert cols[1..] == Columns(orders, ss[1..]);
    }
  }

  predicate Distinct(ss: seq<Status>) {
    forall i, j :: 0 <= i < j < |ss| ==> ss[i] != ss[j]
  }

  /** Prepending an order adds it to the column of its status only. */
  lemma ColumnOfCons(o: Order, rest: seq<Order>, s: Status)
    ensures multiset(OrdersByStatus([o] + rest, s))
            == (if o.status == s then multiset{o} else multiset{}) + multiset(OrdersByStatus(rest, s))
  {
    assert ([o] + rest)[1..] == rest;
  }

  lemma HeadNotInTail(ss: seq<Status>)
    requires |ss| > 0 && Distinct(ss)
    ensures ss[0] !in ss[1..] && Distinct(ss[1..])
  {
    forall k | 0 <= k < |ss| - 1 ensures ss[1..][k] != ss[0] {
      assert ss[1..][k] == ss[k + 1];
    }
  }

  /** Over distinct statuses, prepending an order adds one card when its
      status has a column and none otherwise. */
  lemma {:induction false} ColumnsCons(o: Order, rest: seq<Order>, ss: seq<Status>)
    requires Distinct(ss)
    ensures AllCards(Columns([o] + rest, ss))
            == (if o.status in ss then multiset{o} else multiset{}) + AllCards(Columns(rest, ss))
    decreases |ss|
  {
    if |ss| > 0 {
      var s0, tail := ss[0], ss[1..];
      HeadNotInTail(ss);
      ColumnsCons(o, rest, tail);
      ColumnOfCons(o, rest, s0);
      AllCardsCons([o] + rest, ss);
      AllCardsCons(rest, ss);
    }
  }

  /** The cards of a row of columns are those of its first column and of
      the rest. */
  lemma AllCardsCons(orders: seq<Order>, ss: seq<Status>)
    requires |ss| > 0
    ensures AllCards(Columns(orders, ss)) == multiset(OrdersByStatus(orders, ss[0])) + AllCards(Columns(orders, ss[1..]))
  {
    assert Columns(orders, ss)[1..] == Columns(orders, ss[1..]);
  }

  lemma {:induction false} ColumnsOfNothing(ss: seq<Status>)
    ensures AllCards(Columns([], ss)) == multiset{}
    decreases |ss|
  {
    if |ss| > 0 {
      ColumnsOfNothing(ss[1..]);
      assert Columns([], ss)[1..] == Columns([], ss[1..]);
    }
  }

  /** The columns partition the orders: every order appears on the board
      exactly as often as in the list. */
  lemma {:induction false} ColumnsPartitionOrders(orders: seq<Order>)
    ensures AllCards(Board(orders)) == multiset(orders)
    decreases |orders|
  {
    StatusesListsEachOnce();
    if |orders| > 0 {
      var o, rest := orders[0], orders[1..];
      assert orders == [o] + rest;
      ColumnsPartitionOrders(rest);
      ColumnsCons(o, rest, Statuses);
    } else {
      ColumnsOfNothing(Statuses);
    }
  }

  /** The column counts add up to the number of orders. */
  lemma CountsSumToTotal(orders: seq<Order>)
    ensures TotalCount(Board(orders)) == |orders|
  {
    ColumnsPartitionOrders(orders);
    TotalCountIsCards(orders, Statuses);
  }

  /** The selector on a card: the shared handler with a status-only
      update. */
  function HandleStatusChange(orders: seq<Order>, orderId: string, newStatus: Status): (r: seq<Order>)
    ensures |r| == |orders|
    ensures forall i :: 0 <= i < |orders| && orders[i].id == orderId ==> r[i] == orders[i].(status := newStatus)
    ensures forall i :: 0 <= i < |orders| && orders[i].id != orderId ==> r[i] == orders[i]
  {
    HandleOrderUpdate(orders, orderId, StatusPatch(newStatus))
  }

  /** The board is drawn from the filtered list, recomputed from the updated
      orders. After the change the moved order is on the board exactly when
      it passes the criteria with its new status (so a status criterion for
      any other status takes it off the board), and when it is on the board
      it shows in the column of its new status and in no other. */
  lemma MovedOrderShowsInNewColumn(all: seq<Order>, orderId: string, newStatus: Status, c: Criteria, i: int)
    requires 0 <= i < |all| && all[i].id == orderId
    ensures var moved := all[i].(status := newStatus);
            var shown := FilterOrders(HandleStatusChange(all, orderId, newStatus), c);
            && (moved in shown <==>
                  && Admits(c.status, newStatus)
                  && Admits(c.priority, all[i].priority)
                  && (c.searchTerm == "" || MatchesSearch(c.searchTerm, all[i])))
            && (forall s :: moved in OrdersByStatus(shown, s) <==> moved in shown && s == newStatus)
  {
    var moved := all[i].(status := newStatus);
    var updated := HandleStatusChange(all, orderId, newStatus);
    var shown := FilterOrders(updated, c);
    FilterOrdersSelects(updated, c);
    assert updated[i] == moved;
    assert MatchesSearch(c.searchTerm, moved) == MatchesSearch(c.searchTerm, all[i]);
    if moved in shown {
      var k :| 0 <= k < |shown| && shown[k] == moved;
      assert Selected(c, shown[k]);
    }
  }

  /** Whether an order does not carry the given id. */
  function OtherThan(orderId: string): Order -> bool {
    (o: Order) => o.id != orderId
  }

  lemma HandleStatusChangeCons(o: Order, rest: seq<Order>, orderId: string, newStatus: Status)
    ensures HandleStatusChange([o] + rest, orderId, newStatus)
            == [if o.id == orderId then o.(status := newStatus) else o] + HandleStatusChange(rest, orderId, newStatus)
  {
    assert ([o] + rest)[1..] == rest;
  }

  /** Every column other than the target loses exactly the moved orders and
      keeps the rest in place. */
  lemma {:induction false} OtherColumnsLoseOnlyMovedOrders(orders: seq<Order>, orderId: string, newStatus: Status, s: Status)
    requires s != newStatus
    ensures OrdersByStatus(HandleStatusChange(orders, orderId, newStatus), s)
            == Filter(OrdersByStatus(orders, s), OtherThan(orderId))
    decreases |orders|
  {
    if |orders| > 0 {
      var o, rest := orders[0], orders[1..];
      assert orders == [o] + rest;
      OtherColumnsLoseOnlyMovedOrders(rest, orderId, newStatus, s);
      HandleStatusChangeCons(o, rest, orderId, newStatus);
      var o' := if o.id == orderId then o.(status := newStatus) else o;
      var after := HandleStatusChange(orders, orderId, newStatus);
      assert after[1..] == HandleStatusChange(rest, orderId, newStatus);
      assert OrdersByStatus(orders, s) == (if o.status == s then [o] else []) + OrdersByStatus(rest, s);
      FilterConcat(if o.status == s then [o] else [], OrdersByStatus(rest, s), OtherThan(orderId));
    }
  }
}
