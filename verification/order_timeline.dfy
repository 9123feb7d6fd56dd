/** The timeline view: the orders newest first, each with a position label,
    and a note when there are none. */
module OrderTimeline {
  import opened Seqs
  import opened OpenOrders

  /** Every order is at least as recent as the ones after it. */
  predicate NewestFirst(s: seq<Order>) {
    forall i, j :: 0 <= i < j < |s| ==> s[i].createdDate >= s[j].createdDate
  }

  /** Places `o` before the first order that is not newer than it. */
  function Insert(o: Order, s: seq<Order>): (r: seq<Order>)
    requires NewestFirst(s)
    ensures NewestFirst(r)
    ensures multiset(r) == multiset(s) + multiset{o}
    ensures |r| == |s| + 1
    ensures r[0] == o || (|s| > 0 && r[0] == s[0])
  {
    if |s| == 0 || s[0].createdDate <= o.createdDate then [o] + s
    else
      var rest := Insert(o, s[1..]);
      assert s == [s[0]] + s[1..];
      [s[0]] + rest
  }

  /** `[...orders].sort((a, b) => b.createdDate - a.createdDate)`: a stable
      sort of a copy, newest first. */
  function SortedOrders(orders: seq<Order>): (r: seq<Order>)
    ensures NewestFirst(r)
    ensures multiset(r) == multiset(orders)
    ensures |r| == |orders|
  {
    if |orders| == 0 then []
    else
      assert orders == [orders[0]] + orders[1..];
      Insert(orders[0], SortedOrders(orders[1..]))
  }

  lemma TailNewestFirst(s: seq<Order>)
    requires |s| > 0 && NewestFirst(s)
    ensures NewestFirst(s[1..])
  {
    var rest := s[1..];
    forall i, j | 0 <= i < j < |rest| ensures rest[i].createdDate >= rest[j].createdDate {
      assert rest[i] == s[i + 1] && rest[j] == s[j + 1];
    }
  }

  /** Keeps the orders created at instant `d`. */
  function CreatedAt(d: int): Order -> bool {
    (o: Order) => o.createdDate == d
  }

  /** Inserting keeps the order among orders created at the same instant:
      `o` goes in front of them. */
  lemma {:induction false} InsertIsStable(o: Order, s: seq<Order>, d: int)
    requires NewestFirst(s)
    ensures Filter(Insert(o, s), CreatedAt(d))
            == (if o.createdDate == d then [o] else []) + Filter(s, CreatedAt(d))
    decreases |s|
  {
    if |s| == 0 || s[0].createdDate <= o.createdDate {
      FrontInsertStable(o, s, d);
    } else {
      TailNewestFirst(s);
      InsertIsStable(o, s[1..], d);
      BehindInsertStable(o, s, d);
    }
  }

  lemma FrontInsertStable(o: Order, s: seq<Order>, d: int)
    requires NewestFirst(s)
    requires |s| == 0 || s[0].createdDate <= o.createdDate
    ensures Filter(Insert(o, s), CreatedAt(d))
            == (if o.createdDate == d then [o] else []) + Filter(s, CreatedAt(d))
  {
    InsertInFront(o, s);
    FilterConcat([o], s, CreatedAt(d));
    FilterSingle(o, CreatedAt(d));
  }

  lemma BehindInsertStable(o: Order, s: seq<Order>, d: int)
    requires NewestFirst(s)
    requires |s| > 0 && s[0].createdDate > o.createdDate
    requires NewestFirst(s[1..]) && Filter(Insert(o, s[1..]), CreatedAt(d))
            == (if o.createdDate == d then [o] else []) + Filter(s[1..], CreatedAt(d))
    ensures Filter(Insert(o, s), CreatedAt(d))
            == (if o.createdDate == d then [o] else []) + Filter(s, CreatedAt(d))
  {
    InsertBehind(o, s);
    PassOlderHead(o, s[0], Insert(o, s[1..]), s[1..], d);
    assert s == [s[0]] + s[1..];
  }

  /** An order older than `s0` cannot share its instant, so moving it past
      `s0` keeps the same-instant order. */
  lemma PassOlderHead(o: Order, s0: Order, ins: seq<Order>, rest: seq<Order>, d: int)
    requires s0.createdDate > o.createdDate
    requires Filter(ins, CreatedAt(d)) == (if o.createdDate == d then [o] else []) + Filter(rest, CreatedAt(d))
    ensures Filter([s0] + ins, CreatedAt(d)) == (if o.createdDate == d then [o] else []) + Filter([s0] + rest, CreatedAt(d))
  {
    var keep := CreatedAt(d);
    FilterCons(s0, ins, keep);
    FilterCons(s0, rest, keep);
    PrefixesCommute(if keep(s0) then [s0] else [], if o.createdDate == d then [o] else [], Filter(rest, keep));
  }

  /** Two prefixes, one of them empty, can be applied in either order. */
  lemma PrefixesCommute<T>(p: seq<T>, q: seq<T>, x: seq<T>)
    requires p == [] || q == []
    ensures p + (q + x) == q + (p + x)
  {
    if p == [] {
      assert p + (q + x) == q + x == q + (p + x);
    } else {
      assert p + (q + x) == p + x == q + (p + x);
    }
  }

  /** The sort is stable: orders created at the same instant keep their
      relative order. */
  lemma {:induction false} SortIsStable(orders: seq<Order>, d: int)
    ensures Filter(SortedOrders(orders), CreatedAt(d)) == Filter(orders, CreatedAt(d))
    decreases |orders|
  {
    if |orders| > 0 {
      var o, rest := orders[0], orders[1..];
      assert orders == [o] + rest;
      SortIsStable(rest, d);
      InsertIsStable(o, SortedOrders(rest), d);
      FilterConcat([o], rest, CreatedAt(d));
    }
  }

  /** Sorting a list that is already newest first changes nothing. */
  lemma {:induction false} SortKeepsSortedList(orders: seq<Order>)
    requires NewestFirst(orders)
    ensures SortedOrders(orders) == orders
    decreases |orders|
  {
    if |orders| > 0 {
      var rest := orders[1..];
      TailNewestFirst(orders);
      SortKeepsSortedList(rest);
      if |rest| > 0 {
        assert rest[0] == orders[1];
      }
    }
  }

  /** Sorting twice is sorting once. */
  lemma SortIdempotent(orders: seq<Order>)
    ensures SortedOrders(SortedOrders(orders)) == SortedOrders(orders)
  {
    SortKeepsSortedList(SortedOrders(orders));
  }

  /** The first order shown is the newest one. */
  lemma LatestIsNewest(orders: seq<Order>)
    requires |orders| > 0
    ensures forall i :: 0 <= i < |orders| ==> orders[i].createdDate <= SortedOrders(orders)[0].createdDate
  {
    var r := SortedOrders(orders);
    forall i | 0 <= i < |orders| ensures orders[i].createdDate <= r[0].createdDate {
      assert orders[i] in multiset(r);
      var k :| 0 <= k < |r| && r[k] == orders[i];
    }
  }

  /** The label under a card: `Latest` for the first, `i+1 of n` for the
      others. */
  datatype PositionLabel = Latest | Nth(position: nat, total: nat)

  function Label(index: nat, total: nat): (r: PositionLabel)
    ensures r.Latest? <==> index == 0
    ensures r.Nth? ==> r.position == index + 1 && r.total == total
  {
    if index == 0 then Latest else Nth(index + 1, total)
  }

  /** One card of the timeline. */
  datatype Entry = Entry(order: Order, caption: PositionLabel)

  /** The timeline: the sorted orders with their labels, and whether the
      empty-state note shows. */
  datatype Timeline = Timeline(entries: seq<Entry>, showsEmptyNote: bool)

  function View(orders: seq<Order>): (t: Timeline)
    ensures |t.entries| == |orders|
    ensures t.showsEmptyNote <==> orders == []
    ensures forall i :: 0 <= i < |t.entries| ==> t.entries[i].order == SortedOrders(orders)[i]
    ensures forall i :: 0 <= i < |t.entries| ==> t.entries[i].caption == Label(i, |orders|)
  {
    var sorted := SortedOrders(orders);
    Timeline(seq(|sorted|, i requires 0 <= i < |sorted| => Entry(sorted[i], Label(i, |sorted|))), |sorted| == 0)
  }

  /** Exactly one card, the first, is labelled `Latest`; the others count
      from 2 up to the number of orders. */
  lemma LabelsNumberTheCards(orders: seq<Order>)
    ensures var es := View(orders).entries;
            && (forall i :: 0 <= i < |es| ==> (es[i].caption.Latest? <==> i == 0))
            && (forall i :: 0 < i < |es| ==> 2 <= es[i].caption.position <= |orders|)
            && (forall i, j :: 0 < i < j < |es| ==> es[i].caption.position < es[j].caption.position)
  {
  }

  /** An order no older than the head goes in front. */
  lemma InsertInFront(o: Order, s: seq<Order>)
    requires NewestFirst(s) && (|s| == 0 || s[0].createdDate <= o.createdDate)
    ensures Insert(o, s) == [o] + s
  {
  }

  /** An order older than the head goes after it. */
  lemma InsertBehind(o: Order, s: seq<Order>)
    requires NewestFirst(s) && |s| > 0 && s[0].createdDate > o.createdDate
    ensures Insert(o, s) == [s[0]] + Insert(o, s[1..])
  {
  }

  lemma SortedCons(o: Order, rest: seq<Order>)
    ensures SortedOrders([o] + rest) == Insert(o, SortedOrders(rest))
  {
    assert ([o] + rest)[1..] == rest;
  }

  /** An order in front of a newest-first list, older than the list's
      head only, moves to second place. */
  lemma SortPastNewerHead(a: Order, s: seq<Order>)
    requires NewestFirst(s) && |s| > 0 && s[0].createdDate > a.createdDate
    requires |s| == 1 || s[1].createdDate <= a.createdDate
    ensures SortedOrders([a] + s) == [s[0]] + ([a] + s[1..])
  {
    SortKeepsSortedList(s);
    SortedCons(a, s);
    InsertBehind(a, s);
    TailNewestFirst(s);
    InsertInFront(a, s[1..]);
  }

  lemma ThreeNewestFirst(b: Order, c: Order, d: Order)
    requires b.createdDate >= c.createdDate >= d.createdDate
    ensures NewestFirst([b, c, d])
  {
  }

  /** Four orders where only the first two are out of place. */
  lemma SortSwapsFirstTwo(a: Order, b: Order, c: Order, d: Order)
    requires b.createdDate > a.createdDate > c.createdDate > d.createdDate
    ensures SortedOrders([a, b, c, d]) == [b, a, c, d]
  {
    var tail := [b, c, d];
    ThreeNewestFirst(b, c, d);
    SecondToFront(a, b, c, d);
    SortPastNewerHead(a, tail);
  }

  lemma SecondToFront(a: Order, b: Order, c: Order, d: Order)
    ensures [a, b, c, d] == [a] + [b, c, d]
    ensures [[b, c, d][0]] + ([a] + [b, c, d][1..]) == [b, a, c, d]
  {
    assert [b, c, d][1..] == [c, d];
  }

  /** The sample orders on the timeline: the laptop of 16 January, the
      headphones of the 15th, the watch of the 12th, the speaker of the
      10th. */
  lemma MockTimelineScenario()
    ensures SortedOrders(MockOrders) == [GamingLaptop, Headphones, SmartWatch, Speaker]
  {
    SortSwapsFirstTwo(Headphones, GamingLaptop, SmartWatch, Speaker);
  }
}
