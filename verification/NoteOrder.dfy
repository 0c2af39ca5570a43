/** What a move to a position does to the listing: where the moved note, the notes the user may change, and those the
    user may not change stand afterwards. */
module NoteOrder {
  import opened Notes
  import opened Options
  import Orders = PlaceOrders
  import opened Sequences
  import opened Sets

  // ---------------------------------------------------------------- parts of a listing

  predicate SortedLe(docs: Docs, s: seq<int>) {
    && (forall i :: 0 <= i < |s| ==> s[i] in docs)
    && (forall i, j :: 0 <= i < j < |s| ==> KeyLe(docs, s[i], s[j]))
  }

  lemma {:induction false} SortedFirst(docs: Docs, r: int, rest: seq<int>)
    requires r in docs && Distinct(rest) && SortedLe(docs, rest)
    requires forall x :: x in rest ==> x != r && KeyLe(docs, r, x)
    ensures Distinct([r] + rest) && SortedLe(docs, [r] + rest)
  {
    var s := [r] + rest;
    assert forall j :: 1 <= j < |s| ==> s[j] == rest[j - 1] && rest[j - 1] in rest;
  }

  lemma {:induction false} BelowSorted(docs: Docs, visible: set<int>, rows: seq<int>, p: Option<int>)
    requires Distinct(rows) && SortedLe(docs, rows)
    ensures Distinct(Below(docs, visible, rows, p)) && SortedLe(docs, Below(docs, visible, rows, p))
  {
    if rows != [] {
      var rest := Below(docs, visible, rows[1..], p);
      BelowSorted(docs, visible, rows[1..], p);
      forall x | x in rest ensures x != rows[0] && x in docs && KeyLe(docs, rows[0], x) {
        BelowMembers(docs, visible, rows[1..], p, x);
        var j :| 0 <= j < |rows[1..]| && rows[1..][j] == x;
        assert rows[j + 1] == x;
      }
      SortedFirst(docs, rows[0], rest);
      assert [] + rest == rest;
    }
  }

  lemma {:induction false} WithoutSorted(docs: Docs, rows: seq<int>, d: int)
    requires Distinct(rows) && SortedLe(docs, rows)
    ensures Distinct(Without(rows, d)) && SortedLe(docs, Without(rows, d))
  {
    if rows != [] {
      var rest := Without(rows[1..], d);
      WithoutSorted(docs, rows[1..], d);
      forall x | x in rest ensures x != rows[0] && x in docs && KeyLe(docs, rows[0], x) {
        WithoutMembers(rows[1..], d, x);
        var j :| 0 <= j < |rows[1..]| && rows[1..][j] == x;
        assert rows[j + 1] == x;
      }
      SortedFirst(docs, rows[0], rest);
      assert [] + rest == rest;
    }
  }

  // ---------------------------------------------------------------- moving a note to a position

  predicate KeyLt(docs: Docs, a: int, b: int)
    requires a in docs && b in docs
  {
    docs[a].order < docs[b].order || (docs[a].order == docs[b].order && docs[a].title < docs[b].title)
  }

  lemma {:induction false} WithOrdersAt(docs: Docs, s: seq<int>, orders: seq<int>, x: int)
    requires |s| == |orders| && Distinct(s) && forall i :: 0 <= i < |s| ==> s[i] in docs
    ensures WithOrders(docs, s, orders).Keys == docs.Keys
    ensures forall i :: 0 <= i < |s| && s[i] == x ==> WithOrders(docs, s, orders)[x] == docs[x].(order := orders[i])
    ensures x in docs && x !in s ==> WithOrders(docs, s, orders)[x] == docs[x]
  {
    if s != [] {
      WithOrdersAt(docs[s[0] := docs[s[0]].(order := orders[0])], s[1..], orders[1..], x);
    }
  }

  ghost predicate SameMembers(a: seq<int>, b: seq<int>) {
    (forall x :: x in a ==> x in b) && (forall x :: x in b ==> x in a)
  }

  /** The only sequence sorted as the listing sorts, of notes whose keys strictly grow. */
  lemma {:induction false} SortedUnique(docs: Docs, a: seq<int>, b: seq<int>)
    requires SameMembers(a, b)
    requires (forall i :: 0 <= i < |a| ==> a[i] in docs) && forall i, j :: 0 <= i < j < |a| ==> KeyLt(docs, a[i], a[j])
    requires Distinct(b) && SortedLe(docs, b)
    ensures a == b
    decreases |a|
  {
    FirstMember(a);
    FirstMember(b);
    if a != [] {
      var x, y := a[0], b[0];
      var i :| 0 <= i < |a| && a[i] == y;
      var j :| 0 <= j < |b| && b[j] == x;
      assert x == y;
      forall x ensures x in a[1..] <==> x in b[1..] {
        TailMembers(a, x);
        TailMembers(b, x);
      }
      SortedUnique(docs, a[1..], b[1..]);
      assert a == [a[0]] + a[1..] && b == [b[0]] + b[1..];
    }
  }

  lemma {:induction false} FirstMember(s: seq<int>)
    ensures s != [] ==> exists x :: x in s && s[0] == x
  {
    if s != [] {
      var x := s[0];
      assert x in s;
    }
  }

  lemma {:induction false} TailMembers(s: seq<int>, x: int)
    requires s != [] && Distinct(s)
    ensures x in s[1..] <==> x in s && x != s[0]
  {
    if x in s && x != s[0] {
      var i :| 0 <= i < |s| && s[i] == x;
      assert s[1..][i - 1] == x;
    }
  }

  lemma {:induction false} InsertMembers(s: seq<int>, position: int, d: int, x: int)
    ensures x in Insert(s, position, d) <==> x in s || x == d
  {
    var w := Insert(s, position, d);
    var pos := if position < 0 then 0 else if position < |s| then position else |s|;
    assert s == s[..pos] + s[pos..];
    assert w[pos] == d;
  }

  /** The wanted sequence: the siblings in listing order with `d` put between them. */
  ghost predicate Wanted(docs: Docs, u: User, rows: seq<int>, d: int, position: int, wanted: seq<int>) {
    && IsListing(docs, u, rows) && LiveNote(docs, d)
    && wanted == Insert(Siblings(docs, u, rows, d), position, d)
    && forall i :: 0 <= i < |wanted| ==> wanted[i] in docs
  }

  lemma {:induction false} InsertShape(docs: Docs, s: seq<int>, position: int, d: int)
    requires Distinct(s) && SortedLe(docs, s) && d !in s
    ensures var w := Insert(s, position, d);
            && Distinct(w)
            && forall i, j :: 0 <= i < j < |w| && w[i] != d && w[j] != d ==>
               w[i] in docs && w[j] in docs && KeyLe(docs, w[i], w[j])
  {
    var w := Insert(s, position, d);
    var pos := if position < 0 then 0 else if position < |s| then position else |s|;
    forall i | 0 <= i < |w| ensures w[i] == if i < pos then s[i] else if i == pos then d else s[i - 1] {
    }
    assert forall i :: 0 <= i < |s| ==> s[i] in s && s[i] != d;
  }

  lemma {:induction false} WantedShape(docs: Docs, u: User, rows: seq<int>, d: int, position: int, wanted: seq<int>)
    requires Wanted(docs, u, rows, d, position, wanted)
    ensures Distinct(wanted)
    ensures forall i, j :: 0 <= i < j < |wanted| && wanted[i] != d && wanted[j] != d ==>
            KeyLe(docs, wanted[i], wanted[j])
  {
    hide Below, Without, Insert, Visible, ShownParent;
    var visible := Visible(docs, u);
    var b := Below(docs, visible, rows, ShownParent(docs, visible, d));
    BelowSorted(docs, visible, rows, ShownParent(docs, visible, d));
    WithoutSorted(docs, b, d);
    WithoutMembers(b, d, d);
    InsertShape(docs, Without(b, d), position, d);
  }

  lemma {:induction false} WantedMembers(docs: Docs, u: User, rows: seq<int>, d: int, position: int, wanted: seq<int>,
                                         x: int)
    requires Wanted(docs, u, rows, d, position, wanted)
    ensures x in wanted <==> x == d || x in Below(docs, Visible(docs, u), rows, ShownParent(docs, Visible(docs, u), d))
    ensures d in Below(docs, Visible(docs, u), rows, ShownParent(docs, Visible(docs, u), d)) <==> d in u.readable
  {
    var visible := Visible(docs, u);
    var p := ShownParent(docs, visible, d);
    var b := Below(docs, visible, rows, p);
    InsertMembers(Without(b, d), position, d, x);
    WithoutMembers(b, d, x);
    BelowMembers(docs, visible, rows, p, d);
  }

  // ---------------------------------------------------------------- keys after the move

  /** The user may change the note, or is moving it. */
  predicate Movable(u: User, d: int, x: int) {
    x in u.writable + {d}
  }

  /** `wanted` holds the siblings of a move in the requested order, and `orders` what the placing gave them. */
  ghost predicate Moving(docs: Docs, u: User, d: int, wanted: seq<int>, orders: seq<int>) {
    && Distinct(wanted) && (forall i :: 0 <= i < |wanted| ==> wanted[i] in docs)
    && (forall i, j :: 0 <= i < j < |wanted| && wanted[i] != d && wanted[j] != d ==> KeyLe(docs, wanted[i], wanted[j]))
    && Placed(OrderItems(docs, u.writable + {d}, wanted), orders)
  }

  lemma {:induction false} OrdersGrow(items: seq<Orders.Item>, orders: seq<int>, i: nat)
    requires Placed(items, orders) && 0 < i < |items| && (items[i - 1].writable || items[i].writable)
    ensures orders[i - 1] < orders[i]
  {
    if Orders.AllWritable(items) {
      assert Orders.FixedBefore(items, i) == -1 && Orders.FixedAfter(items, i) == |items|;
      assert Orders.FixedBefore(items, i - 1) == -1 && Orders.FixedAfter(items, i - 1) == |items|;
    } else {
      Orders.Neighbours(items, i);
    }
  }

  /** A note the user may not change keeps its order, whether it is a sibling or not. */
  lemma {:induction false} KeptStays(docs: Docs, u: User, d: int, wanted: seq<int>, orders: seq<int>, x: int)
    requires Moving(docs, u, d, wanted, orders) && x in docs
    ensures var after := WithOrders(docs, wanted, orders);
            && after.Keys == docs.Keys && after[x] == docs[x].(order := after[x].order)
            && (!Movable(u, d, x) ==> after[x] == docs[x])
  {
    var items := OrderItems(docs, u.writable + {d}, wanted);
    WithOrdersAt(docs, wanted, orders, x);
    if x in wanted {
      var i :| 0 <= i < |wanted| && wanted[i] == x;
      if !items[i].writable {
        Orders.KeptOrder(items, i);
      }
    }
  }

  /** From one sibling to the next the keys do not fall, and they grow if the user may change one of the two. */
  lemma {:induction false} KeyGrows(docs: Docs, u: User, d: int, wanted: seq<int>, orders: seq<int>, j: nat)
    requires Moving(docs, u, d, wanted, orders) && 0 < j < |wanted|
    ensures var after := WithOrders(docs, wanted, orders);
            && wanted[j - 1] in after && wanted[j] in after && KeyLe(after, wanted[j - 1], wanted[j])
            && (Movable(u, d, wanted[j - 1]) || Movable(u, d, wanted[j]) ==> KeyLt(after, wanted[j - 1], wanted[j]))
  {
    var items := OrderItems(docs, u.writable + {d}, wanted);
    if items[j - 1].writable || items[j].writable {
      WithOrdersAt(docs, wanted, orders, wanted[j - 1]);
      WithOrdersAt(docs, wanted, orders, wanted[j]);
      OrdersGrow(items, orders, j);
    } else {
      KeptStays(docs, u, d, wanted, orders, wanted[j - 1]);
      KeptStays(docs, u, d, wanted, orders, wanted[j]);
    }
  }

  /** Some sibling from place `i` to place `j`, both included, may be changed. */
  ghost predicate MovableWithin(u: User, d: int, wanted: seq<int>, i: int, j: int) {
    exists k :: 0 <= i <= k <= j < |wanted| && Movable(u, d, wanted[k])
  }

  /** Along the requested order the keys do not fall, and they grow across every note the user may change. */
  lemma {:induction false} KeysGrow(docs: Docs, u: User, d: int, wanted: seq<int>, orders: seq<int>, i: nat, j: nat)
    requires Moving(docs, u, d, wanted, orders) && i < j < |wanted|
    ensures var after := WithOrders(docs, wanted, orders);
            && wanted[i] in after && wanted[j] in after && KeyLe(after, wanted[i], wanted[j])
            && (MovableWithin(u, d, wanted, i, j) ==> KeyLt(after, wanted[i], wanted[j]))
    decreases j
  {
    KeyGrows(docs, u, d, wanted, orders, j);
    if i < j - 1 {
      KeysGrow(docs, u, d, wanted, orders, i, j - 1);
      if MovableWithin(u, d, wanted, i, j) && !MovableWithin(u, d, wanted, i, j - 1) {
        assert Movable(u, d, wanted[j]);
      }
    }
  }

  // ---------------------------------------------------------------- the listing after the move

  /** What the listing `shown` then has below the parent of the moved note. */
  function Row(docs: Docs, after: Docs, u: User, d: int, shown: seq<int>): seq<int>
    requires d in docs && forall i :: 0 <= i < |shown| ==> shown[i] in after
  {
    Below(after, Visible(after, u), shown, ShownParent(docs, Visible(docs, u), d))
  }

  /** `after` are the rows a move of `d` to a position leaves; `docs` already holds the new parent. */
  ghost predicate MovedTo(docs: Docs, u: User, rows: seq<int>, d: int, position: int, wanted: seq<int>,
                          orders: seq<int>, after: Docs) {
    && Wanted(docs, u, rows, d, position, wanted)
    && Placed(OrderItems(docs, u.writable + {d}, wanted), orders)
    && after == WithOrders(docs, wanted, orders)
  }

  lemma {:induction false} MovedIsMoving(docs: Docs, u: User, rows: seq<int>, d: int, position: int, wanted: seq<int>,
                                         orders: seq<int>, after: Docs)
    requires MovedTo(docs, u, rows, d, position, wanted, orders, after)
    ensures Moving(docs, u, d, wanted, orders)
    ensures after.Keys == docs.Keys && Visible(after, u) == Visible(docs, u)
    ensures forall x :: x in docs ==> after[x] == docs[x].(order := after[x].order)
    ensures forall x :: x in docs && !Movable(u, d, x) ==> after[x] == docs[x]
  {
    hide OrderItems, WithOrders, Insert, Siblings, Placed;
    WantedShape(docs, u, rows, d, position, wanted);
    KeptStays(docs, u, d, wanted, orders, d);
    forall x | x in docs
      ensures after[x] == docs[x].(order := after[x].order) && (!Movable(u, d, x) ==> after[x] == docs[x])
    {
      KeptStays(docs, u, d, wanted, orders, x);
    }
  }

  /** The requested sequence as the user can see it: a note that its user may change and not read is in no listing. */
  function Seen(u: User, d: int, wanted: seq<int>): seq<int> {
    if d in u.readable then wanted else Without(wanted, d)
  }

  lemma {:induction false} RowMembers(docs: Docs, u: User, rows: seq<int>, d: int, position: int, wanted: seq<int>,
                                      orders: seq<int>, after: Docs, shown: seq<int>)
    requires MovedTo(docs, u, rows, d, position, wanted, orders, after) && IsListing(after, u, shown)
    ensures SameMembers(Seen(u, d, wanted), Row(docs, after, u, d, shown))
    ensures Distinct(Row(docs, after, u, d, shown)) && SortedLe(after, Row(docs, after, u, d, shown))
  {
    MovedIsMoving(docs, u, rows, d, position, wanted, orders, after);
    var visible := Visible(docs, u);
    var p := ShownParent(docs, visible, d);
    hide Insert, Siblings, Placed, WithOrders, Below, Without;
    BelowSorted(after, visible, shown, p);
    forall x ensures x in Row(docs, after, u, d, shown) <==> x in Seen(u, d, wanted) {
      BelowMembers(after, visible, shown, p, x);
      BelowMembers(docs, visible, rows, p, x);
      WantedMembers(docs, u, rows, d, position, wanted, x);
      WithoutMembers(wanted, d, x);
    }
  }

  lemma {:induction false} WithoutPrecedes(s: seq<int>, d: int, a: int, b: int)
    requires a != d && b != d
    ensures Precedes(Without(s, d), a, b) <==> Precedes(s, a, b)
  {
    if s != [] {
      var rest := Without(s[1..], d);
      WithoutPrecedes(s[1..], d, a, b);
      WithoutMembers(s[1..], d, b);
      PrecedesCons(s[0], s[1..], a, b);
      PrecedesCons(s[0], rest, a, b);
      assert s == [s[0]] + s[1..] && [] + rest == rest;
    }
  }

  lemma {:induction false} WithoutDistinct(s: seq<int>, d: int)
    requires Distinct(s)
    ensures Distinct(Without(s, d))
  {
    if s != [] {
      var rest := Without(s[1..], d);
      WithoutDistinct(s[1..], d);
      WithoutMembers(s[1..], d, s[0]);
      DistinctCons(s[0], rest);
      assert [] + rest == rest;
    }
  }

  /** What the user sees of the requested sequence is in the order requested. */
  lemma {:induction false} SeenPrecedes(u: User, d: int, wanted: seq<int>, i: nat, j: nat)
    requires i < j < |Seen(u, d, wanted)|
    ensures Precedes(wanted, Seen(u, d, wanted)[i], Seen(u, d, wanted)[j])
  {
    var s := Seen(u, d, wanted);
    assert Precedes(s, s[i], s[j]);
    if d !in u.readable {
      WithoutMembers(wanted, d, s[i]);
      WithoutMembers(wanted, d, s[j]);
      WithoutPrecedes(wanted, d, s[i], s[j]);
    }
  }

  /** What stands before what in the requested order has a key no larger, and smaller if the user may change one. */
  lemma {:induction false} KeyBefore(docs: Docs, u: User, d: int, wanted: seq<int>, orders: seq<int>, a: int, b: int)
    requires Moving(docs, u, d, wanted, orders) && Precedes(wanted, a, b)
    ensures var after := WithOrders(docs, wanted, orders);
            && a in after && b in after && KeyLe(after, a, b)
            && (Movable(u, d, a) || Movable(u, d, b) ==> KeyLt(after, a, b))
  {
    var i, j :| 0 <= i < j < |wanted| && wanted[i] == a && wanted[j] == b;
    KeysGrow(docs, u, d, wanted, orders, i, j);
    if Movable(u, d, a) || Movable(u, d, b) {
      assert MovableWithin(u, d, wanted, i, j);
    }
  }

  // ---------------------------------------------------------------- one place for one key

  lemma {:induction false} DistinctSize(s: seq<int>)
    requires Distinct(s)
    ensures |set x | x in s| == |s|
  {
    if s != [] {
      var front, last := s[..|s| - 1], s[|s| - 1];
      DistinctSize(front);
      assert (set x | x in s) == (set x | x in front) + {last};
    }
  }

  /** Sequences with the same members, each once, are of one length. */
  lemma {:induction false} SameLength(a: seq<int>, b: seq<int>)
    requires Distinct(a) && Distinct(b) && SameMembers(a, b)
    ensures |a| == |b|
  {
    DistinctSize(a);
    DistinctSize(b);
    assert (set x | x in a) == (set x | x in b);
  }

  /** A note whose key lies strictly between those before and those behind it in `a` has the same place in every sorted
      sequence of the same notes. */
  lemma {:induction false} OnePlace(docs: Docs, a: seq<int>, b: seq<int>, i: nat)
    requires Distinct(a) && Distinct(b) && SameMembers(a, b) && SortedLe(docs, b)
    requires i < |a| && forall k :: 0 <= k < |a| ==> a[k] in docs
    requires forall k :: 0 <= k < i ==> KeyLt(docs, a[k], a[i])
    requires forall k :: i < k < |a| ==> KeyLt(docs, a[i], a[k])
    ensures |a| == |b| && b[i] == a[i]
  {
    SameLength(a, b);
    var x := a[i];
    assert x in a;
    var j :| 0 <= j < |b| && b[j] == x;
    forall y ensures y in a[..i] ==> y in b[..j] {
      if y in a[..i] {
        var k :| 0 <= k < i && a[k] == y;
        assert y in a;
        var m :| 0 <= m < |b| && b[m] == y;
        assert m < j;
        assert b[..j][m] == y;
      }
    }
    forall y ensures y in b[..j] ==> y in a[..i] {
      if y in b[..j] {
        var m :| 0 <= m < j && b[m] == y;
        assert y in b;
        var k :| 0 <= k < |a| && a[k] == y;
        assert k < i;
        assert a[..i][k] == y;
      }
    }
    SameLength(a[..i], b[..j]);
  }

  /** After a move to a position the moved note, and every other note the user may change, stands at exactly the place
      requested, whatever ties there are among the notes the user may not change; and these keep their order. If the
      user may not read the moved note, the places are those of the sequence without it. */
  lemma {:induction false} MoveStands(docs: Docs, u: User, rows: seq<int>, d: int, position: int, wanted: seq<int>,
                                      orders: seq<int>, after: Docs, shown: seq<int>)
    requires MovedTo(docs, u, rows, d, position, wanted, orders, after) && IsListing(after, u, shown)
    ensures d in wanted && (d in Seen(u, d, wanted) <==> d in u.readable)
    ensures d in u.readable ==>
              var row, others := Row(docs, after, u, d, shown), |wanted| - 1;
              var p := if position < 0 then 0 else if position < others then position else others;
              p < |row| && row[p] == d
    ensures var row, seen := Row(docs, after, u, d, shown), Seen(u, d, wanted);
            |row| == |seen| && forall i :: 0 <= i < |seen| && Movable(u, d, seen[i]) ==> row[i] == seen[i]
    ensures forall x :: x in docs && !Movable(u, d, x) ==> x in after && after[x] == docs[x]
  {
    MovedIsMoving(docs, u, rows, d, position, wanted, orders, after);
    RowMembers(docs, u, rows, d, position, wanted, orders, after, shown);
    InsertMembers(Siblings(docs, u, rows, d), position, d, d);
    InsertStands(Siblings(docs, u, rows, d), position, d);
    WithoutMembers(wanted, d, d);
    WithoutDistinct(wanted, d);
    var row, seen := Row(docs, after, u, d, shown), Seen(u, d, wanted);
    hide Row, Seen, MovedTo, Moving, IsListing, WithOrders, SortedLe, SameMembers, Distinct, KeyLt;
    SameLength(seen, row);
    forall i | 0 <= i < |seen| && Movable(u, d, seen[i]) ensures row[i] == seen[i] {
      forall k | 0 <= k < |seen| && k != i
        ensures seen[k] in after && seen[i] in after
        ensures if k < i then KeyLt(after, seen[k], seen[i]) else KeyLt(after, seen[i], seen[k])
      {
        var lo, hi := if k < i then k else i, if k < i then i else k;
        SeenPrecedes(u, d, wanted, lo, hi);
        KeyBefore(docs, u, d, wanted, orders, seen[lo], seen[hi]);
      }
      assert seen[i] in after by { SeenIn(docs, u, d, wanted, orders, after, i); }
      OnePlace(after, seen, row, i);
    }
  }

  lemma {:induction false} SeenIn(docs: Docs, u: User, d: int, wanted: seq<int>, orders: seq<int>, after: Docs, i: nat)
    requires Moving(docs, u, d, wanted, orders) && after.Keys == docs.Keys && i < |Seen(u, d, wanted)|
    ensures Seen(u, d, wanted)[i] in after
  {
    var x := Seen(u, d, wanted)[i];
    WithoutMembers(wanted, d, x);
    assert x in wanted;
  }

  // ---------------------------------------------------------------- exactly the requested order

  /** Siblings the user may not change, other than `d`, differ in order or title. */
  ghost predicate KeptDistinct(docs: Docs, u: User, d: int, wanted: seq<int>) {
    forall i, j ::
      && 0 <= i < j < |wanted| && wanted[i] in docs && wanted[j] in docs
      && !Movable(u, d, wanted[i]) && !Movable(u, d, wanted[j]) ==>
      docs[wanted[i]].order != docs[wanted[j]].order || docs[wanted[i]].title != docs[wanted[j]].title
  }

  /** If they do, every listing shows exactly the requested sequence below the parent, as far as the user may read
      it. */
  lemma {:induction false} MoveShown(docs: Docs, u: User, rows: seq<int>, d: int, position: int, wanted: seq<int>,
                                     orders: seq<int>, after: Docs, shown: seq<int>)
    requires MovedTo(docs, u, rows, d, position, wanted, orders, after) && IsListing(after, u, shown)
    requires KeptDistinct(docs, u, d, wanted)
    ensures Row(docs, after, u, d, shown) == Seen(u, d, wanted)
  {
    MovedIsMoving(docs, u, rows, d, position, wanted, orders, after);
    RowMembers(docs, u, rows, d, position, wanted, orders, after, shown);
    var seen := Seen(u, d, wanted);
    forall i | 0 <= i < |seen| ensures seen[i] in after {
      SeenIn(docs, u, d, wanted, orders, after, i);
    }
    forall i, j | 0 <= i < j < |seen| ensures KeyLt(after, seen[i], seen[j]) {
      SeenPrecedes(u, d, wanted, i, j);
      KeyBefore(docs, u, d, wanted, orders, seen[i], seen[j]);
      KeptDiffer(docs, u, d, wanted, seen[i], seen[j]);
    }
    SortedUnique(after, seen, Row(docs, after, u, d, shown));
  }

  lemma {:induction false} KeptDiffer(docs: Docs, u: User, d: int, wanted: seq<int>, a: int, b: int)
    requires KeptDistinct(docs, u, d, wanted) && Precedes(wanted, a, b) && a in docs && b in docs
    ensures Movable(u, d, a) || Movable(u, d, b) || docs[a].order != docs[b].order || docs[a].title != docs[b].title
  {
  }

  // ---------------------------------------------------------------- what a tie does

  function InsertByKey(docs: Docs, x: int, rows: seq<int>): seq<int>
    requires x in docs && forall i :: 0 <= i < |rows| ==> rows[i] in docs
  {
    if rows == [] || KeyLe(docs, x, rows[0]) then [x] + rows else [rows[0]] + InsertByKey(docs, x, rows[1..])
  }

  lemma {:induction false} InsertedByKey(docs: Docs, x: int, rows: seq<int>)
    requires x in docs && x !in rows && Distinct(rows) && SortedLe(docs, rows)
    ensures var r := InsertByKey(docs, x, rows);
            Distinct(r) && SortedLe(docs, r) && forall y :: y in r <==> y == x || y in rows
  {
    if rows == [] || KeyLe(docs, x, rows[0]) {
      forall y | y in rows ensures y != x && KeyLe(docs, x, y) {
        var i :| 0 <= i < |rows| && rows[i] == y;
        assert KeyLe(docs, rows[0], rows[i]) || i == 0;
      }
      SortedFirst(docs, x, rows);
    } else {
      var first, rest := rows[0], rows[1..];
      InsertedByKey(docs, x, rest);
      forall y | y in InsertByKey(docs, x, rest) ensures y != first && KeyLe(docs, first, y) {
        if y != x {
          var i :| 0 <= i < |rest| && rest[i] == y;
          assert rows[i + 1] == y;
        }
      }
      SortedFirst(docs, first, InsertByKey(docs, x, rest));
      assert rows == [first] + rest;
    }
  }

  /** Some of the notes, sorted. */
  lemma {:induction false} SomeSorted(docs: Docs, ids: set<int>) returns (rows: seq<int>)
    requires ids <= docs.Keys
    ensures Distinct(rows) && SortedLe(docs, rows) && forall x :: x in rows <==> x in ids
    decreases ids
  {
    rows := [];
    if ids != {} {
      var x := Pick(ids);
      var rest := SomeSorted(docs, ids - {x});
      InsertedByKey(docs, x, rest);
      rows := InsertByKey(docs, x, rest);
    }
  }

  /** There always is a listing. */
  lemma {:induction false} SomeListing(docs: Docs, u: User) returns (rows: seq<int>)
    ensures IsListing(docs, u, rows)
  {
    rows := SomeSorted(docs, Visible(docs, u));
  }

  /** Two notes with the same key may stand the other way round in a listing. */
  lemma {:induction false} SwapTied(docs: Docs, u: User, rows: seq<int>, i: nat, j: nat)
    requires IsListing(docs, u, rows) && i < j < |rows|
    requires KeyLe(docs, rows[j], rows[i])
    ensures IsListing(docs, u, rows[i := rows[j]][j := rows[i]])
  {
    var swapped := rows[i := rows[j]][j := rows[i]];
    forall x ensures x in swapped <==> x in rows {
      if x in rows {
        var k :| 0 <= k < |rows| && rows[k] == x;
        assert swapped[if k == i then j else if k == j then i else k] == x;
      }
      if x in swapped {
        var k :| 0 <= k < |swapped| && swapped[k] == x;
        assert rows[if k == i then j else if k == j then i else k] == x;
      }
    }
    forall k | 0 <= k < |rows| ensures swapped[k] in docs && KeyLe(docs, swapped[k], rows[k])
      && KeyLe(docs, rows[k], swapped[k]) {
    }
  }

  /** The notes below a parent stand in the order of the listing. */
  lemma {:induction false} BelowPrecedes(docs: Docs, visible: set<int>, rows: seq<int>, p: Option<int>, a: int, b: int)
    requires (forall i :: 0 <= i < |rows| ==> rows[i] in docs) && Precedes(Below(docs, visible, rows, p), a, b)
    ensures Precedes(rows, a, b)
  {
    var rest := Below(docs, visible, rows[1..], p);
    assert rows == [rows[0]] + rows[1..];
    PrecedesCons(rows[0], rows[1..], a, b);
    if ShownParent(docs, visible, rows[0]) == p {
      PrecedesCons(rows[0], rest, a, b);
    } else {
      assert [] + rest == rest;
    }
    hide Precedes;
    if b in rest {
      BelowMembers(docs, visible, rows[1..], p, b);
    }
    if Precedes(rest, a, b) {
      BelowPrecedes(docs, visible, rows[1..], p, a, b);
    }
  }

  lemma {:induction false} OneWay(s: seq<int>, a: int, b: int)
    requires Distinct(s) && Precedes(s, a, b)
    ensures !Precedes(s, b, a)
  {
  }

  lemma {:induction false} SwapPrecedes(s: seq<int>, a: int, b: int) returns (i: nat, j: nat)
    requires Precedes(s, a, b)
    ensures i < j < |s| && s[i] == a && s[j] == b
    ensures Precedes(s[i := b][j := a], b, a)
  {
    i, j :| 0 <= i < j < |s| && s[i] == a && s[j] == b;
    var t := s[i := b][j := a];
    assert t[i] == b && t[j] == a;
  }

  /** Where two siblings the user may not change tie, two neighbours do, neither of them the moved note. */
  lemma {:induction false} TiedNeighbours(docs: Docs, u: User, d: int, wanted: seq<int>, orders: seq<int>)
    returns (k: nat)
    requires Moving(docs, u, d, wanted, orders) && !KeptDistinct(docs, u, d, wanted)
    ensures k + 1 < |wanted| && wanted[k] != d && wanted[k + 1] != d
    ensures var after := WithOrders(docs, wanted, orders);
            wanted[k] in after && wanted[k + 1] in after && KeyLe(after, wanted[k + 1], wanted[k])
  {
    var after := WithOrders(docs, wanted, orders);
    var i, j :|
      && 0 <= i < j < |wanted| && wanted[i] in docs && wanted[j] in docs
      && !Movable(u, d, wanted[i]) && !Movable(u, d, wanted[j])
      && docs[wanted[i]].order == docs[wanted[j]].order && docs[wanted[i]].title == docs[wanted[j]].title;
    KeptStays(docs, u, d, wanted, orders, wanted[i]);
    KeptStays(docs, u, d, wanted, orders, wanted[j]);
    KeyGrows(docs, u, d, wanted, orders, i + 1);
    if i + 1 < j {
      KeysGrow(docs, u, d, wanted, orders, i + 1, j);
    }
    k := i;
  }

  lemma {:induction false} SeenBefore(u: User, d: int, wanted: seq<int>, k: nat)
    requires k + 1 < |wanted| && wanted[k] != d && wanted[k + 1] != d
    ensures Precedes(Seen(u, d, wanted), wanted[k], wanted[k + 1])
  {
    assert Precedes(wanted, wanted[k], wanted[k + 1]);
    WithoutPrecedes(wanted, d, wanted[k], wanted[k + 1]);
  }

  /** A tie lets some listing show another sequence. */
  lemma {:induction false} TieShows(docs: Docs, u: User, rows: seq<int>, d: int, position: int, wanted: seq<int>,
                                    orders: seq<int>, after: Docs)
    returns (shown: seq<int>)
    requires MovedTo(docs, u, rows, d, position, wanted, orders, after) && !KeptDistinct(docs, u, d, wanted)
    ensures IsListing(after, u, shown) && Row(docs, after, u, d, shown) != Seen(u, d, wanted)
  {
    MovedIsMoving(docs, u, rows, d, position, wanted, orders, after);
    shown := SomeListing(after, u);
    if Row(docs, after, u, d, shown) == Seen(u, d, wanted) {
      var k := TiedNeighbours(docs, u, d, wanted, orders);
      var x, y := wanted[k], wanted[k + 1];
      var visible, p := Visible(after, u), ShownParent(docs, Visible(docs, u), d);
      SeenBefore(u, d, wanted, k);
      hide MovedTo, Moving, Below, KeptDistinct, Seen;
      BelowPrecedes(after, visible, shown, p, x, y);
      var i, j := SwapPrecedes(shown, x, y);
      var swapped := shown[i := y][j := x];
      SwapTied(after, u, shown, i, j);
      OneWay(swapped, y, x);
      if Row(docs, after, u, d, swapped) == Seen(u, d, wanted) {
        BelowPrecedes(after, visible, swapped, p, x, y);
      }
      shown := swapped;
    }
  }

  /** After a move to a position every listing shows exactly the requested sequence if and only if the siblings the user
      may not change differ in order or title, and the user may read the moved note; in any case it shows that sequence
      as far as the user may read it if and only if these siblings differ. */
  lemma {:induction false} MoveShownExactly(docs: Docs, u: User, rows: seq<int>, d: int, position: int,
                                            wanted: seq<int>, orders: seq<int>, after: Docs)
    requires MovedTo(docs, u, rows, d, position, wanted, orders, after)
    ensures KeptDistinct(docs, u, d, wanted) <==>
            forall shown :: IsListing(after, u, shown) ==> Row(docs, after, u, d, shown) == Seen(u, d, wanted)
    ensures d in u.readable && KeptDistinct(docs, u, d, wanted) <==>
            forall shown :: IsListing(after, u, shown) ==> Row(docs, after, u, d, shown) == wanted
  {
    if KeptDistinct(docs, u, d, wanted) {
      forall shown | IsListing(after, u, shown) ensures Row(docs, after, u, d, shown) == Seen(u, d, wanted) {
        MoveShown(docs, u, rows, d, position, wanted, orders, after, shown);
      }
    } else {
      var shown := TieShows(docs, u, rows, d, position, wanted, orders, after);
    }
    if d !in u.readable {
      var shown := SomeListing(after, u);
      RowMembers(docs, u, rows, d, position, wanted, orders, after, shown);
      InsertMembers(Siblings(docs, u, rows, d), position, d, d);
      WithoutMembers(wanted, d, d);
    }
  }
}
