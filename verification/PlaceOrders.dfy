/** Orders for sibling notes around the notes the user may not change (backend/app/routers/notes.py, _place_orders). */
module PlaceOrders {
  import opened Options

  const MIN_ORDER: int := -0x8000_0000
  const MAX_ORDER: int := 0x7fff_ffff

  datatype Item = Item(writable: bool, order: int)

  // ---------------------------------------------------------------- the wanted assignment

  /** The last note at or before `i` that keeps its order, or -1. */
  function FixedBefore(items: seq<Item>, i: int): (f: int)
    requires -1 <= i < |items|
    ensures -1 <= f <= i
    ensures f >= 0 ==> !items[f].writable
    ensures forall k :: f < k <= i ==> items[k].writable
    decreases i + 1
  {
    if i == -1 || !items[i].writable then i else FixedBefore(items, i - 1)
  }

  /** The first note at or after `i` that keeps its order, or the number of notes. */
  function FixedAfter(items: seq<Item>, i: nat): (g: nat)
    requires i <= |items|
    ensures i <= g <= |items|
    ensures g < |items| ==> !items[g].writable
    ensures forall k :: i <= k < g ==> items[k].writable
    decreases |items| - i
  {
    if i == |items| || !items[i].writable then i else FixedAfter(items, i + 1)
  }

  /** Count on from the kept order before, else count down to the kept order after, else number from 0. */
  function OrderAt(items: seq<Item>, i: nat): int
    requires i < |items|
  {
    var f, g := FixedBefore(items, i), FixedAfter(items, i);
    if f >= 0 then items[f].order + (i - f)
    else if g < |items| then items[g].order - (g - i)
    else i
  }

  predicate AllWritable(items: seq<Item>) {
    forall i :: 0 <= i < |items| ==> items[i].writable
  }

  predicate InRange(o: int) {
    MIN_ORDER <= o <= MAX_ORDER
  }

  /** An assignment that keeps what must be kept, fits the column, and puts every writable note strictly between its
      neighbours. */
  predicate Fits(items: seq<Item>, out: seq<int>) {
    && |out| == |items|
    && (forall i :: 0 <= i < |items| ==> InRange(out[i]))
    && (forall i :: 0 <= i < |items| && !items[i].writable ==> out[i] == items[i].order)
    && (forall i :: 0 < i < |items| && (items[i - 1].writable || items[i].writable) ==> out[i - 1] < out[i])
  }

  /** There is room for the notes between two kept orders. */
  predicate Room(items: seq<Item>, i: nat)
    requires i < |items|
  {
    var f, g := FixedBefore(items, i), FixedAfter(items, i);
    f >= 0 && g < |items| && f < i < g ==> OrderAt(items, i) + (g - i) <= items[g].order
  }

  // ---------------------------------------------------------------- the algorithm

  /** `fixed` lists the kept notes before `upto` in order, as (index, order). */
  ghost predicate FixedList(items: seq<Item>, fixed: seq<(nat, int)>, upto: nat) {
    && upto <= |items|
    && (forall n :: 0 <= n < |fixed| ==>
          fixed[n].0 < upto && !items[fixed[n].0].writable && fixed[n].1 == items[fixed[n].0].order)
    && (forall m, n :: 0 <= m < n < |fixed| ==> fixed[m].0 < fixed[n].0)
    && (forall k :: 0 <= k < upto && !items[k].writable ==> (k, items[k].order) in fixed)
  }

  /** Where the stretch after the n-th kept note ends; with n = -1, the stretch before the first. */
  function StretchEnd(items: seq<Item>, fixed: seq<(nat, int)>, n: int): nat
    requires -1 <= n < |fixed|
  {
    if n + 1 < |fixed| then fixed[n + 1].0 else |items|
  }

  lemma {:induction false} Stretch(items: seq<Item>, fixed: seq<(nat, int)>, n: int, k: nat)
    requires FixedList(items, fixed, |items|) && -1 <= n < |fixed| && k < StretchEnd(items, fixed, n)
    requires n >= 0 ==> fixed[n].0 < k
    ensures items[k].writable
  {
    assert forall m :: 0 <= m < |fixed| ==> fixed[m].0 != k;
    assert (k, items[k].order) !in fixed;
  }

  /** Counts down from the first kept note. */
  method FillBefore(items: seq<Item>, start: seq<int>, firstI: nat, firstO: int) returns (out: seq<int>)
    requires |start| == |items| && firstI < |items| && !items[firstI].writable && firstO == items[firstI].order
    requires forall k :: 0 <= k < firstI ==> items[k].writable
    ensures |out| == |items| && forall k :: firstI <= k < |items| ==> out[k] == start[k]
    ensures forall k :: 0 <= k < firstI ==> out[k] == OrderAt(items, k) && Room(items, k)
  {
    out := start;
    var i := firstI - 1;
    while i >= 0
      invariant -1 <= i < firstI && |out| == |items|
      invariant forall k :: i < k < firstI ==> out[k] == OrderAt(items, k) && Room(items, k)
      invariant forall k :: firstI <= k < |items| ==> out[k] == start[k]
    {
      out := out[i := firstO - 1 - (firstI - 1 - i)];
      i := i - 1;
    }
  }

  /** Counts on from a kept note up to the next one, or to the end. */
  method FillAfter(items: seq<Item>, start: seq<int>, fi: nat, fo: int, end: nat) returns (out: seq<int>)
    requires |start| == |items| && fi < end <= |items| && !items[fi].writable && fo == items[fi].order
    requires (end < |items| ==> !items[end].writable) && forall k :: fi < k < end ==> items[k].writable
    requires end < |items| && fi + 1 < end ==> fo + (end - fi) <= items[end].order
    ensures |out| == |items| && forall k :: 0 <= k < |items| && !(fi < k < end) ==> out[k] == start[k]
    ensures forall k :: fi < k < end ==> out[k] == OrderAt(items, k) && Room(items, k)
  {
    out := start;
    for i := fi + 1 to end
      invariant |out| == |items|
      invariant forall k :: 0 <= k < |items| && !(fi < k < i) ==> out[k] == start[k]
      invariant forall k :: fi < k < i ==> out[k] == OrderAt(items, k) && Room(items, k)
    {
      out := out[i := fo + 1 + (i - fi - 1)];
    }
  }

  /** Everything before the n-th kept note is placed, and the kept notes from there on are untouched. */
  ghost predicate PlacedUpTo(items: seq<Item>, fixed: seq<(nat, int)>, out: seq<int>, n: int)
    requires 0 <= n <= |fixed|
  {
    && |out| == |items|
    && (forall k :: 0 <= k < StretchEnd(items, fixed, n - 1) ==>
          k < |items| && out[k] == OrderAt(items, k) && Room(items, k))
    && (forall m :: n <= m < |fixed| ==> fixed[m].0 < |items| && out[fixed[m].0] == fixed[m].1)
  }

  /** Places the notes after the n-th kept note, if there is room for them before the next. */
  method PlaceAfter(items: seq<Item>, fixed: seq<(nat, int)>, start: seq<int>, n: nat)
    returns (room: bool, out: seq<int>)
    requires FixedList(items, fixed, |items|) && n < |fixed| && PlacedUpTo(items, fixed, start, n)
    ensures room ==> PlacedUpTo(items, fixed, out, n + 1)
    ensures !room ==> exists k :: 0 <= k < |items| && !Room(items, k)
  {
    var (fi, fo) := fixed[n];
    var end := StretchEnd(items, fixed, n);
    forall k | fi < k < end ensures items[k].writable {
      Stretch(items, fixed, n, k);
    }
    if n + 1 < |fixed| && end - fi - 1 > 0 && fixed[n + 1].1 - fo - 1 < end - fi - 1 {
      assert !Room(items, fi + 1);
      return false, start;
    }
    KeptOrder(items, fi);
    room := true;
    out := FillAfter(items, start, fi, fo, end);
  }

  method FixedNotes(items: seq<Item>) returns (fixed: seq<(nat, int)>)
    ensures FixedList(items, fixed, |items|)
  {
    fixed := [];
    for i := 0 to |items|
      invariant FixedList(items, fixed, i)
    {
      if !items[i].writable {
        fixed := fixed + [(i, items[i].order)];
      }
    }
  }

  /** Counts down before the first kept note; nothing behind it is placed yet. */
  method PlaceFirst(items: seq<Item>, fixed: seq<(nat, int)>) returns (out: seq<int>)
    requires FixedList(items, fixed, |items|) && fixed != []
    ensures PlacedUpTo(items, fixed, out, 0)
  {
    out := seq(|items|, i requires 0 <= i < |items| => items[i].order);
    forall k | 0 <= k < fixed[0].0 ensures items[k].writable {
      Stretch(items, fixed, -1, k);
    }
    out := FillBefore(items, out, fixed[0].0, fixed[0].1);
    forall m | 0 <= m < |fixed| ensures out[fixed[m].0] == fixed[m].1 {
      assert m == 0 || fixed[0].0 < fixed[m].0;
    }
  }

  /** Orders for the siblings in the wanted sequence; None if there is no room. */
  method PlaceOrders(items: seq<Item>) returns (r: Option<seq<int>>)
    ensures r.Some? ==> |r.value| == |items| && forall i :: 0 <= i < |items| ==> r.value[i] == OrderAt(items, i)
    ensures r.Some? <==>
            AllWritable(items) || (forall i :: 0 <= i < |items| ==> Room(items, i) && InRange(OrderAt(items, i)))
    ensures r.Some? ==> Counted(items, r.value)
  {
    CountedAt(items);
    hide Counted;
    var fixed := FixedNotes(items);
    if fixed == [] {
      return Some(seq(|items|, i => i));
    }
    var out := PlaceFirst(items, fixed);
    for n := 0 to |fixed|
      invariant PlacedUpTo(items, fixed, out, n)
    {
      var room;
      room, out := PlaceAfter(items, fixed, out, n);
      if !room {
        return None;
      }
    }
    if exists k :: 0 <= k < |out| && !InRange(out[k]) {
      return None;
    }
    return Some(out);
  }

  /** Without kept notes the orders count from 0. After a kept note they count on from its order by one; before the
      first, they count down to its order by one. */
  predicate Counted(items: seq<Item>, out: seq<int>) {
    && |out| == |items|
    && ((forall k :: 0 <= k < |items| ==> items[k].writable) ==> forall i :: 0 <= i < |items| ==> out[i] == i)
    && (forall f, i :: 0 <= f <= i < |items| && !items[f].writable && (forall k :: f < k <= i ==> items[k].writable) ==>
          out[i] == items[f].order + (i - f))
    && (forall i, g :: 0 <= i <= g < |items| && !items[g].writable && (forall k :: 0 <= k < g ==> items[k].writable) ==>
          out[i] == items[g].order - (g - i))
  }

  lemma {:induction false} CountedAt(items: seq<Item>)
    ensures forall out :: |out| == |items| && (forall i :: 0 <= i < |items| ==> out[i] == OrderAt(items, i)) ==>
              Counted(items, out)
  {
    forall out | |out| == |items| && (forall i :: 0 <= i < |items| ==> out[i] == OrderAt(items, i))
      ensures Counted(items, out)
    {
    }
  }

  lemma {:induction false} KeptOrder(items: seq<Item>, i: nat)
    requires i < |items| && !items[i].writable
    ensures OrderAt(items, i) == items[i].order && Room(items, i)
  {
  }

  // ---------------------------------------------------------------- what the assignment is worth

  /** Room everywhere makes the wanted assignment strictly increasing wherever a note may be moved. */
  lemma {:induction false} OrdersFit(items: seq<Item>, out: seq<int>)
    requires |out| == |items| && forall i :: 0 <= i < |items| ==> out[i] == OrderAt(items, i)
    requires forall i :: 0 <= i < |items| ==> Room(items, i) && InRange(OrderAt(items, i))
    ensures Fits(items, out)
  {
    forall i | 0 <= i < |items| && !items[i].writable ensures out[i] == items[i].order {
      KeptOrder(items, i);
    }
    forall i | 0 < i < |items| && (items[i - 1].writable || items[i].writable) ensures out[i - 1] < out[i] {
      Neighbours(items, i);
    }
  }

  lemma {:induction false} Neighbours(items: seq<Item>, i: nat)
    requires 0 < i < |items| && (items[i - 1].writable || items[i].writable)
    requires Room(items, i - 1) && Room(items, i)
    ensures OrderAt(items, i - 1) < OrderAt(items, i)
  {
    if items[i - 1].writable {
      assert FixedAfter(items, i - 1) == FixedAfter(items, i);
    }
    if items[i].writable {
      assert FixedBefore(items, i) == FixedBefore(items, i - 1);
    }
  }

  /** Any assignment that fits lies at or above what counting on from a kept order gives, and at or below what counting
      down to one gives. */
  lemma {:induction false} FitsFromBelow(items: seq<Item>, out: seq<int>, f: nat, i: nat)
    requires Fits(items, out) && f <= i < |items| && forall k :: f < k <= i ==> items[k].writable
    ensures out[f] + (i - f) <= out[i]
    decreases i
  {
    if f < i {
      FitsFromBelow(items, out, f, i - 1);
    }
  }

  lemma {:induction false} FitsFromAbove(items: seq<Item>, out: seq<int>, i: nat, g: nat)
    requires Fits(items, out) && i <= g < |items| && forall k :: i <= k < g ==> items[k].writable
    ensures out[i] + (g - i) <= out[g]
    decreases g - i
  {
    if i < g {
      FitsFromAbove(items, out, i + 1, g);
    }
  }

  /** Where some assignment fits, the wanted one has room and stays in range. */
  lemma {:induction false} FitsHasRoom(items: seq<Item>, out: seq<int>, i: nat)
    requires Fits(items, out) && !AllWritable(items) && i < |items|
    ensures Room(items, i) && InRange(OrderAt(items, i))
  {
    var f, g := FixedBefore(items, i), FixedAfter(items, i);
    if f >= 0 {
      FitsFromBelow(items, out, f, i);
      if g < |items| {
        FitsFromAbove(items, out, i, g);
      }
    } else {
      var k :| 0 <= k < |items| && !items[k].writable;
      assert g <= k;
      FitsFromAbove(items, out, i, g);
    }
  }

  /** The orders exist exactly when some assignment fits at all; they are then such an assignment. Without kept notes
      the count from 0 must fit the column, which it does up to 2^31 siblings. */
  lemma {:induction false} PlacedExactly(items: seq<Item>)
    requires !AllWritable(items) || |items| <= MAX_ORDER + 1
    ensures (AllWritable(items) || (forall i :: 0 <= i < |items| ==> Room(items, i) && InRange(OrderAt(items, i)))) <==>
            (exists out :: Fits(items, out))
    ensures forall out :: Fits(items, out) ==> forall i :: 0 <= i < |items| ==> -0x8000_0000 <= out[i] <= 0x7fff_ffff
    ensures InRange(-0x8000_0000) && InRange(0x7fff_ffff) && !InRange(-0x8000_0001) && !InRange(0x8000_0000)
    ensures (exists out :: Fits(items, out)) ==>
            Fits(items, seq(|items|, i requires 0 <= i < |items| => OrderAt(items, i)))
  {
    var wanted := seq(|items|, i requires 0 <= i < |items| => OrderAt(items, i));
    if AllWritable(items) {
      forall i | 0 <= i < |items| ensures wanted[i] == i {
        assert FixedBefore(items, i) == -1 && FixedAfter(items, i) == |items|;
      }
      assert Fits(items, wanted);
    } else if out :| Fits(items, out) {
      forall i | 0 <= i < |items| ensures Room(items, i) && InRange(OrderAt(items, i)) {
        FitsHasRoom(items, out, i);
      }
      OrdersFit(items, wanted);
    } else if forall i :: 0 <= i < |items| ==> Room(items, i) && InRange(OrderAt(items, i)) {
      OrdersFit(items, wanted);
    }
  }
}
