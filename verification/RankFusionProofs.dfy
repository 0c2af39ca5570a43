/** What the merged scores and pages mean: which documents are ranked, in what order, how high a score can be, what a
    better place does, and that the pages tile the ranking. */
module RankFusionProofs {
  import opened RankFusion
  import opened Sequences

  // ---------------------------------------------------------------- which documents are found

  lemma {:induction false} AddedKeys(keys: seq<int>, list: seq<int>, d: int)
    ensures d in AddKeys(keys, list) <==> d in keys || d in list
  {
    if list != [] {
      var last := |list| - 1;
      AddedKeys(keys, list[..last], d);
      assert list == list[..last] + [list[last]];
    }
  }

  lemma {:induction false} AddedKeysOfAll(keys: seq<int>, lists: seq<seq<int>>, d: int)
    ensures d in AddKeysOfAll(keys, lists) <==> d in keys || exists s :: 0 <= s < |lists| && d in lists[s]
  {
    if lists != [] {
      var last := |lists| - 1;
      AddedKeysOfAll(keys, lists[..last], d);
      AddedKeys(AddKeysOfAll(keys, lists[..last]), lists[last], d);
      if s :| 0 <= s < |lists| && d in lists[s] {
        assert s < last ==> lists[..last][s] == lists[s];
      }
      if d in AddKeysOfAll(keys, lists[..last]) && d !in keys {
        var s :| 0 <= s < |lists[..last]| && d in lists[..last][s];
        assert d in lists[s];
      }
    }
  }

  lemma {:induction false} AddedDistinct(keys: seq<int>, list: seq<int>)
    requires Distinct(keys)
    ensures Distinct(AddKeys(keys, list))
  {
    if list != [] {
      AddedDistinct(keys, list[..|list| - 1]);
    }
  }

  lemma {:induction false} AddedDistinctOfAll(keys: seq<int>, lists: seq<seq<int>>)
    requires Distinct(keys)
    ensures Distinct(AddKeysOfAll(keys, lists))
  {
    if lists != [] {
      var last := |lists| - 1;
      AddedDistinctOfAll(keys, lists[..last]);
      AddedDistinct(AddKeysOfAll(keys, lists[..last]), lists[last]);
    }
  }

  /** Exactly the documents of some list are found, each once. */
  lemma {:induction false} FoundExactly(q: Query, d: int)
    ensures Distinct(Found(q)) && (d in Found(q) <==> Scored(q, d))
  {
    var meta, fulltext, vector := AddKeysOfAll([], q.meta), AddKeys([], Docs(q.fulltext)), AddKeys([], q.vector);
    AddedKeysOfAll([], q.meta, d);
    AddedKeys([], Docs(q.fulltext), d);
    AddedKeys([], q.vector, d);
    AddedKeys(meta, fulltext, d);
    AddedKeys(AddKeys(meta, fulltext), vector, d);
    AddedDistinctOfAll([], q.meta);
    AddedDistinct(meta, fulltext);
    AddedDistinct(AddKeys(meta, fulltext), vector);
    hide Docs;
  }

  // ---------------------------------------------------------------- the order

  /** `a` comes before `b`: by a higher score, or by the order of the keys. */
  predicate Beats(keys: seq<int>, score: int -> real, a: int, b: int) {
    score(a) > score(b) || (score(a) == score(b) && Precedes(keys, a, b))
  }

  lemma {:induction false} PlacePrecedes(d: int, ranked: seq<int>, score: int -> real, a: int, b: int)
    requires a != d && b != d
    ensures Precedes(Place(d, ranked, score), a, b) <==> Precedes(ranked, a, b)
  {
    var placed := Place(d, ranked, score);
    if ranked == [] || score(ranked[0]) <= score(d) {
      PrecedesCons(d, ranked, a, b);
    } else {
      PlacePrecedes(d, ranked[1..], score, a, b);
      PlaceMembers(d, ranked[1..], score, b);
      PrecedesCons(ranked[0], ranked[1..], a, b);
      PrecedesCons(ranked[0], Place(d, ranked[1..], score), a, b);
      assert ranked == [ranked[0]] + ranked[1..];
    }
  }

  predicate Falling(s: seq<int>, score: int -> real) {
    forall i, j :: 0 <= i < j < |s| ==> score(s[i]) >= score(s[j])
  }

  lemma {:induction false} FallingTail(s: seq<int>, score: int -> real)
    requires Falling(s, score) && s != []
    ensures Falling(s[1..], score) && forall x :: x in s[1..] ==> score(s[0]) >= score(x)
  {
  }

  lemma {:induction false} FallingCons(d: int, s: seq<int>, score: int -> real)
    requires Falling(s, score) && forall x :: x in s ==> score(d) >= score(x)
    ensures Falling([d] + s, score)
  {
    var t := [d] + s;
    forall i, j | 0 <= i < j < |t| ensures score(t[i]) >= score(t[j]) {
      assert t[j] == s[j - 1] && t[j] in s;
      assert i > 0 ==> t[i] == s[i - 1];
    }
  }

  /** A placed document stands before exactly those that do not have a higher score. */
  lemma {:induction false} PlaceNew(d: int, ranked: seq<int>, score: int -> real, x: int)
    requires Falling(ranked, score) && d !in ranked && x in ranked
    ensures Falling(Place(d, ranked, score), score)
    ensures Precedes(Place(d, ranked, score), d, x) <==> score(d) >= score(x)
    ensures Precedes(Place(d, ranked, score), x, d) <==> score(x) > score(d)
  {
    var first, rest := ranked[0], ranked[1..];
    FallingTail(ranked, score);
    assert ranked == [first] + rest;
    if score(first) <= score(d) {
      FallingCons(d, ranked, score);
      PrecedesCons(d, ranked, d, x);
      PrecedesCons(d, ranked, x, d);
      NotInside(ranked, d, x);
    } else {
      var placed := Place(d, rest, score);
      PlaceMembers(d, rest, score, d);
      PlaceMembers(d, rest, score, x);
      PlaceFalling(d, rest, score);
      forall y | y in placed ensures score(first) >= score(y) {
        PlaceMembers(d, rest, score, y);
      }
      FallingCons(first, placed, score);
      PrecedesCons(first, placed, d, x);
      PrecedesCons(first, placed, x, d);
      if x in rest {
        PlaceNew(d, rest, score, x);
      } else {
        NotThere(placed, x);
        PlaceMembers(d, rest, score, x);
      }
    }
  }

  lemma {:induction false} PlaceFalling(d: int, ranked: seq<int>, score: int -> real)
    requires Falling(ranked, score)
    ensures Falling(Place(d, ranked, score), score)
  {
    if ranked == [] {
    } else if score(ranked[0]) <= score(d) {
      FallingTail(ranked, score);
      forall x | x in ranked ensures score(d) >= score(x) {
        assert x == ranked[0] || x in ranked[1..];
      }
      FallingCons(d, ranked, score);
    } else {
      FallingTail(ranked, score);
      PlaceFalling(d, ranked[1..], score);
      forall x | x in Place(d, ranked[1..], score) ensures score(ranked[0]) >= score(x) {
        PlaceMembers(d, ranked[1..], score, x);
      }
      FallingCons(ranked[0], Place(d, ranked[1..], score), score);
    }
  }

  lemma {:induction false} NotInside(s: seq<int>, d: int, x: int)
    requires d !in s
    ensures !Precedes(s, d, x) && !Precedes(s, x, d)
  {
  }

  lemma {:induction false} NotThere(s: seq<int>, x: int)
    ensures x !in s ==> forall y :: !Precedes(s, x, y) && !Precedes(s, y, x)
  {
  }

  lemma {:induction false} PlaceDistinct(d: int, ranked: seq<int>, score: int -> real)
    requires Distinct(ranked) && d !in ranked
    ensures Distinct(Place(d, ranked, score))
  {
    if ranked == [] || score(ranked[0]) <= score(d) {
      DistinctCons(d, ranked);
    } else {
      PlaceDistinct(d, ranked[1..], score);
      PlaceMembers(d, ranked[1..], score, ranked[0]);
      DistinctCons(ranked[0], Place(d, ranked[1..], score));
    }
  }

  lemma {:induction false} RankedFalling(keys: seq<int>, score: int -> real)
    requires Distinct(keys)
    ensures Falling(Ranked(keys, score), score) && Distinct(Ranked(keys, score))
  {
    if keys != [] {
      RankedFalling(keys[1..], score);
      PlaceFalling(keys[0], Ranked(keys[1..], score), score);
      RankedMembers(keys[1..], score, keys[0]);
      PlaceDistinct(keys[0], Ranked(keys[1..], score), score);
    }
  }

  /** The ranking is by score, and by the order of the keys where scores are the same. */
  lemma {:induction false} RankedOrder(keys: seq<int>, score: int -> real, a: int, b: int)
    requires Distinct(keys) && a in keys && b in keys && a != b
    ensures Precedes(Ranked(keys, score), a, b) <==> Beats(keys, score, a, b)
  {
    var k, rest := keys[0], keys[1..];
    var ranked := Ranked(rest, score);
    assert keys == [k] + rest && k !in rest;
    RankedFalling(rest, score);
    RankedMembers(rest, score, k);
    RankedMembers(rest, score, a);
    RankedMembers(rest, score, b);
    PrecedesCons(k, rest, a, b);
    NotInside(rest, k, a);
    hide Precedes, Place, Falling, Distinct;
    if a == k {
      PlaceNew(k, ranked, score, b);
    } else if b == k {
      PlaceNew(k, ranked, score, a);
    } else {
      RestDistinct(keys);
      RankedOrder(rest, score, a, b);
      PlacePrecedes(k, ranked, score, a, b);
    }
  }

  lemma {:induction false} RestDistinct(keys: seq<int>)
    requires Distinct(keys) && keys != []
    ensures Distinct(keys[1..])
  {
  }

  predicate Showable(q: Query, d: int) {
    InLists(q, d) || q.found(d)
  }

  lemma {:induction false} ShownKeeps(q: Query, ranked: seq<int>, a: int, b: int)
    ensures a in Shown(q, ranked) <==> a in ranked && Showable(q, a)
    ensures Precedes(Shown(q, ranked), a, b) <==> Precedes(ranked, a, b) && Showable(q, a) && Showable(q, b)
  {
    if ranked == [] {
    } else {
      var front, last := ranked[..|ranked| - 1], ranked[|ranked| - 1];
      ShownKeeps(q, front, a, b);
      assert ranked == front + [last];
      PrecedesLast(front, last, a, b);
      PrecedesLast(Shown(q, front), last, a, b);
      hide Precedes;
      assert Shown(q, front) + [] == Shown(q, front);
    }
  }

  lemma {:induction false} ShownDistinct(q: Query, ranked: seq<int>)
    requires Distinct(ranked)
    ensures Distinct(Shown(q, ranked))
  {
    if ranked != [] {
      var front, last := ranked[..|ranked| - 1], ranked[|ranked| - 1];
      ShownDistinct(q, front);
      ShownKeeps(q, front, last, last);
      assert forall i :: 0 <= i < |front| ==> front[i] == ranked[i];
      assert last !in front;
    }
  }

  function ScoreOf(q: Query): int -> real
    requires |q.meta| <= |META_WEIGHTS|
  {
    d => Score(q, d)
  }

  /** The results are the documents of the lists that can be shown, each once, from the highest score down, and equal
      scores in the order in which the documents were found. */
  lemma {:induction false} ResultsExactly(q: Query, a: int, b: int)
    requires |q.meta| <= |META_WEIGHTS|
    ensures Distinct(Results(q))
    ensures a in Results(q) <==> Scored(q, a) && Showable(q, a)
    ensures a in Results(q) && b in Results(q) && a != b ==>
              (Precedes(Results(q), a, b) <==> Beats(Found(q), ScoreOf(q), a, b))
  {
    var keys, score := Found(q), ScoreOf(q);
    var ranked := Ranked(keys, score);
    RankedSame(keys, score, d => Score(q, d));
    FoundExactly(q, a);
    FoundExactly(q, b);
    RankedFalling(keys, score);
    RankedMembers(keys, score, a);
    RankedMembers(keys, score, b);
    ShownDistinct(q, ranked);
    ShownKeeps(q, ranked, a, b);
    ShownKeeps(q, ranked, b, a);
    hide Precedes, Shown, Ranked, Distinct, Score, Found, Scored, Showable;
    if a in keys && b in keys && a != b {
      RankedOrder(keys, score, a, b);
    }
  }

  // ---------------------------------------------------------------- the pages

  /** The first `k` pages one after the other. */
  function Pages(results: seq<int>, limit: nat, k: nat): seq<int> {
    if k == 0 then [] else Pages(results, limit, k - 1) + Page(results, (k - 1) * limit, limit)
  }

  /** Consecutive pages tile the results: together they are a beginning of the results, and all of them in the end. */
  lemma {:induction false} PagesTile(results: seq<int>, limit: nat, k: nat)
    ensures Pages(results, limit, k) == results[..Min(k * limit, |results|)]
  {
    if k > 0 {
      PagesTile(results, limit, k - 1);
      OneMorePage(k - 1, limit);
    }
  }

  /** With each document once in the results, two pages share none. */
  lemma {:induction false} PagesApart(results: seq<int>, limit: nat, j: nat, k: nat, d: int)
    requires Distinct(results) && j < k && d in Page(results, j * limit, limit)
    ensures d !in Page(results, k * limit, limit)
  {
    MorePages(j + 1, k, limit);
    OneMorePage(j, limit);
    StretchesApart(results, j * limit, k * limit, limit, d);
  }

  lemma {:induction false} StretchesApart(results: seq<int>, p: nat, q: nat, limit: nat, d: int)
    requires Distinct(results) && p + limit <= q && d in Page(results, p, limit)
    ensures d !in Page(results, q, limit)
  {
    var a, b := Page(results, p, limit), Page(results, q, limit);
    var x :| 0 <= x < |a| && a[x] == d;
    assert results[Min(p, |results|) + x] == d;
    forall y | 0 <= y < |b| ensures b[y] != d {
      assert b[y] == results[Min(q, |results|) + y];
    }
  }

  lemma {:induction false} OneMorePage(k: nat, limit: nat)
    ensures (k + 1) * limit == k * limit + limit
  {
  }

  lemma {:induction false} MorePages(a: nat, b: nat, limit: nat)
    requires a <= b
    ensures a * limit <= b * limit
  {
  }
}
