/** How high a merged score can be, and that a better place in a list never lowers it. */
module RankFusionScores {
  import opened Options
  import opened RankFusion
  import opened Sequences

  lemma {:induction false} ShareFalls(weight: real, r: nat, s: nat)
    requires weight >= 0.0 && r <= s
    ensures 0.0 <= Share(weight, s) <= Share(weight, r)
  {
    QuotientFalls(weight, (K + r) as real, (K + s) as real);
  }

  lemma {:induction false} Positive(x: real, y: real)
    ensures x >= 0.0 && y >= 0.0 ==> x * y >= 0.0
    ensures x > 0.0 && y > 0.0 ==> x * y > 0.0
  {
  }

  lemma {:induction false} LessTimes(x: real, y: real, a: real, b: real)
    requires x < y && 0.0 < a <= b && y >= 0.0
    ensures x * a < y * b
  {
    Positive(y, b - a);
    Positive(y - x, a);
    assert y * b == y * (b - a) + (y - x) * a + x * a;
  }

  /** x is w / a. */
  predicate IsQuotient(x: real, w: real, a: real) {
    x * a == w
  }

  lemma {:induction false} Quotient(w: real, a: real)
    requires a > 0.0
    ensures IsQuotient(w / a, w, a)
  {
  }

  lemma {:induction false} QuotientSign(x: real, w: real, a: real)
    requires IsQuotient(x, w, a) && w >= 0.0 && a > 0.0
    ensures x >= 0.0
  {
    Positive(-x, a);
  }

  lemma {:induction false} QuotientLess(x: real, y: real, w: real, v: real, a: real, b: real)
    requires IsQuotient(x, w, a) && IsQuotient(y, v, b) && w >= v >= 0.0 && 0.0 < a <= b
    ensures y <= x
  {
    QuotientSign(y, v, b);
    if x < y {
      LessTimes(x, y, a, b);
    }
  }

  /** A larger divisor gives no more. */
  lemma {:induction false} QuotientFalls(w: real, a: real, b: real)
    requires w >= 0.0 && 0.0 < a <= b
    ensures 0.0 <= w / b <= w / a
  {
    Quotient(w, a);
    Quotient(w, b);
    hide IsQuotient;
    QuotientSign(w / b, w, b);
    QuotientLess(w / a, w / b, w, w, a, b);
  }

  /** A part of a whole is between 0 and 1. */
  lemma {:induction false} PartBound(a: real, b: real)
    requires 0.0 <= a <= b && b > 0.0
    ensures 0.0 <= a / b <= 1.0
  {
    Quotient(a, b);
    assert IsQuotient(1.0, b, b);
    hide IsQuotient;
    QuotientSign(a / b, a, b);
    QuotientLess(1.0, a / b, b, a, b, b);
  }

  lemma {:induction false} TopShare(weight: real, r: nat)
    requires weight >= 0.0 && r >= 1
    ensures 0.0 <= Share(weight, r) <= weight / 61.0
  {
    ShareFalls(weight, 1, r);
  }

  // ---------------------------------------------------------------- a list that has each document once

  lemma {:induction false} NoGain(list: seq<int>, weight: real, d: int)
    requires d !in list
    ensures Gain(list, weight, d) == 0.0
  {
    if list != [] {
      NoGain(list[..|list| - 1], weight, d);
    }
  }

  /** In a list that has each document once, a document gains the weight over 60 plus its rank. */
  lemma {:induction false} GainOnce(list: seq<int>, weight: real, d: int)
    requires Distinct(list)
    ensures Gain(list, weight, d) == if d in list then Share(weight, FirstRank(list, d)) else 0.0
  {
    if d in list {
      GainAt(list, weight, d, FirstRank(list, d));
    } else {
      NoGain(list, weight, d);
    }
  }

  lemma {:induction false} GainAt(list: seq<int>, weight: real, d: int, r: nat)
    requires Distinct(list) && 1 <= r <= |list| && list[r - 1] == d
    ensures Gain(list, weight, d) == Share(weight, r)
  {
    var last := |list| - 1;
    hide Share;
    if r == |list| {
      NoGain(list[..last], weight, d);
    } else {
      assert list[..last][r - 1] == d;
      GainAt(list[..last], weight, d, r);
    }
  }

  lemma {:induction false} GainBound(list: seq<int>, weight: real, d: int)
    requires Distinct(list) && weight >= 0.0
    ensures 0.0 <= Gain(list, weight, d) <= weight / 61.0
  {
    GainOnce(list, weight, d);
    if d in list {
      TopShare(weight, FirstRank(list, d));
    }
  }

  function Sum(weights: seq<real>): real {
    if weights == [] then 0.0 else Sum(weights[..|weights| - 1]) + weights[|weights| - 1]
  }

  predicate AllDistinct(lists: seq<seq<int>>) {
    forall s :: 0 <= s < |lists| ==> Distinct(lists[s])
  }

  lemma {:induction false} MetaBound(meta: seq<seq<int>>, weights: seq<real>, d: int)
    requires |meta| <= |weights| && AllDistinct(meta) && forall s :: 0 <= s < |weights| ==> weights[s] >= 0.0
    ensures 0.0 <= MetaGain(meta, weights, d) <= Sum(weights[..|meta|]) / 61.0
  {
    if meta != [] {
      var last := |meta| - 1;
      MetaBound(meta[..last], weights, d);
      GainBound(meta[last], weights[last], d);
      assert weights[..|meta|][..last] == weights[..last];
    }
  }

  lemma {:induction false} SumGrows(weights: seq<real>, n: nat)
    requires n <= |weights| && forall s :: 0 <= s < |weights| ==> weights[s] >= 0.0
    ensures Sum(weights[..n]) <= Sum(weights)
    decreases |weights|
  {
    if n < |weights| {
      var front := weights[..|weights| - 1];
      assert front[..n] == weights[..n];
      SumGrows(front, n);
    } else {
      assert weights[..n] == weights;
    }
  }

  lemma {:induction false} MetaWeightSum()
    ensures Sum(META_WEIGHTS) == 29.0
  {
    var w := META_WEIGHTS;
    assert w[..5] == [8.0, 10.0, 4.0, 3.0, 2.0] && w[..5][..4] == [8.0, 10.0, 4.0, 3.0];
    assert w[..5][..4][..3] == [8.0, 10.0, 4.0] && w[..5][..4][..3][..2] == [8.0, 10.0];
    assert [8.0, 10.0][..1] == [8.0] && [8.0][..0] == [];
    assert Sum([8.0, 10.0]) == 18.0;
    assert Sum([8.0, 10.0, 4.0, 3.0]) == 25.0;
  }

  lemma {:induction false} BaseBound(q: Query, d: int)
    requires |q.meta| <= |META_WEIGHTS| && AllDistinct(q.meta)
    ensures 0.0 <= Base(q, d) <= 36.0 / 61.0
  {
    MetaBound(q.meta, META_WEIGHTS, d);
    SumGrows(META_WEIGHTS, |q.meta|);
    MetaWeightSum();
    if d in Docs(q.fulltext) {
      TopShare(FULLTEXT_WEIGHT, FirstRank(Docs(q.fulltext), d));
    }
    if d in q.vector {
      TopShare(VECTOR_WEIGHT, LastRank(q.vector, d));
    }
    hide MetaGain, Share, Docs, Sum;
  }

  lemma {:induction false} SquareBound(x: real)
    requires 0.0 <= x <= 1.0
    ensures 0.0 <= Square(x) <= 1.0
  {
    ProductBound(x, x, 1.0);
  }

  lemma {:induction false} RatioBound(q: Query, d: int)
    ensures 0.0 <= MatchRatio(q, d) <= 1.0
  {
    hide Matches;
    var hits := if Matches(q, d) < Tokens(q) then Matches(q, d) else Tokens(q);
    PartBound(hits as real, Tokens(q) as real);
  }

  lemma {:induction false} PenaltyBound(q: Query, d: int)
    ensures 0.0 <= Penalty(q, d) <= 1.0
  {
    hide MatchRatio, Square, Matches;
    RatioBound(q, d);
    SquareBound(MatchRatio(q, d));
  }

  lemma {:induction false} FreshBound(days: real)
    ensures 0.0 <= Fresh(days) <= 1.0
  {
    var age := if days > 0.0 then days else 0.0;
    PartBound(1.0, 1.0 + age / HALF_LIFE);
  }

  lemma {:induction false} ProductBound(x: real, y: real, top: real)
    requires 0.0 <= x <= top && 0.0 <= y <= 1.0
    ensures 0.0 <= x * y <= top
  {
    Positive(x, y);
    Positive(x, 1.0 - y);
    assert x == x * y + x * (1.0 - y);
  }

  lemma {:induction false} BoostBound(days: real, ratio: real)
    requires 0.0 <= ratio <= 1.0
    ensures 0.0 <= Boost(days, ratio) <= 0.2
  {
    FreshBound(days);
    SquareBound(ratio);
    hide Fresh, Square;
    ProductBound(FRESHNESS_WEIGHT, Fresh(days), 0.2);
    ProductBound(FRESHNESS_WEIGHT * Fresh(days), Square(ratio), 0.2);
  }

  lemma {:induction false} FreshnessBound(q: Query, d: int)
    ensures 0.0 <= Freshness(q, d) <= 0.2
  {
    hide MatchRatio, Boost, Matches, InLists;
    RatioBound(q, d);
    if q.age(d).Some? {
      BoostBound(q.age(d).value, MatchRatio(q, d));
    }
  }

  /** No score is below 0 or above 36/61 + 0.2. */
  lemma {:induction false} ScoreBound(q: Query, d: int)
    requires |q.meta| <= |META_WEIGHTS| && AllDistinct(q.meta)
    ensures 0.0 <= Score(q, d) <= 36.0 / 61.0 + 0.2
  {
    hide Base, Penalty, Freshness;
    BaseBound(q, d);
    PenaltyBound(q, d);
    FreshnessBound(q, d);
    ProductBound(Base(q, d), Penalty(q, d), 36.0 / 61.0);
  }

  // ---------------------------------------------------------------- one place up

  /** The element after place `i` and the one at `i`, the other way round. */
  function Swap<T>(list: seq<T>, i: nat): (r: seq<T>)
    requires i + 1 < |list|
    ensures |r| == |list|
  {
    list[i := list[i + 1]][i + 1 := list[i]]
  }

  lemma {:induction false} GainUp(list: seq<int>, weight: real, i: nat)
    requires weight >= 0.0 && i + 1 < |list|
    ensures Gain(Swap(list, i), weight, list[i + 1]) >= Gain(list, weight, list[i + 1])
  {
    var d, last := list[i + 1], |list| - 1;
    var up := Swap(list, i);
    if i + 1 < last {
      assert up[..last] == Swap(list[..last], i);
      GainUp(list[..last], weight, i);
    } else {
      ShareFalls(weight, i + 1, i + 2);
      assert up[..last][..i] == list[..last][..i];
      hide Share;
      assert Gain(up[..last], weight, d) == Gain(list[..i], weight, d) + Share(weight, i + 1) by {
        assert up[..last][..i] == list[..i];
      }
      assert list[..last][..i] == list[..i];
    }
  }

  lemma {:induction false} MetaUp(meta: seq<seq<int>>, weights: seq<real>, s: nat, i: nat)
    requires |meta| <= |weights| && s < |meta| && i + 1 < |meta[s]| && weights[s] >= 0.0
    ensures MetaGain(meta[s := Swap(meta[s], i)], weights, meta[s][i + 1]) >= MetaGain(meta, weights, meta[s][i + 1])
  {
    var last := |meta| - 1;
    var up := meta[s := Swap(meta[s], i)];
    if s == last {
      GainUp(meta[s], weights[s], i);
      assert up[..last] == meta[..last];
    } else {
      assert up[..last] == meta[..last][s := Swap(meta[s], i)];
      MetaUp(meta[..last], weights, s, i);
    }
  }

  lemma {:induction false} FirstRankLe(list: seq<int>, d: int, k: nat)
    requires 1 <= k <= |list| && list[k - 1] == d
    ensures d in list && FirstRank(list, d) <= k
  {
    assert d in list;
  }

  lemma {:induction false} LastRankGe(list: seq<int>, d: int, k: nat)
    requires 1 <= k <= |list| && list[k - 1] == d
    ensures d in list && LastRank(list, d) >= k
  {
    assert d in list;
  }

  lemma {:induction false} FirstRankUp(list: seq<int>, i: nat)
    requires i + 1 < |list|
    ensures Swap(list, i)[i] == list[i + 1]
    ensures FirstRank(Swap(list, i), list[i + 1]) <= FirstRank(list, list[i + 1])
  {
    var d, up := list[i + 1], Swap(list, i);
    FirstRankLe(list, d, i + 2);
    var r := FirstRank(list, d);
    var k := if r <= i + 1 then r else i + 1;
    assert up[k - 1] == d;
    FirstRankLe(up, d, k);
  }

  lemma {:induction false} LastRankUp(list: seq<int>, i: nat)
    requires i + 1 < |list|
    ensures Swap(list, i)[i] == list[i + 1]
    ensures LastRank(Swap(list, i), list[i + 1]) <= LastRank(list, list[i + 1])
  {
    var d, up := list[i + 1], Swap(list, i);
    assert up[i] == d;
    var r := LastRank(up, d);
    LastRankGe(list, d, i + 2);
    if r > i + 2 {
      LastRankGe(list, d, r);
    }
  }

  lemma {:induction false} MatchCountUp(known: nat, hits: seq<Hit>, i: nat, d: int)
    requires i + 1 < |hits|
    ensures MatchCount(known, Swap(hits, i), d) == MatchCount(known, hits, d)
  {
    var last := |hits| - 1;
    var up := Swap(hits, i);
    if i + 1 < last {
      assert up[..last] == Swap(hits[..last], i);
      MatchCountUp(known, hits[..last], i, d);
    } else {
      assert up[..last][..i] == hits[..last][..i];
    }
  }

  lemma {:induction false} SwapMembers(list: seq<int>, i: nat, d: int)
    requires i + 1 < |list|
    ensures d in Swap(list, i) <==> d in list
  {
    var up := Swap(list, i);
    if d in list {
      var k :| 0 <= k < |list| && list[k] == d;
      assert up[if k == i then i + 1 else if k == i + 1 then i else k] == d;
    }
    if d in up {
      var k :| 0 <= k < |up| && up[k] == d;
      assert list[if k == i then i + 1 else if k == i + 1 then i else k] == d;
    }
  }

  // ---------------------------------------------------------------- its effect on the score

  /** A list of the query. */
  datatype Signal = Meta(s: nat) | Fulltext | Vector

  predicate HasPlace(q: Query, signal: Signal, i: nat) {
    match signal
    case Meta(s) => s < |q.meta| && i < |q.meta[s]|
    case Fulltext => i < |q.fulltext|
    case Vector => i < |q.vector|
  }

  function DocAt(q: Query, signal: Signal, i: nat): int
    requires HasPlace(q, signal, i)
  {
    match signal
    case Meta(s) => q.meta[s][i]
    case Fulltext => q.fulltext[i].doc
    case Vector => q.vector[i]
  }

  function MovedUp(q: Query, signal: Signal, i: nat): Query
    requires HasPlace(q, signal, i + 1)
  {
    match signal
    case Meta(s) => q.(meta := q.meta[s := Swap(q.meta[s], i)])
    case Fulltext => q.(fulltext := Swap(q.fulltext, i))
    case Vector => q.(vector := Swap(q.vector, i))
  }

  lemma {:induction false} TimesGrows(x: real, y: real, p: real)
    requires x <= y && p >= 0.0
    ensures Times(x, p) <= Times(y, p)
  {
  }

  lemma {:induction false} SameFactors(q: Query, t: Query, d: int)
    requires t.words == q.words && t.age == q.age && t.found == q.found
    requires Matches(t, d) == Matches(q, d) && (d in t.vector <==> d in q.vector)
    requires d in Docs(t.fulltext) <==> d in Docs(q.fulltext)
    ensures Penalty(t, d) == Penalty(q, d) && Freshness(t, d) == Freshness(q, d)
  {
    hide Matches, Docs;
  }

  lemma {:induction false} FactorsStay(q: Query, signal: Signal, i: nat, d: int)
    requires HasPlace(q, signal, i + 1)
    ensures var t := MovedUp(q, signal, i); Penalty(t, d) == Penalty(q, d) && Freshness(t, d) == Freshness(q, d)
  {
    var t := MovedUp(q, signal, i);
    if signal.Fulltext? {
      MatchCountUp(Get(q.metaCount, d, 0), q.fulltext, i, d);
      assert Docs(t.fulltext) == Swap(Docs(q.fulltext), i);
      SwapMembers(Docs(q.fulltext), i, d);
    }
    if signal.Vector? {
      SwapMembers(q.vector, i, d);
    }
    SameFactors(q, t, d);
  }

  lemma {:induction false} BaseUp(q: Query, signal: Signal, i: nat)
    requires |q.meta| <= |META_WEIGHTS| && HasPlace(q, signal, i + 1)
    ensures Base(MovedUp(q, signal, i), DocAt(q, signal, i + 1)) >= Base(q, DocAt(q, signal, i + 1))
  {
    var d, t := DocAt(q, signal, i + 1), MovedUp(q, signal, i);
    match signal
    case Meta(s) =>
      MetaUp(q.meta, META_WEIGHTS, s, i);
    case Fulltext =>
      var docs := Docs(q.fulltext);
      assert Docs(t.fulltext) == Swap(docs, i) && docs[i + 1] == d && d in docs;
      SwapMembers(docs, i, d);
      FirstRankUp(docs, i);
      ShareFalls(FULLTEXT_WEIGHT, FirstRank(Swap(docs, i), d), FirstRank(docs, d));
    case Vector =>
      assert q.vector[i + 1] == d && d in q.vector;
      SwapMembers(q.vector, i, d);
      LastRankUp(q.vector, i);
      ShareFalls(VECTOR_WEIGHT, LastRank(Swap(q.vector, i), d), LastRank(q.vector, d));
  }

  lemma {:induction false} StepUpHelps(q: Query, signal: Signal, i: nat)
    requires |q.meta| <= |META_WEIGHTS| && HasPlace(q, signal, i + 1)
    ensures Score(MovedUp(q, signal, i), DocAt(q, signal, i + 1)) >= Score(q, DocAt(q, signal, i + 1))
  {
    var d, t := DocAt(q, signal, i + 1), MovedUp(q, signal, i);
    BaseUp(q, signal, i);
    FactorsStay(q, signal, i, d);
    PenaltyBound(q, d);
    TimesGrows(Base(q, d), Base(t, d), Penalty(q, d));
    hide Base, Penalty, Freshness, MovedUp, Times;
  }

  // ---------------------------------------------------------------- any number of places

  /** The list with the element at place `i` taken out and put in at place `k` above it. */
  function Raise<T>(list: seq<T>, i: nat, k: nat): (r: seq<T>)
    requires k <= i < |list|
    ensures |r| == |list|
  {
    list[..k] + [list[i]] + list[k..i] + list[i + 1..]
  }

  lemma {:induction false} RaiseNone<T>(list: seq<T>, i: nat)
    requires i < |list|
    ensures Raise(list, i, i) == list
  {
  }

  lemma {:induction false} RaiseStep<T>(list: seq<T>, i: nat, k: nat)
    requires k < i < |list|
    ensures Raise(list, i, k) == Raise(Swap(list, i - 1), i - 1, k)
  {
    var up := Swap(list, i - 1);
    assert up[..k] == list[..k] && up[k..i - 1] == list[k..i - 1] && up[i..] == [list[i - 1]] + list[i + 1..];
    assert list[k..i] == list[k..i - 1] + [list[i - 1]];
  }

  function Raised(q: Query, signal: Signal, i: nat, k: nat): Query
    requires HasPlace(q, signal, i) && k <= i
  {
    match signal
    case Meta(s) => q.(meta := q.meta[s := Raise(q.meta[s], i, k)])
    case Fulltext => q.(fulltext := Raise(q.fulltext, i, k))
    case Vector => q.(vector := Raise(q.vector, i, k))
  }

  lemma {:induction false} RaisedNone(q: Query, signal: Signal, i: nat)
    requires HasPlace(q, signal, i)
    ensures Raised(q, signal, i, i) == q
  {
    match signal
    case Meta(s) => RaiseNone(q.meta[s], i);
    case Fulltext => RaiseNone(q.fulltext, i);
    case Vector => RaiseNone(q.vector, i);
  }

  lemma {:induction false} RaisedStep(q: Query, signal: Signal, i: nat, k: nat)
    requires HasPlace(q, signal, i) && k < i
    ensures var t := MovedUp(q, signal, i - 1);
            && HasPlace(t, signal, i - 1) && DocAt(t, signal, i - 1) == DocAt(q, signal, i) && |t.meta| == |q.meta|
            && Raised(q, signal, i, k) == Raised(t, signal, i - 1, k)
  {
    match signal
    case Meta(s) =>
      RaiseStep(q.meta[s], i, k);
      var t := MovedUp(q, signal, i - 1);
      assert t.meta[s := Raise(q.meta[s], i, k)] == q.meta[s := Raise(q.meta[s], i, k)];
    case Fulltext => RaiseStep(q.fulltext, i, k);
    case Vector => RaiseStep(q.vector, i, k);
  }

  /** A document that moves up any number of places in one list, with all else the same, does not lose. */
  lemma {:induction false} MoveUpHelps(q: Query, signal: Signal, i: nat, k: nat)
    requires |q.meta| <= |META_WEIGHTS| && HasPlace(q, signal, i) && k <= i
    ensures Score(Raised(q, signal, i, k), DocAt(q, signal, i)) >= Score(q, DocAt(q, signal, i))
    decreases i - k
  {
    hide Score, Raised, MovedUp;
    if k == i {
      RaisedNone(q, signal, i);
    } else {
      StepUpHelps(q, signal, i - 1);
      RaisedStep(q, signal, i, k);
      MoveUpHelps(MovedUp(q, signal, i - 1), signal, i - 1, k);
    }
  }
}
