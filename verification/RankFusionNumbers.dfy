/** The scores and the order of the results in numbers, from the places of a document in the lists. */
module RankFusionNumbers {
  import opened Options
  import opened RankFusion
  import opened RankFusionProofs
  import opened RankFusionScores
  import opened Sequences

  // ---------------------------------------------------------------- places

  /** `r` is the rank of `d` in a list that has it once, or 0 if it is not there. */
  predicate RankIn(list: seq<int>, d: int, r: nat) {
    (r == 0 && d !in list) || (1 <= r <= |list| && list[r - 1] == d)
  }

  /** `r` is the first rank of `d`, or 0. */
  predicate FirstIn(list: seq<int>, d: int, r: nat) {
    RankIn(list, d, r) && (r > 0 ==> d !in list[..r - 1])
  }

  /** `r` is the last rank of `d`, or 0. */
  predicate LastIn(list: seq<int>, d: int, r: nat) {
    RankIn(list, d, r) && (r > 0 ==> d !in list[r..])
  }

  function Part(weight: real, r: nat): real {
    if r == 0 then 0.0 else weight / (60 + r) as real
  }

  /** The places of a document in the six metadata lists, among the full-text hits and near the vector. */
  datatype Places = Places(meta: seq<nat>, fulltext: nat, vector: nat)

  predicate Stands(q: Query, d: int, p: Places) {
    && |q.meta| == |p.meta| == 6 && AllDistinct(q.meta)
    && (forall s :: 0 <= s < 6 ==> RankIn(q.meta[s], d, p.meta[s]))
    && FirstIn(Docs(q.fulltext), d, p.fulltext) && LastIn(q.vector, d, p.vector)
  }

  /** title, title_full, filename, tag, memo, summary, full text, vector */
  function SumOfParts(p: Places): real
    requires |p.meta| == 6
  {
    Part(8.0, p.meta[0]) + Part(10.0, p.meta[1]) + Part(4.0, p.meta[2]) + Part(3.0, p.meta[3]) + Part(2.0, p.meta[4])
    + Part(2.0, p.meta[5]) + Part(1.0, p.fulltext) + Part(6.0, p.vector)
  }

  lemma {:induction false} GainPart(list: seq<int>, weight: real, d: int, r: nat)
    requires Distinct(list) && RankIn(list, d, r)
    ensures Gain(list, weight, d) == Part(weight, r)
  {
    if r == 0 {
      NoGain(list, weight, d);
    } else {
      GainAt(list, weight, d, r);
    }
  }

  lemma {:induction false} MetaNext(meta: seq<seq<int>>, n: nat, d: int, r: nat)
    requires n < |meta| <= |META_WEIGHTS| && Distinct(meta[n]) && RankIn(meta[n], d, r)
    ensures MetaGain(meta[..n + 1], META_WEIGHTS, d) == MetaGain(meta[..n], META_WEIGHTS, d) + Part(META_WEIGHTS[n], r)
  {
    GainPart(meta[n], META_WEIGHTS[n], d, r);
    assert meta[..n + 1][..n] == meta[..n];
  }

  lemma {:induction false} FirstPart(list: seq<int>, d: int, r: nat)
    requires FirstIn(list, d, r)
    ensures r == if d in list then FirstRank(list, d) else 0
  {
    if r > 0 {
      assert d in list;
      OneFirst(list, d, r, FirstRank(list, d));
    }
  }

  lemma {:induction false} NotBehind(list: seq<int>, d: int, r: nat, s: nat)
    requires LastIn(list, d, r) && LastIn(list, d, s) && r > 0 && s > 0
    ensures r >= s
  {
    assert forall k :: r <= k < |list| ==> list[r..][k - r] == list[k];
  }

  lemma {:induction false} LastPart(list: seq<int>, d: int, r: nat)
    requires LastIn(list, d, r)
    ensures r == if d in list then LastRank(list, d) else 0
  {
    if r > 0 {
      assert d in list;
      NotBehind(list, d, r, LastRank(list, d));
      NotBehind(list, d, LastRank(list, d), r);
    }
  }

  /** What the places of a document give, before the words and its age count. */
  lemma {:induction false} BaseInNumbers(q: Query, d: int, p: Places)
    requires Stands(q, d, p)
    ensures Base(q, d) == SumOfParts(p)
  {
    var m := q.meta;
    assert m[..0] == [] && m[..6] == m;
    MetaNext(m, 0, d, p.meta[0]);
    MetaNext(m, 1, d, p.meta[1]);
    MetaNext(m, 2, d, p.meta[2]);
    MetaNext(m, 3, d, p.meta[3]);
    MetaNext(m, 4, d, p.meta[4]);
    MetaNext(m, 5, d, p.meta[5]);
    FirstPart(Docs(q.fulltext), d, p.fulltext);
    LastPart(q.vector, d, p.vector);
    assert MetaGain([], META_WEIGHTS, d) == 0.0;
    hide Gain, MetaGain, FirstRank, LastRank, Docs, RankIn;
  }

  // ---------------------------------------------------------------- words and age

  /** `m` is the largest count of words known for `d`, from the metadata or from one of its chunks. */
  ghost predicate BestCount(q: Query, d: int, m: nat) {
    && (d in q.metaCount ==> q.metaCount[d] <= m)
    && (forall i :: 0 <= i < |q.fulltext| && q.fulltext[i].doc == d ==> q.fulltext[i].count <= m)
    && (m == 0 || (d in q.metaCount && q.metaCount[d] == m) ||
        exists i :: 0 <= i < |q.fulltext| && q.fulltext[i].doc == d && q.fulltext[i].count == m)
  }

  lemma {:induction false} CountBest(known: nat, hits: seq<Hit>, d: int)
    ensures var m := MatchCount(known, hits, d);
            && known <= m && (forall i :: 0 <= i < |hits| && hits[i].doc == d ==> hits[i].count <= m)
            && (m == known || exists i :: 0 <= i < |hits| && hits[i].doc == d && hits[i].count == m)
  {
    if hits != [] {
      var last := |hits| - 1;
      CountBest(known, hits[..last], d);
      var before := MatchCount(known, hits[..last], d);
      assert forall i :: 0 <= i < last ==> hits[..last][i] == hits[i];
      if MatchCount(known, hits, d) == before && before != known {
        var i :| 0 <= i < last && hits[..last][i].doc == d && hits[..last][i].count == before;
        assert hits[i].doc == d && hits[i].count == before;
      }
    }
  }

  lemma {:induction false} MatchesBest(q: Query, d: int, m: nat)
    requires BestCount(q, d, m)
    ensures Matches(q, d) == m
  {
    CountBest(Get(q.metaCount, d, 0), q.fulltext, d);
  }

  function Squared(n: nat): real {
    (n * n) as real
  }

  lemma {:induction false} RatioSquared(h: nat, t: nat)
    requires t > 0
    ensures var x := h as real / t as real; x * x * Squared(t) == Squared(h)
  {
    var x, a, b := h as real / t as real, h as real, t as real;
    assert x * b == a;
    SquareOfProduct(x, b);
  }

  lemma {:induction false} SquareOfProduct(x: real, b: real)
    ensures (x * x) * (b * b) == (x * b) * (x * b)
  {
  }

  /** How many of the words count as found: at most all. */
  function Hits(q: Query, m: nat): nat {
    if q.words <= 1 then 1 else if m < q.words then m else q.words
  }

  function Words(q: Query): nat {
    if q.words <= 1 then 1 else q.words
  }

  /** The document was found by its vector, and no word of the query in it. */
  predicate ByVectorAlone(q: Query, d: int, m: nat) {
    m == 0 && d in q.vector
  }

  lemma {:induction false} RatioIs(q: Query, d: int, m: nat)
    requires BestCount(q, d, m)
    ensures MatchRatio(q, d) == Hits(q, m) as real / Words(q) as real
    ensures VectorOnly(q, d) == ByVectorAlone(q, d, m)
  {
    MatchesBest(q, d, m);
    hide Matches;
  }

  /** The penalty is the square of the words found over all words, and none for a document found by its vector alone. */
  lemma {:induction false} PenaltyInNumbers(q: Query, d: int, m: nat)
    requires BestCount(q, d, m)
    ensures ByVectorAlone(q, d, m) ==> Penalty(q, d) == 1.0
    ensures !ByVectorAlone(q, d, m) ==>
              IsQuotient(Penalty(q, d), Squared(Hits(q, m)), Squared(Words(q)))
  {
    RatioIs(q, d, m);
    QuotientSquared(Hits(q, m), Words(q));
    hide MatchRatio, Matches, VectorOnly, Square, Squared, IsQuotient;
  }

  lemma {:induction false} QuotientSquared(h: nat, t: nat)
    requires t > 0
    ensures IsQuotient(Square(h as real / t as real), Squared(h), Squared(t))
  {
    RatioSquared(h, t);
  }

  /** A document's age in days; one from the future is of today. */
  function Age(days: real): real {
    if days > 0.0 then days else 0.0
  }

  lemma {:induction false} FreshInNumbers(days: real)
    ensures Fresh(days) * (30.0 + Age(days)) == 30.0
  {
    var a := Age(days);
    assert (1.0 + a / 30.0) * 30.0 == 30.0 + a;
    Quotient(1.0, 1.0 + a / 30.0);
    Regrouped(Fresh(days), 1.0 + a / 30.0, 30.0);
  }

  lemma {:induction false} Regrouped(x: real, y: real, z: real)
    ensures x * (y * z) == x * y * z
  {
  }

  /** x is 0.2 * 30/a * h/t: what a document of a - 30 days gets. */
  predicate IsBoost(x: real, h: real, t: real, a: real) {
    x * a * t == 6.0 * h
  }

  /** A document gets 0.2 for all words found and an age of 0, half of it at 30 days, and so on. */
  lemma {:induction false} BoostInNumbers(days: real, h: nat, t: nat)
    requires t > 0
    ensures IsBoost(Boost(days, h as real / t as real), Squared(h), Squared(t), 30.0 + Age(days))
  {
    FreshInNumbers(days);
    RatioSquared(h, t);
    hide Fresh, Squared, IsBoost, Age;
    var x := h as real / t as real;
    BoostProduct(Fresh(days), x * x, 30.0 + Age(days), Squared(t), Squared(h));
    BoostSpelled(days, x);
  }

  lemma {:induction false} BoostSpelled(days: real, x: real)
    ensures Boost(days, x) == 0.2 * Fresh(days) * (x * x)
  {
    hide Fresh;
  }

  /** In numbers: today, and at 30 days. */
  lemma {:induction false} BoostWhole()
    ensures Boost(0.0, 1.0) == 0.2 && Boost(30.0, 1.0) == 0.1 && Boost(30.0, 0.5) == 0.025
  {
    assert Fresh(0.0) == 1.0 && Fresh(30.0) == 0.5;
  }

  lemma {:induction false} BoostProduct(f: real, xx: real, a: real, b: real, hh: real)
    requires f * a == 30.0 && xx * b == hh
    ensures IsBoost(0.2 * f * xx, hh, b, a)
  {
    assert (0.2 * f * xx) * a == 0.2 * (f * a) * xx;
    assert (6.0 * xx) * b == 6.0 * (xx * b);
  }

  /** The age of a document counts if it is known, and the document's row is still there or came with a hit. */
  predicate AgeCounts(q: Query, d: int) {
    q.age(d).Some? && (d in Docs(q.fulltext) || d in q.vector || q.found(d))
  }

  lemma {:induction false} FreshnessInNumbers(q: Query, d: int, m: nat)
    requires BestCount(q, d, m)
    ensures ByVectorAlone(q, d, m) || !AgeCounts(q, d) ==> Freshness(q, d) == 0.0
    ensures !ByVectorAlone(q, d, m) && AgeCounts(q, d) ==>
              IsBoost(Freshness(q, d), Squared(Hits(q, m)), Squared(Words(q)), 30.0 + Age(q.age(d).value))
  {
    RatioIs(q, d, m);
    hide MatchRatio, Matches, VectorOnly, Boost, IsBoost, Squared;
    if AgeCounts(q, d) {
      BoostInNumbers(q.age(d).value, Hits(q, m), Words(q));
    }
  }

  /** The score is base * h/t. */
  predicate IsPart(score: real, base: real, h: real, t: real) {
    score * t == base * h
  }

  /** The score is base * h/t + 0.2 * 30/a * h/t. */
  predicate IsPartAndBoost(score: real, base: real, h: real, t: real, a: real) {
    score * t * a == base * h * a + 6.0 * h
  }

  /** The score in numbers: from the ranks of a document, the words found of all words, and its age in days. */
  lemma {:induction false} ScoreInNumbers(q: Query, d: int, p: Places, m: nat)
    requires Stands(q, d, p) && BestCount(q, d, m)
    ensures ByVectorAlone(q, d, m) ==> Score(q, d) == SumOfParts(p)
    ensures var h, t := Squared(Hits(q, m)), Squared(Words(q));
            && (!ByVectorAlone(q, d, m) && !AgeCounts(q, d) ==> IsPart(Score(q, d), SumOfParts(p), h, t))
            && (!ByVectorAlone(q, d, m) && AgeCounts(q, d) ==>
                  IsPartAndBoost(Score(q, d), SumOfParts(p), h, t, 30.0 + Age(q.age(d).value)))
  {
    BaseInNumbers(q, d, p);
    PenaltyInNumbers(q, d, m);
    FreshnessInNumbers(q, d, m);
    ScoreSpelled(q, d);
    hide Score, Base, Penalty, Freshness, SumOfParts, Hits, Words, Squared, Stands, BestCount, IsPart, IsBoost,
      IsPartAndBoost;
    hide IsQuotient, AgeCounts, ByVectorAlone, Age;
    var h, t := Squared(Hits(q, m)), Squared(Words(q));
    if !ByVectorAlone(q, d, m) {
      Product(SumOfParts(p), Penalty(q, d), t, h);
      if AgeCounts(q, d) {
        SumProduct(SumOfParts(p), Penalty(q, d), Freshness(q, d), t, h, 30.0 + Age(q.age(d).value));
      }
    }
  }

  lemma {:induction false} ScoreSpelled(q: Query, d: int)
    requires |q.meta| <= |META_WEIGHTS|
    ensures Score(q, d) == Times(Base(q, d), Penalty(q, d)) + Freshness(q, d)
    ensures Penalty(q, d) == 1.0 ==> Times(Base(q, d), Penalty(q, d)) == Base(q, d)
  {
    hide Base, Penalty, Freshness;
  }

  lemma {:induction false} Product(base: real, penalty: real, t: real, h: real)
    requires IsQuotient(penalty, h, t)
    ensures IsPart(Times(base, penalty), base, h, t)
  {
    Regrouped(base, penalty, t);
  }

  lemma {:induction false} SumProduct(base: real, penalty: real, f: real, t: real, h: real, a: real)
    requires IsQuotient(penalty, h, t) && IsBoost(f, h, t, a)
    ensures IsPartAndBoost(Times(base, penalty) + f, base, h, t, a)
  {
    var x := base * penalty;
    Product(base, penalty, t, h);
    assert (x + f) * t == x * t + f * t;
    assert (x * t + f * t) * a == x * t * a + f * t * a;
    assert f * t * a == f * a * t;
  }

  // ---------------------------------------------------------------- the order of discovery

  /** All lists one after the other, each document as often as it is listed. */
  function Listed(lists: seq<seq<int>>): seq<int> {
    if lists == [] then [] else Listed(lists[..|lists| - 1]) + lists[|lists| - 1]
  }

  /** The first place of `a` comes before the first place of `b`. */
  ghost predicate FirstBefore(s: seq<int>, a: int, b: int) {
    b in s && exists i :: 0 <= i < |s| && s[i] == a && b !in s[..i + 1]
  }

  lemma {:induction false} FirstBeforeMore(s: seq<int>, d: int, a: int, b: int)
    requires a != b
    ensures FirstBefore(s + [d], a, b) <==> FirstBefore(s, a, b) || (a in s && d == b && b !in s)
  {
    var t := s + [d];
    if FirstBefore(s, a, b) {
      var i :| 0 <= i < |s| && s[i] == a && b !in s[..i + 1];
      assert t[i] == a && t[..i + 1] == s[..i + 1];
    }
    if a in s && d == b && b !in s {
      var i :| 0 <= i < |s| && s[i] == a;
      assert t[i] == a && t[..i + 1] == s[..i + 1];
      NotInFront(s, i + 1, b);
    }
    assert t[..|t|] == t;
    if FirstBefore(t, a, b) {
      var i :| 0 <= i < |t| && t[i] == a && b !in t[..i + 1];
      if i < |s| {
        assert s[i] == a && t[..i + 1] == s[..i + 1];
      }
    }
  }

  lemma {:induction false} NotInFront(s: seq<int>, n: nat, b: int)
    requires n <= |s| && b !in s
    ensures b !in s[..n]
  {
  }

  /** Keys are added in the order of their first places. */
  lemma {:induction false} AddedInOrder(s: seq<int>, a: int, b: int)
    requires a != b
    ensures Precedes(AddKeys([], s), a, b) <==> FirstBefore(s, a, b)
  {
    if s != [] {
      var front, last := s[..|s| - 1], s[|s| - 1];
      AddedInOrder(front, a, b);
      AddedKeys([], front, a);
      AddedKeys([], front, b);
      PrecedesLast(AddKeys([], front), last, a, b);
      FirstBeforeMore(front, last, a, b);
      assert s == front + [last];
      hide Precedes, FirstBefore;
      NotYet(AddKeys([], front), a, b);
    }
  }

  lemma {:induction false} NotYet(s: seq<int>, a: int, b: int)
    ensures Precedes(s, a, b) ==> b in s
  {
  }

  lemma {:induction false} AddJoined(keys: seq<int>, s: seq<int>, t: seq<int>)
    ensures AddKeys(keys, s + t) == AddKeys(AddKeys(keys, s), t)
  {
    if t == [] {
      assert s + t == s;
    } else {
      var front := t[..|t| - 1];
      AddJoined(keys, s, front);
      assert (s + t)[..|s + t| - 1] == s + front;
    }
  }

  /** Adding keys that are each once adds the same as adding the list they come from. */
  lemma {:induction false} AddAdded(keys: seq<int>, s: seq<int>)
    ensures AddKeys(keys, AddKeys([], s)) == AddKeys(keys, s)
  {
    if s != [] {
      var front, last := s[..|s| - 1], s[|s| - 1];
      var before := AddKeys([], front);
      AddAdded(keys, front);
      AddedKeys([], front, last);
      AddedKeys(keys, front, last);
      if last !in before {
        assert (before + [last])[..|before|] == before;
      }
    }
  }

  lemma {:induction false} AddListed(lists: seq<seq<int>>)
    ensures AddKeysOfAll([], lists) == AddKeys([], Listed(lists))
  {
    if lists != [] {
      var last := |lists| - 1;
      AddListed(lists[..last]);
      AddJoined([], Listed(lists[..last]), lists[last]);
    }
  }

  /** The documents are found in the order of their first places in the metadata lists, then among the full-text hits,
      then near the vector: that is the order of equal scores. */
  lemma {:induction false} FoundInOrder(q: Query, a: int, b: int)
    requires a != b
    ensures Precedes(Found(q), a, b) <==> FirstBefore(Listed(q.meta) + Docs(q.fulltext) + q.vector, a, b)
  {
    var meta, hits := Listed(q.meta), Docs(q.fulltext);
    hide Docs, Precedes, FirstBefore;
    AddListed(q.meta);
    AddAdded(AddKeys([], meta), hits);
    AddJoined([], meta, hits);
    AddAdded(AddKeys([], meta + hits), q.vector);
    AddJoined([], meta + hits, q.vector);
    AddedInOrder(meta + hits + q.vector, a, b);
  }
}
