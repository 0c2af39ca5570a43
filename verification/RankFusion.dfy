/** The merging of ranked lists into one score for each document, and the pages of the result
    (backend/app/services/search.py, merged_search). Scores are real numbers. */
module RankFusion {
  import opened Options
  import opened Sequences

  /** A chunk the full-text search found: its document, and how many of the words it has. */
  datatype Hit = Hit(doc: int, count: nat)

  /** What the signals gave: the metadata lists in the order of META_WEIGHTS and their match counts, the full-text hits,
      the documents near the query's vector, the number of words; each document's age in days, if known, and whether its
      row is still there when it is fetched. */
  datatype Query = Query(meta: seq<seq<int>>, metaCount: map<int, nat>, fulltext: seq<Hit>, vector: seq<int>,
                         words: nat, age: int -> Option<real>, found: int -> bool)

  /** title, title_full, filename, tag, memo, summary */
  const META_WEIGHTS: seq<real> := [8.0, 10.0, 4.0, 3.0, 2.0, 2.0]
  const FULLTEXT_WEIGHT := 1.0
  const VECTOR_WEIGHT := 6.0
  const FRESHNESS_WEIGHT := 0.2
  const HALF_LIFE := 30.0
  const K := 60

  function Tokens(q: Query): nat {
    if q.words > 0 then q.words else 1
  }

  /** What a place in a list gives: ranks count from 1. */
  function Share(weight: real, rank: nat): real {
    weight / (K + rank) as real
  }

  function Docs(hits: seq<Hit>): (r: seq<int>)
    ensures |r| == |hits|
  {
    seq(|hits|, i requires 0 <= i < |hits| => hits[i].doc)
  }

  function Get<T>(m: map<int, T>, d: int, zero: T): T {
    if d in m then m[d] else zero
  }

  // ---------------------------------------------------------------- the score of one document

  /** What a document's places in one list give. */
  function Gain(list: seq<int>, weight: real, d: int): real {
    if list == [] then 0.0 else
    var last := |list| - 1;
    Gain(list[..last], weight, d) + if list[last] == d then Share(weight, |list|) else 0.0
  }

  function MetaGain(meta: seq<seq<int>>, weights: seq<real>, d: int): real
    requires |meta| <= |weights|
  {
    if meta == [] then 0.0 else
    var last := |meta| - 1;
    MetaGain(meta[..last], weights, d) + Gain(meta[last], weights[last], d)
  }

  /** The rank of the first place of `d`. */
  function FirstRank(list: seq<int>, d: int): (r: nat)
    requires d in list
    ensures 1 <= r <= |list| && list[r - 1] == d && d !in list[..r - 1]
  {
    if list[0] == d then 1 else
    assert list == [list[0]] + list[1..];
    var r := FirstRank(list[1..], d);
    assert list[..r] == [list[0]] + list[1..][..r - 1];
    r + 1
  }

  /** The rank of the last place of `d`. */
  function LastRank(list: seq<int>, d: int): (r: nat)
    requires d in list
    ensures 1 <= r <= |list| && list[r - 1] == d && d !in list[r..]
  {
    var last := |list| - 1;
    if list[last] == d then |list| else
    assert list == list[..last] + [list[last]];
    var r := LastRank(list[..last], d);
    assert list[r..] == list[..last][r..] + [list[last]];
    r
  }

  function Base(q: Query, d: int): real
    requires |q.meta| <= |META_WEIGHTS|
  {
    MetaGain(q.meta, META_WEIGHTS, d)
    + (if d in Docs(q.fulltext) then Share(FULLTEXT_WEIGHT, FirstRank(Docs(q.fulltext), d)) else 0.0)
    + (if d in q.vector then Share(VECTOR_WEIGHT, LastRank(q.vector, d)) else 0.0)
  }

  /** The largest count of words found in `d`: by the metadata, or in one of its chunks. */
  function MatchCount(known: nat, hits: seq<Hit>, d: int): nat {
    if hits == [] then known else
    var last := |hits| - 1;
    var before := MatchCount(known, hits[..last], d);
    if hits[last].doc == d && hits[last].count > before then hits[last].count else before
  }

  function Matches(q: Query, d: int): nat {
    MatchCount(Get(q.metaCount, d, 0), q.fulltext, d)
  }

  /** The document was found by its vector alone. */
  predicate VectorOnly(q: Query, d: int) {
    Matches(q, d) == 0 && d in q.vector
  }

  /** The part of the words that was found. */
  function MatchRatio(q: Query, d: int): real {
    if Tokens(q) > 1 then (if Matches(q, d) < Tokens(q) then Matches(q, d) else Tokens(q)) as real / Tokens(q) as real
    else 1.0
  }

  function Square(x: real): real {
    x * x
  }

  function Penalty(q: Query, d: int): real {
    if VectorOnly(q, d) then 1.0 else Square(MatchRatio(q, d))
  }

  /** From 1 for a document of today down to 0. */
  function Fresh(days: real): real {
    1.0 / (1.0 + (if days > 0.0 then days else 0.0) / HALF_LIFE)
  }

  function Boost(days: real, ratio: real): real {
    FRESHNESS_WEIGHT * Fresh(days) * Square(ratio)
  }

  predicate InLists(q: Query, d: int) {
    d in Docs(q.fulltext) || d in q.vector
  }

  /** What a document's age gives: nothing, if it is not known or the document was found by its vector alone. */
  function Freshness(q: Query, d: int): real {
    if q.age(d).None? || VectorOnly(q, d) || (!InLists(q, d) && !q.found(d)) then 0.0
    else Boost(q.age(d).value, MatchRatio(q, d))
  }

  function Score(q: Query, d: int): real
    requires |q.meta| <= |META_WEIGHTS|
  {
    Times(Base(q, d), Penalty(q, d)) + Freshness(q, d)
  }

  /** Some signal found the document. */
  predicate Scored(q: Query, d: int) {
    (exists s :: 0 <= s < |q.meta| && d in q.meta[s]) || InLists(q, d)
  }

  // ---------------------------------------------------------------- the passes over the lists

  /** A dictionary keeps its keys in the order in which they first came. */
  function AddKeys(keys: seq<int>, list: seq<int>): seq<int> {
    if list == [] then keys else
    var last := |list| - 1;
    var before := AddKeys(keys, list[..last]);
    if list[last] in before then before else before + [list[last]]
  }

  function AddKeysOfAll(keys: seq<int>, lists: seq<seq<int>>): seq<int> {
    if lists == [] then keys else AddKeys(AddKeysOfAll(keys, lists[..|lists| - 1]), lists[|lists| - 1])
  }

  /** The documents in the order in which the passes come upon them. */
  function Found(q: Query): seq<int> {
    AddKeys(AddKeys(AddKeysOfAll([], q.meta), AddKeys([], Docs(q.fulltext))), AddKeys([], q.vector))
  }

  /** A dictionary of scores: `keys` are its keys in their order. */
  ghost predicate Ordered<T>(m: map<int, T>, keys: seq<int>) {
    Distinct(keys) && (forall d :: d in keys ==> d in m) && forall d :: d in m ==> d in keys
  }

  lemma {:induction false} NoPlace(list: seq<int>, keys: seq<int>, weight: real)
    ensures forall d :: Gain(list[..0], weight, d) == 0.0
    ensures AddKeys(keys, list[..0]) == keys
  {
  }

  lemma {:induction false} NoKeys<T>()
    ensures Ordered<T>(map[], [])
  {
  }

  /** One place of a list more. */
  lemma {:induction false} NextPlace(list: seq<int>, i: nat, keys: seq<int>, weight: real, d: int)
    requires i < |list|
    ensures Gain(list[..i + 1], weight, d) ==
            Gain(list[..i], weight, d) + if list[i] == d then Share(weight, i + 1) else 0.0
    ensures AddKeys(keys, list[..i + 1]) ==
            var before := AddKeys(keys, list[..i]); if list[i] in before then before else before + [list[i]]
  {
    assert list[..i + 1][..i] == list[..i];
  }

  lemma {:induction false} KeyAdded<T>(m: map<int, T>, keys: seq<int>, d: int, value: T)
    requires Ordered(m, keys)
    ensures Ordered(m[d := value], if d in keys then keys else keys + [d])
    ensures d in keys <==> d in m
  {
  }

  method AddList(scores: map<int, real>, keys: seq<int>, list: seq<int>, weight: real)
    returns (sums: map<int, real>, order: seq<int>)
    requires Ordered(scores, keys)
    ensures Ordered(sums, order) && order == AddKeys(keys, list)
    ensures forall d :: Get(sums, d, 0.0) == Get(scores, d, 0.0) + Gain(list, weight, d)
  {
    hide Ordered, Share, Gain, AddKeys;
    sums, order := scores, keys;
    NoPlace(list, keys, weight);
    for i := 0 to |list|
      invariant Ordered(sums, order) && order == AddKeys(keys, list[..i])
      invariant forall d :: Get(sums, d, 0.0) == Get(scores, d, 0.0) + Gain(list[..i], weight, d)
    {
      forall d {
        NextPlace(list, i, keys, weight, d);
      }
      var d := list[i];
      ghost var before := sums;
      KeyAdded(sums, order, d, Get(sums, d, 0.0) + Share(weight, i + 1));
      sums := sums[d := Get(sums, d, 0.0) + Share(weight, i + 1)];
      order := if d in order then order else order + [d];
      assert forall x :: x != d ==> Get(sums, x, 0.0) == Get(before, x, 0.0);
    }
    assert list[..|list|] == list;
  }

  method AddMeta(meta: seq<seq<int>>) returns (sums: map<int, real>, order: seq<int>)
    requires |meta| <= |META_WEIGHTS|
    ensures Ordered(sums, order) && order == AddKeysOfAll([], meta)
    ensures forall d :: Get(sums, d, 0.0) == MetaGain(meta, META_WEIGHTS, d)
  {
    hide Gain, AddKeys;
    sums, order := map[], [];
    for s := 0 to |meta|
      invariant Ordered(sums, order) && order == AddKeysOfAll([], meta[..s])
      invariant forall d :: Get(sums, d, 0.0) == MetaGain(meta[..s], META_WEIGHTS, d)
    {
      sums, order := AddList(sums, order, meta[s], META_WEIGHTS[s]);
      assert meta[..s + 1][..s] == meta[..s];
    }
    assert meta[..|meta|] == meta;
  }

  /** The first rank of every document of a list. */
  method FirstRanks(list: seq<int>) returns (ranks: map<int, nat>, order: seq<int>)
    ensures Ordered(ranks, order) && order == AddKeys([], list)
    ensures forall d :: d in ranks <==> d in list
    ensures forall d :: d in list ==> ranks[d] == FirstRank(list, d)
  {
    hide Ordered, AddKeys, Gain, FirstRank;
    ranks, order := map[], [];
    NoPlace(list, [], 0.0);
    NoKeys<nat>();
    for i := 0 to |list|
      invariant Ordered(ranks, order) && order == AddKeys([], list[..i])
      invariant forall d :: d in ranks <==> d in list[..i]
      invariant forall d :: d in ranks ==> IsFirst(list, d, ranks[d])
    {
      NextPlace(list, i, [], 0.0, 0);
      var d := list[i];
      assert list[..i + 1] == list[..i] + [d];
      KeyAdded<nat>(ranks, order, d, i + 1);
      if d !in ranks {
        ranks := ranks[d := i + 1];
        order := order + [d];
      }
    }
    assert list[..|list|] == list;
    forall d | d in list ensures ranks[d] == FirstRank(list, d) {
      OneFirst(list, d, ranks[d], FirstRank(list, d));
    }
  }

  predicate IsFirst(list: seq<int>, d: int, r: nat) {
    1 <= r <= |list| && list[r - 1] == d && d !in list[..r - 1]
  }

  lemma {:induction false} NotBefore(list: seq<int>, d: int, r: nat, s: nat)
    requires IsFirst(list, d, r) && IsFirst(list, d, s)
    ensures r >= s
  {
    assert forall k :: 0 <= k < s - 1 ==> list[..s - 1][k] == list[k];
  }

  lemma {:induction false} OneFirst(list: seq<int>, d: int, r: nat, s: nat)
    requires IsFirst(list, d, r) && IsFirst(list, d, s)
    ensures r == s
  {
    NotBefore(list, d, r, s);
    NotBefore(list, d, s, r);
  }

  /** The last rank of every document of a list: a later place takes the place of an earlier one. */
  method LastRanks(list: seq<int>) returns (ranks: map<int, nat>, order: seq<int>)
    ensures Ordered(ranks, order) && order == AddKeys([], list)
    ensures forall d :: d in ranks <==> d in list
    ensures forall d :: d in list ==> ranks[d] == LastRank(list, d)
  {
    hide Ordered, AddKeys, Gain, LastRank;
    ranks, order := map[], [];
    NoPlace(list, [], 0.0);
    NoKeys<nat>();
    for i := 0 to |list|
      invariant Ordered(ranks, order) && order == AddKeys([], list[..i])
      invariant forall d :: d in ranks <==> d in list[..i]
      invariant forall d :: d in list[..i] ==> ranks[d] == LastRank(list[..i], d)
    {
      NextPlace(list, i, [], 0.0, 0);
      var d := list[i];
      NextLast(list[..i], d);
      assert list[..i + 1] == list[..i] + [d];
      KeyAdded<nat>(ranks, order, d, i + 1);
      ranks := ranks[d := i + 1];
      order := if d in order then order else order + [d];
    }
    assert list[..|list|] == list;
  }

  lemma {:induction false} NextLast(list: seq<int>, d: int)
    ensures LastRank(list + [d], d) == |list| + 1
    ensures forall x :: x != d && x in list ==> LastRank(list + [d], x) == LastRank(list, x)
    ensures forall x :: x in list + [d] <==> x in list || x == d
  {
    assert (list + [d])[..|list|] == list;
  }

  /** The best counts: those known from the metadata, or a larger one of a hit. */
  method BestCounts(known: map<int, nat>, hits: seq<Hit>) returns (counts: map<int, nat>)
    ensures forall d :: Get(counts, d, 0) == MatchCount(Get(known, d, 0), hits, d)
  {
    counts := known;
    for i := 0 to |hits|
      invariant forall d :: Get(counts, d, 0) == MatchCount(Get(known, d, 0), hits[..i], d)
    {
      assert hits[..i + 1][..i] == hits[..i];
      var hit := hits[i];
      if hit.count > Get(counts, hit.doc, 0) {
        ghost var before := counts;
        counts := counts[hit.doc := hit.count];
        assert forall x :: x != hit.doc ==> Get(counts, x, 0) == Get(before, x, 0);
      }
    }
    assert hits[..|hits|] == hits;
  }

  /** `d` is one of the first `i` keys. */
  predicate Among(keys: seq<int>, i: nat, d: int) {
    exists j :: 0 <= j < i && j < |keys| && keys[j] == d
  }

  lemma {:induction false} NextKey<T>(m: map<int, T>, keys: seq<int>, i: nat)
    requires Ordered(m, keys) && i < |keys|
    ensures keys[i] in m && !Among(keys, i, keys[i]) && Among(keys, i + 1, keys[i])
    ensures forall x :: x != keys[i] ==> Among(keys, i + 1, x) == Among(keys, i, x)
  {
  }

  lemma {:induction false} AllKeys<T>(m: map<int, T>, keys: seq<int>)
    requires Ordered(m, keys)
    ensures forall d :: Among(keys, |keys|, d) <==> d in m
    ensures forall d :: !Among(keys, 0, d)
  {
    forall d ensures Among(keys, |keys|, d) <==> d in m {
      assert d in m <==> d in keys;
    }
  }

  method AddRanks(scores: map<int, real>, keys: seq<int>, ranks: map<int, nat>, rankKeys: seq<int>, weight: real)
    returns (sums: map<int, real>, order: seq<int>)
    requires Ordered(scores, keys) && Ordered(ranks, rankKeys)
    ensures Ordered(sums, order) && order == AddKeys(keys, rankKeys)
    ensures forall d :: Get(sums, d, 0.0) == Get(scores, d, 0.0) + if d in ranks then Share(weight, ranks[d]) else 0.0
  {
    hide Ordered, AddKeys, Gain, Share, Among;
    sums, order := scores, keys;
    NoPlace(rankKeys, keys, 0.0);
    AllKeys(ranks, rankKeys);
    for i := 0 to |rankKeys|
      invariant Ordered(sums, order) && order == AddKeys(keys, rankKeys[..i])
      invariant forall d :: Get(sums, d, 0.0) ==
                            Get(scores, d, 0.0) + if Among(rankKeys, i, d) then Share(weight, Get(ranks, d, 0)) else 0.0
    {
      var d := rankKeys[i];
      NextKey(ranks, rankKeys, i);
      NextPlace(rankKeys, i, keys, weight, d);
      KeyAdded(sums, order, d, Get(sums, d, 0.0) + Share(weight, ranks[d]));
      ghost var before := sums;
      sums := sums[d := Get(sums, d, 0.0) + Share(weight, ranks[d])];
      order := if d in order then order else order + [d];
      assert forall x :: x != d ==> Get(sums, x, 0.0) == Get(before, x, 0.0);
    }
    assert rankKeys[..|rankKeys|] == rankKeys;
  }

  // ---------------------------------------------------------------- the passes over the scores

  /** The dictionaries agree with the lists. */
  ghost predicate Counted(q: Query, counts: map<int, nat>, vectorRanks: map<int, nat>) {
    (forall d :: Get(counts, d, 0) == Matches(q, d)) && forall d :: d in vectorRanks <==> d in q.vector
  }

  /** Some passed keys have their new score, the others still the old one. */
  ghost predicate Passed(scores: map<int, real>, sums: map<int, real>, keys: seq<int>, i: nat,
                         change: (int, real) -> real) {
    && sums.Keys == scores.Keys
    && forall d :: d in scores ==> sums[d] == if Among(keys, i, d) then change(d, scores[d]) else scores[d]
  }

  lemma {:induction false} PassKey(scores: map<int, real>, sums: map<int, real>, keys: seq<int>, i: nat,
                                   change: (int, real) -> real)
    requires Ordered(scores, keys) && i < |keys| && Passed(scores, sums, keys, i, change)
    ensures keys[i] in sums && keys[i] in scores && sums[keys[i]] == scores[keys[i]]
  {
    NextKey(scores, keys, i);
  }

  lemma {:induction false} PassNext(scores: map<int, real>, sums: map<int, real>, keys: seq<int>, i: nat,
                                    change: (int, real) -> real, after: map<int, real>)
    requires Ordered(scores, keys) && i < |keys| && Passed(scores, sums, keys, i, change) && keys[i] in scores
    requires after == sums[keys[i] := change(keys[i], scores[keys[i]])]
    ensures Passed(scores, after, keys, i + 1, change)
  {
    NextKey(scores, keys, i);
    hide Among;
  }

  lemma {:induction false} PassDone(scores: map<int, real>, sums: map<int, real>, keys: seq<int>,
                                    change: (int, real) -> real)
    requires Ordered(scores, keys)
    ensures Passed(scores, scores, keys, 0, change)
    ensures Passed(scores, sums, keys, |keys|, change) ==> Changed(scores, sums, change)
  {
    AllKeys(scores, keys);
    hide Among;
  }

  ghost predicate Changed(scores: map<int, real>, sums: map<int, real>, change: (int, real) -> real) {
    sums.Keys == scores.Keys && forall d :: d in scores ==> sums[d] == change(d, scores[d])
  }

  function Times(x: real, y: real): real {
    x * y
  }

  function Penalized(q: Query): (int, real) -> real {
    (d, score) => Times(score, Penalty(q, d))
  }

  method Penalize(q: Query, scores: map<int, real>, keys: seq<int>, counts: map<int, nat>, vectorRanks: map<int, nat>)
    returns (sums: map<int, real>)
    requires Ordered(scores, keys) && Counted(q, counts, vectorRanks)
    ensures Changed(scores, sums, Penalized(q))
  {
    sums := scores;
    if Tokens(q) > 1 {
      PassDone(scores, sums, keys, Penalized(q));
      hide Passed, Ordered, Penalty, Matches, Square, Times;
      for i := 0 to |keys|
        invariant Passed(scores, sums, keys, i, Penalized(q))
      {
        var d := keys[i];
        PassKey(scores, sums, keys, i, Penalized(q));
        ghost var before := sums;
        var mc := Get(counts, d, 0);
        NoPenalty(q, d, sums[d]);
        if !(mc == 0 && d in vectorRanks) {
          var hits := if mc < Tokens(q) then mc else Tokens(q);
          var ratio := hits as real / Tokens(q) as real;
          sums := sums[d := Times(sums[d], Square(ratio))];
        }
        assert sums == before[d := Penalized(q)(d, scores[d])];
        PassNext(scores, before, keys, i, Penalized(q), sums);
      }
      PassDone(scores, sums, keys, Penalized(q));
    } else {
      forall d | d in scores ensures sums[d] == Penalized(q)(d, scores[d]) {
        NoPenalty(q, d, scores[d]);
      }
    }
  }

  lemma {:induction false} NoPenalty(q: Query, d: int, score: real)
    ensures VectorOnly(q, d) || Tokens(q) == 1 ==> Times(score, Penalty(q, d)) == score
    ensures !VectorOnly(q, d) ==> Penalty(q, d) == Square(MatchRatio(q, d))
  {
  }

  function Refreshed(q: Query, inLists: bool): (int, real) -> real {
    (d, score) => if InLists(q, d) == inLists then score + Freshness(q, d) else score
  }

  lemma {:induction false} FreshnessIs(q: Query, d: int, mc: nat, inVector: bool)
    requires mc == Matches(q, d) && (inVector <==> d in q.vector)
    ensures q.age(d).None? || (!InLists(q, d) && !q.found(d)) ==> Freshness(q, d) == 0.0
    ensures var hits := if mc < Tokens(q) then mc else Tokens(q);
            var ratio := if Tokens(q) > 1 then hits as real / Tokens(q) as real else 1.0;
            q.age(d).Some? && (InLists(q, d) || q.found(d)) ==>
              Freshness(q, d) == Boost(q.age(d).value, if mc == 0 && inVector then 0.0 else ratio)
  {
    hide Matches, InLists, Fresh;
    if q.age(d).Some? {
      assert Square(0.0) == 0.0;
      assert Boost(q.age(d).value, 0.0) == 0.0;
    }
  }

  /** The documents of the lists, whose ages came with them. */
  method RefreshListed(q: Query, scores: map<int, real>, keys: seq<int>, counts: map<int, nat>,
                       vectorRanks: map<int, nat>, listed: set<int>)
    returns (sums: map<int, real>)
    requires Ordered(scores, keys) && Counted(q, counts, vectorRanks) && forall d :: d in listed <==> InLists(q, d)
    ensures Changed(scores, sums, Refreshed(q, true))
  {
    sums := scores;
    PassDone(scores, sums, keys, Refreshed(q, true));
    hide Passed, Ordered, Matches, Freshness, Boost, InLists;
    for i := 0 to |keys|
      invariant Passed(scores, sums, keys, i, Refreshed(q, true))
    {
      var d := keys[i];
      PassKey(scores, sums, keys, i, Refreshed(q, true));
      ghost var before := sums;
      var mc := Get(counts, d, 0);
      FreshnessIs(q, d, mc, d in vectorRanks);
      if d in listed && q.age(d).Some? {
        var hits := if mc < Tokens(q) then mc else Tokens(q);
        var ratio := if mc == 0 && d in vectorRanks then 0.0
          else if Tokens(q) > 1 then hits as real / Tokens(q) as real else 1.0;
        sums := sums[d := sums[d] + Boost(q.age(d).value, ratio)];
      }
      assert sums == before[d := Refreshed(q, true)(d, scores[d])];
      PassNext(scores, before, keys, i, Refreshed(q, true), sums);
    }
    PassDone(scores, sums, keys, Refreshed(q, true));
  }

  /** The documents only the metadata found, whose rows are fetched. */
  method RefreshFetched(q: Query, scores: map<int, real>, keys: seq<int>, counts: map<int, nat>,
                        vectorRanks: map<int, nat>, listed: set<int>)
    returns (sums: map<int, real>)
    requires Ordered(scores, keys) && Counted(q, counts, vectorRanks) && forall d :: d in listed <==> InLists(q, d)
    requires forall d :: d in vectorRanks ==> d in listed
    ensures Changed(scores, sums, Refreshed(q, false))
  {
    sums := scores;
    PassDone(scores, sums, keys, Refreshed(q, false));
    hide Passed, Ordered, Matches, Freshness, Boost, InLists;
    for i := 0 to |keys|
      invariant Passed(scores, sums, keys, i, Refreshed(q, false))
    {
      var d := keys[i];
      PassKey(scores, sums, keys, i, Refreshed(q, false));
      ghost var before := sums;
      var mc := Get(counts, d, 0);
      FreshnessIs(q, d, mc, d in vectorRanks);
      if d !in listed && q.found(d) && q.age(d).Some? {
        var hits := if mc < Tokens(q) then mc else Tokens(q);
        var ratio := if Tokens(q) > 1 then hits as real / Tokens(q) as real else 1.0;
        sums := sums[d := sums[d] + Boost(q.age(d).value, ratio)];
      }
      assert sums == before[d := Refreshed(q, false)(d, scores[d])];
      PassNext(scores, before, keys, i, Refreshed(q, false), sums);
    }
    PassDone(scores, sums, keys, Refreshed(q, false));
  }

  // ---------------------------------------------------------------- the whole

  /** Every document found, with its score. */
  method MergeScores(q: Query) returns (scores: map<int, real>, keys: seq<int>, listed: set<int>)
    requires |q.meta| <= |META_WEIGHTS|
    ensures Ordered(scores, keys) && keys == Found(q)
    ensures forall d :: d in scores ==> scores[d] == Score(q, d)
    ensures forall d :: d in listed <==> InLists(q, d)
  {
    hide MetaGain, Share, Gain, AddKeys, AddKeysOfAll, FirstRank, LastRank, MatchCount, Penalty, Freshness, Times;
    var sums, order := AddMeta(q.meta);
    var firstRanks, firstKeys := FirstRanks(Docs(q.fulltext));
    var counts := BestCounts(q.metaCount, q.fulltext);
    sums, order := AddRanks(sums, order, firstRanks, firstKeys, FULLTEXT_WEIGHT);
    var vectorRanks, vectorKeys := LastRanks(q.vector);
    sums, order := AddRanks(sums, order, vectorRanks, vectorKeys, VECTOR_WEIGHT);
    assert forall d :: d in sums ==> sums[d] == Base(q, d);
    listed := firstRanks.Keys + vectorRanks.Keys;
    keys := order;
    scores := Penalize(q, sums, keys, counts, vectorRanks);
    SameKeys(sums, scores, order);
    var refreshed := RefreshListed(q, scores, keys, counts, vectorRanks, listed);
    SameKeys(scores, refreshed, order);
    var all := RefreshFetched(q, refreshed, keys, counts, vectorRanks, listed);
    SameKeys(refreshed, all, order);
    scores := all;
  }

  lemma {:induction false} SameKeys<T>(m: map<int, T>, n: map<int, T>, keys: seq<int>)
    requires Ordered(m, keys) && n.Keys == m.Keys
    ensures Ordered(n, keys)
  {
  }

  // ---------------------------------------------------------------- the order and the pages

  /** Puts a document before those of the same or a smaller score. */
  function Place(d: int, ranked: seq<int>, score: int -> real): seq<int> {
    if ranked == [] || score(ranked[0]) <= score(d) then [d] + ranked else [ranked[0]] + Place(d, ranked[1..], score)
  }

  /** sorted(keys, key=score, reverse=True): equal scores stay in the order of the keys. */
  function Ranked(keys: seq<int>, score: int -> real): seq<int> {
    if keys == [] then [] else Place(keys[0], Ranked(keys[1..], score), score)
  }

  /** The documents that can be shown: a chunk or the fetched row tells what they are. */
  function Shown(q: Query, ranked: seq<int>): seq<int> {
    if ranked == [] then [] else
    var last := |ranked| - 1;
    Shown(q, ranked[..last]) + if InLists(q, ranked[last]) || q.found(ranked[last]) then [ranked[last]] else []
  }

  function Results(q: Query): seq<int>
    requires |q.meta| <= |META_WEIGHTS|
  {
    Shown(q, Ranked(Found(q), d => Score(q, d)))
  }

  function Min(a: nat, b: nat): nat {
    if a < b then a else b
  }

  /** results[offset:offset + limit] */
  function Page(results: seq<int>, offset: nat, limit: nat): seq<int> {
    results[Min(offset, |results|)..Min(offset + limit, |results|)]
  }

  lemma {:induction false} PlaceSame(d: int, ranked: seq<int>, f: int -> real, g: int -> real)
    requires f(d) == g(d) && forall x :: x in ranked ==> f(x) == g(x)
    ensures Place(d, ranked, f) == Place(d, ranked, g)
  {
    if ranked != [] {
      var first := ranked[0];
      assert first in ranked;
      assert f(first) == g(first);
      PlaceSame(d, ranked[1..], f, g);
    }
  }

  lemma {:induction false} PlaceMembers(d: int, ranked: seq<int>, score: int -> real, x: int)
    ensures x in Place(d, ranked, score) <==> x == d || x in ranked
  {
    if ranked != [] && !(score(ranked[0]) <= score(d)) {
      PlaceMembers(d, ranked[1..], score, x);
    }
  }

  lemma {:induction false} RankedMembers(keys: seq<int>, score: int -> real, x: int)
    ensures x in Ranked(keys, score) <==> x in keys
  {
    if keys != [] {
      RankedMembers(keys[1..], score, x);
      PlaceMembers(keys[0], Ranked(keys[1..], score), score, x);
    }
  }

  /** The order depends on the scores of the keys alone. */
  lemma {:induction false} RankedSame(keys: seq<int>, f: int -> real, g: int -> real)
    requires forall d :: d in keys ==> f(d) == g(d)
    ensures Ranked(keys, f) == Ranked(keys, g)
  {
    if keys != [] {
      RankedSame(keys[1..], f, g);
      forall x | x in Ranked(keys[1..], f) ensures f(x) == g(x) {
        RankedMembers(keys[1..], f, x);
      }
      PlaceSame(keys[0], Ranked(keys[1..], f), f, g);
    }
  }

  method MergedSearch(q: Query, offset: nat, limit: nat) returns (page: seq<int>, total: nat)
    requires |q.meta| <= |META_WEIGHTS|
    ensures page == Page(Results(q), offset, limit) && total == |Results(q)|
    ensures |page| == if offset >= total then 0 else if offset + limit < total then limit else total - offset
    ensures forall i :: 0 <= i < |page| ==> page[i] == Results(q)[offset + i]
  {
    hide Score, Ranked, Found, Scored;
    var scores, keys, listed := MergeScores(q);
    var ranked := Ranked(keys, d => Get(scores, d, 0.0));
    RankedSame(keys, d => Get(scores, d, 0.0), d => Score(q, d));
    var results := [];
    for i := 0 to |ranked|
      invariant results == Shown(q, ranked[..i])
    {
      var d := ranked[i];
      assert ranked[..i + 1][..i] == ranked[..i];
      if d in listed || q.found(d) {
        results := results + [d];
      }
    }
    assert ranked[..|ranked|] == ranked;
    page := results[Min(offset, |results|)..Min(offset + limit, |results|)];
    total := |results|;
  }
}
