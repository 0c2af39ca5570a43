/** Excerpts around the hits of some words in a document's chunks (backend/app/services/agent_tools.py). */
module Snippets {
  import opened Text

  datatype Chunk = Chunk(index: nat, content: string)

  /** The places from the first number up to, and without, the second. */
  type Span = (nat, nat)

  const CONTEXT := 100
  const MAX_TOTAL := 2000
  const MORE := "... (他にもヒット箇所があります)"

  function Min(a: int, b: int): int {
    if a < b then a else b
  }

  function Max(a: int, b: int): int {
    if a < b then b else a
  }

  /** s.lower(), where `lower` gives one character for each. */
  function Lowered(s: string, lower: char -> char): (r: string)
    ensures |r| == |s|
  {
    seq(|s|, i requires 0 <= i < |s| => lower(s[i]))
  }

  // ---------------------------------------------------------------- hits

  /** The occurrences of a word from `start` on. */
  function HitsFrom(t: string, w: string, start: nat): seq<Span>
    decreases |t| - start
  {
    if start >= |t| then [] else
    var i := Find(t, w, start);
    if i < 0 then [] else [(i, i + |w|)] + HitsFrom(t, w, i + 1)
  }

  /** The occurrences of every word, whatever the case. */
  function Hits(content: string, words: seq<string>, lower: char -> char): seq<Span> {
    if words == [] then []
    else HitsFrom(Lowered(content, lower), Lowered(words[0], lower), 0) + Hits(content, words[1..], lower)
  }

  method FindWord(t: string, w: string) returns (positions: seq<Span>)
    ensures positions == HitsFrom(t, w, 0)
  {
    hide OccursAt, Find, HitsFrom;
    positions := [];
    var start := 0;
    while start < |t|
      invariant positions + HitsFrom(t, w, start) == HitsFrom(t, w, 0)
      decreases |t| - start
    {
      var i := Find(t, w, start);
      NextHit(positions, t, w, start, i);
      if i < 0 {
        return;
      }
      positions := positions + [(i, i + |w|)];
      start := i + 1;
    }
    NoHit(positions, t, w, start);
  }

  lemma {:induction false} NextHit(before: seq<Span>, t: string, w: string, start: nat, i: int)
    requires start < |t| && i == Find(t, w, start)
    ensures before + HitsFrom(t, w, start) ==
            if i < 0 then before else before + [(i, i + |w|)] + HitsFrom(t, w, i + 1)
  {
    hide OccursAt, Find;
    if i >= 0 {
      ConcatAssoc(before, [(i, i + |w|)], HitsFrom(t, w, i + 1));
    }
  }

  lemma {:induction false} NoHit(before: seq<Span>, t: string, w: string, start: nat)
    requires start >= |t|
    ensures before + HitsFrom(t, w, start) == before
  {
  }

  method FindPositions(content: string, words: seq<string>, lower: char -> char) returns (positions: seq<Span>)
    ensures positions == Hits(content, words, lower)
  {
    var t := Lowered(content, lower);
    positions := [];
    for k := 0 to |words|
      invariant positions + Hits(content, words[k..], lower) == Hits(content, words, lower)
    {
      var found := FindWord(t, Lowered(words[k], lower));
      assert words[k..][0] == words[k] && words[k..][1..] == words[k + 1..];
      ConcatAssoc(positions, found, Hits(content, words[k + 1..], lower));
      positions := positions + found;
    }
  }

  // ---------------------------------------------------------------- order

  /** The order of pairs: by the first number, then by the second. */
  predicate Before(p: Span, q: Span) {
    p.0 < q.0 || (p.0 == q.0 && p.1 <= q.1)
  }

  predicate Sorted(s: seq<Span>) {
    forall i, j :: 0 <= i < j < |s| ==> Before(s[i], s[j])
  }

  function Insert(p: Span, s: seq<Span>): seq<Span> {
    if s == [] || Before(p, s[0]) then [p] + s else [s[0]] + Insert(p, s[1..])
  }

  /** positions.sort() */
  function SortSpans(s: seq<Span>): seq<Span> {
    if s == [] then [] else Insert(s[0], SortSpans(s[1..]))
  }

  // ---------------------------------------------------------------- windows

  /** The text around a hit, within the `n` characters of the chunk. */
  function Around(p: Span, n: nat): Span {
    (Max(0, p.0 - CONTEXT), Min(n, p.1 + CONTEXT))
  }

  /** One more window: it joins the last one where the two meet. */
  function AddWindow(windows: seq<Span>, w: Span): seq<Span> {
    var last := |windows| - 1;
    if windows != [] && w.0 <= windows[last].1
    then windows[last := (windows[last].0, Max(windows[last].1, w.1))]
    else windows + [w]
  }

  function AddWindows(windows: seq<Span>, positions: seq<Span>, n: nat): seq<Span>
    decreases |positions|
  {
    if positions == [] then windows else AddWindows(AddWindow(windows, Around(positions[0], n)), positions[1..], n)
  }

  function Windows(content: string, words: seq<string>, lower: char -> char): seq<Span> {
    AddWindows([], SortSpans(Hits(content, words, lower)), |content|)
  }

  method MergeWindows(positions: seq<Span>, n: nat) returns (windows: seq<Span>)
    ensures windows == AddWindows([], positions, n)
  {
    windows := [];
    for k := 0 to |positions|
      invariant AddWindows(windows, positions[k..], n) == AddWindows([], positions, n)
    {
      var wStart := Max(0, positions[k].0 - CONTEXT);
      var wEnd := Min(n, positions[k].1 + CONTEXT);
      assert positions[k..][0] == positions[k] && positions[k..][1..] == positions[k + 1..];
      var last := |windows| - 1;
      if windows != [] && wStart <= windows[last].1 {
        windows := windows[last := (windows[last].0, Max(windows[last].1, wEnd))];
      } else {
        windows := windows + [(wStart, wEnd)];
      }
    }
  }

  // ---------------------------------------------------------------- snippets

  function Digit(n: nat): char
    requires n < 10
  {
    "0123456789"[n]
  }

  function Decimal(n: nat): string {
    if n < 10 then [Digit(n)] else Decimal(n / 10) + [Digit(n % 10)]
  }

  /** s.replace("\n", " ") */
  function OneLine(s: string): (r: string)
    ensures |r| == |s|
  {
    seq(|s|, i requires 0 <= i < |s| => if s[i] == '\n' then ' ' else s[i])
  }

  function Snippet(chunk: Chunk, w: Span): string
    requires w.0 <= w.1 <= |chunk.content|
  {
    "[チャンク" + Decimal(chunk.index) + "] " + (if w.0 > 0 then "..." else "") + OneLine(chunk.content[w.0..w.1])
    + (if w.1 < |chunk.content| then "..." else "")
  }

  predicate Fit(ws: seq<Span>, n: nat) {
    forall i :: 0 <= i < |ws| ==> ws[i].0 < ws[i].1 <= n
  }

  function SnippetsOf(chunk: Chunk, ws: seq<Span>): seq<string>
    requires Fit(ws, |chunk.content|)
  {
    seq(|ws|, i requires 0 <= i < |ws| => Snippet(chunk, ws[i]))
  }

  /** Every chunk's snippets. */
  function AllSnippets(chunks: seq<Chunk>, words: seq<string>, lower: char -> char): seq<string> {
    if chunks == [] then [] else
    WindowsFit(chunks[0].content, words, lower);
    SnippetsOf(chunks[0], Windows(chunks[0].content, words, lower)) + AllSnippets(chunks[1..], words, lower)
  }

  /** The snippets up to the one that brings the total to the limit, which a note of more hits then follows. */
  function Capped(all: seq<string>, total: nat): seq<string> {
    if all == [] then []
    else if total + |all[0]| >= MAX_TOTAL then [all[0], MORE]
    else [all[0]] + Capped(all[1..], total + |all[0]|)
  }

  /** Snippets of one chunk before those still to come. */
  method AddSnippets(chunk: Chunk, windows: seq<Span>, before: seq<string>, totalBefore: nat, ghost rest: seq<string>)
    returns (snippets: seq<string>, total: nat)
    requires Fit(windows, |chunk.content|)
    ensures total < MAX_TOTAL ==>
              before + Capped(SnippetsOf(chunk, windows) + rest, totalBefore) == snippets + Capped(rest, total)
    ensures total >= MAX_TOTAL ==>
              windows != [] && before + Capped(SnippetsOf(chunk, windows) + rest, totalBefore) == snippets
    requires totalBefore < MAX_TOTAL
  {
    snippets, total := before, totalBefore;
    ghost var own := SnippetsOf(chunk, windows);
    assert own[0..] == own;
    for k := 0 to |windows|
      invariant total < MAX_TOTAL
      invariant before + Capped(own + rest, totalBefore) == snippets + Capped(own[k..] + rest, total)
    {
      var snippet := Snippet(chunk, windows[k]);
      OneSnippet(snippets, own, k, rest, total);
      snippets := snippets + [snippet];
      total := total + |snippet|;
      if total >= MAX_TOTAL {
        snippets := snippets + [MORE];
        return;
      }
    }
    assert own[|windows|..] + rest == rest;
  }

  lemma {:induction false} OneSnippet(before: seq<string>, own: seq<string>, k: nat, rest: seq<string>, total: nat)
    requires k < |own|
    ensures total + |own[k]| >= MAX_TOTAL ==>
              before + Capped(own[k..] + rest, total) == before + [own[k]] + [MORE]
    ensures total + |own[k]| < MAX_TOTAL ==>
              before + Capped(own[k..] + rest, total) ==
              before + [own[k]] + Capped(own[k + 1..] + rest, total + |own[k]|)
  {
    var all := own[k..] + rest;
    assert all[0] == own[k] && all[1..] == own[k + 1..] + rest;
    ConcatAssoc(before, [own[k]], Capped(own[k + 1..] + rest, total + |own[k]|));
    ConcatAssoc(before, [own[k]], [MORE]);
    assert [own[k]] + [MORE] == [own[k], MORE];
  }

  method ExtractSnippets(chunks: seq<Chunk>, words: seq<string>, lower: char -> char) returns (snippets: seq<string>)
    ensures snippets == Capped(AllSnippets(chunks, words, lower), 0)
  {
    snippets := [];
    var total: nat := 0;
    assert chunks[0..] == chunks;
    hide Capped;
    for k := 0 to |chunks|
      invariant total < MAX_TOTAL
      invariant snippets + Capped(AllSnippets(chunks[k..], words, lower), total) ==
                Capped(AllSnippets(chunks, words, lower), 0)
    {
      var chunk := chunks[k];
      var positions := FindPositions(chunk.content, words, lower);
      var windows := MergeWindows(SortSpans(positions), |chunk.content|);
      WindowsFit(chunk.content, words, lower);
      assert chunks[k..][0] == chunk && chunks[k..][1..] == chunks[k + 1..];
      snippets, total := AddSnippets(chunk, windows, snippets, total, AllSnippets(chunks[k + 1..], words, lower));
      if total >= MAX_TOTAL {
        return;
      }
    }
    assert snippets + Capped([], total) == snippets by {
      EmptyCap(total);
    }
  }

  lemma {:induction false} EmptyCap(total: nat)
    ensures Capped([], total) == []
  {
  }

  // ---------------------------------------------------------------- what the hits are

  lemma {:induction false} FoundInside(t: string, w: string, start: nat)
    requires start < |t|
    ensures Find(t, w, start) < |t|
  {
    assert w == "" ==> OccursAt(t, w, start);
  }

  /** A word's hits are all its occurrences, the overlapping ones too. */
  lemma {:induction false} HitsAreOccurrences(t: string, w: string, start: nat, p: Span)
    ensures p in HitsFrom(t, w, start) <==> start <= p.0 < |t| && OccursAt(t, w, p.0) && p.1 == p.0 + |w|
    decreases |t| - start
  {
    hide Find, OccursAt;
    if start < |t| {
      var i := Find(t, w, start);
      FoundInside(t, w, start);
      if i >= 0 {
        var rest := HitsFrom(t, w, i + 1);
        HitsAreOccurrences(t, w, i + 1, p);
        assert p in [(i, i + |w|)] + rest <==> p == (i, i + |w|) || p in rest;
      }
    }
  }

  /** Some word stands at `i`, whatever the case. */
  ghost predicate HitAt(content: string, words: seq<string>, lower: char -> char, p: Span) {
    exists word :: word in words && p.0 < |content| && p.1 == p.0 + |word| &&
      OccursAt(Lowered(content, lower), Lowered(word, lower), p.0)
  }

  lemma {:induction false} HitsAreWords(content: string, words: seq<string>, lower: char -> char, p: Span)
    ensures p in Hits(content, words, lower) <==> HitAt(content, words, lower, p)
  {
    if words != [] {
      HitsAreOccurrences(Lowered(content, lower), Lowered(words[0], lower), 0, p);
      HitsAreWords(content, words[1..], lower, p);
      assert words == [words[0]] + words[1..];
    }
  }

  // ---------------------------------------------------------------- sorting

  lemma {:induction false} InsertMembers(p: Span, s: seq<Span>)
    ensures multiset(Insert(p, s)) == multiset(s) + multiset{p}
  {
    if s != [] && !Before(p, s[0]) {
      InsertMembers(p, s[1..]);
      assert s == [s[0]] + s[1..];
    }
  }

  lemma {:induction false} InsertSorted(p: Span, s: seq<Span>)
    requires Sorted(s)
    ensures Sorted(Insert(p, s))
  {
    if s == [] || Before(p, s[0]) {
    } else {
      InsertSorted(p, s[1..]);
      InsertMembers(p, s[1..]);
      var r := Insert(p, s[1..]);
      forall x | x in r ensures Before(s[0], x) {
        assert x in multiset(r);
        assert x in s[1..] || x == p;
      }
    }
  }

  /** Sorting keeps the hits and puts them in order. */
  lemma {:induction false} SpansSorted(s: seq<Span>)
    ensures Sorted(SortSpans(s)) && multiset(SortSpans(s)) == multiset(s)
  {
    if s != [] {
      SpansSorted(s[1..]);
      InsertSorted(s[0], SortSpans(s[1..]));
      InsertMembers(s[0], SortSpans(s[1..]));
      assert s == [s[0]] + s[1..];
    }
  }

  // ---------------------------------------------------------------- what the windows are

  predicate In(ws: seq<Span>, x: int) {
    exists i :: 0 <= i < |ws| && ws[i].0 <= x < ws[i].1
  }

  /** Not empty, from left to right, and a gap between each two. */
  predicate Separated(ws: seq<Span>) {
    (forall i :: 0 <= i < |ws| ==> ws[i].0 < ws[i].1) && forall i, j :: 0 <= i < j < |ws| ==> ws[i].1 < ws[j].0
  }

  /** Some place of `ps`, with its context, has `x`. */
  predicate Near(ps: seq<Span>, n: nat, x: int) {
    exists p :: p in ps && Around(p, n).0 <= x < Around(p, n).1
  }

  lemma {:induction false} InParts(a: seq<Span>, w: Span, x: int)
    ensures In(a + [w], x) <==> In(a, x) || w.0 <= x < w.1
  {
    var r := a + [w];
    assert r[|a|] == w && forall i :: 0 <= i < |a| ==> r[i] == a[i];
    if In(a, x) {
      var i :| 0 <= i < |a| && a[i].0 <= x < a[i].1;
      assert r[i].0 <= x < r[i].1;
    }
  }

  lemma {:induction false} AddOneIn(ws: seq<Span>, w: Span, x: int)
    requires ws != [] ==> ws[|ws| - 1].0 <= w.0 && ws[|ws| - 1].0 < ws[|ws| - 1].1
    ensures In(AddWindow(ws, w), x) <==> In(ws, x) || w.0 <= x < w.1
  {
    var last := |ws| - 1;
    if ws != [] && w.0 <= ws[last].1 {
      var joined := (ws[last].0, Max(ws[last].1, w.1));
      assert AddWindow(ws, w) == ws[..last] + [joined] && ws == ws[..last] + [ws[last]];
      InParts(ws[..last], joined, x);
      InParts(ws[..last], ws[last], x);
    } else {
      InParts(ws, w, x);
    }
  }

  lemma {:induction false} AddOne(ws: seq<Span>, w: Span)
    requires Separated(ws) && w.0 < w.1 && (ws == [] || ws[|ws| - 1].0 <= w.0)
    ensures var r := AddWindow(ws, w);
            && Separated(r) && r != [] && r[|r| - 1].0 <= w.0
            && forall x :: In(r, x) <==> In(ws, x) || w.0 <= x < w.1
  {
    forall x ensures In(AddWindow(ws, w), x) <==> In(ws, x) || w.0 <= x < w.1 {
      AddOneIn(ws, w, x);
    }
    hide In;
  }

  predicate Inside(ps: seq<Span>, n: nat) {
    forall i :: 0 <= i < |ps| ==> ps[i].0 <= ps[i].1 <= n && ps[i].0 < n
  }

  lemma {:induction false} AddAll(ws: seq<Span>, ps: seq<Span>, n: nat)
    requires Separated(ws) && Sorted(ps) && Inside(ps, n)
    requires ws != [] && ps != [] ==> ws[|ws| - 1].0 <= Around(ps[0], n).0
    ensures var r := AddWindows(ws, ps, n);
            Separated(r) && forall x :: In(r, x) <==> In(ws, x) || Near(ps, n, x)
    decreases |ps|
  {
    if ps != [] {
      var w := Around(ps[0], n);
      AddOne(ws, w);
      AddAll(AddWindow(ws, w), ps[1..], n);
      assert ps == [ps[0]] + ps[1..];
      forall x ensures Near(ps, n, x) <==> w.0 <= x < w.1 || Near(ps[1..], n, x) {
      }
    }
  }

  /** The windows lie in the text, in order with gaps between them, and have exactly the places near a hit. */
  lemma {:induction false} WindowsExact(content: string, words: seq<string>, lower: char -> char)
    ensures var ws := Windows(content, words, lower);
            && Separated(ws)
            && forall x :: In(ws, x) <==> Near(Hits(content, words, lower), |content|, x)
  {
    var hits := Hits(content, words, lower);
    var ps := SortSpans(hits);
    SpansSorted(hits);
    SameNear(ps, hits, |content|);
    forall p | p in ps ensures p.0 <= p.1 <= |content| && p.0 < |content| {
      assert p in multiset(ps);
      HitsAreWords(content, words, lower, p);
    }
    AddAll([], ps, |content|);
  }

  lemma {:induction false} SameNear(ps: seq<Span>, qs: seq<Span>, n: nat)
    requires multiset(ps) == multiset(qs)
    ensures forall x :: Near(ps, n, x) <==> Near(qs, n, x)
  {
    assert forall p :: p in multiset(ps) <==> p in multiset(qs);
    assert forall p :: p in ps <==> p in multiset(ps);
    assert forall p :: p in qs <==> p in multiset(qs);
  }

  lemma {:induction false} WindowsFit(content: string, words: seq<string>, lower: char -> char)
    ensures Fit(Windows(content, words, lower), |content|)
  {
    var ws := Windows(content, words, lower);
    WindowsExact(content, words, lower);
    forall i | 0 <= i < |ws| ensures ws[i].0 < ws[i].1 <= |content| {
      assert In(ws, ws[i].1 - 1);
    }
  }
}
