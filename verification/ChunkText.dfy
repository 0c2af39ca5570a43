/** Splitting a text into overlapping chunks (backend/app/services/parser.py, chunk_text). */
module ChunkText {
  import opened Text

  const SEPARATORS: seq<string> := [". ", "! ", "? "]

  function Min(a: int, b: int): int {
    if a < b then a else b
  }

  function Max(a: int, b: int): int {
    if a < b then b else a
  }

  /** The end of a sentence in [lo, hi), past `start`: the last place of the first separator that has one; else `hi`. */
  function SentenceEnd(text: string, start: nat, lo: nat, hi: nat, k: nat := 0): (end: nat)
    requires lo <= hi <= |text| && k <= |SEPARATORS|
    ensures end == hi || (start < end - 2 && lo <= end - 2 && end <= hi)
    decreases |SEPARATORS| - k
  {
    if k == |SEPARATORS| then hi else
    var pos := FindLast(text, SEPARATORS[k], lo, hi);
    if pos > start then pos + 2 else SentenceEnd(text, start, lo, hi, k + 1)
  }

  /** Where the window that starts at `start` ends: at the end of the text, or at a paragraph, a line or a sentence in
      its second half, or full. */
  function WindowEnd(text: string, size: nat, start: nat): (end: nat)
    requires start < |text| && size >= 1
    ensures start < end <= |text| && end <= start + size
    ensures end < |text| ==> end >= start + size / 2 + 1
  {
    var hi := Min(start + size, |text|);
    if hi == |text| then hi else
    var mid := start + size / 2;
    var para := FindLast(text, "\n\n", start, hi);
    if para > mid then para + 2 else
    var line := FindLast(text, "\n", mid, hi);
    if line > start then line + 1 else SentenceEnd(text, start, mid, hi)
  }

  /** Where the next window starts. */
  function NextStart(end: nat, overlap: nat, start: nat): nat {
    Max(end - overlap, start + 1)
  }

  /** The windows from `start` on. */
  function Windows(text: string, size: nat, overlap: nat, start: nat): seq<(nat, nat)>
    requires size >= 1
    decreases |text| - start
  {
    if start >= |text| then [] else
    var end := WindowEnd(text, size, start);
    [(start, end)] + if end >= |text| then [] else Windows(text, size, overlap, NextStart(end, overlap, start))
  }

  predicate InText(text: string, ws: seq<(nat, nat)>) {
    forall i :: 0 <= i < |ws| ==> ws[i].0 <= ws[i].1 <= |text|
  }

  /** The windows' texts without spaces around them, blank ones left out. */
  function Chunks(text: string, ws: seq<(nat, nat)>): seq<string>
    requires InText(text, ws)
  {
    if ws == [] then [] else
    var chunk := Trim(text[ws[0].0..ws[0].1]);
    (if chunk == "" then [] else [chunk]) + Chunks(text, ws[1..])
  }

  lemma {:induction false} WindowsInside(text: string, size: nat, overlap: nat, start: nat)
    requires size >= 1
    ensures var ws := Windows(text, size, overlap, start);
            InText(text, ws) && forall i :: 0 <= i < |ws| ==> ws[i].1 - ws[i].0 <= size
    decreases |text| - start
  {
    hide WindowEnd;
    if start < |text| {
      var end := WindowEnd(text, size, start);
      if end < |text| {
        var rest := Windows(text, size, overlap, NextStart(end, overlap, start));
        WindowsInside(text, size, overlap, NextStart(end, overlap, start));
        assert forall i :: 1 <= i <= |rest| ==> Windows(text, size, overlap, start)[i] == rest[i - 1];
      }
    }
  }

  /** The chunks of the windows from `start` on. */
  function ChunksFrom(text: string, size: nat, overlap: nat, start: nat): seq<string>
    requires size >= 1
  {
    WindowsInside(text, size, overlap, start);
    Chunks(text, Windows(text, size, overlap, start))
  }

  function AllChunks(text: string, size: nat, overlap: nat): seq<string>
    requires size >= 1
  {
    ChunksFrom(text, size, overlap, 0)
  }

  method FindEnd(text: string, size: nat, start: nat) returns (end: nat)
    requires start < |text| && size >= 1
    ensures end == WindowEnd(text, size, start)
  {
    hide OccursAt, FindLast;
    end := Min(start + size, |text|);
    if end < |text| {
      var hi := end;
      var paraBreak := FindLast(text, "\n\n", start, hi);
      if paraBreak > start + size / 2 {
        end := paraBreak + 2;
      } else {
        var newline := FindLast(text, "\n", start + size / 2, hi);
        if newline > start {
          end := newline + 1;
        } else {
          for k := 0 to |SEPARATORS|
            invariant end == hi
            invariant SentenceEnd(text, start, start + size / 2, hi) ==
                      SentenceEnd(text, start, start + size / 2, hi, k)
          {
            var pos := FindLast(text, SEPARATORS[k], start + size / 2, hi);
            if pos > start {
              end := pos + |SEPARATORS[k]|;
              return;
            }
          }
        }
      }
    }
  }

  /** `chunks`, and then the chunks of the windows from `start` on, are all chunks. */
  ghost predicate Underway(text: string, size: nat, overlap: nat, start: nat, chunks: seq<string>)
    requires size >= 1
  {
    chunks + ChunksFrom(text, size, overlap, start) == AllChunks(text, size, overlap)
  }

  method ChunkText(text: string, size: nat, overlap: nat) returns (chunks: seq<string>)
    requires size >= 1
    ensures chunks == if Trim(text) == "" then [] else AllChunks(text, size, overlap)
  {
    hide AllChunks, ChunksFrom, WindowEnd, Underway;
    if text == "" || Trim(text) == "" {
      return [];
    }
    hide Trim;
    chunks := [];
    var start := 0;
    FirstUnderway(text, size, overlap);
    while start < |text|
      invariant Underway(text, size, overlap, start, chunks)
      decreases |text| - start
    {
      var end := FindEnd(text, size, start);
      var chunk := Trim(text[start..end]);
      WindowStep(text, size, overlap, start, end, chunks);
      if chunk != "" {
        chunks := chunks + [chunk];
      }
      if end >= |text| {
        return;
      }
      start := Max(end - overlap, start + 1);
    }
    LastUnderway(text, size, overlap, start, chunks);
  }

  lemma {:induction false} FirstUnderway(text: string, size: nat, overlap: nat)
    requires size >= 1
    ensures Underway(text, size, overlap, 0, [])
  {
    assert [] + ChunksFrom(text, size, overlap, 0) == ChunksFrom(text, size, overlap, 0);
  }

  lemma {:induction false} LastUnderway(text: string, size: nat, overlap: nat, start: nat, chunks: seq<string>)
    requires size >= 1 && start >= |text| && Underway(text, size, overlap, start, chunks)
    ensures chunks == AllChunks(text, size, overlap)
  {
  }

  lemma {:induction false} WindowStep(text: string, size: nat, overlap: nat, start: nat, end: nat, before: seq<string>)
    requires size >= 1 && start < |text| && end == WindowEnd(text, size, start)
    requires Underway(text, size, overlap, start, before)
    ensures var chunk := Trim(text[start..end]);
            var after := if chunk == "" then before else before + [chunk];
            if end >= |text| then after == AllChunks(text, size, overlap)
            else Underway(text, size, overlap, NextStart(end, overlap, start), after)
  {
    var rest := if end >= |text| then [] else Windows(text, size, overlap, NextStart(end, overlap, start));
    var ws := Windows(text, size, overlap, start);
    var chunk := Trim(text[start..end]);
    WindowsInside(text, size, overlap, start);
    WindowsInside(text, size, overlap, NextStart(end, overlap, start));
    hide WindowEnd, Trim;
    assert ws[0] == (start, end) && ws[1..] == rest;
    assert Chunks(text, ws) == (if chunk == "" then [] else [chunk]) + Chunks(text, rest);
    ConcatAssoc(before, [chunk], Chunks(text, rest));
    assert [] + Chunks(text, rest) == Chunks(text, rest);
  }

  // ---------------------------------------------------------------- what the chunks are

  lemma {:induction false} TrimLeftSlice(s: string) returns (a: nat)
    ensures a <= |s| && TrimLeft(s) == s[a..] && AllSpace(s[..a])
  {
    if s != "" && IsSpace(s[0]) {
      var b := TrimLeftSlice(s[1..]);
      a := b + 1;
      assert s[..a] == [s[0]] + s[1..][..b];
    } else {
      a := 0;
    }
  }

  lemma {:induction false} TrimRightSlice(s: string) returns (b: nat)
    ensures b <= |s| && TrimRight(s) == s[..b] && AllSpace(s[b..])
  {
    if s != "" && IsSpace(s[|s| - 1]) {
      b := TrimRightSlice(s[..|s| - 1]);
      assert s[b..] == s[..|s| - 1][b..] + [s[|s| - 1]];
      assert s[..|s| - 1][..b] == s[..b];
    } else {
      b := |s|;
    }
  }

  /** Trimming cuts a slice out that keeps every character that is no space. */
  lemma {:induction false} TrimSlice(s: string) returns (a: nat, b: nat)
    ensures a <= b <= |s| && Trim(s) == s[a..b]
    ensures forall k :: 0 <= k < a || b <= k < |s| ==> IsSpace(s[k])
  {
    a := TrimLeftSlice(s);
    var c := TrimRightSlice(s[a..]);
    b := a + c;
    assert s[a..][..c] == s[a..b];
    forall k | 0 <= k < a || b <= k < |s| ensures IsSpace(s[k]) {
      if k < a {
        assert s[..a][k] == s[k];
      } else {
        assert s[a..][c..][k - b] == s[k];
      }
    }
  }

  /** `chunk` stands in the text from `a` to `b`. */
  predicate Slice(text: string, a: int, b: int, chunk: string) {
    0 <= a <= b <= |text| && text[a..b] == chunk
  }

  lemma {:induction false} WindowSlice(text: string, lo: nat, hi: nat) returns (a: nat, b: nat)
    requires lo <= hi <= |text|
    ensures lo <= a <= b <= hi && Slice(text, a, b, Trim(text[lo..hi]))
    ensures forall x :: lo <= x < hi && !IsSpace(text[x]) ==> a <= x < b
  {
    var s := text[lo..hi];
    var i, j := TrimSlice(s);
    a, b := lo + i, lo + j;
    SubSlice(text, lo, hi, i, j);
    assert forall x :: lo <= x < hi ==> s[x - lo] == text[x];
  }

  /** Every chunk is a slice of the text of at most `size` characters, and not empty. */
  lemma {:induction false} ChunkIsSlice(text: string, size: nat, ws: seq<(nat, nat)>, k: nat)
    requires InText(text, ws) && forall i :: 0 <= i < |ws| ==> ws[i].1 - ws[i].0 <= size
    requires k < |Chunks(text, ws)|
    ensures exists a, b :: Slice(text, a, b, Chunks(text, ws)[k]) && a < b <= a + size
  {
    var chunk := Trim(text[ws[0].0..ws[0].1]);
    if chunk != "" && k == 0 {
      var a, b := WindowSlice(text, ws[0].0, ws[0].1);
      assert Slice(text, a, b, Chunks(text, ws)[k]);
    } else {
      var j := if chunk == "" then k else k - 1;
      assert Chunks(text, ws)[k] == Chunks(text, ws[1..])[j];
      ChunkIsSlice(text, size, ws[1..], j);
    }
  }

  predicate Covered(ws: seq<(nat, nat)>, x: int) {
    exists i :: 0 <= i < |ws| && ws[i].0 <= x < ws[i].1
  }

  /** The windows leave no gap: every place from `start` on lies in one. */
  lemma {:induction false} WindowsCover(text: string, size: nat, overlap: nat, start: nat, x: nat)
    requires size >= 1 && start <= x < |text|
    ensures Covered(Windows(text, size, overlap, start), x)
    decreases |text| - start
  {
    var ws := Windows(text, size, overlap, start);
    var end := WindowEnd(text, size, start);
    if x < end {
      assert ws[0] == (start, end);
    } else {
      var next := NextStart(end, overlap, start);
      WindowsCover(text, size, overlap, next, x);
      var rest := Windows(text, size, overlap, next);
      var i :| 0 <= i < |rest| && rest[i].0 <= x < rest[i].1;
      var k := i + 1;
      assert ws[k] == rest[i];
      assert 0 <= k < |ws| && ws[k].0 <= x < ws[k].1;
    }
  }

  lemma {:induction false} ChunkOfWindow(text: string, ws: seq<(nat, nat)>, i: nat)
    requires InText(text, ws)
    requires i < |ws| && Trim(text[ws[i].0..ws[i].1]) != ""
    ensures Trim(text[ws[i].0..ws[i].1]) in Chunks(text, ws)
  {
    if i > 0 {
      ChunkOfWindow(text, ws[1..], i - 1);
    }
  }

  /** A text with a character that is no space is not blank. */
  lemma {:induction false} NotBlank(text: string, x: nat)
    requires x < |text| && !IsSpace(text[x])
    ensures Trim(text) != ""
  {
    var a, b := TrimSlice(text);
  }

  /** Every character that is no space lies in some chunk. */
  lemma {:induction false} ChunksCover(text: string, size: nat, overlap: nat, x: nat)
    requires size >= 1 && x < |text| && !IsSpace(text[x])
    ensures exists chunk, a, b :: chunk in AllChunks(text, size, overlap) && Slice(text, a, b, chunk) && a <= x < b
  {
    WindowsInside(text, size, overlap, 0);
    WindowsCover(text, size, overlap, 0, x);
    var ws := Windows(text, size, overlap, 0);
    var i :| 0 <= i < |ws| && ws[i].0 <= x < ws[i].1;
    var a, b := WindowSlice(text, ws[i].0, ws[i].1);
    ChunkOfWindow(text, ws, i);
  }

  /** Each window but the last moves the start on by more than half a window less the overlap. */
  lemma {:induction false} WindowCount(text: string, size: nat, overlap: nat, start: nat, step: nat)
    requires size >= 1 && start < |text| && step == size / 2 + 1 - overlap && overlap <= size / 2
    ensures (|Windows(text, size, overlap, start)| - 1) * step < |text| - start
    decreases |text| - start
  {
    hide WindowEnd;
    var end := WindowEnd(text, size, start);
    if end < |text| {
      var next := NextStart(end, overlap, start);
      var rest := Windows(text, size, overlap, next);
      WindowCount(text, size, overlap, next, step);
      FirstWindow(text, size, overlap, start);
      CountOne(|rest|, step, start, next, |text|);
    } else {
      FirstWindow(text, size, overlap, start);
      assert 0 * step == 0;
    }
  }

  lemma {:induction false} FirstWindow(text: string, size: nat, overlap: nat, start: nat)
    requires size >= 1 && start < |text|
    ensures var end := WindowEnd(text, size, start);
            |Windows(text, size, overlap, start)| ==
            if end >= |text| then 1 else 1 + |Windows(text, size, overlap, NextStart(end, overlap, start))|
  {
    hide WindowEnd;
  }

  lemma {:induction false} CountOne(n: nat, step: nat, start: nat, next: nat, length: nat)
    requires (n - 1) * step < length - next && start + step <= next
    ensures (1 + n - 1) * step < length - start
  {
    OneMore(n, step);
  }

  lemma {:induction false} FewerChunks(text: string, ws: seq<(nat, nat)>)
    requires InText(text, ws)
    ensures |Chunks(text, ws)| <= |ws|
  {
    if ws != [] {
      FewerChunks(text, ws[1..]);
    }
  }

  /** With an overlap of at most half a chunk, the number k of chunks has (k - 1) * (size / 2 + 1 - overlap) <
      length. */
  lemma {:induction false} ChunkCount(text: string, size: nat, overlap: nat)
    requires size >= 1 && overlap <= size / 2 && text != ""
    ensures (|AllChunks(text, size, overlap)| - 1) * (size / 2 + 1 - overlap) < |text|
  {
    hide Windows, Chunks, WindowEnd, Trim;
    var step := size / 2 + 1 - overlap;
    WindowsInside(text, size, overlap, 0);
    WindowCount(text, size, overlap, 0, step);
    var ws := Windows(text, size, overlap, 0);
    FewerChunks(text, ws);
  }

  lemma {:induction false} OneMore(n: nat, c: nat)
    ensures n * c == (n - 1) * c + c
  {
  }

  // ---------------------------------------------------------------- where windows end and start

  /** `pat` stands wholly in [lo, hi) at `p`. */
  predicate StandsIn(text: string, pat: string, lo: nat, hi: nat, p: nat) {
    lo <= p && p + |pat| <= hi && OccursAt(text, pat, p)
  }

  /** The last place of `pat` in [lo, hi), which is past `after`. */
  ghost predicate LastPast(text: string, pat: string, lo: nat, hi: nat, after: nat, p: nat) {
    StandsIn(text, pat, lo, hi, p) && p > after && forall i: nat :: StandsIn(text, pat, lo, hi, i) ==> i <= p
  }

  /** No place of `pat` in [lo, hi) is past `after`. */
  ghost predicate NonePast(text: string, pat: string, lo: nat, hi: nat, after: nat) {
    forall i: nat :: StandsIn(text, pat, lo, hi, i) ==> i <= after
  }

  /** `p` is the last place if that is past `after`, else there is none past it. */
  ghost predicate Picked(text: string, pat: string, lo: nat, hi: nat, after: nat, p: int) {
    && (p > after ==> p >= 0 && LastPast(text, pat, lo, hi, after, p) && !NonePast(text, pat, lo, hi, after))
    && (p <= after ==> NonePast(text, pat, lo, hi, after))
  }

  lemma {:induction false} FindLastPast(text: string, pat: string, lo: nat, hi: nat, after: nat)
    requires hi <= |text|
    ensures Picked(text, pat, lo, hi, after, FindLast(text, pat, lo, hi))
  {
    var p := FindLast(text, pat, lo, hi);
    assert p > after ==> StandsIn(text, pat, lo, hi, p);
  }

  /** A window that does not reach the end of the text ends after the last paragraph break past its middle; without
      one, after the last line end from the middle on; without that, after the last sentence, `. ` before `! ` before
      `? `; and without any of them it is full. */
  lemma {:induction false} EndsAtBreak(text: string, size: nat, start: nat)
    requires size >= 1 && start + size < |text|
    ensures IsBreak(text, start, start + size / 2, start + size, "\n\n", "\n", ". ", "! ", "? ",
            WindowEnd(text, size, start))
  {
    hide *;
    var mid, hi := start + size / 2, start + size;
    var p, l := WindowCases(text, size, start, mid, hi, "\n\n", "\n");
    SentenceAtBreak(text, start, mid, hi, ". ", "! ", "? ");
    var sentence, end := SentenceEnd(text, start, mid, hi), WindowEnd(text, size, start);
    BreakFirst(text, start, mid, hi, "\n\n", "\n", ". ", "! ", "? ", p, l, sentence, end);
  }

  lemma {:induction false} EndsAtEnd(text: string, size: nat, start: nat)
    requires start < |text| <= start + size && size >= 1
    ensures WindowEnd(text, size, start) == |text|
  {
  }

  lemma {:induction false} WindowCases(text: string, size: nat, start: nat, mid: nat, hi: nat, para: string,
                                       line: string)
    returns (p: int, l: int)
    requires size >= 1 && mid == start + size / 2 && hi == start + size < |text| && para == "\n\n" && line == "\n"
    ensures Picked(text, para, start, hi, mid, p) && Picked(text, line, mid, hi, start, l)
    ensures WindowEnd(text, size, start) ==
            if p > mid then p + 2 else if l > start then l + 1 else SentenceEnd(text, start, mid, hi)
  {
    hide OccursAt, SentenceEnd, FindLast, Picked;
    p, l := FindLast(text, para, start, hi), FindLast(text, line, mid, hi);
    FindLastPast(text, para, start, hi, mid);
    FindLastPast(text, line, mid, hi, start);
  }

  lemma {:induction false} BreakFirst(text: string, start: nat, mid: nat, hi: nat, para: string, line: string,
                                      dot: string,
                                      bang: string, ask: string, p: int, l: int, sentence: nat, end: nat)
    requires Picked(text, para, start, hi, mid, p) && Picked(text, line, mid, hi, start, l)
    requires IsSentence(text, start, mid, hi, dot, bang, ask, sentence)
    requires end == if p > mid then p + 2 else if l > start then l + 1 else sentence
    ensures IsBreak(text, start, mid, hi, para, line, dot, bang, ask, end)
  {
    hide LastPast, NonePast, IsSentence;
  }

  lemma {:induction false} SentenceAtBreak(text: string, start: nat, mid: nat, hi: nat, dot: string, bang: string,
                                           ask: string)
    requires mid <= hi <= |text| && dot == ". " && bang == "! " && ask == "? "
    ensures IsSentence(text, start, mid, hi, dot, bang, ask, SentenceEnd(text, start, mid, hi))
  {
    hide OccursAt, FindLast, Picked, IsSentence, SentenceEnd;
    FindLastPast(text, dot, mid, hi, start);
    FindLastPast(text, bang, mid, hi, start);
    FindLastPast(text, ask, mid, hi, start);
    SentenceCases(text, start, mid, hi, dot, bang, ask);
    var d, e, q := FindLast(text, dot, mid, hi), FindLast(text, bang, mid, hi), FindLast(text, ask, mid, hi);
    SentenceFirst(text, start, mid, hi, dot, bang, ask, d, e, q);
  }

  lemma {:induction false} SentenceFirst(text: string, start: nat, mid: nat, hi: nat, dot: string, bang: string,
                                         ask: string,
                                         d: int, e: int, q: int)
    requires Picked(text, dot, mid, hi, start, d) && Picked(text, bang, mid, hi, start, e)
    requires Picked(text, ask, mid, hi, start, q)
    ensures var end := if d > start then d + 2 else if e > start then e + 2 else if q > start then q + 2 else hi;
            end >= 0 && IsSentence(text, start, mid, hi, dot, bang, ask, end)
  {
    hide LastPast, NonePast;
  }

  lemma {:induction false} SentenceCases(text: string, start: nat, mid: nat, hi: nat, dot: string, bang: string,
                                         ask: string)
    requires mid <= hi <= |text| && dot == ". " && bang == "! " && ask == "? "
    ensures var d, e, q := FindLast(text, dot, mid, hi), FindLast(text, bang, mid, hi), FindLast(text, ask, mid, hi);
            SentenceEnd(text, start, mid, hi) ==
            if d > start then d + 2 else if e > start then e + 2 else if q > start then q + 2 else hi
  {
    hide FindLast, OccursAt;
    assert SEPARATORS[0] == dot && SEPARATORS[1] == bang && SEPARATORS[2] == ask && |SEPARATORS| == 3;
    assert SentenceEnd(text, start, mid, hi, 3) == hi;
    assert SentenceEnd(text, start, mid, hi, 2) ==
           var q := FindLast(text, ask, mid, hi); if q > start then q + 2 else hi;
  }

  /** The end of a window: after the last `para` past `mid`; else after the last `line` from there on; else after the
      last `dot`, `bang` or `ask`, the first of them that has one; else `hi`. */
  ghost predicate IsBreak(text: string, start: nat, mid: nat, hi: nat, para: string, line: string, dot: string,
                          bang: string, ask: string, end: nat)
  {
    if !NonePast(text, para, start, hi, mid) then end >= 2 && LastPast(text, para, start, hi, mid, end - 2)
    else if !NonePast(text, line, mid, hi, start) then end >= 1 && LastPast(text, line, mid, hi, start, end - 1)
    else IsSentence(text, start, mid, hi, dot, bang, ask, end)
  }

  ghost predicate IsSentence(text: string, start: nat, mid: nat, hi: nat, dot: string, bang: string, ask: string,
                             end: nat) {
    if !NonePast(text, dot, mid, hi, start) then end >= 2 && LastPast(text, dot, mid, hi, start, end - 2)
    else if !NonePast(text, bang, mid, hi, start) then end >= 2 && LastPast(text, bang, mid, hi, start, end - 2)
    else if !NonePast(text, ask, mid, hi, start) then end >= 2 && LastPast(text, ask, mid, hi, start, end - 2)
    else end == hi
  }

  /** Each window ends at its break, and the next starts `overlap` characters before that end, but past the start of the
      one before; the last ends the text. */
  ghost predicate Linked(text: string, size: nat, overlap: nat, ws: seq<(nat, nat)>)
    requires size >= 1
  {
    && ws != [] && ws[|ws| - 1].1 == |text|
    && (forall i :: 0 <= i < |ws| ==> ws[i].0 < |text| && ws[i].1 == WindowEnd(text, size, ws[i].0))
    && (forall i :: 0 < i < |ws| ==> Follows(overlap, ws[i - 1], ws[i]))
  }

  predicate Follows(overlap: nat, w: (nat, nat), next: (nat, nat)) {
    next.0 == if w.1 - overlap > w.0 then w.1 - overlap else w.0 + 1
  }

  lemma {:induction false} LinkedCons(text: string, size: nat, overlap: nat, w: (nat, nat), ws: seq<(nat, nat)>)
    requires size >= 1 && w.0 < |text| && w.1 == WindowEnd(text, size, w.0)
    requires Linked(text, size, overlap, ws) && Follows(overlap, w, ws[0])
    ensures Linked(text, size, overlap, [w] + ws)
  {
    hide WindowEnd, Follows;
    var all := [w] + ws;
    assert forall i :: 0 < i < |all| ==> all[i] == ws[i - 1];
  }

  /** The windows lead from the start to the end of the text. */
  lemma {:induction false} WindowsLinked(text: string, size: nat, overlap: nat, start: nat)
    requires size >= 1 && start < |text|
    ensures var ws := Windows(text, size, overlap, start); Linked(text, size, overlap, ws) && ws[0].0 == start
    decreases |text| - start
  {
    hide WindowEnd, Linked;
    var end := WindowEnd(text, size, start);
    if end < |text| {
      var next := NextStart(end, overlap, start);
      WindowsLinked(text, size, overlap, next);
      LinkedCons(text, size, overlap, (start, end), Windows(text, size, overlap, next));
    } else {
      LinkedOne(text, size, overlap, start);
      assert Windows(text, size, overlap, start) == [(start, end)];
    }
  }

  lemma {:induction false} LinkedOne(text: string, size: nat, overlap: nat, start: nat)
    requires size >= 1 && start < |text| <= WindowEnd(text, size, start)
    ensures Linked(text, size, overlap, [(start, WindowEnd(text, size, start))])
  {
    hide WindowEnd;
  }

  /** The chunks come in the order of their windows: one for each that is not blank, without the spaces around it. */
  lemma {:induction false} ChunksJoined(text: string, a: seq<(nat, nat)>, b: seq<(nat, nat)>)
    requires InText(text, a) && InText(text, b)
    ensures InText(text, a + b) && Chunks(text, a + b) == Chunks(text, a) + Chunks(text, b)
    decreases |a|
  {
    hide Trim;
    if a == [] {
      assert a + b == b;
    } else {
      ChunksJoined(text, a[1..], b);
      assert (a + b)[0] == a[0] && (a + b)[1..] == a[1..] + b;
      ConcatAssoc(Chunks(text, [a[0]]), Chunks(text, a[1..]), Chunks(text, b));
      ChunkOfOne(text, a[0].0, a[0].1);
    }
  }

  lemma {:induction false} ChunkOfOne(text: string, lo: nat, hi: nat)
    requires lo <= hi <= |text|
    ensures var chunk := Trim(text[lo..hi]); Chunks(text, [(lo, hi)]) == if chunk == "" then [] else [chunk]
  {
    hide Trim;
    assert [(lo, hi)][1..] == [];
  }
}
