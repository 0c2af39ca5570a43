/** What the snippets show: every hit whole, the same for any order of the words, and no more than the limit asks. */
module SnippetsProofs {
  import opened Snippets
  import Text

  /** `p`, with its context, lies within one window. */
  predicate Whole(ws: seq<Span>, n: nat, p: Span) {
    var lo, hi := if p.0 > 100 then p.0 - 100 else 0, if p.1 + 100 < n then p.1 + 100 else n;
    exists i :: 0 <= i < |ws| && ws[i].0 <= lo && hi <= ws[i].1
  }

  /** A window's end lies in no window. */
  lemma {:induction false} Gap(ws: seq<Span>, i: nat)
    requires Separated(ws) && i < |ws|
    ensures !In(ws, ws[i].1)
  {
    forall j | 0 <= j < |ws| ensures !(ws[j].0 <= ws[i].1 < ws[j].1) {
    }
  }

  /** A stretch of places that lie in windows lies in one. */
  lemma {:induction false} OneWindow(ws: seq<Span>, lo: int, hi: int, i: nat)
    requires Separated(ws) && i < |ws| && ws[i].0 <= lo < ws[i].1
    requires forall x :: lo <= x < hi ==> In(ws, x)
    ensures hi <= ws[i].1
  {
    Gap(ws, i);
  }

  /** Every hit is shown whole, with its context, in one window. */
  lemma {:induction false} HitsShownWhole(content: string, words: seq<string>, lower: char -> char, p: Span)
    requires HitAt(content, words, lower, p)
    ensures Whole(Windows(content, words, lower), |content|, p)
  {
    var ws := Windows(content, words, lower);
    var w := Around(p, |content|);
    WindowsExact(content, words, lower);
    HitsAreWords(content, words, lower, p);
    assert w.0 < w.1;
    forall x | w.0 <= x < w.1 ensures In(ws, x) {
      assert Near(Hits(content, words, lower), |content|, x);
    }
    assert In(ws, w.0);
    var i :| 0 <= i < |ws| && ws[i].0 <= w.0 < ws[i].1;
    OneWindow(ws, w.0, w.1, i);
  }

  // ---------------------------------------------------------------- one list of windows for one set of places

  lemma {:induction false} FirstPlace(a: seq<Span>, b: seq<Span>)
    requires Separated(a) && Separated(b) && a != [] && forall x :: In(a, x) ==> In(b, x)
    ensures b != [] && b[0].0 <= a[0].0
  {
    assert In(a, a[0].0);
    var j :| 0 <= j < |b| && b[j].0 <= a[0].0 < b[j].1;
    assert j > 0 ==> b[0].0 < b[0].1 < b[j].0;
  }

  lemma {:induction false} FirstEnd(a: seq<Span>, b: seq<Span>)
    requires Separated(a) && Separated(b) && a != [] && b != [] && a[0].0 == b[0].0
    requires forall x :: In(a, x) ==> In(b, x)
    ensures a[0].1 <= b[0].1
  {
    forall x | a[0].0 <= x < a[0].1 ensures In(b, x) {
      assert In(a, x);
    }
    OneWindow(b, a[0].0, a[0].1, 0);
  }

  lemma {:induction false} InRest(ws: seq<Span>, x: int)
    requires Separated(ws) && ws != []
    ensures Separated(ws[1..]) && (In(ws[1..], x) <==> In(ws, x) && !(ws[0].0 <= x < ws[0].1))
  {
    var rest := ws[1..];
    assert forall i :: 0 <= i < |rest| ==> rest[i] == ws[i + 1];
    if In(ws, x) && !(ws[0].0 <= x < ws[0].1) {
      var i :| 0 <= i < |ws| && ws[i].0 <= x < ws[i].1;
      assert rest[i - 1] == ws[i];
    }
    if In(rest, x) {
      var i :| 0 <= i < |rest| && rest[i].0 <= x < rest[i].1;
      assert ws[i + 1].0 <= x < ws[i + 1].1;
    }
  }

  lemma {:induction false} SameFirst(a: seq<Span>, b: seq<Span>)
    requires Separated(a) && Separated(b) && a != []
    requires forall x :: In(a, x) ==> In(b, x)
    requires forall x :: In(b, x) ==> In(a, x)
    ensures b != [] && a[0] == b[0]
  {
    FirstPlace(a, b);
    FirstPlace(b, a);
    FirstEnd(a, b);
    FirstEnd(b, a);
  }

  /** Separated windows over the same places are the same windows. */
  lemma {:induction false} WindowsUnique(a: seq<Span>, b: seq<Span>)
    requires Separated(a) && Separated(b)
    requires forall x :: In(a, x) ==> In(b, x)
    requires forall x :: In(b, x) ==> In(a, x)
    ensures a == b
    decreases |a|
  {
    if a == [] {
      if b != [] {
        FirstPlace(b, a);
      }
    } else {
      SameFirst(a, b);
      InRest(a, 0);
      InRest(b, 0);
      forall x ensures In(a[1..], x) <==> In(b[1..], x) {
        InRest(a, x);
        InRest(b, x);
      }
      hide In, Separated;
      WindowsUnique(a[1..], b[1..]);
      assert a == [a[0]] + a[1..] && b == [b[0]] + b[1..];
    }
  }

  lemma {:induction false} NearOneWay(content: string, words: seq<string>, other: seq<string>, lower: char -> char,
                                      x: int)
    requires forall w :: w in words ==> w in other
    requires Near(Hits(content, words, lower), |content|, x)
    ensures Near(Hits(content, other, lower), |content|, x)
  {
    var hits := Hits(content, words, lower);
    var p :| p in hits && Around(p, |content|).0 <= x < Around(p, |content|).1;
    HitsAreWords(content, words, lower, p);
    HitsAreWords(content, other, lower, p);
  }

  lemma {:induction false} SameWindows(content: string, words: seq<string>, other: seq<string>, lower: char -> char)
    requires forall w :: w in words ==> w in other
    requires forall w :: w in other ==> w in words
    ensures Windows(content, words, lower) == Windows(content, other, lower)
  {
    var a, b := Windows(content, words, lower), Windows(content, other, lower);
    WindowsExact(content, words, lower);
    WindowsExact(content, other, lower);
    forall x | In(a, x) ensures In(b, x) {
      NearOneWay(content, words, other, lower, x);
    }
    forall x | In(b, x) ensures In(a, x) {
      NearOneWay(content, other, words, lower, x);
    }
    WindowsUnique(a, b);
  }

  /** The order of the words, and how often each is given, does not matter. */
  lemma {:induction false} WordOrderFree(chunks: seq<Chunk>, words: seq<string>, other: seq<string>,
                                         lower: char -> char)
    requires forall w :: w in words ==> w in other
    requires forall w :: w in other ==> w in words
    ensures AllSnippets(chunks, words, lower) == AllSnippets(chunks, other, lower)
  {
    if chunks != [] {
      SameWindows(chunks[0].content, words, other, lower);
      WordOrderFree(chunks[1..], words, other, lower);
    }
  }

  // ---------------------------------------------------------------- the limit

  function TotalLength(s: seq<string>): nat {
    if s == [] then 0 else |s[0]| + TotalLength(s[1..])
  }

  /** With less than 2000 characters in all, every snippet is given; else those up to the first that reaches them, and a
      note that there are more. */
  lemma {:induction false} CapExact(all: seq<string>, total: nat) returns (k: nat)
    requires total < 2000
    ensures k <= |all| && total + TotalLength(all[..k]) < 2000
    ensures k == |all| ==> Capped(all, total) == all
    ensures k < |all| ==>
              && total + TotalLength(all[..k + 1]) >= 2000
              && Capped(all, total) == all[..k + 1] + ["... (他にもヒット箇所があります)"]
  {
    if all == [] {
      k := 0;
    } else if total + |all[0]| >= MAX_TOTAL {
      k := 0;
      assert all[..1] == [all[0]];
      assert TotalLength([all[0]]) == |all[0]| + TotalLength([]);
    } else {
      var j := CapExact(all[1..], total + |all[0]|);
      k := j + 1;
      assert all[..k] == [all[0]] + all[1..][..j];
      if k < |all| {
        assert all[..k + 1] == [all[0]] + all[1..][..j + 1];
      } else {
        assert all == [all[0]] + all[1..];
      }
    }
  }

  // ---------------------------------------------------------------- windows and snippets as they are written

  /** A place is shown exactly if it lies within 100 characters of a hit. */
  lemma {:induction false} ShownNear(content: string, words: seq<string>, lower: char -> char, x: nat)
    requires x < |content|
    ensures In(Windows(content, words, lower), x) <==>
            exists p :: p in Hits(content, words, lower) && p.0 - 100 <= x < p.1 + 100
  {
    WindowsExact(content, words, lower);
    var hits := Hits(content, words, lower);
    if In(Windows(content, words, lower), x) {
      var i :| 0 <= i < |hits| && Around(hits[i], |content|).0 <= x < Around(hits[i], |content|).1;
      assert hits[i] in hits;
    }
    if p :| p in hits && p.0 - 100 <= x < p.1 + 100 {
      var i :| 0 <= i < |hits| && hits[i] == p;
      assert Around(hits[i], |content|).0 <= x < Around(hits[i], |content|).1;
    }
  }

  /** The number written in decimal. */
  function NumberOf(s: string): nat
    requires Digits(s)
  {
    if s == "" then 0 else 10 * NumberOf(s[..|s| - 1]) + (s[|s| - 1] as int - '0' as int)
  }

  predicate Digits(s: string) {
    forall i :: 0 <= i < |s| ==> '0' <= s[i] <= '9'
  }

  lemma {:induction false} DigitReads(d: nat)
    requires d < 10
    ensures '0' <= Digit(d) <= '9' && Digit(d) as int - '0' as int == d
  {
  }

  lemma {:induction false} NumberMore(s: string, c: char)
    requires Digits(s) && '0' <= c <= '9'
    ensures Digits(s + [c]) && NumberOf(s + [c]) == 10 * NumberOf(s) + (c as int - '0' as int)
  {
    assert (s + [c])[..|s|] == s;
  }

  lemma {:induction false} DecimalReads(n: nat)
    ensures var s := Decimal(n);
            s != "" && Digits(s) && NumberOf(s) == n && (n > 0 ==> s[0] != '0') && (n == 0 ==> |s| == 1)
  {
    hide Digit, NumberOf;
    DigitReads(n % 10);
    if n >= 10 {
      DecimalReads(n / 10);
      NumberMore(Decimal(n / 10), Digit(n % 10));
    } else {
      NumberMore("", Digit(n));
      NoNumber();
      assert "" + [Digit(n)] == [Digit(n)];
    }
  }

  lemma {:induction false} NoNumber()
    ensures NumberOf("") == 0
  {
  }

  /** A snippet names its chunk, marks what is cut off on either side, and is one line; its text is the window's. */
  lemma {:induction false} SnippetReads(chunk: Chunk, w: Span, excerpt: string)
    requires w.0 <= w.1 <= |chunk.content| && |excerpt| == w.1 - w.0
    requires forall i :: 0 <= i < |excerpt| ==>
               excerpt[i] == if chunk.content[w.0 + i] == '\n' then ' ' else chunk.content[w.0 + i]
    ensures var dots, front := "...", "[チャンク" + Decimal(chunk.index) + "] ";
            && (w.0 == 0 && w.1 == |chunk.content| ==> Snippet(chunk, w) == front + excerpt)
            && (w.0 > 0 && w.1 == |chunk.content| ==> Snippet(chunk, w) == front + dots + excerpt)
            && (w.0 == 0 && w.1 < |chunk.content| ==> Snippet(chunk, w) == front + excerpt + dots)
            && (w.0 > 0 && w.1 < |chunk.content| ==> Snippet(chunk, w) == front + dots + excerpt + dots)
  {
    hide Decimal;
    assert OneLine(chunk.content[w.0..w.1]) == excerpt;
    var front := "[チャンク" + Decimal(chunk.index) + "] ";
    assert front + "" == front && front + excerpt + "" == front + excerpt;
  }

  /** The snippets of a chunk are those of its windows, in their order, and the chunks' come one after the other. */
  lemma {:induction false} SnippetsInOrder(chunk: Chunk, rest: seq<Chunk>, words: seq<string>, lower: char -> char)
    ensures var ws := Windows(chunk.content, words, lower);
            && Fit(ws, |chunk.content|) && |SnippetsOf(chunk, ws)| == |ws|
            && (forall i :: 0 <= i < |ws| ==> SnippetsOf(chunk, ws)[i] == Snippet(chunk, ws[i]))
            && AllSnippets([chunk] + rest, words, lower) == SnippetsOf(chunk, ws) + AllSnippets(rest, words, lower)
  {
    WindowsFit(chunk.content, words, lower);
    assert ([chunk] + rest)[1..] == rest;
  }

  /** A hit is a place where the characters of some word stand, whatever the case. */
  lemma {:induction false} HitsIgnoreCase(content: string, words: seq<string>, lower: char -> char, p: Span)
    ensures p in Hits(content, words, lower) <==>
            exists word :: word in words && StandsAt(content, word, lower, p)
  {
    HitsAreWords(content, words, lower, p);
    forall word | word in words
      ensures StandsAt(content, word, lower, p) <==>
              p.0 < |content| && p.1 == p.0 + |word|
                && Text.OccursAt(Lowered(content, lower), Lowered(word, lower), p.0)
    {
      StandsLowered(content, word, lower, p);
    }
  }

  predicate StandsAt(content: string, word: string, lower: char -> char, p: Span) {
    && p.0 < |content| && p.1 == p.0 + |word| <= |content|
    && forall k :: 0 <= k < |word| ==> lower(content[p.0 + k]) == lower(word[k])
  }

  lemma {:induction false} StandsLowered(content: string, word: string, lower: char -> char, p: Span)
    ensures StandsAt(content, word, lower, p) <==>
            p.0 < |content| && p.1 == p.0 + |word| && Text.OccursAt(Lowered(content, lower), Lowered(word, lower), p.0)
  {
    var c, w := Lowered(content, lower), Lowered(word, lower);
    if p.0 + |word| <= |content| {
      var part := c[p.0..p.0 + |word|];
      assert forall k :: 0 <= k < |word| ==> part[k] == lower(content[p.0 + k]) && w[k] == lower(word[k]);
      if StandsAt(content, word, lower, p) {
        assert part == w;
      }
    }
  }
}
