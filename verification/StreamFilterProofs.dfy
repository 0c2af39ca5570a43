/** What the stream filter keeps, drops and holds, for every text and every way of cutting it into tokens. */
module StreamFilterProofs {
  import opened StreamFilter
  import opened Text

  // ---------------------------------------------------------------- the shape of the tags

  predicate Tag(t: string) {
    t in OPEN_TAGS || t in CLOSE_TAGS
  }

  /** The only `<` of a tag is its first character, so two tags never overlap. */
  lemma {:induction false} TagsApart(s: string, t: string, i: int, u: string, j: int)
    requires Tag(t) && Tag(u) && OccursAt(s, t, i) && OccursAt(s, u, j) && i < j
    ensures i + |t| <= j
  {
    assert u[0] == '<' && s[j] == s[j..j + |u|][0];
    if j < i + |t| {
      BracketFirst(s, t, i, j);
    }
  }

  lemma {:induction false} BracketFirst(s: string, t: string, i: int, j: int)
    requires Tag(t) && OccursAt(s, t, i) && i < j < i + |t|
    ensures s[j] != '<'
  {
    assert s[j] == s[i..i + |t|][j - i] == t[j - i];
    assert t == OPEN_TAGS[0] || t == OPEN_TAGS[1] || t == CLOSE_TAGS[0] || t == CLOSE_TAGS[1];
  }

  lemma {:induction false} TagShape(t: string)
    requires Tag(t)
    ensures 11 <= |t| <= |OPEN_TAGS[1]| && t[0] == '<'
    ensures t in OPEN_TAGS ==> forall j :: 0 <= j <= |t| ==> PrefixOfOpen(t[..j])
  {
    assert t == OPEN_TAGS[0] || t == OPEN_TAGS[1] || t == CLOSE_TAGS[0] || t == CLOSE_TAGS[1];
  }

  /** The opening tag that stands at `i`. */
  function OpeningAt(s: string, i: int): (t: string)
    requires OpenAt(s, i)
    ensures t in OPEN_TAGS && Tag(t) && OccursAt(s, t, i)
  {
    if OccursAt(s, OPEN_TAGS[0], i) then OPEN_TAGS[0] else OPEN_TAGS[1]
  }

  lemma {:induction false} OpenIsNoClose(s: string, i: int, u: string)
    requires OpenAt(s, i) && u in CLOSE_TAGS
    ensures !OccursAt(s, u, i)
  {
    var t := OpeningAt(s, i);
    assert s[i..i + |t|][1] == s[i + 1] && s[i..i + |t|][10] == s[i + 10];
    assert s[i + 1] == t[1] && s[i + 10] == t[10];
    if i + |u| <= |s| {
      assert s[i..i + |u|][1] == s[i + 1] && s[i..i + |u|][10] == s[i + 10];
      assert u[1] != t[1] || u[10] != t[10];
    }
  }

  // ---------------------------------------------------------------- longer texts

  lemma {:induction false} OpenLater(a: string, s: string, i: nat)
    ensures OpenAt(a + s, |a| + i) <==> OpenAt(s, i)
  {
    forall t | t in OPEN_TAGS ensures OccursAt(a + s, t, |a| + i) <==> OccursAt(s, t, i) {
      if i + |t| <= |s| {
        OccursInside(a, s, "", t, i);
        assert a + s + "" == a + s;
      }
    }
  }

  lemma {:induction false} OpenSuffix(s: string, k: nat, i: nat)
    requires k <= |s|
    ensures OpenAt(s[k..], i) <==> OpenAt(s, k + i)
  {
    OpenLater(s[..k], s[k..], i);
    assert s[..k] + s[k..] == s;
  }

  /** More text never moves the first opening tag. */
  lemma {:induction false} FirstOpenStays(b: string, rest: string)
    requires FirstOpen(b) != -1
    ensures FirstOpen(b + rest) == FirstOpen(b)
  {
    var p := FirstOpen(b);
    var u := OpeningAt(b, p);
    OccursBefore(b, rest, u, p);
    assert OpenAt(b + rest, p);
    forall i | 0 <= i < p ensures !OpenAt(b + rest, i) {
      forall t | t in OPEN_TAGS ensures !OccursAt(b + rest, t, i) {
        OccursBefore(b, rest, t, i);
        if OccursAt(b + rest, t, i) {
          TagsApart(b + rest, t, i, u, p);
        }
      }
    }
  }

  lemma {:induction false} FindStays(b: string, rest: string, pat: string, start: nat)
    requires Find(b, pat, start) != -1
    ensures Find(b + rest, pat, start) == Find(b, pat, start)
  {
    OccursBefore(b, rest, pat, Find(b, pat, start));
    OccursBefore(b, rest, pat, Find(b + rest, pat, start));
  }

  lemma {:induction false} FindSuffix(s: string, k: nat, pat: string, start: nat)
    requires k <= |s|
    ensures Find(s[k..], pat, start) == if Find(s, pat, k + start) == -1 then -1 else Find(s, pat, k + start) - k
  {
    forall i | 0 <= i ensures OccursAt(s[k..], pat, i) <==> OccursAt(s, pat, k + i) {
      if i + |pat| <= |s[k..]| {
        OccursInside(s[..k], s[k..], "", pat, i);
        assert s[..k] + s[k..] + "" == s;
      }
    }
    var f, g := Find(s[k..], pat, start), Find(s, pat, k + start);
    if f != -1 {
      assert OccursAt(s, pat, k + f);
    }
    if g != -1 {
      assert OccursAt(s[k..], pat, g - k);
    }
  }

  /** With more text a close stays where it is, or the preferred style turns up further on. */
  lemma {:induction false} CloseMoves(b: string, rest: string, p: nat)
    requires CloseEnd(b, p) != -1
    ensures CloseEnd(b, p) <= CloseEnd(b + rest, p)
    ensures CloseEnd(b, p) < CloseEnd(b + rest, p) ==>
              Find(b, CLOSE_TAGS[0], p) == -1 && Find(b + rest, CLOSE_TAGS[0], p) != -1
                && Find(b, CLOSE_TAGS[1], p) != -1
  {
    if Find(b, CLOSE_TAGS[0], p) != -1 {
      FindStays(b, rest, CLOSE_TAGS[0], p);
    } else {
      FindStays(b, rest, CLOSE_TAGS[1], p);
      var f := Find(b + rest, CLOSE_TAGS[0], p);
      OccursBefore(b, rest, CLOSE_TAGS[0], f);
    }
  }

  // ---------------------------------------------------------------- the strip

  lemma {:induction false} FirstOpenSuffix(s: string, k: nat)
    requires k <= |s| && forall i :: 0 <= i < k ==> !OpenAt(s, i)
    ensures FirstOpen(s[k..]) == if FirstOpen(s) == -1 then -1 else FirstOpen(s) - k
  {
    var p, q := FirstOpen(s), FirstOpen(s[k..]);
    if p != -1 {
      OpenSuffix(s, k, p - k);
    }
    if q != -1 {
      OpenSuffix(s, k, q);
    }
  }

  lemma {:induction false} CloseEndSuffix(s: string, k: nat, start: nat)
    requires k <= |s|
    ensures CloseEnd(s[k..], start) == if CloseEnd(s, k + start) == -1 then -1 else CloseEnd(s, k + start) - k
  {
    FindSuffix(s, k, CLOSE_TAGS[0], start);
    FindSuffix(s, k, CLOSE_TAGS[1], start);
  }

  /** A stretch without opening tags is kept as it is. */
  lemma {:induction false} StripSkips(s: string, k: nat)
    requires k <= |s| && forall i :: 0 <= i < k ==> !OpenAt(s, i)
    ensures Strip(s) == s[..k] + Strip(s[k..])
  {
    hide OpenAt, OccursAt, FirstOpen, CloseEnd, StripAfter, Strip, OPEN_TAGS, CLOSE_TAGS;
    FirstOpenSuffix(s, k);
    StripUnfold(s);
    StripUnfold(s[k..]);
    var p, q := FirstOpen(s), FirstOpen(s[k..]);
    if p == -1 {
      SplitAt(s, k);
      assert Strip(s) == s[..k] + Strip(s[k..]);
    } else {
      StripAfterSuffix(s, k, q);
      SplitPrefix(s, k, p, StripAfter(s, p));
      assert Strip(s) == s[..k] + Strip(s[k..]);
    }
  }

  lemma {:induction false} StripUnfold(s: string)
    ensures Strip(s) == var p := FirstOpen(s); if p == -1 then s else s[..p] + StripAfter(s, p)
  {
  }

  lemma {:induction false} StripAfterSuffix(s: string, k: nat, q: nat)
    requires k <= |s|
    ensures StripAfter(s[k..], q) == StripAfter(s, k + q)
  {
    hide CloseEnd, Find, OccursAt, FirstOpen, Strip, OPEN_TAGS, CLOSE_TAGS;
    CloseEndSuffix(s, k, q);
    var c := CloseEnd(s, k + q);
    if c != -1 {
      assert s[k..][c - k..] == s[c..];
    }
  }

  /** How much is kept of a dropped region ending at `c` when it is read from `k` on, inside it. */
  function KeptFrom(s: string, k: nat, c: nat): (m: nat)
    requires k <= c <= |s|
    ensures m <= c - k
  {
    var q := FirstOpen(s[k..]);
    if q == -1 || q >= c - k then c - k else q
  }

  /** Reading from inside a dropped region keeps the part before the next opening tag, then falls into step again. */
  lemma {:induction false} StripInside(s: string, p: nat, k: nat)
    requires FirstOpen(s) == p && p < k <= CloseEnd(s, p)
    ensures var c := CloseEnd(s, p); Strip(s[k..]) == s[k..k + KeptFrom(s, k, c)] + Strip(s[c..])
  {
    hide OpenAt, FirstOpen, CloseEnd, StripAfter, Strip;
    var c := CloseEnd(s, p);
    var q, m := FirstOpen(s[k..]), KeptFrom(s, k, c);
    assert s[k..][..m] == s[k..k + m];
    StripSkips(s[k..], m);
    if m == c - k {
      assert s[k..][m..] == s[c..];
    } else {
      OpenSuffix(s, k, q);
      CloseFromInside(s, p, k + q);
      FirstOpenSuffix(s[k..], q);
      StripAt(s[k..][q..]);
      StripAfterSuffix(s[k..], q, 0);
      StripAfterSuffix(s, k, q);
      assert StripAfter(s, k + q) == StripAfter(s, p) == Strip(s[c..]) by {
        AfterClosed(s, p);
        AfterClosed(s, k + q);
      }
    }
  }

  lemma {:induction false} StripAt(s: string)
    requires FirstOpen(s) == 0
    ensures Strip(s) == StripAfter(s, 0)
  {
    assert s[..0] + StripAfter(s, 0) == StripAfter(s, 0);
  }

  lemma {:induction false} AfterClosed(s: string, p: nat)
    requires CloseEnd(s, p) != -1
    ensures StripAfter(s, p) == Strip(s[CloseEnd(s, p)..])
  {
  }

  /** A second opening tag inside a region closes where the region does. */
  lemma {:induction false} CloseFromInside(s: string, p: nat, n: nat)
    requires p <= n < CloseEnd(s, p) && OpenAt(s, n)
    ensures CloseEnd(s, n) == CloseEnd(s, p)
  {
    var style := if Find(s, CLOSE_TAGS[0], p) != -1 then 0 else 1;
    var u, t := CLOSE_TAGS[style], OpeningAt(s, n);
    var i := Find(s, u, p);
    OpenIsNoClose(s, n, u);
    assert OccursAt(s, u, i) && i + |u| == CloseEnd(s, p);
    if i < n {
      TagsApart(s, u, i, t, n);
    }
    assert n <= i;
    if style == 0 {
      FindLater(s, CLOSE_TAGS[0], p, n);
    } else {
      FindLater(s, CLOSE_TAGS[0], p, n);
      FindLater(s, CLOSE_TAGS[1], p, n);
    }
  }

  lemma {:induction false} FindLater(s: string, pat: string, p: nat, n: nat)
    requires p <= n && (Find(s, pat, p) == -1 || n <= Find(s, pat, p))
    ensures Find(s, pat, n) == Find(s, pat, p)
  {
    if Find(s, pat, p) != -1 {
      assert OccursAt(s, pat, Find(s, pat, p));
    }
  }

  /** When only one closing style occurs, a region ends at the earliest close. */
  lemma {:induction false} OneStyleEarliest(s: string, p: nat, t: string, i: nat)
    requires OneStyle(s) && t in CLOSE_TAGS && OccursAt(s, t, i) && p <= i
    ensures p < CloseEnd(s, p) <= i + |t|
  {
    assert t == CLOSE_TAGS[0] || t == CLOSE_TAGS[1];
  }

  // ---------------------------------------------------------------- one token

  /** A cut just after the `<` of an opening tag: one character is too few to be held. */
  predicate CutsBracket(before: string, after: string) {
    before != "" && before[|before| - 1] == '<' && OpenAt("<" + after, 0)
  }

  /** The cut after buffer `b` does no harm: it does not part an opening tag after its `<`, and no region closes on the
      second style while the first style is still to come - unless another opening tag follows at once. */
  predicate CutOk(b: string, rest: string)
    decreases |b|
  {
    var p := FirstOpen(b);
    if p == -1 then !CutsBracket(b, rest) else
    var c := CloseEnd(b, p);
    c == -1 || ((CloseEnd(b + rest, p) == c || OpenAt(b + rest, c)) && CutOk(b[c..], rest))
  }

  function Out(ps: seq<Piece>): string {
    Concat(Emitted(ps))
  }

  lemma {:induction false} OutAppend(a: seq<Piece>, b: seq<Piece>)
    ensures Out(a + b) == Out(a) + Out(b)
  {
    EmittedAppend(a, b);
    ConcatAppend(Emitted(a), Emitted(b));
  }

  lemma {:induction false} OutDrain(b: string, p: nat, c: nat)
    requires FirstOpen(b) == p && CloseEnd(b, p) == c
    ensures Out(Drain(b).0) == b[..p] + Out(Drain(b[c..]).0) && Drain(b).1 == Drain(b[c..]).1
  {
    DrainAfter(b, p, c);
    ConcatAppend(Emitted(EmitOf(b[..p])), Emitted(Drain(b[c..]).0));
    OutEmit(b[..p]);
  }

  lemma {:induction false} OutEmit(s: string)
    ensures Out(EmitOf(s)) == s
  {
    if s != "" {
      assert Emitted([Emit(s)]) == [s];
      assert Concat([s]) == s;
    }
  }

  /** What one token gives out never loses a kept character, and is exact when the cut does no harm. */
  ghost predicate TokenFaithful(b: string, rest: string) {
    var out, whole, left := Out(Drain(b).0), Strip(b + rest), Strip(Drain(b).1 + rest);
    if CutOk(b, rest) then whole == out + left else |whole| < |out| + |left|
  }

  lemma {:induction false} DrainFaithful(b: string, rest: string)
    ensures TokenFaithful(b, rest)
    decreases |b|
  {
    var p := FirstOpen(b);
    if p == -1 {
      DrainPlain(b, rest);
    } else {
      FirstOpenStays(b, rest);
      var c := CloseEnd(b, p);
      if c == -1 {
        DrainUnclosed(b, rest);
      } else {
        DrainFaithful(b[c..], rest);
        DrainRegion(b, rest);
      }
    }
  }

  lemma {:induction false} DrainPlain(b: string, rest: string)
    requires FirstOpen(b) == -1
    ensures TokenFaithful(b, rest)
  {
    hide FirstOpen, Hold, OpenAt, CutsBracket, Out, Strip, OPEN_TAGS, CLOSE_TAGS;
    var s, h := b + rest, Hold(b);
    var k := |b| - h;
    OutEmit(b[..k]);
    assert s[..k] == b[..k] && s[k..] == b[k..] + rest;
    if CutsBracket(b, rest) {
      DrainBracket(b, rest);
    } else {
      forall i | 0 <= i < k ensures !OpenAt(s, i) {
        if OpenAt(s, i) {
          StraddlingOpen(b, rest, i);
        }
      }
      StripSkips(s, k);
    }
  }

  /** An opening tag that a cut parts is held, unless only its `<` came. */
  lemma {:induction false} StraddlingOpen(b: string, rest: string, i: nat)
    requires FirstOpen(b) == -1 && OpenAt(b + rest, i) && i < |b|
    ensures i == |b| - 1 ==> CutsBracket(b, rest)
    ensures i < |b| - 1 ==> |b| - i <= Hold(b)
  {
    var s := b + rest;
    var t := OpeningAt(s, i);
    TagShape(t);
    OpenShorter(b, rest, i, t);
    if i == |b| - 1 {
      assert t[0] == s[i..i + |t|][0] == s[i] == b[i];
      assert s == b[..i] + ("<" + rest);
      OpenLater(b[..i], "<" + rest, 0);
      assert CutsBracket(b, rest);
    } else {
      var j := |b| - i;
      assert b[i..] == s[i..|b|] == s[i..i + |t|][..j];
      assert Held(b, j);
    }
  }

  /** Without a whole opening tag in `b`, one that starts in `b` ends beyond it. */
  lemma {:induction false} OpenShorter(b: string, rest: string, i: nat, t: string)
    requires FirstOpen(b) == -1 && t in OPEN_TAGS && OccursAt(b + rest, t, i) && i < |b|
    ensures |b| < i + |t|
  {
    OccursBefore(b, rest, t, i);
    assert t == OPEN_TAGS[0] || t == OPEN_TAGS[1];
    assert !OpenAt(b, i);
  }

  lemma {:induction false} DrainBracket(b: string, rest: string)
    requires FirstOpen(b) == -1 && CutsBracket(b, rest)
    ensures Drain(b).1 == "" && Out(Drain(b).0) == b
    ensures |Strip(b + rest)| < |b| + |Strip(rest)|
  {
    NoHoldAfterBracket(b);
    assert b[..|b|] == b && b[|b|..] == "";
    OutEmit(b);
    assert Drain(b) == (EmitOf(b), "");
    var s, p := b + rest, |b| - 1;
    BracketOpens(b, rest);
    StripUnfold(s);
    if CloseEnd(s, p) == -1 {
      StripAfterOpen(s, p);
    } else {
      StripInside(s, p, p + 1);
      AfterClosed(s, p);
      assert s[p + 1..] == rest;
    }
  }

  lemma {:induction false} StripAfterOpen(s: string, p: nat)
    requires CloseEnd(s, p) == -1
    ensures StripAfter(s, p) == ""
  {
  }

  lemma {:induction false} NoHoldAfterBracket(b: string)
    requires b != "" && b[|b| - 1] == '<'
    ensures Hold(b) == 0
  {
    NotHeld(b, Hold(b));
  }

  lemma {:induction false} NotHeld(b: string, i: nat)
    requires b != "" && b[|b| - 1] == '<'
    ensures !Held(b, i)
  {
    assert forall t, j :: t in OPEN_TAGS && 0 < j < |t| ==> t[j] != '<';
    if MIN_HOLD <= i <= |b| {
      assert b[|b| - i..][i - 1] == b[|b| - 1];
    }
  }

  lemma {:induction false} BracketOpens(b: string, rest: string)
    requires FirstOpen(b) == -1 && CutsBracket(b, rest)
    ensures FirstOpen(b + rest) == |b| - 1
  {
    var s, p := b + rest, |b| - 1;
    assert s == b[..p] + ("<" + rest);
    OpenLater(b[..p], "<" + rest, 0);
    forall i | 0 <= i < p ensures !OpenAt(s, i) {
      if OpenAt(s, i) {
        var t := OpeningAt(s, i);
        OpenShorter(b, rest, i, t);
        BracketFirst(s, t, i, p);
      }
    }
  }

  lemma {:induction false} DrainUnclosed(b: string, rest: string)
    requires FirstOpen(b) != -1 && CloseEnd(b, FirstOpen(b)) == -1 && FirstOpen(b + rest) == FirstOpen(b)
    ensures TokenFaithful(b, rest)
  {
    hide OpenAt, FirstOpen, CloseEnd, StripAfter, Strip, Out, OPEN_TAGS, CLOSE_TAGS;
    var p, s := FirstOpen(b), b + rest;
    OutEmit(b[..p]);
    StripSkips(s, p);
    assert s[..p] == b[..p] && s[p..] == b[p..] + rest;
  }

  lemma {:induction false} DrainRegion(b: string, rest: string)
    requires FirstOpen(b) != -1 && CloseEnd(b, FirstOpen(b)) != -1 && FirstOpen(b + rest) == FirstOpen(b)
    requires TokenFaithful(b[CloseEnd(b, FirstOpen(b))..], rest)
    ensures TokenFaithful(b, rest)
  {
    hide FirstOpen, CloseEnd, OpenAt, Drain, Strip, StripAfter, Out, OPEN_TAGS, CLOSE_TAGS, Find;
    var p, s := FirstOpen(b), b + rest;
    var c := CloseEnd(b, p);
    OutDrain(b, p, c);
    CloseMoves(b, rest, p);
    var d := CloseEnd(s, p);
    assert s[..p] == b[..p] && s[c..] == b[c..] + rest;
    StripInside(s, p, c);
    OpenSuffix(s, c, 0);
    StripClosed(s, p);
    var out, left := Out(Drain(b[c..]).0), Strip(Drain(b).1 + rest);
    RegionTally(s[..p], s[c..c + KeptFrom(s, c, d)], Strip(s[d..]), out, left);
    assert KeptFrom(s, c, d) == 0 <==> d == c || OpenAt(s, c);
    assert CutOk(b, rest) <==> (d == c || OpenAt(s, c)) && CutOk(b[c..], rest);
    assert Out(Drain(b).0) == s[..p] + out;
  }

  lemma {:induction false} StripClosed(s: string, p: nat)
    requires FirstOpen(s) == p && CloseEnd(s, p) != -1
    ensures Strip(s) == s[..p] + Strip(s[CloseEnd(s, p)..])
  {
    StripUnfold(s);
    AfterClosed(s, p);
  }

  lemma {:induction false} RegionTally(pre: string, mid: string, after: string, out: string, left: string)
    ensures |mid + after| < |out| + |left| ==> |pre + after| < |pre + out| + |left|
    ensures mid + after == out + left ==>
              if mid == "" then pre + after == (pre + out) + left else |pre + after| < |pre + out| + |left|
  {
    ConcatAssoc(pre, out, left);
    assert mid == "" ==> mid + after == after;
    assert |mid + after| == |mid| + |after| && |out + left| == |out| + |left|;
  }

  // ---------------------------------------------------------------- the whole stream

  /** What can be in the buffer between tokens: the beginning of an opening tag, or an unclosed region. */
  predicate Residual(b: string) {
    || (FirstOpen(b) == -1 && PrefixOfOpen(b) && |b| != 1)
    || (FirstOpen(b) == 0 && CloseEnd(b, 0) == -1)
  }

  lemma {:induction false} DrainResidual(b: string)
    ensures Residual(Drain(b).1)
    decreases |b|
  {
    var p := FirstOpen(b);
    if p == -1 {
      var k := |b| - Hold(b);
      forall i: nat ensures !OpenAt(b[k..], i) {
        OpenSuffix(b, k, i);
      }
    } else {
      var c := CloseEnd(b, p);
      if c == -1 {
        OpenSuffix(b, p, 0);
        FindSuffix(b, p, CLOSE_TAGS[0], 0);
        FindSuffix(b, p, CLOSE_TAGS[1], 0);
      } else {
        DrainResidual(b[c..]);
      }
    }
  }

  /** The last clean-up emits a held beginning unchanged and nothing of an unclosed region. */
  lemma {:induction false} FlushResidual(b: string)
    requires Residual(b)
    ensures Flush(b) == Strip(b) == if FirstOpen(b) == -1 then b else ""
  {
    StripUnfold(b);
    if FirstOpen(b) == -1 {
      forall i, u | 0 <= i < |b| && u in ANY_TAGS ensures !OccursAt(b, u, i) {
        HeldHasNoTag(b, u, i);
      }
      assert FirstTag(b) == |b| && b[..|b|] == b;
      HeldHasNoSpace(b);
      TrimTight(b);
    } else {
      UnclosedHasTag(b);
      TrimTight("");
      assert b[..0] == "";
      StripAfterOpen(b, 0);
    }
  }

  lemma {:induction false} UnclosedHasTag(b: string)
    requires FirstOpen(b) == 0
    ensures FirstTag(b) == 0
  {
    var t := OpeningAt(b, 0);
    assert t in ANY_TAGS;
  }

  lemma {:induction false} HeldHasNoSpace(b: string)
    requires PrefixOfOpen(b)
    ensures forall i :: 0 <= i < |b| ==> !IsSpace(b[i])
  {
    assert forall t, i :: t in OPEN_TAGS && 0 <= i < |t| ==> !IsSpace(t[i]);
  }

  lemma {:induction false} HeldHasNoTag(b: string, u: string, i: nat)
    requires FirstOpen(b) == -1 && PrefixOfOpen(b) && u in ANY_TAGS
    ensures !OccursAt(b, u, i)
  {
    assert |u| >= 11 && b[0..|b|] == b && !OpenAt(b, 0);
  }

  /** Every cut of the stream does no harm. */
  predicate CutsOk(b: string, tokens: seq<string>)
    decreases |tokens|
  {
    tokens == [] ||
    (CutOk(b + tokens[0], Concat(tokens[1..])) && CutsOk(Drain(b + tokens[0]).1, tokens[1..]))
  }

  lemma {:induction false} RunFaithful(b: string, tokens: seq<string>)
    requires Residual(b)
    ensures |Strip(b + Concat(tokens))| <= |Out(Run(b, tokens))|
    ensures CutsOk(b, tokens) <==> Out(Run(b, tokens)) == Strip(b + Concat(tokens))
    decreases |tokens|
  {
    if tokens == [] {
      FlushResidual(b);
      assert b + Concat(tokens) == b;
      RunEnd(b);
    } else {
      var c, rest := b + tokens[0], Concat(tokens[1..]);
      var r := Drain(c);
      DrainResidual(c);
      RunFaithful(r.1, tokens[1..]);
      DrainFaithful(c, rest);
      OutAppend(r.0, Run(r.1, tokens[1..]));
      ConcatAssoc(b, tokens[0], rest);
      var mine, later, left := Out(r.0), Out(Run(r.1, tokens[1..])), Strip(r.1 + rest);
      Cancel(mine, later, left);
      assert Out(Run(b, tokens)) == mine + later && Strip(b + Concat(tokens)) == Strip(c + rest);
      if CutOk(c, rest) {
        assert Strip(c + rest) == mine + left;
        assert mine + later == Strip(c + rest) <==> CutsOk(r.1, tokens[1..]);
      } else {
        assert |Strip(c + rest)| < |mine + later|;
      }
      assert CutsOk(b, tokens) <==> Out(Run(b, tokens)) == Strip(b + Concat(tokens));
    }
  }

  lemma {:induction false} RunEnd(b: string)
    ensures Out(Run(b, [])) == Flush(b)
  {
    OutEmit(Flush(b));
    assert Emitted([Drop(b)]) == [] && Out([Drop(b)]) == "" by {
      OutDrop(b);
    }
    assert Out([]) == "" by {
      OutEmit("");
    }
  }

  lemma {:induction false} OutDrop(b: string)
    ensures Emitted([Drop(b)]) == [] && Out([Drop(b)]) == ""
  {
  }

  /** The filtered stream is never shorter than the stripped text, and it is the stripped text exactly when every cut
      does no harm. */
  lemma {:induction false} FilterExact(tokens: seq<string>)
    ensures |Strip(Concat(tokens))| <= |Out(Run("", tokens))|
    ensures Out(Run("", tokens)) == Strip(Concat(tokens)) <==> CutsOk("", tokens)
  {
    RunFaithful("", tokens);
    assert "" + Concat(tokens) == Concat(tokens);
  }

  // ---------------------------------------------------------------- cuts that do no harm

  predicate OneStyle(s: string) {
    (forall i :: 0 <= i < |s| ==> !OccursAt(s, CLOSE_TAGS[0], i))
      || (forall i :: 0 <= i < |s| ==> !OccursAt(s, CLOSE_TAGS[1], i))
  }

  lemma {:induction false} OneStyleSuffix(s: string, k: nat)
    requires k <= |s| && OneStyle(s)
    ensures OneStyle(s[k..])
  {
    forall t, i: nat | t in CLOSE_TAGS && OccursAt(s[k..], t, i) ensures OccursAt(s, t, k + i) {
      OccursInside(s[..k], s[k..], "", t, i);
      assert s[..k] + s[k..] + "" == s;
    }
  }

  lemma {:induction false} CutOkWhen(b: string, rest: string)
    requires OneStyle(b + rest) && !CutsBracket(b, rest)
    ensures CutOk(b, rest)
    decreases |b|
  {
    hide OneStyle, CutsBracket, FirstOpen, CloseEnd, OpenAt, OPEN_TAGS, CLOSE_TAGS;
    var p := FirstOpen(b);
    if p != -1 && CloseEnd(b, p) != -1 {
      var c := CloseEnd(b, p);
      OneStyleStays(b, rest, p);
      SuffixBefore(b, c, rest);
      OneStyleSuffix(b + rest, c);
      CutsBracketSuffix(b, rest, c);
      CutOkWhen(b[c..], rest);
    }
  }

  /** With one closing style more text moves no close. */
  lemma {:induction false} OneStyleStays(b: string, rest: string, p: nat)
    requires OneStyle(b + rest) && CloseEnd(b, p) != -1
    ensures CloseEnd(b + rest, p) == CloseEnd(b, p)
  {
    hide OccursAt, Find;
    CloseMoves(b, rest, p);
    if CloseEnd(b, p) < CloseEnd(b + rest, p) {
      FindStays(b, rest, CLOSE_TAGS[1], p);
      NotBoth(b + rest, Find(b + rest, CLOSE_TAGS[0], p), Find(b + rest, CLOSE_TAGS[1], p));
    }
  }

  lemma {:induction false} NotBoth(s: string, i: int, j: int)
    requires OneStyle(s)
    ensures !(OccursAt(s, CLOSE_TAGS[0], i) && OccursAt(s, CLOSE_TAGS[1], j))
  {
  }

  lemma {:induction false} CutsOkWhen(b: string, tokens: seq<string>)
    requires OneStyle(b + Concat(tokens))
    requires forall i :: 1 <= i <= |tokens| ==> !CutsBracket(b + Concat(tokens[..i]), Concat(tokens[i..]))
    ensures CutsOk(b, tokens)
    decreases |tokens|
  {
    hide OneStyle, CutsBracket, CutOk, Drain;
    if tokens != [] {
      var c, rest := b + tokens[0], Concat(tokens[1..]);
      ConcatAssoc(b, tokens[0], rest);
      assert tokens[..1] == [tokens[0]];
      ConcatOne(tokens[0]);
      CutOkWhen(c, rest);
      var r := Drain(c).1;
      DrainSuffix(c);
      SuffixBefore(c, |c| - |r|, rest);
      OneStyleSuffix(c + rest, |c| - |r|);
      forall i | 1 <= i <= |tokens[1..]| ensures !CutsBracket(r + Concat(tokens[1..][..i]), Concat(tokens[1..][i..])) {
        CutLater(b, tokens, i);
        CutsBracketSuffix(c + Concat(tokens[1..][..i]), Concat(tokens[1..][i..]), |c| - |r|);
        SuffixBefore(c, |c| - |r|, Concat(tokens[1..][..i]));
      }
      CutsOkWhen(r, tokens[1..]);
    }
  }

  /** The cut after one token and `i` more, as the text has it on either side. */
  lemma {:induction false} CutLater(b: string, tokens: seq<string>, i: nat)
    requires i < |tokens|
    ensures b + Concat(tokens[..i + 1]) == (b + tokens[0]) + Concat(tokens[1..][..i])
    ensures tokens[1..][i..] == tokens[i + 1..]
  {
    assert tokens[..i + 1][0] == tokens[0] && tokens[..i + 1][1..] == tokens[1..][..i];
    ConcatAssoc(b, tokens[0], Concat(tokens[1..][..i]));
  }

  lemma {:induction false} CutsBracketSuffix(before: string, after: string, k: nat)
    requires k <= |before| && !CutsBracket(before, after)
    ensures !CutsBracket(before[k..], after)
  {
  }

  lemma {:induction false} DrainSuffix(b: string)
    ensures |Drain(b).1| <= |b| && Drain(b).1 == b[|b| - |Drain(b).1|..]
    decreases |b|
  {
    var p := FirstOpen(b);
    if p != -1 && CloseEnd(b, p) != -1 {
      DrainSuffix(b[CloseEnd(b, p)..]);
    }
  }

  /** With one closing style and no cut just after the `<` of an opening tag, the stream is the stripped text. */
  lemma {:induction false} FilterIsStrip(tokens: seq<string>)
    requires OneStyle(Concat(tokens))
    requires forall i :: 1 <= i <= |tokens| ==> !CutsBracket(Concat(tokens[..i]), Concat(tokens[i..]))
    ensures Out(Run("", tokens)) == Strip(Concat(tokens))
  {
    assert "" + Concat(tokens) == Concat(tokens);
    forall i | 1 <= i <= |tokens| ensures !CutsBracket("" + Concat(tokens[..i]), Concat(tokens[i..])) {
      assert "" + Concat(tokens[..i]) == Concat(tokens[..i]);
    }
    CutsOkWhen("", tokens);
    FilterExact(tokens);
  }

  // ---------------------------------------------------------------- nothing is lost or leaked

  /** An emitted piece is not empty and holds no opening tag; a dropped piece is one region, closed at its end -
      or, at the end of the stream only, not closed at all. */
  predicate PieceOk(p: Piece, last: bool) {
    match p
    case Emit(t) => t != "" && !HasOpen(t)
    case Drop(t) => FirstOpen(t) == 0 && (CloseEnd(t, 0) == |t| || (last && CloseEnd(t, 0) == -1))
  }

  predicate PiecesOk(ps: seq<Piece>, last: bool) {
    forall i :: 0 <= i < |ps| ==> PieceOk(ps[i], last)
  }

  lemma {:induction false} NoOpenBefore(b: string, k: nat)
    requires k <= |b| && forall i :: 0 <= i < k ==> !OpenAt(b, i)
    ensures PiecesOk(EmitOf(b[..k]), false)
    ensures Concat(Texts(EmitOf(b[..k]))) == b[..k]
  {
    SplitAt(b, k);
    forall i | 0 <= i < k ensures !OpenAt(b[..k], i) {
      OccursBefore(b[..k], b[k..], OPEN_TAGS[0], i);
      OccursBefore(b[..k], b[k..], OPEN_TAGS[1], i);
      assert !OpenAt(b, i);
    }
    ConcatOne(b[..k]);
    assert b[..k] != "" ==> Texts([Emit(b[..k])]) == [b[..k]];
  }

  lemma {:induction false} RegionOk(b: string, p: nat, c: nat)
    requires FirstOpen(b) == p && CloseEnd(b, p) == c
    ensures PieceOk(Drop(b[p..c]), false)
  {
    hide FirstOpen, CloseEnd, OpenAt, OccursAt, OPEN_TAGS, CLOSE_TAGS;
    var s, r := b[p..], b[p..c];
    OpenSuffix(b, p, 0);
    CloseEndSuffix(b, p, 0);
    assert r == s[..c - p];
    CloseEndCut(s, c - p);
    OpenCut(s, c - p);
  }

  /** A region cut off at its close still closes there. */
  lemma {:induction false} CloseEndCut(s: string, c: nat)
    requires CloseEnd(s, 0) == c
    ensures CloseEnd(s[..c], 0) == c
  {
    var style := if Find(s, CLOSE_TAGS[0], 0) != -1 then 0 else 1;
    var u := CLOSE_TAGS[style];
    forall t, i: nat | t in CLOSE_TAGS && i + |t| <= c ensures OccursAt(s[..c], t, i) <==> OccursAt(s, t, i) {
      assert s[..c][i..i + |t|] == s[i..i + |t|];
    }
    assert OccursAt(s[..c], u, c - |u|);
    assert CLOSE_TAGS[0] in CLOSE_TAGS && CLOSE_TAGS[1] in CLOSE_TAGS;
  }

  lemma {:induction false} OpenCut(s: string, c: nat)
    requires OpenAt(s, 0) && CloseEnd(s, 0) == c
    ensures FirstOpen(s[..c]) == 0
  {
    var style := if Find(s, CLOSE_TAGS[0], 0) != -1 then 0 else 1;
    var u := CLOSE_TAGS[style];
    var f, t := Find(s, u, 0), OpeningAt(s, 0);
    OpenIsNoClose(s, 0, u);
    TagsApart(s, t, 0, u, f);
    assert s[..c][0..|t|] == s[0..|t|];
    assert OpenAt(s[..c], 0);
  }

  lemma {:induction false} DrainConserves(b: string)
    ensures Concat(Texts(Drain(b).0)) + Drain(b).1 == b
    ensures PiecesOk(Drain(b).0, false)
    decreases |b|
  {
    hide FirstOpen, CloseEnd, Hold, OpenAt, EmitOf, Concat, Texts, PieceOk, OPEN_TAGS, CLOSE_TAGS;
    var p := FirstOpen(b);
    if p == -1 {
      NoOpenBefore(b, |b| - Hold(b));
    } else {
      NoOpenBefore(b, p);
      var c := CloseEnd(b, p);
      if c != -1 {
        DrainConserves(b[c..]);
        RegionConserves(b, p, c);
      }
    }
  }

  lemma {:induction false} RegionConserves(b: string, p: nat, c: nat)
    requires FirstOpen(b) == p && CloseEnd(b, p) == c
    requires PiecesOk(EmitOf(b[..p]), false) && Concat(Texts(EmitOf(b[..p]))) == b[..p]
    requires var r := Drain(b[c..]); PiecesOk(r.0, false) && Concat(Texts(r.0)) + r.1 == b[c..]
    ensures Concat(Texts(Drain(b).0)) + Drain(b).1 == b
    ensures PiecesOk(Drain(b).0, false)
  {
    hide FirstOpen, CloseEnd, OpenAt, EmitOf, Drain, Concat, Texts, PieceOk, OPEN_TAGS, CLOSE_TAGS;
    var e, d, r := EmitOf(b[..p]), Drop(b[p..c]), Drain(b[c..]);
    DrainCloses(b, p, c);
    RegionOk(b, p, c);
    TextsThree(e, d, r.0);
    SplitThree(b, p, c, Concat(Texts(r.0)), r.1);
  }

  lemma {:induction false} DrainCloses(b: string, p: nat, c: nat)
    requires FirstOpen(b) == p && CloseEnd(b, p) == c
    ensures var r := Drain(b[c..]); Drain(b) == (EmitOf(b[..p]) + [Drop(b[p..c])] + r.0, r.1)
  {
  }

  lemma {:induction false} TextsThree(e: seq<Piece>, d: Piece, r: seq<Piece>)
    ensures Concat(Texts(e + [d] + r)) == Concat(Texts(e)) + d.text + Concat(Texts(r))
  {
    TextsAppend(e + [d], r);
    TextsAppend(e, [d]);
    TextsOne(d);
    ConcatAppend(Texts(e) + [d.text], Texts(r));
    ConcatAppend(Texts(e), [d.text]);
    ConcatOne(d.text);
  }

  /** Whatever the cuts: the pieces emitted and dropped, in order, are the whole text; no emitted piece holds an
      opening tag, and every dropped piece is a tool call. */
  lemma {:induction false} RunConserves(b: string, tokens: seq<string>)
    requires Residual(b)
    ensures Concat(Texts(Run(b, tokens))) == b + Concat(tokens)
    ensures PiecesOk(Run(b, tokens), true)
    decreases |tokens|
  {
    if tokens == [] {
      FlushResidual(b);
      RunEndConserves(b);
      assert b + Concat(tokens) == b;
    } else {
      var c := b + tokens[0];
      DrainConserves(c);
      DrainResidual(c);
      var r := Drain(c);
      var later := Run(r.1, tokens[1..]);
      RunConserves(r.1, tokens[1..]);
      assert Run(b, tokens) == r.0 + later;
      TextsAppend(r.0, later);
      ConcatAppend(Texts(r.0), Texts(later));
      PiecesLater(r.0);
      ConcatAssoc(Concat(Texts(r.0)), r.1, Concat(tokens[1..]));
      ConcatAssoc(b, tokens[0], Concat(tokens[1..]));
    }
  }

  lemma {:induction false} PiecesLater(ps: seq<Piece>)
    requires PiecesOk(ps, false)
    ensures PiecesOk(ps, true)
  {
  }

  lemma {:induction false} RunEndConserves(b: string)
    requires Residual(b) && Flush(b) == if FirstOpen(b) == -1 then b else ""
    ensures Concat(Texts(Run(b, []))) == b
    ensures PiecesOk(Run(b, []), true)
  {
    ConcatOne(b);
    TextsOne(Emit(b));
    TextsOne(Drop(b));
  }

  lemma {:induction false} TextsOne(p: Piece)
    ensures Texts([p]) == [p.text]
  {
  }

  // ---------------------------------------------------------------- each hypothesis is needed

  /** A cut after the `<` lets the whole tool call through. */
  lemma {:induction false} BracketCutLeaks(call: string)
    requires OpenAt("<" + call, 0)
    ensures Out(Run("", ["<", call])) != Strip("<" + call)
  {
    var tokens := ["<", call];
    assert tokens[1..] == [call] && Concat([call]) == call + "" == call;
    assert Concat(tokens) == "<" + call;
    assert "" + "<" == "<";
    assert FirstOpen("<") == -1;
    FilterExact(tokens);
  }

  /** A cut between a close of the second style and one of the first keeps what one token would have dropped. */
  lemma {:induction false} MixedStylesLeak()
    ensures var b, rest := "<tool_call>a<tool_call|>", "b</tool_call>c"; Out(Run("", [b, rest])) != Strip(b + rest)
  {
    hide Out, Run, Strip, CutOk, FirstOpen;
    var b, rest := "<tool_call>a<tool_call|>", "b</tool_call>c";
    var tokens := [b, rest];
    ConcatOne(rest);
    assert tokens[1..] == [rest] && Concat(tokens) == b + rest;
    assert "" + b == b;
    FilterExact(tokens);
    MixedCut(b, rest);
  }

  lemma {:induction false} MixedCut(b: string, rest: string)
    requires b == "<tool_call>a<tool_call|>" && rest == "b</tool_call>c"
    ensures !CutOk(b, rest)
  {
    hide FirstOpen, CloseEnd, Find, OccursAt, OpenAt;
    StartsOpen(b);
    SecondStyleOnly(b);
    FirstStyleLast(b, rest);
    CloseByStyle(b, 0);
    CloseByStyle(b + rest, 0);
    OpensWithBracket(b + rest, 24);
  }

  lemma {:induction false} StartsOpen(b: string)
    requires b == "<tool_call>a<tool_call|>"
    ensures FirstOpen(b) == 0
  {
    assert b[0..11] == OPEN_TAGS[0];
    assert OpenAt(b, 0);
  }

  lemma {:induction false} CloseByStyle(s: string, p: nat)
    ensures Find(s, CLOSE_TAGS[0], p) != -1 ==> CloseEnd(s, p) == Find(s, CLOSE_TAGS[0], p) + 12
    ensures Find(s, CLOSE_TAGS[0], p) == -1 && Find(s, CLOSE_TAGS[1], p) != -1 ==>
              CloseEnd(s, p) == Find(s, CLOSE_TAGS[1], p) + 12
  {
  }

  /** An opening tag begins with its bracket. */
  lemma {:induction false} OpensWithBracket(s: string, i: nat)
    ensures OpenAt(s, i) ==> i < |s| && s[i] == '<'
  {
    if OpenAt(s, i) {
      var t := OpeningAt(s, i);
      TagShape(t);
      assert s[i] == s[i..i + |t|][0];
    }
  }

  lemma {:induction false} SecondStyleOnly(b: string)
    requires b == "<tool_call>a<tool_call|>"
    ensures Find(b, CLOSE_TAGS[0], 0) == -1 && Find(b, CLOSE_TAGS[1], 0) == 12
  {
    hide Find, OccursAt;
    FirstStyleAt(b, Find(b, CLOSE_TAGS[0], 0));
    SecondStyleAt(b, Find(b, CLOSE_TAGS[1], 0));
    LastSecond(b);
    OccursThere(b, CLOSE_TAGS[1], 12);
  }

  lemma {:induction false} LastSecond(b: string)
    requires b == "<tool_call>a<tool_call|>"
    ensures b[12..24] == CLOSE_TAGS[1]
  {
  }

  lemma {:induction false} FirstStyleLast(b: string, rest: string)
    requires b == "<tool_call>a<tool_call|>" && rest == "b</tool_call>c"
    ensures Find(b + rest, CLOSE_TAGS[0], 0) == 25
  {
    hide Find, OccursAt;
    var s := b + rest;
    FirstStyleAt(s, Find(s, CLOSE_TAGS[0], 0));
    OnlySlash(b, rest, Find(s, CLOSE_TAGS[0], 0) + 1);
    LastClose(rest);
    assert s[25..37] == rest[1..13];
    OccursThere(s, CLOSE_TAGS[0], 25);
  }

  lemma {:induction false} OnlySlash(b: string, rest: string, i: int)
    requires b == "<tool_call>a<tool_call|>" && rest == "b</tool_call>c"
    ensures 0 <= i < |b + rest| && (b + rest)[i] == '/' ==> i == 26
  {
    assert forall j :: 0 <= j < |b| ==> b[j] != '/';
    assert forall j :: 0 <= j < |rest| && rest[j] == '/' ==> j == 2;
  }

  lemma {:induction false} LastClose(rest: string)
    requires rest == "b</tool_call>c"
    ensures rest[1..13] == CLOSE_TAGS[0]
  {
  }

  lemma {:induction false} OccursThere(s: string, t: string, i: nat)
    requires i + |t| <= |s| && s[i..i + |t|] == t
    ensures OccursAt(s, t, i)
  {
  }

  /** A close of the first style needs a `/` as its second character. */
  lemma {:induction false} FirstStyleAt(s: string, i: int)
    ensures OccursAt(s, CLOSE_TAGS[0], i) ==> 0 <= i < i + 1 < |s| && s[i + 1] == '/'
  {
    if 0 <= i && i + 12 <= |s| {
      assert s[i..i + 12][1] == s[i + 1];
    }
  }

  lemma {:induction false} SecondStyleAt(s: string, i: int)
    ensures OccursAt(s, CLOSE_TAGS[1], i) ==> 0 <= i < i + 10 < |s| && s[i] == '<' && s[i + 10] == '|'
  {
    if 0 <= i && i + 12 <= |s| {
      assert s[i..i + 12][0] == s[i] && s[i..i + 12][10] == s[i + 10];
    }
  }

  // ---------------------------------------------------------------- the tags as they are written

  ghost predicate Contains(s: string, t: string) {
    exists i :: 0 <= i && OccursAt(s, t, i)
  }

  lemma {:induction false} TagsWritten()
    ensures OPEN_TAGS[0] == "<tool_call>" && OPEN_TAGS[1] == "<|tool_call>"
    ensures CLOSE_TAGS[0] == "</tool_call>" && CLOSE_TAGS[1] == "<tool_call|>"
    ensures |OPEN_TAGS| == |CLOSE_TAGS| == 2
  {
  }

  /** A text without an opening tag is kept as it is. */
  lemma {:induction false} StripKeeps(s: string)
    requires !Contains(s, "<tool_call>") && !Contains(s, "<|tool_call>")
    ensures Strip(s) == s
  {
    StripUnfold(s);
  }

  /** The opening tag that follows a text without one is the first. */
  lemma {:induction false} OpensAfter(before: string, open: string, rest: string)
    requires open in OPEN_TAGS && !Contains(before, OPEN_TAGS[0]) && !Contains(before, OPEN_TAGS[1])
    ensures FirstOpen(before + open + rest) == |before| && OccursAt(before + open + rest, open, |before|)
  {
    var s, p := before + open + rest, |before|;
    assert s[p..p + |open|] == open;
    assert OccursAt(s, open, p) && OpenAt(s, p);
    TagShape(open);
    forall i | 0 <= i < p ensures !OpenAt(s, i) {
      forall t | t in OPEN_TAGS ensures !OccursAt(s, t, i) {
        if OccursAt(s, t, i) {
          TagsApart(s, t, i, open, p);
          assert s == before + (open + rest);
          OccursBefore(before, open + rest, t, i);
        }
      }
    }
  }

  /** In a region that opens after `before`, a closing tag begins in the text after the opening tag. */
  lemma {:induction false} ClosesAfter(before: string, open: string, rest: string, u: string, i: nat)
    requires open in OPEN_TAGS && u in CLOSE_TAGS && |before| <= i && OccursAt(before + open + rest, u, i)
    ensures |before + open| <= i && OccursAt(rest, u, i - |before + open|)
  {
    var s, p := before + open + rest, |before|;
    assert s[p..p + |open|] == open;
    assert OccursAt(s, open, p) && OpenAt(s, p);
    OpenIsNoClose(s, p, u);
    TagsApart(s, open, p, u, i);
    OccursInside(before + open, rest, "", u, i - |before + open|);
    assert before + open + rest + "" == s;
  }

  lemma {:induction false} ClosesThere(before: string, open: string, rest: string, u: string, i: nat)
    requires OccursAt(rest, u, i)
    ensures OccursAt(before + open + rest, u, |before + open| + i)
  {
    OccursInside(before + open, rest, "", u, i);
    assert before + open + rest + "" == before + open + rest;
  }

  /** A region that is not closed is cut off to the end. */
  lemma {:induction false} StripCutsOff(before: string, open: string, rest: string)
    requires !Contains(before, "<tool_call>") && !Contains(before, "<|tool_call>")
    requires open == "<tool_call>" || open == "<|tool_call>"
    requires !Contains(rest, "</tool_call>") && !Contains(rest, "<tool_call|>")
    ensures Strip(before + open + rest) == before
  {
    TagsWritten();
    assert open in OPEN_TAGS;
    var s, p := before + open + rest, |before|;
    OpensAfter(before, open, rest);
    forall u, i: nat | u in CLOSE_TAGS && p <= i ensures !OccursAt(s, u, i) {
      if OccursAt(s, u, i) {
        ClosesAfter(before, open, rest, u, i);
      }
    }
    assert CLOSE_TAGS[0] in CLOSE_TAGS && CLOSE_TAGS[1] in CLOSE_TAGS;
    StripUnfold(s);
    StripAfterOpen(s, p);
  }

  /** Where a closing tag stands after a text without it, it stands first. */
  lemma {:induction false} FirstClose(s: string, u: string, start: nat, e: nat)
    requires OccursAt(s, u, e) && start <= e && forall i :: start <= i < e ==> !OccursAt(s, u, i)
    ensures Find(s, u, start) == e
  {
  }

  /** A call from its opening tag to its closing tag is dropped: to the first `</tool_call>`, wherever it stands, and
      to the first `<tool_call|>` only if there is no other. */
  lemma {:induction false} StripDrops(before: string, open: string, call: string, close: string, after: string)
    requires !Contains(before, "<tool_call>") && !Contains(before, "<|tool_call>")
    requires open == "<tool_call>" || open == "<|tool_call>"
    requires close == "</tool_call>" || close == "<tool_call|>"
    requires !Contains(call, close)
    requires close == "<tool_call|>" ==> !Contains(call + close + after, "</tool_call>")
    ensures Strip(before + open + (call + close + after)) == before + Strip(after)
  {
    TagsWritten();
    assert open in OPEN_TAGS && close in CLOSE_TAGS;
    hide OccursAt, Find, FirstOpen, CloseEnd, OpenAt, Strip, StripAfter, OPEN_TAGS, CLOSE_TAGS;
    var rest := call + close + after;
    var s, p := before + open + rest, |before|;
    OpensAfter(before, open, rest);
    CallCloses(before, open, call, close, after);
    StripClosed(s, p);
    Regroup(before + open, call, close, after);
    DropTail(before + open + call, close, after);
    assert s[..p] == before;
  }

  lemma {:induction false} Regroup(a: string, b: string, c: string, d: string)
    ensures a + (b + c + d) == (a + b) + c + d
  {
  }

  lemma {:induction false} DropTail(a: string, b: string, c: string)
    ensures (a + b + c)[|a| + |b|..] == c
  {
  }

  lemma {:induction false} CallCloses(before: string, open: string, call: string, close: string, after: string)
    requires open in OPEN_TAGS && close in CLOSE_TAGS && !Contains(call, close)
    requires close == CLOSE_TAGS[1] ==> !Contains(call + close + after, CLOSE_TAGS[0])
    ensures CloseEnd(before + open + (call + close + after), |before|) == |before + open + call| + |close|
  {
    var rest := call + close + after;
    var s, p, e := before + open + rest, |before|, |before + open| + |call|;
    CallCloseFirst(before, open, call, close, after);
    assert close == CLOSE_TAGS[0] || close == CLOSE_TAGS[1];
    hide OccursAt, Find, Contains;
    if close == CLOSE_TAGS[1] {
      NoFirstStyle(before, open, rest, p);
    }
  }

  lemma {:induction false} CallCloseFirst(before: string, open: string, call: string, close: string, after: string)
    requires open in OPEN_TAGS && close in CLOSE_TAGS && !Contains(call, close)
    ensures Find(before + open + (call + close + after), close, |before|) == |before + open| + |call|
  {
    var rest := call + close + after;
    var s, p, e := before + open + rest, |before|, |before + open| + |call|;
    assert rest[|call|..|call| + |close|] == close;
    ClosesThere(before, open, rest, close, |call|);
    forall i | p <= i < e ensures !OccursAt(s, close, i) {
      if OccursAt(s, close, i) {
        ClosesAfter(before, open, rest, close, i);
        NotInCall(call, close, after, i - |before + open|);
      }
    }
    FirstClose(s, close, p, e);
  }

  lemma {:induction false} NotInCall(call: string, close: string, after: string, i: nat)
    requires close in CLOSE_TAGS && !Contains(call, close) && i < |call|
    ensures !OccursAt(call + close + after, close, i)
  {
    var rest := call + close + after;
    if OccursAt(rest, close, i) {
      assert rest[|call|..|call| + |close|] == close;
      TagsApart(rest, close, i, close, |call|);
      assert rest == call + (close + after);
      OccursBefore(call, close + after, close, i);
    }
  }

  lemma {:induction false} NoFirstStyle(before: string, open: string, rest: string, p: nat)
    requires open in OPEN_TAGS && p == |before| && !Contains(rest, CLOSE_TAGS[0])
    ensures Find(before + open + rest, CLOSE_TAGS[0], p) == -1
  {
    var i := Find(before + open + rest, CLOSE_TAGS[0], p);
    if i != -1 {
      ClosesAfter(before, open, rest, CLOSE_TAGS[0], i);
    }
  }

  /** What the listener gets of one call in a text: what stands before it and after it, however the stream is cut into
      tokens, but not just after the bracket of an opening tag. */
  lemma {:induction false} CallFiltered(tokens: seq<string>, before: string, open: string, call: string, close: string,
                                        after: string)
    requires Concat(tokens) == before + open + (call + close + after)
    requires forall i :: 1 <= i <= |tokens| ==> !CutsBracket(Concat(tokens[..i]), Concat(tokens[i..]))
    requires open == "<tool_call>" || open == "<|tool_call>"
    requires close == "</tool_call>" || close == "<tool_call|>"
    requires NoBracket(before) && NoBracket(call) && NoBracket(after)
    ensures Out(Run("", tokens)) == before + after
  {
    TagsWritten();
    forall t, s | Tag(t) && NoBracket(s) ensures !Contains(s, t) {
      BracketNeeded(s, t);
    }
    NoOtherClose(call, close, after);
    StripDrops(before, open, call, close, after);
    StripKeeps(after);
    OneCloseOnly(before, open, call, close, after);
    FilterIsStrip(tokens);
  }

  predicate NoBracket(s: string) {
    forall i :: 0 <= i < |s| ==> s[i] != '<'
  }

  lemma {:induction false} BracketNeeded(s: string, t: string)
    requires Tag(t) && NoBracket(s)
    ensures !Contains(s, t)
  {
    forall i | 0 <= i ensures !OccursAt(s, t, i) {
      if OccursAt(s, t, i) {
        TagBegins(s, t, i);
      }
    }
  }

  lemma {:induction false} TagBegins(s: string, t: string, i: nat)
    requires Tag(t) && OccursAt(s, t, i)
    ensures i < |s| && s[i] == '<'
  {
    TagShape(t);
    assert s[i] == s[i..i + |t|][0];
  }

  /** The other closing tag stands nowhere around this one. */
  lemma {:induction false} NoOtherClose(call: string, close: string, after: string)
    requires close in CLOSE_TAGS && NoBracket(call) && NoBracket(after)
    ensures forall u, i: nat :: u in CLOSE_TAGS && OccursAt(call + close + after, u, i) ==> u == close
  {
    var rest := call + close + after;
    forall u, i: nat | u in CLOSE_TAGS && OccursAt(rest, u, i) ensures u == close {
      TagShape(u);
      assert rest[i] == rest[i..i + |u|][0] == '<';
      OnlyBracket(call, close, after, i);
      assert rest[i..i + |u|] == rest[|call|..|call| + |close|];
    }
  }

  lemma {:induction false} OnlyBracket(call: string, close: string, after: string, i: nat)
    requires close in CLOSE_TAGS && NoBracket(call) && NoBracket(after)
    requires i < |call + close + after| && (call + close + after)[i] == '<'
    ensures i == |call|
  {
    var rest := call + close + after;
    assert rest[|call|..|call| + |close|] == close;
    InTag(rest, close, |call|, i);
  }

  lemma {:induction false} InTag(s: string, t: string, i: int, j: int)
    requires Tag(t) && OccursAt(s, t, i)
    ensures i < j < i + |t| ==> s[j] != '<'
  {
    if i < j < i + |t| {
      BracketFirst(s, t, i, j);
    }
  }

  lemma {:induction false} OneCloseOnly(before: string, open: string, call: string, close: string, after: string)
    requires open in OPEN_TAGS && close in CLOSE_TAGS && NoBracket(before) && NoBracket(call) && NoBracket(after)
    ensures OneStyle(before + open + (call + close + after))
  {
    var rest := call + close + after;
    var s := before + open + rest;
    NoOtherClose(call, close, after);
    forall u, i: nat | u in CLOSE_TAGS && OccursAt(s, u, i) ensures u == close {
      TagShape(u);
      assert s[i] == s[i..i + |u|][0];
      assert |before| <= i;
      ClosesAfter(before, open, rest, u, i);
    }
    assert CLOSE_TAGS[0] != CLOSE_TAGS[1] && CLOSE_TAGS[0] in CLOSE_TAGS && CLOSE_TAGS[1] in CLOSE_TAGS;
  }
}
