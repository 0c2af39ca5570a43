/** Streaming the assistant's answer without its tool calls (backend/app/services/ai_agent.py). */
module StreamFilter {
  import opened Text

  const OPEN_TAGS: seq<string> := ["<tool_call>", "<|tool_call>"]
  const CLOSE_TAGS: seq<string> := ["</tool_call>", "<tool_call|>"]
  const MIN_HOLD := 2

  // ---------------------------------------------------------------- the text as a whole

  predicate OpenAt(s: string, i: int) {
    OccursAt(s, OPEN_TAGS[0], i) || OccursAt(s, OPEN_TAGS[1], i)
  }

  predicate HasOpen(s: string) {
    exists i :: 0 <= i < |s| && OpenAt(s, i)
  }

  /** Where the first opening tag stands, or -1. */
  function FirstOpen(s: string): (r: int)
    ensures r == -1 ==> !HasOpen(s)
    ensures r != -1 ==> 0 <= r < |s| && OpenAt(s, r) && forall i :: 0 <= i < r ==> !OpenAt(s, i)
  {
    var a, b := Find(s, OPEN_TAGS[0], 0), Find(s, OPEN_TAGS[1], 0);
    if a == -1 then b else if b == -1 || a < b then a else b
  }

  /** Just past the closing tag of a region starting at `start`, or -1. The first style is preferred wherever it is. */
  function CloseEnd(s: string, start: nat): (r: int)
    ensures r != -1 ==> start < r <= |s|
  {
    var a := Find(s, CLOSE_TAGS[0], start);
    if a != -1 then a + |CLOSE_TAGS[0]| else
    var b := Find(s, CLOSE_TAGS[1], start);
    if b != -1 then b + |CLOSE_TAGS[1]| else -1
  }

  /** The text without its tool calls: from each opening tag to its close, or to the end, is left out. */
  function Strip(s: string): string
    decreases |s|, 1
  {
    var p := FirstOpen(s);
    if p == -1 then s else s[..p] + StripAfter(s, p)
  }

  /** What is kept after the tool call that starts at `p`. */
  function StripAfter(s: string, p: nat): string
    decreases |s|, 0
  {
    var c := CloseEnd(s, p);
    if c == -1 then "" else Strip(s[c..])
  }

  // ---------------------------------------------------------------- the stream

  datatype Piece = Emit(text: string) | Drop(text: string)

  predicate PrefixOfOpen(t: string) {
    t <= OPEN_TAGS[0] || t <= OPEN_TAGS[1]
  }

  predicate Held(s: string, i: int) {
    MIN_HOLD <= i <= |s| && PrefixOfOpen(s[|s| - i..])
  }

  /** The longest end of `s`, of MIN_HOLD characters or more, that could begin an opening tag. */
  function Hold(s: string, i: nat := |OPEN_TAGS[1]|): (r: nat)
    ensures r == 0 || (r <= i && Held(s, r))
    ensures forall j :: r < j <= i ==> !Held(s, j)
  {
    if i < MIN_HOLD then 0 else if Held(s, i) then i else Hold(s, i - 1)
  }

  function EmitOf(s: string): seq<Piece> {
    if s == "" then [] else [Emit(s)]
  }

  /** What the buffer gives out, and what stays in it. */
  function Drain(b: string): (r: (seq<Piece>, string))
    decreases |b|
  {
    var p := FirstOpen(b);
    if p == -1 then
      var k := |b| - Hold(b);
      (EmitOf(b[..k]), b[k..])
    else
      var c := CloseEnd(b, p);
      if c == -1 then (EmitOf(b[..p]), b[p..])
      else
        var r := Drain(b[c..]);
        (EmitOf(b[..p]) + [Drop(b[p..c])] + r.0, r.1)
  }

  const ANY_TAGS: seq<string> := ["<tool_call>", "<|tool_call>", "<tool_call|>", "<|tool_call|>"]

  /** Where the pattern of the last clean-up, <\|?tool_call\|?>, first matches; the length if it does not. */
  function FirstTag(s: string, from: nat := 0): (r: nat)
    requires from <= |s|
    ensures from <= r <= |s|
    ensures forall i, t :: from <= i < r && t in ANY_TAGS ==> !OccursAt(s, t, i)
    ensures r < |s| ==> exists t :: t in ANY_TAGS && OccursAt(s, t, r)
    decreases |s| - from
  {
    if from == |s| || exists t :: t in ANY_TAGS && OccursAt(s, t, from) then from else FirstTag(s, from + 1)
  }

  /** What is emitted of the buffer when the stream ends. */
  function Flush(b: string): string {
    Trim(b[..FirstTag(b)])
  }

  /** Everything that happens to the text, in order, starting with `b` in the buffer. */
  function Run(b: string, tokens: seq<string>): seq<Piece>
    decreases |tokens|
  {
    if tokens == [] then
      if b == "" then [] else if Flush(b) == "" then [Drop(b)] else [Emit(Flush(b))]
    else
      var r := Drain(b + tokens[0]);
      r.0 + Run(r.1, tokens[1..])
  }

  /** The pieces the listener gets. */
  function Emitted(ps: seq<Piece>): seq<string> {
    if ps == [] then [] else (if ps[0].Emit? then [ps[0].text] else []) + Emitted(ps[1..])
  }

  function Texts(ps: seq<Piece>): seq<string> {
    if ps == [] then [] else [ps[0].text] + Texts(ps[1..])
  }

  method FindOpen(s: string) returns (pos: int)
    ensures pos == FirstOpen(s)
  {
    pos := -1;
    for t := 0 to |OPEN_TAGS|
      invariant t == 0 ==> pos == -1
      invariant t == 1 ==> pos == Find(s, OPEN_TAGS[0], 0)
      invariant t == 2 ==> pos == FirstOpen(s)
    {
      var idx := Find(s, OPEN_TAGS[t], 0);
      if idx != -1 && (pos == -1 || idx < pos) {
        pos := idx;
      }
    }
  }

  method FindClose(s: string, start: nat) returns (end: int)
    ensures end == CloseEnd(s, start)
  {
    for t := 0 to |CLOSE_TAGS|
      invariant forall j :: 0 <= j < t ==> Find(s, CLOSE_TAGS[j], start) == -1
    {
      var idx := Find(s, CLOSE_TAGS[t], start);
      if idx != -1 {
        return idx + |CLOSE_TAGS[t]|;
      }
    }
    return -1;
  }

  method PartialHold(s: string) returns (hold: nat)
    ensures hold == Hold(s)
  {
    hide PrefixOfOpen, Hold;
    var i := if |s| < |OPEN_TAGS[1]| then |s| else |OPEN_TAGS[1]|;
    while i >= MIN_HOLD
      invariant i <= |OPEN_TAGS[1]| && i <= |s|
      invariant forall j :: i < j <= |OPEN_TAGS[1]| ==> !Held(s, j)
    {
      if PrefixOfOpen(s[|s| - i..]) {
        assert Held(s, i);
        return i;
      }
      i := i - 1;
    }
    return 0;
  }

  lemma {:induction false} DrainPlainly(b: string)
    requires FirstOpen(b) == -1
    ensures var k := |b| - Hold(b); Emitted(Drain(b).0) == (if k > 0 then [b[..k]] else []) && Drain(b).1 == b[k..]
  {
    hide FirstOpen, Hold, OPEN_TAGS;
    EmittedOne(b[..|b| - Hold(b)]);
  }

  lemma {:induction false} DrainOpen(b: string, p: nat)
    requires FirstOpen(b) == p && CloseEnd(b, p) == -1
    ensures Emitted(Drain(b).0) == (if p > 0 then [b[..p]] else []) && Drain(b).1 == b[p..]
  {
    hide FirstOpen, CloseEnd, OPEN_TAGS;
    EmittedOne(b[..p]);
  }

  lemma {:induction false} EmittedOne(s: string)
    ensures Emitted(EmitOf(s)) == if s == "" then [] else [s]
  {
    assert s != "" ==> Emitted(EmitOf(s)) == [s] + Emitted([]);
  }

  /** One turn of the inner loop: the piece it gives out, the buffer it leaves, and whether the loop goes on. */
  method Turn(b: string) returns (out: seq<string>, buffer: string, more: bool)
    requires b != ""
    ensures more ==> |buffer| < |b|
    ensures more ==> Emitted(Drain(b).0) == out + Emitted(Drain(buffer).0) && Drain(b).1 == Drain(buffer).1
    ensures !more ==> Emitted(Drain(b).0) == out && Drain(b).1 == buffer
  {
    hide FirstOpen, CloseEnd, Hold, Drain, Emitted, OPEN_TAGS, CLOSE_TAGS;
    out, buffer, more := [], b, false;
    var tagStart := FindOpen(b);
    if tagStart == -1 {
      DrainPlainly(b);
      var hold := PartialHold(b);
      var emitEnd := |b| - hold;
      if emitEnd > 0 {
        out := out + [b[..emitEnd]];
      }
      buffer := b[emitEnd..];
    } else {
      if tagStart > 0 {
        out := out + [b[..tagStart]];
      }
      var closeEnd := FindClose(b, tagStart);
      if closeEnd != -1 {
        buffer, more := b[closeEnd..], true;
        DrainAfter(b, tagStart, closeEnd);
        EmittedOne(b[..tagStart]);
      } else {
        DrainOpen(b, tagStart);
        buffer := b[tagStart..];
      }
    }
  }

  lemma {:induction false} DrainAfter(b: string, p: nat, c: nat)
    requires FirstOpen(b) == p && CloseEnd(b, p) == c
    ensures Emitted(Drain(b).0) == Emitted(EmitOf(b[..p])) + Emitted(Drain(b[c..]).0)
    ensures Drain(b).1 == Drain(b[c..]).1
  {
    var given := EmitOf(b[..p]);
    EmittedAppend(given + [Drop(b[p..c])], Drain(b[c..]).0);
    EmittedAppend(given, [Drop(b[p..c])]);
  }

  lemma {:induction false} DrainEmpty()
    ensures Emitted(Drain("").0) == [] && Drain("").1 == ""
  {
    DrainPlainly("");
  }

  /** The inner loop: gives out all that can be given out of the buffer. */
  method DrainBuffer(b: string) returns (out: seq<string>, buffer: string)
    ensures out == Emitted(Drain(b).0)
    ensures buffer == Drain(b).1
  {
    DrainEmpty();
    hide Drain, Emitted;
    out, buffer := [], b;
    while buffer != ""
      invariant out + Emitted(Drain(buffer).0) == Emitted(Drain(b).0)
      invariant Drain(buffer).1 == Drain(b).1
      decreases |buffer|
    {
      var piece, rest, more := Turn(buffer);
      ConcatAssoc(out, piece, Emitted(Drain(rest).0));
      out, buffer := out + piece, rest;
      if !more {
        break;
      }
    }
  }

  /** The filter itself: what it yields is what `Run` emits. */
  method StreamFiltered(tokens: seq<string>) returns (out: seq<string>)
    ensures out == Emitted(Run("", tokens))
  {
    out := [];
    var buffer := "";
    for k := 0 to |tokens|
      invariant out + Emitted(Run(buffer, tokens[k..])) == Emitted(Run("", tokens))
    {
      ghost var b := buffer + tokens[k];
      var pieces;
      pieces, buffer := DrainBuffer(buffer + tokens[k]);
      out := out + pieces;
      assert tokens[k..][0] == tokens[k] && tokens[k..][1..] == tokens[k + 1..];
      EmittedAppend(Drain(b).0, Run(buffer, tokens[k + 1..]));
    }
    if buffer != "" {
      var cleaned := Flush(buffer);
      if cleaned != "" {
        out := out + [cleaned];
      }
    }
  }

  lemma {:induction false} EmittedAppend(a: seq<Piece>, b: seq<Piece>)
    ensures Emitted(a + b) == Emitted(a) + Emitted(b)
  {
    if a == [] {
      assert a + b == b;
    } else {
      PiecesAhead(a, b);
      EmittedAppend(a[1..], b);
      ConcatAssoc(if a[0].Emit? then [a[0].text] else [], Emitted(a[1..]), Emitted(b));
    }
  }

  lemma {:induction false} TextsAppend(a: seq<Piece>, b: seq<Piece>)
    ensures Texts(a + b) == Texts(a) + Texts(b)
  {
    if a == [] {
      assert a + b == b;
    } else {
      PiecesAhead(a, b);
      TextsAppend(a[1..], b);
      ConcatAssoc([a[0].text], Texts(a[1..]), Texts(b));
    }
  }

  lemma {:induction false} PiecesAhead(a: seq<Piece>, b: seq<Piece>)
    requires a != []
    ensures (a + b)[0] == a[0] && (a + b)[1..] == a[1..] + b
  {
  }
}
