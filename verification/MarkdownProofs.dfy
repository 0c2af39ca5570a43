/** Printing a note as Markdown and reading it back. */
module MarkdownProofs {
  import opened Lines
  import opened Markdown
  import opened Text

  // ---------------------------------------------------------------- what a note says

  datatype Item = Item(kind: Kind, text: string)

  function OwnItems(k: Kind, text: string): seq<Item> {
    if k == Paragraph && text == "" then [] else [Item(k, text)]
  }

  /** Kind and text of every block in pre-order, without the empty paragraphs. */
  function Items(bs: seq<Block>): seq<Item> {
    if bs == [] then [] else
    OwnItems(bs[0].kind, TextOf(bs[0].content)) + Items(bs[0].children) + Items(bs[1..])
  }

  lemma {:induction false} ItemsAppend(a: seq<Block>, b: seq<Block>)
    ensures Items(a + b) == Items(a) + Items(b)
  {
    hide OwnItems, TextOf;
    if a == [] {
      assert a + b == b && [] + Items(b) == Items(b);
    } else {
      assert (a + b)[0] == a[0] && (a + b)[1..] == a[1..] + b;
      ItemsAppend(a[1..], b);
      ConcatAssoc(OwnItems(a[0].kind, TextOf(a[0].content)) + Items(a[0].children), Items(a[1..]), Items(b));
    }
  }

  predicate RightTrimmed(s: string) {
    s != "" ==> !IsSpace(s[|s| - 1])
  }

  predicate LeftTrimmed(s: string) {
    s != "" ==> !IsSpace(s[0])
  }

  predicate LooksMarked(s: string, digit: char -> bool) {
    || StartsWith(s, "# ") || StartsWith(s, "## ") || StartsWith(s, "### ") || StartsWith(s, "```")
    || StartsWith(s, "- ") || StartsWith(s, "* ") || StartsWith(s, "> ") || LooksNumbered(s, digit)
  }

  /** The text a block may have to survive: one line, trimmed on the right, not taken for another marker. */
  predicate TextOk(k: Kind, text: string, top: bool, digit: char -> bool) {
    match k
    case Heading(level) => 1 <= level <= 3 && LineOk(text)
    case Bullet => LineOk(text) && !StartsWith(text, "[x] ") && !StartsWith(text, "[ ] ")
    case Numbered => LineOk(text)
    case Check(_) => LineOk(text)
    case Quote => LineOk(text)
    case Code(language) =>
      && top && OneLine(language) && LeftTrimmed(language) && RightTrimmed(language)
      && forall i :: 0 <= i < |Split(text)| ==> !IsFence(Split(text)[i])
    case Paragraph => text != "" ==> LineOk(text) && LeftTrimmed(text) && !LooksMarked(text, digit)
    case _ => false
  }

  predicate LineOk(text: string) {
    text != "" && OneLine(text) && RightTrimmed(text)
  }

  predicate WellFormed(bs: seq<Block>, top: bool, digit: char -> bool) {
    bs == [] ||
    (&& TextOk(bs[0].kind, TextOf(bs[0].content), top, digit)
     && WellFormed(bs[0].children, false, digit)
     && WellFormed(bs[1..], top, digit))
  }

  // ---------------------------------------------------------------- reading line by line

  /** Every code block that opens is closed. */
  predicate Closed(ls: seq<string>)
    decreases |ls|
  {
    ls == [] || ((IsFence(ls[0]) ==> FenceFrom(ls, 1) < |ls|) && Closed(ls[Taken(ls)..]))
  }

  function LineItems(ls: seq<string>, digit: char -> bool): seq<Item> {
    Items(ReadLines(ls, digit))
  }

  lemma {:induction false} FenceAppend(a: seq<string>, b: seq<string>, i: nat)
    requires i <= |a| && FenceFrom(a, i) < |a|
    ensures FenceFrom(a + b, i) == FenceFrom(a, i)
    decreases |a| - i
  {
    if !IsFence(a[i]) {
      FenceAppend(a, b, i + 1);
    }
  }

  lemma {:induction false} FenceUnique(ls: seq<string>, i: nat, e: nat)
    requires i <= e <= |ls|
    requires forall j :: i <= j < e ==> !IsFence(ls[j])
    requires e < |ls| ==> IsFence(ls[e])
    ensures FenceFrom(ls, i) == e
  {
  }

  lemma {:induction false} FirstBlockAppend(a: seq<string>, b: seq<string>, digit: char -> bool)
    requires a != [] && (IsFence(a[0]) ==> FenceFrom(a, 1) < |a|)
    ensures FirstBlock(a + b, digit) == FirstBlock(a, digit) && Taken(a + b) == Taken(a)
    ensures IsFence(a[0]) ==> FenceFrom(a + b, 1) < |a|
  {
    if IsFence(a[0]) {
      FenceAppend(a, b, 1);
      var e := FenceFrom(a, 1);
      assert (a + b)[1..e] == a[1..e];
    }
  }

  /** Lines in which every code block is closed can be read on their own. */
  lemma {:induction false} ReadAppend(a: seq<string>, b: seq<string>, digit: char -> bool)
    requires Closed(a)
    ensures ReadLines(a + b, digit) == ReadLines(a, digit) + ReadLines(b, digit)
    ensures Closed(b) <==> Closed(a + b)
    decreases |a|
  {
    hide FirstBlock, IsFence;
    if a == [] {
      assert a + b == b;
    } else {
      FirstBlockAppend(a, b, digit);
      var n := Taken(a);
      assert (a + b)[n..] == a[n..] + b;
      ReadAppend(a[n..], b, digit);
      ConcatAssoc([FirstBlock(a, digit)], ReadLines(a[n..], digit), ReadLines(b, digit));
    }
  }

  lemma {:induction false} LineItemsAppend(a: seq<string>, b: seq<string>, digit: char -> bool)
    requires Closed(a)
    ensures LineItems(a + b, digit) == LineItems(a, digit) + LineItems(b, digit)
    ensures Closed(b) <==> Closed(a + b)
  {
    ReadAppend(a, b, digit);
    ItemsAppend(ReadLines(a, digit), ReadLines(b, digit));
  }

  lemma {:induction false} BlankLine(digit: char -> bool)
    ensures Closed([""]) && LineItems([""], digit) == []
  {
    var b := MakeBlock(Paragraph, "");
    assert Trim("") == "" && !IsFence("");
    assert [""][1..] == [];
    assert ReadLines([""], digit) == [b] + ReadLines([], digit);
    MadeItem(Paragraph, "");
  }

  /** The block of a line that is neither blank nor a fence. */
  lemma {:induction false} PlainLine(line: string, digit: char -> bool)
    requires Trim(line) != "" && !IsFence(line)
    ensures Closed([line])
    ensures LineItems([line], digit) == Items([LineBlock(Trim(line), digit)])
  {
    assert [line][1..] == [];
    assert Closed([]);
    assert ReadLines([line], digit) == [LineBlock(Trim(line), digit)] + ReadLines([], digit);
  }

  lemma {:induction false} MadeItem(k: Kind, text: string)
    ensures Items([MakeBlock(k, text)]) == OwnItems(k, text)
  {
    var b := MakeBlock(k, text);
    assert [b][1..] == [];
    assert TextOf(b.content) == text by {
      if text != "" {
        assert PartsText([Styled(text)]) == text + PartsText([Styled(text)][1..]);
      }
    }
  }

  // ---------------------------------------------------------------- spaces at the ends

  lemma {:induction false} TrimSpaceAfter(l: string, c: char)
    requires IsSpace(c)
    ensures Trim(l + [c]) == Trim(l)
  {
    if l == "" {
      assert "" + [c] == [c] && [c][1..] == "";
    } else if IsSpace(l[0]) {
      assert (l + [c])[1..] == l[1..] + [c];
      TrimSpaceAfter(l[1..], c);
    } else {
      assert (l + [c])[..|l|] == l;
    }
  }

  lemma {:induction false} TrimSpaceBefore(c: char, l: string)
    requires IsSpace(c)
    ensures Trim([c] + l) == Trim(l)
  {
    assert ([c] + l)[1..] == l;
  }

  /** Spaces around the last line change nothing, unless it lies in an open code block. */
  lemma {:induction false} LastLine(ls: seq<string>, a: string, b: string, digit: char -> bool)
    requires Trim(a) == Trim(b) && Closed(ls + [a])
    ensures Closed(ls + [b]) && ReadLines(ls + [a], digit) == ReadLines(ls + [b], digit)
    decreases |ls|
  {
    hide Trim, IsFence, FirstBlock, Taken;
    var x, y := ls + [a], ls + [b];
    FirstSame(x, y, digit);
    var n := Taken(x);
    if n <= |ls| {
      assert x[n..] == ls[n..] + [a] && y[n..] == ls[n..] + [b];
      LastLine(ls[n..], a, b, digit);
    } else {
      assert x[n..] == [] == y[n..];
    }
    ReadStep(x, digit);
    ReadStep(y, digit);
    ClosedStep(x);
    ClosedStep(y);
  }

  lemma {:induction false} ClosedStep(ls: seq<string>)
    requires ls != []
    ensures Closed(ls) <==> (IsFence(ls[0]) ==> FenceFrom(ls, 1) < |ls|) && Closed(ls[Taken(ls)..])
  {
  }

  /** Lines that differ by spaces around the first and the last of them begin with the same block. */
  lemma {:induction false} FirstSame(x: seq<string>, y: seq<string>, digit: char -> bool)
    requires x != [] && |x| == |y| && (forall j :: 0 <= j < |x| ==> Trim(x[j]) == Trim(y[j]))
    requires (forall j :: 1 <= j < |x| - 1 ==> x[j] == y[j]) && (IsFence(x[0]) ==> FenceFrom(x, 1) < |x|)
    ensures FirstBlock(x, digit) == FirstBlock(y, digit) && Taken(x) == Taken(y)
    ensures IsFence(x[0]) == IsFence(y[0]) && FenceFrom(x, 1) == FenceFrom(y, 1)
  {
    hide Trim, LineBlock, FenceFrom;
    FenceSame(x, y, 1);
    var e := FenceFrom(x, 1);
    assert IsFence(x[0]) ==> x[1..e] == y[1..e];
  }

  lemma {:induction false} FenceSame(x: seq<string>, y: seq<string>, i: nat)
    requires i <= |x| == |y| && forall j :: i <= j < |x| ==> IsFence(x[j]) == IsFence(y[j])
    ensures FenceFrom(x, i) == FenceFrom(y, i)
    decreases |x| - i
  {
    if i < |x| && !IsFence(x[i]) {
      FenceSame(x, y, i + 1);
    }
  }

  /** A blank last line closes no code block. */
  lemma {:induction false} ClosedWithoutBlank(ls: seq<string>)
    requires Closed(ls + [""])
    ensures Closed(ls)
    decreases |ls|
  {
    if ls != [] {
      var x := ls + [""];
      var n := Taken(x);
      assert n <= |ls|;
      if IsFence(ls[0]) {
        assert n == FenceFrom(x, 1) + 1;
        assert forall j :: 0 <= j < |ls| ==> x[j] == ls[j];
        FenceUnique(ls, 1, n - 1);
      }
      assert x[n..] == ls[n..] + [""];
      ClosedWithoutBlank(ls[n..]);
    }
  }

  /** Both texts read alike, and neither leaves a code block open. */
  predicate SameReading(s: string, t: string, digit: char -> bool) {
    Closed(Split(s)) && Closed(Split(t)) && LineItems(Split(s), digit) == LineItems(Split(t), digit)
  }

  lemma {:induction false} DropLastSpace(s: string, digit: char -> bool)
    requires s != "" && IsSpace(s[|s| - 1]) && Closed(Split(s))
    ensures SameReading(s, s[..|s| - 1], digit)
  {
    hide Closed, ReadLines, Trim, IsFence, Items, Split;
    var u, c := s[..|s| - 1], s[|s| - 1];
    assert s == u + [c];
    SplitLast(u, c);
    var ls := Split(u);
    if c == '\n' {
      ClosedWithoutBlank(ls);
      LineItemsAppend(ls, [""], digit);
      BlankLine(digit);
    } else {
      var m := |ls| - 1;
      assert ls[..m] + [ls[m]] == ls;
      TrimSpaceAfter(ls[m], c);
      LastLine(ls[..m], ls[m] + [c], ls[m], digit);
    }
  }

  lemma {:induction false} DropFirstSpace(s: string, digit: char -> bool)
    requires s != "" && IsSpace(s[0]) && Closed(Split(s))
    ensures SameReading(s, s[1..], digit)
  {
    hide Closed, ReadLines, Trim, IsFence, Items;
    var ls := Split(s[1..]);
    if s[0] == '\n' {
      BlankLine(digit);
      LineItemsAppend([""], ls, digit);
      assert [] + LineItems(ls, digit) == LineItems(ls, digit);
    } else {
      TrimSpaceBefore(s[0], ls[0]);
      FirstLine([s[0]] + ls[0], ls[0], ls[1..], digit);
      assert ls == [ls[0]] + ls[1..];
    }
  }

  lemma {:induction false} FirstLine(a: string, b: string, ls: seq<string>, digit: char -> bool)
    requires Trim(a) == Trim(b) && Closed([a] + ls)
    ensures Closed([b] + ls) && ReadLines([a] + ls, digit) == ReadLines([b] + ls, digit)
  {
    hide Trim, IsFence, FirstBlock, Taken;
    var x, y := [a] + ls, [b] + ls;
    FirstSame(x, y, digit);
    var n := Taken(x);
    assert x[n..] == y[n..];
    ReadStep(x, digit);
    ReadStep(y, digit);
    ClosedStep(x);
    ClosedStep(y);
  }

  lemma {:induction false} TrimLeftReads(s: string, digit: char -> bool)
    requires Closed(Split(s))
    ensures SameReading(s, TrimLeft(s), digit)
  {
    if s != "" && IsSpace(s[0]) {
      DropFirstSpace(s, digit);
      TrimLeftReads(s[1..], digit);
    }
  }

  lemma {:induction false} TrimRightReads(s: string, digit: char -> bool)
    requires Closed(Split(s))
    ensures SameReading(s, TrimRight(s), digit)
  {
    if s != "" && IsSpace(s[|s| - 1]) {
      DropLastSpace(s, digit);
      TrimRightReads(s[..|s| - 1], digit);
    }
  }

  lemma {:induction false} TrimReads(s: string, digit: char -> bool)
    requires Closed(Split(s))
    ensures SameReading(s, Trim(s), digit)
  {
    TrimLeftReads(s, digit);
    TrimRightReads(TrimLeft(s), digit);
  }

  // ---------------------------------------------------------------- nested blocks

  predicate NoCode(items: seq<Item>) {
    forall i :: 0 <= i < |items| ==> !items[i].kind.Code?
  }

  lemma {:induction false} NoCodeAfter(a: seq<Item>, b: seq<Item>)
    requires NoCode(a + b)
    ensures NoCode(b)
  {
    forall i | 0 <= i < |b| ensures !b[i].kind.Code? {
      assert b[i] == (a + b)[|a| + i];
    }
  }

  lemma {:induction false} FenceItem(ls: seq<string>, digit: char -> bool)
    requires ls != []
    ensures IsFence(ls[0]) ==> LineItems(ls, digit) != [] && LineItems(ls, digit)[0].kind.Code?
  {
    if IsFence(ls[0]) {
      var b := FirstBlock(ls, digit);
      ItemsAppend([b], ReadLines(ls[Taken(ls)..], digit));
      MadeItem(b.kind, Join(ls[1..FenceFrom(ls, 1)]));
    }
  }

  /** Indented lines read alike when no code block is among them. */
  lemma {:induction false} IndentReads(ls: seq<string>, digit: char -> bool)
    requires NoCode(LineItems(ls, digit))
    ensures ReadLines(Indent(ls), digit) == ReadLines(ls, digit) && Closed(Indent(ls))
    decreases |ls|
  {
    if ls != [] {
      var l := "  " + ls[0];
      assert l == [' '] + ([' '] + ls[0]);
      TrimSpaceBefore(' ', ls[0]);
      TrimSpaceBefore(' ', [' '] + ls[0]);
      assert Trim(l) == Trim(ls[0]);
      var b, n := FirstBlock(ls, digit), Taken(ls);
      var first, rest := Items([b]), LineItems(ls[n..], digit);
      ItemsAppend([b], ReadLines(ls[n..], digit));
      assert LineItems(ls, digit) == first + rest;
      FenceItem(ls, digit);
      NoCodeAfter(first, rest);
      IndentReads(ls[1..], digit);
      assert Indent(ls)[1..] == Indent(ls[1..]);
    }
  }

  lemma {:induction false} IndentOneLine(ls: seq<string>)
    requires forall i :: 0 <= i < |ls| ==> OneLine(ls[i])
    ensures SplitAll(Indent(ls)) == Indent(ls)
  {
    if ls != [] {
      SplitOneLine("  " + ls[0]);
      IndentOneLine(ls[1..]);
    }
  }

  lemma {:induction false} NestedNoCode(bs: seq<Block>, digit: char -> bool)
    requires WellFormed(bs, false, digit)
    ensures NoCode(Items(bs))
  {
    if bs != [] {
      NestedNoCode(bs[0].children, digit);
      NestedNoCode(bs[1..], digit);
    }
  }

  // ---------------------------------------------------------------- one block

  lemma {:induction false} Tight(s: string)
    requires s != "" && LeftTrimmed(s) && RightTrimmed(s)
    ensures Trim(s) == s
  {
    TrimTight(s);
  }

  /** The line of a block that takes one line, and how it is read. */
  predicate ReadsAs(ls: seq<string>, k: Kind, text: string, digit: char -> bool) {
    |ls| == 1 &&
    var l := ls[0];
    OneLine(l) && Trim(l) == l != "" && !IsFence(l) && LineBlock(l, digit) == MakeBlock(k, text)
  }

  lemma {:induction false} HeadingLine(level: int, text: string, digit: char -> bool)
    requires 1 <= level <= 3 && LineOk(text)
    ensures ReadsAs(OwnLines(Heading(level), text), Heading(level), text, digit)
  {
    hide LineBlock, IsFence, Trim, Hashes;
    var m := if level == 1 then "# " else if level == 2 then "## " else "### ";
    HashesAre(level);
    Marked(m, text);
    HeadingRead(level, m + text, digit);
    NotFence(m + text);
  }

  lemma {:induction false} HashesAre(level: int)
    requires 1 <= level <= 3
    ensures Hashes(level) + " " == if level == 1 then "# " else if level == 2 then "## " else "### "
  {
    assert Hashes(1) == "#" + Hashes(0) && Hashes(2) == "#" + Hashes(1) && Hashes(3) == "#" + Hashes(2);
  }

  lemma {:induction false} HeadingRead(level: int, l: string, digit: char -> bool)
    requires 1 <= level <= 3
    requires StartsWith(l, if level == 1 then "# " else if level == 2 then "## " else "### ")
    ensures LineBlock(l, digit) == MakeBlock(Heading(level), l[level + 1..])
  {
    assert l[0] == '#' && (l[1] == ' ' <==> level == 1) && (level >= 2 ==> (l[2] == ' ' <==> level == 2));
  }

  /** A fence begins with its backquotes. */
  lemma {:induction false} NotFence(l: string)
    requires l != "" && Trim(l) == l && l[0] != '`'
    ensures !IsFence(l)
  {
  }

  lemma {:induction false} BulletLine(text: string, digit: char -> bool)
    requires LineOk(text) && !StartsWith(text, "[x] ") && !StartsWith(text, "[ ] ")
    ensures ReadsAs(OwnLines(Bullet, text), Bullet, text, digit)
  {
    hide LineBlock, IsFence, Trim, StartsWith;
    var l := "- " + text;
    Marked("- ", text);
    NotBox(l, text, "[x] ");
    NotBox(l, text, "[ ] ");
    BulletRead(l, digit);
    NotFence(l);
  }

  lemma {:induction false} NotBox(l: string, text: string, box: string)
    requires l == "- " + text && |box| == 4 && !StartsWith(text, box)
    ensures !StartsWith(l, "- " + box)
  {
    if |text| >= 4 {
      assert l[2..6] == text[..4];
      assert ("- " + box)[2..6] == box;
    }
  }

  lemma {:induction false} BulletRead(l: string, digit: char -> bool)
    requires "- " <= l && !StartsWith(l, "- " + "[x] ") && !StartsWith(l, "- " + "[ ] ")
    ensures LineBlock(l, digit) == MakeBlock(Bullet, l[2..])
  {
    assert l[0] == '-' && "- " + "[x] " == "- [x] " && "- " + "[ ] " == "- [ ] ";
  }

  lemma {:induction false} NumberedLine(text: string, digit: char -> bool)
    requires LineOk(text) && digit('1')
    ensures ReadsAs(OwnLines(Numbered, text), Numbered, text, digit)
  {
    hide LineBlock, IsFence, Trim;
    var l := "1. " + text;
    Marked("1. ", text);
    NumberedRead(l, digit);
    NotFence(l);
  }

  lemma {:induction false} NumberedRead(l: string, digit: char -> bool)
    requires "1. " <= l && digit('1')
    ensures LineBlock(l, digit) == MakeBlock(Numbered, l[3..])
  {
    assert l[0] == '1';
    DotAtOne(l);
  }

  lemma {:induction false} DotAtOne(l: string)
    requires "1. " <= l
    ensures Find(l, ". ", 0) == 1
  {
    assert l[0] == '1' && l[1..3] == ". ";
    assert OccursAt(l, ". ", 1) && !OccursAt(l, ". ", 0);
  }

  lemma {:induction false} CheckLine(checked: bool, text: string, digit: char -> bool)
    requires LineOk(text)
    ensures ReadsAs(OwnLines(Check(checked), text), Check(checked), text, digit)
  {
    hide LineBlock, IsFence, Trim;
    var m := if checked then "- [x] " else "- [ ] ";
    assert "- [" + (if checked then "x" else " ") + "] " == m;
    Marked(m, text);
    CheckRead(checked, m + text, digit);
    NotFence(m + text);
  }

  lemma {:induction false} CheckRead(checked: bool, l: string, digit: char -> bool)
    requires StartsWith(l, if checked then "- [x] " else "- [ ] ")
    ensures LineBlock(l, digit) == MakeBlock(Check(checked), l[6..])
  {
    assert l[0] == '-' && l[3] == if checked then 'x' else ' ';
    assert StartsWith(l, "- [x]") <==> checked;
  }

  lemma {:induction false} QuoteLine(text: string, digit: char -> bool)
    requires LineOk(text) && !digit('>')
    ensures ReadsAs(OwnLines(Quote, text), Quote, text, digit)
  {
    hide LineBlock, IsFence, Trim;
    var l := "> " + text;
    SplitOneLine(text);
    assert Quoted([text]) == [l] + Quoted([text][1..]);
    Marked("> ", text);
    QuoteRead(l, digit);
    NotFence(l);
  }

  lemma {:induction false} QuoteRead(l: string, digit: char -> bool)
    requires StartsWith(l, "> ") && !digit('>')
    ensures LineBlock(l, digit) == MakeBlock(Quote, l[2..])
  {
    assert l[0] == '>';
  }

  lemma {:induction false} ParagraphLine(text: string, digit: char -> bool)
    requires LineOk(text) && LeftTrimmed(text) && !LooksMarked(text, digit)
    ensures ReadsAs(OwnLines(Paragraph, text), Paragraph, text, digit)
  {
    Tight(text);
    if |text| >= 6 {
      assert text[..2] == text[..6][..2];
    }
  }

  /** A line made of a marker and a text is read as that block. */
  lemma {:induction false} MarkedLine(k: Kind, text: string, digit: char -> bool)
    requires TextOk(k, text, false, digit) && text != "" && digit('1') && !digit('>')
    ensures ReadsAs(OwnLines(k, text), k, text, digit)
  {
    match k
    case Heading(level) => HeadingLine(level, text, digit);
    case Bullet => BulletLine(text, digit);
    case Numbered => NumberedLine(text, digit);
    case Check(checked) => CheckLine(checked, text, digit);
    case Quote => QuoteLine(text, digit);
    case Paragraph => ParagraphLine(text, digit);
  }

  lemma {:induction false} Marked(m: string, text: string)
    requires m != "" && !IsSpace(m[0]) && OneLine(m) && LineOk(text)
    ensures OneLine(m + text) && Trim(m + text) == m + text && (m + text)[|m|..] == text && m <= m + text
  {
    Tight(m + text);
  }

  lemma {:induction false} OwnReads(k: Kind, text: string, top: bool, digit: char -> bool)
    requires TextOk(k, text, top, digit) && digit('1') && !digit('>')
    ensures Closed(SplitAll(OwnLines(k, text))) && LineItems(SplitAll(OwnLines(k, text)), digit) == OwnItems(k, text)
  {
    if k.Code? {
      CodeReads(k.language, text, digit);
    } else if text == "" {
      assert ReadLines([], digit) == [];
    } else {
      MarkedLine(k, text, digit);
      var l := OwnLines(k, text)[0];
      assert OwnLines(k, text) == [l];
      SplitAllLines([l]);
      PlainLine(l, digit);
      MadeItem(k, text);
    }
  }

  lemma {:induction false} CodeLines(fence: string, text: string)
    requires OneLine(fence)
    ensures SplitAll([fence, text, "```"]) == [fence] + Split(text) + ["```"]
  {
    var own := [fence, text, "```"];
    SplitOneLine(fence);
    SplitOneLine("```");
    assert own[1..] == [text, "```"] && own[1..][1..] == ["```"] && own[1..][1..][1..] == [];
    assert SplitAll(["```"]) == ["```"] + SplitAll([]);
  }

  lemma {:induction false} CodeFence(language: string)
    requires OneLine(language) && LeftTrimmed(language) && RightTrimmed(language)
    ensures var fence := "```" + language;
            IsFence(fence) && OneLine(fence) && Trim(fence) == fence && Trim(fence[3..]) == language && IsFence("```")
  {
    Tight("```" + language);
    Tight("```");
    assert ("```" + language)[3..] == language;
    TrimTight(language);
  }

  lemma {:induction false} CodeReads(language: string, text: string, digit: char -> bool)
    requires TextOk(Code(language), text, true, digit)
    ensures var ls := SplitAll(OwnLines(Code(language), text));
            Closed(ls) && LineItems(ls, digit) == [Item(Code(language), text)]
  {
    hide IsFence, Trim, SplitAll, LineBlock;
    var fence, body := "```" + language, Split(text);
    var ls := [fence] + body + ["```"];
    CodeFence(language);
    CodeLines(fence, text);
    var e := |ls| - 1;
    assert forall j :: 1 <= j < e ==> ls[j] == body[j - 1];
    FenceUnique(ls, 1, e);
    assert ls[1..e] == body && ls[e + 1..] == [];
    JoinSplit(text);
    var b := MakeBlock(Code(language), text);
    assert FirstBlock(ls, digit) == b && Taken(ls) == e + 1;
    assert ReadLines(ls, digit) == [b] + ReadLines([], digit);
    MadeItem(Code(language), text);
  }

  // ---------------------------------------------------------------- the round trip

  lemma {:induction false} ChildrenRead(cs: seq<Block>, digit: char -> bool)
    requires cs != [] && WellFormed(cs, false, digit)
    requires Closed(SplitAll(BlocksLines(cs))) && LineItems(SplitAll(BlocksLines(cs)), digit) == Items(cs)
    ensures var ls := SplitAll(ChildLines(Print(cs))); Closed(ls) && LineItems(ls, digit) == Items(cs)
  {
    var text := Join(BlocksLines(cs));
    assert BlocksLines(cs) != [];
    SplitJoin(BlocksLines(cs));
    TrimReads(text, digit);
    var md := Print(cs);
    assert md == Trim(text);
    if md == "" {
      BlankLine(digit);
    } else {
      NestedNoCode(cs, digit);
      IndentReads(Split(md), digit);
      SplitsOneLine(md);
      IndentOneLine(Split(md));
    }
  }

  lemma {:induction false} LinesRead(bs: seq<Block>, top: bool, digit: char -> bool)
    requires WellFormed(bs, top, digit) && digit('1') && !digit('>')
    ensures Closed(SplitAll(BlocksLines(bs))) && LineItems(SplitAll(BlocksLines(bs)), digit) == Items(bs)
    decreases bs
  {
    if bs == [] {
      assert ReadLines([], digit) == [];
    } else {
      var b := bs[0];
      var text, cs := TextOf(b.content), b.children;
      var own, nested := OwnLines(b.kind, text), if cs == [] then [] else ChildLines(Print(cs));
      OwnReads(b.kind, text, top, digit);
      LinesRead(cs, false, digit);
      if cs != [] {
        ChildrenRead(cs, digit);
      } else {
        assert ReadLines([], digit) == [];
      }
      LinesRead(bs[1..], top, digit);
      BlockReads(own, nested, BlocksLines(bs[1..]), digit);
      assert BlocksLines(bs) == own + nested + [""] + BlocksLines(bs[1..]);
    }
  }

  /** A block's own lines, its nested lines and the lines that follow are read one after the other. */
  lemma {:induction false} BlockReads(own: seq<string>, nested: seq<string>, rest: seq<string>, digit: char -> bool)
    requires Closed(SplitAll(own)) && Closed(SplitAll(nested)) && Closed(SplitAll(rest))
    ensures var ls := SplitAll(own + nested + [""] + rest);
            && Closed(ls)
            && LineItems(ls, digit) ==
               LineItems(SplitAll(own), digit) + LineItems(SplitAll(nested), digit) + LineItems(SplitAll(rest), digit)
  {
    hide LineItems, Closed, SplitAll;
    var a, c, d := SplitAll(own), SplitAll(nested), SplitAll(rest);
    SplitAllFour(own, nested, rest);
    BlankLine(digit);
    LineItemsAppend(a, c, digit);
    LineItemsAppend(a + c, [""], digit);
    LineItemsAppend(a + c + [""], d, digit);
    var items := LineItems(a, digit) + LineItems(c, digit);
    assert items + [] == items;
  }

  lemma {:induction false} SplitAllFour(own: seq<string>, nested: seq<string>, rest: seq<string>)
    ensures SplitAll(own + nested + [""] + rest) == SplitAll(own) + SplitAll(nested) + [""] + SplitAll(rest)
  {
    hide SplitAll;
    SplitAllAppend(own + nested + [""], rest);
    SplitAllAppend(own + nested, [""]);
    SplitAllAppend(own, nested);
    SplitAllBlank();
  }

  lemma {:induction false} SplitAllBlank()
    ensures SplitAll([""]) == [""]
  {
    assert SplitAll([""]) == [""] + SplitAll([]);
  }

  /** Reading back what was printed gives every block's kind, properties and text, in pre-order. */
  lemma {:induction false} RoundTrip(bs: seq<Block>, digit: char -> bool)
    requires WellFormed(bs, true, digit) && digit('1') && !digit('>')
    ensures Items(Read(Print(bs), digit)) == Items(bs)
  {
    var text := Join(BlocksLines(bs));
    LinesRead(bs, true, digit);
    if bs == [] {
      assert Split("") == [""];
      BlankLine(digit);
    } else {
      SplitJoin(BlocksLines(bs));
    }
    TrimReads(text, digit);
    var md := Print(bs);
    TrimReads(md, digit);
    MadeItem(Paragraph, "");
    BlankLine(digit);
  }

  // ---------------------------------------------------------------- lines as they are written

  /** The parts of a content stand one after the other. */
  lemma {:induction false} PartsJoined(a: seq<Part>, b: seq<Part>)
    ensures TextOf(Parts(a + b)) == TextOf(Parts(a)) + TextOf(Parts(b))
  {
    if a == [] {
      assert a + b == b;
    } else {
      assert (a + b)[0] == a[0] && (a + b)[1..] == a[1..] + b;
      PartsJoined(a[1..], b);
    }
  }

  lemma {:induction false} OnePart(s: string)
    ensures TextOf(Plain(s)) == s && TextOf(Parts([])) == ""
    ensures TextOf(Parts([Raw(s)])) == s && TextOf(Parts([Styled(s)])) == s
  {
    assert PartsText([Raw(s)]) == s + PartsText([Raw(s)][1..]);
    assert PartsText([Styled(s)]) == s + PartsText([Styled(s)][1..]);
  }

  lemma {:induction false} QuotedLines(ls: seq<string>)
    ensures |Quoted(ls)| == |ls| && forall i :: 0 <= i < |ls| ==> Quoted(ls)[i] == "> " + ls[i]
  {
    if ls != [] {
      QuotedLines(ls[1..]);
    }
  }

  lemma {:induction false} CellTexts(row: seq<Content>)
    ensures |Cells(row)| == |row| && forall j :: 0 <= j < |row| ==> Cells(row)[j] == TextOf(row[j])
  {
    if row != [] {
      CellTexts(row[1..]);
    }
  }

  lemma {:induction false} TableRows(rows: seq<seq<Content>>)
    ensures |TableLines(rows)| == |rows|
    ensures forall i :: 0 <= i < |rows| ==> TableLines(rows)[i] == "| " + Join(Cells(rows[i]), " | ") + " |"
  {
    if rows != [] {
      TableRows(rows[1..]);
    }
  }

  /** Joined texts: one alone as it is, and another one after the separator. */
  lemma {:induction false} JoinedMore(a: string, rest: seq<string>, sep: string)
    ensures Join([a], sep) == a && Join([], sep) == ""
    ensures rest != [] ==> Join([a] + rest, sep) == a + sep + Join(rest, sep)
  {
    assert ([a] + rest)[1..] == rest;
  }

  lemma {:induction false} HashCount(level: int)
    ensures |Hashes(level)| == (if level < 0 then 0 else level) && forall c :: c in Hashes(level) ==> c == '#'
  {
    if level > 0 {
      HashCount(level - 1);
    }
  }

  /** What a block of each kind is written as. */
  lemma {:induction false} Written(k: Kind, text: string)
    ensures var ls := OwnLines(k, text);
            match k
            case Heading(level) =>
              |ls| == 1 && exists h: string :: ls[0] == h + " " + text && |h| == (if level < 0 then 0 else level) &&
                                               forall c :: c in h ==> c == '#'
            case Bullet => ls == ["- " + text]
            case Numbered => ls == ["1. " + text]
            case Check(checked) => ls == if checked then ["- [x] " + text] else ["- [ ] " + text]
            case Code(language) => ls == ["```" + language, text, "```"]
            case Quote => |ls| == |Split(text)| && forall i :: 0 <= i < |ls| ==> ls[i] == "> " + Split(text)[i]
            case Table(rows) =>
              |ls| == |rows| &&
              forall i :: 0 <= i < |rows| ==>
                |Cells(rows[i])| == |rows[i]|
                  && (forall j :: 0 <= j < |rows[i]| ==> Cells(rows[i])[j] == TextOf(rows[i][j])) &&
                ls[i] == "| " + Join(Cells(rows[i]), " | ") + " |"
            case _ => ls == if text == "" then [] else [text]
  {
    match k
    case Heading(level) =>
      HashCount(level);
      assert OwnLines(k, text)[0] == Hashes(level) + " " + text;
    case Quote => QuotedLines(Split(text));
    case Check(checked) =>
      assert "- [" + (if checked then "x" else " ") + "] " == if checked then "- [x] " else "- [ ] ";
    case Table(rows) =>
      TableRows(rows);
      forall i | 0 <= i < |rows|
        ensures |Cells(rows[i])| == |rows[i]| && forall j :: 0 <= j < |rows[i]| ==>
                Cells(rows[i])[j] == TextOf(rows[i][j])
      {
        CellTexts(rows[i]);
      }
    case _ =>
  }

  lemma {:induction false} IndentedLines(ls: seq<string>)
    ensures |Indent(ls)| == |ls| && forall i :: 0 <= i < |ls| ==> Indent(ls)[i] == "  " + ls[i]
  {
    if ls != [] {
      IndentedLines(ls[1..]);
    }
  }

  /** A block stands before its children, two spaces further in, then comes an empty line, then the next block; the
      spaces around the whole go. */
  lemma {:induction false} Nested(b: Block, rest: seq<Block>)
    ensures var inner := Split(Print(b.children));
            var own := OwnLines(b.kind, TextOf(b.content));
            var below := if b.children == [] || Print(b.children) == "" then [] else Indent(inner);
            && BlocksLines([b] + rest) == own + below + [""] + BlocksLines(rest)
            && |Indent(inner)| == |inner| && (forall i :: 0 <= i < |inner| ==> Indent(inner)[i] == "  " + inner[i])
    ensures Print(rest) == Trim(Join(BlocksLines(rest), "\n"))
  {
    IndentedLines(Split(Print(b.children)));
    assert ([b] + rest)[1..] == rest;
  }

  // ---------------------------------------------------------------- lines that no printer wrote

  /** A star is a bullet, too. */
  lemma {:induction false} StarRead(text: string, digit: char -> bool)
    requires text != ""
    ensures LineBlock("* " + text, digit) == Block(Bullet, Parts([Styled(text)]), [])
  {
    var l := "* " + text;
    assert l[0] == '*' && l[2..] == text;
  }

  /** Up to three characters of which the first is a digit, then a dot and a space, make a numbered line. */
  lemma {:induction false} AnyNumberRead(number: string, text: string, digit: char -> bool)
    requires 1 <= |number| <= 3 && '0' <= number[0] <= '9' && digit(number[0]) && '.' !in number && text != ""
    ensures LineBlock(number + ". " + text, digit) == Block(Numbered, Parts([Styled(text)]), [])
  {
    var l := number + ". " + text;
    DotAfter(number, text);
    assert l[0] == number[0] && l[|number| + 2..] == text;
    NotMarker(l);
    hide Find;
  }

  lemma {:induction false} DotAfter(number: string, text: string)
    requires '.' !in number
    ensures Find(number + ". " + text, ". ", 0) == |number|
  {
    var l, n := number + ". " + text, |number|;
    assert l[n..n + 2] == ". ";
    assert OccursAt(l, ". ", n);
    forall i | 0 <= i < n ensures !OccursAt(l, ". ", i) {
      assert l[i] == number[i] && l[i..i + 2][0] == l[i];
    }
  }

  lemma {:induction false} NotMarker(l: string)
    requires l != "" && '0' <= l[0] <= '9'
    ensures !StartsWith(l, "### ") && !StartsWith(l, "## ") && !StartsWith(l, "# ") && !StartsWith(l, "> ")
    ensures !StartsWith(l, "- [x] ") && !StartsWith(l, "- [ ] ") && !StartsWith(l, "- ") && !StartsWith(l, "* ")
  {
  }

  /** Longer numbers make none. */
  lemma {:induction false} LongNumberRead(number: string, text: string, digit: char -> bool)
    requires |number| >= 4 && '0' <= number[0] <= '9' && '.' !in number
    ensures LineBlock(number + ". " + text, digit) == Block(Paragraph, Parts([Styled(number + ". " + text)]), [])
  {
    var l := number + ". " + text;
    DotAfter(number, text);
    assert l[0] == number[0];
    NotMarker(l);
    hide Find;
  }

  /** An empty line is an empty paragraph. */
  lemma {:induction false} BlankRead(line: string, digit: char -> bool)
    requires Trim(line) == ""
    ensures ReadLines([line], digit) == [Block(Paragraph, Parts([]), [])]
  {
    assert !IsFence(line);
    assert [line][1..] == [];
    assert ReadLines([line], digit) == [MakeBlock(Paragraph, "")] + ReadLines([], digit);
  }

  /** A code block that is not closed reaches to the end. */
  lemma {:induction false} OpenCodeRead(language: string, ls: seq<string>, digit: char -> bool)
    requires OneLine(language) && LeftTrimmed(language) && RightTrimmed(language)
    requires (forall i :: 0 <= i < |ls| ==> !IsFence(ls[i])) && Join(ls) != ""
    ensures ReadLines(["```" + language] + ls, digit) == [Block(Code(language), Parts([Styled(Join(ls))]), [])]
  {
    hide IsFence, Trim, LineBlock;
    var all := ["```" + language] + ls;
    CodeFence(language);
    assert forall j :: 1 <= j < |all| ==> all[j] == ls[j - 1];
    FenceUnique(all, 1, |all|);
    assert all[1..|all|] == ls && all[|all|..] == [];
    ReadStep(all, digit);
    assert ReadLines(all, digit) == [MakeBlock(Code(language), Join(ls))] + ReadLines([], digit);
  }

  /** A blank text is one empty paragraph; any other is read line by line. */
  lemma {:induction false} TextRead(text: string, digit: char -> bool)
    ensures Trim(text) == "" ==> Read(text, digit) == [Block(Paragraph, Parts([]), [])]
    ensures Trim(text) != "" ==> Read(text, digit) == ReadLines(Split(text), digit)
  {
    hide Trim, ReadLines, Split;
  }
}
