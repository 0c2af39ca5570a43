/** Notes as Markdown: the editor's blocks printed as text and text read back as blocks
    (backend/app/routers/notes.py). */
module Markdown {
  import opened Lines
  import opened Text

  // ---------------------------------------------------------------- blocks

  /** A piece of inline content: a bare string, or an object with a text. */
  datatype Part = Raw(s: string) | Styled(text: string)

  datatype Content = Plain(s: string) | Parts(parts: seq<Part>)

  datatype Kind =
    | Heading(level: int)
    | Bullet
    | Numbered
    | Check(checked: bool)
    | Code(language: string)
    | Quote
    | Table(rows: seq<seq<Content>>)
    | Paragraph
    | Media

  datatype Block = Block(kind: Kind, content: Content, children: seq<Block>)

  function PartText(p: Part): string {
    match p
    case Raw(s) => s
    case Styled(t) => t
  }

  function PartsText(ps: seq<Part>): string {
    if ps == [] then "" else PartText(ps[0]) + PartsText(ps[1..])
  }

  function TextOf(c: Content): string {
    match c
    case Plain(s) => s
    case Parts(ps) => PartsText(ps)
  }

  // ---------------------------------------------------------------- printing

  function Hashes(level: int): string {
    if level <= 0 then "" else "#" + Hashes(level - 1)
  }

  function Quoted(ls: seq<string>): seq<string> {
    if ls == [] then [] else ["> " + ls[0]] + Quoted(ls[1..])
  }

  function Cells(row: seq<Content>): seq<string> {
    if row == [] then [] else [TextOf(row[0])] + Cells(row[1..])
  }

  function TableLines(rows: seq<seq<Content>>): seq<string> {
    if rows == [] then [] else ["| " + Join(Cells(rows[0]), " | ") + " |"] + TableLines(rows[1..])
  }

  /** The lines of a block itself. */
  function OwnLines(k: Kind, text: string): seq<string> {
    match k
    case Heading(level) => [Hashes(level) + " " + text]
    case Bullet => ["- " + text]
    case Numbered => ["1. " + text]
    case Check(checked) => ["- [" + (if checked then "x" else " ") + "] " + text]
    case Code(language) => ["```" + language, text, "```"]
    case Quote => Quoted(Split(text))
    case Table(rows) => TableLines(rows)
    case Paragraph => if text == "" then [] else [text]
    case Media => if text == "" then [] else [text]
  }

  function Indent(ls: seq<string>): seq<string> {
    if ls == [] then [] else ["  " + ls[0]] + Indent(ls[1..])
  }

  function ChildLines(md: string): seq<string> {
    if md == "" then [] else Indent(Split(md))
  }

  function BlockLines(b: Block): seq<string>
    decreases b, 2
  {
    OwnLines(b.kind, TextOf(b.content)) + (if b.children == [] then [] else ChildLines(Print(b.children))) + [""]
  }

  function BlocksLines(bs: seq<Block>): seq<string>
    decreases bs, 0
  {
    if bs == [] then [] else BlockLines(bs[0]) + BlocksLines(bs[1..])
  }

  /** The Markdown of a list of blocks. */
  function Print(bs: seq<Block>): string
    decreases bs, 1
  {
    Trim(Join(BlocksLines(bs)))
  }

  method ExtractInlineText(content: Content) returns (text: string)
    ensures text == TextOf(content)
  {
    match content
    case Plain(s) => text := s;
    case Parts(ps) =>
      text := "";
      for i := 0 to |ps|
        invariant text + PartsText(ps[i..]) == PartsText(ps)
      {
        text := text + PartText(ps[i]);
      }
  }

  method PrintTable(rows: seq<seq<Content>>) returns (lines: seq<string>)
    ensures lines == TableLines(rows)
  {
    lines := [];
    for i := 0 to |rows|
      invariant lines + TableLines(rows[i..]) == TableLines(rows)
    {
      var cells: seq<string> := [];
      for j := 0 to |rows[i]|
        invariant cells + Cells(rows[i][j..]) == Cells(rows[i])
      {
        var cell := ExtractInlineText(rows[i][j]);
        cells := cells + [cell];
        assert rows[i][j..][1..] == rows[i][j + 1..];
      }
      assert cells == Cells(rows[i]);
      lines := lines + ["| " + Join(cells, " | ") + " |"];
      assert rows[i..][1..] == rows[i + 1..];
    }
  }

  method PrintOwn(b: Block) returns (lines: seq<string>)
    ensures lines == OwnLines(b.kind, TextOf(b.content))
  {
    var text := ExtractInlineText(b.content);
    match b.kind
    case Heading(level) => lines := [Hashes(level) + " " + text];
    case Bullet => lines := ["- " + text];
    case Numbered => lines := ["1. " + text];
    case Check(checked) => lines := ["- [" + (if checked then "x" else " ") + "] " + text];
    case Code(language) => lines := ["```" + language, text, "```"];
    case Quote =>
      lines := [];
      var parts := Split(text);
      for i := 0 to |parts|
        invariant lines + Quoted(parts[i..]) == Quoted(parts)
      {
        lines := lines + ["> " + parts[i]];
        assert parts[i..][1..] == parts[i + 1..];
      }
    case Table(rows) => lines := PrintTable(rows);
    case _ => lines := if text != "" then [text] else [];
  }

  method PrintNested(childMd: string) returns (lines: seq<string>)
    ensures lines == ChildLines(childMd)
  {
    lines := [];
    if childMd != "" {
      var parts := Split(childMd);
      for j := 0 to |parts|
        invariant lines + Indent(parts[j..]) == Indent(parts)
      {
        lines := lines + ["  " + parts[j]];
        assert parts[j..][1..] == parts[j + 1..];
      }
    }
  }

  /** The printer, nested blocks indented below their parent. */
  method BlocknoteToMarkdown(blocks: seq<Block>) returns (md: string)
    ensures md == Print(blocks)
    decreases blocks
  {
    var lines: seq<string> := [];
    for i := 0 to |blocks|
      invariant lines + BlocksLines(blocks[i..]) == BlocksLines(blocks)
    {
      var own := PrintOwn(blocks[i]);
      var nested: seq<string> := [];
      if blocks[i].children != [] {
        var childMd := BlocknoteToMarkdown(blocks[i].children);
        nested := PrintNested(childMd);
      }
      ConcatAssoc(lines, own + nested + [""], BlocksLines(blocks[i + 1..]));
      lines := lines + (own + nested + [""]);
    }
    assert lines == BlocksLines(blocks);
    md := Trim(Join(lines));
  }

  // ---------------------------------------------------------------- reading

  predicate StartsWith(s: string, prefix: string) {
    prefix <= s
  }

  function MakeBlock(kind: Kind, text: string): Block {
    Block(kind, Parts(if text == "" then [] else [Styled(text)]), [])
  }

  predicate IsFence(line: string) {
    StartsWith(Trim(line), "```")
  }

  /** A digit first and ". " within the first five characters; `digit` is the Unicode digit test. */
  predicate LooksNumbered(s: string, digit: char -> bool) {
    |s| > 2 && digit(s[0]) && 0 <= Find(s, ". ", 0) <= 3
  }

  /** The block of one line that neither is blank nor opens a code block. */
  function LineBlock(s: string, digit: char -> bool): Block {
    if StartsWith(s, "### ") then MakeBlock(Heading(3), s[4..])
    else if StartsWith(s, "## ") then MakeBlock(Heading(2), s[3..])
    else if StartsWith(s, "# ") then MakeBlock(Heading(1), s[2..])
    else if StartsWith(s, "- [x] ") || StartsWith(s, "- [ ] ") then MakeBlock(Check(StartsWith(s, "- [x]")), s[6..])
    else if StartsWith(s, "- ") || StartsWith(s, "* ") then MakeBlock(Bullet, s[2..])
    else if LooksNumbered(s, digit) then MakeBlock(Numbered, s[Find(s, ". ", 0) + 2..])
    else if StartsWith(s, "> ") then MakeBlock(Quote, s[2..])
    else MakeBlock(Paragraph, s)
  }

  /** The first line at or after `i` that closes a code block; the number of lines if none does. */
  function FenceFrom(ls: seq<string>, i: nat): (r: nat)
    requires i <= |ls|
    ensures i <= r <= |ls|
    ensures forall j :: i <= j < r ==> !IsFence(ls[j])
    ensures r < |ls| ==> IsFence(ls[r])
    decreases |ls| - i
  {
    if i == |ls| || IsFence(ls[i]) then i else FenceFrom(ls, i + 1)
  }

  /** How many lines the block that the first line opens takes. */
  function Taken(ls: seq<string>): (n: nat)
    requires ls != []
    ensures 1 <= n <= |ls|
  {
    if !IsFence(ls[0]) then 1 else
    var e := FenceFrom(ls, 1);
    if e < |ls| then e + 1 else e
  }

  function FirstBlock(ls: seq<string>, digit: char -> bool): Block
    requires ls != []
  {
    if Trim(ls[0]) == "" then MakeBlock(Paragraph, "")
    else if IsFence(ls[0]) then MakeBlock(Code(Trim(Trim(ls[0])[3..])), Join(ls[1..FenceFrom(ls, 1)]))
    else LineBlock(Trim(ls[0]), digit)
  }

  function ReadLines(ls: seq<string>, digit: char -> bool): seq<Block>
    decreases |ls|
  {
    if ls == [] then [] else [FirstBlock(ls, digit)] + ReadLines(ls[Taken(ls)..], digit)
  }

  /** The blocks of a text. */
  function Read(text: string, digit: char -> bool): seq<Block> {
    if Trim(text) == "" then [MakeBlock(Paragraph, "")] else ReadLines(Split(text), digit)
  }

  /** The lines of a code block from `start` on, and the place just past its closing fence. */
  method ReadCode(lines: seq<string>, start: nat) returns (code: string, next: nat)
    requires start < |lines|
    ensures var e := FenceFrom(lines, start + 1);
            code == Join(lines[start + 1..e]) && next == if e < |lines| then e + 1 else e
  {
    var codeLines: seq<string> := [];
    var i := start + 1;
    while i < |lines| && !IsFence(lines[i])
      invariant start < i <= |lines|
      invariant codeLines == lines[start + 1..i]
      invariant FenceFrom(lines, start + 1) == FenceFrom(lines, i)
    {
      codeLines := codeLines + [lines[i]];
      i := i + 1;
    }
    code, next := Join(codeLines), if i < |lines| then i + 1 else i;
  }

  /** One turn of the reader: the block that opens at line `i`, and the line after it. */
  method ReadOne(lines: seq<string>, i: nat, digit: char -> bool) returns (block: Block, next: nat)
    requires i < |lines|
    ensures i < next <= |lines| && FirstBlock(lines[i..], digit) == block && Taken(lines[i..]) == next - i
  {
    var stripped := Trim(lines[i]);
    if stripped == "" {
      return MakeBlock(Paragraph, ""), i + 1;
    }
    if StartsWith(stripped, "```") {
      var code, after := ReadCode(lines, i);
      ReadCodeBlock(lines, i, digit);
      return MakeBlock(Code(Trim(stripped[3..])), code), after;
    }
    return LineBlock(stripped, digit), i + 1;
  }

  /** The reader, one pass over the lines. */
  method TextToBlocknote(text: string, digit: char -> bool) returns (blocks: seq<Block>)
    ensures blocks == Read(text, digit)
  {
    hide FirstBlock, Taken, Trim, ReadLines;
    if Trim(text) == "" {
      return [MakeBlock(Paragraph, "")];
    }
    blocks := [];
    var lines := Split(text);
    var i := 0;
    while i < |lines|
      invariant 0 <= i <= |lines|
      invariant blocks + ReadLines(lines[i..], digit) == ReadLines(lines, digit)
    {
      var block, next := ReadOne(lines, i, digit);
      assert lines[i..][next - i..] == lines[next..];
      ReadStep(lines[i..], digit);
      ConcatAssoc(blocks, [block], ReadLines(lines[next..], digit));
      blocks, i := blocks + [block], next;
    }
    ReadNone(digit);
    assert lines[i..] == [] && blocks + [] == blocks;
  }

  lemma {:induction false} ReadStep(ls: seq<string>, digit: char -> bool)
    requires ls != []
    ensures ReadLines(ls, digit) == [FirstBlock(ls, digit)] + ReadLines(ls[Taken(ls)..], digit)
  {
  }

  lemma {:induction false} ReadNone(digit: char -> bool)
    ensures ReadLines([], digit) == []
  {
  }

  lemma {:induction false} ReadCodeBlock(ls: seq<string>, i: nat, digit: char -> bool)
    requires i < |ls| && Trim(ls[i]) != "" && IsFence(ls[i])
    ensures var e := FenceFrom(ls, i + 1);
            && FirstBlock(ls[i..], digit) == MakeBlock(Code(Trim(Trim(ls[i])[3..])), Join(ls[i + 1..e]))
            && Taken(ls[i..]) == (if e < |ls| then e + 1 else e) - i
  {
    var e := FenceFrom(ls, i + 1);
    assert ls[i..][1..e - i] == ls[i + 1..e];
  }
}
