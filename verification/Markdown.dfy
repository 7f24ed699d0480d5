/** The block editor's text form: parseMarkdown, serializeBlock and serializeEditor of ui/app.js. */
module Markdown {
  import opened WideText

  const TAB: Unit := 0x09
  const LF: Unit := 0x0A
  const CR: Unit := 0x0D
  const SPACE: Unit := 0x20
  const ZERO_WIDTH_SPACE: Unit := 0x200B

  const FENCE: Text := [0x60, 0x60, 0x60]
  const H1_MARK: Text := [0x23, SPACE]
  const H2_MARK: Text := [0x23, 0x23, SPACE]
  const H3_MARK: Text := [0x23, 0x23, 0x23, SPACE]
  const DASH_MARK: Text := [0x2D, SPACE]
  const STAR_MARK: Text := [0x2A, SPACE]
  const QUOTE_MARK: Text := [0x3E, SPACE]
  const ONE_MARK: Text := [0x31, 0x2E, SPACE]
  const RULE: Text := [0x2D, 0x2D, 0x2D]
  const DASH: Unit := 0x2D
  const DOT: Unit := 0x2E
  const OPEN_BRACKET: Unit := 0x5B
  const CLOSE_BRACKET: Unit := 0x5D
  const SMALL_X: Unit := 0x78
  const CAPITAL_X: Unit := 0x58

  datatype Kind = Paragraph | Heading1 | Heading2 | Heading3 | Bullet | Ordered | Todo | Quote | Divider | Code

  /** A block of the editor: its type, its text content, and its check mark. */
  datatype Block = Block(kind: Kind, text: Text, checked: bool)

  // ---- Characters and patterns ----

  /** White space of the source language's `\s` and `trim`. */
  predicate IsSpace(u: Unit) {
    0x09 <= u <= 0x0D || u == SPACE || u == 0xA0 || u == 0x1680 || 0x2000 <= u <= 0x200A
    || u == 0x2028 || u == 0x2029 || u == 0x202F || u == 0x205F || u == 0x3000 || u == 0xFEFF
  }

  /** What `.` does not match. */
  predicate IsTerminator(u: Unit) {
    u == LF || u == CR || u == 0x2028 || u == 0x2029
  }

  predicate OneLine(t: Text) {
    forall i :: 0 <= i < |t| ==> !IsTerminator(t[i])
  }

  predicate StartsWith(line: Text, mark: Text) {
    |mark| <= |line| && forall i :: 0 <= i < |mark| ==> line[i] == mark[i]
  }

  /** How many units of white space a text starts with. */
  function LeadingSpaces(t: Text): (n: nat)
    ensures n <= |t|
    ensures n < |t| ==> !IsSpace(t[n])
  {
    if t == [] || !IsSpace(t[0]) then 0 else 1 + LeadingSpaces(t[1..])
  }

  function TrailingSpaces(t: Text): (n: nat)
    ensures n <= |t|
  {
    if t == [] || !IsSpace(t[|t| - 1]) then 0 else 1 + TrailingSpaces(t[..|t| - 1])
  }

  function Trim(t: Text): Text {
    var rest := t[LeadingSpaces(t)..];
    rest[..|rest| - TrailingSpaces(rest)]
  }

  /** Three or more dashes and nothing else. */
  predicate IsRule(t: Text) {
    |t| >= 3 && forall i :: 0 <= i < |t| ==> t[i] == DASH
  }

  /** A check box, its mark, and the text after one optional unit of white space. */
  function BoxText(t: Text): Option<Text> {
    if |t| < 3 || t[0] != OPEN_BRACKET || t[2] != CLOSE_BRACKET then None
    else if t[1] != SPACE && t[1] != SMALL_X && t[1] != CAPITAL_X then None
    else if |t| > 3 && IsSpace(t[3]) && OneLine(t[4..]) then Some(t[4..])
    else if OneLine(t[3..]) then Some(t[3..])
    else None
  }

  function TodoText(line: Text): Option<Text> {
    if StartsWith(line, DASH_MARK) then BoxText(line[2..]) else None
  }

  predicate IsDigit(u: Unit) {
    0x30 <= u <= 0x39
  }

  predicate IsLetter(u: Unit) {
    0x41 <= u <= 0x5A || 0x61 <= u <= 0x7A
  }

  const ROMAN: Text := [0x69, 0x76, 0x78, 0x6C, 0x63, 0x64, 0x6D, 0x49, 0x56, 0x58, 0x4C, 0x43, 0x44, 0x4D]

  /** A number, one letter, or Roman numerals. */
  predicate IsLabel(t: Text) {
    || (t != [] && forall i :: 0 <= i < |t| ==> IsDigit(t[i]))
    || (|t| == 1 && IsLetter(t[0]))
    || (t != [] && forall i :: 0 <= i < |t| ==> t[i] in ROMAN)
  }

  /** Where the first dot is, or the length. */
  function FirstDot(t: Text): (n: nat)
    ensures n <= |t|
    ensures n < |t| ==> t[n] == DOT
    ensures forall i :: 0 <= i < n ==> t[i] != DOT
  {
    if t == [] || t[0] == DOT then 0 else 1 + FirstDot(t[1..])
  }

  /** A label, a dot, white space, and the text after all of it. */
  function OrderedText(line: Text): Option<Text> {
    var dot := FirstDot(line);
    if dot == |line| || !IsLabel(line[..dot]) then None
    else
      var rest := line[dot + 1..];
      var spaces := LeadingSpaces(rest);
      if spaces > 0 && OneLine(rest[spaces..]) then Some(rest[spaces..]) else None
  }

  // ---- Reading ----

  /** The block a line outside code stands for, in the order in which the patterns are tried. */
  function ParseLine(line: Text): Block {
    if IsRule(Trim(line)) then Block(Divider, [], false)
    else if TodoText(line).Some? then Block(Todo, TodoText(line).value, line[3] == SMALL_X || line[3] == CAPITAL_X)
    else if StartsWith(line, H3_MARK) then Block(Heading3, line[4..], false)
    else if StartsWith(line, H2_MARK) then Block(Heading2, line[3..], false)
    else if StartsWith(line, H1_MARK) then Block(Heading1, line[2..], false)
    else if StartsWith(line, DASH_MARK) || StartsWith(line, STAR_MARK) then Block(Bullet, line[2..], false)
    else if OrderedText(line).Some? then Block(Ordered, OrderedText(line).value, false)
    else if StartsWith(line, QUOTE_MARK) then Block(Quote, line[2..], false)
    else Block(Paragraph, line, false)
  }

  function ParseLines(lines: seq<Text>, inCode: bool): seq<Block>
    decreases |lines|
  {
    if lines == [] then []
    else if StartsWith(lines[0], FENCE) then ParseLines(lines[1..], !inCode)
    else [if inCode then Block(Code, lines[0], false) else ParseLine(lines[0])] + ParseLines(lines[1..], inCode)
  }

  /** A carriage return before a line feed goes away. */
  function Normalize(t: Text): Text {
    if t == [] then []
    else if |t| >= 2 && t[0] == CR && t[1] == LF then [LF] + Normalize(t[2..])
    else [t[0]] + Normalize(t[1..])
  }

  function Split(t: Text): (lines: seq<Text>)
    ensures lines != []
  {
    if t == [] then [[]]
    else if t[0] == LF then [[]] + Split(t[1..])
    else
      var rest := Split(t[1..]);
      [[t[0]] + rest[0]] + rest[1..]
  }

  function Parsed(text: Text): seq<Block> {
    var blocks := ParseLines(Split(Normalize(text)), false);
    if blocks == [] then [Block(Paragraph, [], false)] else blocks
  }

  lemma ParseLinesStep(lines: seq<Text>, k: nat, inCode: bool, before: seq<Block>)
    requires k < |lines|
    ensures before + ParseLines(lines[k..], inCode)
         == if StartsWith(lines[k], FENCE) then before + ParseLines(lines[k + 1..], !inCode)
            else before + [if inCode then Block(Code, lines[k], false) else ParseLine(lines[k])] + ParseLines(lines[k + 1..], inCode)
  {
    hide ParseLine, StartsWith;
    assert lines[k..][1..] == lines[k + 1..];
  }

  method ParseMarkdown(text: Text) returns (blocks: seq<Block>)
    ensures blocks == Parsed(text)
  {
    var normalized := Normalize(text);
    var lines := if |normalized| == 0 then [[]] else Split(normalized);
    blocks := [];
    var inCode := false;
    for k := 0 to |lines|
      invariant blocks + ParseLines(lines[k..], inCode) == ParseLines(lines, false)
    {
      hide ParseLines, ParseLine, StartsWith;
      var line := lines[k];
      ParseLinesStep(lines, k, inCode, blocks);
      if StartsWith(line, FENCE) {
        inCode := !inCode;
        continue;
      }
      if inCode {
        blocks := blocks + [Block(Code, line, false)];
        continue;
      }
      blocks := blocks + [ParseLine(line)];
    }
    if |blocks| == 0 {
      blocks := [Block(Paragraph, [], false)];
    }
  }

  // ---- Writing ----

  function WithoutZeroWidth(t: Text): Text {
    if t == [] then []
    else (if t[0] == ZERO_WIDTH_SPACE then [] else [t[0]]) + WithoutZeroWidth(t[1..])
  }

  function BlockText(b: Block): Text {
    if b.kind.Divider? then [] else WithoutZeroWidth(b.text)
  }

  function TodoMark(checked: bool): Text {
    [DASH, SPACE, OPEN_BRACKET, if checked then SMALL_X else SPACE, CLOSE_BRACKET, SPACE]
  }

  function Prefix(b: Block): Text {
    match b.kind
    case Heading1 => H1_MARK
    case Heading2 => H2_MARK
    case Heading3 => H3_MARK
    case Bullet => DASH_MARK
    case Ordered => ONE_MARK
    case Todo => TodoMark(b.checked)
    case Quote => QUOTE_MARK
    case _ => []
  }

  function SerializeBlock(b: Block): Text {
    if b.kind.Divider? then RULE else Prefix(b) + BlockText(b)
  }

  /** The lines of a list of blocks; a run of code blocks stands between two fences. */
  function Lines(blocks: seq<Block>, inCode: bool): seq<Text>
    decreases |blocks|
  {
    if blocks == [] then (if inCode then [FENCE] else [])
    else
      var isCode := blocks[0].kind.Code?;
      (if isCode != inCode then [FENCE] else []) + [SerializeBlock(blocks[0])] + Lines(blocks[1..], isCode)
  }

  function Join(lines: seq<Text>): Text {
    if lines == [] then []
    else if |lines| == 1 then lines[0]
    else lines[0] + [LF] + Join(lines[1..])
  }

  function Serialized(blocks: seq<Block>): Text {
    Join(Lines(blocks, false))
  }

  lemma LinesStep(blocks: seq<Block>, k: nat, inCode: bool, before: seq<Text>)
    requires k < |blocks|
    ensures var isCode := blocks[k].kind.Code?;
            && before + Lines(blocks[k..], inCode)
               == (if isCode != inCode then before + [FENCE] else before) + [SerializeBlock(blocks[k])] + Lines(blocks[k + 1..], isCode)
            && (isCode ==> SerializeBlock(blocks[k]) == BlockText(blocks[k]))
  {
    assert blocks[k..][1..] == blocks[k + 1..];
  }

  lemma LinesEnd(blocks: seq<Block>, inCode: bool, lines: seq<Text>)
    ensures lines + Lines(blocks[|blocks|..], inCode) == if inCode then lines + [FENCE] else lines
    ensures |lines| == 1 && lines[0] == [] ==> Join(lines) == []
  {
  }

  method SerializeEditor(blocks: seq<Block>) returns (text: Text)
    ensures text == Serialized(blocks)
  {
    hide Lines, SerializeBlock, BlockText, Join;
    var lines := [];
    var inCode := false;
    assert blocks[0..] == blocks;
    for k := 0 to |blocks|
      invariant lines + Lines(blocks[k..], inCode) == Lines(blocks, false)
    {
      var block := blocks[k];
      LinesStep(blocks, k, inCode, lines);
      if block.kind.Code? {
        if !inCode {
          lines := lines + [FENCE];
          inCode := true;
        }
        lines := lines + [BlockText(block)];
        continue;
      }
      if inCode {
        lines := lines + [FENCE];
        inCode := false;
      }
      lines := lines + [SerializeBlock(block)];
    }
    LinesEnd(blocks, inCode, lines);
    if inCode {
      lines := lines + [FENCE];
    }
    if |lines| == 1 && lines[0] == [] {
      return [];
    }
    text := Join(lines);
  }
}
