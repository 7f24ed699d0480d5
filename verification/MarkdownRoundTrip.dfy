/** When writing the blocks of the editor and reading them back gives the same blocks: exactly when the
    blocks are canonical. */
module MarkdownRoundTrip {
  import opened WideText
  import opened Markdown

  ghost predicate Lacks(t: Text, u: Unit) {
    forall i :: 0 <= i < |t| ==> t[i] != u
  }

  predicate EndsInCr(t: Text) {
    t != [] && t[|t| - 1] == CR
  }

  /** No pattern of a line applies. */
  predicate IsPlain(line: Text) {
    && !IsRule(Trim(line))
    && !StartsWith(line, H1_MARK) && !StartsWith(line, H2_MARK) && !StartsWith(line, H3_MARK)
    && !StartsWith(line, DASH_MARK) && !StartsWith(line, STAR_MARK) && !StartsWith(line, QUOTE_MARK)
    && OrderedText(line).None?
  }

  /** What a block of each type must avoid. */
  ghost predicate Canonical(b: Block) {
    && Lacks(b.text, LF) && Lacks(b.text, ZERO_WIDTH_SPACE)
    && (b.checked ==> b.kind.Todo?)
    && match b.kind
       case Divider => b.text == []
       case Code => !StartsWith(b.text, FENCE)
       case Paragraph => !StartsWith(b.text, FENCE) && IsPlain(b.text)
       case Bullet => BoxText(b.text).None?
       case Ordered => OneLine(b.text) && LeadingSpaces(b.text) == 0
       case Todo => OneLine(b.text)
       case _ => true
  }

  /** Only the very last line may end with a carriage return. */
  ghost predicate CanonicalList(blocks: seq<Block>) {
    blocks == []
    || (Canonical(blocks[0])
        && (EndsInCr(blocks[0].text) ==> |blocks| == 1 && !blocks[0].kind.Code?)
        && CanonicalList(blocks[1..]))
  }

  // ---- One line ----

  lemma {:induction false} ZeroWidthGone(t: Text)
    ensures |WithoutZeroWidth(t)| <= |t|
    ensures forall u :: u in WithoutZeroWidth(t) ==> u in t && u != ZERO_WIDTH_SPACE
    ensures Lacks(t, ZERO_WIDTH_SPACE) ==> WithoutZeroWidth(t) == t
  {
    if t != [] {
      ZeroWidthGone(t[1..]);
    }
  }

  lemma {:induction false} TrailingKept(t: Text)
    requires t != [] && !IsSpace(t[0])
    ensures TrailingSpaces(t) < |t|
  {
    if |t| > 1 && IsSpace(t[|t| - 1]) {
      TrailingKept(t[..|t| - 1]);
    }
  }

  lemma NotRule(line: Text)
    requires line != [] && !IsSpace(line[0])
    requires line[0] != DASH || (|line| > 1 && line[1] != DASH)
    ensures !IsRule(Trim(line))
  {
    assert line[0..] == line;
    TrailingKept(line);
    var trimmed := Trim(line);
    assert trimmed[0] == line[0];
    if |trimmed| >= 3 {
      assert trimmed[1] == line[1];
    }
  }

  lemma RuleIsRule()
    ensures IsRule(Trim(RULE))
  {
    assert LeadingSpaces(RULE) == 0;
    assert RULE[0..] == RULE;
    assert TrailingSpaces(RULE) == 0;
  }

  lemma OrderedTextOf(text: Text)
    requires OneLine(text) && LeadingSpaces(text) == 0
    ensures OrderedText(ONE_MARK + text) == Some(text)
  {
    var line := ONE_MARK + text;
    assert line[0] == 0x31 && line[1] == DOT;
    assert line[1..][0] == DOT;
    assert FirstDot(line) == 1;
    assert line[..1] == [0x31];
    var rest := line[2..];
    assert rest == [SPACE] + text;
    assert rest[1..] == text;
    assert LeadingSpaces(rest) == 1;
  }

  lemma QuoteIsNotOrdered(line: Text)
    requires StartsWith(line, QUOTE_MARK)
    ensures OrderedText(line).None?
  {
    assert line[0] == 0x3E;
    var marker := line[..FirstDot(line)];
    assert marker != [] ==> marker[0] == 0x3E;
  }

  lemma TodoTextOf(text: Text, checked: bool)
    requires OneLine(text)
    ensures TodoText(TodoMark(checked) + text) == Some(text)
  {
    var line := TodoMark(checked) + text;
    var rest := line[2..];
    assert rest == [OPEN_BRACKET, if checked then SMALL_X else SPACE, CLOSE_BRACKET, SPACE] + text;
    assert rest[4..] == text;
  }

  lemma MarkIsFirst(mark: Text, text: Text)
    ensures StartsWith(mark + text, mark)
    ensures (mark + text)[|mark|..] == text
  {
  }

  lemma {:induction false} LineReadsBack(b: Block)
    requires Canonical(b) && !b.kind.Code?
    ensures ParseLine(SerializeBlock(b)) == b && !StartsWith(SerializeBlock(b), FENCE)
  {
    hide LeadingSpaces, Trim, IsRule, OrderedText, BoxText;
    ZeroWidthGone(b.text);
    var line := SerializeBlock(b);
    MarkIsFirst(Prefix(b), b.text);
    match b.kind {
      case Divider => RuleIsRule();
      case Paragraph => assert line == b.text;
      case Ordered => NotRule(line); OrderedTextOf(b.text); assert line[0] == 0x31;
      case Todo => NotRule(line); TodoTextOf(b.text, b.checked);
      case Bullet => NotRule(line);
      case Heading1 => NotRule(line); assert line[1] == SPACE;
      case Heading2 => NotRule(line); assert line[1] == 0x23 && line[2] == SPACE;
      case Heading3 => NotRule(line); assert line[0] == 0x23;
      case Quote => NotRule(line); QuoteIsNotOrdered(line);
    }
  }

  /** A text that is part of a line. */
  ghost predicate IsPart(t: Text, line: Text) {
    |t| <= |line| && forall i :: 0 <= i < |t| ==> t[i] in line
  }

  lemma ParsedIsPart(line: Text)
    ensures IsPart(ParseLine(line).text, line)
  {
    hide Trim, IsRule;
  }

  lemma ParsedSize(line: Text)
    ensures var b := ParseLine(line);
            if b.kind.Ordered? || b.kind.Todo? then OneLine(b.text)
            else b.kind.Divider? || |line| == |Prefix(b)| + |b.text|
  {
    hide Trim, IsRule, LeadingSpaces;
  }

  /** A line that lost its final carriage return never reads back as its block. */
  lemma LossShows(b: Block, line: Text)
    requires !b.kind.Code? && line + [CR] == SerializeBlock(b)
    ensures ParseLine(line) != b
  {
    hide ParseLine;
    ZeroWidthGone(b.text);
    ParsedSize(line);
    var written := SerializeBlock(b);
    assert written[|written| - 1] == CR;
    if BlockText(b) != [] {
      var last := BlockText(b)[|BlockText(b)| - 1];
      assert written[|written| - 1] == last;
      assert last in b.text;
    }
  }

  lemma NoZeroWidth(b: Block)
    ensures ZERO_WIDTH_SPACE !in SerializeBlock(b)
  {
    ZeroWidthGone(b.text);
  }

  lemma OrderedStart(line: Text)
    requires OrderedText(line).Some?
    ensures OneLine(OrderedText(line).value) && LeadingSpaces(OrderedText(line).value) == 0
  {
  }

  lemma TodoIsOneLine(line: Text)
    requires TodoText(line).Some?
    ensures OneLine(TodoText(line).value)
  {
  }

  /** What reading a line says about the line and the block. */
  lemma ParsedShape(line: Text)
    ensures var b := ParseLine(line);
            && (b.checked ==> b.kind.Todo?)
            && match b.kind
               case Divider => b.text == []
               case Paragraph => b.text == line && IsPlain(line)
               case Bullet => TodoText(line).None?
               case Ordered => OneLine(b.text) && LeadingSpaces(b.text) == 0
               case Todo => OneLine(b.text)
               case _ => !b.kind.Code?
  {
    hide LeadingSpaces, Trim, IsRule, BoxText, OrderedText, TodoText, OneLine;
    if OrderedText(line).Some? {
      OrderedStart(line);
    }
    if TodoText(line).Some? {
      TodoIsOneLine(line);
    }
  }

  /** A line that reads back as its block comes from a canonical one. */
  lemma {:induction false} ReadBackIsCanonical(b: Block)
    requires !b.kind.Code? && Lacks(b.text, LF)
    requires ParseLine(SerializeBlock(b)) == b && !StartsWith(SerializeBlock(b), FENCE)
    ensures Canonical(b)
  {
    hide ParseLine, LeadingSpaces, BoxText, IsPlain, OneLine;
    var line := SerializeBlock(b);
    ParsedShape(line);
    ParsedIsPart(line);
    NoZeroWidth(b);
    ZeroWidthGone(b.text);
    MarkIsFirst(Prefix(b), b.text);
  }

  // ---- Joining and splitting ----

  function StripCr(line: Text): Text {
    if EndsInCr(line) then line[..|line| - 1] else line
  }

  /** The lines as they come back: all but the last have lost a final carriage return. */
  function Strip(lines: seq<Text>): seq<Text> {
    if |lines| <= 1 then lines else [StripCr(lines[0])] + Strip(lines[1..])
  }

  ghost predicate AllLackLf(lines: seq<Text>) {
    forall i :: 0 <= i < |lines| ==> Lacks(lines[i], LF)
  }

  lemma {:induction false} SplitLine(line: Text, rest: Text)
    requires Lacks(line, LF)
    ensures Split(line + [LF] + rest) == [line] + Split(rest)
  {
    if line == [] {
      assert [] + [LF] + rest == [LF] + rest;
      assert ([LF] + rest)[1..] == rest;
    } else {
      SplitLine(line[1..], rest);
      assert (line + [LF] + rest)[1..] == line[1..] + [LF] + rest;
      assert [line[0]] + line[1..] == line;
    }
  }

  lemma {:induction false} SplitLast(line: Text)
    requires Lacks(line, LF)
    ensures Split(line) == [line]
  {
    if line != [] {
      SplitLast(line[1..]);
      assert [line[0]] + line[1..] == line;
    }
  }

  lemma {:induction false} SplitJoin(lines: seq<Text>)
    requires lines != [] && AllLackLf(lines)
    ensures Split(Join(lines)) == lines
    decreases |lines|
  {
    if |lines| == 1 {
      SplitLast(lines[0]);
    } else {
      SplitJoin(lines[1..]);
      SplitLine(lines[0], Join(lines[1..]));
      assert [lines[0]] + lines[1..] == lines;
    }
  }

  lemma {:induction false} SplitLacksLf(t: Text)
    ensures AllLackLf(Split(t))
  {
    if t != [] {
      SplitLacksLf(t[1..]);
      var rest := Split(t[1..]);
      assert Lacks(rest[0], LF);
    }
  }

  lemma NormalizeKeep(u: Unit, rest: Text)
    requires !(u == CR && rest != [] && rest[0] == LF)
    ensures Normalize([u] + rest) == [u] + Normalize(rest)
  {
    assert ([u] + rest)[1..] == rest;
  }

  lemma NormalizeDrop(rest: Text)
    ensures Normalize([CR, LF] + rest) == [LF] + Normalize(rest)
  {
    assert ([CR, LF] + rest)[2..] == rest;
  }

  lemma StripCrCons(u: Unit, line: Text)
    requires line != [] || u != CR
    ensures StripCr([u] + line) == [u] + StripCr(line)
  {
  }

  lemma {:induction false} NormalizeLine(line: Text, rest: Text)
    requires Lacks(line, LF)
    ensures Normalize(line + [LF] + rest) == StripCr(line) + [LF] + Normalize(rest)
  {
    hide Normalize, StripCr;
    if line == [] {
      NormalizeKeep(LF, rest);
      assert [] + [LF] + rest == [LF] + rest;
      assert StripCr(line) == [] by { EmptyHasNoCr(); }
    } else if line == [CR] {
      NormalizeDrop(rest);
      assert [CR] + [LF] + rest == [CR, LF] + rest;
      EmptyHasNoCr();
    } else {
      var tail := line[1..];
      NormalizeLine(tail, rest);
      assert line + [LF] + rest == [line[0]] + (tail + [LF] + rest);
      NormalizeKeep(line[0], tail + [LF] + rest);
      assert line == [line[0]] + tail;
      StripCrCons(line[0], tail);
    }
  }

  lemma EmptyHasNoCr()
    ensures StripCr([]) == [] && StripCr([CR]) == []
  {
  }

  lemma {:induction false} NormalizeLast(line: Text)
    requires Lacks(line, LF)
    ensures Normalize(line) == line
  {
    if line != [] {
      NormalizeLast(line[1..]);
    }
  }

  lemma {:induction false} NormalizeJoin(lines: seq<Text>)
    requires AllLackLf(lines)
    ensures Normalize(Join(lines)) == Join(Strip(lines))
    decreases |lines|
  {
    if |lines| == 1 {
      NormalizeLast(lines[0]);
    } else if |lines| > 1 {
      NormalizeJoin(lines[1..]);
      NormalizeLine(lines[0], Join(lines[1..]));
      assert Strip(lines)[1..] == Strip(lines[1..]);
    }
  }

  lemma {:induction false} StripLacksLf(lines: seq<Text>)
    requires AllLackLf(lines)
    ensures |Strip(lines)| == |lines| && AllLackLf(Strip(lines))
    decreases |lines|
  {
    if |lines| > 1 {
      StripLacksLf(lines[1..]);
    }
  }

  /** Written lines come back as they are, but for the carriage returns. */
  lemma LinesComeBack(lines: seq<Text>)
    requires lines != [] && AllLackLf(lines)
    ensures Split(Normalize(Join(lines))) == Strip(lines)
  {
    NormalizeJoin(lines);
    StripLacksLf(lines);
    SplitJoin(Strip(lines));
  }

  // ---- Lists of blocks ----

  /** A written block followed by others, as it comes back. */
  function FirstLine(b: Block, rest: seq<Text>): Text {
    if rest == [] then SerializeBlock(b) else StripCr(SerializeBlock(b))
  }

  lemma StripCons(line: Text, rest: seq<Text>)
    ensures Strip([line] + rest) == [if rest == [] then line else StripCr(line)] + Strip(rest)
  {
    assert ([line] + rest)[1..] == rest;
  }

  lemma ParseCons(line: Text, rest: seq<Text>, inCode: bool)
    ensures ParseLines([line] + rest, inCode)
         == if StartsWith(line, FENCE) then ParseLines(rest, !inCode)
            else [if inCode then Block(Code, line, false) else ParseLine(line)] + ParseLines(rest, inCode)
  {
    hide ParseLine, StartsWith;
    assert ([line] + rest)[1..] == rest;
  }

  /** Reading the lines of a list, block by block: a fence before a block only turns the state. */
  lemma {:induction false} ReadFirst(blocks: seq<Block>, inCode: bool, state: bool)
    requires blocks != []
    ensures var isCode := blocks[0].kind.Code?;
            var rest := Lines(blocks[1..], isCode);
            ParseLines(Strip(Lines(blocks, inCode)), state)
            == ParseLines([FirstLine(blocks[0], rest)] + Strip(rest), if isCode != inCode then !state else state)
  {
    hide ParseLines, SerializeBlock, Strip;
    var isCode := blocks[0].kind.Code?;
    var rest := Lines(blocks[1..], isCode);
    var line := SerializeBlock(blocks[0]);
    StripCons(line, rest);
    if isCode != inCode {
      StripCons(FENCE, [line] + rest);
      assert [FENCE] + [line] + rest == [FENCE] + ([line] + rest);
      ParseCons(FENCE, Strip([line] + rest), state);
    } else {
      assert [] + [line] + rest == [line] + rest;
    }
  }

  /** Whatever the state, at most one block is read for each one written. */
  lemma {:induction false} NeverMore(blocks: seq<Block>, inCode: bool, state: bool)
    ensures |ParseLines(Strip(Lines(blocks, inCode)), state)| <= |blocks|
    decreases |blocks|
  {
    if blocks == [] {
      NothingReadsAsNothing(inCode, state);
    } else {
      hide SerializeBlock, ParseLine, ParseLines, Strip, Lines, FirstLine, StartsWith;
      var isCode := blocks[0].kind.Code?;
      var rest := Lines(blocks[1..], isCode);
      NeverMore(blocks[1..], isCode, state);
      NeverMore(blocks[1..], isCode, !state);
      ReadFirst(blocks, inCode, state);
      ParseCons(FirstLine(blocks[0], rest), Strip(rest), if isCode != inCode then !state else state);
    }
  }

  lemma NothingReadsAsNothing(inCode: bool, state: bool)
    ensures ParseLines(Strip(Lines([], inCode)), state) == []
  {
    if inCode {
      assert Lines([], inCode) == [FENCE];
      ParseCons(FENCE, [], state);
      assert [FENCE] + [] == [FENCE];
    }
  }

  lemma {:induction false} ListReadsBack(blocks: seq<Block>, inCode: bool)
    requires CanonicalList(blocks)
    ensures ParseLines(Strip(Lines(blocks, inCode)), inCode) == blocks
    decreases |blocks|
  {
    if blocks == [] {
      NothingReadsAsNothing(inCode, inCode);
    } else {
      var b := blocks[0];
      var isCode := b.kind.Code?;
      var rest := Lines(blocks[1..], isCode);
      ListReadsBack(blocks[1..], isCode);
      ReadFirst(blocks, inCode, inCode);
      FirstIsKept(b, rest, |blocks| == 1);
      ParseCons(SerializeBlock(b), Strip(rest), isCode);
      WrittenReadsBack(b);
    }
  }

  lemma WrittenReadsBack(b: Block)
    requires Canonical(b)
    ensures !StartsWith(SerializeBlock(b), FENCE)
    ensures (if b.kind.Code? then Block(Code, SerializeBlock(b), false) else ParseLine(SerializeBlock(b))) == b
  {
    hide ParseLine;
    if b.kind.Code? {
      ZeroWidthGone(b.text);
    } else {
      LineReadsBack(b);
    }
  }

  lemma FirstIsKept(b: Block, rest: seq<Text>, last: bool)
    requires Canonical(b) && (EndsInCr(b.text) ==> last && !b.kind.Code?)
    requires last && !b.kind.Code? ==> rest == []
    ensures FirstLine(b, rest) == SerializeBlock(b)
  {
    ZeroWidthGone(b.text);
  }

  /** A line of code that reads back as its block, or one that lost its carriage return. */
  lemma CodeIsCanonical(b: Block, line: Text)
    requires b.kind.Code? && Lacks(b.text, LF)
    requires line == SerializeBlock(b) || line + [CR] == SerializeBlock(b)
    requires Block(Code, line, false) == b && !StartsWith(line, FENCE)
    ensures Canonical(b) && line == SerializeBlock(b)
  {
    ZeroWidthGone(b.text);
    assert line + [CR] == SerializeBlock(b) ==> |line| < |BlockText(b)|;
    var kept := WithoutZeroWidth(b.text);
    assert line == kept;
    forall i | 0 <= i < |b.text|
      ensures b.text[i] != ZERO_WIDTH_SPACE
    {
      assert b.text[i] == kept[i] && kept[i] in kept;
    }
  }

  lemma FirstIsCanonical(b: Block, rest: seq<Text>)
    requires Lacks(b.text, LF)
    requires (if b.kind.Code? then Block(Code, FirstLine(b, rest), false) else ParseLine(FirstLine(b, rest))) == b
    requires !StartsWith(FirstLine(b, rest), FENCE)
    ensures Canonical(b) && FirstLine(b, rest) == SerializeBlock(b)
    ensures EndsInCr(b.text) ==> rest == []
  {
    hide ParseLine, SerializeBlock;
    var line := FirstLine(b, rest);
    if line != SerializeBlock(b) {
      assert line + [CR] == SerializeBlock(b);
    }
    if b.kind.Code? {
      CodeIsCanonical(b, line);
    } else {
      if line != SerializeBlock(b) {
        LossShows(b, line);
      }
      ReadBackIsCanonical(b);
    }
    TextEndsLine(b);
  }

  lemma TextEndsLine(b: Block)
    requires Canonical(b)
    ensures EndsInCr(b.text) ==> EndsInCr(SerializeBlock(b))
  {
    ZeroWidthGone(b.text);
  }

  ghost predicate TextsLackLf(blocks: seq<Block>) {
    forall i :: 0 <= i < |blocks| ==> Lacks(blocks[i].text, LF)
  }

  lemma {:induction false} ListIsCanonical(blocks: seq<Block>, inCode: bool)
    requires TextsLackLf(blocks)
    requires ParseLines(Strip(Lines(blocks, inCode)), inCode) == blocks
    ensures CanonicalList(blocks)
    decreases |blocks|
  {
    if blocks != [] {
      hide ParseLines, ParseLine, Strip, FirstLine, Canonical;
      var b := blocks[0];
      var isCode := b.kind.Code?;
      var rest := Lines(blocks[1..], isCode);
      ReadFirst(blocks, inCode, inCode);
      ParseCons(FirstLine(b, rest), Strip(rest), isCode);
      NeverMore(blocks[1..], isCode, !isCode);
      ListIsCanonical(blocks[1..], isCode);
      FirstIsCanonical(b, rest);
    }
  }

  lemma WrittenLacksLf(b: Block)
    requires Lacks(b.text, LF)
    ensures Lacks(SerializeBlock(b), LF)
  {
    ZeroWidthGone(b.text);
    assert LF !in b.text;
    assert LF !in BlockText(b);
    assert LF !in Prefix(b);
  }

  lemma {:induction false} LinesLackLf(blocks: seq<Block>, inCode: bool)
    requires TextsLackLf(blocks)
    ensures Lines(blocks, inCode) != [] || blocks == []
    ensures AllLackLf(Lines(blocks, inCode))
    decreases |blocks|
  {
    if blocks != [] {
      LinesLackLf(blocks[1..], blocks[0].kind.Code?);
      WrittenLacksLf(blocks[0]);
    }
  }

  lemma {:induction false} ReadTextsLackLf(lines: seq<Text>, inCode: bool)
    requires AllLackLf(lines)
    ensures TextsLackLf(ParseLines(lines, inCode))
    decreases |lines|
  {
    if lines != [] {
      hide ParseLine;
      ReadTextsLackLf(lines[1..], inCode);
      ReadTextsLackLf(lines[1..], !inCode);
      ParsedIsPart(lines[0]);
    }
  }

  lemma {:induction false} CanonicalLacksLf(blocks: seq<Block>)
    requires CanonicalList(blocks)
    ensures TextsLackLf(blocks)
    decreases |blocks|
  {
    if blocks != [] {
      CanonicalLacksLf(blocks[1..]);
    }
  }

  lemma EmptyParagraphIsCanonical()
    ensures CanonicalList([Block(Paragraph, [], false)])
  {
  }

  lemma CanonicalComesBack(blocks: seq<Block>)
    requires blocks != [] && CanonicalList(blocks)
    ensures Parsed(Serialized(blocks)) == blocks
  {
    CanonicalLacksLf(blocks);
    LinesLackLf(blocks, false);
    LinesComeBack(Lines(blocks, false));
    ListReadsBack(blocks, false);
  }

  lemma OnlyCanonicalComesBack(blocks: seq<Block>)
    requires blocks != [] && Parsed(Serialized(blocks)) == blocks
    ensures CanonicalList(blocks)
  {
    var lines := Lines(blocks, false);
    SplitLacksLf(Normalize(Serialized(blocks)));
    ReadTextsLackLf(Split(Normalize(Serialized(blocks))), false);
    assert TextsLackLf(blocks);
    LinesLackLf(blocks, false);
    LinesComeBack(lines);
    if ParseLines(Strip(lines), false) == [] {
      EmptyParagraphIsCanonical();
    } else {
      ListIsCanonical(blocks, false);
    }
  }

  /** For every list of blocks: reading what was written gives the same blocks exactly when the list is
      canonical. */
  lemma RoundTripIff(blocks: seq<Block>)
    requires blocks != []
    ensures Parsed(Serialized(blocks)) == blocks <==> CanonicalList(blocks)
  {
    hide Parsed, Serialized, CanonicalList;
    if CanonicalList(blocks) {
      CanonicalComesBack(blocks);
    } else if Parsed(Serialized(blocks)) == blocks {
      OnlyCanonicalComesBack(blocks);
    }
  }
}
