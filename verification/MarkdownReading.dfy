/** Every spelling that loading a document gives a meaning (ui/app.js parseMarkdown), as built lines: each is read
    as its block, and every line that is none of them is a paragraph. */
module MarkdownReading {
  import opened WideText
  import opened Markdown

  /** The ways to write a line that is no paragraph. */
  datatype Spelling =
    | Rule(before: Text, dashes: nat, after: Text)
    | Box(mark: Unit, gap: Text, text: Text)
    | Heading(level: nat, text: Text)
    | Item(star: bool, text: Text)
    | Numbered(number: Text, gap: Text, text: Text)
    | Quotation(text: Text)

  function Repeat(u: Unit, n: nat): (t: Text)
    ensures |t| == n && forall i :: 0 <= i < n ==> t[i] == u
  {
    seq(n, _ => u)
  }

  function Spell(sp: Spelling): Text {
    match sp
    case Rule(before, dashes, after) => before + Repeat(0x2D, dashes) + after
    case Box(mark, gap, text) => [0x2D, 0x20, 0x5B, mark, 0x5D] + gap + text
    case Heading(level, text) => Repeat(0x23, level) + [0x20] + text
    case Item(star, text) => [if star then 0x2A else 0x2D, 0x20] + text
    case Numbered(number, gap, text) => number + [0x2E] + gap + text
    case Quotation(text) => [0x3E, 0x20] + text
  }

  function Meaning(sp: Spelling): Block {
    match sp
    case Rule(_, _, _) => Block(Divider, [], false)
    case Box(mark, _, text) => Block(Todo, text, mark != 0x20)
    case Heading(level, text) => Block(if level == 1 then Heading1 else if level == 2 then Heading2 else Heading3, text, false)
    case Item(_, text) => Block(Bullet, text, false)
    case Numbered(_, _, text) => Block(Ordered, text, false)
    case Quotation(text) => Block(Quote, text, false)
  }

  predicate AllSpace(t: Text) {
    forall i :: 0 <= i < |t| ==> IsSpace(t[i])
  }

  predicate StartsInk(t: Text) {
    t == [] || !IsSpace(t[0])
  }

  /** A number, one letter, or numerals of the Roman letters in either case. */
  predicate CanLabel(t: Text) {
    && t != []
    && ((forall i :: 0 <= i < |t| ==> 0x30 <= t[i] <= 0x39)
        || (|t| == 1 && (0x41 <= t[0] <= 0x5A || 0x61 <= t[0] <= 0x7A))
        || (forall i :: 0 <= i < |t| ==>
              t[i] in {0x49, 0x56, 0x58, 0x4C, 0x43, 0x44, 0x4D, 0x69, 0x76, 0x78, 0x6C, 0x63, 0x64, 0x6D}))
  }

  predicate IsRuleSpelling(sp: Spelling) {
    sp.Rule? && sp.dashes >= 3 && AllSpace(sp.before) && AllSpace(sp.after)
  }

  /** A box takes any of the three marks, and one unit of white space or none, but never leaves white space to
      the text when it could take it. */
  predicate IsBoxSpelling(sp: Spelling) {
    && sp.Box? && (sp.mark == 0x20 || sp.mark == 0x78 || sp.mark == 0x58)
    && OneLine(sp.text) && |sp.gap| <= 1 && AllSpace(sp.gap) && (sp.gap == [] ==> StartsInk(sp.text))
  }

  /** A label, a dot, white space and the text after it. */
  predicate IsNumbered(sp: Spelling) {
    sp.Numbered? && CanLabel(sp.number) && sp.gap != [] && AllSpace(sp.gap) && OneLine(sp.text) && StartsInk(sp.text)
  }

  /** The spellings that count. A dash item must be neither a divider nor a box. */
  ghost predicate Counts(sp: Spelling) {
    match sp
    case Rule(_, _, _) => IsRuleSpelling(sp)
    case Box(_, _, _) => IsBoxSpelling(sp)
    case Heading(level, _) => 1 <= level <= 3
    case Item(star, _) =>
      star || forall other :: IsRuleSpelling(other) || IsBoxSpelling(other) ==> Spell(other) != Spell(sp)
    case Numbered(_, _, _) => IsNumbered(sp)
    case Quotation(_) => true
  }

  /** The white space of the language, unit by unit. */
  lemma SpacesAre(u: Unit)
    ensures IsSpace(u) <==> u in {0x09, 0x0A, 0x0B, 0x0C, 0x0D, 0x20, 0xA0, 0x1680, 0x2000, 0x2001, 0x2002, 0x2003, 0x2004,
                                  0x2005, 0x2006, 0x2007, 0x2008, 0x2009, 0x200A, 0x2028, 0x2029, 0x202F, 0x205F, 0x3000, 0xFEFF}
    ensures IsTerminator(u) <==> u in {0x0A, 0x0D, 0x2028, 0x2029}
  {
  }

  // ---- Dividers ----

  lemma {:induction false} LeadingOf(before: Text, rest: Text)
    requires AllSpace(before) && StartsInk(rest)
    ensures LeadingSpaces(before + rest) == |before|
  {
    hide IsSpace;
    if before == [] {
      assert before + rest == rest;
    } else {
      assert (before + rest)[1..] == before[1..] + rest;
      LeadingOf(before[1..], rest);
    }
  }

  lemma {:induction false} TrailingOf(rest: Text, after: Text)
    requires AllSpace(after) && (rest == [] || !IsSpace(rest[|rest| - 1]))
    ensures TrailingSpaces(rest + after) == |after|
    decreases |after|
  {
    hide IsSpace;
    if after == [] {
      assert rest + after == rest;
    } else {
      var shorter := after[..|after| - 1];
      assert (rest + after)[..|rest + after| - 1] == rest + shorter;
      TrailingOf(rest, shorter);
    }
  }

  lemma {:induction false} LeadingAreSpace(t: Text)
    ensures AllSpace(t[..LeadingSpaces(t)])
  {
    hide IsSpace;
    if t != [] && IsSpace(t[0]) {
      LeadingAreSpace(t[1..]);
      assert t[..LeadingSpaces(t)] == [t[0]] + t[1..][..LeadingSpaces(t[1..])];
    }
  }

  lemma {:induction false} TrailingAreSpace(t: Text)
    ensures AllSpace(t[|t| - TrailingSpaces(t)..])
    decreases |t|
  {
    hide IsSpace;
    if t != [] && IsSpace(t[|t| - 1]) {
      var shorter := t[..|t| - 1];
      TrailingAreSpace(shorter);
      assert t[|t| - TrailingSpaces(t)..] == shorter[|shorter| - TrailingSpaces(shorter)..] + [t[|t| - 1]];
    }
  }

  lemma DashIsInk()
    ensures !IsSpace(0x2D)
  {
  }

  lemma RuleIsRead(sp: Spelling)
    requires IsRuleSpelling(sp)
    ensures IsRule(Trim(Spell(sp)))
    ensures ParseLine(Spell(sp)) == Meaning(sp)
  {
    hide IsSpace, LeadingSpaces, TrailingSpaces;
    DashIsInk();
    var dashes := Repeat(0x2D, sp.dashes);
    var line := Spell(sp);
    assert line == sp.before + (dashes + sp.after);
    LeadingOf(sp.before, dashes + sp.after);
    assert line[|sp.before|..] == dashes + sp.after;
    TrailingOf(dashes, sp.after);
    assert (dashes + sp.after)[..sp.dashes] == dashes;
  }

  lemma TrimParts(line: Text) returns (before: Text, after: Text)
    ensures AllSpace(before) && AllSpace(after) && line == before + Trim(line) + after
  {
    hide IsSpace, LeadingSpaces, TrailingSpaces;
    var rest := line[LeadingSpaces(line)..];
    LeadingAreSpace(line);
    TrailingAreSpace(rest);
    before, after := line[..LeadingSpaces(line)], rest[|rest| - TrailingSpaces(rest)..];
    assert rest == Trim(line) + after;
  }

  /** A line whose trimmed text is a rule is built of spaces and dashes. */
  lemma RuleIsSpelled(line: Text) returns (sp: Spelling)
    requires IsRule(Trim(line))
    ensures sp.Rule? && IsRuleSpelling(sp) && Spell(sp) == line
  {
    hide Trim, AllSpace;
    var before, after := TrimParts(line);
    sp := Rule(before, |Trim(line)|, after);
    assert Repeat(0x2D, |Trim(line)|) == Trim(line);
  }

  lemma RuleUnits(sp: Spelling, i: nat)
    requires IsRuleSpelling(sp) && i < |Spell(sp)|
    ensures Spell(sp)[i] == 0x2D || IsSpace(Spell(sp)[i])
  {
    hide IsSpace;
    if i >= |sp.before| + sp.dashes {
      assert Spell(sp)[i] == sp.after[i - |sp.before| - sp.dashes];
    }
  }

  /** A line with anything else in it is no rule. */
  lemma InkIsNoRule(line: Text, i: nat)
    requires i < |line| && line[i] != 0x2D && !IsSpace(line[i])
    ensures !IsRule(Trim(line))
  {
    hide IsSpace, Trim;
    if IsRule(Trim(line)) {
      var sp := RuleIsSpelled(line);
      RuleUnits(sp, i);
    }
  }

  // ---- Boxes ----

  lemma BoxIsRead(sp: Spelling)
    requires IsBoxSpelling(sp)
    ensures TodoText(Spell(sp)).Some?
    ensures ParseLine(Spell(sp)) == Meaning(sp)
  {
    var line := Spell(sp);
    BracketIsInk();
    InkIsNoRule(line, 2);
    hide IsSpace, Trim, IsRule, IsTerminator;
    var box := line[2..];
    assert sp.gap == [] ==> box[3..] == sp.text;
    assert sp.gap != [] ==> box[3] == sp.gap[0] && box[4..] == sp.text;
    assert TodoText(line) == Some(sp.text);
  }

  lemma BracketIsInk()
    ensures !IsSpace(0x5B)
  {
  }

  lemma OneLineTail(t: Text)
    requires |t| >= 3 && OneLine(t[3..])
    ensures |t| > 3 ==> OneLine(t[4..])
  {
    hide IsTerminator;
    forall i | 0 <= i < |t| - 4 ensures !IsTerminator(t[4..][i]) {
      assert t[4..][i] == t[3..][i + 1];
    }
  }

  lemma BoxIsSpelled(line: Text) returns (sp: Spelling)
    requires TodoText(line).Some?
    ensures sp.Box? && IsBoxSpelling(sp) && Spell(sp) == line
    ensures Meaning(sp) == Block(Todo, TodoText(line).value, line[3] == SMALL_X || line[3] == CAPITAL_X)
  {
    hide IsSpace, IsTerminator;
    var box := line[2..];
    if |box| > 3 && IsSpace(box[3]) && OneLine(box[4..]) {
      sp := Box(line[3], [box[3]], box[4..]);
    } else {
      assert OneLine(box[3..]);
      OneLineTail(box);
      sp := Box(line[3], [], box[3..]);
    }
    assert line[..2] == [0x2D, 0x20] && line == line[..2] + box;
    assert box[..3] == [0x5B, line[3], 0x5D];
  }

  // ---- Headings, items and quotations ----

  lemma MarksAreInk()
    ensures !IsSpace(0x23) && !IsSpace(0x2A) && !IsSpace(0x3E)
  {
  }

  lemma HeadingIsRead(sp: Spelling)
    requires sp.Heading? && Counts(sp)
    ensures ParseLine(Spell(sp)) == Meaning(sp)
  {
    var line := Spell(sp);
    MarksAreInk();
    InkIsNoRule(line, 0);
    hide IsSpace, Trim, IsRule, BoxText;
    assert line[sp.level + 1..] == sp.text;
    assert line[sp.level] == 0x20;
  }

  lemma ItemIsRead(sp: Spelling)
    requires sp.Item? && Counts(sp)
    ensures ParseLine(Spell(sp)) == Meaning(sp)
  {
    var line := Spell(sp);
    if sp.star {
      MarksAreInk();
      InkIsNoRule(line, 0);
      NoDashNoBox(line);
    } else {
      if IsRule(Trim(line)) {
        var other := RuleIsSpelled(line);
      }
      if TodoText(line).Some? {
        var other := BoxIsSpelled(line);
      }
    }
    hide IsSpace, Trim, IsRule, TodoText;
    assert line[2..] == sp.text;
  }

  lemma NoDashNoBox(line: Text)
    requires line != [] && line[0] != 0x2D
    ensures TodoText(line).None?
  {
  }

  lemma QuotationIsRead(sp: Spelling)
    requires sp.Quotation?
    ensures ParseLine(Spell(sp)) == Meaning(sp)
  {
    var line := Spell(sp);
    MarksAreInk();
    InkIsNoRule(line, 0);
    NoDashNoBox(line);
    NoLabelNoNumber(line);
    hide IsSpace, Trim, IsRule, TodoText, OrderedText;
    assert line[2..] == sp.text;
  }

  lemma NoLabelNoNumber(line: Text)
    requires line != [] && line[0] == 0x3E
    ensures OrderedText(line).None?
  {
    var dot := FirstDot(line);
    if dot < |line| {
      assert dot != 0;
      assert line[..dot][0] == 0x3E;
    }
  }

  // ---- Numbered lines ----

  lemma LabelsAre(t: Text)
    ensures IsLabel(t) <==> CanLabel(t)
  {
    assert forall u: Unit :: u in ROMAN <==> u in {0x49, 0x56, 0x58, 0x4C, 0x43, 0x44, 0x4D, 0x69, 0x76, 0x78, 0x6C, 0x63, 0x64, 0x6D};
  }

  /** No unit of a label is a dot, a mark of another spelling or white space. */
  lemma LabelUnits(t: Text, i: nat)
    requires CanLabel(t) && i < |t|
    ensures t[i] != DOT && t[i] !in {0x23, 0x2A, 0x2D, 0x3E} && !IsSpace(t[i])
  {
  }

  lemma FirstDotAt(t: Text, n: nat)
    requires n < |t| && t[n] == DOT && forall i :: 0 <= i < n ==> t[i] != DOT
    ensures FirstDot(t) == n
  {
  }

  lemma NumberedParts(sp: Spelling)
    requires sp.Numbered?
    ensures var line, n := Spell(sp), |sp.number|;
            && n < |line| && line[n] == DOT && line[..n] == sp.number && line[n + 1..] == sp.gap + sp.text
            && (sp.gap + sp.text)[|sp.gap|..] == sp.text
  {
  }

  lemma NumberedText(sp: Spelling)
    requires IsNumbered(sp)
    ensures OrderedText(Spell(sp)) == Some(sp.text)
  {
    hide Spell, CanLabel, IsSpace, IsLabel, IsTerminator;
    var line, n := Spell(sp), |sp.number|;
    NumberedParts(sp);
    forall i | 0 <= i < n ensures line[i] != DOT {
      LabelUnits(sp.number, i);
      assert line[i] == line[..n][i];
    }
    FirstDotAt(line, n);
    LabelsAre(sp.number);
    LeadingOf(sp.gap, sp.text);
  }

  lemma NoMark(line: Text)
    requires line != [] && line[0] !in {0x23, 0x2A, 0x2D, 0x3E}
    ensures !StartsWith(line, H1_MARK) && !StartsWith(line, H2_MARK) && !StartsWith(line, H3_MARK)
    ensures !StartsWith(line, DASH_MARK) && !StartsWith(line, STAR_MARK)
  {
  }

  lemma NumberedIsRead(sp: Spelling)
    requires IsNumbered(sp)
    ensures ParseLine(Spell(sp)) == Meaning(sp)
  {
    var line := Spell(sp);
    assert line[0] == sp.number[0];
    hide Spell, IsSpace, Trim, IsRule, TodoText, CanLabel, OrderedText;
    LabelUnits(sp.number, 0);
    InkIsNoRule(line, 0);
    NoDashNoBox(line);
    NoMark(line);
    NumberedText(sp);
    hide StartsWith;
  }

  lemma InkAfterSpaces(t: Text)
    ensures StartsInk(t[LeadingSpaces(t)..])
  {
    hide IsSpace;
  }

  lemma OrderedParts(line: Text)
    requires OrderedText(line).Some?
    ensures var dot := FirstDot(line);
            && dot < |line| && line[dot] == DOT && IsLabel(line[..dot])
            && var rest := line[dot + 1..];
               && LeadingSpaces(rest) > 0 && OneLine(rest[LeadingSpaces(rest)..])
               && OrderedText(line) == Some(rest[LeadingSpaces(rest)..])
  {
    hide IsSpace, IsLabel, OneLine, LeadingSpaces, FirstDot;
  }

  lemma FourParts(line: Text, dot: nat, spaces: nat)
    requires dot < |line| && line[dot] == DOT && spaces <= |line| - dot - 1
    ensures var rest := line[dot + 1..]; Spell(Numbered(line[..dot], rest[..spaces], rest[spaces..])) == line
  {
  }

  lemma NumberedIsSpelled(line: Text) returns (sp: Spelling)
    requires OrderedText(line).Some?
    ensures sp.Numbered? && IsNumbered(sp) && Spell(sp) == line && sp.text == OrderedText(line).value
  {
    hide IsLabel, CanLabel, FirstDot, LeadingSpaces, OrderedText, OneLine, StartsInk, AllSpace, Spell;
    OrderedParts(line);
    var dot := FirstDot(line);
    var rest := line[dot + 1..];
    var spaces := LeadingSpaces(rest);
    LabelsAre(line[..dot]);
    LeadingAreSpace(rest);
    InkAfterSpaces(rest);
    FourParts(line, dot, spaces);
    sp := Numbered(line[..dot], rest[..spaces], rest[spaces..]);
  }

  // ---- Every line ----

  /** Every spelling has its meaning. */
  lemma SpellingIsRead(sp: Spelling)
    requires Counts(sp)
    ensures ParseLine(Spell(sp)) == Meaning(sp)
  {
    hide ParseLine, Spell, Meaning;
    match sp {
      case Rule(_, _, _) => RuleIsRead(sp);
      case Box(_, _, _) => BoxIsRead(sp);
      case Heading(_, _) => HeadingIsRead(sp);
      case Item(_, _) => ItemIsRead(sp);
      case Numbered(_, _, _) => NumberedIsRead(sp);
      case Quotation(_) => QuotationIsRead(sp);
    }
  }

  lemma ItemIsSpelled(line: Text) returns (sp: Spelling)
    requires !IsRule(Trim(line)) && TodoText(line).None? && (StartsWith(line, DASH_MARK) || StartsWith(line, STAR_MARK))
    ensures sp == Item(line[0] == 0x2A, line[2..]) && Counts(sp) && Spell(sp) == line
  {
    sp := Item(line[0] == 0x2A, line[2..]);
    assert Spell(sp) == line;
    hide IsRule, TodoText, Spell, StartsWith;
    forall other | IsRuleSpelling(other) || IsBoxSpelling(other)
      ensures !sp.star ==> Spell(other) != line
    {
      if Spell(other) == line {
        RuleOrBox(other);
      }
    }
  }

  lemma RuleOrBox(sp: Spelling)
    requires IsRuleSpelling(sp) || IsBoxSpelling(sp)
    ensures IsRule(Trim(Spell(sp))) || TodoText(Spell(sp)).Some?
  {
    hide IsRule, Trim, TodoText, Spell, ParseLine, IsRuleSpelling, IsBoxSpelling;
    if IsRuleSpelling(sp) {
      RuleIsRead(sp);
    } else {
      BoxIsRead(sp);
    }
  }

  /** Every line that is not read as a paragraph has a spelling. */
  lemma LineIsSpelled(line: Text) returns (sp: Spelling)
    requires !ParseLine(line).kind.Paragraph?
    ensures Counts(sp) && Spell(sp) == line && Meaning(sp) == ParseLine(line)
  {
    hide Trim, IsRule, TodoText, OrderedText, IsRuleSpelling, IsBoxSpelling, IsNumbered;
    if IsRule(Trim(line)) {
      sp := RuleIsSpelled(line);
      RuleCounts(sp);
    } else if TodoText(line).Some? {
      sp := BoxIsSpelled(line);
      BoxCounts(sp);
    } else if StartsWith(line, H3_MARK) {
      sp := Heading(3, line[4..]);
    } else if StartsWith(line, H2_MARK) {
      sp := Heading(2, line[3..]);
    } else if StartsWith(line, H1_MARK) {
      sp := Heading(1, line[2..]);
    } else if StartsWith(line, DASH_MARK) || StartsWith(line, STAR_MARK) {
      sp := ItemIsSpelled(line);
    } else if OrderedText(line).Some? {
      sp := NumberedIsSpelled(line);
    } else {
      sp := Quotation(line[2..]);
    }
  }

  lemma RuleCounts(sp: Spelling)
    requires IsRuleSpelling(sp)
    ensures Counts(sp) && Meaning(sp) == Block(Divider, [], false)
  {
  }

  lemma BoxCounts(sp: Spelling)
    requires IsBoxSpelling(sp)
    ensures Counts(sp)
  {
  }

  ghost predicate HasSpelling(line: Text, b: Block) {
    exists sp :: Counts(sp) && Spell(sp) == line && Meaning(sp) == b
  }

  /** For every line outside code: it is read as a block other than a paragraph exactly when it is a spelling of
      that block, and every other line is a paragraph with the whole line for its text. */
  lemma ReadingIff(line: Text, b: Block)
    ensures ParseLine(line) == b && !b.kind.Paragraph? <==> HasSpelling(line, b)
    ensures ParseLine(line) == Block(Paragraph, line, false) <==> !exists other :: HasSpelling(line, other)
  {
    hide ParseLine, Spell, Counts;
    ParagraphIsWhole(line);
    forall sp | Counts(sp) && Spell(sp) == line
      ensures ParseLine(line) == Meaning(sp) && !Meaning(sp).kind.Paragraph?
    {
      SpellingIsRead(sp);
    }
    if !ParseLine(line).kind.Paragraph? {
      var sp := LineIsSpelled(line);
      assert HasSpelling(line, ParseLine(line));
    }
  }

  lemma ParagraphIsWhole(line: Text)
    ensures ParseLine(line).kind.Paragraph? ==> ParseLine(line) == Block(Paragraph, line, false)
  {
    hide Trim, IsRule, TodoText, OrderedText, StartsWith;
  }

  // ---- Every text ----

  /** A line that opens or closes code. */
  predicate IsFence(line: Text) {
    |line| >= 3 && line[0] == 0x60 && line[1] == 0x60 && line[2] == 0x60
  }

  function Fences(lines: seq<Text>): nat {
    if lines == [] then 0 else (if IsFence(lines[0]) then 1 else 0) + Fences(lines[1..])
  }

  lemma {:induction false} FewFences(lines: seq<Text>)
    ensures Fences(lines) <= |lines|
  {
    if lines != [] {
      FewFences(lines[1..]);
    }
  }

  lemma {:induction false} LinesBecome(lines: seq<Text>, inCode: bool, k: nat)
    requires k < |lines| && !IsFence(lines[k])
    ensures |ParseLines(lines, inCode)| == |lines| - Fences(lines)
    ensures Fences(lines[..k]) <= k && k - Fences(lines[..k]) < |ParseLines(lines, inCode)|
    ensures ParseLines(lines, inCode)[k - Fences(lines[..k])]
         == if inCode != (Fences(lines[..k]) % 2 == 1) then Block(Code, lines[k], false) else ParseLine(lines[k])
    decreases |lines|
  {
    hide ParseLine, IsFence;
    FenceStarts(lines[0]);
    if k > 0 {
      var inner := inCode != IsFence(lines[0]);
      LinesBecome(lines[1..], inner, k - 1);
      assert lines[..k][1..] == lines[1..][..k - 1];
    } else {
      assert lines[..0] == [];
      CountBlocks(lines[1..], inCode);
    }
  }

  lemma FenceStarts(line: Text)
    ensures StartsWith(line, FENCE) <==> IsFence(line)
  {
  }

  lemma {:induction false} CountBlocks(lines: seq<Text>, inCode: bool)
    ensures |ParseLines(lines, inCode)| == |lines| - Fences(lines)
    decreases |lines|
  {
    hide ParseLine, IsFence;
    if lines != [] {
      FenceStarts(lines[0]);
      CountBlocks(lines[1..], inCode != IsFence(lines[0]));
    }
  }

  /** For every text: the blocks are those of its lines in order, fences left out. A line after an odd number of
      fences is code as it stands; any other is read by its spelling. A text of nothing but fences gives one
      empty paragraph. */
  lemma TextIsRead(text: Text, k: nat)
    ensures var lines := Split(Normalize(text));
            && (Fences(lines) == |lines| ==> Parsed(text) == [Block(Paragraph, [], false)])
            && (Fences(lines) < |lines| ==> |Parsed(text)| == |lines| - Fences(lines))
            && (k < |lines| && !IsFence(lines[k]) ==>
                  && 0 <= k - Fences(lines[..k]) < |Parsed(text)|
                  && Parsed(text)[k - Fences(lines[..k])]
                     == if Fences(lines[..k]) % 2 == 1 then Block(Code, lines[k], false) else ParseLine(lines[k]))
  {
    hide ParseLine, ParseLines, IsFence, Split, Normalize;
    var lines := Split(Normalize(text));
    CountBlocks(lines, false);
    if k < |lines| && !IsFence(lines[k]) {
      LinesBecome(lines, false, k);
    }
  }

  // ---- Writing ----

  /** The spelling the editor itself uses. */
  function Preferred(b: Block): Spelling
    requires !b.kind.Paragraph? && !b.kind.Code?
  {
    var text := BlockText(b);
    match b.kind
    case Heading1 => Heading(1, text)
    case Heading2 => Heading(2, text)
    case Heading3 => Heading(3, text)
    case Bullet => Item(false, text)
    case Ordered => Numbered([0x31], [0x20], text)
    case Todo => Box(if b.checked then 0x78 else 0x20, [0x20], text)
    case Quote => Quotation(text)
    case _ => Rule([], 3, [])
  }

  lemma MarksAre(text: Text)
    ensures Repeat(0x23, 1) + [0x20] == H1_MARK && Repeat(0x23, 2) + [0x20] == H2_MARK && Repeat(0x23, 3) + [0x20] == H3_MARK
    ensures [] + Repeat(0x2D, 3) + [] == RULE
    ensures [0x31] + [0x2E] + [0x20] + text == ONE_MARK + text
  {
  }

  lemma BoxMark(checked: bool, text: Text)
    ensures [0x2D, 0x20, 0x5B, if checked then 0x78 else 0x20, 0x5D] + [0x20] + text == TodoMark(checked) + text
  {
  }

  /** Every block is written in one of the spellings; a paragraph and a line of code as they stand. */
  lemma WrittenIsSpelled(b: Block)
    ensures if b.kind.Paragraph? || b.kind.Code? then SerializeBlock(b) == BlockText(b)
            else SerializeBlock(b) == Spell(Preferred(b))
  {
    hide WithoutZeroWidth, Repeat, TodoMark;
    MarksAre(BlockText(b));
    BoxMark(b.checked, BlockText(b));
    assert [] + BlockText(b) == BlockText(b);
  }

  /** Zero-width spaces are not written, and everything else is. */
  lemma ZeroWidthIsDropped(a: Text, b: Text)
    ensures WithoutZeroWidth(a + [0x200B] + b) == WithoutZeroWidth(a) + WithoutZeroWidth(b)
    ensures (forall i :: 0 <= i < |a| ==> a[i] != 0x200B) ==> WithoutZeroWidth(a) == a
  {
    hide WithoutZeroWidth;
    ZeroWidthSplits(a, b);
    NoZeroWidth(a);
  }

  lemma {:induction false} NoZeroWidth(a: Text)
    ensures (forall i :: 0 <= i < |a| ==> a[i] != 0x200B) ==> WithoutZeroWidth(a) == a
  {
    if a != [] {
      NoZeroWidth(a[1..]);
      assert a == [a[0]] + a[1..];
    }
  }

  lemma WithoutFirst(u: Unit, rest: Text)
    ensures WithoutZeroWidth([u] + rest) == (if u == 0x200B then [] else [u]) + WithoutZeroWidth(rest)
  {
    assert ([u] + rest)[1..] == rest;
  }

  lemma {:induction false} ZeroWidthSplits(a: Text, b: Text)
    ensures WithoutZeroWidth(a + [0x200B] + b) == WithoutZeroWidth(a) + WithoutZeroWidth(b)
  {
    hide WithoutZeroWidth;
    if a == [] {
      assert a + [0x200B] + b == [0x200B] + b;
      WithoutFirst(0x200B, b);
      WithoutNothing();
    } else {
      var tail := a[1..];
      ZeroWidthSplits(tail, b);
      WithoutFirst(a[0], tail);
      WithoutFirst(a[0], tail + [0x200B] + b);
      assert a == [a[0]] + tail && a + [0x200B] + b == [a[0]] + (tail + [0x200B] + b);
    }
  }

  lemma WithoutNothing()
    ensures WithoutZeroWidth([]) == []
  {
  }

  /** A line break is a line feed, with a carriage return before it or without, and nothing else is. */
  lemma LinesAreSplit(line: Text, rest: Text)
    requires forall i :: 0 <= i < |line| ==> line[i] != 0x0A
    ensures Split(Normalize(line)) == [line]
    ensures Split(Normalize(line + [0x0D, 0x0A] + rest)) == [line] + Split(Normalize(rest))
    ensures line == [] || line[|line| - 1] != 0x0D ==>
              Split(Normalize(line + [0x0A] + rest)) == [line] + Split(Normalize(rest))
  {
    hide Split, Normalize;
    BreaksNormalize(line, rest);
    SplitsFirst(line, Normalize(rest));
  }

  lemma NormalizeFirst(u: Unit, rest: Text)
    requires u != 0x0D || rest == [] || rest[0] != 0x0A
    ensures Normalize([u] + rest) == [u] + Normalize(rest)
  {
    assert ([u] + rest)[1..] == rest;
  }

  lemma NormalizeBreak(rest: Text)
    ensures Normalize([0x0D, 0x0A] + rest) == [0x0A] + Normalize(rest) && Normalize([]) == []
  {
    assert ([0x0D, 0x0A] + rest)[2..] == rest;
  }

  lemma {:induction false} BreaksNormalize(line: Text, rest: Text)
    requires forall i :: 0 <= i < |line| ==> line[i] != 0x0A
    ensures Normalize(line) == line
    ensures Normalize(line + [0x0D, 0x0A] + rest) == line + [0x0A] + Normalize(rest)
    ensures line == [] || line[|line| - 1] != 0x0D ==> Normalize(line + [0x0A] + rest) == line + [0x0A] + Normalize(rest)
  {
    hide Normalize;
    NormalizeBreak(rest);
    if line == [] {
      NormalizeFirst(0x0A, rest);
      assert line + [0x0D, 0x0A] + rest == [0x0D, 0x0A] + rest && line + [0x0A] + rest == [0x0A] + rest;
    } else {
      var head, tail := line[0], line[1..];
      BreaksNormalize(tail, rest);
      NormalizeFirst(head, tail);
      NormalizeFirst(head, tail + [0x0D, 0x0A] + rest);
      assert line == [head] + tail;
      assert line + [0x0D, 0x0A] + rest == [head] + (tail + [0x0D, 0x0A] + rest);
      if line[|line| - 1] != 0x0D {
        NormalizeFirst(head, tail + [0x0A] + rest);
        assert line + [0x0A] + rest == [head] + (tail + [0x0A] + rest);
      }
    }
  }

  lemma {:induction false} SplitsFirst(line: Text, rest: Text)
    requires forall i :: 0 <= i < |line| ==> line[i] != 0x0A
    ensures Split(line) == [line] && Split(line + [0x0A] + rest) == [line] + Split(rest)
  {
    var all := line + [0x0A] + rest;
    if line == [] {
      assert all[1..] == rest;
    } else {
      SplitsFirst(line[1..], rest);
      assert all[1..] == line[1..] + [0x0A] + rest && line == [line[0]] + line[1..];
    }
  }
}
