/** When saving a loaded text and loading it again shows the same blocks. */
module MarkdownReload {
  import opened WideText
  import opened Markdown
  import opened MarkdownRoundTrip

  /** A bullet written with a star whose text looks like a check box: it is written with a dash,
      and then it is one. */
  predicate IsStarBox(line: Text) {
    StartsWith(line, STAR_MARK) && BoxText(line[2..]).Some?
  }

  predicate IsFence(line: Text) {
    StartsWith(line, FENCE)
  }

  predicate AllFences(lines: seq<Text>) {
    forall i :: 0 <= i < |lines| ==> IsFence(lines[i])
  }

  /** The block of a line that is no fence. */
  function BlockOf(line: Text, inCode: bool): Block {
    if inCode then Block(Code, line, false) else ParseLine(line)
  }

  /** What a text may not hold to survive loading and saving, line by line. Fence lines may hold anything. */
  ghost predicate Reloads(lines: seq<Text>, inCode: bool)
    decreases |lines|
  {
    lines == []
    || if IsFence(lines[0]) then Reloads(lines[1..], !inCode)
       else
         && Lacks(lines[0], ZERO_WIDTH_SPACE)
         && (inCode || !IsStarBox(lines[0]))
         && (EndsInCr(BlockOf(lines[0], inCode).text) ==> !inCode && AllFences(lines[1..]))
         && Reloads(lines[1..], inCode)
  }

  lemma PartLacks(t: Text, line: Text, u: Unit)
    requires IsPart(t, line) && Lacks(line, u)
    ensures Lacks(t, u)
  {
    forall i | 0 <= i < |t|
      ensures t[i] != u
    {
      assert t[i] in line;
    }
  }

  lemma BulletFrom(line: Text)
    ensures IsStarBox(line) ==> ParseLine(line) == Block(Bullet, line[2..], false)
    ensures ParseLine(line).kind.Bullet? && BoxText(ParseLine(line).text).Some? ==> IsStarBox(line)
  {
    hide BoxText, Trim, IsRule, OrderedText;
    if IsStarBox(line) {
      assert line[0] == STAR_MARK[0];
      NotRule(line);
    }
  }

  // ---- Zero-width spaces ----

  lemma {:induction false} LeadingAreSpaces(t: Text)
    ensures forall i :: 0 <= i < LeadingSpaces(t) ==> IsSpace(t[i])
  {
    if t != [] && IsSpace(t[0]) {
      LeadingAreSpaces(t[1..]);
      forall i | 0 < i < LeadingSpaces(t)
        ensures IsSpace(t[i])
      {
        assert t[i] == t[1..][i - 1];
      }
    }
  }

  lemma {:induction false} TrailingAreSpaces(t: Text)
    ensures forall i :: |t| - TrailingSpaces(t) <= i < |t| ==> IsSpace(t[i])
  {
    if t != [] && IsSpace(t[|t| - 1]) {
      TrailingAreSpaces(t[..|t| - 1]);
    }
  }

  /** A rule holds dashes and white space only. */
  lemma RuleHasNone(line: Text)
    requires IsRule(Trim(line))
    ensures Lacks(line, ZERO_WIDTH_SPACE)
  {
    var skip := LeadingSpaces(line);
    var rest := line[skip..];
    LeadingAreSpaces(line);
    TrailingAreSpaces(rest);
    var trimmed := Trim(line);
    forall i | 0 <= i < |line|
      ensures line[i] != ZERO_WIDTH_SPACE
    {
      if i >= skip {
        assert line[i] == rest[i - skip];
        if i - skip < |trimmed| {
          assert rest[i - skip] == trimmed[i - skip];
        }
      }
    }
  }

  lemma LabelHasNone(t: Text)
    requires IsLabel(t)
    ensures Lacks(t, ZERO_WIDTH_SPACE)
  {
  }

  /** All that an ordered line leaves out is its label, the dot and white space. */
  lemma OrderedHasNone(line: Text)
    requires OrderedText(line).Some? && Lacks(OrderedText(line).value, ZERO_WIDTH_SPACE)
    ensures Lacks(line, ZERO_WIDTH_SPACE)
  {
    var dot := FirstDot(line);
    var rest := line[dot + 1..];
    var spaces := LeadingSpaces(rest);
    LabelHasNone(line[..dot]);
    LeadingAreSpaces(rest);
    forall i | 0 <= i < |line|
      ensures line[i] != ZERO_WIDTH_SPACE
    {
      if i < dot {
        assert line[i] == line[..dot][i];
      } else if i > dot {
        assert line[i] == rest[i - dot - 1];
        if i - dot - 1 >= spaces {
          assert rest[i - dot - 1] == OrderedText(line).value[i - dot - 1 - spaces];
        }
      }
    }
  }

  lemma TodoHasNone(line: Text)
    requires TodoText(line).Some? && Lacks(TodoText(line).value, ZERO_WIDTH_SPACE)
    ensures Lacks(line, ZERO_WIDTH_SPACE)
  {
    var rest, text := line[2..], TodoText(line).value;
    forall i | 0 <= i < |line|
      ensures line[i] != ZERO_WIDTH_SPACE
    {
      if i < 2 {
        assert line[i] == DASH_MARK[i];
      } else {
        assert line[i] == rest[i - 2];
        if |rest| == |text| + 4 && i - 2 >= 4 {
          assert rest[i - 2] == text[i - 6];
        } else if |rest| == |text| + 3 && i - 2 >= 3 {
          assert rest[i - 2] == text[i - 5];
        }
      }
    }
  }

  lemma MarkHasNone(line: Text, mark: Text)
    requires StartsWith(line, mark) && Lacks(mark, ZERO_WIDTH_SPACE) && Lacks(line[|mark|..], ZERO_WIDTH_SPACE)
    ensures Lacks(line, ZERO_WIDTH_SPACE)
  {
    forall i | 0 <= i < |line|
      ensures line[i] != ZERO_WIDTH_SPACE
    {
      if i >= |mark| {
        assert line[i] == line[|mark|..][i - |mark|];
      }
    }
  }

  /** No zero-width space is left out on reading. */
  lemma ZeroWidthIsKept(line: Text)
    ensures Lacks(ParseLine(line).text, ZERO_WIDTH_SPACE) <==> Lacks(line, ZERO_WIDTH_SPACE)
  {
    hide Trim, IsRule, OrderedText, TodoText, StartsWith;
    ParsedIsPart(line);
    if Lacks(line, ZERO_WIDTH_SPACE) {
      PartLacks(ParseLine(line).text, line, ZERO_WIDTH_SPACE);
    } else if Lacks(ParseLine(line).text, ZERO_WIDTH_SPACE) {
      if IsRule(Trim(line)) {
        RuleHasNone(line);
      } else if TodoText(line).Some? {
        TodoHasNone(line);
      } else if StartsWith(line, H3_MARK) {
        MarkHasNone(line, H3_MARK);
      } else if StartsWith(line, H2_MARK) {
        MarkHasNone(line, H2_MARK);
      } else if StartsWith(line, H1_MARK) {
        MarkHasNone(line, H1_MARK);
      } else if StartsWith(line, DASH_MARK) {
        MarkHasNone(line, DASH_MARK);
      } else if StartsWith(line, STAR_MARK) {
        MarkHasNone(line, STAR_MARK);
      } else if OrderedText(line).Some? {
        OrderedHasNone(line);
      } else if StartsWith(line, QUOTE_MARK) {
        MarkHasNone(line, QUOTE_MARK);
      }
    }
  }

  // ---- Lines and blocks ----

  /** A line that is no fence is read as a canonical block exactly when it holds no zero-width space and,
      outside code, is no star box. */
  lemma ReadIsCanonicalIff(line: Text, inCode: bool)
    requires Lacks(line, LF) && !IsFence(line)
    ensures Canonical(BlockOf(line, inCode)) <==> Lacks(line, ZERO_WIDTH_SPACE) && (inCode || !IsStarBox(line))
  {
    hide ParseLine, IsPlain, BoxText, OneLine, LeadingSpaces, StartsWith;
    if !inCode {
      ParsedShape(line);
      ParsedIsPart(line);
      PartLacks(ParseLine(line).text, line, LF);
      ZeroWidthIsKept(line);
      BulletFrom(line);
    }
  }

  lemma {:induction false} NoBlocksIff(lines: seq<Text>, inCode: bool)
    ensures ParseLines(lines, inCode) == [] <==> AllFences(lines)
    decreases |lines|
  {
    hide ParseLine, StartsWith;
    if lines != [] {
      NoBlocksIff(lines[1..], inCode);
      NoBlocksIff(lines[1..], !inCode);
      assert AllFences(lines) <==> IsFence(lines[0]) && AllFences(lines[1..]) by {
        FencesCons(lines);
      }
    }
  }

  lemma FencesCons(lines: seq<Text>)
    requires lines != []
    ensures AllFences(lines) <==> IsFence(lines[0]) && AllFences(lines[1..])
  {
    hide IsFence;
    forall i | 0 < i < |lines|
      ensures lines[i] == lines[1..][i - 1]
    {
    }
  }

  lemma CanonicalCons(b: Block, rest: seq<Block>)
    ensures CanonicalList([b] + rest) <==>
            Canonical(b) && (EndsInCr(b.text) ==> rest == [] && !b.kind.Code?) && CanonicalList(rest)
  {
    hide Canonical;
    assert ([b] + rest)[1..] == rest;
  }

  lemma KindOf(line: Text, inCode: bool)
    ensures BlockOf(line, inCode).kind.Code? <==> inCode
  {
    hide OrderedText, TodoText, Trim, IsRule;
  }

  lemma {:induction false} ListIsCanonicalIff(lines: seq<Text>, inCode: bool)
    requires AllLackLf(lines)
    ensures CanonicalList(ParseLines(lines, inCode)) <==> Reloads(lines, inCode)
    decreases |lines|
  {
    hide Canonical, CanonicalList, ParseLine, StartsWith, IsStarBox, Lacks, AllFences, EndsInCr;
    if lines == [] {
      assert CanonicalList([]) by { NoBlocksAreCanonical(); }
    } else {
      var line, rest := lines[0], lines[1..];
      if IsFence(line) {
        ListIsCanonicalIff(rest, !inCode);
      } else {
        ListIsCanonicalIff(rest, inCode);
        ReadIsCanonicalIff(line, inCode);
        NoBlocksIff(rest, inCode);
        KindOf(line, inCode);
        CanonicalCons(BlockOf(line, inCode), ParseLines(rest, inCode));
      }
    }
  }

  lemma NoBlocksAreCanonical()
    ensures CanonicalList([])
  {
  }

  /** For every text: loading it, saving it and loading it again shows the same blocks exactly when its
      lines, each without the carriage return of its line end, meet the conditions of `Reloads`. */
  lemma ReloadIff(text: Text)
    ensures Parsed(Serialized(Parsed(text))) == Parsed(text) <==> Reloads(Split(Normalize(text)), false)
  {
    hide Canonical, Reloads, Split, Normalize;
    SplitLacksLf(Normalize(text));
    ListIsCanonicalIff(Split(Normalize(text)), false);
    EmptyParagraphIsCanonical();
    RoundTripIff(Parsed(text));
    NoBlocksAreCanonical();
  }
}
