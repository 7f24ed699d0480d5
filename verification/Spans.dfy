/** Where the blocks' texts stand in the written document, and saving and restoring the caret by its
    document offset (serializedBlockSpans to restoreDocumentCaret of ui/app.js). */
module Spans {
  import opened WideText
  import opened Markdown

  /** The part of the written document that is the text of one block. */
  datatype Span = Span(contentStart: nat, contentEnd: nat)

  /** A place in the editor: a block and an offset in its text. */
  datatype Place = Place(block: nat, offset: nat)

  /** serializedBlockPrefixLength, which repeats the lengths instead of measuring the prefixes. */
  function PrefixLength(kind: Kind): nat {
    match kind
    case Heading1 => 2
    case Heading2 => 3
    case Heading3 => 4
    case Bullet => 2
    case Quote => 2
    case Ordered => 3
    case Todo => 6
    case _ => 0
  }

  /** Where the line of a block starts when the next line starts at `at`: after a fence, if one is due. */
  function LineStart(b: Block, inCode: bool, at: nat): nat {
    if b.kind.Code? != inCode then at + |FENCE| + 1 else at
  }

  function LineEnd(b: Block, inCode: bool, at: nat): nat {
    LineStart(b, inCode, at) + |SerializeBlock(b)|
  }

  function SpanOf(b: Block, inCode: bool, at: nat): Span {
    var content := LineStart(b, inCode, at) + PrefixLength(b.kind);
    Span(content, content + |BlockText(b)|)
  }

  /** The spans of the blocks when the next line starts at `at`. */
  function SpansFrom(blocks: seq<Block>, inCode: bool, at: nat): (spans: seq<Span>)
    ensures |spans| == |blocks|
    decreases |blocks|
  {
    if blocks == [] then []
    else
      var b := blocks[0];
      [SpanOf(b, inCode, at)] + SpansFrom(blocks[1..], b.kind.Code?, LineEnd(b, inCode, at) + 1)
  }

  function SpansOf(blocks: seq<Block>): (spans: seq<Span>)
    ensures |spans| == |blocks|
  {
    SpansFrom(blocks, false, 0)
  }

  /** Where the next line starts. */
  function NextStart(offset: nat, firstLine: bool): nat {
    if firstLine then offset else offset + 1
  }

  lemma SpansStep(blocks: seq<Block>, k: nat, inCode: bool, at: nat, before: seq<Span>)
    requires k < |blocks|
    ensures var b := blocks[k];
            before + SpansFrom(blocks[k..], inCode, at)
            == before + [SpanOf(b, inCode, at)] + SpansFrom(blocks[k + 1..], b.kind.Code?, LineEnd(b, inCode, at) + 1)
  {
    hide SpanOf, LineEnd;
    assert blocks[k..][1..] == blocks[k + 1..];
  }

  lemma NoPrefix(b: Block)
    ensures b.kind.Code? ==> SerializeBlock(b) == BlockText(b) && PrefixLength(b.kind) == 0
    ensures b.kind.Divider? ==> BlockText(b) == []
  {
  }

  method SerializedBlockSpans(blocks: seq<Block>) returns (spans: seq<Span>)
    ensures spans == SpansOf(blocks)
  {
    hide SpansFrom, SerializeBlock, BlockText, PrefixLength;
    spans := [];
    var offset: nat := 0;
    var firstLine := true;
    var inCode := false;
    assert blocks[0..] == blocks;
    for k := 0 to |blocks|
      invariant spans + SpansFrom(blocks[k..], inCode, NextStart(offset, firstLine)) == SpansOf(blocks)
    {
      var block := blocks[k];
      SpansStep(blocks, k, inCode, NextStart(offset, firstLine), spans);
      NoPrefix(block);
      var start: nat;
      if block.kind.Code? {
        if !inCode {
          offset, firstLine, start := AppendLine(offset, firstLine, FENCE);
          inCode := true;
        }
        var text := BlockText(block);
        offset, firstLine, start := AppendLine(offset, firstLine, text);
        spans := spans + [Span(start, start + |text|)];
        continue;
      }
      if inCode {
        offset, firstLine, start := AppendLine(offset, firstLine, FENCE);
        inCode := false;
      }
      offset, firstLine, start := AppendLine(offset, firstLine, SerializeBlock(block));
      var prefix := PrefixLength(block.kind);
      var textLength := if block.kind.Divider? then 0 else |BlockText(block)|;
      spans := spans + [Span(start + prefix, start + prefix + textLength)];
    }
    NoMoreSpans(blocks, inCode, NextStart(offset, firstLine), spans);
  }

  lemma NoMoreSpans(blocks: seq<Block>, inCode: bool, at: nat, spans: seq<Span>)
    ensures spans + SpansFrom(blocks[|blocks|..], inCode, at) == spans
  {
  }

  method AppendLine(offset: nat, firstLine: bool, line: Text) returns (next: nat, first: bool, start: nat)
    ensures start == NextStart(offset, firstLine) && next == start + |line| && !first
  {
    next := offset;
    if !firstLine {
      next := next + 1;
    }
    first := false;
    start := next;
    next := next + |line|;
  }

  // ---- Agreement with the written document ----

  lemma PrefixLengthIsPrefix(b: Block)
    ensures PrefixLength(b.kind) == |Prefix(b)|
    ensures !b.kind.Divider? ==> SerializeBlock(b)[PrefixLength(b.kind)..] == BlockText(b)
    ensures PrefixLength(b.kind) + |BlockText(b)| <= |SerializeBlock(b)|
  {
  }

  /** `part` stands in `text` at `at`. */
  ghost predicate StandsAt(part: Text, text: Text, at: nat) {
    at + |part| <= |text| && text[at..at + |part|] == part
  }

  ghost predicate Ends(part: Text, text: Text, at: nat) {
    at <= |text| && text[at..] == part
  }

  lemma JoinCons(line: Text, rest: seq<Text>, text: Text, at: nat)
    requires Ends(Join([line] + rest), text, at)
    ensures StandsAt(line, text, at)
    ensures rest != [] ==> Ends(Join(rest), text, at + |line| + 1)
  {
    assert ([line] + rest)[1..] == rest;
    var tail := text[at..];
    assert tail[..|line|] == line;
    if rest != [] {
      assert tail == line + [LF] + Join(rest);
      assert tail[|line| + 1..] == Join(rest);
    }
  }

  lemma PartStands(part: Text, skip: nat, line: Text, text: Text, at: nat)
    requires StandsAt(line, text, at) && skip + |part| <= |line| && line[skip..skip + |part|] == part
    ensures StandsAt(part, text, at + skip)
  {
    forall i | 0 <= i < |part|
      ensures text[at + skip + i] == part[i]
    {
      assert part[i] == line[skip..skip + |part|][i] == line[skip + i] == text[at..at + |line|][skip + i];
    }
  }

  lemma FirstLine(blocks: seq<Block>, inCode: bool, text: Text, at: nat)
    requires blocks != [] && Ends(Join(Lines(blocks, inCode)), text, at)
    ensures var b := blocks[0];
            Ends(Join([SerializeBlock(b)] + Lines(blocks[1..], b.kind.Code?)), text, LineStart(b, inCode, at))
  {
    hide SerializeBlock, Join, StandsAt, Ends;
    var b := blocks[0];
    var lines := [SerializeBlock(b)] + Lines(blocks[1..], b.kind.Code?);
    if b.kind.Code? != inCode {
      assert Lines(blocks, inCode) == [FENCE] + lines;
      JoinCons(FENCE, lines, text, at);
    } else {
      assert Lines(blocks, inCode) == lines;
    }
  }

  /** One block: its text stands where its span says, and the lines of the others follow. */
  lemma FirstSpan(blocks: seq<Block>, inCode: bool, text: Text, at: nat)
    requires blocks != [] && Ends(Join(Lines(blocks, inCode)), text, at)
    ensures var b := blocks[0];
            && StandsAt(BlockText(b), text, SpanOf(b, inCode, at).contentStart)
            && (blocks[1..] != [] ==> Ends(Join(Lines(blocks[1..], b.kind.Code?)), text, LineEnd(b, inCode, at) + 1))
  {
    var b := blocks[0];
    assert blocks[1..] != [] ==> Lines(blocks[1..], b.kind.Code?) != [];
    hide SerializeBlock, BlockText, PrefixLength, Join, StandsAt, Ends, Lines;
    FirstLine(blocks, inCode, text, at);
    JoinCons(SerializeBlock(b), Lines(blocks[1..], b.kind.Code?), text, LineStart(b, inCode, at));
    TextInLine(b);
    PartStands(BlockText(b), PrefixLength(b.kind), SerializeBlock(b), text, LineStart(b, inCode, at));
  }

  lemma TextInLine(b: Block)
    ensures var skip := PrefixLength(b.kind);
            && skip + |BlockText(b)| <= |SerializeBlock(b)|
            && SerializeBlock(b)[skip..skip + |BlockText(b)|] == BlockText(b)
  {
  }

  lemma {:induction false} SpanStands(blocks: seq<Block>, inCode: bool, text: Text, at: nat, i: nat)
    requires i < |blocks| && Ends(Join(Lines(blocks, inCode)), text, at)
    ensures var span := SpansFrom(blocks, inCode, at)[i];
            && at <= span.contentStart && span.contentEnd == span.contentStart + |BlockText(blocks[i])|
            && StandsAt(BlockText(blocks[i]), text, span.contentStart)
    decreases i
  {
    hide SerializeBlock, BlockText, PrefixLength, Join, StandsAt, Ends, Lines;
    FirstSpan(blocks, inCode, text, at);
    if i > 0 {
      SpanStands(blocks[1..], blocks[0].kind.Code?, text, LineEnd(blocks[0], inCode, at) + 1, i - 1);
    }
  }

  lemma {:induction false} SpansAscend(blocks: seq<Block>, inCode: bool, at: nat, i: nat, j: nat)
    requires i < j < |blocks|
    ensures SpansFrom(blocks, inCode, at)[i].contentEnd < SpansFrom(blocks, inCode, at)[j].contentStart
    decreases i
  {
    hide SerializeBlock, BlockText, PrefixLength;
    var isCode, next := blocks[0].kind.Code?, LineEnd(blocks[0], inCode, at) + 1;
    if i > 0 {
      SpansAscend(blocks[1..], isCode, next, i - 1, j - 1);
    } else {
      TextInLine(blocks[0]);
      StartsAfter(blocks[1..], isCode, next, j - 1);
    }
  }

  lemma {:induction false} StartsAfter(blocks: seq<Block>, inCode: bool, at: nat, i: nat)
    requires i < |blocks|
    ensures at <= SpansFrom(blocks, inCode, at)[i].contentStart
    decreases i
  {
    hide SerializeBlock, BlockText, PrefixLength;
    if i > 0 {
      StartsAfter(blocks[1..], blocks[0].kind.Code?, LineEnd(blocks[0], inCode, at) + 1, i - 1);
    }
  }

  /** For every list of blocks, the text of each is the slice of the written document between the ends
      of its span. */
  lemma SpansAgree(blocks: seq<Block>, i: nat)
    requires i < |blocks|
    ensures var span, text := SpansOf(blocks)[i], Serialized(blocks);
            && span.contentStart <= span.contentEnd <= |text|
            && text[span.contentStart..span.contentEnd] == BlockText(blocks[i])
  {
    hide SpansFrom, Lines, Join, BlockText;
    var text := Serialized(blocks);
    assert text[0..] == text;
    SpanStands(blocks, false, text, 0, i);
  }

  /** The spans are strictly ordered. */
  lemma SpansAreOrdered(blocks: seq<Block>)
    ensures forall i, j :: 0 <= i < j < |blocks| ==> SpansOf(blocks)[i].contentEnd < SpansOf(blocks)[j].contentStart
  {
    hide SpansFrom;
    forall i, j | 0 <= i < j < |blocks|
      ensures SpansOf(blocks)[i].contentEnd < SpansOf(blocks)[j].contentStart
    {
      SpansAscend(blocks, false, 0, i, j);
    }
  }

  // ---- Caret ----

  /** documentCaretOffset for a caret in the block with the given number; a divider holds no caret. */
  function SavedOffset(blocks: seq<Block>, place: Place): Option<nat>
    requires place.block < |blocks|
  {
    if blocks[place.block].kind.Divider? then None
    else Some(SpansOf(blocks)[place.block].contentStart + place.offset)
  }

  /** The first span that ends at or after the offset, or the last span. */
  function SpanFor(spans: seq<Span>, offset: int): (i: nat)
    requires spans != []
    ensures i < |spans|
    ensures forall k :: 0 <= k < i ==> spans[k].contentEnd < offset
    ensures i < |spans| - 1 ==> offset <= spans[i].contentEnd
  {
    if |spans| == 1 || offset <= spans[0].contentEnd then 0 else 1 + SpanFor(spans[1..], offset)
  }

  function Clamp(value: int, low: int, high: int): int {
    var capped := if value < high then value else high;
    if low > capped then low else capped
  }

  /** restoreDocumentCaret: None stands for its false result. The caller's offset may be any integer. */
  function Restored(blocks: seq<Block>, offset: Option<int>): Option<Place> {
    if offset.None? || blocks == [] then None
    else
      var clamped := Clamp(offset.value, 0, |Serialized(blocks)|);
      var spans := SpansOf(blocks);
      var i := SpanFor(spans, clamped);
      Some(Place(i, Clamp(clamped - spans[i].contentStart, 0, |BlockText(blocks[i])|)))
  }

  lemma SpanForUnique(spans: seq<Span>, offset: int, i: nat)
    requires i < |spans|
    requires forall k :: 0 <= k < i ==> spans[k].contentEnd < offset
    requires i < |spans| - 1 ==> offset <= spans[i].contentEnd
    ensures SpanFor(spans, offset) == i
  {
    var j := SpanFor(spans, offset);
    assert forall k :: 0 <= k < j ==> spans[k].contentEnd < offset;
  }

  method RestoreDocumentCaret(blocks: seq<Block>, offset: Option<int>) returns (place: Option<Place>)
    ensures place == Restored(blocks, offset)
  {
    hide Serialized, SpansOf, BlockText, SpanFor;
    if offset.None? {
      return None;
    }
    var spans := SerializedBlockSpans(blocks);
    if |spans| == 0 {
      return None;
    }
    var text := SerializeEditor(blocks);
    var clamped := Clamp(offset.value, 0, |text|);
    var fallback := |spans| - 1;
    for k := 0 to |spans|
      invariant fallback == |spans| - 1
      invariant forall m :: 0 <= m < k ==> spans[m].contentEnd < clamped
    {
      if clamped <= spans[k].contentEnd {
        fallback := k;
        break;
      }
    }
    SpanForUnique(spans, clamped, fallback);
    place := Some(Place(fallback, Clamp(clamped - spans[fallback].contentStart, 0, |BlockText(blocks[fallback])|)));
  }

  /** A caret that was saved is restored to the same block and offset, exactly when the offset is inside
      the block's text (zero-width spaces count for the caret, but are not written). */
  lemma SaveThenRestoreIff(blocks: seq<Block>, place: Place)
    requires place.block < |blocks| && !blocks[place.block].kind.Divider?
    ensures Restored(blocks, Some(SavedOffset(blocks, place).value)) == Some(place)
            <==> place.offset <= |BlockText(blocks[place.block])|
  {
    hide Serialized, SpansOf, BlockText, SpanFor;
    SpansAreOrdered(blocks);
    SpansAgree(blocks, place.block);
    SpanLength(blocks, place.block);
    if place.offset <= |BlockText(blocks[place.block])| {
      forall k | 0 <= k < place.block
        ensures SpansOf(blocks)[k].contentEnd < SpansOf(blocks)[place.block].contentStart
      {
      }
      SpanForUnique(SpansOf(blocks), SavedOffset(blocks, place).value, place.block);
    }
  }

  lemma SpanLength(blocks: seq<Block>, i: nat)
    requires i < |blocks|
    ensures SpansOf(blocks)[i].contentEnd == SpansOf(blocks)[i].contentStart + |BlockText(blocks[i])|
  {
    hide SpansFrom, Lines, Join, BlockText;
    var text := Serialized(blocks);
    assert text[0..] == text;
    SpanStands(blocks, false, text, 0, i);
  }

  /** The other way round: an offset inside a block's text is restored to that block, and saving the
      restored caret gives the offset again. */
  lemma RestoreThenSave(blocks: seq<Block>, offset: nat, i: nat)
    requires i < |blocks| && !blocks[i].kind.Divider?
    requires SpansOf(blocks)[i].contentStart <= offset <= SpansOf(blocks)[i].contentEnd
    ensures var place := Place(i, offset - SpansOf(blocks)[i].contentStart);
            Restored(blocks, Some(offset)) == Some(place) && SavedOffset(blocks, place) == Some(offset)
  {
    hide SpansOf, BlockText, Restored;
    SpanLength(blocks, i);
    SaveThenRestoreIff(blocks, Place(i, offset - SpansOf(blocks)[i].contentStart));
  }

  /** The place an offset between the texts is restored to, and every other one: inside a block's text it is that
      place; before it, in the block's own prefix, in a fence or in the line break, the start of the next block;
      past everything, the end of the last block; before everything, the start of the first. */
  lemma RestoredAnywhere(blocks: seq<Block>, offset: int, i: nat)
    requires i < |blocks|
    ensures var spans := SpansOf(blocks);
            && (spans[i].contentStart <= offset <= spans[i].contentEnd ==>
                  Restored(blocks, Some(offset)) == Some(Place(i, offset - spans[i].contentStart)))
            && ((i == 0 || spans[i - 1].contentEnd < offset) && offset <= spans[i].contentStart ==>
                  Restored(blocks, Some(offset)) == Some(Place(i, 0)))
            && (i == |blocks| - 1 && spans[i].contentEnd <= offset ==>
                  Restored(blocks, Some(offset)) == Some(Place(i, |BlockText(blocks[i])|)))
  {
    hide SpansOf, BlockText, Serialized, SpanFor;
    var spans := SpansOf(blocks);
    SpansAreOrdered(blocks);
    SpansAgree(blocks, i);
    SpanLength(blocks, i);
    var clamped := Clamp(offset, 0, |Serialized(blocks)|);
    if (i == 0 || spans[i - 1].contentEnd < offset) && (offset <= spans[i].contentEnd || i == |blocks| - 1) {
      forall k | 0 <= k < i
        ensures spans[k].contentEnd < clamped
      {
        if k < i - 1 {
          assert spans[k].contentEnd < spans[i - 1].contentStart <= spans[i - 1].contentEnd by {
            SpansAgree(blocks, i - 1);
          }
        }
      }
      SpanForUnique(spans, clamped, i);
    }
  }

  /** Some block covers every offset, so these are all; without an offset or a block nothing is restored. */
  lemma RestoredSomewhere(blocks: seq<Block>, offset: Option<int>)
    ensures Restored(blocks, offset).None? <==> offset.None? || blocks == []
    ensures Restored(blocks, offset).Some? ==>
              var place := Restored(blocks, offset).value;
              place.block < |blocks| && place.offset <= |BlockText(blocks[place.block])|
  {
    hide SpansOf, BlockText, Serialized, SpanFor;
  }
}
