/** The single-replacement diff, computed by the C++ client (client/editor_diff.cpp) and again
    by the browser (ui/app.js), and the browser's own way of applying one operation. */
module EditorDiff {
  import opened WideText
  import opened DocumentModel

  datatype DiffResult = DiffResult(valid: bool, changed: bool, documentTooLarge: bool, operations: seq<Operation>)

  /** The end of the run of equal units that starts at `from`. */
  function PrefixEnd(a: Text, b: Text, from: nat): (n: nat)
    requires from <= |a| && from <= |b|
    ensures from <= n <= |a| && n <= |b|
    ensures forall i :: from <= i < n ==> a[i] == b[i]
    ensures n < |a| && n < |b| ==> a[n] != b[n]
    decreases |a| - from
  {
    if from == |a| || from == |b| || a[from] != b[from] then from else PrefixEnd(a, b, from + 1)
  }

  /** Length of the longest common prefix. */
  function CommonPrefix(a: Text, b: Text): nat {
    PrefixEnd(a, b, 0)
  }

  /** How far a common suffix of `from` units extends without reaching the first `keep` units
      of either text. */
  function SuffixEnd(a: Text, b: Text, keep: nat, from: nat): (n: nat)
    requires keep + from <= |a| && keep + from <= |b|
    ensures from <= n && keep + n <= |a| && keep + n <= |b|
    ensures forall i :: |a| - n <= i < |a| - from ==> a[i] == b[i + |b| - |a|]
    ensures keep + n < |a| && keep + n < |b| ==> a[|a| - n - 1] != b[|b| - n - 1]
    decreases |a| - from
  {
    if keep + from == |a| || keep + from == |b| || a[|a| - from - 1] != b[|b| - from - 1] then from
    else SuffixEnd(a, b, keep, from + 1)
  }

  /** Length of the longest common suffix that leaves the first `keep` units of both texts alone. */
  function CommonSuffix(a: Text, b: Text, keep: nat): nat
    requires keep <= |a| && keep <= |b|
  {
    SuffixEnd(a, b, keep, 0)
  }

  /** Units the diff deletes, and text it inserts, between the kept prefix and suffix. */
  function DeletedLength(before: Text, after: Text): nat {
    var prefix := CommonPrefix(before, after);
    |before| - prefix - CommonSuffix(before, after, prefix)
  }

  function InsertedText(before: Text, after: Text): Text {
    var prefix := CommonPrefix(before, after);
    after[prefix..|after| - CommonSuffix(before, after, prefix)]
  }

  function DiffOperations(before: Text, after: Text): seq<Operation> {
    var prefix := CommonPrefix(before, after);
    var deleted := DeletedLength(before, after);
    var inserted := InsertedText(before, after);
    (if deleted > 0 then [DeleteAt(prefix, deleted)] else [])
    + (if inserted != [] then [InsertAt(prefix, inserted)] else [])
  }

  function Diff(before: Text, after: Text): DiffResult {
    if |after| > MAX_DOCUMENT_CHARS then DiffResult(false, false, true, [])
    else DiffResult(true, before != after, false, DiffOperations(before, after))
  }

  /** A prefix and a suffix that can be extended no further are the longest ones. */
  lemma PrefixUnique(a: Text, b: Text, n: nat)
    requires n <= |a| && n <= |b|
    requires forall i :: 0 <= i < n ==> a[i] == b[i]
    requires n < |a| && n < |b| ==> a[n] != b[n]
    ensures n == CommonPrefix(a, b)
  {
  }

  lemma SuffixUnique(a: Text, b: Text, keep: nat, n: nat)
    requires keep + n <= |a| && keep + n <= |b|
    requires forall i :: |a| - n <= i < |a| ==> a[i] == b[i + |b| - |a|]
    requires keep + n < |a| && keep + n < |b| ==> a[|a| - n - 1] != b[|b| - n - 1]
    ensures n == CommonSuffix(a, b, keep)
  {
  }

  lemma EqualTexts(text: Text)
    ensures DiffOperations(text, text) == []
  {
    PrefixUnique(text, text, |text|);
  }

  method ComputeEditorDiff(oldText: Text, newText: Text) returns (result: DiffResult)
    ensures result == Diff(oldText, newText)
  {
    if |newText| > MAX_DOCUMENT_CHARS {
      return DiffResult(false, false, true, []);
    }
    if oldText == newText {
      EqualTexts(oldText);
      return DiffResult(true, false, false, []);
    }

    var prefix := 0;
    var minSize := if |oldText| < |newText| then |oldText| else |newText|;
    while prefix < minSize && oldText[prefix] == newText[prefix]
      invariant prefix <= minSize
      invariant forall i :: 0 <= i < prefix ==> oldText[i] == newText[i]
    {
      prefix := prefix + 1;
    }
    PrefixUnique(oldText, newText, prefix);

    var oldSuffix, newSuffix := |oldText|, |newText|;
    while oldSuffix > prefix && newSuffix > prefix && oldText[oldSuffix - 1] == newText[newSuffix - 1]
      invariant prefix <= oldSuffix <= |oldText| && prefix <= newSuffix <= |newText|
      invariant |oldText| - oldSuffix == |newText| - newSuffix
      invariant forall i :: oldSuffix <= i < |oldText| ==> oldText[i] == newText[i + |newText| - |oldText|]
    {
      oldSuffix, newSuffix := oldSuffix - 1, newSuffix - 1;
    }
    SuffixUnique(oldText, newText, prefix, |oldText| - oldSuffix);

    var deletedLength := oldSuffix - prefix;
    var insertedText := newText[prefix..newSuffix];
    assert deletedLength == DeletedLength(oldText, newText) && insertedText == InsertedText(oldText, newText);
    hide CommonSuffix, DeletedLength, InsertedText;
    var operations := [];
    if deletedLength > 0 {
      operations := operations + [DeleteAt(prefix, deletedLength)];
    }
    if insertedText != [] {
      operations := operations + [InsertAt(prefix, insertedText)];
    }
    result := DiffResult(true, true, false, operations);
  }

  /** The browser counts the suffix upwards instead of moving two end markers down,
      and still arrives at the same operations. */
  method ComputeRelayDiff(before: Text, after: Text) returns (operations: seq<Operation>)
    ensures operations == DiffOperations(before, after)
  {
    if before == after {
      EqualTexts(before);
      return [];
    }

    var prefix := 0;
    var minLength := if |before| < |after| then |before| else |after|;
    while prefix < minLength && before[prefix] == after[prefix]
      invariant prefix <= minLength
      invariant forall i :: 0 <= i < prefix ==> before[i] == after[i]
    {
      prefix := prefix + 1;
    }
    PrefixUnique(before, after, prefix);

    var suffix := 0;
    while suffix < |before| - prefix && suffix < |after| - prefix
        && before[|before| - 1 - suffix] == after[|after| - 1 - suffix]
      invariant suffix <= |before| - prefix && suffix <= |after| - prefix
      invariant forall i :: |before| - suffix <= i < |before| ==> before[i] == after[i + |after| - |before|]
    {
      suffix := suffix + 1;
    }
    SuffixUnique(before, after, prefix, suffix);

    var deleteLength := |before| - prefix - suffix;
    var insertText := after[prefix..|after| - suffix];
    operations := [];
    if deleteLength > 0 {
      operations := operations + [DeleteAt(prefix, deleteLength)];
    }
    if |insertText| > 0 {
      operations := operations + [InsertAt(prefix, insertText)];
    }
  }

  /** Texts that agree on a prefix and a suffix differ by one replacement. */
  lemma ReplaceMiddle(a: Text, b: Text, prefix: nat, suffix: nat)
    requires prefix + suffix <= |a| && prefix + suffix <= |b|
    requires forall i :: 0 <= i < prefix ==> a[i] == b[i]
    requires forall i :: |a| - suffix <= i < |a| ==> a[i] == b[i + |b| - |a|]
    ensures Replace(a, prefix, |a| - prefix - suffix, b[prefix..|b| - suffix]) == b
  {
    assert a[..prefix] == b[..prefix];
    var tailA, tailB := a[|a| - suffix..], b[|b| - suffix..];
    assert forall k :: 0 <= k < suffix ==> tailA[k] == tailB[k] by {
      forall k | 0 <= k < suffix ensures tailA[k] == tailB[k] {
        var i := |a| - suffix + k;
        assert a[i] == b[i + |b| - |a|];
      }
    }
    assert tailA == tailB;
    assert b == b[..prefix] + b[prefix..|b| - suffix] + b[|b| - suffix..];
  }

  /** Both texts are the common prefix and suffix around the part that changed. */
  lemma DiffShape(before: Text, after: Text)
    ensures Replace(before, CommonPrefix(before, after), DeletedLength(before, after),
                    InsertedText(before, after)) == after
  {
    var prefix := CommonPrefix(before, after);
    ReplaceMiddle(before, after, prefix, CommonSuffix(before, after, prefix));
  }

  /** Deleting and then inserting at one place is one replacement. */
  lemma DeleteThenInsert(content: Text, pos: nat, len: nat, text: Text)
    requires pos + len <= |content|
    ensures Replace(Replace(content, pos, len, []), pos, 0, text) == Replace(content, pos, len, text)
  {
    var kept := Replace(content, pos, len, []);
    assert kept[..pos] == content[..pos];
    assert kept[pos..] == content[pos + len..];
  }

  /** Replaying the diff never fails and turns the old text into exactly the new one. */
  lemma DiffReplays(before: Text, after: Text)
    requires |after| <= MAX_DOCUMENT_CHARS
    ensures Fold(before, DiffOperations(before, after)) == Some(after)
  {
    var prefix := CommonPrefix(before, after);
    var deleted := DeletedLength(before, after);
    var inserted := InsertedText(before, after);
    var kept := Replace(before, prefix, deleted, []);
    DiffShape(before, after);
    DeleteThenInsert(before, prefix, deleted, inserted);
    FoldOne(before, DeleteAt(prefix, deleted));
    FoldOne(kept, InsertAt(prefix, inserted));
    FoldAppend(before, [DeleteAt(prefix, deleted)], [InsertAt(prefix, inserted)]);
    if deleted == 0 {
      assert kept == before;
      assert DiffOperations(before, after) == if inserted == [] then [] else [InsertAt(prefix, inserted)];
    } else if inserted == [] {
      assert kept == after;
      assert DiffOperations(before, after) == [DeleteAt(prefix, deleted)];
    }
  }

  /** No single contiguous replacement with the same effect deletes or inserts fewer units. */
  lemma DiffIsSmallest(before: Text, after: Text, position: nat, length: nat, text: Text)
    requires position + length <= |before|
    requires Replace(before, position, length, text) == after
    ensures DeletedLength(before, after) <= length
    ensures |InsertedText(before, after)| <= |text|
  {
    var prefix := CommonPrefix(before, after);
    var suffix := CommonSuffix(before, after, prefix);
    var tail := |before| - position - length;
    assert forall i :: 0 <= i < position ==> before[i] == after[i];
    assert forall i :: |before| - tail <= i < |before| ==> before[i] == after[i + |after| - |before|];
    assert position <= prefix;
    assert prefix + suffix == |before| || prefix + suffix == |after| || tail <= suffix;
  }

  /** applyRelayOperation of the browser; None stands for its null result. Positions and
      lengths arrive as decoded integers and may be negative. */
  function ApplyRelayOperation(text: Text, isInsert: bool, position: int, inserted: Text, length: int): Option<Text> {
    if position < 0 || position > |text| then None
    else if isInsert then Some(text[..position] + inserted + text[position..])
    else if length < 0 || position + length > |text| then None
    else Some(text[..position] + text[position + length..])
  }

  function ApplyRelay(text: Text, op: Operation): Option<Text> {
    match op
    case InsertAt(pos, inserted) => ApplyRelayOperation(text, true, pos, inserted, 0)
    case DeleteAt(pos, len) => ApplyRelayOperation(text, false, pos, [], len)
  }

  /** Where both sides apply an operation they agree; the browser alone also applies the empty
      insert and delete, which change nothing, and inserts that outgrow the document limit. */
  lemma RelayAgreesWithClient(text: Text, op: Operation)
    ensures Status(text, op).Applied? ==> ApplyRelay(text, op) == Some(Edit(text, op))
    ensures Status(text, op).InvalidPosition? ==> ApplyRelay(text, op).None?
    ensures Status(text, op).InvalidOperation? && ApplyRelay(text, op).Some? ==> ApplyRelay(text, op) == Some(text)
    ensures ApplyRelay(text, op).Some? && !Status(text, op).Applied? <==>
            match op
            case InsertAt(pos, inserted) =>
              pos <= |text| && (inserted == [] || |text| + |inserted| > MAX_DOCUMENT_CHARS)
            case DeleteAt(pos, len) => pos <= |text| && len == 0
  {
    match op {
      case InsertAt(pos, inserted) =>
        if inserted == [] && pos <= |text| {
          assert text == text[..pos] + inserted + text[pos..];
        }
      case DeleteAt(pos, len) =>
        if pos <= |text| && len == 0 {
          assert text == text[..pos] + text[pos..];
        }
        if Status(text, op).Applied? {
          assert Edit(text, op) == text[..pos] + text[pos + len..];
        }
    }
  }

  function FoldRelay(text: Text, ops: seq<Operation>): Option<Text>
    decreases |ops|
  {
    if ops == [] then Some(text)
    else
      var next := ApplyRelay(text, ops[0]);
      if next.None? then None else FoldRelay(next.value, ops[1..])
  }

  /** Whatever sequence the client can apply, the browser applies with the same result. */
  lemma {:induction false} FoldRelayAgrees(text: Text, ops: seq<Operation>)
    requires Fold(text, ops).Some?
    ensures FoldRelay(text, ops) == Fold(text, ops)
    decreases |ops|
  {
    if ops != [] {
      RelayAgreesWithClient(text, ops[0]);
      FoldRelayAgrees(Edit(text, ops[0]), ops[1..]);
    }
  }

  /** A diff computed on either side and replayed on either side gives the new text. */
  lemma DiffReplaysOnBothSides(before: Text, after: Text)
    requires |after| <= MAX_DOCUMENT_CHARS
    ensures Fold(before, DiffOperations(before, after)) == Some(after)
    ensures FoldRelay(before, DiffOperations(before, after)) == Some(after)
  {
    DiffReplays(before, after);
    FoldRelayAgrees(before, DiffOperations(before, after));
  }

  /** The flags: a text over the limit is invalid and nothing else, any other is valid; it is changed exactly when
      the texts differ, and exactly then there is something to send. */
  lemma DiffFlags(before: Text, after: Text)
    ensures var diff := Diff(before, after);
            && (diff.valid <==> |after| <= MAX_DOCUMENT_CHARS) && (diff.documentTooLarge <==> !diff.valid)
            && (diff.changed <==> diff.valid && before != after)
            && (diff.changed <==> diff.operations != [])
  {
    if |after| <= MAX_DOCUMENT_CHARS {
      DiffReplays(before, after);
      if before == after {
        EqualTexts(before);
      }
    }
  }

  /** The browser refuses exactly the operations that are not inside the text, for every integer it may be sent;
      any other puts in or takes out what it says. */
  lemma RelayRefusesIff(text: Text, isInsert: bool, position: int, inserted: Text, length: int)
    ensures var result := ApplyRelayOperation(text, isInsert, position, inserted, length);
            && (result.None? <==> position < 0 || position > |text| || (!isInsert && (length < 0 || length > |text| - position)))
            && (result.Some? ==>
                  result.value == if isInsert then Replace(text, position, 0, inserted) else Replace(text, position, length, []))
  {
  }
}
