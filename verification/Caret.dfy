/** Moving the caret over a remote edit: the native window's 32-bit selection
    (client/window.cpp) and the browser's document offset (ui/app.js). */
module Caret {
  import opened WideText
  import opened DocumentModel

  const MAXDWORD: nat := 0xFFFF_FFFF

  type Dword = d: nat | d <= MAXDWORD

  datatype EditorSelection = EditorSelection(start: Dword, end: Dword)

  function ClampToDword(value: nat): Dword {
    if value > MAXDWORD then MAXDWORD else value
  }

  function AdjustIndexForInsert(index: Dword, position: nat, length: nat): Dword {
    if index < position then index else ClampToDword(index + length)
  }

  function AdjustIndexForDelete(index: Dword, position: nat, length: nat): Dword {
    var deletedEnd := position + length;
    if index <= position then index
    else if index <= deletedEnd then ClampToDword(position)
    else ClampToDword(index - length)
  }

  function AdjustIndex(index: Dword, op: Operation): Dword {
    match op
    case InsertAt(pos, text) => AdjustIndexForInsert(index, pos, |text|)
    case DeleteAt(pos, len) => AdjustIndexForDelete(index, pos, len)
  }

  function AdjustSelection(selection: EditorSelection, op: Operation): EditorSelection {
    EditorSelection(AdjustIndex(selection.start, op), AdjustIndex(selection.end, op))
  }

  function ClampSelectionToText(selection: EditorSelection, textLength: nat): EditorSelection {
    var limit := ClampToDword(textLength);
    EditorSelection(if selection.start < limit then selection.start else limit,
                    if selection.end < limit then selection.end else limit)
  }

  /** The browser's rule; no offset or no operation leaves the caret alone. */
  function TransformedCaretOffset(offset: Option<nat>, operation: Option<Operation>): Option<nat> {
    if offset.None? || operation.None? then offset
    else
      var caret := offset.value;
      match operation.value
      case InsertAt(pos, text) => if pos <= caret then Some(caret + |text|) else offset
      case DeleteAt(pos, len) =>
        if pos >= caret then offset
        else
          var removed := if len < caret - pos then len else caret - pos;
          Some(if pos > caret - removed then pos else caret - removed)
  }

  /** A document seen from the caret: what stands before it and what stands after it. */
  datatype Cursor = Cursor(left: Text, right: Text)

  function CursorAt(content: Text, caret: nat): Cursor
    requires caret <= |content|
  {
    Cursor(content[..caret], content[caret..])
  }

  /** An edit falls into the text before the caret, into the text after it, or, for a deletion
      around the caret, into both. Text inserted at the caret goes before it. */
  function EditAround(cursor: Cursor, op: Operation): Cursor
    requires Status(cursor.left + cursor.right, op).Applied?
  {
    var mid := |cursor.left|;
    match op
    case InsertAt(pos, text) =>
      if pos <= mid then cursor.(left := Replace(cursor.left, pos, 0, text))
      else cursor.(right := Replace(cursor.right, pos - mid, 0, text))
    case DeleteAt(pos, len) =>
      if pos >= mid then cursor.(right := Replace(cursor.right, pos - mid, len, []))
      else if pos + len <= mid then cursor.(left := Replace(cursor.left, pos, len, []))
      else Cursor(cursor.left[..pos], cursor.right[pos + len - mid..])
  }

  lemma EditAroundIsEdit(cursor: Cursor, op: Operation)
    requires Status(cursor.left + cursor.right, op).Applied?
    ensures EditAround(cursor, op).left + EditAround(cursor, op).right == Edit(cursor.left + cursor.right, op)
  {
    var left, right, mid := cursor.left, cursor.right, |cursor.left|;
    match op {
      case InsertAt(pos, text) =>
        if pos <= mid {
          ReplaceInLeft(left, right, pos, 0, text);
        } else {
          ReplaceInRight(left, right, pos - mid, 0, text);
        }
      case DeleteAt(pos, len) =>
        if pos >= mid {
          ReplaceInRight(left, right, pos - mid, len, []);
        } else if pos + len <= mid {
          ReplaceInLeft(left, right, pos, len, []);
        } else {
          assert (left + right)[..pos] == left[..pos];
          assert (left + right)[pos + len..] == right[pos + len - mid..];
        }
    }
  }

  /** The two transformations agree exactly when the native one does not have to clamp. */
  lemma NativeMatchesBrowser(index: Dword, op: Operation)
    ensures TransformedCaretOffset(Some(index), Some(op)) == Some(AdjustIndex(index, op)) <==>
            (op.InsertAt? && op.pos <= index ==> index + |op.text| <= MAXDWORD)
  {
  }

  /** Both ends of a selection move without crossing. */
  lemma SelectionStaysOrdered(selection: EditorSelection, op: Operation)
    requires selection.start <= selection.end
    ensures AdjustSelection(selection, op).start <= AdjustSelection(selection, op).end
  {
  }

  /** One applied edit: the caret moves to where the cursor view says, so the text on its left is the
      old left text with the edit's effect on it, and likewise on its right. */
  lemma CaretFollowsEdit(content: Text, caret: Dword, op: Operation)
    requires caret <= |content| && |content| <= MAXDWORD && Status(content, op).Applied?
    ensures var moved := AdjustIndex(caret, op);
            && moved <= |Edit(content, op)| <= MAXDWORD
            && TransformedCaretOffset(Some(caret), Some(op)) == Some(moved)
            && content[..caret] + content[caret..] == content
            && CursorAt(Edit(content, op), moved) == EditAround(CursorAt(content, caret), op)
  {
    assert content[..caret] + content[caret..] == content;
    var cursor := CursorAt(content, caret);
    EditAroundIsEdit(cursor, op);
    var next := EditAround(cursor, op);
    assert |next.left| == AdjustIndex(caret, op);
    assert (next.left + next.right)[..|next.left|] == next.left;
    assert (next.left + next.right)[|next.left|..] == next.right;
  }

  function MoveCaret(caret: Dword, ops: seq<Operation>): Dword
    decreases |ops|
  {
    if ops == [] then caret else MoveCaret(AdjustIndex(caret, ops[0]), ops[1..])
  }

  function MoveBrowserCaret(caret: Option<nat>, ops: seq<Operation>): Option<nat>
    decreases |ops|
  {
    if ops == [] then caret else MoveBrowserCaret(TransformedCaretOffset(caret, Some(ops[0])), ops[1..])
  }

  function FoldAround(cursor: Cursor, ops: seq<Operation>): Cursor
    requires Fold(cursor.left + cursor.right, ops).Some?
    decreases |ops|
  {
    if ops == [] then cursor
    else
      EditAroundIsEdit(cursor, ops[0]);
      FoldAround(EditAround(cursor, ops[0]), ops[1..])
  }

  /** After any run of applied edits the caret is inside the text and splits it into the old left
      text and the old right text, each with the edits' effect on it; both clients agree on it. */
  lemma {:induction false} CaretFollowsEdits(content: Text, caret: Dword, ops: seq<Operation>)
    requires caret <= |content| && |content| <= MAXDWORD && Fold(content, ops).Some?
    ensures content[..caret] + content[caret..] == content
    ensures MoveCaret(caret, ops) <= |Fold(content, ops).value|
    ensures MoveBrowserCaret(Some(caret), ops) == Some(MoveCaret(caret, ops))
    ensures CursorAt(Fold(content, ops).value, MoveCaret(caret, ops)) == FoldAround(CursorAt(content, caret), ops)
    decreases |ops|
  {
    assert content[..caret] + content[caret..] == content;
    if ops != [] {
      CaretFollowsEdit(content, caret, ops[0]);
      CaretFollowsEdits(Edit(content, ops[0]), AdjustIndex(caret, ops[0]), ops[1..]);
    }
  }

  function MoveSelection(selection: EditorSelection, ops: seq<Operation>): EditorSelection
    decreases |ops|
  {
    if ops == [] then selection else MoveSelection(AdjustSelection(selection, ops[0]), ops[1..])
  }

  lemma {:induction false} MoveSelectionEnds(selection: EditorSelection, ops: seq<Operation>)
    requires selection.start <= selection.end
    ensures MoveSelection(selection, ops) == EditorSelection(MoveCaret(selection.start, ops), MoveCaret(selection.end, ops))
    ensures MoveSelection(selection, ops).start <= MoveSelection(selection, ops).end
    decreases |ops|
  {
    if ops != [] {
      SelectionStaysOrdered(selection, ops[0]);
      MoveSelectionEnds(AdjustSelection(selection, ops[0]), ops[1..]);
    }
  }

  /** A selection inside the document stays ordered and inside it over any run of applied edits;
      the final clamp to the text length has nothing left to do. */
  lemma SelectionFollowsEdits(content: Text, selection: EditorSelection, ops: seq<Operation>)
    requires selection.start <= selection.end <= |content| && |content| <= MAXDWORD && Fold(content, ops).Some?
    ensures var moved := MoveSelection(selection, ops);
            && moved.start <= moved.end <= |Fold(content, ops).value|
            && ClampSelectionToText(moved, |Fold(content, ops).value|) == moved
  {
    MoveSelectionEnds(selection, ops);
    CaretFollowsEdits(content, selection.start, ops);
    CaretFollowsEdits(content, selection.end, ops);
    FoldStaysWithinLimit(content, ops);
  }

  /** The last clamp: both ends come to lie inside the text or stay where they are, and keep their order. The
      browser leaves a caret alone that is not there, or for which there is no operation. */
  lemma ClampIsInside(selection: EditorSelection, textLength: nat)
    requires textLength <= MAXDWORD
    ensures var clamped := ClampSelectionToText(selection, textLength);
            && clamped.start <= textLength && clamped.end <= textLength
            && (selection.start <= textLength ==> clamped.start == selection.start)
            && (selection.end <= textLength ==> clamped.end == selection.end)
            && (selection.start <= selection.end ==> clamped.start <= clamped.end)
            && (selection.start > textLength ==> clamped.start == textLength)
            && (selection.end > textLength ==> clamped.end == textLength)
    ensures forall op :: TransformedCaretOffset(None, op) == None
    ensures forall caret: nat :: TransformedCaretOffset(Some(caret), None) == Some(caret)
  {
  }
}
