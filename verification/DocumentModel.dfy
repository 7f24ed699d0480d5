/** Checked in-place edits of a document (client/document_model.cpp). */
module DocumentModel {
  import opened WideText

  const MAX_DOCUMENT_CHARS: nat := 5 * 1024 * 1024

  datatype ApplyStatus = Applied | InvalidOperation | InvalidPosition | InsertTooLarge | DocumentTooLarge

  datatype Operation = InsertAt(pos: nat, text: Text) | DeleteAt(pos: nat, len: nat)

  /** A string that the edits change in place. */
  class TextBuffer {
    var content: Text

    constructor (content: Text)
      ensures this.content == content
    {
      this.content := content;
    }
  }

  /** The text with `length` units at `position` replaced by `text`. */
  function Replace(content: Text, position: nat, length: nat, text: Text): Text
    requires position + length <= |content|
  {
    content[..position] + text + content[position + length..]
  }

  lemma ReplaceInLeft(left: Text, right: Text, position: nat, length: nat, text: Text)
    requires position + length <= |left|
    ensures Replace(left + right, position, length, text) == Replace(left, position, length, text) + right
  {
    var content := left + right;
    assert content[..position] == left[..position];
    assert content[position + length..] == left[position + length..] + right;
  }

  lemma ReplaceInRight(left: Text, right: Text, position: nat, length: nat, text: Text)
    requires position + length <= |right|
    ensures Replace(left + right, |left| + position, length, text) == left + Replace(right, position, length, text)
  {
    var content := left + right;
    assert content[..|left| + position] == left + right[..position];
    assert content[|left| + position + length..] == right[position + length..];
  }

  function Status(content: Text, op: Operation): ApplyStatus {
    match op
    case InsertAt(pos, text) =>
      if text == [] then InvalidOperation
      else if pos > |content| then InvalidPosition
      else if |content| + |text| > MAX_DOCUMENT_CHARS then DocumentTooLarge
      else Applied
    case DeleteAt(pos, len) =>
      if len == 0 then InvalidOperation
      else if pos > |content| || len > |content| - pos then InvalidPosition
      else Applied
  }

  function Edit(content: Text, op: Operation): Text
    requires Status(content, op).Applied?
  {
    match op
    case InsertAt(pos, text) => Replace(content, pos, 0, text)
    case DeleteAt(pos, len) => Replace(content, pos, len, [])
  }

  /** Content after the attempt: edited when the operation applies, untouched otherwise. */
  function After(content: Text, op: Operation): Text {
    if Status(content, op).Applied? then Edit(content, op) else content
  }

  method ApplyInsertToContent(buffer: TextBuffer, position: nat, text: Text) returns (status: ApplyStatus)
    modifies buffer
    ensures status == Status(old(buffer.content), InsertAt(position, text))
    ensures buffer.content == After(old(buffer.content), InsertAt(position, text))
  {
    if text == [] {
      return InvalidOperation;
    }
    if position > |buffer.content| {
      return InvalidPosition;
    }
    if |buffer.content| + |text| > MAX_DOCUMENT_CHARS {
      return DocumentTooLarge;
    }
    buffer.content := buffer.content[..position] + text + buffer.content[position..];
    return Applied;
  }

  method ApplyDeleteToContent(buffer: TextBuffer, position: nat, length: nat) returns (status: ApplyStatus)
    modifies buffer
    ensures status == Status(old(buffer.content), DeleteAt(position, length))
    ensures buffer.content == After(old(buffer.content), DeleteAt(position, length))
  {
    if length == 0 {
      return InvalidOperation;
    }
    if position > |buffer.content| || length > |buffer.content| - position {
      return InvalidPosition;
    }
    buffer.content := buffer.content[..position] + buffer.content[position + length..];
    assert buffer.content == Replace(old(buffer.content), position, length, []);
    return Applied;
  }

  /** Applies operations left to right; None as soon as one of them is refused. */
  function Fold(content: Text, ops: seq<Operation>): Option<Text>
    decreases |ops|
  {
    if ops == [] then Some(content)
    else if !Status(content, ops[0]).Applied? then None
    else Fold(Edit(content, ops[0]), ops[1..])
  }

  lemma {:induction false} FoldAppend(content: Text, first: seq<Operation>, second: seq<Operation>)
    ensures Fold(content, first + second)
         == if Fold(content, first).Some? then Fold(Fold(content, first).value, second) else None
    decreases |first|
  {
    if first == [] {
      assert first + second == second;
    } else {
      assert (first + second)[1..] == first[1..] + second;
      if Status(content, first[0]).Applied? {
        FoldAppend(Edit(content, first[0]), first[1..], second);
      }
    }
  }

  lemma FoldFirst(content: Text, op: Operation, rest: seq<Operation>)
    ensures Fold(content, [op] + rest)
         == if Status(content, op).Applied? then Fold(Edit(content, op), rest) else None
  {
    hide Edit, Status;
    assert ([op] + rest)[1..] == rest;
  }

  lemma FoldOne(content: Text, op: Operation)
    ensures Fold(content, [op]) == if Status(content, op).Applied? then Some(Edit(content, op)) else None
  {
    assert [op][1..] == [];
  }

  /** The operation that takes an applied one back. */
  function Inverse(content: Text, op: Operation): Operation
    requires Status(content, op).Applied?
  {
    match op
    case InsertAt(pos, text) => DeleteAt(pos, |text|)
    case DeleteAt(pos, len) => InsertAt(pos, content[pos..pos + len])
  }

  /** Putting back what a replacement took out. */
  lemma ReplaceBack(content: Text, pos: nat, len: nat, text: Text)
    requires pos + len <= |content|
    ensures Replace(Replace(content, pos, len, text), pos, |text|, content[pos..pos + len]) == content
  {
    var edited := Replace(content, pos, len, text);
    assert edited[..pos] == content[..pos];
    assert edited[pos + |text|..] == content[pos + len..];
    assert content == content[..pos] + content[pos..pos + len] + content[pos + len..];
  }

  /** Every applied edit of a document within the limit is undone by its inverse. */
  lemma EditThenInverse(content: Text, op: Operation)
    requires Status(content, op).Applied? && |content| <= MAX_DOCUMENT_CHARS
    ensures Status(Edit(content, op), Inverse(content, op)).Applied?
    ensures Edit(Edit(content, op), Inverse(content, op)) == content
  {
    match op {
      case InsertAt(pos, text) =>
        ReplaceBack(content, pos, 0, text);
        assert content[pos..pos] == [];
      case DeleteAt(pos, len) => ReplaceBack(content, pos, len, []);
    }
  }

  /** No run of edits takes a document past the limit, unless it started past it. */
  lemma {:induction false} FoldStaysWithinLimit(content: Text, ops: seq<Operation>)
    requires Fold(content, ops).Some?
    ensures |Fold(content, ops).value| <= MAX_DOCUMENT_CHARS || |Fold(content, ops).value| <= |content|
    decreases |ops|
  {
    if ops != [] {
      FoldStaysWithinLimit(Edit(content, ops[0]), ops[1..]);
    }
  }
}
