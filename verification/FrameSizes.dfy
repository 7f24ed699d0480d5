/** How many bytes the sync messages take on the wire: escaping and UTF-8 cost at most three bytes for
    every code unit, so every chunk of a document and every edit of moderate size fits one frame. */
module FrameSizes {
  import opened WideText
  import opened DocumentModel
  import opened Protocol
  import opened KeyOrder
  import opened JsonPrinter
  import opened Chunks
  import opened Server
  import opened Replica
  import opened TurnTaking
  import Frames

  /** Valid text of at most `bytes` bytes of UTF-8. */
  predicate Takes(t: Text, bytes: nat) {
    Utf8Size(t).Some? && Utf8Size(t).value <= bytes
  }

  predicate Plain(t: Text) {
    forall i :: 0 <= i < |t| ==> t[i] < 0x80
  }

  lemma {:induction false} PlainTakes(t: Text)
    requires Plain(t)
    ensures Takes(t, |t|)
  {
    if t != [] {
      PlainTakes(t[1..]);
    }
  }

  lemma TakesConcat(a: Text, m: nat, b: Text, n: nat)
    requires Takes(a, m) && Takes(b, n)
    ensures Takes(a + b, m + n)
  {
    Utf8SizeConcat(a, b);
  }

  lemma EscapeUnitTakes(ch: Unit)
    requires !IsHighSurrogate(ch) && !IsLowSurrogate(ch)
    ensures Takes(EscapeUnit(ch), 3)
  {
    if |EscapeUnit(ch)| == 2 {
      PlainTakes(EscapeUnit(ch));
    } else {
      assert EscapeUnit(ch)[1..] == [];
    }
  }

  /** A surrogate pair is printed as it is. */
  lemma EscapePair(t: Text)
    requires |t| >= 2 && IsHighSurrogate(t[0]) && IsLowSurrogate(t[1])
    ensures Escape(t) == [t[0], t[1]] + Escape(t[2..])
  {
    assert t[1..][1..] == t[2..] && t[1..][0] == t[1];
    assert EscapeUnit(t[0]) == [t[0]] && EscapeUnit(t[1]) == [t[1]];
    hide EscapeUnit;
    assert Escape(t) == EscapeUnit(t[0]) + Escape(t[1..]);
    assert Escape(t[1..]) == EscapeUnit(t[1]) + Escape(t[2..]);
  }

  lemma PairTakes(high: Unit, low: Unit)
    requires IsHighSurrogate(high) && IsLowSurrogate(low)
    ensures Takes([high, low], 4)
  {
    assert [high, low][2..] == [];
  }

  /** Escaping costs at most three bytes for every unit of valid text. */
  lemma {:induction false} EscapeTakes(t: Text)
    requires Utf8Size(t).Some?
    ensures Takes(Escape(t), 3 * |t|)
  {
    if t == [] {
    } else if IsHighSurrogate(t[0]) {
      EscapeTakes(t[2..]);
      EscapePair(t);
      PairTakes(t[0], t[1]);
      hide Escape, Takes;
      TakesConcat([t[0], t[1]], 4, Escape(t[2..]), 3 * |t[2..]|);
      TakesMore(Escape(t), 4 + 3 * |t[2..]|, 3 * |t|);
    } else {
      EscapeUnitTakes(t[0]);
      EscapeTakes(t[1..]);
      TakesConcat(EscapeUnit(t[0]), 3, Escape(t[1..]), 3 * |t[1..]|);
    }
  }

  lemma UnitTakes(ch: Unit)
    requires ch < 0x80
    ensures Takes([ch], 1)
  {
    PlainTakes([ch]);
  }

  lemma QuotedTakes(t: Text)
    requires Utf8Size(t).Some?
    ensures Takes(Quoted(t), 3 * |t| + 2)
  {
    EscapeTakes(t);
    UnitTakes(QUOTE);
    TakesConcat([QUOTE], 1, Escape(t), 3 * |t|);
    TakesConcat([QUOTE] + Escape(t), 3 * |t| + 1, [QUOTE], 1);
  }

  lemma StringFieldTakes(key: Text, value: Text)
    requires Utf8Size(key).Some? && Utf8Size(value).Some?
    ensures Takes(StringField(key, value), 3 * |key| + 3 * |value| + 5)
  {
    QuotedTakes(key);
    QuotedTakes(value);
    UnitTakes(COLON);
    TakesConcat(Quoted(key), 3 * |key| + 2, [COLON], 1);
    TakesConcat(Quoted(key) + [COLON], 3 * |key| + 3, Quoted(value), 3 * |value| + 2);
  }

  function Pow10(digits: nat): nat {
    if digits == 0 then 1 else 10 * Pow10(digits - 1)
  }

  lemma {:induction false} DecimalTakes(n: nat, digits: nat)
    requires digits > 0 && n < Pow10(digits)
    ensures Takes(Decimal(n), digits)
  {
    var last := [DIGIT_ZERO + (n % 10) as Unit];
    UnitTakes(last[0]);
    if n >= 10 {
      assert digits > 1;
      DecimalTakes(n / 10, digits - 1);
      TakesConcat(Decimal(n / 10), digits - 1, last, 1);
    }
  }

  lemma Uint64HasTwentyDigits()
    ensures UINT64_MAX < Pow10(20)
  {
    assert Pow10(5) == 100000;
    assert Pow10(10) == 100000 * Pow10(5);
    assert Pow10(15) == 100000 * Pow10(10);
    assert Pow10(20) == 100000 * Pow10(15);
  }

  lemma NumberFieldTakes(key: Text, value: nat)
    requires Utf8Size(key).Some? && value <= UINT64_MAX
    ensures Takes(NumberField(key, value), 3 * |key| + 23)
  {
    QuotedTakes(key);
    Uint64HasTwentyDigits();
    DecimalTakes(value, 20);
    UnitTakes(COLON);
    TakesConcat(Quoted(key), 3 * |key| + 2, [COLON], 1);
    TakesConcat(Quoted(key) + [COLON], 3 * |key| + 3, Decimal(value), 20);
  }

  lemma TakesMore(t: Text, m: nat, n: nat)
    requires Takes(t, m) && m <= n
    ensures Takes(t, n)
  {
  }

  lemma OneMoreTime(count: nat, bytes: nat)
    ensures bytes + count * bytes == (count + 1) * bytes
  {
  }

  /** A map of string fields none of which takes more than `bytes`, commas included. */
  lemma {:induction false} StringFieldsTake(keys: set<Text>, strings: map<Text, Text>, bytes: nat)
    requires keys <= strings.Keys
    requires forall k :: k in keys ==> Takes(StringField(k, strings[k]), bytes)
    ensures Takes(StringFields(SortedKeys(keys), strings), |keys| * (bytes + 1))
    decreases |keys|
  {
    hide Takes, StringField;
    if keys == {} {
      PlainTakes([]);
    } else {
      var least := Least(keys);
      StringFieldsTake(keys - {least}, strings, bytes);
      StringFieldsStep(keys, strings, least);
      UnitTakes(COMMA);
      TakesConcat([COMMA], 1, StringField(least, strings[least]), bytes);
      PlainTakes([]);
      TakesMore([], 0, bytes + 1);
      var field := if IsCommonField(least) then [] else [COMMA] + StringField(least, strings[least]);
      TakesConcat(field, bytes + 1, StringFields(SortedKeys(keys - {least}), strings), |keys - {least}| * (bytes + 1));
      OneMoreTime(|keys - {least}|, bytes + 1);
    }
  }

  lemma {:induction false} NumberFieldsTake(keys: set<Text>, numbers: map<Text, nat>, bytes: nat)
    requires keys <= numbers.Keys
    requires forall k :: k in keys ==> Takes(NumberField(k, numbers[k]), bytes)
    ensures Takes(NumberFields(SortedKeys(keys), numbers), |keys| * (bytes + 1))
    decreases |keys|
  {
    hide Takes, NumberField;
    if keys == {} {
      PlainTakes([]);
    } else {
      var least := Least(keys);
      NumberFieldsTake(keys - {least}, numbers, bytes);
      NumberFieldsStep(keys, numbers, least);
      UnitTakes(COMMA);
      TakesConcat([COMMA], 1, NumberField(least, numbers[least]), bytes);
      TakesConcat([COMMA] + NumberField(least, numbers[least]), bytes + 1,
                  NumberFields(SortedKeys(keys - {least}), numbers), |keys - {least}| * (bytes + 1));
      OneMoreTime(|keys - {least}|, bytes + 1);
    }
  }

  lemma KeysArePlain()
    ensures Plain(CURRENT_REV) && |CURRENT_REV| == 11
    ensures Plain(TYPE) && Plain(SESSION) && Plain(CLIENT) && Plain(REV) && Plain(BASE_REV) && Plain(POS) && Plain(LEN)
    ensures Plain(OP) && Plain(TEXT) && Plain(CHUNK_INDEX) && Plain(CHUNK_COUNT) && Plain(TIME) && Plain(REASON)
    ensures Plain(SERVER) && Plain(CLIENT_A) && Plain(CLIENT_B) && Plain(NAME_INSERT) && Plain(NAME_DELETE)
  {
  }

  lemma TypeNamesArePlain(kind: MessageType)
    ensures Plain(MessageTypeToString(kind)) && |MessageTypeToString(kind)| <= 13
  {
  }

  /** Everything before the two maps, for a session code and a client name of up to six units. */
  lemma HeaderTakes(m: Message)
    requires Takes(m.session, 18) && |m.session| <= 6 && Plain(m.client) && |m.client| <= 6
    ensures Takes([OPEN_BRACE] + StringField(TYPE, MessageTypeToString(m.kind))
                  + [COMMA] + StringField(SESSION, m.session) + [COMMA] + StringField(CLIENT, m.client), 144)
  {
    hide StringField;
    KeysArePlain();
    PlainTakes(TYPE);
    PlainTakes(SESSION);
    PlainTakes(CLIENT);
    TypeNamesArePlain(m.kind);
    PlainTakes(MessageTypeToString(m.kind));
    PlainTakes(m.client);
    UnitTakes(OPEN_BRACE);
    UnitTakes(COMMA);
    StringFieldTakes(TYPE, MessageTypeToString(m.kind));
    StringFieldTakes(SESSION, m.session);
    StringFieldTakes(CLIENT, m.client);
    var type0 := [OPEN_BRACE] + StringField(TYPE, MessageTypeToString(m.kind));
    TakesConcat([OPEN_BRACE], 1, StringField(TYPE, MessageTypeToString(m.kind)), 56);
    TakesConcat(type0, 57, [COMMA], 1);
    TakesConcat(type0 + [COMMA], 58, StringField(SESSION, m.session), 44);
    var session0 := type0 + [COMMA] + StringField(SESSION, m.session);
    TakesConcat(session0, 102, [COMMA], 1);
    TakesConcat(session0 + [COMMA], 103, StringField(CLIENT, m.client), 41);
  }

  ghost function StringPart(m: Message): Text {
    StringFields(SortedKeys(m.strings.Keys), m.strings)
  }

  ghost function NumberPart(m: Message): Text {
    NumberFields(SortedKeys(m.numbers.Keys), m.numbers)
  }

  /** A message is its header, its string fields and its number fields. */
  lemma MessageTakes(m: Message, strings: nat, numbers: nat)
    requires Takes(m.session, 18) && |m.session| <= 6 && Plain(m.client) && |m.client| <= 6
    requires Takes(StringPart(m), strings) && Takes(NumberPart(m), numbers)
    ensures Takes(Printed(m), 145 + strings + numbers)
  {
    hide StringField, StringFields, NumberFields, SortedKeys, Takes, Plain;
    HeaderTakes(m);
    UnitTakes(CLOSE_BRACE);
    var header := [OPEN_BRACE] + StringField(TYPE, MessageTypeToString(m.kind))
      + [COMMA] + StringField(SESSION, m.session) + [COMMA] + StringField(CLIENT, m.client);
    TakesConcat(header, 144, StringPart(m), strings);
    TakesConcat(header + StringPart(m), 144 + strings, NumberPart(m), numbers);
    TakesConcat(header + StringPart(m) + NumberPart(m), 144 + strings + numbers, [CLOSE_BRACE], 1);
  }

  /** The number fields of a sync message, at most three of them. */
  lemma NumbersTake(m: Message)
    requires m.numbers.Keys <= {REV, BASE_REV, CURRENT_REV, POS, LEN, CHUNK_INDEX, CHUNK_COUNT, TIME} && |m.numbers.Keys| <= 3
    requires forall k :: k in m.numbers ==> m.numbers[k] <= UINT64_MAX
    ensures Takes(NumberPart(m), 171)
  {
    hide NumberField, NumberFields, SortedKeys, Takes;
    KeysArePlain();
    forall k | k in m.numbers ensures Takes(NumberField(k, m.numbers[k]), 56) {
      PlainTakes(k);
      ShortKey(k);
      NumberFieldTakes(k, m.numbers[k]);
      TakesMore(NumberField(k, m.numbers[k]), 3 * |k| + 23, 56);
    }
    NumberFieldsTake(m.numbers.Keys, m.numbers, 56);
    TakesMore(NumberPart(m), |m.numbers.Keys| * 57, 171);
  }

  lemma ShortKey(k: Text)
    requires k in {REV, BASE_REV, CURRENT_REV, POS, LEN, CHUNK_INDEX, CHUNK_COUNT, TIME}
    ensures Plain(k) && Takes(k, |k|) && |k| <= 11
  {
    KeysArePlain();
    PlainTakes(k);
  }

  /** Whether the session code is one the host generates: six code units of valid text. */
  predicate SessionCode(session: Text) {
    |session| == 6 && Utf8Size(session).Some?
  }

  lemma SessionTakes(session: Text)
    requires SessionCode(session)
    ensures Takes(session, 18)
  {
    Utf8SizeBound(session);
  }

  /** No surrogate pair straddles a cut of the document. */
  predicate CleanCuts(document: Text) {
    forall i :: 0 <= i < |Cuts(document, SYNC_CHUNK_CHARS)| ==> Utf8Size(Cuts(document, SYNC_CHUNK_CHARS)[i]).Some?
  }

  /** Every chunk of a cleanly cut document fits a frame, with room to spare for any split. */
  lemma ChunkFrameIsSafe(session: Text, document: Text, revision: nat, index: nat)
    requires SessionCode(session) && CleanCuts(document) && revision <= UINT64_MAX
    requires index < |Cuts(document, SYNC_CHUNK_CHARS)| <= UINT64_MAX
    ensures var m := SyncResponses(session, document, revision)[index];
            Fits(m) && Takes(Printed(m), 24910) && 24910 < Frames.SAFE_PAYLOAD_BYTES
  {
    hide StringField, StringFields, NumberField, NumberFields, SortedKeys, Takes, Printed, Fits, ChunkMessage;
    var cuts := Cuts(document, SYNC_CHUNK_CHARS);
    CutsAtOffset(document, SYNC_CHUNK_CHARS, index, index * SYNC_CHUNK_CHARS);
    ChunkMessageTakes(session, revision, index, |cuts|, cuts[index]);
    ResponseIsChunkMessage(session, document, revision, index);
    ChunkMessageIsSendable(session, revision, index, |cuts|, cuts[index]);
    TakesFits(ChunkMessage(session, revision, index, |cuts|, cuts[index]), 24910);
  }

  lemma ResponseIsChunkMessage(session: Text, document: Text, revision: nat, index: nat)
    requires index < |Cuts(document, SYNC_CHUNK_CHARS)|
    ensures var cuts := Cuts(document, SYNC_CHUNK_CHARS);
            SyncResponses(session, document, revision)[index] == ChunkMessage(session, revision, index, |cuts|, cuts[index])
  {
  }

  lemma TakesFits(m: Message, bytes: nat)
    requires Takes(Printed(m), bytes) && bytes <= MAX_FRAME_PAYLOAD_BYTES
    requires m.kind != Unknown && m.session != [] && m.client != []
    ensures Fits(m)
  {
    hide Printed;
  }

  lemma TextFieldTakes(text: Text)
    requires Utf8Size(text).Some?
    ensures Takes(StringField(TEXT, text), 3 * |text| + 17)
  {
    KeysArePlain();
    PlainTakes(TEXT);
    StringFieldTakes(TEXT, text);
  }

  lemma OpFieldTakes(name: Text)
    requires name == NAME_INSERT || name == NAME_DELETE
    ensures Takes(StringField(OP, name), 29)
  {
    KeysArePlain();
    PlainTakes(OP);
    PlainTakes(name);
    StringFieldTakes(OP, name);
  }

  lemma ChunkMessageIsSendable(session: Text, revision: nat, index: nat, count: nat, text: Text)
    requires SessionCode(session)
    ensures var m := ChunkMessage(session, revision, index, count, text);
            m.kind != Unknown && m.session != [] && m.client != []
  {
  }

  lemma TextPartTakes(m: Message, text: Text)
    requires m.strings == map[TEXT := text] && Utf8Size(text).Some?
    ensures Takes(StringPart(m), 3 * |text| + 18)
  {
    hide StringField, StringFields, SortedKeys, Takes;
    TextFieldTakes(text);
    assert m.strings.Keys == {TEXT};
    StringFieldsTake(m.strings.Keys, m.strings, 3 * |text| + 17);
  }

  /** What the operation name and the text of an edit take together, commas included. */
  lemma {:induction false} OpAndTextTake(keys: set<Text>, strings: map<Text, Text>, bytes: nat)
    requires keys <= strings.Keys && keys <= {OP, TEXT}
    requires OP in keys ==> Takes(StringField(OP, strings[OP]), 29)
    requires TEXT in keys ==> Takes(StringField(TEXT, strings[TEXT]), bytes)
    ensures Takes(StringFields(SortedKeys(keys), strings),
                  (if OP in keys then 30 else 0) + (if TEXT in keys then bytes + 1 else 0))
    decreases |keys|
  {
    hide Takes, StringField, StringFields, SortedKeys;
    if keys == {} {
      NoFields(strings);
    } else {
      var least := Least(keys);
      var rest := keys - {least};
      KeysDiffer();
      OpAndTextTake(rest, strings, bytes);
      StringFieldsStep(keys, strings, least);
      UnitTakes(COMMA);
      var cost := if least == OP then 29 else bytes;
      TakesConcat([COMMA], 1, StringField(least, strings[least]), cost);
      TakesConcat([COMMA] + StringField(least, strings[least]), cost + 1, StringFields(SortedKeys(rest), strings),
                  (if OP in rest then 30 else 0) + (if TEXT in rest then bytes + 1 else 0));
    }
  }

  lemma NoFields(strings: map<Text, Text>)
    ensures Takes(StringFields(SortedKeys({}), strings), 0)
  {
    PlainTakes([]);
  }

  lemma ChunkMessageTakes(session: Text, revision: nat, index: nat, count: nat, text: Text)
    requires SessionCode(session) && Utf8Size(text).Some? && |text| <= SYNC_CHUNK_CHARS
    requires revision <= UINT64_MAX && index <= UINT64_MAX && count <= UINT64_MAX
    ensures Takes(Printed(ChunkMessage(session, revision, index, count, text)), 24910)
  {
    hide StringPart, NumberPart, Takes, Printed, Plain;
    var m := ChunkMessage(session, revision, index, count, text);
    SessionTakes(session);
    KeysArePlain();
    TextPartTakes(m, text);
    TakesMore(StringPart(m), 3 * |text| + 18, 24594);
    ChunkNumbersTake(session, revision, index, count, text);
    MessageTakes(m, 24594, 171);
  }

  lemma ChunkNumbersTake(session: Text, revision: nat, index: nat, count: nat, text: Text)
    requires revision <= UINT64_MAX && index <= UINT64_MAX && count <= UINT64_MAX
    ensures Takes(NumberPart(ChunkMessage(session, revision, index, count, text)), 171)
  {
    hide NumberPart, Takes;
    var m := ChunkMessage(session, revision, index, count, text);
    assert m.numbers.Keys <= {REV, CHUNK_INDEX, CHUNK_COUNT};
    SubsetSize(m.numbers.Keys, {REV, CHUNK_INDEX, CHUNK_COUNT});
    NumbersTake(m);
  }

  /** A number of inserted units up to which no choice of characters takes an edit's messages past the
      payload size that survives every split. */
  const SMALL_EDIT: nat := 20359

  /** An edit of at most `SMALL_EDIT` units of valid text. */
  predicate SmallEdit(op: Operation) {
    && op.pos <= UINT64_MAX
    && match op
       case InsertAt(_, text) => |text| <= SMALL_EDIT && Utf8Size(text).Some?
       case DeleteAt(_, len) => len <= UINT64_MAX
  }

  /** The messages an edit gives rise to: the request and the announcement. */
  predicate IsEditMessage(m: Message, op: Operation, revision: nat) {
    || m == Request(m.session, m.client, revision, op)
    || m == ApplyFor(m.session, m.client, revision, op)
  }

  lemma EditStringsTake(m: Message, op: Operation, revision: nat)
    requires SmallEdit(op) && IsEditMessage(m, op, revision)
    ensures Takes(StringPart(m), 61125)
  {
    hide StringFields, StringField, Takes, SortedKeys;
    var text := if op.InsertAt? then op.text else [];
    EmptyText();
    TextFieldTakes(text);
    OpFieldTakes(NAME_INSERT);
    OpFieldTakes(NAME_DELETE);
    KeysDiffer();
    OpAndTextTake(m.strings.Keys, m.strings, 3 * |text| + 17);
    TakesMore(StringPart(m), (if OP in m.strings.Keys then 30 else 0) + (if TEXT in m.strings.Keys then 3 * |text| + 18 else 0), 61125);
  }

  lemma EditNumbersTake(m: Message, op: Operation, revision: nat)
    requires SmallEdit(op) && IsEditMessage(m, op, revision) && revision <= UINT64_MAX
    ensures Takes(NumberPart(m), 171)
  {
    hide NumberPart, Takes, Utf8Size;
    if m == Request(m.session, m.client, revision, op) {
      assert m.numbers.Keys <= {BASE_REV, POS, LEN};
      SubsetSize(m.numbers.Keys, {BASE_REV, POS, LEN});
    } else {
      assert m.numbers.Keys <= {REV, POS, LEN};
      SubsetSize(m.numbers.Keys, {REV, POS, LEN});
    }
    NumbersTake(m);
  }

  lemma EditMessageTakes(m: Message, op: Operation, revision: nat)
    requires SmallEdit(op) && IsEditMessage(m, op, revision) && revision <= UINT64_MAX
    requires SessionCode(m.session) && (m.client == CLIENT_A || m.client == CLIENT_B)
    ensures Takes(Printed(m), Frames.SAFE_PAYLOAD_BYTES) && Fits(m)
  {
    hide StringPart, NumberPart, Takes, Printed, Fits, Plain;
    SessionTakes(m.session);
    KeysArePlain();
    EditStringsTake(m, op, revision);
    EditNumbersTake(m, op, revision);
    MessageTakes(m, 61125, 171);
    TakesFits(m, 61441);
  }

  lemma EmptyText()
    ensures Utf8Size([]).Some?
  {
  }

  lemma SubsetSize<T>(a: set<T>, b: set<T>)
    requires a <= b
    ensures |a| <= |b|
  {
    if a != {} {
      var x :| x in a;
      SubsetSize(a - {x}, b - {x});
    }
  }

  /** Such edits go through on both ways, under every 64-bit revision. */
  lemma SmallEditIsCarried(session: Text, op: Operation, client: Text, base: nat, revision: nat)
    requires SmallEdit(op) && SessionCode(session) && base <= UINT64_MAX && revision <= UINT64_MAX
    requires client == CLIENT_A || client == CLIENT_B
    ensures Carried(session, client, revision, op) && Fits(Request(session, client, base, op))
  {
    hide Fits;
    EditMessageTakes(Request(session, client, base, op), op, base);
    EditMessageTakes(ApplyFor(session, client, revision, op), op, revision);
  }

  /** A full-sync request always fits. */
  lemma SyncRequestFits(session: Text, revision: nat)
    requires SessionCode(session) && revision <= UINT64_MAX
    ensures Fits(SyncRequestMessage(session, CLIENT_B, revision))
  {
    hide StringPart, NumberPart, Takes, Printed, Fits, Plain;
    var m := SyncRequestMessage(session, CLIENT_B, revision);
    SessionTakes(session);
    KeysArePlain();
    NoStringPart(m);
    assert m.numbers.Keys == {CURRENT_REV};
    NumbersTake(m);
    MessageTakes(m, 0, 171);
    TakesFits(m, 316);
  }

  lemma NoStringPart(m: Message)
    requires m.strings == map[]
    ensures Takes(StringPart(m), 0)
  {
    hide StringFields, SortedKeys, Takes;
    assert m.strings.Keys == {};
    NoFields(m.strings);
  }
}
