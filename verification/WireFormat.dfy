/** The wire format spelled out: the names, the escapes, the text of every message of the session, and the verdict
    on every payload that is no message. */
module WireFormat {
  import opened WideText
  import opened DocumentModel
  import opened Protocol
  import opened KeyOrder
  import opened JsonPrinter
  import opened JsonGrammar
  import opened JsonParser
  import opened JsonAcceptance
  import opened Server
  import opened Replica

  /** Plain ASCII as code units. */
  function Wide(s: string): Text {
    seq(|s|, i requires 0 <= i < |s| => Code(s[i]))
  }

  function Code(c: char): Unit {
    if c as int < 0x80 then c as int as Unit else 0
  }

  // ---- Names and tables ----

  lemma FieldNames()
    ensures TYPE == Wide("type") && SESSION == Wide("session") && CLIENT == Wide("client") && REV == Wide("rev")
    ensures BASE_REV == Wide("base_rev") && CURRENT_REV == Wide("current_rev") && POS == Wide("pos") && LEN == Wide("len")
    ensures OP == Wide("op") && TEXT == Wide("text") && CHUNK_INDEX == Wide("chunk_index") && CHUNK_COUNT == Wide("chunk_count")
    ensures REASON == Wide("reason") && TIME == Wide("time")
    ensures CLIENT_A == Wide("A") && CLIENT_B == Wide("B") && SERVER == Wide("server")
  {
  }

  lemma TypeNames(kind: MessageType)
    ensures MessageTypeToString(kind)
         == match kind
            case Hello => Wide("HELLO")
            case Join => Wide("JOIN")
            case JoinOk => Wide("JOIN_OK")
            case JoinFail => Wide("JOIN_FAIL")
            case Insert => Wide("INSERT")
            case Delete => Wide("DELETE")
            case Apply => Wide("APPLY")
            case SyncRequest => Wide("SYNC_REQUEST")
            case SyncResponse => Wide("SYNC_RESPONSE")
            case Ping => Wide("PING")
            case Pong => Wide("PONG")
            case Error => Wide("ERROR")
            case Unknown => Wide("UNKNOWN")
  {
  }

  lemma ReasonNames()
    ensures REASON_INVALID_SESSION == Wide("invalid_session") && REASON_INVALID_CLIENT == Wide("invalid_client")
    ensures REASON_MISSING_POSITION == Wide("missing_position") && REASON_INVALID_OPERATION == Wide("invalid_operation")
  {
  }

  lemma MoreReasonNames()
    ensures REASON_INVALID_POSITION == Wide("invalid_position") && REASON_INSERT_TOO_LARGE == Wide("insert_too_large")
    ensures REASON_DOCUMENT_TOO_LARGE == Wide("document_too_large")
    ensures REASON_UNSUPPORTED_MESSAGE == Wide("unsupported_message")
  {
  }

  /** The escapes of section 7 of RFC 8259 that are written and read, and the white space of section 2. The
      slash is read escaped and written plain. */
  lemma EscapeTable(ch: Unit)
    ensures Escape([ch])
         == if ch == 0x22 then Wide("\\\"") else if ch == 0x5C then Wide("\\\\")
            else if ch == 8 then Wide("\\b") else if ch == 12 then Wide("\\f") else if ch == 10 then Wide("\\n")
            else if ch == 13 then Wide("\\r") else if ch == 9 then Wide("\\t") else [ch]
    ensures Unescape(ch)
         == if ch == Code('b') then Some(8) else if ch == Code('f') then Some(12) else if ch == Code('n') then Some(10)
            else if ch == Code('r') then Some(13) else if ch == Code('t') then Some(9)
            else if ch in Wide("\"\\/") then Some(ch) else None
    ensures IsWhitespace(ch) <==> ch in {0x20, 0x09, 0x0D, 0x0A}
    ensures IsDigit(ch) <==> Code('0') <= ch <= Code('9')
  {
    assert [ch][1..] == [];
    assert Wide("\"\\/") == [0x22, 0x5C, 0x2F];
  }

  // ---- Messages ----

  predicate IsPlainName(t: Text) {
    forall i :: 0 <= i < |t| ==> t[i] > 0x22 && t[i] != 0x5C
  }

  lemma {:induction false} PlainEscape(t: Text)
    requires IsPlainName(t)
    ensures Escape(t) == t
  {
    if t != [] {
      PlainEscape(t[1..]);
      assert t == [t[0]] + t[1..];
    }
  }

  lemma NamesArePlain()
    ensures IsPlainName(TYPE) && IsPlainName(SESSION) && IsPlainName(CLIENT) && IsPlainName(REV) && IsPlainName(BASE_REV)
    ensures IsPlainName(CURRENT_REV) && IsPlainName(POS) && IsPlainName(LEN) && IsPlainName(OP) && IsPlainName(TEXT)
    ensures IsPlainName(CHUNK_INDEX) && IsPlainName(CHUNK_COUNT) && IsPlainName(REASON) && IsPlainName(TIME)
    ensures IsPlainName(NAME_INSERT) && IsPlainName(NAME_DELETE)
  {
  }

  lemma TypesArePlain(kind: MessageType)
    ensures IsPlainName(MessageTypeToString(kind))
  {
  }

  /** What stands before the fields of a message. */
  function Header(m: Message): Text {
    Wide("{\"type\":\"") + MessageTypeToString(m.kind) + Wide("\",\"session\":\"") + Escape(m.session)
    + Wide("\",\"client\":\"") + Escape(m.client) + Wide("\"")
  }

  function StringPart(name: string, value: Text): Text {
    Wide(",\"") + Wide(name) + Wide("\":\"") + Escape(value) + Wide("\"")
  }

  function NumberPart(name: string, value: nat): Text {
    Wide(",\"") + Wide(name) + Wide("\":") + Decimal(value)
  }

  lemma Marks()
    ensures Wide(",\"") == [COMMA, QUOTE] && Wide("\":\"") == [QUOTE, COLON, QUOTE] && Wide("\"") == [QUOTE]
    ensures Wide("\":") == [QUOTE, COLON] && Wide("}") == [CLOSE_BRACE]
  {
  }

  lemma HeaderMarks()
    ensures Wide("{\"type\":\"") == [OPEN_BRACE, QUOTE] + TYPE + [QUOTE, COLON, QUOTE]
    ensures Wide("\",\"session\":\"") == [QUOTE, COMMA, QUOTE] + SESSION + [QUOTE, COLON, QUOTE]
    ensures Wide("\",\"client\":\"") == [QUOTE, COMMA, QUOTE] + CLIENT + [QUOTE, COLON, QUOTE]
  {
  }

  lemma StringIs(name: string, key: Text, value: Text)
    requires key == Wide(name) && IsPlainName(key)
    ensures [COMMA] + StringField(key, value) == StringPart(name, value)
  {
    hide Escape, Wide;
    PlainEscape(key);
    Marks();
  }

  lemma NumberIs(name: string, key: Text, value: nat)
    requires key == Wide(name) && IsPlainName(key)
    ensures [COMMA] + NumberField(key, value) == NumberPart(name, value)
  {
    hide Escape, Wide, Decimal;
    PlainEscape(key);
    Marks();
  }

  lemma FieldIs(key: Text, value: Text)
    requires IsPlainName(key)
    ensures StringField(key, value) == [QUOTE] + key + [QUOTE, COLON, QUOTE] + Escape(value) + [QUOTE]
  {
    hide Escape;
    PlainEscape(key);
  }

  lemma HeaderIs(m: Message)
    ensures Header(m) == [OPEN_BRACE] + StringField(TYPE, MessageTypeToString(m.kind)) + [COMMA] + StringField(SESSION, m.session)
                         + [COMMA] + StringField(CLIENT, m.client)
  {
    hide Escape, Wide, MessageTypeToString, StringField, IsPlainName;
    NamesArePlain();
    TypesArePlain(m.kind);
    PlainEscape(MessageTypeToString(m.kind));
    FieldIs(TYPE, MessageTypeToString(m.kind));
    FieldIs(SESSION, m.session);
    FieldIs(CLIENT, m.client);
    Marks();
    HeaderMarks();
    JoinHeader(TYPE, MessageTypeToString(m.kind), SESSION, Escape(m.session), CLIENT, Escape(m.client));
  }

  lemma JoinHeader(a: Text, kind: Text, b: Text, session: Text, c: Text, client: Text)
    ensures [OPEN_BRACE, QUOTE] + a + [QUOTE, COLON, QUOTE] + kind + ([QUOTE, COMMA, QUOTE] + b + [QUOTE, COLON, QUOTE]) + session
            + ([QUOTE, COMMA, QUOTE] + c + [QUOTE, COLON, QUOTE]) + client + [QUOTE]
         == [OPEN_BRACE] + ([QUOTE] + a + [QUOTE, COLON, QUOTE] + kind + [QUOTE]) + [COMMA]
            + ([QUOTE] + b + [QUOTE, COLON, QUOTE] + session + [QUOTE]) + [COMMA]
            + ([QUOTE] + c + [QUOTE, COLON, QUOTE] + client + [QUOTE])
  {
  }

  // The fields of the two maps, in the order of their names.

  lemma FirstOfTwo(a: Text, b: Text)
    requires Before(a, b)
    ensures IsLeast(a, {a, b})
  {
  }

  lemma FirstOfThree(a: Text, b: Text, c: Text)
    requires Before(a, b) && Before(a, c)
    ensures IsLeast(a, {a, b, c})
  {
  }

  lemma KeyOrders()
    ensures Before(BASE_REV, POS) && Before(BASE_REV, LEN) && Before(LEN, POS) && Before(LEN, REV) && Before(POS, REV)
    ensures Before(CHUNK_COUNT, CHUNK_INDEX) && Before(CHUNK_COUNT, REV) && Before(CHUNK_INDEX, REV) && Before(OP, TEXT)
  {
    assert Before(CHUNK_COUNT[6..], CHUNK_INDEX[6..]);
    assert Before(CHUNK_COUNT[5..], CHUNK_INDEX[5..]);
    assert Before(CHUNK_COUNT[4..], CHUNK_INDEX[4..]);
    assert Before(CHUNK_COUNT[3..], CHUNK_INDEX[3..]);
    assert Before(CHUNK_COUNT[2..], CHUNK_INDEX[2..]);
    assert Before(CHUNK_COUNT[1..], CHUNK_INDEX[1..]);
  }

  lemma NoFields(strings: map<Text, Text>, numbers: map<Text, nat>)
    ensures StringFields(SortedKeys({}), strings) == [] && NumberFields(SortedKeys({}), numbers) == []
  {
  }

  lemma FirstString(keys: set<Text>, strings: map<Text, Text>, key: Text)
    requires keys <= strings.Keys && IsLeast(key, keys) && !IsCommonField(key)
    ensures StringFields(SortedKeys(keys), strings)
         == [COMMA] + StringField(key, strings[key]) + StringFields(SortedKeys(keys - {key}), strings)
  {
    hide SortedKeys, StringField;
    StringFieldsStep(keys, strings, key);
  }

  lemma OneString(strings: map<Text, Text>, key: Text)
    requires strings.Keys == {key} && !IsCommonField(key)
    ensures StringFields(SortedKeys(strings.Keys), strings) == [COMMA] + StringField(key, strings[key])
  {
    hide SortedKeys, StringField, StringFields, IsCommonField;
    FirstString({key}, strings, key);
    assert {key} - {key} == {};
    NoFields(strings, map[]);
  }

  lemma OneNumber(numbers: map<Text, nat>, a: Text)
    requires numbers.Keys == {a}
    ensures NumberFields(SortedKeys(numbers.Keys), numbers) == [COMMA] + NumberField(a, numbers[a])
  {
    hide SortedKeys, NumberField, NumberFields;
    NumberFieldsStep({a}, numbers, a);
    assert {a} - {a} == {};
    NoFields(map[], numbers);
  }

  lemma LastNumberField(numbers: map<Text, nat>, a: Text)
    requires a in numbers
    ensures NumberFields(SortedKeys({a}), numbers) == [COMMA] + NumberField(a, numbers[a])
  {
    hide SortedKeys, NumberField, NumberFields;
    NumberFieldsStep({a}, numbers, a);
    assert {a} - {a} == {};
    NoFields(map[], numbers);
  }

  lemma TwoNumbers(numbers: map<Text, nat>, a: Text, b: Text)
    requires {a, b} <= numbers.Keys && a != b && IsLeast(a, {a, b})
    ensures NumberFields(SortedKeys({a, b}), numbers)
         == ([COMMA] + NumberField(a, numbers[a])) + ([COMMA] + NumberField(b, numbers[b]))
  {
    hide SortedKeys, NumberField, NumberFields;
    NumberFieldsStep({a, b}, numbers, a);
    assert {a, b} - {a} == {b};
    LastNumberField(numbers, b);
  }

  lemma ThreeNumbers(numbers: map<Text, nat>, a: Text, b: Text, c: Text)
    requires numbers.Keys == {a, b, c} && a != b && b != c && a != c && IsLeast(a, {a, b, c}) && IsLeast(b, {b, c})
    ensures NumberFields(SortedKeys(numbers.Keys), numbers)
         == ([COMMA] + NumberField(a, numbers[a]))
            + (([COMMA] + NumberField(b, numbers[b])) + ([COMMA] + NumberField(c, numbers[c])))
  {
    hide SortedKeys, NumberField, NumberFields;
    NumberFieldsStep({a, b, c}, numbers, a);
    assert {a, b, c} - {a} == {b, c};
    TwoNumbers(numbers, b, c);
  }

  lemma PrintedIs(m: Message, strings: Text, numbers: Text)
    requires StringFields(SortedKeys(m.strings.Keys), m.strings) == strings
    requires NumberFields(SortedKeys(m.numbers.Keys), m.numbers) == numbers
    ensures Printed(m) == Header(m) + strings + numbers + Wide("}")
  {
    hide Header, StringField, SortedKeys, Wide;
    HeaderIs(m);
    Marks();
  }

  /** The text of a request: first the text it inserts, then the numbers in the order of their names. */
  lemma RequestText(session: Text, client: Text, base: nat, op: Operation)
    ensures var m := Request(session, client, base, op);
            Printed(m) == Header(m) + match op
              case InsertAt(pos, text) =>
                StringPart("text", text) + (NumberPart("base_rev", base) + NumberPart("pos", pos)) + Wide("}")
              case DeleteAt(pos, len) =>
                NumberPart("base_rev", base) + (NumberPart("len", len) + NumberPart("pos", pos)) + Wide("}")
  {
    hide Before, Header, Printed, StringPart, NumberPart, StringField, NumberField, SortedKeys, Wide,
         StringFields, NumberFields, IsPlainName;
    var m := Request(session, client, base, op);
    FieldNames();
    KeyOrders();
    NamesArePlain();
    KeysDiffer();
    NumberIs("base_rev", BASE_REV, base);
    NumberIs("pos", POS, op.pos);
    match op {
      case InsertAt(pos, text) =>
        TextIsNotCommon();
        OneString(m.strings, TEXT);
        StringIs("text", TEXT, text);
        FirstOfTwo(BASE_REV, POS);
        TwoNumbers(m.numbers, BASE_REV, POS);
        assert m.numbers.Keys == {BASE_REV, POS};
        PrintedIs(m, StringPart("text", text), NumberPart("base_rev", base) + NumberPart("pos", pos));
      case DeleteAt(pos, len) =>
        NoFields(m.strings, m.numbers);
        assert m.strings.Keys == {};
        NumberIs("len", LEN, len);
        FirstOfThree(BASE_REV, LEN, POS);
        FirstOfTwo(LEN, POS);
        assert m.numbers.Keys == {BASE_REV, LEN, POS};
        ThreeNumbers(m.numbers, BASE_REV, LEN, POS);
        PrintedIs(m, [], NumberPart("base_rev", base) + (NumberPart("len", len) + NumberPart("pos", pos)));
    }
  }

  lemma TextIsNotCommon()
    ensures !IsCommonField(TEXT) && !IsCommonField(OP) && !IsCommonField(REASON)
    ensures TEXT != OP && BASE_REV != POS && BASE_REV != LEN && LEN != POS
  {
    KeysDiffer();
    FieldLengths();
  }

  lemma FieldLengths()
    ensures |TEXT| == 4 && TEXT[1] == 0x65 && TYPE[1] == 0x79 && |SESSION| == 7 && |CLIENT| == 6 && |OP| == 2 && |REASON| == 6
    ensures REASON[0] != CLIENT[0] && |BASE_REV| == 8 && |POS| == 3 && |LEN| == 3
  {
  }

  lemma InsertApplyText(session: Text, client: Text, revision: nat, pos: nat, text: Text)
    ensures var m := ApplyFor(session, client, revision, InsertAt(pos, text));
            Printed(m) == Header(m) + (StringPart("op", NAME_INSERT) + StringPart("text", text))
                          + (NumberPart("pos", pos) + NumberPart("rev", revision)) + Wide("}")
  {
    hide Before, Header, Printed, StringPart, NumberPart, StringField, NumberField, SortedKeys, Wide,
         StringFields, NumberFields, IsPlainName;
    var m := ApplyFor(session, client, revision, InsertAt(pos, text));
    FieldNames();
    KeyOrders();
    NamesArePlain();
    TextIsNotCommon();
    MoreFieldLengths();
    StringIs("op", OP, NAME_INSERT);
    StringIs("text", TEXT, text);
    OpThenText(m.strings);
    NumberIs("pos", POS, pos);
    NumberIs("rev", REV, revision);
    FirstOfTwo(POS, REV);
    assert m.numbers.Keys == {POS, REV};
    TwoNumbers(m.numbers, POS, REV);
    PrintedIs(m, StringPart("op", NAME_INSERT) + StringPart("text", text), NumberPart("pos", pos) + NumberPart("rev", revision));
  }

  lemma DeleteApplyText(session: Text, client: Text, revision: nat, pos: nat, len: nat)
    ensures var m := ApplyFor(session, client, revision, DeleteAt(pos, len));
            Printed(m) == Header(m) + StringPart("op", NAME_DELETE)
                          + (NumberPart("len", len) + (NumberPart("pos", pos) + NumberPart("rev", revision))) + Wide("}")
  {
    hide Before, Header, Printed, StringPart, NumberPart, StringField, NumberField, SortedKeys, Wide,
         StringFields, NumberFields, IsPlainName;
    var m := ApplyFor(session, client, revision, DeleteAt(pos, len));
    FieldNames();
    KeyOrders();
    NamesArePlain();
    TextIsNotCommon();
    MoreFieldLengths();
    StringIs("op", OP, NAME_DELETE);
    OneString(m.strings, OP);
    NumberIs("len", LEN, len);
    NumberIs("pos", POS, pos);
    NumberIs("rev", REV, revision);
    FirstOfThree(LEN, POS, REV);
    FirstOfTwo(POS, REV);
    assert m.numbers.Keys == {LEN, POS, REV};
    ThreeNumbers(m.numbers, LEN, POS, REV);
    PrintedIs(m, StringPart("op", NAME_DELETE), NumberPart("len", len) + (NumberPart("pos", pos) + NumberPart("rev", revision)));
  }

  /** The text of an announcement. */
  lemma ApplyText(session: Text, client: Text, revision: nat, op: Operation)
    ensures var m := ApplyFor(session, client, revision, op);
            Printed(m) == Header(m) + match op
              case InsertAt(pos, text) =>
                (StringPart("op", Wide("INSERT")) + StringPart("text", text))
                + (NumberPart("pos", pos) + NumberPart("rev", revision)) + Wide("}")
              case DeleteAt(pos, len) =>
                StringPart("op", Wide("DELETE"))
                + (NumberPart("len", len) + (NumberPart("pos", pos) + NumberPart("rev", revision))) + Wide("}")
  {
    hide Header, Printed, StringPart, NumberPart, Wide;
    TypeNames(MessageType.Insert);
    TypeNames(MessageType.Delete);
    match op {
      case InsertAt(pos, text) => InsertApplyText(session, client, revision, pos, text);
      case DeleteAt(pos, len) => DeleteApplyText(session, client, revision, pos, len);
    }
  }

  lemma TwoStrings(strings: map<Text, Text>, a: Text, b: Text)
    requires strings.Keys == {a, b} && a != b && IsLeast(a, {a, b}) && !IsCommonField(a) && !IsCommonField(b)
    ensures StringFields(SortedKeys(strings.Keys), strings)
         == ([COMMA] + StringField(a, strings[a])) + ([COMMA] + StringField(b, strings[b]))
  {
    hide StringField, SortedKeys, StringFields, IsCommonField, Before;
    FirstString({a, b}, strings, a);
    assert {a, b} - {a} == {b};
    FirstString({b}, strings, b);
    assert {b} - {b} == {};
    NoFields(strings, map[]);
  }

  lemma OpThenText(strings: map<Text, Text>)
    requires strings.Keys == {OP, TEXT}
    ensures StringFields(SortedKeys(strings.Keys), strings)
         == ([COMMA] + StringField(OP, strings[OP])) + ([COMMA] + StringField(TEXT, strings[TEXT]))
  {
    hide StringField, SortedKeys, StringFields, IsCommonField, Before;
    TextIsNotCommon();
    KeyOrders();
    FirstOfTwo(OP, TEXT);
    TwoStrings(strings, OP, TEXT);
  }

  lemma MoreFieldLengths()
    ensures REV != POS && REV != LEN && POS != LEN && CHUNK_INDEX != CHUNK_COUNT && REV != CHUNK_INDEX && REV != CHUNK_COUNT
  {
    KeysDiffer();
  }

  /** The text of one chunk of a full sync. */
  lemma ChunkText(session: Text, revision: nat, index: nat, count: nat, text: Text)
    ensures var m := ChunkMessage(session, revision, index, count, text);
            Printed(m) == Header(m) + StringPart("text", text)
                          + (NumberPart("chunk_count", count) + (NumberPart("chunk_index", index) + NumberPart("rev", revision)))
                          + Wide("}")
  {
    hide Before, Header, Printed, StringPart, NumberPart, StringField, NumberField, SortedKeys, Wide,
         StringFields, NumberFields, IsPlainName;
    var m := ChunkMessage(session, revision, index, count, text);
    FieldNames();
    KeyOrders();
    NamesArePlain();
    TextIsNotCommon();
    MoreFieldLengths();
    OneString(m.strings, TEXT);
    StringIs("text", TEXT, text);
    NumberIs("chunk_count", CHUNK_COUNT, count);
    NumberIs("chunk_index", CHUNK_INDEX, index);
    NumberIs("rev", REV, revision);
    FirstOfThree(CHUNK_COUNT, CHUNK_INDEX, REV);
    FirstOfTwo(CHUNK_INDEX, REV);
    assert m.numbers.Keys == {CHUNK_COUNT, CHUNK_INDEX, REV};
    ThreeNumbers(m.numbers, CHUNK_COUNT, CHUNK_INDEX, REV);
    PrintedIs(m, StringPart("text", text),
              NumberPart("chunk_count", count) + (NumberPart("chunk_index", index) + NumberPart("rev", revision)));
  }

  /** The texts of a request for a full sync, of a pong and of an error reply. */
  lemma ShortTexts(session: Text, client: Text, revision: nat, ping: Message, reason: Text)
    ensures var m := SyncRequestMessage(session, client, revision);
            Printed(m) == Header(m) + NumberPart("current_rev", revision) + Wide("}")
    ensures var m := PongMessage(session, ping);
            Printed(m) == Header(m) + (if TIME in ping.numbers then NumberPart("time", ping.numbers[TIME]) else []) + Wide("}")
    ensures var m := ErrorMessage(session, reason);
            Printed(m) == Header(m) + StringPart("reason", reason) + Wide("}")
  {
    hide Before, Header, Printed, StringPart, NumberPart, StringField, NumberField, SortedKeys, Wide,
         StringFields, NumberFields, IsPlainName;
    FieldNames();
    KeyOrders();
    NamesArePlain();
    TextIsNotCommon();
    var request, pong := SyncRequestMessage(session, client, revision), PongMessage(session, ping);
    var error := ErrorMessage(session, reason);
    assert request.strings.Keys == {} && pong.strings.Keys == {} && error.numbers.Keys == {};
    NoFields(request.strings, error.numbers);
    NoFields(pong.strings, pong.numbers);
    OneNumber(request.numbers, CURRENT_REV);
    NumberIs("current_rev", CURRENT_REV, revision);
    PrintedIs(request, [], NumberPart("current_rev", revision));
    OneString(error.strings, REASON);
    StringIs("reason", REASON, reason);
    PrintedIs(error, StringPart("reason", reason), []);
    if TIME in ping.numbers {
      OneNumber(pong.numbers, TIME);
      NumberIs("time", TIME, ping.numbers[TIME]);
      PrintedIs(pong, [], NumberPart("time", ping.numbers[TIME]));
    } else {
      assert pong.numbers.Keys == {};
      PrintedIs(pong, [], []);
    }
    assert Header(request) + [] == Header(request) && Header(pong) + [] == Header(pong);
  }

  // ---- Payloads that are no message ----

  /** An opening brace with nothing but white space around it. */
  ghost predicate IsOpen(text: Text, before: Text, after: Text) {
    AllWhitespace(before) && AllWhitespace(after) && text == before + [0x7B] + after
  }

  /** An object that is closed without a member, whatever follows. */
  ghost predicate IsEmptyObject(text: Text, before: Text, inside: Text, rest: Text) {
    AllWhitespace(before) && AllWhitespace(inside) && text == before + [0x7B] + inside + [0x7D] + rest
  }

  ghost predicate IsObject(text: Text, o: Object) {
    ObjectOk(o) && ObjectText(o) == text
  }

  lemma OpenVerdict(text: Text, before: Text, after: Text)
    requires IsOpen(text, before, after)
    ensures Parse(text) == Err(InvalidMessageType)
  {
    hide SkipSpace, AllWhitespace;
    SkipSpaceOver(before, [OPEN_BRACE] + after);
    assert text == before + ([OPEN_BRACE] + after);
    assert ([OPEN_BRACE] + after)[1..] == after;
    SkipSpaceOver(after, []);
    assert after + [] == after;
    SkipNothing();
  }

  lemma SkipNothing()
    ensures SkipSpace([]) == []
  {
  }

  lemma EmptyVerdict(text: Text, before: Text, inside: Text, rest: Text)
    requires IsEmptyObject(text, before, inside, rest)
    ensures Parse(text) == Err(MissingRequiredField)
  {
    hide SkipSpace, AllWhitespace, ParseMembers;
    var tail := inside + ([CLOSE_BRACE] + rest);
    assert text == before + ([OPEN_BRACE] + tail);
    SkipSpaceOver(before, [OPEN_BRACE] + tail);
    assert ([OPEN_BRACE] + tail)[1..] == tail;
    SkipSpaceOver(inside, [CLOSE_BRACE] + rest);
  }

  /** Whatever is not refused as no JSON is one of three things. */
  lemma OtherVerdicts(text: Text) returns (o: Object, before: Text, inside: Text, rest: Text)
    requires Parse(text) != Err(InvalidJson)
    ensures IsOpen(text, before, inside) || IsEmptyObject(text, before, inside, rest) || IsObject(text, o)
  {
    hide ParseMembers, MembersText, SkipSpace, AllWhitespace, MembersOk;
    o := Object([], [], []);
    before := SkippedSpace(text);
    var open := SkipSpace(text);
    inside := SkippedSpace(open[1..]);
    var first := SkipSpace(open[1..]);
    rest := [];
    assert open == [OPEN_BRACE] + open[1..];
    if first == [] {
      assert text == before + [OPEN_BRACE] + inside;
    } else if first[0] == CLOSE_BRACE {
      rest := first[1..];
      assert first == [CLOSE_BRACE] + rest;
      assert text == before + [OPEN_BRACE] + inside + [CLOSE_BRACE] + rest;
    } else {
      var members := ReadAllMembers(EMPTY_MESSAGE, first, inside);
      var after := ParseMembers(EMPTY_MESSAGE, first).rest;
      var blank := SkippedSpace(after);
      assert blank == after;
      o := Object(before, members, after);
      JoinObject(before, inside, MembersText(members), after, text, open, first);
    }
  }

  /** The verdict on every payload within the frame limit: a lone opening brace is a message of no known type,
      an object closed at once lacks its fields, any other object of the grammar is judged by its reading, and
      everything else is no JSON. */
  lemma VerdictIs(text: Text)
    requires Utf8Size(text).Some? && Utf8Size(text).value <= 65536
    ensures (exists before, after :: IsOpen(text, before, after)) ==> Deserialize(text) == Err(InvalidMessageType)
    ensures (exists before, inside, rest :: IsEmptyObject(text, before, inside, rest)) ==>
              Deserialize(text) == Err(MissingRequiredField)
    ensures forall o :: IsObject(text, o) ==>
              var m := Reading(o);
              Deserialize(text) == if m.kind == Unknown then Err(InvalidMessageType)
                                   else if m.session == [] || m.client == [] then Err(MissingRequiredField) else Ok(m)
    ensures Deserialize(text) == Err(InvalidJson)
            <==> && (forall before, after :: !IsOpen(text, before, after))
                 && (forall before, inside, rest :: !IsEmptyObject(text, before, inside, rest))
                 && (forall o :: !IsObject(text, o))
  {
    hide Parse, ObjectText, ObjectOk, Reading, IsOpen, IsEmptyObject;
    forall before, after | IsOpen(text, before, after) ensures Parse(text) == Err(InvalidMessageType) {
      OpenVerdict(text, before, after);
    }
    forall before, inside, rest | IsEmptyObject(text, before, inside, rest) ensures Parse(text) == Err(MissingRequiredField) {
      EmptyVerdict(text, before, inside, rest);
    }
    forall o | IsObject(text, o) ensures Parse(text) == Judge(Reading(o)) {
      GrammarIsAccepted(o);
    }
    if Parse(text) != Err(InvalidJson) {
      var o, before, inside, rest := OtherVerdicts(text);
    }
  }
}
