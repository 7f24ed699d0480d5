/** Printing a message as one flat JSON object (client/protocol.cpp, EscapeJsonString and SerializeMessage). */
module JsonPrinter {
  import opened WideText
  import opened Protocol
  import opened KeyOrder

  const QUOTE: Unit := 0x22
  const BACKSLASH: Unit := 0x5C
  const SLASH: Unit := 0x2F
  const BACKSPACE: Unit := 0x08
  const FORM_FEED: Unit := 0x0C
  const LINE_FEED: Unit := 0x0A
  const CARRIAGE_RETURN: Unit := 0x0D
  const TAB: Unit := 0x09
  const SPACE: Unit := 0x20
  const OPEN_BRACE: Unit := 0x7B
  const CLOSE_BRACE: Unit := 0x7D
  const COLON: Unit := 0x3A
  const COMMA: Unit := 0x2C
  const DIGIT_ZERO: Unit := 0x30

  const LETTER_B: Unit := 0x62
  const LETTER_F: Unit := 0x66
  const LETTER_N: Unit := 0x6E
  const LETTER_R: Unit := 0x72
  const LETTER_T: Unit := 0x74

  function EscapeUnit(ch: Unit): Text {
    if ch == QUOTE then [BACKSLASH, QUOTE]
    else if ch == BACKSLASH then [BACKSLASH, BACKSLASH]
    else if ch == BACKSPACE then [BACKSLASH, LETTER_B]
    else if ch == FORM_FEED then [BACKSLASH, LETTER_F]
    else if ch == LINE_FEED then [BACKSLASH, LETTER_N]
    else if ch == CARRIAGE_RETURN then [BACKSLASH, LETTER_R]
    else if ch == TAB then [BACKSLASH, LETTER_T]
    else [ch]
  }

  function Escape(value: Text): Text {
    if value == [] then [] else EscapeUnit(value[0]) + Escape(value[1..])
  }

  lemma {:induction false} EscapeAppend(value: Text, ch: Unit)
    ensures Escape(value + [ch]) == Escape(value) + EscapeUnit(ch)
  {
    if value == [] {
      assert value + [ch] == [ch];
      assert Escape([ch]) == EscapeUnit(ch) + Escape([]);
    } else {
      EscapeAppend(value[1..], ch);
      assert (value + [ch])[1..] == value[1..] + [ch];
    }
  }

  method EscapeJsonString(value: Text) returns (output: Text)
    ensures output == Escape(value)
  {
    output := [];
    for i := 0 to |value|
      invariant output == Escape(value[..i])
    {
      EscapeAppend(value[..i], value[i]);
      assert value[..i + 1] == value[..i] + [value[i]];
      output := output + EscapeUnit(value[i]);
    }
    assert value[..|value|] == value;
  }

  /** Decimal form without leading zeros. */
  function Decimal(n: nat): Text {
    var last := [DIGIT_ZERO + (n % 10) as Unit];
    if n < 10 then last else Decimal(n / 10) + last
  }

  function Quoted(value: Text): Text {
    [QUOTE] + Escape(value) + [QUOTE]
  }

  function StringField(key: Text, value: Text): Text {
    Quoted(key) + [COLON] + Quoted(value)
  }

  function NumberField(key: Text, value: nat): Text {
    Quoted(key) + [COLON] + Decimal(value)
  }

  /** The string fields after the common ones, each after a comma. */
  function StringFields(keys: seq<Text>, strings: map<Text, Text>): Text
    requires forall k :: k in keys ==> k in strings
  {
    if keys == [] then []
    else
      (if IsCommonField(keys[0]) then [] else [COMMA] + StringField(keys[0], strings[keys[0]]))
      + StringFields(keys[1..], strings)
  }

  function NumberFields(keys: seq<Text>, numbers: map<Text, nat>): Text
    requires forall k :: k in keys ==> k in numbers
  {
    if keys == [] then []
    else [COMMA] + NumberField(keys[0], numbers[keys[0]]) + NumberFields(keys[1..], numbers)
  }

  /** The whole object: type, session, client, then both maps in key order. */
  ghost function Printed(m: Message): Text {
    [OPEN_BRACE] + StringField(TYPE, MessageTypeToString(m.kind))
    + [COMMA] + StringField(SESSION, m.session)
    + [COMMA] + StringField(CLIENT, m.client)
    + StringFields(SortedKeys(m.strings.Keys), m.strings)
    + NumberFields(SortedKeys(m.numbers.Keys), m.numbers)
    + [CLOSE_BRACE]
  }

  /** SerializeMessage, short of the UTF-8 bytes themselves: their number is what the limit checks. */
  ghost function Serialize(m: Message): Result<Text> {
    if m.kind == Unknown then Err(InvalidMessageType)
    else if m.session == [] || m.client == [] then Err(MissingRequiredField)
    else
      var size := Utf8Size(Printed(m));
      if size.None? then Err(InvalidUtf8)
      else if size.value > MAX_FRAME_PAYLOAD_BYTES then Err(FrameTooLarge)
      else Ok(Printed(m))
  }

  /** The message fits one frame, so that a send does not drop it. */
  ghost predicate Fits(m: Message) {
    Serialize(m).Ok?
  }

  lemma StringFieldsStep(keys: set<Text>, strings: map<Text, Text>, key: Text)
    requires keys <= strings.Keys && IsLeast(key, keys)
    ensures StringFields(SortedKeys(keys), strings)
         == (if IsCommonField(key) then [] else [COMMA] + StringField(key, strings[key]))
            + StringFields(SortedKeys(keys - {key}), strings)
  {
    LeastIsUnique(key, Least(keys), keys);
    assert SortedKeys(keys)[1..] == SortedKeys(keys - {key});
  }

  lemma NumberFieldsStep(keys: set<Text>, numbers: map<Text, nat>, key: Text)
    requires keys <= numbers.Keys && IsLeast(key, keys)
    ensures NumberFields(SortedKeys(keys), numbers)
         == [COMMA] + NumberField(key, numbers[key]) + NumberFields(SortedKeys(keys - {key}), numbers)
  {
    LeastIsUnique(key, Least(keys), keys);
    assert SortedKeys(keys)[1..] == SortedKeys(keys - {key});
  }

  lemma MoveField(output: Text, field: Text, rest: Text)
    ensures output + (field + rest) == (output + field) + rest
  {
  }

  method AppendStringFields(builder: Text, strings: map<Text, Text>) returns (output: Text)
    ensures output == builder + StringFields(SortedKeys(strings.Keys), strings)
  {
    output := builder;
    var keys := strings.Keys;
    while keys != {}
      invariant keys <= strings.Keys
      invariant output + StringFields(SortedKeys(keys), strings)
             == builder + StringFields(SortedKeys(strings.Keys), strings)
      decreases keys
    {
      LeastExists(keys);
      var key :| key in keys && forall j :: j in keys ==> j == key || Before(key, j);
      StringFieldsStep(keys, strings, key);
      var field := if IsCommonField(key) then [] else [COMMA] + StringField(key, strings[key]);
      MoveField(output, field, StringFields(SortedKeys(keys - {key}), strings));
      output := output + field;
      keys := keys - {key};
    }
    assert output + [] == output;
  }

  method AppendNumberFields(builder: Text, numbers: map<Text, nat>) returns (output: Text)
    ensures output == builder + NumberFields(SortedKeys(numbers.Keys), numbers)
  {
    output := builder;
    var keys := numbers.Keys;
    while keys != {}
      invariant keys <= numbers.Keys
      invariant output + NumberFields(SortedKeys(keys), numbers)
             == builder + NumberFields(SortedKeys(numbers.Keys), numbers)
      decreases keys
    {
      LeastExists(keys);
      var key :| key in keys && forall j :: j in keys ==> j == key || Before(key, j);
      NumberFieldsStep(keys, numbers, key);
      var field := [COMMA] + NumberField(key, numbers[key]);
      MoveField(output, field, NumberFields(SortedKeys(keys - {key}), numbers));
      output := output + field;
      keys := keys - {key};
    }
    assert output + [] == output;
  }

  method SerializeMessage(message: Message) returns (result: Result<Text>)
    ensures result == Serialize(message)
  {
    if message.kind == Unknown {
      return Err(InvalidMessageType);
    }
    if message.session == [] || message.client == [] {
      return Err(MissingRequiredField);
    }

    var builder := [OPEN_BRACE] + StringField(TYPE, MessageTypeToString(message.kind))
      + [COMMA] + StringField(SESSION, message.session)
      + [COMMA] + StringField(CLIENT, message.client);
    builder := AppendStringFields(builder, message.strings);
    builder := AppendNumberFields(builder, message.numbers);
    builder := builder + [CLOSE_BRACE];

    var size := Utf8Size(builder);
    if size.None? {
      return Err(InvalidUtf8);
    }
    if size.value > MAX_FRAME_PAYLOAD_BYTES {
      return Err(FrameTooLarge);
    }
    return Ok(builder);
  }
}
