/** The hand-written parser (client/protocol.cpp DeserializeMessage and its helpers) against the grammar.
    The functions below read from the rest of the text; the methods move an index, as the source does. */
module JsonParser {
  import opened WideText
  import opened Protocol
  import opened JsonPrinter
  import opened JsonGrammar

  datatype Parsed<+T> = Fail | Read(value: T, rest: Text)

  function SkipSpace(s: Text): (rest: Text)
    ensures |rest| <= |s|
  {
    if s != [] && IsWhitespace(s[0]) then SkipSpace(s[1..]) else s
  }

  /** The rest of a string literal after its opening quote. */
  function ParseStringBody(s: Text): (p: Parsed<Text>)
    ensures p.Read? ==> |p.rest| < |s|
  {
    if s == [] then Fail
    else if s[0] == QUOTE then Read([], s[1..])
    else if s[0] != BACKSLASH then
      var tail := ParseStringBody(s[1..]);
      if tail.Fail? then Fail else Read([s[0]] + tail.value, tail.rest)
    else if |s| == 1 || Unescape(s[1]).None? then Fail
    else
      var tail := ParseStringBody(s[2..]);
      if tail.Fail? then Fail else Read([Unescape(s[1]).value] + tail.value, tail.rest)
  }

  function ParseString(s: Text): (p: Parsed<Text>)
    ensures p.Read? ==> |p.rest| < |s|
  {
    if s == [] || s[0] != QUOTE then Fail else ParseStringBody(s[1..])
  }

  /** The digits still to come, `high` being the number read so far. */
  function ParseDigits(high: nat, s: Text): (p: Parsed<nat>)
    ensures p.Read? ==> |p.rest| <= |s|
    decreases |s|
  {
    if s == [] || !IsDigit(s[0]) then Read(high, s)
    else
      var digit := DigitOf(s[0]);
      if high > (UINT64_MAX - digit) / 10 then Fail else ParseDigits(high * 10 + digit, s[1..])
  }

  function ParseUnsigned(s: Text): (p: Parsed<nat>)
    ensures p.Read? ==> |p.rest| <= |s|
  {
    if s == [] || !IsDigit(s[0]) then Fail else ParseDigits(0, s)
  }

  /** A value and its effect on the message. */
  function ParseValue(message: Message, key: Text, s: Text): (p: Parsed<Message>)
    ensures p.Read? ==> |p.rest| <= |s|
  {
    if s != [] && s[0] == QUOTE then
      var value := ParseString(s);
      if value.Fail? then Fail else Read(message.SetString(key, value.value), value.rest)
    else
      var value := ParseUnsigned(s);
      if value.Fail? then Fail else Read(message.SetNumber(key, value.value), value.rest)
  }

  /** One member from its key to the white space after its value. */
  function ParseMember(message: Message, s: Text): (p: Parsed<Message>)
    ensures p.Read? ==> |p.rest| < |s|
  {
    var key := ParseString(s);
    if key.Fail? then Fail
    else
      var colon := SkipSpace(key.rest);
      if colon == [] || colon[0] != COLON then Fail
      else
        var value := ParseValue(message, key.value, SkipSpace(colon[1..]));
        if value.Fail? then Fail else Read(value.value, SkipSpace(value.rest))
  }

  /** The members from the first key on. Text that ends right after the opening brace is left to the
      checks that follow. */
  function ParseMembers(message: Message, s: Text): Parsed<Message>
    decreases |s|
  {
    if s == [] then Read(message, [])
    else
      var member := ParseMember(message, s);
      if member.Fail? || member.rest == [] then Fail
      else if member.rest[0] == CLOSE_BRACE then Read(member.value, member.rest[1..])
      else if member.rest[0] != COMMA then Fail
      else
        var next := SkipSpace(member.rest[1..]);
        if next == [] || next[0] == CLOSE_BRACE then Fail else ParseMembers(member.value, next)
  }

  /** The last checks: a known type, then a session and a client. */
  function Judge(m: Message): Result<Message> {
    if m.kind == Unknown then Err(InvalidMessageType)
    else if m.session == [] || m.client == [] then Err(MissingRequiredField)
    else Ok(m)
  }

  function Parse(text: Text): Result<Message> {
    var open := SkipSpace(text);
    if open == [] || open[0] != OPEN_BRACE then Err(InvalidJson)
    else
      var first := SkipSpace(open[1..]);
      if first != [] && first[0] == CLOSE_BRACE then Err(MissingRequiredField)
      else
        var members := ParseMembers(EMPTY_MESSAGE, first);
        if members.Fail? || SkipSpace(members.rest) != [] then Err(InvalidJson) else Judge(members.value)
  }

  /** DeserializeMessage on the wide text of a payload; the limit is on the payload's bytes. */
  function Deserialize(text: Text): Result<Message> {
    var size := Utf8Size(text);
    if size.None? then Err(InvalidUtf8)
    else if size.value > MAX_FRAME_PAYLOAD_BYTES then Err(FrameTooLarge)
    else Parse(text)
  }

  method SkipWhitespace(text: Text, index: nat) returns (next: nat)
    requires index <= |text|
    ensures index <= next <= |text| && text[next..] == SkipSpace(text[index..])
  {
    next := index;
    while next < |text| && IsWhitespace(text[next])
      invariant index <= next <= |text|
      invariant SkipSpace(text[next..]) == SkipSpace(text[index..])
    {
      assert text[next..][1..] == text[next + 1..];
      next := next + 1;
    }
  }

  function Prepend(value: Text, p: Parsed<Text>): Parsed<Text> {
    if p.Fail? then Fail else Read(value + p.value, p.rest)
  }

  lemma PrependNothing(p: Parsed<Text>)
    ensures Prepend([], p) == p
  {
    if p.Read? {
      assert [] + p.value == p.value;
    }
  }

  lemma PrependUnit(value: Text, ch: Unit, p: Parsed<Text>)
    ensures Prepend(value + [ch], p) == Prepend(value, Prepend([ch], p))
  {
    if p.Read? {
      assert (value + [ch]) + p.value == value + ([ch] + p.value);
    }
  }

  method ParseJsonString(text: Text, index: nat) returns (ok: bool, value: Text, next: nat)
    requires index <= |text|
    ensures next <= |text|
    ensures ParseString(text[index..]) == if ok then Read(value, text[next..]) else Fail
  {
    value, next := [], index;
    if next >= |text| || text[next] != QUOTE {
      return false, value, next;
    }
    next := next + 1;
    assert text[index..][1..] == text[next..];
    PrependNothing(ParseStringBody(text[next..]));
    while next < |text|
      invariant index < next <= |text|
      invariant ParseString(text[index..]) == Prepend(value, ParseStringBody(text[next..]))
    {
      ghost var rest := text[next..];
      var ch := text[next];
      next := next + 1;
      assert rest[1..] == text[next..];
      if ch == QUOTE {
        assert value + [] == value;
        return true, value, next;
      }
      if ch != BACKSLASH {
        PrependUnit(value, ch, ParseStringBody(text[next..]));
        value := value + [ch];
        continue;
      }
      if next >= |text| {
        return false, value, next;
      }
      var escaped := text[next];
      next := next + 1;
      assert rest[1] == escaped && rest[2..] == text[next..];
      var unit := Unescape(escaped);
      if unit.None? {
        return false, value, next;
      }
      PrependUnit(value, unit.value, ParseStringBody(text[next..]));
      value := value + [unit.value];
    }
    return false, value, next;
  }

  method ParseUnsignedNumber(text: Text, index: nat) returns (ok: bool, value: nat, next: nat)
    requires index <= |text|
    ensures next <= |text|
    ensures ParseUnsigned(text[index..]) == if ok then Read(value, text[next..]) else Fail
  {
    value, next := 0, index;
    if next >= |text| || !IsDigit(text[next]) {
      return false, value, next;
    }
    while next < |text| && IsDigit(text[next])
      invariant index <= next <= |text|
      invariant ParseUnsigned(text[index..]) == ParseDigits(value, text[next..])
    {
      assert text[next..][1..] == text[next + 1..];
      var digit := DigitOf(text[next]);
      if value > (UINT64_MAX - digit) / 10 {
        return false, value, next;
      }
      value := value * 10 + digit;
      next := next + 1;
    }
    ok := true;
  }

  method ParseMemberValue(message: Message, key: Text, text: Text, index: nat) returns (ok: bool, m: Message, next: nat)
    requires index <= |text|
    ensures next <= |text|
    ensures ParseValue(message, key, text[index..]) == if ok then Read(m, text[next..]) else Fail
  {
    m := message;
    if index < |text| && text[index] == QUOTE {
      var value;
      ok, value, next := ParseJsonString(text, index);
      if ok {
        m := m.SetString(key, value);
      }
    } else {
      var value;
      ok, value, next := ParseUnsignedNumber(text, index);
      if ok {
        m := m.SetNumber(key, value);
      }
    }
  }

  method ParseOneMember(message: Message, text: Text, index: nat) returns (ok: bool, m: Message, next: nat)
    requires index <= |text|
    ensures next <= |text|
    ensures ParseMember(message, text[index..]) == if ok then Read(m, text[next..]) else Fail
  {
    hide SkipSpace, ParseString, ParseValue;
    m := message;
    var key;
    ok, key, next := ParseJsonString(text, index);
    if !ok {
      return;
    }
    next := SkipWhitespace(text, next);
    if next >= |text| || text[next] != COLON {
      return false, m, next;
    }
    assert text[next..][1..] == text[next + 1..];
    next := SkipWhitespace(text, next + 1);
    ok, m, next := ParseMemberValue(message, key, text, next);
    if ok {
      next := SkipWhitespace(text, next);
    }
  }

  method DeserializeMessage(text: Text) returns (result: Result<Message>)
    ensures result == Deserialize(text)
  {
    var size := Utf8Size(text);
    if size.None? {
      return Err(InvalidUtf8);
    }
    if size.value > MAX_FRAME_PAYLOAD_BYTES {
      return Err(FrameTooLarge);
    }
    assert text[0..] == text;
    var index := SkipWhitespace(text, 0);
    if index >= |text| || text[index] != OPEN_BRACE {
      return Err(InvalidJson);
    }
    assert text[index..][1..] == text[index + 1..];
    index := SkipWhitespace(text, index + 1);
    if index < |text| && text[index] == CLOSE_BRACE {
      return Err(MissingRequiredField);
    }
    var message, ok := EMPTY_MESSAGE, true;
    ok, message, index := ParseAllMembers(message, text, index);
    if !ok {
      return Err(InvalidJson);
    }
    index := SkipWhitespace(text, index);
    if index != |text| {
      return Err(InvalidJson);
    }
    if message.kind == Unknown {
      return Err(InvalidMessageType);
    }
    if message.session == [] || message.client == [] {
      return Err(MissingRequiredField);
    }
    return Ok(message);
  }

  method ParseAllMembers(start: Message, text: Text, index: nat) returns (ok: bool, m: Message, next: nat)
    requires index <= |text|
    ensures next <= |text|
    ensures ParseMembers(start, text[index..]) == if ok then Read(m, text[next..]) else Fail
  {
    hide ParseMember, SkipSpace;
    m, next := start, index;
    while next < |text|
      invariant index <= next <= |text|
      invariant next == |text| ==> index == next
      invariant ParseMembers(start, text[index..]) == ParseMembers(m, text[next..])
      decreases |text| - next
    {
      ghost var before := text[next..];
      ok, m, next := ParseOneMember(m, text, next);
      if !ok || next >= |text| {
        return false, m, next;
      }
      assert text[next..][1..] == text[next + 1..];
      if text[next] == CLOSE_BRACE {
        return true, m, next + 1;
      }
      if text[next] != COMMA {
        return false, m, next;
      }
      next := SkipWhitespace(text, next + 1);
      if next >= |text| || text[next] == CLOSE_BRACE {
        return false, m, next;
      }
      assert |text[next..]| < |before|;
    }
    ok := true;
  }
}
