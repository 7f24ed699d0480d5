/** The parser accepts exactly the texts of the grammar, and reads them as the grammar does. */
module JsonAcceptance {
  import opened WideText
  import opened Protocol
  import opened JsonPrinter
  import opened JsonGrammar
  import opened JsonParser

  lemma {:induction false} SkipSpaceOver(space: Text, s: Text)
    requires AllWhitespace(space) && (s == [] || !IsWhitespace(s[0]))
    ensures SkipSpace(space + s) == s
  {
    if space == [] {
      assert space + s == s;
    } else {
      assert (space + s)[1..] == space[1..] + s;
      SkipSpaceOver(space[1..], s);
    }
  }

  lemma {:induction false} SkippedSpace(s: Text) returns (space: Text)
    ensures AllWhitespace(space) && s == space + SkipSpace(s)
    ensures SkipSpace(s) == [] || !IsWhitespace(SkipSpace(s)[0])
  {
    hide IsWhitespace;
    space := [];
    if s != [] && IsWhitespace(s[0]) {
      var more := SkippedSpace(s[1..]);
      space := [s[0]] + more;
      assert s == [s[0]] + s[1..];
    }
  }

  lemma {:induction false} StringBodyIsRead(items: seq<StringItem>, rest: Text)
    requires ItemsOk(items)
    ensures ParseStringBody(ItemsText(items) + [QUOTE] + rest) == Read(ItemsValue(items), rest)
  {
    var s := ItemsText(items) + [QUOTE] + rest;
    if items == [] {
      assert s[1..] == rest;
    } else {
      StringBodyIsRead(items[1..], rest);
      var item := items[0];
      assert ItemOk(item);
      ItemThenTail(item, ItemsText(items[1..]) + [QUOTE] + rest, ItemsValue(items[1..]), rest);
      assert s == ItemText(item) + (ItemsText(items[1..]) + [QUOTE] + rest);
    }
  }

  /** One item in front of a string body that reads as `value`. */
  lemma ItemThenTail(item: StringItem, tail: Text, value: Text, rest: Text)
    requires ItemOk(item) && ParseStringBody(tail) == Read(value, rest)
    ensures ParseStringBody(ItemText(item) + tail) == Read([ItemUnit(item)] + value, rest)
  {
    var s := ItemText(item) + tail;
    assert s[|ItemText(item)|..] == tail;
    assert s[0] == ItemText(item)[0];
    if item.Escaped? {
      assert s[1] == item.letter;
    }
  }

  lemma StringIsRead(items: seq<StringItem>, rest: Text)
    requires ItemsOk(items)
    ensures ParseString(LiteralText(items) + rest) == Read(ItemsValue(items), rest)
  {
    StringBodyIsRead(items, rest);
    assert (LiteralText(items) + rest)[1..] == ItemsText(items) + [QUOTE] + rest;
  }

  lemma ItemsCons(item: StringItem, more: seq<StringItem>)
    requires ItemOk(item) && ItemsOk(more)
    ensures ItemsOk([item] + more)
    ensures ItemsValue([item] + more) == [ItemUnit(item)] + ItemsValue(more)
    ensures ItemsText([item] + more) == ItemText(item) + ItemsText(more)
  {
    assert ([item] + more)[1..] == more;
  }

  lemma {:induction false} ReadStringBody(s: Text) returns (items: seq<StringItem>)
    requires ParseStringBody(s).Read?
    ensures ItemsOk(items) && ItemsValue(items) == ParseStringBody(s).value
    ensures s == ItemsText(items) + [QUOTE] + ParseStringBody(s).rest
  {
    if s[0] == QUOTE {
      items := [];
      assert s == [QUOTE] + s[1..];
    } else {
      hide ItemsText, ItemsValue, ItemsOk;
      var width := if s[0] == BACKSLASH then 2 else 1;
      var more := ReadStringBody(s[width..]);
      var item := if s[0] == BACKSLASH then Escaped(s[1]) else Plain(s[0]);
      ItemsCons(item, more);
      items := [item] + more;
      assert ItemText(item) == s[..width];
      RegroupTail(s, width, ItemsText(more), ParseStringBody(s).rest);
    }
  }

  lemma RegroupTail(s: Text, width: nat, body: Text, rest: Text)
    requires width <= |s| && s[width..] == body + [QUOTE] + rest
    ensures s == s[..width] + body + [QUOTE] + rest
  {
    assert s == s[..width] + s[width..];
  }

  lemma ReadString(s: Text) returns (items: seq<StringItem>)
    requires ParseString(s).Read?
    ensures ItemsOk(items) && ItemsValue(items) == ParseString(s).value
    ensures s == LiteralText(items) + ParseString(s).rest
  {
    items := ReadStringBody(s[1..]);
    assert s == [QUOTE] + s[1..];
  }

  lemma {:induction false} DigitsGrow(high: nat, digits: Text)
    requires AllDigits(digits)
    ensures high <= DigitsValue(high, digits)
    decreases |digits|
  {
    if digits != [] {
      DigitsGrow(10 * high + DigitOf(digits[0]), digits[1..]);
    }
  }

  /** The overflow test before each step refuses exactly the numbers over 64 bits. */
  lemma {:induction false} DigitsAreRead(high: nat, digits: Text, rest: Text)
    requires AllDigits(digits) && (rest == [] || !IsDigit(rest[0])) && high <= UINT64_MAX
    ensures ParseDigits(high, digits + rest)
         == if DigitsValue(high, digits) <= UINT64_MAX then Read(DigitsValue(high, digits), rest) else Fail
    decreases |digits|
  {
    if digits == [] {
      assert digits + rest == rest;
    } else {
      assert (digits + rest)[1..] == digits[1..] + rest;
      var digit := DigitOf(digits[0]);
      var next := 10 * high + digit;
      DigitsGrow(next, digits[1..]);
      if next <= UINT64_MAX {
        DigitsAreRead(next, digits[1..], rest);
      }
    }
  }

  function LeadingDigits(s: Text): Text {
    if s == [] || !IsDigit(s[0]) then [] else [s[0]] + LeadingDigits(s[1..])
  }

  lemma {:induction false} LeadingDigitsEnd(s: Text)
    ensures var n := |LeadingDigits(s)|;
            && n <= |s| && s == LeadingDigits(s) + s[n..] && AllDigits(LeadingDigits(s))
            && (n == |s| || !IsDigit(s[n]))
  {
    if s != [] && IsDigit(s[0]) {
      LeadingDigitsEnd(s[1..]);
      assert s == [s[0]] + s[1..];
    }
  }

  lemma ReadUnsigned(s: Text) returns (digits: Text)
    requires ParseUnsigned(s).Read?
    ensures digits != [] && AllDigits(digits) && DigitsValue(0, digits) <= UINT64_MAX
    ensures s == digits + ParseUnsigned(s).rest && ParseUnsigned(s).value == DigitsValue(0, digits)
  {
    digits := LeadingDigits(s);
    LeadingDigitsEnd(s);
    var rest := s[|digits|..];
    DigitsAreRead(0, digits, rest);
    assert s == digits + rest;
    assert |digits| > 0;
  }

  lemma UnsignedIsRead(digits: Text, rest: Text)
    requires digits != [] && AllDigits(digits) && DigitsValue(0, digits) <= UINT64_MAX
    requires rest == [] || !IsDigit(rest[0])
    ensures ParseUnsigned(digits + rest) == Read(DigitsValue(0, digits), rest)
  {
    DigitsAreRead(0, digits, rest);
    assert (digits + rest)[0] == digits[0];
  }

  /** What may follow a value: white space, a comma or the closing brace, never a digit. */
  predicate EndsValue(rest: Text) {
    rest != [] && (IsWhitespace(rest[0]) || rest[0] == COMMA || rest[0] == CLOSE_BRACE)
  }

  lemma ValueIsRead(message: Message, m: Member, rest: Text)
    requires MemberOk(m) && EndsValue(rest)
    ensures ParseValue(message, ItemsValue(m.key), ValueText(m.value) + rest) == Read(ReadMember(message, m), rest)
  {
    var s := ValueText(m.value) + rest;
    match m.value {
      case StringValue(items) =>
        StringIsRead(items, rest);
        assert s[0] == QUOTE;
      case NumberValue(digits) =>
        UnsignedIsRead(digits, rest);
        assert s[0] == digits[0];
    }
  }

  /** The first unit after the white space inside a member is never white space itself. */
  lemma MemberParts(m: Member, rest: Text)
    ensures MemberBody(m) + rest
         == LiteralText(m.key) + (m.beforeColon + ([COLON] + (m.afterColon + (ValueText(m.value) + (m.trail + rest)))))
  {
    hide LiteralText, ValueText;
  }

  lemma TrailEndsValue(m: Member, rest: Text)
    requires MemberOk(m) && rest != [] && (rest[0] == COMMA || rest[0] == CLOSE_BRACE)
    ensures EndsValue(m.trail + rest)
  {
    if m.trail == [] {
      assert m.trail + rest == rest;
    } else {
      assert (m.trail + rest)[0] == m.trail[0];
    }
  }

  lemma MemberIsRead(message: Message, m: Member, rest: Text)
    requires MemberOk(m) && rest != [] && (rest[0] == COMMA || rest[0] == CLOSE_BRACE)
    ensures ParseMember(message, MemberBody(m) + rest) == Read(ReadMember(message, m), rest)
  {
    hide ParseValue, ParseString, ReadMember, ItemsValue, ItemsOk, ValueOk, MemberBody, LiteralText, ValueText,
         EndsValue, SkipSpace;
    var afterValue := m.trail + rest;
    var value := ValueText(m.value) + afterValue;
    var afterColon := m.afterColon + value;
    var colon := [COLON] + afterColon;
    var afterKey := m.beforeColon + colon;
    MemberParts(m, rest);
    StringIsRead(m.key, afterKey);
    SkipSpaceOver(m.beforeColon, colon);
    assert colon[1..] == afterColon;
    ValueStarts(m.value, afterValue);
    SkipSpaceOver(m.afterColon, value);
    TrailEndsValue(m, rest);
    ValueIsRead(message, m, afterValue);
    SkipSpaceOver(m.trail, rest);
  }

  lemma ValueStarts(value: Value, rest: Text)
    requires ValueOk(value)
    ensures ValueText(value) + rest != [] && !IsWhitespace((ValueText(value) + rest)[0])
  {
    if value.NumberValue? {
      assert (ValueText(value) + rest)[0] == value.digits[0];
    }
  }

  lemma {:induction false} MembersAreRead(message: Message, members: seq<Member>, rest: Text)
    requires members != [] && MembersOk(members)
    ensures ParseMembers(message, MembersText(members) + rest) == Read(ReadMembers(message, members), rest)
    decreases |members|
  {
    hide ParseMember, ReadMember, MemberBody, MemberOk;
    var m := members[0];
    var s := MembersText(members) + rest;
    if |members| == 1 {
      var tail := [CLOSE_BRACE] + rest;
      assert s == MemberBody(m) + tail;
      BodyNotEmpty(m);
      MemberIsRead(message, m, tail);
      assert tail[1..] == rest;
      assert members[1..] == [];
    } else {
      var more := MembersText(members[1..]) + rest;
      var spaced := members[1].lead + more;
      var tail := [COMMA] + spaced;
      assert s == MemberBody(m) + tail;
      BodyNotEmpty(m);
      MemberIsRead(message, m, tail);
      assert tail[1..] == spaced;
      MembersStart(members[1..], rest);
      LeadIsSpace(members[1]);
      SkipSpaceOver(members[1].lead, more);
      MembersAreRead(ReadMember(message, m), members[1..], rest);
    }
  }

  lemma LeadIsSpace(m: Member)
    requires MemberOk(m)
    ensures AllWhitespace(m.lead)
  {
  }

  lemma BodyNotEmpty(m: Member)
    ensures MemberBody(m) != [] && MemberBody(m)[0] == QUOTE
  {
    hide ItemsText, ValueText;
  }

  lemma MembersStart(members: seq<Member>, rest: Text)
    requires members != []
    ensures MembersText(members) + rest != [] && (MembersText(members) + rest)[0] == QUOTE
  {
    hide MemberBody;
    BodyNotEmpty(members[0]);
  }

  lemma ReadValue(message: Message, m: Member, s: Text) returns (value: Value)
    requires ItemsOk(m.key) && ParseValue(message, ItemsValue(m.key), s).Read?
    ensures ValueOk(value) && s == ValueText(value) + ParseValue(message, ItemsValue(m.key), s).rest
    ensures MemberOk(m.(value := value)) ==>
            ParseValue(message, ItemsValue(m.key), s).value == ReadMember(message, m.(value := value))
  {
    if s != [] && s[0] == QUOTE {
      var items := ReadString(s);
      value := StringValue(items);
    } else {
      var digits := ReadUnsigned(s);
      value := NumberValue(digits);
    }
  }

  lemma ReadOneMember(message: Message, s: Text, lead: Text) returns (m: Member)
    requires AllWhitespace(lead) && ParseMember(message, s).Read?
    ensures MemberOk(m) && m.lead == lead
    ensures s == MemberBody(m) + ParseMember(message, s).rest
    ensures ParseMember(message, s).value == ReadMember(message, m)
  {
    hide ParseValue, ParseString, SkipSpace, ReadMember, ItemsValue, LiteralText, ItemsOk, ValueOk, ValueText;
    var key := ReadString(s);
    var afterKey := ParseString(s).rest;
    var beforeColon := SkippedSpace(afterKey);
    var colon := SkipSpace(afterKey);
    var afterColon := SkippedSpace(colon[1..]);
    var valueStart := SkipSpace(colon[1..]);
    var draft := Member(lead, key, beforeColon, afterColon, NumberValue([]), []);
    var value := ReadValue(message, draft, valueStart);
    var afterValue := ParseValue(message, ItemsValue(key), valueStart).rest;
    var trail := SkippedSpace(afterValue);
    m := Member(lead, key, beforeColon, afterColon, value, trail);
    SameReading(message, draft.(value := value), m);
    JoinMember(LiteralText(key), beforeColon, colon, afterColon, ValueText(value), trail, SkipSpace(afterValue));
  }

  lemma JoinMember(key: Text, beforeColon: Text, colon: Text, afterColon: Text, value: Text, trail: Text, rest: Text)
    requires colon != [] && colon[0] == COLON && colon[1..] == afterColon + (value + (trail + rest))
    ensures key + (beforeColon + colon) == (key + beforeColon + [COLON] + afterColon + value + trail) + rest
  {
    assert colon == [COLON] + colon[1..];
  }

  lemma SameReading(message: Message, a: Member, b: Member)
    requires MemberOk(a) && MemberOk(b) && a.key == b.key && a.value == b.value
    ensures ReadMember(message, a) == ReadMember(message, b)
  {
  }

  lemma {:induction false} ReadAllMembers(message: Message, s: Text, lead: Text) returns (members: seq<Member>)
    requires AllWhitespace(lead) && s != [] && ParseMembers(message, s).Read?
    ensures members != [] && MembersOk(members) && members[0].lead == lead
    ensures s == MembersText(members) + ParseMembers(message, s).rest
    ensures ParseMembers(message, s).value == ReadMembers(message, members)
    decreases |s|
  {
    hide ParseMember, ReadMember, MemberBody, MemberOk;
    var m := ReadOneMember(message, s, lead);
    var after := ParseMember(message, s).rest;
    assert after == [after[0]] + after[1..];
    if after[0] == CLOSE_BRACE {
      members := [m];
      assert members[1..] == [];
    } else {
      var space := SkippedSpace(after[1..]);
      var more := ReadAllMembers(ParseMember(message, s).value, SkipSpace(after[1..]), space);
      members := [m] + more;
      assert members[1..] == more;
      var rest := ParseMembers(message, s).rest;
      JoinMembers(MemberBody(m), space, MembersText(more), rest);
    }
  }

  lemma JoinMembers(body: Text, space: Text, more: Text, rest: Text)
    ensures body + ([COMMA] + (space + (more + rest))) == (body + ([COMMA] + space + more)) + rest
  {
  }

  /** The members of an object are where the parser starts reading them, and all of them are read. */
  lemma ObjectIsRead(o: Object)
    requires ObjectOk(o)
    ensures var open := SkipSpace(ObjectText(o));
            && open != [] && open[0] == OPEN_BRACE
            && var first := SkipSpace(open[1..]);
               && first != [] && first[0] != CLOSE_BRACE
               && ParseMembers(EMPTY_MESSAGE, first) == Read(Reading(o), o.after)
    ensures SkipSpace(o.after) == []
  {
    hide MembersText, ParseMembers, ReadMembers, MembersOk;
    var members := MembersText(o.members) + o.after;
    var spaced := o.members[0].lead + members;
    var open := [OPEN_BRACE] + spaced;
    assert ObjectText(o) == o.before + open;
    SkipSpaceOver(o.before, open);
    assert open[1..] == spaced;
    MembersStart(o.members, o.after);
    FirstLead(o);
    SkipSpaceOver(o.members[0].lead, members);
    MembersAreRead(EMPTY_MESSAGE, o.members, o.after);
    SkipSpaceOver(o.after, []);
    assert o.after + [] == o.after;
  }

  lemma FirstLead(o: Object)
    requires ObjectOk(o)
    ensures AllWhitespace(o.members[0].lead)
  {
    assert MemberOk(o.members[0]);
  }

  /** Every text of the grammar gets the verdict its reading deserves. */
  lemma GrammarIsAccepted(o: Object)
    requires ObjectOk(o)
    ensures Parse(ObjectText(o)) == Judge(Reading(o))
  {
    hide Reading, ParseMembers, ObjectText;
    ObjectIsRead(o);
  }

  /** A text has one reading, whatever tree it is seen through. */
  lemma ReadingIsUnique(a: Object, b: Object)
    requires ObjectOk(a) && ObjectOk(b) && ObjectText(a) == ObjectText(b)
    ensures Reading(a) == Reading(b)
  {
    hide Reading, ParseMembers;
    ObjectIsRead(a);
    ObjectIsRead(b);
  }

  /** Every accepted text has a tree. */
  lemma AcceptedParts(text: Text)
    requires Parse(text).Ok?
    ensures var open := SkipSpace(text);
            && open != [] && open == [OPEN_BRACE] + open[1..]
            && SkipSpace(open[1..]) != []
            && var members := ParseMembers(EMPTY_MESSAGE, SkipSpace(open[1..]));
            members.Read? && SkipSpace(members.rest) == []
  {
    hide ParseMembers;
    var open := SkipSpace(text);
    NothingIsNoMember(SkipSpace(open[1..]));
  }

  lemma NothingIsNoMember(first: Text)
    ensures first == [] ==> Judge(ParseMembers(EMPTY_MESSAGE, first).value) == Err(InvalidMessageType)
  {
  }

  lemma JoinObject(before: Text, lead: Text, members: Text, after: Text, text: Text, open: Text, first: Text)
    requires open != [] && text == before + open && open == [OPEN_BRACE] + open[1..] && open[1..] == lead + first
    requires first == members + after
    ensures before + [OPEN_BRACE] + lead + members + after == text
  {
  }

  lemma AcceptedIsGrammar(text: Text) returns (o: Object)
    requires Parse(text).Ok?
    ensures ObjectOk(o) && ObjectText(o) == text
  {
    AcceptedParts(text);
    hide ParseMembers, MembersText, SkipSpace, Parse, AllWhitespace, MembersOk;
    var before := SkippedSpace(text);
    var open := SkipSpace(text);
    var lead := SkippedSpace(open[1..]);
    var first := SkipSpace(open[1..]);
    var members := ReadAllMembers(EMPTY_MESSAGE, first, lead);
    var after := ParseMembers(EMPTY_MESSAGE, first).rest;
    var blank := SkippedSpace(after);
    assert blank == after;
    o := Object(before, members, after);
    JoinObject(before, lead, MembersText(members), after, text, open, first);
  }

  /** The object names a known type, a session and a client, each by its last member of that name. */
  predicate Complete(o: Object)
    requires ObjectOk(o)
  {
    && MessageTypeFromString(OrEmpty(LastString(o.members, TYPE))) != Unknown
    && OrEmpty(LastString(o.members, SESSION)) != []
    && OrEmpty(LastString(o.members, CLIENT)) != []
  }

  ghost predicate IsComplete(text: Text, o: Object) {
    ObjectOk(o) && ObjectText(o) == text && Complete(o)
  }

  /** A payload within the frame limit is accepted exactly when it is a complete object of the grammar,
      and every accepted one is read last-wins, through any of its trees. */
  lemma AcceptedIff(text: Text)
    requires Utf8Size(text).Some? && Utf8Size(text).value <= MAX_FRAME_PAYLOAD_BYTES
    ensures Deserialize(text).Ok? <==> exists o: Object :: IsComplete(text, o)
    ensures forall o: Object :: IsComplete(text, o) ==>
            && Deserialize(text) == Ok(Reading(o))
            && (forall key :: Reading(o).GetString(key) == LastString(o.members, key))
            && (forall key :: Reading(o).GetNumber(key) == LastNumber(o.members, key))
  {
    hide Parse, ObjectText, ReadMembers, LastString, LastNumber;
    forall o: Object | IsComplete(text, o)
      ensures Deserialize(text) == Ok(Reading(o))
      ensures forall key :: Reading(o).GetString(key) == LastString(o.members, key)
      ensures forall key :: Reading(o).GetNumber(key) == LastNumber(o.members, key)
    {
      GrammarIsAccepted(o);
      LastWins(o.members);
    }
    if Parse(text).Ok? {
      var o := AcceptedIsGrammar(text);
      GrammarIsAccepted(o);
      LastWins(o.members);
      assert IsComplete(text, o);
    }
  }
}
