/** The wire grammar, written down independently of the parser: a subset of sections 4, 6 and 7 of
    RFC 8259 with string and unsigned-integer values, and without the hexadecimal escapes. A syntax tree records every
    choice a writer has, white space and escapes included. */
module JsonGrammar {
  import opened WideText
  import opened Protocol
  import opened JsonPrinter

  datatype StringItem = Plain(ch: Unit) | Escaped(letter: Unit)

  datatype Value = StringValue(items: seq<StringItem>) | NumberValue(digits: Text)

  /** One member with the white space before its key, around its colon and after its value. */
  datatype Member = Member(lead: Text, key: seq<StringItem>, beforeColon: Text, afterColon: Text, value: Value, trail: Text)

  datatype Object = Object(before: Text, members: seq<Member>, after: Text)

  predicate IsWhitespace(ch: Unit) {
    ch == SPACE || ch == TAB || ch == CARRIAGE_RETURN || ch == LINE_FEED
  }

  predicate AllWhitespace(t: Text) {
    forall i :: 0 <= i < |t| ==> IsWhitespace(t[i])
  }

  predicate IsDigit(ch: Unit) {
    DIGIT_ZERO <= ch < DIGIT_ZERO + 10
  }

  function DigitOf(ch: Unit): nat
    requires IsDigit(ch)
  {
    (ch - DIGIT_ZERO) as nat
  }

  predicate AllDigits(t: Text) {
    forall i :: 0 <= i < |t| ==> IsDigit(t[i])
  }

  /** The unit an escape letter stands for. */
  function Unescape(letter: Unit): Option<Unit> {
    if letter == QUOTE || letter == BACKSLASH || letter == SLASH then Some(letter)
    else if letter == LETTER_B then Some(BACKSPACE)
    else if letter == LETTER_F then Some(FORM_FEED)
    else if letter == LETTER_N then Some(LINE_FEED)
    else if letter == LETTER_R then Some(CARRIAGE_RETURN)
    else if letter == LETTER_T then Some(TAB)
    else None
  }

  predicate ItemOk(item: StringItem) {
    match item
    case Plain(ch) => ch != QUOTE && ch != BACKSLASH
    case Escaped(letter) => Unescape(letter).Some?
  }

  predicate ItemsOk(items: seq<StringItem>) {
    forall i :: 0 <= i < |items| ==> ItemOk(items[i])
  }

  function ItemText(item: StringItem): Text {
    match item
    case Plain(ch) => [ch]
    case Escaped(letter) => [BACKSLASH, letter]
  }

  function ItemsText(items: seq<StringItem>): Text {
    if items == [] then [] else ItemText(items[0]) + ItemsText(items[1..])
  }

  function ItemUnit(item: StringItem): Unit
    requires ItemOk(item)
  {
    match item
    case Plain(ch) => ch
    case Escaped(letter) => Unescape(letter).value
  }

  /** The text a string literal stands for. */
  function ItemsValue(items: seq<StringItem>): Text
    requires ItemsOk(items)
  {
    if items == [] then [] else [ItemUnit(items[0])] + ItemsValue(items[1..])
  }

  function LiteralText(items: seq<StringItem>): Text {
    [QUOTE] + ItemsText(items) + [QUOTE]
  }

  /** The number a run of digits stands for, after `high` has been read before it. */
  function DigitsValue(high: nat, digits: Text): nat
    requires AllDigits(digits)
    decreases |digits|
  {
    if digits == [] then high else DigitsValue(10 * high + DigitOf(digits[0]), digits[1..])
  }

  predicate ValueOk(value: Value) {
    match value
    case StringValue(items) => ItemsOk(items)
    case NumberValue(digits) => digits != [] && AllDigits(digits) && DigitsValue(0, digits) <= UINT64_MAX
  }

  function ValueText(value: Value): Text {
    match value
    case StringValue(items) => LiteralText(items)
    case NumberValue(digits) => digits
  }

  predicate MemberOk(m: Member) {
    && AllWhitespace(m.lead) && AllWhitespace(m.beforeColon) && AllWhitespace(m.afterColon) && AllWhitespace(m.trail)
    && ItemsOk(m.key) && ValueOk(m.value)
  }

  /** A member from its key to the white space after its value. */
  function MemberBody(m: Member): Text {
    LiteralText(m.key) + m.beforeColon + [COLON] + m.afterColon + ValueText(m.value) + m.trail
  }

  /** All members from the first key to the closing brace. */
  function MembersText(members: seq<Member>): Text
    requires members != []
  {
    MemberBody(members[0])
    + if |members| == 1 then [CLOSE_BRACE] else [COMMA] + members[1].lead + MembersText(members[1..])
  }

  predicate MembersOk(members: seq<Member>) {
    forall i :: 0 <= i < |members| ==> MemberOk(members[i])
  }

  predicate ObjectOk(o: Object) {
    AllWhitespace(o.before) && AllWhitespace(o.after) && o.members != [] && MembersOk(o.members)
  }

  function ObjectText(o: Object): Text
    requires o.members != []
  {
    o.before + [OPEN_BRACE] + o.members[0].lead + MembersText(o.members) + o.after
  }

  /** One member's effect on the message being read. */
  function ReadMember(message: Message, m: Member): Message
    requires MemberOk(m)
  {
    match m.value
    case StringValue(items) => message.SetString(ItemsValue(m.key), ItemsValue(items))
    case NumberValue(digits) => message.SetNumber(ItemsValue(m.key), DigitsValue(0, digits))
  }

  function ReadMembers(message: Message, members: seq<Member>): Message
    requires MembersOk(members)
    decreases |members|
  {
    if members == [] then message else ReadMembers(ReadMember(message, members[0]), members[1..])
  }

  function Reading(o: Object): Message
    requires ObjectOk(o)
  {
    ReadMembers(EMPTY_MESSAGE, o.members)
  }

  /** The last string member with the given key. */
  function LastString(members: seq<Member>, key: Text): Option<Text>
    requires MembersOk(members)
  {
    if members == [] then None
    else
      var m := members[|members| - 1];
      if m.value.StringValue? && ItemsValue(m.key) == key then Some(ItemsValue(m.value.items))
      else LastString(members[..|members| - 1], key)
  }

  function LastNumber(members: seq<Member>, key: Text): Option<nat>
    requires MembersOk(members)
  {
    if members == [] then None
    else
      var m := members[|members| - 1];
      if m.value.NumberValue? && ItemsValue(m.key) == key then Some(DigitsValue(0, m.value.digits))
      else LastNumber(members[..|members| - 1], key)
  }

  function OrEmpty(value: Option<Text>): Text {
    if value.Some? then value.value else []
  }

  lemma {:induction false} ReadMembersLast(message: Message, members: seq<Member>)
    requires MembersOk(members) && members != []
    ensures ReadMembers(message, members)
         == ReadMember(ReadMembers(message, members[..|members| - 1]), members[|members| - 1])
    decreases |members|
  {
    hide ReadMember;
    if |members| == 1 {
      assert members[..0] == [];
    } else {
      ReadMembersLast(ReadMember(message, members[0]), members[1..]);
      assert members[1..][..|members| - 2] == members[..|members| - 1][1..];
    }
  }

  /** `m` is the last-wins reading of the members, and its three common fields mirror its string map. */
  ghost predicate IsLastWins(m: Message, members: seq<Member>)
    requires MembersOk(members)
  {
    && (forall key :: m.GetString(key) == LastString(members, key))
    && (forall key :: m.GetNumber(key) == LastNumber(members, key))
    && m.kind == MessageTypeFromString(OrEmpty(LastString(members, TYPE)))
    && m.session == OrEmpty(LastString(members, SESSION))
    && m.client == OrEmpty(LastString(members, CLIENT))
  }

  lemma ReadMemberGets(m: Message, last: Member, key: Text)
    requires MemberOk(last)
    ensures ReadMember(m, last).GetString(key)
         == if last.value.StringValue? && ItemsValue(last.key) == key then Some(ItemsValue(last.value.items))
            else m.GetString(key)
    ensures ReadMember(m, last).GetNumber(key)
         == if last.value.NumberValue? && ItemsValue(last.key) == key then Some(DigitsValue(0, last.value.digits))
            else m.GetNumber(key)
  {
    hide MessageTypeFromString, ItemsValue, DigitsValue, MemberOk;
  }

  lemma ReadMemberMirrors(m: Message, last: Member)
    requires MemberOk(last)
    ensures var read := ReadMember(m, last);
            if last.value.NumberValue? then read.kind == m.kind && read.session == m.session && read.client == m.client
            else
              var key, value := ItemsValue(last.key), ItemsValue(last.value.items);
              && read.kind == (if key == TYPE then MessageTypeFromString(value) else m.kind)
              && read.session == (if key == SESSION then value else m.session)
              && read.client == (if key == CLIENT then value else m.client)
  {
    hide MessageTypeFromString, ItemsValue, DigitsValue, MemberOk;
    KeysDiffer();
  }

  lemma LastWinsStep(m: Message, members: seq<Member>)
    requires MembersOk(members) && members != [] && IsLastWins(m, members[..|members| - 1])
    ensures IsLastWins(ReadMember(m, members[|members| - 1]), members)
  {
    hide MessageTypeFromString, ItemsValue, DigitsValue, MemberOk, ReadMember, Message.GetString, Message.GetNumber;
    var last := members[|members| - 1];
    var before := members[..|members| - 1];
    var read := ReadMember(m, last);
    forall key
      ensures read.GetString(key) == LastString(members, key) && read.GetNumber(key) == LastNumber(members, key)
    {
      ReadMemberGets(m, last, key);
      assert m.GetString(key) == LastString(before, key) && m.GetNumber(key) == LastNumber(before, key);
    }
    ReadMemberMirrors(m, last);
  }

  lemma {:induction false} LastWins(members: seq<Member>)
    requires MembersOk(members)
    ensures IsLastWins(ReadMembers(EMPTY_MESSAGE, members), members)
    decreases |members|
  {
    hide MessageTypeFromString, MemberOk, ReadMember;
    if members == [] {
      NoNameIsUnknown();
    } else {
      ReadMembersLast(EMPTY_MESSAGE, members);
      LastWins(members[..|members| - 1]);
      LastWinsStep(ReadMembers(EMPTY_MESSAGE, members[..|members| - 1]), members);
    }
  }

  lemma NoNameIsUnknown()
    ensures MessageTypeFromString([]) == Unknown
  {
  }
}
