/** Printing and then parsing gives a message back; parsing, printing and parsing again changes nothing. */
module JsonRoundTrip {
  import opened WideText
  import opened Protocol
  import opened KeyOrder
  import opened JsonPrinter
  import opened JsonGrammar
  import opened JsonParser
  import opened JsonAcceptance

  function EscapeItem(ch: Unit): StringItem {
    if |EscapeUnit(ch)| == 2 then Escaped(EscapeUnit(ch)[1]) else Plain(ch)
  }

  function EscapeItems(t: Text): seq<StringItem> {
    if t == [] then [] else [EscapeItem(t[0])] + EscapeItems(t[1..])
  }

  lemma EscapeItemStandsFor(ch: Unit)
    ensures ItemOk(EscapeItem(ch)) && ItemText(EscapeItem(ch)) == EscapeUnit(ch) && ItemUnit(EscapeItem(ch)) == ch
  {
  }

  /** Escaped text is a string literal that stands for the text. */
  lemma {:induction false} EscapeItemsStandFor(t: Text)
    ensures ItemsOk(EscapeItems(t)) && ItemsText(EscapeItems(t)) == Escape(t) && ItemsValue(EscapeItems(t)) == t
  {
    hide EscapeItem, EscapeUnit, ItemOk, ItemText, ItemUnit;
    if t != [] {
      EscapeItemStandsFor(t[0]);
      EscapeItemsStandFor(t[1..]);
      assert EscapeItems(t)[1..] == EscapeItems(t[1..]);
      assert t == [t[0]] + t[1..];
    }
  }

  lemma {:induction false} DigitsAppend(high: nat, a: Text, b: Text)
    requires AllDigits(a) && AllDigits(b)
    ensures AllDigits(a + b) && DigitsValue(high, a + b) == DigitsValue(DigitsValue(high, a), b)
    decreases |a|
  {
    if a == [] {
      assert a + b == b;
    } else {
      assert (a + b)[1..] == a[1..] + b;
      DigitsAppend(10 * high + DigitOf(a[0]), a[1..], b);
    }
  }

  lemma {:induction false} DecimalStandsFor(n: nat)
    ensures Decimal(n) != [] && AllDigits(Decimal(n)) && DigitsValue(0, Decimal(n)) == n
  {
    var last := [DIGIT_ZERO + (n % 10) as Unit];
    assert last[1..] == [];
    assert DigitsValue(n / 10, last) == 10 * (n / 10) + n % 10;
    if n >= 10 {
      DecimalStandsFor(n / 10);
      DigitsAppend(0, Decimal(n / 10), last);
    }
  }

  function StringMember(key: Text, value: Text): Member {
    Member([], EscapeItems(key), [], [], StringValue(EscapeItems(value)), [])
  }

  function NumberMember(key: Text, value: nat): Member {
    Member([], EscapeItems(key), [], [], NumberValue(Decimal(value)), [])
  }

  lemma StringMemberReads(message: Message, key: Text, value: Text)
    ensures MemberOk(StringMember(key, value)) && MemberBody(StringMember(key, value)) == StringField(key, value)
    ensures ReadMember(message, StringMember(key, value)) == message.SetString(key, value)
  {
    EscapeItemsStandFor(key);
    EscapeItemsStandFor(value);
  }

  lemma NumberMemberReads(message: Message, key: Text, value: nat)
    requires value <= UINT64_MAX
    ensures MemberOk(NumberMember(key, value)) && MemberBody(NumberMember(key, value)) == NumberField(key, value)
    ensures ReadMember(message, NumberMember(key, value)) == message.SetNumber(key, value)
  {
    EscapeItemsStandFor(key);
    DecimalStandsFor(value);
  }

  function StringMembers(keys: seq<Text>, strings: map<Text, Text>): seq<Member>
    requires forall k :: k in keys ==> k in strings
  {
    if keys == [] then []
    else (if IsCommonField(keys[0]) then [] else [StringMember(keys[0], strings[keys[0]])]) + StringMembers(keys[1..], strings)
  }

  function NumberMembers(keys: seq<Text>, numbers: map<Text, nat>): seq<Member>
    requires forall k :: k in keys ==> k in numbers
  {
    if keys == [] then [] else [NumberMember(keys[0], numbers[keys[0]])] + NumberMembers(keys[1..], numbers)
  }

  function CommonMembers(m: Message): seq<Member> {
    [StringMember(TYPE, MessageTypeToString(m.kind)), StringMember(SESSION, m.session), StringMember(CLIENT, m.client)]
  }

  ghost function PrintedMembers(m: Message): seq<Member> {
    CommonMembers(m) + StringMembers(SortedKeys(m.strings.Keys), m.strings)
    + NumberMembers(SortedKeys(m.numbers.Keys), m.numbers)
  }

  /** The members after the first, each after a comma. */
  function CommaBodies(members: seq<Member>): Text {
    if members == [] then [] else [COMMA] + MemberBody(members[0]) + CommaBodies(members[1..])
  }

  lemma {:induction false} CommaBodiesAppend(a: seq<Member>, b: seq<Member>)
    ensures CommaBodies(a + b) == CommaBodies(a) + CommaBodies(b)
  {
    hide MemberBody;
    if a == [] {
      assert a + b == b;
    } else {
      assert (a + b)[1..] == a[1..] + b;
      CommaBodiesAppend(a[1..], b);
    }
  }

  predicate NoLeads(members: seq<Member>) {
    forall i :: 0 <= i < |members| ==> members[i].lead == []
  }

  lemma {:induction false} MembersTextIsCommaBodies(members: seq<Member>)
    requires members != [] && NoLeads(members)
    ensures MembersText(members) == MemberBody(members[0]) + CommaBodies(members[1..]) + [CLOSE_BRACE]
    decreases |members|
  {
    hide MemberBody;
    if |members| == 1 {
      assert members[1..] == [];
    } else {
      MembersTextIsCommaBodies(members[1..]);
      assert members[1].lead == [];
      assert members[1..][1..] == members[2..];
    }
  }

  lemma {:induction false} StringMembersPrint(keys: seq<Text>, strings: map<Text, Text>)
    requires forall k :: k in keys ==> k in strings
    ensures MembersOk(StringMembers(keys, strings)) && NoLeads(StringMembers(keys, strings))
    ensures CommaBodies(StringMembers(keys, strings)) == StringFields(keys, strings)
  {
    hide MemberOk, MemberBody, StringField;
    if keys != [] {
      StringMembersPrint(keys[1..], strings);
      StringMemberReads(EMPTY_MESSAGE, keys[0], strings[keys[0]]);
      var one := StringMember(keys[0], strings[keys[0]]);
      assert [one][1..] == [];
      CommaBodiesAppend(if IsCommonField(keys[0]) then [] else [one], StringMembers(keys[1..], strings));
      assert CommaBodies([one]) == [COMMA] + StringField(keys[0], strings[keys[0]]) + [];
    }
  }

  lemma {:induction false} NumberMembersPrint(keys: seq<Text>, numbers: map<Text, nat>)
    requires forall k :: k in keys ==> k in numbers && numbers[k] <= UINT64_MAX
    ensures MembersOk(NumberMembers(keys, numbers)) && NoLeads(NumberMembers(keys, numbers))
    ensures CommaBodies(NumberMembers(keys, numbers)) == NumberFields(keys, numbers)
  {
    hide MemberOk, MemberBody, NumberField;
    if keys != [] {
      NumberMembersPrint(keys[1..], numbers);
      NumberMemberReads(EMPTY_MESSAGE, keys[0], numbers[keys[0]]);
      assert NumberMembers(keys, numbers)[1..] == NumberMembers(keys[1..], numbers);
    }
  }

  predicate SixtyFourBit(m: Message) {
    forall k :: k in m.numbers ==> m.numbers[k] <= UINT64_MAX
  }

  ghost function Tree(m: Message): Object {
    Object([], PrintedMembers(m), [])
  }

  lemma MembersOkAppend(a: seq<Member>, b: seq<Member>)
    requires MembersOk(a) && MembersOk(b)
    ensures MembersOk(a + b)
  {
    hide MemberOk;
  }

  lemma CommonMembersPrint(m: Message)
    ensures MembersOk(CommonMembers(m)) && NoLeads(CommonMembers(m))
    ensures MemberBody(CommonMembers(m)[0]) == StringField(TYPE, MessageTypeToString(m.kind))
    ensures CommaBodies(CommonMembers(m)[1..])
         == [COMMA] + StringField(SESSION, m.session) + [COMMA] + StringField(CLIENT, m.client)
  {
    hide MemberOk, MemberBody, StringField, StringMember, MessageTypeToString, CommaBodies;
    StringMemberReads(EMPTY_MESSAGE, TYPE, MessageTypeToString(m.kind));
    StringMemberReads(EMPTY_MESSAGE, SESSION, m.session);
    StringMemberReads(EMPTY_MESSAGE, CLIENT, m.client);
    StringMemberHasNoLead(TYPE, MessageTypeToString(m.kind));
    StringMemberHasNoLead(SESSION, m.session);
    StringMemberHasNoLead(CLIENT, m.client);
    var session, client := StringMember(SESSION, m.session), StringMember(CLIENT, m.client);
    assert CommonMembers(m)[1..] == [session, client];
    CommaBodiesOfTwo(session, client);
  }

  lemma StringMemberHasNoLead(key: Text, value: Text)
    ensures StringMember(key, value).lead == []
  {
  }

  lemma CommaBodiesOfTwo(a: Member, b: Member)
    ensures CommaBodies([a, b]) == [COMMA] + MemberBody(a) + [COMMA] + MemberBody(b)
  {
    hide MemberBody;
    assert [a, b][1..] == [b] && [b][1..] == [];
    assert CommaBodies([b]) == [COMMA] + MemberBody(b) + [];
  }

  lemma NumbersInRange(m: Message)
    requires SixtyFourBit(m)
    ensures forall k :: k in SortedKeys(m.numbers.Keys) ==> k in m.numbers && m.numbers[k] <= UINT64_MAX
  {
  }

  /** The printer prints the text of a tree of the grammar. */
  lemma PrintedIsTree(m: Message)
    requires SixtyFourBit(m)
    ensures ObjectOk(Tree(m)) && ObjectText(Tree(m)) == Printed(m)
  {
    hide MemberOk, MemberBody, StringField, StringFields, NumberFields, StringMembers, NumberMembers, SortedKeys,
         CommonMembers, CommaBodies, MembersText;
    var common := CommonMembers(m);
    var strings := StringMembers(SortedKeys(m.strings.Keys), m.strings);
    NumbersInRange(m);
    var numbers := NumberMembers(SortedKeys(m.numbers.Keys), m.numbers);
    var all := PrintedMembers(m);
    CommonMembersPrint(m);
    CommonAreThree(m);
    StringMembersPrint(SortedKeys(m.strings.Keys), m.strings);
    NumberMembersPrint(SortedKeys(m.numbers.Keys), m.numbers);
    MembersOkAppend(common, strings);
    MembersOkAppend(common + strings, numbers);
    MembersTextIsCommaBodies(all);
    assert all[1..] == common[1..] + strings + numbers;
    CommaBodiesAppend(common[1..], strings);
    CommaBodiesAppend(common[1..] + strings, numbers);
    JoinPrinted(StringField(TYPE, MessageTypeToString(m.kind)), StringField(SESSION, m.session),
                StringField(CLIENT, m.client), CommaBodies(strings), CommaBodies(numbers));
    assert ObjectText(Tree(m)) == [] + [OPEN_BRACE] + all[0].lead + MembersText(all) + [];
    assert all[0].lead == [];
  }

  lemma CommonAreThree(m: Message)
    ensures |CommonMembers(m)| == 3
  {
  }

  lemma JoinPrinted(kind: Text, session: Text, client: Text, strings: Text, numbers: Text)
    ensures [] + [OPEN_BRACE] + [] + (kind + ([COMMA] + session + [COMMA] + client + strings + numbers) + [CLOSE_BRACE]) + []
         == [OPEN_BRACE] + kind + [COMMA] + session + [COMMA] + client + strings + numbers + [CLOSE_BRACE]
  {
  }

  lemma {:induction false} ReadMembersAppend(message: Message, a: seq<Member>, b: seq<Member>)
    requires MembersOk(a) && MembersOk(b)
    ensures MembersOk(a + b) && ReadMembers(message, a + b) == ReadMembers(ReadMembers(message, a), b)
    decreases |a|
  {
    hide ReadMember, MemberOk;
    if a == [] {
      assert a + b == b;
    } else {
      assert (a + b)[1..] == a[1..] + b;
      ReadMembersAppend(ReadMember(message, a[0]), a[1..], b);
    }
  }

  /** The string fields the printer writes after the common ones. */
  function Others(keys: set<Text>, strings: map<Text, Text>): map<Text, Text>
    requires keys <= strings.Keys
  {
    map k | k in keys && !IsCommonField(k) :: strings[k]
  }

  lemma {:induction false} StringMembersRead(message: Message, keys: set<Text>, strings: map<Text, Text>)
    requires keys <= strings.Keys
    ensures MembersOk(StringMembers(SortedKeys(keys), strings))
    ensures ReadMembers(message, StringMembers(SortedKeys(keys), strings))
         == message.(strings := message.strings + Others(keys, strings))
    decreases |keys|
  {
    hide ReadMember, MemberOk;
    StringMembersPrint(SortedKeys(keys), strings);
    if keys == {} {
      assert message.strings + Others(keys, strings) == message.strings;
    } else {
      hide Others, Message.SetString, StringMember;
      var least, rest := Least(keys), keys - {Least(keys)};
      assert SortedKeys(keys)[1..] == SortedKeys(rest);
      OthersStep(message.strings, keys, strings, least);
      if IsCommonField(least) {
        StringMembersRead(message, rest, strings);
        assert [] + StringMembers(SortedKeys(rest), strings) == StringMembers(SortedKeys(rest), strings);
      } else {
        StringMemberReads(message, least, strings[least]);
        OtherString(message, least, strings[least]);
        StringMembersRead(message.SetString(least, strings[least]), rest, strings);
        assert StringMembers(SortedKeys(keys), strings)[1..] == StringMembers(SortedKeys(rest), strings);
      }
    }
  }

  lemma OtherString(message: Message, key: Text, value: Text)
    requires !IsCommonField(key)
    ensures message.SetString(key, value) == message.(strings := message.strings[key := value])
  {
  }

  lemma OthersStep(stored: map<Text, Text>, keys: set<Text>, strings: map<Text, Text>, key: Text)
    requires keys <= strings.Keys && key in keys
    ensures IsCommonField(key) ==> Others(keys, strings) == Others(keys - {key}, strings)
    ensures !IsCommonField(key) ==>
            stored[key := strings[key]] + Others(keys - {key}, strings) == stored + Others(keys, strings)
  {
  }

  lemma NumbersStep(stored: map<Text, nat>, keys: set<Text>, numbers: map<Text, nat>, key: Text)
    requires keys <= numbers.Keys && key in keys
    ensures stored[key := numbers[key]] + Chosen(keys - {key}, numbers) == stored + Chosen(keys, numbers)
  {
  }

  function Chosen(keys: set<Text>, numbers: map<Text, nat>): map<Text, nat>
    requires keys <= numbers.Keys
  {
    map k | k in keys :: numbers[k]
  }

  lemma {:induction false} NumberMembersRead(message: Message, keys: set<Text>, numbers: map<Text, nat>)
    requires keys <= numbers.Keys && forall k :: k in keys ==> numbers[k] <= UINT64_MAX
    ensures MembersOk(NumberMembers(SortedKeys(keys), numbers))
    ensures ReadMembers(message, NumberMembers(SortedKeys(keys), numbers))
         == message.(numbers := message.numbers + Chosen(keys, numbers))
    decreases |keys|
  {
    hide ReadMember, MemberOk, NumberMember;
    NumberMembersPrint(SortedKeys(keys), numbers);
    if keys == {} {
      assert message.numbers + Chosen(keys, numbers) == message.numbers;
    } else {
      hide Chosen;
      var least, rest := Least(keys), keys - {Least(keys)};
      assert SortedKeys(keys)[1..] == SortedKeys(rest);
      NumberMemberReads(message, least, numbers[least]);
      NumbersStep(message.numbers, keys, numbers, least);
      NumberMembersRead(message.SetNumber(least, numbers[least]), rest, numbers);
      assert NumberMembers(SortedKeys(keys), numbers)[1..] == NumberMembers(SortedKeys(rest), numbers);
    }
  }

  /** A message as it comes back: its string map now also holds the three common fields. */
  function Returned(m: Message): Message {
    m.(strings := map[TYPE := MessageTypeToString(m.kind), SESSION := m.session, CLIENT := m.client]
                  + Others(m.strings.Keys, m.strings))
  }

  lemma CommonMembersRead(m: Message)
    requires m.kind != Unknown
    ensures MembersOk(CommonMembers(m))
    ensures ReadMembers(EMPTY_MESSAGE, CommonMembers(m))
         == Message(m.kind, m.session, m.client,
                    map[TYPE := MessageTypeToString(m.kind), SESSION := m.session, CLIENT := m.client], map[])
  {
    hide MemberOk, ReadMember, StringMember, MessageTypeToString, MessageTypeFromString;
    KeysDiffer();
    CommonMembersPrint(m);
    TypeNamesRoundTrip(m.kind, []);
    var kind := StringMember(TYPE, MessageTypeToString(m.kind));
    var session, client := StringMember(SESSION, m.session), StringMember(CLIENT, m.client);
    var first := EMPTY_MESSAGE.SetString(TYPE, MessageTypeToString(m.kind));
    var second := first.SetString(SESSION, m.session);
    StringMemberReads(EMPTY_MESSAGE, TYPE, MessageTypeToString(m.kind));
    StringMemberReads(first, SESSION, m.session);
    StringMemberReads(second, CLIENT, m.client);
    assert [kind, session, client][1..] == [session, client] && [session, client][1..] == [client] && [client][1..] == [];
    assert ReadMembers(EMPTY_MESSAGE, [kind, session, client]) == ReadMembers(second, [client]);
  }

  lemma TreeReads(m: Message)
    requires SixtyFourBit(m) && m.kind != Unknown
    ensures ObjectOk(Tree(m)) && Reading(Tree(m)) == Returned(m)
  {
    hide MemberOk, ReadMember, ReadMembers, StringMembers, NumberMembers, CommonMembers, SortedKeys,
         MessageTypeToString, Others, Chosen;
    PrintedIsTree(m);
    var common := Message(m.kind, m.session, m.client,
                          map[TYPE := MessageTypeToString(m.kind), SESSION := m.session, CLIENT := m.client], map[]);
    CommonMembersRead(m);
    StringMembersRead(common, m.strings.Keys, m.strings);
    NumbersInRange(m);
    var named := common.(strings := Returned(m).strings);
    NumberMembersRead(named, m.numbers.Keys, m.numbers);
    AllNumbersChosen(m);
    var strings := StringMembers(SortedKeys(m.strings.Keys), m.strings);
    var numbers := NumberMembers(SortedKeys(m.numbers.Keys), m.numbers);
    ReadMembersAppend(EMPTY_MESSAGE, CommonMembers(m), strings);
    ReadMembersAppend(EMPTY_MESSAGE, CommonMembers(m) + strings, numbers);
  }

  lemma AllNumbersChosen(m: Message)
    ensures map[] + Chosen(m.numbers.Keys, m.numbers) == m.numbers
  {
  }

  /** Printing then parsing gives back the type, the session, the client, all numbers and all other
      string fields, for every string content and every 64-bit number. */
  lemma PrintThenParse(m: Message)
    requires Serialize(m).Ok? && SixtyFourBit(m)
    ensures Deserialize(Serialize(m).value) == Ok(Returned(m))
    ensures var back := Returned(m);
            && back.kind == m.kind && back.session == m.session && back.client == m.client && back.numbers == m.numbers
            && (forall k :: !IsCommonField(k) ==> back.GetString(k) == m.GetString(k))
  {
    hide Printed, Parse, Reading, MessageTypeToString, Others, ObjectOk, ObjectText, Tree, Returned;
    PrintedIsTree(m);
    TreeReads(m);
    GrammarIsAccepted(Tree(m));
    ReturnedFields(m);
  }

  lemma ReturnedFields(m: Message)
    ensures var back := Returned(m);
            && back.kind == m.kind && back.session == m.session && back.client == m.client && back.numbers == m.numbers
            && (forall k :: !IsCommonField(k) ==> back.GetString(k) == m.GetString(k))
  {
    hide MessageTypeToString;
  }

  lemma {:induction false} LastNumberInRange(members: seq<Member>, key: Text)
    requires MembersOk(members)
    ensures LastNumber(members, key).Some? ==> LastNumber(members, key).value <= UINT64_MAX
    decreases |members|
  {
    if members != [] {
      assert MemberOk(members[|members| - 1]);
      LastNumberInRange(members[..|members| - 1], key);
    }
  }

  /** A parsed message is already in the form in which printing and parsing return it. */
  lemma ParsedIsReturned(text: Text, m: Message)
    requires Parse(text) == Ok(m)
    ensures Returned(m) == m && SixtyFourBit(m)
  {
    hide Parse, ReadMembers, ObjectText, LastString, LastNumber, MessageTypeFromString, MessageTypeToString;
    var o := AcceptedIsGrammar(text);
    GrammarIsAccepted(o);
    LastWins(o.members);
    forall k | k in m.numbers ensures m.numbers[k] <= UINT64_MAX {
      LastNumberInRange(o.members, k);
      assert m.GetNumber(k) == LastNumber(o.members, k);
    }
    NoNameIsUnknown();
    assert m.GetString(TYPE) == LastString(o.members, TYPE);
    assert m.GetString(SESSION) == LastString(o.members, SESSION);
    assert m.GetString(CLIENT) == LastString(o.members, CLIENT);
    TypeNamesRoundTrip(m.kind, OrEmpty(LastString(o.members, TYPE)));
    assert Returned(m).strings == m.strings;
  }

  /** Parsing, printing and parsing again yields the message of the first parse whenever the reprint fits
      the frame limit. */
  lemma ParsePrintParse(text: Text, m: Message)
    requires Deserialize(text) == Ok(m) && Serialize(m).Ok?
    ensures Deserialize(Serialize(m).value) == Ok(m)
  {
    hide Printed, Parse;
    ParsedIsReturned(text, m);
    PrintThenParse(m);
  }
}
