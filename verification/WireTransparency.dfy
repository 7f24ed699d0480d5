/** The wire between the two ends: a message that is printed by one side and parsed by the other does to
    the receiver what the message itself would do. */
module WireTransparency {
  import opened WideText
  import opened Protocol
  import opened JsonPrinter
  import opened JsonParser
  import opened JsonRoundTrip
  import opened DocumentModel
  import opened Server
  import opened Replica

  /** The message as it arrives. */
  ghost function Arrived(m: Message): Message
    requires Serialize(m).Ok? && Deserialize(Serialize(m).value).Ok?
  {
    Deserialize(Serialize(m).value).value
  }

  /** `a` and `b` agree on everything a handler looks at. */
  ghost predicate SameToHandlers(a: Message, b: Message) {
    && a.kind == b.kind && a.session == b.session && a.client == b.client && a.numbers == b.numbers
    && (forall key :: !IsCommonField(key) ==> a.GetString(key) == b.GetString(key))
  }

  lemma SameFields(a: Message, b: Message, key: Text)
    requires SameToHandlers(a, b) && !IsCommonField(key)
    ensures key in a.strings <==> key in b.strings
    ensures key in a.strings ==> a.strings[key] == b.strings[key]
  {
    assert a.GetString(key) == b.GetString(key);
  }

  lemma SameOperations(a: Message, b: Message)
    requires SameToHandlers(a, b)
    ensures RequestedOperation(a) == RequestedOperation(b) && AnnouncedOperation(a) == AnnouncedOperation(b)
  {
    KeysDiffer();
    SameFields(a, b, TEXT);
    SameFields(a, b, OP);
  }

  lemma ArrivesTheSame(m: Message)
    requires Serialize(m).Ok? && SixtyFourBit(m)
    ensures Deserialize(Serialize(m).value).Ok? && SameToHandlers(Arrived(m), m)
  {
    hide Serialize, Deserialize, Returned;
    PrintThenParse(m);
  }

  /** The window reacts to what arrives as it would to what was sent. */
  lemma WindowSeesTheSame(r: Replica, m: Message)
    requires Serialize(m).Ok? && SixtyFourBit(m)
    ensures Deserialize(Serialize(m).value).Ok? && OnEvent(r, Arrived(m)) == OnEvent(r, m)
  {
    hide Serialize, Deserialize, SameToHandlers, AnnouncedOperation, RequestedOperation, Status, Edit, OnChunk, Arrived;
    ArrivesTheSame(m);
    var back := Arrived(m);
    SameOperations(back, m);
    KeysDiffer();
    SameFields(back, m, TEXT);
    SameFields(back, m, OP);
    SameHeader(back, m);
  }

  lemma SameHeader(a: Message, b: Message)
    requires SameToHandlers(a, b)
    ensures a.kind == b.kind && a.session == b.session && a.client == b.client && a.numbers == b.numbers
  {
  }

  /** The server decides on what arrives as it would on what was sent. */
  lemma ServerSeesTheSame(session: Text, document: Text, revision: nat, m: Message)
    requires Serialize(m).Ok? && SixtyFourBit(m)
    ensures Deserialize(Serialize(m).value).Ok?
    ensures Decide(session, document, revision, Arrived(m)) == Decide(session, document, revision, m)
  {
    hide Serialize, Deserialize, SameToHandlers, AnnouncedOperation, RequestedOperation, Status, Edit, Arrived;
    ArrivesTheSame(m);
    var back := Arrived(m);
    SameOperations(back, m);
    KeysDiffer();
    SameFields(back, m, TEXT);
    SameHeader(back, m);
  }
}
