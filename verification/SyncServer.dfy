/** The host-side sequencer (client/sync_server.cpp): it owns the document, numbers every accepted
    edit, announces it with an APPLY message and serves the whole document in chunks. */
module Server {
  import opened WideText
  import opened DocumentModel
  import opened Protocol
  import opened JsonPrinter
  import opened Chunks

  const MAX_INSERT_CHARS: nat := 32 * 1024

  datatype Verdict = Accepted(document: Text, apply: Message) | Refused(reason: Text)

  function StatusText(status: ApplyStatus): Text {
    match status
    case Applied => []
    case InvalidOperation => REASON_INVALID_OPERATION
    case InvalidPosition => REASON_INVALID_POSITION
    case InsertTooLarge => REASON_INSERT_TOO_LARGE
    case DocumentTooLarge => REASON_DOCUMENT_TOO_LARGE
  }

  /** An INSERT or DELETE request for one operation. */
  function Request(session: Text, client: Text, baseRevision: nat, op: Operation): Message {
    match op
    case InsertAt(pos, text) =>
      Message(MessageType.Insert, session, client, map[TEXT := text], map[BASE_REV := baseRevision, POS := pos])
    case DeleteAt(pos, len) =>
      Message(MessageType.Delete, session, client, map[], map[BASE_REV := baseRevision, POS := pos, LEN := len])
  }

  /** The APPLY message that announces an accepted operation under its revision. */
  function ApplyFor(session: Text, client: Text, revision: nat, op: Operation): Message {
    match op
    case InsertAt(pos, text) =>
      Message(MessageType.Apply, session, client, map[OP := NAME_INSERT, TEXT := text], map[REV := revision, POS := pos])
    case DeleteAt(pos, len) =>
      Message(MessageType.Apply, session, client, map[OP := NAME_DELETE], map[REV := revision, POS := pos, LEN := len])
  }

  /** The operation an edit request asks for; None when a field is missing or it is no edit. */
  function RequestedOperation(m: Message): Option<Operation> {
    if POS !in m.numbers then None
    else if m.kind == MessageType.Insert && TEXT in m.strings then Some(InsertAt(m.numbers[POS], m.strings[TEXT]))
    else if m.kind == MessageType.Delete && LEN in m.numbers then Some(DeleteAt(m.numbers[POS], m.numbers[LEN]))
    else None
  }

  /** The operation an APPLY message announces. */
  function AnnouncedOperation(m: Message): Option<Operation> {
    if POS !in m.numbers || OP !in m.strings then None
    else if m.strings[OP] == NAME_INSERT && TEXT in m.strings then Some(InsertAt(m.numbers[POS], m.strings[TEXT]))
    else if m.strings[OP] == NAME_DELETE && LEN in m.numbers then Some(DeleteAt(m.numbers[POS], m.numbers[LEN]))
    else None
  }

  /** An insert is also bounded by the size of one request. */
  function RequestStatus(document: Text, op: Operation): ApplyStatus {
    if op.pos > |document| then InvalidPosition
    else if op.InsertAt? && |op.text| > MAX_INSERT_CHARS then InsertTooLarge
    else Status(document, op)
  }

  /** What the server makes of an edit request against its document and revision. */
  function Decide(session: Text, document: Text, revision: nat, m: Message): Verdict {
    if m.session != session then Refused(REASON_INVALID_SESSION)
    else if m.client != CLIENT_A && m.client != CLIENT_B then Refused(REASON_INVALID_CLIENT)
    else if POS !in m.numbers then Refused(REASON_MISSING_POSITION)
    else if m.numbers[POS] > |document| then Refused(REASON_INVALID_POSITION)
    else
      var op := RequestedOperation(m);
      if op.None? then Refused(REASON_INVALID_OPERATION)
      else
        var status := RequestStatus(document, op.value);
        if status.Applied? then
          Accepted(Edit(document, op.value), ApplyFor(session, m.client, revision + 1, op.value))
        else
          Refused(StatusText(status))
  }

  /** The chunked answer to a full-sync request. */
  function SyncResponses(session: Text, document: Text, revision: nat): seq<Message> {
    var chunks := Cuts(document, SYNC_CHUNK_CHARS);
    seq(|chunks|, i requires 0 <= i < |chunks| => ChunkMessage(session, revision, i, |chunks|, chunks[i]))
  }

  function ChunkMessage(session: Text, revision: nat, index: nat, count: nat, text: Text): Message {
    Message(MessageType.SyncResponse, session, SERVER, map[TEXT := text],
            map[REV := revision, CHUNK_INDEX := index, CHUNK_COUNT := count])
  }

  function ErrorMessage(session: Text, reason: Text): Message {
    Message(MessageType.Error, session, SERVER, map[REASON := reason], map[])
  }

  function PongMessage(session: Text, ping: Message): Message {
    Message(MessageType.Pong, session, SERVER, map[], if TIME in ping.numbers then map[TIME := ping.numbers[TIME]] else map[])
  }

  /** What one send puts on the link. */
  ghost function Sent(m: Message): seq<Message> {
    if Fits(m) then [m] else []
  }

  /** Messages are sent until the first one that does not fit a frame. */
  ghost function Fitting(messages: seq<Message>): seq<Message> {
    if messages == [] || !Fits(messages[0]) then [] else [messages[0]] + Fitting(messages[1..])
  }

  datatype ServerState = ServerState(session: Text, document: Text, revision: nat)

  /** Outcome of one message from the joined peer: the new state, the replies, the events for the
      host's own window, and whether the connection goes on. */
  datatype Served = Served(state: ServerState, replies: seq<Message>, events: seq<Message>, alive: bool)

  ghost function Serve(s: ServerState, peerSession: Text, m: Message): Served {
    if m.session != s.session then
      Served(s, Sent(ErrorMessage(s.session, REASON_INVALID_SESSION)), [], true)
    else if m.kind == MessageType.Ping then
      var pong := PongMessage(if peerSession == [] then s.session else peerSession, m);
      Served(s, Sent(pong), [], Fits(pong))
    else if m.kind == MessageType.Insert || m.kind == MessageType.Delete then
      ServeEdit(s, m)
    else if m.kind == MessageType.SyncRequest then
      var responses := SyncResponses(s.session, s.document, s.revision);
      Served(s, Fitting(responses), [], Fitting(responses) == responses)
    else
      Served(s, Sent(ErrorMessage(s.session, REASON_UNSUPPORTED_MESSAGE)), [], true)
  }

  ghost function ServeEdit(s: ServerState, m: Message): Served {
    if m.client != CLIENT_B then
      Served(s, Sent(ErrorMessage(s.session, REASON_INVALID_CLIENT)), [], true)
    else
      var verdict := Decide(s.session, s.document, s.revision, m);
      match verdict
      case Refused(reason) => Served(s, Sent(ErrorMessage(s.session, reason)), [], true)
      case Accepted(document, apply) =>
        Served(s.(document := document, revision := s.revision + 1), Sent(apply), [apply], Fits(apply))
  }

  /** The server object. `peerLink` is what has been sent to the joined peer, `eventQueue` what waits
      for the host's window. */
  class SyncServer {
    var session: Text
    const document: TextBuffer
    var revision: nat
    var peerConnected: bool
    var peerLink: seq<Message>
    var eventQueue: seq<Message>

    ghost function State(): ServerState
      reads this, document
    {
      ServerState(session, document.content, revision)
    }

    constructor ()
      ensures document.content == [] && revision == 0 && !peerConnected && peerLink == [] && eventQueue == []
      ensures fresh(document)
    {
      session := [];
      document := new TextBuffer([]);
      revision := 0;
      peerConnected := false;
      peerLink := [];
      eventQueue := [];
    }

    method SetDocument(content: Text, revision: nat)
      modifies this`revision, document
      ensures State() == old(State()).(document := content, revision := revision)
    {
      document.content := content;
      this.revision := revision;
    }

    method Send(m: Message) returns (sent: bool)
      modifies this`peerLink
      ensures sent == Fits(m)
      ensures peerLink == old(peerLink) + Sent(m)
    {
      var result := SerializeMessage(m);
      sent := result.Ok?;
      if sent {
        peerLink := peerLink + [m];
      }
    }

    method ApplyMessageToDocument(m: Message) returns (verdict: Verdict)
      modifies this`revision, document
      ensures verdict == Decide(session, old(document.content), old(revision), m)
      ensures verdict.Refused? ==> State() == old(State())
      ensures verdict.Accepted? ==>
              State() == old(State()).(document := verdict.document, revision := old(revision) + 1)
    {
      if m.session != session {
        return Refused(REASON_INVALID_SESSION);
      }
      if m.client != CLIENT_A && m.client != CLIENT_B {
        return Refused(REASON_INVALID_CLIENT);
      }
      if POS !in m.numbers {
        return Refused(REASON_MISSING_POSITION);
      }
      var position := m.numbers[POS];
      var status := InvalidOperation;
      if position > |document.content| {
        status := InvalidPosition;
      } else if m.kind == MessageType.Insert {
        if TEXT !in m.strings {
          status := InvalidOperation;
        } else if |m.strings[TEXT]| > MAX_INSERT_CHARS {
          status := InsertTooLarge;
        } else {
          status := ApplyInsertToContent(document, position, m.strings[TEXT]);
        }
      } else if m.kind == MessageType.Delete {
        if LEN !in m.numbers {
          status := InvalidOperation;
        } else {
          status := ApplyDeleteToContent(document, position, m.numbers[LEN]);
        }
      }
      if status != Applied {
        return Refused(StatusText(status));
      }
      revision := revision + 1;
      var op := RequestedOperation(m);
      return Accepted(document.content, ApplyFor(session, m.client, revision, op.value));
    }

    /** An edit typed on the host. The announcement goes to the joined peer, if any. */
    method ApplyLocalOperation(op: Operation, clientId: Text) returns (verdict: Verdict)
      modifies this`revision, this`peerLink, document
      ensures var client := if clientId == [] then CLIENT_A else clientId;
              verdict == Decide(session, old(document.content), old(revision),
                                Request(session, client, old(revision), op))
      ensures verdict.Refused? ==> State() == old(State()) && peerLink == old(peerLink)
      ensures verdict.Accepted? ==>
              && State() == old(State()).(document := verdict.document, revision := old(revision) + 1)
              && peerLink == old(peerLink) + if peerConnected then Sent(verdict.apply) else []
    {
      var client := if clientId == [] then CLIENT_A else clientId;
      verdict := ApplyMessageToDocument(Request(session, client, revision, op));
      if verdict.Accepted? && peerConnected {
        var _ := Send(verdict.apply);
      }
    }

    method SendSyncResponse() returns (alive: bool)
      modifies this`peerLink
      ensures var responses := SyncResponses(session, document.content, revision);
              && peerLink == old(peerLink) + Fitting(responses)
              && alive == (Fitting(responses) == responses)
    {
      hide Fits, Fitting, SyncResponses, ChunkMessage, Cuts;
      var text, atRevision := document.content, revision;
      var ceiling := (|text| + SYNC_CHUNK_CHARS - 1) / SYNC_CHUNK_CHARS;
      var chunkCount := if ceiling < 1 then 1 else ceiling;
      ghost var responses := SyncResponses(session, text, atRevision);
      ResponseCount(session, text, atRevision);
      var index := 0;
      while index < chunkCount
        invariant 0 <= index <= chunkCount == |responses|
        invariant forall i :: 0 <= i < index ==> Fits(responses[i])
        invariant peerLink == old(peerLink) + responses[..index]
      {
        var offset := index * SYNC_CHUNK_CHARS;
        ResponseAt(session, text, atRevision, index, offset);
        var length := Min(SYNC_CHUNK_CHARS, |text| - offset);
        var response := ChunkMessage(session, atRevision, index, chunkCount, text[offset..offset + length]);
        var sent := Send(response);
        if !sent {
          FittingPrefix(responses, index);
          return false;
        }
        index := index + 1;
      }
      FittingPrefix(responses, index);
      return true;
    }

    method HandleEditMessage(m: Message) returns (alive: bool)
      modifies this`revision, this`peerLink, this`eventQueue, document
      ensures var served := ServeEdit(old(State()), m);
              && State() == served.state && alive == served.alive
              && peerLink == old(peerLink) + served.replies && eventQueue == old(eventQueue) + served.events
    {
      hide Fits;
      if m.client != CLIENT_B {
        var _ := Send(ErrorMessage(session, REASON_INVALID_CLIENT));
        return true;
      }
      var verdict := ApplyMessageToDocument(m);
      if verdict.Refused? {
        var _ := Send(ErrorMessage(session, verdict.reason));
        return true;
      }
      eventQueue := eventQueue + [verdict.apply];
      alive := Send(verdict.apply);
    }

    /** One turn of the loop that serves a joined peer. */
    method HandleMessage(peerSession: Text, m: Message) returns (alive: bool)
      modifies this`revision, this`peerLink, this`eventQueue, document
      ensures var served := Serve(old(State()), peerSession, m);
              && State() == served.state && alive == served.alive
              && peerLink == old(peerLink) + served.replies && eventQueue == old(eventQueue) + served.events
    {
      hide Fits;
      if m.session != session {
        var _ := Send(ErrorMessage(session, REASON_INVALID_SESSION));
        return true;
      }
      if m.kind == MessageType.Ping {
        alive := Send(PongMessage(if peerSession == [] then session else peerSession, m));
      } else if m.kind == MessageType.Insert || m.kind == MessageType.Delete {
        alive := HandleEditMessage(m);
      } else if m.kind == MessageType.SyncRequest {
        alive := SendSyncResponse();
      } else {
        var _ := Send(ErrorMessage(session, REASON_UNSUPPORTED_MESSAGE));
        return true;
      }
    }
  }

  lemma FittingStep(messages: seq<Message>)
    requires messages != []
    ensures Fitting(messages) == Sent(messages[0]) + if Fits(messages[0]) then Fitting(messages[1..]) else []
    ensures Fitting(messages) == messages <==> Fits(messages[0]) && Fitting(messages[1..]) == messages[1..]
  {
    assert messages == [messages[0]] + messages[1..];
    assert [messages[0]][1..] == [];
  }

  lemma ResponseCount(session: Text, text: Text, revision: nat)
    ensures |SyncResponses(session, text, revision)| == ChunkCount(|text|, SYNC_CHUNK_CHARS)
  {
    hide Cuts, ChunkCount;
    CutsCount(text, SYNC_CHUNK_CHARS);
  }

  lemma ResponseAt(session: Text, text: Text, revision: nat, index: nat, offset: nat)
    requires index < |SyncResponses(session, text, revision)| && offset == index * SYNC_CHUNK_CHARS
    ensures offset <= |text|
    ensures var responses := SyncResponses(session, text, revision);
            responses[index] == ChunkMessage(session, revision, index, |responses|,
                                             text[offset..offset + Min(SYNC_CHUNK_CHARS, |text| - offset)])
  {
    hide Cuts, ChunkMessage;
    CutsAtOffset(text, SYNC_CHUNK_CHARS, index, offset);
  }

  lemma {:induction false} FittingPrefix(messages: seq<Message>, index: nat)
    requires index <= |messages| && forall i :: 0 <= i < index ==> Fits(messages[i])
    requires index == |messages| || !Fits(messages[index])
    ensures Fitting(messages) == messages[..index]
    ensures Fitting(messages) == messages <==> index == |messages|
    decreases index
  {
    hide Fits;
    if index > 0 {
      FittingPrefix(messages[1..], index - 1);
      assert messages[..index] == [messages[0]] + messages[1..][..index - 1];
    }
  }

  /** An APPLY message announces the very operation and revision it was made for. */
  lemma ApplyForReadsBack(session: Text, client: Text, revision: nat, op: Operation)
    ensures var m := ApplyFor(session, client, revision, op);
            && AnnouncedOperation(m) == Some(op)
            && m.GetNumber(REV) == Some(revision) && m.GetNumber(POS) == Some(op.pos)
            && m.GetString(OP).Some?
            && m.client == client && m.kind == MessageType.Apply && m.session == session
  {
    KeysDiffer();
  }

  lemma RequestReadsBack(session: Text, client: Text, revision: nat, op: Operation)
    ensures var m := Request(session, client, revision, op);
            && RequestedOperation(m) == Some(op) && POS in m.numbers && m.numbers[POS] == op.pos
            && m.client == client && m.session == session
            && m.kind == if op.InsertAt? then MessageType.Insert else MessageType.Delete
  {
    KeysDiffer();
  }

  lemma ChunkMessageReadsBack(session: Text, revision: nat, index: nat, count: nat, text: Text)
    ensures var m := ChunkMessage(session, revision, index, count, text);
            && m.GetNumber(REV) == Some(revision) && m.GetString(TEXT) == Some(text)
            && m.GetNumber(CHUNK_INDEX) == Some(index) && m.GetNumber(CHUNK_COUNT) == Some(count)
            && m.kind == MessageType.SyncResponse
  {
    KeysDiffer();
  }
}
