/** What the loop that serves a joined peer answers (client/sync_server.cpp HandleClient): pings, errors and their
    reasons. */
module ServingLoop {
  import opened WideText
  import opened DocumentModel
  import opened Protocol
  import opened JsonPrinter
  import opened KeyOrder
  import opened Chunks
  import opened Server
  import opened Replica
  import TurnTaking
  import opened FrameSizes

  // ---- Pings ----

  /** A ping of the session has no other effect than its answer: one pong from the server in the peer's session,
      with the ping's own time or none. The connection goes on exactly when the pong could be sent. */
  lemma PingIsAnswered(s: ServerState, peerSession: Text, m: Message)
    requires m.kind == MessageType.Ping && m.session == s.session
    ensures var served := Serve(s, peerSession, m);
            && served.state == s && served.events == []
            && (if served.alive then
                  && |served.replies| == 1
                  && var pong := served.replies[0];
                     && pong.kind == MessageType.Pong && pong.client == SERVER
                     && pong.session == (if peerSession != [] then peerSession else s.session)
                     && pong.GetNumber(TIME) == m.GetNumber(TIME)
                     && pong.strings == map[] && pong.numbers.Keys <= {TIME}
                else served.replies == [])
  {
    hide Fits;
  }

  /** The pong of a session code and a 64-bit time always fits a frame, so such a ping never ends the
      connection. */
  lemma PingKeepsConnection(s: ServerState, peerSession: Text, m: Message)
    requires m.kind == MessageType.Ping && m.session == s.session
    requires SessionCode(if peerSession != [] then peerSession else s.session)
    requires TIME in m.numbers ==> m.numbers[TIME] <= UINT64_MAX
    ensures Serve(s, peerSession, m).alive
  {
    hide StringPart, NumberPart, Takes, Printed, Fits, Plain;
    var session := if peerSession != [] then peerSession else s.session;
    var pong := PongMessage(session, m);
    SessionTakes(session);
    KeysArePlain();
    NoStringPart(pong);
    SubsetSize(pong.numbers.Keys, {TIME});
    NumbersTake(pong);
    MessageTakes(pong, 0, 171);
    TakesFits(pong, 316);
  }

  // ---- Full syncs ----

  /** A request for a full sync changes nothing. It is answered from the server, in order, with the chunks of the
      document at its revision, each with its place and their number; the connection goes on exactly when all
      of them could be sent, and then they make up the document. */
  lemma SyncIsAnswered(s: ServerState, peerSession: Text, m: Message)
    requires m.kind == MessageType.SyncRequest && m.session == s.session
    ensures var served, count := Serve(s, peerSession, m), ChunkCount(|s.document|, 8192);
            && served.state == s && served.events == []
            && |served.replies| <= count && (served.alive <==> |served.replies| == count)
            && (forall i :: 0 <= i < |served.replies| ==> IsPiece(s, served.replies[i], i, count))
            && (served.alive ==> Concat(Cuts(s.document, 8192)) == s.document)
  {
    hide Fits, Fitting, SyncResponses, Cuts, ChunkCount;
    var responses := SyncResponses(s.session, s.document, s.revision);
    ResponseCount(s.session, s.document, s.revision);
    var n := FirstUnfit(responses);
    FittingPrefix(responses, n);
    CutsConcat(s.document, SYNC_CHUNK_CHARS);
    CutsCount(s.document, SYNC_CHUNK_CHARS);
    forall i | 0 <= i < n
      ensures IsPiece(s, responses[i], i, |responses|)
    {
      ResponseIsPiece(s, i);
    }
  }

  ghost predicate IsPiece(s: ServerState, m: Message, i: nat, count: nat) {
    && m.kind == MessageType.SyncResponse && m.session == s.session && m.client == SERVER
    && m.GetNumber(REV) == Some(s.revision) && m.GetNumber(CHUNK_INDEX) == Some(i) && m.GetNumber(CHUNK_COUNT) == Some(count)
    && i < |Cuts(s.document, 8192)| && m.GetString(TEXT) == Some(Cuts(s.document, 8192)[i])
  }

  lemma {:induction false} FirstUnfit(messages: seq<Message>) returns (n: nat)
    ensures n <= |messages| && (forall i :: 0 <= i < n ==> Fits(messages[i])) && (n == |messages| || !Fits(messages[n]))
  {
    hide Fits;
    n := 0;
    if messages != [] && Fits(messages[0]) {
      var more := FirstUnfit(messages[1..]);
      n := 1 + more;
      forall i | 0 <= i < n ensures Fits(messages[i]) {
        assert i > 0 ==> messages[i] == messages[1..][i - 1];
      }
    }
  }

  lemma ResponseIsPiece(s: ServerState, i: nat)
    requires i < |SyncResponses(s.session, s.document, s.revision)|
    ensures var responses := SyncResponses(s.session, s.document, s.revision);
            IsPiece(s, responses[i], i, |responses|)
  {
    hide Cuts;
    var cuts := Cuts(s.document, SYNC_CHUNK_CHARS);
    ChunkMessageReadsBack(s.session, s.revision, i, |cuts|, cuts[i]);
  }

  // ---- Errors ----

  /** Nothing changes, and the peer is told why. */
  ghost predicate Complains(served: Served, s: ServerState, reason: Text) {
    && served.state == s && served.events == [] && served.alive
    && |served.replies| == 1
    && var reply := served.replies[0];
       && reply.kind == MessageType.Error && reply.session == s.session && reply.client == SERVER
       && reply.GetString(REASON) == Some(reason)
  }

  lemma ErrorFits(session: Text, reason: Text)
    requires SessionCode(session) && Plain(reason) && |reason| <= 19
    ensures Fits(ErrorMessage(session, reason))
  {
    hide StringPart, NumberPart, Takes, Printed, Fits, Plain;
    var m := ErrorMessage(session, reason);
    SessionTakes(session);
    KeysArePlain();
    ReasonPartTakes(m, reason);
    NumbersTake(m);
    MessageTakes(m, 82, 171);
    TakesFits(m, 398);
  }

  lemma ReasonPartTakes(m: Message, reason: Text)
    requires m.strings == map[REASON := reason] && Plain(reason) && |reason| <= 19
    ensures Takes(StringPart(m), 82)
  {
    hide StringFields, SortedKeys, StringField;
    KeysArePlain();
    PlainTakes(REASON);
    PlainTakes(reason);
    StringFieldTakes(REASON, reason);
    hide Takes, Plain;
    assert m.strings.Keys == {REASON};
    TakesMore(StringField(REASON, reason), 3 * |REASON| + 3 * |reason| + 5, 80);
    StringFieldsTake(m.strings.Keys, m.strings, 80);
    TakesMore(StringPart(m), 81, 82);
  }

  lemma ReasonsArePlain()
    ensures Plain(REASON_INVALID_SESSION) && Plain(REASON_INVALID_CLIENT) && Plain(REASON_MISSING_POSITION)
    ensures Plain(REASON_INVALID_OPERATION) && Plain(REASON_INVALID_POSITION) && Plain(REASON_INSERT_TOO_LARGE)
    ensures Plain(REASON_DOCUMENT_TOO_LARGE) && Plain(REASON_UNSUPPORTED_MESSAGE)
  {
  }

  lemma ReasonsFit(session: Text)
    requires SessionCode(session)
    ensures Fits(ErrorMessage(session, REASON_INVALID_SESSION)) && Fits(ErrorMessage(session, REASON_INVALID_CLIENT))
    ensures Fits(ErrorMessage(session, REASON_MISSING_POSITION)) && Fits(ErrorMessage(session, REASON_INVALID_OPERATION))
    ensures Fits(ErrorMessage(session, REASON_INVALID_POSITION)) && Fits(ErrorMessage(session, REASON_INSERT_TOO_LARGE))
    ensures Fits(ErrorMessage(session, REASON_DOCUMENT_TOO_LARGE)) && Fits(ErrorMessage(session, REASON_UNSUPPORTED_MESSAGE))
  {
    hide Fits, SessionCode, Plain;
    ReasonsArePlain();
    ErrorFits(session, REASON_INVALID_SESSION);
    ErrorFits(session, REASON_INVALID_CLIENT);
    ErrorFits(session, REASON_MISSING_POSITION);
    ErrorFits(session, REASON_INVALID_OPERATION);
    ErrorFits(session, REASON_INVALID_POSITION);
    ErrorFits(session, REASON_INSERT_TOO_LARGE);
    ErrorFits(session, REASON_DOCUMENT_TOO_LARGE);
    ErrorFits(session, REASON_UNSUPPORTED_MESSAGE);
  }

  /** A message that is none of the peer's is answered with an error, whatever it asks for. */
  lemma StrangeMessage(s: ServerState, peerSession: Text, m: Message)
    requires SessionCode(s.session)
    ensures var served := Serve(s, peerSession, m);
            && (m.session != s.session ==> Complains(served, s, REASON_INVALID_SESSION))
            && (m.session == s.session ==>
                  && (m.kind == MessageType.Insert || m.kind == MessageType.Delete ==>
                        m.client != CLIENT_B ==> Complains(served, s, REASON_INVALID_CLIENT))
                  && (m.kind !in {MessageType.Ping, MessageType.Insert, MessageType.Delete, MessageType.SyncRequest} ==>
                        Complains(served, s, REASON_UNSUPPORTED_MESSAGE)))
  {
    hide Fits, SessionCode, Fitting;
    ReasonsFit(s.session);
  }

  /** An edit request of either side is refused for a wrong session before it is refused for a wrong author,
      and for both before anything else. */
  lemma WrongSender(session: Text, document: Text, revision: nat, m: Message)
    ensures m.session != session ==> Decide(session, document, revision, m) == Refused(REASON_INVALID_SESSION)
    ensures m.session == session && m.client != CLIENT_A && m.client != CLIENT_B ==>
              Decide(session, document, revision, m) == Refused(REASON_INVALID_CLIENT)
  {
  }

  /** The peer's insert: the first of these faults it has is the reason it is refused for, and an insert without
      any of them is accepted. */
  lemma InsertVerdict(s: ServerState, peerSession: Text, m: Message)
    requires SessionCode(s.session) && m.session == s.session && m.client == CLIENT_B && m.kind == MessageType.Insert
    ensures var served, size := Serve(s, peerSession, m), |s.document|;
            if POS !in m.numbers then Complains(served, s, REASON_MISSING_POSITION)
            else if m.numbers[POS] > size then Complains(served, s, REASON_INVALID_POSITION)
            else if TEXT !in m.strings || m.strings[TEXT] == [] then Complains(served, s, REASON_INVALID_OPERATION)
            else if |m.strings[TEXT]| > 32768 then Complains(served, s, REASON_INSERT_TOO_LARGE)
            else if size + |m.strings[TEXT]| > 5242880 then Complains(served, s, REASON_DOCUMENT_TOO_LARGE)
            else Accepts(served, s, m, s.document[..m.numbers[POS]] + m.strings[TEXT] + s.document[m.numbers[POS]..])
  {
    hide Fits, SessionCode;
    KeysDiffer();
    ReasonsFit(s.session);
  }

  /** The peer's deletion, likewise. */
  lemma DeleteVerdict(s: ServerState, peerSession: Text, m: Message)
    requires SessionCode(s.session) && m.session == s.session && m.client == CLIENT_B && m.kind == MessageType.Delete
    ensures var served, size := Serve(s, peerSession, m), |s.document|;
            if POS !in m.numbers then Complains(served, s, REASON_MISSING_POSITION)
            else if m.numbers[POS] > size then Complains(served, s, REASON_INVALID_POSITION)
            else if LEN !in m.numbers || m.numbers[LEN] == 0 then Complains(served, s, REASON_INVALID_OPERATION)
            else if m.numbers[POS] + m.numbers[LEN] > size then Complains(served, s, REASON_INVALID_POSITION)
            else Accepts(served, s, m, s.document[..m.numbers[POS]] + s.document[m.numbers[POS] + m.numbers[LEN]..])
  {
    hide Fits, SessionCode;
    KeysDiffer();
    ReasonsFit(s.session);
  }

  /** The document is the given one at the next revision. The host's window and the peer are told the same: this
      edit, by its author, under that revision. The connection goes on exactly when the peer could be told. */
  ghost predicate Accepts(served: Served, s: ServerState, m: Message, document: Text) {
    && served.state == s.(document := document, revision := s.revision + 1)
    && |served.events| == 1 && served.replies == (if served.alive then served.events else [])
    && var apply := served.events[0];
       && apply.kind == MessageType.Apply && apply.session == s.session && apply.client == m.client
       && apply.GetNumber(REV) == Some(s.revision + 1) && apply.GetNumber(POS) == m.GetNumber(POS)
       && apply.GetString(OP) == Some(MessageTypeToString(m.kind))
       && (m.kind == MessageType.Insert ==> apply.GetString(TEXT) == m.GetString(TEXT))
       && (m.kind == MessageType.Delete ==> apply.GetNumber(LEN) == m.GetNumber(LEN))
  }

  // ---- Who speaks ----

  /** A client that was given no name yet, or the guest's, is the guest to the server: its edits are made. */
  lemma SpeaksAsGuest(c: SyncClient, s: ServerState, base: nat, op: Operation)
    requires c.session == s.session && (c.assignedClient == [] || c.assignedClient == CLIENT_B)
    requires Status(s.document, op).Applied? && (op.InsertAt? ==> |op.text| <= MAX_INSERT_CHARS)
    ensures var served := Serve(s, [], Request(c.session, c.Id(), base, op));
            && served.state == ServerState(s.session, Edit(s.document, op), s.revision + 1)
            && |served.events| == 1 && served.events[0].client == CLIENT_B
  {
    hide Fits, Status, Edit, Decide;
    TurnTaking.ServerAccepts(s.session, s.document, s.revision, CLIENT_B, base, op);
  }

  /** A host window without a name is the host: its edits are made and announced under the host's name. */
  lemma SpeaksAsHost(r: Replica, s: ServerState, op: Operation)
    requires r.localClient == [] || r.localClient == CLIENT_A
    requires Status(s.document, op).Applied? && (op.InsertAt? ==> |op.text| <= MAX_INSERT_CHARS)
    ensures var turn := HostSendsOne(r, s, op);
            && turn.replica == r.(revision := s.revision + 1)
            && turn.server == ServerState(s.session, Edit(s.document, op), s.revision + 1)
            && |turn.announced| == 1 && turn.announced[0].client == CLIENT_A
  {
    hide Status, Edit, Decide;
    TurnTaking.ServerAccepts(s.session, s.document, s.revision, CLIENT_A, s.revision, op);
  }

  /** A host whose edit is refused shows its server's document again. */
  lemma RefusedHostIsRestored(r: Replica, s: ServerState, op: Operation)
    requires !Status(s.document, op).Applied? || (op.InsertAt? && |op.text| > MAX_INSERT_CHARS)
    ensures var turn := HostSendsOne(r, s, op);
            && turn.replica == r.(text := s.document, revision := s.revision) && turn.server == s && turn.announced == []
  {
    hide Status, Edit;
    RequestReadsBack(s.session, if r.localClient == [] then CLIENT_A else r.localClient, s.revision, op);
    KeysDiffer();
  }
}
