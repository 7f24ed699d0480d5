/** The window's copy of the shared document (client/webview_window.cpp): how it follows numbered
    APPLY messages, puts chunks together, asks for a full sync and sends what is typed. */
module Replica {
  import opened WideText
  import opened DocumentModel
  import opened EditorDiff
  import opened Protocol
  import opened JsonPrinter
  import opened Chunks
  import opened Server

  datatype Role = Offline | Host | Guest

  /** The chunks of a full sync in progress and which of them have arrived; the window keeps the two
      vectors at one length. */
  datatype ReplicaFields = Replica(role: Role, localClient: Text, text: Text, revision: nat,
                                   syncRevision: nat, chunks: seq<Text>, received: seq<bool>)

  type Replica = r: ReplicaFields | |r.chunks| == |r.received| witness Replica(Offline, [], [], 0, 0, [], [])

  /** What a message did to the replica. */
  datatype Reaction = Malformed | Stale | Confirmed | Edited | ResyncNeeded | Collecting | Replaced

  datatype Handled = Handled(replica: Replica, reaction: Reaction)

  function FullSync(r: Replica, text: Text, revision: nat): Replica {
    r.(text := text, revision := revision)
  }

  predicate AllReceived(received: seq<bool>) {
    forall i :: 0 <= i < |received| ==> received[i]
  }

  /** A chunk that does not belong to the collection in progress starts a new one. */
  function StartCollecting(r: Replica, revision: nat, count: nat): (r': Replica)
    ensures |r'.chunks| == count
  {
    if r.syncRevision != revision || |r.chunks| != count then
      r.(syncRevision := revision, chunks := seq(count, _ => []), received := seq(count, _ => false))
    else r
  }

  function OnChunk(r: Replica, revision: nat, index: nat, count: nat, text: Text): Handled
    requires index < count
  {
    if count == 1 then
      Handled(FullSync(r.(chunks := [], received := []), text, revision), Replaced)
    else
      var started := StartCollecting(r, revision, count);
      var filled := started.(chunks := started.chunks[index := text], received := started.received[index := true]);
      if AllReceived(filled.received) then
        Handled(FullSync(filled.(chunks := [], received := []), Concat(filled.chunks), revision), Replaced)
      else Handled(filled, Collecting)
  }

  function OnSyncResponse(r: Replica, m: Message): Handled {
    if TEXT !in m.strings || REV !in m.numbers then Handled(r, Malformed)
    else
      var index := if CHUNK_INDEX in m.numbers then m.numbers[CHUNK_INDEX] else 0;
      var count := if CHUNK_COUNT in m.numbers then m.numbers[CHUNK_COUNT] else 1;
      if count == 0 || index >= count then Handled(r, Malformed)
      else OnChunk(r, m.numbers[REV], index, count, m.strings[TEXT])
  }

  function OnApply(r: Replica, m: Message): Handled {
    if REV !in m.numbers || POS !in m.numbers || OP !in m.strings then Handled(r, Malformed)
    else
      var revision := m.numbers[REV];
      if revision <= r.revision then Handled(r, Stale)
      else if m.client == r.localClient then Handled(r.(revision := revision), Confirmed)
      else if revision != r.revision + 1 then Handled(r, ResyncNeeded)
      else
        var op := AnnouncedOperation(m);
        if op.None? || !Status(r.text, op.value).Applied? then Handled(r, ResyncNeeded)
        else Handled(r.(text := Edit(r.text, op.value), revision := revision), Edited)
  }

  function OnEvent(r: Replica, m: Message): Handled {
    if m.kind == MessageType.Apply then OnApply(r, m)
    else if m.kind == MessageType.SyncResponse then OnSyncResponse(r, m)
    else Handled(r, Stale)
  }

  /** The host repairs itself from its own server; a guest has to ask. */
  function Repaired(h: Handled, document: Text, revision: nat): Replica {
    if h.reaction.ResyncNeeded? && h.replica.role == Host then FullSync(h.replica, document, revision) else h.replica
  }

  function SyncRequestMessage(session: Text, client: Text, revision: nat): Message {
    Message(MessageType.SyncRequest, session, client, map[], map[CURRENT_REV := revision])
  }

  /** What a guest sends after a message: a request when it cannot follow, and nothing otherwise. */
  ghost function Requested(h: Handled, session: Text, client: Text): seq<Message> {
    if h.reaction.ResyncNeeded? && h.replica.role == Guest then
      Sent(SyncRequestMessage(session, client, h.replica.revision))
    else []
  }

  /** Host side of SendLocalOperations: replica, server state and announcements to the peer. */
  datatype HostTurn = HostTurn(replica: Replica, server: ServerState, announced: seq<Message>)

  function HostSendsOne(r: Replica, s: ServerState, op: Operation): HostTurn {
    var client := if r.localClient == [] then CLIENT_A else r.localClient;
    match Decide(s.session, s.document, s.revision, Request(s.session, client, s.revision, op))
    case Refused(_) => HostTurn(FullSync(r, s.document, s.revision), s, [])
    case Accepted(document, apply) =>
      HostTurn(r.(revision := s.revision + 1), ServerState(s.session, document, s.revision + 1), [apply])
  }

  function HostSends(r: Replica, s: ServerState, ops: seq<Operation>): HostTurn
    decreases |ops|
  {
    if ops == [] then HostTurn(r, s, [])
    else
      var first := HostSendsOne(r, s, ops[0]);
      var rest := HostSends(first.replica, first.server, ops[1..]);
      rest.(announced := first.announced + rest.announced)
  }

  /** The whole turn, seen after `announced` has gone out and `ops` are still to be sent. */
  function HostSendsRest(r: Replica, s: ServerState, announced: seq<Message>, ops: seq<Operation>): HostTurn {
    var rest := HostSends(r, s, ops);
    rest.(announced := announced + rest.announced)
  }

  lemma HostSendsRestStep(r: Replica, s: ServerState, announced: seq<Message>, ops: seq<Operation>)
    requires ops != []
    ensures var one := HostSendsOne(r, s, ops[0]);
            HostSendsRest(r, s, announced, ops)
            == HostSendsRest(one.replica, one.server, announced + one.announced, ops[1..])
  {
    hide HostSendsOne;
  }

  lemma HostSendsRestDone(r: Replica, s: ServerState, announced: seq<Message>)
    ensures HostSendsRest(r, s, announced, []) == HostTurn(r, s, announced)
    ensures HostSendsRest(r, s, [], []) == HostTurn(r, s, [])
  {
  }

  /** No edit of a diff is empty, and the client sends no empty one. */
  predicate NonEmpty(op: Operation) {
    match op
    case InsertAt(_, text) => text != []
    case DeleteAt(_, len) => len != 0
  }

  /** What a run of separate sends puts on a link: the messages that fit a frame. */
  ghost function SentAll(messages: seq<Message>): seq<Message> {
    if messages == [] then [] else Sent(messages[0]) + SentAll(messages[1..])
  }

  lemma SentAllOfNothing()
    ensures SentAll([]) == []
  {
  }

  lemma {:induction false} SentAllConcat(first: seq<Message>, second: seq<Message>)
    ensures SentAll(first + second) == SentAll(first) + SentAll(second)
  {
    hide Fits;
    if first == [] {
      assert first + second == second;
    } else {
      assert (first + second)[1..] == first[1..] + second;
      SentAllConcat(first[1..], second);
    }
  }

  /** Guest side of SendLocalOperations: the requests that reach the send queue. */
  ghost function GuestSends(session: Text, client: Text, revision: nat, ops: seq<Operation>): seq<Message> {
    if ops == [] then []
    else (if NonEmpty(ops[0]) then Sent(Request(session, client, revision, ops[0])) else [])
         + GuestSends(session, client, revision, ops[1..])
  }

  lemma GuestSendsStep(session: Text, client: Text, revision: nat, ops: seq<Operation>, i: nat)
    requires i < |ops|
    ensures GuestSends(session, client, revision, ops[i..])
         == (if NonEmpty(ops[i]) then Sent(Request(session, client, revision, ops[i])) else [])
            + GuestSends(session, client, revision, ops[i + 1..])
  {
    hide Fits, Request;
    assert ops[i..][1..] == ops[i + 1..];
  }

  lemma GuestSendsNothing(session: Text, client: Text, revision: nat)
    ensures GuestSends(session, client, revision, []) == []
  {
  }

  /** The outgoing half of the guest's connection (client/sync_client.cpp). */
  class SyncClient {
    var session: Text
    var assignedClient: Text
    var connected: bool
    var sendQueue: seq<Message>

    ghost function Id(): Text
      reads this
    {
      if assignedClient == [] then CLIENT_B else assignedClient
    }

    constructor (session: Text, assignedClient: Text)
      ensures this.session == session && this.assignedClient == assignedClient && connected && sendQueue == []
    {
      this.session := session;
      this.assignedClient := assignedClient;
      connected := true;
      sendQueue := [];
    }

    method EnqueueMessage(m: Message) returns (sent: bool)
      modifies this`sendQueue
      ensures sendQueue == old(sendQueue) + if connected then Sent(m) else []
      ensures sent == (connected && Fits(m))
    {
      var result := SerializeMessage(m);
      if result.Err? || !connected {
        return false;
      }
      sendQueue := sendQueue + [m];
      return true;
    }

    method SendInsert(baseRevision: nat, position: nat, text: Text) returns (sent: bool)
      modifies this`sendQueue
      ensures text == [] ==> !sent && sendQueue == old(sendQueue)
      ensures text != [] ==>
              var request := Request(session, Id(), baseRevision, InsertAt(position, text));
              && sent == (connected && Fits(request))
              && sendQueue == old(sendQueue) + if connected then Sent(request) else []
    {
      if text == [] {
        return false;
      }
      var id := if assignedClient == [] then CLIENT_B else assignedClient;
      sent := EnqueueMessage(Request(session, id, baseRevision, InsertAt(position, text)));
    }

    method SendDelete(baseRevision: nat, position: nat, length: nat) returns (sent: bool)
      modifies this`sendQueue
      ensures length == 0 ==> !sent && sendQueue == old(sendQueue)
      ensures length != 0 ==>
              var request := Request(session, Id(), baseRevision, DeleteAt(position, length));
              && sent == (connected && Fits(request))
              && sendQueue == old(sendQueue) + if connected then Sent(request) else []
    {
      if length == 0 {
        return false;
      }
      var id := if assignedClient == [] then CLIENT_B else assignedClient;
      sent := EnqueueMessage(Request(session, id, baseRevision, DeleteAt(position, length)));
    }

    method SendSyncRequest(currentRevision: nat) returns (sent: bool)
      modifies this`sendQueue
      ensures sendQueue == old(sendQueue) + if connected then Sent(SyncRequestMessage(session, Id(), currentRevision)) else []
      ensures sent == (connected && Fits(SyncRequestMessage(session, Id(), currentRevision)))
    {
      var id := if assignedClient == [] then CLIENT_B else assignedClient;
      sent := EnqueueMessage(SyncRequestMessage(session, id, currentRevision));
    }
  }

  class WebViewWindow {
    var role: Role
    var localClient: Text
    var lastKnownText: Text
    var currentRevision: nat
    var syncResponseRevision: nat
    var syncResponseChunks: seq<Text>
    var syncResponseReceived: seq<bool>
    const server: SyncServer
    const client: SyncClient

    ghost predicate Valid()
      reads this
    {
      |syncResponseChunks| == |syncResponseReceived|
    }

    ghost function State(): Replica
      reads this
      requires Valid()
    {
      Replica(role, localClient, lastKnownText, currentRevision,
              syncResponseRevision, syncResponseChunks, syncResponseReceived)
    }

    constructor (server: SyncServer, client: SyncClient, role: Role, localClient: Text, text: Text, revision: nat)
      ensures Valid() && State() == Replica(role, localClient, text, revision, 0, [], [])
      ensures this.server == server && this.client == client
    {
      this.role, this.localClient := role, localClient;
      lastKnownText, currentRevision := text, revision;
      syncResponseRevision, syncResponseChunks, syncResponseReceived := 0, [], [];
      this.server, this.client := server, client;
    }

    method ApplyFullSyncDocument(text: Text, revision: nat)
      requires Valid()
      modifies this
      ensures Valid() && State() == FullSync(old(State()), text, revision)
    {
      lastKnownText := text;
      currentRevision := revision;
    }

    /** The host takes its own server's document; a guest asks for it; nobody else does anything. */
    method RequestFullSync()
      requires Valid()
      modifies this, client`sendQueue
      ensures Valid()
      ensures State() == if old(role) == Host then
                           old(State()).(text := server.document.content, revision := server.revision)
                         else old(State())
      ensures client.sendQueue == old(client.sendQueue)
              + if old(role) == Guest && client.connected then
                  Sent(SyncRequestMessage(client.session, client.Id(), old(currentRevision)))
                else []
      ensures var h := Handled(old(State()), ResyncNeeded);
              && State() == Repaired(h, server.document.content, server.revision)
              && client.sendQueue == old(client.sendQueue)
                 + if client.connected then Requested(h, client.session, client.Id()) else []
    {
      if role == Guest {
        var _ := client.SendSyncRequest(currentRevision);
        return;
      }
      if role == Host {
        ApplyFullSyncDocument(server.document.content, server.revision);
      }
    }

    method ApplySyncResponse(m: Message)
      requires Valid()
      modifies this
      ensures Valid() && State() == OnSyncResponse(old(State()), m).replica
    {
      if TEXT !in m.strings || REV !in m.numbers {
        return;
      }
      var text, revision := m.strings[TEXT], m.numbers[REV];
      var chunkIndex, chunkCount := 0, 1;
      if CHUNK_INDEX in m.numbers {
        chunkIndex := m.numbers[CHUNK_INDEX];
      }
      if CHUNK_COUNT in m.numbers {
        chunkCount := m.numbers[CHUNK_COUNT];
      }
      if chunkCount == 0 || chunkIndex >= chunkCount {
        return;
      }
      if chunkCount > 1 {
        if syncResponseRevision != revision || |syncResponseChunks| != chunkCount {
          syncResponseRevision := revision;
          syncResponseChunks := seq(chunkCount, _ => []);
          syncResponseReceived := seq(chunkCount, _ => false);
        }
        syncResponseChunks := syncResponseChunks[chunkIndex := text];
        syncResponseReceived := syncResponseReceived[chunkIndex := true];
        var complete := forall i :: 0 <= i < |syncResponseReceived| ==> syncResponseReceived[i];
        if !complete {
          return;
        }
        var merged := Concat(syncResponseChunks);
        syncResponseChunks, syncResponseReceived := [], [];
        ApplyFullSyncDocument(merged, revision);
        return;
      }
      syncResponseChunks, syncResponseReceived := [], [];
      ApplyFullSyncDocument(text, revision);
    }

    method ApplySyncApply(m: Message)
      requires Valid()
      modifies this, client`sendQueue
      ensures Valid()
      ensures var h := OnApply(old(State()), m);
              && State() == Repaired(h, server.document.content, server.revision)
              && client.sendQueue == old(client.sendQueue)
                 + if client.connected then Requested(h, client.session, client.Id()) else []
    {
      if REV !in m.numbers || POS !in m.numbers || OP !in m.strings {
        return;
      }
      var revision, position, operation := m.numbers[REV], m.numbers[POS], m.strings[OP];
      if revision <= currentRevision {
        return;
      }
      if m.client == localClient {
        currentRevision := revision;
        return;
      }
      if revision != currentRevision + 1 {
        RequestFullSync();
        return;
      }
      var text := new TextBuffer(lastKnownText);
      var status := InvalidOperation;
      if operation == NAME_INSERT {
        if TEXT in m.strings {
          status := ApplyInsertToContent(text, position, m.strings[TEXT]);
        }
      } else if operation == NAME_DELETE {
        if LEN in m.numbers {
          status := ApplyDeleteToContent(text, position, m.numbers[LEN]);
        }
      }
      KeysDiffer();
      if status != Applied {
        RequestFullSync();
        return;
      }
      lastKnownText := text.content;
      currentRevision := revision;
    }

    method HandleSyncEvent(m: Message)
      requires Valid()
      modifies this, client`sendQueue
      ensures Valid()
      ensures var h := OnEvent(old(State()), m);
              && State() == Repaired(h, server.document.content, server.revision)
              && client.sendQueue == old(client.sendQueue)
                 + if client.connected then Requested(h, client.session, client.Id()) else []
    {
      if m.kind == MessageType.Apply {
        ApplySyncApply(m);
      } else if m.kind == MessageType.SyncResponse {
        ApplySyncResponse(m);
      }
    }

    /** The edits of one change go to the host's own server, or to the guest's send queue, or nowhere. */
    method SendLocalOperations(operations: seq<Operation>)
      requires Valid()
      modifies this`currentRevision, this`lastKnownText, client`sendQueue
      modifies server`revision, server`peerLink, server.document
      ensures Valid()
      ensures role == Host ==>
              var turn := HostSends(old(State()), old(server.State()), operations);
              && State() == turn.replica && server.State() == turn.server
              && client.sendQueue == old(client.sendQueue)
              && server.peerLink == old(server.peerLink) + if server.peerConnected then SentAll(turn.announced) else []
      ensures role == Guest ==>
              && State() == old(State()) && server.State() == old(server.State())
              && server.peerLink == old(server.peerLink)
              && client.sendQueue == old(client.sendQueue) + if client.connected then GuestSendsNow(operations) else []
      ensures role == Offline ==>
              && State() == old(State()) && server.State() == old(server.State())
              && server.peerLink == old(server.peerLink) && client.sendQueue == old(client.sendQueue)
    {
      if role == Offline {
        return;
      }
      if role == Host {
        SendHostOperations(operations);
      } else {
        SendGuestOperations(operations);
      }
    }

    method SendHostOperation(operation: Operation)
      requires Valid() && role == Host
      modifies this`currentRevision, this`lastKnownText, server`revision, server`peerLink, server.document
      ensures Valid() && role == Host
      ensures var turn := HostSendsOne(old(State()), old(server.State()), operation);
              && State() == turn.replica && server.State() == turn.server
              && server.peerLink == old(server.peerLink) + if server.peerConnected then SentAll(turn.announced) else []
    {
      hide Fits;
      var verdict := server.ApplyLocalOperation(operation, localClient);
      if verdict.Refused? {
        lastKnownText := server.document.content;
        currentRevision := server.revision;
      } else {
        assert [verdict.apply][1..] == [];
        assert SentAll([verdict.apply]) == Sent(verdict.apply);
        currentRevision := server.revision;
      }
    }

    method SendHostOperations(operations: seq<Operation>)
      requires Valid() && role == Host
      modifies this`currentRevision, this`lastKnownText, server`revision, server`peerLink, server.document
      ensures Valid()
      ensures var turn := HostSends(old(State()), old(server.State()), operations);
              && State() == turn.replica && server.State() == turn.server
              && server.peerLink == old(server.peerLink) + if server.peerConnected then SentAll(turn.announced) else []
    {
      hide Fits, HostSendsOne, HostSends, Sent, SentAll;
      ghost var turn := HostSends(State(), server.State(), operations);
      ghost var r, s, announced := State(), server.State(), [];
      SentAllOfNothing();
      var i := 0;
      while i < |operations|
        invariant 0 <= i <= |operations| && Valid() && role == Host
        invariant State() == r && server.State() == s
        invariant HostSendsRest(r, s, announced, operations[i..]) == turn
        invariant server.peerLink == old(server.peerLink) + if server.peerConnected then SentAll(announced) else []
      {
        ghost var one := HostSendsOne(r, s, operations[i]);
        HostSendsRestStep(r, s, announced, operations[i..]);
        assert operations[i..][1..] == operations[i + 1..];
        SendHostOperation(operations[i]);
        SentAllConcat(announced, one.announced);
        r, s, announced := one.replica, one.server, announced + one.announced;
        i := i + 1;
      }
      HostSendsRestDone(r, s, announced);
    }

    ghost function GuestSendsNow(operations: seq<Operation>): seq<Message>
      reads this, client
    {
      GuestSends(client.session, client.Id(), currentRevision, operations)
    }

    method SendGuestOperations(operations: seq<Operation>)
      requires role == Guest
      modifies client`sendQueue
      ensures client.sendQueue == old(client.sendQueue) + if client.connected then GuestSendsNow(operations) else []
    {
      hide Fits, GuestSends, Request;
      ghost var sends := GuestSendsNow(operations);
      GuestSendsNothing(client.session, client.Id(), currentRevision);
      var i := 0;
      while i < |operations|
        invariant 0 <= i <= |operations|
        invariant if client.connected then old(client.sendQueue) + sends == client.sendQueue + GuestSendsNow(operations[i..])
                  else client.sendQueue == old(client.sendQueue)
      {
        GuestSendsStep(client.session, client.Id(), currentRevision, operations, i);
        match operations[i] {
          case InsertAt(position, text) =>
            var _ := client.SendInsert(currentRevision, position, text);
          case DeleteAt(position, length) =>
            var _ := client.SendDelete(currentRevision, position, length);
        }
        i := i + 1;
      }
      assert operations[i..] == [];
    }

    /** The editor reports its whole new text; the window sends the difference and remembers the text,
        whether or not every edit was accepted. A text over the limit is not taken over. */
    method HandleEditorChanged(text: Text)
      requires Valid()
      modifies this`currentRevision, this`lastKnownText, client`sendQueue
      modifies server`revision, server`peerLink, server.document
      ensures Valid()
      ensures role == Host ==>
              var turn := HostTypes(old(State()), old(server.State()), text);
              && State() == turn.replica && server.State() == turn.server
              && server.peerLink == old(server.peerLink) + if server.peerConnected then SentAll(turn.announced) else []
      ensures role != Host ==>
              && State() == (if |text| > MAX_DOCUMENT_CHARS then old(State()) else old(State()).(text := text))
              && server.State() == old(server.State()) && server.peerLink == old(server.peerLink)
      ensures role == Guest ==>
              client.sendQueue == old(client.sendQueue)
              + if |text| > MAX_DOCUMENT_CHARS || !client.connected then []
                else old(GuestSendsNow(DiffOperations(lastKnownText, text)))
      ensures role != Guest ==> client.sendQueue == old(client.sendQueue)
    {
      var diff := ComputeEditorDiff(lastKnownText, text);
      if !diff.valid {
        return;
      }
      EqualTexts(text);
      if diff.changed {
        SendLocalOperations(diff.operations);
      }
      lastKnownText := text;
    }
  }

  /** The host's turn for one report of the editor. */
  function HostTypes(r: Replica, s: ServerState, text: Text): HostTurn {
    if |text| > MAX_DOCUMENT_CHARS then HostTurn(r, s, [])
    else
      var turn := HostSends(r, s, DiffOperations(r.text, text));
      turn.(replica := turn.replica.(text := text))
  }
}
