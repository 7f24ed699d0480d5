/** What becomes of a session once nobody types any more. The messages on their way can be received in any
    order of the three receivers; the invariant below says where every such order ends. Requests may be
    refused, announcements may fail to apply at the guest, which then asks for a full sync, and an answer of
    the server that does not fit a frame ends the connection, with the rest of the requests unread. */
module Receiving {
  import opened WideText
  import opened DocumentModel
  import opened EditorDiff
  import opened Protocol
  import opened JsonPrinter
  import opened Chunks
  import opened Server
  import opened Replica
  import opened Reassembly
  import opened TurnTaking
  import opened SequencerRuns
  import opened FrameSizes

  predicate IsSync(session: Text, m: Message) {
    CURRENT_REV in m.numbers && m == SyncRequestMessage(session, CLIENT_B, m.numbers[CURRENT_REV])
  }

  predicate AllEdits(session: Text, messages: seq<Message>) {
    forall i :: 0 <= i < |messages| ==> IsEdit(session, messages[i])
  }

  predicate AllSyncs(session: Text, messages: seq<Message>) {
    forall i :: 0 <= i < |messages| ==> IsSync(session, messages[i])
  }

  predicate FromGuest(session: Text, messages: seq<Message>) {
    forall i :: 0 <= i < |messages| ==> IsEdit(session, messages[i]) || IsSync(session, messages[i])
  }

  /** One request taken by the server, whether accepted or refused. */
  function Taken(s: ServerState, op: Operation): ServerState {
    if RequestStatus(s.document, op).Applied? then ServerState(s.session, Edit(s.document, op), s.revision + 1) else s
  }

  /** The request is accepted and cannot be announced, which ends the connection. */
  ghost predicate Breaks(s: ServerState, op: Operation) {
    RequestStatus(s.document, op).Applied? && !Fits(ApplyFor(s.session, CLIENT_B, s.revision + 1, op))
  }

  /** The requests up to and including the first that ends the connection. */
  ghost function TakenAll(s: ServerState, ops: seq<Operation>): ServerState
    decreases |ops|
  {
    if ops == [] then s
    else if Breaks(s, ops[0]) then Taken(s, ops[0])
    else TakenAll(Taken(s, ops[0]), ops[1..])
  }

  /** Every accepted one of the requests can be announced. */
  ghost predicate Announceable(s: ServerState, ops: seq<Operation>)
    decreases |ops|
  {
    ops == [] || (!Breaks(s, ops[0]) && Announceable(Taken(s, ops[0]), ops[1..]))
  }

  /** A full sync of this state can be sent. */
  ghost predicate SyncGoes(s: ServerState) {
    Fitting(SyncResponses(s.session, s.document, s.revision)) == SyncResponses(s.session, s.document, s.revision)
  }

  /** Announcements without a gap after `revision`, with error replies among them. */
  predicate Counted(session: Text, messages: seq<Message>, revision: nat)
    decreases |messages|
  {
    messages == []
    || (messages[0].kind == MessageType.Error && Counted(session, messages[1..], revision))
    || (IsApply(session, messages[0], revision + 1) && Counted(session, messages[1..], revision + 1))
  }

  function Count(messages: seq<Message>): nat {
    if messages == [] then 0 else (if messages[0].kind == MessageType.Apply then 1 else 0) + Count(messages[1..])
  }

  predicate NoChunks(messages: seq<Message>) {
    forall i :: 0 <= i < |messages| ==> messages[i].kind != MessageType.SyncResponse
  }

  // ---- The invariant ----

  /** The host's window, with its pending events applied, shows the server's document. */
  ghost predicate HostFollows(t: Session) {
    && t.host.role == Host && t.host.localClient == CLIENT_A
    && Numbered(t.server.session, t.hostEvents, t.host.revision)
    && (forall i :: 0 <= i < |t.hostEvents| ==> t.hostEvents[i].client == CLIENT_B)
    && t.server.revision == t.host.revision + |t.hostEvents|
    && HostSettled(t) == Some(t.server.document)
  }

  /** The guest has every announcement so far, or it is on its way. */
  predicate InCount(t: Session) {
    && AllEdits(t.server.session, t.toServer)
    && Counted(t.server.session, t.toGuest, t.guest.revision)
    && t.server.revision == t.guest.revision + Count(t.toGuest)
    && t.guest.chunks == []
  }

  predicate SplitAt(session: Text, messages: seq<Message>, k: nat) {
    k < |messages| && AllEdits(session, messages[..k]) && AllSyncs(session, messages[k..])
  }

  /** The guest has asked for a full sync, after its edits. */
  ghost predicate Asked(t: Session) {
    && (exists k: nat :: SplitAt(t.server.session, t.toServer, k))
    && NoChunks(t.toGuest) && t.guest.chunks == []
  }

  /** What is on its way to the guest makes it show the final document. */
  ghost predicate Answered(t: Session, end: ServerState) {
    && AllSyncs(t.server.session, t.toServer) && t.server == end && SyncGoes(end)
    && var g := Follow(t.guest, t.toGuest);
    g.text == end.document && g.revision == end.revision && g.chunks == []
  }

  /** The server will end in `end`; when the connection has ended it is there. `shown` is what the guest will
      show when it can apply every announcement, and None when it cannot. `through` says that no announcement
      breaks the connection. */
  ghost predicate Pending(t: Session, end: ServerState, shown: Option<Text>, through: bool) {
    && t.guest.role == Guest && t.guest.localClient == CLIENT_B
    && FromGuest(t.server.session, t.toServer)
    && (if t.alive then TakenAll(t.server, RequestedOperations(t.toServer)) else t.server) == end
    && SessionCode(end.session) && t.server.session == end.session
    && t.server.revision <= end.revision <= UINT64_MAX
    && HostFollows(t)
    && (t.alive ==>
          (InCount(t) && GuestSettled(t) == shown) || (shown.None? && (Asked(t) || Answered(t, end))))
    && (shown.Some? || SyncGoes(end) ==>
          ((t.alive && Announceable(t.server, RequestedOperations(t.toServer))) <==> through))
  }

  /** A session in which the guest is in count: what it will come to can be read off. */
  ghost predicate Ready(t: Session) {
    && t.guest.role == Guest && t.guest.localClient == CLIENT_B
    && HostFollows(t) && InCount(t) && t.alive
    && SessionCode(t.server.session) && t.server.revision + |t.toServer| <= UINT64_MAX
  }

  lemma {:induction false} FewRequests(messages: seq<Message>)
    ensures |RequestedOperations(messages)| <= |messages|
  {
    hide RequestedOperation;
    if messages != [] {
      FewRequests(messages[1..]);
    }
  }

  lemma {:induction false} TakenCounts(s: ServerState, ops: seq<Operation>)
    ensures TakenAll(s, ops).revision <= s.revision + |ops| && TakenAll(s, ops).session == s.session
    decreases |ops|
  {
    hide Taken, Breaks;
    if ops != [] {
      TakenStep(s, ops[0]);
      TakenCounts(Taken(s, ops[0]), ops[1..]);
    }
  }

  lemma ReadyIsPending(t: Session)
    requires Ready(t)
    ensures Pending(t, TakenAll(t.server, RequestedOperations(t.toServer)), GuestSettled(t),
                    Announceable(t.server, RequestedOperations(t.toServer)))
  {
    hide IsEdit, IsSync, Counted, Count, Fold, TakenAll, Announceable, RequestedOperations, SyncGoes, SessionCode, HostFollows;
    FewRequests(t.toServer);
    TakenCounts(t.server, RequestedOperations(t.toServer));
    TakenOnlyGrows(t.server, RequestedOperations(t.toServer));
  }

  // ---- Serving one message ----

  lemma EditIsNoSync(session: Text, m: Message)
    requires IsEdit(session, m)
    ensures !IsSync(session, m) && m.kind != MessageType.SyncRequest && RequestedOperation(m).Some?
  {
  }

  lemma SyncIsNoEdit(session: Text, m: Message)
    requires IsSync(session, m)
    ensures !IsEdit(session, m) && m.kind == MessageType.SyncRequest && RequestedOperation(m).None?
  {
    KeysDiffer();
    assert CURRENT_REV != POS;
  }

  /** What the server makes of a request. */
  lemma ServeOneEdit(s: ServerState, m: Message)
    requires IsEdit(s.session, m)
    ensures var op, served := RequestedOperation(m).value, Serve(s, [], m);
            var apply := ApplyFor(s.session, CLIENT_B, s.revision + 1, op);
            && served.state == Taken(s, op) && (served.alive <==> !Breaks(s, op))
            && (RequestStatus(s.document, op).Applied? ==> served.replies == Sent(apply) && served.events == [apply])
            && (!RequestStatus(s.document, op).Applied? ==>
                  && served.events == []
                  && (served.replies == [] || (|served.replies| == 1 && served.replies[0].kind == MessageType.Error)))
  {
    hide Fits, Edit, Status;
    RequestReadsBack(s.session, CLIENT_B, m.numbers[BASE_REV], RequestedOperation(m).value);
    KeysDiffer();
  }

  lemma ServeOneSync(s: ServerState, m: Message)
    requires IsSync(s.session, m)
    ensures Serve(s, [], m) == Served(s, Fitting(SyncResponses(s.session, s.document, s.revision)), [], SyncGoes(s))
  {
    hide Fits, Fitting, SyncResponses;
  }

  lemma TakenFirst(s: ServerState, op: Operation, rest: seq<Operation>)
    ensures TakenAll(s, [op] + rest) == if Breaks(s, op) then Taken(s, op) else TakenAll(Taken(s, op), rest)
    ensures Announceable(s, [op] + rest) <==> !Breaks(s, op) && Announceable(Taken(s, op), rest)
  {
    hide Breaks, Taken;
    assert ([op] + rest)[1..] == rest;
  }

  lemma TakenStep(s: ServerState, op: Operation)
    ensures Taken(s, op).session == s.session && s.revision <= Taken(s, op).revision <= s.revision + 1
  {
    hide RequestStatus, Edit;
  }

  lemma {:induction false} TakenOnlyGrows(s: ServerState, ops: seq<Operation>)
    ensures s.revision <= TakenAll(s, ops).revision && TakenAll(s, ops).session == s.session
    decreases |ops|
  {
    hide RequestStatus, Edit, Breaks;
    if ops != [] {
      TakenOnlyGrows(Taken(s, ops[0]), ops[1..]);
    }
  }

  // ---- The host's window ----

  lemma HostFollowsAnnouncement(t: Session, op: Operation)
    requires HostFollows(t) && Status(t.server.document, op).Applied?
    ensures var revision := t.server.revision + 1;
            HostFollows(t.(server := ServerState(t.server.session, Edit(t.server.document, op), revision),
                           hostEvents := t.hostEvents + [ApplyFor(t.server.session, CLIENT_B, revision, op)]))
  {
    hide ApplyFor, IsApply, AnnouncedOperation, AnnouncedOperations, Fold, Numbered, Status, Edit;
    var apply := ApplyFor(t.server.session, CLIENT_B, t.server.revision + 1, op);
    NewAnnouncement(t.server.session, t.server.revision + 1, op);
    OneMessage(apply);
    OneIsNumbered(t.server.session, apply, t.server.revision);
    NumberedAppend(t.server.session, t.hostEvents, [apply], t.host.revision);
    AnnouncedOperationsAppend(t.hostEvents, [apply]);
    FoldAppend(t.host.text, AnnouncedOperations(t.hostEvents), [op]);
    FoldOne(t.server.document, op);
  }

  lemma AppliedIsApplied(document: Text, op: Operation)
    requires RequestStatus(document, op).Applied?
    ensures Status(document, op).Applied?
  {
  }

  lemma HostFollowsServe(t: Session)
    requires HostFollows(t) && t.alive && t.toServer != [] && FromGuest(t.server.session, t.toServer)
    ensures HostFollows(Next(t, ServerReceives))
  {
    hide Fits, Serve, ApplyFor, Request, IsApply, IsEdit, IsSync, RequestedOperation, AnnouncedOperation, AnnouncedOperations,
         Fold, Numbered, Status, RequestStatus, Edit, SyncResponses, Fitting;
    var m := t.toServer[0];
    assert t.hostEvents + [] == t.hostEvents;
    if IsSync(t.server.session, m) {
      ServeOneSync(t.server, m);
    } else {
      assert IsEdit(t.server.session, m);
      EditIsNoSync(t.server.session, m);
      ServeOneEdit(t.server, m);
      var op := RequestedOperation(m).value;
      if RequestStatus(t.server.document, op).Applied? {
        AppliedIsApplied(t.server.document, op);
        HostFollowsAnnouncement(t, op);
      }
    }
  }

  lemma NewAnnouncement(session: Text, revision: nat, op: Operation)
    ensures var apply := ApplyFor(session, CLIENT_B, revision, op);
            && IsApply(session, apply, revision) && AnnouncedOperation(apply) == Some(op)
            && apply.client == CLIENT_B && apply.kind == MessageType.Apply && !FromHost(apply)
  {
    ApplyForReadsBack(session, CLIENT_B, revision, op);
    KeysDiffer();
  }

  lemma HostFollowsEvent(t: Session)
    requires HostFollows(t) && t.hostEvents != []
    ensures var u := Next(t, HostReceives);
            HostFollows(u) && u == t.(host := u.host, hostEvents := t.hostEvents[1..])
  {
    hide Fits, OnEvent, ApplyFor, IsApply, AnnouncedOperation, AnnouncedOperations, Fold, Numbered, Status, Edit;
    var m, rest := t.hostEvents[0], t.hostEvents[1..];
    NumberedRest(t.server.session, t.hostEvents, t.host.revision);
    HasOperation(t.server.session, m, t.host.revision + 1);
    assert t.hostEvents == [m] + rest;
    AnnouncedOperationsCons(m, rest);
    FoldFirst(t.host.text, AnnouncedOperation(m).value, AnnouncedOperations(rest));
    KeysDiffer();
    OnNextApply(t.host, t.server.session, m);
  }

  // ---- The guest in count ----

  lemma {:induction false} CountedAppend(session: Text, a: seq<Message>, b: seq<Message>, revision: nat)
    requires Counted(session, a, revision) && Counted(session, b, revision + Count(a))
    ensures Counted(session, a + b, revision) && Count(a + b) == Count(a) + Count(b)
    decreases |a|
  {
    hide IsApply;
    if a == [] {
      assert a + b == b;
    } else {
      assert (a + b)[1..] == a[1..] + b;
      if a[0].kind == MessageType.Error && Counted(session, a[1..], revision) {
        CountedAppend(session, a[1..], b, revision);
      } else {
        ApplyKind(session, a[0], revision + 1);
        CountedAppend(session, a[1..], b, revision + 1);
      }
    }
  }

  lemma {:induction false} CountedHasNoChunks(session: Text, messages: seq<Message>, revision: nat)
    requires Counted(session, messages, revision)
    ensures NoChunks(messages)
    decreases |messages|
  {
    hide IsApply;
    if messages != [] {
      if messages[0].kind == MessageType.Error && Counted(session, messages[1..], revision) {
        CountedHasNoChunks(session, messages[1..], revision);
      } else {
        ApplyKind(session, messages[0], revision + 1);
        CountedHasNoChunks(session, messages[1..], revision + 1);
      }
    }
  }

  lemma HostOperationsCons(m: Message, rest: seq<Message>)
    ensures HostOperations([m] + rest)
         == (if FromHost(m) && AnnouncedOperation(m).Some? then [AnnouncedOperation(m).value] else []) + HostOperations(rest)
  {
    hide AnnouncedOperation, FromHost;
    assert ([m] + rest)[1..] == rest;
  }

  /** One reply of the server while the guest is in count. */
  lemma CountedReply(t: Session, reply: Message)
    requires InCount(t)
    requires reply.kind == MessageType.Error
             || (IsApply(t.server.session, reply, t.server.revision + 1) && !FromHost(reply))
    ensures Counted(t.server.session, t.toGuest + [reply], t.guest.revision)
    ensures Count(t.toGuest + [reply]) == Count(t.toGuest) + if reply.kind == MessageType.Apply then 1 else 0
    ensures HostOperations(t.toGuest + [reply]) == HostOperations(t.toGuest)
  {
    hide IsApply, AnnouncedOperation, AllEdits;
    if reply.kind != MessageType.Error {
      ApplyKind(t.server.session, reply, t.server.revision + 1);
    }
    assert [reply][1..] == [];
    assert Counted(t.server.session, [reply], t.server.revision);
    CountedAppend(t.server.session, t.toGuest, [reply], t.guest.revision);
    HostOperationsAppend(t.toGuest, [reply]);
    OneMessage(reply);
  }

  lemma CountServes(t: Session)
    requires InCount(t) && t.alive && t.toServer != []
    ensures var u := Next(t, ServerReceives);
            && u.guest == t.guest
            && (u.alive ==> InCount(u) && HostOperations(u.toGuest) == HostOperations(t.toGuest))
  {
    hide Fits, Serve, ApplyFor, Request, IsApply, IsEdit, RequestedOperation, AnnouncedOperation, HostOperations, Count, Counted,
         RequestStatus, Edit, FromHost;
    var m := t.toServer[0];
    assert IsEdit(t.server.session, m);
    EditIsNoSync(t.server.session, m);
    ServeOneEdit(t.server, m);
    var op := RequestedOperation(m).value;
    var replies := Serve(t.server, [], m).replies;
    NewAnnouncement(t.server.session, t.server.revision + 1, op);
    assert t.toGuest + [] == t.toGuest;
    if replies != [] {
      assert replies == [replies[0]];
      CountedReply(t, replies[0]);
    }
  }

  lemma OnError(r: Replica, m: Message)
    requires m.kind == MessageType.Error
    ensures OnEvent(r, m) == Handled(r, Stale)
  {
  }

  lemma OnFailingApply(r: Replica, session: Text, m: Message)
    requires IsApply(session, m, r.revision + 1) && m.client != r.localClient
    requires !Status(r.text, AnnouncedOperation(m).value).Applied?
    ensures OnEvent(r, m) == Handled(r, ResyncNeeded)
  {
    hide Edit, Status;
    ApplyForReadsBack(session, m.client, r.revision + 1, AnnouncedOperation(m).value);
  }

  lemma CountedFirst(session: Text, messages: seq<Message>, revision: nat)
    requires messages != [] && Counted(session, messages, revision)
    ensures messages[0].kind == MessageType.Error ==>
            Counted(session, messages[1..], revision) && Count(messages) == Count(messages[1..])
    ensures messages[0].kind != MessageType.Error ==>
            && IsApply(session, messages[0], revision + 1) && messages[0].kind == MessageType.Apply
            && Counted(session, messages[1..], revision + 1) && Count(messages) == 1 + Count(messages[1..])
  {
    hide IsApply;
    if !(messages[0].kind == MessageType.Error && Counted(session, messages[1..], revision)) {
      ApplyKind(session, messages[0], revision + 1);
    }
  }

  /** The guest takes the next message: it stays in count with the same prospect, or, when the prospect is
      that an announcement fails, it asks for a full sync. */
  lemma CountReceives(t: Session)
    requires InCount(t) && t.toGuest != [] && t.guest.role == Guest && t.guest.localClient == CLIENT_B
    requires t.alive && SessionCode(t.server.session) && t.server.revision <= UINT64_MAX
    ensures var u := Next(t, GuestReceives);
            || (InCount(u) && GuestSettled(u) == GuestSettled(t) && u.toServer == t.toServer)
            || (Asked(u) && GuestSettled(t).None?)
  {
    hide Fits, OnEvent, IsApply, IsEdit, AnnouncedOperation, HostOperations, Count, Counted, SessionCode, Fold, Status, Edit, AllEdits;
    var m, rest := t.toGuest[0], t.toGuest[1..];
    assert t.toGuest == [m] + rest;
    CountedFirst(t.server.session, t.toGuest, t.guest.revision);
    HostOperationsCons(m, rest);
    assert t.toServer + [] == t.toServer;
    if m.kind == MessageType.Error {
      OnError(t.guest, m);
      assert !FromHost(m) && HostOperations(t.toGuest) == HostOperations(rest);
      assert Next(t, GuestReceives) == t.(toGuest := rest);
    } else {
      HasOperation(t.server.session, m, t.guest.revision + 1);
      var op := AnnouncedOperation(m).value;
      ApplyClient(t.server.session, m, t.guest.revision + 1);
      KeysDiffer();
      if FromHost(m) {
        FoldFirst(t.guest.text, op, HostOperations(rest));
        if Status(t.guest.text, op).Applied? {
          OnNextApply(t.guest, t.server.session, m);
        } else {
          OnFailingApply(t.guest, t.server.session, m);
          SyncRequestFits(t.server.session, t.guest.revision);
          AskedFor(t, rest);
        }
      } else {
        assert m.client == CLIENT_B && HostOperations(t.toGuest) == HostOperations(rest);
        OnNextApply(t.guest, t.server.session, m);
        assert Next(t, GuestReceives) == t.(guest := t.guest.(revision := t.guest.revision + 1), toGuest := rest);
      }
    }
  }

  lemma ApplyClient(session: Text, m: Message, revision: nat)
    requires IsApply(session, m, revision)
    ensures m.client == CLIENT_A || m.client == CLIENT_B
  {
  }

  lemma AskedFor(t: Session, rest: seq<Message>)
    requires AllEdits(t.server.session, t.toServer) && t.guest.chunks == []
    requires Counted(t.server.session, rest, t.guest.revision + 1)
    ensures Asked(t.(toGuest := rest,
                     toServer := t.toServer + [SyncRequestMessage(t.server.session, CLIENT_B, t.guest.revision)]))
  {
    hide IsEdit, Counted;
    var sync := SyncRequestMessage(t.server.session, CLIENT_B, t.guest.revision);
    var asked := t.toServer + [sync];
    assert asked[..|t.toServer|] == t.toServer && asked[|t.toServer|..] == [sync];
    assert SplitAt(t.server.session, asked, |t.toServer|);
    CountedHasNoChunks(t.server.session, rest, t.guest.revision + 1);
  }

  // ---- The guest after it has asked ----

  lemma OnNoChunk(r: Replica, m: Message)
    requires m.kind != MessageType.SyncResponse
    ensures OnEvent(r, m).replica.chunks == r.chunks
    ensures OnEvent(r, m).replica.role == r.role && OnEvent(r, m).replica.localClient == r.localClient
  {
    hide Edit, Status, AnnouncedOperation;
  }

  lemma OnChunkKeepsRole(r: Replica, m: Message)
    ensures OnEvent(r, m).replica.role == r.role && OnEvent(r, m).replica.localClient == r.localClient
  {
    hide Edit, Status, AnnouncedOperation;
  }

  lemma {:induction false} FollowNoChunks(r: Replica, messages: seq<Message>)
    requires NoChunks(messages) && r.chunks == []
    ensures Follow(r, messages).chunks == []
    decreases |messages|
  {
    hide OnEvent;
    if messages != [] {
      OnNoChunk(r, messages[0]);
      FollowNoChunks(OnEvent(r, messages[0]).replica, messages[1..]);
    }
  }

  lemma {:induction false} FollowAppend(r: Replica, a: seq<Message>, b: seq<Message>)
    ensures Follow(r, a + b) == Follow(Follow(r, a), b)
    decreases |a|
  {
    hide OnEvent;
    if a == [] {
      assert a + b == b;
    } else {
      assert (a + b)[1..] == a[1..] + b;
      FollowAppend(OnEvent(r, a[0]).replica, a[1..], b);
    }
  }

  function UpTo(n: nat): seq<nat> {
    seq(n, i => i)
  }

  lemma {:induction false} FollowFeeds(r: Replica, s: ServerState, n: nat)
    requires n <= |Cuts(s.document, SYNC_CHUNK_CHARS)|
    ensures Follow(r, SyncResponses(s.session, s.document, s.revision)[..n])
         == Feed(r, s.document, SYNC_CHUNK_CHARS, s.revision, UpTo(n))
    decreases n
  {
    hide OnEvent, Deliver;
    var responses := SyncResponses(s.session, s.document, s.revision);
    if n > 0 {
      hide SyncResponses;
      FollowFeeds(r, s, n - 1);
      assert responses[..n] == responses[..n - 1] + [responses[n - 1]];
      FollowAppend(r, responses[..n - 1], [responses[n - 1]]);
      var before := Follow(r, responses[..n - 1]);
      FollowOne(before, responses[n - 1]);
      ResponseDelivers(before, s.session, s.document, s.revision, n - 1);
      assert UpTo(n)[..n - 1] == UpTo(n - 1);
    }
  }

  lemma FollowOne(r: Replica, m: Message)
    ensures Follow(r, [m]) == OnEvent(r, m).replica
  {
    hide OnEvent;
    assert [m][1..] == [];
  }

  /** A whole full sync, received in order, shows the document of its revision. */
  lemma AnswerArrives(r: Replica, s: ServerState)
    requires r.chunks == []
    ensures var g := Follow(r, SyncResponses(s.session, s.document, s.revision));
            g.text == s.document && g.revision == s.revision && g.chunks == []
  {
    hide Follow, Feed, Cuts;
    var responses, n := SyncResponses(s.session, s.document, s.revision), |Cuts(s.document, SYNC_CHUNK_CHARS)|;
    FollowFeeds(r, s, n);
    assert responses[..n] == responses;
    assert UpTo(n) == UpTo(n - 1) + [n - 1];
    assert (n - 1) !in UpTo(n - 1);
    forall i | 0 <= i < n
      ensures i in UpTo(n)
    {
      assert UpTo(n)[i] == i;
    }
    FeedCompletes(r, s.document, SYNC_CHUNK_CHARS, s.revision, UpTo(n - 1), n - 1);
  }

  lemma {:induction false} SyncsAskForNothing(session: Text, messages: seq<Message>)
    requires AllSyncs(session, messages)
    ensures RequestedOperations(messages) == []
  {
    hide RequestedOperation, IsSync;
    if messages != [] {
      assert IsSync(session, messages[0]);
      SyncIsNoEdit(session, messages[0]);
      SyncsAskForNothing(session, messages[1..]);
    }
  }

  /** Serving a full-sync request when all edits have been served. */
  lemma SyncServed(t: Session, end: ServerState)
    requires t.alive && t.toServer != [] && AllSyncs(t.server.session, t.toServer) && t.server == end
    requires Follow(t.guest, t.toGuest).chunks == []
    ensures var u := Next(t, ServerReceives);
            && u.alive == SyncGoes(end) && u.guest == t.guest && u.server == end
            && (u.alive ==> Answered(u, end))
  {
    hide Fits, Serve, IsSync, Follow, SyncResponses, Fitting;
    var m := t.toServer[0];
    assert IsSync(t.server.session, m);
    ServeOneSync(t.server, m);
    var responses := SyncResponses(end.session, end.document, end.revision);
    FollowAppend(t.guest, t.toGuest, responses);
    AnswerArrives(Follow(t.guest, t.toGuest), end);
  }

  lemma AskedServes(t: Session, end: ServerState)
    requires t.alive && Asked(t) && TakenAll(t.server, RequestedOperations(t.toServer)) == end
    ensures var u := Next(t, ServerReceives);
            && u.guest == t.guest
            && (u.alive ==> Asked(u) || Answered(u, end))
  {
    hide Fits, Serve, IsSync, IsEdit, Follow, SyncResponses, Fitting, RequestedOperations, RequestedOperation, TakenAll, Taken,
         RequestStatus, ApplyFor;
    var session := t.server.session;
    var k: nat :| SplitAt(session, t.toServer, k);
    var m := t.toServer[0];
    if k == 0 {
      assert t.toServer[0..] == t.toServer;
      SyncsAskForNothing(session, t.toServer);
      NothingTaken(t.server);
      FollowNoChunks(t.guest, t.toGuest);
      SyncServed(t, end);
    } else {
      var rest := t.toServer[1..];
      assert IsEdit(session, t.toServer[..k][0]);
      EditIsNoSync(session, m);
      ServeOneEdit(t.server, m);
      TakenStep(t.server, RequestedOperation(m).value);
      NewAnnouncement(session, t.server.revision + 1, RequestedOperation(m).value);
      assert rest[..k - 1] == t.toServer[..k][1..] && rest[k - 1..] == t.toServer[k..];
      assert SplitAt(session, rest, k - 1);
      var u := Next(t, ServerReceives);
      assert NoChunks(u.toGuest);
      assert u.server.session == session;
    }
  }

  lemma NothingTaken(s: ServerState)
    ensures TakenAll(s, []) == s && Announceable(s, [])
  {
  }

  lemma AskedReceives(t: Session)
    requires t.alive && Asked(t) && t.toGuest != []
    ensures Asked(Next(t, GuestReceives))
  {
    hide Fits, OnEvent, IsSync, IsEdit;
    var session := t.server.session;
    var k: nat :| SplitAt(session, t.toServer, k);
    OnNoChunk(t.guest, t.toGuest[0]);
    var u := Next(t, GuestReceives);
    if u.toServer == t.toServer + [] {
      assert u.toServer == t.toServer;
      assert SplitAt(session, u.toServer, k);
    } else {
      var sync := u.toServer[|t.toServer|];
      NewSync(session, u.guest.revision);
      assert u.toServer == t.toServer + [sync];
      assert u.toServer[..k] == t.toServer[..k] && u.toServer[k..] == t.toServer[k..] + [sync];
      assert SplitAt(session, u.toServer, k);
    }
  }

  lemma NewSync(session: Text, revision: nat)
    ensures IsSync(session, SyncRequestMessage(session, CLIENT_B, revision))
  {
  }

  lemma AnsweredServes(t: Session, end: ServerState)
    requires t.alive && Answered(t, end) && t.toServer != []
    ensures var u := Next(t, ServerReceives);
            u.alive && u.guest == t.guest && Answered(u, end)
  {
    hide Serve, Follow, SyncGoes;
    SyncServed(t, end);
  }

  lemma AnsweredReceives(t: Session, end: ServerState)
    requires t.alive && Answered(t, end) && t.toGuest != []
    ensures Answered(Next(t, GuestReceives), end)
  {
    hide Fits, OnEvent, SyncGoes, IsSync;
    NewSync(t.server.session, OnEvent(t.guest, t.toGuest[0]).replica.revision);
  }

  // ---- Any order of receiving ----

  lemma PendingServes(t: Session, end: ServerState, shown: Option<Text>, through: bool)
    requires Pending(t, end, shown, through) && t.alive && t.toServer != []
    ensures Pending(Next(t, ServerReceives), end, shown, through)
  {
    hide Fits, Serve, IsSync, IsEdit, InCount, Asked, Answered, HostFollows, RequestedOperations, RequestedOperation, TakenAll,
         Announceable, Taken, Breaks, RequestStatus, SyncGoes, SessionCode, ApplyFor, HostOperations, Fold;
    HostFollowsServe(t);
    ServeTakes(t);
    var u := Next(t, ServerReceives);
    if InCount(t) && GuestSettled(t) == shown {
      CountServes(t);
      NoSyncInCount(t);
    } else if Asked(t) {
      AskedServes(t, end);
      SyncAtHead(t, end);
    } else {
      AnsweredServes(t, end);
      SyncAtHead(t, end);
    }
    TakenOnlyGrows(u.server, RequestedOperations(u.toServer));
  }

  /** After the end of the connection requests are only lost. */
  lemma PendingLoses(t: Session, end: ServerState, shown: Option<Text>, through: bool)
    requires Pending(t, end, shown, through) && !t.alive && t.toServer != []
    ensures Pending(Next(t, ServerReceives), end, shown, through)
  {
    hide IsSync, IsEdit, RequestedOperations, TakenAll, Announceable, SyncGoes, SessionCode, HostOperations, Fold, Numbered,
         AnnouncedOperations, Serve;
  }

  lemma SyncAtHead(t: Session, end: ServerState)
    requires t.toServer != [] && (Asked(t) || Answered(t, end))
    requires TakenAll(t.server, RequestedOperations(t.toServer)) == end
    ensures IsSync(t.server.session, t.toServer[0]) ==> t.server == end
    ensures IsSync(t.server.session, t.toServer[0]) || IsEdit(t.server.session, t.toServer[0])
  {
    hide IsSync, IsEdit, TakenAll, RequestedOperations, SyncGoes, Follow;
    if Asked(t) {
      var k: nat :| SplitAt(t.server.session, t.toServer, k);
      if k > 0 {
        assert IsEdit(t.server.session, t.toServer[..k][0]);
        EditIsNoSync(t.server.session, t.toServer[0]);
      } else {
        assert t.toServer[0..] == t.toServer;
        SyncsAskForNothing(t.server.session, t.toServer);
        NothingTaken(t.server);
      }
    }
  }

  lemma NoSyncInCount(t: Session)
    requires InCount(t) && t.toServer != []
    ensures IsEdit(t.server.session, t.toServer[0])
  {
    hide IsEdit;
  }

  /** Serving takes the first request off the queue and leaves the end where it is. */
  lemma ServeTakes(t: Session)
    requires t.alive && t.toServer != [] && FromGuest(t.server.session, t.toServer)
    ensures var u := Next(t, ServerReceives);
            var ops, rest := RequestedOperations(t.toServer), RequestedOperations(u.toServer);
            && u.server.session == t.server.session && FromGuest(u.server.session, u.toServer)
            && (IsEdit(t.server.session, t.toServer[0]) ==>
                  && (if u.alive then TakenAll(u.server, rest) else u.server) == TakenAll(t.server, ops)
                  && (u.alive && Announceable(u.server, rest) <==> Announceable(t.server, ops)))
            && (IsSync(t.server.session, t.toServer[0]) ==>
                  && u.server == t.server && u.alive == SyncGoes(t.server)
                  && TakenAll(u.server, rest) == TakenAll(t.server, ops)
                  && (Announceable(u.server, rest) <==> Announceable(t.server, ops)))
  {
    hide Fits, Serve, IsSync, IsEdit, RequestedOperations, RequestedOperation, TakenAll, Announceable, Taken, Breaks, RequestStatus,
         SyncGoes, ApplyFor;
    var m, queue := t.toServer[0], t.toServer[1..];
    assert t.toServer == [m] + queue;
    RequestedOperationsCons(m, queue);
    assert [] + RequestedOperations(queue) == RequestedOperations(queue);
    if IsEdit(t.server.session, m) {
      EditIsNoSync(t.server.session, m);
      var op := RequestedOperation(m).value;
      ServeOneEdit(t.server, m);
      TakenStep(t.server, op);
      TakenFirst(t.server, op, RequestedOperations(queue));
    } else {
      SyncIsNoEdit(t.server.session, m);
      ServeOneSync(t.server, m);
    }
  }

  /** Receiving asks for nothing but a full sync. */
  lemma ReceiveAsks(t: Session)
    requires t.toGuest != [] && FromGuest(t.server.session, t.toServer)
    ensures var u := Next(t, GuestReceives);
            && u == t.(guest := u.guest, toGuest := t.toGuest[1..], toServer := u.toServer)
            && u.guest.role == t.guest.role && u.guest.localClient == t.guest.localClient
            && FromGuest(t.server.session, u.toServer)
            && RequestedOperations(u.toServer) == RequestedOperations(t.toServer)
            && (u.toServer == t.toServer
                || (t.alive && t.toGuest[0].kind == MessageType.Apply && |u.toServer| == |t.toServer| + 1
                    && u.toServer[..|t.toServer|] == t.toServer && IsSync(t.server.session, u.toServer[|t.toServer|])))
  {
    hide Fits, OnEvent, IsSync, IsEdit, RequestedOperations;
    OnChunkKeepsRole(t.guest, t.toGuest[0]);
    OnlyApplyAsks(t.guest, t.toGuest[0]);
    assert t.toServer + [] == t.toServer;
    var sync := SyncRequestMessage(t.server.session, CLIENT_B, OnEvent(t.guest, t.toGuest[0]).replica.revision);
    NewSync(t.server.session, OnEvent(t.guest, t.toGuest[0]).replica.revision);
    SyncsAskForNothing(t.server.session, [sync]);
    RequestedOperationsAppend(t.toServer, [sync]);
  }

  lemma OnlyApplyAsks(r: Replica, m: Message)
    ensures OnEvent(r, m).reaction.ResyncNeeded? ==> m.kind == MessageType.Apply
  {
    hide Edit, Status, AnnouncedOperation;
  }

  lemma PendingReceives(t: Session, end: ServerState, shown: Option<Text>, through: bool)
    requires Pending(t, end, shown, through) && t.toGuest != []
    ensures Pending(Next(t, GuestReceives), end, shown, through)
  {
    hide Fits, OnEvent, IsSync, IsEdit, InCount, Asked, Answered, RequestedOperations, RequestedOperation, TakenAll,
         Announceable, Taken, SyncGoes, SessionCode, HostOperations, Fold, FromGuest, Numbered, AnnouncedOperations;
    ReceiveAsks(t);
    if t.alive {
      if InCount(t) && GuestSettled(t) == shown {
        CountReceives(t);
      } else if Asked(t) {
        AskedReceives(t);
      } else {
        AnsweredReceives(t, end);
      }
    }
  }

  lemma PendingEvents(t: Session, end: ServerState, shown: Option<Text>, through: bool)
    requires Pending(t, end, shown, through) && t.hostEvents != []
    ensures Pending(Next(t, HostReceives), end, shown, through)
  {
    hide Fits, OnEvent, IsSync, IsEdit, RequestedOperations, RequestedOperation, TakenAll, HostFollows, Follow, SplitAt,
         Announceable, Taken, SyncGoes, SessionCode, HostOperations, Fold, FromGuest, Counted, Count, AllEdits, AllSyncs, NoChunks;
    HostFollowsEvent(t);
  }

  predicate AllReceive(steps: seq<Step>) {
    forall i :: 0 <= i < |steps| ==> IsReceive(steps[i])
  }

  lemma PendingNext(t: Session, step: Step, end: ServerState, shown: Option<Text>, through: bool)
    requires Pending(t, end, shown, through) && IsReceive(step)
    ensures Pending(Next(t, step), end, shown, through)
  {
    hide Pending, Serve, OnEvent;
    match step {
      case ServerReceives =>
        if t.toServer != [] && t.alive {
          PendingServes(t, end, shown, through);
        } else if t.toServer != [] {
          PendingLoses(t, end, shown, through);
        }
      case GuestReceives => if t.toGuest != [] { PendingReceives(t, end, shown, through); }
      case HostReceives => if t.hostEvents != [] { PendingEvents(t, end, shown, through); }
      case _ =>
    }
  }

  lemma {:induction false} PendingRun(t: Session, steps: seq<Step>, end: ServerState, shown: Option<Text>, through: bool)
    requires Pending(t, end, shown, through) && AllReceive(steps)
    ensures Pending(Run(t, steps), end, shown, through)
    decreases |steps|
  {
    hide Pending, Next;
    if steps != [] {
      assert IsReceive(steps[0]);
      PendingNext(t, steps[0], end, shown, through);
      PendingRun(Next(t, steps[0]), steps[1..], end, shown, through);
    }
  }

  /** The state in which a session comes to rest. The connection is still there exactly when every
      announcement, and the full sync if one was needed, could be sent; then the guest has the server's
      revision and shows its own text with the announcements applied, or the server's document. */
  ghost predicate AtRest(u: Session, end: ServerState, shown: Option<Text>, through: bool) {
    && u.server == end
    && u.host.text == end.document && u.host.revision == end.revision
    && (u.alive <==> through && (shown.Some? || SyncGoes(end)))
    && (u.alive ==>
          u.guest.revision == end.revision && u.guest.text == (if shown.Some? then shown.value else end.document))
  }

  lemma QuietIsAtRest(t: Session, end: ServerState, shown: Option<Text>, through: bool)
    requires Pending(t, end, shown, through) && Quiet(t)
    ensures AtRest(t, end, shown, through)
  {
    hide SyncGoes, IsEdit, IsSync, SessionCode;
    NothingTaken(t.server);
    NothingToFold(t.guest.text);
    NothingToFold(t.host.text);
  }

  /** Every order of receiving that leaves nothing on its way ends there. */
  lemma EveryOrderEnds(t: Session, steps: seq<Step>, end: ServerState, shown: Option<Text>, through: bool)
    requires Pending(t, end, shown, through) && AllReceive(steps) && Quiet(Run(t, steps))
    ensures AtRest(Run(t, steps), end, shown, through)
  {
    hide Pending, AtRest, Run;
    PendingRun(t, steps, end, shown, through);
    QuietIsAtRest(Run(t, steps), end, shown, through);
  }

  // ---- Receiving ends ----

  /** How many receive steps the queued messages can still cause, when a full sync has `n` chunks. */
  function ServerWeight(messages: seq<Message>, n: nat): nat {
    if messages == [] then 0
    else (if messages[0].kind == MessageType.SyncRequest then n + 1 else n + 4) + ServerWeight(messages[1..], n)
  }

  function GuestWeight(messages: seq<Message>, n: nat): nat {
    if messages == [] then 0
    else (if messages[0].kind == MessageType.Apply then n + 2 else 1) + GuestWeight(messages[1..], n)
  }

  function SessionWeight(t: Session, n: nat): nat {
    ServerWeight(t.toServer, n) + GuestWeight(t.toGuest, n) + |t.hostEvents|
  }

  lemma {:induction false} ServerWeightAppend(a: seq<Message>, b: seq<Message>, n: nat)
    ensures ServerWeight(a + b, n) == ServerWeight(a, n) + ServerWeight(b, n)
  {
    if a == [] {
      assert a + b == b;
    } else {
      assert (a + b)[1..] == a[1..] + b;
      ServerWeightAppend(a[1..], b, n);
    }
  }

  lemma {:induction false} GuestWeightAppend(a: seq<Message>, b: seq<Message>, n: nat)
    ensures GuestWeight(a + b, n) == GuestWeight(a, n) + GuestWeight(b, n)
  {
    if a == [] {
      assert a + b == b;
    } else {
      assert (a + b)[1..] == a[1..] + b;
      GuestWeightAppend(a[1..], b, n);
    }
  }

  lemma {:induction false} LightMessages(messages: seq<Message>, n: nat)
    requires forall i :: 0 <= i < |messages| ==> messages[i].kind != MessageType.Apply
    ensures GuestWeight(messages, n) == |messages|
  {
    if messages != [] {
      LightMessages(messages[1..], n);
    }
  }

  lemma {:induction false} FittingIsPrefix(messages: seq<Message>)
    ensures Fitting(messages) <= messages
  {
    hide Fits;
    if messages != [] {
      FittingIsPrefix(messages[1..]);
      assert messages == [messages[0]] + messages[1..];
    }
  }

  lemma ResponsesAreLight(s: ServerState)
    ensures var n := |Cuts(s.document, SYNC_CHUNK_CHARS)|;
            GuestWeight(Fitting(SyncResponses(s.session, s.document, s.revision)), n) <= n
  {
    hide Fitting, GuestWeight;
    var responses := SyncResponses(s.session, s.document, s.revision);
    FittingIsPrefix(responses);
    LightMessages(Fitting(responses), |Cuts(s.document, SYNC_CHUNK_CHARS)|);
  }

  lemma OneLight(m: Message, n: nat)
    ensures GuestWeight([m], n) == if m.kind == MessageType.Apply then n + 2 else 1
    ensures ServerWeight([m], n) == if m.kind == MessageType.SyncRequest then n + 1 else n + 4
  {
    assert [m][1..] == [];
  }

  lemma ServingLightens(t: Session, end: ServerState, shown: Option<Text>, through: bool)
    requires Pending(t, end, shown, through) && t.toServer != []
    ensures var n := |Cuts(end.document, SYNC_CHUNK_CHARS)|;
            SessionWeight(Next(t, ServerReceives), n) < SessionWeight(t, n)
  {
    hide Fits, Serve, IsSync, IsEdit, HostFollows, RequestedOperations, RequestedOperation, TakenAll, Follow, Counted, Count, SplitAt,
         Announceable, Taken, RequestStatus, SessionCode, ApplyFor, HostOperations, Fold, GuestWeight, Cuts, SyncResponses, Fitting;
    var n, m := |Cuts(end.document, SYNC_CHUNK_CHARS)|, t.toServer[0];
    var replies := Serve(t.server, [], m).replies;
    GuestWeightAppend(t.toGuest, replies, n);
    if !t.alive {
    } else if IsEdit(t.server.session, m) {
      EditIsNoSync(t.server.session, m);
      ServeOneEdit(t.server, m);
      NewAnnouncement(t.server.session, t.server.revision + 1, RequestedOperation(m).value);
      if replies == [] {
        assert GuestWeight([], n) == 0 by { NoWeight(n); }
      } else {
        assert replies == [replies[0]];
        OneLight(replies[0], n);
      }
    } else {
      SyncIsNoEdit(t.server.session, m);
      SyncAtHead(t, end);
      ServeOneSync(t.server, m);
      ResponsesAreLight(end);
    }
  }

  lemma NoWeight(n: nat)
    ensures GuestWeight([], n) == 0 && ServerWeight([], n) == 0
  {
  }

  lemma ReceivingLightens(t: Session, n: nat)
    requires t.toGuest != [] && FromGuest(t.server.session, t.toServer)
    ensures SessionWeight(Next(t, GuestReceives), n) < SessionWeight(t, n)
  {
    hide Fits, OnEvent, IsSync, IsEdit, RequestedOperations, RequestedOperation, ServerWeight;
    ReceiveAsks(t);
    var u := Next(t, GuestReceives);
    if u.toServer != t.toServer {
      var sync := u.toServer[|t.toServer|];
      assert u.toServer == t.toServer + [sync];
      SyncIsNoEdit(t.server.session, sync);
      ServerWeightAppend(t.toServer, [sync], n);
      OneLight(sync, n);
    }
  }

  lemma EventsLighten(t: Session, n: nat)
    requires t.hostEvents != []
    ensures SessionWeight(Next(t, HostReceives), n) < SessionWeight(t, n)
  {
    hide Fits, OnEvent, ServerWeight, GuestWeight;
  }

  /** Receiving comes to an end. */
  lemma {:induction false} Drains(t: Session, end: ServerState, shown: Option<Text>, through: bool) returns (steps: seq<Step>)
    requires Pending(t, end, shown, through)
    ensures AllReceive(steps) && Quiet(Run(t, steps))
    decreases SessionWeight(t, |Cuts(end.document, SYNC_CHUNK_CHARS)|)
  {
    hide SessionWeight, Cuts, Next, SyncGoes, InCount, HostFollows, Asked, Answered, TakenAll, Announceable, RequestedOperations;
    if Quiet(t) {
      steps := [];
    } else {
      var n := |Cuts(end.document, SYNC_CHUNK_CHARS)|;
      var first := if t.toServer != [] then ServerReceives else if t.toGuest != [] then GuestReceives else HostReceives;
      if first.ServerReceives? {
        ServingLightens(t, end, shown, through);
      } else if first.GuestReceives? {
        ReceivingLightens(t, n);
      } else {
        EventsLighten(t, n);
      }
      PendingNext(t, first, end, shown, through);
      var rest := Drains(Next(t, first), end, shown, through);
      RunOneMore(t, first, rest);
      steps := [first] + rest;
    }
  }
}
