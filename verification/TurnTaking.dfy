/** Convergence of the two windows under turn-taking. There is no operational transformation in the
    protocol, so the two sides must not edit at the same time: the host edits only when it has taken
    over every guest edit and no guest request is waiting, the guest edits only when no announcement
    of a host edit is on its way to it. The links keep order, and applying an edit and queueing its
    announcement is one step. */
module TurnTaking {
  import opened WideText
  import opened DocumentModel
  import opened EditorDiff
  import opened Protocol
  import opened JsonPrinter
  import opened Server
  import opened Replica

  /** `toServer` carries the guest's messages, `toGuest` the server's, `hostEvents` what the server has
      queued for the host's own window. `alive` is the connection: when it has ended the server reads no
      further request, nothing more is sent either way, and what was sent to the guest still arrives. */
  datatype Session = Session(server: ServerState, host: Replica, guest: Replica, toServer: seq<Message>,
                             toGuest: seq<Message>, hostEvents: seq<Message>, alive: bool)

  datatype Step = HostTypesText(text: Text) | GuestTypesText(text: Text) | ServerReceives | GuestReceives | HostReceives

  ghost function Next(s: Session, step: Step): Session {
    match step
    case HostTypesText(text) =>
      var turn := HostTypes(s.host, s.server, text);
      s.(host := turn.replica, server := turn.server,
         toGuest := s.toGuest + if s.alive then SentAll(turn.announced) else [])
    case GuestTypesText(text) =>
      if |text| > MAX_DOCUMENT_CHARS then s
      else
        var ops := DiffOperations(s.guest.text, text);
        s.(guest := s.guest.(text := text),
           toServer := s.toServer + if s.alive then GuestSends(s.server.session, CLIENT_B, s.guest.revision, ops) else [])
    case ServerReceives =>
      if s.toServer == [] then s
      else if !s.alive then s.(toServer := s.toServer[1..])
      else
        var served := Serve(s.server, [], s.toServer[0]);
        s.(server := served.state, toServer := s.toServer[1..], toGuest := s.toGuest + served.replies,
           hostEvents := s.hostEvents + served.events, alive := served.alive)
    case GuestReceives =>
      if s.toGuest == [] then s
      else
        var h := OnEvent(s.guest, s.toGuest[0]);
        s.(guest := h.replica, toGuest := s.toGuest[1..],
           toServer := s.toServer + if s.alive then Requested(h, s.server.session, CLIENT_B) else [])
    case HostReceives =>
      if s.hostEvents == [] then s
      else
        var h := OnEvent(s.host, s.hostEvents[0]);
        s.(host := Repaired(h, s.server.document, s.server.revision), hostEvents := s.hostEvents[1..])
  }

  /** The server takes the edit and can announce it under the given revision: the insert is within the
      request limit and the APPLY fits a frame. It does not when the inserted text is half a surrogate
      pair, which has no UTF-8 form. */
  ghost predicate Carried(session: Text, client: Text, revision: nat, op: Operation) {
    && (op.InsertAt? ==> |op.text| <= MAX_INSERT_CHARS)
    && Fits(ApplyFor(session, client, revision, op))
  }

  /** Edits that get the revisions after `revision`. */
  ghost predicate AllCarried(session: Text, client: Text, revision: nat, ops: seq<Operation>) {
    forall i :: 0 <= i < |ops| ==> Carried(session, client, revision + 1 + i, ops[i])
  }

  /** The guest can send a request for every edit. */
  ghost predicate AllSent(session: Text, base: nat, ops: seq<Operation>) {
    forall i :: 0 <= i < |ops| ==> Fits(Request(session, CLIENT_B, base, ops[i]))
  }

  /** The new text is within the document limit, the messages of its edits go through, and the revision
      counter is far from its end. */
  ghost predicate HostMay(s: Session, text: Text) {
    && |text| <= MAX_DOCUMENT_CHARS
    && AllCarried(s.server.session, CLIENT_A, s.server.revision, DiffOperations(s.host.text, text))
    && s.server.revision + 2 <= UINT64_MAX
  }

  ghost predicate GuestMay(s: Session, text: Text) {
    && |text| <= MAX_DOCUMENT_CHARS
    && AllSent(s.server.session, s.guest.revision, DiffOperations(s.guest.text, text))
    && AllCarried(s.server.session, CLIENT_B, s.server.revision + |s.toServer|, DiffOperations(s.guest.text, text))
    && s.server.revision + |s.toServer| + 2 <= UINT64_MAX
  }

  predicate FromHost(m: Message) {
    m.kind == MessageType.Apply && m.client == CLIENT_A
  }

  /** The turn-taking rule, and that what is typed goes through. Messages may be received at any time. */
  ghost predicate Allowed(s: Session, step: Step) {
    match step
    case HostTypesText(text) => s.hostEvents == [] && s.toServer == [] && HostMay(s, text)
    case GuestTypesText(text) =>
      && (forall i :: 0 <= i < |s.toGuest| ==> !FromHost(s.toGuest[i]))
      && GuestMay(s, text)
    case _ => true
  }

  /** `m` is the announcement, under `revision`, of the operation it reads back as. */
  predicate IsApply(session: Text, m: Message, revision: nat) {
    && AnnouncedOperation(m).Some?
    && m == ApplyFor(session, m.client, revision, AnnouncedOperation(m).value)
    && (m.client == CLIENT_A || m.client == CLIENT_B)
  }

  /** `m` is the guest's request for the operation it reads back as. */
  predicate IsEdit(session: Text, m: Message) {
    && RequestedOperation(m).Some?
    && BASE_REV in m.numbers
    && m == Request(session, CLIENT_B, m.numbers[BASE_REV], RequestedOperation(m).value)
  }

  /** A request that can be announced under `revision`. */
  ghost predicate IsRequest(session: Text, m: Message, revision: nat) {
    IsEdit(session, m) && Carried(session, CLIENT_B, revision, RequestedOperation(m).value)
  }

  /** The host's operations among the messages on their way to the guest. */
  function HostOperations(messages: seq<Message>): seq<Operation> {
    if messages == [] then []
    else
      (if FromHost(messages[0]) && AnnouncedOperation(messages[0]).Some? then [AnnouncedOperation(messages[0]).value] else [])
      + HostOperations(messages[1..])
  }

  function RequestedOperations(messages: seq<Message>): seq<Operation> {
    if messages == [] then []
    else
      (if RequestedOperation(messages[0]).Some? then [RequestedOperation(messages[0]).value] else [])
      + RequestedOperations(messages[1..])
  }

  function AnnouncedOperations(messages: seq<Message>): seq<Operation> {
    if messages == [] then []
    else
      (if AnnouncedOperation(messages[0]).Some? then [AnnouncedOperation(messages[0]).value] else [])
      + AnnouncedOperations(messages[1..])
  }

  predicate Numbered(session: Text, messages: seq<Message>, revision: nat) {
    forall i :: 0 <= i < |messages| ==> IsApply(session, messages[i], revision + 1 + i)
  }

  ghost predicate Requests(session: Text, messages: seq<Message>, revision: nat) {
    forall i :: 0 <= i < |messages| ==> IsRequest(session, messages[i], revision + 1 + i)
  }

  predicate Roles(s: Session) {
    && s.host.role == Host && s.host.localClient == CLIENT_A
    && s.guest.role == Guest && s.guest.localClient == CLIENT_B
    && s.alive
  }

  /** Announcements on both ways are numbered without a gap up to the server's revision. */
  ghost predicate Revisions(s: Session) {
    && Requests(s.server.session, s.toServer, s.server.revision)
    && Numbered(s.server.session, s.toGuest, s.guest.revision)
    && s.server.revision == s.guest.revision + |s.toGuest|
    && Numbered(s.server.session, s.hostEvents, s.host.revision)
    && (forall i :: 0 <= i < |s.hostEvents| ==> s.hostEvents[i].client == CLIENT_B)
    && s.server.revision == s.host.revision + |s.hostEvents|
    && s.server.revision + |s.toServer| <= UINT64_MAX
  }

  /** What the guest will show once the host's announced edits arrive. */
  function GuestSettled(s: Session): Option<Text> {
    Fold(s.guest.text, HostOperations(s.toGuest))
  }

  /** What the server will hold once the guest's queued requests arrive. */
  function ServerSettled(s: Session): Option<Text> {
    Fold(s.server.document, RequestedOperations(s.toServer))
  }

  function HostSettled(s: Session): Option<Text> {
    Fold(s.host.text, AnnouncedOperations(s.hostEvents))
  }

  ghost predicate Texts(s: Session) {
    && ServerSettled(s).Some?
    && GuestSettled(s) == ServerSettled(s)
    && HostSettled(s) == Some(s.server.document)
    && (s.toServer == [] || HostOperations(s.toGuest) == [])
  }

  ghost predicate Inv(s: Session) {
    Roles(s) && Revisions(s) && Texts(s)
  }

  predicate Quiet(s: Session) {
    s.toServer == [] && s.toGuest == [] && s.hostEvents == []
  }

  /** Both windows have synced and nothing is on its way. */
  predicate Init(s: Session) {
    && Roles(s) && Quiet(s)
    && s.host.text == s.server.document == s.guest.text
    && s.host.revision == s.server.revision == s.guest.revision <= UINT64_MAX
  }

  lemma {:induction false} HostOperationsAppend(a: seq<Message>, b: seq<Message>)
    ensures HostOperations(a + b) == HostOperations(a) + HostOperations(b)
  {
    hide AnnouncedOperation;
    if a == [] {
      assert a + b == b;
    } else {
      assert (a + b)[1..] == a[1..] + b;
      HostOperationsAppend(a[1..], b);
    }
  }

  lemma RequestedOperationsCons(m: Message, rest: seq<Message>)
    ensures RequestedOperations([m] + rest)
         == (if RequestedOperation(m).Some? then [RequestedOperation(m).value] else []) + RequestedOperations(rest)
  {
    hide RequestedOperation;
    assert ([m] + rest)[1..] == rest;
  }

  lemma {:induction false} RequestedOperationsAppend(a: seq<Message>, b: seq<Message>)
    ensures RequestedOperations(a + b) == RequestedOperations(a) + RequestedOperations(b)
  {
    if a == [] {
      assert a + b == b;
    } else {
      hide RequestedOperations, RequestedOperation;
      var rest := a[1..];
      assert a == [a[0]] + rest && a + b == [a[0]] + (rest + b);
      RequestedOperationsCons(a[0], rest);
      RequestedOperationsCons(a[0], rest + b);
      RequestedOperationsAppend(rest, b);
    }
  }

  lemma AnnouncedOperationsCons(m: Message, rest: seq<Message>)
    ensures AnnouncedOperations([m] + rest)
         == (if AnnouncedOperation(m).Some? then [AnnouncedOperation(m).value] else []) + AnnouncedOperations(rest)
  {
    hide AnnouncedOperation;
    assert ([m] + rest)[1..] == rest;
  }

  lemma {:induction false} AnnouncedOperationsAppend(a: seq<Message>, b: seq<Message>)
    ensures AnnouncedOperations(a + b) == AnnouncedOperations(a) + AnnouncedOperations(b)
  {
    if a == [] {
      assert a + b == b;
    } else {
      hide AnnouncedOperations, AnnouncedOperation;
      var rest := a[1..];
      assert a == [a[0]] + rest && a + b == [a[0]] + (rest + b);
      AnnouncedOperationsCons(a[0], rest);
      AnnouncedOperationsCons(a[0], rest + b);
      AnnouncedOperationsAppend(rest, b);
    }
  }

  lemma {:induction false} NoHostOperations(messages: seq<Message>)
    requires forall i :: 0 <= i < |messages| ==> !FromHost(messages[i])
    ensures HostOperations(messages) == []
  {
    if messages != [] {
      NoHostOperations(messages[1..]);
    }
  }

  /** The server accepts an edit that applies to its document and is within the request limit. */
  lemma ServerAccepts(session: Text, document: Text, revision: nat, client: Text, base: nat, op: Operation)
    requires client == CLIENT_A || client == CLIENT_B
    requires Status(document, op).Applied? && (op.InsertAt? ==> |op.text| <= MAX_INSERT_CHARS)
    ensures Decide(session, document, revision, Request(session, client, base, op))
         == Accepted(Edit(document, op), ApplyFor(session, client, revision + 1, op))
  {
    RequestReadsBack(session, client, base, op);
    KeysDiffer();
  }

  /** Announcements the host's edits give rise to, first revision `revision + 1`. */
  function Announcements(session: Text, revision: nat, ops: seq<Operation>): seq<Message>
    decreases |ops|
  {
    if ops == [] then []
    else [ApplyFor(session, CLIENT_A, revision + 1, ops[0])] + Announcements(session, revision + 1, ops[1..])
  }

  lemma {:induction false} AnnouncementsAreNumbered(session: Text, revision: nat, ops: seq<Operation>)
    ensures |Announcements(session, revision, ops)| == |ops|
    ensures Numbered(session, Announcements(session, revision, ops), revision)
    ensures HostOperations(Announcements(session, revision, ops)) == ops
    decreases |ops|
  {
    if ops != [] {
      AnnouncementsAreNumbered(session, revision + 1, ops[1..]);
      ApplyForReadsBack(session, CLIENT_A, revision + 1, ops[0]);
      var all := Announcements(session, revision, ops);
      forall i | 0 <= i < |all| ensures IsApply(session, all[i], revision + 1 + i) {
        if i > 0 {
          assert all[i] == all[1..][i - 1];
          assert IsApply(session, all[1..][i - 1], revision + 1 + 1 + (i - 1));
        }
      }
    }
  }

  lemma CarriedRest(session: Text, client: Text, revision: nat, ops: seq<Operation>)
    requires ops != [] && AllCarried(session, client, revision, ops)
    ensures Carried(session, client, revision + 1, ops[0]) && AllCarried(session, client, revision + 1, ops[1..])
  {
    hide Carried;
    forall i | 0 <= i < |ops[1..]|
      ensures Carried(session, client, revision + 1 + 1 + i, ops[1..][i])
    {
      assert Carried(session, client, revision + 1 + (i + 1), ops[i + 1]);
    }
  }

  lemma HostSendsOneAccepted(r: Replica, s: ServerState, op: Operation)
    requires r.localClient == CLIENT_A
    requires Status(s.document, op).Applied? && Carried(s.session, CLIENT_A, s.revision + 1, op)
    ensures HostSendsOne(r, s, op)
         == HostTurn(r.(revision := s.revision + 1), ServerState(s.session, Edit(s.document, op), s.revision + 1),
                     [ApplyFor(s.session, CLIENT_A, s.revision + 1, op)])
    ensures Sent(ApplyFor(s.session, CLIENT_A, s.revision + 1, op)) == [ApplyFor(s.session, CLIENT_A, s.revision + 1, op)]
  {
    hide Fits, Decide, ApplyFor, Request, Status, Edit;
    ServerAccepts(s.session, s.document, s.revision, CLIENT_A, s.revision, op);
  }

  /** When every edit applies, the host's turn numbers and announces them all. */
  lemma {:induction false} HostSendsAll(r: Replica, s: ServerState, ops: seq<Operation>)
    requires r.localClient == CLIENT_A
    requires Fold(s.document, ops).Some? && AllCarried(s.session, CLIENT_A, s.revision, ops)
    ensures var turn := HostSends(r, s, ops);
            && turn.replica == (if ops == [] then r else r.(revision := s.revision + |ops|))
            && turn.server == ServerState(s.session, Fold(s.document, ops).value, s.revision + |ops|)
            && turn.announced == Announcements(s.session, s.revision, ops)
            && SentAll(turn.announced) == turn.announced
    decreases |ops|
  {
    hide Fits, HostSendsOne, ApplyFor, Status, Edit, Carried, SentAll;
    SentAllOfNothing();
    if ops != [] {
      CarriedRest(s.session, CLIENT_A, s.revision, ops);
      HostSendsOneAccepted(r, s, ops[0]);
      var one := HostSendsOne(r, s, ops[0]);
      HostSendsAll(one.replica, one.server, ops[1..]);
      SentAllCons(ApplyFor(s.session, CLIENT_A, s.revision + 1, ops[0]),
                  Announcements(s.session, s.revision + 1, ops[1..]));
    }
  }

  lemma SentAllCons(m: Message, rest: seq<Message>)
    ensures SentAll([m] + rest) == Sent(m) + SentAll(rest)
  {
    hide Fits;
    assert ([m] + rest)[1..] == rest;
  }

  /** When every request fits, the guest's turn queues a request for each edit. */
  lemma {:induction false} GuestSendsAll(session: Text, base: nat, revision: nat, ops: seq<Operation>)
    requires AllSent(session, base, ops) && AllCarried(session, CLIENT_B, revision, ops)
    requires forall i :: 0 <= i < |ops| ==> NonEmpty(ops[i])
    ensures var sends := GuestSends(session, CLIENT_B, base, ops);
            && |sends| == |ops| && Requests(session, sends, revision) && RequestedOperations(sends) == ops
    decreases |ops|
  {
    hide Fits, Carried, IsRequest, RequestedOperation, RequestedOperations, Request;
    if ops == [] {
      NothingToFold([]);
    } else {
      assert Fits(Request(session, CLIENT_B, base, ops[0]));
      CarriedRest(session, CLIENT_B, revision, ops);
      var first, rest := Request(session, CLIENT_B, base, ops[0]), GuestSends(session, CLIENT_B, base, ops[1..]);
      RequestIsRequest(session, base, revision + 1, ops[0]);
      GuestSendsAll(session, base, revision + 1, ops[1..]);
      assert GuestSends(session, CLIENT_B, base, ops) == [first] + rest;
      RequestsCons(session, first, rest, revision);
      RequestedOperationsCons(first, rest);
    }
  }

  lemma RequestIsRequest(session: Text, base: nat, revision: nat, op: Operation)
    requires Carried(session, CLIENT_B, revision, op)
    ensures var m := Request(session, CLIENT_B, base, op);
            IsRequest(session, m, revision) && IsEdit(session, m) && RequestedOperation(m) == Some(op)
  {
    hide Carried;
    RequestReadsBack(session, CLIENT_B, base, op);
    KeysDiffer();
  }

  lemma RequestsCons(session: Text, first: Message, rest: seq<Message>, revision: nat)
    requires IsRequest(session, first, revision + 1) && Requests(session, rest, revision + 1)
    ensures Requests(session, [first] + rest, revision)
  {
    hide IsRequest;
    forall i | 0 <= i < |[first] + rest|
      ensures IsRequest(session, ([first] + rest)[i], revision + 1 + i)
    {
      if i > 0 {
        assert IsRequest(session, rest[i - 1], revision + 1 + 1 + (i - 1));
      }
    }
  }

  lemma RequestsAppend(session: Text, first: seq<Message>, second: seq<Message>, revision: nat)
    requires Requests(session, first, revision) && Requests(session, second, revision + |first|)
    ensures Requests(session, first + second, revision)
  {
    hide IsRequest;
    forall i | 0 <= i < |first + second|
      ensures IsRequest(session, (first + second)[i], revision + 1 + i)
    {
      if i >= |first| {
        assert IsRequest(session, second[i - |first|], revision + |first| + 1 + (i - |first|));
      }
    }
  }

  lemma RequestsRest(session: Text, messages: seq<Message>, revision: nat)
    requires messages != [] && Requests(session, messages, revision)
    ensures IsRequest(session, messages[0], revision + 1) && Requests(session, messages[1..], revision + 1)
  {
    hide IsRequest;
    forall i | 0 <= i < |messages[1..]|
      ensures IsRequest(session, messages[1..][i], revision + 1 + 1 + i)
    {
      assert IsRequest(session, messages[i + 1], revision + 1 + (i + 1));
    }
  }

  lemma {:induction false} DiffIsNonEmpty(before: Text, after: Text)
    ensures var ops := DiffOperations(before, after);
            |ops| <= 2 && forall i :: 0 <= i < |ops| ==> NonEmpty(ops[i])
  {
  }

  lemma NumberedAppend(session: Text, first: seq<Message>, second: seq<Message>, revision: nat)
    requires Numbered(session, first, revision) && Numbered(session, second, revision + |first|)
    ensures Numbered(session, first + second, revision)
  {
    hide IsApply;
    forall i | 0 <= i < |first + second| ensures IsApply(session, (first + second)[i], revision + 1 + i) {
      if i >= |first| {
        assert IsApply(session, second[i - |first|], revision + |first| + 1 + (i - |first|));
      }
    }
  }

  lemma NumberedRest(session: Text, messages: seq<Message>, revision: nat)
    requires messages != [] && Numbered(session, messages, revision)
    ensures IsApply(session, messages[0], revision + 1) && Numbered(session, messages[1..], revision + 1)
  {
    hide IsApply;
    forall i | 0 <= i < |messages[1..]| ensures IsApply(session, messages[1..][i], revision + 1 + 1 + i) {
      assert IsApply(session, messages[i + 1], revision + 1 + (i + 1));
    }
  }

  lemma ApplyKind(session: Text, m: Message, revision: nat)
    requires IsApply(session, m, revision)
    ensures m.kind == MessageType.Apply
  {
  }

  /** A window takes over the next announced edit of the other side, and confirms its own. */
  lemma OnNextApply(r: Replica, session: Text, m: Message)
    requires IsApply(session, m, r.revision + 1)
    requires m.client != r.localClient ==> Status(r.text, AnnouncedOperation(m).value).Applied?
    ensures OnEvent(r, m)
         == if m.client == r.localClient then Handled(r.(revision := r.revision + 1), Confirmed)
            else Handled(r.(text := Edit(r.text, AnnouncedOperation(m).value), revision := r.revision + 1), Edited)
  {
    hide Edit, Status;
    ApplyForReadsBack(session, m.client, r.revision + 1, AnnouncedOperation(m).value);
  }

  /** The server accepts a queued request, tells both windows and stays connected. */
  lemma ServeRequest(s: ServerState, m: Message)
    requires IsRequest(s.session, m, s.revision + 1) && Status(s.document, RequestedOperation(m).value).Applied?
    ensures var op := RequestedOperation(m).value;
            var apply := ApplyFor(s.session, CLIENT_B, s.revision + 1, op);
            && Serve(s, [], m) == Served(ServerState(s.session, Edit(s.document, op), s.revision + 1), [apply], [apply], true)
            && IsApply(s.session, apply, s.revision + 1) && AnnouncedOperation(apply) == Some(op)
            && apply.client == CLIENT_B && !FromHost(apply)
  {
    hide Fits, Decide, Edit, Status;
    var op := RequestedOperation(m).value;
    ServerAccepts(s.session, s.document, s.revision, CLIENT_B, m.numbers[BASE_REV], op);
    RequestReadsBack(s.session, CLIENT_B, m.numbers[BASE_REV], op);
    ApplyForReadsBack(s.session, CLIENT_B, s.revision + 1, op);
    KeysDiffer();
  }

  lemma OneMessage(m: Message)
    ensures HostOperations([m]) == if FromHost(m) && AnnouncedOperation(m).Some? then [AnnouncedOperation(m).value] else []
    ensures AnnouncedOperations([m]) == if AnnouncedOperation(m).Some? then [AnnouncedOperation(m).value] else []
  {
    hide AnnouncedOperation, FromHost;
    assert [m][1..] == [];
  }

  lemma NothingToFold(text: Text)
    ensures Fold(text, []) == Some(text)
    ensures RequestedOperations([]) == [] && AnnouncedOperations([]) == [] && HostOperations([]) == []
  {
  }

  lemma HostTypesKeepsInv(s: Session, text: Text)
    requires Inv(s) && Allowed(s, HostTypesText(text))
    ensures Inv(Next(s, HostTypesText(text)))
    ensures Next(s, HostTypesText(text)).server.document == text
  {
    hide Fits, HostSends, DiffOperations, Announcements, SentAll, IsApply, Carried, Fold;
    var ops := DiffOperations(s.host.text, text);
    NothingToFold(s.host.text);
    DiffReplays(s.host.text, text);
    DiffIsNonEmpty(s.host.text, text);
    HostSendsAll(s.host, s.server, ops);
    AnnouncementsAreNumbered(s.server.session, s.server.revision, ops);
    var added := Announcements(s.server.session, s.server.revision, ops);
    HostOperationsAppend(s.toGuest, added);
    NumberedAppend(s.server.session, s.toGuest, added, s.guest.revision);
    FoldAppend(s.guest.text, HostOperations(s.toGuest), ops);
    NothingToFold(text);
  }

  lemma GuestTypesKeepsInv(s: Session, text: Text)
    requires Inv(s) && Allowed(s, GuestTypesText(text))
    ensures Inv(Next(s, GuestTypesText(text)))
    ensures ServerSettled(Next(s, GuestTypesText(text))) == Some(text)
  {
    hide Fits, GuestSends, DiffOperations, RequestedOperation, IsApply, IsRequest, Requests, Carried, AllCarried, AllSent, Numbered,
         Fold, AnnouncedOperations;
    var ops := DiffOperations(s.guest.text, text);
    NoHostOperations(s.toGuest);
    DiffReplays(s.guest.text, text);
    DiffIsNonEmpty(s.guest.text, text);
    GuestSendsAll(s.server.session, s.guest.revision, s.server.revision + |s.toServer|, ops);
    var added := GuestSends(s.server.session, CLIENT_B, s.guest.revision, ops);
    RequestedOperationsAppend(s.toServer, added);
    RequestsAppend(s.server.session, s.toServer, added, s.server.revision);
    FoldAppend(s.server.document, RequestedOperations(s.toServer), ops);
    NothingToFold(s.guest.text);
    NothingToFold(text);
  }

  lemma OneIsNumbered(session: Text, m: Message, revision: nat)
    requires IsApply(session, m, revision + 1)
    ensures Numbered(session, [m], revision)
  {
    hide IsApply;
  }

  /** The first queued request is well formed and applies, and the rest still do after it. */
  lemma FirstRequest(session: Text, document: Text, revision: nat, queue: seq<Message>)
    requires queue != [] && Requests(session, queue, revision) && Fold(document, RequestedOperations(queue)).Some?
    ensures IsRequest(session, queue[0], revision + 1) && Requests(session, queue[1..], revision + 1)
    ensures RequestedOperation(queue[0]).Some?
    ensures var op := RequestedOperation(queue[0]).value;
            && Status(document, op).Applied?
            && Fold(Edit(document, op), RequestedOperations(queue[1..])) == Fold(document, RequestedOperations(queue))
  {
    hide RequestedOperations, RequestedOperation, Status, Edit, Fold, Carried;
    RequestsRest(session, queue, revision);
    assert queue == [queue[0]] + queue[1..];
    RequestedOperationsCons(queue[0], queue[1..]);
    FoldFirst(document, RequestedOperation(queue[0]).value, RequestedOperations(queue[1..]));
  }

  lemma ServerReceivesKeepsInv(s: Session)
    requires Inv(s) && s.toServer != []
    ensures var t := Next(s, ServerReceives);
            Inv(t) && t.toServer == s.toServer[1..] && ServerSettled(t) == ServerSettled(s)
  {
    hide Fits, Serve, ApplyFor, Request, IsApply, IsRequest, Requests, Carried, RequestedOperation, RequestedOperations,
         AnnouncedOperation, AnnouncedOperations, HostOperations, FromHost, Fold, Numbered, Status, Edit;
    var m := s.toServer[0];
    FirstRequest(s.server.session, s.server.document, s.server.revision, s.toServer);
    var op := RequestedOperation(m).value;
    ServeRequest(s.server, m);
    var apply := ApplyFor(s.server.session, CLIENT_B, s.server.revision + 1, op);
    OneMessage(apply);
    OneIsNumbered(s.server.session, apply, s.server.revision);
    HostOperationsAppend(s.toGuest, [apply]);
    AnnouncedOperationsAppend(s.hostEvents, [apply]);
    NumberedAppend(s.server.session, s.toGuest, [apply], s.guest.revision);
    NumberedAppend(s.server.session, s.hostEvents, [apply], s.host.revision);
    FoldAppend(s.host.text, AnnouncedOperations(s.hostEvents), [op]);
    FoldOne(s.server.document, op);
  }

  /** The guest follows the first of the numbered announcements on their way to it. */
  lemma GuestFollows(r: Replica, session: Text, messages: seq<Message>)
    requires messages != [] && Numbered(session, messages, r.revision) && r.localClient == CLIENT_B
    requires Fold(r.text, HostOperations(messages)).Some?
    ensures var h, rest := OnEvent(r, messages[0]), messages[1..];
            && !h.reaction.ResyncNeeded? && h.replica == r.(text := h.replica.text, revision := r.revision + 1)
            && Numbered(session, rest, r.revision + 1)
            && Fold(h.replica.text, HostOperations(rest)) == Fold(r.text, HostOperations(messages))
            && (HostOperations(messages) == [] ==> HostOperations(rest) == [])
  {
    hide Fits, OnEvent, ApplyFor, AnnouncedOperation, Fold, Status, Edit;
    var m, rest := messages[0], HostOperations(messages[1..]);
    NumberedRest(session, messages, r.revision);
    ApplyKind(session, m, r.revision + 1);
    hide Numbered;
    KeysDiffer();
    if FromHost(m) {
      var op := AnnouncedOperation(m).value;
      assert HostOperations(messages) == [op] + rest;
      FoldFirst(r.text, op, rest);
    } else {
      assert HostOperations(messages) == rest;
      assert m.client == CLIENT_B;
    }
    OnNextApply(r, session, m);
  }

  lemma GuestReceivesKeepsInv(s: Session)
    requires Inv(s) && s.toGuest != []
    ensures var t := Next(s, GuestReceives);
            && Inv(t) && GuestSettled(t) == GuestSettled(s)
            && t.toServer == s.toServer && t.toGuest == s.toGuest[1..] && t.server == s.server
  {
    hide OnEvent, Serve, Numbered, Requests, Fold, HostOperations, RequestedOperations, AnnouncedOperations;
    GuestFollows(s.guest, s.server.session, s.toGuest);
    assert s.toServer + [] == s.toServer;
  }

  lemma HostReceivesKeepsInv(s: Session)
    requires Inv(s) && s.hostEvents != []
    ensures var t := Next(s, HostReceives);
            && Inv(t) && t.hostEvents == s.hostEvents[1..]
            && t.toServer == s.toServer && t.toGuest == s.toGuest && t.server == s.server && t.guest == s.guest
  {
    hide Fits, OnEvent, ApplyFor, Request, IsRequest, Carried, AnnouncedOperation, Serve, FromHost;
    var m := s.hostEvents[0];
    NumberedRest(s.server.session, s.hostEvents, s.host.revision);
    KeysDiffer();
    OnNextApply(s.host, s.server.session, m);
  }

  lemma NextKeepsInv(s: Session, step: Step)
    requires Inv(s) && Allowed(s, step)
    ensures Inv(Next(s, step))
  {
    hide Inv, Allowed, HostTypes, Serve, OnEvent, GuestSends, DiffOperations;
    match step {
      case HostTypesText(text) => HostTypesKeepsInv(s, text);
      case GuestTypesText(text) => GuestTypesKeepsInv(s, text);
      case ServerReceives => if s.toServer != [] { ServerReceivesKeepsInv(s); }
      case GuestReceives => if s.toGuest != [] { GuestReceivesKeepsInv(s); }
      case HostReceives => if s.hostEvents != [] { HostReceivesKeepsInv(s); }
    }
  }

  ghost function Run(s: Session, steps: seq<Step>): Session
    decreases |steps|
  {
    if steps == [] then s else Run(Next(s, steps[0]), steps[1..])
  }

  ghost predicate RunAllowed(s: Session, steps: seq<Step>)
    decreases |steps|
  {
    steps == [] || (Allowed(s, steps[0]) && RunAllowed(Next(s, steps[0]), steps[1..]))
  }

  lemma {:induction false} RunKeepsInv(s: Session, steps: seq<Step>)
    requires Inv(s) && RunAllowed(s, steps)
    ensures Inv(Run(s, steps))
    decreases |steps|
  {
    hide Inv, Allowed, Next;
    if steps != [] {
      NextKeepsInv(s, steps[0]);
      RunKeepsInv(Next(s, steps[0]), steps[1..]);
    }
  }

  lemma InitInv(s: Session)
    requires Init(s)
    ensures Inv(s)
  {
  }

  predicate Equal(s: Session) {
    && s.host.text == s.server.document == s.guest.text
    && s.host.revision == s.server.revision == s.guest.revision
  }

  /** In every state reached by taking turns, the guest's text with the host's announced edits applied
      equals the server's document with the guest's queued requests applied, and the host's text with
      its pending events applied is the server's document. With nothing on its way, all three texts and
      all three revisions are equal. */
  lemma TurnsConverge(s: Session, steps: seq<Step>)
    requires Init(s) && RunAllowed(s, steps)
    ensures var t := Run(s, steps);
            && GuestSettled(t).Some? && GuestSettled(t) == ServerSettled(t)
            && HostSettled(t) == Some(t.server.document)
            && (Quiet(t) ==> Equal(t))
  {
    InitInv(s);
    RunKeepsInv(s, steps);
  }

  predicate IsReceive(step: Step) {
    step.ServerReceives? || step.GuestReceives? || step.HostReceives?
  }

  lemma RunOneMore(s: Session, first: Step, steps: seq<Step>)
    ensures Run(s, [first] + steps) == Run(Next(s, first), steps)
  {
    assert ([first] + steps)[1..] == steps;
  }

  /** From every state reached by taking turns, receiving what is on its way brings all three texts to
      the text the last typist saw. */
  lemma {:induction false} Settle(s: Session) returns (steps: seq<Step>)
    requires Inv(s)
    ensures forall i :: 0 <= i < |steps| ==> IsReceive(steps[i])
    ensures ServerSettled(s).Some? && Quiet(Run(s, steps)) && Equal(Run(s, steps))
    ensures Run(s, steps).server.document == ServerSettled(s).value
    decreases 3 * |s.toServer| + |s.toGuest| + |s.hostEvents|
  {
    hide Serve, OnEvent, HostTypes, GuestSends, DiffOperations;
    if Quiet(s) {
      steps := [];
    } else {
      var first := SettleStep(s);
      hide Inv, Next, Run, Quiet, Equal, ServerSettled;
      var rest := Settle(Next(s, first));
      RunOneMore(s, first, rest);
      steps := [first] + rest;
    }
  }

  /** One message on its way is received. */
  lemma SettleStep(s: Session) returns (first: Step)
    requires Inv(s) && !Quiet(s)
    ensures var t := Next(s, first);
            && IsReceive(first) && Inv(t) && ServerSettled(t) == ServerSettled(s)
            && 3 * |t.toServer| + |t.toGuest| + |t.hostEvents| < 3 * |s.toServer| + |s.toGuest| + |s.hostEvents|
  {
    hide Serve, OnEvent, HostTypes, GuestSends, DiffOperations, Revisions, Texts, Roles;
    if s.toServer != [] {
      first := ServerReceives;
      ServerReceivesKeepsInv(s);
      ServerReceivesCounts(s);
    } else if s.toGuest != [] {
      first := GuestReceives;
      GuestReceivesKeepsInv(s);
    } else {
      first := HostReceives;
      HostReceivesKeepsInv(s);
    }
  }

  lemma ServerReceivesCounts(s: Session)
    requires Inv(s) && s.toServer != []
    ensures var t := Next(s, ServerReceives);
            |t.toGuest| == |s.toGuest| + 1 && |t.hostEvents| == |s.hostEvents| + 1
  {
    hide Serve, Requests, IsRequest, Carried;
    FirstRequest(s.server.session, s.server.document, s.server.revision, s.toServer);
    ServeRequest(s.server, s.toServer[0]);
  }
}
