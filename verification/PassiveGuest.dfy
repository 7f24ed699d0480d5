/** Safety for a guest that types nothing. The link may lose, repeat and reorder whatever the server
    has emitted: any message of the pool can be delivered at any time, any number of times. */
module PassiveGuest {
  import opened WideText
  import opened DocumentModel
  import opened Protocol
  import opened Chunks
  import opened Server
  import opened Replica
  import opened Reassembly

  /** `history[k]` is the server's document at revision `start + k`; `pool` is every message emitted
      towards the guest; `synced` says that a full sync has been completed. */
  datatype Room = Room(server: ServerState, start: nat, history: seq<Text>, pool: set<Message>,
                       guest: Replica, synced: bool)

  datatype Step =
    | HostEdits(op: Operation)    // typed on the host; announced to the guest
    | OtherEdits(request: Message) // by an earlier guest of the room; announced to that one only
    | Serves                      // the server answers a full-sync request
    | Delivers(m: Message)

  predicate Init(s: Room) {
    && s.history == [s.server.document] && s.start == s.server.revision
    && s.pool == {} && !s.synced
    && s.guest.role == Guest && s.guest.localClient == CLIENT_B && s.guest.chunks == []
  }

  predicate Enabled(s: Room, step: Step) {
    step.Delivers? ==> step.m in s.pool
  }

  function Edited(s: Room, verdict: Verdict, announce: bool): Room {
    match verdict
    case Refused(_) => s
    case Accepted(document, apply) =>
      s.(server := s.server.(document := document, revision := s.server.revision + 1),
         history := s.history + [document],
         pool := s.pool + if announce then {apply} else {})
  }

  function Next(s: Room, step: Step): Room {
    match step
    case HostEdits(op) =>
      Edited(s, Decide(s.server.session, s.server.document, s.server.revision,
                       Request(s.server.session, CLIENT_A, s.server.revision, op)), true)
    case OtherEdits(request) =>
      Edited(s, Decide(s.server.session, s.server.document, s.server.revision, request), false)
    case Serves =>
      var responses := SyncResponses(s.server.session, s.server.document, s.server.revision);
      s.(pool := s.pool + set m | m in responses)
    case Delivers(m) =>
      var h := OnEvent(s.guest, m);
      s.(guest := h.replica, synced := s.synced || h.reaction.Replaced?)
  }

  /** `m` announces the host's edit that led to revision `start + k`. */
  predicate Announces(s: Room, m: Message, k: nat, op: Operation) {
    && 1 <= k < |s.history|
    && m == ApplyFor(s.server.session, CLIENT_A, s.start + k, op)
    && Status(s.history[k - 1], op).Applied?
    && s.history[k] == Edit(s.history[k - 1], op)
  }

  /** `m` is chunk `i` of the document at revision `start + k`. */
  predicate Carries(s: Room, m: Message, k: nat, i: nat) {
    && k < |s.history|
    && i < |Cuts(s.history[k], SYNC_CHUNK_CHARS)|
    && m == SyncResponses(s.server.session, s.history[k], s.start + k)[i]
  }

  ghost predicate Known(s: Room, m: Message) {
    (exists k: nat, op: Operation :: Announces(s, m, k, op)) || (exists k: nat, i: nat :: Carries(s, m, k, i))
  }

  predicate HistoryOk(s: Room) {
    && s.history != []
    && s.server.revision == s.start + |s.history| - 1
    && s.server.document == s.history[|s.history| - 1]
  }

  /** A collection in progress collects one of the past documents. */
  predicate CollectionOk(s: Room) {
    s.guest.chunks == []
    || (s.start <= s.guest.syncRevision < s.start + |s.history|
        && Collects(s.guest, s.history[s.guest.syncRevision - s.start], SYNC_CHUNK_CHARS))
  }

  /** The guest shows the server's document of exactly the revision it claims. */
  predicate Exact(s: Room) {
    s.start <= s.guest.revision < s.start + |s.history| && s.guest.text == s.history[s.guest.revision - s.start]
  }

  ghost predicate Inv(s: Room) {
    && HistoryOk(s)
    && (forall m :: m in s.pool ==> Known(s, m))
    && s.guest.role == Guest && s.guest.localClient == CLIENT_B
    && CollectionOk(s)
    && (s.synced ==> Exact(s))
  }

  lemma KnownPersists(s: Room, t: Room, m: Message)
    requires Known(s, m) && s.history <= t.history && t.start == s.start && t.server.session == s.server.session
    ensures Known(t, m)
  {
    hide ApplyFor, SyncResponses, Status, Edit, Cuts;
    if k: nat, op: Operation :| Announces(s, m, k, op) {
      assert t.history[k - 1] == s.history[k - 1] && t.history[k] == s.history[k];
      assert Announces(t, m, k, op);
    } else {
      var k: nat, i: nat :| Carries(s, m, k, i);
      assert t.history[k] == s.history[k];
      assert Carries(t, m, k, i);
    }
  }

  lemma EditedKeepsInv(s: Room, verdict: Verdict, announce: bool)
    requires Inv(s)
    requires verdict.Accepted? && announce ==>
             exists op :: verdict.apply == ApplyFor(s.server.session, CLIENT_A, s.server.revision + 1, op)
                       && Status(s.server.document, op).Applied? && verdict.document == Edit(s.server.document, op)
    ensures Inv(Edited(s, verdict, announce))
  {
    var t := Edited(s, verdict, announce);
    if verdict.Accepted? {
      forall m | m in t.pool ensures Known(t, m) {
        if m in s.pool {
          KnownPersists(s, t, m);
        } else {
          var op :| verdict.apply == ApplyFor(s.server.session, CLIENT_A, s.server.revision + 1, op)
                    && Status(s.server.document, op).Applied? && verdict.document == Edit(s.server.document, op);
          assert Announces(t, m, |s.history|, op);
        }
      }
    }
  }

  lemma HostEditsKeepInv(s: Room, op: Operation)
    requires Inv(s)
    ensures Inv(Next(s, HostEdits(op)))
  {
    RequestReadsBack(s.server.session, CLIENT_A, s.server.revision, op);
    EditedKeepsInv(s, Decide(s.server.session, s.server.document, s.server.revision,
                             Request(s.server.session, CLIENT_A, s.server.revision, op)), true);
  }

  lemma ResponseIsKnown(s: Room, i: nat)
    requires HistoryOk(s) && i < |SyncResponses(s.server.session, s.server.document, s.server.revision)|
    ensures Known(s, SyncResponses(s.server.session, s.server.document, s.server.revision)[i])
  {
    hide Cuts, ChunkMessage;
    assert Carries(s, SyncResponses(s.server.session, s.server.document, s.server.revision)[i], |s.history| - 1, i);
  }

  lemma ServesKeepsInv(s: Room)
    requires Inv(s)
    ensures Inv(Next(s, Serves))
  {
    hide Known, SyncResponses, Collects;
    var t := Next(s, Serves);
    var responses := SyncResponses(s.server.session, s.server.document, s.server.revision);
    forall m | m in t.pool ensures Known(t, m) {
      if m !in s.pool {
        var i :| 0 <= i < |responses| && responses[i] == m;
        ResponseIsKnown(s, i);
      }
      KnownPersists(s, t, m);
    }
  }

  /** What an announcement does to a guest that is exact: stale, the next edit, or a gap. */
  lemma AnnouncementOnExact(s: Room, m: Message, k: nat, op: Operation)
    requires Inv(s) && Announces(s, m, k, op)
    ensures var h := OnEvent(s.guest, m);
            && m.GetNumber(REV) == Some(s.start + k)
            && h.replica == s.guest.(text := h.replica.text, revision := h.replica.revision)
            && h.reaction != Replaced
            && (Exact(s) ==>
                && Exact(s.(guest := h.replica))
                && (h.reaction.ResyncNeeded? <==> s.start + k > s.guest.revision + 1)
                && (h.reaction.Edited? <==> s.start + k == s.guest.revision + 1))
  {
    ApplyForReadsBack(s.server.session, CLIENT_A, s.start + k, op);
    KeysDiffer();
  }

  lemma CarriedOnAny(s: Room, m: Message, k: nat, i: nat)
    requires Inv(s) && Carries(s, m, k, i)
    ensures var h := OnEvent(s.guest, m);
            && !h.reaction.ResyncNeeded?
            && h.replica.role == Guest && h.replica.localClient == CLIENT_B
            && CollectionOk(s.(guest := h.replica))
            && (h.reaction.Replaced? ==> Exact(s.(guest := h.replica)))
            && (Exact(s) ==> Exact(s.(guest := h.replica)))
  {
    ResponseDelivers(s.guest, s.server.session, s.history[k], s.start + k, i);
    DeliverIsSound(s.guest, s.history[k], SYNC_CHUNK_CHARS, s.start + k, i);
  }

  lemma DeliversKeepsInv(s: Room, m: Message)
    requires Inv(s) && m in s.pool
    ensures Inv(Next(s, Delivers(m)))
  {
    hide ApplyFor, SyncResponses, Status, Edit, Cuts, OnEvent;
    var t := Next(s, Delivers(m));
    forall n | n in t.pool ensures Known(t, n) {
      KnownPersists(s, t, n);
    }
    assert Known(s, m);
    if k: nat, op: Operation :| Announces(s, m, k, op) {
      AnnouncementOnExact(s, m, k, op);
    } else {
      var k: nat, i: nat :| Carries(s, m, k, i);
      CarriedOnAny(s, m, k, i);
    }
  }

  lemma NextKeepsInv(s: Room, step: Step)
    requires Inv(s) && Enabled(s, step)
    ensures Inv(Next(s, step))
  {
    match step {
      case HostEdits(op) => HostEditsKeepInv(s, op);
      case OtherEdits(request) =>
        EditedKeepsInv(s, Decide(s.server.session, s.server.document, s.server.revision, request), false);
      case Serves => ServesKeepsInv(s);
      case Delivers(m) => DeliversKeepsInv(s, m);
    }
  }

  function Run(s: Room, steps: seq<Step>): Room
    decreases |steps|
  {
    if steps == [] then s else Run(Next(s, steps[0]), steps[1..])
  }

  predicate RunEnabled(s: Room, steps: seq<Step>)
    decreases |steps|
  {
    steps == [] || (Enabled(s, steps[0]) && RunEnabled(Next(s, steps[0]), steps[1..]))
  }

  lemma {:induction false} RunKeepsInv(s: Room, steps: seq<Step>)
    requires Inv(s) && RunEnabled(s, steps)
    ensures Inv(Run(s, steps))
    decreases |steps|
  {
    if steps != [] {
      NextKeepsInv(s, steps[0]);
      RunKeepsInv(Next(s, steps[0]), steps[1..]);
    }
  }

  lemma InitInv(s: Room)
    requires Init(s)
    ensures Inv(s)
  {
  }

  /** Over every run: once a full sync has been completed, the guest's text is the server's document at
      exactly the guest's revision; it is the current document whenever the revisions are equal. */
  lemma PassiveGuestIsExact(s: Room, steps: seq<Step>)
    requires Init(s) && RunEnabled(s, steps)
    ensures var t := Run(s, steps);
            && (t.synced ==> Exact(t))
            && (t.synced && t.guest.revision == t.server.revision ==> t.guest.text == t.server.document)
  {
    InitInv(s);
    RunKeepsInv(s, steps);
  }

  /** Over every run: a guest that has synced asks for another full sync only for an APPLY that skips
      a revision, and for every such APPLY. */
  lemma ResyncOnlyOnGap(s: Room, steps: seq<Step>, m: Message)
    requires Init(s) && RunEnabled(s, steps)
    requires var t := Run(s, steps); t.synced && m in t.pool
    ensures var t := Run(s, steps);
            && REV in m.numbers
            && (OnEvent(t.guest, m).reaction.ResyncNeeded?
                <==> m.kind == MessageType.Apply && m.numbers[REV] > t.guest.revision + 1)
  {
    InitInv(s);
    RunKeepsInv(s, steps);
    var t := Run(s, steps);
    assert Known(t, m);
    if k: nat, op: Operation :| Announces(t, m, k, op) {
      AnnouncementOnExact(t, m, k, op);
      ApplyForReadsBack(t.server.session, CLIENT_A, t.start + k, op);
    } else {
      var k: nat, i: nat :| Carries(t, m, k, i);
      CarriedOnAny(t, m, k, i);
      ResponseDelivers(t.guest, t.server.session, t.history[k], t.start + k, i);
    }
  }
}
