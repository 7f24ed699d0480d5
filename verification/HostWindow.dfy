/** The host's own window over every run: it may type whatever and whenever it likes, the guest too, and events
    may wait as long as they like. What it makes of the announcements that wait, and how the first one it
    cannot apply restores it (client/webview_window.cpp ApplySyncApply and RequestFullSync). */
module HostWindow {
  import opened WideText
  import opened DocumentModel
  import opened EditorDiff
  import opened Protocol
  import opened JsonPrinter
  import opened Server
  import opened Replica
  import opened TurnTaking

  // ---- One announcement ----

  /** An announcement with all the fields a window asks for. */
  predicate IsAnnouncement(m: Message) {
    m.kind == MessageType.Apply && REV in m.numbers && POS in m.numbers && OP in m.strings
  }

  /** The announcement is the next in line and its operation applies. */
  predicate Follows(r: Replica, m: Message)
    requires IsAnnouncement(m)
  {
    && m.numbers[REV] == r.revision + 1
    && AnnouncedOperation(m).Some? && Status(r.text, AnnouncedOperation(m).value).Applied?
  }

  /** Any window: an announcement of its own above its revision only raises the revision, whatever the gap. */
  lemma OwnRaises(r: Replica, m: Message)
    requires IsAnnouncement(m) && m.client == r.localClient && m.numbers[REV] > r.revision
    ensures OnEvent(r, m).replica == r.(revision := m.numbers[REV]) && OnEvent(r, m).reaction == Confirmed
  {
    hide AnnouncedOperation, Status;
  }

  /** The host's window and the next event that waits for it. An old one and its own leave the text alone; one
      that follows is applied; after any other the window shows the server's document at its revision. */
  lemma HostReceivesOne(s: Session)
    requires s.host.role == Host && s.hostEvents != [] && IsAnnouncement(s.hostEvents[0])
    ensures var m, t := s.hostEvents[0], Next(s, HostReceives);
            && t == s.(host := t.host, hostEvents := s.hostEvents[1..])
            && t.host == s.host.(text := t.host.text, revision := t.host.revision)
            && (if m.numbers[REV] <= s.host.revision then t.host == s.host
                else if m.client == s.host.localClient then t.host.text == s.host.text && t.host.revision == m.numbers[REV]
                else if Follows(s.host, m) then
                  t.host.text == Edit(s.host.text, AnnouncedOperation(m).value) && t.host.revision == m.numbers[REV]
                else t.host.text == s.server.document && t.host.revision == s.server.revision)
  {
    hide AnnouncedOperation, Status, Edit;
  }

  /** The guest's window and the next message on its way to it, likewise. It cannot repair itself: after an
      announcement it cannot follow it is as it was, and asks the server for all from its revision on. */
  lemma GuestReceivesOne(s: Session)
    requires s.guest.role == Guest && s.toGuest != [] && IsAnnouncement(s.toGuest[0])
    ensures var m, t := s.toGuest[0], Next(s, GuestReceives);
            && t == s.(guest := t.guest, toGuest := s.toGuest[1..], toServer := t.toServer)
            && t.guest == s.guest.(text := t.guest.text, revision := t.guest.revision)
            && (if m.numbers[REV] <= s.guest.revision then t.guest == s.guest && t.toServer == s.toServer
                else if m.client == s.guest.localClient then
                  t.guest.text == s.guest.text && t.guest.revision == m.numbers[REV] && t.toServer == s.toServer
                else if Follows(s.guest, m) then
                  && t.guest.text == Edit(s.guest.text, AnnouncedOperation(m).value) && t.guest.revision == m.numbers[REV]
                  && t.toServer == s.toServer
                else t.guest == s.guest && Asks(s, t))
  {
    hide AnnouncedOperation, Status, Edit, Fits;
    assert s.toServer + [] == s.toServer;
  }

  /** A request for a full sync, under the guest's revision, has been sent if it could be. */
  ghost predicate Asks(s: Session, t: Session) {
    t.toServer == s.toServer
    || (s.alive && |t.toServer| == |s.toServer| + 1 && t.toServer[..|s.toServer|] == s.toServer
        && var m := t.toServer[|s.toServer|];
           && m.kind == MessageType.SyncRequest && m.session == s.server.session && m.client == CLIENT_B
           && m.GetNumber(CURRENT_REV) == Some(s.guest.revision))
  }

  /** An announcement whose operation is none of the two, or lacks its field, is not followed by any window. */
  lemma UnknownOperation(r: Replica, m: Message)
    requires IsAnnouncement(m) && m.numbers[REV] > r.revision && m.client != r.localClient
    requires || (m.strings[OP] != NAME_INSERT && m.strings[OP] != NAME_DELETE)
             || (m.strings[OP] == NAME_INSERT && TEXT !in m.strings) || (m.strings[OP] == NAME_DELETE && LEN !in m.numbers)
    ensures OnEvent(r, m) == Handled(r, ResyncNeeded)
  {
    KeysDiffer();
  }

  /** What is typed is shown by the window it is typed in, whether it goes through or not; a text over the document
      limit is not taken over and changes nothing at all. */
  lemma TypedIsShown(s: Session, text: Text)
    ensures |text| > 5242880 ==> Next(s, HostTypesText(text)) == s && Next(s, GuestTypesText(text)) == s
    ensures |text| <= 5242880 ==>
              Next(s, HostTypesText(text)).host.text == text && Next(s, GuestTypesText(text)).guest.text == text
  {
    hide HostSends, DiffOperations, GuestSends;
    NothingIsSent();
    assert s.toGuest + [] == s.toGuest;
  }

  lemma NothingIsSent()
    ensures SentAll([]) == []
  {
  }

  /** After the end of the connection nothing is sent any more and the server changes only by the host's own
      typing; what was sent to the guest still arrives, what was sent to the server is lost. */
  lemma NothingIsSentAfterTheEnd(s: Session, step: Step)
    requires !s.alive
    ensures var t := Next(s, step);
            && !t.alive
            && t.toServer == (if step.ServerReceives? && s.toServer != [] then s.toServer[1..] else s.toServer)
            && t.toGuest == (if step.GuestReceives? && s.toGuest != [] then s.toGuest[1..] else s.toGuest)
            && (!step.HostTypesText? ==> t.server == s.server)
  {
    hide OnEvent, Serve, HostTypes, GuestSends, DiffOperations, Requested, Repaired;
    assert s.toServer + [] == s.toServer && s.toGuest + [] == s.toGuest;
  }

  // ---- Runs ----

  function Rev(m: Message): nat {
    if REV in m.numbers then m.numbers[REV] else 0
  }

  /** The waiting events without the old ones at their head. */
  function Live(messages: seq<Message>, revision: nat): seq<Message> {
    if messages == [] || Rev(messages[0]) > revision then messages else Live(messages[1..], revision)
  }

  /** An announcement of an edit of the guest's, already made. */
  predicate Known(session: Text, m: Message, revision: nat) {
    IsApply(session, m, Rev(m)) && m.client == CLIENT_B && Rev(m) <= revision
  }

  /** Every waiting event is old or in line: those above the window's revision are numbered from there to the
      server's revision without a gap. */
  ghost predicate InLine(t: Session) {
    && t.host.role == Host && t.host.localClient == CLIENT_A
    && (forall m :: m in t.hostEvents ==> Known(t.server.session, m, t.server.revision))
    && var live := Live(t.hostEvents, t.host.revision);
       Numbered(t.server.session, live, t.host.revision) && t.server.revision == t.host.revision + |live|
  }

  lemma {:induction false} LiveIsSuffix(messages: seq<Message>, revision: nat)
    ensures var live := Live(messages, revision);
            && |live| <= |messages| && live == messages[|messages| - |live|..]
            && forall i :: 0 <= i < |messages| - |live| ==> Rev(messages[i]) <= revision
  {
    hide Rev;
    if messages != [] && Rev(messages[0]) <= revision {
      LiveIsSuffix(messages[1..], revision);
    }
  }

  lemma {:induction false} NoneLive(messages: seq<Message>, revision: nat)
    requires forall m :: m in messages ==> Rev(m) <= revision
    ensures Live(messages, revision) == []
  {
    hide Rev;
    if messages != [] {
      NoneLive(messages[1..], revision);
    }
  }

  lemma {:induction false} LiveAppend(messages: seq<Message>, m: Message, revision: nat)
    requires Rev(m) > revision
    ensures Live(messages + [m], revision) == Live(messages, revision) + [m]
  {
    hide Rev;
    if messages == [] {
      assert messages + [m] == [m];
    } else {
      assert (messages + [m])[1..] == messages[1..] + [m];
      if Rev(messages[0]) <= revision {
        LiveAppend(messages[1..], m, revision);
      }
    }
  }

  lemma ApplyHasRevision(session: Text, m: Message, revision: nat)
    requires IsApply(session, m, revision)
    ensures Rev(m) == revision && IsAnnouncement(m) && AnnouncedOperation(m).Some?
  {
    KeysDiffer();
  }

  lemma {:induction false} HostSendsCounts(r: Replica, s: ServerState, ops: seq<Operation>)
    ensures var turn := HostSends(r, s, ops);
            && turn.replica == r.(text := turn.replica.text, revision := turn.replica.revision)
            && turn.server.session == s.session && turn.server.revision >= s.revision
            && (if ops == [] then turn.replica == r && turn.server == s else turn.replica.revision == turn.server.revision)
    decreases |ops|
  {
    hide Decide;
    if ops != [] {
      var first := HostSendsOne(r, s, ops[0]);
      HostSendsCounts(first.replica, first.server, ops[1..]);
    }
  }

  lemma TypingKeepsLine(t: Session, text: Text)
    requires InLine(t)
    ensures InLine(Next(t, HostTypesText(text)))
  {
    hide HostSends, DiffOperations, SentAll, IsApply, Rev, Live;
    var u := Next(t, HostTypesText(text));
    if |text| <= MAX_DOCUMENT_CHARS {
      HostSendsCounts(t.host, t.server, DiffOperations(t.host.text, text));
      if u.server.revision != t.server.revision || u.host.revision != t.host.revision {
        NoneLive(u.hostEvents, u.host.revision);
      }
    }
  }

  /** Whatever the server is sent, it announces at most one edit of the guest's, under the next revision. */
  lemma ServeAnnounces(s: ServerState, m: Message)
    ensures var served := Serve(s, [], m);
            || (served.events == [] && served.state == s)
            || (|served.events| == 1 && served.state.session == s.session && served.state.revision == s.revision + 1
                && IsApply(s.session, served.events[0], s.revision + 1) && served.events[0].client == CLIENT_B)
  {
    hide Fits, Fitting, SyncResponses, IsApply, AnnouncedOperation, RequestedOperation, RequestStatus, Edit, ApplyFor;
    if m.session == s.session && (m.kind == MessageType.Insert || m.kind == MessageType.Delete) && m.client == CLIENT_B {
      if Decide(s.session, s.document, s.revision, m).Accepted? {
        var op := RequestedOperation(m).value;
        ApplyForReadsBack(s.session, m.client, s.revision + 1, op);
        AnnouncedIsApply(s.session, s.revision + 1, op);
      }
    }
  }

  lemma AnnouncedIsApply(session: Text, revision: nat, op: Operation)
    ensures var m := ApplyFor(session, CLIENT_B, revision, op); IsApply(session, m, revision) && m.client == CLIENT_B
  {
    ApplyForReadsBack(session, CLIENT_B, revision, op);
  }

  lemma ServingKeepsLine(t: Session)
    requires InLine(t)
    ensures InLine(Next(t, ServerReceives))
  {
    hide Serve, IsApply, Live, Rev, Numbered;
    if t.toServer != [] && t.alive {
      ServeAnnounces(t.server, t.toServer[0]);
      var served := Serve(t.server, [], t.toServer[0]);
      if served.events == [] {
        assert t.hostEvents + [] == t.hostEvents;
      } else {
        var m := served.events[0];
        ApplyHasRevision(t.server.session, m, t.server.revision + 1);
        LiveAppend(t.hostEvents, m, t.host.revision);
        OneIsNumbered(t.server.session, m, t.server.revision);
        NumberedAppend(t.server.session, Live(t.hostEvents, t.host.revision), [m], t.host.revision);
        assert served.events == [m];
      }
    }
  }

  lemma OldEvent(t: Session)
    requires InLine(t) && |Live(t.hostEvents, t.host.revision)| < |t.hostEvents|
    ensures var u := Next(t, HostReceives);
            && InLine(u) && u == t.(hostEvents := t.hostEvents[1..])
            && Live(u.hostEvents, u.host.revision) == Live(t.hostEvents, t.host.revision)
  {
    hide IsApply, Numbered, Next, OnEvent;
    var m := t.hostEvents[0];
    assert Known(t.server.session, m, t.server.revision);
    ApplyHasRevision(t.server.session, m, Rev(m));
    HostReceivesOne(t);
  }

  lemma {:induction false} NumberedIsLive(session: Text, messages: seq<Message>, revision: nat)
    requires Numbered(session, messages, revision)
    ensures Live(messages, revision) == messages
  {
    hide IsApply, Rev;
    if messages != [] {
      NumberedRest(session, messages, revision);
      ApplyHasRevision(session, messages[0], revision + 1);
    }
  }

  lemma LiveEffect(t: Session)
    requires t.host.role == Host && t.host.localClient == CLIENT_A && t.hostEvents != [] && t.hostEvents[0].client == CLIENT_B
    requires IsApply(t.server.session, t.hostEvents[0], t.host.revision + 1)
    ensures AnnouncedOperation(t.hostEvents[0]).Some?
    ensures var op, u := AnnouncedOperation(t.hostEvents[0]).value, Next(t, HostReceives);
            u == t.(hostEvents := t.hostEvents[1..],
                    host := if Status(t.host.text, op).Applied? then
                              t.host.(text := Edit(t.host.text, op), revision := t.host.revision + 1)
                            else t.host.(text := t.server.document, revision := t.server.revision))
  {
    hide IsApply, Status, Edit, AnnouncedOperation, Next, OnEvent, Rev;
    ApplyHasRevision(t.server.session, t.hostEvents[0], t.host.revision + 1);
    RevIs(t.hostEvents[0]);
    AuthorsDiffer();
    HostReceivesOne(t);
  }

  /** The first event that is not old is taken over, or it restores the window. */
  lemma LiveEvent(t: Session)
    requires InLine(t) && t.hostEvents != [] && |Live(t.hostEvents, t.host.revision)| == |t.hostEvents|
    ensures AnnouncedOperation(t.hostEvents[0]).Some?
    ensures var op, u := AnnouncedOperation(t.hostEvents[0]).value, Next(t, HostReceives);
            && InLine(u) && u == t.(host := u.host, hostEvents := t.hostEvents[1..])
            && (if Status(t.host.text, op).Applied? then
                  && u.host == t.host.(text := Edit(t.host.text, op), revision := t.host.revision + 1)
                  && Live(u.hostEvents, u.host.revision) == t.hostEvents[1..]
                else
                  && u.host == t.host.(text := t.server.document, revision := t.server.revision)
                  && Live(u.hostEvents, u.host.revision) == [])
  {
    hide IsApply, Status, Edit, AnnouncedOperation, Numbered, Next, OnEvent, Live, Rev;
    LiveIsSuffix(t.hostEvents, t.host.revision);
    assert Live(t.hostEvents, t.host.revision) == t.hostEvents;
    NumberedRest(t.server.session, t.hostEvents, t.host.revision);
    assert Known(t.server.session, t.hostEvents[0], t.server.revision);
    LiveEffect(t);
    NumberedIsLive(t.server.session, t.hostEvents[1..], t.host.revision + 1);
    assert forall m :: m in t.hostEvents[1..] ==> Known(t.server.session, m, t.server.revision);
    NoneLive(t.hostEvents[1..], t.server.revision);
    NothingNumbered(t.server.session, t.server.revision);
  }

  lemma RevIs(m: Message)
    requires IsAnnouncement(m)
    ensures Rev(m) == m.numbers[REV]
  {
  }

  lemma AuthorsDiffer()
    ensures CLIENT_A != CLIENT_B
  {
  }

  lemma NothingNumbered(session: Text, revision: nat)
    ensures Numbered(session, [], revision)
  {
  }

  lemma NextKeepsLine(t: Session, step: Step)
    requires InLine(t)
    ensures InLine(Next(t, step))
  {
    match step {
      case HostTypesText(text) => TypingKeepsLine(t, text);
      case ServerReceives => ServingKeepsLine(t);
      case HostReceives =>
        if t.hostEvents != [] {
          LiveIsSuffix(t.hostEvents, t.host.revision);
          hide InLine, Next, Live;
          if |Live(t.hostEvents, t.host.revision)| < |t.hostEvents| {
            OldEvent(t);
          } else {
            LiveEvent(t);
          }
        }
      case GuestTypesText(_) => hide Live, Numbered, Known, DiffOperations, GuestSends;
      case GuestReceives => hide Live, Numbered, Known, OnEvent, Requested;
    }
  }

  lemma {:induction false} LineIsKept(s: Session, steps: seq<Step>)
    requires InLine(s)
    ensures InLine(Run(s, steps))
    decreases |steps|
  {
    hide InLine, Next;
    if steps != [] {
      NextKeepsLine(s, steps[0]);
      LineIsKept(Next(s, steps[0]), steps[1..]);
    }
  }

  function Receives(n: nat): seq<Step> {
    if n == 0 then [] else [HostReceives] + Receives(n - 1)
  }

  /** The host's window after the next `n` events: the old ones leave it alone, and it applies those in line
      until one does not apply. From then on it is at the server's document and revision. */
  ghost function After(t: Session, n: nat): Replica
    requires InLine(t) && n <= |t.hostEvents|
  {
    var live := Live(t.hostEvents, t.host.revision);
    LiveIsSuffix(t.hostEvents, t.host.revision);
    var stale := |t.hostEvents| - |live|;
    if n <= stale then t.host
    else
      var shown := Fold(t.host.text, AnnouncedOperations(live[..n - stale]));
      if shown.Some? then t.host.(text := shown.value, revision := t.host.revision + n - stale)
      else t.host.(text := t.server.document, revision := t.server.revision)
  }

  lemma OldOne(t: Session, n: nat)
    requires InLine(t) && 0 < n <= |t.hostEvents| && |Live(t.hostEvents, t.host.revision)| < |t.hostEvents|
    ensures var u := Next(t, HostReceives);
            && InLine(u) && u == t.(host := u.host, hostEvents := t.hostEvents[1..]) && After(u, n - 1) == After(t, n)
  {
    hide InLine, Next, Live, After;
    OldEvent(t);
    AfterStale(t, Next(t, HostReceives), n);
  }

  lemma LiveOne(t: Session, n: nat)
    requires InLine(t) && 0 < n <= |t.hostEvents| && |Live(t.hostEvents, t.host.revision)| == |t.hostEvents|
    ensures var u := Next(t, HostReceives);
            && InLine(u) && u == t.(host := u.host, hostEvents := t.hostEvents[1..]) && After(u, n - 1) == After(t, n)
  {
    hide InLine, Next, Live, After, AnnouncedOperation, Status, Edit;
    LiveEvent(t);
    AfterLive(t, Next(t, HostReceives), n);
  }

  lemma OneEvent(t: Session, n: nat)
    requires InLine(t) && 0 < n <= |t.hostEvents|
    ensures var u := Next(t, HostReceives);
            && InLine(u) && u == t.(host := u.host, hostEvents := t.hostEvents[1..]) && After(u, n - 1) == After(t, n)
  {
    hide InLine, Next, Live, After;
    LiveIsSuffix(t.hostEvents, t.host.revision);
    if |Live(t.hostEvents, t.host.revision)| < |t.hostEvents| {
      OldOne(t, n);
    } else {
      LiveOne(t, n);
    }
  }

  lemma RunReceives(t: Session, n: nat)
    requires n > 0
    ensures Run(t, Receives(n)) == Run(Next(t, HostReceives), Receives(n - 1))
  {
    hide Next, Run;
    RunOneMore(t, HostReceives, Receives(n - 1));
  }

  lemma RunNothing(t: Session)
    requires InLine(t)
    ensures Run(t, Receives(0)) == t && After(t, 0) == t.host && t.hostEvents[0..] == t.hostEvents
  {
    hide InLine, Live, Next;
    LiveIsSuffix(t.hostEvents, t.host.revision);
  }

  lemma {:induction false} HostReceivesMany(t: Session, n: nat)
    requires InLine(t) && n <= |t.hostEvents|
    ensures Run(t, Receives(n)) == t.(host := After(t, n), hostEvents := t.hostEvents[n..])
    decreases n
  {
    hide Next, Run, Receives, After, InLine;
    if n == 0 {
      RunNothing(t);
    } else {
      OneEvent(t, n);
      RunReceives(t, n);
      HostReceivesMany(Next(t, HostReceives), n - 1);
      assert t.hostEvents[1..][n - 1..] == t.hostEvents[n..];
    }
  }

  lemma AfterStale(t: Session, u: Session, n: nat)
    requires InLine(t) && InLine(u) && 0 < n <= |t.hostEvents| && |Live(t.hostEvents, t.host.revision)| < |t.hostEvents|
    requires u == t.(hostEvents := t.hostEvents[1..]) && Live(u.hostEvents, u.host.revision) == Live(t.hostEvents, t.host.revision)
    ensures After(u, n - 1) == After(t, n)
  {
    hide InLine, Live, Fold, AnnouncedOperations;
  }

  lemma AfterLive(t: Session, u: Session, n: nat)
    requires InLine(t) && InLine(u) && 0 < n <= |t.hostEvents| && |Live(t.hostEvents, t.host.revision)| == |t.hostEvents|
    requires AnnouncedOperation(t.hostEvents[0]).Some? && u == t.(host := u.host, hostEvents := t.hostEvents[1..])
    requires var op := AnnouncedOperation(t.hostEvents[0]).value;
             if Status(t.host.text, op).Applied? then
               && u.host == t.host.(text := Edit(t.host.text, op), revision := t.host.revision + 1)
               && Live(u.hostEvents, u.host.revision) == t.hostEvents[1..]
             else
               && u.host == t.host.(text := t.server.document, revision := t.server.revision)
               && Live(u.hostEvents, u.host.revision) == []
    ensures After(u, n - 1) == After(t, n)
  {
    hide InLine, Status, Edit, AnnouncedOperation, Live, Fold, AnnouncedOperations;
    var op, rest := AnnouncedOperation(t.hostEvents[0]).value, t.hostEvents[1..][..n - 1];
    LiveIsSuffix(t.hostEvents, t.host.revision);
    assert t.hostEvents[..n] == [t.hostEvents[0]] + rest;
    AnnouncedOperationsCons(t.hostEvents[0], rest);
    FoldFirst(t.host.text, op, AnnouncedOperations(rest));
    NothingToFold(u.host.text);
    assert t.hostEvents[1..][..0] == [];
  }

  lemma InitIsInLine(s: Session)
    requires Init(s)
    ensures InLine(s)
  {
  }

  /** Over every run, whoever types what and when: once the host has received the events that wait, its window
      is at the server's revision. It shows its own text with the announcements in line applied or, if one of
      them does not apply, the server's document. */
  lemma HostComesBack(s: Session, steps: seq<Step>)
    requires Init(s)
    ensures var t := Run(s, steps);
            var u := Run(t, Receives(|t.hostEvents|));
            var shown := Fold(t.host.text, AnnouncedOperations(Live(t.hostEvents, t.host.revision)));
            && u == t.(hostEvents := [], host := u.host)
            && u.host.revision == t.server.revision
            && u.host.text == if shown.Some? then shown.value else t.server.document
  {
    hide Init, Next, AnnouncedOperations, Run, Receives, Fold, Numbered, Live, Known;
    InitIsInLine(s);
    LineIsKept(s, steps);
    var t := Run(s, steps);
    var live := Live(t.hostEvents, t.host.revision);
    HostReceivesMany(t, |t.hostEvents|);
    LiveIsSuffix(t.hostEvents, t.host.revision);
    assert live[..|live|] == live;
    NothingToFold(t.host.text);
  }

  lemma FoldStops(text: Text, first: seq<Operation>, second: seq<Operation>)
    requires Fold(text, first).None?
    ensures Fold(text, first + second).None?
  {
    FoldAppend(text, first, second);
  }

  /** The first announcement in line that does not apply restores the window, and so it stays. */
  lemma FirstFailureRestores(s: Session, steps: seq<Step>, n: nat, k: nat)
    requires Init(s)
    requires var t := Run(s, steps);
             var live := Live(t.hostEvents, t.host.revision);
             && n < |live| <= |t.hostEvents| && |t.hostEvents| - |live| + n < k <= |t.hostEvents|
             && Fold(t.host.text, AnnouncedOperations(live[..n + 1])).None?
    ensures var t := Run(s, steps);
            var u := Run(t, Receives(k));
            u.host.text == t.server.document && u.host.revision == t.server.revision
  {
    hide Init, Next, AnnouncedOperations, Run, Receives, Fold, Numbered, Live, Known;
    InitIsInLine(s);
    LineIsKept(s, steps);
    var t := Run(s, steps);
    var live := Live(t.hostEvents, t.host.revision);
    HostReceivesMany(t, k);
    LiveIsSuffix(t.hostEvents, t.host.revision);
    var m := k - (|t.hostEvents| - |live|);
    assert live[..m] == live[..n + 1] + live[n + 1..m];
    AnnouncedOperationsAppend(live[..n + 1], live[n + 1..m]);
    FoldStops(t.host.text, AnnouncedOperations(live[..n + 1]), AnnouncedOperations(live[n + 1..m]));
  }
}
