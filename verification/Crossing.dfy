/** Host and guest each report one new text before hearing of the other (client/webview_window.cpp
    HandleWebMessage, ApplySyncApply; client/sync_server.cpp HandleEditMessage). The server takes the host's
    edits first and then what it can of the guest's, at the positions the guest saw; the guest applies the
    host's edits to its own text, at the positions the host saw. */
module Crossing {
  import opened WideText
  import opened DocumentModel
  import opened EditorDiff
  import opened Protocol
  import opened JsonPrinter
  import opened Chunks
  import opened Server
  import opened Replica
  import opened TurnTaking
  import opened SequencerRuns
  import opened FrameSizes
  import opened SurrogateCuts
  import opened Receiving

  /** The guest's edits whose requests reach the server. */
  ghost function SentOperations(session: Text, base: nat, ops: seq<Operation>): seq<Operation> {
    if ops == [] then []
    else
      (if NonEmpty(ops[0]) && Fits(Request(session, CLIENT_B, base, ops[0])) then [ops[0]] else [])
      + SentOperations(session, base, ops[1..])
  }

  lemma {:induction false} GuestSendsThose(session: Text, base: nat, ops: seq<Operation>)
    ensures AllEdits(session, GuestSends(session, CLIENT_B, base, ops))
    ensures RequestedOperations(GuestSends(session, CLIENT_B, base, ops)) == SentOperations(session, base, ops)
    ensures |SentOperations(session, base, ops)| <= |ops| && |GuestSends(session, CLIENT_B, base, ops)| <= |ops|
    decreases |ops|
  {
    hide Fits, IsEdit, RequestedOperation, RequestedOperations, Request, NonEmpty;
    if ops == [] {
      NothingToFold([]);
    } else {
      var first, rest := Request(session, CLIENT_B, base, ops[0]), GuestSends(session, CLIENT_B, base, ops[1..]);
      GuestSendsThose(session, base, ops[1..]);
      RequestIsEdit(session, base, ops[0]);
      RequestedOperationsCons(first, rest);
      assert [] + rest == rest;
      assert [] + SentOperations(session, base, ops[1..]) == SentOperations(session, base, ops[1..]);
    }
  }

  lemma RequestIsEdit(session: Text, base: nat, op: Operation)
    ensures var m := Request(session, CLIENT_B, base, op); IsEdit(session, m) && RequestedOperation(m) == Some(op)
  {
    RequestReadsBack(session, CLIENT_B, base, op);
    KeysDiffer();
  }

  // ---- Reports ----

  /** The guest reports one text after the other and receives nothing. */
  ghost function GuestReports(t: Session, texts: seq<Text>): Session
    decreases |texts|
  {
    if texts == [] then t else GuestReports(Next(t, GuestTypesText(texts[0])), texts[1..])
  }

  /** The edits of these reports whose requests reach the server. */
  ghost function SentReports(session: Text, base: nat, before: Text, texts: seq<Text>): seq<Operation>
    decreases |texts|
  {
    if texts == [] then []
    else
      SentOperations(session, base, DiffOperations(before, texts[0])) + SentReports(session, base, texts[0], texts[1..])
  }

  function LastText(before: Text, texts: seq<Text>): Text
    decreases |texts|
  {
    if texts == [] then before else LastText(texts[0], texts[1..])
  }

  predicate WithinLimit(texts: seq<Text>) {
    forall i :: 0 <= i < |texts| ==> |texts[i]| <= MAX_DOCUMENT_CHARS
  }

  /** The host has reported, then the guest any number of times; nothing has been received. */
  ghost function Crossed(s: Session, hostText: Text, guestTexts: seq<Text>): Session {
    GuestReports(Next(s, HostTypesText(hostText)), guestTexts)
  }

  /** The server once the host's edits are in. */
  function AfterHost(s: Session, hostText: Text): ServerState {
    ServerState(s.server.session, hostText, s.server.revision + |DiffOperations(s.server.document, hostText)|)
  }

  ghost function SentByGuest(s: Session, guestTexts: seq<Text>): seq<Operation> {
    SentReports(s.server.session, s.server.revision, s.server.document, guestTexts)
  }

  /** Both windows show the server's document, nothing is on its way and no full sync is half collected; the
      texts are within the document limit, the host's edits go through, and the revision counter is far
      from its end. Of the guest's edits nothing is assumed. */
  ghost predicate MayCross(s: Session, hostText: Text, guestTexts: seq<Text>) {
    && Init(s) && s.guest.chunks == [] && SessionCode(s.server.session)
    && |hostText| <= MAX_DOCUMENT_CHARS && WithinLimit(guestTexts)
    && AllCarried(s.server.session, CLIENT_A, s.server.revision, DiffOperations(s.server.document, hostText))
    && s.server.revision + 2 + 2 * |guestTexts| <= UINT64_MAX
  }

  lemma HostHasTyped(s: Session, hostText: Text)
    requires Init(s) && |hostText| <= MAX_DOCUMENT_CHARS
    requires AllCarried(s.server.session, CLIENT_A, s.server.revision, DiffOperations(s.server.document, hostText))
    ensures var ops := DiffOperations(s.server.document, hostText);
            Next(s, HostTypesText(hostText))
            == s.(host := s.host.(text := hostText, revision := s.server.revision + |ops|), server := AfterHost(s, hostText),
                  toGuest := Announcements(s.server.session, s.server.revision, ops))
  {
    hide Fits, HostSends, DiffOperations, Announcements, SentAll, AllCarried, Fold;
    var ops := DiffOperations(s.server.document, hostText);
    DiffReplays(s.server.document, hostText);
    HostSendsAll(s.host, s.server, ops);
    var added := Announcements(s.server.session, s.server.revision, ops);
    assert [] + added == added;
  }

  lemma {:induction false} AnnouncementsAreCounted(session: Text, revision: nat, ops: seq<Operation>)
    ensures Counted(session, Announcements(session, revision, ops), revision)
    ensures Count(Announcements(session, revision, ops)) == |ops|
    decreases |ops|
  {
    hide IsApply, ApplyFor;
    if ops != [] {
      AnnouncementsAreCounted(session, revision + 1, ops[1..]);
      ApplyForReadsBack(session, CLIENT_A, revision + 1, ops[0]);
      AnnouncementIsApply(session, revision + 1, ops[0]);
    }
  }

  lemma AnnouncementIsApply(session: Text, revision: nat, op: Operation)
    ensures IsApply(session, ApplyFor(session, CLIENT_A, revision, op), revision)
  {
    ApplyForReadsBack(session, CLIENT_A, revision, op);
  }

  lemma ReadyAfterHost(s: Session, hostText: Text)
    requires MayCross(s, hostText, [])
    ensures var t := Next(s, HostTypesText(hostText));
            && Ready(t) && t.server == AfterHost(s, hostText) && t.toServer == [] && t.guest == s.guest
            && t.server.revision <= s.server.revision + 2
            && HostOperations(t.toGuest) == DiffOperations(s.server.document, hostText)
  {
    hide Fits, DiffOperations, Announcements, AllCarried, Fold, Counted, Count, IsEdit, HostOperations, SessionCode, HostTypes,
         AnnouncedOperations;
    HostHasTyped(s, hostText);
    AnnouncementsAreNumbered(s.server.session, s.server.revision, DiffOperations(s.server.document, hostText));
    AnnouncementsAreCounted(s.server.session, s.server.revision, DiffOperations(s.server.document, hostText));
    DiffIsNonEmpty(s.server.document, hostText);
    NothingToFold(hostText);
    var t := Next(s, HostTypesText(hostText));
    assert HostFollows(t);
    assert InCount(t);
  }

  lemma ReadyAfterReport(t: Session, text: Text)
    requires Ready(t) && |text| <= MAX_DOCUMENT_CHARS && t.server.revision + |t.toServer| + 2 <= UINT64_MAX
    ensures var u := Next(t, GuestTypesText(text));
            && Ready(u) && u == t.(guest := t.guest.(text := text), toServer := u.toServer)
            && |u.toServer| <= |t.toServer| + 2
            && RequestedOperations(u.toServer) == RequestedOperations(t.toServer)
               + SentOperations(t.server.session, t.guest.revision, DiffOperations(t.guest.text, text))
  {
    hide Fits, DiffOperations, Fold, GuestSends, Counted, Count, RequestedOperations, IsEdit, HostOperations, SessionCode,
         AnnouncedOperations, Numbered, SentOperations;
    var ops := DiffOperations(t.guest.text, text);
    GuestSendsThose(t.server.session, t.guest.revision, ops);
    DiffIsNonEmpty(t.guest.text, text);
    RequestedOperationsAppend(t.toServer, GuestSends(t.server.session, CLIENT_B, t.guest.revision, ops));
    AllEditsAppend(t.server.session, t.toServer, GuestSends(t.server.session, CLIENT_B, t.guest.revision, ops));
  }

  lemma AllEditsAppend(session: Text, a: seq<Message>, b: seq<Message>)
    requires AllEdits(session, a) && AllEdits(session, b)
    ensures AllEdits(session, a + b)
  {
    hide IsEdit;
  }

  lemma {:induction false} ReadyAfterReports(t: Session, texts: seq<Text>)
    requires Ready(t) && WithinLimit(texts) && t.server.revision + |t.toServer| + 2 * |texts| <= UINT64_MAX
    ensures var u := GuestReports(t, texts);
            && Ready(u) && u.server == t.server && u.toGuest == t.toGuest
            && u.guest == t.guest.(text := LastText(t.guest.text, texts))
            && RequestedOperations(u.toServer) == RequestedOperations(t.toServer)
               + SentReports(t.server.session, t.guest.revision, t.guest.text, texts)
    decreases |texts|
  {
    hide Ready, Next, RequestedOperations, SentOperations, DiffOperations;
    if texts != [] {
      ReadyAfterReport(t, texts[0]);
      ReadyAfterReports(Next(t, GuestTypesText(texts[0])), texts[1..]);
    }
  }

  /** From here on the session comes to rest as the invariant says. */
  lemma CrossedIsPending(s: Session, hostText: Text, guestTexts: seq<Text>)
    requires MayCross(s, hostText, guestTexts)
    ensures Pending(Crossed(s, hostText, guestTexts), ServerEnd(s, hostText, guestTexts), GuestEnd(s, hostText, guestTexts),
                    Announceable(AfterHost(s, hostText), SentByGuest(s, guestTexts)))
  {
    hide Ready, Next, RequestedOperations, SentReports, DiffOperations, TakenAll, Announceable, Fold, Pending, GuestReports,
         SessionCode, AllCarried, HostOperations;
    ReadyAfterHost(s, hostText);
    var t := Next(s, HostTypesText(hostText));
    RevisionOf(t, s);
    ReadyAfterReports(t, guestTexts);
    NothingToFold([]);
    assert [] + SentByGuest(s, guestTexts) == SentByGuest(s, guestTexts);
    ReadyIsPending(Crossed(s, hostText, guestTexts));
  }

  lemma RevisionOf(t: Session, s: Session)
    requires t.guest == s.guest && Init(s)
    ensures t.guest.revision == s.server.revision && t.guest.text == s.server.document
  {
  }

  // ---- Where it comes to rest ----

  /** The server in the end: after the host's edits it has taken what it was sent of the guest's, one after the
      other, until the connection ended. */
  ghost function ServerEnd(s: Session, hostText: Text, guestTexts: seq<Text>): ServerState {
    TakenAll(AfterHost(s, hostText), SentByGuest(s, guestTexts))
  }

  /** The guest's last text with the host's diff applied; None when an announcement does not apply. */
  function GuestEnd(s: Session, hostText: Text, guestTexts: seq<Text>): Option<Text> {
    Fold(LastText(s.server.document, guestTexts), DiffOperations(s.server.document, hostText))
  }

  /** No accepted request was impossible to announce, and the full sync, if it comes to that, can be sent. */
  ghost predicate Lasts(s: Session, hostText: Text, guestTexts: seq<Text>) {
    && Announceable(AfterHost(s, hostText), SentByGuest(s, guestTexts))
    && (GuestEnd(s, hostText, guestTexts).Some? || CleanCuts(ServerEnd(s, hostText, guestTexts).document))
  }

  lemma {:induction false} TakenWithinLimit(s: ServerState, ops: seq<Operation>)
    requires |s.document| <= MAX_DOCUMENT_CHARS
    ensures |TakenAll(s, ops).document| <= MAX_DOCUMENT_CHARS
    decreases |ops|
  {
    hide Fits;
    if ops != [] {
      TakenWithinLimit(Taken(s, ops[0]), ops[1..]);
    }
  }

  lemma {:induction false} FewCuts(text: Text, size: nat)
    requires size > 0
    ensures |Cuts(text, size)| <= |text| + 1
    decreases |text|
  {
    if |text| > size {
      FewCuts(text[size..], size);
    }
  }

  /** A full sync of a document within the limit goes through exactly when no chunk holds half a pair. */
  lemma SyncGoesIff(s: ServerState)
    requires SessionCode(s.session) && s.revision <= UINT64_MAX && |s.document| <= MAX_DOCUMENT_CHARS
    ensures SyncGoes(s) <==> CleanCuts(s.document)
  {
    hide Fitting, SyncResponses, CleanCuts;
    FewCuts(s.document, SYNC_CHUNK_CHARS);
    SyncIsSentIff(s.session, s.document, s.revision);
  }

  lemma EndIsInRange(s: Session, hostText: Text, guestTexts: seq<Text>)
    requires MayCross(s, hostText, guestTexts)
    ensures SyncGoes(ServerEnd(s, hostText, guestTexts)) <==> CleanCuts(ServerEnd(s, hostText, guestTexts).document)
  {
    hide SyncGoes, DiffOperations, TakenAll, CleanCuts, AllCarried, SentReports, SessionCode, Pending, GuestReports, Announceable,
         Fold, Next;
    CrossedIsPending(s, hostText, guestTexts);
    PendingIsInRange(Crossed(s, hostText, guestTexts), ServerEnd(s, hostText, guestTexts), GuestEnd(s, hostText, guestTexts),
                     Announceable(AfterHost(s, hostText), SentByGuest(s, guestTexts)));
    TakenWithinLimit(AfterHost(s, hostText), SentByGuest(s, guestTexts));
    SyncGoesIff(ServerEnd(s, hostText, guestTexts));
  }

  lemma PendingIsInRange(t: Session, end: ServerState, shown: Option<Text>, through: bool)
    requires Pending(t, end, shown, through)
    ensures SessionCode(end.session) && end.revision <= UINT64_MAX
  {
  }

  /** For every settled session, every report of the host whose edits go through and any reports of the guest:
      in whatever order the messages are received, host and server end with what the server took. If the
      connection lasts, the guest ends at the server's revision with its own text and the host's diff applied
      or, if that fails, with the server's document by a full sync. */
  lemma ReportsEnd(s: Session, hostText: Text, guestTexts: seq<Text>, steps: seq<Step>)
    requires MayCross(s, hostText, guestTexts)
    requires AllReceive(steps) && Quiet(Run(Crossed(s, hostText, guestTexts), steps))
    ensures var u, end, shown := Run(Crossed(s, hostText, guestTexts), steps), ServerEnd(s, hostText, guestTexts),
                                 GuestEnd(s, hostText, guestTexts);
            && u.server == end && u.host.text == end.document && u.host.revision == end.revision
            && (u.alive <==> Lasts(s, hostText, guestTexts))
            && (u.alive ==>
                  u.guest.revision == end.revision && u.guest.text == if shown.Some? then shown.value else end.document)
  {
    hide Pending, Run, SyncGoes, GuestEnd, ServerEnd, Announceable, CleanCuts, Crossed, MayCross;
    CrossedIsPending(s, hostText, guestTexts);
    EndIsInRange(s, hostText, guestTexts);
    EveryOrderEnds(Crossed(s, hostText, guestTexts), steps, ServerEnd(s, hostText, guestTexts), GuestEnd(s, hostText, guestTexts),
                   Announceable(AfterHost(s, hostText), SentByGuest(s, guestTexts)));
  }

  /** They end with equal copies exactly when the connection lasts and the guest can either not apply the
      host's diff, so that the full sync repairs it, or gets what the server has. */
  lemma ReportsAgreeIff(s: Session, hostText: Text, guestTexts: seq<Text>, steps: seq<Step>)
    requires MayCross(s, hostText, guestTexts)
    requires AllReceive(steps) && Quiet(Run(Crossed(s, hostText, guestTexts), steps))
    ensures var u, shown := Run(Crossed(s, hostText, guestTexts), steps), GuestEnd(s, hostText, guestTexts);
            u.alive && Equal(u)
            <==> Lasts(s, hostText, guestTexts)
                 && (shown.None? || shown.value == ServerEnd(s, hostText, guestTexts).document)
  {
    hide MayCross, Run, Crossed, ServerEnd, GuestEnd, Lasts;
    ReportsEnd(s, hostText, guestTexts, steps);
  }

  /** There is such an order of receiving. */
  lemma ReportsDrain(s: Session, hostText: Text, guestTexts: seq<Text>) returns (steps: seq<Step>)
    requires MayCross(s, hostText, guestTexts)
    ensures AllReceive(steps) && Quiet(Run(Crossed(s, hostText, guestTexts), steps))
  {
    hide Pending, Run, GuestEnd, ServerEnd, Announceable, Crossed, MayCross;
    CrossedIsPending(s, hostText, guestTexts);
    steps := Drains(Crossed(s, hostText, guestTexts), ServerEnd(s, hostText, guestTexts), GuestEnd(s, hostText, guestTexts),
                    Announceable(AfterHost(s, hostText), SentByGuest(s, guestTexts)));
  }

  // ---- One report of the guest that goes out whole ----

  /** The server's document after a list of requests, each accepted or refused. */
  function ServedText(document: Text, ops: seq<Operation>): Text
    decreases |ops|
  {
    if ops == [] then document
    else ServedText(if RequestStatus(document, ops[0]).Applied? then Edit(document, ops[0]) else document, ops[1..])
  }

  lemma {:induction false} ServedIsTaken(s: ServerState, ops: seq<Operation>)
    requires Announceable(s, ops)
    ensures TakenAll(s, ops).document == ServedText(s.document, ops)
    decreases |ops|
  {
    hide RequestStatus, Edit, Breaks;
    if ops != [] {
      ServedIsTaken(Taken(s, ops[0]), ops[1..]);
    }
  }

  /** When every request is within its limit and applies, nothing is refused. */
  lemma {:induction false} ServedIsFold(document: Text, ops: seq<Operation>)
    requires Fold(document, ops).Some?
    requires forall i :: 0 <= i < |ops| && ops[i].InsertAt? ==> |ops[i].text| <= MAX_INSERT_CHARS
    ensures ServedText(document, ops) == Fold(document, ops).value
    decreases |ops|
  {
    hide Edit;
    if ops != [] {
      ServedIsFold(Edit(document, ops[0]), ops[1..]);
    }
  }

  /** The guest's requests and their announcements fit a frame. Whether the server accepts them is open. */
  ghost predicate GuestFits(s: Session, guestText: Text) {
    forall op :: op in DiffOperations(s.server.document, guestText) ==>
      && Fits(Request(s.server.session, CLIENT_B, s.server.revision, op))
      && (forall revision: nat :: revision <= UINT64_MAX ==> Fits(ApplyFor(s.server.session, CLIENT_B, revision, op)))
  }

  lemma {:induction false} AllAreSent(session: Text, base: nat, ops: seq<Operation>)
    requires forall i :: 0 <= i < |ops| ==> NonEmpty(ops[i]) && Fits(Request(session, CLIENT_B, base, ops[i]))
    ensures SentOperations(session, base, ops) == ops
    decreases |ops|
  {
    hide Fits, Request;
    if ops != [] {
      AllAreSent(session, base, ops[1..]);
      assert ops == [ops[0]] + ops[1..];
    }
  }

  lemma {:induction false} AllAnnounceable(s: ServerState, ops: seq<Operation>)
    requires s.revision + |ops| <= UINT64_MAX
    requires forall op, revision: nat :: op in ops && revision <= UINT64_MAX ==> Fits(ApplyFor(s.session, CLIENT_B, revision, op))
    ensures Announceable(s, ops)
    decreases |ops|
  {
    hide Fits, ApplyFor, Taken, RequestStatus;
    if ops != [] {
      TakenStep(s, ops[0]);
      AllAnnounceable(Taken(s, ops[0]), ops[1..]);
    }
  }

  lemma OneReport(s: Session, guestText: Text)
    ensures SentByGuest(s, [guestText])
         == SentOperations(s.server.session, s.server.revision, DiffOperations(s.server.document, guestText))
    ensures LastText(s.server.document, [guestText]) == guestText
  {
    hide SentOperations, DiffOperations;
    assert [guestText][1..] == [];
    assert SentReports(s.server.session, s.server.revision, guestText, []) == [];
    var sent := SentOperations(s.server.session, s.server.revision, DiffOperations(s.server.document, guestText));
    assert sent + [] == sent;
  }

  lemma GuestGoesThrough(s: Session, hostText: Text, guestText: Text)
    requires MayCross(s, hostText, [guestText]) && GuestFits(s, guestText)
    ensures SentByGuest(s, [guestText]) == DiffOperations(s.server.document, guestText)
    ensures Announceable(AfterHost(s, hostText), SentByGuest(s, [guestText]))
  {
    hide Fits, DiffOperations, Announceable, SentOperations, SentReports, ApplyFor, Request, NonEmpty, AllCarried, SessionCode;
    var ops := DiffOperations(s.server.document, guestText);
    OneReport(s, guestText);
    DiffIsNonEmpty(s.server.document, hostText);
    DiffIsNonEmpty(s.server.document, guestText);
    AllAreSent(s.server.session, s.server.revision, ops);
    AllAnnounceable(AfterHost(s, hostText), ops);
  }

  /** The server's document in the end: the host's text with what is accepted of the guest's diff. */
  function ServerShows(s: Session, hostText: Text, guestText: Text): Text {
    ServedText(hostText, DiffOperations(s.server.document, guestText))
  }

  /** The guest's text with the host's diff applied; None when an announcement does not apply. */
  function GuestShows(s: Session, hostText: Text, guestText: Text): Option<Text> {
    Fold(guestText, DiffOperations(s.server.document, hostText))
  }

  /** One report each, none of whose messages is dropped. */
  lemma CrossingEnds(s: Session, hostText: Text, guestText: Text, steps: seq<Step>)
    requires MayCross(s, hostText, [guestText]) && GuestFits(s, guestText)
    requires AllReceive(steps) && Quiet(Run(Crossed(s, hostText, [guestText]), steps))
    ensures var u := Run(Crossed(s, hostText, [guestText]), steps);
            && u.server.document == u.host.text == ServerShows(s, hostText, guestText)
            && u.server.revision == u.host.revision
            && (u.alive <==> GuestShows(s, hostText, guestText).Some? || CleanCuts(ServerShows(s, hostText, guestText)))
            && (u.alive ==>
                  && u.guest.revision == u.server.revision
                  && u.guest.text == if GuestShows(s, hostText, guestText).Some? then GuestShows(s, hostText, guestText).value
                                     else ServerShows(s, hostText, guestText))
  {
    hide Run, MayCross, Fold, DiffOperations, TakenAll, ServedText, Announceable, CleanCuts, Crossed, GuestFits, SentReports;
    ReportsEnd(s, hostText, [guestText], steps);
    OneReport(s, guestText);
    GuestGoesThrough(s, hostText, guestText);
    ServedIsTaken(AfterHost(s, hostText), SentByGuest(s, [guestText]));
  }

  /** Such reports end with equal copies exactly when the two orders of applying the raw diffs give the same
      text, or the guest cannot apply the host's and the full sync that repairs it can be sent. */
  ghost predicate Agree(s: Session, hostText: Text, guestText: Text) {
    var shown, served := GuestShows(s, hostText, guestText), ServerShows(s, hostText, guestText);
    if shown.Some? then shown.value == served else CleanCuts(served)
  }

  lemma CrossingAgreesIff(s: Session, hostText: Text, guestText: Text, steps: seq<Step>)
    requires MayCross(s, hostText, [guestText]) && GuestFits(s, guestText)
    requires AllReceive(steps) && Quiet(Run(Crossed(s, hostText, [guestText]), steps))
    ensures var u := Run(Crossed(s, hostText, [guestText]), steps);
            u.alive && Equal(u) <==> Agree(s, hostText, guestText)
  {
    hide MayCross, GuestFits, Run, Crossed, ServerShows, GuestShows, CleanCuts;
    CrossingEnds(s, hostText, guestText, steps);
  }

  /** Who reports first makes no difference. */
  lemma ReportsCommute(s: Session, hostText: Text, guestText: Text)
    requires MayCross(s, hostText, [guestText])
    ensures Next(Next(s, GuestTypesText(guestText)), HostTypesText(hostText)) == Crossed(s, hostText, [guestText])
  {
    hide HostTypes, GuestSends, SentAll, DiffOperations, SessionCode, AllCarried, Announcements;
    HostHasTyped(s, hostText);
    OneReported(Next(s, HostTypesText(hostText)), guestText);
    assert HostTypes(s.host, s.server, hostText).server.session == s.server.session;
  }

  lemma OneReported(t: Session, text: Text)
    ensures GuestReports(t, [text]) == Next(t, GuestTypesText(text))
  {
    hide Next;
    assert [text][1..] == [];
  }
}
