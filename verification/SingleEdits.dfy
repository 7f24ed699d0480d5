/** One report from a settled session: when it reaches everybody. The diff compares single code units
    (client/editor_diff.cpp), so it can insert half of a surrogate pair; the strict conversion to UTF-8
    (client/text_encoding.cpp) then drops the message, while a deletion that goes with it is sent. */
module SingleEdits {
  import opened WideText
  import opened DocumentModel
  import opened EditorDiff
  import opened Protocol
  import opened JsonPrinter
  import opened Server
  import opened Replica
  import opened TurnTaking
  import opened FrameSizes
  import opened ValidText
  import opened SurrogateCuts
  import opened Receiving
  import opened Crossing
  import opened HostSteps

  // ---- The inserted text ----

  lemma SliceIsValidIff(text: Text, start: nat, end: nat)
    requires Utf8Size(text).Some? && start < end <= |text|
    ensures Utf8Size(text[start..end]).Some?
            <==> CleanCut(text[..start], text[start..]) && CleanCut(text[..end], text[end..])
  {
    var part := text[start..end];
    assert text == text[..end] + text[end..] && text == text[..start] + text[start..];
    assert text[..end] == text[..start] + part;
    if CleanCut(text[..start], text[start..]) && CleanCut(text[..end], text[end..]) {
      Utf8SizeSplit(text[..end], text[end..]);
      Utf8SizeSplit(text[..start], part);
    }
    if Utf8Size(part).Some? {
      ValidTextEndsWhole(part);
      assert text[start..][0] == part[0] && text[..end][end - 1] == part[|part| - 1];
    }
  }

  /** Where the changed part ends in the new text; it starts after the common prefix. */
  function ChangeEnd(before: Text, after: Text): (end: nat)
    ensures CommonPrefix(before, after) <= end <= |after|
    ensures InsertedText(before, after) == after[CommonPrefix(before, after)..end]
  {
    |after| - CommonSuffix(before, after, CommonPrefix(before, after))
  }

  /** The inserted text of a diff to valid text is valid exactly when there is none, or neither end of the
      changed part falls inside a surrogate pair of the new text. */
  lemma InsertIsValidIff(before: Text, after: Text)
    requires Utf8Size(after).Some?
    ensures var start, end := CommonPrefix(before, after), ChangeEnd(before, after);
            Utf8Size(InsertedText(before, after)).Some?
            <==> InsertedText(before, after) == []
                 || (CleanCut(after[..start], after[start..]) && CleanCut(after[..end], after[end..]))
  {
    hide Utf8Size, CleanCut, CommonPrefix, ChangeEnd, InsertedText;
    if InsertedText(before, after) != [] {
      SliceIsValidIff(after, CommonPrefix(before, after), ChangeEnd(before, after));
    } else {
      NothingIsValid();
    }
  }

  lemma NothingIsValid()
    ensures Utf8Size([]).Some?
  {
  }

  lemma FittingInsertIsValid(session: Text, client: Text, revision: nat, pos: nat, text: Text)
    requires Fits(ApplyFor(session, client, revision, InsertAt(pos, text)))
             || Fits(Request(session, client, revision, InsertAt(pos, text)))
    ensures Utf8Size(text).Some?
  {
    hide Fits;
    KeysDiffer();
    if Fits(Request(session, client, revision, InsertAt(pos, text))) {
      FieldNeedsValidText(Request(session, client, revision, InsertAt(pos, text)), TEXT);
    } else {
      FieldNeedsValidText(ApplyFor(session, client, revision, InsertAt(pos, text)), TEXT);
    }
  }

  /** The insert of the diff, if there is one, is valid text, is within the request limit, and can be
      announced under the revision it gets. */
  ghost predicate InsertGoes(session: Text, client: Text, revision: nat, before: Text, after: Text) {
    var inserted := InsertedText(before, after);
    inserted == []
    || (Utf8Size(inserted).Some? && |inserted| <= MAX_INSERT_CHARS
        && Fits(ApplyFor(session, client, revision + |DiffOperations(before, after)|, InsertAt(CommonPrefix(before, after), inserted))))
  }

  /** Its request fits a frame. */
  ghost predicate InsertIsSent(session: Text, base: nat, before: Text, after: Text) {
    InsertedText(before, after) == []
    || Fits(Request(session, CLIENT_B, base, InsertAt(CommonPrefix(before, after), InsertedText(before, after))))
  }

  function Deletes(before: Text, after: Text): seq<Operation> {
    if DeletedLength(before, after) > 0 then [DeleteAt(CommonPrefix(before, after), DeletedLength(before, after))] else []
  }

  function Inserts(before: Text, after: Text): seq<Operation> {
    if InsertedText(before, after) != [] then [InsertAt(CommonPrefix(before, after), InsertedText(before, after))] else []
  }

  /** What the deletion alone leaves. */
  function Kept(before: Text, after: Text): Text {
    Replace(before, CommonPrefix(before, after), DeletedLength(before, after), [])
  }

  lemma DiffParts(before: Text, after: Text)
    ensures DiffOperations(before, after) == Deletes(before, after) + Inserts(before, after)
    ensures Fold(before, Deletes(before, after)) == Some(Kept(before, after))
    ensures |Kept(before, after)| + |InsertedText(before, after)| == |after|
    ensures |after| <= MAX_DOCUMENT_CHARS ==> Fold(Kept(before, after), Inserts(before, after)) == Some(after)
  {
    hide CommonPrefix, CommonSuffix;
    var prefix, deleted, inserted := CommonPrefix(before, after), DeletedLength(before, after), InsertedText(before, after);
    DiffShape(before, after);
    DeleteThenInsert(before, prefix, deleted, inserted);
    FoldOne(before, DeleteAt(prefix, deleted));
    if deleted == 0 {
      assert Kept(before, after) == before;
    }
    FoldOne(Kept(before, after), InsertAt(prefix, inserted));
    if inserted == [] {
      assert Kept(before, after) == after;
    }
  }

  lemma DeletesGo(session: Text, client: Text, base: nat, revision: nat, before: Text, after: Text)
    requires SessionCode(session) && (client == CLIENT_A || client == CLIENT_B)
    requires |before| <= MAX_DOCUMENT_CHARS && base <= UINT64_MAX && revision <= UINT64_MAX
    ensures forall op :: op in Deletes(before, after) ==>
            Carried(session, client, revision, op) && Fits(Request(session, client, base, op))
  {
    hide Fits, CommonPrefix, CommonSuffix;
    if Deletes(before, after) != [] {
      SmallEditIsCarried(session, Deletes(before, after)[0], client, base, revision);
    }
  }

  /** The size assumption of turn taking, for one diff. */
  lemma CarriedIff(session: Text, client: Text, revision: nat, before: Text, after: Text)
    requires SessionCode(session) && (client == CLIENT_A || client == CLIENT_B)
    requires |before| <= MAX_DOCUMENT_CHARS && revision + 2 <= UINT64_MAX
    ensures AllCarried(session, client, revision, DiffOperations(before, after)) <==> InsertGoes(session, client, revision, before, after)
    ensures AllSent(session, revision, DiffOperations(before, after)) <==> InsertIsSent(session, revision, before, after)
  {
    hide Fits, CommonPrefix, CommonSuffix, ApplyFor, Request, InsertedText, DeletedLength;
    var ops, deletes, inserts := DiffOperations(before, after), Deletes(before, after), Inserts(before, after);
    DiffParts(before, after);
    DeletesGo(session, client, revision, revision + 1, before, after);
    DeletesGo(session, CLIENT_B, revision, revision + 1, before, after);
    if inserts != [] {
      assert ops[|ops| - 1] == inserts[0];
      if Fits(ApplyFor(session, client, revision + |ops|, inserts[0])) {
        FittingInsertIsValid(session, client, revision + |ops|, CommonPrefix(before, after), InsertedText(before, after));
      }
      if AllCarried(session, client, revision, ops) {
        assert Carried(session, client, revision + 1 + (|ops| - 1), ops[|ops| - 1]);
      }
    }
  }

  // ---- The guest's report ----

  lemma {:induction false} TakenAppend(s: ServerState, a: seq<Operation>, b: seq<Operation>)
    requires Announceable(s, a)
    ensures TakenAll(s, a + b) == TakenAll(TakenAll(s, a), b)
    ensures Announceable(s, a + b) <==> Announceable(TakenAll(s, a), b)
    decreases |a|
  {
    hide Breaks, Taken;
    if a == [] {
      assert a + b == b;
    } else {
      assert (a + b)[1..] == a[1..] + b;
      TakenAppend(Taken(s, a[0]), a[1..], b);
    }
  }

  lemma {:induction false} SentAppend(session: Text, base: nat, a: seq<Operation>, b: seq<Operation>)
    ensures SentOperations(session, base, a + b) == SentOperations(session, base, a) + SentOperations(session, base, b)
    decreases |a|
  {
    hide Fits, Request, NonEmpty;
    if a == [] {
      assert a + b == b;
    } else {
      assert (a + b)[1..] == a[1..] + b;
      SentAppend(session, base, a[1..], b);
    }
  }

  lemma OneSent(session: Text, base: nat, op: Operation)
    ensures SentOperations(session, base, [op])
         == if NonEmpty(op) && Fits(Request(session, CLIENT_B, base, op)) then [op] else []
  {
    hide Fits, Request, NonEmpty;
    assert [op][1..] == [];
  }

  lemma OneTaken(s: ServerState, op: Operation)
    ensures TakenAll(s, [op]) == Taken(s, op)
    ensures Announceable(s, [op]) <==>
            (RequestStatus(s.document, op).Applied? ==> Fits(ApplyFor(s.session, CLIENT_B, s.revision + 1, op)))
  {
    hide Fits, Taken, RequestStatus, ApplyFor;
    TakenFirst(s, op, []);
    NothingTaken(Taken(s, op));
    assert [op] + [] == [op];
  }

  /** The deleting half of the guest's report always goes through. */
  lemma DeletesTaken(s: ServerState, text: Text)
    requires SessionCode(s.session) && |s.document| <= MAX_DOCUMENT_CHARS && s.revision + 2 <= UINT64_MAX
    ensures var deletes := Deletes(s.document, text);
            && SentOperations(s.session, s.revision, deletes) == deletes
            && TakenAll(s, deletes) == ServerState(s.session, Kept(s.document, text), s.revision + |deletes|)
            && Announceable(s, deletes)
  {
    hide Fits, Taken, RequestStatus, ApplyFor, SentOperations, CommonPrefix, DeletedLength, Announceable, TakenAll, Fold;
    var deletes := Deletes(s.document, text);
    DiffParts(s.document, text);
    if deletes == [] {
      NothingTaken(s);
      NothingToFold(s.document);
      assert SentOperations(s.session, s.revision, deletes) == [] by { NothingSent(s.session, s.revision); }
    } else {
      DeletesGo(s.session, CLIENT_B, s.revision, s.revision + 1, s.document, text);
      OneSent(s.session, s.revision, deletes[0]);
      OneTaken(s, deletes[0]);
      FoldOne(s.document, deletes[0]);
      DeleteTaken(s, deletes[0]);
    }
  }

  lemma NothingSent(session: Text, base: nat)
    ensures SentOperations(session, base, []) == []
  {
  }

  lemma DeleteTaken(s: ServerState, op: Operation)
    requires op.DeleteAt? && Status(s.document, op).Applied?
    ensures Taken(s, op) == ServerState(s.session, Edit(s.document, op), s.revision + 1) && NonEmpty(op)
  {
  }

  /** What the server ends with after one report of the guest, and whether it can announce all of it. */
  lemma ReportTaken(s: ServerState, text: Text)
    requires SessionCode(s.session) && |s.document| <= MAX_DOCUMENT_CHARS && |text| <= MAX_DOCUMENT_CHARS
    requires s.revision + 2 <= UINT64_MAX
    ensures var sent := SentOperations(s.session, s.revision, DiffOperations(s.document, text));
            var goes := InsertGoes(s.session, CLIENT_B, s.revision, s.document, text) && InsertIsSent(s.session, s.revision, s.document, text);
            (Announceable(s, sent) && TakenAll(s, sent).document == text) <==> goes
  {
    hide Fits, Taken, RequestStatus, ApplyFor, Request, SentOperations, CommonPrefix, InsertedText, DeletedLength, Announceable,
         TakenAll, Fold, Utf8Size, Kept, Edit;
    var deletes, inserts := Deletes(s.document, text), Inserts(s.document, text);
    DiffParts(s.document, text);
    DeletesTaken(s, text);
    SentAppend(s.session, s.revision, deletes, inserts);
    var kept := TakenAll(s, deletes);
    var sentInserts := SentOperations(s.session, s.revision, inserts);
    TakenAppend(s, deletes, sentInserts);
    if inserts == [] {
      NothingSent(s.session, s.revision);
      NothingTaken(kept);
      NothingToFold(Kept(s.document, text));
    } else {
      var op := inserts[0];
      OneSent(s.session, s.revision, op);
      OneTaken(kept, op);
      FoldOne(kept.document, op);
      InsertTaken(kept, op);
      NothingTaken(kept);
      if Fits(Request(s.session, CLIENT_B, s.revision, op)) {
        FittingInsertIsValid(s.session, CLIENT_B, s.revision, op.pos, op.text);
      }
    }
  }

  /** A report whose insert the server accepts and cannot announce. */
  ghost predicate Unannounced(session: Text, revision: nat, before: Text, after: Text) {
    && InsertIsSent(session, revision, before, after)
    && |InsertedText(before, after)| <= MAX_INSERT_CHARS
    && !InsertGoes(session, CLIENT_B, revision, before, after)
  }

  /** The server has all of it, and the connection ends. */
  lemma ReportBreaks(s: ServerState, text: Text)
    requires SessionCode(s.session) && |s.document| <= MAX_DOCUMENT_CHARS && |text| <= MAX_DOCUMENT_CHARS
    requires s.revision + 2 <= UINT64_MAX && Unannounced(s.session, s.revision, s.document, text)
    ensures var sent := SentOperations(s.session, s.revision, DiffOperations(s.document, text));
            TakenAll(s, sent).document == text && !Announceable(s, sent)
  {
    hide Fits, Taken, RequestStatus, ApplyFor, Request, SentOperations, CommonPrefix, InsertedText, DeletedLength, Announceable,
         TakenAll, Fold, Utf8Size, Kept, Edit;
    var deletes, op := Deletes(s.document, text), InsertAt(CommonPrefix(s.document, text), InsertedText(s.document, text));
    DiffParts(s.document, text);
    DeletesTaken(s, text);
    SentAppend(s.session, s.revision, deletes, [op]);
    OneSent(s.session, s.revision, op);
    var kept := TakenAll(s, deletes);
    TakenAppend(s, deletes, [op]);
    OneTaken(kept, op);
    FoldOne(kept.document, op);
    InsertTaken(kept, op);
    FittingInsertIsValid(s.session, CLIENT_B, s.revision, op.pos, op.text);
  }

  lemma InsertTaken(s: ServerState, op: Operation)
    requires op.InsertAt? && Status(s.document, op).Applied?
    ensures NonEmpty(op)
    ensures RequestStatus(s.document, op).Applied? <==> |op.text| <= MAX_INSERT_CHARS
    ensures Taken(s, op) == if |op.text| <= MAX_INSERT_CHARS then ServerState(s.session, Edit(s.document, op), s.revision + 1) else s
  {
  }

  /** A settled session: both windows show the server's document and nothing is on its way. */
  ghost predicate MayReport(s: Session, text: Text) {
    && Init(s) && s.guest.chunks == [] && SessionCode(s.server.session)
    && |s.server.document| <= MAX_DOCUMENT_CHARS && |text| <= MAX_DOCUMENT_CHARS
    && s.server.revision + 4 <= UINT64_MAX
  }

  lemma NothingChanged(s: Session, text: Text)
    requires MayReport(s, text)
    ensures MayCross(s, s.server.document, [text]) && DiffOperations(s.server.document, s.server.document) == []
    ensures AfterHost(s, s.server.document) == s.server
    ensures Crossed(s, s.server.document, [text]) == Next(s, GuestTypesText(text))
  {
    hide Fits, HostTypes, GuestSends, SessionCode, DiffOperations, Serve, OnEvent, SentAll, Requested, Repaired, Carried, GuestReports;
    EqualTexts(s.server.document);
    HostHasTyped(s, s.server.document);
    OneReported(s, text);
  }

  /** What reaches the server of the guest's report. */
  ghost function SentOf(s: Session, text: Text): seq<Operation> {
    SentOperations(s.server.session, s.server.revision, DiffOperations(s.server.document, text))
  }

  /** What the guest's report has come to when nothing is on its way any more. */
  lemma GuestReportEnds(s: Session, text: Text, steps: seq<Step>)
    requires MayReport(s, text) && AllReceive(steps) && Quiet(Run(Next(s, GuestTypesText(text)), steps))
    ensures var u, sent := Run(Next(s, GuestTypesText(text)), steps), SentOf(s, text);
            && u.server == TakenAll(s.server, sent)
            && u.host.text == u.server.document && u.host.revision == u.server.revision
            && (u.alive <==> Announceable(s.server, sent))
            && (u.alive ==> u.guest.revision == u.server.revision && u.guest.text == text)
  {
    hide Run, DiffOperations, TakenAll, Announceable, Crossed, SentReports, SessionCode, MayCross, CleanCuts, Next;
    NothingChanged(s, text);
    OneReport(s, text);
    NothingToFold(text);
    ReportsEnd(s, s.server.document, [text], steps);
  }

  /** The guest's report reaches everybody, in every order of receiving, exactly when its insert is valid
      text, is within the request limit, and its request and its announcement fit a frame. */
  lemma GuestReportSettlesIff(s: Session, text: Text, steps: seq<Step>)
    requires MayReport(s, text) && AllReceive(steps) && Quiet(Run(Next(s, GuestTypesText(text)), steps))
    ensures var u := Run(Next(s, GuestTypesText(text)), steps);
            u.alive && Equal(u)
            <==> InsertGoes(s.server.session, CLIENT_B, s.server.revision, s.server.document, text)
                 && InsertIsSent(s.server.session, s.server.revision, s.server.document, text)
  {
    hide Run, Next, InsertGoes, InsertIsSent, Announceable, TakenAll, SentOperations, DiffOperations, SessionCode;
    GuestReportEnds(s, text, steps);
    ReportTaken(s.server, text);
  }

  /** That is the assumption of turn taking. */
  lemma GuestMayIff(s: Session, text: Text)
    requires MayReport(s, text)
    ensures Allowed(s, GuestTypesText(text))
            <==> InsertGoes(s.server.session, CLIENT_B, s.server.revision, s.server.document, text)
                 && InsertIsSent(s.server.session, s.server.revision, s.server.document, text)
  {
    hide InsertGoes, InsertIsSent, AllCarried, AllSent, DiffOperations, SessionCode;
    CarriedIff(s.server.session, CLIENT_B, s.server.revision, s.server.document, text);
  }

  // ---- The host's report ----

  /** The host's window and its server will never change again, and differ. */
  ghost predicate Apart(t: Session, server: ServerState, host: Replica) {
    && t.server == server && t.host == host && t.hostEvents == [] && AllSyncs(server.session, t.toServer)
    && host.text != server.document
  }

  lemma ApartNext(t: Session, step: Step, server: ServerState, host: Replica)
    requires Apart(t, server, host) && IsReceive(step)
    ensures Apart(Next(t, step), server, host)
  {
    hide Fits, Serve, OnEvent, IsSync, SyncResponses, Fitting;
    match step {
      case ServerReceives =>
        if t.toServer != [] {
          assert IsSync(server.session, t.toServer[0]);
          ServeOneSync(t.server, t.toServer[0]);
        }
      case GuestReceives =>
        if t.toGuest != [] {
          NewSync(server.session, OnEvent(t.guest, t.toGuest[0]).replica.revision);
        }
      case HostReceives =>
      case _ =>
    }
  }

  lemma {:induction false} ApartRun(t: Session, steps: seq<Step>, server: ServerState, host: Replica)
    requires Apart(t, server, host) && AllReceive(steps)
    ensures Apart(Run(t, steps), server, host)
    decreases |steps|
  {
    hide Apart, Next;
    if steps != [] {
      assert IsReceive(steps[0]);
      ApartNext(t, steps[0], server, host);
      ApartRun(Next(t, steps[0]), steps[1..], server, host);
    }
  }

  /** The guest is in count with a server of an earlier revision: the last announcement was never sent. */
  ghost predicate Behind(t: Session, server: ServerState, host: Replica, revision: nat, shown: Text) {
    && t.server == server && t.host == host && t.toServer == [] && t.hostEvents == [] && t.alive
    && SessionCode(server.session) && revision < server.revision && revision <= UINT64_MAX
    && t.guest.role == Guest && t.guest.localClient == CLIENT_B
    && InCount(t.(server := server.(revision := revision))) && GuestSettled(t) == Some(shown)
  }

  lemma BehindNext(t: Session, step: Step, server: ServerState, host: Replica, revision: nat, shown: Text)
    requires Behind(t, server, host, revision, shown) && IsReceive(step)
    ensures Behind(Next(t, step), server, host, revision, shown)
  {
    hide Fits, OnEvent, InCount, SessionCode, Fold, HostOperations, IsSync, RequestedOperations;
    if step.GuestReceives? && t.toGuest != [] {
      var counted := t.(server := server.(revision := revision));
      CountReceives(counted);
      ReceiveAsks(t);
      assert Next(counted, GuestReceives) == Next(t, GuestReceives).(server := counted.server);
      if Asked(Next(counted, GuestReceives)) {
        assert GuestSettled(counted) == GuestSettled(t);
      }
    }
  }

  lemma {:induction false} BehindRun(t: Session, steps: seq<Step>, server: ServerState, host: Replica, revision: nat, shown: Text)
    requires Behind(t, server, host, revision, shown) && AllReceive(steps)
    ensures Behind(Run(t, steps), server, host, revision, shown)
    decreases |steps|
  {
    hide Behind, Next;
    if steps != [] {
      assert IsReceive(steps[0]);
      BehindNext(t, steps[0], server, host, revision, shown);
      BehindRun(Next(t, steps[0]), steps[1..], server, host, revision, shown);
    }
  }

  lemma HostReportGoes(s: Session, text: Text, steps: seq<Step>)
    requires MayReport(s, text) && AllReceive(steps) && Quiet(Run(Next(s, HostTypesText(text)), steps))
    requires InsertGoes(s.server.session, CLIENT_A, s.server.revision, s.server.document, text)
    ensures var u := Run(Next(s, HostTypesText(text)), steps); u.alive && Equal(u) && u.server.document == text
  {
    hide Pending, Run, SyncGoes, DiffOperations, InsertGoes, TakenAll, Announceable, Fold, SentOperations, SessionCode, AllCarried, HostTypes,
         InsertIsSent, AllSent;
    var document := s.server.document;
    CarriedIff(s.server.session, CLIENT_A, s.server.revision, document, text);
    EqualTexts(document);
    HostHasTyped(s, text);
    assert Crossed(s, text, []) == Next(s, HostTypesText(text));
    CrossedIsPending(s, text, []);
    NothingSent(s.server.session, s.server.revision);
    NothingTaken(AfterHost(s, text));
    DiffReplays(document, text);
    EveryOrderEnds(Next(s, HostTypesText(text)), steps, AfterHost(s, text), Some(text), true);
  }

  lemma HostSendsOneTaken(r: Replica, s: ServerState, op: Operation)
    requires r.localClient == CLIENT_A && Status(s.document, op).Applied? && (op.InsertAt? ==> |op.text| <= MAX_INSERT_CHARS)
    ensures HostSendsOne(r, s, op)
         == HostTurn(r.(revision := s.revision + 1), ServerState(s.session, Edit(s.document, op), s.revision + 1),
                     [ApplyFor(s.session, CLIENT_A, s.revision + 1, op)])
  {
    hide Decide, ApplyFor, Request, Status, Edit;
    ServerAccepts(s.session, s.document, s.revision, CLIENT_A, s.revision, op);
  }

  lemma LastIsDropped(first: seq<Message>, last: Message)
    requires SentAll(first) == first && !Fits(last)
    ensures SentAll(first + [last]) == first
  {
    hide Fits;
    SentAllConcat(first, [last]);
    assert [last][1..] == [];
  }

  /** A host's turn whose insert cannot be announced. */
  lemma HostReportDropped(s: Session, text: Text)
    requires MayReport(s, text) && InsertedText(s.server.document, text) != []
    requires |InsertedText(s.server.document, text)| <= MAX_INSERT_CHARS
    requires !InsertGoes(s.server.session, CLIENT_A, s.server.revision, s.server.document, text)
    ensures var t, deletes := Next(s, HostTypesText(text)), Deletes(s.server.document, text);
            && t.server == ServerState(s.server.session, text, s.server.revision + |deletes| + 1)
            && t.host.text == text && t.host.revision == t.server.revision && t.guest == s.guest
            && t.toServer == [] && t.hostEvents == [] && t.alive
            && t.toGuest == Announcements(s.server.session, s.server.revision, deletes)
  {
    hide Fits, HostSends, HostSendsOne, DiffOperations, Announcements, SentAll, AllCarried, Fold, ApplyFor, Kept, Deletes, Inserts,
         SessionCode, Utf8Size, Edit, CommonPrefix, InsertedText;
    var document, session, revision := s.server.document, s.server.session, s.server.revision;
    var deletes, op := Deletes(document, text), InsertAt(CommonPrefix(document, text), InsertedText(document, text));
    InsertOf(document, text);
    DiffParts(document, text);
    DeletesCarried(s, text);
    HostSendsAll(s.host, s.server, deletes);
    var first := HostSends(s.host, s.server, deletes);
    HostTurnOfDiff(s.host, s.server, deletes, op);
    FoldOne(first.server.document, op);
    HostSendsOneTaken(first.replica, first.server, op);
    var last := ApplyFor(session, CLIENT_A, revision + |deletes| + 1, op);
    if Fits(last) {
      FittingInsertIsValid(session, CLIENT_A, revision + |deletes| + 1, op.pos, op.text);
    }
    LastIsDropped(first.announced, last);
    assert [] + first.announced == first.announced;
  }

  lemma InsertOf(before: Text, after: Text)
    ensures InsertedText(before, after) != [] ==>
            Inserts(before, after) == [InsertAt(CommonPrefix(before, after), InsertedText(before, after))]
    ensures InsertedText(before, after) == [] ==> Inserts(before, after) == []
  {
    hide CommonPrefix, InsertedText;
  }

  lemma DeletesCarried(s: Session, text: Text)
    requires MayReport(s, text)
    ensures AllCarried(s.server.session, CLIENT_A, s.server.revision, Deletes(s.server.document, text))
    ensures |Deletes(s.server.document, text)| <= 1
  {
    hide Carried, SessionCode, DeletedLength, CommonPrefix, Fits, ApplyFor, Request;
    DeletesGo(s.server.session, CLIENT_A, s.server.revision, s.server.revision + 1, s.server.document, text);
    var deletes := Deletes(s.server.document, text);
    if deletes != [] {
      assert deletes == [deletes[0]] && deletes[0] in deletes;
    }
  }

  /** Otherwise the host is apart from its server, or the guest stays behind it. */
  lemma HostReportFails(s: Session, text: Text)
    requires MayReport(s, text)
    requires !InsertGoes(s.server.session, CLIENT_A, s.server.revision, s.server.document, text)
    ensures var t := Next(s, HostTypesText(text));
            || Apart(t, t.server, t.host)
            || Behind(t, t.server, t.host, s.server.revision + |Deletes(s.server.document, text)|, Kept(s.server.document, text))
  {
    hide Fits, HostSends, DiffOperations, Announcements, SentAll, Fold, ApplyFor, Kept, Deletes, SessionCode, CommonPrefix,
         InsertedText, Utf8Size;
    var document, t := s.server.document, Next(s, HostTypesText(text));
    if |InsertedText(document, text)| > MAX_INSERT_CHARS {
      HostStaysInStepIff(s.host, s.server, text);
      SessionStays(s.host, s.server, text);
    } else {
      var deletes, revision := Deletes(document, text), s.server.revision;
      HostReportDropped(s, text);
      DeletesCarried(s, text);
      AnnouncementsAreCounted(s.server.session, revision, deletes);
      AnnouncementsAreNumbered(s.server.session, revision, deletes);
      DiffParts(document, text);
    }
  }

  lemma SessionStays(r: Replica, s: ServerState, text: Text)
    ensures HostTypes(r, s, text).server.session == s.session
  {
    if |text| <= MAX_DOCUMENT_CHARS {
      SessionStaysAll(r, s, DiffOperations(r.text, text));
    }
  }

  lemma {:induction false} SessionStaysAll(r: Replica, s: ServerState, ops: seq<Operation>)
    ensures HostSends(r, s, ops).server.session == s.session
    decreases |ops|
  {
    hide Decide;
    if ops != [] {
      var one := HostSendsOne(r, s, ops[0]);
      SessionStaysAll(one.replica, one.server, ops[1..]);
    }
  }

  /** The host's report reaches everybody, in every order of receiving, exactly when its insert is valid
      text, is within the request limit, and its announcement fits a frame. */
  lemma HostReportSettlesIff(s: Session, text: Text, steps: seq<Step>)
    requires MayReport(s, text) && AllReceive(steps) && Quiet(Run(Next(s, HostTypesText(text)), steps))
    ensures var u := Run(Next(s, HostTypesText(text)), steps);
            u.alive && Equal(u) <==> InsertGoes(s.server.session, CLIENT_A, s.server.revision, s.server.document, text)
  {
    hide Run, Next, InsertGoes, MayReport, Apart, Behind, Kept, Deletes;
    if InsertGoes(s.server.session, CLIENT_A, s.server.revision, s.server.document, text) {
      HostReportGoes(s, text, steps);
    } else {
      var t := Next(s, HostTypesText(text));
      HostReportFails(s, text);
      if Apart(t, t.server, t.host) {
        ApartRun(t, steps, t.server, t.host);
        ApartIsUnequal(Run(t, steps), t.server, t.host);
      } else {
        var revision, shown := s.server.revision + |Deletes(s.server.document, text)|, Kept(s.server.document, text);
        BehindRun(t, steps, t.server, t.host, revision, shown);
        BehindAtRest(Run(t, steps), t.server, t.host, revision, shown);
      }
    }
  }

  lemma ApartIsUnequal(u: Session, server: ServerState, host: Replica)
    requires Apart(u, server, host)
    ensures !Equal(u)
  {
  }

  lemma BehindAtRest(u: Session, server: ServerState, host: Replica, revision: nat, shown: Text)
    requires Behind(u, server, host, revision, shown) && Quiet(u)
    ensures u.guest.revision == revision && u.guest.text == shown && !Equal(u)
  {
    hide IsEdit;
    NothingToFold(u.guest.text);
  }

  lemma HostMayIff(s: Session, text: Text)
    requires MayReport(s, text)
    ensures Allowed(s, HostTypesText(text))
            <==> InsertGoes(s.server.session, CLIENT_A, s.server.revision, s.server.document, text)
  {
    hide InsertGoes, AllCarried, DiffOperations, SessionCode, InsertIsSent, AllSent;
    CarriedIff(s.server.session, CLIENT_A, s.server.revision, s.server.document, text);
  }

  // ---- One character for another ----

  /** Two characters outside the basic plane with the same first unit, U+1F600 and U+1F601. */
  const GRIN: Text := [0xD83D, 0xDE00]
  const BEAM: Text := [0xD83D, 0xDE01]

  /** The diff between them deletes the second unit and inserts another. */
  lemma HalfPairDiff()
    ensures CommonPrefix(GRIN, BEAM) == 1 && DeletedLength(GRIN, BEAM) == 1 && InsertedText(GRIN, BEAM) == [0xDE01]
    ensures DiffOperations(GRIN, BEAM) == [DeleteAt(1, 1), InsertAt(1, [0xDE01])]
    ensures Kept(GRIN, BEAM) == [0xD83D] && Utf8Size([0xDE01]).None?
  {
    PrefixUnique(GRIN, BEAM, 1);
    SuffixUnique(GRIN, BEAM, 1, 0);
    assert BEAM[1..2] == [0xDE01];
    assert GRIN[..1] == [0xD83D];
  }

  lemma GuestSendsHalf(s: Session)
    requires MayReport(s, BEAM) && s.server.document == GRIN
    ensures SentOf(s, BEAM) == [DeleteAt(1, 1)] && Announceable(s.server, SentOf(s, BEAM))
    ensures TakenAll(s.server, SentOf(s, BEAM)) == ServerState(s.server.session, [0xD83D], s.server.revision + 1)
  {
    hide TakenAll, Announceable, SentOperations, Fits, Request, DiffOperations, SessionCode;
    var session, revision := s.server.session, s.server.revision;
    HalfPairDiff();
    DeletesTaken(s.server, BEAM);
    SentAppend(session, revision, [DeleteAt(1, 1)], [InsertAt(1, [0xDE01])]);
    OneSent(session, revision, InsertAt(1, [0xDE01]));
    if Fits(Request(session, CLIENT_B, revision, InsertAt(1, [0xDE01]))) {
      FittingInsertIsValid(session, CLIENT_B, revision, 1, [0xDE01]);
    }
    assert Deletes(GRIN, BEAM) == [DeleteAt(1, 1)];
    assert DiffOperations(GRIN, BEAM) == [DeleteAt(1, 1)] + [InsertAt(1, [0xDE01])];
    assert SentOf(s, BEAM) == [DeleteAt(1, 1)] + [];
    assert [DeleteAt(1, 1)] + [] == [DeleteAt(1, 1)];
  }

  /** The guest replaces the one by the other: its window keeps the new character, everybody else is left
      with half of the old one, and all revisions agree. */
  lemma GuestReplacesCharacter(s: Session, steps: seq<Step>)
    requires MayReport(s, BEAM) && s.server.document == GRIN
    requires AllReceive(steps) && Quiet(Run(Next(s, GuestTypesText(BEAM)), steps))
    ensures var u := Run(Next(s, GuestTypesText(BEAM)), steps);
            && u.alive && u.host.revision == u.server.revision == u.guest.revision
            && u.guest.text == BEAM && u.server.document == u.host.text == [0xD83D]
  {
    hide Run, Next, TakenAll, Announceable, SentOperations, DiffOperations, SessionCode;
    GuestSendsHalf(s);
    GuestReportEnds(s, BEAM, steps);
  }

  /** The host replaces it: host and server have the new character, the guest is left with half of the old
      one and a revision behind. */
  lemma HostReplacesCharacter(s: Session, steps: seq<Step>)
    requires MayReport(s, BEAM) && s.server.document == GRIN
    requires AllReceive(steps) && Quiet(Run(Next(s, HostTypesText(BEAM)), steps))
    ensures var u := Run(Next(s, HostTypesText(BEAM)), steps);
            && u.alive && u.server.document == u.host.text == BEAM
            && u.guest.text == [0xD83D] && u.guest.revision + 1 == u.server.revision
  {
    hide Run, Next, Behind, DiffOperations, SessionCode, Kept, Utf8Size, Announcements, CommonPrefix, DeletedLength, InsertedText;
    HalfPairDiff();
    HostReportDropped(s, BEAM);
    var t := Next(s, HostTypesText(BEAM));
    HostReportFails(s, BEAM);
    if Apart(t, t.server, t.host) {
      assert false;
    }
    var revision := s.server.revision + 1;
    BehindRun(t, steps, t.server, t.host, revision, Kept(GRIN, BEAM));
    BehindAtRest(Run(t, steps), t.server, t.host, revision, Kept(GRIN, BEAM));
    BehindKeeps(Run(t, steps), t.server, t.host, revision, Kept(GRIN, BEAM));
  }

  lemma BehindKeeps(u: Session, server: ServerState, host: Replica, revision: nat, shown: Text)
    requires Behind(u, server, host, revision, shown)
    ensures u.server == server && u.host == host && u.alive
  {
  }

  /** Both runs come to rest. */
  lemma GuestReplacementRests(s: Session) returns (steps: seq<Step>)
    requires MayReport(s, BEAM) && s.server.document == GRIN
    ensures AllReceive(steps) && Quiet(Run(Next(s, GuestTypesText(BEAM)), steps))
  {
    hide Run, Next, MayCross, Crossed;
    NothingChanged(s, BEAM);
    steps := ReportsDrain(s, GRIN, [BEAM]);
  }

  lemma {:induction false} BehindRests(t: Session, server: ServerState, host: Replica, revision: nat, shown: Text) returns (steps: seq<Step>)
    requires Behind(t, server, host, revision, shown)
    ensures AllReceive(steps) && Quiet(Run(t, steps))
    decreases |t.toGuest|
  {
    hide Fits, OnEvent, InCount, SessionCode, Fold, HostOperations;
    steps := [];
    if t.toGuest != [] {
      BehindNext(t, GuestReceives, server, host, revision, shown);
      var rest := BehindRests(Next(t, GuestReceives), server, host, revision, shown);
      RunOneMore(t, GuestReceives, rest);
      steps := [GuestReceives] + rest;
    }
  }

  lemma HostReplacementRests(s: Session) returns (steps: seq<Step>)
    requires MayReport(s, BEAM) && s.server.document == GRIN
    ensures AllReceive(steps) && Quiet(Run(Next(s, HostTypesText(BEAM)), steps))
  {
    hide Run, Next, Behind, DiffOperations, SessionCode, Kept, Utf8Size, Announcements, CommonPrefix, DeletedLength, InsertedText;
    HalfPairDiff();
    HostReportDropped(s, BEAM);
    var t := Next(s, HostTypesText(BEAM));
    HostReportFails(s, BEAM);
    steps := BehindRests(t, t.server, t.host, s.server.revision + 1, Kept(GRIN, BEAM));
  }
}
