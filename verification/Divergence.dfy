/** What reports come to in some families of cases: one letter each into an empty document, changes in
    different places of the document, and a report that the server cannot announce, followed by another. */
module Divergence {
  import opened WideText
  import opened DocumentModel
  import opened EditorDiff
  import opened Protocol
  import opened JsonPrinter
  import opened Server
  import opened Replica
  import opened TurnTaking
  import opened FrameSizes
  import opened Receiving
  import opened Crossing
  import opened SingleEdits

  const A: Text := [0x61]
  const B: Text := [0x62]

  lemma TypingIntoEmpty(text: Text)
    requires text != []
    ensures DiffOperations([], text) == [InsertAt(0, text)]
  {
    assert CommonPrefix([], text) == 0 && CommonSuffix([], text, 0) == 0;
    assert text[0..|text|] == text;
  }

  /** A settled session with an empty document. */
  ghost predicate Empty(s: Session) {
    && Init(s) && s.guest.chunks == [] && SessionCode(s.server.session)
    && s.server.document == [] && s.server.revision + 4 <= UINT64_MAX
  }

  lemma OneUnit(u: Unit)
    requires u < 0x80
    ensures Utf8Size([u]) == Some(1)
  {
    assert [u][1..] == [];
  }

  lemma LettersGo(s: Session)
    requires Empty(s)
    ensures MayCross(s, A, [B]) && GuestFits(s, B)
  {
    hide Fits, Carried, ApplyFor, Request, SessionCode, DiffOperations;
    var session, revision := s.server.session, s.server.revision;
    TypingIntoEmpty(A);
    TypingIntoEmpty(B);
    OneUnit(A[0]);
    OneUnit(B[0]);
    SmallEditIsCarried(session, InsertAt(0, A), CLIENT_A, revision, revision + 1);
    forall later: nat | later <= UINT64_MAX
      ensures Carried(session, CLIENT_B, later, InsertAt(0, B)) && Fits(Request(session, CLIENT_B, revision, InsertAt(0, B)))
    {
      SmallEditIsCarried(session, InsertAt(0, B), CLIENT_B, revision, later);
    }
    SmallEditIsCarried(session, InsertAt(0, B), CLIENT_B, revision, 0);
    CarriedIsFit(session, InsertAt(0, B));
  }

  lemma LettersEnd(s: Session)
    requires Empty(s)
    ensures GuestShows(s, A, B) == Some(A + B) && ServerShows(s, A, B) == B + A && A + B != B + A
  {
    hide DiffOperations, Fold, SessionCode;
    TypingIntoEmpty(A);
    TypingIntoEmpty(B);
    FoldOne(B, InsertAt(0, A));
    FoldOne(A, InsertAt(0, B));
    assert Edit(B, InsertAt(0, A)) == A + B && Edit(A, InsertAt(0, B)) == B + A;
    ServedIsFold(A, [InsertAt(0, B)]);
    assert (A + B)[0] != (B + A)[0];
  }

  lemma CarriedIsFit(session: Text, op: Operation)
    requires forall later: nat :: later <= UINT64_MAX ==> Carried(session, CLIENT_B, later, op)
    ensures forall later: nat :: later <= UINT64_MAX ==> Fits(ApplyFor(session, CLIENT_B, later, op))
  {
    hide Fits, ApplyFor;
    forall later: nat | later <= UINT64_MAX
      ensures Fits(ApplyFor(session, CLIENT_B, later, op))
    {
      assert Carried(session, CLIENT_B, later, op);
    }
  }

  /** The host types one letter and the guest another before it hears of it: in every order of receiving, all
      revisions agree in the end and the texts do not. */
  lemma ConcurrentEditsDiverge(s: Session, steps: seq<Step>)
    requires Empty(s) && AllReceive(steps)
    requires Quiet(Run(Next(Next(s, HostTypesText(A)), GuestTypesText(B)), steps))
    ensures var u := Run(Next(Next(s, HostTypesText(A)), GuestTypesText(B)), steps);
            && u.alive && u.host.revision == u.server.revision == u.guest.revision
            && u.host.text == u.server.document == B + A && u.guest.text == A + B && A + B != B + A
  {
    hide Run, Next, MayCross, GuestFits, GuestShows, ServerShows;
    LettersGo(s);
    LettersEnd(s);
    OneReported(Next(s, HostTypesText(A)), B);
    CrossingEnds(s, A, B, steps);
  }

  /** The same when the guest reports first and the host while that request waits at the server. */
  lemma GuestFirstDiverges(s: Session, steps: seq<Step>)
    requires Empty(s) && AllReceive(steps)
    requires Quiet(Run(Next(Next(s, GuestTypesText(B)), HostTypesText(A)), steps))
    ensures var u := Run(Next(Next(s, GuestTypesText(B)), HostTypesText(A)), steps);
            && u.alive && u.host.revision == u.server.revision == u.guest.revision
            && u.host.text == u.server.document == B + A && u.guest.text == A + B && A + B != B + A
  {
    hide Run, Next, MayCross, GuestFits, GuestShows, ServerShows;
    LettersGo(s);
    LettersEnd(s);
    OneReported(Next(s, HostTypesText(A)), B);
    ReportsCommute(s, A, B);
    ConcurrentEditsDiverge(s, steps);
  }

  /** There is such a run. */
  lemma LettersComeToRest(s: Session) returns (steps: seq<Step>)
    requires Empty(s)
    ensures AllReceive(steps) && Quiet(Run(Next(Next(s, HostTypesText(A)), GuestTypesText(B)), steps))
  {
    hide Run, Next, MayCross, GuestFits, GuestShows, ServerShows;
    LettersGo(s);
    LettersEnd(s);
    OneReported(Next(s, HostTypesText(A)), B);
    steps := ReportsDrain(s, A, [B]);
  }

  // ---- Changes in different places ----

  /** The diff, applied to some other text that is long enough. */
  lemma DiffOnOther(before: Text, after: Text, content: Text)
    requires CommonPrefix(before, after) + DeletedLength(before, after) <= |content|
    requires |content| - DeletedLength(before, after) + |InsertedText(before, after)| <= MAX_DOCUMENT_CHARS
    ensures Fold(content, DiffOperations(before, after))
         == Some(Replace(content, CommonPrefix(before, after), DeletedLength(before, after), InsertedText(before, after)))
  {
    hide CommonPrefix, DeletedLength, InsertedText;
    var prefix, deleted, inserted := CommonPrefix(before, after), DeletedLength(before, after), InsertedText(before, after);
    var kept := Replace(content, prefix, deleted, []);
    DeleteThenInsert(content, prefix, deleted, inserted);
    FoldOne(content, DeleteAt(prefix, deleted));
    FoldOne(kept, InsertAt(prefix, inserted));
    FoldAppend(content, [DeleteAt(prefix, deleted)], [InsertAt(prefix, inserted)]);
    if deleted == 0 {
      assert kept == content;
    }
    if inserted == [] {
      assert Replace(content, prefix, deleted, inserted) == kept;
    }
    NothingToFold(content);
    if deleted == 0 {
      assert DiffOperations(before, after) == if inserted == [] then [] else [InsertAt(prefix, inserted)];
    } else if inserted == [] {
      assert DiffOperations(before, after) == [DeleteAt(prefix, deleted)];
    }
  }

  /** Replacing at either of two places gives the same text exactly when what lies between them rolls over
      the inserted text. */
  predicate Rolls(text: Text, i: nat, j: nat, length: nat, inserted: Text)
    requires i <= j && j + length <= |text|
  {
    text[i..j] + inserted == inserted + text[i + length..j + length]
  }

  lemma ShiftedReplaceIff(text: Text, i: nat, j: nat, length: nat, inserted: Text)
    requires i <= j && j + length <= |text|
    ensures Replace(text, i, length, inserted) == Replace(text, j, length, inserted) <==> Rolls(text, i, j, length, inserted)
  {
    var head, tail := text[..i], text[j + length..];
    var one, other := inserted + text[i + length..j + length], text[i..j] + inserted;
    assert text[i + length..] == text[i + length..j + length] + tail;
    assert Replace(text, i, length, inserted) == head + one + tail;
    assert text[..j] == head + text[i..j];
    assert Replace(text, j, length, inserted) == head + other + tail;
    assert (head + one + tail)[i..i + |one|] == one && (head + other + tail)[i..i + |other|] == other;
  }

  /** A change at the front and one behind it, both made. */
  lemma MergedReplacement(text: Text, p: nat, d: nat, u: Text, q: nat, e: nat, v: Text)
    requires p + d <= q && q + e <= |text|
    ensures q + |u| - d + e <= |Replace(text, p, d, u)|
    ensures Replace(Replace(text, q, e, v), p, d, u) == Replace(Replace(text, p, d, u), q + |u| - d, e, v)
  {
    var back, front := Replace(text, q, e, v), Replace(text, p, d, u);
    assert back == text[..p] + text[p..p + d] + text[p + d..q] + v + text[q + e..];
    assert front == text[..p] + u + text[p + d..q] + text[q..];
    assert front[..q + |u| - d] == text[..p] + u + text[p + d..q];
    assert front[q + |u| - d + e..] == text[q + e..];
    assert back[..p] == text[..p] && back[p + d..] == text[p + d..q] + v + text[q + e..];
  }

  /** One change lies before the other, the raw position of the one behind exists in the text with the one in
      front, and the text with both is within the document limit. */
  predicate InFront(document: Text, front: Text, back: Text) {
    && CommonPrefix(document, front) + DeletedLength(document, front) <= CommonPrefix(document, back)
    && CommonPrefix(document, back) + DeletedLength(document, back) <= |front|
    && |front| - DeletedLength(document, back) + |InsertedText(document, back)| <= MAX_DOCUMENT_CHARS
  }

  /** By how much the change in front moves what is behind it. */
  function Growth(document: Text, front: Text): int {
    |InsertedText(document, front)| - DeletedLength(document, front)
  }

  /** The text between the raw and the moved position of the change behind rolls over what it inserts. */
  predicate RawIsRight(document: Text, front: Text, back: Text)
    requires InFront(document, front, back)
  {
    var q, e, v := CommonPrefix(document, back), DeletedLength(document, back), InsertedText(document, back);
    var moved := q + Growth(document, front);
    InFrontFits(document, front, back);
    if q <= moved then Rolls(front, q, moved, e, v) else Rolls(front, moved, q, e, v)
  }

  lemma InFrontFits(document: Text, front: Text, back: Text)
    requires InFront(document, front, back)
    ensures var moved := CommonPrefix(document, back) + Growth(document, front);
            0 <= moved && moved + DeletedLength(document, back) <= |front|
  {
    DiffShape(document, front);
    assert CommonPrefix(document, front) + DeletedLength(document, front) <= |document|;
    assert CommonPrefix(document, back) + DeletedLength(document, back) <= |document|;
  }

  lemma BothPlaces(text: Text, p: nat, d: nat, u: Text, q: nat, e: nat, v: Text)
    requires p + d <= q && q + e <= |text| && q + e <= |Replace(text, p, d, u)|
    ensures var front, back, moved := Replace(text, p, d, u), Replace(text, q, e, v), q + |u| - d;
            && moved + e <= |front| && p + d <= |back|
            && (Replace(back, p, d, u) == Replace(front, q, e, v)
                <==> if q <= moved then Rolls(front, q, moved, e, v) else Rolls(front, moved, q, e, v))
  {
    hide Rolls;
    MergedReplacement(text, p, d, u, q, e, v);
    var front, moved := Replace(text, p, d, u), q + |u| - d;
    if q <= moved {
      ShiftedReplaceIff(front, q, moved, e, v);
    } else {
      ShiftedReplaceIff(front, moved, q, e, v);
    }
  }

  lemma FrontAndBack(document: Text, front: Text, back: Text)
    requires InFront(document, front, back)
    ensures Fold(back, DiffOperations(document, front)).Some? && Fold(front, DiffOperations(document, back)).Some?
    ensures Fold(back, DiffOperations(document, front)) == Fold(front, DiffOperations(document, back))
            <==> RawIsRight(document, front, back)
  {
    hide CommonPrefix, DeletedLength, InsertedText, Fold, DiffOperations, Rolls, Replace;
    var p, d, u := CommonPrefix(document, front), DeletedLength(document, front), InsertedText(document, front);
    var q, e, v := CommonPrefix(document, back), DeletedLength(document, back), InsertedText(document, back);
    DiffRange(document, front);
    DiffRange(document, back);
    BothPlaces(document, p, d, u, q, e, v);
    DiffOnOther(document, front, back);
    DiffOnOther(document, back, front);
  }

  lemma DiffRange(before: Text, after: Text)
    ensures CommonPrefix(before, after) + DeletedLength(before, after) <= |before|
    ensures Replace(before, CommonPrefix(before, after), DeletedLength(before, after), InsertedText(before, after)) == after
    ensures |after| == |before| - DeletedLength(before, after) + |InsertedText(before, after)|
  {
    DiffShape(before, after);
  }

  /** Crossing changes in different places agree exactly when the raw position of the one behind is as good as
      its moved one, whichever side made the one in front. */
  lemma DifferentPlacesAgreeIff(s: Session, hostText: Text, guestText: Text)
    requires MayCross(s, hostText, [guestText])
    requires |InsertedText(s.server.document, guestText)| <= MAX_INSERT_CHARS
    requires InFront(s.server.document, hostText, guestText) || InFront(s.server.document, guestText, hostText)
    ensures InFront(s.server.document, hostText, guestText) ==>
            (Agree(s, hostText, guestText) <==> RawIsRight(s.server.document, hostText, guestText))
    ensures InFront(s.server.document, guestText, hostText) ==>
            (Agree(s, hostText, guestText) <==> RawIsRight(s.server.document, guestText, hostText))
  {
    hide Fold, ServedText, InFront, RawIsRight, InsertedText, DeletedLength, CommonPrefix, AllCarried, SessionCode;
    var document := s.server.document;
    if InFront(document, hostText, guestText) {
      FrontAndBack(document, hostText, guestText);
      ServedIsFold(hostText, DiffOperations(document, guestText));
    }
    if InFront(document, guestText, hostText) {
      FrontAndBack(document, guestText, hostText);
      ServedIsFold(hostText, DiffOperations(document, guestText));
    }
  }

  /** In particular a change in front that keeps its length does no harm. */
  lemma EqualLengthInFrontAgrees(s: Session, hostText: Text, guestText: Text)
    requires MayCross(s, hostText, [guestText])
    requires |InsertedText(s.server.document, guestText)| <= MAX_INSERT_CHARS
    requires || (InFront(s.server.document, hostText, guestText) && Growth(s.server.document, hostText) == 0)
             || (InFront(s.server.document, guestText, hostText) && Growth(s.server.document, guestText) == 0)
    ensures Agree(s, hostText, guestText)
  {
    hide InFront, Agree, MayCross, InsertedText, Growth;
    DifferentPlacesAgreeIff(s, hostText, guestText);
    if InFront(s.server.document, hostText, guestText) && Growth(s.server.document, hostText) == 0 {
      NoGrowth(s.server.document, hostText, guestText);
    } else {
      NoGrowth(s.server.document, guestText, hostText);
    }
  }

  lemma NoGrowth(document: Text, front: Text, back: Text)
    requires InFront(document, front, back) && Growth(document, front) == 0
    ensures RawIsRight(document, front, back)
  {
    hide Growth;
    InFrontFits(document, front, back);
    var q, e, v := CommonPrefix(document, back), DeletedLength(document, back), InsertedText(document, back);
    assert front[q..q] + v == v + front[q + e..q + e];
  }

  // ---- A report that cannot be announced, followed by another ----

  lemma {:induction false} TakenStops(s: ServerState, a: seq<Operation>, b: seq<Operation>)
    requires !Announceable(s, a)
    ensures TakenAll(s, a + b) == TakenAll(s, a) && !Announceable(s, a + b)
    decreases |a|
  {
    hide Breaks, Taken;
    assert a != [];
    assert (a + b)[1..] == a[1..] + b;
    if !Breaks(s, a[0]) {
      TakenStops(Taken(s, a[0]), a[1..], b);
    }
  }

  /** The server never reads what follows: it and the host end with the first report, whatever the guest
      typed after it, and the connection has ended. */
  lemma RestIsUnread(s: Session, first: Text, more: seq<Text>, steps: seq<Step>)
    requires MayReport(s, first) && MayCross(s, s.server.document, [first] + more)
    requires Unannounced(s.server.session, s.server.revision, s.server.document, first)
    requires AllReceive(steps) && Quiet(Run(Crossed(s, s.server.document, [first] + more), steps))
    ensures var u := Run(Crossed(s, s.server.document, [first] + more), steps);
            u.server.document == first && u.host.text == first && !u.alive
  {
    hide Run, Crossed, DiffOperations, TakenAll, Announceable, SentOperations, Unannounced, CleanCuts, MayCross, Fold, SessionCode;
    ReportsEnd(s, s.server.document, [first] + more, steps);
    NothingChanged(s, first);
    ReportBreaks(s.server, first);
    assert ([first] + more)[1..] == more;
    TakenStops(s.server, SentOf(s, first), SentReports(s.server.session, s.server.revision, first, more));
  }
}
