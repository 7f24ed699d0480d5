/** The server over a whole run of edit requests from both sides: what it emits determines what it holds. */
module SequencerRuns {
  import opened WideText
  import opened DocumentModel
  import opened Protocol
  import opened Server
  import opened Replica
  import opened TurnTaking

  datatype Outcome = Outcome(state: ServerState, applies: seq<Message>)

  /** One request, from the host or the guest, after the run so far. */
  function Take(run: Outcome, m: Message): Outcome {
    match Decide(run.state.session, run.state.document, run.state.revision, m)
    case Refused(_) => run
    case Accepted(document, apply) =>
      Outcome(ServerState(run.state.session, document, run.state.revision + 1), run.applies + [apply])
  }

  function TakeAll(start: ServerState, requests: seq<Message>): Outcome
    decreases |requests|
  {
    if requests == [] then Outcome(start, [])
    else Take(TakeAll(start, requests[..|requests| - 1]), requests[|requests| - 1])
  }

  /** Exactly the well-formed requests of this session whose operation applies are accepted. */
  lemma AcceptedIff(session: Text, document: Text, revision: nat, m: Message)
    ensures Decide(session, document, revision, m).Accepted? <==>
            && m.session == session && (m.client == CLIENT_A || m.client == CLIENT_B)
            && RequestedOperation(m).Some?
            && Status(document, RequestedOperation(m).value).Applied?
            && (RequestedOperation(m).value.InsertAt? ==> |RequestedOperation(m).value.text| <= MAX_INSERT_CHARS)
  {
  }

  /** An accepted request is announced as the operation it asked for, under the next revision. */
  lemma AcceptedIsAnnounced(session: Text, document: Text, revision: nat, m: Message)
    requires Decide(session, document, revision, m).Accepted?
    ensures var verdict := Decide(session, document, revision, m);
            && RequestedOperation(m).Some? && AnnouncedOperation(verdict.apply) == RequestedOperation(m)
            && IsApply(session, verdict.apply, revision + 1) && verdict.apply.client == m.client
            && Status(document, RequestedOperation(m).value).Applied?
            && verdict.document == Edit(document, RequestedOperation(m).value)
  {
    hide Edit;
    ApplyForReadsBack(session, m.client, revision + 1, RequestedOperation(m).value);
  }

  /** The document is the fold of the emitted APPLY messages over the starting content, the revision
      counts them, and they are numbered without a gap. */
  ghost predicate IsReplay(start: ServerState, run: Outcome) {
    && run.state.session == start.session
    && run.state.revision == start.revision + |run.applies|
    && Numbered(start.session, run.applies, start.revision)
    && Fold(start.document, AnnouncedOperations(run.applies)) == Some(run.state.document)
  }

  lemma OneMoreIsReplay(start: ServerState, before: Outcome, m: Message)
    requires IsReplay(start, before)
    ensures IsReplay(start, Take(before, m))
  {
    hide Decide, AnnouncedOperation, AnnouncedOperations, RequestedOperation, IsApply, Status, Edit, Fold, Numbered;
    var verdict := Decide(before.state.session, before.state.document, before.state.revision, m);
    if verdict.Accepted? {
      AcceptedIsAnnounced(before.state.session, before.state.document, before.state.revision, m);
      OneMessage(verdict.apply);
      AnnouncedOperationsAppend(before.applies, [verdict.apply]);
      OneIsNumbered(start.session, verdict.apply, start.revision + |before.applies|);
      NumberedAppend(start.session, before.applies, [verdict.apply], start.revision);
      FoldAppend(start.document, AnnouncedOperations(before.applies), AnnouncedOperations([verdict.apply]));
      FoldOne(before.state.document, AnnouncedOperation(verdict.apply).value);
    }
  }

  /** Over every run the result is a replay of what was announced, and inserts never push the document
      past the limit. */
  lemma {:induction false} RunIsReplay(start: ServerState, requests: seq<Message>)
    ensures var run := TakeAll(start, requests);
            && IsReplay(start, run)
            && (|run.state.document| <= MAX_DOCUMENT_CHARS || |run.state.document| <= |start.document|)
    decreases |requests|
  {
    hide Take, AnnouncedOperation, IsApply;
    if requests != [] {
      RunIsReplay(start, requests[..|requests| - 1]);
      OneMoreIsReplay(start, TakeAll(start, requests[..|requests| - 1]), requests[|requests| - 1]);
    }
    FoldStaysWithinLimit(start.document, AnnouncedOperations(TakeAll(start, requests).applies));
  }

  /** What a window has become after a run of messages. */
  function Follow(r: Replica, messages: seq<Message>): Replica
    decreases |messages|
  {
    if messages == [] then r else Follow(OnEvent(r, messages[0]).replica, messages[1..])
  }

  /** The announced operations whose author is somebody else. */
  function OthersOperations(messages: seq<Message>, client: Text): seq<Operation> {
    if messages == [] then []
    else
      (if messages[0].client != client && AnnouncedOperation(messages[0]).Some? then [AnnouncedOperation(messages[0]).value] else [])
      + OthersOperations(messages[1..], client)
  }

  lemma {:induction false} NoneAreOwn(messages: seq<Message>, client: Text)
    requires forall i :: 0 <= i < |messages| ==> messages[i].client != client
    ensures OthersOperations(messages, client) == AnnouncedOperations(messages)
  {
    hide AnnouncedOperation;
    if messages != [] {
      NoneAreOwn(messages[1..], client);
    }
  }

  lemma OthersFirst(r: Replica, messages: seq<Message>)
    requires messages != [] && AnnouncedOperation(messages[0]).Some?
    requires Fold(r.text, OthersOperations(messages, r.localClient)).Some?
    ensures var op, rest := AnnouncedOperation(messages[0]).value, OthersOperations(messages[1..], r.localClient);
            && (messages[0].client == r.localClient ==>
                  Fold(r.text, rest) == Fold(r.text, OthersOperations(messages, r.localClient)))
            && (messages[0].client != r.localClient ==>
                  && Status(r.text, op).Applied?
                  && Fold(Edit(r.text, op), rest) == Fold(r.text, OthersOperations(messages, r.localClient)))
  {
    hide AnnouncedOperation, Status, Edit, Fold;
    var rest := OthersOperations(messages[1..], r.localClient);
    if messages[0].client == r.localClient {
      assert OthersOperations(messages, r.localClient) == rest;
    } else {
      FoldFirst(r.text, AnnouncedOperation(messages[0]).value, rest);
    }
  }

  /** A window that gets numbered announcements in order counts them all. Its own it only confirms; of the
      others' it applies each, as long as they apply to its text. */
  lemma {:induction false} FollowNumbered(r: Replica, session: Text, messages: seq<Message>)
    requires Numbered(session, messages, r.revision)
    requires Fold(r.text, OthersOperations(messages, r.localClient)).Some?
    ensures Follow(r, messages)
         == r.(text := Fold(r.text, OthersOperations(messages, r.localClient)).value, revision := r.revision + |messages|)
    decreases |messages|
  {
    hide OnEvent, AnnouncedOperation, IsApply, Edit, Status;
    if messages != [] {
      NumberedRest(session, messages, r.revision);
      HasOperation(session, messages[0], r.revision + 1);
      OthersFirst(r, messages);
      OnNextApply(r, session, messages[0]);
      FollowNumbered(OnEvent(r, messages[0]).replica, session, messages[1..]);
    }
  }

  lemma HasOperation(session: Text, m: Message, revision: nat)
    requires IsApply(session, m, revision)
    ensures AnnouncedOperation(m).Some?
  {
  }

  /** A window in step that has none of the accepted edits to its name ends with the server's document and
      revision, whoever it is: the host's window when only the guest edits, and the other way round. */
  lemma FollowerConverges(start: ServerState, requests: seq<Message>, r: Replica)
    requires r.text == start.document && r.revision == start.revision
    requires forall m :: m in TakeAll(start, requests).applies ==> m.client != r.localClient
    ensures var run := TakeAll(start, requests);
            Follow(r, run.applies) == r.(text := run.state.document, revision := run.state.revision)
  {
    var run := TakeAll(start, requests);
    RunIsReplay(start, requests);
    NoneAreOwn(run.applies, r.localClient);
    FollowNumbered(r, start.session, run.applies);
  }

  /** With edits of both authors, a window at the starting revision, whatever it shows, ends at the server's
      revision with the others' edits applied to its own text. */
  lemma MixedFollower(start: ServerState, requests: seq<Message>, r: Replica)
    requires r.revision == start.revision
    requires Fold(r.text, OthersOperations(TakeAll(start, requests).applies, r.localClient)).Some?
    ensures var run := TakeAll(start, requests);
            Follow(r, run.applies)
            == r.(text := Fold(r.text, OthersOperations(run.applies, r.localClient)).value, revision := run.state.revision)
  {
    RunIsReplay(start, requests);
    FollowNumbered(r, start.session, TakeAll(start, requests).applies);
  }
}
