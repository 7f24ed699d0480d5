/** One report of the host's editor, edit by edit: what its window and its own server make of it. */
module HostSteps {
  import opened WideText
  import opened DocumentModel
  import opened EditorDiff
  import opened Protocol
  import opened Server
  import opened Replica

  lemma HostTurnOfDiff(r: Replica, s: ServerState, deletes: seq<Operation>, op: Operation)
    ensures HostSends(r, s, deletes + [op])
         == var first := HostSends(r, s, deletes);
            var second := HostSendsOne(first.replica, first.server, op);
            HostTurn(second.replica, second.server, first.announced + second.announced)
    decreases |deletes|
  {
    hide HostSendsOne;
    if deletes == [] {
      assert deletes + [op] == [op] && [op][1..] == [];
      assert HostSends(r, s, [op]).announced == HostSendsOne(r, s, op).announced + [];
    } else {
      var one := HostSendsOne(r, s, deletes[0]);
      assert (deletes + [op])[1..] == deletes[1..] + [op];
      HostTurnOfDiff(one.replica, one.server, deletes[1..], op);
    }
  }

  /** A host window in step with its server is in step after a report of the editor exactly when the
      diff inserts no more than one request may carry. Otherwise the window keeps the typed text, the
      server refuses the insert, and the two differ. */
  lemma HostStaysInStepIff(r: Replica, s: ServerState, text: Text)
    requires r.text == s.document && r.localClient == CLIENT_A && |text| <= MAX_DOCUMENT_CHARS
    ensures var turn := HostTypes(r, s, text);
            turn.replica.text == turn.server.document <==> |InsertedText(s.document, text)| <= MAX_INSERT_CHARS
  {
    hide HostSendsOne, Decide, CommonPrefix, CommonSuffix, Replace, HostSends;
    var document := s.document;
    var prefix, deleted, inserted := CommonPrefix(document, text), DeletedLength(document, text), InsertedText(document, text);
    var kept := Replace(document, prefix, deleted, []);
    DiffShape(document, text);
    DeleteThenInsert(document, prefix, deleted, inserted);
    var deletes := if deleted > 0 then [DeleteAt(prefix, deleted)] else [];
    DeletesAlone(r, s, prefix, deleted);
    var first := HostSends(r, s, deletes);
    if inserted == [] {
      assert DiffOperations(document, text) == deletes;
      KeptIsWhole(kept, prefix);
    } else {
      assert DiffOperations(document, text) == deletes + [InsertAt(prefix, inserted)];
      HostTurnOfDiff(r, s, deletes, InsertAt(prefix, inserted));
      InsertGrows(kept, prefix, inserted);
      OneDecision(first.replica, first.server, InsertAt(prefix, inserted));
    }
  }

  lemma KeptIsWhole(kept: Text, prefix: nat)
    requires prefix <= |kept|
    ensures Replace(kept, prefix, 0, []) == kept
  {
  }

  lemma InsertGrows(kept: Text, prefix: nat, inserted: Text)
    requires prefix <= |kept|
    ensures |Replace(kept, prefix, 0, inserted)| == |kept| + |inserted|
  {
  }

  /** The deleting half of a diff, which is never refused. */
  lemma DeletesAlone(r: Replica, s: ServerState, prefix: nat, deleted: nat)
    requires r.localClient == CLIENT_A && prefix + deleted <= |s.document|
    ensures var first := HostSends(r, s, if deleted > 0 then [DeleteAt(prefix, deleted)] else []);
            && first.server.document == Replace(s.document, prefix, deleted, [])
            && first.server.session == s.session && first.replica.localClient == CLIENT_A
            && prefix <= |first.server.document|
  {
    hide HostSendsOne, Decide;
    if deleted > 0 {
      assert [] + [DeleteAt(prefix, deleted)] == [DeleteAt(prefix, deleted)];
      HostTurnOfDiff(r, s, [], DeleteAt(prefix, deleted));
      OneDecision(r, s, DeleteAt(prefix, deleted));
    } else {
      assert Replace(s.document, prefix, deleted, []) == s.document;
    }
  }

  lemma OneDecision(r: Replica, s: ServerState, op: Operation)
    requires r.localClient == CLIENT_A && Status(s.document, op).Applied?
    ensures var turn := HostSendsOne(r, s, op);
            && turn.server.session == s.session && turn.replica.localClient == CLIENT_A
            && turn.server.document
               == if op.InsertAt? && |op.text| > MAX_INSERT_CHARS then s.document else Edit(s.document, op)
  {
    RequestReadsBack(s.session, CLIENT_A, s.revision, op);
    KeysDiffer();
  }
}
