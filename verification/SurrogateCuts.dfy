/** The server cuts a document every 8192 code units, without regard to surrogate pairs. A cut through
    a pair leaves two chunks that the strict conversion to UTF-8 refuses, so the full sync breaks off. */
module SurrogateCuts {
  import opened WideText
  import opened Protocol
  import opened JsonPrinter
  import opened Chunks
  import opened Server
  import opened FrameSizes
  import opened ValidText

  predicate NoPairCut(document: Text) {
    var cuts := Cuts(document, SYNC_CHUNK_CHARS);
    forall i :: 0 < i < |cuts| ==> CleanCut(cuts[i - 1], cuts[i])
  }

  lemma {:induction false} CutsAreValid(document: Text)
    requires Utf8Size(document).Some? && NoPairCut(document)
    ensures CleanCuts(document)
    decreases |document|
  {
    if |document| > SYNC_CHUNK_CHARS {
      var head, rest := document[..SYNC_CHUNK_CHARS], document[SYNC_CHUNK_CHARS..];
      var cuts, later := Cuts(document, SYNC_CHUNK_CHARS), Cuts(rest, SYNC_CHUNK_CHARS);
      assert cuts == [head] + later;
      assert document == head + rest;
      CutsAtOffset(rest, SYNC_CHUNK_CHARS, 0, 0);
      assert CleanCut(cuts[0], cuts[1]);
      assert rest[0] == cuts[1][0];
      Utf8SizeSplit(head, rest);
      forall i | 0 < i < |later| ensures CleanCut(later[i - 1], later[i]) {
        assert CleanCut(cuts[i + 1 - 1], cuts[i + 1]);
      }
      CutsAreValid(rest);
    }
  }

  /** Every chunk of valid text is valid exactly when no cut goes through a pair. */
  lemma CleanCutsIff(document: Text)
    requires Utf8Size(document).Some?
    ensures CleanCuts(document) <==> NoPairCut(document)
  {
    if NoPairCut(document) {
      CutsAreValid(document);
    }
    if CleanCuts(document) {
      var cuts := Cuts(document, SYNC_CHUNK_CHARS);
      forall i | 0 < i < |cuts| ensures CleanCut(cuts[i - 1], cuts[i]) {
        if cuts[i - 1] != [] {
          ValidTextEndsWhole(cuts[i - 1]);
        }
      }
    }
  }

  /** A chunk whose text is not valid cannot be sent. */
  lemma ChunkNeedsValidText(session: Text, revision: nat, index: nat, count: nat, text: Text)
    requires Fits(ChunkMessage(session, revision, index, count, text))
    ensures Utf8Size(text).Some?
  {
    hide Fits;
    var m := ChunkMessage(session, revision, index, count, text);
    KeysDiffer();
    FieldNeedsValidText(m, TEXT);
  }

  lemma AllFitCons(messages: seq<Message>)
    requires messages != []
    ensures (forall i :: 0 <= i < |messages| ==> Fits(messages[i]))
            <==> Fits(messages[0]) && forall i :: 0 <= i < |messages[1..]| ==> Fits(messages[1..][i])
  {
    hide Fits;
    forall i | 0 < i < |messages|
      ensures messages[i] == messages[1..][i - 1]
    {
    }
  }

  lemma {:induction false} FittingAll(messages: seq<Message>)
    ensures Fitting(messages) == messages <==> forall i :: 0 <= i < |messages| ==> Fits(messages[i])
    decreases |messages|
  {
    hide Fits;
    if messages != [] {
      FittingStep(messages);
      FittingAll(messages[1..]);
      AllFitCons(messages);
      assert messages == [messages[0]] + messages[1..];
    }
  }

  /** With a six-unit session code the server sends the whole sync exactly when every chunk is valid text;
      otherwise it stops at the first that is not and drops the peer. */
  lemma SyncIsSentIff(session: Text, document: Text, revision: nat)
    requires SessionCode(session) && revision <= UINT64_MAX && |Cuts(document, SYNC_CHUNK_CHARS)| <= UINT64_MAX
    ensures var responses := SyncResponses(session, document, revision);
            Fitting(responses) == responses <==> CleanCuts(document)
  {
    hide Fits, ChunkMessage;
    var cuts, responses := Cuts(document, SYNC_CHUNK_CHARS), SyncResponses(session, document, revision);
    FittingAll(responses);
    if CleanCuts(document) {
      forall i | 0 <= i < |responses| ensures Fits(responses[i]) {
        ChunkFrameIsSafe(session, document, revision, i);
      }
    }
    if forall i :: 0 <= i < |responses| ==> Fits(responses[i]) {
      forall i | 0 <= i < |cuts| ensures Utf8Size(cuts[i]).Some? {
        assert responses[i] == ChunkMessage(session, revision, i, |cuts|, cuts[i]);
        ChunkNeedsValidText(session, revision, i, |cuts|, cuts[i]);
      }
    }
  }

  /** For valid text that is exactly when no cut goes through a surrogate pair. */
  lemma FullSyncIsSentIff(session: Text, document: Text, revision: nat)
    requires SessionCode(session) && Utf8Size(document).Some? && revision <= UINT64_MAX
    requires |Cuts(document, SYNC_CHUNK_CHARS)| <= UINT64_MAX
    ensures var responses := SyncResponses(session, document, revision);
            Fitting(responses) == responses <==> NoPairCut(document)
  {
    hide Fits, ChunkMessage, Fitting, SyncResponses, CleanCuts, NoPairCut;
    SyncIsSentIff(session, document, revision);
    CleanCutsIff(document);
  }
}
