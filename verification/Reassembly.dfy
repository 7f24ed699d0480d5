/** Chunks of one document, fed to the window in any order and any number of times
    (client/sync_server.cpp SendSyncResponse against client/webview_window.cpp ApplySyncResponse). */
module Reassembly {
  import opened WideText
  import opened Protocol
  import opened Chunks
  import opened Server
  import opened Replica

  type ChunkSize = n: nat | n > 0 witness 1

  /** What has arrived so far are chunks of `document`, each in its place. */
  predicate Collects(r: Replica, document: Text, size: ChunkSize) {
    var cuts := Cuts(document, size);
    && |r.chunks| == |cuts|
    && forall i :: 0 <= i < |cuts| && r.received[i] ==> r.chunks[i] == cuts[i]
  }

  /** Delivery of chunk `index` of `document`. */
  function Deliver(r: Replica, document: Text, size: ChunkSize, revision: nat, index: nat): Handled
    requires index < |Cuts(document, size)|
  {
    var cuts := Cuts(document, size);
    OnChunk(r, revision, index, |cuts|, cuts[index])
  }

  /** The window takes a chunk message of the server for exactly the chunk it carries. */
  lemma ResponseDelivers(r: Replica, session: Text, document: Text, revision: nat, index: nat)
    requires index < |Cuts(document, SYNC_CHUNK_CHARS)|
    ensures var m := SyncResponses(session, document, revision)[index];
            && m.kind == MessageType.SyncResponse && m.GetNumber(REV) == Some(revision)
            && OnEvent(r, m) == Deliver(r, document, SYNC_CHUNK_CHARS, revision, index)
  {
    var cuts := Cuts(document, SYNC_CHUNK_CHARS);
    ChunkMessageReadsBack(session, revision, index, |cuts|, cuts[index]);
  }

  /** A response that names no chunk is the whole text. One without text or revision, with no chunks at all or
      with a chunk past the last leaves the window as it is. */
  lemma PlainResponse(r: Replica, m: Message)
    requires m.kind == MessageType.SyncResponse
    ensures TEXT in m.strings && REV in m.numbers && CHUNK_INDEX !in m.numbers && CHUNK_COUNT !in m.numbers ==>
              OnEvent(r, m).replica == r.(text := m.strings[TEXT], revision := m.numbers[REV], chunks := [], received := [])
    ensures || TEXT !in m.strings || REV !in m.numbers
            || (CHUNK_COUNT in m.numbers && m.numbers[CHUNK_COUNT] == 0)
            || (CHUNK_INDEX in m.numbers
                && m.numbers[CHUNK_INDEX] >= (if CHUNK_COUNT in m.numbers then m.numbers[CHUNK_COUNT] else 1)) ==>
              OnEvent(r, m).replica == r && !OnEvent(r, m).reaction.ResyncNeeded?
  {
    hide StartCollecting;
  }

  /** An announcement without a revision, position or operation is ignored, and so is any other message. */
  lemma IgnoredMessage(r: Replica, m: Message)
    requires || (m.kind == MessageType.Apply && (REV !in m.numbers || POS !in m.numbers || OP !in m.strings))
             || (m.kind != MessageType.Apply && m.kind != MessageType.SyncResponse)
    ensures OnEvent(r, m).replica == r && !OnEvent(r, m).reaction.ResyncNeeded?
  {
  }

  /** One chunk either completes the document exactly, or leaves the shown text and revision alone
      and the collection sound. */
  lemma DeliverIsSound(r: Replica, document: Text, size: ChunkSize, revision: nat, index: nat)
    requires index < |Cuts(document, size)|
    requires r.syncRevision == revision ==> r.chunks == [] || Collects(r, document, size)
    ensures var h := Deliver(r, document, size, revision, index);
            || (h.reaction.Replaced? && h.replica.chunks == []
                && h.replica.text == document && h.replica.revision == revision)
            || (h.reaction.Collecting? && Collects(h.replica, document, size) && h.replica.syncRevision == revision
                && h.replica.text == r.text && h.replica.revision == r.revision)
    ensures Deliver(r, document, size, revision, index).replica.role == r.role
    ensures Deliver(r, document, size, revision, index).replica.localClient == r.localClient
  {
    var cuts := Cuts(document, size);
    var h := Deliver(r, document, size, revision, index);
    CutsConcat(document, size);
    if |cuts| == 1 {
      assert cuts == [cuts[0]];
      assert Concat(cuts) == cuts[0] + Concat(cuts[1..]);
    } else {
      var started := StartCollecting(r, revision, |cuts|);
      var received, chunks := started.received[index := true], started.chunks[index := cuts[index]];
      assert Collects(started, document, size);
      assert forall i :: 0 <= i < |cuts| && received[i] ==> chunks[i] == cuts[i];
      if AllReceived(received) {
        assert chunks == cuts;
      }
    }
  }

  predicate InRange(indices: seq<nat>, count: nat) {
    forall k :: 0 <= k < |indices| ==> indices[k] < count
  }

  /** Feeding the chunks with the given indices, one after the other. */
  function Feed(r: Replica, document: Text, size: ChunkSize, revision: nat, indices: seq<nat>): Replica
    requires InRange(indices, |Cuts(document, size)|)
    decreases |indices|
  {
    if indices == [] then r
    else
      var last := |indices| - 1;
      Deliver(Feed(r, document, size, revision, indices[..last]), document, size, revision, indices[last]).replica
  }

  predicate Covers(indices: seq<nat>, count: nat) {
    forall i :: 0 <= i < count ==> i in indices
  }

  lemma MissingFromPrefix(indices: seq<nat>, k: nat, count: nat)
    requires k <= |indices| && !Covers(indices, count)
    ensures !Covers(indices[..k], count)
  {
    var missing :| 0 <= missing < count && missing !in indices;
    assert missing !in indices[..k];
  }

  /** As long as an index is missing the shown document is untouched, and exactly the indices that
      have come are marked. */
  lemma {:induction false} FeedIncomplete(r: Replica, document: Text, size: ChunkSize, revision: nat, indices: seq<nat>)
    requires var count := |Cuts(document, size)|;
             && InRange(indices, count)
             && !Covers(indices, count)
    requires r.chunks == []
    ensures var fed := Feed(r, document, size, revision, indices);
            && fed.text == r.text && fed.revision == r.revision
            && (indices == [] ==> fed == r)
            && (indices != [] ==>
                && fed.syncRevision == revision && Collects(fed, document, size)
                && forall i :: 0 <= i < |fed.received| ==> (fed.received[i] <==> i in indices))
    decreases |indices|
  {
    if indices != [] {
      var last := |indices| - 1;
      var before := indices[..last];
      assert indices == before + [indices[last]];
      MissingFromPrefix(indices, last, |Cuts(document, size)|);
      FeedIncomplete(r, document, size, revision, before);
      var fed := Feed(r, document, size, revision, before);
      DeliverIsSound(fed, document, size, revision, indices[last]);
      var missing :| 0 <= missing < |Cuts(document, size)| && missing !in indices;
      assert missing != indices[last] && missing !in before;
      if |Cuts(document, size)| > 1 {
        var started := StartCollecting(fed, revision, |Cuts(document, size)|);
        var received := started.received[indices[last] := true];
        assert !received[missing];
      }
    }
  }

  /** The arrival that completes the set of indices, and no earlier one, shows exactly the document. */
  lemma FeedCompletes(r: Replica, document: Text, size: ChunkSize, revision: nat, indices: seq<nat>, last: nat)
    requires var count := |Cuts(document, size)|;
             && InRange(indices, count)
             && last < count
             && !Covers(indices, count) && Covers(indices + [last], count)
    requires r.chunks == []
    ensures forall k :: 0 <= k <= |indices| ==> Feed(r, document, size, revision, indices[..k]).text == r.text
    ensures var done := Feed(r, document, size, revision, indices + [last]);
            done.text == document && done.revision == revision && done.chunks == []
  {
    forall k | 0 <= k <= |indices| ensures Feed(r, document, size, revision, indices[..k]).text == r.text {
      MissingFromPrefix(indices, k, |Cuts(document, size)|);
      FeedIncomplete(r, document, size, revision, indices[..k]);
    }
    FeedIncomplete(r, document, size, revision, indices);
    var fed := Feed(r, document, size, revision, indices);
    assert (indices + [last])[..|indices|] == indices;
    DeliverIsSound(fed, document, size, revision, last);
    var count := |Cuts(document, size)|;
    if count > 1 {
      var started := StartCollecting(fed, revision, count);
      var received := started.received[last := true];
      forall i | 0 <= i < count ensures received[i] {
        if i != last {
          assert i in indices + [last];
          assert i in indices;
        }
      }
    }
  }
}
