/** The browser's side of a full sync over the relay (receiveRelayFullSync of ui/app.js): it puts chunks
    together in its own way and still shows what the native window would show. */
module RelayReceiver {
  import opened WideText
  import opened Chunks
  import opened Replica
  import opened Reassembly

  /** The browser's shown text and revision, and its collection in progress. Numbers arrive as decoded
      integers. */
  datatype TabFields = Tab(text: Text, revision: int, syncRevision: int, chunks: seq<Text>, received: seq<bool>)

  type Tab = t: TabFields | |t.chunks| == |t.received| witness Tab([], 0, 0, [], [])

  /** One chunk as it is received; an index or a count out of range changes nothing. */
  datatype Chunk = Chunk(revision: int, index: int, count: int, text: Text)

  function OnRelayChunk(t: Tab, c: Chunk): Tab {
    if c.count < 1 || c.index < 0 || c.index >= c.count then t
    else
      var started :=
        if t.syncRevision != c.revision || |t.chunks| != c.count then
          t.(syncRevision := c.revision, chunks := seq(c.count, _ => []), received := seq(c.count, _ => false))
        else t;
      var filled := started.(chunks := started.chunks[c.index := c.text], received := started.received[c.index := true]);
      if AllReceived(filled.received) then
        filled.(text := Concat(filled.chunks), revision := c.revision, chunks := [], received := [])
      else filled
  }

  class Browser {
    var relayLastText: Text
    var relayRevision: int
    var relaySyncRevision: int
    var relaySyncChunks: seq<Text>
    var relaySyncReceived: seq<bool>

    ghost predicate Valid()
      reads this
    {
      |relaySyncChunks| == |relaySyncReceived|
    }

    ghost function State(): Tab
      reads this
      requires Valid()
    {
      Tab(relayLastText, relayRevision, relaySyncRevision, relaySyncChunks, relaySyncReceived)
    }

    constructor (text: Text, revision: int)
      ensures Valid() && State() == Tab(text, revision, 0, [], [])
    {
      relayLastText, relayRevision := text, revision;
      relaySyncRevision, relaySyncChunks, relaySyncReceived := 0, [], [];
    }

    method ReceiveRelayFullSync(c: Chunk)
      requires Valid()
      modifies this
      ensures Valid() && State() == OnRelayChunk(old(State()), c)
    {
      if c.count < 1 || c.index < 0 || c.index >= c.count {
        return;
      }
      if relaySyncRevision != c.revision || |relaySyncChunks| != c.count {
        relaySyncRevision := c.revision;
        relaySyncChunks := seq(c.count, _ => []);
        relaySyncReceived := seq(c.count, _ => false);
      }
      relaySyncChunks := relaySyncChunks[c.index := c.text];
      relaySyncReceived := relaySyncReceived[c.index := true];
      var complete := forall i :: 0 <= i < |relaySyncReceived| ==> relaySyncReceived[i];
      if !complete {
        return;
      }
      var text := Concat(relaySyncChunks);
      relaySyncChunks, relaySyncReceived := [], [];
      relayLastText := text;
      relayRevision := c.revision;
    }
  }

  /** Both show the same and have collected the same. A lone chunk leaves the window's collection
      revision alone but not the browser's, which matters to neither: the collection is empty. */
  predicate Follows(t: Tab, r: Replica) {
    && t.text == r.text && t.revision == r.revision
    && t.chunks == r.chunks && t.received == r.received
    && (t.chunks != [] ==> t.syncRevision == r.syncRevision)
  }

  /** What the window does with the same chunk, decoded from a message. */
  function WindowOnChunk(r: Replica, c: Chunk): Replica
    requires c.revision >= 0
  {
    if c.count < 1 || c.index < 0 || c.index >= c.count then r
    else OnChunk(r, c.revision, c.index, c.count, c.text).replica
  }

  lemma LoneChunk(chunks: seq<Text>, received: seq<bool>, text: Text)
    requires |chunks| == |received| == 1
    ensures Concat(chunks[0 := text]) == text && AllReceived(received[0 := true])
  {
    assert chunks[0 := text] == [text];
    assert Concat([text]) == text + Concat([]);
  }

  lemma SameReassembly(t: Tab, r: Replica, c: Chunk)
    requires Follows(t, r) && c.revision >= 0
    ensures Follows(OnRelayChunk(t, c), WindowOnChunk(r, c))
  {
    if c.count == 1 && c.index == 0 {
      LoneChunk(seq(1, _ => []), seq(1, _ => false), c.text);
      if |t.chunks| == 1 {
        LoneChunk(t.chunks, t.received, c.text);
      }
    }
  }

  function TabRun(t: Tab, chunks: seq<Chunk>): Tab {
    if chunks == [] then t else OnRelayChunk(TabRun(t, chunks[..|chunks| - 1]), chunks[|chunks| - 1])
  }

  function WindowRun(r: Replica, chunks: seq<Chunk>): Replica
    requires forall i :: 0 <= i < |chunks| ==> chunks[i].revision >= 0
  {
    if chunks == [] then r else WindowOnChunk(WindowRun(r, chunks[..|chunks| - 1]), chunks[|chunks| - 1])
  }

  /** Over any stream of chunks, in range or not, of any revisions and documents, the browser and the
      native window show the same text at the same revision at every moment. */
  lemma {:induction false} BrowserFollowsWindow(t: Tab, r: Replica, chunks: seq<Chunk>)
    requires Follows(t, r) && forall i :: 0 <= i < |chunks| ==> chunks[i].revision >= 0
    ensures Follows(TabRun(t, chunks), WindowRun(r, chunks))
    decreases |chunks|
  {
    if chunks != [] {
      var before := chunks[..|chunks| - 1];
      BrowserFollowsWindow(t, r, before);
      SameReassembly(TabRun(t, before), WindowRun(r, before), chunks[|chunks| - 1]);
    }
  }

  /** The chunks of a document that the other browser cut, in any order. */
  function Pieces(document: Text, revision: int, indices: seq<nat>): (chunks: seq<Chunk>)
    requires InRange(indices, |Cuts(document, RELAY_CHUNK_SIZE)|)
    ensures |chunks| == |indices|
    ensures forall i :: 0 <= i < |indices| ==> chunks[i].revision == revision
  {
    var cuts := Cuts(document, RELAY_CHUNK_SIZE);
    seq(|indices|, i requires 0 <= i < |indices| => Chunk(revision, indices[i], |cuts|, cuts[indices[i]]))
  }

  lemma {:induction false} PiecesFeed(r: Replica, document: Text, revision: nat, indices: seq<nat>)
    requires InRange(indices, |Cuts(document, RELAY_CHUNK_SIZE)|)
    ensures WindowRun(r, Pieces(document, revision, indices)) == Feed(r, document, RELAY_CHUNK_SIZE, revision, indices)
    decreases |indices|
  {
    if indices != [] {
      var last := |indices| - 1;
      var chunks := Pieces(document, revision, indices);
      PiecesFeed(r, document, revision, indices[..last]);
      assert chunks[..last] == Pieces(document, revision, indices[..last]);
    }
  }

  /** The browser's own chunks, in any order with any repetition: the shown text and revision change
      when the last missing index arrives, to exactly the document, and never before. */
  lemma RelayDocumentArrives(t: Tab, document: Text, revision: nat, indices: seq<nat>, last: nat)
    requires var count := |Cuts(document, RELAY_CHUNK_SIZE)|;
             && InRange(indices, count)
             && last < count
             && !Covers(indices, count) && Covers(indices + [last], count)
    requires t.chunks == [] && t.revision >= 0
    ensures forall k :: 0 <= k <= |indices| ==> TabRun(t, Pieces(document, revision, indices[..k])).text == t.text
    ensures var done := TabRun(t, Pieces(document, revision, indices + [last]));
            done.text == document && done.revision == revision && done.chunks == []
  {
    var r := Replica(Guest, [], t.text, t.revision, 0, [], []);
    FeedCompletes(r, document, RELAY_CHUNK_SIZE, revision, indices, last);
    forall k | 0 <= k <= |indices|
      ensures TabRun(t, Pieces(document, revision, indices[..k])).text == t.text
    {
      PiecesFeed(r, document, revision, indices[..k]);
      BrowserFollowsWindow(t, r, Pieces(document, revision, indices[..k]));
    }
    PiecesFeed(r, document, revision, indices + [last]);
    BrowserFollowsWindow(t, r, Pieces(document, revision, indices + [last]));
  }
}
