/** Length-prefixed frames over a byte stream (client/protocol.cpp EncodeFrame and FrameDecoder), and
    the loop that drives the decoder from the socket (client/sync_client.cpp ReceiveProtocolMessage). */
module Frames {
  import Protocol

  newtype Byte = b: int | 0 <= b < 0x100

  type Bytes = seq<Byte>

  const MAX_FRAME_PAYLOAD_BYTES: nat := Protocol.MAX_FRAME_PAYLOAD_BYTES
  const RECEIVE_BUFFER_BYTES: nat := 4096

  function EncodeFrame(payload: Bytes): Bytes {
    var length := |payload| % 0x1_0000_0000;
    [(length / 0x100_0000) as Byte, (length / 0x1_0000 % 0x100) as Byte,
     (length / 0x100 % 0x100) as Byte, (length % 0x100) as Byte] + payload
  }

  function ReadBigEndianLength(bytes: Bytes): nat
    requires |bytes| >= 4
  {
    bytes[0] as nat * 0x100_0000 + bytes[1] as nat * 0x1_0000 + bytes[2] as nat * 0x100 + bytes[3] as nat
  }

  lemma LengthRoundTrip(payload: Bytes, rest: Bytes)
    requires |payload| < 0x1_0000_0000
    ensures ReadBigEndianLength(EncodeFrame(payload) + rest) == |payload|
  {
    hide EncodeFrame;
    FirstBytes(payload, rest);
    BigEndianDigits(|payload|);
  }

  lemma FirstBytes(payload: Bytes, rest: Bytes)
    requires |payload| < 0x1_0000_0000
    ensures var bytes, n := EncodeFrame(payload) + rest, |payload|;
            && |bytes| >= 4
            && bytes[0] as nat == n / 0x100_0000 && bytes[1] as nat == n / 0x1_0000 % 0x100
            && bytes[2] as nat == n / 0x100 % 0x100 && bytes[3] as nat == n % 0x100
  {
  }

  lemma BigEndianDigits(n: nat)
    ensures n / 0x100_0000 * 0x100_0000 + n / 0x1_0000 % 0x100 * 0x1_0000 + n / 0x100 % 0x100 * 0x100 + n % 0x100 == n
  {
    var a := n / 0x100;
    var b := n / 0x1_0000;
    assert b == a / 0x100 && n / 0x100_0000 == b / 0x100;
  }

  /** What one attempt to take a frame out of the buffer gives. */
  datatype Attempt = NeedMore | TooLarge | Frame(payload: Bytes, rest: Bytes)

  function TryRead(buffer: Bytes): Attempt {
    if |buffer| < 4 then NeedMore
    else
      var length := ReadBigEndianLength(buffer);
      if length > MAX_FRAME_PAYLOAD_BYTES then TooLarge
      else if |buffer| < length + 4 then NeedMore
      else Frame(buffer[4..length + 4], buffer[length + 4..])
  }

  class FrameDecoder {
    var buffer: Bytes

    constructor ()
      ensures buffer == []
    {
      buffer := [];
    }

    method Clear()
      modifies this
      ensures buffer == []
    {
      buffer := [];
    }

    method Append(bytes: Bytes) returns (ok: bool)
      modifies this
      ensures ok == (|old(buffer)| + |bytes| <= MAX_FRAME_PAYLOAD_BYTES + 4)
      ensures buffer == if ok then old(buffer) + bytes else []
    {
      if |buffer| + |bytes| > MAX_FRAME_PAYLOAD_BYTES + 4 {
        Clear();
        return false;
      }
      buffer := buffer + bytes;
      return true;
    }

    method TryReadFrame() returns (attempt: Attempt)
      modifies this
      ensures attempt == TryRead(old(buffer))
      ensures buffer == match attempt
                        case NeedMore => old(buffer)
                        case TooLarge => []
                        case Frame(_, rest) => rest
    {
      if |buffer| < 4 {
        return NeedMore;
      }
      var length := ReadBigEndianLength(buffer);
      if length > MAX_FRAME_PAYLOAD_BYTES {
        Clear();
        return TooLarge;
      }
      if |buffer| < length + 4 {
        return NeedMore;
      }
      var payload := buffer[4..length + 4];
      attempt := Frame(payload, buffer[length + 4..]);
      buffer := buffer[length + 4..];
    }
  }

  /** What the socket hands over, one receive after the other; then the connection is closed. */
  class ByteSource {
    var chunks: seq<Bytes>

    constructor (chunks: seq<Bytes>)
      ensures this.chunks == chunks
    {
      this.chunks := chunks;
    }

    method Receive() returns (bytes: Bytes)
      modifies this
      ensures old(chunks) == [] ==> bytes == [] && chunks == []
      ensures old(chunks) != [] ==> bytes == old(chunks)[0] && chunks == old(chunks)[1..]
    {
      if chunks == [] {
        return [];
      }
      bytes := chunks[0];
      chunks := chunks[1..];
    }
  }

  datatype Received = Delivered(payload: Bytes) | Closed | Error

  /** One call of the receive loop, as a function of the buffer and the chunks still to come. */
  datatype Turn = Turn(received: Received, buffer: Bytes, chunks: seq<Bytes>)

  function ReceiveOne(buffer: Bytes, chunks: seq<Bytes>): Turn
    decreases |chunks|
  {
    match TryRead(buffer)
    case Frame(payload, rest) => Turn(Delivered(payload), rest, chunks)
    case TooLarge => Turn(Error, [], chunks)
    case NeedMore =>
      if chunks == [] then Turn(Closed, buffer, [])
      else if chunks[0] == [] then Turn(Closed, buffer, chunks[1..])
      else if |buffer| + |chunks[0]| > MAX_FRAME_PAYLOAD_BYTES + 4 then Turn(Error, [], chunks[1..])
      else ReceiveOne(buffer + chunks[0], chunks[1..])
  }

  method ReceivePayload(decoder: FrameDecoder, source: ByteSource) returns (received: Received)
    modifies decoder, source
    ensures var turn := ReceiveOne(old(decoder.buffer), old(source.chunks));
            received == turn.received && decoder.buffer == turn.buffer && source.chunks == turn.chunks
  {
    while true
      invariant ReceiveOne(decoder.buffer, source.chunks) == ReceiveOne(old(decoder.buffer), old(source.chunks))
      decreases |source.chunks|
    {
      var attempt := decoder.TryReadFrame();
      if attempt.Frame? {
        return Delivered(attempt.payload);
      }
      if attempt.TooLarge? {
        return Error;
      }
      var bytes := source.Receive();
      if bytes == [] {
        return Closed;
      }
      var ok := decoder.Append(bytes);
      if !ok {
        return Error;
      }
    }
  }

  /** Calls of the loop until it reports something other than a payload. */
  datatype Stream = Stream(payloads: seq<Bytes>, ending: Received, buffer: Bytes)

  function Weight(buffer: Bytes, chunks: seq<Bytes>): nat {
    |buffer| + |Joined(chunks)|
  }

  function Joined(chunks: seq<Bytes>): Bytes {
    if chunks == [] then [] else chunks[0] + Joined(chunks[1..])
  }

  /** Every delivered payload takes its frame out of what is left. */
  lemma {:induction false} TurnShrinks(buffer: Bytes, chunks: seq<Bytes>)
    ensures ReceiveOne(buffer, chunks).received.Delivered? ==>
            Weight(ReceiveOne(buffer, chunks).buffer, ReceiveOne(buffer, chunks).chunks) < Weight(buffer, chunks)
    decreases |chunks|
  {
    if TryRead(buffer).NeedMore? && chunks != [] && chunks[0] != []
       && |buffer| + |chunks[0]| <= MAX_FRAME_PAYLOAD_BYTES + 4 {
      TurnShrinks(buffer + chunks[0], chunks[1..]);
    }
  }

  function ReceiveAll(buffer: Bytes, chunks: seq<Bytes>): Stream
    decreases Weight(buffer, chunks)
  {
    TurnShrinks(buffer, chunks);
    var turn := ReceiveOne(buffer, chunks);
    if turn.received.Delivered? then
      var rest := ReceiveAll(turn.buffer, turn.chunks);
      Stream([turn.received.payload] + rest.payloads, rest.ending, rest.buffer)
    else Stream([], turn.received, turn.buffer)
  }

  method ReceivePayloads(decoder: FrameDecoder, source: ByteSource) returns (payloads: seq<Bytes>, ending: Received)
    modifies decoder, source
    ensures var stream := ReceiveAll(old(decoder.buffer), old(source.chunks));
            payloads == stream.payloads && ending == stream.ending && decoder.buffer == stream.buffer
  {
    payloads := [];
    ghost var stream := ReceiveAll(decoder.buffer, source.chunks);
    while true
      invariant var rest := ReceiveAll(decoder.buffer, source.chunks);
                stream == Stream(payloads + rest.payloads, rest.ending, rest.buffer)
      decreases Weight(decoder.buffer, source.chunks)
    {
      TurnShrinks(decoder.buffer, source.chunks);
      var received := ReceivePayload(decoder, source);
      if !received.Delivered? {
        return payloads, received;
      }
      payloads := payloads + [received.payload];
    }
  }

  function EncodeAll(payloads: seq<Bytes>): Bytes {
    if payloads == [] then [] else EncodeFrame(payloads[0]) + EncodeAll(payloads[1..])
  }

  /** Largest payload for which a buffer one byte short of its frame still takes a full receive. */
  const SAFE_PAYLOAD_BYTES: nat := MAX_FRAME_PAYLOAD_BYTES + 4 - RECEIVE_BUFFER_BYTES - 3

  predicate AllAtMost(payloads: seq<Bytes>, bound: nat) {
    forall i :: 0 <= i < |payloads| ==> |payloads[i]| <= bound
  }

  /** Every receive hands over between 1 and 4096 bytes. */
  predicate IsSplit(chunks: seq<Bytes>) {
    forall i :: 0 <= i < |chunks| ==> 1 <= |chunks[i]| <= RECEIVE_BUFFER_BYTES
  }

  /** A buffer that starts with a whole frame gives its payload. */
  lemma WholeFrameIsRead(payload: Bytes, rest: Bytes)
    requires |payload| <= MAX_FRAME_PAYLOAD_BYTES
    ensures TryRead(EncodeFrame(payload) + rest) == Frame(payload, rest)
  {
    LengthRoundTrip(payload, rest);
    var buffer := EncodeFrame(payload) + rest;
    assert buffer[4..|payload| + 4] == payload;
    assert buffer[|payload| + 4..] == rest;
  }

  /** A buffer that is a proper part of a frame is kept until more arrives. */
  lemma PartialFrameWaits(payload: Bytes, buffer: Bytes, later: Bytes)
    requires |payload| <= MAX_FRAME_PAYLOAD_BYTES && |buffer| < |payload| + 4
    requires exists rest :: buffer + later == EncodeFrame(payload) + rest
    ensures TryRead(buffer).NeedMore?
  {
    var rest :| buffer + later == EncodeFrame(payload) + rest;
    if |buffer| >= 4 {
      LengthRoundTrip(payload, rest);
      assert buffer[..4] == (buffer + later)[..4];
      assert ReadBigEndianLength(buffer) == ReadBigEndianLength(buffer + later);
    }
  }

  /** The loop delivers the next payload of the stream, however its bytes are split. */
  lemma {:induction false} NextIsDelivered(buffer: Bytes, chunks: seq<Bytes>, payload: Bytes, rest: Bytes)
    requires |payload| <= SAFE_PAYLOAD_BYTES && IsSplit(chunks)
    requires buffer + Joined(chunks) == EncodeFrame(payload) + rest
    ensures var turn := ReceiveOne(buffer, chunks);
            && turn.received == Delivered(payload)
            && IsSplit(turn.chunks)
            && turn.buffer + Joined(turn.chunks) == rest
    decreases |chunks|
  {
    var frame := EncodeFrame(payload);
    if |buffer| >= |frame| {
      var left := buffer[|frame|..];
      assert buffer == frame + left by {
        assert buffer[..|frame|] == (buffer + Joined(chunks))[..|frame|];
      }
      WholeFrameIsRead(payload, left);
      assert left + Joined(chunks) == (buffer + Joined(chunks))[|frame|..];
    } else {
      PartialFrameWaits(payload, buffer, Joined(chunks));
      assert chunks != [];
      assert (buffer + chunks[0]) + Joined(chunks[1..]) == buffer + Joined(chunks);
      NextIsDelivered(buffer + chunks[0], chunks[1..], payload, rest);
    }
  }

  lemma SplitHasBytes(chunks: seq<Bytes>)
    requires IsSplit(chunks)
    ensures chunks != [] ==> Joined(chunks) != []
  {
  }

  /** For payloads of at most 61441 bytes and every split into receives of 1 to 4096 bytes, the loop
      delivers exactly those payloads in order, reports nothing but the end, and keeps no byte back. */
  lemma {:induction false} EverySplitDelivers(buffer: Bytes, chunks: seq<Bytes>, payloads: seq<Bytes>)
    requires AllAtMost(payloads, SAFE_PAYLOAD_BYTES) && IsSplit(chunks)
    requires buffer + Joined(chunks) == EncodeAll(payloads)
    ensures ReceiveAll(buffer, chunks) == Stream(payloads, Closed, [])
    decreases |payloads|
  {
    if payloads == [] {
      SplitHasBytes(chunks);
    } else {
      NextIsDelivered(buffer, chunks, payloads[0], EncodeAll(payloads[1..]));
      var turn := ReceiveOne(buffer, chunks);
      EverySplitDelivers(turn.buffer, turn.chunks, payloads[1..]);
    }
  }

  /** Cuts bytes into receives of 4096 bytes, the last one shorter. */
  function Pieces(bytes: Bytes): (chunks: seq<Bytes>)
    ensures IsSplit(chunks) && Joined(chunks) == bytes
    decreases |bytes|
  {
    if bytes == [] then []
    else if |bytes| <= RECEIVE_BUFFER_BYTES then
      assert Joined([bytes]) == bytes + Joined([]);
      [bytes]
    else
      assert bytes == bytes[..RECEIVE_BUFFER_BYTES] + bytes[RECEIVE_BUFFER_BYTES..];
      [bytes[..RECEIVE_BUFFER_BYTES]] + Pieces(bytes[RECEIVE_BUFFER_BYTES..])
  }

  lemma {:induction false} JoinedAppend(a: seq<Bytes>, b: seq<Bytes>)
    ensures Joined(a + b) == Joined(a) + Joined(b)
  {
    if a == [] {
      assert a + b == b;
    } else {
      assert (a + b)[1..] == a[1..] + b;
      JoinedAppend(a[1..], b);
    }
  }

  /** Receives that do not complete a frame only fill the buffer. */
  lemma {:induction false} Filling(payload: Bytes, buffer: Bytes, chunks: seq<Bytes>, last: Bytes, rest: Bytes)
    requires |payload| <= MAX_FRAME_PAYLOAD_BYTES && IsSplit(chunks)
    requires |buffer| + |Joined(chunks)| < |payload| + 4
    requires buffer + Joined(chunks) + last == EncodeFrame(payload) + rest
    ensures ReceiveOne(buffer, chunks + [last]) == ReceiveOne(buffer + Joined(chunks), [last])
    decreases |chunks|
  {
    if chunks == [] {
      assert chunks + [last] == [last] && buffer + Joined(chunks) == buffer;
    } else {
      assert buffer + (Joined(chunks) + last) == EncodeFrame(payload) + rest;
      PartialFrameWaits(payload, buffer, Joined(chunks) + last);
      assert (chunks + [last])[1..] == chunks[1..] + [last] && (chunks + [last])[0] == chunks[0];
      assert (buffer + chunks[0]) + Joined(chunks[1..]) == buffer + Joined(chunks);
      Filling(payload, buffer + chunks[0], chunks[1..], last, rest);
    }
  }

  function Zeros(n: nat): Bytes {
    seq(n, _ => 0 as Byte)
  }

  /** The stream that breaks the decoder: a payload over the bound, received up to its last byte but one,
      and then a full receive that also brings the next frame. */
  ghost function Breaking(n: nat): (seq<Bytes>, seq<Bytes>)
    requires SAFE_PAYLOAD_BYTES < n <= MAX_FRAME_PAYLOAD_BYTES
  {
    var payloads := [Zeros(n), Zeros(RECEIVE_BUFFER_BYTES - 5)];
    var bytes := EncodeAll(payloads);
    (payloads, Pieces(bytes[..n + 3]) + [bytes[n + 3..]])
  }

  lemma OverTheBoundBreaks(n: nat)
    requires SAFE_PAYLOAD_BYTES < n <= MAX_FRAME_PAYLOAD_BYTES
    ensures var (payloads, chunks) := Breaking(n);
            && AllAtMost(payloads, n) && IsSplit(chunks) && Joined(chunks) == EncodeAll(payloads)
            && ReceiveAll([], chunks) == Stream([], Error, [])
  {
    var (payloads, chunks) := Breaking(n);
    var second := EncodeFrame(payloads[1]);
    assert EncodeAll(payloads) == EncodeFrame(payloads[0]) + second by {
      assert payloads[1..] == [payloads[1]] && payloads[1..][1..] == [];
      assert EncodeAll([payloads[1]]) == second + [];
    }
    var bytes := EncodeAll(payloads);
    var head, last := Pieces(bytes[..n + 3]), bytes[n + 3..];
    assert |last| == RECEIVE_BUFFER_BYTES;
    assert bytes == bytes[..n + 3] + last;
    JoinedAppend(head, [last]);
    assert Joined([last]) == last + Joined([]);
    assert Joined(chunks) == bytes;
    assert [] + Joined(head) + last == EncodeFrame(payloads[0]) + second;
    Filling(payloads[0], [], head, last, second);
    assert [] + Joined(head) == bytes[..n + 3];
    PartialFrameWaits(payloads[0], bytes[..n + 3], last);
  }

  /** All streams of payloads up to `bound` bytes survive every split. */
  ghost predicate SurvivesEverySplit(bound: nat) {
    forall payloads: seq<Bytes>, chunks: seq<Bytes> ::
      AllAtMost(payloads, bound) && IsSplit(chunks) && Joined(chunks) == EncodeAll(payloads) ==>
      ReceiveAll([], chunks) == Stream(payloads, Closed, [])
  }

  /** The bound of 61441 bytes is exact: a payload size the encoder allows is safe under every split
      exactly when it does not exceed it. */
  lemma SafePayloadIff(bound: nat)
    requires bound <= MAX_FRAME_PAYLOAD_BYTES
    ensures SurvivesEverySplit(bound) <==> bound <= SAFE_PAYLOAD_BYTES
  {
    if bound <= SAFE_PAYLOAD_BYTES {
      forall payloads: seq<Bytes>, chunks: seq<Bytes>
        | AllAtMost(payloads, bound) && IsSplit(chunks) && Joined(chunks) == EncodeAll(payloads)
        ensures ReceiveAll([], chunks) == Stream(payloads, Closed, [])
      {
        assert [] + Joined(chunks) == EncodeAll(payloads);
        EverySplitDelivers([], chunks, payloads);
      }
    } else {
      OverTheBoundBreaks(bound);
    }
  }

  // ---- Streams that end badly ----

  /** The beginning of a frame, without its last bytes. */
  ghost predicate IsCutOff(tail: Bytes) {
    exists payload: Bytes, later: Bytes ::
      |payload| <= SAFE_PAYLOAD_BYTES && later != [] && tail + later == EncodeFrame(payload)
  }

  /** The header of a frame of more than 64 KiB, whatever follows it. */
  predicate IsOversized(tail: Bytes) {
    |tail| >= 4
    && tail[0] as nat * 16777216 + tail[1] as nat * 65536 + tail[2] as nat * 256 + tail[3] as nat > 65536
  }

  lemma {:induction false} CutOffIsKept(buffer: Bytes, chunks: seq<Bytes>, payload: Bytes, later: Bytes)
    requires |payload| <= SAFE_PAYLOAD_BYTES && IsSplit(chunks) && later != []
    requires buffer + Joined(chunks) + later == EncodeFrame(payload)
    ensures ReceiveOne(buffer, chunks) == Turn(Closed, buffer + Joined(chunks), [])
    decreases |chunks|
  {
    assert buffer + (Joined(chunks) + later) == EncodeFrame(payload) + [];
    PartialFrameWaits(payload, buffer, Joined(chunks) + later);
    if chunks == [] {
      assert buffer + [] == buffer;
    } else {
      assert (buffer + chunks[0]) + Joined(chunks[1..]) == buffer + Joined(chunks);
      CutOffIsKept(buffer + chunks[0], chunks[1..], payload, later);
    }
  }

  lemma {:induction false} OversizedIsRefused(buffer: Bytes, chunks: seq<Bytes>)
    requires IsSplit(chunks) && IsOversized(buffer + Joined(chunks))
    ensures ReceiveOne(buffer, chunks).received == Error && ReceiveOne(buffer, chunks).buffer == []
    decreases |chunks|
  {
    if |buffer| < 4 {
      assert chunks != [];
      assert (buffer + chunks[0]) + Joined(chunks[1..]) == buffer + Joined(chunks);
      OversizedIsRefused(buffer + chunks[0], chunks[1..]);
    }
  }

  lemma TailIsEnd(buffer: Bytes, chunks: seq<Bytes>, tail: Bytes)
    requires IsSplit(chunks) && buffer + Joined(chunks) == tail
    ensures IsCutOff(tail) ==> ReceiveAll(buffer, chunks) == Stream([], Closed, tail)
    ensures IsOversized(tail) ==> ReceiveAll(buffer, chunks) == Stream([], Error, [])
  {
    if IsCutOff(tail) {
      var payload: Bytes, later: Bytes :|
        |payload| <= SAFE_PAYLOAD_BYTES && later != [] && tail + later == EncodeFrame(payload);
      CutOffIsKept(buffer, chunks, payload, later);
    }
    if IsOversized(tail) {
      OversizedIsRefused(buffer, chunks);
    }
  }

  /** Whole frames and what ends the stream, under every split: the payloads are delivered. When the connection
      ends inside a frame, that is all, and the part that came is kept. When a header announces more than 64 KiB
      the loop reports an error as soon as the header is there, and the buffer is cleared. */
  lemma {:induction false} StreamEnds(buffer: Bytes, chunks: seq<Bytes>, payloads: seq<Bytes>, tail: Bytes)
    requires AllAtMost(payloads, SAFE_PAYLOAD_BYTES) && IsSplit(chunks)
    requires buffer + Joined(chunks) == EncodeAll(payloads) + tail
    ensures IsCutOff(tail) ==> ReceiveAll(buffer, chunks) == Stream(payloads, Closed, tail)
    ensures IsOversized(tail) ==> ReceiveAll(buffer, chunks) == Stream(payloads, Error, [])
    decreases |payloads|
  {
    hide IsCutOff, IsOversized, EncodeFrame;
    if payloads == [] {
      assert [] + tail == tail;
      TailIsEnd(buffer, chunks, tail);
    } else {
      var rest := EncodeAll(payloads[1..]) + tail;
      assert EncodeAll(payloads) + tail == EncodeFrame(payloads[0]) + rest;
      NextIsDelivered(buffer, chunks, payloads[0], rest);
      var turn := ReceiveOne(buffer, chunks);
      StreamEnds(turn.buffer, turn.chunks, payloads[1..], tail);
    }
  }
}
