/** WebSocket frames of the relay (relay-server/main.go readFrame, readText, writeFrame) against the
    client encoding of sections 5.2 and 5.3 of RFC 6455. */
module WebSocketFrames {
  import opened Octet8

  /** Big-endian number of any width. */
  function BigEndian(octets: Octets): nat {
    if octets == [] then 0 else BigEndian(octets[..|octets| - 1]) * 0x100 + Number(octets[|octets| - 1])
  }

  function ToBigEndian(n: nat, width: nat): Octets {
    if width == 0 then [] else ToBigEndian(n / 0x100, width - 1) + [OctetOf(n % 0x100)]
  }

  function Power256(width: nat): nat {
    if width == 0 then 1 else 0x100 * Power256(width - 1)
  }

  lemma {:induction false} BigEndianRoundTrip(n: nat, width: nat)
    requires n < Power256(width)
    ensures |ToBigEndian(n, width)| == width && BigEndian(ToBigEndian(n, width)) == n
  {
    hide OctetOf, Number;
    if width > 0 {
      BigEndianRoundTrip(n / 0x100, width - 1);
      OctetRoundTrip(n % 0x100);
      assert ToBigEndian(n, width)[..width - 1] == ToBigEndian(n / 0x100, width - 1);
    }
  }

  /** The payload with every octet combined with the mask key octet of its position. */
  function Masked(payload: Octets, key: Octets): (masked: Octets)
    requires |key| == 4
    ensures |masked| == |payload|
  {
    seq(|payload|, i requires 0 <= i < |payload| => payload[i] ^ key[i % 4])
  }

  lemma XorTwice(a: Octet, k: Octet)
    ensures (a ^ k) ^ k == a
  {
  }

  lemma MaskingTwice(payload: Octets, key: Octets)
    requires |key| == 4
    ensures Masked(Masked(payload, key), key) == payload
  {
    forall i | 0 <= i < |payload| ensures Masked(Masked(payload, key), key)[i] == payload[i] {
      XorTwice(payload[i], key[i % 4]);
    }
  }

  /** The three forms of a length: in the second header octet, or in two or eight octets after it. */
  datatype Encoding = Short | Medium | Long

  predicate CanHold(e: Encoding, length: nat) {
    match e
    case Short => length <= 125
    case Medium => length <= 65535
    case Long => length < 0x1_0000_0000_0000_0000
  }

  function Shortest(length: nat): Encoding {
    if length <= 125 then Short else if length <= 65535 then Medium else Long
  }

  /** Second header octet and extended length, with the mask bit given. */
  function LengthField(mask: Octet, e: Encoding, length: nat): Octets
    requires e.Short? ==> length <= 125
  {
    match e
    case Short => [mask | OctetOf(length)]
    case Medium => [mask | 126] + ToBigEndian(length, 2)
    case Long => [mask | 127] + ToBigEndian(length, 8)
  }

  /** A client's frame: final and masked. Clients must use the shortest length; the relay takes any. */
  function ClientFrame(e: Encoding, opcode: Octet, key: Octets, payload: Octets): Octets
    requires |key| == 4 && CanHold(e, |payload|)
  {
    [0x80 | opcode] + LengthField(0x80, e, |payload|) + key + Masked(payload, key)
  }

  /** The relay's own frames, which are not masked. */
  function ServerFrame(opcode: Octet, payload: Octets): Octets {
    [0x80 | opcode] + LengthField(0, Shortest(|payload|), |payload|) + payload
  }

  datatype Failure = EndOfInput | Fragmented | NotMasked | TooLarge | ClosedByPeer | UnsupportedOpcode

  datatype FrameResult = Frame(opcode: Octet, payload: Octets, rest: Octets) | Failed(reason: Failure)

  /** After the header: the payload length, and what follows it. */
  datatype LengthResult = Length(length: nat, rest: Octets) | NoLength(reason: Failure)

  function ReadLength(code: Octet, s: Octets, maxMessageBytes: nat): (r: LengthResult)
    ensures r.Length? ==> |r.rest| <= |s|
  {
    if code == 126 then
      if |s| < 2 then NoLength(EndOfInput) else Length(BigEndian(s[..2]), s[2..])
    else if code == 127 then
      if |s| < 8 then NoLength(EndOfInput)
      else if BigEndian(s[..8]) > maxMessageBytes then NoLength(TooLarge)
      else Length(BigEndian(s[..8]), s[8..])
    else Length(Number(code), s)
  }

  function FrameOf(s: Octets, maxMessageBytes: nat): (r: FrameResult)
    ensures r.Frame? ==> |r.rest| < |s|
  {
    if |s| < 2 then Failed(EndOfInput)
    else if s[0] & 0x80 == 0 then Failed(Fragmented)
    else if s[1] & 0x80 == 0 then Failed(NotMasked)
    else
      var length := ReadLength(s[1] & 0x7F, s[2..], maxMessageBytes);
      if length.NoLength? then Failed(length.reason)
      else if length.length > maxMessageBytes then Failed(TooLarge)
      else if |length.rest| < 4 + length.length then Failed(EndOfInput)
      else
        Frame(s[0] & 0x0F, Masked(length.rest[4..4 + length.length], length.rest[..4]), length.rest[4 + length.length..])
  }

  lemma HeaderBits(opcode: Octet)
    requires opcode < 0x10
    ensures (0x80 | opcode) & 0x80 != 0 && (0x80 | opcode) & 0x0F == opcode
  {
  }

  lemma LengthBits(code: Octet)
    requires code < 0x80
    ensures (0x80 | code) & 0x80 != 0 && (0x80 | code) & 0x7F == code
  {
  }

  lemma ShortLength(length: nat)
    requires length <= 125
    ensures OctetOf(length) < 0x80 && OctetOf(length) != 126 && OctetOf(length) != 127
  {
    hide OctetOf, Number;
    OctetRoundTrip(length);
    SmallNumber(OctetOf(length));
  }

  lemma EightOctets()
    ensures Power256(8) == 0x1_0000_0000_0000_0000
  {
    assert Power256(4) == 0x1_0000_0000;
    assert Power256(6) == 0x1_0000 * Power256(4);
    assert Power256(8) == 0x1_0000 * Power256(6);
  }

  /** Every length encoding is read back, or refused when the length is over the limit. */
  lemma LengthIsRead(e: Encoding, length: nat, rest: Octets, maxMessageBytes: nat)
    requires CanHold(e, length)
    ensures var field := LengthField(0x80, e, length) + rest;
            var read := ReadLength(field[0] & 0x7F, field[1..], maxMessageBytes);
            && field[0] & 0x80 != 0
            && (read == Length(length, rest) || (length > maxMessageBytes && read == NoLength(TooLarge)))
  {
    hide OctetOf, Number, BigEndian, ToBigEndian;
    var field := LengthField(0x80, e, length) + rest;
    match e {
      case Short =>
        ShortLength(length);
        LengthBits(OctetOf(length));
        OctetRoundTrip(length);
        assert field[1..] == rest;
      case Medium =>
        LengthBits(126);
        assert Power256(2) == 0x1_0000;
        BigEndianRoundTrip(length, 2);
        assert field[1..] == ToBigEndian(length, 2) + rest;
        assert field[1..][..2] == ToBigEndian(length, 2) && field[1..][2..] == rest;
      case Long =>
        LengthBits(127);
        EightOctets();
        BigEndianRoundTrip(length, 8);
        assert field[1..] == ToBigEndian(length, 8) + rest;
        assert field[1..][..8] == ToBigEndian(length, 8) && field[1..][8..] == rest;
    }
  }

  lemma BodyIsRead(s: Octets, key: Octets, masked: Octets, rest: Octets, maxMessageBytes: nat)
    requires |s| >= 2 && s[0] & 0x80 != 0 && s[1] & 0x80 != 0 && |key| == 4
    requires ReadLength(s[1] & 0x7F, s[2..], maxMessageBytes) == Length(|masked|, key + masked + rest)
    ensures FrameOf(s, maxMessageBytes)
         == if |masked| <= maxMessageBytes then Frame(s[0] & 0x0F, Masked(masked, key), rest) else Failed(TooLarge)
  {
    hide ReadLength, Masked;
    var body := key + masked + rest;
    assert body[..4] == key && body[4..4 + |masked|] == masked && body[4 + |masked|..] == rest;
  }

  lemma FrameParts(e: Encoding, opcode: Octet, key: Octets, payload: Octets, rest: Octets)
    requires |key| == 4 && CanHold(e, |payload|)
    ensures var s, field := ClientFrame(e, opcode, key, payload) + rest,
                            LengthField(0x80, e, |payload|) + (key + Masked(payload, key) + rest);
            field != [] && |s| >= 2 && s[0] == 0x80 | opcode && s[1] == field[0] && s[2..] == field[1..]
  {
    hide LengthField, Masked;
    FieldNotEmpty(e, |payload|);
    var field := LengthField(0x80, e, |payload|) + (key + Masked(payload, key) + rest);
    assert ClientFrame(e, opcode, key, payload) + rest == [0x80 | opcode] + field;
  }

  lemma LengthIsRefused(s: Octets, reason: Failure, maxMessageBytes: nat)
    requires |s| >= 2 && s[0] & 0x80 != 0 && s[1] & 0x80 != 0
    requires ReadLength(s[1] & 0x7F, s[2..], maxMessageBytes) == NoLength(reason)
    ensures FrameOf(s, maxMessageBytes) == Failed(reason)
  {
    hide ReadLength, Masked;
  }

  /** The header and the length of a client's frame, as they are read. */
  lemma HeadIsRead(e: Encoding, opcode: Octet, key: Octets, payload: Octets, rest: Octets, maxMessageBytes: nat)
    requires opcode < 0x10 && |key| == 4 && CanHold(e, |payload|)
    ensures var s := ClientFrame(e, opcode, key, payload) + rest;
            && |s| >= 2 && s[0] & 0x80 != 0 && s[0] & 0x0F == opcode && s[1] & 0x80 != 0
            && var read := ReadLength(s[1] & 0x7F, s[2..], maxMessageBytes);
               || read == Length(|payload|, key + Masked(payload, key) + rest)
               || (|payload| > maxMessageBytes && read == NoLength(TooLarge))
  {
    hide FrameOf, ClientFrame, ReadLength, LengthField, Masked, OctetOf, Number, BigEndian, ToBigEndian;
    FrameParts(e, opcode, key, payload, rest);
    HeaderBits(opcode);
    LengthIsRead(e, |payload|, key + Masked(payload, key) + rest, maxMessageBytes);
  }

  /** Reading a client's frame gives back its opcode and payload and leaves precisely what follows it; a
      payload over the limit is refused before any of it is read. Both under every length encoding. */
  lemma FrameRoundTrip(e: Encoding, opcode: Octet, key: Octets, payload: Octets, rest: Octets, maxMessageBytes: nat)
    requires opcode < 0x10 && |key| == 4 && CanHold(e, |payload|)
    ensures FrameOf(ClientFrame(e, opcode, key, payload) + rest, maxMessageBytes)
         == if |payload| <= maxMessageBytes then Frame(opcode, payload, rest) else Failed(TooLarge)
  {
    hide FrameOf, ClientFrame, ReadLength, LengthField, Masked, OctetOf, Number, BigEndian, ToBigEndian;
    HeadIsRead(e, opcode, key, payload, rest, maxMessageBytes);
    MaskingTwice(payload, key);
    var s := ClientFrame(e, opcode, key, payload) + rest;
    if ReadLength(s[1] & 0x7F, s[2..], maxMessageBytes).Length? {
      BodyIsRead(s, key, Masked(payload, key), rest, maxMessageBytes);
    } else {
      LengthIsRefused(s, TooLarge, maxMessageBytes);
    }
  }

  /** In particular every frame over the limit is refused. */
  lemma OversizedIsRefused(e: Encoding, opcode: Octet, key: Octets, payload: Octets, rest: Octets, maxMessageBytes: nat)
    requires opcode < 0x10 && |key| == 4 && CanHold(e, |payload|) && |payload| > maxMessageBytes
    ensures FrameOf(ClientFrame(e, opcode, key, payload) + rest, maxMessageBytes) == Failed(TooLarge)
  {
    hide FrameOf, ClientFrame;
    FrameRoundTrip(e, opcode, key, payload, rest, maxMessageBytes);
  }

  lemma FieldNotEmpty(e: Encoding, length: nat)
    requires CanHold(e, length)
    ensures LengthField(0x80, e, length) != []
  {
  }

  const TEXT: Octet := 0x1
  const CLOSE: Octet := 0x8
  const PING: Octet := 0x9
  const PONG: Octet := 0xA

  /** One readText: a text payload or a failure, and the frames written while skipping control frames. */
  datatype TextResult = TextRead(payload: Octets, rest: Octets, replies: Octets) | NoText(reason: Failure, replies: Octets)

  function Replying(reply: Octets, r: TextResult): TextResult {
    match r
    case TextRead(payload, rest, replies) => TextRead(payload, rest, reply + replies)
    case NoText(reason, replies) => NoText(reason, reply + replies)
  }

  function TextOf(s: Octets, maxMessageBytes: nat): (r: TextResult)
    ensures r.TextRead? ==> |r.rest| < |s|
    decreases |s|
  {
    match FrameOf(s, maxMessageBytes)
    case Failed(reason) => NoText(reason, [])
    case Frame(opcode, payload, rest) =>
      if opcode == TEXT then TextRead(payload, rest, [])
      else if opcode == CLOSE then NoText(ClosedByPeer, [])
      else if opcode == PING then Replying(ServerFrame(PONG, payload), TextOf(rest, maxMessageBytes))
      else if opcode == PONG then TextOf(rest, maxMessageBytes)
      else NoText(UnsupportedOpcode, [])
  }

  /** A connection: octets still to be read, and octets written. */
  class WsConn {
    var input: Octets
    var output: Octets
    const maxMessageBytes: nat

    constructor (input: Octets, maxMessageBytes: nat)
      ensures this.input == input && output == [] && this.maxMessageBytes == maxMessageBytes
    {
      this.input, output := input, [];
      this.maxMessageBytes := maxMessageBytes;
    }

    method ReadFull(count: nat) returns (ok: bool, octets: Octets)
      modifies this`input
      ensures ok == (count <= |old(input)|)
      ensures ok ==> octets == old(input)[..count] && input == old(input)[count..]
    {
      if count > |input| {
        input := [];
        return false, [];
      }
      octets := input[..count];
      input := input[count..];
      return true, octets;
    }

    method ReadPayloadLength(code: Octet) returns (r: LengthResult)
      modifies this`input
      ensures r == ReadLength(code, old(input), maxMessageBytes)
      ensures r.Length? ==> input == r.rest
    {
      if code == 126 {
        var ok, extended := ReadFull(2);
        if !ok {
          return NoLength(EndOfInput);
        }
        return Length(BigEndian(extended), input);
      }
      if code == 127 {
        var ok, extended := ReadFull(8);
        if !ok {
          return NoLength(EndOfInput);
        }
        var length := BigEndian(extended);
        if length > maxMessageBytes {
          return NoLength(TooLarge);
        }
        return Length(length, input);
      }
      return Length(Number(code), input);
    }

    method ReadFrame() returns (r: FrameResult)
      modifies this`input
      ensures r == FrameOf(old(input), maxMessageBytes)
      ensures r.Frame? ==> input == r.rest
    {
      hide Masked, ReadLength;
      var ok, header := ReadFull(2);
      if !ok {
        return Failed(EndOfInput);
      }
      if header[0] & 0x80 == 0 {
        return Failed(Fragmented);
      }
      if header[1] & 0x80 == 0 {
        return Failed(NotMasked);
      }
      var length := ReadPayloadLength(header[1] & 0x7F);
      if length.NoLength? {
        return Failed(length.reason);
      }
      if length.length > maxMessageBytes {
        return Failed(TooLarge);
      }
      var payload;
      ok, payload := ReadMaskedPayload(length.length);
      if !ok {
        return Failed(EndOfInput);
      }
      return Frame(header[0] & 0x0F, payload, input);
    }

    method ReadMaskedPayload(length: nat) returns (ok: bool, payload: Octets)
      modifies this`input
      ensures ok == (4 + length <= |old(input)|)
      ensures ok ==> payload == Masked(old(input)[4..4 + length], old(input)[..4]) && input == old(input)[4 + length..]
    {
      ghost var body := input;
      var maskKey;
      ok, maskKey := ReadFull(4);
      if !ok {
        return false, [];
      }
      var masked;
      ok, masked := ReadFull(length);
      if !ok {
        return false, [];
      }
      assert masked == body[4..4 + length] && input == body[4 + length..];
      payload := Unmask(masked, maskKey);
    }

    method WriteFrame(opcode: Octet, payload: Octets)
      modifies this`output
      ensures output == old(output) + ServerFrame(opcode, payload)
    {
      var header := [0x80 | opcode];
      if |payload| <= 125 {
        header := header + [OctetOf(|payload|)];
      } else if |payload| <= 65535 {
        header := header + ([126] + ToBigEndian(|payload|, 2));
      } else {
        header := header + ([127] + ToBigEndian(|payload|, 8));
      }
      ZeroMask(if |payload| <= 125 then OctetOf(|payload|) else 0);
      output := output + (header + payload);
    }

    method ReadText() returns (r: TextResult)
      modifies this`input, this`output
      ensures r == TextOf(old(input), maxMessageBytes)
      ensures r.TextRead? ==> input == r.rest
      ensures output == old(output) + r.replies
    {
      hide FrameOf, ServerFrame;
      var replies := [];
      ghost var all := TextOf(input, maxMessageBytes);
      ReplyingNothing(all);
      while true
        invariant all == Replying(replies, TextOf(input, maxMessageBytes))
        invariant output == old(output) + replies
        decreases |input|
      {
        var frame := ReadFrame();
        if frame.Failed? {
          return NoText(frame.reason, replies);
        }
        if frame.opcode == TEXT {
          return TextRead(frame.payload, frame.rest, replies);
        } else if frame.opcode == CLOSE {
          return NoText(ClosedByPeer, replies);
        } else if frame.opcode == PING {
          WriteFrame(PONG, frame.payload);
          var reply := ServerFrame(PONG, frame.payload);
          ReplyingTwice(replies, reply, TextOf(input, maxMessageBytes));
          replies := replies + reply;
        } else if frame.opcode != PONG {
          return NoText(UnsupportedOpcode, replies);
        }
      }
    }
  }

  method Unmask(masked: Octets, maskKey: Octets) returns (payload: Octets)
    requires |maskKey| == 4
    ensures payload == Masked(masked, maskKey)
  {
    var buffer := new Octet[|masked|](i requires 0 <= i < |masked| => masked[i]);
    var index := 0;
    while index < buffer.Length
      invariant 0 <= index <= buffer.Length
      invariant forall i :: 0 <= i < index ==> buffer[i] == masked[i] ^ maskKey[i % 4]
      invariant forall i :: index <= i < buffer.Length ==> buffer[i] == masked[i]
    {
      buffer[index] := buffer[index] ^ maskKey[index % 4];
      index := index + 1;
    }
    payload := buffer[..];
  }

  lemma ZeroMask(code: Octet)
    ensures 0 | code == code && 0 | (126 as Octet) == 126 && 0 | (127 as Octet) == 127
  {
  }

  lemma ReplyingNothing(r: TextResult)
    ensures Replying([], r) == r
  {
    assert [] + r.replies == r.replies;
  }

  lemma ReplyingTwice(first: Octets, second: Octets, r: TextResult)
    ensures Replying(first, Replying(second, r)) == Replying(first + second, r)
  {
    assert first + (second + r.replies) == (first + second) + r.replies;
  }

  /** What a client sends. */
  datatype ClientMessage =
    | ClientText(encoding: Encoding, key: Octets, payload: Octets)
    | ClientPing(encoding: Encoding, key: Octets, payload: Octets)
    | ClientPong(encoding: Encoding, key: Octets, payload: Octets)

  function Opcode(m: ClientMessage): Octet {
    match m
    case ClientText(_, _, _) => TEXT
    case ClientPing(_, _, _) => PING
    case ClientPong(_, _, _) => PONG
  }

  predicate Framed(m: ClientMessage) {
    |m.key| == 4 && CanHold(m.encoding, |m.payload|)
  }

  predicate Sendable(messages: seq<ClientMessage>, maxMessageBytes: nat) {
    forall i :: 0 <= i < |messages| ==>
      Framed(messages[i]) && |messages[i].payload| <= maxMessageBytes
  }

  function Encoded(messages: seq<ClientMessage>): Octets
    requires forall i :: 0 <= i < |messages| ==> Framed(messages[i])
  {
    if messages == [] then []
    else
      var m := messages[0];
      assert Framed(m);
      ClientFrame(m.encoding, Opcode(m), m.key, m.payload) + Encoded(messages[1..])
  }

  function Texts(messages: seq<ClientMessage>): seq<Octets> {
    if messages == [] then []
    else (if messages[0].ClientText? then [messages[0].payload] else []) + Texts(messages[1..])
  }
}
