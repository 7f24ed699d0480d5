/** The frames the relay writes, as a browser reads them by section 5.2 of RFC 6455, and streams that are cut
    off anywhere. */
module WebSocketStreams {
  import opened WideText
  import opened Octet8
  import opened WebSocketFrames

  /** A frame from the relay, or octets that are none. */
  datatype Incoming = Incoming(opcode: Octet, payload: Octets, rest: Octets) | NoFrame

  /** The first frame of what the relay sent: final, not masked, the length in one of its three forms. */
  function Browse(s: Octets): (r: Incoming)
    ensures r.Incoming? ==> |r.rest| < |s|
  {
    if |s| < 2 || s[0] & 0x80 == 0 || s[1] & 0x80 != 0 then NoFrame
    else if s[1] == 126 then (if |s| < 4 then NoFrame else Body(s[0] & 0x0F, BigEndian(s[2..4]), s[4..]))
    else if s[1] == 127 then (if |s| < 10 then NoFrame else Body(s[0] & 0x0F, BigEndian(s[2..10]), s[10..]))
    else Body(s[0] & 0x0F, Number(s[1]), s[2..])
  }

  function Body(opcode: Octet, length: nat, s: Octets): (r: Incoming)
    ensures r.Incoming? ==> |r.rest| <= |s|
  {
    if |s| < length then NoFrame else Incoming(opcode, s[..length], s[length..])
  }

  /** Everything the relay sent, frame by frame; None when it does not consist of whole frames. */
  function FramesIn(s: Octets): Option<seq<(Octet, Octets)>>
    decreases |s|
  {
    if s == [] then Some([])
    else
      match Browse(s)
      case NoFrame => None
      case Incoming(opcode, payload, rest) =>
        var more := FramesIn(rest);
        if more.None? then None else Some([(opcode, payload)] + more.value)
  }

  lemma UnmaskedBits(code: Octet)
    requires code < 0x80
    ensures 0 | code == code && code & 0x80 == 0
  {
  }

  lemma HeaderParts(head: Octet, field: Octets, body: Octets, k: nat)
    requires |field| == 1 + k
    ensures var s := [head] + field + body;
            |s| >= 2 + k && s[0] == head && s[1] == field[0] && s[2..2 + k] == field[1..] && s[2 + k..] == body
  {
  }

  /** The relay's length field, octet for octet. */
  lemma ServerLength(length: nat)
    requires length < 0x1_0000_0000_0000_0000
    ensures var field := LengthField(0, Shortest(length), length);
            if length <= 125 then |field| == 1 && Number(field[0]) == length && field[0] < 0x80 && field[0] != 126 && field[0] != 127
            else if length <= 65535 then |field| == 3 && field[0] == 126 && BigEndian(field[1..]) == length
            else |field| == 9 && field[0] == 127 && BigEndian(field[1..]) == length
  {
    hide OctetOf, Number, BigEndian, ToBigEndian;
    if length <= 125 {
      ShortLength(length);
      UnmaskedBits(OctetOf(length));
      OctetRoundTrip(length);
    } else if length <= 65535 {
      assert Power256(2) == 0x1_0000;
      BigEndianRoundTrip(length, 2);
      UnmaskedBits(126);
      assert LengthField(0, Medium, length)[1..] == ToBigEndian(length, 2);
    } else {
      EightOctets();
      BigEndianRoundTrip(length, 8);
      UnmaskedBits(127);
      assert LengthField(0, Long, length)[1..] == ToBigEndian(length, 8);
    }
  }

  lemma BodyFollows(opcode: Octet, payload: Octets, rest: Octets)
    ensures Body(opcode, |payload|, payload + rest) == Incoming(opcode, payload, rest)
  {
  }

  /** The three forms of a length field before a body. */
  predicate Announces(field: Octets, length: nat) {
    && field != [] && field[0] & 0x80 == 0
    && (if field[0] == 126 then |field| == 3 && BigEndian(field[1..]) == length
        else if field[0] == 127 then |field| == 9 && BigEndian(field[1..]) == length
        else |field| == 1 && Number(field[0]) == length)
  }

  lemma FieldIsBrowsed(head: Octet, field: Octets, payload: Octets, rest: Octets)
    requires head & 0x80 != 0 && Announces(field, |payload|)
    ensures Browse([head] + field + (payload + rest)) == Incoming(head & 0x0F, payload, rest)
  {
    hide BigEndian, Number, Body;
    HeaderParts(head, field, payload + rest, |field| - 1);
    BodyFollows(head & 0x0F, payload, rest);
  }

  lemma ServerAnnounces(length: nat)
    requires length < 0x1_0000_0000_0000_0000
    ensures var field := LengthField(0, Shortest(length), length);
            Announces(field, length) && (field[0] == 126 ==> length > 125) && (field[0] == 127 ==> length > 65535)
  {
    hide LengthField, BigEndian, Number;
    ServerLength(length);
    UnmaskedBits(LengthField(0, Shortest(length), length)[0]);
  }

  /** A frame of the relay is read as its opcode and its own payload, and what follows it is left; the length
      takes the shortest of the three forms that can hold it. */
  lemma ServerFrameIsRead(opcode: Octet, payload: Octets, rest: Octets)
    requires opcode < 0x10 && |payload| < 0x1_0000_0000_0000_0000
    ensures var s := ServerFrame(opcode, payload) + rest;
            && Browse(s) == Incoming(opcode, payload, rest)
            && |s| >= 2 && (s[1] == 126 ==> |payload| > 125) && (s[1] == 127 ==> |payload| > 65535)
  {
    hide LengthField, Announces, Browse;
    var head, field := 0x80 | opcode, LengthField(0, Shortest(|payload|), |payload|);
    HeaderBits(opcode);
    ServerAnnounces(|payload|);
    FieldIsBrowsed(head, field, payload, rest);
    assert field != [] by {
      ServerLength(|payload|);
    }
    assert ServerFrame(opcode, payload) + rest == [head] + field + (payload + rest);
  }

  lemma FramesInFirst(opcode: Octet, payload: Octets, rest: Octets)
    requires opcode < 0x10 && |payload| < 0x1_0000_0000_0000_0000 && FramesIn(rest).Some?
    ensures FramesIn(ServerFrame(opcode, payload) + rest) == Some([(opcode, payload)] + FramesIn(rest).value)
  {
    hide Browse, ServerFrame;
    ServerFrameIsRead(opcode, payload, rest);
  }

  // ---- The standard's own examples ----

  const HELLO: Octets := [0x48, 0x65, 0x6C, 0x6C, 0x6F]

  /** Section 5.7 of RFC 6455: a text frame from the client and from the server, a ping and its answer. */
  lemma StandardExamples()
    ensures ClientFrame(Short, 0x1, [0x37, 0xFA, 0x21, 0x3D], HELLO)
         == [0x81, 0x85, 0x37, 0xFA, 0x21, 0x3D, 0x7F, 0x9F, 0x4D, 0x51, 0x58]
    ensures ServerFrame(0x1, HELLO) == [0x81, 0x05] + HELLO
    ensures ServerFrame(0x9, HELLO) == [0x89, 0x05] + HELLO
    ensures ClientFrame(Short, 0xA, [0x37, 0xFA, 0x21, 0x3D], HELLO)
         == [0x8A, 0x85, 0x37, 0xFA, 0x21, 0x3D, 0x7F, 0x9F, 0x4D, 0x51, 0x58]
  {
    hide OctetOf, Masked;
    Five();
    MaskedHello();
  }

  lemma LowBits(n: nat, c: bool, d: bool)
    requires n < 8 && (c <==> n >= 4) && (d <==> n % 2 == 1) && (n / 2) % 2 == 0
    ensures OctetOf(n) == FromBits(false, false, false, false, false, c, false, d)
  {
    hide FromBits;
    assert n / 0x80 == 0 && n / 0x40 == 0 && n / 0x20 == 0 && n / 0x10 == 0 && n / 8 == 0;
    assert n / 4 == if c then 1 else 0;
  }

  lemma Five()
    ensures OctetOf(5) == 5
  {
    hide OctetOf;
    LowBits(5, true, true);
  }

  lemma MaskedHello()
    ensures Masked(HELLO, [0x37, 0xFA, 0x21, 0x3D]) == [0x7F, 0x9F, 0x4D, 0x51, 0x58]
  {
  }

  /** The same section: 256 octets and 65536 octets of binary data. */
  lemma LongExamples(payload: Octets)
    ensures |payload| == 256 ==> ServerFrame(0x2, payload) == [0x82, 0x7E, 0x01, 0x00] + payload
    ensures |payload| == 65536 ==>
            ServerFrame(0x2, payload) == [0x82, 0x7F, 0x00, 0x00, 0x00, 0x00, 0x00, 0x01, 0x00, 0x00] + payload
  {
    hide OctetOf, ToBigEndian;
    LongLengths();
  }

  lemma LongLengths()
    ensures ToBigEndian(256, 2) == [0x01, 0x00]
    ensures ToBigEndian(65536, 8) == [0x00, 0x00, 0x00, 0x00, 0x00, 0x01, 0x00, 0x00]
  {
    hide OctetOf;
    assert OctetOf(0) == 0 && OctetOf(1) == 1 by {
      ZeroAndOne();
    }
    assert ToBigEndian(1, 1) == [1];
    assert ToBigEndian(0, 5) == [0, 0, 0, 0, 0] && ToBigEndian(1, 6) == [0, 0, 0, 0, 0, 1];
    assert ToBigEndian(256, 7) == [0, 0, 0, 0, 0, 1, 0];
  }

  lemma ZeroAndOne()
    ensures OctetOf(0) == 0 && OctetOf(1) == 1
  {
    hide OctetOf;
    LowBits(0, false, false);
    LowBits(1, false, true);
  }

  // ---- Streams ----

  /** The octets written in answer to the pings. */
  function Pongs(messages: seq<ClientMessage>): Octets {
    if messages == [] then []
    else (if messages[0].ClientPing? then ServerFrame(PONG, messages[0].payload) else []) + Pongs(messages[1..])
  }

  /** One pong for every ping, with the ping's own payload. */
  function PongFrames(messages: seq<ClientMessage>): seq<(Octet, Octets)> {
    if messages == [] then []
    else (if messages[0].ClientPing? then [(0xA, messages[0].payload)] else []) + PongFrames(messages[1..])
  }

  lemma {:induction false} PongsAreFrames(messages: seq<ClientMessage>, maxMessageBytes: nat)
    requires Sendable(messages, maxMessageBytes)
    ensures FramesIn(Pongs(messages)) == Some(PongFrames(messages))
  {
    hide ServerFrame;
    if messages != [] {
      PongsAreFrames(messages[1..], maxMessageBytes);
      assert Framed(messages[0]);
      if messages[0].ClientPing? {
        FramesInFirst(PONG, messages[0].payload, Pongs(messages[1..]));
      } else {
        assert [] + Pongs(messages[1..]) == Pongs(messages[1..]);
        assert [] + PongFrames(messages[1..]) == PongFrames(messages[1..]);
      }
    }
  }

  /** All texts read until the first failure, and everything written on the way. */
  datatype Session = Session(texts: seq<Octets>, reason: Failure, replies: Octets)

  function ReadTexts(s: Octets, maxMessageBytes: nat): Session
    decreases |s|
  {
    match TextOf(s, maxMessageBytes)
    case NoText(reason, replies) => Session([], reason, replies)
    case TextRead(payload, rest, replies) =>
      var more := ReadTexts(rest, maxMessageBytes);
      Session([payload] + more.texts, more.reason, replies + more.replies)
  }

  lemma PrependReply(reply: Octets, rest: Octets, maxMessageBytes: nat)
    ensures var r, more := TextOf(rest, maxMessageBytes), ReadTexts(rest, maxMessageBytes);
            r.TextRead? ==>
            reply + more.replies == (reply + r.replies) + ReadTexts(r.rest, maxMessageBytes).replies
  {
  }

  lemma {:induction false} TextsThenEnd(messages: seq<ClientMessage>, tail: Octets, reason: Failure, maxMessageBytes: nat)
    requires Sendable(messages, maxMessageBytes) && TextOf(tail, maxMessageBytes) == NoText(reason, [])
    ensures ReadTexts(Encoded(messages) + tail, maxMessageBytes) == Session(Texts(messages), reason, Pongs(messages))
    decreases |messages|
  {
    hide ClientFrame, FrameOf, ServerFrame;
    if messages == [] {
      assert [] + tail == tail;
    } else {
      var m := messages[0];
      var rest := Encoded(messages[1..]) + tail;
      assert Encoded(messages) + tail == ClientFrame(m.encoding, Opcode(m), m.key, m.payload) + rest;
      FrameRoundTrip(m.encoding, Opcode(m), m.key, m.payload, rest, maxMessageBytes);
      TextsThenEnd(messages[1..], tail, reason, maxMessageBytes);
      match m {
        case ClientText(_, _, payload) =>
        case ClientPing(_, _, payload) => PrependReply(ServerFrame(PONG, payload), rest, maxMessageBytes);
        case ClientPong(_, _, payload) =>
      }
      assert [] + Texts(messages[1..]) == Texts(messages[1..]) && [] + Pongs(messages[1..]) == Pongs(messages[1..]);
    }
  }

  /** Any final and masked frame, whatever its opcode. */
  datatype AnyFrame = AnyFrame(encoding: Encoding, opcode: Octet, key: Octets, payload: Octets)

  predicate IsFrame(f: AnyFrame) {
    f.opcode < 0x10 && |f.key| == 4 && CanHold(f.encoding, |f.payload|)
  }

  function Wire(f: AnyFrame): Octets
    requires IsFrame(f)
  {
    ClientFrame(f.encoding, f.opcode, f.key, f.payload)
  }

  predicate BeginsWith(s: Octets, f: AnyFrame) {
    IsFrame(f) && |Wire(f)| <= |s| && s[..|Wire(f)|] == Wire(f)
  }

  predicate IsCutOff(s: Octets, f: AnyFrame) {
    IsFrame(f) && |s| < |Wire(f)| && s == Wire(f)[..|s|]
  }

  /** What ends a stream, and how it is reported. */
  ghost predicate EndsWith(tail: Octets, maxMessageBytes: nat, reason: Failure) {
    match reason
    case EndOfInput => exists f :: IsCutOff(tail, f) && |f.payload| <= maxMessageBytes
    case Fragmented => |tail| >= 2 && tail[0] & 0x80 == 0
    case NotMasked => |tail| >= 2 && tail[0] & 0x80 != 0 && tail[1] & 0x80 == 0
    case TooLarge => exists f :: BeginsWith(tail, f) && |f.payload| > maxMessageBytes
    case ClosedByPeer => exists f :: BeginsWith(tail, f) && |f.payload| <= maxMessageBytes && f.opcode == 0x8
    case UnsupportedOpcode =>
      exists f :: BeginsWith(tail, f) && |f.payload| <= maxMessageBytes
                  && f.opcode != 0x1 && f.opcode != 0x8 && f.opcode != 0x9 && f.opcode != 0xA
  }

  /** A length that is cut off is missed, and a whole one is read with what is there of the rest. */
  lemma LengthOfPrefix(code: Octet, u: Octets, j: nat, maxMessageBytes: nat)
    requires j <= |u| && ReadLength(code, u, maxMessageBytes).Length?
    ensures var whole, cut := ReadLength(code, u, maxMessageBytes), ReadLength(code, u[..j], maxMessageBytes);
            cut == NoLength(EndOfInput)
            || (cut.Length? && cut.length == whole.length && |u| - j + |cut.rest| == |whole.rest|)
  {
    hide BigEndian, Number;
    if j >= 2 {
      assert u[..j][..2] == u[..2];
    }
    if j >= 8 {
      assert u[..j][..8] == u[..8];
    }
  }

  lemma CutOffIsEnd(s: Octets, f: AnyFrame, maxMessageBytes: nat)
    requires IsCutOff(s, f) && |f.payload| <= maxMessageBytes
    ensures FrameOf(s, maxMessageBytes) == Failed(EndOfInput)
  {
    hide ClientFrame, ReadLength, Masked, CanHold;
    if |s| >= 2 {
      var whole := Wire(f);
      HeadIsRead(f.encoding, f.opcode, f.key, f.payload, [], maxMessageBytes);
      assert whole + [] == whole;
      assert s[2..] == whole[2..][..|s| - 2];
      LengthOfPrefix(whole[1] & 0x7F, whole[2..], |s| - 2, maxMessageBytes);
    }
  }

  lemma WholeIsRead(s: Octets, f: AnyFrame, maxMessageBytes: nat)
    requires BeginsWith(s, f)
    ensures FrameOf(s, maxMessageBytes)
         == if |f.payload| <= maxMessageBytes then Frame(f.opcode, f.payload, s[|Wire(f)|..]) else Failed(TooLarge)
  {
    hide FrameOf, ClientFrame, CanHold;
    FrameRoundTrip(f.encoding, f.opcode, f.key, f.payload, s[|Wire(f)|..], maxMessageBytes);
    assert s == Wire(f) + s[|Wire(f)|..];
  }

  lemma TailEnds(tail: Octets, maxMessageBytes: nat, reason: Failure)
    requires EndsWith(tail, maxMessageBytes, reason)
    ensures TextOf(tail, maxMessageBytes) == NoText(reason, [])
  {
    hide Wire, BeginsWith, IsCutOff;
    match reason {
      case Fragmented =>
      case NotMasked =>
      case EndOfInput =>
        var f :| IsCutOff(tail, f) && |f.payload| <= maxMessageBytes;
        CutOffIsEnd(tail, f, maxMessageBytes);
      case TooLarge =>
        var f :| BeginsWith(tail, f) && |f.payload| > maxMessageBytes;
        WholeIsRead(tail, f, maxMessageBytes);
      case ClosedByPeer =>
        var f :| BeginsWith(tail, f) && |f.payload| <= maxMessageBytes && f.opcode == 0x8;
        WholeIsRead(tail, f, maxMessageBytes);
      case UnsupportedOpcode =>
        var f :| BeginsWith(tail, f) && |f.payload| <= maxMessageBytes
                 && f.opcode != 0x1 && f.opcode != 0x8 && f.opcode != 0x9 && f.opcode != 0xA;
        WholeIsRead(tail, f, maxMessageBytes);
    }
  }

  /** On a stream of text, ping and pong frames and whatever ends it, the relay reads the text payloads in order
      and writes one pong for each ping, with the ping's own payload, and nothing else. */
  lemma StreamEnds(messages: seq<ClientMessage>, tail: Octets, reason: Failure, maxMessageBytes: nat)
    requires Sendable(messages, maxMessageBytes) && EndsWith(tail, maxMessageBytes, reason)
    ensures var session := ReadTexts(Encoded(messages) + tail, maxMessageBytes);
            && session.texts == Texts(messages) && session.reason == reason
            && FramesIn(session.replies) == Some(PongFrames(messages))
  {
    hide ReadTexts, Encoded, TextOf, FramesIn, PongFrames, Pongs, EndsWith;
    TailEnds(tail, maxMessageBytes, reason);
    TextsThenEnd(messages, tail, reason, maxMessageBytes);
    PongsAreFrames(messages, maxMessageBytes);
  }

  /** How many of the messages lie within the first `k` octets. */
  function Whole(messages: seq<ClientMessage>, k: nat): (n: nat)
    requires forall i :: 0 <= i < |messages| ==> Framed(messages[i])
    ensures n <= |messages|
  {
    if messages == [] then 0
    else
      var m := messages[0];
      assert Framed(m);
      var size := |ClientFrame(m.encoding, Opcode(m), m.key, m.payload)|;
      if k < size then 0 else 1 + Whole(messages[1..], k - size)
  }

  lemma CutInFrame(s: Octets, f: AnyFrame, k: nat, maxMessageBytes: nat)
    requires IsFrame(f) && |f.payload| <= maxMessageBytes && k < |Wire(f)| && k <= |s| && s[..k] == Wire(f)[..k]
    ensures EndsWith(s[0..k], maxMessageBytes, EndOfInput)
  {
    hide Wire;
    assert s[0..k] == s[..k];
    assert IsCutOff(s[0..k], f);
  }

  /** The messages that came whole, and the part of a frame that follows them. */
  ghost predicate SplitsAt(messages: seq<ClientMessage>, n: nat, k: nat, maxMessageBytes: nat)
    requires Sendable(messages, maxMessageBytes) && n <= |messages| && k <= |Encoded(messages)|
  {
    var size := |Encoded(messages[..n])|;
    && size <= k && Encoded(messages)[..size] == Encoded(messages[..n])
    && EndsWith(Encoded(messages)[size..k], maxMessageBytes, EndOfInput)
  }

  lemma SplitLater(messages: seq<ClientMessage>, n: nat, k: nat, maxMessageBytes: nat)
    requires Sendable(messages, maxMessageBytes) && messages != [] && Framed(messages[0])
    requires n < |messages| && k <= |Encoded(messages[1..])| && SplitsAt(messages[1..], n, k, maxMessageBytes)
    ensures var m := messages[0];
            var size := |ClientFrame(m.encoding, Opcode(m), m.key, m.payload)|;
            size + k <= |Encoded(messages)| && SplitsAt(messages, n + 1, size + k, maxMessageBytes)
  {
    hide ClientFrame, EndsWith, Encoded;
    var m, rest := messages[0], messages[1..];
    var frame, size := ClientFrame(m.encoding, Opcode(m), m.key, m.payload), |Encoded(rest[..n])|;
    EncodedFirst(messages);
    EncodedFirst(messages[..n + 1]);
    assert messages[..n + 1][1..] == rest[..n];
    Shifted(frame, Encoded(rest), size, k);
  }

  lemma EncodedFirst(messages: seq<ClientMessage>)
    requires messages != [] && forall i :: 0 <= i < |messages| ==> Framed(messages[i])
    ensures var m := messages[0];
            Framed(m) && Encoded(messages) == ClientFrame(m.encoding, Opcode(m), m.key, m.payload) + Encoded(messages[1..])
  {
    hide ClientFrame;
    assert Framed(messages[0]);
  }

  lemma Shifted(frame: Octets, rest: Octets, size: nat, k: nat)
    requires size <= k <= |rest|
    ensures (frame + rest)[..|frame| + size] == frame + rest[..size]
    ensures (frame + rest)[|frame| + size..|frame| + k] == rest[size..k]
  {
  }

  lemma {:induction false} CutIsSplit(messages: seq<ClientMessage>, k: nat, maxMessageBytes: nat)
    requires Sendable(messages, maxMessageBytes) && k <= |Encoded(messages)|
    ensures SplitsAt(messages, Whole(messages, k), k, maxMessageBytes)
    decreases |messages|
  {
    hide ClientFrame, EndsWith, SplitsAt;
    if messages == [] {
      NothingIsSplit(maxMessageBytes);
    } else {
      var m := messages[0];
      assert Framed(m);
      var frame := ClientFrame(m.encoding, Opcode(m), m.key, m.payload);
      if k < |frame| {
        FirstIsCut(messages, k, maxMessageBytes);
      } else {
        CutIsSplit(messages[1..], k - |frame|, maxMessageBytes);
        SplitLater(messages, Whole(messages[1..], k - |frame|), k - |frame|, maxMessageBytes);
      }
    }
  }

  lemma NothingIsSplit(maxMessageBytes: nat)
    ensures SplitsAt([], 0, 0, maxMessageBytes)
  {
    CutInFrame([], AnyFrame(Short, TEXT, [0, 0, 0, 0], []), 0, maxMessageBytes);
  }

  lemma FirstIsCut(messages: seq<ClientMessage>, k: nat, maxMessageBytes: nat)
    requires Sendable(messages, maxMessageBytes) && messages != [] && k <= |Encoded(messages)| && Framed(messages[0])
    requires k < |ClientFrame(messages[0].encoding, Opcode(messages[0]), messages[0].key, messages[0].payload)|
    ensures SplitsAt(messages, 0, k, maxMessageBytes)
  {
    hide ClientFrame, EndsWith;
    var m := messages[0];
    assert messages[..0] == [];
    CutInFrame(Encoded(messages), AnyFrame(m.encoding, Opcode(m), m.key, m.payload), k, maxMessageBytes);
  }

  /** A stream that is cut off anywhere: the texts that came whole are read in order, the pings that came whole
      are answered, and then the input is over. */
  lemma CutAnywhere(messages: seq<ClientMessage>, k: nat, maxMessageBytes: nat)
    requires Sendable(messages, maxMessageBytes) && k <= |Encoded(messages)|
    ensures var session, done := ReadTexts(Encoded(messages)[..k], maxMessageBytes), messages[..Whole(messages, k)];
            && session.texts == Texts(done) && session.reason == EndOfInput
            && FramesIn(session.replies) == Some(PongFrames(done))
  {
    hide ReadTexts, Encoded, Texts, FramesIn, PongFrames, EndsWith, Whole;
    var done := messages[..Whole(messages, k)];
    CutIsSplit(messages, k, maxMessageBytes);
    var size := |Encoded(done)|;
    assert Encoded(messages)[..k] == Encoded(messages)[..size] + Encoded(messages)[size..k];
    StreamEnds(done, Encoded(messages)[|Encoded(done)|..k], EndOfInput, maxMessageBytes);
  }

  /** In particular a stream of whole frames is read to its end. */
  lemma StreamIsRead(messages: seq<ClientMessage>, maxMessageBytes: nat)
    requires Sendable(messages, maxMessageBytes)
    ensures var session := ReadTexts(Encoded(messages), maxMessageBytes);
            && session.texts == Texts(messages) && session.reason == EndOfInput
            && FramesIn(session.replies) == Some(PongFrames(messages))
  {
    hide ReadTexts, Encoded, Texts, FramesIn, PongFrames, EndsWith;
    CutInFrame([], AnyFrame(Short, TEXT, [0, 0, 0, 0], []), 0, maxMessageBytes);
    StreamEnds(messages, [], EndOfInput, maxMessageBytes);
    assert Encoded(messages) + [] == Encoded(messages);
  }
}
