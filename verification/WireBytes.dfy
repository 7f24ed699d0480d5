/** From message to bytes and back: printing, UTF-8, frames, any split of the stream, and the parser at the other
    end. */
module WireBytes {
  import opened WideText
  import opened Protocol
  import opened JsonPrinter
  import opened JsonParser
  import opened JsonRoundTrip
  import opened Frames
  import Utf8

  /** The payload of a message; None when it cannot be sent. */
  ghost function Payload(m: Message): Option<Bytes> {
    if Fits(m) then Utf8.Encode(Printed(m)) else None
  }

  /** DeserializeMessage on the bytes themselves. */
  function Opened(payload: Bytes): Result<Message> {
    if |payload| > Protocol.MAX_FRAME_PAYLOAD_BYTES then Err(FrameTooLarge)
    else
      match Utf8.Decode(payload)
      case None => Err(InvalidUtf8)
      case Some(text) => Parse(text)
  }

  /** On valid bytes that is the reading of their text. */
  lemma OpenedIsDeserialize(payload: Bytes)
    requires Utf8.Decode(payload).Some?
    ensures Opened(payload) == Deserialize(Utf8.Decode(payload).value)
  {
    hide Parse, Utf8.Decode, Utf8.Encode;
    Utf8.DecodeThenEncode(payload);
    Utf8.EncodeThenDecode(Utf8.Decode(payload).value);
  }

  /** A message that fits has a payload within the frame limit, and opening it gives the message back. */
  lemma PayloadIsOpened(m: Message)
    requires Fits(m) && SixtyFourBit(m)
    ensures Payload(m).Some? && |Payload(m).value| <= 65536
    ensures Opened(Payload(m).value) == Ok(Returned(m))
  {
    hide Parse, Utf8.Decode, Utf8.Encode, Printed, Returned;
    Utf8.EncodeThenDecode(Printed(m));
    PrintThenParse(m);
    OpenedIsDeserialize(Payload(m).value);
  }

  /** Why a message is not sent, in the order of the checks; the limit is on the bytes of its UTF-8 form. */
  lemma RefusalIs(m: Message)
    ensures Serialize(m)
         == if m.kind == Unknown then Err(InvalidMessageType)
            else if m.session == [] || m.client == [] then Err(MissingRequiredField)
            else
              match Utf8.Encode(Printed(m))
              case None => Err(InvalidUtf8)
              case Some(bytes) => if |bytes| > 65536 then Err(FrameTooLarge) else Ok(Printed(m))
  {
    hide Printed, Utf8.Encode, Utf8.Decode;
    Utf8.EncodeThenDecode(Printed(m));
  }

  /** What is no text, or no text of a frame, is refused before it is parsed. */
  lemma UnfitIsRefused(payload: Bytes, text: Text)
    ensures |payload| > 65536 ==> Opened(payload) == Err(FrameTooLarge)
    ensures |payload| <= 65536 && Utf8.Decode(payload).None? ==> Opened(payload) == Err(InvalidUtf8)
    ensures Utf8.Encode(text).None? ==> Deserialize(text) == Err(InvalidUtf8)
    ensures Utf8.Encode(text).Some? && |Utf8.Encode(text).value| > 65536 ==> Deserialize(text) == Err(FrameTooLarge)
  {
    hide Parse, Utf8.Decode, Utf8.Encode;
    Utf8.EncodeThenDecode(text);
  }

  ghost predicate Sendable(messages: seq<Message>) {
    forall i :: 0 <= i < |messages| ==>
      Fits(messages[i]) && SixtyFourBit(messages[i])
      && Payload(messages[i]).Some? && |Payload(messages[i]).value| <= SAFE_PAYLOAD_BYTES
  }

  ghost function Payloads(messages: seq<Message>): (payloads: seq<Bytes>)
    requires Sendable(messages)
    ensures AllAtMost(payloads, SAFE_PAYLOAD_BYTES)
  {
    seq(|messages|, i requires 0 <= i < |messages| => Payload(messages[i]).value)
  }

  /** Messages whose payloads are within the safe bound, sent one after the other and cut up in any way on the
      road: the receiving loop and the parser give them back one by one, and then the end. */
  lemma SentIsReceived(messages: seq<Message>, chunks: seq<Bytes>)
    requires Sendable(messages) && IsSplit(chunks) && Joined(chunks) == EncodeAll(Payloads(messages))
    ensures var stream := ReceiveAll([], chunks);
            && stream.ending == Closed && stream.buffer == [] && |stream.payloads| == |messages|
            && forall i :: 0 <= i < |messages| ==> Opened(stream.payloads[i]) == Ok(Returned(messages[i]))
  {
    hide Fits, Payload, Opened, Returned, SixtyFourBit, EncodeAll, ReceiveAll;
    assert [] + Joined(chunks) == EncodeAll(Payloads(messages));
    EverySplitDelivers([], chunks, Payloads(messages));
    forall i | 0 <= i < |messages|
      ensures Opened(Payloads(messages)[i]) == Ok(Returned(messages[i]))
    {
      PayloadIsOpened(messages[i]);
    }
  }
}
