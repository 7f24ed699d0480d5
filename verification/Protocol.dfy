/** Protocol messages: a type, two common fields and two flat maps (client/protocol.h,
    client/protocol.cpp). Field names and type names are spelled as UTF-16 code units. */
module Protocol {
  import opened WideText

  const MAX_FRAME_PAYLOAD_BYTES: nat := 64 * 1024
  const UINT64_MAX: nat := 0xFFFF_FFFF_FFFF_FFFF

  const TYPE: Text := [0x74, 0x79, 0x70, 0x65] // type
  const SESSION: Text := [0x73, 0x65, 0x73, 0x73, 0x69, 0x6F, 0x6E] // session
  const CLIENT: Text := [0x63, 0x6C, 0x69, 0x65, 0x6E, 0x74] // client
  const REV: Text := [0x72, 0x65, 0x76] // rev
  const BASE_REV: Text := [0x62, 0x61, 0x73, 0x65, 0x5F, 0x72, 0x65, 0x76] // base_rev
  const CURRENT_REV: Text := [0x63, 0x75, 0x72, 0x72, 0x65, 0x6E, 0x74, 0x5F, 0x72, 0x65, 0x76] // current_rev
  const POS: Text := [0x70, 0x6F, 0x73] // pos
  const LEN: Text := [0x6C, 0x65, 0x6E] // len
  const OP: Text := [0x6F, 0x70] // op
  const TEXT: Text := [0x74, 0x65, 0x78, 0x74] // text
  const CHUNK_INDEX: Text := [0x63, 0x68, 0x75, 0x6E, 0x6B, 0x5F, 0x69, 0x6E, 0x64, 0x65, 0x78] // chunk_index
  const CHUNK_COUNT: Text := [0x63, 0x68, 0x75, 0x6E, 0x6B, 0x5F, 0x63, 0x6F, 0x75, 0x6E, 0x74] // chunk_count
  const JOIN_CODE: Text := [0x6A, 0x6F, 0x69, 0x6E, 0x5F, 0x63, 0x6F, 0x64, 0x65] // join_code
  const REASON: Text := [0x72, 0x65, 0x61, 0x73, 0x6F, 0x6E] // reason
  const TIME: Text := [0x74, 0x69, 0x6D, 0x65] // time

  const CLIENT_A: Text := [0x41] // A
  const CLIENT_B: Text := [0x42] // B
  const SERVER: Text := [0x73, 0x65, 0x72, 0x76, 0x65, 0x72] // server

  const NAME_HELLO: Text := [0x48, 0x45, 0x4C, 0x4C, 0x4F] // HELLO
  const NAME_JOIN: Text := [0x4A, 0x4F, 0x49, 0x4E] // JOIN
  const NAME_JOIN_OK: Text := [0x4A, 0x4F, 0x49, 0x4E, 0x5F, 0x4F, 0x4B] // JOIN_OK
  const NAME_JOIN_FAIL: Text := [0x4A, 0x4F, 0x49, 0x4E, 0x5F, 0x46, 0x41, 0x49, 0x4C] // JOIN_FAIL
  const NAME_INSERT: Text := [0x49, 0x4E, 0x53, 0x45, 0x52, 0x54] // INSERT
  const NAME_DELETE: Text := [0x44, 0x45, 0x4C, 0x45, 0x54, 0x45] // DELETE
  const NAME_APPLY: Text := [0x41, 0x50, 0x50, 0x4C, 0x59] // APPLY
  const NAME_SYNC_REQUEST: Text := [0x53, 0x59, 0x4E, 0x43, 0x5F, 0x52, 0x45, 0x51, 0x55, 0x45, 0x53, 0x54] // SYNC_REQUEST
  const NAME_SYNC_RESPONSE: Text := [0x53, 0x59, 0x4E, 0x43, 0x5F, 0x52, 0x45, 0x53, 0x50, 0x4F, 0x4E, 0x53, 0x45] // SYNC_RESPONSE
  const NAME_PING: Text := [0x50, 0x49, 0x4E, 0x47] // PING
  const NAME_PONG: Text := [0x50, 0x4F, 0x4E, 0x47] // PONG
  const NAME_ERROR: Text := [0x45, 0x52, 0x52, 0x4F, 0x52] // ERROR
  const NAME_UNKNOWN: Text := [0x55, 0x4E, 0x4B, 0x4E, 0x4F, 0x57, 0x4E] // UNKNOWN

  const REASON_INVALID_SESSION: Text := [0x69, 0x6E, 0x76, 0x61, 0x6C, 0x69, 0x64, 0x5F, 0x73, 0x65, 0x73, 0x73, 0x69, 0x6F, 0x6E] // invalid_session
  const REASON_INVALID_CLIENT: Text := [0x69, 0x6E, 0x76, 0x61, 0x6C, 0x69, 0x64, 0x5F, 0x63, 0x6C, 0x69, 0x65, 0x6E, 0x74] // invalid_client
  const REASON_MISSING_POSITION: Text := [0x6D, 0x69, 0x73, 0x73, 0x69, 0x6E, 0x67, 0x5F, 0x70, 0x6F, 0x73, 0x69, 0x74, 0x69, 0x6F, 0x6E] // missing_position
  const REASON_INVALID_OPERATION: Text := [0x69, 0x6E, 0x76, 0x61, 0x6C, 0x69, 0x64, 0x5F, 0x6F, 0x70, 0x65, 0x72, 0x61, 0x74, 0x69, 0x6F, 0x6E] // invalid_operation
  const REASON_INVALID_POSITION: Text := [0x69, 0x6E, 0x76, 0x61, 0x6C, 0x69, 0x64, 0x5F, 0x70, 0x6F, 0x73, 0x69, 0x74, 0x69, 0x6F, 0x6E] // invalid_position
  const REASON_INSERT_TOO_LARGE: Text := [0x69, 0x6E, 0x73, 0x65, 0x72, 0x74, 0x5F, 0x74, 0x6F, 0x6F, 0x5F, 0x6C, 0x61, 0x72, 0x67, 0x65] // insert_too_large
  const REASON_DOCUMENT_TOO_LARGE: Text := [0x64, 0x6F, 0x63, 0x75, 0x6D, 0x65, 0x6E, 0x74, 0x5F, 0x74, 0x6F, 0x6F, 0x5F, 0x6C, 0x61, 0x72, 0x67, 0x65] // document_too_large
  const REASON_UNSUPPORTED_MESSAGE: Text := [0x75, 0x6E, 0x73, 0x75, 0x70, 0x70, 0x6F, 0x72, 0x74, 0x65, 0x64, 0x5F, 0x6D, 0x65, 0x73, 0x73, 0x61, 0x67, 0x65] // unsupported_message

  datatype MessageType =
    | Hello | Join | JoinOk | JoinFail | Insert | Delete | Apply
    | SyncRequest | SyncResponse | Ping | Pong | Error | Unknown

  datatype ProtocolError = FrameTooLarge | InvalidUtf8 | InvalidJson | MissingRequiredField | InvalidMessageType

  datatype Result<+T> = Ok(value: T) | Err(error: ProtocolError)

  function MessageTypeToString(kind: MessageType): Text {
    match kind
    case Hello => NAME_HELLO
    case Join => NAME_JOIN
    case JoinOk => NAME_JOIN_OK
    case JoinFail => NAME_JOIN_FAIL
    case Insert => NAME_INSERT
    case Delete => NAME_DELETE
    case Apply => NAME_APPLY
    case SyncRequest => NAME_SYNC_REQUEST
    case SyncResponse => NAME_SYNC_RESPONSE
    case Ping => NAME_PING
    case Pong => NAME_PONG
    case Error => NAME_ERROR
    case Unknown => NAME_UNKNOWN
  }

  function MessageTypeFromString(value: Text): MessageType {
    if value == NAME_HELLO then MessageType.Hello
    else if value == NAME_JOIN then MessageType.Join
    else if value == NAME_JOIN_OK then MessageType.JoinOk
    else if value == NAME_JOIN_FAIL then MessageType.JoinFail
    else if value == NAME_INSERT then MessageType.Insert
    else if value == NAME_DELETE then MessageType.Delete
    else if value == NAME_APPLY then MessageType.Apply
    else if value == NAME_SYNC_REQUEST then MessageType.SyncRequest
    else if value == NAME_SYNC_RESPONSE then MessageType.SyncResponse
    else if value == NAME_PING then MessageType.Ping
    else if value == NAME_PONG then MessageType.Pong
    else if value == NAME_ERROR then MessageType.Error
    else Unknown
  }

  lemma NamesDiffer()
    ensures forall a: MessageType, b: MessageType :: MessageTypeToString(a) == MessageTypeToString(b) ==> a == b
  {
    forall a: MessageType, b: MessageType | MessageTypeToString(a) == MessageTypeToString(b)
      ensures a == b
    {
      var s, t := MessageTypeToString(a), MessageTypeToString(b);
      assert |s| == |t| && s[0] == t[0] && s[1] == t[1] && s[2] == t[2] && s[3] == t[3];
      assert |s| > 5 ==> s[5] == t[5];
    }
  }

  /** Every known type is read back from its name, and a name read as known is spelled back the same. */
  lemma TypeNamesRoundTrip(kind: MessageType, value: Text)
    requires kind != Unknown
    ensures MessageTypeFromString(MessageTypeToString(kind)) == kind
    ensures MessageTypeFromString(value) != Unknown ==> MessageTypeToString(MessageTypeFromString(value)) == value
  {
    NamesDiffer();
  }

  datatype Message = Message(kind: MessageType, session: Text, client: Text,
                             strings: map<Text, Text>, numbers: map<Text, nat>)
  {
    /** Writing one of the three common fields also updates the member that mirrors it. */
    function SetString(key: Text, value: Text): Message {
      var stored := this.(strings := strings[key := value]);
      if key == TYPE then stored.(kind := MessageTypeFromString(value))
      else if key == SESSION then stored.(session := value)
      else if key == CLIENT then stored.(client := value)
      else stored
    }

    function SetNumber(key: Text, value: nat): Message {
      this.(numbers := numbers[key := value])
    }

    function GetString(key: Text): Option<Text> {
      if key in strings then Some(strings[key]) else None
    }

    function GetNumber(key: Text): Option<nat> {
      if key in numbers then Some(numbers[key]) else None
    }
  }

  const EMPTY_MESSAGE := Message(Unknown, [], [], map[], map[])

  predicate IsCommonField(key: Text) {
    key == TYPE || key == SESSION || key == CLIENT
  }

  /** The field names the sync messages use are pairwise different. */
  lemma KeysDiffer()
    ensures REV != POS && REV != LEN && POS != LEN && OP != TEXT
    ensures REV != CHUNK_INDEX && REV != CHUNK_COUNT && CHUNK_INDEX != CHUNK_COUNT
    ensures BASE_REV != POS && BASE_REV != LEN
    ensures CLIENT_A != CLIENT_B && SERVER != CLIENT_A && SERVER != CLIENT_B && NAME_INSERT != NAME_DELETE
    ensures TYPE != SESSION && TYPE != CLIENT && SESSION != CLIENT
    ensures !IsCommonField(OP) && !IsCommonField(TEXT) && !IsCommonField(REASON) && !IsCommonField(JOIN_CODE)
  {
    assert REV[0] != POS[0] && REV[0] != LEN[0] && POS[0] != LEN[0];
    assert CHUNK_INDEX[6] != CHUNK_COUNT[6];
    assert CLIENT_A[0] != CLIENT_B[0];
    assert NAME_INSERT[0] != NAME_DELETE[0];
    assert TEXT[1] != TYPE[1];
    assert REASON[0] != CLIENT[0];
  }
}
