/** The WS2 binary framing: an 8-byte envelope header followed by a DATA,
    METADATA or STREAM_END payload (ws_protocol.go). JSON bodies are opaque
    byte strings; whether they unmarshal is a caller-supplied predicate. */
module WsProtocol {
  import opened Encoding

  const PROTOCOL_VERSION: byte := 1
  const MESSAGE_TYPE_DATA: byte := 0x01
  const MESSAGE_TYPE_METADATA: byte := 0x02
  const MESSAGE_TYPE_STREAM_END: byte := 0x03
  const ENVELOPE_HEADER_SIZE: nat := 8

  /** The error values the codec returns. IndexOutOfRange stands for the
      runtime panic of a slice or index expression that is out of range. */
  datatype ProtocolError =
    | BufferTooShort
    | SizeMismatch
    | ArrayLengthMismatch
    | LengthFieldMismatch
    | JsonUnmarshalFailed
    | PayloadTypeMismatch
    | UnknownMessageType
    | IndexOutOfRange

  datatype Result<T> = Ok(value: T) | Err(error: ProtocolError)

  datatype EnvelopeHeader = EnvelopeHeader(
    version: byte,
    reserved0: byte,
    reserved1: byte,
    msgType: byte,
    length: u32)

  /** A DATA payload: `length` X/Y pairs of one series. */
  datatype DataMessage = DataMessage(seriesId: u32, length: u32, x: seq<Float>, y: seq<Float>)

  /** What the Go interface{} payload holds: one of the three payload kinds,
      or a value of any other type. */
  datatype Payload =
    | DataPayload(data: DataMessage)
    | MetadataPayload(metadataJson: seq<byte>)
    | StreamEndPayload(streamEndJson: seq<byte>)
    | OtherPayload

  datatype WSMessage = WSMessage(header: EnvelopeHeader, payload: Payload)

  // ---------------------------------------------------------------- header

  /** Version, the two reserved bytes and the type, then the payload length
      as a little-endian uint32. */
  function EncodeEnvelopeHeader(env: EnvelopeHeader): (r: seq<byte>)
    ensures |r| == ENVELOPE_HEADER_SIZE
    ensures r[0] == env.version && r[1] == env.reserved0 && r[2] == env.reserved1
    ensures r[3] == env.msgType && r[4..8] == Le32(env.length)
  {
    [env.version, env.reserved0, env.reserved1, env.msgType] + Le32(env.length)
  }

  function DecodeEnvelopeHeader(buf: seq<byte>): (r: Result<EnvelopeHeader>)
    ensures r.Err? <==> |buf| < ENVELOPE_HEADER_SIZE
    ensures r.Err? ==> r.error == BufferTooShort
  {
    if |buf| < ENVELOPE_HEADER_SIZE then Err(BufferTooShort)
    else Ok(EnvelopeHeader(buf[0], buf[1], buf[2], buf[3], U32At(buf, 4)))
  }

  /** Every header, reserved bytes included, survives encoding and decoding,
      and bytes after the header do not matter. */
  lemma HeaderRoundTrip(env: EnvelopeHeader, rest: seq<byte>)
    ensures DecodeEnvelopeHeader(EncodeEnvelopeHeader(env) + rest) == Ok(env)
  {
    var buf := EncodeEnvelopeHeader(env) + rest;
    assert buf[4..8] == Le32(env.length);
    U32RoundTrip(buf, 4, env.length);
  }

  /** A decoded header re-encodes to the first eight bytes it came from. */
  lemma HeaderDecodeEncode(buf: seq<byte>)
    requires |buf| >= ENVELOPE_HEADER_SIZE
    ensures EncodeEnvelopeHeader(DecodeEnvelopeHeader(buf).value) == buf[..8]
  {
    U32Encodes(buf, 4);
    assert buf[..8] == buf[..4] + buf[4..8];
  }

  /** Decoding reads only the first eight bytes. */
  lemma HeaderIgnoresTrailing(buf: seq<byte>, rest: seq<byte>)
    requires |buf| >= ENVELOPE_HEADER_SIZE
    ensures DecodeEnvelopeHeader(buf + rest) == DecodeEnvelopeHeader(buf)
  {
    assert (buf + rest)[4..8] == buf[4..8];
  }

  // ---------------------------------------------------------- DATA payload

  /** The DATA layout: SeriesID, Length, every X word, then every Y word. */
  function DataBytes(m: DataMessage): (r: seq<byte>)
    ensures |r| == 8 + 8 * |m.x| + 8 * |m.y|
  {
    Le32(m.seriesId) + Le32(m.length) + Words(m.x) + Words(m.y)
  }

  /** What EncodeDataMessage returns. The buffer has the uint32 size
      8 + Length*16, so a message of 2^28 pairs or more wraps it and the
      writes run past its end. */
  function EncodeData(m: DataMessage): (r: Result<seq<byte>>)
    ensures r.Ok? ==> && |m.x| == |m.y| == m.length && 8 + 16 * m.length < TWO_32
                      && r.value == DataBytes(m)
  {
    if |m.x| != |m.y| then Err(ArrayLengthMismatch)
    else if ToU32(|m.x|) != m.length then Err(LengthFieldMismatch)
    else if 8 + 16 * |m.x| > ToU32(8 + 16 * m.length) then Err(IndexOutOfRange)
    else Ok(DataBytes(m))
  }

  /** Encoding succeeds exactly for matching arrays whose count is the Length
      field and whose encoding fits the uint32 size; the result is then
      8 + 16*Length bytes. */
  lemma EncodeDataOutcome(m: DataMessage)
    ensures EncodeData(m).Ok? <==>
              |m.x| == |m.y| == m.length && 8 + 16 * m.length < TWO_32
    ensures EncodeData(m).Ok? ==> |EncodeData(m).value| == 8 + 16 * m.length
    ensures |m.x| != |m.y| ==> EncodeData(m) == Err(ArrayLengthMismatch)
    ensures |m.x| == |m.y| && |m.x| < TWO_32 && |m.x| != m.length ==>
              EncodeData(m) == Err(LengthFieldMismatch)
  {
  }

  /** DecodeDataMessage as written: the size check is done in uint32, so a
      Length of 2^28 or more can wrap 8 + Length*16 down to the buffer's real
      size and the reads then run past its end. */
  function DecodeDataAsWritten(buf: seq<byte>): (r: Result<DataMessage>)
    ensures |buf| < 8 ==> r == Err(BufferTooShort)
    ensures r.Ok? ==> |r.value.x| == |r.value.y| == r.value.length
  {
    if |buf| < 8 then Err(BufferTooShort)
    else
      var l := U32At(buf, 4);
      if ToU32(|buf|) != ToU32(8 + 16 * l) then Err(SizeMismatch)
      else if 8 + 16 * l > |buf| then Err(IndexOutOfRange)
      else Ok(DataMessage(U32At(buf, 0), l, WordsAt(buf, 8, l), WordsAt(buf, 8 + 8 * l, l)))
  }

  /** DecodeDataMessage with the size check done without wrap-around. */
  function DecodeData(buf: seq<byte>): (r: Result<DataMessage>)
    ensures |buf| < 8 ==> r == Err(BufferTooShort)
    ensures |buf| >= 8 ==> (r.Ok? <==> |buf| == 8 + 16 * U32At(buf, 4))
    ensures r.Ok? ==> |r.value.x| == |r.value.y| == r.value.length
    ensures r.Ok? ==> |buf| == 8 + 16 * r.value.length
  {
    if |buf| < 8 then Err(BufferTooShort)
    else
      var l := U32At(buf, 4);
      if |buf| != 8 + 16 * l then Err(SizeMismatch)
      else Ok(DataMessage(U32At(buf, 0), l, WordsAt(buf, 8, l), WordsAt(buf, 8 + 8 * l, l)))
  }

  /** Slicing DataBytes(m) back into its four fields. */
  lemma DataBytesFields(m: DataMessage, buf: seq<byte>)
    requires buf == DataBytes(m)
    ensures buf[0..4] == Le32(m.seriesId) && buf[4..8] == Le32(m.length)
    ensures buf[8..8 + 8 * |m.x|] == Words(m.x)
    ensures buf[8 + 8 * |m.x|..8 + 8 * |m.x| + 8 * |m.y|] == Words(m.y)
  {
    var a := Le32(m.seriesId);
    var b := Le32(m.length);
    var c := Words(m.x);
    assert buf == a + b + c + Words(m.y);
    assert buf[0..4] == a;
    assert buf[4..8] == b;
    assert buf[8..8 + |c|] == c;
  }

  /** Every encodable DATA message decodes back bit for bit. */
  lemma DataRoundTrip(m: DataMessage)
    requires EncodeData(m).Ok?
    ensures DecodeData(EncodeData(m).value) == Ok(m)
  {
    var buf := EncodeData(m).value;
    var n := |m.x|;
    DataBytesFields(m, buf);
    U32RoundTrip(buf, 0, m.seriesId);
    U32RoundTrip(buf, 4, m.length);
    WordsAtWords(buf, 8, m.x);
    WordsAtWords(buf, 8 + 8 * n, m.y);
  }

  /** A decoded DATA message that fits in a uint32-sized buffer encodes back
      to exactly the bytes it came from. */
  lemma DataDecodeEncode(buf: seq<byte>)
    requires |buf| < TWO_32 && DecodeData(buf).Ok?
    ensures EncodeData(DecodeData(buf).value) == Ok(buf)
  {
    DecodedEncodes(buf);
    DecodedBytes(buf);
  }

  /** A decoded message passes every check of the encoder. */
  lemma DecodedEncodes(buf: seq<byte>)
    requires |buf| < TWO_32 && DecodeData(buf).Ok?
    ensures EncodeData(DecodeData(buf).value) == Ok(DataBytes(DecodeData(buf).value))
  {
    var l := DecodeData(buf).value.length;
    assert ToU32(l) == l && ToU32(8 + 16 * l) == 8 + 16 * l;
  }

  /** The fields of a decoded message lay out the bytes they came from. */
  lemma DecodedBytes(buf: seq<byte>)
    requires DecodeData(buf).Ok?
    ensures DataBytes(DecodeData(buf).value) == buf
  {
    var m := DecodeData(buf).value;
    var l: nat := m.length;
    var mid: nat := 8 + 8 * l;
    assert |buf| == mid + 8 * l;
    assert m.seriesId == U32At(buf, 0) && m.length == U32At(buf, 4);
    assert m.x == WordsAt(buf, 8, l) && m.y == WordsAt(buf, mid, l);
    U32Encodes(buf, 0);
    U32Encodes(buf, 4);
    WordsOfWordsAt(buf, 8, l);
    WordsOfWordsAt(buf, mid, l);
    assert buf[mid..mid + 8 * l] == buf[mid..];
    SplitFour(buf, 4, 8, mid);
  }

  /** A sequence is the concatenation of its pieces between three cut points. */
  lemma SplitFour(buf: seq<byte>, i: nat, j: nat, k: nat)
    requires i <= j <= k <= |buf|
    ensures buf == buf[..i] + buf[i..j] + buf[j..k] + buf[k..]
  {
  }

  /** Where nothing wraps, the code as written and the corrected decoder
      agree; the only other difference on buffers below 4 GiB is the wrapped
      size check, which the corrected decoder reports as a size mismatch. */
  lemma DecodeDataAgrees(buf: seq<byte>)
    requires |buf| < TWO_32
    ensures DecodeDataAsWritten(buf).Ok? ==> DecodeDataAsWritten(buf) == DecodeData(buf)
    ensures DecodeDataAsWritten(buf) == DecodeData(buf) ||
            (DecodeDataAsWritten(buf) == Err(IndexOutOfRange) && DecodeData(buf) == Err(SizeMismatch))
  {
  }

  /** An 8-byte DATA payload whose Length field is 2^28 passes the wrapped
      size check and then reads past the end of the buffer. */
  lemma DecodeDataWrapCounterexample()
    ensures DecodeDataAsWritten([0, 0, 0, 0, 0, 0, 0, 0x10]) == Err(IndexOutOfRange)
    ensures DecodeData([0, 0, 0, 0, 0, 0, 0, 0x10]) == Err(SizeMismatch)
  {
    var buf: seq<byte> := [0, 0, 0, 0, 0, 0, 0, 0x10];
    assert buf[4..8] == [0, 0, 0, 0x10];
    assert U32At(buf, 4) == 0x1000_0000;
  }

  /** binary.LittleEndian.PutUintN(buf[off:off+|bs|], v) with bs the encoding of v. */
  method PutLittleEndian(buf: array<byte>, off: nat, bs: seq<byte>)
    requires off + |bs| <= buf.Length
    modifies buf
    ensures buf[..] == old(buf[..off]) + bs + old(buf[off + |bs|..])
  {
    forall k | 0 <= k < |bs| {
      buf[off + k] := bs[k];
    }
    assert buf[..] == old(buf[..off]) + bs + old(buf[off + |bs|..]);
  }

  /** EncodeDataMessage: check the arrays, allocate 8 + Length*16 bytes
      (uint32), then write SeriesID, Length, the X words and the Y words at a
      running offset. A write past the end is the slice panic. */
  method EncodeDataMessage(m: DataMessage) returns (r: Result<seq<byte>>)
    ensures r == EncodeData(m)
  {
    if |m.x| != |m.y| {
      return Err(ArrayLengthMismatch);
    }
    if ToU32(|m.x|) != m.length {
      return Err(LengthFieldMismatch);
    }
    var payloadSize := ToU32(8 + 16 * m.length);
    var buf := new byte[payloadSize];
    if payloadSize < 8 {
      return Err(IndexOutOfRange);
    }
    PutLittleEndian(buf, 0, Le32(m.seriesId));
    PutLittleEndian(buf, 4, Le32(m.length));
    var header := Le32(m.seriesId) + Le32(m.length);
    assert buf[..8] == header;
    var fits := PutWords(buf, 8, m.x);
    if !fits {
      return Err(IndexOutOfRange);
    }
    fits := PutWords(buf, 8 + 8 * |m.x|, m.y);
    if !fits {
      return Err(IndexOutOfRange);
    }
    assert buf[..] == buf[..8 + 8 * |m.x| + 8 * |m.y|];
    return Ok(buf[..]);
  }

  /** The range loop writing each word of xs from offset on, 8 bytes apart.
      It reports whether every write was in range; a failed one is the panic. */
  method PutWords(buf: array<byte>, offset: nat, xs: seq<u64>) returns (fits: bool)
    requires offset <= buf.Length
    modifies buf
    ensures fits <==> offset + 8 * |xs| <= buf.Length
    ensures fits ==> buf[..offset + 8 * |xs|] == old(buf[..offset]) + Words(xs)
    ensures fits ==> buf[offset + 8 * |xs|..] == old(buf[offset + 8 * |xs|..])
  {
    var at := offset;
    for i := 0 to |xs|
      invariant at == offset + 8 * i <= buf.Length
      invariant buf[..at] == old(buf[..offset]) + Words(xs[..i])
      invariant buf[at..] == old(buf[at..])
    {
      if at + 8 > buf.Length {
        return false;
      }
      ghost var before := buf[..at];
      PutLittleEndian(buf, at, Le64(xs[i]));
      assert buf[..at + 8] == before + Le64(xs[i]);
      AppendWord(xs, i);
      at := at + 8;
    }
    assert xs[..|xs|] == xs;
    return true;
  }

  lemma AppendWord(xs: seq<u64>, i: nat)
    requires i < |xs|
    ensures Words(xs[..i + 1]) == Words(xs[..i]) + Le64(xs[i])
  {
    assert xs[..i + 1] == xs[..i] + [xs[i]];
    WordsAppend(xs[..i], [xs[i]]);
  }

  /** DecodeDataMessage as written: read SeriesID and Length, check the
      uint32 size, then fill X and Y word by word at a running offset. A read
      past the end is the slice panic. */
  method DecodeDataMessage(buf: seq<byte>) returns (r: Result<DataMessage>)
    ensures r == DecodeDataAsWritten(buf)
  {
    if |buf| < 8 {
      return Err(BufferTooShort);
    }
    var seriesId := U32At(buf, 0);
    var length: nat := U32At(buf, 4);
    var expectedSize := ToU32(8 + 16 * length);
    if ToU32(|buf|) != expectedSize {
      return Err(SizeMismatch);
    }
    var xs := new Float[length];
    var ok := ReadWordsInto(buf, 8, xs);
    if !ok {
      return Err(IndexOutOfRange);
    }
    var ys := new Float[length];
    ok := ReadWordsInto(buf, 8 + 8 * length, ys);
    if !ok {
      return Err(IndexOutOfRange);
    }
    return Ok(DataMessage(seriesId, length, xs[..], ys[..]));
  }

  /** One decode loop of DecodeDataMessage: a.Length words read from off
      on, in order; false when a read would run past the end of buf, where
      the Go slice expression panics. */
  method ReadWordsInto(buf: seq<byte>, off: nat, a: array<Float>) returns (ok: bool)
    requires off <= |buf|
    modifies a
    ensures ok <==> off + 8 * a.Length <= |buf|
    ensures ok ==> a[..] == WordsAt(buf, off, a.Length)
  {
    var offset := off;
    for i := 0 to a.Length
      invariant offset == off + 8 * i <= |buf|
      invariant forall k :: 0 <= k < i ==> a[k] == U64At(buf, off + 8 * k)
    {
      if offset + 8 > |buf| {
        return false;
      }
      a[i] := U64At(buf, offset);
      offset := offset + 8;
    }
    assert a[..] == WordsAt(buf, off, a.Length);
    return true;
  }


  // ----------------------------------------- METADATA and STREAM_END payloads

  /** A JSON body behind its little-endian uint32 length. */
  function EncodeJsonFrame(json: seq<byte>): (r: seq<byte>)
    ensures |r| == 4 + |json| && r[4..] == json
  {
    Le32(ToU32(|json|)) + json
  }

  /** The body of a METADATA or STREAM_END payload. The size check compares
      uint32 values; `unmarshals` says whether encoding/json accepts a body. */
  function DecodeJsonFrame(buf: seq<byte>, unmarshals: seq<byte> -> bool): (r: Result<seq<byte>>)
    ensures |buf| < 4 ==> r == Err(BufferTooShort)
    ensures r.Ok? ==> |buf| >= 4 && r.value == buf[4..] && unmarshals(r.value)
  {
    if |buf| < 4 then Err(BufferTooShort)
    else if ToU32(|buf|) != ToU32(4 + U32At(buf, 0)) then Err(SizeMismatch)
    else if !unmarshals(buf[4..]) then Err(JsonUnmarshalFailed)
    else Ok(buf[4..])
  }

  /** Below 4 GiB, decoding fails with a size mismatch exactly when the buffer
      is not 4 + jsonLength bytes long. */
  lemma JsonFrameSize(buf: seq<byte>, unmarshals: seq<byte> -> bool)
    requires 4 <= |buf| < TWO_32
    ensures DecodeJsonFrame(buf, unmarshals) == Err(SizeMismatch) <==> |buf| != 4 + U32At(buf, 0)
  {
  }

  /** Every body the JSON library accepts survives framing and unframing. */
  lemma JsonFrameRoundTrip(json: seq<byte>, unmarshals: seq<byte> -> bool)
    requires unmarshals(json)
    ensures DecodeJsonFrame(EncodeJsonFrame(json), unmarshals) == Ok(json)
  {
    var buf := EncodeJsonFrame(json);
    assert buf[0..4] == Le32(ToU32(|json|));
    U32RoundTrip(buf, 0, ToU32(|json|));
  }

  // ---------------------------------------------------------- whole message

  /** The payload is of the kind the header's type announces. */
  predicate PayloadMatches(msgType: byte, p: Payload)
  {
    || (msgType == MESSAGE_TYPE_DATA && p.DataPayload?)
    || (msgType == MESSAGE_TYPE_METADATA && p.MetadataPayload?)
    || (msgType == MESSAGE_TYPE_STREAM_END && p.StreamEndPayload?)
  }

  predicate KnownType(msgType: byte)
  {
    msgType == MESSAGE_TYPE_DATA || msgType == MESSAGE_TYPE_METADATA || msgType == MESSAGE_TYPE_STREAM_END
  }

  /** The payload bytes for the header's type. */
  function EncodePayload(msg: WSMessage): (r: Result<seq<byte>>)
    ensures !KnownType(msg.header.msgType) ==> r == Err(UnknownMessageType)
    ensures KnownType(msg.header.msgType) && !PayloadMatches(msg.header.msgType, msg.payload) ==>
              r == Err(PayloadTypeMismatch)
    ensures r.Ok? ==> PayloadMatches(msg.header.msgType, msg.payload)
  {
    if msg.header.msgType == MESSAGE_TYPE_DATA then
      if msg.payload.DataPayload? then EncodeData(msg.payload.data) else Err(PayloadTypeMismatch)
    else if msg.header.msgType == MESSAGE_TYPE_METADATA then
      if msg.payload.MetadataPayload? then Ok(EncodeJsonFrame(msg.payload.metadataJson))
      else Err(PayloadTypeMismatch)
    else if msg.header.msgType == MESSAGE_TYPE_STREAM_END then
      if msg.payload.StreamEndPayload? then Ok(EncodeJsonFrame(msg.payload.streamEndJson))
      else Err(PayloadTypeMismatch)
    else Err(UnknownMessageType)
  }

  /** EncodeWSMessage: the header, with its Length replaced by the real
      payload size, followed by the payload. */
  function EncodeWSMessage(msg: WSMessage): (r: Result<seq<byte>>)
    ensures r.Ok? <==> EncodePayload(msg).Ok?
    ensures r.Err? ==> r.error == EncodePayload(msg).error
    ensures r.Ok? ==> |r.value| == ENVELOPE_HEADER_SIZE + |EncodePayload(msg).value|
    ensures r.Ok? ==> r.value[..ENVELOPE_HEADER_SIZE] ==
                      EncodeEnvelopeHeader(msg.header.(length := ToU32(|EncodePayload(msg).value|)))
    ensures r.Ok? ==> r.value[ENVELOPE_HEADER_SIZE..] == EncodePayload(msg).value
    ensures r.Ok? ==> r.value[4..8] == Le32(ToU32(|r.value| - ENVELOPE_HEADER_SIZE))
  {
    match EncodePayload(msg)
    case Err(e) => Err(e)
    case Ok(payload) =>
      Ok(EncodeEnvelopeHeader(msg.header.(length := ToU32(|payload|))) + payload)
  }

  /** Whatever Length the caller put in the header, the encoding is the same. */
  lemma EncodeIgnoresLength(msg: WSMessage, length: u32)
    ensures EncodeWSMessage(msg.(header := msg.header.(length := length))) == EncodeWSMessage(msg)
  {
  }

  /** The payload of a well-framed buffer, decoded for its type. */
  function DecodePayload(msgType: byte, payload: seq<byte>, unmarshals: seq<byte> -> bool,
                         decodeData: seq<byte> -> Result<DataMessage>): (r: Result<Payload>)
    ensures !KnownType(msgType) ==> r == Err(UnknownMessageType)
    ensures r.Ok? ==> PayloadMatches(msgType, r.value)
  {
    if msgType == MESSAGE_TYPE_DATA then
      match decodeData(payload)
      case Ok(m) => Ok(DataPayload(m))
      case Err(e) => Err(e)
    else if msgType == MESSAGE_TYPE_METADATA then
      match DecodeJsonFrame(payload, unmarshals)
      case Ok(j) => Ok(MetadataPayload(j))
      case Err(e) => Err(e)
    else if msgType == MESSAGE_TYPE_STREAM_END then
      match DecodeJsonFrame(payload, unmarshals)
      case Ok(j) => Ok(StreamEndPayload(j))
      case Err(e) => Err(e)
    else Err(UnknownMessageType)
  }

  /** DecodeWSMessage as written: 8 + Length is a uint32 sum, so a Length
      near 2^32 wraps it below 8, the size check passes and the slice
      buf[8:8+Length] panics. */
  function DecodeWSMessageAsWritten(buf: seq<byte>, unmarshals: seq<byte> -> bool): (r: Result<WSMessage>)
    ensures |buf| < ENVELOPE_HEADER_SIZE ==> r == Err(BufferTooShort)
    ensures r.Ok? ==> PayloadMatches(r.value.header.msgType, r.value.payload)
  {
    match DecodeEnvelopeHeader(buf)
    case Err(e) => Err(e)
    case Ok(env) =>
      var expectedSize := ToU32(ENVELOPE_HEADER_SIZE + env.length);
      if ToU32(|buf|) < expectedSize then Err(BufferTooShort)
      else if expectedSize < ENVELOPE_HEADER_SIZE || expectedSize > |buf| then Err(IndexOutOfRange)
      else
        match DecodePayload(env.msgType, buf[ENVELOPE_HEADER_SIZE..expectedSize], unmarshals, DecodeDataAsWritten)
        case Err(e) => Err(e)
        case Ok(p) => Ok(WSMessage(env, p))
  }

  /** DecodeWSMessage with the size check done without wrap-around, and the
      corrected DATA decoder. */
  function DecodeWSMessage(buf: seq<byte>, unmarshals: seq<byte> -> bool): (r: Result<WSMessage>)
    ensures |buf| < ENVELOPE_HEADER_SIZE ==> r == Err(BufferTooShort)
    ensures |buf| >= ENVELOPE_HEADER_SIZE && |buf| < ENVELOPE_HEADER_SIZE + U32At(buf, 4) ==>
              r == Err(BufferTooShort)
    ensures r.Ok? ==> PayloadMatches(r.value.header.msgType, r.value.payload)
    ensures r.Ok? ==> |buf| >= ENVELOPE_HEADER_SIZE + r.value.header.length
  {
    match DecodeEnvelopeHeader(buf)
    case Err(e) => Err(e)
    case Ok(env) =>
      if |buf| < ENVELOPE_HEADER_SIZE + env.length then Err(BufferTooShort)
      else
        match DecodePayload(env.msgType, buf[ENVELOPE_HEADER_SIZE..ENVELOPE_HEADER_SIZE + env.length],
                            unmarshals, DecodeData)
        case Err(e) => Err(e)
        case Ok(p) => Ok(WSMessage(env, p))
  }

  /** A JSON payload the round trip can carry: its frame length fits the
      header's uint32 Length and the JSON library accepts it. */
  predicate JsonCarried(p: Payload, unmarshals: seq<byte> -> bool)
  {
    && (p.MetadataPayload? ==> 4 + |p.metadataJson| < TWO_32 && unmarshals(p.metadataJson))
    && (p.StreamEndPayload? ==> 4 + |p.streamEndJson| < TWO_32 && unmarshals(p.streamEndJson))
  }

  /** Decoding an encoded message, followed by any bytes, gives back the
      message with its header Length set to the payload size. */
  lemma WSRoundTrip(msg: WSMessage, rest: seq<byte>, unmarshals: seq<byte> -> bool)
    requires EncodeWSMessage(msg).Ok? && JsonCarried(msg.payload, unmarshals)
    ensures var payload := EncodePayload(msg).value;
            DecodeWSMessage(EncodeWSMessage(msg).value + rest, unmarshals) ==
            Ok(WSMessage(msg.header.(length := |payload|), msg.payload))
  {
    var payload := EncodePayload(msg).value;
    var env := msg.header.(length := ToU32(|payload|));
    var buf := EncodeWSMessage(msg).value + rest;
    if msg.payload.DataPayload? {
      EncodeDataOutcome(msg.payload.data);
    }
    assert |payload| < TWO_32;
    assert buf == EncodeEnvelopeHeader(env) + (payload + rest);
    HeaderRoundTrip(env, payload + rest);
    assert buf[ENVELOPE_HEADER_SIZE..ENVELOPE_HEADER_SIZE + env.length] == payload;
    match msg.payload
    case DataPayload(m) => DataRoundTrip(m);
    case MetadataPayload(j) => JsonFrameRoundTrip(j, unmarshals);
    case StreamEndPayload(j) => JsonFrameRoundTrip(j, unmarshals);
  }

  /** Bytes after the announced payload are ignored. */
  lemma WSIgnoresTrailing(buf: seq<byte>, rest: seq<byte>, unmarshals: seq<byte> -> bool)
    requires DecodeWSMessage(buf, unmarshals).Ok?
    ensures DecodeWSMessage(buf + rest, unmarshals) == DecodeWSMessage(buf, unmarshals)
  {
    HeaderIgnoresTrailing(buf, rest);
    var l := U32At(buf, 4);
    assert (buf + rest)[ENVELOPE_HEADER_SIZE..ENVELOPE_HEADER_SIZE + l] ==
           buf[ENVELOPE_HEADER_SIZE..ENVELOPE_HEADER_SIZE + l];
  }

  /** A header announcing 0xFFFFFFF8 payload bytes on an 8-byte buffer: the
      wrapped sum 8 + Length is 0, the size check passes, and buf[8:0] is an
      out-of-range slice. */
  lemma DecodeWSWrapCounterexample(unmarshals: seq<byte> -> bool)
    ensures DecodeWSMessageAsWritten([1, 0, 0, 1, 0xF8, 0xFF, 0xFF, 0xFF], unmarshals) == Err(IndexOutOfRange)
    ensures DecodeWSMessage([1, 0, 0, 1, 0xF8, 0xFF, 0xFF, 0xFF], unmarshals) == Err(BufferTooShort)
  {
    var buf: seq<byte> := [1, 0, 0, 1, 0xF8, 0xFF, 0xFF, 0xFF];
    assert buf[4..8] == [0xF8, 0xFF, 0xFF, 0xFF];
    assert U32At(buf, 4) == 0xFFFF_FFF8;
  }

  /** Below 4 GiB and with a Length that does not wrap the sum, whatever the
      code as written accepts the corrected decoder accepts alike, and for
      every type but DATA the two give the same outcome. */
  lemma DecodeWSAgrees(buf: seq<byte>, unmarshals: seq<byte> -> bool)
    requires ENVELOPE_HEADER_SIZE <= |buf| < TWO_32
    requires ENVELOPE_HEADER_SIZE + U32At(buf, 4) < TWO_32
    ensures DecodeWSMessageAsWritten(buf, unmarshals).Ok? ==>
              DecodeWSMessageAsWritten(buf, unmarshals) == DecodeWSMessage(buf, unmarshals)
    ensures DecodeWSMessage(buf, unmarshals).Ok? ==>
              DecodeWSMessageAsWritten(buf, unmarshals) == DecodeWSMessage(buf, unmarshals)
    ensures buf[3] != MESSAGE_TYPE_DATA ==>
              DecodeWSMessageAsWritten(buf, unmarshals) == DecodeWSMessage(buf, unmarshals)
  {
    var l := U32At(buf, 4);
    if |buf| >= ENVELOPE_HEADER_SIZE + l {
      DecodeDataAgrees(buf[ENVELOPE_HEADER_SIZE..ENVELOPE_HEADER_SIZE + l]);
    }
  }

  /** The code as written also completes the round trip, as long as the
      encoding and the bytes after it stay under 4 GiB. */
  lemma WSRoundTripAsWritten(msg: WSMessage, rest: seq<byte>, unmarshals: seq<byte> -> bool)
    requires EncodeWSMessage(msg).Ok? && JsonCarried(msg.payload, unmarshals)
    requires |EncodeWSMessage(msg).value| + |rest| < TWO_32
    ensures var payload := EncodePayload(msg).value;
            DecodeWSMessageAsWritten(EncodeWSMessage(msg).value + rest, unmarshals) ==
            Ok(WSMessage(msg.header.(length := |payload|), msg.payload))
  {
    var buf := EncodeWSMessage(msg).value + rest;
    WSRoundTrip(msg, rest, unmarshals);
    assert DecodeWSMessage(buf, unmarshals).Ok?;
    assert |buf| >= ENVELOPE_HEADER_SIZE + U32At(buf, 4);
    DecodeWSAgrees(buf, unmarshals);
  }
}
