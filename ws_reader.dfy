/** The wesplot WS reader (cmd/wesplot-ws-reader/main.go): it turns the URL
    of a wesplot server into its WebSocket endpoint, then reads binary
    messages and writes every DATA pair as a CSV row "series_id,x,y" until
    the stream ends. The messages the connection delivers are a parameter,
    strconv.FormatFloat is the oracle `format`, and what the CSV writer has
    written is the field `rows`. */
module WsReader {
  import opened Encoding
  import opened Decimal
  import opened WsProtocol

  /** The parts of a parsed URL that Connect looks at or keeps. */
  datatype Url = Url(scheme: string, host: string, path: string, query: string)

  /** Connect's rewrite: http becomes ws, https becomes wss, any other scheme
      stays; the path is always /ws2. */
  function RewriteUrl(u: Url): (r: Url)
    ensures r.path == "/ws2" && r.host == u.host && r.query == u.query
    ensures u.scheme == "http" ==> r.scheme == "ws"
    ensures u.scheme == "https" ==> r.scheme == "wss"
    ensures u.scheme != "http" && u.scheme != "https" ==> r.scheme == u.scheme
  {
    var scheme := if u.scheme == "http" then "ws" else if u.scheme == "https" then "wss" else u.scheme;
    u.(scheme := scheme, path := "/ws2")
  }

  /** Rewriting a rewritten URL changes nothing, and the result never has a
      plain HTTP scheme. */
  lemma RewriteUrlIdempotent(u: Url)
    ensures RewriteUrl(RewriteUrl(u)) == RewriteUrl(u)
    ensures RewriteUrl(u).scheme != "http" && RewriteUrl(u).scheme != "https"
  {
  }

  /** The header row written before anything else. */
  const CsvHeader: seq<string> := ["series_id", "x", "y"]

  /** The rows of one DATA message: the pairs (x[i], y[i]) in index order,
      each behind the series id. */
  function DataRows(seriesId: string, xs: seq<Float>, ys: seq<Float>, format: Float -> string): (r: seq<seq<string>>)
    requires |xs| <= |ys|
    ensures |r| == |xs|
  {
    if xs == [] then []
    else [[seriesId, format(xs[0]), format(ys[0])]] + DataRows(seriesId, xs[1..], ys[1..], format)
  }

  /** A DATA message with n pairs gives exactly n rows, row i holding the
      series id, x[i] and y[i]. */
  lemma {:induction false} DataRowsAt(seriesId: string, xs: seq<Float>, ys: seq<Float>, format: Float -> string)
    requires |xs| <= |ys|
    ensures |DataRows(seriesId, xs, ys, format)| == |xs|
    ensures forall i :: 0 <= i < |xs| ==>
              DataRows(seriesId, xs, ys, format)[i] == [seriesId, format(xs[i]), format(ys[i])]
  {
    if xs != [] {
      DataRowsAt(seriesId, xs[1..], ys[1..], format);
      var rest := DataRows(seriesId, xs[1..], ys[1..], format);
      forall i | 0 < i < |xs|
        ensures DataRows(seriesId, xs, ys, format)[i] == [seriesId, format(xs[i]), format(ys[i])]
      {
        assert DataRows(seriesId, xs, ys, format)[i] == rest[i - 1];
      }
    }
  }

  /** Appending one more pair appends one more row. */
  lemma {:induction false} DataRowsSnoc(seriesId: string, xs: seq<Float>, ys: seq<Float>, format: Float -> string, i: nat)
    requires i < |xs| <= |ys|
    ensures DataRows(seriesId, xs[..i + 1], ys[..i + 1], format) ==
            DataRows(seriesId, xs[..i], ys[..i], format) + [[seriesId, format(xs[i]), format(ys[i])]]
  {
    var a, b := DataRows(seriesId, xs[..i + 1], ys[..i + 1], format),
                DataRows(seriesId, xs[..i], ys[..i], format) + [[seriesId, format(xs[i]), format(ys[i])]];
    DataRowsAt(seriesId, xs[..i + 1], ys[..i + 1], format);
    DataRowsAt(seriesId, xs[..i], ys[..i], format);
    assert |a| == |b|;
    forall k | 0 <= k < |a| ensures a[k] == b[k] {
    }
  }

  /** What processMessage returns: nil, io.EOF for a stream end, or the
      wrapped decoding error. */
  datatype Outcome = Handled | StreamEnded | Failed(error: ProtocolError)

  /** The outcome of one message. Every type DecodeWSMessage accepts carries
      the payload of its kind, so the payload type assertions never fail, and
      it rejects unknown types, so the default branch is never reached. */
  function MessageOutcome(bytes: seq<byte>, unmarshals: seq<byte> -> bool): (r: Outcome)
    ensures r.Failed? <==> DecodeWSMessage(bytes, unmarshals).Err?
    ensures r.Failed? ==> r.error == DecodeWSMessage(bytes, unmarshals).error
    ensures r == StreamEnded <==>
              DecodeWSMessage(bytes, unmarshals).Ok? &&
              DecodeWSMessage(bytes, unmarshals).value.header.msgType == MESSAGE_TYPE_STREAM_END
  {
    match DecodeWSMessage(bytes, unmarshals)
    case Err(e) => Failed(e)
    case Ok(msg) =>
      if msg.header.msgType == MESSAGE_TYPE_STREAM_END then StreamEnded else Handled
  }

  /** The rows one message writes: those of a DATA message, none otherwise. */
  function MessageRows(bytes: seq<byte>, unmarshals: seq<byte> -> bool, format: Float -> string): (r: seq<seq<string>>)
    ensures r != [] ==> IsData(bytes, unmarshals)
  {
    match DecodeWSMessage(bytes, unmarshals)
    case Err(_) => []
    case Ok(msg) =>
      if msg.payload.DataPayload? then
        DataRows(NatToString(msg.payload.data.seriesId), msg.payload.data.x, msg.payload.data.y, format)
      else []
  }

  /** The rows the read loop writes after the header: message by message,
      up to and including the first stream end. */
  function SessionRows(messages: seq<seq<byte>>, unmarshals: seq<byte> -> bool, format: Float -> string): (r: seq<seq<string>>)
    ensures r != [] ==> exists i :: 0 <= i < |messages| && IsData(messages[i], unmarshals)
  {
    if messages == [] then []
    else MessageRows(messages[0], unmarshals, format) +
         if MessageOutcome(messages[0], unmarshals) == StreamEnded then []
         else SessionRows(messages[1..], unmarshals, format)
  }

  /** How many messages the read loop takes before it stops. */
  function MessagesRead(messages: seq<seq<byte>>, unmarshals: seq<byte> -> bool): (n: nat)
    ensures n <= |messages|
  {
    if messages == [] then 0
    else if MessageOutcome(messages[0], unmarshals) == StreamEnded then 1
    else 1 + MessagesRead(messages[1..], unmarshals)
  }

  /** One turn of the read loop: the message at i writes its rows, and
      unless it ends the stream the loop goes on with the next one. */
  lemma SessionStep(messages: seq<seq<byte>>, i: nat, unmarshals: seq<byte> -> bool, format: Float -> string)
    requires i < |messages|
    ensures SessionRows(messages[i..], unmarshals, format) ==
            MessageRows(messages[i], unmarshals, format) +
            if MessageOutcome(messages[i], unmarshals) == StreamEnded then []
            else SessionRows(messages[i + 1..], unmarshals, format)
    ensures MessagesRead(messages[i..], unmarshals) ==
            if MessageOutcome(messages[i], unmarshals) == StreamEnded then 1
            else 1 + MessagesRead(messages[i + 1..], unmarshals)
  {
    var remaining := messages[i..];
    assert remaining[0] == messages[i] && remaining[1..] == messages[i + 1..];
  }

  /** Nothing after a stream end is read or written. */
  lemma {:induction false} SessionStopsAtStreamEnd(prefix: seq<seq<byte>>, end: seq<byte>, rest: seq<seq<byte>>,
                                                   unmarshals: seq<byte> -> bool, format: Float -> string)
    requires MessageOutcome(end, unmarshals) == StreamEnded
    ensures SessionRows(prefix + [end] + rest, unmarshals, format) == SessionRows(prefix + [end], unmarshals, format)
    ensures MessagesRead(prefix + [end] + rest, unmarshals) == MessagesRead(prefix + [end], unmarshals)
  {
    if prefix == [] {
      assert (prefix + [end] + rest)[0] == end && (prefix + [end])[0] == end;
    } else {
      var all, upTo := prefix + [end] + rest, prefix + [end];
      assert all[0] == upTo[0] == prefix[0];
      assert all[1..] == prefix[1..] + [end] + rest && upTo[1..] == prefix[1..] + [end];
      SessionStopsAtStreamEnd(prefix[1..], end, rest, unmarshals, format);
    }
  }

  /** Whether a message decodes to DATA. */
  predicate IsData(bytes: seq<byte>, unmarshals: seq<byte> -> bool)
  {
    DecodeWSMessage(bytes, unmarshals).Ok? && DecodeWSMessage(bytes, unmarshals).value.payload.DataPayload?
  }

  /** Without any DATA message the header is the whole output. */
  lemma {:induction false} NoDataNoRows(messages: seq<seq<byte>>, unmarshals: seq<byte> -> bool, format: Float -> string)
    requires forall i :: 0 <= i < |messages| ==> !IsData(messages[i], unmarshals)
    ensures SessionRows(messages, unmarshals, format) == []
  {
    if messages != [] {
      assert !IsData(messages[0], unmarshals);
      NoDataNoRows(messages[1..], unmarshals, format);
    }
  }

  /** An encoded DATA message, whatever follows it in the frame, is handled
      and writes one row per pair. */
  lemma EncodedDataRows(h: EnvelopeHeader, m: DataMessage, rest: seq<byte>,
                        unmarshals: seq<byte> -> bool, format: Float -> string)
    requires h.msgType == MESSAGE_TYPE_DATA
    requires EncodeWSMessage(WSMessage(h, DataPayload(m))).Ok?
    ensures var bytes := EncodeWSMessage(WSMessage(h, DataPayload(m))).value + rest;
            MessageOutcome(bytes, unmarshals) == Handled &&
            MessageRows(bytes, unmarshals, format) == DataRows(NatToString(m.seriesId), m.x, m.y, format)
  {
    WSRoundTrip(WSMessage(h, DataPayload(m)), rest, unmarshals);
  }

  /** An encoded STREAM_END message ends the stream and writes nothing. */
  lemma EncodedStreamEnd(h: EnvelopeHeader, json: seq<byte>, rest: seq<byte>,
                         unmarshals: seq<byte> -> bool, format: Float -> string)
    requires h.msgType == MESSAGE_TYPE_STREAM_END && unmarshals(json) && 4 + |json| < TWO_32
    ensures var bytes := EncodeWSMessage(WSMessage(h, StreamEndPayload(json))).value + rest;
            MessageOutcome(bytes, unmarshals) == StreamEnded && MessageRows(bytes, unmarshals, format) == []
  {
    WSRoundTrip(WSMessage(h, StreamEndPayload(json)), rest, unmarshals);
  }

  /** Writing part of what was left to write leaves the rest. */
  lemma AppendStep(before: seq<seq<string>>, written: seq<seq<string>>, after: seq<seq<string>>, rest: seq<seq<string>>)
    requires after == before + written
    ensures after + rest == before + (written + rest)
  {
  }

  /** WSReader with its CSV writer: the rows written so far. */
  class WSReader {
    var rows: seq<seq<string>>

    constructor ()
      ensures rows == []
    {
      rows := [];
    }

    /** processDataMessage: write one row per index of X. Y is indexed at the
        same positions, so it must be at least as long (the Go code panics
        otherwise). */
    method ProcessDataMessage(m: DataMessage, format: Float -> string)
      requires |m.x| <= |m.y|
      modifies this`rows
      ensures rows == old(rows) + DataRows(NatToString(m.seriesId), m.x, m.y, format)
    {
      var seriesId := NatToString(m.seriesId);
      for i := 0 to |m.x|
        invariant rows == old(rows) + DataRows(seriesId, m.x[..i], m.y[..i], format)
      {
        DataRowsSnoc(seriesId, m.x, m.y, format, i);
        rows := rows + [[seriesId, format(m.x[i]), format(m.y[i])]];
      }
      assert m.x[..|m.x|] == m.x;
      DataRowsAt(seriesId, m.x, m.y, format);
      DataRowsAt(seriesId, m.x, m.y[..|m.x|], format);
      assert DataRows(seriesId, m.x, m.y[..|m.x|], format) == DataRows(seriesId, m.x, m.y, format);
    }

    /** processMessage: decode, then dispatch on the message type. */
    method ProcessMessage(bytes: seq<byte>, unmarshals: seq<byte> -> bool, format: Float -> string)
      returns (outcome: Outcome)
      modifies this`rows
      ensures outcome == MessageOutcome(bytes, unmarshals)
      ensures rows == old(rows) + MessageRows(bytes, unmarshals, format)
    {
      var decoded := DecodeWSMessage(bytes, unmarshals);
      if decoded.Err? {
        return Failed(decoded.error);
      }
      var msg := decoded.value;
      if msg.header.msgType == MESSAGE_TYPE_DATA {
        ProcessDataMessage(msg.payload.data, format);
        return Handled;
      } else if msg.header.msgType == MESSAGE_TYPE_METADATA {
        return Handled;
      } else if msg.header.msgType == MESSAGE_TYPE_STREAM_END {
        return StreamEnded;
      }
      return Handled;
    }

    /** Connect after the dial: write the header, then process messages
        until one ends the stream or the connection has no more; a message
        that fails to decode is logged and the loop goes on. */
    method Connect(messages: seq<seq<byte>>, unmarshals: seq<byte> -> bool, format: Float -> string)
      returns (read: nat)
      modifies this`rows
      ensures rows == old(rows) + [CsvHeader] + SessionRows(messages, unmarshals, format)
      ensures read == MessagesRead(messages, unmarshals)
    {
      rows := rows + [CsvHeader];
      read := 0;
      while read < |messages|
        invariant read <= |messages|
        invariant rows + SessionRows(messages[read..], unmarshals, format) ==
                  old(rows) + [CsvHeader] + SessionRows(messages, unmarshals, format)
        invariant read + MessagesRead(messages[read..], unmarshals) == MessagesRead(messages, unmarshals)
      {
        SessionStep(messages, read, unmarshals, format);
        ghost var before := rows;
        var outcome := ProcessMessage(messages[read], unmarshals, format);
        AppendStep(before, MessageRows(messages[read], unmarshals, format), rows,
                   if outcome == StreamEnded then [] else SessionRows(messages[read + 1..], unmarshals, format));
        read := read + 1;
        if outcome == StreamEnded {
          return;
        }
      }
    }
  }
}
