# wesplot core in Dafny

wesplot turns text lines read from standard input into rows of floating-point
values. It caches the most recent rows and streams them to browser tabs over
a WebSocket. This project models the parts of the Go code that make those
decisions, and proves what they guarantee:

- **Binary WebSocket protocol** (`WsProtocol`, with little-endian helpers in
  `Encoding`).
  - An 8-byte envelope header: version, two reserved bytes, type, and a
    little-endian `uint32` payload length.
  - DATA payloads: series id, length, then the X words and the Y words.
  - METADATA and STREAM_END payloads: a length-prefixed JSON body.
  - Floats are kept as their 64-bit patterns (`Float = u64`), because the code
    only ever moves `Float64bits` values.
  - Every `uint32` sum the code computes is written out with explicit
    wrap-around (`ToU32`). That is how the two findings below appear.
- **Generic helpers** (`Utils`):
  - `Min` and `Filter`;
  - the fixed-capacity ring that caches the latest rows. It is a class over an
    array of slots with a cursor; `ReadAllOrdered` is proved to return the
    last `min(n, capacity)` pushes, oldest first.
- **Text to rows** (`DataReader`, with `ReadErrors`; `DataSource` for the
  older CSV data source).
  - The relaxed splitter (runs of spaces/tabs, or one comma; empty fields
    dropped).
  - The CSV and line readers, which classify errors and count lines.
  - The row builder: the X column, the Ys, the exact-column-count check, and
    the X generator.
  - The older `CsvDataSource`: the timestamp column and the operator pipeline.
- **Broadcaster** (`DataBroadcaster`).
  - The ring cache, the list of live channels and what every channel has been
    sent, with each locked method taken as one atomic step.
  - The invariant `Valid` states "no gap, no duplicate": every live channel has
    been sent what it had before registering, then exactly the cached rows from
    some point on, in order.
- **CLI option normalisation** (`CliOptions`): column-name synthesis,
  rejection of an inverted y range, and resolution of `--xindex`/`--tindex`.
- **WS reader** (`WsReader`).
  - The URL rewrite.
  - The dispatch on message type.
  - The flattening of DATA messages into CSV rows.
  - The read loop's termination rule.

The oracles below are parameters of the model:

- `parse: string -> Option<Float>`: `strconv.ParseFloat` after `TrimSpace`.
- `format: Float -> string`: `strconv.FormatFloat`.
- `now: Float`: the clock reading.
- `unmarshals: seq<byte> -> bool`: whether `encoding/json` accepts a body.
- `atLeast`: Go's float `>=`.

A reader whose next results come from a library (`encoding/csv`, `bufio.Scanner`,
the broadcaster's `DataRowReader`, the WebSocket connection) is given as the
sequence of results it will deliver. A Go panic on an out-of-range slice is
the error value `IndexOutOfRange`.

Where the code and its documentation disagree, the model follows the code:

- `DeregisterChannel` is documented to panic on a channel that is not
  registered, but it leaves the list unchanged.
- The WS reader's `default:` branch for unknown message types cannot be
  reached: `DecodeWSMessage` already rejects unknown types, so such a message
  ends up as a wrapped decode error (`Failed(UnknownMessageType)`), not a
  silent nil.

## Model

| member | source | states |
|---|---|---|
| Encoding.FromToLittleEndian | ws_protocol.go:53-79 | reading back an n-byte little-endian encoding gives the value, for every value below 256^n |
| Encoding.ToFromLittleEndian | ws_protocol.go:65-79 | every byte string is the little-endian encoding of the number read from it |
| Encoding.WordsAtWords | ws_protocol.go:135-147 | reading n words back from where n words were written gives exactly those words |
| Encoding.WordsOfWordsAt | ws_protocol.go:99-110 | the bytes the words were read from are exactly their encoding |
| Encoding.LittleEndian | ws_protocol.go:59 | the `binary.LittleEndian.PutUint32`/`PutUint64` encoding: the n bytes of the value, least significant first, always n long |
| Encoding.FromLittleEndian | ws_protocol.go:73 | the `binary.LittleEndian.Uint32`/`Uint64` decoding: the number whose n bytes these are, least significant first, below 256^n |
| WsProtocol.EncodeEnvelopeHeader | ws_protocol.go:53-61 | always 8 bytes: version at 0, reserved bytes at 1-2, type at 3, Length little-endian at 4-7 |
| WsProtocol.DecodeEnvelopeHeader | ws_protocol.go:65-79 | fails, with "too short", exactly when the buffer has fewer than 8 bytes |
| WsProtocol.HeaderRoundTrip | ws_protocol.go:53-79 | decoding an encoded header followed by any bytes gives back the header, reserved bytes included |
| WsProtocol.HeaderDecodeEncode | ws_protocol.go:53-79 | encoding a decoded header gives back the first 8 bytes of the buffer |
| WsProtocol.HeaderIgnoresTrailing | ws_protocol.go:65-79 | bytes past the eighth do not change the decoded header |
| WsProtocol.EncodeDataOutcome | ws_protocol.go:83-113 | encoding succeeds exactly when \|X\| = \|Y\| = Length and the uint32 size does not wrap; its output is then 8 + 16·Length bytes; the array-length and Length-field errors are reported |
| WsProtocol.DataBytesFields | ws_protocol.go:91-110 | the layout is SeriesID, Length, all X words, then all Y words |
| WsProtocol.EncodeData | ws_protocol.go:83-113 | succeeds only for equal-length X and Y whose count is the Length field and whose 8 + 16·Length size fits in a uint32, and then gives the DATA layout of the message |
| WsProtocol.EncodeDataMessage | ws_protocol.go:83-113 | the buffer-filling code, with its running offset, computes exactly the encoding, and panics where the wrapped size is too small |
| WsProtocol.PutWords | ws_protocol.go:99-110 | one word loop writes each word's encoding at the running offset and reports whether they all fit; the bytes before the offset and after the last word are unchanged |
| WsProtocol.DecodeDataAsWritten | ws_protocol.go:116-150 | as written: buffers under 8 bytes are too short; every decoded message has \|X\| = \|Y\| = Length |
| WsProtocol.DecodeDataMessage | ws_protocol.go:116-150 | the size check and the two word-reading loops compute exactly the as-written decoding |
| WsProtocol.ReadWordsInto | ws_protocol.go:134-148 | one decode loop fills the array with the words at the offset, in order, or reports the read that would run past the buffer |
| WsProtocol.DecodeData | ws_protocol.go:116-150 | corrected: under 8 bytes is too short; otherwise it succeeds exactly when the buffer is 8 + 16·Length bytes, and then \|X\| = \|Y\| = Length |
| WsProtocol.DataRoundTrip | ws_protocol.go:83-150 | decoding the encoding of any encodable DATA message gives it back bit for bit, NaN and ±0 included |
| WsProtocol.DataDecodeEncode | ws_protocol.go:83-150 | encoding a decoded buffer below 4 GiB gives back exactly that buffer |
| WsProtocol.DecodedEncodes | ws_protocol.go:83-110 | a decoded message below 4 GiB passes every check of the encoder |
| WsProtocol.DecodedBytes | ws_protocol.go:116-150 | the fields of a decoded message, laid out as the encoder writes them, are exactly the decoded bytes |
| WsProtocol.DecodeDataAgrees | ws_protocol.go:126-130 | below 4 GiB the as-written and corrected decoders agree, except where the wrapped size check passes and the reads overrun |
| WsProtocol.DecodeDataWrapCounterexample | ws_protocol.go:126-130 | an 8-byte payload with Length 2^28 passes the wrapped check and then reads out of range |
| WsProtocol.EncodeJsonFrame | ws_protocol.go:154-168 | a METADATA/STREAM_END payload is 4 + \|json\| bytes with the body after the length |
| WsProtocol.DecodeJsonFrame | ws_protocol.go:171-190 | under 4 bytes is too short; a success returns the body after the length, and the JSON library accepts it |
| WsProtocol.JsonFrameSize | ws_protocol.go:210-229 | below 4 GiB, decoding reports a size mismatch exactly when the buffer is not 4 + jsonLength bytes |
| WsProtocol.JsonFrameRoundTrip | ws_protocol.go:154-229 | every body the JSON library accepts survives framing and unframing |
| WsProtocol.EncodePayload | ws_protocol.go:233-282 | an unknown type and a payload of the wrong kind are rejected; a success carries the payload of the header's kind |
| WsProtocol.EncodeWSMessage | ws_protocol.go:233-282 | the output is the 8-byte encoding of the caller's header with Length replaced by the real payload size, followed by the payload |
| WsProtocol.EncodeIgnoresLength | ws_protocol.go:233-282 | whatever Length the caller supplies, the encoding is the same |
| WsProtocol.DecodePayload | ws_protocol.go:300-329 | unknown types are rejected, and a decoded payload is of the kind its type announces |
| WsProtocol.DecodeWSMessageAsWritten | ws_protocol.go:286-329 | as written: under 8 bytes is too short; a decoded payload is of the header's kind |
| WsProtocol.DecodeWSMessage | ws_protocol.go:286-329 | corrected: too short when under 8 + Length bytes; a success has the payload kind of its type |
| WsProtocol.WSRoundTrip | ws_protocol.go:233-329 | decoding an encoded message followed by any bytes gives back the message with Length set to the payload size |
| WsProtocol.WSIgnoresTrailing | ws_protocol.go:293-298 | bytes past 8 + Length do not change a successful decoding |
| WsProtocol.DecodeWSAgrees | ws_protocol.go:286-329 | where 8 + Length does not wrap, the as-written decoder succeeds exactly when the corrected one does and with the same message, and for non-DATA types the two agree outright |
| WsProtocol.WSRoundTripAsWritten | ws_protocol.go:233-329 | the decoder as written also gives back every encodable message, followed by any bytes, as long as the whole buffer is under 4 GiB |
| WsProtocol.DecodeWSWrapCounterexample | ws_protocol.go:293-298 | a Length of 0xFFFFFFF8 on an 8-byte buffer wraps 8 + Length to 0, passes the check and slices out of range |
| Utils.MinBy | utils.go:23-29 | for any type with a `>`: b when a > b, and a otherwise, ties and incomparable pairs included |
| Utils.MinByIncomparable | utils.go:23-29 | when neither argument is greater, the first one is returned, so Min(NaN, 1.0) is NaN and Min(1.0, NaN) is 1.0 |
| Utils.Min | utils.go:23-29 | on integers the result is at most both arguments and is one of them; a tie gives a |
| Utils.FilteredAppend | utils.go:13-21 | filtering keeps order across concatenation |
| Utils.FilteredCounts | utils.go:13-21 | each element is kept exactly as often as it occurs, if it satisfies the predicate, and never otherwise |
| Utils.FilteredMembers | utils.go:13-21 | an element is in the result exactly when it is in the input and satisfies the predicate |
| Utils.FilteredAll | utils.go:13-21 | when every element satisfies the predicate, filtering returns the input unchanged |
| Utils.Filter | utils.go:13-21 | the append loop computes exactly the order-preserving filter, empty when nothing matches |
| Utils.LastNBounds | utils.go:82-103 | the window holds min(n, capacity) elements, never more than capacity, and none on a fresh ring |
| Utils.LastNOfOne | utils.go:77-80 | with capacity 1, each push replaces the previous value |
| Utils.LastNPush | utils.go:77-80 | a push drops the oldest element of a full window and adds the new value as the newest |
| Utils.Ring.constructor | utils.go:70-75 | a new ring of capacity ≥ 1 is empty and valid |
| Utils.Ring.Push | utils.go:77-80 | advancing the cursor and overwriting that slot keeps the slots equal to the latest pushes |
| Utils.Ring.ReadAllOrdered | utils.go:82-103 | the backward then forward walk returns the last min(n, capacity) pushes, oldest first |
| Utils.Ring.Earliest | utils.go:85-89 | the backward walk stops at the oldest written slot |
| Utils.Ring.ReadStep | utils.go:91-94 | each forward step appends the next value of the window |
| Utils.Ring.ReadLast | utils.go:96-102 | the cursor slot holds the newest value, or nothing on an empty ring |
| ReadErrors.ClassifyCsv | data_reader.go:63-90 | io.EOF and only io.EOF gives EOF; a CSV parse error becomes errIgnoreThisRow; other errors pass unchanged; a record passes as is |
| Decimal.NatToString | cmd/wesplot-ws-reader/main.go:138 | models the base-10 formatting used at this line (and by `%d` in cmd/main.go:56): a non-empty string of decimal digits without a leading zero |
| Decimal.DecimalRoundTrip | cmd/wesplot-ws-reader/main.go:138 | models the base-10 formatting used at this line: the digits read back give the number |
| Decimal.NatToStringInjective | cmd/main.go:55-56 | models the base-10 formatting used by `%d` at these lines: different numbers have different decimal strings |
| DataReader.RelaxedFieldsClean | data_reader.go:111-131 | every relaxed field is non-empty and has no space, tab or comma |
| DataReader.SplitFrom | data_reader.go:111 | the `[ \t]+\|,` split: a comma or a run of spaces and tabs separates pieces; there is always at least one piece |
| DataReader.RelaxedFields | data_reader.go:127-129 | the split pieces with the empty ones filtered out, so every field is non-empty |
| DataReader.RelaxedFieldsCover | data_reader.go:111-131 | the fields concatenated are exactly the line with its separators removed, in order |
| DataReader.RelaxedFieldsJoin | data_reader.go:111-131 | clean fields joined by a single comma, space or tab split back into the same fields |
| DataReader.CsvStringReader.Read | data_reader.go:63-90 | returns the classified outcome; EOF does not count a line, every other outcome counts one |
| DataReader.ScanResult | data_reader.go:113-132 | EOF once the scanner has no more lines; a line becomes clean non-empty fields |
| DataReader.RelaxedStringReader.Read | data_reader.go:113-132 | the scan step returns the scanner's error, or the filtered split of the line, and consumes one line |
| DataReader.RowFromLine | data_reader.go:174-205 | a row exists exactly when every field parses and, with the exact count expected, the Ys match the columns; otherwise errIgnoreThisRow |
| DataReader.RowYs | data_reader.go:176-189 | the Ys are every field but the XIndex one, in order: one fewer than the fields when XIndex is an index, all of them otherwise |
| DataReader.RowX | data_reader.go:183-203 | X is the XIndex field; it stays 0 when XIndex is past the end; it comes from the generator, or the clock by default, when XIndex < 0 |
| DataReader.WithoutStep | data_reader.go:176-188 | one more field appends it to the Ys unless it is the X field |
| DataReader.ParseStep | data_reader.go:176-188 | one more parsed field keeps the Ys and X in step with the loop |
| DataReader.TextToDataRowReader.RowFor | data_reader.go:163-167 | an input error, EOF and errIgnoreThisRow included, is returned unchanged |
| DataReader.TextToDataRowReader.ConvertLine | data_reader.go:174-205 | the field loop, the column-count check and the choice of X compute exactly RowFromLine of the line |
| DataReader.TextToDataRowReader.Read | data_reader.go:163-167 | Read returns the input's error unchanged, or the row of the next input line, and the input reader has consumed exactly one outcome or scan and counted its line as that reader's own Read does |
| DataSource.PipelineAppend | data_source.go:105-116 | operators apply in order, each to the previous row; the first error stops the pipeline |
| DataSource.ApplyPipeline | data_source.go:105-116 | the operators apply in order; an error result is an error that one of the operators returned |
| DataSource.Interpret | data_source.go:123-144 | a row exists exactly when every non-timestamp field parses; the timestamp is the clock's when the column is negative and stays 0 otherwise; it has one value per other field |
| DataSource.TimestampColumnIgnored | data_source.go:126-133 | the timestamp column is never parsed: changing it changes nothing |
| DataSource.CsvDataSource.ReadOutcome | data_source.go:68-117 | EOF passes through; a parse error is ignored; other errors pass unchanged; with a fixed column count a mismatched row is ignored |
| DataSource.CsvDataSource.InterpretRawData | data_source.go:123-144 | the append loop computes exactly Interpret |
| DataSource.CsvDataSource.RunPipeline | data_source.go:105-116 | the operator loop computes exactly the pipeline |
| DataSource.CsvDataSource.Read | data_source.go:68-117 | one CSV record consumed, and the outcome is ReadOutcome of it |
| DataBroadcaster.BroadcastOne | data_broadcaster.go:232-234 | with distinct channels, a listed channel receives the row exactly once and any other channel nothing |
| DataBroadcaster.BroadcastEach | data_broadcaster.go:232-234 | the same for every channel at once |
| DataBroadcaster.Broadcast | data_broadcaster.go:231-235 | the send loop: the row appended to the deliveries of each listed channel in turn; what it promises is stated by BroadcastOne and BroadcastEach |
| DataBroadcaster.SentThenBroadcast | data_broadcaster.go:58-80 | live channels that were sent some rows and then one broadcast row have been sent those rows followed by the row |
| DataBroadcaster.FilteredNoDuplicates | data_broadcaster.go:165-167 | filtering a list of distinct channels leaves it distinct |
| DataBroadcaster.EndMarker | data_broadcaster.go:77-80 | the end marker is flagged as the stream end, carries the run's error and has no Ys |
| DataBroadcaster.RunError | data_broadcaster.go:174-197 | run never returns io.EOF or errIgnoreThisRow as its error |
| DataBroadcaster.ReadStep | data_broadcaster.go:174-197 | one read either stops the run, with nothing more accepted and run's result decided, or is consumed with its row, if any, accepted first |
| DataBroadcaster.Accepted | data_broadcaster.go:174-211 | the rows run caches: the values read before the first stopping read, ignored rows skipped; what it promises is stated by ReadStep and RunStopsAt |
| DataBroadcaster.RunStopsAt | data_broadcaster.go:174-214 | reading rows and ignored rows up to a stop broadcasts exactly the prefix's rows in order, returns nil for EOF and the error otherwise, and reads nothing past the stop |
| DataBroadcaster.SyncedBroadcast | data_broadcaster.go:216-236 | caching a row and sending it to every live channel keeps every live channel gap-free and duplicate-free |
| DataBroadcaster.SyncedRegister | data_broadcaster.go:99-147 | a channel replayed the cache and then made live is in step from the oldest cached row |
| DataBroadcaster.SyncedFilter | data_broadcaster.go:158-172 | dropping channels leaves the others in step |
| DataBroadcaster.SyncedExtend | data_broadcaster.go:174-236 | between two in-step states over the same live channels, every live channel has been sent exactly the rows cached in between, in order |
| DataBroadcaster.LateSubscriberReceives | data_broadcaster.go:99-147 | a channel that registered with an empty history when the stream so far was cached has been sent the last capacity rows of it, then every row cached since |
| DataBroadcaster.DataBroadcaster.constructor | data_broadcaster.go:44-56 | a new broadcaster has no channels, an empty cache and nothing sent |
| DataBroadcaster.DataBroadcaster.PushBufferedDataToChannel | data_broadcaster.go:238-244 | the channel is sent the cached rows, oldest first, and no other channel anything |
| DataBroadcaster.DataBroadcaster.RegisterChannel | data_broadcaster.go:99-147 | replays the cache on the channel, then appends it to the live list; a new channel joins the no-gap, no-duplicate invariant, in step from the oldest cached row |
| DataBroadcaster.DataBroadcaster.DeregisterChannel | data_broadcaster.go:158-172 | the live list becomes the order-preserving Filter of the old one without the channel; a channel that is not live leaves the list unchanged; the invariant is kept |
| DataBroadcaster.DataBroadcaster.SendToLiveChannels | data_broadcaster.go:232-234 | the send loop delivers the row to each live channel in registration order |
| DataBroadcaster.DataBroadcaster.CacheAndBroadcastData | data_broadcaster.go:216-236 | the row is counted and cached, and the deliveries become Broadcast of the row over the live channels, so each live channel gets it once and no other channel gets it; the invariant holds |
| DataBroadcaster.DataBroadcaster.RunTurn | data_broadcaster.go:174-214 | one turn of the loop consumes one read; it stops with run's result exactly at a stopping read, and otherwise keeps the cached-plus-still-accepted rows, the result and the unread input the same; a channel that is not live is sent nothing |
| DataBroadcaster.DataBroadcaster.Run | data_broadcaster.go:174-214 | caches exactly the accepted rows in read order, sends each live channel exactly those rows and every other channel (a deregistered one included) nothing, returns RunError, and leaves the input after the stop unread |
| DataBroadcaster.DataBroadcaster.Start | data_broadcaster.go:58-80 | records the error, sets streamEnded, caches the end marker and sends every live channel the accepted rows then the marker, and a channel that is not live (a deregistered one included) nothing; a late subscriber then sees the last capacity − 1 rows followed by the marker |
| DataBroadcaster.EarlySubscribersAgree | data_broadcaster.go:232-234 | two channels registered before any row was cached have been sent the same rows: the whole stream |
| CliOptions.ColumnName | cmd/main.go:55-56 | the name is "y" followed by the decimal digits of the column index |
| CliOptions.ColumnNameInjective | cmd/main.go:55-56 | different columns get different names |
| CliOptions.NormalizedColumns | cmd/main.go:51-71 | never empty: as many names as the columns given, otherwise NumColumns names when that is positive, otherwise one |
| CliOptions.NormalizedColumnsShape | cmd/main.go:51-71 | given columns are kept; otherwise y0..y{n-1} for NumColumns n > 0, else ["y1"]; never empty |
| CliOptions.SynthesizedColumnsDistinct | cmd/main.go:51-57 | synthesised column names never repeat |
| CliOptions.ResolveIndex | cmd/main.go:81-93 | a conflict exactly when both indices are given; xIsTimestamp exactly when --xindex is absent; X is --tindex when that is ≥ 0 and -1 otherwise |
| CliOptions.ResolvedIndexRange | cmd/main.go:81-93 | the resolved X index is ≥ -1 unless --xindex itself was given as another negative number |
| CliOptions.Options.NormalizeColumns | cmd/main.go:51-71 | the append loop sets the columns to the normalised list |
| CliOptions.Options.Normalize | cmd/main.go:51-93 | columns normalised first; exit 1 exactly for an inverted y range or both indices given; otherwise the index resolution is stored |
| WsReader.RewriteUrl | cmd/wesplot-ws-reader/main.go:46-55 | http becomes ws, https becomes wss, other schemes stay; the path is /ws2; nothing else changes |
| WsReader.RewriteUrlIdempotent | cmd/wesplot-ws-reader/main.go:46-55 | rewriting twice is rewriting once, and no plain HTTP scheme remains |
| WsReader.DataRowsAt | cmd/wesplot-ws-reader/main.go:137-153 | a DATA message with n pairs yields exactly n rows [series id, X[i], Y[i]] in index order |
| WsReader.DataRowsSnoc | cmd/wesplot-ws-reader/main.go:140-149 | one more pair appends one more row |
| WsReader.DataRows | cmd/wesplot-ws-reader/main.go:137-153 | one row per X value |
| WsReader.MessageOutcome | cmd/wesplot-ws-reader/main.go:96-134 | a decode failure is returned as an error; STREAM_END, and only STREAM_END, gives EOF |
| WsReader.MessageRows | cmd/wesplot-ws-reader/main.go:96-108 | only a message that decodes to DATA writes rows |
| WsReader.SessionStep | cmd/wesplot-ws-reader/main.go:71-89 | each turn writes the message's rows and goes on unless the message ended the stream |
| WsReader.SessionRows | cmd/wesplot-ws-reader/main.go:71-89 | rows are written only if some message of the connection decodes to DATA |
| WsReader.SessionStopsAtStreamEnd | cmd/wesplot-ws-reader/main.go:82-86 | nothing after a STREAM_END is read or written |
| WsReader.NoDataNoRows | cmd/wesplot-ws-reader/main.go:66-69 | without DATA messages, the header is the whole output |
| WsReader.EncodedDataRows | cmd/wesplot-ws-reader/main.go:102-108 | an encoded DATA message is handled and writes one row per pair |
| WsReader.EncodedStreamEnd | cmd/wesplot-ws-reader/main.go:117-127 | an encoded STREAM_END ends the stream, whatever its JSON body says, and writes nothing |
| WsReader.WSReader.ProcessDataMessage | cmd/wesplot-ws-reader/main.go:137-153 | the row loop appends exactly the message's rows |
| WsReader.WSReader.ProcessMessage | cmd/wesplot-ws-reader/main.go:96-134 | returns the message's outcome and appends exactly its rows |
| WsReader.WSReader.Connect | cmd/wesplot-ws-reader/main.go:66-92 | writes the header, then the rows of every message up to the first STREAM_END or the end of the connection |

## Left out

- JSON: `encoding/json` marshalling and unmarshalling of Metadata and
  StreamEnd is a foreign library. Bodies are opaque bytes, and `unmarshals`
  says whether a body is accepted. A marshal failure in the encoders is
  therefore not modelled.
- Floats: `strconv.ParseFloat`/`TrimSpace`, `strconv.FormatFloat` and the clock
  behind `NowXGenerator` are the oracles `parse`, `format` and `now`. Go's float
  `>=` on the y bounds is the oracle `atLeast`.
- The broadcaster's `%f` tee output (data_broadcaster.go:199-209): formatting
  and I/O only; it changes no state.
- Concurrency: the broadcaster's mutex, atomic flag, goroutine, `Wait`, trace
  regions and logging. Each locked method is one atomic step, and a channel is
  the sequence of rows sent on it, so blocking sends are not modelled.
- `TextToDataRowReader.ColumnNames` and `CsvDataSource.Columns` return the
  stored column list; the model reads the `columns` field directly.
- `NewCsvStringReader`, `NewRelaxedStringReader` and `NewCsvDataSource` wrap
  library readers. Their constructors take the outcomes those readers will
  deliver.
- The network: `url.Parse` failures, `websocket.Dial`, and the connection's
  close status. The connection is the sequence of messages it delivers; when
  they run out the loop ends, as it does on any read error.
- CSV writer errors: writing rows to the in-memory output never fails, so the
  reader's `csvWriter.Error()` paths are not modelled.
- `parseOptions`: the flag library, `--verbose` logging and JSON dumping of
  the options are wiring only.
- Utils.Ring.constructor: capacity 0 is excluded by a precondition, since a
  ring of capacity 0 panics on its first push; the broadcaster constructor
  needs capacity ≥ 1 for the same reason.
- WsProtocol.WSRoundTrip: JSON payloads must frame to less than 4 GiB, because
  the encoder stores their size in a `uint32` Length.
- WsProtocol.EncodeData: a message of 2^28 pairs or more wraps the `uint32`
  buffer size and the writes panic. This is modelled as `IndexOutOfRange`, so no
  round trip is claimed for it.
- WsReader.WSReader.ProcessMessage: it decodes with the corrected
  `DecodeWSMessage`. With the code as written, a message hitting the wrapped
  size check panics the reader instead of returning an error.
- WsReader.WSReader.ProcessDataMessage: it requires `|Y| ≥ |X|`, since the loop
  indexes Y at every X position and panics otherwise. Decoded messages always
  have `|X| = |Y|`.

## Findings

| source | as written | input that shows it | evidently intended | confidence | as-written member | corrected member |
|---|---|---|---|---|---|---|
| ws_protocol.go:127-128 | the DATA size `8 + Length*16` is computed in `uint32` and compared with `uint32(len(buf))`, so it wraps for Length ≥ 2^28 | the 8-byte payload `00 00 00 00 00 00 00 10` (Length 2^28): the check passes, and reading X overruns the buffer | reject any buffer that is not exactly 8 + 16·Length bytes | high, not executed | WsProtocol.DecodeDataAsWritten, WsProtocol.DecodeDataWrapCounterexample | WsProtocol.DecodeData, WsProtocol.DataRoundTrip |
| ws_protocol.go:293-298 | the message size `EnvelopeHeaderSize + env.Length` is a `uint32` sum, so it wraps for Length ≥ 2^32 − 8; the slice `buf[8:8+Length]` then panics | the 8-byte buffer `01 00 00 01 F8 FF FF FF` (Length 0xFFFFFFF8): the sum is 0, the check passes, and `buf[8:0]` is out of range | report the buffer as too short whenever it has fewer than 8 + Length bytes | high, not executed | WsProtocol.DecodeWSMessageAsWritten, WsProtocol.DecodeWSWrapCounterexample | WsProtocol.DecodeWSMessage, WsProtocol.WSRoundTrip |
