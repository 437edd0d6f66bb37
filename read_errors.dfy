/** The error values that travel through the reader pipeline, and what the
    underlying encoding/csv reader hands back for one record. */
module ReadErrors {

  /** io.EOF, the package's errIgnoreThisRow sentinel, a *csv.ParseError, or
      any other error (told apart only by an opaque code). */
  datatype ReadError = Eof | IgnoreThisRow | CsvParseError | Failure(code: nat)

  /** A value, or the error returned in its place. */
  datatype ReadResult<T> = Value(value: T) | Error(err: ReadError)

  /** One call of csv.Reader.Read: a record or an error. Once the input is
      exhausted the reader keeps answering io.EOF. */
  datatype CsvOutcome = Record(fields: seq<string>) | ReadFailed(failure: ReadError)

  /** The error handling shared by CsvStringReader.Read and CsvDataSource.Read:
      io.EOF passes through, a parse error becomes errIgnoreThisRow, any other
      error is returned unchanged. */
  function ClassifyCsv(outcome: CsvOutcome): (r: ReadResult<seq<string>>)
    ensures r.Error? && r.err == Eof <==> outcome == ReadFailed(Eof)
    ensures r.Error? && r.err == IgnoreThisRow <==>
              outcome == ReadFailed(CsvParseError) || outcome == ReadFailed(IgnoreThisRow)
    ensures outcome.Record? ==> r == Value(outcome.fields)
    ensures r.Value? ==> outcome.Record?
    ensures r != Error(CsvParseError)
  {
    match outcome
    case Record(fields) => Value(fields)
    case ReadFailed(CsvParseError) => Error(IgnoreThisRow)
    case ReadFailed(e) => Error(e)
  }

  /** The next outcome of a csv.Reader that still has `pending` to return. */
  function NextOutcome(pending: seq<CsvOutcome>): CsvOutcome
  {
    if pending == [] then ReadFailed(Eof) else pending[0]
  }
}
