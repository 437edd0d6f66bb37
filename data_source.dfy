/** The older CSV data source (data_source.go): one CSV record becomes a row
    of a timestamp and data values, checked against the column count and run
    through a pipeline of operators. ParseFloat (after TrimSpace) is the oracle
    `parse`; the clock reading of time.Now().UnixMilli() is the parameter `now`. */
module DataSource {
  import opened Utils
  import opened ReadErrors
  import opened Encoding
  import DataReader

  /** The row of this snapshot: a timestamp and the data values. */
  datatype DataRow = DataRow(timestamp: Float, data: seq<Float>)

  /** An operator of the pipeline: a new row, or an error that stops it. */
  type Operator = DataRow -> ReadResult<DataRow>

  /** Apply the operators in order, each to the previous one's row; the first
      error ends the pipeline and is the result. */
  function ApplyPipeline(ops: seq<Operator>, row: DataRow): (r: ReadResult<DataRow>)
    ensures r.Error? ==> exists k, x :: 0 <= k < |ops| && ops[k](x) == Error(r.err)
  {
    if ops == [] then Value(row)
    else
      match ops[0](row)
      case Error(e) => Error(e)
      case Value(next) => ApplyPipeline(ops[1..], next)
  }

  /** Running a + b is running a, then running b on its row, unless a failed. */
  lemma {:induction false} PipelineAppend(a: seq<Operator>, b: seq<Operator>, row: DataRow)
    ensures ApplyPipeline(a + b, row) ==
            match ApplyPipeline(a, row)
            case Error(e) => Error(e)
            case Value(next) => ApplyPipeline(b, next)
  {
    if a == [] {
      assert a + b == b;
    } else {
      assert (a + b)[0] == a[0] && (a + b)[1..] == a[1..] + b;
      match a[0](row) {
        case Error(e) =>
        case Value(next) => PipelineAppend(a[1..], b, next);
      }
    }
  }

  /** interpretRawData: every field but the timestamp column parsed, in
      order. The timestamp column is skipped, so a timestamp is only ever the
      clock's, when the column is negative; otherwise it stays 0. */
  function Interpret(line: seq<string>, timestampColumn: int, parse: string -> Option<Float>, now: Float): (r: ReadResult<DataRow>)
    ensures r.Error? ==> r.err == IgnoreThisRow
    ensures r.Value? <==> DataReader.AllParse(DataReader.Without(line, timestampColumn), parse)
    ensures r.Value? ==> r.value.timestamp == if timestampColumn < 0 then now else 0
    ensures r.Value? ==>
              |r.value.data| == if 0 <= timestampColumn < |line| then |line| - 1 else |line|
  {
    var fields := DataReader.Without(line, timestampColumn);
    if !DataReader.AllParse(fields, parse) then Error(IgnoreThisRow)
    else Value(DataRow(if timestampColumn < 0 then now else 0, DataReader.Parsed(fields, parse)))
  }

  /** The timestamp column is never parsed: whatever it holds, the outcome is
      the same. */
  lemma TimestampColumnIgnored(line: seq<string>, timestampColumn: int, value: string,
                               parse: string -> Option<Float>, now: Float)
    requires 0 <= timestampColumn < |line|
    ensures Interpret(line[timestampColumn := value], timestampColumn, parse, now) ==
            Interpret(line, timestampColumn, parse, now)
  {
    var changed := line[timestampColumn := value];
    assert changed[..timestampColumn] == line[..timestampColumn];
    assert changed[timestampColumn + 1..] == line[timestampColumn + 1..];
  }

  /** One more field of the interpretRawData loop: the timestamp column is
      skipped, any other field is parsed and appended. */
  lemma InterpretStep(line: seq<string>, i: nat, timestampColumn: int, parse: string -> Option<Float>)
    requires i < |line| && DataReader.AllParse(DataReader.Without(line[..i], timestampColumn), parse)
    requires i != timestampColumn ==> parse(line[i]).Some?
    ensures DataReader.AllParse(DataReader.Without(line[..i + 1], timestampColumn), parse)
    ensures DataReader.Parsed(DataReader.Without(line[..i + 1], timestampColumn), parse) ==
            DataReader.Parsed(DataReader.Without(line[..i], timestampColumn), parse) +
            (if i == timestampColumn then [] else [parse(line[i]).value])
  {
    DataReader.WithoutStep(line, i, timestampColumn);
  }

  /** A field other than the timestamp column that does not parse makes the
      whole line unparsable. */
  lemma ParseFailsAt(line: seq<string>, i: nat, timestampColumn: int, parse: string -> Option<Float>)
    requires i < |line| && i != timestampColumn && parse(line[i]).None?
    ensures !DataReader.AllParse(DataReader.Without(line, timestampColumn), parse)
  {
    var fields := DataReader.Without(line, timestampColumn);
    if 0 <= timestampColumn < i {
      assert fields[i - 1] == line[i];
    } else {
      assert fields[i] == line[i];
    }
  }

  /** CsvDataSource: a CSV reader, given as the outcomes its Read will return,
      and the settings NewCsvDataSource stores. */
  class CsvDataSource {
    var pending: seq<CsvOutcome>
    const pipeline: seq<Operator>
    const timestampColumn: int
    const columns: seq<string>
    const dynamicColumnsCount: bool

    constructor (input: seq<CsvOutcome>, pipeline: seq<Operator>, timestampColumn: int,
                 columns: seq<string>, dynamicColumnsCount: bool)
      ensures this.pending == input && this.pipeline == pipeline
      ensures this.timestampColumn == timestampColumn && this.columns == columns
      ensures this.dynamicColumnsCount == dynamicColumnsCount
    {
      this.pending := input;
      this.pipeline := pipeline;
      this.timestampColumn := timestampColumn;
      this.columns := columns;
      this.dynamicColumnsCount := dynamicColumnsCount;
    }

    /** What Read returns for one outcome of the CSV reader. */
    function ReadOutcome(outcome: CsvOutcome, parse: string -> Option<Float>, now: Float): (r: ReadResult<DataRow>)
      ensures outcome == ReadFailed(Eof) ==> r == Error(Eof)
      ensures outcome == ReadFailed(CsvParseError) ==> r == Error(IgnoreThisRow)
      ensures outcome.ReadFailed? && outcome.failure.Failure? ==> r == Error(outcome.failure)
      ensures outcome.Record? && !dynamicColumnsCount ==>
                var row := Interpret(outcome.fields, timestampColumn, parse, now);
                row.Value? && |row.value.data| != |columns| ==> r == Error(IgnoreThisRow)
      ensures r.Value? ==> outcome.Record?
    {
      match ClassifyCsv(outcome)
      case Error(e) => Error(e)
      case Value(line) =>
        match Interpret(line, timestampColumn, parse, now)
        case Error(e) => Error(e)
        case Value(row) =>
          if !dynamicColumnsCount && |row.data| != |columns| then Error(IgnoreThisRow)
          else ApplyPipeline(pipeline, row)
    }

    /** The loop of interpretRawData. */
    method InterpretRawData(line: seq<string>, parse: string -> Option<Float>, now: Float) returns (r: ReadResult<DataRow>)
      ensures r == Interpret(line, timestampColumn, parse, now)
    {
      var timestamp: Float := 0;
      if timestampColumn < 0 {
        timestamp := now;
      }
      var data: seq<Float> := [];
      for i := 0 to |line|
        invariant DataReader.AllParse(DataReader.Without(line[..i], timestampColumn), parse)
        invariant data == DataReader.Parsed(DataReader.Without(line[..i], timestampColumn), parse)
      {
        if i == timestampColumn {
          InterpretStep(line, i, timestampColumn, parse);
          continue;
        }
        var value := parse(line[i]);
        if value.None? {
          ParseFailsAt(line, i, timestampColumn, parse);
          return Error(IgnoreThisRow);
        }
        InterpretStep(line, i, timestampColumn, parse);
        data := data + [value.value];
      }
      assert line[..|line|] == line;
      return Value(DataRow(timestamp, data));
    }

    /** The operator loop of Read. */
    method RunPipeline(row: DataRow) returns (r: ReadResult<DataRow>)
      ensures r == ApplyPipeline(pipeline, row)
    {
      var current := row;
      for i := 0 to |pipeline|
        invariant ApplyPipeline(pipeline[i..], current) == ApplyPipeline(pipeline, row)
      {
        assert pipeline[i..][0] == pipeline[i] && pipeline[i..][1..] == pipeline[i + 1..];
        var result := pipeline[i](current);
        if result.Error? {
          return Error(result.err);
        }
        current := result.value;
      }
      return Value(current);
    }

    /** Read one record and turn it into a row. */
    method Read(parse: string -> Option<Float>, now: Float) returns (r: ReadResult<DataRow>)
      modifies this
      ensures r == ReadOutcome(NextOutcome(old(pending)), parse, now)
      ensures pending == if old(pending) == [] then [] else old(pending)[1..]
    {
      var outcome := NextOutcome(pending);
      if pending != [] {
        pending := pending[1..];
      }
      if outcome == ReadFailed(Eof) {
        return Error(Eof);
      }
      if outcome.ReadFailed? {
        if outcome.failure == CsvParseError {
          return Error(IgnoreThisRow);
        }
        return Error(outcome.failure);
      }
      var row := InterpretRawData(outcome.fields, parse, now);
      if row.Error? {
        return Error(row.err);
      }
      if !dynamicColumnsCount && |row.value.data| != |columns| {
        return Error(IgnoreThisRow);
      }
      r := RunPipeline(row.value);
    }
  }
}
