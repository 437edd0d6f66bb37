/** The text half of the reader pipeline (data_reader.go): string readers that
    turn input lines into fields, and TextToDataRowReader, which turns fields
    into a DataRow. ParseFloat (after TrimSpace) is the oracle `parse`, the
    clock behind NowXGenerator is the parameter `now`. */
module DataReader {
  import opened Utils
  import opened ReadErrors
  import opened Encoding

  /** A row of the pipeline. streamEnded and streamErr are set only on the
      end marker the broadcaster appends. */
  datatype DataRow = DataRow(x: Float, ys: seq<Float>, streamEnded: bool, streamErr: Option<ReadError>)

  // --------------------------------------------------------- relaxed split

  predicate IsBlank(c: char)
  {
    c == ' ' || c == '\t'
  }

  predicate IsSeparator(c: char)
  {
    IsBlank(c) || c == ','
  }

  /** No space, tab or comma anywhere in s. */
  predicate Clean(s: string)
  {
    forall i :: 0 <= i < |s| ==> !IsSeparator(s[i])
  }

  /** Drop the leading run of spaces and tabs. */
  function SkipBlanks(s: string): (r: string)
    ensures |r| <= |s| && r == s[|s| - |r|..]
    ensures r != [] ==> !IsBlank(r[0])
  {
    if s != [] && IsBlank(s[0]) then SkipBlanks(s[1..]) else s
  }

  /** relaxedSplitter.Split(s, -1) with the pattern "[ \t]+|,": the pieces of
      text between successive matches, a match being a longest run of spaces
      and tabs or one comma. `field` is the piece begun before s. */
  function SplitFrom(s: string, field: string): (r: seq<string>)
    ensures |r| >= 1
    decreases |s|
  {
    if s == [] then [field]
    else if s[0] == ',' then [field] + SplitFrom(s[1..], [])
    else if IsBlank(s[0]) then [field] + SplitFrom(SkipBlanks(s[1..]), [])
    else SplitFrom(s[1..], field + [s[0]])
  }

  function NonEmpty(value: string): bool
  {
    |value| > 0
  }

  /** The fields RelaxedStringReader.Read returns for one line: the regexp
      split with the empty pieces filtered out. */
  function RelaxedFields(line: string): (r: seq<string>)
    ensures forall f :: f in r ==> f != []
  {
    FilteredMembers(SplitFrom(line, []), NonEmpty);
    Filtered(SplitFrom(line, []), NonEmpty)
  }

  /** The line with every space, tab and comma removed. */
  function Stripped(s: string): (r: string)
    ensures Clean(r)
  {
    if s == [] then []
    else (if IsSeparator(s[0]) then [] else [s[0]]) + Stripped(s[1..])
  }

  function Concat(fields: seq<string>): string
  {
    if fields == [] then [] else fields[0] + Concat(fields[1..])
  }

  /** fields joined with the single separator character sep between them. */
  function Join(fields: seq<string>, sep: char): string
  {
    if |fields| == 0 then []
    else if |fields| == 1 then fields[0]
    else fields[0] + [sep] + Join(fields[1..], sep)
  }

  lemma {:induction false} SplitFromClean(s: string, field: string)
    requires Clean(field)
    ensures forall f :: f in SplitFrom(s, field) ==> Clean(f)
    decreases |s|
  {
    if s == [] {
    } else if s[0] == ',' {
      SplitFromClean(s[1..], []);
    } else if IsBlank(s[0]) {
      SplitFromClean(SkipBlanks(s[1..]), []);
    } else {
      SplitFromClean(s[1..], field + [s[0]]);
    }
  }

  /** Every field is non-empty and holds no space, tab or comma. */
  lemma RelaxedFieldsClean(line: string)
    ensures forall f :: f in RelaxedFields(line) ==> |f| > 0 && Clean(f)
  {
    SplitFromClean(line, []);
    FilteredMembers(SplitFrom(line, []), NonEmpty);
  }

  lemma {:induction false} StrippedSkipBlanks(s: string)
    ensures Stripped(SkipBlanks(s)) == Stripped(s)
  {
    if s != [] && IsBlank(s[0]) {
      StrippedSkipBlanks(s[1..]);
    }
  }

  lemma {:induction false} ConcatFilteredNonEmpty(fields: seq<string>)
    ensures Concat(Filtered(fields, NonEmpty)) == Concat(fields)
  {
    if fields != [] {
      ConcatFilteredNonEmpty(fields[1..]);
      var kept := if NonEmpty(fields[0]) then [fields[0]] else [];
      var rest := Filtered(fields[1..], NonEmpty);
      assert Filtered(fields, NonEmpty) == kept + rest;
      if NonEmpty(fields[0]) {
        assert (kept + rest)[0] == fields[0] && (kept + rest)[1..] == rest;
      } else {
        assert kept + rest == rest;
      }
    }
  }

  lemma {:induction false} ConcatSplitFrom(s: string, field: string)
    ensures Concat(SplitFrom(s, field)) == field + Stripped(s)
    decreases |s|
  {
    if s == [] {
      assert field + Stripped(s) == field;
    } else if s[0] == ',' || IsBlank(s[0]) {
      var rest := if s[0] == ',' then s[1..] else SkipBlanks(s[1..]);
      var pieces := SplitFrom(rest, []);
      assert SplitFrom(s, field) == [field] + pieces;
      assert ([field] + pieces)[0] == field && ([field] + pieces)[1..] == pieces;
      ConcatSplitFrom(rest, []);
      assert Concat(pieces) == Stripped(rest);
      if s[0] != ',' {
        StrippedSkipBlanks(s[1..]);
      }
      assert Stripped(s) == Stripped(s[1..]);
    } else {
      ConcatSplitFrom(s[1..], field + [s[0]]);
      assert Stripped(s) == [s[0]] + Stripped(s[1..]);
      assert field + [s[0]] + Stripped(s[1..]) == field + ([s[0]] + Stripped(s[1..]));
    }
  }

  /** The fields, in order, are exactly the non-separator characters of the
      line: nothing is lost, reordered or duplicated. */
  lemma RelaxedFieldsCover(line: string)
    ensures Concat(RelaxedFields(line)) == Stripped(line)
  {
    ConcatSplitFrom(line, []);
    ConcatFilteredNonEmpty(SplitFrom(line, []));
  }

  lemma {:induction false} SplitFromField(w: string, rest: string, field: string)
    requires Clean(w)
    ensures SplitFrom(w + rest, field) == SplitFrom(rest, field + w)
    decreases |w|
  {
    if w != [] {
      assert (w + rest)[0] == w[0] && (w + rest)[1..] == w[1..] + rest;
      assert !IsSeparator(w[0]);
      assert Clean(w[1..]) by {
        forall i | 0 <= i < |w[1..]| ensures !IsSeparator(w[1..][i]) {
          assert w[1..][i] == w[i + 1];
        }
      }
      SplitFromField(w[1..], rest, field + [w[0]]);
      assert field + [w[0]] + w[1..] == field + w;
    } else {
      assert w + rest == rest && field + w == field;
    }
  }

  /** A join of two or more fields is the first field, the separator, and
      the join of the rest, which starts with a non-separator character. */
  lemma JoinHead(fields: seq<string>, sep: char)
    requires |fields| > 1
    requires forall f :: f in fields ==> |f| > 0 && Clean(f)
    ensures var tail := Join(fields[1..], sep);
            Join(fields, sep) == fields[0] + ([sep] + tail) && |tail| > 0 && !IsSeparator(tail[0])
  {
    var tail := Join(fields[1..], sep);
    assert fields[1] in fields;
    if |fields| > 2 {
      assert tail == fields[1] + [sep] + Join(fields[2..], sep);
    }
    assert tail[0] == fields[1][0];
  }

  /** Splitting after one separator character that is followed by a field
      starts a fresh piece there. */
  lemma SplitAfterSeparator(sep: char, tail: string, field: string)
    requires IsSeparator(sep) && |tail| > 0 && !IsSeparator(tail[0])
    ensures SplitFrom([sep] + tail, field) == [field] + SplitFrom(tail, [])
  {
    assert ([sep] + tail)[1..] == tail;
  }

  /** A field, one separator character and a text that starts with a field
      split into that field and the split of the text. */
  lemma SplitJoin(field: string, sep: char, tail: string)
    requires Clean(field) && IsSeparator(sep) && |tail| > 0 && !IsSeparator(tail[0])
    ensures SplitFrom(field + ([sep] + tail), []) == [field] + SplitFrom(tail, [])
  {
    SplitFromField(field, [sep] + tail, []);
    assert [] + field == field;
    SplitAfterSeparator(sep, tail, field);
  }

  /** Splitting undoes joining: non-empty separator-free fields joined by a
      comma, a space or a tab split back into the same fields. */
  lemma {:induction false} RelaxedFieldsJoin(fields: seq<string>, sep: char)
    requires IsSeparator(sep)
    requires forall f :: f in fields ==> |f| > 0 && Clean(f)
    ensures RelaxedFields(Join(fields, sep)) == fields
  {
    if |fields| == 1 {
      assert fields[0] in fields;
      SplitFromField(fields[0], [], []);
      assert fields[0] + [] == fields[0];
      assert [] + fields[0] == fields[0];
    } else if |fields| > 1 {
      JoinHead(fields, sep);
      assert fields[0] in fields;
      SplitJoin(fields[0], sep, Join(fields[1..], sep));
      var rest := SplitFrom(Join(fields[1..], sep), []);
      FilteredAppend([fields[0]], rest, NonEmpty);
      assert fields[0] in fields;
      assert Filtered([fields[0]], NonEmpty) == [fields[0]];
      assert forall f :: f in fields[1..] ==> f in fields;
      RelaxedFieldsJoin(fields[1..], sep);
      assert fields == [fields[0]] + fields[1..];
    }
  }

  // ---------------------------------------------------------- string readers

  /** CsvStringReader: an encoding/csv reader, given as the outcomes its Read
      will return, and the count of lines read. */
  class CsvStringReader {
    var pending: seq<CsvOutcome>
    var lineCount: nat

    constructor (input: seq<CsvOutcome>)
      ensures pending == input && lineCount == 0
    {
      pending := input;
      lineCount := 0;
    }

    /** The result the next Read will return. */
    function NextResult(): ReadResult<seq<string>>
      reads this
    {
      ClassifyCsv(NextOutcome(pending))
    }

    /** Read one record: io.EOF passes through without counting a line, every
        other outcome counts one, a parse error becomes errIgnoreThisRow. */
    method Read() returns (r: ReadResult<seq<string>>)
      modifies this
      ensures r == old(NextResult())
      ensures pending == if old(pending) == [] then [] else old(pending)[1..]
      ensures lineCount == old(lineCount) + (if r == Error(Eof) then 0 else 1)
    {
      var outcome := NextOutcome(pending);
      if pending != [] {
        pending := pending[1..];
      }
      if outcome == ReadFailed(Eof) {
        return Error(Eof);
      }
      lineCount := lineCount + 1;
      match outcome {
        case Record(fields) =>
          r := Value(fields);
        case ReadFailed(e) =>
          if e == CsvParseError {
            r := Error(IgnoreThisRow);
          } else {
            r := Error(e);
          }
      }
    }
  }

  /** One successful bufio.Scanner.Scan: the line, and the error Err() then
      reports, if any. When the steps run out, Scan returns false. */
  datatype ScanStep = ScanStep(line: string, scanErr: Option<ReadError>)

  /** What RelaxedStringReader.Read returns for the next scan, if any. */
  function ScanResult(pending: seq<ScanStep>): (r: ReadResult<seq<string>>)
    ensures pending == [] ==> r == Error(Eof)
    ensures r.Value? ==> forall f :: f in r.value ==> |f| > 0 && Clean(f)
  {
    if pending == [] then Error(Eof)
    else if pending[0].scanErr.Some? then Error(pending[0].scanErr.value)
    else
      RelaxedFieldsClean(pending[0].line);
      Value(RelaxedFields(pending[0].line))
  }

  /** RelaxedStringReader: a line scanner, given as the scans it will make. */
  class RelaxedStringReader {
    var pending: seq<ScanStep>
    var lineCount: nat

    constructor (input: seq<ScanStep>)
      ensures pending == input && lineCount == 0
    {
      pending := input;
      lineCount := 0;
    }

    /** Scan one line; io.EOF once the scanner has no more lines, the
        scanner's error if it has one, else the relaxed split of the line. */
    method Read() returns (r: ReadResult<seq<string>>)
      modifies this
      ensures r == ScanResult(old(pending))
      ensures pending == if old(pending) == [] then [] else old(pending)[1..]
      ensures lineCount == old(lineCount)
    {
      if pending == [] {
        return Error(Eof);
      }
      var step := pending[0];
      pending := pending[1..];
      if step.scanErr.Some? {
        return Error(step.scanErr.value);
      }
      var fields := Filter(SplitFrom(step.line, []), NonEmpty);
      return Value(fields);
    }
  }

  // --------------------------------------------------------- text to rows

  /** Every field parses as a float. */
  predicate AllParse(line: seq<string>, parse: string -> Option<Float>)
  {
    forall i :: 0 <= i < |line| ==> parse(line[i]).Some?
  }

  function Parsed(fields: seq<string>, parse: string -> Option<Float>): (r: seq<Float>)
    requires AllParse(fields, parse)
    ensures |r| == |fields|
    ensures forall i :: 0 <= i < |fields| ==> r[i] == parse(fields[i]).value
  {
    seq(|fields|, i requires 0 <= i < |fields| => parse(fields[i]).value)
  }

  /** s without its element k, or s itself when k is not an index of s. */
  function Without<T>(s: seq<T>, k: int): seq<T>
  {
    if 0 <= k < |s| then s[..k] + s[k + 1..] else s
  }

  lemma WithoutStep<T>(s: seq<T>, i: nat, k: int)
    requires i < |s|
    ensures Without(s[..i + 1], k) == Without(s[..i], k) + (if i == k then [] else [s[i]])
  {
    if 0 <= k < i {
      assert s[..i + 1][..k] == s[..i][..k];
      assert s[..i + 1][k + 1..] == s[..i][k + 1..] + [s[i]];
    } else if k == i {
      assert s[..i + 1][..k] == s[..i];
    }
  }

  /** Element k of Without(s, x) is element k of s before x, and element
      k + 1 from x on. */
  lemma WithoutShape<T>(s: seq<T>, x: int)
    ensures |Without(s, x)| == if 0 <= x < |s| then |s| - 1 else |s|
    ensures forall k :: 0 <= k < |Without(s, x)| ==>
              Without(s, x)[k] == s[if 0 <= x <= k then k + 1 else k]
  {
  }

  /** One more field of the Go range loop over the line: it parses, and it
      either becomes X or is appended to the Ys. */
  lemma ParseStep(line: seq<string>, i: nat, xIndex: int, parse: string -> Option<Float>)
    requires i < |line| && AllParse(line[..i], parse) && parse(line[i]).Some?
    ensures AllParse(line[..i + 1], parse)
    ensures Parsed(Without(line[..i + 1], xIndex), parse) ==
            Parsed(Without(line[..i], xIndex), parse) + (if i == xIndex then [] else [parse(line[i]).value])
    ensures ColumnX(line[..i + 1], xIndex, parse) ==
            if i == xIndex then parse(line[i]).value else ColumnX(line[..i], xIndex, parse)
  {
    assert line[..i + 1] == line[..i] + [line[i]];
    WithoutStep(line, i, xIndex);
  }

  /** The X of a row whose X comes from a column: that field, or 0 when the
      line is too short to have it. */
  function ColumnX(line: seq<string>, xIndex: int, parse: string -> Option<Float>): Float
    requires AllParse(line, parse)
  {
    if 0 <= xIndex < |line| then parse(line[xIndex]).value else 0
  }

  /** The row TextToDataRowReader.Read makes of one line of fields. */
  function RowFromLine(line: seq<string>, xIndex: int, xGenerator: Option<seq<Float> -> Float>,
                       columns: seq<string>, expectExactColumnCount: bool,
                       parse: string -> Option<Float>, now: Float): (r: ReadResult<DataRow>)
    ensures r.Error? ==> r.err == IgnoreThisRow
    ensures r.Value? <==>
              AllParse(line, parse) &&
              (expectExactColumnCount ==> |columns| == |Without(line, xIndex)|)
    ensures r.Value? ==> !r.value.streamEnded && r.value.streamErr.None?
  {
    if !AllParse(line, parse) then Error(IgnoreThisRow)
    else
      var ys := Parsed(Without(line, xIndex), parse);
      if expectExactColumnCount && |columns| != |ys| then Error(IgnoreThisRow)
      else
        var x := if xIndex >= 0 then ColumnX(line, xIndex, parse)
                 else if xGenerator.Some? then xGenerator.value(ys)
                 else now;
        Value(DataRow(x, ys, false, None))
  }

  /** The Ys are every field but the X one, in their order: one fewer than
      the fields when XIndex is a field's index, all of them otherwise. */
  lemma RowYs(line: seq<string>, xIndex: int, xGenerator: Option<seq<Float> -> Float>,
              columns: seq<string>, expectExactColumnCount: bool,
              parse: string -> Option<Float>, now: Float)
    requires RowFromLine(line, xIndex, xGenerator, columns, expectExactColumnCount, parse, now).Value?
    ensures var row := RowFromLine(line, xIndex, xGenerator, columns, expectExactColumnCount, parse, now).value;
            && |row.ys| == (if 0 <= xIndex < |line| then |line| - 1 else |line|)
            && (forall k :: 0 <= k < |row.ys| ==>
                  row.ys[k] == parse(line[if 0 <= xIndex <= k then k + 1 else k]).value)
  {
    var fields := Without(line, xIndex);
    WithoutShape(line, xIndex);
    assert AllParse(fields, parse) by {
      forall k | 0 <= k < |fields| ensures parse(fields[k]).Some? {
        assert fields[k] == line[if 0 <= xIndex <= k then k + 1 else k];
      }
    }
  }

  /** Where X comes from: the XIndex field, 0 when XIndex is past the end of
      the line, and the generator (the clock by default) when XIndex < 0. */
  lemma RowX(line: seq<string>, xIndex: int, xGenerator: Option<seq<Float> -> Float>,
             columns: seq<string>, expectExactColumnCount: bool,
             parse: string -> Option<Float>, now: Float)
    requires RowFromLine(line, xIndex, xGenerator, columns, expectExactColumnCount, parse, now).Value?
    ensures var row := RowFromLine(line, xIndex, xGenerator, columns, expectExactColumnCount, parse, now).value;
            && (0 <= xIndex < |line| ==> row.x == parse(line[xIndex]).value)
            && (xIndex >= |line| ==> row.x == 0)
            && (xIndex < 0 && xGenerator.Some? ==> row.x == xGenerator.value(row.ys))
            && (xIndex < 0 && xGenerator.None? ==> row.x == now)
  {
  }

  /** The one string reader TextToDataRowReader.Input holds. */
  datatype StringReader = Csv(csv: CsvStringReader) | Relaxed(relaxed: RelaxedStringReader)

  /** TextToDataRowReader: the input reader and the conversion settings. */
  class TextToDataRowReader {
    const input: StringReader
    const xIndex: int
    const xGenerator: Option<seq<Float> -> Float>
    const columns: seq<string>
    const expectExactColumnCount: bool

    constructor (input: StringReader, xIndex: int, xGenerator: Option<seq<Float> -> Float>,
                 columns: seq<string>, expectExactColumnCount: bool)
      ensures this.input == input && this.xIndex == xIndex && this.xGenerator == xGenerator
      ensures this.columns == columns && this.expectExactColumnCount == expectExactColumnCount
    {
      this.input := input;
      this.xIndex := xIndex;
      this.xGenerator := xGenerator;
      this.columns := columns;
      this.expectExactColumnCount := expectExactColumnCount;
    }

    /** The object Input.Read changes. */
    function InputObject(): object
    {
      match input
      case Csv(c) => c
      case Relaxed(s) => s
    }

    /** What Input.Read will return next. */
    function NextLine(): ReadResult<seq<string>>
      reads InputObject()
    {
      match input
      case Csv(c) => c.NextResult()
      case Relaxed(s) => ScanResult(s.pending)
    }

    /** What Read returns for an input result: the input's error unchanged,
        or the row made of the line. */
    function RowFor(line: ReadResult<seq<string>>, parse: string -> Option<Float>, now: Float): (r: ReadResult<DataRow>)
      ensures line.Error? ==> r == Error(line.err)
    {
      match line
      case Error(e) => Error(e)
      case Value(fields) => RowFromLine(fields, xIndex, xGenerator, columns, expectExactColumnCount, parse, now)
    }

    /** The field loop of Read: every field parsed, the XIndex one as X and
        the rest appended to the Ys, then the column count and X settled. */
    method ConvertLine(line: seq<string>, parse: string -> Option<Float>, now: Float) returns (r: ReadResult<DataRow>)
      ensures r == RowFromLine(line, xIndex, xGenerator, columns, expectExactColumnCount, parse, now)
    {
      var x: Float := 0;
      var ys: seq<Float> := [];
      for i := 0 to |line|
        invariant AllParse(line[..i], parse)
        invariant ys == Parsed(Without(line[..i], xIndex), parse)
        invariant x == ColumnX(line[..i], xIndex, parse)
      {
        var value := parse(line[i]);
        if value.None? {
          return Error(IgnoreThisRow);
        }
        ParseStep(line, i, xIndex, parse);
        if i == xIndex {
          x := value.value;
        } else {
          ys := ys + [value.value];
        }
      }
      assert line[..|line|] == line;
      if expectExactColumnCount && |columns| != |ys| {
        return Error(IgnoreThisRow);
      }
      if xIndex < 0 {
        x := if xGenerator.Some? then xGenerator.value(ys) else now;
      }
      return Value(DataRow(x, ys, false, None));
    }

    /** Read one line from the input and turn it into a row. */
    method Read(parse: string -> Option<Float>, now: Float) returns (r: ReadResult<DataRow>)
      modifies InputObject()
      ensures r == RowFor(old(NextLine()), parse, now)
      ensures input.Csv? ==>
                && input.csv.pending == (if old(input.csv.pending) == [] then [] else old(input.csv.pending)[1..])
                && input.csv.lineCount == old(input.csv.lineCount) + (if old(NextLine()) == Error(Eof) then 0 else 1)
      ensures input.Relaxed? ==>
                && input.relaxed.pending == (if old(input.relaxed.pending) == [] then [] else old(input.relaxed.pending)[1..])
                && input.relaxed.lineCount == old(input.relaxed.lineCount)
    {
      var lineResult;
      match input {
        case Csv(c) => lineResult := c.Read();
        case Relaxed(s) => lineResult := s.Read();
      }
      if lineResult.Error? {
        return Error(lineResult.err);
      }
      r := ConvertLine(lineResult.value, parse, now);
    }
  }
}
