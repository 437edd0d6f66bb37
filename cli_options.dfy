/** The normalisation and validation step of parseOptions (cmd/main.go), run
    after the flag library has filled in the options. os.Exit(status) is the
    returned exit status; Go's float comparison `>=` on the y bounds is the
    oracle `atLeast`, since floats are kept as their bit patterns. */
module CliOptions {
  import opened Utils
  import opened Encoding
  import opened Decimal

  /** The name synthesised for column i: fmt.Sprintf("y%d", i). */
  function ColumnName(i: nat): (name: string)
    ensures |name| >= 2 && name[0] == 'y'
    ensures forall k :: 0 <= k < |name[1..]| ==> IsDigit(name[1..][k])
    ensures DecimalValue(name[1..]) == i
  {
    DecimalRoundTrip(i);
    assert ("y" + NatToString(i))[1..] == NatToString(i);
    "y" + NatToString(i)
  }

  /** Different columns get different names. */
  lemma ColumnNameInjective(i: nat, j: nat)
    requires ColumnName(i) == ColumnName(j)
    ensures i == j
  {
    assert ColumnName(i)[1..] == NatToString(i);
    assert ColumnName(j)[1..] == NatToString(j);
    NatToStringInjective(i, j);
  }

  /** The columns the program goes on with: the --columns given, if any;
      otherwise y0 .. y{NumColumns-1} when NumColumns > 0, and y1 alone when not. */
  function NormalizedColumns(numColumns: int, columns: seq<string>): (r: seq<string>)
    ensures r != []
    ensures |r| == if columns != [] then |columns| else if numColumns > 0 then numColumns else 1
  {
    if columns != [] then columns
    else if numColumns > 0 then seq(numColumns, i requires 0 <= i => ColumnName(i))
    else ["y1"]
  }

  /** There is always at least one column, and its names are exactly the ones
      given, or the synthesised ones, or y1. */
  lemma NormalizedColumnsShape(numColumns: int, columns: seq<string>)
    ensures NormalizedColumns(numColumns, columns) != []
    ensures columns != [] ==> NormalizedColumns(numColumns, columns) == columns
    ensures columns == [] && numColumns > 0 ==>
              |NormalizedColumns(numColumns, columns)| == numColumns &&
              forall i :: 0 <= i < numColumns ==> NormalizedColumns(numColumns, columns)[i] == ColumnName(i)
    ensures columns == [] && numColumns <= 0 ==> NormalizedColumns(numColumns, columns) == ["y1"]
  {
  }

  /** Synthesised column names never repeat. */
  lemma SynthesizedColumnsDistinct(numColumns: int)
    requires numColumns > 0
    ensures forall i, j :: 0 <= i < j < numColumns ==>
              NormalizedColumns(numColumns, [])[i] != NormalizedColumns(numColumns, [])[j]
  {
    var cols := NormalizedColumns(numColumns, []);
    forall i, j | 0 <= i < j < numColumns
      ensures cols[i] != cols[j]
    {
      if cols[i] == cols[j] {
        ColumnNameInjective(i, j);
      }
    }
  }

  /** The y range is rejected when both bounds are set and YMin >= YMax. */
  predicate InvertedRange(yMin: Option<Float>, yMax: Option<Float>, atLeast: (Float, Float) -> bool)
  {
    yMin.Some? && yMax.Some? && atLeast(yMin.value, yMax.value)
  }

  /** How --xindex and --tindex resolve: a conflict when both are given, the X
      column otherwise, and whether X is a timestamp. */
  datatype IndexChoice = Conflict | Resolved(xIndex: int, xIsTimestamp: bool)

  function ResolveIndex(xIndex: int, tIndex: int): (r: IndexChoice)
    ensures r == Conflict <==> xIndex != -1 && tIndex != -1
    ensures r.Resolved? ==> (r.xIsTimestamp <==> xIndex == -1)
    ensures r.Resolved? && !r.xIsTimestamp ==> r.xIndex == xIndex
    ensures r.Resolved? && r.xIsTimestamp ==> r.xIndex == if tIndex >= 0 then tIndex else -1
  {
    if xIndex != -1 then
      if tIndex != -1 then Conflict else Resolved(xIndex, false)
    else
      Resolved(if tIndex >= 0 then tIndex else xIndex, true)
  }

  /** After resolution the X column is either a real column index or -1, the
      "generate X from the clock" value, unless --xindex itself was given as
      another negative number, which passes through unchecked. */
  lemma ResolvedIndexRange(xIndex: int, tIndex: int)
    requires ResolveIndex(xIndex, tIndex).Resolved?
    ensures var r := ResolveIndex(xIndex, tIndex);
            r.xIndex >= -1 || (r.xIndex == xIndex && !r.xIsTimestamp)
  {
  }

  /** The options parseOptions normalises, as the flag library left them. */
  class Options {
    var columns: seq<string>
    var numColumns: int
    var yMin: Option<Float>
    var yMax: Option<Float>
    var xIndex: int
    var tIndex: int
    var xIsTimestamp: bool

    constructor (columns: seq<string>, numColumns: int, yMin: Option<Float>, yMax: Option<Float>,
                 xIndex: int, tIndex: int)
      ensures this.columns == columns && this.numColumns == numColumns
      ensures this.yMin == yMin && this.yMax == yMax
      ensures this.xIndex == xIndex && this.tIndex == tIndex && !xIsTimestamp
    {
      this.columns := columns;
      this.numColumns := numColumns;
      this.yMin := yMin;
      this.yMax := yMax;
      this.xIndex := xIndex;
      this.tIndex := tIndex;
      xIsTimestamp := false;
    }

    /** The column step: append y0, y1, ... when only NumColumns was given,
        or set y1 when neither was. */
    method NormalizeColumns()
      modifies this`columns
      ensures columns == NormalizedColumns(numColumns, old(columns))
    {
      if numColumns > 0 {
        if |columns| == 0 {
          for i := 0 to numColumns
            invariant columns == seq(i, k requires 0 <= k => ColumnName(k))
          {
            columns := columns + [ColumnName(i)];
          }
        }
      } else {
        if |columns| == 0 {
          columns := ["y1"];
        }
      }
    }

    /** parseOptions after flag parsing: the columns are normalised first,
        then an inverted y range exits with 1, then both indices given exits
        with 1; otherwise the X column and xIsTimestamp are resolved. Nothing
        is changed past the point of exit. */
    method Normalize(atLeast: (Float, Float) -> bool) returns (exit: Option<nat>)
      modifies this`columns, this`xIndex, this`xIsTimestamp
      ensures columns == NormalizedColumns(numColumns, old(columns))
      ensures exit.Some? <==> InvertedRange(yMin, yMax, atLeast) || ResolveIndex(old(xIndex), tIndex) == Conflict
      ensures exit.Some? ==> exit.value == 1 && xIndex == old(xIndex) && xIsTimestamp == old(xIsTimestamp)
      ensures exit.None? ==> Resolved(xIndex, xIsTimestamp) == ResolveIndex(old(xIndex), tIndex)
    {
      NormalizeColumns();

      if yMin.Some? && yMax.Some? {
        if atLeast(yMin.value, yMax.value) {
          return Some(1);
        }
      }

      if xIndex != -1 {
        if tIndex != -1 {
          return Some(1);
        }
        xIsTimestamp := false;
      } else {
        if tIndex >= 0 {
          xIndex := tIndex;
        }
        xIsTimestamp := true;
      }
      return None;
    }
  }
}
