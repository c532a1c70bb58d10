/**
 * The numeric normaliser as the source runs it: a data frame whose columns
 * are reassigned in place, three times per listed column.
 */
module Normaliser {
  import opened Wrappers
  import opened Tables

  /** A pandas data frame: its column index and its rows as records. */
  class DataFrame {
    var columns: seq<string>
    var rows: seq<Row>

    ghost predicate Valid()
      reads this
    {
      WellFormed(Table(columns, rows))
    }

    /** The frame's contents as a value. */
    function Contents(): Table
      reads this
    {
      Table(columns, rows)
    }

    /** A frame holding the table the CSV reader produced. */
    constructor (t: Frame)
      ensures Valid() && Contents() == t
    {
      columns := t.columns;
      rows := t.rows;
    }

    /** `df[col]` for a column the frame has: its cells, row by row. */
    function Column(col: string): (cells: seq<Cell>)
      reads this
      requires Valid() && col in columns
      ensures cells == ColumnOf(Contents(), col)
    {
      var rs := rows;
      seq(|rs|, k requires 0 <= k < |rs| => rs[k][col])
    }

    /** `df[col] = cells` for a column the frame has: that column replaced, nothing else. */
    method Assign(col: string, cells: seq<Cell>)
      requires Valid() && col in columns && |cells| == |rows|
      modifies this
      ensures Valid() && Contents() == WithColumn(old(Contents()), col, cells)
    {
      rows := WithColumn(Contents(), col, cells).rows;
    }

    /** `df.to_dict(orient='records')`. */
    function Records(): seq<Row>
      reads this
    {
      rows
    }
  }

  /**
   * Number of leading names of `cols` that are columns of the frame: where
   * `df[col]` raises `KeyError`, or `|cols|` when it never does.
   */
  function PresentPrefix(cols: seq<string>, columns: seq<string>): (n: nat)
    ensures n <= |cols|
    ensures forall j :: 0 <= j < n ==> cols[j] in columns
    ensures n < |cols| ==> cols[n] !in columns
  {
    if cols == [] || cols[0] !in columns then 0 else 1 + PresentPrefix(cols[1..], columns)
  }

  /**
   * One turn of the loop in `tratar_valores_numericos`, for a column the
   * frame has: `df[col]` reassigned three times in place.
   */
  method NormaliseInPlace(df: DataFrame, col: string)
    requires df.Valid() && col in df.columns
    modifies df
    ensures df.Valid() && df.columns == old(df.columns)
    ensures df.Contents() == NormaliseColumn(old(df.Contents()), col)
  {
    ghost var before := df.Contents();
    var cells := df.Column(col);
    df.Assign(col, MapCells(cells, StripThousands));
    cells := df.Column(col);
    df.Assign(col, MapCells(cells, CommaToPoint));
    cells := df.Column(col);
    df.Assign(col, MapCells(cells, ToNumeric));
    ThreeStepsNormalise(before, col);
  }

  /**
   * `tratar_valores_numericos(df, colunas)`. Each listed column is rewritten
   * in place: as strings with `.` deleted, then with `,` turned into `.`,
   * then parsed as numbers with failures becoming missing values. A name the
   * frame lacks stops the loop with that name (the `KeyError`), leaving the
   * columns before it already rewritten.
   */
  method TreatNumericValues(df: DataFrame, cols: seq<string>) returns (missing: Option<string>)
    requires df.Valid()
    modifies df
    ensures df.Valid() && df.columns == old(df.columns)
    ensures var n := PresentPrefix(cols, old(df.columns));
      && missing == (if n < |cols| then Some(cols[n]) else None)
      && df.Contents() == NormaliseColumns(old(df.Contents()), cols[..n])
  {
    ghost var start := df.Contents();
    var i := 0;
    while i < |cols|
      invariant 0 <= i <= |cols|
      invariant df.Valid() && df.columns == start.columns
      invariant forall j :: 0 <= j < i ==> cols[j] in df.columns
      invariant df.Contents() == NormaliseColumns(start, cols[..i])
    {
      var col := cols[i];
      if col !in df.columns {
        missing := Some(col);
        return;
      }
      NormaliseInPlace(df, col);
      assert cols[..i + 1][..i] == cols[..i];
      i := i + 1;
    }
    assert cols[..i] == cols;
    missing := None;
  }
}
