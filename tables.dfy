/**
 * Decoded tables and the value-level meaning of the numeric normaliser:
 * what happens to one cell, to one column and to a list of columns.
 */
module Tables {
  import opened Wrappers
  import opened Sequences
  import opened Strings
  import opened Decimals

  /**
   * A cell of a decoded table: text, a number that the CSV reader already
   * recognised or that the normaliser produced, or a missing value (NaN).
   */
  datatype Cell = Text(text: string) | Number(value: Decimal) | Null

  /** A record: column name to cell (one entry of `to_dict(orient='records')`). */
  type Row = map<string, Cell>

  datatype Table = Table(columns: seq<string>, rows: seq<Row>)

  /** Column names are unique and every row has exactly the table's columns. */
  predicate WellFormed(t: Table) {
    && Distinct(t.columns)
    && forall k :: 0 <= k < |t.rows| ==> t.rows[k].Keys == set c | c in t.columns
  }

  /** A table as the CSV reader produces it. */
  type Frame = t: Table | WellFormed(t) witness Table([], [])

  /** `astype(str)`: text stays, a number is written plainly, a missing value reads `nan`. */
  function Render(c: Cell): string {
    match c
    case Text(s) => s
    case Number(d) => Format(d)
    case Null => "nan"
  }

  /** First step of the normaliser: the cell as a string with every `.` deleted. */
  function StripThousands(c: Cell): Cell {
    Text(RemoveAll(Render(c), '.'))
  }

  /** Second step: every `,` of a string cell becomes `.`; `.str` gives NaN on a non-string. */
  function CommaToPoint(c: Cell): Cell {
    match c
    case Text(s) => Text(ReplaceAll(s, ',', '.'))
    case _ => Null
  }

  /** Third step, `pd.to_numeric(errors='coerce')`: a number, or a missing value when the text is none. */
  function ToNumeric(c: Cell): Cell {
    match c
    case Text(s) => (match Parse(s) case Some(d) => Number(d) case None => Null)
    case _ => c
  }

  /** The three steps on one cell. */
  function NormaliseCell(c: Cell): Cell {
    ToNumeric(CommaToPoint(StripThousands(c)))
  }

  /** One step applied to every cell of a column (a vectorised pandas operation). */
  function MapCells(cells: seq<Cell>, f: Cell -> Cell): (r: seq<Cell>)
    ensures |r| == |cells| && forall k :: 0 <= k < |cells| ==> r[k] == f(cells[k])
  {
    seq(|cells|, k requires 0 <= k < |cells| => f(cells[k]))
  }

  /** The cells of column `col`, row by row (`df[col]`). */
  function ColumnOf(t: Table, col: string): (cells: seq<Cell>)
    requires WellFormed(t) && col in t.columns
    ensures |cells| == |t.rows| && forall k :: 0 <= k < |t.rows| ==> cells[k] == t.rows[k][col]
  {
    seq(|t.rows|, k requires 0 <= k < |t.rows| => t.rows[k][col])
  }

  /** Column `col` replaced by `cells` (`df[col] = cells`); every other cell as it was. */
  function WithColumn(t: Table, col: string, cells: seq<Cell>): (r: Table)
    requires WellFormed(t) && col in t.columns && |cells| == |t.rows|
    ensures WellFormed(r) && r.columns == t.columns && |r.rows| == |t.rows|
    ensures forall k :: 0 <= k < |t.rows| ==> r.rows[k] == t.rows[k][col := cells[k]]
  {
    Table(t.columns, seq(|t.rows|, k requires 0 <= k < |t.rows| => t.rows[k][col := cells[k]]))
  }

  /** Every cell of column `col` normalised, every other cell as it was. */
  function NormaliseColumn(t: Table, col: string): (r: Table)
    requires WellFormed(t) && col in t.columns
    ensures WellFormed(r) && r.columns == t.columns && |r.rows| == |t.rows|
  {
    var rows := seq(|t.rows|, k requires 0 <= k < |t.rows| => t.rows[k][col := NormaliseCell(t.rows[k][col])]);
    Table(t.columns, rows)
  }

  /** The columns `cols` normalised one after the other, in the order given. */
  function NormaliseColumns(t: Table, cols: seq<string>): (r: Table)
    requires WellFormed(t) && forall c :: c in cols ==> c in t.columns
    ensures WellFormed(r) && r.columns == t.columns && |r.rows| == |t.rows|
    decreases |cols|
  {
    if cols == [] then t
    else NormaliseColumn(NormaliseColumns(t, cols[..|cols| - 1]), cols[|cols| - 1])
  }

  /** The three column reassignments together normalise the column. */
  lemma ThreeStepsNormalise(t: Table, col: string)
    requires WellFormed(t) && col in t.columns
    ensures var t1 := WithColumn(t, col, MapCells(ColumnOf(t, col), StripThousands));
            var t2 := WithColumn(t1, col, MapCells(ColumnOf(t1, col), CommaToPoint));
            WithColumn(t2, col, MapCells(ColumnOf(t2, col), ToNumeric)) == NormaliseColumn(t, col)
  {
    var t1 := WithColumn(t, col, MapCells(ColumnOf(t, col), StripThousands));
    var t2 := WithColumn(t1, col, MapCells(ColumnOf(t1, col), CommaToPoint));
    var t3 := WithColumn(t2, col, MapCells(ColumnOf(t2, col), ToNumeric));
    var n := NormaliseColumn(t, col);
    forall k | 0 <= k < |t.rows|
      ensures t3.rows[k] == n.rows[k]
    {
      assert t1.rows[k][col] == StripThousands(t.rows[k][col]);
      assert t2.rows[k][col] == CommaToPoint(StripThousands(t.rows[k][col]));
      assert t3.rows[k] == t.rows[k][col := NormaliseCell(t.rows[k][col])];
    }
  }

  /**
   * What normalising a list of distinct columns does to a cell: a cell of a
   * listed column is normalised (exactly once), a cell of any other column
   * is left as it was.
   */
  lemma {:induction false} NormaliseColumnsCell(t: Table, cols: seq<string>, k: nat, c: string)
    requires WellFormed(t) && forall x :: x in cols ==> x in t.columns
    requires Distinct(cols)
    requires k < |t.rows| && c in t.columns
    ensures c in NormaliseColumns(t, cols).rows[k]
    ensures NormaliseColumns(t, cols).rows[k][c]
         == if c in cols then NormaliseCell(t.rows[k][c]) else t.rows[k][c]
    decreases |cols|
  {
    if cols != [] {
      var init := cols[..|cols| - 1];
      assert Distinct(init);
      NormaliseColumnsCell(t, init, k, c);
      assert c in cols <==> c in init || c == cols[|cols| - 1];
      assert c == cols[|cols| - 1] ==> c !in init;
    }
  }

  /** A cell outside the listed columns is never touched, repeated names or not. */
  lemma {:induction false} NormaliseColumnsOthers(t: Table, cols: seq<string>, k: nat, c: string)
    requires WellFormed(t) && forall x :: x in cols ==> x in t.columns
    requires k < |t.rows| && c in t.columns && c !in cols
    ensures NormaliseColumns(t, cols).rows[k][c] == t.rows[k][c]
    decreases |cols|
  {
    if cols != [] {
      NormaliseColumnsOthers(t, cols[..|cols| - 1], k, c);
    }
  }

  /** A normalised cell is a number or missing; it is a number exactly when the rewritten text is in the grammar. */
  lemma NormaliseCellOutcome(c: Cell)
    ensures NormaliseCell(c).Number? || NormaliseCell(c).Null?
    ensures NormaliseCell(c).Number? <==> InGrammar(Rewrite(Render(c)))
    ensures NormaliseCell(c).Number? ==> Parse(Rewrite(Render(c))) == Some(NormaliseCell(c).value)
  {
    ParseIffGrammar(Rewrite(Render(c)));
  }

  /** A text cell in the Brazilian convention is read as the number it writes. */
  lemma NormaliseBrazilian(d: Decimal)
    ensures NormaliseCell(Text(FormatBR(d))) == Number(d)
  {
    BrazilianRoundTrip(d);
  }

  /** An ungrouped Brazilian number (`1234,56`) normalises to the digits read together at the fraction's scale. */
  lemma NormaliseUngrouped(ip: string, fp: string)
    requires |ip| > 0 && AllDigits(ip) && AllDigits(fp)
    ensures AllDigits(ip + fp)
    ensures NormaliseCell(Text(ip + ("," + fp))) == Number(Decimal(DigitsValue(ip + fp), |fp|))
  {
    RewriteUngrouped(ip, fp);
    ParsePointed(ip, fp);
    NormaliseText(ip + ("," + fp));
  }

  /** Two or more commas give two or more decimal points, hence a missing value. */
  lemma NormaliseTwoCommas(s: string)
    requires Count(s, ',') >= 2
    ensures NormaliseCell(Text(s)) == Null
  {
    RewriteCounts(s);
    TwoPointsNoNumber(Rewrite(s));
  }

  /** A text cell is normalised by parsing its rewritten text. */
  lemma NormaliseText(s: string)
    ensures NormaliseCell(Text(s)) == match Parse(Rewrite(s)) case Some(d) => Number(d) case None => Null
  {
  }

  /** `1.234,56` is one thousand two hundred and thirty-four and 56 hundredths. */
  lemma NormaliseExampleThousands()
    ensures NormaliseCell(Text("1.234,56")) == Number(Decimal(123456, 2))
  {
    RewriteExampleThousands();
    ParseExampleThousands();
    NormaliseText("1.234,56");
  }

  /** `1234,56`, written without a thousands mark, is the same number as `1.234,56`. */
  lemma NormaliseExampleUngrouped()
    ensures NormaliseCell(Text("1234,56")) == Number(Decimal(123456, 2))
  {
    RewriteUngrouped("1234", "56");
    assert "1234" + ("," + "56") == "1234,56";
    assert "1234" + ("." + "56") == "1234.56";
    ParseExampleThousands();
    NormaliseText("1234,56");
  }

  /** `0,10` keeps its two fraction digits; `1.5` is fifteen, since a point is never a decimal point. */
  lemma NormaliseExamplesShort()
    ensures NormaliseCell(Text("0,10")) == Number(Decimal(10, 2))
    ensures NormaliseCell(Text("1.5")) == Number(Decimal(15, 0))
  {
    RewriteExampleCents();
    RewriteExamplesShort();
    ParseExampleCents();
    ParseExamplesOther();
    NormaliseText("0,10");
    NormaliseText("1.5");
  }

  /** The empty string and a word are no numbers. */
  lemma NormaliseExamplesNull()
    ensures NormaliseCell(Text("")) == Null
    ensures NormaliseCell(Text("abc")) == Null
  {
    RewriteExamplesShort();
    ParseExamplesOther();
    NormaliseText("abc");
  }

  /** `1,2,3` has two commas, hence two points after the rewrite, so it is no number. */
  lemma NormaliseExampleCommas()
    ensures NormaliseCell(Text("1,2,3")) == Null
  {
    assert Count("1,2,3", ',') == 2;
    NormaliseTwoCommas("1,2,3");
  }

  /**
   * Normalising is not idempotent, which is why each column must be
   * normalised exactly once: `1,5` becomes 1.5, whose plain text `1.5`
   * would be read again as fifteen.
   */
  lemma NormaliseTwice()
    ensures NormaliseCell(Text("1,5")) == Number(Decimal(15, 1))
    ensures NormaliseCell(NormaliseCell(Text("1,5"))) == Number(Decimal(15, 0))
  {
    assert Rewrite("1,5") == "1.5";
    FormatExample();
    NormaliseText("1,5");
    RewriteExamplesShort();
    ParseExamplesOther();
    NormaliseText("1.5");
  }
}
