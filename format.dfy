/**
 * The table printer of the query console (`format_results`). A query result is a
 * list of column names and a list of rows of cells. Each column is as wide as the
 * widest of its name and the cells counted for it. The header and every row are
 * padded cell by cell to those widths and joined with " | ", and a line of dashes
 * as long as the header separates them.
 */
module ResultFormat {
  import opened Text

  /** A cell of a result row: SQL NULL, or a value with its `str()` text and its truthiness. */
  datatype Cell = Null | Val(text: String, truthy: bool)

  /** The text a cell prints as. */
  function Shown(c: Cell): String
  {
    if c.Null? then "NULL" else c.text
  }

  /** `len(str(val)) if val else 0`: NULL and falsy values (0, 0.0, '') count as width 0. */
  function Counted(c: Cell): nat
  {
    if c.Val? && c.truthy then |c.text| else 0
  }

  /** The width of what a cell prints, whatever its truthiness. */
  function Fitted(c: Cell): nat
  {
    |Shown(c)|
  }

  /** Every row has one cell per column, as the database cursor guarantees. */
  predicate Rectangular(columns: seq<String>, rows: seq<seq<Cell>>)
  {
    forall k :: 0 <= k < |rows| ==> |rows[k]| == |columns|
  }

  function Max(a: nat, b: nat): nat
  {
    if a < b then b else a
  }

  /** The width of column `i` with header `header` over `rows`, each cell measured by `measure`. */
  function ColumnWidth(rows: seq<seq<Cell>>, header: String, i: nat, measure: Cell -> nat): nat
    requires forall k :: 0 <= k < |rows| ==> i < |rows[k]|
    decreases |rows|
  {
    if rows == [] then |header|
    else Max(ColumnWidth(rows[..|rows| - 1], header, i, measure), measure(rows[|rows| - 1][i]))
  }

  /**
   * A column is exactly as wide as the widest of its header and its measured cells:
   * at least each of them, and equal to one of them.
   */
  lemma {:induction false} ColumnWidthIsMax(rows: seq<seq<Cell>>, header: String, i: nat, measure: Cell -> nat)
    requires forall k :: 0 <= k < |rows| ==> i < |rows[k]|
    ensures ColumnWidth(rows, header, i, measure) >= |header|
    ensures forall k :: 0 <= k < |rows| ==> ColumnWidth(rows, header, i, measure) >= measure(rows[k][i])
    ensures ColumnWidth(rows, header, i, measure) == |header| ||
      exists k :: 0 <= k < |rows| && ColumnWidth(rows, header, i, measure) == measure(rows[k][i])
    decreases |rows|
  {
    if rows != [] {
      var n := |rows| - 1;
      var front := rows[..n];
      assert forall k :: 0 <= k < n ==> front[k] == rows[k];
      ColumnWidthIsMax(front, header, i, measure);
      var w := ColumnWidth(front, header, i, measure);
      if w != |header| && w >= measure(rows[n][i]) {
        var k :| 0 <= k < n && w == measure(front[k][i]);
        assert ColumnWidth(rows, header, i, measure) == measure(rows[k][i]);
      }
    }
  }

  /** One more row widens each column to that row's cell when the cell is wider. */
  lemma ColumnWidthNext(rows: seq<seq<Cell>>, r: nat, header: String, i: nat, measure: Cell -> nat)
    requires r < |rows| && forall k :: 0 <= k < |rows| ==> i < |rows[k]|
    ensures ColumnWidth(rows[..r + 1], header, i, measure) ==
      Max(ColumnWidth(rows[..r], header, i, measure), measure(rows[r][i]))
  {
    assert rows[..r + 1][..r] == rows[..r];
  }

  /** The widths of all columns. */
  function Widths(columns: seq<String>, rows: seq<seq<Cell>>, measure: Cell -> nat): (r: seq<nat>)
    requires Rectangular(columns, rows)
    ensures |r| == |columns|
    ensures forall i :: 0 <= i < |columns| ==> r[i] == ColumnWidth(rows, columns[i], i, measure)
  {
    seq(|columns|, i requires 0 <= i < |columns| && Rectangular(columns, rows) => ColumnWidth(rows, columns[i], i, measure))
  }

  /**
   * The width computation of `format_results`: the header lengths, then row by row
   * and cell by cell each width raised to the counted width of the cell.
   */
  method ComputeWidths(columns: seq<String>, rows: seq<seq<Cell>>) returns (widths: seq<nat>)
    requires Rectangular(columns, rows)
    ensures widths == Widths(columns, rows, Counted)
  {
    widths := seq(|columns|, i requires 0 <= i < |columns| => |columns[i]|);
    var r := 0;
    while r < |rows|
      invariant 0 <= r <= |rows| && |widths| == |columns|
      invariant forall j :: 0 <= j < |columns| ==> widths[j] == ColumnWidth(rows[..r], columns[j], j, Counted)
    {
      var row := rows[r];
      var i := 0;
      while i < |row|
        invariant 0 <= i <= |row| && |widths| == |columns|
        invariant forall j :: 0 <= j < i ==> widths[j] == ColumnWidth(rows[..r + 1], columns[j], j, Counted)
        invariant forall j :: i <= j < |columns| ==> widths[j] == ColumnWidth(rows[..r], columns[j], j, Counted)
      {
        ColumnWidthNext(rows, r, columns[i], i, Counted);
        widths := widths[i := Max(widths[i], Counted(row[i]))];
        i := i + 1;
      }
      r := r + 1;
    }
    assert rows[..r] == rows;
  }

  /** Each text padded with spaces to the width of its column. */
  function Padded(texts: seq<String>, widths: seq<nat>): (r: seq<String>)
    requires |texts| == |widths|
    ensures |r| == |texts| && forall i :: 0 <= i < |r| ==> r[i] == LJust(texts[i], widths[i])
  {
    seq(|texts|, i requires 0 <= i < |texts| && |texts| == |widths| => LJust(texts[i], widths[i]))
  }

  /** One printed line: the padded texts joined with " | ". */
  function Line(texts: seq<String>, widths: seq<nat>): String
    requires |texts| == |widths|
  {
    Join(Padded(texts, widths), " | ")
  }

  /** The printed texts of a row's cells. */
  function ShownRow(row: seq<Cell>): (r: seq<String>)
    ensures |r| == |row| && forall i :: 0 <= i < |r| ==> r[i] == Shown(row[i])
  {
    seq(|row|, i requires 0 <= i < |row| => Shown(row[i]))
  }

  /** The printed lines of all rows. */
  function RowLines(rows: seq<seq<Cell>>, widths: seq<nat>): (r: seq<String>)
    requires forall k :: 0 <= k < |rows| ==> |rows[k]| == |widths|
    ensures |r| == |rows| && forall k :: 0 <= k < |r| ==> r[k] == Line(ShownRow(rows[k]), widths)
  {
    seq(|rows|, k requires 0 <= k < |rows| && forall k :: 0 <= k < |rows| ==> |rows[k]| == |widths| =>
      Line(ShownRow(rows[k]), widths))
  }

  /** The whole table for given widths: header, dashes as long as the header, then the rows. */
  function Render(columns: seq<String>, rows: seq<seq<Cell>>, widths: seq<nat>): String
    requires Rectangular(columns, rows) && |widths| == |columns|
  {
    if rows == [] then "No results found."
    else
      var header := Line(columns, widths);
      header + "\n" + Repeat('-', |header|) + "\n" + Join(RowLines(rows, widths), "\n")
  }

  /** `format_results` as written: widths from the counted cells. */
  function Format(columns: seq<String>, rows: seq<seq<Cell>>): String
    requires Rectangular(columns, rows)
  {
    Render(columns, rows, Widths(columns, rows, Counted))
  }

  /** `format_results`: the widths, then the header, the separator and one line per row. */
  method FormatResults(columns: seq<String>, rows: seq<seq<Cell>>) returns (out: String)
    requires Rectangular(columns, rows)
    ensures out == Format(columns, rows)
  {
    if rows == [] {
      return "No results found.";
    }
    var widths := ComputeWidths(columns, rows);
    var header := Line(columns, widths);
    var separator := Repeat('-', |header|);
    var lines: seq<String> := [];
    var k := 0;
    while k < |rows|
      invariant 0 <= k <= |rows|
      invariant |lines| == k && forall j :: 0 <= j < k ==> lines[j] == Line(ShownRow(rows[j]), widths)
    {
      lines := lines + [Line(ShownRow(rows[k]), widths)];
      k := k + 1;
    }
    assert lines == RowLines(rows, widths);
    out := header + "\n" + separator + "\n" + Join(lines, "\n");
  }

  /** An empty result prints the fixed message and no table. */
  lemma FormatEmpty(columns: seq<String>)
    ensures Format(columns, []) == "No results found."
  {
  }

  /**
   * A non-empty result starts with the header line, then a separator of dashes exactly
   * as long as the header, each followed by a line break.
   */
  lemma FormatLayout(columns: seq<String>, rows: seq<seq<Cell>>)
    requires Rectangular(columns, rows) && rows != []
    ensures var f := Format(columns, rows);
      var h := Line(columns, Widths(columns, rows, Counted));
      && |f| >= 2 * |h| + 2
      && f[..|h|] == h
      && f[|h|] == '\n'
      && (forall i :: |h| < i <= 2 * |h| ==> f[i] == '-')
      && f[2 * |h| + 1] == '\n'
  {
    var f := Format(columns, rows);
    var h := Line(columns, Widths(columns, rows, Counted));
    var sep := Repeat('-', |h|);
    var body := Join(RowLines(rows, Widths(columns, rows, Counted)), "\n");
    assert f == h + "\n" + sep + "\n" + body;
    forall i | |h| < i <= 2 * |h|
      ensures f[i] == '-'
    {
      assert f[i] == sep[i - |h| - 1];
    }
  }

  /** A NULL cell prints as `NULL`, padded to the width of its column. */
  lemma NullPrintsNull(row: seq<Cell>, widths: seq<nat>, i: nat)
    requires |row| == |widths| && i < |row| && row[i].Null?
    ensures var p := Padded(ShownRow(row), widths)[i];
      p[..4] == "NULL" && |p| == Max(4, widths[i]) && forall j :: 4 <= j < |p| ==> p[j] == ' '
  {
  }

  /** Texts padded to widths that hold them all have exactly those widths, so their joins have the same length. */
  lemma {:induction false} JoinSameLengths(a: seq<String>, b: seq<String>, sep: String)
    requires |a| == |b| && forall i :: 0 <= i < |a| ==> |a[i]| == |b[i]|
    ensures |Join(a, sep)| == |Join(b, sep)|
    decreases |a|
  {
    if |a| > 1 {
      JoinSameLengths(a[1..], b[1..], sep);
    }
  }

  /**
   * When every column is at least as wide as every cell it prints, each row line is
   * exactly as long as the header line, cell boundaries included.
   */
  lemma RowAligned(columns: seq<String>, row: seq<Cell>, widths: seq<nat>)
    requires |row| == |columns| == |widths|
    requires forall i :: 0 <= i < |columns| ==> |columns[i]| <= widths[i] && |Shown(row[i])| <= widths[i]
    ensures |Line(ShownRow(row), widths)| == |Line(columns, widths)|
    ensures forall i :: 0 <= i < |row| ==>
      |Padded(ShownRow(row), widths)[i]| == |Padded(columns, widths)[i]| == widths[i]
  {
    JoinSameLengths(Padded(ShownRow(row), widths), Padded(columns, widths), " | ");
  }

  /**
   * Widths from the printed texts: every row of a non-empty result lines up with the
   * header, whatever its NULL and falsy cells.
   */
  lemma FittedAligned(columns: seq<String>, rows: seq<seq<Cell>>, k: nat)
    requires Rectangular(columns, rows) && k < |rows|
    ensures var w := Widths(columns, rows, Fitted);
      |Line(ShownRow(rows[k]), w)| == |Line(columns, w)|
  {
    var w := Widths(columns, rows, Fitted);
    forall i | 0 <= i < |columns|
      ensures |columns[i]| <= w[i] && |Shown(rows[k][i])| <= w[i]
    {
      ColumnWidthIsMax(rows, columns[i], i, Fitted);
    }
    RowAligned(columns, rows[k], w);
  }

  /** As written, rows line up with the header when every cell is a truthy value. */
  lemma CountedAlignedWhenTruthy(columns: seq<String>, rows: seq<seq<Cell>>, k: nat)
    requires Rectangular(columns, rows) && k < |rows|
    requires forall j, i :: 0 <= j < |rows| && 0 <= i < |rows[j]| ==> rows[j][i].Val? && rows[j][i].truthy
    ensures var w := Widths(columns, rows, Counted);
      |Line(ShownRow(rows[k]), w)| == |Line(columns, w)|
  {
    var w := Widths(columns, rows, Counted);
    forall i | 0 <= i < |columns|
      ensures |columns[i]| <= w[i] && |Shown(rows[k][i])| <= w[i]
    {
      ColumnWidthIsMax(rows, columns[i], i, Counted);
    }
    RowAligned(columns, rows[k], w);
  }

  /**
   * As written, a NULL under a header shorter than `NULL` is not counted, so its row
   * is longer than the header: column `hp` over one NULL prints `hp` above `NULL`.
   */
  lemma CountedMisalignsNull()
    ensures var columns := ["hp"];
      var rows := [[Null]];
      var w := Widths(columns, rows, Counted);
      w == [2] && Line(columns, w) == "hp" && Line(ShownRow(rows[0]), w) == "NULL"
  {
    var columns := ["hp"];
    var rows := [[Null]];
    var w := Widths(columns, rows, Counted);
    assert rows[..0] == [];
    assert w[0] == 2;
    assert Padded(columns, w) == ["hp"];
    assert Padded(ShownRow(rows[0]), w) == ["NULL"];
  }
}
