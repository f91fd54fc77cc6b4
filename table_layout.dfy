/**
 * The grid-table layout of `visit_table`: column widths gathered over the
 * rendered cells, the `+---+` borders, and the `| ... |` lines of a row
 * (`append_row`), as pure functions of the rendered cells.
 */
module TableLayout {
  import opened Strings

  /** The lines one table entry rendered to. */
  type Cell = seq<string>
  type Row = seq<Cell>

  function Max(a: int, b: int): int {
    if a >= b then a else b
  }

  /** `max([len(line) for line in cell])`, taken as 0 for a cell without lines. */
  function MaxLen(cell: Cell): (m: nat)
    ensures forall k :: 0 <= k < |cell| ==> |cell[k]| <= m
    ensures |cell| > 0 ==> exists k :: 0 <= k < |cell| && |cell[k]| == m
  {
    if cell == [] then 0
    else
      var m := MaxLen(cell[1..]);
      assert forall k :: 1 <= k < |cell| ==> cell[k] == cell[1..][k - 1];
      if |cell[0]| >= m then |cell[0]| else m
  }

  /** `len([0] * cols)`: Python repeats a list zero times for a count that is not positive. */
  function Slots(cols: int): nat {
    if cols > 0 then cols else 0
  }

  /** `[0] * cols`. */
  function Zeros(cols: int): (w: seq<int>)
    ensures |w| == Slots(cols)
    ensures forall i :: 0 <= i < |w| ==> w[i] == 0
  {
    seq(Slots(cols), i => 0)
  }

  /** One step of `widths[i] = max(widths[i], max(len(line) for line in cell) + 2)`. */
  function Widen(w: seq<int>, i: nat, cell: Cell): seq<int>
    requires i < |w|
  {
    w[i := Max(w[i], MaxLen(cell) + 2)]
  }

  /** The widths after the entries of one row, left to right. */
  function WidenRow(w: seq<int>, row: Row): (r: seq<int>)
    requires |row| <= |w|
    ensures |r| == |w|
  {
    if row == [] then w
    else Widen(WidenRow(w, row[..|row| - 1]), |row| - 1, row[|row| - 1])
  }

  /** Every row has at most `cols` entries (otherwise `widths[i]` raised). */
  predicate Fits(table: seq<Row>, cols: int) {
    forall r :: 0 <= r < |table| ==> |table[r]| <= Slots(cols)
  }

  /** The widths after all rows, starting from `[0] * cols`. */
  function ColumnWidths(table: seq<Row>, cols: int): (w: seq<int>)
    requires Fits(table, cols)
    ensures |w| == |Zeros(cols)|
  {
    if table == [] then Zeros(cols)
    else WidenRow(ColumnWidths(table[..|table| - 1], cols), table[|table| - 1])
  }

  /** Line `k` of entry `e`, padded to `w` characters: ' ' + text + spaces, or all spaces. */
  function CellLine(e: Cell, k: nat, w: int): string {
    if k < |e| then " " + e[k] + Repeat(' ', w - |e[k]| - 1) else Repeat(' ', w)
  }

  /** '|' followed by the first `n` entries' line `k`, each closed by '|'. */
  function CellsLine(row: Row, widths: seq<int>, k: nat, n: nat): string
    requires n <= |row| <= |widths|
  {
    if n == 0 then "|" else CellsLine(row, widths, k, n - 1) + CellLine(row[n - 1], k, widths[n - 1]) + "|"
  }

  function RowLine(row: Row, widths: seq<int>, k: nat): string
    requires |row| <= |widths|
  {
    CellsLine(row, widths, k, |row|)
  }

  /** `max([len(e) for e in row])`: the height of a row, 0 for no entries. */
  function LineCount(row: Row): (m: nat)
    ensures forall i :: 0 <= i < |row| ==> |row[i]| <= m
    ensures |row| > 0 ==> exists i :: 0 <= i < |row| && |row[i]| == m
  {
    if row == [] then 0
    else
      var m := LineCount(row[1..]);
      assert forall i :: 1 <= i < |row| ==> row[i] == row[1..][i - 1];
      if |row[0]| >= m then |row[0]| else m
  }

  /** What `append_row(row)` returns. */
  function RowLines(row: Row, widths: seq<int>): (r: seq<string>)
    requires |row| <= |widths|
  {
    seq(LineCount(row), k requires 0 <= k < LineCount(row) => RowLine(row, widths, k))
  }

  /** '+' followed, per width, by `width` copies of `ch` and a '+'. */
  function BorderWith(widths: seq<int>, ch: char): string {
    if widths == [] then "+"
    else BorderWith(widths[..|widths| - 1], ch) + Repeat(ch, widths[|widths| - 1]) + "+"
  }

  /** The separator `sep` built from the widths. */
  function Border(widths: seq<int>): string {
    BorderWith(widths, '-')
  }

  /** `sep.replace('-', '=')`, the separator below the header row. */
  function HeaderBorder(widths: seq<int>): string {
    ReplaceChar(Border(widths), '-', '=')
  }

  /** Each body row's lines followed by a separator, rows in order. */
  function BodyLines(rows: seq<Row>, widths: seq<int>): seq<string>
    requires forall r :: 0 <= r < |rows| ==> |rows[r]| <= |widths|
  {
    if rows == [] then []
    else BodyLines(rows[..|rows| - 1], widths) + RowLines(rows[|rows| - 1], widths) + [Border(widths)]
  }

  /** Everything `visit_table` appends once the cells are rendered and the widths known. */
  function Block(table: seq<Row>, widths: seq<int>): seq<string>
    requires |table| > 0
    requires forall r :: 0 <= r < |table| ==> |table[r]| <= |widths|
  {
    [""] + [Border(widths)] + RowLines(table[0], widths) + [HeaderBorder(widths)]
    + BodyLines(table[1..], widths) + [""]
  }

  /** One plus the sum of `width + 1` over the widths: the length of a full table line. */
  function LineWidth(widths: seq<int>): int {
    if widths == [] then 1 else LineWidth(widths[..|widths| - 1]) + widths[|widths| - 1] + 1
  }

  predicate NonNegative(widths: seq<int>) {
    forall i :: 0 <= i < |widths| ==> widths[i] >= 0
  }

  // ---------------------------------------------------------------------------
  // Column widths

  /** One more entry in a row widens its own column only. */
  lemma WidenRowSnoc(w: seq<int>, row: Row, cell: Cell)
    requires |row| < |w|
    ensures WidenRow(w, row + [cell]) == Widen(WidenRow(w, row), |row|, cell)
  {
    assert (row + [cell])[..|row|] == row;
  }

  lemma {:induction false} WidenRowAt(w: seq<int>, row: Row, i: nat)
    requires |row| <= |w| && i < |w|
    ensures WidenRow(w, row)[i] == if i < |row| then Max(w[i], MaxLen(row[i]) + 2) else w[i]
    decreases |row|
  {
    if row != [] {
      var front := row[..|row| - 1];
      WidenRowAt(w, front, i);
      if i < |front| { assert row[i] == front[i]; }
    }
  }

  /**
   * `widths[i]` is the largest `max(len(line)) + 2` over the entries in column
   * `i`, or 0 when no row has an entry there: it covers every line of every
   * entry in the column and is reached by one of them.
   */
  lemma ColumnWidthsExact(table: seq<Row>, cols: int, i: nat)
    requires Fits(table, cols) && i < |Zeros(cols)|
    ensures ColumnWidths(table, cols)[i] >= 0
    ensures forall r, k :: 0 <= r < |table| && i < |table[r]| && 0 <= k < |table[r][i]| ==>
              |table[r][i][k]| + 2 <= ColumnWidths(table, cols)[i]
    ensures ColumnWidths(table, cols)[i] == 0 ||
            exists r :: 0 <= r < |table| && i < |table[r]| && ColumnWidths(table, cols)[i] == MaxLen(table[r][i]) + 2
  {
    ColumnWidthsCover(table, cols, i);
    ColumnWidthsWitness(table, cols, i);
  }

  lemma FitsFront(table: seq<Row>, cols: int)
    requires Fits(table, cols) && table != []
    ensures Fits(table[..|table| - 1], cols)
  {
    var front := table[..|table| - 1];
    forall r | 0 <= r < |front| ensures |front[r]| <= Slots(cols) { assert front[r] == table[r]; }
  }

  /** Each width covers every line of its column plus the two spaces. */
  lemma {:induction false} ColumnWidthsCover(table: seq<Row>, cols: int, i: nat)
    requires Fits(table, cols) && i < |Zeros(cols)|
    ensures ColumnWidths(table, cols)[i] >= 0
    ensures forall r, k :: 0 <= r < |table| && i < |table[r]| && 0 <= k < |table[r][i]| ==>
              |table[r][i][k]| + 2 <= ColumnWidths(table, cols)[i]
    decreases |table|
  {
    if table != [] {
      var front := table[..|table| - 1];
      var last := table[|table| - 1];
      FitsFront(table, cols);
      ColumnWidthsCover(front, cols, i);
      WidenRowAt(ColumnWidths(front, cols), last, i);
      forall r, k | 0 <= r < |table| && i < |table[r]| && 0 <= k < |table[r][i]|
        ensures |table[r][i][k]| + 2 <= ColumnWidths(table, cols)[i]
      {
        if r < |front| { assert table[r] == front[r]; }
      }
    }
  }

  /** A width that is not 0 is the longest line of some entry of its column plus 2. */
  lemma {:induction false} ColumnWidthsWitness(table: seq<Row>, cols: int, i: nat)
    requires Fits(table, cols) && i < |Zeros(cols)|
    ensures ColumnWidths(table, cols)[i] == 0 ||
            exists r :: 0 <= r < |table| && i < |table[r]| && ColumnWidths(table, cols)[i] == MaxLen(table[r][i]) + 2
    decreases |table|
  {
    if table != [] {
      var front := table[..|table| - 1];
      var last := table[|table| - 1];
      FitsFront(table, cols);
      ColumnWidthsWitness(front, cols, i);
      var before := ColumnWidths(front, cols);
      var w := ColumnWidths(table, cols)[i];
      assert w == WidenRow(before, last)[i];
      WidenRowAt(before, last, i);
      if w != 0 {
        if i < |last| && w == MaxLen(last[i]) + 2 {
          assert table[|table| - 1] == last;
        } else {
          assert w == before[i];
          var r :| 0 <= r < |front| && i < |front[r]| && before[i] == MaxLen(front[r][i]) + 2;
          assert table[r] == front[r];
        }
      }
    }
  }


  // ---------------------------------------------------------------------------
  // Borders and row lines

  /** A border has the length of a full table line and holds only '+' and `ch`. */
  lemma {:induction false} BorderWithShape(widths: seq<int>, ch: char)
    requires NonNegative(widths)
    ensures |BorderWith(widths, ch)| == LineWidth(widths)
    ensures forall j :: 0 <= j < |BorderWith(widths, ch)| ==> BorderWith(widths, ch)[j] in {'+', ch}
  {
    if widths != [] {
      var front := widths[..|widths| - 1];
      BorderWithShape(front, ch);
    }
  }

  /** The header separator is the border drawn with '=' instead of '-'. */
  lemma {:induction false} HeaderBorderIsEquals(widths: seq<int>)
    ensures HeaderBorder(widths) == BorderWith(widths, '=')
  {
    if widths != [] {
      var front := widths[..|widths| - 1];
      var w := widths[|widths| - 1];
      HeaderBorderIsEquals(front);
      ReplaceAppend(BorderWith(front, '-'), Repeat('-', w) + "+", '-', '=');
      assert ReplaceChar(Repeat('-', w) + "+", '-', '=') == Repeat('=', w) + "+";
      assert BorderWith(widths, '-') == BorderWith(front, '-') + (Repeat('-', w) + "+");
    }
  }

  lemma ReplaceAppend(a: string, b: string, x: char, y: char)
    ensures ReplaceChar(a + b, x, y) == ReplaceChar(a, x, y) + ReplaceChar(b, x, y)
  {
  }

  lemma CellLineLength(e: Cell, k: nat, w: int)
    requires w >= 0
    requires k < |e| ==> |e[k]| + 1 <= w
    ensures |CellLine(e, k, w)| == w
  {
  }

  lemma {:induction false} CellsLineLength(row: Row, widths: seq<int>, k: nat, n: nat)
    requires n <= |row| <= |widths| && NonNegative(widths)
    requires forall i :: 0 <= i < n && k < |row[i]| ==> |row[i][k]| + 1 <= widths[i]
    ensures |CellsLine(row, widths, k, n)| == LineWidth(widths[..n])
  {
    if n > 0 {
      var before := CellsLine(row, widths, k, n - 1);
      var cell := CellLine(row[n - 1], k, widths[n - 1]);
      CellsLineLength(row, widths, k, n - 1);
      CellLineLength(row[n - 1], k, widths[n - 1]);
      assert CellsLine(row, widths, k, n) == before + cell + "|";
      assert widths[..n][..n - 1] == widths[..n - 1];
      assert LineWidth(widths[..n]) == LineWidth(widths[..n - 1]) + widths[n - 1] + 1;
    }
  }

  /**
   * `append_row` emits one line per line of its tallest entry; with widths that
   * cover its entries each line is as long as the border over its columns, and
   * as long as the whole border when the row fills every column.
   */
  lemma RowLinesShape(row: Row, widths: seq<int>)
    requires |row| <= |widths| && NonNegative(widths)
    requires forall i, k :: 0 <= i < |row| && 0 <= k < |row[i]| ==> |row[i][k]| + 1 <= widths[i]
    ensures |RowLines(row, widths)| == LineCount(row)
    ensures forall k :: 0 <= k < LineCount(row) ==> |RowLines(row, widths)[k]| == LineWidth(widths[..|row|])
    ensures |row| == |widths| ==> forall k :: 0 <= k < LineCount(row) ==> |RowLines(row, widths)[k]| == |Border(widths)|
  {
    forall k | 0 <= k < LineCount(row) ensures |RowLines(row, widths)[k]| == LineWidth(widths[..|row|]) {
      CellsLineLength(row, widths, k, |row|);
    }
    BorderWithShape(widths, '-');
    assert |row| == |widths| ==> widths[..|row|] == widths;
  }

  /** Line `k` of an entry shows that entry's own line `k` right after its opening space. */
  lemma CellLineShowsText(e: Cell, k: nat, w: int)
    requires k < |e|
    ensures CellLine(e, k, w)[..|e[k]| + 1] == " " + e[k]
  {
  }

  lemma {:induction false} BodyLinesCount(rows: seq<Row>, widths: seq<int>)
    requires forall r :: 0 <= r < |rows| ==> |rows[r]| <= |widths|
    ensures |BodyLines(rows, widths)| == RowsHeight(rows) + |rows|
  {
    if rows != [] {
      BodyLinesCount(rows[..|rows| - 1], widths);
    }
  }

  /** The sum of the row heights. */
  function RowsHeight(rows: seq<Row>): nat {
    if rows == [] then 0 else RowsHeight(rows[..|rows| - 1]) + LineCount(rows[|rows| - 1])
  }

  /**
   * The table block is bracketed by blank lines, opens with the border, has the
   * '=' separator right below the header row's lines, and holds one line per row
   * line plus one separator per row.
   */
  lemma BlockShape(table: seq<Row>, widths: seq<int>)
    requires |table| > 0
    requires forall r :: 0 <= r < |table| ==> |table[r]| <= |widths|
    ensures var b := Block(table, widths);
      && |b| == 4 + RowsHeight(table[1..]) + |table| - 1 + LineCount(table[0])
      && b[0] == "" && b[|b| - 1] == ""
      && b[1] == Border(widths)
      && b[2 + LineCount(table[0])] == BorderWith(widths, '=')
      && b[2..2 + LineCount(table[0])] == RowLines(table[0], widths)
  {
    BodyLinesCount(table[1..], widths);
    HeaderBorderIsEquals(widths);
    FrameShape(Border(widths), RowLines(table[0], widths), HeaderBorder(widths), BodyLines(table[1..], widths));
  }

  /** Where the parts of a table sit once joined: blank, border, header, separator, body, blank. */
  lemma FrameShape(border: string, head: seq<string>, sep: string, body: seq<string>)
    ensures var b := [""] + [border] + head + [sep] + body + [""];
      && |b| == 4 + |head| + |body|
      && b[0] == "" && b[|b| - 1] == "" && b[1] == border && b[2 + |head|] == sep
      && b[2..2 + |head|] == head
  {
    var b := [""] + [border] + head + [sep] + body + [""];
    assert b[2..2 + |head|] == head;
  }
}
