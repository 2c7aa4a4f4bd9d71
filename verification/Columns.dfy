/** internal/editor/complete.go: candidates in columns, and what they have in common. */
module Columns {
  import opened Arith

  // --- widths ---

  /** Additive, one column for a space; what a character takes otherwise is left open. */
  function Width(w: char -> nat, s: string): nat {
    if s == "" then 0 else w(s[0]) + Width(w, s[1..])
  }

  lemma {:induction false} WidthAppend(w: char -> nat, a: string, b: string)
    ensures Width(w, a + b) == Width(w, a) + Width(w, b)
  {
    if a == "" {
      assert a + b == b;
    } else {
      WidthAppend(w, a[1..], b);
      assert (a + b)[1..] == a[1..] + b;
    }
  }

  function Spaces(n: nat): (s: string)
    ensures |s| == n
  {
    if n == 0 then "" else [' '] + Spaces(n - 1)
  }

  lemma {:induction false} SpacesWidth(w: char -> nat, n: nat)
    requires w(' ') == 1
    ensures Width(w, Spaces(n)) == n
  {
    if n > 0 {
      SpacesWidth(w, n - 1);
      assert Spaces(n)[1..] == Spaces(n - 1);
    }
  }

  // --- the grid ---

  function Max(a: int, b: int): int {
    if a > b then a else b
  }

  function Widest(w: char -> nat, items: seq<string>): nat {
    if items == [] then 0
    else Max(Widest(w, items[..|items| - 1]), Width(w, items[|items| - 1]))
  }

  lemma {:induction false} WidestIsMaximum(w: char -> nat, items: seq<string>)
    ensures forall it <- items :: Width(w, it) <= Widest(w, items)
    ensures items != [] ==> exists it <- items :: Width(w, it) == Widest(w, items)
    decreases |items|
  {
    if items != [] {
      var most, last := items[..|items| - 1], items[|items| - 1];
      WidestIsMaximum(w, most);
      assert items == most + [last];
      assert last in items;
    }
  }

  /** Column width, columns and rows. */
  datatype Grid = Grid(colW: nat, cols: nat, rows: nat)

  function GridOf(w: char -> nat, items: seq<string>, width: int): Grid
    requires items != []
  {
    var colW := Widest(w, items) + 2;
    var cols := Max(1, width / colW);
    Grid(colW, cols, (|items| + cols - 1) / cols)
  }

  /** The next cell on a row: padded to its column unless the row is still empty. */
  function Padded(w: char -> nat, text: string, column: int): string {
    if text == "" then "" else text + Spaces(Max(column - Width(w, text), 1))
  }

  /** The items on row r: every rows-th, from r on. */
  function Cells(items: seq<string>, rows: nat, r: nat): seq<string>
    requires rows > 0
    decreases |items| - r
  {
    if r >= |items| then [] else [items[r]] + Cells(items, rows, r + rows)
  }

  lemma {:induction false} CellsAre(items: seq<string>, rows: nat, r: nat, q: nat)
    requires rows > 0
    ensures q < |Cells(items, rows, r)| <==> r + q * rows < |items|
    ensures q < |Cells(items, rows, r)| ==> Cells(items, rows, r)[q] == items[r + q * rows]
    decreases q
  {
    if q == 0 {
      assert q * rows == 0;
    } else {
      MulStep(q - 1, rows);
      MulLeft(0, q - 1, rows);
      CellsAre(items, rows, r + rows, q - 1);
    }
  }

  /** One more item, which is the next on this row. */
  lemma {:induction false} CellsGrow(items: seq<string>, x: string, rows: nat, r: nat, q: nat)
    requires rows > 0 && |items| == r + q * rows
    ensures Cells(items + [x], rows, r) == Cells(items, rows, r) + [x] && |Cells(items, rows, r)| == q
    decreases q
  {
    var all := items + [x];
    if q == 0 {
      assert q * rows == 0;
      assert Cells(all, rows, r + rows) == [];
    } else {
      MulStep(q - 1, rows);
      MulLeft(0, q - 1, rows);
      CellsGrow(items, x, rows, r + rows, q - 1);
      assert all[r] == items[r];
      Same([items[r]], Cells(items, rows, r + rows), [x]);
    }
  }

  lemma Same(a: seq<string>, b: seq<string>, c: seq<string>)
    ensures a + (b + c) == (a + b) + c
  {
  }

  /** One more item, which is on another row. */
  lemma {:induction false} CellsStay(items: seq<string>, x: string, rows: nat, r: nat, q: nat, m: nat)
    requires 0 < m < rows && |items| + rows == r + q * rows + m
    ensures Cells(items + [x], rows, r) == Cells(items, rows, r)
    decreases q
  {
    if q == 0 {
      assert q * rows == 0;
    } else {
      MulStep(q - 1, rows);
      MulLeft(0, q - 1, rows);
      CellsStay(items, x, rows, r + rows, q - 1, m);
      assert (items + [x])[r] == items[r];
    }
  }

  /** Where each column starts. */
  type Edges = nat -> nat

  function EdgesOf(colW: nat): Edges {
    (k: nat) => colW * k
  }

  ghost predicate Even(edge: Edges, colW: nat) {
    edge(0) == 0 && forall k: nat {:trigger edge(k + 1)} :: edge(k + 1) == edge(k) + colW
  }

  lemma EdgesAreEven(colW: nat)
    ensures Even(EdgesOf(colW), colW)
  {
    forall k: nat ensures colW * (k + 1) == colW * k + colW {
      MulStep(k, colW);
    }
  }

  /** The text of a row of cells. */
  function RowText(w: char -> nat, cells: seq<string>, edge: Edges): string {
    if cells == [] then ""
    else
      var before := cells[..|cells| - 1];
      Padded(w, RowText(w, before, edge), edge(|before|)) + cells[|cells| - 1]
  }

  lemma RowTextNext(w: char -> nat, cells: seq<string>, x: string, edge: Edges)
    ensures RowText(w, cells + [x], edge) == Padded(w, RowText(w, cells, edge), edge(|cells|)) + x
  {
    assert (cells + [x])[..|cells|] == cells;
  }

  /** Row r after the first items. */
  function RowOf(w: char -> nat, items: seq<string>, g: Grid, r: nat): string
    requires g.rows > 0
  {
    RowText(w, Cells(items, g.rows, r), EdgesOf(g.colW))
  }

  lemma RowStays(w: char -> nat, items: seq<string>, x: string, g: Grid, r: nat)
    requires r < g.rows && r != |items| % g.rows
    ensures RowOf(w, items + [x], g, r) == RowOf(w, items, g, r)
  {
    var q, m := |items| / g.rows, |items| % g.rows;
    DivMod(|items|, g.rows);
    MulStep(q, g.rows);
    if r < m {
      CellsStay(items, x, g.rows, r, q + 1, m - r);
    } else {
      CellsStay(items, x, g.rows, r, q, g.rows + m - r);
    }
  }

  lemma RowGrows(w: char -> nat, items: seq<string>, x: string, g: Grid)
    requires g.rows > 0
    ensures var r := |items| % g.rows;
            RowOf(w, items + [x], g, r) == Padded(w, RowOf(w, items, g, r), g.colW * (|items| / g.rows)) + x
  {
    var q, r := |items| / g.rows, |items| % g.rows;
    DivMod(|items|, g.rows);
    CellsGrow(items, x, g.rows, r, q);
    RowTextNext(w, Cells(items, g.rows, r), x, EdgesOf(g.colW));
  }

  method CandidateRows(w: char -> nat, items: seq<string>, width: int) returns (out: seq<string>)
    ensures items == [] ==> out == []
    ensures items != [] ==>
              var g := GridOf(w, items, width);
              g.rows > 0 && RowsAre(w, items, g, out)
  {
    if |items| == 0 {
      return [];
    }
    var colW := WidestOf(w, items);
    colW := colW + 2;
    var cols := Max(1, width / colW);
    var rows := (|items| + cols - 1) / cols;
    RowsNeeded(|items|, cols);
    out := FillRows(w, items, GridOf(w, items, width), colW, rows);
  }

  method WidestOf(w: char -> nat, items: seq<string>) returns (colW: nat)
    ensures colW == Widest(w, items)
  {
    colW := 0;
    for k := 0 to |items|
      invariant colW == Widest(w, items[..k])
    {
      assert items[..k + 1][..k] == items[..k];
      colW := if Width(w, items[k]) > colW then Width(w, items[k]) else colW;
    }
    assert items[..|items|] == items;
  }

  ghost predicate RowsAre(w: char -> nat, items: seq<string>, g: Grid, out: seq<string>)
    requires g.rows > 0
  {
    |out| == g.rows && forall r :: 0 <= r < g.rows ==> out[r] == RowOf(w, items, g, r)
  }

  lemma RowsNext(w: char -> nat, items: seq<string>, x: string, g: Grid, out: seq<string>)
    requires g.rows > 0 && RowsAre(w, items, g, out)
    ensures var r := |items| % g.rows;
            RowsAre(w, items + [x], g, out[r := Padded(w, out[r], g.colW * (|items| / g.rows)) + x])
  {
    forall r | 0 <= r < g.rows && r != |items| % g.rows ensures RowOf(w, items + [x], g, r) == out[r] {
      RowStays(w, items, x, g, r);
    }
    RowGrows(w, items, x, g);
  }

  method FillRows(w: char -> nat, items: seq<string>, ghost g: Grid, colW: nat, rows: nat) returns (out: seq<string>)
    requires rows > 0 && g.colW == colW && g.rows == rows
    ensures RowsAre(w, items, g, out)
  {
    out := seq(rows, _ => "");
    for i := 0 to |items|
      invariant RowsAre(w, items[..i], g, out)
    {
      assert items[..i + 1] == items[..i] + [items[i]];
      RowsNext(w, items[..i], items[i], g, out);
      var row := i % rows;
      var cell := out[row];
      if cell != "" {
        var pad := colW * (i / rows) - Width(w, cell);
        cell := cell + Spaces(Max(pad, 1));
      }
      out := out[row := cell + items[i]];
    }
    assert items[..|items|] == items;
  }

  /** Enough rows for the columns, and not one more. */
  lemma RowsNeeded(n: nat, cols: nat)
    requires n > 0 && cols > 0
    ensures var rows := (n + cols - 1) / cols; rows > 0 && (rows - 1) * cols < n <= rows * cols
  {
    var rows := (n + cols - 1) / cols;
    DivMod(n + cols - 1, cols);
    MulStep(rows - 1, cols);
    ZeroTimes(rows, cols);
  }

  // --- where things end up ---

  /** Some cell has a character in it. */
  ghost predicate Started(cells: seq<string>) {
    exists c <- cells :: c != ""
  }

  lemma StartedNext(cells: seq<string>, x: string)
    ensures Started(cells + [x]) <==> Started(cells) || x != ""
  {
    assert x in cells + [x];
    if Started(cells) {
      var c :| c in cells && c != "";
      assert c in cells + [x];
    }
  }

  /** A row is empty until a cell takes a character. */
  lemma {:induction false} RowStarts(w: char -> nat, cells: seq<string>, edge: Edges)
    ensures RowText(w, cells, edge) == "" <==> !Started(cells)
    decreases |cells|
  {
    if cells != [] {
      var before, last := cells[..|cells| - 1], cells[|cells| - 1];
      assert cells == before + [last];
      RowStarts(w, before, edge);
      RowTextNext(w, before, last, edge);
      StartedNext(before, last);
    }
  }

  ghost predicate CellsFit(w: char -> nat, cells: seq<string>, colW: nat) {
    forall c <- cells :: Width(w, c) + 2 <= colW
  }

  /** Each cell leaves two columns of its own free. */
  lemma {:induction false} RowFits(w: char -> nat, cells: seq<string>, edge: Edges, colW: nat)
    requires w(' ') == 1 && Even(edge, colW) && CellsFit(w, cells, colW) && cells != []
    ensures Width(w, RowText(w, cells, edge)) + 2 <= edge(|cells|)
    decreases |cells|
  {
    var before, last := cells[..|cells| - 1], cells[|cells| - 1];
    assert cells == before + [last];
    if before != [] {
      RowFits(w, before, edge, colW);
    }
    RowTextNext(w, before, last, edge);
    CellNext(w, RowText(w, before, edge), last, edge(|before|), colW);
    assert |cells| == |before| + 1 && edge(|before| + 1) == edge(|before|) + colW;
  }

  lemma CellNext(w: char -> nat, text: string, cell: string, edge: nat, colW: nat)
    requires w(' ') == 1 && (text != "" ==> Width(w, text) < edge) && Width(w, cell) + 2 <= colW
    ensures Width(w, Padded(w, text, edge) + cell) + 2 <= edge + colW
  {
    CellStart(w, text, edge);
    WidthAppend(w, Padded(w, text, edge), cell);
  }

  /** Where the next cell starts. */
  lemma CellStart(w: char -> nat, text: string, edge: nat)
    requires w(' ') == 1 && (text != "" ==> Width(w, text) < edge)
    ensures Width(w, Padded(w, text, edge)) == if text == "" then 0 else edge
  {
    if text != "" {
      WidthAppend(w, text, Spaces(edge - Width(w, text)));
      SpacesWidth(w, edge - Width(w, text));
    }
  }

  lemma {:induction false} RowPrefix(w: char -> nat, cells: seq<string>, k: nat, edge: Edges)
    requires k <= |cells|
    ensures RowText(w, cells[..k], edge) <= RowText(w, cells, edge)
    decreases |cells|
  {
    if k == |cells| {
      assert cells[..k] == cells;
    } else {
      var before := cells[..|cells| - 1];
      RowPrefix(w, before, k, edge);
      assert before[..k] == cells[..k];
    }
  }

  /** Cell q of a row, and what is in front of it. */
  lemma CellAt(w: char -> nat, cells: seq<string>, q: nat, edge: Edges, colW: nat) returns (before: string)
    requires w(' ') == 1 && Even(edge, colW) && CellsFit(w, cells, colW) && q < |cells|
    ensures before + cells[q] <= RowText(w, cells, edge)
    ensures Width(w, before) == edge(q) <==> q == 0 || Started(cells[..q])
  {
    before := CellInRow(w, cells, q, edge);
    EdgeReached(w, cells[..q], edge, colW);
    EdgePositive(w, cells[q], edge, q, colW);
  }

  lemma CellInRow(w: char -> nat, cells: seq<string>, q: nat, edge: Edges) returns (before: string)
    requires q < |cells|
    ensures before == Padded(w, RowText(w, cells[..q], edge), edge(q))
    ensures before + cells[q] <= RowText(w, cells, edge)
  {
    before := Padded(w, RowText(w, cells[..q], edge), edge(q));
    assert cells[..q + 1] == cells[..q] + [cells[q]];
    RowTextNext(w, cells[..q], cells[q], edge);
    RowPrefix(w, cells, q + 1, edge);
  }

  lemma EdgePositive(w: char -> nat, cell: string, edge: Edges, q: nat, colW: nat)
    requires Even(edge, colW) && Width(w, cell) + 2 <= colW
    ensures edge(q) == 0 <==> q == 0
  {
    if q > 0 {
      var k: nat := q - 1;
      assert edge(k + 1) == edge(k) + colW;
      assert k + 1 == q;
    }
  }

  /** Padding reaches the next edge exactly when there is something to pad. */
  lemma EdgeReached(w: char -> nat, cells: seq<string>, edge: Edges, colW: nat)
    requires w(' ') == 1 && Even(edge, colW) && CellsFit(w, cells, colW)
    ensures Width(w, Padded(w, RowText(w, cells, edge), edge(|cells|))) ==
            if Started(cells) then edge(|cells|) else 0
  {
    RowStarts(w, cells, edge);
    if cells != [] {
      RowFits(w, cells, edge, colW);
    }
    CellStart(w, RowText(w, cells, edge), edge(|cells|));
  }

  lemma {:induction false} CellsAreItems(items: seq<string>, rows: nat, r: nat)
    requires rows > 0
    ensures forall c <- Cells(items, rows, r) :: c in items
    decreases |items| - r
  {
    if r < |items| {
      CellsAreItems(items, rows, r + rows);
    }
  }

  lemma RowCellsFit(w: char -> nat, items: seq<string>, rows: nat, r: nat)
    requires rows > 0
    ensures CellsFit(w, Cells(items, rows, r), Widest(w, items) + 2)
  {
    CellsAreItems(items, rows, r);
    WidestIsMaximum(w, items);
  }

  /** No row has more cells than there are columns, and there is no row too many. */
  lemma ColumnsSuffice(items: seq<string>, cols: nat, r: nat)
    requires items != [] && cols > 0
    ensures var rows := (|items| + cols - 1) / cols;
            && rows > 0 && (rows - 1) * cols < |items| <= rows * cols
            && |Cells(items, rows, r)| <= cols
  {
    var rows := (|items| + cols - 1) / cols;
    RowsNeeded(|items|, cols);
    CellsAre(items, rows, r, cols);
  }

  /** What of the grid matters: the widest item fits a column, and the cells of a row fit the columns. */
  ghost predicate Roomy(w: char -> nat, items: seq<string>, g: Grid) {
    g.rows > 0 && g.colW == Widest(w, items) + 2 && forall r: nat :: |Cells(items, g.rows, r)| <= g.cols
  }

  lemma GridIsRoomy(w: char -> nat, items: seq<string>, width: int)
    requires items != []
    ensures Roomy(w, items, GridOf(w, items, width))
  {
    var g := GridOf(w, items, width);
    forall r: nat ensures g.rows > 0 && |Cells(items, g.rows, r)| <= g.cols {
      ColumnsSuffice(items, g.cols, r);
    }
  }

  /**
   * Item i, at q rows times r: cell q of row r, of at most `cols`; it starts at that column's edge
   * exactly when it is in the first one or a character precedes it on its row.
   */
  lemma ItemAt(w: char -> nat, items: seq<string>, g: Grid, i: nat, q: nat, r: nat) returns (before: string)
    requires w(' ') == 1 && i < |items| && Roomy(w, items, g) && i == r + q * g.rows
    ensures var cells := Cells(items, g.rows, r);
            && q < |cells| <= g.cols && cells[q] == items[i]
            && before + items[i] <= RowOf(w, items, g, r)
            && (Width(w, before) == g.colW * q <==> q == 0 || Started(cells[..q]))
  {
    CellsAre(items, g.rows, r, q);
    RowCellsFit(w, items, g.rows, r);
    EdgesAreEven(g.colW);
    before := CellAt(w, Cells(items, g.rows, r), q, EdgesOf(g.colW), g.colW);
  }

  lemma ItemInGrid(w: char -> nat, items: seq<string>, g: Grid, i: nat) returns (before: string)
    requires w(' ') == 1 && i < |items| && Roomy(w, items, g)
    ensures var q, cells := i / g.rows, Cells(items, g.rows, i % g.rows);
            && q < |cells| <= g.cols && cells[q] == items[i]
            && before + items[i] <= RowOf(w, items, g, i % g.rows)
            && (Width(w, before) == g.colW * q <==> q == 0 || Started(cells[..q]))
  {
    DivMod(i, g.rows);
    before := ItemAt(w, items, g, i, i / g.rows, i % g.rows);
  }

  /**
   * Item i stands on row i % rows of the grid for this width, at column i / rows of at most `cols`:
   * at the column's edge exactly when it is in the first column or a character precedes it on its row.
   */
  lemma ItemPosition(w: char -> nat, items: seq<string>, width: int, i: nat) returns (before: string)
    requires w(' ') == 1 && i < |items|
    ensures var g := GridOf(w, items, width);
            && g.rows > 0
            && var q, cells := i / g.rows, Cells(items, g.rows, i % g.rows);
               && q < |cells| <= g.cols && cells[q] == items[i]
               && before + items[i] <= RowOf(w, items, g, i % g.rows)
               && (Width(w, before) == g.colW * q <==> q == 0 || Started(cells[..q]))
  {
    GridIsRoomy(w, items, width);
    before := ItemInGrid(w, items, GridOf(w, items, width), i);
  }

  /** An empty candidate in front: the second one stands at column 0, not at its edge 3. */
  lemma EmptyCandidateMisplaces(w: char -> nat)
    requires w(' ') == 1 && w('a') == 1
    ensures var items := ["", "a"]; GridOf(w, items, 6) == Grid(3, 2, 1) && RowOf(w, items, Grid(3, 2, 1), 0) == "a"
  {
    SmallGrid(w);
    SmallRow(w);
  }

  lemma SmallGrid(w: char -> nat)
    requires w('a') == 1
    ensures GridOf(w, ["", "a"], 6) == Grid(3, 2, 1)
  {
    var items := ["", "a"];
    assert items[..1] == [""] && [""][..0] == [] && "a"[1..] == "";
    assert Width(w, "a") == 1 && Widest(w, [""]) == 0 && Widest(w, items) == 1;
  }

  lemma SmallRow(w: char -> nat)
    ensures RowOf(w, ["", "a"], Grid(3, 2, 1), 0) == "a"
  {
    var items := ["", "a"];
    assert Cells(items, 1, 2) == [] && Cells(items, 1, 1) == ["a"] && Cells(items, 1, 0) == items;
    RowTextNext(w, [], "", EdgesOf(3));
    RowTextNext(w, [""], "a", EdgesOf(3));
    assert [] + [""] == [""] && [""] + ["a"] == items;
  }

  lemma ColumnsFit(width: nat, colW: nat)
    requires 0 < colW <= width
    ensures Max(1, width / colW) * colW <= width
  {
    DivMod(width, colW);
    ZeroTimes(width / colW, colW);
  }

  /**
   * The grid: columns two wider than the widest item, as many as fit the width but at least one, and
   * as few rows as hold the items.
   */
  lemma GridIs(w: char -> nat, items: seq<string>, width: int, n: nat)
    requires items != []
    ensures var g := GridOf(w, items, width);
            && (forall it <- items :: Width(w, it) + 2 <= g.colW) && (exists it <- items :: Width(w, it) + 2 == g.colW)
            && g.cols >= 1 && (g.cols >= n <==> n <= 1 || n * g.colW <= width)
            && (|items| <= n * g.cols <==> n >= g.rows)
  {
    var g := GridOf(w, items, width);
    WidestIsMaximum(w, items);
    assert exists it <- items :: Width(w, it) + 2 == g.colW by {
      var it :| it in items && Width(w, it) == Widest(w, items);
    }
    MostThatFit(width, g.colW, n);
    ColumnsSuffice(items, g.cols, 0);
    FewestRows(|items|, g.cols, g.rows, n);
  }

  lemma MostThatFit(width: int, colW: nat, n: nat)
    requires colW > 0
    ensures Max(1, width / colW) >= n <==> n <= 1 || n * colW <= width
  {
    var q := width / colW;
    assert width == q * colW + width % colW;
    if n <= q {
      MulLe(n, q, colW);
    } else {
      MulLe(q + 1, n, colW);
      assert (q + 1) * colW == q * colW + colW;
    }
  }

  lemma MulLe(a: int, b: int, k: nat)
    requires a <= b
    ensures a * k <= b * k
  {
    assert 0 <= (b - a) * k && b * k == a * k + (b - a) * k;
  }

  lemma FewestRows(items: nat, cols: nat, rows: nat, n: nat)
    requires cols > 0 && rows > 0 && (rows - 1) * cols < items <= rows * cols
    ensures items <= n * cols <==> n >= rows
  {
    if n >= rows {
      MulLe(rows, n, cols);
    } else {
      MulLe(n, rows - 1, cols);
    }
  }

  /** Every row fits, with two columns to spare, as soon as one column does. */
  lemma RowsFitWidth(w: char -> nat, items: seq<string>, width: nat, r: nat)
    requires w(' ') == 1 && items != [] && forall it <- items :: Width(w, it) + 2 <= width
    ensures var g := GridOf(w, items, width); g.rows > 0 && Width(w, RowOf(w, items, g, r)) + 2 <= width
  {
    var g := GridOf(w, items, width);
    WidestIsMaximum(w, items);
    ColumnsSuffice(items, g.cols, r);
    ColumnsFit(width, g.colW);
    RowCellsFit(w, items, g.rows, r);
    CellsFitWidth(w, Cells(items, g.rows, r), g.colW, g.cols, width);
  }

  lemma CellsFitWidth(w: char -> nat, cells: seq<string>, colW: nat, cols: nat, width: nat)
    requires w(' ') == 1 && CellsFit(w, cells, colW) && |cells| <= cols && cols * colW <= width && 2 <= width
    ensures Width(w, RowText(w, cells, EdgesOf(colW))) + 2 <= width
  {
    if cells != [] {
      EdgesAreEven(colW);
      RowFits(w, cells, EdgesOf(colW), colW);
      MulLeft(|cells|, cols, colW);
    }
  }

  // --- the longest common prefix ---

  ghost predicate Common(p: string, values: seq<string>) {
    forall v <- values :: p <= v
  }

  method CommonPrefix(values: seq<string>) returns (prefix: string)
    requires |values| > 0
    ensures Common(prefix, values)
    ensures forall p :: Common(p, values) ==> p <= prefix
  {
    prefix := values[0];
    forall p | Common(p, values) ensures p <= values[0] {
      assert values[0] in values;
    }
    for k := 1 to |values|
      invariant Common(prefix, values[..k])
      invariant forall p :: Common(p, values) ==> p <= prefix
    {
      ghost var before := prefix;
      while !(prefix <= values[k])
        invariant prefix <= before
        invariant forall p :: Common(p, values) ==> p <= prefix
        decreases |prefix|
      {
        forall p | Common(p, values) ensures p <= prefix[..|prefix| - 1] {
          assert values[k] in values;
          Shorter(p, prefix, values[k]);
        }
        prefix := prefix[..|prefix| - 1];
        if prefix == "" {
          return "";
        }
      }
      assert values[..k + 1] == values[..k] + [values[k]];
      CommonNext(prefix, before, values[..k], values[k]);
    }
    assert values[..|values|] == values;
  }

  lemma CommonNext(prefix: string, before: string, values: seq<string>, v: string)
    requires Common(before, values) && prefix <= before && prefix <= v
    ensures Common(prefix, values + [v])
  {
  }

  lemma Shorter(p: string, prefix: string, v: string)
    requires p <= prefix && p <= v && !(prefix <= v)
    ensures prefix != "" && p <= prefix[..|prefix| - 1]
  {
    assert |p| == |prefix| ==> p == prefix;
  }
}
