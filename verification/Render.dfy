/** internal/editor/render.go: the inline renderer, which rewrites only the rows that changed. */
module Render {
  import opened Layout
  import opened Terminals

  /** What lines leave on rows of their own. */
  function Images(lines: seq<Line>): seq<Row> {
    seq(|lines|, i requires 0 <= i < |lines| => Image(lines[i]))
  }

  /** The rows from origin on show exactly these images, and everything under them is blank. */
  ghost predicate Shows(s: Screen, origin: nat, images: seq<Row>) {
    && (forall k: nat :: origin <= k < origin + |images| ==> s.rows(k) == images[k - origin])
    && (forall k: nat :: origin + |images| <= k ==> s.rows(k) == [])
  }

  /** Two screens a user cannot tell apart. */
  ghost predicate Same(s: Screen, t: Screen) {
    && s.row == t.row && s.col == t.col
    && forall k: nat :: s.rows(k) == t.rows(k)
  }

  /** The slow form: keep what is above the region, erase the rest, draw every row, place the cursor. */
  function Redraw(s: Screen, origin: nat, images: seq<Row>, curRow: nat, curCol: nat): (t: Screen)
    ensures Shows(t, origin, images)
    ensures forall k: nat :: k < origin ==> t.rows(k) == s.rows(k)
  {
    Screen((k: nat) =>
             if k < origin then s.rows(k)
             else if k < origin + |images| then images[k - origin]
             else [],
           origin + curRow, curCol)
  }

  /** The first `done` rows of the frame are on the screen, every other row is as it was. */
  ghost predicate Drawn(s: Screen, was: Screen, origin: nat, images: seq<Row>, done: nat)
    requires done <= |images|
  {
    && (forall k: nat :: origin <= k < origin + done ==> s.rows(k) == images[k - origin])
    && (forall k: nat :: k < origin || origin + done <= k ==> s.rows(k) == was.rows(k))
  }

  /** As above, with the cursor at the start of the last row done. */
  ghost predicate Painted(s: Screen, was: Screen, origin: nat, images: seq<Row>, done: nat)
    requires done <= |images|
  {
    && s.row == (if done == 0 then origin else origin + done - 1) && s.col == 0
    && Drawn(s, was, origin, images, done)
  }

  lemma PrintErased(s: Screen, line: Line)
    requires s.col == 0
    ensures var t := Run(s, [EraseLine, Print(line), CarriageReturn]);
            t == Screen(t.rows, s.row, 0) && t.rows(s.row) == Image(line) &&
            forall k: nat :: k != s.row ==> t.rows(k) == s.rows(k)
  {
    RunThree(s, EraseLine, Print(line), CarriageReturn);
    assert Step(s, EraseLine).rows(s.row) == [];
    var g := Image(line);
    assert Overwrite([], 0, g) == g;
  }

  /** Repainting one row, the cursor on it. */
  lemma PaintRow(s: Screen, was: Screen, origin: nat, images: seq<Row>, i: nat, line: Line)
    requires i < |images| && Image(line) == images[i]
    requires s.row == origin + i && s.col == 0 && Drawn(s, was, origin, images, i)
    ensures Painted(Run(s, [EraseLine, Print(line), CarriageReturn]), was, origin, images, i + 1)
  {
    PrintErased(s, line);
  }

  /** A row skipped because it was drawn the same before. */
  lemma KeepRow(s: Screen, was: Screen, origin: nat, oldImages: seq<Row>, images: seq<Row>, i: nat)
    requires i < |images| && i < |oldImages| && oldImages[i] == images[i]
    requires Shows(was, origin, oldImages)
    requires s.row == origin + i && s.col == 0 && Drawn(s, was, origin, images, i)
    ensures Painted(s, was, origin, images, i + 1)
  {
    assert was.rows(origin + i) == oldImages[i];
  }

  /** What render emits for row i: down to it, then the row itself unless it was drawn the same before. */
  function RowCommands(oldRows: seq<Line>, rows: seq<Line>, i: nat): seq<Command>
    requires i < |rows|
  {
    (if i > 0 then [CarriageReturn, LineFeed] else []) +
    (if i < |oldRows| && oldRows[i] == rows[i] then [] else [EraseLine, Print(rows[i]), CarriageReturn])
  }

  lemma RowDone(s: Screen, was: Screen, origin: nat, oldRows: seq<Line>, rows: seq<Line>, i: nat)
    requires i < |rows| && Shows(was, origin, Images(oldRows)) && Painted(s, was, origin, Images(rows), i)
    ensures Painted(Run(s, RowCommands(oldRows, rows, i)), was, origin, Images(rows), i + 1)
  {
    var down := if i > 0 then [CarriageReturn, LineFeed] else [];
    WayDown(s, was, origin, Images(rows), i);
    var m := Run(s, down);
    if i < |oldRows| && oldRows[i] == rows[i] {
      KeepRow(m, was, origin, Images(oldRows), Images(rows), i);
      assert RowCommands(oldRows, rows, i) == down;
    } else {
      PaintRow(m, was, origin, Images(rows), i, rows[i]);
      RunAppend(s, down, [EraseLine, Print(rows[i]), CarriageReturn]);
    }
  }

  lemma WayDown(s: Screen, was: Screen, origin: nat, images: seq<Row>, i: nat)
    requires i <= |images| && Painted(s, was, origin, images, i)
    ensures var m := Run(s, if i > 0 then [CarriageReturn, LineFeed] else []);
            m.row == origin + i && m.col == 0 && Drawn(m, was, origin, images, i)
  {
    if i > 0 { RunTwo(s, CarriageReturn, LineFeed); }
  }

  const CLEAR_BELOW: seq<Command> :=
    [CursorDown(1), CarriageReturn, EraseBelow] + [CursorUp(1), CarriageReturn]

  /** Dropping below the last row to erase leftovers, and coming back. */
  lemma ClearBelow(s: Screen)
    requires s.col == 0
    ensures var t := Run(s, CLEAR_BELOW);
            && t.row == s.row && t.col == 0
            && (forall k: nat :: k <= s.row ==> t.rows(k) == s.rows(k))
            && (forall k: nat :: s.row < k ==> t.rows(k) == [])
  {
    RunAppend(s, [CursorDown(1), CarriageReturn, EraseBelow], [CursorUp(1), CarriageReturn]);
    RunThree(s, CursorDown(1), CarriageReturn, EraseBelow);
    var m := Run(s, [CursorDown(1), CarriageReturn, EraseBelow]);
    RunTwo(m, CursorUp(1), CarriageReturn);
    assert m.row == s.row + 1;
  }

  /** Erasing the leftovers, where the previous frame was taller, completes the frame. */
  lemma FrameComplete(s: Screen, was: Screen, origin: nat, oldImages: seq<Row>, images: seq<Row>)
    requires Shows(was, origin, oldImages) && |images| > 0
    requires Painted(s, was, origin, images, |images|)
    ensures var t := if |oldImages| > |images| then Run(s, CLEAR_BELOW) else s;
            && Shows(t, origin, images) && t.row == origin + |images| - 1 && t.col == 0
            && (forall k: nat :: k < origin ==> t.rows(k) == was.rows(k))
  {
    ClearBelow(s);
  }

  /** Home to the region origin. */
  function HomeCommands(curRow: nat): seq<Command> {
    (if curRow > 0 then [CursorUp(curRow)] else []) + [CarriageReturn]
  }

  /** Where homing by curRow rows ends: the terminal has no row above its first. */
  function Homed(s: Screen, curRow: nat): nat {
    if curRow <= s.row then s.row - curRow else 0
  }

  lemma HomeReaches(s: Screen, curRow: nat)
    ensures Run(s, HomeCommands(curRow)) == s.(row := Homed(s, curRow), col := 0)
  {
    if curRow > 0 {
      RunTwo(s, CursorUp(curRow), CarriageReturn);
      assert HomeCommands(curRow) == [CursorUp(curRow), CarriageReturn];
    } else {
      RunOne(s, CarriageReturn);
      assert HomeCommands(curRow) == [CarriageReturn];
    }
  }

  /** Homing, then the first k rows. */
  function PaintCommands(curRow: nat, oldRows: seq<Line>, rows: seq<Line>, k: nat): seq<Command>
    requires k <= |rows|
  {
    if k == 0 then HomeCommands(curRow)
    else PaintCommands(curRow, oldRows, rows, k - 1) + RowCommands(oldRows, rows, k - 1)
  }

  lemma {:induction false} PaintReaches(s: Screen, origin: nat, curRow: nat,
                                        oldRows: seq<Line>, rows: seq<Line>, k: nat)
    requires k <= |rows| && Shows(s, origin, Images(oldRows)) && Homed(s, curRow) == origin
    ensures Painted(Run(s, PaintCommands(curRow, oldRows, rows, k)), s, origin, Images(rows), k)
  {
    if k == 0 {
      HomeReaches(s, curRow);
    } else {
      PaintReaches(s, origin, curRow, oldRows, rows, k - 1);
      var b := PaintCommands(curRow, oldRows, rows, k - 1);
      RowDone(Run(s, b), s, origin, oldRows, rows, k - 1);
      RunAppend(s, b, RowCommands(oldRows, rows, k - 1));
    }
  }

  /** Whatever is on the screen, painting ends on the last row it was given. */
  lemma {:induction false} PaintRowOnly(s: Screen, curRow: nat, oldRows: seq<Line>, rows: seq<Line>, k: nat)
    requires k <= |rows|
    ensures var t := Run(s, PaintCommands(curRow, oldRows, rows, k));
            t.col == 0 && t.row == Homed(s, curRow) + if k > 0 then k - 1 else 0
  {
    if k == 0 {
      HomeReaches(s, curRow);
    } else {
      PaintRowOnly(s, curRow, oldRows, rows, k - 1);
      var b := PaintCommands(curRow, oldRows, rows, k - 1);
      RowMoves(Run(s, b), oldRows, rows, k - 1);
      RunAppend(s, b, RowCommands(oldRows, rows, k - 1));
    }
  }

  lemma RowMoves(s: Screen, oldRows: seq<Line>, rows: seq<Line>, i: nat)
    requires i < |rows| && s.col == 0
    ensures var t := Run(s, RowCommands(oldRows, rows, i)); t.col == 0 && t.row == s.row + if i > 0 then 1 else 0
  {
    var down := if i > 0 then [CarriageReturn, LineFeed] else [];
    if i > 0 { RunTwo(s, CarriageReturn, LineFeed); }
    if i < |oldRows| && oldRows[i] == rows[i] {
      assert RowCommands(oldRows, rows, i) == down;
    } else {
      PrintErased(Run(s, down), rows[i]);
      RunAppend(s, down, [EraseLine, Print(rows[i]), CarriageReturn]);
    }
  }

  /** From the start of the last row, up and right to the cursor's cell. */
  function ParkCommands(height: nat, curRow: nat, curCol: nat): seq<Command> {
    (if curRow + 1 < height then [CursorUp(height - 1 - curRow)] else []) +
    (if curCol > 0 then [CursorForward(curCol)] else [])
  }

  lemma ParkReaches(s: Screen, height: nat, curRow: nat, curCol: nat)
    requires s.col == 0 && (height > 0 ==> s.row >= height - 1)
    ensures Run(s, ParkCommands(height, curRow, curCol)) ==
            s.(row := if curRow + 1 < height then s.row - (height - 1 - curRow) else s.row, col := curCol)
  {
    var up := if curRow + 1 < height then [CursorUp(height - 1 - curRow)] else [];
    if curRow + 1 < height { RunOne(s, CursorUp(height - 1 - curRow)); }
    var right := if curCol > 0 then [CursorForward(curCol)] else [];
    RunAppend(s, up, right);
    if curCol > 0 { RunOne(Run(s, up), CursorForward(curCol)); }
  }

  /** A frame that shows, with everything above it as it was, is what a full redraw leaves. */
  lemma ShownIsRedrawn(t: Screen, was: Screen, origin: nat, images: seq<Row>, curRow: nat, curCol: nat)
    requires Shows(t, origin, images) && t.row == origin + curRow && t.col == curCol
    requires forall k: nat :: k < origin ==> t.rows(k) == was.rows(k)
    ensures Same(t, Redraw(was, origin, images, curRow, curCol))
  {
    var u := Redraw(was, origin, images, curRow, curCol);
    forall i: nat ensures t.rows(i) == u.rows(i) {
      if origin <= i < origin + |images| {
        assert t.rows(i) == images[i - origin];
      }
    }
  }

  /** The renderer's record of the region agrees with the screen. */
  ghost predicate Tracks(s: Screen, origin: nat, images: seq<Row>, curRow: nat) {
    && s.row == origin + curRow
    && (curRow < |images| || (|images| == 0 && curRow == 0))
    && Shows(s, origin, images)
  }

  /** What a call of render owes, whatever the frame. */
  ghost predicate DrawResult(t: Screen, was: Screen, origin: nat, images: seq<Row>, curRow: nat, curCol: nat) {
    if |images| > 0 then
      && Same(t, Redraw(was, origin, images, if curRow < |images| then curRow else |images| - 1, curCol))
      && (Tracks(t, origin, images, curRow) <==> curRow < |images|)
    else
      Tracks(t, origin, images, curRow) <==> was.rows(origin) == []
  }

  /** The rest of render after the rows: leftovers, then the cursor. */
  lemma DrawEnds(s: Screen, was: Screen, origin: nat, oldImages: seq<Row>, images: seq<Row>,
                 curRow: nat, curCol: nat)
    requires Shows(was, origin, oldImages) && Painted(s, was, origin, images, |images|)
    requires |images| == 0 ==> curRow == 0
    ensures var m := if |oldImages| > |images| then Run(s, CLEAR_BELOW) else s;
            DrawResult(Run(m, ParkCommands(|images|, curRow, curCol)), was, origin, images, curRow, curCol)
  {
    var m := if |oldImages| > |images| then Run(s, CLEAR_BELOW) else s;
    var t := Run(m, ParkCommands(|images|, curRow, curCol));
    if |images| > 0 {
      FrameComplete(s, was, origin, oldImages, images);
      ParkReaches(m, |images|, curRow, curCol);
      ShownIsRedrawn(t, was, origin, images, if curRow < |images| then curRow else |images| - 1, curCol);
    } else {
      ClearBelow(s);
      ParkReaches(m, 0, curRow, curCol);
      assert t.rows(origin) == was.rows(origin);
    }
  }

  /** All that one call of render writes. */
  function DrawCommands(curRow: nat, oldRows: seq<Line>, rows: seq<Line>, newRow: nat, newCol: nat): seq<Command> {
    PaintCommands(curRow, oldRows, rows, |rows|) + (if |oldRows| > |rows| then CLEAR_BELOW else []) +
    ParkCommands(|rows|, newRow, newCol)
  }

  lemma DrawSplits(s: Screen, curRow: nat, oldRows: seq<Line>, rows: seq<Line>, newRow: nat, newCol: nat)
    ensures var painted := Run(s, PaintCommands(curRow, oldRows, rows, |rows|));
            var cleared := if |oldRows| > |rows| then Run(painted, CLEAR_BELOW) else painted;
            Run(s, DrawCommands(curRow, oldRows, rows, newRow, newCol)) ==
            Run(cleared, ParkCommands(|rows|, newRow, newCol))
  {
    var paint := PaintCommands(curRow, oldRows, rows, |rows|);
    if |oldRows| > |rows| {
      RunAppend(s, paint, CLEAR_BELOW);
      RunAppend(s, paint + CLEAR_BELOW, ParkCommands(|rows|, newRow, newCol));
    } else {
      assert paint + [] == paint;
      RunAppend(s, paint, ParkCommands(|rows|, newRow, newCol));
    }
  }

  /** A draw that homes to the region's first row does what render owes. */
  lemma DrawReaches(s: Screen, origin: nat, curRow: nat, oldRows: seq<Line>, rows: seq<Line>, newRow: nat, newCol: nat)
    requires Shows(s, origin, Images(oldRows)) && Homed(s, curRow) == origin && (|rows| == 0 ==> newRow == 0)
    ensures var t := Run(s, DrawCommands(curRow, oldRows, rows, newRow, newCol));
            DrawResult(t, s, origin, Images(rows), newRow, newCol)
  {
    PaintReaches(s, origin, curRow, oldRows, rows, |rows|);
    var painted := Run(s, PaintCommands(curRow, oldRows, rows, |rows|));
    DrawEnds(painted, s, origin, Images(oldRows), Images(rows), newRow, newCol);
    DrawSplits(s, curRow, oldRows, rows, newRow, newCol);
  }

  lemma DrawRow(s: Screen, curRow: nat, oldRows: seq<Line>, rows: seq<Line>, newRow: nat, newCol: nat)
    requires newRow < |rows|
    ensures Run(s, DrawCommands(curRow, oldRows, rows, newRow, newCol)).row == Homed(s, curRow) + newRow
  {
    PaintRowOnly(s, curRow, oldRows, rows, |rows|);
    var painted := Run(s, PaintCommands(curRow, oldRows, rows, |rows|));
    ClearBelow(painted);
    var cleared := if |oldRows| > |rows| then Run(painted, CLEAR_BELOW) else painted;
    ParkReaches(cleared, |rows|, newRow, newCol);
    DrawSplits(s, curRow, oldRows, rows, newRow, newCol);
  }

  /** Over a region that shows, a draw equals a full redraw exactly when it homes to the region's first row. */
  lemma DrawNeedsHome(s: Screen, origin: nat, curRow: nat,
                      oldRows: seq<Line>, rows: seq<Line>, newRow: nat, newCol: nat)
    requires Shows(s, origin, Images(oldRows)) && newRow < |rows|
    ensures var t := Run(s, DrawCommands(curRow, oldRows, rows, newRow, newCol));
            Same(t, Redraw(s, origin, Images(rows), newRow, newCol)) <==> Homed(s, curRow) == origin
  {
    DrawRow(s, curRow, oldRows, rows, newRow, newCol);
    if Homed(s, curRow) == origin {
      DrawReaches(s, origin, curRow, oldRows, rows, newRow, newCol);
    }
  }

  /** The region shows, and the cursor is on its row or, where that is outside, on the last one. */
  ghost predicate Parked(s: Screen, origin: nat, images: seq<Row>, curRow: nat) {
    && Shows(s, origin, images) && (|images| == 0 ==> curRow == 0)
    && s.row == origin + if curRow < |images| || curRow == 0 then curRow else |images| - 1
  }

  /**
   * The draw after a frame whose cursor was at the exact right edge, one row below its rows: right if
   * the region starts on the terminal's first row, and off by one otherwise.
   */
  lemma DrawAfterRightEdge(s: Screen, origin: nat, oldRows: seq<Line>, rows: seq<Line>, newRow: nat, newCol: nat)
    requires |oldRows| > 0 && Parked(s, origin, Images(oldRows), |oldRows|) && newRow < |rows|
    ensures var t := Run(s, DrawCommands(|oldRows|, oldRows, rows, newRow, newCol));
            Same(t, Redraw(s, origin, Images(rows), newRow, newCol)) <==> origin == 0
  {
    DrawNeedsHome(s, origin, |oldRows|, oldRows, rows, newRow, newCol);
  }

  lemma FrameOfNothing(lines: seq<Line>, width: nat, cursorLine: nat, cursorW: nat)
    requires width > 0
    ensures |FrameOf(lines, width, cursorLine, cursorW).rows| == 0 ==>
            FrameOf(lines, width, cursorLine, cursorW).curRow == 0
  {
  }

  class Renderer {
    const out: Terminal
    const width: nat
    var rows: seq<Line>    // screen rows as last drawn
    var curRow: nat        // the cursor's screen row, relative to the region top
    ghost var origin: nat  // the screen row of the region top

    /** The record is right: the next draw can start. */
    ghost predicate Valid()
      reads this, out
    {
      width > 0 && Tracks(out.screen, origin, Images(rows), curRow)
    }

    /** The frame shows, though its cursor may be outside: the line can end. */
    ghost predicate Shown()
      reads this, out
    {
      width > 0 && Parked(out.screen, origin, Images(rows), curRow)
    }

    constructor (out: Terminal, width: nat)
      requires forall i: nat :: out.screen.row <= i ==> out.screen.rows(i) == []
      ensures Valid() && this.out == out && rows == [] && origin == out.screen.row
      ensures this.width == if width > 1 then width else 1
    {
      this.out := out;
      this.width := if width > 1 then width else 1;
      rows, curRow, origin := [], 0, out.screen.row;
    }

    /**
     * The screen ends up as if everything had been redrawn, and the renderer's idea of the cursor
     * row stays right exactly when the frame's cursor lies inside the frame.
     */
    method Draw(lines: seq<Line>, cursorLine: nat, cursorW: nat)
      requires Valid()
      modifies this, out
      ensures origin == old(origin)
      ensures var f := FrameOf(lines, width, cursorLine, cursorW);
              && rows == f.rows && curRow == f.curRow
              && DrawResult(out.screen, old(out.screen), origin, Images(rows), curRow, f.curCol)
              && out.screen == Run(old(out.screen), DrawCommands(old(curRow), old(rows), rows, curRow, f.curCol))
    {
      var newRows, newRow, newCol := MakeFrame(lines, width, cursorLine, cursorW);
      var b := Paint(newRows);
      FrameOfNothing(lines, width, cursorLine, cursorW);
      DrawReaches(out.screen, origin, curRow, rows, newRows, newRow, newCol);
      if |rows| > |newRows| {
        b := b + CLEAR_BELOW;
      }
      b := b + ParkCommands(|newRows|, newRow, newCol);
      assert b == DrawCommands(curRow, rows, newRows, newRow, newCol);
      out.Write(b);
      rows, curRow := newRows, newRow;
    }

    /** Homing, then rewriting the rows that differ from what was drawn last. */
    method Paint(newRows: seq<Line>) returns (b: seq<Command>)
      requires Valid()
      ensures b == PaintCommands(curRow, rows, newRows, |newRows|)
      ensures Painted(Run(out.screen, b), out.screen, origin, Images(newRows), |newRows|)
    {
      b := HomeCommands(curRow);
      for i := 0 to |newRows|
        invariant b == PaintCommands(curRow, rows, newRows, i)
      {
        ghost var before := b;
        if i > 0 {
          b := b + [CarriageReturn, LineFeed];
        }
        if !(i < |rows| && rows[i] == newRows[i]) {
          b := b + [EraseLine, Print(newRows[i]), CarriageReturn];
        }
        assert b == before + RowCommands(rows, newRows, i);
      }
      PaintReaches(out.screen, origin, curRow, rows, newRows, |newRows|);
    }

    /** Shell output starts on a fresh line, the first one under the region. */
    method Finish()
      requires Shown()
      modifies this, out
      ensures Valid() && rows == []
      ensures origin == old(origin) + if |old(rows)| == 0 then 1 else |old(rows)|
      ensures out.screen.row == origin && out.screen.col == 0
      ensures forall i: nat :: out.screen.rows(i) == old(out.screen.rows)(i)
    {
      if curRow + 1 < |rows| {
        RunSnoc(out.screen, [], CursorDown(|rows| - 1 - curRow));
        assert [] + [CursorDown(|rows| - 1 - curRow)] == [CursorDown(|rows| - 1 - curRow)];
        out.Write([CursorDown(|rows| - 1 - curRow)]);
      }
      RunTwo(out.screen, CarriageReturn, LineFeed);
      out.Write([CarriageReturn, LineFeed]);
      rows, curRow, origin := [], 0, out.screen.row;
    }

    method ClearScreen()
      requires width > 0
      modifies this, out
      ensures Valid() && rows == [] && origin == 0
      ensures out.screen.row == 0 && out.screen.col == 0 && forall i: nat :: out.screen.rows(i) == []
    {
      RunTwo(out.screen, EraseAll, Home);
      out.Write([EraseAll, Home]);
      rows, curRow, origin := [], 0, 0;
    }

    /** Between lines somebody else writes, and leaves the cursor where everything below is blank. */
    method Elsewhere(after: Screen)
      requires width > 0 && rows == [] && curRow == 0
      requires forall i: nat :: after.row <= i ==> after.rows(i) == []
      modifies this, out
      ensures Valid() && rows == [] && origin == after.row && out.screen == after
    {
      out.screen := after;
      origin := after.row;
    }
  }

  // --- every sequence of calls ---

  /** Output is what runs between two lines: it leaves any screen with blank rows from the cursor on. */
  datatype Call = Draw(lines: seq<Line>, cursorLine: nat, cursorW: nat) | Finish | ClearScreen | Output(after: Screen)

  /** The same calls on a renderer that remembers no rows and always redraws. */
  datatype Simple = Simple(screen: Screen, origin: nat, height: nat)

  function SimpleStep(m: Simple, c: Call, width: nat): Simple
    requires width > 0
  {
    match c
    case Draw(lines, cursorLine, cursorW) =>
      var f := FrameOf(lines, width, cursorLine, cursorW);
      var row := if f.curRow < |f.rows| || f.curRow == 0 then f.curRow else |f.rows| - 1;
      Simple(Redraw(m.screen, m.origin, Images(f.rows), row, f.curCol), m.origin, |f.rows|)
    case Finish =>
      var next := m.origin + if m.height == 0 then 1 else m.height;
      Simple(m.screen.(row := next, col := 0), next, 0)
    case ClearScreen => Simple(Screen((k: nat) => [], 0, 0), 0, 0)
    case Output(after) => Simple(after, after.row, 0)
  }

  function SimpleRun(m: Simple, calls: seq<Call>, width: nat): Simple
    requires width > 0
  {
    if calls == [] then m
    else SimpleStep(SimpleRun(m, calls[..|calls| - 1], width), calls[|calls| - 1], width)
  }

  /** The frame is not empty, and its cursor lies inside. */
  ghost predicate CursorInside(c: Call, width: nat)
    requires width > 0
  {
    c.Draw? ==> FrameOf(c.lines, width, c.cursorLine, c.cursorW).curRow < |WrapAll(c.lines, width)|
  }

  /** Frames have rows; a frame with its cursor outside is not drawn over; output comes between lines. */
  ghost predicate Orderly(calls: seq<Call>, i: nat, width: nat)
    requires width > 0 && i < |calls|
  {
    && (calls[i].Draw? ==> |WrapAll(calls[i].lines, width)| > 0)
    && (i > 0 && calls[i].Draw? ==> CursorInside(calls[i - 1], width))
    && (calls[i].Output? ==>
          && (i > 0 ==> !calls[i - 1].Draw?)
          && forall k: nat :: calls[i].after.row <= k ==> calls[i].after.rows(k) == [])
  }

  lemma SimpleNext(m: Simple, calls: seq<Call>, i: nat, width: nat)
    requires width > 0 && i < |calls|
    ensures SimpleRun(m, calls[..i + 1], width) == SimpleStep(SimpleRun(m, calls[..i], width), calls[i], width)
  {
    assert calls[..i + 1][..i] == calls[..i];
  }

  ghost predicate Agrees(s: Screen, origin: nat, rows: seq<Line>, m: Simple) {
    Same(s, m.screen) && origin == m.origin && |rows| == m.height
  }

  /** Drawing over screens that look alike. */
  lemma DrawAgrees(t: Screen, was: Screen, seen: Screen, origin: nat, images: seq<Row>, curRow: nat, curCol: nat)
    requires |images| > 0 && DrawResult(t, was, origin, images, curRow, curCol) && Same(was, seen)
    ensures var row := if curRow < |images| || curRow == 0 then curRow else |images| - 1;
            Same(t, Redraw(seen, origin, images, row, curCol))
    ensures Parked(t, origin, images, curRow) && (curRow < |images| ==> Tracks(t, origin, images, curRow))
  {
    var row := if curRow < |images| then curRow else |images| - 1;
    var u, v := Redraw(was, origin, images, row, curCol), Redraw(seen, origin, images, row, curCol);
    forall k: nat ensures t.rows(k) == v.rows(k) {
      assert t.rows(k) == u.rows(k);
      if k < origin { assert was.rows(k) == seen.rows(k); }
    }
    forall k: nat | origin <= k < origin + |images| ensures t.rows(k) == images[k - origin] {
      assert t.rows(k) == u.rows(k);
    }
    forall k: nat | origin + |images| <= k ensures t.rows(k) == [] {
      assert t.rows(k) == u.rows(k);
    }
  }

  /** One call, on the renderer and on the simple one. */
  method Perform(r: Renderer, c: Call, ghost m: Simple)
    requires r.Shown() && Agrees(r.out.screen, r.origin, r.rows, m)
    requires c.Draw? ==> r.Valid() && |WrapAll(c.lines, r.width)| > 0
    requires c.Output? ==> r.rows == [] && forall k: nat :: c.after.row <= k ==> c.after.rows(k) == []
    modifies r, r.out
    ensures r.Shown() && (CursorInside(c, r.width) ==> r.Valid()) && (!c.Draw? ==> r.rows == [])
    ensures Agrees(r.out.screen, r.origin, r.rows, SimpleStep(m, c, r.width))
  {
    match c {
      case Draw(lines, cursorLine, cursorW) =>
        ghost var was := r.out.screen;
        r.Draw(lines, cursorLine, cursorW);
        ghost var f := FrameOf(lines, r.width, cursorLine, cursorW);
        DrawAgrees(r.out.screen, was, m.screen, r.origin, Images(r.rows), r.curRow, f.curCol);
      case Finish => r.Finish();
      case ClearScreen => r.ClearScreen();
      case Output(after) => r.Elsewhere(after);
    }
  }

  /** Whatever is called, in whatever order, the user sees what the simple renderer would show. */
  method Session(r: Renderer, calls: seq<Call>)
    requires r.Valid() && (calls != [] && calls[0].Output? ==> r.rows == [])
    requires forall i :: 0 <= i < |calls| ==> Orderly(calls, i, r.width)
    modifies r, r.out
    ensures r.Shown() && (calls == [] || CursorInside(calls[|calls| - 1], r.width) ==> r.Valid())
    ensures var m := SimpleRun(Simple(old(r.out.screen), old(r.origin), |old(r.rows)|), calls, r.width);
            Agrees(r.out.screen, r.origin, r.rows, m)
  {
    ghost var start := Simple(r.out.screen, r.origin, |r.rows|);
    for i := 0 to |calls|
      invariant r.Shown() && (i == 0 || CursorInside(calls[i - 1], r.width) ==> r.Valid())
      invariant (if i > 0 then !calls[i - 1].Draw? else calls != [] && calls[0].Output?) ==> r.rows == []
      invariant Agrees(r.out.screen, r.origin, r.rows, SimpleRun(start, calls[..i], r.width))
    {
      SimpleNext(start, calls, i, r.width);
      assert Orderly(calls, i, r.width);
      Perform(r, calls[i], SimpleRun(start, calls[..i], r.width));
    }
    assert calls[..|calls|] == calls;
  }
}
