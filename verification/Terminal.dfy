/** A terminal screen and the ECMA-48 control functions the renderer sends to it. */
module Terminals {
  import opened Layout

  /** A screen cell: blank, the first column of a cluster, or a further column of it. */
  datatype Glyph = Blank | First(text: string) | Continued

  type Row = seq<Glyph>

  /** What one token leaves on the screen; zero-width tokens leave nothing. */
  function Glyphs(tok: Token): (g: Row)
    ensures |g| == tok.width
  {
    if tok.width == 0 then [] else [First(tok.text)] + seq(tok.width - 1, _ => Continued)
  }

  /** What a line leaves on an empty row. */
  function Image(line: Line): (g: Row)
    ensures |g| == Width(line)
  {
    if line == [] then [] else Glyphs(line[0]) + Image(line[1..])
  }

  /** An unbounded grid of rows. */
  datatype Screen = Screen(rows: nat -> Row, row: nat, col: nat)

  /** The rows with row i replaced. */
  function Update(rows: nat -> Row, i: nat, r: Row): nat -> Row {
    (k: nat) => if k == i then r else rows(k)
  }

  datatype Command =
    | CursorUp(n: nat)        // CUU, section 8.3.22
    | CursorDown(n: nat)      // CUD, section 8.3.19
    | CursorForward(n: nat)   // CUF, section 8.3.20
    | EraseBelow              // ED 0, section 8.3.39
    | EraseAll                // ED 2
    | EraseLine               // EL 2, section 8.3.41
    | Home                    // CUP with no parameters
    | CarriageReturn
    | LineFeed
    | Print(line: Line)

  /** A parameter of 0 means the default, 1. */
  function Param(n: nat): nat {
    if n == 0 then 1 else n
  }

  /** Write glyphs into a row from column col on. */
  function Overwrite(r: Row, col: nat, g: Row): Row {
    var padded := if col <= |r| then r else r + seq(col - |r|, _ => Blank);
    padded[..col] + g + (if col + |g| < |r| then r[col + |g|..] else [])
  }

  function Step(s: Screen, c: Command): Screen {
    match c
    case CursorUp(n) => s.(row := if Param(n) <= s.row then s.row - Param(n) else 0)
    case CursorDown(n) => s.(row := s.row + Param(n))
    case CursorForward(n) => s.(col := s.col + Param(n))
    case EraseBelow =>
      var r := s.rows(s.row);
      var kept := if s.col <= |r| then r[..s.col] else r;
      s.(rows := (k: nat) => if k < s.row then s.rows(k) else if k == s.row then kept else [])
    case EraseAll => s.(rows := (k: nat) => [])
    case EraseLine => s.(rows := Update(s.rows, s.row, []))
    case Home => s.(row := 0, col := 0)
    case CarriageReturn => s.(col := 0)
    case LineFeed => s.(row := s.row + 1)
    case Print(line) =>
      s.(rows := Update(s.rows, s.row, Overwrite(s.rows(s.row), s.col, Image(line))),
         col := s.col + Width(line))
  }

  // --- the same by cells ---

  function CellAt(s: Screen, row: nat, col: nat): Glyph {
    if col < |s.rows(row)| then s.rows(row)[col] else Blank
  }

  /** Which cells a control function reaches, and what it leaves in them. */
  lemma CellsAfter(s: Screen, c: Command, row: nat, col: nat)
    ensures CellAt(Step(s, c), row, col) ==
            match c
            case Print(line) =>
              if row == s.row && s.col <= col < s.col + Width(line) then Image(line)[col - s.col]
              else CellAt(s, row, col)
            case EraseLine => if row == s.row then Blank else CellAt(s, row, col)
            case EraseBelow =>
              if row > s.row || (row == s.row && col >= s.col) then Blank else CellAt(s, row, col)
            case EraseAll => Blank
            case _ => CellAt(s, row, col)
  {
    if c.Print? && row == s.row {
      OverwriteAt(s.rows(row), s.col, Image(c.line), col);
    }
  }

  lemma OverwriteAt(r: Row, col: nat, g: Row, k: nat)
    ensures |Overwrite(r, col, g)| >= col + |g| && |Overwrite(r, col, g)| >= |r|
    ensures k < |Overwrite(r, col, g)| ==>
      Overwrite(r, col, g)[k] == if col <= k < col + |g| then g[k - col] else if k < |r| then r[k] else Blank
  {
  }

  /** Where each leaves the cursor; a count of 0 moves one place, and none goes past the top. */
  lemma CursorAfter(s: Screen, c: Command)
    ensures var t := Step(s, c);
            match c
            case CursorUp(n) =>
              var up := if n == 0 then 1 else n;
              t.col == s.col && if up <= s.row then t.row + up == s.row else t.row == 0
            case CursorDown(n) => t.col == s.col && t.row == s.row + (if n == 0 then 1 else n)
            case CursorForward(n) => t.row == s.row && t.col == s.col + (if n == 0 then 1 else n)
            case Home => t.row == t.col == 0
            case CarriageReturn => t.row == s.row && t.col == 0
            case LineFeed => t.row == s.row + 1 && t.col == s.col
            case Print(line) => t.row == s.row && t.col == s.col + Width(line)
            case _ => t.row == s.row && t.col == s.col
  {
  }

  /** A line leaves each token's text in the column where it begins, and more of it in the token's others. */
  lemma {:induction false} ImageAt(line: Line, i: nat, c: nat)
    requires i < |line| && c < line[i].width
    ensures var k := Width(line[..i]) + c;
            k < Width(line) && Image(line)[k] == if c == 0 then First(line[i].text) else Continued
  {
    if i == 0 {
      assert line[..0] == [];
    } else {
      ImageAt(line[1..], i - 1, c);
      assert line[..i][1..] == line[1..][..i - 1];
    }
  }

  function Run(s: Screen, cs: seq<Command>): Screen {
    if cs == [] then s else Step(Run(s, cs[..|cs| - 1]), cs[|cs| - 1])
  }

  lemma RunSnoc(s: Screen, cs: seq<Command>, c: Command)
    ensures Run(s, cs + [c]) == Step(Run(s, cs), c)
  {
    assert (cs + [c])[..|cs|] == cs;
  }

  lemma {:induction false} RunAppend(s: Screen, a: seq<Command>, b: seq<Command>)
    ensures Run(s, a + b) == Run(Run(s, a), b)
  {
    if b == [] {
      assert a + b == a;
    } else {
      var init, last := b[..|b| - 1], b[|b| - 1];
      RunAppend(s, a, init);
      RunSnoc(s, a + init, last);
      RunSnoc(Run(s, a), init, last);
      LastApart(a, b);
    }
  }

  lemma LastApart(a: seq<Command>, b: seq<Command>)
    requires b != []
    ensures var init, last := b[..|b| - 1], b[|b| - 1]; b == init + [last] && a + b == a + init + [last]
  {
  }

  lemma RunOne(s: Screen, c: Command)
    ensures Run(s, [c]) == Step(s, c)
  {
    RunSnoc(s, [], c);
    assert [] + [c] == [c];
  }

  lemma RunTwo(s: Screen, c: Command, d: Command)
    ensures Run(s, [c, d]) == Step(Step(s, c), d)
  {
    RunOne(s, c);
    RunSnoc(s, [c], d);
    assert [c] + [d] == [c, d];
  }

  lemma RunThree(s: Screen, c: Command, d: Command, e: Command)
    ensures Run(s, [c, d, e]) == Step(Step(Step(s, c), d), e)
  {
    RunTwo(s, c, d);
    RunSnoc(s, [c, d], e);
    assert [c, d] + [e] == [c, d, e];
  }

  /** The device: it executes what is written to it. */
  class Terminal {
    var screen: Screen

    constructor (s: Screen)
      ensures screen == s
    {
      screen := s;
    }

    method Write(cs: seq<Command>)
      modifies this
      ensures screen == Run(old(screen), cs)
    {
      for i := 0 to |cs|
        invariant screen == Run(old(screen), cs[..i])
      {
        RunSnoc(old(screen), cs[..i], cs[i]);
        assert cs[..i + 1] == cs[..i] + [cs[i]];
        screen := Step(screen, cs[i]);
      }
      assert cs[..|cs|] == cs;
    }
  }
}
