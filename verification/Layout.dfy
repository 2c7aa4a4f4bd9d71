/** internal/editor/render.go: wrapping prompt-prefixed lines into screen rows. */
module Layout {
  import opened Arith

  /** One atom of a line: a grapheme cluster, or an escape sequence (width 0). */
  datatype Token = Token(text: string, width: nat)

  type Line = seq<Token>

  function Width(line: Line): nat {
    if line == [] then 0 else line[0].width + Width(line[1..])
  }

  /** Widths are additive over concatenation. */
  lemma {:induction false} WidthAppend(a: Line, b: Line)
    ensures Width(a + b) == Width(a) + Width(b)
  {
    if a == [] {
      assert a + b == b;
    } else {
      WidthAppend(a[1..], b);
      assert (a + b)[1..] == a[1..] + b;
    }
  }

  lemma WidthSnoc(a: Line, t: Token)
    ensures Width(a + [t]) == Width(a) + t.width
  {
    WidthAppend(a, [t]);
  }

  function Concat(rows: seq<Line>): Line {
    if rows == [] then [] else rows[0] + Concat(rows[1..])
  }

  /** Greedy wrapping with a partly filled row in hand. */
  function WrapFrom(row: Line, rest: Line, width: nat): (rows: seq<Line>)
    ensures |rows| >= 1
    decreases |rest|
  {
    if rest == [] then [row]
    else if Width(row) + rest[0].width > width && Width(row) > 0 then
      [row] + WrapFrom([rest[0]], rest[1..], width)
    else WrapFrom(row + [rest[0]], rest[1..], width)
  }

  function Wrap(line: Line, width: nat): seq<Line> {
    WrapFrom([], line, width)
  }

  method WrapLine(line: Line, width: nat) returns (rows: seq<Line>)
    ensures rows == Wrap(line, width)
  {
    if line == [] {
      return [[]];
    }
    rows := [];
    var row, rowW, rest := [], 0, line;
    while |rest| > 0
      invariant rowW == Width(row)
      invariant rows + WrapFrom(row, rest, width) == Wrap(line, width)
    {
      var tok := rest[0];
      if rowW + tok.width > width && rowW > 0 {
        rows := rows + [row];
        row, rowW := [], 0;
      }
      WidthSnoc(row, tok);
      assert [] + [tok] == [tok];
      row, rowW, rest := row + [tok], rowW + tok.width, rest[1..];
    }
    rows := rows + [row];
  }

  /** Wrapping drops and reorders nothing. */
  lemma {:induction false} WrapConcat(row: Line, rest: Line, width: nat)
    ensures Concat(WrapFrom(row, rest, width)) == row + rest
    decreases |rest|
  {
    if rest == [] {
      assert Concat([row]) == row + Concat([row][1..]);
    } else if Width(row) + rest[0].width > width && Width(row) > 0 {
      WrapConcat([rest[0]], rest[1..], width);
      var tail := WrapFrom([rest[0]], rest[1..], width);
      assert ([row] + tail)[1..] == tail;
      assert [rest[0]] + rest[1..] == rest;
    } else {
      WrapConcat(row + [rest[0]], rest[1..], width);
      assert row + [rest[0]] + rest[1..] == row + rest;
    }
  }

  /** One token alone accounts for the whole width of the row. */
  ghost predicate LoneToken(row: Line) {
    exists k :: 0 <= k < |row| && row[k].width == Width(row)
  }

  /** A row never overflows unless a single token is wider than the terminal. */
  lemma {:induction false} WrapFits(row: Line, rest: Line, width: nat)
    requires Width(row) <= width || LoneToken(row)
    ensures forall r <- WrapFrom(row, rest, width) :: Width(r) <= width || LoneToken(r)
    decreases |rest|
  {
    if rest != [] {
      var t := rest[0];
      WidthSnoc(row, t);
      if Width(row) + t.width > width && Width(row) > 0 {
        assert [t][0].width == Width([t]);
        WrapFits([t], rest[1..], width);
      } else {
        if Width(row) == 0 {
          assert (row + [t])[|row|].width == Width(row + [t]);
        } else {
          assert Width(row + [t]) <= width;
        }
        WrapFits(row + [t], rest[1..], width);
      }
    }
  }

  ghost predicate NoneWider(line: Line, width: nat) {
    forall t <- line :: t.width <= width
  }

  /** When no token is wider than the terminal, every row fits. */
  lemma {:induction false} WrapFitsStrictly(row: Line, rest: Line, width: nat)
    requires Width(row) <= width && NoneWider(rest, width)
    ensures forall r <- WrapFrom(row, rest, width) :: Width(r) <= width
    decreases |rest|
  {
    if rest != [] {
      WidthSnoc(row, rest[0]);
      if Width(row) + rest[0].width > width && Width(row) > 0 {
        WrapFitsStrictly([rest[0]], rest[1..], width);
      } else {
        WrapFitsStrictly(row + [rest[0]], rest[1..], width);
      }
    }
  }

  /** Where token j of the line stands on the screen: its row, and the width before it there. */
  function Place(rows: seq<Line>, j: nat): (nat, nat)
    requires j < |Concat(rows)|
  {
    if j < |rows[0]| then (0, Width(rows[0][..j]))
    else var p := Place(rows[1..], j - |rows[0]|); (p.0 + 1, p.1)
  }

  /** Read row by row, a place lies no earlier than the width to the left of its token. */
  lemma {:induction false} PlaceBound(rows: seq<Line>, j: nat, width: nat)
    requires j < |Concat(rows)|
    requires forall r <- rows :: Width(r) <= width
    ensures Place(rows, j).0 * width + Place(rows, j).1 >= Width(Concat(rows)[..j])
  {
    var first := rows[0];
    if j < |first| {
      assert Concat(rows)[..j] == first[..j];
    } else {
      var p := Place(rows[1..], j - |first|);
      PlaceBound(rows[1..], j - |first|, width);
      assert Concat(rows)[..j] == first + Concat(rows[1..])[..j - |first|];
      WidthAppend(first, Concat(rows[1..])[..j - |first|]);
      assert Width(first) <= width;
      MulStep(p.0, width);
    }
  }

  /** A token of width w with pos columns before it does not cross a multiple of the terminal width. */
  predicate NoStraddle(pos: nat, w: nat, width: nat)
    requires width > 0
  {
    pos % width + w <= width
  }

  ghost predicate DivisionFinds(row: Line, rest: Line, i: nat, width: nat)
    requires width > 0 && i < |rest|
  {
    WrapConcat(row, rest, width);
    IsQuotient(Width(row) + Width(rest[..i]), Place(WrapFrom(row, rest, width), |row| + i), width)
  }

  predicate IsQuotient(pos: nat, cell: (nat, nat), width: nat)
    requires width > 0
  {
    cell.0 == pos / width && cell.1 == pos % width
  }

  ghost predicate NoneStraddles(start: nat, rest: Line, i: nat, width: nat)
    requires width > 0 && i < |rest|
  {
    forall k :: 0 <= k <= i ==> NoStraddle(start + Width(rest[..k]), rest[k].width, width)
  }

  lemma WidthTail(rest: Line, k: nat)
    requires 1 <= k <= |rest|
    ensures Width(rest[..k]) == rest[0].width + Width(rest[1..][..k - 1])
  {
    assert rest[..k][1..] == rest[1..][..k - 1];
  }

  /** Moving the first token of the rest into the row leaves the straddling question as it was. */
  lemma StraddleStep(start: nat, rest: Line, i: nat, width: nat)
    requires width > 0 && 1 <= i < |rest|
    requires NoStraddle(start, rest[0].width, width)
    ensures NoneStraddles(start, rest, i, width) <==>
            NoneStraddles(start + rest[0].width, rest[1..], i - 1, width)
  {
    var next := start + rest[0].width;
    forall k | 0 <= k < i
      ensures start + Width(rest[..k + 1]) == next + Width(rest[1..][..k]) && rest[k + 1] == rest[1..][k]
    {
      WidthTail(rest, k + 1);
    }
    if NoneStraddles(next, rest[1..], i - 1, width) {
      forall k | 0 <= k <= i
        ensures NoStraddle(start + Width(rest[..k]), rest[k].width, width)
      {
        if k > 0 { assert NoStraddle(next + Width(rest[1..][..k - 1]), rest[1..][k - 1].width, width); }
      }
    }
    if NoneStraddles(start, rest, i, width) {
      forall k | 0 <= k <= i - 1
        ensures NoStraddle(next + Width(rest[1..][..k]), rest[1..][k].width, width)
      {
        assert NoStraddle(start + Width(rest[..k + 1]), rest[k + 1].width, width);
      }
    }
  }

  lemma StraddleShift(start: nat, rest: Line, i: nat, width: nat)
    requires width > 0 && i < |rest|
    ensures NoneStraddles(start + width, rest, i, width) <==> NoneStraddles(start, rest, i, width)
  {
    forall k | 0 <= k <= i
      ensures NoStraddle(start + width + Width(rest[..k]), rest[k].width, width) <==>
              NoStraddle(start + Width(rest[..k]), rest[k].width, width)
    {
      ShiftByWidth(start + Width(rest[..k]), width);
      assert start + width + Width(rest[..k]) == start + Width(rest[..k]) + width;
    }
  }

  /**
   * The division in frame agrees with the greedy loop in wrapLine about a visible token exactly
   * when no token up to it straddles the right edge.
   */
  lemma {:induction false} DivisionExact(row: Line, rest: Line, i: nat, width: nat)
    requires width > 0 && Width(row) <= width && NoneWider(rest, width)
    requires i < |rest| && rest[i].width > 0
    ensures DivisionFinds(row, rest, i, width) <==> NoneStraddles(Width(row), rest, i, width)
    decreases |rest|
  {
    if Width(row) + rest[0].width > width && Width(row) > 0 {
      ExactAtBreak(row, rest, i, width);
    } else {
      ExactInRow(row, rest, i, width);
    }
  }

  /** The case of DivisionExact where the next token joins the row in hand. */
  lemma {:induction false} ExactInRow(row: Line, rest: Line, i: nat, width: nat)
    requires width > 0 && Width(row) <= width && NoneWider(rest, width)
    requires i < |rest| && rest[i].width > 0
    requires Width(row) + rest[0].width <= width
    ensures DivisionFinds(row, rest, i, width) <==> NoneStraddles(Width(row), rest, i, width)
    decreases |rest|, 0
  {
    var t, rw := rest[0], Width(row);
    FitsWithoutStraddle(rw, t.width, width);
    if i == 0 {
      FirstFound(row, rest, width);
      assert rest[..0] == [];
    } else {
      WidthSnoc(row, t);
      DivisionExact(row + [t], rest[1..], i - 1, width);
      StraddleStep(rw, rest, i, width);
      StepFinds(row, rest, i, width);
    }
  }

  lemma FirstFound(row: Line, rest: Line, width: nat)
    requires width > 0 && rest != [] && rest[0].width > 0 && Width(row) + rest[0].width <= width
    ensures DivisionFinds(row, rest, 0, width)
  {
    PlaceInFirst(row, rest, width);
    DivModUnique(Width(row), width, 0, Width(row));
    assert rest[..0] == [];
  }

  lemma FitsWithoutStraddle(pos: nat, w: nat, width: nat)
    requires width > 0 && pos + w <= width
    ensures NoStraddle(pos, w, width)
  {
    if pos == width { DivModUnique(pos, width, 1, 0); } else { DivModUnique(pos, width, 0, pos); }
  }

  /** Taking one token into the row changes neither the wrapping nor anybody's place. */
  lemma StepFinds(row: Line, rest: Line, i: nat, width: nat)
    requires width > 0 && 1 <= i < |rest| && Width(row) + rest[0].width <= width
    ensures DivisionFinds(row, rest, i, width) <==> DivisionFinds(row + [rest[0]], rest[1..], i - 1, width)
  {
    var grown := row + [rest[0]];
    WrapConcat(row, rest, width);
    WrapConcat(grown, rest[1..], width);
    assert WrapFrom(row, rest, width) == WrapFrom(grown, rest[1..], width);
    assert |grown| + (i - 1) == |row| + i;
    assert Width(grown) + Width(rest[1..][..i - 1]) == Width(row) + Width(rest[..i]) by {
      WidthSnoc(row, rest[0]);
      WidthTail(rest, i);
    }
  }

  /** A token that fits goes into the row in hand, after what is there. */
  lemma {:induction false} PlaceInFirst(row: Line, rest: Line, width: nat)
    requires rest != [] && !(Width(row) + rest[0].width > width && Width(row) > 0)
    ensures |Concat(WrapFrom(row, rest, width))| > |row|
    ensures Place(WrapFrom(row, rest, width), |row|) == (0, Width(row))
  {
    WrapConcat(row, rest, width);
    FirstRowGrows(row + [rest[0]], rest[1..], width);
    var first := WrapFrom(row, rest, width)[0];
    assert first[..|row|] == row;
  }

  lemma {:induction false} FirstRowGrows(row: Line, rest: Line, width: nat)
    ensures row <= WrapFrom(row, rest, width)[0]
    decreases |rest|
  {
    if rest != [] && !(Width(row) + rest[0].width > width && Width(row) > 0) {
      FirstRowGrows(row + [rest[0]], rest[1..], width);
    }
  }

  /** A row that closes passes every later token's place on, one row further down. */
  lemma PlaceAfterBreak(row: Line, rest: Line, i: nat, width: nat)
    requires i < |rest| && Width(row) + rest[0].width > width && Width(row) > 0
    ensures |Concat(WrapFrom(row, rest, width))| == |row| + |rest|
    ensures Concat(WrapFrom([rest[0]], rest[1..], width)) == rest
    ensures var p := Place(WrapFrom([rest[0]], rest[1..], width), i);
            Place(WrapFrom(row, rest, width), |row| + i) == (p.0 + 1, p.1)
  {
    var tail := WrapFrom([rest[0]], rest[1..], width);
    WrapConcat(row, rest, width);
    WrapConcat([rest[0]], rest[1..], width);
    assert [rest[0]] + rest[1..] == rest;
    assert WrapFrom(row, rest, width) == [row] + tail;
    assert ([row] + tail)[1..] == tail;
  }

  /** A row closed early: the division comes out before the token's true place. */
  lemma LateAfterStraddle(row: Line, rest: Line, i: nat, width: nat)
    requires 0 < Width(row) < width && NoneWider(rest, width)
    requires i < |rest| && Width(row) + rest[0].width > width
    ensures !DivisionFinds(row, rest, i, width)
  {
    var tail := WrapFrom([rest[0]], rest[1..], width);
    var pos := Width(row) + Width(rest[..i]);
    PlaceAfterBreak(row, rest, i, width);
    WrapFitsStrictly([rest[0]], rest[1..], width);
    PlaceBound(tail, i, width);
    LateCell(Place(tail, i), Width(rest[..i]), pos, width);
  }

  lemma LateCell(place: (nat, nat), below: nat, pos: nat, width: nat)
    requires width > 0 && place.0 * width + place.1 >= below && pos < width + below
    ensures !IsQuotient(pos, (place.0 + 1, place.1), width)
  {
    QuotientEarlier(place.0, place.1, width, below, pos);
  }

  /** The case of DivisionExact where the next token opens a new row. */
  lemma {:induction false} ExactAtBreak(row: Line, rest: Line, i: nat, width: nat)
    requires width > 0 && Width(row) <= width && NoneWider(rest, width)
    requires i < |rest| && rest[i].width > 0
    requires Width(row) + rest[0].width > width && Width(row) > 0
    ensures DivisionFinds(row, rest, i, width) <==> NoneStraddles(Width(row), rest, i, width)
    decreases |rest|, 2
  {
    var t, rw := rest[0], Width(row);
    assert rest[..0] == [];
    if rw < width {
      DivModUnique(rw, width, 0, rw);
      assert !NoStraddle(rw + Width(rest[..0]), t.width, width);
      LateAfterStraddle(row, rest, i, width);
    } else {
      ExactAfterFull(row, rest, i, width);
    }
  }

  lemma {:induction false} ExactAfterFull(row: Line, rest: Line, i: nat, width: nat)
    requires width > 0 && Width(row) == width && NoneWider(rest, width)
    requires i < |rest| && rest[i].width > 0 && rest[0].width > 0
    ensures DivisionFinds(row, rest, i, width) <==> NoneStraddles(Width(row), rest, i, width)
    decreases |rest|, 1
  {
    assert rest[..0] == [];
    PlaceAfterBreak(row, rest, i, width);
    DivModUnique(width, width, 1, 0);
    if i == 0 {
      FirstRowGrows([rest[0]], rest[1..], width);
      assert WrapFrom([rest[0]], rest[1..], width)[0][..0] == [];
    } else {
      NextRow(rest, i, width);
      StraddleStep(width, rest, i, width);
    }
  }

  /** A full row above: everything below it repeats one row further up. */
  lemma {:induction false} NextRow(rest: Line, i: nat, width: nat)
    requires width > 0 && NoneWider(rest, width)
    requires 1 <= i < |rest| && rest[i].width > 0
    ensures |Concat(WrapFrom([rest[0]], rest[1..], width))| > i
    ensures var p := Place(WrapFrom([rest[0]], rest[1..], width), i);
            IsQuotient(width + Width(rest[..i]), (p.0 + 1, p.1), width) <==>
            NoneStraddles(width + rest[0].width, rest[1..], i - 1, width)
    decreases |rest|, 0
  {
    var t := rest[0];
    WrapConcat([t], rest[1..], width);
    DivisionExact([t], rest[1..], i - 1, width);
    WidthTail(rest, i);
    NextCell(Width(rest[..i]), Place(WrapFrom([t], rest[1..], width), i), width);
    StraddleShift(t.width, rest[1..], i - 1, width);
  }

  lemma NextCell(pos: nat, place: (nat, nat), width: nat)
    requires width > 0
    ensures IsQuotient(width + pos, (place.0 + 1, place.1), width) <==> IsQuotient(pos, place, width)
  {
    ShiftByWidth(pos, width);
  }

  // --- the end of a line ---

  /** Nothing in the line crosses a multiple of the width. */
  ghost predicate AllClear(start: nat, rest: Line, width: nat)
    requires width > 0
  {
    rest == [] || NoneStraddles(start, rest, |rest| - 1, width)
  }

  lemma ClearStep(start: nat, rest: Line, width: nat)
    requires width > 0 && rest != [] && NoStraddle(start, rest[0].width, width)
    ensures AllClear(start, rest, width) <==> AllClear(start + rest[0].width, rest[1..], width)
  {
    assert rest[..0] == [];
    if |rest| > 1 {
      StraddleStep(start, rest, |rest| - 1, width);
    }
  }

  lemma ClearShift(start: nat, rest: Line, width: nat)
    requires width > 0
    ensures AllClear(start + width, rest, width) <==> AllClear(start, rest, width)
  {
    if rest != [] {
      StraddleShift(start, rest, |rest| - 1, width);
    }
  }

  /** The cells up to the end of the last row's text. */
  ghost function Reach(rows: seq<Line>, width: nat): int
    requires rows != []
  {
    (|rows| - 1) * width + Width(rows[|rows| - 1])
  }

  lemma ReachCons(row: Line, rows: seq<Line>, width: nat)
    requires rows != []
    ensures Reach([row] + rows, width) == width + Reach(rows, width)
  {
    MulStep(|rows| - 1, width);
  }

  /** A line reaches its own width exactly when nothing straddles, and further otherwise. */
  lemma {:induction false} ReachExact(row: Line, rest: Line, width: nat)
    requires width > 0 && Width(row) <= width && NoneWider(rest, width)
    ensures Width(row) + Width(rest) <= Reach(WrapFrom(row, rest, width), width)
    ensures Width(row) + Width(rest) == Reach(WrapFrom(row, rest, width), width) <==> AllClear(Width(row), rest, width)
    decreases |rest|
  {
    if rest == [] {
      assert 0 * width == 0;
    } else if Width(row) + rest[0].width > width && Width(row) > 0 {
      ReachAtBreak(row, rest, width);
    } else {
      WidthSnoc(row, rest[0]);
      ReachExact(row + [rest[0]], rest[1..], width);
      FitsWithoutStraddle(Width(row), rest[0].width, width);
      ClearStep(Width(row), rest, width);
    }
  }

  lemma {:induction false} ReachAtBreak(row: Line, rest: Line, width: nat)
    requires width > 0 && 0 < Width(row) <= width && NoneWider(rest, width)
    requires rest != [] && Width(row) + rest[0].width > width
    ensures Width(row) + Width(rest) <= Reach(WrapFrom(row, rest, width), width)
    ensures Width(row) + Width(rest) == Reach(WrapFrom(row, rest, width), width) <==> AllClear(Width(row), rest, width)
    decreases |rest|, 0
  {
    var t := rest[0];
    assert [t][1..] == [] && Width([t]) == t.width;
    ReachExact([t], rest[1..], width);
    ReachCons(row, WrapFrom([t], rest[1..], width), width);
    ClearAtBreak(Width(row), rest, width);
  }

  lemma ClearAtBreak(start: nat, rest: Line, width: nat)
    requires 0 < start <= width && rest != [] && rest[0].width <= width < start + rest[0].width
    ensures AllClear(start, rest, width) <==> start == width && AllClear(rest[0].width, rest[1..], width)
  {
    var t := rest[0];
    assert rest[..0] == [];
    if start < width {
      DivModUnique(start, width, 0, start);
      assert !NoStraddle(start + Width(rest[..0]), t.width, width);
    } else {
      DivModUnique(width, width, 1, 0);
      ClearStep(width, rest, width);
      ClearShift(t.width, rest[1..], width);
    }
  }

  /** On one column, a line takes at least a cell for each row but the last, and more if a glyph is wider. */
  lemma {:induction false} ColumnReach(row: Line, rest: Line)
    ensures var rows := WrapFrom(row, rest, 1);
            var last := Width(rows[|rows| - 1]);
            && Width(row) + Width(rest) >= |rows| - 1 + last
            && (Width(row) + Width(rest) == |rows| - 1 && last == 0 ==> Width(row) <= 1 && NoneWider(rest, 1))
    decreases |rest|
  {
    if rest != [] {
      WidthSnoc(row, rest[0]);
      assert rest == [rest[0]] + rest[1..];
      if Width(row) + rest[0].width > 1 && Width(row) > 0 {
        assert [rest[0]][1..] == [] && Width([rest[0]]) == rest[0].width;
        ColumnReach([rest[0]], rest[1..]);
      } else {
        ColumnReach(row + [rest[0]], rest[1..]);
      }
    }
  }

  /** There a wider glyph always straddles. */
  lemma WiderIsNotClear(line: Line)
    requires AllClear(0, line, 1)
    ensures NoneWider(line, 1)
  {
    forall t | t in line ensures t.width <= 1 {
      var k :| 0 <= k < |line| && line[k] == t;
      assert NoStraddle(0 + Width(line[..k]), line[k].width, 1);
    }
  }

  /** Dividing the width of a whole line names the end of its last row. */
  ghost predicate EndFound(line: Line, width: nat)
    requires width > 0
  {
    var rows := Wrap(line, width);
    IsQuotient(Width(line), (|rows| - 1, Width(rows[|rows| - 1])), width)
  }

  /** It does exactly when nothing straddles and the last row is not full. */
  lemma EndExact(line: Line, width: nat)
    requires width > 0 && (width == 1 || NoneWider(line, width))
    ensures EndFound(line, width) <==>
            var rows := Wrap(line, width); AllClear(0, line, width) && Width(rows[|rows| - 1]) < width
  {
    if NoneWider(line, width) {
      EndWithin(line, width);
    } else {
      ColumnReach([], line);
      if AllClear(0, line, 1) {
        WiderIsNotClear(line);
      }
    }
  }

  lemma EndWithin(line: Line, width: nat)
    requires width > 0 && NoneWider(line, width)
    ensures EndFound(line, width) <==>
            var rows := Wrap(line, width); AllClear(0, line, width) && Width(rows[|rows| - 1]) < width
  {
    var rows := Wrap(line, width);
    var last := |rows| - 1;
    ReachExact([], line, width);
    DivMod(Width(line), width);
    if AllClear(0, line, width) && Width(rows[last]) < width {
      DivModUnique(Width(line), width, last, Width(rows[last]));
    }
  }

  // --- a screen of one column, where a glyph can be wider than the screen ---

  function Visible(line: Line): nat {
    if line == [] then 0 else (if line[0].width > 0 then 1 else 0) + Visible(line[1..])
  }

  lemma {:induction false} VisibleWidth(line: Line)
    ensures Visible(line) <= Width(line) && (Visible(line) == Width(line) <==> NoneWider(line, 1))
  {
    if line != [] {
      VisibleWidth(line[1..]);
      assert line == [line[0]] + line[1..];
    }
  }

  /** Every visible token has a row of its own. */
  lemma {:induction false} PlaceInColumn(row: Line, rest: Line, i: nat)
    requires i < |rest| && rest[i].width > 0
    ensures |Concat(WrapFrom(row, rest, 1))| == |row| + |rest|
    ensures Place(WrapFrom(row, rest, 1), |row| + i) == (Visible(rest[..i]) + Started(Width(row)), 0)
    decreases |rest|
  {
    WrapConcat(row, rest, 1);
    var t := rest[0];
    if i > 0 {
      VisibleTail(rest, i);
    }
    if Width(row) + t.width > 1 && Width(row) > 0 {
      if i == 0 {
        FirstOfColumn(row, rest);
      } else {
        assert [t][1..] == [] && Width([t]) == t.width;
        PlaceInColumn([t], rest[1..], i - 1);
        AfterBreakIs(row, rest, i, Visible(rest[..i]));
      }
    } else if i == 0 {
      PlaceInFirst(row, rest, 1);
    } else {
      WidthSnoc(row, t);
      PlaceInColumn(row + [t], rest[1..], i - 1);
      AfterJoinIs(row, rest, i, Visible(rest[..i]));
    }
  }

  function Started(width: nat): nat {
    if width > 0 then 1 else 0
  }

  lemma VisibleTail(rest: Line, i: nat)
    requires 0 < i <= |rest|
    ensures Visible(rest[..i]) == Started(rest[0].width) + Visible(rest[1..][..i - 1])
  {
    assert rest[..i][1..] == rest[1..][..i - 1];
  }

  lemma FirstOfColumn(row: Line, rest: Line)
    requires rest != [] && Width(row) > 0 && Width(row) + rest[0].width > 1
    ensures |Concat(WrapFrom(row, rest, 1))| == |row| + |rest|
    ensures Place(WrapFrom(row, rest, 1), |row|) == (1, 0)
  {
    PlaceAfterBreak(row, rest, 0, 1);
    FirstRowGrows([rest[0]], rest[1..], 1);
    assert WrapFrom([rest[0]], rest[1..], 1)[0][..0] == [];
  }

  lemma AfterBreakIs(row: Line, rest: Line, i: nat, v: nat)
    requires 0 < i < |rest| && Width(row) > 0 && Width(row) + rest[0].width > 1
    requires |Concat(WrapFrom([rest[0]], rest[1..], 1))| == |rest|
    requires Place(WrapFrom([rest[0]], rest[1..], 1), i) == (v, 0)
    ensures |Concat(WrapFrom(row, rest, 1))| == |row| + |rest|
    ensures Place(WrapFrom(row, rest, 1), |row| + i) == (v + 1, 0)
  {
    PlaceAfterBreak(row, rest, i, 1);
  }

  lemma AfterJoinIs(row: Line, rest: Line, i: nat, v: nat)
    requires 0 < i < |rest| && (Width(row) == 0 || Width(row) + rest[0].width <= 1)
    requires |Concat(WrapFrom(row + [rest[0]], rest[1..], 1))| == |row| + |rest|
    requires Place(WrapFrom(row + [rest[0]], rest[1..], 1), |row| + i) == (v + Started(Width(row)), 0)
    ensures |Concat(WrapFrom(row, rest, 1))| == |row| + |rest|
    ensures Place(WrapFrom(row, rest, 1), |row| + i) == (v + Started(Width(row)), 0)
  {
  }

  /** There the division is right exactly when nothing in front of the token is wider than the screen. */
  lemma ColumnExact(line: Line, i: nat)
    requires i < |line| && line[i].width > 0
    ensures DivisionFinds([], line, i, 1) <==> NoneWider(line[..i], 1)
  {
    WrapConcat([], line, 1);
    PlaceInColumn([], line, i);
    VisibleWidth(line[..i]);
  }

  // --- frame ---

  datatype Frame = Frame(rows: seq<Line>, curRow: nat, curCol: nat)

  /** All the lines wrapped, one after another. */
  function WrapAll(lines: seq<Line>, width: nat): seq<Line> {
    if lines == [] then [] else WrapAll(lines[..|lines| - 1], width) + Wrap(lines[|lines| - 1], width)
  }

  /** The rows of all lines, and the cell reached by dividing the width left of the cursor. */
  function FrameOf(lines: seq<Line>, width: nat, cursorLine: nat, cursorW: nat): Frame
    requires width > 0
  {
    if cursorLine < |lines| then
      Frame(WrapAll(lines, width), |WrapAll(lines[..cursorLine], width)| + cursorW / width, cursorW % width)
    else Frame(WrapAll(lines, width), 0, 0)
  }

  method MakeFrame(lines: seq<Line>, width: nat, cursorLine: nat, cursorW: nat)
    returns (rows: seq<Line>, curRow: nat, curCol: nat)
    requires width > 0
    ensures Frame(rows, curRow, curCol) == FrameOf(lines, width, cursorLine, cursorW)
  {
    rows, curRow, curCol := [], 0, 0;
    for i := 0 to |lines|
      invariant rows == WrapAll(lines[..i], width)
      invariant Frame(rows, curRow, curCol) == FrameOf(lines[..i], width, cursorLine, cursorW)
    {
      if i == cursorLine {
        curRow := |rows| + cursorW / width;
        curCol := cursorW % width;
      }
      var wrapped := WrapLine(lines[i], width);
      rows := rows + wrapped;
      assert lines[..i + 1][..i] == lines[..i];
      if cursorLine <= i { assert lines[..i + 1][..cursorLine] == lines[..i][..cursorLine]; }
    }
    assert lines[..|lines|] == lines;
  }

  lemma {:induction false} WrapAllPrefix(lines: seq<Line>, i: nat, width: nat)
    requires i < |lines|
    ensures WrapAll(lines[..i], width) + Wrap(lines[i], width) <= WrapAll(lines, width)
    ensures |WrapAll(lines, width)| >= |WrapAll(lines[..i], width)| + |Wrap(lines[i], width)| + (|lines| - 1 - i)
    ensures i == |lines| - 1 ==> WrapAll(lines, width) == WrapAll(lines[..i], width) + Wrap(lines[i], width)
  {
    var n := |lines| - 1;
    if i < n {
      WrapAllPrefix(lines[..n], i, width);
      assert lines[..n][..i] == lines[..i];
    }
  }

  /** Rows of at most `width` columns: their number bounds the width of the line. */
  lemma {:induction false} RowsHoldWidth(rows: seq<Line>, width: nat)
    requires forall r <- rows :: Width(r) <= width
    ensures Width(Concat(rows)) <= |rows| * width
  {
    if rows != [] {
      assert forall r <- rows[1..] :: r in rows;
      RowsHoldWidth(rows[1..], width);
      WidthAppend(rows[0], Concat(rows[1..]));
      MulStep(|rows| - 1, width);
      assert Width(rows[0]) <= width;
    }
  }

  lemma WrapHoldsWidth(line: Line, width: nat)
    requires NoneWider(line, width)
    ensures Width(line) <= |Wrap(line, width)| * width
  {
    WrapFitsStrictly([], line, width);
    WrapConcat([], line, width);
    assert [] + line == line;
    RowsHoldWidth(Wrap(line, width), width);
  }

  /** The cursor stands at the end of the last line, and that line fills every row it takes. */
  predicate AtRightEdge(lines: seq<Line>, width: nat, cursorLine: nat, cursorW: nat)
    requires cursorLine < |lines|
  {
    var line := lines[cursorLine];
    cursorLine == |lines| - 1 && cursorW == Width(line) == |Wrap(line, width)| * width
  }

  lemma CursorRowInLine(line: Line, width: nat, cursorW: nat)
    requires width > 0 && NoneWider(line, width) && cursorW <= Width(line)
    ensures cursorW / width <= |Wrap(line, width)|
    ensures cursorW / width < |Wrap(line, width)| <==> cursorW != |Wrap(line, width)| * width
    ensures cursorW == |Wrap(line, width)| * width ==> cursorW == Width(line)
  {
    WrapHoldsWidth(line, width);
    QuotientInside(cursorW, width, |Wrap(line, width)|);
  }

  /** frame puts the cursor inside its own rows in every case but the exact right edge. */
  lemma CursorInsideFrame(lines: seq<Line>, width: nat, cursorLine: nat, cursorW: nat)
    requires width > 0 && cursorLine < |lines|
    requires NoneWider(lines[cursorLine], width) && cursorW <= Width(lines[cursorLine])
    ensures FrameOf(lines, width, cursorLine, cursorW).curRow < |WrapAll(lines, width)| <==>
            !AtRightEdge(lines, width, cursorLine, cursorW)
  {
    var line := lines[cursorLine];
    WrapAllPrefix(lines, cursorLine, width);
    CursorRowInLine(line, width, cursorW);
  }

  lemma WrapWhole(line: Line, width: nat)
    ensures Concat(Wrap(line, width)) == line
  {
    WrapConcat([], line, width);
    assert [] + line == line;
  }

  /** frame, asked about the position left of token j, names the cell that token is printed in. */
  ghost predicate FrameFinds(lines: seq<Line>, width: nat, cursorLine: nat, j: nat)
    requires width > 0 && cursorLine < |lines| && j < |lines[cursorLine]|
  {
    var line := lines[cursorLine];
    WrapWhole(line, width);
    var f := FrameOf(lines, width, cursorLine, Width(line[..j]));
    var place := Place(Wrap(line, width), j);
    f.curRow == |WrapAll(lines[..cursorLine], width)| + place.0 && f.curCol == place.1
  }

  /** No glyph in front of token j pushes it out of step with the division. */
  ghost predicate InStep(line: Line, j: nat, width: nat)
    requires width > 0 && j < |line|
  {
    if width == 1 then NoneWider(line[..j], 1) else NoneStraddles(0, line, j, width)
  }

  /**
   * It does so for a visible token exactly when no glyph up to there straddles the right edge; on a
   * screen of one column, when none in front of it is wider than that.
   */
  lemma FrameFindsCursor(lines: seq<Line>, width: nat, cursorLine: nat, j: nat)
    requires width > 0 && cursorLine < |lines| && j < |lines[cursorLine]|
    requires (width == 1 || NoneWider(lines[cursorLine], width)) && lines[cursorLine][j].width > 0
    ensures FrameFinds(lines, width, cursorLine, j) <==> InStep(lines[cursorLine], j, width)
  {
    var line := lines[cursorLine];
    WrapWhole(line, width);
    if width == 1 {
      ColumnExact(line, j);
    } else {
      DivisionExact([], line, j, width);
    }
    assert DivisionFinds([], line, j, width) <==> FrameFinds(lines, width, cursorLine, j);
  }

  /** frame, asked about the end of a line, names the cell after its last one. */
  ghost predicate FrameFindsEnd(lines: seq<Line>, width: nat, cursorLine: nat)
    requires width > 0 && cursorLine < |lines|
  {
    var line := lines[cursorLine];
    var rows := Wrap(line, width);
    var f := FrameOf(lines, width, cursorLine, Width(line));
    f.curRow == |WrapAll(lines[..cursorLine], width)| + |rows| - 1 && f.curCol == Width(rows[|rows| - 1])
  }

  /** It does so exactly when no glyph of the line straddles and the line stops short of the right edge. */
  lemma FrameFindsLineEnd(lines: seq<Line>, width: nat, cursorLine: nat)
    requires width > 0 && cursorLine < |lines| && (width == 1 || NoneWider(lines[cursorLine], width))
    ensures var line := lines[cursorLine];
            var rows := Wrap(line, width);
            FrameFindsEnd(lines, width, cursorLine) <==>
              AllClear(0, line, width) && Width(rows[|rows| - 1]) < width
  {
    EndExact(lines[cursorLine], width);
    assert EndFound(lines[cursorLine], width) <==> FrameFindsEnd(lines, width, cursorLine);
  }

  /** Single-column tokens, with or without escapes among them, never straddle. */
  lemma NarrowNeverStraddles(line: Line, j: nat, width: nat)
    requires width > 0 && j < |line| && NoneWider(line, 1)
    ensures NoneStraddles(0, line, j, width)
  {
    forall k | 0 <= k <= j
      ensures NoStraddle(0 + Width(line[..k]), line[k].width, width)
    {
      assert line[k].width <= 1;
    }
  }

  /** A double-width glyph pushed off the right edge: the cursor behind it is put one cell early. */
  lemma WideGlyphMisplacesCursor()
    ensures var line := [Token("a", 1), Token("W", 2), Token("b", 1)];
            !FrameFinds([line], 2, 0, 2)
  {
    var line := [Token("a", 1), Token("W", 2), Token("b", 1)];
    FrameFindsCursor([line], 2, 0, 2);
    assert line[..1] == [Token("a", 1)] && line[..1][1..] == [];
    assert !NoStraddle(0 + Width(line[..1]), line[1].width, 2);
  }

  /** The exact right edge: a full line with the cursor after it points below its own rows. */
  lemma FullLineCursorOutside()
    ensures var line := [Token("a", 1), Token("b", 1)];
            FrameOf([line], 2, 0, 2).curRow == 1 == |WrapAll([line], 2)|
  {
    var a, b := Token("a", 1), Token("b", 1);
    var line := [a, b];
    assert line[1..] == [b] && [b][1..] == [] && [] + [a] == [a];
    assert Width([a]) == 1 + Width([a][1..]);
    assert Wrap(line, 2) == WrapFrom([a], [b], 2) == WrapFrom([a] + [b], [], 2);
    var none: seq<Line> := [];
    assert [line][..0] == none && WrapAll([line], 2) == WrapAll(none, 2) + Wrap(line, 2);
  }
}
