/** internal/editor/vi.go: what operators do, told by the keys typed. */
module ViOperators {
  import opened Buffers
  import opened Text
  import opened ViCounts

  // --- counts typed after the operator, or none ---

  function CountKeys(n: nat): seq<Key> { if n == 0 then [] else Digits(n) }

  function Times(n: nat): nat { if n == 0 then 1 else n }

  /** Keys an operator takes: a motion, 0, or the operator again; 0 only where it is not a digit. */
  ghost predicate Operand(op: Op, k: Key, n: nat) {
    k.Move? || k == Operator(op) || (k == Digit(0) && n == 0)
  }

  lemma Typed(env: Env, v: Vi, op: Op, k: Key, n: nat)
    requires Idle(v) && env.Lawful() && op != NoOp && Operand(op, k, n)
    ensures PressAll(env, v, [Operator(op)] + CountKeys(n) + [k]) == Press(env, v.(pendingOp := op, count := n), k)
  {
    if n == 0 {
      assert [Operator(op)] + CountKeys(n) + [k] == [Operator(op)] + [k];
      Uncounted(env, v, op, k);
    } else {
      TypedBehind(env, v, op, k, n);
      assert v.(pendingOp := op, count := n) == v.(pendingOp := op, count := n, opCount := 0);
    }
  }

  lemma Uncounted(env: Env, v: Vi, op: Op, k: Key)
    requires Idle(v) && env.Lawful() && op != NoOp
    ensures PressAll(env, v, [Operator(op)] + [k]) == Press(env, v.(pendingOp := op, count := 0), k)
  {
    var w := v.(pendingOp := op, count := 0);
    PressAppend(env, v, [Operator(op)], [k]);
    assert Press(env, v, Operator(op)) == w;
    PressOne(env, v, Operator(op));
    PressOne(env, w, k);
  }

  lemma PressOne(env: Env, v: Vi, k: Key)
    requires v.cursor <= |v.text| && env.Lawful()
    ensures PressAll(env, v, [k]) == Press(env, v, k)
  {
    assert [k][1..] == [];
  }

  // --- over a motion ---

  /** Where the key leads, and whether what stands there is part of the span. c takes w for e on a word. */
  function Landing(env: Env, v: Vi, op: Op, k: Key, n: nat): (nat, bool)
    requires v.cursor <= |v.text| && env.Lawful()
  {
    match k
    case Move(m) =>
      var m := if op == Change && m.Word? && v.cursor < |v.text| && !env.alphabet.space(v.text[v.cursor])
               then End(m.big) else m;
      (Target(env, v.text, m, v.cursor, Times(n)), m.End?)
    case _ => (RunStart(v.text, v.cursor, IN_LINE), false)
  }

  /** From the cursor ahead, or from behind up to the cursor. */
  function SpanOf(env: Env, v: Vi, end: nat, inclusive: bool): (nat, nat)
    requires end <= |v.text| && env.Lawful()
  {
    if end < v.cursor then (end, v.cursor) else (v.cursor, if inclusive then env.next(v.text, end) else end)
  }

  ghost predicate Quiet(v: Vi) { v.count == 0 && v.opCount == 0 && v.pendingOp == NoOp }

  /** Normal mode: on the character at `want`, or before it where a line that has any ends there. */
  ghost predicate RestsAt(env: Env, text: seq<char>, want: nat, cursor: nat) {
    && want <= |text|
    && if (want < |text| && text[want] != '\n') || want == 0 || text[want - 1] == '\n' then cursor == want
       else cursor == env.prev(text, want)
  }

  /** What an operator leaves of v, over text[from..to]. */
  ghost predicate Acted(env: Env, v: Vi, t: Vi, op: Op, from: nat, to: nat)
    requires to <= |v.text|
  {
    && Quiet(t)
    && if from >= to then t == v
       else
         && t.reg == v.text[from..to] && !t.regLinewise
         && match op
            case Yank => t.text == v.text && t.cursor == from && !t.inserting
            case Delete =>
              t.text == v.text[..from] + v.text[to..] && RestsAt(env, t.text, from, t.cursor) && !t.inserting
            case Change => t.text == v.text[..from] + v.text[to..] && t.cursor == from && t.inserting
            case NoOp => false
  }

  lemma ClampedRests(env: Env, text: seq<char>, want: nat)
    requires want <= |text| && env.Lawful()
    ensures RestsAt(env, text, want, Clamped(env, text, want))
  {
  }

  lemma OperatedActs(env: Env, v: Vi, op: Op, from: nat, to: nat)
    requires v.cursor <= |v.text| && !v.inserting && to <= |v.text| && env.Lawful() && op != NoOp
    requires v.pendingOp == op && v.count == 0 && v.opCount == 0
    ensures Acted(env, v.(pendingOp := NoOp), Operated(env, v, op, from, to, false), op, from, to)
  {
    if from < to {
      ClampedRests(env, v.text[..from] + v.text[to..], from);
    }
  }

  /**
   * d, c or y with a count and a motion: the text outside the span is left alone, or all of it under
   * y; the register gets the span; the cursor stands at its start; and c inserts, if the span is not
   * empty.
   */
  lemma OperatorOverMotion(env: Env, v: Vi, op: Op, k: Key, n: nat)
    requires Idle(v) && env.Lawful() && op != NoOp && (k.Move? || (k == Digit(0) && n == 0))
    ensures var t := PressAll(env, v, [Operator(op)] + CountKeys(n) + [k]);
            var (end, inclusive) := Landing(env, v, op, k, n);
            end <= |v.text| && var (from, to) := SpanOf(env, v, end, inclusive); Acted(env, v, t, op, from, to)
  {
    Typed(env, v, op, k, n);
    var (end, inclusive) := Landing(env, v, op, k, n);
    var (from, to) := SpanOf(env, v, end, inclusive);
    OperatedActs(env, v.(pendingOp := op), op, from, to);
  }

  /** A motion with a count moves, and does nothing else. */
  lemma MotionOnlyMoves(env: Env, v: Vi, m: Motion, n: nat)
    requires Idle(v) && env.Lawful()
    ensures var t := PressAll(env, v, CountKeys(n) + [Move(m)]);
            && t == v.(cursor := t.cursor)
            && RestsAt(env, v.text, Target(env, v.text, m, v.cursor, Times(n)), t.cursor)
  {
    if n > 0 {
      DigitsCount(env, v, n);
    }
    PressAppend(env, v, CountKeys(n), [Move(m)]);
    PressOne(env, PressAll(env, v, CountKeys(n)), Move(m));
    ClampedRests(env, v.text, Target(env, v.text, m, v.cursor, Times(n)));
  }

  // --- over whole lines ---

  /** How many lines end before i. */
  function Row(text: seq<char>, i: nat): nat
    requires i <= |text|
  {
    |Split(text[..i], '\n')| - 1
  }

  ghost predicate StartsRow(text: seq<char>, cursor: nat, row: nat) {
    cursor <= |text| && Row(text, cursor) == row && (cursor == 0 || text[cursor - 1] == '\n')
  }

  function Min(a: nat, b: nat): nat { if a < b then a else b }

  /** What stays under the lines cut: the lines below, or an empty one at the end. */
  function Below(lines: seq<string>, last: nat): seq<string>
    requires last <= |lines|
  {
    if last < |lines| then lines[last..] else [""]
  }

  /** What an operator leaves of v, over n lines from a row on; an empty last line is no span. */
  ghost predicate ActedOnLines(v: Vi, t: Vi, op: Op, lines: seq<string>, row: nat, n: nat)
    requires row < |lines|
  {
    var last := Min(row + n, |lines|);
    && Quiet(t)
    && if lines[row..] == [""] then t == v
       else
         && t.regLinewise && Split(t.reg, '\n') == lines[row..last] + (if last < |lines| then [""] else [])
         && StartsRow(t.text, t.cursor, row)
         && match op
            case Yank => t.text == v.text && !t.inserting
            case Delete => Split(t.text, '\n') == lines[..row] + Below(lines, last) && !t.inserting
            case Change =>
              && t.inserting
              && Split(t.text, '\n') == lines[..row] + [""] +
                   (if last < |lines| || lines[|lines| - 1] == "" then Below(lines, last) else [])
            case NoOp => false
  }

  lemma EndsClosed(a: string)
    requires a == "" || a[|a| - 1] == '\n'
    ensures Rest(a, '\n') == ""
  {
    if a != "" {
      var b := a[..|a| - 1];
      SplitGlue(b, "\n", '\n');
      assert a == b + "\n";
      assert "\n"[1..] == "" && Split("\n", '\n') == ["", ""];
    }
  }

  lemma SplitBehind(a: string, b: string)
    requires Rest(a, '\n') == ""
    ensures Split(a + b, '\n') == Closed(a, '\n') + Split(b, '\n')
  {
    SplitAppend(a, b, '\n');
    LastPart(a + b);
    LastPart(b);
    Assoc(Closed(a, '\n'), Closed(b, '\n'), [Rest(b, '\n')]);
  }

  lemma LastPart(s: string)
    ensures Split(s, '\n') == Closed(s, '\n') + [Rest(s, '\n')]
  {
  }

  /** s is cut behind its first n lines, if it has more. */
  ghost predicate CutAfter(s: string, n: nat, cut: string, rest: string) {
    var lines := Split(s, '\n');
    n < |lines| ==> Split(cut, '\n') == lines[..n] + [""] && Split(rest, '\n') == lines[n..]
  }

  lemma CutOneMore(head: string, s: string, n: nat, cut: string, rest: string)
    requires '\n' !in head && CutAfter(s, n, cut, rest)
    ensures CutAfter(head + ['\n'] + s, n + 1, head + ['\n'] + cut, rest)
  {
    SplitHead(head, s, '\n');
    SplitHead(head, cut, '\n');
    var lines := Split(s, '\n');
    if n < |lines| {
      assert ([head] + lines)[n + 1..] == lines[n..];
      assert ([head] + lines)[..n + 1] + [""] == [head] + (lines[..n] + [""]);
    }
  }

  /** The range from a line's start to r is its first n lines, or all there are. */
  ghost predicate RangeCuts(text: string, from: nat, n: nat, r: nat)
    requires from <= r <= |text|
  {
    && CutAfter(text[from..], n, text[from..r], text[r..])
    && (n < |Split(text[from..], '\n')| || r == |text|)
  }

  /** text[from..next] is the rest of a line and its ending. */
  ghost predicate IsLine(text: string, from: nat, next: nat) {
    from < next <= |text| && '\n' !in text[from..next - 1] && text[next - 1] == '\n'
  }

  lemma RangeOneMore(text: string, from: nat, next: nat, n: nat, r: nat)
    requires IsLine(text, from, next) && next <= r <= |text| && RangeCuts(text, next, n, r)
    ensures RangeCuts(text, from, n + 1, r)
  {
    var head, s := text[from..next - 1], text[next..];
    CutOneMore(head, s, n, text[next..r], text[r..]);
    SplitHead(head, s, '\n');
    LineInFront(text, from, next, r);
  }

  lemma RangeNone(text: string, from: nat)
    requires from <= |text|
    ensures RangeCuts(text, from, 0, from)
  {
    assert text[from..from] == "";
  }

  lemma RangeLast(text: string, from: nat, n: nat)
    requires n > 0 && from <= |text| && '\n' !in text[from..]
    ensures RangeCuts(text, from, n, |text|)
  {
    assert text[from..|text|] == text[from..];
    SplitPlain(text[from..], '\n');
  }

  /** What holds of every range, built up from the last line to the first. */
  ghost predicate Builds(text: string, holds: (nat, nat, nat) -> bool) {
    && (forall from: nat :: from <= |text| ==> holds(from, 0, from))
    && (forall from: nat, n: nat :: n > 0 && from <= |text| && '\n' !in text[from..] ==> holds(from, n, |text|))
    && (forall from: nat, next: nat, n: nat, r: nat :: IsLine(text, from, next) && holds(next, n, r) ==>
          holds(from, n + 1, r))
  }

  lemma {:induction false} LinesEndBuilds(text: string, holds: (nat, nat, nat) -> bool, from: nat, n: nat)
    requires from <= |text| && Builds(text, holds)
    ensures holds(from, n, LinesEnd(text, from, n))
    decreases n
  {
    if n > 0 {
      var end := LineFrom(text, from, n - 1);
      if end < |text| {
        LinesEndBuilds(text, holds, end + 1, n - 1);
      }
    }
  }

  /** The line the range starts on, and the rest of the range. */
  lemma LineFrom(text: string, from: nat, n: nat) returns (end: nat)
    requires from <= |text|
    ensures from <= end <= |text|
    ensures if end < |text| then
              IsLine(text, from, end + 1) && LinesEnd(text, from, n + 1) == LinesEnd(text, end + 1, n)
            else
              '\n' !in text[from..] && LinesEnd(text, from, n + 1) == |text|
  {
    end := RunEnd(text, from, IN_LINE);
    if end == |text| { StaysAtEnd(text, n); }
  }

  ghost function Cutting(text: string): (nat, nat, nat) -> bool {
    (from: nat, n: nat, r: nat) => from <= r <= |text| && RangeCuts(text, from, n, r)
  }

  lemma CuttingBuilds(text: string)
    ensures Builds(text, Cutting(text))
  {
    forall from: nat | from <= |text| ensures RangeCuts(text, from, 0, from) {
      RangeNone(text, from);
    }
    forall from: nat, n: nat | n > 0 && from <= |text| && '\n' !in text[from..]
      ensures RangeCuts(text, from, n, |text|)
    {
      RangeLast(text, from, n);
    }
    forall from: nat, next: nat, n: nat, r: nat | IsLine(text, from, next) && Cutting(text)(next, n, r)
      ensures RangeCuts(text, from, n + 1, r)
    {
      RangeOneMore(text, from, next, n, r);
    }
  }

  /** What the line range takes, as lines. */
  lemma LinesEndCuts(text: string, from: nat, n: nat, r: nat)
    requires from <= |text| && r == LinesEnd(text, from, n)
    ensures RangeCuts(text, from, n, r)
  {
    CuttingBuilds(text);
    LinesEndBuilds(text, Cutting(text), from, n);
  }

  lemma {:induction false} StaysAtEnd(text: string, n: nat)
    ensures LinesEnd(text, |text|, n) == |text|
    decreases n
  {
    if n > 0 { StaysAtEnd(text, n - 1); }
  }

  lemma LineInFront(text: string, from: nat, next: nat, r: nat)
    requires from < next <= r <= |text| && text[next - 1] == '\n'
    ensures text[from..] == text[from..next - 1] + ['\n'] + text[next..]
    ensures text[from..r] == text[from..next - 1] + ['\n'] + text[next..r]
  {
  }

  lemma LinesEndMoves(text: string, from: nat, n: nat)
    requires from <= |text| && n > 0
    ensures from < |text| <==> from < LinesEnd(text, from, n)
  {
    if from == |text| { StaysAtEnd(text, n); }
  }

  /** The lines in front of a line's start, and the text from there on. */
  lemma LinesInFront(text: string, cursor: nat, from: nat)
    requires cursor <= |text| && from == RunStart(text, cursor, IN_LINE)
    ensures Rest(text[..from], '\n') == ""
    ensures Split(text, '\n') == Closed(text[..from], '\n') + Split(text[from..], '\n')
    ensures Row(text, cursor) == |Closed(text[..from], '\n')|
  {
    EndsClosed(text[..from]);
    SplitBehind(text[..from], text[from..]);
    SplitBehind(text[..from], text[from..cursor]);
    SplitPlain(text[from..cursor], '\n');
    assert text == text[..from] + text[from..] && text[..cursor] == text[..from] + text[from..cursor];
  }

  lemma StartsItsRow(text: string, front: string)
    requires Rest(front, '\n') == "" && front <= text && (front == "" || front[|front| - 1] == '\n')
    ensures StartsRow(text, |front|, |Closed(front, '\n')|)
  {
    assert text[..|front|] == front;
  }

  lemma NothingThere(s: string)
    ensures Split(s, '\n') == [""] <==> s == ""
  {
    if s != "" && s[0] != '\n' {
      assert Split(s, '\n')[0][0] == s[0];
    }
  }

  lemma EndsInBreak(s: string)
    requires s != ""
    ensures Rest(s, '\n') == "" <==> s[|s| - 1] == '\n'
  {
    var b := s[..|s| - 1];
    var c := s[|s| - 1];
    assert s == b + [c];
    SplitGlue(b, [c], '\n');
    assert [c][1..] == "";
    if c == '\n' {
      EndsClosed(s);
    } else {
      SplitPlain([c], '\n');
    }
  }

  /** What is left of the text, as lines, when `lines` followed `front` and the first n were taken. */
  ghost predicate Left(left: seq<string>, op: Op, front: seq<string>, lines: seq<string>, n: nat)
    requires |lines| > 0
  {
    match op
    case Delete => left == front + Below(lines, Min(n, |lines|))
    case Change =>
      left == front + [""] +
        (if n < |lines| || lines[|lines| - 1] == "" then Below(lines, Min(n, |lines|)) else [])
    case _ => true
  }

  lemma LeftByDelete(front: string, s: string, n: nat, cut: string, rest: string)
    requires Rest(front, '\n') == "" && CutAfter(s, n, cut, rest)
    requires n < |Split(s, '\n')| || (cut == s && rest == "")
    ensures Left(Split(front + rest, '\n'), Delete, Closed(front, '\n'), Split(s, '\n'), n)
  {
    SplitBehind(front, rest);
  }

  /** A line ending was cut exactly if lines are left below, or the last one was empty. */
  lemma BreakCut(s: string, n: nat, cut: string, rest: string)
    requires CutAfter(s, n, cut, rest) && cut != ""
    requires n < |Split(s, '\n')| || (cut == s && rest == "")
    ensures var lines := Split(s, '\n');
            cut[|cut| - 1] == '\n' <==> n < |lines| || lines[|lines| - 1] == ""
  {
    EndsInBreak(cut);
  }

  lemma SplitAroundBreak(front: string, rest: string)
    requires Rest(front, '\n') == ""
    ensures Split(front + "\n" + rest, '\n') == Closed(front, '\n') + [""] + Split(rest, '\n')
  {
    assert front + "\n" + rest == front + ("\n" + rest);
    SplitBehind(front, "\n" + rest);
    assert ("\n" + rest)[1..] == rest;
    Assoc(Closed(front, '\n'), [""], Split(rest, '\n'));
  }

  lemma LeftByChange(front: string, s: string, n: nat, cut: string, rest: string)
    requires Rest(front, '\n') == "" && CutAfter(s, n, cut, rest) && cut != ""
    requires n < |Split(s, '\n')| || (cut == s && rest == "")
    ensures Left(Split(if cut[|cut| - 1] == '\n' then front + "\n" + rest else front + rest, '\n'),
                 Change, Closed(front, '\n'), Split(s, '\n'), n)
  {
    BreakCut(s, n, cut, rest);
    if cut[|cut| - 1] == '\n' {
      SplitAroundBreak(front, rest);
    } else {
      SplitBehind(front, rest);
    }
  }

  /** The register's lines. */
  lemma RegisterLines(text: string, from: nat, n: nat, to: nat)
    requires from <= to <= |text| && RangeCuts(text, from, n, to)
    ensures var lines := Split(text[from..], '\n');
            Split(text[from..to], '\n') == lines[..Min(n, |lines|)] + (if n < |lines| then [""] else [])
  {
    var lines := Split(text[from..], '\n');
    if n >= |lines| {
      assert text[from..to] == text[from..] && lines[..|lines|] + [] == lines;
    }
  }

  /** The same over the lines of the whole text. */
  lemma RowsOfAll(front: seq<string>, lines: seq<string>, n: nat)
    requires |lines| > 0
    ensures var all, row := front + lines, |front|;
            var last := Min(row + n, |all|);
            && all[..row] == front && all[row..] == lines && all[row..last] == lines[..Min(n, |lines|)]
            && (last < |all| <==> n < |lines|) && Below(all, last) == Below(lines, Min(n, |lines|))
            && all[|all| - 1] == lines[|lines| - 1]
  {
  }

  /** The text and cursor an operator leaves of its span, from the start of a line on. */
  lemma LinesOperated(env: Env, v: Vi, op: Op, from: nat, to: nat)
    requires v.cursor <= |v.text| && !v.inserting && env.Lawful() && op != NoOp && from < to <= |v.text|
    requires from == 0 || v.text[from - 1] == '\n'
    ensures var t := Operated(env, v, op, from, to, true);
            && Quiet(t) && t.regLinewise && t.reg == v.text[from..to] && t.cursor == from
            && t.inserting == (op == Change) && t.text == Rewritten(op, v.text, from, to)
  {
    if op == Delete {
      var kept := v.text[..from] + v.text[to..];
      assert from > 0 ==> kept[from - 1] == '\n';
    }
  }

  lemma ActsOnRows(v: Vi, t: Vi, op: Op, front: seq<string>, lines: seq<string>, n: nat)
    requires |lines| > 0 && lines != [""] && op != NoOp
    requires Quiet(t) && t.regLinewise && t.inserting == (op == Change) && StartsRow(t.text, t.cursor, |front|)
    requires Split(t.reg, '\n') == lines[..Min(n, |lines|)] + (if n < |lines| then [""] else [])
    requires Left(Split(t.text, '\n'), op, front, lines, n) && (op == Yank ==> t.text == v.text)
    ensures ActedOnLines(v, t, op, front + lines, |front|, n)
  {
    RowsOfAll(front, lines, n);
  }

  /** The text an operator leaves of a span. */
  function Rewritten(op: Op, text: string, from: nat, to: nat): string
    requires from < to <= |text|
  {
    var front, cut, rest := text[..from], text[from..to], text[to..];
    match op
    case Delete => front + rest
    case Change => if cut[|cut| - 1] == '\n' then front + "\n" + rest else front + rest
    case _ => text
  }

  lemma LinesLeft(text: string, op: Op, from: nat, to: nat, n: nat)
    requires from < to <= |text| && Rest(text[..from], '\n') == "" && RangeCuts(text, from, n, to)
    ensures Left(Split(Rewritten(op, text, from, to), '\n'), op,
                 Closed(text[..from], '\n'), Split(text[from..], '\n'), n)
  {
    assert to == |text| ==> text[from..to] == text[from..] && text[to..] == "";
    if op == Delete {
      LeftByDelete(text[..from], text[from..], n, text[from..to], text[to..]);
    } else if op == Change {
      LeftByChange(text[..from], text[from..], n, text[from..to], text[to..]);
    }
  }

  lemma FrontStays(text: string, op: Op, from: nat, to: nat)
    requires from < to <= |text| && Rest(text[..from], '\n') == "" && (from == 0 || text[from - 1] == '\n')
    ensures StartsRow(Rewritten(op, text, from, to), from, |Closed(text[..from], '\n')|)
  {
    assert text[..from] <= Rewritten(op, text, from, to);
    StartsItsRow(Rewritten(op, text, from, to), text[..from]);
  }

  /**
   * dd, cc and yy with a count take exactly that many lines from the cursor's on, or all there are:
   * the register gets them, dd removes them, and cc leaves an empty line where a line ending was cut.
   */
  lemma OperatorOverLines(env: Env, v: Vi, op: Op, n: nat)
    requires Idle(v) && env.Lawful() && op != NoOp
    ensures var t := PressAll(env, v, [Operator(op)] + CountKeys(n) + [Operator(op)]);
            var lines, row := Split(v.text, '\n'), Row(v.text, v.cursor);
            row < |lines| && ActedOnLines(v, t, op, lines, row, Times(n))
  {
    Typed(env, v, op, Operator(op), n);
    var w := v.(pendingOp := op);
    var from := RunStart(v.text, v.cursor, IN_LINE);
    var to := LinesEnd(v.text, from, Times(n));
    LinesEndMoves(v.text, from, Times(n));
    if from < to {
      WholeLines(env, v, op, from, to, Times(n));
    } else {
      NoLines(v, op, from, Times(n));
    }
  }

  lemma WholeLines(env: Env, v: Vi, op: Op, from: nat, to: nat, n: nat)
    requires Idle(v) && env.Lawful() && op != NoOp && n > 0 && from == RunStart(v.text, v.cursor, IN_LINE)
    requires to == LinesEnd(v.text, from, n) && from < to
    ensures Row(v.text, v.cursor) < |Split(v.text, '\n')|
    ensures ActedOnLines(v, Operated(env, v.(pendingOp := op), op, from, to, true), op,
                         Split(v.text, '\n'), Row(v.text, v.cursor), n)
  {
    var t := Operated(env, v.(pendingOp := op), op, from, to, true);
    LinesOperated(env, v.(pendingOp := op), op, from, to);
    LinesEndCuts(v.text, from, n, to);
    LinesInFront(v.text, v.cursor, from);
    LinesLeft(v.text, op, from, to, n);
    FrontStays(v.text, op, from, to);
    RegisterLines(v.text, from, n, to);
    NothingThere(v.text[from..]);
    ActsOnRows(v, t, op, Closed(v.text[..from], '\n'), Split(v.text[from..], '\n'), n);
  }

  lemma NoLines(v: Vi, op: Op, from: nat, n: nat)
    requires Idle(v) && from == RunStart(v.text, v.cursor, IN_LINE) && from == |v.text|
    ensures Row(v.text, v.cursor) < |Split(v.text, '\n')|
    ensures ActedOnLines(v, v, op, Split(v.text, '\n'), Row(v.text, v.cursor), n)
  {
    LinesInFront(v.text, v.cursor, from);
    NothingThere(v.text[from..]);
    RowsOfAll(Closed(v.text[..from], '\n'), Split(v.text[from..], '\n'), n);
  }

  /** cc on an empty last line, such as an empty command: nothing is cut, and it does not insert. */
  lemma ChangeOfEmptyLine(env: Env, v: Vi)
    requires Idle(v) && env.Lawful() && v.text == ""
    ensures PressAll(env, v, [Operator(Change), Operator(Change)]) == v
  {
    var op := Operator(Change);
    assert [op, op] == [op] + CountKeys(0) + [op];
    OperatorOverLines(env, v, Change, 0);
    assert v.text[..v.cursor] == "";
  }
}
