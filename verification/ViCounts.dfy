/** internal/editor/vi.go: counts, operators and the motions they apply to. */
module ViCounts {
  import opened Buffers
  import opened ViWords

  datatype Op = NoOp | Delete | Change | Yank

  /** w, b and e, `big` being the upper-case form; h, l and $. */
  datatype Motion = Word(big: bool) | Back(big: bool) | End(big: bool) | Left | Right | LineEnd

  datatype Key = Escape | Digit(d: nat) | Operator(op: Op) | Move(m: Motion)

  /** The text tables, and the grapheme boundaries around an index. */
  datatype Env = Env(alphabet: Alphabet, next: (seq<char>, nat) -> nat, prev: (seq<char>, nat) -> nat) {
    ghost predicate Lawful() {
      && (forall t, i :: next(t, i) <= |t|)
      && (forall t, i :: prev(t, i) <= |t|)
    }
  }

  /** The buffer and the modal layer's memory, in normal mode unless `inserting`. */
  datatype Vi = Vi(text: seq<char>, cursor: nat, inserting: bool,
                   count: nat, opCount: nat, pendingOp: Op, reg: seq<char>, regLinewise: bool)

  function Clear(v: Vi): Vi {
    v.(count := 0, opCount := 0, pendingOp := NoOp)
  }

  /** The count in force: the typed ones multiplied, each defaulting to 1. */
  function CountOf(v: Vi): nat {
    (if v.count > 1 then v.count else 1) * (if v.opCount > 0 then v.opCount else 1)
  }

  function Consume(v: Vi): Vi {
    v.(count := 0, opCount := 0)
  }

  /** One application of a motion; h and l stay on the line. */
  function Hop(env: Env, text: seq<char>, m: Motion, i: nat): (r: nat)
    requires i <= |text| && env.Lawful()
    ensures r <= |text|
  {
    match m
    case Word(big) => NextStart(env.alphabet, text, big, i)
    case Back(big) => PrevStart(env.alphabet, text, big, i)
    case End(big) => NextEnd(env.alphabet, text, big, i)
    case Left => if i <= RunStart(text, i, IN_LINE) then i else env.prev(text, i)
    case Right => if i >= RunEnd(text, i, IN_LINE) then i else env.next(text, i)
    case LineEnd => RunEnd(text, i, IN_LINE)
  }

  /** h goes back and l ahead within the line; $ is at its end. */
  lemma HopsExactly(env: Env, text: seq<char>, i: nat)
    requires i <= |text| && env.Lawful()
    ensures Hop(env, text, Left, i) == if i > 0 && text[i - 1] != '\n' then env.prev(text, i) else i
    ensures Hop(env, text, Right, i) == if i < |text| && text[i] != '\n' then env.next(text, i) else i
    ensures var r := Hop(env, text, LineEnd, i);
            i <= r <= |text| && '\n' !in text[i..r] && (r < |text| ==> text[r] == '\n')
  {
  }

  /** The position n applications of the motion away. */
  function Target(env: Env, text: seq<char>, m: Motion, i: nat, n: nat): (r: nat)
    requires i <= |text| && env.Lawful()
    ensures r <= |text|
    decreases n
  {
    if n == 0 then i else Target(env, text, m, Hop(env, text, m, i), n - 1)
  }

  /** h and l stop at the line's ends, and $ is already there: more of the same changes nothing. */
  lemma {:induction false} StaysPut(env: Env, text: seq<char>, m: Motion, i: nat, n: nat)
    requires i <= |text| && env.Lawful() && Hop(env, text, m, i) == i
    ensures Target(env, text, m, i, n) == i
    decreases n
  {
    if n > 0 { StaysPut(env, text, m, i, n - 1); }
  }

  /** In normal mode the cursor stays on a character. */
  function Clamped(env: Env, text: seq<char>, cursor: nat): (r: nat)
    requires cursor <= |text| && env.Lawful()
    ensures r <= |text|
  {
    var end := RunEnd(text, cursor, IN_LINE);
    if cursor >= end > RunStart(text, cursor, IN_LINE) then env.prev(text, end) else cursor
  }

  /** Start of the cursor's line to the end of the n-th line from it, line ending included. */
  function LinesEnd(text: seq<char>, to: nat, n: nat): (r: nat)
    requires to <= |text|
    ensures to <= r <= |text|
    decreases n
  {
    if n == 0 then to
    else
      var end := RunEnd(text, to, IN_LINE);
      LinesEnd(text, if end < |text| then end + 1 else end, n - 1)
  }

  /** d, c or y over text[from..to]. */
  function Operated(env: Env, v: Vi, op: Op, from: nat, to: nat, linewise: bool): (w: Vi)
    requires v.cursor <= |v.text| && to <= |v.text| && env.Lawful()
    ensures w.cursor <= |w.text|
  {
    var w := Clear(v);
    if from >= to then w
    else
      var cut := v.text[from..to];
      var kept := v.text[..from] + v.text[to..];
      var w := w.(reg := cut, regLinewise := linewise);
      if op == Yank then w.(cursor := from)
      else if op == Change then
        w.(text := if linewise && cut[|cut| - 1] == '\n' then v.text[..from] + "\n" + v.text[to..] else kept,
           cursor := from, inserting := true)
      else w.(text := kept, cursor := if w.inserting then from else Clamped(env, kept, from))
  }

  function Moved(env: Env, v: Vi, to: nat, inclusive: bool): (w: Vi)
    requires v.cursor <= |v.text| && to <= |v.text| && env.Lawful()
    ensures w.cursor <= |w.text|
  {
    if v.pendingOp == NoOp then v.(cursor := if v.inserting then to else Clamped(env, v.text, to))
    else if v.cursor > to then Operated(env, v, v.pendingOp, to, v.cursor, false)
    else Operated(env, v, v.pendingOp, v.cursor, if inclusive then env.next(v.text, to) else to, false)
  }

  /** cw on a non-blank is ce. */
  function Resolved(env: Env, v: Vi, m: Motion): Motion {
    if m.Word? && v.pendingOp == Change && v.cursor < |v.text| && !env.alphabet.space(v.text[v.cursor])
    then End(m.big) else m
  }

  /** One key in normal mode. */
  function Press(env: Env, v: Vi, k: Key): (w: Vi)
    requires v.cursor <= |v.text| && env.Lawful()
    ensures w.cursor <= |w.text|
  {
    match k
    case Escape => Clear(v)
    case Digit(d) =>
      if d > 0 || v.count > 0 then v.(count := v.count * 10 + d)
      else Moved(env, Consume(v), RunStart(v.text, v.cursor, IN_LINE), false)
    case Operator(op) =>
      if op != NoOp && v.pendingOp == op then
        Operated(env, Consume(v), op, RunStart(v.text, v.cursor, IN_LINE),
                 LinesEnd(v.text, RunStart(v.text, v.cursor, IN_LINE), CountOf(v)), true)
      else v.(pendingOp := op, opCount := v.count, count := 0)
    case Move(m) =>
      var m := Resolved(env, v, m);
      Moved(env, Consume(v), Target(env, v.text, m, v.cursor, CountOf(v)), m.End?)
  }

  function PressAll(env: Env, v: Vi, keys: seq<Key>): (w: Vi)
    requires v.cursor <= |v.text| && env.Lawful()
    ensures w.cursor <= |w.text|
    decreases |keys|
  {
    if keys == [] then v
    else PressAll(env, Press(env, v, keys[0]), keys[1..])
  }

  lemma {:induction false} PressAppend(env: Env, v: Vi, a: seq<Key>, b: seq<Key>)
    requires v.cursor <= |v.text| && env.Lawful()
    ensures PressAll(env, v, a + b) == PressAll(env, PressAll(env, v, a), b)
    decreases |a|
  {
    if a == [] {
      assert a + b == b;
    } else {
      PressAppend(env, Press(env, v, a[0]), a[1..], b);
      assert (a + b)[1..] == a[1..] + b;
    }
  }

  /** The keys that type a number. */
  function Digits(n: nat): (keys: seq<Key>)
    ensures forall k <- keys :: k.Digit? && k.d < 10
  {
    if n < 10 then [Digit(n)] else Digits(n / 10) + [Digit(n % 10)]
  }

  /** Typing a positive number with no count pending makes it the count and touches nothing else. */
  lemma {:induction false} DigitsCount(env: Env, v: Vi, n: nat)
    requires v.cursor <= |v.text| && env.Lawful() && v.count == 0 && n > 0
    ensures PressAll(env, v, Digits(n)) == v.(count := n)
  {
    if n >= 10 {
      DigitsCount(env, v, n / 10);
      PressAppend(env, v, Digits(n / 10), [Digit(n % 10)]);
      assert [Digit(n % 10)][1..] == [];
    } else {
      assert Digits(n)[1..] == [];
    }
  }

  ghost predicate Idle(v: Vi) {
    v.cursor <= |v.text| && !v.inserting && v.count == 0 && v.opCount == 0 && v.pendingOp == NoOp
  }

  /** The key completes the operator: a motion, or the operator again. */
  predicate Completes(op: Op, last: Key) {
    last.Move? || last == Operator(op)
  }

  /** What an operator under a total count n does. */
  function Counted(env: Env, v: Vi, op: Op, last: Key, n: nat): Vi
    requires v.cursor <= |v.text| && env.Lawful()
  {
    Press(env, v.(pendingOp := op, count := n, opCount := 0), last)
  }

  /** Only the product of the two counts matters to the key that completes the operator. */
  lemma OnlyProduct(env: Env, v: Vi, op: Op, last: Key, a: nat, b: nat)
    requires Idle(v) && env.Lawful() && op != NoOp && Completes(op, last)
    ensures Press(env, v.(pendingOp := op, opCount := a, count := b), last) ==
            Counted(env, v, op, last, (if a > 0 then a else 1) * (if b > 0 then b else 1))
  {
    var v1 := v.(pendingOp := op, opCount := a, count := b);
    var n := (if a > 0 then a else 1) * (if b > 0 then b else 1);
    var v2 := v.(pendingOp := op, opCount := 0, count := n);
    assert n >= 1 by { Positive(if a > 0 then a else 1, if b > 0 then b else 1); }
    assert CountOf(v1) == CountOf(v2);
    assert Consume(v1) == Consume(v2);
  }

  lemma Positive(a: nat, b: nat)
    requires a >= 1 && b >= 1
    ensures a * b >= 1
  {
  }

  lemma TypedBefore(env: Env, v: Vi, op: Op, last: Key, a: nat, b: nat)
    requires Idle(v) && env.Lawful() && op != NoOp && Completes(op, last) && a > 0 && b > 0
    ensures PressAll(env, v, Digits(a) + [Operator(op)] + Digits(b) + [last]) == Counted(env, v, op, last, a * b)
  {
    var v1 := v.(count := a);
    var v2 := v.(pendingOp := op, opCount := a);
    DigitsCount(env, v, a);
    assert PressAll(env, v1, [Operator(op)]) == v2 by { assert [Operator(op)][1..] == []; }
    DigitsCount(env, v2, b);
    PressAppend(env, v, Digits(a), [Operator(op)]);
    PressAppend(env, v, Digits(a) + [Operator(op)], Digits(b));
    PressAppend(env, v, Digits(a) + [Operator(op)] + Digits(b), [last]);
    assert [last][1..] == [];
    OnlyProduct(env, v, op, last, a, b);
  }

  /** `n op key` */
  lemma TypedInFront(env: Env, v: Vi, op: Op, last: Key, n: nat)
    requires Idle(v) && env.Lawful() && op != NoOp && Completes(op, last) && n > 0
    ensures PressAll(env, v, Digits(n) + [Operator(op)] + [last]) == Counted(env, v, op, last, n)
  {
    var v1 := v.(count := n);
    DigitsCount(env, v, n);
    assert PressAll(env, v1, [Operator(op)]) == v.(pendingOp := op, opCount := n) by {
      assert [Operator(op)][1..] == [];
    }
    PressAppend(env, v, Digits(n), [Operator(op)]);
    PressAppend(env, v, Digits(n) + [Operator(op)], [last]);
    assert [last][1..] == [];
    OnlyProduct(env, v, op, last, n, 0);
  }

  /** `op n key` */
  lemma TypedBehind(env: Env, v: Vi, op: Op, last: Key, n: nat)
    requires Idle(v) && env.Lawful() && op != NoOp && Completes(op, last) && n > 0
    ensures PressAll(env, v, [Operator(op)] + Digits(n) + [last]) == Counted(env, v, op, last, n)
  {
    var v1 := v.(pendingOp := op);
    assert PressAll(env, v, [Operator(op)]) == v1 by { assert [Operator(op)][1..] == []; }
    DigitsCount(env, v1, n);
    PressAppend(env, v, [Operator(op)], Digits(n));
    PressAppend(env, v, [Operator(op)] + Digits(n), [last]);
    assert [last][1..] == [];
  }

  /**
   * `a op b key`, `op (a*b) key` and `(a*b) op key` leave the same text, cursor, register and mode,
   * for every operator, motion (or doubled operator) and pair of positive counts.
   */
  lemma CountsMultiply(env: Env, v: Vi, op: Op, last: Key, a: nat, b: nat)
    requires Idle(v) && env.Lawful() && op != NoOp && Completes(op, last) && a > 0 && b > 0
    ensures PressAll(env, v, Digits(a) + [Operator(op)] + Digits(b) + [last]) ==
            PressAll(env, v, [Operator(op)] + Digits(a * b) + [last])
    ensures PressAll(env, v, Digits(a) + [Operator(op)] + Digits(b) + [last]) ==
            PressAll(env, v, Digits(a * b) + [Operator(op)] + [last])
  {
    Positive(a, b);
    TypedBefore(env, v, op, last, a, b);
    TypedInFront(env, v, op, last, a * b);
    TypedBehind(env, v, op, last, a * b);
  }

  /** `d` with count n and `w` removes exactly the text up to the n-th word start ahead. */
  lemma DeleteWords(env: Env, v: Vi, big: bool, n: nat)
    requires Idle(v) && env.Lawful() && n > 0 && v.cursor < |v.text|
    ensures var t := PressAll(env, v, [Operator(Delete)] + Digits(n) + [Move(Word(big))]);
            var end := Target(env, v.text, Word(big), v.cursor, n);
            && v.cursor < end
            && t.text == v.text[..v.cursor] + v.text[end..] && t.reg == v.text[v.cursor..end]
            && !t.regLinewise && Idle(t)
  {
    TypedBehind(env, v, Delete, Move(Word(big)), n);
    TargetAhead(env, v.text, big, v.cursor, n);
  }

  lemma {:induction false} TargetAhead(env: Env, text: seq<char>, big: bool, i: nat, n: nat)
    requires i <= |text| && env.Lawful()
    ensures Target(env, text, Word(big), i, n) >= i
    ensures n > 0 && i < |text| ==> Target(env, text, Word(big), i, n) > i
    decreases n
  {
    if n > 0 { TargetAhead(env, text, big, NextStart(env.alphabet, text, big, i), n - 1); }
  }

  /** The modal layer over a buffer it edits in place. */
  class ViEditor {
    const env: Env
    const buf: Buffer
    var inserting: bool
    var count: nat
    var opCount: nat
    var pendingOp: Op
    var reg: seq<char>
    var regLinewise: bool

    ghost predicate Valid()
      reads this, buf
    {
      buf.Valid() && env.Lawful() && buf.alphabet == env.alphabet
    }

    ghost function State(): Vi
      reads this, buf
    {
      Vi(buf.text, buf.cursor, inserting, count, opCount, pendingOp, reg, regLinewise)
    }

    constructor (env: Env, buf: Buffer)
      requires env.Lawful() && buf.Valid() && buf.alphabet == env.alphabet
      ensures Valid() && this.buf == buf && this.env == env
      ensures State() == Vi(buf.text, buf.cursor, true, 0, 0, NoOp, [], false)
    {
      this.env, this.buf := env, buf;
      inserting, count, opCount, pendingOp, reg, regLinewise := true, 0, 0, NoOp, [], false;
    }

    method ClearPending()
      modifies this
      ensures State() == Clear(old(State()))
    {
      count, opCount, pendingOp := 0, 0, NoOp;
    }

    method TakeCount() returns (n: nat)
      modifies this
      ensures n == CountOf(old(State())) && State() == Consume(old(State()))
    {
      n := if count > 1 then count else 1;
      if opCount > 0 {
        n := n * opCount;
      }
      count, opCount := 0, 0;
    }

    method ClampCursor()
      requires Valid()
      modifies buf
      ensures Valid() && buf.text == old(buf.text)
      ensures buf.cursor == if inserting then old(buf.cursor) else Clamped(env, buf.text, old(buf.cursor))
    {
      if inserting {
        return;
      }
      var end := buf.ScanForward(buf.cursor, IN_LINE);
      var start := buf.ScanBack(buf.cursor, IN_LINE);
      if buf.cursor >= end && end > start {
        buf.cursor := env.prev(buf.text, end);
      }
    }

    method Operate(op: Op, from: nat, to: nat, linewise: bool)
      requires Valid() && to <= |buf.text| && op != NoOp
      modifies this, buf
      ensures Valid() && State() == Operated(env, old(State()), op, from, to, linewise)
    {
      ClearPending();
      if from >= to {
        return;
      }
      var text := buf.text[from..to];
      reg, regLinewise := text, linewise;
      if op == Yank {
        buf.cursor := from;
        return;
      }
      var _ := buf.DeleteRange(from, to);
      buf.cursor := from;
      if op == Change {
        if linewise && text[|text| - 1] == '\n' {
          buf.Insert("\n");
          buf.cursor := buf.cursor - 1;
        }
        inserting := true;
        return;
      }
      ClampCursor();
    }

    method ApplyMotion(to: nat, inclusive: bool)
      requires Valid() && to <= |buf.text|
      modifies this, buf
      ensures Valid() && State() == Moved(env, old(State()), to, inclusive)
    {
      if pendingOp == NoOp {
        buf.cursor := to;
        ClampCursor();
        return;
      }
      var from, end := buf.cursor, to;
      if from > end {
        from, end := end, from;
      } else if inclusive {
        end := env.next(buf.text, end);
      }
      Operate(pendingOp, from, end, false);
    }

    method LinewiseEnd(from: nat, n: nat) returns (to: nat)
      requires Valid() && from <= |buf.text|
      ensures to == LinesEnd(buf.text, from, n)
    {
      to := from;
      var left := n;
      while left > 0
        invariant to <= |buf.text| && LinesEnd(buf.text, to, left) == LinesEnd(buf.text, from, n)
      {
        to := buf.ScanForward(to, IN_LINE);
        if to < |buf.text| {
          to := to + 1;
        }
        left := left - 1;
      }
    }

    method Travel(m: Motion, n: nat) returns (i: nat)
      requires Valid() && n > 0
      ensures i == Target(env, buf.text, m, buf.cursor, n)
    {
      if m.LineEnd? {
        i := buf.ScanForward(buf.cursor, IN_LINE);
        StaysPut(env, buf.text, m, i, n - 1);
        return;
      }
      i := buf.cursor;
      var left := n;
      while left > 0
        invariant i <= |buf.text| && Target(env, buf.text, m, i, left) == Target(env, buf.text, m, buf.cursor, n)
      {
        var next := Step(m, i);
        if next == i && (m.Left? || m.Right?) {
          StaysPut(env, buf.text, m, i, left);
          return;
        }
        i, left := next, left - 1;
      }
    }

    method Step(m: Motion, i: nat) returns (r: nat)
      requires Valid() && i <= |buf.text|
      ensures r == Hop(env, buf.text, m, i)
    {
      match m {
        case Word(big) => r := WordForward(env.alphabet, buf.text, i, big);
        case Back(big) => r := WordBack(env.alphabet, buf.text, i, big);
        case End(big) => r := WordEndForward(env.alphabet, buf.text, i, big);
        case Left =>
          r := buf.ScanBack(i, IN_LINE);
          r := if i <= r then i else env.prev(buf.text, i);
        case Right =>
          r := buf.ScanForward(i, IN_LINE);
          r := if i >= r then i else env.next(buf.text, i);
        case LineEnd =>
          r := buf.ScanForward(i, IN_LINE);
      }
    }

    method DispatchKey(k: Key)
      requires Valid()
      modifies this, buf
      ensures Valid() && State() == Press(env, old(State()), k)
    {
      match k {
        case Escape => ClearPending();
        case Digit(d) =>
          if d > 0 || count > 0 {
            count := count * 10 + d;
          } else {
            var _ := TakeCount();
            var to := buf.ScanBack(buf.cursor, IN_LINE);
            ApplyMotion(to, false);
          }
        case Operator(op) =>
          if op != NoOp && pendingOp == op {
            var n := TakeCount();
            var from := buf.ScanBack(buf.cursor, IN_LINE);
            var to := LinewiseEnd(from, n);
            Operate(op, from, to, true);
          } else {
            pendingOp, opCount, count := op, count, 0;
          }
        case Move(m) =>
          var motion := m;
          if m.Word? && pendingOp == Change && buf.cursor < |buf.text| && !env.alphabet.space(buf.text[buf.cursor]) {
            motion := End(m.big);
          }
          var n := TakeCount();
          var i := Travel(motion, n);
          ApplyMotion(i, motion.End?);
      }
    }
  }
}
