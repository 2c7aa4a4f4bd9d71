/** internal/editor/killring.go and the kill and yank commands of internal/editor/editor.go. */
module KillRings {
  import opened Arith
  import opened Buffers

  const KILL_RING_MAX := 60

  type Text = seq<char>

  // --- the ring, most recent kill last ---

  function Pushed(ring: seq<Text>, s: Text): (r: seq<Text>)
    ensures s != [] ==> |r| > 0 && r[|r| - 1] == s
  {
    if s == [] then ring
    else
      var r := ring + [s];
      if |r| > KILL_RING_MAX then r[1..] else r
  }

  function Coalesced(ring: seq<Text>, s: Text, prepend: bool): (r: seq<Text>)
    ensures |r| >= |ring|
  {
    if s == [] then ring
    else if |ring| == 0 then Pushed(ring, s)
    else
      var last := |ring| - 1;
      ring[last := if prepend then s + ring[last] else ring[last] + s]
  }

  function TopOf(ring: seq<Text>): Text {
    if |ring| == 0 then [] else ring[|ring| - 1]
  }

  function Rotated(ring: seq<Text>): (r: seq<Text>)
    ensures |r| == |ring|
  {
    if |ring| < 2 then ring else [ring[|ring| - 1]] + ring[..|ring| - 1]
  }

  /** The last 60 of the ring and the new entry, if there is one. */
  lemma PushedIs(ring: seq<Text>, s: Text)
    requires |ring| <= 60
    ensures var r := Pushed(ring, s);
            if s == [] then r == ring else |r| <= 60 && (if |ring| < 60 then r == ring + [s] else r == ring[1..] + [s])
  {
  }

  class KillRing {
    var entries: seq<Text>

    constructor ()
      ensures entries == []
    {
      entries := [];
    }

    method Push(s: Text)
      modifies this
      ensures entries == Pushed(old(entries), s)
    {
      if s == [] {
        return;
      }
      entries := entries + [s];
      if |entries| > KILL_RING_MAX {
        entries := entries[1..];
      }
    }

    method Coalesce(s: Text, prepend: bool)
      modifies this
      ensures entries == Coalesced(old(entries), s, prepend)
    {
      if s == [] {
        return;
      }
      if |entries| == 0 {
        Push(s);
        return;
      }
      var last := |entries| - 1;
      if prepend {
        entries := entries[last := s + entries[last]];
      } else {
        entries := entries[last := entries[last] + s];
      }
    }

    method Top() returns (s: Text)
      ensures s == TopOf(entries)
    {
      if |entries| == 0 {
        return [];
      }
      return entries[|entries| - 1];
    }

    method Rotate()
      modifies this
      ensures entries == Rotated(old(entries))
    {
      if |entries| < 2 {
        return;
      }
      var last := |entries| - 1;
      var top := entries[last];
      entries := [entries[0]] + entries[..last];
      entries := entries[0 := top];
    }
  }

  /** The ring after k rotations. */
  function RotatedBy(ring: seq<Text>, k: nat): seq<Text> {
    if k == 0 then ring else Rotated(RotatedBy(ring, k - 1))
  }

  /** k rotations have moved the last j entries to the front. */
  ghost predicate MovedToFront(ring: seq<Text>, k: nat, j: nat)
    requires j < |ring|
  {
    RotatedBy(ring, k) == ring[|ring| - j..] + ring[..|ring| - j]
  }

  lemma RotateStep(ring: seq<Text>, k: nat, j: nat)
    requires j < |ring| && MovedToFront(ring, k, j)
    ensures MovedToFront(ring, k + 1, if j + 1 < |ring| then j + 1 else 0)
  {
    assert ring[|ring|..] + ring[..|ring|] == ring;
  }

  lemma {:induction false} RotationsMove(ring: seq<Text>, k: nat)
    requires |ring| > 0
    ensures MovedToFront(ring, k, k % |ring|)
  {
    if k == 0 {
      assert ring[|ring|..] + ring[..|ring|] == ring;
      assert k % |ring| == 0;
    } else {
      RotationsMove(ring, k - 1);
      var j := (k - 1) % |ring|;
      RotateStep(ring, k - 1, j);
      NextResidue(k - 1, |ring|);
      var j' := k % |ring|;
      assert j' == if j + 1 < |ring| then j + 1 else 0;
    }
  }

  lemma TopAfterMove(ring: seq<Text>, k: nat, j: nat)
    requires j < |ring| && MovedToFront(ring, k, j)
    ensures TopOf(RotatedBy(ring, k)) == ring[|ring| - 1 - j]
    ensures j == 0 ==> RotatedBy(ring, k) == ring
  {
  }

  /** k rotations bring the entry k places back, cyclically, to the top; n of them change nothing. */
  lemma RotatedByIs(ring: seq<Text>, k: nat)
    requires |ring| > 0
    ensures TopOf(RotatedBy(ring, k)) == ring[|ring| - 1 - k % |ring|]
    ensures k % |ring| == 0 ==> RotatedBy(ring, k) == ring
  {
    RotationsMove(ring, k);
    TopAfterMove(ring, k, k % |ring|);
  }

  // --- the commands ---

  datatype Kind = ToLineEnd | ToLineStart | ToWhitespace | WordBack | WordForward

  datatype Command = Kill(k: Kind) | Yank | YankPop | SelfInsert(c: char) | MoveTo(i: nat)

  /** A numeric argument being typed; a minus sign alone counts for one. */
  datatype Arg = NoArg | Arg(typed: bool, digits: nat, negative: bool)

  function WithDigit(a: Arg, d: nat): Arg {
    match a
    case NoArg => Arg(true, d, false)
    case Arg(_, n, negative) => Arg(true, 10 * n + d, negative)
  }

  /** Only in front. */
  function WithMinus(a: Arg): Arg {
    if a.NoArg? then Arg(false, 0, true) else a
  }

  function CountOf(a: Arg): int {
    match a
    case NoArg => 1
    case Arg(typed, digits, negative) =>
      var n := if typed then digits else 1;
      if negative then -n else n
  }

  /** The bindings that a count runs again; the kills to the ends of the line are not among them. */
  predicate Repeatable(c: Command) {
    c.Yank? || (c.Kill? && (c.k.ToWhitespace? || c.k.WordBack? || c.k.WordForward?))
  }

  function Abs(n: int): nat {
    if n < 0 then -n else n
  }

  /** How often one key press runs its command. MoveTo stands for where a movement ends, counted or not. */
  function Times(c: Command, n: int): nat {
    if c.SelfInsert? || (n != 1 && Repeatable(c)) then Abs(n) else 1
  }

  /** The editor: buffer, ring, argument, and what the last event and this one were. */
  datatype Ed = Ed(text: Text, cursor: nat, ring: seq<Text>,
                   lastWasKill: bool, thisKill: bool, lastWasYank: bool, thisYank: bool,
                   yankStart: nat, yankEnd: nat, arg: Arg)

  ghost predicate Bounds(s: Ed) {
    s.cursor <= |s.text| && (s.lastWasKill || s.thisKill ==> TopOf(s.ring) != [])
  }

  /** The text just yanked ends at the cursor. */
  ghost predicate Yanked(s: Ed) {
    s.yankStart <= s.yankEnd == s.cursor
  }

  /** Between events. Typing an argument is an event too, neither kill nor yank. */
  ghost predicate Sane(s: Ed) {
    && Bounds(s) && (s.lastWasYank ==> Yanked(s) && !s.lastWasKill)
    && (s.lastWasKill || s.lastWasYank ==> s.arg == NoArg)
  }

  /** During an event that runs c, once or several times. */
  ghost predicate Within(s: Ed, c: Command) {
    && Bounds(s)
    && (s.thisKill ==> c.Kill?)
    && (s.thisYank ==> (c.Yank? || c.YankPop?) && Yanked(s))
    && (c.YankPop? && s.lastWasYank ==> Yanked(s) && !s.lastWasKill)
  }

  /** The span a kill removes: it touches the cursor on one side. */
  function KillSpan(a: Alphabet, text: Text, cursor: nat, k: Kind): (span: (nat, nat))
    requires cursor <= |text|
    ensures span.0 <= cursor <= span.1 <= |text|
    ensures if Prepends(k) then span.1 == cursor else span.0 == cursor
  {
    match k
    case ToLineEnd =>
      var end := RunEnd(text, cursor, IN_LINE);
      (cursor, if end == cursor < |text| then end + 1 else end)
    case ToLineStart => (RunStart(text, cursor, IN_LINE), cursor)
    case ToWhitespace => (RunStart(text, RunStart(text, cursor, a.space), Not(a.space)), cursor)
    case WordBack => (RunStart(text, RunStart(text, cursor, Not(a.word)), a.word), cursor)
    case WordForward => (cursor, RunEnd(text, RunEnd(text, cursor, Not(a.word)), a.word))
  }

  function Prepends(k: Kind): bool {
    k.ToLineStart? || k.ToWhitespace? || k.WordBack?
  }

  /** All of text[from..to] is of a kind. */
  ghost predicate All(text: Text, from: nat, to: nat, p: char -> bool)
    requires to <= |text|
  {
    forall i :: from <= i < to ==> p(text[i])
  }

  /** text[from..to] is some of kind p and then some of kind q, as much as there is, ending at `to`. */
  ghost predicate RunsBack(text: Text, from: nat, mid: nat, to: nat, p: char -> bool, q: char -> bool) {
    && from <= mid <= to <= |text| && All(text, from, mid, p) && All(text, mid, to, q)
    && (from > 0 ==> !p(text[from - 1])) && (mid > 0 ==> !q(text[mid - 1]))
  }

  /** The same starting at `from`. */
  ghost predicate RunsAhead(text: Text, from: nat, mid: nat, to: nat, q: char -> bool, p: char -> bool) {
    && from <= mid <= to <= |text| && All(text, from, mid, q) && All(text, mid, to, p)
    && (mid < |text| ==> !q(text[mid])) && (to < |text| ==> !p(text[to]))
  }

  /**
   * What a kill takes: the rest of the line, or its break when nothing is left of it; the line up to
   * the cursor; blanks and then non-blanks backward; separators and then a word, either way.
   */
  ghost predicate Takes(a: Alphabet, text: Text, cursor: nat, k: Kind, from: nat, to: nat) {
    && from <= to <= |text|
    && match k
       case ToLineEnd =>
         from == cursor && if cursor < |text| && text[cursor] == '\n' then to == cursor + 1
                           else '\n' !in text[from..to] && (to < |text| ==> text[to] == '\n')
       case ToLineStart => to == cursor && '\n' !in text[from..to] && (from > 0 ==> text[from - 1] == '\n')
       case ToWhitespace => to == cursor && exists mid :: RunsBack(text, from, mid, to, Not(a.space), a.space)
       case WordBack => to == cursor && exists mid :: RunsBack(text, from, mid, to, a.word, Not(a.word))
       case WordForward => from == cursor && exists mid :: RunsAhead(text, from, mid, to, Not(a.word), a.word)
  }

  lemma RunsBackIs(text: Text, to: nat, p: char -> bool, q: char -> bool, from: nat)
    requires to <= |text|
    ensures (exists mid :: RunsBack(text, from, mid, to, p, q)) <==>
            from == RunStart(text, RunStart(text, to, q), p)
  {
    var mid := RunStart(text, to, q);
    assert RunsBack(text, RunStart(text, mid, p), mid, to, p, q);
    forall m | RunsBack(text, from, m, to, p, q) ensures m == mid && from == RunStart(text, mid, p) {
      BackTo(text, m, to, q);
      BackTo(text, from, m, p);
    }
  }

  lemma BackTo(text: Text, from: nat, to: nat, p: char -> bool)
    requires from <= to <= |text| && All(text, from, to, p) && (from > 0 ==> !p(text[from - 1]))
    ensures RunStart(text, to, p) == from
  {
  }

  lemma RunsAheadIs(text: Text, from: nat, q: char -> bool, p: char -> bool, to: nat)
    requires from <= |text|
    ensures (exists mid :: RunsAhead(text, from, mid, to, q, p)) <==> to == RunEnd(text, RunEnd(text, from, q), p)
  {
    var mid := RunEnd(text, from, q);
    assert RunsAhead(text, from, mid, RunEnd(text, mid, p), q, p);
    forall m | RunsAhead(text, from, m, to, q, p) ensures m == mid && to == RunEnd(text, mid, p) {
      AheadTo(text, from, m, q);
      AheadTo(text, m, to, p);
    }
  }

  lemma AheadTo(text: Text, from: nat, to: nat, p: char -> bool)
    requires from <= to <= |text| && All(text, from, to, p) && (to < |text| ==> !p(text[to]))
    ensures RunEnd(text, from, p) == to
  {
  }

  /** There is one such span, and it is the one removed. */
  lemma KillSpanExact(a: Alphabet, text: Text, cursor: nat, k: Kind, from: nat, to: nat)
    requires cursor <= |text|
    ensures Takes(a, text, cursor, k, from, to) <==> (from, to) == KillSpan(a, text, cursor, k)
  {
    match k {
      case ToLineEnd => LineEndIs(text, cursor, to);
      case ToLineStart => LineStartIs(text, from, cursor);
      case ToWhitespace => RunsBackIs(text, cursor, Not(a.space), a.space, from);
      case WordBack => RunsBackIs(text, cursor, a.word, Not(a.word), from);
      case WordForward => RunsAheadIs(text, cursor, Not(a.word), a.word, to);
    }
  }

  lemma LineEndIs(text: Text, cursor: nat, to: nat)
    requires cursor <= |text|
    ensures cursor <= to <= |text| && '\n' !in text[cursor..to] && (to < |text| ==> text[to] == '\n') <==>
            to == RunEnd(text, cursor, IN_LINE)
  {
    if cursor <= to <= |text| && '\n' !in text[cursor..to] && (to < |text| ==> text[to] == '\n') {
      assert forall i :: cursor <= i < to ==> text[i] in text[cursor..to];
      AheadTo(text, cursor, to, IN_LINE);
    }
  }

  lemma LineStartIs(text: Text, from: nat, cursor: nat)
    requires cursor <= |text|
    ensures from <= cursor && '\n' !in text[from..cursor] && (from > 0 ==> text[from - 1] == '\n') <==>
            from == RunStart(text, cursor, IN_LINE)
  {
    if from <= cursor && '\n' !in text[from..cursor] && (from > 0 ==> text[from - 1] == '\n') {
      assert forall i :: from <= i < cursor ==> text[i] in text[from..cursor];
      BackTo(text, from, cursor, IN_LINE);
    }
  }

  /** What the kills remove, as far as the ring is concerned: a span touching the cursor on one side. */
  ghost predicate Touching(f: (Text, nat, Kind) -> (nat, nat)) {
    forall text: Text, cursor: nat, k: Kind :: cursor <= |text| ==>
      var span := f(text, cursor, k);
      span.0 <= cursor <= span.1 <= |text| && cursor == if Prepends(k) then span.1 else span.0
  }

  type Spans = f: (Text, nat, Kind) -> (nat, nat) | Touching(f) ghost witness (t, c, k) => (c, c)

  /** The spans of the five kill commands. */
  function SpansOf(a: Alphabet): Spans {
    var f := (text: Text, cursor: nat, k: Kind) =>
               if cursor <= |text| then KillSpan(a, text, cursor, k) else (cursor, cursor);
    assert Touching(f);
    f
  }

  function Killed(f: Spans, s: Ed, k: Kind): Text
    requires s.cursor <= |s.text|
  {
    var span := f(s.text, s.cursor, k);
    s.text[span.0..span.1]
  }

  /** Cutting text[from..to] at the cursor into the ring. */
  function Cut(s: Ed, from: nat, to: nat, prepend: bool): (t: Ed)
    requires Bounds(s) && from <= s.cursor <= to <= |s.text|
    ensures Bounds(t)
  {
    var killed := s.text[from..to];
    s.(text := s.text[..from] + s.text[to..], cursor := from,
       ring := if s.lastWasKill then Coalesced(s.ring, killed, prepend) else Pushed(s.ring, killed),
       thisKill := s.thisKill || killed != [])
  }

  function KillOnce(f: Spans, s: Ed, k: Kind): (t: Ed)
    requires Bounds(s)
    ensures Bounds(t)
  {
    var span := f(s.text, s.cursor, k);
    Cut(s, span.0, span.1, Prepends(k))
  }

  function YankOnce(s: Ed): Ed
    requires Bounds(s)
  {
    var top := TopOf(s.ring);
    if top == [] then s
    else
      s.(text := s.text[..s.cursor] + top + s.text[s.cursor..], cursor := s.cursor + |top|,
         yankStart := s.cursor, yankEnd := s.cursor + |top|, thisYank := true)
  }

  function PopOnce(s: Ed): Ed
    requires Bounds(s) && (s.lastWasYank ==> Yanked(s))
  {
    if !s.lastWasYank then s
    else
      var ring := Rotated(s.ring);
      var top := TopOf(ring);
      s.(text := s.text[..s.yankStart] + top + s.text[s.yankEnd..], cursor := s.yankStart + |top|,
         ring := ring, yankEnd := s.yankStart + |top|, thisYank := true)
  }

  function InsertOnce(s: Ed, ch: char): Ed
    requires Bounds(s)
  {
    s.(text := s.text[..s.cursor] + [ch] + s.text[s.cursor..], cursor := s.cursor + 1)
  }

  /** One run of a command, within an event. */
  function Execute(f: Spans, s: Ed, c: Command): (t: Ed)
    requires Within(s, c)
    ensures Within(t, c) && t.lastWasKill == s.lastWasKill && t.lastWasYank == s.lastWasYank && t.arg == s.arg
  {
    match c
    case Kill(k) => KillOnce(f, s, k)
    case SelfInsert(ch) => InsertOnce(s, ch)
    case MoveTo(i) => s.(cursor := if i < |s.text| then i else |s.text|)
    case Yank => YankOnce(s)
    case YankPop => PopOnce(s)
  }

  /** A command run n times within one event, as a count makes it. */
  function Repeat(f: Spans, s: Ed, c: Command, n: nat): (t: Ed)
    requires Within(s, c)
    ensures Within(t, c) && t.lastWasKill == s.lastWasKill && t.lastWasYank == s.lastWasYank && t.arg == s.arg
  {
    if n == 0 then s else Execute(f, Repeat(f, s, c, n - 1), c)
  }

  function Begin(s: Ed): Ed {
    s.(thisKill := false, thisYank := false)
  }

  function Close(s: Ed): Ed {
    s.(lastWasKill := s.thisKill, lastWasYank := s.thisYank)
  }

  /** One key event that runs a command n times: what it was becomes what the last event was. */
  function Dispatch(f: Spans, s: Ed, c: Command, n: nat): (t: Ed)
    requires Sane(s) && s.arg == NoArg
    ensures Sane(t) && t.arg == NoArg
  {
    Close(Repeat(f, Begin(s), c, n))
  }

  datatype Key = Digit(d: nat) | Minus | Run(c: Command)

  /** A key, with whatever argument has been typed in front of it. */
  function Press(f: Spans, s: Ed, key: Key): (t: Ed)
    requires Sane(s)
    ensures Sane(t)
  {
    match key
    case Digit(d) => Close(Begin(s)).(arg := WithDigit(s.arg, d))
    case Minus => Close(Begin(s)).(arg := WithMinus(s.arg))
    case Run(c) => Dispatch(f, s.(arg := NoArg), c, Times(c, CountOf(s.arg)))
  }

  // --- what typing does ---

  /** The keys that type a number. */
  function NumberKeys(n: nat): (keys: seq<Key>)
    ensures |keys| >= 1 && forall k <- keys :: k.Digit? && k.d < 10
  {
    if n < 10 then [Digit(n)] else NumberKeys(n / 10) + [Digit(n % 10)]
  }

  lemma AfterOne(f: Spans, s: Ed, key: Key)
    requires Sane(s)
    ensures After(f, s, [key]) == Press(f, s, key)
  {
    assert [key][..0] == [];
  }

  lemma AfterMore(f: Spans, s: Ed, keys: seq<Key>, key: Key)
    requires Sane(s)
    ensures After(f, s, keys + [key]) == Press(f, After(f, s, keys), key)
  {
    assert (keys + [key])[..|keys|] == keys;
  }

  ghost predicate Quiet(s: Ed) { Sane(s) && !s.lastWasKill && !s.lastWasYank && !s.thisKill && !s.thisYank }

  /** Digits after digits, or after a minus sign. */
  lemma {:induction false} DigitsTyped(f: Spans, s: Ed, n: nat)
    requires Quiet(s) && (s.arg == NoArg || (!s.arg.typed && s.arg.digits == 0))
    ensures After(f, s, NumberKeys(n)) == s.(arg := Arg(true, n, s.arg.Arg? && s.arg.negative))
  {
    if n < 10 {
      AfterOne(f, s, Digit(n));
    } else {
      DigitsTyped(f, s, n / 10);
      AfterMore(f, s, NumberKeys(n / 10), Digit(n % 10));
    }
  }

  /** The count a number typed in front of a command gives it; a minus sign alone counts for minus one. */
  lemma NumberCounts(f: Spans, s: Ed, n: nat)
    requires Quiet(s) && s.arg == NoArg
    ensures CountOf(s.arg) == 1
    ensures After(f, s, NumberKeys(n)) == s.(arg := After(f, s, NumberKeys(n)).arg)
    ensures CountOf(After(f, s, NumberKeys(n)).arg) == n
    ensures var m := Press(f, s, Minus);
            && Sane(m) && m == s.(arg := m.arg) && CountOf(m.arg) == -1
            && After(f, m, NumberKeys(n)) == s.(arg := After(f, m, NumberKeys(n)).arg)
            && CountOf(After(f, m, NumberKeys(n)).arg) == -(n as int)
            && Press(f, m, Minus) == m
  {
    DigitsTyped(f, s, n);
    DigitsTyped(f, Press(f, s, Minus), n);
  }

  function Copies(ch: char, n: nat): Text {
    if n == 0 then [] else Copies(ch, n - 1) + [ch]
  }

  lemma {:induction false} InsertRepeats(f: Spans, s: Ed, ch: char, n: nat)
    requires Within(s, SelfInsert(ch))
    ensures |Copies(ch, n)| == n
    ensures Repeat(f, s, SelfInsert(ch), n) ==
            s.(text := s.text[..s.cursor] + Copies(ch, n) + s.text[s.cursor..], cursor := s.cursor + n)
  {
    if n == 0 {
      assert s.text == s.text[..s.cursor] + [] + s.text[s.cursor..];
    } else {
      InsertRepeats(f, s, ch, n - 1);
      var t := Repeat(f, s, SelfInsert(ch), n - 1);
      assert t.text[..t.cursor] == s.text[..s.cursor] + Copies(ch, n - 1) && t.text[t.cursor..] == s.text[s.cursor..];
      assert s.text[..s.cursor] + Copies(ch, n - 1) + [ch] == s.text[..s.cursor] + (Copies(ch, n - 1) + [ch]);
    }
  }

  /** A character is typed as often as its count says, and ends a run of kills and of yanks. */
  lemma CharacterTyped(f: Spans, s: Ed, ch: char)
    requires Sane(s)
    ensures var t := Press(f, s, Run(SelfInsert(ch)));
            var n := if CountOf(s.arg) < 0 then -CountOf(s.arg) else CountOf(s.arg);
            && t.text == s.text[..s.cursor] + Copies(ch, n) + s.text[s.cursor..] && t.cursor == s.cursor + n
            && t.ring == s.ring && !t.lastWasKill && !t.lastWasYank
  {
    InsertRepeats(f, Begin(s.(arg := NoArg)), ch, Abs(CountOf(s.arg)));
  }

  /** A movement moves, no further than the end, and ends a run of kills and of yanks. */
  lemma CursorMoved(f: Spans, s: Ed, i: nat)
    requires Sane(s)
    ensures var t := Press(f, s, Run(MoveTo(i)));
            && t.text == s.text && t.ring == s.ring && !t.lastWasKill && !t.lastWasYank
            && t.cursor <= |s.text| && (i <= |s.text| ==> t.cursor == i) && (i > |s.text| ==> t.cursor == |s.text|)
  {
    var b := Begin(s.(arg := NoArg));
    assert Repeat(f, b, MoveTo(i), 1) == Execute(f, Repeat(f, b, MoveTo(i), 0), MoveTo(i));
  }

  // --- a run of kills can be taken back ---

  /** The text with the top of the ring put back at the cursor. */
  function Restored(s: Ed): Text
    requires s.cursor <= |s.text|
  {
    s.text[..s.cursor] + TopOf(s.ring) + s.text[s.cursor..]
  }

  /** The text as it was when the ring was last pushed to, were c run once more from s. */
  function BaseAfter(f: Spans, s: Ed, c: Command, base: Text): Text
    requires Within(s, c)
  {
    if c.Kill? && Killed(f, s, c.k) != [] && !s.lastWasKill then s.text else base
  }

  function BaseAfterRepeat(f: Spans, s: Ed, c: Command, n: nat, base: Text): Text
    requires Within(s, c)
  {
    if n == 0 then base else BaseAfter(f, Repeat(f, s, c, n - 1), c, BaseAfterRepeat(f, s, c, n - 1, base))
  }

  /** While killing, yanking would give back the text at the last push. */
  ghost predicate Reversible(s: Ed, base: Text) {
    s.cursor <= |s.text| && (s.lastWasKill || s.thisKill ==> Restored(s) == base)
  }

  lemma CutFresh(s: Ed, from: nat, to: nat, prepend: bool)
    requires Bounds(s) && from <= s.cursor <= to <= |s.text| && from < to && !s.lastWasKill
    ensures Restored(Cut(s, from, to, prepend)) == s.text
  {
    var killed := s.text[from..to];
    assert TopOf(Pushed(s.ring, killed)) == killed;
    assert s.text == s.text[..from] + killed + s.text[to..];
  }

  lemma CutLeft(s: Ed, from: nat)
    requires Bounds(s) && from < s.cursor && s.lastWasKill
    ensures Restored(Cut(s, from, s.cursor, true)) == Restored(s)
  {
    var killed, top := s.text[from..s.cursor], TopOf(s.ring);
    assert TopOf(Coalesced(s.ring, killed, true)) == killed + top;
    var head, tail := s.text[..from], s.text[s.cursor..];
    assert s.text[..s.cursor] == head + killed;
    Between(head, killed, top, tail);
    assert head + killed + (top + tail) == head + killed + top + tail;
  }

  lemma CutRight(s: Ed, to: nat)
    requires Bounds(s) && s.cursor < to <= |s.text| && s.lastWasKill
    ensures Restored(Cut(s, s.cursor, to, false)) == Restored(s)
  {
    var killed, top := s.text[s.cursor..to], TopOf(s.ring);
    assert TopOf(Coalesced(s.ring, killed, false)) == top + killed;
    var head, tail := s.text[..s.cursor], s.text[to..];
    assert s.text[s.cursor..] == killed + tail;
    Between(head, top, killed, tail);
  }

  lemma Between(head: Text, a: Text, b: Text, tail: Text)
    ensures head + (a + b) + tail == head + a + (b + tail)
  {
  }

  lemma CutNothing(s: Ed, prepend: bool)
    requires Bounds(s)
    ensures Cut(s, s.cursor, s.cursor, prepend) == s
  {
    assert s.text[..s.cursor] + s.text[s.cursor..] == s.text;
  }

  /** One kill: what it removed and what the ring held are again one piece at the cursor. */
  lemma KillKeepsReversible(f: Spans, s: Ed, k: Kind, base: Text)
    requires Bounds(s) && Reversible(s, base)
    ensures Reversible(KillOnce(f, s, k), if Killed(f, s, k) != [] && !s.lastWasKill then s.text else base)
  {
    var span := f(s.text, s.cursor, k);
    if span.0 == span.1 {
      CutNothing(s, Prepends(k));
    } else if !s.lastWasKill {
      CutFresh(s, span.0, span.1, Prepends(k));
    } else if Prepends(k) {
      CutLeft(s, span.0);
    } else {
      CutRight(s, span.1);
    }
  }

  /** One more repetition of a kill, and the text at the last push by then. */
  ghost predicate Next(f: Spans, k: Kind, s: Ed, base: Text, t: Ed, base': Text) {
    Bounds(s) && t == KillOnce(f, s, k) && base' == if Killed(f, s, k) != [] && !s.lastWasKill then s.text else base
  }

  lemma RepeatNext(f: Spans, s: Ed, k: Kind, n: nat, base: Text)
    requires Within(s, Kill(k))
    ensures Next(f, k, Repeat(f, s, Kill(k), n), BaseAfterRepeat(f, s, Kill(k), n, base),
                 Repeat(f, s, Kill(k), n + 1), BaseAfterRepeat(f, s, Kill(k), n + 1, base))
  {
    var r, b := Repeat(f, s, Kill(k), n), BaseAfterRepeat(f, s, Kill(k), n, base);
    assert Repeat(f, s, Kill(k), n + 1) == Execute(f, r, Kill(k));
    assert BaseAfterRepeat(f, s, Kill(k), n + 1, base) == BaseAfter(f, r, Kill(k), b);
  }

  lemma {:induction false} ReversibleAlong(f: Spans, k: Kind, n: nat, r: nat -> Ed, b: nat -> Text)
    requires Reversible(r(0), b(0))
    requires forall i: nat :: i < n ==> Next(f, k, r(i), b(i), r(i + 1), b(i + 1))
    ensures Reversible(r(n), b(n))
  {
    if n > 0 {
      ReversibleAlong(f, k, n - 1, r, b);
      assert Next(f, k, r(n - 1), b(n - 1), r(n - 1 + 1), b(n - 1 + 1));
      KillKeepsReversible(f, r(n - 1), k, b(n - 1));
    }
  }

  lemma RepeatKeepsReversible(f: Spans, s: Ed, k: Kind, n: nat, base: Text)
    requires Within(s, Kill(k)) && Reversible(s, base)
    ensures Reversible(Repeat(f, s, Kill(k), n), BaseAfterRepeat(f, s, Kill(k), n, base))
  {
    forall i: nat { RepeatNext(f, s, k, i, base); }
    ReversibleAlong(f, k, n, (i: nat) => Repeat(f, s, Kill(k), i), (i: nat) => BaseAfterRepeat(f, s, Kill(k), i, base));
  }

  lemma {:induction false} OnlyKillsKill(f: Spans, s: Ed, c: Command, n: nat)
    requires Within(s, c) && !c.Kill? && !s.thisKill
    ensures !Repeat(f, s, c, n).thisKill
  {
    if n > 0 { OnlyKillsKill(f, s, c, n - 1); }
  }

  function After(f: Spans, s: Ed, keys: seq<Key>): (t: Ed)
    requires Sane(s)
    ensures Sane(t)
  {
    if keys == [] then s else Press(f, After(f, s, keys[..|keys| - 1]), keys[|keys| - 1])
  }

  /** The text at the last push of a run of keys. */
  function BaseOf(f: Spans, s: Ed, keys: seq<Key>, base: Text): Text
    requires Sane(s)
  {
    if keys == [] then base
    else
      var before, key := keys[..|keys| - 1], keys[|keys| - 1];
      if key.Run? then
        var m := After(f, s, before);
        BaseAfterRepeat(f, Begin(m.(arg := NoArg)), key.c, Times(key.c, CountOf(m.arg)), BaseOf(f, s, before, base))
      else BaseOf(f, s, before, base)
  }

  /**
   * After any keys whatever, if the last one was a kill, the text with the ring's top put back at the
   * cursor is the text as it was at the last push; so one yank restores it.
   */
  lemma {:induction false} KillRunReversible(f: Spans, s: Ed, keys: seq<Key>, base: Text)
    requires Sane(s) && !s.lastWasKill
    ensures var t := After(f, s, keys);
            t.lastWasKill ==>
              && Restored(t) == BaseOf(f, s, keys, base)
              && Press(f, t, Run(Yank)).text == BaseOf(f, s, keys, base)
  {
    if keys != [] {
      var before, key := keys[..|keys| - 1], keys[|keys| - 1];
      KillRunReversible(f, s, before, base);
      if key.Run? {
        PressKeepsReversible(f, After(f, s, before), key.c, BaseOf(f, s, before, base));
      }
      if After(f, s, keys).lastWasKill {
        YankInserts(f, After(f, s, keys));
      }
    }
  }

  lemma PressKeepsReversible(f: Spans, m: Ed, c: Command, base: Text)
    requires Sane(m) && (m.lastWasKill ==> Restored(m) == base)
    ensures var n, start := Times(c, CountOf(m.arg)), Begin(m.(arg := NoArg));
            var t := Press(f, m, Run(c));
            t.lastWasKill ==> Restored(t) == BaseAfterRepeat(f, start, c, n, base)
  {
    var n, start := Times(c, CountOf(m.arg)), Begin(m.(arg := NoArg));
    if c.Kill? {
      RepeatKeepsReversible(f, start, c.k, n, base);
    } else {
      OnlyKillsKill(f, start, c, n);
    }
  }

  lemma YankInserts(f: Spans, t: Ed)
    requires Sane(t) && t.arg == NoArg
    ensures Press(f, t, Run(Yank)).text == Restored(t)
  {
    RepeatOnce(f, Begin(t), Yank, []);
    assert t.text[..t.cursor] + [] + t.text[t.cursor..] == t.text;
  }

  /** Kills without a count, each of which removes something. */
  ghost predicate PlainKills(f: Spans, s: Ed, keys: seq<Key>)
    requires Sane(s)
  {
    forall i :: 0 <= i < |keys| ==>
      && keys[i].Run? && keys[i].c.Kill?
      && Killed(f, After(f, s, keys[..i]), keys[i].c.k) != []
  }

  /** A run of plain kills is one ring entry, and one yank gives back the text it started from. */
  lemma {:induction false} KillRunYanksBack(f: Spans, s: Ed, keys: seq<Key>)
    requires Sane(s) && !s.lastWasKill && s.arg == NoArg && |keys| > 0 && PlainKills(f, s, keys)
    ensures After(f, s, keys).lastWasKill
    ensures Press(f, After(f, s, keys), Run(Yank)).text == s.text
  {
    PlainRun(f, s, keys);
    assert keys[..|keys|] == keys;
    KillRunReversible(f, s, keys, s.text);
  }

  lemma PlainPress(f: Spans, m: Ed, k: Kind, base: Text)
    requires Sane(m) && m.arg == NoArg && Killed(f, m, k) != []
    ensures Press(f, m, Run(Kill(k))).lastWasKill && Press(f, m, Run(Kill(k))).arg == NoArg
    ensures BaseAfterRepeat(f, Begin(m), Kill(k), Times(Kill(k), CountOf(m.arg)), base) ==
            if m.lastWasKill then base else m.text
  {
    RepeatOnce(f, Begin(m), Kill(k), base);
    assert Killed(f, Begin(m), k) == Killed(f, m, k);
  }

  lemma {:induction false} PlainRun(f: Spans, s: Ed, keys: seq<Key>)
    requires Sane(s) && !s.lastWasKill && s.arg == NoArg && |keys| > 0 && PlainKills(f, s, keys)
    ensures After(f, s, keys).lastWasKill && After(f, s, keys).arg == NoArg && BaseOf(f, s, keys, s.text) == s.text
  {
    var last := |keys| - 1;
    var before, key := keys[..last], keys[last];
    if last > 0 {
      assert forall i :: 0 <= i < last ==> before[..i] == keys[..i];
      PlainRun(f, s, before);
    }
    PlainPress(f, After(f, s, before), key.c.k, BaseOf(f, s, before, s.text));
  }

  /**
   * A kill that starts a run, with any argument: one yank gives it all back if the key ran once, as a
   * kill to an end of the line always does; if it ran more often, exactly when the second time found
   * nothing to remove, since each time that does makes a ring entry of its own; and if a count of 0
   * kept it from running, exactly when there is nothing to yank.
   */
  lemma CountedKillUnit(f: Spans, s: Ed, k: Kind)
    requires Sane(s) && !s.lastWasKill && Killed(f, s, k) != []
    ensures Press(f, Press(f, s, Run(Kill(k))), Run(Yank)).text == s.text <==>
            var n := Times(Kill(k), CountOf(s.arg));
            if n == 0 then TopOf(s.ring) == []
            else n == 1 || Killed(f, KillOnce(f, Begin(s), k), k) == []
  {
    var n, m := Times(Kill(k), CountOf(s.arg)), s.(arg := NoArg);
    var t := Press(f, s, Run(Kill(k)));
    YankInserts(f, t);
    assert Killed(f, Begin(m), k) == Killed(f, s, k);
    if n == 0 {
      assert t == Close(Begin(m));
    } else {
      RepeatKeepsReversible(f, Begin(m), k, n, s.text);
      BaseShrinks(f, Begin(m), k, n);
      assert KillOnce(f, Begin(m), k) == KillOnce(f, Begin(s), k).(arg := NoArg);
    }
  }

  /** Whatever the argument, a kill to an end of the line is undone by one yank. */
  lemma LineKillIsUndone(f: Spans, s: Ed, k: Kind)
    requires Sane(s) && !s.lastWasKill && Killed(f, s, k) != [] && (k.ToLineEnd? || k.ToLineStart?)
    ensures Press(f, Press(f, s, Run(Kill(k))), Run(Yank)).text == s.text
  {
    CountedKillUnit(f, s, k);
  }

  /** Two words killed with a count of 2 are two entries, and one yank brings back the first word alone. */
  lemma TwoWordsTwoEntries(a: Alphabet, s: Ed)
    requires Sane(s) && s.text == "a b" && s.cursor == 3 && s.arg == NoArg
    requires a.word('a') && a.word('b') && !a.word(' ')
    ensures Press(SpansOf(a), After(SpansOf(a), s, [Digit(2), Run(Kill(WordBack))]), Run(Yank)).text != s.text
  {
    var f, m := SpansOf(a), Press(SpansOf(a), s, Digit(2));
    var two := [Digit(2), Run(Kill(WordBack))];
    assert two[..1] == [Digit(2)] && two[..1][..0] == [] && After(f, s, []) == s;
    assert After(f, s, two[..1]) == m && After(f, s, two) == Press(f, m, Run(Kill(WordBack)));
    LastWordKilled(a, Begin(m));
    CountedKillUnit(f, m, WordBack);
  }

  lemma LastWordKilled(a: Alphabet, s: Ed)
    requires Bounds(s) && s.text == "a b" && s.cursor == 3
    requires a.word('a') && a.word('b') && !a.word(' ')
    ensures Killed(SpansOf(a), s, WordBack) == "b"
    ensures var t := KillOnce(SpansOf(a), s, WordBack); Killed(SpansOf(a), t, WordBack) == "a "
  {
    var p, q := Not(a.word), a.word;
    assert RunStart("a b", 3, p) == 3 && RunStart("a b", 2, q) == 2 && RunStart("a b", 3, q) == 2;
    assert s.text[..2] + s.text[3..] == "a ";
    assert RunStart("a ", 2, p) == 1 && RunStart("a ", 1, q) == 0;
  }

  /**
   * State r and push text b after n repetitions: either nothing was removed after the first one, or
   * the last push saw less than the whole text.
   */
  ghost predicate Settled(f: Spans, m: Ed, k: Kind, n: nat, r: Ed, b: Text)
    requires Bounds(m)
  {
    var once := KillOnce(f, m, k);
    var nothingMore := Killed(f, once, k) == [];
    && Bounds(r) && r.thisKill && r.lastWasKill == m.lastWasKill && |r.text| < |m.text|
    && (n == 1 || nothingMore ==> r == once && b == m.text)
    && (n > 1 && !nothingMore ==> |b| < |m.text|)
  }

  lemma RepeatOnce(f: Spans, m: Ed, c: Command, base: Text)
    requires Within(m, c)
    ensures Repeat(f, m, c, 1) == Execute(f, m, c)
    ensures BaseAfterRepeat(f, m, c, 1, base) == BaseAfter(f, m, c, base)
  {
    assert Repeat(f, m, c, 0) == m && BaseAfterRepeat(f, m, c, 0, base) == base;
  }

  lemma OnceSettled(f: Spans, m: Ed, k: Kind, r: Ed, b: Text)
    requires Bounds(m) && !m.lastWasKill && Killed(f, m, k) != [] && Next(f, k, m, m.text, r, b)
    ensures Settled(f, m, k, 1, r, b)
  {
  }

  lemma AgainSettled(f: Spans, m: Ed, k: Kind, n: nat, r: Ed, b: Text, r': Ed, b': Text)
    requires Bounds(m) && !m.lastWasKill && n >= 1 && Settled(f, m, k, n, r, b) && Next(f, k, r, b, r', b')
    ensures Settled(f, m, k, n + 1, r', b')
  {
    EmptyKill(f, r, k);
  }

  lemma {:induction false} SettledAlong(f: Spans, m: Ed, k: Kind, n: nat, r: nat -> Ed, b: nat -> Text)
    requires Bounds(m) && !m.lastWasKill && Killed(f, m, k) != [] && n >= 1
    requires r(0) == m && b(0) == m.text
    requires forall i: nat :: i < n ==> Next(f, k, r(i), b(i), r(i + 1), b(i + 1))
    ensures Settled(f, m, k, n, r(n), b(n))
  {
    if n == 1 {
      OnceSettled(f, m, k, r(0 + 1), b(0 + 1));
    } else {
      var p: nat := n - 1;
      SettledAlong(f, m, k, p, r, b);
      assert Next(f, k, r(p), b(p), r(p + 1), b(p + 1));
      AgainSettled(f, m, k, p, r(p), b(p), r(p + 1), b(p + 1));
    }
  }

  lemma BaseShrinks(f: Spans, m: Ed, k: Kind, n: nat)
    requires Within(m, Kill(k)) && !m.lastWasKill && n >= 1 && Killed(f, m, k) != []
    ensures Settled(f, m, k, n, Repeat(f, m, Kill(k), n), BaseAfterRepeat(f, m, Kill(k), n, m.text))
  {
    forall i: nat { RepeatNext(f, m, k, i, m.text); }
    SettledAlong(f, m, k, n, (i: nat) => Repeat(f, m, Kill(k), i),
                 (i: nat) => BaseAfterRepeat(f, m, Kill(k), i, m.text));
  }

  lemma EmptyKill(f: Spans, s: Ed, k: Kind)
    requires Bounds(s)
    ensures Killed(f, s, k) == [] ==> KillOnce(f, s, k) == s
    ensures |KillOnce(f, s, k).text| <= |s.text|
  {
    var span := f(s.text, s.cursor, k);
    if span.0 == span.1 {
      CutNothing(s, Prepends(k));
    }
  }

  // --- yank-pop ---

  function Pops(k: nat): seq<Key> {
    seq(k, i => Run(YankPop))
  }

  /** After a yank at position at into text, k yank-pops show the entry k places back, cyclically. */
  ghost predicate Showing(s: Ed, text: Text, at: nat, ring: seq<Text>, k: nat)
    requires at <= |text| && |ring| > 0
  {
    var top := TopOf(RotatedBy(ring, k));
    && Sane(s) && s.lastWasYank && s.ring == RotatedBy(ring, k)
    && s.yankStart == at && s.cursor == at + |top|
    && s.text == text[..at] + top + text[at..]
  }

  lemma PopShows(f: Spans, s: Ed, text: Text, at: nat, ring: seq<Text>, k: nat)
    requires at <= |text| && |ring| > 0 && Showing(s, text, at, ring, k)
    ensures Showing(Press(f, s, Run(YankPop)), text, at, ring, k + 1)
  {
    RepeatOnce(f, Begin(s), YankPop, []);
    assert s.text[..at] == text[..at] && s.text[s.yankEnd..] == text[at..];
  }

  /**
   * Yank, then k yank-pops: the text holds the ring's entry k places back (cyclically) where the
   * yank put its top; after as many pops as there are entries, text and ring are as after the yank.
   */
  lemma {:induction false} YankPopsCycle(f: Spans, s: Ed, k: nat)
    requires Sane(s) && s.arg == NoArg && TopOf(s.ring) != []
    ensures var t := After(f, Press(f, s, Run(Yank)), Pops(k));
            && t.text == s.text[..s.cursor] + s.ring[|s.ring| - 1 - k % |s.ring|] + s.text[s.cursor..]
            && t.ring == RotatedBy(s.ring, k)
            && (k % |s.ring| == 0 ==> t.ring == s.ring)
  {
    YankShows(f, s);
    PopsShow(f, Press(f, s, Run(Yank)), s.text, s.cursor, s.ring, k);
    RotatedByIs(s.ring, k);
  }

  lemma YankShows(f: Spans, s: Ed)
    requires Sane(s) && s.arg == NoArg && TopOf(s.ring) != []
    ensures Showing(Press(f, s, Run(Yank)), s.text, s.cursor, s.ring, 0)
  {
    RepeatOnce(f, Begin(s), Yank, []);
  }

  lemma {:induction false} PopsShow(f: Spans, s: Ed, text: Text, at: nat, ring: seq<Text>, k: nat)
    requires at <= |text| && |ring| > 0 && Showing(s, text, at, ring, 0)
    ensures Showing(After(f, s, Pops(k)), text, at, ring, k)
  {
    if k > 0 {
      PopsShow(f, s, text, at, ring, k - 1);
      assert Pops(k)[..k - 1] == Pops(k - 1);
      PopShows(f, After(f, s, Pops(k - 1)), text, at, ring, k - 1);
    }
  }

  // --- the editor in place ---

  class Editor {
    const buf: Buffer
    const kills: KillRing
    var lastWasKill: bool
    var thisKill: bool
    var lastWasYank: bool
    var thisYank: bool
    var yankStart: nat
    var yankEnd: nat
    var arg: Arg

    ghost function State(): Ed
      reads this, buf, kills
    {
      Ed(buf.text, buf.cursor, kills.entries, lastWasKill, thisKill, lastWasYank, thisYank, yankStart, yankEnd, arg)
    }

    ghost predicate Valid()
      reads this, buf, kills
    {
      Sane(State())
    }

    constructor (buf: Buffer)
      requires buf.Valid()
      ensures Valid() && this.buf == buf && fresh(kills)
      ensures State() == Ed(buf.text, buf.cursor, [], false, false, false, false, 0, 0, NoArg)
    {
      this.buf := buf;
      kills := new KillRing();
      lastWasKill, thisKill, lastWasYank, thisYank, yankStart, yankEnd := false, false, false, false, 0, 0;
      arg := NoArg;
    }

    /** Killed text goes into the ring, onto the entry of the kill before it if there was one. */
    method RecordKill(text: Text, prepend: bool)
      modifies this, kills
      ensures State() == old(State()).(
        ring := if old(lastWasKill) then Coalesced(old(kills.entries), text, prepend)
                else Pushed(old(kills.entries), text),
        thisKill := old(thisKill) || text != [])
    {
      if text == [] {
        return;
      }
      if lastWasKill {
        kills.Coalesce(text, prepend);
      } else {
        kills.Push(text);
      }
      thisKill := true;
    }

    method YankTop()
      requires Bounds(State())
      modifies this, buf
      ensures State() == YankOnce(old(State()))
    {
      var text := kills.Top();
      if text == [] {
        return;
      }
      yankStart := buf.cursor;
      buf.Insert(text);
      yankEnd := buf.cursor;
      thisYank := true;
    }

    method Pop()
      requires Bounds(State()) && (lastWasYank ==> Yanked(State()))
      modifies this, buf, kills
      ensures State() == PopOnce(old(State()))
    {
      if !lastWasYank {
        return;
      }
      var _ := buf.DeleteRange(yankStart, yankEnd);
      kills.Rotate();
      var text := kills.Top();
      buf.Insert(text);
      yankEnd := yankStart + |text|;
      thisYank := true;
    }

    method CutText(k: Kind) returns (killed: Text)
      requires Bounds(State())
      modifies buf
      ensures var span := KillSpan(buf.alphabet, old(buf.text), old(buf.cursor), k);
              killed == old(buf.text)[span.0..span.1] &&
              buf.text == old(buf.text)[..span.0] + old(buf.text)[span.1..] && buf.cursor == span.0
    {
      match k {
        case ToLineEnd => killed := buf.KillToLineEnd();
        case ToLineStart => killed := buf.KillToLineStart();
        case ToWhitespace => killed := buf.KillToWhitespace();
        case WordBack => killed := buf.KillWordBack();
        case WordForward => killed := buf.KillWordForward();
      }
    }

    method RunKill(k: Kind)
      requires Bounds(State())
      modifies this, buf, kills
      ensures State() == KillOnce(SpansOf(buf.alphabet), old(State()), k)
    {
      var killed := CutText(k);
      RecordKill(killed, Prepends(k));
    }

    method RunCommand(c: Command)
      requires Within(State(), c)
      modifies this, buf, kills
      ensures State() == Execute(SpansOf(buf.alphabet), old(State()), c)
    {
      match c {
        case Kill(k) => RunKill(k);
        case Yank => YankTop();
        case YankPop => Pop();
        case SelfInsert(ch) => buf.Insert([ch]);
        case MoveTo(i) => buf.cursor := if i < |buf.text| then i else |buf.text|;
      }
    }

    method PressKey(key: Key)
      requires Valid()
      modifies this, buf, kills
      ensures Valid() && State() == Press(SpansOf(buf.alphabet), old(State()), key)
    {
      thisKill, thisYank := false, false;
      match key {
        case Digit(d) => arg := WithDigit(arg, d);
        case Minus => arg := WithMinus(arg);
        case Run(c) => RunCounted(c);
      }
      lastWasKill := thisKill;
      lastWasYank := thisYank;
    }

    /** The argument is consumed, and the command run as often as it says. */
    method RunCounted(c: Command)
      requires Within(State(), c)
      modifies this, buf, kills
      ensures State() == Repeat(SpansOf(buf.alphabet), old(State()).(arg := NoArg), c, Times(c, CountOf(old(arg))))
    {
      var n := Times(c, CountOf(arg));
      arg := NoArg;
      ghost var start := State();
      for i := 0 to n
        invariant Within(State(), c)
        invariant State() == Repeat(SpansOf(buf.alphabet), start, c, i)
      {
        RunCommand(c);
      }
    }
  }
}
