/** internal/builtins/printf.go: what a pass over a format writes, told on its tree. */
module FormatPasses {
  import opened Options
  import opened PrintfReuse
  import opened FormatTrees

  // --- how far an escape goes ---

  predicate HexDigit(c: char) { Digit(c) || 'a' <= c <= 'f' || 'A' <= c <= 'F' }

  predicate OctalDigit(c: char) { c in "01234567" }

  /** How many digits can follow a backslash and this character. */
  function MoreDigits(c: char): nat {
    if c == '0' then 3 else if OctalDigit(c) then 2
    else if c == 'x' then 2 else if c == 'u' then 4 else if c == 'U' then 8 else 0
  }

  /** And of which kind they are. */
  predicate DigitAfter(c: char, d: char) {
    if OctalDigit(c) then OctalDigit(d) else HexDigit(d)
  }

  /** The first n characters are an escape: two, and then as many digits as there are and can be. */
  ghost predicate IsEscape(s: string, n: nat) {
    if |s| < 2 then n == |s|
    else
      && 2 <= n <= |s| && n - 2 <= MoreDigits(s[1]) && (forall k :: 2 <= k < n ==> DigitAfter(s[1], s[k]))
      && (n == |s| || n - 2 == MoreDigits(s[1]) || !DigitAfter(s[1], s[n]))
  }

  lemma SameDigits(c: char)
    ensures IsHex(c) <==> HexDigit(c)
    ensures IsOctal(c) <==> OctalDigit(c)
  {
    assert "01234567" == ['0', '1', '2', '3', '4', '5', '6', '7'];
  }

  lemma RunOfDigits(s: string, from: nat, max: nat, ok: char -> bool, n: nat)
    requires from <= |s| && from <= max
    requires from <= n <= |s| && n <= max && (forall k :: from <= k < n ==> ok(s[k]))
    requires n == |s| || n == max || !ok(s[n])
    ensures SkipWhile(s[..PrintfReuse.Min(|s|, max)], from, ok) == n
  {
    var t := s[..PrintfReuse.Min(|s|, max)];
    assert forall k :: 0 <= k < |t| ==> t[k] == s[k];
  }

  /** The scan takes exactly the escape. */
  lemma EscapeIs(s: string, n: nat)
    requires |s| >= 1 && IsEscape(s, n)
    ensures EscapeWidth(s) == n
  {
    if |s| >= 2 {
      forall c ensures (IsHex(c) <==> HexDigit(c)) && (IsOctal(c) <==> OctalDigit(c)) {
        SameDigits(c);
      }
      if s[1] == '0' {
        RunOfDigits(s, 2, 5, IsOctal, n);
      } else if OctalDigit(s[1]) {
        RunOfDigits(s, 1, 4, IsOctal, n);
      } else if s[1] == 'x' {
        RunOfDigits(s, 2, 4, IsHex, n);
      } else if s[1] == 'u' {
        RunOfDigits(s, 2, 6, IsHex, n);
      } else if s[1] == 'U' {
        RunOfDigits(s, 2, 10, IsHex, n);
      }
    }
  }

  // --- the \c of an argument ---

  /** Characters and escapes other than \c. */
  ghost predicate Goes(n: Node) {
    match n
    case Plain(c) => c != '\\'
    case Backslash(c) => c != 'c'
    case _ => false
  }

  ghost predicate Pieces(nodes: seq<Node>) { forall n <- nodes :: Goes(n) }

  lemma {:induction false} SkipPlain(s: string, n: nat)
    requires n <= |s| && forall k :: 0 <= k < n ==> s[k] != '\\'
    ensures ArgumentStops(s) == ArgumentStops(s[n..])
  {
    if n == 0 {
      assert s[0..] == s;
    } else {
      SkipPlain(s[1..], n - 1);
      assert s[1..][n - 1..] == s[n..];
    }
  }

  lemma StopsBehindEscape(s: string)
    requires |s| >= 2 && s[0] == '\\' && s[1] != 'c'
    ensures ArgumentStops(s) == ArgumentStops(s[2..])
  {
    EscapeTail(s);
    var w := EscapeWidth(s);
    forall k | 0 <= k < w - 2 ensures s[2..][k] != '\\' {
      assert IsHex(s[k + 2]);
    }
    SkipPlain(s[2..], w - 2);
    assert s[2..][w - 2..] == s[w..];
  }

  /** An argument stops the output where \c stands behind characters and other escapes. */
  lemma {:induction false} CutStops(nodes: seq<Node>, unread: string)
    requires Pieces(nodes)
    ensures ArgumentStops(Print(nodes, Cut(unread)))
  {
    var s := Print(nodes, Cut(unread));
    if nodes != [] {
      assert Goes(nodes[0]);
      CutStops(nodes[1..], unread);
      var rest := Print(nodes[1..], Cut(unread));
      if nodes[0].Plain? {
        assert s[1..] == rest;
      } else {
        StopsBehindEscape(s);
        assert s[2..] == rest;
      }
    }
  }

  /** And nowhere else. */
  lemma {:induction false} StopsAtCut(s: string) returns (nodes: seq<Node>, unread: string)
    requires ArgumentStops(s)
    ensures Pieces(nodes) && Print(nodes, Cut(unread)) == s
    decreases |s|
  {
    if s[0] == '\\' && |s| >= 2 && s[1] == 'c' {
      nodes, unread := [], s[2..];
      assert s == "\\c" + s[2..];
    } else if s[0] != '\\' {
      var more;
      more, unread := StopsAtCut(s[1..]);
      nodes := [Node.Plain(s[0])] + more;
      assert nodes[1..] == more && [s[0]] + s[1..] == s;
    } else {
      var more;
      StopsBehindEscape(s);
      more, unread := StopsAtCut(s[2..]);
      nodes := [Backslash(s[1])] + more;
      assert nodes[1..] == more && [s[0], s[1]] + s[2..] == s;
    }
  }

  /** An argument that stops all output: \c where escapes begin. */
  ghost predicate Stopper(s: string) {
    exists nodes, unread :: Pieces(nodes) && Print(nodes, Cut(unread)) == s
  }

  lemma StopperIs(s: string)
    ensures ArgumentStops(s) <==> Stopper(s)
  {
    if ArgumentStops(s) {
      var nodes, unread := StopsAtCut(s);
    }
    forall nodes, unread | Pieces(nodes) && Print(nodes, Cut(unread)) == s ensures ArgumentStops(s) {
      CutStops(nodes, unread);
    }
  }

  // --- what a pass writes ---

  /** A character of the format, or a conversion's letter and its arguments, a missing one as None. */
  datatype Item = Ch(c: char) | Arg(letter: char, given: seq<Option<string>>)

  function Chars(s: string): seq<Item> {
    seq(|s|, i requires 0 <= i < |s| => Ch(s[i]))
  }

  /** What an event writes, escapes and conversions as they stand in the format. */
  function ItemsOf(e: Event): seq<Item> {
    match e
    case Plain(text) => Chars(text)
    case Escaped(source) => Chars(source)
    case Converted(spec, given) => [Arg(spec.verb, given)]
  }

  function Flow(events: seq<Event>): seq<Item> {
    if events == [] then [] else ItemsOf(events[0]) + Flow(events[1..])
  }

  /** What a pass comes to. */
  datatype Outcome = Outcome(items: seq<Item>, consumed: nat, end: End)

  function Before(items: seq<Item>, o: Outcome): Outcome { o.(items := items + o.items) }

  function OutcomeOf(p: Pass): Outcome { Outcome(Flow(p.events), p.consumed, p.end) }

  function Supplied(args: seq<string>, i: nat): Option<string> {
    if i < |args| then Some(args[i]) else None
  }

  /** The next n arguments. */
  function Upcoming(args: seq<string>, at: nat, n: nat): (given: seq<Option<string>>)
    ensures |given| == n && forall t :: 0 <= t < n ==> given[t] == Supplied(args, at + t)
  {
    seq(n, t requires 0 <= t < n => Supplied(args, at + t))
  }

  /** What a node writes, how many arguments it takes, and whether it ends the pass. */
  datatype Deed = Deed(items: seq<Item>, takes: nat, halts: bool)

  /** A directive gets the next arguments it wants; a %b ends the pass if the last of them says \c. */
  ghost function DeedOf(n: Node, args: seq<string>, at: nat): Deed {
    match n
    case Plain(c) => Deed([Ch(c)], 0, false)
    case Backslash(c) => Deed([Ch('\\'), Ch(c)], 0, false)
    case Percent(_) => Deed([Ch('%')], 0, false)
    case Directive(_, v) =>
      var wants := Wants(n);
      var last := Supplied(args, at + wants - 1);
      Deed([Arg(Letter(v), Upcoming(args, at, wants))], wants, Letter(v) == 'b' && last.Some? && Stopper(last.value))
  }

  type Doings = (Node, seq<string>, nat) -> Deed

  ghost function Deeds(): Doings { (n: Node, args: seq<string>, at: nat) => DeedOf(n, args, at) }

  function EndingItems(e: Ending): seq<Item> {
    match e
    case Done => []
    case Dangling => [Ch('\\')]
    case Cut(_) => [Ch('\\'), Ch('c')]
  }

  /** The pass over a tree: every node in turn. */
  ghost function TreePass(does: Doings, nodes: seq<Node>, e: Ending, args: seq<string>, at: nat): Outcome {
    if nodes == [] then Outcome(EndingItems(e), at, if e.Cut? then Stopped else Finished)
    else
      var deed := does(nodes[0], args, at);
      if deed.halts then Outcome(deed.items, at + deed.takes, Stopped)
      else Before(deed.items, TreePass(does, nodes[1..], e, args, at + deed.takes))
  }

  // --- the scan writes that ---

  function PassHere(s: string, args: seq<string>, at: nat): Pass {
    DoingIsBounded(s);
    Once(Doing(s), |s|, args, 0, at)
  }

  /** Two ways of doing elements that agree from a position on. */
  ghost predicate DoesAs(go: Doer, tail: Doer, n: nat, i: nat) {
    forall args, k: nat, at: nat :: i <= k < n ==> go(args, k, at) == tail(args, k - i, at)
  }

  lemma {:induction false} OnceShift(go: Doer, tail: Doer, n: nat, i: nat, args: seq<string>, j: nat, at: nat)
    requires i <= j <= n && Bounded(go, n) && Bounded(tail, n - i) && DoesAs(go, tail, n, i)
    ensures Once(go, n, args, j, at) == Once(tail, n - i, args, j - i, at)
    decreases n - j
  {
    if j < n {
      var o := go(args, j, at);
      assert o == tail(args, j - i, at);
      if o.Went? {
        OnceShift(go, tail, n, i, args, j + o.width, o.consumed);
      }
    }
  }

  lemma SameDo(s: string, k: nat, t: string, j: nat, args: seq<string>, at: nat)
    requires k < |s| && j < |t| && s[k..] == t[j..]
    ensures Do(s, k, args, at) == Do(t, j, args, at)
  {
    match ElementAt(s[k..]) {
      case Literal(n) => HeadSlice(s, k, n); HeadSlice(t, j, n);
      case Escape(n, _) => HeadSlice(s, k, n); HeadSlice(t, j, n);
      case _ =>
    }
  }

  lemma HeadSlice(s: string, k: nat, n: nat)
    requires k + n <= |s|
    ensures s[k..k + n] == s[k..][..n]
  {
  }

  lemma DoingFollows(s: string, i: nat)
    requires i <= |s|
    ensures DoesAs(Doing(s), Doing(s[i..]), |s|, i)
  {
    forall args, k: nat, at: nat | i <= k < |s| ensures Do(s, k, args, at) == Do(s[i..], k - i, args, at) {
      DropDrop(s, i, k);
      SameDo(s, k, s[i..], k - i, args, at);
    }
  }

  lemma OnceTail(go: Doer, tail: Doer, n: nat, i: nat, m: nat, args: seq<string>, at: nat)
    requires i <= n && m == n - i && Bounded(go, n) && Bounded(tail, m) && DoesAs(go, tail, n, i)
    ensures Once(go, n, args, i, at) == Once(tail, m, args, 0, at)
  {
    OnceShift(go, tail, n, i, args, i, at);
  }

  lemma PassSuffix(s: string, i: nat, args: seq<string>, at: nat)
    requires i <= |s|
    ensures Bounded(Doing(s), |s|) && Once(Doing(s), |s|, args, i, at) == PassHere(s[i..], args, at)
  {
    DoingIsBounded(s);
    DoingIsBounded(s[i..]);
    DoingFollows(s, i);
    OnceTail(Doing(s), Doing(s[i..]), |s|, i, |s[i..]|, args, at);
  }

  lemma OnceNext(go: Doer, n: nat, args: seq<string>, at: nat)
    requires n > 0 && Bounded(go, n)
    ensures var o := go(args, 0, at);
            Once(go, n, args, 0, at) ==
            if o.Went? then Then(o.event, Once(go, n, args, o.width, o.consumed)) else Pass(o.events, o.consumed, o.end)
  {
  }

  /** The first element, and the pass over the rest. */
  lemma PassNext(s: string, args: seq<string>, at: nat)
    requires s != ""
    ensures var o := Do(s, 0, args, at);
            && (o.Went? ==> o.width <= |s|)
            && PassHere(s, args, at) ==
               if o.Went? then Then(o.event, PassHere(s[o.width..], args, o.consumed))
               else Pass(o.events, o.consumed, o.end)
  {
    DoingIsBounded(s);
    OnceNext(Doing(s), |s|, args, at);
    var o := Do(s, 0, args, at);
    if o.Went? {
      PassSuffix(s, o.width, args, o.consumed);
    }
  }

  lemma FlowThen(e: Event, p: Pass)
    ensures OutcomeOf(Then(e, p)) == Before(ItemsOf(e), OutcomeOf(p))
  {
    assert ([e] + p.events)[1..] == p.events;
  }

  lemma CharsJoin(a: string, b: string)
    ensures Chars(a + b) == Chars(a) + Chars(b)
  {
  }

  lemma BeforeTwice(a: seq<Item>, b: seq<Item>, o: Outcome)
    ensures Before(a, Before(b, o)) == Before(a + b, o)
  {
    assert a + (b + o.items) == a + b + o.items;
  }

  lemma FirstDoes(s: string, args: seq<string>, at: nat)
    requires s != ""
    ensures s[0..] == s
    ensures match ElementAt(s)
            case Literal(n) => Do(s, 0, args, at) == Went(Event.Plain(s[..n]), n, at)
            case Escape(n, stops) =>
              Do(s, 0, args, at) == if stops then Over([Escaped(s[..n])], at, Stopped) else Went(Escaped(s[..n]), n, at)
            case PercentSign(n) => Do(s, 0, args, at) == Went(Event.Plain("%"), n, at)
            case _ => true
  {
    assert s[0..] == s;
  }

  lemma OneLiteral(s: string, args: seq<string>, at: nat)
    requires s != "" && s[0] != '%' && s[0] != '\\'
    ensures OutcomeOf(PassHere(s, args, at)) == Before([Ch(s[0])], OutcomeOf(PassHere(s[1..], args, at)))
  {
    FirstDoes(s, args, at);
    PassNext(s, args, at);
    FlowThen(Event.Plain(s[..1]), PassHere(s[1..], args, at));
    assert Chars(s[..1]) == [Ch(s[0])];
  }

  /** A way of passing over formats, of which only the laws below are used. */
  type Passer = (string, seq<string>, nat) -> Outcome

  function Passing(): Passer {
    (s: string, args: seq<string>, at: nat) => OutcomeOf(PassHere(s, args, at))
  }

  /** A literal in front. */
  ghost predicate LiteralLaw(pass: Passer) {
    forall c, rest, args, at: nat {:trigger pass([c] + rest, args, at)} :: c != '%' && c != '\\' ==>
      pass([c] + rest, args, at) == Before([Ch(c)], pass(rest, args, at))
  }

  lemma PassingLiterals()
    ensures LiteralLaw(Passing())
  {
    forall c, rest, args, at: nat | c != '%' && c != '\\'
      ensures OutcomeOf(PassHere([c] + rest, args, at)) == Before([Ch(c)], OutcomeOf(PassHere(rest, args, at)))
    {
      OneLiteral([c] + rest, args, at);
      assert ([c] + rest)[1..] == rest;
    }
  }

  lemma {:induction false} LiteralsPass(pass: Passer, a: string, rest: string, args: seq<string>, at: nat)
    requires LiteralLaw(pass) && forall k :: 0 <= k < |a| ==> a[k] != '%' && a[k] != '\\'
    ensures pass(a + rest, args, at) == Before(Chars(a), pass(rest, args, at))
  {
    if a == "" {
      assert a + rest == rest;
      var o := pass(rest, args, at);
      assert [] + o.items == o.items;
    } else {
      LiteralsPass(pass, a[1..], rest, args, at);
      assert a + rest == [a[0]] + (a[1..] + rest) && a == [a[0]] + a[1..];
      BeforeTwice([Ch(a[0])], Chars(a[1..]), pass(rest, args, at));
      CharsJoin([a[0]], a[1..]);
    }
  }

  lemma Literals(s: string, n: nat, args: seq<string>, at: nat)
    requires n <= |s| && forall k :: 0 <= k < n ==> s[k] != '%' && s[k] != '\\'
    ensures OutcomeOf(PassHere(s, args, at)) == Before(Chars(s[..n]), OutcomeOf(PassHere(s[n..], args, at)))
  {
    PassingLiterals();
    LiteralsPass(Passing(), s[..n], s[n..], args, at);
    assert s[..n] + s[n..] == s;
  }

  lemma EscapePass(s: string, args: seq<string>, at: nat)
    requires |s| >= 2 && s[0] == '\\' && s[1] != 'c'
    ensures OutcomeOf(PassHere(s, args, at)) ==
            Before([Ch('\\'), Ch(s[1])], OutcomeOf(PassHere(s[2..], args, at)))
  {
    var w := EscapeWidth(s);
    EscapeTail(s);
    FirstDoes(s, args, at);
    PassNext(s, args, at);
    FlowThen(Escaped(s[..w]), PassHere(s[w..], args, at));
    LiteralsBetweenPass(s, w, args, at);
    var o := OutcomeOf(PassHere(s[w..], args, at));
    BeforeTwice([Ch('\\'), Ch(s[1])], Chars(s[2..w]), o);
    EscapeChars(s, w);
  }

  lemma EscapeChars(s: string, w: nat)
    requires 2 <= w <= |s|
    ensures Chars(s[..w]) == [Ch(s[0]), Ch(s[1])] + Chars(s[2..w])
  {
  }

  lemma LiteralsBetweenPass(s: string, w: nat, args: seq<string>, at: nat)
    requires 2 <= w <= |s| && forall k :: 2 <= k < w ==> IsHex(s[k])
    ensures OutcomeOf(PassHere(s[2..], args, at)) == Before(Chars(s[2..w]), OutcomeOf(PassHere(s[w..], args, at)))
  {
    forall k | 0 <= k < w - 2 ensures s[2..][k] != '%' && s[2..][k] != '\\' {
      assert IsHex(s[k + 2]);
    }
    Literals(s[2..], w - 2, args, at);
    assert s[2..][w - 2..] == s[w..] && s[2..][..w - 2] == s[2..w];
  }

  lemma GivenIs(args: seq<string>, at: nat, n: nat)
    ensures Given(args, at, n) == Upcoming(args, at, n)
  {
    forall t | 0 <= t < n ensures Given(args, at, n)[t] == Upcoming(args, at, n)[t] {
      assert Lookup(args, at + t) == Supplied(args, at + t);
    }
  }

  lemma DoConversion(s: string, spec: Spec, n: nat, args: seq<string>, at: nat)
    requires s != "" && ElementAt(s) == Conversion(spec) && IsVerb(spec.verb) && Takes(spec) == n
    ensures var e := Converted(spec, Given(args, at, n));
            Do(s, 0, args, at) ==
            if PrintfReuse.StopsAt(spec, Given(args, at, n)) then Over([e], at + n, Stopped)
            else Went(e, spec.width, at + n)
  {
    assert s[0..] == s;
  }

  function ConvertedBy(sh: Shape, v: Verb, args: seq<string>, at: nat): Event {
    Converted(Scanned(Sizes(sh), VerbAt(sh), v), Given(args, at, Wants(Directive(sh, v))))
  }

  function Does(e: Event, next: nat): PrintfReuse.Outcome
    requires e.Converted?
  {
    if PrintfReuse.StopsAt(e.spec, e.given) then Over([e], next, Stopped) else Went(e, e.spec.width, next)
  }

  /** What a directive does, as its tree has it. */
  lemma DirectiveDoes(sh: Shape, v: Verb, rest: string, args: seq<string>, at: nat)
    requires Legal(Directive(sh, v))
    ensures var n := Directive(sh, v);
            Do(PrintNode(n) + rest, 0, args, at) == Does(ConvertedBy(sh, v, args, at), at + Wants(n))
  {
    DirectiveElement(sh, v, rest);
    StarsOfScanned(sh, v);
    DoConversion(PrintShape(sh) + PrintVerb(v) + rest, Scanned(Sizes(sh), VerbAt(sh), v),
                 Wants(Directive(sh, v)), args, at);
  }

  lemma StopsAtIs(spec: Spec, v: Verb, args: seq<string>, at: nat, n: nat)
    requires spec.verb == Letter(v) && n > 0
    ensures var value := Supplied(args, at + n - 1);
            PrintfReuse.StopsAt(spec, Given(args, at, n)) <==> Letter(v) == 'b' && value.Some? && Stopper(value.value)
  {
    var value := Supplied(args, at + n - 1);
    assert Given(args, at, n)[n - 1] == value;
    if value.Some? {
      StopperIs(value.value);
    }
  }

  /** An element of this width does what a node should. */
  ghost predicate Meets(o: PrintfReuse.Outcome, deed: Deed, width: nat, at: nat) {
    && o.Went? == !deed.halts && o.consumed == at + deed.takes
    && if o.Went? then o.width == width && ItemsOf(o.event) == deed.items
       else o.end == Stopped && Flow(o.events) == deed.items
  }

  lemma DoesMeets(e: Event, deed: Deed, at: nat)
    requires e.Converted? && ItemsOf(e) == deed.items && (deed.halts <==> PrintfReuse.StopsAt(e.spec, e.given))
    ensures Meets(Does(e, at + deed.takes), deed, e.spec.width, at)
  {
    FlowOne(e);
  }

  lemma DirectiveItems(sh: Shape, v: Verb, args: seq<string>, at: nat)
    ensures var n := Directive(sh, v);
            && ItemsOf(ConvertedBy(sh, v, args, at)) == DeedOf(n, args, at).items
            && DeedOf(n, args, at).takes == Wants(n)
  {
    GivenIs(args, at, Wants(Directive(sh, v)));
  }

  lemma DirectiveHalts(sh: Shape, v: Verb, args: seq<string>, at: nat)
    requires LegalVerb(v)
    ensures var e := ConvertedBy(sh, v, args, at);
            DeedOf(Directive(sh, v), args, at).halts <==> PrintfReuse.StopsAt(e.spec, e.given)
  {
    var n := Directive(sh, v);
    StopsAtIs(ConvertedBy(sh, v, args, at).spec, v, args, at, Wants(n));
  }

  lemma DirectiveMeets(sh: Shape, v: Verb, rest: string, args: seq<string>, at: nat)
    requires Legal(Directive(sh, v))
    ensures var n := Directive(sh, v);
            Meets(Do(PrintNode(n) + rest, 0, args, at), DeedOf(n, args, at), |PrintNode(n)|, at)
  {
    var n := Directive(sh, v);
    DirectiveDoes(sh, v, rest, args, at);
    DirectiveItems(sh, v, args, at);
    DirectiveHalts(sh, v, args, at);
    DoesMeets(ConvertedBy(sh, v, args, at), DeedOf(n, args, at), at);
  }

  lemma PercentMeets(sh: Shape, rest: string, args: seq<string>, at: nat)
    requires Legal(Percent(sh))
    ensures var n := Percent(sh);
            Meets(Do(PrintNode(n) + rest, 0, args, at), DeedOf(n, args, at), |PrintNode(n)|, at)
  {
    PercentElement(sh, rest);
    FirstDoes(PrintNode(Percent(sh)) + rest, args, at);
    assert Chars("%") == [Ch('%')];
  }

  lemma PlainMeets(c: char, rest: string, args: seq<string>, at: nat)
    requires Legal(Node.Plain(c))
    ensures var n := Node.Plain(c);
            Meets(Do(PrintNode(n) + rest, 0, args, at), DeedOf(n, args, at), |PrintNode(n)|, at)
  {
    FirstDoes([c] + rest, args, at);
    assert ([c] + rest)[..1] == [c] && Chars([c]) == [Ch(c)];
  }

  lemma FlowOne(e: Event)
    ensures Flow([e]) == ItemsOf(e)
  {
    assert [e][1..] == [] && ItemsOf(e) + [] == ItemsOf(e);
  }

  lemma EndingPass(e: Ending, args: seq<string>, at: nat)
    ensures OutcomeOf(PassHere(PrintEnding(e), args, at)) ==
            Outcome(EndingItems(e), at, if e.Cut? then Stopped else Finished)
  {
    var s := PrintEnding(e);
    match e {
      case Done =>
      case Dangling =>
        FirstDoes(s, args, at);
        PassNext(s, args, at);
        assert s[1..] == "" && s[..1] == s && Chars(s) == [Ch('\\')];
        FlowThen(Escaped(s), PassHere("", args, at));
      case Cut(unread) =>
        FirstDoes(s, args, at);
        PassNext(s, args, at);
        assert s[..2] == "\\c" && Chars("\\c") == [Ch('\\'), Ch('c')];
        FlowOne(Escaped(s[..2]));
    }
  }

  // --- node by node ---

  /** What the first element of a format does. */
  type Stepper = (string, seq<string>, nat) -> PrintfReuse.Outcome

  function Stepping(): Stepper {
    (s: string, args: seq<string>, at: nat) => if s != "" then Do(s, 0, args, at) else Over([], at, Finished)
  }

  /** Mark the formats and nodes a law is looked up for. */
  ghost predicate Seen(s: string, args: seq<string>, at: nat) { true }

  ghost predicate At(n: Node, rest: string, args: seq<string>, at: nat) { true }

  ghost predicate Ended(e: Ending, args: seq<string>, at: nat) { true }

  /** A pass is what its first element does, and then the pass over the rest. */
  ghost predicate StepLaw(pass: Passer, first: Stepper) {
    forall s, args, at: nat {:trigger Seen(s, args, at)} :: Seen(s, args, at) && s != "" ==>
      var o := first(s, args, at);
      && (o.Went? ==> o.width <= |s|)
      && pass(s, args, at) == if o.Went? then Before(ItemsOf(o.event), pass(s[o.width..], args, o.consumed))
                              else Outcome(Flow(o.events), o.consumed, o.end)
  }

  /** The first element does what its node should; an escape may be longer than its node. */
  ghost predicate FirstLaw(first: Stepper, does: Doings) {
    forall n, rest, args, at: nat {:trigger At(n, rest, args, at)} ::
      At(n, rest, args, at) && Legal(n) && !n.Backslash? ==>
        Meets(first(PrintNode(n) + rest, args, at), does(n, args, at), |PrintNode(n)|, at)
  }

  /** What a node does to a pass, and what is left of it. */
  ghost predicate Passed(whole: Outcome, deed: Deed, at: nat, later: Outcome) {
    whole == if deed.halts then Outcome(deed.items, at + deed.takes, Stopped) else Before(deed.items, later)
  }

  ghost predicate EscapeLaw(pass: Passer, does: Doings) {
    forall n, rest, args, at: nat {:trigger At(n, rest, args, at)} ::
      At(n, rest, args, at) && Legal(n) && n.Backslash? ==>
        var deed := does(n, args, at);
        Passed(pass(PrintNode(n) + rest, args, at), deed, at, pass(rest, args, at + deed.takes))
  }

  ghost predicate EndLaw(pass: Passer) {
    forall e, args, at: nat {:trigger Ended(e, args, at)} :: Ended(e, args, at) ==>
      pass(PrintEnding(e), args, at) == Outcome(EndingItems(e), at, if e.Cut? then Stopped else Finished)
  }

  lemma PassingSteps()
    ensures StepLaw(Passing(), Stepping())
  {
    forall s, args, at: nat | s != ""
      ensures var o := Do(s, 0, args, at);
              && (o.Went? ==> o.width <= |s|)
              && OutcomeOf(PassHere(s, args, at)) ==
                 if o.Went? then Before(ItemsOf(o.event), OutcomeOf(PassHere(s[o.width..], args, o.consumed)))
                 else Outcome(Flow(o.events), o.consumed, o.end)
    {
      PassNext(s, args, at);
      var o := Do(s, 0, args, at);
      if o.Went? {
        FlowThen(o.event, PassHere(s[o.width..], args, o.consumed));
      }
    }
  }

  lemma SteppingMeets()
    ensures FirstLaw(Stepping(), Deeds())
  {
    forall n, rest, args, at: nat | Legal(n) && !n.Backslash?
      ensures PrintNode(n) + rest != ""
      ensures Meets(Do(PrintNode(n) + rest, 0, args, at), DeedOf(n, args, at), |PrintNode(n)|, at)
    {
      match n {
        case Plain(c) => PlainMeets(c, rest, args, at);
        case Percent(sh) => PercentMeets(sh, rest, args, at);
        case Directive(sh, v) => DirectiveMeets(sh, v, rest, args, at);
      }
    }
  }

  lemma EscapeWritten(c: char, rest: string, args: seq<string>, at: nat)
    requires c != 'c'
    ensures Passing()(['\\', c] + rest, args, at) == Before([Ch('\\'), Ch(c)], Passing()(rest, args, at))
  {
    EscapePass(['\\', c] + rest, args, at);
    assert (['\\', c] + rest)[2..] == rest;
  }

  ghost predicate EscapesPass(pass: Passer) {
    forall c, rest, args, at: nat {:trigger pass(['\\', c] + rest, args, at)} :: c != 'c' ==>
      pass(['\\', c] + rest, args, at) == Before([Ch('\\'), Ch(c)], pass(rest, args, at))
  }

  lemma EscapesMeet(pass: Passer)
    requires EscapesPass(pass)
    ensures EscapeLaw(pass, Deeds())
  {
  }

  lemma PassingEscapes()
    ensures EscapeLaw(Passing(), Deeds())
  {
    forall c, rest, args, at: nat | c != 'c'
      ensures Passing()(['\\', c] + rest, args, at) == Before([Ch('\\'), Ch(c)], Passing()(rest, args, at))
    {
      EscapeWritten(c, rest, args, at);
    }
    EscapesMeet(Passing());
  }

  lemma PassingEnds()
    ensures EndLaw(Passing())
  {
    forall e, args, at: nat
      ensures OutcomeOf(PassHere(PrintEnding(e), args, at)) ==
              Outcome(EndingItems(e), at, if e.Cut? then Stopped else Finished)
    {
      EndingPass(e, args, at);
    }
  }

  ghost predicate Lawful(pass: Passer, first: Stepper, does: Doings) {
    StepLaw(pass, first) && FirstLaw(first, does) && EscapeLaw(pass, does) && EndLaw(pass)
  }

  lemma Behind(head: string, rest: string)
    ensures (head + rest)[|head|..] == rest
  {
  }

  lemma NodePassed(pass: Passer, first: Stepper, does: Doings, n: Node, rest: string, args: seq<string>, at: nat)
    requires Lawful(pass, first, does) && Legal(n)
    ensures var deed := does(n, args, at);
            Passed(pass(PrintNode(n) + rest, args, at), deed, at, pass(rest, args, at + deed.takes))
  {
    assert At(n, rest, args, at);
    if !n.Backslash? {
      assert Seen(PrintNode(n) + rest, args, at);
      Behind(PrintNode(n), rest);
    }
  }

  lemma TreeNext(does: Doings, nodes: seq<Node>, e: Ending, args: seq<string>, at: nat, whole: Outcome)
    requires nodes != []
    requires var deed := does(nodes[0], args, at);
             Passed(whole, deed, at, TreePass(does, nodes[1..], e, args, at + deed.takes))
    ensures whole == TreePass(does, nodes, e, args, at)
  {
  }

  lemma {:induction false} TreePassed(pass: Passer, first: Stepper, does: Doings, nodes: seq<Node>, e: Ending,
                                     args: seq<string>, at: nat)
    requires Lawful(pass, first, does) && forall n <- nodes :: Legal(n)
    ensures pass(Print(nodes, e), args, at) == TreePass(does, nodes, e, args, at)
  {
    if nodes == [] {
      assert Ended(e, args, at);
    } else {
      var rest := Print(nodes[1..], e);
      assert Legal(nodes[0]);
      NodePassed(pass, first, does, nodes[0], rest, args, at);
      TreePassed(pass, first, does, nodes[1..], e, args, at + does(nodes[0], args, at).takes);
      TreeNext(does, nodes, e, args, at, pass(PrintNode(nodes[0]) + rest, args, at));
    }
  }

  /**
   * A pass over a printed format writes what its tree does, in order: every character, escape and
   * percent sign once; every directive with the next arguments, stars first and its value last; and it
   * ends where a %b argument, or the format, says \c.
   */
  lemma PassIsTreePass(nodes: seq<Node>, e: Ending, args: seq<string>, at: nat)
    requires forall n <- nodes :: Legal(n)
    ensures OutcomeOf(PassHere(Print(nodes, e), args, at)) == TreePass(Deeds(), nodes, e, args, at)
  {
    PassingSteps();
    SteppingMeets();
    PassingEscapes();
    PassingEnds();
    TreePassed(Passing(), Stepping(), Deeds(), nodes, e, args, at);
  }
}
