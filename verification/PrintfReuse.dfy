/** internal/builtins/printf.go: which arguments each pass over a format gets. */
module PrintfReuse {
  import opened Options
  import opened Arith

  // --- one element of a format ---

  /** The end of the run of accepted characters from i on. */
  function SkipWhile(s: string, i: nat, accepted: char -> bool): (r: nat)
    requires i <= |s|
    ensures i <= r <= |s| && (forall j :: i <= j < r ==> accepted(s[j])) && (r < |s| ==> !accepted(s[r]))
    decreases |s| - i
  {
    if i < |s| && accepted(s[i]) then SkipWhile(s, i + 1, accepted) else i
  }

  predicate IsFlag(c: char) { c in "-+ #0'" }

  predicate IsSize(c: char) { c == '*' || '0' <= c <= '9' }

  predicate IsModifier(c: char) { c in "lhLjzt" }

  predicate IsHex(c: char) { '0' <= c <= '9' || 'a' <= c <= 'f' || 'A' <= c <= 'F' }

  predicate IsOctal(c: char) { '0' <= c <= '7' }

  function Min(a: nat, b: nat): nat { if a < b then a else b }

  /** How many bytes the escape at the head takes. */
  function EscapeWidth(s: string): (n: nat)
    requires |s| >= 1
    ensures 1 <= n <= |s|
  {
    if |s| < 2 then 1
    else if s[1] == '0' then SkipWhile(s[..Min(|s|, 5)], 2, IsOctal)
    else if IsOctal(s[1]) then SkipWhile(s[..Min(|s|, 4)], 1, IsOctal)
    else if s[1] == 'x' then SkipWhile(s[..Min(|s|, 4)], 2, IsHex)
    else if s[1] == 'u' then SkipWhile(s[..Min(|s|, 6)], 2, IsHex)
    else if s[1] == 'U' then SkipWhile(s[..Min(|s|, 10)], 2, IsHex)
    else 2
  }

  /** \c ends all output. */
  predicate EscapeStops(s: string) {
    |s| >= 2 && s[1] == 'c'
  }

  /** The \c of a %b argument, found where escapes begin and nowhere else. */
  predicate ArgumentStops(s: string)
    decreases |s|
  {
    s != "" &&
    if s[0] != '\\' then ArgumentStops(s[1..])
    else EscapeStops(s) || ArgumentStops(s[EscapeWidth(s)..])
  }

  function Ungrouped(s: string): string {
    if s == "" then "" else (if s[0] == '\'' then "" else [s[0]]) + Ungrouped(s[1..])
  }

  /** What stands between the percent sign and the verb. */
  datatype Spec = Spec(text: string, verb: char, width: nat)

  /** Past the flags, the width and the precision. */
  function SizeEnd(s: string): (i: nat)
    requires |s| >= 1
    ensures 1 <= i <= |s|
  {
    var size := SkipWhile(s, SkipWhile(s, 1, IsFlag), IsSize);
    if size < |s| && s[size] == '.' then SkipWhile(s, size + 1, IsSize) else size
  }

  function SpecAt(s: string, sized: nat, i: nat): (r: Option<Spec>)
    requires 1 <= sized <= i <= |s|
    ensures r.Some? ==> 2 <= r.value.width <= |s|
  {
    var text := "%" + Ungrouped(s[1..sized]);
    if i >= |s| then None
    else if s[i] == '(' then
      var close := SkipWhile(s, i, c => c != ')');
      if close + 1 >= |s| || s[close + 1] != 'T' then None
      else Some(Spec(text + s[i..close + 1], 'T', close + 2))
    else Some(Spec(text, s[i], i + 1))
  }

  function ParseSpec(s: string): (r: Option<Spec>)
    requires |s| >= 1
    ensures r.Some? ==> 2 <= r.value.width <= |s|
  {
    SpecAt(s, SizeEnd(s), SkipWhile(s, SizeEnd(s), IsModifier))
  }

  /** More than nine digits in a row are no width. */
  predicate TooWide(spec: string, digits: nat) {
    spec != "" &&
    if '0' <= spec[0] <= '9' then digits + 1 > 9 || TooWide(spec[1..], digits + 1) else TooWide(spec[1..], 0)
  }

  function Stars(spec: string): nat {
    if spec == "" then 0 else (if spec[0] == '*' then 1 else 0) + Stars(spec[1..])
  }

  predicate IsVerb(c: char) { c in "cCsSbnqQTdiuoxXeEfFgGaA" }

  datatype Element =
    | Literal(width: nat)
    | Escape(width: nat, stops: bool)
    | PercentSign(width: nat)
    | Conversion(spec: Spec)
    | Malformed

  /** What a format begins with. */
  function ElementAt(s: string): (e: Element)
    requires |s| >= 1
    ensures match e
            case Literal(n) => 1 <= n <= |s|
            case Escape(n, _) => 1 <= n <= |s|
            case PercentSign(n) => 1 <= n <= |s|
            case Conversion(spec) => 1 <= spec.width <= |s|
            case Malformed => true
  {
    if s[0] == '\\' then Escape(EscapeWidth(s), EscapeStops(s))
    else if s[0] != '%' then Literal(1)
    else
      match ParseSpec(s)
      case None => Malformed
      case Some(spec) =>
        if TooWide(spec.text, 0) then Malformed
        else if spec.verb == '%' then PercentSign(spec.width)
        else Conversion(spec)
  }

  // --- one pass ---

  /** What is written, before conversions and escapes are rendered; None is an argument not supplied. */
  datatype Event =
    | Plain(text: string)
    | Escaped(source: string)
    | Converted(spec: Spec, given: seq<Option<string>>)

  datatype End = Finished | Stopped | Bad

  datatype Pass = Pass(events: seq<Event>, consumed: nat, end: End)

  function Lookup(args: seq<string>, i: nat): Option<string> {
    if i < |args| then Some(args[i]) else None
  }

  /** The next m arguments. */
  function Given(args: seq<string>, at: nat, m: nat): (g: seq<Option<string>>)
    ensures |g| == m && forall t :: 0 <= t < m ==> g[t] == Lookup(args, at + t)
  {
    seq(m, t requires 0 <= t < m => Lookup(args, at + t))
  }

  /** Stars first, then the value; a verb nobody knows fails after its stars. */
  function Takes(spec: Spec): nat {
    Stars(spec.text) + if IsVerb(spec.verb) then 1 else 0
  }

  predicate StopsAt(spec: Spec, given: seq<Option<string>>) {
    spec.verb == 'b' && |given| > 0 && given[|given| - 1].Some? && ArgumentStops(given[|given| - 1].value)
  }

  function Then(e: Event, p: Pass): Pass {
    p.(events := [e] + p.events)
  }

  /** What one element does: it goes on, or ends the pass. */
  datatype Outcome = Went(event: Event, width: nat, consumed: nat) | Over(events: seq<Event>, consumed: nat, end: End)

  function Do(format: string, i: nat, args: seq<string>, at: nat): (o: Outcome)
    requires i < |format|
    ensures o.Went? ==> 1 <= o.width <= |format| - i
  {
    match ElementAt(format[i..])
    case Literal(n) => Went(Plain(format[i..i + n]), n, at)
    case Escape(n, stops) =>
      if stops then Over([Escaped(format[i..i + n])], at, Stopped) else Went(Escaped(format[i..i + n]), n, at)
    case PercentSign(n) => Went(Plain("%"), n, at)
    case Malformed => Over([], at, Bad)
    case Conversion(spec) =>
      var given := Given(args, at, Takes(spec));
      if !IsVerb(spec.verb) then Over([], at + Takes(spec), Bad)
      else if StopsAt(spec, given) then Over([Converted(spec, given)], at + Takes(spec), Stopped)
      else Went(Converted(spec, given), spec.width, at + Takes(spec))
  }

  /** How many arguments an element takes, and how it ends the pass if it does whatever they are. */
  datatype Cost = Goes(width: nat, takes: nat) | Ends(takes: nat, end: End)

  function CostOf(format: string, i: nat): (c: Cost)
    requires i < |format|
  {
    match ElementAt(format[i..])
    case Literal(n) => Goes(n, 0)
    case Escape(n, stops) => if stops then Ends(0, Stopped) else Goes(n, 0)
    case PercentSign(n) => Goes(n, 0)
    case Malformed => Ends(0, Bad)
    case Conversion(spec) => if IsVerb(spec.verb) then Goes(spec.width, Takes(spec)) else Ends(Takes(spec), Bad)
  }

  // --- a pass, for whatever elements do ---

  /** What the element at a position does, given the arguments and the number of the next one. */
  type Doer = (seq<string>, nat, nat) -> Outcome

  ghost predicate Bounded(go: Doer, n: nat) {
    forall args, i: nat, at: nat :: i < n && go(args, i, at).Went? ==> 1 <= go(args, i, at).width <= n - i
  }

  /** The pass from position i of n on. */
  function Once(go: Doer, n: nat, args: seq<string>, i: nat, at: nat): Pass
    requires i <= n && Bounded(go, n)
    decreases n - i
  {
    if i == n then Pass([], at, Finished)
    else
      match go(args, i, at)
      case Went(event, width, consumed) => Then(event, Once(go, n, args, i + width, consumed))
      case Over(events, consumed, end) => Pass(events, consumed, end)
  }

  /** The elements of a format. */
  function Doing(format: string): Doer {
    (args: seq<string>, i: nat, at: nat) => if i < |format| then Do(format, i, args, at) else Over([], at, Finished)
  }

  lemma DoingIsBounded(format: string)
    ensures Bounded(Doing(format), |format|)
  {
  }

  // --- the loops ---

  method SkipRun(s: string, from: nat, accepted: char -> bool) returns (i: nat)
    requires from <= |s|
    ensures i == SkipWhile(s, from, accepted)
  {
    i := from;
    while i < |s| && accepted(s[i])
      invariant from <= i <= |s| && SkipWhile(s, i, accepted) == SkipWhile(s, from, accepted)
    {
      i := i + 1;
    }
  }

  method ScanSizes(s: string) returns (i: nat)
    requires |s| >= 1
    ensures i == SizeEnd(s)
  {
    i := SkipRun(s, 1, IsFlag);
    i := SkipRun(s, i, IsSize);
    if i < |s| && s[i] == '.' {
      i := SkipRun(s, i + 1, IsSize);
    }
  }

  method ScanVerb(s: string, sized: nat, i: nat) returns (r: Option<Spec>)
    requires 1 <= sized <= i <= |s|
    ensures r == SpecAt(s, sized, i)
  {
    if i >= |s| {
      return None;
    }
    var text := "%" + Ungrouped(s[1..sized]);
    if s[i] == '(' {
      var close := SkipRun(s, i, c => c != ')');
      if close + 1 >= |s| || s[close + 1] != 'T' {
        return None;
      }
      return Some(Spec(text + s[i..close + 1], 'T', close + 2));
    }
    return Some(Spec(text, s[i], i + 1));
  }

  method ScanSpec(s: string) returns (r: Option<Spec>)
    requires |s| >= 1
    ensures r == ParseSpec(s)
  {
    var sized := ScanSizes(s);
    var i := SkipRun(s, sized, IsModifier);
    r := ScanVerb(s, sized, i);
  }

  method CheckSpecWidth(spec: string) returns (tooWide: bool)
    ensures tooWide == TooWide(spec, 0)
  {
    var digits := 0;
    for i := 0 to |spec|
      invariant digits <= 9 && TooWide(spec, 0) == TooWide(spec[i..], digits)
    {
      assert spec[i..][0] == spec[i] && spec[i..][1..] == spec[i + 1..];
      if '0' <= spec[i] <= '9' {
        digits := digits + 1;
        if digits > 9 {
          return true;
        }
      } else {
        digits := 0;
      }
    }
    return false;
  }

  method NextElement(s: string) returns (e: Element)
    requires |s| >= 1
    ensures e == ElementAt(s)
  {
    if s[0] == '\\' {
      return Escape(EscapeWidth(s), EscapeStops(s));
    }
    if s[0] != '%' {
      return Literal(1);
    }
    var spec := ScanSpec(s);
    if spec.None? {
      return Malformed;
    }
    var tooWide := CheckSpecWidth(spec.value.text);
    if tooWide {
      return Malformed;
    }
    return if spec.value.verb == '%' then PercentSign(spec.value.width) else Conversion(spec.value);
  }

  /** The arguments of one conversion, taken one by one. */
  method TakeArguments(args: seq<string>, at: nat, spec: Spec) returns (given: seq<Option<string>>, consumed: nat)
    ensures given == Given(args, at, Takes(spec)) && consumed == at + Takes(spec)
  {
    given, consumed := [], at;
    var left := Takes(spec);
    while left > 0
      invariant |given| + left == Takes(spec) && consumed == at + |given|
      invariant forall t :: 0 <= t < |given| ==> given[t] == Lookup(args, at + t)
    {
      given := given + [Lookup(args, consumed)];
      consumed := consumed + 1;
      left := left - 1;
    }
  }

  /** The whole pass, given its events so far and how the rest will go. */
  ghost predicate Reached(whole: Pass, events: seq<Event>, ahead: Pass) {
    whole == Pass(events + ahead.events, ahead.consumed, ahead.end)
  }

  lemma ReachedStart(whole: Pass)
    ensures Reached(whole, [], whole)
  {
    assert [] + whole.events == whole.events;
  }

  lemma ReachedNext(whole: Pass, events: seq<Event>, e: Event, ahead: Pass)
    requires Reached(whole, events, Then(e, ahead))
    ensures Reached(whole, events + [e], ahead)
  {
    assert events + ([e] + ahead.events) == events + [e] + ahead.events;
  }

  /** `go` is what the elements of this format do. */
  ghost predicate IsDoing(go: Doer, format: string) {
    forall args, i: nat, at: nat {:trigger Do(format, i, args, at)} ::
      i < |format| ==> go(args, i, at) == Do(format, i, args, at)
  }

  method DoElement(ghost go: Doer, format: string, i: nat, args: seq<string>, at: nat) returns (o: Outcome)
    requires i < |format| && IsDoing(go, format)
    ensures o == go(args, i, at)
  {
    assert go(args, i, at) == Do(format, i, args, at);
    var e := NextElement(format[i..]);
    match e {
      case Malformed =>
        return Over([], at, Bad);
      case Literal(n) =>
        return Went(Plain(format[i..i + n]), n, at);
      case PercentSign(n) =>
        return Went(Plain("%"), n, at);
      case Escape(n, stops) =>
        return if stops then Over([Escaped(format[i..i + n])], at, Stopped) else Went(Escaped(format[i..i + n]), n, at);
      case Conversion(spec) =>
        var given, consumed := TakeArguments(args, at, spec);
        if !IsVerb(spec.verb) {
          return Over([], consumed, Bad);
        }
        if StopsAt(spec, given) {
          return Over([Converted(spec, given)], consumed, Stopped);
        }
        return Went(Converted(spec, given), spec.width, consumed);
    }
  }

  method PrintfOnce(ghost go: Doer, format: string, args: seq<string>)
    returns (events: seq<Event>, consumed: nat, end: End)
    requires IsDoing(go, format) && Bounded(go, |format|)
    ensures Pass(events, consumed, end) == Once(go, |format|, args, 0, 0)
  {
    events, consumed := [], 0;
    var i := 0;
    ghost var whole := Once(go, |format|, args, 0, 0);
    ReachedStart(whole);
    while i < |format|
      invariant i <= |format| && Reached(whole, events, Once(go, |format|, args, i, consumed))
      decreases |format| - i
    {
      var o := DoElement(go, format, i, args, consumed);
      match o {
        case Over(last, after, how) =>
          return events + last, after, how;
        case Went(event, width, after) =>
          ReachedNext(whole, events, event, Once(go, |format|, args, i + width, after));
          events, consumed, i := events + [event], after, i + width;
      }
    }
    assert events + [] == events;
    return events, consumed, Finished;
  }

  // --- reuse ---

  /** The passes over the arguments that are left. */
  function Reuse(go: Doer, n: nat, rest: seq<string>): seq<Pass>
    requires Bounded(go, n)
    decreases |rest|
  {
    var p := Once(go, n, rest, 0, 0);
    if p.end != Finished || p.consumed == 0 || p.consumed >= |rest| then [p]
    else [p] + Reuse(go, n, rest[p.consumed..])
  }

  /** What is written: nothing of a pass that ends in an error. */
  function Written(passes: seq<Pass>): seq<Event> {
    if passes == [] then []
    else Written(passes[..|passes| - 1]) +
         if passes[|passes| - 1].end == Bad then [] else passes[|passes| - 1].events
  }

  lemma WrittenNext(passes: seq<Pass>, p: Pass)
    ensures Written(passes + [p]) == Written(passes) + if p.end == Bad then [] else p.events
  {
    assert (passes + [p])[..|passes|] == passes;
  }

  ghost predicate Failed(passes: seq<Pass>) {
    exists p <- passes :: p.end == Bad
  }

  lemma FailedNext(passes: seq<Pass>, p: Pass)
    ensures Failed(passes + [p]) <==> Failed(passes) || p.end == Bad
  {
    assert p in passes + [p];
    if Failed(passes) {
      var q :| q in passes && q.end == Bad;
      assert q in passes + [p];
    }
  }

  /** Some passes done, and others ahead. */
  ghost predicate AtPass(whole: seq<Pass>, done: seq<Pass>, out: seq<Event>, ahead: seq<Pass>) {
    whole == done + ahead && out == Written(done) && !Failed(done)
  }

  lemma AtLastPass(whole: seq<Pass>, done: seq<Pass>, out: seq<Event>, p: Pass)
    requires AtPass(whole, done, out, [p])
    ensures Failed(whole) <==> p.end == Bad
    ensures Written(whole) == out + if p.end == Bad then [] else p.events
  {
    WrittenNext(done, p);
    FailedNext(done, p);
  }

  lemma AtNextPass(whole: seq<Pass>, done: seq<Pass>, out: seq<Event>, p: Pass, ahead: seq<Pass>)
    requires AtPass(whole, done, out, [p] + ahead) && p.end != Bad
    ensures AtPass(whole, done + [p], out + p.events, ahead)
  {
    WrittenNext(done, p);
    FailedNext(done, p);
    assert done + ([p] + ahead) == done + [p] + ahead;
  }

  method PrintfLoop(ghost go: Doer, format: string, args: seq<string>) returns (out: seq<Event>, failed: bool)
    requires IsDoing(go, format) && Bounded(go, |format|)
    ensures out == Written(Reuse(go, |format|, args)) && (failed <==> Failed(Reuse(go, |format|, args)))
  {
    out := [];
    var rest := args;
    ghost var done: seq<Pass>, whole := [], Reuse(go, |format|, args);
    assert [] + whole == whole;
    while true
      invariant AtPass(whole, done, out, Reuse(go, |format|, rest))
      decreases |rest|
    {
      ghost var p := Once(go, |format|, rest, 0, 0);
      ReuseStep(whole, done, out, go, |format|, rest, p);
      var events, consumed, end := PrintfOnce(go, format, rest);
      if end == Bad {
        return out, true;
      }
      out := out + events;
      if end == Stopped || consumed == 0 || consumed >= |rest| {
        return out, false;
      }
      done := done + [p];
      rest := rest[consumed..];
    }
  }

  lemma ReuseStep(whole: seq<Pass>, done: seq<Pass>, out: seq<Event>, go: Doer, n: nat, rest: seq<string>, p: Pass)
    requires Bounded(go, n) && AtPass(whole, done, out, Reuse(go, n, rest)) && p == Once(go, n, rest, 0, 0)
    ensures if p.end == Bad then Failed(whole) && Written(whole) == out
            else if p.end == Stopped || p.consumed == 0 || p.consumed >= |rest| then
              !Failed(whole) && Written(whole) == out + p.events
            else AtPass(whole, done + [p], out + p.events, Reuse(go, n, rest[p.consumed..]))
  {
    if p.end != Finished || p.consumed == 0 || p.consumed >= |rest| {
      AtLastPass(whole, done, out, p);
      assert out + [] == out;
    } else {
      AtNextPass(whole, done, out, p, Reuse(go, n, rest[p.consumed..]));
    }
  }

  /** Printf, from the format on. */
  function Passes(format: string, args: seq<string>): seq<Pass> {
    DoingIsBounded(format);
    Reuse(Doing(format), |format|, args)
  }

  method Printf(format: string, args: seq<string>) returns (out: seq<Event>, failed: bool)
    ensures out == Written(Passes(format, args)) && (failed <==> Failed(Passes(format, args)))
  {
    DoingIsBounded(format);
    out, failed := PrintfLoop(Doing(format), format, args);
  }

  // --- what a pass takes depends on the format alone ---

  type Coster = nat -> Cost

  function Costing(format: string): Coster {
    (i: nat) => if i < |format| then CostOf(format, i) else Ends(0, Finished)
  }

  ghost predicate Steady(cost: Coster, n: nat) {
    forall i: nat :: i < n && cost(i).Goes? ==> 1 <= cost(i).width <= n - i
  }

  /** How many arguments a pass takes that no argument stops, and how it ends. */
  datatype Demand = Demand(takes: nat, end: End)

  function DemandOf(cost: Coster, n: nat, i: nat): Demand
    requires i <= n && Steady(cost, n)
    decreases n - i
  {
    if i == n then Demand(0, Finished)
    else
      match cost(i)
      case Goes(width, takes) => var d := DemandOf(cost, n, i + width); d.(takes := takes + d.takes)
      case Ends(takes, end) => Demand(takes, end)
  }

  /** An element does what it costs, except that a %b argument may end the pass there. */
  ghost predicate Meets(o: Outcome, at: nat, c: Cost) {
    match o
    case Went(_, width, consumed) => c.Goes? && width == c.width && consumed == at + c.takes
    case Over(_, consumed, end) => consumed == at + c.takes && (end == Stopped || (c.Ends? && end == c.end))
  }

  ghost predicate Priced(go: Doer, n: nat, cost: Coster) {
    forall args, i: nat, at: nat :: i < n ==> Meets(go(args, i, at), at, cost(i))
  }

  ghost predicate SameArgs(a: seq<string>, at: nat, b: seq<string>, from: nat, m: nat) {
    Given(a, at, m) == Given(b, from, m)
  }

  lemma GivenSplits(a: seq<string>, at: nat, m: nat, n: nat)
    ensures Given(a, at, m + n) == Given(a, at, m) + Given(a, at + m, n)
  {
  }

  lemma SameArgsSplit(a: seq<string>, at: nat, b: seq<string>, from: nat, m: nat, n: nat)
    requires SameArgs(a, at, b, from, m + n)
    ensures SameArgs(a, at, b, from, m) && SameArgs(a, at + m, b, from + m, n)
  {
    GivenSplits(a, at, m, n);
    GivenSplits(b, from, m, n);
    assert Given(a, at, m) == (Given(a, at, m) + Given(a, at + m, n))[..m];
    assert Given(a, at + m, n) == (Given(a, at, m) + Given(a, at + m, n))[m..];
    assert Given(b, from + m, n) == (Given(b, from, m) + Given(b, from + m, n))[m..];
  }

  ghost predicate SameOutcome(o: Outcome, p: Outcome) {
    match o
    case Went(event, width, _) => p.Went? && p.event == event && p.width == width
    case Over(events, _, end) => p.Over? && p.events == events && p.end == end
  }

  /** And it depends on those arguments alone. */
  ghost predicate Local(go: Doer, n: nat, cost: Coster) {
    forall a, b, i: nat, at: nat, from: nat {:trigger go(a, i, at), go(b, i, from)} ::
      i < n && SameArgs(a, at, b, from, cost(i).takes) ==> SameOutcome(go(a, i, at), go(b, i, from))
  }

  lemma DoMeets(format: string, i: nat, args: seq<string>, at: nat)
    requires i < |format|
    ensures Meets(Do(format, i, args, at), at, CostOf(format, i))
  {
  }

  lemma DoIsLocal(format: string, i: nat, a: seq<string>, at: nat, b: seq<string>, from: nat)
    requires i < |format| && SameArgs(a, at, b, from, CostOf(format, i).takes)
    ensures SameOutcome(Do(format, i, a, at), Do(format, i, b, from))
  {
  }

  lemma CostIsSteady(format: string)
    ensures Steady(Costing(format), |format|)
  {
  }

  lemma DoingIsPriced(format: string)
    ensures Priced(Doing(format), |format|, Costing(format))
  {
    forall args, i: nat, at: nat | i < |format| ensures Meets(Do(format, i, args, at), at, CostOf(format, i)) {
      DoMeets(format, i, args, at);
    }
  }

  lemma DoingIsLocal(format: string)
    ensures Local(Doing(format), |format|, Costing(format))
  {
    forall a, b, i: nat, at: nat, from: nat | i < |format| && SameArgs(a, at, b, from, CostOf(format, i).takes)
      ensures SameOutcome(Do(format, i, a, at), Do(format, i, b, from))
    {
      DoIsLocal(format, i, a, at, b, from);
    }
  }

  lemma {:induction false} OnceTakes(go: Doer, n: nat, cost: Coster, args: seq<string>, i: nat, at: nat)
    requires Bounded(go, n) && Steady(cost, n) && Priced(go, n, cost) && i <= n
    ensures var p, d := Once(go, n, args, i, at), DemandOf(cost, n, i);
            || (p.end == d.end && p.consumed == at + d.takes)
            || (p.end == Stopped && at <= p.consumed <= at + d.takes)
    decreases n - i
  {
    if i < n {
      var o := go(args, i, at);
      assert Meets(o, at, cost(i));
      if o.Went? {
        OnceTakes(go, n, cost, args, i + o.width, o.consumed);
      }
    }
  }

  /** A pass is the same over any arguments that agree where it looks. */
  lemma {:induction false} OnceIsLocal(go: Doer, n: nat, cost: Coster,
                                       a: seq<string>, at: nat, b: seq<string>, from: nat, i: nat)
    requires Bounded(go, n) && Steady(cost, n) && Priced(go, n, cost) && Local(go, n, cost) && i <= n
    requires SameArgs(a, at, b, from, DemandOf(cost, n, i).takes)
    ensures var p, q := Once(go, n, a, i, at), Once(go, n, b, i, from);
            p.events == q.events && p.end == q.end && p.consumed - at == q.consumed - from
    decreases n - i
  {
    if i < n {
      var c := cost(i);
      assert Meets(go(a, i, at), at, c) && Meets(go(b, i, from), from, c);
      if c.Goes? {
        SameArgsSplit(a, at, b, from, c.takes, DemandOf(cost, n, i + c.width).takes);
        OnceIsLocal(go, n, cost, a, at + c.takes, b, from + c.takes, i + c.width);
      }
      assert SameOutcome(go(a, i, at), go(b, i, from));
    }
  }

  // --- windows ---

  /** k arguments from a position on, or what there is of them. */
  function Window(args: seq<string>, from: nat, k: nat): seq<string> {
    if from >= |args| then [] else if from + k <= |args| then args[from..from + k] else args[from..]
  }

  /** One pass, or as many windows of k as cover n arguments. */
  function PassCount(n: nat, k: nat): nat {
    if k == 0 || n == 0 then 1 else (n + k - 1) / k
  }

  lemma PassCountStep(n: nat, k: nat)
    requires 0 < k
    ensures n <= k ==> PassCount(n, k) == 1
    ensures n > k ==> PassCount(n, k) == 1 + PassCount(n - k, k)
  {
    if n > k {
      ShiftByWidth(n - k + k - 1, k);
    } else if n > 0 {
      DivModUnique(n + k - 1, k, 1, n - 1);
    }
  }

  lemma WindowIsFirst(args: seq<string>, k: nat)
    ensures SameArgs(args, 0, Window(args, 0, k), 0, k)
  {
    forall t | 0 <= t < k ensures Given(args, 0, k)[t] == Given(Window(args, 0, k), 0, k)[t] {
    }
  }

  lemma WindowShift(args: seq<string>, k: nat, from: nat)
    requires k <= |args|
    ensures Window(args[k..], from, k) == Window(args, from + k, k)
  {
  }

  /** Where window j of k begins: at j * k. */
  function Offset(k: nat, j: nat): nat {
    if j == 0 then 0 else Offset(k, j - 1) + k
  }

  lemma {:induction false} OffsetIs(k: nat, j: nat)
    ensures Offset(k, j) == j * k
  {
    if j > 0 {
      OffsetIs(k, j - 1);
      MulStep(j - 1, k);
    }
  }

  /** The passes are windows side by side. */
  ghost predicate Windowed(go: Doer, n: nat, ps: seq<Pass>, args: seq<string>, k: nat)
    requires Bounded(go, n)
  {
    forall j :: 0 <= j < |ps| ==> ps[j] == Once(go, n, Window(args, Offset(k, j), k), 0, 0)
  }

  /** The same by product: pass j sees arguments j * k to (j + 1) * k. */
  ghost predicate SideBySide(go: Doer, n: nat, ps: seq<Pass>, args: seq<string>, k: nat)
    requires Bounded(go, n)
  {
    forall j {:trigger ps[j]} :: 0 <= j < |ps| ==> ps[j] == Once(go, n, Window(args, j * k, k), 0, 0)
  }

  lemma WindowAt(args: seq<string>, k: nat, j: nat)
    ensures Window(args, Offset(k, j), k) == Window(args, j * k, k)
  {
    OffsetIs(k, j);
  }

  lemma WindowsByProduct(go: Doer, n: nat, ps: seq<Pass>, args: seq<string>, k: nat)
    requires Bounded(go, n) && Windowed(go, n, ps, args, k)
    ensures SideBySide(go, n, ps, args, k)
  {
    forall j: nat ensures Window(args, Offset(k, j), k) == Window(args, j * k, k) {
      WindowAt(args, k, j);
    }
  }

  ghost predicate AllButLastFinish(ps: seq<Pass>) {
    forall j :: 0 <= j < |ps| - 1 ==> ps[j].end == Finished
  }

  lemma FirstIsWindow(go: Doer, n: nat, cost: Coster, args: seq<string>, k: nat)
    requires Bounded(go, n) && Steady(cost, n) && Priced(go, n, cost) && Local(go, n, cost)
    requires k == DemandOf(cost, n, 0).takes
    ensures Once(go, n, args, 0, 0) == Once(go, n, Window(args, 0, k), 0, 0)
  {
    WindowIsFirst(args, k);
    OnceIsLocal(go, n, cost, args, 0, Window(args, 0, k), 0, 0);
  }

  lemma WindowsShift(go: Doer, n: nat, p: Pass, ps: seq<Pass>, args: seq<string>, k: nat)
    requires Bounded(go, n) && k <= |args| && Windowed(go, n, ps, args[k..], k)
    requires p == Once(go, n, Window(args, 0, k), 0, 0)
    ensures Windowed(go, n, [p] + ps, args, k)
  {
    var all := [p] + ps;
    forall j | 0 <= j < |all| ensures all[j] == Once(go, n, Window(args, Offset(k, j), k), 0, 0) {
      if j > 0 {
        LaterWindow(go, n, ps, args, k, j - 1);
      }
    }
  }

  lemma LaterWindow(go: Doer, n: nat, ps: seq<Pass>, args: seq<string>, k: nat, j: nat)
    requires Bounded(go, n) && k <= |args| && Windowed(go, n, ps, args[k..], k) && j < |ps|
    ensures ps[j] == Once(go, n, Window(args, Offset(k, j + 1), k), 0, 0)
  {
    WindowShift(args, k, Offset(k, j));
  }

  /** All that the reuse of a format needs of it. */
  ghost predicate Regular(go: Doer, n: nat, k: nat)
    requires Bounded(go, n)
  {
    && (forall args {:trigger Window(args, 0, k)} :: Once(go, n, args, 0, 0) == Once(go, n, Window(args, 0, k), 0, 0))
    && (forall args {:trigger Once(go, n, args, 0, 0)} ::
          Once(go, n, args, 0, 0).end == Finished ==> Once(go, n, args, 0, 0).consumed == k)
  }

  lemma PricedIsRegular(go: Doer, n: nat, cost: Coster, k: nat)
    requires Bounded(go, n) && Steady(cost, n) && Priced(go, n, cost) && Local(go, n, cost)
    requires k == DemandOf(cost, n, 0).takes
    ensures Regular(go, n, k)
  {
    forall args ensures Once(go, n, args, 0, 0) == Once(go, n, Window(args, 0, k), 0, 0) {
      FirstIsWindow(go, n, cost, args, k);
    }
    forall args ensures Once(go, n, args, 0, 0).end == Finished ==> Once(go, n, args, 0, 0).consumed == k {
      OnceTakes(go, n, cost, args, 0, 0);
    }
  }

  lemma {:induction false} ReuseIsWindows(go: Doer, n: nat, args: seq<string>, k: nat)
    requires Bounded(go, n) && Regular(go, n, k)
    ensures Windowed(go, n, Reuse(go, n, args), args, k) && AllButLastFinish(Reuse(go, n, args))
    decreases |args|
  {
    var p := Once(go, n, args, 0, 0);
    assert p == Once(go, n, Window(args, 0, k), 0, 0);
    if p.end != Finished || p.consumed == 0 || p.consumed >= |args| {
      assert Reuse(go, n, args) == [p];
    } else {
      ReuseIsWindows(go, n, args[k..], k);
      WindowsShift(go, n, p, Reuse(go, n, args[k..]), args, k);
    }
  }

  lemma {:induction false} ReuseCounts(go: Doer, n: nat, args: seq<string>, k: nat)
    requires Bounded(go, n) && Regular(go, n, k)
    ensures var ps := Reuse(go, n, args);
            && 1 <= |ps| <= PassCount(|args|, k)
            && (ps[|ps| - 1].end == Finished ==> |ps| == PassCount(|args|, k))
    decreases |args|
  {
    var p := Once(go, n, args, 0, 0);
    PassCountPositive(|args|, k);
    if k > 0 {
      PassCountStep(|args|, k);
    }
    if p.end == Finished && 0 < p.consumed < |args| {
      ReuseCounts(go, n, args[k..], k);
    }
  }

  lemma PassCountPositive(n: nat, k: nat)
    ensures PassCount(n, k) >= 1
  {
    if k > 0 && n > 0 {
      DivMod(n + k - 1, k);
      ZeroTimes((n + k - 1) / k, k);
    }
  }

  /** How many arguments a pass over this format takes. */
  function TakesPerPass(format: string): nat {
    CostIsSteady(format);
    DemandOf(Costing(format), |format|, 0).takes
  }

  lemma DoingIsRegular(format: string)
    ensures Bounded(Doing(format), |format|) && Regular(Doing(format), |format|, TakesPerPass(format))
  {
    DoingIsBounded(format);
    CostIsSteady(format);
    DoingIsPriced(format);
    DoingIsLocal(format);
    PricedIsRegular(Doing(format), |format|, Costing(format), TakesPerPass(format));
  }

  /**
   * The number k of arguments a pass takes is the format's alone; pass j gets arguments j*k to
   * (j+1)*k; no pass follows one that \c or an error ended; and if none did, there are as many as
   * cover the arguments, or one when k is 0.
   */
  lemma FormatReuse(format: string, args: seq<string>)
    ensures Bounded(Doing(format), |format|)
    ensures SideBySide(Doing(format), |format|, Passes(format, args), args, TakesPerPass(format))
    ensures AllButLastFinish(Passes(format, args)) && Counted(Passes(format, args), args, TakesPerPass(format))
  {
    DoingIsRegular(format);
    RegularWindows(Doing(format), |format|, args, TakesPerPass(format));
    RegularCounts(Doing(format), |format|, args, TakesPerPass(format));
  }

  /** As many passes as it takes, if the last one finished too. */
  ghost predicate Counted(ps: seq<Pass>, args: seq<string>, k: nat) {
    1 <= |ps| <= PassCount(|args|, k) && (ps[|ps| - 1].end == Finished ==> |ps| == PassCount(|args|, k))
  }

  lemma RegularWindows(go: Doer, n: nat, args: seq<string>, k: nat)
    requires Bounded(go, n) && Regular(go, n, k)
    ensures SideBySide(go, n, Reuse(go, n, args), args, k)
  {
    ReuseIsWindows(go, n, args, k);
    WindowsByProduct(go, n, Reuse(go, n, args), args, k);
  }

  lemma RegularCounts(go: Doer, n: nat, args: seq<string>, k: nat)
    requires Bounded(go, n) && Regular(go, n, k)
    ensures AllButLastFinish(Reuse(go, n, args)) && Counted(Reuse(go, n, args), args, k)
  {
    ReuseIsWindows(go, n, args, k);
    ReuseCounts(go, n, args, k);
  }

  /** A finished pass counts k arguments as consumed, whether there were that many or not. */
  lemma PassConsumes(format: string, args: seq<string>)
    ensures Bounded(Doing(format), |format|)
    ensures var p := Once(Doing(format), |format|, args, 0, 0);
            p.end == Finished ==> p.consumed == TakesPerPass(format)
  {
    DoingIsBounded(format);
    CostIsSteady(format);
    DoingIsPriced(format);
    OnceTakes(Doing(format), |format|, Costing(format), args, 0, 0);
  }

  /** A format error is met in the first pass, so nothing at all has been written. */
  lemma BadFormatWritesNothing(format: string, args: seq<string>)
    ensures Failed(Passes(format, args)) ==> |Passes(format, args)| == 1 && Written(Passes(format, args)) == []
  {
    var go, n, cost := Doing(format), |format|, Costing(format);
    DoingIsBounded(format);
    CostIsSteady(format);
    DoingIsPriced(format);
    FirstFails(go, n, cost, args);
  }

  lemma FirstFails(go: Doer, n: nat, cost: Coster, args: seq<string>)
    requires Bounded(go, n) && Steady(cost, n) && Priced(go, n, cost)
    ensures Failed(Reuse(go, n, args)) ==> |Reuse(go, n, args)| == 1 && Written(Reuse(go, n, args)) == []
  {
    var ps, d := Reuse(go, n, args), DemandOf(cost, n, 0);
    EndsAlike(go, n, cost, args);
    OnceTakes(go, n, cost, args, 0, 0);
    if Failed(ps) {
      var q :| q in ps && q.end == Bad;
      assert d.end == Bad;
      assert |ps| == 1 && ps[0] == q;
      WrittenNext([], ps[0]);
      assert [] + [ps[0]] == ps;
    }
  }

  /** No pass ends otherwise than the format says, unless an argument stops it. */
  lemma {:induction false} EndsAlike(go: Doer, n: nat, cost: Coster, args: seq<string>)
    requires Bounded(go, n) && Steady(cost, n) && Priced(go, n, cost)
    ensures forall q <- Reuse(go, n, args) :: q.end == DemandOf(cost, n, 0).end || q.end == Stopped
    decreases |args|
  {
    var p := Once(go, n, args, 0, 0);
    OnceTakes(go, n, cost, args, 0, 0);
    if p.end == Finished && 0 < p.consumed < |args| {
      EndsAlike(go, n, cost, args[p.consumed..]);
    }
  }
}
