/** internal/builtins/printf.go: formats as trees, and the arguments each asks for. */
module FormatTrees {
  import opened Options
  import opened PrintfReuse

  // --- what a format can be ---

  /** Flags, width, precision and length modifiers. */
  datatype Shape = Shape(flags: string, width: string, precision: Option<string>, modifiers: string)

  datatype Verb = Named(c: char) | Time(layout: string)

  datatype Node =
    | Plain(c: char)
    | Backslash(c: char)
    | Percent(shape: Shape)
    | Directive(shape: Shape, verb: Verb)

  /** Nothing more, a backslash alone, or \c in front of anything. */
  datatype Ending = Done | Dangling | Cut(unread: string)

  datatype Format = Format(nodes: seq<Node>, ending: Ending)

  predicate FlagChar(c: char) {
    match c
    case '-' => true case '+' => true case ' ' => true case '#' => true case '0' => true case '\'' => true
    case _ => false
  }

  predicate Digit(c: char) { '0' <= c <= '9' }

  predicate SizeChar(c: char) { c == '*' || Digit(c) }

  predicate ModifierChar(c: char) {
    match c
    case 'l' => true case 'h' => true case 'L' => true case 'j' => true case 'z' => true case 't' => true
    case _ => false
  }

  /** Characters and strings, %b, %n, quoting, times, integers, floats. */
  predicate VerbChar(c: char) {
    match c
    case 'c' => true case 'C' => true case 's' => true case 'S' => true
    case 'b' => true case 'n' => true
    case 'q' => true case 'Q' => true
    case 'T' => true
    case 'd' => true case 'i' => true case 'u' => true case 'o' => true case 'x' => true case 'X' => true
    case 'e' => true case 'E' => true case 'f' => true case 'F' => true case 'g' => true case 'G' => true
    case 'a' => true case 'A' => true
    case _ => false
  }

  /** Some ten digits stand in a row. */
  ghost predicate LongNumber(t: string) {
    exists i :: TenDigits(t, i)
  }

  ghost predicate TenDigits(t: string, i: int) {
    0 <= i && i + 10 <= |t| && forall k :: i <= k < i + 10 ==> Digit(t[k])
  }

  function Dotted(precision: Option<string>): string {
    match precision case None => "" case Some(p) => "." + p
  }

  function Sizes(sh: Shape): string { sh.flags + sh.width + Dotted(sh.precision) }

  function LayoutText(v: Verb): string {
    match v case Named(_) => "" case Time(layout) => "(" + layout + ")"
  }

  ghost predicate LegalSizes(sh: Shape) {
    && (forall c <- sh.flags :: FlagChar(c))
    && (forall c <- sh.width :: SizeChar(c))
    && (sh.precision.Some? ==> forall c <- sh.precision.value :: SizeChar(c))
    && (forall c <- sh.modifiers :: ModifierChar(c))
  }

  ghost predicate LegalVerb(v: Verb) {
    match v case Named(c) => VerbChar(c) case Time(layout) => ')' !in layout
  }

  /** Grouping quotes do not part digits; a time's layout counts as a size. */
  ghost predicate Legal(n: Node) {
    match n
    case Plain(c) => c != '%' && c != '\\'
    case Backslash(c) => c != 'c'
    case Percent(sh) => LegalSizes(sh) && !LongNumber(Ungrouped(Sizes(sh)))
    case Directive(sh, v) => LegalSizes(sh) && LegalVerb(v) && !LongNumber(Ungrouped(Sizes(sh)) + LayoutText(v))
  }

  ghost predicate LegalFormat(f: Format) { forall n <- f.nodes :: Legal(n) }

  // --- what it asks for ---

  function StarsIn(t: string): nat { multiset(t)['*'] }

  /** One argument for each star, and one for the verb. */
  function Wants(n: Node): nat {
    match n
    case Plain(_) => 0
    case Backslash(_) => 0
    case Percent(_) => 0
    case Directive(sh, v) => StarsIn(sh.width) + StarsIn(Dotted(sh.precision)) + StarsIn(LayoutText(v)) + 1
  }

  function WantsAll(nodes: seq<Node>): nat {
    if nodes == [] then 0 else Wants(nodes[0]) + WantsAll(nodes[1..])
  }

  // --- how it is written ---

  function PrintShape(sh: Shape): string { "%" + Sizes(sh) + sh.modifiers }

  function PrintVerb(v: Verb): string {
    match v case Named(c) => [c] case Time(layout) => "(" + layout + ")T"
  }

  function PrintNode(n: Node): (s: string)
    ensures |s| >= 1
  {
    match n
    case Plain(c) => [c]
    case Backslash(c) => ['\\', c]
    case Percent(sh) => PrintShape(sh) + "%"
    case Directive(sh, v) => PrintShape(sh) + PrintVerb(v)
  }

  function PrintEnding(e: Ending): string {
    match e case Done => "" case Dangling => "\\" case Cut(unread) => "\\c" + unread
  }

  function Print(nodes: seq<Node>, e: Ending): string {
    if nodes == [] then PrintEnding(e) else PrintNode(nodes[0]) + Print(nodes[1..], e)
  }

  // --- the scan of a conversion ---

  lemma SameSets(c: char)
    ensures IsFlag(c) <==> FlagChar(c)
    ensures IsSize(c) <==> SizeChar(c)
    ensures IsModifier(c) <==> ModifierChar(c)
  {
    assert "-+ #0'" == ['-', '+', ' ', '#', '0', '\''];
    assert "lhLjzt" == ['l', 'h', 'L', 'j', 'z', 't'];
  }

  lemma SameVerbs(c: char)
    ensures IsVerb(c) <==> VerbChar(c)
  {
    var text, numbers := "cCsSbnqQT", "diuoxXeEfFgGaA";
    assert "cCsSbnqQTdiuoxXeEfFgGaA" == text + numbers;
    if VerbChar(c) {
      assert c in text || c in numbers;
    }
  }

  /** t stands in s at a position. */
  predicate Placed(s: string, at: nat, t: string) {
    at + |t| <= |s| && s[at..at + |t|] == t
  }

  lemma SkipPlaced(s: string, at: nat, t: string, accepted: char -> bool)
    requires Placed(s, at, t) && forall c <- t :: accepted(c)
    requires at + |t| < |s| ==> !accepted(s[at + |t|])
    ensures SkipWhile(s, at, accepted) == at + |t|
  {
    var r := SkipWhile(s, at, accepted);
    assert forall k :: at <= k < at + |t| ==> s[k] == t[k - at] && t[k - at] in t;
  }

  /** Zeros at the head of a width are taken for flags, which moves nothing after them. */
  lemma FlagsThenSize(s: string, flags: string, width: string, mid: nat, z: nat)
    requires mid == 1 + |flags| && z == mid + |width| && z < |s| && Placed(s, 1, flags) && Placed(s, mid, width)
    requires (forall c <- flags :: FlagChar(c)) && (forall c <- width :: SizeChar(c))
    requires !FlagChar(s[z]) && !SizeChar(s[z])
    ensures SkipWhile(s, SkipWhile(s, 1, IsFlag), IsSize) == z
  {
    assert AllIn(s, 1, mid, IsFlag) by { FlagsPlaced(s, 1, flags); }
    assert AllIn(s, mid, z, IsSize) by { SizesAreSizes(s, mid, width); }
    NeitherFlagNorSize(s[z]);
    RunAfterRun(s, mid, z);
  }

  ghost predicate AllIn(s: string, i: nat, j: nat, ok: char -> bool)
    requires j <= |s|
  {
    forall k :: i <= k < j ==> ok(s[k])
  }

  lemma NeitherFlagNorSize(c: char)
    requires !FlagChar(c) && !SizeChar(c)
    ensures !IsFlag(c) && !IsSize(c)
  {
    SameSets(c);
  }

  lemma RunAfterRun(s: string, mid: nat, z: nat)
    requires 1 <= mid <= z < |s| && !IsFlag(s[z]) && !IsSize(s[z])
    requires AllIn(s, 1, mid, IsFlag) && AllIn(s, mid, z, IsSize)
    ensures SkipWhile(s, SkipWhile(s, 1, IsFlag), IsSize) == z
  {
  }

  lemma FlagsPlaced(s: string, at: nat, flags: string)
    requires Placed(s, at, flags) && forall c <- flags :: FlagChar(c)
    ensures AllIn(s, at, at + |flags|, IsFlag)
  {
    forall k | at <= k < at + |flags| ensures IsFlag(s[k]) {
      assert s[k] == flags[k - at];
      SameSets(s[k]);
    }
  }

  lemma SizesAreSizes(s: string, at: nat, width: string)
    requires Placed(s, at, width) && forall c <- width :: SizeChar(c)
    ensures AllIn(s, at, at + |width|, IsSize)
  {
    forall k | at <= k < at + |width| ensures IsSize(s[k]) {
      assert s[k] == width[k - at] && SizeChar(width[k - at]);
    }
  }

  lemma SizeEndPlaced(s: string, sh: Shape)
    requires LegalSizes(sh) && Placed(s, 1, Sizes(sh))
    requires var p := 1 + |Sizes(sh)|; p < |s| && !FlagChar(s[p]) && !SizeChar(s[p]) && s[p] != '.'
    ensures SizeEnd(s) == 1 + |Sizes(sh)|
  {
    var z, p := 1 + |sh.flags| + |sh.width|, 1 + |Sizes(sh)|;
    SizesPlaced(s, sh);
    if sh.precision.Some? {
      SizeAfterDot(s, z, sh.precision.value);
    }
    FlagsThenSize(s, sh.flags, sh.width, 1 + |sh.flags|, z);
    SizeEndAt(s, z, p);
  }

  lemma SizeEndAt(s: string, z: nat, p: nat)
    requires 1 <= z < |s| && SkipWhile(s, SkipWhile(s, 1, IsFlag), IsSize) == z
    requires if s[z] == '.' then SkipWhile(s, z + 1, IsSize) == p else p == z
    ensures SizeEnd(s) == p
  {
  }

  lemma SizesPlaced(s: string, sh: Shape)
    requires Placed(s, 1, Sizes(sh))
    ensures var z := 1 + |sh.flags| + |sh.width|;
            && Placed(s, 1, sh.flags) && Placed(s, 1 + |sh.flags|, sh.width)
            && Placed(s, z, Dotted(sh.precision)) && (sh.precision.Some? ==> s[z] == '.')
  {
    var z, dotted := 1 + |sh.flags| + |sh.width|, Dotted(sh.precision);
    PlacedParts(s, 1, sh.flags + sh.width, dotted);
    PlacedParts(s, 1, sh.flags, sh.width);
    if sh.precision.Some? {
      assert s[z] == s[z..z + |dotted|][0];
    }
  }

  lemma PlacedParts(s: string, at: nat, a: string, b: string)
    requires Placed(s, at, a + b)
    ensures Placed(s, at, a) && Placed(s, at + |a|, b)
  {
    assert s[at..at + |a|] == (a + b)[..|a|];
    assert s[at + |a|..at + |a| + |b|] == (a + b)[|a|..];
  }

  lemma SizeAfterDot(s: string, z: nat, precision: string)
    requires Placed(s, z, "." + precision) && forall c <- precision :: SizeChar(c)
    requires var p := z + 1 + |precision|; p < |s| && !SizeChar(s[p])
    ensures SkipWhile(s, z + 1, IsSize) == z + 1 + |precision|
  {
    PlacedParts(s, z, ".", precision);
    forall c ensures IsSize(c) <==> SizeChar(c) {
      SameSets(c);
    }
    SkipPlaced(s, z + 1, precision, IsSize);
  }

  /** A character that ends the sizes and the modifiers. */
  predicate EndsSizes(c: char) {
    !FlagChar(c) && !SizeChar(c) && !ModifierChar(c) && c != '.'
  }

  /** What may stand for a verb: known or not, or the percent sign, or a time. */
  ghost predicate Verbal(v: Verb) {
    match v case Named(c) => EndsSizes(c) && c != '(' case Time(layout) => ')' !in layout
  }

  lemma LegalIsVerbal(v: Verb)
    requires LegalVerb(v)
    ensures Verbal(v)
  {
  }

  /** What the scan makes of sizes and a verb that starts at m. */
  function Scanned(sizes: string, m: nat, v: Verb): Spec {
    Spec("%" + Ungrouped(sizes) + LayoutText(v), Letter(v), m + |PrintVerb(v)|)
  }

  function VerbAt(sh: Shape): nat { 1 + |Sizes(sh)| + |sh.modifiers| }

  function Letter(v: Verb): char {
    match v case Named(c) => c case Time(_) => 'T'
  }

  lemma PlacedAfter(a: string, t: string, rest: string)
    ensures Placed(a + t + rest, |a|, t)
  {
    assert (a + t + rest)[|a|..|a| + |t|] == t;
  }

  /** The text of a conversion in front of what follows. */
  lemma ConversionPlaced(sh: Shape, v: Verb, rest: string)
    ensures var s, p := PrintShape(sh) + PrintVerb(v) + rest, 1 + |Sizes(sh)|;
            && Placed(s, 1, Sizes(sh)) && Placed(s, p, sh.modifiers)
            && Placed(s, p + |sh.modifiers|, PrintVerb(v)) && s[0] == '%'
  {
    ThreePlaced(Sizes(sh), sh.modifiers, PrintVerb(v), rest);
  }

  lemma ThreePlaced(a: string, b: string, c: string, rest: string)
    ensures var s := "%" + a + b + c + rest;
            Placed(s, 1, a) && Placed(s, 1 + |a|, b) && Placed(s, 1 + |a| + |b|, c) && s[0] == '%'
  {
    var s := "%" + a + b + c + rest;
    PlacedAfter("%", a, b + c + rest);
    assert "%" + a + (b + c + rest) == s;
    PlacedAfter("%" + a, b, c + rest);
    assert "%" + a + b + (c + rest) == s;
    PlacedAfter("%" + a + b, c, rest);
  }

  lemma SpecOfPrinted(sh: Shape, v: Verb, rest: string)
    requires LegalSizes(sh) && Verbal(v)
    ensures ParseSpec(PrintShape(sh) + PrintVerb(v) + rest) == Some(Scanned(Sizes(sh), VerbAt(sh), v))
  {
    ConversionPlaced(sh, v, rest);
    SpecOfPlaced(PrintShape(sh) + PrintVerb(v) + rest, sh, v);
  }

  lemma SpecOfPlaced(s: string, sh: Shape, v: Verb)
    requires LegalSizes(sh) && Verbal(v) && Placed(s, 1, Sizes(sh)) && Placed(s, 1 + |Sizes(sh)|, sh.modifiers)
    requires Placed(s, VerbAt(sh), PrintVerb(v))
    ensures ParseSpec(s) == Some(Scanned(Sizes(sh), VerbAt(sh), v))
  {
    SizesFirst(s, sh, v);
    ModifiersPlaced(s, 1 + |Sizes(sh)|, sh.modifiers, v);
    SpecFrom(s, Sizes(sh), VerbAt(sh), v);
  }

  lemma SpecFrom(s: string, sizes: string, m: nat, v: Verb)
    requires Placed(s, 1, sizes) && 1 + |sizes| <= m && Placed(s, m, PrintVerb(v))
    requires if v.Named? then v.c != '(' else ')' !in v.layout
    requires SizeEnd(s) == 1 + |sizes| && SkipWhile(s, 1 + |sizes|, IsModifier) == m
    ensures ParseSpec(s) == Some(Scanned(sizes, m, v))
  {
    match v {
      case Named(c) => NamedFrom(s, sizes, m, c);
      case Time(layout) => TimeFrom(s, sizes, m, layout);
    }
  }

  lemma NamedFrom(s: string, sizes: string, m: nat, c: char)
    requires Placed(s, 1, sizes) && 1 + |sizes| <= m && Placed(s, m, [c]) && c != '('
    requires SizeEnd(s) == 1 + |sizes| && SkipWhile(s, 1 + |sizes|, IsModifier) == m
    ensures ParseSpec(s) == Some(Scanned(sizes, m, Named(c)))
  {
    NamedSpec(s, 1 + |sizes|, m, c);
    var text := "%" + Ungrouped(sizes);
    assert text + "" == text;
  }

  lemma TimeFrom(s: string, sizes: string, m: nat, layout: string)
    requires Placed(s, 1, sizes) && 1 + |sizes| <= m && ')' !in layout && Placed(s, m, "(" + layout + ")T")
    requires SizeEnd(s) == 1 + |sizes| && SkipWhile(s, 1 + |sizes|, IsModifier) == m
    ensures ParseSpec(s) == Some(Scanned(sizes, m, Time(layout)))
  {
    TimePlaced(s, m, layout);
    TimeSpec(s, 1 + |sizes|, m, m + |layout| + 1, sizes, LayoutText(Time(layout)));
    TimeScanned(sizes, m, layout);
  }

  lemma TimeScanned(sizes: string, m: nat, layout: string)
    ensures Scanned(sizes, m, Time(layout)) ==
            Spec("%" + Ungrouped(sizes) + LayoutText(Time(layout)), 'T', m + |layout| + 1 + 2)
  {
  }

  lemma NamedSpec(s: string, p: nat, m: nat, c: char)
    requires 1 <= p <= m < |s| && SizeEnd(s) == p && SkipWhile(s, p, IsModifier) == m
    requires s[m..m + 1] == [c] && c != '('
    ensures ParseSpec(s) == Some(Spec("%" + Ungrouped(s[1..p]), c, m + 1))
  {
    assert s[m] == s[m..m + 1][0];
  }

  ghost predicate TimeStands(s: string, m: nat, close: nat) {
    && m < close < |s| - 1 && s[m] == '(' && (forall k :: m <= k < close ==> s[k] != ')')
    && s[close] == ')' && s[close + 1] == 'T'
  }

  lemma TimeSpec(s: string, p: nat, m: nat, close: nat, sizes: string, text: string)
    requires 1 <= p <= m < |s| && SizeEnd(s) == p && SkipWhile(s, p, IsModifier) == m && TimeStands(s, m, close)
    requires s[1..p] == sizes && s[m..close + 1] == text
    ensures ParseSpec(s) == Some(Spec("%" + Ungrouped(sizes) + text, 'T', close + 2))
  {
  }

  lemma TimePlaced(s: string, m: nat, layout: string)
    requires ')' !in layout && Placed(s, m, "(" + layout + ")T")
    ensures TimeStands(s, m, m + |layout| + 1) && s[m..m + |layout| + 2] == "(" + layout + ")"
  {
    var close := m + |layout| + 1;
    PlacedParts(s, m, "(" + layout, ")T");
    PlacedParts(s, m, "(", layout);
    assert s[close] == s[close..close + 2][0] && s[close + 1] == s[close..close + 2][1];
    assert s[m] == s[m..m + 1][0];
    forall k | m <= k < close ensures s[k] != ')' {
      if k > m { assert s[k] == layout[k - m - 1]; }
    }
    assert s[m..close + 1] == "(" + layout + ")";
  }

  lemma SizesFirst(s: string, sh: Shape, v: Verb)
    requires LegalSizes(sh) && Verbal(v) && Placed(s, 1, Sizes(sh)) && Placed(s, 1 + |Sizes(sh)|, sh.modifiers)
    requires Placed(s, VerbAt(sh), PrintVerb(v))
    ensures SizeEnd(s) == 1 + |Sizes(sh)|
  {
    AfterSizes(s, 1 + |Sizes(sh)|, sh.modifiers, v);
    SizeEndPlaced(s, sh);
  }

  /** What ends the sizes of a printed conversion: a modifier or the verb. */
  lemma AfterSizes(s: string, p: nat, modifiers: string, v: Verb)
    requires Placed(s, p, modifiers) && Placed(s, p + |modifiers|, PrintVerb(v))
    requires (forall c <- modifiers :: ModifierChar(c)) && Verbal(v)
    ensures p < |s| && !FlagChar(s[p]) && !SizeChar(s[p]) && s[p] != '.'
  {
    if modifiers != "" {
      assert s[p] == modifiers[0] && ModifierChar(modifiers[0]);
    } else {
      assert s[p] == PrintVerb(v)[0];
    }
  }

  lemma ModifiersPlaced(s: string, p: nat, modifiers: string, v: Verb)
    requires Placed(s, p, modifiers) && Placed(s, p + |modifiers|, PrintVerb(v))
    requires (forall c <- modifiers :: ModifierChar(c)) && Verbal(v)
    ensures SkipWhile(s, p, IsModifier) == p + |modifiers|
  {
    assert s[p + |modifiers|] == PrintVerb(v)[0];
    SameSets(PrintVerb(v)[0]);
    forall c <- modifiers ensures IsModifier(c) {
      SameSets(c);
    }
    SkipPlaced(s, p, modifiers, IsModifier);
  }

  // --- stars and numbers ---

  lemma {:induction false} StarsAppend(a: string, b: string)
    ensures Stars(a + b) == Stars(a) + Stars(b)
  {
    if a == "" {
      assert a + b == b;
    } else {
      StarsAppend(a[1..], b);
      assert (a + b)[1..] == a[1..] + b;
    }
  }

  lemma StarInFront(c: char, t: string)
    ensures StarsIn([c] + t) == (if c == '*' then 1 else 0) + StarsIn(t)
  {
  }

  lemma {:induction false} StarsCounted(t: string)
    ensures Stars(t) == StarsIn(t)
  {
    if t != "" {
      StarsCounted(t[1..]);
      StarInFront(t[0], t[1..]);
      assert t == [t[0]] + t[1..];
    }
  }

  lemma {:induction false} UngroupedKeepsStars(t: string)
    ensures Stars(Ungrouped(t)) == Stars(t)
  {
    if t != "" {
      UngroupedKeepsStars(t[1..]);
      var rest := Ungrouped(t[1..]);
      if t[0] == '\'' {
        assert Ungrouped(t) == "" + rest && "" + rest == rest;
      } else {
        assert ([t[0]] + rest)[1..] == rest;
      }
    }
  }

  lemma NoStarInFlags(flags: string)
    requires forall c <- flags :: FlagChar(c)
    ensures StarsIn(flags) == 0
  {
    assert '*' !in flags;
  }

  /** The scan takes an argument for every star of the tree. */
  lemma StarsOfScanned(sh: Shape, v: Verb)
    requires LegalSizes(sh)
    ensures Stars(Scanned(Sizes(sh), VerbAt(sh), v).text) ==
            StarsIn(sh.width) + StarsIn(Dotted(sh.precision)) + StarsIn(LayoutText(v))
  {
    StarsAppend("%" + Ungrouped(Sizes(sh)), LayoutText(v));
    StarsAppend("%", Ungrouped(Sizes(sh)));
    assert "%"[1..] == "" && Stars("%") == 0;
    UngroupedKeepsStars(Sizes(sh));
    StarsCounted(Sizes(sh));
    StarsCounted(LayoutText(v));
    NoStarInFlags(sh.flags);
  }

  /** The next digits of t, joined to some already seen, make ten. */
  ghost predicate Completes(t: string, seen: nat) {
    seen <= 9 && 10 - seen <= |t| && forall k :: 0 <= k < 10 - seen ==> Digit(t[k])
  }

  lemma LongNumberNext(t: string)
    requires t != ""
    ensures LongNumber(t) <==> TenDigits(t, 0) || LongNumber(t[1..])
  {
    if LongNumber(t[1..]) {
      var i :| TenDigits(t[1..], i);
      assert forall k :: i + 1 <= k < i + 11 ==> t[k] == t[1..][k - 1];
      assert TenDigits(t, i + 1);
    }
    if LongNumber(t) && !TenDigits(t, 0) {
      var i :| TenDigits(t, i);
      assert forall k :: i - 1 <= k < i + 9 ==> t[1..][k] == t[k + 1];
      assert TenDigits(t[1..], i - 1);
    }
  }

  lemma CompletesNext(t: string, seen: nat)
    requires t != "" && seen <= 9
    ensures Completes(t, seen) <==> Digit(t[0]) && (seen == 9 || Completes(t[1..], seen + 1))
  {
    if Digit(t[0]) && seen < 9 && Completes(t[1..], seen + 1) {
      assert forall k :: 1 <= k < 10 - seen ==> t[k] == t[1..][k - 1];
    }
    if Completes(t, seen) {
      assert forall k :: 0 <= k < 9 - seen ==> t[1..][k] == t[k + 1];
    }
  }

  lemma {:induction false} TooWideCounts(t: string, seen: nat)
    requires seen <= 9
    ensures TooWide(t, seen) <==> LongNumber(t) || Completes(t, seen)
  {
    if t != "" {
      LongNumberNext(t);
      CompletesNext(t, seen);
      assert Completes(t, 0) <==> TenDigits(t, 0);
      if !Digit(t[0]) {
        TooWideCounts(t[1..], 0);
        assert Completes(t[1..], 0) <==> TenDigits(t[1..], 0);
      } else if seen < 9 {
        TooWideCounts(t[1..], seen + 1);
      }
    }
  }

  // --- what a pass over the text takes ---

  /** What a pass over a format takes, and how it ends, if no argument ends it. */
  function DemandHere(s: string): Demand {
    CostIsSteady(s);
    DemandOf(Costing(s), |s|, 0)
  }

  function Plus(n: nat, d: Demand): Demand { d.(takes := n + d.takes) }

  ghost predicate Follows(cost: Coster, tail: Coster, n: nat, i: nat) {
    forall k: nat :: i <= k < n ==> cost(k) == tail(k - i)
  }

  /** Costs that agree from a position on make the same demand. */
  lemma {:induction false} DemandShift(cost: Coster, tail: Coster, n: nat, i: nat, j: nat)
    requires i <= j <= n && Steady(cost, n) && Steady(tail, n - i) && Follows(cost, tail, n, i)
    ensures DemandOf(cost, n, j) == DemandOf(tail, n - i, j - i)
    decreases n - j
  {
    if j < n && cost(j).Goes? {
      DemandShift(cost, tail, n, i, j + cost(j).width);
    }
  }

  lemma DropDrop(s: string, i: nat, k: nat)
    requires i <= k <= |s|
    ensures s[i..][k - i..] == s[k..]
  {
  }

  lemma SameCost(s: string, k: nat, t: string, j: nat)
    requires k < |s| && j < |t| && s[k..] == t[j..]
    ensures CostOf(s, k) == CostOf(t, j)
  {
  }

  lemma DemandTail(cost: Coster, tail: Coster, n: nat, i: nat, m: nat)
    requires i <= n && m == n - i && Steady(cost, n) && Steady(tail, m) && Follows(cost, tail, n, i)
    ensures DemandOf(cost, n, i) == DemandOf(tail, m, 0)
  {
    DemandShift(cost, tail, n, i, i);
  }

  lemma DemandSuffix(s: string, i: nat)
    requires i <= |s|
    ensures Steady(Costing(s), |s|) && DemandOf(Costing(s), |s|, i) == DemandHere(s[i..])
  {
    CostIsSteady(s);
    CostIsSteady(s[i..]);
    CostFollows(s, i);
    DemandTail(Costing(s), Costing(s[i..]), |s|, i, |s[i..]|);
  }

  lemma CostFollows(s: string, i: nat)
    requires i <= |s|
    ensures Follows(Costing(s), Costing(s[i..]), |s|, i)
  {
    forall k: nat | i <= k < |s| ensures CostOf(s, k) == CostOf(s[i..], k - i) {
      DropDrop(s, i, k);
      SameCost(s, k, s[i..], k - i);
    }
  }

  lemma DemandNext(cost: Coster, n: nat)
    requires Steady(cost, n) && n > 0
    ensures DemandOf(cost, n, 0) ==
            if cost(0).Goes? then Plus(cost(0).takes, DemandOf(cost, n, cost(0).width))
            else Demand(cost(0).takes, cost(0).end)
  {
  }

  lemma DemandGoes(s: string, w: nat, t: nat)
    requires s != "" && CostOf(s, 0) == Goes(w, t)
    ensures w <= |s| && DemandHere(s) == Plus(t, DemandHere(s[w..]))
  {
    CostIsSteady(s);
    DemandNext(Costing(s), |s|);
    DemandSuffix(s, w);
  }

  lemma DemandEnds(s: string, t: nat, e: End)
    requires s != "" && CostOf(s, 0) == Ends(t, e)
    ensures DemandHere(s) == Demand(t, e)
  {
    CostIsSteady(s);
    DemandNext(Costing(s), |s|);
  }

  lemma DemandStep(s: string)
    requires s != ""
    ensures match ElementAt(s)
            case Literal(n) => DemandHere(s) == DemandHere(s[n..])
            case Escape(n, stops) => DemandHere(s) == if stops then Demand(0, Stopped) else DemandHere(s[n..])
            case PercentSign(n) => DemandHere(s) == DemandHere(s[n..])
            case Malformed => DemandHere(s).end == Bad
            case Conversion(spec) =>
              if IsVerb(spec.verb) then DemandHere(s) == Plus(Takes(spec), DemandHere(s[spec.width..]))
              else DemandHere(s).end == Bad
  {
    assert s[0..] == s;
    match CostOf(s, 0) {
      case Goes(w, t) => DemandGoes(s, w, t);
      case Ends(t, e) => DemandEnds(s, t, e);
    }
  }

  // --- node by node ---

  lemma {:induction false} DigitsAreLiteral(s: string, n: nat)
    requires n <= |s| && forall k :: 0 <= k < n ==> s[k] != '%' && s[k] != '\\'
    ensures DemandHere(s) == DemandHere(s[n..])
  {
    if n == 0 {
      assert s[0..] == s;
    } else {
      DemandStep(s);
      DigitsAreLiteral(s[1..], n - 1);
      assert s[1..][n - 1..] == s[n..];
    }
  }

  /** What an escape takes beyond its first two characters are digits. */
  lemma EscapeTail(s: string)
    requires |s| >= 2
    ensures 2 <= EscapeWidth(s) <= |s| && forall k :: 2 <= k < EscapeWidth(s) ==> IsHex(s[k])
  {
  }

  lemma EscapeStep(s: string)
    requires |s| >= 2 && s[0] == '\\' && s[1] != 'c'
    ensures DemandHere(s) == DemandHere(s[2..])
  {
    EscapeTail(s);
    DemandStep(s);
    LiteralsBetween(s, EscapeWidth(s));
  }

  lemma LiteralsBetween(s: string, w: nat)
    requires 2 <= w <= |s| && forall k :: 2 <= k < w ==> IsHex(s[k])
    ensures DemandHere(s[2..]) == DemandHere(s[w..])
  {
    forall k | 0 <= k < w - 2 ensures s[2..][k] != '%' && s[2..][k] != '\\' {
      assert IsHex(s[k + 2]);
    }
    DigitsAreLiteral(s[2..], w - 2);
    assert s[2..][w - 2..] == s[w..];
  }

  lemma ScannedIsNarrow(sh: Shape, v: Verb)
    ensures TooWide(Scanned(Sizes(sh), VerbAt(sh), v).text, 0) <==>
            LongNumber(Ungrouped(Sizes(sh)) + LayoutText(v))
  {
    var sizes, layout := Ungrouped(Sizes(sh)), LayoutText(v);
    assert "%" + sizes + layout == "%" + (sizes + layout);
    WideBehindPercent(sizes + layout);
  }

  lemma WideBehindPercent(t: string)
    ensures TooWide("%" + t, 0) <==> LongNumber(t)
  {
    assert ("%" + t)[1..] == t;
    TooWideCounts(t, 0);
    assert Completes(t, 0) <==> TenDigits(t, 0);
  }

  lemma PercentElement(sh: Shape, rest: string)
    requires Legal(Percent(sh))
    ensures ElementAt(PrintShape(sh) + "%" + rest) == PercentSign(VerbAt(sh) + 1)
  {
    SpecOfPrinted(sh, Named('%'), rest);
    ScannedIsNarrow(sh, Named('%'));
    var t := Ungrouped(Sizes(sh));
    assert t + "" == t;
  }

  lemma PercentStep(sh: Shape, rest: string)
    requires Legal(Percent(sh))
    ensures DemandHere(PrintShape(sh) + "%" + rest) == DemandHere(rest)
  {
    var s := PrintShape(sh) + "%" + rest;
    PercentElement(sh, rest);
    DemandStep(s);
    assert s[VerbAt(sh) + 1..] == rest;
  }

  lemma DirectiveElement(sh: Shape, v: Verb, rest: string)
    requires Legal(Directive(sh, v))
    ensures ElementAt(PrintShape(sh) + PrintVerb(v) + rest) == Conversion(Scanned(Sizes(sh), VerbAt(sh), v))
    ensures IsVerb(Letter(v))
  {
    LegalIsVerbal(v);
    SpecOfPrinted(sh, v, rest);
    ScannedIsNarrow(sh, v);
    SameVerbs(Letter(v));
    assert VerbChar('T') && !VerbChar('%');
  }

  lemma DirectiveStep(sh: Shape, v: Verb, rest: string)
    requires Legal(Directive(sh, v))
    ensures DemandHere(PrintShape(sh) + PrintVerb(v) + rest) == Plus(Wants(Directive(sh, v)), DemandHere(rest))
  {
    var s := PrintShape(sh) + PrintVerb(v) + rest;
    DirectiveElement(sh, v, rest);
    StarsOfScanned(sh, v);
    DemandStep(s);
    assert s[VerbAt(sh) + |PrintVerb(v)|..] == rest;
  }

  lemma NodeStep(n: Node, rest: string)
    requires Legal(n)
    ensures DemandHere(PrintNode(n) + rest) == Plus(Wants(n), DemandHere(rest))
  {
    var s := PrintNode(n) + rest;
    match n {
      case Plain(c) =>
        DemandStep(s);
        assert s[1..] == rest;
      case Backslash(c) =>
        EscapeStep(s);
        assert s[2..] == rest;
      case Percent(sh) => PercentStep(sh, rest);
      case Directive(sh, v) => DirectiveStep(sh, v, rest);
    }
  }

  lemma EndingDemands(e: Ending)
    ensures DemandHere(PrintEnding(e)) == Demand(0, if e.Cut? then Stopped else Finished)
  {
    if !e.Done? {
      DemandStep(PrintEnding(e));
    }
    if e.Dangling? {
      assert PrintEnding(e)[1..] == "";
    }
  }

  /** A printed format is not malformed, and takes one argument for each star and each verb of its tree. */
  lemma {:induction false} TreeTakes(nodes: seq<Node>, e: Ending)
    requires forall n <- nodes :: Legal(n)
    ensures DemandHere(Print(nodes, e)) == Demand(WantsAll(nodes), if e.Cut? then Stopped else Finished)
  {
    if nodes == [] {
      EndingDemands(e);
    } else {
      TreeTakes(nodes[1..], e);
      NodeStep(nodes[0], Print(nodes[1..], e));
    }
  }

  // --- reading the tree back ---

  /** Where the scan of a conversion passes its parts. */
  datatype Marks = Marks(flags: nat, size: nat, sized: nat, verb: nat)

  ghost predicate Marked(s: string, at: Marks) {
    && 1 <= at.flags <= at.size <= at.sized <= at.verb <= |s| && s[0] == '%'
    && (forall c <- s[1..at.flags] :: FlagChar(c)) && (forall c <- s[at.flags..at.size] :: SizeChar(c))
    && (if at.size == at.sized then true
        else s[at.size] == '.' && forall c <- s[at.size + 1..at.sized] :: SizeChar(c))
    && (forall c <- s[at.sized..at.verb] :: ModifierChar(c))
  }

  lemma FlagsBetween(s: string, i: nat, j: nat)
    requires i <= j <= |s| && forall k :: i <= k < j ==> IsFlag(s[k])
    ensures forall c <- s[i..j] :: FlagChar(c)
  {
    forall c <- s[i..j] ensures FlagChar(c) {
      SameSets(c);
    }
  }

  lemma SizesBetween(s: string, i: nat, j: nat)
    requires i <= j <= |s| && forall k :: i <= k < j ==> IsSize(s[k])
    ensures forall c <- s[i..j] :: SizeChar(c)
  {
  }

  lemma ModifiersBetween(s: string, i: nat, j: nat)
    requires i <= j <= |s| && forall k :: i <= k < j ==> IsModifier(s[k])
    ensures forall c <- s[i..j] :: ModifierChar(c)
  {
    forall c <- s[i..j] ensures ModifierChar(c) {
      SameSets(c);
    }
  }

  lemma MarksOf(s: string) returns (at: Marks)
    requires |s| >= 1 && s[0] == '%'
    ensures Marked(s, at) && ParseSpec(s) == SpecAt(s, at.sized, at.verb)
  {
    var flags := SkipWhile(s, 1, IsFlag);
    var size := SkipWhile(s, flags, IsSize);
    var sized := SizeEnd(s);
    var verb := SkipWhile(s, sized, IsModifier);
    FlagsBetween(s, 1, flags);
    SizesBetween(s, flags, size);
    if size != sized {
      SizesBetween(s, size + 1, sized);
    }
    ModifiersBetween(s, sized, verb);
    at := Marks(flags, size, sized, verb);
  }

  function ShapeAt(s: string, at: Marks): Shape
    requires 1 <= at.flags <= at.size <= at.sized <= at.verb <= |s|
  {
    Shape(s[1..at.flags], s[at.flags..at.size],
          if at.size == at.sized then None else Some(s[at.size + 1..at.sized]), s[at.sized..at.verb])
  }

  lemma ShapeReads(s: string, at: Marks)
    requires Marked(s, at)
    ensures LegalSizes(ShapeAt(s, at)) && Sizes(ShapeAt(s, at)) == s[1..at.sized]
    ensures PrintShape(ShapeAt(s, at)) == s[..at.verb]
  {
    var sh := ShapeAt(s, at);
    if at.size != at.sized {
      assert "." + s[at.size + 1..at.sized] == s[at.size..at.sized];
    }
    assert s[1..at.sized] == s[1..at.flags] + s[at.flags..at.size] + s[at.size..at.sized];
    assert s[..at.verb] == "%" + s[1..at.sized] + s[at.sized..at.verb];
  }

  /** The verb that stands where the sizes and modifiers end. */
  lemma VerbOf(s: string, sized: nat, m: nat) returns (v: Verb)
    requires 1 <= sized <= m <= |s| && SpecAt(s, sized, m).Some?
    ensures var spec := SpecAt(s, sized, m).value;
            && (v.Time? ==> ')' !in v.layout) && spec.verb == Letter(v) && spec.width == m + |PrintVerb(v)|
            && spec.text == "%" + Ungrouped(s[1..sized]) + LayoutText(v)
            && PrintVerb(v) == s[m..spec.width]
  {
    var spec := SpecAt(s, sized, m).value;
    if s[m] == '(' {
      var close := spec.width - 2;
      assert close == SkipWhile(s, m, c => c != ')');
      v := Time(s[m + 1..close]);
      assert "(" + s[m + 1..close] + ")" == s[m..close + 1];
      assert "(" + s[m + 1..close] + ")T" == s[m..close + 2];
    } else {
      v := Named(s[m]);
      var text := "%" + Ungrouped(s[1..sized]);
      assert text + "" == text;
    }
  }

  /** A shape and a verb that a scanned conversion is the print of. */
  ghost predicate Reads(s: string, spec: Spec, sh: Shape, v: Verb) {
    && LegalSizes(sh) && (v.Time? ==> ')' !in v.layout) && spec.verb == Letter(v)
    && spec.text == "%" + Ungrouped(Sizes(sh)) + LayoutText(v)
    && spec.width <= |s| && PrintShape(sh) + PrintVerb(v) == s[..spec.width]
  }

  lemma ConversionReads(s: string) returns (sh: Shape, v: Verb)
    requires |s| >= 1 && s[0] == '%' && ParseSpec(s).Some?
    ensures Reads(s, ParseSpec(s).value, sh, v)
  {
    var at := MarksOf(s);
    sh := ShapeAt(s, at);
    ShapeReads(s, at);
    v := VerbOf(s, at.sized, at.verb);
    Joined(s, at.verb, ParseSpec(s).value.width);
  }

  lemma Joined(s: string, m: nat, n: nat)
    requires m <= n <= |s|
    ensures s[..m] + s[m..n] == s[..n]
  {
  }

  function NodeOf(sh: Shape, v: Verb): Node {
    if Letter(v) == '%' then Percent(sh) else Directive(sh, v)
  }

  lemma NodeIsLegal(s: string, spec: Spec, sh: Shape, v: Verb)
    requires Reads(s, spec, sh, v) && !TooWide(spec.text, 0) && (spec.verb == '%' || IsVerb(spec.verb))
    ensures Legal(NodeOf(sh, v)) && PrintNode(NodeOf(sh, v)) == s[..spec.width]
  {
    NotLong(Ungrouped(Sizes(sh)), LayoutText(v));
    if Letter(v) != '%' {
      VerbIsLegal(v);
    }
  }

  lemma NotLong(sizes: string, layout: string)
    requires !TooWide("%" + sizes + layout, 0)
    ensures !LongNumber(sizes + layout) && (layout == "" ==> !LongNumber(sizes))
  {
    assert "%" + sizes + layout == "%" + (sizes + layout);
    WideBehindPercent(sizes + layout);
    assert sizes + "" == sizes;
  }

  lemma VerbIsLegal(v: Verb)
    requires (v.Time? ==> ')' !in v.layout) && IsVerb(Letter(v))
    ensures LegalVerb(v)
  {
    SameVerbs(Letter(v));
  }

  /** How wide an element is, if it is not malformed and not \c. */
  function WidthOf(e: Element): nat
    requires !e.Malformed?
  {
    match e
    case Literal(n) => n case Escape(n, _) => n case PercentSign(n) => n case Conversion(spec) => spec.width
  }

  lemma ConversionIs(s: string)
    requires |s| >= 1 && s[0] == '%'
    requires ElementAt(s).PercentSign? || (ElementAt(s).Conversion? && IsVerb(ElementAt(s).spec.verb))
    ensures ParseSpec(s).Some?
    ensures var spec := ParseSpec(s).value;
            !TooWide(spec.text, 0) && (spec.verb == '%' || IsVerb(spec.verb)) && spec.width == WidthOf(ElementAt(s))
  {
  }

  /** What the scan accepts is the print of a legal node. */
  lemma NodeReads(s: string) returns (n: Node)
    requires |s| >= 1 && s[0] == '%'
    requires ElementAt(s).PercentSign? || (ElementAt(s).Conversion? && IsVerb(ElementAt(s).spec.verb))
    ensures WidthOf(ElementAt(s)) <= |s|
    ensures Legal(n) && PrintNode(n) == s[..WidthOf(ElementAt(s))]
  {
    ConversionIs(s);
    var sh, v := ConversionReads(s);
    NodeIsLegal(s, ParseSpec(s).value, sh, v);
    n := NodeOf(sh, v);
  }

  /** The first node of a format that is not malformed. */
  lemma HeadReads(s: string) returns (n: Node, w: nat)
    requires s != "" && (s[0] == '\\' ==> |s| > 1 && s[1] != 'c') && DemandHere(s).end != Bad
    ensures 1 <= w <= |s| && Legal(n) && PrintNode(n) == s[..w] && DemandHere(s[w..]).end != Bad
  {
    if s[0] == '\\' {
      EscapeStep(s);
      n, w := Backslash(s[1]), 2;
    } else {
      DemandStep(s);
      if s[0] != '%' {
        n, w := Node.Plain(s[0]), 1;
      } else {
        w := WidthOf(ElementAt(s));
        n := NodeReads(s);
      }
    }
  }

  /** A format that is not malformed is the print of a legal tree. */
  lemma {:induction false} TreeReads(s: string) returns (nodes: seq<Node>, e: Ending)
    requires DemandHere(s).end != Bad
    ensures (forall n <- nodes :: Legal(n)) && Print(nodes, e) == s
    decreases |s|
  {
    if s == "" {
      nodes, e := [], Done;
    } else if s == "\\" {
      nodes, e := [], Dangling;
    } else if s[0] == '\\' && s[1] == 'c' {
      nodes, e := [], Cut(s[2..]);
      assert s == "\\c" + s[2..];
    } else {
      var n, w := HeadReads(s);
      var more, end := TreeReads(s[w..]);
      nodes, e := [n] + more, end;
      Joined(s, w, |s|);
      assert nodes[1..] == more && s[w..] == s[w..|s|] && s[..|s|] == s;
    }
  }

  /** The formats that can be printed. */
  ghost predicate Printed(s: string) {
    exists nodes, e :: (forall n <- nodes :: Legal(n)) && Print(nodes, e) == s
  }

  /** A format is malformed, whatever the arguments, exactly if it is not the print of a legal tree. */
  lemma MalformedExactly(s: string)
    ensures DemandHere(s).end == Bad <==> !Printed(s)
  {
    if DemandHere(s).end != Bad {
      var nodes, e := TreeReads(s);
    }
    forall nodes, e | (forall n <- nodes :: Legal(n)) && Print(nodes, e) == s
      ensures DemandHere(s).end != Bad
    {
      TreeTakes(nodes, e);
    }
  }

  /** Passes over a printed format: none fails, and each gets what the tree asks for, side by side. */
  lemma TreeReuse(nodes: seq<Node>, e: Ending, args: seq<string>)
    requires forall n <- nodes :: Legal(n)
    ensures !Failed(Passes(Print(nodes, e), args))
    ensures var format := Print(nodes, e);
            && Bounded(Doing(format), |format|)
            && SideBySide(Doing(format), |format|, Passes(format, args), args, WantsAll(nodes))
            && Counted(Passes(format, args), args, WantsAll(nodes))
  {
    var format := Print(nodes, e);
    TreeTakes(nodes, e);
    FormatReuse(format, args);
    NeverFails(format, args);
  }

  lemma NeverFails(format: string, args: seq<string>)
    requires DemandHere(format).end != Bad
    ensures !Failed(Passes(format, args))
  {
    DoingIsBounded(format);
    CostIsSteady(format);
    DoingIsPriced(format);
    EndsAlike(Doing(format), |format|, Costing(format), args);
  }
}
