/** cmd/koi-dotenv/dotenv.go: the .env dialect, as a reader of lines and the inverse of a writer. */
module Dotenv {
  import opened Options
  import opened Text
  import opened Trimming

  predicate IsBlank(c: char) {
    c == ' ' || c == '\t'
  }

  predicate IsReturn(c: char) {
    c == '\r'
  }

  // --- values ---

  /** Where the closing quote is, or -1. */
  function ClosingQuote(s: string, quote: char): (i: int)
    ensures -1 <= i < |s|
  {
    if s == "" then -1
    else if s[0] == '\\' && quote == '"' then
      if |s| == 1 then -1
      else
        var i := ClosingQuote(s[2..], quote);
        if i < 0 then -1 else i + 2
    else if s[0] == quote && s[0] != '\\' then 0
    else
      var i := ClosingQuote(s[1..], quote);
      if i < 0 then -1 else i + 1
  }

  /** What a backslash and this character stand for. */
  function Unescaped(c: char): string {
    match c
    case 'n' => "\n"
    case 'r' => "\r"
    case 't' => "\t"
    case '"' => "\""
    case '\\' => "\\"
    case _ => ['\\', c]
  }

  function Decode(s: string): string {
    if s == "" then ""
    else if s[0] != '\\' || |s| == 1 then [s[0]] + Decode(s[1..])
    else Unescaped(s[1]) + Decode(s[2..])
  }

  /** Where a trailing comment starts: a '#' after a blank, not at the start. */
  predicate CommentAt(raw: string, k: nat) {
    0 < k < |raw| && raw[k] == '#' && IsBlank(raw[k - 1])
  }

  function Uncommented(raw: string, from: nat): string
    requires from <= |raw|
    decreases |raw| - from
  {
    if from == |raw| then raw else if CommentAt(raw, from) then raw[..from] else Uncommented(raw, from + 1)
  }

  function Unquoted(raw: string): string {
    TrimSpace(Uncommented(raw, 0))
  }

  /** A quoted text's characters up to its closing quote, and how many further lines they take. */
  function Quoted(rest: string, quote: char, more: seq<string>): Option<(string, nat)>
    decreases |more|
  {
    var i := ClosingQuote(rest, quote);
    if i >= 0 then Some((rest[..i], 0))
    else if more == [] then None
    else
      Further(rest, Quoted(TrimRight(more[0], IsReturn), quote, more[1..]))
  }

  function Further(rest: string, next: Option<(string, nat)>): Option<(string, nat)> {
    match next
    case None => None
    case Some((text, used)) => Some((rest + "\n" + text, used + 1))
  }

  function ValueOf(raw: string, more: seq<string>): Option<(string, nat)> {
    if raw == "" then Some(("", 0))
    else if raw[0] != '\'' && raw[0] != '"' then Some((Unquoted(raw), 0))
    else
      match Quoted(raw[1..], raw[0], more)
      case None => None
      case Some((text, used)) => Some((if raw[0] == '\'' then text else Decode(text), used))
  }

  // --- lines ---

  predicate NameStart(c: char) {
    c == '_' || 'a' <= c <= 'z' || 'A' <= c <= 'Z'
  }

  predicate ValidName(name: string) {
    && name != "" && NameStart(name[0])
    && forall c <- name :: NameStart(c) || '0' <= c <= '9'
  }

  const EXPORT := "export"

  function WithoutExport(trimmed: string): string {
    if EXPORT < trimmed && IsBlank(trimmed[|EXPORT|]) then TrimLeft(trimmed[|EXPORT|..], IsBlank) else trimmed
  }

  /** What the first of some lines does, possibly with the next `used` ones. */
  datatype Reading = Nothing | Binding(name: string, value: string, used: nat) | Unclosed

  function Read(line: string, more: seq<string>): Reading {
    var trimmed := TrimSpace(TrimRight(line, IsReturn));
    if trimmed == "" || trimmed[0] == '#' then Nothing
    else ReadBinding(WithoutExport(trimmed), more)
  }

  function ReadBinding(text: string, more: seq<string>): Reading {
    match Cut(text, '=')
    case None => Nothing
    case Some((before, after)) =>
      var name := TrimRight(before, IsBlank);
      if !ValidName(name) then Nothing
      else
        match ValueOf(TrimLeft(after, IsBlank), more)
        case None => Unclosed
        case Some((value, used)) => Binding(name, value, used)
  }

  lemma {:induction false} QuotedInside(rest: string, quote: char, more: seq<string>)
    ensures Quoted(rest, quote, more).Some? ==> Quoted(rest, quote, more).value.1 <= |more|
    decreases |more|
  {
    if ClosingQuote(rest, quote) < 0 && more != [] {
      QuotedInside(TrimRight(more[0], IsReturn), quote, more[1..]);
    }
  }

  /** A reader of one binding, given the line it starts on and all later ones. */
  type Reader = (string, seq<string>) -> Reading

  /** It uses no lines that are not there. */
  ghost predicate Inside(read: Reader) {
    forall line, more :: read(line, more).Binding? ==> read(line, more).used <= |more|
  }

  lemma ReadInside()
    ensures Inside(Read)
  {
    forall line, more: seq<string> | Read(line, more).Binding? ensures Read(line, more).used <= |more| {
      forall rest, quote ensures Quoted(rest, quote, more).Some? ==> Quoted(rest, quote, more).value.1 <= |more| {
        QuotedInside(rest, quote, more);
      }
    }
  }

  type Vars = map<string, string>

  /** The variables, and how many lines were read before an unclosed quote stopped it. */
  datatype Parsed = Parsed(vars: Vars, lines: nat)

  function ParseLines(read: Reader, lines: seq<string>, vars: Vars): Parsed
    requires Inside(read)
    decreases |lines|
  {
    if lines == [] then Parsed(vars, 0)
    else
      match read(lines[0], lines[1..])
      case Nothing => Later(1, ParseLines(read, lines[1..], vars))
      case Unclosed => Parsed(vars, 0)
      case Binding(name, value, used) => Later(used + 1, ParseLines(read, lines[used + 1..], vars[name := value]))
  }

  function Later(n: nat, p: Parsed): Parsed {
    Parsed(p.vars, n + p.lines)
  }

  const BOM := "\U{FEFF}"

  function LinesOf(src: string): seq<string> {
    Split(if BOM <= src then src[|BOM|..] else src, '\n')
  }

  function Parse(src: string): Parsed {
    ReadInside();
    ParseLines(Read, LinesOf(src), map[])
  }

  // --- the loops ---

  method FindClosingQuote(s: string, quote: char) returns (at: int)
    ensures at == ClosingQuote(s, quote)
  {
    var j := 0;
    while j < |s|
      invariant 0 <= j <= |s| + 1
      invariant ClosingQuote(s, quote) ==
                if j > |s| || ClosingQuote(s[j..], quote) < 0 then -1 else j + ClosingQuote(s[j..], quote)
    {
      var ahead := s[j..];
      assert ahead != "" && ahead[0] == s[j] && ahead[1..] == s[j + 1..];
      if s[j] == '\\' {
        if quote == '"' {
          assert |ahead| > 1 ==> ahead[2..] == s[j + 2..];
          j := j + 1;
        }
      } else if s[j] == quote {
        return j;
      }
      j := j + 1;
    }
    return -1;
  }

  method DecodeEscapes(s: string) returns (b: string)
    ensures b == Decode(s)
  {
    b := "";
    var j := 0;
    while j < |s|
      invariant 0 <= j <= |s| && Decode(s) == b + Decode(s[j..])
    {
      var ahead := s[j..];
      assert ahead[0] == s[j] && ahead[1..] == s[j + 1..];
      if s[j] != '\\' || j + 1 >= |s| {
        Assoc(b, [s[j]], Decode(s[j + 1..]));
        b := b + [s[j]];
      } else {
        assert ahead[2..] == s[j + 2..];
        j := j + 1;
        Assoc(b, Unescaped(s[j]), Decode(s[j + 1..]));
        b := b + Unescaped(s[j]);
      }
      j := j + 1;
    }
    assert b + "" == b;
  }

  method ReadUnquoted(raw: string) returns (value: string)
    ensures value == Unquoted(raw)
  {
    var cut := raw;
    if raw == "" {
      return TrimSpace(raw);
    }
    assert Uncommented(raw, 0) == Uncommented(raw, 1);
    for j := 1 to |raw|
      invariant Uncommented(raw, 0) == Uncommented(raw, j) && cut == raw
    {
      if CommentAt(raw, j) {
        cut := raw[..j];
        break;
      }
    }
    value := TrimSpace(cut);
  }

  method ParseValue(raw: string, lines: seq<string>, first: nat) returns (value: string, endLine: nat, terminated: bool)
    requires first < |lines|
    ensures terminated == ValueOf(raw, lines[first + 1..]).Some?
    ensures terminated ==>
              ValueOf(raw, lines[first + 1..]) == Some((value, endLine - first)) && first <= endLine < |lines|
  {
    if raw == "" {
      return "", first, true;
    }
    var quote := raw[0];
    if quote != '\'' && quote != '"' {
      value := ReadUnquoted(raw);
      return value, first, true;
    }
    var text;
    text, endLine, terminated := ParseQuoted(raw[1..], quote, lines, first);
    if !terminated || quote == '\'' {
      return text, endLine, terminated;
    }
    value := DecodeEscapes(text);
  }

  method ParseQuoted(start: string, quote: char, lines: seq<string>, first: nat)
    returns (b: string, i: nat, terminated: bool)
    requires first < |lines|
    ensures terminated == Quoted(start, quote, lines[first + 1..]).Some?
    ensures terminated ==> Quoted(start, quote, lines[first + 1..]) == Some((b, i - first)) && first <= i < |lines|
  {
    var rest;
    b, rest, i := "", start, first;
    ghost var whole := Quoted(start, quote, lines[first + 1..]);
    ReachedStart(whole);
    while true
      invariant AtQuote(whole, b, rest, quote, lines, first, i)
      decreases |lines| - i
    {
      ReachedNext(whole, b, rest, quote, lines, first, i);
      var idx := FindClosingQuote(rest, quote);
      if idx >= 0 {
        return b + rest[..idx], i, true;
      }
      b := b + rest;
      if i + 1 >= |lines| {
        return "", i, false;
      }
      i := i + 1;
      b := b + "\n";
      rest := TrimRight(lines[i], IsReturn);
    }
  }

  /** b collected up to line i, rest still to be looked at. */
  ghost predicate AtQuote(whole: Option<(string, nat)>, b: string, rest: string, quote: char,
                          lines: seq<string>, first: nat, i: nat)
  {
    first <= i < |lines| && Reached(whole, b, i - first, Quoted(rest, quote, lines[i + 1..]))
  }

  lemma ReachedNext(whole: Option<(string, nat)>, b: string, rest: string, quote: char,
                    lines: seq<string>, first: nat, i: nat)
    requires AtQuote(whole, b, rest, quote, lines, first, i)
    ensures var idx := ClosingQuote(rest, quote);
            if idx >= 0 then whole == Some((b + rest[..idx], i - first))
            else if i + 1 == |lines| then whole == None
            else AtQuote(whole, b + rest + "\n", TrimRight(lines[i + 1], IsReturn), quote, lines, first, i + 1)
  {
    QuotedAt(rest, quote, lines, i);
    if ClosingQuote(rest, quote) < 0 && i + 1 < |lines| {
      ReachedFurther(whole, b, rest, i - first, Quoted(TrimRight(lines[i + 1], IsReturn), quote, lines[i + 2..]));
    }
  }

  lemma QuotedAt(rest: string, quote: char, lines: seq<string>, i: nat)
    requires i < |lines|
    ensures Quoted(rest, quote, lines[i + 1..]) ==
            if ClosingQuote(rest, quote) >= 0 then Some((rest[..ClosingQuote(rest, quote)], 0))
            else if i + 1 == |lines| then None
            else Further(rest, Quoted(TrimRight(lines[i + 1], IsReturn), quote, lines[i + 2..]))
  {
    if i + 1 < |lines| {
      assert lines[i + 1..][0] == lines[i + 1] && lines[i + 1..][1..] == lines[i + 2..];
    }
  }

  /** The whole reading, given what was collected so far and how the rest will read. */
  ghost predicate Reached(whole: Option<(string, nat)>, b: string, used: nat, ahead: Option<(string, nat)>) {
    match ahead
    case None => whole == None
    case Some((text, n)) => whole == Some((b + text, used + n))
  }

  lemma ReachedStart(whole: Option<(string, nat)>)
    ensures Reached(whole, "", 0, whole)
  {
    if whole.Some? {
      assert "" + whole.value.0 == whole.value.0;
    }
  }

  lemma ReachedFurther(whole: Option<(string, nat)>, b: string, rest: string, used: nat, next: Option<(string, nat)>)
    requires Reached(whole, b, used, Further(rest, next))
    ensures Reached(whole, b + rest + "\n", used + 1, next)
  {
    if next.Some? {
      assert b + (rest + "\n" + next.value.0) == b + rest + "\n" + next.value.0;
    }
  }

  lemma ParseAt(read: Reader, lines: seq<string>, i: nat, vars: Vars)
    requires Inside(read) && i < |lines|
    ensures match read(lines[i], lines[i + 1..])
            case Nothing => ParseLines(read, lines[i..], vars) == Later(1, ParseLines(read, lines[i + 1..], vars))
            case Unclosed => ParseLines(read, lines[i..], vars) == Parsed(vars, 0)
            case Binding(name, value, used) =>
              && i + used < |lines|
              && ParseLines(read, lines[i..], vars) ==
                 Later(used + 1, ParseLines(read, lines[i + used + 1..], vars[name := value]))
  {
    var ahead := lines[i..];
    assert ahead[0] == lines[i] && ahead[1..] == lines[i + 1..];
    var reading := read(lines[i], lines[i + 1..]);
    if reading.Binding? {
      assert ahead[reading.used + 1..] == lines[i + reading.used + 1..];
    }
  }

  /** `read` is Read; the loop below needs to know no more of it than that it is the one. */
  ghost predicate IsRead(read: Reader) {
    forall line, more {:trigger Read(line, more)} :: read(line, more) == Read(line, more)
  }

  /** What the loop does with line i. */
  method ReadLine(ghost read: Reader, lines: seq<string>, i: nat) returns (reading: Reading)
    requires i < |lines| && IsRead(read)
    ensures reading == read(lines[i], lines[i + 1..])
  {
    assert read(lines[i], lines[i + 1..]) == Read(lines[i], lines[i + 1..]);
    var line := TrimRight(lines[i], IsReturn);
    var trimmed := TrimSpace(line);
    if trimmed == "" || trimmed[0] == '#' {
      return Nothing;
    }
    var text := WithoutExport(trimmed);
    var cut := Cut(text, '=');
    if cut.None? {
      return Nothing;
    }
    var name := TrimRight(cut.value.0, IsBlank);
    if !ValidName(name) {
      return Nothing;
    }
    var value, end, terminated := ParseValue(TrimLeft(cut.value.1, IsBlank), lines, i);
    return if terminated then Binding(name, value, end - i) else Unclosed;
  }

  method ParseLoop(ghost read: Reader, lines: seq<string>) returns (out: Vars)
    requires Inside(read) && IsRead(read)
    ensures out == ParseLines(read, lines, map[]).vars
  {
    out := map[];
    var i := 0;
    ghost var whole := ParseLines(read, lines, map[]).vars;
    assert lines[0..] == lines;
    while i < |lines|
      invariant i <= |lines| && ParseLines(read, lines[i..], out).vars == whole
      decreases |lines| - i
    {
      ParseAt(read, lines, i, out);
      var reading := ReadLine(read, lines, i);
      match reading {
        case Nothing =>
        case Unclosed =>
          return;
        case Binding(name, value, used) =>
          i := i + used;
          out := out[name := value];
      }
      i := i + 1;
    }
  }

  method ParseText(src: string) returns (out: Vars)
    ensures out == Parse(src).vars
  {
    ReadInside();
    out := ParseLoop(Read, LinesOf(src));
  }

  // --- files, and parts of files ---

  /** Where no quote is left open, what follows is read on its own. */
  lemma {:induction false} ParseAppend(read: Reader, a: seq<string>, b: seq<string>, vars: Vars)
    requires Inside(read) && Local(read) && ParseLines(read, a, vars).lines == |a|
    ensures ParseLines(read, a + b, vars) == Later(|a|, ParseLines(read, b, ParseLines(read, a, vars).vars))
    decreases |a|
  {
    if a == [] {
      assert a + b == b;
    } else {
      var ab := a + b;
      assert ab[0] == a[0] && ab[1..] == a[1..] + b;
      var reading := read(a[0], a[1..]);
      assert reading != Unclosed;
      assert read(ab[0], a[1..] + b) == reading;
      match reading {
        case Nothing => ParseAppend(read, a[1..], b, vars);
        case Binding(name, value, used) =>
          assert ab[used + 1..] == a[used + 1..] + b;
          ParseAppend(read, a[used + 1..], b, vars[name := value]);
      }
    }
  }

  /** A binding that is complete does not depend on later lines. */
  ghost predicate Local(read: Reader) {
    forall line, more, later {:trigger read(line, more + later)} ::
      read(line, more) != Unclosed ==> read(line, more + later) == read(line, more)
  }

  lemma {:induction false} QuotedIsLocal(rest: string, quote: char, more: seq<string>, later: seq<string>)
    requires Quoted(rest, quote, more).Some?
    ensures Quoted(rest, quote, more + later) == Quoted(rest, quote, more)
    decreases |more|
  {
    if ClosingQuote(rest, quote) < 0 {
      var all := more + later;
      assert all[0] == more[0] && all[1..] == more[1..] + later;
      QuotedIsLocal(TrimRight(more[0], IsReturn), quote, more[1..], later);
    }
  }

  lemma ValueIsLocal(raw: string, more: seq<string>, later: seq<string>)
    requires ValueOf(raw, more).Some?
    ensures ValueOf(raw, more + later) == ValueOf(raw, more)
  {
    if raw != "" && (raw[0] == '\'' || raw[0] == '"') {
      QuotedIsLocal(raw[1..], raw[0], more, later);
    }
  }

  lemma BindingIsLocal(text: string, more: seq<string>, later: seq<string>)
    requires ReadBinding(text, more) != Unclosed
    ensures ReadBinding(text, more + later) == ReadBinding(text, more)
  {
    var cut := Cut(text, '=');
    if cut.Some? && ValidName(TrimRight(cut.value.0, IsBlank)) {
      ValueIsLocal(TrimLeft(cut.value.1, IsBlank), more, later);
    }
  }

  lemma LineIsLocal(line: string, more: seq<string>, later: seq<string>)
    requires Read(line, more) != Unclosed
    ensures Read(line, more + later) == Read(line, more)
  {
    var trimmed := TrimSpace(TrimRight(line, IsReturn));
    if trimmed != "" && trimmed[0] != '#' {
      BindingIsLocal(WithoutExport(trimmed), more, later);
    }
  }

  lemma ReadIsLocal()
    ensures Local(Read)
  {
    forall line, more, later | Read(line, more) != Unclosed
      ensures Read(line, more + later) == Read(line, more)
    {
      LineIsLocal(line, more, later);
    }
  }

  /** Cutting a file where no quote is open: the parts are read one after the other. */
  lemma FilesAppend(a: seq<string>, b: seq<string>, vars: Vars)
    ensures Inside(Read)
    ensures ParseLines(Read, a, vars).lines == |a| ==>
              ParseLines(Read, a + b, vars) == Later(|a|, ParseLines(Read, b, ParseLines(Read, a, vars).vars))
  {
    ReadInside();
    ReadIsLocal();
    if ParseLines(Read, a, vars).lines == |a| {
      ParseAppend(Read, a, b, vars);
    }
  }

  /** A complete binding needs only the lines it uses. */
  ghost predicate Cuttable(read: Reader) {
    forall line, more, n: nat {:trigger read(line, more[..n])} ::
      n <= |more| && (read(line, more) == Nothing || (read(line, more).Binding? && read(line, more).used <= n)) ==>
        read(line, more[..n]) == read(line, more)
  }

  lemma {:induction false} QuotedIsCuttable(rest: string, quote: char, more: seq<string>, n: nat)
    requires n <= |more| && Quoted(rest, quote, more).Some? && Quoted(rest, quote, more).value.1 <= n
    ensures Quoted(rest, quote, more[..n]) == Quoted(rest, quote, more)
    decreases |more|
  {
    if ClosingQuote(rest, quote) < 0 {
      assert more[..n][0] == more[0] && more[..n][1..] == more[1..][..n - 1];
      QuotedIsCuttable(TrimRight(more[0], IsReturn), quote, more[1..], n - 1);
    }
  }

  lemma ValueIsCuttable(raw: string, more: seq<string>, n: nat)
    requires n <= |more| && ValueOf(raw, more).Some? && ValueOf(raw, more).value.1 <= n
    ensures ValueOf(raw, more[..n]) == ValueOf(raw, more)
  {
    if raw != "" && (raw[0] == '\'' || raw[0] == '"') {
      QuotedIsCuttable(raw[1..], raw[0], more, n);
    }
  }

  lemma BindingIsCuttable(text: string, more: seq<string>, n: nat)
    requires n <= |more| && ReadBinding(text, more) != Unclosed
    requires ReadBinding(text, more).Binding? ==> ReadBinding(text, more).used <= n
    ensures ReadBinding(text, more[..n]) == ReadBinding(text, more)
  {
    var cut := Cut(text, '=');
    if cut.Some? && ValidName(TrimRight(cut.value.0, IsBlank)) {
      ValueIsCuttable(TrimLeft(cut.value.1, IsBlank), more, n);
    }
  }

  lemma LineIsCuttable(line: string, more: seq<string>, n: nat)
    requires n <= |more| && Read(line, more) != Unclosed
    requires Read(line, more).Binding? ==> Read(line, more).used <= n
    ensures Read(line, more[..n]) == Read(line, more)
  {
    var trimmed := TrimSpace(TrimRight(line, IsReturn));
    if trimmed != "" && trimmed[0] != '#' {
      BindingIsCuttable(WithoutExport(trimmed), more, n);
    }
  }

  lemma ReadIsCuttable()
    ensures Cuttable(Read)
  {
    forall line, more: seq<string>, n: nat
      | n <= |more| && (Read(line, more) == Nothing || (Read(line, more).Binding? && Read(line, more).used <= n))
      ensures Read(line, more[..n]) == Read(line, more)
    {
      LineIsCuttable(line, more, n);
    }
  }

  /** A first reading that takes used + 1 lines, and the rest cut where it stops. */
  lemma CutLater(read: Reader, lines: seq<string>, used: nat, stop: nat)
    requires Cuttable(read) && used < |lines| && stop <= |lines| - used - 1
    requires read(lines[0], lines[1..]) == Nothing ||
             (read(lines[0], lines[1..]).Binding? && read(lines[0], lines[1..]).used <= used)
    ensures var cut := lines[..used + 1 + stop];
            && cut[0] == lines[0] && read(cut[0], cut[1..]) == read(lines[0], lines[1..])
            && cut[used + 1..] == lines[used + 1..][..stop]
  {
    var cut := lines[..used + 1 + stop];
    assert cut[1..] == lines[1..][..used + stop];
  }

  /** Reading stops at the end, or at a line with an unclosed quote, as if the file ended there. */
  ghost predicate Stops(read: Reader, lines: seq<string>, vars: Vars)
    requires Inside(read)
  {
    var i := ParseLines(read, lines, vars).lines;
    && i <= |lines|
    && ParseLines(read, lines[..i], vars) == ParseLines(read, lines, vars)
    && (i < |lines| ==> read(lines[i], lines[i + 1..]) == Unclosed)
  }

  predicate Takes(reading: Reading, used: nat, vars: Vars, next: Vars) {
    match reading
    case Unclosed => false
    case Nothing => used == 0 && next == vars
    case Binding(name, value, n) => used == n && next == vars[name := value]
  }

  lemma ParseFirst(read: Reader, lines: seq<string>, used: nat, vars: Vars, next: Vars)
    requires Inside(read) && used < |lines| && Takes(read(lines[0], lines[1..]), used, vars, next)
    ensures ParseLines(read, lines, vars) == Later(used + 1, ParseLines(read, lines[used + 1..], next))
  {
  }

  lemma StopsFurther(read: Reader, lines: seq<string>, used: nat, vars: Vars, next: Vars)
    requires Inside(read) && Cuttable(read) && used < |lines|
    requires Takes(read(lines[0], lines[1..]), used, vars, next)
    requires Stops(read, lines[used + 1..], next)
    ensures Stops(read, lines, vars)
  {
    var rest := lines[used + 1..];
    var stop := ParseLines(read, rest, next).lines;
    CutLater(read, lines, used, stop);
    ParseFirst(read, lines, used, vars, next);
    ParseFirst(read, lines[..used + 1 + stop], used, vars, next);
    if stop < |rest| {
      assert rest[stop + 1..] == lines[used + 1 + stop + 1..];
    }
  }

  /** An unclosed quote on line i gives exactly the parse of the lines before i. */
  lemma {:induction false} StopsBeforeOpenQuote(read: Reader, lines: seq<string>, vars: Vars)
    requires Inside(read) && Cuttable(read)
    ensures Stops(read, lines, vars)
    decreases |lines|
  {
    if lines != [] {
      match read(lines[0], lines[1..]) {
        case Unclosed =>
          assert lines[..0] == [];
        case Nothing =>
          StopsBeforeOpenQuote(read, lines[1..], vars);
          StopsFurther(read, lines, 0, vars, vars);
        case Binding(name, value, used) =>
          StopsBeforeOpenQuote(read, lines[used + 1..], vars[name := value]);
          StopsFurther(read, lines, used, vars, vars[name := value]);
      }
    }
  }

  /** The same for a whole file. */
  lemma UnclosedQuoteCutsTheFile(src: string)
    ensures var lines := LinesOf(src);
            var i := Parse(src).lines;
            && i <= |lines| && Inside(Read)
            && ParseLines(Read, lines[..i], map[]) == Parse(src)
            && (i < |lines| ==> Read(lines[i], lines[i + 1..]) == Unclosed)
  {
    ReadInside();
    ReadIsCuttable();
    StopsBeforeOpenQuote(Read, LinesOf(src), map[]);
  }

  // --- the writer ---

  /** A character of a double-quoted value, written as itself or as an escape. */
  datatype Piece = Raw(c: char) | Escaped(c: char)

  /** The letter of each of the five escapes. */
  function Letter(c: char): char {
    match c
    case '\n' => 'n'
    case '\r' => 'r'
    case '\t' => 't'
    case _ => c
  }

  predicate LegalPiece(p: Piece) {
    match p
    case Raw(c) => c != '"' && c != '\\'
    case Escaped(c) => c == '\n' || c == '\r' || c == '\t' || c == '"' || c == '\\'
  }

  predicate Legal(ps: seq<Piece>) {
    forall p <- ps :: LegalPiece(p)
  }

  function Written(p: Piece): string {
    match p
    case Raw(c) => [c]
    case Escaped(c) => ['\\', Letter(c)]
  }

  function Spelled(ps: seq<Piece>): string {
    if ps == [] then "" else Written(ps[0]) + Spelled(ps[1..])
  }

  function Chars(ps: seq<Piece>): string {
    if ps == [] then "" else [ps[0].c] + Chars(ps[1..])
  }

  /** A piece in front of more text is read as one. */
  lemma PieceAhead(p: Piece, rest: string)
    requires LegalPiece(p)
    ensures Decode(Written(p) + rest) == [p.c] + Decode(rest)
    ensures var i, j := ClosingQuote(rest, '"'), ClosingQuote(Written(p) + rest, '"');
            if i < 0 then j < 0 else j == |Written(p)| + i
  {
    var s := Written(p) + rest;
    if p.Raw? {
      assert s[0] == p.c && s[1..] == rest;
    } else {
      assert s[0] == '\\' && s[1] == Letter(p.c) && s[2..] == rest;
    }
  }

  lemma {:induction false} DecodeText(ps: seq<Piece>)
    requires Legal(ps)
    ensures Decode(Spelled(ps)) == Chars(ps)
  {
    if ps != [] {
      DecodeText(ps[1..]);
      assert LegalPiece(ps[0]);
      PieceAhead(ps[0], Spelled(ps[1..]));
    }
  }

  /** A written text never closes its quote, and the quote after it does. */
  lemma {:induction false} TextStaysOpen(ps: seq<Piece>, after: string)
    requires Legal(ps)
    ensures ClosingQuote(Spelled(ps), '"') < 0
    ensures ClosingQuote(Spelled(ps) + (['"'] + after), '"') == |Spelled(ps)|
  {
    var tail := ['"'] + after;
    if ps == [] {
      assert "" + tail == tail && tail[0] == '"';
    } else {
      TextStaysOpen(ps[1..], after);
      assert LegalPiece(ps[0]);
      PieceAhead(ps[0], Spelled(ps[1..]));
      PieceAhead(ps[0], Spelled(ps[1..]) + tail);
      Assoc(Written(ps[0]), Spelled(ps[1..]), tail);
    }
  }

  lemma {:induction false} TextAppend(a: seq<Piece>, b: seq<Piece>)
    ensures Spelled(a + b) == Spelled(a) + Spelled(b) && Chars(a + b) == Chars(a) + Chars(b)
  {
    if a == [] {
      assert a + b == b;
    } else {
      TextAppend(a[1..], b);
      assert (a + b)[1..] == a[1..] + b;
      Assoc(Written(a[0]), Spelled(a[1..]), Spelled(b));
      Assoc([a[0].c], Chars(a[1..]), Chars(b));
    }
  }

  // --- what trimming takes from a written line ---

  /** Without its trailing raw characters of a kind. */
  function Kept(ps: seq<Piece>, out: char -> bool): seq<Piece> {
    if ps != [] && ps[|ps| - 1].Raw? && out(ps[|ps| - 1].c) then Kept(ps[..|ps| - 1], out) else ps
  }

  /** The kinds of whitespace that are trimmed do not end an escape. */
  ghost predicate SparesEscapes(out: char -> bool) {
    !out('n') && !out('r') && !out('t') && !out('"') && !out('\\')
  }

  lemma {:induction false} TrimText(head: string, ps: seq<Piece>, out: char -> bool)
    requires Legal(ps) && SparesEscapes(out) && (head == "" || !out(head[|head| - 1]))
    ensures TrimRight(head + Spelled(ps), out) == head + Spelled(Kept(ps, out))
    decreases |ps|
  {
    if ps == [] {
      assert head + Spelled(ps) == head;
    } else {
      var most, last := ps[..|ps| - 1], ps[|ps| - 1];
      assert ps == most + [last] && [last][1..] == [];
      TextAppend(most, [last]);
      assert Spelled([last]) == Written(last);
      var line := head + Spelled(ps);
      assert line == head + Spelled(most) + Written(last);
      if last.Raw? && out(last.c) {
        assert line[..|line| - 1] == head + Spelled(most);
        TrimText(head, most, out);
      } else {
        assert LegalPiece(last) && line[|line| - 1] == Written(last)[|Written(last)| - 1];
      }
    }
  }

  lemma {:induction false} KeptIsPrefix(ps: seq<Piece>, out: char -> bool)
    ensures Kept(ps, out) <= ps && (Legal(ps) ==> Legal(Kept(ps, out)))
    ensures |Chars(Kept(ps, out))| == |Kept(ps, out)| && |Chars(ps)| == |ps|
    ensures Kept(ps, out) == ps <==> (ps == [] || !ps[|ps| - 1].Raw? || !out(ps[|ps| - 1].c))
    decreases |ps|
  {
    CharsLength(ps);
    CharsLength(Kept(ps, out));
    if ps != [] && ps[|ps| - 1].Raw? && out(ps[|ps| - 1].c) {
      KeptIsPrefix(ps[..|ps| - 1], out);
    }
  }

  lemma {:induction false} CharsLength(ps: seq<Piece>)
    ensures |Chars(ps)| == |ps|
  {
    if ps != [] { CharsLength(ps[1..]); }
  }

  // --- bindings as written ---

  /** One binding: the lines of its value as they are in the file, with a raw newline between them. */
  datatype Entry = Entry(exported: bool, name: string, value: seq<seq<Piece>>)

  predicate LegalLine(ps: seq<Piece>) {
    Legal(ps) && forall p <- ps :: p != Raw('\n')
  }

  predicate LegalEntry(e: Entry) {
    ValidName(e.name) && |e.value| >= 1 && forall ps <- e.value :: LegalLine(ps)
  }

  function Head(e: Entry): string {
    (if e.exported then EXPORT + " " else "") + (e.name + "=\"")
  }

  /** The closing quote, on the last line only. */
  function Close(last: bool): string {
    if last then "\"" else ""
  }

  /** The lines after the first; the last has the closing quote. */
  function LaterLines(vs: seq<seq<Piece>>): seq<string> {
    if vs == [] then []
    else [Spelled(vs[0]) + Close(|vs| == 1)] + LaterLines(vs[1..])
  }

  function EntryLines(e: Entry): seq<string>
    requires |e.value| >= 1
  {
    [Head(e) + (Spelled(e.value[0]) + Close(|e.value| == 1))] + LaterLines(e.value[1..])
  }

  function Flat(vs: seq<seq<Piece>>): seq<Piece> {
    if vs == [] then [] else if |vs| == 1 then vs[0] else vs[0] + [Raw('\n')] + Flat(vs[1..])
  }

  /** The value that was written. */
  function Meant(e: Entry): string {
    Chars(Flat(e.value))
  }

  function KeptLater(vs: seq<seq<Piece>>): seq<seq<Piece>> {
    if vs == [] then []
    else [if |vs| == 1 then vs[0] else Kept(vs[0], IsReturn)] + KeptLater(vs[1..])
  }

  /** What the reader sees of a value: no line but the last has its trailing whitespace. */
  function KeptValue(vs: seq<seq<Piece>>): seq<seq<Piece>>
    requires |vs| >= 1
  {
    [if |vs| == 1 then vs[0] else Kept(vs[0], IsSpace)] + KeptLater(vs[1..])
  }

  function Seen(e: Entry): string
    requires |e.value| >= 1
  {
    Chars(Flat(KeptValue(e.value)))
  }

  lemma FlatCons(v: seq<Piece>, vs: seq<seq<Piece>>)
    requires vs != []
    ensures Flat([v] + vs) == v + [Raw('\n')] + Flat(vs)
  {
    assert ([v] + vs)[1..] == vs;
  }

  lemma SpelledFlat(v: seq<Piece>, vs: seq<seq<Piece>>)
    requires vs != []
    ensures Spelled(Flat([v] + vs)) == Spelled(v) + "\n" + Spelled(Flat(vs))
  {
    FlatCons(v, vs);
    var newline := [Raw('\n')];
    TextAppend(v + newline, Flat(vs));
    TextAppend(v, newline);
    assert newline[1..] == [];
  }

  lemma TrimLater(vs: seq<seq<Piece>>)
    requires vs != [] && Legal(vs[0])
    ensures TrimRight(LaterLines(vs)[0], IsReturn) == Spelled(KeptLater(vs)[0]) + Close(|vs| == 1)
  {
    if |vs| == 1 {
      LastStays(LaterLines(vs)[0], IsReturn);
    } else {
      TrimText("", vs[0], IsReturn);
      assert "" + Spelled(vs[0]) == Spelled(vs[0]) + "";
      assert "" + Spelled(Kept(vs[0], IsReturn)) == Spelled(Kept(vs[0], IsReturn)) + "";
    }
  }

  lemma QuotedLast(v: seq<Piece>, later: seq<string>)
    requires Legal(v)
    ensures Quoted(Spelled(v) + Close(true), '"', later) == Some((Spelled(v), 0))
  {
    TextStaysOpen(v, "");
    assert ['"'] + "" == "\"";
    assert (Spelled(v) + "\"")[..|Spelled(v)|] == Spelled(v);
  }

  lemma QuotedFurther(rest: string, quote: char, more: seq<string>, next: string, text: string, used: nat)
    requires ClosingQuote(rest, quote) < 0 && more != [] && TrimRight(more[0], IsReturn) == next
    requires Quoted(next, quote, more[1..]) == Some((text, used))
    ensures Quoted(rest, quote, more) == Some((rest + "\n" + text, used + 1))
  {
  }

  lemma NextLine(v: seq<Piece>, vs: seq<seq<Piece>>, later: seq<string>)
    requires vs != [] && Legal(v) && Legal(vs[0])
    ensures var more := LaterLines(vs) + later;
            && Spelled(v) + Close(false) == Spelled(v) && ClosingQuote(Spelled(v), '"') < 0
            && more != [] && more[1..] == LaterLines(vs[1..]) + later
            && TrimRight(more[0], IsReturn) == Spelled(KeptLater(vs)[0]) + Close(|vs| == 1)
  {
    TextStaysOpen(v, "");
    assert Spelled(v) + "" == Spelled(v);
    TrimLater(vs);
    LaterAppend(vs, later);
  }

  lemma QuotedNext(v: seq<Piece>, vs: seq<seq<Piece>>, later: seq<string>, text: string)
    requires vs != [] && Legal(v) && Legal(vs[0])
    requires Quoted(Spelled(KeptLater(vs)[0]) + Close(|vs| == 1), '"', LaterLines(vs[1..]) + later) ==
             Some((text, |vs| - 1))
    ensures Quoted(Spelled(v) + Close(false), '"', LaterLines(vs) + later) == Some((Spelled(v) + "\n" + text, |vs|))
  {
    NextLine(v, vs, later);
    QuotedFurther(Spelled(v), '"', LaterLines(vs) + later,
                  Spelled(KeptLater(vs)[0]) + Close(|vs| == 1), text, |vs| - 1);
  }

  lemma LaterAppend(vs: seq<seq<Piece>>, later: seq<string>)
    requires vs != []
    ensures var more := LaterLines(vs) + later;
            more[0] == LaterLines(vs)[0] && more[1..] == LaterLines(vs[1..]) + later
  {
  }

  lemma KeptLaterIs(vs: seq<seq<Piece>>)
    requires vs != [] && Legal(vs[0])
    ensures KeptLater(vs) == [KeptLater(vs)[0]] + KeptLater(vs[1..]) && Legal(KeptLater(vs)[0])
  {
    KeptIsPrefix(vs[0], IsReturn);
  }

  /** A quoted value is read up to its own last line. */
  lemma {:induction false} QuotedEntry(v: seq<Piece>, vs: seq<seq<Piece>>, later: seq<string>)
    requires Legal(v) && forall ps <- vs :: Legal(ps)
    ensures Quoted(Spelled(v) + Close(vs == []), '"', LaterLines(vs) + later) ==
            Some((Spelled(Flat([v] + KeptLater(vs))), |vs|))
    decreases |vs|
  {
    if vs == [] {
      QuotedLast(v, later);
      assert LaterLines(vs) + later == later && [v] + KeptLater(vs) == [v];
    } else {
      KeptLaterIs(vs);
      var next := KeptLater(vs)[0];
      QuotedEntry(next, vs[1..], later);
      QuotedNext(v, vs, later, Spelled(Flat(KeptLater(vs))));
      SpelledFlat(v, KeptLater(vs));
    }
  }

  // --- the first line ---

  predicate NameChar(c: char) {
    NameStart(c) || '0' <= c <= '9'
  }

  /** An export prefix is taken off once, and nothing is mistaken for it. */
  lemma ExportComesOff(name: string, after: string)
    requires ValidName(name)
    ensures WithoutExport(EXPORT + " " + (name + (['='] + after))) == name + (['='] + after)
    ensures WithoutExport(name + (['='] + after)) == name + (['='] + after)
  {
    var text := name + (['='] + after);
    var full := EXPORT + " " + text;
    assert full[..|EXPORT|] == EXPORT && full[|EXPORT|..] == " " + text && (" " + text)[1..] == text;
    assert text[0] == name[0] && NameStart(name[0]);
    assert TrimLeft(" " + text, IsBlank) == TrimLeft(text, IsBlank) == text;
    if EXPORT < text {
      NameIsLonger(name, after);
    }
  }

  lemma PrefixHas(p: string, s: string, i: nat)
    requires p <= s && i < |s|
    ensures i < |p| ==> s[i] in p
  {
  }

  lemma NameIsLonger(name: string, after: string)
    requires ValidName(name) && EXPORT < name + (['='] + after)
    ensures !IsBlank((name + (['='] + after))[|EXPORT|])
  {
    var text := name + (['='] + after);
    PrefixHas(EXPORT, text, |name|);
    assert text[|name|] == '=' && '=' !in EXPORT;
    assert |EXPORT| < |name| ==> text[|EXPORT|] in name;
    assert |EXPORT| == |name| ==> text[|EXPORT|] == '=';
  }

  lemma NameUntrimmed(name: string)
    requires ValidName(name)
    ensures TrimRight(name, IsBlank) == name
  {
    assert NameChar(name[|name| - 1]) by { assert name[|name| - 1] in name; }
  }

  /** Once trimmed, the first line is a name, an equals sign and a quote. */
  lemma ReadTrimmed(e: Entry, quoted: string, more: seq<string>)
    requires ValidName(e.name)
    ensures ReadBinding(WithoutExport(Head(e) + quoted), more) ==
            match Quoted(quoted, '"', more)
            case None => Unclosed
            case Some((text, used)) => Binding(e.name, Decode(text), used)
  {
    HeadText(e, quoted);
    ReadQuoted(e.name, quoted, more);
  }

  lemma HeadText(e: Entry, quoted: string)
    requires ValidName(e.name)
    ensures WithoutExport(Head(e) + quoted) == e.name + (['='] + ("\"" + quoted))
  {
    var text := e.name + (['='] + ("\"" + quoted));
    ExportComesOff(e.name, "\"" + quoted);
    assert Head(e) + quoted == if e.exported then EXPORT + " " + text else text;
  }

  lemma ReadQuoted(name: string, quoted: string, more: seq<string>)
    requires ValidName(name)
    ensures ReadBinding(name + (['='] + ("\"" + quoted)), more) ==
            match Quoted(quoted, '"', more)
            case None => Unclosed
            case Some((text, used)) => Binding(name, Decode(text), used)
  {
    var after := "\"" + quoted;
    assert forall c <- name :: NameChar(c);
    CutFirst(name, '=', after);
    NameUntrimmed(name);
    assert TrimLeft(after, IsBlank) == after && after[1..] == quoted;
  }

  lemma HeadShape(e: Entry)
    requires ValidName(e.name)
    ensures Head(e) != "" && !IsSpace(Head(e)[0]) && Head(e)[0] != '#' && Head(e)[|Head(e)| - 1] == '"'
    ensures Head(e)[0] != '\U{FEFF}'
  {
  }

  /** Trimming the first line takes the trailing whitespace of its text, if the quote is not there. */
  lemma TrimFirst(e: Entry)
    requires LegalEntry(e)
    ensures TrimSpace(TrimRight(EntryLines(e)[0], IsReturn)) ==
            Head(e) + (Spelled(KeptValue(e.value)[0]) + Close(|e.value| == 1))
  {
    HeadShape(e);
    var v, single := e.value[0], |e.value| == 1;
    var line := Head(e) + (Spelled(v) + Close(single));
    TrimTwice(line, IsReturn, IsSpace);
    if single {
      LastStays(line, IsSpace);
    } else {
      assert LegalLine(v);
      TrimText(Head(e), v, IsSpace);
      assert Spelled(v) + "" == Spelled(v);
      assert Spelled(Kept(v, IsSpace)) + "" == Spelled(Kept(v, IsSpace));
    }
  }

  lemma KeptFirst(e: Entry)
    requires LegalEntry(e)
    ensures Legal(KeptValue(e.value)[0]) && forall ps <- e.value[1..] :: Legal(ps)
    ensures KeptValue(e.value) == [KeptValue(e.value)[0]] + KeptLater(e.value[1..])
  {
    assert LegalLine(e.value[0]);
    KeptIsPrefix(e.value[0], IsSpace);
    forall ps | ps in e.value[1..] ensures Legal(ps) {
      assert ps in e.value;
    }
  }

  lemma {:induction false} LegalFlat(vs: seq<seq<Piece>>)
    requires forall ps <- vs :: Legal(ps)
    ensures Legal(Flat(vs))
  {
    if vs != [] {
      assert Legal(vs[0]);
      LegalFlat(vs[1..]);
    }
  }

  lemma {:induction false} LegalLater(vs: seq<seq<Piece>>)
    requires forall ps <- vs :: Legal(ps)
    ensures forall ps <- KeptLater(vs) :: Legal(ps)
  {
    if vs != [] {
      KeptIsPrefix(vs[0], IsReturn);
      LegalLater(vs[1..]);
    }
  }

  lemma QuotedWhole(e: Entry, later: seq<string>)
    requires LegalEntry(e)
    ensures Quoted(Spelled(KeptValue(e.value)[0]) + Close(|e.value| == 1), '"', LaterLines(e.value[1..]) + later) ==
            Some((Spelled(Flat(KeptValue(e.value))), |e.value| - 1))
  {
    KeptFirst(e);
    QuotedEntry(KeptValue(e.value)[0], e.value[1..], later);
  }

  lemma EntryTail(e: Entry)
    requires |e.value| >= 1
    ensures EntryLines(e)[1..] == LaterLines(e.value[1..])
  {
  }

  /** A written binding is read as what is left of it. */
  lemma ReadEntry(e: Entry, later: seq<string>)
    requires LegalEntry(e)
    ensures Read(EntryLines(e)[0], EntryLines(e)[1..] + later) == Binding(e.name, Seen(e), |e.value| - 1)
  {
    TrimFirst(e);
    QuotedWhole(e, later);
    DecodeSeen(e);
    EntryTail(e);
    ReadFirst(e, Spelled(KeptValue(e.value)[0]) + Close(|e.value| == 1), Spelled(Flat(KeptValue(e.value))),
              LaterLines(e.value[1..]) + later);
  }

  lemma DecodeSeen(e: Entry)
    requires LegalEntry(e)
    ensures Decode(Spelled(Flat(KeptValue(e.value)))) == Seen(e)
  {
    KeptFirst(e);
    LegalLater(e.value[1..]);
    LegalFlat(KeptValue(e.value));
    DecodeText(Flat(KeptValue(e.value)));
  }

  lemma ReadFirst(e: Entry, quoted: string, text: string, more: seq<string>)
    requires LegalEntry(e) && TrimSpace(TrimRight(EntryLines(e)[0], IsReturn)) == Head(e) + quoted
    requires Quoted(quoted, '"', more) == Some((text, |e.value| - 1))
    ensures Read(EntryLines(e)[0], more) == Binding(e.name, Decode(text), |e.value| - 1)
  {
    HeadShape(e);
    ReadTrimmed(e, quoted, more);
  }

  // --- whole files ---

  predicate LegalFile(es: seq<Entry>) {
    forall e <- es :: LegalEntry(e)
  }

  function FileLines(es: seq<Entry>): seq<string>
    requires LegalFile(es)
  {
    if es == [] then []
    else
      assert LegalEntry(es[0]);
      EntryLines(es[0]) + FileLines(es[1..])
  }

  /** The file: every line ended by a newline. */
  function FileText(es: seq<Entry>): string
    requires LegalFile(es)
  {
    Join(FileLines(es) + [""], '\n')
  }

  /** Assigning in order, a later duplicate over an earlier one. */
  function Assigned(es: seq<Entry>, vars: Vars): Vars
    requires LegalFile(es)
  {
    if es == [] then vars
    else
      assert LegalEntry(es[0]);
      Assigned(es[1..], vars[es[0].name := Seen(es[0])])
  }

  lemma {:induction false} LaterLinesLength(vs: seq<seq<Piece>>)
    ensures |LaterLines(vs)| == |vs|
  {
    if vs != [] { LaterLinesLength(vs[1..]); }
  }

  /** What the reader does with written bindings, and nothing else of it. */
  ghost predicate ReadsEntries(read: Reader) {
    && (forall e: Entry, later {:trigger read(EntryLines(e)[0], EntryLines(e)[1..] + later)} ::
          LegalEntry(e) ==>
            read(EntryLines(e)[0], EntryLines(e)[1..] + later) == Binding(e.name, Seen(e), |e.value| - 1))
    && read("", []) == Nothing
  }

  lemma ReadReadsEntries()
    ensures ReadsEntries(Read)
  {
    forall e: Entry, later | LegalEntry(e)
      ensures Read(EntryLines(e)[0], EntryLines(e)[1..] + later) == Binding(e.name, Seen(e), |e.value| - 1)
    {
      ReadEntry(e, later);
    }
  }

  lemma ParseEntry(read: Reader, e: Entry, later: seq<string>, vars: Vars)
    requires Inside(read) && ReadsEntries(read) && LegalEntry(e)
    ensures ParseLines(read, EntryLines(e) + later, vars) ==
            Later(|EntryLines(e)|, ParseLines(read, later, vars[e.name := Seen(e)]))
  {
    LaterLinesLength(e.value[1..]);
    ParseBlock(read, EntryLines(e), later, e.name, Seen(e), vars);
  }

  lemma ParseBlock(read: Reader, block: seq<string>, later: seq<string>, name: string, value: string, vars: Vars)
    requires Inside(read) && |block| >= 1 && read(block[0], block[1..] + later) == Binding(name, value, |block| - 1)
    ensures ParseLines(read, block + later, vars) ==
            Later(|block|, ParseLines(read, later, vars[name := value]))
  {
    var lines := block + later;
    assert lines[0] == block[0] && lines[1..] == block[1..] + later && lines[|block|..] == later;
    ParseFirst(read, lines, |block| - 1, vars, vars[name := value]);
  }

  lemma {:induction false} ParseEntries(read: Reader, es: seq<Entry>, vars: Vars)
    requires Inside(read) && ReadsEntries(read) && LegalFile(es)
    ensures ParseLines(read, FileLines(es) + [""], vars) == Parsed(Assigned(es, vars), |FileLines(es)| + 1)
    decreases |es|
  {
    if es == [] {
      assert FileLines(es) + [""] == [""] && [""][1..] == [];
    } else {
      assert LegalEntry(es[0]);
      var later := FileLines(es[1..]) + [""];
      ParseEntries(read, es[1..], vars[es[0].name := Seen(es[0])]);
      ParseEntry(read, es[0], later, vars);
      Assoc(EntryLines(es[0]), FileLines(es[1..]), [""]);
    }
  }

  lemma {:induction false} SpelledIsOneLine(ps: seq<Piece>)
    requires LegalLine(ps)
    ensures '\n' !in Spelled(ps)
  {
    if ps != [] {
      assert ps[0] in ps && LegalPiece(ps[0]) && forall p <- ps[1..] :: p in ps;
      SpelledIsOneLine(ps[1..]);
    }
  }

  lemma {:induction false} LaterAreLines(vs: seq<seq<Piece>>)
    requires forall ps <- vs :: LegalLine(ps)
    ensures forall l <- LaterLines(vs) :: '\n' !in l
  {
    if vs != [] {
      SpelledIsOneLine(vs[0]);
      LaterAreLines(vs[1..]);
    }
  }

  lemma EntryIsLines(e: Entry)
    requires LegalEntry(e)
    ensures forall l <- EntryLines(e) :: '\n' !in l
  {
    SpelledIsOneLine(e.value[0]);
    LaterAreLines(e.value[1..]);
    assert '\n' !in Head(e) by {
      assert forall c <- e.name :: NameChar(c);
    }
  }

  lemma {:induction false} FileIsLines(es: seq<Entry>)
    requires LegalFile(es)
    ensures forall l <- FileLines(es) :: '\n' !in l
  {
    if es != [] {
      EntryIsLines(es[0]);
      FileIsLines(es[1..]);
    }
  }

  lemma FileHasNoMark(es: seq<Entry>)
    requires LegalFile(es)
    ensures !(BOM <= FileText(es))
  {
    if es != [] {
      assert LegalEntry(es[0]);
      HeadShape(es[0]);
      var lines := FileLines(es) + [""];
      assert lines[0] == EntryLines(es[0])[0] && lines[0][0] == Head(es[0])[0];
      assert FileText(es)[0] == lines[0][0];
    }
  }

  /** A written file is read, to its end, as its bindings in order; with or without a byte order mark. */
  lemma ParseWritten(es: seq<Entry>)
    requires LegalFile(es)
    ensures Parse(FileText(es)).vars == Parse(BOM + FileText(es)).vars == Assigned(es, map[])
  {
    FileIsLines(es);
    SplitJoin(FileLines(es) + [""], '\n');
    FileHasNoMark(es);
    assert (BOM + FileText(es))[|BOM|..] == FileText(es);
    ReadInside();
    ReadReadsEntries();
    ParseEntries(Read, es, map[]);
  }

  /** The last binding of a name, if it has one. */
  function LastOf(es: seq<Entry>, name: string): Option<Entry> {
    if es == [] then None
    else if es[|es| - 1].name == name then Some(es[|es| - 1])
    else LastOf(es[..|es| - 1], name)
  }

  lemma {:induction false} AssignedLast(es: seq<Entry>, e: Entry, vars: Vars)
    requires LegalFile(es) && LegalEntry(e)
    ensures LegalFile(es + [e]) && Assigned(es + [e], vars) == Assigned(es, vars)[e.name := Seen(e)]
  {
    var all := es + [e];
    assert LegalFile(all);
    if es == [] {
      assert all[0] == e && all[1..] == [];
    } else {
      assert all[0] == es[0] && all[1..] == es[1..] + [e];
      assert LegalEntry(es[0]);
      AssignedLast(es[1..], e, vars[es[0].name := Seen(es[0])]);
    }
  }

  lemma {:induction false} AssignedHasLast(es: seq<Entry>, name: string)
    requires LegalFile(es)
    ensures LastOf(es, name).Some? ==> LastOf(es, name).value in es
    ensures name in Assigned(es, map[]) <==> LastOf(es, name).Some?
    ensures LastOf(es, name).Some? ==>
              var last := LastOf(es, name).value; LegalEntry(last) && Assigned(es, map[])[name] == Seen(last)
  {
    if es != [] {
      var most, last := es[..|es| - 1], es[|es| - 1];
      assert es == most + [last] && LegalEntry(last);
      AssignedLast(most, last, map[]);
      AssignedHasLast(most, name);
    }
  }

  // --- which values come back ---

  /** No trailing whitespace on the first of several lines, and no carriage return before a later break. */
  predicate Intact(vs: seq<seq<Piece>>) {
    |vs| > 1 ==> !EndsIn(vs[0], IsSpace) && forall k :: 1 <= k < |vs| - 1 ==> !EndsIn(vs[k], IsReturn)
  }

  predicate EndsIn(ps: seq<Piece>, out: char -> bool) {
    ps != [] && ps[|ps| - 1].Raw? && out(ps[|ps| - 1].c)
  }

  lemma KeptIsSame(ps: seq<Piece>, out: char -> bool)
    ensures |Kept(ps, out)| <= |ps|
    ensures EndsIn(ps, out) <==> |Kept(ps, out)| < |ps|
    ensures !EndsIn(ps, out) ==> Kept(ps, out) == ps
  {
    KeptIsPrefix(ps, out);
  }

  predicate IntactLater(vs: seq<seq<Piece>>) {
    forall k :: 0 <= k < |vs| - 1 ==> !EndsIn(vs[k], IsReturn)
  }

  lemma {:induction false} LaterComesBack(vs: seq<seq<Piece>>)
    ensures |KeptLater(vs)| == |vs| && |Flat(KeptLater(vs))| <= |Flat(vs)|
    ensures IntactLater(vs) ==> KeptLater(vs) == vs
    ensures !IntactLater(vs) ==> |Flat(KeptLater(vs))| < |Flat(vs)|
  {
    if |vs| > 1 {
      LaterComesBack(vs[1..]);
      KeptIsSame(vs[0], IsReturn);
      assert IntactLater(vs) <==> !EndsIn(vs[0], IsReturn) && IntactLater(vs[1..]) by {
        assert forall k :: 1 <= k < |vs| - 1 ==> vs[k] == vs[1..][k - 1];
      }
      FlatCons(vs[0], vs[1..]);
      FlatCons(KeptLater(vs)[0], KeptLater(vs[1..]));
      assert vs == [vs[0]] + vs[1..];
    }
  }

  /** A value comes back exactly when its lines have nothing at their ends for the reader to trim. */
  lemma SeenIsMeant(e: Entry)
    requires LegalEntry(e)
    ensures Seen(e) == Meant(e) <==> Intact(e.value)
  {
    var vs := e.value;
    if |vs| > 1 {
      LaterComesBack(vs[1..]);
      KeptIsSame(vs[0], IsSpace);
      assert IntactLater(vs[1..]) <==> (forall k :: 1 <= k < |vs| - 1 ==> !EndsIn(vs[k], IsReturn)) by {
        assert forall k :: 1 <= k < |vs| - 1 ==> vs[k] == vs[1..][k - 1];
      }
      FlatCons(vs[0], vs[1..]);
      FlatCons(KeptValue(vs)[0], KeptLater(vs[1..]));
      assert vs == [vs[0]] + vs[1..];
      CharsLength(Flat(vs));
      CharsLength(Flat(KeptValue(vs)));
    } else {
      assert KeptValue(vs) == vs;
    }
  }

  /** A raw line break after a space: "x ", then "y", comes back without the space. */
  lemma SpaceBeforeBreakIsLost()
    ensures var e := Entry(false, "A", [[Raw('x'), Raw(' ')], [Raw('y')]]);
            LegalEntry(e) && Meant(e) == "x \ny" && Seen(e) == "x\ny"
  {
    var x, y := [Raw('x'), Raw(' ')], [Raw('y')];
    assert x[..1] == [Raw('x')] && [x, y][1..] == [y] && KeptLater([y]) == [y];
    assert Kept(x, IsSpace) == [Raw('x')];
    FlatCons(x, [y]);
    FlatCons([Raw('x')], [y]);
    assert [x] + [y] == [x, y] && [[Raw('x')]] + [y] == KeptValue([x, y]);
    var meant, seen := [Raw('x'), Raw(' '), Raw('\n'), Raw('y')], [Raw('x'), Raw('\n'), Raw('y')];
    assert Flat([x, y]) == meant && Flat(KeptValue([x, y])) == seen;
    CharsAre(meant, "x \ny");
    CharsAre(seen, "x\ny");
  }

  lemma {:induction false} CharsAre(ps: seq<Piece>, s: string)
    requires |ps| == |s| && forall i :: 0 <= i < |s| ==> ps[i].c == s[i]
    ensures Chars(ps) == s
  {
    if ps != [] { CharsAre(ps[1..], s[1..]); }
  }

  /** Parsing a written file gives each name the value last written for it, whole if it is intact. */
  lemma ParseInvertsWriting(es: seq<Entry>, name: string)
    requires LegalFile(es)
    ensures var vars, last := Parse(FileText(es)).vars, LastOf(es, name);
            && (name in vars <==> last.Some?)
            && (last.Some? ==> |last.value.value| >= 1 && vars[name] == Seen(last.value))
            && (last.Some? ==> (vars[name] == Meant(last.value) <==> Intact(last.value.value)))
  {
    ParseWritten(es);
    AssignedHasLast(es, name);
    if LastOf(es, name).Some? {
      SeenIsMeant(LastOf(es, name).value);
    }
  }

  // --- every value can be written ---

  function EscapeAll(v: string): seq<Piece> {
    if v == "" then []
    else [if v[0] in "\n\r\t\"\\" then Escaped(v[0]) else Raw(v[0])] + EscapeAll(v[1..])
  }

  lemma {:induction false} EscapeAllMeans(v: string)
    ensures LegalLine(EscapeAll(v)) && Chars(EscapeAll(v)) == v
  {
    if v != "" {
      EscapeAllMeans(v[1..]);
      assert v == [v[0]] + v[1..];
    }
  }

  /** Any value, for any name, on one line with all five escapes. */
  lemma AnyValueCanBeWritten(name: string, v: string, exported: bool)
    requires ValidName(name)
    ensures var e := Entry(exported, name, [EscapeAll(v)]); LegalEntry(e) && Meant(e) == v && Intact(e.value)
  {
    EscapeAllMeans(v);
  }

  // --- the other two forms of a value ---

  /** A value that can stand unquoted. */
  predicate Plain(v: string) {
    && v != "" && !IsSpace(v[0]) && !IsSpace(v[|v| - 1]) && v[0] != '\'' && v[0] != '"'
    && forall k :: 0 < k < |v| && v[k] == '#' ==> !IsBlank(v[k - 1])
  }

  /** Nothing, or blanks and a comment. */
  predicate Trailing(t: string) {
    t == "" || exists k :: 0 < k < |t| && t[k] == '#' && forall i :: 0 <= i < k ==> IsBlank(t[i])
  }

  lemma {:induction false} UncommentedAt(raw: string, from: nat, k: nat)
    requires from <= k <= |raw| && (k < |raw| ==> CommentAt(raw, k))
    requires forall i :: from <= i < k ==> !CommentAt(raw, i)
    ensures Uncommented(raw, from) == raw[..k]
    decreases k - from
  {
    if from == k {
      assert k == |raw| ==> raw[..k] == raw;
    } else {
      UncommentedAt(raw, from + 1, k);
    }
  }

  lemma {:induction false} BlanksOff(v: string, blanks: string)
    requires v != "" && !IsSpace(v[|v| - 1]) && forall i :: 0 <= i < |blanks| ==> IsBlank(blanks[i])
    ensures TrimRight(v + blanks, IsSpace) == v
    decreases |blanks|
  {
    if blanks == "" {
      assert v + blanks == v;
    } else {
      var n := |blanks| - 1;
      assert IsBlank(blanks[n]) && (v + blanks)[..|v| + n] == v + blanks[..n];
      BlanksOff(v, blanks[..n]);
    }
  }

  /** An unquoted value loses its trailing comment and nothing else. */
  lemma PlainReads(v: string, trailing: string)
    requires Plain(v) && Trailing(trailing)
    ensures Unquoted(v + trailing) == v
  {
    var raw := v + trailing;
    var k: nat := 0;
    if trailing != "" {
      k :| 0 < k < |trailing| && trailing[k] == '#' && forall i :: 0 <= i < k ==> IsBlank(trailing[i]);
      assert raw[|v| + k] == '#' && raw[|v| + k - 1] == trailing[k - 1];
    }
    forall i | 0 <= i < |v| + k ensures !CommentAt(raw, i) {
      if i > |v| {
        assert raw[i] == trailing[i - |v|];
      } else if i == |v| && k > 0 {
        assert raw[i] == trailing[0];
      }
    }
    UncommentedAt(raw, 0, |v| + k);
    assert raw[..|v| + k] == v + trailing[..k];
    BlanksOff(v, trailing[..k]);
  }

  lemma {:induction false} PadOff(pad: string, s: string)
    requires (forall i :: 0 <= i < |pad| ==> IsBlank(pad[i])) && (s != "" ==> !IsBlank(s[0]))
    ensures TrimLeft(pad + s, IsBlank) == s
  {
    if pad == "" {
      assert pad + s == s;
    } else {
      assert (pad + s)[1..] == pad[1..] + s;
      PadOff(pad[1..], s);
    }
  }

  /** A name, an equals sign, blanks around it, and the text of a value. */
  lemma BindingReads(name: string, before: string, after: string, raw: string, more: seq<string>)
    requires ValidName(name) && (raw != "" ==> !IsBlank(raw[0]))
    requires forall i :: 0 <= i < |before| ==> IsBlank(before[i])
    requires forall i :: 0 <= i < |after| ==> IsBlank(after[i])
    ensures ReadBinding(name + before + (['='] + (after + raw)), more) ==
            match ValueOf(raw, more)
            case None => Unclosed
            case Some((value, used)) => Binding(name, value, used)
  {
    var head := name + before;
    assert '=' !in head by {
      forall c | c in name ensures c != '=' {
      }
      forall c | c in before ensures c != '=' {
        assert IsBlank(c);
      }
    }
    CutFirst(head, '=', after + raw);
    PadOff(after, raw);
    assert NameChar(name[|name| - 1]) by { assert name[|name| - 1] in name; }
    RightPadOff(name, before);
  }

  lemma {:induction false} RightPadOff(s: string, pad: string)
    requires (forall i :: 0 <= i < |pad| ==> IsBlank(pad[i])) && (s != "" ==> !IsBlank(s[|s| - 1]))
    ensures TrimRight(s + pad, IsBlank) == s
    decreases |pad|
  {
    if pad == "" {
      assert s + pad == s;
    } else {
      var n := |pad| - 1;
      assert IsBlank(pad[n]) && (s + pad)[..|s| + n] == s + pad[..n];
      RightPadOff(s, pad[..n]);
    }
  }

  /** Unquoted: the value itself, with blanks around the equals sign and a comment behind it. */
  lemma UnquotedBinding(name: string, before: string, after: string, v: string, trailing: string, more: seq<string>)
    requires ValidName(name) && Plain(v) && Trailing(trailing)
    requires forall i :: 0 <= i < |before| ==> IsBlank(before[i])
    requires forall i :: 0 <= i < |after| ==> IsBlank(after[i])
    ensures ReadBinding(name + before + (['='] + (after + (v + trailing))), more) == Binding(name, v, 0)
  {
    PlainReads(v, trailing);
    BindingReads(name, before, after, v + trailing, more);
  }

  lemma {:induction false} SingleCloses(body: string, after: string)
    requires '\'' !in body
    ensures ClosingQuote(body, '\'') < 0 && ClosingQuote(body + (['\''] + after), '\'') == |body|
  {
    if body == "" {
      assert body + (['\''] + after) == ['\''] + after;
    } else {
      SingleCloses(body[1..], after);
      assert (body + (['\''] + after))[1..] == body[1..] + (['\''] + after);
    }
  }

  /** The lines of a single-quoted value after its first, the last with the quote and anything behind it. */
  function SingleLines(body: seq<string>, after: string): seq<string> {
    if body == [] then []
    else if |body| == 1 then [body[0] + SingleEnd(true, after)]
    else [body[0]] + SingleLines(body[1..], after)
  }

  /** Carriage returns at the ends of lines that do not close the quote are not part of it. */
  function Returned(body: seq<string>): seq<string> {
    if |body| <= 1 then body else [TrimRight(body[0], IsReturn)] + Returned(body[1..])
  }

  lemma {:induction false} TrimKeepsOut(s: string, out: char -> bool)
    ensures TrimRight(s, out) <= s
  {
    if s != "" && out(s[|s| - 1]) { TrimKeepsOut(s[..|s| - 1], out); }
  }

  function SingleEnd(last: bool, after: string): string {
    if last then ['\''] + after else ""
  }

  lemma SingleLast(first: string, after: string, later: seq<string>)
    requires '\'' !in first
    ensures Quoted(first + SingleEnd(true, after), '\'', later) == Some((first, 0))
  {
    SingleCloses(first, after);
    assert (first + (['\''] + after))[..|first|] == first;
  }

  lemma SingleNext(first: string, body: seq<string>, after: string, later: seq<string>, text: string)
    requires body != [] && '\'' !in first && (forall l <- body :: '\'' !in l)
    requires after == "" || !IsReturn(after[|after| - 1])
    requires Quoted(Returned(body)[0] + SingleEnd(body[1..] == [], after), '\'', SingleLines(body[1..], after) + later)
             == Some((text, |body| - 1))
    ensures Quoted(first + SingleEnd(false, after), '\'', SingleLines(body, after) + later) ==
            Some((first + "\n" + text, |body|))
  {
    SingleCloses(first, after);
    SingleLater(body, after, later);
    assert first + "" == first;
    QuotedFurther(first, '\'', SingleLines(body, after) + later,
                  Returned(body)[0] + SingleEnd(body[1..] == [], after), text, |body| - 1);
  }

  lemma {:induction false} SingleQuoted(first: string, body: seq<string>, after: string, later: seq<string>)
    requires '\'' !in first && (forall l <- body :: '\'' !in l) && (after == "" || !IsReturn(after[|after| - 1]))
    ensures Quoted(first + SingleEnd(body == [], after), '\'', SingleLines(body, after) + later) ==
            Some((Join([first] + Returned(body), '\n'), |body|))
    decreases |body|
  {
    if body == [] {
      SingleLast(first, after, later);
      assert [first] + Returned(body) == [first] && SingleLines(body, after) + later == later;
    } else {
      SingleLater(body, after, later);
      var next := Returned(body)[0];
      assert forall l <- body[1..] :: l in body;
      SingleQuoted(next, body[1..], after, later);
      SingleNext(first, body, after, later, Join([next] + Returned(body[1..]), '\n'));
      JoinMore(first, next, Returned(body[1..]));
    }
  }

  /** The next line of a single-quoted value, trimmed. */
  lemma SingleLater(body: seq<string>, after: string, later: seq<string>)
    requires body != [] && (forall l <- body :: '\'' !in l) && (after == "" || !IsReturn(after[|after| - 1]))
    ensures var more := SingleLines(body, after) + later;
            && more != [] && more[1..] == SingleLines(body[1..], after) + later
            && Returned(body) == [Returned(body)[0]] + Returned(body[1..]) && '\'' !in Returned(body)[0]
            && TrimRight(more[0], IsReturn) == Returned(body)[0] + SingleEnd(body[1..] == [], after)
  {
    assert body[0] in body;
    if |body| == 1 {
      SingleClose(body[0], after, later);
      CloseStays(body[0], after);
      assert body == [body[0]] && SingleLines([], after) + later == later;
    } else {
      SingleMore(body[0], body[1..], after, later);
      assert body == [body[0]] + body[1..];
    }
  }

  lemma SingleClose(line: string, after: string, later: seq<string>)
    ensures var more := SingleLines([line], after) + later;
            more[0] == line + SingleEnd(true, after) && more[1..] == later
  {
    assert SingleLines([line], after) == [line + SingleEnd(true, after)];
  }

  lemma CloseStays(line: string, after: string)
    requires after == "" || !IsReturn(after[|after| - 1])
    ensures TrimRight(line + SingleEnd(true, after), IsReturn) == line + SingleEnd(true, after)
  {
    var whole := line + SingleEnd(true, after);
    assert whole[|whole| - 1] == (if after == "" then '\'' else after[|after| - 1]);
    LastStays(whole, IsReturn);
  }

  lemma SingleMore(line: string, body: seq<string>, after: string, later: seq<string>)
    requires body != [] && '\'' !in line
    ensures var more := SingleLines([line] + body, after) + later;
            more[0] == line && more[1..] == SingleLines(body, after) + later
    ensures var t := TrimRight(line, IsReturn);
            Returned([line] + body) == [t] + Returned(body) && '\'' !in t && t + SingleEnd(false, after) == t
  {
    assert ([line] + body)[1..] == body;
    TrimKeepsOut(line, IsReturn);
  }

  lemma JoinMore(first: string, next: string, rest: seq<string>)
    ensures Join([first] + ([next] + rest), '\n') == first + "\n" + Join([next] + rest, '\n')
  {
    assert ([first] + ([next] + rest))[1..] == [next] + rest;
  }

  /**
   * Single quotes: the text between them as it stands, backslashes included, over as many lines as it
   * takes but for carriage returns before a break; what follows the closing quote is ignored.
   */
  lemma SingleQuotedBinding(name: string, before: string, pad: string, first: string, body: seq<string>,
                            after: string, later: seq<string>)
    requires ValidName(name)
    requires (forall i :: 0 <= i < |before| ==> IsBlank(before[i])) && forall i :: 0 <= i < |pad| ==> IsBlank(pad[i])
    requires '\'' !in first && (forall l <- body :: '\'' !in l) && (after == "" || !IsReturn(after[|after| - 1]))
    ensures ReadBinding(name + before + (['='] + (pad + ("'" + (first + SingleEnd(body == [], after))))),
                        SingleLines(body, after) + later) ==
            Binding(name, Join([first] + Returned(body), '\n'), |body|)
  {
    var rest := first + SingleEnd(body == [], after);
    SingleQuoted(first, body, after, later);
    BindingReads(name, before, pad, "'" + rest, SingleLines(body, after) + later);
    assert ("'" + rest)[1..] == rest;
  }

  /** Whitespace around a line, and an export in front, come off. */
  lemma LineReads(lead: string, exported: string, text: string, tail: string, more: seq<string>)
    requires (forall c <- lead :: IsSpace(c)) && (forall c <- tail :: IsSpace(c))
    requires text != "" && NameStart(text[0]) && !IsSpace(text[|text| - 1])
    requires exported != "" || !(EXPORT < text && IsBlank(text[|EXPORT|]))
    requires exported == "" || (EXPORT < exported && forall k :: |EXPORT| <= k < |exported| ==> IsBlank(exported[k]))
    ensures Read(lead + (exported + text) + tail, more) == ReadBinding(text, more)
  {
    var trimmed := exported + text;
    var line := lead + trimmed + tail;
    TrimAll(lead, trimmed, tail);
    TrimTwice(line, IsReturn, IsSpace);
    if exported == "" {
      assert trimmed == text;
    } else {
      var pad := exported[|EXPORT|..];
      assert trimmed[|EXPORT|..] == pad + text && trimmed[..|EXPORT|] == EXPORT;
      PadOff(pad, text);
    }
  }

  // --- names ---

  const LOWER := "abcdefghijklmnopqrstuvwxyz"

  const UPPER := "ABCDEFGHIJKLMNOPQRSTUVWXYZ"

  const DIGITS := "0123456789"

  predicate IsLetter(c: char) { c == '_' || c in LOWER || c in UPPER }

  /** Letters, digits and underscores, no digit first. */
  ghost predicate IsName(s: string) {
    s != "" && IsLetter(s[0]) && forall c <- s :: IsLetter(c) || c in DIGITS
  }

  lemma LowerIs(c: char)
    ensures 'a' <= c <= 'z' <==> c in LOWER
  {
    if 'a' <= c <= 'z' {
      assert LOWER[c as int - 'a' as int] == c;
    }
  }

  lemma UpperIs(c: char)
    ensures 'A' <= c <= 'Z' <==> c in UPPER
  {
    if 'A' <= c <= 'Z' {
      assert UPPER[c as int - 'A' as int] == c;
    }
  }

  lemma DigitIs(c: char)
    ensures '0' <= c <= '9' <==> c in DIGITS
  {
    if '0' <= c <= '9' {
      assert DIGITS[c as int - '0' as int] == c;
    }
  }

  lemma NameIs(s: string)
    ensures ValidName(s) <==> IsName(s)
  {
    forall c <- s ensures NameStart(c) <==> IsLetter(c) ensures '0' <= c <= '9' <==> c in DIGITS {
      LowerIs(c);
      UpperIs(c);
      DigitIs(c);
    }
  }

  /** What stands in front of the first equals sign, blanks apart, binds nothing exactly if it is no name. */
  lemma NamesExactly(name: string, pad: string, after: string, more: seq<string>)
    requires '=' !in name && (name != "" ==> !IsBlank(name[|name| - 1]))
    requires forall i :: 0 <= i < |pad| ==> IsBlank(pad[i])
    ensures ReadBinding(name + pad + (['='] + after), more).Nothing? <==> !IsName(name)
  {
    var head := name + pad;
    forall c | c in pad ensures c != '=' {
      assert IsBlank(c);
    }
    CutFirst(head, '=', after);
    RightPadOff(name, pad);
    NameIs(name);
  }
}
