/** internal/builtins/printf.go: %q, and a shell that reads its output back. */
module ShellQuote {
  import opened Options
  import opened Utf8

  // --- quoting ---

  const SPECIAL: seq<char> := " \t\n\"'\\$`&;()|<>*?[]{}!#~^=%"

  predicate IsSpecial(c: char) { c in SPECIAL }

  function Octal3(n: nat): Bytes
    requires n < 256
  {
    ['\\', Chr(48 + n / 64), Chr(48 + n / 8 % 8), Chr(48 + n % 8)]
  }

  /** The first rune inside $'...'. */
  function DollarPiece(s: Bytes): Bytes
    requires |s| > 0
  {
    var d := DecodeRune(s);
    if d.rune == 10 then ['\\', 'n']
    else if d.rune == 9 then ['\\', 't']
    else if d.rune == 13 then ['\\', 'r']
    else if d.rune == 7 then ['\\', 'a']
    else if d.rune == 8 then ['\\', 'b']
    else if d.rune == 12 then ['\\', 'f']
    else if d.rune == 11 then ['\\', 'v']
    else if d.rune == 92 || d.rune == 39 then ['\\', Chr(d.rune)]
    else if Invalid(d) then Octal3(Val(s[0]))
    else if d.rune < 0x20 || d.rune == 0x7F then Octal3(d.rune)
    else s[..d.size]
  }

  function DollarBody(s: Bytes): Bytes {
    if s == [] then [] else DollarPiece(s) + DollarBody(s[DecodeRune(s).size..])
  }

  /** Some rune cannot be written with backslashes alone. */
  predicate NeedsDollar(s: Bytes) {
    s != [] &&
    var d := DecodeRune(s);
    d.rune < 0x20 || d.rune == 0x7F || Invalid(d) || NeedsDollar(s[d.size..])
  }

  /** The first rune with a backslash in front if it is special. */
  function PlainPiece(s: Bytes): Bytes
    requires |s| > 0 && !Invalid(DecodeRune(s))
  {
    var r := DecodeRune(s).rune;
    EncodeDecode(s);
    (if r < 0x80 && IsSpecial(Chr(r)) then ['\\'] else []) + EncodeRune(r)
  }

  function PlainBody(s: Bytes): Bytes
    requires !NeedsDollar(s)
  {
    if s == [] then [] else PlainPiece(s) + PlainBody(s[DecodeRune(s).size..])
  }

  function Quoted(s: Bytes): Bytes {
    if s == [] then ['\'', '\'']
    else if NeedsDollar(s) then ['$', '\''] + DollarBody(s) + ['\'']
    else if forall c <- s :: !IsSpecial(c) then s
    else PlainBody(s)
  }

  method ScanDollar(s: Bytes) returns (needDollar: bool)
    ensures needDollar == NeedsDollar(s)
  {
    needDollar := false;
    var i := 0;
    assert s[0..] == s;
    while i < |s| && !needDollar
      invariant i <= |s|
      invariant NeedsDollar(s) == (needDollar || NeedsDollar(s[i..]))
      decreases |s| - i, !needDollar
    {
      var d := DecodeRune(s[i..]);
      if d.rune < 0x20 || d.rune == 0x7F || Invalid(d) {
        needDollar := true;
      } else {
        assert s[i..][d.size..] == s[i + d.size..];
        i := i + d.size;
      }
    }
  }

  lemma PlainStep(s: Bytes, i: nat)
    requires i < |s| && !NeedsDollar(s[i..])
    ensures var size := DecodeRune(s[i..]).size;
            && i + size <= |s| && !NeedsDollar(s[i + size..])
            && PlainBody(s[i..]) == PlainPiece(s[i..]) + PlainBody(s[i + size..])
  {
    var size := DecodeRune(s[i..]).size;
    assert s[i..][size..] == s[i + size..];
  }

  lemma Assoc(a: Bytes, b: Bytes, c: Bytes)
    ensures a + (b + c) == (a + b) + c
  {
  }

  type Writer = Bytes -> Bytes

  /** What is written piece by piece. */
  ghost predicate InPieces(body: Writer) {
    && body([]) == []
    && forall t {:trigger DollarPiece(t)} :: t != [] ==> body(t) == DollarPiece(t) + body(t[DecodeRune(t).size..])
  }

  lemma DollarInPieces(body: Writer)
    requires forall t :: body(t) == DollarBody(t)
    ensures InPieces(body)
  {
  }

  lemma DollarNext(body: Writer, s: Bytes, i: nat, q: Bytes)
    requires InPieces(body) && i < |s| && q + body(s[i..]) == body(s)
    ensures var k := i + DecodeRune(s[i..]).size;
            i < k <= |s| && (q + DollarPiece(s[i..])) + body(s[k..]) == body(s)
  {
    var size := DecodeRune(s[i..]).size;
    assert s[i..][size..] == s[i + size..];
    Assoc(q, DollarPiece(s[i..]), body(s[i + size..]));
  }

  method DollarPieces(ghost body: Writer, s: Bytes) returns (q: Bytes)
    requires InPieces(body)
    ensures q == body(s)
  {
    q := [];
    var i := 0;
    assert s[0..] == s && [] + body(s) == body(s);
    while i < |s|
      invariant i <= |s| && q + body(s[i..]) == body(s)
    {
      DollarNext(body, s, i, q);
      q, i := q + DollarPiece(s[i..]), i + DecodeRune(s[i..]).size;
    }
    assert s[i..] == [] && q + [] == q;
  }

  method DollarQuote(s: Bytes) returns (q: Bytes)
    ensures q == ['$', '\''] + DollarBody(s) + ['\'']
  {
    ghost var body: Writer := t => DollarBody(t);
    DollarInPieces(body);
    q := DollarPieces(body, s);
    q := ['$', '\''] + q + ['\''];
  }

  method BackslashQuote(s: Bytes) returns (q: Bytes)
    requires !NeedsDollar(s)
    ensures q == PlainBody(s)
  {
    q := [];
    var i := 0;
    assert s[0..] == s;
    while i < |s|
      invariant i <= |s| && !NeedsDollar(s[i..])
      invariant q + PlainBody(s[i..]) == PlainBody(s)
    {
      PlainStep(s, i);
      var size := DecodeRune(s[i..]).size;
      Assoc(q, PlainPiece(s[i..]), PlainBody(s[i + size..]));
      q := q + PlainPiece(s[i..]);
      i := i + size;
    }
    assert q + [] == q;
  }

  method Quote(s: Bytes) returns (q: Bytes)
    ensures q == Quoted(s)
  {
    if s == [] {
      return ['\'', '\''];
    }
    var needDollar := ScanDollar(s);
    if needDollar {
      q := DollarQuote(s);
      return;
    }
    if forall c <- s :: !IsSpecial(c) {
      return s;
    }
    q := BackslashQuote(s);
  }

  // --- reading ---

  /** What a quoted string held, and what follows its closing quote. */
  datatype Reading = Bad | Got(text: Bytes, rest: Bytes)

  function Prepend(b: Bytes, r: Reading): Reading {
    match r case Bad => Bad case Got(text, rest) => Got(b + text, rest)
  }

  predicate IsOctalDigit(c: char) { '0' <= c <= '7' }

  function OctalDigit(c: char): (n: nat)
    requires IsOctalDigit(c)
    ensures n < 8
  {
    c as nat - 48
  }

  /** Up to three octal digits at the head of q. */
  function OctalRun(q: Bytes): (n: nat)
    ensures n <= 3 && n <= |q| && forall i :: 0 <= i < n ==> IsOctalDigit(q[i])
  {
    if |q| == 0 || !IsOctalDigit(q[0]) then 0
    else if |q| == 1 || !IsOctalDigit(q[1]) then 1
    else if |q| == 2 || !IsOctalDigit(q[2]) then 2
    else 3
  }

  function OctalValue(q: Bytes, n: nat): nat
    requires n <= |q| && forall i :: 0 <= i < n ==> IsOctalDigit(q[i])
  {
    if n == 0 then 0 else 8 * OctalValue(q, n - 1) + OctalDigit(q[n - 1])
  }

  /** The single-character escapes of dollar-single-quotes. */
  function SimpleEscape(c: char): Option<Byte> {
    match c
    case '"' => Some('"')
    case '\'' => Some('\'')
    case '\\' => Some('\\')
    case 'a' => Some(Chr(7))
    case 'b' => Some(Chr(8))
    case 'e' => Some(Chr(27))
    case 'f' => Some(Chr(12))
    case 'n' => Some(Chr(10))
    case 'r' => Some(Chr(13))
    case 't' => Some(Chr(9))
    case 'v' => Some(Chr(11))
    case _ => None
  }

  /**
   * Dollar-single-quotes, section 2.2.4 of POSIX.1-2024 XCU. An octal escape that yields NUL or more
   * than a byte is unspecified there, and refused here; so are \x and \c, which are never written.
   */
  function ReadDollar(q: Bytes): Reading {
    if q == [] then Bad
    else if q[0] == '\'' then Got([], q[1..])
    else if q[0] != '\\' then Prepend([q[0]], ReadDollar(q[1..]))
    else if |q| == 1 then Bad
    else if SimpleEscape(q[1]).Some? then Prepend([SimpleEscape(q[1]).value], ReadDollar(q[2..]))
    else
      var n := OctalRun(q[1..]);
      if n == 0 || OctalValue(q[1..], n) == 0 || OctalValue(q[1..], n) > 255 then Bad
      else Prepend([Chr(OctalValue(q[1..], n))], ReadDollar(q[1 + n..]))
  }

  /** Single-quotes, section 2.2.2. */
  function ReadSingle(q: Bytes): (r: Reading)
    ensures r.Got? ==> |r.rest| < |q|
  {
    if q == [] then Bad
    else if q[0] == '\'' then Got([], q[1..])
    else Prepend([q[0]], ReadSingle(q[1..]))
  }

  lemma {:induction false} DollarShrinks(q: Bytes)
    ensures ReadDollar(q).Got? ==> |ReadDollar(q).rest| < |q|
  {
    if q != [] && q[0] != '\'' {
      if q[0] != '\\' {
        DollarShrinks(q[1..]);
      } else if |q| > 1 {
        if SimpleEscape(q[1]).Some? { DollarShrinks(q[2..]); } else { DollarShrinks(q[1 + OctalRun(q[1..])..]); }
      }
    }
  }

  /** The characters an unquoted word ends at: blanks, newline and operators (section 2.3). */
  predicate EndsWord(c: char) {
    match c
    case ' ' => true case '\t' => true case '\n' => true
    case '|' => true case '&' => true case ';' => true
    case '<' => true case '>' => true case '(' => true case ')' => true
    case _ => false
  }

  /** Those that quote or start an expansion wherever they stand (section 2.2). */
  predicate Quotes(c: char) {
    match c
    case '$' => true case '`' => true
    case '\\' => true case '"' => true case '\'' => true
    case _ => false
  }

  /**
   * Those that can mean more in some places: patterns, tildes, comments, assignments, braces, job
   * numbers, history. (Of that list in section 2.2, - and , can do so only inside [ or {.)
   */
  predicate MayExpand(c: char) {
    match c
    case '*' => true case '?' => true case '[' => true case ']' => true case '^' => true
    case '!' => true case '#' => true case '~' => true case '=' => true case '%' => true
    case '{' => true case '}' => true
    case _ => false
  }

  predicate Significant(c: char) { EndsWord(c) || Quotes(c) || MayExpand(c) }

  /**
   * One word from the start of q to its end: backslashes (section 2.2.1, where backslash-newline
   * vanishes), both kinds of single-quotes, and characters that mean only themselves. Any character
   * that can mean more when unquoted is refused.
   */
  function ReadUnquoted(q: Bytes): Option<Bytes>
    decreases |q|
  {
    if q == [] then Some([])
    else if q[0] == '\\' then
      if |q| == 1 then None
      else if q[1] == '\n' then ReadUnquoted(q[2..])
      else Then([q[1]], ReadUnquoted(q[2..]))
    else if q[0] == '\'' then
      match ReadSingle(q[1..])
      case Bad => None
      case Got(text, rest) => Then(text, ReadUnquoted(rest))
    else if q[0] == '$' && |q| > 1 && q[1] == '\'' then
      DollarShrinks(q[2..]);
      match ReadDollar(q[2..])
      case Bad => None
      case Got(text, rest) => Then(text, ReadUnquoted(rest))
    else if Significant(q[0]) then None
    else Then([q[0]], ReadUnquoted(q[1..]))
  }

  function Then(b: Bytes, r: Option<Bytes>): Option<Bytes> {
    match r case None => None case Some(t) => Some(b + t)
  }

  /** Nothing at all is no word. */
  function ReadWord(q: Bytes): Option<Bytes> {
    if q == [] then None else ReadUnquoted(q)
  }

  // --- the round trip ---

  /** What the quoting takes for special is what the reader would not take for itself. */
  lemma SpecialIsSignificant(c: char)
    ensures IsSpecial(c) <==> Significant(c)
  {
    var quoting, ending, expanding := " \t\n\"'\\$`", "&;()|<>", "*?[]{}!#~^=%";
    assert SPECIAL == quoting + ending + expanding;
    if Significant(c) {
      assert c in quoting || c in ending || c in expanding;
    }
  }

  predicate NulFree(s: Bytes) {
    forall i :: 0 <= i < |s| ==> Val(s[i]) != 0
  }

  lemma {:induction false} LiteralRun(b: Bytes, tail: Bytes)
    requires forall i :: 0 <= i < |b| ==> b[i] != '\\' && b[i] != '\''
    ensures ReadDollar(b + tail) == Prepend(b, ReadDollar(tail))
  {
    if b == [] {
      assert b + tail == tail;
      assert forall t: Bytes :: [] + t == t;
    } else {
      LiteralRun(b[1..], tail);
      assert (b + tail)[1..] == b[1..] + tail;
      assert forall t: Bytes :: [b[0]] + (b[1..] + t) == b + t;
    }
  }

  lemma OctalRead(n: nat, tail: Bytes)
    requires n < 256
    ensures ReadDollar(Octal3(n) + tail) == if n == 0 then Bad else Prepend([Chr(n)], ReadDollar(tail))
  {
    var q := Octal3(n) + tail;
    var body := q[1..];
    assert body[0] == Chr(48 + n / 64) && body[1] == Chr(48 + n / 8 % 8) && body[2] == Chr(48 + n % 8);
    assert SimpleEscape(q[1]).None?;
    assert OctalRun(body) == 3;
    assert OctalValue(body, 3) == 8 * OctalValue(body, 2) + n % 8;
    assert OctalValue(body, 2) == 8 * OctalValue(body, 1) + n / 8 % 8;
    assert OctalValue(body, 1) == 8 * OctalValue(body, 0) + n / 64;
    assert n / 64 == n / 8 / 8;
    assert q[4..] == tail;
  }

  /** One rune inside $'...' reads back as its own bytes, unless it is NUL. */
  lemma PieceRead(s: Bytes, tail: Bytes)
    requires |s| > 0
    ensures ReadDollar(DollarPiece(s) + tail) ==
            if Val(s[0]) == 0 then Bad else Prepend(s[..DecodeRune(s).size], ReadDollar(tail))
  {
    var d := DecodeRune(s);
    var q := DollarPiece(s) + tail;
    if d.size == 1 { assert s[..1] == [s[0]]; }
    if q[0] == '\\' {
      if Invalid(d) || (d.rune < 0x20 && !(7 <= d.rune <= 13)) || d.rune == 0x7F {
        OctalRead(Val(s[0]), tail);
      } else {
        assert q[2..] == tail;
      }
    } else {
      HighBytes(s);
      LiteralRun(s[..d.size], tail);
    }
  }

  /** Everything between the quotes reads back, unless there is a NUL in it. */
  lemma {:induction false} DollarRead(s: Bytes)
    ensures ReadDollar(DollarBody(s) + ['\'']) == if NulFree(s) then Got(s, []) else Bad
  {
    if s == [] {
      assert DollarBody(s) + ['\''] == ['\''];
    } else {
      var size := DecodeRune(s).size;
      var tail := DollarBody(s[size..]) + ['\''];
      DollarRead(s[size..]);
      PieceInFront(s, tail);
      Assoc(DollarPiece(s), DollarBody(s[size..]), ['\'']);
      assert DollarBody(s) + ['\''] == DollarPiece(s) + tail;
    }
  }

  lemma PieceInFront(s: Bytes, tail: Bytes)
    requires s != []
    requires var rest := s[DecodeRune(s).size..]; ReadDollar(tail) == if NulFree(rest) then Got(rest, []) else Bad
    ensures ReadDollar(DollarPiece(s) + tail) == if NulFree(s) then Got(s, []) else Bad
  {
    var size := DecodeRune(s).size;
    PieceRead(s, tail);
    NulFreeSplit(s, size);
    assert s[..size] + s[size..] == s;
  }

  /** Only a rune of its own can be NUL. */
  lemma NulFreeSplit(s: Bytes, size: nat)
    requires |s| > 0 && size == DecodeRune(s).size
    ensures NulFree(s) <==> Val(s[0]) != 0 && NulFree(s[size..])
  {
    HighBytes(s);
    if NulFree(s[size..]) && Val(s[0]) != 0 {
      forall i | 0 <= i < |s| ensures Val(s[i]) != 0 {
        if i >= size { assert s[i] == s[size..][i - size]; }
      }
    }
  }

  lemma {:induction false} PlainRun(b: Bytes, tail: Bytes)
    requires forall i :: 0 <= i < |b| ==> !Significant(b[i])
    ensures ReadUnquoted(b + tail) == Then(b, ReadUnquoted(tail))
  {
    if b == [] {
      assert b + tail == tail;
      assert forall t: Bytes :: [] + t == t;
    } else {
      PlainRun(b[1..], tail);
      assert (b + tail)[1..] == b[1..] + tail;
      assert forall t: Bytes :: [b[0]] + (b[1..] + t) == b + t;
    }
  }

  lemma HighNotSpecial(c: Byte)
    requires Val(c) >= 0x80
    ensures !Significant(c)
  {
  }

  lemma PlainPieceRead(s: Bytes, tail: Bytes)
    requires |s| > 0 && !NeedsDollar(s)
    ensures ReadUnquoted(PlainPiece(s) + tail) == Then(s[..DecodeRune(s).size], ReadUnquoted(tail))
  {
    var d := DecodeRune(s);
    EncodeDecode(s);
    if d.rune < 0x80 { SpecialIsSignificant(Chr(d.rune)); }
    var b := s[..d.size];
    if d.rune < 0x80 && IsSpecial(Chr(d.rune)) {
      assert b == [s[0]];
      var q := PlainPiece(s) + tail;
      assert q[0] == '\\' && q[1] == s[0] && q[2..] == tail;
    } else {
      HighBytes(s);
      forall i | 0 <= i < |b| ensures !Significant(b[i]) {
        if d.rune >= 0x80 { HighNotSpecial(b[i]); }
      }
      PlainRun(b, tail);
      assert PlainPiece(s) == b;
    }
  }

  lemma {:induction false} PlainRead(s: Bytes)
    requires !NeedsDollar(s)
    ensures ReadUnquoted(PlainBody(s)) == Some(s)
  {
    if s != [] {
      var size := DecodeRune(s).size;
      var rest := PlainBody(s[size..]);
      PlainRead(s[size..]);
      PlainPieceRead(s, rest);
      assert PlainBody(s) == PlainPiece(s) + rest;
      assert s[..size] + s[size..] == s;
    }
  }

  lemma {:induction false} PlainIsNulFree(s: Bytes)
    requires !NeedsDollar(s)
    ensures NulFree(s)
  {
    if s != [] {
      PlainIsNulFree(s[DecodeRune(s).size..]);
      NulFreeSplit(s, DecodeRune(s).size);
    }
  }

  lemma EmptyReadsBack()
    ensures ReadWord(['\'', '\'']) == Some([])
  {
    var q: Bytes := ['\'', '\''];
    assert q[1..] == ['\''];
    assert ReadSingle(q[1..]) == Got([], q[1..][1..]) && q[1..][1..] == [];
    assert ReadUnquoted([]) == Some([]);
    var empty: Bytes := [];
    assert empty + [] == empty;
    assert Then([], Some([])) == Some(empty);
  }

  lemma DollarReadsBack(s: Bytes)
    ensures ReadUnquoted(['$', '\''] + DollarBody(s) + ['\'']) == if NulFree(s) then Some(s) else None
  {
    var body := DollarBody(s) + ['\''];
    var q := ['$', '\''] + DollarBody(s) + ['\''];
    assert q[0] == '$' && q[1] == '\'' && q[2..] == body;
    DollarRead(s);
    if NulFree(s) {
      assert ReadDollar(q[2..]) == Got(s, []);
      assert ReadUnquoted([]) == Some([]) && s + [] == s;
    }
  }

  lemma PlainReadsBack(s: Bytes)
    requires s != [] && !NeedsDollar(s)
    ensures ReadWord(Quoted(s)) == Some(s)
  {
    if forall c <- s :: !IsSpecial(c) {
      forall i | 0 <= i < |s| ensures !Significant(s[i]) {
        assert s[i] in s;
        SpecialIsSignificant(s[i]);
      }
      PlainRun(s, []);
      assert s + [] == s;
    } else {
      PlainRead(s);
      assert PlainBody(s) == PlainPiece(s) + PlainBody(s[DecodeRune(s).size..]);
      EncodeDecode(s);
    }
  }

  /**
   * A shell reads what Quote wrote as exactly one word, the one that was quoted: for every byte
   * string without a NUL, and for no other.
   */
  lemma QuoteReadsBack(s: Bytes)
    ensures ReadWord(Quoted(s)) == Some(s) <==> NulFree(s)
  {
    if s == [] {
      EmptyReadsBack();
    } else if NeedsDollar(s) {
      DollarReadsBack(s);
    } else {
      PlainReadsBack(s);
      PlainIsNulFree(s);
    }
  }

  // --- which form is written ---

  ghost predicate PrintableRune(r: Rune) { r >= 0x20 && r != 0x7F }

  function Encoded(runes: seq<Rune>): Bytes {
    if runes == [] then [] else EncodeRune(runes[0]) + Encoded(runes[1..])
  }

  ghost predicate PrintableRunes(runes: seq<Rune>) {
    forall r <- runes :: PrintableRune(r)
  }

  /** Valid UTF-8 of runes that are no control characters. */
  ghost predicate Printable(s: Bytes) {
    exists runes :: PrintableRunes(runes) && Encoded(runes) == s
  }

  lemma {:induction false} PrintableEncodes(runes: seq<Rune>)
    requires PrintableRunes(runes)
    ensures !NeedsDollar(Encoded(runes))
  {
    if runes != [] {
      assert PrintableRune(runes[0]);
      PrintableEncodes(runes[1..]);
      DecodeEncode(runes[0], Encoded(runes[1..]));
      assert Encoded(runes)[|EncodeRune(runes[0])|..] == Encoded(runes[1..]);
    }
  }

  lemma {:induction false} RunesOf(s: Bytes) returns (runes: seq<Rune>)
    requires !NeedsDollar(s)
    ensures PrintableRunes(runes) && Encoded(runes) == s
  {
    if s == [] {
      runes := [];
    } else {
      var d := DecodeRune(s);
      var more := RunesOf(s[d.size..]);
      DecodedIsScalar(s);
      var r: Rune := d.rune;
      runes := [r] + more;
      RuneInFront(s, r, more);
    }
  }

  lemma FirstIsPrintable(s: Bytes)
    requires s != [] && !NeedsDollar(s)
    ensures var d := DecodeRune(s); Scalar(d.rune) && PrintableRune(d.rune) && EncodeRune(d.rune) == s[..d.size]
  {
    EncodeDecode(s);
    DecodedIsScalar(s);
  }

  lemma RuneInFront(s: Bytes, r: Rune, more: seq<Rune>)
    requires s != [] && !NeedsDollar(s) && r == DecodeRune(s).rune
    requires PrintableRunes(more) && Encoded(more) == s[DecodeRune(s).size..]
    ensures PrintableRunes([r] + more) && Encoded([r] + more) == s
  {
    FirstIsPrintable(s);
    RunesGlue(s, DecodeRune(s).size, r, more);
  }

  lemma RunesGlue(s: Bytes, size: nat, r: Rune, more: seq<Rune>)
    requires Scalar(r) && PrintableRune(r) && size <= |s| && EncodeRune(r) == s[..size]
    requires PrintableRunes(more) && Encoded(more) == s[size..]
    ensures PrintableRunes([r] + more) && Encoded([r] + more) == s
  {
    assert ([r] + more)[1..] == more && s[..size] + s[size..] == s;
  }

  /** The dollar form is for what is not valid UTF-8 or holds a control character. */
  lemma NeedsDollarWhen(s: Bytes)
    ensures NeedsDollar(s) <==> !Printable(s)
  {
    if !NeedsDollar(s) {
      var _ := RunesOf(s);
    } else {
      forall runes | PrintableRunes(runes) ensures Encoded(runes) != s {
        PrintableEncodes(runes);
      }
    }
  }

  /** A backslash in front of every significant character, and nothing else. */
  function Backslashed(s: Bytes): Bytes {
    if s == [] then [] else (if Significant(s[0]) then ['\\'] else []) + [s[0]] + Backslashed(s[1..])
  }

  lemma {:induction false} BackslashedRun(b: Bytes, s: Bytes)
    requires forall i :: 0 <= i < |b| ==> !Significant(b[i])
    ensures Backslashed(b + s) == b + Backslashed(s)
  {
    if b == [] {
      assert b + s == s;
    } else {
      BackslashedRun(b[1..], s);
      assert (b + s)[1..] == b[1..] + s;
      assert b == [b[0]] + b[1..] && (b + s)[0] == b[0];
      Assoc([b[0]], b[1..], Backslashed(s));
    }
  }

  lemma PlainPieceIs(s: Bytes, tail: Bytes)
    requires |s| > 0 && !NeedsDollar(s)
    ensures Backslashed(s[..DecodeRune(s).size] + tail) == PlainPiece(s) + Backslashed(tail)
  {
    var d := DecodeRune(s);
    var b := s[..d.size];
    EncodeDecode(s);
    if d.rune < 0x80 {
      SpecialIsSignificant(Chr(d.rune));
      assert b == [s[0]] && (b + tail)[1..] == tail;
    } else {
      HighBytes(s);
      forall i | 0 <= i < |b| ensures !Significant(b[i]) {
        HighNotSpecial(b[i]);
      }
      BackslashedRun(b, tail);
    }
  }

  lemma {:induction false} PlainBodyIs(s: Bytes)
    requires !NeedsDollar(s)
    ensures PlainBody(s) == Backslashed(s)
  {
    if s != [] {
      var rest := s[DecodeRune(s).size..];
      PlainBodyIs(rest);
      PlainPieceIs(s, rest);
      assert s == s[..DecodeRune(s).size] + rest;
    }
  }

  /** No backslash is added exactly if nothing is significant. */
  lemma {:induction false} BackslashedLonger(s: Bytes)
    ensures |Backslashed(s)| >= |s|
    ensures Backslashed(s) == s <==> forall i :: 0 <= i < |s| ==> !Significant(s[i])
  {
    if s != [] {
      BackslashedLonger(s[1..]);
      assert s == [s[0]] + s[1..];
      if Significant(s[0]) {
        assert |Backslashed(s)| > |s|;
      } else {
        assert Backslashed(s)[1..] == Backslashed(s[1..]);
        assert forall i :: 1 <= i < |s| ==> s[i] == s[1..][i - 1];
      }
    }
  }

  /** A printable string gets a backslash in front of each significant character, and no other change. */
  lemma PrintableIsBackslashed(s: Bytes)
    requires s != [] && Printable(s)
    ensures Quoted(s) == Backslashed(s)
  {
    NeedsDollarWhen(s);
    PlainBodyIs(s);
    if forall c <- s :: !IsSpecial(c) {
      forall i | 0 <= i < |s| ensures !Significant(s[i]) {
        assert s[i] in s;
        SpecialIsSignificant(s[i]);
      }
      BackslashedLonger(s);
    }
  }

  lemma {:induction false} DollarBodyLonger(s: Bytes)
    ensures |DollarBody(s)| >= |s|
  {
    if s != [] {
      PieceLonger(s);
      DollarBodyLonger(s[DecodeRune(s).size..]);
      assert DollarBody(s) == DollarPiece(s) + DollarBody(s[DecodeRune(s).size..]);
    }
  }

  lemma PieceLonger(s: Bytes)
    requires s != []
    ensures |DollarPiece(s)| >= DecodeRune(s).size
  {
  }

  /** The string is left bare exactly when it is printable, not empty, and nothing in it is significant. */
  lemma BareExactly(s: Bytes)
    ensures Quoted(s) == s <==> s != [] && Printable(s) && forall i :: 0 <= i < |s| ==> !Significant(s[i])
  {
    NeedsDollarWhen(s);
    if s == [] {
    } else if NeedsDollar(s) {
      DollarBodyLonger(s);
      assert |Quoted(s)| > |s|;
    } else {
      PrintableIsBackslashed(s);
      BackslashedLonger(s);
    }
  }
}
