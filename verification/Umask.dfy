/** internal/builtins/umask_unix.go: symbolic file creation masks. */
module Umask {

  // --- what a mode means: permissions as sets, clauses as trees ---

  datatype Who = User | Group | Other
  datatype Perm = Read | Write | Exec
  datatype Bit = Bit(who: Who, perm: Perm)

  const EVERYONE: set<Who> := {User, Group, Other}

  ghost function Complement(perm: iset<Bit>): iset<Bit> {
    iset b: Bit | b !in perm
  }

  /** u, g, o; a stands for all three. */
  datatype WhoLetter = One(w: Who) | Everyone

  datatype Item = Grant(p: Perm) | CondExec | SetId(sticky: bool) | CopyOf(w: Who)

  datatype Op = Add | Remove | Assign

  datatype Action = Action(op: Op, items: seq<Item>)

  datatype Clause = Clause(who: seq<WhoLetter>, actions: seq<Action>)

  type Mode = seq<Clause>

  ghost predicate InGrammar(m: Mode) {
    |m| > 0 && forall i :: 0 <= i < |m| ==> |m[i].actions| > 0
  }

  function WhoSet(who: seq<WhoLetter>): set<Who> {
    if who == [] then {}
    else (match who[0] case One(w) => {w} case Everyone => EVERYONE) + WhoSet(who[1..])
  }

  /** No who at all means everyone. */
  function Target(who: seq<WhoLetter>): set<Who> {
    if who == [] then EVERYONE else WhoSet(who)
  }

  ghost predicate AnyExec(perm: iset<Bit>) {
    exists b: Bit :: b in perm && b.perm == Exec
  }

  /** The permissions an item names for everyone, given the ones in force. */
  ghost function ItemBits(perm: iset<Bit>, item: Item): iset<Bit> {
    match item
    case Grant(p) => iset b: Bit | b.perm == p
    case CondExec => if AnyExec(perm) then iset b: Bit | b.perm == Exec else iset{}
    case SetId(_) => iset{}
    case CopyOf(w) => iset b: Bit | Bit(w, b.perm) in perm
  }

  ghost function ItemsBits(perm: iset<Bit>, items: seq<Item>): iset<Bit> {
    if items == [] then iset{} else ItemBits(perm, items[0]) + ItemsBits(perm, items[1..])
  }

  ghost function Apply(perm: iset<Bit>, who: set<Who>, a: Action): iset<Bit> {
    var named := iset b: Bit | b in ItemsBits(perm, a.items) && b.who in who;
    match a.op
    case Add => perm + named
    case Remove => perm - named
    case Assign => (iset b: Bit | b in perm && b.who !in who) + named
  }

  ghost function ApplyAll(perm: iset<Bit>, who: set<Who>, actions: seq<Action>): iset<Bit>
    decreases |actions|
  {
    if actions == [] then perm else ApplyAll(Apply(perm, who, actions[0]), who, actions[1..])
  }

  ghost function Eval(perm: iset<Bit>, m: Mode): iset<Bit>
    decreases |m|
  {
    if m == [] then perm else Eval(ApplyAll(perm, Target(m[0].who), m[0].actions), m[1..])
  }

  // --- the printed form ---

  function WhoChar(w: WhoLetter): char {
    match w
    case One(User) => 'u'
    case One(Group) => 'g'
    case One(Other) => 'o'
    case Everyone => 'a'
  }

  function ItemChar(i: Item): char {
    match i
    case Grant(Read) => 'r'
    case Grant(Write) => 'w'
    case Grant(Exec) => 'x'
    case CondExec => 'X'
    case SetId(sticky) => if sticky then 't' else 's'
    case CopyOf(User) => 'u'
    case CopyOf(Group) => 'g'
    case CopyOf(Other) => 'o'
  }

  function OpChar(op: Op): char {
    match op case Add => '+' case Remove => '-' case Assign => '='
  }

  function PrintWho(who: seq<WhoLetter>): string {
    if who == [] then "" else [WhoChar(who[0])] + PrintWho(who[1..])
  }

  function PrintItems(items: seq<Item>): string {
    if items == [] then "" else [ItemChar(items[0])] + PrintItems(items[1..])
  }

  function PrintActions(actions: seq<Action>): string {
    if actions == [] then ""
    else [OpChar(actions[0].op)] + PrintItems(actions[0].items) + PrintActions(actions[1..])
  }

  function PrintClause(c: Clause): string {
    PrintWho(c.who) + PrintActions(c.actions)
  }

  function Print(m: Mode): string {
    if m == [] then ""
    else if |m| == 1 then PrintClause(m[0])
    else PrintClause(m[0]) + "," + Print(m[1..])
  }

  // --- the grammar, read back ---

  datatype Result<+T> = Ok(value: T) | Err(error: Error)

  /** The byte complained of; running off the end reads as NUL. */
  datatype Error = BadOperator(c: char) | BadCharacter(c: char) | ExpectedNumber | OutOfRange

  datatype Option = None | Some(error: Error)

  function At(s: string): char {
    if s == "" then '\0' else s[0]
  }

  predicate IsWho(c: char) { c == 'u' || c == 'g' || c == 'o' || c == 'a' }

  predicate IsItem(c: char) {
    c == 'r' || c == 'w' || c == 'x' || c == 'X' || c == 's' || c == 't' || c == 'u' || c == 'g' || c == 'o'
  }

  predicate IsOp(c: char) { c == '+' || c == '-' || c == '=' }

  function WhoOf(c: char): WhoLetter
    requires IsWho(c)
    ensures WhoChar(WhoOf(c)) == c
  {
    if c == 'u' then One(User) else if c == 'g' then One(Group) else if c == 'o' then One(Other) else Everyone
  }

  function ItemOf(c: char): Item
    requires IsItem(c)
    ensures ItemChar(ItemOf(c)) == c
  {
    if c == 'r' then Grant(Read) else if c == 'w' then Grant(Write) else if c == 'x' then Grant(Exec)
    else if c == 'X' then CondExec else if c == 's' then SetId(false) else if c == 't' then SetId(true)
    else if c == 'u' then CopyOf(User) else if c == 'g' then CopyOf(Group) else CopyOf(Other)
  }

  function OpOf(c: char): Op
    requires IsOp(c)
    ensures OpChar(OpOf(c)) == c
  {
    if c == '+' then Add else if c == '-' then Remove else Assign
  }

  function ParseWho(s: string): (r: (seq<WhoLetter>, string))
    ensures PrintWho(r.0) + r.1 == s && (r.1 != "" ==> !IsWho(r.1[0]))
  {
    if s != "" && IsWho(s[0]) then
      var rest := ParseWho(s[1..]);
      ([WhoOf(s[0])] + rest.0, rest.1)
    else ([], s)
  }

  function ParseItems(s: string): (r: (seq<Item>, string))
    ensures PrintItems(r.0) + r.1 == s && (r.1 != "" ==> !IsItem(r.1[0]))
  {
    if s != "" && IsItem(s[0]) then
      var rest := ParseItems(s[1..]);
      ([ItemOf(s[0])] + rest.0, rest.1)
    else ([], s)
  }

  /** One or more actions, up to a comma or the end. */
  function ParseActions(s: string): (r: Result<(seq<Action>, string)>)
    ensures r.Ok? ==>
              && |r.value.0| > 0 && PrintActions(r.value.0) + r.value.1 == s
              && (r.value.1 != "" ==> r.value.1[0] == ',') && |r.value.1| < |s|
    decreases |s|
  {
    if s == "" || !IsOp(s[0]) then Err(BadOperator(At(s)))
    else
      var (items, rest) := ParseItems(s[1..]);
      var action := Action(OpOf(s[0]), items);
      if rest == "" || rest[0] == ',' then
        PrintActionsCons(action, []);
        Ok(([action], rest))
      else if !IsOp(rest[0]) then Err(BadCharacter(rest[0]))
      else
        match ParseActions(rest)
        case Err(e) => Err(e)
        case Ok((more, after)) =>
          PrintActionsEnd(action, more, after);
          Ok(([action] + more, after))
  }

  lemma PrintActionsCons(a: Action, more: seq<Action>)
    ensures PrintActions([a] + more) == [OpChar(a.op)] + PrintItems(a.items) + PrintActions(more)
    ensures PrintActions([a]) == [OpChar(a.op)] + PrintItems(a.items)
  {
    assert ([a] + more)[1..] == more;
    assert [a][1..] == [];
  }

  lemma PrintActionsEnd(a: Action, more: seq<Action>, after: string)
    ensures PrintActions([a] + more) + after ==
            [OpChar(a.op)] + (PrintItems(a.items) + (PrintActions(more) + after))
  {
    PrintActionsCons(a, more);
  }

  /** A clause, up to a comma or the end. */
  function ParseClause(s: string): (r: Result<(Clause, string)>)
    ensures r.Ok? ==>
              && |r.value.0.actions| > 0 && PrintClause(r.value.0) + r.value.1 == s
              && (r.value.1 != "" ==> r.value.1[0] == ',') && |r.value.1| < |s|
  {
    var (who, rest) := ParseWho(s);
    match ParseActions(rest)
    case Err(e) => Err(e)
    case Ok((actions, after)) =>
      PrintClauseEnds(who, actions, after);
      Ok((Clause(who, actions), after))
  }

  lemma PrintClauseEnds(who: seq<WhoLetter>, actions: seq<Action>, after: string)
    ensures PrintClause(Clause(who, actions)) + after == PrintWho(who) + (PrintActions(actions) + after)
  {
  }

  function ParseMode(s: string): (r: Result<Mode>)
    decreases |s|
  {
    match ParseClause(s)
    case Err(e) => Err(e)
    case Ok((c, after)) =>
      if after == "" then Ok([c])
      else if after == "," then Err(BadOperator('\0'))
      else
        match ParseMode(after[1..])
        case Err(e) => Err(e)
        case Ok(m) => Ok([c] + m)
  }

  lemma PrintCons(c: Clause, m: Mode)
    ensures Print([c]) == PrintClause(c)
    ensures m != [] ==> Print([c] + m) == PrintClause(c) + ("," + Print(m))
  {
    assert ([c] + m)[1..] == m;
    var p, q := PrintClause(c), Print(m);
    assert p + "," + q == p + ("," + q);
  }

  lemma AcceptedMore(c: Clause, after: string, m: Mode, s: string)
    requires PrintClause(c) + after == s && after != "" && after[0] == ','
    requires m != [] && Print(m) == after[1..]
    ensures Print([c] + m) == s
  {
    PrintCons(c, m);
    assert after == "," + after[1..];
  }

  /** What is accepted is the printed form of the tree it is read as. */
  lemma {:induction false} ParsedIsPrinted(s: string)
    ensures ParseMode(s).Ok? ==> InGrammar(ParseMode(s).value) && Print(ParseMode(s).value) == s
    decreases |s|
  {
    if ParseMode(s).Ok? {
      var (c, after) := ParseClause(s).value;
      if after == "" {
        PrintCons(c, []);
        assert PrintClause(c) + "" == PrintClause(c);
      } else {
        ParsedIsPrinted(after[1..]);
        AcceptedMore(c, after, ParseMode(after[1..]).value, s);
      }
    }
  }

  // --- reading back what was printed ---

  lemma {:induction false} ParsePrintWho(who: seq<WhoLetter>, rest: string)
    requires rest != "" ==> !IsWho(rest[0])
    ensures ParseWho(PrintWho(who) + rest) == (who, rest)
  {
    var s := PrintWho(who) + rest;
    if who == [] {
      assert s == rest;
    } else {
      ParsePrintWho(who[1..], rest);
      assert s[1..] == PrintWho(who[1..]) + rest;
      assert WhoOf(s[0]) == who[0] && [who[0]] + who[1..] == who;
    }
  }

  lemma ItemOfChar(i: Item)
    ensures IsItem(ItemChar(i)) && ItemOf(ItemChar(i)) == i
  {
  }

  lemma {:induction false} ParsePrintItems(items: seq<Item>, rest: string)
    requires rest != "" ==> !IsItem(rest[0])
    ensures ParseItems(PrintItems(items) + rest) == (items, rest)
  {
    var s := PrintItems(items) + rest;
    if items == [] {
      assert s == rest;
    } else {
      ParsePrintItems(items[1..], rest);
      ItemOfChar(items[0]);
      assert s[0] == ItemChar(items[0]);
      assert s[1..] == PrintItems(items[1..]) + rest;
      assert [items[0]] + items[1..] == items;
    }
  }

  /** One action in front of more actions, or of the end of the clause. */
  lemma ParseAction(a: Action, more: string)
    requires more == "" || more[0] == ',' || IsOp(more[0])
    ensures ParseActions([OpChar(a.op)] + (PrintItems(a.items) + more)) ==
            if more == "" || more[0] == ',' then Ok(([a], more))
            else match ParseActions(more)
                 case Err(e) => Err(e)
                 case Ok((rest, after)) => Ok(([a] + rest, after))
  {
    var s := [OpChar(a.op)] + (PrintItems(a.items) + more);
    ParsePrintItems(a.items, more);
    assert s[1..] == PrintItems(a.items) + more;
    assert OpOf(s[0]) == a.op;
  }

  lemma {:induction false} ParsePrintActions(actions: seq<Action>, rest: string)
    requires |actions| > 0 && (rest != "" ==> rest[0] == ',')
    ensures ParseActions(PrintActions(actions) + rest) == Ok((actions, rest))
    decreases |actions|
  {
    var a, more := actions[0], PrintActions(actions[1..]) + rest;
    assert PrintActions(actions) + rest == [OpChar(a.op)] + (PrintItems(a.items) + more);
    assert [a] + actions[1..] == actions;
    if |actions| == 1 {
      assert more == rest && [a] == actions;
    } else {
      ParsePrintActions(actions[1..], rest);
      assert more[0] == OpChar(actions[1].op);
    }
    ParseAction(a, more);
  }

  /** The grammar is unambiguous: a printed tree reads back as itself. */
  lemma {:induction false} ParsePrint(m: Mode)
    requires InGrammar(m)
    ensures ParseMode(Print(m)) == Ok(m)
    decreases |m|
  {
    if |m| == 1 {
      ParsePrintOne(m[0]);
      assert m == [m[0]];
    } else {
      ParsePrint(m[1..]);
      ParsePrintCons(m);
    }
  }

  lemma {:induction false} ParsePrintCons(m: Mode)
    requires InGrammar(m) && |m| > 1 && InGrammar(m[1..]) && ParseMode(Print(m[1..])) == Ok(m[1..])
    ensures ParseMode(Print(m)) == Ok(m)
  {
    ParsePrintMore(m[0], m[1..]);
    assert m == [m[0]] + m[1..];
  }

  lemma {:induction false} ParsePrintOne(c: Clause)
    requires |c.actions| > 0
    ensures ParseMode(Print([c])) == Ok([c])
  {
    ParsePrintClause(c, "");
    PrintCons(c, []);
    assert PrintClause(c) + "" == PrintClause(c);
  }

  lemma {:induction false} ParsePrintMore(c: Clause, more: Mode)
    requires |c.actions| > 0 && InGrammar(more) && ParseMode(Print(more)) == Ok(more)
    ensures ParseMode(Print([c] + more)) == Ok([c] + more)
  {
    var tail := "," + Print(more);
    ParsePrintClause(c, tail);
    PrintCons(c, more);
    PrintNotEmpty(more);
    assert tail[1..] == Print(more) && |tail| > 1;
  }

  lemma {:induction false} ParsePrintClause(c: Clause, tail: string)
    requires |c.actions| > 0 && (tail != "" ==> tail[0] == ',')
    ensures ParseClause(PrintClause(c) + tail) == Ok((c, tail))
  {
    var actions := PrintActions(c.actions) + tail;
    ParsePrintActions(c.actions, tail);
    assert actions[0] == OpChar(c.actions[0].op);
    ParsePrintWho(c.who, actions);
    PrintClauseEnds(c.who, c.actions, tail);
    ClauseFrom(PrintClause(c) + tail, c, actions, tail);
  }

  lemma ClauseFrom(s: string, c: Clause, actions: string, tail: string)
    requires ParseWho(s) == (c.who, actions) && ParseActions(actions) == Ok((c.actions, tail))
    ensures ParseClause(s) == Ok((c, tail))
  {
  }

  lemma {:induction false} PrintNotEmpty(m: Mode)
    requires InGrammar(m)
    ensures Print(m) != ""
  {
    assert PrintActions(m[0].actions) != "";
    assert PrintClause(m[0]) != "";
  }

  /** Exactly the printed trees are accepted. */
  lemma AcceptsGrammar(s: string)
    ensures ParseMode(s).Ok? <==> exists m :: InGrammar(m) && Print(m) == s
  {
    ParsedIsPrinted(s);
    forall m | InGrammar(m) && Print(m) == s
      ensures ParseMode(s).Ok?
    {
      ParsePrint(m);
    }
  }

  // --- words of nine bits ---

  /** One octal digit of a mode. */
  datatype Digit = Digit(r: bool, w: bool, x: bool)

  /** The low nine bits of an int, most significant digit first. */
  datatype Word = Word(u: Digit, g: Digit, o: Digit)

  function DigitOr(a: Digit, b: Digit): Digit { Digit(a.r || b.r, a.w || b.w, a.x || b.x) }

  function DigitAnd(a: Digit, b: Digit): Digit { Digit(a.r && b.r, a.w && b.w, a.x && b.x) }

  function DigitNot(a: Digit): Digit { Digit(!a.r, !a.w, !a.x) }

  function Or(p: Word, q: Word): Word { Word(DigitOr(p.u, q.u), DigitOr(p.g, q.g), DigitOr(p.o, q.o)) }

  function And(p: Word, q: Word): Word { Word(DigitAnd(p.u, q.u), DigitAnd(p.g, q.g), DigitAnd(p.o, q.o)) }

  /** Complement within nine bits: ^p & 0777. */
  function Not(p: Word): Word { Word(DigitNot(p.u), DigitNot(p.g), DigitNot(p.o)) }

  const NONE := Digit(false, false, false)
  const FULL := Digit(true, true, true)
  const ZERO := Word(NONE, NONE, NONE)

  /** p >> 3 and p << 3, within nine bits. */
  function Shr3(p: Word): Word { Word(NONE, p.u, p.g) }

  function Shl3(p: Word): Word { Word(p.g, p.o, NONE) }

  function DigitValue(d: Digit): (n: nat)
    ensures n < 8
  {
    (if d.r then 4 else 0) + (if d.w then 2 else 0) + (if d.x then 1 else 0)
  }

  function Value(p: Word): (n: nat)
    ensures n <= 511
  {
    64 * DigitValue(p.u) + 8 * DigitValue(p.g) + DigitValue(p.o)
  }

  function DigitOf(n: nat): (d: Digit)
    requires n < 8
    ensures DigitValue(d) == n
  {
    Digit(n >= 4, n % 4 >= 2, n % 2 == 1)
  }

  /** n & 0777 */
  function WordOf(n: nat): (p: Word)
    ensures Value(p) == n % 512
  {
    var m := n % 512;
    var high := m / 8;
    assert high == 8 * (high / 8) + high % 8 && m == 8 * high + m % 8;
    Word(DigitOf(high / 8), DigitOf(high % 8), DigitOf(m % 8))
  }

  /** The permissions a word grants. */
  ghost function Granted(p: Word): iset<Bit> {
    iset b: Bit | Has(p, b)
  }

  predicate Has(p: Word, b: Bit) {
    var d := match b.who case User => p.u case Group => p.g case Other => p.o;
    match b.perm case Read => d.r case Write => d.w case Exec => d.x
  }

  /** A mask in 0..0777 is the set of permissions it takes away. */
  lemma GrantedInjective(p: Word, q: Word)
    requires Granted(p) == Granted(q)
    ensures p == q
  {
    forall b: Bit ensures Has(p, b) == Has(q, b) {
      assert b in Granted(p) <==> b in Granted(q);
    }
    assert Has(p, Bit(User, Read)) == Has(q, Bit(User, Read)) && Has(p, Bit(User, Write)) == Has(q, Bit(User, Write));
    assert Has(p, Bit(User, Exec)) == Has(q, Bit(User, Exec)) && Has(p, Bit(Group, Read)) == Has(q, Bit(Group, Read));
    assert Has(p, Bit(Group, Write)) == Has(q, Bit(Group, Write));
    assert Has(p, Bit(Group, Exec)) == Has(q, Bit(Group, Exec));
    assert Has(p, Bit(Other, Read)) == Has(q, Bit(Other, Read));
    assert Has(p, Bit(Other, Write)) == Has(q, Bit(Other, Write));
    assert Has(p, Bit(Other, Exec)) == Has(q, Bit(Other, Exec));
  }

  lemma HasOps(p: Word, q: Word, b: Bit)
    ensures Has(Or(p, q), b) <==> Has(p, b) || Has(q, b)
    ensures Has(And(p, q), b) <==> Has(p, b) && Has(q, b)
    ensures Has(Not(p), b) <==> !Has(p, b)
  {
  }

  lemma NotReads(p: Word)
    ensures Granted(Not(p)) == Complement(Granted(p))
  {
    forall b: Bit ensures Has(Not(p), b) <==> !Has(p, b) { HasOps(p, p, b); }
  }

  // --- evaluation on words ---

  const WHO_USER := Word(FULL, NONE, NONE)   // 0700
  const WHO_GROUP := Word(NONE, FULL, NONE)  // 0070
  const WHO_OTHER := Word(NONE, NONE, FULL)  // 0007
  const ALL_BITS := Word(FULL, FULL, FULL)   // 0777

  function Everywhere(d: Digit): Word { Word(d, d, d) }

  const ALL_READ := Everywhere(Digit(true, false, false))   // 0444
  const ALL_WRITE := Everywhere(Digit(false, true, false))  // 0222
  const ALL_EXEC := Everywhere(Digit(false, false, true))   // 0111

  /** What one who is granted right now, spread across all three positions. */
  function Spread(perm: Word, w: Who): Word {
    var shifted := match w case User => Shr3(Shr3(perm)) case Group => Shr3(perm) case Other => perm;
    var v := And(shifted, WHO_OTHER);
    Or(Or(v, Shl3(v)), Shl3(Shl3(v)))
  }

  function LetterMask(w: WhoLetter): Word {
    match w
    case One(User) => WHO_USER
    case One(Group) => WHO_GROUP
    case One(Other) => WHO_OTHER
    case Everyone => ALL_BITS
  }

  function WhoWord(acc: Word, who: seq<WhoLetter>): Word
    decreases |who|
  {
    if who == [] then acc else WhoWord(Or(acc, LetterMask(who[0])), who[1..])
  }

  function TargetWord(who: seq<WhoLetter>): Word {
    if WhoWord(ZERO, who) == ZERO then ALL_BITS else WhoWord(ZERO, who)
  }

  function ItemMask(perm: Word, item: Item): Word {
    match item
    case Grant(Read) => ALL_READ
    case Grant(Write) => ALL_WRITE
    case Grant(Exec) => ALL_EXEC
    case CondExec => if And(perm, ALL_EXEC) != ZERO then ALL_EXEC else ZERO
    case SetId(_) => ZERO
    case CopyOf(w) => Spread(perm, w)
  }

  function ItemsWord(perm: Word, acc: Word, items: seq<Item>): Word
    decreases |items|
  {
    if items == [] then acc else ItemsWord(perm, Or(acc, ItemMask(perm, items[0])), items[1..])
  }

  function Combine(op: Op, perm: Word, bits: Word, who: Word): Word {
    match op
    case Add => Or(perm, And(bits, who))
    case Remove => And(perm, Not(And(bits, who)))
    case Assign => Or(And(perm, Not(who)), And(bits, who))
  }

  function ApplyWord(perm: Word, who: Word, a: Action): Word {
    Combine(a.op, perm, ItemsWord(perm, ZERO, a.items), who)
  }

  function ApplyAllWord(perm: Word, who: Word, actions: seq<Action>): Word
    decreases |actions|
  {
    if actions == [] then perm else ApplyAllWord(ApplyWord(perm, who, actions[0]), who, actions[1..])
  }

  function EvalWord(perm: Word, m: Mode): Word
    decreases |m|
  {
    if m == [] then perm else EvalWord(ApplyAllWord(perm, TargetWord(m[0].who), m[0].actions), m[1..])
  }

  // --- evaluation on words is evaluation on sets ---

  lemma {:induction false} WhoWordReads(acc: Word, who: seq<WhoLetter>, b: Bit)
    ensures Has(WhoWord(acc, who), b) <==> Has(acc, b) || b.who in WhoSet(who)
    decreases |who|
  {
    if who != [] {
      WhoWordReads(Or(acc, LetterMask(who[0])), who[1..], b);
      HasOps(acc, LetterMask(who[0]), b);
    }
  }

  /** Letters leave bits behind, so a zero word means there were none. */
  lemma WhoWordNonzero(who: seq<WhoLetter>)
    requires who != []
    ensures WhoWord(ZERO, who) != ZERO
  {
    var w := match who[0] case One(x) => x case Everyone => User;
    WhoWordReads(ZERO, who, Bit(w, Read));
    assert w in WhoSet(who);
  }

  lemma TargetReads(who: seq<WhoLetter>, b: Bit)
    ensures Has(TargetWord(who), b) <==> b.who in Target(who)
  {
    WhoWordReads(ZERO, who, b);
    if who != [] { WhoWordNonzero(who); }
  }

  lemma SpreadReads(perm: Word, w: Who, b: Bit)
    ensures Has(Spread(perm, w), b) <==> Has(perm, Bit(w, b.perm))
  {
  }

  lemma ExecReads(perm: Word)
    ensures And(perm, ALL_EXEC) != ZERO <==> AnyExec(Granted(perm))
  {
    assert Has(perm, Bit(User, Exec)) ==> Bit(User, Exec) in Granted(perm);
    assert Has(perm, Bit(Group, Exec)) ==> Bit(Group, Exec) in Granted(perm);
    assert Has(perm, Bit(Other, Exec)) ==> Bit(Other, Exec) in Granted(perm);
  }

  lemma ItemReads(perm: Word, item: Item, b: Bit)
    ensures Has(ItemMask(perm, item), b) <==> b in ItemBits(Granted(perm), item)
  {
    match item
    case Grant(_) =>
    case CondExec => ExecReads(perm);
    case SetId(_) =>
    case CopyOf(w) => SpreadReads(perm, w, b);
  }

  lemma {:induction false} ItemsReads(perm: Word, acc: Word, items: seq<Item>, b: Bit)
    ensures Has(ItemsWord(perm, acc, items), b) <==> Has(acc, b) || b in ItemsBits(Granted(perm), items)
    decreases |items|
  {
    if items != [] {
      ItemReads(perm, items[0], b);
      ItemsReads(perm, Or(acc, ItemMask(perm, items[0])), items[1..], b);
      HasOps(acc, ItemMask(perm, items[0]), b);
    }
  }

  lemma CombineReads(op: Op, perm: Word, bits: Word, who: Word, b: Bit)
    ensures Has(Combine(op, perm, bits, who), b) <==>
            var named := Has(bits, b) && Has(who, b);
            match op
            case Add => Has(perm, b) || named
            case Remove => Has(perm, b) && !named
            case Assign => (Has(perm, b) && !Has(who, b)) || named
  {
    HasOps(bits, who, b);
    HasOps(who, who, b);
    match op
    case Add => HasOps(perm, And(bits, who), b);
    case Remove =>
      HasOps(And(bits, who), ZERO, b);
      HasOps(perm, Not(And(bits, who)), b);
    case Assign =>
      HasOps(perm, Not(who), b);
      HasOps(And(perm, Not(who)), And(bits, who), b);
  }

  lemma ApplyReads(perm: Word, who: Word, whoSet: set<Who>, a: Action)
    requires forall b: Bit :: Has(who, b) <==> b.who in whoSet
    ensures Granted(ApplyWord(perm, who, a)) == Apply(Granted(perm), whoSet, a)
  {
    forall b: Bit
      ensures Has(ApplyWord(perm, who, a), b) <==> b in Apply(Granted(perm), whoSet, a)
    {
      ItemsReads(perm, ZERO, a.items, b);
      CombineReads(a.op, perm, ItemsWord(perm, ZERO, a.items), who, b);
    }
  }

  lemma {:induction false} ApplyAllReads(perm: Word, who: Word, whoSet: set<Who>, actions: seq<Action>)
    requires forall b: Bit :: Has(who, b) <==> b.who in whoSet
    ensures Granted(ApplyAllWord(perm, who, actions)) == ApplyAll(Granted(perm), whoSet, actions)
    decreases |actions|
  {
    if actions != [] {
      ApplyReads(perm, who, whoSet, actions[0]);
      ApplyAllReads(ApplyWord(perm, who, actions[0]), who, whoSet, actions[1..]);
    }
  }

  lemma {:induction false} EvalReads(perm: Word, m: Mode)
    ensures Granted(EvalWord(perm, m)) == Eval(Granted(perm), m)
    decreases |m|
  {
    if m != [] {
      forall b: Bit ensures Has(TargetWord(m[0].who), b) <==> b.who in Target(m[0].who) { TargetReads(m[0].who, b); }
      ApplyAllReads(perm, TargetWord(m[0].who), Target(m[0].who), m[0].actions);
      EvalReads(ApplyAllWord(perm, TargetWord(m[0].who), m[0].actions), m[1..]);
    }
  }

  /** The mask a mode asks for: evaluate what is allowed, take the complement. */
  lemma MaskOf(current: Word, m: Mode)
    ensures Granted(Not(EvalWord(Not(current), m))) == Complement(Eval(Complement(Granted(current)), m))
  {
    NotReads(current);
    EvalReads(Not(current), m);
    NotReads(EvalWord(Not(current), m));
  }

  // --- the scanner ---

  /** Where scanning s from the permissions perm must end up. */
  function Outcome(perm: Word, s: string): Result<Word> {
    match ParseMode(s)
    case Err(e) => Err(e)
    case Ok(m) => Ok(EvalWord(perm, m))
  }

  /** The same with the who letters of the first clause behind us. */
  function ActionsOutcome(perm: Word, who: Word, s: string): Result<Word> {
    match ParseActions(s)
    case Err(e) => Err(e)
    case Ok((actions, after)) =>
      var p := ApplyAllWord(perm, who, actions);
      if after == "" then Ok(p)
      else if after == "," then Err(BadOperator('\0'))
      else Outcome(p, after[1..])
  }

  lemma EvalCons(perm: Word, c: Clause, m: Mode)
    ensures EvalWord(perm, [c] + m) == EvalWord(ApplyAllWord(perm, TargetWord(c.who), c.actions), m)
  {
    assert ([c] + m)[1..] == m;
  }

  lemma ApplyAllCons(perm: Word, who: Word, a: Action, more: seq<Action>)
    ensures ApplyAllWord(perm, who, [a] + more) == ApplyAllWord(ApplyWord(perm, who, a), who, more)
  {
    assert ([a] + more)[1..] == more;
  }

  lemma ClauseStep(perm: Word, s: string)
    ensures var (who, rest) := ParseWho(s);
            Outcome(perm, s) == ActionsOutcome(perm, TargetWord(who), rest)
  {
    if ParseClause(s).Ok? {
      var (c, after) := ParseClause(s).value;
      EvalCons(perm, c, []);
      assert [c] + [] == [c];
      if after != "" && after != "," && ParseMode(after[1..]).Ok? {
        EvalCons(perm, c, ParseMode(after[1..]).value);
      }
    }
  }

  /** One action of a clause. */
  lemma ActionStep(perm: Word, who: Word, s: string)
    requires s != "" && IsOp(s[0])
    ensures var (items, rest) := ParseItems(s[1..]);
            var p := ApplyWord(perm, who, Action(OpOf(s[0]), items));
            ActionsOutcome(perm, who, s) ==
            if rest == "" then Ok(p)
            else if rest[0] == ',' then
              (if rest == "," then Err(BadOperator('\0')) else Outcome(p, rest[1..]))
            else if !IsOp(rest[0]) then Err(BadCharacter(rest[0]))
            else ActionsOutcome(p, who, rest)
  {
    var (items, rest) := ParseItems(s[1..]);
    var action := Action(OpOf(s[0]), items);
    ApplyAllCons(perm, who, action, []);
    assert [action] + [] == [action];
    if rest != "" && rest[0] != ',' && IsOp(rest[0]) && ParseActions(rest).Ok? {
      ApplyAllCons(perm, who, action, ParseActions(rest).value.0);
    }
  }

  /** The who letters, gathered into a word. */
  method ScanWho(s: string, start: nat) returns (who: Word, i: nat)
    requires start <= |s|
    ensures start <= i <= |s| && s[i..] == ParseWho(s[start..]).1
    ensures who == TargetWord(ParseWho(s[start..]).0)
  {
    who, i := ZERO, start;
    while i < |s| && IsWho(s[i])
      invariant start <= i <= |s|
      invariant ParseWho(s[start..]).1 == ParseWho(s[i..]).1
      invariant WhoWord(ZERO, ParseWho(s[start..]).0) == WhoWord(who, ParseWho(s[i..]).0)
    {
      assert s[i..][1..] == s[i + 1..];
      assert ParseWho(s[i..]).0[1..] == ParseWho(s[i + 1..]).0;
      match s[i] {
        case 'u' => who := Or(who, WHO_USER);
        case 'g' => who := Or(who, WHO_GROUP);
        case 'o' => who := Or(who, WHO_OTHER);
        case _ => who := Or(who, ALL_BITS);
      }
      i := i + 1;
    }
    if who == ZERO {
      who := ALL_BITS;
    }
  }

  /** The permission list, gathered into a word. */
  method ScanItems(s: string, start: nat, perm: Word) returns (bits: Word, i: nat)
    requires start <= |s|
    ensures start <= i <= |s| && s[i..] == ParseItems(s[start..]).1
    ensures bits == ItemsWord(perm, ZERO, ParseItems(s[start..]).0)
  {
    bits, i := ZERO, start;
    while i < |s| && IsItem(s[i])
      invariant start <= i <= |s|
      invariant ParseItems(s[start..]).1 == ParseItems(s[i..]).1
      invariant ItemsWord(perm, ZERO, ParseItems(s[start..]).0) == ItemsWord(perm, bits, ParseItems(s[i..]).0)
    {
      assert s[i..][1..] == s[i + 1..];
      assert ParseItems(s[i..]).0[1..] == ParseItems(s[i + 1..]).0;
      var more := MaskOfChar(s[i], perm);
      bits := Or(bits, more);
      i := i + 1;
    }
  }

  method MaskOfChar(c: char, perm: Word) returns (bits: Word)
    requires IsItem(c)
    ensures bits == ItemMask(perm, ItemOf(c))
  {
    match c {
      case 'r' => bits := ALL_READ;
      case 'w' => bits := ALL_WRITE;
      case 'x' => bits := ALL_EXEC;
      case 'X' => bits := if And(perm, ALL_EXEC) != ZERO then ALL_EXEC else ZERO;
      case 's' => bits := ZERO;
      case 't' => bits := ZERO;
      case 'u' => bits := Spread(perm, User);
      case 'g' => bits := Spread(perm, Group);
      case _ => bits := Spread(perm, Other);
    }
  }

  method ApplyOp(op: char, perm: Word, who: Word, bits: Word) returns (p: Word)
    requires IsOp(op)
    ensures p == Combine(OpOf(op), perm, bits, who)
  {
    var named := And(bits, who);
    if op == '+' {
      p := Or(perm, named);
    } else if op == '-' {
      p := And(perm, Not(named));
    } else {
      p := Or(And(perm, Not(who)), named);
    }
  }

  /** One action of a clause, from its operator on. */
  /** What is still to come out as `goal`, with the scanner at `next`. */
  ghost predicate Scanned(goal: Result<Word>, s: string, who: Word, p: Word, next: nat, failed: Option)
    requires next <= |s|
  {
    match failed
    case Some(e) => goal == Err(e)
    case None =>
      if next == |s| then goal == Ok(p)
      else if s[next] == ',' then
        goal == if next + 1 == |s| then Err(BadOperator('\0')) else Outcome(p, s[next + 1..])
      else goal == ActionsOutcome(p, who, s[next..])
  }

  method ScanAction(s: string, start: nat, who: Word, perm: Word) returns (p: Word, next: nat, failed: Option)
    requires start < |s| && IsOp(s[start])
    ensures start < next <= |s|
    ensures Scanned(ActionsOutcome(perm, who, s[start..]), s, who, p, next, failed)
    ensures failed == None && next < |s| ==> s[next] == ',' || IsOp(s[next])
  {
    ActionStep(perm, who, s[start..]);
    assert s[start..][1..] == s[start + 1..];
    var bits;
    bits, next := ScanItems(s, start + 1, perm);
    p := perm;
    if next < |s| && !IsOp(s[next]) && s[next] != ',' {
      return p, next, Some(BadCharacter(s[next]));
    }
    p := ApplyOp(s[start], perm, who, bits);
    if next < |s| {
      assert s[next..][1..] == s[next + 1..];
    }
    return p, next, None;
  }

  /** The actions of one clause; `next` is where the clause after the comma starts, if there is one. */
  method ScanActions(s: string, start: nat, who: Word, allowed: Word)
    returns (perm: Word, next: nat, failed: Option)
    requires start <= |s|
    ensures match failed
            case Some(e) => ActionsOutcome(allowed, who, s[start..]) == Err(e)
            case None =>
              && start < next <= |s|
              && ActionsOutcome(allowed, who, s[start..]) == if next == |s| then Ok(perm) else Outcome(perm, s[next..])
  {
    perm, next := allowed, start;
    if next >= |s| {
      return perm, next, Some(BadOperator('\0'));
    }
    if !IsOp(s[next]) {
      return perm, next, Some(BadOperator(s[next]));
    }
    ghost var goal := ActionsOutcome(allowed, who, s[start..]);
    failed := None;
    var more := true;
    while more
      invariant start <= next <= |s| && (more <==> failed == None && next < |s| && IsOp(s[next]))
      invariant more ==> goal == ActionsOutcome(perm, who, s[next..])
      invariant !more ==> start < next && Scanned(goal, s, who, perm, next, failed)
      invariant !more && failed == None && next < |s| ==> s[next] == ','
      decreases |s| - next, more
    {
      perm, next, failed := ScanAction(s, next, who, perm);
      more := failed == None && next < |s| && s[next] != ',';
    }
    if failed == None && next < |s| {
      next := next + 1;
      if next >= |s| {
        failed := Some(BadOperator('\0'));
      }
    }
  }

  /** One pass, left to right, over the whole string. */
  method ParseSymbolicUmask(s: string, current: Word) returns (r: Result<Word>)
    ensures s == "" ==> r == Ok(current)
    ensures s != "" ==>
              r == match ParseMode(s)
                   case Err(e) => Err(e)
                   case Ok(m) => Ok(Not(EvalWord(Not(current), m)))
  {
    var perm := Not(current);
    var i := 0;
    assert s[0..] == s;
    while i < |s|
      invariant i <= |s|
      invariant s == "" ==> perm == Not(current)
      invariant s != "" ==>
                  Outcome(Not(current), s) == if i < |s| then Outcome(perm, s[i..]) else Ok(perm)
    {
      ClauseStep(perm, s[i..]);
      var who, j := ScanWho(s, i);
      var p, next, failed := ScanActions(s, j, who, perm);
      if failed.Some? {
        return Err(failed.error);
      }
      perm, i := p, next;
    }
    return Ok(Not(perm));
  }

  /**
   * The scanner against the meaning of the grammar: a string is accepted exactly when it is the
   * printed form of a tree, and the mask that comes back takes away exactly what folding the tree's
   * actions over the permissions in force leaves forbidden.
   */
  lemma SymbolicMode(s: string, current: Word)
    ensures ParseMode(s).Ok? <==> exists m :: InGrammar(m) && Print(m) == s
    ensures forall m :: InGrammar(m) && Print(m) == s ==>
              && ParseMode(s) == Ok(m)
              && Granted(Not(EvalWord(Not(current), m))) == Complement(Eval(Complement(Granted(current)), m))
  {
    AcceptsGrammar(s);
    forall m | InGrammar(m) && Print(m) == s
      ensures ParseMode(s) == Ok(m)
      ensures Granted(Not(EvalWord(Not(current), m))) == Complement(Eval(Complement(Granted(current)), m))
    {
      ParsePrint(m);
      MaskOf(current, m);
    }
  }

  // --- octal modes, and the listing that can be run again ---

  predicate IsOctal(s: string) {
    forall i :: 0 <= i < |s| ==> '0' <= s[i] <= '7'
  }

  lemma OctalIsDigits(s: string)
    ensures IsOctal(s) <==> forall c <- s :: c in "01234567"
  {
    forall c | c in s ensures c in "01234567" <==> '0' <= c <= '7' {
      var all := "01234567";
      assert '0' <= c <= '7' ==> all[c as nat - 48] == c;
    }
    assert forall i :: 0 <= i < |s| ==> s[i] in s;
  }

  function OctalValue(s: string): nat
    requires IsOctal(s)
  {
    if s == "" then 0 else 8 * OctalValue(s[..|s| - 1]) + (s[|s| - 1] - '0') as nat
  }

  /** %04o of a mask. */
  function OctalText(n: nat): string
    requires n <= 4095
  {
    [OctalDigit(n / 8 / 8 / 8), OctalDigit(n / 8 / 8 % 8), OctalDigit(n / 8 % 8), OctalDigit(n % 8)]
  }

  function OctalDigit(n: nat): (c: char)
    requires n < 8
    ensures '0' <= c <= '7' && (c - '0') as nat == n
  {
    ('0' as nat + n) as char
  }

  /** What is listed in octal is read back as the same mask. */
  lemma OctalTextReads(n: nat)
    requires n <= 4095
    ensures IsOctal(OctalText(n)) && OctalValue(OctalText(n)) == n
  {
    var a, b, c, d := n / 8 / 8 / 8, n / 8 / 8 % 8, n / 8 % 8, n % 8;
    FourOctal(a, b, c, d);
    assert n == 8 * (n / 8) + d && n / 8 == 8 * (n / 8 / 8) + c && n / 8 / 8 == 8 * a + b;
  }

  lemma FourOctal(a: nat, b: nat, c: nat, d: nat)
    requires a < 8 && b < 8 && c < 8 && d < 8
    ensures var s := [OctalDigit(a), OctalDigit(b), OctalDigit(c), OctalDigit(d)];
            IsOctal(s) && OctalValue(s) == 8 * (8 * (8 * a + b) + c) + d
  {
    var one, two := [OctalDigit(a)], [OctalDigit(a), OctalDigit(b)];
    var three := [OctalDigit(a), OctalDigit(b), OctalDigit(c)];
    OctalEnds("", a);
    OctalEnds(one, b);
    OctalEnds(two, c);
    OctalEnds(three, d);
    assert "" + one == one && one + [OctalDigit(b)] == two && two + [OctalDigit(c)] == three;
    assert three + [OctalDigit(d)] == [OctalDigit(a), OctalDigit(b), OctalDigit(c), OctalDigit(d)];
  }

  lemma OctalEnds(s: string, d: nat)
    requires IsOctal(s) && d < 8
    ensures IsOctal(s + [OctalDigit(d)]) && OctalValue(s + [OctalDigit(d)]) == 8 * OctalValue(s) + d
  {
    assert (s + [OctalDigit(d)])[..|s|] == s;
  }

  lemma {:induction false} LeadingZero(s: string)
    requires IsOctal(s)
    ensures OctalValue("0" + s) == OctalValue(s)
  {
    if s == "" {
      assert "0"[..0] == "";
    } else {
      LeadingZero(s[..|s| - 1]);
      assert ("0" + s)[..|s|] == "0" + s[..|s| - 1];
    }
  }

  /** What each bit of a mask takes away. */
  function Weight(b: Bit): nat {
    match b
    case Bit(User, Read) => 256 case Bit(User, Write) => 128 case Bit(User, Exec) => 64
    case Bit(Group, Read) => 32 case Bit(Group, Write) => 16 case Bit(Group, Exec) => 8
    case Bit(Other, Read) => 4 case Bit(Other, Write) => 2 case Bit(Other, Exec) => 1
  }

  lemma BitsAreOctal(n: nat, b: Bit)
    requires n < 512
    ensures b in Granted(WordOf(n)) <==> n / Weight(b) % 2 == 1
  {
    WeighsIn(WordOf(n), b);
  }

  lemma WeighsIn(p: Word, b: Bit)
    ensures Has(p, b) <==> Value(p) / Weight(b) % 2 == 1
  {
    match b.who {
      case User => UserWeighsIn(p, b.perm);
      case Group => GroupWeighsIn(p, b.perm);
      case Other => OtherWeighsIn(p, b.perm);
    }
  }

  lemma UserWeighsIn(p: Word, perm: Perm)
    ensures Has(p, Bit(User, perm)) <==> Value(p) / Weight(Bit(User, perm)) % 2 == 1
  {
    DigitBits(p.u);
    UserWeights(DigitValue(p.u), 8 * DigitValue(p.g) + DigitValue(p.o));
  }

  lemma GroupWeighsIn(p: Word, perm: Perm)
    ensures Has(p, Bit(Group, perm)) <==> Value(p) / Weight(Bit(Group, perm)) % 2 == 1
  {
    DigitBits(p.g);
    GroupWeights(DigitValue(p.u), DigitValue(p.g), DigitValue(p.o));
  }

  lemma OtherWeighsIn(p: Word, perm: Perm)
    ensures Has(p, Bit(Other, perm)) <==> Value(p) / Weight(Bit(Other, perm)) % 2 == 1
  {
    DigitBits(p.o);
    OtherWeights(8 * DigitValue(p.u) + DigitValue(p.g), DigitValue(p.o));
  }

  lemma DigitBits(d: Digit)
    ensures var v := DigitValue(d); (d.r <==> v / 4 == 1) && (d.w <==> v / 2 % 2 == 1) && (d.x <==> v % 2 == 1)
  {
  }

  lemma UserWeights(u: nat, low: nat)
    requires u < 8 && low < 64
    ensures var n := 64 * u + low; n / 256 % 2 == u / 4 && n / 128 % 2 == u / 2 % 2 && n / 64 % 2 == u % 2
  {
  }

  lemma GroupWeights(u: nat, g: nat, o: nat)
    requires u < 8 && g < 8 && o < 8
    ensures var n := 64 * u + (8 * g + o); n / 32 % 2 == g / 4 && n / 16 % 2 == g / 2 % 2 && n / 8 % 2 == g % 2
  {
    var n := 64 * u + (8 * g + o);
    assert n / 8 == 8 * u + g && n / 16 == 4 * u + g / 2 && n / 32 == 2 * u + g / 4;
  }

  lemma OtherWeights(high: nat, o: nat)
    requires o < 8
    ensures var n := 8 * high + o; n / 4 % 2 == o / 4 && n / 2 % 2 == o / 2 % 2 && n / 1 % 2 == o % 2
  {
    var n := 8 * high + o;
    assert n / 2 == 4 * high + o / 2 && n / 4 == 2 * high + o / 4;
  }

  /** Which of the two a mode is comes down to its first byte. */
  method ParseUmask(s: string, current: nat) returns (r: Result<nat>)
    ensures s == "" ==> r == Err(ExpectedNumber)
    ensures s != "" && '0' <= s[0] <= '9' ==>
              r == if IsOctal(s) && OctalValue(s) <= 4095 then Ok(OctalValue(s)) else Err(OutOfRange)
    ensures s != "" && '0' <= s[0] <= '9' && (exists c <- s :: c !in "01234567") ==> r == Err(OutOfRange)
    ensures s != "" && !('0' <= s[0] <= '9') ==>
              r == match ParseMode(s)
                   case Err(e) => Err(e)
                   case Ok(m) => Ok(Value(Not(EvalWord(Not(WordOf(current)), m))))
  {
    if s == "" {
      return Err(ExpectedNumber);
    }
    if s[0] < '0' || s[0] > '9' {
      var symbolic := ParseSymbolicUmask(s, WordOf(current));
      match symbolic {
        case Ok(mask) => return Ok(Value(mask));
        case Err(e) => return Err(e);
      }
    }
    OctalIsDigits(s);
    if !IsOctal(s) || OctalValue(s) > 4095 {
      return Err(OutOfRange);
    }
    return Ok(OctalValue(s));
  }

  function Grants(d: Digit): seq<Item> {
    (if d.r then [Grant(Read)] else []) + (if d.w then [Grant(Write)] else []) + (if d.x then [Grant(Exec)] else [])
  }

  function Listed(w: Who, d: Digit): Clause {
    Clause([One(w)], [Action(Assign, Grants(d))])
  }

  /** The three clauses -S prints: what remains, not what is masked off. */
  function ModeOf(mask: Word): (m: Mode)
    ensures InGrammar(m)
  {
    var allowed := Not(mask);
    [Listed(User, allowed.u), Listed(Group, allowed.g), Listed(Other, allowed.o)]
  }

  lemma {:induction false} PrintItemsAppend(a: seq<Item>, b: seq<Item>)
    ensures PrintItems(a + b) == PrintItems(a) + PrintItems(b)
  {
    if a == [] {
      assert a + b == b;
    } else {
      PrintItemsAppend(a[1..], b);
      var ab := a + b;
      assert ab[0] == a[0] && ab[1..] == a[1..] + b;
      Regroup([ItemChar(a[0])], PrintItems(a[1..]), PrintItems(b));
    }
  }

  lemma Regroup(a: string, b: string, c: string)
    ensures a + (b + c) == a + b + c
  {
  }

  method Letters(d: Digit) returns (perm: string)
    ensures perm == PrintItems(Grants(d))
  {
    perm := "";
    ghost var r := if d.r then [Grant(Read)] else [];
    ghost var w := if d.w then [Grant(Write)] else [];
    ghost var x := if d.x then [Grant(Exec)] else [];
    PrintItemsAppend(r + w, x);
    PrintItemsAppend(r, w);
    assert forall p :: [Grant(p)][1..] == [];
    if d.r {
      perm := perm + "r";
    }
    if d.w {
      perm := perm + "w";
    }
    if d.x {
      perm := perm + "x";
    }
  }

  lemma PrintListed(w: Who, d: Digit)
    ensures PrintClause(Listed(w, d)) ==
            (match w case User => "u=" case Group => "g=" case Other => "o=") + PrintItems(Grants(d))
  {
    assert PrintWho([One(w)]) == [WhoChar(One(w))] + PrintWho([One(w)][1..]);
    PrintActionsCons(Action(Assign, Grants(d)), []);
    assert [Action(Assign, Grants(d))] + [] == [Action(Assign, Grants(d))];
  }

  method SymbolicUmask(mask: Word) returns (s: string)
    ensures s == Print(ModeOf(mask))
  {
    var allowed := Not(mask);
    var u := Letters(allowed.u);
    var g := Letters(allowed.g);
    var o := Letters(allowed.o);
    s := "u=" + u + "," + ("g=" + g + "," + ("o=" + o));
    PrintListed(User, allowed.u);
    PrintListed(Group, allowed.g);
    PrintListed(Other, allowed.o);
    PrintThree(Listed(User, allowed.u), Listed(Group, allowed.g), Listed(Other, allowed.o));
  }

  lemma {:induction false} PrintThree(c: Clause, d: Clause, e: Clause)
    ensures Print([c, d, e]) == PrintClause(c) + "," + (PrintClause(d) + "," + PrintClause(e))
  {
    var p, q, r := PrintClause(c), PrintClause(d), PrintClause(e);
    assert [c, d, e][1..] == [d, e] && [d, e][1..] == [e];
    assert Print([e]) == r && Print([d, e]) == q + "," + r;
  }

  lemma ListedSets(perm: Word, w: Who, d: Digit)
    ensures ApplyAllWord(perm, TargetWord([One(w)]), [Action(Assign, Grants(d))]) ==
            match w case User => perm.(u := d) case Group => perm.(g := d) case Other => perm.(o := d)
  {
    var a := Action(Assign, Grants(d));
    ApplyAllCons(perm, TargetWord([One(w)]), a, []);
    assert [a] + [] == [a];
    assert [One(w)][1..] == [];
    assert WhoWord(ZERO, [One(w)]) == Or(ZERO, LetterMask(One(w)));
    GrantsWord(perm, d);
  }

  lemma GrantsWord(perm: Word, d: Digit)
    ensures ItemsWord(perm, ZERO, Grants(d)) == Everywhere(d)
  {
    forall b: Bit ensures Has(ItemsWord(perm, ZERO, Grants(d)), b) <==> Has(Everywhere(d), b) {
      ItemsReads(perm, ZERO, Grants(d), b);
      GrantsMean(Granted(perm), d, b);
    }
    assert Granted(ItemsWord(perm, ZERO, Grants(d))) == Granted(Everywhere(d));
    GrantedInjective(ItemsWord(perm, ZERO, Grants(d)), Everywhere(d));
  }

  lemma GrantsMean(perm: iset<Bit>, d: Digit, b: Bit)
    ensures b in ItemsBits(perm, Grants(d)) <==> Has(Everywhere(d), b)
  {
    var r := if d.r then [Grant(Read)] else [];
    var w := if d.w then [Grant(Write)] else [];
    var x := if d.x then [Grant(Exec)] else [];
    ItemsBitsAppend(perm, r + w, x);
    ItemsBitsAppend(perm, r, w);
    assert forall p :: [Grant(p)][1..] == [];
  }

  lemma {:induction false} ItemsBitsAppend(perm: iset<Bit>, a: seq<Item>, b: seq<Item>)
    ensures ItemsBits(perm, a + b) == ItemsBits(perm, a) + ItemsBits(perm, b)
  {
    if a == [] {
      assert a + b == b;
    } else {
      ItemsBitsAppend(perm, a[1..], b);
      assert (a + b)[1..] == a[1..] + b;
    }
  }

  lemma EvalListed(perm: Word, w: Who, d: Digit, m: Mode)
    ensures EvalWord(perm, [Listed(w, d)] + m) ==
            EvalWord(match w case User => perm.(u := d) case Group => perm.(g := d) case Other => perm.(o := d), m)
  {
    EvalCons(perm, Listed(w, d), m);
    ListedSets(perm, w, d);
  }

  lemma EvalModeOf(perm: Word, mask: Word)
    ensures EvalWord(perm, ModeOf(mask)) == Not(mask)
  {
    var p := Not(mask);
    var u, g, o := Listed(User, p.u), Listed(Group, p.g), Listed(Other, p.o);
    EvalListed(perm, User, p.u, [g, o]);
    EvalListed(perm.(u := p.u), Group, p.g, [o]);
    EvalListed(perm.(u := p.u, g := p.g), Other, p.o, []);
    assert [u] + [g, o] == ModeOf(mask) && [g] + [o] == [g, o] && [o] + [] == [o];
  }

  /** `umask -S` prints a mode that, run again under any mask, restores the mask it lists. */
  lemma RerunRestores(mask: Word, current: Word)
    ensures ParseMode(Print(ModeOf(mask))) == Ok(ModeOf(mask))
    ensures Not(EvalWord(Not(current), ModeOf(mask))) == mask
  {
    ParsePrint(ModeOf(mask));
    EvalModeOf(Not(current), mask);
  }

  /** umask u=rwx,g=rx,o= is umask 027. */
  lemma UsualMask(current: Word)
    ensures ParseMode("u=rwx,g=rx,o=").Ok?
    ensures Value(Not(EvalWord(Not(current), ParseMode("u=rwx,g=rx,o=").value))) == 2 * 8 + 7
  {
    var mask := Word(NONE, Digit(false, true, false), FULL);
    UsualListing(mask);
    RerunRestores(mask, current);
  }

  lemma LetterText()
    ensures PrintItems([Grant(Read), Grant(Write), Grant(Exec)]) == "rwx"
    ensures PrintItems([Grant(Read), Grant(Exec)]) == "rx"
  {
    var r, w, x := Grant(Read), Grant(Write), Grant(Exec);
    assert [r, w, x][1..] == [w, x] && [w, x][1..] == [x] && [r, x][1..] == [x] && [x][1..] == [];
    assert PrintItems([x]) == "x" && PrintItems([w, x]) == "wx";
  }

  lemma UsualClauses()
    ensures PrintClause(Listed(User, FULL)) == "u=rwx"
    ensures PrintClause(Listed(Group, Digit(true, false, true))) == "g=rx"
    ensures PrintClause(Listed(Other, NONE)) == "o="
  {
    var r, w, x := Grant(Read), Grant(Write), Grant(Exec);
    LetterText();
    assert Grants(FULL) == [r, w, x] && Grants(Digit(true, false, true)) == [r, x] && Grants(NONE) == [];
    PrintListed(User, FULL);
    PrintListed(Group, Digit(true, false, true));
    PrintListed(Other, NONE);
  }

  lemma UsualListing(mask: Word)
    requires mask == Word(NONE, Digit(false, true, false), FULL)
    ensures Print(ModeOf(mask)) == "u=rwx,g=rx,o="
  {
    UsualClauses();
    PrintThree(Listed(User, FULL), Listed(Group, Digit(true, false, true)), Listed(Other, NONE));
    assert "u=rwx" + "," + ("g=rx" + "," + "o=") == "u=rwx,g=rx,o=";
  }
}
