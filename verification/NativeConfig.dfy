/** internal/promptengine: the keyed store (config.go) and its file format (nativeconfig.go). */
module NativeConfig {
  import opened Options
  import opened Text
  import opened Trimming

  // --- the store ---

  /** What is set. A key is a scalar or a list, never both. */
  datatype Settings = Settings(scalars: map<string, string>, lists: map<string, seq<string>>)

  /** strings.ToUpper, rune by rune. */
  type Upper = char -> char

  function Raised(up: Upper, s: string): (r: string)
    ensures |r| == |s|
  {
    if s == "" then "" else [up(s[0])] + Raised(up, s[1..])
  }

  function TrimPrefix(s: string, prefix: string): string {
    if prefix <= s then s[|prefix|..] else s
  }

  function NormKey(up: Upper, key: string): string {
    TrimPrefix(TrimPrefix(TrimPrefix(Raised(up, TrimSpace(key)), "POWERLEVEL9K_"), "POWERLEVEL10K_"), "P9K_")
  }

  ghost predicate SpelledWith(up: Upper, spelled: string, key: string,
                              lead: string, prefix: string, word: string, trail: string)
  {
    && spelled == lead + word + trail && (forall c <- lead :: IsSpace(c)) && (forall c <- trail :: IsSpace(c))
    && word != "" && !IsSpace(word[0]) && !IsSpace(word[|word| - 1])
    && (prefix == "" || prefix == "POWERLEVEL9K_" || prefix == "POWERLEVEL10K_" || prefix == "P9K_")
    && |word| == |prefix + key| && forall i :: 0 <= i < |word| ==> up(word[i]) == (prefix + key)[i]
  }

  /** The spellings of a key: any case, blanks around it, and none or one of the prefixes. */
  ghost predicate Spells(up: Upper, spelled: string, key: string) {
    exists lead, prefix, word, trail :: SpelledWith(up, spelled, key, lead, prefix, word, trail)
  }

  predicate Bare(key: string) {
    !("POWERLEVEL9K_" <= key) && !("POWERLEVEL10K_" <= key) && !("P9K_" <= key)
  }

  lemma {:induction false} RaisedIs(up: Upper, s: string, t: string)
    requires |s| == |t| && forall i :: 0 <= i < |s| ==> up(s[i]) == t[i]
    ensures Raised(up, s) == t
  {
    if s != "" {
      RaisedIs(up, s[1..], t[1..]);
      assert t == [t[0]] + t[1..];
    }
  }

  lemma PrefixOff(prefix: string, key: string)
    requires Bare(key)
    requires prefix == "" || prefix == "POWERLEVEL9K_" || prefix == "POWERLEVEL10K_" || prefix == "P9K_"
    ensures TrimPrefix(TrimPrefix(TrimPrefix(prefix + key, "POWERLEVEL9K_"), "POWERLEVEL10K_"), "P9K_") == key
  {
    var s := prefix + key;
    assert s[|prefix|..] == key;
    if prefix == "POWERLEVEL10K_" {
      assert s[10] == '1' && "POWERLEVEL9K_"[10] == '9';
    } else if prefix == "P9K_" {
      assert s[1] == '9' && "POWERLEVEL9K_"[1] == 'O' && "POWERLEVEL10K_"[1] == 'O';
    } else if prefix == "" {
      assert s == key;
    }
  }

  /** Every spelling of a key that starts with no prefix of its own is that key. */
  lemma SpellingsAgree(up: Upper, spelled: string, key: string)
    requires Bare(key) && Spells(up, spelled, key)
    ensures NormKey(up, spelled) == key
  {
    var lead, prefix, word, trail :| SpelledWith(up, spelled, key, lead, prefix, word, trail);
    TrimAll(lead, word, trail);
    RaisedIs(up, word, prefix + key);
    PrefixOff(prefix, key);
  }

  function WithScalar(up: Upper, s: Settings, key: string, value: string): Settings {
    var k := NormKey(up, key);
    Settings(s.scalars[k := value], s.lists - {k})
  }

  function WithList(up: Upper, s: Settings, key: string, values: seq<string>): Settings {
    var k := NormKey(up, key);
    Settings(s.scalars - {k}, s.lists[k := values])
  }

  ghost predicate Separate(s: Settings) {
    s.scalars.Keys !! s.lists.Keys
  }

  /** Layering: what `over` sets wins, whole. */
  function Layered(s: Settings, over: Settings): Settings {
    Settings((s.scalars - over.lists.Keys) + (over.scalars - over.lists.Keys),
             (s.lists - over.scalars.Keys) + over.lists)
  }

  class Config {
    const up: Upper
    var scalars: map<string, string>
    var lists: map<string, seq<string>>

    function View(): Settings
      reads this
    {
      Settings(scalars, lists)
    }

    constructor (up: Upper)
      ensures this.up == up && View() == Settings(map[], map[])
    {
      this.up, scalars, lists := up, map[], map[];
    }

    method Set(key: string, value: string)
      modifies this
      ensures View() == WithScalar(up, old(View()), key, value)
    {
      var k := NormKey(up, key);
      lists := lists - {k};
      scalars := scalars[k := value];
    }

    method SetList(key: string, values: seq<string>)
      modifies this
      ensures View() == WithList(up, old(View()), key, values)
    {
      var k := NormKey(up, key);
      scalars := scalars - {k};
      lists := lists[k := values];
    }

    method Merge(over: Settings)
      requires Separate(over)
      modifies this
      ensures View() == Layered(old(View()), over)
    {
      var keys := over.scalars.Keys;
      LayeredNothing(View(), over);
      while keys != {}
        invariant keys <= over.scalars.Keys
        invariant View() == Layered(old(View()), Part(over, keys, over.lists.Keys))
        decreases |keys|
      {
        var k :| k in keys;
        LayeredScalar(old(View()), over, keys, k);
        lists := lists - {k};
        scalars := scalars[k := over.scalars[k]];
        keys := keys - {k};
      }
      keys := over.lists.Keys;
      while keys != {}
        invariant keys <= over.lists.Keys
        invariant View() == Layered(old(View()), Part(over, {}, keys))
        decreases |keys|
      {
        var k :| k in keys;
        LayeredList(old(View()), over, keys, k);
        scalars := scalars - {k};
        lists := lists[k := over.lists[k]];
        keys := keys - {k};
      }
      PartWhole(over);
    }
  }

  /** A layer without some keys. */
  ghost function Part(s: Settings, scalars: set<string>, lists: set<string>): Settings {
    Settings(s.scalars - scalars, s.lists - lists)
  }

  lemma PartWhole(s: Settings)
    ensures Part(s, {}, {}) == s
  {
    assert s.scalars - {} == s.scalars && s.lists - {} == s.lists;
  }

  lemma LayeredNothing(s: Settings, over: Settings)
    ensures Layered(s, Part(over, over.scalars.Keys, over.lists.Keys)) == s
  {
    var nothing := Part(over, over.scalars.Keys, over.lists.Keys);
    assert nothing.scalars == map[] && nothing.lists == map[];
    assert Layered(s, nothing).scalars == s.scalars && Layered(s, nothing).lists == s.lists;
  }

  lemma LayeredScalar(s: Settings, over: Settings, keys: set<string>, k: string)
    requires keys <= over.scalars.Keys && k in keys && Separate(over)
    ensures var was := Layered(s, Part(over, keys, over.lists.Keys));
            Layered(s, Part(over, keys - {k}, over.lists.Keys)) ==
            Settings(was.scalars[k := over.scalars[k]], was.lists - {k})
  {
    LayeredScalarScalars(s, over, keys, k);
    LayeredScalarLists(s, over, keys, k);
  }

  lemma LayeredScalarScalars(s: Settings, over: Settings, keys: set<string>, k: string)
    requires keys <= over.scalars.Keys && k in keys && Separate(over)
    ensures Layered(s, Part(over, keys - {k}, over.lists.Keys)).scalars ==
            Layered(s, Part(over, keys, over.lists.Keys)).scalars[k := over.scalars[k]]
  {
    assert Part(over, keys, over.lists.Keys).lists == map[];
  }

  lemma LayeredScalarLists(s: Settings, over: Settings, keys: set<string>, k: string)
    requires keys <= over.scalars.Keys && k in keys && Separate(over)
    ensures Layered(s, Part(over, keys - {k}, over.lists.Keys)).lists ==
            Layered(s, Part(over, keys, over.lists.Keys)).lists - {k}
  {
  }

  lemma LayeredList(s: Settings, over: Settings, keys: set<string>, k: string)
    requires keys <= over.lists.Keys && k in keys && Separate(over)
    ensures var was := Layered(s, Part(over, {}, keys));
            Layered(s, Part(over, {}, keys - {k})) == Settings(was.scalars - {k}, was.lists[k := over.lists[k]])
  {
    LayeredListScalars(s, over, keys, k);
    LayeredListLists(s, over, keys, k);
  }

  lemma LayeredListScalars(s: Settings, over: Settings, keys: set<string>, k: string)
    requires keys <= over.lists.Keys && k in keys && Separate(over)
    ensures Layered(s, Part(over, {}, keys - {k})).scalars == Layered(s, Part(over, {}, keys)).scalars - {k}
  {
  }

  lemma LayeredListLists(s: Settings, over: Settings, keys: set<string>, k: string)
    requires keys <= over.lists.Keys && k in keys && Separate(over)
    ensures Layered(s, Part(over, {}, keys - {k})).lists == Layered(s, Part(over, {}, keys)).lists[k := over.lists[k]]
  {
  }

  /** What a key is set to: a scalar, a list or nothing. */
  datatype Value = Unset | Scalar(text: string) | List(values: seq<string>)

  function At(s: Settings, k: string): Value {
    if k in s.lists then List(s.lists[k]) else if k in s.scalars then Scalar(s.scalars[k]) else Unset
  }

  lemma LayeredAt(s: Settings, over: Settings, k: string)
    requires Separate(s) && Separate(over)
    ensures At(Layered(s, over), k) == if At(over, k).Unset? then At(s, k) else At(over, k)
  {
  }

  /** A setting is found again under every spelling of its key, and no other setting has changed. */
  lemma SettingIsFound(up: Upper, s: Settings, spelled: string, again: string, key: string, value: string,
                       other: string)
    requires Bare(key) && Spells(up, spelled, key) && Spells(up, again, key)
    ensures At(WithScalar(up, s, spelled, value), NormKey(up, again)) == Scalar(value)
    ensures other != key ==> At(WithScalar(up, s, spelled, value), other) == At(s, other)
  {
    SpellingsAgree(up, spelled, key);
    SpellingsAgree(up, again, key);
  }

  lemma ListIsFound(up: Upper, s: Settings, spelled: string, again: string, key: string, values: seq<string>,
                    other: string)
    requires Bare(key) && Spells(up, spelled, key) && Spells(up, again, key)
    ensures At(WithList(up, s, spelled, values), NormKey(up, again)) == List(values)
    ensures other != key ==> At(WithList(up, s, spelled, values), other) == At(s, other)
  {
    SpellingsAgree(up, spelled, key);
    SpellingsAgree(up, again, key);
  }

  lemma LayeredIsSeparate(s: Settings, over: Settings)
    requires Separate(s) && Separate(over)
    ensures Separate(Layered(s, over))
  {
  }

  lemma SameEverywhere(s: Settings, t: Settings)
    requires Separate(s) && Separate(t) && forall k :: At(s, k) == At(t, k)
    ensures s == t
  {
    forall k ensures k in s.scalars <==> k in t.scalars
             ensures k in s.lists <==> k in t.lists
             ensures k in s.scalars ==> s.scalars[k] == t.scalars[k]
             ensures k in s.lists ==> s.lists[k] == t.lists[k]
    {
      assert At(s, k) == At(t, k);
    }
    assert s.scalars == t.scalars && s.lists == t.lists;
  }

  /** Layers can be merged in any grouping, and a key stays one kind. */
  lemma LayersAssociate(a: Settings, b: Settings, c: Settings)
    requires Separate(a) && Separate(b) && Separate(c)
    ensures Separate(Layered(a, b)) && Layered(Layered(a, b), c) == Layered(a, Layered(b, c))
  {
    LayeredIsSeparate(a, b);
    LayeredIsSeparate(b, c);
    LayeredIsSeparate(Layered(a, b), c);
    LayeredIsSeparate(a, Layered(b, c));
    forall k ensures At(Layered(Layered(a, b), c), k) == At(Layered(a, Layered(b, c)), k) {
      LayeredAt(a, b, k);
      LayeredAt(b, c, k);
      LayeredAt(Layered(a, b), c, k);
      LayeredAt(a, Layered(b, c), k);
    }
    SameEverywhere(Layered(Layered(a, b), c), Layered(a, Layered(b, c)));
  }

  // --- the file format ---

  predicate LooksQuoted(v: string) {
    |v| >= 2 && (v[0] == '"' || v[0] == '\'') && v[|v| - 1] == v[0]
  }

  function Unquote(raw: string): string {
    var v := TrimSpace(raw);
    if LooksQuoted(v) then v[1..|v| - 1] else v
  }

  function Quote(v: string): string {
    if v == "" || (v == TrimSpace(v) && !LooksQuoted(v)) then v else "\"" + v + "\""
  }

  /** Matching quotes come off with the blanks outside them; what is between them stays as it is. */
  lemma QuotesComeOff(lead: string, q: char, v: string, trail: string)
    requires (q == '"' || q == '\'') && (forall c <- lead :: IsSpace(c)) && (forall c <- trail :: IsSpace(c))
    ensures Unquote(lead + ([q] + v + [q]) + trail) == v
  {
    TrimAll(lead, [q] + v + [q], trail);
    assert ([q] + v + [q])[1..|v| + 1] == v;
  }

  /** A value is written in quotes only if it would not come back without them. */
  lemma QuotedOnlyIfNeeded(v: string)
    ensures Quote(v) == v <==> Unquote(v) == v
    ensures Quote(v) != v ==> Quote(v) == "\"" + v + "\""
  {
    TrimRightLess(v);
    TrimLeftShortens(TrimRight(v, IsSpace), IsSpace);
    assert LooksQuoted(TrimSpace(v)) ==> |Unquote(v)| < |TrimSpace(v)|;
  }

  lemma {:induction false} TrimRightLess(s: string)
    ensures |TrimRight(s, IsSpace)| <= |s|
  {
    if s != "" && IsSpace(s[|s| - 1]) { TrimRightLess(s[..|s| - 1]); }
  }

  const LIST_SUFFIX := "_PROMPT_ELEMENTS"

  predicate IsListKey(up: Upper, key: string) {
    var k := NormKey(up, key);
    |LIST_SUFFIX| <= |k| && k[|k| - |LIST_SUFFIX|..] == LIST_SUFFIX
  }

  /** How many characters the first word has. */
  function WordLength(s: string): (n: nat)
    ensures n <= |s| && forall i :: 0 <= i < n ==> !IsSpace(s[i])
    ensures n < |s| ==> IsSpace(s[n])
  {
    if s == "" || IsSpace(s[0]) then 0 else 1 + WordLength(s[1..])
  }

  lemma {:induction false} TrimLeftShortens(s: string, out: char -> bool)
    ensures |TrimLeft(s, out)| <= |s|
    ensures TrimLeft(s, out) != "" ==> !out(TrimLeft(s, out)[0])
    ensures forall c <- TrimLeft(s, out) :: c in s
  {
    if s != "" && out(s[0]) { TrimLeftShortens(s[1..], out); }
  }

  /** strings.Fields. */
  function Fields(s: string): seq<string>
    decreases |s|
  {
    TrimLeftShortens(s, IsSpace);
    var t := TrimLeft(s, IsSpace);
    if t == "" then [] else [t[..WordLength(t)]] + Fields(t[WordLength(t)..])
  }

  function DropReturn(line: string): string {
    if line != "" && line[|line| - 1] == '\r' then line[..|line| - 1] else line
  }

  /** bufio.ScanLines, for lines of any length: no empty last line, and no carriage return at an end. */
  function ScanLines(text: string): seq<string> {
    var lines := Closed(text, '\n') + if Rest(text, '\n') == "" then [] else [Rest(text, '\n')];
    Mapped(DropReturn, lines)
  }

  function Mapped<A, B>(f: A -> B, s: seq<A>): (r: seq<B>)
    ensures |r| == |s| && forall i :: 0 <= i < |s| ==> r[i] == f(s[i])
  {
    seq(|s|, i requires 0 <= i < |s| => f(s[i]))
  }

  datatype Reading = Nothing | NotASetting(text: string) | Setting(key: string, value: string)

  function Read(line: string): Reading {
    var text := TrimSpace(line);
    if text == "" || text[0] == '#' then Nothing
    else
      match Cut(text, '=')
      case None => NotASetting(text)
      case Some((key, value)) => Setting(TrimSpace(key), Unquote(value))
  }

  /** Settings, and the lines (from 1) that are none. */
  datatype Loaded = Loaded(settings: Settings, unsupported: seq<(nat, string)>)

  function Take(up: Upper, l: Loaded, number: nat, reading: Reading): Loaded {
    match reading
    case Nothing => l
    case NotASetting(text) => l.(unsupported := l.unsupported + [(number, text)])
    case Setting(key, value) =>
      l.(settings := if IsListKey(up, key) then WithList(up, l.settings, key, Fields(value))
                     else WithScalar(up, l.settings, key, value))
  }

  const EMPTY := Loaded(Settings(map[], map[]), [])

  type Taker = (Loaded, nat, Reading) -> Loaded

  function Taking(up: Upper): Taker {
    (l: Loaded, number: nat, reading: Reading) => Take(up, l, number, reading)
  }

  /** Lines taken in order, numbered from 1. */
  function Fold(take: Taker, readings: seq<Reading>): Loaded {
    if readings == [] then EMPTY
    else take(Fold(take, readings[..|readings| - 1]), |readings|, readings[|readings| - 1])
  }

  function Load(up: Upper, text: string): Loaded {
    Fold(Taking(up), Mapped(Read, ScanLines(text)))
  }

  lemma FoldNext(take: Taker, readings: seq<Reading>, i: nat)
    requires i < |readings|
    ensures Fold(take, readings[..i + 1]) == take(Fold(take, readings[..i]), i + 1, readings[i])
  {
    assert readings[..i + 1][..i] == readings[..i];
  }

  /** One line of the loop. */
  method TakeLine(cfg: Config, unsupported: seq<(nat, string)>, number: nat, reading: Reading)
    returns (more: seq<(nat, string)>)
    modifies cfg
    ensures Loaded(cfg.View(), more) == Take(cfg.up, Loaded(old(cfg.View()), unsupported), number, reading)
  {
    more := unsupported;
    match reading {
      case Nothing =>
      case NotASetting(t) => more := unsupported + [(number, t)];
      case Setting(key, value) =>
        if IsListKey(cfg.up, key) {
          cfg.SetList(key, Fields(value));
        } else {
          cfg.Set(key, value);
        }
    }
  }

  method LoadConfigFile(up: Upper, text: string) returns (cfg: Config, unsupported: seq<(nat, string)>)
    ensures fresh(cfg) && cfg.up == up && Loaded(cfg.View(), unsupported) == Load(up, text)
  {
    cfg := new Config(up);
    unsupported := [];
    var lines := ScanLines(text);
    ghost var take, readings := Taking(up), Mapped(Read, lines);
    for i := 0 to |lines|
      invariant fresh(cfg) && cfg.up == up
      invariant Loaded(cfg.View(), unsupported) == Fold(take, readings[..i])
    {
      FoldNext(take, readings, i);
      unsupported := TakeLine(cfg, unsupported, i + 1, Read(lines[i]));
    }
    assert readings[..|lines|] == readings;
  }

  // --- what a loaded file holds ---

  /** The key a line sets, and to what; lists are the keys that end in _PROMPT_ELEMENTS. */
  ghost predicate Sets(up: Upper, reading: Reading, k: string, v: Value) {
    && reading.Setting? && NormKey(up, reading.key) == k
    && if exists head :: k == head + "_PROMPT_ELEMENTS" then v == List(Fields(reading.value))
       else v == Scalar(reading.value)
  }

  lemma ListKeyIs(up: Upper, key: string)
    ensures IsListKey(up, key) <==> exists head :: NormKey(up, key) == head + "_PROMPT_ELEMENTS"
  {
    var k := NormKey(up, key);
    if IsListKey(up, key) {
      assert k == k[..|k| - |LIST_SUFFIX|] + LIST_SUFFIX;
    }
    forall head | k == head + LIST_SUFFIX ensures IsListKey(up, key) {
      assert k[|k| - |LIST_SUFFIX|..] == LIST_SUFFIX;
    }
  }

  lemma TakeSets(up: Upper, l: Loaded, number: nat, reading: Reading, k: string, v: Value)
    requires Sets(up, reading, k, v)
    ensures At(Take(up, l, number, reading).settings, k) == v
  {
    ListKeyIs(up, reading.key);
  }

  lemma TakeElsewhere(up: Upper, l: Loaded, number: nat, reading: Reading, k: string)
    requires !SetsKey(up, reading, k)
    ensures At(Take(up, l, number, reading).settings, k) == At(l.settings, k)
  {
  }

  predicate SetsKey(up: Upper, reading: Reading, k: string) {
    reading.Setting? && NormKey(up, reading.key) == k
  }

  /** A line that says nothing of a key leaves it, one that sets it decides it. */
  lemma LastOf(up: Upper, readings: seq<Reading>, k: string)
    requires readings != []
    ensures var n := |readings| - 1;
            var before, after := Fold(Taking(up), readings[..n]), Fold(Taking(up), readings);
            && (!SetsKey(up, readings[n], k) ==> At(after.settings, k) == At(before.settings, k))
            && forall v :: Sets(up, readings[n], k, v) ==> At(after.settings, k) == v
  {
    var n := |readings| - 1;
    var before := Fold(Taking(up), readings[..n]);
    if !SetsKey(up, readings[n], k) {
      TakeElsewhere(up, before, |readings|, readings[n], k);
    }
    forall v | Sets(up, readings[n], k, v)
      ensures At(Take(up, before, |readings|, readings[n]).settings, k) == v
    {
      TakeSets(up, before, |readings|, readings[n], k, v);
    }
  }

  /** Each key has what the last line that sets it says. */
  lemma {:induction false} LastLineWins(up: Upper, readings: seq<Reading>, k: string, i: nat, v: Value)
    requires i < |readings| && Sets(up, readings[i], k, v)
    requires forall j :: i < j < |readings| ==> !SetsKey(up, readings[j], k)
    ensures At(Fold(Taking(up), readings).settings, k) == v
    decreases |readings|
  {
    LastOf(up, readings, k);
    if i < |readings| - 1 {
      LastLineWins(up, readings[..|readings| - 1], k, i, v);
    }
  }

  /** And a key that no line sets is not set. */
  lemma {:induction false} NothingElseIsSet(up: Upper, readings: seq<Reading>, k: string)
    requires forall j :: 0 <= j < |readings| ==> !SetsKey(up, readings[j], k)
    ensures At(Fold(Taking(up), readings).settings, k) == Unset
  {
    if readings != [] {
      var n := |readings| - 1;
      NothingElseIsSet(up, readings[..n], k);
      LastOf(up, readings, k);
    }
  }

  ghost predicate Reported(readings: seq<Reading>, number: nat, text: string) {
    1 <= number <= |readings| && readings[number - 1] == NotASetting(text)
  }

  /** The lines reported are those that are no settings, each once, in their order. */
  lemma {:induction false} OthersAreReported(up: Upper, readings: seq<Reading>)
    ensures var u := Fold(Taking(up), readings).unsupported;
            && (forall number: nat, text :: (number, text) in u <==> Reported(readings, number, text))
            && forall i, j :: 0 <= i < j < |u| ==> u[i].0 < u[j].0
    decreases |readings|
  {
    if readings != [] {
      var n := |readings| - 1;
      var before := readings[..n];
      OthersAreReported(up, before);
      var u, w := Fold(Taking(up), before).unsupported, Fold(Taking(up), readings).unsupported;
      assert w == if readings[n].NotASetting? then u + [(n + 1, readings[n].text)] else u;
      forall i | 0 <= i < |u| ensures u[i].0 <= n {
        assert (u[i].0, u[i].1) in u;
      }
      forall number: nat, text ensures (number, text) in w <==> Reported(readings, number, text) {
        assert Reported(before, number, text) <==> Reported(readings, number, text) && number <= n;
      }
    }
  }

  // --- saving ---

  function RightSide(s: Settings, key: string): string {
    if key in s.lists then Join(s.lists[key], ' ')
    else Quote(if key in s.scalars then s.scalars[key] else "")
  }

  function LineOf(s: Settings, key: string): string {
    key + " = " + RightSide(s, key)
  }

  const TITLE := "# koi prompt configuration"
  const ADVICE := "# Written by " + "`prompt configure`. " + "Edit freely: " + "one setting per line."
  const HEADER := [TITLE, ADVICE, ""]

  /** Keys() in some order; the program sorts them. */
  ghost predicate KeysOf(s: Settings, order: seq<string>) {
    forall k :: k in order <==> k in s.scalars || k in s.lists
  }

  function LinesOf(s: Settings, order: seq<string>): seq<string> {
    HEADER + Mapped(Line(s), order)
  }

  function Line(s: Settings): string -> string {
    k => LineOf(s, k)
  }

  /** Every line ended by a newline. */
  function Flow(lines: seq<string>): string {
    if lines == [] then "" else Flow(lines[..|lines| - 1]) + lines[|lines| - 1] + "\n"
  }

  lemma FlowNext(lines: seq<string>, line: string)
    ensures Flow(lines + [line]) == Flow(lines) + line + "\n"
  {
    assert (lines + [line])[..|lines|] == lines;
  }

  lemma FlowHeader()
    ensures Flow(HEADER) == HEADER[0] + "\n" + HEADER[1] + "\n\n"
  {
    FlowNext([], HEADER[0]);
    FlowNext([HEADER[0]], HEADER[1]);
    FlowNext([HEADER[0], HEADER[1]], "");
    assert [] + [HEADER[0]] == [HEADER[0]] && [HEADER[0]] + [HEADER[1]] == [HEADER[0], HEADER[1]];
    assert [HEADER[0], HEADER[1]] + [""] == HEADER;
  }

  lemma LinesNext(s: Settings, order: seq<string>, i: nat)
    requires i < |order|
    ensures LinesOf(s, order[..i + 1]) == LinesOf(s, order[..i]) + [LineOf(s, order[i])]
  {
    var line := Line(s);
    assert Mapped(line, order[..i + 1]) == Mapped(line, order[..i]) + [line(order[i])];
  }

  lemma FlowLine(s: Settings, order: seq<string>, i: nat)
    requires i < |order|
    ensures Flow(LinesOf(s, order[..i + 1])) == Flow(LinesOf(s, order[..i])) + LineOf(s, order[i]) + "\n"
  {
    LinesNext(s, order, i);
    FlowNext(LinesOf(s, order[..i]), LineOf(s, order[i]));
  }

  method SaveNativeConfig(s: Settings, order: seq<string>) returns (b: string)
    ensures b == Flow(LinesOf(s, order))
  {
    b := HEADER[0] + "\n" + HEADER[1] + "\n\n";
    FlowHeader();
    assert LinesOf(s, order[..0]) == HEADER;
    ghost var flow := (i: nat) requires i <= |order| => Flow(LinesOf(s, order[..i]));
    for i := 0 to |order|
      invariant b == flow(i)
    {
      FlowLine(s, order, i);
      var key := order[i];
      var line := "";
      if key in s.lists {
        line := key + " = " + Join(s.lists[key], ' ');
      } else {
        line := key + " = " + Quote(if key in s.scalars then s.scalars[key] else "");
      }
      b := b + line + "\n";
    }
    assert order[..|order|] == order;
  }

  // --- reading back: lines ---

  lemma {:induction false} ClosedFlow(lines: seq<string>)
    requires forall l <- lines :: '\n' !in l
    ensures Closed(Flow(lines), '\n') == lines && Rest(Flow(lines), '\n') == ""
    decreases |lines|
  {
    if lines != [] {
      var most, last := lines[..|lines| - 1], lines[|lines| - 1];
      ClosedFlow(most);
      var line := last + "\n";
      SplitAppend(Flow(most), line, '\n');
      ClosedHead(last, "", '\n');
      assert last + "\n" + "" == line && Flow(most) + line == Flow(lines);
    }
  }

  lemma ScanFlow(lines: seq<string>)
    requires forall l <- lines :: '\n' !in l
    ensures ScanLines(Flow(lines)) == Mapped(DropReturn, lines)
  {
    ClosedFlow(lines);
    assert lines + [] == lines;
  }

  // --- reading back: one line ---

  lemma {:induction false} TrimRightOfSpace(c: char, v: string)
    requires IsSpace(c)
    ensures TrimSpace([c] + v) == TrimSpace(v)
    decreases |v|
  {
    var s := [c] + v;
    if v == "" {
      assert s[..0] == "" && TrimRight(s, IsSpace) == TrimRight(s[..|s| - 1], IsSpace);
    } else if IsSpace(v[|v| - 1]) {
      assert s[..|s| - 1] == [c] + v[..|v| - 1];
      TrimRightOfSpace(c, v[..|v| - 1]);
    } else {
      assert s[1..] == v;
    }
  }

  /** A character that stays shields each side from the trimming of the other. */
  lemma {:induction false} TrimRightPast(a: string, c: char, b: string)
    requires !IsSpace(c)
    ensures TrimRight(a + [c] + b, IsSpace) == a + [c] + TrimRight(b, IsSpace)
    decreases |b|
  {
    var s := a + [c] + b;
    if b != "" && IsSpace(b[|b| - 1]) {
      assert s[..|s| - 1] == a + [c] + b[..|b| - 1];
      TrimRightPast(a, c, b[..|b| - 1]);
    }
  }

  lemma {:induction false} TrimLeftPast(a: string, c: char, b: string)
    requires !IsSpace(c)
    ensures TrimLeft(a + [c] + b, IsSpace) == TrimLeft(a, IsSpace) + [c] + b
    decreases |a|
  {
    var s := a + [c] + b;
    if a != "" && IsSpace(a[0]) {
      assert s[1..] == a[1..] + [c] + b;
      TrimLeftPast(a[1..], c, b);
    }
  }

  lemma TrimAround(a: string, c: char, b: string)
    requires !IsSpace(c)
    ensures TrimSpace(a + [c] + b) == TrimLeft(a, IsSpace) + [c] + TrimRight(b, IsSpace)
  {
    TrimRightPast(a, c, b);
    TrimLeftPast(a, c, TrimRight(b, IsSpace));
  }

  lemma {:induction false} TrimRightTwice(s: string)
    ensures TrimRight(TrimRight(s, IsSpace), IsSpace) == TrimRight(s, IsSpace)
    decreases |s|
  {
    if s != "" && IsSpace(s[|s| - 1]) { TrimRightTwice(s[..|s| - 1]); }
  }

  lemma {:induction false} TrimAfterLeft(s: string)
    ensures TrimSpace(TrimLeft(s, IsSpace)) == TrimSpace(s)
    decreases |s|
  {
    if s != "" && IsSpace(s[0]) {
      TrimAfterLeft(s[1..]);
      TrimRightOfSpace(s[0], s[1..]);
      assert [s[0]] + s[1..] == s;
    }
  }

  lemma {:induction false} TrimRightKeeps(s: string)
    ensures TrimRight(s, IsSpace) <= s
    decreases |s|
  {
    if s != "" && IsSpace(s[|s| - 1]) { TrimRightKeeps(s[..|s| - 1]); }
  }

  /** What a line starts with: a '#' there makes it a comment. */
  function KeyPart(key: string): string {
    TrimLeft(key + " ", IsSpace)
  }

  predicate Comment(key: string) {
    KeyPart(key) != "" && KeyPart(key)[0] == '#'
  }

  lemma KeyPartIs(key: string)
    requires '=' !in key
    ensures TrimSpace(KeyPart(key)) == TrimSpace(key) && '=' !in KeyPart(key)
  {
    var a := key + " ";
    TrimLeftShortens(a, IsSpace);
    TrimAfterLeft(a);
    assert a[..|a| - 1] == key && TrimRight(a, IsSpace) == TrimRight(key, IsSpace);
  }

  lemma ValuePartIs(v: string)
    ensures TrimSpace(TrimRight(" " + v, IsSpace)) == TrimSpace(v)
  {
    TrimRightTwice(" " + v);
    TrimRightOfSpace(' ', v);
  }

  lemma TrimLine(key: string, v: string)
    ensures TrimSpace(DropReturn(key + " = " + v)) == KeyPart(key) + ['='] + TrimRight(" " + v, IsSpace)
  {
    var line := key + " = " + v;
    assert line == key + " " + ['='] + (" " + v);
    TrimAround(key + " ", '=', " " + v);
    assert TrimSpace(DropReturn(line)) == TrimSpace(line);
  }

  lemma ReadTrimmed(line: string, k: string, r: string)
    requires TrimSpace(line) == k + ['='] + r && '=' !in k
    ensures Read(line) == if k != "" && k[0] == '#' then Nothing else Setting(TrimSpace(k), Unquote(r))
  {
    assert k + ['='] + r == k + (['='] + r);
    CutFirst(k, '=', r);
  }

  /** Whatever the value: the key up to the equals sign, and the value unquoted. */
  lemma ReadLine(key: string, v: string)
    requires '=' !in key
    ensures Read(DropReturn(key + " = " + v)) == if Comment(key) then Nothing else Setting(TrimSpace(key), Unquote(v))
  {
    TrimLine(key, v);
    KeyPartIs(key);
    ValuePartIs(v);
    ReadTrimmed(DropReturn(key + " = " + v), KeyPart(key), TrimRight(" " + v, IsSpace));
  }

  // --- reading back: values ---

  /** Quoting is undone, whatever the value looks like. */
  lemma UnquoteQuote(v: string)
    ensures Unquote(Quote(v)) == v
  {
    if Quote(v) != v {
      var q := "\"" + v + "\"";
      assert q[0] == '"' && q[|q| - 1] == '"' && q[1..|q| - 1] == v;
      assert TrimRight(q, IsSpace) == q && TrimLeft(q, IsSpace) == q;
    }
  }

  predicate Word(s: string) {
    s != "" && forall c <- s :: !IsSpace(c)
  }

  ghost predicate Words(vs: seq<string>) {
    forall v <- vs :: Word(v)
  }

  lemma WordAhead(word: string, rest: string)
    requires Word(word) && (rest == "" || IsSpace(rest[0]))
    ensures Fields(word + rest) == [word] + Fields(rest)
  {
    var s := word + rest;
    assert s[0] == word[0] && !IsSpace(word[0]);
    WordLengthIs(word, rest);
    assert s[..|word|] == word && s[|word|..] == rest;
  }

  lemma {:induction false} WordLengthIs(word: string, rest: string)
    requires (forall c <- word :: !IsSpace(c)) && (rest == "" || IsSpace(rest[0]))
    ensures WordLength(word + rest) == |word|
  {
    if word == "" {
      assert word + rest == rest;
    } else {
      assert (word + rest)[1..] == word[1..] + rest && word[0] in word;
      WordLengthIs(word[1..], rest);
    }
  }

  lemma FieldsPastSpace(s: string)
    ensures Fields(" " + s) == Fields(s)
  {
    assert (" " + s)[1..] == s;
  }

  /** Words joined by spaces come apart again. */
  lemma {:induction false} FieldsJoin(vs: seq<string>)
    requires Words(vs)
    ensures Fields(Join(vs, ' ')) == vs
  {
    if |vs| == 1 {
      assert vs[0] + "" == vs[0];
      WordAhead(vs[0], "");
    } else if |vs| > 1 {
      FieldsJoin(vs[1..]);
      JoinFirst(vs);
      FieldsFirst(vs[0], Join(vs[1..], ' '));
    }
  }

  lemma JoinFirst(vs: seq<string>)
    requires |vs| > 1
    ensures Join(vs, ' ') == vs[0] + (" " + Join(vs[1..], ' '))
  {
  }

  lemma FieldsFirst(word: string, rest: string)
    requires Word(word)
    ensures Fields(word + (" " + rest)) == [word] + Fields(rest)
  {
    WordAhead(word, " " + rest);
    FieldsPastSpace(rest);
  }

  lemma {:induction false} FieldsAreWords(s: string)
    ensures Words(Fields(s))
    decreases |s|
  {
    TrimLeftShortens(s, IsSpace);
    var t := TrimLeft(s, IsSpace);
    if t != "" {
      FieldsAreWords(t[WordLength(t)..]);
    }
  }

  lemma {:induction false} JoinEnds(vs: seq<string>)
    requires Words(vs) && vs != []
    ensures var j := Join(vs, ' '); j != "" && !IsSpace(j[0]) && !IsSpace(j[|j| - 1])
  {
    var v := vs[0];
    assert Word(v) && !IsSpace(v[0]) && !IsSpace(v[|v| - 1]);
    if |vs| > 1 {
      JoinEnds(vs[1..]);
    }
  }

  lemma JoinIsTrim(vs: seq<string>)
    requires Words(vs)
    ensures TrimSpace(Join(vs, ' ')) == Join(vs, ' ')
  {
    if vs != [] { JoinEnds(vs); }
  }

  /** Characters that are not whitespace. */
  function Ink(s: string): nat {
    if s == "" then 0 else (if IsSpace(s[0]) then 0 else 1) + Ink(s[1..])
  }

  function Total(vs: seq<string>): nat {
    if vs == [] then 0 else |vs[0]| + Total(vs[1..])
  }

  lemma {:induction false} InkAppend(a: string, b: string)
    ensures Ink(a + b) == Ink(a) + Ink(b)
  {
    if a == "" {
      assert a + b == b;
    } else {
      assert (a + b)[1..] == a[1..] + b;
      InkAppend(a[1..], b);
    }
  }

  lemma {:induction false} InkOfWord(s: string)
    requires forall c <- s :: !IsSpace(c)
    ensures Ink(s) == |s|
  {
    if s != "" { InkOfWord(s[1..]); }
  }

  lemma {:induction false} InkTrimmed(s: string)
    ensures Ink(TrimLeft(s, IsSpace)) == Ink(s)
  {
    if s != "" && IsSpace(s[0]) { InkTrimmed(s[1..]); }
  }

  /** Fields neither lose nor add any. */
  lemma {:induction false} FieldsInk(s: string)
    ensures Total(Fields(s)) == Ink(s)
    decreases |s|
  {
    TrimLeftShortens(s, IsSpace);
    InkTrimmed(s);
    var t := TrimLeft(s, IsSpace);
    if t != "" {
      var n := WordLength(t);
      FieldsInk(t[n..]);
      InkAppend(t[..n], t[n..]);
      assert t[..n] + t[n..] == t;
      InkOfWord(t[..n]);
    }
  }

  lemma QuotesAreInk(j: string)
    requires LooksQuoted(j)
    ensures Ink(j) == Ink(j[1..|j| - 1]) + 2
  {
    var q, inner := [j[0]], j[1..|j| - 1];
    assert (q + (inner + q))[|j| - 1] == q[0];
    assert j == q + (inner + q);
    InkAppend(q, inner + q);
    InkAppend(inner, q);
    InkOfWord(q);
  }

  /** A list comes back exactly when its elements are words that, joined, do not look quoted. */
  lemma ListComesBack(vs: seq<string>)
    ensures Fields(Unquote(Join(vs, ' '))) == vs <==> Words(vs) && !LooksQuoted(Join(vs, ' '))
  {
    var j := Join(vs, ' ');
    if Words(vs) {
      FieldsJoin(vs);
      JoinIsTrim(vs);
      if LooksQuoted(j) {
        QuotesAreInk(j);
        FieldsInk(j);
        FieldsInk(j[1..|j| - 1]);
      }
    } else {
      FieldsAreWords(Unquote(j));
    }
  }

  // --- reading back: whole files ---

  /** The key is as the store would spell it, and its line is read as its own. */
  predicate KeySurvives(up: Upper, key: string) {
    NormKey(up, key) == key && '=' !in key && '\n' !in key && !(key != "" && key[0] == '#')
  }

  /** A scalar is not under a list's key, a list is, and neither takes more than a line. */
  ghost predicate SettingSurvives(up: Upper, s: Settings, key: string)
    requires key in s.scalars || key in s.lists
  {
    && KeySurvives(up, key)
    && if key in s.lists then
         IsListKey(up, key) && Words(s.lists[key]) && !LooksQuoted(Join(s.lists[key], ' '))
       else !IsListKey(up, key) && '\n' !in s.scalars[key]
  }

  lemma {:induction false} TrimRightShortens(s: string)
    ensures |TrimRight(s, IsSpace)| <= |s| && (|TrimRight(s, IsSpace)| == |s| ==> TrimRight(s, IsSpace) == s)
    decreases |s|
  {
    if s != "" && IsSpace(s[|s| - 1]) { TrimRightShortens(s[..|s| - 1]); }
  }

  lemma {:induction false} TrimLeftFull(s: string)
    ensures |TrimLeft(s, IsSpace)| <= |s| && (|TrimLeft(s, IsSpace)| == |s| ==> TrimLeft(s, IsSpace) == s)
  {
    if s != "" && IsSpace(s[0]) { TrimLeftFull(s[1..]); }
  }

  /** A key that is as the store spells it has nothing to trim. */
  lemma NormalIsTrimmed(up: Upper, key: string)
    requires NormKey(up, key) == key
    ensures TrimSpace(key) == key
  {
    TrimRightShortens(key);
    TrimLeftFull(TrimRight(key, IsSpace));
    assert |NormKey(up, key)| <= |TrimSpace(key)|;
  }

  lemma CommentIsHash(key: string)
    requires TrimSpace(key) == key
    ensures Comment(key) <==> key != "" && key[0] == '#'
  {
    if key == "" {
      assert "" + " " == " " && " "[1..] == "";
    } else {
      FirstStays(key);
      assert (key + " ")[0] == key[0];
    }
  }

  lemma FirstStays(key: string)
    requires TrimSpace(key) == key && key != ""
    ensures !IsSpace(key[0])
  {
    TrimLeftShortens(TrimRight(key, IsSpace), IsSpace);
  }

  lemma {:induction false} JoinIsOneLine(vs: seq<string>)
    requires Words(vs)
    ensures '\n' !in Join(vs, ' ')
  {
    if vs != [] {
      assert Word(vs[0]);
      JoinIsOneLine(vs[1..]);
    }
  }

  /** Reading a value written for this setting gives it back. */
  ghost predicate Restores(s: Settings, key: string, reading: Reading)
    requires key in s.scalars || key in s.lists
  {
    && reading.Setting? && reading.key == key
    && if key in s.lists then Fields(reading.value) == s.lists[key] else reading.value == s.scalars[key]
  }

  /** What is written for a setting that survives is one line, which sets it again. */
  lemma LineSurvives(up: Upper, s: Settings, key: string)
    requires (key in s.scalars || key in s.lists) && SettingSurvives(up, s, key)
    ensures '\n' !in LineOf(s, key) && Restores(s, key, Read(DropReturn(LineOf(s, key))))
  {
    NormalIsTrimmed(up, key);
    CommentIsHash(key);
    ReadLine(key, RightSide(s, key));
    ValueSurvives(up, s, key);
  }

  lemma ValueSurvives(up: Upper, s: Settings, key: string)
    requires (key in s.scalars || key in s.lists) && SettingSurvives(up, s, key)
    ensures '\n' !in RightSide(s, key) && Restores(s, key, Setting(key, Unquote(RightSide(s, key))))
  {
    if key in s.lists {
      ListComesBack(s.lists[key]);
      JoinIsOneLine(s.lists[key]);
    } else {
      UnquoteQuote(s.scalars[key]);
    }
  }

  /** Some of the settings. */
  ghost function Only(s: Settings, ks: set<string>): Settings {
    Settings(map k | k in s.scalars && k in ks :: s.scalars[k], map k | k in s.lists && k in ks :: s.lists[k])
  }

  lemma OneMoreScalar(s: Settings, ks: set<string>, k: string)
    requires Separate(s) && k in s.scalars
    ensures var was := Only(s, ks); Only(s, ks + {k}) == Settings(was.scalars[k := s.scalars[k]], was.lists - {k})
  {
    var was, now := Only(s, ks), Only(s, ks + {k});
    assert now.scalars == was.scalars[k := s.scalars[k]];
    assert now.lists == was.lists - {k};
  }

  lemma OneMoreList(s: Settings, ks: set<string>, k: string)
    requires Separate(s) && k in s.lists
    ensures var was := Only(s, ks); Only(s, ks + {k}) == Settings(was.scalars - {k}, was.lists[k := s.lists[k]])
  {
    var was, now := Only(s, ks), Only(s, ks + {k});
    assert now.scalars == was.scalars - {k};
    assert now.lists == was.lists[k := s.lists[k]];
  }

  lemma TakeSurvivor(up: Upper, s: Settings, ks: set<string>, key: string, number: nat, reading: Reading)
    requires Separate(s) && (key in s.scalars || key in s.lists)
    requires SettingSurvives(up, s, key) && Restores(s, key, reading)
    ensures Take(up, Loaded(Only(s, ks), []), number, reading) == Loaded(Only(s, ks + {key}), [])
  {
    if key in s.lists {
      OneMoreList(s, ks, key);
    } else {
      OneMoreScalar(s, ks, key);
    }
  }

  /** Taking in a reading adds the setting of a key. */
  ghost predicate Adds(take: Taker, s: Settings, key: string, reading: Reading) {
    forall ks: set<string>, n: nat {:trigger take(Loaded(Only(s, ks), []), n, reading)} ::
      take(Loaded(Only(s, ks), []), n, reading) == Loaded(Only(s, ks + {key}), [])
  }

  ghost predicate AddAll(take: Taker, s: Settings, order: seq<string>, readings: seq<Reading>) {
    |readings| == |order| && forall i :: 0 <= i < |order| ==> Adds(take, s, order[i], readings[i])
  }

  ghost predicate PassesOver(take: Taker) {
    forall l, n: nat :: take(l, n, Nothing) == l
  }

  lemma {:induction false} FoldNothing(take: Taker, idle: seq<Reading>)
    requires PassesOver(take) && forall i :: 0 <= i < |idle| ==> idle[i] == Nothing
    ensures Fold(take, idle) == EMPTY
    decreases |idle|
  {
    if idle != [] { FoldNothing(take, idle[..|idle| - 1]); }
  }

  lemma FoldOneMore(take: Taker, readings: seq<Reading>, x: Reading)
    ensures Fold(take, readings + [x]) == take(Fold(take, readings), |readings| + 1, x)
  {
    assert (readings + [x])[..|readings|] == readings;
  }

  lemma {:induction false} FoldKeys(take: Taker, s: Settings, idle: seq<Reading>,
                                    order: seq<string>, readings: seq<Reading>)
    requires PassesOver(take) && (forall i :: 0 <= i < |idle| ==> idle[i] == Nothing)
    requires AddAll(take, s, order, readings)
    ensures Fold(take, idle + readings) == Loaded(Only(s, set k | k in order), [])
    decreases |order|
  {
    if order == [] {
      FoldNothing(take, idle);
      assert idle + readings == idle;
      assert Only(s, set k | k in order) == Settings(map[], map[]);
    } else {
      var n := |order| - 1;
      FoldKeys(take, s, idle, order[..n], readings[..n]);
      assert idle + readings == (idle + readings[..n]) + [readings[n]];
      FoldOneMore(take, idle + readings[..n], readings[n]);
      assert Adds(take, s, order[n], readings[n]);
      OneMoreKey(order, n);
    }
  }

  lemma OneMoreKey(order: seq<string>, n: nat)
    requires |order| == n + 1
    ensures (set k | k in order[..n]) + {order[n]} == set k | k in order
  {
    assert order == order[..n] + [order[n]];
  }

  lemma TitleIsComment()
    ensures Read(DropReturn(TITLE)) == Nothing && '\n' !in TITLE
  {
    CommentLine(TITLE);
  }

  lemma AdviceIsComment()
    ensures Read(DropReturn(ADVICE)) == Nothing && '\n' !in ADVICE
  {
    var a, b, c, d := "# Written by ", "`prompt configure`. ", "Edit freely: ", "one setting per line.";
    assert ADVICE == a + b + c + d;
    assert '\n' !in a && '\n' !in b && '\n' !in c && '\n' !in d;
    CommentLine(a + b + c + d);
  }

  lemma BlankIsNothing()
    ensures Read(DropReturn("")) == Nothing
  {
  }

  lemma HeaderIsComments()
    ensures Idle(HEADER)
  {
    TitleIsComment();
    AdviceIsComment();
    BlankIsNothing();
    IdleThree(TITLE, ADVICE, "");
  }

  lemma IdleThree(a: string, b: string, c: string)
    requires '\n' !in a && '\n' !in b && '\n' !in c
    requires Read(DropReturn(a)) == Read(DropReturn(b)) == Read(DropReturn(c)) == Nothing
    ensures Idle([a, b, c])
  {
  }

  lemma CommentLine(line: string)
    requires line != "" && line[0] == '#' && !IsSpace(line[|line| - 1])
    ensures Read(DropReturn(line)) == Nothing
  {
  }

  ghost predicate AllSurvive(up: Upper, s: Settings) {
    forall k :: k in s.scalars || k in s.lists ==> SettingSurvives(up, s, k)
  }

  /** Lines the reader passes over. */
  ghost predicate Idle(lines: seq<string>) {
    forall l <- lines :: '\n' !in l && Read(DropReturn(l)) == Nothing
  }

  lemma KeyLinesSurvive(up: Upper, s: Settings, order: seq<string>)
    requires AllSurvive(up, s) && KeysOf(s, order)
    ensures forall l <- Mapped(Line(s), order) :: '\n' !in l
  {
    var lines := Mapped(Line(s), order);
    forall i | 0 <= i < |lines| ensures '\n' !in lines[i] {
      assert order[i] in order;
      LineSurvives(up, s, order[i]);
    }
  }

  lemma MappedAppend<A, B>(f: A -> B, a: seq<A>, b: seq<A>)
    ensures Mapped(f, a + b) == Mapped(f, a) + Mapped(f, b)
  {
  }

  /** Everything from the lines on, with the reader of a line left open. */
  lemma SaveLoadOf(take: Taker, read: string -> Reading, drop: string -> string, s: Settings, order: seq<string>,
                   header: seq<string>, lines: seq<string>)
    requires PassesOver(take) && KeysOf(s, order) && |lines| == |order|
    requires forall i :: 0 <= i < |header| ==> read(drop(header[i])) == Nothing
    requires forall i :: 0 <= i < |order| ==> Adds(take, s, order[i], read(drop(lines[i])))
    ensures Fold(take, Mapped(read, Mapped(drop, header + lines))) == Loaded(s, [])
  {
    MappedAppend(drop, header, lines);
    MappedAppend(read, Mapped(drop, header), Mapped(drop, lines));
    FoldKeys(take, s, Mapped(read, Mapped(drop, header)), order, Mapped(read, Mapped(drop, lines)));
    OnlyAll(s, order);
  }

  lemma TakingAdds(up: Upper, s: Settings, key: string, reading: Reading)
    requires Separate(s) && (key in s.scalars || key in s.lists) && SettingSurvives(up, s, key)
    requires Restores(s, key, reading)
    ensures Adds(Taking(up), s, key, reading)
  {
    forall ks: set<string>, n: nat
      ensures Take(up, Loaded(Only(s, ks), []), n, reading) == Loaded(Only(s, ks + {key}), [])
    {
      TakeSurvivor(up, s, ks, key, n, reading);
    }
  }

  lemma LineAdds(up: Upper, s: Settings, key: string)
    requires Separate(s) && (key in s.scalars || key in s.lists) && SettingSurvives(up, s, key)
    ensures Adds(Taking(up), s, key, Read(DropReturn(LineOf(s, key))))
  {
    LineSurvives(up, s, key);
    TakingAdds(up, s, key, Read(DropReturn(LineOf(s, key))));
  }

  lemma LinesAdd(up: Upper, s: Settings, order: seq<string>, lines: seq<string>)
    requires Separate(s) && AllSurvive(up, s) && KeysOf(s, order) && lines == Mapped(Line(s), order)
    ensures forall i :: 0 <= i < |order| ==> Adds(Taking(up), s, order[i], Read(DropReturn(lines[i])))
  {
    forall i | 0 <= i < |order| ensures Adds(Taking(up), s, order[i], Read(DropReturn(lines[i]))) {
      assert order[i] in order && lines[i] == LineOf(s, order[i]);
      LineAdds(up, s, order[i]);
    }
  }

  lemma LoadIs(up: Upper, text: string, lines: seq<string>)
    requires ScanLines(text) == Mapped(DropReturn, lines)
    ensures Load(up, text) == Fold(Taking(up), Mapped(Read, Mapped(DropReturn, lines)))
  {
  }

  lemma SaveLoadUnder(up: Upper, s: Settings, order: seq<string>, header: seq<string>, lines: seq<string>)
    requires Separate(s) && AllSurvive(up, s) && KeysOf(s, order) && Idle(header) && lines == Mapped(Line(s), order)
    ensures Load(up, Flow(header + lines)) == Loaded(s, [])
  {
    KeyLinesSurvive(up, s, order);
    ScanFlow(header + lines);
    LinesAdd(up, s, order, lines);
    LoadIs(up, Flow(header + lines), header + lines);
    SaveLoadOf(Taking(up), Read, DropReturn, s, order, header, lines);
  }

  /** Saving and loading, whatever the order of the keys: the same settings, and nothing to report. */
  lemma SaveLoad(up: Upper, s: Settings, order: seq<string>)
    requires Separate(s) && AllSurvive(up, s) && KeysOf(s, order)
    ensures Load(up, Flow(LinesOf(s, order))) == Loaded(s, [])
  {
    HeaderIsComments();
    SaveLoadUnder(up, s, order, HEADER, Mapped(Line(s), order));
  }

  lemma OnlyAll(s: Settings, order: seq<string>)
    requires KeysOf(s, order)
    ensures Only(s, set k | k in order) == s
  {
    var all := Only(s, set k | k in order);
    assert all.scalars == s.scalars && all.lists == s.lists;
  }

  // --- nothing else comes back ---

  /** Upper-casing makes no separator out of another character. */
  ghost predicate LawfulUpper(up: Upper) {
    forall c :: (up(c) == '\n' ==> c == '\n') && (up(c) == '=' ==> c == '=')
  }

  predicate TameKey(key: string) {
    '\n' !in key && '=' !in key
  }

  predicate TameReading(r: Reading) {
    r.Setting? ==> TameKey(r.key) && '\n' !in r.value
  }

  /** What can be in a loaded file at all. */
  ghost predicate Tame(s: Settings) {
    && (forall k <- s.scalars :: TameKey(k) && '\n' !in s.scalars[k])
    && (forall k <- s.lists :: TameKey(k) && forall v <- s.lists[k] :: '\n' !in v)
  }

  lemma TrimChars(s: string)
    ensures forall c <- TrimSpace(s) :: c in s
  {
    TrimRightKeeps(s);
    TrimLeftShortens(TrimRight(s, IsSpace), IsSpace);
  }

  lemma {:induction false} CutChars(s: string, sep: char)
    ensures var cut := Cut(s, sep);
            cut.Some? ==>
              sep !in cut.value.0 && (forall c <- cut.value.0 :: c in s) && (forall c <- cut.value.1 :: c in s)
  {
    if s != "" && s[0] != sep { CutChars(s[1..], sep); }
  }

  lemma ReadIsTame(line: string)
    requires '\n' !in line
    ensures TameReading(Read(line))
  {
    var text := TrimSpace(line);
    TrimChars(line);
    CutChars(text, '=');
    var cut := Cut(text, '=');
    if cut.Some? {
      TrimChars(cut.value.0);
      TrimChars(cut.value.1);
      assert forall c <- Unquote(cut.value.1) :: c in TrimSpace(cut.value.1);
    }
  }

  lemma {:induction false} RaisedIsTame(up: Upper, s: string)
    requires LawfulUpper(up) && TameKey(s)
    ensures TameKey(Raised(up, s))
  {
    if s != "" { RaisedIsTame(up, s[1..]); }
  }

  lemma NormIsTame(up: Upper, key: string)
    requires LawfulUpper(up) && TameKey(key)
    ensures TameKey(NormKey(up, key))
  {
    TrimChars(key);
    RaisedIsTame(up, TrimSpace(key));
  }

  lemma WordsAreOneLine(vs: seq<string>)
    requires Words(vs)
    ensures forall v <- vs :: '\n' !in v
  {
  }

  lemma TakeKeepsTame(up: Upper, l: Loaded, number: nat, reading: Reading)
    requires LawfulUpper(up) && Tame(l.settings) && TameReading(reading)
    ensures Tame(Take(up, l, number, reading).settings)
  {
    if reading.Setting? {
      NormIsTame(up, reading.key);
      FieldsAreWords(reading.value);
      WordsAreOneLine(Fields(reading.value));
    }
  }

  lemma {:induction false} FoldIsTame(up: Upper, readings: seq<Reading>)
    requires LawfulUpper(up) && forall r <- readings :: TameReading(r)
    ensures Tame(Fold(Taking(up), readings).settings)
    decreases |readings|
  {
    if readings != [] {
      var n := |readings| - 1;
      FoldIsTame(up, readings[..n]);
      TakeKeepsTame(up, Fold(Taking(up), readings[..n]), n + 1, readings[n]);
    }
  }

  lemma ScannedIsLines(text: string)
    ensures forall l <- ScanLines(text) :: '\n' !in l
  {
    SplitParts(text, '\n');
    var lines := Closed(text, '\n') + if Rest(text, '\n') == "" then [] else [Rest(text, '\n')];
    forall i | 0 <= i < |lines| ensures '\n' !in DropReturn(lines[i]) {
      assert lines[i] in Split(text, '\n');
    }
  }

  lemma LoadIsTame(up: Upper, text: string)
    requires LawfulUpper(up)
    ensures Tame(Load(up, text).settings)
  {
    ScannedIsLines(text);
    var lines := ScanLines(text);
    forall i | 0 <= i < |lines| ensures TameReading(Read(lines[i])) {
      ReadIsTame(lines[i]);
    }
    FoldIsTame(up, Mapped(Read, lines));
  }

  lemma TrimSpaceTwice(s: string)
    ensures TrimSpace(TrimSpace(s)) == TrimSpace(s)
  {
    TrimAfterLeft(TrimRight(s, IsSpace));
    TrimRightTwice(s);
  }

  lemma NormTrimmed(up: Upper, key: string)
    ensures NormKey(up, TrimSpace(key)) == NormKey(up, key)
  {
    TrimSpaceTwice(key);
  }

  /** One setting alone. */
  ghost predicate Alone(s: Settings, key: string) {
    || (s.scalars.Keys == {key} && s.lists == map[])
    || (s.lists.Keys == {key} && s.scalars == map[])
  }

  lemma {:induction false} JoinOfLines(vs: seq<string>)
    requires forall v <- vs :: '\n' !in v
    ensures '\n' !in Join(vs, ' ')
  {
    if vs != [] { JoinOfLines(vs[1..]); }
  }

  lemma TameIsLine(s: Settings, key: string)
    requires Alone(s, key) && Tame(s)
    ensures TameKey(key) && '\n' !in LineOf(s, key)
  {
    if key in s.lists {
      JoinOfLines(s.lists[key]);
    } else {
      assert '\n' !in s.scalars[key];
    }
  }

  /** A file with one setting's line under the header. */
  lemma LoadAlone(up: Upper, header: seq<string>, line: string)
    requires Idle(header) && '\n' !in line
    ensures Load(up, Flow(header + [line])).settings == Take(up, EMPTY, |header| + 1, Read(DropReturn(line))).settings
  {
    ScanFlow(header + [line]);
    LoadIs(up, Flow(header + [line]), header + [line]);
    FoldUnder(up, header, line);
  }

  lemma FoldUnder(up: Upper, header: seq<string>, line: string)
    requires Idle(header)
    ensures Fold(Taking(up), Mapped(Read, Mapped(DropReturn, header + [line]))) ==
            Take(up, EMPTY, |header| + 1, Read(DropReturn(line)))
  {
    FoldAlone(Taking(up), Read, DropReturn, header, line);
  }

  lemma FoldAlone(take: Taker, read: string -> Reading, drop: string -> string, header: seq<string>, line: string)
    requires PassesOver(take) && forall i :: 0 <= i < |header| ==> read(drop(header[i])) == Nothing
    ensures Fold(take, Mapped(read, Mapped(drop, header + [line]))) == take(EMPTY, |header| + 1, read(drop(line)))
  {
    var idle := Mapped(read, Mapped(drop, header));
    assert Mapped(read, Mapped(drop, header + [line])) == idle + [read(drop(line))];
    FoldOneMore(take, idle, read(drop(line)));
    FoldNothing(take, idle);
  }

  /** If what was read for its line is the setting, it meets the condition. */
  lemma OnlyIfRestored(up: Upper, s: Settings, key: string, number: nat)
    requires Alone(s, key) && Tame(s)
    requires Take(up, EMPTY, number, Read(DropReturn(LineOf(s, key)))).settings == s
    ensures SettingSurvives(up, s, key)
  {
    assert TameKey(key);
    ReadLine(key, RightSide(s, key));
    NormTrimmed(up, key);
    assert key in s.scalars || key in s.lists;
    assert !Comment(key);
    assert NormKey(up, key) == key;
    NormalIsTrimmed(up, key);
    CommentIsHash(key);
    if key in s.lists {
      ListComesBack(s.lists[key]);
    }
  }

  lemma OnlyIfUnder(up: Upper, s: Settings, key: string, header: seq<string>)
    requires LawfulUpper(up) && Alone(s, key) && Idle(header)
    requires Load(up, Flow(header + [LineOf(s, key)])).settings == s
    ensures SettingSurvives(up, s, key)
  {
    LoadIsTame(up, Flow(header + [LineOf(s, key)]));
    TameIsLine(s, key);
    LoadAlone(up, header, LineOf(s, key));
    OnlyIfRestored(up, s, key, |header| + 1);
  }

  lemma IfUnder(up: Upper, s: Settings, key: string, header: seq<string>)
    requires Alone(s, key) && Idle(header) && SettingSurvives(up, s, key)
    ensures Load(up, Flow(header + [LineOf(s, key)])).settings == s
  {
    assert Mapped(Line(s), [key]) == [LineOf(s, key)];
    SaveLoadUnder(up, s, [key], header, [LineOf(s, key)]);
  }

  /** A setting alone comes back exactly when its key and value meet the condition. */
  lemma OneSettingComesBack(up: Upper, s: Settings, key: string)
    requires LawfulUpper(up) && Alone(s, key)
    ensures Load(up, Flow(LinesOf(s, [key]))).settings == s <==> SettingSurvives(up, s, key)
  {
    HeaderIsComments();
    var header := HEADER;
    assert LinesOf(s, [key]) == header + [LineOf(s, key)];
    if SettingSurvives(up, s, key) {
      IfUnder(up, s, key, header);
    } else if Load(up, Flow(header + [LineOf(s, key)])).settings == s {
      OnlyIfUnder(up, s, key, header);
    }
  }

  lemma {:induction false} RaisedSame(up: Upper, s: string)
    requires forall c <- s :: up(c) == c
    ensures Raised(up, s) == s
  {
    if s != "" { RaisedSame(up, s[1..]); }
  }

  const LEFT := "LEFT" + LIST_SUFFIX

  /** Capital letters and the underscore are their own upper case. */
  ghost predicate KeepsCapitals(up: Upper) {
    forall c :: 'A' <= c <= 'Z' || c == '_' ==> up(c) == c
  }

  lemma LeftIsListKey(up: Upper)
    requires KeepsCapitals(up)
    ensures NormKey(up, LEFT) == LEFT && IsListKey(up, LEFT)
  {
    RaisedSame(up, LEFT);
    assert LEFT[0] == 'L' && TrimSpace(LEFT) == LEFT;
    assert LEFT[|LEFT| - |LIST_SUFFIX|..] == LIST_SUFFIX;
  }

  /** A scalar under a list's key does not come back: it is read as a list. */
  lemma ScalarUnderListKeyIsLost(up: Upper)
    requires LawfulUpper(up) && KeepsCapitals(up)
    ensures var s := Settings(map[LEFT := "dir"], map[]); Load(up, Flow(LinesOf(s, [LEFT]))).settings != s
  {
    var s := Settings(map[LEFT := "dir"], map[]);
    LeftIsListKey(up);
    OneSettingComesBack(up, s, LEFT);
  }
}
