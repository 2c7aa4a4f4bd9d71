/** internal/history/history.go: live history shared by concurrent sessions through one append-only file. */
module History {
  import opened Options
  import opened Text

  const LOAD_MAX := 10000

  /** The fields the store looks at; `rest` stands for the others. */
  datatype Entry = Entry(command: string, session: string, rest: string)

  /** Whitespace between JSON tokens. */
  predicate Blank(s: string) {
    forall c <- s :: c == ' ' || c == '\t' || c == '\r' || c == '\n'
  }

  /** The JSON codec. */
  datatype Codec = Codec(encode: Entry -> string, decode: string -> Option<Entry>) {
    /**
     * An entry takes one line. Blanks in front of it are skipped, anything else there leaves an
     * object that does not end with the text, which is an error.
     */
    ghost predicate Lawful() {
      && (forall e: Entry :: '\n' !in encode(e))
      && (forall e: Entry, before {:trigger before + encode(e)} :: e.command != "" ==>
            decode(before + encode(e)) == if Blank(before) then Some(e) else None)
    }
  }

  /** What a codec gives back of its own lines. */
  lemma DecodeEncode(c: Codec, e: Entry)
    requires c.Lawful() && e.command != ""
    ensures c.decode(c.encode(e)) == Some(e)
  {
    assert "" + c.encode(e) == c.encode(e);
  }

  /** The entry on a line, if it is not corrupt and has a command. */
  function EntryOn(c: Codec, line: string): seq<Entry> {
    match c.decode(line)
    case None => []
    case Some(e) => if e.command == "" then [] else [e]
  }

  /** The decodable entries on a list of lines. */
  function EntriesOn(c: Codec, lines: seq<string>): seq<Entry> {
    if lines == [] then [] else EntryOn(c, lines[0]) + EntriesOn(c, lines[1..])
  }

  /** The decodable entries on the complete lines of data. */
  function Entries(c: Codec, data: string): seq<Entry> {
    EntriesOn(c, Closed(data, '\n'))
  }

  /** How many bytes the complete lines take. */
  function Complete(data: string): (n: nat)
    ensures n <= |data|
  {
    RestIsSuffix(data, '\n');
    |data| - |Rest(data, '\n')|
  }

  /** The data ends where a line does. */
  predicate AtBoundary(data: string) {
    Rest(data, '\n') == ""
  }

  /** The entries of a session, or all but its own. */
  function Select(es: seq<Entry>, session: string, own: bool): seq<Entry> {
    if es == [] then []
    else (if (es[0].session == session) == own then [es[0]] else []) + Select(es[1..], session, own)
  }

  /** skipSession "" skips nobody. */
  function Fresh(es: seq<Entry>, skip: string): seq<Entry> {
    if skip == "" then es else Select(es, skip, false)
  }

  lemma {:induction false} SelectAppend(a: seq<Entry>, b: seq<Entry>, session: string, own: bool)
    ensures Select(a + b, session, own) == Select(a, session, own) + Select(b, session, own)
  {
    if a == [] {
      assert a + b == b;
    } else {
      SelectAppend(a[1..], b, session, own);
      assert (a + b)[1..] == a[1..] + b;
      var head := if (a[0].session == session) == own then [a[0]] else [];
      var x, y := Select(a[1..], session, own), Select(b, session, own);
      Assoc(head, x, y);
    }
  }

  lemma FreshAppend(a: seq<Entry>, b: seq<Entry>, skip: string)
    ensures Fresh(a + b, skip) == Fresh(a, skip) + Fresh(b, skip)
  {
    SelectAppend(a, b, skip, false);
  }

  /** Skipping splits the entries in two. */
  lemma {:induction false} SelectSplits(es: seq<Entry>, session: string)
    ensures multiset(Select(es, session, false)) + multiset(Select(es, session, true)) == multiset(es)
  {
    if es != [] {
      SelectSplits(es[1..], session);
      assert es == [es[0]] + es[1..];
    }
  }

  lemma {:induction false} EntriesOnAppend(c: Codec, a: seq<string>, b: seq<string>)
    ensures EntriesOn(c, a + b) == EntriesOn(c, a) + EntriesOn(c, b)
  {
    if a == [] {
      assert a + b == b;
    } else {
      EntriesOnAppend(c, a[1..], b);
      var ab := a + b;
      assert ab[0] == a[0] && ab[1..] == a[1..] + b;
      assert EntriesOn(c, ab) == EntryOn(c, a[0]) + EntriesOn(c, a[1..] + b);
      Assoc(EntryOn(c, a[0]), EntriesOn(c, a[1..]), EntriesOn(c, b));
    }
  }

  /** What is appended at a line boundary is read on its own. */
  lemma EntriesAppend(c: Codec, a: string, b: string)
    requires AtBoundary(a)
    ensures Entries(c, a + b) == Entries(c, a) + Entries(c, b)
    ensures Complete(a + b) == |a| + Complete(b)
    ensures AtBoundary(a + b) <==> AtBoundary(b)
  {
    SplitAppend(a, b, '\n');
    EntriesOnAppend(c, Closed(a, '\n'), Closed(b, '\n'));
  }

  /** One line in front. */
  lemma EntriesHead(c: Codec, line: string, rest: string)
    requires '\n' !in line
    ensures Entries(c, line + "\n" + rest) == EntryOn(c, line) + Entries(c, rest)
    ensures Complete(line + "\n" + rest) == |line| + 1 + Complete(rest)
    ensures AtBoundary(line + "\n" + rest) <==> AtBoundary(rest)
  {
    ClosedHead(line, rest, '\n');
    assert ([line] + Closed(rest, '\n'))[1..] == Closed(rest, '\n');
  }

  lemma EntriesLine(c: Codec, line: string)
    requires '\n' !in line
    ensures Entries(c, line + "\n") == EntryOn(c, line) && AtBoundary(line + "\n")
  {
    EntriesHead(c, line, "");
    assert line + "\n" + "" == line + "\n";
    assert Split("", '\n') == [""];
  }

  method IndexByte(data: string, start: nat, b: char) returns (i: int)
    requires start <= |data|
    ensures i < 0 ==> b !in data[start..]
    ensures i >= 0 ==> start + i < |data| && data[start + i] == b && b !in data[start..start + i]
  {
    var k := start;
    while k < |data|
      invariant start <= k <= |data| && b !in data[start..k]
    {
      if data[k] == b {
        return k - start;
      }
      k := k + 1;
    }
    return -1;
  }

  lemma NothingComplete(c: Codec, data: string)
    requires '\n' !in data
    ensures Entries(c, data) == [] && Complete(data) == 0
  {
    SplitPlain(data, '\n');
  }

  /** What has been taken in so far, and what is still ahead, make up the whole. */
  ghost predicate Consuming(c: Codec, data: string, skip: string, at: nat, taken: seq<Entry>) {
    && at <= |data|
    && Complete(data) == at + Complete(data[at..])
    && Fresh(Entries(c, data), skip) == taken + Fresh(Entries(c, data[at..]), skip)
  }

  lemma ConsumingStarts(c: Codec, data: string, skip: string)
    ensures Consuming(c, data, skip, 0, [])
  {
    assert data[0..] == data;
    var es := Fresh(Entries(c, data), skip);
    assert [] + es == es;
  }

  lemma ConsumingLine(c: Codec, data: string, skip: string, at: nat, taken: seq<Entry>, nl: nat)
    requires Consuming(c, data, skip, at, taken)
    requires at + nl < |data| && data[at + nl] == '\n' && '\n' !in data[at..at + nl]
    ensures Consuming(c, data, skip, at + nl + 1, taken + Fresh(EntryOn(c, data[at..at + nl]), skip))
  {
    ConsumeStep(c, data, at, nl, skip);
    var here := Fresh(EntryOn(c, data[at..at + nl]), skip);
    var ahead := Fresh(Entries(c, data[at + nl + 1..]), skip);
    Assoc(taken, here, ahead);
    assert at + (nl + 1) == at + nl + 1;
  }

  lemma ConsumingEnds(c: Codec, data: string, skip: string, at: nat, taken: seq<Entry>)
    requires Consuming(c, data, skip, at, taken) && '\n' !in data[at..]
    ensures taken == Fresh(Entries(c, data), skip) && at == Complete(data)
  {
    SplitPlain(data[at..], '\n');
    assert taken + [] == taken;
  }

  method ConsumeLines(c: Codec, data: string, skip: string) returns (entries: seq<Entry>, consumed: nat)
    ensures entries == Fresh(Entries(c, data), skip) && consumed == Complete(data)
  {
    entries, consumed := [], 0;
    ConsumingStarts(c, data, skip);
    while true
      invariant Consuming(c, data, skip, consumed, entries)
      decreases |data| - consumed
    {
      var nl := IndexByte(data, consumed, '\n');
      if nl < 0 {
        ConsumingEnds(c, data, skip, consumed, entries);
        break;
      }
      ConsumingLine(c, data, skip, consumed, entries, nl);
      var line := data[consumed..consumed + nl];
      consumed := consumed + nl + 1;
      var kept := TakeLine(c, line, skip);
      entries := entries + kept;
    }
  }

  /** A corrupt line and one of the skipped session's add nothing. */
  method TakeLine(c: Codec, line: string, skip: string) returns (kept: seq<Entry>)
    ensures kept == Fresh(EntryOn(c, line), skip)
  {
    var e := c.decode(line);
    if e.None? || e.value.command == "" {
      return [];
    }
    assert EntryOn(c, line) == [e.value] && [e.value][1..] == [];
    assert Select([e.value], skip, false) ==
           (if (e.value.session == skip) == false then [e.value] else []) + Select([e.value][1..], skip, false);
    if skip != "" && e.value.session == skip {
      return [];
    }
    return [e.value];
  }

  lemma ConsumeStep(c: Codec, data: string, at: nat, nl: nat, skip: string)
    requires at + nl < |data| && data[at + nl] == '\n' && '\n' !in data[at..at + nl]
    ensures Complete(data[at..]) == nl + 1 + Complete(data[at + nl + 1..])
    ensures Fresh(Entries(c, data[at..]), skip) ==
            Fresh(EntryOn(c, data[at..at + nl]), skip) + Fresh(Entries(c, data[at + nl + 1..]), skip)
  {
    var line, rest := data[at..at + nl], data[at + nl + 1..];
    assert data[at..] == line + "\n" + rest;
    EntriesHead(c, line, rest);
    FreshAppend(EntryOn(c, line), Entries(c, rest), skip);
  }

  // --- the reader, as far as sessions depend on it ---

  /** Lines in, entries out: what the functions above compute, with their laws and nothing else. */
  datatype Reader = Reader(
    entries: string -> seq<Entry>,   // on the complete lines
    complete: string -> nat,         // how many bytes those take
    boundary: string -> bool,        // the data ends where a line does
    line: string -> seq<Entry>,      // on one line
    encode: Entry -> string)
  {
    ghost predicate Appends() {
      forall a, b {:trigger entries(a + b)} :: boundary(a) ==> entries(a + b) == entries(a) + entries(b)
    }

    ghost predicate Bounds() {
      && boundary("") && entries("") == []
      && forall a, b {:trigger boundary(a + b)} :: boundary(a) ==> (boundary(a + b) <==> boundary(b))
    }

    ghost predicate Completes() {
      forall d {:trigger complete(d)} ::
        complete(d) <= |d| && boundary(d[..complete(d)]) && entries(d[..complete(d)]) == entries(d)
    }

    ghost predicate AtEnd() {
      forall d {:trigger complete(d)} :: boundary(d) ==> complete(d) == |d|
    }

    ghost predicate Lines() {
      forall l :: '\n' !in l ==> boundary(l + "\n") && entries(l + "\n") == line(l)
    }

    ghost predicate Encodes() {
      forall e: Entry :: '\n' !in encode(e) && (e.command != "" ==> line(encode(e)) == [e])
    }

    ghost predicate Lawful() {
      Appends() && Bounds() && Completes() && AtEnd() && Lines() && Encodes()
    }
  }

  function ReaderOf(c: Codec): Reader {
    Reader(d => Entries(c, d), d => Complete(d), d => AtBoundary(d), l => EntryOn(c, l), c.encode)
  }

  /** Only the complete lines of data count. */
  lemma ClosedOnly(c: Codec, data: string)
    ensures Entries(c, data[..Complete(data)]) == Entries(c, data) && AtBoundary(data[..Complete(data)])
  {
    CutIsClosed(data, '\n');
    RestIsSuffix(data, '\n');
    var taken, rest := data[..Complete(data)], Rest(data, '\n');
    assert taken + rest == data;
    EntriesAppend(c, taken, rest);
    NothingComplete(c, rest);
    assert Entries(c, taken) + [] == Entries(c, taken);
  }

  lemma ReaderAppends(c: Codec)
    ensures ReaderOf(c).Appends() && ReaderOf(c).Bounds()
  {
    forall a, b | AtBoundary(a)
      ensures Entries(c, a + b) == Entries(c, a) + Entries(c, b) && (AtBoundary(a + b) <==> AtBoundary(b))
    {
      EntriesAppend(c, a, b);
    }
    NothingComplete(c, "");
  }

  lemma ReaderCompletes(c: Codec)
    ensures ReaderOf(c).Completes() && ReaderOf(c).AtEnd()
  {
    forall d
      ensures Entries(c, d[..Complete(d)]) == Entries(c, d) && AtBoundary(d[..Complete(d)])
    {
      ClosedOnly(c, d);
    }
  }

  lemma ReaderLines(c: Codec)
    requires c.Lawful()
    ensures ReaderOf(c).Lines() && ReaderOf(c).Encodes()
  {
    forall l | '\n' !in l ensures Entries(c, l + "\n") == EntryOn(c, l) && AtBoundary(l + "\n") {
      EntriesLine(c, l);
    }
    forall e: Entry | e.command != "" ensures EntryOn(c, c.encode(e)) == [e] {
      DecodeEncode(c, e);
    }
  }

  lemma ReaderLawful(c: Codec)
    requires c.Lawful()
    ensures ReaderOf(c).Lawful()
  {
    ReaderAppends(c);
    ReaderCompletes(c);
    ReaderLines(c);
  }

  // --- a session's store ---

  /** `all` is what the store has taken in before any cap, which `entries` is the tail of. */
  datatype Store = Store(session: string, loaded: nat, entries: seq<Entry>, all: seq<Entry>)

  function Capped(entries: seq<Entry>): (r: seq<Entry>)
    ensures |r| <= LOAD_MAX && |r| <= |entries| && r == entries[|entries| - |r|..]
  {
    if |entries| > LOAD_MAX then entries[|entries| - LOAD_MAX..] else entries
  }

  /** The last n, or all there are. */
  ghost predicate IsLast(es: seq<Entry>, n: nat, all: seq<Entry>) {
    (|es| == n || |es| == |all|) && |es| <= n && |es| <= |all| && es == all[|all| - |es|..]
  }

  lemma CappedIsLast(all: seq<Entry>)
    ensures IsLast(Capped(all), 10000, all)
  {
  }

  function Opened(r: Reader, file: string): Store {
    Store("", r.complete(file), Capped(r.entries(file)), r.entries(file))
  }

  function TakeIn(s: Store, news: seq<Entry>, consumed: nat): Store {
    Store(s.session, s.loaded + consumed, Capped(s.entries + news), s.all + news)
  }

  /** reload, when the read returns n bytes past what is loaded. */
  function Reloaded(r: Reader, s: Store, file: string, n: nat): Store
    requires s.loaded + n <= |file|
  {
    if |file| == s.loaded then s
    else
      var data := file[s.loaded..s.loaded + n];
      TakeIn(s, Fresh(r.entries(data), s.session), r.complete(data))
  }

  function LineOf(r: Reader, e: Entry): string {
    r.encode(e) + "\n"
  }

  /** Append, when the entry is stored and the file was `file` before the write. */
  function Appended(r: Reader, s: Store, file: string, e: Entry): Store {
    Store(s.session, if |file| == s.loaded then s.loaded + |LineOf(r, e)| else s.loaded, s.entries + [e], s.all + [e])
  }

  /** The part of reload after the read. */
  method ConsumeRead(c: Codec, ghost s: Store, session: string, loaded: nat, file: string, n: nat)
    returns (news: seq<Entry>, consumed: nat)
    requires s.session == session && s.loaded == loaded && loaded + n <= |file| && |file| != loaded
    ensures Reloaded(ReaderOf(c), s, file, n) == TakeIn(s, news, consumed)
    ensures news == Fresh(Entries(c, file[loaded..loaded + n]), session)
  {
    var data := file[loaded..loaded + n];
    news, consumed := ConsumeLines(c, data, session);
    ReloadTakesIn(c, s, file, n, data, news, consumed);
  }

  lemma ReloadTakesIn(c: Codec, s: Store, file: string, n: nat, data: string, news: seq<Entry>, consumed: nat)
    requires s.loaded + n <= |file| && |file| != s.loaded && data == file[s.loaded..s.loaded + n]
    requires news == Fresh(Entries(c, data), s.session) && consumed == Complete(data)
    ensures Reloaded(ReaderOf(c), s, file, n) == TakeIn(s, news, consumed)
  {
  }

  /** The file, and the handle all sessions append to. */
  class File {
    var data: string

    constructor ()
      ensures data == ""
    {
      data := "";
    }
  }

  datatype Skip = SkipNone | SkipEmpty | SkipPrivate | SkipDuplicate | SkipSecret

  class HistoryStore {
    const codec: Codec
    const file: File
    const secret: string -> bool  // the scrubbing rules
    var session: string
    var loaded: nat
    var entries: seq<Entry>
    ghost var all: seq<Entry>

    ghost function View(): Store
      reads this
    {
      Store(session, loaded, entries, all)
    }

    constructor Open(codec: Codec, file: File, secret: string -> bool)
      ensures View() == Opened(ReaderOf(codec), file.data)
      ensures this.codec == codec && this.file == file && this.secret == secret
    {
      this.codec, this.file, this.secret := codec, file, secret;
      session := "";
      var es, consumed := ConsumeLines(codec, file.data, "");
      loaded := consumed;
      entries := Capped(es);
      all := es;
    }

    method SetSession(id: string)
      modifies this
      ensures View() == old(View()).(session := id)
    {
      session := id;
    }

    /** The read past `loaded` may return fewer bytes than the file has: any n up to that. */
    method Reload(n: nat)
      requires loaded + n <= |file.data|
      modifies this
      ensures View() == Reloaded(ReaderOf(codec), old(View()), file.data, n)
      ensures |file.data| == old(loaded) ==> View() == old(View())
      ensures |file.data| > old(loaded) ==>
                var news := Fresh(Entries(codec, file.data[old(loaded)..old(loaded) + n]), session);
                all == old(all) + news && IsLast(entries, 10000, old(entries) + news)
    {
      if |file.data| <= loaded {
        return;
      }
      var news, consumed := ConsumeRead(codec, View(), session, loaded, file.data, n);
      loaded := loaded + consumed;
      CappedIsLast(entries + news);
      entries := Capped(entries + news);
      all := all + news;
    }

    method Append(e: Entry) returns (skip: Skip)
      modifies this, file
      ensures skip == SkipEmpty <==> e.command == ""
      ensures skip == SkipPrivate <==> e.command != "" && e.command[0] == ' '
      ensures skip == SkipSecret <==> e.command != "" && e.command[0] != ' ' && secret(e.command)
      ensures skip == SkipDuplicate <==>
                && e.command != "" && e.command[0] != ' ' && !secret(e.command)
                && |old(entries)| > 0 && old(entries)[|old(entries)| - 1].command == e.command
      ensures if skip == SkipNone then
                && file.data == old(file.data) + LineOf(ReaderOf(codec), e)
                && View() == Appended(ReaderOf(codec), old(View()), old(file.data), e)
              else file.data == old(file.data) && View() == old(View())
    {
      if e.command == "" {
        return SkipEmpty;
      }
      if e.command[0] == ' ' {
        return SkipPrivate;
      }
      if secret(e.command) {
        return SkipSecret;
      }
      if |entries| > 0 && entries[|entries| - 1].command == e.command {
        return SkipDuplicate;
      }
      var line := codec.encode(e);
      var pre := |file.data|;
      file.data := file.data + line + "\n";
      assert old(file.data) + line + "\n" == old(file.data) + LineOf(ReaderOf(codec), e);
      if pre == loaded {
        loaded := loaded + |line| + 1;
      }
      entries := entries + [e];
      all := all + [e];
      return SkipNone;
    }
  }

  // --- all sessions together ---

  datatype World = World(file: string, stores: map<string, Store>)

  /** Session ids are unique and not empty; writes are whole lines, and position plus write is one step. */
  datatype Step =
    | Join(id: string)                    // Open, then SetSession
    | Append(id: string, e: Entry)        // an Append that stores
    | Reload(id: string, n: nat)          // reload, reading n bytes
    | Foreign(line: string)               // a line from a session outside the model

  ghost predicate Enabled(r: Reader, w: World, s: Step) {
    match s
    case Join(id) => id != "" && id !in w.stores
    case Append(id, e) => id in w.stores && e.session == id && e.command != ""
    case Reload(id, n) => id in w.stores && w.stores[id].loaded + n <= |w.file|
    case Foreign(line) => '\n' !in line && forall e <- r.line(line) :: e.session !in w.stores
  }

  ghost function Next(r: Reader, w: World, s: Step): World
    requires Enabled(r, w, s)
  {
    match s
    case Join(id) => w.(stores := w.stores[id := Opened(r, w.file).(session := id)])
    case Append(id, e) =>
      World(w.file + LineOf(r, e), w.stores[id := Appended(r, w.stores[id], w.file, e)])
    case Reload(id, n) => w.(stores := w.stores[id := Reloaded(r, w.stores[id], w.file, n)])
    case Foreign(line) => w.(file := w.file + (line + "\n"))
  }

  /** The cap has only dropped the oldest, and only down to its limit. */
  ghost predicate TailOf(entries: seq<Entry>, all: seq<Entry>) {
    && |entries| <= |all| && entries == all[|all| - |entries|..]
    && (|entries| == |all| || |entries| >= LOAD_MAX)
  }

  /**
   * `all` has others' entries of the part before the boundary, in file order, and the session's own
   * of the whole file, in file order.
   */
  ghost predicate Holds(r: Reader, session: string, all: seq<Entry>, before: string, after: string) {
    && r.boundary(before)
    && Select(all, session, false) == Select(r.entries(before), session, false)
    && Select(all, session, true) ==
         Select(r.entries(before), session, true) + Select(r.entries(after), session, true)
  }

  /** So nothing is missing and nothing is there twice. */
  lemma HoldsAll(r: Reader, session: string, all: seq<Entry>, before: string, after: string)
    requires Holds(r, session, all, before, after)
    ensures multiset(all) == multiset(r.entries(before)) + multiset(Select(r.entries(after), session, true))
  {
    SelectSplits(all, session);
    SelectSplits(r.entries(before), session);
  }

  /** Nothing lost, nothing twice. */
  ghost predicate Consistent(r: Reader, s: Store, file: string) {
    && s.loaded <= |file| && Holds(r, s.session, s.all, file[..s.loaded], file[s.loaded..])
    && TailOf(s.entries, s.all)
  }

  ghost predicate Inv(r: Reader, w: World) {
    && r.boundary(w.file)
    && forall id <- w.stores :: id != "" && w.stores[id].session == id && Consistent(r, w.stores[id], w.file)
  }

  lemma Together(r: Reader, a: string, b: string)
    requires r.Appends() && r.Bounds() && r.boundary(a)
    ensures r.entries(a + b) == r.entries(a) + r.entries(b)
    ensures r.boundary(a + b) <==> r.boundary(b)
  {
    var both := a + b;
    assert r.entries(a + b) == r.entries(both) && r.boundary(a + b) == r.boundary(both);
  }

  /** Both sides of a loaded boundary end at one. */
  lemma SplitAtLoaded(r: Reader, file: string, loaded: nat)
    requires r.Appends() && r.Bounds()
    requires loaded <= |file| && r.boundary(file) && r.boundary(file[..loaded])
    ensures r.boundary(file[loaded..])
    ensures r.entries(file) == r.entries(file[..loaded]) + r.entries(file[loaded..])
  {
    Together(r, file[..loaded], file[loaded..]);
    assert file[..loaded] + file[loaded..] == file;
  }

  lemma GrownTail(r: Reader, file: string, loaded: nat, line: string)
    requires r.Appends() && r.Bounds() && r.Lines()
    requires loaded <= |file| && r.boundary(file) && r.boundary(file[..loaded]) && '\n' !in line
    ensures var grown := file + (line + "\n");
            && r.boundary(grown) && grown[..loaded] == file[..loaded]
            && r.entries(grown[loaded..]) == r.entries(file[loaded..]) + r.line(line)
  {
    SplitAtLoaded(r, file, loaded);
    Together(r, file[loaded..], line + "\n");
    Together(r, file, line + "\n");
    assert (file + (line + "\n"))[loaded..] == file[loaded..] + (line + "\n");
  }

  lemma {:induction false} SelectNone(es: seq<Entry>, session: string)
    requires forall e <- es :: e.session != session
    ensures Select(es, session, true) == [] && Select(es, session, false) == es
  {
    if es != [] {
      SelectNone(es[1..], session);
      assert es == [es[0]] + es[1..];
    }
  }

  lemma {:induction false} SelectedAreOthers(es: seq<Entry>, session: string)
    ensures forall e <- Select(es, session, false) :: e.session != session
  {
    if es != [] { SelectedAreOthers(es[1..], session); }
  }

  /** Somebody else's line. */
  lemma OthersLine(r: Reader, s: Store, file: string, line: string)
    requires r.Lawful() && Consistent(r, s, file) && r.boundary(file) && '\n' !in line
    requires forall e <- r.line(line) :: e.session != s.session
    ensures Consistent(r, s, file + (line + "\n"))
  {
    GrownTail(r, file, s.loaded, line);
    SelectAppend(r.entries(file[s.loaded..]), r.line(line), s.session, true);
    SelectNone(r.line(line), s.session);
    var own := Select(r.entries(file[s.loaded..]), s.session, true);
    assert own + [] == own;
  }

  lemma OwnEntry(r: Reader, e: Entry)
    requires r.Lawful() && e.command != ""
    ensures '\n' !in r.encode(e) && r.line(r.encode(e)) == [e]
    ensures Select([e], e.session, true) == [e] && Select([e], e.session, false) == []
  {
    assert [e][1..] == [];
    assert Select([], e.session, true) == [] && Select([], e.session, false) == [];
  }

  /** The store's own line. */
  lemma OwnLine(r: Reader, s: Store, file: string, e: Entry)
    requires r.Lawful() && Consistent(r, s, file) && r.boundary(file) && e.command != "" && e.session == s.session
    ensures Consistent(r, Appended(r, s, file, e), file + LineOf(r, e))
  {
    OwnEntry(r, e);
    OwnTaken(s.all, e);
    var line := r.encode(e);
    if s.loaded == |file| {
      OwnLineAtEnd(r, s, file, e);
    } else {
      GrownTail(r, file, s.loaded, line);
      SelectAppend(r.entries(file[s.loaded..]), [e], s.session, true);
      var before, after := r.entries(file[..s.loaded]), r.entries(file[s.loaded..]);
      Assoc(Select(before, s.session, true), Select(after, s.session, true), [e]);
    }
  }

  lemma OwnTaken(all: seq<Entry>, e: Entry)
    ensures Select(all + [e], e.session, false) == Select(all, e.session, false)
    ensures Select(all + [e], e.session, true) == Select(all, e.session, true) + [e]
  {
    SelectAppend(all, [e], e.session, false);
    SelectAppend(all, [e], e.session, true);
    assert [e][1..] == [];
    var others := Select(all, e.session, false);
    assert others + [] == others;
  }

  lemma OwnLineAtEnd(r: Reader, s: Store, file: string, e: Entry)
    requires r.Lawful() && Consistent(r, s, file) && r.boundary(file) && e.command != "" && e.session == s.session
    requires s.loaded == |file|
    ensures Consistent(r, Appended(r, s, file, e), file + LineOf(r, e))
  {
    OwnEntry(r, e);
    OwnTaken(s.all, e);
    var grown, t := file + LineOf(r, e), Appended(r, s, file, e);
    Together(r, file, r.encode(e) + "\n");
    OwnTaken(r.entries(file), e);
    assert file[..|file|] == file && file[|file|..] == "";
    assert grown[..t.loaded] == grown && grown[t.loaded..] == "";
    assert r.Bounds();
  }

  /** The cap drops the oldest of what would be the tail. */
  lemma CappedTail(entries: seq<Entry>, all: seq<Entry>, news: seq<Entry>)
    requires TailOf(entries, all)
    ensures TailOf(Capped(entries + news), all + news)
  {
    var e, a := entries + news, all + news;
    assert e == a[|a| - |e|..];
    if |e| > LOAD_MAX {
      assert e[|e| - LOAD_MAX..] == a[|a| - LOAD_MAX..];
    }
  }

  /** Moving the boundary over `taken`, whose foreign entries join `all`. */
  lemma BoundaryMoves(r: Reader, session: string, all: seq<Entry>, before: string, taken: string, ahead: string)
    requires r.Appends() && r.Bounds() && r.boundary(taken)
    requires Holds(r, session, all, before, taken + ahead)
    ensures Holds(r, session, all + Select(r.entries(taken), session, false), before + taken, ahead)
  {
    var b, t, a := r.entries(before), r.entries(taken), r.entries(ahead);
    Together(r, before, taken);
    Together(r, taken, ahead);
    SelectAppend(b, t, session, true);
    SelectAppend(b, t, session, false);
    SelectAppend(t, a, session, true);
    var news := Select(t, session, false);
    SelectedAreOthers(t, session);
    SelectNone(news, session);
    SelectAppend(all, news, session, true);
    SelectAppend(all, news, session, false);
    Assoc(Select(b, session, true), Select(t, session, true), Select(a, session, true));
    assert Select(all, session, true) + [] == Select(all, session, true);
  }

  lemma Slices(file: string, at: nat, n: nat, m: nat)
    requires m <= n && at + n <= |file|
    ensures file[at..at + n][..m] == file[at..at + m]
    ensures file[at..at + m] + file[at + m..] == file[at..]
    ensures file[..at] + file[at..at + m] == file[..at + m]
  {
  }

  lemma CompleteCut(r: Reader, d: string)
    requires r.Completes()
    ensures r.complete(d) <= |d| && r.boundary(d[..r.complete(d)]) && r.entries(d[..r.complete(d)]) == r.entries(d)
  {
  }

  /** A reload of any size. */
  lemma ReloadKeeps(r: Reader, s: Store, file: string, n: nat)
    requires r.Appends() && r.Bounds() && r.Completes()
    requires Consistent(r, s, file) && s.session != "" && s.loaded + n <= |file|
    ensures Consistent(r, Reloaded(r, s, file, n), file)
  {
    if |file| != s.loaded {
      var data := file[s.loaded..s.loaded + n];
      CompleteCut(r, data);
      IngestRead(r, s, file, n, data, r.complete(data), data[..r.complete(data)]);
    }
  }

  lemma IngestRead(r: Reader, s: Store, file: string, n: nat, data: string, m: nat, taken: string)
    requires r.Appends() && r.Bounds()
    requires s.session != "" && s.loaded + n <= |file| && |file| != s.loaded && data == file[s.loaded..s.loaded + n]
    requires m == r.complete(data) <= |data| && taken == data[..m]
    requires r.boundary(taken) && r.entries(taken) == r.entries(data)
    requires Consistent(r, s, file)
    ensures Consistent(r, Reloaded(r, s, file, n), file)
  {
    ReloadedIs(r, s, file, n, data);
    Slices(file, s.loaded, n, m);
    Ingest(r, s, file, m, file[..s.loaded], taken, file[s.loaded + m..]);
  }

  lemma ReloadedIs(r: Reader, s: Store, file: string, n: nat, data: string)
    requires s.session != "" && s.loaded + n <= |file| && |file| != s.loaded && data == file[s.loaded..s.loaded + n]
    requires r.complete(data) <= |data| && r.entries(data[..r.complete(data)]) == r.entries(data)
    ensures var news := Select(r.entries(data[..r.complete(data)]), s.session, false);
            Reloaded(r, s, file, n) == TakeIn(s, news, r.complete(data))
  {
  }

  lemma Ingest(r: Reader, s: Store, file: string, m: nat, before: string, taken: string, ahead: string)
    requires r.Appends() && r.Bounds() && r.boundary(taken)
    requires s.loaded + m <= |file| && Consistent(r, s, file)
    requires before == file[..s.loaded] && taken + ahead == file[s.loaded..]
    requires before + taken == file[..s.loaded + m] && ahead == file[s.loaded + m..]
    ensures var news := Select(r.entries(taken), s.session, false);
            Consistent(r, TakeIn(s, news, m), file)
  {
    BoundaryMoves(r, s.session, s.all, before, taken, ahead);
    CappedTail(s.entries, s.all, Select(r.entries(taken), s.session, false));
  }

  lemma JoinKeeps(r: Reader, file: string, id: string)
    requires r.Lawful() && r.boundary(file)
    ensures Consistent(r, Opened(r, file).(session := id), file)
  {
    assert file[..|file|] == file && file[|file|..] == "";
    assert r.Bounds();
  }

  lemma FileGrows(r: Reader, file: string, line: string)
    requires r.Lawful() && r.boundary(file) && '\n' !in line
    ensures r.boundary(file + (line + "\n"))
  {
    Together(r, file, line + "\n");
  }

  lemma AppendKeepsInv(r: Reader, w: World, id: string, e: Entry)
    requires r.Lawful() && Inv(r, w) && Enabled(r, w, Append(id, e))
    ensures Inv(r, Next(r, w, Append(id, e)))
  {
    OwnEntry(r, e);
    FileGrows(r, w.file, r.encode(e));
    var v := Next(r, w, Append(id, e));
    forall other | other in v.stores
      ensures other != "" && v.stores[other].session == other && Consistent(r, v.stores[other], v.file)
    {
      if other == id {
        OwnLine(r, w.stores[id], w.file, e);
      } else {
        OthersLine(r, w.stores[other], w.file, r.encode(e));
      }
    }
  }

  lemma ForeignKeepsInv(r: Reader, w: World, line: string)
    requires r.Lawful() && Inv(r, w) && Enabled(r, w, Foreign(line))
    ensures Inv(r, Next(r, w, Foreign(line)))
  {
    FileGrows(r, w.file, line);
    forall id | id in w.stores ensures Consistent(r, w.stores[id], w.file + (line + "\n")) {
      OthersLine(r, w.stores[id], w.file, line);
    }
  }

  lemma NextKeepsInv(r: Reader, w: World, s: Step)
    requires r.Lawful() && Inv(r, w) && Enabled(r, w, s)
    ensures Inv(r, Next(r, w, s))
  {
    match s {
      case Join(id) => JoinKeeps(r, w.file, id);
      case Append(id, e) => AppendKeepsInv(r, w, id, e);
      case Reload(id, n) => ReloadKeeps(r, w.stores[id], w.file, n);
      case Foreign(line) => ForeignKeepsInv(r, w, line);
    }
  }

  ghost predicate IsRun(r: Reader, w: World, steps: seq<Step>, v: World)
    decreases |steps|
  {
    if steps == [] then v == w
    else Enabled(r, w, steps[0]) && IsRun(r, Next(r, w, steps[0]), steps[1..], v)
  }

  /** Every run keeps what each store has taken in, and in what order. */
  lemma {:induction false} NothingLostOrTwice(r: Reader, w: World, steps: seq<Step>, v: World)
    requires r.Lawful() && Inv(r, w) && IsRun(r, w, steps, v)
    ensures Inv(r, v)
    decreases |steps|
  {
    if steps != [] {
      NextKeepsInv(r, w, steps[0]);
      NothingLostOrTwice(r, Next(r, w, steps[0]), steps[1..], v);
    }
  }

  /**
   * From a file of whole lines and no session, in every interleaving: a store's position is a line
   * boundary; what it took in of others is the decodable lines before it, in file order; of its own
   * it has those of the whole file, in file order; and that is all, once each.
   */
  lemma SessionsAgree(c: Codec, file: string, steps: seq<Step>, v: World, id: string)
    requires c.Lawful() && AtBoundary(file)
    requires IsRun(ReaderOf(c), World(file, map[]), steps, v) && id in v.stores
    ensures var s := v.stores[id];
            && s.session == id && s.loaded <= |v.file| && AtBoundary(v.file[..s.loaded])
            && Select(s.all, id, false) == Select(Entries(c, v.file[..s.loaded]), id, false)
            && Select(s.all, id, true) == Select(Entries(c, v.file), id, true)
            && multiset(s.all) == multiset(Entries(c, v.file[..s.loaded]))
                                  + multiset(Select(Entries(c, v.file[s.loaded..]), id, true))
            && TailOf(s.entries, s.all)
  {
    var r, s := ReaderOf(c), v.stores[id];
    ReaderLawful(c);
    NothingLostOrTwice(r, World(file, map[]), steps, v);
    assert Consistent(r, s, v.file);
    HoldsAll(r, id, s.all, v.file[..s.loaded], v.file[s.loaded..]);
    SplitAtLoaded(r, v.file, s.loaded);
    SelectAppend(r.entries(v.file[..s.loaded]), r.entries(v.file[s.loaded..]), id, true);
  }

  lemma ConsistentAtEnd(r: Reader, s: Store, file: string)
    requires r.Lawful() && Consistent(r, s, file) && s.loaded == |file|
    ensures multiset(s.all) == multiset(r.entries(file))
    ensures Select(s.all, s.session, false) == Select(r.entries(file), s.session, false)
    ensures Select(s.all, s.session, true) == Select(r.entries(file), s.session, true)
  {
    HoldsAll(r, s.session, s.all, file[..s.loaded], file[s.loaded..]);
    assert file[..|file|] == file && file[|file|..] == "";
    assert r.Bounds();
  }

  lemma CompleteAtEnd(r: Reader, d: string)
    requires r.AtEnd() && r.boundary(d)
    ensures r.complete(d) == |d|
  {
  }

  /** A reload that reads to the end has exactly the whole file; others' entries and its own are each in its order. */
  lemma ReloadSeesAll(r: Reader, w: World, id: string)
    requires r.Lawful() && Inv(r, w) && id in w.stores
    ensures var t := Reloaded(r, w.stores[id], w.file, |w.file| - w.stores[id].loaded);
            && t.loaded == |w.file| && multiset(t.all) == multiset(r.entries(w.file))
            && forall own :: Select(t.all, id, own) == Select(r.entries(w.file), id, own)
  {
    var s := w.stores[id];
    ReloadKeeps(r, s, w.file, |w.file| - s.loaded);
    ReloadReachesEnd(r, s, w.file);
    ConsistentAtEnd(r, Reloaded(r, s, w.file, |w.file| - s.loaded), w.file);
  }

  lemma ReloadReachesEnd(r: Reader, s: Store, file: string)
    requires r.Appends() && r.Bounds() && r.AtEnd()
    requires Consistent(r, s, file) && r.boundary(file)
    ensures Reloaded(r, s, file, |file| - s.loaded).loaded == |file|
  {
    if s.loaded != |file| {
      SplitAtLoaded(r, file, s.loaded);
      WholeTail(file, s.loaded);
      CompleteAtEnd(r, file[s.loaded..]);
    }
  }

  lemma WholeTail(file: string, at: nat)
    requires at <= |file|
    ensures file[at..at + (|file| - at)] == file[at..]
  {
  }

  /** What a reload reads of other sessions. */
  ghost function News(r: Reader, w: World, id: string, n: nat): seq<Entry>
    requires id in w.stores && w.stores[id].loaded + n <= |w.file|
  {
    var s := w.stores[id];
    Select(r.entries(w.file[s.loaded..s.loaded + n]), id, false)
  }

  ghost predicate Named(w: World) {
    forall id <- w.stores :: id != "" && w.stores[id].session == id
  }

  /** A reload leaves what was there in front, puts the news behind it in order, and drops the oldest over the cap. */
  lemma ReloadAppends(r: Reader, w: World, id: string, n: nat)
    requires r.Bounds() && Named(w) && Enabled(r, w, Reload(id, n))
    ensures var s, t := w.stores[id], Next(r, w, Reload(id, n)).stores[id];
            && t.all == s.all + News(r, w, id, n)
            && if |w.file| == s.loaded then t.entries == s.entries && News(r, w, id, n) == []
               else IsLast(t.entries, 10000, s.entries + News(r, w, id, n))
  {
    var s := w.stores[id];
    if |w.file| == s.loaded {
      NoNewsAtEnd(r, w, id, n);
      assert s.all + [] == s.all;
    } else {
      ReloadedTakesNews(r, s, w.file, n, w.file[s.loaded..s.loaded + n]);
    }
  }

  lemma NoNewsAtEnd(r: Reader, w: World, id: string, n: nat)
    requires r.Bounds() && id in w.stores && w.stores[id].loaded + n <= |w.file| == w.stores[id].loaded
    ensures News(r, w, id, n) == []
  {
    var s := w.stores[id];
    assert w.file[s.loaded..s.loaded + n] == "";
  }

  lemma ReloadedTakesNews(r: Reader, s: Store, file: string, n: nat, data: string)
    requires s.loaded + n <= |file| && |file| != s.loaded && s.session != "" && data == file[s.loaded..s.loaded + n]
    ensures var t := Reloaded(r, s, file, n);
            var news := Select(r.entries(data), s.session, false);
            t.all == s.all + news && IsLast(t.entries, 10000, s.entries + news)
  {
    var news := Select(r.entries(data), s.session, false);
    assert Reloaded(r, s, file, n) == TakeIn(s, news, r.complete(data));
    TakenIn(s, news, r.complete(data));
  }

  lemma TakenIn(s: Store, news: seq<Entry>, consumed: nat)
    ensures var t := TakeIn(s, news, consumed);
            t.all == s.all + news && IsLast(t.entries, 10000, s.entries + news)
  {
    CappedIsLast(s.entries + news);
  }

  /** After a reload that read something new, the most recent match is the last of it that matches, if its last does. */
  lemma NewsAreRecalledFirst(r: Reader, w: World, id: string, n: nat, matches: string -> bool)
    requires r.Bounds() && Named(w) && Enabled(r, w, Reload(id, n)) && News(r, w, id, n) != []
    requires var news := News(r, w, id, n); matches(news[|news| - 1].command)
    ensures var news, es := News(r, w, id, n), Next(r, w, Reload(id, n)).stores[id].entries;
            es != [] && es[|es| - 1] == news[|news| - 1] && IsNth(es, 0, matches, |es| - 1)
  {
    ReloadAppends(r, w, id, n);
    LastIsFirstMatch(Next(r, w, Reload(id, n)).stores[id].entries, w.stores[id].entries, News(r, w, id, n), matches);
  }

  lemma LastIsFirstMatch(es: seq<Entry>, had: seq<Entry>, news: seq<Entry>, matches: string -> bool)
    requires news != [] && matches(news[|news| - 1].command) && IsLast(es, 10000, had + news)
    ensures es != [] && es[|es| - 1] == news[|news| - 1] && IsNth(es, 0, matches, |es| - 1)
  {
    assert Offered(es, |es|, matches) == {};
  }

  lemma AppendedToTorn(c: Codec, file: string, closed: string, torn: string, written: string)
    requires closed == file[..Complete(file)] && closed + torn == file && '\n' !in torn && '\n' !in written
    ensures Entries(c, file + (written + "\n")) == Entries(c, file) + EntryOn(c, torn + written)
  {
    ClosedOnly(c, file);
    EntriesLine(c, torn + written);
    EntriesAppend(c, closed, torn + written + "\n");
    assert file + (written + "\n") == closed + (torn + written + "\n");
  }

  /**
   * After a torn last line, an appended entry can be read exactly when the torn bytes are blank: only
   * then does the line they share decode. Otherwise the entry is lost, and nothing else is.
   */
  lemma TornTail(c: Codec, file: string, e: Entry)
    requires c.Lawful() && e.command != ""
    ensures Entries(c, file + (c.encode(e) + "\n")) ==
            if Blank(Rest(file, '\n')) then Entries(c, file) + [e] else Entries(c, file)
    ensures Entries(c, file + (c.encode(e) + "\n")) == Entries(c, file) + [e] <==> Blank(Rest(file, '\n'))
  {
    RestIsSuffix(file, '\n');
    AppendedToTorn(c, file, file[..Complete(file)], Rest(file, '\n'), c.encode(e));
    assert Entries(c, file) + [] == Entries(c, file);
  }

  /** A write cut short after its first three bytes: the next entry is not there to be read. */
  lemma TornWriteSwallowsNext(c: Codec, e: Entry)
    requires c.Lawful() && e.command != ""
    ensures Entries(c, "{\"c" + (c.encode(e) + "\n")) == []
  {
    var torn := "{\"c";
    NothingComplete(c, torn);
    RestIsSuffix(torn, '\n');
    assert torn[0] in torn && !Blank(torn);
    TornTail(c, torn, e);
  }

  // --- a lawful codec ---

  function Unary(n: nat): string {
    if n == 0 then "b" else "a" + Unary(n - 1)
  }

  function Coded(s: string): string {
    if s == "" then "," else Unary(s[0] as int) + Coded(s[1..])
  }

  function Boxed(e: Entry): string {
    "{" + (Coded(e.command) + (Coded(e.session) + Coded(e.rest)))
  }

  lemma {:induction false} UnaryApart(m: nat, n: nat, x: string, y: string)
    requires Unary(m) + x == Unary(n) + y
    ensures m == n && x == y
  {
    var s, t := Unary(m) + x, Unary(n) + y;
    assert s[0] == (if m == 0 then 'b' else 'a') && t[0] == if n == 0 then 'b' else 'a';
    if m > 0 {
      assert s[1..] == Unary(m - 1) + x && t[1..] == Unary(n - 1) + y;
      UnaryApart(m - 1, n - 1, x, y);
    } else {
      assert s[1..] == x && t[1..] == y;
    }
  }

  lemma {:induction false} CodedApart(s: string, t: string, x: string, y: string)
    requires Coded(s) + x == Coded(t) + y
    ensures s == t && x == y
    decreases |s|
  {
    CodedHead(s);
    CodedHead(t);
    var a, b := Coded(s) + x, Coded(t) + y;
    assert a[0] == Coded(s)[0] && b[0] == Coded(t)[0];
    if s == "" {
      assert a[1..] == x && b[1..] == y;
    } else {
      Assoc(Unary(s[0] as int), Coded(s[1..]), x);
      Assoc(Unary(t[0] as int), Coded(t[1..]), y);
      UnaryApart(s[0] as int, t[0] as int, Coded(s[1..]) + x, Coded(t[1..]) + y);
      CodedApart(s[1..], t[1..], x, y);
      assert s == [s[0]] + s[1..] && t == [t[0]] + t[1..];
    }
  }

  lemma CodedHead(s: string)
    ensures Coded(s) != "" && (Coded(s)[0] == ',' <==> s == "")
  {
  }

  lemma {:induction false} UnaryChars(n: nat)
    ensures forall c <- Unary(n) :: c == 'a' || c == 'b'
  {
    if n > 0 { UnaryChars(n - 1); }
  }

  lemma {:induction false} CodedChars(s: string)
    ensures '{' !in Coded(s) && '\n' !in Coded(s)
  {
    if s != "" {
      UnaryChars(s[0] as int);
      CodedChars(s[1..]);
    }
  }

  lemma BoxedChars(e: Entry)
    ensures Boxed(e)[0] == '{' && '{' !in Boxed(e)[1..] && '\n' !in Boxed(e)
  {
    CodedChars(e.command);
    CodedChars(e.session);
    CodedChars(e.rest);
    assert Boxed(e)[1..] == Coded(e.command) + (Coded(e.session) + Coded(e.rest));
  }

  /** The only opening brace shows where a boxed entry begins. */
  lemma BoxedApart(s: string, e: Entry, t: string, f: Entry)
    requires s + Boxed(e) == t + Boxed(f) && '{' !in t
    ensures s == t && e == f
  {
    BoxedChars(e);
    BoxedChars(f);
    var all := t + Boxed(f);
    assert all[|s|] == '{';
    forall k | 0 <= k < |all| && k != |t| ensures all[k] != '{' {
      if k > |t| {
        assert all[k] == Boxed(f)[1..][k - |t| - 1];
      }
    }
    assert s == (s + Boxed(e))[..|s|] && t == all[..|t|];
    assert Boxed(e) == (s + Boxed(e))[|s|..] && Boxed(f) == all[|t|..];
    var x, y := Coded(e.session) + Coded(e.rest), Coded(f.session) + Coded(f.rest);
    assert Boxed(e)[1..] == Coded(e.command) + x && Boxed(f)[1..] == Coded(f.command) + y;
    CodedApart(e.command, f.command, x, y);
    CodedApart(e.session, f.session, Coded(e.rest), Coded(f.rest));
    assert Coded(e.rest) + "" == Coded(e.rest) && Coded(f.rest) + "" == Coded(f.rest);
    CodedApart(e.rest, f.rest, "", "");
  }

  ghost predicate Holding(s: string, before: string, e: Entry) {
    Blank(before) && s == before + Boxed(e)
  }

  ghost function Unboxed(s: string): Option<Entry> {
    if exists before, e :: Holding(s, before, e) then
      var before, e :| Holding(s, before, e);
      Some(e)
    else None
  }

  function Boxing(): Entry -> string {
    e => Boxed(e)
  }

  ghost function Unboxing(): string -> Option<Entry> {
    s => Unboxed(s)
  }

  lemma BoxingIsOneLine(e: Entry)
    ensures '\n' !in Boxing()(e)
  {
    BoxedChars(e);
  }

  lemma UnboxingUndoes(before: string, e: Entry)
    ensures Unboxing()(before + Boxing()(e)) == if Blank(before) then Some(e) else None
  {
    UnboxBoxed(before, e);
  }

  /** The laws asked of the codec can be met. */
  lemma LawfulCodecExists() returns (c: Codec)
    ensures c.Lawful()
  {
    var encode, decode := Boxing(), Unboxing();
    forall e: Entry ensures '\n' !in encode(e) {
      BoxingIsOneLine(e);
    }
    forall e: Entry, before: string ensures decode(before + encode(e)) == if Blank(before) then Some(e) else None {
      UnboxingUndoes(before, e);
    }
    c := CodecOf(encode, decode);
  }

  lemma CodecOf(encode: Entry -> string, decode: string -> Option<Entry>) returns (c: Codec)
    requires forall e: Entry :: '\n' !in encode(e)
    requires forall e: Entry, before {:trigger before + encode(e)} ::
               decode(before + encode(e)) == if Blank(before) then Some(e) else None
    ensures c == Codec(encode, decode) && c.Lawful()
  {
    c := Codec(encode, decode);
  }

  lemma UnboxBoxed(before: string, e: Entry)
    ensures Unboxed(before + Boxed(e)) == if Blank(before) then Some(e) else None
  {
    var s := before + Boxed(e);
    forall t, f | Holding(s, t, f) ensures t == before && f == e {
      BoxedApart(before, e, t, f);
    }
    if Blank(before) {
      assert Holding(s, before, e);
    }
  }

  // --- recall: each command once, at its latest position ---

  /** The matching commands from a position on. */
  ghost function Offered(es: seq<Entry>, from: nat, matches: string -> bool): set<string> {
    set k | from <= k < |es| && matches(es[k].command) :: es[k].command
  }

  /** Position p has the command with n more recent ones, itself not among them. */
  ghost predicate IsNth(es: seq<Entry>, n: int, matches: string -> bool, p: nat) {
    && p < |es| && matches(es[p].command)
    && es[p].command !in Offered(es, p + 1, matches)
    && |Offered(es, p + 1, matches)| == n
  }

  lemma OfferedStep(es: seq<Entry>, i: nat, matches: string -> bool)
    requires i < |es|
    ensures Offered(es, i, matches) ==
            Offered(es, i + 1, matches) + if matches(es[i].command) then {es[i].command} else {}
  {
    var here, later := Offered(es, i, matches), Offered(es, i + 1, matches);
    forall c | c in here && c != es[i].command ensures c in later {
      var k :| i <= k < |es| && matches(es[k].command) && es[k].command == c;
    }
  }

  /** The nth is there exactly when enough distinct commands match. */
  method Scan(es: seq<Entry>, n: int, matches: string -> bool) returns (r: Option<string>)
    ensures r.Some? <==> 0 <= n < |Offered(es, 0, matches)|
    ensures r.Some? ==> exists p: nat :: IsNth(es, n, matches, p) && es[p].command == r.value
  {
    if n < 0 {
      return None;
    }
    var left, seen, i := n, {}, |es|;
    assert Offered(es, |es|, matches) == {};
    while i > 0
      invariant 0 <= i <= |es| && left >= 0
      invariant seen == Offered(es, i, matches) && |seen| + left == n
    {
      i := i - 1;
      OfferedStep(es, i, matches);
      var cmd := es[i].command;
      if cmd !in seen && matches(cmd) {
        if left == 0 {
          assert IsNth(es, n, matches, i);
          OfferedShrinks(es, 0, i, matches);
          return Some(cmd);
        }
        seen := seen + {cmd};
        left := left - 1;
      }
    }
    return None;
  }

  lemma OfferedShrinks(es: seq<Entry>, from: nat, at: nat, matches: string -> bool)
    requires from <= at
    ensures |Offered(es, at, matches)| <= |Offered(es, from, matches)|
  {
    SubsetSize(Offered(es, at, matches), Offered(es, from, matches));
  }

  lemma {:induction false} SubsetSize(a: set<string>, b: set<string>)
    requires a <= b
    ensures |a| <= |b|
  {
    if a != {} {
      var x :| x in a;
      SubsetSize(a - {x}, b - {x});
    }
  }

  /** There is only one nth. */
  lemma NthUnique(es: seq<Entry>, n: int, matches: string -> bool, p: nat, q: nat)
    requires IsNth(es, n, matches, p) && IsNth(es, n, matches, q)
    ensures p == q
  {
    if p < q {
      OfferedStep(es, q, matches);
      OfferedShrinks(es, p + 1, q, matches);
    } else if q < p {
      OfferedStep(es, p, matches);
      OfferedShrinks(es, q + 1, p, matches);
    }
  }

  /** Every matching command is somebody's nth, at its last occurrence. */
  lemma {:induction false} NthCovers(es: seq<Entry>, matches: string -> bool, c: string, from: nat) returns (p: nat)
    requires from <= |es| && c in Offered(es, from, matches)
    ensures IsNth(es, |Offered(es, p + 1, matches)|, matches, p) && es[p].command == c
    decreases |es| - from
  {
    OfferedStep(es, from, matches);
    if c in Offered(es, from + 1, matches) {
      p := NthCovers(es, matches, c, from + 1);
    } else {
      p := from;
    }
  }
}
