/** internal/acp/acp.go: one JSON-RPC connection, with calls, a reader and answering handlers at once. */
module Rpc {
  import opened Options

  datatype Error = Error(code: int, text: string)

  const METHOD_NOT_FOUND := -32601
  const INTERNAL := -32603

  /** An empty id or method is an absent one. */
  datatype Message = Message(id: string, meth: string, params: string, result: string, error: Option<Error>)

  datatype Line = Unparsable | Parsed(msg: Message)

  datatype Kind = Noise | Request | Note | Response

  /** dispatch's switch, and deliver's refusal of a message without an id. */
  function KindOf(line: Line): Kind {
    match line
    case Unparsable => Noise
    case Parsed(m) =>
      if m.meth != "" && |m.id| > 0 then Request
      else if m.meth != "" then Note
      else if |m.id| == 0 then Noise
      else Response
  }

  // --- ids ---

  /** encoding/json of a counter. */
  function Decimal(n: nat): (s: string)
    ensures |s| > 0
  {
    var last := [('0' as int + n % 10) as char];
    if n < 10 then last else Decimal(n / 10) + last
  }

  lemma {:induction false} DecimalIsInjective(m: nat, n: nat)
    requires Decimal(m) == Decimal(n)
    ensures m == n
  {
    var s, t := Decimal(m), Decimal(n);
    assert s[|s| - 1] == ('0' as int + m % 10) as char;
    assert t[|t| - 1] == ('0' as int + n % 10) as char;
    assert m % 10 == n % 10;
    if m >= 10 && n >= 10 {
      assert s[..|s| - 1] == Decimal(m / 10) && t[..|t| - 1] == Decimal(n / 10);
      DecimalIsInjective(m / 10, n / 10);
    }
  }

  // --- answers to the agent's requests ---

  datatype Outcome =
    | Value(text: string) | Nothing | Refused(error: Error) | Failed(text: string) | Unencodable(text: string)

  /** A pure handler: what it did besides answering is not modelled. */
  type Handler = (string, string) -> Outcome

  function Reply(handler: Option<Handler>, req: Message): Message {
    match handler
    case None => Refusal(req, Error(METHOD_NOT_FOUND, "method not supported: " + req.meth))
    case Some(f) =>
      match f(req.meth, req.params)
      case Refused(e) => Refusal(req, e)
      case Failed(text) => Refusal(req, Error(INTERNAL, text))
      case Unencodable(text) => Refusal(req, Error(INTERNAL, text))
      case Nothing => Message(req.id, "", "", "{}", None)
      case Value(text) => Message(req.id, "", "", text, None)
  }

  function Refusal(req: Message, e: Error): Message {
    Message(req.id, "", "", "", Some(e))
  }

  // --- the connection's fields, and the sections mu guards ---

  /** Pending names each channel by the number of the call that made it. */
  datatype Books = Books(nextID: nat, pending: map<string, nat>)

  function Found(b: Books, id: string): Option<nat> {
    if id in b.pending then Some(b.pending[id]) else None
  }

  function Dropped(b: Books, id: string): Books {
    b.(pending := b.pending - {id})
  }

  /** A channel of capacity one. */
  class Channel {
    const call: nat
    var buffer: seq<Message>

    constructor (call: nat)
      ensures this.call == call && buffer == []
    {
      this.call, buffer := call, [];
    }

    /** A send that would block is not modelled: the caller shows there is room. */
    method Send(m: Message)
      requires |buffer| < 1
      modifies this
      ensures buffer == old(buffer) + [m]
    {
      buffer := buffer + [m];
    }

    method Receive() returns (m: Message)
      requires |buffer| > 0
      modifies this
      ensures m == old(buffer)[0] && buffer == old(buffer)[1..]
    {
      m := buffer[0];
      buffer := buffer[1..];
    }
  }

  class Conn {
    var nextID: nat
    var pending: map<string, Channel>

    function View(): Books
      reads this, pending.Values
    {
      Books(nextID, map id <- pending :: pending[id].call)
    }

    /** Every pending channel is its own and still empty. */
    ghost predicate Valid()
      reads this, pending.Values
    {
      && (forall id <- pending :: pending[id].buffer == [] && id == Decimal(pending[id].call))
      && (forall id <- pending :: 0 < pending[id].call <= nextID)
    }

    constructor ()
      ensures Valid() && View() == Books(0, map[])
    {
      nextID, pending := 0, map[];
    }

    method Allocate() returns (n: nat)
      requires Valid()
      modifies this
      ensures Valid() && n == old(nextID) + 1
      ensures View() == Books(n, old(View()).pending)
    {
      nextID := nextID + 1;
      n := nextID;
    }

    method Register(n: nat) returns (ch: Channel)
      requires Valid() && 0 < n <= nextID
      modifies this
      ensures Valid() && fresh(ch) && ch.call == n && ch.buffer == []
      ensures View() == Books(old(nextID), old(View()).pending[Decimal(n) := n])
      ensures pending == old(pending)[Decimal(n) := ch]
    {
      ch := new Channel(n);
      pending := pending[Decimal(n) := ch];
    }

    method Forget(n: nat)
      requires Valid()
      modifies this
      ensures Valid() && View() == Dropped(old(View()), Decimal(n))
    {
      pending := pending - {Decimal(n)};
    }

    method Take(id: string) returns (ch: Channel?)
      requires Valid()
      modifies this
      ensures Valid() && View() == Dropped(old(View()), id)
      ensures ch == if id in old(pending) then old(pending)[id] else null
      ensures ch == null <==> Found(old(View()), id).None?
      ensures ch != null ==> old(View()).pending[id] == ch.call && ch.buffer == [] && ch !in pending.Values
    {
      ch := if id in pending then pending[id] else null;
      pending := pending - {id};
      assert ch != null ==> forall k <- pending :: k == Decimal(pending[k].call);
    }

    /** deliver, when nothing comes between taking the channel and sending on it. */
    method Deliver(m: Message)
      requires Valid()
      modifies this, pending.Values
      ensures Valid()
      ensures View() == if |m.id| == 0 then old(View()) else Dropped(old(View()), m.id)
      ensures forall id <- old(pending) :: old(pending[id]).buffer == if id == m.id then [m] else []
    {
      if |m.id| == 0 {
        return;
      }
      var ch := Take(m.id);
      if ch != null {
        ch.Send(m);
      }
    }
  }

  // --- all parties together ---

  /** What the run is over: all that will be read, and how requests are answered. */
  datatype Peer = Peer(wire: seq<Line>, inline: bool, handler: Option<Handler>)

  /** Why a Call returned without an answer. */
  datatype Reason = Cancelled | WriteFailed | AgentGone

  datatype Phase =
    | Allocated               // has its id
    | Registered              // pending, request not yet written
    | Waiting                 // in the select
    | Leaving(why: Reason)    // about to take itself off pending
    | Answered(resp: Message)
    | Left(why: Reason)

  /** `since` is how much was read when the call registered, `sent` what deliver put on its channel. */
  datatype Call = Call(phase: Phase, since: nat, sent: seq<nat>)

  /** The reader goroutine, and the wire position it is busy with. */
  datatype Reader =
    | Reading
    | Sending(call: nat, at: nat)
    | Notifying(at: nat)
    | Answering(at: nat)
    | Returned

  datatype World = World(
    books: Books, calls: map<nat, Call>, reader: Reader, read: nat,
    handled: seq<Message>, answering: multiset<Message>, answered: seq<Message>)

  function Start(): World {
    World(Books(0, map[]), map[], Reading, 0, [], multiset{}, [])
  }

  datatype Step =
    | Allocate | Register(n: nat) | Write(n: nat, ok: bool)
    | Receive(n: nat) | Cancel(n: nat) | Forget(n: nat) | GiveUp(n: nat)
    | Read | Send | Notified | AnsweredInline | Answer(reply: Message) | Return

  /** The channel has capacity one, and Receive empties it. */
  predicate HasRoom(c: Call) {
    |c.sent| == 0 || (|c.sent| == 1 && c.phase.Answered?)
  }

  predicate Enabled(p: Peer, w: World, s: Step) {
    match s
    case Allocate => true
    case Register(n) => n in w.calls && w.calls[n].phase == Allocated
    case Write(n, _) => n in w.calls && w.calls[n].phase == Registered
    case Receive(n) =>
      && n in w.calls && w.calls[n].phase == Waiting && |w.calls[n].sent| > 0
      && w.calls[n].sent[0] < |p.wire| && p.wire[w.calls[n].sent[0]].Parsed?
    case Cancel(n) => n in w.calls && w.calls[n].phase == Waiting
    case Forget(n) => n in w.calls && w.calls[n].phase.Leaving?
    case GiveUp(n) => n in w.calls && w.calls[n].phase == Waiting && w.reader == Returned
    case Read => w.reader == Reading && w.read < |p.wire|
    case Send => w.reader.Sending? && w.reader.call in w.calls && HasRoom(w.calls[w.reader.call])
    case Notified => w.reader.Notifying? && w.reader.at < |p.wire| && p.wire[w.reader.at].Parsed?
    case AnsweredInline => w.reader.Answering? && w.reader.at < |p.wire| && p.wire[w.reader.at].Parsed?
    case Answer(reply) => reply in w.answering
    case Return => w.reader == Reading   // the end of the input, a read error, or a cancelled context
  }

  function Moved(w: World, n: nat, phase: Phase): World
    requires n in w.calls
  {
    w.(calls := w.calls[n := w.calls[n].(phase := phase)])
  }

  function Next(p: Peer, w: World, s: Step): World
    requires Enabled(p, w, s)
  {
    match s
    case Allocate =>
      var n := w.books.nextID + 1;
      w.(books := w.books.(nextID := n), calls := w.calls[n := Call(Allocated, 0, [])])
    case Register(n) =>
      w.(books := w.books.(pending := w.books.pending[Decimal(n) := n]),
         calls := w.calls[n := Call(Registered, w.read, w.calls[n].sent)])
    case Write(n, ok) => Moved(w, n, if ok then Waiting else Leaving(WriteFailed))
    case Receive(n) => Moved(w, n, Answered(p.wire[w.calls[n].sent[0]].msg))
    case Cancel(n) => Moved(w, n, Leaving(Cancelled))
    case Forget(n) => Moved(w, n, Left(w.calls[n].phase.why)).(books := Dropped(w.books, Decimal(n)))
    case GiveUp(n) => Moved(w, n, Left(AgentGone))
    case Read => Dispatched(p, w)
    case Send =>
      var n := w.reader.call;
      w.(reader := Reading, calls := w.calls[n := w.calls[n].(sent := w.calls[n].sent + [w.reader.at])])
    case Notified => w.(reader := Reading, handled := w.handled + [p.wire[w.reader.at].msg])
    case AnsweredInline =>
      w.(reader := Reading, answered := w.answered + [Reply(p.handler, p.wire[w.reader.at].msg)])
    case Answer(reply) => w.(answering := w.answering - multiset{reply}, answered := w.answered + [reply])
    case Return => w.(reader := Returned)
  }

  /** dispatch, up to where it has to wait for something. */
  function Dispatched(p: Peer, w: World): World
    requires w.read < |p.wire|
  {
    var at, line := w.read, p.wire[w.read];
    var v := w.(read := w.read + 1);
    match KindOf(line)
    case Noise => v
    case Request =>
      if p.inline then v.(reader := Answering(at))
      else v.(answering := w.answering + multiset{Reply(p.handler, line.msg)})
    case Note => v.(reader := Notifying(at))
    case Response =>
      match Found(w.books, line.msg.id)
      case None => v
      case Some(n) => v.(reader := Sending(n, at), books := Dropped(w.books, line.msg.id))
  }

  // --- what every run keeps ---

  predicate Asks(line: Line) { line.Parsed? && line.msg.meth != "" && line.msg.id != "" }

  predicate Notifies(line: Line) { line.Parsed? && line.msg.meth != "" && line.msg.id == "" }

  predicate AnswersTo(line: Line, id: string) {
    line.Parsed? && line.msg.meth == "" && line.msg.id == id && id != ""
  }

  /** No response for this id among the lines of a stretch. */
  ghost predicate Silent(wire: seq<Line>, id: string, from: nat, to: nat) {
    forall q :: from <= q < to && q < |wire| ==> !AnswersTo(wire[q], id)
  }

  /** The first response for this id from a position on. */
  ghost predicate FirstResponse(wire: seq<Line>, id: string, from: nat, at: nat) {
    from <= at < |wire| && AnswersTo(wire[at], id) && Silent(wire, id, from, at)
  }

  /** The notifications among the first k lines. */
  function Notes(wire: seq<Line>, k: nat): seq<Message>
    requires k <= |wire|
  {
    if k == 0 then [] else Notes(wire, k - 1) + if Notifies(wire[k - 1]) then [wire[k - 1].msg] else []
  }

  /** The replies to the requests among the first k lines. */
  function Replies(handler: Option<Handler>, wire: seq<Line>, k: nat): seq<Message>
    requires k <= |wire|
  {
    if k == 0 then []
    else
      Replies(handler, wire, k - 1) +
      if KindOf(wire[k - 1]) == Request then [Reply(handler, wire[k - 1].msg)] else []
  }

  /** How much of the wire the reader is done with. */
  function Past(w: World): nat {
    match w.reader
    case Reading => w.read
    case Returned => w.read
    case Sending(_, at) => at
    case Notifying(at) => at
    case Answering(at) => at
  }

  /** What of the world concerns one call: `hand` is the position of its message in the reader's hand. */
  datatype Outlook = Outlook(read: nat, past: nat, hand: Option<nat>, returned: bool, pending: bool)

  function OutlookOf(w: World, n: nat): Outlook {
    Outlook(w.read, Past(w), if w.reader.Sending? && w.reader.call == n then Some(w.reader.at) else None,
            w.reader == Returned, Decimal(n) in w.books.pending)
  }

  /**
   * One call against the wire: its channel has had one message at most, the first response with its
   * id since it registered; while that message is still to come, it is in the reader's hand or the
   * call is pending, with nothing for it on the lines read.
   */
  ghost predicate CallFits(wire: seq<Line>, id: string, o: Outlook, c: Call) {
    && |c.sent| <= 1
    && (|c.sent| == 1 ==> c.sent[0] < o.past && FirstResponse(wire, id, c.since, c.sent[0]))
    && (o.hand.Some? ==> c.sent == [] && !o.pending && FirstResponse(wire, id, c.since, o.hand.value))
    && (o.pending ==> c.sent == [] && c.since <= o.read && Silent(wire, id, c.since, o.read))
    && match c.phase
       case Allocated => c.sent == [] && o.hand.None? && !o.pending
       case Answered(m) => |c.sent| == 1 && m == wire[c.sent[0]].msg
       case Leaving(why) => why != AgentGone && (|c.sent| == 1 || o.hand.Some? || o.pending)
       case Left(why) => if why == AgentGone then o.returned else !o.pending
       case _ => |c.sent| == 1 || o.hand.Some? || o.pending
  }

  ghost predicate CallsFit(p: Peer, w: World) {
    forall n <- w.calls :: CallFits(p.wire, Decimal(n), OutlookOf(w, n), w.calls[n])
  }

  ghost predicate BooksFit(w: World) {
    && (forall n: nat :: n in w.calls <==> 0 < n <= w.books.nextID)
    && (forall id <- w.books.pending :: id == Decimal(w.books.pending[id]) && w.books.pending[id] in w.calls)
  }

  ghost predicate ReaderFits(p: Peer, w: World) {
    && w.read <= |p.wire|
    && match w.reader
       case Reading => true
       case Returned => true
       case Sending(n, at) => at + 1 == w.read && n in w.calls && KindOf(p.wire[at]) == Response
       case Notifying(at) => at + 1 == w.read && KindOf(p.wire[at]) == Note
       case Answering(at) => at + 1 == w.read && KindOf(p.wire[at]) == Request && p.inline
  }

  /** The three ledgers against what the reader is done with. */
  ghost predicate Worked(p: Peer, past: nat, handled: seq<Message>,
                         answering: multiset<Message>, answered: seq<Message>)
  {
    && past <= |p.wire|
    && handled == Notes(p.wire, past)
    && multiset(answered) + answering == multiset(Replies(p.handler, p.wire, past))
    && (p.inline ==> answering == multiset{} && answered == Replies(p.handler, p.wire, past))
  }

  /** Notes are handled in wire order; requests are answered, in wire order when inline. */
  ghost predicate WorkFits(p: Peer, w: World) {
    Worked(p, Past(w), w.handled, w.answering, w.answered)
  }

  ghost predicate Inv(p: Peer, w: World) {
    CallsFit(p, w) && BooksFit(w) && ReaderFits(p, w) && WorkFits(p, w)
  }

  lemma StartInv(p: Peer)
    ensures Inv(p, Start())
  {
    assert p.wire[..0] == [];
  }

  // --- the work list ---

  /** Past one more line that needs neither handling nor answering, or is answered elsewhere. */
  lemma WorkPast(p: Peer, past: nat, handled: seq<Message>, answering: multiset<Message>, answered: seq<Message>)
    requires past < |p.wire| && Worked(p, past, handled, answering, answered)
    ensures KindOf(p.wire[past]) != Note && KindOf(p.wire[past]) != Request ==>
              Worked(p, past + 1, handled, answering, answered)
    ensures KindOf(p.wire[past]) == Request && !p.inline ==>
              Worked(p, past + 1, handled, answering + multiset{Reply(p.handler, p.wire[past].msg)}, answered)
  {
    if KindOf(p.wire[past]) == Request {
      MoreReplies(answered, answering, Replies(p.handler, p.wire, past), Reply(p.handler, p.wire[past].msg));
    }
  }

  /** What a read leaves of the ledgers. */
  lemma ReadLedgers(p: Peer, w: World)
    requires Enabled(p, w, Read)
    ensures var v, kind := Next(p, w, Read), KindOf(p.wire[w.read]);
            && Past(w) == w.read && v.handled == w.handled && v.answered == w.answered
            && (Past(v) == w.read || (Past(v) == w.read + 1 && kind != Note && (kind == Request ==> !p.inline)))
            && (kind == Request && !p.inline ==>
                  Past(v) == w.read + 1 && v.answering == w.answering + multiset{Reply(p.handler, p.wire[w.read].msg)})
            && (kind != Request || p.inline ==> v.answering == w.answering)
  {
  }

  lemma WorkReadKeeps(p: Peer, w: World)
    requires ReaderFits(p, w) && WorkFits(p, w) && Enabled(p, w, Read)
    ensures WorkFits(p, Next(p, w, Read))
  {
    ReadLedgers(p, w);
    WorkPast(p, w.read, w.handled, w.answering, w.answered);
  }

  lemma MoreReplies(answered: seq<Message>, answering: multiset<Message>, all: seq<Message>, reply: Message)
    requires multiset(answered) + answering == multiset(all)
    ensures multiset(answered) + (answering + multiset{reply}) == multiset(all + [reply])
  {
  }

  lemma WorkDoneKeeps(p: Peer, w: World, s: Step)
    requires ReaderFits(p, w) && WorkFits(p, w) && Enabled(p, w, s)
    requires s.Send? || s.Notified? || s.AnsweredInline?
    ensures WorkFits(p, Next(p, w, s))
  {
    DoneLedgers(p, w, s);
    WorkPast(p, w.reader.at, w.handled, w.answering, w.answered);
    WorkInHand(p, w.reader.at, w.handled, w.answering, w.answered);
  }

  /** What finishing a line leaves of the ledgers. */
  lemma DoneLedgers(p: Peer, w: World, s: Step)
    requires ReaderFits(p, w) && Enabled(p, w, s) && (s.Send? || s.Notified? || s.AnsweredInline?)
    ensures var v, at := Next(p, w, s), w.reader.at;
            && at < |p.wire| && Past(w) == at && Past(v) == at + 1 && v.answering == w.answering
            && match KindOf(p.wire[at])
               case Note => v.handled == w.handled + [p.wire[at].msg] && v.answered == w.answered
               case Request =>
                 p.inline && v.handled == w.handled && v.answered == w.answered + [Reply(p.handler, p.wire[at].msg)]
               case _ => KindOf(p.wire[at]) == Response && v.handled == w.handled && v.answered == w.answered
  {
  }

  /** Past a line that the reader has just handled or answered. */
  lemma WorkInHand(p: Peer, past: nat, handled: seq<Message>, answering: multiset<Message>, answered: seq<Message>)
    requires past < |p.wire| && Worked(p, past, handled, answering, answered)
    ensures KindOf(p.wire[past]) == Note ==> Worked(p, past + 1, handled + [p.wire[past].msg], answering, answered)
    ensures KindOf(p.wire[past]) == Request && p.inline ==>
              Worked(p, past + 1, handled, answering, answered + [Reply(p.handler, p.wire[past].msg)])
  {
  }

  lemma WorkKeeps(p: Peer, w: World, s: Step)
    requires ReaderFits(p, w) && WorkFits(p, w) && Enabled(p, w, s)
    ensures WorkFits(p, Next(p, w, s))
  {
    match s {
      case Read => WorkReadKeeps(p, w);
      case Send => WorkDoneKeeps(p, w, s);
      case Notified => WorkDoneKeeps(p, w, s);
      case AnsweredInline => WorkDoneKeeps(p, w, s);
      case Answer(reply) => AnswerMoves(p, Past(w), w.handled, w.answering, w.answered, reply);
      case _ => WorkAside(p, w, s);
    }
  }

  lemma WorkAside(p: Peer, w: World, s: Step)
    requires Enabled(p, w, s) && !s.Read? && !s.Send? && !s.Notified? && !s.AnsweredInline? && !s.Answer?
    ensures var v := Next(p, w, s);
            Past(v) == Past(w) && v.handled == w.handled && v.answering == w.answering && v.answered == w.answered
  {
  }

  lemma AnswerMoves(p: Peer, past: nat, handled: seq<Message>,
                    answering: multiset<Message>, answered: seq<Message>, reply: Message)
    requires Worked(p, past, handled, answering, answered) && reply in answering
    ensures Worked(p, past, handled, answering - multiset{reply}, answered + [reply])
  {
    assert multiset(answered + [reply]) == multiset(answered) + multiset{reply};
  }

  lemma ReaderKeeps(p: Peer, w: World, s: Step)
    requires ReaderFits(p, w) && BooksFit(w) && Enabled(p, w, s)
    ensures ReaderFits(p, Next(p, w, s))
  {
  }

  // --- the pending map ---

  lemma BooksReadKeep(p: Peer, w: World)
    requires BooksFit(w) && Enabled(p, w, Read)
    ensures BooksFit(Next(p, w, Read))
  {
    var v := Next(p, w, Read);
    assert v.calls == w.calls && v.books.nextID == w.books.nextID;
    assert forall id <- v.books.pending :: id in w.books.pending && v.books.pending[id] == w.books.pending[id];
  }

  lemma BooksKeep(p: Peer, w: World, s: Step)
    requires BooksFit(w) && Enabled(p, w, s)
    ensures BooksFit(Next(p, w, s))
  {
    if s == Read {
      BooksReadKeep(p, w);
    } else {
      CallNumbers(p, w, s);
    }
  }

  lemma CallNumbers(p: Peer, w: World, s: Step)
    requires BooksFit(w) && Enabled(p, w, s) && s != Read
    ensures BooksFit(Next(p, w, s))
  {
    var v := Next(p, w, s);
    assert v.calls.Keys == if s == Allocate then w.calls.Keys + {v.books.nextID} else w.calls.Keys;
  }

  lemma OtherIds(m: nat, n: nat)
    ensures Decimal(m) == Decimal(n) <==> m == n
  {
    if Decimal(m) == Decimal(n) { DecimalIsInjective(m, n); }
  }

  lemma PendingIsOwn(w: World, n: nat)
    requires BooksFit(w) && Decimal(n) in w.books.pending
    ensures w.books.pending[Decimal(n)] == n && n in w.calls
  {
    OtherIds(w.books.pending[Decimal(n)], n);
  }

  // --- one call ---

  /** A read concerns a call exactly when the line is the response it is pending for. */
  lemma ReadOutlook(p: Peer, w: World, n: nat)
    requires BooksFit(w) && Enabled(p, w, Read)
    ensures var o, t := OutlookOf(w, n), OutlookOf(Next(p, w, Read), n);
            && o.hand == None && !o.returned && !t.returned && t.read == w.read + 1 && o.past == w.read <= t.past
            && if o.pending && AnswersTo(p.wire[w.read], Decimal(n)) then t.hand == Some(w.read) && !t.pending
               else t.hand == None && t.pending == o.pending
  {
    if Decimal(n) in w.books.pending {
      PendingIsOwn(w, n);
    }
    match KindOf(p.wire[w.read]) {
      case Response =>
        var id := p.wire[w.read].msg.id;
        if id in w.books.pending && w.books.pending[id] == n {
          assert id == Decimal(n);
        }
      case _ =>
    }
  }

  lemma SilentStep(wire: seq<Line>, id: string, from: nat, to: nat)
    requires to < |wire| && Silent(wire, id, from, to) && !AnswersTo(wire[to], id)
    ensures Silent(wire, id, from, to + 1)
  {
  }

  lemma ReadKeepsCall(wire: seq<Line>, id: string, o: Outlook, t: Outlook, c: Call)
    requires CallFits(wire, id, o, c) && o.read < |wire|
    requires o.hand == None && !o.returned && !t.returned && t.read == o.read + 1 && o.past == o.read <= t.past
    requires if o.pending && AnswersTo(wire[o.read], id) then t.hand == Some(o.read) && !t.pending
             else t.hand == None && t.pending == o.pending
    ensures CallFits(wire, id, t, c)
  {
    if t.pending {
      SilentStep(wire, id, c.since, o.read);
    }
  }

  /** The steps that are about one call. */
  predicate Concerns(s: Step, n: nat) {
    match s
    case Register(m) => m == n
    case Write(m, _) => m == n
    case Receive(m) => m == n
    case Cancel(m) => m == n
    case Forget(m) => m == n
    case GiveUp(m) => m == n
    case _ => false
  }

  lemma OwnStepKeeps(p: Peer, w: World, s: Step, n: nat)
    requires BooksFit(w) && Enabled(p, w, s) && Concerns(s, n)
    requires CallFits(p.wire, Decimal(n), OutlookOf(w, n), w.calls[n])
    ensures CallFits(p.wire, Decimal(n), OutlookOf(Next(p, w, s), n), Next(p, w, s).calls[n])
  {
  }

  /** Nothing changes for the others. */
  lemma OthersUntouched(p: Peer, w: World, s: Step, n: nat)
    requires Enabled(p, w, s) && !Concerns(s, n) && n in w.calls
    requires !s.Read? && !s.Send? && !s.Notified? && !s.AnsweredInline? && !s.Return? && !s.Allocate?
    ensures OutlookOf(Next(p, w, s), n) == OutlookOf(w, n)
    ensures n in Next(p, w, s).calls && Next(p, w, s).calls[n] == w.calls[n]
  {
    match s {
      case Register(m) => OtherIds(m, n);
      case Forget(m) => OtherIds(m, n);
      case _ =>
    }
  }

  /** The reader finishes what it has in hand, or returns. */
  lemma ReaderStepKeeps(p: Peer, w: World, s: Step, n: nat)
    requires ReaderFits(p, w) && Enabled(p, w, s) && n in w.calls
    requires s.Send? || s.Notified? || s.AnsweredInline? || s.Return?
    requires CallFits(p.wire, Decimal(n), OutlookOf(w, n), w.calls[n])
    ensures CallFits(p.wire, Decimal(n), OutlookOf(Next(p, w, s), n), Next(p, w, s).calls[n])
  {
  }

  lemma AllocateKeeps(p: Peer, w: World, n: nat)
    requires BooksFit(w) && ReaderFits(p, w) && n in Next(p, w, Allocate).calls
    requires n in w.calls ==> CallFits(p.wire, Decimal(n), OutlookOf(w, n), w.calls[n])
    ensures CallFits(p.wire, Decimal(n), OutlookOf(Next(p, w, Allocate), n), Next(p, w, Allocate).calls[n])
  {
    if n !in w.calls && Decimal(n) in w.books.pending {
      PendingIsOwn(w, n);
    }
  }

  lemma CallKeeps(p: Peer, w: World, s: Step, n: nat)
    requires BooksFit(w) && ReaderFits(p, w) && Enabled(p, w, s) && n in Next(p, w, s).calls
    requires n in w.calls ==> CallFits(p.wire, Decimal(n), OutlookOf(w, n), w.calls[n])
    ensures CallFits(p.wire, Decimal(n), OutlookOf(Next(p, w, s), n), Next(p, w, s).calls[n])
  {
    if s.Allocate? {
      AllocateKeeps(p, w, n);
    } else if Concerns(s, n) {
      OwnStepKeeps(p, w, s, n);
    } else if s.Read? {
      ReadOutlook(p, w, n);
      ReadKeepsCall(p.wire, Decimal(n), OutlookOf(w, n), OutlookOf(Next(p, w, s), n), w.calls[n]);
    } else if s.Send? || s.Notified? || s.AnsweredInline? || s.Return? {
      ReaderStepKeeps(p, w, s, n);
    } else {
      OthersUntouched(p, w, s, n);
    }
  }

  lemma NextKeepsInv(p: Peer, w: World, s: Step)
    requires Inv(p, w) && Enabled(p, w, s)
    ensures Inv(p, Next(p, w, s))
  {
    WorkKeeps(p, w, s);
    ReaderKeeps(p, w, s);
    BooksKeep(p, w, s);
    forall n | n in Next(p, w, s).calls
      ensures CallFits(p.wire, Decimal(n), OutlookOf(Next(p, w, s), n), Next(p, w, s).calls[n])
    {
      CallKeeps(p, w, s, n);
    }
  }

  ghost predicate IsRun(p: Peer, w: World, steps: seq<Step>, v: World)
    decreases |steps|
  {
    if steps == [] then v == w
    else Enabled(p, w, steps[0]) && IsRun(p, Next(p, w, steps[0]), steps[1..], v)
  }

  lemma {:induction false} RunKeepsInv(p: Peer, w: World, steps: seq<Step>, v: World)
    requires Inv(p, w) && IsRun(p, w, steps, v)
    ensures Inv(p, v)
    decreases |steps|
  {
    if steps != [] {
      NextKeepsInv(p, w, steps[0]);
      RunKeepsInv(p, Next(p, w, steps[0]), steps[1..], v);
    }
  }

  // --- what that means ---

  /** In every interleaving, the channel in deliver's hand is one of a call's and has room. */
  lemma DeliverNeverBlocks(p: Peer, steps: seq<Step>, v: World)
    requires IsRun(p, Start(), steps, v) && v.reader.Sending?
    ensures Enabled(p, v, Send) && v.reader.call in v.calls && v.calls[v.reader.call].sent == []
  {
    StartInv(p);
    RunKeepsInv(p, Start(), steps, v);
    assert CallFits(p.wire, Decimal(v.reader.call), OutlookOf(v, v.reader.call), v.calls[v.reader.call]);
  }

  lemma {:induction false} NotesGrow(wire: seq<Line>, a: nat, b: nat)
    requires a <= b <= |wire|
    ensures Notes(wire, a) <= Notes(wire, b)
    decreases b
  {
    if a < b {
      NotesGrow(wire, a, b - 1);
      Longer(Notes(wire, a), Notes(wire, b - 1), Notes(wire, b));
    }
  }

  lemma Longer(a: seq<Message>, b: seq<Message>, c: seq<Message>)
    requires a <= b <= c
    ensures a <= c
  {
  }

  /**
   * In every interleaving, a call's channel gets one message at most: the first response carrying
   * its id since it registered, after every notification in front of that one has been handled.
   */
  lemma RoutingIsExact(p: Peer, steps: seq<Step>, v: World, n: nat)
    requires IsRun(p, Start(), steps, v) && n in v.calls
    ensures var c := v.calls[n];
            && |c.sent| <= 1
            && (|c.sent| == 1 ==>
                  && FirstResponse(p.wire, Decimal(n), c.since, c.sent[0])
                  && Notes(p.wire, c.sent[0]) <= v.handled)
            && (c.phase.Answered? ==> |c.sent| == 1 && c.phase.resp == p.wire[c.sent[0]].msg)
            && (c.phase == Left(AgentGone) ==> v.reader == Returned)
  {
    StartInv(p);
    RunKeepsInv(p, Start(), steps, v);
    var c := v.calls[n];
    assert CallFits(p.wire, Decimal(n), OutlookOf(v, n), c);
    if |c.sent| == 1 {
      NotesGrow(p.wire, c.sent[0], Past(v));
    }
  }

  /** A call still waiting, with its channel empty and no delivery under way, has not been answered. */
  lemma NoAnswerIsLost(p: Peer, steps: seq<Step>, v: World, n: nat)
    requires IsRun(p, Start(), steps, v) && n in v.calls
    requires v.calls[n].phase == Waiting && v.calls[n].sent == [] && !v.reader.Sending?
    ensures Silent(p.wire, Decimal(n), v.calls[n].since, v.read)
  {
    StartInv(p);
    RunKeepsInv(p, Start(), steps, v);
    assert CallFits(p.wire, Decimal(n), OutlookOf(v, n), v.calls[n]);
  }

  // --- what an answer says ---

  ghost predicate Refuses(m: Message, e: Error) { m.error == Some(e) && m.result == "" }

  ghost predicate Accepts(m: Message, text: string) { m.error.None? && m.result == text }

  /** The response a request is owed: its id, and either what the handler made of it or an error. */
  ghost predicate Answers(handler: Option<Handler>, req: Message, m: Message) {
    && m.id == req.id && m.meth == "" && m.params == ""
    && (handler.None? ==> Refuses(m, Error(-32601, "method not supported: " + req.meth)))
    && (handler.Some? ==>
          match handler.value(req.meth, req.params)
          case Value(text) => Accepts(m, text)
          case Nothing => Accepts(m, "{}")
          case Refused(e) => Refuses(m, e)
          case Failed(text) => Refuses(m, Error(-32603, text))
          case Unencodable(text) => Refuses(m, Error(-32603, text)))
  }

  /** How many of the first k lines are requests. */
  function RequestCount(wire: seq<Line>, k: nat): nat
    requires k <= |wire|
  {
    if k == 0 then 0 else RequestCount(wire, k - 1) + if Asks(wire[k - 1]) then 1 else 0
  }

  /** One message for each request of the first k lines, in their order, each the answer to its own. */
  ghost predicate AnswersInOrder(handler: Option<Handler>, wire: seq<Line>, k: nat, ms: seq<Message>)
    requires k <= |wire|
  {
    && |ms| == RequestCount(wire, k)
    && forall q :: 0 <= q < k && Asks(wire[q]) ==>
         var nth := RequestCount(wire, q); nth < |ms| && Answers(handler, wire[q].msg, ms[nth])
  }

  lemma ReplyAnswers(handler: Option<Handler>, req: Message)
    ensures Answers(handler, req, Reply(handler, req))
  {
  }

  lemma {:induction false} RepliesAnswer(handler: Option<Handler>, wire: seq<Line>, k: nat)
    requires k <= |wire|
    ensures AnswersInOrder(handler, wire, k, Replies(handler, wire, k))
  {
    if k > 0 {
      RepliesAnswer(handler, wire, k - 1);
      if KindOf(wire[k - 1]) == Request {
        ReplyAnswers(handler, wire[k - 1].msg);
      }
    }
  }

  /**
   * Every request read is answered once, and rightly: in wire order before Serve returns when
   * inline, otherwise in some order by the time the handlers have finished.
   */
  lemma RequestsAreAnswered(p: Peer, steps: seq<Step>, v: World)
    requires IsRun(p, Start(), steps, v) && (v.reader == Reading || v.reader == Returned)
    ensures v.read <= |p.wire|
    ensures p.inline ==> v.answering == multiset{} && AnswersInOrder(p.handler, p.wire, v.read, v.answered)
    ensures exists ms :: AnswersInOrder(p.handler, p.wire, v.read, ms) &&
                         multiset(v.answered) + v.answering == multiset(ms)
    ensures v.handled == Notes(p.wire, v.read)
  {
    StartInv(p);
    RunKeepsInv(p, Start(), steps, v);
    RepliesAnswer(p.handler, p.wire, v.read);
  }

  predicate Ended(c: Call) {
    c.phase.Answered? || (c.phase.Left? && !c.phase.why.AgentGone?)
  }

  lemma PendingHasNotEnded(p: Peer, w: World, id: string)
    requires CallsFit(p, w) && BooksFit(w) && id in w.books.pending
    ensures w.books.pending[id] in w.calls && !Ended(w.calls[w.books.pending[id]])
  {
    var n := w.books.pending[id];
    assert CallFits(p.wire, Decimal(n), OutlookOf(w, n), w.calls[n]);
  }

  /** Calls that ended, other than by the agent going away, leave nothing on pending. */
  lemma PendingIsEmptied(p: Peer, steps: seq<Step>, v: World)
    requires IsRun(p, Start(), steps, v)
    requires forall n <- v.calls :: Ended(v.calls[n])
    ensures v.books.pending == map[]
  {
    StartInv(p);
    RunKeepsInv(p, Start(), steps, v);
    if v.books.pending != map[] {
      var id :| id in v.books.pending;
      PendingHasNotEnded(p, v, id);
      assert false;
    }
  }

  lemma RunCons(p: Peer, w: World, s: Step, steps: seq<Step>, v: World)
    requires Enabled(p, w, s) && IsRun(p, Next(p, w, s), steps, v)
    ensures IsRun(p, w, [s] + steps, v)
  {
    assert ([s] + steps)[1..] == steps;
  }

  /** One call, registered and waiting, with nothing read. */
  function Asked(): World {
    World(Books(1, map[Decimal(1) := 1]), map[1 := Call(Waiting, 0, [])], Reading, 0, [], multiset{}, [])
  }

  /** Its answer read and delivered. */
  function Served(): World {
    World(Books(1, map[]), map[1 := Call(Waiting, 0, [0])], Reading, 1, [], multiset{}, [])
  }

  lemma Asking(p: Peer, steps: seq<Step>, v: World)
    requires IsRun(p, Asked(), steps, v)
    ensures IsRun(p, Start(), [Allocate] + ([Register(1)] + ([Write(1, true)] + steps)), v)
  {
    var w1 := Next(p, Start(), Allocate);
    var w2 := Next(p, w1, Register(1));
    assert Next(p, w2, Write(1, true)) == Asked();
    RunCons(p, w2, Write(1, true), steps, v);
    RunCons(p, w1, Register(1), [Write(1, true)] + steps, v);
    RunCons(p, Start(), Allocate, [Register(1)] + ([Write(1, true)] + steps), v);
  }

  lemma Serving(p: Peer, resp: Message, steps: seq<Step>, v: World)
    requires p.wire == [Parsed(resp)] && resp.meth == "" && resp.id == Decimal(1)
    requires IsRun(p, Served(), steps, v)
    ensures IsRun(p, Asked(), [Read] + ([Send] + steps), v)
  {
    var w := Next(p, Asked(), Read);
    assert w.reader == Sending(1, 0) && w.books.pending == map[];
    var none: seq<nat> := [];
    assert none + [0] == [0];
    var u := Next(p, w, Send);
    assert u.calls == map[1 := Call(Waiting, 0, [0])];
    assert u == Served();
    RunCons(p, w, Send, steps, v);
    RunCons(p, Asked(), Read, [Send] + steps, v);
  }

  /**
   * Not every delivered answer is returned: when the agent answers and exits at once, the select has
   * both the message and the end of Serve to choose from.
   */
  lemma AnswerCanLoseToExit(p: Peer, resp: Message)
    requires p.wire == [Parsed(resp)] && resp.meth == "" && resp.id == Decimal(1)
    ensures exists steps, v ::
              && IsRun(p, Start(), steps, v) && 1 in v.calls && v.calls[1].sent == [0]
              && Enabled(p, v, Receive(1)) && Enabled(p, v, GiveUp(1))
  {
    var v := Next(p, Served(), Return);
    var none: seq<Step> := [];
    assert IsRun(p, v, none, v);
    RunCons(p, Served(), Return, none, v);
    Serving(p, resp, [Return] + none, v);
    Asking(p, [Read] + ([Send] + ([Return] + none)), v);
  }

  // --- when a delivered answer can be lost ---

  /** Serve returns before the call has taken its message. */
  ghost predicate ReturnFirst(steps: seq<Step>, n: nat) {
    exists i :: 0 <= i < |steps| && steps[i] == Return && Receive(n) !in steps[..i]
  }

  /** A continuation that loses the answer with no cancellation and no further return to blame. */
  ghost predicate Loses(p: Peer, v: World, n: nat, steps: seq<Step>, u: World) {
    && IsRun(p, v, steps, u) && Cancel(n) !in steps && !ReturnFirst(steps, n)
    && n in u.calls && u.calls[n].phase == Left(AgentGone)
  }

  lemma {:induction false} ReturnedIs(p: Peer, w: World, steps: seq<Step>, v: World)
    requires IsRun(p, w, steps, v)
    ensures v.reader == Returned <==> w.reader == Returned || Return in steps
    decreases |steps|
  {
    if steps != [] {
      var s := steps[0];
      assert Return in steps <==> s == Return || Return in steps[1..];
      ReturnedIs(p, Next(p, w, s), steps[1..], v);
    }
  }

  /** A step that is not the call's own leaves it where it is. */
  lemma PhaseStays(p: Peer, w: World, s: Step, n: nat)
    requires BooksFit(w) && Enabled(p, w, s) && n in w.calls && !Concerns(s, n)
    ensures n in Next(p, w, s).calls && Next(p, w, s).calls[n].phase == w.calls[n].phase
  {
  }

  lemma {:induction false} AnsweredStays(p: Peer, w: World, steps: seq<Step>, v: World, n: nat)
    requires Inv(p, w) && IsRun(p, w, steps, v) && n in w.calls && w.calls[n].phase.Answered?
    ensures n in v.calls && v.calls[n].phase == w.calls[n].phase
    decreases |steps|
  {
    if steps != [] {
      PhaseStays(p, w, steps[0], n);
      NextKeepsInv(p, w, steps[0]);
      AnsweredStays(p, Next(p, w, steps[0]), steps[1..], v, n);
    }
  }

  lemma ReturnNow(steps: seq<Step>, n: nat)
    requires steps != [] && steps[0] == Return
    ensures ReturnFirst(steps, n)
  {
    assert steps[..0] == [];
  }

  lemma ReturnLater(steps: seq<Step>, n: nat)
    requires steps != [] && ReturnFirst(steps[1..], n) && steps[0] != Receive(n)
    ensures ReturnFirst(steps, n)
  {
    var rest := steps[1..];
    var i :| 0 <= i < |rest| && rest[i] == Return && Receive(n) !in rest[..i];
    assert steps[..i + 1] == [steps[0]] + rest[..i];
    assert steps[i + 1] == Return;
  }

  lemma WaitingStep(p: Peer, w: World, s: Step, n: nat)
    requires BooksFit(w) && Enabled(p, w, s) && w.reader != Returned && s != Return
    requires n in w.calls && w.calls[n].phase == Waiting && s != Cancel(n) && s != Receive(n)
    ensures n in Next(p, w, s).calls && Next(p, w, s).calls[n].phase == Waiting && Next(p, w, s).reader != Returned
  {
    PhaseStays(p, w, s, n);
  }

  /** While Serve runs, a waiting call that is not cancelled either waits on or is answered. */
  lemma {:induction false} WaitsOrAnswered(p: Peer, w: World, steps: seq<Step>, v: World, n: nat)
    requires Inv(p, w) && IsRun(p, w, steps, v) && w.reader != Returned
    requires n in w.calls && w.calls[n].phase == Waiting && Cancel(n) !in steps && !ReturnFirst(steps, n)
    ensures n in v.calls && (v.calls[n].phase == Waiting || v.calls[n].phase.Answered?)
    decreases |steps|
  {
    if steps != [] {
      var s := steps[0];
      NextKeepsInv(p, w, s);
      if s == Receive(n) {
        AnsweredStays(p, Next(p, w, s), steps[1..], v, n);
      } else {
        if s == Return {
          ReturnNow(steps, n);
        } else if ReturnFirst(steps[1..], n) {
          ReturnLater(steps, n);
        }
        WaitingStep(p, w, s, n);
        WaitsOrAnswered(p, Next(p, w, s), steps[1..], v, n);
      }
    }
  }

  /**
   * In every run, and for every call whose answer is on its channel while it still waits: that answer
   * can be lost without a cancellation and without Serve returning from here on, exactly when Serve
   * has returned already.
   */
  lemma AnswerLostExactlyByExit(p: Peer, steps: seq<Step>, v: World, n: nat)
    requires IsRun(p, Start(), steps, v)
    requires n in v.calls && v.calls[n].phase == Waiting && |v.calls[n].sent| == 1
    ensures (exists more, u :: Loses(p, v, n, more, u)) <==> Return in steps
  {
    StartInv(p);
    RunKeepsInv(p, Start(), steps, v);
    ReturnedIs(p, Start(), steps, v);
    if Return in steps {
      var u, none: seq<Step> := Next(p, v, GiveUp(n)), [];
      assert IsRun(p, u, none, u);
      RunCons(p, v, GiveUp(n), none, u);
      assert Loses(p, v, n, [GiveUp(n)] + none, u);
    } else {
      forall more, u | Loses(p, v, n, more, u) ensures false {
        WaitsOrAnswered(p, v, more, u, n);
      }
    }
  }
}
