/** internal/builtins/parallel.go: a bounded pool of workers, and output flushed in input order. */
module Pool {

  // --- one task's command ---

  /** strings.ReplaceAll of the two-character placeholder. */
  function Filled(token: string, input: string): string {
    if |token| < 2 then token
    else if token[0] == '{' && token[1] == '}' then input + Filled(token[2..], input)
    else [token[0]] + Filled(token[1..], input)
  }

  predicate PlaceAt(token: string, i: nat) {
    i + 1 < |token| && token[i] == '{' && token[i + 1] == '}'
  }

  predicate HasPlace(token: string) {
    exists i :: 0 <= i < |token| && PlaceAt(token, i)
  }

  function ArgvOf(template: seq<string>, input: string): seq<string> {
    var filled := seq(|template|, i requires 0 <= i < |template| => Filled(template[i], input));
    if exists t <- template :: HasPlace(t) then filled else filled + [input]
  }

  method Contains(token: string) returns (found: bool)
    ensures found == HasPlace(token)
  {
    for i := 0 to |token|
      invariant forall j :: 0 <= j < i ==> !PlaceAt(token, j)
    {
      if PlaceAt(token, i) {
        return true;
      }
    }
    return false;
  }

  method TaskArgv(template: seq<string>, input: string) returns (argv: seq<string>)
    ensures argv == ArgvOf(template, input)
  {
    argv := [];
    var substituted := false;
    for i := 0 to |template|
      invariant |argv| == i && forall j :: 0 <= j < i ==> argv[j] == Filled(template[j], input)
      invariant substituted <==> exists j :: 0 <= j < i && HasPlace(template[j])
    {
      var here := Contains(template[i]);
      if here {
        substituted := true;
      }
      argv := argv + [Filled(template[i], input)];
    }
    if !substituted {
      argv := argv + [input];
    }
  }

  lemma PlaceAhead(token: string)
    requires |token| >= 2 && !PlaceAt(token, 0)
    ensures HasPlace(token) <==> HasPlace(token[1..])
  {
    var t := token[1..];
    if HasPlace(token) {
      var i :| 0 <= i < |token| && PlaceAt(token, i);
      assert PlaceAt(t, i - 1);
    }
    if HasPlace(t) {
      var i :| 0 <= i < |t| && PlaceAt(t, i);
      assert PlaceAt(token, i + 1);
    }
  }

  /** A longer input never gives a shorter token, and a longer one if there is a place for it. */
  lemma {:induction false} FilledGrows(token: string, a: string, b: string)
    requires |a| < |b|
    ensures |Filled(token, a)| <= |Filled(token, b)|
    ensures HasPlace(token) ==> |Filled(token, a)| < |Filled(token, b)|
  {
    if |token| >= 2 {
      if PlaceAt(token, 0) {
        FilledGrows(token[2..], a, b);
      } else {
        PlaceAhead(token);
        FilledGrows(token[1..], a, b);
      }
    }
  }

  lemma {:induction false} FilledTellsInputs(token: string, a: string, b: string)
    requires HasPlace(token) && |a| == |b| && Filled(token, a) == Filled(token, b)
    ensures a == b
  {
    if PlaceAt(token, 0) {
      var x, y := Filled(token[2..], a), Filled(token[2..], b);
      assert a == (a + x)[..|a|] && b == (b + y)[..|b|];
    } else {
      PlaceAhead(token);
      var x, y := Filled(token[1..], a), Filled(token[1..], b);
      assert x == ([token[0]] + x)[1..] && y == ([token[0]] + y)[1..];
      FilledTellsInputs(token[1..], a, b);
    }
  }

  /** Pieces with a separator between them. */
  function Spliced(pieces: seq<string>, sep: string): string {
    if |pieces| == 0 then ""
    else if |pieces| == 1 then pieces[0]
    else pieces[0] + (sep + Spliced(pieces[1..], sep))
  }

  /** A token is pieces without a placeholder, spliced with placeholders; filling splices them with the input. */
  ghost predicate Pieces(token: string, pieces: seq<string>) {
    token == Spliced(pieces, "{}") && forall t <- pieces :: !HasPlace(t)
  }

  ghost predicate FilledWith(token: string, input: string, argument: string) {
    exists pieces :: Pieces(token, pieces) && argument == Spliced(pieces, input)
  }

  lemma SplicedMore(first: char, pieces: seq<string>, sep: string)
    requires |pieces| >= 1
    ensures Spliced([[first] + pieces[0]] + pieces[1..], sep) == [first] + Spliced(pieces, sep)
  {
    var more := [[first] + pieces[0]] + pieces[1..];
    assert more[1..] == pieces[1..];
    if |pieces| > 1 {
      assert ([first] + pieces[0]) + (sep + Spliced(pieces[1..], sep)) ==
             [first] + (pieces[0] + (sep + Spliced(pieces[1..], sep)));
    }
  }

  /** A piece stays free of placeholders with a character in front that starts none. */
  lemma StaysFree(first: char, piece: string)
    requires !HasPlace(piece) && !PlaceAt([first] + piece, 0)
    ensures !HasPlace([first] + piece)
  {
    forall i | 0 <= i < |piece| + 1 ensures !PlaceAt([first] + piece, i) {
      if i > 0 { assert !PlaceAt(piece, i - 1); }
    }
  }

  lemma FirstPiece(pieces: seq<string>)
    requires |pieces| >= 1
    ensures pieces[0] <= Spliced(pieces, "{}")
  {
  }

  lemma {:induction false} FilledSplices(token: string) returns (pieces: seq<string>)
    ensures |pieces| >= 1 && Pieces(token, pieces)
    ensures forall input :: Filled(token, input) == Spliced(pieces, input)
    decreases |token|
  {
    if |token| < 2 {
      pieces := [token];
    } else if PlaceAt(token, 0) {
      var more := FilledSplices(token[2..]);
      pieces := [""] + more;
      PlaceInFront(token, more);
    } else {
      var more := FilledSplices(token[1..]);
      pieces := [[token[0]] + more[0]] + more[1..];
      CharInFront(token, more);
    }
  }

  lemma PlaceInFront(token: string, more: seq<string>)
    requires PlaceAt(token, 0) && |more| >= 1 && Pieces(token[2..], more)
    requires forall input :: Filled(token[2..], input) == Spliced(more, input)
    ensures Pieces(token, [""] + more)
    ensures forall input :: Filled(token, input) == Spliced([""] + more, input)
  {
    assert ([""] + more)[1..] == more && token == "{}" + token[2..];
    forall sep ensures Spliced([""] + more, sep) == sep + Spliced(more, sep) {
      assert "" + (sep + Spliced(more, sep)) == sep + Spliced(more, sep);
    }
  }

  lemma CharInFront(token: string, more: seq<string>)
    requires |token| >= 2 && !PlaceAt(token, 0) && |more| >= 1 && Pieces(token[1..], more)
    requires forall input :: Filled(token[1..], input) == Spliced(more, input)
    ensures Pieces(token, [[token[0]] + more[0]] + more[1..])
    ensures forall input :: Filled(token, input) == Spliced([[token[0]] + more[0]] + more[1..], input)
  {
    FirstPiece(more);
    StaysFree(token[0], more[0]);
    forall sep ensures Spliced([[token[0]] + more[0]] + more[1..], sep) == [token[0]] + Spliced(more, sep) {
      SplicedMore(token[0], more, sep);
    }
    assert token == [token[0]] + token[1..];
  }

  lemma NoPlaceStays(token: string, input: string)
    requires !HasPlace(token)
    ensures Filled(token, input) == token
  {
    if |token| >= 2 {
      assert !PlaceAt(token, 0);
      PlaceAhead(token);
      NoPlaceStays(token[1..], input);
    }
  }

  /**
   * A task's command: the template's tokens in their order, each with every placeholder replaced; and
   * the input as one more argument behind them exactly if there is no placeholder at all.
   */
  lemma TaskGetsItsInput(template: seq<string>, input: string)
    ensures (forall t <- template :: !HasPlace(t)) ==> ArgvOf(template, input) == template + [input]
    ensures (exists t <- template :: HasPlace(t)) ==> |ArgvOf(template, input)| == |template|
    ensures forall k :: 0 <= k < |template| ==> FilledWith(template[k], input, ArgvOf(template, input)[k])
  {
    forall k | 0 <= k < |template| && !HasPlace(template[k]) ensures Filled(template[k], input) == template[k] {
      NoPlaceStays(template[k], input);
    }
    forall k | 0 <= k < |template| ensures FilledWith(template[k], input, Filled(template[k], input)) {
      var pieces := FilledSplices(template[k]);
    }
  }

  /** Different inputs never become the same command, wherever the template puts them. */
  lemma TasksDiffer(template: seq<string>, a: string, b: string)
    requires ArgvOf(template, a) == ArgvOf(template, b)
    ensures a == b
  {
    if t :| t in template && HasPlace(t) {
      var k :| 0 <= k < |template| && template[k] == t;
      assert ArgvOf(template, a)[k] == Filled(t, a) && ArgvOf(template, b)[k] == Filled(t, b);
      if |a| < |b| {
        FilledGrows(t, a, b);
      } else if |b| < |a| {
        FilledGrows(t, b, a);
      }
      FilledTellsInputs(t, a, b);
    } else {
      assert ArgvOf(template, a)[|template|] == a && ArgvOf(template, b)[|template|] == b;
    }
  }

  // --- the pool ---

  datatype Result = Result(stdout: string, stderr: string, status: nat)

  /** What a task has that was cancelled before it started. */
  const SKIPPED := Result("", "", 130)

  /** `task` is what each task does when left alone. */
  datatype Job = Job(task: seq<Result>, workers: nat, collect: bool, failFast: bool, interruptible: bool)

  /** A worker between two accesses to what it shares with the others. */
  datatype Worker =
    | Waiting               // on the task channel
    | Took(i: nat)          // has not looked at the context yet
    | Executing(i: nat)
    | Stored(i: nat)        // its result is in, the context not yet cancelled for it
    | Closing(i: nat)       // about to close done[i]
    | Exited

  datatype World = World(
    next: nat, closed: bool,                // the feeder
    workers: seq<Worker>,
    results: seq<Result>, done: seq<bool>,
    cancelled: bool,
    flushed: nat, stdout: string, stderr: string,
    status: int)                            // negative until runPool returns

  const EMPTY := Result("", "", 0)

  function Start(j: Job): World {
    World(0, false, seq(j.workers, _ => Waiting), seq(|j.task|, _ => EMPTY), seq(|j.task|, _ => false),
          false, 0, "", "", -1)
  }

  datatype Step =
    | Hand(w: nat) | CloseTasks
    | Look(w: nat) | Finish(w: nat, r: Result) | MayCancel(w: nat) | CloseDone(w: nat) | Leave(w: nat)
    | Flush | Interrupt | Return

  predicate Busy(x: Worker) {
    x.Took? || x.Executing? || x.Stored? || x.Closing?
  }

  predicate Holds(x: Worker, i: nat) {
    Busy(x) && x.i == i
  }

  /** Every index in range; with that, what each step waits for. */
  ghost predicate Fits(j: Job, w: World) {
    && |w.workers| == j.workers && |w.results| == |w.done| == |j.task|
    && w.next <= |j.task| && w.flushed <= |j.task|
    && forall k :: 0 <= k < |w.workers| && Busy(w.workers[k]) ==> w.workers[k].i < w.next
  }

  ghost predicate Enabled(j: Job, w: World, s: Step) {
    && w.status < 0
    && match s
       case Hand(k) => k < |w.workers| && w.workers[k] == Waiting && w.next < |j.task|
       case CloseTasks => w.next == |j.task| && !w.closed
       case Look(k) => k < |w.workers| && w.workers[k].Took?
       case Finish(k, r) => k < |w.workers| && w.workers[k].Executing? && AsTask(j, w, w.workers[k].i, r)
       case MayCancel(k) => k < |w.workers| && w.workers[k].Stored?
       case CloseDone(k) => k < |w.workers| && w.workers[k].Closing?
       case Leave(k) => k < |w.workers| && w.workers[k] == Waiting && w.closed
       case Flush => j.collect && w.flushed < |j.task| && w.flushed < |w.done| && w.done[w.flushed]
       case Interrupt => j.interruptible && !w.cancelled
       case Return =>
         && w.closed && (forall k :: 0 <= k < |w.workers| ==> w.workers[k].Exited?)
         && (j.collect ==> w.flushed == |j.task|)
  }

  /** A task killed by the context may have done anything. */
  predicate AsTask(j: Job, w: World, i: nat, r: Result) {
    w.cancelled || (i < |j.task| && r == j.task[i])
  }

  function Worst(rs: seq<Result>): nat {
    if rs == [] then 0
    else
      var before, last := Worst(rs[..|rs| - 1]), rs[|rs| - 1].status;
      if last > before then last else before
  }

  ghost function Next(j: Job, w: World, s: Step): World
    requires Fits(j, w) && Enabled(j, w, s)
  {
    match s
    case Hand(k) => w.(next := w.next + 1, workers := w.workers[k := Took(w.next)])
    case CloseTasks => w.(closed := true)
    case Look(k) =>
      var i := w.workers[k].i;
      if w.cancelled then
        w.(results := w.results[i := w.results[i].(status := 130)], workers := w.workers[k := Closing(i)])
      else w.(workers := w.workers[k := Executing(i)])
    case Finish(k, r) =>
      var i := w.workers[k].i;
      w.(results := w.results[i := r], workers := w.workers[k := Stored(i)])
    case MayCancel(k) =>
      var i := w.workers[k].i;
      w.(cancelled := w.cancelled || (w.results[i].status != 0 && j.failFast), workers := w.workers[k := Closing(i)])
    case CloseDone(k) =>
      var i := w.workers[k].i;
      w.(done := w.done[i := true], workers := w.workers[k := Waiting])
    case Leave(k) => w.(workers := w.workers[k := Exited])
    case Flush =>
      var r := w.results[w.flushed];
      w.(flushed := w.flushed + 1, stdout := w.stdout + r.stdout, stderr := w.stderr + r.stderr)
    case Interrupt => w.(cancelled := true)
    case Return => w.(status := Worst(w.results))
  }

  method WorstOf(results: seq<Result>) returns (worst: nat)
    ensures worst == Worst(results)
  {
    worst := 0;
    for i := 0 to |results|
      invariant worst == Worst(results[..i])
    {
      var cut := results[..i + 1];
      assert cut[..|cut| - 1] == results[..i];
      worst := if results[i].status > worst then results[i].status else worst;
    }
    assert results[..|results|] == results;
  }

  lemma {:induction false} WorstIsMaximum(rs: seq<Result>)
    ensures forall r <- rs :: r.status <= Worst(rs)
    ensures Worst(rs) != 0 ==> exists r <- rs :: r.status == Worst(rs)
    decreases |rs|
  {
    if rs != [] {
      var before, last := rs[..|rs| - 1], rs[|rs| - 1];
      WorstIsMaximum(before);
      assert rs == before + [last];
    }
  }

  // --- each task once ---

  /** No two workers have the same task. */
  ghost predicate Apart(workers: seq<Worker>) {
    forall k, l :: 0 <= k < l < |workers| && Busy(workers[k]) && Busy(workers[l]) ==> workers[k].i != workers[l].i
  }

  ghost predicate HeldIsOpen(workers: seq<Worker>, done: seq<bool>) {
    forall k :: 0 <= k < |workers| && Busy(workers[k]) ==> workers[k].i < |done| && !done[workers[k].i]
  }

  ghost predicate Held(workers: seq<Worker>, i: nat) {
    exists k :: 0 <= k < |workers| && Holds(workers[k], i)
  }

  /** What has been handed out is done or some worker's, and only that. */
  ghost predicate Accounted(next: nat, workers: seq<Worker>, done: seq<bool>) {
    && (forall i :: 0 <= i < |done| && done[i] ==> i < next)
    && (forall i :: 0 <= i < next && i < |done| ==> done[i] || Held(workers, i))
  }

  ghost predicate Owned(w: World) {
    && Apart(w.workers) && HeldIsOpen(w.workers, w.done) && Accounted(w.next, w.workers, w.done)
    && (forall k :: 0 <= k < |w.workers| && w.workers[k].Exited? ==> w.closed)
    && (w.closed ==> w.next == |w.done|)
  }

  lemma FitsKeeps(j: Job, w: World, s: Step)
    requires Fits(j, w) && Enabled(j, w, s)
    ensures Fits(j, Next(j, w, s))
  {
  }

  /** A worker goes on with the task it has, or goes from none to none. */
  lemma MoveKeeps(workers: seq<Worker>, k: nat, x: Worker)
    requires k < |workers|
    requires Busy(workers[k]) == Busy(x) && (Busy(x) ==> x.i == workers[k].i)
    ensures Apart(workers) ==> Apart(workers[k := x])
    ensures forall i: nat :: Held(workers, i) ==> Held(workers[k := x], i)
  {
    var us := workers[k := x];
    forall i: nat | Held(workers, i) ensures Held(us, i) {
      var l :| 0 <= l < |workers| && Holds(workers[l], i);
      assert Holds(us[l], i);
    }
  }

  lemma MoveKeepsOwned(w: World, v: World, k: nat, x: Worker)
    requires Owned(w) && k < |w.workers| && v.workers == w.workers[k := x]
    requires v.next == w.next && v.closed == w.closed && v.done == w.done
    requires Busy(w.workers[k]) == Busy(x) && (Busy(x) ==> x.i == w.workers[k].i) && (x.Exited? ==> w.closed)
    ensures Owned(v)
  {
    MoveKeeps(w.workers, k, x);
  }

  lemma HandKeepsOwned(j: Job, w: World, k: nat)
    requires Fits(j, w) && Owned(w) && Enabled(j, w, Hand(k))
    ensures Owned(Next(j, w, Hand(k)))
  {
    var us := w.workers[k := Took(w.next)];
    forall i: nat | Held(w.workers, i) ensures Held(us, i) {
      var l :| 0 <= l < |w.workers| && Holds(w.workers[l], i);
      assert Holds(us[l], i);
    }
    assert Holds(us[k], w.next);
  }

  lemma CloseKeepsOwned(j: Job, w: World, k: nat)
    requires Fits(j, w) && Owned(w) && Enabled(j, w, CloseDone(k))
    ensures Owned(Next(j, w, CloseDone(k)))
  {
    var us, mine := w.workers[k := Waiting], w.workers[k].i;
    forall i: nat | Held(w.workers, i) && i != mine ensures Held(us, i) {
      var l :| 0 <= l < |w.workers| && Holds(w.workers[l], i);
      assert Holds(us[l], i);
    }
    assert Apart(us);
  }

  lemma OwnedKeeps(j: Job, w: World, s: Step)
    requires Fits(j, w) && Owned(w) && Enabled(j, w, s)
    ensures Owned(Next(j, w, s))
  {
    var v := Next(j, w, s);
    match s {
      case Hand(k) => HandKeepsOwned(j, w, k);
      case CloseDone(k) => CloseKeepsOwned(j, w, k);
      case Look(k) => MoveKeepsOwned(w, v, k, v.workers[k]);
      case Finish(k, r) => MoveKeepsOwned(w, v, k, v.workers[k]);
      case MayCancel(k) => MoveKeepsOwned(w, v, k, v.workers[k]);
      case Leave(k) => MoveKeepsOwned(w, v, k, v.workers[k]);
      case _ =>
    }
  }

  // --- what is flushed ---

  function Outs(rs: seq<Result>): string {
    if rs == [] then "" else Outs(rs[..|rs| - 1]) + rs[|rs| - 1].stdout
  }

  function Errs(rs: seq<Result>): string {
    if rs == [] then "" else Errs(rs[..|rs| - 1]) + rs[|rs| - 1].stderr
  }

  ghost predicate FlushFits(w: World) {
    && w.flushed <= |w.results| == |w.done|
    && (forall i :: 0 <= i < w.flushed ==> w.done[i])
    && w.stdout == Outs(w.results[..w.flushed]) && w.stderr == Errs(w.results[..w.flushed])
  }

  /** A result is written by the worker that holds its task, so never after it is done. */
  lemma DoneResultsStay(j: Job, w: World, s: Step, i: nat)
    requires Fits(j, w) && Owned(w) && Enabled(j, w, s) && i < |w.done| && w.done[i]
    ensures Next(j, w, s).done[i] && Next(j, w, s).results[i] == w.results[i]
  {
  }

  lemma FlushedStay(j: Job, w: World, s: Step)
    requires Fits(j, w) && Owned(w) && FlushFits(w) && Enabled(j, w, s)
    ensures var v := Next(j, w, s);
            && |v.results| == |v.done| == |w.results| && v.results[..w.flushed] == w.results[..w.flushed]
            && forall i :: 0 <= i < w.flushed ==> v.done[i]
  {
    var v := Next(j, w, s);
    forall i | 0 <= i < w.flushed ensures v.done[i] && v.results[i] == w.results[i] {
      DoneResultsStay(j, w, s, i);
    }
  }

  lemma FlushKeeps(j: Job, w: World, s: Step)
    requires Fits(j, w) && Owned(w) && FlushFits(w) && Enabled(j, w, s)
    ensures FlushFits(Next(j, w, s))
  {
    FlushedStay(j, w, s);
    if s.Flush? {
      OneMore(w.results, w.flushed);
    }
  }

  lemma OneMore(rs: seq<Result>, k: nat)
    requires k < |rs|
    ensures Outs(rs[..k + 1]) == Outs(rs[..k]) + rs[k].stdout
    ensures Errs(rs[..k + 1]) == Errs(rs[..k]) + rs[k].stderr
  {
    var cut := rs[..k + 1];
    assert cut[..|cut| - 1] == rs[..k];
  }

  // --- what the results are ---

  predicate Unsettled(x: Worker) {
    x.Took? || x.Executing?
  }

  /** Handed out, and its result is in. */
  ghost predicate Settled(w: World, i: nat) {
    && i < w.next
    && forall k :: 0 <= k < |w.workers| && Unsettled(w.workers[k]) ==> w.workers[k].i != i
  }

  /** Settled, and the context has been cancelled for it if it should be. */
  ghost predicate Judged(w: World, i: nat) {
    && Settled(w, i)
    && forall k :: 0 <= k < |w.workers| && w.workers[k].Stored? ==> w.workers[k].i != i
  }

  ghost predicate Culprit(j: Job, w: World, i: nat) {
    i < |w.results| && i < |j.task| && Settled(w, i) && w.results[i] == j.task[i] && j.task[i].status != 0
  }

  /** Without interrupts: all results are the tasks' own, unless a failing one cancelled the rest. */
  ghost predicate ResultsFit(j: Job, w: World) {
    && |w.results| == |j.task|
    && (!w.cancelled ==> forall i :: 0 <= i < |j.task| && Settled(w, i) ==> w.results[i] == j.task[i])
    && (!w.cancelled && j.failFast ==> forall i :: 0 <= i < |j.task| && Judged(w, i) ==> j.task[i].status == 0)
    && (w.cancelled ==> j.failFast && exists i: nat :: Culprit(j, w, i))
  }

  lemma SettledBefore(j: Job, w: World, s: Step, i: nat)
    requires Fits(j, w) && Owned(w) && Enabled(j, w, s) && i < |j.task|
    requires Settled(Next(j, w, s), i) && !Settled(w, i)
    ensures s.Finish? || (s.Look? && w.cancelled)
    ensures w.workers[s.w].i == i
  {
    var v := Next(j, w, s);
    assert s.Hand? ==> Unsettled(v.workers[s.w]);
    assert i < w.next;
    var k :| 0 <= k < |w.workers| && Unsettled(w.workers[k]) && w.workers[k].i == i;
    LosesTask(j, w, s, k);
  }

  /** Only by its own step does a worker cease to be unsettled. */
  lemma LosesTask(j: Job, w: World, s: Step, k: nat)
    requires Fits(j, w) && Enabled(j, w, s) && k < |w.workers| && Unsettled(w.workers[k])
    requires Settled(Next(j, w, s), w.workers[k].i)
    ensures (s.Finish? || (s.Look? && w.cancelled)) && s.w == k
  {
    var mine, x := w.workers[k].i, Next(j, w, s).workers[k];
    assert !Unsettled(x) || !Holds(x, mine);
  }

  lemma SettledStays(j: Job, w: World, s: Step, i: nat)
    requires Fits(j, w) && Owned(w) && Enabled(j, w, s) && i < |j.task| && Settled(w, i)
    ensures Settled(Next(j, w, s), i) && Next(j, w, s).results[i] == w.results[i]
  {
  }

  lemma JudgedBefore(j: Job, w: World, s: Step, i: nat)
    requires Fits(j, w) && Owned(w) && Enabled(j, w, s) && i < |j.task|
    requires Judged(Next(j, w, s), i) && !Judged(w, i)
    ensures (s.MayCancel? && w.workers[s.w].i == i) || (s.Look? && w.cancelled)
  {
    var v := Next(j, w, s);
    if !Settled(w, i) {
      SettledBefore(j, w, s, i);
      FinishStores(j, w, s);
    } else {
      var k :| 0 <= k < |w.workers| && w.workers[k].Stored? && w.workers[k].i == i;
      var x := v.workers[k];
      assert !x.Stored? || !Holds(x, i);
    }
  }

  lemma FinishStores(j: Job, w: World, s: Step)
    requires Fits(j, w) && Enabled(j, w, s)
    ensures s.Finish? ==>
              s.w < |w.workers| && Busy(w.workers[s.w]) && Next(j, w, s).workers[s.w] == Stored(w.workers[s.w].i)
  {
  }

  lemma OwnResults(j: Job, w: World, s: Step, i: nat)
    requires Fits(j, w) && Owned(w) && ResultsFit(j, w) && Enabled(j, w, s)
    requires !Next(j, w, s).cancelled && i < |j.task| && Settled(Next(j, w, s), i)
    ensures Next(j, w, s).results[i] == j.task[i]
  {
    if Settled(w, i) {
      SettledStays(j, w, s, i);
    } else {
      SettledBefore(j, w, s, i);
    }
  }

  lemma JudgedPass(j: Job, w: World, s: Step, i: nat)
    requires Fits(j, w) && Owned(w) && ResultsFit(j, w) && Enabled(j, w, s)
    requires !Next(j, w, s).cancelled && j.failFast && i < |j.task| && Judged(Next(j, w, s), i)
    ensures j.task[i].status == 0
  {
    if !Judged(w, i) {
      JudgedBefore(j, w, s, i);
      assert Settled(w, i);
    }
  }

  lemma CulpritStays(j: Job, w: World, s: Step)
    requires Fits(j, w) && Owned(w) && ResultsFit(j, w) && Enabled(j, w, s) && !s.Interrupt?
    requires Next(j, w, s).cancelled
    ensures j.failFast && exists i: nat :: Culprit(j, Next(j, w, s), i)
  {
    if w.cancelled {
      var i: nat :| Culprit(j, w, i);
      SettledStays(j, w, s, i);
      assert Culprit(j, Next(j, w, s), i);
    } else {
      var i := w.workers[s.w].i;
      assert Settled(w, i);
      SettledStays(j, w, s, i);
      assert Culprit(j, Next(j, w, s), i);
    }
  }

  lemma ResultsKeep(j: Job, w: World, s: Step)
    requires Fits(j, w) && Owned(w) && ResultsFit(j, w) && Enabled(j, w, s) && !s.Interrupt?
    ensures ResultsFit(j, Next(j, w, s))
  {
    var v := Next(j, w, s);
    if v.cancelled {
      CulpritStays(j, w, s);
    } else {
      forall i | 0 <= i < |j.task| && Settled(v, i) ensures v.results[i] == j.task[i] {
        OwnResults(j, w, s, i);
      }
      forall i | 0 <= i < |j.task| && Judged(v, i) && j.failFast ensures j.task[i].status == 0 {
        JudgedPass(j, w, s, i);
      }
    }
  }

  // --- every run ---

  ghost predicate Closed(j: Job, w: World) {
    w.status >= 0 ==>
      && w.status == Worst(w.results) && w.closed && (j.collect ==> w.flushed == |j.task|)
      && forall k :: 0 <= k < |w.workers| ==> w.workers[k].Exited?
  }

  ghost predicate Inv(j: Job, w: World) {
    && Fits(j, w) && Owned(w) && FlushFits(w) && Closed(j, w)
    && (!j.interruptible ==> ResultsFit(j, w))
  }

  lemma StartInv(j: Job)
    ensures Inv(j, Start(j))
  {
  }

  lemma NextKeepsInv(j: Job, w: World, s: Step)
    requires Inv(j, w) && Enabled(j, w, s)
    ensures Inv(j, Next(j, w, s))
  {
    FitsKeeps(j, w, s);
    OwnedKeeps(j, w, s);
    FlushKeeps(j, w, s);
    if !j.interruptible {
      ResultsKeep(j, w, s);
    }
  }

  ghost predicate IsRun(j: Job, w: World, steps: seq<Step>, v: World)
    decreases |steps|
  {
    if steps == [] then v == w
    else Fits(j, w) && Enabled(j, w, steps[0]) && IsRun(j, Next(j, w, steps[0]), steps[1..], v)
  }

  lemma {:induction false} RunKeepsInv(j: Job, w: World, steps: seq<Step>, v: World)
    requires Inv(j, w) && IsRun(j, w, steps, v)
    ensures Inv(j, v)
    decreases |steps|
  {
    if steps != [] {
      NextKeepsInv(j, w, steps[0]);
      RunKeepsInv(j, Next(j, w, steps[0]), steps[1..], v);
    }
  }

  /** When runPool returns, every task is done and no worker has one. */
  lemma AllSettled(j: Job, w: World)
    requires Inv(j, w) && w.status >= 0
    ensures w.next == |j.task| && forall i :: 0 <= i < |j.task| ==> w.done[i] && Judged(w, i)
  {
    forall i | 0 <= i < |j.task| ensures w.done[i] && Judged(w, i) {
      assert !Held(w.workers, i);
    }
  }

  /** In every interleaving, even an interrupted one: whole outputs in input order, and the worst status. */
  lemma OutputInOrder(j: Job, steps: seq<Step>, v: World)
    requires IsRun(j, Start(j), steps, v) && v.status >= 0
    ensures |v.results| == |v.done| == |j.task| && forall i :: 0 <= i < |j.task| ==> v.done[i]
    ensures j.collect ==> v.stdout == Outs(v.results) && v.stderr == Errs(v.results)
    ensures v.status == Worst(v.results)
  {
    StartInv(j);
    RunKeepsInv(j, Start(j), steps, v);
    AllSettled(j, v);
    assert v.results[..|v.results|] == v.results;
  }

  /** Left alone, every interleaving ends with the same output and status. */
  lemma ScheduleDoesNotShow(j: Job, steps: seq<Step>, v: World)
    requires IsRun(j, Start(j), steps, v) && v.status >= 0
    requires !j.interruptible && !j.failFast
    ensures j.collect ==> v.stdout == Outs(j.task) && v.stderr == Errs(j.task)
    ensures v.status == Worst(j.task)
  {
    OutputInOrder(j, steps, v);
    StartInv(j);
    RunKeepsInv(j, Start(j), steps, v);
    AllSettled(j, v);
    assert v.results == j.task;
  }

  /** Fail-fast changes which tasks run, never whether the whole succeeds; and a success is complete. */
  lemma FailFastVerdict(j: Job, steps: seq<Step>, v: World)
    requires IsRun(j, Start(j), steps, v) && v.status >= 0 && !j.interruptible
    ensures v.status == 0 <==> forall t <- j.task :: t.status == 0
    ensures v.status == 0 ==> v.results == j.task
  {
    OutputInOrder(j, steps, v);
    StartInv(j);
    RunKeepsInv(j, Start(j), steps, v);
    AllSettled(j, v);
    WorstIsMaximum(v.results);
    if v.cancelled {
      var i: nat :| Culprit(j, v, i);
      assert v.results[i] in v.results && j.task[i] in j.task;
    } else {
      assert v.results == j.task;
    }
  }

  /** The channel of a task is closed by the worker that has it, and only then: never a second time. */
  lemma ClosedOnce(j: Job, steps: seq<Step>, v: World, k: nat)
    requires IsRun(j, Start(j), steps, v) && Enabled(j, v, CloseDone(k))
    ensures v.workers[k].i < |v.done| && !v.done[v.workers[k].i]
    ensures forall l :: 0 <= l < |v.workers| && l != k && Busy(v.workers[l]) ==> v.workers[l].i != v.workers[k].i
  {
    StartInv(j);
    RunKeepsInv(j, Start(j), steps, v);
  }

  // --- it ends ---

  function Stage(x: Worker): nat {
    match x
    case Took(_) => 5
    case Executing(_) => 4
    case Stored(_) => 3
    case Closing(_) => 2
    case Waiting => 1
    case Exited => 0
  }

  function Stages(workers: seq<Worker>): nat {
    if workers == [] then 0 else Stage(workers[0]) + Stages(workers[1..])
  }

  lemma {:induction false} StagesUpdate(workers: seq<Worker>, k: nat, x: Worker)
    requires k < |workers|
    ensures Stages(workers[k := x]) == Stages(workers) - Stage(workers[k]) + Stage(x)
  {
    var us := workers[k := x];
    if k == 0 {
      assert us[1..] == workers[1..];
    } else {
      StagesUpdate(workers[1..], k - 1, x);
      assert us[1..] == workers[1..][k - 1 := x];
    }
  }

  /** What is left to do. */
  ghost function Left(j: Job, w: World): int {
    5 * (|j.task| - w.next) + Stages(w.workers) + (|j.task| - w.flushed)
    + (if w.closed then 0 else 1) + (if w.cancelled then 0 else 1) + (if w.status >= 0 then 0 else 1)
  }

  /** Every step leaves less to do, so no run is longer than what there was at its start. */
  lemma StepsRunOut(j: Job, w: World, s: Step)
    requires Fits(j, w) && Enabled(j, w, s)
    ensures 0 <= Left(j, Next(j, w, s)) < Left(j, w)
  {
    FitsKeeps(j, w, s);
    var v := Next(j, w, s);
    if s.Hand? || s.Look? || s.Finish? || s.MayCancel? || s.CloseDone? || s.Leave? {
      StagesUpdate(w.workers, s.w, v.workers[s.w]);
    }
  }

  lemma {:induction false} RunsAreBounded(j: Job, w: World, steps: seq<Step>, v: World)
    requires Inv(j, w) && IsRun(j, w, steps, v)
    ensures |steps| <= Left(j, w) - Left(j, v) && Left(j, v) >= 0
    decreases |steps|
  {
    if steps != [] {
      StepsRunOut(j, w, steps[0]);
      NextKeepsInv(j, w, steps[0]);
      RunsAreBounded(j, Next(j, w, steps[0]), steps[1..], v);
    }
  }

  /** And before runPool returns, some step can always be taken. */
  lemma NoDeadlock(j: Job, w: World) returns (s: Step)
    requires Inv(j, w) && w.status < 0 && j.workers >= 1
    ensures Enabled(j, w, s)
  {
    if k :| 0 <= k < |w.workers| && !w.workers[k].Exited? {
      s := match w.workers[k]
           case Took(_) => Look(k)
           case Executing(i) => Finish(k, j.task[i])
           case Stored(_) => MayCancel(k)
           case Closing(_) => CloseDone(k)
           case Waiting => if w.next < |j.task| then Hand(k) else if w.closed then Leave(k) else CloseTasks
           case Exited => Return;
    } else {
      assert w.workers[0].Exited?;
      s := if j.collect && w.flushed < |j.task| then Flush else Return;
      assert !Held(w.workers, w.flushed);
    }
  }

  // --- one worker, and fail-fast ---

  /** The first task that fails, or their number. */
  function FirstFailure(task: seq<Result>): (k: nat)
    ensures k <= |task| && (forall i :: 0 <= i < k ==> task[i].status == 0)
    ensures k < |task| ==> task[k].status != 0
  {
    if task == [] || task[0].status != 0 then 0
    else
      var k := FirstFailure(task[1..]);
      assert forall i :: 0 < i < k + 1 ==> task[i] == task[1..][i - 1];
      k + 1
  }

  /** Everything up to the first failure is executed, everything after it skipped. */
  function InTurn(task: seq<Result>): seq<Result> {
    seq(|task|, i requires 0 <= i < |task| => if i <= FirstFailure(task) then task[i] else SKIPPED)
  }

  /** The worker, k being the first failure. */
  ghost predicate SerialTurn(w: World, k: nat) {
    && |w.workers| == 1
    && var x := w.workers[0];
       && (Busy(x) ==> x.i + 1 == w.next)
       && (w.cancelled <==> k < w.next && !((Unsettled(x) || x.Stored?) && x.i == k))
       && (x.Executing? || x.Stored? ==> x.i <= k)
  }

  /** What it has written so far. */
  ghost predicate SerialResults(w: World, turn: seq<Result>) {
    && |w.workers| == 1 && |w.results| == |turn|
    && forall i :: 0 <= i < |w.results| ==>
         w.results[i] == if i < w.next && !(Unsettled(w.workers[0]) && w.workers[0].i == i) then turn[i] else EMPTY
  }

  ghost predicate SerialFits(j: Job, w: World) {
    SerialTurn(w, FirstFailure(j.task)) && SerialResults(w, InTurn(j.task))
  }

  lemma SerialTurnKeeps(j: Job, w: World, s: Step)
    requires Fits(j, w) && SerialFits(j, w) && Enabled(j, w, s) && j.failFast && !j.interruptible
    ensures SerialTurn(Next(j, w, s), FirstFailure(j.task))
  {
  }

  lemma SerialResultsKeep(j: Job, w: World, s: Step)
    requires Fits(j, w) && SerialFits(j, w) && Enabled(j, w, s) && j.failFast && !j.interruptible
    ensures SerialResults(Next(j, w, s), InTurn(j.task))
  {
  }

  lemma SerialKeeps(j: Job, w: World, s: Step)
    requires Fits(j, w) && SerialFits(j, w) && Enabled(j, w, s) && j.failFast && !j.interruptible
    ensures SerialFits(j, Next(j, w, s))
  {
    SerialTurnKeeps(j, w, s);
    SerialResultsKeep(j, w, s);
  }

  lemma {:induction false} SerialRun(j: Job, w: World, steps: seq<Step>, v: World)
    requires IsRun(j, w, steps, v) && Inv(j, w) && SerialFits(j, w) && j.failFast && !j.interruptible
    ensures SerialFits(j, v)
    decreases |steps|
  {
    if steps != [] {
      NextKeepsInv(j, w, steps[0]);
      SerialKeeps(j, w, steps[0]);
      SerialRun(j, Next(j, w, steps[0]), steps[1..], v);
    }
  }

  /** With -j 1 and --fail-fast the executed tasks are a prefix, and all later ones report 130. */
  lemma OneWorkerStopsAtOnce(j: Job, steps: seq<Step>, v: World)
    requires IsRun(j, Start(j), steps, v) && v.status >= 0
    requires j.workers == 1 && j.failFast && !j.interruptible
    ensures v.results == InTurn(j.task)
    ensures j.collect ==> v.stdout == Outs(InTurn(j.task)) && v.stderr == Errs(InTurn(j.task))
    ensures v.status == Worst(InTurn(j.task))
  {
    OutputInOrder(j, steps, v);
    StartInv(j);
    SerialRun(j, Start(j), steps, v);
    RunKeepsInv(j, Start(j), steps, v);
    AllSettled(j, v);
    assert v.results == InTurn(j.task);
  }
}
