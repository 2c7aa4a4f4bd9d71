/** internal/jobs/table_unix.go: what a job's books say, told by what was booked. */
module JobLog {
  import opened Options
  import opened Jobs

  /** What happened to a job: its processes' starts and ends, and what was booked of stops, exits, resumptions. */
  datatype Mark =
    | Started(pid: nat)
    | Died(pid: nat, status: int)
    | Halted
    | Resumed
    | Exited(pid: nat, status: int, last: bool)

  /** What a waiter brings into the books; an exit is the last if every other process is booked. */
  ghost function Booked(j: JobState, h: Waiter): seq<Mark> {
    match h
    case SawStop => [Mark.Halted]
    case SawExit(pid, status) => [Exited(pid, status, Unbooked(j.procs) <= {pid})]
    case _ => []
  }

  /** What a step records of job i. */
  ghost function MarksOf(w: World, s: Step, i: nat): seq<Mark>
    requires i < |w.jobs|
  {
    var j := w.jobs[i];
    match s
    case Spawn(pid) => if w.line.Open? && w.line.job == i then [Started(pid)] else []
    case Die(k, p, status) => if k == i then [Died(p, status)] else []
    case HandlerRecords(k, p) => if k == i && p in j.handlers then Booked(j, j.handlers[p]) else []
    case ReaperRecords(k) => if k == i && j.reaper.Some? then Booked(j, j.reaper.value) else []
    case Resume(id) => if id in w.listed && w.listed[id] == i then [Resumed] else []
    case _ => []
  }

  ghost function Recorded(w: World, s: Step, i: nat): seq<Mark> {
    if i < |w.jobs| then MarksOf(w, s, i) else []
  }

  /** What a run records of job i. */
  ghost function Log(w: World, steps: seq<Step>, i: nat): seq<Mark>
    decreases |steps|
  {
    if steps == [] || !Enabled(w, steps[0]) then []
    else Recorded(w, steps[0], i) + Log(Next(w, steps[0]), steps[1..], i)
  }

  /** Stopped by a stop, running again once resumed, done with the exit of the last process. */
  function StateTold(log: seq<Mark>): State {
    if log == [] then Running
    else
      var before := StateTold(log[..|log| - 1]);
      match log[|log| - 1]
      case Started(_) => before
      case Died(_, _) => before
      case Halted => Stopped
      case Resumed => Running
      case Exited(_, _, last) => if last then Done else before
  }

  /** The status booked last. */
  function ExitTold(log: seq<Mark>): int {
    if log == [] then 0
    else if log[|log| - 1].Exited? then log[|log| - 1].status
    else ExitTold(log[..|log| - 1])
  }

  /** The first process leads the group. */
  function GroupTold(log: seq<Mark>): nat {
    if log == [] then 0
    else
      var before := GroupTold(log[..|log| - 1]);
      if before == 0 && log[|log| - 1].Started? then log[|log| - 1].pid else before
  }

  ghost predicate Told(b: Books, log: seq<Mark>) {
    b.state == StateTold(log) && b.exit == ExitTold(log) && b.pgid == GroupTold(log)
  }

  lemma ToldNext(b: Books, log: seq<Mark>, m: Mark, c: Books)
    requires Told(b, log)
    requires c.state == match m
                        case Started(_) => b.state
                        case Died(_, _) => b.state
                        case Halted => Stopped
                        case Resumed => Running
                        case Exited(_, _, last) => if last then Done else b.state
    requires c.exit == if m.Exited? then m.status else b.exit
    requires c.pgid == if b.pgid == 0 && m.Started? then m.pid else b.pgid
    ensures Told(c, log + [m])
  {
    assert (log + [m])[..|log|] == log;
  }

  lemma ToldSame(b: Books, log: seq<Mark>, c: Books)
    requires Told(b, log) && c.state == b.state && c.exit == b.exit && c.pgid == b.pgid
    ensures Told(c, log + [])
  {
    assert log + [] == log;
  }

  /** An exit on its way into the books, or booked, is how its process ended. */
  ghost predicate Dead(j: JobState, log: seq<Mark>) {
    && (forall p <- j.procs :: j.procs[p].Zombie? ==> Died(p, j.procs[p].status) in log)
    && (forall p <- j.handlers :: j.handlers[p].SawExit? ==> Died(j.handlers[p].pid, j.handlers[p].status) in log)
    && (j.reaper.Some? && j.reaper.value.SawExit? ==> Died(j.reaper.value.pid, j.reaper.value.status) in log)
  }

  ghost predicate Sourced(log: seq<Mark>) {
    forall k :: 0 <= k < |log| && log[k].Exited? ==> Died(log[k].pid, log[k].status) in log[..k]
  }

  lemma SourcedNext(log: seq<Mark>, marks: seq<Mark>)
    requires Sourced(log) && |marks| <= 1
    requires marks != [] && marks[0].Exited? ==> Died(marks[0].pid, marks[0].status) in log
    ensures Sourced(log + marks)
  {
    var all := log + marks;
    forall k | 0 <= k < |all| && all[k].Exited? ensures Died(all[k].pid, all[k].status) in all[..k] {
      if k < |log| {
        assert all[..k] == log[..k];
      } else {
        assert all[..k] == log;
      }
    }
  }

  lemma JobDead(w: World, s: Step, i: nat, log: seq<Mark>)
    requires Enabled(w, s) && i < |w.jobs| && StepJob(w, s) == Some(i) && Dead(w.jobs[i], log)
    ensures Dead(JobStep(w.jobs[i], s), log + MarksOf(w, s, i))
  {
  }

  lemma JobSourced(w: World, s: Step, i: nat, log: seq<Mark>)
    requires Inv(w) && Enabled(w, s) && i < |w.jobs| && StepJob(w, s) == Some(i)
    requires Dead(w.jobs[i], log) && Sourced(log)
    ensures Sourced(log + MarksOf(w, s, i))
  {
    var j := w.jobs[i];
    assert JobInv(j, Mine(w, i));
    if s.HandlerRecords? {
      assert HandlerFits(j.procs, s.pid, j.handlers[s.pid]);
    }
    SourcedNext(log, MarksOf(w, s, i));
  }

  /** Booking an exit brings live to zero exactly if it is the last. */
  lemma LastExit(j: JobState, mine: bool, pid: nat)
    requires JobInv(j, mine) && pid in j.procs && j.procs[pid] == Collected
    ensures j.books.live - 1 <= 0 <==> Unbooked(j.procs) <= {pid}
  {
    var u := Unbooked(j.procs);
    assert pid in u && |u - {pid}| == |u| - 1;
    assert u <= {pid} <==> u - {pid} == {};
  }

  lemma JobTold(w: World, s: Step, i: nat, log: seq<Mark>)
    requires Inv(w) && Enabled(w, s) && i < |w.jobs| && StepJob(w, s) == Some(i) && Told(w.jobs[i].books, log)
    requires !s.HandlerError? && !s.ReaperError?
    ensures Told(JobStep(w.jobs[i], s).books, log + MarksOf(w, s, i))
  {
    var j := w.jobs[i];
    var c := JobStep(j, s).books;
    assert JobInv(j, Mine(w, i));
    match s {
      case Die(_, pid, status) => ToldNext(j.books, log, Died(pid, status), c);
      case Spawn(pid) => ToldNext(j.books, log, Started(pid), c);
      case HandlerRecords(_, p) =>
        assert HandlerFits(j.procs, p, j.handlers[p]);
        if j.handlers[p].SawExit? {
          LastExit(j, Mine(w, i), p);
          ToldNext(j.books, log, Exited(p, j.handlers[p].status, Unbooked(j.procs) <= {p}), c);
        } else {
          ToldNext(j.books, log, Mark.Halted, c);
        }
      case ReaperRecords(_) =>
        if j.reaper.value.SawExit? {
          var pid := j.reaper.value.pid;
          LastExit(j, Mine(w, i), pid);
          ToldNext(j.books, log, Exited(pid, j.reaper.value.status, Unbooked(j.procs) <= {pid}), c);
        } else {
          ToldNext(j.books, log, Mark.Halted, c);
        }
      case Resume(id) =>
        assert j.books.id == id && j.books.state != Done;
        ToldNext(j.books, log, Resumed, c);
      case _ => ToldSame(j.books, log, c);
    }
  }

  /** A step of another job, or of the line, records nothing of this one. */
  lemma OtherTold(w: World, s: Step, i: nat, log: seq<Mark>)
    requires Enabled(w, s) && i < |w.jobs| && StepJob(w, s) != Some(i) && JobKnown(w.jobs[i], log)
    ensures i < |Next(w, s).jobs| && JobKnown(Next(w, s).jobs[i], log + MarksOf(w, s, i))
  {
    assert MarksOf(w, s, i) == [] && log + [] == log;
  }

  ghost predicate JobKnown(j: JobState, log: seq<Mark>) {
    Told(j.books, log) && Dead(j, log) && Sourced(log)
  }

  lemma StepTold(w: World, s: Step, i: nat, log: seq<Mark>)
    requires Inv(w) && Enabled(w, s) && i < |w.jobs| && JobKnown(w.jobs[i], log)
    ensures i < |Next(w, s).jobs| && JobKnown(Next(w, s).jobs[i], log + MarksOf(w, s, i))
  {
    ErrorsNeverEnabled(w, s);
    if StepJob(w, s) == Some(i) {
      JobTold(w, s, i, log);
      JobDead(w, s, i, log);
      JobSourced(w, s, i, log);
    } else {
      OtherTold(w, s, i, log);
    }
  }

  /** Job i, if it is there yet, is as what was recorded says. */
  ghost predicate Known(w: World, i: nat, log: seq<Mark>) {
    if i < |w.jobs| then JobKnown(w.jobs[i], log) else log == []
  }

  lemma StepKnown(w: World, s: Step, i: nat, log: seq<Mark>)
    requires Inv(w) && Enabled(w, s) && Known(w, i, log)
    ensures Known(Next(w, s), i, log + Recorded(w, s, i))
  {
    if i < |w.jobs| {
      StepTold(w, s, i, log);
    }
  }

  lemma RunHead(w: World, steps: seq<Step>, v: World, i: nat)
    requires steps != [] && IsRun(w, steps, v)
    ensures Enabled(w, steps[0]) && IsRun(Next(w, steps[0]), steps[1..], v)
    ensures Log(w, steps, i) == Recorded(w, steps[0], i) + Log(Next(w, steps[0]), steps[1..], i)
  {
  }

  /** From any point of a run on, given what was recorded before. */
  lemma {:induction false} RunKnown(w: World, steps: seq<Step>, v: World, i: nat, log: seq<Mark>)
    requires Inv(w) && IsRun(w, steps, v) && Known(w, i, log)
    ensures Known(v, i, log + Log(w, steps, i))
    decreases |steps|
  {
    if steps == [] {
      assert log + [] == log;
    } else {
      RunHead(w, steps, v, i);
      StepAhead(w, steps[0], Next(w, steps[0]), i, log);
      var marks := Recorded(w, steps[0], i);
      RunKnown(Next(w, steps[0]), steps[1..], v, i, log + marks);
      Joined(log, marks, Log(Next(w, steps[0]), steps[1..], i));
    }
  }

  lemma StepAhead(w: World, s: Step, next: World, i: nat, log: seq<Mark>)
    requires Inv(w) && Enabled(w, s) && next == Next(w, s) && Known(w, i, log)
    ensures Inv(next) && Known(next, i, log + Recorded(w, s, i))
  {
    NextKeepsInv(w, s);
    StepKnown(w, s, i, log);
  }

  lemma Joined(a: seq<Mark>, b: seq<Mark>, c: seq<Mark>)
    ensures a + (b + c) == a + b + c
  {
  }

  /**
   * After any run a job's state, exit status and group are told by what was recorded of it: Stopped
   * since a stop, Running since the last resumption, Done since the exit of its last process; the
   * status is the one booked last, and every booked one is how that process ended; the group is the
   * first process's.
   */
  lemma BooksAreTold(steps: seq<Step>, v: World, i: nat)
    requires IsRun(START, steps, v) && i < |v.jobs|
    ensures var b, log := v.jobs[i].books, Log(START, steps, i);
            && b.state == StateTold(log) && b.exit == ExitTold(log) && b.pgid == GroupTold(log)
            && forall k :: 0 <= k < |log| && log[k].Exited? ==> Died(log[k].pid, log[k].status) in log[..k]
  {
    StartInv();
    RunKnown(START, steps, v, i, []);
    assert [] + Log(START, steps, i) == Log(START, steps, i);
  }
}
