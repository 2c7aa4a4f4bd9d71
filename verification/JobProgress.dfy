/** internal/jobs/table_unix.go: nobody is stuck, nobody goes round in circles, and ids run on. */
module JobProgress {
  import opened Options
  import opened Jobs

  /** What is left to do of what has already happened, the kernel and the user adding nothing. */
  ghost function Reportable(procs: map<nat, Proc>): set<nat> {
    set p <- procs | Reports(procs[p])
  }

  function Stage(reaper: Option<Waiter>): nat {
    match reaper
    case Some(SawStop) => 2
    case Some(SawExit(_, _)) => 2
    case Some(Checking) => 1
    case _ => 0
  }

  ghost function JobWork(j: JobState): nat {
    4 * |Reportable(j.procs)| + |j.handlers| + Stage(j.reaper)
  }

  ghost function WorkOf(jobs: seq<JobState>): nat {
    if jobs == [] then 0 else JobWork(jobs[0]) + WorkOf(jobs[1..])
  }

  function LineWork(l: Line): nat {
    match l case Idle => 0 case Filing(_) => 1 case Open(_) => 2
  }

  ghost function Work(w: World): nat { WorkOf(w.jobs) + LineWork(w.line) }

  lemma {:induction false} WorkUpdate(jobs: seq<JobState>, i: nat, j: JobState)
    requires i < |jobs|
    ensures WorkOf(jobs[i := j]) == WorkOf(jobs) - JobWork(jobs[i]) + JobWork(j)
  {
    var all := jobs[i := j];
    if i == 0 {
      assert all[1..] == jobs[1..];
    } else {
      WorkUpdate(jobs[1..], i - 1, j);
      assert all[1..] == jobs[1..][i - 1 := j];
    }
  }

  lemma OneReportLess(procs: map<nat, Proc>, p: nat, q: Proc)
    requires p in procs && Reports(procs[p]) && !Reports(q)
    ensures |Reportable(procs[p := q])| == |Reportable(procs)| - 1
  {
    assert Reportable(procs[p := q]) == Reportable(procs) - {p};
  }

  lemma NoReportMore(procs: map<nat, Proc>, p: nat, q: Proc)
    requires !Reports(q)
    ensures |Reportable(procs[p := q])| <= |Reportable(procs)|
  {
    var r, t := Reportable(procs), Reportable(procs[p := q]);
    assert t == r - {p};
  }

  lemma OneHandlerLess(handlers: map<nat, Waiter>, p: nat)
    requires p in handlers
    ensures |handlers - {p}| == |handlers| - 1
  {
    assert (handlers - {p}).Keys == handlers.Keys - {p};
    assert |handlers.Keys| == |handlers| && |(handlers - {p}).Keys| == |handlers - {p}|;
  }

  lemma SameHandlers(handlers: map<nat, Waiter>, p: nat, h: Waiter)
    requires p in handlers
    ensures |handlers[p := h]| == |handlers|
  {
    assert handlers[p := h].Keys == handlers.Keys;
    assert |handlers.Keys| == |handlers| && |handlers[p := h].Keys| == |handlers[p := h]|;
  }

  /** What waiters do of themselves: learn, book, look, end and file. */
  predicate Waiting(s: Step) {
    || s.HandlerWakes? || s.HandlerRecords? || s.ReaperWakes? || s.ReaperRecords? || s.ReaperChecks?
    || s.EndLine? || s.EndLineReaps?
  }

  lemma HandlerSettles(w: World, s: Step, i: nat)
    requires Enabled(w, s) && StepJob(w, s) == Some(i) && i < |w.jobs| && (s.HandlerWakes? || s.HandlerRecords?)
    ensures JobWork(JobStep(w.jobs[i], s)) < JobWork(w.jobs[i])
  {
    var j := w.jobs[i];
    match s {
      case HandlerWakes(_, p) =>
        var (proc, h) := Woken(p, j.procs[p]);
        OneReportLess(j.procs, p, proc);
        SameHandlers(j.handlers, p, h);
      case HandlerRecords(_, p) =>
        OneHandlerLess(j.handlers, p);
        NoReportMore(j.procs, p, Proc.Booked);
      case _ =>
    }
  }

  lemma ReaperSettles(w: World, s: Step, i: nat)
    requires Enabled(w, s) && StepJob(w, s) == Some(i) && i < |w.jobs|
    requires s.ReaperWakes? || s.ReaperRecords? || s.ReaperChecks?
    ensures JobWork(JobStep(w.jobs[i], s)) < JobWork(w.jobs[i])
  {
    var j := w.jobs[i];
    match s {
      case ReaperWakes(_, p) =>
        var (proc, r) := Woken(p, j.procs[p]);
        OneReportLess(j.procs, p, proc);
      case ReaperRecords(_) =>
        if j.reaper.value.SawExit? {
          NoReportMore(j.procs, j.reaper.value.pid, Proc.Booked);
        }
      case _ =>
    }
  }

  lemma EndLineSettles(w: World)
    requires Enabled(w, Step.EndLine)
    ensures Work(Next(w, Step.EndLine)) < Work(w)
  {
    var i, v := w.line.job, Next(w, Step.EndLine);
    if Keeps(w.jobs[i].books) {
      WorkUpdate(w.jobs, i, v.jobs[i]);
    }
  }

  lemma StepSettles(w: World, s: Step)
    requires Enabled(w, s) && Waiting(s)
    ensures Work(Next(w, s)) < Work(w)
  {
    match StepJob(w, s) {
      case None => EndLineSettles(w);
      case Some(i) =>
        if s.HandlerWakes? || s.HandlerRecords? {
          HandlerSettles(w, s, i);
        } else if !s.EndLineReaps? {
          ReaperSettles(w, s, i);
        }
        WorkUpdate(w.jobs, i, JobStep(w.jobs[i], s));
    }
  }

  /** With nothing new from kernel or user, the waiters and the line come to rest: such runs are bounded. */
  lemma {:induction false} WaitersSettle(w: World, steps: seq<Step>, v: World)
    requires IsRun(w, steps, v) && forall s <- steps :: Waiting(s)
    ensures |steps| + Work(v) <= Work(w)
    decreases |steps|
  {
    if steps != [] {
      assert steps[0] in steps && forall s <- steps[1..] :: s in steps;
      StepSettles(w, steps[0]);
      WaitersSettle(Next(w, steps[0]), steps[1..], v);
    }
  }

  /** Resuming a job continues all its stopped processes. */
  lemma ResumeContinues(w: World, id: nat, p: nat)
    requires Enabled(w, Resume(id))
    ensures var j, k := w.jobs[w.listed[id]], Next(w, Resume(id)).jobs[w.listed[id]];
            && k.procs.Keys == j.procs.Keys
            && (p in j.procs ==> k.procs[p] == if j.procs[p].Halted? then Alive else j.procs[p])
  {
  }

  /** wait4 has each stop and each end of a process to report, once. */
  lemma ReportedOnce(w: World, s: Step)
    requires Enabled(w, s)
    ensures s.Halt? || s.Die? ==> Reports(Next(w, s).jobs[s.job].procs[s.pid])
    ensures s.HandlerWakes? || s.ReaperWakes? ==> !Reports(Next(w, s).jobs[s.job].procs[s.pid])
    ensures s.Continue? ==> Next(w, s).jobs[s.job].procs[s.pid] == Alive
  {
  }

  /**
   * No party is ever stuck: what a waiter has seen it can book, what there is to report it can be
   * told, a line whose handlers are gone can end, and when there is no line one can begin.
   */
  lemma NobodyIsStuck(w: World, i: nat, p: nat)
    requires Inv(w) && i < |w.jobs|
    ensures forall q <- w.jobs[i].handlers :: q in w.jobs[i].procs
    ensures var j := w.jobs[i];
            && (p in j.handlers && j.handlers[p] != InWait ==> Enabled(w, HandlerRecords(i, p)))
            && (p in j.handlers && j.handlers[p] == InWait && Reports(j.procs[p]) ==> Enabled(w, HandlerWakes(i, p)))
            && (j.reaper.Some? && (j.reaper.value.SawStop? || j.reaper.value.SawExit?) ==> Enabled(w, ReaperRecords(i)))
            && (j.reaper == Some(Checking) ==> Enabled(w, ReaperChecks(i)))
            && (j.reaper == Some(InWait) && p in j.procs && Reports(j.procs[p]) ==> Enabled(w, ReaperWakes(i, p)))
            && (p in j.procs && j.procs[p].Alive? ==> Enabled(w, Halt(i, p)) && Enabled(w, Die(i, p, 0)))
    ensures match w.line
            case Idle => Enabled(w, BeginLine)
            case Open(k) => k < |w.jobs| && (w.jobs[k].handlers == map[] ==> Enabled(w, Step.EndLine))
            case Filing(_) => Enabled(w, EndLineReaps)
  {
    var j := w.jobs[i];
    assert JobInv(j, Mine(w, i));
    if p in j.handlers {
      assert HandlerFits(j.procs, p, j.handlers[p]);
    }
  }

  // --- ids ---

  ghost predicate HasId(w: World, id: nat) {
    exists i :: 0 <= i < |w.jobs| && w.jobs[i].books.id == id
  }

  /** The ids given out so far are 1, 2, 3 and so on, and the next one is next. */
  ghost predicate Consecutive(w: World) {
    w.nextID >= 1 && forall id: nat :: id >= 1 ==> (HasId(w, id) <==> id < w.nextID)
  }

  lemma IdsStay(w: World, s: Step, i: nat)
    requires Enabled(w, s) && StepJob(w, s) == Some(i) && i < |w.jobs|
    ensures JobStep(w.jobs[i], s).books.id == w.jobs[i].books.id
  {
  }

  lemma ConsecutiveKeeps(w: World, s: Step)
    requires Enabled(w, s) && Consecutive(w)
    ensures Consecutive(Next(w, s))
  {
    var v := Next(w, s);
    match StepJob(w, s) {
      case Some(i) =>
        IdsStay(w, s, i);
        SameIds(w, v);
      case None =>
        if s.BeginLine? {
          forall id: nat | id >= 1 ensures HasId(v, id) <==> HasId(w, id) {
            if HasId(w, id) {
              var k :| 0 <= k < |w.jobs| && w.jobs[k].books.id == id;
              assert v.jobs[k].books.id == id;
            }
          }
        } else if Keeps(w.jobs[w.line.job].books) && w.jobs[w.line.job].books.id == 0 {
          NewId(w, v, w.line.job);
        } else {
          SameIds(w, v);
        }
    }
  }

  lemma SameIds(w: World, v: World)
    requires Consecutive(w) && v.nextID == w.nextID && |v.jobs| == |w.jobs|
    requires forall k :: 0 <= k < |w.jobs| ==> v.jobs[k].books.id == w.jobs[k].books.id
    ensures Consecutive(v)
  {
    forall id: nat | id >= 1 ensures HasId(v, id) <==> HasId(w, id) {
      if HasId(w, id) {
        var k :| 0 <= k < |w.jobs| && w.jobs[k].books.id == id;
        assert v.jobs[k].books.id == id;
      }
    }
  }

  lemma NewId(w: World, v: World, i: nat)
    requires Consecutive(w) && i < |w.jobs| == |v.jobs| && w.jobs[i].books.id == 0
    requires v.nextID == w.nextID + 1 && v.jobs[i].books.id == w.nextID
    requires forall k :: 0 <= k < |w.jobs| && k != i ==> v.jobs[k].books.id == w.jobs[k].books.id
    ensures Consecutive(v)
  {
    forall id: nat | id >= 1 ensures HasId(v, id) <==> HasId(w, id) || id == w.nextID {
      if HasId(w, id) {
        var k :| 0 <= k < |w.jobs| && w.jobs[k].books.id == id;
        assert v.jobs[k].books.id == id;
      }
      if id == w.nextID {
        assert v.jobs[i].books.id == id;
      }
    }
  }

  /** In every run, ids are given out in order from 1. */
  lemma {:induction false} IdsAreConsecutive(w: World, steps: seq<Step>, v: World)
    requires Consecutive(w) && IsRun(w, steps, v)
    ensures Consecutive(v)
    decreases |steps|
  {
    if steps != [] {
      ConsecutiveKeeps(w, steps[0]);
      IdsAreConsecutive(Next(w, steps[0]), steps[1..], v);
    }
  }

  lemma StartIsConsecutive()
    ensures Consecutive(START)
  {
  }
}
