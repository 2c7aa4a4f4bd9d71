/** internal/jobs/table_unix.go: who waits for a line's processes, and the job table's books. */
module Jobs {
  import opened Options

  // --- a job's books, and the critical sections that keep them ---

  datatype State = Running | Stopped | Done

  /** The fields job.mu guards, and the identity the table gives a filed job (0: not filed). */
  datatype Books = Books(id: nat, pgid: nat, state: State, live: int, exit: int, reaping: bool)

  function Spawned(b: Books, pid: nat): Books {
    b.(pgid := if b.pgid == 0 then pid else b.pgid, live := b.live + 1)
  }

  function StopSeen(b: Books): Books {
    b.(state := Stopped)
  }

  function ProcDone(b: Books, exit: int): Books {
    var c := b.(live := b.live - 1, exit := exit);
    if c.live <= 0 then c.(state := Done, reaping := false) else c
  }

  predicate StartsReaper(b: Books) {
    !b.reaping && b.live > 0
  }

  function ReaperEnsured(b: Books): Books {
    if StartsReaper(b) then b.(reaping := true) else b
  }

  function GroupGone(b: Books): Books {
    b.(live := 0, state := Done, reaping := false)
  }

  function Continued(b: Books): Books {
    if b.state == Stopped then b.(state := Running) else b
  }

  /** What EndLine keeps: a stopped job, or one with processes left. */
  predicate Keeps(b: Books) {
    b.pgid != 0 && (b.state == Stopped || b.live > 0)
  }

  class Job {
    var id: nat
    var pgid: nat
    var state: State
    var live: int
    var exit: int
    var reaping: bool

    function View(): Books
      reads this
    {
      Books(id, pgid, state, live, exit, reaping)
    }

    constructor ()
      ensures View() == Books(0, 0, Running, 0, 0, false)
    {
      id, pgid, state, live, exit, reaping := 0, 0, Running, 0, 0, false;
    }

    method RecordSpawn(pid: nat)
      modifies this
      ensures View() == Spawned(old(View()), pid)
    {
      if pgid == 0 {
        pgid := pid;
      }
      live := live + 1;
    }

    method RecordStop()
      modifies this
      ensures View() == StopSeen(old(View()))
    {
      state := Stopped;
    }

    method EnsureReaper() returns (start: bool)
      modifies this
      ensures start == StartsReaper(old(View())) && View() == ReaperEnsured(old(View()))
    {
      start := !reaping && live > 0;
      if start {
        reaping := true;
      }
    }
  }

  class Table {
    var jobs: map<nat, Job>
    var nextID: nat
    var current: Job?

    constructor ()
      ensures jobs == map[] && nextID == 1 && current == null
    {
      jobs, nextID, current := map[], 1, null;
    }

    method BeginLine()
      modifies this
      ensures fresh(current) && current != null && current.View() == Books(0, 0, Running, 0, 0, false)
      ensures jobs == old(jobs) && nextID == old(nextID)
    {
      current := new Job();
    }

    method File(job: Job)
      modifies this, job
      ensures current == old(current)
      ensures if old(job.id) == 0 then
                && job.View() == old(job.View()).(id := old(nextID))
                && nextID == old(nextID) + 1 && jobs == old(jobs)[old(nextID) := job]
              else job.View() == old(job.View()) && nextID == old(nextID) && jobs == old(jobs)
    {
      if job.id == 0 {
        job.id := nextID;
        nextID := nextID + 1;
        jobs := jobs[job.id := job];
      }
    }

    method Remove(job: Job)
      modifies this
      ensures jobs == (if job.id == 0 then old(jobs) else old(jobs) - {job.id})
      ensures nextID == old(nextID) && current == old(current)
    {
      if job.id != 0 {
        jobs := jobs - {job.id};
      }
    }

    /** Done and delisted in one critical section: no waiter can see one without the other. */
    method RecordDone(job: Job, exit: int)
      modifies this, job
      ensures job.View() == ProcDone(old(job.View()), exit)
      ensures jobs == if job.state == Done && old(job.live) <= 1 && job.id != 0 then old(jobs) - {job.id} else old(jobs)
      ensures nextID == old(nextID) && current == old(current)
    {
      job.live := job.live - 1;
      job.exit := exit;
      if job.live <= 0 {
        job.state := Done;
        job.reaping := false;
        Remove(job);
      }
    }

    method RecordGroupGone(job: Job)
      modifies this, job
      ensures job.View() == GroupGone(old(job.View()))
      ensures jobs == (if job.id == 0 then old(jobs) else old(jobs) - {job.id})
      ensures nextID == old(nextID) && current == old(current)
    {
      job.live := 0;
      job.state := Done;
      job.reaping := false;
      Remove(job);
    }

    /** The first half of EndLine: detach the line's job, and file it if anything is left of it. */
    method EndLine() returns (job: Job?, keep: bool, stopped: bool)
      modifies this, current
      ensures job == old(current) && current == null
      ensures job == null ==> !keep
      ensures old(current) != null ==> keep == Keeps(old(current.View()))
      ensures keep ==> stopped == (old(current.state) == Stopped)
      ensures job != null && (!keep || old(current.id) != 0) ==>
                job.View() == old(current.View()) && jobs == old(jobs) && nextID == old(nextID)
      ensures job == null ==> jobs == old(jobs) && nextID == old(nextID)
      ensures keep && old(current.id) == 0 ==>
                && job.View() == old(current.View()).(id := old(nextID))
                && nextID == old(nextID) + 1 && jobs == old(jobs)[old(nextID) := job]
    {
      job := current;
      current := null;
      if job == null || job.pgid == 0 {
        return job, false, false;
      }
      keep := job.state == Stopped || job.live > 0;
      stopped := job.state == Stopped;
      if !keep {
        return;
      }
      File(job);
    }

    /** Continuing a job; a reaper is wanted only if it was stopped. */
    method Resume(job: Job) returns (start: bool)
      modifies job
      ensures job.View() == if old(job.state) == Stopped then ReaperEnsured(Continued(old(job.View())))
                            else old(job.View())
      ensures start == (old(job.state) == Stopped && StartsReaper(old(job.View())))
    {
      var wasStopped := job.state == Stopped;
      if job.state == Stopped {
        job.state := Running;
      }
      start := false;
      if wasStopped {
        start := job.EnsureReaper();
      }
    }
  }

  // --- the protocol: shell, handlers, reapers and the kernel, step by step ---

  /** A process to the kernel and to the books. Collected: wait4 has returned it, procDone has not run. */
  datatype Proc = Alive | Halted(reported: bool) | Zombie(status: int) | Collected | Booked

  predicate Unreaped(p: Proc) {
    p.Alive? || p.Halted? || p.Zombie?
  }

  /** A waitProc call, or the group reaper: in wait4, or between its return and the books. */
  datatype Waiter = InWait | SawStop | SawExit(pid: nat, status: int) | Checking

  /**
   * A job, its processes, the handlers still running, and its reaper if there is one. Its group may
   * have outsiders: descendants the shell did not start and does not wait for. `late` is history: a
   * process joined when only an outsider kept the group, and live has not been down to zero since.
   */
  datatype JobState = JobState(
    books: Books, procs: map<nat, Proc>, handlers: map<nat, Waiter>, reaper: Option<Waiter>,
    outsiders: bool, late: bool)

  const NEW_JOB := JobState(Books(0, 0, Running, 0, 0, false), map[], map[], None, false, false)

  /** Some process the shell started and has not reaped holds the group. */
  predicate Manned(j: JobState) {
    exists p <- j.procs :: Unreaped(j.procs[p])
  }

  /** A process group exists while it has a member; setpgid into one that has none fails. */
  predicate GroupExists(j: JobState) {
    j.books.pgid != 0 && (Manned(j) || j.outsiders)
  }

  datatype Line = Idle | Open(job: nat) | Filing(job: nat)

  datatype World = World(jobs: seq<JobState>, listed: map<nat, nat>, nextID: nat, line: Line)

  const START := World([], map[], 1, Idle)

  datatype Step =
    | BeginLine
    | Spawn(pid: nat)
    | SpawnFails                                  // Start reports an error
    | Linger(job: nat)                            // a member of the group leaves a child there,
    | Depart(job: nat)                            // and the last such child is gone
    | Halt(job: nat, pid: nat)                    // the kernel stops a process,
    | Continue(job: nat, pid: nat)                // continues it,
    | Die(job: nat, pid: nat, status: int)        // or ends it
    | HandlerWakes(job: nat, pid: nat)            // wait4 returns to waitProc
    | HandlerRecords(job: nat, pid: nat)          // and the outcome goes into the books
    | HandlerError(job: nat, pid: nat)            // wait4 finds the process reaped elsewhere
    | EndLine
    | EndLineReaps                                // the ensureReaper call at the end of EndLine
    | ReaperWakes(job: nat, pid: nat)
    | ReaperRecords(job: nat)
    | ReaperChecks(job: nat)
    | ReaperError(job: nat)                       // wait4 finds nothing left in the group
    | Resume(id: nat)                             // fg or bg

  /** What wait4 returns about a process that has something to report. */
  predicate Reports(p: Proc) {
    p.Zombie? || p == Halted(false)
  }

  function Woken(pid: nat, p: Proc): (Proc, Waiter)
    requires Reports(p)
  {
    match p
    case Zombie(status) => (Collected, SawExit(pid, status))
    case _ => (Halted(true), SawStop)
  }

  predicate Enabled(w: World, s: Step) {
    match s
    case BeginLine => w.line.Idle?
    case Spawn(pid) =>
      && w.line.Open? && w.line.job < |w.jobs| && pid != 0 && (forall j <- w.jobs :: pid !in j.procs)
      && (w.jobs[w.line.job].books.pgid == 0 || GroupExists(w.jobs[w.line.job]))
    case SpawnFails => w.line.Open? && w.line.job < |w.jobs|
    case Linger(i) => i < |w.jobs| && GroupExists(w.jobs[i])
    case Depart(i) => i < |w.jobs| && w.jobs[i].outsiders
    case Halt(i, p) => i < |w.jobs| && p in w.jobs[i].procs && w.jobs[i].procs[p].Alive?
    case Continue(i, p) => i < |w.jobs| && p in w.jobs[i].procs && w.jobs[i].procs[p].Halted?
    case Die(i, p, _) =>
      i < |w.jobs| && p in w.jobs[i].procs && (w.jobs[i].procs[p].Alive? || w.jobs[i].procs[p].Halted?)
    case HandlerWakes(i, p) =>
      && i < |w.jobs| && p in w.jobs[i].handlers && w.jobs[i].handlers[p] == InWait
      && p in w.jobs[i].procs && Reports(w.jobs[i].procs[p])
    case HandlerRecords(i, p) =>
      i < |w.jobs| && p in w.jobs[i].handlers && (w.jobs[i].handlers[p] == SawStop || w.jobs[i].handlers[p].SawExit?)
    case HandlerError(i, p) =>
      && i < |w.jobs| && p in w.jobs[i].handlers && w.jobs[i].handlers[p] == InWait
      && p in w.jobs[i].procs && !Unreaped(w.jobs[i].procs[p])
    case EndLine => w.line.Open? && w.line.job < |w.jobs| && w.jobs[w.line.job].handlers == map[]
    case EndLineReaps => w.line.Filing? && w.line.job < |w.jobs|
    case ReaperWakes(i, p) =>
      && i < |w.jobs| && w.jobs[i].reaper == Some(InWait)
      && p in w.jobs[i].procs && Reports(w.jobs[i].procs[p])
    case ReaperRecords(i) =>
      i < |w.jobs| && w.jobs[i].reaper.Some? && (w.jobs[i].reaper.value == SawStop || w.jobs[i].reaper.value.SawExit?)
    case ReaperChecks(i) => i < |w.jobs| && w.jobs[i].reaper == Some(Checking)
    case ReaperError(i) =>
      && i < |w.jobs| && w.jobs[i].reaper == Some(InWait)
      && forall p <- w.jobs[i].procs :: !Unreaped(w.jobs[i].procs[p])
    case Resume(id) => !w.line.Filing? && id in w.listed && w.listed[id] < |w.jobs|
  }

  /** ensureReaper: the books, and the goroutine they start. */
  function EnsureReaper(j: JobState): JobState {
    j.(books := ReaperEnsured(j.books), reaper := if StartsReaper(j.books) then Some(InWait) else j.reaper)
  }

  /** New books after an exit: with no process left, nobody is late any more. */
  function Booking(j: JobState, b: Books): JobState {
    j.(books := b, late := j.late && b.live > 0)
  }

  /** The step as it changes the one job it is about. */
  function JobStep(j: JobState, s: Step): JobState {
    match s
    case Spawn(pid) =>
      j.(books := Spawned(j.books, pid), procs := j.procs[pid := Alive], handlers := j.handlers[pid := InWait],
         late := j.late || (j.books.pgid != 0 && !Manned(j)))
    case SpawnFails => j
    case Linger(_) => j.(outsiders := true)
    case Depart(_) => j.(outsiders := false)
    case Halt(_, p) => j.(procs := j.procs[p := Halted(false)])
    case Continue(_, p) => j.(procs := j.procs[p := Alive])
    case Die(_, p, status) => j.(procs := j.procs[p := Zombie(status)])
    case HandlerWakes(_, p) =>
      if p in j.procs && Reports(j.procs[p]) then
        var (proc, h) := Woken(p, j.procs[p]);
        j.(procs := j.procs[p := proc], handlers := j.handlers[p := h])
      else j
    case HandlerRecords(_, p) =>
      if p in j.handlers && j.handlers[p].SawExit? then
        Booking(j, ProcDone(j.books, j.handlers[p].status)).(
          procs := j.procs[p := Booked], handlers := j.handlers - {p})
      else j.(books := StopSeen(j.books), handlers := j.handlers - {p})
    case HandlerError(_, p) => Booking(j, ProcDone(j.books, 1)).(handlers := j.handlers - {p})
    case EndLineReaps => EnsureReaper(j)
    case ReaperWakes(_, p) =>
      if p in j.procs && Reports(j.procs[p]) then
        var (proc, r) := Woken(p, j.procs[p]);
        j.(procs := j.procs[p := proc], reaper := Some(r))
      else j
    case ReaperRecords(_) =>
      if j.reaper.Some? && j.reaper.value.SawExit? then
        Booking(j, ProcDone(j.books, j.reaper.value.status)).(
          procs := j.procs[j.reaper.value.pid := Booked], reaper := Some(Checking))
      else j.(books := StopSeen(j.books), reaper := Some(InWait))
    case ReaperChecks(_) => j.(reaper := if j.books.state == Done then None else Some(InWait))
    case ReaperError(_) => Booking(j, GroupGone(j.books)).(reaper := None)
    case Resume(_) =>
      var k := j.(books := Continued(j.books),
                  procs := map p | p in j.procs :: if j.procs[p].Halted? then Alive else j.procs[p]);
      if j.books.state == Stopped then EnsureReaper(k) else k
    case _ => j
  }

  /** A job whose books say Done leaves the table with the same step. */
  function Delisted(listed: map<nat, nat>, before: JobState, after: JobState): map<nat, nat> {
    if before.books.state != Done && after.books.state == Done then listed - {after.books.id} else listed
  }

  function StepJob(w: World, s: Step): Option<nat>
    requires Enabled(w, s)
  {
    match s
    case BeginLine => None
    case Spawn(_) => Some(w.line.job)
    case SpawnFails => Some(w.line.job)
    case Linger(i) => Some(i)
    case Depart(i) => Some(i)
    case Halt(i, _) => Some(i)
    case Continue(i, _) => Some(i)
    case Die(i, _, _) => Some(i)
    case HandlerWakes(i, _) => Some(i)
    case HandlerRecords(i, _) => Some(i)
    case HandlerError(i, _) => Some(i)
    case EndLine => None
    case EndLineReaps => Some(w.line.job)
    case ReaperWakes(i, _) => Some(i)
    case ReaperRecords(i) => Some(i)
    case ReaperChecks(i) => Some(i)
    case ReaperError(i) => Some(i)
    case Resume(id) => Some(w.listed[id])
  }

  function Next(w: World, s: Step): World
    requires Enabled(w, s)
  {
    match StepJob(w, s)
    case Some(i) =>
      var j := JobStep(w.jobs[i], s);
      w.(jobs := w.jobs[i := j], listed := Delisted(w.listed, w.jobs[i], j),
         line := if s.EndLineReaps? then Idle else w.line)
    case None =>
      if s.BeginLine? then w.(jobs := w.jobs + [NEW_JOB], line := Open(|w.jobs|))
      else
        var i := w.line.job;
        var b := w.jobs[i].books;
        if !Keeps(b) then w.(line := Idle)
        else
          var id := if b.id == 0 then w.nextID else b.id;
          World(w.jobs[i := w.jobs[i].(books := b.(id := id))],
                if b.id == 0 then w.listed[id := i] else w.listed,
                if b.id == 0 then w.nextID + 1 else w.nextID,
                if b.state == Stopped then Filing(i) else Idle)
  }

  // --- what every step keeps ---

  ghost function Unbooked(procs: map<nat, Proc>): set<nat> {
    set p <- procs | procs[p] != Booked
  }

  /** A handler is at a point its process agrees with. */
  ghost predicate HandlerFits(procs: map<nat, Proc>, pid: nat, h: Waiter) {
    && pid in procs
    && match h
       case InWait => Unreaped(procs[pid])
       case SawStop => Unreaped(procs[pid])
       case SawExit(p, _) => p == pid && procs[pid] == Collected
       case Checking => false
  }

  ghost predicate ReaperFits(j: JobState) {
    match j.reaper
    case None => !j.books.reaping
    case Some(Checking) =>
      if j.books.state == Done then j.books.live == 0 && !j.books.reaping else j.books.live > 0 && j.books.reaping
    case Some(SawExit(p, _)) =>
      p in j.procs && j.procs[p] == Collected && j.books.live > 0 && j.books.reaping && j.books.state != Done
    case Some(_) => j.books.live > 0 && j.books.reaping && j.books.state != Done
  }

  /** Some waiter holds the exit of a process that wait4 has returned and the books do not have. */
  ghost predicate Held(j: JobState, p: nat) {
    || (p in j.handlers && j.handlers[p].SawExit?)
    || (j.reaper.Some? && j.reaper.value.SawExit? && j.reaper.value.pid == p)
  }

  /** One waiter owns the process. */
  ghost predicate Owned(j: JobState, p: nat) {
    p in j.handlers || j.reaper.Some?
  }

  /** The invariant of one job; `mine` while it is the line's. */
  ghost predicate JobInv(j: JobState, mine: bool) {
    && j.books.live == |Unbooked(j.procs)|
    && (j.books.pgid == 0 <==> j.procs == map[])
    && (j.books.state == Stopped ==> j.books.live > 0)
    && (!mine && j.books.state == Done ==> j.books.live == 0)
    && (mine ==> j.reaper == None)
    && (!mine ==> j.handlers == map[])
    && ReaperFits(j)
    && (forall p <- j.handlers :: HandlerFits(j.procs, p, j.handlers[p]))
    && (forall p <- j.procs :: j.procs[p] == Collected ==> Held(j, p))
    && (forall p <- j.procs :: Unreaped(j.procs[p]) && !Owned(j, p) ==> mine && j.books.state == Stopped)
  }

  lemma UnbookedSame(procs: map<nat, Proc>, p: nat, q: Proc)
    requires p in procs && procs[p] != Booked && q != Booked
    ensures Unbooked(procs[p := q]) == Unbooked(procs)
  {
  }

  lemma UnbookedFewer(procs: map<nat, Proc>, p: nat)
    requires p in procs && procs[p] != Booked
    ensures |Unbooked(procs[p := Booked])| == |Unbooked(procs)| - 1
  {
    assert Unbooked(procs[p := Booked]) == Unbooked(procs) - {p};
  }

  lemma UnbookedMore(procs: map<nat, Proc>, p: nat)
    requires p !in procs
    ensures |Unbooked(procs[p := Alive])| == |Unbooked(procs)| + 1
  {
    assert Unbooked(procs[p := Alive]) == Unbooked(procs) + {p};
  }

  /** The kernel moves a process that has not been reaped. */
  lemma KernelKeeps(j: JobState, mine: bool, p: nat, q: Proc)
    requires JobInv(j, mine) && p in j.procs && Unreaped(j.procs[p]) && Unreaped(q)
    ensures JobInv(j.(procs := j.procs[p := q]), mine)
  {
    UnbookedSame(j.procs, p, q);
  }

  lemma SpawnKeeps(j: JobState, pid: nat)
    requires JobInv(j, true) && pid !in j.procs && pid != 0
    ensures JobInv(JobStep(j, Spawn(pid)), true)
  {
    UnbookedMore(j.procs, pid);
  }

  lemma HandlerWakesKeeps(j: JobState, mine: bool, i: nat, p: nat)
    requires JobInv(j, mine) && p in j.handlers && j.handlers[p] == InWait && p in j.procs && Reports(j.procs[p])
    ensures JobInv(JobStep(j, HandlerWakes(i, p)), mine)
  {
    UnbookedSame(j.procs, p, Woken(p, j.procs[p]).0);
  }

  lemma HandlerRecordsKeeps(j: JobState, i: nat, p: nat)
    requires JobInv(j, true) && p in j.handlers && (j.handlers[p] == SawStop || j.handlers[p].SawExit?)
    ensures JobInv(JobStep(j, HandlerRecords(i, p)), true)
  {
    assert HandlerFits(j.procs, p, j.handlers[p]);
    assert p in Unbooked(j.procs);
    if j.handlers[p].SawExit? {
      ExitRecordsKeeps(j, i, p);
    } else {
      StopRecordsKeeps(j, i, p);
    }
  }

  lemma ExitRecordsKeeps(j: JobState, i: nat, p: nat)
    requires JobInv(j, true) && p in j.handlers && j.handlers[p].SawExit?
    ensures JobInv(JobStep(j, HandlerRecords(i, p)), true)
  {
    assert HandlerFits(j.procs, p, j.handlers[p]);
    UnbookedFewer(j.procs, p);
    var k := JobStep(j, HandlerRecords(i, p));
    forall q | q in k.handlers ensures HandlerFits(k.procs, q, k.handlers[q]) {
      assert HandlerFits(j.procs, q, j.handlers[q]);
    }
    forall q | q in k.procs && k.procs[q] == Collected ensures Held(k, q) {
      assert Held(j, q);
    }
    forall q | q in k.procs && Unreaped(k.procs[q]) && !Owned(k, q) ensures k.books.state == Stopped {
      assert !Owned(j, q);
    }
  }

  lemma StopRecordsKeeps(j: JobState, i: nat, p: nat)
    requires JobInv(j, true) && p in j.handlers && j.handlers[p] == SawStop
    ensures JobInv(JobStep(j, HandlerRecords(i, p)), true)
  {
    assert HandlerFits(j.procs, p, j.handlers[p]);
    assert p in Unbooked(j.procs);
    var k := JobStep(j, HandlerRecords(i, p));
    assert forall q <- k.procs :: Held(j, q) ==> Held(k, q);
  }

  /** The reaper's wait4 never finds the group empty: it stops waiting with the last process. */
  lemma NoReaperError(j: JobState, mine: bool)
    requires JobInv(j, mine) && j.reaper == Some(InWait)
    ensures exists p :: p in j.procs && Unreaped(j.procs[p])
  {
    var p :| p in Unbooked(j.procs);
    assert !Held(j, p);
  }

  lemma ReaperWakesKeeps(j: JobState, i: nat, p: nat)
    requires JobInv(j, false) && j.reaper == Some(InWait) && p in j.procs && Reports(j.procs[p])
    ensures JobInv(JobStep(j, ReaperWakes(i, p)), false)
  {
    UnbookedSame(j.procs, p, Woken(p, j.procs[p]).0);
  }

  lemma ReaperRecordsKeeps(j: JobState, i: nat)
    requires JobInv(j, false) && j.reaper.Some? && (j.reaper.value == SawStop || j.reaper.value.SawExit?)
    ensures JobInv(JobStep(j, ReaperRecords(i)), false)
  {
    if j.reaper.value.SawExit? {
      UnbookedFewer(j.procs, j.reaper.value.pid);
    }
  }

  lemma ReaperChecksKeeps(j: JobState, i: nat)
    requires JobInv(j, false) && j.reaper == Some(Checking)
    ensures JobInv(JobStep(j, ReaperChecks(i)), false)
  {
    if j.books.state == Done {
      assert Unbooked(j.procs) == {};
      forall p | p in j.procs ensures j.procs[p] == Booked { assert p !in Unbooked(j.procs); }
    }
  }

  lemma EndLineReapsKeeps(j: JobState)
    requires JobInv(j, true) && j.handlers == map[] && j.books.state == Stopped
    ensures JobInv(EnsureReaper(j), false)
  {
  }

  /** Nothing unreaped is left behind by a line that is not filed as stopped. */
  lemma NothingLeft(j: JobState)
    requires JobInv(j, true) && j.handlers == map[] && j.books.state != Stopped
    ensures j.books.live == 0
  {
    forall p | p in j.procs ensures j.procs[p] == Booked {
      assert !Held(j, p) && !Owned(j, p);
    }
    assert Unbooked(j.procs) == {};
  }

  lemma ClosedKeeps(j: JobState)
    requires JobInv(j, true) && j.handlers == map[] && j.books.state != Stopped
    ensures JobInv(j, false)
  {
    NothingLeft(j);
    forall p | p in j.procs ensures j.procs[p] == Booked { assert p !in Unbooked(j.procs); }
  }

  lemma ResumeKeeps(j: JobState, id: nat)
    requires JobInv(j, false) && j.books.state != Done
    ensures JobInv(JobStep(j, Resume(id)), false)
    ensures j.reaper.Some? ==> JobStep(j, Resume(id)).reaper == j.reaper
  {
    var procs := map p | p in j.procs :: if j.procs[p].Halted? then Alive else j.procs[p];
    assert Unbooked(procs) == Unbooked(j.procs);
  }

  // --- every run ---

  ghost predicate Mine(w: World, i: nat) {
    !w.line.Idle? && w.line.job == i
  }

  ghost predicate LineFits(w: World) {
    match w.line
    case Idle => true
    case Open(i) => i < |w.jobs| && w.jobs[i].books.id == 0
    case Filing(i) =>
      && i < |w.jobs| && w.jobs[i].handlers == map[] && w.jobs[i].books.state == Stopped
      && w.jobs[i].books.id != 0
  }

  /** The table lists exactly the filed jobs that are not done, and no two jobs ever share an ID. */
  ghost predicate TableFits(w: World) {
    && w.nextID > 0
    && (forall id <- w.listed ::
          w.listed[id] < |w.jobs| && w.jobs[w.listed[id]].books.id == id && id != 0)
    && (forall i: nat :: i < |w.jobs| && w.jobs[i].books.id != 0 ==>
          && w.jobs[i].books.id < w.nextID
          && (w.jobs[i].books.state != Done <==>
               w.jobs[i].books.id in w.listed && w.listed[w.jobs[i].books.id] == i))
    && (forall i: nat, k: nat :: i < k < |w.jobs| && w.jobs[i].books.id != 0 ==>
          w.jobs[i].books.id != w.jobs[k].books.id)
  }

  ghost predicate Inv(w: World) {
    && LineFits(w) && TableFits(w)
    && (forall i: nat :: i < |w.jobs| ==> JobInv(w.jobs[i], Mine(w, i)))
    && (forall i: nat :: i < |w.jobs| && !Mine(w, i) && w.jobs[i].books.id == 0 ==> w.jobs[i].books.live == 0)
  }

  lemma StartInv()
    ensures Inv(START)
  {
  }

  /** The two error branches of the wait loops are never taken. */
  lemma ErrorsNeverEnabled(w: World, s: Step)
    requires Inv(w) && Enabled(w, s)
    ensures !s.HandlerError? && !s.ReaperError?
  {
    match s {
      case HandlerError(_, _) =>
      case ReaperError(i) => NoReaperError(w.jobs[i], Mine(w, i));
      case _ =>
    }
  }

  /** What the table relies on when a step changes a job. */
  ghost predicate Steady(before: JobState, after: JobState, mine: bool) {
    && after.books.id == before.books.id
    && (before.books.id != 0 && before.books.state == Done ==> after.books.state == Done)
    && (!mine && before.books.live == 0 ==> after.books.live == 0)
  }

  lemma KernelStepKeeps(w: World, s: Step, i: nat)
    requires Inv(w) && Enabled(w, s) && StepJob(w, s) == Some(i) && (s.Halt? || s.Continue? || s.Die?)
    ensures i < |w.jobs| && JobStep(w.jobs[i], s).books == w.jobs[i].books
    ensures JobStep(w.jobs[i], s).handlers == w.jobs[i].handlers
    ensures JobInv(JobStep(w.jobs[i], s), Mine(w, i))
  {
    var j := w.jobs[i];
    assert JobInv(j, Mine(w, i));
    match s {
      case Halt(_, p) => KernelKeeps(j, Mine(w, i), p, Halted(false));
      case Continue(_, p) => KernelKeeps(j, Mine(w, i), p, Alive);
      case Die(_, p, status) => KernelKeeps(j, Mine(w, i), p, Zombie(status));
    }
  }

  lemma OutsiderStepKeeps(w: World, s: Step, i: nat)
    requires Inv(w) && Enabled(w, s) && StepJob(w, s) == Some(i) && (s.SpawnFails? || s.Linger? || s.Depart?)
    ensures i < |w.jobs| && JobInv(JobStep(w.jobs[i], s), Mine(w, i))
    ensures Steady(w.jobs[i], JobStep(w.jobs[i], s), Mine(w, i))
    ensures JobStep(w.jobs[i], s).books == w.jobs[i].books && JobStep(w.jobs[i], s).handlers == w.jobs[i].handlers
  {
    AsideKeeps(w.jobs[i], Mine(w, i), JobStep(w.jobs[i], s).outsiders);
  }

  /** Outsiders are nobody's business. */
  lemma AsideKeeps(j: JobState, mine: bool, outsiders: bool)
    requires JobInv(j, mine)
    ensures JobInv(j.(outsiders := outsiders), mine)
  {
  }

  lemma LineStepKeeps(w: World, s: Step, i: nat)
    requires Inv(w) && Enabled(w, s) && StepJob(w, s) == Some(i)
    requires s.Spawn? || s.HandlerWakes? || s.HandlerRecords?
    ensures i < |w.jobs| && w.line == Open(i)
    ensures JobInv(JobStep(w.jobs[i], s), true) && Steady(w.jobs[i], JobStep(w.jobs[i], s), true)
  {
    var j := w.jobs[i];
    assert JobInv(j, Mine(w, i));
    match s {
      case Spawn(pid) => SpawnKeeps(j, pid);
      case HandlerWakes(_, p) => HandlerWakesKeeps(j, Mine(w, i), i, p);
      case HandlerRecords(_, p) => HandlerRecordsKeeps(j, i, p);
    }
  }

  lemma ReaperStepKeeps(w: World, s: Step, i: nat)
    requires Inv(w) && Enabled(w, s) && StepJob(w, s) == Some(i)
    requires s.ReaperWakes? || s.ReaperRecords? || s.ReaperChecks?
    ensures i < |w.jobs| && !Mine(w, i)
    ensures JobInv(JobStep(w.jobs[i], s), false) && Steady(w.jobs[i], JobStep(w.jobs[i], s), false)
  {
    var j := w.jobs[i];
    assert JobInv(j, Mine(w, i));
    match s {
      case ReaperWakes(_, p) => ReaperWakesKeeps(j, i, p);
      case ReaperRecords(_) => ReaperRecordsKeeps(j, i);
      case ReaperChecks(_) => ReaperChecksKeeps(j, i);
    }
  }

  lemma ResumeStepKeeps(w: World, id: nat, i: nat)
    requires Inv(w) && Enabled(w, Resume(id)) && w.listed[id] == i
    ensures i < |w.jobs| && !Mine(w, i)
    ensures JobInv(JobStep(w.jobs[i], Resume(id)), false)
    ensures Steady(w.jobs[i], JobStep(w.jobs[i], Resume(id)), false)
  {
    assert JobInv(w.jobs[i], Mine(w, i));
    ResumeKeeps(w.jobs[i], id);
  }

  /** The one job a step is about keeps its invariant. */
  lemma JobStepKeeps(w: World, s: Step, i: nat)
    requires Inv(w) && Enabled(w, s) && StepJob(w, s) == Some(i)
    ensures i < |w.jobs|
    ensures JobInv(JobStep(w.jobs[i], s), Mine(w, i) && !s.EndLineReaps?)
    ensures Steady(w.jobs[i], JobStep(w.jobs[i], s), Mine(w, i))
    ensures w.line == Filing(i) && !s.EndLineReaps? ==>
              JobStep(w.jobs[i], s).books == w.jobs[i].books && JobStep(w.jobs[i], s).handlers == map[]
  {
    ErrorsNeverEnabled(w, s);
    if s.SpawnFails? || s.Linger? || s.Depart? {
      OutsiderStepKeeps(w, s, i);
    } else if s.Halt? || s.Continue? || s.Die? {
      KernelStepKeeps(w, s, i);
    } else if s.Spawn? || s.HandlerWakes? || s.HandlerRecords? {
      LineStepKeeps(w, s, i);
    } else if s.EndLineReaps? {
      assert JobInv(w.jobs[i], Mine(w, i));
      EndLineReapsKeeps(w.jobs[i]);
    } else if s.Resume? {
      ResumeStepKeeps(w, s.id, i);
    } else {
      ReaperStepKeeps(w, s, i);
    }
  }

  lemma TableUpdate(w: World, i: nat, j: JobState, line: Line, mine: bool)
    requires TableFits(w) && i < |w.jobs| && Steady(w.jobs[i], j, mine)
    ensures TableFits(World(w.jobs[i := j], Delisted(w.listed, w.jobs[i], j), w.nextID, line))
  {
  }

  lemma JobStepKeepsInv(w: World, s: Step, i: nat)
    requires Inv(w) && Enabled(w, s) && StepJob(w, s) == Some(i)
    ensures Inv(Next(w, s))
  {
    JobStepKeeps(w, s, i);
    var v := Next(w, s);
    TableUpdate(w, i, JobStep(w.jobs[i], s), v.line, Mine(w, i));
    forall k: nat | k < |v.jobs|
      ensures JobInv(v.jobs[k], Mine(v, k))
    {
      assert JobInv(w.jobs[k], Mine(w, k));
    }
  }

  lemma BeginKeepsInv(w: World)
    requires Inv(w) && Enabled(w, BeginLine)
    ensures Inv(Next(w, BeginLine))
  {
    assert Unbooked(NEW_JOB.procs) == {};
  }

  lemma FileKeepsTable(w: World, i: nat, line: Line)
    requires TableFits(w) && i < |w.jobs| && w.jobs[i].books.id == 0 && w.jobs[i].books.state != Done
    ensures TableFits(World(w.jobs[i := w.jobs[i].(books := w.jobs[i].books.(id := w.nextID))],
                            w.listed[w.nextID := i], w.nextID + 1, line))
  {
  }

  lemma EndClosesInv(w: World, i: nat)
    requires Inv(w) && w.line == Open(i) && w.jobs[i].handlers == map[] && w.jobs[i].books.state != Stopped
    ensures !Keeps(w.jobs[i].books) && Inv(w.(line := Idle))
  {
    assert JobInv(w.jobs[i], Mine(w, i));
    ClosedKeeps(w.jobs[i]);
    var v := w.(line := Idle);
    forall k: nat | k < |v.jobs| ensures JobInv(v.jobs[k], false) {
      assert JobInv(w.jobs[k], Mine(w, k));
    }
  }

  lemma EndFilesInv(w: World, i: nat)
    requires Inv(w) && w.line == Open(i) && w.jobs[i].handlers == map[] && w.jobs[i].books.state == Stopped
    ensures Keeps(w.jobs[i].books) && Inv(Next(w, EndLine))
  {
    var j, v := w.jobs[i], Next(w, EndLine);
    assert JobInv(j, Mine(w, i));
    assert j.procs != map[] by { assert Unbooked(map[]) == {}; }
    FileKeepsTable(w, i, v.line);
    forall k: nat | k < |v.jobs| ensures JobInv(v.jobs[k], Mine(v, k)) {
      assert JobInv(w.jobs[k], Mine(w, k));
    }
  }

  lemma EndKeepsInv(w: World)
    requires Inv(w) && Enabled(w, EndLine)
    ensures Inv(Next(w, EndLine))
  {
    if w.jobs[w.line.job].books.state == Stopped {
      EndFilesInv(w, w.line.job);
    } else {
      EndClosesInv(w, w.line.job);
    }
  }

  lemma NextKeepsInv(w: World, s: Step)
    requires Inv(w) && Enabled(w, s)
    ensures Inv(Next(w, s))
  {
    match StepJob(w, s)
    case Some(i) => JobStepKeepsInv(w, s, i);
    case None => if s.BeginLine? { BeginKeepsInv(w); } else { EndKeepsInv(w); }
  }

  /** A run: every step enabled where it is taken. */
  ghost predicate IsRun(w: World, steps: seq<Step>, v: World)
    decreases |steps|
  {
    if steps == [] then v == w
    else Enabled(w, steps[0]) && IsRun(Next(w, steps[0]), steps[1..], v)
  }

  lemma {:induction false} RunKeepsInv(w: World, steps: seq<Step>, v: World)
    requires Inv(w) && IsRun(w, steps, v)
    ensures Inv(v)
    decreases |steps|
  {
    if steps != [] {
      NextKeepsInv(w, steps[0]);
      RunKeepsInv(Next(w, steps[0]), steps[1..], v);
    }
  }

  /** Exactly one waiter: a handler or the reaper, never both, and once the line is closed the reaper. */
  ghost predicate WaitedFor(w: World, i: nat, p: nat)
    requires i < |w.jobs|
  {
    var j := w.jobs[i];
    && !(p in j.handlers && j.reaper.Some?)
    && (!Mine(w, i) ==> j.reaper.Some? && p !in j.handlers)
    && (Mine(w, i) && p !in j.handlers ==> j.books.state == Stopped)
  }

  /**
   * In every interleaving of shell, handlers, reapers and kernel: an unreaped process has exactly one
   * waiter (a stopped one may be between waiters until EndLine has run); live counts the processes
   * the books have not closed; a closed job that is Done has none left and is not listed, and the
   * listed jobs are exactly the filed ones that are not Done; no ID is ever given out twice.
   */
  lemma OneWaiter(steps: seq<Step>, w: World)
    requires IsRun(START, steps, w)
    ensures forall i: nat, p :: i < |w.jobs| && p in w.jobs[i].procs && Unreaped(w.jobs[i].procs[p]) ==>
              WaitedFor(w, i, p)
    ensures forall i: nat :: i < |w.jobs| ==> w.jobs[i].books.live == |Unbooked(w.jobs[i].procs)|
    ensures forall i: nat :: i < |w.jobs| && !Mine(w, i) && w.jobs[i].books.state == Done ==>
              w.jobs[i].books.live == 0 && forall id <- w.listed :: w.listed[id] != i
    ensures forall i: nat :: i < |w.jobs| && w.jobs[i].books.id != 0 && w.jobs[i].books.state != Done ==>
              w.jobs[i].books.id in w.listed && w.listed[w.jobs[i].books.id] == i
    ensures forall i: nat, k: nat :: i < k < |w.jobs| && w.jobs[i].books.id != 0 ==>
              w.jobs[i].books.id != w.jobs[k].books.id
  {
    StartInv();
    RunKeepsInv(START, steps, w);
  }

  lemma RunSnoc(w: World, steps: seq<Step>, v: World, s: Step)
    requires IsRun(w, steps, v) && Enabled(v, s)
    ensures IsRun(w, steps + [s], Next(v, s))
    decreases |steps|
  {
    var all := steps + [s];
    if steps == [] {
      assert all[1..] == [] && IsRun(Next(w, s), [], Next(v, s));
    } else {
      assert all[0] == steps[0] && all[1..] == steps[1..] + [s];
      RunSnoc(Next(w, steps[0]), steps[1..], v, s);
    }
  }

  /** The first line, open, with its job in this state. */
  function FirstLine(j: JobState): World {
    START.(jobs := [j], line := Open(0))
  }

  // --- Done while the line is still open ---

  /** A Done job has processes exactly when one joined late, and only an outsider lets one do that. */
  ghost predicate LateFits(j: JobState) {
    && (j.late ==> j.books.live > 0)
    && (j.books.state == Done && j.books.live > 0 ==> j.late)
    && (j.books.state == Done ==> j.books.pgid != 0)
  }

  lemma DoneIsUnmanned(j: JobState, mine: bool)
    requires JobInv(j, mine) && j.books.live == 0
    ensures !Manned(j)
  {
    assert Unbooked(j.procs) == {};
    assert forall p <- j.procs :: p !in Unbooked(j.procs);
  }

  lemma SpawnIsLate(j: JobState, mine: bool, pid: nat)
    requires JobInv(j, mine) && LateFits(j)
    ensures LateFits(JobStep(j, Spawn(pid)))
  {
    assert j.books.live >= 0;
    if j.books.live == 0 {
      DoneIsUnmanned(j, mine);
    }
  }

  lemma RecordsLate(j: JobState, i: nat, p: nat)
    requires JobInv(j, true) && LateFits(j) && p in j.handlers
    ensures LateFits(JobStep(j, HandlerRecords(i, p)))
  {
    assert HandlerFits(j.procs, p, j.handlers[p]);
    assert j.procs != map[];
  }

  lemma ReapsLate(j: JobState, i: nat)
    requires JobInv(j, false) && LateFits(j) && j.reaper.Some?
    requires j.reaper.value == SawStop || j.reaper.value.SawExit?
    ensures LateFits(JobStep(j, ReaperRecords(i)))
  {
    assert Unbooked(map[]) == {};
    assert j.procs != map[];
  }

  lemma LateKeeps(w: World, s: Step, i: nat)
    requires Inv(w) && Enabled(w, s) && StepJob(w, s) == Some(i)
    requires i < |w.jobs| && LateFits(w.jobs[i])
    ensures LateFits(JobStep(w.jobs[i], s))
  {
    var j := w.jobs[i];
    assert JobInv(j, Mine(w, i));
    ErrorsNeverEnabled(w, s);
    match s {
      case Spawn(pid) => SpawnIsLate(j, Mine(w, i), pid);
      case HandlerRecords(_, p) => RecordsLate(j, i, p);
      case ReaperRecords(_) => ReapsLate(j, i);
      case _ =>
    }
  }

  /** Nobody but the shell's own processes in any group. */
  ghost predicate OnlyOwn(w: World) {
    forall j <- w.jobs :: !j.outsiders && !j.late
  }

  lemma LateStep(w: World, s: Step)
    requires Inv(w) && Enabled(w, s) && forall j <- w.jobs :: LateFits(j)
    ensures forall j <- Next(w, s).jobs :: LateFits(j)
    ensures OnlyOwn(w) && !s.Linger? ==> OnlyOwn(Next(w, s))
  {
    match StepJob(w, s) {
      case Some(i) =>
        JobStepKeeps(w, s, i);
        assert LateFits(w.jobs[i]);
        LateKeeps(w, s, i);
      case None =>
    }
  }

  lemma {:induction false} LateRun(w: World, steps: seq<Step>, v: World)
    requires Inv(w) && IsRun(w, steps, v) && forall j <- w.jobs :: LateFits(j)
    ensures forall j <- v.jobs :: LateFits(j)
    ensures OnlyOwn(w) && (forall s <- steps :: !s.Linger?) ==> OnlyOwn(v)
    decreases |steps|
  {
    if steps != [] {
      NextKeepsInv(w, steps[0]);
      LateStep(w, steps[0]);
      assert forall s <- steps[1..] :: s in steps;
      LateRun(Next(w, steps[0]), steps[1..], v);
    }
  }

  /**
   * In every reachable state, with the line open or not, a Done job has processes left exactly when
   * one joined its group while only an outsider kept it there; with no outsiders Done means gone.
   */
  lemma DoneMeansGone(steps: seq<Step>, w: World)
    requires IsRun(START, steps, w)
    ensures forall j <- w.jobs :: j.books.state == Done ==> (j.books.live > 0 <==> j.late)
    ensures (forall s <- steps :: !s.Linger?) ==> forall j <- w.jobs :: j.books.state == Done ==> j.books.live == 0
  {
    StartInv();
    RunKeepsInv(START, steps, w);
    LateRun(START, steps, w);
    forall j | j in w.jobs ensures j.books.live >= 0 {
      var i: nat :| i < |w.jobs| && w.jobs[i] == j;
      assert JobInv(j, Mine(w, i));
    }
  }

  /** A line of one process that has come and gone, and left a child in the group. */
  function FirstGone(pid: nat): JobState {
    JobState(Books(0, pid, Done, 0, 0, false), map[pid := Booked], map[], None, true, false)
  }

  lemma FirstLineStep(steps: seq<Step>, j: JobState, s: Step)
    requires IsRun(START, steps, FirstLine(j))
    requires Enabled(FirstLine(j), s) && StepJob(FirstLine(j), s) == Some(0) && !s.EndLineReaps?
    ensures IsRun(START, steps + [s], FirstLine(JobStep(j, s)))
  {
    RunSnoc(START, steps, FirstLine(j), s);
    assert [j][0 := JobStep(j, s)] == [JobStep(j, s)];
  }

  lemma FirstLineOpens()
    ensures IsRun(START, [BeginLine], FirstLine(NEW_JOB))
  {
    var none: seq<Step> := [];
    assert IsRun(START, none, START);
    RunSnoc(START, none, START, BeginLine);
    assert none + [BeginLine] == [BeginLine] && START.jobs + [NEW_JOB] == [NEW_JOB];
  }

  lemma FirstCommandLingers(pid: nat) returns (steps: seq<Step>)
    requires pid != 0
    ensures IsRun(START, steps, FirstLine(FirstAlive(pid)))
  {
    FirstLineOpens();
    steps := [BeginLine];
    FirstLineStep(steps, NEW_JOB, Spawn(pid));
    var alive := FirstAlive(pid).(outsiders := false);
    assert JobStep(NEW_JOB, Spawn(pid)) == alive;
    steps := steps + [Spawn(pid)];
    assert Unreaped(alive.procs[pid]);
    FirstLineStep(steps, alive, Linger(0));
    steps := steps + [Linger(0)];
  }

  /** It runs, with a child of its own. */
  function FirstAlive(pid: nat): JobState {
    JobState(Books(0, pid, Running, 1, 0, false), map[pid := Alive], map[pid := InWait], None, true, false)
  }

  lemma FirstCommandDies(pid: nat) returns (steps: seq<Step>)
    requires pid != 0
    ensures IsRun(START, steps, FirstLine(FirstAlive(pid).(procs := map[pid := Zombie(0)])))
  {
    steps := FirstCommandLingers(pid);
    var alive := FirstAlive(pid);
    FirstLineStep(steps, alive, Die(0, pid, 0));
    assert JobStep(alive, Die(0, pid, 0)) == alive.(procs := map[pid := Zombie(0)]);
    steps := steps + [Die(0, pid, 0)];
  }

  lemma FirstCommandGone(pid: nat) returns (steps: seq<Step>)
    requires pid != 0
    ensures IsRun(START, steps, FirstLine(FirstGone(pid)))
  {
    steps := FirstCommandDies(pid);
    var dead := FirstAlive(pid).(procs := map[pid := Zombie(0)]);
    FirstLineStep(steps, dead, HandlerWakes(0, pid));
    var reaped := dead.(procs := map[pid := Collected], handlers := map[pid := SawExit(pid, 0)]);
    assert JobStep(dead, HandlerWakes(0, pid)) == reaped;
    steps := steps + [HandlerWakes(0, pid)];
    FirstLineStep(steps, reaped, HandlerRecords(0, pid));
    assert JobStep(reaped, HandlerRecords(0, pid)) == FirstGone(pid);
    steps := steps + [HandlerRecords(0, pid)];
  }

  /**
   * The second command of a line can find the job Done and make it live again without changing that:
   * the first one has been recorded, but left a child behind that keeps the group for it to join.
   */
  lemma DoneIsEarlyWithOutsider(pid: nat, next: nat) returns (steps: seq<Step>, w: World)
    requires pid != 0 && next != 0 && next != pid
    ensures IsRun(START, steps, w) && |w.jobs| == 1 && Mine(w, 0)
    ensures w.jobs[0].books.state == Done && w.jobs[0].books.live == 1 && w.jobs[0].late
  {
    var before := FirstCommandGone(pid);
    FirstLineStep(before, FirstGone(pid), Spawn(next));
    steps, w := before + [Spawn(next)], FirstLine(JobStep(FirstGone(pid), Spawn(next)));
  }
}
