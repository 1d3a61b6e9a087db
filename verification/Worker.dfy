/**
 `worker.py` running against the jobs table: worker processes that take an
 advisory lock, requeue what a predecessor left running, claim jobs up to a
 limit and finish them with an unguarded update, while clients submit and
 cancel and processes crash. Each statement or transaction is one step.
 */
module Worker {
  import opened Common
  import opened Jobs

  datatype Pid = Pid(n: int)
  datatype TaskId = TaskId(n: int)

  /** One `_execute`; `written` once its call of `finish` has updated the row. */
  datatype Task = Task(job: JobId, written: bool)

  /** `Closed`: the process has given up the lock; its tasks may still be unwinding. */
  datatype Phase = Starting | Looping | Closed

  /** `pending` is a job claimed whose task has not been created yet. */
  datatype Proc = Proc(phase: Phase, pending: Option<JobId>, tasks: map<TaskId, Task>)

  datatype Sys = Sys(jobs: Table, lock: Option<Pid>, procs: map<Pid, Proc>, concurrency: nat)

  datatype Step =
    | Submit(id: JobId, now: int)
    | CancelQueued(id: JobId, now: int)
    | StartWorker(p: Pid)
    | RequeueOrphans(p: Pid)
    | ClaimJob(p: Pid, id: JobId, now: int)
    | SpawnTask(p: Pid, t: TaskId)
    | WriteFinish(p: Pid, t: TaskId, status: Status, now: int)
    | TaskEnds(p: Pid, t: TaskId)          // returned, or raised without finishing
    | ReleaseLock(p: Pid)                  // `run` is being left, by drain or by exception
    | Crash(p: Pid)                        // the process and its children die
    | SessionLost(p: Pid)                  // the database drops a dead process's lock

  predicate In(s: Sys, p: Pid, phase: Phase) {
    p in s.procs && s.procs[p].phase == phase
  }

  predicate HasTask(s: Sys, p: Pid, t: TaskId) {
    p in s.procs && t in s.procs[p].tasks
  }

  predicate Live(s: Sys, p: Pid, t: TaskId) {
    HasTask(s, p, t) && !s.procs[p].tasks[t].written
  }

  predicate Enabled(s: Sys, step: Step) {
    match step
    case Submit(id, _) => id !in s.jobs
    case CancelQueued(_, _) => true
    case StartWorker(p) => p !in s.procs
    case RequeueOrphans(p) => In(s, p, Starting)
    case ClaimJob(p, id, _) =>
      && In(s, p, Looping) && s.procs[p].pending.None? && |s.procs[p].tasks| < s.concurrency
      && id in s.jobs && s.jobs[id].status.Queued?   // an older row may be locked by another session
    case SpawnTask(p, t) => In(s, p, Looping) && s.procs[p].pending.Some? && t !in s.procs[p].tasks
    case WriteFinish(p, t, status, _) => Live(s, p, t) && Terminal(status)
    case TaskEnds(p, t) => HasTask(s, p, t)
    case ReleaseLock(p) => s.lock == Some(p) && p in s.procs
    case Crash(p) => p in s.procs
    case SessionLost(p) => s.lock == Some(p) && p !in s.procs
  }

  function Next(s: Sys, step: Step): Sys
    requires Enabled(s, step)
  {
    match step
    case Submit(id, now) => s.(jobs := Inserted(s.jobs, id, now))
    case CancelQueued(id, now) => s.(jobs := CancelledIfQueued(s.jobs, id, now))
    case StartWorker(p) =>
      if s.lock.None? then s.(lock := Some(p), procs := s.procs[p := Proc(Starting, None, map[])])
      else s   // SystemExit
    case RequeueOrphans(p) =>
      s.(jobs := Requeued(s.jobs), procs := s.procs[p := s.procs[p].(phase := Looping)])
    case ClaimJob(p, id, now) =>
      s.(jobs := Claimed(s.jobs, id, now), procs := s.procs[p := s.procs[p].(pending := Some(id))])
    case SpawnTask(p, t) =>
      var w := s.procs[p];
      s.(procs := s.procs[p := w.(pending := None, tasks := w.tasks[t := Task(w.pending.value, false)])])
    case WriteFinish(p, t, status, now) =>
      var w := s.procs[p];
      s.(jobs := Finished(s.jobs, w.tasks[t].job, status, now),
         procs := s.procs[p := w.(tasks := w.tasks[t := w.tasks[t].(written := true)])])
    case TaskEnds(p, t) =>
      s.(procs := s.procs[p := s.procs[p].(tasks := s.procs[p].tasks - {t})])
    case ReleaseLock(p) =>
      s.(lock := None, procs := s.procs[p := s.procs[p].(phase := Closed, pending := None)])
    case Crash(p) => s.(procs := s.procs - {p})
    case SessionLost(p) => s.(lock := None)
  }

  function Init(concurrency: nat): Sys {
    Sys(map[], None, map[], concurrency)
  }

  // ---- the invariant -------------------------------------------------------------

  predicate TaskAgrees(jobs: Table, task: Task) {
    task.job in jobs && if task.written then Terminal(jobs[task.job].status) else jobs[task.job].status.Running?
  }

  predicate PendingAgrees(jobs: Table, w: Proc) {
    w.pending.Some? ==>
      && w.pending.value in jobs && jobs[w.pending.value].status.Running?
      && forall t :: t in w.tasks ==> w.tasks[t].job != w.pending.value
  }

  predicate OneTaskPerJob(w: Proc) {
    forall t, u :: t in w.tasks && u in w.tasks && w.tasks[t].job == w.tasks[u].job ==> t == u
  }

  predicate ProcOk(s: Sys, p: Pid)
    requires p in s.procs
  {
    var w := s.procs[p];
    && (s.lock != Some(p) ==> w.phase.Closed? && forall t :: t in w.tasks ==> w.tasks[t].written)
    && (w.phase.Starting? ==> w.tasks == map[])
    && (!w.phase.Looping? ==> w.pending.None?)
    && PendingAgrees(s.jobs, w)
    && (forall t :: t in w.tasks ==> TaskAgrees(s.jobs, w.tasks[t]))
    && OneTaskPerJob(w)
    && |w.tasks| + (if w.pending.Some? then 1 else 0) <= s.concurrency
  }

  predicate Inv(s: Sys) {
    && RowsConsistent(s.jobs)
    && (forall p :: p in s.procs ==> ProcOk(s, p))
  }

  /** What an operator relies on. */
  ghost predicate Safe(s: Sys) {
    // at most one live task per job, in whichever process
    && (forall p, q, t, u :: Live(s, p, t) && Live(s, q, u) && s.procs[p].tasks[t].job == s.procs[q].tasks[u].job
          ==> p == q && t == u)
    // a live task's job is running
    && (forall p, t :: Live(s, p, t) ==>
          s.procs[p].tasks[t].job in s.jobs && s.jobs[s.procs[p].tasks[t].job].status.Running?)
    // no process runs more tasks than it was told to
    && (forall p :: p in s.procs ==> |s.procs[p].tasks| <= s.concurrency)
    // every row is consistent: completed_at exactly when finished, claims and requeues balance
    && (forall id :: id in s.jobs ==> Consistent(s.jobs[id]))
  }

  lemma InvIsSafe(s: Sys)
    requires Inv(s)
    ensures Safe(s)
  {
    forall p, q, t, u | Live(s, p, t) && Live(s, q, u) && s.procs[p].tasks[t].job == s.procs[q].tasks[u].job
      ensures p == q && t == u
    {
      assert ProcOk(s, p) && ProcOk(s, q);
      assert s.lock == Some(p) && s.lock == Some(q);
    }
    forall p | p in s.procs ensures |s.procs[p].tasks| <= s.concurrency { assert ProcOk(s, p); }
    forall p, t | Live(s, p, t)
      ensures s.procs[p].tasks[t].job in s.jobs && s.jobs[s.procs[p].tasks[t].job].status.Running?
    {
      assert ProcOk(s, p) && TaskAgrees(s.jobs, s.procs[p].tasks[t]);
    }
  }

  // ---- which runs are safe -----------------------------------------------------------

  ghost predicate NoLiveTask(s: Sys, p: Pid) {
    forall t :: !Live(s, p, t)
  }

  /** The one discipline: the lock is not given up over a task that may still finish its job. */
  predicate Disciplined(s: Sys, step: Step) {
    step.ReleaseLock? ==> step.p in s.procs && forall t :: t in s.procs[step.p].tasks ==>
      s.procs[step.p].tasks[t].written
  }

  predicate CleanRun(s: Sys, steps: seq<Step>)
    decreases |steps|
  {
    steps == [] || (Enabled(s, steps[0]) && Disciplined(s, steps[0]) && CleanRun(Next(s, steps[0]), steps[1..]))
  }

  function After(s: Sys, steps: seq<Step>): Sys
    requires CleanRun(s, steps)
    decreases |steps|
  {
    if steps == [] then s else After(Next(s, steps[0]), steps[1..])
  }

  /** A change of rows that neither adds to nor takes from what other processes see. */
  lemma OthersOk(s: Sys, s': Sys, p: Pid)
    requires p in s.procs && ProcOk(s, p) && p in s'.procs && s'.procs[p] == s.procs[p]
    requires s'.concurrency == s.concurrency && (s'.lock == Some(p) <==> s.lock == Some(p))
    requires forall t :: t in s.procs[p].tasks ==>
               s.procs[p].tasks[t].job in s'.jobs
                 && s'.jobs[s.procs[p].tasks[t].job].status == s.jobs[s.procs[p].tasks[t].job].status
    requires s.procs[p].pending.Some? ==>
               s.procs[p].pending.value in s'.jobs && s'.jobs[s.procs[p].pending.value].status.Running?
    ensures ProcOk(s', p)
  {}

  /** A step of somebody else that leaves every running row running. */
  lemma BystanderOk(s: Sys, s': Sys, p: Pid)
    requires p in s.procs && ProcOk(s, p) && p in s'.procs && s'.procs[p] == s.procs[p]
    requires s'.concurrency == s.concurrency && s'.lock == s.lock && FinishedKept(s.jobs, s'.jobs)
    requires forall id :: id in s.jobs && s.jobs[id].status.Running? ==> id in s'.jobs && s'.jobs[id] == s.jobs[id]
    ensures ProcOk(s', p)
  {
    forall t | t in s.procs[p].tasks
      ensures s.procs[p].tasks[t].job in s'.jobs
      ensures s'.jobs[s.procs[p].tasks[t].job].status == s.jobs[s.procs[p].tasks[t].job].status
    {
      assert TaskAgrees(s.jobs, s.procs[p].tasks[t]);
    }
    OthersOk(s, s', p);
  }

  lemma ClientStepKeepsInv(s: Sys, step: Step)
    requires Inv(s) && Enabled(s, step) && (step.Submit? || step.CancelQueued?)
    ensures Inv(Next(s, step)) && FinishedKept(s.jobs, Next(s, step).jobs)
  {
    forall p | p in s.procs ensures ProcOk(Next(s, step), p) {
      BystanderOk(s, Next(s, step), p);
    }
  }

  lemma StartKeepsInv(s: Sys, step: Step)
    requires Inv(s) && Enabled(s, step) && step.StartWorker?
    ensures Inv(Next(s, step)) && FinishedKept(s.jobs, Next(s, step).jobs)
  {
    var s' := Next(s, step);
    forall p | p in s'.procs ensures ProcOk(s', p) {
      if p in s.procs {
        assert ProcOk(s, p);
        assert forall t :: t in s.procs[p].tasks ==> TaskAgrees(s.jobs, s.procs[p].tasks[t]);
        OthersOk(s, s', p);
      }
    }
  }

  /** A process without the lock has nothing left that a row could contradict, as long as finished rows stay. */
  lemma ClosedOk(s: Sys, s': Sys, p: Pid)
    requires p in s.procs && ProcOk(s, p) && p in s'.procs && s'.procs[p] == s.procs[p]
    requires s'.concurrency == s.concurrency && s'.lock == s.lock != Some(p) && FinishedKept(s.jobs, s'.jobs)
    ensures ProcOk(s', p)
  {
    forall t | t in s.procs[p].tasks ensures TaskAgrees(s'.jobs, s.procs[p].tasks[t]) {
      assert TaskAgrees(s.jobs, s.procs[p].tasks[t]);
    }
  }

  /** The holder of the lock takes a step, and the others do not notice. */
  lemma HolderActs(s: Sys, s': Sys, p: Pid)
    requires Inv(s) && p in s.procs && s.lock == Some(p) && s'.lock == s.lock && s'.concurrency == s.concurrency
    requires s'.procs.Keys == s.procs.Keys && forall q :: q in s.procs && q != p ==> s'.procs[q] == s.procs[q]
    requires RowsConsistent(s'.jobs) && FinishedKept(s.jobs, s'.jobs) && ProcOk(s', p)
    ensures Inv(s')
  {
    forall q | q in s'.procs ensures ProcOk(s', q) {
      if q != p { ClosedOk(s, s', q); }
    }
  }

  lemma RequeueKeepsInv(s: Sys, step: Step)
    requires Inv(s) && Enabled(s, step) && step.RequeueOrphans?
    ensures Inv(Next(s, step)) && FinishedKept(s.jobs, Next(s, step).jobs)
  {
    assert ProcOk(s, step.p);
    RequeueKeepsRows(s.jobs);
    HolderActs(s, Next(s, step), step.p);
  }

  lemma ClaimKeepsTasks(jobs: Table, w: Proc, id: JobId, now: int)
    requires id in jobs && jobs[id].status.Queued? && forall t :: t in w.tasks ==> TaskAgrees(jobs, w.tasks[t])
    ensures forall t :: t in w.tasks ==> TaskAgrees(Claimed(jobs, id, now), w.tasks[t]) && w.tasks[t].job != id
  {
    forall t | t in w.tasks ensures TaskAgrees(Claimed(jobs, id, now), w.tasks[t]) && w.tasks[t].job != id {
      assert TaskAgrees(jobs, w.tasks[t]);
    }
  }

  lemma ClaimKeepsOwner(s: Sys, step: Step)
    requires step.ClaimJob? && step.p in s.procs && ProcOk(s, step.p) && Enabled(s, step)
    ensures s.lock == Some(step.p) && ProcOk(Next(s, step), step.p)
  {
    ClaimKeepsTasks(s.jobs, s.procs[step.p], step.id, step.now);
  }

  lemma ClaimKeepsInv(s: Sys, step: Step)
    requires Inv(s) && Enabled(s, step) && step.ClaimJob?
    ensures Inv(Next(s, step)) && FinishedKept(s.jobs, Next(s, step).jobs)
  {
    assert ProcOk(s, step.p);
    ClaimKeepsOwner(s, step);
    ClaimKeepsRows(s.jobs, step.id, step.now);
    HolderActs(s, Next(s, step), step.p);
  }

  lemma SpawnKeepsOwner(s: Sys, step: Step)
    requires step.SpawnTask? && step.p in s.procs && ProcOk(s, step.p) && Enabled(s, step)
    ensures s.lock == Some(step.p) && ProcOk(Next(s, step), step.p)
  {
    var w, w' := s.procs[step.p], Next(s, step).procs[step.p];
    assert w'.tasks.Keys == w.tasks.Keys + {step.t};
    assert |w'.tasks| == |w.tasks| + 1;
  }

  lemma SpawnKeepsInv(s: Sys, step: Step)
    requires Inv(s) && Enabled(s, step) && step.SpawnTask?
    ensures Inv(Next(s, step)) && FinishedKept(s.jobs, Next(s, step).jobs)
  {
    assert ProcOk(s, step.p);
    SpawnKeepsOwner(s, step);
    HolderActs(s, Next(s, step), step.p);
  }

  /** The tasks of a process after one of them has written its job's end. */
  function WithWritten(tasks: map<TaskId, Task>, t: TaskId): map<TaskId, Task>
    requires t in tasks
  {
    tasks[t := tasks[t].(written := true)]
  }

  lemma FinishKeepsTasks(jobs: Table, tasks: map<TaskId, Task>, t: TaskId, status: Status, now: int)
    requires t in tasks && Terminal(status) && forall u :: u in tasks ==> TaskAgrees(jobs, tasks[u])
    requires forall u, v :: u in tasks && v in tasks && tasks[u].job == tasks[v].job ==> u == v
    ensures forall u :: u in WithWritten(tasks, t) ==>
              TaskAgrees(Finished(jobs, tasks[t].job, status, now), WithWritten(tasks, t)[u])
  {
    forall u | u in tasks ensures TaskAgrees(Finished(jobs, tasks[t].job, status, now), WithWritten(tasks, t)[u]) {
      assert TaskAgrees(jobs, tasks[u]) && TaskAgrees(jobs, tasks[t]);
      assert u != t ==> tasks[u].job != tasks[t].job;
    }
  }

  lemma FinishKeepsOwner(s: Sys, step: Step)
    requires step.WriteFinish? && step.p in s.procs && ProcOk(s, step.p) && Enabled(s, step)
    ensures s.lock == Some(step.p) && ProcOk(Next(s, step), step.p)
  {
    var w := s.procs[step.p];
    FinishKeepsTasks(s.jobs, w.tasks, step.t, step.status, step.now);
    assert WithWritten(w.tasks, step.t).Keys == w.tasks.Keys;
    assert |WithWritten(w.tasks, step.t)| == |w.tasks|;
  }

  lemma FinishKeepsInv(s: Sys, step: Step)
    requires Inv(s) && Enabled(s, step) && step.WriteFinish?
    ensures Inv(Next(s, step)) && FinishedKept(s.jobs, Next(s, step).jobs)
  {
    assert ProcOk(s, step.p) && TaskAgrees(s.jobs, s.procs[step.p].tasks[step.t]);
    FinishKeepsOwner(s, step);
    FinishKeepsRows(s.jobs, s.procs[step.p].tasks[step.t].job, step.status, step.now);
    HolderActs(s, Next(s, step), step.p);
  }

  lemma TaskEndKeepsOwner(s: Sys, step: Step)
    requires step.TaskEnds? && step.p in s.procs && ProcOk(s, step.p) && Enabled(s, step)
    ensures ProcOk(Next(s, step), step.p)
  {
    var w, w' := s.procs[step.p], Next(s, step).procs[step.p];
    assert w'.tasks.Keys == w.tasks.Keys - {step.t};
    assert |w'.tasks| == |w.tasks| - 1;
  }

  lemma LeavingKeepsProc(s: Sys, step: Step, p: Pid)
    requires p in s.procs && ProcOk(s, p) && Enabled(s, step) && Disciplined(s, step) && p in Next(s, step).procs
    requires step.TaskEnds? || step.ReleaseLock? || step.Crash? || step.SessionLost?
    ensures ProcOk(Next(s, step), p)
  {
    if p == step.p && step.TaskEnds? { TaskEndKeepsOwner(s, step); }
  }

  lemma LeavingKeepsInv(s: Sys, step: Step)
    requires Inv(s) && Enabled(s, step) && Disciplined(s, step)
    requires step.TaskEnds? || step.ReleaseLock? || step.Crash? || step.SessionLost?
    ensures Inv(Next(s, step)) && FinishedKept(s.jobs, Next(s, step).jobs)
  {
    forall p | p in Next(s, step).procs ensures ProcOk(Next(s, step), p) {
      assert ProcOk(s, p);
      LeavingKeepsProc(s, step, p);
    }
  }

  lemma StepKeepsInv(s: Sys, step: Step)
    requires Inv(s) && Enabled(s, step) && Disciplined(s, step)
    ensures Inv(Next(s, step)) && FinishedKept(s.jobs, Next(s, step).jobs)
  {
    match step
    case Submit(_, _) => ClientStepKeepsInv(s, step);
    case CancelQueued(_, _) => ClientStepKeepsInv(s, step);
    case StartWorker(_) => StartKeepsInv(s, step);
    case RequeueOrphans(_) => RequeueKeepsInv(s, step);
    case ClaimJob(_, _, _) => ClaimKeepsInv(s, step);
    case SpawnTask(_, _) => SpawnKeepsInv(s, step);
    case WriteFinish(_, _, _, _) => FinishKeepsInv(s, step);
    case TaskEnds(_, _) => LeavingKeepsInv(s, step);
    case ReleaseLock(_) => LeavingKeepsInv(s, step);
    case Crash(_) => LeavingKeepsInv(s, step);
    case SessionLost(_) => LeavingKeepsInv(s, step);
  }

  lemma {:induction false} RunKeepsInv(s: Sys, steps: seq<Step>)
    requires Inv(s) && CleanRun(s, steps)
    ensures Inv(After(s, steps)) && FinishedKept(s.jobs, After(s, steps).jobs)
    decreases |steps|
  {
    if steps != [] {
      StepKeepsInv(s, steps[0]);
      RunKeepsInv(Next(s, steps[0]), steps[1..]);
    }
  }

  /** Every clean run, with any crashes, restarts, submissions and cancellations, ends safe. */
  lemma CleanRunsAreSafe(concurrency: nat, steps: seq<Step>)
    requires CleanRun(Init(concurrency), steps)
    ensures Safe(After(Init(concurrency), steps))
  {
    RunKeepsInv(Init(concurrency), steps);
    InvIsSafe(After(Init(concurrency), steps));
  }

  predicate Splits(s: Sys, first: seq<Step>, later: seq<Step>) {
    CleanRun(s, first) && CleanRun(After(s, first), later)
  }

  /** A job once finished keeps its whole row for the rest of the run, `finish` having no guard notwithstanding. */
  lemma FinishedForever(concurrency: nat, first: seq<Step>, later: seq<Step>)
    requires Splits(Init(concurrency), first, later)
    ensures var s := After(Init(concurrency), first);
            FinishedKept(s.jobs, After(s, later).jobs)
  {
    RunKeepsInv(Init(concurrency), first);
    RunKeepsInv(After(Init(concurrency), first), later);
  }

  // ---- the discipline is exactly what is needed ------------------------------------

  /** However the run goes on after `p` gives up the lock, no finished job ever changes. */
  ghost predicate SafeToRelease(s: Sys, p: Pid)
    requires Enabled(s, ReleaseLock(p))
  {
    var s' := Next(s, ReleaseLock(p));
    forall first, later :: Splits(s', first, later) ==>
      FinishedKept(After(s', first).jobs, After(After(s', first), later).jobs)
  }

  lemma FreshPid(pids: set<Pid>) returns (q: Pid)
    ensures q !in pids && forall p :: p in pids ==> p.n < q.n
    decreases pids
  {
    if pids == {} {
      q := Pid(0);
    } else {
      var p :| p in pids;
      q := FreshPid(pids - {p});
      assert forall r :: r in pids ==> r == p || r in pids - {p};
      if p.n >= q.n { q := Pid(p.n + 1); }
    }
  }

  lemma OneStep(s: Sys, a: Step)
    requires Enabled(s, a) && Disciplined(s, a)
    ensures CleanRun(s, [a]) && After(s, [a]) == Next(s, a)
  {
    assert [a][1..] == [];
    assert After(s, [a]) == After(Next(s, a), []);
  }

  lemma ThreeSteps(s: Sys, a: Step, b: Step, c: Step)
    requires Enabled(s, a) && Disciplined(s, a)
    requires Enabled(Next(s, a), b) && Disciplined(Next(s, a), b)
    requires Enabled(Next(Next(s, a), b), c) && Disciplined(Next(Next(s, a), b), c)
    ensures CleanRun(s, [a, b, c]) && After(s, [a, b, c]) == Next(Next(Next(s, a), b), c)
  {
    OneStep(Next(Next(s, a), b), c);
    assert [a, b, c][1..] == [b, c] && [b, c][1..] == [c];
    assert CleanRun(Next(s, a), [b, c]);
    assert After(s, [a, b, c]) == After(Next(s, a), [b, c]);
  }

  /** A successor requeues the job under the live task, a client cancels it, and the task then overwrites that. */
  lemma LiveTaskOverwrites(s: Sys, p: Pid, t: TaskId, q: Pid)
    requires Inv(s) && s.lock == Some(p) && Live(s, p, t) && q !in s.procs
    ensures var job, s' := s.procs[p].tasks[t].job, Next(s, ReleaseLock(p));
            var first := [StartWorker(q), RequeueOrphans(q), CancelQueued(job, 0)];
            var later := [WriteFinish(p, t, Complete, 1)];
            && Splits(s', first, later) && job in After(s', first).jobs
            && After(s', first).jobs[job].status == Cancelled
            && job in After(After(s', first), later).jobs
            && After(After(s', first), later).jobs[job].status == Complete
  {
    var job, s0 := s.procs[p].tasks[t].job, Next(s, ReleaseLock(p));
    assert ProcOk(s, p) && TaskAgrees(s.jobs, s.procs[p].tasks[t]);
    var a, b, c, d := StartWorker(q), RequeueOrphans(q), CancelQueued(job, 0), WriteFinish(p, t, Complete, 1);
    ThreeSteps(s0, a, b, c);
    OneStep(Next(Next(Next(s0, a), b), c), d);
  }

  /** Giving up the lock is safe exactly when no task of the process is still to finish its job. */
  lemma SafeToReleaseIffNoLiveTask(s: Sys, p: Pid)
    requires Inv(s) && Enabled(s, ReleaseLock(p))
    ensures SafeToRelease(s, p) <==> NoLiveTask(s, p)
  {
    var s' := Next(s, ReleaseLock(p));
    if NoLiveTask(s, p) {
      assert forall t :: t in s.procs[p].tasks ==> Live(s, p, t) || s.procs[p].tasks[t].written;
      StepKeepsInv(s, ReleaseLock(p));
      forall first, later | Splits(s', first, later)
        ensures FinishedKept(After(s', first).jobs, After(After(s', first), later).jobs)
      {
        RunKeepsInv(s', first);
        RunKeepsInv(After(s', first), later);
      }
    } else {
      var t :| Live(s, p, t);
      var q := FreshPid(s.procs.Keys);
      LiveTaskOverwrites(s, p, t, q);
    }
  }

  // ---- what each step makes of a row ------------------------------------------------------

  /** Column by column, the only ways a row comes to be and changes. */
  lemma RowsMove(s: Sys, step: Step, id: JobId)
    requires Inv(s) && Enabled(s, step) && id in Next(s, step).jobs
    ensures var after := Next(s, step).jobs[id];
            if id !in s.jobs then
              step.Submit? && step.id == id && after == Job(step.now, Queued, None, None, 0, 0)
            else
              var was := s.jobs[id];
              match step
              case ClaimJob(_, job, now) =>
                if id != job then after == was
                else
                  was.status == Queued
                  && after == was.(status := Running, startedAt := Some(now), claims := was.claims + 1)
              case RequeueOrphans(_) =>
                after ==
                if was.status == Running
                then was.(status := Queued, startedAt := None, requeues := was.requeues + 1)
                else was
              case CancelQueued(job, now) =>
                after ==
                if id == job && was.status == Queued
                then was.(status := Cancelled, completedAt := Some(now))
                else was
              case WriteFinish(p, t, status, now) =>
                if id != s.procs[p].tasks[t].job then after == was
                else
                  was.status == Running && status in {Complete, Failed, Cancelled}
                  && after == was.(status := status, completedAt := Some(now))
              case _ => after == was
  {
    if step.WriteFinish? {
      assert ProcOk(s, step.p) && TaskAgrees(s.jobs, s.procs[step.p].tasks[step.t]);
    }
  }

  /** The status a task writes is the job's from then on, and so is the instant it wrote it. */
  lemma WrittenStatusStays(concurrency: nat, first: seq<Step>, p: Pid, t: TaskId, status: Status, now: int,
      later: seq<Step>)
    requires CleanRun(Init(concurrency), first)
      && Enabled(After(Init(concurrency), first), WriteFinish(p, t, status, now))
    requires CleanRun(Next(After(Init(concurrency), first), WriteFinish(p, t, status, now)), later)
    ensures var s := After(Init(concurrency), first);
            var job, end := s.procs[p].tasks[t].job, After(Next(s, WriteFinish(p, t, status, now)), later);
            && job in end.jobs && end.jobs[job].status == status && end.jobs[job].completedAt == Some(now)
  {
    var s, step := After(Init(concurrency), first), WriteFinish(p, t, status, now);
    var job := s.procs[p].tasks[t].job;
    RunKeepsInv(Init(concurrency), first);
    assert ProcOk(s, p) && TaskAgrees(s.jobs, s.procs[p].tasks[t]);
    StepKeepsInv(s, step);
    RowsMove(s, step, job);
    RunKeepsInv(Next(s, step), later);
  }

  // ---- no job is lost or made twice -----------------------------------------------------

  function Submissions(steps: seq<Step>): nat {
    if steps == [] then 0 else (if steps[0].Submit? then 1 else 0) + Submissions(steps[1..])
  }

  lemma StepConserves(s: Sys, step: Step)
    requires Enabled(s, step)
    ensures Next(s, step).jobs.Keys == s.jobs.Keys + if step.Submit? then {step.id} else {}
  {}

  /** Any run at all, whatever locks are given up in it. */
  predicate AnyRun(s: Sys, steps: seq<Step>)
    decreases |steps|
  {
    steps == [] || (Enabled(s, steps[0]) && AnyRun(Next(s, steps[0]), steps[1..]))
  }

  function Reached(s: Sys, steps: seq<Step>): Sys
    requires AnyRun(s, steps)
    decreases |steps|
  {
    if steps == [] then s else Reached(Next(s, steps[0]), steps[1..])
  }

  /** In any run only a submission changes which jobs exist, and it adds one. */
  lemma {:induction false} JobsAreConserved(s: Sys, steps: seq<Step>)
    requires AnyRun(s, steps)
    ensures s.jobs.Keys <= Reached(s, steps).jobs.Keys
    ensures |Reached(s, steps).jobs.Keys| == |s.jobs.Keys| + Submissions(steps)
    decreases |steps|
  {
    if steps != [] {
      StepConserves(s, steps[0]);
      JobsAreConserved(Next(s, steps[0]), steps[1..]);
    }
  }

  // ---- the claim loop of one process ------------------------------------------------------

  /** The slots of one process's `_loop`, filled from the store. */
  class Slots {
    const store: JobStore
    const concurrency: nat
    var running: set<JobId>

    constructor (store: JobStore, concurrency: nat)
      ensures this.store == store && this.concurrency == concurrency && running == {}
    {
      this.store := store;
      this.concurrency := concurrency;
      running := {};
    }

    ghost predicate Valid()
      reads this, store
    {
      |running| <= concurrency && Busy(store.rows, running)
    }

    /** Claim until the slots are full or nothing is to be had. */
    method Fill(now: int, locked: set<JobId>)
      requires Valid()
      modifies this, store
      ensures Valid() && running >= old(running)
      ensures |running| == concurrency || Claimable(store.rows, locked) == {}
      ensures Filled(old(store.rows), running - old(running), store.rows, locked, now)
    {
      ghost var before, own := store.rows, running;
      while |running| < concurrency
        invariant |running| <= concurrency && own <= running && Filled(before, running - own, store.rows, locked, now)
        decreases concurrency - |running|
      {
        var job := store.Claim(now, locked);
        if job.None? { break; }
        FilledMore(before, own, running, locked, now, job.value);
        running := running + {job.value};
      }
      StaysBusy(before, own, running, store.rows, locked, now);
    }
  }

  predicate Busy(rows: Table, running: set<JobId>) {
    forall id :: id in running ==> id in rows && !rows[id].status.Queued?
  }

  lemma StaysBusy(before: Table, own: set<JobId>, running: set<JobId>, after: Table, locked: set<JobId>, now: int)
    requires Busy(before, own) && own <= running && Filled(before, running - own, after, locked, now)
    ensures Busy(after, running)
  {
    forall id | id in running ensures id in after && !after[id].status.Queued? {
      assert id in own || id in running - own;
    }
  }

  /** Only claimable rows were taken, nothing else changed, and nothing taken is younger than what is left. */
  predicate Filled(before: Table, taken: set<JobId>, after: Table, locked: set<JobId>, now: int) {
    && taken <= Claimable(before, locked) && after == AllClaimed(before, taken, now)
    && forall id, left :: id in taken && left in Claimable(after, locked) ==>
      after[id].submittedAt <= after[left].submittedAt
  }

  lemma FilledMore(before: Table, own: set<JobId>, running: set<JobId>, locked: set<JobId>, now: int, id: JobId)
    requires Busy(before, own) && own <= running
    requires Filled(before, running - own, AllClaimed(before, running - own, now), locked, now)
    requires OldestClaimable(AllClaimed(before, running - own, now), id, locked)
    ensures id !in running && |running + {id}| == |running| + 1
    ensures Filled(before, running + {id} - own, Claimed(AllClaimed(before, running - own, now), id, now), locked, now)
  {
    AllClaimedMore(before, running - own, id, now);
    assert running + {id} - own == running - own + {id};
  }

  /** The table after claiming each of `ids` once. */
  function AllClaimed(t: Table, ids: set<JobId>, now: int): Table {
    map id | id in t :: if id in ids then Claimed(t, id, now)[id] else t[id]
  }

  lemma AllClaimedMore(t: Table, ids: set<JobId>, id: JobId, now: int)
    requires id in t && id !in ids
    ensures AllClaimed(t, ids + {id}, now) == Claimed(AllClaimed(t, ids, now), id, now)
  {}
}
