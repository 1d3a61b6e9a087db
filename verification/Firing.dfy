/**
 `run_pending` and `consider` of `automations.py` beside running workers: any
 number of overlapping calls, each of which reads the job, claims it, fetches
 the automations and fires them one by one, and any of which may be cut off at
 any point. Each statement is one step.
 */
module Firing {
  import opened Common
  import opened Jobs
  import opened Automations
  import Worker

  datatype CallId = CallId(n: int)

  /** The columns of a job that are written once, when it is submitted. */
  datatype Origin = Origin(repository: string, workspace: string, triggeredBy: Option<string>)

  /** How far one `consider` has come. */
  datatype Call =
    | Seen(job: JobId, facts: JobFacts)
    | Took(job: JobId, facts: JobFacts)
    | Delivering(job: JobId, facts: JobFacts, fetched: seq<Automation>, next: nat)

  datatype Delivery = Delivery(automation: Automation, job: JobId, facts: JobFacts)

  datatype Sys = Sys(
    base: Worker.Sys, origin: JobId -> Origin, automations: seq<Automation>,
    considered: set<JobId>, calls: map<CallId, Call>, fired: seq<Delivery>, submitted: map<JobId, nat>)

  datatype Step =
    | Base(step: Worker.Step)
    | Edit(automations: seq<Automation>)   // automations created, changed, deleted
    | ReadJob(c: CallId, job: JobId)
    | ClaimJob(c: CallId)
    | Fetch(c: CallId)
    | FireNext(c: CallId)
    | Act(i: nat, id: JobId, now: int)     // an action of the i-th delivery submits a job
    | Cut(c: CallId)                       // the call returned, raised, or died with its process

  /** The rows the query returns: enabled, and no younger than the job's end. */
  function Eligible(all: seq<Automation>, completedAt: int): (some: seq<Automation>)
    requires DistinctIds(all)
    ensures DistinctIds(some)
    ensures forall a :: a in some <==> a in all && a.enabled && a.createdAt <= completedAt
  {
    if all == [] then []
    else
      var rest := Eligible(all[1..], completedAt);
      if all[0].enabled && all[0].createdAt <= completedAt then [all[0]] + rest else rest
  }

  function FactsOf(origin: Origin, row: Job): JobFacts
    requires row.completedAt.Some?
  {
    JobFacts(origin.repository, origin.workspace, row.status, origin.triggeredBy, row.completedAt.value)
  }

  /** A job that one of the automation's actions submits. */
  predicate CausedBy(a: Automation, origin: Origin) {
    origin.triggeredBy == Some(Cause(a.name)) && RunWorkspace(origin.repository, origin.workspace) in a.actions
  }

  predicate Enabled(s: Sys, step: Step) {
    match step
    case Base(w) => Worker.Enabled(s.base, w)
    case Edit(all) => DistinctIds(all)
    case ReadJob(c, _) => c !in s.calls
    case ClaimJob(c) => c in s.calls && s.calls[c].Seen?
    case Fetch(c) => c in s.calls && s.calls[c].Took? && DistinctIds(s.automations)
    case FireNext(c) => c in s.calls && s.calls[c].Delivering? && s.calls[c].next < |s.calls[c].fetched|
    case Act(i, id, now) =>
      i < |s.fired| && CausedBy(s.fired[i].automation, s.origin(id)) && Worker.Enabled(s.base, Worker.Submit(id, now))
    case Cut(c) => c in s.calls
  }

  /** What firing the next of the fetched automations delivers. */
  function Sends(call: Call): seq<Delivery>
    requires call.Delivering? && call.next < |call.fetched|
  {
    var a := call.fetched[call.next];
    if Matches(a.trigger, call.facts) && !WouldLoop(a.name, call.facts) then [Delivery(a, call.job, call.facts)] else []
  }

  function Next(s: Sys, step: Step): Sys
    requires Enabled(s, step)
  {
    match step
    case Base(w) => s.(base := Worker.Next(s.base, w))
    case Edit(all) => s.(automations := all)
    case ReadJob(c, job) =>
      if job in s.base.jobs && Terminal(s.base.jobs[job].status) && s.base.jobs[job].completedAt.Some?
      then s.(calls := s.calls[c := Seen(job, FactsOf(s.origin(job), s.base.jobs[job]))])
      else s
    case ClaimJob(c) =>
      var call := s.calls[c];
      if call.job in s.considered then s.(calls := s.calls - {c})
      else s.(considered := s.considered + {call.job}, calls := s.calls[c := Took(call.job, call.facts)])
    case Fetch(c) =>
      var call := s.calls[c];
      s.(calls := s.calls[c := Delivering(call.job, call.facts, Eligible(s.automations, call.facts.completedAt), 0)])
    case FireNext(c) =>
      var call := s.calls[c];
      s.(fired := s.fired + Sends(call), calls := s.calls[c := call.(next := call.next + 1)])
    case Act(i, id, now) => s.(base := Worker.Next(s.base, Worker.Submit(id, now)), submitted := s.submitted[id := i])
    case Cut(c) => s.(calls := s.calls - {c})
  }

  predicate Initial(s: Sys) {
    s.base == Worker.Init(s.base.concurrency) && s.considered == {} && s.calls == map[]
    && s.fired == [] && s.submitted == map[]
  }

  // ---- what is promised --------------------------------------------------------------

  predicate Sent(fired: seq<Delivery>, a: AutomationId, job: JobId) {
    exists i :: 0 <= i < |fired| && fired[i].automation.id == a && fired[i].job == job
  }

  predicate AtMostOnce(fired: seq<Delivery>) {
    forall i, j :: 0 <= i < j < |fired| ==>
      fired[i].automation.id != fired[j].automation.id || fired[i].job != fired[j].job
  }

  predicate AllFire(fired: seq<Delivery>) {
    forall i :: 0 <= i < |fired| ==> Concerns(fired[i].automation, fired[i].facts)
  }

  /** Of what a call fetched, it has delivered exactly the ones that fire, up to where it has come. */
  predicate UpToNext(fired: seq<Delivery>, call: Call)
    requires call.Delivering? && call.next <= |call.fetched|
  {
    forall k :: 0 <= k < |call.fetched| ==>
      (Sent(fired, call.fetched[k].id, call.job) <==> k < call.next && Concerns(call.fetched[k], call.facts))
  }

  predicate Promised(s: Sys) {
    && AtMostOnce(s.fired) && AllFire(s.fired)
    && forall c :: c in s.calls && s.calls[c].Delivering? ==>
         s.calls[c].next <= |s.calls[c].fetched| && UpToNext(s.fired, s.calls[c])
  }

  // ---- at most once ---------------------------------------------------------------------

  predicate FetchedOk(call: Call)
    requires call.Delivering?
  {
    && call.next <= |call.fetched| && DistinctIds(call.fetched)
    && forall k :: 0 <= k < |call.fetched| ==>
      call.fetched[k].enabled && call.fetched[k].createdAt <= call.facts.completedAt
  }

  predicate NothingSent(fired: seq<Delivery>, job: JobId) {
    forall i :: 0 <= i < |fired| ==> fired[i].job != job
  }

  predicate CallOk(considered: set<JobId>, fired: seq<Delivery>, call: Call) {
    && (!call.Seen? ==> call.job in considered)
    && (call.Took? ==> NothingSent(fired, call.job))
    && (call.Delivering? ==> FetchedOk(call) && UpToNext(fired, call))
  }

  predicate OneTaker(calls: map<CallId, Call>) {
    forall c, d :: c in calls && d in calls && c != d && calls[c].job == calls[d].job ==>
      calls[c].Seen? || calls[d].Seen?
  }

  predicate OnlyConsidered(fired: seq<Delivery>, considered: set<JobId>) {
    forall i :: 0 <= i < |fired| ==> fired[i].job in considered
  }

  predicate Inv(s: Sys) {
    && (forall c :: c in s.calls ==> CallOk(s.considered, s.fired, s.calls[c])) && OneTaker(s.calls)
    && OnlyConsidered(s.fired, s.considered) && AtMostOnce(s.fired) && AllFire(s.fired)
  }

  lemma FetchKeepsInv(s: Sys, step: Step)
    requires Inv(s) && Enabled(s, step) && step.Fetch?
    ensures Inv(Next(s, step))
  {
    var s' := Next(s, step);
    var call, call' := s.calls[step.c], s'.calls[step.c];
    assert CallOk(s.considered, s.fired, call);
    forall k | 0 <= k < |call'.fetched|
      ensures call'.fetched[k].enabled && call'.fetched[k].createdAt <= call'.facts.completedAt
    {
      assert call'.fetched[k] in call'.fetched;
    }
  }

  lemma SentAfter(fired: seq<Delivery>, more: seq<Delivery>, a: AutomationId, job: JobId)
    requires |more| <= 1
    ensures Sent(fired + more, a, job) <==>
      Sent(fired, a, job) || (more != [] && more[0].automation.id == a && more[0].job == job)
  {
    var both := fired + more;
    if Sent(fired, a, job) {
      var i :| 0 <= i < |fired| && fired[i].automation.id == a && fired[i].job == job;
      assert both[i] == fired[i];
    }
    if more != [] { assert both[|fired|] == more[0]; }
  }

  lemma SendsMeans(call: Call)
    requires call.Delivering? && FetchedOk(call) && call.next < |call.fetched|
    ensures var a := call.fetched[call.next];
            Sends(call) == if Concerns(a, call.facts) then [Delivery(a, call.job, call.facts)] else []
  {
    FiresMeans(call.fetched[call.next], call.facts);
  }

  /** The firing call itself moves on by one automation. */
  lemma FireKeepsOwner(considered: set<JobId>, fired: seq<Delivery>, call: Call)
    requires CallOk(considered, fired, call) && call.Delivering? && call.next < |call.fetched|
    ensures CallOk(considered, fired + Sends(call), call.(next := call.next + 1))
  {
    var a := call.fetched[call.next];
    SendsMeans(call);
    forall k | 0 <= k < |call.fetched|
      ensures Sent(fired + Sends(call), call.fetched[k].id, call.job) <==>
        k < call.next + 1 && Concerns(call.fetched[k], call.facts)
    {
      SentAfter(fired, Sends(call), call.fetched[k].id, call.job);
      assert k != call.next ==> call.fetched[k].id != a.id;
    }
  }

  /** A call that works on another job, or has only read, is not touched. */
  lemma FireKeepsOther(considered: set<JobId>, fired: seq<Delivery>, more: seq<Delivery>, call: Call)
    requires CallOk(considered, fired, call) && |more| <= 1
    requires more != [] && !call.Seen? ==> more[0].job != call.job
    ensures CallOk(considered, fired + more, call)
  {
    if call.Delivering? {
      forall k | 0 <= k < |call.fetched|
        ensures Sent(fired + more, call.fetched[k].id, call.job) <==>
          k < call.next && Concerns(call.fetched[k], call.facts)
      {
        SentAfter(fired, more, call.fetched[k].id, call.job);
      }
    }
  }

  lemma FireSendsOnce(considered: set<JobId>, fired: seq<Delivery>, call: Call)
    requires CallOk(considered, fired, call) && call.Delivering? && call.next < |call.fetched|
    requires OnlyConsidered(fired, considered) && AtMostOnce(fired) && AllFire(fired)
    ensures OnlyConsidered(fired + Sends(call), considered)
    ensures AtMostOnce(fired + Sends(call)) && AllFire(fired + Sends(call))
  {
    SendsMeans(call);
    assert !Sent(fired, call.fetched[call.next].id, call.job);
  }

  lemma FireKeepsInv(s: Sys, step: Step)
    requires Inv(s) && Enabled(s, step) && step.FireNext?
    ensures Inv(Next(s, step))
  {
    var s' := Next(s, step);
    var call := s.calls[step.c];
    assert CallOk(s.considered, s.fired, call);
    FireKeepsOwner(s.considered, s.fired, call);
    FireSendsOnce(s.considered, s.fired, call);
    forall c | c in s'.calls ensures CallOk(s'.considered, s'.fired, s'.calls[c]) {
      if c != step.c {
        assert CallOk(s.considered, s.fired, s.calls[c]);
        FireKeepsOther(s.considered, s.fired, Sends(call), s.calls[c]);
      }
    }
  }

  lemma StepKeepsInv(s: Sys, step: Step)
    requires Inv(s) && Enabled(s, step)
    ensures Inv(Next(s, step)) && s.fired <= Next(s, step).fired && s.considered <= Next(s, step).considered
  {
    match step
    case Fetch(_) => FetchKeepsInv(s, step);
    case FireNext(_) => FireKeepsInv(s, step);
    case _ =>
  }

  // ---- what was acted on stays so ------------------------------------------------------------

  /** The job ended as `facts` says, and has stayed so. */
  predicate Agrees(jobs: Table, job: JobId, facts: JobFacts) {
    job in jobs && Terminal(facts.status) && jobs[job].status == facts.status
      && jobs[job].completedAt == Some(facts.completedAt)
  }

  predicate AllAgree(jobs: Table, fired: seq<Delivery>) {
    forall i :: 0 <= i < |fired| ==> Agrees(jobs, fired[i].job, fired[i].facts)
  }

  predicate Truthful(s: Sys) {
    && Worker.Inv(s.base) && AllAgree(s.base.jobs, s.fired)
    && forall c :: c in s.calls ==> Agrees(s.base.jobs, s.calls[c].job, s.calls[c].facts)
  }

  /** The workers' one discipline: no lock is given up over a live task. */
  predicate Disciplined(s: Sys, step: Step) {
    step.Base? ==> Worker.Disciplined(s.base, step.step)
  }

  lemma StepKeepsTruth(s: Sys, step: Step)
    requires Truthful(s) && Enabled(s, step) && Disciplined(s, step)
    ensures Truthful(Next(s, step)) && s.fired <= Next(s, step).fired
  {
    if step.Base? { Worker.StepKeepsInv(s.base, step.step); }
    if step.Act? { Worker.StepKeepsInv(s.base, Worker.Submit(step.id, step.now)); }
  }

  // ---- runs ------------------------------------------------------------------------------

  predicate Run(s: Sys, steps: seq<Step>)
    decreases |steps|
  {
    steps == [] || (Enabled(s, steps[0]) && Run(Next(s, steps[0]), steps[1..]))
  }

  predicate CleanRun(s: Sys, steps: seq<Step>)
    decreases |steps|
  {
    steps == [] || (Enabled(s, steps[0]) && Disciplined(s, steps[0]) && CleanRun(Next(s, steps[0]), steps[1..]))
  }

  lemma {:induction false} CleanRunIsRun(s: Sys, steps: seq<Step>)
    requires CleanRun(s, steps)
    ensures Run(s, steps)
    decreases |steps|
  {
    if steps != [] { CleanRunIsRun(Next(s, steps[0]), steps[1..]); }
  }

  function After(s: Sys, steps: seq<Step>): Sys
    requires Run(s, steps)
    decreases |steps|
  {
    if steps == [] then s else After(Next(s, steps[0]), steps[1..])
  }

  lemma {:induction false} RunKeepsInv(s: Sys, steps: seq<Step>)
    requires Inv(s) && Run(s, steps)
    ensures Inv(After(s, steps))
    decreases |steps|
  {
    if steps != [] {
      StepKeepsInv(s, steps[0]);
      RunKeepsInv(Next(s, steps[0]), steps[1..]);
    }
  }

  lemma {:induction false} RunKeepsTruth(s: Sys, steps: seq<Step>)
    requires Truthful(s) && CleanRun(s, steps)
    ensures Run(s, steps) && Truthful(After(s, steps)) && s.fired <= After(s, steps).fired
    decreases |steps|
  {
    CleanRunIsRun(s, steps);
    if steps != [] {
      StepKeepsTruth(s, steps[0]);
      RunKeepsTruth(Next(s, steps[0]), steps[1..]);
    }
  }

  /**
   However calls overlap and break off, whatever workers do and however
   automations change meanwhile: no automation acts twice on one job, each that
   acted had every reason to, and a call leaves out nothing it has come past.
   */
  lemma FiresAtMostOnce(s: Sys, steps: seq<Step>)
    requires Initial(s) && Run(s, steps)
    ensures Promised(After(s, steps))
  {
    RunKeepsInv(s, steps);
    var s' := After(s, steps);
    forall c | c in s'.calls && s'.calls[c].Delivering?
      ensures s'.calls[c].next <= |s'.calls[c].fetched| && UpToNext(s'.fired, s'.calls[c])
    {
      assert CallOk(s'.considered, s'.fired, s'.calls[c]);
    }
  }

  predicate Splits(s: Sys, first: seq<Step>, later: seq<Step>) {
    CleanRun(s, first) && Run(s, first) && CleanRun(After(s, first), later) && Run(After(s, first), later)
  }

  /** What was delivered is never taken back, and the end it spoke of is the job's for the rest of a clean run. */
  lemma ActedOnForEver(s: Sys, first: seq<Step>, later: seq<Step>)
    requires Initial(s) && Splits(s, first, later)
    ensures var fired, end := After(s, first).fired, After(After(s, first), later);
            fired <= end.fired && AllAgree(end.base.jobs, fired)
  {
    assert Worker.Inv(s.base);
    RunKeepsTruth(s, first);
    RunKeepsTruth(After(s, first), later);
    var fired, end := After(s, first).fired, After(After(s, first), later);
    forall i | 0 <= i < |fired| ensures Agrees(end.base.jobs, fired[i].job, fired[i].facts) {
      assert fired[i] == end.fired[i];
    }
  }

  // ---- how far one job's consequences reach ------------------------------------------------

  predicate FromOrigin(origin: Origin, facts: JobFacts) {
    && facts.repository == origin.repository && facts.workspace == origin.workspace
    && facts.triggeredBy == origin.triggeredBy
  }

  predicate Caused(s: Sys, id: JobId)
    requires id in s.submitted
  {
    s.submitted[id] < |s.fired| && CausedBy(s.fired[s.submitted[id]].automation, s.origin(id))
  }

  /** What calls and deliveries know of a job is what it was submitted with, and by whom is on record. */
  predicate Grounded(s: Sys) {
    && (forall c :: c in s.calls ==> FromOrigin(s.origin(s.calls[c].job), s.calls[c].facts))
    && (forall i :: 0 <= i < |s.fired| ==> FromOrigin(s.origin(s.fired[i].job), s.fired[i].facts))
    && forall id :: id in s.submitted ==> Caused(s, id)
  }

  lemma StepKeepsCauses(s: Sys, step: Step)
    requires (forall id :: id in s.submitted ==> Caused(s, id)) && Enabled(s, step)
    ensures forall id :: id in Next(s, step).submitted ==> Caused(Next(s, step), id)
  {
    var s' := Next(s, step);
    forall id | id in s'.submitted ensures Caused(s', id) {
      if id in s.submitted { assert Caused(s, id); }
    }
  }

  lemma StepKeepsGround(s: Sys, step: Step)
    requires Grounded(s) && Enabled(s, step)
    ensures Grounded(Next(s, step))
  {
    StepKeepsCauses(s, step);
  }

  lemma {:induction false} RunKeepsGround(s: Sys, steps: seq<Step>)
    requires Grounded(s) && Run(s, steps)
    ensures Grounded(After(s, steps))
    decreases |steps|
  {
    if steps != [] {
      StepKeepsGround(s, steps[0]);
      RunKeepsGround(Next(s, steps[0]), steps[1..]);
    }
  }

  /** In every run each delivery was due, and speaks of its job as it was submitted. */
  lemma EachDeliveryWasDue(s: Sys, steps: seq<Step>, i: nat)
    requires Initial(s) && Run(s, steps) && i < |After(s, steps).fired|
    ensures var end := After(s, steps);
            var d := end.fired[i];
            && Concerns(d.automation, d.facts)
            && d.facts.repository == end.origin(d.job).repository && d.facts.workspace == end.origin(d.job).workspace
            && d.facts.triggeredBy == end.origin(d.job).triggeredBy
  {
    RunKeepsInv(s, steps);
    RunKeepsGround(s, steps);
  }

  /** Deliveries, each on a job that an action of the one before it submitted. */
  predicate Descends(s: Sys, line: seq<nat>) {
    && (forall k :: 0 <= k < |line| ==> line[k] < |s.fired|)
    && forall k :: 0 < k < |line| ==> Follows(s, line[k - 1], line[k])
  }

  predicate Follows(s: Sys, i: nat, j: nat) {
    j < |s.fired| && s.fired[j].job in s.submitted && s.submitted[s.fired[j].job] == i
  }

  lemma FollowsIsEdge(s: Sys, i: nat, j: nat)
    requires Grounded(s) && AllFire(s.fired) && i < |s.fired| && Follows(s, i, j)
    ensures Edge(s.fired[i].automation, s.fired[j].automation)
  {
    var a, b, id := s.fired[i].automation, s.fired[j].automation, s.fired[j].job;
    assert Caused(s, id);
    FiresMeans(b, s.fired[j].facts);
    CauseIsInjective(a.name, b.name);
    var k :| 0 <= k < |a.actions| && a.actions[k] == RunWorkspace(s.origin(id).repository, s.origin(id).workspace);
  }

  function Causes(fired: seq<Delivery>, line: seq<nat>): seq<Automation>
    requires forall k :: 0 <= k < |line| ==> line[k] < |fired|
  {
    seq(|line|, k requires 0 <= k < |line| => fired[line[k]].automation)
  }

  /**
   In every run, of whatever workers, calls and edits: if no cycle of
   automations, in the versions that fired, can feed itself, then no job leads
   to more deliveries in a row than there are such automations.
   */
  lemma ConsequencesAreBounded(s: Sys, steps: seq<Step>, autos: set<Automation>, line: seq<nat>)
    requires Initial(s) && Run(s, steps) && Acyclic(autos)
    requires forall i :: 0 <= i < |After(s, steps).fired| ==> After(s, steps).fired[i].automation in autos
    requires Descends(After(s, steps), line)
    ensures |line| <= |autos|
  {
    RunKeepsGround(s, steps);
    RunKeepsInv(s, steps);
    var end := After(s, steps);
    var path := Causes(end.fired, line);
    forall k | 0 <= k < |path| - 1 ensures Edge(path[k], path[k + 1]) {
      assert Follows(end, line[k + 1 - 1], line[k + 1]);
      FollowsIsEdge(end, line[k], line[k + 1]);
    }
    AcyclicWalkIsDistinct(autos, path);
    DistinctFits(path, autos);
  }
}
