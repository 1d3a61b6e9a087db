/**
 `automations.py`: which automations a finished job fires, how far one job's
 consequences can spread, and what a run of actions records.
 */
module Automations {
  import opened Common
  import opened Jobs

  datatype AutomationId = AutomationId(n: int)

  /** A filter that is absent, or the empty string, lets everything through. */
  datatype Trigger = Trigger(repository: Option<string>, workspace: Option<string>, status: Option<Status>)

  datatype Action = RunWorkspace(repository: string, workspace: string) | HttpRequest

  datatype Automation = Automation(
    id: AutomationId, name: string, trigger: Trigger, actions: seq<Action>, enabled: bool, createdAt: int)

  /** What a finished job shows its automations. */
  datatype JobFacts = JobFacts(
    repository: string, workspace: string, status: Status, triggeredBy: Option<string>, completedAt: int)

  predicate Passes(filter: Option<string>, value: string) {
    filter.None? || filter.value == "" || filter.value == value
  }

  /** `_matches`. */
  predicate Matches(t: Trigger, job: JobFacts) {
    && Passes(t.repository, job.repository)
    && Passes(t.workspace, job.workspace)
    && (t.status.Some? ==> t.status.value == job.status)
  }

  function Cause(name: string): string {
    "automation:" + name
  }

  /** `_would_loop`: only the immediate cause is compared. */
  predicate WouldLoop(name: string, job: JobFacts) {
    job.triggeredBy == Some(Cause(name))
  }

  predicate Fires(a: Automation, job: JobFacts) {
    && a.enabled && a.createdAt <= job.completedAt
    && Matches(a.trigger, job) && !WouldLoop(a.name, job)
  }

  /** The same said from the columns alone: an absent or empty filter asks nothing, any other asks for equality. */
  predicate Concerns(a: Automation, job: JobFacts) {
    && a.enabled && a.createdAt <= job.completedAt
    && a.trigger.repository in {None, Some(""), Some(job.repository)}
    && a.trigger.workspace in {None, Some(""), Some(job.workspace)}
    && a.trigger.status in {None, Some(job.status)}
    && job.triggeredBy != Some("automation:" + a.name)
  }

  lemma FiresMeans(a: Automation, job: JobFacts)
    ensures Fires(a, job) <==> Concerns(a, job)
  {
    PassesMeans(a.trigger.repository, job.repository);
    PassesMeans(a.trigger.workspace, job.workspace);
    assert a.trigger.status.Some? ==> a.trigger.status == Some(a.trigger.status.value);
  }

  lemma PassesMeans(filter: Option<string>, value: string)
    ensures Passes(filter, value) <==> filter in {None, Some(""), Some(value)}
  {
    assert filter.Some? ==> filter == Some(filter.value);
  }

  lemma CauseIsInjective(a: string, b: string)
    ensures Cause(a) == Cause(b) <==> a == b
  {
    if Cause(a) == Cause(b) {
      assert a == Cause(a)[|"automation:"|..] && b == Cause(b)[|"automation:"|..];
    }
  }

  // ---- the authoring check ----------------------------------------------------

  /** `_reject_self_trigger`. */
  predicate RejectsSelfTrigger(a: Automation) {
    exists i :: 0 <= i < |a.actions| && a.actions[i].RunWorkspace?
      && (a.trigger.workspace.None? || a.trigger.workspace.value == a.actions[i].workspace)
      && (a.trigger.repository.None? || a.trigger.repository.value == a.actions[i].repository)
  }

  /** An automation one of whose own jobs its trigger would match, whatever that job's status. */
  predicate WatchesItself(a: Automation) {
    exists i :: 0 <= i < |a.actions| && a.actions[i].RunWorkspace?
      && Passes(a.trigger.repository, a.actions[i].repository) && Passes(a.trigger.workspace, a.actions[i].workspace)
  }

  /** What authoring demands of an action: both names are given. */
  predicate NamedActions(a: Automation) {
    forall i :: 0 <= i < |a.actions| && a.actions[i].RunWorkspace? ==>
      a.actions[i].repository != "" && a.actions[i].workspace != ""
  }

  /** A filter is the empty string, and some job of the automation's own passes the other one. */
  predicate EmptyFilterPasses(a: Automation) {
    exists i :: 0 <= i < |a.actions| && a.actions[i].RunWorkspace?
      && ((a.trigger.repository == Some("") && Passes(a.trigger.workspace, a.actions[i].workspace))
          || (a.trigger.workspace == Some("") && Passes(a.trigger.repository, a.actions[i].repository)))
  }

  /** The check refuses nothing it should not, and misses exactly the automations an empty filter lets pass. */
  lemma SelfTriggerCheckIsExact(a: Automation)
    requires NamedActions(a)
    ensures RejectsSelfTrigger(a) ==> WatchesItself(a)
    ensures WatchesItself(a) && !RejectsSelfTrigger(a) <==> EmptyFilterPasses(a)
  {
    if RejectsSelfTrigger(a) {
      var i :| 0 <= i < |a.actions| && a.actions[i].RunWorkspace?
        && (a.trigger.workspace.None? || a.trigger.workspace.value == a.actions[i].workspace)
        && (a.trigger.repository.None? || a.trigger.repository.value == a.actions[i].repository);
      assert Passes(a.trigger.repository, a.actions[i].repository)
        && Passes(a.trigger.workspace, a.actions[i].workspace);
      assert a.trigger.repository != Some("") && a.trigger.workspace != Some("");
    }
    if WatchesItself(a) && !RejectsSelfTrigger(a) {
      var i :| 0 <= i < |a.actions| && a.actions[i].RunWorkspace?
        && Passes(a.trigger.repository, a.actions[i].repository) && Passes(a.trigger.workspace, a.actions[i].workspace);
      assert a.trigger.repository == Some("") || a.trigger.workspace == Some("");
    }
    if EmptyFilterPasses(a) {
      var i :| 0 <= i < |a.actions| && a.actions[i].RunWorkspace?
        && ((a.trigger.repository == Some("") && Passes(a.trigger.workspace, a.actions[i].workspace))
            || (a.trigger.workspace == Some("") && Passes(a.trigger.repository, a.actions[i].repository)));
      assert Passes(a.trigger.repository, a.actions[i].repository)
        && Passes(a.trigger.workspace, a.actions[i].workspace);
    }
  }

  // ---- chains ---------------------------------------------------------------------

  /** One firing that submitted a job: who fired, and the job as it finished. */
  datatype Link = Link(cause: Automation, job: JobFacts)

  /** `job` is what one of the automation's actions submits, however it ends. */
  predicate SubmittedBy(a: Automation, job: JobFacts) {
    && job.triggeredBy == Some(Cause(a.name))
    && Terminal(job.status)
    && RunWorkspace(job.repository, job.workspace) in a.actions
  }

  /** The automations as the database holds them: names are unique, filters name terminal statuses. */
  predicate WellNamed(autos: set<Automation>) {
    && (forall a, b :: a in autos && b in autos && a.name == b.name ==> a == b)
    && (forall a :: a in autos && a.trigger.status.Some? ==> Terminal(a.trigger.status.value))
  }

  /** A job and the jobs it led to, each link firing on the job before it. */
  predicate Chain(autos: set<Automation>, first: JobFacts, links: seq<Link>)
    decreases |links|
  {
    links == [] ||
    (&& links[0].cause in autos && Fires(links[0].cause, first) && SubmittedBy(links[0].cause, links[0].job)
     && first.completedAt <= links[0].job.completedAt && Chain(autos, links[0].job, links[1..]))
  }

  /** Somebody other than an automation asked for the job. */
  predicate External(autos: set<Automation>, job: JobFacts) {
    forall a :: a in autos ==> !WouldLoop(a.name, job)
  }

  /** A job `a` submits can match what `b` watches. */
  predicate Edge(a: Automation, b: Automation) {
    && a.name != b.name
    && exists i :: 0 <= i < |a.actions| && a.actions[i].RunWorkspace?
         && Passes(b.trigger.repository, a.actions[i].repository) && Passes(b.trigger.workspace, a.actions[i].workspace)
  }

  predicate Walk(autos: set<Automation>, path: seq<Automation>) {
    && (forall i :: 0 <= i < |path| ==> path[i] in autos)
    && (forall i :: 0 <= i < |path| - 1 ==> Edge(path[i], path[i + 1]))
  }

  predicate ClosedWalk(autos: set<Automation>, cycle: seq<Automation>) {
    Walk(autos, cycle) && |cycle| >= 2 && cycle[0] == cycle[|cycle| - 1]
  }

  /** No walk of at least one step comes back to where it began. */
  ghost predicate Acyclic(autos: set<Automation>) {
    forall path :: !ClosedWalk(autos, path)
  }

  function Causes(links: seq<Link>): (path: seq<Automation>)
    ensures |path| == |links|
    ensures forall i :: 0 <= i < |links| ==> path[i] == links[i].cause
  {
    if links == [] then [] else [links[0].cause] + Causes(links[1..])
  }

  lemma {:induction false} ChainIsWalk(autos: set<Automation>, first: JobFacts, links: seq<Link>)
    requires Chain(autos, first, links)
    ensures Walk(autos, Causes(links))
    decreases |links|
  {
    if links != [] {
      var rest := links[1..];
      ChainIsWalk(autos, links[0].job, rest);
      if rest != [] {
        var a, b, job := links[0].cause, rest[0].cause, links[0].job;
        CauseIsInjective(a.name, b.name);
        var i :| 0 <= i < |a.actions| && a.actions[i] == RunWorkspace(job.repository, job.workspace);
        assert Edge(a, b);
      }
      forall i | 0 <= i < |links| - 1 ensures Edge(Causes(links)[i], Causes(links)[i + 1]) {
        if i > 0 { assert Edge(Causes(rest)[i - 1], Causes(rest)[i]); }
      }
    }
  }

  lemma AcyclicWalkIsDistinct(autos: set<Automation>, path: seq<Automation>)
    requires Acyclic(autos) && Walk(autos, path)
    ensures forall i, j :: 0 <= i < j < |path| ==> path[i] != path[j]
  {
    forall i, j | 0 <= i < j < |path| ensures path[i] != path[j] {
      var part := path[i..j + 1];
      assert Walk(autos, part) && part[0] == path[i] && part[|part| - 1] == path[j];
      assert !ClosedWalk(autos, part);
    }
  }

  lemma {:induction false} DistinctFits(path: seq<Automation>, autos: set<Automation>)
    requires forall i :: 0 <= i < |path| ==> path[i] in autos
    requires forall i, j :: 0 <= i < j < |path| ==> path[i] != path[j]
    ensures |path| <= |autos|
  {
    if path != [] {
      var n := |path| - 1;
      DistinctFits(path[..n], autos - {path[n]});
    }
  }

  /** With an acyclic graph, no job leads to more jobs in a row than there are automations. */
  lemma AcyclicChainsAreShort(autos: set<Automation>, first: JobFacts, links: seq<Link>)
    requires Acyclic(autos) && Chain(autos, first, links)
    ensures |links| <= |autos|
  {
    ChainIsWalk(autos, first, links);
    AcyclicWalkIsDistinct(autos, Causes(links));
    DistinctFits(Causes(links), autos);
  }

  // ---- a cycle never ends ------------------------------------------------------------

  function Default(filter: Option<string>): string {
    if filter.Some? then filter.value else ""
  }

  /** A status the trigger accepts. */
  function AcceptedStatus(t: Trigger): Status {
    if t.status.Some? then t.status.value else Complete
  }

  /** The next position of a closed walk, going round for ever. */
  function Onward(cycle: seq<Automation>, i: nat): (next: nat)
    requires i < |cycle| - 1
    ensures next < |cycle| - 1
  {
    if i + 1 == |cycle| - 1 then 0 else i + 1
  }

  /** The job `a` submits that `b` will fire on. */
  lemma EdgeJob(a: Automation, b: Automation, at: int) returns (job: JobFacts)
    requires Edge(a, b) && b.enabled && b.createdAt <= at
    requires b.trigger.status.Some? ==> Terminal(b.trigger.status.value)
    ensures SubmittedBy(a, job) && Fires(b, job) && job.completedAt == at
  {
    var i :| 0 <= i < |a.actions| && a.actions[i].RunWorkspace?
      && Passes(b.trigger.repository, a.actions[i].repository) && Passes(b.trigger.workspace, a.actions[i].workspace);
    var action := a.actions[i];
    job := JobFacts(action.repository, action.workspace, AcceptedStatus(b.trigger), Some(Cause(a.name)), at);
    CauseIsInjective(a.name, b.name);
    assert RunWorkspace(job.repository, job.workspace) in a.actions;
  }

  /** A closed walk of enabled automations has chains of any length, each job ending later than the one before. */
  lemma {:induction false} CycleChain(autos: set<Automation>, cycle: seq<Automation>, i: nat, first: JobFacts, n: nat)
    returns (links: seq<Link>)
    requires WellNamed(autos) && ClosedWalk(autos, cycle) && i < |cycle| - 1
    requires forall a :: a in autos ==> a.enabled && a.createdAt <= first.completedAt
    requires Fires(cycle[i], first)
    ensures Chain(autos, first, links) && |links| == n
    ensures forall k :: 0 <= k < n ==> links[k].job.completedAt == first.completedAt + k + 1
    decreases n
  {
    if n == 0 {
      links := [];
    } else {
      var next := Onward(cycle, i);
      assert Edge(cycle[i], cycle[i + 1]);
      var job := EdgeJob(cycle[i], cycle[next], first.completedAt + 1);
      var rest := CycleChain(autos, cycle, next, job, n - 1);
      links := [Link(cycle[i], job)] + rest;
      assert links[1..] == rest;
    }
  }

  /** No chain from a job nobody's automation asked for is longer than `n`. */
  ghost predicate BoundedBy(autos: set<Automation>, n: nat) {
    forall first, links :: External(autos, first) && Chain(autos, first, links) ==> |links| <= n
  }

  lemma {:induction false} LatestCreation(autos: set<Automation>) returns (at: int)
    ensures forall a :: a in autos ==> a.createdAt <= at
    decreases autos
  {
    at := 0;
    if autos != {} {
      var a :| a in autos;
      at := LatestCreation(autos - {a});
      assert forall b :: b in autos ==> b == a || b in autos - {a};
      if a.createdAt > at { at := a.createdAt; }
    }
  }

  lemma CycleIsUnbounded(autos: set<Automation>, cycle: seq<Automation>, n: nat)
    requires WellNamed(autos) && ClosedWalk(autos, cycle)
    requires forall a :: a in autos ==> a.enabled
    ensures !BoundedBy(autos, n)
  {
    var at := LatestCreation(autos);
    var t := cycle[0].trigger;
    var first := JobFacts(Default(t.repository), Default(t.workspace), AcceptedStatus(t), None, at);
    var links := CycleChain(autos, cycle, 0, first, n + 1);
    assert External(autos, first);
  }

  /**
   Among enabled automations, one job's consequences are bounded exactly when
   the graph of what can fire what, without self-edges, has no cycle; the
   bound is then the number of automations.
   */
  lemma BoundedIffAcyclic(autos: set<Automation>)
    requires WellNamed(autos) && forall a :: a in autos ==> a.enabled
    ensures (exists n: nat :: BoundedBy(autos, n)) <==> Acyclic(autos)
    ensures Acyclic(autos) ==> BoundedBy(autos, |autos|)
  {
    if Acyclic(autos) {
      forall first, links | External(autos, first) && Chain(autos, first, links) ensures |links| <= |autos| {
        AcyclicChainsAreShort(autos, first, links);
      }
      assert BoundedBy(autos, |autos|);
    } else {
      var cycle :| ClosedWalk(autos, cycle);
      forall n: nat ensures !BoundedBy(autos, n) { CycleIsUnbounded(autos, cycle, n); }
    }
  }

  /**
   Two automations that run each other's workspaces already never stop: comparing
   the immediate cause is not enough.
   */
  lemma PairRunsForEver(a: Automation, b: Automation, n: nat)
    requires WellNamed({a, b}) && a.enabled && b.enabled && Edge(a, b) && Edge(b, a)
    ensures !BoundedBy({a, b}, n)
  {
    var cycle := [a, b, a];
    assert Walk({a, b}, cycle);
    CycleIsUnbounded({a, b}, cycle, n);
  }

  // ---- what one firing records ---------------------------------------------------

  /** What an action did: it raised, or returned a result that may itself say it failed. */
  datatype Performed = Raised(error: string) | Result(ok: bool)

  datatype Outcome = Outcome(ok: bool, error: Option<string>)

  function OutcomeOf(p: Performed): Outcome {
    match p
    case Raised(error) => Outcome(false, Some(error))
    case Result(ok) => Outcome(ok, None)
  }

  /** A row of `automation_runs`. */
  datatype RunRecord = RunRecord(automation: AutomationId, job: JobId, results: seq<Outcome>, ok: bool)

  function RecordOf(a: Automation, job: JobId, perform: (Automation, nat) -> Performed): RunRecord {
    RunRecord(a.id, job, seq(|a.actions|, i requires 0 <= i < |a.actions| => OutcomeOf(perform(a, i))),
              forall i :: 0 <= i < |a.actions| ==> !perform(a, i).Raised?)
  }

  /** The rows one finished job adds, in the order the automations were read. */
  function RunsFor(all: seq<Automation>, job: JobId, facts: JobFacts,
      perform: (Automation, nat) -> Performed): seq<RunRecord> {
    if all == [] then []
    else
      var last := all[|all| - 1];
      RunsFor(all[..|all| - 1], job, facts, perform) + if Fires(last, facts) then [RecordOf(last, job, perform)] else []
  }

  function Ran(runs: seq<RunRecord>): set<AutomationId> {
    set r | r in runs :: r.automation
  }

  function FiringIds(all: seq<Automation>, facts: JobFacts): set<AutomationId> {
    set a | a in all && Concerns(a, facts) :: a.id
  }

  lemma RanSnoc(runs: seq<RunRecord>, r: RunRecord)
    ensures Ran(runs + [r]) == Ran(runs) + {r.automation}
  {}

  lemma FiringIdsSnoc(all: seq<Automation>, a: Automation, facts: JobFacts)
    ensures FiringIds(all + [a], facts) == FiringIds(all, facts) + if Concerns(a, facts) then {a.id} else {}
  {}

  lemma LastIsNew(all: seq<Automation>, facts: JobFacts)
    requires all != [] && DistinctIds(all)
    ensures all[|all| - 1].id !in FiringIds(all[..|all| - 1], facts)
  {}

  predicate DistinctIds(all: seq<Automation>) {
    forall i, j :: 0 <= i < j < |all| ==> all[i].id != all[j].id
  }

  lemma OneRowMore(all: seq<Automation>, a: Automation, runs: seq<RunRecord>, facts: JobFacts, r: RunRecord)
    requires Ran(runs) == FiringIds(all, facts) && |runs| == |FiringIds(all, facts)|
    requires r.automation == a.id && a.id !in FiringIds(all, facts)
    ensures var more := if Fires(a, facts) then runs + [r] else runs;
            Ran(more) == FiringIds(all + [a], facts) && |more| == |FiringIds(all + [a], facts)|
  {
    FiresMeans(a, facts);
    FiringIdsSnoc(all, a, facts);
    RanSnoc(runs, r);
  }

  /** Each automation that fires gets one row, and no other automation gets any. */
  lemma {:induction false} OneRowPerFiring(all: seq<Automation>, job: JobId, facts: JobFacts,
      perform: (Automation, nat) -> Performed)
    requires DistinctIds(all)
    ensures var runs := RunsFor(all, job, facts, perform);
            Ran(runs) == FiringIds(all, facts) && |runs| == |FiringIds(all, facts)|
  {
    if all != [] {
      var n := |all| - 1;
      var before := RunsFor(all[..n], job, facts, perform);
      OneRowPerFiring(all[..n], job, facts, perform);
      assert all == all[..n] + [all[n]];
      LastIsNew(all, facts);
      OneRowMore(all[..n], all[n], before, facts, RecordOf(all[n], job, perform));
      assert before + [] == before;
    }
  }

  /** The row of one automation: an outcome for each action in turn, and failure only for one that raised. */
  predicate Records(r: RunRecord, a: Automation, job: JobId, perform: (Automation, nat) -> Performed) {
    && r.automation == a.id && r.job == job && |r.results| == |a.actions|
    && (forall i :: 0 <= i < |a.actions| ==>
          match perform(a, i)
          case Raised(e) => r.results[i].ok == false && r.results[i].error == Some(e)
          case Result(ok) => r.results[i].ok == ok && r.results[i].error == None)
    && (r.ok <==> forall i :: 0 <= i < |a.actions| ==> perform(a, i).Result?)
  }

  /** Every row is that of an automation the job concerns, and each of those has its row. */
  predicate RowsFor(rows: seq<RunRecord>, all: seq<Automation>, job: JobId, facts: JobFacts,
      perform: (Automation, nat) -> Performed)
  {
    && (forall i :: 0 <= i < |rows| ==> OwnRow(rows[i], all, job, facts, perform))
    && (forall a :: a in all && Concerns(a, facts) ==> HasRow(rows, a, job, perform))
  }

  lemma RecordOfSays(a: Automation, job: JobId, perform: (Automation, nat) -> Performed)
    ensures Records(RecordOf(a, job, perform), a, job, perform)
  {}

  predicate OwnRow(r: RunRecord, all: seq<Automation>, job: JobId, facts: JobFacts,
      perform: (Automation, nat) -> Performed)
  {
    exists a :: a in all && Concerns(a, facts) && Records(r, a, job, perform)
  }

  predicate HasRow(rows: seq<RunRecord>, a: Automation, job: JobId, perform: (Automation, nat) -> Performed) {
    exists i :: 0 <= i < |rows| && Records(rows[i], a, job, perform)
  }

  lemma OwnRowMore(r: RunRecord, all: seq<Automation>, a: Automation, job: JobId, facts: JobFacts,
      perform: (Automation, nat) -> Performed)
    requires OwnRow(r, all, job, facts, perform) || (Concerns(a, facts) && Records(r, a, job, perform))
    ensures OwnRow(r, all + [a], job, facts, perform)
  {
    if OwnRow(r, all, job, facts, perform) {
      var b :| b in all && Concerns(b, facts) && Records(r, b, job, perform);
      assert b in all + [a];
    } else {
      assert a in all + [a];
    }
  }

  lemma HasRowMore(rows: seq<RunRecord>, r: RunRecord, a: Automation, job: JobId,
      perform: (Automation, nat) -> Performed)
    requires HasRow(rows, a, job, perform) || Records(r, a, job, perform)
    ensures HasRow(rows + [r], a, job, perform)
  {
    var more := rows + [r];
    if HasRow(rows, a, job, perform) {
      var i :| 0 <= i < |rows| && Records(rows[i], a, job, perform);
      assert more[i] == rows[i];
    } else {
      assert more[|rows|] == r;
    }
  }

  lemma RowsForMore(rows: seq<RunRecord>, all: seq<Automation>, a: Automation, job: JobId, facts: JobFacts,
      perform: (Automation, nat) -> Performed)
    requires RowsFor(rows, all, job, facts, perform)
    ensures RowsFor(rows + if Fires(a, facts) then [RecordOf(a, job, perform)] else [], all + [a], job, facts, perform)
  {
    FiresMeans(a, facts);
    RecordOfSays(a, job, perform);
    var r := RecordOf(a, job, perform);
    var more := rows + if Fires(a, facts) then [r] else [];
    forall i | 0 <= i < |more| ensures OwnRow(more[i], all + [a], job, facts, perform) {
      if i < |rows| { assert OwnRow(rows[i], all, job, facts, perform); }
      OwnRowMore(more[i], all, a, job, facts, perform);
    }
    forall b | b in all + [a] && Concerns(b, facts) ensures HasRow(more, b, job, perform) {
      if b in all { assert HasRow(rows, b, job, perform); }
      if Fires(a, facts) { HasRowMore(rows, r, b, job, perform); } else { assert more == rows; }
    }
  }

  lemma LastRow(all: seq<Automation>, job: JobId, facts: JobFacts, perform: (Automation, nat) -> Performed)
    requires all != []
    ensures var n := |all| - 1;
            && all == all[..n] + [all[n]]
            && RunsFor(all, job, facts, perform) ==
               RunsFor(all[..n], job, facts, perform) + if Fires(all[n], facts)
                 then [RecordOf(all[n], job, perform)] else []
  {}

  lemma {:induction false} RunsForMeans(all: seq<Automation>, job: JobId, facts: JobFacts,
      perform: (Automation, nat) -> Performed)
    ensures RowsFor(RunsFor(all, job, facts, perform), all, job, facts, perform)
  {
    if all != [] {
      var n := |all| - 1;
      var rows := RunsFor(all[..n], job, facts, perform);
      RunsForMeans(all[..n], job, facts, perform);
      RowsForMore(rows, all[..n], all[n], job, facts, perform);
      LastRow(all, job, facts, perform);
    }
  }

  class Engine {
    var considered: set<JobId>      // jobs whose `automations_at` is set
    var runs: seq<RunRecord>

    constructor ()
      ensures considered == {} && runs == []
    {
      considered, runs := {}, [];
    }

    /** `_fire`: every action is tried, whatever became of the ones before it. */
    method Fire(a: Automation, job: JobId, perform: (Automation, nat) -> Performed)
      modifies this`runs
      ensures runs == old(runs) + [RecordOf(a, job, perform)] && Records(runs[|runs| - 1], a, job, perform)
    {
      var results: seq<Outcome> := [];
      var ok := true;
      for k := 0 to |a.actions|
        invariant |results| == k && forall i :: 0 <= i < k ==> results[i] == OutcomeOf(perform(a, i))
        invariant ok <==> forall i :: 0 <= i < k ==> !perform(a, i).Raised?
        invariant runs == old(runs)
      {
        var p := perform(a, k);
        if p.Raised? { ok := false; }
        results := results + [OutcomeOf(p)];
      }
      assert results == RecordOf(a, job, perform).results;
      runs := runs + [RunRecord(a.id, job, results, ok)];
    }

    /** `consider`: the job is claimed before anything fires, and only once. */
    method Consider(job: JobId, facts: Option<JobFacts>, all: seq<Automation>, perform: (Automation, nat) -> Performed)
      modifies this
      ensures var claims := facts.Some? && Terminal(facts.value.status) && job !in old(considered);
              && considered == (if claims then old(considered) + {job} else old(considered))
              && runs == old(runs) + if claims then RunsFor(all, job, facts.value, perform) else []
      ensures facts.Some? && facts.value.status in {Complete, Failed, Cancelled} && job !in old(considered) ==>
                && considered == old(considered) + {job} && old(runs) <= runs
                && RowsFor(runs[|old(runs)|..], all, job, facts.value, perform)
                && (DistinctIds(all) ==> |runs| == |old(runs)| + |FiringIds(all, facts.value)|)
      ensures !(facts.Some? && facts.value.status in {Complete, Failed, Cancelled} && job !in old(considered)) ==>
                considered == old(considered) && runs == old(runs)
    {
      if facts.None? || !Terminal(facts.value.status) || job in considered { return; }
      considered := considered + {job};
      for k := 0 to |all|
        invariant considered == old(considered) + {job}
        invariant runs == old(runs) + RunsFor(all[..k], job, facts.value, perform)
      {
        assert all[..k + 1][..k] == all[..k];
        if Fires(all[k], facts.value) { Fire(all[k], job, perform); }
      }
      assert all[..|all|] == all;
      assert runs[|old(runs)|..] == RunsFor(all, job, facts.value, perform);
      RunsForMeans(all, job, facts.value, perform);
      if DistinctIds(all) { OneRowPerFiring(all, job, facts.value, perform); }
    }
  }

  /** Some result says it failed. */
  predicate HasFailure(r: RunRecord) {
    exists i :: 0 <= i < |r.results| && !r.results[i].ok
  }

  /** A run is recorded as ok over a failed result exactly when no action raised and some delivery was refused. */
  lemma OkDespiteFailureIff(a: Automation, job: JobId, perform: (Automation, nat) -> Performed)
    ensures var record := RecordOf(a, job, perform);
            record.ok && HasFailure(record) <==>
            && (forall i :: 0 <= i < |a.actions| ==> !perform(a, i).Raised?)
            && exists i :: 0 <= i < |a.actions| && perform(a, i) == Result(false)
  {
    var record := RecordOf(a, job, perform);
    forall i | 0 <= i < |a.actions|
      ensures perform(a, i) == Result(false) <==> !perform(a, i).Raised? && !record.results[i].ok
    {
      assert record.results[i] == OutcomeOf(perform(a, i));
    }
    if exists i :: 0 <= i < |a.actions| && perform(a, i) == Result(false) {
      var i :| 0 <= i < |a.actions| && perform(a, i) == Result(false);
      assert !record.results[i].ok;
    }
    if record.ok && HasFailure(record) {
      var i :| 0 <= i < |record.results| && !record.results[i].ok;
      assert perform(a, i) == Result(false);
    }
  }
}
