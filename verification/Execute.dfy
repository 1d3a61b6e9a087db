/**
 `execute.py`: waiting for a job to finish. The waiter listens, then reads
 the row, then waits for a notice; the writer updates the row, then publishes
 the notice, and may die in between.
 */
module Execute {
  import opened Common
  import opened Jobs

  /** What has become of the finish; `Dead` if its writer died after the update and before the notice. */
  datatype Writer = Working | Updated | Announced | Dead

  datatype Waiter =
    | Connecting
    | Listening
    | Waiting
    | Reading                    // woken, about to read the row again
    | Returned(status: Status)
    | TimedOut

  /** `wire` holds the statuses published since the waiter began to listen; `woken` is its event flag. */
  datatype Sys = Sys(status: Status, writer: Writer, waiter: Waiter, wire: seq<Status>, woken: bool)

  datatype Step =
    | Start                      // claimed
    | Requeue                    // a worker died before finishing; another will
    | Update(status: Status)     // `finish`, or a cancel of a queued job
    | Announce                   // its notice
    | AnnounceProgress           // the notice of an unfinished status
    | Crash                      // the writer dies after its update
    | Listen
    | Receive
    | ReadRow
    | Wake
    | Reread
    | TimeOut

  predicate IsListening(s: Sys) {
    s.waiter.Listening? || s.waiter.Waiting? || s.waiter.Reading?
  }

  predicate Enabled(s: Sys, step: Step) {
    match step
    case Start => s.status.Queued?
    case Requeue => s.status.Running?
    case Update(status) => s.writer.Working? && !Terminal(s.status) && Terminal(status)
    case Announce => s.writer.Updated?
    case AnnounceProgress => !Terminal(s.status)
    case Crash => s.writer.Updated?
    case Listen => s.waiter.Connecting?
    case Receive => s.wire != [] && IsListening(s)
    case ReadRow => s.waiter.Listening?
    case Wake => s.waiter.Waiting? && s.woken
    case Reread => s.waiter.Reading?
    case TimeOut => s.waiter.Waiting? && !s.woken
  }

  function Published(s: Sys, status: Status): seq<Status> {
    if IsListening(s) then s.wire + [status] else s.wire
  }

  function Next(s: Sys, step: Step): Sys
    requires Enabled(s, step)
  {
    match step
    case Start => s.(status := Running)
    case Requeue => s.(status := Queued)
    case Update(status) => s.(status := status, writer := Updated)
    case Announce => s.(writer := Announced, wire := Published(s, s.status))
    case AnnounceProgress => s.(wire := Published(s, s.status))
    case Crash => s.(writer := Dead)
    case Listen => s.(waiter := Listening)
    case Receive => s.(wire := s.wire[1..], woken := s.woken || Terminal(s.wire[0]))
    case ReadRow => s.(waiter := if Terminal(s.status) then Returned(s.status) else Waiting)
    case Wake => s.(waiter := Reading)
    case Reread => s.(waiter := Returned(s.status))
    case TimeOut => s.(waiter := TimedOut)
  }

  function Init(status: Status): Sys {
    Sys(status, Working, Connecting, [], false)
  }

  /** The event `await_job` waits on, and what its listener was called with. */
  class JobWaiter {
    const wanted: JobId
    var done: bool
    ghost var heard: seq<Notice>

    /** The notice says the job has finished. */
    predicate Wakes(n: Notice) {
      n.StatusNotice? && n.job == wanted && Terminal(n.status)
    }

    ghost predicate Valid()
      reads this
    {
      done <==> exists i :: 0 <= i < |heard| && Wakes(heard[i])
    }

    constructor (wanted: JobId)
      ensures Valid() && this.wanted == wanted && heard == []
    {
      this.wanted := wanted;
      done, heard := false, [];
    }

    /** The listener: it stays woken whatever comes later. */
    method OnNotify(n: Notice)
      requires Valid()
      modifies this
      ensures Valid() && heard == old(heard) + [n]
      ensures done <==> old(done) || (n.StatusNotice? && n.job == wanted && n.status in {Complete, Failed, Cancelled})
    {
      if n.StatusNotice? && n.job == wanted && Terminal(n.status) { done := true; }
      heard := heard + [n];
      assert heard[|heard| - 1] == n && forall i :: 0 <= i < |old(heard)| ==> heard[i] == old(heard)[i];
    }

    /** What the caller gets, from the row as first read, the row as read on waking, and what was heard in time. */
    method Answer(first: Status, latest: Status) returns (answer: Option<Status>)
      requires Valid()
      ensures answer.None? <==>
              && first in {Queued, Running}
              && forall i :: 0 <= i < |heard| ==>
                   heard[i].StatusNotice? && heard[i].job == wanted ==> heard[i].status in {Queued, Running}
      ensures answer.Some? ==> answer.value == if first in {Queued, Running} then latest else first
    {
      if Terminal(first) { return Some(first); }
      if !done { return None; }
      return Some(latest);
    }
  }

  // ---- no wake-up is lost -------------------------------------------------------

  predicate FinishOnWire(s: Sys) {
    exists i :: 0 <= i < |s.wire| && Terminal(s.wire[i])
  }

  /** The waiter will learn of the finish, or has already. */
  predicate WakeUpComing(s: Sys) {
    s.woken || FinishOnWire(s) || s.writer.Updated?
  }

  predicate Inv(s: Sys) {
    && (s.waiter.Connecting? ==> s.wire == [] && !s.woken)
    && (Terminal(s.status) && s.waiter.Waiting? && !s.writer.Dead? ==> WakeUpComing(s))
    && (s.woken || FinishOnWire(s) || s.waiter.Reading? || s.writer.Updated? || s.writer.Announced? ==>
      Terminal(s.status))
    && (Terminal(s.status) && s.writer.Working? ==> s.waiter != Waiting)
    && (!s.writer.Announced? ==> !s.woken && !FinishOnWire(s) && !s.waiter.Reading?)
    && (s.waiter.Returned? ==> s.waiter.status == s.status && Terminal(s.status))
  }

  lemma StepKeepsInv(s: Sys, step: Step)
    requires Inv(s) && Enabled(s, step)
    ensures Inv(Next(s, step))
    ensures Terminal(s.status) ==> Next(s, step).status == s.status
  {
    var s' := Next(s, step);
    if step.Receive? {
      assert forall i :: 0 <= i < |s'.wire| ==> s'.wire[i] == s.wire[i + 1];
      if FinishOnWire(s) && !Terminal(s.wire[0]) {
        var i :| 0 <= i < |s.wire| && Terminal(s.wire[i]);
        assert s'.wire[i - 1] == s.wire[i];
      }
    }
    if step.Announce? || step.AnnounceProgress? {
      assert forall i :: 0 <= i < |s.wire| ==> s'.wire[i] == s.wire[i];
      if IsListening(s) { assert s'.wire[|s.wire|] == s.status; }
    }
  }

  predicate Runs(s: Sys, steps: seq<Step>)
    decreases |steps|
  {
    steps == [] || (Enabled(s, steps[0]) && Runs(Next(s, steps[0]), steps[1..]))
  }

  function After(s: Sys, steps: seq<Step>): Sys
    requires Runs(s, steps)
    decreases |steps|
  {
    if steps == [] then s else After(Next(s, steps[0]), steps[1..])
  }

  lemma {:induction false} RunKeepsInv(s: Sys, steps: seq<Step>)
    requires Inv(s) && Runs(s, steps)
    ensures Inv(After(s, steps))
    decreases |steps|
  {
    if steps != [] {
      StepKeepsInv(s, steps[0]);
      RunKeepsInv(Next(s, steps[0]), steps[1..]);
    }
  }

  /**
   Wherever the finish falls between listening, reading and waiting: a waiter
   whose job has finished is awake or still has the notice to come exactly when
   the writer has not died; and what it returns is the job's final status.
   */
  lemma WakeUpComesIffWriterLives(status: Status, steps: seq<Step>)
    requires !Terminal(status) && Runs(Init(status), steps)
    ensures var s := After(Init(status), steps);
            && (Terminal(s.status) && s.waiter.Waiting? ==> (WakeUpComing(s) <==> !s.writer.Dead?))
            && (s.waiter.Returned? ==> s.waiter.status == s.status && Terminal(s.status))
            && (s.woken ==> Terminal(s.status))
  {
    RunKeepsInv(Init(status), steps);
  }

  /** A waiter whose writer died can only time out. */
  lemma {:induction false} DeadWriterMeansTimeout(s: Sys, later: seq<Step>)
    requires Inv(s) && s.writer.Dead? && (s.waiter.Waiting? || s.waiter.TimedOut?) && Runs(s, later)
    ensures After(s, later).waiter.Waiting? || After(s, later).waiter.TimedOut?
    decreases |later|
  {
    if later != [] {
      StepKeepsInv(s, later[0]);
      DeadWriterMeansTimeout(Next(s, later[0]), later[1..]);
    }
  }

  /** A job already finished is returned without waiting. */
  lemma FinishedJobIsReturned(status: Status)
    requires Terminal(status)
    ensures var steps := [Listen, ReadRow];
            Runs(Init(status), steps) && After(Init(status), steps).waiter == Returned(status)
  {
    assert [Listen, ReadRow][1..] == [ReadRow] && [ReadRow][1..] == [];
    assert Runs(Next(Init(status), Listen), [ReadRow]);
  }

  /** The exception is real: a writer that dies between its update and its notice leaves the waiter to its timeout. */
  lemma CrashLosesTheWakeUp(end: Status)
    requires Terminal(end)
    ensures var steps := [Listen, ReadRow, Update(end), Crash];
            && Runs(Init(Running), steps)
            && var s := After(Init(Running), steps);
            Terminal(s.status) && s.waiter.Waiting? && !WakeUpComing(s)
  {
    var a, b, c, d := Listen, ReadRow, Update(end), Crash;
    assert [a, b, c, d][1..] == [b, c, d] && [b, c, d][1..] == [c, d] && [c, d][1..] == [d] && [d][1..] == [];
    var s0 := Init(Running);
    var s1 := Next(s0, a);
    var s2 := Next(s1, b);
    var s3 := Next(s2, c);
    assert Runs(s3, [d]) && Runs(s2, [c, d]) && Runs(s1, [b, c, d]);
    assert After(s0, [a, b, c, d]) == After(s1, [b, c, d]) == After(s2, [c, d]) == After(s3, [d]) ==
      After(Next(s3, d), []);
  }
}
