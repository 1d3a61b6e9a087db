/**
 One interval schedule over time: ticks of the worker, and patches that read
 the row, decide, and later write back what they decided, `next_run` included,
 whatever the row has become by then (`schedules.py`, `update` and `_fire`).
 */
module ScheduleRuns {
  import opened Common
  import opened Schedules

  datatype PatchId = PatchId(n: int)

  /** A fire, and the `next_run` it answered. */
  datatype Fire = Fire(due: int, at: int)

  /** A patch between its read and its write; `firesThen` is bookkeeping: how many fires its read could know of. */
  datatype Patch = Patch(seen: Row, changes: Changes, readAt: int, firesThen: nat)

  /** `interval`, `cal` and `first`, the first due instant, never change. */
  datatype Sys = Sys(
    interval: int, cal: Calendar, first: int, row: Row, open: map<PatchId, Patch>, fires: seq<Fire>, now: int)

  datatype Step =
    | Tick(now: int, job: Option<JobId>)
    | Read(p: PatchId, changes: Changes, now: int)
    | Write(p: PatchId, moment: int, now: int)   // `moment` is the clock as the patch read it

  function Period(s: Sys): (period: int)
    ensures period == s.interval * 1_000_000
  {
    s.interval * SECOND
  }

  /** The patch sends no interval, or the one there is. */
  predicate KeepsInterval(ch: Changes, interval: int) {
    ch.interval.None? || ch.interval == Some(Some(interval))
  }

  predicate Enabled(s: Sys, step: Step) {
    && s.now <= step.now
    && match step
       case Tick(_, _) => Runnable(s.row)
       case Read(p, changes, _) => p !in s.open && KeepsInterval(changes, s.interval)
       case Write(p, moment, now) => p in s.open && s.open[p].readAt <= moment <= now
  }

  function Decided(s: Sys, p: PatchId, moment: int): Result<Row, ScheduleError>
    requires p in s.open
  {
    Updated(s.open[p].seen, s.open[p].changes, moment, s.cal)
  }

  function Next(s: Sys, step: Step): Sys
    requires Enabled(s, step)
  {
    match step
    case Tick(now, job) =>
      if Due(s.row, now)
      then s.(row := Fired(s.row, now, job, s.cal), fires := s.fires + [Fire(s.row.nextRun, now)], now := now)
      else s.(now := now)
    case Read(p, changes, now) =>
      s.(open := s.open[p := Patch(s.row, changes, now, |s.fires|)], now := now)
    case Write(p, moment, now) =>
      match Decided(s, p, moment)
      case Ok(decided) => s.(row := Overwritten(s.row, decided), open := s.open - {p}, now := now)
      case Err(_) => s.(open := s.open - {p}, now := now)
  }

  predicate Initial(s: Sys) {
    && s.interval > 0 && s.row.trigger.interval == Some(s.interval)
    && s.first == s.row.nextRun <= s.now + Period(s) && s.open == map[] && s.fires == []
  }

  // ---- pace ---------------------------------------------------------------------

  /** No period is answered twice, and none that had begun when the schedule last fired is answered later. */
  predicate Paced(fires: seq<Fire>, period: int) {
    && (forall i :: 0 <= i < |fires| ==> fires[i].due <= fires[i].at)
    && (forall i :: 0 <= i < |fires| - 1 ==> fires[i].due + period <= fires[i + 1].due)
    && (forall i :: 0 <= i < |fires| - 1 ==> fires[i].at < fires[i + 1].due)
  }

  /** `next` comes a period after the last due instant answered, and after the instant it was answered at. */
  predicate Fresh(fires: seq<Fire>, period: int, next: int) {
    fires != [] ==> fires[|fires| - 1].due + period <= next && fires[|fires| - 1].at < next
  }

  /** The guard the source does not have: what is about to be written must not lie behind what has been answered. */
  predicate SafeWrite(s: Sys, p: PatchId, moment: int)
    requires p in s.open
  {
    match Decided(s, p, moment)
    case Ok(decided) => decided.enabled ==> Fresh(s.fires, Period(s), decided.nextRun)
    case Err(_) => true
  }

  predicate PatchOk(s: Sys, patch: Patch) {
    && patch.seen.trigger.interval == Some(s.interval) && KeepsInterval(patch.changes, s.interval)
    && s.first <= patch.seen.nextRun && s.first <= patch.readAt + Period(s) && patch.readAt <= s.now
    && patch.firesThen <= |s.fires|
    && (patch.firesThen == |s.fires| && patch.seen.enabled ==> Fresh(s.fires, Period(s), patch.seen.nextRun))
    && (patch.firesThen == |s.fires| && s.fires != [] ==> s.fires[|s.fires| - 1].at <= patch.readAt)
  }

  predicate Inv(s: Sys) {
    && s.interval > 0 && s.row.trigger.interval == Some(s.interval)
    && s.first <= s.row.nextRun && s.first <= s.now + Period(s)
    && (s.row.enabled ==> Fresh(s.fires, Period(s), s.row.nextRun))
    && Paced(s.fires, Period(s))
    && (s.fires != [] ==> s.first <= s.fires[0].due && s.fires[|s.fires| - 1].at <= s.now)
    && forall p :: p in s.open ==> PatchOk(s, s.open[p])
  }

  lemma PacedMore(fires: seq<Fire>, period: int, fire: Fire)
    requires Paced(fires, period) && fire.due <= fire.at
    ensures Paced(fires + [fire], period) <==> Fresh(fires, period, fire.due)
  {
    var n, all := |fires|, fires + [fire];
    if fires != [] && Paced(all, period) {
      assert all[n - 1].due + period <= all[n - 1 + 1].due && all[n - 1].at < all[n - 1 + 1].due;
    }
  }

  lemma TickKeepsInv(s: Sys, step: Step)
    requires Inv(s) && Enabled(s, step) && step.Tick?
    ensures Inv(Next(s, step))
  {
    if Due(s.row, step.now) {
      AdvanceInterval(s.row.trigger, s.row.nextRun, step.now, s.cal);
      PacedMore(s.fires, Period(s), Fire(s.row.nextRun, step.now));
    }
    var s' := Next(s, step);
    forall p | p in s'.open ensures PatchOk(s', s'.open[p]) { assert PatchOk(s, s.open[p]); }
  }

  lemma ReadKeepsInv(s: Sys, step: Step)
    requires Inv(s) && Enabled(s, step) && step.Read?
    ensures Inv(Next(s, step))
  {
    var s' := Next(s, step);
    forall p | p in s'.open ensures PatchOk(s', s'.open[p]) {
      if p != step.p { assert PatchOk(s, s.open[p]); }
    }
  }

  lemma WriteKeepsInv(s: Sys, step: Step)
    requires Inv(s) && Enabled(s, step) && step.Write? && SafeWrite(s, step.p, step.moment)
    ensures Inv(Next(s, step))
  {
    var s' := Next(s, step);
    assert PatchOk(s, s.open[step.p]);
    forall p | p in s'.open ensures PatchOk(s', s'.open[p]) { assert PatchOk(s, s.open[p]); }
  }

  // ---- runs ---------------------------------------------------------------------

  predicate Safe(s: Sys, step: Step)
    requires Enabled(s, step)
  {
    step.Write? ==> SafeWrite(s, step.p, step.moment)
  }

  predicate CleanRun(s: Sys, steps: seq<Step>)
    decreases |steps|
  {
    steps == [] || (Enabled(s, steps[0]) && Safe(s, steps[0]) && CleanRun(Next(s, steps[0]), steps[1..]))
  }

  predicate Run(s: Sys, steps: seq<Step>)
    decreases |steps|
  {
    steps == [] || (Enabled(s, steps[0]) && Run(Next(s, steps[0]), steps[1..]))
  }

  function After(s: Sys, steps: seq<Step>): Sys
    requires Run(s, steps)
    decreases |steps|
  {
    if steps == [] then s else After(Next(s, steps[0]), steps[1..])
  }

  lemma StepKeepsInv(s: Sys, step: Step)
    requires Inv(s) && Enabled(s, step) && Safe(s, step)
    ensures Inv(Next(s, step))
  {
    match step
    case Tick(_, _) => TickKeepsInv(s, step);
    case Read(_, _, _) => ReadKeepsInv(s, step);
    case Write(_, _, _) => WriteKeepsInv(s, step);
  }

  lemma StepKeepsConstants(s: Sys, step: Step)
    requires Enabled(s, step)
    ensures Next(s, step).interval == s.interval && Next(s, step).first == s.first && s.fires <= Next(s, step).fires
  {}

  lemma {:induction false} RunKeepsInv(s: Sys, steps: seq<Step>)
    requires Inv(s) && CleanRun(s, steps)
    ensures Run(s, steps) && Inv(After(s, steps))
    ensures After(s, steps).interval == s.interval && After(s, steps).first == s.first
    decreases |steps|
  {
    if steps != [] {
      StepKeepsInv(s, steps[0]);
      StepKeepsConstants(s, steps[0]);
      RunKeepsInv(Next(s, steps[0]), steps[1..]);
    }
  }

  /** Whatever is done next, as long as every further write is safe, the schedule keeps its pace. */
  ghost predicate StaysPaced(s: Sys) {
    forall later :: CleanRun(s, later) ==> Run(s, later) && Paced(After(s, later).fires, Period(s))
  }

  lemma OneTick(s: Sys, tick: Step)
    requires Enabled(s, tick) && tick.Tick?
    ensures CleanRun(s, [tick]) && Run(s, [tick]) && After(s, [tick]) == Next(s, tick)
  {
    assert [tick][1..] == [];
    assert After(s, [tick]) == After(Next(s, tick), []);
  }

  /** Writing a patch back keeps the pace in every continuation exactly when the write is safe. */
  lemma WriteStaysPacedIffSafe(s: Sys, write: Step)
    requires Inv(s) && Enabled(s, write) && write.Write?
    ensures StaysPaced(Next(s, write)) <==> SafeWrite(s, write.p, write.moment)
  {
    var s' := Next(s, write);
    if SafeWrite(s, write.p, write.moment) {
      WriteKeepsInv(s, write);
      forall later | CleanRun(s', later) ensures Run(s', later) && Paced(After(s', later).fires, Period(s')) {
        RunKeepsInv(s', later);
      }
    } else {
      assert PatchOk(s, s.open[write.p]);
      var due := s'.row.nextRun;
      var tick := Tick(if due > s'.now then due else s'.now, None);
      OneTick(s', tick);
      PacedMore(s'.fires, Period(s'), Fire(due, tick.now));
      assert !Paced(After(s', [tick]).fires, Period(s'));
    }
  }

  // ---- which patches are safe -----------------------------------------------------

  /** If nothing fired since its read, a patch is safe to write, whatever it changes. */
  lemma UnfiredPatchIsSafe(s: Sys, p: PatchId, moment: int)
    requires Inv(s) && p in s.open && s.open[p].readAt <= moment && s.open[p].firesThen == |s.fires|
    ensures SafeWrite(s, p, moment)
  {
    assert PatchOk(s, s.open[p]);
    if s.fires != [] { assert s.fires[|s.fires| - 1].due <= s.fires[|s.fires| - 1].at; }
  }

  /** No fire commits between the read and the write of any patch. */
  predicate NoFireBetween(s: Sys, steps: seq<Step>)
    requires Run(s, steps)
    decreases |steps|
  {
    steps == [] ||
    ((steps[0].Write? ==> s.open[steps[0].p].firesThen == |s.fires|) && NoFireBetween(Next(s, steps[0]), steps[1..]))
  }

  lemma {:induction false} UnfiredRunIsClean(s: Sys, steps: seq<Step>)
    requires Inv(s) && Run(s, steps) && NoFireBetween(s, steps)
    ensures CleanRun(s, steps)
    decreases |steps|
  {
    if steps != [] {
      if steps[0].Write? { UnfiredPatchIsSafe(s, steps[0].p, steps[0].moment); }
      StepKeepsInv(s, steps[0]);
      UnfiredRunIsClean(Next(s, steps[0]), steps[1..]);
    }
  }

  predicate AllTicks(steps: seq<Step>) {
    forall i :: 0 <= i < |steps| ==> steps[i].Tick?
  }

  /** Ticks alone answer the instant that was due, or leave the row as it was. */
  lemma {:induction false} TicksAnswer(s: Sys, ticks: seq<Step>)
    requires Inv(s) && Run(s, ticks) && AllTicks(ticks)
    ensures var s' := After(s, ticks);
            && Inv(s') && s'.open == s.open && s.fires <= s'.fires
            && s'.interval == s.interval && s'.cal == s.cal
            && (|s'.fires| > |s.fires| ==> s'.fires[|s'.fires| - 1].due >= s.row.nextRun && s.row.enabled)
    decreases |ticks|
  {
    if ticks != [] {
      TickKeepsInv(s, ticks[0]);
      if Due(s.row, ticks[0].now) { AdvanceInterval(s.row.trigger, s.row.nextRun, ticks[0].now, s.cal); }
      TicksAnswer(Next(s, ticks[0]), ticks[1..]);
    }
  }

  /** It neither re-times the schedule nor switches it on or off. */
  predicate Plain(row: Row, ch: Changes) {
    ch.cron.None? && ch.interval.None? && ch.zone.None? && Or(ch.enabled, row.enabled) == row.enabled
  }

  /** With only ticks since its read, a patch that leaves the timing alone is safe exactly when none of them fired. */
  lemma PlainPatchIsSafeIffUnfired(s: Sys, read: Step, ticks: seq<Step>, moment: int)
    requires Inv(s) && Enabled(s, read) && read.Read? && Plain(s.row, read.changes) && read.now <= moment
    requires Updated(s.row, read.changes, moment, s.cal).Ok?
    requires Run(Next(s, read), ticks) && AllTicks(ticks)
    ensures var s' := After(Next(s, read), ticks);
            read.p in s'.open && (SafeWrite(s', read.p, moment) <==> s'.fires == s.fires)
  {
    ReadKeepsInv(s, read);
    TicksAnswer(Next(s, read), ticks);
    var s' := After(Next(s, read), ticks);
    assert s'.open[read.p] == Patch(s.row, read.changes, read.now, |s.fires|);
    if s'.fires == s.fires {
      UnfiredPatchIsSafe(s', read.p, moment);
    } else {
      assert |s'.fires| > |s.fires|;
    }
  }

  // ---- missed runs stay missed ------------------------------------------------------

  /** How many of the fires fall at or before `upTo`. */
  function FiresUpTo(fires: seq<Fire>, upTo: int): nat {
    if fires == [] then 0
    else FiresUpTo(fires[..|fires| - 1], upTo) + if fires[|fires| - 1].at <= upTo then 1 else 0
  }

  /**
   Over any ticks, pauses, resumes and refused patches whose writes are safe,
   no more than `(upTo - first) / period + 1` fires happen up to any instant
   from the first due time on.
   */
  lemma MissedRunsStayMissed(s: Sys, steps: seq<Step>, upTo: int)
    requires Initial(s) && CleanRun(s, steps)
    ensures Run(s, steps)
    ensures FiresUpTo(After(s, steps).fires, upTo) <= if upTo < s.first then 0 else (upTo - s.first) / Period(s) + 1
  {
    RunKeepsInv(s, steps);
    var fires := After(s, steps).fires;
    DuesSpread(fires, Period(s), s.first);
    CountPaced(fires, Period(s), s.first, upTo);
  }

  /** In particular when no fire ever falls between a patch's read and its write. */
  lemma UninterruptedPatchesKeepTheBound(s: Sys, steps: seq<Step>, upTo: int)
    requires Initial(s) && Run(s, steps) && NoFireBetween(s, steps)
    ensures FiresUpTo(After(s, steps).fires, upTo) <= if upTo < s.first then 0 else (upTo - s.first) / Period(s) + 1
  {
    UnfiredRunIsClean(s, steps);
    MissedRunsStayMissed(s, steps, upTo);
  }

  /** Two fires with `m` others between them are more than `m` periods apart. */
  lemma NoBurst(s: Sys, steps: seq<Step>, i: nat, j: nat)
    requires Initial(s) && CleanRun(s, steps)
    requires Run(s, steps) && i < j < |After(s, steps).fires|
    ensures var fires := After(s, steps).fires; fires[j].at - fires[i].at > (j - i - 1) * Period(s)
  {
    RunKeepsInv(s, steps);
    DuesApart(After(s, steps).fires, Period(s), i + 1, j);
  }

  lemma {:induction false} DuesApart(fires: seq<Fire>, period: int, i: nat, j: nat)
    requires Paced(fires, period) && i <= j < |fires|
    ensures fires[j].due >= fires[i].due + (j - i) * period
    decreases j
  {
    if i < j {
      DuesApart(fires, period, i, j - 1);
      assert fires[j - 1].due + period <= fires[j - 1 + 1].due;
      assert (j - i) * period == (j - 1 - i) * period + period;
    }
  }

  lemma DuesSpread(fires: seq<Fire>, period: int, first: int)
    requires Paced(fires, period) && (fires != [] ==> first <= fires[0].due)
    ensures forall n :: 0 <= n < |fires| ==> fires[n].at >= first + n * period
  {
    forall n | 0 <= n < |fires| ensures fires[n].at >= first + n * period {
      DuesApart(fires, period, 0, n);
    }
  }

  lemma CountPaced(fires: seq<Fire>, period: int, first: int, upTo: int)
    requires period > 0 && forall n :: 0 <= n < |fires| ==> fires[n].at >= first + n * period
    ensures FiresUpTo(fires, upTo) <= if upTo < first then 0 else (upTo - first) / period + 1
  {
    var bound := if upTo < first then 0 else (upTo - first) / period + 1;
    forall n | bound <= n < |fires| ensures fires[n].at > upTo {
      PastTheBound(upTo - first, n, period);
    }
    CountFires(fires, upTo, bound);
  }

  lemma {:induction false} CountFires(fires: seq<Fire>, upTo: int, bound: nat)
    requires forall n :: bound <= n < |fires| ==> fires[n].at > upTo
    ensures FiresUpTo(fires, upTo) <= bound && FiresUpTo(fires, upTo) <= |fires|
  {
    if fires != [] { CountFires(fires[..|fires| - 1], upTo, bound); }
  }

  lemma PastTheBound(x: int, n: nat, period: int)
    requires period > 0 && n >= if x < 0 then 0 else x / period + 1
    ensures n * period > x
  {
    Multiply(0, n, period);
    if x >= 0 {
      var q := x / period;
      assert x == q * period + x % period && (q + 1) * period == q * period + period;
      Multiply(q + 1, n, period);
    }
  }

  // ---- a stale patch ------------------------------------------------------------------

  const PARAMS_ONLY := Changes(None, None, None, None, Some(true))

  /**
   New parameters sent while the schedule fires: the patch read `next_run`
   before the fire and writes it back after, and the same period fires again.
   */
  lemma StalePatchFiresTwice(s: Sys, p: PatchId)
    requires Initial(s) && s.row.enabled && s.now <= s.first && Validate(s.row.trigger, s.cal).None?
    ensures var d := s.first;
            var steps := [Read(p, PARAMS_ONLY, d), Tick(d, None), Write(p, d, d), Tick(d, None)];
            && Run(s, steps) && After(s, steps).fires == [Fire(d, d), Fire(d, d)]
            && FiresUpTo(After(s, steps).fires, d) == 2
  {
    var d := s.first;
    var a, b, c := Read(p, PARAMS_ONLY, d), Tick(d, None), Write(p, d, d);
    var s1 := Next(s, a);
    var s2 := Next(s1, b);
    AdvanceInterval(s.row.trigger, d, d, s.cal);
    var s3 := Next(s2, c);
    assert s3.row.nextRun == d && s3.row.enabled;
    OneTick(s3, b);
    assert [a, b, c, b][1..] == [b, c, b] && [b, c, b][1..] == [c, b] && [c, b][1..] == [b];
    assert Run(s2, [c, b]) && Run(s1, [b, c, b]) && Run(s, [a, b, c, b]);
    assert After(s, [a, b, c, b]) == After(s1, [b, c, b]) == After(s2, [c, b]) == After(s3, [b]);
    var twice := [Fire(d, d), Fire(d, d)];
    assert After(s, [a, b, c, b]).fires == twice;
    assert twice[..1] == [Fire(d, d)] && [Fire(d, d)][..0] == [];
    assert FiresUpTo([Fire(d, d)], d) == 1;
  }
}
