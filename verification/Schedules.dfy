/**
 `schedules.py`: when a schedule next runs, how a late one is walked forward,
 and why missed periods never come back as a burst. Instants and durations are
 whole microseconds.
 */
module Schedules {
  import opened Common

  const SECOND := 1_000_000
  const MAX_CATCHUP_STEPS := 1000

  /** The time zone database and the cron library, which are not part of the model. */
  datatype Calendar = Calendar(
    zoneKnown: string -> bool,
    cronValid: string -> bool,
    cronNext: (string, string, int) -> int)   // expression, zone, moment

  datatype ScheduleError = NotExactlyOneTrigger | IntervalNotPositive | UnknownZone | BadCron | BadParams

  datatype Trigger = Trigger(cron: Option<string>, interval: Option<int>, zone: string)

  function Validate(t: Trigger, cal: Calendar): Option<ScheduleError> {
    if t.cron.None? == t.interval.None? then Some(NotExactlyOneTrigger)
    else if t.interval.Some? && t.interval.value <= 0 then Some(IntervalNotPositive)
    else if !cal.zoneKnown(t.zone) then Some(UnknownZone)
    else if t.cron.Some? && !cal.cronValid(t.cron.value) then Some(BadCron)
    else None
  }

  function NextAfter(t: Trigger, moment: int, cal: Calendar): int
    requires t.interval.Some? || t.cron.Some?
  {
    if t.interval.Some? then moment + t.interval.value * SECOND
    else cal.cronNext(t.cron.value, t.zone, moment)
  }

  /** Which fault a definition has: the checks in their order. */
  lemma ValidateDecides(t: Trigger, cal: Calendar)
    ensures Validate(t, cal) == Some(NotExactlyOneTrigger) <==>
            (t.cron.Some? && t.interval.Some?) || (t.cron.None? && t.interval.None?)
    ensures Validate(t, cal) == Some(IntervalNotPositive) <==>
            t.cron.None? && t.interval.Some? && t.interval.value < 1
    ensures Validate(t, cal) == Some(UnknownZone) <==>
            && ((t.cron.None? && t.interval.Some? && t.interval.value >= 1) || (t.cron.Some? && t.interval.None?))
            && !cal.zoneKnown(t.zone)
    ensures Validate(t, cal) == Some(BadCron) <==>
            t.cron.Some? && t.interval.None? && cal.zoneKnown(t.zone) && !cal.cronValid(t.cron.value)
    ensures Validate(t, cal) == None <==>
            && cal.zoneKnown(t.zone)
            && ((t.cron.None? && t.interval.Some? && t.interval.value >= 1)
                || (t.cron.Some? && t.interval.None? && cal.cronValid(t.cron.value)))
  {}

  // ---- catching up ------------------------------------------------------------

  /** The walk with `steps` steps left before it gives up and re-times from `moment`. */
  function Walk(t: Trigger, due: int, moment: int, steps: nat, cal: Calendar): int
    requires t.interval.Some? || t.cron.Some?
    decreases steps
  {
    if steps == 0 then NextAfter(t, moment, cal)
    else
      var upcoming := NextAfter(t, due, cal);
      if upcoming > moment then upcoming else Walk(t, upcoming, moment, steps - 1, cal)
  }

  function Advanced(t: Trigger, due: int, moment: int, cal: Calendar): int
    requires t.interval.Some? || t.cron.Some?
  {
    Walk(t, due, moment, MAX_CATCHUP_STEPS, cal)
  }

  /** `_advance`. */
  method Advance(t: Trigger, due: int, moment: int, cal: Calendar) returns (upcoming: int)
    requires t.interval.Some? || t.cron.Some?
    ensures upcoming == Advanced(t, due, moment, cal)
  {
    upcoming := due;
    for i := 0 to MAX_CATCHUP_STEPS
      invariant Walk(t, upcoming, moment, MAX_CATCHUP_STEPS - i, cal) == Advanced(t, due, moment, cal)
    {
      upcoming := NextAfter(t, upcoming, cal);
      if upcoming > moment { return; }
    }
    upcoming := NextAfter(t, moment, cal);
  }

  /** `k` is the number of whole periods `s` that carries `due` past `moment`. */
  predicate PeriodsPast(due: int, moment: int, s: int, k: int) {
    k >= 1 && due + k * s - s <= moment < due + k * s
  }

  lemma PeriodsPastIsFloor(due: int, moment: int, s: int)
    requires s > 0 && due <= moment
    ensures PeriodsPast(due, moment, s, (moment - due) / s + 1)
  {
    var q := (moment - due) / s;
    assert moment - due == q * s + (moment - due) % s;
    assert (q + 1) * s == q * s + s;
  }

  lemma {:induction false} WalkInterval(t: Trigger, due: int, moment: int, steps: nat, k: int, cal: Calendar)
    requires t.interval.Some? && t.interval.value > 0
    requires PeriodsPast(due, moment, t.interval.value * SECOND, k)
    ensures var s := t.interval.value * SECOND;
            Walk(t, due, moment, steps, cal) == if k <= steps then due + k * s else moment + s
    decreases steps
  {
    var s := t.interval.value * SECOND;
    assert k * s == (k - 1) * s + s;
    if steps > 0 {
      if k == 1 {
        assert 1 * s == s;
      } else {
        assert k >= 2 && (k - 1) * s >= 1 * s by { Multiply(1, k - 1, s); }
        WalkInterval(t, due + s, moment, steps - 1, k - 1, cal);
      }
    }
  }

  lemma Multiply(a: int, b: int, s: int)
    requires a <= b && s >= 0
    ensures a * s <= b * s
  {}

  /**
   An interval schedule keeps its phase when at most a thousand periods were
   missed and is re-timed from now otherwise; either way it next runs within
   one period.
   */
  lemma AdvanceInterval(t: Trigger, due: int, moment: int, cal: Calendar)
    requires t.interval.Some? && t.interval.value > 0 && due <= moment
    ensures var s := t.interval.value * 1_000_000;
            var k := (moment - due) / s + 1;
            && Advanced(t, due, moment, cal) == (if k <= 1000 then due + k * s else moment + s)
            && moment < Advanced(t, due, moment, cal) <= moment + s
            && Advanced(t, due, moment, cal) >= due + s
  {
    var s := t.interval.value * SECOND;
    var k := (moment - due) / s + 1;
    PeriodsPastIsFloor(due, moment, s);
    WalkInterval(t, due, moment, MAX_CATCHUP_STEPS, k, cal);
    Multiply(1, k, s);
  }

  /** What a cron expression means: the least instant of a set strictly after a moment. */
  ghost predicate LeastAfter(next: int -> int, instants: int -> bool) {
    forall t :: next(t) > t && instants(next(t)) && forall u :: t < u < next(t) ==> !instants(u)
  }

  function CronFunction(t: Trigger, cal: Calendar): int -> int
    requires t.cron.Some?
  {
    (moment: int) => cal.cronNext(t.cron.value, t.zone, moment)
  }

  lemma {:induction false} WalkCron(t: Trigger, due: int, moment: int, steps: nat, cal: Calendar, instants: int -> bool)
    requires t.cron.Some? && t.interval.None? && due <= moment
    requires LeastAfter(CronFunction(t, cal), instants)
    ensures Walk(t, due, moment, steps, cal) == NextAfter(t, moment, cal)
    decreases steps
  {
    var next := CronFunction(t, cal);
    assert NextAfter(t, moment, cal) == next(moment);
    if steps > 0 {
      assert NextAfter(t, due, cal) == next(due);
      if next(due) <= moment {
        WalkCron(t, next(due), moment, steps - 1, cal, instants);
      } else {
        assert instants(next(due)) && instants(next(moment));
      }
    }
  }

  /** For a cron schedule the walk, the cap and re-timing from now all give the same instant. */
  lemma AdvanceCron(t: Trigger, due: int, moment: int, cal: Calendar, instants: int -> bool)
    requires t.cron.Some? && t.interval.None? && due <= moment
    requires LeastAfter(CronFunction(t, cal), instants)
    ensures Advanced(t, due, moment, cal) == NextAfter(t, moment, cal) > moment
  {
    WalkCron(t, due, moment, MAX_CATCHUP_STEPS, cal, instants);
    assert CronFunction(t, cal)(moment) == NextAfter(t, moment, cal);
  }

  // ---- the table ------------------------------------------------------------------

  datatype ScheduleId = ScheduleId(n: int)

  datatype Row = Row(
    trigger: Trigger, enabled: bool, nextRun: int, lastRun: Option<int>, lastJob: Option<JobId>)

  predicate Runnable(row: Row) {
    row.trigger.interval.Some? || row.trigger.cron.Some?
  }

  predicate Due(row: Row, now: int) {
    row.enabled && row.nextRun <= now
  }

  /** The row after firing; a submission that failed leaves no job but still advances. */
  function Fired(row: Row, now: int, job: Option<JobId>, cal: Calendar): Row
    requires Runnable(row)
  {
    row.(lastRun := Some(now), lastJob := job, nextRun := Advanced(row.trigger, row.nextRun, now, cal))
  }

  /** A partial update; a key that was sent is `Some`, and `params` says whether what was sent is valid. */
  datatype Changes = Changes(
    cron: Option<Option<string>>, interval: Option<Option<int>>, zone: Option<string>,
    enabled: Option<bool>, params: Option<bool>)

  function Or<T>(sent: Option<T>, current: T): T {
    if sent.Some? then sent.value else current
  }

  function Merged(row: Row, ch: Changes): Trigger {
    Trigger(Or(ch.cron, row.trigger.cron), Or(ch.interval, row.trigger.interval), Or(ch.zone, row.trigger.zone))
  }

  function Updated(row: Row, ch: Changes, now: int, cal: Calendar): Result<Row, ScheduleError> {
    var t := Merged(row, ch);
    var fault := Validate(t, cal);
    if fault.Some? then Err(fault.value)
    else if ch.params == Some(false) then Err(BadParams)
    else
      var retimed := ch.cron.Some? || ch.interval.Some? || ch.zone.Some?;
      var enabling := ch.enabled == Some(true) && !row.enabled;
      var nextRun := if retimed || enabling then NextAfter(t, now, cal) else row.nextRun;
      Ok(row.(trigger := t, enabled := Or(ch.enabled, row.enabled), nextRun := nextRun))
  }

  /** The UPDATE sets these columns and leaves `last_run` and `last_job` to the ticks. */
  function Overwritten(row: Row, decided: Row): Row {
    row.(trigger := decided.trigger, enabled := decided.enabled, nextRun := decided.nextRun)
  }

  /** What a patch of `cron` and so on leaves a column at. */
  predicate Becomes<T(==)>(sent: Option<T>, was: T, now: T) {
    (sent == None && now == was) || sent == Some(now)
  }

  /**
   A patch column by column. The next run is reckoned from now exactly when the
   timing was sent, even unchanged, or a disabled schedule is switched on.
   */
  lemma UpdatedColumns(row: Row, ch: Changes, now: int, cal: Calendar)
    ensures Updated(row, ch, now, cal) == Err(BadParams) ==> ch.params == Some(false)
    ensures Updated(row, ch, now, cal).Ok? ==>
              var u := Updated(row, ch, now, cal).value;
              && Validate(u.trigger, cal) == None && ch.params != Some(false)
              && Becomes(ch.cron, row.trigger.cron, u.trigger.cron)
              && Becomes(ch.interval, row.trigger.interval, u.trigger.interval)
              && Becomes(ch.zone, row.trigger.zone, u.trigger.zone)
              && Becomes(ch.enabled, row.enabled, u.enabled)
              && u.lastRun == row.lastRun && u.lastJob == row.lastJob
              && var anew := ch.cron != None || ch.interval != None || ch.zone != None || (u.enabled && !row.enabled);
              && (!anew ==> u.nextRun == row.nextRun)
              && (anew && u.trigger.interval.Some? ==> u.nextRun == now + u.trigger.interval.value * 1_000_000)
              && (anew && u.trigger.cron.Some? ==> u.nextRun == cal.cronNext(u.trigger.cron.value, u.trigger.zone, now))
  {}

  /** And it is refused exactly for what it would make of the definition, or for its parameters. */
  lemma UpdateRefusedIff(row: Row, ch: Changes, now: int, cal: Calendar, t: Trigger)
    requires Becomes(ch.cron, row.trigger.cron, t.cron) && Becomes(ch.interval, row.trigger.interval, t.interval)
    requires Becomes(ch.zone, row.trigger.zone, t.zone)
    ensures Updated(row, ch, now, cal).Err? <==> Validate(t, cal).Some? || ch.params == Some(false)
    ensures Validate(t, cal).Some? ==> Updated(row, ch, now, cal) == Err(Validate(t, cal).value)
  {
    assert t == Merged(row, ch);
  }

  class ScheduleTable {
    var rows: map<ScheduleId, Row>
    const cal: Calendar

    ghost predicate Valid()
      reads this
    {
      forall id :: id in rows ==> Runnable(rows[id])
    }

    constructor (cal: Calendar)
      ensures Valid() && rows == map[] && this.cal == cal
    {
      rows := map[];
      this.cal := cal;
    }

    /** The end of `update`: what was decided from the row as it was read goes over the row as it is now. */
    method WriteBack(id: ScheduleId, seen: Row, ch: Changes, moment: int)
      returns (r: Option<Result<Row, ScheduleError>>)
      requires Valid()
      modifies this
      ensures Valid()
      ensures Updated(seen, ch, moment, cal).Err? ==> r == Some(Updated(seen, ch, moment, cal)) && rows == old(rows)
      ensures Updated(seen, ch, moment, cal).Ok? && id !in old(rows) ==> r.None? && rows == old(rows)
      ensures Updated(seen, ch, moment, cal).Ok? && id in old(rows) ==>
                && rows == old(rows)[id := Overwritten(old(rows)[id], Updated(seen, ch, moment, cal).value)]
                && r == Some(Ok(rows[id]))
    {
      var decided := Updated(seen, ch, moment, cal);
      if decided.Err? { return Some(decided); }
      if id !in rows { return None; }
      rows := rows[id := rows[id].(
        trigger := decided.value.trigger, enabled := decided.value.enabled, nextRun := decided.value.nextRun)];
      return Some(Ok(rows[id]));
    }

    /** `update` with no other statement between its read and its write. */
    method Update(id: ScheduleId, ch: Changes, now: int) returns (r: Option<Result<Row, ScheduleError>>)
      requires Valid()
      modifies this
      ensures Valid()
      ensures r == if id in old(rows) then Some(Updated(old(rows)[id], ch, now, cal)) else None
      ensures rows == if r.Some? && r.value.Ok? then old(rows)[id := r.value.value] else old(rows)
    {
      if id !in rows { return None; }
      r := WriteBack(id, rows[id], ch, now);
    }

    /** `_fire`: claims the row only if it is still due. */
    method Fire(id: ScheduleId, now: int, job: Option<JobId>) returns (fired: bool)
      requires Valid()
      modifies this
      ensures Valid()
      ensures fired == (id in old(rows) && Due(old(rows)[id], now))
      ensures rows == if fired then old(rows)[id := Fired(old(rows)[id], now, job, cal)] else old(rows)
      ensures fired ==>
                && old(rows)[id].enabled && old(rows)[id].nextRun <= now && id in rows
                && rows[id] == old(rows)[id].(lastRun := Some(now), lastJob := job, nextRun := rows[id].nextRun)
                && rows[id].nextRun == Advanced(old(rows)[id].trigger, old(rows)[id].nextRun, now, cal)
      ensures !fired ==> id in rows ==> !rows[id].enabled || rows[id].nextRun > now
    {
      if id !in rows || !Due(rows[id], now) { return false; }
      var row := rows[id];
      var upcoming := Advance(row.trigger, row.nextRun, now, cal);
      rows := rows[id := row.(lastRun := Some(now), lastJob := job, nextRun := upcoming)];
      return true;
    }

    /** `run_due`: every due schedule fires once, whatever became of the others' submissions. */
    method RunDue(due: seq<ScheduleId>, now: int, submit: ScheduleId -> Option<JobId>)
      requires Valid()
      requires forall i, j :: 0 <= i < j < |due| ==> due[i] != due[j]
      requires forall id :: id in due <==> id in rows && Due(rows[id], now)
      modifies this
      ensures Valid() && rows.Keys == old(rows).Keys
      ensures forall id :: id in rows ==>
                rows[id] ==
                if Due(old(rows)[id], now) then Fired(old(rows)[id], now, submit(id), cal) else old(rows)[id]
    {
      for i := 0 to |due|
        invariant Valid() && rows.Keys == old(rows).Keys
        invariant forall id :: id in rows ==>
                    rows[id] == if id in due[..i] then Fired(old(rows)[id], now, submit(id), cal) else old(rows)[id]
      {
        var fired := Fire(due[i], now, submit(due[i]));
      }
      assert due[..|due|] == due;
    }
  }

  /** After a tick nothing is due any more: a schedule fires once per tick however late it is. */
  lemma FiredIsNotDue(row: Row, now: int, job: Option<JobId>, cal: Calendar, instants: int -> bool)
    requires Validate(row.trigger, cal) == None && Due(row, now)
    requires row.trigger.cron.Some? ==> LeastAfter(CronFunction(row.trigger, cal), instants)
    ensures !Due(Fired(row, now, job, cal), now)
  {
    if row.trigger.cron.Some? {
      AdvanceCron(row.trigger, row.nextRun, now, cal, instants);
    } else {
      AdvanceInterval(row.trigger, row.nextRun, now, cal);
    }
  }

  /** Switching a paused schedule back on does not make it due, however long ago its run was. */
  lemma ResumedIsNotDue(row: Row, ch: Changes, now: int, cal: Calendar, instants: int -> bool)
    requires Updated(row, ch, now, cal).Ok? && !row.enabled
    requires Merged(row, ch).cron.Some? ==> LeastAfter(CronFunction(Merged(row, ch), cal), instants)
    ensures var updated := Updated(row, ch, now, cal).value;
            && !Due(updated, now)
            && (updated.enabled ==> updated.nextRun == NextAfter(updated.trigger, now, cal) > now)
  {
    var t := Merged(row, ch);
    if t.cron.Some? {
      assert CronFunction(t, cal)(now) == NextAfter(t, now, cal);
    }
  }
}
