/**
 The reader of `events.py` against any number of log writers, whose inserts
 and notices cross as they like, and the order that holds all the same.
 */
module EventCrowd {
  import opened Common
  import opened Jobs
  import E = Events

  /** `unsent` are the rows inserted and not yet announced; `wire` is what the listener has not been handed. */
  datatype Sys = Sys(log: set<nat>, unsent: set<nat>, wire: seq<E.Msg>, r: E.Reader)

  datatype Step =
    | Insert(id: nat)
    | Publish(id: nat)
    | Say(msg: E.Msg)                       // any notice about the job, true or not
    | Listen
    | ReadStatus(status: Option<Status>)
    | ReadLog(entries: seq<nat>)
    | Receive
    | ReplayStep
    | TailStep(current: Option<Status>)
    | HangUp

  /** What `get_log` returns: the ids after the cursor, in order. */
  predicate Lists(entries: seq<nat>, log: set<nat>, cursor: nat) {
    && E.Increasing(entries)
    && (forall id :: id in entries ==> id in log && id > cursor)
    && (forall id :: id in log && id > cursor ==> id in entries)
  }

  predicate Enabled(s: Sys, step: Step) {
    match step
    case Insert(id) => id !in s.log
    case Publish(id) => id in s.unsent
    case Say(_) => true
    case Listen => s.r.phase.Idle?
    case ReadStatus(_) => s.r.phase.Listening?
    case ReadLog(entries) => s.r.phase.StatusSeen? && Lists(entries, s.log, s.r.cursor)
    case Receive => s.wire != [] && E.IsListening(s.r)
    case ReplayStep => s.r.phase.Replaying?
    case TailStep(_) => s.r.phase.Tailing? && s.r.queue != []
    case HangUp => E.IsListening(s.r)
  }

  function Wired(s: Sys, msg: E.Msg): seq<E.Msg> {
    if E.IsListening(s.r) then s.wire + [msg] else s.wire
  }

  function Next(s: Sys, step: Step): Sys
    requires Enabled(s, step)
  {
    match step
    case Insert(id) => s.(log := s.log + {id}, unsent := s.unsent + {id})
    case Publish(id) => s.(unsent := s.unsent - {id}, wire := Wired(s, E.LogMsg(id)))
    case Say(msg) => s.(wire := Wired(s, msg))
    case Listen => s.(r := s.r.(phase := E.Listening))
    case ReadStatus(status) => s.(r := E.SawStatus(s.r, status))
    case ReadLog(entries) => s.(r := s.r.(phase := E.Replaying(entries, s.r.phase.terminal)))
    case Receive => s.(wire := s.wire[1..], r := s.r.(queue := E.Enqueued(s.r.queue, s.wire[0])))
    case ReplayStep => s.(r := E.Replayed(s.r))
    case TailStep(current) => s.(r := E.Tailed(s.r, current))
    case HangUp => s.(r := s.r.(phase := E.Done))
  }

  function Start(log: set<nat>, unsent: set<nat>, after: nat): Sys {
    Sys(log, unsent, [], E.Opened(after))
  }

  predicate Runs(s: Sys, steps: seq<Step>)
    decreases |steps|
  {
    steps == [] || (Enabled(s, steps[0]) && Runs(Next(s, steps[0]), steps[1..]))
  }

  function After(s: Sys, steps: seq<Step>): Sys
    requires Runs(s, steps)
    decreases |steps|
  {
    if steps == [] then s else After(Next(s, steps[0]), steps[1..])
  }

  // ---- order, whoever writes ------------------------------------------------------

  lemma QuietKeepsOrder(r: E.Reader, r': E.Reader)
    requires E.ReaderOk(r) && r'.after == r.after && r'.cursor == r.cursor && r'.frames == r.frames
    requires r'.phase.Replaying? ==> r'.phase == r.phase
    ensures E.ReaderOk(r')
  {}

  lemma StatusSendsNoId(frames: seq<E.Frame>, status: Status)
    ensures E.LogIds(frames + [E.StatusFrame(status)]) == E.LogIds(frames)
  {
    E.LogIdsAppend(frames, E.StatusFrame(status));
    assert E.LogIds(frames) + [] == E.LogIds(frames);
  }

  lemma SameIdsKeepOrder(r: E.Reader, r': E.Reader, ids: seq<nat>)
    requires E.OrderedWith(r, ids) && r'.after == r.after && r'.cursor == r.cursor && !r'.phase.Replaying?
    ensures E.OrderedWith(r', ids)
  {}

  lemma StatusKeepsOrder(r: E.Reader, status: Option<Status>)
    requires E.ReaderOk(r)
    ensures E.ReaderOk(E.SawStatus(r, status)) && E.SawStatus(r, status).after == r.after
  {
    var ids := E.LogIds(r.frames);
    if status.Some? { StatusSendsNoId(r.frames, status.value); }
    SameIdsKeepOrder(r, E.SawStatus(r, status), ids);
  }

  lemma LogReadKeepsOrder(r: E.Reader, entries: seq<nat>, terminal: bool, log: set<nat>)
    requires E.ReaderOk(r) && Lists(entries, log, r.cursor)
    ensures E.ReaderOk(r.(phase := E.Replaying(entries, terminal)))
  {
    assert forall i :: 0 <= i < |entries| ==> entries[i] in entries;
  }

  lemma TailKeepsAfter(r: E.Reader, current: Option<Status>)
    requires r.queue != []
    ensures E.Tailed(r, current).after == r.after
  {}

  lemma StepKeepsOrder(s: Sys, step: Step)
    requires Enabled(s, step) && E.ReaderOk(s.r)
    ensures E.ReaderOk(Next(s, step).r) && Next(s, step).r.after == s.r.after
  {
    match step
    case ReadStatus(status) => StatusKeepsOrder(s.r, status);
    case ReadLog(entries) => LogReadKeepsOrder(s.r, entries, s.r.phase.terminal, s.log);
    case ReplayStep => E.ReaderKeepsOrder(s.r, None);
    case TailStep(current) => E.ReaderKeepsOrder(s.r, current); TailKeepsAfter(s.r, current);
    case _ => QuietKeepsOrder(s.r, Next(s, step).r);
  }

  lemma {:induction false} RunKeepsOrder(s: Sys, steps: seq<Step>)
    requires Runs(s, steps) && E.ReaderOk(s.r)
    ensures E.ReaderOk(After(s, steps).r) && After(s, steps).r.after == s.r.after
    decreases |steps|
  {
    if steps != [] {
      StepKeepsOrder(s, steps[0]);
      RunKeepsOrder(Next(s, steps[0]), steps[1..]);
    }
  }

  /**
   In every run, under any notices in any order, the ids sent strictly increase
   from `after` and end at the cursor.
   */
  lemma IdsSentIncrease(log: set<nat>, unsent: set<nat>, after: nat, steps: seq<Step>)
    requires Runs(Start(log, unsent, after), steps)
    ensures var r := After(Start(log, unsent, after), steps).r;
            var ids := E.LogIds(r.frames);
            && E.Increasing(ids) && (forall i :: 0 <= i < |ids| ==> after < ids[i])
            && r.cursor == (if ids == [] then after else ids[|ids| - 1])
  {
    RunKeepsOrder(Start(log, unsent, after), steps);
  }
}
