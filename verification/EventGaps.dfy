/**
 When a reader among many writers misses nothing: over whole runs, every row
 of the log is sent exactly when the notices its tail handled, less those
 already sent, ascended.
 */
module EventGaps {
  import opened Common
  import opened Jobs
  import E = Events
  import opened EventCrowd

  // ---- records -----------------------------------------------------------------------

  /** The ids beyond the cursor, in the order they came. */
  function Beyond(ids: seq<nat>, cursor: nat): seq<nat> {
    if ids == [] then []
    else (if ids[0] > cursor then [ids[0]] else []) + Beyond(ids[1..], cursor)
  }

  /** The ids that exceed the cursor and all before them. */
  function Records(ids: seq<nat>, cursor: nat): seq<nat> {
    if ids == [] then []
    else if ids[0] > cursor then [ids[0]] + Records(ids[1..], ids[0])
    else Records(ids[1..], cursor)
  }

  lemma {:induction false} RecordsIncrease(ids: seq<nat>, cursor: nat)
    ensures E.Increasing(Records(ids, cursor))
    ensures forall i :: 0 <= i < |Records(ids, cursor)| ==> Records(ids, cursor)[i] > cursor
  {
    if ids != [] { RecordsIncrease(ids[1..], if ids[0] > cursor then ids[0] else cursor); }
  }

  lemma {:induction false} BeyondFurther(ids: seq<nat>, cursor: nat, further: nat)
    requires cursor <= further && forall i :: 0 <= i < |Beyond(ids, cursor)| ==> Beyond(ids, cursor)[i] > further
    ensures Beyond(ids, further) == Beyond(ids, cursor)
  {
    if ids != [] {
      var rest := Beyond(ids[1..], cursor);
      if ids[0] > cursor {
        assert Beyond(ids, cursor)[0] == ids[0];
        assert rest == Beyond(ids, cursor)[1..];
      } else {
        assert Beyond(ids, cursor) == rest;
      }
      BeyondFurther(ids[1..], cursor, further);
    }
  }

  lemma {:induction false} AscendingAreRecords(ids: seq<nat>, cursor: nat)
    requires E.Increasing(Beyond(ids, cursor))
    ensures Records(ids, cursor) == Beyond(ids, cursor)
  {
    if ids != [] {
      var all, rest := Beyond(ids, cursor), Beyond(ids[1..], cursor);
      if ids[0] > cursor {
        assert all[0] == ids[0] && rest == all[1..];
        BeyondFurther(ids[1..], cursor, ids[0]);
        AscendingAreRecords(ids[1..], ids[0]);
      } else {
        assert all == rest;
        AscendingAreRecords(ids[1..], cursor);
      }
    }
  }

  // ---- what a run of the tail sends ---------------------------------------------------

  /** The log id a step takes off the queue. */
  function HandledBy(s: Sys, step: Step): seq<nat>
    requires Enabled(s, step)
  {
    if step.TailStep? then E.IdOf(s.r.queue[0]) else []
  }

  /** The log ids a run takes off the queue, in order. */
  function Handled(s: Sys, steps: seq<Step>): seq<nat>
    requires Runs(s, steps)
    decreases |steps|
  {
    if steps == [] then [] else HandledBy(s, steps[0]) + Handled(Next(s, steps[0]), steps[1..])
  }

  predicate PastReplay(r: E.Reader) {
    r.phase.Tailing? || r.phase.Done?
  }

  /** The cursor once `id` has been handled, if there is one. */
  function Moved(cursor: nat, ids: seq<nat>): nat {
    if ids != [] && ids[0] > cursor then ids[0] else cursor
  }

  lemma RecordsJoin(a: seq<nat>, b: seq<nat>, cursor: nat)
    requires |a| <= 1
    ensures Records(a + b, cursor) == Records(a, cursor) + Records(b, Moved(cursor, a))
  {
    if a == [] {
      assert a + b == b;
    } else {
      assert (a + b)[1..] == b && a[1..] == [];
      assert Records(a[1..], Moved(cursor, a)) == [];
    }
  }

  lemma SendsARecord(r: E.Reader)
    requires r.queue != []
    ensures E.TailSends(r) == Records(E.IdOf(r.queue[0]), r.cursor)
  {
    var h := E.IdOf(r.queue[0]);
    if h != [] { assert h[1..] == [] && Records([], Moved(r.cursor, h)) == []; }
  }

  lemma TailMoves(r: E.Reader, current: Option<Status>)
    requires r.phase.Tailing? && r.queue != []
    ensures PastReplay(E.Tailed(r, current)) && E.Tailed(r, current).cursor == Moved(r.cursor, E.IdOf(r.queue[0]))
  {}

  lemma TailSendsHandled(r: E.Reader, current: Option<Status>)
    requires r.phase.Tailing? && r.queue != []
    ensures var r', h := E.Tailed(r, current), E.IdOf(r.queue[0]);
            && PastReplay(r') && r'.cursor == Moved(r.cursor, h)
            && E.LogIds(r'.frames) == E.LogIds(r.frames) + Records(h, r.cursor)
  {
    E.TailFrames(r, current);
    SendsARecord(r);
    TailMoves(r, current);
  }

  lemma StepSendsHandled(s: Sys, step: Step)
    requires PastReplay(s.r) && Enabled(s, step)
    ensures var r', h := Next(s, step).r, HandledBy(s, step);
            && PastReplay(r') && r'.cursor == Moved(s.r.cursor, h)
            && E.LogIds(r'.frames) == E.LogIds(s.r.frames) + Records(h, s.r.cursor)
  {
    if step.TailStep? {
      TailSendsHandled(s.r, step.current);
    } else {
      assert Next(s, step).r.frames == s.r.frames && Next(s, step).r.cursor == s.r.cursor;
      assert E.LogIds(s.r.frames) + [] == E.LogIds(s.r.frames);
    }
  }

  /** Past the replay, a run adds to what was sent exactly the records among the ids it handles. */
  lemma {:induction false} RunSendsRecords(s: Sys, steps: seq<Step>)
    requires PastReplay(s.r) && Runs(s, steps)
    ensures E.LogIds(After(s, steps).r.frames) == E.LogIds(s.r.frames) + Records(Handled(s, steps), s.r.cursor)
    decreases |steps|
  {
    if steps == [] {
      assert E.LogIds(s.r.frames) + [] == E.LogIds(s.r.frames);
    } else {
      var s', h := Next(s, steps[0]), HandledBy(s, steps[0]);
      var rest := Handled(s', steps[1..]);
      StepSendsHandled(s, steps[0]);
      RunSendsRecords(s', steps[1..]);
      var sent := E.LogIds(After(s', steps[1..]).r.frames);
      Joined(E.LogIds(s.r.frames), E.LogIds(s'.r.frames), sent, h, rest, s.r.cursor);
    }
  }

  lemma Joined(before: seq<nat>, mid: seq<nat>, after: seq<nat>, a: seq<nat>, b: seq<nat>, cursor: nat)
    requires |a| <= 1 && mid == before + Records(a, cursor) && after == mid + Records(b, Moved(cursor, a))
    ensures after == before + Records(a + b, cursor)
  {
    RecordsJoin(a, b, cursor);
  }

  // ---- which ids are records ------------------------------------------------------------

  predicate NoDuplicate(ids: seq<nat>) {
    forall i, j :: 0 <= i < j < |ids| ==> ids[i] != ids[j]
  }

  predicate Ascends(ids: seq<nat>, cursor: nat) {
    E.Increasing(ids) && forall i :: 0 <= i < |ids| ==> ids[i] > cursor
  }

  /** The ids a client that resumed after `after` and was sent `sent` still has to be sent. */
  function Due(ids: seq<nat>, sent: seq<nat>, after: nat): seq<nat> {
    if ids == [] then []
    else (if ids[0] > after && ids[0] !in sent then [ids[0]] else []) + Due(ids[1..], sent, after)
  }

  lemma {:induction false} DueMembers(ids: seq<nat>, sent: seq<nat>, after: nat)
    ensures forall id :: id in Due(ids, sent, after) <==> id in ids && id > after && id !in sent
  {
    if ids != [] {
      DueMembers(ids[1..], sent, after);
      assert ids == [ids[0]] + ids[1..];
    }
  }

  lemma {:induction false} BeyondMembers(ids: seq<nat>, cursor: nat)
    ensures forall id :: id in Beyond(ids, cursor) <==> id in ids && id > cursor
  {
    if ids != [] {
      BeyondMembers(ids[1..], cursor);
      assert ids == [ids[0]] + ids[1..];
    }
  }

  /** If all that is due lies beyond the cursor, it is all that lies beyond the cursor. */
  lemma {:induction false} DueIsBeyond(ids: seq<nat>, sent: seq<nat>, after: nat, cursor: nat)
    requires after <= cursor && (forall id :: id in sent ==> id <= cursor)
    requires forall id :: id in ids && id > after && id !in sent ==> id > cursor
    ensures Due(ids, sent, after) == Beyond(ids, cursor)
  {
    if ids != [] {
      assert ids[0] in ids && forall id :: id in ids[1..] ==> id in ids;
      DueIsBeyond(ids[1..], sent, after, cursor);
    }
  }

  /** Distinct ids beyond the cursor that are all records ascend. */
  lemma {:induction false} AllRecordsAscend(ids: seq<nat>, cursor: nat)
    requires NoDuplicate(ids) && forall id :: id in ids && id > cursor ==> id in Records(ids, cursor)
    ensures E.Increasing(Beyond(ids, cursor))
  {
    if ids != [] {
      var a, rest := ids[0], ids[1..];
      assert ids == [a] + rest;
      if a > cursor {
        FirstIsLeast(ids, cursor);
        AllRecordsAscend(rest, a);
        BeyondMembers(rest, cursor);
        assert forall i :: 0 <= i < |Beyond(rest, cursor)| ==> Beyond(rest, cursor)[i] in Beyond(rest, cursor);
        BeyondFurther(rest, cursor, a);
        BeyondMembers(rest, a);
        FrontIncreasing(a, Beyond(rest, a));
      } else {
        assert Records(ids, cursor) == Records(rest, cursor) && forall id :: id in rest ==> id in ids;
        AllRecordsAscend(rest, cursor);
      }
    }
  }

  lemma FirstIsLeast(ids: seq<nat>, cursor: nat)
    requires ids != [] && ids[0] > cursor && NoDuplicate(ids)
    requires forall id :: id in ids && id > cursor ==> id in Records(ids, cursor)
    ensures forall id :: id in ids[1..] && id > cursor ==> id > ids[0] && id in Records(ids[1..], ids[0])
  {
    var a, rest := ids[0], ids[1..];
    RecordsIncrease(rest, a);
    forall id | id in rest && id > cursor ensures id > a && id in Records(rest, a) {
      var i :| 0 <= i < |rest| && rest[i] == id;
      assert ids[i + 1] == id != ids[0];
      assert id in Records(ids, cursor);
    }
  }

  lemma FrontIncreasing(a: nat, ids: seq<nat>)
    requires E.Increasing(ids) && forall id :: id in ids ==> id > a
    ensures E.Increasing([a] + ids)
  {
    var all := [a] + ids;
    forall i, j | 0 <= i < j < |all| ensures all[i] < all[j] {
      assert all[j] == ids[j - 1] && ids[j - 1] in ids;
      if i > 0 { assert all[i] == ids[i - 1]; }
    }
  }

  /**
   Of distinct ids handled from a cursor on, all that were asked for have been
   sent exactly when the due ones ascend from it.
   */
  lemma AllSentIffAscending(ids: seq<nat>, sent: seq<nat>, after: nat, cursor: nat)
    requires NoDuplicate(ids) && after <= cursor && forall id :: id in sent ==> id <= cursor
    ensures (forall id :: id in ids && id > after ==> id in sent + Records(ids, cursor)) <==>
            Ascends(Due(ids, sent, after), cursor)
  {
    var due, all := Due(ids, sent, after), sent + Records(ids, cursor);
    DueMembers(ids, sent, after);
    RecordsIncrease(ids, cursor);
    BeyondMembers(ids, cursor);
    if forall id :: id in ids && id > after ==> id in all {
      forall id | id in ids && id > after && id !in sent ensures id > cursor {
        assert id in all;
      }
      DueIsBeyond(ids, sent, after, cursor);
      forall id | id in ids && id > cursor ensures id in Records(ids, cursor) {
        assert id in all;
      }
      AllRecordsAscend(ids, cursor);
      assert forall i :: 0 <= i < |due| ==> due[i] in due;
    }
    if Ascends(due, cursor) {
      DueIsBeyond(ids, sent, after, cursor);
      AscendingAreRecords(ids, cursor);
    }
  }

  /** Whatever the notices: the run sends every id it handles, and was asked for, exactly when the due ones ascend. */
  lemma HandledAreSentIffAscending(s: Sys, steps: seq<Step>)
    requires Runs(s, steps) && PastReplay(s.r) && E.ReaderOk(s.r) && NoDuplicate(Handled(s, steps))
    ensures var ids, sent := Handled(s, steps), E.LogIds(After(s, steps).r.frames);
            (forall id :: id in ids && id > s.r.after ==> id in sent) <==>
            Ascends(Due(ids, E.LogIds(s.r.frames), s.r.after), s.r.cursor)
  {
    var before := E.LogIds(s.r.frames);
    RunSendsRecords(s, steps);
    assert forall id :: id in before ==> s.r.after < id <= s.r.cursor;
    AllSentIffAscending(Handled(s, steps), before, s.r.after, s.r.cursor);
  }

  // ---- one queue at one moment ---------------------------------------------------------

  /** Nothing in the queue speaks of the job's status. */
  predicate Quiet(queue: seq<E.Msg>) {
    forall i :: 0 <= i < |queue| ==> !queue[i].StatusMsg?
  }

  /** The reader once its tail loop has emptied the queue. */
  function Drained(r: E.Reader): E.Reader
    requires r.phase.Tailing? && Quiet(r.queue)
    decreases |r.queue|
  {
    if r.queue == [] then r else Drained(E.Tailed(r, None))
  }

  lemma {:induction false} DrainSendsRecords(r: E.Reader)
    requires r.phase.Tailing? && Quiet(r.queue)
    ensures E.LogIds(Drained(r).frames) == E.LogIds(r.frames) + Records(E.Ids(r.queue), r.cursor)
    decreases |r.queue|
  {
    if r.queue == [] {
      assert E.LogIds(r.frames) + [] == E.LogIds(r.frames);
    } else {
      var r' := E.Tailed(r, None);
      TailSendsHandled(r, None);
      DrainSendsRecords(r');
      var sent := E.LogIds(Drained(r').frames);
      Joined(E.LogIds(r.frames), E.LogIds(r'.frames), sent, E.IdOf(r.queue[0]), E.Ids(r'.queue), r.cursor);
    }
  }

  /** Emptying a queue sends every log notice beyond the cursor exactly when those notices ascend. */
  lemma DrainSendsAllIffAscending(r: E.Reader)
    requires r.phase.Tailing? && Quiet(r.queue)
    ensures E.LogIds(Drained(r).frames) == E.LogIds(r.frames) + Beyond(E.Ids(r.queue), r.cursor) <==>
            E.Increasing(Beyond(E.Ids(r.queue), r.cursor))
  {
    var ids, sent := E.Ids(r.queue), E.LogIds(r.frames);
    var x, y := sent + Records(ids, r.cursor), sent + Beyond(ids, r.cursor);
    DrainSendsRecords(r);
    RecordsIncrease(ids, r.cursor);
    assert x[|sent|..] == Records(ids, r.cursor) && y[|sent|..] == Beyond(ids, r.cursor);
    if E.Increasing(Beyond(ids, r.cursor)) { AscendingAreRecords(ids, r.cursor); }
  }

  // ---- nothing is forgotten on the way ---------------------------------------------------

  /** No notice claims a row that was not inserted, and none arrives at a full queue. */
  predicate Plain(s: Sys, step: Step) {
    && (step.Say? ==> !step.msg.LogMsg?)
    && (step.Receive? ==> |s.r.queue| < E.QUEUE_MAX)
  }

  predicate PlainRun(s: Sys, steps: seq<Step>)
    decreases |steps|
  {
    steps == [] || (Enabled(s, steps[0]) && Plain(s, steps[0]) && PlainRun(Next(s, steps[0]), steps[1..]))
  }

  lemma {:induction false} PlainRunRuns(s: Sys, steps: seq<Step>)
    requires PlainRun(s, steps)
    ensures Runs(s, steps)
    decreases |steps|
  {
    if steps != [] { PlainRunRuns(Next(s, steps[0]), steps[1..]); }
  }

  /** The log ids handled so far, queued, and on the wire. */
  function Pipe(s: Sys, handled: seq<nat>): seq<nat> {
    handled + (E.Ids(s.r.queue) + E.Ids(s.wire))
  }

  /** Each row is announced at most once, after it was inserted. */
  predicate PipeOk(log: set<nat>, unsent: set<nat>, pipe: seq<nat>) {
    NoDuplicate(pipe) && unsent <= log && forall id :: id in pipe ==> id in log && id !in unsent
  }

  /** Once the log has been read, every row asked for is sent, about to be, announced, or about to be announced. */
  predicate Covered(s: Sys, pipe: seq<nat>) {
    E.HasReadLog(s.r) ==>
      forall id :: id in s.log && id > s.r.after ==>
        id in E.LogIds(s.r.frames) || id in s.unsent || id in pipe || (s.r.phase.Replaying? && id in s.r.phase.entries)
  }

  predicate Unread(r: E.Reader) {
    r.phase.Idle? || r.phase.Listening? || r.phase.StatusSeen? ==> r.cursor == r.after
  }

  predicate Inv(s: Sys, handled: seq<nat>) {
    && E.ReaderOk(s.r) && NotYet(s)
    && PipeOk(s.log, s.unsent, Pipe(s, handled)) && Covered(s, Pipe(s, handled))
  }

  lemma PipeMoves(s: Sys, step: Step, handled: seq<nat>)
    requires Enabled(s, step) && Plain(s, step)
    ensures Pipe(Next(s, step), handled + HandledBy(s, step)) ==
            if step.Publish? && E.IsListening(s.r) then Pipe(s, handled) + [step.id] else Pipe(s, handled)
  {
    var s' := Next(s, step);
    assert handled + [] == handled;
    match step
    case Publish(id) => WireGrows(s, handled, E.LogMsg(id));
    case Say(msg) => WireGrows(s, handled, msg);
    case Receive => E.IdsMove(s.r.queue, s.wire);
    case TailStep(_) =>
      assert E.Ids(s.r.queue) == E.IdOf(s.r.queue[0]) + E.Ids(s.r.queue[1..]);
      assert s'.r.queue == s.r.queue[1..];
    case _ =>
  }

  lemma WireGrows(s: Sys, handled: seq<nat>, msg: E.Msg)
    ensures handled + (E.Ids(s.r.queue) + E.Ids(s.wire + [msg])) == Pipe(s, handled) + E.IdOf(msg)
  {
    E.IdsAppend(s.wire, [msg]);
    E.IdsOne(msg);
  }

  lemma PipeStaysOk(s: Sys, step: Step, handled: seq<nat>)
    requires Enabled(s, step) && Plain(s, step) && PipeOk(s.log, s.unsent, Pipe(s, handled))
    ensures var s' := Next(s, step); PipeOk(s'.log, s'.unsent, Pipe(s', handled + HandledBy(s, step)))
  {
    PipeMoves(s, step, handled);
  }

  lemma FramesGrow(s: Sys, step: Step)
    requires Enabled(s, step) && E.HasReadLog(s.r)
    ensures forall id :: id in E.LogIds(s.r.frames) ==> id in E.LogIds(Next(s, step).r.frames)
  {
    match step
    case ReplayStep => E.ReplayFrames(s.r);
    case TailStep(current) => E.TailFrames(s.r, current);
    case _ =>
  }

  lemma ReplayCovers(s: Sys, pipe: seq<nat>)
    requires Enabled(s, ReplayStep) && Covered(s, pipe)
    ensures Covered(Next(s, ReplayStep), pipe)
  {
    E.ReplayFrames(s.r);
    var entries := s.r.phase.entries;
    if entries != [] { assert entries == [entries[0]] + entries[1..]; }
  }

  lemma ReadCovers(s: Sys, entries: seq<nat>, pipe: seq<nat>)
    requires Enabled(s, ReadLog(entries)) && Unread(s.r)
    ensures Covered(Next(s, ReadLog(entries)), pipe)
  {}

  lemma StaysCovered(s: Sys, step: Step, handled: seq<nat>)
    requires Enabled(s, step) && Plain(s, step) && Inv(s, handled)
    ensures Covered(Next(s, step), Pipe(Next(s, step), handled + HandledBy(s, step)))
  {
    PipeMoves(s, step, handled);
    match step
    case ReadLog(entries) => ReadCovers(s, entries, Pipe(s, handled));
    case ReplayStep => ReplayCovers(s, Pipe(s, handled));
    case TailStep(current) => FramesGrow(s, step); TailKeepsAfter(s.r, current);
    case _ =>
  }

  predicate NotYet(s: Sys) {
    Unread(s.r) && (s.r.phase.Idle? ==> s.wire == [] && s.r.queue == [])
  }

  lemma StaysUnread(s: Sys, step: Step)
    requires Enabled(s, step) && NotYet(s)
    ensures NotYet(Next(s, step))
  {
    match step
    case ReplayStep => assert PastListening(E.Replayed(s.r));
    case TailStep(current) => assert PastListening(E.Tailed(s.r, current));
    case _ =>
  }

  predicate PastListening(r: E.Reader) {
    r.phase.Replaying? || PastReplay(r)
  }

  lemma InvFrom(s: Sys, handled: seq<nat>, pipe: seq<nat>)
    requires pipe == Pipe(s, handled) && E.ReaderOk(s.r) && NotYet(s)
    requires PipeOk(s.log, s.unsent, pipe) && Covered(s, pipe)
    ensures Inv(s, handled)
  {}

  lemma StepKeepsInv(s: Sys, step: Step, handled: seq<nat>)
    requires Enabled(s, step) && Plain(s, step) && Inv(s, handled)
    ensures Inv(Next(s, step), handled + HandledBy(s, step))
  {
    StepKeepsOrder(s, step);
    StaysUnread(s, step);
    PipeStaysOk(s, step, handled);
    StaysCovered(s, step, handled);
    var s', h := Next(s, step), handled + HandledBy(s, step);
    InvFrom(s', h, Pipe(s', h));
  }

  lemma {:induction false} RunKeepsInv(s: Sys, steps: seq<Step>, handled: seq<nat>)
    requires PlainRun(s, steps) && Inv(s, handled)
    ensures Runs(s, steps) && Inv(After(s, steps), handled + Handled(s, steps))
    decreases |steps|
  {
    PlainRunRuns(s, steps);
    if steps == [] {
      assert handled + [] == handled;
    } else {
      var s', h := Next(s, steps[0]), HandledBy(s, steps[0]);
      StepKeepsInv(s, steps[0], handled);
      RunKeepsInv(s', steps[1..], handled + h);
      Regroup(handled, h, Handled(s', steps[1..]));
    }
  }

  lemma Regroup(a: seq<nat>, b: seq<nat>, c: seq<nat>)
    ensures a + b + c == a + (b + c)
  {}

  // ---- nothing is missed -------------------------------------------------------------------

  /** Every row has been announced, and the tail has handled every notice. */
  predicate AllHeard(s: Sys) {
    s.r.phase.Tailing? && s.unsent == {} && s.wire == [] && s.r.queue == []
  }

  /** What the tail handled from `t` on, less what had been sent by then, ascended from the cursor as it was. */
  predicate HandledAscending(t: Sys, steps: seq<Step>)
    requires Runs(t, steps)
  {
    Ascends(Due(Handled(t, steps), E.LogIds(t.r.frames), t.r.after), t.r.cursor)
  }

  /** The client has been sent every row it asked for. */
  predicate HasAll(s: Sys) {
    forall id :: id in s.log && id > s.r.after ==> id in E.LogIds(s.r.frames)
  }

  lemma AllHeardFacts(s: Sys, handled: seq<nat>)
    requires Inv(s, handled) && AllHeard(s)
    ensures NoDuplicate(handled)
    ensures HasAll(s) <==> forall id :: id in handled && id > s.r.after ==> id in E.LogIds(s.r.frames)
  {
    assert Pipe(s, handled) == handled;
  }

  lemma AfterPipe(t: Sys, steps: seq<Step>)
    requires Inv(t, []) && PlainRun(t, steps)
    ensures Runs(t, steps) && Inv(After(t, steps), Handled(t, steps)) && After(t, steps).r.after == t.r.after
  {
    RunKeepsInv(t, steps, []);
    RunKeepsOrder(t, steps);
    assert [] + Handled(t, steps) == Handled(t, steps);
  }

  lemma HeardFromTail(t: Sys, steps: seq<Step>)
    requires Inv(t, []) && t.r.phase.Tailing? && PlainRun(t, steps)
    ensures Runs(t, steps)
    ensures AllHeard(After(t, steps)) ==>
              (HasAll(After(t, steps)) <==> HandledAscending(t, steps))
  {
    AfterPipe(t, steps);
    if AllHeard(After(t, steps)) {
      AllHeardFacts(After(t, steps), Handled(t, steps));
      HandledAreSentIffAscending(t, steps);
    }
  }

  /** A run that ends where the tail begins: it has handled nothing yet. */
  predicate OpensTail(start: Sys, opening: seq<Step>) {
    PlainRun(start, opening) && Runs(start, opening)
    && After(start, opening).r.phase.Tailing? && Handled(start, opening) == []
  }

  /**
   In every run of any number of writers whose queue never overflows: once all
   is heard, the client has every row after `after` exactly when the notices
   handled by the tail, less those of rows already replayed, ascended from
   where the replay ended.
   */
  lemma NothingMissedIffAscending(
      log: set<nat>, unsent: set<nat>, after: nat, opening: seq<Step>, steps: seq<Step>)
    requires unsent <= log && OpensTail(Start(log, unsent, after), opening)
    requires PlainRun(After(Start(log, unsent, after), opening), steps)
    ensures var t := After(Start(log, unsent, after), opening);
            && Runs(t, steps) && t.r.after == after
            && (AllHeard(After(t, steps)) ==> (HasAll(After(t, steps)) <==> HandledAscending(t, steps)))
  {
    var start := Start(log, unsent, after);
    assert Inv(start, []);
    RunKeepsInv(start, opening, []);
    RunKeepsOrder(start, opening);
    assert [] + Handled(start, opening) == [];
    HeardFromTail(After(start, opening), steps);
  }

  // ---- two writers whose notices cross ---------------------------------------------------

  lemma StepThen(s: Sys, step: Step, rest: seq<Step>)
    requires Enabled(s, step) && Plain(s, step) && PlainRun(Next(s, step), rest) && Runs(Next(s, step), rest)
    ensures PlainRun(s, [step] + rest) && Runs(s, [step] + rest)
    ensures After(s, [step] + rest) == After(Next(s, step), rest)
    ensures Handled(s, [step] + rest) == HandledBy(s, step) + Handled(Next(s, step), rest)
  {
    assert ([step] + rest)[1..] == rest;
  }

  const OPENING := [Listen, ReadStatus(Some(Running)), ReadLog([]), ReplayStep]

  function TailOnNothing(after: nat): Sys {
    Sys({}, {}, [], E.Reader(after, after, E.Tailing, [], [E.StatusFrame(Running)]))
  }

  lemma OpensOnNothing(after: nat)
    ensures OpensTail(Start({}, {}, after), OPENING) && After(Start({}, {}, after), OPENING) == TailOnNothing(after)
  {
    var s0 := Start({}, {}, after);
    var s1 := Next(s0, Listen);
    var s2 := Next(s1, ReadStatus(Some(Running)));
    var s3 := Next(s2, ReadLog([]));
    StepThen(s3, ReplayStep, []);
    StepThen(s2, ReadLog([]), [ReplayStep]);
    StepThen(s1, ReadStatus(Some(Running)), [ReadLog([]), ReplayStep]);
    StepThen(s0, Listen, [ReadStatus(Some(Running)), ReadLog([]), ReplayStep]);
  }

  /** A notice is published, heard and handled. */
  function Hearing(id: nat): seq<Step> {
    [Publish(id), Receive, TailStep(Some(Running))]
  }

  lemma Hears(s: Sys, id: nat, rest: seq<Step>)
    requires id in s.unsent && s.wire == [] && s.r.phase.Tailing? && s.r.queue == []
    requires var s' := s.(unsent := s.unsent - {id}, r := E.Tailed(s.r.(queue := [E.LogMsg(id)]), Some(Running)));
             PlainRun(s', rest) && Runs(s', rest)
    ensures PlainRun(s, Hearing(id) + rest) && Runs(s, Hearing(id) + rest)
    ensures var s' := s.(unsent := s.unsent - {id}, r := E.Tailed(s.r.(queue := [E.LogMsg(id)]), Some(Running)));
            After(s, Hearing(id) + rest) == After(s', rest)
  {
    var s1 := Next(s, Publish(id));
    var s2 := Next(s1, Receive);
    assert s1.wire == [E.LogMsg(id)] && s2.wire == [] && s2.r.queue == [E.LogMsg(id)];
    StepThen(s2, TailStep(Some(Running)), rest);
    StepThen(s1, Receive, [TailStep(Some(Running))] + rest);
    StepThen(s, Publish(id), [Receive] + ([TailStep(Some(Running))] + rest));
    assert [Publish(id)] + ([Receive] + ([TailStep(Some(Running))] + rest)) == Hearing(id) + rest;
  }

  /** Two rows inserted in order are announced the other way round, each heard before the next is announced. */
  function Crossing(a: nat, b: nat): seq<Step> {
    [Insert(a)] + ([Insert(b)] + (Hearing(b) + (Hearing(a) + [])))
  }

  lemma TailedOne(r: E.Reader, id: nat)
    requires r.phase.Tailing? && r.queue == [E.LogMsg(id)]
    ensures E.Tailed(r, Some(Running)) == if id <= r.cursor then r.(queue := []) else E.SentLog(r.(queue := []), id)
  {
    assert r.queue[1..] == [];
  }

  /** All is heard, no queue ever held two notices, and the first of the two rows is never sent. */
  lemma CrossedNoticesLeaveAGap(after: nat, a: nat, b: nat)
    requires after < a < b
    ensures OpensTail(Start({}, {}, after), OPENING)
    ensures var t := After(Start({}, {}, after), OPENING);
            && PlainRun(t, Crossing(a, b)) && Runs(t, Crossing(a, b))
            && var s := After(t, Crossing(a, b));
            AllHeard(s) && s.log == {a, b} && E.LogIds(s.r.frames) == [b] && !HasAll(s)
  {
    OpensOnNothing(after);
    var t := TailOnNothing(after);
    var t1 := Next(t, Insert(a));
    var t2 := Next(t1, Insert(b));
    TailedOne(t2.r.(queue := [E.LogMsg(b)]), b);
    var t3 := t2.(unsent := {a}, r := E.SentLog(t2.r, b));
    assert t2.unsent - {b} == {a} && t2.log == {a, b};
    TailedOne(t3.r.(queue := [E.LogMsg(a)]), a);
    var t4 := t3.(unsent := {});
    assert t3.unsent - {a} == {};
    Hears(t3, a, []);
    Hears(t2, b, Hearing(a) + []);
    StepThen(t1, Insert(b), Hearing(b) + (Hearing(a) + []));
    StepThen(t, Insert(a), [Insert(b)] + (Hearing(b) + (Hearing(a) + [])));
    E.LogIdsAppend(t2.r.frames, E.LogFrame(b));
    assert E.LogIds(t4.r.frames) == [b];
    assert a in t4.log && a !in E.LogIds(t4.r.frames);
  }
}
