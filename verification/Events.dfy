/**
 `events.py`: one reader of a job's event stream. It listens before it reads,
 replays the stored log, then tails a bounded queue of notifications, using
 the last log id as a cursor to skip what it already sent.
 */
module Events {
  import opened Common
  import opened Jobs

  const QUEUE_MAX := 1000

  /** A notification about this job. */
  datatype Msg = LogMsg(id: nat) | ProgressMsg | StatusMsg

  datatype Frame = LogFrame(id: nat) | ProgressFrame | StatusFrame(status: Status)

  datatype Phase =
    | Idle
    | Listening
    | StatusSeen(terminal: bool)
    | Replaying(entries: seq<nat>, terminal: bool)
    | Tailing
    | Done

  datatype Reader = Reader(after: nat, cursor: nat, phase: Phase, queue: seq<Msg>, frames: seq<Frame>)

  /** The ids of the log frames a client has been sent. */
  function LogIds(frames: seq<Frame>): seq<nat> {
    if frames == [] then []
    else LogIds(frames[..|frames| - 1]) + match frames[|frames| - 1] case LogFrame(id) => [id] case _ => []
  }

  // ---- what the reader does ---------------------------------------------------

  function Opened(after: nat): Reader {
    Reader(after, after, Idle, [], [])
  }

  /** `on_notify`: a full queue loses its oldest entry. */
  function Enqueued(queue: seq<Msg>, msg: Msg): seq<Msg> {
    (if |queue| == QUEUE_MAX then queue[1..] else queue) + [msg]
  }

  function SentStatus(r: Reader, status: Status): Reader {
    r.(frames := r.frames + [StatusFrame(status)])
  }

  function SentLog(r: Reader, id: nat): Reader {
    r.(cursor := id, frames := r.frames + [LogFrame(id)])
  }

  /** The first read of the job's row. */
  function SawStatus(r: Reader, status: Option<Status>): Reader {
    if status.None? then r.(phase := Done)
    else SentStatus(r, status.value).(phase := StatusSeen(Terminal(status.value)))
  }

  /** One entry of the replay, or its end. */
  function Replayed(r: Reader): Reader
    requires r.phase.Replaying?
  {
    if r.phase.entries == [] then r.(phase := if r.phase.terminal then Done else Tailing)
    else SentLog(r, r.phase.entries[0]).(phase := r.phase.(entries := r.phase.entries[1..]))
  }

  /** One message of the tail; a status message makes the reader look at the row as it is now. */
  function Tailed(r: Reader, current: Option<Status>): Reader
    requires r.queue != []
  {
    var r' := r.(queue := r.queue[1..]);
    match r.queue[0]
    case LogMsg(id) => if id <= r.cursor then r' else SentLog(r', id)
    case ProgressMsg => r'.(frames := r'.frames + [ProgressFrame])
    case StatusMsg =>
      if current.None? then r'.(phase := Done)
      else if Terminal(current.value) then SentStatus(r', current.value).(phase := Done)
      else SentStatus(r', current.value)
  }

  // ---- the generator's own state, updated in place ---------------------------------

  class EventStream {
    var queue: seq<Msg>
    var cursor: nat
    var frames: seq<Frame>

    constructor (after: nat)
      ensures queue == [] && cursor == after && frames == []
    {
      queue, cursor, frames := [], after, [];
    }

    /** `mine` says whether the payload parsed and was about this job. */
    method OnNotify(mine: bool, msg: Msg)
      modifies this`queue
      ensures queue == if mine then Enqueued(old(queue), msg) else old(queue)
      ensures mine && |old(queue)| < 1000 ==> queue == old(queue) + [msg]
      ensures mine && |old(queue)| == 1000 ==> queue == old(queue)[1..] + [msg]
      ensures |old(queue)| <= QUEUE_MAX ==> |queue| <= QUEUE_MAX
    {
      if !mine { return; }
      if |queue| == QUEUE_MAX { queue := queue[1..]; }
      queue := queue + [msg];
    }

    /** The replay loop over the rows read from the log. */
    method Replay(entries: seq<nat>)
      modifies this`cursor, this`frames
      ensures frames == old(frames) + seq(|entries|, i requires 0 <= i < |entries| => LogFrame(entries[i]))
      ensures cursor == if entries == [] then old(cursor) else entries[|entries| - 1]
    {
      for k := 0 to |entries|
        invariant frames == old(frames) + seq(k, i requires 0 <= i < k => LogFrame(entries[i]))
        invariant cursor == if k == 0 then old(cursor) else entries[k - 1]
      {
        cursor := entries[k];
        frames := frames + [LogFrame(entries[k])];
      }
    }

    /** One turn of the tail loop. */
    method Tail(current: Option<Status>) returns (done: bool)
      requires queue != []
      modifies this
      ensures var r := Tailed(Reader(0, old(cursor), Tailing, old(queue), old(frames)), current);
              queue == r.queue && cursor == r.cursor && frames == r.frames && done == r.phase.Done?
      ensures queue == old(queue)[1..]
      ensures match old(queue)[0]
              case LogMsg(id) =>
                && !done && (id <= old(cursor) ==> cursor == old(cursor) && frames == old(frames))
                && (id > old(cursor) ==> cursor == id && frames == old(frames) + [LogFrame(id)])
              case ProgressMsg => !done && cursor == old(cursor) && frames == old(frames) + [ProgressFrame]
              case StatusMsg =>
                && cursor == old(cursor) && (current.None? ==> done && frames == old(frames))
                && (current.Some? ==>
                      && frames == old(frames) + [StatusFrame(current.value)]
                      && (done <==> current.value in {Complete, Failed, Cancelled}))
    {
      var body := queue[0];
      queue := queue[1..];
      done := false;
      match body
      case LogMsg(id) =>
        if id > cursor {
          cursor := id;
          frames := frames + [LogFrame(id)];
        }
      case ProgressMsg => frames := frames + [ProgressFrame];
      case StatusMsg =>
        if current.None? { return true; }
        frames := frames + [StatusFrame(current.value)];
        return Terminal(current.value);
    }
  }

  /**
   Before the tail: the row's status is sent first, a finished job's log is
   replayed and no more, a missing job ends it.
   */
  lemma OpeningMoves(r: Reader, status: Option<Status>)
    ensures status.None? ==> SawStatus(r, status) == r.(phase := Done)
    ensures status.Some? ==>
              SawStatus(r, status) ==
              r.(frames := r.frames + [StatusFrame(status.value)],
                 phase := StatusSeen(status.value in {Complete, Failed, Cancelled}))
    ensures r.phase.Replaying? && r.phase.entries == [] ==>
              Replayed(r) == r.(phase := if r.phase.terminal then Done else Tailing)
    ensures r.phase.Replaying? && r.phase.entries != [] ==>
              Replayed(r) ==
              r.(cursor := r.phase.entries[0], frames := r.frames + [LogFrame(r.phase.entries[0])],
                 phase := Replaying(r.phase.entries[1..], r.phase.terminal))
  {}

  // ---- the reader alone never repeats or reorders -----------------------------------

  predicate Increasing(ids: seq<nat>) {
    forall i, j :: 0 <= i < j < |ids| ==> ids[i] < ids[j]
  }

  /** `ids` sent so far increase from `after` to the cursor, and what is left to replay lies beyond. */
  predicate OrderedWith(r: Reader, ids: seq<nat>) {
    && Increasing(ids)
    && (forall i :: 0 <= i < |ids| ==> r.after < ids[i] <= r.cursor)
    && r.cursor == (if ids == [] then r.after else ids[|ids| - 1])
    && (r.phase.Replaying? ==>
          Increasing(r.phase.entries) && forall i :: 0 <= i < |r.phase.entries| ==> r.cursor < r.phase.entries[i])
  }

  predicate ReaderOk(r: Reader) {
    OrderedWith(r, LogIds(r.frames))
  }

  lemma LogIdsAppend(frames: seq<Frame>, f: Frame)
    ensures LogIds(frames + [f]) == LogIds(frames) + match f case LogFrame(id) => [id] case _ => []
  {
    assert (frames + [f])[..|frames|] == frames;
  }

  /** The log id a tail turn sends, if any. */
  function TailSends(r: Reader): seq<nat>
    requires r.queue != []
  {
    match r.queue[0]
    case LogMsg(id) => if id > r.cursor then [id] else []
    case _ => []
  }

  function ReplaySends(r: Reader): seq<nat>
    requires r.phase.Replaying?
  {
    if r.phase.entries == [] then [] else [r.phase.entries[0]]
  }

  lemma ReplayFrames(r: Reader)
    requires r.phase.Replaying?
    ensures LogIds(Replayed(r).frames) == LogIds(r.frames) + ReplaySends(r)
  {
    if r.phase.entries != [] { LogIdsAppend(r.frames, LogFrame(r.phase.entries[0])); }
  }

  lemma TailFrames(r: Reader, current: Option<Status>)
    requires r.queue != []
    ensures LogIds(Tailed(r, current).frames) == LogIds(r.frames) + TailSends(r)
  {
    match r.queue[0]
    case LogMsg(id) => LogIdsAppend(r.frames, LogFrame(id));
    case ProgressMsg => LogIdsAppend(r.frames, ProgressFrame);
    case StatusMsg => if current.Some? { LogIdsAppend(r.frames, StatusFrame(current.value)); }
  }

  lemma OrderedSend(r: Reader, id: nat, ids: seq<nat>)
    requires OrderedWith(r, ids) && r.cursor < id
    ensures Increasing(ids + [id])
    ensures forall i :: 0 <= i < |ids + [id]| ==> r.after < (ids + [id])[i] <= id
  {
    forall i | 0 <= i < |ids + [id]| ensures r.after < (ids + [id])[i] <= id {
      if i < |ids| { assert (ids + [id])[i] == ids[i]; }
    }
  }

  lemma ReplayOrdered(r: Reader, ids: seq<nat>)
    requires OrderedWith(r, ids) && r.phase.Replaying?
    ensures OrderedWith(Replayed(r), ids + ReplaySends(r))
  {
    if r.phase.entries != [] {
      OrderedSend(r, r.phase.entries[0], ids);
    } else {
      assert ids + [] == ids;
    }
  }

  lemma TailOrdered(r: Reader, current: Option<Status>, ids: seq<nat>)
    requires OrderedWith(r, ids) && r.phase.Tailing? && r.queue != []
    ensures OrderedWith(Tailed(r, current), ids + TailSends(r))
  {
    if TailSends(r) == [] {
      assert ids + [] == ids;
      assert Tailed(r, current).cursor == r.cursor;
    } else {
      OrderedSend(r, r.queue[0].id, ids);
      assert Tailed(r, current).cursor == r.queue[0].id;
    }
  }

  /** Any messages in any order, from any number of writers: the ids sent still strictly increase. */
  lemma ReaderKeepsOrder(r: Reader, current: Option<Status>)
    requires ReaderOk(r)
    ensures r.phase.Replaying? ==> ReaderOk(Replayed(r))
    ensures r.phase.Tailing? && r.queue != [] ==> ReaderOk(Tailed(r, current))
  {
    if r.phase.Replaying? {
      ReplayFrames(r);
      ReplayOrdered(r, LogIds(r.frames));
    }
    if r.phase.Tailing? && r.queue != [] {
      TailFrames(r, current);
      TailOrdered(r, current, LogIds(r.frames));
    }
  }

  // ---- a serial writer and one reader -------------------------------------------------

  /**
   `log` holds the job's ids in order of insertion, `unsent` the id inserted
   whose notice is not yet published, `wire` the notices published since the
   reader began to listen and not yet handed to it. `lost` is bookkeeping: log
   ids an overflow dropped that the reader had not read from the log.
   */
  datatype Sys =
    Sys(log: seq<nat>, unsent: Option<nat>, status: Option<Status>, wire: seq<Msg>, r: Reader, lost: set<nat>)

  datatype Step =
    | Insert(id: nat)                 // any later id: other jobs draw from the same sequence
    | Publish                         // the notice of the row just inserted
    | Announce(msg: Msg)              // progress or status
    | ChangeStatus(status: Status)
    | Listen
    | ReadStatus
    | ReadLog
    | Receive                         // the listener is called
    | ReplayStep
    | TailStep
    | HangUp                          // the client goes away

  predicate IsListening(r: Reader) {
    !r.phase.Idle? && !r.phase.Done?
  }

  predicate HasReadLog(r: Reader) {
    r.phase.Replaying? || r.phase.Tailing?
  }

  predicate Enabled(s: Sys, step: Step) {
    match step
    case Insert(id) => s.unsent.None? && forall i :: 0 <= i < |s.log| ==> s.log[i] < id
    case Publish => s.unsent.Some?
    case Announce(msg) => !msg.LogMsg?
    case ChangeStatus(_) => true
    case Listen => s.r.phase.Idle?
    case ReadStatus => s.r.phase.Listening?
    case ReadLog => s.r.phase.StatusSeen?
    case Receive => s.wire != [] && IsListening(s.r)
    case ReplayStep => s.r.phase.Replaying?
    case TailStep => s.r.phase.Tailing? && s.r.queue != []
    case HangUp => IsListening(s.r)
  }

  /** `SELECT id ... WHERE id > after ORDER BY id` on a log inserted in order. */
  function IdsAfter(log: seq<nat>, after: nat): seq<nat> {
    if log == [] then []
    else IdsAfter(log[..|log| - 1], after) + if log[|log| - 1] > after then [log[|log| - 1]] else []
  }

  /** Every id up to here has been sent, is about to be replayed, or was not asked for. */
  function Horizon(r: Reader): nat {
    if r.phase.Replaying? && r.phase.entries != [] then r.phase.entries[|r.phase.entries| - 1] else r.cursor
  }

  /** What handing `msg` to a full queue costs the reader for good. */
  function NewlyLost(r: Reader): set<nat> {
    if |r.queue| == QUEUE_MAX && HasReadLog(r) && r.queue[0].LogMsg? && r.queue[0].id > Horizon(r)
    then {r.queue[0].id}
    else {}
  }

  function Next(s: Sys, step: Step): Sys
    requires Enabled(s, step)
  {
    match step
    case Insert(id) => s.(log := s.log + [id], unsent := Some(id))
    case Publish => s.(unsent := None, wire := if IsListening(s.r) then s.wire + [LogMsg(s.unsent.value)] else s.wire)
    case Announce(msg) => s.(wire := if IsListening(s.r) then s.wire + [msg] else s.wire)
    case ChangeStatus(status) => s.(status := Some(status))
    case Listen => s.(r := s.r.(phase := Listening))
    case ReadStatus => s.(r := SawStatus(s.r, s.status))
    case ReadLog => s.(r := s.r.(phase := Replaying(IdsAfter(s.log, s.r.cursor), s.r.phase.terminal)))
    case Receive =>
      s.(wire := s.wire[1..], r := s.r.(queue := Enqueued(s.r.queue, s.wire[0])), lost := s.lost + NewlyLost(s.r))
    case ReplayStep => s.(r := Replayed(s.r))
    case TailStep => s.(r := Tailed(s.r, s.status))
    case HangUp => s.(r := s.r.(phase := Done))
  }

  // ---- sequences of ids --------------------------------------------------------------

  /** The ids of the log in `(after, upTo]`, in order, without those in `lost`. */
  function Between(log: seq<nat>, after: nat, upTo: nat, lost: set<nat>): seq<nat> {
    if log == [] then []
    else
      var id := log[|log| - 1];
      Between(log[..|log| - 1], after, upTo, lost) + if after < id <= upTo && id !in lost then [id] else []
  }

  /** The log messages of a queue. */
  function Ids(queue: seq<Msg>): seq<nat> {
    if queue == [] then [] else IdOf(queue[0]) + Ids(queue[1..])
  }

  function IdOf(msg: Msg): seq<nat> {
    match msg
    case LogMsg(id) => [id]
    case _ => []
  }

  function Waiting(s: Sys): seq<nat> {
    Ids(s.r.queue) + Ids(s.wire) + if s.unsent.Some? then [s.unsent.value] else []
  }

  lemma {:induction false} IdsAppend(a: seq<Msg>, b: seq<Msg>)
    ensures Ids(a + b) == Ids(a) + Ids(b)
  {
    if a == [] {
      assert a + b == b;
    } else {
      assert (a + b)[0] == a[0] && (a + b)[1..] == a[1..] + b;
      IdsAppend(a[1..], b);
      assert Ids(a + b) == IdOf(a[0]) + (Ids(a[1..]) + Ids(b));
    }
  }

  lemma IncreasingAppend(ids: seq<nat>, id: nat)
    requires Increasing(ids) && forall i :: i in ids ==> i < id
    ensures Increasing(ids + [id])
  {
    assert forall i :: 0 <= i < |ids| ==> ids[i] in ids;
  }

  lemma IncreasingFront(ids: seq<nat>, id: nat)
    requires Increasing(ids + [id])
    ensures Increasing(ids)
  {
    assert forall i :: 0 <= i < |ids| ==> (ids + [id])[i] == ids[i];
  }

  lemma {:induction false} IdsAfterFacts(log: seq<nat>, after: nat)
    requires Increasing(log)
    ensures Increasing(IdsAfter(log, after))
    ensures forall id :: id in IdsAfter(log, after) <==> id in log && id > after
  {
    if log != [] {
      var n, last := |log| - 1, log[|log| - 1];
      IdsAfterFacts(log[..n], after);
      assert log == log[..n] + [last];
      IncreasingAppend(IdsAfter(log[..n], after), last);
    }
  }

  lemma {:induction false} BetweenFacts(log: seq<nat>, after: nat, upTo: nat, lost: set<nat>)
    requires Increasing(log)
    ensures Increasing(Between(log, after, upTo, lost))
    ensures forall id :: id in Between(log, after, upTo, lost) <==> id in log && after < id <= upTo && id !in lost
  {
    if log != [] {
      var n, last := |log| - 1, log[|log| - 1];
      BetweenFacts(log[..n], after, upTo, lost);
      assert log == log[..n] + [last];
      IncreasingAppend(Between(log[..n], after, upTo, lost), last);
    }
  }

  lemma HeadIsLeast(a: seq<nat>)
    requires Increasing(a) && a != []
    ensures a[0] in a && forall id :: id in a ==> a[0] <= id
    ensures forall id :: id in a[1..] <==> id in a && id != a[0]
  {
    forall id | id in a ensures a[0] <= id { var i :| 0 <= i < |a| && a[i] == id; }
    forall id | id in a[1..] ensures id in a && id != a[0] { var i :| 0 <= i < |a[1..]| && a[1..][i] == id; }
    assert a == [a[0]] + a[1..];
  }

  /** Two increasing sequences with the same members are the same. */
  lemma {:induction false} SameMembersSameSeq(a: seq<nat>, b: seq<nat>)
    requires Increasing(a) && Increasing(b) && forall id :: id in a <==> id in b
    ensures a == b
    decreases |a|
  {
    if a == [] {
      if |b| > 0 { HeadIsLeast(b); }
    } else {
      HeadIsLeast(a);
      assert b != [];
      HeadIsLeast(b);
      assert a[0] == b[0];
      SameMembersSameSeq(a[1..], b[1..]);
      assert a == [a[0]] + a[1..] && b == [b[0]] + b[1..];
    }
  }

  // ---- the invariant --------------------------------------------------------------------

  /** What is on its way to the reader: increasing, in the log, and beyond everything lost. */
  predicate WaitingOk(s: Sys, w: seq<nat>) {
    && Increasing(w)
    && (forall id :: id in w ==> id in s.log)
    && (forall l :: l in s.lost ==> l in s.log)
    && (forall l, id :: l in s.lost && id in w ==> l < id)
  }

  /** The frames sent are exactly the ids up to the cursor, save those lost. */
  ghost predicate Exact(s: Sys, ids: seq<nat>) {
    && (s.r.cursor == s.r.after || s.r.cursor in s.log)
    && forall id :: id in ids <==> id in s.log && s.r.after < id <= s.r.cursor && id !in s.lost
  }

  /** Nothing beyond the horizon is forgotten: it is on its way, or known to be lost. */
  predicate Covered(s: Sys, w: seq<nat>) {
    HasReadLog(s.r) ==> forall id :: id in s.log && id > Horizon(s.r) ==> id in w || id in s.lost
  }

  ghost predicate ReplayOk(s: Sys) {
    s.r.phase.Replaying? ==>
      && (forall id :: id in s.r.phase.entries <==> id in s.log && s.r.cursor < id <= Horizon(s.r))
      && (forall l :: l in s.lost ==> l > Horizon(s.r))
  }

  predicate StartOk(s: Sys) {
    && Increasing(s.log)
    && (s.unsent.Some? ==> s.log != [] && s.log[|s.log| - 1] == s.unsent.value)
    && (s.r.phase.Idle? ==> s.wire == [] && s.r.queue == [])
    && (s.r.phase.Idle? || s.r.phase.Listening? || s.r.phase.StatusSeen? ==> s.r.cursor == s.r.after && s.lost == {})
  }

  /** `ids` have been sent and `w` is on its way. */
  ghost predicate InvWith(s: Sys, ids: seq<nat>, w: seq<nat>) {
    StartOk(s) && OrderedWith(s.r, ids) && WaitingOk(s, w) && Exact(s, ids) && Covered(s, w) && ReplayOk(s)
  }

  ghost predicate Inv(s: Sys) {
    InvWith(s, LogIds(s.r.frames), Waiting(s))
  }

  lemma IncreasingTail(w: seq<nat>)
    requires Increasing(w) && w != []
    ensures Increasing(w[1..]) && forall id :: id in w[1..] ==> w[0] < id
  {
    forall id | id in w[1..] ensures w[0] < id { var i :| 0 <= i < |w[1..]| && w[1..][i] == id; }
  }

  lemma InsertKeeps(s: Sys, id: nat, ids: seq<nat>, w: seq<nat>)
    requires InvWith(s, ids, w) && Enabled(s, Insert(id))
    ensures InvWith(Next(s, Insert(id)), ids, w + [id])
  {
    assert forall x :: x in s.log ==> x < id;
    IncreasingAppend(s.log, id);
    IncreasingAppend(w, id);
    if s.r.phase.Replaying? && s.r.phase.entries != [] {
      assert s.r.phase.entries[|s.r.phase.entries| - 1] in s.r.phase.entries;
    }
  }

  lemma PublishKeeps(s: Sys, ids: seq<nat>, w: seq<nat>, w': seq<nat>)
    requires InvWith(s, ids, w) && Enabled(s, Publish)
    requires if IsListening(s.r) then w' == w else w == w' + [s.unsent.value]
    ensures InvWith(Next(s, Publish), ids, w')
  {
    if !IsListening(s.r) { IncreasingFront(w', s.unsent.value); }
    assert forall x :: x in w' ==> x in w;
  }

  lemma QuietKeeps(s: Sys, step: Step, ids: seq<nat>, w: seq<nat>)
    requires InvWith(s, ids, w) && Enabled(s, step)
    requires step.Announce? || step.ChangeStatus? || step.Listen? || step.ReadStatus? || step.HangUp?
    ensures InvWith(Next(s, step), ids, w)
  {}

  lemma ReadLogKeeps(s: Sys, ids: seq<nat>, w: seq<nat>)
    requires InvWith(s, ids, w) && Enabled(s, ReadLog)
    ensures InvWith(Next(s, ReadLog), ids, w)
  {
    SnapshotFacts(s.log, s.r.cursor);
  }

  /** The rows read beyond the cursor are all the log has beyond it, and end at the last of them. */
  lemma SnapshotFacts(log: seq<nat>, cursor: nat)
    requires Increasing(log)
    ensures var entries := IdsAfter(log, cursor);
            var last := if entries == [] then cursor else entries[|entries| - 1];
            && Increasing(entries)
            && (forall i :: 0 <= i < |entries| ==> cursor < entries[i])
            && (forall id :: id in entries <==> id in log && cursor < id <= last)
            && (forall id :: id in log && id > cursor ==> id <= last)
  {
    var entries := IdsAfter(log, cursor);
    IdsAfterFacts(log, cursor);
    forall i | 0 <= i < |entries| ensures cursor < entries[i] { assert entries[i] in entries; }
    forall id | id in log && id > cursor ensures id <= entries[|entries| - 1] {
      var i :| 0 <= i < |entries| && entries[i] == id;
    }
  }

  /** The next entry to replay is the next id of the log. */
  lemma NextEntry(s: Sys, id: nat, rest: seq<nat>)
    requires s.r.phase.Replaying? && s.r.phase.entries == [id] + rest && Increasing(s.r.phase.entries) && ReplayOk(s)
    ensures id in s.log && s.r.cursor < id <= Horizon(s.r) && id !in s.lost
    ensures forall x :: x in s.log && s.r.cursor < x <= id ==> x == id
    ensures forall x :: x in rest <==> x in s.log && id < x <= Horizon(s.r)
  {
    var entries := s.r.phase.entries;
    IncreasingTail(entries);
    assert entries[1..] == rest && entries[0] == id;
    assert forall x :: x in entries <==> x == id || x in rest;
  }

  lemma ReplayExact(s: Sys, id: nat, rest: seq<nat>, ids: seq<nat>)
    requires s.r.phase.Replaying? && s.r.phase.entries == [id] + rest && Exact(s, ids) && s.r.after <= s.r.cursor < id
    requires id in s.log && id !in s.lost && forall x :: x in s.log && s.r.cursor < x <= id ==> x == id
    ensures Exact(s.(r := Replayed(s.r)), ids + [id]) && Horizon(Replayed(s.r)) == Horizon(s.r)
  {
    assert forall x :: x in ids + [id] <==> x in ids || x == id;
    assert ([id] + rest)[1..] == rest;
  }

  lemma ReplayKeeps(s: Sys, ids: seq<nat>, w: seq<nat>)
    requires InvWith(s, ids, w) && Enabled(s, ReplayStep)
    ensures InvWith(Next(s, ReplayStep), ids + ReplaySends(s.r), w)
  {
    ReplayOrdered(s.r, ids);
    if s.r.phase.entries != [] {
      var id, rest := s.r.phase.entries[0], s.r.phase.entries[1..];
      assert s.r.phase.entries == [id] + rest;
      NextEntry(s, id, rest);
      ReplayExact(s, id, rest, ids);
    } else {
      assert ids + [] == ids;
    }
  }

  /** Taking the first id off what is waiting may add that id, and no other, to what is lost. */
  lemma WaitingShrinks(s: Sys, s': Sys, id: nat, w: seq<nat>)
    requires WaitingOk(s, [id] + w) && s'.log == s.log && s.lost <= s'.lost <= s.lost + {id}
    ensures WaitingOk(s', w) && id in s.log && id !in s.lost && forall x :: x in w ==> id < x
  {
    IncreasingTail([id] + w);
    assert ([id] + w)[1..] == w;
    assert id in [id] + w;
    assert forall x :: x in w ==> x in [id] + w;
  }

  lemma TailSkips(s: Sys, ids: seq<nat>, w: seq<nat>, w': seq<nat>)
    requires InvWith(s, ids, w) && Enabled(s, TailStep) && TailSends(s.r) == []
    requires w == IdOf(s.r.queue[0]) + w'
    ensures InvWith(Next(s, TailStep), ids, w')
  {
    if s.r.queue[0].LogMsg? {
      WaitingShrinks(s, Next(s, TailStep), s.r.queue[0].id, w');
      assert forall x :: x in w <==> x == s.r.queue[0].id || x in w';
    } else {
      assert w' == w;
    }
  }

  lemma TailDelivers(s: Sys, id: nat, ids: seq<nat>, w: seq<nat>, w': seq<nat>)
    requires InvWith(s, ids, w) && Enabled(s, TailStep) && s.r.queue[0] == LogMsg(id) && id > s.r.cursor
    requires w == [id] + w'
    ensures InvWith(Next(s, TailStep), ids + [id], w')
  {
    var s' := Next(s, TailStep);
    TailOrdered(s.r, s.status, ids);
    WaitingShrinks(s, s', id, w');
    assert forall x :: x in w <==> x == id || x in w';
    assert forall x :: x in ids + [id] <==> x in ids || x == id;
  }

  lemma ReceiveKeeps(s: Sys, ids: seq<nat>, w: seq<nat>, w': seq<nat>)
    requires InvWith(s, ids, w) && Enabled(s, Receive)
    requires w == (if |s.r.queue| == QUEUE_MAX && s.r.queue[0].LogMsg? then [s.r.queue[0].id] else []) + w'
    ensures InvWith(Next(s, Receive), ids, w')
  {
    var s' := Next(s, Receive);
    assert s.r.cursor <= Horizon(s.r) == Horizon(s'.r);
    if |s.r.queue| == QUEUE_MAX && s.r.queue[0].LogMsg? {
      WaitingShrinks(s, s', s.r.queue[0].id, w');
      assert forall x :: x in w <==> x == s.r.queue[0].id || x in w';
    } else {
      assert w' == w;
    }
  }

  // How each step changes what has been sent and what is on its way.

  /** The queue's head is the first id waiting, if it is a log message. */
  lemma WaitingHead(s: Sys)
    requires s.r.queue != []
    ensures var rest := Ids(s.r.queue[1..]) + Ids(s.wire) + if s.unsent.Some? then [s.unsent.value] else [];
            Waiting(s) == IdOf(s.r.queue[0]) + rest
  {}

  lemma IdsOne(msg: Msg)
    ensures Ids([msg]) == IdOf(msg)
  {
    assert [msg][1..] == [];
  }

  /** Moving the head of the wire to the end of the queue moves nothing else. */
  lemma IdsMove(queue: seq<Msg>, wire: seq<Msg>)
    requires wire != []
    ensures Ids(queue + [wire[0]]) + Ids(wire[1..]) == Ids(queue) + Ids(wire)
  {
    IdsAppend(queue, [wire[0]]);
    IdsAppend([wire[0]], wire[1..]);
    assert [wire[0]] + wire[1..] == wire;
  }

  lemma WaitingReceive(s: Sys)
    requires Enabled(s, Receive)
    ensures var s' := Next(s, Receive);
            Waiting(s) ==
            (if |s.r.queue| == QUEUE_MAX && s.r.queue[0].LogMsg? then [s.r.queue[0].id] else []) + Waiting(s')
  {
    if |s.r.queue| == QUEUE_MAX {
      IdsMove(s.r.queue[1..], s.wire);
      WaitingHead(s);
    } else {
      IdsMove(s.r.queue, s.wire);
    }
  }

  lemma WaitingPublish(s: Sys)
    requires Enabled(s, Publish)
    ensures var s' := Next(s, Publish);
            if IsListening(s.r) then Waiting(s') == Waiting(s) else Waiting(s) == Waiting(s') + [s.unsent.value]
  {
    IdsAppend(s.wire, [LogMsg(s.unsent.value)]);
    IdsOne(LogMsg(s.unsent.value));
  }

  lemma WaitingAnnounce(s: Sys, msg: Msg)
    requires Enabled(s, Announce(msg))
    ensures Waiting(Next(s, Announce(msg))) == Waiting(s)
  {
    IdsAppend(s.wire, [msg]);
    IdsOne(msg);
    assert Ids(s.wire) + [] == Ids(s.wire);
  }

  lemma InvFrom(s: Sys, ids: seq<nat>, w: seq<nat>)
    requires InvWith(s, ids, w) && ids == LogIds(s.r.frames) && w == Waiting(s)
    ensures Inv(s)
  {}

  lemma TailStepKeeps(s: Sys)
    requires Inv(s) && Enabled(s, TailStep)
    ensures Inv(Next(s, TailStep))
  {
    var s', ids, w := Next(s, TailStep), LogIds(s.r.frames), Waiting(s);
    var w' := Waiting(s');
    WaitingHead(s);
    TailFrames(s.r, s.status);
    assert w == IdOf(s.r.queue[0]) + w';
    if TailSends(s.r) == [] {
      TailSkips(s, ids, w, w');
      assert ids + [] == ids;
      InvFrom(s', ids, w');
    } else {
      TailDelivers(s, s.r.queue[0].id, ids, w, w');
      InvFrom(s', ids + TailSends(s.r), w');
    }
  }

  lemma ReplayStepKeeps(s: Sys)
    requires Inv(s) && Enabled(s, ReplayStep)
    ensures Inv(Next(s, ReplayStep))
  {
    var s', ids, w := Next(s, ReplayStep), LogIds(s.r.frames), Waiting(s);
    ReplayFrames(s.r);
    ReplayKeeps(s, ids, w);
    InvFrom(s', ids + ReplaySends(s.r), w);
  }

  lemma ReadStatusKeeps(s: Sys)
    requires Inv(s) && Enabled(s, ReadStatus)
    ensures Inv(Next(s, ReadStatus))
  {
    var ids, w := LogIds(s.r.frames), Waiting(s);
    if s.status.Some? { LogIdsAppend(s.r.frames, StatusFrame(s.status.value)); }
    assert ids + [] == ids;
    QuietKeeps(s, ReadStatus, ids, w);
    InvFrom(Next(s, ReadStatus), ids, w);
  }

  lemma WireStepKeeps(s: Sys, step: Step)
    requires Inv(s) && Enabled(s, step) && (step.Publish? || step.Announce? || step.Receive?)
    ensures Inv(Next(s, step))
  {
    var ids, w := LogIds(s.r.frames), Waiting(s);
    match step
    case Publish =>
      WaitingPublish(s);
      PublishKeeps(s, ids, w, Waiting(Next(s, step)));
    case Announce(msg) =>
      WaitingAnnounce(s, msg);
      QuietKeeps(s, step, ids, w);
    case Receive =>
      WaitingReceive(s);
      ReceiveKeeps(s, ids, w, Waiting(Next(s, step)));
  }

  lemma InsertStepKeeps(s: Sys, id: nat)
    requires Inv(s) && Enabled(s, Insert(id))
    ensures Inv(Next(s, Insert(id)))
  {
    var ids, w := LogIds(s.r.frames), Waiting(s);
    InsertKeeps(s, id, ids, w);
    assert Waiting(Next(s, Insert(id))) == w + [id];
    InvFrom(Next(s, Insert(id)), ids, w + [id]);
  }

  lemma ReadLogStepKeeps(s: Sys)
    requires Inv(s) && Enabled(s, ReadLog)
    ensures Inv(Next(s, ReadLog))
  {
    ReadLogKeeps(s, LogIds(s.r.frames), Waiting(s));
    InvFrom(Next(s, ReadLog), LogIds(s.r.frames), Waiting(s));
  }

  lemma QuietStepKeeps(s: Sys, step: Step)
    requires Inv(s) && Enabled(s, step) && (step.ChangeStatus? || step.Listen? || step.HangUp?)
    ensures Inv(Next(s, step))
  {
    QuietKeeps(s, step, LogIds(s.r.frames), Waiting(s));
    InvFrom(Next(s, step), LogIds(s.r.frames), Waiting(s));
  }

  lemma StepKeepsInv(s: Sys, step: Step)
    requires Inv(s) && Enabled(s, step)
    ensures Inv(Next(s, step))
  {
    match step
    case Insert(id) => InsertStepKeeps(s, id);
    case ReadLog => ReadLogStepKeeps(s);
    case ReplayStep => ReplayStepKeeps(s);
    case TailStep => TailStepKeeps(s);
    case ReadStatus => ReadStatusKeeps(s);
    case Publish => WireStepKeeps(s, step);
    case Announce(_) => WireStepKeeps(s, step);
    case Receive => WireStepKeeps(s, step);
    case _ => QuietStepKeeps(s, step);
  }

  lemma AfterIsFixed(s: Sys, step: Step)
    requires Enabled(s, step)
    ensures Next(s, step).r.after == s.r.after
  {}

  // ---- runs -------------------------------------------------------------------------------

  /** A reader resuming after id `after`, on a log already holding `log`. */
  function Start(log: seq<nat>, unsent: Option<nat>, status: Option<Status>, after: nat): Sys {
    Sys(log, unsent, status, [], Opened(after), {})
  }

  /** Ids were inserted in order, and only the last of them may still be unannounced. */
  predicate Begins(log: seq<nat>, unsent: Option<nat>) {
    Increasing(log) && (unsent.Some? ==> log != [] && log[|log| - 1] == unsent.value)
  }

  predicate Runs(s: Sys, steps: seq<Step>)
    decreases |steps|
  {
    steps == [] || (Enabled(s, steps[0]) && Runs(Next(s, steps[0]), steps[1..]))
  }

  function After(s: Sys, steps: seq<Step>): Sys
    requires Runs(s, steps)
    decreases |steps|
  {
    if steps == [] then s else After(Next(s, steps[0]), steps[1..])
  }

  lemma {:induction false} RunKeepsInv(s: Sys, steps: seq<Step>)
    requires Inv(s) && Runs(s, steps)
    ensures Inv(After(s, steps)) && After(s, steps).r.after == s.r.after
    decreases |steps|
  {
    if steps != [] {
      StepKeepsInv(s, steps[0]);
      AfterIsFixed(s, steps[0]);
      RunKeepsInv(Next(s, steps[0]), steps[1..]);
    }
  }

  /**
   At every moment of every run, the log ids the client has been sent are
   exactly the job's ids after `Last-Event-ID` up to the cursor, in order,
   save those an overflow dropped after the log was read.
   */
  lemma SentIsTheLogUpToTheCursor(log: seq<nat>, unsent: Option<nat>, status: Option<Status>, after: nat,
      steps: seq<Step>)
    requires Begins(log, unsent) && Runs(Start(log, unsent, status, after), steps)
    ensures var s := After(Start(log, unsent, status, after), steps);
            LogIds(s.r.frames) == Between(s.log, after, s.r.cursor, s.lost)
  {
    assert Inv(Start(log, unsent, status, after));
    RunKeepsInv(Start(log, unsent, status, after), steps);
    var s := After(Start(log, unsent, status, after), steps);
    BetweenFacts(s.log, after, s.r.cursor, s.lost);
    SameMembersSameSeq(LogIds(s.r.frames), Between(s.log, after, s.r.cursor, s.lost));
  }

  lemma LossIsTheOnlyGap(log: seq<nat>, after: nat, upTo: nat, lost: set<nat>)
    requires Increasing(log)
    ensures Between(log, after, upTo, lost) == Between(log, after, upTo, {}) <==>
            forall l :: l in lost && l in log && after < l ==> l > upTo
  {
    BetweenFacts(log, after, upTo, lost);
    BetweenFacts(log, after, upTo, {});
    if forall l :: l in lost && l in log && after < l ==> l > upTo {
      SameMembersSameSeq(Between(log, after, upTo, lost), Between(log, after, upTo, {}));
    }
  }

  /** So there is no gap exactly when no lost id lies at or before the cursor. */
  lemma NoGapIffNothingLost(log: seq<nat>, unsent: Option<nat>, status: Option<Status>, after: nat, steps: seq<Step>)
    requires Begins(log, unsent) && Runs(Start(log, unsent, status, after), steps)
    ensures var s := After(Start(log, unsent, status, after), steps);
            LogIds(s.r.frames) == Between(s.log, after, s.r.cursor, {}) <==>
            forall l :: l in s.lost && l in s.log && after < l ==> l > s.r.cursor
  {
    SentIsTheLogUpToTheCursor(log, unsent, status, after, steps);
    assert Inv(Start(log, unsent, status, after));
    RunKeepsInv(Start(log, unsent, status, after), steps);
    var s := After(Start(log, unsent, status, after), steps);
    LossIsTheOnlyGap(s.log, after, s.r.cursor, s.lost);
  }

  /** No notice ever arrives at a full queue. */
  predicate NeverOverflows(s: Sys, steps: seq<Step>)
    requires Runs(s, steps)
    decreases |steps|
  {
    steps == [] ||
    ((steps[0].Receive? ==> |s.r.queue| < QUEUE_MAX) && NeverOverflows(Next(s, steps[0]), steps[1..]))
  }

  lemma {:induction false} NoOverflowNoLoss(s: Sys, steps: seq<Step>)
    requires Runs(s, steps) && NeverOverflows(s, steps) && |s.r.queue| <= QUEUE_MAX
    ensures After(s, steps).lost == s.lost
    decreases |steps|
  {
    if steps != [] { NoOverflowNoLoss(Next(s, steps[0]), steps[1..]); }
  }

  /** With a queue that never overflows, what was sent is exactly the log up to the cursor. */
  lemma NoOverflowNoGap(log: seq<nat>, unsent: Option<nat>, status: Option<Status>, after: nat, steps: seq<Step>)
    requires Begins(log, unsent) && Runs(Start(log, unsent, status, after), steps)
    requires NeverOverflows(Start(log, unsent, status, after), steps)
    ensures var s := After(Start(log, unsent, status, after), steps);
            LogIds(s.r.frames) == Between(s.log, after, s.r.cursor, {})
  {
    NoOverflowNoLoss(Start(log, unsent, status, after), steps);
    SentIsTheLogUpToTheCursor(log, unsent, status, after, steps);
  }

  // ---- reconnecting --------------------------------------------------------------------

  /** One connection: the log as it stood at the end, what was sent, and the cursor reached. */
  datatype Session = Session(log: seq<nat>, sent: seq<nat>, cursor: nat)

  /** Each connection resumed from the last one's cursor and had no gap. */
  predicate Resumed(after: nat, sessions: seq<Session>)
    decreases |sessions|
  {
    sessions == [] ||
    (&& Increasing(sessions[0].log) && after <= sessions[0].cursor
     && (sessions[0].cursor == after || sessions[0].cursor in sessions[0].log)
     && sessions[0].sent == Between(sessions[0].log, after, sessions[0].cursor, {})
     && (|sessions| > 1 ==> sessions[0].log <= sessions[1].log)
     && Resumed(sessions[0].cursor, sessions[1..]))
  }

  lemma CursorInLog(s: Sys)
    requires Inv(s)
    ensures Increasing(s.log) && s.r.after <= s.r.cursor && (s.r.cursor == s.r.after || s.r.cursor in s.log)
  {}

  lemma OneSession(after: nat, session: Session)
    requires Increasing(session.log) && after <= session.cursor
    requires session.cursor == after || session.cursor in session.log
    requires session.sent == Between(session.log, after, session.cursor, {})
    ensures Resumed(after, [session])
  {
    assert [session][1..] == [];
  }

  /** Any run of a reader whose queue never overflows is such a connection. */
  lemma RunIsASession(log: seq<nat>, unsent: Option<nat>, status: Option<Status>, after: nat, steps: seq<Step>)
    requires Begins(log, unsent) && Runs(Start(log, unsent, status, after), steps)
    requires NeverOverflows(Start(log, unsent, status, after), steps)
    ensures var s := After(Start(log, unsent, status, after), steps);
            Resumed(after, [Session(s.log, LogIds(s.r.frames), s.r.cursor)])
  {
    var s := After(Start(log, unsent, status, after), steps);
    assert Inv(Start(log, unsent, status, after));
    RunKeepsInv(Start(log, unsent, status, after), steps);
    CursorInLog(s);
    NoOverflowNoGap(log, unsent, status, after, steps);
    OneSession(after, Session(s.log, LogIds(s.r.frames), s.r.cursor));
  }

  function AllSent(sessions: seq<Session>): seq<nat> {
    if sessions == [] then [] else sessions[0].sent + AllSent(sessions[1..])
  }

  /** A longer log adds nothing at or before a cursor that is in the log. */
  lemma LaterLogSameBefore(log: seq<nat>, later: seq<nat>, after: nat, cursor: nat)
    requires Increasing(later) && log <= later && (cursor == after || cursor in log)
    ensures Between(log, after, cursor, {}) == Between(later, after, cursor, {})
  {
    assert forall i, j :: 0 <= i < j < |log| ==> log[i] == later[i] && log[j] == later[j];
    assert Increasing(log);
    BetweenFacts(log, after, cursor, {});
    BetweenFacts(later, after, cursor, {});
    forall id | id in later && after < id <= cursor ensures id in log {
      var i :| 0 <= i < |later| && later[i] == id;
      var j :| 0 <= j < |log| && log[j] == cursor;
      assert later[j] == cursor;
    }
    assert forall id :: id in log ==> id in later;
    SameMembersSameSeq(Between(log, after, cursor, {}), Between(later, after, cursor, {}));
  }

  lemma BetweenJoins(log: seq<nat>, a: nat, b: nat, c: nat)
    requires Increasing(log) && a <= b <= c
    ensures Between(log, a, b, {}) + Between(log, b, c, {}) == Between(log, a, c, {})
  {
    BetweenFacts(log, a, b, {});
    BetweenFacts(log, b, c, {});
    BetweenFacts(log, a, c, {});
    var x, y := Between(log, a, b, {}), Between(log, b, c, {});
    assert forall i :: 0 <= i < |x| ==> x[i] in x;
    assert forall i :: 0 <= i < |y| ==> y[i] in y;
    assert Increasing(x + y);
    SameMembersSameSeq(x + y, Between(log, a, c, {}));
  }

  /** Over any number of reconnects, everything sent is one gap-free stretch of the final log, with no repeats. */
  lemma {:induction false} ReconnectsLeaveNoGap(after: nat, sessions: seq<Session>)
    requires Resumed(after, sessions) && sessions != []
    decreases |sessions|
    ensures var last := sessions[|sessions| - 1];
            && after <= last.cursor && Increasing(last.log) && sessions[0].log <= last.log
            && AllSent(sessions) == Between(last.log, after, last.cursor, {})
  {
    var first, rest := sessions[0], sessions[1..];
    if rest == [] {
      assert AllSent(rest) == [];
      assert AllSent(sessions) == first.sent;
    } else {
      ReconnectsLeaveNoGap(first.cursor, rest);
      var last := sessions[|sessions| - 1];
      assert rest[|rest| - 1] == last;
      LaterLogSameBefore(first.log, last.log, after, first.cursor);
      BetweenJoins(last.log, after, first.cursor, last.cursor);
    }
  }

  /** One connection as it happened: the log and the unannounced id it found, and its steps. */
  datatype Visit = Visit(log: seq<nat>, unsent: Option<nat>, status: Option<Status>, steps: seq<Step>)

  /** Connections without overflow, each resuming from the last one's cursor on a log that has only grown. */
  predicate Visits(after: nat, visits: seq<Visit>)
    decreases |visits|
  {
    visits == [] ||
    (&& Begins(visits[0].log, visits[0].unsent)
     && Runs(Start(visits[0].log, visits[0].unsent, visits[0].status, after), visits[0].steps)
     && NeverOverflows(Start(visits[0].log, visits[0].unsent, visits[0].status, after), visits[0].steps)
     && (|visits| > 1 ==> EndOf(after, visits[0]).log <= visits[1].log)
     && Visits(EndOf(after, visits[0]).r.cursor, visits[1..]))
  }

  function EndOf(after: nat, v: Visit): Sys
    requires Runs(Start(v.log, v.unsent, v.status, after), v.steps)
  {
    After(Start(v.log, v.unsent, v.status, after), v.steps)
  }

  function SessionOf(after: nat, v: Visit): Session
    requires Runs(Start(v.log, v.unsent, v.status, after), v.steps)
  {
    var s := EndOf(after, v);
    Session(s.log, LogIds(s.r.frames), s.r.cursor)
  }

  function SessionsOf(after: nat, visits: seq<Visit>): (sessions: seq<Session>)
    requires Visits(after, visits)
    ensures |sessions| == |visits|
    decreases |visits|
  {
    if visits == [] then []
    else [SessionOf(after, visits[0])] + SessionsOf(EndOf(after, visits[0]).r.cursor, visits[1..])
  }

  lemma {:induction false} LogOnlyGrows(s: Sys, steps: seq<Step>)
    requires Runs(s, steps)
    ensures s.log <= After(s, steps).log
    decreases |steps|
  {
    if steps != [] { LogOnlyGrows(Next(s, steps[0]), steps[1..]); }
  }

  lemma ResumedMore(after: nat, session: Session, rest: seq<Session>)
    requires Resumed(after, [session]) && Resumed(session.cursor, rest)
    requires rest != [] ==> session.log <= rest[0].log
    ensures Resumed(after, [session] + rest)
  {
    assert ([session] + rest)[1..] == rest;
  }

  lemma {:induction false} VisitsResume(after: nat, visits: seq<Visit>)
    requires Visits(after, visits)
    ensures Resumed(after, SessionsOf(after, visits))
    decreases |visits|
  {
    if visits != [] {
      var v, rest := visits[0], visits[1..];
      var session := SessionOf(after, v);
      RunIsASession(v.log, v.unsent, v.status, after, v.steps);
      VisitsResume(session.cursor, rest);
      if rest != [] {
        LogOnlyGrows(Start(rest[0].log, rest[0].unsent, rest[0].status, session.cursor), rest[0].steps);
        assert SessionsOf(session.cursor, rest)[0] == SessionOf(session.cursor, rest[0]);
      }
      ResumedMore(after, session, SessionsOf(session.cursor, rest));
    }
  }

  /** A client that reconnects with the last id it saw is sent one gap-free stretch of the final log, nothing twice. */
  lemma ReconnectingClientMissesNothing(after: nat, visits: seq<Visit>)
    requires Visits(after, visits) && visits != []
    ensures var sessions := SessionsOf(after, visits);
            var last := sessions[|sessions| - 1];
            Increasing(last.log) && AllSent(sessions) == Between(last.log, after, last.cursor, {})
  {
    VisitsResume(after, visits);
    ReconnectsLeaveNoGap(after, SessionsOf(after, visits));
  }

  // ---- how the stream ends ---------------------------------------------------------------

  /** The step that ends the stream from the server's side. */
  predicate Closes(s: Sys, step: Step) {
    (step.ReplayStep? || step.TailStep?) && Enabled(s, step) && Next(s, step).r.phase.Done?
  }

  lemma ClosingChangesNothing(s: Sys, step: Step)
    requires Closes(s, step)
    ensures var s' := Next(s, step);
            && s'.log == s.log && s'.lost == s.lost && s'.r.after == s.r.after && Waiting(s') == Waiting(s)
            && HasReadLog(s.r) && Horizon(s.r) == s.r.cursor == s'.r.cursor
  {
    if step.TailStep? {
      assert s.r.queue[0] == StatusMsg;
      assert Ids(s.r.queue) == IdOf(StatusMsg) + Ids(s.r.queue[1..]);
      assert [] + Ids(s.r.queue[1..]) == Ids(s.r.queue[1..]);
    }
  }

  lemma NothingForgotten(s: Sys)
    requires Inv(s) && HasReadLog(s.r)
    ensures forall id :: id in s.log && id > Horizon(s.r) ==> id in Waiting(s) || id in s.lost
  {}

  /**
   In every run that the server ends, the client has the whole log exactly when
   nothing beyond the cursor waits or was lost.
   */
  lemma ClosedStreamIsWholeIff(
      log: seq<nat>, unsent: Option<nat>, status: Option<Status>, after: nat, steps: seq<Step>, last: Step)
    requires Begins(log, unsent) && Runs(Start(log, unsent, status, after), steps)
    requires Closes(After(Start(log, unsent, status, after), steps), last)
    ensures var s := Next(After(Start(log, unsent, status, after), steps), last);
            LogIds(s.r.frames) == IdsAfter(s.log, after) <==>
            (forall id :: id in Waiting(s) ==> id <= s.r.cursor) && (forall l :: l in s.lost ==> l <= after)
  {
    var s0 := After(Start(log, unsent, status, after), steps);
    assert Inv(Start(log, unsent, status, after));
    RunKeepsInv(Start(log, unsent, status, after), steps);
    StepKeepsInv(s0, last);
    ClosingChangesNothing(s0, last);
    NothingForgotten(s0);
    WholeIff(Next(s0, last));
  }

  lemma WholeIff(s: Sys)
    requires Inv(s) && forall id :: id in s.log && id > s.r.cursor ==> id in Waiting(s) || id in s.lost
    ensures LogIds(s.r.frames) == IdsAfter(s.log, s.r.after) <==>
            (forall id :: id in Waiting(s) ==> id <= s.r.cursor) && (forall l :: l in s.lost ==> l <= s.r.after)
  {
    var sent, all := LogIds(s.r.frames), IdsAfter(s.log, s.r.after);
    IdsAfterFacts(s.log, s.r.after);
    CursorInLog(s);
    if (forall id :: id in Waiting(s) ==> id <= s.r.cursor) && (forall l :: l in s.lost ==> l <= s.r.after) {
      SameMembersSameSeq(sent, all);
    }
  }

  lemma Proceed(s: Sys, step: Step, rest: seq<Step>)
    requires Enabled(s, step) && Runs(Next(s, step), rest)
    ensures Runs(s, [step] + rest) && After(s, [step] + rest) == After(Next(s, step), rest)
  {
    assert ([step] + rest)[1..] == rest;
  }

  lemma {:induction false} RunsOn(s: Sys, a: seq<Step>, b: seq<Step>)
    requires Runs(s, a) && Runs(After(s, a), b)
    ensures Runs(s, a + b) && After(s, a + b) == After(After(s, a), b)
    decreases |a|
  {
    if a == [] {
      assert a + b == b;
    } else {
      RunsOn(Next(s, a[0]), a[1..], b);
      Proceed(s, a[0], a[1..] + b);
      assert [a[0]] + (a[1..] + b) == a + b;
    }
  }

  const OPENING := [Listen, ReadStatus, ReadLog, ReplayStep]

  lemma OpensOntoTail(after: nat)
    ensures var start := Start([], None, Some(Queued), after);
            && Runs(start, OPENING)
            && After(start, OPENING) ==
               Sys([], None, Some(Queued), [], Reader(after, after, Tailing, [], [StatusFrame(Queued)]), {})
  {
    var s0 := Start([], None, Some(Queued), after);
    var s1 := Next(s0, Listen);
    var s2 := Next(s1, ReadStatus);
    var s3 := Next(s2, ReadLog);
    Proceed(s3, ReplayStep, []);
    Proceed(s2, ReadLog, [ReplayStep]);
    Proceed(s1, ReadStatus, [ReadLog, ReplayStep]);
    Proceed(s0, Listen, [ReadStatus, ReadLog, ReplayStep]);
  }

  /** The notice that the job runs, a log line and its notice, the job's end. */
  function Writing(id: nat): seq<Step> {
    [Announce(StatusMsg), Insert(id), Publish, ChangeStatus(Complete)]
  }

  lemma WritesBoth(s: Sys, id: nat)
    requires s.log == [] && s.unsent.None? && s.wire == [] && s.r.phase.Tailing?
    ensures Runs(s, Writing(id))
    ensures After(s, Writing(id)) == s.(log := [id], status := Some(Complete), wire := [StatusMsg, LogMsg(id)])
  {
    var s1 := Next(s, Announce(StatusMsg));
    var s2 := Next(s1, Insert(id));
    var s3 := Next(s2, Publish);
    Proceed(s3, ChangeStatus(Complete), []);
    Proceed(s2, Publish, [ChangeStatus(Complete)]);
    Proceed(s1, Insert(id), [Publish, ChangeStatus(Complete)]);
    Proceed(s, Announce(StatusMsg), [Insert(id), Publish, ChangeStatus(Complete)]);
  }

  lemma HandsOverBoth(s: Sys, a: Msg, b: Msg)
    requires s.wire == [a, b] && s.r.phase.Tailing? && s.r.queue == [] && s.lost == {}
    ensures Runs(s, [Receive, Receive])
    ensures After(s, [Receive, Receive]) == s.(wire := [], r := s.r.(queue := [a, b]))
  {
    var s1 := Next(s, Receive);
    assert s1.wire == [b] && s1.r.queue == [a];
    Proceed(s1, Receive, []);
    Proceed(s, Receive, [Receive]);
  }

  /**
   A run in which it is not: the notice that the job runs is read when the job
   has ended, and a log line waits behind it.
   */
  lemma StatusMayOvertakeLog(after: nat, id: nat)
    requires after < id
    ensures var start, steps := Start([], None, Some(Queued), after), OPENING + (Writing(id) + [Receive, Receive]);
            && Runs(start, steps) && Closes(After(start, steps), TailStep)
            && var s := Next(After(start, steps), TailStep);
            s.log == [id] && LogIds(s.r.frames) == [] && Waiting(s) == [id]
  {
    var start, rest := Start([], None, Some(Queued), after), Writing(id) + [Receive, Receive];
    OpensOntoTail(after);
    var tailing := After(start, OPENING);
    WritesBoth(tailing, id);
    HandsOverBoth(After(tailing, Writing(id)), StatusMsg, LogMsg(id));
    RunsOn(tailing, Writing(id), [Receive, Receive]);
    RunsOn(start, OPENING, rest);
    var s := After(start, OPENING + rest);
    TailFrames(s.r, s.status);
    IdsOne(LogMsg(id));
    assert s.r.queue[1..] == [LogMsg(id)];
  }
}
