/**
 `jobs.py`: the jobs table and the statements that move a job between its
 five statuses. Each statement is a function from table to table; `JobStore`
 holds the table, its log and the notifications it published.
 */
module Jobs {
  import opened Common

  datatype Status = Queued | Running | Complete | Failed | Cancelled

  predicate Terminal(s: Status) {
    s.Complete? || s.Failed? || s.Cancelled?
  }

  /** A row. `claims` and `requeues` are not columns: they count what happened to the row. */
  datatype Job = Job(
    submittedAt: int, status: Status, startedAt: Option<int>, completedAt: Option<int>,
    claims: nat, requeues: nat)

  type Table = map<JobId, Job>

  // ---- the statements -----------------------------------------------------------

  function Inserted(t: Table, id: JobId, now: int): Table {
    t[id := Job(now, Queued, None, None, 0, 0)]
  }

  /** The rows a claim may take: queued, and not locked by another session (`SKIP LOCKED`). */
  function Claimable(t: Table, locked: set<JobId>): set<JobId> {
    WithStatus(t, Queued) - locked
  }

  /** The row `ORDER BY submitted_at ... LIMIT 1` may return. */
  predicate OldestClaimable(t: Table, id: JobId, locked: set<JobId>) {
    && id in Claimable(t, locked)
    && forall other :: other in Claimable(t, locked) ==> t[id].submittedAt <= t[other].submittedAt
  }

  function Claimed(t: Table, id: JobId, now: int): Table
    requires id in t
  {
    t[id := t[id].(status := Running, startedAt := Some(now), claims := t[id].claims + 1)]
  }

  /** `finish`: the update asks nothing of the row's status. */
  function Finished(t: Table, id: JobId, status: Status, now: int): Table {
    if id in t then t[id := t[id].(status := status, completedAt := Some(now))] else t
  }

  /** `requeue_orphans`: every running row, whoever claimed it. */
  function Requeued(t: Table): Table {
    map id | id in t ::
      if t[id].status.Running?
      then t[id].(status := Queued, startedAt := None, requeues := t[id].requeues + 1)
      else t[id]
  }

  /** The guarded update of `cancel`. */
  function CancelledIfQueued(t: Table, id: JobId, now: int): Table {
    if id in t && t[id].status.Queued? then t[id := t[id].(status := Cancelled, completedAt := Some(now))] else t
  }

  // ---- the five statuses ----------------------------------------------------------

  function WithStatus(t: Table, s: Status): set<JobId> {
    set id | id in t && t[id].status == s
  }

  /** Every job is counted under exactly one status. */
  lemma StatusesCountEveryJob(t: Table)
    ensures |WithStatus(t, Queued)| + |WithStatus(t, Running)| + |WithStatus(t, Complete)|
            + |WithStatus(t, Failed)| + |WithStatus(t, Cancelled)| == |t|
  {
    var a, b, c, d := WithStatus(t, Queued), WithStatus(t, Running), WithStatus(t, Complete), WithStatus(t, Failed);
    var e := WithStatus(t, Cancelled);
    assert |a + b| == |a| + |b|;
    assert |a + b + c| == |a + b| + |c|;
    assert |a + b + c + d| == |a + b + c| + |d|;
    assert |a + b + c + d + e| == |a + b + c + d| + |e|;
    assert a + b + c + d + e == t.Keys;
  }

  /** A row that tells a consistent story about itself. */
  predicate Consistent(job: Job) {
    && (job.completedAt.Some? <==> Terminal(job.status))
    && (job.status.Queued? ==> job.startedAt.None?)
    && (job.status.Running? || job.status.Complete? || job.status.Failed? ==> job.startedAt.Some?)
    && job.claims == job.requeues + if job.startedAt.Some? then 1 else 0
  }

  /** Every job finished in `before` has the same row in `after`. */
  predicate FinishedKept(before: Table, after: Table) {
    forall id :: id in before && Terminal(before[id].status) ==> id in after && after[id] == before[id]
  }

  predicate RowsConsistent(t: Table) {
    forall id :: id in t ==> Consistent(t[id])
  }

  lemma ClaimKeepsRows(t: Table, id: JobId, now: int)
    requires RowsConsistent(t) && id in t && t[id].status.Queued?
    ensures RowsConsistent(Claimed(t, id, now)) && FinishedKept(t, Claimed(t, id, now))
  {}

  lemma RequeueKeepsRows(t: Table)
    requires RowsConsistent(t)
    ensures RowsConsistent(Requeued(t)) && FinishedKept(t, Requeued(t))
  {}

  /** `finish` keeps the rows in order only because it is called on a running job. */
  lemma FinishKeepsRows(t: Table, id: JobId, status: Status, now: int)
    requires RowsConsistent(t) && id in t && t[id].status.Running? && Terminal(status)
    ensures RowsConsistent(Finished(t, id, status, now)) && FinishedKept(t, Finished(t, id, status, now))
  {}

  // ---- the store --------------------------------------------------------------------

  datatype Notice =
    | StatusNotice(job: JobId, status: Status)
    | LogNotice(job: JobId, id: nat)
    | CancelRequest(job: JobId)

  datatype CancelAnswer = NoSuchJob | CancelledNow | Signalled | Already(status: Status)

  lemma {:induction false} OldestExists(t: Table, queued: set<JobId>) returns (oldest: JobId)
    requires queued != {} && forall id :: id in queued ==> id in t
    ensures oldest in queued && forall id :: id in queued ==> t[oldest].submittedAt <= t[id].submittedAt
    decreases queued
  {
    oldest :| oldest in queued;
    if queued != {oldest} {
      var rest := OldestExists(t, queued - {oldest});
      if t[rest].submittedAt < t[oldest].submittedAt { oldest := rest; }
    }
  }

  /** The same rows, all but one as they were. */
  predicate OnlyRow(before: Table, after: Table, id: JobId) {
    after.Keys == before.Keys && forall other :: other in before && other != id ==> after[other] == before[other]
  }

  class JobStore {
    var rows: Table
    var log: seq<JobId>            // entry k has id k + 1
    var published: seq<Notice>

    constructor ()
      ensures rows == map[] && log == [] && published == []
    {
      rows, log, published := map[], [], [];
    }

    /** `submit`, parameters already validated. */
    method Submit(id: JobId, now: int)
      requires id !in rows
      modifies this
      ensures rows == Inserted(old(rows), id, now) && log == old(log)
      ensures rows.Keys == old(rows).Keys + {id}
      ensures forall other :: other in old(rows) ==> rows[other] == old(rows)[other]
      ensures rows[id].status == Queued && rows[id].submittedAt == now
      ensures rows[id].startedAt.None? && rows[id].completedAt.None? && rows[id].claims == rows[id].requeues == 0
      ensures published == old(published) + [StatusNotice(id, Queued)]
    {
      rows := rows[id := Job(now, Queued, None, None, 0, 0)];
      published := published + [StatusNotice(id, Queued)];
    }

    /** `claim`: nothing exactly when nothing is to be had, otherwise an oldest job that other sessions leave free. */
    method Claim(now: int, locked: set<JobId>) returns (claimed: Option<JobId>)
      modifies this
      ensures claimed.None? <==> Claimable(old(rows), locked) == {}
      ensures claimed.None? ==> rows == old(rows) && published == old(published)
      ensures claimed.Some? ==> OldestClaimable(old(rows), claimed.value, locked)
      ensures claimed.Some? ==> rows == Claimed(old(rows), claimed.value, now)
      ensures claimed.None? <==> forall id :: id in old(rows) && old(rows)[id].status == Queued ==> id in locked
      ensures claimed.Some? ==>
                var id, was := claimed.value, old(rows);
                && id in was && was[id].status == Queued && id !in locked && OnlyRow(was, rows, id)
                && rows[id] == was[id].(status := Running, startedAt := Some(now), claims := was[id].claims + 1)
                && forall other :: other in was && was[other].status == Queued && other !in locked ==>
                     was[id].submittedAt <= was[other].submittedAt
      ensures claimed.Some? ==> published == old(published) + [StatusNotice(claimed.value, Running)]
      ensures log == old(log)
    {
      var free := Claimable(rows, locked);
      assert forall id :: id in free <==> id in rows && rows[id].status == Queued && id !in locked;
      if free == {} { return None; }
      ghost var oldest := OldestExists(rows, free);
      assert OldestClaimable(rows, oldest, locked);
      var id :| id in rows && OldestClaimable(rows, id, locked);
      rows := rows[id := rows[id].(status := Running, startedAt := Some(now), claims := rows[id].claims + 1)];
      published := published + [StatusNotice(id, Running)];
      return Some(id);
    }

    /** `log`: the row first, then the notice that carries its id. */
    method Log(id: JobId)
      modifies this
      ensures rows == old(rows) && log == old(log) + [id]
      ensures published == old(published) + [LogNotice(id, |log|)]
    {
      log := log + [id];
      published := published + [LogNotice(id, |log|)];
    }

    /** `finish`. */
    method Finish(id: JobId, status: Status, now: int)
      requires Terminal(status)
      modifies this
      ensures rows == Finished(old(rows), id, status, now) && log == old(log)
      ensures OnlyRow(old(rows), rows, id)
      ensures id in rows ==> rows[id] == old(rows)[id].(status := status, completedAt := Some(now))
      ensures published == old(published) + [StatusNotice(id, status)]
    {
      if id in rows { rows := rows[id := rows[id].(status := status, completedAt := Some(now))]; }
      published := published + [StatusNotice(id, status)];
    }

    /**
     `cancel` from its first read on: `seen` is the status that read found,
     which the row may have left by now. A queued row is cancelled only if it is
     still queued; a lost race is answered by the status as it is.
     */
    method Cancel(id: JobId, seen: Option<Status>, now: int) returns (answer: CancelAnswer)
      requires seen.Some? ==> id in rows
      modifies this
      ensures rows == if seen == Some(Queued) then CancelledIfQueued(old(rows), id, now) else old(rows)
      ensures log == old(log)
      ensures OnlyRow(old(rows), rows, id)
      ensures answer.CancelledNow? ==>
                && seen.Some? && id in rows
                && rows[id] == old(rows)[id].(status := Cancelled, completedAt := Some(now))
      ensures !answer.CancelledNow? ==> rows == old(rows)
      ensures answer == NoSuchJob <==> seen == None
      ensures answer == CancelledNow <==> seen == Some(Queued) && old(rows)[id].status == Queued
      ensures answer == Signalled <==>
              seen == Some(Running) || (seen == Some(Queued) && old(rows)[id].status == Running)
      ensures answer.Already? <==>
              && seen.Some? && seen != Some(Running)
              && (seen == Some(Queued) ==> old(rows)[id].status in {Complete, Failed, Cancelled})
      ensures answer.Already? ==> answer.status == if seen == Some(Queued) then old(rows)[id].status else seen.value
      ensures published == old(published) +
              match answer
              case CancelledNow => [StatusNotice(id, Cancelled)]
              case Signalled => [CancelRequest(id)]
              case _ => []
    {
      if seen.None? { return NoSuchJob; }
      var status := seen.value;
      if status.Queued? {
        if rows[id].status.Queued? {
          rows := rows[id := rows[id].(status := Cancelled, completedAt := Some(now))];
          published := published + [StatusNotice(id, Cancelled)];
          return CancelledNow;
        }
        status := rows[id].status;
      }
      if status.Running? {
        published := published + [CancelRequest(id)];
        return Signalled;
      }
      return Already(status);
    }

    /** `requeue_orphans`: one update, then a log line for each row it moved. */
    method RequeueOrphans(order: seq<JobId>) returns (n: nat)
      requires forall i, j :: 0 <= i < j < |order| ==> order[i] != order[j]
      requires forall id :: id in order <==> id in WithStatus(rows, Running)
      modifies this
      ensures rows == Requeued(old(rows)) && n == |order| && rows.Keys == old(rows).Keys
      ensures forall id :: id in rows ==>
                rows[id] ==
                if old(rows)[id].status == Running
                then old(rows)[id].(status := Queued, startedAt := None, requeues := old(rows)[id].requeues + 1)
                else old(rows)[id]
      ensures log == old(log) + order
      ensures published == old(published)
        + seq(|order|, i requires 0 <= i < |order| => LogNotice(order[i], |old(log)| + i + 1))
    {
      rows := Requeued(rows);
      for i := 0 to |order|
        invariant rows == Requeued(old(rows)) && log == old(log) + order[..i]
        invariant published == old(published) + seq(i, k requires 0 <= k < i => LogNotice(order[k], |old(log)| + k + 1))
      {
        Log(order[i]);
      }
      assert order[..|order|] == order;
      n := |order|;
    }
  }
}
