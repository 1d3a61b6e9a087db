/**
 Keyed submissions of `jobs.py` racing each other: each client looks the key
 up, inserts a job and the key in one transaction, and on a lost race rolls
 back and reads the winner. A uniqueness conflict waits for the transaction
 that holds the key.
 */
module Idempotency {
  import opened Common

  datatype ClientId = ClientId(n: int)

  datatype Key = Key(key: string, account: string)

  /** `submitted_by or ""`: a missing account and an empty one share their keys. */
  function KeyFor(key: string, submittedBy: Option<string>): Key {
    Key(key, if submittedBy.Some? then submittedBy.value else "")
  }

  /** Who has the row for a key: nobody, an open transaction, or the table for good. */
  datatype Slot = Free | Held(holder: ClientId, job: JobId) | Committed(job: JobId)

  datatype Phase =
    | Started
    | Missed                   // looked the key up and found nothing
    | JobInserted(job: JobId)  // in the transaction, before the key
    | KeyInserted(job: JobId)  // in the transaction, about to commit
    | Raced                    // rolled back: another submission has the key
    | Returned(job: JobId)
    | Unresolved               // the error after a race no winner can be found for
    | Gone                     // crashed or failed; its transaction rolled back

  /** `sent` and `sentBy` are what the client arrived with; `key` is what is looked up and inserted for it. */
  datatype Client = Client(sent: string, sentBy: Option<string>, key: Key, phase: Phase)

  /** `jobs` are the committed keyed job rows; `used` the ids ever drawn. */
  datatype Sys = Sys(slots: map<Key, Slot>, jobs: map<JobId, Key>, used: set<JobId>, clients: map<ClientId, Client>)

  datatype Step =
    | Arrive(c: ClientId, key: string, submittedBy: Option<string>)
    | LookUp(c: ClientId)
    | InsertJob(c: ClientId, job: JobId)
    | InsertKey(c: ClientId)
    | Commit(c: ClientId)
    | Resolve(c: ClientId)
    | Abort(c: ClientId)

  function SlotOf(s: Sys, key: Key): Slot {
    if key in s.slots then s.slots[key] else Free
  }

  predicate Enabled(s: Sys, step: Step) {
    match step
    case Arrive(c, _, _) => c !in s.clients
    case LookUp(c) => c in s.clients && s.clients[c].phase.Started?
    case InsertJob(c, job) => c in s.clients && s.clients[c].phase.Missed? && job !in s.used
    case InsertKey(c) => c in s.clients && s.clients[c].phase.JobInserted? && !SlotOf(s, s.clients[c].key).Held?
    case Commit(c) => c in s.clients && s.clients[c].phase.KeyInserted?
    case Resolve(c) => c in s.clients && s.clients[c].phase.Raced?
    case Abort(c) => c in s.clients && !s.clients[c].phase.Returned? && !s.clients[c].phase.Unresolved?
  }

  function Moved(s: Sys, c: ClientId, phase: Phase): map<ClientId, Client>
    requires c in s.clients
  {
    s.clients[c := s.clients[c].(phase := phase)]
  }

  function Next(s: Sys, step: Step): Sys
    requires Enabled(s, step)
  {
    match step
    case Arrive(c, key, submittedBy) => 
      s.(clients := s.clients[c := Client(key, submittedBy, KeyFor(key, submittedBy), Started)])
    case LookUp(c) =>
      (match SlotOf(s, s.clients[c].key)
       case Committed(job) => s.(clients := Moved(s, c, Returned(job)))
       case _ => s.(clients := Moved(s, c, Missed)))
    case InsertJob(c, job) => s.(used := s.used + {job}, clients := Moved(s, c, JobInserted(job)))
    case InsertKey(c) =>
      var client := s.clients[c];
      (match SlotOf(s, client.key)
       case Committed(_) => s.(clients := Moved(s, c, Raced))
       case _ => s.(slots := s.slots[client.key := Held(c, client.phase.job)],
                    clients := Moved(s, c, KeyInserted(client.phase.job))))
    case Commit(c) =>
      var client := s.clients[c];
      s.(slots := s.slots[client.key := Committed(client.phase.job)],
         jobs := s.jobs[client.phase.job := client.key],
         clients := Moved(s, c, Returned(client.phase.job)))
    case Resolve(c) =>
      (match SlotOf(s, s.clients[c].key)
       case Committed(job) => s.(clients := Moved(s, c, Returned(job)))
       case _ => s.(clients := Moved(s, c, Unresolved)))
    case Abort(c) =>
      var client := s.clients[c];
      s.(slots := if client.phase.KeyInserted? then s.slots[client.key := Free] else s.slots,
         clients := Moved(s, c, Gone))
  }

  const INIT := Sys(map[], map[], {}, map[])

  // ---- what every interleaving keeps ------------------------------------------

  predicate ClientOk(s: Sys, c: ClientId)
    requires c in s.clients
  {
    var slot := SlotOf(s, s.clients[c].key);
    match s.clients[c].phase
    case JobInserted(job) => job in s.used && job !in s.jobs
    case KeyInserted(job) => job in s.used && job !in s.jobs && slot == Held(c, job)
    case Raced => slot.Committed?
    case Returned(job) => slot == Committed(job)
    case Unresolved => false
    case _ => true
  }

  predicate DistinctOpenJobs(s: Sys) {
    forall c, d :: c in s.clients && d in s.clients && c != d
      && (s.clients[c].phase.JobInserted? || s.clients[c].phase.KeyInserted?)
      && (s.clients[d].phase.JobInserted? || s.clients[d].phase.KeyInserted?)
      ==> s.clients[c].phase.job != s.clients[d].phase.job
  }

  predicate Inv(s: Sys) {
    && s.jobs.Keys <= s.used
    && (forall c :: c in s.clients ==> ClientOk(s, c))
    && DistinctOpenJobs(s)
    && (forall key :: key in s.slots && s.slots[key].Held? ==>
          && s.slots[key].holder in s.clients
          && s.clients[s.slots[key].holder].key == key
          && s.clients[s.slots[key].holder].phase == KeyInserted(s.slots[key].job))
    && (forall key :: key in s.slots && s.slots[key].Committed? ==>
          s.slots[key].job in s.jobs && s.jobs[s.slots[key].job] == key)
    && (forall job :: job in s.jobs ==> SlotOf(s, s.jobs[job]) == Committed(job))
  }

  predicate CommitsKept(s: Sys, s': Sys) {
    forall key :: key in s.slots && s.slots[key].Committed? ==> SlotOf(s', key) == s.slots[key]
  }

  lemma ArriveKeepsInv(s: Sys, step: Step)
    requires Inv(s) && Enabled(s, step) && step.Arrive?
    ensures Inv(Next(s, step)) && CommitsKept(s, Next(s, step))
  {
    var s' := Next(s, step);
    forall c | c in s'.clients ensures ClientOk(s', c) {
      if c in s.clients { assert ClientOk(s, c); }
    }
  }

  /** A client without an open transaction learns something. */
  lemma LearningKeepsInv(s: Sys, c: ClientId, phase: Phase)
    requires Inv(s) && c in s.clients && !s.clients[c].phase.JobInserted? && !s.clients[c].phase.KeyInserted?
    requires phase.Missed? || (phase.Returned? && SlotOf(s, s.clients[c].key) == Committed(phase.job))
    ensures Inv(s.(clients := Moved(s, c, phase)))
  {
    var s' := s.(clients := Moved(s, c, phase));
    forall d | d in s'.clients ensures ClientOk(s', d) {
      assert ClientOk(s, d);
    }
  }

  lemma ReadKeepsInv(s: Sys, step: Step)
    requires Inv(s) && Enabled(s, step) && (step.LookUp? || step.Resolve?)
    ensures Inv(Next(s, step)) && CommitsKept(s, Next(s, step))
  {
    var c := step.c;
    assert ClientOk(s, c);
    match SlotOf(s, s.clients[c].key)
    case Committed(job) => LearningKeepsInv(s, c, Returned(job));
    case _ => LearningKeepsInv(s, c, Missed);
  }

  lemma InsertJobKeepsInv(s: Sys, step: Step)
    requires Inv(s) && Enabled(s, step) && step.InsertJob?
    ensures Inv(Next(s, step)) && CommitsKept(s, Next(s, step))
  {
    var s' := Next(s, step);
    forall c | c in s'.clients ensures ClientOk(s', c) {
      if c in s.clients { assert ClientOk(s, c); }
      if step.c in s.clients { assert ClientOk(s, step.c); }
    }
  }

  lemma KeyTakenKeepsInv(s: Sys, step: Step)
    requires Inv(s) && Enabled(s, step) && step.InsertKey?
    requires SlotOf(s, s.clients[step.c].key).Committed?
    ensures Inv(Next(s, step)) && CommitsKept(s, Next(s, step))
  {
    var s' := Next(s, step);
    forall c | c in s'.clients ensures ClientOk(s', c) {
      if c in s.clients { assert ClientOk(s, c); }
      if step.c in s.clients { assert ClientOk(s, step.c); }
    }
  }

  lemma KeyFreeKeepsInv(s: Sys, step: Step)
    requires Inv(s) && Enabled(s, step) && step.InsertKey?
    requires !SlotOf(s, s.clients[step.c].key).Committed?
    ensures Inv(Next(s, step)) && CommitsKept(s, Next(s, step))
  {
    var s' := Next(s, step);
    forall c | c in s'.clients ensures ClientOk(s', c) {
      if c in s.clients { assert ClientOk(s, c); }
      if step.c in s.clients { assert ClientOk(s, step.c); }
    }
  }

  lemma CommitKeepsInv(s: Sys, step: Step)
    requires Inv(s) && Enabled(s, step) && step.Commit?
    ensures Inv(Next(s, step)) && CommitsKept(s, Next(s, step))
  {
    var s' := Next(s, step);
    forall c | c in s'.clients ensures ClientOk(s', c) {
      if c in s.clients { assert ClientOk(s, c); }
      if step.c in s.clients { assert ClientOk(s, step.c); }
    }
  }

  lemma AbortKeepsInv(s: Sys, step: Step)
    requires Inv(s) && Enabled(s, step) && step.Abort?
    ensures Inv(Next(s, step)) && CommitsKept(s, Next(s, step))
  {
    var s' := Next(s, step);
    forall c | c in s'.clients ensures ClientOk(s', c) {
      if c in s.clients { assert ClientOk(s, c); }
      if step.c in s.clients { assert ClientOk(s, step.c); }
    }
  }

  lemma StepKeepsInv(s: Sys, step: Step)
    requires Inv(s) && Enabled(s, step)
    ensures Inv(Next(s, step)) && CommitsKept(s, Next(s, step))
  {
    match step
    case Arrive(_, _, _) => ArriveKeepsInv(s, step);
    case InsertJob(_, _) => InsertJobKeepsInv(s, step);
    case InsertKey(c) =>
      if SlotOf(s, s.clients[c].key).Committed? { KeyTakenKeepsInv(s, step); } else { KeyFreeKeepsInv(s, step); }
    case Commit(_) => CommitKeepsInv(s, step);
    case Abort(_) => AbortKeepsInv(s, step);
    case _ => ReadKeepsInv(s, step);
  }

  predicate Runs(s: Sys, steps: seq<Step>)
    decreases |steps|
  {
    steps == [] || (Enabled(s, steps[0]) && Runs(Next(s, steps[0]), steps[1..]))
  }

  function After(s: Sys, steps: seq<Step>): Sys
    requires Runs(s, steps)
    decreases |steps|
  {
    if steps == [] then s else After(Next(s, steps[0]), steps[1..])
  }

  lemma {:induction false} RunKeepsInv(s: Sys, steps: seq<Step>)
    requires Inv(s) && Runs(s, steps)
    ensures Inv(After(s, steps)) && CommitsKept(s, After(s, steps))
    decreases |steps|
  {
    if steps != [] {
      StepKeepsInv(s, steps[0]);
      RunKeepsInv(Next(s, steps[0]), steps[1..]);
    }
  }

  /**
   However keyed submissions interleave, crash and roll back: one key and
   account have at most one job, every caller that returned got that job, and
   a lost race always finds its winner.
   */
  lemma OneJobPerKey(steps: seq<Step>)
    requires Runs(INIT, steps)
    ensures var s := After(INIT, steps);
            && (forall i, j :: i in s.jobs && j in s.jobs && s.jobs[i] == s.jobs[j] ==> i == j)
            && (forall c :: c in s.clients && s.clients[c].phase.Returned? ==>
                  s.clients[c].phase.job in s.jobs && s.jobs[s.clients[c].phase.job] == s.clients[c].key)
            && (forall c :: c in s.clients ==> !s.clients[c].phase.Unresolved?)
  {
    RunKeepsInv(INIT, steps);
    var s := After(INIT, steps);
    forall c | c in s.clients
      ensures !s.clients[c].phase.Unresolved?
      ensures s.clients[c].phase.Returned? ==>
                s.clients[c].phase.job in s.jobs && s.jobs[s.clients[c].phase.job] == s.clients[c].key
    {
      assert ClientOk(s, c);
    }
  }

  /** The same account, an absent one counting as the empty one. */
  predicate SameAccount(a: Option<string>, b: Option<string>) {
    a == b || (a in {None, Some("")} && b in {None, Some("")})
  }

  /** Two submissions share a row of the key table exactly when they share key and account. */
  lemma KeysKeepApart(k: string, a: Option<string>, k': string, b: Option<string>)
    ensures KeyFor(k, a) == KeyFor(k', b) <==> k == k' && SameAccount(a, b)
  {}

  /** What a client arrived with, and the row that leads to, never change. */
  predicate ArrivalsKept(s: Sys, s': Sys) {
    forall c :: c in s.clients ==>
      && c in s'.clients && s'.clients[c].sent == s.clients[c].sent && s'.clients[c].sentBy == s.clients[c].sentBy
      && (s.clients[c].phase.Returned? ==> s'.clients[c] == s.clients[c])
  }

  predicate KeysMatch(s: Sys) {
    forall c :: c in s.clients ==> s.clients[c].key == KeyFor(s.clients[c].sent, s.clients[c].sentBy)
  }

  lemma OnePhaseMoves(s: Sys, step: Step)
    requires Enabled(s, step) && !step.Arrive?
    ensures var c, s' := step.c, Next(s, step);
            && c in s.clients && !s.clients[c].phase.Returned? && c in s'.clients
            && s'.clients == Moved(s, c, s'.clients[c].phase)
  {}

  lemma StepKeepsArrivals(s: Sys, step: Step)
    requires KeysMatch(s) && Enabled(s, step)
    ensures KeysMatch(Next(s, step)) && ArrivalsKept(s, Next(s, step))
  {
    if !step.Arrive? { OnePhaseMoves(s, step); }
  }

  lemma ArrivalsTransitively(s: Sys, m: Sys, s': Sys)
    requires ArrivalsKept(s, m) && ArrivalsKept(m, s')
    ensures ArrivalsKept(s, s')
  {}

  lemma {:induction false} RunKeepsArrivals(s: Sys, steps: seq<Step>)
    requires KeysMatch(s) && Runs(s, steps)
    ensures KeysMatch(After(s, steps)) && ArrivalsKept(s, After(s, steps))
    decreases |steps|
  {
    if steps != [] {
      StepKeepsArrivals(s, steps[0]);
      RunKeepsArrivals(Next(s, steps[0]), steps[1..]);
      ArrivalsTransitively(s, Next(s, steps[0]), After(s, steps));
    }
  }

  /**
   Two callers come away with the same job exactly when they arrived with the
   same key and account, whenever each of them returned.
   */
  lemma SameJobIffSameCaller(first: seq<Step>, later: seq<Step>, c: ClientId, d: ClientId)
    requires Runs(INIT, first) && Runs(After(INIT, first), later)
    requires var s, s' := After(INIT, first), After(After(INIT, first), later);
             && c in s.clients && s.clients[c].phase.Returned?
             && d in s'.clients && s'.clients[d].phase.Returned?
    ensures var x, y := After(INIT, first).clients[c], After(After(INIT, first), later).clients[d];
            x.phase.job == y.phase.job <==> x.sent == y.sent && SameAccount(x.sentBy, y.sentBy)
  {
    var s, s' := After(INIT, first), After(After(INIT, first), later);
    RunKeepsInv(INIT, first);
    RunKeepsInv(s, later);
    RunKeepsArrivals(INIT, first);
    RunKeepsArrivals(s, later);
    var x, y := s.clients[c], s'.clients[d];
    assert ClientOk(s, c) && ClientOk(s', d) && s'.clients[c] == x && ClientOk(s', c);
    KeysKeepApart(x.sent, x.sentBy, y.sent, y.sentBy);
  }

  /** Whoever holds a key can commit it, which frees those who wait. */
  lemma HolderCanMove(steps: seq<Step>, key: Key)
    requires Runs(INIT, steps) && SlotOf(After(INIT, steps), key).Held?
    ensures var s := After(INIT, steps);
            Enabled(s, Commit(SlotOf(s, key).holder)) && !SlotOf(Next(s, Commit(SlotOf(s, key).holder)), key).Held?
  {
    RunKeepsInv(INIT, steps);
  }
}
