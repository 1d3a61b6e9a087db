/**
 `ratelimit.py`: a sliding window kept in one dictionary that is pruned on
 every call and evicted when it grows. The reference is a history that is
 never pruned; `PruningIsInvisible` proves the two give the same answers.
 */
module RateLimit {
  import opened Common

  const WINDOW_SECONDS := 60.0
  const MAX_KEYS := 10_000

  datatype Account = Account(id: int)

  type Hits = map<Account, seq<real>>

  /** `IndexError` is what reading `recent[0]` of an empty list raises. */
  datatype Answer = Admitted | Wait(seconds: int) | IndexError

  function Recent(times: seq<real>, now: real): seq<real> {
    if times == [] then []
    else if now - times[0] < WINDOW_SECONDS then [times[0]] + Recent(times[1..], now)
    else Recent(times[1..], now)
  }

  predicate Stale(times: seq<real>, now: real) {
    forall i :: 0 <= i < |times| ==> now - times[i] >= WINDOW_SECONDS
  }

  /** The answer a list of recent admissions leads to. */
  function Decide(recent: seq<real>, limit: int, now: real): Answer {
    if |recent| < limit then Admitted
    else if recent == [] then IndexError
    else
      var seconds := (WINDOW_SECONDS - (now - recent[0])).Floor + 1;
      Wait(if seconds < 1 then 1 else seconds)
  }

  function TimesOf(hits: Hits, account: Account): seq<real> {
    if account in hits then hits[account] else []
  }

  /** The dictionary without the accounts that have nothing recent. */
  function Live(hits: Hits, now: real): Hits {
    map key | key in hits && !Stale(hits[key], now) :: hits[key]
  }

  function Evicted(hits: Hits, account: Account, now: real): Hits {
    if account !in hits && |hits| >= MAX_KEYS then Live(hits, now) else hits
  }

  /** One call: the new dictionary and the answer. */
  function CheckStep(hits: Hits, account: Account, limit: Option<int>, now: real): (Hits, Answer) {
    if limit.None? then (hits, Admitted)
    else
      var recent := Recent(TimesOf(hits, account), now);
      var answer := Decide(recent, limit.value, now);
      if answer.Admitted?
      then (Evicted(hits, account, now)[account := recent + [now]], answer)
      else (hits[account := recent], answer)
  }

  class RateLimiter {
    var hits: Hits

    constructor ()
      ensures hits == map[]
    {
      hits := map[];
    }

    /** The list comprehension that prunes one account's times. */
    method Prune(times: seq<real>, now: real) returns (recent: seq<real>)
      ensures recent == Recent(times, now)
    {
      recent := [];
      var i := |times|;
      while i > 0
        invariant 0 <= i <= |times|
        invariant recent == Recent(times[i..], now)
      {
        i := i - 1;
        assert times[i..][1..] == times[i + 1..];
        if now - times[i] < WINDOW_SECONDS { recent := [times[i]] + recent; }
      }
      assert times[0..] == times;
    }

    /** The eviction pass over every key. */
    method Evict(now: real)
      modifies this
      ensures hits == Live(old(hits), now)
    {
      var todo := hits.Keys;
      while todo != {}
        invariant todo <= old(hits).Keys
        invariant forall key :: key in hits <==> key in old(hits) && (key in todo || !Stale(old(hits)[key], now))
        invariant forall key :: key in hits ==> hits[key] == old(hits)[key]
        decreases todo
      {
        var key :| key in todo;
        if Stale(hits[key], now) { hits := hits - {key}; }
        todo := todo - {key};
      }
    }

    /** `check`. */
    method Check(account: Account, limit: Option<int>, now: real) returns (answer: Answer)
      modifies this
      ensures (hits, answer) == CheckStep(old(hits), account, limit, now)
    {
      if limit.None? { return Admitted; }
      var times := if account in hits then hits[account] else [];
      var recent := Prune(times, now);
      if |recent| >= limit.value {
        hits := hits[account := recent];
        if recent == [] { return IndexError; }
        var seconds := (WINDOW_SECONDS - (now - recent[0])).Floor + 1;
        return Wait(if seconds < 1 then 1 else seconds);
      }
      if account !in hits && |hits| >= MAX_KEYS {
        Evict(now);
      }
      hits := hits[account := recent + [now]];
      return Admitted;
    }
  }

  // ---- runs, and the unpruned history --------------------------------------------

  datatype Call = Call(account: Account, limit: Option<int>, now: real)

  /** The clock never goes back. */
  predicate Ordered(calls: seq<Call>) {
    forall i, j :: 0 <= i <= j < |calls| ==> calls[i].now <= calls[j].now
  }

  function HitsAfter(calls: seq<Call>): Hits {
    if calls == [] then map[]
    else
      var last := calls[|calls| - 1];
      CheckStep(HitsAfter(calls[..|calls| - 1]), last.account, last.limit, last.now).0
  }

  /** What the code answers to the n-th call. */
  function AnswerTo(calls: seq<Call>, n: nat): Answer
    requires n < |calls|
  {
    CheckStep(HitsAfter(calls[..n]), calls[n].account, calls[n].limit, calls[n].now).1
  }

  /** Every admission of an account ever recorded, none forgotten. */
  function History(calls: seq<Call>, account: Account): seq<real>
    decreases |calls|, 0
  {
    if calls == [] then []
    else
      var before, last := calls[..|calls| - 1], calls[|calls| - 1];
      if last.account == account && last.limit.Some? && Reference(before, last).Admitted?
      then History(before, account) + [last.now]
      else History(before, account)
  }

  /** What a limiter that keeps the whole history answers. */
  function Reference(before: seq<Call>, call: Call): Answer
    decreases |before|, 1
  {
    if call.limit.None? then Admitted
    else Decide(Recent(History(before, call.account), call.now), call.limit.value, call.now)
  }

  lemma {:induction false} RecentAgain(times: seq<real>, t: real, now: real)
    requires t <= now
    ensures Recent(Recent(times, t), now) == Recent(times, now)
  {
    if times != [] {
      RecentAgain(times[1..], t, now);
      if now - times[0] < WINDOW_SECONDS {
        assert ([times[0]] + Recent(times[1..], t))[1..] == Recent(times[1..], t);
      } else if t - times[0] < WINDOW_SECONDS {
        assert ([times[0]] + Recent(times[1..], t))[1..] == Recent(times[1..], t);
      }
    }
  }

  lemma {:induction false} RecentAppend(xs: seq<real>, ys: seq<real>, now: real)
    ensures Recent(xs + ys, now) == Recent(xs, now) + Recent(ys, now)
  {
    if xs == [] {
      assert xs + ys == ys;
    } else {
      assert (xs + ys)[1..] == xs[1..] + ys;
      RecentAppend(xs[1..], ys, now);
    }
  }

  lemma {:induction false} StaleHasNoRecent(times: seq<real>, t: real, now: real)
    requires Stale(times, t) && t <= now
    ensures Recent(times, now) == []
  {
    if times != [] { StaleHasNoRecent(times[1..], t, now); }
  }

  /** From time `t` on, the pruned dictionary and the history show the same recent admissions. */
  lemma {:induction false} DictionaryAgrees(calls: seq<Call>, account: Account, now: real)
    requires Ordered(calls) && (calls != [] ==> calls[|calls| - 1].now <= now)
    ensures Recent(TimesOf(HitsAfter(calls), account), now) == Recent(History(calls, account), now)
  {
    if calls != [] {
      var before, last := calls[..|calls| - 1], calls[|calls| - 1];
      var hits, t := HitsAfter(before), last.now;
      DictionaryAgrees(before, account, t);
      DictionaryAgrees(before, account, now);
      if last.limit.Some? {
        var times := TimesOf(hits, last.account);
        var recent := Recent(times, t);
        DictionaryAgrees(before, last.account, t);
        if account == last.account {
          RecentAgain(times, t, now);
          RecentAppend(recent, [t], now);
          RecentAppend(History(before, account), [t], now);
        } else if account in hits && Stale(hits[account], t) {
          StaleHasNoRecent(hits[account], t, now);
        }
      }
    }
  }

  /** Pruning and eviction never change an answer, whatever the limits. */
  lemma PruningIsInvisible(calls: seq<Call>, n: nat)
    requires Ordered(calls) && n < |calls|
    ensures AnswerTo(calls, n) == Reference(calls[..n], calls[n])
  {
    DictionaryAgrees(calls[..n], calls[n].account, calls[n].now);
  }

  // ---- no window holds more than the limit ------------------------------------------

  predicate Sorted(times: seq<real>) {
    forall i, j :: 0 <= i <= j < |times| ==> times[i] <= times[j]
  }

  /** Any `limit + 1` admissions in a row span a whole window. */
  predicate Spaced(times: seq<real>, limit: nat) {
    forall i :: 0 <= i && i + limit < |times| ==> times[i + limit] - times[i] >= WINDOW_SECONDS
  }

  /** Every limit the account was called with is at most `limit`. */
  predicate LimitedTo(calls: seq<Call>, account: Account, limit: int) {
    forall i :: 0 <= i < |calls| && calls[i].account == account && calls[i].limit.Some? ==>
      calls[i].limit.value <= limit
  }

  /** On sorted times, if the oldest is recent then all are. */
  lemma {:induction false} AllRecent(times: seq<real>, now: real)
    requires Sorted(times) && (times != [] ==> now - times[0] < WINDOW_SECONDS)
    ensures Recent(times, now) == times
  {
    if times != [] {
      assert |times| > 1 ==> times[0] <= times[1] && times[1..][0] == times[1];
      AllRecent(times[1..], now);
    }
  }

  /** So the recent ones are a suffix. */
  lemma {:induction false} RecentIsSuffix(times: seq<real>, now: real)
    requires Sorted(times)
    ensures |Recent(times, now)| <= |times|
    ensures Recent(times, now) == times[|times| - |Recent(times, now)|..]
    ensures forall i :: 0 <= i < |times| ==>
              (now - times[i] < WINDOW_SECONDS <==> i >= |times| - |Recent(times, now)|)
  {
    if times != [] {
      var rest, recent := times[1..], Recent(times, now);
      if now - times[0] < WINDOW_SECONDS {
        AllRecent(times, now);
        forall i | 0 <= i < |times| ensures now - times[i] < WINDOW_SECONDS { assert times[0] <= times[i]; }
      } else {
        RecentIsSuffix(rest, now);
        forall i | 0 <= i < |times| ensures now - times[i] < WINDOW_SECONDS <==> i >= |times| - |recent| {
          if i > 0 { assert times[i] == rest[i - 1]; }
        }
      }
    }
  }

  lemma SpanOf(times: seq<real>, limit: nat, i: nat, j: nat)
    requires Sorted(times) && Spaced(times, limit) && i + limit <= j < |times|
    ensures times[j] - times[i] >= WINDOW_SECONDS
  {
    assert times[i + limit] - times[i] >= WINDOW_SECONDS;
  }

  lemma AppendSpaced(times: seq<real>, limit: nat, t: real)
    requires Sorted(times) && Spaced(times, limit) && |Recent(times, t)| < limit
    requires forall i :: 0 <= i < |times| ==> times[i] <= t
    ensures Sorted(times + [t]) && Spaced(times + [t], limit)
  {
    RecentIsSuffix(times, t);
  }

  lemma {:induction false} HistoryBounded(calls: seq<Call>, account: Account, limit: nat)
    requires Ordered(calls) && LimitedTo(calls, account, limit)
    ensures Sorted(History(calls, account)) && Spaced(History(calls, account), limit)
    ensures forall i :: 0 <= i < |History(calls, account)| ==>
      calls != [] && History(calls, account)[i] <= calls[|calls| - 1].now
  {
    if calls != [] {
      var before, last := calls[..|calls| - 1], calls[|calls| - 1];
      HistoryBounded(before, account, limit);
      if before != [] { assert before[|before| - 1].now <= last.now; }
      if last.account == account && last.limit.Some? && Reference(before, last).Admitted? {
        AppendSpaced(History(before, account), limit, last.now);
      }
    }
  }

  lemma {:induction false} RangeSize(lo: int, hi: int, s: set<int>)
    requires lo <= hi && forall i :: i in s ==> lo <= i < hi
    ensures |s| <= hi - lo
    decreases hi - lo
  {
    if lo < hi {
      RangeSize(lo, hi - 1, s - {hi - 1});
    } else {
      assert s == {};
    }
  }

  function Within(times: seq<real>, from: real): set<int> {
    set i | 0 <= i < |times| && InWindow(times[i], from)
  }

  lemma SpacedWindow(times: seq<real>, limit: nat, from: real)
    requires Sorted(times) && Spaced(times, limit) && limit >= 1
    ensures |Within(times, from)| <= limit
  {
    var s := Within(times, from);
    if s != {} {
      var lo := FirstOf(s);
      forall i | i in s ensures lo <= i < lo + limit {
        if i >= lo + limit { SpanOf(times, limit, lo, i); }
      }
      RangeSize(lo, lo + limit, s);
    }
  }

  lemma {:induction false} FirstOf(s: set<int>) returns (lo: int)
    requires s != {}
    ensures lo in s && forall i :: i in s ==> lo <= i
  {
    assert (forall i :: i !in s) ==> s == {};
    lo :| lo in s;
    if s != {lo} {
      var rest := FirstOf(s - {lo});
      assert forall i :: i in s ==> i == lo || i in s - {lo};
      if rest < lo { lo := rest; }
    }
  }

  /** The code admitted the `k`-th call, which is the account's and under a limit. */
  predicate Counted(calls: seq<Call>, k: nat, account: Account)
    requires k < |calls|
  {
    calls[k].account == account && calls[k].limit.Some? && AnswerTo(calls, k).Admitted?
  }

  predicate InWindow(t: real, from: real) {
    from <= t < from + 60.0
  }

  /** The indices below `n` that satisfy `p`. */
  function Below(n: nat, p: int -> bool): set<int> {
    set k | 0 <= k < n && p(k)
  }

  lemma BelowMore(n: nat, p: int -> bool)
    ensures |Below(n + 1, p)| == |Below(n, p)| + if p(n) then 1 else 0
  {
    assert Below(n + 1, p) == Below(n, p) + if p(n) then {n} else {};
  }

  /** Those among the first `n` calls, within sixty seconds from `from`. */
  function AdmittedWithin(calls: seq<Call>, n: nat, account: Account, from: real): set<int>
    requires n <= |calls|
  {
    Below(n, k => 0 <= k < |calls| && Counted(calls, k, account) && InWindow(calls[k].now, from))
  }

  lemma AdmittedAppend(calls: seq<Call>, n: nat, account: Account, from: real)
    requires n < |calls|
    ensures |AdmittedWithin(calls, n + 1, account, from)| ==
            |AdmittedWithin(calls, n, account, from)|
            + if Counted(calls, n, account) && InWindow(calls[n].now, from) then 1 else 0
  {
    BelowMore(n, k => 0 <= k < |calls| && Counted(calls, k, account) && InWindow(calls[k].now, from));
  }

  lemma WithinAppend(times: seq<real>, t: real, from: real)
    ensures |Within(times + [t], from)| == |Within(times, from)| + if InWindow(t, from) then 1 else 0
  {
    var more := if InWindow(t, from) then {|times|} else {};
    assert Within(times + [t], from) == Within(times, from) + more;
  }

  lemma HistoryAppend(calls: seq<Call>, n: nat, account: Account)
    requires Ordered(calls) && n < |calls|
    ensures History(calls[..n + 1], account) ==
            History(calls[..n], account) +
            if Counted(calls, n, account) then [calls[n].now] else []
  {
    assert calls[..n + 1][..n] == calls[..n];
    PruningIsInvisible(calls, n);
  }

  /** The history counts what the code admitted. */
  lemma {:induction false} HistoryCountsAdmissions(calls: seq<Call>, n: nat, account: Account, from: real)
    requires Ordered(calls) && n <= |calls|
    ensures |AdmittedWithin(calls, n, account, from)| == |Within(History(calls[..n], account), from)|
  {
    if n == 0 {
      assert Within([], from) == {};
    } else {
      var m := n - 1;
      HistoryCountsAdmissions(calls, m, account, from);
      HistoryAppend(calls, m, account);
      AdmittedAppend(calls, m, account, from);
      WithinAppend(History(calls[..m], account), calls[m].now, from);
      assert History(calls[..m], account) + [] == History(calls[..m], account);
    }
  }

  /** Every half-open sixty seconds hold at most `limit` admitted calls of the account. */
  lemma WindowHoldsAtMostLimit(calls: seq<Call>, account: Account, limit: nat, from: real)
    requires Ordered(calls) && LimitedTo(calls, account, limit) && limit >= 1
    ensures |AdmittedWithin(calls, |calls|, account, from)| <= limit
  {
    HistoryBounded(calls, account, limit);
    SpacedWindow(History(calls, account), limit, from);
    HistoryCountsAdmissions(calls, |calls|, account, from);
    assert calls[..|calls|] == calls;
  }

  // ---- who is admitted --------------------------------------------------------------

  /** The calls before the `n`-th that were admitted under a limit less than sixty seconds before `now`. */
  function AdmittedSince(calls: seq<Call>, n: nat, account: Account, now: real): set<int>
    requires n <= |calls|
  {
    Below(n, k => 0 <= k < |calls| && Counted(calls, k, account) && now - calls[k].now < 60.0)
  }

  lemma SinceAppend(calls: seq<Call>, n: nat, account: Account, now: real)
    requires n < |calls|
    ensures |AdmittedSince(calls, n + 1, account, now)| ==
            |AdmittedSince(calls, n, account, now)|
            + if Counted(calls, n, account) && now - calls[n].now < 60.0 then 1 else 0
  {
    BelowMore(n, k => 0 <= k < |calls| && Counted(calls, k, account) && now - calls[k].now < 60.0);
  }

  lemma {:induction false} RecentCountsAdmissions(calls: seq<Call>, n: nat, account: Account, now: real)
    requires Ordered(calls) && n <= |calls|
    ensures |AdmittedSince(calls, n, account, now)| == |Recent(History(calls[..n], account), now)|
  {
    if n == 0 {
      assert AdmittedSince(calls, 0, account, now) == {};
    } else {
      var m := n - 1;
      RecentCountsAdmissions(calls, m, account, now);
      HistoryAppend(calls, m, account);
      SinceAppend(calls, m, account, now);
      var history := History(calls[..m], account);
      if Counted(calls, m, account) {
        RecentAppend(history, [calls[m].now], now);
        assert [calls[m].now][1..] == [];
      } else {
        assert history + [] == history;
      }
    }
  }

  /**
   A call is admitted exactly when it has no limit, or fewer than its limit were
   admitted in the last sixty seconds.
   */
  lemma AdmittedIffUnderLimit(calls: seq<Call>, n: nat)
    requires Ordered(calls) && n < |calls|
    ensures AnswerTo(calls, n) == Admitted <==>
            && (calls[n].limit.Some? ==>
                  |AdmittedSince(calls, n, calls[n].account, calls[n].now)| < calls[n].limit.value)
  {
    PruningIsInvisible(calls, n);
    RecentCountsAdmissions(calls, n, calls[n].account, calls[n].now);
  }

  // ---- waiting as told is enough, and hardly less is --------------------------------------------------

  /** No call of the account is admitted under a limit from the `n`-th up to the `m`-th. */
  predicate Untouched(calls: seq<Call>, account: Account, n: nat, m: nat)
    requires n <= m <= |calls|
  {
    forall k :: n <= k < m ==> !Counted(calls, k, account)
  }

  lemma {:induction false} UntouchedKeepsHistory(calls: seq<Call>, account: Account, n: nat, m: nat)
    requires Ordered(calls) && n <= m <= |calls| && Untouched(calls, account, n, m)
    ensures History(calls[..n], account) == History(calls[..m], account)
    decreases m
  {
    if n < m {
      UntouchedKeepsHistory(calls, account, n, m - 1);
      HistoryAppend(calls, m - 1, account);
      assert History(calls[..m - 1], account) + [] == History(calls[..m - 1], account);
    }
  }

  lemma OldestLeavesWindow(times: seq<real>, limit: nat, now: real, later: real)
    requires Sorted(times) && Spaced(times, limit) && limit >= 1
    requires forall i :: 0 <= i < |times| ==> times[i] <= now
    requires Decide(Recent(times, now), limit, now).Wait?
    requires later >= now + Decide(Recent(times, now), limit, now).seconds as real
    ensures 1 <= Decide(Recent(times, now), limit, now).seconds <= 61
    ensures |Recent(times, later)| < limit
  {
    RecentIsSuffix(times, now);
    RecentIsSuffix(times, later);
    var recent := Recent(times, now);
    var k := |times| - |recent|;
    assert recent[0] == times[k];
    if |recent| > limit { SpanOf(times, limit, k, k + limit); }
    assert |recent| == limit;
    assert later - times[k] >= WINDOW_SECONDS;
  }

  /**
   A caller refused at its limit is told between 1 and 61 seconds, and is
   admitted by any call that much later if nothing of its account was
   admitted in between.
   */
  lemma WaitingIsEnough(calls: seq<Call>, n: nat, m: nat)
    requires Ordered(calls) && n < m < |calls| && calls[n].account == calls[m].account
    requires calls[n].limit.Some? && calls[n].limit == calls[m].limit && calls[n].limit.value >= 1
    requires LimitedTo(calls, calls[n].account, calls[n].limit.value)
    requires AnswerTo(calls, n).Wait? && Untouched(calls, calls[n].account, n, m)
    ensures 1 <= AnswerTo(calls, n).seconds <= 61
    ensures calls[m].now >= calls[n].now + AnswerTo(calls, n).seconds as real ==> AnswerTo(calls, m) == Admitted
  {
    var account, limit := calls[n].account, calls[n].limit.value;
    PruningIsInvisible(calls, n);
    PruningIsInvisible(calls, m);
    HistoryBounded(calls[..n], account, limit);
    UntouchedKeepsHistory(calls, account, n, m);
    var times := History(calls[..n], account);
    OldestLeavesWindow(times, limit, calls[n].now, calls[n].now + AnswerTo(calls, n).seconds as real);
    if calls[m].now >= calls[n].now + AnswerTo(calls, n).seconds as real {
      OldestLeavesWindow(times, limit, calls[n].now, calls[m].now);
    }
  }

  lemma OldestStaysInWindow(times: seq<real>, limit: int, now: real, later: real)
    requires Sorted(times) && now <= later && Decide(Recent(times, now), limit, now).Wait?
    requires later < now + (Decide(Recent(times, now), limit, now).seconds - 1) as real
    ensures Decide(Recent(times, later), limit, later).Wait?
  {
    var recent := Recent(times, now);
    RecentIsSuffix(times, now);
    RecentIsSuffix(times, later);
    var k := |times| - |recent|;
    assert recent[0] == times[k];
    assert later - times[k] < WINDOW_SECONDS;
    assert k >= |times| - |Recent(times, later)|;
  }

  /**
   The wait told is the least in whole seconds, give or take one: anybody who
   comes a second earlier is refused again.
   */
  lemma WaitingLessIsRefused(calls: seq<Call>, n: nat, m: nat)
    requires Ordered(calls) && n < m < |calls| && calls[n].account == calls[m].account
    requires calls[n].limit.Some? && calls[n].limit == calls[m].limit && calls[n].limit.value >= 1
    requires LimitedTo(calls, calls[n].account, calls[n].limit.value)
    requires AnswerTo(calls, n).Wait? && Untouched(calls, calls[n].account, n, m)
    ensures calls[m].now < calls[n].now + (AnswerTo(calls, n).seconds - 1) as real ==> AnswerTo(calls, m).Wait?
  {
    var account, limit := calls[n].account, calls[n].limit.value;
    PruningIsInvisible(calls, n);
    PruningIsInvisible(calls, m);
    HistoryBounded(calls[..n], account, limit);
    UntouchedKeepsHistory(calls, account, n, m);
    if calls[m].now < calls[n].now + (AnswerTo(calls, n).seconds - 1) as real {
      OldestStaysInWindow(History(calls[..n], account), limit, calls[n].now, calls[m].now);
    }
  }

  /** The code fails to answer exactly when a limit below one meets an account with nothing recent. */
  lemma FailsExactlyOnEmptyWindow(calls: seq<Call>, n: nat)
    requires Ordered(calls) && n < |calls|
    ensures AnswerTo(calls, n) == IndexError <==>
            && calls[n].limit.Some? && calls[n].limit.value <= 0
            && Recent(History(calls[..n], calls[n].account), calls[n].now) == []
  {
    PruningIsInvisible(calls, n);
  }
}
