/** The bounded poll shared by `loopCheckPlayground`, `loopCheckPlaygroundStop` and
    `waitPlaygroundStop`: check, refresh and stop on success, otherwise count the
    failure and stop once the count exceeds the bound. The outcome of the n-th
    check (counting from 0) is given by `satisfied(n)`. */
module Poller {
  import opened Host
  import opened Snapshot

  /** Checks performed and refresh signals emitted by one poll. */
  datatype PollResult = PollResult(checks: nat, refreshes: nat)

  /** The poll from the check numbered `tried` on. */
  function RunFrom(times: nat, satisfied: nat -> bool, tried: nat): PollResult
    requires tried <= times
    decreases times - tried
  {
    if satisfied(tried) then PollResult(1, 1)
    else if tried + 1 > times then PollResult(1, 0)
    else
      var rest := RunFrom(times, satisfied, tried + 1);
      PollResult(rest.checks + 1, rest.refreshes)
  }

  /** A whole poll with bound `times`. */
  function Outcome(times: nat, satisfied: nat -> bool): PollResult {
    RunFrom(times, satisfied, 0)
  }

  lemma {:induction false} NeverSatisfiedFrom(times: nat, satisfied: nat -> bool, tried: nat)
    requires tried <= times
    requires forall n: nat :: tried <= n <= times ==> !satisfied(n)
    ensures RunFrom(times, satisfied, tried) == PollResult(times - tried + 1, 0)
    decreases times - tried
  {
    if tried + 1 <= times {
      NeverSatisfiedFrom(times, satisfied, tried + 1);
    }
  }

  /** A check that never succeeds is made `times + 1` times and no refresh is emitted. */
  lemma NeverSatisfied(times: nat, satisfied: nat -> bool)
    requires forall n: nat :: n <= times ==> !satisfied(n)
    ensures Outcome(times, satisfied) == PollResult(times + 1, 0)
  {
    NeverSatisfiedFrom(times, satisfied, 0);
  }

  lemma {:induction false} FirstSatisfiedFrom(times: nat, satisfied: nat -> bool, tried: nat, k: nat)
    requires tried <= k <= times && satisfied(k)
    requires forall n: nat :: tried <= n < k ==> !satisfied(n)
    ensures RunFrom(times, satisfied, tried) == PollResult(k - tried + 1, 1)
    decreases k - tried
  {
    if tried < k {
      FirstSatisfiedFrom(times, satisfied, tried + 1, k);
    }
  }

  /** When check `k` is the first to succeed within the bound, the poll stops there
      after `k + 1` checks and exactly one refresh. */
  lemma FirstSatisfied(times: nat, satisfied: nat -> bool, k: nat)
    requires k <= times && satisfied(k)
    requires forall n: nat :: n < k ==> !satisfied(n)
    ensures Outcome(times, satisfied) == PollResult(k + 1, 1)
  {
    FirstSatisfiedFrom(times, satisfied, 0, k);
  }

  /** Every poll makes between 1 and `times + 1` checks and emits at most one refresh,
      which it emits exactly when some check within the bound succeeds. */
  lemma {:induction false} OutcomeBounds(times: nat, satisfied: nat -> bool)
    ensures 1 <= Outcome(times, satisfied).checks <= times + 1
    ensures Outcome(times, satisfied).refreshes <= 1
    ensures Outcome(times, satisfied).refreshes == 1 <==> exists n: nat :: n <= times && satisfied(n)
  {
    if n: nat :| n <= times && satisfied(n) {
      var k := FirstSuccess(satisfied, n);
      FirstSatisfied(times, satisfied, k);
    } else {
      NeverSatisfied(times, satisfied);
    }
  }

  /** The first succeeding check at or before a known succeeding one. */
  ghost function FirstSuccess(satisfied: nat -> bool, n: nat): (k: nat)
    requires satisfied(n)
    ensures k <= n && satisfied(k)
    ensures forall m: nat :: m < k ==> !satisfied(m)
  {
    if n == 0 then 0
    else if exists m: nat :: m < n && satisfied(m) then
      var m: nat :| m < n && satisfied(m);
      FirstSuccess(satisfied, m)
    else n
  }

  // ---------------------------------------------------------------------------
  // The poll state kept by the `check` closure of `loopCheckPlayground` and its siblings.

  /** One poll in progress: the failure counter `tried` against the bound `times`. */
  class PollState {
    const times: nat
    var tried: nat
    var finished: bool
    var refreshes: nat

    /** Waiting (not finished, no refresh, within the bound), Satisfied (finished with one
        refresh) or Exhausted (finished, no refresh, counter one past the bound). */
    ghost predicate Valid()
      reads this
    {
      refreshes <= 1 && tried <= times + 1
      && (!finished ==> tried <= times && refreshes == 0)
      && (finished ==> (refreshes == 1 && tried <= times) || (refreshes == 0 && tried == times + 1))
    }

    /** The checks made so far: one per failure plus the succeeding one. */
    function Checks(): nat
      reads this
    {
      tried + refreshes
    }

    constructor (times: nat)
      ensures Valid() && this.times == times
      ensures tried == 0 && !finished && refreshes == 0
    {
      this.times := times;
      tried := 0;
      finished := false;
      refreshes := 0;
    }

    /** `check()`: a success emits the refresh and ends the poll; a failure is counted
        and ends the poll once the count exceeds the bound. */
    method Check(satisfied: bool)
      requires Valid() && !finished
      modifies this
      ensures Valid()
      ensures satisfied ==> finished && refreshes == 1 && tried == old(tried)
      ensures !satisfied ==> refreshes == 0 && tried == old(tried) + 1 && finished == (tried > times)
    {
      if satisfied {
        refreshes := refreshes + 1;
        finished := true;
        return;
      }
      tried := tried + 1;
      if tried > times {
        finished := true;
        return;
      }
    }
  }

  /** What remains of the poll, as seen from the state `p` is in. */
  ghost function Remaining(p: PollState, satisfied: nat -> bool): PollResult
    reads p
    requires p.Valid()
  {
    if p.finished then PollResult(p.Checks(), p.refreshes)
    else
      var rest := RunFrom(p.times, satisfied, p.tried);
      PollResult(p.tried + rest.checks, rest.refreshes)
  }

  /** The timer-driven variant: each check schedules the next until the poll ends. */
  method PollScheduled(times: nat, satisfied: nat -> bool) returns (checks: nat, refreshes: nat)
    ensures PollResult(checks, refreshes) == Outcome(times, satisfied)
  {
    var p := new PollState(times);
    while !p.finished
      invariant p.Valid() && p.times == times
      invariant Remaining(p, satisfied) == Outcome(times, satisfied)
      decreases if p.finished then 0 else times + 1 - p.tried
    {
      p.Check(satisfied(p.tried));
    }
    return p.Checks(), p.refreshes;
  }

  /** The awaited variant: each check awaits the next one before returning. */
  method PollAwaited(times: nat, satisfied: nat -> bool) returns (checks: nat, refreshes: nat)
    ensures PollResult(checks, refreshes) == Outcome(times, satisfied)
  {
    var p := new PollState(times);
    AwaitCheck(p, satisfied);
    return p.Checks(), p.refreshes;
  }

  /** One awaited check followed, while the poll goes on, by the next one. */
  method AwaitCheck(p: PollState, satisfied: nat -> bool)
    requires p.Valid() && !p.finished
    modifies p
    ensures p.Valid() && p.finished
    ensures PollResult(p.Checks(), p.refreshes) == old(Remaining(p, satisfied))
    decreases p.times + 1 - p.tried
  {
    p.Check(satisfied(p.tried));
    if !p.finished {
      AwaitCheck(p, satisfied);
    }
  }

  // ---------------------------------------------------------------------------
  // The three polls of the playground commands.

  /** The default bounds: 30 for the running poll, 10 for the two stopped polls. */
  const RunningPollTimes: nat := 30
  const StoppedPollTimes: nat := 10

  /** With the default bounds, the running poll makes at most 31 checks and the stopped
      polls at most 11, each emitting at most one refresh. */
  lemma DefaultPollBounds(display: nat -> Option<ExecResult>, listing: nat -> Option<ExecResult>)
    ensures var r := Outcome(RunningPollTimes, (n: nat) => Displays(display(n)));
      1 <= r.checks <= 31 && r.refreshes <= 1
    ensures var r := Outcome(StoppedPollTimes, (n: nat) => !IsRunning(listing(n)));
      1 <= r.checks <= 11 && r.refreshes <= 1
  {
    OutcomeBounds(RunningPollTimes, (n: nat) => Displays(display(n)));
    OutcomeBounds(StoppedPollTimes, (n: nat) => !IsRunning(listing(n)));
  }

  /** `loopCheckPlayground`: polls `displayPlayground` until it yields an instance map. */
  method LoopCheckPlayground(times: nat, display: nat -> Option<ExecResult>) returns (checks: nat, refreshes: nat)
    ensures PollResult(checks, refreshes) == Outcome(times, (n: nat) => Displays(display(n)))
  {
    checks, refreshes := PollScheduled(times, (n: nat) => Displays(display(n)));
  }

  /** `loopCheckPlaygroundStop`: polls `checkPlaygroundRun` until it reports not running. */
  method LoopCheckPlaygroundStop(times: nat, listing: nat -> Option<ExecResult>) returns (checks: nat, refreshes: nat)
    ensures PollResult(checks, refreshes) == Outcome(times, (n: nat) => !IsRunning(listing(n)))
  {
    checks, refreshes := PollScheduled(times, (n: nat) => !IsRunning(listing(n)));
  }

  /** `waitPlaygroundStop`: the same poll, awaited by its caller. */
  method WaitPlaygroundStop(times: nat, listing: nat -> Option<ExecResult>) returns (checks: nat, refreshes: nat)
    ensures PollResult(checks, refreshes) == Outcome(times, (n: nat) => !IsRunning(listing(n)))
  {
    checks, refreshes := PollAwaited(times, (n: nat) => !IsRunning(listing(n)));
  }
}
