/** The synchronous retry loop, Retry and RetryNotify: call the operation,
    return on success, ask the policy on failure, give up with the last
    failure on Stop, otherwise notify (when a notifier is given) and call
    again after the wait. */
module Retry {
  import opened BackOff
  import opened Operations

  /** A finished run: what it returned, how often it called the operation
      and how often it called the notifier. */
  datatype Run = Run(result: Outcome, calls: nat, notified: nat)

  /** An attempt after which the loop makes no further call. */
  predicate EndsRun(b: Policy, a: Attempt)
  {
    a.outcome.Success? || NextDelay(b).StopSignal?
  }

  /** The index of the attempt at which a run under `b` stops calling. */
  function LastCall(b: Policy, ops: seq<Attempt>): nat
  {
    FirstWhere(ops, a => EndsRun(b, a))
  }

  /** The run ends within the attempts `ops` describes. Outside this, the
      source retries forever. */
  predicate Ends(b: Policy, ops: seq<Attempt>)
  {
    LastCall(b, ops) < |ops|
  }

  /** What a run returns: it stops at the first attempt that succeeds or
      after which the policy says Stop, returns that attempt's outcome,
      has called the operation once per attempt up to it and, with a
      notifier, has notified once per attempt before it. */
  function Expected(b: Policy, ops: seq<Attempt>, notify: bool): Run
    requires Ends(b, ops)
  {
    var k := LastCall(b, ops);
    Run(ops[k].outcome, k + 1, if notify then k else 0)
  }

  /** RetryNotify(operation, b, notify); `notify` says whether a notifier
      is given (false for nil). */
  method RetryNotify(ops: seq<Attempt>, b: Policy, notify: bool)
    returns (result: Outcome, calls: nat, notified: nat)
    requires Ends(b, ops)
    ensures Run(result, calls, notified) == Expected(b, ops, notify)
  {
    calls, notified := 0, 0;
    while true
      invariant calls <= LastCall(b, ops)
      invariant forall j :: 0 <= j < calls ==> !EndsRun(b, ops[j])
      invariant notified == if notify then calls else 0
      decreases LastCall(b, ops) - calls
    {
      var a := ops[calls];
      calls := calls + 1;
      if a.outcome.Success? {
        FirstWhereIs(ops, x => EndsRun(b, x), calls - 1);
        return Success, calls, notified;
      }
      var next := NextDelay(b);
      if next.StopSignal? {
        FirstWhereIs(ops, x => EndsRun(b, x), calls - 1);
        return a.outcome, calls, notified;
      }
      if notify {
        notified := notified + 1;
      }
      // Waiting next.duration has no effect in the model.
    }
  }

  /** Retry(operation, b): RetryNotify without a notifier. */
  method Retry(ops: seq<Attempt>, b: Policy) returns (result: Outcome, calls: nat)
    requires Ends(b, ops)
    ensures Run(result, calls, 0) == Expected(b, ops, false)
  {
    var notified;
    result, calls, notified := RetryNotify(ops, b, false);
  }

  /** Every run shape: the operation's calls are a prefix of `ops`; every
      call but the last failed under a policy that did not stop, no call
      follows a success, the result is the last call's outcome, and each
      retried failure, and only those, was notified. */
  lemma RunShape(b: Policy, ops: seq<Attempt>, notify: bool)
    requires Ends(b, ops)
    ensures var r := Expected(b, ops, notify);
      1 <= r.calls <= |ops| &&
      r.result == ops[r.calls - 1].outcome &&
      (r.result.Failure? ==> b.Stop?) &&
      (forall j :: 0 <= j < r.calls - 1 ==> ops[j].outcome.Failure? && !b.Stop?) &&
      r.notified == (if notify then r.calls - 1 else 0)
  {
  }

  /** An operation failing until its n-th call, under any policy that does
      not stop, succeeds after exactly n calls and n - 1 notifications. */
  lemma SucceedsOnNthCall(b: Policy, n: nat, notify: bool)
    requires n >= 1 && !b.Stop?
    ensures Ends(b, SucceedsOn(n))
    ensures Expected(b, SucceedsOn(n), notify) == Run(Success, n, if notify then n - 1 else 0)
  {
  }

  /** Under StopBackOff the operation is called exactly once, the notifier
      never, and the run returns what that one call returned. */
  lemma StopCallsOnce(ops: seq<Attempt>, notify: bool)
    requires |ops| >= 1
    ensures Ends(Stop, ops)
    ensures Expected(Stop, ops, notify) == Run(ops[0].outcome, 1, 0)
  {
  }

  /** Leaving out the notifier (nil) changes nothing but the notify count. */
  lemma NilNotifier(b: Policy, ops: seq<Attempt>)
    requires Ends(b, ops)
    ensures Expected(b, ops, false) == Expected(b, ops, true).(notified := 0)
  {
  }

  /** TestRetry: fails until the 3rd call, exponential back-off: success
      after exactly 3 calls. */
  lemma RetryScenario()
    ensures Ends(Exponential, SucceedsOn(3))
    ensures Expected(Exponential, SucceedsOn(3), false) == Run(Success, 3, 0)
  {
  }

  /** TestRetryNotifyWithStop: an always-failing operation under
      StopBackOff with a nil notifier is called once and its error is
      returned. */
  lemma RetryNotifyWithStopScenario(ops: seq<Attempt>)
    requires |ops| >= 1 && ops[0] == Fails
    ensures Ends(Stop, ops)
    ensures Expected(Stop, ops, false) == Run(Failure(OpError("error")), 1, 0)
  {
  }

  /** TestRetryNotifyWithNotifier: fails once under ZeroBackOff with a
      counting notifier: 2 calls, 1 notification, success. */
  lemma RetryNotifyWithNotifierScenario()
    ensures Ends(Zero, SucceedsOn(2))
    ensures Expected(Zero, SucceedsOn(2), true) == Run(Success, 2, 1)
  {
  }
}
