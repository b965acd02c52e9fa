/** RetryNotifyWithContext: the retry loop with a cancellation signal. The
    context is checked before the first call and while waiting after a
    failure; a Stop from the policy is decided first and wins. */
module RetryContext {
  import opened BackOff
  import opened Operations
  import Retry

  /** The part of a context.Context the loop observes: whether cancel()
      has been called. */
  datatype Context = Context(canceled: bool)
  {
    /** ctx.Err(): nil while live, context.Canceled once cancelled. */
    function Err(): (r: Outcome)
      ensures r.Success? <==> !canceled
      ensures r.Failure? ==> r.error == ContextCanceled
    {
      if canceled then Failure(ContextCanceled) else Success
    }
  }

  /** An attempt (made with a live context) after which the loop makes no
      further call: it succeeded, the policy stops, or it cancelled the
      context, which the wait then observes. */
  predicate EndsRun(b: Policy, a: Attempt)
  {
    a.outcome.Success? || NextDelay(b).StopSignal? || a.effect == CancelContext
  }

  function LastCall(b: Policy, ops: seq<Attempt>): nat
  {
    FirstWhere(ops, a => EndsRun(b, a))
  }

  /** The run ends within `ops`, or makes no call at all. */
  predicate Ends(ctx: Context, b: Policy, ops: seq<Attempt>)
  {
    ctx.canceled || LastCall(b, ops) < |ops|
  }

  /** What a run returns, and the context once it returns. Already
      cancelled: the cancellation reason, no call. Otherwise the run stops
      at the first ending attempt: on success, success; on Stop, that
      attempt's failure; on a cancellation, the reason, after notifying
      that last failure too. */
  function Expected(ctx: Context, b: Policy, ops: seq<Attempt>, notify: bool): (Retry.Run, Context)
    requires Ends(ctx, b, ops)
  {
    if ctx.canceled then (Retry.Run(ctx.Err(), 0, 0), ctx)
    else
      var k := LastCall(b, ops);
      var after := Context(ops[k].effect == CancelContext);
      if ops[k].outcome.Success? || b.Stop? then
        (Retry.Run(ops[k].outcome, k + 1, if notify then k else 0), after)
      else
        (Retry.Run(after.Err(), k + 1, if notify then k + 1 else 0), after)
  }

  /** RetryNotifyWithContext(ctx, operation, b, notify); also returns the
      context as the caller sees it afterwards. */
  method RetryNotifyWithContext(ctx: Context, ops: seq<Attempt>, b: Policy, notify: bool)
    returns (result: Outcome, calls: nat, notified: nat, after: Context)
    requires Ends(ctx, b, ops)
    ensures (Retry.Run(result, calls, notified), after) == Expected(ctx, b, ops, notify)
  {
    calls, notified, after := 0, 0, ctx;
    if after.canceled {
      return after.Err(), calls, notified, after;
    }
    while true
      invariant !after.canceled
      invariant calls <= LastCall(b, ops)
      invariant forall j :: 0 <= j < calls ==> !EndsRun(b, ops[j])
      invariant notified == if notify then calls else 0
      decreases LastCall(b, ops) - calls
    {
      var a := ops[calls];
      calls := calls + 1;
      if a.effect == CancelContext {
        after := after.(canceled := true);
      }
      if a.outcome.Success? {
        FirstWhereIs(ops, x => EndsRun(b, x), calls - 1);
        return Success, calls, notified, after;
      }
      var next := NextDelay(b);
      if next.StopSignal? {
        FirstWhereIs(ops, x => EndsRun(b, x), calls - 1);
        return a.outcome, calls, notified, after;
      }
      if notify {
        notified := notified + 1;
      }
      // The wait for next.duration races the context; a context
      // cancelled by now wins.
      if after.canceled {
        FirstWhereIs(ops, x => EndsRun(b, x), calls - 1);
        return after.Err(), calls, notified, after;
      }
    }
  }

  /** TestRetryWithCanceledContext, for every policy, operation and
      notifier: nothing is called, and the result is ctx.Err(). */
  lemma CanceledBeforeStart(b: Policy, ops: seq<Attempt>, notify: bool)
    ensures Ends(Context(true), b, ops)
    ensures Expected(Context(true), b, ops, notify)
         == (Retry.Run(Failure(ContextCanceled), 0, 0), Context(true))
  {
  }

  /** TestRetryWithCancel: an operation whose first call cancels the
      context and fails with any error, under a policy that does not stop, is called once
      and the run returns the cancellation reason, not its error; that is
      ctx.Err() afterwards. */
  lemma CancelDuringFirstFailure(b: Policy, ops: seq<Attempt>, notify: bool)
    requires !b.Stop? && |ops| >= 1
    requires ops[0].outcome.Failure? && ops[0].effect == CancelContext
    ensures Ends(Context(false), b, ops)
    ensures var (run, after) := Expected(Context(false), b, ops, notify);
      run == Retry.Run(Failure(ContextCanceled), 1, if notify then 1 else 0) &&
      after.canceled && run.result == after.Err()
  {
  }

  /** A cancellation at any wait: after m plain failures, a call that
      cancels the context and fails ends the run at the wait that
      follows it, with the cancellation reason, m + 1 calls and, with a
      notifier, m + 1 notifications. */
  lemma CancelDuringFailure(b: Policy, ops: seq<Attempt>, m: nat, notify: bool)
    requires !b.Stop? && m < |ops|
    requires forall j :: 0 <= j < m ==> ops[j] == Fails
    requires ops[m].outcome.Failure? && ops[m].effect == CancelContext
    ensures Ends(Context(false), b, ops)
    ensures var (run, after) := Expected(Context(false), b, ops, notify);
      run == Retry.Run(Failure(ContextCanceled), m + 1, if notify then m + 1 else 0) &&
      after.canceled && run.result == after.Err()
  {
    FirstWhereIs(ops, a => EndsRun(b, a), m);
  }

  /** TestRetryWithSuccess, for any n: with a live context and a policy
      that does not stop, an operation failing until its n-th call
      succeeds after exactly n calls; the context stays live, so the
      result equals ctx.Err() (nil). */
  lemma SucceedsWithLiveContext(b: Policy, n: nat, notify: bool)
    requires n >= 1 && !b.Stop?
    ensures Ends(Context(false), b, SucceedsOn(n))
    ensures var (run, after) := Expected(Context(false), b, SucceedsOn(n), notify);
      run == Retry.Run(Success, n, if notify then n - 1 else 0) &&
      !after.canceled && run.result == after.Err()
  {
  }

  /** TestRetryWithStop: with a live context, StopBackOff calls the
      operation once and returns what it returned, even when that call
      cancelled the context: Stop precedes any wait. */
  lemma StopPrecedesCancel(ops: seq<Attempt>, notify: bool)
    requires |ops| >= 1
    ensures Ends(Context(false), Stop, ops)
    ensures Expected(Context(false), Stop, ops, notify).0 == Retry.Run(ops[0].outcome, 1, 0)
  {
  }

  /** With a live context that the operation never cancels, the loop is
      exactly the plain RetryNotify loop. */
  lemma LiveContextIsRetry(b: Policy, ops: seq<Attempt>, notify: bool)
    requires forall j :: 0 <= j < |ops| ==> ops[j].effect != CancelContext
    ensures Ends(Context(false), b, ops) == Retry.Ends(b, ops)
    ensures Retry.Ends(b, ops) ==>
      Expected(Context(false), b, ops, notify) == (Retry.Expected(b, ops, notify), Context(false))
  {
  }
}
