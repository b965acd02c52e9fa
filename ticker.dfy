/** The ticker as its consumer sees it: an immediate first tick, one more
    tick after each wait the policy asks for, and a stream that closes
    when the policy says Stop or when Stop() is called. The consumer loop
    `for range ticker.C` runs the operation on each tick, breaks on
    success and continues on failure. */
module Tickers {
  import opened BackOff
  import opened Operations
  import Retry

  class Ticker {
    const policy: Policy
    /** ticker.C is closed: no further tick will be received. */
    var closed: bool
    /** Stop() has been called. */
    var stopped: bool
    /** Ticks received so far. */
    var ticks: nat

    /** Once stopped, always closed. Only documentation: no proof about the
        consumer loop needs it. */
    ghost predicate Valid()
      reads this
    {
      stopped ==> closed
    }

    /** NewTicker(b): running, with the first tick ready at once. */
    constructor (b: Policy)
      ensures Valid()
      ensures policy == b && !closed && !stopped && ticks == 0
    {
      policy := b;
      closed, stopped, ticks := false, false, 0;
    }

    /** One receive of `for range ticker.C`: the next tick, or false once
        the stream is closed. After handing a tick over, the ticker asks
        its policy for the next delay and closes the stream on Stop. */
    method Receive() returns (ok: bool)
      requires Valid()
      modifies this
      ensures Valid()
      ensures ok == !old(closed)
      ensures ticks == old(ticks) + (if ok then 1 else 0)
      ensures closed == (old(closed) || NextDelay(policy).StopSignal?)
      ensures stopped == old(stopped)
    {
      if closed {
        return false;
      }
      ticks := ticks + 1;
      var next := NextDelay(policy);
      if next.StopSignal? {
        closed := true;
      }
      return true;
    }

    /** Stop(): idempotent; closes the stream if it is still open. */
    method Stop()
      requires Valid()
      modifies this
      ensures Valid()
      ensures stopped && closed && ticks == old(ticks)
    {
      stopped := true;
      closed := true;
    }
  }

  /** An attempt after which the consumer receives no further tick: it
      succeeded (break), it called ticker.Stop(), or the policy stopped
      the ticker after the tick that triggered it. */
  predicate EndsRun(b: Policy, a: Attempt)
  {
    a.outcome.Success? || a.effect == StopTicker || NextDelay(b).StopSignal?
  }

  function LastCall(b: Policy, ops: seq<Attempt>): nat
  {
    FirstWhere(ops, a => EndsRun(b, a))
  }

  predicate Ends(b: Policy, ops: seq<Attempt>)
  {
    LastCall(b, ops) < |ops|
  }

  /** What the consumer loop leaves in `err`, and how often it called the
      operation: it stops at the first ending attempt, holding that
      attempt's outcome. */
  function Expected(b: Policy, ops: seq<Attempt>): (Outcome, nat)
    requires Ends(b, ops)
  {
    var k := LastCall(b, ops);
    (ops[k].outcome, k + 1)
  }

  /** `ticker := NewTicker(b); for range ticker.C { if err = f(); err !=
      nil { continue }; break }`. Also returns how many ticks were
      received: one per call, so no tick is received after the last. */
  method ConsumeTicks(b: Policy, ops: seq<Attempt>) returns (err: Outcome, calls: nat, ticks: nat)
    requires Ends(b, ops)
    ensures (err, calls) == Expected(b, ops)
    ensures ticks == calls
  {
    var ticker := new Ticker(b);
    err, calls := Success, 0;
    var ok := ticker.Receive();
    while ok
      invariant ticker.Valid() && ticker.policy == b
      invariant ok ==> !ticker.stopped && ticker.closed == b.Stop? && ticker.ticks == calls + 1
      invariant ok ==> calls <= LastCall(b, ops)
      invariant ok ==> forall j :: 0 <= j < calls ==> !EndsRun(b, ops[j])
      invariant !ok ==> 1 <= calls && LastCall(b, ops) == calls - 1
      invariant !ok ==> ticker.ticks == calls && err == ops[calls - 1].outcome
      decreases LastCall(b, ops) - calls, ok
    {
      var a := ops[calls];
      calls := calls + 1;
      if a.effect == StopTicker {
        ticker.Stop();
      }
      err := a.outcome;
      if err.Success? {
        FirstWhereIs(ops, x => EndsRun(b, x), calls - 1);
        break;
      }
      ok := ticker.Receive();
      if !ok {
        FirstWhereIs(ops, x => EndsRun(b, x), calls - 1);
      }
    }
    ticks := ticker.ticks;
  }

  /** TestTicker, for any n: exponential (or any non-stopping) back-off,
      an operation failing until its n-th call: success after n calls. */
  lemma SucceedsOnNthTick(b: Policy, n: nat)
    requires n >= 1 && !b.Stop?
    ensures Ends(b, SucceedsOn(n))
    ensures Expected(b, SucceedsOn(n)) == (Success, n)
  {
  }

  /** The consumer calling Stop() on tick m + 1, after m plain failures,
      receives no further tick: m + 1 calls, ending with that call's
      outcome, whatever a non-stopping policy would have offered. */
  lemma StopFromConsumer(b: Policy, ops: seq<Attempt>, m: nat)
    requires !b.Stop? && m < |ops| && ops[m].effect == StopTicker
    requires forall j :: 0 <= j < m ==> ops[j] == Fails
    ensures Ends(b, ops)
    ensures Expected(b, ops) == (ops[m].outcome, m + 1)
  {
  }

  /** The operation of TestTickerStop and TestTickerStopBackoff: fails,
      then calls ticker.Stop() and returns nil, then returns nil. */
  const StopOnSecond: seq<Attempt> := [Fails, Attempt(Success, StopTicker), Succeeds]

  /** TestTickerStop: constant one-second back-off, Stop() on the 2nd
      tick: 2 calls, no error. */
  lemma TickerStopScenario()
    ensures Ends(Constant(Second), StopOnSecond)
    ensures Expected(Constant(Second), StopOnSecond) == (Success, 2)
  {
    StopFromConsumer(Constant(Second), StopOnSecond, 1);
  }

  /** Under StopBackOff exactly one tick arrives, then the stream closes:
      one call, whose outcome the consumer is left holding. */
  lemma StopBackOffOneTick(ops: seq<Attempt>)
    requires |ops| >= 1
    ensures Ends(Stop, ops)
    ensures Expected(Stop, ops) == (ops[0].outcome, 1)
  {
  }

  /** TestTickerStopBackoff: 1 call, and the error is still set. */
  lemma TickerStopBackOffScenario()
    ensures Ends(Stop, StopOnSecond)
    ensures Expected(Stop, StopOnSecond) == (Failure(OpError("error")), 1)
  {
  }

  /** A consumer that never calls Stop() sees the same calls and the same
      final error as the synchronous Retry loop under the same policy:
      both are consumers of one policy contract. */
  lemma ConsumerIsRetry(b: Policy, ops: seq<Attempt>)
    requires forall j :: 0 <= j < |ops| ==> ops[j].effect != StopTicker
    ensures Ends(b, ops) == Retry.Ends(b, ops)
    ensures Ends(b, ops) ==>
      Expected(b, ops) == (Retry.Expected(b, ops, false).result, Retry.Expected(b, ops, false).calls)
  {
  }
}
