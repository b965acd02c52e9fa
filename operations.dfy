/** The operation a run retries, seen as the sequence of what its
    successive calls do, and what a run of it returns. */
module Operations {

  /** A Go `error` value that can reach the caller: one an operation
      returned, or the reason a context reports once it is cancelled. */
  datatype Error = OpError(msg: string) | ContextCanceled

  /** The value of an `error` result: nil (success) or an error. */
  datatype Outcome = Success | Failure(error: Error)

  /** A side effect an operation's closure performs while it runs:
      nothing, calling the context's cancel(), or calling ticker.Stop(). */
  datatype Effect = NoEffect | CancelContext | StopTicker

  /** What one call of the operation does. */
  datatype Attempt = Attempt(outcome: Outcome, effect: Effect)

  /** A call returning errors.New("error"). */
  const Fails: Attempt := Attempt(Failure(OpError("error")), NoEffect)

  /** A call returning nil. */
  const Succeeds: Attempt := Attempt(Success, NoEffect)

  /** The operation that fails until its n-th call, which succeeds. */
  function SucceedsOn(n: nat): (ops: seq<Attempt>)
    requires n >= 1
    ensures |ops| == n && ops[n - 1] == Succeeds
    ensures forall j :: 0 <= j < n - 1 ==> ops[j] == Fails
  {
    if n == 1 then [Succeeds] else [Fails] + SucceedsOn(n - 1)
  }

  /** The position of the first element of `s` at which `ends` holds,
      or |s| when there is none. */
  function FirstWhere<T>(s: seq<T>, ends: T -> bool): (k: nat)
    ensures k <= |s|
    ensures forall j :: 0 <= j < k ==> !ends(s[j])
    ensures k < |s| ==> ends(s[k])
  {
    if |s| == 0 then 0
    else if ends(s[0]) then 0
    else 1 + FirstWhere(s[1..], ends)
  }

  /** A position where `ends` holds and before which it never does is the
      one FirstWhere finds. */
  lemma FirstWhereIs<T>(s: seq<T>, ends: T -> bool, k: nat)
    requires k < |s| && ends(s[k])
    requires forall j :: 0 <= j < k ==> !ends(s[j])
    ensures FirstWhere(s, ends) == k
  {
  }
}
