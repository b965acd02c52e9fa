/** Back-off policies, as the retry loop and the ticker consult them.
    Real time is not modelled: a delay is an opaque duration, and only
    whether a policy answers "wait" or "stop" affects a run. */
module BackOff {

  /** Durations in nanoseconds, as Go's time.Duration. */
  const Second: nat := 1_000_000_000

  /** The four policies the tests construct: NewExponentialBackOff(),
      NewConstantBackOff(d), &ZeroBackOff{} and &StopBackOff{}. */
  datatype Policy = Exponential | Constant(interval: nat) | Zero | Stop

  /** What NextBackOff answers: wait this long, or give up. */
  datatype Delay = Wait(duration: nat) | StopSignal

  /** The answer of a policy to "how long until the next attempt?".
      Within the horizon of a run, only StopBackOff ever gives up, and it
      does so from the very first call. */
  function NextDelay(b: Policy): (r: Delay)
    ensures r.StopSignal? <==> b.Stop?
    ensures b.Constant? ==> r.duration == b.interval
    ensures b.Zero? ==> r.duration == 0
  {
    match b
    case Exponential => Wait(0)
    case Constant(d) => Wait(d)
    case Zero => Wait(0)
    case Stop => StopSignal
  }
}
