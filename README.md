# Retry with back-off: a Dafny model

A model of the retry engine of the Go package `backoff`, as its tests pin it down:

- a back-off policy (exponential, constant, zero, stop) answers "wait" or "stop" after each failed attempt;
- `Retry` / `RetryNotify` call an operation until it succeeds or the policy says Stop, notifying each retried failure;
- `RetryNotifyWithContext` adds a cancellation signal, checked before the first call and during the wait after each failure;
- `NewTicker` turns a policy into a stream of ticks (the first at once) that closes on Stop or on `Stop()`, consumed by a `for range ticker.C` loop.

The implementation files of the package are not part of this model. Only its three test files are. The model therefore states the behaviour those tests assert, generalised to any number of calls and any policy of the same kind. Where the tests are silent it makes the choices listed below.

Modelling choices:

- The operation is the sequence of what its successive calls do (`Operations.Attempt`): the error it returns (nil or an error) and the side effect its closure has. The effect is nothing, calling the context's `cancel()`, or calling `ticker.Stop()`.
- Each loop is a method with a `while` loop (`Retry.RetryNotify`, `RetryContext.RetryNotifyWithContext`, `Tickers.ConsumeTicks`). It returns what the run returns, how often the operation was called and how often the notifier was called.
- Each method is proved equal to a closed-form specification (`Expected`) in its module. That specification says a run stops at the first attempt that ends it (`FirstWhere`).
- The scenario lemmas prove the tests' assertions, in general form, from `Expected`.
- The ticker is a class with `closed`, `stopped` and `ticks` fields. Its `Receive` and `Stop` methods are what the consumer loop drives.

Choices where the tests are silent:

- A failure whose run then ends by cancellation has been notified. The loop calls the notifier before the wait at which it sees the cancellation. So `RetryContext.Expected` counts k + 1 notifications when the (k+1)-th call cancels. No test checks this, since TestRetryWithCancel passes a nil notifier (retry_with_context_test.go:42). The opposite reading is possible: the notifier might never see a failure that cancellation ends.
- A call that cancels the context and returns nil makes the run return success. The success is decided before any wait that could observe the cancellation.
- A consumer that calls `Stop()` and then fails ends its loop with that failure, because the stream is closed. TestTickerStop does not show this: its `Stop()` call returns nil (ticker_test.go:69-70), so its loop ends by `break`.

What the tests themselves check, read against the lemmas:

- In TestRetryWithSuccess, `case 2` (retry_with_context_test.go:60-61) can never run, because `called` grows only in `case 0`. The test's "not called more than twice" check therefore cannot fail. `RetryContext.SucceedsWithLiveContext` states the call count outright.
- TestTickerStop ends by `break` on nil, so it does not show that `Stop()` closes the stream. `Tickers.StopFromConsumer` states what happens after `Stop()` for either outcome of that call.

Files: `backoff.dfy` (policies), `operations.dfy` (operations and outcomes), `retry.dfy`, `retry_context.dfy`, `ticker.dfy`.

## Model

| member | source | states |
|---|---|---|
| BackOff.NextDelay | retry_test.go:44-51 | a policy gives up exactly when it is StopBackOff, from the first call; a constant policy waits its interval, zero waits 0 |
| Operations.SucceedsOn | retry_test.go:15-26 | the operation that fails on calls 1..n-1 and succeeds on call n |
| Retry.RetryNotify | retry_test.go:37-85 | the loop's result, call count and notify count are exactly those of the closed-form run: stop at the first success or at the first failure after which the policy stops |
| Retry.Retry | retry_test.go:28-34 | Retry is RetryNotify with a nil notifier: same result and calls |
| Retry.RunShape | retry_test.go:19-34 | calls are a prefix of the operation; every call but the last failed; no call follows a success; a failure is returned only under Stop; notifications equal the retried failures |
| Retry.SucceedsOnNthCall | retry_test.go:10-34 | failing until call n under a non-stopping policy: success after exactly n calls and n-1 notifications |
| Retry.StopCallsOnce | retry_test.go:37-51 | under StopBackOff the operation is called once, never notified, and its result is returned |
| Retry.NilNotifier | retry_test.go:44 | a nil notifier changes nothing but the notify count |
| Retry.RetryScenario | retry_test.go:10-35 | exponential back-off, success on the 3rd call: success and exactly 3 calls |
| Retry.RetryNotifyWithStopScenario | retry_test.go:37-52 | StopBackOff, nil notifier, failing call: 1 call and a non-nil error |
| Retry.RetryNotifyWithNotifierScenario | retry_test.go:54-85 | ZeroBackOff, fail once: 2 calls, 1 notification, success |
| RetryContext.Context.Err | retry_with_context_test.go:18-24 | ctx.Err() is nil exactly while live and context.Canceled once cancelled |
| RetryContext.RetryNotifyWithContext | retry_with_context_test.go:12-94 | the loop's result, call and notify counts and the final context are exactly those of the closed-form run: cancelled before start gives the reason with no call; otherwise Stop wins over cancellation, and a cancellation seen at the wait gives the reason |
| RetryContext.CanceledBeforeStart | retry_with_context_test.go:12-25 | an already-cancelled context: no call, no notification, result equals ctx.Err() |
| RetryContext.CancelDuringFirstFailure | retry_with_context_test.go:27-46 | first call cancels and fails with any error, non-stopping policy: 1 call, result is the cancellation reason and equals ctx.Err() afterwards |
| RetryContext.CancelDuringFailure | retry_with_context_test.go:27-46 | after m plain failures, a call that cancels and fails, non-stopping policy: m+1 calls, m+1 notifications with a notifier, the cancellation reason, equal to ctx.Err() afterwards |
| RetryContext.SucceedsWithLiveContext | retry_with_context_test.go:48-74 | live context, failing until call n, with or without notifier: success after exactly n calls; the context stays live so the result equals ctx.Err() |
| RetryContext.StopPrecedesCancel | retry_with_context_test.go:76-94 | StopBackOff with a live context: 1 call and that call's result, even if that call cancelled the context |
| RetryContext.LiveContextIsRetry | retry_with_context_test.go:48-74 | with a live context never cancelled, the context-aware loop is exactly the plain RetryNotify loop |
| Tickers.Ticker.constructor | ticker_test.go:28-29 | NewTicker: running, nothing received, first tick ready |
| Tickers.Ticker.Receive | ticker_test.go:32 | a receive yields a tick exactly when the stream is open; after the tick the stream closes exactly when the policy says Stop |
| Tickers.Ticker.Stop | ticker_test.go:68-70 | Stop() marks the ticker stopped and closes the stream, even from inside the consumer |
| Tickers.ConsumeTicks | ticker_test.go:28-45 | the consumer loop ends with the error and call count of the closed-form run, and received exactly one tick per call |
| Tickers.SucceedsOnNthTick | ticker_test.go:10-46 | non-stopping policy, failing until call n: no error after exactly n calls |
| Tickers.StopFromConsumer | ticker_test.go:59-95 | Stop() called on tick m+1 after m failures: exactly m+1 calls, ending with that call's outcome |
| Tickers.TickerStopScenario | ticker_test.go:48-96 | constant one-second back-off, Stop() on the 2nd tick: 2 calls, no error |
| Tickers.StopBackOffOneTick | ticker_test.go:109-145 | under StopBackOff exactly one tick and one call, whose outcome is left in err |
| Tickers.TickerStopBackOffScenario | ticker_test.go:98-146 | StopBackOff with the same operation: 1 call and the error still set |
| Tickers.ConsumerIsRetry | ticker_test.go:28-39 | a consumer that never calls Stop() makes the same calls and ends with the same error as Retry under the same policy |

## Left out

- Real time: waits, timers and the length of delays have no effect in the model.
- BackOff.NextDelay: the exponential policy's delay length is not modelled. It is returned as 0. The float multiplier, the jitter and the elapsed-time cutoff are random or floating point, and their code is not part of this model.
- BackOff.NextDelay: policies are stateless values. The exponential policy's internal state and `Reset()` are not modelled, so the horizon of a run never reaches its elapsed-time cutoff.
- Runs that never end (an operation that always fails under a policy that never stops) cannot be written as a terminating method. Each loop requires `Ends`: its run finishes within the given attempts.
- The notifier's arguments (the error and the delay) are not recorded. Only how often it is called is.
- Context: only "cancelled or not" is modelled, with `context.Canceled` as the reason. Deadlines and the context package's internals are left out.
- Tickers.Ticker: the ticker's goroutine, the channel hand-off and the race between `Stop()` and a policy Stop are concurrency. Only the sequential tick / stop / close protocol the consumer sees is modelled.
- Logging (`log`, `t.Log`) and the test framework's reporting are left out.
