# Retry with Fibonacci backoff, and random identifiers

This project is a Dafny model of two small Go packages.

The retry package calls a user function until one of four things happens: it
succeeds, it fails with an error that is not marked retryable, the retry
budget runs out, or the context is cancelled. Between calls it waits for a
delay drawn from a Fibonacci backoff. The delays are base, 2·base, 3·base,
5·base, 8·base and so on, and they stick at `math.MaxInt64` once the int64
sum overflows. The random package builds identifiers over a 62-character
alphabet and picks numbers in a half-open range.

Files:

- `go_types.dfy` (module `GoTypes`): Go's `int64` and `uint64`, explicit
  two's-complement wrap-around, and an `Option` type.
- `retry_errors.dfy` (module `RetryErrors`) covers Go `error` values:
  - the `retryableError` mark and its `Unwrap` and `Error` methods;
  - the `errors.As` search for a mark along the wrapping chain.
- `retry.dfy` (module `Retry`):
  - the `backoff` struct, as class `Backoff`, with its two closures as
    methods (`DefaultNext`, and `Next` for the budgeted closure);
  - the `do` loop as method `Do`;
  - `RetryHandle`;
  - the results-per-call specification `Outcome`;
  - the two test-table cases.
- `random.dfy` (module `Random`): `RandomString` and `RandomNumber`.

How the inputs are modelled:

- The user function is `f: nat -> Error`, its result on the i-th call.
- The context is modelled by which of its observations find it cancelled. Observation `TopCheck(k)` is the
  select before call k. `PriorityCheck(k)` is the select after the backoff hands out a delay. `TimerCheck(k)` is the race against the timer. The
  parameter `ctxErr` is the error that `ctx.Err()` returns.
- Random draws are inputs.
- The ghost out-parameter `waits` lists the delays the backoff handed out,
  in order.

## Model

| member | source | states |
|---|---|---|
| GoTypes.WrapInt64 | retry/retry.go:51 | the int64 result of a sum is congruent to the exact sum modulo 2^64, and equals it when it fits |
| GoTypes.SumWrapsNegative | retry/retry.go:51-55 | with a ≥ 0 and b > 0, the Go test `a + b <= 0` holds exactly when the exact sum exceeds MaxInt64; the wrapped value is the sum, or the sum minus 2^64 |
| RetryErrors.Unwrap | retry/retry.go:95-98 | unwrapping a mark gives the error it marks (possibly nil); a wrapper gives its cause; nil and errors without a cause unwrap to nil |
| RetryErrors.RetryableError | retry/retry.go:87-98 | a nil error stays nil and anything else is marked; `Unwrap` of the result gives back the argument; `errors.As` finds the new mark itself |
| RetryErrors.Message | retry/retry.go:100-106 | the text of a marked error starts with "retryable: ", and a mark around nil reads "retryable: <nil>" |
| RetryErrors.MessageOfRetryable | retry/retry.go:100-106 | the text of a marked non-nil error is "retryable: " followed by the text of the error it marks |
| RetryErrors.Chain | retry/retry.go:124-125 | the unwrap chain that `errors.As` walks is empty only for nil, starts with the error, has no nil link, and each link is `Unwrap` of the previous one, and the last link unwraps to nil, so the chain runs to its end |
| RetryErrors.AsRetryable | retry/retry.go:124-125 | what `errors.As(err, &rerr)` stores in `rerr` when it succeeds is always a retryable mark (the first one on the chain, by AsRetryableFindsFirst) |
| RetryErrors.AsRetryableFindsFirst | retry/retry.go:124-127 | `errors.As` finds nothing exactly when no link of the chain is a mark, and otherwise finds the first mark on the chain |
| RetryErrors.RetryableCause | retry/retry.go:129-131 | the error returned when the budget is spent is `Unwrap` of the mark that `errors.As` found |
| RetryErrors.RetryableRoundTrip | retry/retry.go:88-98 | marking a non-nil error makes it retryable, and the cause recovered from the mark is the original error |
| RetryErrors.RetryableThroughWrappers | retry/retry.go:124-131 | a mark is found however many wrappers surround it, and its cause is still the marked error |
| Retry.CappedDelayMonotone | retry/retry.go:51-58 | the delays the backoff hands out never decrease, overflow or not |
| Retry.DelaysStrictlyIncrease | retry/retry.go:51-58 | while base·Fib stays inside the int64 range, each delay is strictly larger than the one before |
| Retry.CappedStaysCapped | retry/retry.go:53-55 | once a delay is MaxInt64, every later delay is MaxInt64 |
| Retry.FirstDelays | retry/retry.go:37-39 | starting from state (0, base), the first five delays are base, 2·base, 3·base, 5·base and 8·base |
| Retry.FirstFiveDelays | retry/retry.go:37-39 | the sequence of the first five delays is [base, 2·base, 3·base, 5·base, 8·base] |
| Retry.Backoff.constructor | retry/retry.go:37-39 | a new backoff has state (0, base), no attempts yet, and satisfies the Fibonacci invariant |
| Retry.Backoff.DefaultNext | retry/retry.go:46-62 | it never asks to stop; delay number g is CappedDelay(base, g); on overflow it hands out MaxInt64 and leaves the state alone, otherwise the state moves from (a, b) to (b, a+b) and the delay is a+b; the invariant is kept |
| Retry.Backoff.SetMaxRetry | retry/retry.go:64-65 | it sets the retry budget |
| Retry.Backoff.Next | retry/retry.go:64-81 | it stops exactly when `attempt >= max`, returning 0 and changing nothing; otherwise it counts one attempt and hands out the next Fibonacci delay as `DefaultNext` does |
| Retry.OutcomeOfCancelledTop | retry/retry.go:111-116 | cancellation seen before call n ends the run with `ctx.Err()` after n calls and n delays |
| Retry.OutcomeOfFinalResult | retry/retry.go:118-127 | a nil result, or an error that is not retryable, is returned as is, and the backoff is not consulted for it |
| Retry.OutcomeOfSpentBudget | retry/retry.go:129-132 | a retryable error that meets a spent budget returns the cause of its mark |
| Retry.OutcomeOfCancelledWait | retry/retry.go:134-148 | cancellation seen after a delay was handed out, either at the priority check or during the wait, returns `ctx.Err()` |
| Retry.OutcomeUnique | retry/retry.go:109-150 | the result of `do` and the number of calls are determined by the inputs: at most one outcome fits |
| Retry.CancelledUpFront | retry/retry.go:111-116 | a context that is already cancelled means zero calls and `ctx.Err()` |
| Retry.FirstCallDecides | retry/retry.go:118-127 | if the first call returns nil or an error that is not retryable, the function runs exactly once and that result comes back |
| Retry.Do | retry/retry.go:109-150 | the result and call count satisfy `Outcome` for the budget left: at most budget+1 calls, every call on a live context, each repeat after a retryable error and a full wait, and the right exit value. `attempt` and the backoff's count of delays handed out both grow by one per delay, so the Fibonacci state afterwards is the one reached after those delays; the delays are consecutive capped Fibonacci multiples of base |
| Retry.RetryHandle | retry/retry.go:32-44 | a non-positive base is rejected with "base is invalid" before any call; otherwise the run is an `Outcome` with budget maxRetry, at most maxRetry+1 calls, and delays base, 2·base, 3·base, … (capped) |
| Retry.SucceedsOnFirstCall | retry/retry_test.go:22-34 | with maxRetry 2 and a function returning nil, the result is nil after one call |
| Retry.NoRetriesAllowed | retry/retry_test.go:35-47 | with maxRetry 0 and a function returning a marked error, the unmarked error comes back after one call |
| Random.AlphabetIndexing | random/random.go:8-11 | `lenChar` is the length of `idChars`, and every index below it picks the character at that position (digits, then upper case, then lower case) |
| Random.AlphabetDistinct | random/random.go:9 | the alphabet has no repeated character |
| Random.RandomString | random/random.go:13-21 | the string has the requested length, and character i is `idChars[draw i]`, so it lies in the alphabet and determines its draw |
| Random.RandomNumberAsWritten | random/random.go:23-26 | the code as written panics exactly when the wrapped int64 difference `max - min` is not positive; otherwise, with min < max, the result lies in [min, max) |
| Random.WideRangePanics | random/random.go:25 | for min < max with max − min above MaxInt64, the code as written panics |
| Random.WideRangeExample | random/random.go:25 | min = -1 with max = MaxInt64 is such a range |
| Random.RandomNumber | random/random.go:23-26 | the intended function: for min < max the result lies in [min, max) and is min plus the draw |
| Random.RandomNumberCoversRange | random/random.go:23-26 | every value in [min, max) is produced by exactly the draw v − min |
| Random.AsWrittenAgreesOnNarrowRanges | random/random.go:25 | when max − min fits in an int64, the code as written and the intended function agree |

## Left out

- The compare-and-swap loop in `defaultNext` (retry/retry.go:48-60) is
  modelled sequentially. The swap always succeeds at once, so the loop body
  runs once. Concurrent callers are not modelled.
- The mutex in the budgeted closure is not modelled. The stop path at
  retry/retry.go:67-69 is modelled by `Next`, but the lock it leaves held
  is not: the model has no lock. `do` never calls `next` again after a
  stop, so a sequential run cannot see the missing unlock.
- The `next` field of type `BackoffFunc` is not modelled as a field. The two
  closures it can hold are the methods `DefaultNext` and `Next`.
  `RetryHandle` always installs the budgeted one, so `Do` calls `Next`.
- Retry.Backoff.Next: the second stop test (retry/retry.go:75-77) is left
  out. It can never fire, because `DefaultNext` is proved never to stop.
- Timers, real time and channel selects are left out. Contexts appear only
  as observations that find them cancelled or not, plus the error that
  `ctx.Err()` returns. When the timer and the context are both ready,
  either may win, and the model allows both.
- The user function's context argument and any side effects are left out.
  Only its result on each call is modelled.
- Errors compare by value. Go's `errors.New` gives pointer identity, which
  is not modelled.
- `errors.As` is modelled only for single-cause unwrap chains. Custom `As`
  methods and multi-error `Unwrap() []error` are not modelled. Wrappers
  other than the package's mark carry their own fixed text.
- A mark around nil (`Retryable(Nil)`) can be built in the model.
  `RetryableError` never builds one. If `errors.As` finds one, its cause
  comes back as nil, as in the source.
- `rand.Seed(time.Now().UnixNano())` is left out. Both random functions
  receive their draws as inputs, and the draws are required to lie in the
  range `rand.Intn` and `rand.Int63n` promise.
- Random.RandomString: requires a non-negative length, because `make`
  panics on a negative one. The result is a string of characters rather
  than the source's byte slice converted to a string. All characters are
  ASCII, so the two agree.
- The comment at retry/retry.go:30 asks for `maxRetry > 0`, but the code
  accepts 0, and the model follows the code.
- async/worker.go, tasksync/sync.go, httputils/body.go, securities and
  main.go are not part of this model.

## Findings

| source | as written | input that shows it | evidently intended | confidence | as-written member | corrected member |
|---|---|---|---|---|---|---|
| random/random.go:25 | `rand.Int63n(max-min) + min` takes `max - min` in int64, where it wraps to a negative number for ranges wider than MaxInt64, and `rand.Int63n` then panics | min = -1, max = MaxInt64: `max - min` is 2^63, which wraps to MinInt64 | a number in [min, max) for every min < max | not executed; high for the wrap, by int64 semantics | Random.RandomNumberAsWritten, Random.WideRangeExample | Random.RandomNumber |
