/** The retry package: a Fibonacci backoff generator, a retry budget on top
    of it, and the `do` loop that calls the user's function until it
    succeeds, fails for good, runs out of budget or sees its context
    cancelled. */
module Retry {
  import opened GoTypes
  import opened RetryErrors

  /** Fibonacci numbers, Fib(0) = 0 and Fib(1) = 1. */
  function Fib(n: nat): nat
  {
    if n < 2 then n else Fib(n - 1) + Fib(n - 2)
  }

  lemma {:induction false} FibPositive(n: nat)
    requires 1 <= n
    ensures 1 <= Fib(n)
  {
    if 3 <= n {
      FibPositive(n - 1);
    }
  }

  lemma FibStrictlyIncreasing(n: nat)
    requires 2 <= n
    ensures Fib(n) < Fib(n + 1)
  {
    FibPositive(n - 1);
  }

  lemma {:induction false} FibMonotone(n: nat, m: nat)
    requires n <= m
    ensures Fib(n) <= Fib(m)
  {
    if n < m {
      FibMonotone(n, m - 1);
    }
  }

  /** The Fibonacci recurrence, scaled by the backoff base. */
  lemma ScaledFibStep(base: int, n: nat)
    ensures base * Fib(n + 2) == base * Fib(n) + base * Fib(n + 1)
  {
  }

  /** The delay that backoff step number n (counting from 0) hands out,
      when the generator starts from (0, base): base * Fib(n + 2), or
      MaxInt64 once that no longer fits in an int64. */
  function CappedDelay(base: int, n: nat): int
  {
    if base * Fib(n + 2) <= MaxInt64 then base * Fib(n + 2) else MaxInt64
  }

  /** Delays never shrink, overflow or not. */
  lemma CappedDelayMonotone(base: int, n: nat, m: nat)
    requires 0 < base && n <= m
    ensures CappedDelay(base, n) <= CappedDelay(base, m)
  {
    FibMonotone(n + 2, m + 2);
    var x, y := Fib(n + 2), Fib(m + 2);
    MulMonotone(base, x, y);
    assert base * x <= base * y;
  }

  lemma MulMonotone(c: int, x: int, y: int)
    requires 0 < c && x <= y
    ensures c * x <= c * y
  {
    assert c * y == c * x + c * (y - x);
  }

  /** Delays strictly increase as long as they do not overflow. */
  lemma DelaysStrictlyIncrease(base: int, n: nat)
    requires 0 < base && base * Fib(n + 3) <= MaxInt64
    ensures CappedDelay(base, n) < CappedDelay(base, n + 1)
  {
    FibStrictlyIncreasing(n + 2);
    var x, y := Fib(n + 2), Fib(n + 3);
    MulStrictlyMonotone(base, x, y);
    assert base * x < base * y <= MaxInt64;
  }

  lemma MulStrictlyMonotone(c: int, x: int, y: int)
    requires 0 < c && x < y
    ensures c * x < c * y
  {
    assert c * y == c * x + c * (y - x);
  }

  /** The first delays are base, 2·base, 3·base, 5·base, 8·base. */
  lemma FirstDelays(base: int)
    requires 0 < base && 8 * base <= MaxInt64
    ensures CappedDelay(base, 0) == base
    ensures CappedDelay(base, 1) == 2 * base
    ensures CappedDelay(base, 2) == 3 * base
    ensures CappedDelay(base, 3) == 5 * base
    ensures CappedDelay(base, 4) == 8 * base
  {
    assert Fib(2) == 1 && Fib(3) == 2 && Fib(4) == 3 && Fib(5) == 5 && Fib(6) == 8;
  }

  /** Once a delay is capped, every later one is capped too. */
  lemma CappedStaysCapped(base: int, n: nat, m: nat)
    requires 0 < base && n <= m && CappedDelay(base, n) == MaxInt64
    ensures CappedDelay(base, m) == MaxInt64
  {
    CappedDelayMonotone(base, n, m);
  }

  /** The n delays handed out by the generator from step `from` on. */
  function Delays(base: int, from: nat, n: nat): (r: seq<int>)
    ensures |r| == n
  {
    if n == 0 then [] else Delays(base, from, n - 1) + [CappedDelay(base, from + n - 1)]
  }

  lemma DelaysExtend(base: int, from: nat, n: nat)
    ensures Delays(base, from, n + 1) == Delays(base, from, n) + [CappedDelay(base, from + n)]
  {
  }

  lemma {:induction false} DelaysAt(base: int, from: nat, n: nat, k: nat)
    requires k < n
    ensures Delays(base, from, n)[k] == CappedDelay(base, from + k)
  {
    if k < n - 1 {
      DelaysAt(base, from, n - 1, k);
    }
  }

  /** Starting from (0, base), the generator hands out base, 2·base,
      3·base, 5·base, 8·base as long as these fit. */
  lemma FirstFiveDelays(base: int)
    requires 0 < base && 8 * base <= MaxInt64
    ensures Delays(base, 0, 5) == [base, 2 * base, 3 * base, 5 * base, 8 * base]
  {
    FirstDelays(base);
    var d := Delays(base, 0, 5);
    forall k | 0 <= k < 5
      ensures d[k] == CappedDelay(base, k)
    {
      DelaysAt(base, 0, 5, k);
    }
    assert d == [base, 2 * base, 3 * base, 5 * base, 8 * base];
  }

  /** The `backoff` struct. The pair (a, b) is the Fibonacci `state`;
      `attempt` and `max` are the retry budget. The ghost fields record the
      base the generator started from, how many Fibonacci steps it has
      taken and how many delays it has handed out; the two counts part only
      once the sum has overflowed, which freezes the state for good. */
  class Backoff {
    var a: int64
    var b: int64
    var attempt: uint64
    var max: uint64
    ghost const base: int
    ghost var steps: nat
    ghost var granted: nat

    ghost predicate Valid()
      reads this
    {
      && 0 < base
      && a as int == base * Fib(steps)
      && b as int == base * Fib(steps + 1)
      && 0 <= a <= b && 0 < b
      && steps <= granted
      && (steps < granted ==> a as int + b as int > MaxInt64)
    }

    /** `&backoff{state: &state{0, base}}`. */
    constructor (base: int64)
      requires 0 < base
      ensures Valid() && this.base == base as int && steps == 0 && granted == 0
      ensures a == 0 && b == base && attempt == 0 && max == 0
    {
      a, b := 0, base;
      attempt, max := 0, 0;
      this.base := base as int;
      steps, granted := 0, 0;
    }

    /** The closure built by `defaultNext`: one Fibonacci step. With a
        single caller the compare-and-swap succeeds at once, so the retry
        loop around it runs exactly once. It never asks to stop. */
    method DefaultNext() returns (delay: int64, stop: bool)
      requires Valid()
      modifies this`a, this`b, this`steps, this`granted
      ensures Valid() && !stop
      ensures delay as int == CappedDelay(base, old(granted)) && granted == old(granted) + 1
      ensures old(a) as int + old(b) as int > MaxInt64 ==>
                delay as int == MaxInt64 && a == old(a) && b == old(b) && steps == old(steps)
      ensures old(a) as int + old(b) as int <= MaxInt64 ==>
                delay as int == old(a) as int + old(b) as int &&
                a == old(b) && b == delay && steps == old(steps) + 1
    {
      ScaledFibStep(base, steps);
      SumWrapsNegative(a, b);
      var next := WrapInt64(a as int + b as int);
      if next <= 0 {
        FrozenDelay(base, steps, granted);
        granted := granted + 1;
        return MaxInt64 as int64, false;
      }
      a, b, steps, granted := b, next, steps + 1, granted + 1;
      return next, false;
    }

    /** `b.maxRetry(max)`: sets the budget and installs the budgeted closure,
        which `Next` models. */
    method SetMaxRetry(max: uint64)
      modifies this`max
      ensures this.max == max
    {
      this.max := max;
    }

    /** The closure installed by `maxRetry`: stop once `attempt` has reached
        `max`, otherwise count the attempt and take one Fibonacci step. */
    method Next() returns (delay: int64, stop: bool)
      requires Valid()
      modifies this`a, this`b, this`steps, this`granted, this`attempt
      ensures Valid()
      ensures stop <==> old(attempt) >= max
      ensures stop ==> delay == 0 && a == old(a) && b == old(b) && steps == old(steps) &&
                       granted == old(granted) && attempt == old(attempt)
      ensures !stop ==> attempt as int == old(attempt) as int + 1 &&
                        delay as int == CappedDelay(base, old(granted)) && granted == old(granted) + 1
      ensures !stop && old(a) as int + old(b) as int > MaxInt64 ==>
                delay as int == MaxInt64 && a == old(a) && b == old(b) && steps == old(steps)
      ensures !stop && old(a) as int + old(b) as int <= MaxInt64 ==>
                a == old(b) && b == delay && steps == old(steps) + 1
    {
      if attempt >= max {
        return 0, true;
      }
      attempt := attempt + 1;
      // DefaultNext promises never to stop, so the source's second stop
      // test after this call can never fire and is left out.
      delay, stop := DefaultNext();
    }
  }

  /** When the sum at step s overflows, every delay from step s on is
      capped. */
  lemma FrozenDelay(base: int, s: nat, g: nat)
    requires 0 < base && s <= g && base * Fib(s + 2) > MaxInt64
    ensures CappedDelay(base, g) == MaxInt64
  {
    CappedStaysCapped(base, s, g);
  }

  /** The points at which `do` looks at `ctx.Done()`, numbered in the order
      they happen: before call k of the user function, right after the
      backoff granted a delay following call k, and while waiting out that
      delay (the context wins the race against the timer). */
  function TopCheck(k: nat): nat { 3 * k }
  function PriorityCheck(k: nat): nat { 3 * k + 1 }
  function TimerCheck(k: nat): nat { 3 * k + 2 }

  /** How one run of `do` may end, given the budget left, the results the
      user function returns call by call, and which observations of the
      context find it cancelled. `calls` is how many times the user function
      ran and `err` what `do` returned. */
  ghost predicate Outcome(budget: int, f: nat -> Error, cancelled: nat -> bool, ctxErr: Error,
                          err: Error, calls: nat)
  {
    && calls <= budget + 1
    // the function only ran when the context was not cancelled
    && (forall k :: 0 <= k < calls ==> !cancelled(TopCheck(k)))
    // the loop only went round again after a retryable error and a full wait
    && (forall k :: 0 <= k < calls - 1 ==>
          IsRetryable(f(k)) && !cancelled(PriorityCheck(k)) && !cancelled(TimerCheck(k)))
    && (calls == 0 ==> cancelled(TopCheck(0)) && err == ctxErr)
    && (calls > 0 ==> LastStep(budget, f(calls - 1), calls, cancelled, ctxErr, err))
  }

  /** What `do` returns after the last call, whose result was `last`. */
  ghost predicate LastStep(budget: int, last: Error, calls: nat, cancelled: nat -> bool, ctxErr: Error,
                           err: Error)
    requires 0 < calls
  {
    if last == Nil then err == Nil
    else if !IsRetryable(last) then err == last
    else if calls == budget + 1 then err == RetryableCause(last)
    else
      && err == ctxErr
      && (cancelled(PriorityCheck(calls - 1)) || cancelled(TimerCheck(calls - 1)) || cancelled(TopCheck(calls)))
  }

  /** How many delays the backoff handed out in such a run: one for every
      retryable result, except the one that found the budget spent. */
  function Advances(budget: int, f: nat -> Error, calls: nat): nat
  {
    if calls == 0 then 0
    else if IsRetryable(f(calls - 1)) && calls <= budget then calls
    else calls - 1
  }

  /** The first n iterations each called the user function on a live
      context, got a retryable error and waited out the whole delay. */
  ghost predicate RetriedFully(f: nat -> Error, cancelled: nat -> bool, n: nat)
  {
    forall k :: 0 <= k < n ==>
      !cancelled(TopCheck(k)) && IsRetryable(f(k)) && !cancelled(PriorityCheck(k)) && !cancelled(TimerCheck(k))
  }

  lemma RetriedOnceMore(f: nat -> Error, cancelled: nat -> bool, n: nat)
    requires RetriedFully(f, cancelled, n)
    requires !cancelled(TopCheck(n)) && IsRetryable(f(n)) && !cancelled(PriorityCheck(n)) && !cancelled(TimerCheck(n))
    ensures RetriedFully(f, cancelled, n + 1)
  {
  }

  /** A run that stops at the top of iteration n because the context is
      cancelled is an outcome of `do`, with one delay per completed wait. */
  lemma OutcomeOfCancelledTop(budget: int, f: nat -> Error, cancelled: nat -> bool, ctxErr: Error, n: nat)
    requires RetriedFully(f, cancelled, n) && n <= budget && cancelled(TopCheck(n))
    ensures Outcome(budget, f, cancelled, ctxErr, ctxErr, n) && Advances(budget, f, n) == n
  {
    if n > 0 {
      assert !cancelled(TopCheck(n - 1)) && IsRetryable(f(n - 1));
    }
  }

  /** A run whose call n returns nil, or an error that is not retryable,
      returns that result; the backoff was not consulted for it. */
  lemma OutcomeOfFinalResult(budget: int, f: nat -> Error, cancelled: nat -> bool, ctxErr: Error, n: nat)
    requires RetriedFully(f, cancelled, n) && n <= budget && !cancelled(TopCheck(n))
    requires AsRetryable(f(n)).None?
    ensures Outcome(budget, f, cancelled, ctxErr, f(n), n + 1) && Advances(budget, f, n + 1) == n
  {
  }

  /** A run whose call n returns a retryable error when the budget is spent
      returns that error's cause. */
  lemma OutcomeOfSpentBudget(budget: int, f: nat -> Error, cancelled: nat -> bool, ctxErr: Error, n: nat)
    requires RetriedFully(f, cancelled, n) && n == budget && !cancelled(TopCheck(n))
    requires AsRetryable(f(n)).Some?
    ensures Outcome(budget, f, cancelled, ctxErr, AsRetryable(f(n)).value.inner, n + 1)
    ensures Advances(budget, f, n + 1) == n
  {
  }

  /** A run whose context is cancelled while it backs off after call n
      returns the context's error. */
  lemma OutcomeOfCancelledWait(budget: int, f: nat -> Error, cancelled: nat -> bool, ctxErr: Error, n: nat)
    requires RetriedFully(f, cancelled, n) && n < budget && !cancelled(TopCheck(n))
    requires AsRetryable(f(n)).Some?
    requires cancelled(PriorityCheck(n)) || cancelled(TimerCheck(n))
    ensures Outcome(budget, f, cancelled, ctxErr, ctxErr, n + 1) && Advances(budget, f, n + 1) == n + 1
  {
  }

  /** The outcome of `do` is a function of its inputs: at most one pair of
      error and call count fits. */
  lemma OutcomeUnique(budget: int, f: nat -> Error, cancelled: nat -> bool, ctxErr: Error,
                      err1: Error, calls1: nat, err2: Error, calls2: nat)
    requires Outcome(budget, f, cancelled, ctxErr, err1, calls1)
    requires Outcome(budget, f, cancelled, ctxErr, err2, calls2)
    ensures err1 == err2 && calls1 == calls2
  {
    NoLaterCall(budget, f, cancelled, ctxErr, err1, calls1, err2, calls2);
    NoLaterCall(budget, f, cancelled, ctxErr, err2, calls2, err1, calls1);
  }

  lemma NoLaterCall(budget: int, f: nat -> Error, cancelled: nat -> bool, ctxErr: Error,
                    err1: Error, calls1: nat, err2: Error, calls2: nat)
    requires Outcome(budget, f, cancelled, ctxErr, err1, calls1)
    requires Outcome(budget, f, cancelled, ctxErr, err2, calls2)
    ensures calls2 <= calls1
  {
    var k: nat := if 0 < calls1 then calls1 - 1 else 0;
    assert calls1 < calls2 ==> !cancelled(TopCheck(calls1));
    assert calls1 < calls2 && 0 < calls1 ==>
      IsRetryable(f(k)) && !cancelled(PriorityCheck(k)) && !cancelled(TimerCheck(k));
  }

  /** If the context is cancelled before the first call, the user function
      never runs and the context's error comes back. */
  lemma CancelledUpFront(budget: int, f: nat -> Error, cancelled: nat -> bool, ctxErr: Error,
                         err: Error, calls: nat)
    requires Outcome(budget, f, cancelled, ctxErr, err, calls)
    requires cancelled(TopCheck(0))
    ensures calls == 0 && err == ctxErr
  {
  }

  /** A first call that returns nil, or an error that is not retryable,
      ends the loop at once with that result. */
  lemma FirstCallDecides(budget: int, f: nat -> Error, cancelled: nat -> bool, ctxErr: Error,
                         err: Error, calls: nat)
    requires Outcome(budget, f, cancelled, ctxErr, err, calls)
    requires !cancelled(TopCheck(0)) && !IsRetryable(f(0))
    ensures calls == 1 && err == f(0)
  {
    var first: nat := 0;
    assert 1 < calls ==> IsRetryable(f(first));
  }

  /** `do(ctx, b, f)`. The user function is given by its results call by
      call, the context by the observations that find it cancelled and the
      error `ctx.Err()` then returns. The ghost `waits` are the delays the
      backoff handed out, in order. */
  method Do(b: Backoff, f: nat -> Error, cancelled: nat -> bool, ctxErr: Error)
    returns (err: Error, calls: nat, ghost waits: seq<int>)
    requires b.Valid() && b.attempt <= b.max
    modifies b`a, b`b, b`steps, b`granted, b`attempt
    ensures b.Valid() && b.attempt <= b.max
    ensures Outcome(old(b.max as int - b.attempt as int), f, cancelled, ctxErr, err, calls)
    ensures b.attempt as int == old(b.attempt) as int + Advances(old(b.max as int - b.attempt as int), f, calls)
    ensures |waits| == b.attempt as int - old(b.attempt) as int
    ensures b.granted == old(b.granted) + |waits|
    ensures waits == Delays(b.base, old(b.granted), |waits|)
  {
    ghost var budget := b.max as int - b.attempt as int;
    ghost var attempt0 := b.attempt as int;
    ghost var granted0 := b.granted;
    calls, waits := 0, [];
    while true
      invariant b.Valid() && b.max == old(b.max)
      invariant calls <= budget
      invariant b.attempt as int == attempt0 + calls
      invariant |waits| == calls
      invariant RetriedFully(f, cancelled, calls)
      invariant b.granted == granted0 + calls
      invariant waits == Delays(b.base, granted0, calls)
      decreases budget - calls
    {
      var n := calls;
      if cancelled(TopCheck(calls)) {
        OutcomeOfCancelledTop(budget, f, cancelled, ctxErr, n);
        err := ctxErr;
        return;
      }
      var e := f(calls);
      calls := calls + 1;
      if e == Nil {
        OutcomeOfFinalResult(budget, f, cancelled, ctxErr, n);
        err := Nil;
        return;
      }
      var rerr := AsRetryable(e);
      if rerr.None? {
        OutcomeOfFinalResult(budget, f, cancelled, ctxErr, n);
        err := e;
        return;
      }
      var next, stop := b.Next();
      if stop {
        OutcomeOfSpentBudget(budget, f, cancelled, ctxErr, n);
        err := rerr.value.inner;
        return;
      }
      DelaysExtend(b.base, granted0, n);
      waits := waits + [next as int];
      if cancelled(PriorityCheck(n)) || cancelled(TimerCheck(n)) {
        OutcomeOfCancelledWait(budget, f, cancelled, ctxErr, n);
        err := ctxErr;
        return;
      }
      RetriedOnceMore(f, cancelled, n);
    }
  }

  /** `RetryHandle(ctx, base, maxRetry, f)`: reject a non-positive base
      before anything runs, otherwise build a fresh backoff from (0, base)
      with budget maxRetry and run `do`. */
  method RetryHandle(base: int64, maxRetry: uint64, f: nat -> Error, cancelled: nat -> bool, ctxErr: Error)
    returns (err: Error, calls: nat, ghost waits: seq<int>)
    ensures base <= 0 ==> err == Plain("base is invalid") && calls == 0 && waits == []
    ensures 0 < base ==> Outcome(maxRetry as int, f, cancelled, ctxErr, err, calls)
    ensures 0 < base ==> |waits| == Advances(maxRetry as int, f, calls)
    ensures 0 < base ==> waits == Delays(base as int, 0, |waits|)
    ensures calls <= maxRetry as int + 1
  {
    if base <= 0 {
      err, calls, waits := Plain("base is invalid"), 0, [];
      return;
    }
    var backoff := new Backoff(base);
    backoff.SetMaxRetry(maxRetry);
    err, calls, waits := Do(backoff, f, cancelled, ctxErr);
  }

  /** A function that succeeds at once is called once and its nil result
      comes back. */
  method SucceedsOnFirstCall() returns (err: Error, calls: nat)
    ensures err == Nil && calls == 1
  {
    ghost var waits;
    err, calls, waits := RetryHandle(1_000_000_000, 2, _ => Nil, _ => false, Plain("context canceled"));
    FirstCallDecides(2, _ => Nil, _ => false, Plain("context canceled"), err, calls);
  }

  /** With no retries allowed, a retryable failure is returned unwrapped
      after exactly one call. */
  method NoRetriesAllowed() returns (err: Error, calls: nat)
    ensures err == Plain("error") && calls == 1
  {
    ghost var waits;
    var failing := RetryableError(Plain("error"));
    err, calls, waits := RetryHandle(1_000_000_000, 0, _ => failing, _ => false, Plain("context canceled"));
  }
}
