/** The error values the retry package works with: Go's `error` interface,
    the package's `retryableError` wrapper, and the `errors.As` search that
    `do` uses to recognise a retryable error anywhere in a wrapping chain. */
module RetryErrors {
  import opened GoTypes

  /** A Go `error` value. `Nil` is the nil interface; `Plain` an error with
      no cause (what `errors.New` returns); `Retryable` the package's
      `*retryableError`, whose inner error may itself be nil; `Wrapped` any
      other error that carries its own text and unwraps to a cause. */
  datatype Error =
    | Nil
    | Plain(msg: string)
    | Retryable(inner: Error)
    | Wrapped(msg: string, cause: Error)

  /** `errors.Unwrap`: the next link of the chain, or nil. */
  function Unwrap(e: Error): (r: Error)
    ensures e.Retryable? ==> r == e.inner
    ensures e.Wrapped? ==> r == e.cause
    ensures e.Nil? || e.Plain? ==> r == Nil
  {
    match e
    case Retryable(inner) => inner
    case Wrapped(_, cause) => cause
    case _ => Nil
  }

  /** Marks an error as retryable; a nil error stays nil. */
  function RetryableError(err: Error): (r: Error)
    ensures r == Nil <==> err == Nil
    ensures Unwrap(r) == err
    ensures r != Nil ==> AsRetryable(r) == Some(r)
  {
    if err == Nil then Nil else Retryable(err)
  }

  /** The `Error()` text of a non-nil error. Calling `Error()` on a nil
      interface is a nil dereference in Go, hence the precondition. */
  function Message(e: Error): (r: string)
    requires e != Nil
    ensures e.Retryable? ==> |r| >= |RetryablePrefix| && r[..|RetryablePrefix|] == RetryablePrefix
    ensures e.Retryable? && e.inner == Nil ==> r == RetryablePrefix + "<nil>"
  {
    match e
    case Plain(msg) => msg
    case Wrapped(msg, _) => msg
    case Retryable(inner) =>
      if inner == Nil then RetryablePrefix + "<nil>"
      else
        assert (RetryablePrefix + Message(inner))[..|RetryablePrefix|] == RetryablePrefix;
        RetryablePrefix + Message(inner)
  }

  const RetryablePrefix: string := "retryable: "

  /** The text of a marked error is the marker followed by the text of the
      error it marks. */
  lemma MessageOfRetryable(err: Error)
    requires err != Nil
    ensures Message(RetryableError(err)) == RetryablePrefix + Message(err)
  {
  }

  /** The wrapping chain `errors.As` walks: the error itself, then what it
      unwraps to, and so on until nil. */
  function Chain(e: Error): (r: seq<Error>)
    ensures |r| == 0 <==> e == Nil
    ensures |r| > 0 ==> r[0] == e
    ensures forall k :: 0 <= k < |r| ==> r[k] != Nil
    ensures forall k :: 0 <= k < |r| - 1 ==> r[k + 1] == Unwrap(r[k])
    ensures |r| > 0 ==> Unwrap(r[|r| - 1]) == Nil
  {
    match e
    case Nil => []
    case Plain(_) => [e]
    case Retryable(inner) => [e] + Chain(inner)
    case Wrapped(_, cause) => [e] + Chain(cause)
  }

  /** `errors.As(err, &rerr)` with `rerr` of type `*retryableError`: the
      retryable link it stores in `rerr`, if it finds one. */
  function AsRetryable(e: Error): (r: Option<Error>)
    ensures r.Some? ==> r.value.Retryable?
  {
    match e
    case Nil => None
    case Plain(_) => None
    case Retryable(_) => Some(e)
    case Wrapped(_, cause) => AsRetryable(cause)
  }

  /** `errors.As` finds a retryable link exactly when the chain has one,
      and what it finds is the first such link. */
  lemma {:induction false} AsRetryableFindsFirst(e: Error)
    ensures AsRetryable(e).None? <==> forall k :: 0 <= k < |Chain(e)| ==> !Chain(e)[k].Retryable?
    ensures AsRetryable(e).Some? ==>
              exists k :: 0 <= k < |Chain(e)| && Chain(e)[k] == AsRetryable(e).value &&
                          AsRetryable(e).value.Retryable? && forall j :: 0 <= j < k ==> !Chain(e)[j].Retryable?
  {
    match e
    case Nil =>
    case Plain(_) =>
    case Retryable(_) =>
      assert Chain(e)[0] == e;
    case Wrapped(_, cause) =>
      AsRetryableFindsFirst(cause);
      assert Chain(e) == [e] + Chain(cause);
      if AsRetryable(cause).Some? {
        var k :| 0 <= k < |Chain(cause)| && Chain(cause)[k] == AsRetryable(cause).value &&
                 AsRetryable(cause).value.Retryable? && forall j :: 0 <= j < k ==> !Chain(cause)[j].Retryable?;
        assert Chain(e)[k + 1] == AsRetryable(e).value;
      } else {
        forall k | 0 <= k < |Chain(e)|
          ensures !Chain(e)[k].Retryable?
        {
          if k > 0 {
            assert Chain(e)[k] == Chain(cause)[k - 1];
          }
        }
      }
  }

  /** Whether `do` treats an error as retryable. */
  predicate IsRetryable(e: Error)
  {
    AsRetryable(e).Some?
  }

  /** The error `do` hands back when a retryable error exhausts the budget:
      `rerr.Unwrap()` of the retryable link that `errors.As` found. */
  function RetryableCause(e: Error): (r: Error)
    requires IsRetryable(e)
    ensures AsRetryable(e) == Some(Retryable(r))
  {
    AsRetryable(e).value.inner
  }

  /** Marking then searching finds the mark, and the budget-exhausted error
      is exactly the one that was marked. */
  lemma RetryableRoundTrip(err: Error)
    requires err != Nil
    ensures IsRetryable(RetryableError(err)) && RetryableCause(RetryableError(err)) == err
  {
  }

  /** However deeply a mark is wrapped, `errors.As` still finds it, and the
      cause is the marked error. */
  lemma {:induction false} RetryableThroughWrappers(err: Error, texts: seq<string>)
    requires err != Nil
    ensures IsRetryable(WrapAll(texts, RetryableError(err)))
    ensures RetryableCause(WrapAll(texts, RetryableError(err))) == err
  {
    if texts != [] {
      RetryableThroughWrappers(err, texts[1..]);
    }
  }

  /** The error `fmt.Errorf("...: %w", ...)` would build by wrapping e once
      per text, the first text outermost. */
  function WrapAll(texts: seq<string>, e: Error): Error
  {
    if texts == [] then e else Wrapped(texts[0], WrapAll(texts[1..], e))
  }
}
