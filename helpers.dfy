/** The `retry_on_error(max_attempts, delay_seconds)` decorator of helpers.py.
    The wrapped function is `func`: `func(args, k)` is what its call number k
    (counting from 0) returns or raises, so a transient failure is a `Failure`
    at some attempts and not at others. Sleeping and calling are recorded in a
    trace of events instead of happening. */
module Helpers {
  import opened Optional

  /** What one call of the wrapped function does: return a value or raise an error. */
  datatype Outcome<T, E> = Success(value: T) | Failure(error: E)

  /** How the wrapper ends: returning the function's value, re-raising an
      error, or falling out of the loop and returning `None`. */
  datatype Completion<T, E> = Returned(value: T) | Raised(error: E) | ReturnedNone

  /** An observable step of the wrapper: a call of the wrapped function with
      the arguments it was given, or a `time.sleep`. */
  datatype Event<A> = Called(args: A) | Slept(seconds: nat)

  /** Calls 0 .. n-1 of the wrapped function all raise. */
  ghost predicate FailsBefore<A, T, E>(func: (A, nat) -> Outcome<T, E>, args: A, n: int)
  {
    forall j :: 0 <= j < n ==> func(args, j).Failure?
  }

  /** The trace of `n` failed attempts, each followed by a pause of `delay`. */
  function Retried<A>(n: nat, args: A, delay: nat): seq<Event<A>>
  {
    if n == 0 then [] else Retried(n - 1, args, delay) + [Called(args), Slept(delay)]
  }

  /** Number of calls in a trace. */
  function Calls<A>(trace: seq<Event<A>>): nat
  {
    if trace == [] then 0
    else Calls(trace[..|trace| - 1]) + if trace[|trace| - 1].Called? then 1 else 0
  }

  /** Number of pauses in a trace. */
  function Sleeps<A>(trace: seq<Event<A>>): nat
  {
    if trace == [] then 0
    else Sleeps(trace[..|trace| - 1]) + if trace[|trace| - 1].Slept? then 1 else 0
  }

  /** Total seconds slept in a trace. */
  function SleptFor<A>(trace: seq<Event<A>>): nat
  {
    if trace == [] then 0
    else SleptFor(trace[..|trace| - 1]) + match trace[|trace| - 1] { case Slept(s) => s case Called(_) => 0 }
  }

  /** `wrapper(*args)`: call `func` until a call returns, at most `maxAttempts`
      times, sleeping `delaySeconds` after every failed call but the last, and
      re-raise the last call's error once all attempts have failed. */
  method RetryOnError<A, T, E>(maxAttempts: int, delaySeconds: nat, func: (A, nat) -> Outcome<T, E>, args: A)
    returns (result: Completion<T, E>, trace: seq<Event<A>>)
    ensures maxAttempts <= 0 ==> result == ReturnedNone && trace == []
    ensures forall k :: 0 <= k < maxAttempts && FailsBefore(func, args, k) && func(args, k).Success? ==>
      result == Returned(func(args, k).value) && trace == Retried(k, args, delaySeconds) + [Called(args)]
    ensures 0 < maxAttempts && FailsBefore(func, args, maxAttempts) ==>
      result == Raised(func(args, maxAttempts - 1).error)
      && trace == Retried(maxAttempts - 1, args, delaySeconds) + [Called(args)]
    ensures Calls(trace) <= if maxAttempts <= 0 then 0 else maxAttempts
    ensures trace != [] ==> trace[|trace| - 1].Called? && Sleeps(trace) + 1 == Calls(trace)
    ensures forall i :: 0 <= i < |trace| && trace[i].Called? ==> trace[i].args == args
  {
    var attempts := 0;
    var lastError: Option<E> := None;
    trace := [];
    while attempts < maxAttempts
      invariant 0 <= attempts && (0 < maxAttempts ==> attempts < maxAttempts) && (maxAttempts <= 0 ==> attempts == 0)
      invariant FailsBefore(func, args, attempts)
      invariant lastError.Some? <==> attempts > 0
      invariant attempts > 0 ==> lastError == Some(func(args, attempts - 1).error)
      invariant trace == Retried(attempts, args, delaySeconds)
      decreases maxAttempts - attempts
    {
      trace := trace + [Called(args)];
      AttemptTrace(attempts, args, delaySeconds);
      var outcome := func(args, attempts);
      if outcome.Success? {
        result := Returned(outcome.value);
        return;
      }
      attempts := attempts + 1;
      lastError := Some(outcome.error);
      if attempts < maxAttempts {
        trace := trace + [Slept(delaySeconds)];
        assert trace == Retried(attempts, args, delaySeconds);
      } else {
        result := Raised(lastError.value);
        return;
      }
    }
    result := ReturnedNone;
  }

  /** A run whose call number k is the one that returns (or the last one,
      which raises) makes exactly k + 1 calls, all with the same arguments,
      and k pauses of `delay` seconds, none of them after the final call. */
  lemma {:induction false} AttemptTrace<A>(k: nat, args: A, delay: nat)
    ensures var trace := Retried(k, args, delay) + [Called(args)];
      && Calls(trace) == k + 1
      && Sleeps(trace) == k
      && SleptFor(trace) == k * delay
      && trace[|trace| - 1] == Called(args)
      && forall i :: 0 <= i < |trace| && trace[i].Called? ==> trace[i].args == args
  {
    RetriedCounts(k, args, delay);
    var retried := Retried(k, args, delay);
    var trace := retried + [Called(args)];
    assert trace[..|trace| - 1] == retried;
  }

  lemma {:induction false} RetriedCounts<A>(n: nat, args: A, delay: nat)
    ensures Calls(Retried(n, args, delay)) == n
    ensures Sleeps(Retried(n, args, delay)) == n
    ensures SleptFor(Retried(n, args, delay)) == n * delay
    ensures forall i :: 0 <= i < |Retried(n, args, delay)| && Retried(n, args, delay)[i].Called? ==>
      Retried(n, args, delay)[i].args == args
  {
    if n > 0 {
      RetriedCounts(n - 1, args, delay);
      var before := Retried(n - 1, args, delay);
      var trace := before + [Called(args), Slept(delay)];
      assert trace[..|trace| - 1] == before + [Called(args)];
      assert (before + [Called(args)])[..|before|] == before;
      assert n * delay == (n - 1) * delay + delay;
    }
  }
}
