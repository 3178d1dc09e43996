/**
  The `retry(max_attempts=3, delay_seconds=5)` decorator of src/_decorators.py.

  The wrapped call is an oracle: `outcomes[k - 1]` is what attempt `k` does (return a value
  or raise). The wrapper tries attempts 1, 2, ... in order, returns the first value it gets,
  sleeps `delay_seconds` after every failed attempt but the last, and re-raises the last
  error when every attempt failed. With `max_attempts <= 0` its loop never runs and it
  returns `None`.
*/
module Retry {

  /** What one call of the wrapped function does. */
  datatype Attempt<T, E> = Returned(value: T) | Raised(error: E)

  /** What the wrapper hands back: a value, the re-raised last error, or the implicit `None`. */
  datatype Outcome<T, E> = Value(value: T) | Reraised(error: E) | NoneResult

  /** The wrapper's side effects, in order: calls of the function and sleeps. */
  datatype Event = Call(attempt: nat) | Sleep(seconds: int)

  /** A finished run of the wrapper: its outcome and its trace of side effects. */
  datatype Run<T, E> = Run(outcome: Outcome<T, E>, trace: seq<Event>)

  const DefaultMaxAttempts: int := 3
  const DefaultDelaySeconds: int := 5

  /** Attempts 1..n with exactly one sleep between consecutive attempts and none after the last. */
  function Schedule(n: nat, delay: int): seq<Event>
    decreases n
  {
    if n == 0 then []
    else if n == 1 then [Call(1)]
    else Schedule(n - 1, delay) + [Sleep(delay), Call(n)]
  }

  function CallCount(t: seq<Event>): nat {
    if t == [] then 0 else (if t[0].Call? then 1 else 0) + CallCount(t[1..])
  }

  function SleepCount(t: seq<Event>): nat {
    if t == [] then 0 else (if t[0].Sleep? then 1 else 0) + SleepCount(t[1..])
  }

  /** Index of the first attempt among `outcomes` that returned, or `|outcomes|` if none did. */
  function FirstReturned<T, E>(outcomes: seq<Attempt<T, E>>): (k: nat)
    ensures k <= |outcomes|
    ensures forall i :: 0 <= i < k ==> outcomes[i].Raised?
    ensures k < |outcomes| ==> outcomes[k].Returned?
  {
    if outcomes == [] then 0
    else if outcomes[0].Returned? then 0
    else 1 + FirstReturned(outcomes[1..])
  }

  /**
    Reference definition of the wrapper: the run is determined by the first attempt that
    returns among the first `maxAttempts`.
  */
  function Wrapped<T, E>(maxAttempts: int, delay: int, outcomes: seq<Attempt<T, E>>): Run<T, E>
    requires maxAttempts <= |outcomes|
  {
    if maxAttempts <= 0 then Run(NoneResult, [])
    else
      var k := FirstReturned(outcomes[..maxAttempts]);
      if k < maxAttempts then Run(Value(outcomes[k].value), Schedule(k + 1, delay))
      else Run(Reraised(outcomes[maxAttempts - 1].error), Schedule(maxAttempts, delay))
  }

  lemma {:induction false} ScheduleShape(n: nat, delay: int)
    ensures |Schedule(n, delay)| == if n == 0 then 0 else 2 * n - 1
    ensures forall i :: 0 <= i < |Schedule(n, delay)| ==>
      Schedule(n, delay)[i] == if i % 2 == 0 then Call(i / 2 + 1) else Sleep(delay)
  {
    if n > 1 {
      ScheduleShape(n - 1, delay);
    }
  }

  lemma {:induction false} CountsAppend(a: seq<Event>, b: seq<Event>)
    ensures CallCount(a + b) == CallCount(a) + CallCount(b)
    ensures SleepCount(a + b) == SleepCount(a) + SleepCount(b)
  {
    if a == [] {
      assert a + b == b;
    } else {
      assert (a + b)[0] == a[0];
      assert (a + b)[1..] == a[1..] + b;
      CountsAppend(a[1..], b);
    }
  }

  /** `n` attempts make `n` calls and `n - 1` sleeps; the last event of a non-empty schedule is a call. */
  lemma {:induction false} ScheduleCounts(n: nat, delay: int)
    ensures CallCount(Schedule(n, delay)) == n
    ensures SleepCount(Schedule(n, delay)) == if n == 0 then 0 else n - 1
    ensures n > 0 ==> Schedule(n, delay)[|Schedule(n, delay)| - 1] == Call(n)
  {
    if n == 1 {
      assert [Call(1)][1..] == [];
    } else if n > 1 {
      ScheduleCounts(n - 1, delay);
      CountsAppend(Schedule(n - 1, delay), [Sleep(delay), Call(n)]);
      var last := [Call(n)];
      assert last[1..] == [];
      assert CallCount(last) == 1 && SleepCount(last) == 0;
      assert [Sleep(delay), Call(n)][1..] == last;
    }
  }

  /** The function is called at most `max_attempts` times, and never when `max_attempts <= 0`. */
  lemma CallsBounded<T, E>(maxAttempts: int, delay: int, outcomes: seq<Attempt<T, E>>)
    requires maxAttempts <= |outcomes|
    ensures CallCount(Wrapped(maxAttempts, delay, outcomes).trace) <= if maxAttempts <= 0 then 0 else maxAttempts
    ensures maxAttempts <= 0 ==> Wrapped(maxAttempts, delay, outcomes).outcome == NoneResult
  {
    if maxAttempts > 0 {
      var k := FirstReturned(outcomes[..maxAttempts]);
      if k < maxAttempts { ScheduleCounts(k + 1, delay); } else { ScheduleCounts(maxAttempts, delay); }
    }
  }

  /**
    Success on attempt `k` (the first attempt that returns) gives the value of that attempt,
    `k` calls and `k - 1` sleeps: no call is made after the first success.
  */
  lemma SuccessOnAttempt<T, E>(maxAttempts: int, delay: int, outcomes: seq<Attempt<T, E>>, k: nat)
    requires maxAttempts <= |outcomes|
    requires 1 <= k <= maxAttempts
    requires outcomes[k - 1].Returned?
    requires forall i :: 0 <= i < k - 1 ==> outcomes[i].Raised?
    ensures Wrapped(maxAttempts, delay, outcomes).outcome == Value(outcomes[k - 1].value)
    ensures CallCount(Wrapped(maxAttempts, delay, outcomes).trace) == k
    ensures SleepCount(Wrapped(maxAttempts, delay, outcomes).trace) == k - 1
  {
    FirstReturnedIs(outcomes[..maxAttempts], k - 1);
    ScheduleCounts(k, delay);
  }

  /**
    When every attempt raises, the error of the last attempt is re-raised after
    `max_attempts` calls and `max_attempts - 1` sleeps.
  */
  lemma AllFail<T, E>(maxAttempts: int, delay: int, outcomes: seq<Attempt<T, E>>)
    requires 1 <= maxAttempts <= |outcomes|
    requires forall i :: 0 <= i < maxAttempts ==> outcomes[i].Raised?
    ensures Wrapped(maxAttempts, delay, outcomes).outcome == Reraised(outcomes[maxAttempts - 1].error)
    ensures CallCount(Wrapped(maxAttempts, delay, outcomes).trace) == maxAttempts
    ensures SleepCount(Wrapped(maxAttempts, delay, outcomes).trace) == maxAttempts - 1
  {
    FirstReturnedIs(outcomes[..maxAttempts], maxAttempts);
    ScheduleCounts(maxAttempts, delay);
  }

  /**
    The wrapper itself: the `for attempt in range(1, max_attempts + 1)` loop of
    src/_decorators.py, returning its outcome and the trace of calls and sleeps.
  */
  method Wrapper<T, E>(maxAttempts: int, delay: int, outcomes: seq<Attempt<T, E>>) returns (run: Run<T, E>)
    requires maxAttempts <= |outcomes|
    ensures run == Wrapped(maxAttempts, delay, outcomes)
  {
    var trace: seq<Event> := [];
    var attempt := 1;
    while attempt <= maxAttempts
      invariant 1 <= attempt
      invariant maxAttempts >= 1 ==> attempt <= maxAttempts
      invariant maxAttempts < 1 ==> attempt == 1
      invariant forall i :: 0 <= i < attempt - 1 ==> outcomes[i].Raised?
      invariant trace == if attempt == 1 then [] else Schedule(attempt - 1, delay) + [Sleep(delay)]
    {
      trace := trace + [Call(attempt)];
      match outcomes[attempt - 1]
      case Returned(v) =>
        assert FirstReturned(outcomes[..maxAttempts]) == attempt - 1 by {
          FirstReturnedIs(outcomes[..maxAttempts], attempt - 1);
        }
        assert trace == Schedule(attempt, delay);
        return Run(Value(v), trace);
      case Raised(e) =>
        if attempt < maxAttempts {
          trace := trace + [Sleep(delay)];
        } else {
          assert FirstReturned(outcomes[..maxAttempts]) == maxAttempts by {
            FirstReturnedIs(outcomes[..maxAttempts], maxAttempts);
          }
          assert trace == Schedule(attempt, delay);
          return Run(Reraised(e), trace);
        }
      attempt := attempt + 1;
    }
    return Run(NoneResult, []);
  }

  lemma {:induction false} FirstReturnedIs<T, E>(outcomes: seq<Attempt<T, E>>, k: nat)
    requires k <= |outcomes|
    requires forall i :: 0 <= i < k ==> outcomes[i].Raised?
    requires k < |outcomes| ==> outcomes[k].Returned?
    ensures FirstReturned(outcomes) == k
  {
    if outcomes != [] && k > 0 {
      FirstReturnedIs(outcomes[1..], k - 1);
    }
  }
}
