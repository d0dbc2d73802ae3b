/** The retry scheduler of the XAPI client (src/xapi.js:26-51): a Fibonacci backoff with
    initial delay 100 and maximum delay 10000 that fails after a configured number of
    backoffs, bridged to a promise that is created only on backoff number 0.

    Timers are not modelled: `ready` fires as soon as the backoff is armed, before the
    retried request is answered. The armed delays are recorded, but they are not waits: the
    first `ready` of a sequence resolves the promise, and from the second backoff of that
    sequence on the caller's `then` on that settled promise retries at once. */
module BackOff {
  import opened Wrappers
  import opened XapiProtocol

  const INITIAL_DELAY: nat := 100
  const MAX_DELAY: nat := 10000
  /** The argument of `failAfter` in the source. */
  const FAIL_AFTER: nat := 10

  /** The uncapped Fibonacci schedule seeded with the initial delay. */
  function Fibonacci(n: nat): nat {
    if n < 2 then INITIAL_DELAY else Fibonacci(n - 1) + Fibonacci(n - 2)
  }

  /** The delay of the timer armed by backoff number `n`. */
  function Delay(n: nat): (d: nat)
    ensures INITIAL_DELAY <= d <= MAX_DELAY
  {
    FibonacciAtLeastInitial(n);
    if Fibonacci(n) < MAX_DELAY then Fibonacci(n) else MAX_DELAY
  }

  lemma {:induction false} FibonacciAtLeastInitial(n: nat)
    ensures Fibonacci(n) >= INITIAL_DELAY
  {
    if n >= 2 {
      FibonacciAtLeastInitial(n - 1);
    }
  }

  lemma {:induction false} FibonacciMonotone(i: nat, j: nat)
    requires i <= j
    ensures Fibonacci(i) <= Fibonacci(j)
  {
    if i < j {
      FibonacciMonotone(i, j - 1);
      if j >= 2 {
        FibonacciAtLeastInitial(j - 2);
      }
    }
  }

  /** The delays never shrink from one backoff to the next. */
  lemma DelayMonotone(i: nat, j: nat)
    requires i <= j
    ensures Delay(i) <= Delay(j)
  {
    FibonacciMonotone(i, j);
  }

  /** The state of the promise behind `bo.promise`. A deferred settles once: resolving or
      rejecting a settled deferred changes nothing. */
  datatype Deferred = Waiting | Resolved | Rejected(reason: Error)

  /** The backoff object: its backoff number, its `failAfter` limit, the deferred created by
      the `backoff` listener (None until the first one), how many deferreds were created, and
      the delays of the timers it armed, oldest first. */
  datatype Machine = Machine(number: nat, failAfter: nat, deferred: Option<Deferred>, created: nat, armed: seq<nat>)
  {
    /** Between two calls: the number is within the limit, a deferred exists once the number
        has moved, and every deferred has settled because `ready` has fired. */
    ghost predicate Valid() {
      && 0 < failAfter
      && number <= failAfter
      && (number > 0 ==> deferred.Some?)
      && (deferred.Some? ==> deferred.value == Resolved)
    }
  }

  type BackOffState = m: Machine | m.Valid() witness Machine(0, 1, None, 0, [])

  /** The freshly configured backoff object. */
  function Start(failAfter: nat): (b: BackOffState)
    requires failAfter > 0
    ensures b.number == 0 && b.failAfter == failAfter && b.deferred.None? && b.created == 0 && b.armed == []
  {
    Machine(0, failAfter, None, 0, [])
  }

  /** `bo.reset()`: back to number 0; the promise is left as it is. */
  function Reset(b: BackOffState): (r: BackOffState)
    ensures r.number == 0
    ensures r.(number := b.number) == b
  {
    b.(number := 0)
  }

  function Resolve(d: Deferred): Deferred {
    if d == Waiting then Resolved else d
  }

  function Reject(d: Deferred, reason: Error): Deferred {
    if d == Waiting then Rejected(reason) else d
  }

  /** What `bo.promise.then(loop)` does: loop again once the promise is resolved, or pass on
      the reason it was rejected with. */
  datatype Signal = RetryNow | GiveUp(reason: Error)

  function Await(d: Deferred): Signal
    requires d != Waiting
  {
    match d
    case Resolved => RetryNow
    case Rejected(reason) => GiveUp(reason)
  }

  /** `bo.backoff(error)` followed by `bo.promise.then(loop)`. At the limit the `fail`
      listener rejects the deferred and the object resets; below it the `backoff` listener
      creates a deferred only on number 0, and `ready` resolves it and bumps the number.
      GiveUpNeverReachesCaller shows which of the two the caller sees. */
  function Backoff(b: BackOffState, error: Error): (r: (BackOffState, Signal))
    ensures r.0.number == if b.number == b.failAfter then 0 else b.number + 1
    ensures r.0.failAfter == b.failAfter
    ensures r.0.created == if b.number == 0 then b.created + 1 else b.created
    ensures r.0.armed == if b.number == b.failAfter then b.armed else b.armed + [Delay(b.number)]
  {
    if b.number == b.failAfter then
      var d := Reject(b.deferred.value, error);
      (Machine(0, b.failAfter, Some(d), b.created, b.armed), Await(d))
    else
      var created := if b.number == 0 then b.created + 1 else b.created;
      var d := Resolve(if b.number == 0 then Waiting else b.deferred.value);
      (Machine(b.number + 1, b.failAfter, Some(d), created, b.armed + [Delay(b.number)]), Await(d))
  }

  /** The deferred was resolved by the first `ready`, so the rejection of `fail` never lands:
      whatever the backoff number, the caller loops again and never sees the error. */
  lemma GiveUpNeverReachesCaller(b: BackOffState, error: Error)
    ensures Backoff(b, error).1 == RetryNow
  {
  }

  /** The backoff object after one `backoff` per error, in order. */
  function Backoffs(b: BackOffState, errors: seq<Error>): (r: BackOffState)
    ensures r.failAfter == b.failAfter
    decreases |errors|
  {
    if errors == [] then b else Backoffs(Backoff(b, errors[0]).0, errors[1..])
  }

  function Schedule(from: nat, k: nat): (s: seq<nat>)
    ensures |s| == k && forall i :: 0 <= i < k ==> s[i] == Delay(from + i)
    decreases k
  {
    if k == 0 then [] else [Delay(from)] + Schedule(from + 1, k - 1)
  }

  /** Up to `failAfter` consecutive backoffs from number 0 arm the timers `Delay(0)`,
      `Delay(1)`, ... in order, and only the first creates a deferred. */
  lemma {:induction false} ConsecutiveBackoffs(b: BackOffState, errors: seq<Error>)
    requires b.number + |errors| <= b.failAfter
    ensures Backoffs(b, errors).number == b.number + |errors|
    ensures Backoffs(b, errors).armed == b.armed + Schedule(b.number, |errors|)
    ensures Backoffs(b, errors).created == if b.number == 0 && errors != [] then b.created + 1 else b.created
    decreases |errors|
  {
    if errors != [] {
      var next := Backoff(b, errors[0]).0;
      ConsecutiveBackoffs(next, errors[1..]);
      assert next.armed + Schedule(next.number, |errors| - 1) == b.armed + Schedule(b.number, |errors|);
    }
  }

  /** After `failAfter + 1` consecutive backoffs from number 0 the object is back at number 0
      and has armed exactly the first `failAfter` delays: giving up only resets it. */
  lemma BackoffsWrapAround(b: BackOffState, errors: seq<Error>)
    requires b.number == 0 && |errors| == b.failAfter + 1
    ensures Backoffs(b, errors).number == 0
    ensures Backoffs(b, errors).armed == b.armed + Schedule(0, b.failAfter)
  {
    var init := errors[..b.failAfter];
    assert init + [errors[b.failAfter]] == errors;
    ConsecutiveBackoffs(b, init);
    BackoffsSplit(b, init, [errors[b.failAfter]]);
    GiveUpResets(Backoffs(b, init), errors[b.failAfter]);
  }

  /** The backoff that reaches the limit sets the number back to 0 and arms nothing. */
  lemma GiveUpResets(b: BackOffState, error: Error)
    requires b.number == b.failAfter
    ensures Backoffs(b, [error]).number == 0 && Backoffs(b, [error]).armed == b.armed
  {
    assert [error][1..] == [];
  }

  lemma {:induction false} BackoffsSplit(b: BackOffState, xs: seq<Error>, ys: seq<Error>)
    ensures Backoffs(b, xs + ys) == Backoffs(Backoffs(b, xs), ys)
    decreases |xs|
  {
    if xs == [] {
      assert xs + ys == ys;
    } else {
      assert (xs + ys)[0] == xs[0] && (xs + ys)[1..] == xs[1..] + ys;
      BackoffsSplit(Backoff(b, xs[0]).0, xs[1..], ys);
    }
  }
}
