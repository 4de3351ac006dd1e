/** The inference client's retries: exponential backoff within a deadline, for every pattern of failures and of
    clock advances, and the readiness cache that failures clear. */
module Retry {

  datatype Failure =
    | TimedOut                    // a timeout error
    | Infrastructure(transient: bool)
    | Unexpected

  /** What the operation does on one attempt. */
  datatype Attempt<T> = Reply(value: T) | Fails(failure: Failure)

  /** What escapes. */
  datatype Result<T> = Ok(value: T) | TimeoutError | InferenceError

  datatype Settings = Settings(maxRetries: nat, backoff: real, budget: real) {
    predicate Valid() {
      backoff >= 0.0
    }
  }

  /** How long each attempt takes, and how much later than asked each sleep ends. */
  datatype Clock = Clock(took: nat -> real, late: nat -> real)

  ghost predicate Forward(c: Clock) {
    forall i: nat :: c.took(i) >= 0.0 && c.late(i) >= 0.0
  }

  function Pow2(n: nat): nat {
    if n == 0 then 1 else 2 * Pow2(n - 1)
  }

  function Sleep(s: Settings, attempt: nat): real {
    s.backoff * Pow2(attempt) as real
  }

  function Slept(s: Settings, sleeps: nat): real {
    if sleeps == 0 then 0.0 else Slept(s, sleeps - 1) + Sleep(s, sleeps - 1)
  }

  /** k sleeps total backoff * (2^k - 1). */
  lemma {:induction false} SleepsAreGeometric(s: Settings, k: nat)
    ensures Slept(s, k) == s.backoff * (Pow2(k) - 1) as real
  {
    if k > 0 {
      SleepsAreGeometric(s, k - 1);
    }
  }

  predicate Transient<T>(a: Attempt<T>) {
    a.Fails? && (a.failure.TimedOut? || (a.failure.Infrastructure? && a.failure.transient))
  }

  /** The moment at which attempt `n` has just ended, if all attempts before it were retried. */
  function EndOf(s: Settings, c: Clock, start: real, n: nat): real {
    if n == 0 then start + c.took(0)
    else EndOf(s, c, start, n - 1) + Sleep(s, n - 1) + c.late(n - 1) + c.took(n)
  }

  /** Attempt `n` is followed by another. */
  predicate Retried<T>(s: Settings, c: Clock, op: nat -> Attempt<T>, start: real, n: nat) {
    Transient(op(n)) && n < s.maxRetries && EndOf(s, c, start, n) + Sleep(s, n) < start + s.budget
  }

  function Answer<T>(a: Attempt<T>): Result<T> {
    match a
    case Reply(v) => Ok(v)
    case Fails(TimedOut) => TimeoutError
    case Fails(_) => InferenceError
  }

  lemma {:induction false} TimePasses(s: Settings, c: Clock, start: real, n: nat)
    requires s.Valid() && Forward(c)
    ensures EndOf(s, c, start, n) >= start + Slept(s, n)
  {
    assert c.took(n) >= 0.0;
    if n > 0 {
      TimePasses(s, c, start, n - 1);
      assert c.late(n - 1) >= 0.0;
    }
  }

  class Client {
    const settings: Settings
    var now: real
    var serverReady: bool
    var readyModels: set<nat>

    constructor (settings: Settings)
      ensures this.settings == settings && !serverReady && readyModels == {}
    {
      this.settings := settings;
      now, serverReady, readyModels := 0.0, false, {};
    }

    method InvalidateReadinessCache()
      modifies this`serverReady, this`readyModels
      ensures !serverReady && readyModels == {}
    {
      serverReady, readyModels := false, {};
    }

    /** _run_with_retries. `calls` attempts were made: all but the last were retried, and the last one gives the
        answer. The operation is never tried more than max_retries + 1 times, the sleeps in between stay below the
        budget, and nothing escapes but a timeout or an inference error. */
    method RunWithRetries<T>(op: nat -> Attempt<T>, c: Clock) returns (r: Result<T>, ghost calls: nat)
      requires settings.Valid() && Forward(c)
      modifies this
      ensures 1 <= calls <= settings.maxRetries + 1
      ensures forall n: nat :: n < calls - 1 ==> Retried(settings, c, op, old(now), n)
      ensures !Retried(settings, c, op, old(now), calls - 1) && r == Answer(op(calls - 1))
      ensures calls > 1 ==> Slept(settings, calls - 1) < settings.budget
      ensures now == EndOf(settings, c, old(now), calls - 1)
      ensures forall n: nat :: n < calls - 1 ==> op(n) == Fails(TimedOut) || op(n) == Fails(Infrastructure(true))
      ensures (op(calls - 1) == Fails(TimedOut) || op(calls - 1) == Fails(Infrastructure(true))) && calls <= settings.maxRetries ==>
                now + settings.backoff * Pow2(calls - 1) as real >= old(now) + settings.budget
      ensures match op(calls - 1)
              case Reply(value) => r == Ok(value)
              case Fails(failure) => r == if failure == TimedOut then TimeoutError else InferenceError
      ensures if Clears(settings, op) then !serverReady && readyModels == {}
              else serverReady == old(serverReady) && readyModels == old(readyModels)
      ensures if (op(0) == Fails(TimedOut) || op(0) == Fails(Infrastructure(true))) && settings.maxRetries >= 1 then
                !serverReady && readyModels == {}
              else serverReady == old(serverReady) && readyModels == old(readyModels)
    {
      var start, deadline := now, now + settings.budget;
      var attempt := 1;
      while true
        invariant 1 <= attempt <= settings.maxRetries + 1
        invariant forall n: nat :: n < attempt - 1 ==> Retried(settings, c, op, start, n)
        invariant forall n: nat :: n < attempt - 1 ==> op(n) == Fails(TimedOut) || op(n) == Fails(Infrastructure(true))
        invariant attempt > 1 ==> Slept(settings, attempt - 1) < settings.budget
        invariant now + c.took(attempt - 1) == EndOf(settings, c, start, attempt - 1)
        invariant if attempt > 1 then Clears(settings, op) && !serverReady && readyModels == {}
                  else serverReady == old(serverReady) && readyModels == old(readyModels)
        decreases settings.maxRetries + 1 - attempt
      {
        now := now + c.took(attempt - 1);
        calls := attempt;
        var a := op(attempt - 1);
        if a.Reply? {
          return Ok(a.value), calls;
        }
        if !Transient(a) || attempt >= settings.maxRetries + 1 {
          return if a.failure.TimedOut? then TimeoutError else InferenceError, calls;
        }
        InvalidateReadinessCache();
        var pause := Sleep(settings, attempt - 1);
        if now + pause >= deadline {
          return if a.failure.TimedOut? then TimeoutError else InferenceError, calls;
        }
        TimePasses(settings, c, start, attempt - 1);
        assert Retried(settings, c, op, start, attempt - 1);
        now := now + pause + c.late(attempt - 1);
        attempt := attempt + 1;
      }
    }

    /** assert_server_ready: a cached yes is believed; otherwise both checks are made, and both must say yes. */
    method AssertServerReady(live: nat -> Attempt<bool>, ready: nat -> Attempt<bool>, c1: Clock, c2: Clock)
      returns (r: Readiness)
      requires settings.Valid() && Forward(c1) && Forward(c2)
      modifies this
      ensures r == Ready <==> serverReady
      ensures old(serverReady) ==> r == Ready && readyModels == old(readyModels)
      ensures r == Ready && !old(serverReady) ==> Confirmed(settings, live) && Confirmed(settings, ready)
      ensures readyModels == old(readyModels) || readyModels == {}
      ensures live(0) == Reply(true) && ready(0) == Reply(true) ==> r == Ready && readyModels == old(readyModels)
    {
      if serverReady {
        return Ready;
      }
      var isLive, n := RunWithRetries(live, c1);
      if !isLive.Ok? {
        return Escaped(isLive.TimeoutError?);
      }
      assert isLive.value ==> live(n - 1) == Reply(true);
      var isReady, m := RunWithRetries(ready, c2);
      if !isReady.Ok? {
        return Escaped(isReady.TimeoutError?);
      }
      if !isLive.value || !isReady.value {
        return Unavailable;
      }
      assert ready(m - 1) == Reply(true);
      serverReady := true;
      r := Ready;
    }

    /** assert_model_ready: a model is cached only after the server said that it is ready. When the check itself had to
        be retried, the model is cached although the server's own flag has been cleared again. */
    method AssertModelReady(model: nat, live: nat -> Attempt<bool>, ready: nat -> Attempt<bool>, check: nat -> Attempt<bool>,
                            c1: Clock, c2: Clock, c3: Clock) returns (r: Readiness)
      requires settings.Valid() && Forward(c1) && Forward(c2) && Forward(c3)
      modifies this
      ensures r == Ready <==> model in readyModels
      ensures model in old(readyModels) ==> serverReady == old(serverReady) && readyModels == old(readyModels)
      ensures model !in old(readyModels) && r == Ready ==>
                Confirmed(settings, check) &&
                (if Clears(settings, check) then !serverReady && readyModels == {model} else serverReady)
      ensures readyModels <= old(readyModels) + {model}
    {
      if model in readyModels {
        return Ready;
      }
      r := AssertServerReady(live, ready, c1, c2);
      if r != Ready {
        return;
      }
      var isReady, n := RunWithRetries(check, c3);
      if !isReady.Ok? {
        return Escaped(isReady.TimeoutError?);
      }
      if !isReady.value {
        return Unavailable;
      }
      assert check(n - 1) == Reply(true);
      readyModels := readyModels + {model};
      r := Ready;
    }
  }

  datatype Readiness = Ready | Unavailable | Escaped(timeout: bool)

  /** Some allowed attempt of the check answered yes. */
  ghost predicate Confirmed(s: Settings, check: nat -> Attempt<bool>) {
    exists n: nat :: n <= s.maxRetries && check(n) == Reply(true)
  }

  /** Whether a run clears the readiness cache: its first attempt fails transiently and is not the only one allowed. */
  predicate Clears<T>(s: Settings, op: nat -> Attempt<T>) {
    Transient(op(0)) && s.maxRetries > 0
  }
}
