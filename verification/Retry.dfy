/** `withRetry`: retries by error category. A script gives, for each attempt, what the call does and
    whether the abort signal is seen before it or while sleeping after it. */
module Retry {
  import opened Wrappers

  datatype Category =
    | Network | Server | RateLimit | ClientBounded | ClientFatal | Protocol | Verification | Cancelled | Unknown

  datatype Answer = Success(value: int) | Failure(category: Category)

  datatype Script = Script(answer: nat -> Answer, abortedBefore: nat -> bool, abortedInSleep: nat -> bool)

  datatype Options = Options(maxBounded: int, baseMs: int, maxBackoffMs: int)

  const MAX_EXPONENT: nat := 30

  /** How a run ends: with a value, an error of attempt `at`, or cancelled before or after attempt `at`. */
  datatype End = Returned(at: nat, value: int) | Threw(at: nat) | AbortedBefore(at: nat) | AbortedAsleep(at: nat)

  datatype State = State(calls: nat, unbounded: nat, bounded: nat, sleeps: seq<int>, end: Option<End>)

  predicate Fatal(c: Category) {
    c in {Cancelled, Protocol, Verification, ClientFatal}
  }

  predicate Unbounded(c: Category) {
    c == Network || c == Server
  }

  predicate BoundedFailure(a: Answer) {
    a.Failure? && !Fatal(a.category) && !Unbounded(a.category)
  }

  predicate UnboundedFailure(a: Answer) {
    a.Failure? && Unbounded(a.category)
  }

  function Pow2(n: nat): nat {
    if n == 0 then 1 else 2 * Pow2(n - 1)
  }

  function Min(a: int, b: int): int {
    if a <= b then a else b
  }

  function ComputeBackoffMs(retryNumber: int, baseMs: int, maxMs: int): int {
    if retryNumber <= 0 then 0 else Min(baseMs * Pow2(Min(retryNumber - 1, MAX_EXPONENT)), maxMs)
  }

  /** One turn of the loop. */
  function Turn(o: Options, sc: Script, s: State): State {
    var i := s.calls;
    if sc.abortedBefore(i) then s.(end := Some(AbortedBefore(i)))
    else
      match sc.answer(i)
      case Success(v) => s.(calls := i + 1, end := Some(Returned(i, v)))
      case Failure(c) =>
        if Fatal(c) then s.(calls := i + 1, end := Some(Threw(i)))
        else
          var unbounded := if Unbounded(c) then s.unbounded + 1 else s.unbounded;
          var bounded := if Unbounded(c) then s.bounded else s.bounded + 1;
          if !Unbounded(c) && bounded > o.maxBounded then State(i + 1, unbounded, bounded, s.sleeps, Some(Threw(i)))
          else
            var ms := ComputeBackoffMs(unbounded + bounded, o.baseMs, o.maxBackoffMs);
            var end := if ms > 0 && sc.abortedInSleep(i) then Some(AbortedAsleep(i)) else None;
            State(i + 1, unbounded, bounded, s.sleeps + [ms], end)
  }

  /** The run after at most n turns. */
  function Run(o: Options, sc: Script, n: nat): State {
    if n == 0 then State(0, 0, 0, [], None)
    else
      var s := Run(o, sc, n - 1);
      if s.end.Some? then s else Turn(o, sc, s)
  }

  /** The loop, followed for at most `horizon` turns. */
  method WithRetry(o: Options, sc: Script, horizon: nat) returns (end: Option<End>, calls: nat, sleeps: seq<int>)
    ensures end == Run(o, sc, horizon).end
    ensures calls == Run(o, sc, horizon).calls
    ensures sleeps == Run(o, sc, horizon).sleeps
  {
    hide Turn;
    var unboundedRetries, boundedRetries, attempt := 0, 0, 0;
    sleeps := [];
    for turn := 0 to horizon
      invariant Run(o, sc, turn) == State(attempt, unboundedRetries, boundedRetries, sleeps, None)
    {
      ghost var s := Run(o, sc, turn);
      TurnUnfolds(o, sc, s);
      RunOnce(o, sc, turn);
      if sc.abortedBefore(attempt) {
        EndedRunsStay(o, sc, turn + 1, horizon);
        return Some(AbortedBefore(attempt)), attempt, sleeps;
      }
      var answer := sc.answer(attempt);
      attempt := attempt + 1;
      if answer.Success? {
        EndedRunsStay(o, sc, turn + 1, horizon);
        return Some(Returned(attempt - 1, answer.value)), attempt, sleeps;
      }
      var category := answer.category;
      if category == Cancelled || category == Protocol || category == Verification || category == ClientFatal {
        EndedRunsStay(o, sc, turn + 1, horizon);
        return Some(Threw(attempt - 1)), attempt, sleeps;
      }
      if category == Network || category == Server {
        unboundedRetries := unboundedRetries + 1;
      } else {
        boundedRetries := boundedRetries + 1;
        if boundedRetries > o.maxBounded {
          EndedRunsStay(o, sc, turn + 1, horizon);
          return Some(Threw(attempt - 1)), attempt, sleeps;
        }
      }
      var backoffMs := ComputeBackoffMs(unboundedRetries + boundedRetries, o.baseMs, o.maxBackoffMs);
      sleeps := sleeps + [backoffMs];
      if backoffMs > 0 && sc.abortedInSleep(attempt - 1) {
        EndedRunsStay(o, sc, turn + 1, horizon);
        return Some(AbortedAsleep(attempt - 1)), attempt, sleeps;
      }
    }
    return None, attempt, sleeps;
  }

  lemma RunOnce(o: Options, sc: Script, n: nat)
    requires Run(o, sc, n).end.None?
    ensures Run(o, sc, n + 1) == Turn(o, sc, Run(o, sc, n))
  {
  }

  /** `Turn`, spelled out for the loop. */
  lemma TurnUnfolds(o: Options, sc: Script, s: State)
    ensures var i := s.calls;
            var t, a := Turn(o, sc, s), sc.answer(i);
            && (sc.abortedBefore(i) ==> t == s.(end := Some(AbortedBefore(i))))
            && (!sc.abortedBefore(i) && a.Success? ==> t == s.(calls := i + 1, end := Some(Returned(i, a.value))))
            && (!sc.abortedBefore(i) && a.Failure? && Fatal(a.category) ==>
                  t == s.(calls := i + 1, end := Some(Threw(i))))
            && (!sc.abortedBefore(i) && BoundedFailure(a) && s.bounded + 1 > o.maxBounded ==>
                  t == State(i + 1, s.unbounded, s.bounded + 1, s.sleeps, Some(Threw(i))))
            && (!sc.abortedBefore(i)
                && (UnboundedFailure(a) || (BoundedFailure(a) && s.bounded + 1 <= o.maxBounded)) ==>
                  var ms := ComputeBackoffMs(s.unbounded + s.bounded + 1, o.baseMs, o.maxBackoffMs);
                  t == State(i + 1, if UnboundedFailure(a) then s.unbounded + 1 else s.unbounded,
                             if UnboundedFailure(a) then s.bounded else s.bounded + 1, s.sleeps + [ms],
                             if ms > 0 && sc.abortedInSleep(i) then Some(AbortedAsleep(i)) else None))
  {
    hide ComputeBackoffMs;
  }

  lemma {:induction false} EndedRunsStay(o: Options, sc: Script, m: nat, n: nat)
    requires m <= n && Run(o, sc, m).end.Some?
    ensures Run(o, sc, n) == Run(o, sc, m)
  {
    hide Turn;
    if m < n {
      EndedRunsStay(o, sc, m, n - 1);
    }
  }

  // ----- what every run keeps -----

  function CountBounded(sc: Script, n: nat): nat {
    if n == 0 then 0 else CountBounded(sc, n - 1) + if BoundedFailure(sc.answer(n - 1)) then 1 else 0
  }

  function CountUnbounded(sc: Script, n: nat): nat {
    if n == 0 then 0 else CountUnbounded(sc, n - 1) + if UnboundedFailure(sc.answer(n - 1)) then 1 else 0
  }

  function Cap(o: Options): nat {
    if o.maxBounded >= 0 then o.maxBounded else 0
  }

  /** A failure that the loop may retry. */
  predicate Retryable(a: Answer) {
    a.Failure? && !Fatal(a.category)
  }

  ghost predicate Sound(o: Options, sc: Script, s: State) {
    && (forall i :: 0 <= i < s.calls ==> !sc.abortedBefore(i))
    && (forall k :: 0 <= k < |s.sleeps| ==> s.sleeps[k] == ComputeBackoffMs(k + 1, o.baseMs, o.maxBackoffMs))
    && CountBounded(sc, s.calls) <= Cap(o) + 1
    && (match s.end
        case None =>
          && |s.sleeps| == s.calls == s.unbounded + s.bounded
          && (forall i :: 0 <= i < s.calls ==> Retryable(sc.answer(i)))
          && s.bounded == CountBounded(sc, s.calls) <= Cap(o) && s.unbounded == CountUnbounded(sc, s.calls)
        case Some(Returned(at, v)) =>
          && s.calls == at + 1 && sc.answer(at) == Success(v)
          && forall i :: 0 <= i < at ==> Retryable(sc.answer(i))
        case Some(Threw(at)) =>
          && s.calls == at + 1
          && (forall i :: 0 <= i < at ==> Retryable(sc.answer(i)))
          && sc.answer(at).Failure?
          && (Fatal(sc.answer(at).category)
              || (BoundedFailure(sc.answer(at)) && CountBounded(sc, at + 1) == Cap(o) + 1))
        case Some(AbortedBefore(at)) =>
          && s.calls == at && sc.abortedBefore(at)
          && forall i :: 0 <= i < at ==> Retryable(sc.answer(i))
        case Some(AbortedAsleep(at)) =>
          && s.calls == at + 1 && sc.abortedInSleep(at)
          && forall i :: 0 <= i <= at ==> Retryable(sc.answer(i)))
  }

  /** Every run returns the first success, throws the first fatal error unretried, gives up at the
      bounded failure after the last allowed one, makes no call once it has seen the abort signal,
      and sleeps by the backoff schedule. */
  lemma {:induction false} RunIsSound(o: Options, sc: Script, n: nat)
    ensures Sound(o, sc, Run(o, sc, n))
  {
    hide ComputeBackoffMs, Turn;
    if n > 0 {
      RunIsSound(o, sc, n - 1);
      var s := Run(o, sc, n - 1);
      if s.end.None? {
        TurnIsSound(o, sc, s);
      }
    }
  }

  lemma TurnIsSound(o: Options, sc: Script, s: State)
    requires s.end.None? && Sound(o, sc, s)
    ensures Sound(o, sc, Turn(o, sc, s))
  {
    hide ComputeBackoffMs;
  }

  /** The failures among the first n answers that count against the limit, by name. */
  function Limited(sc: Script, n: nat): nat {
    if n == 0 then 0
    else
      var a := sc.answer(n - 1);
      Limited(sc, n - 1) + if a.Failure? && a.category in {RateLimit, ClientBounded, Unknown} then 1 else 0
  }

  lemma {:induction false} LimitedAreBounded(sc: Script, n: nat)
    ensures Limited(sc, n) == CountBounded(sc, n)
  {
    if n > 0 { LimitedAreBounded(sc, n - 1); }
  }

  /** What each category does to a run that is still going and whose next call fails. Network and server
      failures are retried without end. Rate limits, bounded client errors and unknown errors are retried
      until there are more of them than allowed. All others are thrown at once. A retry sleeps first, and
      ends the run only if the signal comes during a sleep of some length. */
  lemma EachCategory(o: Options, sc: Script, n: nat)
    requires Run(o, sc, n).end.None? && !sc.abortedBefore(n) && sc.answer(n).Failure?
    ensures var next, slept := Run(o, sc, n + 1), ComputeBackoffMs(n + 1, o.baseMs, o.maxBackoffMs);
      var retried := match sc.answer(n).category
        case Network => true
        case Server => true
        case RateLimit => Limited(sc, n + 1) <= o.maxBounded
        case ClientBounded => Limited(sc, n + 1) <= o.maxBounded
        case Unknown => Limited(sc, n + 1) <= o.maxBounded
        case ClientFatal => false
        case Protocol => false
        case Verification => false
        case Cancelled => false;
      && next.calls == n + 1
      && next.sleeps == Run(o, sc, n).sleeps + (if retried then [slept] else [])
      && next.end == if !retried then Some(Threw(n))
                     else if slept > 0 && sc.abortedInSleep(n) then Some(AbortedAsleep(n)) else None
  {
    hide ComputeBackoffMs, Turn;
    RunIsSound(o, sc, n);
    CallsCountTurns(o, sc, n);
    RunOnce(o, sc, n);
    TurnUnfolds(o, sc, Run(o, sc, n));
    LimitedAreBounded(sc, n);
  }

  lemma {:induction false} Pow2Grows(m: nat, n: nat)
    requires m <= n
    ensures 1 <= Pow2(m) <= Pow2(n)
  {
    if m < n {
      Pow2Grows(m, n - 1);
    } else if m > 0 {
      Pow2Grows(m - 1, m - 1);
    }
  }

  /** The backoff schedule never shrinks and never exceeds its cap. */
  lemma BackoffIsMonotone(k: nat, l: nat, baseMs: int, maxMs: int)
    requires 1 <= k <= l && baseMs >= 0
    ensures ComputeBackoffMs(k, baseMs, maxMs) <= ComputeBackoffMs(l, baseMs, maxMs) <= maxMs
  {
    var i, j := Min(k - 1, MAX_EXPONENT), Min(l - 1, MAX_EXPONENT);
    Pow2Grows(i, j);
    MultiplyKeepsOrder(baseMs, Pow2(i), Pow2(j));
  }

  /** The first retry waits the base time, each next one twice as long up to the cap, and from the
      thirty-first on the time stays. */
  lemma BackoffDoubles(k: int, baseMs: int, maxMs: int)
    requires k >= 1 && baseMs >= 0 && maxMs >= 0
    ensures ComputeBackoffMs(1, baseMs, maxMs) == Min(baseMs, maxMs)
    ensures ComputeBackoffMs(k + 1, baseMs, maxMs)
         == if k <= 30 then Min(2 * ComputeBackoffMs(k, baseMs, maxMs), maxMs)
             else ComputeBackoffMs(k, baseMs, maxMs)
  {
    assert Pow2(0) == 1;
    hide Pow2;
    if k <= MAX_EXPONENT {
      NextPower(k - 1);
      var p := Pow2(k - 1);
      assert baseMs * (2 * p) == 2 * (baseMs * p);
      assert baseMs * p >= 0 by { MultiplyKeepsOrder(baseMs, 0, p); }
    }
  }

  lemma NextPower(n: nat)
    ensures Pow2(n + 1) == 2 * Pow2(n)
  {
  }

  lemma MultiplyKeepsOrder(a: int, x: int, y: int)
    requires a >= 0 && x <= y
    ensures a * x <= a * y
  {
  }

  /** The sleeps of a run are nondecreasing and capped. */
  lemma SleepsAreMonotone(o: Options, sc: Script, n: nat, k: nat, l: nat)
    requires o.baseMs >= 0 && k <= l < |Run(o, sc, n).sleeps|
    ensures Run(o, sc, n).sleeps[k] <= Run(o, sc, n).sleeps[l] <= o.maxBackoffMs
  {
    RunIsSound(o, sc, n);
    hide ComputeBackoffMs, Run;
    BackoffIsMonotone(k + 1, l + 1, o.baseMs, o.maxBackoffMs);
  }

  /** A run ends when network and server failures are finitely many: within as many turns as there
      are of those, plus the bounded retries, plus one. */
  lemma RunTerminates(o: Options, sc: Script, failures: nat)
    requires forall n :: CountUnbounded(sc, n) <= failures
    ensures Run(o, sc, failures + Cap(o) + 1).end.Some?
  {
    var n := failures + Cap(o) + 1;
    RunIsSound(o, sc, n);
    CallsCountTurns(o, sc, n);
  }

  lemma {:induction false} CallsCountTurns(o: Options, sc: Script, n: nat)
    ensures Run(o, sc, n).end.None? ==> Run(o, sc, n).calls == n
  {
    hide ComputeBackoffMs;
    if n > 0 {
      CallsCountTurns(o, sc, n - 1);
    }
  }
}
