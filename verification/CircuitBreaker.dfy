/** The circuit breaker in front of the Redis cache. */
module CircuitBreaker {
  import opened Wrappers

  const FAILURE_THRESHOLD: nat := 5
  const COOLDOWN: nat := 30
  const U32_LIMIT: nat := 0x1_0000_0000

  /** Both counters; times are in seconds. */
  datatype Breaker = Breaker(failures: nat, skipUntil: int)

  datatype Event = Success(at: int) | Failure(at: int)

  /** A failure counts modulo the width of the counter. */
  function Record(b: Breaker, e: Event): Breaker {
    match e
    case Success(_) => b.(failures := 0)
    case Failure(at) =>
      var failures := (b.failures + 1) % U32_LIMIT;
      if failures >= FAILURE_THRESHOLD then Breaker(failures, at + COOLDOWN) else b.(failures := failures)
  }

  predicate Open(b: Breaker, now: int) {
    b.skipUntil > now
  }

  const CLOSED := Breaker(0, 0)

  class CircuitState {
    var consecutiveFailures: nat
    var skipUntilUnix: int

    function View(): Breaker
      reads this
    {
      Breaker(consecutiveFailures, skipUntilUnix)
    }

    constructor ()
      ensures View() == CLOSED
    {
      consecutiveFailures, skipUntilUnix := 0, 0;
    }

    predicate IsOpen(now: int)
      reads this
      ensures IsOpen(now) <==> Open(View(), now)
    {
      skipUntilUnix > now
    }

    method RecordSuccess(ghost now: int)
      modifies this
      ensures View() == Record(old(View()), Success(now))
    {
      consecutiveFailures := 0;
    }

    method RecordFailure(now: int)
      modifies this
      ensures View() == Record(old(View()), Failure(now))
    {
      var previous := consecutiveFailures;
      consecutiveFailures := (previous + 1) % U32_LIMIT;
      if consecutiveFailures >= FAILURE_THRESHOLD {
        skipUntilUnix := now + COOLDOWN;
      }
    }
  }

  /** What Redis answers to a request; `Broken` is an error. */
  datatype Answer = Hit(json: string) | Miss | Broken

  /**
    * `get` on the Redis backend: asks only while the breaker is closed, and records how that went. A hit that cannot be
    * decoded is a success of Redis, but brings no value.
    */
  method GatedGet<T>(breaker: CircuitState, start: int, answer: Answer, end: int, decode: string -> Option<T>)
    returns (value: Option<T>, asked: bool)
    modifies breaker
    ensures asked <==> !old(breaker.IsOpen(start))
    ensures value == if asked && answer.Hit? then decode(answer.json) else None
    ensures breaker.View() == if !asked then old(breaker.View())
                              else Record(old(breaker.View()), if answer.Broken? then Failure(end) else Success(end))
  {
    value, asked := None, false;
    if breaker.IsOpen(start) {
      return;
    }
    asked := true;
    match answer {
      case Hit(text) =>
        breaker.RecordSuccess(end);
        value := decode(text);
      case Miss =>
        breaker.RecordSuccess(end);
      case Broken =>
        breaker.RecordFailure(end);
    }
  }

  function After(b: Breaker, es: seq<Event>): Breaker {
    if es == [] then b else Record(After(b, es[..|es| - 1]), es[|es| - 1])
  }

  /** The failures since the last success. */
  function Streak(es: seq<Event>): (n: nat)
    ensures n <= |es|
  {
    if es == [] || es[|es| - 1].Success? then 0 else Streak(es[..|es| - 1]) + 1
  }

  /** Event `i` is a failure, and at least the fifth since the last success. */
  predicate Trips(es: seq<Event>, i: nat) {
    i < |es| && es[i].Failure? && Streak(es[..i + 1]) >= FAILURE_THRESHOLD
  }

  ghost predicate Timed(es: seq<Event>) {
    && (forall i :: 0 <= i < |es| ==> es[i].at >= 0)
    && (forall i, j :: 0 <= i < j < |es| ==> es[i].at <= es[j].at)
  }

  lemma {:induction false} CounterIsStreak(es: seq<Event>)
    requires |es| < U32_LIMIT
    ensures After(CLOSED, es).failures == Streak(es)
  {
    if es != [] {
      CounterIsStreak(es[..|es| - 1]);
    }
  }

  lemma LastEventDecides(es: seq<Event>, now: nat)
    requires es != [] && |es| < U32_LIMIT
    ensures Open(After(CLOSED, es), now) <==>
              if Trips(es, |es| - 1) then now < es[|es| - 1].at + COOLDOWN else Open(After(CLOSED, es[..|es| - 1]), now)
  {
    assert es[..|es|] == es;
    CounterIsStreak(es);
    CounterIsStreak(es[..|es| - 1]);
  }

  lemma TripsOfPrefix(es: seq<Event>, i: nat)
    requires es != []
    ensures Trips(es[..|es| - 1], i) <==> i < |es| - 1 && Trips(es, i)
  {
    if i < |es| - 1 {
      assert es[..|es| - 1][..i + 1] == es[..i + 1];
    }
  }

  /**
    * With a clock that does not run backwards, the breaker is open exactly if some failure less than 30 seconds
    * ago was at least the fifth since the last success before it; a success in between does not close it.
    */
  lemma {:induction false} OpenIffRecentTrip(es: seq<Event>, now: nat)
    requires |es| < U32_LIMIT && Timed(es)
    ensures Open(After(CLOSED, es), now) <==> exists i: nat :: Trips(es, i) && now < es[i].at + COOLDOWN
  {
    if es != [] {
      var n := |es| - 1;
      OpenIffRecentTrip(es[..n], now);
      LastEventDecides(es, now);
      forall i: nat {
        TripsOfPrefix(es, i);
      }
      TripsInRange(es);
      hide After, Streak, Trips, Open;
      assert forall i: nat :: i < n ==> es[..n][i] == es[i] && es[i].at <= es[n].at;
    }
  }

  /** The streak is as long as the run of failures at the end. */
  lemma {:induction false} StreakIsFinalRun(es: seq<Event>)
    ensures forall j :: |es| - Streak(es) <= j < |es| ==> es[j].Failure?
    ensures Streak(es) < |es| ==> es[|es| - Streak(es) - 1].Success?
  {
    if es != [] && es[|es| - 1].Failure? {
      StreakIsFinalRun(es[..|es| - 1]);
    }
  }

  /** Five failures in a row, the last of them at position `i`. */
  ghost predicate FiveFailures(es: seq<Event>, i: nat) {
    4 <= i < |es| && forall j :: i - 4 <= j <= i ==> es[j].Failure?
  }

  lemma TripsMeansFive(es: seq<Event>, i: nat)
    ensures Trips(es, i) <==> FiveFailures(es, i)
  {
    if i < |es| {
      var part := es[..i + 1];
      StreakIsFinalRun(part);
      assert forall j :: 0 <= j <= i ==> part[j] == es[j];
    }
  }

  /** In plain words: open exactly if five requests in a row failed, the last of them less than 30 seconds ago. */
  lemma {:induction false} OpenIffFiveFailures(es: seq<Event>, now: nat)
    requires |es| < U32_LIMIT && Timed(es)
    ensures Open(After(Breaker(0, 0), es), now) <==> exists i: nat :: FiveFailures(es, i) && now < es[i].at + 30
  {
    OpenIffRecentTrip(es, now);
    forall i: nat {
      TripsMeansFive(es, i);
    }
    hide Trips, FiveFailures, After, Open;
  }

  lemma TripsInRange(es: seq<Event>)
    ensures forall i: nat :: Trips(es, i) ==> i < |es|
  {
  }

  /** A cache call of a sequential caller: when it begins, and when the request would have failed. */
  datatype Call = Call(start: int, end: int)

  ghost predicate Sequential(calls: seq<Call>) {
    && (forall i :: 0 <= i < |calls| ==> calls[i].start <= calls[i].end)
    && (forall i, j :: 0 <= i < j < |calls| ==> calls[i].end <= calls[j].start)
  }

  /** The breaker after the given calls of an outage that it meets in state `b`, and the calls that sent a request. */
  function Outage(b: Breaker, calls: seq<Call>): (Breaker, seq<Call>) {
    if calls == [] then (b, [])
    else
      var (now, attempts) := Outage(b, calls[..|calls| - 1]);
      var call := calls[|calls| - 1];
      if Open(now, call.start) then (now, attempts) else (Record(now, Failure(call.end)), attempts + [call])
  }

  function Attempts(b: Breaker, calls: seq<Call>): seq<Call> {
    Outage(b, calls).1
  }

  /** Which attempt of an outage is the first to trip the breaker: the fifth, or an earlier one in the middle of a streak. */
  function Tripping(b: Breaker): (n: nat)
    ensures 1 <= n <= FAILURE_THRESHOLD
  {
    if b.failures + 1 >= FAILURE_THRESHOLD then 1 else FAILURE_THRESHOLD - b.failures
  }

  /** Each attempt is counted, and from the tripping one on, each keeps the breaker open for the cooldown. */
  ghost predicate OutageInvariant(b: Breaker, now: Breaker, attempts: seq<Call>) {
    && now.failures == b.failures + |attempts|
    && now.skipUntil == (if |attempts| >= Tripping(b) then attempts[|attempts| - 1].end + COOLDOWN else b.skipUntil)
    && (forall i :: Tripping(b) <= i < |attempts| ==> attempts[i].start >= attempts[i - 1].end + COOLDOWN)
  }

  lemma OutageStep(b: Breaker, now: Breaker, attempts: seq<Call>, call: Call)
    requires OutageInvariant(b, now, attempts) && b.failures + |attempts| + 1 < U32_LIMIT && !Open(now, call.start)
    ensures OutageInvariant(b, Record(now, Failure(call.end)), attempts + [call])
  {
  }

  lemma {:induction false} OutageState(b: Breaker, calls: seq<Call>)
    requires Sequential(calls) && b.failures + |calls| < U32_LIMIT
    ensures OutageInvariant(b, Outage(b, calls).0, Attempts(b, calls))
    ensures |Attempts(b, calls)| <= |calls|
    ensures forall c :: c in Attempts(b, calls) ==> c.start <= c.end
  {
    if calls != [] {
      hide OutageInvariant, Record;
      var n := |calls| - 1;
      OutageState(b, calls[..n]);
      var (now, attempts) := Outage(b, calls[..n]);
      if !Open(now, calls[n].start) {
        OutageStep(b, now, attempts, calls[n]);
      }
    } else {
      assert OutageInvariant(b, b, []);
    }
  }

  /** Whatever state the outage finds the breaker in, attempts from the tripping one on are spaced by the cooldown. */
  lemma {:induction false} AttemptsAreSpaced(b: Breaker, calls: seq<Call>, i: nat, j: nat)
    requires Sequential(calls) && b.failures + |calls| < U32_LIMIT
    requires Tripping(b) <= i + 1 <= j < |Attempts(b, calls)|
    ensures Attempts(b, calls)[j].start >= Attempts(b, calls)[i].end + COOLDOWN * (j - i)
    decreases j
  {
    OutageState(b, calls);
    hide Attempts;
    assert Attempts(b, calls)[j] in Attempts(b, calls) && Attempts(b, calls)[j - 1] in Attempts(b, calls);
    if i + 1 < j {
      AttemptsAreSpaced(b, calls, i, j - 1);
    }
  }

  /**
    * Whatever state the outage finds the breaker in: up to `t` seconds after the end of the `m`-th attempt, if that one
    * trips the breaker, sequential callers make at most `m + t / 30` attempts. The fifth always does.
    */
  lemma {:induction false} AttemptsAreBounded(b: Breaker, calls: seq<Call>, m: nat, n: nat, t: nat)
    requires Sequential(calls) && b.failures + |calls| < U32_LIMIT
    requires Tripping(b) <= m <= n <= |Attempts(b, calls)|
    requires Attempts(b, calls)[n - 1].start <= Attempts(b, calls)[m - 1].end + t
    ensures n <= m + t / COOLDOWN
  {
    if m < n {
      AttemptsAreSpaced(b, calls, m - 1, n - 1);
    }
  }

  lemma {:induction false} AttemptsGrow(b: Breaker, calls: seq<Call>, k: nat)
    requires k <= |calls|
    ensures Attempts(b, calls[..k]) <= Attempts(b, calls)
  {
    if k < |calls| {
      var n := |calls| - 1;
      AttemptsGrow(b, calls[..n], k);
      assert calls[..n][..k] == calls[..k];
    } else {
      assert calls[..k] == calls;
    }
  }

  lemma PrefixSequential(calls: seq<Call>, k: nat)
    requires Sequential(calls) && k <= |calls|
    ensures Sequential(calls[..k])
    ensures k < |calls| ==> calls[0].start <= calls[k].start
  {
  }

  lemma AttemptAppends(b: Breaker, calls: seq<Call>, call: Call)
    requires !Open(Outage(b, calls).0, call.start)
    ensures Attempts(b, calls + [call]) == Attempts(b, calls) + [call]
  {
    hide Record;
    assert (calls + [call])[..|calls|] == calls;
  }

  /** If an outage finds the breaker closed, the calls up to the tripping one all send a request. */
  lemma {:induction false} FirstAttempts(b: Breaker, calls: seq<Call>, k: nat)
    requires Sequential(calls) && b.failures + |calls| < U32_LIMIT
    requires k <= |calls| && k <= Tripping(b)
    requires calls != [] ==> !Open(b, calls[0].start)
    ensures Attempts(b, calls[..k]) == calls[..k]
  {
    if k > 0 {
      PrefixSequential(calls, k - 1);
      FirstAttempts(b, calls, k - 1);
      OutageState(b, calls[..k - 1]);
      hide Outage, Attempts, Sequential;
      AttemptAppends(b, calls[..k - 1], calls[k - 1]);
      assert calls[..k] == calls[..k - 1] + [calls[k - 1]];
    }
  }

  /**
    * An outage after a success, with the breaker closed, begins with five attempts; up to `t` seconds after the fifth
    * call has failed, there are at most `5 + t / 30`.
    */
  lemma {:induction false} AttemptsAfterSuccess(b: Breaker, calls: seq<Call>, n: nat, t: nat)
    requires Sequential(calls) && 5 <= |calls| < U32_LIMIT
    requires b.failures == 0 && !Open(b, calls[0].start)
    requires n <= |Attempts(b, calls)|
    requires n > 0 ==> Attempts(b, calls)[n - 1].start <= calls[4].end + t
    ensures n <= 5 + t / 30
  {
    FirstAttempts(b, calls, FAILURE_THRESHOLD);
    AttemptsGrow(b, calls, FAILURE_THRESHOLD);
    assert Attempts(b, calls)[FAILURE_THRESHOLD - 1] == calls[FAILURE_THRESHOLD - 1];
    if n > FAILURE_THRESHOLD {
      AttemptsAreBounded(b, calls, FAILURE_THRESHOLD, n, t);
    }
  }
}
