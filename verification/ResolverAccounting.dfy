/** How many flights and searches a snowflake can cause, whatever fails and whatever is reset. */
module ResolverAccounting {
  import opened Wrappers
  import opened Decimal
  import opened Mapping
  import opened ResolverProtocol
  import opened ResolverSafety

  function Flights(launched: seq<Flight>, k: int): (n: nat)
    ensures n <= |launched|
  {
    if launched == [] then 0
    else Flights(launched[..|launched| - 1], k) + if launched[|launched| - 1].snowflake == k then 1 else 0
  }

  /** The flights that have not departed. */
  function Waiting(launched: seq<Flight>, k: int): nat {
    if launched == [] then 0
    else
      var f := launched[|launched| - 1];
      Waiting(launched[..|launched| - 1], k) + if f.snowflake == k && f.phase.Boarding? then 1 else 0
  }

  predicate LeftFlight(c: Call, k: int) {
    c.snowflake == k && c.phase.Returned? && c.phase.via.Some?
  }

  /** The calls that have left a flight. */
  function Departures(calls: seq<Call>, k: int): nat {
    if calls == [] then 0
    else Departures(calls[..|calls| - 1], k) + if LeftFlight(calls[|calls| - 1], k) then 1 else 0
  }

  function InMap(s: State, k: int): nat {
    if k in s.flights then 1 else 0
  }

  lemma {:induction false} FlightsAt(launched: seq<Flight>, i: nat, f: Flight, k: int)
    requires i < |launched| && f.snowflake == launched[i].snowflake
    ensures Flights(launched[i := f], k) == Flights(launched, k)
    ensures Waiting(launched[i := f], k) + (if launched[i].snowflake == k && launched[i].phase.Boarding? then 1 else 0)
         == Waiting(launched, k) + (if f.snowflake == k && f.phase.Boarding? then 1 else 0)
  {
    var n := |launched| - 1;
    if i == n {
      assert launched[i := f][..n] == launched[..n];
    } else {
      assert launched[i := f][..n] == launched[..n][i := f];
      FlightsAt(launched[..n], i, f, k);
    }
  }

  lemma FlightsAppend(launched: seq<Flight>, f: Flight, k: int)
    ensures Flights(launched + [f], k) == Flights(launched, k) + if f.snowflake == k then 1 else 0
    ensures Waiting(launched + [f], k) == Waiting(launched, k) + if f.snowflake == k && f.phase.Boarding? then 1 else 0
  {
    assert (launched + [f])[..|launched|] == launched;
  }

  lemma {:induction false} DeparturesAt(calls: seq<Call>, i: nat, c: Call, k: int)
    requires i < |calls|
    ensures Departures(calls[i := c], k) + (if LeftFlight(calls[i], k) then 1 else 0)
         == Departures(calls, k) + (if LeftFlight(c, k) then 1 else 0)
  {
    hide LeftFlight;
    var n := |calls| - 1;
    if i == n {
      assert calls[i := c][..n] == calls[..n];
    } else {
      assert calls[i := c][..n] == calls[..n][i := c];
      DeparturesAt(calls[..n], i, c, k);
    }
  }

  lemma DeparturesAppend(calls: seq<Call>, c: Call, k: int)
    ensures Departures(calls + [c], k) == Departures(calls, k) + if LeftFlight(c, k) then 1 else 0
  {
    assert (calls + [c])[..|calls|] == calls;
  }

  /** A call leaves and takes an entry of its snowflake out of the map. */
  predicate Removes(s: State, e: Event, k: int) {
    e.Leave? && e.call < |s.calls| && s.calls[e.call].phase.Leaving? && s.calls[e.call].snowflake == k && k in s.flights
  }

  function Once(b: bool): nat {
    if b then 1 else 0
  }

  lemma AdvanceCounts(s: State, f: nat, phase: FlightPhase, k: int)
    requires f < |s.launched|
    ensures Flights(Advance(s, f, phase).launched, k) == Flights(s.launched, k)
    ensures Waiting(Advance(s, f, phase).launched, k) + Once(s.launched[f].snowflake == k && s.launched[f].phase.Boarding?)
         == Waiting(s.launched, k) + Once(s.launched[f].snowflake == k && phase.Boarding?)
  {
    FlightsAt(s.launched, f, s.launched[f].(phase := phase), k);
  }

  /** A call joins and finds no entry of its snowflake in the map. */
  predicate Launches(s: State, e: Event, k: int) {
    e.Join? && e.call < |s.calls| && s.calls[e.call] == Call(k, Joining) && k !in s.flights
  }

  lemma DepartCounts(s: State, f: nat, dbOk: bool, k: int)
    ensures var s' := Step(s, Depart(f, dbOk));
            && Flights(s'.launched, k) == Flights(s.launched, k)
            && multiset(s'.searches)[k] + Waiting(s'.launched, k) <= multiset(s.searches)[k] + Waiting(s.launched, k)
  {
    hide Flights, Waiting, Departed;
    if f < |s.launched| {
      LeavesTheGate(s, f, dbOk);
      AdvanceCounts(s, f, Departed(s, f, dbOk), k);
    }
  }

  /** A reply or a write moves a flight on, and so do departures; none of them is about the map. */
  lemma FlightEventCounts(s: State, e: Event, k: int)
    requires e.Depart? || e.Reply? || e.Store?
    ensures Flights(Step(s, e).launched, k) == Flights(s.launched, k)
    ensures multiset(Step(s, e).searches)[k] + Waiting(Step(s, e).launched, k) <= multiset(s.searches)[k] + Waiting(s.launched, k)
  {
    hide Flights, Waiting, Departed, SearchSent, SearchOutcome;
    match e
    case Depart(f, dbOk) => DepartCounts(s, f, dbOk, k);
    case Reply(f, reply) =>
      if f < |s.launched| {
        match SearchOutcome(reply)
        case Ok(id) => AdvanceCounts(s, f, Storing(id), k);
        case Err(e) => AdvanceCounts(s, f, Landed(Err(e)), k);
      }
    case Store(f, dbOk) =>
      if f < |s.launched| && s.launched[f].phase.Storing? {
        AdvanceCounts(s, f, Landed(if dbOk then Ok(s.launched[f].phase.id) else Err(Db)), k);
      }
    case _ =>
  }

  lemma LeavesTheGate(s: State, f: nat, dbOk: bool)
    requires f < |s.launched|
    ensures !Departed(s, f, dbOk).Boarding?
  {
  }

  lemma OtherEventCounts(s: State, e: Event, k: int)
    requires !e.Depart? && !e.Reply? && !e.Store?
    ensures Flights(Step(s, e).launched, k) == Flights(s.launched, k) + Once(Launches(s, e, k))
    ensures Waiting(Step(s, e).launched, k) == Waiting(s.launched, k) + Once(Launches(s, e, k))
    ensures Step(s, e).searches == s.searches
  {
    hide Flights, Waiting, LookedUp;
    if e.Join? && e.call < |s.calls| {
      FlightsAppend(s.launched, Flight(s.calls[e.call].snowflake, e.call, Boarding), k);
    }
  }

  /** The map changes as flights are launched and calls leave. */
  lemma MapCounts(s: State, e: Event, k: int)
    ensures InMap(Step(s, e), k) + Once(Removes(s, e, k)) == InMap(s, k) + Once(Launches(s, e, k))
  {
    hide LookedUp, Departed;
  }

  /** Each flight that is not waiting any more has searched at most once. */
  ghost predicate SearchesCovered(s: State, k: int) {
    multiset(s.searches)[k] + Waiting(s.launched, k) <= Flights(s.launched, k)
  }

  /** Flights are only launched into an empty slot of the map, and a slot is only emptied by a call that leaves. */
  lemma StepCountsFlights(s: State, e: Event, k: int)
    ensures Flights(Step(s, e).launched, k) + InMap(s, k)
         == Flights(s.launched, k) + InMap(Step(s, e), k) + Once(Removes(s, e, k))
    ensures SearchesCovered(s, k) ==> SearchesCovered(Step(s, e), k)
  {
    MapCounts(s, e, k);
    hide Step, Flights, Waiting, Removes;
    if e.Depart? || e.Reply? || e.Store? {
      FlightEventCounts(s, e, k);
    } else {
      OtherEventCounts(s, e, k);
    }
  }

  lemma PhaseCounts(s: State, c: nat, phase: CallPhase, k: int)
    requires c < |s.calls| && !s.calls[c].phase.Returned?
    ensures Departures(InPhase(s, c, phase).calls, k)
         == Departures(s.calls, k) + Once(s.calls[c].snowflake == k && phase.Returned? && phase.via.Some?)
  {
    DeparturesAt(s.calls, c, s.calls[c].(phase := phase), k);
  }

  /** A call that takes an entry out of the map has left for good. */
  lemma StepCountsDepartures(s: State, e: Event, k: int)
    ensures Departures(Step(s, e).calls, k) >= Departures(s.calls, k) + Once(Removes(s, e, k))
  {
    hide Departures, Departed, LookedUp;
    match e
    case Arrive(j) => DeparturesAppend(s.calls, Call(j, Arrived), k);
    case Lookup(c, dbOk) =>
      if c < |s.calls| && s.calls[c].phase.Arrived? {
        PhaseCounts(s, c, LookedUp(s, c, dbOk), k);
      }
    case Join(c) =>
      if c < |s.calls| && s.calls[c].phase.Joining? {
        PhaseCounts(s, c, Awaiting(if s.calls[c].snowflake in s.flights then s.flights[s.calls[c].snowflake] else |s.launched|), k);
      }
    case Wake(c) =>
      if c < |s.calls| && s.calls[c].phase.Awaiting? && s.calls[c].phase.flight < |s.launched|
         && s.launched[s.calls[c].phase.flight].phase.Landed? {
        PhaseCounts(s, c, Leaving(s.calls[c].phase.flight, s.launched[s.calls[c].phase.flight].phase.outcome), k);
      }
    case Leave(c) =>
      if c < |s.calls| && s.calls[c].phase.Leaving? {
        PhaseCounts(s, c, Returned(Some(s.calls[c].phase.flight), s.calls[c].phase.outcome), k);
      }
    case Cancel(c) =>
      if c < |s.calls| && !s.calls[c].phase.Returned? {
        PhaseCounts(s, c, Cancelled, k);
      }
    case _ =>
  }

  /** How often an entry of the snowflake was taken out of the map in the course of a run. */
  ghost function Removals(s: State, es: seq<Event>, k: int): nat {
    if es == [] then 0
    else
      var before := es[..|es| - 1];
      Removals(s, before, k) + Once(Removes(After(s, before), es[|es| - 1], k))
  }

  /** In every run, the flights of a snowflake are the removals of its entry, and the one in the map. */
  lemma {:induction false} FlightsAreAccountedFor(s: State, es: seq<Event>, k: int)
    requires Initial(s)
    ensures Flights(After(s, es).launched, k) == Removals(s, es, k) + InMap(After(s, es), k)
    ensures SearchesCovered(After(s, es), k)
    ensures Removals(s, es, k) <= Departures(After(s, es).calls, k)
  {
    if es != [] {
      hide Step, Removes, SearchesCovered;
      var t, e := After(s, es[..|es| - 1]), es[|es| - 1];
      FlightsAreAccountedFor(s, es[..|es| - 1], k);
      StepCountsFlights(t, e, k);
      StepCountsDepartures(t, e, k);
    }
  }

  /**
    * Whatever fails, and however often the row is cleared: no more searches are sent for a snowflake than calls have
    * left a flight for it, and one.
    */
  lemma {:induction false} SearchesAreBounded(s: State, es: seq<Event>, k: int)
    requires Initial(s)
    ensures multiset(After(s, es).searches)[k] <= Departures(After(s, es).calls, k) + 1
  {
    FlightsAreAccountedFor(s, es, k);
  }
}
