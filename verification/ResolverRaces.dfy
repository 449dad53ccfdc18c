/** Exactly when two flights, or two searches, for one snowflake can be under way at once. */
module ResolverRaces {
  import opened Wrappers
  import opened Decimal
  import opened Mapping
  import opened ResolverProtocol
  import opened ResolverSafety

  ghost predicate Live(s: State, f: nat, k: int) {
    f < |s.launched| && s.launched[f].snowflake == k && !s.launched[f].phase.Landed?
  }

  /** Every live flight for the snowflake is the one later calls will join. */
  ghost predicate Registered(s: State, k: int) {
    forall f :: Live(s, f, k) ==> k in s.flights && s.flights[k] == f
  }

  /** A call that leaves finds a live flight under its snowflake, and drops it from the map. */
  ghost predicate StaleDrop(s: State, e: Event, k: int) {
    && e.Leave?
    && e.call < |s.calls|
    && s.calls[e.call].phase.Leaving?
    && s.calls[e.call].snowflake == k
    && k in s.flights
    && Live(s, s.flights[k], k)
  }

  /** A step unregisters a live flight exactly when it is a stale drop. */
  lemma {:induction false} RegisteredUnlessDropped(s: State, e: Event, k: int)
    requires Coherent(s) && Registered(s, k)
    ensures Registered(Step(s, e), k) <==> !StaleDrop(s, e, k)
  {
    var s' := Step(s, e);
    if StaleDrop(s, e, k) {
      assert Live(s', s.flights[k], k);
    } else {
      forall f | Live(s', f, k)
        ensures k in s'.flights && s'.flights[k] == f
      {
        NewlyLive(s, e, f, k);
      }
    }
  }

  /** A flight becomes live only by being launched into an empty slot of the map. */
  lemma NewlyLive(s: State, e: Event, f: nat, k: int)
    requires Coherent(s) && Live(Step(s, e), f, k)
    ensures Live(s, f, k) || (k !in s.flights && k in Step(s, e).flights && Step(s, e).flights[k] == f && e.Join?)
    ensures e.Leave? || k in s.flights ==> Live(s, f, k)
  {
  }

  ghost predicate AlwaysRegistered(s: State, es: seq<Event>, k: int) {
    forall n :: 0 <= n <= |es| ==> Registered(After(s, es[..n]), k)
  }

  ghost predicate NoStaleDrops(s: State, es: seq<Event>, k: int) {
    forall n :: 0 <= n < |es| ==> !StaleDrop(After(s, es[..n]), es[n], k)
  }

  /**
    * Over any run, every live flight stays registered if and only if no call, on leaving, drops a live flight.
    * While that holds, at most one flight per snowflake is under way, so no two searches run side by side.
    */
  lemma {:induction false} RegisteredIffNoStaleDrop(s: State, es: seq<Event>, k: int)
    requires Initial(s)
    ensures AlwaysRegistered(s, es, k) <==> NoStaleDrops(s, es, k)
  {
    hide Step, Registered, StaleDrop, Coherent;
    if es == [] {
      assert es[..0] == [];
      StartsRegistered(s, k);
    } else {
      var last := |es| - 1;
      var before := es[..last];
      assert es[..last + 1] == es;
      assert forall n :: 0 <= n <= last ==> before[..n] == es[..n];
      RegisteredIffNoStaleDrop(s, before, k);
      assert AlwaysRegistered(s, es, k) <==> AlwaysRegistered(s, before, k) && Registered(After(s, es), k);
      assert NoStaleDrops(s, es, k) <==> NoStaleDrops(s, before, k) && !StaleDrop(After(s, before), es[last], k);
      if AlwaysRegistered(s, before, k) {
        assert Registered(After(s, before[..last]), k);
        assert before[..last] == before;
        RunIsCoherent(s, before);
        RegisteredUnlessDropped(After(s, before), es[last], k);
      }
    }
  }

  lemma StartsRegistered(s: State, k: int)
    requires Initial(s)
    ensures Registered(s, k)
  {
  }

  lemma {:induction false} RegisteredIsUnique(s: State, k: int, f: nat, g: nat)
    requires Registered(s, k) && Live(s, f, k) && Live(s, g, k)
    ensures f == g
  {
  }

  /** `e` takes the live flight `f` out of the map. */
  ghost predicate Drops(s: State, e: Event, k: int, f: nat) {
    StaleDrop(s, e, k) && s.flights[k] == f
  }

  /** A step unregisters a given live flight only by dropping it, and never registers one again. */
  lemma DroppedForGood(s: State, e: Event, k: int, f: nat)
    requires Coherent(s) && Live(Step(s, e), f, k)
    ensures var s' := Step(s, e);
            (k in s'.flights && s'.flights[k] == f) <==>
              f == |s.launched| || (k in s.flights && s.flights[k] == f && !Drops(s, e, k, f))
  {
    NewlyLive(s, e, f, k);
  }

  ghost predicate NeverDropped(s: State, es: seq<Event>, k: int, f: nat) {
    forall m :: 0 <= m < |es| ==> !Drops(After(s, es[..m]), es[m], k, f)
  }

  lemma NeverDroppedStep(s: State, es: seq<Event>, k: int, f: nat)
    requires es != []
    ensures var last := |es| - 1;
              NeverDropped(s, es, k, f) <==>
                NeverDropped(s, es[..last], k, f) && !Drops(After(s, es[..last]), es[last], k, f)
  {
    hide After, Drops;
    var last := |es| - 1;
    assert forall m :: 0 <= m < last ==> es[..last][..m] == es[..m];
  }

  /** A live flight is out of the reach of later calls exactly if it has been dropped at some step of the run. */
  lemma {:induction false} UnregisteredIffDropped(s: State, es: seq<Event>, k: int, f: nat)
    requires Initial(s) && Live(After(s, es), f, k)
    ensures (k in After(s, es).flights && After(s, es).flights[k] == f) <==> NeverDropped(s, es, k, f)
  {
    if es != [] {
      hide Step, Coherent, Live, Drops, NeverDropped;
      var last := |es| - 1;
      var t := After(s, es[..last]);
      RunIsCoherent(s, es[..last]);
      DroppedForGood(t, es[last], k, f);
      NeverDroppedStep(s, es, k, f);
      if f < |t.launched| {
        LiveBefore(t, es[last], f, k);
        UnregisteredIffDropped(s, es[..last], k, f);
      } else {
        NotYetLaunched(s, es[..last], k, f);
        LaunchedNow(t, es[last], f, k);
      }
    }
  }

  lemma LiveBefore(s: State, e: Event, f: nat, k: int)
    requires Live(Step(s, e), f, k) && f < |s.launched|
    ensures Live(s, f, k)
  {
    StepGrowsFlights(s, e);
  }

  lemma LaunchedNow(s: State, e: Event, f: nat, k: int)
    requires Live(Step(s, e), f, k) && f >= |s.launched|
    ensures f == |s.launched| && !Drops(s, e, k, f)
  {
  }

  lemma {:induction false} NotYetLaunched(s: State, es: seq<Event>, k: int, f: nat)
    requires f >= |After(s, es).launched|
    ensures NeverDropped(s, es, k, f)
  {
    if es != [] {
      hide Step, NeverDropped;
      var last := |es| - 1;
      StepGrowsFlights(After(s, es[..last]), es[last]);
      NotYetLaunched(s, es[..last], k, f);
      NeverDroppedStep(s, es, k, f);
    }
  }

  /** Two flights for the snowflake are under way. */
  ghost predicate TwoLive(s: State, k: int) {
    exists f, g :: f != g && Live(s, f, k) && Live(s, g, k)
  }

  /** A call finds nothing to join, although a flight for its snowflake is under way. */
  ghost predicate BlindJoin(s: State, e: Event, k: int) {
    && e.Join?
    && e.call < |s.calls|
    && s.calls[e.call] == Call(k, Joining)
    && k !in s.flights
    && exists f :: Live(s, f, k)
  }

  lemma SecondFlightNeedsBlindJoin(s: State, e: Event, k: int)
    requires Coherent(s) && !TwoLive(s, k)
    ensures TwoLive(Step(s, e), k) <==> BlindJoin(s, e, k)
  {
    var s' := Step(s, e);
    if BlindJoin(s, e, k) {
      var f :| Live(s, f, k);
      assert Live(s', f, k) && Live(s', |s.launched|, k);
    }
    if f, g :| f != g && Live(s', f, k) && Live(s', g, k) {
      NewlyLive(s, e, f, k);
      NewlyLive(s, e, g, k);
      assert Live(s, f, k) || Live(s, g, k);
    }
  }

  ghost predicate NeverTwoLive(s: State, es: seq<Event>, k: int) {
    forall n :: 0 <= n <= |es| ==> !TwoLive(After(s, es[..n]), k)
  }

  ghost predicate NoBlindJoin(s: State, es: seq<Event>, k: int) {
    forall n :: 0 <= n < |es| ==> !BlindJoin(After(s, es[..n]), es[n], k)
  }

  /**
    * When callers share: over any run, never two flights for a snowflake are under way at once if and only if no call
    * that is about to join finds the map empty while a flight is under way.
    */
  lemma {:induction false} OneFlightIffNoBlindJoin(s: State, es: seq<Event>, k: int)
    requires Initial(s)
    ensures NeverTwoLive(s, es, k) <==> NoBlindJoin(s, es, k)
  {
    hide Step, TwoLive, BlindJoin, Coherent;
    if es == [] {
      assert es[..0] == [];
      StartsAlone(s, k);
    } else {
      var last := |es| - 1;
      var before := es[..last];
      assert es[..last + 1] == es;
      assert forall n :: 0 <= n <= last ==> before[..n] == es[..n];
      OneFlightIffNoBlindJoin(s, before, k);
      assert NeverTwoLive(s, es, k) <==> NeverTwoLive(s, before, k) && !TwoLive(After(s, es), k);
      assert NoBlindJoin(s, es, k) <==> NoBlindJoin(s, before, k) && !BlindJoin(After(s, before), es[last], k);
      if NeverTwoLive(s, before, k) {
        assert before[..last] == before;
        RunIsCoherent(s, before);
        SecondFlightNeedsBlindJoin(After(s, before), es[last], k);
      }
    }
  }

  lemma StartsAlone(s: State, k: int)
    requires Initial(s)
    ensures !TwoLive(s, k) && !TwoAsking(s, k)
  {
  }

  /** A call that joins blindly does so because every flight under way was dropped earlier, and has not landed since. */
  lemma {:induction false} BlindJoinFollowsDrop(s: State, es: seq<Event>, n: nat, k: int) returns (f: nat, m: nat)
    requires Initial(s) && n < |es| && BlindJoin(After(s, es[..n]), es[n], k)
    ensures m < n && Drops(After(s, es[..m]), es[m], k, f)
    ensures Live(After(s, es[..n]), f, k)
  {
    hide Drops, After;
    f :| Live(After(s, es[..n]), f, k);
    UnregisteredIffDropped(s, es[..n], k, f);
    m :| 0 <= m < n && Drops(After(s, es[..n][..m]), es[..n][m], k, f);
    assert es[..n][..m] == es[..m] && es[..n][m] == es[m];
  }

  ghost predicate AsksFor(s: State, f: nat, k: int) {
    f < |s.launched| && s.launched[f].snowflake == k && Asking(s.launched[f].phase)
  }

  /** Two flights have searched for the snowflake, and neither has an outcome yet. */
  ghost predicate TwoAsking(s: State, k: int) {
    exists f, g :: f != g && AsksFor(s, f, k) && AsksFor(s, g, k)
  }

  /** A flight finds the row unmapped and searches, although another flight has already asked. */
  ghost predicate SecondSearch(s: State, e: Event, k: int) {
    && e.Depart? && e.dbOk && s.hasBase
    && e.flight < |s.launched| && s.launched[e.flight] == Flight(k, s.launched[e.flight].pilot, Boarding)
    && k in s.rows && s.rows[k].localId == None && s.rows[k].postUri != ""
    && exists f :: AsksFor(s, f, k)
  }

  lemma NewlyAsking(s: State, e: Event, f: nat, k: int)
    requires AsksFor(Step(s, e), f, k)
    ensures AsksFor(s, f, k) || (e.Depart? && e.flight == f)
  {
  }

  lemma StaysAsking(s: State, e: Event, f: nat, k: int)
    requires AsksFor(s, f, k) && e.Depart?
    ensures AsksFor(Step(s, e), f, k)
  {
  }

  lemma TwoAskingNeedsSecondSearch(s: State, e: Event, k: int)
    requires !TwoAsking(s, k)
    ensures TwoAsking(Step(s, e), k) <==> SecondSearch(s, e, k)
  {
    var s' := Step(s, e);
    if SecondSearch(s, e, k) {
      var f :| AsksFor(s, f, k);
      StaysAsking(s, e, f, k);
      assert AsksFor(s', e.flight, k);
    }
    if f, g :| f != g && AsksFor(s', f, k) && AsksFor(s', g, k) {
      NewlyAsking(s, e, f, k);
      NewlyAsking(s, e, g, k);
      assert AsksFor(s, f, k) || AsksFor(s, g, k);
    }
  }

  ghost predicate NeverTwoAsking(s: State, es: seq<Event>, k: int) {
    forall n :: 0 <= n <= |es| ==> !TwoAsking(After(s, es[..n]), k)
  }

  ghost predicate NoSecondSearch(s: State, es: seq<Event>, k: int) {
    forall n :: 0 <= n < |es| ==> !SecondSearch(After(s, es[..n]), es[n], k)
  }

  /** The same for searches: never two at once if and only if no flight departs to search while another is asking. */
  lemma {:induction false} OneSearchIffNoSecondSearch(s: State, es: seq<Event>, k: int)
    requires Initial(s)
    ensures NeverTwoAsking(s, es, k) <==> NoSecondSearch(s, es, k)
  {
    hide Step, TwoAsking, SecondSearch;
    if es == [] {
      assert es[..0] == [];
      StartsAlone(s, k);
    } else {
      var last := |es| - 1;
      var before := es[..last];
      assert es[..last + 1] == es;
      assert forall n :: 0 <= n <= last ==> before[..n] == es[..n];
      OneSearchIffNoSecondSearch(s, before, k);
      assert NeverTwoAsking(s, es, k) <==> NeverTwoAsking(s, before, k) && !TwoAsking(After(s, es), k);
      assert NoSecondSearch(s, es, k) <==> NoSecondSearch(s, before, k) && !SecondSearch(After(s, before), es[last], k);
      if NeverTwoAsking(s, before, k) {
        assert before[..last] == before;
        TwoAskingNeedsSecondSearch(After(s, before), es[last], k);
      }
    }
  }

  /** Two flights that ask at once are two flights under way at once, so sharing rules out both. */
  lemma {:induction false} OneFlightMeansOneSearch(s: State, es: seq<Event>, k: int)
    requires Initial(s) && NoBlindJoin(s, es, k)
    ensures NoSecondSearch(s, es, k)
  {
    hide Step, After;
    OneFlightIffNoBlindJoin(s, es, k);
    OneSearchIffNoSecondSearch(s, es, k);
    forall n | 0 <= n <= |es|
      ensures !TwoAsking(After(s, es[..n]), k)
    {
      AskingIsLive(After(s, es[..n]), k);
    }
  }

  lemma AskingIsLive(s: State, k: int)
    ensures TwoAsking(s, k) ==> TwoLive(s, k)
  {
    if f, g :| f != g && AsksFor(s, f, k) && AsksFor(s, g, k) {
      assert Live(s, f, k) && Live(s, g, k);
    }
  }

  /** A run of a single resolver over one unmapped row, extended by one event. */
  lemma Extend(s: State, es: seq<Event>, t: State, e: Event) returns (es': seq<Event>, t': State)
    requires t == After(s, es) && NoResets(es, 7) && !Resets(e, 7)
    ensures t' == Step(t, e) == After(s, es') && NoResets(es', 7)
  {
    es', t' := es + [e], Step(t, e);
    assert es'[..|es|] == es;
  }

  function OneRow(row: Row): State {
    State(true, map[7 := row], map[], [], [], [], {})
  }

  /** Two calls wait for one flight. */
  function Sharing(row: Row): State {
    State(true, map[7 := row], map[7 := 0], [Flight(7, 0, Searching)],
          [Call(7, Awaiting(0)), Call(7, Awaiting(0))], [7], {})
  }

  /** The flight failed, one of the two calls has left, and a third call's flight is searching. */
  function Relaunched(row: Row): State {
    var failure := Err(Upstream(BAD_GATEWAY));
    State(true, map[7 := row], map[7 := 1], [Flight(7, 0, Landed(failure)), Flight(7, 2, Searching)],
          [Call(7, Returned(Some(0), failure)), Call(7, Leaving(0, failure)), Call(7, Awaiting(1))], [7, 7], {})
  }

  lemma ReachSharing(row: Row) returns (es: seq<Event>)
    requires row.localId == None && row.postUri != ""
    ensures NoResets(es, 7) && After(OneRow(row), es) == Sharing(row)
  {
    hide After, NoResets;
    var t := OneRow(row);
    es := [];
    NothingHappened(t);
    es, t := Extend(OneRow(row), es, t, Arrive(7));
    es, t := Extend(OneRow(row), es, t, Arrive(7));
    assert t == OneRow(row).(calls := [Call(7, Arrived), Call(7, Arrived)]);
    es, t := Extend(OneRow(row), es, t, Lookup(0, true));
    es, t := Extend(OneRow(row), es, t, Lookup(1, true));
    assert t == OneRow(row).(calls := [Call(7, Joining), Call(7, Joining)]);
    es, t := Extend(OneRow(row), es, t, Join(0));
    assert t.calls == [Call(7, Awaiting(0)), Call(7, Joining)];
    es, t := Extend(OneRow(row), es, t, Join(1));
    assert t.calls == [Call(7, Awaiting(0)), Call(7, Awaiting(0))];
    es, t := Extend(OneRow(row), es, t, Depart(0, true));
    assert t.launched == [Flight(7, 0, Searching)];
  }

  lemma NothingHappened(s: State)
    ensures After(s, []) == s && NoResets([], 7)
  {
  }

  lemma ReachRelaunched(row: Row) returns (es: seq<Event>)
    requires row.localId == None && row.postUri != ""
    ensures NoResets(es, 7) && After(OneRow(row), es) == Relaunched(row)
  {
    hide After, NoResets;
    var failure := Err(Upstream(BAD_GATEWAY));
    es := ReachSharing(row);
    var t := Sharing(row);
    es, t := Extend(OneRow(row), es, t, Reply(0, Malformed));
    assert t.launched == [Flight(7, 0, Landed(failure))];
    es, t := Extend(OneRow(row), es, t, Wake(0));
    es, t := Extend(OneRow(row), es, t, Wake(1));
    es, t := Extend(OneRow(row), es, t, Leave(0));
    assert t.calls == [Call(7, Returned(Some(0), failure)), Call(7, Leaving(0, failure))];
    assert t.flights == map[];
    es, t := Extend(OneRow(row), es, t, Arrive(7));
    es, t := Extend(OneRow(row), es, t, Lookup(2, true));
    assert t.calls[2] == Call(7, Joining);
    es, t := Extend(OneRow(row), es, t, Join(2));
    es, t := Extend(OneRow(row), es, t, Depart(1, true));
    assert t.calls == Relaunched(row).calls;
    assert t.launched == Relaunched(row).launched;
    assert t.flights == map[7 := 1];
  }

  /**
    * The code does not rule stale drops out. Two calls share a flight whose search fails; the first of them leaves,
    * a third call launches a new flight and starts searching; then the second call leaves and drops that flight,
    * so a fourth call launches yet another. Two searches for the same snowflake are then under way at once.
    */
  lemma {:induction false} TwoSearchesAtOnce(row: Row) returns (es: seq<Event>)
    requires row.localId == None && row.postUri != ""
    ensures Initial(OneRow(row)) && NoResets(es, 7)
    ensures !NoStaleDrops(OneRow(row), es, 7)
    ensures TwoAsking(After(OneRow(row), es), 7)
    ensures var end := After(OneRow(row), es);
              && |end.launched| == 3
              && end.launched[1] == Flight(7, 2, Searching)
              && end.launched[2] == Flight(7, 3, Searching)
  {
    hide After, NoResets;
    es := ReachRelaunched(row);
    var t := Relaunched(row);
    es, t := Extend(OneRow(row), es, t, Leave(1));
    assert t.flights == map[];
    es, t := Extend(OneRow(row), es, t, Arrive(7));
    es, t := Extend(OneRow(row), es, t, Lookup(3, true));
    assert t.calls[3] == Call(7, Joining);
    es, t := Extend(OneRow(row), es, t, Join(3));
    es, t := Extend(OneRow(row), es, t, Depart(2, true));
    assert Live(t, 1, 7) && Live(t, 2, 7);
    assert AsksFor(t, 1, 7) && AsksFor(t, 2, 7);
    assert !Registered(After(OneRow(row), es[..|es|]), 7) by {
      assert es[..|es|] == es;
    }
    RegisteredIffNoStaleDrop(OneRow(row), es, 7);
  }

  lemma {:induction false} AfterConcat(s: State, a: seq<Event>, b: seq<Event>)
    ensures After(s, a + b) == After(After(s, a), b)
  {
    hide Step;
    if b == [] {
      assert a + b == a;
    } else {
      assert (a + b)[..|a + b| - 1] == a + b[..|b| - 1];
      AfterConcat(s, a, b[..|b| - 1]);
    }
  }

  /** A shared flight has succeeded, one of its two calls has left, and the other is about to. */
  function Slow(row: Row): State {
    State(true, map[7 := row.(localId := Some(9))], map[], [Flight(7, 0, Landed(Ok(9)))],
          [Call(7, Returned(Some(0), Ok(9))), Call(7, Leaving(0, Ok(9)))], [7], {(7, 9)})
  }

  /** The flight has succeeded and landed, and both calls still wait for it. */
  function Arriving(row: Row): State {
    Slow(row).(flights := map[7 := 0], calls := [Call(7, Awaiting(0)), Call(7, Awaiting(0))])
  }

  lemma ReachArriving(row: Row) returns (es: seq<Event>)
    requires row.localId == None && row.postUri != ""
    ensures NoResets(es, 7) && After(OneRow(row), es) == Arriving(row)
  {
    hide After, NoResets, ParseI64, PrintInt;
    es := ReachSharing(row);
    var t := Sharing(row);
    ParsePrintI64(9);
    assert SearchOutcome(Matches([PrintInt(9)])) == Ok(9);
    hide SearchOutcome;
    es, t := Extend(OneRow(row), es, t, Reply(0, Matches([PrintInt(9)])));
    assert t.launched == [Flight(7, 0, Storing(9))];
    es, t := Extend(OneRow(row), es, t, Store(0, true));
    assert t.launched == [Flight(7, 0, Landed(Ok(9)))] && t.rows == map[7 := row.(localId := Some(9))];
    assert t.found == {(7, 9)};
  }

  lemma ReachSlow(row: Row) returns (es: seq<Event>)
    requires row.localId == None && row.postUri != ""
    ensures NoResets(es, 7) && After(OneRow(row), es) == Slow(row)
  {
    hide After, NoResets;
    es := ReachArriving(row);
    var t := Arriving(row);
    es, t := Extend(OneRow(row), es, t, Wake(0));
    es, t := Extend(OneRow(row), es, t, Wake(1));
    es, t := Extend(OneRow(row), es, t, Leave(0));
    assert t.calls == Slow(row).calls && t.flights == map[];
  }

  /** From there, the row has been cleared. */
  function Cleared(row: Row): State {
    Slow(row).(rows := map[7 := row])
  }

  lemma ReachSecondFlight(row: Row) returns (es: seq<Event>, t: State)
    requires row.localId == None && row.postUri != ""
    ensures NoResets(es, 7) && After(Cleared(row), es) == t
    ensures t.hasBase && t.rows == map[7 := row] && t.flights == map[]
    ensures t.launched == [Flight(7, 0, Landed(Ok(9))), Flight(7, 2, Searching)]
    ensures |t.calls| == 3
  {
    hide After, NoResets;
    t := Cleared(row);
    es := [];
    NothingHappened(t);
    es, t := Extend(Cleared(row), es, t, Arrive(7));
    es, t := Extend(Cleared(row), es, t, Lookup(2, true));
    assert t.calls[2] == Call(7, Joining);
    es, t := Extend(Cleared(row), es, t, Join(2));
    assert t.launched == [Flight(7, 0, Landed(Ok(9))), Flight(7, 2, Boarding)];
    es, t := Extend(Cleared(row), es, t, Depart(1, true));
    es, t := Extend(Cleared(row), es, t, Leave(1));
    assert t.flights == map[];
  }

  /**
    * Clearing the row at the wrong moment has the same effect as a failure. Two calls share a flight that succeeds, and
    * one of them leaves; the row is cleared, and a third call launches a search; then the second call leaves and drops
    * it, so a fourth call searches as well. No flight has failed.
    */
  lemma {:induction false} TwoSearchesAfterClear(row: Row) returns (a: seq<Event>, b: seq<Event>)
    requires row.localId == None && row.postUri != ""
    ensures Initial(OneRow(row)) && NoResets(a, 7) && NoResets(b, 7)
    ensures var end := After(OneRow(row), a + [ClearRow(7)] + b);
              TwoAsking(end, 7) && !Failed(end, 7, 0)
  {
    hide After, NoResets;
    a := ReachSlow(row);
    AfterConcat(OneRow(row), a, [ClearRow(7)]);
    AfterOne(Slow(row), ClearRow(7));
    assert Step(Slow(row), ClearRow(7)).rows == map[7 := row];
    var t;
    b, t := ReachSecondFlight(row);
    b, t := Extend(Cleared(row), b, t, Arrive(7));
    b, t := Extend(Cleared(row), b, t, Lookup(3, true));
    assert t.calls[3] == Call(7, Joining);
    b, t := Extend(Cleared(row), b, t, Join(3));
    b, t := Extend(Cleared(row), b, t, Depart(2, true));
    assert AsksFor(t, 1, 7) && AsksFor(t, 2, 7);
    AfterConcat(OneRow(row), a + [ClearRow(7)], b);
  }

  lemma AfterOne(s: State, e: Event)
    ensures After(s, [e]) == Step(s, e)
  {
    hide Step;
    assert [e][..0] == [];
  }
}
