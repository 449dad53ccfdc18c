/** What every interleaving of the resolver's steps keeps. */
module ResolverSafety {
  import opened Wrappers
  import opened Decimal
  import opened Mapping
  import opened ResolverProtocol

  /** Map entries and calls refer to flights of their own snowflake, and a call leaves with its flight's outcome. */
  ghost predicate Coherent(s: State) {
    && (forall k :: k in s.flights ==> s.flights[k] < |s.launched| && s.launched[s.flights[k]].snowflake == k)
    && (forall c :: 0 <= c < |s.calls| ==> CallCoherent(s, s.calls[c]))
  }

  ghost predicate CallCoherent(s: State, c: Call) {
    match c.phase
    case Awaiting(f) => f < |s.launched| && s.launched[f].snowflake == c.snowflake
    case Leaving(f, outcome) => LandedAs(s, f, c.snowflake, outcome)
    case Returned(Some(f), outcome) => LandedAs(s, f, c.snowflake, outcome)
    case _ => true
  }

  ghost predicate LandedAs(s: State, f: nat, k: int, outcome: Outcome) {
    f < |s.launched| && s.launched[f].snowflake == k && s.launched[f].phase == Landed(outcome)
  }

  /** Flights are only ever added, keep their snowflake and pilot, and stay landed. */
  ghost predicate FlightsGrow(s: State, s': State) {
    && |s.launched| <= |s'.launched|
    && (forall f :: 0 <= f < |s.launched| ==>
          && s'.launched[f].snowflake == s.launched[f].snowflake
          && s'.launched[f].pilot == s.launched[f].pilot
          && (s.launched[f].phase.Landed? ==> s'.launched[f].phase == s.launched[f].phase))
  }

  lemma StepGrowsFlights(s: State, e: Event)
    ensures FlightsGrow(s, Step(s, e))
  {
  }

  lemma CallStaysCoherent(s: State, s': State, c: Call)
    requires FlightsGrow(s, s') && CallCoherent(s, c)
    ensures CallCoherent(s', c)
  {
  }

  /** Only the call an event is about changes its phase. */
  ghost function CallOf(e: Event): Option<nat> {
    match e
    case Lookup(c, _) => Some(c)
    case Join(c) => Some(c)
    case Wake(c) => Some(c)
    case Leave(c) => Some(c)
    case Cancel(c) => Some(c)
    case _ => None
  }

  lemma OtherCallsStay(s: State, e: Event, c: nat)
    requires c < |s.calls| && CallOf(e) != Some(c)
    ensures |s.calls| <= |Step(s, e).calls| && Step(s, e).calls[c] == s.calls[c]
  {
  }

  lemma EventCallCoherent(s: State, e: Event, c: nat)
    requires Coherent(s)
    requires c < |Step(s, e).calls| && (c >= |s.calls| || CallOf(e) == Some(c))
    ensures CallCoherent(Step(s, e), Step(s, e).calls[c])
  {
    if c < |s.calls| {
      assert CallCoherent(s, s.calls[c]);
    }
  }

  /** Entries are only added by `Join`. */
  lemma EntriesStay(s: State, e: Event, k: int)
    requires k in Step(s, e).flights
    ensures k in s.flights ==> Step(s, e).flights[k] == s.flights[k]
    ensures k !in s.flights ==>
              e.Join? && e.call < |s.calls| && s.calls[e.call] == Call(k, Joining) && Step(s, e) == Joined(s, e.call)
  {
  }

  lemma MapStaysCoherent(s: State, e: Event, k: int)
    requires Coherent(s)
    requires k in Step(s, e).flights
    ensures Step(s, e).flights[k] < |Step(s, e).launched|
    ensures Step(s, e).launched[Step(s, e).flights[k]].snowflake == k
  {
    hide Step, CallCoherent;
    StepGrowsFlights(s, e);
    EntriesStay(s, e, k);
  }

  lemma StepKeepsCoherent(s: State, e: Event)
    requires Coherent(s)
    ensures Coherent(Step(s, e))
  {
    hide Step, CallCoherent, FlightsGrow;
    var s' := Step(s, e);
    StepGrowsFlights(s, e);
    forall k | k in s'.flights
      ensures s'.flights[k] < |s'.launched| && s'.launched[s'.flights[k]].snowflake == k
    {
      MapStaysCoherent(s, e, k);
    }
    forall c | 0 <= c < |s'.calls|
      ensures CallCoherent(s', s'.calls[c])
    {
      if c < |s.calls| && CallOf(e) != Some(c) {
        OtherCallsStay(s, e, c);
        CallStaysCoherent(s, s', s.calls[c]);
      } else {
        EventCallCoherent(s, e, c);
      }
    }
  }

  lemma {:induction false} StaysCoherent(s: State, es: seq<Event>)
    requires Coherent(s)
    ensures Coherent(After(s, es))
  {
    hide Step, Coherent;
    if es != [] {
      StaysCoherent(s, es[..|es| - 1]);
      StepKeepsCoherent(After(s, es[..|es| - 1]), es[|es| - 1]);
    }
  }

  lemma StartsCoherent(s: State)
    requires Initial(s)
    ensures Coherent(s)
  {
  }

  lemma {:induction false} RunIsCoherent(s: State, es: seq<Event>)
    requires Initial(s)
    ensures Coherent(After(s, es))
  {
    StartsCoherent(s);
    StaysCoherent(s, es);
  }

  /** What a snowflake had seen when it was last quiet: so many flights and searches, and which calls had returned. */
  datatype Before = Before(flights: nat, searches: nat, returned: set<nat>)

  /** Some later flight for the snowflake ended in an error. */
  ghost predicate Failed(s: State, k: int, from: nat) {
    exists f :: from <= f < |s.launched| && s.launched[f].snowflake == k && s.launched[f].phase.Landed? && s.launched[f].phase.outcome.Err?
  }

  ghost predicate Unmapped(s: State, k: int) {
    k in s.rows ==> s.rows[k].localId == None
  }

  ghost predicate Asking(phase: FlightPhase) {
    phase.Searching? || phase.Storing?
  }

  /** The earlier flights have landed, and neither the map nor any waiting or leaving call refers to them. */
  ghost predicate Apart(s: State, k: int, b: Before) {
    && b.flights <= |s.launched|
    && (forall f :: 0 <= f < b.flights && s.launched[f].snowflake == k ==> s.launched[f].phase.Landed?)
    && (k in s.flights ==> b.flights <= s.flights[k])
    && (forall c :: 0 <= c < |s.calls| && s.calls[c].snowflake == k ==> CallApart(s.calls[c].phase, b))
    && (forall c :: c in b.returned ==> c < |s.calls| && s.calls[c].phase.Returned?)
  }

  ghost predicate CallApart(phase: CallPhase, b: Before) {
    match phase
    case Awaiting(f) => b.flights <= f
    case Leaving(f, _) => b.flights <= f
    case _ => true
  }

  /** While the row is unmapped, the only later flight is the one in the map, and it accounts for the only later search. */
  ghost predicate AtMostOneFlight(s: State, k: int, b: Before) {
    && (forall f :: b.flights <= f < |s.launched| && s.launched[f].snowflake == k ==>
          && k in s.flights && s.flights[k] == f && !s.launched[f].phase.Landed?
          && (Asking(s.launched[f].phase) ==> k in s.rows))
    && multiset(s.searches)[k]
       == b.searches + if k in s.flights && s.flights[k] < |s.launched| && Asking(s.launched[s.flights[k]].phase) then 1 else 0
  }

  /** Once the row is mapped, later flights only ever report the mapped id, without searching. */
  ghost predicate OnlyReports(s: State, k: int, b: Before)
    requires k in s.rows && s.rows[k].localId.Some?
  {
    var id := s.rows[k].localId.value;
    && multiset(s.searches)[k] <= b.searches + 1
    && (forall f :: b.flights <= f < |s.launched| && s.launched[f].snowflake == k ==>
          s.launched[f].phase == Boarding || s.launched[f].phase == Landed(Ok(id)))
    && (forall c :: 0 <= c < |s.calls| && c !in b.returned && s.calls[c].snowflake == k
                    && s.calls[c].phase.Returned? && s.calls[c].phase.outcome.Ok? ==>
          s.calls[c].phase.outcome.value == id)
  }

  ghost predicate NoneReturned(s: State, k: int, b: Before) {
    forall c :: 0 <= c < |s.calls| && c !in b.returned && s.calls[c].snowflake == k && s.calls[c].phase.Returned? ==>
      s.calls[c].phase.outcome.Err?
  }

  /** The later flights and searches, depending on whether one has brought an id yet. */
  ghost predicate Single(s: State, k: int, b: Before) {
    if Unmapped(s, k) then AtMostOneFlight(s, k, b) && NoneReturned(s, k, b) else OnlyReports(s, k, b)
  }

  /** The invariant behind the single search, for a snowflake none of whose later flights has failed. */
  ghost predicate SingleFlight(s: State, k: int, b: Before) {
    Apart(s, k, b) && Single(s, k, b)
  }

  lemma OwnCallStaysApart(s: State, e: Event, k: int, b: Before, c: nat)
    requires Apart(s, k, b)
    requires c < |Step(s, e).calls| && Step(s, e).calls[c].snowflake == k && (c >= |s.calls| || CallOf(e) == Some(c))
    ensures CallApart(Step(s, e).calls[c].phase, b)
  {
    hide Departed;
    if c < |s.calls| {
      assert s.calls[c].snowflake == k;
      assert CallApart(s.calls[c].phase, b);
    }
  }

  lemma ReturnedStays(s: State, e: Event, c: nat)
    requires c < |s.calls| && s.calls[c].phase.Returned?
    ensures c < |Step(s, e).calls| && Step(s, e).calls[c] == s.calls[c]
  {
  }

  /** What is apart stays apart, whatever happens. */
  lemma StepKeepsApart(s: State, e: Event, k: int, b: Before)
    requires Apart(s, k, b)
    ensures Apart(Step(s, e), k, b)
  {
    hide Step, CallApart;
    var s' := Step(s, e);
    StepGrowsFlights(s, e);
    if k in s'.flights {
      EntriesStay(s, e, k);
    }
    forall c | 0 <= c < |s'.calls| && s'.calls[c].snowflake == k
      ensures CallApart(s'.calls[c].phase, b)
    {
      if c < |s.calls| && CallOf(e) != Some(c) {
        OtherCallsStay(s, e, c);
      } else {
        OwnCallStaysApart(s, e, k, b, c);
      }
    }
    forall c | c in b.returned
      ensures c < |s'.calls| && s'.calls[c].phase.Returned?
    {
      ReturnedStays(s, e, c);
    }
  }

  ghost predicate Resets(e: Event, k: int) {
    e == ClearRow(k) || e == DeleteRow(k)
  }

  /** Events of other snowflakes, and events that only move calls about, do not matter. */
  lemma CallEventKeepsSingleFlight(s: State, e: Event, k: int, b: Before)
    requires e.Arrive? || e.Lookup? || e.Wake? || e.Cancel?
    requires Coherent(s) && SingleFlight(s, k, b)
    ensures Single(Step(s, e), k, b)
  {
  }

  lemma JoinKeepsSingleFlight(s: State, e: Event, k: int, b: Before)
    requires e.Join?
    requires Coherent(s) && SingleFlight(s, k, b)
    ensures Single(Step(s, e), k, b)
  {
    hide LookedUp, Left, SearchSent, Departed, Replied, Stored, CallCoherent;
  }

  lemma LeaveKeepsSingleFlight(s: State, e: Event, k: int, b: Before)
    requires e.Leave?
    requires Coherent(s) && SingleFlight(s, k, b) && !Failed(s, k, b.flights)
    ensures Single(Step(s, e), k, b)
  {
    if e.call < |s.calls| && s.calls[e.call].phase.Leaving? && s.calls[e.call].snowflake == k {
      assert CallCoherent(s, s.calls[e.call]);
    }
  }

  lemma DepartKeepsSingleFlight(s: State, e: Event, k: int, b: Before)
    requires e.Depart?
    requires Coherent(s) && SingleFlight(s, k, b) && !Failed(Step(s, e), k, b.flights)
    ensures Single(Step(s, e), k, b)
  {
    hide LookedUp, Joined, Left, Replied, Stored, CallCoherent;
  }

  /** A reply touches nothing but its flight. */
  lemma ReplyEffect(s: State, e: Event)
    requires e.Reply?
    ensures var s' := Step(s, e);
            && s'.rows == s.rows && s'.calls == s.calls && s'.flights == s.flights && s'.searches == s.searches
            && |s'.launched| == |s.launched|
            && (forall f :: 0 <= f < |s.launched| && !(f == e.flight && s.launched[f].phase.Searching?) ==> s'.launched[f] == s.launched[f])
            && (e.flight < |s.launched| && s.launched[e.flight].phase.Searching? ==>
                  && s'.launched[e.flight].snowflake == s.launched[e.flight].snowflake
                  && (s'.launched[e.flight].phase.Storing?
                      || (s'.launched[e.flight].phase.Landed? && s'.launched[e.flight].phase.outcome.Err?)))
  {
  }

  lemma ReplyKeepsSingleFlight(s: State, e: Event, k: int, b: Before)
    requires e.Reply?
    requires Coherent(s) && SingleFlight(s, k, b) && !Failed(Step(s, e), k, b.flights)
    ensures Single(Step(s, e), k, b)
  {
    hide Step, CallCoherent, CallApart;
    ReplyEffect(s, e);
  }

  lemma StoreKeepsSingleFlight(s: State, e: Event, k: int, b: Before)
    requires e.Store?
    requires Coherent(s) && SingleFlight(s, k, b) && !Failed(Step(s, e), k, b.flights)
    ensures Single(Step(s, e), k, b)
  {
    hide LookedUp, Joined, Left, SearchSent, Departed, Replied, CallCoherent;
  }

  lemma TableEventKeepsSingleFlight(s: State, e: Event, k: int, b: Before)
    requires e.MapPost? || e.ClearRow? || e.DeleteRow?
    requires Coherent(s) && SingleFlight(s, k, b) && !Resets(e, k)
    ensures Single(Step(s, e), k, b)
  {
    hide LookedUp, Joined, Left, SearchSent, Departed, Replied, Stored, CallCoherent;
  }

  lemma {:induction false} StepKeepsSingleFlight(s: State, e: Event, k: int, b: Before)
    requires Coherent(s) && SingleFlight(s, k, b) && !Resets(e, k)
    requires !Failed(s, k, b.flights) && !Failed(Step(s, e), k, b.flights)
    ensures SingleFlight(Step(s, e), k, b)
  {
    hide Step, Single, Apart, Coherent, Failed;
    StepKeepsApart(s, e, k, b);
    match e
    case Join(_) => JoinKeepsSingleFlight(s, e, k, b);
    case Leave(_) => LeaveKeepsSingleFlight(s, e, k, b);
    case Depart(_, _) => DepartKeepsSingleFlight(s, e, k, b);
    case Reply(_, _) => ReplyKeepsSingleFlight(s, e, k, b);
    case Store(_, _) => StoreKeepsSingleFlight(s, e, k, b);
    case MapPost(_, _, _, _, _) => TableEventKeepsSingleFlight(s, e, k, b);
    case ClearRow(_) => TableEventKeepsSingleFlight(s, e, k, b);
    case DeleteRow(_) => TableEventKeepsSingleFlight(s, e, k, b);
    case _ => CallEventKeepsSingleFlight(s, e, k, b);
  }

  lemma FailedStays(s: State, e: Event, k: int, from: nat)
    requires Failed(s, k, from)
    ensures Failed(Step(s, e), k, from)
  {
    hide Step;
    StepGrowsFlights(s, e);
    var f :| from <= f < |s.launched| && s.launched[f].snowflake == k && s.launched[f].phase.Landed? && s.launched[f].phase.outcome.Err?;
    assert Step(s, e).launched[f].phase == s.launched[f].phase;
  }

  ghost predicate NoResets(es: seq<Event>, k: int) {
    forall i :: 0 <= i < |es| ==> !Resets(es[i], k)
  }

  /** Nothing is going on about the snowflake: no entry in the map, no live flight, and no call that has joined one. */
  ghost predicate Quiet(s: State, k: int) {
    && k !in s.flights
    && (forall f :: 0 <= f < |s.launched| && s.launched[f].snowflake == k ==> s.launched[f].phase.Landed?)
    && (forall c :: 0 <= c < |s.calls| && s.calls[c].snowflake == k ==> !s.calls[c].phase.Awaiting? && !s.calls[c].phase.Leaving?)
  }

  ghost function SoFar(s: State, k: int): Before {
    Before(|s.launched|, multiset(s.searches)[k], set c: nat | c < |s.calls| && s.calls[c].phase.Returned?)
  }

  lemma QuietStartsOver(s: State, k: int)
    requires Quiet(s, k)
    ensures SingleFlight(s, k, SoFar(s, k))
  {
  }

  lemma StartsQuiet(s: State, k: int)
    requires Initial(s)
    ensures Quiet(s, k)
  {
  }

  lemma {:induction false} RunKeepsSingleFlight(s: State, es: seq<Event>, k: int)
    requires Coherent(s) && Quiet(s, k) && NoResets(es, k)
    requires !Failed(After(s, es), k, |s.launched|)
    ensures SingleFlight(After(s, es), k, SoFar(s, k))
  {
    hide Step, Failed, SingleFlight, Quiet, Coherent;
    if es == [] {
      QuietStartsOver(s, k);
    } else {
      var before := es[..|es| - 1];
      if Failed(After(s, before), k, |s.launched|) {
        FailedStays(After(s, before), es[|es| - 1], k, |s.launched|);
      }
      RunKeepsSingleFlight(s, before, k);
      StaysCoherent(s, before);
      StepKeepsSingleFlight(After(s, before), es[|es| - 1], k, SoFar(s, k));
    }
  }

  /**
    * However many calls run concurrently, and whichever of them are cancelled: from any moment at which the snowflake is
    * quiet, as long as no later flight for it has ended in an error, at most one more upstream search is sent for it. So
    * a reset of the row starts over if it comes at a quiet moment.
    */
  lemma {:induction false} AtMostOneMoreSearch(s: State, es: seq<Event>, k: int)
    requires Coherent(s) && Quiet(s, k) && NoResets(es, k)
    requires !Failed(After(s, es), k, |s.launched|)
    ensures multiset(After(s, es).searches)[k] <= multiset(s.searches)[k] + 1
  {
    RunKeepsSingleFlight(s, es, k);
  }

  /** In particular, at most one search is sent up to the first failed flight. */
  lemma {:induction false} AtMostOneSearch(s: State, es: seq<Event>, k: int)
    requires Initial(s) && NoResets(es, k)
    requires !Failed(After(s, es), k, 0)
    ensures multiset(After(s, es).searches)[k] <= 1
  {
    StartsCoherent(s);
    StartsQuiet(s, k);
    AtMostOneMoreSearch(s, es, k);
  }

  /** Up to the first later flight that fails, every call that then returns an id returns the one stored in the row. */
  lemma {:induction false} SuccessIsStored(s: State, es: seq<Event>, k: int, c: nat)
    requires Coherent(s) && Quiet(s, k) && NoResets(es, k)
    requires !Failed(After(s, es), k, |s.launched|)
    requires c < |After(s, es).calls| && After(s, es).calls[c].snowflake == k
    requires c < |s.calls| ==> !s.calls[c].phase.Returned?
    requires After(s, es).calls[c].phase.Returned? && After(s, es).calls[c].phase.outcome.Ok?
    ensures MapsTo(After(s, es).rows, k, After(s, es).calls[c].phase.outcome.value)
  {
    RunKeepsSingleFlight(s, es, k);
  }

  /** Calls that joined the same flight have returned the same outcome, in every run. */
  lemma {:induction false} FlightMatesAgree(s: State, es: seq<Event>, c: nat, d: nat)
    requires Initial(s)
    requires c < |After(s, es).calls| && d < |After(s, es).calls|
    requires After(s, es).calls[c].phase.Returned? && After(s, es).calls[d].phase.Returned?
    requires After(s, es).calls[c].phase.via.Some? && After(s, es).calls[c].phase.via == After(s, es).calls[d].phase.via
    ensures After(s, es).calls[c].phase.outcome == After(s, es).calls[d].phase.outcome
    ensures After(s, es).calls[c].snowflake == After(s, es).calls[d].snowflake
  {
    RunIsCoherent(s, es);
    assert CallCoherent(After(s, es), After(s, es).calls[c]);
    assert CallCoherent(After(s, es), After(s, es).calls[d]);
  }

  lemma StepKeepsMapping(s: State, e: Event, k: int, id: int)
    requires MapsTo(s.rows, k, id) && !Resets(e, k)
    ensures MapsTo(Step(s, e).rows, k, id)
  {
  }

  /** A stored id never changes between resets of its row, failed flights or not. */
  lemma {:induction false} StoredIdIsFinal(s: State, es: seq<Event>, k: int, id: int)
    requires MapsTo(s.rows, k, id) && NoResets(es, k)
    ensures MapsTo(After(s, es).rows, k, id)
  {
    hide Step;
    if es != [] {
      StoredIdIsFinal(s, es[..|es| - 1], k, id);
      StepKeepsMapping(After(s, es[..|es| - 1]), es[|es| - 1], k, id);
    }
  }

  /** Every map entry belongs to a flight whose launching call has not returned yet. */
  ghost predicate Attended(s: State) {
    forall k :: k in s.flights ==> AttendedEntry(s, s.flights[k])
  }

  ghost predicate AttendedEntry(s: State, f: nat) {
    && f < |s.launched|
    && s.launched[f].pilot < |s.calls|
    && s.calls[s.launched[f].pilot].snowflake == s.launched[f].snowflake
    && (s.calls[s.launched[f].pilot].phase == Awaiting(f)
        || (s.calls[s.launched[f].pilot].phase.Leaving? && s.calls[s.launched[f].pilot].phase.flight == f))
  }

  /** The launching call of an entry cannot return without removing the entry. */
  lemma PilotStays(s: State, e: Event, k: int)
    requires !e.Cancel?
    requires k in s.flights && k in Step(s, e).flights
    requires s.flights[k] < |s.launched| && s.launched[s.flights[k]].snowflake == k
    requires AttendedEntry(s, s.flights[k])
    ensures AttendedEntry(Step(s, e), s.flights[k])
  {
    hide Joined, SearchSent, Replied, Stored, LookedUp;
    StepGrowsFlights(s, e);
    var pilot := s.launched[s.flights[k]].pilot;
    if CallOf(e) != Some(pilot) {
      OtherCallsStay(s, e, pilot);
    }
  }

  lemma StepKeepsAttended(s: State, e: Event)
    requires Coherent(s) && Attended(s) && !e.Cancel?
    ensures Attended(Step(s, e))
  {
    hide Step;
    var s' := Step(s, e);
    forall k | k in s'.flights
      ensures AttendedEntry(s', s'.flights[k])
    {
      EntriesStay(s, e, k);
      if k in s.flights {
        PilotStays(s, e, k);
      }
    }
  }

  lemma {:induction false} RunIsAttended(s: State, es: seq<Event>)
    requires Initial(s)
    requires forall i :: 0 <= i < |es| ==> !es[i].Cancel?
    ensures Attended(After(s, es))
  {
    hide Step;
    if es != [] {
      RunIsAttended(s, es[..|es| - 1]);
      RunIsCoherent(s, es[..|es| - 1]);
      StepKeepsAttended(After(s, es[..|es| - 1]), es[|es| - 1]);
    }
  }

  ghost predicate AllReturned(s: State) {
    forall c :: 0 <= c < |s.calls| ==> s.calls[c].phase.Returned?
  }

  lemma EntryMeansActiveCall(s: State, k: int)
    requires Attended(s)
    ensures k in s.flights ==> !AllReturned(s)
  {
    assert k in s.flights ==> AttendedEntry(s, s.flights[k]);
  }

  /** Without cancellation nothing leaks: when every call has returned, the flight map is empty. */
  lemma {:induction false} NoLeak(s: State, es: seq<Event>)
    requires Initial(s)
    requires forall i :: 0 <= i < |es| ==> !es[i].Cancel?
    requires AllReturned(After(s, es))
    ensures After(s, es).flights == map[]
  {
    hide After, AllReturned, Attended;
    RunIsAttended(s, es);
    var end := After(s, es);
    forall k {
      EntryMeansActiveCall(end, k);
    }
    assert forall k :: k !in end.flights;
  }
}
