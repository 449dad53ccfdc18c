/** The resolver as an object: each method is one uninterrupted section of `resolve` or `drive_search`. */
module Resolvers {
  import opened Wrappers
  import opened Decimal
  import opened Mapping
  import opened ResolverProtocol

  class Resolver {
    const hasBase: bool
    const table: StatusTable
    var flights: map<int, nat>
    var launched: seq<Flight>
    var calls: seq<Call>
    ghost var searches: seq<int>
    ghost var found: set<(int, int)>

    /** The protocol state this object is in. */
    ghost function View(): State
      reads this, table
    {
      State(hasBase, table.rows, flights, launched, calls, searches, found)
    }

    constructor (hasBase: bool, table: StatusTable)
      ensures this.hasBase == hasBase && this.table == table
      ensures Initial(View())
    {
      this.hasBase := hasBase;
      this.table := table;
      flights, launched, calls, searches, found := map[], [], [], [], {};
    }

    method Begin(snowflake: int) returns (call: nat)
      modifies this
      ensures View() == Step(old(View()), Event.Arrive(snowflake))
      ensures call == old(|calls|)
    {
      call := |calls|;
      calls := calls + [Call(snowflake, Arrived)];
    }

    method FirstLookup(call: nat, dbOk: bool)
      requires call < |calls| && calls[call].phase.Arrived?
      modifies this
      ensures View() == Step(old(View()), Event.Lookup(call, dbOk))
    {
      var phase := Joining;
      if !dbOk {
        phase := Returned(None, Err(Db));
      } else if calls[call].snowflake !in table.rows {
        phase := Returned(None, Err(NotFound));
      } else {
        var row := table.rows[calls[call].snowflake];
        if row.localId.Some? {
          phase := Returned(None, Ok(row.localId.value));
        }
      }
      calls := calls[call := calls[call].(phase := phase)];
    }

    /** The critical section that joins or inserts; it says nothing about flights of other snowflakes. */
    method JoinOrInsert(call: nat)
      requires call < |calls| && calls[call].phase.Joining?
      modifies this
      ensures View() == Step(old(View()), Event.Join(call))
      ensures calls[call].snowflake in flights && calls[call].phase == Awaiting(flights[calls[call].snowflake])
    {
      var k := calls[call].snowflake;
      var flight;
      if k in flights {
        flight := flights[k];
      } else {
        flight := |launched|;
        launched := launched + [Flight(k, call, Boarding)];
        flights := flights[k := flight];
      }
      calls := calls[call := calls[call].(phase := Awaiting(flight))];
    }

    /** The shared future is ready, and the await ends. */
    method Observe(call: nat)
      requires call < |calls| && calls[call].phase.Awaiting?
      requires calls[call].phase.flight < |launched| && launched[calls[call].phase.flight].phase.Landed?
      modifies this
      ensures View() == Step(old(View()), Event.Wake(call))
    {
      var flight := calls[call].phase.flight;
      calls := calls[call := calls[call].(phase := Leaving(flight, launched[flight].phase.outcome))];
    }

    /** The critical section that removes the entry under the snowflake; then the call returns. */
    method RemoveAndReturn(call: nat) returns (outcome: Outcome)
      requires call < |calls| && calls[call].phase.Leaving?
      modifies this
      ensures View() == Step(old(View()), Event.Leave(call))
      ensures calls[call].phase == Returned(Some(old(calls[call].phase.flight)), outcome)
    {
      var c := calls[call];
      outcome := c.phase.outcome;
      flights := map k | k in flights && k != c.snowflake :: flights[k];
      calls := calls[call := c.(phase := Returned(Some(c.phase.flight), outcome))];
    }

    /** `drive_search` up to the request: only an unmapped row with a uri is searched for. */
    method StartSearch(flight: nat, dbOk: bool)
      requires flight < |launched| && launched[flight].phase.Boarding?
      modifies this
      ensures View() == Step(old(View()), Event.Depart(flight, dbOk))
    {
      var k := launched[flight].snowflake;
      var phase := Searching;
      if !hasBase {
        phase := Landed(Err(Unreachable));
      } else if !dbOk {
        phase := Landed(Err(Db));
      } else if k !in table.rows {
        phase := Landed(Err(NotFound));
      } else if table.rows[k].localId.Some? {
        phase := Landed(Ok(table.rows[k].localId.value));
      } else if table.rows[k].postUri == "" {
        phase := Landed(Err(NotFound));
      } else {
        searches := searches + [k];
      }
      launched := launched[flight := launched[flight].(phase := phase)];
    }

    method ReceiveReply(flight: nat, reply: SearchReply)
      requires flight < |launched| && launched[flight].phase.Searching?
      modifies this
      ensures View() == Step(old(View()), Event.Reply(flight, reply))
    {
      var phase;
      match SearchOutcome(reply) {
        case Ok(id) =>
          found := found + {(launched[flight].snowflake, id)};
          phase := Storing(id);
        case Err(e) =>
          phase := Landed(Err(e));
      }
      launched := launched[flight := launched[flight].(phase := phase)];
    }

    /** Persists the mapping and ends the flight, without looking at whether the row was changed. */
    method Persist(flight: nat, dbOk: bool)
      requires flight < |launched| && launched[flight].phase.Storing?
      modifies this, table
      ensures View() == Step(old(View()), Event.Store(flight, dbOk))
    {
      var id := launched[flight].phase.id;
      if dbOk {
        var _ := table.SetMastodonLocalId(launched[flight].snowflake, id);
        launched := launched[flight := launched[flight].(phase := Landed(Ok(id)))];
      } else {
        launched := launched[flight := launched[flight].(phase := Landed(Err(Db)))];
      }
    }
  }
}
