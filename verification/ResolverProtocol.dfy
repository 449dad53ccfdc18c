/**
  * The resolver's shared-search protocol as a step system. Every step is one section that runs without
  * interruption: a database round trip, a critical section of the flight map, or the end of an await.
  */
module ResolverProtocol {
  import opened Wrappers
  import opened Decimal
  import opened Mapping

  datatype ResolveError =
    | Unreachable
    | NotFound
    | Unresolvable
    | Blocked
    | Forbidden
    | RateLimited(retryAfter: Option<nat>)
    | Upstream(status: nat)
    | Db

  type Outcome = Result<int, ResolveError>

  /** What comes back from the upstream search. */
  datatype SearchReply =
    | SendFailed
    | Refused(status: nat, retryAfter: Option<nat>)
    | Malformed
    | Matches(ids: seq<string>)

  const BAD_GATEWAY: nat := 502

  function SearchOutcome(reply: SearchReply): Outcome {
    match reply
    case SendFailed => Err(Unreachable)
    case Refused(status, retryAfter) =>
      if status == 401 || status == 403 then Err(Forbidden)
      else if status == 422 then Err(Blocked)
      else if status == 429 then Err(RateLimited(retryAfter))
      else Err(Upstream(status))
    case Malformed => Err(Upstream(BAD_GATEWAY))
    case Matches(ids) =>
      if ids == [] then Err(Unresolvable)
      else
        match ParseI64(ids[0])
        case Some(id) => Ok(id)
        case None => Err(Upstream(BAD_GATEWAY))
  }

  /** A flight is one shared run of `drive_search`. */
  datatype FlightPhase = Boarding | Searching | Storing(id: int) | Landed(outcome: Outcome)

  datatype Flight = Flight(snowflake: int, pilot: nat, phase: FlightPhase)

  /** A call is one run of `resolve`; it returns either straight from the table or by way of a flight. */
  datatype CallPhase =
    | Arrived
    | Joining
    | Awaiting(flight: nat)
    | Leaving(flight: nat, outcome: Outcome)
    | Returned(via: Option<nat>, outcome: Outcome)
    | Cancelled

  datatype Call = Call(snowflake: int, phase: CallPhase)

  /** `searches` and `found` record the upstream searches sent, and the ids they brought back. */
  datatype State = State(
    hasBase: bool,
    rows: Table,
    flights: map<int, nat>,
    launched: seq<Flight>,
    calls: seq<Call>,
    searches: seq<int>,
    found: set<(int, int)>
  )

  datatype Event =
    | Arrive(snowflake: int)
    | Lookup(call: nat, dbOk: bool)
    | Join(call: nat)
    | Wake(call: nat)
    | Leave(call: nat)
    | Cancel(call: nat)
    | Depart(flight: nat, dbOk: bool)
    | Reply(flight: nat, reply: SearchReply)
    | Store(flight: nat, dbOk: bool)
    | MapPost(snowflake: int, provider: string, remoteId: int, postUri: string, postData: string)
    | ClearRow(snowflake: int)
    | DeleteRow(snowflake: int)

  function InPhase(s: State, call: nat, phase: CallPhase): State
    requires call < |s.calls|
  {
    s.(calls := s.calls[call := s.calls[call].(phase := phase)])
  }

  function Advance(s: State, flight: nat, phase: FlightPhase): State
    requires flight < |s.launched|
  {
    s.(launched := s.launched[flight := s.launched[flight].(phase := phase)])
  }

  /** The first table lookup of `resolve`. */
  function LookedUp(s: State, call: nat, dbOk: bool): CallPhase
    requires call < |s.calls|
  {
    if !dbOk then Returned(None, Err(Db))
    else
      match FindById(s.rows, s.calls[call].snowflake)
      case None => Returned(None, Err(NotFound))
      case Some(row) =>
        match row.localId
        case Some(id) => Returned(None, Ok(id))
        case None => Joining
  }

  /** Joins the flight in the map, or launches one and puts it there. */
  function Joined(s: State, call: nat): State
    requires call < |s.calls|
  {
    var k := s.calls[call].snowflake;
    if k in s.flights then InPhase(s, call, Awaiting(s.flights[k]))
    else
      InPhase(s, call, Awaiting(|s.launched|)).(
        launched := s.launched + [Flight(k, call, Boarding)],
        flights := s.flights[k := |s.launched|])
  }

  /** Removes the map entry under the call's snowflake, whatever flight it holds, and returns. */
  function Left(s: State, call: nat): State
    requires call < |s.calls| && s.calls[call].phase.Leaving?
  {
    var c := s.calls[call];
    InPhase(s, call, Returned(Some(c.phase.flight), c.phase.outcome)).(flights := s.flights - {c.snowflake})
  }

  /** `drive_search` up to the moment the search request is sent. */
  function Departed(s: State, flight: nat, dbOk: bool): FlightPhase
    requires flight < |s.launched|
  {
    if !s.hasBase then Landed(Err(Unreachable))
    else if !dbOk then Landed(Err(Db))
    else
      match FindById(s.rows, s.launched[flight].snowflake)
      case None => Landed(Err(NotFound))
      case Some(row) =>
        match row.localId
        case Some(id) => Landed(Ok(id))
        case None => if row.postUri == "" then Landed(Err(NotFound)) else Searching
  }

  function SearchSent(s: State, flight: nat, dbOk: bool): State
    requires flight < |s.launched|
  {
    var phase := Departed(s, flight, dbOk);
    var s' := Advance(s, flight, phase);
    if phase.Searching? then s'.(searches := s.searches + [s.launched[flight].snowflake]) else s'
  }

  function Replied(s: State, flight: nat, reply: SearchReply): State
    requires flight < |s.launched|
  {
    match SearchOutcome(reply)
    case Ok(id) => Advance(s, flight, Storing(id)).(found := s.found + {(s.launched[flight].snowflake, id)})
    case Err(e) => Advance(s, flight, Landed(Err(e)))
  }

  /** Stores the mapping; the flight reports the id it found even if the row already held another. */
  function Stored(s: State, flight: nat, dbOk: bool): State
    requires flight < |s.launched| && s.launched[flight].phase.Storing?
  {
    var id := s.launched[flight].phase.id;
    if dbOk then Advance(s, flight, Landed(Ok(id))).(rows := SetLocalId(s.rows, s.launched[flight].snowflake, id))
    else Advance(s, flight, Landed(Err(Db)))
  }

  /** One step; an event that is not enabled changes nothing. */
  function Step(s: State, e: Event): State {
    match e
    case Arrive(k) => s.(calls := s.calls + [Call(k, Arrived)])
    case Lookup(c, dbOk) =>
      if c < |s.calls| && s.calls[c].phase.Arrived? then InPhase(s, c, LookedUp(s, c, dbOk)) else s
    case Join(c) =>
      if c < |s.calls| && s.calls[c].phase.Joining? then Joined(s, c) else s
    case Wake(c) =>
      if c < |s.calls| && s.calls[c].phase.Awaiting? && s.calls[c].phase.flight < |s.launched|
         && s.launched[s.calls[c].phase.flight].phase.Landed?
      then InPhase(s, c, Leaving(s.calls[c].phase.flight, s.launched[s.calls[c].phase.flight].phase.outcome)) else s
    case Leave(c) =>
      if c < |s.calls| && s.calls[c].phase.Leaving? then Left(s, c) else s
    case Cancel(c) =>
      if c < |s.calls| && !s.calls[c].phase.Returned? then InPhase(s, c, Cancelled) else s
    case Depart(f, dbOk) =>
      if f < |s.launched| && s.launched[f].phase.Boarding? then SearchSent(s, f, dbOk) else s
    case Reply(f, reply) =>
      if f < |s.launched| && s.launched[f].phase.Searching? then Replied(s, f, reply) else s
    case Store(f, dbOk) =>
      if f < |s.launched| && s.launched[f].phase.Storing? then Stored(s, f, dbOk) else s
    case MapPost(k, provider, remoteId, postUri, postData) =>
      s.(rows := Upsert(s.rows, k, provider, remoteId, postUri, postData))
    case ClearRow(k) => s.(rows := ClearLocalId(s.rows, k))
    case DeleteRow(k) => s.(rows := Remove(s.rows, k))
  }

  /** The state after a sequence of events. */
  function After(s: State, es: seq<Event>): State {
    if es == [] then s else Step(After(s, es[..|es| - 1]), es[|es| - 1])
  }

  /** A fresh resolver over any table. */
  ghost predicate Initial(s: State) {
    s.flights == map[] && s.launched == [] && s.calls == [] && s.searches == [] && s.found == {}
  }
}
