/** What each answer to a search leads to, and where the ids that calls return come from. */
module ResolverReplies {
  import opened Wrappers
  import opened Decimal
  import opened Mapping
  import opened ResolverProtocol
  import opened ResolverSafety

  /** The first match of a reply is the id that the flight goes on to store. */
  lemma {:induction false} FirstMatchIsStored(s: State, f: nat, ids: seq<string>, id: int)
    requires f < |s.launched| && s.launched[f].phase.Searching?
    requires ids != [] && ParseI64(ids[0]) == Some(id)
    ensures Step(s, Reply(f, Matches(ids))).launched == s.launched[f := s.launched[f].(phase := Storing(id))]
    ensures Step(s, Reply(f, Matches(ids))).rows == s.rows
  {
    hide ParseI64;
  }

  function AfterReply(s: State, f: nat, reply: SearchReply): FlightPhase
    requires f < |s.launched| && s.launched[f].phase.Searching?
  {
    Step(s, Reply(f, reply)).launched[f].phase
  }

  /** Which error each refusal by the upstream server is reported as. */
  lemma {:induction false} RefusalErrors(s: State, f: nat, retryAfter: Option<nat>, status: nat)
    requires f < |s.launched| && s.launched[f].phase.Searching?
    ensures AfterReply(s, f, Refused(401, retryAfter)) == Landed(Err(Forbidden))
    ensures AfterReply(s, f, Refused(403, retryAfter)) == Landed(Err(Forbidden))
    ensures AfterReply(s, f, Refused(422, retryAfter)) == Landed(Err(Blocked))
    ensures AfterReply(s, f, Refused(429, retryAfter)) == Landed(Err(RateLimited(retryAfter)))
    ensures status !in {401, 403, 422, 429} ==> AfterReply(s, f, Refused(status, retryAfter)) == Landed(Err(Upstream(status)))
  {
  }

  /** What a reply without a usable match is reported as. */
  lemma {:induction false} UnusableReplies(s: State, f: nat, ids: seq<string>)
    requires f < |s.launched| && s.launched[f].phase.Searching?
    ensures AfterReply(s, f, SendFailed) == Landed(Err(Unreachable))
    ensures AfterReply(s, f, Malformed) == Landed(Err(Upstream(502)))
    ensures ids == [] ==> AfterReply(s, f, Matches(ids)) == Landed(Err(Unresolvable))
    ensures ids != [] && ParseI64(ids[0]) == None ==> AfterReply(s, f, Matches(ids)) == Landed(Err(Upstream(502)))
  {
    hide ParseI64;
  }

  /** What a flight does when it departs: it searches only for an unmapped row with a uri. */
  lemma {:induction false} Departures(s: State, f: nat, dbOk: bool)
    requires f < |s.launched| && s.launched[f].phase.Boarding?
    ensures var k, phase := s.launched[f].snowflake, Step(s, Depart(f, dbOk)).launched[f].phase;
            && (!s.hasBase ==> phase == Landed(Err(Unreachable)))
            && (s.hasBase && !dbOk ==> phase == Landed(Err(Db)))
            && (s.hasBase && dbOk ==>
                  && (k !in s.rows ==> phase == Landed(Err(NotFound)))
                  && (k in s.rows && s.rows[k].localId.Some? ==> phase == Landed(Ok(s.rows[k].localId.value)))
                  && (k in s.rows && s.rows[k].localId == None ==>
                        phase == if s.rows[k].postUri == "" then Landed(Err(NotFound)) else Searching))
  {
  }

  /** What the first lookup of a call leads to. */
  lemma {:induction false} Lookups(s: State, c: nat, dbOk: bool)
    requires c < |s.calls| && s.calls[c].phase.Arrived?
    ensures var k, phase := s.calls[c].snowflake, Step(s, Lookup(c, dbOk)).calls[c].phase;
            && (!dbOk ==> phase == Returned(None, Err(Db)))
            && (dbOk && k !in s.rows ==> phase == Returned(None, Err(NotFound)))
            && (dbOk && k in s.rows && s.rows[k].localId.Some? ==> phase == Returned(None, Ok(s.rows[k].localId.value)))
            && (dbOk && k in s.rows && s.rows[k].localId == None ==> phase == Joining)
    ensures Step(s, Lookup(c, dbOk)).flights == s.flights && Step(s, Lookup(c, dbOk)).launched == s.launched
  {
  }

  /** A call joins the flight in the map, or else launches one and puts it there. */
  lemma {:induction false} Joins(s: State, c: nat)
    requires c < |s.calls| && s.calls[c].phase.Joining?
    ensures var k, s' := s.calls[c].snowflake, Step(s, Join(c));
            && (k in s.flights ==>
                  s'.calls[c].phase == Awaiting(s.flights[k]) && s'.flights == s.flights && s'.launched == s.launched)
            && (k !in s.flights ==>
                  && s'.calls[c].phase == Awaiting(|s.launched|)
                  && s'.flights == s.flights[k := |s.launched|]
                  && s'.launched == s.launched + [Flight(k, c, Boarding)])
  {
  }

  /** A call wakes with the outcome of its flight, and leaves with it; leaving empties the slot, whoever is in it. */
  lemma {:induction false} Leaves(s: State, c: nat, f: nat, outcome: Outcome)
    requires c < |s.calls| && f < |s.launched|
    ensures s.calls[c].phase == Awaiting(f) && s.launched[f].phase == Landed(outcome) ==>
              Step(s, Wake(c)) == s.(calls := s.calls[c := Call(s.calls[c].snowflake, Leaving(f, outcome))])
    ensures s.calls[c].phase == Leaving(f, outcome) ==>
              Step(s, Leave(c)) == s.(calls := s.calls[c := Call(s.calls[c].snowflake, Returned(Some(f), outcome))],
                                      flights := s.flights - {s.calls[c].snowflake})
  {
  }

  /** Storing writes the id into a row that has none, reports it, and touches no other row. */
  lemma {:induction false} StoringWrites(s: State, f: nat, id: int)
    requires f < |s.launched| && s.launched[f].phase == Storing(id)
    ensures var k, s' := s.launched[f].snowflake, Step(s, Store(f, true));
            && s'.launched[f].phase == Landed(Ok(id))
            && (k in s.rows && s.rows[k].localId == None ==> s'.rows == s.rows[k := s.rows[k].(localId := Some(id))])
            && (k in s.rows && s.rows[k].localId.Some? ==> s'.rows == s.rows)
            && (k !in s.rows ==> s'.rows == s.rows)
    ensures Step(s, Store(f, false)).launched[f].phase == Landed(Err(Db)) && Step(s, Store(f, false)).rows == s.rows
  {
  }

  /** A reply to the flight's search, with the id as its first match. */
  ghost predicate AnswersWith(s: State, e: Event, f: nat, id: int) {
    && e.Reply? && e.flight == f
    && f < |s.launched| && s.launched[f].phase.Searching?
    && e.reply.Matches? && e.reply.ids != [] && ParseI64(e.reply.ids[0]) == Some(id)
  }

  /** The flight finds its row mapped to the id when it departs. */
  ghost predicate ReadsAtDeparture(s: State, e: Event, f: nat, id: int) {
    && e == Depart(f, true) && s.hasBase
    && f < |s.launched| && s.launched[f].phase.Boarding? && MapsTo(s.rows, s.launched[f].snowflake, id)
  }

  /** The call finds its row mapped to the id when it looks. */
  ghost predicate ReadsAtLookup(s: State, e: Event, c: nat, id: int) {
    && e == Lookup(c, true)
    && c < |s.calls| && s.calls[c].phase.Arrived? && MapsTo(s.rows, s.calls[c].snowflake, id)
  }

  ghost predicate OnceAnswered(s: State, es: seq<Event>, f: nat, id: int) {
    exists m :: 0 <= m < |es| && AnswersWith(After(s, es[..m]), es[m], f, id)
  }

  ghost predicate OnceRead(s: State, es: seq<Event>, f: nat, id: int) {
    exists m :: 0 <= m < |es| && ReadsAtDeparture(After(s, es[..m]), es[m], f, id)
  }

  ghost predicate OnceLookedUp(s: State, es: seq<Event>, c: nat, id: int) {
    exists m :: 0 <= m < |es| && ReadsAtLookup(After(s, es[..m]), es[m], c, id)
  }

  lemma OnceMore(s: State, es: seq<Event>, n: nat, id: int)
    requires es != []
    ensures var before, e := es[..|es| - 1], es[|es| - 1];
            && (OnceAnswered(s, before, n, id) || AnswersWith(After(s, before), e, n, id) ==> OnceAnswered(s, es, n, id))
            && (OnceRead(s, before, n, id) || ReadsAtDeparture(After(s, before), e, n, id) ==> OnceRead(s, es, n, id))
            && (OnceLookedUp(s, before, n, id) || ReadsAtLookup(After(s, before), e, n, id) ==> OnceLookedUp(s, es, n, id))
  {
    hide After, AnswersWith, ReadsAtDeparture, ReadsAtLookup;
    var last := |es| - 1;
    assert forall m :: 0 <= m < last ==> es[..last][..m] == es[..m];
  }

  /** How a flight can come to an id in one step. */
  lemma FlightComesToId(s: State, e: Event, f: nat, id: int)
    requires f < |Step(s, e).launched|
    requires Step(s, e).launched[f].phase == Storing(id) || Step(s, e).launched[f].phase == Landed(Ok(id))
    ensures f < |s.launched|
    ensures Step(s, e).launched[f].phase == Storing(id) ==> s.launched[f].phase == Storing(id) || AnswersWith(s, e, f, id)
    ensures Step(s, e).launched[f].phase == Landed(Ok(id)) ==>
              s.launched[f].phase == Landed(Ok(id)) || s.launched[f].phase == Storing(id) || ReadsAtDeparture(s, e, f, id)
  {
    hide ParseI64;
  }

  /** A flight stores or reports only an id that a reply to its search brought, or that its row held at departure. */
  lemma {:induction false} FlightIdsHaveOrigins(s: State, es: seq<Event>, f: nat, id: int)
    requires Initial(s) && f < |After(s, es).launched|
    ensures After(s, es).launched[f].phase == Storing(id) ==> OnceAnswered(s, es, f, id)
    ensures After(s, es).launched[f].phase == Landed(Ok(id)) ==> OnceAnswered(s, es, f, id) || OnceRead(s, es, f, id)
  {
    if es != [] {
      hide Step, OnceAnswered, OnceRead, OnceLookedUp, AnswersWith, ReadsAtDeparture;
      var t, e := After(s, es[..|es| - 1]), es[|es| - 1];
      OnceMore(s, es, f, id);
      if After(s, es).launched[f].phase == Storing(id) || After(s, es).launched[f].phase == Landed(Ok(id)) {
        FlightComesToId(t, e, f, id);
        FlightIdsHaveOrigins(s, es[..|es| - 1], f, id);
      }
    }
  }

  lemma CallComesToId(s: State, e: Event, c: nat, id: int)
    requires c < |Step(s, e).calls| && Step(s, e).calls[c].phase == Returned(None, Ok(id))
    ensures c < |s.calls|
    ensures s.calls[c].phase == Returned(None, Ok(id)) || ReadsAtLookup(s, e, c, id)
  {
  }

  lemma {:induction false} LookupIdsHaveOrigins(s: State, es: seq<Event>, c: nat, id: int)
    requires Initial(s) && c < |After(s, es).calls| && After(s, es).calls[c].phase == Returned(None, Ok(id))
    ensures OnceLookedUp(s, es, c, id)
  {
    if es != [] {
      hide Step, OnceAnswered, OnceRead, OnceLookedUp, ReadsAtLookup;
      var t, e := After(s, es[..|es| - 1]), es[|es| - 1];
      OnceMore(s, es, c, id);
      CallComesToId(t, e, c, id);
      if t.calls[c].phase == Returned(None, Ok(id)) {
        LookupIdsHaveOrigins(s, es[..|es| - 1], c, id);
      }
    }
  }

  /**
    * Every id that a call returns has an origin: its row held it when the call looked it up, or when the flight that the
    * call joined departed, or it was the first match of a reply to that flight's search, read as a number.
    */
  lemma {:induction false} ReturnedIdsHaveOrigins(s: State, es: seq<Event>, c: nat, id: int)
    requires Initial(s) && c < |After(s, es).calls|
    requires After(s, es).calls[c].phase.Returned? && After(s, es).calls[c].phase.outcome == Ok(id)
    ensures match After(s, es).calls[c].phase.via
            case None => OnceLookedUp(s, es, c, id)
            case Some(f) =>
              && f < |After(s, es).launched| && After(s, es).launched[f].snowflake == After(s, es).calls[c].snowflake
              && (OnceAnswered(s, es, f, id) || OnceRead(s, es, f, id))
  {
    hide OnceAnswered, OnceRead, OnceLookedUp;
    match After(s, es).calls[c].phase.via
    case None => LookupIdsHaveOrigins(s, es, c, id);
    case Some(f) =>
      RunIsCoherent(s, es);
      assert CallCoherent(After(s, es), After(s, es).calls[c]);
      FlightIdsHaveOrigins(s, es, f, id);
  }

  /** The other way round: once a flight is storing an id and the write succeeds, whoever leaves it returns that id. */
  lemma {:induction false} StoredIdIsReturned(s: State, es: seq<Event>, more: seq<Event>, f: nat, id: int, c: nat)
    requires Initial(s)
    requires f < |After(s, es).launched| && After(s, es).launched[f].phase == Storing(id)
    requires var end := After(Step(After(s, es), Store(f, true)), more);
             c < |end.calls| && end.calls[c].phase.Returned? && end.calls[c].phase.via == Some(f)
    ensures After(Step(After(s, es), Store(f, true)), more).calls[c].phase.outcome == Ok(id)
  {
    var t := Step(After(s, es), Store(f, true));
    StoringWrites(After(s, es), f, id);
    RunIsCoherent(s, es);
    StepKeepsCoherent(After(s, es), Store(f, true));
    hide Step;
    StaysCoherent(t, more);
    StaysLanded(t, more, f);
    assert CallCoherent(After(t, more), After(t, more).calls[c]);
  }

  lemma {:induction false} StaysLanded(s: State, es: seq<Event>, f: nat)
    requires f < |s.launched| && s.launched[f].phase.Landed?
    ensures f < |After(s, es).launched| && After(s, es).launched[f].phase == s.launched[f].phase
  {
    hide Step;
    if es != [] {
      StaysLanded(s, es[..|es| - 1], f);
      StepGrowsFlights(After(s, es[..|es| - 1]), es[|es| - 1]);
    }
  }

  /** A flight of the snowflake was answered with the id. */
  ghost predicate AnsweredFor(s: State, es: seq<Event>, k: int, id: int) {
    exists f :: 0 <= f < |After(s, es).launched| && After(s, es).launched[f].snowflake == k && OnceAnswered(s, es, f, id)
  }

  lemma NewlyFound(s: State, e: Event, k: int, id: int) returns (f: nat)
    requires (k, id) in Step(s, e).found && (k, id) !in s.found
    ensures f < |s.launched| && s.launched[f].snowflake == k && AnswersWith(s, e, f, id)
  {
    hide ParseI64;
    f := e.flight;
  }

  /** Whatever is recorded as found was the first match of a reply to a flight of that snowflake. */
  lemma {:induction false} FoundIdsHaveOrigins(s: State, es: seq<Event>, k: int, id: int)
    requires Initial(s) && (k, id) in After(s, es).found
    ensures AnsweredFor(s, es, k, id)
  {
    if es != [] {
      hide Step, OnceAnswered, OnceRead, OnceLookedUp, AnswersWith;
      var before := es[..|es| - 1];
      var t, e := After(s, before), es[|es| - 1];
      StepGrowsFlights(t, e);
      var f;
      if (k, id) in t.found {
        FoundIdsHaveOrigins(s, before, k, id);
        f :| 0 <= f < |t.launched| && t.launched[f].snowflake == k && OnceAnswered(s, before, f, id);
      } else {
        f := NewlyFound(t, e, k, id);
      }
      OnceMore(s, es, f, id);
    }
  }

  lemma RowComesToId(s: State, e: Event, k: int, id: int) returns (f: nat)
    requires MapsTo(Step(s, e).rows, k, id) && !MapsTo(s.rows, k, id)
    ensures f < |s.launched| && s.launched[f].snowflake == k && s.launched[f].phase == Storing(id)
  {
    hide Departed, LookedUp, SearchOutcome;
    f := e.flight;
  }

  /** A row holds an id that it held from the start, or one that was the first match of a reply to one of its flights. */
  lemma {:induction false} StoredIdsHaveOrigins(s: State, es: seq<Event>, k: int, id: int)
    requires Initial(s) && MapsTo(After(s, es).rows, k, id)
    ensures MapsTo(s.rows, k, id) || AnsweredFor(s, es, k, id)
  {
    if es != [] {
      hide Step, OnceAnswered, OnceRead, OnceLookedUp, AnswersWith, MapsTo;
      var before := es[..|es| - 1];
      var t, e := After(s, before), es[|es| - 1];
      StepGrowsFlights(t, e);
      if MapsTo(t.rows, k, id) {
        StoredIdsHaveOrigins(s, before, k, id);
        if f :| 0 <= f < |t.launched| && t.launched[f].snowflake == k && OnceAnswered(s, before, f, id) {
          OnceMore(s, es, f, id);
        }
      } else {
        var f := RowComesToId(t, e, k, id);
        FlightIdsHaveOrigins(s, before, f, id);
        OnceMore(s, es, f, id);
      }
    }
  }

  /** A call for a snowflake that has no row can only be waiting for its lookup, over, or answered "not found". */
  ghost predicate Unheard(c: Call) {
    c.phase.Arrived? || c.phase.Cancelled? || c.phase == Returned(None, Err(NotFound))
  }

  lemma StaysUnheard(s: State, e: Event, k: int, c: nat)
    requires k !in s.rows && e != Lookup(c, false)
    requires c < |s.calls| ==> s.calls[c].snowflake == k ==> Unheard(s.calls[c])
    requires c < |Step(s, e).calls| && Step(s, e).calls[c].snowflake == k
    ensures Unheard(Step(s, e).calls[c])
  {
    hide Departed, SearchOutcome;
  }

  /**
    * A call that arrives while its snowflake has no row, and whose lookup does not fail, is answered "not found", as long
    * as none appears.
    */
  lemma {:induction false} AbsentIsNotFound(s: State, es: seq<Event>, k: int, c: nat)
    requires |s.calls| <= c < |After(s, es).calls| && After(s, es).calls[c].snowflake == k
    requires forall n :: 0 <= n <= |es| ==> k !in After(s, es[..n]).rows
    requires Lookup(c, false) !in es
    ensures Unheard(After(s, es).calls[c])
  {
    if es != [] {
      hide Step, Unheard;
      var last := |es| - 1;
      var before := es[..last];
      assert es == before + [es[last]];
      assert forall n :: 0 <= n <= last ==> before[..n] == es[..n];
      assert k !in After(s, es[..last]).rows;
      if c < |After(s, before).calls| && After(s, before).calls[c].snowflake == k {
        AbsentIsNotFound(s, before, k, c);
      }
      StaysUnheard(After(s, before), es[last], k, c);
    }
  }
}
