/** Which ids a call for a known snowflake can return. */
module ResolverHonesty {
  import opened Wrappers
  import opened Decimal
  import opened Mapping
  import opened ResolverProtocol
  import opened ResolverSafety

  /** The id a snowflake was mapped to at the start of a run, or one that a search for it brought back. */
  ghost predicate KnownId(s0: State, s: State, k: int, id: int) {
    MapsTo(s0.rows, k, id) || (k, id) in s.found
  }

  /** An outcome that a call for a known snowflake may report. */
  ghost predicate Honest(s0: State, s: State, k: int, outcome: Outcome) {
    match outcome
    case Ok(id) => KnownId(s0, s, k, id)
    case Err(e) => e != NotFound
  }

  ghost predicate HonestPhase(s0: State, s: State, k: int, phase: FlightPhase) {
    match phase
    case Storing(id) => KnownId(s0, s, k, id)
    case Landed(outcome) => Honest(s0, s, k, outcome)
    case _ => true
  }

  ghost predicate HonestCall(s0: State, s: State, k: int, phase: CallPhase) {
    match phase
    case Leaving(_, outcome) => Honest(s0, s, k, outcome)
    case Returned(_, outcome) => Honest(s0, s, k, outcome)
    case _ => true
  }

  /**
    * The row is there with a uri; whatever is stored for it, or reported by a flight or to a call that came after the
    * first `c0` calls, is a known id.
    */
  ghost predicate NothingInvented(s0: State, s: State, k: int, c0: nat) {
    && k in s.rows && s.rows[k].postUri != ""
    && (s.rows[k].localId.Some? ==> KnownId(s0, s, k, s.rows[k].localId.value))
    && (forall f :: 0 <= f < |s.launched| && s.launched[f].snowflake == k ==> HonestPhase(s0, s, k, s.launched[f].phase))
    && (forall c :: c0 <= c < |s.calls| && s.calls[c].snowflake == k ==> HonestCall(s0, s, k, s.calls[c].phase))
  }

  lemma RowsStay(s: State, e: Event)
    requires !e.Store? && !e.MapPost? && !e.ClearRow? && !e.DeleteRow?
    ensures Step(s, e).rows == s.rows && s.found <= Step(s, e).found
  {
  }

  lemma RowStaysHonest(s0: State, s: State, e: Event, k: int, c0: nat)
    requires NothingInvented(s0, s, k, c0) && e != DeleteRow(k)
    ensures var rows := Step(s, e).rows;
            && k in rows && rows[k].postUri != ""
            && (rows[k].localId.Some? ==> KnownId(s0, Step(s, e), k, rows[k].localId.value))
  {
    hide HonestCall, LookedUp, Departed;
    if !e.Store? && !e.MapPost? && !e.ClearRow? && !e.DeleteRow? {
      hide Step;
      RowsStay(s, e);
    }
  }

  lemma FoundGrows(s: State, e: Event)
    ensures s.found <= Step(s, e).found
  {
  }

  /** Only the flight an event is about changes its phase. */
  ghost function FlightOf(e: Event): Option<nat> {
    match e
    case Depart(f, _) => Some(f)
    case Reply(f, _) => Some(f)
    case Store(f, _) => Some(f)
    case _ => None
  }

  lemma OtherFlightsStay(s: State, e: Event, f: nat)
    requires f < |Step(s, e).launched| && FlightOf(e) != Some(f)
    ensures if f < |s.launched| then Step(s, e).launched[f] == s.launched[f] else Step(s, e).launched[f].phase.Boarding?
  {
  }

  lemma OwnFlightStaysHonest(s0: State, s: State, e: Event, k: int, c0: nat, f: nat)
    requires NothingInvented(s0, s, k, c0)
    requires FlightOf(e) == Some(f)
    requires f < |s.launched| && s.launched[f].snowflake == k
    ensures HonestPhase(s0, Step(s, e), k, Step(s, e).launched[f].phase)
  {
    hide HonestCall, LookedUp, Left, Joined;
    assert HonestPhase(s0, s, k, s.launched[f].phase);
  }

  lemma FlightStaysHonest(s0: State, s: State, e: Event, k: int, c0: nat, f: nat)
    requires NothingInvented(s0, s, k, c0)
    requires f < |Step(s, e).launched| && Step(s, e).launched[f].snowflake == k
    ensures HonestPhase(s0, Step(s, e), k, Step(s, e).launched[f].phase)
  {
    FoundGrows(s, e);
    StepGrowsFlights(s, e);
    if FlightOf(e) != Some(f) {
      OtherFlightsStay(s, e, f);
      hide Step;
      assert f < |s.launched| ==> HonestPhase(s0, s, k, s.launched[f].phase);
    } else {
      hide Step, HonestPhase;
      StepFlightCount(s, e);
      OwnFlightStaysHonest(s0, s, e, k, c0, f);
    }
  }

  lemma StepFlightCount(s: State, e: Event)
    ensures !e.Join? ==> |Step(s, e).launched| == |s.launched|
  {
  }

  lemma CallStaysHonest(s0: State, s: State, e: Event, k: int, c0: nat, c: nat)
    requires Coherent(s) && NothingInvented(s0, s, k, c0)
    requires c0 <= c < |Step(s, e).calls| && Step(s, e).calls[c].snowflake == k
    ensures HonestCall(s0, Step(s, e), k, Step(s, e).calls[c].phase)
  {
    FoundGrows(s, e);
    if CallOf(e) != Some(c) {
      if c < |s.calls| {
        OtherCallsStay(s, e, c);
        hide Step;
        assert HonestCall(s0, s, k, s.calls[c].phase);
      }
    } else {
      OwnCallStaysHonest(s0, s, e, k, c0, c);
    }
  }

  lemma OwnCallStaysHonest(s0: State, s: State, e: Event, k: int, c0: nat, c: nat)
    requires Coherent(s) && NothingInvented(s0, s, k, c0)
    requires CallOf(e) == Some(c)
    requires c0 <= c < |Step(s, e).calls| && Step(s, e).calls[c].snowflake == k
    ensures HonestCall(s0, Step(s, e), k, Step(s, e).calls[c].phase)
  {
    hide Departed, SearchSent, Replied, Stored;
    assert c < |s.calls| && s.calls[c].snowflake == k;
    assert HonestCall(s0, s, k, s.calls[c].phase);
    assert CallCoherent(s, s.calls[c]);
  }

  lemma StepKeepsHonest(s0: State, s: State, e: Event, k: int, c0: nat)
    requires Coherent(s) && NothingInvented(s0, s, k, c0) && e != DeleteRow(k)
    ensures NothingInvented(s0, Step(s, e), k, c0)
  {
    hide Step, HonestCall, HonestPhase, KnownId, Coherent;
    var s' := Step(s, e);
    RowStaysHonest(s0, s, e, k, c0);
    forall f | 0 <= f < |s'.launched| && s'.launched[f].snowflake == k
      ensures HonestPhase(s0, s', k, s'.launched[f].phase)
    {
      FlightStaysHonest(s0, s, e, k, c0, f);
    }
    forall c | c0 <= c < |s'.calls| && s'.calls[c].snowflake == k
      ensures HonestCall(s0, s', k, s'.calls[c].phase)
    {
      CallStaysHonest(s0, s, e, k, c0, c);
    }
  }

  /** Before its row is there, no flight is about the snowflake, and no call for it is past the lookup without a result. */
  ghost predicate Untouched(s: State, k: int) {
    && (forall f :: 0 <= f < |s.launched| ==> s.launched[f].snowflake != k)
    && (forall c :: 0 <= c < |s.calls| && s.calls[c].snowflake == k ==>
          s.calls[c].phase.Arrived? || s.calls[c].phase.Returned? || s.calls[c].phase.Cancelled?)
  }

  lemma StaysUntouched(s: State, e: Event, k: int)
    requires k !in s.rows && Untouched(s, k)
    ensures Untouched(Step(s, e), k)
  {
    hide Departed, Upsert;
  }

  /** When the row appears, nothing has been invented about it yet. */
  lemma AppearsHonest(s0: State, s: State, k: int, c0: nat)
    requires Untouched(s, k) && |s.calls| <= c0
    requires k in s.rows && s.rows[k].postUri != "" && s.rows[k].localId == None
    ensures NothingInvented(s0, s, k, c0)
  {
  }

  lemma RowAppears(s: State, e: Event, k: int)
    requires k !in s.rows && k in Step(s, e).rows
    ensures Step(s, e).rows[k].localId == None
  {
  }

  lemma UriStays(s: State, e: Event, k: int)
    requires k in s.rows && e != DeleteRow(k)
    ensures k in Step(s, e).rows && Step(s, e).rows[k].postUri == s.rows[k].postUri
  {
  }

  lemma CallsGrow(s: State, e: Event)
    ensures |s.calls| <= |Step(s, e).calls|
  {
  }

  ghost predicate NoDelete(es: seq<Event>, k: int) {
    forall i :: 0 <= i < |es| ==> es[i] != DeleteRow(k)
  }

  /** Up to any moment of a run: the row is not there and untouched, or it has no uri, or nothing has been invented. */
  lemma {:induction false} RunBefore(s0: State, es: seq<Event>, k: int, c0: nat)
    requires Initial(s0) && NoDelete(es, k)
    requires |After(s0, es).calls| <= c0
    ensures k !in After(s0, es).rows ==> Untouched(After(s0, es), k)
    ensures k in After(s0, es).rows && After(s0, es).rows[k].postUri != "" ==> NothingInvented(s0, After(s0, es), k, c0)
  {
    hide Step;
    if es != [] {
      var s, e := After(s0, es[..|es| - 1]), es[|es| - 1];
      CallsGrow(s, e);
      RunBefore(s0, es[..|es| - 1], k, c0);
      hide NothingInvented, Untouched, Initial;
      if k !in s.rows {
        StaysUntouched(s, e, k);
        if k in Step(s, e).rows && Step(s, e).rows[k].postUri != "" {
          RowAppears(s, e, k);
          AppearsHonest(s0, Step(s, e), k, c0);
        }
      } else {
        UriStays(s, e, k);
        if s.rows[k].postUri != "" {
          RunIsCoherent(s0, es[..|es| - 1]);
          StepKeepsHonest(s0, s, e, k, c0);
        }
      }
    }
  }

  /** From a moment on at which the row is there with a uri, calls that arrive later hear nothing invented. */
  lemma {:induction false} RunAfter(s0: State, before: seq<Event>, es: seq<Event>, k: int)
    requires Initial(s0) && NoDelete(before + es, k)
    requires k in After(s0, before).rows && After(s0, before).rows[k].postUri != ""
    ensures NothingInvented(s0, After(s0, before + es), k, |After(s0, before).calls|)
  {
    hide Step, NothingInvented;
    assert NoDelete(before, k) by {
      assert forall i :: 0 <= i < |before| ==> (before + es)[i] == before[i];
    }
    if es == [] {
      assert before + es == before;
      RunBefore(s0, before, k, |After(s0, before).calls|);
    } else {
      var last := |es| - 1;
      assert (before + es)[..|before| + last] == before + es[..last];
      assert NoDelete(before + es[..last], k) by {
        assert forall i :: 0 <= i < |before| + last ==> (before + es)[i] == (before + es[..last])[i];
      }
      RunAfter(s0, before, es[..last], k);
      RunIsCoherent(s0, before + es[..last]);
      assert (before + es)[|before| + last] == es[last];
      StepKeepsHonest(s0, After(s0, before + es[..last]), es[last], k, |After(s0, before).calls|);
    }
  }

  /**
    * Whatever fails and whatever is cleared, a call never answers "not found" if the row of its snowflake was there
    * with a uri before the call arrived and is not deleted; and every id it answers with came from the mapping column
    * or from a search. The row may have been there from the start, or have been added while the resolver was running.
    */
  lemma {:induction false} KnownSnowflakesStayKnown(s0: State, before: seq<Event>, es: seq<Event>, k: int, c: nat)
    requires Initial(s0) && NoDelete(before + es, k)
    requires k in After(s0, before).rows && After(s0, before).rows[k].postUri != ""
    requires |After(s0, before).calls| <= c < |After(s0, before + es).calls|
    requires After(s0, before + es).calls[c].snowflake == k && After(s0, before + es).calls[c].phase.Returned?
    ensures Honest(s0, After(s0, before + es), k, After(s0, before + es).calls[c].phase.outcome)
  {
    RunAfter(s0, before, es, k);
    assert HonestCall(s0, After(s0, before + es), k, After(s0, before + es).calls[c].phase);
  }
}
