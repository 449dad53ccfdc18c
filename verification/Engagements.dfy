/** Forwarding an engagement to Mastodon under its own id, and presenting the answer under ours. */
module Engagements {
  import opened Wrappers
  import opened Decimal
  import opened Mapping
  import opened ResolverProtocol
  import opened ResolverSafety
  import opened ResolverHonesty
  import opened ResolverReplies
  import opened Translate

  datatype EngagementError = Rejected(reason: ResolveError) | NoUpstream | ForwardFailed | BadBody | DbFailed

  /** What the forwarded request came back with. */
  datatype Forwarded = Unanswered | Refusal(status: nat) | Garbled | Success(body: Json)

  datatype Response = Passed(status: nat) | Body(json: Json)

  /** The id sent upstream, and the snowflake to show in its place. */
  datatype Target = Target(forwardId: string, hint: Option<int>)

  function ForwardTarget(id: string, resolve: int -> Outcome): Result<Target, ResolveError> {
    match ParseI64(id)
    case None => Ok(Target(id, None))
    case Some(snowflake) =>
      match resolve(snowflake)
      case Ok(localId) => Ok(Target(PrintInt(localId), Some(snowflake)))
      case Err(e) => if e == NotFound then Ok(Target(id, None)) else Err(e)
  }

  /** Pins the caller's snowflake on a body that is still about the forwarded status. */
  function Pin(body: Json, target: Target): Json {
    if target.hint.Some? && body.Obj? && "id" in body.fields && body.fields["id"] == Str(target.forwardId)
    then Obj(body.fields["id" := Str(PrintInt(target.hint.value))])
    else body
  }

  /** `apply`: the id that was sent, if any was, and the response. */
  method Apply(id: string, resolve: int -> Outcome, hasBase: bool, answer: Forwarded, table: StatusTable, dbOk: bool)
    returns (sent: Option<string>, response: Result<Response, EngagementError>)
    ensures ParseI64(id) == None ==> sent == if hasBase then Some(id) else None
    ensures ParseI64(id).Some? ==>
              match resolve(ParseI64(id).value)
              case Ok(localId) => sent == if hasBase then Some(PrintInt(localId)) else None
              case Err(e) => sent == if e == NotFound && hasBase then Some(id) else None
    ensures sent == None ==>
              response == if ParseI64(id).Some? && resolve(ParseI64(id).value).Err? && resolve(ParseI64(id).value).error != NotFound
                          then Err(Rejected(resolve(ParseI64(id).value).error)) else Err(NoUpstream)
    ensures sent.Some? ==>
              && (answer.Unanswered? ==> response == Err(ForwardFailed))
              && (answer.Refusal? ==> response == Ok(Passed(answer.status)))
              && (answer.Garbled? ==> response == Err(BadBody))
              && (answer.Success? && Ids(answer.body) != [] && !dbOk ==> response == Err(DbFailed))
              && (answer.Success? && (Ids(answer.body) == [] || dbOk) ==>
                    var translated := Pointwise(answer.body, InTable(table.rows));
                    var own := ParseI64(id).Some? && resolve(ParseI64(id).value).Ok?;
                    response == Ok(Body(if own && translated.Obj? && "id" in translated.fields
                                           && translated.fields["id"] == Str(sent.value)
                                        then Obj(translated.fields["id" := Str(PrintInt(ParseI64(id).value))])
                                        else translated)))
  {
    var target: Target;
    match ParseI64(id) {
      case None =>
        target := Target(id, None);
      case Some(snowflake) =>
        match resolve(snowflake) {
          case Ok(localId) => target := Target(PrintInt(localId), Some(snowflake));
          case Err(e) =>
            if e != NotFound {
              return None, Err(Rejected(e));
            }
            target := Target(id, None);
        }
    }
    if !hasBase {
      return None, Err(NoUpstream);
    }
    sent := Some(target.forwardId);
    match answer {
      case Unanswered => response := Err(ForwardFailed);
      case Refusal(status) => response := Ok(Passed(status));
      case Garbled => response := Err(BadBody);
      case Success(body) =>
        var translated := TranslateResponse(table, body, dbOk);
        if translated == None {
          return sent, Err(DbFailed);
        }
        var value := translated.value;
        if target.hint.Some? && value.Obj? && "id" in value.fields && value.fields["id"] == Str(target.forwardId) {
          value := Obj(value.fields["id" := Str(PrintInt(target.hint.value))]);
        }
        response := Ok(Body(value));
    }
  }

  /**
    * A snowflake whose row is there with a uri when the call arrives, and is not deleted, never goes upstream itself:
    * in every outcome of its resolver call the request is rejected, or carries an id that the mapping column held or
    * a search returned.
    */
  lemma {:induction false} ForwardsOnlyKnownIds(s0: State, before: seq<Event>, es: seq<Event>, c: nat, id: string, k: int, resolve: int -> Outcome)
    requires Initial(s0) && NoDelete(before + es, k) && ParseI64(id) == Some(k)
    requires k in After(s0, before).rows && After(s0, before).rows[k].postUri != ""
    requires |After(s0, before).calls| <= c < |After(s0, before + es).calls|
    requires After(s0, before + es).calls[c].snowflake == k && After(s0, before + es).calls[c].phase.Returned?
    requires resolve(k) == After(s0, before + es).calls[c].phase.outcome
    ensures ForwardTarget(id, resolve).Ok? ==>
              exists localId :: KnownId(s0, After(s0, before + es), k, localId)
                && ForwardTarget(id, resolve).value == Target(PrintInt(localId), Some(k))
    ensures TranslateRequestId(id, resolve).Ok? ==>
              exists localId :: KnownId(s0, After(s0, before + es), k, localId)
                && TranslateRequestId(id, resolve).value == PrintInt(localId)
  {
    KnownSnowflakesStayKnown(s0, before, es, k, c);
  }

  /** What resolving has to do with the target, case by case; and the same for ids in request bodies. */
  lemma {:induction false} TargetByCase(id: string, resolve: int -> Outcome)
    ensures ParseI64(id) == None ==> ForwardTarget(id, resolve) == Ok(Target(id, None)) && TranslateRequestId(id, resolve) == Ok(id)
    ensures ParseI64(id).Some? ==>
              var k := ParseI64(id).value;
              && (resolve(k).Ok? ==>
                    && ForwardTarget(id, resolve) == Ok(Target(PrintInt(resolve(k).value), Some(k)))
                    && TranslateRequestId(id, resolve) == Ok(PrintInt(resolve(k).value)))
              && (resolve(k) == Err(NotFound) ==>
                    ForwardTarget(id, resolve) == Ok(Target(id, None)) && TranslateRequestId(id, resolve) == Ok(id))
              && (resolve(k).Err? && resolve(k).error != NotFound ==>
                    && ForwardTarget(id, resolve) == Err(resolve(k).error)
                    && TranslateRequestId(id, resolve) == Err(resolve(k).error))
  {
  }

  /**
    * A native Mastodon id passes through: if the number has no row from the call's arrival on, and the lookup does not
    * fail, the id goes upstream and into requests as it is, and nothing is pinned on the response.
    */
  lemma {:induction false} AbsentIdsPassThrough(s: State, es: seq<Event>, k: int, c: nat, id: string, resolve: int -> Outcome)
    requires ParseI64(id) == Some(k)
    requires |s.calls| <= c < |After(s, es).calls| && After(s, es).calls[c].snowflake == k
    requires forall n :: 0 <= n <= |es| ==> k !in After(s, es[..n]).rows
    requires Lookup(c, false) !in es
    requires After(s, es).calls[c].phase.Returned? && resolve(k) == After(s, es).calls[c].phase.outcome
    ensures resolve(k) == Err(NotFound)
    ensures ForwardTarget(id, resolve) == Ok(Target(id, None)) && TranslateRequestId(id, resolve) == Ok(id)
  {
    AbsentIsNotFound(s, es, k, c);
  }

  /** Only a body that is still about the forwarded status gets another id, and it keeps all other fields. */
  lemma {:induction false} PinsOnlyTheForwarded(body: Json, target: Target, key: string)
    ensures target.hint == None || !(body.Obj? && "id" in body.fields && body.fields["id"] == Str(target.forwardId)) ==>
              Pin(body, target) == body
    ensures body.Obj? ==> Pin(body, target).Obj? && Pin(body, target).fields.Keys == body.fields.Keys
    ensures body.Obj? && key in body.fields && key != "id" ==> Pin(body, target).fields[key] == body.fields[key]
  {
  }

  lemma PrintIntInjective(a: int, b: int)
    requires I64_MIN <= a <= I64_MAX && I64_MIN <= b <= I64_MAX
    ensures PrintInt(a) == PrintInt(b) <==> a == b
  {
    ParsePrintI64(a);
    ParsePrintI64(b);
  }

  /**
    * Which snowflake the caller sees on a body about the forwarded status. It is the caller's own exactly if the
    * canonical row of the Mastodon id is the caller's, or there is none, or its number is the Mastodon id itself:
    * pinning comes after translation, which has already replaced the id whenever a row maps to it.
    */
  lemma {:induction false} CallerSeesOwnSnowflake(t: Table, body: Json, k: int, localId: int)
    requires body.Obj? && "id" in body.fields && body.fields["id"] == Str(PrintInt(localId))
    requires I64_MIN <= k <= I64_MAX && I64_MIN <= localId <= I64_MAX
    requires forall id :: id in t ==> I64_MIN <= id <= I64_MAX
    ensures var shown := Pin(Pointwise(body, InTable(t)), Target(PrintInt(localId), Some(k)));
            && shown.Obj? && "id" in shown.fields
            && (shown.fields["id"] == Str(PrintInt(k)) <==> Canonical(t, localId) in {None, Some(k), Some(localId)})
  {
    ParsePrintI64(localId);
    assert NumericField(body, "id") == Some(localId);
    var translated := Pointwise(body, InTable(t));
    match Canonical(t, localId) {
      case None =>
        assert translated.fields["id"] == Str(PrintInt(localId));
      case Some(least) =>
        assert translated.fields["id"] == Str(PrintInt(least));
        PrintIntInjective(least, localId);
        PrintIntInjective(least, k);
    }
  }

  /** Two rows of one Mastodon id: the caller of the later one is shown the earlier one. */
  lemma {:induction false} OtherSnowflakeShown(row: Row)
    requires row.localId == Some(100)
    ensures var t, body := map[5 := row, 7 := row], Obj(map["id" := Str(PrintInt(100))]);
            && Canonical(t, 100) == Some(5)
            && Pin(Pointwise(body, InTable(t)), Target(PrintInt(100), Some(7))).Obj?
            && "id" in Pin(Pointwise(body, InTable(t)), Target(PrintInt(100), Some(7))).fields
            && Pin(Pointwise(body, InTable(t)), Target(PrintInt(100), Some(7))).fields["id"] != Str(PrintInt(7))
  {
    hide Pointwise, Pin, PrintInt;
    var t, body := map[5 := row, 7 := row], Obj(map["id" := Str(PrintInt(100))]);
    assert MapsTo(t, 5, 100) && MapsTo(t, 7, 100);
    assert Canonical(t, 100) == Some(5);
    CallerSeesOwnSnowflake(t, body, 7, 100);
  }

  /** Every id that translation puts into a response resolves, on the next request, to the id it replaced. */
  lemma {:induction false} TranslatedIdsResolveBack(s: State, value: Json, i: nat, call: nat)
    requires forall id :: id in s.rows ==> I64_MIN <= id <= I64_MAX
    requires i < |Ids(value)| && Canonical(s.rows, Ids(value)[i]).Some?
    requires i < |Ids(Pointwise(value, InTable(s.rows)))|
    requires call < |s.calls| && s.calls[call].snowflake == Ids(Pointwise(value, InTable(s.rows)))[i]
    ensures LookedUp(s, call, true) == Returned(None, Ok(Ids(value)[i]))
  {
    var f := InTable(s.rows);
    assert InRange(f);
    IdsTranslated(value, f);
    assert Ids(Pointwise(value, f))[i] == Translated(Ids(value)[i], f);
  }
}
