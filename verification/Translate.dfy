/** Translating ids inside Mastodon's JSON, on the way in and on the way out. */
module Translate {
  import opened Wrappers
  import opened Decimal
  import opened Mapping
  import opened ResolverProtocol

  datatype Json =
    | Null
    | Bool(value: bool)
    | Number(text: string)
    | Str(text: string)
    | Arr(items: seq<Json>)
    | Obj(fields: map<string, Json>)

  /** `translate_request_id`: the id to use instead, or the reason to reject the request. */
  function TranslateRequestId(id: string, resolve: int -> Outcome): Result<string, ResolveError> {
    match ParseI64(id)
    case None => Ok(id)
    case Some(snowflake) =>
      match resolve(snowflake)
      case Ok(localId) => Ok(PrintInt(localId))
      case Err(e) => if e == NotFound then Ok(id) else Err(e)
  }

  /** The number in an id field, if it is a string that holds one. */
  function NumericField(value: Json, key: string): Option<int> {
    if value.Obj? && key in value.fields && value.fields[key].Str? then ParseI64(value.fields[key].text) else None
  }

  predicate HasReblog(value: Json) {
    value.Obj? && "reblog" in value.fields && value.fields["reblog"] != Null
  }

  predicate HasQuoted(value: Json) {
    && value.Obj? && "quote" in value.fields
    && value.fields["quote"].Obj? && "quoted_status" in value.fields["quote"].fields
    && value.fields["quote"].fields["quoted_status"] != Null
  }

  function Reblog(value: Json): (nested: Json)
    requires HasReblog(value)
    ensures nested < value
  {
    value.fields["reblog"]
  }

  function Quoted(value: Json): (nested: Json)
    requires HasQuoted(value)
    ensures nested < value
  {
    value.fields["quote"].fields["quoted_status"]
  }

  function AsSeq<T>(x: Option<T>): seq<T> {
    match x case None => [] case Some(v) => [v]
  }

  /** The numeric ids of a status and of the statuses nested in it. */
  function Ids(value: Json): seq<int>
    decreases value, 1
  {
    OwnIds(value) + ReblogIds(value) + QuotedIds(value)
  }

  function OwnIds(value: Json): seq<int> {
    AsSeq(NumericField(value, "id")) + AsSeq(NumericField(value, "in_reply_to_id"))
  }

  function ReblogIds(value: Json): seq<int>
    decreases value, 0
  {
    if HasReblog(value) then Ids(Reblog(value)) else []
  }

  function QuotedIds(value: Json): seq<int>
    decreases value, 0
  {
    if HasQuoted(value) then Ids(Quoted(value)) else []
  }

  /** One id field, with its number replaced if `f` knows another for it. */
  function RewriteField(value: Json, key: string, f: int -> Option<int>): Json {
    match NumericField(value, key)
    case None => value
    case Some(n) =>
      match f(n)
      case None => value
      case Some(id) => Obj(value.fields[key := Str(PrintInt(id))])
  }

  function WithReblog(value: Json, reblog: Json): Json
    requires value.Obj?
  {
    Obj(value.fields["reblog" := reblog])
  }

  function WithQuoted(value: Json, quoted: Json): Json
    requires value.Obj? && "quote" in value.fields && value.fields["quote"].Obj?
  {
    Obj(value.fields["quote" := Obj(value.fields["quote"].fields["quoted_status" := quoted])])
  }

  /** Every visited id field looked up on its own; nothing else changes. */
  ghost function Pointwise(value: Json, f: int -> Option<int>): Json {
    var v := RewriteField(RewriteField(value, "id", f), "in_reply_to_id", f);
    var v := if HasReblog(value) then WithReblog(v, Pointwise(Reblog(value), f)) else v;
    if HasQuoted(value) then WithQuoted(v, Pointwise(Quoted(value), f)) else v
  }

  /** Only the lookups of collected ids matter. */
  lemma {:induction false} PointwiseAgrees(value: Json, f: int -> Option<int>, g: int -> Option<int>)
    requires forall n :: n in Ids(value) ==> f(n) == g(n)
    ensures Pointwise(value, f) == Pointwise(value, g)
  {
    hide Ids, ReblogIds, QuotedIds, ParseI64, PrintInt;
    IdParts(value);
    if HasReblog(value) {
      PointwiseAgrees(Reblog(value), f, g);
    }
    if HasQuoted(value) {
      PointwiseAgrees(Quoted(value), f, g);
    }
    assert NumericField(value, "id").Some? ==> NumericField(value, "id").value in Ids(value);
    assert NumericField(value, "in_reply_to_id").Some? ==> NumericField(value, "in_reply_to_id").value in Ids(value);
  }

  /** If no collected id has a translation, the value stays as it is. */
  lemma {:induction false} PointwiseNothing(value: Json, f: int -> Option<int>)
    requires forall n :: n in Ids(value) ==> f(n) == None
    ensures Pointwise(value, f) == value
  {
    hide Ids, ReblogIds, QuotedIds, NumericField;
    IdParts(value);
    if HasReblog(value) {
      PointwiseNothing(Reblog(value), f);
      assert value.fields["reblog" := value.fields["reblog"]] == value.fields;
    }
    if HasQuoted(value) {
      var quote := value.fields["quote"];
      PointwiseNothing(quote.fields["quoted_status"], f);
      assert quote.fields["quoted_status" := quote.fields["quoted_status"]] == quote.fields;
      assert value.fields["quote" := quote] == value.fields;
    }
    assert NumericField(value, "id").Some? ==> NumericField(value, "id").value in Ids(value);
    assert NumericField(value, "in_reply_to_id").Some? ==> NumericField(value, "in_reply_to_id").value in Ids(value);
  }

  function InMap(m: map<int, int>): int -> Option<int> {
    n => if n in m then Some(m[n]) else None
  }

  ghost function InTable(t: Table): int -> Option<int> {
    n => Canonical(t, n)
  }

  /** `push_numeric`. */
  method PushNumeric(value: Json, key: string, pushed: seq<int>) returns (out: seq<int>)
    ensures out == pushed + AsSeq(NumericField(value, key))
  {
    match NumericField(value, key)
    case None => out := pushed;
    case Some(n) => out := pushed + [n];
  }

  /** `collect_ids`: pushes the visited ids. */
  method CollectIds(value: Json, pushed: seq<int>) returns (out: seq<int>)
    ensures out == pushed + Ids(value)
    decreases value
  {
    hide *;
    var own := PushNumeric(value, "id", pushed);
    own := PushNumeric(value, "in_reply_to_id", own);
    var withReblog := own;
    if HasReblog(value) {
      withReblog := CollectIds(Reblog(value), own);
    }
    out := withReblog;
    if HasQuoted(value) {
      out := CollectIds(Quoted(value), withReblog);
    }
    IdParts(value);
    assert own == pushed + OwnIds(value);
  }

  lemma IdParts(value: Json)
    ensures Ids(value) == OwnIds(value) + ReblogIds(value) + QuotedIds(value)
    ensures OwnIds(value) == AsSeq(NumericField(value, "id")) + AsSeq(NumericField(value, "in_reply_to_id"))
    ensures ReblogIds(value) == if HasReblog(value) then Ids(Reblog(value)) else []
    ensures QuotedIds(value) == if HasQuoted(value) then Ids(Quoted(value)) else []
  {
  }

  /** `apply_map`: rewrites the visited fields and the nested statuses one after the other. */
  method ApplyMap(value: Json, m: map<int, int>) returns (result: Json)
    ensures result == Pointwise(value, InMap(m))
    decreases value
  {
    result := RewriteField(value, "id", InMap(m));
    result := RewriteField(result, "in_reply_to_id", InMap(m));
    if HasReblog(result) {
      var reblog := ApplyMap(Reblog(value), m);
      result := WithReblog(result, reblog);
    }
    if HasQuoted(result) {
      var quoted := ApplyMap(Quoted(value), m);
      result := WithQuoted(result, quoted);
    }
  }

  /**
    * `translate_response`: one batched query, none if there is nothing to translate. It fails only if the query is
    * made and fails.
    */
  method TranslateResponse(table: StatusTable, value: Json, queryOk: bool) returns (result: Option<Json>)
    ensures result == None <==> Ids(value) != [] && !queryOk
    ensures result.Some? ==> result.value == Pointwise(value, InTable(table.rows))
  {
    var ids := CollectIds(value, []);
    if ids == [] {
      PointwiseNothing(value, InTable(table.rows));
      return Some(value);
    }
    if !queryOk {
      return None;
    }
    var m := table.ReverseMap(ids);
    assert forall n :: n in Ids(value) ==> InMap(m)(n) == InTable(table.rows)(n);
    PointwiseAgrees(value, InMap(m), InTable(table.rows));
    if m == map[] {
      PointwiseNothing(value, InTable(table.rows));
      return Some(value);
    }
    var rewritten := ApplyMap(value, m);
    result := Some(rewritten);
  }

  function Translated(n: int, f: int -> Option<int>): int {
    match f(n) case None => n case Some(id) => id
  }

  /** Translations that are again 64-bit numbers. */
  ghost predicate InRange(f: int -> Option<int>) {
    forall n :: f(n).Some? ==> I64_MIN <= f(n).value <= I64_MAX
  }

  function TranslatedAll(ids: seq<int>, f: int -> Option<int>): seq<int> {
    seq(|ids|, i requires 0 <= i < |ids| => Translated(ids[i], f))
  }

  lemma TranslatedConcat(a: seq<int>, b: seq<int>, f: int -> Option<int>)
    ensures TranslatedAll(a + b, f) == TranslatedAll(a, f) + TranslatedAll(b, f)
  {
  }

  lemma NothingTranslated(f: int -> Option<int>)
    ensures TranslatedAll([], f) == []
  {
  }

  lemma FieldTranslated(value: Json, key: string, f: int -> Option<int>)
    requires InRange(f) && key in {"id", "in_reply_to_id"}
    ensures AsSeq(NumericField(Pointwise(value, f), key)) == TranslatedAll(AsSeq(NumericField(value, key)), f)
  {
    hide ParseI64, PrintInt;
    var n := NumericField(value, key);
    if n.Some? && f(n.value).Some? {
      ParsePrintI64(f(n.value).value);
    }
  }

  lemma NestingStays(value: Json, f: int -> Option<int>)
    ensures Pointwise(value, f) == Null <==> value == Null
    ensures HasReblog(value) ==>
              HasReblog(Pointwise(value, f)) && Reblog(Pointwise(value, f)) == Pointwise(Reblog(value), f)
    ensures HasQuoted(value) ==>
              HasQuoted(Pointwise(value, f)) && Quoted(Pointwise(value, f)) == Pointwise(Quoted(value), f)
    ensures !HasReblog(value) ==> !HasReblog(Pointwise(value, f))
    ensures !HasQuoted(value) ==> !HasQuoted(Pointwise(value, f))
  {
  }

  /** A translated value has the same id fields as before, each holding the translation of what it held. */
  lemma {:induction false} IdsTranslated(value: Json, f: int -> Option<int>)
    requires InRange(f)
    ensures Ids(Pointwise(value, f)) == TranslatedAll(Ids(value), f)
  {
    hide Pointwise, NumericField, TranslatedAll, Reblog, Quoted;
    FieldTranslated(value, "id", f);
    FieldTranslated(value, "in_reply_to_id", f);
    NestingStays(value, f);
    var a, b := AsSeq(NumericField(value, "id")), AsSeq(NumericField(value, "in_reply_to_id"));
    if HasReblog(value) {
      IdsTranslated(Reblog(value), f);
    }
    if HasQuoted(value) {
      IdsTranslated(Quoted(value), f);
    }
    TranslatedConcat(a, b, f);
    TranslatedConcat(a + b, ReblogIds(value), f);
    TranslatedConcat(a + b + ReblogIds(value), QuotedIds(value), f);
    NothingTranslated(f);
  }

  /** What a value holds at the end of a path of field names. */
  function At(value: Json, path: seq<string>): Option<Json> {
    if path == [] then Some(value)
    else if value.Obj? && path[0] in value.fields then At(value.fields[path[0]], path[1..])
    else None
  }

  /** The paths of the visited id fields: those of the status itself, and of what it reblogs or quotes. */
  predicate IdPath(path: seq<string>) {
    || path == ["id"] || path == ["in_reply_to_id"]
    || (path != [] && path[0] == "reblog" && IdPath(path[1..]))
    || (|path| >= 2 && path[0] == "quote" && path[1] == "quoted_status" && IdPath(path[2..]))
  }

  /** An id on its own, with its number replaced if `f` knows another for it. */
  function Rewritten(value: Json, f: int -> Option<int>): Json {
    if value.Str? && ParseI64(value.text).Some? && f(ParseI64(value.text).value).Some?
    then Str(PrintInt(f(ParseI64(value.text).value).value))
    else value
  }

  /** `after` is `before` with at most an id replaced: the same fields if it is an object, and the same value if not. */
  ghost predicate SameBut(before: Option<Json>, after: Option<Json>, isId: bool, f: int -> Option<int>) {
    match before
    case None => after == None
    case Some(value) =>
      if value.Obj? then after.Some? && after.value.Obj? && after.value.fields.Keys == value.fields.Keys
      else after == Some(if isId then Rewritten(value, f) else value)
  }

  /** The fields of one object: ids are rewritten, what is reblogged is translated, and fields that are not visited stay. */
  lemma {:induction false} OtherFieldsStay(value: Json, f: int -> Option<int>, key: string)
    requires value.Obj?
    ensures Pointwise(value, f).Obj? && Pointwise(value, f).fields.Keys == value.fields.Keys
    ensures key in value.fields && key in {"id", "in_reply_to_id"} ==>
              Pointwise(value, f).fields[key] == Rewritten(value.fields[key], f)
    ensures key in value.fields && key == "reblog" ==> Pointwise(value, f).fields[key] == Pointwise(value.fields[key], f)
    ensures key in value.fields && key !in {"id", "in_reply_to_id", "reblog", "quote"} ==>
              Pointwise(value, f).fields[key] == value.fields[key]
  {
    hide ParseI64, PrintInt;
  }

  lemma QuoteOf(value: Json, f: int -> Option<int>)
    requires value.Obj? && "quote" in value.fields
    ensures Pointwise(value, f).Obj? && "quote" in Pointwise(value, f).fields
    ensures var quote, quote' := value.fields["quote"], Pointwise(value, f).fields["quote"];
            if quote.Obj? then
              && quote'.Obj? && quote'.fields.Keys == quote.fields.Keys
              && forall key :: key in quote.fields ==>
                   quote'.fields[key] == if key == "quoted_status" then Pointwise(quote.fields[key], f) else quote.fields[key]
            else quote' == quote
  {
    hide ParseI64, PrintInt;
  }

  lemma Untouched(value: Json, path: seq<string>, f: int -> Option<int>)
    ensures SameBut(At(value, path), At(value, path), false, f)
  {
  }

  /** A rewritten id has nothing inside, before or after. */
  lemma RewrittenInside(value: Json, path: seq<string>, f: int -> Option<int>)
    ensures SameBut(At(value, path), At(Rewritten(value, f), path), path == [], f)
  {
  }

  /**
    * Translation, path by path: whatever the nesting, a visited id field is rewritten on its own, every other value is
    * what it was, and no field appears or disappears in any object.
    */
  lemma {:induction false} PathsStay(value: Json, f: int -> Option<int>, path: seq<string>)
    ensures SameBut(At(value, path), At(Pointwise(value, f), path), IdPath(path), f)
    decreases |path|, 1
  {
    hide Rewritten, RewriteField, SameBut;
    if path == [] {
      WholeStays(value, f);
    } else if value.Obj? && path[0] in value.fields {
      hide Pointwise;
      var key, rest := path[0], path[1..];
      OtherFieldsStay(value, f, key);
      if key == "id" || key == "in_reply_to_id" {
        assert IdPath(path) <==> rest == [];
        RewrittenInside(value.fields[key], rest, f);
      } else if key == "reblog" {
        PathsStay(value.fields[key], f, rest);
      } else if key == "quote" {
        QuoteStays(value, f, path);
      } else {
        Untouched(value.fields[key], rest, f);
      }
    } else {
      NothingThere(value, f, path);
    }
  }

  lemma WholeStays(value: Json, f: int -> Option<int>)
    ensures SameBut(At(value, []), At(Pointwise(value, f), []), false, f)
  {
    if value.Obj? {
      OtherFieldsStay(value, f, "id");
    }
  }

  lemma NothingThere(value: Json, f: int -> Option<int>, path: seq<string>)
    requires path != [] && !(value.Obj? && path[0] in value.fields)
    ensures SameBut(At(value, path), At(Pointwise(value, f), path), IdPath(path), f)
  {
    if value.Obj? {
      OtherFieldsStay(value, f, path[0]);
      assert path[0] !in Pointwise(value, f).fields.Keys;
    }
  }

  lemma {:induction false} QuoteStays(value: Json, f: int -> Option<int>, path: seq<string>)
    requires path != [] && path[0] == "quote" && value.Obj? && "quote" in value.fields
    ensures SameBut(At(value, path), At(Pointwise(value, f), path), IdPath(path), f)
    decreases |path|, 0
  {
    hide Rewritten, Pointwise;
    var quote, rest := value.fields["quote"], path[1..];
    QuoteOf(value, f);
    if quote.Obj? && rest != [] && rest[0] == "quoted_status" && rest[0] in quote.fields {
      assert path[2..] == rest[1..];
      PathsStay(quote.fields[rest[0]], f, path[2..]);
    }
  }
}
