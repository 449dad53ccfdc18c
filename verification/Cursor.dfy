/** Paging by offset, in its two implementations, and paging by id. */
module Cursors {
  import opened Wrappers
  import opened Decimal
  import opened Sorting
  import opened Posts

  datatype Page<T> = Page(items: seq<T>, cursor: Option<string>, hasMore: bool)

  /** `Offset::parse`: anything that is not a number starts at the beginning. */
  function ParseOffset(raw: Option<string>): nat {
    match raw
    case None => 0
    case Some(text) => match ParseUsize(text) case Some(n) => n case None => 0
  }

  function Slice<T>(items: seq<T>, start: nat, count: nat): seq<T>
    requires start <= |items|
  {
    items[start..Min(start + count, |items|)]
  }

  /** `Offset::paginate`; sums and differences wrap around as they do in a release build. */
  function OffsetPage<T>(items: seq<T>, offset: nat, limit: nat): Page<T> {
    var start := Min(offset, |items|);
    var end := Min((start + limit) % USIZE_LIMIT, |items|);
    var count := (end - start) % USIZE_LIMIT;
    Page(Slice(items, start, count), if end < |items| then Some(PrintNat(end)) else None, end < |items|)
  }

  /** The engine's `paginate`; its sum saturates. */
  function EnginePage<T>(items: seq<T>, cursor: Option<string>, limit: nat): Page<T> {
    var offset := Min(ParseOffset(cursor), |items|);
    var end := Min(Min(offset + limit, USIZE_LIMIT - 1), |items|);
    Page(items[offset..Min(end, |items|)], if end < |items| then Some(PrintNat(end)) else None, end < |items|)
  }

  lemma WrapsAround(x: nat)
    requires x < 2 * USIZE_LIMIT
    ensures x % USIZE_LIMIT == if x < USIZE_LIMIT then x else x - USIZE_LIMIT
  {
  }

  /** The page from `start` to at most `start + limit`. */
  function PlainPage<T>(items: seq<T>, start: nat, limit: nat): Page<T>
    requires start <= |items|
  {
    var end := Min(start + limit, |items|);
    Page(items[start..end], if end < |items| then Some(PrintNat(end)) else None, end < |items|)
  }

  lemma OffsetIsPlain<T>(items: seq<T>, offset: nat, limit: nat)
    requires |items| < USIZE_LIMIT && Min(offset, |items|) + limit < USIZE_LIMIT
    ensures OffsetPage(items, offset, limit) == PlainPage(items, Min(offset, |items|), limit)
  {
    hide PrintNat;
    var start := Min(offset, |items|);
    var end := Min(start + limit, |items|);
    WrapsAround(start + limit);
    WrapsAround(end - start);
    assert Slice(items, start, end - start) == items[start..end];
  }

  lemma EngineIsPlain<T>(items: seq<T>, cursor: Option<string>, limit: nat)
    requires |items| < USIZE_LIMIT
    ensures EnginePage(items, cursor, limit) == PlainPage(items, Min(ParseOffset(cursor), |items|), limit)
  {
    hide PrintNat, ParseOffset;
  }

  /** After an overflow, one implementation promises more, and the other does not. */
  lemma OverflowDiffers<T>(items: seq<T>, offset: nat, limit: nat)
    requires |items| < USIZE_LIMIT && limit < USIZE_LIMIT
    requires Min(offset, |items|) + limit >= USIZE_LIMIT
    ensures OffsetPage(items, offset, limit).hasMore
    ensures !PlainPage(items, Min(offset, |items|), limit).hasMore
  {
    hide PrintNat;
    WrapsAround(Min(offset, |items|) + limit);
  }

  /** The implementations agree exactly as long as the sum of start and limit fits the machine word. */
  lemma {:induction false} PagesAgreeIffNoOverflow<T>(items: seq<T>, cursor: Option<string>, limit: nat)
    requires |items| < USIZE_LIMIT && limit < USIZE_LIMIT
    ensures OffsetPage(items, ParseOffset(cursor), limit) == EnginePage(items, cursor, limit)
       <==> Min(ParseOffset(cursor), |items|) + limit < USIZE_LIMIT
  {
    hide *;
    EngineIsPlain(items, cursor, limit);
    if Min(ParseOffset(cursor), |items|) + limit < USIZE_LIMIT {
      OffsetIsPlain(items, ParseOffset(cursor), limit);
    } else {
      OverflowDiffers(items, ParseOffset(cursor), limit);
    }
  }

  /** An input on which they differ: the largest limit, behind the first of two items. */
  lemma {:induction false} OverflowingPages()
    ensures var limit := USIZE_LIMIT - 1;
            OffsetPage([7, 8], ParseOffset(Some("1")), limit) != EnginePage([7, 8], Some("1"), limit)
  {
    hide PrintNat, OffsetPage, EnginePage;
    assert "1"[..0] == "" && ParseDigits("1") == Some(1);
    assert ParseOffset(Some("1")) == 1;
    PagesAgreeIffNoOverflow([7, 8], Some("1"), USIZE_LIMIT - 1);
  }

  datatype Implementation = OffsetCursor | Engine

  function PageOf<T>(which: Implementation, items: seq<T>, cursor: Option<string>, limit: nat): Page<T> {
    match which
    case OffsetCursor => OffsetPage(items, ParseOffset(cursor), limit)
    case Engine => EnginePage(items, cursor, limit)
  }

  /** The lengths for which an implementation does not overflow; the engine's never does. */
  predicate Fits(which: Implementation, length: nat, limit: nat) {
    length < USIZE_LIMIT && (which.OffsetCursor? ==> length + limit < USIZE_LIMIT)
  }

  lemma PageIsPlain<T>(which: Implementation, items: seq<T>, cursor: Option<string>, limit: nat)
    requires Fits(which, |items|, limit)
    ensures PageOf(which, items, cursor, limit) == PlainPage(items, Min(ParseOffset(cursor), |items|), limit)
  {
    hide PrintNat, ParseOffset, OffsetPage, EnginePage, PlainPage;
    match which
    case OffsetCursor => OffsetIsPlain(items, ParseOffset(cursor), limit);
    case Engine => EngineIsPlain(items, cursor, limit);
  }

  /** Following the cursors from a given one until there is no next. */
  function Walk<T>(which: Implementation, items: seq<T>, cursor: Option<string>, limit: nat): seq<T>
    requires limit > 0 && Fits(which, |items|, limit)
    decreases if ParseOffset(cursor) < |items| then |items| - ParseOffset(cursor) else 0
  {
    var page := PageOf(which, items, cursor, limit);
    if page.cursor == None then page.items
    else
      NextCursorAdvances(which, items, cursor, limit);
      page.items + Walk(which, items, page.cursor, limit)
  }

  /** The printed cursor parses to the position just after the page. */
  lemma {:induction false} NextCursorAdvances<T>(which: Implementation, items: seq<T>, cursor: Option<string>, limit: nat)
    requires limit > 0 && Fits(which, |items|, limit)
    requires PageOf(which, items, cursor, limit).cursor.Some?
    ensures var next := PageOf(which, items, cursor, limit).cursor;
              && ParseOffset(next) == ParseOffset(cursor) + limit < |items|
              && PageOf(which, items, cursor, limit).items == items[ParseOffset(cursor)..ParseOffset(next)]
  {
    hide PrintNat, PageOf, Fits;
    PageIsPlain(which, items, cursor, limit);
    LengthFits(which, |items|, limit);
    var end := Min(ParseOffset(cursor), |items|) + limit;
    assert end < |items|;
    ParsePrintUsize(end);
  }

  lemma LengthFits(which: Implementation, length: nat, limit: nat)
    requires Fits(which, length, limit)
    ensures length < USIZE_LIMIT
  {
  }

  /** A page without a next cursor holds everything from its start on. */
  lemma LastPage<T>(which: Implementation, items: seq<T>, cursor: Option<string>, limit: nat)
    requires limit > 0 && Fits(which, |items|, limit)
    requires PageOf(which, items, cursor, limit).cursor == None
    ensures PageOf(which, items, cursor, limit).items == items[Min(ParseOffset(cursor), |items|)..]
  {
    hide ParseOffset, PrintNat, PageOf, Fits;
    PageIsPlain(which, items, cursor, limit);
  }

  /** The pages of a walk concatenate to what lies after its first cursor; from the start, to the whole list. */
  lemma {:induction false} WalkIsComplete<T>(which: Implementation, items: seq<T>, cursor: Option<string>, limit: nat)
    requires limit > 0 && Fits(which, |items|, limit)
    ensures Walk(which, items, cursor, limit) == items[Min(ParseOffset(cursor), |items|)..]
    decreases if ParseOffset(cursor) < |items| then |items| - ParseOffset(cursor) else 0
  {
    hide PageOf, ParseOffset, Fits;
    var page := PageOf(which, items, cursor, limit);
    if page.cursor.Some? {
      NextCursorAdvances(which, items, cursor, limit);
      WalkIsComplete(which, items, page.cursor, limit);
      hide Walk;
      var from, next := ParseOffset(cursor), ParseOffset(page.cursor);
      assert items[from..next] + items[next..] == items[from..];
    } else {
      LastPage(which, items, cursor, limit);
    }
  }

  /** What a page holds, in numbers: the items from the parsed cursor on, and whether and where it goes on. */
  lemma {:induction false} PageContents<T>(which: Implementation, items: seq<T>, cursor: Option<string>, limit: nat, n: nat)
    requires Fits(which, |items|, limit)
    requires n == if cursor.Some? && ParseUsize(cursor.value).Some? then ParseUsize(cursor.value).value else 0
    ensures var page := PageOf(which, items, cursor, limit);
            && (n >= |items| ==> page == Page([], None, false))
            && (n < |items| <= n + limit ==> page == Page(items[n..], None, false))
            && (n + limit < |items| ==>
                  && page.items == items[n..n + limit] && page.hasMore
                  && page.cursor.Some? && ParseUsize(page.cursor.value) == Some(n + limit))
  {
    hide PrintNat, PageOf, Fits, ParseUsize;
    PageIsPlain(which, items, cursor, limit);
    LengthFits(which, |items|, limit);
    if n + limit < |items| {
      ParsePrintUsize(n + limit);
    }
  }

  /** From the start, or from something that is not a number, a walk enumerates the whole list. */
  lemma {:induction false} WalkFromStart<T>(which: Implementation, items: seq<T>, cursor: Option<string>, limit: nat)
    requires limit > 0 && Fits(which, |items|, limit)
    requires cursor == None || ParseUsize(cursor.value) == None
    ensures Walk(which, items, cursor, limit) == items
  {
    hide ParseUsize, Walk;
    WalkIsComplete(which, items, cursor, limit);
  }

  predicate IdBelow(s: Status, bound: int) {
    match ParseI64(s.id) case Some(id) => id < bound case None => false
  }

  predicate IdAbove(s: Status, bound: int) {
    match ParseI64(s.id) case Some(id) => id > bound case None => false
  }

  function Bound(raw: Option<string>): Option<int> {
    match raw case None => None case Some(text) => ParseI64(text)
  }

  function RetainBelow(statuses: seq<Status>, maxId: Option<string>): seq<Status> {
    match Bound(maxId) case None => statuses case Some(max) => Filter(statuses, (s: Status) => IdBelow(s, max))
  }

  function RetainAbove(statuses: seq<Status>, minId: Option<string>): seq<Status> {
    match Bound(minId) case None => statuses case Some(min) => Filter(statuses, (s: Status) => IdAbove(s, min))
  }

  /** The page of statuses, and the ids in its `next` and `prev` links. */
  method Paginate(statuses: seq<Status>, limit: nat, maxId: Option<string>, minId: Option<string>, sinceId: Option<string>)
    returns (page: seq<Status>, next: Option<string>, prev: Option<string>)
    ensures page == KeysetPage(statuses, limit, maxId, minId, sinceId)
    ensures next == if page == [] then None else Some(page[|page| - 1].id)
    ensures prev == if page == [] then None else Some(page[0].id)
  {
    page := RetainBelow(statuses, maxId);
    page := RetainAbove(page, minId);
    page := RetainAbove(page, sinceId);
    if |page| > limit {
      page := page[..limit];
    }
    next, prev := None, None;
    if page != [] {
      next, prev := Some(page[|page| - 1].id), Some(page[0].id);
    }
  }

  function KeysetPage(statuses: seq<Status>, limit: nat, maxId: Option<string>, minId: Option<string>, sinceId: Option<string>): seq<Status> {
    var kept := RetainAbove(RetainAbove(RetainBelow(statuses, maxId), minId), sinceId);
    kept[..Min(limit, |kept|)]
  }

  /** What `steps` requests bring that start with a `max_id` and then follow the `next` links. */
  function KeysetWalk(statuses: seq<Status>, maxId: Option<string>, limit: nat, steps: nat): seq<Status>
    decreases steps
  {
    if steps == 0 then []
    else
      var page := KeysetPage(statuses, limit, maxId, None, None);
      if page == [] then [] else page + KeysetWalk(statuses, Some(page[|page| - 1].id), limit, steps - 1)
  }

  function IdOf(s: Status): int {
    match ParseI64(s.id) case Some(id) => id case None => 0
  }

  /** All ids are numeric, and each is smaller than those before it. */
  ghost predicate DescendingIds(statuses: seq<Status>) {
    && (forall i :: 0 <= i < |statuses| ==> ParseI64(statuses[i].id).Some?)
    && (forall i, j :: 0 <= i < j < |statuses| ==> IdOf(statuses[i]) > IdOf(statuses[j]))
  }

  /** Below the id at one position of a descending list lies exactly what follows it. */
  lemma BelowIsRest(statuses: seq<Status>, i: nat)
    requires DescendingIds(statuses) && i < |statuses|
    ensures RetainBelow(statuses, Some(statuses[i].id)) == statuses[i + 1..]
  {
    hide ParseI64, Filter;
    var bound := IdOf(statuses[i]);
    var below := (s: Status) => IdBelow(s, bound);
    assert statuses == statuses[..i + 1] + statuses[i + 1..];
    FilterConcat(statuses[..i + 1], statuses[i + 1..], below);
    forall s | s in statuses[..i + 1]
      ensures !below(s)
    {
      var j :| 0 <= j <= i && statuses[j] == s;
    }
    FilterNone(statuses[..i + 1], below);
    forall s | s in statuses[i + 1..]
      ensures below(s)
    {
      var j :| i + 1 <= j < |statuses| && statuses[j] == s;
    }
    FilterAll(statuses[i + 1..], below);
  }

  /** Following the `next` links over a list with descending ids brings every status once, in order. */
  lemma {:induction false} KeysetWalkFrom(statuses: seq<Status>, i: nat, limit: nat, steps: nat)
    requires DescendingIds(statuses) && limit > 0 && i < |statuses| && steps >= |statuses| - i
    ensures KeysetWalk(statuses, Some(statuses[i].id), limit, steps) == statuses[i + 1..]
    decreases |statuses| - i
  {
    hide DescendingIds, KeysetPage;
    PageAfter(statuses, i, limit);
    var rest := statuses[i + 1..];
    var page := rest[..Min(limit, |rest|)];
    if page != [] {
      var last := i + |page|;
      assert page[|page| - 1] == statuses[last];
      KeysetWalkFrom(statuses, last, limit, steps - 1);
      assert page + statuses[last + 1..] == rest;
    }
  }

  /** The page behind a `next` link begins where the page before it ended. */
  lemma PageAfter(statuses: seq<Status>, i: nat, limit: nat)
    requires DescendingIds(statuses) && i < |statuses|
    ensures KeysetPage(statuses, limit, Some(statuses[i].id), None, None)
         == statuses[i + 1..][..Min(limit, |statuses| - i - 1)]
  {
    BelowIsRest(statuses, i);
    hide RetainBelow, DescendingIds;
  }

  lemma FirstPage(statuses: seq<Status>, limit: nat)
    ensures KeysetPage(statuses, limit, None, None, None) == statuses[..Min(limit, |statuses|)]
  {
  }

  /** From the start, the whole list is enumerated. */
  lemma {:induction false} KeysetWalkIsComplete(statuses: seq<Status>, limit: nat)
    requires DescendingIds(statuses) && limit > 0
    ensures KeysetWalk(statuses, None, limit, |statuses| + 1) == statuses
  {
    hide DescendingIds, KeysetPage;
    var page := statuses[..Min(limit, |statuses|)];
    FirstPage(statuses, limit);
    if page != [] {
      var last := |page| - 1;
      KeysetWalkFrom(statuses, last, limit, |statuses|);
      assert page[last] == statuses[last];
      hide KeysetWalk;
      assert page + statuses[last + 1..] == statuses;
    }
  }

  /** Each `next` link asks for smaller ids than the one before it. */
  lemma {:induction false} CursorDecreases(statuses: seq<Status>, limit: nat, maxId: string)
    requires ParseI64(maxId).Some?
    requires KeysetPage(statuses, limit, Some(maxId), None, None) != []
    ensures var page := KeysetPage(statuses, limit, Some(maxId), None, None);
              ParseI64(page[|page| - 1].id).Some? && ParseI64(page[|page| - 1].id).value < ParseI64(maxId).value
  {
    hide ParseI64;
    var page := KeysetPage(statuses, limit, Some(maxId), None, None);
    assert page[|page| - 1] in RetainBelow(statuses, Some(maxId));
  }

  /** The id of the status lies on the right side of a bound; a bound that is not a number is none. */
  predicate Under(s: Status, bound: Option<string>) {
    bound.Some? && ParseI64(bound.value).Some? ==> ParseI64(s.id).Some? && ParseI64(s.id).value < ParseI64(bound.value).value
  }

  predicate Over(s: Status, bound: Option<string>) {
    bound.Some? && ParseI64(bound.value).Some? ==> ParseI64(s.id).Some? && ParseI64(s.id).value > ParseI64(bound.value).value
  }

  lemma {:induction false} FilterTwice<T(!new)>(xs: seq<T>, p: T -> bool, q: T -> bool, r: T -> bool)
    requires forall x :: r(x) <==> p(x) && q(x)
    ensures Filter(Filter(xs, p), q) == Filter(xs, r)
  {
    if xs != [] {
      var n := |xs| - 1;
      FilterTwice(xs[..n], p, q, r);
      assert xs == xs[..n] + [xs[n]];
      hide Filter;
      FilterConcat(xs[..n], [xs[n]], p);
      FilterConcat(xs[..n], [xs[n]], r);
      FilterOne(xs[n], p);
      FilterOne(xs[n], r);
      FilterConcat(Filter(xs[..n], p), if p(xs[n]) then [xs[n]] else [], q);
      FilterOne(xs[n], q);
      FilterNone([], q);
    }
  }

  lemma {:induction false} FilterSame<T(!new)>(xs: seq<T>, p: T -> bool, q: T -> bool)
    requires forall x :: x in xs ==> (p(x) <==> q(x))
    ensures Filter(xs, p) == Filter(xs, q)
  {
    if xs != [] {
      var n := |xs| - 1;
      assert xs == xs[..n] + [xs[n]];
      assert xs[n] in xs;
      FilterSame(xs[..n], p, q);
    }
  }

  lemma RetainedUnder(statuses: seq<Status>, maxId: Option<string>, p: Status -> bool)
    requires forall s :: p(s) <==> Under(s, maxId)
    ensures RetainBelow(statuses, maxId) == Filter(statuses, p)
  {
    match Bound(maxId)
    case None => FilterAll(statuses, p);
    case Some(max) => FilterSame(statuses, (s: Status) => IdBelow(s, max), p);
  }

  lemma RetainedOver(statuses: seq<Status>, minId: Option<string>, p: Status -> bool)
    requires forall s :: p(s) <==> Over(s, minId)
    ensures RetainAbove(statuses, minId) == Filter(statuses, p)
  {
    match Bound(minId)
    case None => FilterAll(statuses, p);
    case Some(min) => FilterSame(statuses, (s: Status) => IdAbove(s, min), p);
  }

  /** A page holds the first statuses that satisfy all three bounds, in order. */
  lemma {:induction false} PageSatisfiesBounds(statuses: seq<Status>, limit: nat, maxId: Option<string>, minId: Option<string>, sinceId: Option<string>,
                                               all: Status -> bool)
    requires forall s :: all(s) <==> Under(s, maxId) && Over(s, minId) && Over(s, sinceId)
    ensures var kept := Filter(statuses, all);
            KeysetPage(statuses, limit, maxId, minId, sinceId) == if |kept| <= limit then kept else kept[..limit]
  {
    var under := (s: Status) => Under(s, maxId);
    var over := (s: Status) => Over(s, minId);
    var since := (s: Status) => Over(s, sinceId);
    var both := (s: Status) => Under(s, maxId) && Over(s, minId);
    hide Under, Over, RetainBelow, RetainAbove, Filter;
    RetainedUnder(statuses, maxId, under);
    RetainedOver(Filter(statuses, under), minId, over);
    FilterTwice(statuses, under, over, both);
    RetainedOver(Filter(statuses, both), sinceId, since);
    FilterTwice(statuses, both, since, all);
  }

  /** Above the id at one position of a descending list lies exactly what comes before it, newest first. */
  lemma {:induction false} MinIdPage(statuses: seq<Status>, i: nat, limit: nat)
    requires DescendingIds(statuses) && i < |statuses|
    ensures KeysetPage(statuses, limit, None, Some(statuses[i].id), None) == statuses[..i][..Min(limit, i)]
  {
    AboveIsFront(statuses, i);
    hide RetainAbove, DescendingIds;
    assert RetainAbove(statuses[..i], None) == statuses[..i] by {
      NoBound(statuses[..i]);
    }
  }

  lemma NoBound(statuses: seq<Status>)
    ensures RetainAbove(statuses, None) == statuses
  {
  }

  lemma AboveIsFront(statuses: seq<Status>, i: nat)
    requires DescendingIds(statuses) && i < |statuses|
    ensures RetainAbove(statuses, Some(statuses[i].id)) == statuses[..i]
  {
    hide ParseI64, Filter;
    var bound := IdOf(statuses[i]);
    var above := (s: Status) => IdAbove(s, bound);
    assert statuses == statuses[..i] + statuses[i..];
    FilterConcat(statuses[..i], statuses[i..], above);
    forall s | s in statuses[i..]
      ensures !above(s)
    {
      var j :| i <= j < |statuses| && statuses[j] == s;
    }
    FilterNone(statuses[i..], above);
    forall s | s in statuses[..i]
      ensures above(s)
    {
      var j :| 0 <= j < i && statuses[j] == s;
    }
    FilterAll(statuses[..i], above);
  }
}
