/** The home feed: a cached ranked pool, and a bounded list of what a user has been served. */
module HomeFeed {
  import opened Wrappers

  /** A ranked pool entry: its stable identity, the group it came from, and the item to show. */
  datatype Entry = Entry(uri: string, group: string, item: string)

  const CAP: nat := 500
  const MAX_LIMIT: nat := 40
  const RELOAD_BYPASSES_SEEN: seq<string> := ["network"]

  /** What the cache holds for a user; `None` is a missing or expired key. */
  datatype Cached = Cached(pool: Option<seq<Entry>>, seen: Option<seq<string>>)

  function Last(n: nat, s: seq<string>): (tail: seq<string>)
    ensures |tail| == (if |s| < n then |s| else n) && tail == s[|s| - |tail|..]
  {
    if |s| > n then s[|s| - n..] else s
  }

  function SeenList(c: Cached): seq<string> {
    match c.seen case None => [] case Some(urls) => urls
  }

  predicate Keep(e: Entry, seen: seq<string>, isReload: bool) {
    (isReload && e.group in RELOAD_BYPASSES_SEEN) || e.uri !in seen
  }

  /** The pool without the entries to hold back, in rank order. */
  function Kept(pool: seq<Entry>, seen: seq<string>, isReload: bool): (kept: seq<Entry>)
    ensures forall e :: e in kept <==> e in pool && Keep(e, seen, isReload)
    ensures |kept| <= |pool|
  {
    if pool == [] then []
    else
      var n := |pool| - 1;
      assert pool == pool[..n] + [pool[n]];
      Kept(pool[..n], seen, isReload) + if Keep(pool[n], seen, isReload) then [pool[n]] else []
  }

  function Take<T>(s: seq<T>, n: nat): (prefix: seq<T>)
    ensures |prefix| == if |s| < n then |s| else n
    ensures prefix <= s
  {
    if |s| < n then s else s[..n]
  }

  function Clamp(limit: nat): (n: nat)
    ensures 1 <= n <= MAX_LIMIT
  {
    if limit < 1 then 1 else if limit > MAX_LIMIT then MAX_LIMIT else limit
  }

  function Uris(es: seq<Entry>): (uris: seq<string>)
    ensures |uris| == |es|
    ensures forall i :: 0 <= i < |es| ==> uris[i] == es[i].uri
  {
    seq(|es|, i requires 0 <= i < |es| => es[i].uri)
  }

  /** `seen::extend`: appends, then drops from the front what exceeds the cap; nothing is written for no news. */
  function Extended(seen: Option<seq<string>>, news: seq<string>): Option<seq<string>> {
    if news == [] then seen
    else Some(Last(CAP, (match seen case None => [] case Some(urls) => urls) + news))
  }

  /** One request; `first` and `second` are what rebuilding the pool would yield, should it come to that. */
  datatype Request = Request(limit: nat, isReload: bool, first: seq<Entry>, second: seq<Entry>)

  function Loaded(c: Cached, r: Request): seq<Entry> {
    if c.pool.Some? && c.pool.value != [] then c.pool.value else r.first
  }

  function FirstChoice(c: Cached, r: Request): seq<Entry> {
    Take(Kept(Loaded(c, r), SeenList(c), r.isReload), Clamp(r.limit))
  }

  /** The loaded pool had nothing left for this request. */
  predicate Exhausted(c: Cached, r: Request) {
    FirstChoice(c, r) == []
  }

  function Page(c: Cached, r: Request): seq<Entry> {
    if Exhausted(c, r) then Take(Kept(r.second, SeenList(c), r.isReload), Clamp(r.limit)) else FirstChoice(c, r)
  }

  function Served(c: Cached, r: Request): Cached {
    Cached(Some(if Exhausted(c, r) then r.second else Loaded(c, r)), Extended(c.seen, Uris(Page(c, r))))
  }

  /** The cache entries of one user, as the request handlers use them. */
  class UserFeed {
    var pool: Option<seq<Entry>>
    var seen: Option<seq<string>>

    function View(): Cached
      reads this
    {
      Cached(pool, seen)
    }

    constructor ()
      ensures View() == Cached(None, None)
    {
      pool, seen := None, None;
    }

    method LoadPool(rebuilt: seq<Entry>) returns (loaded: seq<Entry>)
      modifies this`pool
      ensures loaded == if old(pool).Some? && old(pool).value != [] then old(pool).value else rebuilt
      ensures pool == Some(loaded)
    {
      if pool.Some? && pool.value != [] {
        return pool.value;
      }
      pool := Some(rebuilt);
      loaded := rebuilt;
    }

    method ExtendSeen(news: seq<string>)
      modifies this`seen
      ensures seen == Extended(old(seen), news)
    {
      if news == [] {
        return;
      }
      var urls := if seen.Some? then seen.value else [];
      urls := urls + news;
      if |urls| > CAP {
        var drop := |urls| - CAP;
        urls := urls[drop..];
      }
      seen := Some(urls);
    }

    /** `serve`; the statuses built from the page are left to the caller, and do not affect what counts as served. */
    method Serve(r: Request) returns (page: seq<Entry>)
      modifies this
      ensures page == Page(old(View()), r)
      ensures View() == Served(old(View()), r)
    {
      var limit := Clamp(r.limit);
      var loaded := LoadPool(r.first);
      var seenSet := if seen.Some? then seen.value else [];
      var chosen := Take(Kept(loaded, seenSet, r.isReload), limit);
      if chosen == [] {
        pool := Some(r.second);
        chosen := Take(Kept(r.second, seenSet, r.isReload), limit);
      }
      ExtendSeen(Uris(chosen));
      page := chosen;
    }
  }
}
