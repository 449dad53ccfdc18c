/** What a user is shown over many requests. */
module HomeHistory {
  import opened Wrappers
  import opened HomeFeed

  /** Requests of one user, one at a time, and cache keys expiring in between. */
  datatype Event = Serve(request: Request) | PoolExpires | SeenExpires

  /** `history` is everything served since the seen list last expired. */
  datatype Session = Session(cached: Cached, history: seq<string>)

  function Step(s: Session, e: Event): Session {
    match e
    case Serve(r) => Session(Served(s.cached, r), s.history + Uris(Page(s.cached, r)))
    case PoolExpires => s.(cached := s.cached.(pool := None))
    case SeenExpires => Session(s.cached.(seen := None), [])
  }

  function After(s: Session, es: seq<Event>): Session {
    if es == [] then s else Step(After(s, es[..|es| - 1]), es[|es| - 1])
  }

  lemma LastOfLast(n: nat, a: seq<string>, b: seq<string>)
    ensures Last(n, Last(n, a) + b) == Last(n, a + b)
  {
    var kept := Last(n, a);
    var dropped := |a| - |kept|;
    assert a + b == a[..dropped] + (kept + b);
    if |a + b| > n {
      assert |kept + b| >= n;
      assert (a + b)[|a + b| - n..] == (kept + b)[|kept + b| - n..];
    } else {
      assert kept == a;
    }
  }

  lemma StepKeepsWindow(s: Session, e: Event)
    requires SeenList(s.cached) == Last(CAP, s.history)
    ensures SeenList(Step(s, e).cached) == Last(CAP, Step(s, e).history)
  {
    if e.Serve? {
      var news := Uris(Page(s.cached, e.request));
      LastOfLast(CAP, s.history, news);
      assert news == [] ==> s.history + news == s.history;
    }
  }

  /** The stored list is exactly the last 500 entries of everything served since it last expired. */
  lemma {:induction false} SeenIsWindow(s: Session, es: seq<Event>)
    requires SeenList(s.cached) == Last(500, s.history)
    ensures SeenList(After(s, es).cached) == Last(500, After(s, es).history)
  {
    hide Step;
    if es != [] {
      SeenIsWindow(s, es[..|es| - 1]);
      StepKeepsWindow(After(s, es[..|es| - 1]), es[|es| - 1]);
    }
  }

  /** After any run, a continuation repeats none of the last 500 served entries, and a reload only network ones. */
  lemma {:induction false} NoRecentRepeats(s: Session, es: seq<Event>, r: Request, e: Entry)
    requires SeenList(s.cached) == Last(500, s.history)
    requires e in Page(After(s, es).cached, r) && e.uri in Last(500, After(s, es).history)
    ensures r.isReload && e.group == "network"
  {
    SeenIsWindow(s, es);
    var c := After(s, es).cached;
    assert e in Kept(Loaded(c, r), SeenList(c), r.isReload) || e in Kept(r.second, SeenList(c), r.isReload);
    assert Keep(e, SeenList(c), r.isReload);
  }

  ghost predicate DistinctUris(pool: seq<Entry>) {
    forall i, j :: 0 <= i < j < |pool| ==> pool[i].uri != pool[j].uri
  }

  function Concat(pages: seq<seq<Entry>>): seq<Entry> {
    if pages == [] then [] else Concat(pages[..|pages| - 1]) + pages[|pages| - 1]
  }

  /** The cache after the first `n` requests. */
  function Cache(c: Cached, rs: seq<Request>, n: nat): Cached
    requires n <= |rs|
  {
    if n == 0 then c else Served(Cache(c, rs, n - 1), rs[n - 1])
  }

  function Pages(c: Cached, rs: seq<Request>, n: nat): (pages: seq<seq<Entry>>)
    requires n <= |rs|
    ensures |pages| == n
  {
    if n == 0 then [] else Pages(c, rs, n - 1) + [Page(Cache(c, rs, n - 1), rs[n - 1])]
  }

  /** How many entries the first `n` requests ask for. */
  function Asked(rs: seq<Request>, n: nat): nat
    requires n <= |rs|
  {
    if n == 0 then 0 else Asked(rs, n - 1) + Clamp(rs[n - 1].limit)
  }

  lemma {:induction false} KeptConcat(a: seq<Entry>, b: seq<Entry>, seen: seq<string>)
    ensures Kept(a + b, seen, false) == Kept(a, seen, false) + Kept(b, seen, false)
  {
    if b == [] {
      assert a + b == a;
    } else {
      var n := |b| - 1;
      assert (a + b)[..|a + b| - 1] == a + b[..n];
      KeptConcat(a, b[..n], seen);
    }
  }

  lemma KeptOne(e: Entry, seen: seq<string>)
    ensures Kept([e], seen, false) == if e.uri in seen then [] else [e]
  {
    assert [e][..0] == [];
  }

  lemma {:induction false} KeptTwice(pool: seq<Entry>, seen: seq<string>, more: seq<string>)
    ensures Kept(pool, seen + more, false) == Kept(Kept(pool, seen, false), more, false)
  {
    if pool != [] {
      hide Kept;
      var n := |pool| - 1;
      var e := pool[n];
      KeptTwice(pool[..n], seen, more);
      assert pool == pool[..n] + [e];
      KeptConcat(pool[..n], [e], seen + more);
      KeptConcat(pool[..n], [e], seen);
      KeptConcat(Kept(pool[..n], seen, false), Kept([e], seen, false), more);
      KeptOne(e, seen + more);
      KeptOne(e, seen);
      KeptOne(e, more);
      KeptNothing(more);
    }
  }

  lemma KeptNothing(seen: seq<string>)
    ensures Kept([], seen, false) == []
  {
  }

  lemma {:induction false} KeptAll(pool: seq<Entry>, seen: seq<string>)
    requires forall e :: e in pool ==> e.uri !in seen
    ensures Kept(pool, seen, false) == pool
  {
    if pool != [] {
      var n := |pool| - 1;
      assert pool == pool[..n] + [pool[n]];
      KeptAll(pool[..n], seen);
    }
  }

  lemma {:induction false} KeptNone(pool: seq<Entry>, seen: seq<string>)
    requires forall e :: e in pool ==> e.uri in seen
    ensures Kept(pool, seen, false) == []
  {
    if pool != [] {
      var n := |pool| - 1;
      assert pool == pool[..n] + [pool[n]];
      KeptNone(pool[..n], seen);
    }
  }

  lemma {:induction false} KeptDistinct(pool: seq<Entry>, seen: seq<string>)
    requires DistinctUris(pool)
    ensures DistinctUris(Kept(pool, seen, false))
  {
    if pool != [] {
      var n := |pool| - 1;
      KeptDistinct(pool[..n], seen);
      LastIsNew(pool, Kept(pool[..n], seen, false));
    }
  }

  lemma LastIsNew(pool: seq<Entry>, earlier: seq<Entry>)
    requires pool != [] && DistinctUris(pool)
    requires forall e :: e in earlier ==> e in pool[..|pool| - 1]
    ensures forall i :: 0 <= i < |earlier| ==> earlier[i].uri != pool[|pool| - 1].uri
  {
    forall i | 0 <= i < |earlier|
      ensures earlier[i].uri != pool[|pool| - 1].uri
    {
      assert earlier[i] in earlier;
      var j :| 0 <= j < |pool| - 1 && pool[..|pool| - 1][j] == earlier[i];
    }
  }

  /** Once a prefix of the unseen entries has been served, exactly the rest is unseen. */
  lemma ServedPrefix(pool: seq<Entry>, seen: seq<string>, n: nat)
    requires DistinctUris(pool) && n <= |Kept(pool, seen, false)|
    ensures Kept(pool, seen + Uris(Kept(pool, seen, false)[..n]), false) == Kept(pool, seen, false)[n..]
  {
    var unseen := Kept(pool, seen, false);
    KeptDistinct(pool, seen);
    KeptTwice(pool, seen, Uris(unseen[..n]));
    AfterPrefix(unseen, n);
  }

  lemma AfterPrefix(unseen: seq<Entry>, n: nat)
    requires DistinctUris(unseen) && n <= |unseen|
    ensures Kept(unseen, Uris(unseen[..n]), false) == unseen[n..]
  {
    hide Kept;
    var served := Uris(unseen[..n]);
    assert unseen == unseen[..n] + unseen[n..];
    KeptConcat(unseen[..n], unseen[n..], served);
    forall e | e in unseen[..n]
      ensures e.uri in served
    {
      var i :| 0 <= i < n && unseen[i] == e;
      assert served[i] == e.uri;
    }
    KeptNone(unseen[..n], served);
    LaterNotServed(unseen, n);
    KeptAll(unseen[n..], served);
  }

  lemma LaterNotServed(unseen: seq<Entry>, n: nat)
    requires DistinctUris(unseen) && n <= |unseen|
    ensures forall e :: e in unseen[n..] ==> e.uri !in Uris(unseen[..n])
  {
    forall e | e in unseen[n..]
      ensures e.uri !in Uris(unseen[..n])
    {
      var j :| 0 <= j < |unseen[n..]| && unseen[n..][j] == e;
      assert unseen[n + j] == e;
    }
  }

  /** One continuation request after `m` of the unseen entries have been served. */
  lemma {:induction false} NextPage(c: Cached, pool: seq<Entry>, seen: seq<string>, m: nat, r: Request)
    requires c.pool == Some(pool) && pool != [] && DistinctUris(pool) && !r.isReload
    requires |seen| + |pool| <= CAP
    requires m <= |Kept(pool, seen, false)|
    requires SeenList(c) == seen + Uris(Kept(pool, seen, false)[..m])
    ensures var unseen := Kept(pool, seen, false);
              var m' := Min(m + Clamp(r.limit), |unseen|);
              && (Exhausted(c, r) <==> m == |unseen|)
              && (m < |unseen| ==>
                    && Page(c, r) == unseen[m..m']
                    && Served(c, r).pool == Some(pool)
                    && SeenList(Served(c, r)) == seen + Uris(unseen[..m']))
  {
    var unseen := Kept(pool, seen, false);
    ServedPrefix(pool, seen, m);
    hide *;
    var m' := Min(m + Clamp(r.limit), |unseen|);
    ServeFrom(c, pool, r, unseen[m..]);
    TakeSlice(unseen, m, Clamp(r.limit));
    if m < |unseen| {
      SeenGrows(c, Served(c, r), seen, unseen, m, m');
    }
  }

  lemma SeenGrows(c: Cached, c': Cached, seen: seq<string>, unseen: seq<Entry>, m: nat, m': nat)
    requires m <= m' <= |unseen| && |seen| + |unseen| <= CAP
    requires SeenList(c) == seen + Uris(unseen[..m])
    requires c'.seen == Extended(c.seen, Uris(unseen[m..m']))
    ensures SeenList(c') == seen + Uris(unseen[..m'])
  {
    hide *;
    SeenFits(c, c', unseen[m..m']);
    UrisConcat(unseen[..m], unseen[m..m']);
    assert unseen[..m] + unseen[m..m'] == unseen[..m'];
    assert (seen + Uris(unseen[..m])) + Uris(unseen[m..m']) == seen + (Uris(unseen[..m]) + Uris(unseen[m..m']));
  }

  lemma TakeSlice<T>(s: seq<T>, m: nat, n: nat)
    requires m <= |s|
    ensures m <= Min(m + n, |s|) <= |s|
    ensures Take(s[m..], n) == s[m..Min(m + n, |s|)]
  {
  }

  /** A continuation request for which the cached pool leaves `rest`. */
  lemma ServeFrom(c: Cached, pool: seq<Entry>, r: Request, rest: seq<Entry>)
    requires c.pool == Some(pool) && pool != [] && !r.isReload
    requires Kept(pool, SeenList(c), false) == rest
    ensures Exhausted(c, r) <==> rest == []
    ensures rest != [] ==>
              && Page(c, r) == Take(rest, Clamp(r.limit))
              && Served(c, r).pool == Some(pool)
              && Served(c, r).seen == Extended(c.seen, Uris(Page(c, r)))
  {
    hide Kept;
  }

  lemma UrisConcat(a: seq<Entry>, b: seq<Entry>)
    ensures Uris(a + b) == Uris(a) + Uris(b)
  {
  }

  /** Below the cap nothing is dropped. */
  lemma SeenFits(c: Cached, c': Cached, page: seq<Entry>)
    requires c'.seen == Extended(c.seen, Uris(page))
    requires |SeenList(c)| + |page| <= CAP
    ensures SeenList(c') == SeenList(c) + Uris(page)
  {
  }

  /**
    * Exhaustive paging. Start with a cached pool of distinct entries that, with the seen list, fits under the cap,
    * and let only continuation requests follow, with any limits. As long as the requests before the last one ask for
    * less than all unseen entries, the pages together are the unseen entries in rank order, cut off at what was asked;
    * the pool is still the same, and the next request rebuilds it exactly if every unseen entry has been served.
    */
  lemma {:induction false} PagingIsExhaustive(c: Cached, pool: seq<Entry>, rs: seq<Request>, n: nat)
    requires c.pool == Some(pool) && pool != [] && DistinctUris(pool)
    requires |SeenList(c)| + |pool| <= CAP
    requires forall i :: 0 <= i < |rs| ==> !rs[i].isReload
    requires n <= |rs|
    requires n > 0 ==> Asked(rs, n - 1) < |Kept(pool, SeenList(c), false)|
    ensures var unseen := Kept(pool, SeenList(c), false);
              var m := Min(Asked(rs, n), |unseen|);
              && Concat(Pages(c, rs, n)) == unseen[..m]
              && Cache(c, rs, n).pool == Some(pool)
              && SeenList(Cache(c, rs, n)) == SeenList(c) + Uris(unseen[..m])
              && (n < |rs| ==> (Exhausted(Cache(c, rs, n), rs[n]) <==> m == |unseen|))
  {
    hide Kept, Page, Served, Exhausted, DistinctUris;
    var unseen := Kept(pool, SeenList(c), false);
    if n == 0 {
      assert SeenList(c) + Uris(unseen[..0]) == SeenList(c);
    } else {
      var before := Min(Asked(rs, n - 1), |unseen|);
      if n > 1 {
        assert Asked(rs, n - 2) <= Asked(rs, n - 1);
      }
      PagingIsExhaustive(c, pool, rs, n - 1);
      NextPage(Cache(c, rs, n - 1), pool, SeenList(c), before, rs[n - 1]);
      var m := Min(Asked(rs, n), |unseen|);
      assert unseen[..before] + unseen[before..m] == unseen[..m];
      assert Pages(c, rs, n)[..n - 1] == Pages(c, rs, n - 1);
    }
    if n < |rs| {
      NextPage(Cache(c, rs, n), pool, SeenList(c), Min(Asked(rs, n), |unseen|), rs[n]);
    }
  }
}
