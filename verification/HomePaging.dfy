/** Paging through a cached pool when the seen list is full, so that older entries drop out of it on the way. */
module HomePaging {
  import opened Wrappers
  import opened HomeFeed
  import opened HomeHistory

  /** The seen lists agree on every entry of the pool. */
  lemma {:induction false} KeptSame(pool: seq<Entry>, a: seq<string>, b: seq<string>)
    requires forall e :: e in pool ==> (e.uri in a <==> e.uri in b)
    ensures Kept(pool, a, false) == Kept(pool, b, false)
  {
    if pool != [] {
      var n := |pool| - 1;
      assert pool == pool[..n] + [pool[n]];
      assert pool[n] in pool;
      KeptSame(pool[..n], a, b);
    }
  }

  lemma UrisMembers(es: seq<Entry>, uri: string)
    ensures uri in Uris(es) <==> exists e :: e in es && e.uri == uri
  {
    if uri in Uris(es) {
      var i :| 0 <= i < |es| && Uris(es)[i] == uri;
      assert es[i] in es;
    }
    if e :| e in es && e.uri == uri {
      var i :| 0 <= i < |es| && es[i] == e;
      assert Uris(es)[i] == uri;
    }
  }

  lemma {:induction false} DistinctCount(es: seq<Entry>)
    requires DistinctUris(es)
    ensures |set e | e in es| == |es|
  {
    if es == [] {
      assert (set e | e in es) == {};
    } else {
      var n := |es| - 1;
      DistinctCount(es[..n]);
      assert es == es[..n] + [es[n]];
      assert (set e | e in es) == (set e | e in es[..n]) + {es[n]};
    }
  }

  lemma {:induction false} SetCount(es: seq<Entry>)
    ensures |set e | e in es| <= |es|
  {
    if es == [] {
      assert (set e | e in es) == {};
    } else {
      var n := |es| - 1;
      SetCount(es[..n]);
      assert es == es[..n] + [es[n]];
      assert (set e | e in es) == (set e | e in es[..n]) + {es[n]};
    }
  }

  lemma SubsetCount(a: set<Entry>, b: set<Entry>)
    requires a <= b
    ensures |a| <= |b|
  {
    assert b == a + (b - a);
  }

  lemma NoMoreThan(pool: seq<Entry>, served: seq<Entry>)
    requires DistinctUris(served) && forall e :: e in served ==> e in pool
    ensures |served| <= |pool|
  {
    DistinctCount(served);
    SetCount(pool);
    SubsetCount(set e | e in served, set e | e in pool);
  }

  lemma SameEntry(pool: seq<Entry>, a: Entry, b: Entry)
    requires DistinctUris(pool) && a in pool && b in pool && a.uri == b.uri
    ensures a == b
  {
    var i :| 0 <= i < |pool| && pool[i] == a;
    var j :| 0 <= j < |pool| && pool[j] == b;
  }

  /** The last entries include whatever was appended, as long as that fits. */
  lemma LastHolds(n: nat, a: seq<string>, b: seq<string>)
    requires |b| <= n
    ensures forall x :: x in b ==> x in Last(n, a + b)
    ensures forall x :: x in Last(n, a + b) ==> x in a || x in b
  {
    var l := Last(n, a + b);
    assert b == l[|l| - |b|..];
  }

  /**
    * The state of paging: `served` is what the requests so far were shown. Nothing was shown twice, the seen list holds
    * what its cap allows of it, and of the entries unseen at the start the first ones were shown, in rank order.
    */
  ghost predicate Paging(pool: seq<Entry>, seen: seq<string>, served: seq<Entry>, c: Cached) {
    && c.pool == Some(pool)
    && SeenList(c) == Last(CAP, seen + Uris(served))
    && DistinctUris(served)
    && (forall e :: e in served ==> e in pool)
    && Kept(served, seen, false) <= Kept(pool, seen, false)
  }

  /** What the seen list leaves of the pool, less what was seen at the start, is the rest of the initially unseen. */
  lemma RestIsUnseen(pool: seq<Entry>, seen: seq<string>, served: seq<Entry>, c: Cached)
    requires DistinctUris(pool) && |pool| <= CAP && Paging(pool, seen, served, c)
    ensures Kept(Kept(pool, SeenList(c), false), seen, false) == Kept(pool, seen, false)[|Kept(served, seen, false)|..]
  {
    var unseen, shown := Kept(pool, seen, false), Kept(served, seen, false);
    var window := SeenList(c);
    NoMoreThan(pool, served);
    LastHolds(CAP, seen, Uris(served));
    forall e | e in pool
      ensures e.uri in window + seen <==> e.uri in seen + Uris(shown)
    {
      UrisMembers(served, e.uri);
      UrisMembers(shown, e.uri);
      if s :| s in served && s.uri == e.uri {
        SameEntry(pool, s, e);
      }
    }
    KeptSame(pool, window + seen, seen + Uris(shown));
    KeptTwice(pool, window, seen);
    KeptTwice(pool, seen, Uris(shown));
    KeptDistinct(pool, seen);
    assert shown == unseen[..|shown|];
    AfterPrefix(unseen, |shown|);
  }

  lemma DistinctConcat(a: seq<Entry>, b: seq<Entry>)
    requires DistinctUris(a) && DistinctUris(b)
    requires forall e, d :: e in a && d in b ==> e.uri != d.uri
    ensures DistinctUris(a + b)
  {
    var c := a + b;
    forall i, j | 0 <= i < j < |c|
      ensures c[i].uri != c[j].uri
    {
      if i < |a| <= j {
        assert a[i] in a && b[j - |a|] in b;
      }
    }
  }

  lemma PrefixFacts(page: seq<Entry>, rest: seq<Entry>)
    requires page <= rest && DistinctUris(rest)
    ensures DistinctUris(page) && forall e :: e in page ==> e in rest
  {
    assert forall i :: 0 <= i < |page| ==> page[i] == rest[i];
  }

  /** A page shows only entries that were not shown before. */
  lemma PageIsNew(pool: seq<Entry>, seen: seq<string>, served: seq<Entry>, c: Cached, page: seq<Entry>)
    requires DistinctUris(pool) && |pool| <= CAP && Paging(pool, seen, served, c)
    requires page <= Kept(pool, SeenList(c), false)
    ensures DistinctUris(served + page) && forall e :: e in served + page ==> e in pool
  {
    NoMoreThan(pool, served);
    LastHolds(CAP, seen, Uris(served));
    KeptDistinct(pool, SeenList(c));
    var rest := Kept(pool, SeenList(c), false);
    assert forall e :: e in rest ==> e in pool && e.uri !in SeenList(c);
    hide Kept, Last, DistinctUris;
    PrefixFacts(page, rest);
    forall e, d | e in served && d in page
      ensures e.uri != d.uri
    {
      UrisMembers(served, e.uri);
    }
    DistinctConcat(served, page);
  }

  lemma PagePrefix(pool: seq<Entry>, seen: seq<string>, served: seq<Entry>, c: Cached, page: seq<Entry>)
    requires DistinctUris(pool) && |pool| <= CAP && Paging(pool, seen, served, c)
    requires page <= Kept(pool, SeenList(c), false)
    ensures Kept(served + page, seen, false) <= Kept(pool, seen, false)
  {
    var rest := Kept(pool, SeenList(c), false);
    var unseen, shown := Kept(pool, seen, false), Kept(served, seen, false);
    RestIsUnseen(pool, seen, served, c);
    assert shown <= unseen;
    hide *;
    var more := rest[|page|..];
    assert rest == page + more;
    KeptConcat(page, more, seen);
    KeptConcat(served, page, seen);
    PrefixExtends(unseen, shown, Kept(page, seen, false), Kept(more, seen, false));
  }

  lemma PrefixExtends<T>(whole: seq<T>, a: seq<T>, b: seq<T>, c: seq<T>)
    requires a <= whole && b + c == whole[|a|..]
    ensures a + b <= whole
  {
    assert whole == a + (b + c);
  }

  lemma PageIsStored(seen: seq<string>, served: seq<Entry>, c: Cached, page: seq<Entry>, c': Cached)
    requires SeenList(c) == Last(CAP, seen + Uris(served)) && page != []
    requires c'.seen == Extended(c.seen, Uris(page))
    ensures SeenList(c') == Last(CAP, seen + Uris(served + page))
  {
    assert Uris(page) != [];
    assert SeenList(c') == Last(CAP, SeenList(c) + Uris(page));
    hide Last, Uris, Extended;
    LastOfLast(CAP, seen + Uris(served), Uris(page));
    UrisConcat(served, page);
    assert seen + Uris(served) + Uris(page) == seen + (Uris(served) + Uris(page));
  }

  /** A continuation request that finds something keeps the state of paging. */
  lemma RequestKeepsPaging(pool: seq<Entry>, seen: seq<string>, served: seq<Entry>, c: Cached, r: Request)
    requires pool != [] && DistinctUris(pool) && |pool| <= CAP && Paging(pool, seen, served, c)
    requires !r.isReload && !Exhausted(c, r)
    ensures Paging(pool, seen, served + Page(c, r), Served(c, r))
    ensures Page(c, r) != []
  {
    hide Kept, DistinctUris, Last, Extended, Uris, Page, Served, Exhausted;
    var rest := Kept(pool, SeenList(c), false);
    ServeFrom(c, pool, r, rest);
    var page := Page(c, r);
    PageIsNew(pool, seen, served, c, page);
    PagePrefix(pool, seen, served, c, page);
    PageIsStored(seen, served, c, page, Served(c, r));
  }

  /** A continuation request finds nothing exactly if every pool entry is on the seen list. */
  lemma ExhaustedIffAllSeen(c: Cached, pool: seq<Entry>, r: Request)
    requires c.pool == Some(pool) && pool != [] && !r.isReload
    ensures Exhausted(c, r) <==> forall e :: e in pool ==> e.uri in SeenList(c)
  {
    ServeFrom(c, pool, r, Kept(pool, SeenList(c), false));
    if Kept(pool, SeenList(c), false) != [] {
      assert Kept(pool, SeenList(c), false)[0] in Kept(pool, SeenList(c), false);
    }
  }

  /** None of the first `n` requests had to rebuild the pool. */
  ghost predicate NoRebuild(c: Cached, rs: seq<Request>, n: nat)
    requires n <= |rs|
  {
    forall i :: 0 <= i < n ==> !Exhausted(Cache(c, rs, i), rs[i])
  }

  lemma {:induction false} RunKeepsPaging(c: Cached, pool: seq<Entry>, rs: seq<Request>, n: nat)
    requires c.pool == Some(pool) && pool != [] && DistinctUris(pool)
    requires |pool| <= CAP && |SeenList(c)| <= CAP
    requires forall i :: 0 <= i < |rs| ==> !rs[i].isReload
    requires n <= |rs| && NoRebuild(c, rs, n)
    ensures Paging(pool, SeenList(c), Concat(Pages(c, rs, n)), Cache(c, rs, n))
    ensures n <= |Concat(Pages(c, rs, n))|
  {
    if n == 0 {
      assert SeenList(c) + Uris([]) == SeenList(c);
    } else {
      hide Paging, DistinctUris, Exhausted, Page, Served;
      RunKeepsPaging(c, pool, rs, n - 1);
      RequestKeepsPaging(pool, SeenList(c), Concat(Pages(c, rs, n - 1)), Cache(c, rs, n - 1), rs[n - 1]);
      assert Pages(c, rs, n)[..n - 1] == Pages(c, rs, n - 1);
    }
  }

  /**
    * Paging between two rebuilds, whatever the seen list: no entry is shown twice; of the entries unseen at the start the
    * first ones are shown, in rank order; and the next request rebuilds the pool exactly if all of its entries are among
    * the last 500 that were seen or shown. By then every initially unseen entry has been shown, and it comes to that after
    * at most as many requests as the pool has entries.
    */
  lemma {:induction false} PagingBetweenRebuilds(c: Cached, pool: seq<Entry>, rs: seq<Request>, n: nat)
    requires c.pool == Some(pool) && pool != [] && DistinctUris(pool)
    requires |pool| <= CAP && |SeenList(c)| <= CAP
    requires forall i :: 0 <= i < |rs| ==> !rs[i].isReload
    requires n <= |rs| && NoRebuild(c, rs, n)
    ensures var seen, served := SeenList(c), Concat(Pages(c, rs, n));
            && DistinctUris(served)
            && (forall e :: e in served ==> e in pool)
            && n <= |served| <= |pool|
            && Kept(served, seen, false) <= Kept(pool, seen, false)
            && (n < |rs| ==>
                  && (Exhausted(Cache(c, rs, n), rs[n]) <==> forall e :: e in pool ==> e.uri in Last(500, seen + Uris(served)))
                  && (Exhausted(Cache(c, rs, n), rs[n]) ==> Kept(served, seen, false) == Kept(pool, seen, false)))
  {
    var seen, served := SeenList(c), Concat(Pages(c, rs, n));
    RunKeepsPaging(c, pool, rs, n);
    NoMoreThan(pool, served);
    var now := Cache(c, rs, n);
    if n < |rs| {
      ExhaustedIffAllSeen(now, pool, rs[n]);
      if Exhausted(now, rs[n]) {
        KeptNone(pool, SeenList(now));
        KeptNothing(seen);
        RestIsUnseen(pool, seen, served, now);
      }
    }
  }
}
