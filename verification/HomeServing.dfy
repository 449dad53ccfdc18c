/** What one request to the home feed shows, entry by entry. */
module HomeServing {
  import opened Wrappers
  import opened HomeFeed

  /** Not on the seen list, or a reload of something from the user's own network. */
  ghost predicate Admissible(e: Entry, seen: seq<string>, isReload: bool) {
    e.uri !in seen || (isReload && e.group == "network")
  }

  /** The positions, in order, of some of the entries of a pool. */
  ghost predicate Positions(ps: seq<nat>, pool: seq<Entry>) {
    && (forall i :: 0 <= i < |ps| ==> ps[i] < |pool|)
    && (forall i, j :: 0 <= i < j < |ps| ==> ps[i] < ps[j])
  }

  ghost predicate EntriesAt(ps: seq<nat>, pool: seq<Entry>, entries: seq<Entry>) {
    Positions(ps, pool) && |entries| == |ps| && forall i :: 0 <= i < |ps| ==> entries[i] == pool[ps[i]]
  }

  ghost predicate AllAdmissible(ps: seq<nat>, pool: seq<Entry>, seen: seq<string>, isReload: bool) {
    forall p: nat :: p < |pool| ==> (p in ps <==> Admissible(pool[p], seen, isReload))
  }

  lemma KeepMeansAdmissible(e: Entry, seen: seq<string>, isReload: bool)
    ensures Keep(e, seen, isReload) <==> Admissible(e, seen, isReload)
  {
    OnlyNetworkBypasses(e.group);
  }

  lemma EntriesAtLonger(ps: seq<nat>, pool: seq<Entry>, entries: seq<Entry>)
    requires pool != [] && EntriesAt(ps, pool[..|pool| - 1], entries)
    ensures EntriesAt(ps, pool, entries)
    ensures EntriesAt(ps + [|pool| - 1], pool, entries + [pool[|pool| - 1]])
  {
  }

  lemma AllAdmissibleLonger(ps: seq<nat>, pool: seq<Entry>, seen: seq<string>, isReload: bool)
    requires pool != [] && Positions(ps, pool[..|pool| - 1]) && AllAdmissible(ps, pool[..|pool| - 1], seen, isReload)
    ensures AllAdmissible(if Admissible(pool[|pool| - 1], seen, isReload) then ps + [|pool| - 1] else ps, pool, seen, isReload)
  {
    hide Admissible;
    var n := |pool| - 1;
    assert n !in ps;
    forall p: nat | p < n
      ensures p in ps <==> Admissible(pool[p], seen, isReload)
    {
      assert pool[..n][p] == pool[p];
    }
  }

  /** The kept entries are the admissible ones, all of them, in the order of the pool. */
  lemma {:induction false} KeptAtPositions(pool: seq<Entry>, seen: seq<string>, isReload: bool) returns (ps: seq<nat>)
    ensures EntriesAt(ps, pool, Kept(pool, seen, isReload))
    ensures AllAdmissible(ps, pool, seen, isReload)
  {
    if pool == [] {
      ps := [];
    } else {
      hide EntriesAt, AllAdmissible, Admissible, Keep;
      var n := |pool| - 1;
      ps := KeptAtPositions(pool[..n], seen, isReload);
      EntriesAtLonger(ps, pool, Kept(pool[..n], seen, isReload));
      PositionsOf(ps, pool[..n], Kept(pool[..n], seen, isReload));
      AllAdmissibleLonger(ps, pool, seen, isReload);
      KeepMeansAdmissible(pool[n], seen, isReload);
      assert Kept(pool, seen, isReload) == Kept(pool[..n], seen, isReload) + if Keep(pool[n], seen, isReload) then [pool[n]] else [];
      hide Kept;
      if Keep(pool[n], seen, isReload) {
        ps := ps + [n];
      }
    }
  }

  lemma PositionsOf(ps: seq<nat>, pool: seq<Entry>, entries: seq<Entry>)
    requires EntriesAt(ps, pool, entries)
    ensures Positions(ps, pool)
  {
  }

  lemma OnlyNetworkBypasses(group: string)
    ensures group in RELOAD_BYPASSES_SEEN <==> group == "network"
  {
  }

  /** How many entries a request may show: what it asks for, but at least one and at most forty. */
  ghost predicate Wanted(asked: nat, n: nat) {
    if asked < 1 then n == 1 else if asked > 40 then n == 40 else n == asked
  }

  lemma ClampIsWanted(asked: nat)
    ensures Wanted(asked, Clamp(asked))
  {
  }

  /**
    * `page` holds the first `n` admissible entries of the pool, or all if there are fewer, in order; `ps` are their
    * positions. An admissible entry that is not among them comes after them, and then the page is full.
    */
  ghost predicate FirstAdmissible(ps: seq<nat>, page: seq<Entry>, pool: seq<Entry>, seen: seq<string>, isReload: bool, n: nat) {
    && EntriesAt(ps, pool, page)
    && |page| <= n
    && (forall e :: e in page ==> Admissible(e, seen, isReload))
    && (forall p: nat :: p < |pool| && Admissible(pool[p], seen, isReload) && p !in ps ==> |page| == n && Behind(ps, p))
  }

  ghost predicate Behind(ps: seq<nat>, p: nat) {
    forall i :: 0 <= i < |ps| ==> ps[i] < p
  }

  lemma CutPositions(ps: seq<nat>, pool: seq<Entry>, entries: seq<Entry>, n: nat)
    requires EntriesAt(ps, pool, entries) && n <= |ps|
    ensures EntriesAt(ps[..n], pool, entries[..n])
    ensures forall p :: p in ps && p !in ps[..n] ==> Behind(ps[..n], p)
  {
    forall j | 0 <= j < n
      ensures ps[j] in ps[..n]
    {
      assert ps[..n][j] == ps[j];
    }
    forall p | p in ps && p !in ps[..n]
      ensures Behind(ps[..n], p)
    {
      var j :| 0 <= j < |ps| && ps[j] == p;
      assert j >= n;
    }
  }

  lemma PageAdmissible(page: seq<Entry>, kept: seq<Entry>, pool: seq<Entry>, seen: seq<string>, isReload: bool)
    requires page <= kept && kept == Kept(pool, seen, isReload)
    ensures forall e :: e in page ==> Admissible(e, seen, isReload)
  {
    hide Admissible;
    forall e | e in page
      ensures Admissible(e, seen, isReload)
    {
      assert e in kept;
      KeepMeansAdmissible(e, seen, isReload);
    }
  }

  lemma TakenAtPositions(pool: seq<Entry>, seen: seq<string>, isReload: bool, n: nat) returns (ps: seq<nat>)
    ensures FirstAdmissible(ps, Take(Kept(pool, seen, isReload), n), pool, seen, isReload, n)
  {
    var kept := Kept(pool, seen, isReload);
    var all := KeptAtPositions(pool, seen, isReload);
    var m := if |kept| < n then |kept| else n;
    assert |all| == |kept|;
    CutPositions(all, pool, kept, m);
    assert Take(kept, n) == kept[..m];
    PageAdmissible(kept[..m], kept, pool, seen, isReload);
    ps := all[..m];
    hide Kept, Take, Admissible, EntriesAt, Behind;
    if |kept| <= n {
      assert ps == all;
    }
  }

  /** A pool with an admissible entry gives a page with one. */
  lemma SomethingShown(ps: seq<nat>, page: seq<Entry>, pool: seq<Entry>, seen: seq<string>, isReload: bool, n: nat)
    requires FirstAdmissible(ps, page, pool, seen, isReload, n) && n >= 1
    ensures page != [] <==> exists e :: e in pool && Admissible(e, seen, isReload)
  {
    hide Admissible;
    if page != [] {
      assert page[0] == pool[ps[0]] && page[0] in page;
    }
    if e :| e in pool && Admissible(e, seen, isReload) {
      var p :| 0 <= p < |pool| && pool[p] == e;
      assert p in ps ==> ps != [];
    }
  }

  /**
    * What a request shows. It goes to the cached pool, or to a new one if there is none; if that holds nothing admissible,
    * and only then, the pool is rebuilt once more. The page is the first admissible entries of that pool, as many as
    * wanted, and that pool is cached.
    */
  lemma {:induction false} PageIsFirstAdmissible(c: Cached, r: Request, n: nat) returns (ps: seq<nat>)
    requires Wanted(r.limit, n)
    ensures var seen := if c.seen.Some? then c.seen.value else [];
            var loaded := if c.pool.Some? && c.pool.value != [] then c.pool.value else r.first;
            var pool := if exists e :: e in loaded && Admissible(e, seen, r.isReload) then loaded else r.second;
            Served(c, r).pool == Some(pool) && FirstAdmissible(ps, Page(c, r), pool, seen, r.isReload, n)
  {
    ClampIsWanted(r.limit);
    var seen := SeenList(c);
    var loaded := Loaded(c, r);
    hide Kept, Take, Admissible, FirstAdmissible;
    ps := TakenAtPositions(loaded, seen, r.isReload, n);
    SomethingShown(ps, FirstChoice(c, r), loaded, seen, r.isReload, n);
    if Exhausted(c, r) {
      ps := TakenAtPositions(r.second, seen, r.isReload, n);
    }
  }
}
