/** Folding embedded engagements into user vectors, account by account. */
module OrbitVectors {
  import opened Wrappers
  import opened Sorting
  import opened Orbit

  type Vectors = map<int, UserState>

  function Applied(s: UserState, e: Engagement, embedding: Vec, config: Config): UserState {
    UserState(config.ema(s.vector, embedding, e.kind), s.count + 1)
  }

  function InitialState(vectors: Vectors, account: int, config: Config): UserState {
    if account in vectors then vectors[account] else UserState(seq(config.dims, _ => 0.0), 0)
  }

  /** The state of one account after its embedded engagements among `es`, in order. */
  function AccountState(start: UserState, es: seq<Engagement>, account: int, embeddings: map<string, Vec>, config: Config): UserState {
    if es == [] then start
    else
      var n := |es| - 1;
      var before := AccountState(start, es[..n], account, embeddings, config);
      if es[n].account == account && es[n].text in embeddings then Applied(before, es[n], embeddings[es[n].text], config)
      else before
  }

  predicate Touched(es: seq<Engagement>, account: int, embeddings: map<string, Vec>) {
    exists i :: 0 <= i < |es| && es[i].account == account && es[i].text in embeddings
  }

  /** The reference: one engagement after the other, each on the whole table. */
  function ApplyInOrder(vectors: Vectors, es: seq<Engagement>, embeddings: map<string, Vec>, config: Config): Vectors {
    if es == [] then vectors
    else
      var n := |es| - 1;
      var before := ApplyInOrder(vectors, es[..n], embeddings, config);
      var e := es[n];
      if e.text in embeddings
      then before[e.account := Applied(InitialState(before, e.account, config), e, embeddings[e.text], config)]
      else before
  }

  /** What is stored afterwards: the new state of each touched account whose write succeeded. */
  ghost predicate Stored(vectors: Vectors, es: seq<Engagement>, embeddings: map<string, Vec>, config: Config,
                         upsertOk: int -> bool, vectors': Vectors) {
    && (forall a :: a in vectors' <==> a in vectors || (Touched(es, a, embeddings) && upsertOk(a)))
    && (forall a :: a in vectors' ==>
          vectors'[a] == if Touched(es, a, embeddings) && upsertOk(a)
                         then AccountState(InitialState(vectors, a, config), es, a, embeddings, config)
                         else vectors[a])
  }

  function OfAccount(es: seq<Engagement>, account: int): seq<Engagement> {
    Filter(es, (e: Engagement) => e.account == account)
  }

  lemma OfAccountStep(es: seq<Engagement>, e: Engagement, account: int)
    ensures OfAccount(es + [e], account) == OfAccount(es, account) + if e.account == account then [e] else []
  {
    assert (es + [e])[..|es|] == es;
  }

  lemma AccountStateStep(start: UserState, es: seq<Engagement>, e: Engagement, account: int, embeddings: map<string, Vec>, config: Config)
    ensures AccountState(start, es + [e], account, embeddings, config)
         == var before := AccountState(start, es, account, embeddings, config);
            if e.account == account && e.text in embeddings then Applied(before, e, embeddings[e.text], config) else before
  {
    assert (es + [e])[..|es|] == es;
  }

  /** An account's state depends on its own engagements only. */
  lemma {:induction false} AccountStateIsLocal(start: UserState, es: seq<Engagement>, account: int, embeddings: map<string, Vec>, config: Config)
    ensures AccountState(start, OfAccount(es, account), account, embeddings, config)
         == AccountState(start, es, account, embeddings, config)
  {
    if es != [] {
      hide OfAccount, AccountState, Applied;
      var n := |es| - 1;
      AccountStateIsLocal(start, es[..n], account, embeddings, config);
      assert es == es[..n] + [es[n]];
      OfAccountStep(es[..n], es[n], account);
      AccountStateStep(start, es[..n], es[n], account, embeddings, config);
      if es[n].account == account {
        AccountStateStep(start, OfAccount(es[..n], account), es[n], account, embeddings, config);
      } else {
        assert OfAccount(es, account) == OfAccount(es[..n], account);
      }
    }
  }

  /** The second loop body of `process_engagements`, for one account. */
  method FoldAccount(start: UserState, engagements: seq<Engagement>, account: int, embeddings: map<string, Vec>, config: Config)
    returns (state: UserState, changed: bool)
    requires forall e :: e in engagements ==> e.account == account
    ensures state == AccountState(start, engagements, account, embeddings, config)
    ensures changed <==> Touched(engagements, account, embeddings)
  {
    state, changed := start, false;
    for i := 0 to |engagements|
      invariant state == AccountState(start, engagements[..i], account, embeddings, config)
      invariant changed <==> Touched(engagements[..i], account, embeddings)
    {
      var e := engagements[i];
      assert engagements[..i + 1][..i] == engagements[..i];
      assert e.account == account;
      if e.text in embeddings {
        state := Applied(state, e, embeddings[e.text], config);
        changed := true;
        assert engagements[..i + 1][i] == e;
      } else {
        assert Touched(engagements[..i + 1], account, embeddings) ==> Touched(engagements[..i], account, embeddings);
      }
    }
    assert engagements[..|engagements|] == engagements;
  }

  method GroupByAccount(engagements: seq<Engagement>) returns (byAccount: map<int, seq<Engagement>>)
    ensures forall a :: a in byAccount <==> OfAccount(engagements, a) != []
    ensures forall a :: a in byAccount ==> byAccount[a] == OfAccount(engagements, a)
  {
    hide Filter;
    byAccount := map[];
    assert forall a :: OfAccount([], a) == [] by {
      hide *;
      forall a {
        NoEngagements(a);
      }
    }
    for i := 0 to |engagements|
      invariant forall a :: a in byAccount <==> OfAccount(engagements[..i], a) != []
      invariant forall a :: a in byAccount ==> byAccount[a] == OfAccount(engagements[..i], a)
    {
      hide OfAccount;
      var e := engagements[i];
      assert engagements[..i + 1] == engagements[..i] + [e];
      forall a {
        OfAccountStep(engagements[..i], e, a);
      }
      byAccount := byAccount[e.account := (if e.account in byAccount then byAccount[e.account] else []) + [e]];
    }
    assert engagements[..|engagements|] == engagements;
  }

  lemma NoEngagements(a: int)
    ensures OfAccount([], a) == []
  {
  }

  lemma TouchedIsLocal(es: seq<Engagement>, account: int, embeddings: map<string, Vec>)
    ensures Touched(OfAccount(es, account), account, embeddings) <==> Touched(es, account, embeddings)
  {
    var own := OfAccount(es, account);
    if Touched(own, account, embeddings) {
      var i :| 0 <= i < |own| && own[i].account == account && own[i].text in embeddings;
      assert own[i] in es;
    }
    if Touched(es, account, embeddings) {
      var i :| 0 <= i < |es| && es[i].account == account && es[i].text in embeddings;
      assert es[i] in own;
    }
  }

  /** `process_engagements`: accounts are visited in no particular order, and each write may fail on its own. */
  method ProcessEngagements(vectors: Vectors, engagements: seq<Engagement>, embeddings: map<string, Vec>, config: Config,
                            upsertOk: int -> bool, order: seq<int>) returns (vectors': Vectors)
    requires forall i, j :: 0 <= i < j < |order| ==> order[i] != order[j]
    requires forall a :: a in order <==> OfAccount(engagements, a) != []
    ensures Stored(vectors, engagements, embeddings, config, upsertOk, vectors')
  {
    var byAccount := GroupByAccount(engagements);
    vectors' := vectors;
    hide *;
    NoneVisited(vectors, engagements, embeddings, config, upsertOk);
    assert order[..0] == [];
    for i := 0 to |order|
      invariant StoredFor(order[..i], vectors, engagements, embeddings, config, upsertOk, vectors')
    {
      var account := order[i];
      assert account in order;
      OwnEngagements(engagements, account);
      var state, changed := FoldAccount(InitialState(vectors', account, config), byAccount[account], account, embeddings, config);
      assert order[..i + 1] == order[..i] + [account];
      VisitOne(order[..i], account, vectors, engagements, embeddings, config, upsertOk, vectors');
      if changed && upsertOk(account) {
        vectors' := vectors'[account := state];
      }
    }
    assert order[..|order|] == order;
    AllVisited(order, vectors, engagements, embeddings, config, upsertOk, vectors');
  }

  lemma NoneVisited(vectors: Vectors, es: seq<Engagement>, embeddings: map<string, Vec>, config: Config, upsertOk: int -> bool)
    ensures StoredFor([], vectors, es, embeddings, config, upsertOk, vectors)
  {
  }

  /** Folding an account's own engagements is one more step towards `Stored`. */
  lemma VisitOne(visited: seq<int>, account: int, vectors: Vectors, es: seq<Engagement>, embeddings: map<string, Vec>, config: Config,
                 upsertOk: int -> bool, vectors': Vectors)
    requires StoredFor(visited, vectors, es, embeddings, config, upsertOk, vectors')
    requires account !in visited
    ensures var own := OfAccount(es, account);
            var state := AccountState(InitialState(vectors', account, config), own, account, embeddings, config);
              StoredFor(visited + [account], vectors, es, embeddings, config, upsertOk,
                        if Touched(own, account, embeddings) && upsertOk(account) then vectors'[account := state] else vectors')
  {
    hide *;
    AccountStateIsLocal(InitialState(vectors, account, config), es, account, embeddings, config);
    TouchedIsLocal(es, account, embeddings);
    StoreOne(visited, account, vectors, es, embeddings, config, upsertOk, vectors');
  }

  lemma AllVisited(order: seq<int>, vectors: Vectors, es: seq<Engagement>, embeddings: map<string, Vec>, config: Config,
                   upsertOk: int -> bool, vectors': Vectors)
    requires StoredFor(order, vectors, es, embeddings, config, upsertOk, vectors')
    requires forall a :: a in order <==> OfAccount(es, a) != []
    ensures Stored(vectors, es, embeddings, config, upsertOk, vectors')
  {
    hide Touched, OfAccount, AccountState;
    forall a | Touched(es, a, embeddings)
      ensures a in order
    {
      TouchedMeansOwn(es, a, embeddings);
    }
  }

  /** `Stored`, as far as the given accounts have been visited. */
  ghost predicate StoredFor(visited: seq<int>, vectors: Vectors, es: seq<Engagement>, embeddings: map<string, Vec>, config: Config,
                            upsertOk: int -> bool, vectors': Vectors) {
    && (forall a :: a in vectors' <==> a in vectors || (a in visited && Touched(es, a, embeddings) && upsertOk(a)))
    && (forall a :: a in vectors' ==>
          vectors'[a] == if a in visited && Touched(es, a, embeddings) && upsertOk(a)
                         then AccountState(InitialState(vectors, a, config), es, a, embeddings, config)
                         else vectors[a])
  }

  lemma StoreOne(visited: seq<int>, account: int, vectors: Vectors, es: seq<Engagement>, embeddings: map<string, Vec>, config: Config,
                 upsertOk: int -> bool, vectors': Vectors)
    requires StoredFor(visited, vectors, es, embeddings, config, upsertOk, vectors')
    requires account !in visited
    ensures InitialState(vectors', account, config) == InitialState(vectors, account, config)
    ensures var state := AccountState(InitialState(vectors, account, config), es, account, embeddings, config);
              StoredFor(visited + [account], vectors, es, embeddings, config, upsertOk,
                        if Touched(es, account, embeddings) && upsertOk(account) then vectors'[account := state] else vectors')
  {
    hide AccountState, Touched;
  }

  lemma OwnEngagements(es: seq<Engagement>, account: int)
    ensures forall e :: e in OfAccount(es, account) ==> e.account == account
  {
  }

  lemma TouchedMeansOwn(es: seq<Engagement>, account: int, embeddings: map<string, Vec>)
    requires Touched(es, account, embeddings)
    ensures OfAccount(es, account) != []
  {
    var i :| 0 <= i < |es| && es[i].account == account && es[i].text in embeddings;
    assert es[i] in OfAccount(es, account);
  }

  /** Grouping is only a detour: if every write succeeds, the result is that of one pass in order. */
  lemma {:induction false} InOrderIsByAccount(vectors: Vectors, es: seq<Engagement>, embeddings: map<string, Vec>, config: Config, a: int)
    ensures a in ApplyInOrder(vectors, es, embeddings, config) <==> a in vectors || Touched(es, a, embeddings)
    ensures InitialState(ApplyInOrder(vectors, es, embeddings, config), a, config)
         == AccountState(InitialState(vectors, a, config), es, a, embeddings, config)
  {
    if es != [] {
      var n := |es| - 1;
      InOrderIsByAccount(vectors, es[..n], embeddings, config, a);
      assert Touched(es, a, embeddings) <==> Touched(es[..n], a, embeddings) || (es[n].account == a && es[n].text in embeddings);
    }
  }

  lemma {:induction false} UntouchedStays(start: UserState, es: seq<Engagement>, a: int, embeddings: map<string, Vec>, config: Config)
    requires !Touched(es, a, embeddings)
    ensures AccountState(start, es, a, embeddings, config) == start
  {
    if es != [] {
      var n := |es| - 1;
      assert !Touched(es[..n], a, embeddings);
      UntouchedStays(start, es[..n], a, embeddings, config);
    }
  }

  lemma {:induction false} GroupedEqualsInOrder(vectors: Vectors, es: seq<Engagement>, embeddings: map<string, Vec>, config: Config,
                             upsertOk: int -> bool, vectors': Vectors)
    requires Stored(vectors, es, embeddings, config, upsertOk, vectors')
    requires forall a :: Touched(es, a, embeddings) ==> upsertOk(a)
    ensures vectors' == ApplyInOrder(vectors, es, embeddings, config)
  {
    var inOrder := ApplyInOrder(vectors, es, embeddings, config);
    forall a
      ensures a in vectors' <==> a in inOrder
      ensures a in vectors' ==> vectors'[a] == inOrder[a]
    {
      InOrderIsByAccount(vectors, es, embeddings, config, a);
      if !Touched(es, a, embeddings) {
        UntouchedStays(InitialState(vectors, a, config), es, a, embeddings, config);
      }
    }
  }

  /** How often an account was engaged with an embedded target is how much its count grows. */
  lemma {:induction false} CountGrowsByEngagements(start: UserState, es: seq<Engagement>, a: int, embeddings: map<string, Vec>, config: Config)
    ensures AccountState(start, es, a, embeddings, config).count
         == start.count + |Filter(es, (e: Engagement) => e.account == a && e.text in embeddings)|
  {
    if es != [] {
      CountGrowsByEngagements(start, es[..|es| - 1], a, embeddings, config);
    }
  }
}
