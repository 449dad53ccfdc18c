/** Building status responses from feed items: split, fetch in batches, reassemble by reference. */
module Statuses {
  import opened Wrappers
  import opened Decimal
  import opened Mapping
  import opened Posts

  datatype FeedItem = Local(id: int) | Remote(post: Post)

  datatype ItemRef = LocalRef(id: int) | RemoteRef(index: nat)

  type IdMap = map<(string, int), int>

  /** A post's provenance, if it has any. */
  function Provenance(post: Post): Option<(string, int)> {
    if post.providerDomain.Some? && post.providerId.Some? then Some((post.providerDomain.value, post.providerId.value)) else None
  }

  /** The row mapping of one post, looked up on its own. */
  ghost function Promoted(t: Table, post: Post): Option<int> {
    match Provenance(post)
    case None => None
    case Some(origin) =>
      if exists id :: Resolved(t, origin, id) then
        var id :| Resolved(t, origin, id);
        t[id].localId
      else None
  }

  /** Which id a remote post is shown under. */
  function StatusId(post: Post, instanceDomain: string, ids: IdMap): string {
    match Provenance(post)
    case None => post.url
    case Some(origin) =>
      if origin.0 == instanceDomain then PrintInt(origin.1)
      else if origin in ids then PrintInt(ids[origin])
      else post.url
  }

  function FromPost(post: Post, instanceDomain: string, ids: IdMap): Status {
    Status(StatusId(post, instanceDomain, ids), post.content)
  }

  /** The posts that need a row in the mapping table. */
  function Foreign(posts: seq<Post>, instanceDomain: string): (mappings: seq<PostMapping>)
    ensures |mappings| <= |posts|
  {
    if posts == [] then []
    else
      var post := posts[|posts| - 1];
      Foreign(posts[..|posts| - 1], instanceDomain)
      + if IsForeign(post, instanceDomain) then [Mapped(post)] else []
  }

  predicate IsForeign(post: Post, instanceDomain: string) {
    Provenance(post).Some? && Provenance(post).value.0 != instanceDomain
  }

  function Mapped(post: Post): PostMapping
    requires Provenance(post).Some?
  {
    var (domain, remoteId) := Provenance(post).value;
    PostMapping(domain, remoteId, if post.uri.Some? then post.uri.value else post.url, post.content)
  }

  /**
    * What the batch upsert answers, and what it leaves behind. It answers nothing if it fails, in particular if a post
    * occurs twice.
    */
  ghost predicate Answered(t: Table, posts: seq<Post>, instanceDomain: string, upsertOk: bool, ids: IdMap, t': Table) {
    if upsertOk && DistinctPosts(Foreign(posts, instanceDomain))
    then BatchUpserted(t, Foreign(posts, instanceDomain), ids, t')
    else ids == map[] && t' == t
  }

  /** `from_posts`: one status per post, in order; without a mapping a post falls back to its url. */
  method FromPosts(table: StatusTable, posts: seq<Post>, instanceDomain: string, upsertOk: bool, freshIds: seq<int>)
    returns (statuses: seq<Status>, ids: IdMap)
    requires UniquePosts(table.rows)
    requires |freshIds| >= |posts|
    requires forall i :: 0 <= i < |freshIds| ==> freshIds[i] !in table.rows
    requires forall i, j :: 0 <= i < j < |freshIds| ==> freshIds[i] != freshIds[j]
    modifies table
    ensures UniquePosts(table.rows)
    ensures Answered(old(table.rows), posts, instanceDomain, upsertOk, ids, table.rows)
    ensures |statuses| == |posts|
    ensures forall i :: 0 <= i < |posts| ==> statuses[i] == FromPost(posts[i], instanceDomain, ids)
  {
    var mappings := [];
    for i := 0 to |posts|
      invariant mappings == Foreign(posts[..i], instanceDomain)
    {
      assert posts[..i + 1][..i] == posts[..i];
      var origin := Provenance(posts[i]);
      if origin.Some? && origin.value.0 != instanceDomain {
        mappings := mappings + [Mapped(posts[i])];
      }
    }
    assert posts[..|posts|] == posts;
    ids := map[];
    if upsertOk {
      var answer := table.MapPosts(mappings, freshIds);
      if answer.Some? {
        ids := answer.value;
      }
    }
    statuses := seq(|posts|, i requires 0 <= i < |posts| => FromPost(posts[i], instanceDomain, ids));
  }

  lemma {:induction false} ForeignMembers(posts: seq<Post>, instanceDomain: string, i: nat)
    requires i < |posts| && IsForeign(posts[i], instanceDomain)
    ensures Mapped(posts[i]) in Foreign(posts, instanceDomain)
  {
    if i < |posts| - 1 {
      ForeignMembers(posts[..|posts| - 1], instanceDomain, i);
    }
  }

  /**
    * If the upsert succeeds, each foreign post is shown under the id of its own row, which is there from then on; so
    * looking that id up finds the post.
    */
  lemma {:induction false} ForeignIdsResolve(t: Table, posts: seq<Post>, instanceDomain: string, ids: IdMap, t': Table, i: nat)
    requires Answered(t, posts, instanceDomain, true, ids, t') && DistinctPosts(Foreign(posts, instanceDomain))
    requires forall id :: id in t' ==> I64_MIN <= id <= I64_MAX
    requires i < |posts| && IsForeign(posts[i], instanceDomain)
    ensures var id := ParseI64(StatusId(posts[i], instanceDomain, ids));
            && id.Some?
            && FindById(t', id.value).Some?
            && var row := FindById(t', id.value).value;
            && Provenance(posts[i]) == Some((row.provider, row.remoteId))
            && row.postData == posts[i].content
  {
    var mappings := Foreign(posts, instanceDomain);
    ForeignMembers(posts, instanceDomain, i);
    var post := Mapped(posts[i]);
    assert post in mappings;
    assert HoldsPost(t, t', ids[post.Origin()], post);
    ParsePrintI64(ids[post.Origin()]);
  }

  /** The Mastodon id an item is served under, if it is local or has become so. */
  ghost function LocalId(item: FeedItem, t: Table): Option<int> {
    match item
    case Local(id) => Some(id)
    case Remote(post) => Promoted(t, post)
  }

  ghost function LocalIds(items: seq<FeedItem>, t: Table): seq<int> {
    if items == [] then []
    else
      var last := LocalId(items[|items| - 1], t);
      LocalIds(items[..|items| - 1], t) + if last.Some? then [last.value] else []
  }

  ghost function RemotePosts(items: seq<FeedItem>, t: Table): seq<Post> {
    if items == [] then []
    else
      var last := items[|items| - 1];
      RemotePosts(items[..|items| - 1], t) + if LocalId(last, t) == None then [last.post] else []
  }

  /** Fetched statuses by their numeric id. */
  function ById(fetched: seq<Status>): (byId: map<int, Status>)
    ensures forall id :: id in byId <==> exists s :: s in fetched && ParseI64(s.id) == Some(id)
    ensures forall id :: id in byId ==> byId[id] in fetched && ParseI64(byId[id].id) == Some(id)
  {
    if fetched == [] then map[]
    else
      var n := |fetched| - 1;
      assert fetched == fetched[..n] + [fetched[n]];
      match ParseI64(fetched[n].id)
      case None => ById(fetched[..n])
      case Some(id) => ById(fetched[..n])[id := fetched[n]]
  }

  /** One item looked up on its own. */
  ghost function Shown(item: FeedItem, t: Table, byId: map<int, Status>, instanceDomain: string, ids: IdMap): seq<Status> {
    match LocalId(item, t)
    case Some(id) => if id in byId then [byId[id]] else []
    case None => [FromPost(item.post, instanceDomain, ids)]
  }

  ghost function AllShown(items: seq<FeedItem>, t: Table, byId: map<int, Status>, instanceDomain: string, ids: IdMap): seq<Status> {
    if items == [] then []
    else AllShown(items[..|items| - 1], t, byId, instanceDomain, ids)
         + Shown(items[|items| - 1], t, byId, instanceDomain, ids)
  }

  /** What the references of the items must be. */
  ghost function RefOf(items: seq<FeedItem>, i: nat, t: Table): ItemRef
    requires i < |items|
  {
    match LocalId(items[i], t)
    case Some(id) => LocalRef(id)
    case None => RemoteRef(|RemotePosts(items[..i], t)|)
  }

  /** The batched lookup of row mappings answers as single lookups would. */
  ghost predicate Answers(resolved: IdMap, items: seq<FeedItem>, t: Table) {
    forall post :: Remote(post) in items ==>
      match Provenance(post)
      case None => Promoted(t, post) == None
      case Some(origin) => Promoted(t, post) == if origin in resolved then Some(resolved[origin]) else None
  }

  method ResolveProviders(table: StatusTable, items: seq<FeedItem>) returns (resolved: IdMap)
    requires UniquePosts(table.rows)
    ensures Answers(resolved, items, table.rows)
  {
    var pairs := [];
    for i := 0 to |items|
      invariant forall post :: Remote(post) in items[..i] && Provenance(post).Some? ==> Provenance(post).value in pairs
    {
      if items[i].Remote? && Provenance(items[i].post).Some? {
        pairs := pairs + [Provenance(items[i].post).value];
      }
    }
    assert items[..|items|] == items;
    resolved := table.FindMastodonIdsByProvider(pairs);
  }

  /** The split loop of `to_statuses`. */
  method Split(items: seq<FeedItem>, resolved: IdMap, ghost t: Table)
    returns (refs: seq<ItemRef>, localIds: seq<int>, remotePosts: seq<Post>)
    requires Answers(resolved, items, t)
    ensures localIds == LocalIds(items, t) && remotePosts == RemotePosts(items, t)
    ensures |refs| == |items| && forall i :: 0 <= i < |items| ==> refs[i] == RefOf(items, i, t)
  {
    refs, localIds, remotePosts := [], [], [];
    for i := 0 to |items|
      invariant localIds == LocalIds(items[..i], t) && remotePosts == RemotePosts(items[..i], t)
      invariant |refs| == i && forall j :: 0 <= j < i ==> refs[j] == RefOf(items, j, t)
    {
      assert items[..i + 1][..i] == items[..i];
      var local := None;
      match items[i] {
        case Local(id) => local := Some(id);
        case Remote(post) =>
          assert Remote(post) in items;
          var origin := Provenance(post);
          if origin.Some? && origin.value in resolved {
            local := Some(resolved[origin.value]);
          }
      }
      assert local == LocalId(items[i], t);
      if local.Some? {
        refs := refs + [LocalRef(local.value)];
        localIds := localIds + [local.value];
      } else {
        refs := refs + [RemoteRef(|remotePosts|)];
        remotePosts := remotePosts + [items[i].post];
      }
    }
    assert items[..|items|] == items;
  }

  lemma {:induction false} RemotePostsGrow(items: seq<FeedItem>, t: Table, i: nat, j: nat)
    requires i <= j <= |items|
    ensures RemotePosts(items[..i], t) <= RemotePosts(items[..j], t)
  {
    if i < j {
      RemotePostsGrow(items, t, i, j - 1);
      assert items[..j][..j - 1] == items[..j - 1];
    }
  }

  /** One item of the reassembling loop. */
  lemma StepFacts(items: seq<FeedItem>, t: Table, i: nat, byId: map<int, Status>, instanceDomain: string, ids: IdMap)
    requires i < |items|
    ensures AllShown(items[..i + 1], t, byId, instanceDomain, ids)
         == AllShown(items[..i], t, byId, instanceDomain, ids) + Shown(items[i], t, byId, instanceDomain, ids)
    ensures RefOf(items, i, t).LocalRef? ==>
              && var id := RefOf(items, i, t).id;
              && Shown(items[i], t, byId, instanceDomain, ids) == (if id in byId then [byId[id]] else [])
              && RemotePosts(items[..i + 1], t) == RemotePosts(items[..i], t)
    ensures RefOf(items, i, t).RemoteRef? ==>
              && var index := RefOf(items, i, t).index;
              && index == |RemotePosts(items[..i], t)| == |RemotePosts(items[..i + 1], t)| - 1 < |RemotePosts(items, t)|
              && Shown(items[i], t, byId, instanceDomain, ids) == [FromPost(RemotePosts(items, t)[index], instanceDomain, ids)]
  {
    hide LocalId, FromPost;
    assert items[..i + 1][..i] == items[..i];
    RemotePostsGrow(items, t, i + 1, |items|);
    assert items[..|items|] == items;
  }

  /** The reassembling loop: each remote reference takes its status out of the map. */
  method Reassemble(ghost items: seq<FeedItem>, ghost t: Table, refs: seq<ItemRef>, byId: map<int, Status>, remote: seq<Status>,
                    ghost instanceDomain: string, ghost ids: IdMap) returns (statuses: seq<Status>)
    requires |refs| == |items| && forall i :: 0 <= i < |items| ==> refs[i] == RefOf(items, i, t)
    requires |remote| == |RemotePosts(items, t)|
    requires forall k :: 0 <= k < |remote| ==> remote[k] == FromPost(RemotePosts(items, t)[k], instanceDomain, ids)
    ensures statuses == AllShown(items, t, byId, instanceDomain, ids)
  {
    var remoteByIdx: map<nat, Status> := map k: nat | k < |remote| :: remote[k];
    statuses := [];
    for i := 0 to |refs|
      invariant statuses == AllShown(items[..i], t, byId, instanceDomain, ids)
      invariant forall k: nat :: |RemotePosts(items[..i], t)| <= k < |remote| ==> k in remoteByIdx && remoteByIdx[k] == remote[k]
    {
      hide LocalId, FromPost, ById, Shown, AllShown, RefOf, RemotePosts;
      StepFacts(items, t, i, byId, instanceDomain, ids);
      match refs[i] {
        case LocalRef(id) =>
          if id in byId {
            statuses := statuses + [byId[id]];
          }
        case RemoteRef(index) =>
          if index in remoteByIdx {
            statuses := statuses + [remoteByIdx[index]];
            remoteByIdx := remoteByIdx - {index};
          }
      }
    }
    assert items[..|refs|] == items;
  }

  /** What the status database returns for some ids; `None` if it fails. */
  type Fetch = seq<int> -> Option<seq<Status>>

  /**
    * `to_statuses` equals looking each item up on its own, in order. It fails if the lookup of the row mappings or of
    * the statuses does, and only then.
    */
  method ToStatuses(table: StatusTable, items: seq<FeedItem>, instanceDomain: string, lookupOk: bool, fetch: Fetch,
                    upsertOk: bool, freshIds: seq<int>)
    returns (statuses: Option<seq<Status>>, ids: IdMap)
    requires UniquePosts(table.rows)
    requires |freshIds| >= |items|
    requires forall i :: 0 <= i < |freshIds| ==> freshIds[i] !in table.rows
    requires forall i, j :: 0 <= i < j < |freshIds| ==> freshIds[i] != freshIds[j]
    modifies table
    ensures var t, fetched := old(table.rows), fetch(LocalIds(items, old(table.rows)));
            && (statuses == None <==> !lookupOk || fetched == None)
            && (statuses.Some? ==> statuses.value == AllShown(items, t, ById(fetched.value), instanceDomain, ids))
            && (if lookupOk then Answered(t, RemotePosts(items, t), instanceDomain, upsertOk, ids, table.rows)
                else table.rows == t)
  {
    ids := map[];
    if !lookupOk {
      return None, ids;
    }
    ghost var t := table.rows;
    var resolved := ResolveProviders(table, items);
    var refs, localIds, remotePosts := Split(items, resolved, t);
    FewerRemotePosts(items, t);
    var fetched := fetch(localIds);
    var remote: seq<Status>;
    remote, ids := FromPosts(table, remotePosts, instanceDomain, upsertOk, freshIds);
    if fetched == None {
      return None, ids;
    }
    var shown := Reassemble(items, t, refs, ById(fetched.value), remote, instanceDomain, ids);
    statuses := Some(shown);
  }

  lemma {:induction false} FewerRemotePosts(items: seq<FeedItem>, t: Table)
    ensures |RemotePosts(items, t)| <= |items|
  {
    if items != [] {
      hide LocalId;
      FewerRemotePosts(items[..|items| - 1], t);
    }
  }

  /** An item is left out exactly if it is served from the database and the database did not return its id. */
  lemma {:induction false} DropsOnlyMissing(item: FeedItem, t: Table, fetched: seq<Status>, instanceDomain: string, ids: IdMap)
    ensures Shown(item, t, ById(fetched), instanceDomain, ids) == [] <==>
              LocalId(item, t).Some? && forall s :: s in fetched ==> ParseI64(s.id) != LocalId(item, t)
  {
  }

  /** Every requested id is the local id of some item, and the other way round. */
  lemma {:induction false} RequestsWhatItServes(items: seq<FeedItem>, t: Table, id: int)
    ensures id in LocalIds(items, t) <==> exists item :: item in items && LocalId(item, t) == Some(id)
  {
    if items != [] {
      var n := |items| - 1;
      RequestsWhatItServes(items[..n], t, id);
      assert items == items[..n] + [items[n]];
    }
  }

  /** A status is the one to show for an item: the one with the item's id, or the one built from its post. */
  ghost predicate InPlace(item: FeedItem, t: Table, status: Status, instanceDomain: string, ids: IdMap) {
    if LocalId(item, t).Some? then ParseI64(status.id) == LocalId(item, t)
    else status == FromPost(item.post, instanceDomain, ids)
  }

  ghost predicate AllInPlace(items: seq<FeedItem>, t: Table, statuses: seq<Status>, instanceDomain: string, ids: IdMap) {
    |statuses| == |items| && forall i :: 0 <= i < |items| ==> InPlace(items[i], t, statuses[i], instanceDomain, ids)
  }

  /** Statuses are filed under their own ids. */
  ghost predicate Filed(byId: map<int, Status>) {
    forall id :: id in byId ==> ParseI64(byId[id].id) == Some(id)
  }

  lemma ShownInPlace(item: FeedItem, t: Table, byId: map<int, Status>, instanceDomain: string, ids: IdMap)
    requires Filed(byId)
    requires LocalId(item, t).Some? ==> LocalId(item, t).value in byId
    ensures var shown := Shown(item, t, byId, instanceDomain, ids);
              |shown| == 1 && InPlace(item, t, shown[0], instanceDomain, ids)
  {
    hide LocalId, FromPost;
  }

  lemma OneMoreInPlace(items: seq<FeedItem>, t: Table, statuses: seq<Status>, last: Status, instanceDomain: string, ids: IdMap)
    requires items != []
    requires AllInPlace(items[..|items| - 1], t, statuses, instanceDomain, ids)
    requires InPlace(items[|items| - 1], t, last, instanceDomain, ids)
    ensures AllInPlace(items, t, statuses + [last], instanceDomain, ids)
  {
    hide InPlace;
  }

  lemma LocalIdsStep(items: seq<FeedItem>, t: Table)
    requires items != []
    ensures var n := |items| - 1;
            && (forall id :: id in LocalIds(items[..n], t) ==> id in LocalIds(items, t))
            && (LocalId(items[n], t).Some? ==> LocalId(items[n], t).value in LocalIds(items, t))
  {
    hide LocalId;
  }

  lemma {:induction false} ShownKeepsPlaces(items: seq<FeedItem>, t: Table, byId: map<int, Status>, instanceDomain: string, ids: IdMap)
    requires Filed(byId)
    requires forall id :: id in LocalIds(items, t) ==> id in byId
    ensures AllInPlace(items, t, AllShown(items, t, byId, instanceDomain, ids), instanceDomain, ids)
  {
    if items != [] {
      hide LocalId, LocalIds, Shown, Filed, InPlace, AllInPlace;
      var n := |items| - 1;
      LocalIdsStep(items, t);
      if LocalId(items[n], t).Some? {
        var id: int := LocalId(items[n], t).value;
        assert id in LocalIds(items, t);
      }
      ShownInPlace(items[n], t, byId, instanceDomain, ids);
      ShownKeepsPlaces(items[..n], t, byId, instanceDomain, ids);
      var last := Shown(items[n], t, byId, instanceDomain, ids);
      OneMoreInPlace(items, t, AllShown(items[..n], t, byId, instanceDomain, ids), last[0], instanceDomain, ids);
      assert last == [last[0]];
    }
  }

  /** If the database returns every requested status, nothing is dropped, and each item has its own status in its place. */
  lemma {:induction false} CompleteAnswerKeepsPlaces(items: seq<FeedItem>, t: Table, fetched: seq<Status>, instanceDomain: string, ids: IdMap)
    requires forall id :: id in LocalIds(items, t) ==> id in ById(fetched)
    ensures AllInPlace(items, t, AllShown(items, t, ById(fetched), instanceDomain, ids), instanceDomain, ids)
  {
    ShownKeepsPlaces(items, t, ById(fetched), instanceDomain, ids);
  }

  /** The table of statuses in the database, filed under their ids. */
  type Database = map<int, Status>

  /** The database returns exactly the requested statuses it has, each at least once, in any order, or it fails. */
  ghost predicate Fetches(fetch: Fetch, db: Database) {
    forall wanted: seq<int> :: fetch(wanted).Some? ==>
      && (forall s :: s in fetch(wanted).value ==> exists id :: id in wanted && id in db && s == db[id])
      && (forall id :: id in wanted && id in db ==> db[id] in fetch(wanted).value)
  }

  lemma FetchedById(fetch: Fetch, db: Database, wanted: seq<int>, id: int)
    requires Filed(db) && Fetches(fetch, db) && fetch(wanted).Some? && id in wanted
    ensures var byId := ById(fetch(wanted).value);
            && (id in byId <==> id in db)
            && (id in db ==> byId[id] == db[id])
  {
    var found := fetch(wanted).value;
    var byId := ById(found);
    if id in byId {
      var origin :| origin in wanted && origin in db && byId[id] == db[origin];
      assert origin == id;
    }
  }

  lemma {:induction false} SameShown(items: seq<FeedItem>, t: Table, a: map<int, Status>, b: map<int, Status>, instanceDomain: string, ids: IdMap)
    requires forall id :: id in LocalIds(items, t) ==> (id in a <==> id in b) && (id in b ==> a[id] == b[id])
    ensures AllShown(items, t, a, instanceDomain, ids) == AllShown(items, t, b, instanceDomain, ids)
  {
    if items != [] {
      hide LocalId, LocalIds, FromPost;
      LocalIdsStep(items, t);
      SameShown(items[..|items| - 1], t, a, b, instanceDomain, ids);
    }
  }

  /**
    * Batching is only a detour: if the database answers, the statuses shown are those that looking each item up on its
    * own, directly in the database, would show.
    */
  lemma {:induction false} BatchEqualsSingleLookups(items: seq<FeedItem>, t: Table, fetch: Fetch, db: Database, instanceDomain: string, ids: IdMap)
    requires Filed(db) && Fetches(fetch, db) && fetch(LocalIds(items, t)).Some?
    ensures AllShown(items, t, ById(fetch(LocalIds(items, t)).value), instanceDomain, ids)
         == AllShown(items, t, db, instanceDomain, ids)
  {
    hide AllShown, LocalIds, ById, Fetches;
    var wanted := LocalIds(items, t);
    forall id | id in wanted {
      FetchedById(fetch, db, wanted, id);
    }
    SameShown(items, t, ById(fetch(wanted).value), db, instanceDomain, ids);
  }
}
