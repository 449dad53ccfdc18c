/** Under which id, and with which content, each feed item is shown. */
module StatusIdentity {
  import opened Wrappers
  import opened Decimal
  import opened Mapping
  import opened Posts
  import opened Statuses

  /** The row holds the post: same provider, same id there. */
  ghost predicate IsRowOf(t: Table, row: int, post: Post) {
    row in t && Some(t[row].provider) == post.providerDomain && Some(t[row].remoteId) == post.providerId
  }

  /** A local item keeps its id; a remote one is served locally exactly if its row has been resolved, and then under that id. */
  lemma {:induction false} LocalIdByCase(item: FeedItem, t: Table)
    requires UniquePosts(t)
    ensures item.Local? ==> LocalId(item, t) == Some(item.id)
    ensures item.Remote? ==> forall row :: IsRowOf(t, row, item.post) ==> LocalId(item, t) == t[row].localId
    ensures item.Remote? && (forall row :: !IsRowOf(t, row, item.post)) ==> LocalId(item, t) == None
  {
    if item.Remote? && item.post.providerDomain.Some? && item.post.providerId.Some? {
      var origin := (item.post.providerDomain.value, item.post.providerId.value);
      assert forall id :: Resolved(t, origin, id) ==> IsRowOf(t, id, item.post);
      forall row | IsRowOf(t, row, item.post)
        ensures LocalId(item, t) == t[row].localId
      {
        assert forall id :: Resolved(t, origin, id) ==> id == row;
        assert t[row].localId.Some? ==> Resolved(t, origin, row);
      }
    }
  }

  /** A post of this instance is shown under its own id, a mapped one under its snowflake, and any other under its url. */
  lemma {:induction false} ShownIdByCase(post: Post, instanceDomain: string, ids: IdMap)
    ensures FromPost(post, instanceDomain, ids).content == post.content
    ensures var id := FromPost(post, instanceDomain, ids).id;
            if post.providerDomain == None || post.providerId == None then id == post.url
            else if post.providerDomain.value == instanceDomain then id == PrintInt(post.providerId.value)
            else if (post.providerDomain.value, post.providerId.value) in ids
            then id == PrintInt(ids[(post.providerDomain.value, post.providerId.value)])
            else id == post.url
  {
  }

  /** If the upsert fails, or a post occurs twice, every foreign post is shown under its url. */
  lemma {:induction false} FailedUpsertShowsUrls(t: Table, posts: seq<Post>, instanceDomain: string, upsertOk: bool, ids: IdMap, t': Table, i: nat)
    requires Answered(t, posts, instanceDomain, upsertOk, ids, t')
    requires !upsertOk || !DistinctPosts(Foreign(posts, instanceDomain))
    requires i < |posts| && posts[i].providerDomain != Some(instanceDomain)
    ensures FromPost(posts[i], instanceDomain, ids).id == posts[i].url && t' == t
  {
  }

  /** A foreign post that had no row gets one with its uri, or its url if it has none, and without a local id. */
  lemma {:induction false} NewRowsKeepUris(t: Table, posts: seq<Post>, instanceDomain: string, ids: IdMap, t': Table, i: nat)
    requires Answered(t, posts, instanceDomain, true, ids, t') && DistinctPosts(Foreign(posts, instanceDomain))
    requires i < |posts| && posts[i].providerDomain.Some? && posts[i].providerId.Some?
    requires posts[i].providerDomain.value != instanceDomain
    ensures var origin := (posts[i].providerDomain.value, posts[i].providerId.value);
            && origin in ids && ids[origin] in t'
            && (ids[origin] !in t ==>
                  t'[ids[origin]] == Row(origin.0, origin.1, if posts[i].uri.Some? then posts[i].uri.value else posts[i].url,
                                         posts[i].content, None))
            && (ids[origin] in t ==> t'[ids[origin]] == t[ids[origin]].(postData := posts[i].content))
  {
    ForeignMembers(posts, instanceDomain, i);
    var post := Mapped(posts[i]);
    assert post in Foreign(posts, instanceDomain);
    assert HoldsPost(t, t', ids[post.Origin()], post);
  }

  /** What is shown in an item's place, in the item's own terms. */
  ghost predicate ShownAs(item: FeedItem, t: Table, status: Status, instanceDomain: string, ids: IdMap) {
    match item
    case Local(id) => ParseI64(status.id) == Some(id)
    case Remote(post) =>
      if exists row :: IsRowOf(t, row, post) && t[row].localId.Some?
      then exists row :: IsRowOf(t, row, post) && t[row].localId.Some? && ParseI64(status.id) == t[row].localId
      else status.content == post.content
           && status.id == (if post.providerDomain == None || post.providerId == None then post.url
                            else if post.providerDomain.value == instanceDomain then PrintInt(post.providerId.value)
                            else if (post.providerDomain.value, post.providerId.value) in ids
                            then PrintInt(ids[(post.providerDomain.value, post.providerId.value)])
                            else post.url)
  }

  lemma InPlaceIsShownAs(item: FeedItem, t: Table, status: Status, instanceDomain: string, ids: IdMap)
    requires UniquePosts(t) && InPlace(item, t, status, instanceDomain, ids)
    ensures ShownAs(item, t, status, instanceDomain, ids)
  {
    hide ParseI64, PrintInt;
    LocalIdByCase(item, t);
    if item.Remote? {
      ShownIdByCase(item.post, instanceDomain, ids);
      hide LocalId, FromPost;
    }
  }

  /** If the database returns every requested status, each item is shown in its place, under its own id, with its own content. */
  lemma {:induction false} EachItemInItsPlace(items: seq<FeedItem>, t: Table, fetched: seq<Status>, instanceDomain: string, ids: IdMap, i: nat)
    requires UniquePosts(t) && i < |items|
    requires forall id :: id in LocalIds(items, t) ==> id in ById(fetched)
    ensures |AllShown(items, t, ById(fetched), instanceDomain, ids)| == |items|
    ensures ShownAs(items[i], t, AllShown(items, t, ById(fetched), instanceDomain, ids)[i], instanceDomain, ids)
  {
    hide AllShown, LocalIds, ById, ShownAs;
    CompleteAnswerKeepsPlaces(items, t, fetched, instanceDomain, ids);
    hide InPlace;
    InPlaceIsShownAs(items[i], t, AllShown(items, t, ById(fetched), instanceDomain, ids)[i], instanceDomain, ids);
  }
}
