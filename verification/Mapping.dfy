/** The table that maps Fediway snowflakes to posts and, once resolved, to Mastodon's local ids. */
module Mapping {
  import opened Wrappers

  datatype Row = Row(provider: string, remoteId: int, postUri: string, postData: string, localId: Option<int>)

  type Table = map<int, Row>

  /** The unique constraint on provider and remote id. */
  ghost predicate UniquePosts(t: Table) {
    forall a, b :: a in t && b in t && t[a].provider == t[b].provider && t[a].remoteId == t[b].remoteId ==> a == b
  }

  function FindById(t: Table, id: int): Option<Row> {
    if id in t then Some(t[id]) else None
  }

  /** Write-once: a row that already has a local id keeps it. */
  function SetLocalId(t: Table, id: int, localId: int): Table {
    if id in t && t[id].localId == None then t[id := t[id].(localId := Some(localId))] else t
  }

  function ClearLocalId(t: Table, id: int): Table {
    if id in t then t[id := t[id].(localId := None)] else t
  }

  function Remove(t: Table, id: int): Table {
    t - {id}
  }

  /** An upsert lands on the row `id`, which is new or already holds the post; an existing row only gets new data. */
  function Upsert(t: Table, id: int, provider: string, remoteId: int, postUri: string, postData: string): Table {
    if id in t then t[id := t[id].(postData := postData)]
    else t[id := Row(provider, remoteId, postUri, postData, None)]
  }

  /** What each kind of write does to the table, row by row. */
  lemma {:induction false} WritesByCase(t: Table, id: int, localId: int, provider: string, remoteId: int, postUri: string, postData: string, other: int)
    ensures var t' := SetLocalId(t, id, localId);
            && t'.Keys == t.Keys && (other in t && other != id ==> t'[other] == t[other])
            && (id in t ==> t'[id] == Row(t[id].provider, t[id].remoteId, t[id].postUri, t[id].postData,
                                          if t[id].localId == None then Some(localId) else t[id].localId))
    ensures var t' := ClearLocalId(t, id);
            && t'.Keys == t.Keys && (other in t && other != id ==> t'[other] == t[other])
            && (id in t ==> t'[id] == Row(t[id].provider, t[id].remoteId, t[id].postUri, t[id].postData, None))
    ensures var t' := Remove(t, id);
            && id !in t' && (other != id ==> (other in t' <==> other in t)) && (other in t && other != id ==> t'[other] == t[other])
    ensures var t' := Upsert(t, id, provider, remoteId, postUri, postData);
            && t'.Keys == t.Keys + {id} && (other in t && other != id ==> t'[other] == t[other])
            && t'[id] == if id in t then Row(t[id].provider, t[id].remoteId, t[id].postUri, postData, t[id].localId)
                         else Row(provider, remoteId, postUri, postData, None)
  {
  }

  predicate MapsTo(t: Table, id: int, localId: int) {
    id in t && t[id].localId == Some(localId)
  }

  /** `MIN(id)` over the rows mapped to a local id. */
  ghost predicate IsCanonical(t: Table, localId: int, id: int) {
    MapsTo(t, id, localId) && forall other :: MapsTo(t, other, localId) ==> id <= other
  }

  ghost predicate Least(ids: set<int>, x: int) {
    x in ids && forall other :: other in ids ==> x <= other
  }

  lemma {:induction false} LeastOf(ids: set<int>, some: int) returns (least: int)
    requires some in ids
    ensures Least(ids, least)
  {
    if other :| other in ids - {some} {
      least := LeastOf(ids - {some}, other);
      least := if some < least then some else least;
      assert forall x :: x in ids ==> x == some || x in ids - {some};
    } else {
      least := some;
      assert forall x :: x in ids ==> x == some || x in ids - {some};
    }
  }

  lemma CanonicalExists(t: Table, localId: int, some: int) returns (least: int)
    requires MapsTo(t, some, localId)
    ensures IsCanonical(t, localId, least)
  {
    var ids := set id | id in t && t[id].localId == Some(localId);
    least := LeastOf(ids, some);
    assert least in ids;
    assert forall other :: MapsTo(t, other, localId) ==> other in ids;
  }

  /** The snowflake a local id is shown as, if any row maps to it. */
  ghost function Canonical(t: Table, localId: int): (id: Option<int>)
    ensures id == None <==> forall i :: !MapsTo(t, i, localId)
    ensures id.Some? ==> IsCanonical(t, localId, id.value)
  {
    if exists i :: MapsTo(t, i, localId) then
      var i :| MapsTo(t, i, localId);
      assert exists least :: IsCanonical(t, localId, least) by {
        var least := CanonicalExists(t, localId, i);
      }
      var least :| IsCanonical(t, localId, least);
      Some(least)
    else None
  }

  /** `id` is the row of the given post, and the post has been resolved. */
  predicate Resolved(t: Table, post: (string, int), id: int) {
    id in t && t[id].provider == post.0 && t[id].remoteId == post.1 && t[id].localId.Some?
  }

  /** One post of a batch upsert. */
  datatype PostMapping = PostMapping(provider: string, remoteId: int, postUri: string, postData: string) {
    function Origin(): (string, int) {
      (provider, remoteId)
    }
  }

  predicate DistinctPosts(posts: seq<PostMapping>) {
    forall i, j :: 0 <= i < j < |posts| ==> posts[i].Origin() != posts[j].Origin()
  }

  /** The row `id` holds the post: the row it had, with new data, or a new and unresolved one. */
  ghost predicate HoldsPost(t: Table, t': Table, id: int, post: PostMapping) {
    && id in t'
    && (t'[id].provider, t'[id].remoteId) == post.Origin()
    && t'[id] == if id in t then t[id].(postData := post.postData)
                 else Row(post.provider, post.remoteId, post.postUri, post.postData, None)
  }

  predicate HasOrigin(posts: seq<PostMapping>, origin: (string, int)) {
    exists post :: post in posts && post.Origin() == origin
  }

  /** `ids` gives each post of the batch its row. */
  ghost predicate GivesRows(t: Table, posts: seq<PostMapping>, ids: map<(string, int), int>, t': Table) {
    && (forall origin :: origin in ids <==> HasOrigin(posts, origin))
    && (forall post :: post in posts ==> post.Origin() in ids && HoldsPost(t, t', ids[post.Origin()], post))
  }

  /** No row but the given ones has changed. */
  ghost predicate OthersStay(t: Table, ids: map<(string, int), int>, t': Table) {
    && (forall id :: id in t ==> id in t')
    && (forall id :: id in t' && id !in ids.Values ==> id in t && t'[id] == t[id])
  }

  ghost predicate BatchUpserted(t: Table, posts: seq<PostMapping>, ids: map<(string, int), int>, t': Table) {
    GivesRows(t, posts, ids, t') && OthersStay(t, ids, t')
  }

  lemma NewOrigin(posts: seq<PostMapping>, n: nat)
    requires n < |posts| && DistinctPosts(posts)
    ensures !HasOrigin(posts[..n], posts[n].Origin())
  {
    forall post | post in posts[..n]
      ensures post.Origin() != posts[n].Origin()
    {
      var i :| 0 <= i < n && posts[i] == post;
    }
  }

  /** A new row, or one found for one origin, is not that of another. */
  lemma RowsDiffer(t: Table, posts: seq<PostMapping>, ids: map<(string, int), int>, t': Table, origin: (string, int), id: int)
    requires GivesRows(t, posts, ids, t')
    requires origin !in ids && (id in t' ==> (t'[id].provider, t'[id].remoteId) == origin)
    ensures id !in ids.Values
  {
    forall other | other in ids
      ensures ids[other] != id
    {
      assert HasOrigin(posts, other);
      var post :| post in posts && post.Origin() == other;
      assert HoldsPost(t, t', ids[other], post);
    }
  }

  lemma UpsertRest(t: Table, id: int, post: PostMapping)
    ensures var t' := Upsert(t, id, post.provider, post.remoteId, post.postUri, post.postData);
            && t'.Keys == t.Keys + {id}
            && forall other :: other in t && other != id ==> t'[other] == t[other]
  {
  }

  /** The posts before stay where they are when another row is written. */
  lemma HeldStays(t: Table, t': Table, held: int, post: PostMapping, id: int, other: PostMapping)
    requires HoldsPost(t, t', held, post) && held != id
    ensures HoldsPost(t, Upsert(t', id, other.provider, other.remoteId, other.postUri, other.postData), held, post)
  {
  }

  lemma NewHolds(t: Table, t': Table, id: int, post: PostMapping)
    requires id in t <==> id in t'
    requires id in t ==> t'[id] == t[id] && (t[id].provider, t[id].remoteId) == post.Origin()
    ensures HoldsPost(t, Upsert(t', id, post.provider, post.remoteId, post.postUri, post.postData), id, post)
  {
  }

  lemma OriginsOfOneMore(posts: seq<PostMapping>, post: PostMapping, origin: (string, int))
    ensures HasOrigin(posts + [post], origin) <==> HasOrigin(posts, origin) || post.Origin() == origin
  {
    assert post in posts + [post];
  }

  lemma ValuesOfOneMore(ids: map<(string, int), int>, origin: (string, int), id: int)
    requires origin !in ids
    ensures ids[origin := id].Values == ids.Values + {id}
  {
    var ids' := ids[origin := id];
    assert ids'[origin] == id;
    assert forall o :: o in ids ==> ids'[o] == ids[o];
  }

  lemma GivesOneMore(t: Table, posts: seq<PostMapping>, ids: map<(string, int), int>, t': Table, id: int, post: PostMapping)
    requires GivesRows(t, posts, ids, t') && post.Origin() !in ids && id !in ids.Values
    requires id in t <==> id in t'
    requires id in t ==> t'[id] == t[id] && (t[id].provider, t[id].remoteId) == post.Origin()
    ensures GivesRows(t, posts + [post], ids[post.Origin() := id],
                      Upsert(t', id, post.provider, post.remoteId, post.postUri, post.postData))
  {
    hide Upsert, HoldsPost, HasOrigin;
    forall origin
      ensures HasOrigin(posts + [post], origin) <==> HasOrigin(posts, origin) || post.Origin() == origin
    {
      OriginsOfOneMore(posts, post, origin);
    }
    NewHolds(t, t', id, post);
    forall held | held in posts
      ensures held.Origin() in ids && ids[held.Origin()] != id
      ensures HoldsPost(t, Upsert(t', id, post.provider, post.remoteId, post.postUri, post.postData), ids[held.Origin()], held)
    {
      assert ids[held.Origin()] in ids.Values;
      HeldStays(t, t', ids[held.Origin()], held, id, post);
    }
  }

  lemma OthersStayAgain(t: Table, ids: map<(string, int), int>, t': Table, id: int, post: PostMapping)
    requires OthersStay(t, ids, t') && post.Origin() !in ids
    ensures OthersStay(t, ids[post.Origin() := id], Upsert(t', id, post.provider, post.remoteId, post.postUri, post.postData))
  {
    hide Upsert;
    ValuesOfOneMore(ids, post.Origin(), id);
    UpsertRest(t', id, post);
  }

  lemma UpsertOneMore(t: Table, posts: seq<PostMapping>, ids: map<(string, int), int>, t': Table, id: int, post: PostMapping)
    requires BatchUpserted(t, posts, ids, t') && !HasOrigin(posts, post.Origin())
    requires id in t' ==> (t'[id].provider, t'[id].remoteId) == post.Origin()
    ensures BatchUpserted(t, posts + [post], ids[post.Origin() := id],
                          Upsert(t', id, post.provider, post.remoteId, post.postUri, post.postData))
  {
    RowsDiffer(t, posts, ids, t', post.Origin(), id);
    assert id in t <==> id in t';
    hide GivesRows, OthersStay;
    GivesOneMore(t, posts, ids, t', id, post);
    OthersStayAgain(t, ids, t', id, post);
  }

  lemma NothingUpserted(t: Table)
    ensures BatchUpserted(t, [], map[], t)
  {
  }

  lemma UpsertNext(t: Table, posts: seq<PostMapping>, i: nat, ids: map<(string, int), int>, t': Table, id: int)
    requires i < |posts| && DistinctPosts(posts)
    requires BatchUpserted(t, posts[..i], ids, t')
    requires id in t' ==> (t'[id].provider, t'[id].remoteId) == posts[i].Origin()
    ensures var post := posts[i];
              BatchUpserted(t, posts[..i + 1], ids[post.Origin() := id],
                            Upsert(t', id, post.provider, post.remoteId, post.postUri, post.postData))
  {
    NewOrigin(posts, i);
    hide *;
    assert posts[..i + 1] == posts[..i] + [posts[i]];
    UpsertOneMore(t, posts[..i], ids, t', id, posts[i]);
  }

  /** The table as an object that requests share. */
  class StatusTable {
    var rows: Table

    constructor ()
      ensures rows == map[]
    {
      rows := map[];
    }

    /** `map_post`: returns the id of the post's row, which `fresh` becomes if there is none. */
    method MapPost(provider: string, remoteId: int, postUri: string, postData: string, freshId: int) returns (id: int)
      requires UniquePosts(rows)
      requires freshId !in rows
      modifies this
      ensures rows == Upsert(old(rows), id, provider, remoteId, postUri, postData)
      ensures UniquePosts(rows)
      ensures rows[id].provider == provider && rows[id].remoteId == remoteId && rows[id].postData == postData
      ensures id != freshId ==> id in old(rows) && rows[id].localId == old(rows[id].localId)
      ensures id in old(rows) ==> old(rows)[id].provider == provider && old(rows)[id].remoteId == remoteId
    {
      if existing :| existing in rows && rows[existing].provider == provider && rows[existing].remoteId == remoteId {
        id := existing;
        rows := rows[id := rows[id].(postData := postData)];
      } else {
        id := freshId;
        rows := rows[id := Row(provider, remoteId, postUri, postData, None)];
      }
    }

    /**
      * `map_posts`: one statement for the whole batch. It fails as a whole if two of the posts are the same, since
      * such an upsert may not touch a row twice.
      */
    method MapPosts(posts: seq<PostMapping>, freshIds: seq<int>) returns (ids: Option<map<(string, int), int>>)
      requires UniquePosts(rows)
      requires |freshIds| >= |posts|
      requires forall i :: 0 <= i < |posts| ==> freshIds[i] !in rows
      requires forall i, j :: 0 <= i < j < |posts| ==> freshIds[i] != freshIds[j]
      modifies this
      ensures UniquePosts(rows)
      ensures ids.Some? <==> DistinctPosts(posts)
      ensures if ids.Some? then BatchUpserted(old(rows), posts, ids.value, rows) else rows == old(rows)
    {
      if !DistinctPosts(posts) {
        return None;
      }
      var m := map[];
      hide UniquePosts, BatchUpserted, DistinctPosts, Upsert;
      NothingUpserted(rows);
      assert posts[..0] == [];
      for i := 0 to |posts|
        invariant UniquePosts(rows)
        invariant BatchUpserted(old(rows), posts[..i], m, rows)
        invariant forall j :: i <= j < |posts| ==> freshIds[j] !in rows
      {
        ghost var before := rows;
        var id := MapPost(posts[i].provider, posts[i].remoteId, posts[i].postUri, posts[i].postData, freshIds[i]);
        UpsertNext(old(rows), posts, i, m, before, id);
        UpsertRest(before, id, posts[i]);
        m := m[posts[i].Origin() := id];
      }
      assert posts[..|posts|] == posts;
      ids := Some(m);
    }

    method SetMastodonLocalId(id: int, localId: int) returns (changed: bool)
      modifies this
      ensures rows == SetLocalId(old(rows), id, localId)
      ensures changed <==> id in old(rows) && old(rows)[id].localId == None
    {
      changed := id in rows && rows[id].localId == None;
      if changed {
        rows := rows[id := rows[id].(localId := Some(localId))];
      }
    }

    method ClearMastodonLocalId(id: int)
      modifies this
      ensures rows == ClearLocalId(old(rows), id)
    {
      if id in rows {
        rows := rows[id := rows[id].(localId := None)];
      }
    }

    method Delete(id: int)
      modifies this
      ensures rows == Remove(old(rows), id)
    {
      rows := map k | k in rows && k != id :: rows[k];
    }

    /** `reverse_map`: each requested local id that some row maps to, with the least such row. */
    method ReverseMap(localIds: seq<int>) returns (m: map<int, int>)
      ensures forall n :: n in m <==> n in localIds && Canonical(rows, n).Some?
      ensures forall n :: n in m ==> Canonical(rows, n) == Some(m[n])
    {
      m := map[];
      for i := 0 to |localIds|
        invariant forall n :: n in m <==> n in localIds[..i] && Canonical(rows, n).Some?
        invariant forall n :: n in m ==> Canonical(rows, n) == Some(m[n])
      {
        var n := localIds[i];
        if some :| some in rows && rows[some].localId == Some(n) {
          assert MapsTo(rows, some, n);
          ghost var canonical := CanonicalExists(rows, n, some);
          assert canonical in rows && rows[canonical].localId == Some(n);
          assert forall other :: other in rows && rows[other].localId == Some(n) ==> MapsTo(rows, other, n);
          var least :| least in rows && rows[least].localId == Some(n)
                       && forall other :: other in rows && rows[other].localId == Some(n) ==> least <= other;
          assert IsCanonical(rows, n, least);
          m := m[n := least];
        } else {
          assert forall id :: !MapsTo(rows, id, n);
        }
      }
    }

    /** `find_mastodon_ids_by_provider`: the resolved ones among the given posts. */
    method FindMastodonIdsByProvider(posts: seq<(string, int)>) returns (m: map<(string, int), int>)
      requires UniquePosts(rows)
      ensures forall post :: post in m <==> post in posts && exists id :: Resolved(rows, post, id)
      ensures forall post, id :: post in m && Resolved(rows, post, id) ==> rows[id].localId == Some(m[post])
    {
      m := map[];
      for i := 0 to |posts|
        invariant forall post :: post in m <==> post in posts[..i] && exists id :: Resolved(rows, post, id)
        invariant forall post, id :: post in m && Resolved(rows, post, id) ==> rows[id].localId == Some(m[post])
      {
        var post := posts[i];
        if id :| id in rows && Resolved(rows, post, id) {
          m := m[post := rows[id].localId.value];
        }
      }
    }
  }
}
