/**
  The post handlers: creating a post, and the home feed, a read-only join of
  every post with its owner, its comments and their authors, newest first.
 */
module PostController {
  import opened Wrappers
  import opened Ids
  import opened Store
  import opened Views
  import opened Http

  predicate CreatePostSucceeds(db: Db, userId: Option<Id>, content: Option<string>, newId: Id) {
    userId.Some? && userId.value in db.users && Given(content) && newId !in db.posts
  }

  /** `createPost`: the requester must exist; the schema requires a
      non-empty `content` (a validation error, answered 500); the new post
      is owned by the requester, has no comments and no `likes` field, and
      carries an image exactly when the upload produced a URL. The reply is
      HTTP 201 with an envelope that says 200. */
  function CreatePost(db: Db, userId: Option<Id>, content: Option<string>, imageUrl: Option<string>, newId: Id, now: int): (h: Handled)
    ensures userId.None? || userId.value !in db.users ==> h == Handled(db, Fail(404, "user not found"))
    ensures userId.Some? && userId.value in db.users && !Given(content) ==> h == Handled(db, InternalError())
    ensures !CreatePostSucceeds(db, userId, content, newId) ==> h.db == db && h.reply.Sent? && h.reply.response.status != 201
    ensures h.db.users == db.users && h.db.comments == db.comments
    ensures CreatePostSucceeds(db, userId, content, newId) ==>
              && newId in h.db.posts
              && var p := h.db.posts[newId];
                 && h.db.posts == db.posts[newId := p]
                 && p.owner == userId.value
                 && p.content == content.value
                 && p.image == imageUrl
                 && p.comments == [] && p.likes == None
                 && p.createdAt == now
                 && h.reply == Sent(Response(201, ApiResponse(200, PostData(newId, p), "post creted successfully"), []))
  {
    if userId.None? || userId.value !in db.users then Handled(db, Fail(404, "user not found"))
    else if !Given(content) then Handled(db, InternalError())
    else if newId in db.posts then Handled(db, InternalError())
    else
      var p := Post(content.value, imageUrl, userId.value, [], None, now, now);
      Handled(db.(posts := db.posts[newId := p]),
              Sent(Response(201, ApiResponse(200, PostData(newId, p), "post creted successfully"), [])))
  }

  // ---------------------------------------------------------------------
  // Home feed

  /** The distinct ids of `xs` (a `$lookup` yields each matched document
      once). Which occurrence survives is immaterial: the order of a
      `$lookup` result is not promised. */
  function Distinct(xs: seq<Id>): (r: seq<Id>)
    ensures NoDups(r)
    ensures forall x :: x in r <==> x in xs
  {
    if xs == [] then []
    else if xs[0] in xs[1..] then Distinct(xs[1..])
    else
      var rest := Distinct(xs[1..]);
      assert xs[0] !in rest;
      [xs[0]] + rest
  }

  /** The ids of `ids` that name a stored comment; the others match nothing. */
  function Existing(ids: seq<Id>, comments: map<Id, Comment>): (r: seq<Id>)
    ensures forall x :: x in r <==> x in ids && x in comments
    ensures NoDups(ids) ==> NoDups(r)
  {
    if ids == [] then []
    else
      var rest := Existing(ids[1..], comments);
      if ids[0] in comments then
        assert NoDups(ids) ==> NoDups(ids[1..]) && ids[0] !in ids[1..] && ids[0] !in rest;
        [ids[0]] + rest
      else rest
  }

  /** The ids of the comments a feed post resolves. */
  function ResolvedIds(db: Db, p: Post): (r: seq<Id>)
    ensures NoDups(r)
    ensures forall c :: c in r <==> c in p.comments && c in db.comments
  {
    Existing(Distinct(p.comments), db.comments)
  }

  /** A comment reduced to id, text and creation time, with its author
      resolved to id, username and profile image. */
  function FeedCommentOf(db: Db, cid: Id): FeedComment
    requires cid in db.comments
  {
    var c := db.comments[cid];
    var author := if c.commentedBy in db.users then Some(Summary(c.commentedBy, db.users[c.commentedBy])) else None;
    FeedComment(cid, c.comment, c.createdAt, author)
  }

  /** One post of the home feed: its fields, the owner without password and
      refresh token (absent when the owner no longer exists), the resolved
      comments and their count. */
  function FeedEntry(db: Db, k: Id): (f: FeedPost)
    requires k in db.posts
    ensures var p := db.posts[k];
            && f.id == k && f.content == p.content && f.image == p.image && f.likes == p.likes
            && f.createdAt == p.createdAt && f.updatedAt == p.updatedAt
            && f.owner == (if p.owner in db.users then Some(PublicView(p.owner, db.users[p.owner])) else None)
            && f.commentsCount == |f.comments|
            && (forall i :: 0 <= i < |f.comments| ==>
                  f.comments[i].id in p.comments && f.comments[i].id in db.comments
                  && f.comments[i] == FeedCommentOf(db, f.comments[i].id))
            && (forall c :: c in p.comments && c in db.comments ==> exists i :: 0 <= i < |f.comments| && f.comments[i].id == c)
            && (forall i, j :: 0 <= i < j < |f.comments| ==> f.comments[i].id != f.comments[j].id)
  {
    var p := db.posts[k];
    var ids := ResolvedIds(db, p);
    var comments := seq(|ids|, i requires 0 <= i < |ids| => FeedCommentOf(db, ids[i]));
    assert forall c :: c in ids ==> exists i :: 0 <= i < |comments| && comments[i].id == c by {
      forall c | c in ids ensures exists i :: 0 <= i < |comments| && comments[i].id == c {
        var i :| 0 <= i < |ids| && ids[i] == c;
        assert comments[i].id == c;
      }
    }
    var owner := if p.owner in db.users then Some(PublicView(p.owner, db.users[p.owner])) else None;
    FeedPost(k, p.content, p.image, owner, comments, |comments|, p.likes, p.createdAt, p.updatedAt)
  }

  function IdSet(xs: seq<Id>): set<Id> {
    set x | x in xs
  }

  /** A duplicate-free array has as many elements as its set. */
  lemma {:induction false} NoDupsCardinality(xs: seq<Id>)
    requires NoDups(xs)
    ensures |IdSet(xs)| == |xs|
  {
    if xs != [] {
      assert NoDups(xs[1..]);
      NoDupsCardinality(xs[1..]);
      assert IdSet(xs) == IdSet(xs[1..]) + {xs[0]};
      assert xs[0] !in IdSet(xs[1..]);
    }
  }

  /** A feed post's `commentsCount` is the number of distinct stored comments
      its post refers to: dangling and repeated ids do not count. A post
      without comments counts zero. */
  lemma CommentsCountIsDistinctStoredComments(db: Db, k: Id)
    requires k in db.posts
    ensures FeedEntry(db, k).commentsCount == |set c | c in db.posts[k].comments && c in db.comments|
    ensures db.posts[k].comments == [] ==> FeedEntry(db, k).commentsCount == 0 && FeedEntry(db, k).comments == []
  {
    var ids := ResolvedIds(db, db.posts[k]);
    NoDupsCardinality(ids);
    assert IdSet(ids) == set c | c in db.posts[k].comments && c in db.comments;
  }

  /** The home-feed entry of a post just created carries its author's
      public profile and no comments yet. */
  lemma CreatedPostInFeed(db: Db, userId: Option<Id>, content: Option<string>, imageUrl: Option<string>, newId: Id, now: int)
    requires CreatePostSucceeds(db, userId, content, newId)
    ensures var h := CreatePost(db, userId, content, imageUrl, newId, now);
            && newId in h.db.posts
            && var f := FeedEntry(h.db, newId);
               && f.owner == Some(PublicView(userId.value, db.users[userId.value]))
               && f.content == content.value && f.image == imageUrl && f.likes == None
               && f.comments == [] && f.commentsCount == 0
  {
  }

  /** Ordered by `createdAt`, newest first. */
  predicate NewestFirst(fs: seq<FeedPost>) {
    forall i, j :: 0 <= i < j < |fs| ==> fs[i].createdAt >= fs[j].createdAt
  }

  predicate DistinctIds(fs: seq<FeedPost>) {
    forall i, j :: 0 <= i < j < |fs| ==> fs[i].id != fs[j].id
  }

  /** The tail of a newest-first sequence is newest first, and its head is
      at least as new as everything after it. */
  lemma HeadIsNewest(fs: seq<FeedPost>)
    requires |fs| > 0 && NewestFirst(fs)
    ensures NewestFirst(fs[1..])
    ensures forall y :: y in fs[1..] ==> y.createdAt <= fs[0].createdAt
  {
  }

  lemma ConsNewestFirst(a: FeedPost, rest: seq<FeedPost>)
    requires NewestFirst(rest)
    requires forall y :: y in rest ==> y.createdAt <= a.createdAt
    ensures NewestFirst([a] + rest)
  {
  }

  /** The tail of a sequence with distinct ids has distinct ids, none of them
      its head's. */
  lemma HeadIdIsUnique(fs: seq<FeedPost>)
    requires |fs| > 0 && DistinctIds(fs)
    ensures DistinctIds(fs[1..])
    ensures forall y :: y in fs[1..] ==> y.id != fs[0].id
  {
  }

  lemma ConsDistinctIds(a: FeedPost, rest: seq<FeedPost>)
    requires DistinctIds(rest)
    requires forall y :: y in rest ==> y.id != a.id
    ensures DistinctIds([a] + rest)
  {
  }

  /** Inserts `x` into a newest-first sequence before the first entry that is
      not newer than it. */
  function Insert(x: FeedPost, fs: seq<FeedPost>): (r: seq<FeedPost>)
    requires NewestFirst(fs)
    ensures NewestFirst(r)
    ensures forall y :: y in r <==> y in fs || y == x
    ensures multiset(r) == multiset(fs) + multiset{x}
    ensures DistinctIds(fs) && (forall y :: y in fs ==> y.id != x.id) ==> DistinctIds(r)
  {
    if fs == [] then [x]
    else if x.createdAt >= fs[0].createdAt then
      HeadIsNewest(fs);
      ConsNewestFirst(x, fs);
      if DistinctIds(fs) && (forall y :: y in fs ==> y.id != x.id) then
        ConsDistinctIds(x, fs);
        [x] + fs
      else [x] + fs
    else
      HeadIsNewest(fs);
      var rest := Insert(x, fs[1..]);
      InsertBehindHead(x, fs, rest);
      [fs[0]] + rest
  }

  /** The step of `Insert` that keeps the head in front: whatever the
      recursive call kept, the head put back in front keeps too. */
  lemma InsertBehindHead(x: FeedPost, fs: seq<FeedPost>, rest: seq<FeedPost>)
    requires |fs| > 0 && NewestFirst(fs) && x.createdAt < fs[0].createdAt
    requires NewestFirst(rest)
    requires forall y :: y in rest <==> y in fs[1..] || y == x
    requires multiset(rest) == multiset(fs[1..]) + multiset{x}
    requires DistinctIds(fs[1..]) && (forall y :: y in fs[1..] ==> y.id != x.id) ==> DistinctIds(rest)
    ensures NewestFirst([fs[0]] + rest)
    ensures forall y :: y in [fs[0]] + rest <==> y in fs || y == x
    ensures multiset([fs[0]] + rest) == multiset(fs) + multiset{x}
    ensures DistinctIds(fs) && (forall y :: y in fs ==> y.id != x.id) ==> DistinctIds([fs[0]] + rest)
  {
    HeadIsNewest(fs);
    ConsNewestFirst(fs[0], rest);
    assert fs == [fs[0]] + fs[1..];
    assert multiset([fs[0]] + rest) == multiset{fs[0]} + multiset(rest);
    assert multiset(fs) == multiset{fs[0]} + multiset(fs[1..]);
    if DistinctIds(fs) && (forall y :: y in fs ==> y.id != x.id) {
      HeadIdIsUnique(fs);
      ConsDistinctIds(fs[0], rest);
    }
  }

  /** Insertion sort by `createdAt`, newest first: the pipeline's final,
      descending sort stage. */
  function SortNewestFirst(fs: seq<FeedPost>): (r: seq<FeedPost>)
    ensures NewestFirst(r)
    ensures forall y :: y in r <==> y in fs
    ensures multiset(r) == multiset(fs)
    ensures DistinctIds(fs) ==> DistinctIds(r)
  {
    if fs == [] then []
    else
      var rest := SortNewestFirst(fs[1..]);
      assert fs == [fs[0]] + fs[1..];
      if DistinctIds(fs) then
        HeadIdIsUnique(fs);
        Insert(fs[0], rest)
      else Insert(fs[0], rest)
  }

  /** Every element is the feed entry of a stored post. */
  predicate AllEntries(db: Db, fs: seq<FeedPost>) {
    forall i :: 0 <= i < |fs| ==> fs[i].id in db.posts && fs[i] == FeedEntry(db, fs[i].id)
  }

  /** Every stored post outside `skip` has an entry. */
  predicate Covers(db: Db, fs: seq<FeedPost>, skip: set<Id>) {
    forall k :: k in db.posts && k !in skip ==> exists i :: 0 <= i < |fs| && fs[i].id == k
  }

  /** What the home feed promises about a store: every post exactly once,
      each as its feed entry, newest first. */
  predicate IsHomeFeed(db: Db, feed: seq<FeedPost>) {
    && NewestFirst(feed)
    && DistinctIds(feed)
    && |feed| == |db.posts|
    && AllEntries(db, feed)
    && Covers(db, feed, {})
  }

  /** A sequence drawn from feed entries holds only feed entries. */
  lemma AllEntriesOfSubset(db: Db, fs: seq<FeedPost>, gs: seq<FeedPost>)
    requires AllEntries(db, fs)
    requires forall y :: y in gs ==> y in fs
    ensures AllEntries(db, gs)
  {
    forall i | 0 <= i < |gs|
      ensures gs[i].id in db.posts && gs[i] == FeedEntry(db, gs[i].id)
    {
      assert gs[i] in fs;
    }
  }

  /** A sequence holding everything a covering sequence holds covers too. */
  lemma CoversOfSuperset(db: Db, fs: seq<FeedPost>, gs: seq<FeedPost>, skip: set<Id>)
    requires Covers(db, fs, skip)
    requires forall y :: y in fs ==> y in gs
    ensures Covers(db, gs, skip)
  {
    forall k | k in db.posts && k !in skip
      ensures exists i :: 0 <= i < |gs| && gs[i].id == k
    {
      var j :| 0 <= j < |fs| && fs[j].id == k;
      assert fs[j] in gs;
      var i :| 0 <= i < |gs| && gs[i] == fs[j];
    }
  }

  /** Appending the entry of a post not yet collected keeps the ids
      distinct. */
  lemma AppendKeepsDistinctIds(fs: seq<FeedPost>, e: FeedPost)
    requires DistinctIds(fs)
    requires forall i :: 0 <= i < |fs| ==> fs[i].id != e.id
    ensures DistinctIds(fs + [e])
  {
  }

  /** Appending the entry of `k` extends the coverage to `k`. */
  lemma AppendCovers(db: Db, fs: seq<FeedPost>, e: FeedPost, skip: set<Id>)
    requires Covers(db, fs, skip) && e.id in skip
    ensures Covers(db, fs + [e], skip - {e.id})
  {
    var gs := fs + [e];
    forall k | k in db.posts && k !in skip - {e.id}
      ensures exists i :: 0 <= i < |gs| && gs[i].id == k
    {
      if k == e.id {
        assert gs[|fs|].id == k;
      } else {
        var i :| 0 <= i < |fs| && fs[i].id == k;
        assert gs[i].id == k;
      }
    }
  }

  /** The feed entry of every post, in the order the collection is scanned. */
  method CollectEntries(db: Db) returns (entries: seq<FeedPost>)
    ensures |entries| == |db.posts|
    ensures DistinctIds(entries) && AllEntries(db, entries) && Covers(db, entries, {})
  {
    entries := [];
    var remaining := db.posts.Keys;
    while remaining != {}
      invariant remaining <= db.posts.Keys
      invariant |entries| + |remaining| == |db.posts|
      invariant DistinctIds(entries)
      invariant AllEntries(db, entries)
      invariant forall i :: 0 <= i < |entries| ==> entries[i].id !in remaining
      invariant Covers(db, entries, remaining)
      decreases |remaining|
    {
      var k :| k in remaining;
      var e := FeedEntry(db, k);
      AppendKeepsDistinctIds(entries, e);
      AppendCovers(db, entries, e, remaining);
      entries := entries + [e];
      remaining := remaining - {k};
    }
  }

  /** Sorting keeps the entries and their coverage of the store. */
  lemma SortKeepsEntries(db: Db, entries: seq<FeedPost>)
    requires AllEntries(db, entries) && Covers(db, entries, {})
    ensures AllEntries(db, SortNewestFirst(entries)) && Covers(db, SortNewestFirst(entries), {})
    ensures |SortNewestFirst(entries)| == |entries|
  {
    var feed := SortNewestFirst(entries);
    assert |feed| == |multiset(feed)| == |multiset(entries)| == |entries|;
    AllEntriesOfSubset(db, entries, feed);
    CoversOfSuperset(db, entries, feed, {});
  }

  /** Every post's feed entry, newest first. */
  method BuildHomeFeed(db: Db) returns (feed: seq<FeedPost>)
    ensures IsHomeFeed(db, feed)
  {
    var entries := CollectEntries(db);
    feed := SortNewestFirst(entries);
    SortKeepsEntries(db, entries);
  }

  /** `getAllPostsForHome`: answers 200 with the home feed of the store. */
  method GetAllPostsForHome(db: Db) returns (r: Reply)
    ensures r.Sent? && r.response.status == 200
    ensures r.response.body.ApiResponse? && r.response.body.message == "posts fetched successfully"
    ensures r.response.body.data.FeedData? && IsHomeFeed(db, r.response.body.data.feed)
  {
    var feed := BuildHomeFeed(db);
    r := Ok(200, FeedData(feed), "posts fetched successfully");
  }
}
