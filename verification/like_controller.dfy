/**
  The like handlers: toggling the requester's like on a post, and listing
  the users who like a post.
 */
module LikeController {
  import opened Wrappers
  import opened Ids
  import opened Store
  import opened Views
  import opened Http

  /** The likes of a loaded post document; Mongoose presents an absent array
      as an empty one. */
  function LikesOf(p: Post): seq<Id> {
    p.likes.GetOr([])
  }

  /** True when the toggle's guards all pass for this request. */
  predicate ToggleReachesPost(db: Db, userId: Option<Id>, postId: string) {
    userId.Some? && Cast(postId).Some? && Cast(postId).value in db.posts
  }

  /** `togglePostLike`: checks the requester, the path parameter and the post
      in that order, then `$pull`s the requester from `likes` if present and
      `$addToSet`s it otherwise. */
  function TogglePostLike(db: Db, userId: Option<Id>, postId: string, now: int): (h: Handled)
    ensures userId.None? ==> h == Handled(db, Fail(404, "user id not found"))
    ensures userId.Some? && postId == "" ==> h == Handled(db, Fail(404, "post id not found"))
    ensures userId.Some? && postId != "" && !IsObjectIdText(postId) ==> h == Handled(db, InternalError())
    ensures userId.Some? && Cast(postId).Some? && Cast(postId).value !in db.posts ==>
              h == Handled(db, Fail(404, "post not found"))
    ensures h.db.users == db.users && h.db.comments == db.comments && h.db.posts.Keys == db.posts.Keys
    ensures ToggleReachesPost(db, userId, postId) ==>
              var pid, u := Cast(postId).value, userId.value;
              var before, after := db.posts[pid], h.db.posts[pid];
              && h.db.posts == db.posts[pid := after]
              && after == before.(likes := after.likes, updatedAt := now)
              && (u in LikesOf(before) ==>
                    LikesOf(after) == Pull(LikesOf(before), u) && h.reply == Ok(201, NoData, "you unliked the post"))
              && (u !in LikesOf(before) ==>
                    LikesOf(after) == LikesOf(before) + [u] && h.reply == Ok(201, NoData, "you liked the post"))
  {
    if userId.None? then Handled(db, Fail(404, "user id not found"))
    else if postId == "" then Handled(db, Fail(404, "post id not found"))
    else
      match Cast(postId)
      case None => Handled(db, InternalError())
      case Some(pid) =>
        if pid !in db.posts then Handled(db, Fail(404, "post not found"))
        else
          var post, u := db.posts[pid], userId.value;
          if u in LikesOf(post) then
            var updated := post.(likes := Some(Pull(LikesOf(post), u)), updatedAt := now);
            Handled(db.(posts := db.posts[pid := updated]), Ok(201, NoData, "you unliked the post"))
          else
            var updated := post.(likes := Some(AddToSet(LikesOf(post), u)), updatedAt := now);
            Handled(db.(posts := db.posts[pid := updated]), Ok(201, NoData, "you liked the post"))
  }

  /** A toggle flips the requester's membership in `likes` and leaves every
      other user's membership alone. */
  lemma ToggleFlipsMembership(db: Db, userId: Option<Id>, postId: string, now: int)
    requires ToggleReachesPost(db, userId, postId)
    ensures var pid := Cast(postId).value;
            var after := TogglePostLike(db, userId, postId, now).db.posts[pid];
            && (userId.value in LikesOf(after) <==> userId.value !in LikesOf(db.posts[pid]))
            && forall v :: v != userId.value ==> (v in LikesOf(after) <==> v in LikesOf(db.posts[pid]))
  {
  }

  /** A toggle never introduces a duplicate like. */
  lemma ToggleKeepsLikesDuplicateFree(db: Db, userId: Option<Id>, postId: string, now: int)
    requires ToggleReachesPost(db, userId, postId)
    requires NoDups(LikesOf(db.posts[Cast(postId).value]))
    ensures NoDups(LikesOf(TogglePostLike(db, userId, postId, now).db.posts[Cast(postId).value]))
  {
  }

  /** Toggling twice gives back the users who liked the post. When the
      requester had not liked it, the array comes back exactly, order
      included; otherwise the requester returns at the end of it. */
  lemma ToggleTwiceRestoresLikes(db: Db, userId: Option<Id>, postId: string, now1: int, now2: int)
    requires ToggleReachesPost(db, userId, postId)
    ensures var pid := Cast(postId).value;
            var once := TogglePostLike(db, userId, postId, now1).db;
            var twice := TogglePostLike(once, userId, postId, now2).db;
            && twice.users == db.users
            && twice.comments == db.comments
            && twice.posts.Keys == db.posts.Keys
            && (forall k :: k in db.posts && k != pid ==> twice.posts[k] == db.posts[k])
            && twice.posts[pid] == db.posts[pid].(likes := twice.posts[pid].likes, updatedAt := now2)
            && (forall v :: v in LikesOf(twice.posts[pid]) <==> v in LikesOf(db.posts[pid]))
            && (userId.value !in LikesOf(db.posts[pid]) ==> LikesOf(twice.posts[pid]) == LikesOf(db.posts[pid]))
  {
    var pid, u := Cast(postId).value, userId.value;
    var once := TogglePostLike(db, userId, postId, now1).db;
    assert ToggleReachesPost(once, userId, postId);
    ToggleFlipsMembership(db, userId, postId, now1);
    ToggleFlipsMembership(once, userId, postId, now2);
    if u !in LikesOf(db.posts[pid]) {
      PullUndoesAddToSet(LikesOf(db.posts[pid]), u);
    }
  }

  /** `getUsersWhoLikedPost`: checks the path parameter before the requester,
      then answers with the users whose id is in the post's `likes` (an
      absent array reads as empty), each shown as id, username and profile
      image. Ids of users that no longer exist are dropped. */
  function GetUsersWhoLikedPost(db: Db, userId: Option<Id>, postId: string): (r: Reply)
    ensures postId == "" ==> r == Fail(404, "post id not found")
    ensures postId != "" && userId.None? ==> r == Fail(404, "user id not found")
    ensures postId != "" && userId.Some? && !IsObjectIdText(postId) ==> r == InternalError()
    ensures userId.Some? && Cast(postId).Some? && Cast(postId).value !in db.posts ==> r == Fail(404, "post not found")
    ensures ToggleReachesPost(db, userId, postId) ==>
              && r.Sent? && r.response.status == 200
              && r.response.body.ApiResponse?
              && r.response.body.message == "liked users fetched successfully"
              && r.response.body.data.LikedUsersData?
              && var liked := r.response.body.data.likedUsers;
                 var likes := LikesOf(db.posts[Cast(postId).value]);
                 && (forall k :: k in liked <==> k in likes && k in db.users)
                 && (forall k :: k in liked ==> liked[k] == Summary(k, db.users[k]))
  {
    if postId == "" then Fail(404, "post id not found")
    else if userId.None? then Fail(404, "user id not found")
    else
      match Cast(postId)
      case None => InternalError()
      case Some(pid) =>
        if pid !in db.posts then Fail(404, "post not found")
        else
          var likes := LikesOf(db.posts[pid]);
          var liked := map k | k in likes && k in db.users :: Summary(k, db.users[k]);
          Ok(200, LikedUsersData(liked), "liked users fetched successfully")
  }

  /** After a toggle the listing shows the requester exactly when the toggle
      was a like (provided the requester's account exists). */
  lemma ListingFollowsToggle(db: Db, userId: Option<Id>, postId: string, now: int)
    requires ToggleReachesPost(db, userId, postId)
    requires userId.value in db.users
    ensures var pid := Cast(postId).value;
            var h := TogglePostLike(db, userId, postId, now);
            var r := GetUsersWhoLikedPost(h.db, userId, postId);
            && (userId.value in r.response.body.data.likedUsers <==> h.reply == Ok(201, NoData, "you liked the post"))
  {
  }
}
