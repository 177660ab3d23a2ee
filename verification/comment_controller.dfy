/**
  The comment handlers: creating a comment on a post, listing a post's
  comments, and deleting a comment as the post's owner or the comment's
  author.
 */
module CommentController {
  import opened Wrappers
  import opened Ids
  import opened Store
  import opened Views
  import opened Http

  /** True when every guard of comment creation passes. */
  predicate CreateSucceeds(db: Db, userId: Option<Id>, postId: string, text: Option<string>, newId: Id) {
    && userId.Some? && Given(text)
    && Cast(postId).Some? && Cast(postId).value in db.posts
    && newId !in db.comments
  }

  /** The body shared by both versions of `createComment`, after the text
      check: cast the post id, find the post, insert the comment under the
      fresh id (a taken id is a duplicate-key error) and append its id to the
      post's `comments`. */
  function CreateAfterGuards(db: Db, u: Id, postId: string, text: string, newId: Id, now: int): Handled {
    match Cast(postId)
    case None => Handled(db, InternalError())
    case Some(pid) =>
      if pid !in db.posts then Handled(db, Fail(404, "post not found"))
      else if newId in db.comments then Handled(db, InternalError())
      else
        var c := Comment(pid, text, u, now, now);
        var post := db.posts[pid];
        var updated := post.(comments := post.comments + [newId], updatedAt := now);
        Handled(Db(db.users, db.posts[pid := updated], db.comments[newId := c]),
                Ok(201, CommentData(newId, c), "comment created successfully"))
  }

  /** `createComment` as written: a missing requester or post id RETURNS an
      error value instead of throwing it, so no response is ever sent. */
  function CreateCommentAsWritten(db: Db, userId: Option<Id>, postId: string, text: Option<string>, newId: Id, now: int): (h: Handled)
    ensures userId.None? ==> h == Handled(db, NotSent)
    ensures userId.Some? && postId == "" ==> h == Handled(db, NotSent)
    ensures userId.Some? && postId != "" ==> h == CreateComment(db, userId, postId, text, newId, now)
  {
    if userId.None? then Handled(db, NotSent)
    else if postId == "" then Handled(db, NotSent)
    else if !Given(text) then Handled(db, Fail(404, "comment is required"))
    else CreateAfterGuards(db, userId.value, postId, text.value, newId, now)
  }

  /** `createComment` as evidently intended: every guard answers. Checks, in
      order, the requester, the post id, the text, the post; on success the
      new comment belongs to the post and the requester and its id ends the
      post's `comments`. */
  function CreateComment(db: Db, userId: Option<Id>, postId: string, text: Option<string>, newId: Id, now: int): (h: Handled)
    ensures h.reply.Sent?
    ensures userId.None? ==> h == Handled(db, Fail(404, "user id not found"))
    ensures userId.Some? && postId == "" ==> h == Handled(db, Fail(404, "postId not found"))
    ensures userId.Some? && postId != "" && !Given(text) ==> h == Handled(db, Fail(404, "comment is required"))
    ensures userId.Some? && Given(text) && postId != "" && !IsObjectIdText(postId) ==> h == Handled(db, InternalError())
    ensures userId.Some? && Given(text) && Cast(postId).Some? && Cast(postId).value !in db.posts ==>
              h == Handled(db, Fail(404, "post not found"))
    ensures h.db.users == db.users
    ensures !CreateSucceeds(db, userId, postId, text, newId) ==> h.db == db
    ensures CreateSucceeds(db, userId, postId, text, newId) ==>
              var pid := Cast(postId).value;
              var c := Comment(pid, text.value, userId.value, now, now);
              && h.reply == Ok(201, CommentData(newId, c), "comment created successfully")
              && h.db.comments == db.comments[newId := c]
              && h.db.posts == db.posts[pid := db.posts[pid].(comments := db.posts[pid].comments + [newId], updatedAt := now)]
  {
    if userId.None? then Handled(db, Fail(404, "user id not found"))
    else if postId == "" then Handled(db, Fail(404, "postId not found"))
    else if !Given(text) then Handled(db, Fail(404, "comment is required"))
    else CreateAfterGuards(db, userId.value, postId, text.value, newId, now)
  }

  /** The two versions differ exactly on the two early guards: there the
      code as written leaves the request unanswered. */
  lemma CreateCommentLeavesRequestOpen(db: Db, postId: string, text: Option<string>, newId: Id, now: int)
    ensures CreateCommentAsWritten(db, None, postId, text, newId, now).reply == NotSent
    ensures CreateComment(db, None, postId, text, newId, now).reply == Fail(404, "user id not found")
  {
  }

  /** `getCommentsByPostId`: the comments whose `post` is the given post.
      The post itself is not looked up, so an unknown post yields an empty
      list. */
  function GetCommentsByPostId(db: Db, postId: string): (r: Reply)
    ensures !IsObjectIdText(postId) ==> r == InternalError()
    ensures IsObjectIdText(postId) ==>
              && r.Sent? && r.response.status == 200
              && r.response.body.ApiResponse?
              && r.response.body.message == "comments fetched successfully"
              && r.response.body.data.CommentsData?
              && var listed := r.response.body.data.comments;
                 && (forall k :: k in listed <==> k in db.comments && db.comments[k].post == Cast(postId).value)
                 && (forall k :: k in listed ==> listed[k] == db.comments[k])
  {
    match Cast(postId)
    case None => InternalError()
    case Some(pid) =>
      var listed := map k | k in db.comments && db.comments[k].post == pid :: db.comments[k];
      Ok(200, CommentsData(listed), "comments fetched successfully")
  }

  /** The comments a successful listing shows. */
  function Listed(db: Db, postId: string): map<Id, Comment>
    requires IsObjectIdText(postId)
  {
    GetCommentsByPostId(db, postId).response.body.data.comments
  }

  /** A created comment is listed under its post, next to what was listed
      before. */
  lemma CreatedCommentIsListed(db: Db, userId: Option<Id>, postId: string, text: Option<string>, newId: Id, now: int)
    requires CreateSucceeds(db, userId, postId, text, newId)
    ensures var h := CreateComment(db, userId, postId, text, newId, now);
            Listed(h.db, postId) == Listed(db, postId)[newId := h.db.comments[newId]]
  {
  }

  /** True when every guard of comment deletion before authorization passes. */
  predicate DeleteReachesAuthorization(db: Db, userId: Option<Id>, postId: string, commentId: string) {
    && userId.Some? && commentId != ""
    && Cast(postId).Some? && Cast(postId).value in db.posts
    && Cast(commentId).Some? && Cast(commentId).value in db.comments
    && db.comments[Cast(commentId).value].post == Cast(postId).value
  }

  /** The requester owns the post or wrote the comment. */
  predicate MayDelete(post: Post, comment: Comment, u: Id) {
    post.owner == u || comment.commentedBy == u
  }

  /** `deleteComment`: checks, in order, the requester, the comment id, the
      post, the comment, that the comment belongs to the post, and that the
      requester owns the post or wrote the comment; then removes the comment
      and `$pull`s its id from the post. */
  function DeleteComment(db: Db, userId: Option<Id>, postId: string, commentId: string, now: int): (h: Handled)
    ensures userId.None? ==> h == Handled(db, Fail(404, "user id not found"))
    ensures userId.Some? && commentId == "" ==> h == Handled(db, Fail(404, "comment id not found"))
    ensures userId.Some? && commentId != "" && !IsObjectIdText(postId) ==> h == Handled(db, InternalError())
    ensures userId.Some? && commentId != "" && Cast(postId).Some? && Cast(postId).value !in db.posts ==>
              h == Handled(db, Fail(404, "post not found"))
    ensures userId.Some? && commentId != "" && Cast(postId).Some? && Cast(postId).value in db.posts ==>
              && (!IsObjectIdText(commentId) ==> h == Handled(db, InternalError()))
              && (Cast(commentId).Some? && Cast(commentId).value !in db.comments ==>
                    h == Handled(db, Fail(404, "comment not found")))
              && (Cast(commentId).Some? && Cast(commentId).value in db.comments &&
                  db.comments[Cast(commentId).value].post != Cast(postId).value ==>
                    h == Handled(db, Fail(400, "comment does not belong to this post")))
    ensures DeleteReachesAuthorization(db, userId, postId, commentId) ==>
              var pid, cid := Cast(postId).value, Cast(commentId).value;
              if MayDelete(db.posts[pid], db.comments[cid], userId.value) then
                && h.reply == Ok(200, NoData, "comment deleted successfully")
                && h.db.users == db.users
                && h.db.comments == db.comments - {cid}
                && h.db.posts == db.posts[pid := db.posts[pid].(comments := Pull(db.posts[pid].comments, cid), updatedAt := now)]
              else
                h == Handled(db, Fail(401, "you are not authorized to perform this action"))
  {
    if userId.None? then Handled(db, Fail(404, "user id not found"))
    else if commentId == "" then Handled(db, Fail(404, "comment id not found"))
    else
      match Cast(postId)
      case None => Handled(db, InternalError())
      case Some(pid) =>
        if pid !in db.posts then Handled(db, Fail(404, "post not found"))
        else
          match Cast(commentId)
          case None => Handled(db, InternalError())
          case Some(cid) =>
            if cid !in db.comments then Handled(db, Fail(404, "comment not found"))
            else
              var post, comment := db.posts[pid], db.comments[cid];
              if comment.post != pid then Handled(db, Fail(400, "comment does not belong to this post"))
              else if !MayDelete(post, comment, userId.value) then
                Handled(db, Fail(401, "you are not authorized to perform this action"))
              else
                var updated := post.(comments := Pull(post.comments, cid), updatedAt := now);
                Handled(Db(db.users, db.posts[pid := updated], db.comments - {cid}),
                        Ok(200, NoData, "comment deleted successfully"))
  }

  /** A deletion that passes the earlier guards succeeds if and only if the
      requester owns the post or wrote the comment, and a refused deletion
      changes nothing. */
  lemma DeleteAuthorizedIff(db: Db, userId: Option<Id>, postId: string, commentId: string, now: int)
    requires DeleteReachesAuthorization(db, userId, postId, commentId)
    ensures var h := DeleteComment(db, userId, postId, commentId, now);
            var post, comment := db.posts[Cast(postId).value], db.comments[Cast(commentId).value];
            && (h.reply == Ok(200, NoData, "comment deleted successfully") <==>
                  post.owner == userId.value || comment.commentedBy == userId.value)
            && (h.db != db <==> post.owner == userId.value || comment.commentedBy == userId.value)
  {
  }

  /** A deleted comment disappears from its post's listing. */
  lemma DeletedCommentIsNotListed(db: Db, userId: Option<Id>, postId: string, commentId: string, now: int)
    requires DeleteReachesAuthorization(db, userId, postId, commentId)
    requires MayDelete(db.posts[Cast(postId).value], db.comments[Cast(commentId).value], userId.value)
    ensures var h := DeleteComment(db, userId, postId, commentId, now);
            Listed(h.db, postId) == Listed(db, postId) - {Cast(commentId).value}
  {
  }

  /** Creating a comment and then deleting it as its author restores the
      comment store and the post's `comments` exactly; only the post's
      `updatedAt` moves. */
  lemma CreateThenDeleteRestores(db: Db, userId: Option<Id>, postId: string, text: Option<string>, newId: Id, now1: int, now2: int)
    requires CreateSucceeds(db, userId, postId, text, newId)
    requires IsCanonical(newId)
    requires newId !in db.posts[Cast(postId).value].comments
    ensures var pid := Cast(postId).value;
            var created := CreateComment(db, userId, postId, text, newId, now1).db;
            var h := DeleteComment(created, userId, postId, newId, now2);
            && h.reply == Ok(200, NoData, "comment deleted successfully")
            && h.db.users == db.users
            && h.db.comments == db.comments
            && h.db.posts == db.posts[pid := db.posts[pid].(updatedAt := now2)]
  {
    var pid := Cast(postId).value;
    var created := CreateComment(db, userId, postId, text, newId, now1).db;
    CastCanonical(newId);
    assert newId != "";
    assert DeleteReachesAuthorization(created, userId, postId, newId);
    var xs := db.posts[pid].comments;
    PullUndoesAddToSet(xs, newId);
    assert AddToSet(xs, newId) == xs + [newId];
    assert created.comments - {newId} == db.comments;
  }
}
