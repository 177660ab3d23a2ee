/**
  The shapes the handlers hand back to clients. Each view is a projection of
  a stored record; the fields a view leaves out (password hashes, refresh
  tokens) cannot appear in a response because the view type has no place
  for them.
 */
module Views {
  import opened Wrappers
  import opened Ids
  import opened Store

  /** `{_id, username, profileImage}`: how likers and comment authors are shown. */
  datatype UserSummary = UserSummary(id: Id, username: string, profileImage: Option<string>)

  /** A user without `password` and `refreshToken` (and without `__v`). */
  datatype PublicUser = PublicUser(
    id: Id,
    username: string,
    email: string,
    bio: Option<string>,
    profileImage: Option<string>,
    posts: seq<Id>,
    createdAt: int,
    updatedAt: int)

  /** A user without `password`, `refreshToken` and `posts`: the identity the
      access-token middleware attaches to a request. */
  datatype SessionUser = SessionUser(
    id: Id,
    username: string,
    email: string,
    bio: Option<string>,
    profileImage: Option<string>,
    createdAt: int,
    updatedAt: int)

  /** A comment as the home feed shows it; `commentedBy` is `None` when the
      author no longer exists (the pipeline then yields an empty object). */
  datatype FeedComment = FeedComment(
    id: Id,
    comment: string,
    createdAt: int,
    commentedBy: Option<UserSummary>)

  /** A post as the home feed shows it; `owner` is `None` when the owner no
      longer exists (the unwind keeps the post and drops the field). */
  datatype FeedPost = FeedPost(
    id: Id,
    content: string,
    image: Option<string>,
    owner: Option<PublicUser>,
    comments: seq<FeedComment>,
    commentsCount: nat,
    likes: Option<seq<Id>>,
    createdAt: int,
    updatedAt: int)

  function Summary(id: Id, u: User): UserSummary {
    UserSummary(id, u.username, u.profileImage)
  }

  function PublicView(id: Id, u: User): PublicUser {
    PublicUser(id, u.username, u.email, u.bio, u.profileImage, u.posts, u.createdAt, u.updatedAt)
  }

  function SessionView(id: Id, u: User): SessionUser {
    SessionUser(id, u.username, u.email, u.bio, u.profileImage, u.createdAt, u.updatedAt)
  }
}
