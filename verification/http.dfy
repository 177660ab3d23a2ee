/**
  What a handler does with the HTTP response. A handler either sends one
  response or, in one faulty branch, returns without sending anything.
  Successful bodies are the `ApiResponse` envelope `{statusCode, data,
  message}`; failures are `{success: false, message, errors}`, whose
  `errors` array is not modelled.
 */
module Http {
  import opened Wrappers
  import opened Ids
  import opened Store
  import opened Views

  datatype Data =
    | NoData
    | LikedUsersData(likedUsers: map<Id, UserSummary>)
    | CommentData(commentId: Id, comment: Comment)
    | CommentsData(comments: map<Id, Comment>)
    | RegisteredData(user: PublicUser, accessToken: string, refreshToken: string)
    | PostData(postId: Id, post: Post)
    | FeedData(feed: seq<FeedPost>)

  datatype Body =
    | ApiResponse(statusCode: int, data: Data, message: string)
    | ApiFailure(message: string)

  datatype Cookie = Cookie(name: string, value: string)

  datatype Response = Response(status: int, body: Body, cookies: seq<Cookie>)

  datatype Reply = Sent(response: Response) | NotSent

  /** The store after a handler ran, and what it answered. */
  datatype Handled = Handled(db: Db, reply: Reply)

  /** A request field counts as given when it is present and not empty
      (the handlers reject a field that is missing or empty). */
  predicate Given(field: Option<string>) {
    field.Some? && field.value != ""
  }

  function Ok(status: int, data: Data, message: string): Reply {
    Sent(Response(status, ApiResponse(status, data, message), []))
  }

  /** The reply to a thrown `ApiError`: its status code and message. */
  function Fail(status: int, message: string): Reply {
    Sent(Response(status, ApiFailure(message), []))
  }

  /** The reply to anything thrown that is not an `ApiError`. */
  function InternalError(): Reply {
    Fail(500, "Internal Server Error")
  }
}
