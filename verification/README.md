# Social-media backend: request handlers as pure functions

This project models the guard-and-mutate logic of the request handlers of a
small social-media REST backend (users, posts, comments, likes) that stores
its data in a document database. The database becomes an immutable value
`Store.Db`: three maps from document id to `User`, `Post` and `Comment`
records. Each mutating handler becomes a function from the store and the
request's inputs to `Http.Handled`, the new store plus what was answered.
Read-only handlers return only the answer (`Http.Reply`). The middleware
returns `AuthMiddleware.Gate`, which is either "call `next()` with this user" or
"answer with this response".

Modules follow the source files:

- `Ids`: document ids. Path parameters are cast to ObjectIds. The cast accepts
  24 hexadecimal digits of either case, and any other text is a cast error.
- `Store`: the records and the store, plus MongoDB's `$pull` and `$addToSet` on arrays.
- `Views`: the projections sent to clients. Excluded fields (password hash,
  refresh token) have no place in these types.
- `Http`: the response envelope, the reply to a thrown `ApiError`, and the
  generic 500 reply.
- `LikeController`, `CommentController`, `UserController`, `AuthMiddleware`,
  `PostController`: one module per handler file.

Conventions that apply to every handler:

- An error the handler throws as `ApiError` is answered with the error's own
  status and message.
- Anything else thrown is answered 500 "Internal Server Error". This covers a
  Mongoose cast error on a malformed id, a schema validation error, a
  duplicate `_id`, and a failed `jwt.verify`.
- Every update bumps the touched document's `updatedAt` to the caller-supplied
  `now`, as Mongoose timestamps do.
- Fresh document ids are inputs. An id already in use is a duplicate-key
  error, answered 500.
- Outside effects are inputs:
  - bcrypt hashing and JWT signing are the opaque functions of `UserController.Crypto`;
  - `jwt.verify` is an opaque function returning `AuthMiddleware.Verified`;
  - a Cloudinary upload is the URL it produced, if any.

## Model

| member | source | states |
|---|---|---|
| `Ids.Cast` | backend/src/controllers/like.controller.ts:76-79 | Request text becomes a document id exactly when it is 24 hex digits. The id is that text with each upper-case digit written in lower case, so it is always in canonical form. |
| `Ids.CastIgnoresCase` | backend/src/controllers/like.controller.ts:76-79 | Two castable texts name the same document exactly when they agree digit by digit, ignoring case. |
| `Ids.CastCanonical` | backend/src/controllers/comment.controller.ts:113-116 | The canonical text of a stored id casts back to the same id, so a stored id can be used to find its document again. |
| `Store.Pull` | backend/src/controllers/like.controller.ts:29-31 | `$pull` removes every occurrence of the value and keeps every other element. It never lengthens the array or creates duplicates. |
| `Store.AddToSet` | backend/src/controllers/like.controller.ts:36-38 | `$addToSet` leaves the value present afterwards and adds nothing else. An array that already holds the value is unchanged. An array without it gains it exactly once. It keeps a duplicate-free array duplicate-free. |
| `Store.PullUndoesAddToSet` | backend/src/controllers/like.controller.ts:29-38 | `$addToSet` of a new value followed by `$pull` of that value restores the array exactly, order included. |
| `Store.PullRemovesOne` | backend/src/controllers/comment.controller.ts:132-134 | On a duplicate-free array that holds the value, `$pull` shortens the array by exactly one. |
| `LikeController.TogglePostLike` | backend/src/controllers/like.controller.ts:7-42 | Guards in order: missing user 404 "user id not found", then empty post id 404 "post id not found", then malformed id 500, then unknown post 404 "post not found". Each guard leaves the store unchanged. A liked post gets `$pull` and 201 "you unliked the post". An unliked post gets the user appended and 201 "you liked the post". Only that post's `likes` and `updatedAt` change. |
| `LikeController.ToggleFlipsMembership` | backend/src/controllers/like.controller.ts:26-42 | A toggle flips the requester's membership in `likes` and no other user's. |
| `LikeController.ToggleKeepsLikesDuplicateFree` | backend/src/controllers/like.controller.ts:36-38 | A toggle never introduces a duplicate like. |
| `LikeController.ToggleTwiceRestoresLikes` | backend/src/controllers/like.controller.ts:26-42 | Two toggles by the same user restore the set of likers and every other record. If the user had not liked the post, the `likes` array comes back exactly. |
| `LikeController.GetUsersWhoLikedPost` | backend/src/controllers/like.controller.ts:62-118 | The post id is checked before the user id. A malformed id gives 500 and an unknown post gives 404 "post not found". Otherwise the reply is 200 with exactly the existing users whose id is in `likes`, each as id, username and profile image. An absent `likes` is read as empty. |
| `LikeController.ListingFollowsToggle` | backend/src/controllers/like.controller.ts:83-107 | After a toggle, the like listing contains the requester exactly when the toggle was a like. |
| `CommentController.CreateCommentAsWritten` | backend/src/controllers/comment.controller.ts:13-19 | A missing user id or an empty post id returns an error value without answering and without changing the store. Otherwise it behaves as `CreateComment`. |
| `CommentController.CreateComment` | backend/src/controllers/comment.controller.ts:7-44 | Every request is answered. Guards in order: user, post id, comment text (404 "comment is required"), malformed id (500), post (404 "post not found"). On success the comment gets `post` = the post and `commentedBy` = the requester, its id is appended to the end of the post's `comments`, and the reply is 201. Nothing else changes. |
| `CommentController.CreateCommentLeavesRequestOpen` | backend/src/controllers/comment.controller.ts:13-15 | A request with no user id gets no response as written. The corrected handler answers it 404. |
| `CommentController.GetCommentsByPostId` | backend/src/controllers/comment.controller.ts:64-74 | A malformed post id gives 500. Otherwise the reply is 200 with exactly the stored comments whose `post` is the given post, unchanged. |
| `CommentController.CreatedCommentIsListed` | backend/src/controllers/comment.controller.ts:31-38 | After a successful creation, the post's listing is the earlier listing plus the new comment. |
| `CommentController.DeleteComment` | backend/src/controllers/comment.controller.ts:94-138 | Guards in order, each with its own message: user (404), comment id (404), post (404), comment (404). A malformed id at either lookup gives 500. A comment of another post gives 400. A requester who neither owns the post nor wrote the comment gets 401 and nothing changes. On success the comment leaves the comment store, its id is pulled from the post's `comments`, and nothing else changes. |
| `CommentController.DeleteAuthorizedIff` | backend/src/controllers/comment.controller.ts:123-128 | Once the earlier guards pass, deletion succeeds and changes the store exactly when the requester owns the post or wrote the comment. |
| `CommentController.DeletedCommentIsNotListed` | backend/src/controllers/comment.controller.ts:130-134 | A deleted comment disappears from its post's listing, and no other comment does. |
| `CommentController.CreateThenDeleteRestores` | backend/src/controllers/comment.controller.ts:31-38 | When the author creates a comment and then deletes it, the comment store and the post's `comments` are restored exactly. Only the post's `updatedAt` differs. |
| `UserController.LookupFindsCreated` | src/controllers/user.controller.ts:63-69 | After a creation that clashed with nobody, the `$or` re-read finds the new user and only it. So the 500 "Something went wrong" branch cannot be taken. |
| `UserController.RegisterUser` | src/controllers/user.controller.ts:7-101 | Checks in order, each answered 400: username, email, "@" in email, password. A clash on username or email gives 409. On failure the store is unchanged. On success exactly one user is added, with the given username and email and the hashed password. It has a profile image only when the upload gave a non-empty URL, and its stored refresh token is the one returned. The reply is 201 with the user minus password and refresh token, and both tokens in the body and as cookies. |
| `UserController.RegisterPreservesUniqueCredentials` | src/controllers/user.controller.ts:36-61 | Registration keeps usernames and emails unique across users. |
| `AuthMiddleware.ReplaceFirst` | backend/src/middlewares/auth.middleware.ts:15 | A header without the pattern is unchanged. |
| `AuthMiddleware.ReplaceFirstAt` | backend/src/middlewares/auth.middleware.ts:15 | Only the first occurrence of the pattern is replaced, wherever it is. |
| `AuthMiddleware.SelectToken` | backend/src/middlewares/auth.middleware.ts:13-15 | A non-empty `accessToken` cookie wins. With no usable cookie and no header there is no token. |
| `AuthMiddleware.BearerHeaderYieldsToken` | backend/src/middlewares/auth.middleware.ts:13-15 | With no cookie, the header `Bearer <t>` yields `<t>`. |
| `AuthMiddleware.HeaderWithoutSchemeIsVerbatim` | backend/src/middlewares/auth.middleware.ts:13-15 | With no cookie, a header without "Bearer " is used verbatim. |
| `AuthMiddleware.VerifyJwtAsWritten` | backend/src/middlewares/auth.middleware.ts:7-51 | An absent or empty token gives 401 "unauthorized request". A token `jwt.verify` throws on gives 500 "Internal Server Error". Otherwise it behaves as `VerifyJwt`. |
| `AuthMiddleware.VerifyJwt` | backend/src/middlewares/auth.middleware.ts:7-45 | `next()` is called, once, exactly when the token verifies and names a stored user. The attached user is that user minus password, refresh token and posts, and no response is sent. An absent or empty token gives 401 "unauthorized request". A token verification rejects, a payload without `_id`, and an `_id` naming no stored user each give 401 "invalid access token". An `_id` that is not ObjectId text gives 500. |
| `AuthMiddleware.ExpiredTokenIsAnsweredAsServerError` | backend/src/middlewares/auth.middleware.ts:21-24 | A rejected token is answered 500 as written and 401 in the corrected version. |
| `AuthMiddleware.RegisteredUserPassesGate` | src/controllers/user.controller.ts:71-89 | The `accessToken` cookie set by a successful registration lets the new user through the middleware (if it verifies to the new id). |
| `PostController.CreatePost` | src/controllers/post.controller.ts:8-40 | An unknown or missing requester gives 404 "user not found" and an empty content gives 500. Neither creates a post. On success the new post is owned by the requester, has no comments and no `likes`, and has an image exactly when the upload produced one. The reply is HTTP 201 with an envelope status of 200. |
| `PostController.ResolvedIds` | src/controllers/post.controller.ts:86-92 | A post's resolved comments are its distinct comment ids that name a stored comment. Dangling ids are dropped. |
| `PostController.FeedEntry` | src/controllers/post.controller.ts:63-151 | A feed post carries the post's fields. Its owner is the user minus password and refresh token, or absent when the user is gone. Its comments are exactly the distinct stored ones, each with only id, text, creation time and an author summary. `commentsCount` equals the number of comments. |
| `PostController.CreatedPostInFeed` | src/controllers/post.controller.ts:25-35 | The feed entry of a post just created carries its content and image, the requester's public profile as owner, no `likes`, and no comments, with `commentsCount` zero. |
| `PostController.CommentsCountIsDistinctStoredComments` | src/controllers/post.controller.ts:141-145 | `commentsCount` is the number of distinct stored comments the post refers to, and zero for a post without comments. |
| `PostController.SortNewestFirst` | src/controllers/post.controller.ts:152-154 | The output is a permutation of the input, ordered by `createdAt` non-increasing. |
| `PostController.CollectEntries` | src/controllers/post.controller.ts:63-151 | Every stored post's feed entry appears exactly once. |
| `PostController.BuildHomeFeed` | src/controllers/post.controller.ts:61-155 | The feed holds every post exactly once, as its feed entry, newest first. |
| `PostController.GetAllPostsForHome` | src/controllers/post.controller.ts:157-161 | The reply is 200 "posts fetched successfully" carrying the home feed. |

## Findings

| source | as written | input that shows it | evidently intended | confidence | as-written member | corrected member |
|---|---|---|---|---|---|---|
| backend/src/controllers/comment.controller.ts:13-19 | `return new ApiError(...)` for a missing user id or post id: the handler returns without sending a response. The defect is latent: backend/src/routes/comment.route.ts:11 runs `verifyJWT` first, which always attaches a user with an `_id`, and the router never matches an empty `:postId` | a comment request whose requester has no `_id`, reaching the handler without the middleware | `throw`, so the catch block answers 404 like every other guard | high, not executed | `CommentController.CreateCommentAsWritten`, `CommentController.CreateCommentLeavesRequestOpen` | `CommentController.CreateComment` |
| backend/src/middlewares/auth.middleware.ts:21-24 | an expired or badly signed token makes `jwt.verify` throw a non-`ApiError`, answered 500 "Internal Server Error" | an expired `accessToken` cookie | an unauthorized request, 401, as for a missing token or an unknown user | medium, not executed | `AuthMiddleware.VerifyJwtAsWritten`, `AuthMiddleware.ExpiredTokenIsAnsweredAsServerError` | `AuthMiddleware.VerifyJwt` |

The other lemmas use the corrected members. The as-written members are
proved to agree with them on every other input.

## Left out

- Login, token refresh, logout, profile updates and follow/unfollow: they are
  not among the handlers of `src/controllers/user.controller.ts`, whose only
  handler is registration, so they are not part of this model.
- Express routing, application bootstrap, the database connection, the
  environment checks and the test controller: framework wiring and process state.
- The frontend forms and pages: UI only, with no logic.
- bcrypt and JWT: foreign cryptography, modelled as opaque functions. Token expiry
  and secrets live inside those functions.
- The Cloudinary upload: a foreign network call. Only the URL it yields is
  an input. `utils/cloudinary` is not part of this model, so what the helper
  returns on failure is not modelled. In `createPost`, a `null` result would
  make `image.url` throw, and that case is not represented.
- `utils/ApiError` and `utils/ApiResponse` are not part of this model. The
  envelope's `success` flag and the `errors` array of failure bodies are not
  represented.
- Logging, cookie options (`httpOnly`, `secure`), and the version key `__v`,
  which no handler reads. The views have no `__v` field, so the projection
  that removes it holds by construction.
- Concurrency: each handler is one atomic step. The source's separate writes
  (for example, creating a comment and then saving the post) could interleave
  with other requests or fail halfway. That is not modelled.
- The order of arrays produced by `$lookup` is not promised by the database.
  The model picks one order (each id's last occurrence in the post's own
  order), and no contract depends on it.
- Ties in `createdAt` are sorted in an unspecified order by the database. The
  model keeps the scan order, and the scan of the post map is itself arbitrary.
- Request fields are modelled as optional strings. Non-string JSON values in
  a request body are not represented. A stored `likes` of `null` is not
  distinguished from an absent field.
- ObjectId casting is modelled for 24-digit hexadecimal text only. Mongoose and
  bson are not part of this model.
- MongoDB does not promise where `$addToSet` puts a new element. The model
  appends it at the end. `Store.PullUndoesAddToSet`, and the "array comes back
  exactly" part of `LikeController.ToggleTwiceRestoresLikes`, rely on that
  choice. Membership and duplicate-freedom do not.
- The like listing's aggregation returns a one-element array
  `[{likedUsers: [...]}]` (backend/src/controllers/like.controller.ts:75-118).
  `LikedUsersData` holds the inner list as a map from user id to summary,
  without the wrapping array and without an order.
- In `registerUser`, `src/models/user.model.ts` declares no `refreshToken`
  path, so Mongoose's strict mode may drop the assignment on save. The model
  follows the handler's evident intent and stores the token.
