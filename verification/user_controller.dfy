/**
  User registration. Password hashing and token signing are foreign
  cryptography and enter as opaque functions; the profile-image upload
  enters as the URL it produced, if any.
 */
module UserController {
  import opened Wrappers
  import opened Ids
  import opened Store
  import opened Views
  import opened Http

  /** bcrypt hashing and the two JWT signers (secrets and expiries baked in). */
  datatype Crypto = Crypto(
    hash: string -> string,
    signAccess: (Id, string, string) -> string,   // payload {_id, username, email}
    signRefresh: Id -> string)                    // payload {_id}

  /** The ids of the users that share the username or the email: what the
      handler's either-or lookup matches. */
  function MatchingUsers(users: map<Id, User>, username: string, email: string): set<Id> {
    set k | k in users && (users[k].username == username || users[k].email == email)
  }

  /** No two users share a username or an email. */
  predicate UniqueCredentials(users: map<Id, User>) {
    forall a, b :: a in users && b in users && a != b ==>
      users[a].username != users[b].username && users[a].email != users[b].email
  }

  /** The four field checks, in the order the handler makes them. */
  predicate FieldsValid(username: Option<string>, email: Option<string>, password: Option<string>) {
    Given(username) && Given(email) && '@' in email.value && Given(password)
  }

  predicate RegisterSucceeds(db: Db, username: Option<string>, email: Option<string>, password: Option<string>, newId: Id) {
    && FieldsValid(username, email, password)
    && MatchingUsers(db.users, username.value, email.value) == {}
    && newId !in db.users
  }

  /** Inserting a user that clashes with nobody makes the `$or` query match
      that user and no other. */
  lemma LookupFindsCreated(users: map<Id, User>, username: string, email: string, newId: Id, created: User)
    requires MatchingUsers(users, username, email) == {}
    requires newId !in users
    requires created.username == username
    ensures MatchingUsers(users[newId := created], username, email) == {newId}
  {
  }

  /** `registerUser`: validates username, email (present, then containing
      "@"), and password, in that order; refuses a username or email already
      taken; creates the user with the hashed password and, when the upload
      produced a URL, the profile image; re-reads it, stores a fresh refresh
      token on it, and answers 201 with the user minus password and refresh
      token, both tokens in the body and as cookies. */
  function RegisterUser(
    db: Db, username: Option<string>, email: Option<string>, password: Option<string>,
    profileImageUrl: Option<string>, newId: Id, now: int, crypto: Crypto): (h: Handled)
    ensures !Given(username) ==> h == Handled(db, Fail(400, "username is required"))
    ensures Given(username) && !Given(email) ==> h == Handled(db, Fail(400, "email is required"))
    ensures Given(username) && Given(email) && '@' !in email.value ==> h == Handled(db, Fail(400, "invalid email"))
    ensures Given(username) && Given(email) && '@' in email.value && !Given(password) ==>
              h == Handled(db, Fail(400, "passowrd is required"))
    ensures FieldsValid(username, email, password) && MatchingUsers(db.users, username.value, email.value) != {} ==>
              h == Handled(db, Fail(409, "User with this email or username already exists."))
    ensures !RegisterSucceeds(db, username, email, password, newId) ==> h.db == db && h.reply.Sent? && h.reply.response.status != 201
    ensures h.db.posts == db.posts && h.db.comments == db.comments
    ensures RegisterSucceeds(db, username, email, password, newId) ==>
              && h.db.users.Keys == db.users.Keys + {newId}
              && (forall k :: k in db.users ==> h.db.users[k] == db.users[k])
              && var u := h.db.users[newId];
                 var accessToken := crypto.signAccess(newId, username.value, email.value);
                 var refreshToken := crypto.signRefresh(newId);
                 && u.username == username.value
                 && u.email == email.value
                 && u.password == crypto.hash(password.value)
                 && u.profileImage == (if Given(profileImageUrl) then profileImageUrl else None)
                 && u.bio == None && u.posts == []
                 && u.refreshToken == Some(refreshToken)
                 && h.reply == Sent(Response(
                      201,
                      ApiResponse(201, RegisteredData(PublicView(newId, u), accessToken, refreshToken), "User registered successfully"),
                      [Cookie("accessToken", accessToken), Cookie("refreshToken", refreshToken)]))
  {
    if !Given(username) then Handled(db, Fail(400, "username is required"))
    else if !Given(email) then Handled(db, Fail(400, "email is required"))
    else if '@' !in email.value then Handled(db, Fail(400, "invalid email"))
    else if !Given(password) then Handled(db, Fail(400, "passowrd is required"))
    else if MatchingUsers(db.users, username.value, email.value) != {} then
      Handled(db, Fail(409, "User with this email or username already exists."))
    else if newId in db.users then Handled(db, InternalError())
    else
      var image := if Given(profileImageUrl) then profileImageUrl else None;
      var created := User(username.value, email.value, crypto.hash(password.value), None, image, [], None, now, now);
      var users := db.users[newId := created];
      LookupFindsCreated(db.users, username.value, email.value, newId, created);
      if MatchingUsers(users, username.value, email.value) != {newId} then
        Handled(db.(users := users), Fail(500, "Something went wrong while creating the user"))
      else
        var accessToken := crypto.signAccess(newId, username.value, email.value);
        var refreshToken := crypto.signRefresh(newId);
        var saved := created.(refreshToken := Some(refreshToken), updatedAt := now);
        Handled(
          db.(users := db.users[newId := saved]),
          Sent(Response(
            201,
            ApiResponse(201, RegisteredData(PublicView(newId, saved), accessToken, refreshToken), "User registered successfully"),
            [Cookie("accessToken", accessToken), Cookie("refreshToken", refreshToken)])))
  }

  /** Registration keeps usernames and emails unique. */
  lemma RegisterPreservesUniqueCredentials(
    db: Db, username: Option<string>, email: Option<string>, password: Option<string>,
    profileImageUrl: Option<string>, newId: Id, now: int, crypto: Crypto)
    requires UniqueCredentials(db.users)
    ensures UniqueCredentials(RegisterUser(db, username, email, password, profileImageUrl, newId, now, crypto).db.users)
  {
  }
}
