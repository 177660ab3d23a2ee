/**
  The document store the handlers read and write: three collections keyed by
  `_id`. A record holds the schema's fields other than `_id` (the key) and
  the version key `__v`, which nothing here reads. Timestamps are abstract
  integers supplied by the caller.
 */
module Store {
  import opened Wrappers
  import opened Ids

  datatype User = User(
    username: string,
    email: string,
    password: string,             // always the bcrypt hash, never the plain text
    bio: Option<string>,
    profileImage: Option<string>,
    posts: seq<Id>,
    refreshToken: Option<string>,
    createdAt: int,
    updatedAt: int)

  /** `likes` is `None` when the document has no such field: the schema used
      by the post-creation handler does not declare one. */
  datatype Post = Post(
    content: string,
    image: Option<string>,
    owner: Id,
    comments: seq<Id>,
    likes: Option<seq<Id>>,
    createdAt: int,
    updatedAt: int)

  datatype Comment = Comment(
    post: Id,
    comment: string,
    commentedBy: Id,
    createdAt: int,
    updatedAt: int)

  datatype Db = Db(users: map<Id, User>, posts: map<Id, Post>, comments: map<Id, Comment>)

  predicate NoDups(xs: seq<Id>) {
    forall i, j :: 0 <= i < j < |xs| ==> xs[i] != xs[j]
  }

  /** MongoDB's `$pull`: every occurrence of `x` leaves the array. */
  function Pull(xs: seq<Id>, x: Id): (r: seq<Id>)
    ensures x !in r
    ensures forall y :: y != x ==> (y in r <==> y in xs)
    ensures |r| <= |xs|
    ensures NoDups(xs) ==> NoDups(r)
  {
    if xs == [] then []
    else if xs[0] == x then Pull(xs[1..], x)
    else
      var rest := Pull(xs[1..], x);
      assert NoDups(xs) ==> NoDups(xs[1..]) && xs[0] !in xs[1..] && xs[0] !in rest;
      [xs[0]] + rest
  }

  /** MongoDB's `$addToSet`: `x` is appended unless already present. */
  function AddToSet(xs: seq<Id>, x: Id): (r: seq<Id>)
    ensures x in r
    ensures forall y :: y in r <==> y in xs || y == x
    ensures x in xs ==> r == xs
    ensures multiset(r) == multiset(xs) + (if x in xs then multiset{} else multiset{x})
    ensures NoDups(xs) ==> NoDups(r)
    ensures |r| <= |xs| + 1
  {
    if x in xs then xs else xs + [x]
  }

  /** Pulling an element that is absent leaves the array as it was. */
  lemma {:induction false} PullAbsent(xs: seq<Id>, x: Id)
    requires x !in xs
    ensures Pull(xs, x) == xs
  {
    if xs != [] {
      PullAbsent(xs[1..], x);
    }
  }

  /** Pulling distributes over concatenation. */
  lemma {:induction false} PullAppend(xs: seq<Id>, ys: seq<Id>, x: Id)
    ensures Pull(xs + ys, x) == Pull(xs, x) + Pull(ys, x)
  {
    if xs == [] {
      assert xs + ys == ys;
    } else {
      assert (xs + ys)[1..] == xs[1..] + ys;
      PullAppend(xs[1..], ys, x);
    }
  }

  /** `$addToSet` followed by `$pull` of a new element restores the array
      exactly, order included. */
  lemma PullUndoesAddToSet(xs: seq<Id>, x: Id)
    requires x !in xs
    ensures Pull(AddToSet(xs, x), x) == xs
  {
    PullAppend(xs, [x], x);
    PullAbsent(xs, x);
    assert Pull([x], x) == [];
  }

  /** A duplicate-free array without `x` has exactly one fewer element after
      `$pull` removes it: a `$pull` removes one entry, not more. */
  lemma {:induction false} PullRemovesOne(xs: seq<Id>, x: Id)
    requires NoDups(xs) && x in xs
    ensures |Pull(xs, x)| == |xs| - 1
  {
    if xs[0] == x {
      assert x !in xs[1..];
      PullAbsent(xs[1..], x);
    } else {
      assert NoDups(xs[1..]);
      PullRemovesOne(xs[1..], x);
    }
  }
}
