/**
 * The shared domain of both API surfaces: the MongoDB collections of users and posts
 * as two immutable maps, the socket.io `posts` channel as an append-only event log,
 * and the images handed to `clearImage` as an append-only log of removed files.
 */
module Domain {
  import opened Wrappers
  import opened Codec

  /** An ObjectId. Fresh ids come from `State.nextId`, which stands for ObjectId uniqueness. */
  type Id = nat

  /** `password` holds the bcrypt hash, never the plaintext. `posts` is in push order. */
  datatype User = User(email: string, name: string, password: string, status: string, posts: seq<Id>)

  /** The user a successful registration stores: the password hashed, the schema's default status, no posts. */
  function NewUser(x: Externals, email: string, name: string, password: string): User
  {
    User(email, name, x.hash(password), x.defaultStatus, [])
  }

  /** `createdAt` / `updatedAt` are the schema timestamps, supplied by the caller as a clock reading. */
  datatype Post = Post(title: string, content: string, imageUrl: string, creator: Id, createdAt: nat, updatedAt: nat)

  /** A message emitted on the `posts` channel: `{ action, post }`. */
  datatype Event =
    | Created(id: Id, post: Post, creatorName: string)
    | Updated(id: Id, post: Post)
    | Deleted(id: Id)

  datatype State = State(
    users: map<Id, User>,
    posts: map<Id, Post>,
    nextId: Id,
    events: seq<Event>,      // everything emitted on the `posts` channel, oldest first
    cleared: seq<string>     // every image path handed to clearImage, oldest first
  )

  /** One message pushed to a GraphQL error's `data` list. */
  datatype FieldError = InvalidEmail | PasswordTooShort | InvalidTitle | InvalidContent

  /** The error a controller or resolver throws, named by its message; `Code` is the code it carries. */
  datatype ErrorKind =
    | ValidationFailed(data: seq<string>) // express-validator's result was not empty
    | InvalidInput(errors: seq<FieldError>) // a resolver's aggregated field errors
    | NoImage                           // 'No image provided.' / 'No file picked.'
    | UserExists                        // 'User exsist already!'
    | NotFound                          // 'Could not find post.'
    | NotAuthorized                     // 'Not authorized.'
    | NotAuthenticated                  // 'Not authenticated!'
    | UnknownEmail                      // no user has the email
    | WrongPassword                     // the password does not match the stored hash
    | InvalidUser                       // 'Invalid User.'
    | UserNotFound                      // 'User not found'
    | Crash                             // a TypeError from dereferencing a missing user
    | StoreFailure                      // the database rejected the query
  {
    function Code(): nat
    {
      match this
      case ValidationFailed(_) => 422
      case InvalidInput(_) => 422
      case NoImage => 422
      case UserExists => 422
      case NotFound => 404
      case NotAuthorized => 403
      case NotAuthenticated => 401
      case UnknownEmail => 401
      case WrongPassword => 401
      case InvalidUser => 401
      case UserNotFound => 404
      case Crash => 500
      case StoreFailure => 500
    }
  }

  /**
   * The result of a mutating operation. A failure still carries a state, because two
   * handlers crash after some of their writes have already happened.
   */
  datatype Outcome<V> = Done(state: State, value: V) | Failed(state: State, error: ErrorKind)

  /** An empty database with nothing emitted. */
  const Init := State(map[], map[], 0, [], [])

  predicate NoDuplicates(xs: seq<Id>)
  {
    forall i, j :: 0 <= i < j < |xs| ==> xs[i] != xs[j]
  }

  /**
   * The ownership invariant: every post's creator is a user whose `posts` lists the
   * post, a user's `posts` lists only posts it created, each at most once; every
   * id in use is below `nextId`.
   */
  ghost predicate Inv(s: State)
  {
    && (forall id :: id in s.users ==> id < s.nextId)
    && (forall id :: id in s.posts ==> id < s.nextId)
    && (forall pid :: pid in s.posts ==> s.posts[pid].creator in s.users && pid in s.users[s.posts[pid].creator].posts)
    && (forall uid, pid :: uid in s.users && pid in s.users[uid].posts ==> pid in s.posts && s.posts[pid].creator == uid)
    && (forall uid :: uid in s.users ==> NoDuplicates(s.users[uid].posts))
  }

  /** Number of occurrences of `x` in `xs`. */
  function Count(xs: seq<Id>, x: Id): (n: nat)
    ensures n <= |xs|
    ensures n == 0 <==> x !in xs
  {
    if xs == [] then 0 else (if xs[0] == x then 1 else 0) + Count(xs[1..], x)
  }

  /** In a list without duplicates an element occurs exactly once. */
  lemma {:induction false} LemmaCountOnce(xs: seq<Id>, x: Id)
    requires NoDuplicates(xs) && x in xs
    ensures Count(xs, x) == 1
    decreases |xs|
  {
    if xs[0] != x {
      LemmaCountOnce(xs[1..], x);
    } else {
      assert x !in xs[1..];
    }
  }

  /** Each post is listed, exactly once, by its creator and by no other user. */
  lemma LemmaOwnedOnlyByCreator(s: State, pid: Id, uid: Id)
    requires Inv(s) && pid in s.posts && uid in s.users
    ensures pid in s.users[uid].posts <==> uid == s.posts[pid].creator
    ensures uid == s.posts[pid].creator ==> Count(s.users[uid].posts, pid) == 1
  {
    if uid == s.posts[pid].creator {
      LemmaCountOnce(s.users[uid].posts, pid);
    }
  }

  /** Every listed id names a stored post, so it lies below `nextId`. */
  lemma LemmaListedBelowNext(s: State)
    requires Inv(s)
    ensures forall u, pid :: u in s.users && pid in s.users[u].posts ==> pid < s.nextId
  {
    forall u, pid | u in s.users && pid in s.users[u].posts ensures pid < s.nextId {
      assert pid in s.posts;
    }
  }

  /** Pushing an id not yet listed keeps a list free of duplicates. */
  lemma LemmaPushFresh(xs: seq<Id>, x: Id)
    requires NoDuplicates(xs) && x !in xs
    ensures NoDuplicates(xs + [x])
  {
  }

  lemma LemmaInitInv()
    ensures Inv(Init)
  {
  }

  /** Mongoose's `array.pull(x)`: every occurrence of `x` removed, the rest in order. */
  function Pull(xs: seq<Id>, x: Id): (r: seq<Id>)
    ensures x !in r
    ensures forall y :: y != x ==> (y in r <==> y in xs)
    ensures forall y :: y != x ==> Count(r, y) == Count(xs, y)
    ensures |r| == |xs| - Count(xs, x)
    ensures NoDuplicates(xs) ==> NoDuplicates(r)
  {
    if xs == [] then []
    else if xs[0] == x then Pull(xs[1..], x)
    else
      var rest := Pull(xs[1..], x);
      assert NoDuplicates(xs) ==> xs[0] !in xs[1..];
      assert ([xs[0]] + rest)[1..] == rest;
      [xs[0]] + rest
  }

  /**
   * Pulling distributes over concatenation; with the one-element case (an element
   * other than `x` stays, `x` goes) this fixes the order of what remains.
   */
  lemma {:induction false} LemmaPullAppend(a: seq<Id>, b: seq<Id>, x: Id)
    ensures Pull(a + b, x) == Pull(a, x) + Pull(b, x)
    decreases |a|
  {
    if a == [] {
      assert a + b == b;
    } else {
      assert (a + b)[0] == a[0];
      assert (a + b)[1..] == a[1..] + b;
      LemmaPullAppend(a[1..], b, x);
    }
  }

  /** Pulling an id that is not listed changes nothing. */
  lemma {:induction false} LemmaPullAbsent(xs: seq<Id>, x: Id)
    requires x !in xs
    ensures Pull(xs, x) == xs
    decreases |xs|
  {
    if xs != [] {
      LemmaPullAbsent(xs[1..], x);
      assert [xs[0]] + xs[1..] == xs;
    }
  }

  predicate IsLeast(ids: set<Id>, m: Id)
  {
    m in ids && forall j :: j in ids ==> m <= j
  }

  lemma {:induction false} LemmaLeastExists(ids: set<Id>)
    requires ids != {}
    ensures exists m :: IsLeast(ids, m)
    decreases ids
  {
    var x :| x in ids;
    if ids - {x} != {} {
      LemmaLeastExists(ids - {x});
      var m :| IsLeast(ids - {x}, m);
      forall j | j in ids ensures j == x || j in ids - {x} { }
      if x < m {
        assert IsLeast(ids, x);
      } else {
        assert IsLeast(ids, m);
      }
    } else {
      assert ids == {x};
      assert IsLeast(ids, x);
    }
  }

  /**
   * `User.findOne({ email })`: the user with that email, or None. When several users
   * share the email the one with the least id (the oldest) is chosen.
   */
  function FindOne(users: map<Id, User>, email: string): (r: Option<Id>)
    ensures r.None? <==> forall id :: id in users ==> users[id].email != email
    ensures r.Some? ==> r.value in users && users[r.value].email == email
    ensures r.Some? ==> forall id :: id in users && users[id].email == email ==> r.value <= id
  {
    var matches := set id | id in users && users[id].email == email;
    assert forall id :: id in users && users[id].email == email ==> id in matches;
    if matches == {} then None
    else
      LemmaLeastExists(matches);
      var m :| m in matches && IsLeast(matches, m);
      Some(m)
  }

  /** When emails are unique, `FindOne` finds exactly the user holding the email. */
  lemma LemmaFindOneUnique(users: map<Id, User>, id: Id)
    requires id in users
    requires forall a, b :: a in users && b in users && users[a].email == users[b].email ==> a == b
    ensures FindOne(users, users[id].email) == Some(id)
  {
  }
}
