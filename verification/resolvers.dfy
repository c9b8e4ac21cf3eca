/**
 * The GraphQL resolvers: registration and login, and the authenticated creation and
 * listing of posts. They read `req.isAuth` / `req.userId` as left by the middleware,
 * check fields one by one collecting every complaint, and emit no socket events.
 */
module Resolvers {
  import opened Wrappers
  import opened Codec
  import opened Domain
  import opened Listing
  import opened Middleware

  /** The secret GraphQL login signs with; it is the one the middleware verifies with. */
  const Secret: string := "somesupersecretsecret"

  /** `validator.isEmpty(v) || !validator.isLength(v, { min: 5 })`. */
  predicate TooShort(v: string)
  {
    |v| == 0 || !(|v| >= 5)
  }

  /** The complaints `createUser` collects, in the order it pushes them. */
  function UserInputErrors(x: Externals, email: string, password: string): (errors: seq<FieldError>)
    ensures InvalidEmail in errors <==> !x.isEmail(email)
    ensures PasswordTooShort in errors <==> |password| < 5
    ensures forall e :: e in errors ==> e == InvalidEmail || e == PasswordTooShort
    ensures |errors| <= 2 && (|errors| == 2 ==> errors == [InvalidEmail, PasswordTooShort])
  {
    (if !x.isEmail(email) then [InvalidEmail] else [])
    + (if TooShort(password) then [PasswordTooShort] else [])
  }

  /** The complaints `createPost` collects, in the order it pushes them. */
  function PostInputErrors(title: string, content: string): (errors: seq<FieldError>)
    ensures InvalidTitle in errors <==> |title| < 5
    ensures InvalidContent in errors <==> |content| < 5
    ensures forall e :: e in errors ==> e == InvalidTitle || e == InvalidContent
    ensures |errors| <= 2 && (|errors| == 2 ==> errors == [InvalidTitle, InvalidContent])
  {
    (if TooShort(title) then [InvalidTitle] else [])
    + (if TooShort(content) then [InvalidContent] else [])
  }

  /**
   * `createUser`: all field complaints are thrown together; then an existing user with
   * the email is refused; otherwise exactly one user is added with the hashed password.
   */
  function CreateUser(s: State, x: Externals, email: string, name: string, password: string): (r: Outcome<Id>)
    ensures r.Failed? ==> r.state == s
    ensures |UserInputErrors(x, email, password)| > 0 ==> r == Failed(s, InvalidInput(UserInputErrors(x, email, password)))
    ensures |UserInputErrors(x, email, password)| == 0 && FindOne(s.users, email).Some? ==> r == Failed(s, UserExists)
    ensures r.Done? <==> x.isEmail(email) && |password| >= 5 && forall u :: u in s.users ==> s.users[u].email != email
    ensures r.Done? ==>
      && r.value == s.nextId
      && r.state.users == s.users[r.value := NewUser(x, email, name, password)]
      && r.state.posts == s.posts && r.state.events == s.events && r.state.cleared == s.cleared
      && r.state.nextId == s.nextId + 1
  {
    var errors := UserInputErrors(x, email, password);
    if |errors| > 0 then Failed(s, InvalidInput(errors))
    else if FindOne(s.users, email).Some? then Failed(s, UserExists)
    else
      var id := s.nextId;
      Done(s.(users := s.users[id := NewUser(x, email, name, password)], nextId := id + 1), id)
  }

  /**
   * `login`: 'User not found.' or 'Password is incorrect.' (both 401); otherwise a token
   * over `{ userId, email }` signed with `Secret`, and the user's id.
   */
  function Login(s: State, x: Externals, email: string, password: string): (r: Result<Session, ErrorKind>)
    ensures FindOne(s.users, email).None? ==> r == Err(UnknownEmail)
    ensures r.Ok? <==> FindOne(s.users, email).Some? && x.compare(password, s.users[FindOne(s.users, email).value].password)
    ensures r.Err? && FindOne(s.users, email).Some? ==> r.error == WrongPassword
    ensures r.Ok? ==>
      && r.value.userId == FindOne(s.users, email).value
      && r.value.userId in s.users
      && s.users[r.value.userId].email == email
      && r.value.token == x.sign(Secret, Claims(email, r.value.userId))
  {
    var found := FindOne(s.users, email);
    if found.None? then Err(UnknownEmail)
    else
      var user := s.users[found.value];
      if !x.compare(password, user.password) then Err(WrongPassword)
      else Ok(Session(x.sign(Secret, Claims(user.email, found.value)), found.value))
  }

  /**
   * `createPost`: 'Not authenticated!' before anything else; then the aggregated field
   * complaints; then 'Invalid User.' when `req.userId` names no user. Otherwise the
   * post is stored under a fresh id with that creator and the id pushed on its list.
   */
  function CreatePost(s: State, auth: AuthContext, title: string, content: string, imageUrl: string, now: nat): (r: Outcome<Id>)
    ensures r.Failed? ==> r.state == s
    ensures !auth.isAuth ==> r == Failed(s, NotAuthenticated)
    ensures auth.isAuth && |PostInputErrors(title, content)| > 0 ==> r == Failed(s, InvalidInput(PostInputErrors(title, content)))
    ensures auth.isAuth && |PostInputErrors(title, content)| == 0 && (auth.userId.None? || auth.userId.value !in s.users) ==>
      r == Failed(s, InvalidUser)
    ensures r.Done? <==> auth.isAuth && |title| >= 5 && |content| >= 5 && auth.userId.Some? && auth.userId.value in s.users
    ensures r.Done? ==>
      var caller := auth.userId.value;
      && r.value == s.nextId && r.state.nextId == s.nextId + 1
      && r.state.posts == s.posts[r.value := Post(title, content, imageUrl, caller, now, now)]
      && r.state.users.Keys == s.users.Keys
      && r.state.users[caller] == s.users[caller].(posts := s.users[caller].posts + [r.value])
      && (forall u :: u in s.users && u != caller ==> r.state.users[u] == s.users[u])
      && r.state.events == s.events && r.state.cleared == s.cleared
  {
    if !auth.isAuth then Failed(s, NotAuthenticated)
    else
      var errors := PostInputErrors(title, content);
      if |errors| > 0 then Failed(s, InvalidInput(errors))
      else if auth.userId.None? || auth.userId.value !in s.users then Failed(s, InvalidUser)
      else
        var caller := auth.userId.value;
        var user := s.users[caller];
        var id := s.nextId;
        Done(s.(posts := s.posts[id := Post(title, content, imageUrl, caller, now, now)],
                users := s.users[caller := user.(posts := user.posts + [id])],
                nextId := id + 1), id)
  }

  /** `{ totalPosts, posts }` of the `posts` query. */
  datatype PostList = PostList(totalPosts: nat, posts: seq<Id>)

  /** `posts`: 'Not authenticated!', or every stored post newest first, unpaged, with their count. */
  function Posts(s: State, auth: AuthContext): (r: Result<PostList, ErrorKind>)
    ensures r.Err? <==> !auth.isAuth
    ensures r.Err? ==> r.error == NotAuthenticated
    ensures r.Ok? ==> r.value.totalPosts == |s.posts| && IsListing(s.posts, r.value.posts)
  {
    if !auth.isAuth then Err(NotAuthenticated)
    else Ok(PostList(|s.posts|, All(s.posts)))
  }
}
