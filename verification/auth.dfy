/**
 * The REST authentication controller: sign-up, login, and reading and writing the
 * caller's status. The caller is the `req.userId` the REST routes establish.
 */
module AuthController {
  import opened Wrappers
  import opened Codec
  import opened Domain

  /** The secret REST login signs with. It is not the one the middleware verifies with. */
  const Secret: string := "sectret"

  /**
   * `signUp`: a non-empty validation result is thrown with the result as its data.
   * Otherwise exactly one user is added under a fresh id, with the hashed password.
   * No duplicate check happens here; only the route's validators could reject one.
   */
  function SignUp(s: State, x: Externals, problems: seq<string>, email: string, name: string, password: string): (r: Outcome<Id>)
    ensures |problems| > 0 ==> r == Failed(s, ValidationFailed(problems))
    ensures r.Done? <==> |problems| == 0
    ensures r.Done? ==>
      && r.value == s.nextId
      && r.state.users == s.users[r.value := NewUser(x, email, name, password)]
      && r.state.posts == s.posts && r.state.events == s.events && r.state.cleared == s.cleared
      && r.state.nextId == s.nextId + 1
  {
    if |problems| > 0 then Failed(s, ValidationFailed(problems))
    else
      var id := s.nextId;
      Done(s.(users := s.users[id := NewUser(x, email, name, password)], nextId := id + 1), id)
  }

  /**
   * `login`: 401 for an unknown email, 401 for a password that does not match the
   * stored hash; otherwise a token over `{ email, userId }` signed with `Secret`.
   */
  function Login(s: State, x: Externals, email: string, password: string): (r: Result<Session, ErrorKind>)
    ensures FindOne(s.users, email).None? ==> r == Err(UnknownEmail)
    ensures r.Ok? <==> FindOne(s.users, email).Some? && x.compare(password, s.users[FindOne(s.users, email).value].password)
    ensures r.Err? && FindOne(s.users, email).Some? ==> r.error == WrongPassword
    ensures r.Ok? ==>
      && r.value.userId == FindOne(s.users, email).value
      && r.value.userId in s.users
      && s.users[r.value.userId].email == email
      && r.value.token == x.sign(Secret, Claims(email, r.value.userId))
    ensures r.Err? ==> r.error.Code() == 401
  {
    var found := FindOne(s.users, email);
    if found.None? then Err(UnknownEmail)
    else
      var user := s.users[found.value];
      if !x.compare(password, user.password) then Err(WrongPassword)
      else Ok(Session(x.sign(Secret, Claims(user.email, found.value)), found.value))
  }

  /** `getUserStatus`: the caller's status, or 'User not found'. */
  function GetUserStatus(s: State, caller: Id): (r: Result<string, ErrorKind>)
    ensures r.Err? <==> caller !in s.users
    ensures r.Err? ==> r.error == UserNotFound
    ensures r.Ok? ==> r.value == s.users[caller].status
  {
    if caller !in s.users then Err(UserNotFound) else Ok(s.users[caller].status)
  }

  /** `setUserStatus`: 'User not found', or the caller's status replaced and nothing else touched. */
  function SetUserStatus(s: State, caller: Id, status: string): (r: Outcome<()>)
    ensures caller !in s.users ==> r == Failed(s, UserNotFound)
    ensures r.Done? <==> caller in s.users
    ensures r.Done? ==>
      && r.state.users.Keys == s.users.Keys
      && r.state.users[caller] == s.users[caller].(status := status)
      && (forall u :: u in s.users && u != caller ==> r.state.users[u] == s.users[u])
      && r.state.posts == s.posts && r.state.nextId == s.nextId
      && r.state.events == s.events && r.state.cleared == s.cleared
  {
    if caller !in s.users then Failed(s, UserNotFound)
    else
      var user := s.users[caller];
      Done(s.(users := s.users[caller := user.(status := status)]), ())
  }

  /** `getUserStatus` reads back what `setUserStatus` wrote. */
  lemma LemmaStatusRoundTrip(s: State, caller: Id, status: string)
    requires caller in s.users
    ensures var r := SetUserStatus(s, caller, status);
      r.Done? && GetUserStatus(r.state, caller) == Ok(status)
  {
  }
}
