/**
 * The ownership invariant `Inv` across both surfaces: which operations keep it, the
 * one crash path that breaks it, and the register / login / authenticate / post
 * sequences that tie the surfaces together.
 */
module Ownership {
  import opened Wrappers
  import opened Codec
  import opened Domain
  import Feed
  import AuthController
  import Resolvers
  import Middleware

  /** A post stored under a fresh id and pushed on its existing creator's list keeps the invariant. */
  lemma LemmaAddPostInv(s: State, p: Post, t: State)
    requires Inv(s) && p.creator in s.users
    requires t.posts == s.posts[s.nextId := p] && t.nextId == s.nextId + 1
    requires t.users == s.users[p.creator := s.users[p.creator].(posts := s.users[p.creator].posts + [s.nextId])]
    ensures Inv(t)
    ensures Count(t.users[p.creator].posts, s.nextId) == 1
    ensures forall u :: u in t.users && u != p.creator ==> s.nextId !in t.users[u].posts
  {
    var id := s.nextId;
    var c := p.creator;
    LemmaListedBelowNext(s);
    LemmaPushFresh(s.users[c].posts, id);
    forall uid, pid | uid in t.users && pid in t.users[uid].posts ensures pid in t.posts && t.posts[pid].creator == uid {
      if uid == c && pid == id {
      } else {
        assert pid in s.users[uid].posts;
      }
    }
    LemmaCountOnce(t.users[c].posts, id);
  }

  /** REST `createPost` by a caller with a user record keeps the invariant; its post is listed once, by the caller only. */
  lemma LemmaFeedCreatePostInv(s: State, caller: Id, problems: seq<string>, file: Option<string>, title: string, content: string, now: nat)
    requires Inv(s) && caller in s.users
    ensures var r := Feed.CreatePost(s, caller, problems, file, title, content, now);
      && Inv(r.state)
      && (r.Done? ==> r.value !in s.posts && Count(r.state.users[caller].posts, r.value) == 1
                      && forall u :: u in r.state.users && u != caller ==> r.value !in r.state.users[u].posts)
  {
    var r := Feed.CreatePost(s, caller, problems, file, title, content, now);
    if r.Done? {
      LemmaAddPostInv(s, r.state.posts[r.value], r.state);
    }
  }

  /**
   * REST `createPost` by a caller without a user record stores an orphan: a post
   * whose creator does not exist, listed by nobody. The invariant is lost.
   */
  lemma LemmaFeedCreatePostOrphan(s: State, caller: Id, file: string, title: string, content: string, now: nat)
    requires Inv(s) && caller !in s.users
    ensures var r := Feed.CreatePost(s, caller, [], Some(file), title, content, now);
      && r.Failed? && r.error == Crash
      && s.nextId in r.state.posts && r.state.posts[s.nextId].creator !in r.state.users
      && !Inv(r.state)
  {
  }

  lemma LemmaFeedUpdatePostInv(s: State, caller: Id, problems: seq<string>, id: Id, title: string, content: string,
                               image: Option<string>, file: Option<string>, now: nat)
    requires Inv(s)
    ensures Inv(Feed.UpdatePost(s, caller, problems, id, title, content, image, file, now).state)
  {
  }

  /**
   * Removing a post and replacing its creator's list by one holding the same ids
   * except that post's, without duplicates, keeps the invariant.
   */
  lemma LemmaRemovePostInv(s: State, c: Id, id: Id, ys: seq<Id>, t: State)
    requires Inv(s) && id in s.posts && s.posts[id].creator == c
    requires NoDuplicates(ys) && forall y :: y in ys <==> y in s.users[c].posts && y != id
    requires t.posts == s.posts - {id} && t.nextId == s.nextId
    requires t.users == s.users[c := s.users[c].(posts := ys)]
    ensures Inv(t)
    ensures forall u :: u in t.users ==> id !in t.users[u].posts
  {
    forall uid | uid in t.users ensures NoDuplicates(t.users[uid].posts) && id !in t.users[uid].posts {
      if uid != c {
        assert t.users[uid] == s.users[uid];
        assert id !in s.users[uid].posts;
      }
    }
    forall pid | pid in t.posts ensures t.posts[pid].creator in t.users && pid in t.users[t.posts[pid].creator].posts {
      assert pid in s.posts && pid != id;
    }
    forall uid, pid | uid in t.users && pid in t.users[uid].posts ensures pid in t.posts && t.posts[pid].creator == uid {
      assert pid in s.users[uid].posts && pid != id;
    }
  }

  /** REST `deletePost` keeps the invariant on every path; on success no user lists the id any more. */
  lemma LemmaFeedDeletePostInv(s: State, caller: Id, id: Id)
    requires Inv(s)
    ensures var r := Feed.DeletePost(s, caller, id);
      && Inv(r.state)
      && (r.Done? ==> forall u :: u in r.state.users ==> id !in r.state.users[u].posts)
  {
    var r := Feed.DeletePost(s, caller, id);
    if r.Done? {
      LemmaRemovePostInv(s, caller, id, Pull(s.users[caller].posts, id), r.state);
    } else {
      assert id in s.posts ==> s.posts[id].creator in s.users;
    }
  }

  lemma LemmaSignUpInv(s: State, x: Externals, problems: seq<string>, email: string, name: string, password: string)
    requires Inv(s)
    ensures Inv(AuthController.SignUp(s, x, problems, email, name, password).state)
  {
  }

  lemma LemmaSetUserStatusInv(s: State, caller: Id, status: string)
    requires Inv(s)
    ensures Inv(AuthController.SetUserStatus(s, caller, status).state)
  {
  }

  lemma LemmaCreateUserInv(s: State, x: Externals, email: string, name: string, password: string)
    requires Inv(s)
    ensures Inv(Resolvers.CreateUser(s, x, email, name, password).state)
  {
  }

  /** GraphQL `createPost` keeps the invariant on every path; its post is listed once, by the caller only. */
  lemma LemmaResolverCreatePostInv(s: State, auth: Middleware.AuthContext, title: string, content: string, imageUrl: string, now: nat)
    requires Inv(s)
    ensures var r := Resolvers.CreatePost(s, auth, title, content, imageUrl, now);
      && Inv(r.state)
      && (r.Done? ==> Count(r.state.users[auth.userId.value].posts, r.value) == 1
                      && forall u :: u in r.state.users && u != auth.userId.value ==> r.value !in r.state.users[u].posts)
  {
    var r := Resolvers.CreatePost(s, auth, title, content, imageUrl, now);
    if r.Done? {
      LemmaAddPostInv(s, r.state.posts[r.value], r.state);
    }
  }

  /** Registering an email a second time through GraphQL is refused as a duplicate. */
  lemma LemmaDuplicateRegistration(s: State, x: Externals, email: string, name1: string, name2: string,
                                   password1: string, password2: string)
    requires Resolvers.CreateUser(s, x, email, name1, password1).Done?
    requires |password2| >= 5
    ensures var s1 := Resolvers.CreateUser(s, x, email, name1, password1).state;
      Resolvers.CreateUser(s1, x, email, name2, password2) == Failed(s1, UserExists)
  {
    var r := Resolvers.CreateUser(s, x, email, name1, password1);
    assert r.state.users[r.value].email == email;
  }

  /**
   * The GraphQL round trip: a user registered through `createUser` logs in with the same
   * password, the middleware accepts the issued token as `Bearer <token>`, and a post
   * created with that context is listed exactly once, by that user.
   */
  lemma LemmaGraphQLRoundTrip(s: State, x: Externals, email: string, name: string, password: string,
                              title: string, content: string, imageUrl: string, now: nat)
    requires Sound(x) && Inv(s)
    requires x.isEmail(email) && |password| >= 5 && |title| >= 5 && |content| >= 5
    requires forall u :: u in s.users ==> s.users[u].email != email
    ensures var reg := Resolvers.CreateUser(s, x, email, name, password);
      && reg.Done?
      && var login := Resolvers.Login(reg.state, x, email, password);
      && login == Ok(Session(x.sign(Resolvers.Secret, Claims(email, reg.value)), reg.value))
      && var ctx := Middleware.IsAuth(x, Some("Bearer " + login.value.token), None);
      && ctx == Middleware.AuthContext(true, Some(reg.value))
      && var post := Resolvers.CreatePost(reg.state, ctx, title, content, imageUrl, now);
      && post.Done?
      && Count(post.state.users[reg.value].posts, post.value) == 1
      && Inv(post.state)
  {
    var reg := Resolvers.CreateUser(s, x, email, name, password);
    var s1 := reg.state;
    var uid := reg.value;
    assert FindOne(s1.users, email) == Some(uid) by {
      assert s1.users[uid].email == email;
    }
    assert x.compare(password, s1.users[uid].password);
    var login := Resolvers.Login(s1, x, email, password);
    assert login == Ok(Session(x.sign(Resolvers.Secret, Claims(email, uid)), uid));
    LemmaCreateUserInv(s, x, email, name, password);
    Middleware.LemmaSignedTokenAuthenticates(x, "Bearer", Claims(email, uid), None);
    assert "Bearer " + login.value.token == "Bearer" + " " + login.value.token;
    var ctx := Middleware.IsAuth(x, Some("Bearer " + login.value.token), None);
    assert ctx == Middleware.AuthContext(true, Some(uid));
    LemmaResolverCreatePostInv(s1, ctx, title, content, imageUrl, now);
    var post := Resolvers.CreatePost(s1, ctx, title, content, imageUrl, now);
    assert post.Done?;
  }

  /**
   * A token from REST `login` is signed with another secret than the GraphQL
   * middleware's, so under a secret-binding codec the middleware never accepts it.
   */
  lemma LemmaRestTokenRejected(s: State, x: Externals, email: string, password: string, prior: Option<nat>)
    requires TokenSound(x) && SecretBinding(x)
    requires AuthController.Login(s, x, email, password).Ok?
    ensures Middleware.IsAuth(x, Some("Bearer " + AuthController.Login(s, x, email, password).value.token), prior)
            == Middleware.AuthContext(false, prior)
  {
    var session := AuthController.Login(s, x, email, password).value;
    assert AuthController.Secret != Middleware.Secret by {
      assert |AuthController.Secret| != |Middleware.Secret|;
    }
    Middleware.LemmaForeignTokenRejected(x, "Bearer", AuthController.Secret, Claims(email, session.userId), prior);
    assert "Bearer " + session.token == "Bearer" + " " + session.token;
  }

  /**
   * The REST sequence: sign up with a new email, log in with the same password, then
   * create a post as that user. Exactly one `create` event is emitted, naming the new
   * post, and the post is listed exactly once by its creator.
   */
  lemma LemmaRestRoundTrip(s: State, x: Externals, email: string, name: string, password: string,
                           image: string, title: string, content: string, now: nat)
    requires HashSound(x) && Inv(s)
    requires forall u :: u in s.users ==> s.users[u].email != email
    ensures var up := AuthController.SignUp(s, x, [], email, name, password);
      && up.Done?
      && AuthController.Login(up.state, x, email, password).Ok?
      && AuthController.Login(up.state, x, email, password).value.userId == up.value
      && var post := Feed.CreatePost(up.state, up.value, [], Some(image), title, content, now);
      && post.Done?
      && post.state.events == up.state.events + [Created(post.value, post.state.posts[post.value], name)]
      && Count(post.state.users[up.value].posts, post.value) == 1
      && Inv(post.state)
  {
    var up := AuthController.SignUp(s, x, [], email, name, password);
    assert FindOne(up.state.users, email) == Some(up.value) by {
      assert up.state.users[up.value].email == email;
    }
    LemmaSignUpInv(s, x, [], email, name, password);
    LemmaFeedCreatePostInv(up.state, up.value, [], Some(image), title, content, now);
  }
}
