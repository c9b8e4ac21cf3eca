/**
 * The REST feed controller: paging through posts and the creator-only create,
 * update and delete of a post, with their socket.io events and image removals.
 * The caller is the `req.userId` the REST routes establish before the controller runs.
 */
module Feed {
  import opened Wrappers
  import opened Domain
  import opened Listing

  /** `{ totalItems, posts }` of a feed page. */
  datatype FeedPage = FeedPage(totalItems: nat, posts: seq<Id>)

  /** The `skip` of page `req.query.page || 1`; None stands for an absent or empty query value. */
  function Skip(page: Option<int>): int
  {
    var current := if page.None? then 1 else page.value;
    (current - 1) * PerPage
  }

  lemma LemmaPageByRank(posts: map<Id, Post>, skip: nat)
    ensures Descending(posts, Window(All(posts), skip, PerPage))
    ensures forall id :: id in Window(All(posts), skip, PerPage) <==> id in posts && skip <= Rank(posts, id) < skip + PerPage
  {
    forall id ensures id in Window(All(posts), skip, PerPage) <==> id in posts && skip <= Rank(posts, id) < skip + PerPage {
      LemmaWindowByRank(posts, skip, PerPage, id);
    }
  }

  /**
   * `getPosts`: the total number of posts and the page of at most two posts, newest
   * first, holding exactly the posts with `skip` or `skip + 1` newer ones. A page past
   * the end is empty; a page below 1 makes the database reject the negative skip.
   */
  function GetPosts(s: State, page: Option<int>): (r: Result<FeedPage, ErrorKind>)
    ensures r.Err? <==> page.Some? && page.value < 1
    ensures r.Err? ==> r.error == StoreFailure
    ensures r.Ok? ==> r.value.totalItems == |s.posts|
    ensures r.Ok? ==> |r.value.posts| <= PerPage && Descending(s.posts, r.value.posts)
    ensures r.Ok? ==> forall id :: id in r.value.posts <==> id in s.posts && Skip(page) <= Rank(s.posts, id) < Skip(page) + PerPage
    ensures r.Ok? && Skip(page) >= |s.posts| ==> r.value.posts == []
  {
    var skip := Skip(page);
    if skip < 0 then Err(StoreFailure)
    else
      LemmaPageByRank(s.posts, skip);
      Ok(FeedPage(|s.posts|, Window(All(s.posts), skip, PerPage)))
  }

  /** An absent page is the first page. */
  lemma LemmaDefaultPage(s: State)
    ensures GetPosts(s, None) == GetPosts(s, Some(1))
    ensures GetPosts(s, None).Ok? && forall id :: id in GetPosts(s, None).value.posts <==> id in s.posts && Rank(s.posts, id) < PerPage
  {
  }

  /**
   * `createPost`: the validation result, then the uploaded file, are checked first. The
   * post is saved before the caller's user is looked up, so a caller without a user
   * record crashes with the post already stored, unlisted and unannounced.
   */
  function CreatePost(s: State, caller: Id, problems: seq<string>, file: Option<string>,
                      title: string, content: string, now: nat): (r: Outcome<Id>)
    ensures |problems| > 0 ==> r == Failed(s, ValidationFailed([]))
    ensures |problems| == 0 && file.None? ==> r == Failed(s, NoImage)
    ensures r.Done? <==> |problems| == 0 && file.Some? && caller in s.users
    ensures r.Done? ==>
      var id := r.value;
      var post := Post(title, content, file.value, caller, now, now);
      && id == s.nextId && r.state.nextId == s.nextId + 1
      && r.state.posts == s.posts[id := post]
      && r.state.users.Keys == s.users.Keys
      && r.state.users[caller] == s.users[caller].(posts := s.users[caller].posts + [id])
      && (forall u :: u in s.users && u != caller ==> r.state.users[u] == s.users[u])
      && r.state.events == s.events + [Created(id, post, s.users[caller].name)]
      && r.state.cleared == s.cleared
    ensures |problems| == 0 && file.Some? && caller !in s.users ==>
      && r == Failed(r.state, Crash)
      && r.state.posts == s.posts[s.nextId := Post(title, content, file.value, caller, now, now)]
      && r.state.nextId == s.nextId + 1
      && r.state.users == s.users && r.state.events == s.events && r.state.cleared == s.cleared
  {
    if |problems| > 0 then Failed(s, ValidationFailed([]))
    else if file.None? then Failed(s, NoImage)
    else
      var id := s.nextId;
      var post := Post(title, content, file.value, caller, now, now);
      var saved := s.(posts := s.posts[id := post], nextId := id + 1);
      if caller !in s.users then Failed(saved, Crash)
      else
        var user := s.users[caller];
        Done(saved.(users := s.users[caller := user.(posts := user.posts + [id])],
                    events := s.events + [Created(id, post, user.name)]), id)
  }

  /** `getPost`: the stored post, or 'Could not find post.'. */
  function GetPost(s: State, id: Id): (r: Result<Post, ErrorKind>)
    ensures r.Err? <==> id !in s.posts
    ensures r.Err? ==> r.error == NotFound
    ensures r.Ok? ==> id in s.posts && r.value == s.posts[id]
  {
    if id !in s.posts then Err(NotFound) else Ok(s.posts[id])
  }

  /** A request field JavaScript treats as truthy: present and not the empty string. */
  predicate Given(v: Option<string>)
  {
    v.Some? && v.value != ""
  }

  /** The new image: the uploaded file's path if a file came, else the body's `image`. */
  function NewImageUrl(image: Option<string>, file: Option<string>): (url: string)
    requires Given(image)
    ensures file.Some? ==> url == file.value
    ensures file.None? ==> url == image.value
  {
    if file.Some? then file.value else image.value
  }

  /**
   * `updatePost`: checks validation, then that the body names an image (an upload
   * alone is not enough), then that the post exists, then that its populated creator
   * exists, then that the caller is the creator. Every failure leaves the state alone.
   * On success only title, content, image and update time change; the old image is
   * removed exactly when it is replaced.
   */
  function UpdatePost(s: State, caller: Id, problems: seq<string>, id: Id, title: string, content: string,
                      image: Option<string>, file: Option<string>, now: nat): (r: Outcome<Post>)
    ensures r.Failed? ==> r.state == s
    ensures |problems| > 0 ==> r == Failed(s, ValidationFailed([]))
    ensures |problems| == 0 && !Given(image) ==> r == Failed(s, NoImage)
    ensures |problems| == 0 && Given(image) && id !in s.posts ==> r == Failed(s, NotFound)
    ensures |problems| == 0 && Given(image) && id in s.posts && s.posts[id].creator !in s.users ==> r == Failed(s, Crash)
    ensures |problems| == 0 && Given(image) && id in s.posts && s.posts[id].creator in s.users && s.posts[id].creator != caller ==>
      r == Failed(s, NotAuthorized)
    ensures r.Done? <==> |problems| == 0 && Given(image) && id in s.posts && s.posts[id].creator == caller && caller in s.users
    ensures r.Done? ==>
      var before := s.posts[id];
      var url := NewImageUrl(image, file);
      && r.value.title == title && r.value.content == content && r.value.imageUrl == url
      && r.value.creator == before.creator && r.value.createdAt == before.createdAt && r.value.updatedAt == now
      && r.state.posts == s.posts[id := r.value]
      && r.state.users == s.users && r.state.nextId == s.nextId
      && r.state.cleared == (if url != before.imageUrl then s.cleared + [before.imageUrl] else s.cleared)
      && r.state.events == s.events + [Updated(id, r.value)]
  {
    if |problems| > 0 then Failed(s, ValidationFailed([]))
    else if !Given(image) then Failed(s, NoImage)
    else if id !in s.posts then Failed(s, NotFound)
    else
      var post := s.posts[id];
      if post.creator !in s.users then Failed(s, Crash)
      else if post.creator != caller then Failed(s, NotAuthorized)
      else
        var url := NewImageUrl(image, file);
        var cleared := if url != post.imageUrl then s.cleared + [post.imageUrl] else s.cleared;
        var updated := post.(title := title, imageUrl := url, content := content, updatedAt := now);
        Done(s.(posts := s.posts[id := updated], cleared := cleared, events := s.events + [Updated(id, updated)]), updated)
  }

  /**
   * `deletePost`: 'Could not find post.', then 'Not authorized.' for anyone but the
   * creator. Otherwise the image is removed, the post deleted and its id pulled from
   * the caller's list. The caller's user is looked up only after the delete, so a
   * missing user crashes with the post already gone.
   */
  function DeletePost(s: State, caller: Id, id: Id): (r: Outcome<()>)
    ensures id !in s.posts ==> r == Failed(s, NotFound)
    ensures id in s.posts && s.posts[id].creator != caller ==> r == Failed(s, NotAuthorized)
    ensures r.Done? <==> id in s.posts && s.posts[id].creator == caller && caller in s.users
    ensures r.Done? ==>
      && r.state.posts == s.posts - {id}
      && r.state.cleared == s.cleared + [s.posts[id].imageUrl]
      && r.state.users.Keys == s.users.Keys
      && r.state.users[caller] == s.users[caller].(posts := Pull(s.users[caller].posts, id))
      && (forall u :: u in s.users && u != caller ==> r.state.users[u] == s.users[u])
      && r.state.events == s.events + [Deleted(id)]
      && r.state.nextId == s.nextId
    ensures id in s.posts && s.posts[id].creator == caller && caller !in s.users ==>
      && r.Failed? && r.error == Crash
      && r.state == s.(posts := s.posts - {id}, cleared := s.cleared + [s.posts[id].imageUrl])
  {
    if id !in s.posts then Failed(s, NotFound)
    else
      var post := s.posts[id];
      if post.creator != caller then Failed(s, NotAuthorized)
      else
        var removed := s.(posts := s.posts - {id}, cleared := s.cleared + [post.imageUrl]);
        if caller !in s.users then Failed(removed, Crash)
        else
          var user := s.users[caller];
          Done(removed.(users := s.users[caller := user.(posts := Pull(user.posts, id))],
                        events := s.events + [Deleted(id)]), ())
  }

  /** A post created through the feed is what `getPost` then returns. */
  lemma LemmaCreateThenGet(s: State, caller: Id, image: string, title: string, content: string, now: nat)
    requires caller in s.users
    ensures var r := CreatePost(s, caller, [], Some(image), title, content, now);
      && r.Done?
      && GetPost(r.state, r.value) == Ok(Post(title, content, image, caller, now, now))
  {
  }

  /** After an update `getPost` returns the updated post; after a delete it reports 'Could not find post.'. */
  lemma LemmaUpdateDeleteThenGet(s: State, caller: Id, id: Id, title: string, content: string,
                                 image: string, file: Option<string>, now: nat)
    requires id in s.posts && s.posts[id].creator == caller && caller in s.users && image != ""
    ensures var u := UpdatePost(s, caller, [], id, title, content, Some(image), file, now);
      && u.Done? && GetPost(u.state, id) == Ok(u.value)
      && GetPost(u.state, id).value.creator == caller
    ensures var d := DeletePost(s, caller, id);
      && d.Done? && GetPost(d.state, id) == Err(NotFound)
  {
  }

  /** Five posts created at times 1 to 5 are listed newest first. */
  lemma LemmaListingOfFive(posts: map<Id, Post>)
    requires forall k :: k in posts <==> 1 <= k <= 5
    requires forall k :: k in posts ==> posts[k].createdAt == k
    ensures All(posts) == [5, 4, 3, 2, 1]
  {
    var order := [5, 4, 3, 2, 1];
    assert forall i :: 0 <= i < 5 ==> order[i] == 5 - i;
    assert Descending(posts, order);
    forall k ensures k in posts <==> k in order {
      if k in posts {
        assert k == order[5 - k];
      }
    }
    LemmaListingUnique(posts, order);
  }

  /** Five stored posts keyed 1 to 5 make a total of five. */
  lemma LemmaFiveKeys(posts: map<Id, Post>)
    requires forall k :: k in posts <==> 1 <= k <= 5
    ensures |posts| == 5
  {
    assert posts.Keys == {1, 2, 3, 4, 5};
  }

  /** The second page over five posts created at times 1 to 5 holds the third and second newest. */
  lemma LemmaSecondPageOfFive(s: State)
    requires forall k :: k in s.posts <==> 1 <= k <= 5
    requires forall k :: k in s.posts ==> s.posts[k].createdAt == k
    ensures GetPosts(s, Some(2)) == Ok(FeedPage(5, [3, 2]))
  {
    LemmaListingOfFive(s.posts);
    LemmaFiveKeys(s.posts);
    var page := Window(All(s.posts), 2, PerPage);
    assert page == [3, 2] by {
      assert [5, 4, 3, 2, 1][2..4] == [3, 2];
    }
    assert GetPosts(s, Some(2)) == Ok(FeedPage(|s.posts|, page));
  }
}
