/**
 * The order in which both surfaces list posts, `Post.find().sort({ createdAt: -1 })`,
 * and the `skip` / `limit` window the REST feed takes of it.
 */
module Listing {
  import opened Domain

  /** Posts per page of the REST feed. */
  const PerPage: nat := 2

  /**
   * `a` is listed before `b`: it was created later. MongoDB leaves the order of equal
   * timestamps open; the model settles it by putting the larger (younger) id first.
   */
  predicate Newer(posts: map<Id, Post>, a: Id, b: Id)
  {
    && a in posts && b in posts
    && (posts[a].createdAt > posts[b].createdAt || (posts[a].createdAt == posts[b].createdAt && a > b))
  }

  predicate Descending(posts: map<Id, Post>, r: seq<Id>)
  {
    forall i, j :: 0 <= i < j < |r| ==> Newer(posts, r[i], r[j])
  }

  /** `r` lists exactly the posts in `keys`, newest first. */
  ghost predicate Enumerates(posts: map<Id, Post>, keys: set<Id>, r: seq<Id>)
  {
    (forall k :: k in keys <==> k in r) && Descending(posts, r)
  }

  /** `r` lists every stored post, newest first. */
  ghost predicate IsListing(posts: map<Id, Post>, r: seq<Id>)
  {
    Enumerates(posts, posts.Keys, r)
  }

  predicate IsNewest(posts: map<Id, Post>, keys: set<Id>, m: Id)
  {
    m in keys && forall k :: k in keys && k != m ==> Newer(posts, m, k)
  }

  lemma {:induction false} LemmaNewestExists(posts: map<Id, Post>, keys: set<Id>)
    requires keys != {} && keys <= posts.Keys
    ensures exists m :: IsNewest(posts, keys, m)
    decreases keys
  {
    var x :| x in keys;
    if keys - {x} == {} {
      assert keys == {x};
      assert IsNewest(posts, keys, x);
    } else {
      LemmaNewestExists(posts, keys - {x});
      var m :| IsNewest(posts, keys - {x}, m);
      forall k | k in keys ensures k == x || k in keys - {x} { }
      if Newer(posts, x, m) {
        assert IsNewest(posts, keys, x);
      } else {
        assert IsNewest(posts, keys, m);
      }
    }
  }

  /** Putting the newest of `keys` in front of an enumeration of the others enumerates `keys`. */
  lemma LemmaConsNewest(posts: map<Id, Post>, keys: set<Id>, m: Id, rest: seq<Id>)
    requires IsNewest(posts, keys, m) && Enumerates(posts, keys - {m}, rest)
    ensures Enumerates(posts, keys, [m] + rest)
  {
    var r := [m] + rest;
    forall k ensures k in keys <==> k in r {
      assert k in keys <==> k == m || k in keys - {m};
    }
    forall i, j | 0 <= i < j < |r| ensures Newer(posts, r[i], r[j]) {
      assert r[j] == rest[j - 1];
      if i > 0 {
        assert r[i] == rest[i - 1];
      }
    }
  }

  /** The posts in `keys`, newest first: repeatedly take the newest of those left. */
  function Order(posts: map<Id, Post>, keys: set<Id>): (r: seq<Id>)
    requires keys <= posts.Keys
    ensures Enumerates(posts, keys, r)
    ensures |r| == |keys|
    decreases keys
  {
    if keys == {} then []
    else
      LemmaNewestExists(posts, keys);
      var m :| m in keys && IsNewest(posts, keys, m);
      var rest := Order(posts, keys - {m});
      LemmaConsNewest(posts, keys, m, rest);
      [m] + rest
  }

  /** `Post.find().sort({ createdAt: -1 })`: all stored posts, newest first. */
  function All(posts: map<Id, Post>): (r: seq<Id>)
    ensures IsListing(posts, r)
    ensures |r| == |posts|
  {
    Order(posts, posts.Keys)
  }

  lemma LemmaEmptyEnumeration(posts: map<Id, Post>, keys: set<Id>, r: seq<Id>)
    requires Enumerates(posts, keys, r)
    ensures r == [] <==> keys == {}
  {
    if r != [] {
      assert r[0] in keys;
    }
  }

  /** The head of an enumeration is the newest of its posts. */
  lemma LemmaHeadIsNewest(posts: map<Id, Post>, keys: set<Id>, r: seq<Id>)
    requires Enumerates(posts, keys, r) && r != []
    ensures IsNewest(posts, keys, r[0])
  {
  }

  lemma LemmaNewestUnique(posts: map<Id, Post>, keys: set<Id>, m1: Id, m2: Id)
    requires IsNewest(posts, keys, m1) && IsNewest(posts, keys, m2)
    ensures m1 == m2
  {
  }

  /** There is only one newest-first enumeration of a set of posts. */
  lemma {:induction false} LemmaEnumerationUnique(posts: map<Id, Post>, keys: set<Id>, a: seq<Id>, b: seq<Id>)
    requires keys <= posts.Keys
    requires Enumerates(posts, keys, a) && Enumerates(posts, keys, b)
    ensures a == b
    decreases keys
  {
    LemmaEmptyEnumeration(posts, keys, a);
    LemmaEmptyEnumeration(posts, keys, b);
    if a != [] {
      LemmaHeadIsNewest(posts, keys, a);
      LemmaHeadIsNewest(posts, keys, b);
      LemmaNewestUnique(posts, keys, a[0], b[0]);
      var x := a[0];
      LemmaTailEnumerates(posts, keys, a);
      LemmaTailEnumerates(posts, keys, b);
      LemmaEnumerationUnique(posts, keys - {x}, a[1..], b[1..]);
      assert a == [x] + a[1..] && b == [x] + b[1..];
    }
  }

  /** Dropping the head of an enumeration enumerates the remaining posts. */
  lemma LemmaTailEnumerates(posts: map<Id, Post>, keys: set<Id>, r: seq<Id>)
    requires Enumerates(posts, keys, r) && r != []
    ensures Enumerates(posts, keys - {r[0]}, r[1..])
  {
  }

  /** Every listing of the stored posts is the one `All` computes. */
  lemma LemmaListingUnique(posts: map<Id, Post>, r: seq<Id>)
    requires IsListing(posts, r)
    ensures r == All(posts)
  {
    LemmaEnumerationUnique(posts, posts.Keys, r, All(posts));
  }

  /** How many stored posts are newer than `id`: its position in the feed. */
  ghost function Rank(posts: map<Id, Post>, id: Id): nat
  {
    |set k | k in posts && Newer(posts, k, id)|
  }

  /** The elements of a sequence, as a set built one element at a time. */
  ghost function Elements(xs: seq<Id>): (r: set<Id>)
    ensures forall x :: x in r <==> x in xs
  {
    if xs == [] then {} else {xs[0]} + Elements(xs[1..])
  }

  lemma {:induction false} LemmaElementsCard(xs: seq<Id>)
    requires NoDuplicates(xs)
    ensures |Elements(xs)| == |xs|
    decreases |xs|
  {
    if xs != [] {
      assert xs[0] !in xs[1..];
      LemmaElementsCard(xs[1..]);
    }
  }

  /** Within a listing, a post newer than the one at `i` sits before it. */
  lemma LemmaNewerIsEarlier(posts: map<Id, Post>, r: seq<Id>, i: nat, j: nat)
    requires Descending(posts, r) && i < |r| && j < |r|
    requires Newer(posts, r[j], r[i])
    ensures j < i
  {
  }

  /** The post at position `i` of the listing has exactly `i` newer posts. */
  lemma LemmaRankIsIndex(posts: map<Id, Post>, r: seq<Id>, i: nat)
    requires IsListing(posts, r) && i < |r|
    ensures Rank(posts, r[i]) == i
  {
    var newer := set k | k in posts && Newer(posts, k, r[i]);
    var prefix := r[..i];
    forall k | k in newer ensures k in prefix {
      var j :| 0 <= j < |r| && r[j] == k;
      LemmaNewerIsEarlier(posts, r, i, j);
      assert prefix[j] == k;
    }
    forall k | k in prefix ensures k in newer {
      var j :| 0 <= j < |prefix| && prefix[j] == k;
      assert r[j] == k;
    }
    assert newer == Elements(prefix);
    assert NoDuplicates(prefix) by {
      forall a, b | 0 <= a < b < |prefix| ensures prefix[a] != prefix[b] {
        assert prefix[a] == r[a] && prefix[b] == r[b];
        assert Newer(posts, r[a], r[b]);
      }
    }
    LemmaElementsCard(prefix);
  }

  /** `skip(skip).limit(limit)` over a sequence; as in MongoDB, a limit of 0 means no limit. */
  function Window(xs: seq<Id>, skip: nat, limit: nat): (r: seq<Id>)
    ensures |r| == if skip >= |xs| then 0 else if limit == 0 || |xs| - skip < limit then |xs| - skip else limit
    ensures forall i :: 0 <= i < |r| ==> r[i] == xs[skip + i]
  {
    if skip >= |xs| then []
    else if limit == 0 || |xs| - skip < limit then xs[skip..]
    else xs[skip..skip + limit]
  }

  lemma LemmaWindowDescending(posts: map<Id, Post>, xs: seq<Id>, skip: nat, limit: nat)
    requires Descending(posts, xs)
    ensures Descending(posts, Window(xs, skip, limit))
  {
  }

  /**
   * A window of the listing holds exactly the posts whose rank lies in
   * `[skip, skip + limit)` (from `skip` on when `limit` is 0), still newest first.
   */
  lemma LemmaWindowByRank(posts: map<Id, Post>, skip: nat, limit: nat, id: Id)
    ensures Descending(posts, Window(All(posts), skip, limit))
    ensures id in Window(All(posts), skip, limit) <==>
      id in posts && skip <= Rank(posts, id) && (limit == 0 || Rank(posts, id) < skip + limit)
  {
    var all := All(posts);
    var w := Window(all, skip, limit);
    LemmaWindowDescending(posts, all, skip, limit);
    if id in w {
      var t :| 0 <= t < |w| && w[t] == id;
      assert all[skip + t] == id;
      LemmaRankIsIndex(posts, all, skip + t);
    }
    if id in posts && skip <= Rank(posts, id) && (limit == 0 || Rank(posts, id) < skip + limit) {
      var t :| 0 <= t < |all| && all[t] == id;
      LemmaRankIsIndex(posts, all, t);
      assert w[t - skip] == id;
    }
  }
}
