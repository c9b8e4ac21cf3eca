# Feed backend: domain rules as a verified state machine

A Dafny model of the domain core of a Node.js content-feed backend. The backend has two API surfaces over one MongoDB database:

- a REST surface: the feed controller and the auth controller;
- a GraphQL surface: the resolvers, behind a non-throwing authentication middleware.

Users register, log in and get a signed bearer token. Posts are created, updated and deleted by their creator only. Each post id is pushed onto, or pulled from, its creator's `posts` list. REST mutations announce themselves on a socket.io `posts` channel.

The model is purely functional:

- The database is a `State` holding two immutable maps: `users: map<Id, User>` and `posts: map<Id, Post>`.
- A `nextId` counter stands for ObjectId uniqueness.
- The socket channel is an append-only `events` log.
- The images handed to `clearImage` go into an append-only `cleared` log.
- Every controller action and resolver is a pure function. A mutating one returns `Outcome<V>`: either `Done(state, value)` or `Failed(state, error)`. Two REST handlers crash after part of their writes has happened, so a failure carries a state too. A read-only one returns `Result<V, ErrorKind>`.
- `ErrorKind` names the error each handler throws. `Code()` gives the code that error carries.

bcrypt, jsonwebtoken and `validator.isEmail` are kept uninterpreted. They are total functions in the `Externals` record (`codec.dfy`). The facts the backend relies on are ghost predicates, and only lemmas assume them:

- `HashSound`: `compare(p, hash(p))` holds.
- `TokenSound`: `verify(secret, sign(secret, c)) == Some(c)`, and a signed token is non-empty and holds no space.
- `SecretBinding`: a token never verifies under a different secret. Only the lemma about cross-surface tokens uses it.

The two surfaces sign with different secrets. REST `login` signs with `"sectret"` (`AuthController.Secret`). GraphQL `login` signs with `"somesupersecretsecret"` (`Resolvers.Secret`), and the middleware verifies with that same secret (`Middleware.Secret`). The model never assumes that a REST token verifies. `Ownership.LemmaRestTokenRejected` proves that, under a secret-binding codec, the middleware leaves the holder of a REST token unauthenticated.

The headline invariant is `Domain.Inv`:

- every post's creator is a stored user whose `posts` lists the post;
- a user's `posts` lists only posts that user created, each at most once;
- every id in use is below `nextId`.

`Domain.LemmaOwnedOnlyByCreator` derives the promised form: a post appears exactly once in its creator's list and in no other user's list. The `Ownership` module proves that every mutating operation of both surfaces keeps `Inv`. The one exception is REST `createPost` by a caller with no user record. That path saves the post before it looks the user up, and `Ownership.LemmaFeedCreatePostOrphan` shows the orphan it leaves.

Listing order is `sort({ createdAt: -1 })`. Equal timestamps are ordered by the larger id first. `Listing.All` computes the order. `Listing.LemmaListingUnique` shows that only one newest-first enumeration exists. `Listing.Rank` (the number of newer posts) is an independent reference for pages: `Feed.GetPosts` returns exactly the posts whose rank lies in `[skip, skip + 2)`.

The model follows the code in these places:

- Login with an unknown email throws a 401 error.
- `updatePost` checks validation first, then the `image` field, then existence, then ownership.
- REST `signUp` has no duplicate-email check.
- GraphQL `createPost` emits no event.
- The two secrets differ.

Files: `wrappers.dfy`, `codec.dfy`, `domain.dfy`, `listing.dfy`, `middleware.dfy`, `feed.dfy`, `auth.dfy`, `resolvers.dfy`, `ownership.dfy`.

## Model

| member | source | states |
|---|---|---|
| Codec.Split | Backend/middleware/auth.js:10 | `split(' ')` returns at least one part. No part holds a space. Joining the parts with spaces gives back the header. |
| Codec.LemmaSplitJoin | Backend/middleware/auth.js:10 | Splitting undoes joining when no part holds the separator. |
| Domain.FindOne | Backend/controllers/auth.js:38 | `findOne({ email })` misses exactly when no user has the email. Otherwise it returns a stored user with that email, the oldest such user. |
| Domain.LemmaFindOneUnique | Backend/graphql/resolvers.js:25-31 | When emails are unique, `findOne` finds exactly the user holding the email. |
| Domain.Pull | Backend/controllers/feed.js:174 | `posts.pull(id)` removes every occurrence of the id. Every other id keeps its number of occurrences. The list shrinks by the number removed. A duplicate-free list stays duplicate-free. |
| Domain.LemmaPullAppend | Backend/controllers/feed.js:174 | Pulling from a concatenation pulls from each half. With the one-element case this means the remaining ids keep their order. |
| Domain.LemmaPullAbsent | Backend/controllers/feed.js:174 | Pulling an id that is not listed changes nothing. |
| Domain.LemmaOwnedOnlyByCreator | Backend/controllers/feed.js:53-65 | Under the invariant, a user lists a post iff that user created it, and the creator lists it exactly once. |
| Listing.All | Backend/controllers/feed.js:17-19 | `Post.find().sort({ createdAt: -1 })` lists every stored post once, newest first. |
| Listing.LemmaListingUnique | Backend/graphql/resolvers.js:108 | Any newest-first enumeration of the stored posts is the one `All` computes. |
| Listing.LemmaRankIsIndex | Backend/controllers/feed.js:19-20 | The post at position i of the listing has exactly i newer posts. |
| Listing.Window | Backend/controllers/feed.js:20-21 | `skip(k).limit(n)` gives at most n elements, position for position from k on. A limit of 0 means no limit, as in MongoDB. It is empty when k is past the end. |
| Listing.LemmaWindowByRank | Backend/controllers/feed.js:17-21 | A window of the listing stays newest first. It holds exactly the posts whose rank is at least k and, when n > 0, below k + n. |
| Middleware.BearerToken | Backend/middleware/auth.js:5-11 | A missing or empty header yields no token. So does a header of one segment, with no space. Any token found is non-empty and holds no space. |
| Middleware.LemmaBearerTokenSegments | Backend/middleware/auth.js:10 | For every header, written as its space-separated segments: the token is the second segment. There is no token when the header has only one segment or the second segment is empty. |
| Middleware.LemmaBearerToken | Backend/middleware/auth.js:10 | `"<scheme> <token>"` yields exactly the token. |
| Middleware.IsAuth | Backend/middleware/auth.js:3-23 | Every path yields a context. A missing header gives `isAuth = false`. `isAuth` holds iff the token verifies, and then `userId` is the decoded one. Every failing path leaves `userId` as it was. |
| Middleware.LemmaSignedTokenAuthenticates | Backend/middleware/auth.js:11-17 | A token signed with the middleware's secret authenticates the signed `userId`. |
| Middleware.LemmaForeignTokenRejected | Backend/middleware/auth.js:19-21 | Under a secret-binding codec, a token signed with another secret gives `isAuth = false`. |
| Feed.GetPosts | Backend/controllers/feed.js:10-27 | `totalItems` is the number of stored posts, whatever the page. The page holds at most 2 posts, newest first: exactly those with `(page-1)*2` or `(page-1)*2 + 1` newer posts. A page past the end is empty. A page below 1 is a database failure. |
| Feed.LemmaDefaultPage | Backend/controllers/feed.js:12 | An absent page is page 1. It holds the two newest posts. |
| Feed.LemmaListingOfFive | Backend/controllers/feed.js:17-19 | Five posts created at times 1 to 5 are listed as 5, 4, 3, 2, 1. |
| Feed.LemmaSecondPageOfFive | Backend/controllers/feed.js:15-22 | Over those five posts, page 2 is `[3, 2]` with `totalItems` 5. |
| Feed.CreatePost | Backend/controllers/feed.js:36-70 | A validation failure, then a missing upload, fails with the state unchanged. Success needs the caller's user. It stores the post with the caller as creator and the upload's path as image. It appends the fresh id to the end of the caller's list. No other user changes. It emits exactly one `create` event. With no user record the post is stored anyway under the fresh id, the id counter advances past it, and the handler crashes. |
| Feed.GetPost | Backend/controllers/feed.js:87-96 | An absent id fails with 'Could not find post.'. Otherwise it returns the stored post. |
| Feed.NewImageUrl | Backend/controllers/feed.js:116-119 | The new image is the upload's path if a file came, else the body's `image`. |
| Feed.UpdatePost | Backend/controllers/feed.js:105-145 | Checks run in order: validation, missing body `image` (even with an upload), absent post, missing creator record, non-creator. Any failure leaves the state unchanged. Success replaces title, content and image and keeps the creator and creation time. It clears the old image iff the image changes, and emits one `update` event. |
| Feed.DeletePost | Backend/controllers/feed.js:157-178 | An absent post gives 'Could not find post.'. A non-creator gives 'Not authorized.'. Success clears the stored image once and removes the post. It pulls every occurrence of the id from the caller's list and changes no other user. It emits one `delete` event carrying the id. |
| Feed.LemmaCreateThenGet | Backend/controllers/feed.js:53-65 | `getPost` returns the post that `createPost` stored. |
| Feed.LemmaUpdateDeleteThenGet | Backend/controllers/feed.js:137-144 | After the creator's update, `getPost` returns the updated post with the same creator. After the creator's delete, it reports not found. |
| AuthController.SignUp | Backend/controllers/auth.js:7-26 | A non-empty validation result fails and carries that result as its data. Nothing is stored. Otherwise it adds exactly one user under a fresh id, with the given email and name and the hashed password, and returns the new id. |
| AuthController.Login | Backend/controllers/auth.js:35-55 | An unknown email is a 401. A hash mismatch is a 401. Success returns a token over `{ email, userId }` signed with `"sectret"`. The id is that of the user `findOne` returned, whose hash was compared. |
| AuthController.GetUserStatus | Backend/controllers/auth.js:64-72 | A missing user gives 'User not found'. Otherwise it returns that user's status. |
| AuthController.SetUserStatus | Backend/controllers/auth.js:81-92 | A missing user gives 'User not found' with the state unchanged. Otherwise only that user's status changes, to the given value. |
| AuthController.LemmaStatusRoundTrip | Backend/controllers/auth.js:83-90 | `getUserStatus` reads back what `setUserStatus` wrote. |
| Resolvers.UserInputErrors | Backend/graphql/resolvers.js:11-17 | Reports one complaint for an invalid email and one for a password shorter than 5. Both are reported together, email first. |
| Resolvers.PostInputErrors | Backend/graphql/resolvers.js:70-76 | Reports one complaint each for a title and a content shorter than 5, so 0 to 2 complaints, title first. |
| Resolvers.CreateUser | Backend/graphql/resolvers.js:9-41 | Field complaints fail with the full list. An existing email fails with 'User exsist already!'. Both leave the state unchanged. Success iff the email is valid, the password has length at least 5 and the email is new. Success adds exactly one user with the hashed password and returns its id. |
| Resolvers.Login | Backend/graphql/resolvers.js:43-62 | An unknown email or a hash mismatch fails. Success returns a token over `{ userId, email }` signed with the middleware's secret. The id is that of the user `findOne` returned, whose hash was compared. |
| Resolvers.CreatePost | Backend/graphql/resolvers.js:64-97 | `isAuth = false` fails first, whatever the fields. The aggregated field complaints come next. An unknown `userId` then gives 'Invalid User.'. Success stores the post under that creator and appends its id to that user's list. It emits no event. |
| Resolvers.Posts | Backend/graphql/resolvers.js:101-116 | Requires `isAuth`. Returns every stored post newest first, unpaged, with `totalPosts` equal to their number. |
| Ownership.LemmaFeedCreatePostInv | Backend/controllers/feed.js:53-65 | REST `createPost` by a caller with a user record keeps the invariant. The new post is fresh, listed once by the caller and by no one else. |
| Ownership.LemmaFeedCreatePostOrphan | Backend/controllers/feed.js:60-64 | REST `createPost` by a caller without a user record crashes after storing a post whose creator does not exist. The invariant is lost. |
| Ownership.LemmaFeedUpdatePostInv | Backend/controllers/feed.js:126-144 | `updatePost` keeps the invariant on every path. |
| Ownership.LemmaFeedDeletePostInv | Backend/controllers/feed.js:160-175 | `deletePost` keeps the invariant on every path. After a delete, no user lists the id. |
| Ownership.LemmaSignUpInv | Backend/controllers/auth.js:16-23 | `signUp` keeps the invariant. |
| Ownership.LemmaSetUserStatusInv | Backend/controllers/auth.js:90-91 | `setUserStatus` keeps the invariant. |
| Ownership.LemmaCreateUserInv | Backend/graphql/resolvers.js:32-37 | `createUser` keeps the invariant. |
| Ownership.LemmaResolverCreatePostInv | Backend/graphql/resolvers.js:83-97 | GraphQL `createPost` keeps the invariant on every path. Its post is listed once, by the caller only. |
| Ownership.LemmaDuplicateRegistration | Backend/graphql/resolvers.js:25-31 | Registering an email a second time with a valid password fails as a duplicate. |
| Ownership.LemmaGraphQLRoundTrip | Backend/graphql/resolvers.js:43-62 | After `createUser`, `login` with the same password succeeds. The middleware accepts `Bearer <token>` as that user. A post then created is listed exactly once by that user. |
| Ownership.LemmaRestTokenRejected | Backend/controllers/auth.js:50-54 | Under a secret-binding codec, a REST-issued token never authenticates at the GraphQL middleware. |
| Ownership.LemmaRestRoundTrip | Backend/controllers/auth.js:35-55 | A user signed up under a new email logs in as the new id. A post that user then creates through the feed emits exactly one `create` event naming it and is listed once. |

## Left out

- Express routing, the REST authentication middleware and the route validators are not part of this model. The caller's `req.userId` is a parameter of the REST handlers. `validationResult(req)` is an opaque list of messages: empty means valid.
- `models/user.js` and `models/post.js` are not part of this model. The default status is `Externals.defaultStatus`. The timestamps are a clock reading `now` passed to each operation.
- MongoDB persistence is modelled as map lookups and updates. The `Promise.all` pairs run as sequential steps. `populate` and the `_doc` / `toISOString` serialisation are left out, and so are the JSON response bodies: operations return ids and posts.
- The catch blocks are left out. Some of them rewrite an existing status code to 500 because their test is inverted. The model returns the error kind as thrown. The `error.status` versus `error.statusCode` distinction of the two validation failures in the feed is dropped too.
- File removal (`path.join`, `fs.unlink`) is an entry in the `cleared` log. Unlink errors are only logged by the source.
- socket.io transport is an append to the `events` log. Delivery and subscribers are not modelled.
- bcrypt: the random salt and the cost factor are folded into the uninterpreted `hash`. jsonwebtoken: the one-hour expiry and the clock it checks are folded into the uninterpreted `verify`.
- Feed.GetPosts: the query value is modelled as an optional integer. A non-numeric or fractional `page` string, which JavaScript turns into `NaN` or a fraction, is not modelled. The order of posts with equal `createdAt`, which MongoDB leaves open, is fixed as the larger id first. A page below 1 gives a negative `skip`, which the model treats as the database rejecting the query.
- Resolvers.UserInputErrors: lengths are counted in Unicode code points. `validator.isLength` also discounts variation selectors. `isEmail`'s own rules are uninterpreted.
- Resolvers.PostInputErrors: lengths are counted in Unicode code points, as for `UserInputErrors`.
- Domain.FindOne: when several users share an email, the oldest one (least id) is chosen. MongoDB leaves this choice to its natural order.
