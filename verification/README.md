# Social-posting service: record store, token helpers and request handlers

This project models the persistence-and-authentication core of a small
social-posting service in Dafny, and proves properties of that model.

- **Record store** (`store.dfy`, module `Store`). One container holds the users, the posts and two id
  counters. `ReadDB` is the read with its recovery rule: a missing or unreadable file becomes the
  empty container with both counters at 1, and that container is written back. The container is a
  value (`Container`). Class `Db` is the in-memory container that `createUser`, `createPost`,
  `updatePost` and `deletePost` change in place. Each of its methods is proved equal to a
  transition function on `Container` (`AddUser`, `AddPost`, `PatchPost`, `RemovePost`). The
  queries `find`, `findIndex` and the sorted copy behind `getPosts` are functions. `Valid` states
  the store's invariants: ids are positive, below their counter and increasing in insertion order,
  and no two users share an email or a username. Every transition keeps them; `updatePost` keeps
  them only when the patch does not change `id`.
- **Token helpers** (`auth.dfy`, module `Auth`). `GetTokenFromReq` splits the Authorization header
  on single spaces. `Split` is proved against `Join` in both directions. The jsonwebtoken library is
  two function-valued parameters (`Jwt`). What the model assumes of it is a predicate (`Sound`,
  `Compact`) that appears as a requirement of the lemmas that need it. The fallback signing secret
  and the seven-day lifetime are constants.
- **Handlers** (`register.dfy`, `login.dfy`, `posts.dfy`, with shared shapes in `api.dfy`). Each
  handler is a function from a request and a container to a response, plus the new container for
  the two handlers that write. bcrypt is a pair of function-valued parameters (`Bcrypt`). The
  writing handlers also have a `Serve` method. It runs the same guards against a `Db` object and
  is proved to do what the function says.
- **Flows** (`flows.dfy`). Lemmas across two requests: register then log in, register then post
  with the returned token, and an example of an email shadowed by an earlier username.

Four behaviours of the code a reader might not expect; the model follows the code:

- The header parser does not check that the first word is `Bearer`.
- A header `"Bearer "` yields the empty token, which the posts handler treats as no token.
- The recovery rule covers a file that cannot be read as well as one that does not parse,
  because the `try` block at lib/store.ts:21-23 wraps both calls.
- Logging in with either identifier after registering does not always succeed. The uniqueness
  check at lib/store.ts:40 compares emails only with emails and usernames only with usernames. So a
  new user's email can equal an earlier user's username. `Flows.EmailShadowedByEarlierUsername`
  exhibits it, and `Flows.RegisteredUserCanLogIn` states the side condition.

Inputs the code takes from its environment become parameters:

- the current time (`now`, an integer count of seconds),
- the `JWT_SECRET` variable (`env`),
- the bcrypt and jsonwebtoken libraries (`Bcrypt`, `Jwt`),
- the backing file's content (`StoredFile`).

## Model

| member | source | states |
|---|---|---|
| `Store.ReadDB` | lib/store.ts:14-30 | A missing or unreadable file gives the empty container with both counters at 1, which satisfies the invariants. A parsed file gives its own container. Either way the file afterwards holds the container returned. |
| `Store.ReadDBIsStable` | lib/store.ts:16-28 | Reading again right after a read returns the same container, so recovery happens once. |
| `Store.FindIndex` | lib/store.ts:82 | `findIndex` gives -1 exactly when no element matches. Otherwise it gives the first matching index. |
| `Store.FindUserByIdentifier` | lib/store.ts:51-54 | None exactly when no user has the identifier as email or username. Otherwise the first such user in insertion order. |
| `Store.GetUserById` | lib/store.ts:56-59 | None exactly when no user has the id. Otherwise the first user with it. |
| `Store.GetPostById` | lib/store.ts:75-78 | None exactly when no post has the id. Otherwise the first post with it. |
| `Store.SortNewestFirst` | lib/store.ts:72 | The sort's result is a permutation of its input, ordered by non-increasing `createdAt`. |
| `Store.GetPosts` | lib/store.ts:69-73 | The listing is a permutation of the stored posts, newest first. It is a function of the container, which it does not change. |
| `Store.SortKeepsTiesInOrder` | lib/store.ts:72 | The sort is stable: for every timestamp, the posts stamped with it keep their insertion order. |
| `Store.ThreePostsListedNewestFirst` | lib/store.ts:69-73 | Three posts created in turn at increasing times, starting with no posts, are listed last-created first. |
| `Store.AddUser` | lib/store.ts:37-49 | Fails with code `P2002` exactly when some user has the email or the username, and then changes nothing. Otherwise the new user has id = old `nextUserId` and is appended. `nextUserId` grows by one, and the posts and `nextPostId` are untouched. |
| `Store.AddPost` | lib/store.ts:61-67 | The new post has id = old `nextPostId`, the given content and author, no comments and no `edited` flag. It is appended and `nextPostId` grows by one. Users and `nextUserId` are untouched. |
| `Store.Valid` | lib/store.ts:40-46 | The container's invariants: ids positive, below their counter and increasing in insertion order, with distinct emails and distinct usernames. Under them no two users and no two posts share an id, and neither next id is held by any record. |
| `Store.Merge` | lib/store.ts:84 | The merged post is always marked edited. Each field the patch gives (id, content, createdAt, authorId, commentsCount) replaces the stored one, and each field it leaves out keeps its old value. |
| `Store.PatchPost` | lib/store.ts:80-87 | An unknown id gives None and no change. Otherwise only the first post with the id is replaced, by its merge with the patch, marked edited. The list length, the users and both counters are unchanged. |
| `Store.RemovePost` | lib/store.ts:89-96 | An unknown id gives false and no change. Otherwise the result is true and exactly the first post with the id is removed, the others keeping their order. The users and both counters are unchanged. |
| `Store.AddUserKeepsValid` | lib/store.ts:40-46 | createUser keeps the invariants: ids below the counter and increasing, emails and usernames pairwise distinct. |
| `Store.AddPostKeepsValid` | lib/store.ts:63-64 | createPost keeps the invariants. |
| `Store.PatchPostKeepsValid` | lib/store.ts:82-84 | updatePost keeps the invariants when the patch leaves the id alone. |
| `Store.RemovePostKeepsValid` | lib/store.ts:91-93 | deletePost keeps the invariants. |
| `Store.DeletedIdsAreNotReissued` | lib/store.ts:93 | After a deletion, the next post created gets an id that no post held before the deletion. Ids are never reused. |
| `Store.DeletedPostIsGone` | lib/store.ts:91-93 | After deleting an id, looking that id up finds nothing. |
| `Store.Db.Load` | lib/store.ts:14-30 | The in-memory container starts as the container the read returns. |
| `Store.Db.FindPostIndex` | lib/store.ts:82 | The loop returns the index of the first post with the id, or -1 when there is none. |
| `Store.Db.CreateUser` | lib/store.ts:37-49 | In place, the result and the new state are those of `AddUser`, and a valid container stays valid. |
| `Store.Db.CreatePost` | lib/store.ts:61-67 | In place, the new post and the new state are those of `AddPost`, and a valid container stays valid. |
| `Store.Db.UpdatePost` | lib/store.ts:80-87 | In place, the result and the new state are those of `PatchPost`. The container stays valid when the patch leaves the id alone. |
| `Store.Db.DeletePost` | lib/store.ts:89-96 | In place, the result and the new state are those of `RemovePost`, and a valid container stays valid. |
| `Auth.Secret` | lib/auth.ts:4 | The secret is never empty. It is `JWT_SECRET` when that is set and non-empty, and the fixed default literal otherwise. |
| `Auth.SignToken` | lib/auth.ts:6-8 | Assuming a sound library, the token verifies to exactly its claims at any time before seven days after issue, and to None from then on. Assuming a compact library, it is non-empty and holds no space. |
| `Auth.VerifyToken` | lib/auth.ts:10-16 | It never fails. The result is the library's claims when verification succeeds and None on any library failure. |
| `Auth.TokenLastsSevenDays` | lib/auth.ts:6-8 | Assuming a sound library, a token from signToken verifies to its claims before issue time plus seven days and to None from then on. |
| `Auth.Split` | lib/auth.ts:21 | `split(' ')` gives one more part than there are spaces. No part contains a space, and joining the parts with spaces gives the header back. |
| `Auth.SplitJoin` | lib/auth.ts:21 | Splitting space-free parts joined by spaces gives exactly those parts back. |
| `Auth.GetTokenFromReq` | lib/auth.ts:18-25 | A token is returned exactly when the header is present and holds exactly one space. The token holds no space and is what follows a space-free first word and the space. |
| `Auth.BearerRoundTrip` | lib/auth.ts:21-24 | Any space-free scheme, one space and a space-free token give back that token. |
| `Auth.NoTokenWithoutSpace` | lib/auth.ts:20-22 | A missing header, an empty header and `"Bearer"` give no token. |
| `Auth.NoTokenWithTwoSpaces` | lib/auth.ts:21-22 | `"Bearer a b"` and `"Bearer  x"` (double space) give no token. |
| `Auth.SchemeNotChecked` | lib/auth.ts:23-24 | `"Basic abc"` gives `abc`, so the scheme word is not checked. `"Bearer "` gives the empty token. |
| `Register.Utf16Length` | pages/api/v1/auth/register.ts:13 | `length` counts UTF-16 units: at least one and at most two per character. It is exactly one per character when all lie in the Basic Multilingual Plane, and exactly two per character when none do. |
| `Register.Utf16LengthAppend` | pages/api/v1/auth/register.ts:13 | The UTF-16 length of a concatenation is the sum of the parts' lengths. |
| `Register.IsJsWhitespace` | pages/api/v1/auth/register.ts:13 | Among ASCII characters, `\s` matches exactly tab, line feed, vertical tab, form feed, carriage return and space. No visible ASCII character matches. Every match lies in the Basic Multilingual Plane. |
| `Register.WeakPassword` | pages/api/v1/auth/register.ts:13 | A password passes exactly when it has at least 8 UTF-16 units and no `\s` character. A passing password has at least 4 characters and no space, tab or line feed. |
| `Register.ErrorResponse` | pages/api/v1/auth/register.ts:23-28 | 409 "Email or username already exists" exactly for code `P2002`, and 500 "Server error" for any other error. |
| `Register.Handle` | pages/api/v1/auth/register.ts:6-30 | Any method but POST gives 405, a missing field gives 400, and a weak password gives 400; none of the three changes the store. 409 comes exactly when a valid request's email or username is taken, with the body "Email or username already exists". 201 comes exactly when it is not. Then the stored user holds the bcrypt digest and the next id. The body carries only id, email and username, plus a token signed for `{id, username}`. Only a 201 changes the store. |
| `Register.Serve` | pages/api/v1/auth/register.ts:6-30 | Run against the container in place with one createUser call, the handler gives the response and the new state that `Register.Handle` describes. |
| `Register.PolicyExamples` | pages/api/v1/auth/register.ts:13-16 | A 7-character password, or one with a space, gives 400 and no store change, whatever the other fields hold. |
| `Login.Handle` | pages/api/v1/auth/login.ts:6-27 | Any method but POST gives 405 and a missing field gives 400. Every 401 carries the same "Invalid credentials" body, and an unknown identifier gives 401. A valid request gets 200 exactly when the first user matching the identifier accepts the password. Then the body holds that user's id, email and username and a token signed for its `{id, username}`. The handler returns no container, so it never writes the store. |
| `Login.FailuresLookAlike` | pages/api/v1/auth/login.ts:13-22 | An unknown identifier and a wrong password get the identical 401 response. |
| `Posts.AuthorOf` | pages/api/v1/posts/index.ts:11-12 | The author is null exactly when no user has the post's `authorId`. Otherwise it is the public fields (id, username, email) of the first such user. |
| `Posts.WithAuthor` | pages/api/v1/posts/index.ts:11-12 | The view carries the post unchanged. Its author is null exactly when no user has the post's `authorId`. Otherwise the author is the public fields (id, email, username) of the first user with that id, as `getUserById` finds it. |
| `Posts.ListPosts` | pages/api/v1/posts/index.ts:8-14 | The GET body lists the posts in `getPosts` order, newest first, each with its author joined. |
| `Posts.Caller` | pages/api/v1/posts/index.ts:18-19 | The caller is known exactly when the header yields a non-empty token that the library verifies. |
| `Posts.Handle` | pages/api/v1/posts/index.ts:5-36 | GET gives 200 with the joined list, and any other method but POST gives 405. A POST without a verified token gives 401, and one with a token but no content gives 400. 201 comes exactly when both checks pass. Then exactly one post is appended, carrying the next id, the content and the token's id as author, and is returned joined with its author. The users never change, and only a 201 changes the store. |
| `Posts.Serve` | pages/api/v1/posts/index.ts:5-36 | Run against the container in place with one createPost call, the handler gives the response and the new state that `Posts.Handle` describes. |
| `Posts.AuthenticationBeforeContent` | pages/api/v1/posts/index.ts:18-26 | A POST with neither a verified token nor content gets 401, not 400, and the store is unchanged. |
| `Flows.RegisteredUserCanLogIn` | pages/api/v1/auth/login.ts:12-26 | After a 201 registration, logging in with the same password and either identifier gives 200 for the new user's id, email and username. This requires a bcrypt whose compare accepts a password's own digest, and no earlier user answering to that identifier. |
| `Flows.EmailShadowedByEarlierUsername` | lib/store.ts:40-53 | One user has the username `bob@x.org`. A second user registers with `bob@x.org` as email and succeeds. Logging in with that email then finds the first user and gets 401. |
| `Flows.RegisteredTokenAuthorizesPost` | pages/api/v1/posts/index.ts:18-30 | Within seven days, the token from a registration, sent as `Bearer <token>`, authenticates a post. The post is stored under the new user's id and returned joined with that user. |

## Left out

- File-system plumbing (`ensureFolder`, `fs.*Sync`, `JSON.stringify`/`JSON.parse`): the backing file is the value `StoredFile`. A file that parses into something other than a container is not modelled.
- Read and write failures that the code does not catch (for example a failing `writeFileSync`), and an exception thrown by `bcrypt.hash`: the store never fails in the model except with `P2002`. The 500 mapping is modelled on its own in `Register.ErrorResponse`.
- bcrypt and jsonwebtoken are foreign cryptographic libraries. They are function-valued parameters, and their properties are requirements of the lemmas that use them, not proved facts.
- `new Date().toISOString()` and the `getTime()` parsing in the sort: `createdAt` is an integer timestamp supplied by the caller, so an invalid date (NaN in the comparator) is not modelled.
- The request body holds only string fields. Non-string JSON values, and with them the `typeof password !== 'string'` branch, are not modelled. An absent body is modelled as an empty one.
- A `Partial<Post>` key that is present with the value `undefined` (which the spread copies) is not modelled: a patch field is either given or absent.
- The token payload is only `{id, username}`. The `iat`/`exp` fields the library adds, and string payloads, are not modelled.
- `bcrypt.hash` draws a fresh random salt on every call. The model's `hash` is a fixed function, so one `Bcrypt` value stands for one run's salt draws. No proved property depends on two digests of a password being equal or different.
- One clock value `now`, counted in whole seconds, serves both as the record's `createdAt` and as the token's issue time (`iat`). The code stamps `createdAt` as an ISO string with milliseconds, so the model is coarser. Two posts created within the same second tie in the model, and the stable sort lists them oldest first. With millisecond timestamps the code usually tells them apart and lists the later one first.
- JavaScript numbers are doubles; ids and timestamps are unbounded integers, which agrees while ids stay below 2^53.
- Strings are sequences of Unicode code points. Only the password length is counted in UTF-16 units, as the code does.
- Concurrency between requests, the read-modify-write race: each request is one sequential step.
- Logging (`console.log`, `console.error`) and the Next.js request and response objects, which become the plain records `Request` and `Response`.
- The single-post endpoint (pages/api/v1/posts/[id].ts: GET by id, PUT and DELETE with ownership checks) is not part of this model. Only the store operations it calls are modelled.
- Flows.RegisteredUserCanLogIn: holds only when no earlier user answers to the identifier used, because the uniqueness check at lib/store.ts:40 does not compare a new email with existing usernames (or a new username with existing emails); `Flows.EmailShadowedByEarlierUsername` shows the failing case.
