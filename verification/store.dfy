/** The record store: one container holding the users, the posts and two id
    counters. Every operation reads the whole container, changes it in memory
    and writes the whole container back. The container is a value
    (`Container`); the operations that change it are the methods of class
    `Db`, each proved equal to a function on `Container` that the request
    handlers use as the store's transition. */
module Store {
  import opened Wrappers

  /** A user record. `password` holds whatever the caller stores (the
      registration handler stores the bcrypt digest). */
  datatype User = User(id: int, email: string, username: string, password: string, createdAt: int)

  /** A post record. `edited` is absent (`None`) until the first update. */
  datatype Post = Post(id: int, content: string, createdAt: int, authorId: int,
                       commentsCount: int, edited: Option<bool>)

  /** A partial post: a field that is `Some` overrides the stored field. */
  datatype PostPatch = PostPatch(id: Option<int>, content: Option<string>, createdAt: Option<int>,
                                 authorId: Option<int>, commentsCount: Option<int>, edited: Option<bool>)

  /** The whole durable state. */
  datatype Container = Container(users: seq<User>, posts: seq<Post>, nextUserId: int, nextPostId: int)

  /** What the backing file holds: no file yet, text that does not parse, or a parsed container. */
  datatype StoredFile = Missing | Corrupt | Parsed(db: Container)

  /** The container a read returns, and what the backing file holds after that read. */
  datatype Loaded = Loaded(db: Container, file: StoredFile)

  /** An error thrown by the store, with its `code` property. */
  datatype StoreError = StoreError(code: string, message: string)

  /** The code a duplicate email or username is reported with. */
  const DuplicateCode := "P2002"

  /** The container written on first use and after a corrupt read. */
  const Empty := Container([], [], 1, 1)

  // ---------------------------------------------------------------------
  // Invariants of the container

  /** User ids are positive, below the counter and increase in insertion
      order; no two users share an email and no two share a username. */
  ghost predicate UsersValid(users: seq<User>, nextUserId: int) {
    && 1 <= nextUserId
    && (forall i :: 0 <= i < |users| ==> 1 <= users[i].id < nextUserId)
    && (forall i, j :: 0 <= i < j < |users| ==> users[i].id < users[j].id)
    && (forall i, j :: 0 <= i < j < |users| ==>
          users[i].email != users[j].email && users[i].username != users[j].username)
  }

  /** Post ids are positive, below the counter and increase in insertion order. */
  ghost predicate PostsValid(posts: seq<Post>, nextPostId: int) {
    && 1 <= nextPostId
    && (forall i :: 0 <= i < |posts| ==> 1 <= posts[i].id < nextPostId)
    && (forall i, j :: 0 <= i < j < |posts| ==> posts[i].id < posts[j].id)
  }

  /** The container's invariants. Ids then identify records: no two users
      and no two posts share an id, and the next ids are fresh. */
  ghost predicate Valid(db: Container)
    ensures Valid(db) ==> forall i, j :: 0 <= i < j < |db.users| ==> db.users[i].id != db.users[j].id
    ensures Valid(db) ==> forall i, j :: 0 <= i < j < |db.posts| ==> db.posts[i].id != db.posts[j].id
    ensures Valid(db) ==> forall i :: 0 <= i < |db.users| ==> db.users[i].id != db.nextUserId
    ensures Valid(db) ==> forall i :: 0 <= i < |db.posts| ==> db.posts[i].id != db.nextPostId
  {
    UsersValid(db.users, db.nextUserId) && PostsValid(db.posts, db.nextPostId)
  }

  // ---------------------------------------------------------------------
  // Reading the backing file

  /** readDB: a missing file and a file that does not parse both yield the
      empty container with both counters at 1, which is written back; a
      parsed file yields its container unchanged. */
  function ReadDB(file: StoredFile): (r: Loaded)
    ensures r.file == Parsed(r.db)
    ensures file.Parsed? ==> r.db == file.db
    ensures !file.Parsed? ==>
      r.db.users == [] && r.db.posts == [] && r.db.nextUserId == 1 && r.db.nextPostId == 1
    ensures !file.Parsed? ==> Valid(r.db)
  {
    match file
    case Missing => Loaded(Empty, Parsed(Empty))
    case Corrupt => Loaded(Empty, Parsed(Empty))
    case Parsed(db) => Loaded(db, file)
  }

  /** Reading again right after a read returns the same container. */
  lemma ReadDBIsStable(file: StoredFile)
    ensures ReadDB(ReadDB(file).file) == ReadDB(file)
  {
  }

  // ---------------------------------------------------------------------
  // Array.prototype.find / findIndex

  /** `i` is the first index of `s` whose element satisfies `p`. */
  ghost predicate IsFirst<T>(s: seq<T>, p: T -> bool, i: int) {
    0 <= i < |s| && p(s[i]) && forall j :: 0 <= j < i ==> !p(s[j])
  }

  /** The index of the first element satisfying `p`, or -1 when none does. */
  function FindIndex<T>(s: seq<T>, p: T -> bool): (i: int)
    ensures -1 <= i < |s|
    ensures i == -1 <==> forall j :: 0 <= j < |s| ==> !p(s[j])
    ensures i != -1 ==> IsFirst(s, p, i)
    decreases |s|
  {
    if |s| == 0 then -1
    else if p(s[0]) then 0
    else
      var k := FindIndex(s[1..], p);
      if k == -1 then -1 else k + 1
  }

  /** The first matching index is unique, so any first match is FindIndex's answer. */
  lemma FindIndexIsTheFirst<T>(s: seq<T>, p: T -> bool, i: int)
    requires IsFirst(s, p, i)
    ensures FindIndex(s, p) == i
  {
  }

  function SameIdentity(email: string, username: string): User -> bool {
    (u: User) => u.email == email || u.username == username
  }

  function MatchesIdentifier(identifier: string): User -> bool {
    (u: User) => u.email == identifier || u.username == identifier
  }

  function UserHasId(id: int): User -> bool {
    (u: User) => u.id == id
  }

  function PostHasId(id: int): Post -> bool {
    (p: Post) => p.id == id
  }

  // ---------------------------------------------------------------------
  // Queries

  /** findUserByIdentifier: the first user, in insertion order, whose email
      or username equals the identifier; None exactly when no user matches. */
  function FindUserByIdentifier(db: Container, identifier: string): (r: Option<User>)
    ensures r.None? <==>
      forall i :: 0 <= i < |db.users| ==> db.users[i].email != identifier && db.users[i].username != identifier
    ensures r.Some? ==>
      exists i :: IsFirst(db.users, MatchesIdentifier(identifier), i) && db.users[i] == r.value
  {
    var i := FindIndex(db.users, MatchesIdentifier(identifier));
    if i == -1 then None else Some(db.users[i])
  }

  /** getUserById: the first user with the id; None exactly when there is none. */
  function GetUserById(db: Container, id: int): (r: Option<User>)
    ensures r.None? <==> forall i :: 0 <= i < |db.users| ==> db.users[i].id != id
    ensures r.Some? ==> exists i :: IsFirst(db.users, UserHasId(id), i) && db.users[i] == r.value
  {
    var i := FindIndex(db.users, UserHasId(id));
    if i == -1 then None else Some(db.users[i])
  }

  /** getPostById: the first post with the id; None exactly when there is none. */
  function GetPostById(db: Container, id: int): (r: Option<Post>)
    ensures r.None? <==> forall i :: 0 <= i < |db.posts| ==> db.posts[i].id != id
    ensures r.Some? ==> exists i :: IsFirst(db.posts, PostHasId(id), i) && db.posts[i] == r.value
  {
    var i := FindIndex(db.posts, PostHasId(id));
    if i == -1 then None else Some(db.posts[i])
  }

  /** Newest `createdAt` first. */
  ghost predicate NewestFirst(s: seq<Post>) {
    forall i, j :: 0 <= i < j < |s| ==> s[i].createdAt >= s[j].createdAt
  }

  /** Places `p` before the first element that is not newer than it, so that
      among equal timestamps the earlier element stays first. */
  function Insert(p: Post, s: seq<Post>): (r: seq<Post>)
    ensures multiset(r) == multiset(s) + multiset{p}
    ensures |r| == |s| + 1
    decreases |s|
  {
    if s == [] || s[0].createdAt <= p.createdAt then
      [p] + s
    else
      assert s == [s[0]] + s[1..];
      [s[0]] + Insert(p, s[1..])
  }

  /** No post of `s` is newer than `t`. */
  ghost predicate NoNewerThan(s: seq<Post>, t: int) {
    forall k :: 0 <= k < |s| ==> s[k].createdAt <= t
  }

  lemma {:induction false} InsertNoNewerThan(p: Post, s: seq<Post>, t: int)
    requires NoNewerThan(s, t) && p.createdAt <= t
    ensures NoNewerThan(Insert(p, s), t)
    decreases |s|
  {
    if s != [] && p.createdAt < s[0].createdAt {
      InsertNoNewerThan(p, s[1..], t);
    }
  }

  lemma {:induction false} InsertKeepsNewestFirst(p: Post, s: seq<Post>)
    requires NewestFirst(s)
    ensures NewestFirst(Insert(p, s))
    decreases |s|
  {
    if s != [] && p.createdAt < s[0].createdAt {
      InsertKeepsNewestFirst(p, s[1..]);
      InsertNoNewerThan(p, s[1..], s[0].createdAt);
    }
  }

  /** The stable sort behind getPosts: a reordering of `s`, newest first. */
  function SortNewestFirst(s: seq<Post>): (r: seq<Post>)
    ensures NewestFirst(r)
    ensures multiset(r) == multiset(s)
    ensures |r| == |s|
    decreases |s|
  {
    if s == [] then []
    else
      assert s == [s[0]] + s[1..];
      var rest := SortNewestFirst(s[1..]);
      InsertKeepsNewestFirst(s[0], rest);
      Insert(s[0], rest)
  }

  /** getPosts: a sorted copy of the posts; the container itself is not changed. */
  function GetPosts(db: Container): (r: seq<Post>)
    ensures NewestFirst(r)
    ensures multiset(r) == multiset(db.posts)
  {
    SortNewestFirst(db.posts)
  }

  /** The posts of `s` stamped `t`, in their order in `s`. */
  ghost function WithTime(s: seq<Post>, t: int): seq<Post>
    decreases |s|
  {
    if s == [] then [] else (if s[0].createdAt == t then [s[0]] else []) + WithTime(s[1..], t)
  }

  lemma {:induction false} InsertKeepsTiesInOrder(p: Post, s: seq<Post>, t: int)
    ensures WithTime(Insert(p, s), t) == WithTime([p] + s, t)
    decreases |s|
  {
    if s == [] || s[0].createdAt <= p.createdAt {
    } else {
      var rest := Insert(p, s[1..]);
      InsertKeepsTiesInOrder(p, s[1..], t);
      assert Insert(p, s) == [s[0]] + rest;
      assert ([s[0]] + rest)[1..] == rest;
      assert ([p] + s)[1..] == s;
      assert ([p] + s[1..])[1..] == s[1..];
    }
  }

  /** The sort is stable: posts with equal timestamps keep their insertion order. */
  lemma {:induction false} SortKeepsTiesInOrder(s: seq<Post>, t: int)
    ensures WithTime(SortNewestFirst(s), t) == WithTime(s, t)
    decreases |s|
  {
    if s != [] {
      SortKeepsTiesInOrder(s[1..], t);
      InsertKeepsTiesInOrder(s[0], SortNewestFirst(s[1..]), t);
      assert ([s[0]] + SortNewestFirst(s[1..]))[1..] == SortNewestFirst(s[1..]);
    }
  }

  // ---------------------------------------------------------------------
  // Transitions (the specification of the methods of Db)

  /** createUser: throws P2002 and changes nothing when some user already has
      the email or the username; otherwise appends a user with the next id and
      advances the user counter by one. */
  function AddUser(db: Container, email: string, username: string, password: string, now: int)
    : (r: (Result<User, StoreError>, Container))
    ensures r.0.Failure? <==>
      exists i :: 0 <= i < |db.users| && (db.users[i].email == email || db.users[i].username == username)
    ensures r.0.Failure? ==> r.0.error.code == DuplicateCode && r.1 == db
    ensures r.0.Success? ==>
      && r.0.value == User(db.nextUserId, email, username, password, now)
      && r.1.users == db.users + [r.0.value]
      && r.1.nextUserId == db.nextUserId + 1
      && r.1.posts == db.posts && r.1.nextPostId == db.nextPostId
  {
    if FindIndex(db.users, SameIdentity(email, username)) != -1 then
      (Failure(StoreError(DuplicateCode, "Email or username exists")), db)
    else
      var user := User(db.nextUserId, email, username, password, now);
      (Success(user), db.(users := db.users + [user], nextUserId := db.nextUserId + 1))
  }

  /** createPost: appends a post with the next id, no comments and no
      `edited` flag, and advances the post counter by one; users are untouched. */
  function AddPost(db: Container, content: string, authorId: int, now: int): (r: (Post, Container))
    ensures r.0.id == db.nextPostId && r.0.content == content && r.0.authorId == authorId
    ensures r.0.createdAt == now && r.0.commentsCount == 0 && r.0.edited.None?
    ensures r.1.posts == db.posts + [r.0] && r.1.nextPostId == db.nextPostId + 1
    ensures r.1.users == db.users && r.1.nextUserId == db.nextUserId
  {
    var post := Post(db.nextPostId, content, now, authorId, 0, None);
    (post, db.(posts := db.posts + [post], nextPostId := db.nextPostId + 1))
  }

  /** `{ ...p, ...patch, edited: true }`. */
  function Merge(p: Post, patch: PostPatch): (q: Post)
    ensures q.edited == Some(true)
    ensures patch.id.None? ==> q.id == p.id
    ensures patch.content.None? ==> q.content == p.content
    ensures patch.authorId.None? ==> q.authorId == p.authorId
    ensures patch.createdAt.None? ==> q.createdAt == p.createdAt
    ensures patch.commentsCount.None? ==> q.commentsCount == p.commentsCount
    ensures patch.id.Some? ==> q.id == patch.id.value
    ensures patch.content.Some? ==> q.content == patch.content.value
    ensures patch.createdAt.Some? ==> q.createdAt == patch.createdAt.value
    ensures patch.authorId.Some? ==> q.authorId == patch.authorId.value
    ensures patch.commentsCount.Some? ==> q.commentsCount == patch.commentsCount.value
  {
    Post(patch.id.GetOr(p.id), patch.content.GetOr(p.content), patch.createdAt.GetOr(p.createdAt),
         patch.authorId.GetOr(p.authorId), patch.commentsCount.GetOr(p.commentsCount), Some(true))
  }

  /** updatePost: None and no change for an unknown id; otherwise only the
      first post with the id is replaced, merged with the patch and marked
      edited. */
  function PatchPost(db: Container, id: int, patch: PostPatch): (r: (Option<Post>, Container))
    ensures r.0.None? <==> forall i :: 0 <= i < |db.posts| ==> db.posts[i].id != id
    ensures r.0.None? ==> r.1 == db
    ensures r.0.Some? ==> r.0.value.edited == Some(true)
    ensures r.0.Some? ==> exists i :: (IsFirst(db.posts, PostHasId(id), i) &&
      r.0.value == Merge(db.posts[i], patch) && r.1.posts == db.posts[i := r.0.value])
    ensures |r.1.posts| == |db.posts|
    ensures r.1.users == db.users && r.1.nextUserId == db.nextUserId && r.1.nextPostId == db.nextPostId
  {
    var i := FindIndex(db.posts, PostHasId(id));
    if i == -1 then (None, db)
    else
      var q := Merge(db.posts[i], patch);
      (Some(q), db.(posts := db.posts[i := q]))
  }

  /** deletePost: false and no change for an unknown id; otherwise true, and
      exactly the first post with the id is removed, the others keeping their
      order. The counters never move back. */
  function RemovePost(db: Container, id: int): (r: (bool, Container))
    ensures !r.0 <==> forall i :: 0 <= i < |db.posts| ==> db.posts[i].id != id
    ensures !r.0 ==> r.1 == db
    ensures r.0 ==> exists i :: (IsFirst(db.posts, PostHasId(id), i) &&
      r.1.posts == db.posts[..i] + db.posts[i + 1..])
    ensures r.1.users == db.users && r.1.nextUserId == db.nextUserId && r.1.nextPostId == db.nextPostId
  {
    var i := FindIndex(db.posts, PostHasId(id));
    if i == -1 then (false, db)
    else (true, db.(posts := db.posts[..i] + db.posts[i + 1..]))
  }

  // ---------------------------------------------------------------------
  // The transitions keep the invariants

  lemma AddUserKeepsValid(db: Container, email: string, username: string, password: string, now: int)
    requires Valid(db)
    ensures Valid(AddUser(db, email, username, password, now).1)
  {
    var r := AddUser(db, email, username, password, now);
    if r.0.Success? {
      var users := r.1.users;
      assert forall i :: 0 <= i < |db.users| ==> users[i] == db.users[i];
      assert forall i :: 0 <= i < |db.users| ==>
        db.users[i].email != email && db.users[i].username != username;
    }
  }

  lemma AddPostKeepsValid(db: Container, content: string, authorId: int, now: int)
    requires Valid(db)
    ensures Valid(AddPost(db, content, authorId, now).1)
  {
  }

  /** The invariants survive an update that leaves the post's id alone (the
      only kind the handlers issue). */
  lemma PatchPostKeepsValid(db: Container, id: int, patch: PostPatch)
    requires Valid(db)
    requires patch.id.None? || patch.id == Some(id)
    ensures Valid(PatchPost(db, id, patch).1)
  {
    var r := PatchPost(db, id, patch);
    if r.0.Some? {
      var i :| IsFirst(db.posts, PostHasId(id), i) &&
        r.0.value == Merge(db.posts[i], patch) && r.1.posts == db.posts[i := r.0.value];
      assert r.0.value.id == db.posts[i].id;
    }
  }

  lemma RemovePostKeepsValid(db: Container, id: int)
    requires Valid(db)
    ensures Valid(RemovePost(db, id).1)
  {
    var r := RemovePost(db, id);
    if r.0 {
      var i :| IsFirst(db.posts, PostHasId(id), i) && r.1.posts == db.posts[..i] + db.posts[i + 1..];
      SpliceKeepsPostsValid(db.posts, i, db.nextPostId);
    }
  }

  lemma SpliceKeepsPostsValid(posts: seq<Post>, i: int, nextPostId: int)
    requires PostsValid(posts, nextPostId) && 0 <= i < |posts|
    ensures PostsValid(posts[..i] + posts[i + 1..], nextPostId)
  {
    var s := posts[..i] + posts[i + 1..];
    assert forall k :: 0 <= k < |s| ==> s[k] == posts[if k < i then k else k + 1];
  }

  /** Ids are never reused: after a deletion, the next post created gets an
      id that no post of the container before the deletion ever had. */
  lemma DeletedIdsAreNotReissued(db: Container, id: int, content: string, authorId: int, now: int)
    requires Valid(db)
    ensures forall i :: 0 <= i < |db.posts| ==>
      AddPost(RemovePost(db, id).1, content, authorId, now).0.id != db.posts[i].id
  {
  }

  /** After a deletion the id is gone: ids are unique, so only one post had it. */
  lemma DeletedPostIsGone(db: Container, id: int)
    requires Valid(db)
    ensures GetPostById(RemovePost(db, id).1, id).None?
  {
    var r := RemovePost(db, id);
    if r.0 {
      var i :| IsFirst(db.posts, PostHasId(id), i) && r.1.posts == db.posts[..i] + db.posts[i + 1..];
      var s := r.1.posts;
      forall k | 0 <= k < |s| ensures s[k].id != id {
        if k < i {
          assert s[k] == db.posts[k];
        } else {
          assert s[k] == db.posts[k + 1];
          assert db.posts[i].id < db.posts[k + 1].id;
        }
      }
    }
  }

  lemma InsertOlder(p: Post, q: Post)
    requires p.createdAt < q.createdAt
    ensures Insert(p, [q]) == [q, p]
  {
    assert [q][1..] == [];
    assert Insert(p, []) == [p];
  }

  lemma SortThree(p1: Post, p2: Post, p3: Post)
    requires p1.createdAt < p2.createdAt < p3.createdAt
    ensures SortNewestFirst([p1, p2, p3]) == [p3, p2, p1]
  {
    assert [p3][1..] == [];
    assert SortNewestFirst([p3]) == [p3];
    assert [p2, p3][1..] == [p3];
    InsertOlder(p2, p3);
    assert SortNewestFirst([p2, p3]) == [p3, p2];
    assert [p1, p2, p3][1..] == [p2, p3];
    InsertOlder(p1, p2);
    assert [p3, p2][1..] == [p2];
    assert Insert(p1, [p3, p2]) == [p3] + Insert(p1, [p2]);
  }

  /** Three posts created one after the other at increasing times are listed
      last-created first. */
  lemma ThreePostsListedNewestFirst(db: Container, c1: string, c2: string, c3: string,
                                    a1: int, a2: int, a3: int, t1: int, t2: int, t3: int)
    requires db.posts == []
    requires t1 < t2 < t3
    ensures
      var s1 := AddPost(db, c1, a1, t1);
      var s2 := AddPost(s1.1, c2, a2, t2);
      var s3 := AddPost(s2.1, c3, a3, t3);
      GetPosts(s3.1) == [s3.0, s2.0, s1.0]
  {
    var s1 := AddPost(db, c1, a1, t1);
    var s2 := AddPost(s1.1, c2, a2, t2);
    var s3 := AddPost(s2.1, c3, a3, t3);
    assert s3.1.posts == [s1.0, s2.0, s3.0];
    SortThree(s1.0, s2.0, s3.0);
  }

  // ---------------------------------------------------------------------
  // The container updated in place

  /** The in-memory container that each store operation reads, mutates and
      writes back. */
  class Db {
    var users: seq<User>
    var posts: seq<Post>
    var nextUserId: int
    var nextPostId: int

    function Value(): Container
      reads this
    {
      Container(users, posts, nextUserId, nextPostId)
    }

    /** readDB */
    constructor Load(file: StoredFile)
      ensures Value() == ReadDB(file).db
    {
      var db := ReadDB(file).db;
      users, posts := db.users, db.posts;
      nextUserId, nextPostId := db.nextUserId, db.nextPostId;
    }

    /** findIndex on the posts by id. */
    method FindPostIndex(id: int) returns (idx: int)
      ensures idx == FindIndex(posts, PostHasId(id))
    {
      idx := 0;
      while idx < |posts|
        invariant 0 <= idx <= |posts|
        invariant forall j :: 0 <= j < idx ==> posts[j].id != id
      {
        if posts[idx].id == id {
          FindIndexIsTheFirst(posts, PostHasId(id), idx);
          return;
        }
        idx := idx + 1;
      }
      idx := -1;
    }

    method CreateUser(email: string, username: string, password: string, now: int)
      returns (r: Result<User, StoreError>)
      modifies this
      ensures (r, Value()) == AddUser(old(Value()), email, username, password, now)
      ensures old(Valid(Value())) ==> Valid(Value())
    {
      ghost var before := Value();
      if Valid(before) { AddUserKeepsValid(before, email, username, password, now); }
      var i := 0;
      while i < |users|
        invariant 0 <= i <= |users|
        invariant forall j :: 0 <= j < i ==> users[j].email != email && users[j].username != username
      {
        if users[i].email == email || users[i].username == username {
          r := Failure(StoreError(DuplicateCode, "Email or username exists"));
          assert SameIdentity(email, username)(users[i]);
          return;
        }
        i := i + 1;
      }
      var user := User(nextUserId, email, username, password, now);
      nextUserId := nextUserId + 1;
      users := users + [user];
      r := Success(user);
    }

    method CreatePost(content: string, authorId: int, now: int) returns (post: Post)
      modifies this
      ensures (post, Value()) == AddPost(old(Value()), content, authorId, now)
      ensures old(Valid(Value())) ==> Valid(Value())
    {
      ghost var before := Value();
      if Valid(before) { AddPostKeepsValid(before, content, authorId, now); }
      post := Post(nextPostId, content, now, authorId, 0, None);
      nextPostId := nextPostId + 1;
      posts := posts + [post];
    }

    method UpdatePost(id: int, patch: PostPatch) returns (r: Option<Post>)
      modifies this
      ensures (r, Value()) == PatchPost(old(Value()), id, patch)
      ensures old(Valid(Value())) && (patch.id.None? || patch.id == Some(id)) ==> Valid(Value())
    {
      ghost var before := Value();
      if Valid(before) && (patch.id.None? || patch.id == Some(id)) {
        PatchPostKeepsValid(before, id, patch);
      }
      var idx := FindPostIndex(id);
      if idx == -1 {
        return None;
      }
      var q := Merge(posts[idx], patch);
      posts := posts[idx := q];
      r := Some(q);
    }

    method DeletePost(id: int) returns (ok: bool)
      modifies this
      ensures (ok, Value()) == RemovePost(old(Value()), id)
      ensures old(Valid(Value())) ==> Valid(Value())
    {
      ghost var before := Value();
      if Valid(before) { RemovePostKeepsValid(before, id); }
      var idx := FindPostIndex(id);
      if idx == -1 {
        return false;
      }
      posts := posts[..idx] + posts[idx + 1..];
      ok := true;
    }
  }
}
