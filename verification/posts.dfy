/** /api/v1/posts: GET lists every post newest first, each joined with its
    author's public fields; POST authenticates the bearer token, then checks
    the content, then makes one createPost call. */
module Posts {
  import opened Wrappers
  import opened Store
  import opened Auth
  import opened Api

  /** The public fields of the first user with the id, or null when there is none. */
  function AuthorOf(db: Container, authorId: int): (a: Option<PublicUser>)
    ensures a.None? <==> forall i :: 0 <= i < |db.users| ==> db.users[i].id != authorId
    ensures a.Some? ==> exists i :: IsFirst(db.users, UserHasId(authorId), i) && a.value == Public(db.users[i])
  {
    match GetUserById(db, authorId)
    case None => None
    case Some(u) => Some(Public(u))
  }

  /** `{ ...p, author }` */
  function WithAuthor(db: Container, p: Post): (v: PostView)
    ensures v.post == p
    ensures v.author.None? <==> forall i :: 0 <= i < |db.users| ==> db.users[i].id != p.authorId
    ensures v.author.Some? ==>
      exists i :: IsFirst(db.users, UserHasId(p.authorId), i) && v.author.value == Public(db.users[i])
  {
    PostView(p, AuthorOf(db, p.authorId))
  }

  /** The GET body: the posts in getPosts order, each with its author. */
  function ListPosts(db: Container): (r: seq<PostView>)
    ensures |r| == |db.posts|
    ensures forall i :: 0 <= i < |r| ==> r[i].post == GetPosts(db)[i]
    ensures forall i :: 0 <= i < |r| ==> r[i].author == AuthorOf(db, r[i].post.authorId)
    ensures forall i, j :: 0 <= i < j < |r| ==> r[i].post.createdAt >= r[j].post.createdAt
  {
    var sorted := GetPosts(db);
    seq(|sorted|, i requires 0 <= i < |sorted| => WithAuthor(db, sorted[i]))
  }

  /** The claims of a non-empty bearer token that verifies; None otherwise. */
  function Caller(req: Request, jwt: Jwt, env: Option<string>, now: int): (c: Option<Claims>)
    ensures c.Some? <==>
      exists t :: GetTokenFromReq(req.authorization) == Some(t) && t != "" &&
        jwt.verify(t, Secret(env), now).Success?
    ensures c.Some? ==> c == VerifyToken(jwt, env, GetTokenFromReq(req.authorization).value, now)
  {
    var token := GetTokenFromReq(req.authorization);
    if token.Some? && token.value != "" then VerifyToken(jwt, env, token.value, now) else None
  }

  function Handle(req: Request, db: Container, jwt: Jwt, env: Option<string>, now: int): (r: Outcome)
    ensures req.httpMethod == "GET" ==> r == Outcome(Response(200, PostList(ListPosts(db))), db)
    ensures req.httpMethod != "GET" && req.httpMethod != "POST" ==> r == Outcome(MethodNotAllowed(), db)
    ensures req.httpMethod == "POST" && Caller(req, jwt, env, now).None? ==>
      r == Outcome(Response(401, ErrorBody("Unauthorized")), db)
    ensures req.httpMethod == "POST" && Caller(req, jwt, env, now).Some? && !Truthy(Field(req, "content")) ==>
      r == Outcome(Response(400, ErrorBody("Missing content")), db)
    ensures r.response.status == 201 <==>
      req.httpMethod == "POST" && Caller(req, jwt, env, now).Some? && Truthy(Field(req, "content"))
    ensures r.response.status != 201 ==> r.db == db
    ensures r.db.users == db.users
    ensures r.response.status == 201 ==>
      var p := Post(db.nextPostId, Field(req, "content").value, now, Caller(req, jwt, env, now).value.id, 0, None);
      && r.db == db.(posts := db.posts + [p], nextPostId := db.nextPostId + 1)
      && r.response.payload == PostBody(PostView(p, AuthorOf(db, p.authorId)))
  {
    if req.httpMethod == "GET" then
      Outcome(Response(200, PostList(ListPosts(db))), db)
    else if req.httpMethod == "POST" then
      var user := Caller(req, jwt, env, now);
      if user.None? then Outcome(Response(401, ErrorBody("Unauthorized")), db)
      else
        var content := Field(req, "content");
        if !Truthy(content) then Outcome(Response(400, ErrorBody("Missing content")), db)
        else
          var created := AddPost(db, content.value, user.value.id, now);
          Outcome(Response(201, PostBody(WithAuthor(created.1, created.0))), created.1)
    else
      Outcome(MethodNotAllowed(), db)
  }

  /** The handler run against the container in place: for a POST that
      passes both guards, one createPost call; it does what Handle describes. */
  method Serve(store: Db, req: Request, jwt: Jwt, env: Option<string>, now: int) returns (res: Response)
    modifies store
    ensures Outcome(res, store.Value()) == Handle(req, old(store.Value()), jwt, env, now)
  {
    if req.httpMethod == "GET" {
      return Response(200, PostList(ListPosts(store.Value())));
    }
    if req.httpMethod == "POST" {
      var user := Caller(req, jwt, env, now);
      if user.None? {
        return Response(401, ErrorBody("Unauthorized"));
      }
      var content := Field(req, "content");
      if !Truthy(content) {
        return Response(400, ErrorBody("Missing content"));
      }
      var p := store.CreatePost(content.value, user.value.id, now);
      return Response(201, PostBody(WithAuthor(store.Value(), p)));
    }
    return MethodNotAllowed();
  }

  /** Authentication comes first: a POST with neither a valid token nor any
      content is refused as unauthenticated, not as a bad request. */
  lemma AuthenticationBeforeContent(req: Request, db: Container, jwt: Jwt, env: Option<string>, now: int)
    requires req.httpMethod == "POST" && Caller(req, jwt, env, now).None? && !Truthy(Field(req, "content"))
    ensures Handle(req, db, jwt, env, now).response.status == 401
    ensures Handle(req, db, jwt, env, now).db == db
  {
  }
}
