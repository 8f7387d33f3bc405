/** The request and response shapes the three handlers share, and the
    bcrypt library, which the model keeps abstract. */
module Api {
  import opened Wrappers
  import opened Store

  /** The parts of an incoming request the handlers read: the HTTP method, the
      Authorization header, and the string fields of the JSON body (a field
      that is absent or null is not in the map). */
  datatype Request = Request(httpMethod: string, authorization: Option<string>, body: map<string, string>)

  function Field(req: Request, name: string): Option<string> {
    if name in req.body then Some(req.body[name]) else None
  }

  /** JavaScript truthiness of a string field: present and not empty. */
  predicate Truthy(v: Option<string>) {
    v.Some? && v.value != ""
  }

  /** The user fields a response may carry; there is no password field. */
  datatype PublicUser = PublicUser(id: int, email: string, username: string)

  /** A post joined with its author, or with `null` when no user has its `authorId`. */
  datatype PostView = PostView(post: Post, author: Option<PublicUser>)

  /** The JSON bodies the handlers send. */
  datatype Payload =
    | ErrorBody(error: string)
    | AuthBody(user: PublicUser, token: string)
    | PostList(posts: seq<PostView>)
    | PostBody(view: PostView)

  datatype Response = Response(status: int, payload: Payload)

  /** The response of a handler that may write the store, with the container it leaves. */
  datatype Outcome = Outcome(response: Response, db: Container)

  /** The bcryptjs library: `hash(plaintext, saltRounds)` and `compare(plaintext, digest)`. */
  datatype Bcrypt = Bcrypt(hash: (string, int) -> string, compare: (string, string) -> bool)

  /** The 400 body both authentication handlers send when a field is absent or empty. */
  const MissingFields := "Missing fields"

  const SaltRounds := 10

  /** What the model assumes of bcrypt: a password matches its own digest. */
  ghost predicate Matches(bcrypt: Bcrypt) {
    forall p :: bcrypt.compare(p, bcrypt.hash(p, SaltRounds))
  }

  function Public(u: User): PublicUser {
    PublicUser(u.id, u.email, u.username)
  }

  function MethodNotAllowed(): Response {
    Response(405, ErrorBody("Method not allowed"))
  }
}
