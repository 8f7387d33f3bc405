/** Properties that span two requests: registering, then logging in or
    posting with the token registration returned. */
module Flows {
  import opened Wrappers
  import opened Store
  import opened Auth
  import opened Api
  import Register
  import Login
  import Posts

  /** A registered user logs in with the password and either identifier, as
      long as no earlier user answers to that identifier: registration only
      compares emails with emails and usernames with usernames. */
  lemma RegisteredUserCanLogIn(reg: Request, login: Request, db: Container, bcrypt: Bcrypt,
                               jwt: Jwt, env: Option<string>, now: int, later: int)
    requires Matches(bcrypt)
    requires Register.Handle(reg, db, bcrypt, jwt, env, now).response.status == 201
    requires login.httpMethod == "POST" && Field(login, "password") == Field(reg, "password")
    requires Field(login, "identifier") == Field(reg, "email") || Field(login, "identifier") == Field(reg, "username")
    requires FindUserByIdentifier(db, Field(login, "identifier").value).None?
    ensures
      var after := Register.Handle(reg, db, bcrypt, jwt, env, now).db;
      var r := Login.Handle(login, after, bcrypt, jwt, env, later);
      && r.status == 200
      && r.payload == AuthBody(PublicUser(db.nextUserId, Field(reg, "email").value, Field(reg, "username").value),
                               SignToken(jwt, env, Claims(db.nextUserId, Field(reg, "username").value), later))
  {
    var after := Register.Handle(reg, db, bcrypt, jwt, env, now).db;
    var ident := Field(login, "identifier").value;
    var password := Field(reg, "password").value;
    var user := User(db.nextUserId, Field(reg, "email").value, Field(reg, "username").value,
                     bcrypt.hash(password, SaltRounds), now);
    assert after.users == db.users + [user];
    var k := |db.users|;
    assert after.users[k] == user;
    assert MatchesIdentifier(ident)(user);
    forall j | 0 <= j < k ensures !MatchesIdentifier(ident)(after.users[j]) {
      assert after.users[j] == db.users[j];
    }
    FindIndexIsTheFirst(after.users, MatchesIdentifier(ident), k);
    assert FindUserByIdentifier(after, ident) == Some(user);
    assert bcrypt.compare(password, user.password);
  }

  /** A toy bcrypt whose digest is the password behind a marker. */
  function ToyBcrypt(): (b: Bcrypt)
    ensures Matches(b)
  {
    Bcrypt((p: string, rounds: int) => "$" + p, (p: string, digest: string) => digest == "$" + p)
  }

  /** "bob-secret" passes the password policy. */
  lemma BobSecretIsStrong()
    ensures !Register.WeakPassword("bob-secret")
  {
    var password := "bob-secret";
    assert |password| == 10;
    assert forall i :: 0 <= i < |password| ==> '!' <= password[i] <= '~';
    assert Register.Utf16Length(password) >= 10;
  }

  /** No user of a container holding only Ann has Bob's email or username. */
  lemma BobIsNew(ann: User)
    requires ann == User(1, "ann@x.org", "bob@x.org", "$ann-secret", 0)
    ensures !Register.Taken(Container([ann], [], 2, 1), "bob@x.org", "bob")
  {
    assert "ann@x.org"[0] != "bob@x.org"[0];
    assert "bob@x.org" != "bob" by { assert |"bob@x.org"| != |"bob"|; }
  }

  /** Bob's registration against a container holding only Ann succeeds,
      and Ann stays the first user. */
  lemma BobRegisters(ann: User, reg: Request, jwt: Jwt, env: Option<string>, now: int)
    requires ann == User(1, "ann@x.org", "bob@x.org", "$ann-secret", 0)
    requires reg == Request("POST", None, map["email" := "bob@x.org", "username" := "bob", "password" := "bob-secret"])
    ensures Register.Handle(reg, Container([ann], [], 2, 1), ToyBcrypt(), jwt, env, now).response.status == 201
    ensures Register.Handle(reg, Container([ann], [], 2, 1), ToyBcrypt(), jwt, env, now).db.users[0] == ann
  {
    assert Field(reg, "password") == Some("bob-secret");
    assert Field(reg, "email") == Some("bob@x.org");
    assert Field(reg, "username") == Some("bob");
    BobSecretIsStrong();
    BobIsNew(ann);
  }

  /** With Ann first, the identifier "bob@x.org" finds Ann, and Bob's
      password does not open her account. */
  lemma AnnAnswersFirst(ann: User, db: Container, login: Request, jwt: Jwt, env: Option<string>, now: int)
    requires ann == User(1, "ann@x.org", "bob@x.org", "$ann-secret", 0)
    requires |db.users| > 0 && db.users[0] == ann
    requires login == Request("POST", None, map["identifier" := "bob@x.org", "password" := "bob-secret"])
    ensures FindUserByIdentifier(db, "bob@x.org") == Some(ann)
    ensures Login.Handle(login, db, ToyBcrypt(), jwt, env, now).status == 401
  {
    assert MatchesIdentifier("bob@x.org")(ann);
    FindIndexIsTheFirst(db.users, MatchesIdentifier("bob@x.org"), 0);
    assert Field(login, "identifier") == Some("bob@x.org");
    assert Field(login, "password") == Some("bob-secret");
    assert "$ann-secret" != "$" + "bob-secret" by { assert "$ann-secret"[1] != ("$" + "bob-secret")[1]; }
  }

  /** The shadowing the side condition above rules out: Ann registered the
      username "bob@x.org"; Bob then registers with that address as his email
      and succeeds, but logging in with his email finds Ann's account first
      and is refused. */
  lemma EmailShadowedByEarlierUsername(jwt: Jwt, env: Option<string>, now: int)
    ensures
      var ann := User(1, "ann@x.org", "bob@x.org", "$ann-secret", 0);
      var db := Container([ann], [], 2, 1);
      var reg := Request("POST", None, map["email" := "bob@x.org", "username" := "bob", "password" := "bob-secret"]);
      var login := Request("POST", None, map["identifier" := "bob@x.org", "password" := "bob-secret"]);
      var registered := Register.Handle(reg, db, ToyBcrypt(), jwt, env, now);
      && registered.response.status == 201
      && FindUserByIdentifier(registered.db, "bob@x.org") == Some(ann)
      && Login.Handle(login, registered.db, ToyBcrypt(), jwt, env, now).status == 401
  {
    var ann := User(1, "ann@x.org", "bob@x.org", "$ann-secret", 0);
    var reg := Request("POST", None, map["email" := "bob@x.org", "username" := "bob", "password" := "bob-secret"]);
    var login := Request("POST", None, map["identifier" := "bob@x.org", "password" := "bob-secret"]);
    BobRegisters(ann, reg, jwt, env, now);
    var registered := Register.Handle(reg, Container([ann], [], 2, 1), ToyBcrypt(), jwt, env, now);
    AnnAnswersFirst(ann, registered.db, login, jwt, env, now);
  }

  /** The token registration returns, sent as `Bearer <token>` within seven
      days, authenticates a post, which is stored under the new user's id and
      returned joined with that user. */
  lemma RegisteredTokenAuthorizesPost(reg: Request, post: Request, db: Container, bcrypt: Bcrypt,
                                      jwt: Jwt, env: Option<string>, now: int, later: int)
    requires Valid(db) && Sound(jwt) && Compact(jwt)
    requires Register.Handle(reg, db, bcrypt, jwt, env, now).response.status == 201
    requires post.httpMethod == "POST" && Truthy(Field(post, "content"))
    requires post.authorization ==
      Some("Bearer " + Register.Handle(reg, db, bcrypt, jwt, env, now).response.payload.token)
    requires later < now + SevenDays
    ensures
      var after := Register.Handle(reg, db, bcrypt, jwt, env, now).db;
      var r := Posts.Handle(post, after, jwt, env, later);
      && r.response.status == 201
      && r.response.payload.view.post.authorId == db.nextUserId
      && r.response.payload.view.author ==
           Some(PublicUser(db.nextUserId, Field(reg, "email").value, Field(reg, "username").value))
  {
    var registered := Register.Handle(reg, db, bcrypt, jwt, env, now);
    var after := registered.db;
    var claims := Claims(db.nextUserId, Field(reg, "username").value);
    var token := registered.response.payload.token;
    assert token == SignToken(jwt, env, claims, now);
    assert ' ' !in "Bearer";
    assert ' ' !in token && token != "";
    BearerRoundTrip("Bearer", token);
    assert "Bearer" + " " + token == "Bearer " + token;
    TokenLastsSevenDays(jwt, env, claims, now, later);
    assert Posts.Caller(post, jwt, env, later) == Some(claims);
    var user := User(db.nextUserId, Field(reg, "email").value, Field(reg, "username").value,
                     bcrypt.hash(Field(reg, "password").value, SaltRounds), now);
    var k := |db.users|;
    assert after.users == db.users + [user] && after.users[k] == user;
    forall j | 0 <= j < k ensures !UserHasId(db.nextUserId)(after.users[j]) {
      assert after.users[j] == db.users[j];
    }
    FindIndexIsTheFirst(after.users, UserHasId(db.nextUserId), k);
    assert Posts.AuthorOf(after, db.nextUserId) == Some(Public(user));
  }
}
