/** POST /api/v1/auth/register: method guard, missing-field guard, password
    policy, then one createUser call whose duplicate error becomes 409. */
module Register {
  import opened Wrappers
  import opened Store
  import opened Auth
  import opened Api

  const WeakPasswordMessage := "Password must be at least 8 characters and contain no spaces"
  const Conflict := "Email or username already exists"

  /** The characters the regular expression class `\s` matches: six ASCII
      controls and the space, and the Unicode space separators, all of them
      inside the Basic Multilingual Plane. */
  function IsJsWhitespace(c: char): (b: bool)
    ensures c as int < 0x80 ==>
      (b <==> c == '\t' || c == '\n' || c == '\U{000B}' || c == '\U{000C}' || c == '\r' || c == ' ')
    ensures '!' <= c <= '~' ==> !b
    ensures b ==> (c as int) < 0x1_0000
  {
    || c == '\t' || c == '\n' || c == '\U{000B}' || c == '\U{000C}' || c == '\r' || c == ' '
    || c == '\U{00A0}' || c == '\U{1680}' || ('\U{2000}' <= c <= '\U{200A}')
    || c == '\U{2028}' || c == '\U{2029}' || c == '\U{202F}' || c == '\U{205F}'
    || c == '\U{3000}' || c == '\U{FEFF}'
  }

  /** `s.length`: characters outside the Basic Multilingual Plane count twice. */
  function Utf16Length(s: string): (n: nat)
    ensures |s| <= n <= 2 * |s|
    ensures (forall i :: 0 <= i < |s| ==> (s[i] as int) < 0x1_0000) ==> n == |s|
    ensures (forall i :: 0 <= i < |s| ==> (s[i] as int) >= 0x1_0000) ==> n == 2 * |s|
    decreases |s|
  {
    if s == [] then 0
    else
      assert forall i :: 0 <= i < |s| - 1 ==> s[1..][i] == s[i + 1];
      (if s[0] as int >= 0x1_0000 then 2 else 1) + Utf16Length(s[1..])
  }

  /** Lengths add up: the UTF-16 length of a concatenation is the sum of the parts' lengths. */
  lemma {:induction false} Utf16LengthAppend(a: string, b: string)
    ensures Utf16Length(a + b) == Utf16Length(a) + Utf16Length(b)
    decreases |a|
  {
    if a == [] {
      assert a + b == b;
    } else {
      assert (a + b)[0] == a[0];
      assert (a + b)[1..] == a[1..] + b;
      Utf16LengthAppend(a[1..], b);
    }
  }

  /** The password policy's rejection: fewer than eight UTF-16 units, or
      any character the regular expression class `\s` matches. */
  function WeakPassword(password: string): (weak: bool)
    ensures !weak <==>
      Utf16Length(password) >= 8 && forall i :: 0 <= i < |password| ==> !IsJsWhitespace(password[i])
    ensures !weak ==> |password| >= 4 && ' ' !in password && '\t' !in password && '\n' !in password
  {
    Utf16Length(password) < 8 || exists i :: 0 <= i < |password| && IsJsWhitespace(password[i])
  }

  /** The catch block: the duplicate code becomes 409, any other error 500. */
  function ErrorResponse(err: StoreError): (r: Response)
    ensures r.status == 409 <==> err.code == DuplicateCode
    ensures r.status == 409 || r.status == 500
    ensures r.status == 409 ==> r.payload == ErrorBody(Conflict)
    ensures r.status == 500 ==> r.payload == ErrorBody("Server error")
  {
    if err.code == DuplicateCode then Response(409, ErrorBody(Conflict))
    else Response(500, ErrorBody("Server error"))
  }

  /** The identity a valid request asks for is already held: some user has
      the email or the username. */
  ghost predicate Taken(db: Container, email: string, username: string) {
    exists i :: 0 <= i < |db.users| && (db.users[i].email == email || db.users[i].username == username)
  }

  /** Email, username and password are all present and non-empty. */
  predicate HasFields(req: Request) {
    Truthy(Field(req, "email")) && Truthy(Field(req, "username")) && Truthy(Field(req, "password"))
  }

  function Handle(req: Request, db: Container, bcrypt: Bcrypt, jwt: Jwt, env: Option<string>, now: int)
    : (r: Outcome)
    ensures req.httpMethod != "POST" ==> r == Outcome(MethodNotAllowed(), db)
    ensures req.httpMethod == "POST" && !HasFields(req) ==>
      r == Outcome(Response(400, ErrorBody(MissingFields)), db)
    ensures req.httpMethod == "POST" && HasFields(req) && WeakPassword(Field(req, "password").value) ==>
      r == Outcome(Response(400, ErrorBody(WeakPasswordMessage)), db)
    ensures r.response.status == 409 <==>
      && req.httpMethod == "POST" && HasFields(req) && !WeakPassword(Field(req, "password").value)
      && Taken(db, Field(req, "email").value, Field(req, "username").value)
    ensures r.response.status == 201 <==>
      && req.httpMethod == "POST" && HasFields(req) && !WeakPassword(Field(req, "password").value)
      && !Taken(db, Field(req, "email").value, Field(req, "username").value)
    ensures r.response.status == 409 ==> r.response.payload == ErrorBody(Conflict)
    ensures r.response.status != 201 ==> r.db == db
    ensures r.response.status == 201 ==>
      var email, username := Field(req, "email").value, Field(req, "username").value;
      var user := User(db.nextUserId, email, username, bcrypt.hash(Field(req, "password").value, SaltRounds), now);
      && r.db == db.(users := db.users + [user], nextUserId := db.nextUserId + 1)
      && r.response.payload ==
           AuthBody(PublicUser(user.id, email, username), SignToken(jwt, env, Claims(user.id, username), now))
  {
    if req.httpMethod != "POST" then Outcome(MethodNotAllowed(), db)
    else
      var email, username, password := Field(req, "email"), Field(req, "username"), Field(req, "password");
      if !Truthy(email) || !Truthy(username) || !Truthy(password) then
        Outcome(Response(400, ErrorBody(MissingFields)), db)
      else if WeakPassword(password.value) then
        Outcome(Response(400, ErrorBody(WeakPasswordMessage)), db)
      else
        var hashed := bcrypt.hash(password.value, SaltRounds);
        var created := AddUser(db, email.value, username.value, hashed, now);
        match created.0
        case Failure(err) => Outcome(ErrorResponse(err), created.1)
        case Success(user) =>
          var token := SignToken(jwt, env, Claims(user.id, user.username), now);
          Outcome(Response(201, AuthBody(Public(user), token)), created.1)
  }

  /** The handler run against the container in place: the guards, then
      the one createUser call; it does what Handle describes. */
  method Serve(store: Db, req: Request, bcrypt: Bcrypt, jwt: Jwt, env: Option<string>, now: int)
    returns (res: Response)
    modifies store
    ensures Outcome(res, store.Value()) == Handle(req, old(store.Value()), bcrypt, jwt, env, now)
  {
    if req.httpMethod != "POST" {
      return MethodNotAllowed();
    }
    var email, username, password := Field(req, "email"), Field(req, "username"), Field(req, "password");
    if !Truthy(email) || !Truthy(username) || !Truthy(password) {
      return Response(400, ErrorBody(MissingFields));
    }
    if WeakPassword(password.value) {
      return Response(400, ErrorBody(WeakPasswordMessage));
    }
    var hashed := bcrypt.hash(password.value, SaltRounds);
    var created := store.CreateUser(email.value, username.value, hashed, now);
    match created {
      case Failure(err) =>
        res := ErrorResponse(err);
      case Success(user) =>
        var token := SignToken(jwt, env, Claims(user.id, user.username), now);
        res := Response(201, AuthBody(Public(user), token));
    }
  }

  /** Seven characters, or a space anywhere, are refused whatever the other
      fields hold, and nothing is stored. */
  lemma PolicyExamples(req: Request, db: Container, bcrypt: Bcrypt, jwt: Jwt, env: Option<string>, now: int)
    requires req.httpMethod == "POST"
    requires Truthy(Field(req, "email")) && Truthy(Field(req, "username"))
    requires Field(req, "password") == Some("abcdefg") || Field(req, "password") == Some("abcd efgh")
    ensures Handle(req, db, bcrypt, jwt, env, now) == Outcome(Response(400, ErrorBody(WeakPasswordMessage)), db)
  {
    if Field(req, "password") == Some("abcdefg") {
      assert Utf16Length("abcdefg") == 7;
    } else {
      assert "abcd efgh"[4] == ' ';
    }
  }
}
