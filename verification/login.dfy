/** POST /api/v1/auth/login: method guard, missing-field guard, one lookup
    by email or username, one password comparison. It only reads the store,
    so it returns a response and no container. */
module Login {
  import opened Wrappers
  import opened Store
  import opened Auth
  import opened Api

  const InvalidCredentials := "Invalid credentials"

  /** Identifier and password are both present and non-empty. */
  predicate HasFields(req: Request) {
    Truthy(Field(req, "identifier")) && Truthy(Field(req, "password"))
  }

  /** The handler: the method and field guards, then one lookup by email or
      username and one password comparison; 200 with a fresh token for the
      first matching user whose digest accepts the password, 401 otherwise. */
  function Handle(req: Request, db: Container, bcrypt: Bcrypt, jwt: Jwt, env: Option<string>, now: int)
    : (r: Response)
    ensures req.httpMethod != "POST" ==> r == MethodNotAllowed()
    ensures req.httpMethod == "POST" && !HasFields(req) ==> r == Response(400, ErrorBody(MissingFields))
    ensures r.status == 200 || r.status == 400 || r.status == 401 || r.status == 405
    ensures r.status == 401 ==> r.payload == ErrorBody(InvalidCredentials)
    ensures req.httpMethod == "POST" && HasFields(req) ==>
      (FindUserByIdentifier(db, Field(req, "identifier").value).None? ==> r.status == 401)
    ensures r.status == 200 ==>
      && req.httpMethod == "POST" && HasFields(req)
      && exists i ::
           && IsFirst(db.users, MatchesIdentifier(Field(req, "identifier").value), i)
           && bcrypt.compare(Field(req, "password").value, db.users[i].password)
           && r.payload == AuthBody(Public(db.users[i]),
                SignToken(jwt, env, Claims(db.users[i].id, db.users[i].username), now))
    ensures req.httpMethod == "POST" && HasFields(req) ==>
      (r.status == 200 <==>
        var found := FindUserByIdentifier(db, Field(req, "identifier").value);
        found.Some? && bcrypt.compare(Field(req, "password").value, found.value.password))
  {
    if req.httpMethod != "POST" then MethodNotAllowed()
    else
      var identifier, password := Field(req, "identifier"), Field(req, "password");
      if !Truthy(identifier) || !Truthy(password) then Response(400, ErrorBody(MissingFields))
      else
        match FindUserByIdentifier(db, identifier.value)
        case None => Response(401, ErrorBody(InvalidCredentials))
        case Some(user) =>
          if !bcrypt.compare(password.value, user.password) then Response(401, ErrorBody(InvalidCredentials))
          else
            var token := SignToken(jwt, env, Claims(user.id, user.username), now);
            Response(200, AuthBody(Public(user), token))
  }

  /** An unknown identifier and a wrong password get the very same response,
      so a caller cannot tell which of the two was wrong. */
  lemma FailuresLookAlike(unknown: Request, wrong: Request, db: Container, bcrypt: Bcrypt,
                          jwt: Jwt, env: Option<string>, now: int)
    requires unknown.httpMethod == "POST" && HasFields(unknown)
    requires FindUserByIdentifier(db, Field(unknown, "identifier").value).None?
    requires wrong.httpMethod == "POST" && HasFields(wrong)
    requires FindUserByIdentifier(db, Field(wrong, "identifier").value).Some?
    requires !bcrypt.compare(Field(wrong, "password").value,
                             FindUserByIdentifier(db, Field(wrong, "identifier").value).value.password)
    ensures Handle(unknown, db, bcrypt, jwt, env, now) == Handle(wrong, db, bcrypt, jwt, env, now)
    ensures Handle(unknown, db, bcrypt, jwt, env, now) == Response(401, ErrorBody(InvalidCredentials))
  {
  }
}
