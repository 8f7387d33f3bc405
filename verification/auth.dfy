/** Token service: bearer-header parsing, and the JSON Web Token library
    behind `signToken` / `verifyToken`, which the model keeps abstract. */
module Auth {
  import opened Wrappers

  /** The payload a token is signed with: `{ id, username }`. */
  datatype Claims = Claims(id: int, username: string)

  /** The jsonwebtoken library as two functions:
      `sign(claims, secret, expiresInSeconds, issuedAt)` gives the token text;
      `verify(token, secret, now)` gives the claims, or a `Failure` where the
      library throws (bad signature, malformed token, expired). */
  datatype Jwt = Jwt(sign: (Claims, string, int, int) -> string,
                     verify: (string, string, int) -> Result<Claims, string>)

  /** The secret used when `JWT_SECRET` is unset or empty. */
  const DefaultSecret := "replace-with-a-secure-secret"

  /** `expiresIn: '7d'`. The model's clock counts whole seconds. */
  const SevenDays := 7 * 24 * 60 * 60

  /** What the model assumes of the library: a signed token verifies, under
      the same secret, to the claims it was signed with until `issuedAt +
      expiresIn`, and fails from then on. */
  ghost predicate Sound(jwt: Jwt) {
    forall c, secret, life, issued, now ::
      (jwt.verify(jwt.sign(c, secret, life, issued), secret, now).Success? <==> now < issued + life) &&
      (jwt.verify(jwt.sign(c, secret, life, issued), secret, now).Success? ==>
         jwt.verify(jwt.sign(c, secret, life, issued), secret, now).value == c)
  }

  /** Signed tokens are compact: non-empty and free of spaces (base64url
      segments joined by dots). */
  ghost predicate Compact(jwt: Jwt) {
    forall c, secret, life, issued ::
      jwt.sign(c, secret, life, issued) != "" && ' ' !in jwt.sign(c, secret, life, issued)
  }

  /** `process.env.JWT_SECRET || DefaultSecret`: the fallback is taken
      exactly when the variable is unset or empty, so the secret is never empty. */
  function Secret(env: Option<string>): (secret: string)
    ensures secret != ""
    ensures env.Some? && env.value != "" ==> secret == env.value
    ensures env.None? || env.value == "" ==> secret == DefaultSecret
  {
    if env.Some? && env.value != "" then env.value else DefaultSecret
  }

  /** signToken: always the configured secret and a seven-day lifetime, so
      the token verifies to its claims until seven days after `now` and not
      from then on; a compact library gives a token a bearer header can carry. */
  function SignToken(jwt: Jwt, env: Option<string>, claims: Claims, now: int): (token: string)
    ensures Sound(jwt) ==>
      forall later :: VerifyToken(jwt, env, token, later) == (if later < now + SevenDays then Some(claims) else None)
    ensures Compact(jwt) ==> token != "" && ' ' !in token
  {
    jwt.sign(claims, Secret(env), SevenDays, now)
  }

  /** verifyToken: never throws; any failure of the library becomes None. */
  function VerifyToken(jwt: Jwt, env: Option<string>, token: string, now: int): (r: Option<Claims>)
    ensures r.Some? <==> jwt.verify(token, Secret(env), now).Success?
    ensures r.Some? ==> r.value == jwt.verify(token, Secret(env), now).value
  {
    match jwt.verify(token, Secret(env), now)
    case Success(claims) => Some(claims)
    case Failure(_) => None
  }

  /** A token from signToken verifies to its claims for seven days and not after. */
  lemma TokenLastsSevenDays(jwt: Jwt, env: Option<string>, claims: Claims, issued: int, now: int)
    requires Sound(jwt)
    ensures now < issued + SevenDays ==>
      VerifyToken(jwt, env, SignToken(jwt, env, claims, issued), now) == Some(claims)
    ensures issued + SevenDays <= now ==>
      VerifyToken(jwt, env, SignToken(jwt, env, claims, issued), now) == None
  {
    var v := jwt.verify(jwt.sign(claims, Secret(env), SevenDays, issued), Secret(env), now);
    assert v.Success? <==> now < issued + SevenDays;
  }

  // ---------------------------------------------------------------------
  // String.prototype.split on one character

  /** The number of occurrences of `c` in `s`. */
  function Count(s: string, c: char): nat
    decreases |s|
  {
    if s == [] then 0 else (if s[0] == c then 1 else 0) + Count(s[1..], c)
  }

  /** The parts joined back with the separator between them. */
  function Join(parts: seq<string>, sep: char): string
    requires |parts| >= 1
    decreases |parts|
  {
    if |parts| == 1 then parts[0] else parts[0] + [sep] + Join(parts[1..], sep)
  }

  lemma JoinConsHead(parts: seq<string>, sep: char, c: char)
    requires |parts| >= 1
    ensures Join([[c] + parts[0]] + parts[1..], sep) == [c] + Join(parts, sep)
  {
    var q := [[c] + parts[0]] + parts[1..];
    assert q[1..] == parts[1..];
  }

  /** `s.split(sep)`: one more part than there are separators, no part
      contains the separator, and joining the parts gives `s` back. */
  function Split(s: string, sep: char): (parts: seq<string>)
    ensures |parts| == Count(s, sep) + 1
    ensures forall i :: 0 <= i < |parts| ==> sep !in parts[i]
    ensures Join(parts, sep) == s
    decreases |s|
  {
    if s == [] then [""]
    else
      var rest := Split(s[1..], sep);
      assert s == [s[0]] + s[1..];
      if s[0] == sep then
        assert ([""] + rest)[1..] == rest;
        [""] + rest
      else
        JoinConsHead(rest, sep, s[0]);
        [[s[0]] + rest[0]] + rest[1..]
  }

  /** Splitting a string that starts with a separator-free `a`. */
  lemma {:induction false} SplitFreePrefix(a: string, t: string, sep: char)
    requires sep !in a
    ensures Split(a + t, sep) == [a + Split(t, sep)[0]] + Split(t, sep)[1..]
    decreases |a|
  {
    var st := Split(t, sep);
    if a != [] {
      SplitFreePrefix(a[1..], t, sep);
      var rest := Split(a[1..] + t, sep);
      assert rest == [a[1..] + st[0]] + st[1..];
      assert (a + t)[1..] == a[1..] + t;
      assert (a + t)[0] == a[0] && a[0] != sep;
      assert Split(a + t, sep) == [[a[0]] + rest[0]] + rest[1..];
      assert rest[0] == a[1..] + st[0] && rest[1..] == st[1..];
      assert [a[0]] + (a[1..] + st[0]) == a + st[0];
    } else {
      assert a + t == t;
      assert a + st[0] == st[0];
      assert st == [st[0]] + st[1..];
    }
  }

  lemma SplitAfterSep(rest: string, sep: char)
    ensures Split([sep] + rest, sep) == [""] + Split(rest, sep)
  {
    assert ([sep] + rest)[1..] == rest;
  }

  /** The converse round trip: separator-free parts are split back exactly. */
  lemma {:induction false} SplitJoin(parts: seq<string>, sep: char)
    requires |parts| >= 1
    requires forall i :: 0 <= i < |parts| ==> sep !in parts[i]
    ensures Split(Join(parts, sep), sep) == parts
    decreases |parts|
  {
    var head := parts[0];
    assert sep !in head;
    if |parts| == 1 {
      SplitFreePrefix(head, "", sep);
      assert head + "" == head;
    } else {
      var tail := parts[1..];
      var rest := Join(tail, sep);
      assert forall i :: 0 <= i < |tail| ==> sep !in tail[i] by {
        forall i | 0 <= i < |tail| ensures sep !in tail[i] { assert tail[i] == parts[i + 1]; }
      }
      SplitJoin(tail, sep);
      var t := [sep] + rest;
      SplitAfterSep(rest, sep);
      var st := Split(t, sep);
      assert st == [""] + tail;
      SplitFreePrefix(head, t, sep);
      assert Join(parts, sep) == head + t;
      assert head + st[0] == head;
      assert st[1..] == tail;
      assert parts == [head] + tail;
    }
  }

  // ---------------------------------------------------------------------
  // getTokenFromReq

  /** getTokenFromReq: the second of exactly two space-separated words of
      the Authorization header; the first word is not checked. */
  function GetTokenFromReq(authorization: Option<string>): (token: Option<string>)
    ensures token.Some? <==> authorization.Some? && Count(authorization.value, ' ') == 1
    ensures token.Some? ==> ' ' !in token.value
    ensures token.Some? ==>
      exists scheme :: ' ' !in scheme && authorization.value == scheme + " " + token.value
  {
    if authorization.None? || authorization.value == "" then None
    else
      var parts := Split(authorization.value, ' ');
      if |parts| != 2 then None
      else
        assert Join(parts, ' ') == parts[0] + " " + Join(parts[1..], ' ');
        assert parts[1..] == [parts[1]];
        Some(parts[1])
  }

  /** Any one-word scheme followed by one space and a space-free token
      yields that token. */
  lemma BearerRoundTrip(scheme: string, token: string)
    requires ' ' !in scheme && ' ' !in token
    ensures GetTokenFromReq(Some(scheme + " " + token)) == Some(token)
  {
    var parts := [scheme, token];
    assert Join(parts, ' ') == scheme + " " + token by {
      assert parts[1..] == [token];
    }
    SplitJoin(parts, ' ');
  }

  lemma {:induction false} CountAppend(a: string, b: string, c: char)
    ensures Count(a + b, c) == Count(a, c) + Count(b, c)
    decreases |a|
  {
    if a == [] {
      assert a + b == b;
    } else {
      CountAppend(a[1..], b, c);
      assert (a + b)[1..] == a[1..] + b;
    }
  }

  lemma {:induction false} CountAbsent(s: string, c: char)
    requires c !in s
    ensures Count(s, c) == 0
    decreases |s|
  {
    if s != [] {
      assert forall k :: 0 <= k < |s| - 1 ==> s[1..][k] == s[k + 1];
      CountAbsent(s[1..], c);
    }
  }

  /** A missing or empty header, or a single word, yields no token. */
  lemma NoTokenWithoutSpace()
    ensures GetTokenFromReq(None) == None
    ensures GetTokenFromReq(Some("")) == None
    ensures GetTokenFromReq(Some("Bearer")) == None
  {
    CountAbsent("Bearer", ' ');
  }

  /** Three words, or two words with a double space, yield no token. */
  lemma NoTokenWithTwoSpaces()
    ensures GetTokenFromReq(Some("Bearer a b")) == None
    ensures GetTokenFromReq(Some("Bearer  x")) == None
  {
    CountAbsent("Bearer", ' ');
    CountAbsent("a", ' ');
    CountAbsent("b", ' ');
    CountAbsent("x", ' ');
    assert Count(" ", ' ') == 1;
    CountAppend("Bearer", " a", ' ');
    CountAppend(" ", "a", ' ');
    CountAppend("Bearer a", " b", ' ');
    CountAppend(" ", "b", ' ');
    assert "Bearer" + " a" == "Bearer a";
    assert "Bearer a" + " b" == "Bearer a b";
    CountAppend("Bearer", "  x", ' ');
    CountAppend(" ", " x", ' ');
    assert "Bearer" + "  x" == "Bearer  x";
    assert " " + " x" == "  x";
    assert " " + "a" == " a";
    assert " " + "b" == " b";
    assert " " + "x" == " x";
  }

  /** The scheme word is not checked, and an empty second word is returned as is. */
  lemma SchemeNotChecked()
    ensures GetTokenFromReq(Some("Basic abc")) == Some("abc")
    ensures GetTokenFromReq(Some("Bearer ")) == Some("")
  {
    BearerRoundTrip("Basic", "abc");
    assert "Basic" + " " + "abc" == "Basic abc";
    BearerRoundTrip("Bearer", "");
    assert "Bearer" + " " + "" == "Bearer ";
  }
}
