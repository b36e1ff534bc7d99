/** The sign-up and log-in routes and the token middleware
    (backend/src/routes/auth.ts). A signed token is represented by the claims
    it carries; checking a token's signature and expiry is the `verify`
    parameter. */
module AuthRoutes {
  import opened Common
  import opened Users
  import opened Store

  /** The payload of a signed token. */
  datatype Claims = Claims(userId: nat, username: string)

  /** A request body that passed a credentials schema. */
  datatype Credentials = Credentials(username: string, password: string)

  /** The user as the routes return it: no password hash. */
  datatype PublicUser = PublicUser(id: nat, username: string, createdAt: int)

  /** The status and body of a successful sign-up or log-in. */
  datatype AuthResponse = AuthResponse(status: nat, user: PublicUser, token: Claims)

  const UsernameMin := 3
  const UsernameMax := 50
  const PasswordMin := 6

  const TokenRequired := HttpError(401, "Access token required")
  const TokenRejected := HttpError(403, "Invalid or expired token")
  const UsernameTaken := HttpError(409, "Username already exists")
  const InvalidCredentials := HttpError(401, "Invalid credentials")
  const UserNotFound := HttpError(404, "User not found")

  /** `signupSchema.parse(req.body)` (lines 13-16). */
  function ParseSignup(body: Json): (r: Result<Credentials>)
    ensures r.Err? ==> r.failure == ValidationError
    ensures r.Ok? ==>
      && StringField(body, "username") == Some(r.value.username)
      && StringField(body, "password") == Some(r.value.password)
      && UsernameMin <= |r.value.username| <= UsernameMax
      && |r.value.password| >= PasswordMin
  {
    match (StringField(body, "username"), StringField(body, "password"))
    case (Some(username), Some(password)) =>
      if UsernameMin <= |username| <= UsernameMax && |password| >= PasswordMin then
        Ok(Credentials(username, password))
      else
        Err(ValidationError)
    case _ => Err(ValidationError)
  }

  /** `loginSchema.parse(req.body)` (lines 18-21). */
  function ParseLogin(body: Json): (r: Result<Credentials>)
    ensures r.Err? ==> r.failure == ValidationError
    ensures r.Ok? ==>
      && StringField(body, "username") == Some(r.value.username)
      && StringField(body, "password") == Some(r.value.password)
      && r.value.username != [] && r.value.password != []
  {
    match (StringField(body, "username"), StringField(body, "password"))
    case (Some(username), Some(password)) =>
      if username != [] && password != [] then Ok(Credentials(username, password)) else Err(ValidationError)
    case _ => Err(ValidationError)
  }

  /** A body with string fields `username` and `password` passes the sign-up
      schema exactly when the name has 3 to 50 characters and the password at
      least 6, and the log-in schema exactly when neither is empty; other
      fields do not matter. */
  lemma CredentialRules(fields: map<string, Json>, username: string, password: string)
    requires "username" in fields && fields["username"] == JString(username)
    requires "password" in fields && fields["password"] == JString(password)
    ensures ParseSignup(JObject(fields)).Ok? <==> 3 <= |username| <= 50 && |password| >= 6
    ensures ParseLogin(JObject(fields)).Ok? <==> username != [] && password != []
    ensures ParseSignup(JObject(fields)).Ok? ==> ParseSignup(JObject(fields)).value == Credentials(username, password)
  {
  }

  /** A body without a string `username` or `password` fails both schemas. */
  lemma MissingFieldRejected(body: Json)
    requires StringField(body, "username").None? || StringField(body, "password").None?
    ensures ParseSignup(body) == Err(ValidationError) && ParseLogin(body) == Err(ValidationError)
  {
  }

  /** `s.split(sep)` for a one-character separator. */
  function Split(s: string, sep: char): (parts: seq<string>)
    ensures |parts| >= 1
    ensures forall i :: 0 <= i < |parts| ==> sep !in parts[i]
  {
    if s == [] then [""]
    else
      var rest := Split(s[1..], sep);
      if s[0] == sep then [""] + rest else [[s[0]] + rest[0]] + rest[1..]
  }

  /** `parts.join(sep)` */
  function Join(parts: seq<string>, sep: char): string
    requires |parts| >= 1
  {
    if |parts| == 1 then parts[0] else parts[0] + [sep] + Join(parts[1..], sep)
  }

  /** Splitting loses nothing: joining the parts gives the string back. */
  lemma {:induction false} JoinSplit(s: string, sep: char)
    ensures Join(Split(s, sep), sep) == s
  {
    if s != [] {
      var rest := Split(s[1..], sep);
      JoinSplit(s[1..], sep);
      if s[0] == sep {
        assert ([""] + rest)[1..] == rest;
      } else if |rest| > 1 {
        var parts := [[s[0]] + rest[0]] + rest[1..];
        assert parts[1..] == rest[1..];
        assert Join(rest, sep) == rest[0] + [sep] + Join(rest[1..], sep);
        assert s == [s[0]] + s[1..];
      } else {
        assert s == [s[0]] + s[1..];
      }
    }
  }

  lemma SplitCons(c: char, t: string, sep: char)
    requires c != sep
    ensures Split([c] + t, sep) == [[c] + Split(t, sep)[0]] + Split(t, sep)[1..]
  {
    assert ([c] + t)[1..] == t;
  }

  lemma {:induction false} SplitPrefix(a: string, rest: string, sep: char)
    requires sep !in a
    ensures Split(a + rest, sep) == [a + Split(rest, sep)[0]] + Split(rest, sep)[1..]
  {
    var parts := Split(rest, sep);
    if a != [] {
      SplitPrefix(a[1..], rest, sep);
      var q := Split(a[1..] + rest, sep);
      assert a + rest == [a[0]] + (a[1..] + rest);
      SplitCons(a[0], a[1..] + rest, sep);
      assert q[0] == a[1..] + parts[0] && q[1..] == parts[1..];
      assert [a[0]] + q[0] == a + parts[0];
    } else {
      assert a + rest == rest;
      assert a + parts[0] == parts[0];
      assert [parts[0]] + parts[1..] == parts;
    }
  }

  /** Joining parts that hold no separator and splitting again gives the
      parts back. */
  lemma {:induction false} SplitJoin(parts: seq<string>, sep: char)
    requires |parts| >= 1
    requires forall i :: 0 <= i < |parts| ==> sep !in parts[i]
    ensures Split(Join(parts, sep), sep) == parts
  {
    if |parts| == 1 {
      SplitPrefix(parts[0], "", sep);
      assert parts[0] + "" == parts[0];
    } else {
      var tail := Join(parts[1..], sep);
      SplitJoin(parts[1..], sep);
      SplitPrefix(parts[0], [sep] + tail, sep);
      assert parts[0] + [sep] + tail == parts[0] + ([sep] + tail);
      assert ([sep] + tail)[1..] == tail;
      assert Split([sep] + tail, sep) == [""] + parts[1..];
      assert parts[0] + "" == parts[0];
    }
  }

  /** `authHeader && authHeader.split(' ')[1]`, with a missing or empty
      result as `None` (line 36). */
  function HeaderToken(header: Option<string>): (t: Option<string>)
    ensures t.Some? ==> t.value != [] && ' ' !in t.value
    ensures t.Some? ==> header.Some? && |Split(header.value, ' ')| >= 2 && Split(header.value, ' ')[1] == t.value
    ensures header.Some? && |Split(header.value, ' ')| >= 2 && Split(header.value, ' ')[1] != [] ==>
              t == Some(Split(header.value, ' ')[1])
  {
    match header
    case None => None
    case Some(h) =>
      var parts := Split(h, ' ');
      if |parts| >= 2 && parts[1] != [] then Some(parts[1]) else None
  }

  /** A header made of a scheme, one space and a token yields the token; the
      scheme itself is not checked. */
  lemma BearerToken(scheme: string, token: string)
    requires ' ' !in scheme && ' ' !in token && token != []
    ensures HeaderToken(Some(scheme + " " + token)) == Some(token)
  {
    SplitJoin([scheme, token], ' ');
    assert Join([scheme, token], ' ') == scheme + " " + token by {
      assert [scheme, token][1..] == [token];
    }
  }

  /** A header with no space in it yields no token. */
  lemma NoSpaceNoToken(h: string)
    requires ' ' !in h
    ensures HeaderToken(Some(h)) == None
  {
    SplitJoin([h], ' ');
  }

  /** `authenticateToken` (lines 34-49): 401 without a token, 403 when the
      token does not verify, and otherwise the claims it carries, which the
      next handler reads as `req.user`. */
  function Authenticate(header: Option<string>, verify: string -> Option<Claims>): (r: Result<Claims>)
    ensures r == Err(TokenRequired) <==> HeaderToken(header).None?
    ensures HeaderToken(header).Some? ==>
      var t := HeaderToken(header).value;
      && (r == Err(TokenRejected) <==> verify(t).None?)
      && (r.Ok? <==> verify(t).Some?)
      && (r.Ok? ==> r.value == verify(t).value)
  {
    match HeaderToken(header)
    case None => Err(TokenRequired)
    case Some(t) =>
      match verify(t)
      case None => Err(TokenRejected)
      case Some(claims) => Ok(claims)
  }

  /** `generateToken` (lines 26-31): the claims a user's token carries. */
  function TokenPayload(u: User): (c: Claims)
    ensures c.userId == u.id && c.username == u.username
  {
    Claims(u.id, u.username)
  }

  /** A token issued to a user, presented as `Bearer <token>` and accepted by
      the verifier, authenticates as that very user. */
  lemma IssuedTokenAuthenticates(u: User, token: string, verify: string -> Option<Claims>)
    requires ' ' !in token && token != []
    requires verify(token) == Some(TokenPayload(u))
    ensures Authenticate(Some("Bearer " + token), verify) == Ok(Claims(u.id, u.username))
  {
    BearerToken("Bearer", token);
    assert "Bearer" + " " + token == "Bearer " + token;
  }

  function Public(u: User): PublicUser
  {
    PublicUser(u.id, u.username, u.createdAt)
  }

  /** `POST /signup` (lines 52-95): refuses a body the schema rejects and a
      taken username (409), changing nothing; otherwise adds exactly one user
      with that name and the hash of the password, and answers 201 with the
      user and its token. The salt and the clock are parameters. */
  method Signup(db: Database, body: Json, salt: nat, now: int) returns (r: Result<AuthResponse>)
    requires db.Valid()
    modifies db`users
    ensures db.Valid()
    ensures ParseSignup(body).Err? ==> r == Err(ValidationError)
    ensures ParseSignup(body).Ok? && FindByUsername(old(db.users), ParseSignup(body).value.username).Some? ==>
      r == Err(UsernameTaken)
    ensures ParseSignup(body).Ok? && FindByUsername(old(db.users), ParseSignup(body).value.username).None? ==>
      r.Ok?
    ensures r.Err? ==> db.users == old(db.users)
    ensures r.Ok? ==>
      var c := ParseSignup(body).value;
      var u := User(|old(db.users)|, c.username, Some(Hash(c.password, salt)), now);
      && FindByUsername(old(db.users), c.username).None?
      && db.users == old(db.users) + [u]
      && r.value == AuthResponse(201, Public(u), TokenPayload(u))
  {
    var credentials := ParseSignup(body);
    if credentials.Err? {
      return Err(ValidationError);
    }
    var username, password := credentials.value.username, credentials.value.password;
    if FindByUsername(db.users, username).Some? {
      return Err(UsernameTaken);
    }
    var passwordHash := Hash(password, salt);
    var user := db.AddUser(username, Some(passwordHash), now);
    r := Ok(AuthResponse(201, Public(user), TokenPayload(user)));
  }

  /** `POST /login` (lines 98-137): the same 401 whether the user is missing,
      has no password hash, or the password does not match. */
  function Login(users: seq<User>, body: Json): (r: Result<AuthResponse>)
    ensures ParseLogin(body).Err? ==> r == Err(ValidationError)
    ensures ParseLogin(body).Ok? ==> r.Ok? || r == Err(InvalidCredentials)
    ensures ParseLogin(body).Ok? ==>
      var c := ParseLogin(body).value;
      var found := FindByUsername(users, c.username);
      && (r == Err(InvalidCredentials) <==>
            found.None? || found.value.passwordHash.None? || !Compare(c.password, found.value.passwordHash.value))
      && (r.Ok? ==> r.value == AuthResponse(200, Public(found.value), TokenPayload(found.value)))
  {
    match ParseLogin(body)
    case Err(e) => Err(e)
    case Ok(c) =>
      match FindByUsername(users, c.username)
      case None => Err(InvalidCredentials)
      case Some(user) =>
        if user.passwordHash.None? || !Compare(c.password, user.passwordHash.value) then
          Err(InvalidCredentials)
        else
          Ok(AuthResponse(200, Public(user), TokenPayload(user)))
  }

  /** After a sign-up, logging in with the same name succeeds as the new
      user with any password whose first 72 bytes are those of the password
      signed up with, the same password included, and fails with 401 with
      any other. */
  lemma SignupThenLogin(users: seq<User>, u: User, body: Json, password: string, salt: nat)
    requires FindByUsername(users, u.username).None?
    requires ParseLogin(body).Ok? && ParseLogin(body).value.username == u.username
    requires u.passwordHash == Some(Hash(password, salt))
    ensures Key(ParseLogin(body).value.password) == Key(password) ==>
      Login(users + [u], body) == Ok(AuthResponse(200, Public(u), TokenPayload(u)))
    ensures ParseLogin(body).value.password == password ==> Login(users + [u], body).Ok?
    ensures Key(ParseLogin(body).value.password) != Key(password) ==>
      Login(users + [u], body) == Err(InvalidCredentials)
  {
    FindAfterAppend(users, u);
    CompareHash(ParseLogin(body).value.password, password, salt);
  }

  lemma {:induction false} FindAfterAppend(users: seq<User>, u: User)
    requires FindByUsername(users, u.username).None?
    ensures FindByUsername(users + [u], u.username) == Some(u)
  {
    if users != [] {
      assert (users + [u])[1..] == users[1..] + [u];
      FindAfterAppend(users[1..], u);
    }
  }

  /** `GET /me` (lines 140-163): the user the token names, or 404. */
  function Me(users: seq<User>, claims: Claims): (r: Result<PublicUser>)
    ensures r.Ok? || r == Err(UserNotFound)
    ensures r == Err(UserNotFound) <==> forall u :: u in users ==> u.id != claims.userId
    ensures r.Ok? ==> exists u :: u in users && u.id == claims.userId && r.value == Public(u)
  {
    match FindById(users, claims.userId)
    case None => Err(UserNotFound)
    case Some(u) => Ok(Public(u))
  }
}
