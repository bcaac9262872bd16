/**
 The authentication gates of `api/auth/auth-middleware.js`: register/login
 body shape, username availability, the token payload, token gating and
 the self-only check. Signing and verifying tokens are done by a library
 and enter the model as function parameters.
 */
module AuthMiddleware {
  import opened JsValues
  import opened JsParseInt
  import opened Express
  import opened Store

  const RegisterRequired := "username, email and password required"
  const LoginRequired := "username and password required"
  const PasswordNotString := "password must be a string"
  const UsernameTaken := "username taken"
  const TokenRequired := "token required"
  const TokenInvalid := "token invalid"
  const InvalidCredentials := "invalid credentials"

  /** What JavaScript reports when `req.decodedJWT` is undefined and `.subject` is read from it. */
  const NoDecodedToken := "Cannot read properties of undefined (reading 'subject')"

  /** `expiresIn: "1d"`, in seconds. */
  const OneDaySeconds := 24 * 60 * 60

  // ---------------------------------------------------------------------
  // Body shape
  // ---------------------------------------------------------------------

  /** The presence checks `checkValidBody` applies to the route in `req.url` hold. */
  predicate PresenceChecked(req: Request)
  {
    && (req.url == "/register" ==>
          Truthy(Field(req, "username")) && Truthy(Field(req, "email")) && Truthy(Field(req, "password")))
    && (req.url == "/login" ==>
          Truthy(Field(req, "username")) && Truthy(Field(req, "password")))
  }

  /**
   `checkValidBody`: on "/register" all of username, email and password
   must be truthy, on "/login" only username and password; only then, or on
   any other url, is the password's type checked.
   */
  function CheckValidBody(req: Request): (r: Outcome)
    ensures req.url == "/register" ==>
      (r == Respond(422, RegisterRequired) <==>
        !Truthy(Field(req, "username")) || !Truthy(Field(req, "email")) || !Truthy(Field(req, "password")))
    ensures req.url == "/login" ==>
      (r == Respond(422, LoginRequired) <==> !Truthy(Field(req, "username")) || !Truthy(Field(req, "password")))
    ensures r == Respond(422, PasswordNotString) <==> PresenceChecked(req) && !IsString(Field(req, "password"))
    ensures r == Next <==> PresenceChecked(req) && IsString(Field(req, "password"))
    ensures r.Next? || (r.Respond? && r.status == 422)
  {
    var username := Field(req, "username");
    var email := Field(req, "email");
    var password := Field(req, "password");
    if req.url == "/register" && (!Truthy(username) || !Truthy(email) || !Truthy(password)) then
      Respond(422, RegisterRequired)
    else if req.url == "/login" && (!Truthy(username) || !Truthy(password)) then
      Respond(422, LoginRequired)
    else if !IsString(password) then
      Respond(422, PasswordNotString)
    else
      Next
  }

  /** A body that passes on either route carries a non-empty string password. */
  lemma AcceptedPasswordIsNonEmptyString(req: Request)
    requires req.url == "/register" || req.url == "/login"
    requires CheckValidBody(req) == Next
    ensures Field(req, "password").Str? && Field(req, "password").s != ""
  {
  }

  /** On "/login" the email plays no part: changing it never changes the outcome. */
  lemma LoginIgnoresEmail(req: Request, email: JsVal)
    requires req.url == "/login"
    ensures CheckValidBody(req.(body := req.body["email" := email])) == CheckValidBody(req)
  {
    var req' := req.(body := req.body["email" := email]);
    assert Field(req', "username") == Field(req, "username");
    assert Field(req', "password") == Field(req, "password");
  }

  // ---------------------------------------------------------------------
  // Username availability
  // ---------------------------------------------------------------------

  /** Some stored user has the username the body names. */
  predicate UsernameInUse(users: seq<UserRow>, username: JsVal)
  {
    exists i :: 0 <= i < |users| && TextKeyMatches(users[i].username, username)
  }

  /** `checkUsernameAvailable`: 422 "username taken" when a user row has the name, else `next()`. */
  function CheckUsernameAvailable(req: Request, db: Db): (r: Outcome)
    ensures Field(req, "username") == Undefined ==> r == Fail(UndefinedBinding)
    ensures Field(req, "username") != Undefined ==>
      && (r == Respond(422, UsernameTaken) <==> UsernameInUse(db.users, Field(req, "username")))
      && (r == Next <==> !UsernameInUse(db.users, Field(req, "username")))
  {
    var username := Field(req, "username");
    match Where(db.users, [username], (u: UserRow) => TextKeyMatches(u.username, username))
    case BindingError => Fail(UndefinedBinding)
    case Found => Respond(422, UsernameTaken)
    case Missing => Next
  }

  /** Once a user row is stored, registering its username again is refused. */
  lemma {:induction false} RegisteredUsernameTaken(req: Request, db: Db, user: UserRow)
    requires Field(req, "username") == Str(user.username)
    ensures CheckUsernameAvailable(req, db.(users := db.users + [user])) == Respond(422, UsernameTaken)
  {
    var users := db.users + [user];
    assert users[|db.users|] == user;
    assert UsernameInUse(users, Field(req, "username"));
  }

  /** A username stored as the decimal text of `k` is also taken for a body naming the number `k`. */
  lemma {:induction false} NumericUsernameTaken(req: Request, db: Db, user: UserRow, k: int)
    requires Field(req, "username") == Num(k as real) && user.username == IntToDecimal(k)
    ensures CheckUsernameAvailable(req, db.(users := db.users + [user])) == Respond(422, UsernameTaken)
  {
    var users := db.users + [user];
    assert users[|db.users|] == user;
    assert (k as real).Floor == k;
    assert UsernameInUse(users, Field(req, "username"));
  }

  /** A body that passed the "/register" checks never makes the username query fault. */
  lemma ValidRegisterBodyNeverFaults(req: Request, db: Db)
    requires req.url == "/register"
    requires CheckValidBody(req) == Next
    ensures CheckUsernameAvailable(req, db) == Respond(422, UsernameTaken)
      || CheckUsernameAvailable(req, db) == Next
  {
  }

  // ---------------------------------------------------------------------
  // Tokens
  // ---------------------------------------------------------------------

  /** The claims `buildToken` signs. */
  datatype Payload = Payload(subject: JsVal, username: JsVal)

  /** What `buildToken` hands to the signer: the payload and the validity window in seconds. */
  datatype TokenSpec = TokenSpec(payload: Payload, expiresIn: nat)

  /**
   `buildToken`'s payload and options: the subject identifies the user by
   its key, as a number, and the token is valid for one day.
   */
  function BuildToken(user: UserRow): (t: TokenSpec)
    ensures forall k: int :: StrictEqualsParsed(t.payload.subject, Some(k)) <==> k == user.userId
    ensures t.payload.username == Str(user.username)
    ensures t.expiresIn == 86400
  {
    TokenSpec(Payload(Num(user.userId as real), Str(user.username)), OneDaySeconds)
  }

  /**
   What is assumed of the signing library, for the tokens `buildToken`
   produces: a signed token is never empty, and verifying it within its
   validity window gives back its claims with the issue and expiry times.
   */
  ghost predicate SignVerifyAxiom(sign: (TokenSpec, int) -> string, verify: (string, int) -> Option<Claims>)
  {
    && (forall user: UserRow, iat: int :: sign(BuildToken(user), iat) != "")
    && (forall user: UserRow, iat: int, now: int | iat <= now < iat + OneDaySeconds ::
          verify(sign(BuildToken(user), iat), now)
          == Some(Claims(Num(user.userId as real), Str(user.username), iat, iat + OneDaySeconds)))
  }

  /**
   A reference token text: the issue time, the subject's key and the
   username, separated by commas. Decimal text holds no comma, so the
   three parts can be read back.
   */
  function SignedText(key: int, name: string, iat: int): string
  {
    IntToDecimal(iat) + ("," + (IntToDecimal(key) + ("," + name)))
  }

  /** A reference signer: writes the issue time, the numeric subject and the username. */
  function ReferenceSign(spec: TokenSpec, iat: int): (token: string)
    ensures token != ""
  {
    var key := if spec.payload.subject.Num? then spec.payload.subject.x.Floor else 0;
    var name := if spec.payload.username.Str? then spec.payload.username.s else "";
    SignedText(key, name, iat)
  }

  /** The parts of a reference token. */
  ghost function SignedParts(token: string): (parts: (int, string, int))
    requires exists key: int, name: string, iat: int :: SignedText(key, name, iat) == token
    ensures SignedText(parts.0, parts.1, parts.2) == token
  {
    var key: int, name: string, iat: int :| SignedText(key, name, iat) == token;
    (key, name, iat)
  }

  /** A reference verifier: reads a reference token back and checks its day of validity. */
  ghost function ReferenceVerify(token: string, now: int): Option<Claims>
  {
    if exists key: int, name: string, iat: int :: SignedText(key, name, iat) == token then
      var (key, name, iat) := SignedParts(token);
      if iat <= now < iat + OneDaySeconds then Some(Claims(Num(key as real), Str(name), iat, iat + OneDaySeconds))
      else None
    else None
  }

  /** Decimal text followed by a comma determines both the number and what follows the comma. */
  lemma {:induction false} DecimalFieldInjective(i1: int, r1: string, i2: int, r2: string)
    requires IntToDecimal(i1) + ("," + r1) == IntToDecimal(i2) + ("," + r2)
    ensures i1 == i2 && r1 == r2
  {
    ParseIntDecimalPrefix(i1, "," + r1);
    ParseIntDecimalPrefix(i2, "," + r2);
    var d := IntToDecimal(i1);
    assert (d + ("," + r1))[|d| + 1..] == r1;
    assert (d + ("," + r2))[|d| + 1..] == r2;
  }

  /** A reference token names one issue time, one subject and one username. */
  lemma {:induction false} SignedTextInjective(k1: int, n1: string, i1: int, k2: int, n2: string, i2: int)
    requires SignedText(k1, n1, i1) == SignedText(k2, n2, i2)
    ensures k1 == k2 && n1 == n2 && i1 == i2
  {
    DecimalFieldInjective(i1, IntToDecimal(k1) + ("," + n1), i2, IntToDecimal(k2) + ("," + n2));
    DecimalFieldInjective(k1, n1, k2, n2);
  }

  /** The assumption about the signing library can be met: the reference pair meets it. */
  lemma {:induction false} SignVerifyAxiomSatisfiable()
    ensures SignVerifyAxiom(ReferenceSign, ReferenceVerify)
  {
    forall user: UserRow, iat: int, now: int | iat <= now < iat + OneDaySeconds
      ensures ReferenceVerify(ReferenceSign(BuildToken(user), iat), now)
        == Some(Claims(Num(user.userId as real), Str(user.username), iat, iat + OneDaySeconds))
    {
      var token := ReferenceSign(BuildToken(user), iat);
      assert token == SignedText(user.userId, user.username, iat) by {
        assert (user.userId as real).Floor == user.userId;
      }
      var parts := SignedParts(token);
      SignedTextInjective(parts.0, parts.1, parts.2, user.userId, user.username, iat);
    }
  }

  /** `!token` is false: the Authorization header is present and not empty. */
  predicate HasToken(req: Request)
  {
    req.authorization.Some? && req.authorization.value != ""
  }

  /**
   `restricted`: no token is 401 "token required"; a token the verifier
   rejects is 401 "token invalid"; otherwise the decoded claims are attached
   to the request and `next()` is called.
   */
  function Restricted(req: Request, verify: (string, int) -> Option<Claims>, now: int): (r: (Outcome, Request))
    ensures !HasToken(req) ==> r == (Respond(401, TokenRequired), req)
    ensures HasToken(req) && verify(req.authorization.value, now).None? ==> r == (Respond(401, TokenInvalid), req)
    ensures r.0 == Next <==> HasToken(req) && verify(req.authorization.value, now).Some?
    ensures r.0 == Next ==> r.1 == req.(decodedJwt := verify(req.authorization.value, now))
  {
    if !HasToken(req) then (Respond(401, TokenRequired), req)
    else
      match verify(req.authorization.value, now)
      case None => (Respond(401, TokenInvalid), req)
      case Some(claims) => (Next, req.(decodedJwt := Some(claims)))
  }

  /** Without a token the verifier is never consulted: any two verifiers give the same outcome. */
  lemma MissingTokenSkipsVerify(req: Request, v1: (string, int) -> Option<Claims>, v2: (string, int) -> Option<Claims>, now: int)
    requires !HasToken(req)
    ensures Restricted(req, v1, now) == Restricted(req, v2, now)
  {
  }

  /**
   `restrictedId`: `next()` exactly when the token's subject is strictly
   equal to `parseInt(req.params.id)`, else 401 "invalid credentials".
   */
  function RestrictedId(req: Request): (r: Outcome)
    ensures req.decodedJwt.None? ==> r == Fail(NoDecodedToken)
    ensures req.decodedJwt.Some? ==>
      && (r == Next <==>
            "id" in req.params && ParseInt(req.params["id"]).Some?
            && req.decodedJwt.value.subject == Num(ParseInt(req.params["id"]).value as real))
      && (r != Next ==> r == Respond(401, InvalidCredentials))
  {
    match req.decodedJwt
    case None => Fail(NoDecodedToken)
    case Some(claims) =>
      if StrictEqualsParsed(claims.subject, ParamInt(req, "id")) then Next
      else Respond(401, InvalidCredentials)
  }

  /**
   A decoded subject `k` passes against a path id holding the decimal text
   of `j`, followed by anything that is not a further digit, exactly when
   `j` is `k`; any other id gets 401.
   */
  lemma RestrictedIdDecimalPath(req: Request, k: int, j: int, rest: string)
    requires req.decodedJwt.Some? && req.decodedJwt.value.subject == Num(k as real)
    requires "id" in req.params && req.params["id"] == IntToDecimal(j) + rest
    requires rest == [] || !IsDecimalDigit(rest[0])
    requires j == 0 ==> rest == [] || (rest[0] != 'x' && rest[0] != 'X')
    ensures RestrictedId(req) == Next <==> j == k
    ensures j != k ==> RestrictedId(req) == Respond(401, InvalidCredentials)
  {
    ParseIntDecimalPrefix(j, rest);
  }

  /**
   A token built for `user` and presented within its day of validity passes
   `restricted`, and then passes `restrictedId` exactly on paths whose id
   parses to the user's key: the user's own decimal id passes and the
   decimal id of anyone else is refused.
   */
  lemma OwnTokenOpensOnlyOwnPath(
    req: Request, user: UserRow,
    sign: (TokenSpec, int) -> string, verify: (string, int) -> Option<Claims>,
    iat: int, now: int)
    requires SignVerifyAxiom(sign, verify)
    requires iat <= now < iat + OneDaySeconds
    requires req.authorization == Some(sign(BuildToken(user), iat))
    ensures Restricted(req, verify, now).0 == Next
    ensures RestrictedId(Restricted(req, verify, now).1) == Next <==> ParamInt(req, "id") == Some(user.userId)
    ensures "id" in req.params && req.params["id"] == IntToDecimal(user.userId) ==>
      RestrictedId(Restricted(req, verify, now).1) == Next
    ensures forall k: int :: "id" in req.params && req.params["id"] == IntToDecimal(k) && k != user.userId ==>
      RestrictedId(Restricted(req, verify, now).1) == Respond(401, InvalidCredentials)
  {
    var spec := BuildToken(user);
    assert sign(spec, iat) != "";
    assert verify(sign(spec, iat), now) == Some(Claims(Num(user.userId as real), Str(user.username), iat, iat + OneDaySeconds));
    ParseIntRoundTrip(user.userId);
    forall k: int | "id" in req.params && req.params["id"] == IntToDecimal(k) && k != user.userId
      ensures RestrictedId(Restricted(req, verify, now).1) == Respond(401, InvalidCredentials)
    {
      ParseIntRoundTrip(k);
    }
  }
}
