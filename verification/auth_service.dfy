/** The registration and authentication service: sign up, log in, refresh a
    token pair and authenticate a request by its `Authorization` header.

    The user table is a map from username to stored password hash (the
    username column is unique). SHA-256, JWT encoding and JWT decoding are
    not modelled: they are functions the service is handed. The clock is an
    argument `now`, in whole seconds: every token carries its expiry
    `now + lifetime`, and the decoder, which is given the current time,
    refuses a token whose expiry has passed. */
module AuthService {
  import opened PyRuntime

  /** The user table: username to stored password hash. */
  type Users = map<string, string>

  /** A row of the user table. */
  datatype User = User(username: string, password: string)

  /** The claims the service puts into a token; `exp` is the expiry instant. */
  datatype Claims = Claims(username: string, tokenType: string, exp: int)

  datatype Tokens = Tokens(accessToken: string, refreshToken: string)

  /** What `jwt.decode` gives: a decoding failure (bad signature, expired,
      malformed), or the token's claims. */
  datatype Decoded = InvalidToken | Payload(claims: map<string, string>)

  /** The settings and libraries the service relies on: the password
      secret, the two token lifetimes in days, the hex SHA-256 digest, and
      JWT encoding and decoding with the token secret built in. `decode`
      takes the current time, since it checks the expiry. */
  datatype Crypto = Crypto(
    authSecret: string,
    accessLifetimeDays: int,
    refreshLifetimeDays: int,
    sha256Hex: string -> string,
    encode: Claims -> string,
    decode: (string, int) -> Decoded)

  /** How a service call ends. `Unauthorized`, `UserAlreadyExists`,
      `InvalidTokenError` and `UserNotFoundError` are the service's own
      exception classes; `UnauthorizedError` is the HTTP error that
      `authenticate` raises; `Uncaught` is an exception nobody catches. */
  datatype AuthOutcome<+T> =
    | Ok(value: T)
    | Unauthorized
    | UserAlreadyExists
    | InvalidTokenError
    | UserNotFoundError
    | UnauthorizedError
    | Uncaught(exception: PyException)

  const AccessType: string := "access"
  const RefreshType: string := "refresh"
  const SecondsPerDay: int := 86400

  /** The expiry of a token issued at `now` with a lifetime of `days` days. */
  function ExpiresAt(now: int, days: int): int {
    now + days * SecondsPerDay
  }

  /** `_hash_password`: the digest of the secret followed by the password. */
  function HashPassword(c: Crypto, password: string): string {
    c.sha256Hex(c.authSecret + password)
  }

  /** `_generate_jwt_tokens` at time `now`: an access and a refresh token,
      both for `username`, each expiring one lifetime after `now`. */
  function GenerateTokens(c: Crypto, username: string, now: int): (t: Tokens)
    ensures t.accessToken == c.encode(Claims(username, AccessType, ExpiresAt(now, c.accessLifetimeDays)))
    ensures t.refreshToken == c.encode(Claims(username, RefreshType, ExpiresAt(now, c.refreshLifetimeDays)))
  {
    Tokens(c.encode(Claims(username, AccessType, ExpiresAt(now, c.accessLifetimeDays))),
           c.encode(Claims(username, RefreshType, ExpiresAt(now, c.refreshLifetimeDays))))
  }

  /** `get_user`: the row for `username`, or `UserNotFoundError`. */
  function GetUser(users: Users, username: string): (r: AuthOutcome<User>)
    ensures r.Ok? <==> username in users
    ensures r.Ok? ==> r.value.username == username && r.value.password == users[username]
    ensures !r.Ok? ==> r == UserNotFoundError
  {
    if username in users then Ok(User(username, users[username])) else UserNotFoundError
  }

  /** `signup`: a taken username fails with `UserAlreadyExists` and leaves
      the table alone; otherwise exactly one row is added, holding the
      hashed password, and a token pair for the new user is returned. */
  function Signup(c: Crypto, users: Users, username: string, password: string, now: int)
    : (r: (AuthOutcome<Tokens>, Users))
    ensures r.0.Ok? <==> username !in users
    ensures username in users ==> r.0 == UserAlreadyExists && r.1 == users
    ensures r.0.Ok? ==> r.0.value == GenerateTokens(c, username, now)
    ensures r.0.Ok? ==> r.1.Keys == users.Keys + {username}
    ensures r.0.Ok? ==> r.1[username] == c.sha256Hex(c.authSecret + password)
    ensures forall u :: u in users ==> u in r.1 && r.1[u] == users[u]
  {
    var hashed := HashPassword(c, password);
    if username in users then (UserAlreadyExists, users)
    else (Ok(GenerateTokens(c, username, now)), users[username := hashed])
  }

  /** `login`: an unknown username fails with `UserNotFoundError` whatever
      the password; a known one succeeds exactly when the stored hash is the
      hash of the supplied password, and fails with `Unauthorized` otherwise. */
  function Login(c: Crypto, users: Users, username: string, password: string, now: int): (r: AuthOutcome<Tokens>)
    ensures username !in users ==> r == UserNotFoundError
    ensures username in users ==> (r.Ok? <==> users[username] == c.sha256Hex(c.authSecret + password))
    ensures username in users && users[username] != c.sha256Hex(c.authSecret + password) ==> r == Unauthorized
    ensures r.Ok? ==> r.value == GenerateTokens(c, username, now)
  {
    match GetUser(users, username)
    case Ok(user) =>
      if user.password != HashPassword(c, password) then Unauthorized
      else Ok(GenerateTokens(c, username, now))
    case _ => UserNotFoundError
  }

  /** The token decodes to claims naming a user and a token type. */
  predicate HasIdentity(d: Decoded) {
    d.Payload? && "username" in d.claims && "type" in d.claims
  }

  /** `refresh_token` at time `now`: an undecodable or expired token, or one
      without `username` and `type` claims, is an `InvalidTokenError`; then an
      unknown user is a `UserNotFoundError`, whatever the token type; only
      then does a type other than "refresh" give `InvalidTokenError`. A
      success is a pair newly issued at `now`. */
  function RefreshToken(c: Crypto, users: Users, token: string, now: int): (r: AuthOutcome<Tokens>)
    ensures !HasIdentity(c.decode(token, now)) ==> r == InvalidTokenError
    ensures HasIdentity(c.decode(token, now)) && c.decode(token, now).claims["username"] !in users ==> r == UserNotFoundError
    ensures (&& HasIdentity(c.decode(token, now))
             && c.decode(token, now).claims["username"] in users
             && c.decode(token, now).claims["type"] != RefreshType)
            ==> r == InvalidTokenError
    ensures r.Ok? <==>
      && HasIdentity(c.decode(token, now))
      && c.decode(token, now).claims["username"] in users
      && c.decode(token, now).claims["type"] == RefreshType
    ensures r.Ok? ==> r.value == GenerateTokens(c, c.decode(token, now).claims["username"], now)
  {
    match c.decode(token, now)
    case InvalidToken => InvalidTokenError
    case Payload(claims) =>
      if "username" !in claims || "type" !in claims then InvalidTokenError
      else
        var username := claims["username"];
        match GetUser(users, username)
        case Ok(_) =>
          if claims["type"] != RefreshType then InvalidTokenError
          else Ok(GenerateTokens(c, username, now))
        case _ => UserNotFoundError
  }

  /** At time `now` the token decodes and names a user of the table; its type
      is not looked at. */
  predicate AcceptsToken(c: Crypto, users: Users, token: string, now: int) {
    var d := c.decode(token, now);
    d.Payload? && "username" in d.claims && d.claims["username"] in users
  }

  /** `authenticate`: the token is the last whitespace-separated word of the
      header; a header without any word raises `IndexError`; a token that
      does not decode, has no `username` claim or names an unknown user
      gives `UnauthorizedError`; otherwise the user's row. */
  function Authenticate(c: Crypto, users: Users, authorization: string, now: int): (r: AuthOutcome<User>)
    ensures r == Uncaught(IndexError) <==> AllSpace(authorization)
    ensures !AllSpace(authorization) ==>
      (r.Ok? <==> AcceptsToken(c, users, LastWord(authorization).value, now))
    ensures !AllSpace(authorization) && !r.Ok? ==> r == UnauthorizedError
    ensures r.Ok? ==>
      var username := c.decode(LastWord(authorization).value, now).claims["username"];
      username in users && r.value == User(username, users[username])
  {
    match LastWord(authorization)
    case None => Uncaught(IndexError)
    case Some(token) =>
      match c.decode(token, now)
      case InvalidToken => UnauthorizedError
      case Payload(claims) =>
        if "username" !in claims then UnauthorizedError
        else
          match GetUser(users, claims["username"])
          case Ok(user) => Ok(user)
          case _ => UnauthorizedError
  }

  // ---------------------------------------------------------------------
  // Properties across operations

  /** The digest is a one-to-one function of its input. */
  ghost predicate DigestInjective(c: Crypto) {
    forall a, b :: c.sha256Hex(a) == c.sha256Hex(b) ==> a == b
  }

  /** The secret is a common prefix of every digest input, so with a
      one-to-one digest two passwords store the same hash exactly when they
      are equal. */
  lemma HashSeparatesPasswords(c: Crypto, p: string, q: string)
    requires DigestInjective(c)
    ensures HashPassword(c, p) == HashPassword(c, q) <==> p == q
  {
    if HashPassword(c, p) == HashPassword(c, q) {
      var k := |c.authSecret|;
      assert c.authSecret + p == c.authSecret + q;
      assert (c.authSecret + p)[k..] == p && (c.authSecret + q)[k..] == q;
    }
  }

  /** After a successful signup, logging in with the same password succeeds,
      and logging in with a password whose hash differs is refused. */
  lemma SignupThenLogin(c: Crypto, users: Users, username: string, password: string, other: string, t1: int, t2: int)
    requires username !in users
    requires HashPassword(c, other) != HashPassword(c, password)
    ensures var after := Signup(c, users, username, password, t1).1;
            && Login(c, after, username, password, t2) == Ok(GenerateTokens(c, username, t2))
            && Login(c, after, username, other, t2) == Unauthorized
  {
  }

  /** With a one-to-one digest, after signup the login succeeds for exactly
      the password that was registered. */
  lemma LoginOnlyWithRegisteredPassword(c: Crypto, users: Users, username: string, password: string, other: string, t1: int, t2: int)
    requires username !in users
    requires DigestInjective(c)
    ensures Login(c, Signup(c, users, username, password, t1).1, username, other, t2).Ok? <==> other == password
  {
    HashSeparatesPasswords(c, password, other);
  }

  /** The same password always yields the same stored hash, so two users
      with one password store one value. */
  lemma SamePasswordSameHash(c: Crypto, users: Users, u1: string, u2: string, password: string, t1: int, t2: int)
    requires u1 != u2 && u1 !in users && u2 !in users
    ensures var s1 := Signup(c, users, u1, password, t1).1;
            var s2 := Signup(c, s1, u2, password, t2).1;
            s2[u1] == s2[u2]
  {
  }

  /** Signing up twice under one name: the second attempt fails and the
      table keeps the first password. */
  lemma SignupTwice(c: Crypto, users: Users, username: string, p1: string, p2: string, t1: int, t2: int)
    requires username !in users
    ensures var s1 := Signup(c, users, username, p1, t1).1;
            Signup(c, s1, username, p2, t2) == (UserAlreadyExists, s1)
  {
  }

  /** At time `at`, `decode` reads back the name and type a token was
      encoded with: the token is still valid then. */
  predicate DecodesTo(c: Crypto, claims: Claims, at: int) {
    var d := c.decode(c.encode(claims), at);
    && d.Payload?
    && "username" in d.claims && d.claims["username"] == claims.username
    && "type" in d.claims && d.claims["type"] == claims.tokenType
  }

  /** A pair issued at `issued` and used at `later`, while the decoder still
      reads both tokens back: the refresh token gives a pair newly issued at
      `later`, the access token is refused by `refresh_token`, and both
      tokens authenticate, because `authenticate` never checks the type. */
  lemma IssuedTokensInUse(c: Crypto, users: Users, username: string, issued: int, later: int)
    requires username in users
    requires DecodesTo(c, Claims(username, AccessType, ExpiresAt(issued, c.accessLifetimeDays)), later)
    requires DecodesTo(c, Claims(username, RefreshType, ExpiresAt(issued, c.refreshLifetimeDays)), later)
    requires var t := GenerateTokens(c, username, issued);
             |t.accessToken| > 0 && NoSpace(t.accessToken) && |t.refreshToken| > 0 && NoSpace(t.refreshToken)
    ensures var t := GenerateTokens(c, username, issued);
            && RefreshToken(c, users, t.refreshToken, later) == Ok(GenerateTokens(c, username, later))
            && RefreshToken(c, users, t.accessToken, later) == InvalidTokenError
            && Authenticate(c, users, "Bearer " + t.accessToken, later) == Ok(User(username, users[username]))
            && Authenticate(c, users, "Bearer " + t.refreshToken, later) == Ok(User(username, users[username]))
  {
    var t := GenerateTokens(c, username, issued);
    LastWordAfterSpace("Bearer ", t.accessToken);
    LastWordAfterSpace("Bearer ", t.refreshToken);
  }

  /** With a one-to-one encoder, pairs issued at different instants differ:
      a refresh does not hand back the tokens it was given. */
  lemma NewPairEachInstant(c: Crypto, username: string, t1: int, t2: int)
    requires forall a, b :: c.encode(a) == c.encode(b) ==> a == b
    requires t1 != t2
    ensures GenerateTokens(c, username, t1).accessToken != GenerateTokens(c, username, t2).accessToken
    ensures GenerateTokens(c, username, t1).refreshToken != GenerateTokens(c, username, t2).refreshToken
  {
    assert ExpiresAt(t1, c.accessLifetimeDays) != ExpiresAt(t2, c.accessLifetimeDays);
    assert ExpiresAt(t1, c.refreshLifetimeDays) != ExpiresAt(t2, c.refreshLifetimeDays);
  }

  /** Once the user is gone, even an access token offered to
      `refresh_token` reports the missing user rather than the wrong type. */
  lemma UserCheckedBeforeType(c: Crypto, users: Users, username: string, issued: int, later: int)
    requires username !in users
    requires DecodesTo(c, Claims(username, AccessType, ExpiresAt(issued, c.accessLifetimeDays)), later)
    ensures RefreshToken(c, users, c.encode(Claims(username, AccessType, ExpiresAt(issued, c.accessLifetimeDays))), later)
            == UserNotFoundError
  {
  }
}
