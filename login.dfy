/** `POST /api/auth/login`: check the body, look the user up by email, compare
    the password against the stored hash, stamp the user row with the login
    time and token expiry, sign a session token and set it as a cookie.

    Password comparison and token signing are the oracles `crypto.compare`
    and `crypto.sign`. Times are milliseconds since the epoch. `fault` says
    which awaited step, if any, throws; every throw ends in the catch-all 500. */
module LoginRoute {
  import opened Base
  import opened Json

  /** A row of the user table. */
  datatype UserRecord = UserRecord(
    id: string,
    email: string,
    password: string,
    lastLoginAt: Option<nat>,
    currentTokenExpiry: Option<nat>)

  /** `24 * 60 * 60 * 1000`: the session lifetime in milliseconds. */
  const SessionMs: nat := 24 * 60 * 60 * 1000
  /** `"24h"` as jose reads it, in seconds. */
  const SessionSeconds: nat := 24 * 60 * 60

  /** The protected header and the claims of the token (RFC 7519): the
      payload's `userId`, `email` and `lastLogin` (the login instant, rendered
      by `toISOString`), and the NumericDate claims `iat` (section 4.1.6) and
      `exp` (section 4.1.4) in whole seconds. */
  datatype JwtHeader = JwtHeader(alg: string)
  datatype Claims = Claims(userId: string, email: string, lastLogin: nat, iat: nat, exp: nat)

  /** HMAC with SHA-256, RFC 7518 section 3.2. */
  const Hs256 := JwtHeader("HS256")

  datatype SameSite = Strict | Lax | NoRestriction
  datatype Cookie = Cookie(value: string, httpOnly: bool, secure: bool, sameSite: SameSite, path: string, expires: nat)

  datatype ResponseBody = ErrorBody(error: string) | LoginOk(userId: string, userEmail: string, message: string)
  datatype Response = Response(status: nat, body: ResponseBody)

  /** `bcrypt.compare(plain, hash)` and `SignJWT(...).sign(secret)` with the
      deployment's secret. */
  datatype Crypto = Crypto(compare: (string, string) -> bool, sign: (JwtHeader, Claims) -> string)

  /** Which awaited step throws. */
  datatype Fault = NoFault | FindThrows | CompareThrows | UpdateThrows | SignThrows | CookiesThrows

  const MissingFields := Response(400, ErrorBody("Missing required fields"))
  const InvalidCredentials := Response(401, ErrorBody("Invalid credentials"))
  const InternalError := Response(500, ErrorBody("Internal server error"))

  /** The first index from `from` on whose row satisfies `p`. */
  function IndexWhere(rows: seq<UserRecord>, p: UserRecord -> bool, from: nat): (r: Option<nat>)
    requires from <= |rows|
    ensures r.Some? ==> from <= r.value < |rows| && p(rows[r.value])
    ensures r.None? ==> forall i :: from <= i < |rows| ==> !p(rows[i])
    decreases |rows| - from
  {
    if from == |rows| then None
    else if p(rows[from]) then Some(from)
    else IndexWhere(rows, p, from + 1)
  }

  /** `prisma.user.findUnique({ where: { email } })`. */
  function FindByEmail(rows: seq<UserRecord>, email: string): (r: Option<nat>)
    ensures r.Some? ==> r.value < |rows| && rows[r.value].email == email
    ensures r.None? ==> forall i :: 0 <= i < |rows| ==> rows[i].email != email
  {
    IndexWhere(rows, (u: UserRecord) => u.email == email, 0)
  }

  /** The row `prisma.user.update({ where: { id } })` addresses. */
  function IdIndex(rows: seq<UserRecord>, id: string): (r: Option<nat>)
    ensures r.Some? ==> r.value < |rows| && rows[r.value].id == id
    ensures r.None? ==> forall i :: 0 <= i < |rows| ==> rows[i].id != id
  {
    IndexWhere(rows, (u: UserRecord) => u.id == id, 0)
  }

  /** Ids and emails are unique keys of the user table. */
  predicate UniqueKeys(rows: seq<UserRecord>) {
    forall i, j :: 0 <= i < j < |rows| ==> rows[i].id != rows[j].id && rows[i].email != rows[j].email
  }

  /** The outcome of the guard chain: an early answer, or the index of the
      user whose credentials checked out. */
  datatype Guard = Reject(response: Response) | Accept(index: nat)

  /** The guards, in the handler's order. `input` is `None` when the body is
      not valid JSON. Destructuring a `null` body throws; a non-string email
      makes the lookup throw and a non-string password makes the comparison
      throw. */
  function Check(rows: seq<UserRecord>, input: Option<Json>, crypto: Crypto, fault: Fault): (g: Guard)
    ensures g.Reject? ==> g.response in {MissingFields, InvalidCredentials, InternalError}
    ensures g.Accept? ==>
      && g.index < |rows| && input.Some?
      && Get(input.value, "email") == Some(JString(rows[g.index].email))
      && Get(input.value, "password").Some? && Get(input.value, "password").value.JString?
      && crypto.compare(Get(input.value, "password").value.s, rows[g.index].password)
      && fault !in {FindThrows, CompareThrows}
  {
    if input.None? || input.value == JNull then Reject(InternalError)
    else
      var email := Get(input.value, "email");
      var password := Get(input.value, "password");
      if !Truthy(email) || !Truthy(password) then Reject(MissingFields)
      else if fault == FindThrows || !email.value.JString? then Reject(InternalError)
      else
        var found := FindByEmail(rows, email.value.s);
        if found.None? then Reject(InvalidCredentials)
        else if fault == CompareThrows || !password.value.JString? then Reject(InternalError)
        else if !crypto.compare(password.value.s, rows[found.value].password) then Reject(InvalidCredentials)
        else Accept(found.value)
  }

  /** The row after `prisma.user.update`: the two login columns set. */
  function Stamp(u: UserRecord, now: nat): UserRecord {
    u.(lastLoginAt := Some(now), currentTokenExpiry := Some(now + SessionMs))
  }

  /** The claims jose signs. `issuedAt` is the instant jose reads the clock
      for `setIssuedAt` and `setExpirationTime`. */
  function TokenClaims(u: UserRecord, now: nat, issuedAt: nat): Claims {
    var iat := issuedAt / 1000;
    Claims(u.id, u.email, now, iat, iat + SessionSeconds)
  }

  /** The options of `cookieStore.set("token", ...)`. */
  function SessionCookie(token: string, expiry: nat, production: bool): Cookie {
    Cookie(token, true, production, Strict, "/", expiry)
  }

  function Success(u: UserRecord): Response {
    Response(200, LoginOk(u.id, u.email, "Login successful"))
  }

  /** The whole handler on values: the response, the user table and the
      cookie jar afterwards. A throw after the row update leaves the row
      stamped: the update and the token are not one transaction. */
  function Effect(rows: seq<UserRecord>, cookies: map<string, Cookie>, input: Option<Json>,
                  now: nat, issuedAt: nat, production: bool, crypto: Crypto, fault: Fault)
    : (r: (Response, seq<UserRecord>, map<string, Cookie>))
    ensures r.0.status in {200, 400, 401, 500}
    ensures |r.1| == |rows| && forall j :: 0 <= j < |rows| ==> r.1[j].id == rows[j].id && r.1[j].email == rows[j].email
    ensures r.0.status != 200 ==> r.2 == cookies
    ensures r.0.status == 200 ==> r.2.Keys == cookies.Keys + {"token"}
  {
    match Check(rows, input, crypto, fault)
    case Reject(r) => (r, rows, cookies)
    case Accept(i) =>
      if fault == UpdateThrows then (InternalError, rows, cookies)
      else
        var stamped := rows[i := Stamp(rows[i], now)];
        if fault == SignThrows || fault == CookiesThrows then (InternalError, stamped, cookies)
        else
          var token := crypto.sign(Hs256, TokenClaims(rows[i], now, issuedAt));
          (Success(rows[i]), stamped, cookies["token" := SessionCookie(token, now + SessionMs, production)])
  }

  /** The user table the handler reads and updates. */
  class UserTable {
    var rows: seq<UserRecord>

    predicate Valid()
      reads this
    {
      UniqueKeys(rows)
    }

    /** `prisma.user.update({ where: { id }, data: { lastLoginAt, currentTokenExpiry } })`;
        the store throws for an id it does not hold, so the caller passes one it holds. */
    method UpdateLogin(id: string, lastLoginAt: nat, currentTokenExpiry: nat)
      requires Valid() && IdIndex(rows, id).Some?
      modifies this
      ensures Valid()
      ensures var i := IdIndex(old(rows), id).value;
        rows == old(rows)[i := old(rows)[i].(lastLoginAt := Some(lastLoginAt), currentTokenExpiry := Some(currentTokenExpiry))]
    {
      var i := IdIndex(rows, id).value;
      rows := rows[i := rows[i].(lastLoginAt := Some(lastLoginAt), currentTokenExpiry := Some(currentTokenExpiry))];
    }
  }

  /** The response's cookie store. */
  class CookieJar {
    var cookies: map<string, Cookie>

    method Set(name: string, cookie: Cookie)
      modifies this
      ensures cookies == old(cookies)[name := cookie]
    {
      cookies := cookies[name := cookie];
    }
  }

  /** The handler, step by step, against the table and the jar. */
  method Login(users: UserTable, jar: CookieJar, input: Option<Json>,
               now: nat, issuedAt: nat, production: bool, crypto: Crypto, fault: Fault)
    returns (response: Response)
    requires users.Valid()
    modifies users, jar
    ensures users.Valid()
    ensures (response, users.rows, jar.cookies) ==
      Effect(old(users.rows), old(jar.cookies), input, now, issuedAt, production, crypto, fault)
  {
    var guard := Check(users.rows, input, crypto, fault);
    if guard.Reject? {
      return guard.response;
    }
    var i := guard.index;
    var user := users.rows[i];
    var expiry := now + SessionMs;
    if fault == UpdateThrows {
      return InternalError;
    }
    IdIndexOfUnique(users.rows, i);
    users.UpdateLogin(user.id, now, expiry);
    if fault == SignThrows {
      return InternalError;
    }
    var token := crypto.sign(Hs256, TokenClaims(user, now, issuedAt));
    if fault == CookiesThrows {
      return InternalError;
    }
    jar.Set("token", SessionCookie(token, expiry, production));
    response := Success(user);
  }

  /** In a table with unique ids, looking up a row's id finds that row. */
  lemma IdIndexOfUnique(rows: seq<UserRecord>, i: nat)
    requires UniqueKeys(rows) && i < |rows|
    ensures IdIndex(rows, rows[i].id) == Some(i)
  {
  }

  /** A falsy email or password answers 400 before any lookup, and writes
      nothing. */
  lemma MissingFieldsWritesNothing(rows: seq<UserRecord>, cookies: map<string, Cookie>, body: Json,
                                   now: nat, issuedAt: nat, production: bool, crypto: Crypto, fault: Fault)
    requires body != JNull
    requires !Truthy(Get(body, "email")) || !Truthy(Get(body, "password"))
    ensures Effect(rows, cookies, Some(body), now, issuedAt, production, crypto, fault)
      == (Response(400, ErrorBody("Missing required fields")), rows, cookies)
  {
  }

  /** An unknown email and a wrong password give the very same answer, so the
      response does not tell which it was. */
  lemma BadCredentialsIndistinguishable(rows: seq<UserRecord>, cookies: map<string, Cookie>,
                                        email: string, password: string,
                                        now: nat, issuedAt: nat, production: bool, crypto: Crypto)
    requires email != "" && password != ""
    requires FindByEmail(rows, email).None?
      || !crypto.compare(password, rows[FindByEmail(rows, email).value].password)
    ensures Effect(rows, cookies, Some(JObject(map["email" := JString(email), "password" := JString(password)])),
                   now, issuedAt, production, crypto, NoFault)
      == (Response(401, ErrorBody("Invalid credentials")), rows, cookies)
  {
    var body := JObject(map["email" := JString(email), "password" := JString(password)]);
    assert Get(body, "email") == Some(JString(email));
    assert Get(body, "password") == Some(JString(password));
  }

  /** The converse of `Check`'s contract: a body whose email is a user's and
      whose password that user's hash accepts is let through, and with no
      throw the handler answers 200 for that user. */
  lemma {:induction false} CorrectCredentialsAccepted(rows: seq<UserRecord>, cookies: map<string, Cookie>, body: Json, i: nat,
                                   password: string, now: nat, issuedAt: nat, production: bool, crypto: Crypto)
    requires UniqueKeys(rows) && i < |rows|
    requires rows[i].email != "" && Get(body, "email") == Some(JString(rows[i].email))
    requires password != "" && Get(body, "password") == Some(JString(password))
    requires crypto.compare(password, rows[i].password)
    ensures Check(rows, Some(body), crypto, NoFault) == Accept(i)
    ensures Effect(rows, cookies, Some(body), now, issuedAt, production, crypto, NoFault).0 == Success(rows[i])
  {
    var found := FindByEmail(rows, rows[i].email);
    assert found.Some?;
  }

  /** Every throw ends in the catch-all 500, and a throw before the update
      writes nothing: an unreadable or `null` body, a failing lookup, a
      failing comparison or a failing update. A throw at a step the guards
      never reach leaves their answer as it was. */
  lemma ThrowAnswersInternalError(rows: seq<UserRecord>, cookies: map<string, Cookie>, input: Option<Json>,
                                  now: nat, issuedAt: nat, production: bool, crypto: Crypto, fault: Fault)
    ensures input.None? || input == Some(JNull) ==>
      Effect(rows, cookies, input, now, issuedAt, production, crypto, fault) == (InternalError, rows, cookies)
    ensures fault in {FindThrows, CompareThrows, UpdateThrows} ==>
      var (r, rows', cookies') := Effect(rows, cookies, input, now, issuedAt, production, crypto, fault);
      rows' == rows && cookies' == cookies && r in {MissingFields, InvalidCredentials, InternalError}
    ensures (fault == FindThrows && input.Some? && input.value != JNull
             && Truthy(Get(input.value, "email")) && Truthy(Get(input.value, "password"))) ==>
      Effect(rows, cookies, input, now, issuedAt, production, crypto, fault).0 == InternalError
    ensures (fault == CompareThrows && input.Some? && Truthy(Get(input.value, "password"))
             && Get(input.value, "email").Some? && Get(input.value, "email").value.JString?
             && Get(input.value, "email").value.s != ""
             && FindByEmail(rows, Get(input.value, "email").value.s).Some?) ==>
      Effect(rows, cookies, input, now, issuedAt, production, crypto, fault).0 == InternalError
    ensures fault == UpdateThrows ==>
      Effect(rows, cookies, input, now, issuedAt, production, crypto, fault).0 ==
        match Check(rows, input, crypto, NoFault)
        case Reject(r) => r
        case Accept(_) => InternalError
  {
  }

  /** No guard failure touches the table or the cookies. */
  lemma RejectWritesNothing(rows: seq<UserRecord>, cookies: map<string, Cookie>, input: Option<Json>,
                            now: nat, issuedAt: nat, production: bool, crypto: Crypto, fault: Fault)
    requires Check(rows, input, crypto, fault).Reject?
    ensures var (r, rows', cookies') := Effect(rows, cookies, input, now, issuedAt, production, crypto, fault);
      rows' == rows && cookies' == cookies && r.status in {400, 401, 500}
  {
  }

  /** Only a full run answers 200, and it answers with the id and email of a
      user whose email is the one given and whose password checked out. */
  lemma SuccessIsAuthenticated(rows: seq<UserRecord>, cookies: map<string, Cookie>, input: Option<Json>,
                               now: nat, issuedAt: nat, production: bool, crypto: Crypto, fault: Fault)
    ensures var (r, _, _) := Effect(rows, cookies, input, now, issuedAt, production, crypto, fault);
      r.status == 200 <==> Check(rows, input, crypto, fault).Accept? && fault !in {UpdateThrows, SignThrows, CookiesThrows}
    ensures var (r, _, _) := Effect(rows, cookies, input, now, issuedAt, production, crypto, fault);
      r.status == 200 ==>
        exists i :: 0 <= i < |rows|
          && Get(input.value, "email") == Some(JString(rows[i].email))
          && Get(input.value, "password").value.JString?
          && crypto.compare(Get(input.value, "password").value.s, rows[i].password)
          && r.body == LoginOk(rows[i].id, rows[i].email, "Login successful")
  {
  }

  /** On success exactly one row changes, in exactly its two login columns:
      the last login is now and the expiry is 24 hours later. */
  lemma SuccessStampsOnlyThatUser(rows: seq<UserRecord>, cookies: map<string, Cookie>, input: Option<Json>,
                                  now: nat, issuedAt: nat, production: bool, crypto: Crypto, fault: Fault)
    requires Check(rows, input, crypto, fault).Accept? && fault != UpdateThrows
    ensures var i := Check(rows, input, crypto, fault).index;
      var (_, rows', _) := Effect(rows, cookies, input, now, issuedAt, production, crypto, fault);
      |rows'| == |rows|
      && (forall j :: 0 <= j < |rows| && j != i ==> rows'[j] == rows[j])
      && rows'[i].id == rows[i].id && rows'[i].email == rows[i].email && rows'[i].password == rows[i].password
      && rows'[i].lastLoginAt == Some(now)
      && rows'[i].currentTokenExpiry == Some(now + 86400000)
  {
  }

  /** On success the `token` cookie is HTTP-only, same-site strict, scoped to
      `/`, secure exactly in production, expires when the stored expiry says,
      and carries the signed HS256 token; no other cookie changes. */
  lemma SuccessSetsSessionCookie(rows: seq<UserRecord>, cookies: map<string, Cookie>, input: Option<Json>,
                                 now: nat, issuedAt: nat, production: bool, crypto: Crypto)
    requires Check(rows, input, crypto, NoFault).Accept?
    ensures var i := Check(rows, input, crypto, NoFault).index;
      var (_, rows', cookies') := Effect(rows, cookies, input, now, issuedAt, production, crypto, NoFault);
      "token" in cookies'
      && cookies'["token"].httpOnly && cookies'["token"].sameSite == Strict && cookies'["token"].path == "/"
      && (cookies'["token"].secure <==> production)
      && Some(cookies'["token"].expires) == rows'[i].currentTokenExpiry
      && cookies'["token"].value == crypto.sign(JwtHeader("HS256"), TokenClaims(rows[i], now, issuedAt))
      && (forall name :: name in cookies' && name != "token" ==> name in cookies && cookies'[name] == cookies[name])
      && (forall name :: name in cookies && name != "token" ==> name in cookies')
  {
  }

  /** The token names the user and the login instant, and expires 24 hours
      (86400 seconds) after it was issued. */
  lemma ClaimsShape(u: UserRecord, now: nat, issuedAt: nat)
    ensures TokenClaims(u, now, issuedAt).userId == u.id && TokenClaims(u, now, issuedAt).email == u.email
    ensures TokenClaims(u, now, issuedAt).lastLogin == now
    ensures TokenClaims(u, now, issuedAt).exp - TokenClaims(u, now, issuedAt).iat == 86400
    ensures TokenClaims(u, now, issuedAt).iat * 1000 <= issuedAt < TokenClaims(u, now, issuedAt).iat * 1000 + 1000
  {
  }

  /** A throw after the row update answers 500 yet leaves the row stamped and
      sets no cookie. */
  lemma LateThrowKeepsStamp(rows: seq<UserRecord>, cookies: map<string, Cookie>, input: Option<Json>,
                            now: nat, issuedAt: nat, production: bool, crypto: Crypto, fault: Fault)
    requires Check(rows, input, crypto, fault).Accept? && fault in {SignThrows, CookiesThrows}
    ensures var i := Check(rows, input, crypto, fault).index;
      Effect(rows, cookies, input, now, issuedAt, production, crypto, fault)
        == (Response(500, ErrorBody("Internal server error")), rows[i := Stamp(rows[i], now)], cookies)
  {
  }

  /** Stamping keeps ids and emails unique. */
  lemma EffectKeepsKeysUnique(rows: seq<UserRecord>, cookies: map<string, Cookie>, input: Option<Json>,
                              now: nat, issuedAt: nat, production: bool, crypto: Crypto, fault: Fault)
    requires UniqueKeys(rows)
    ensures UniqueKeys(Effect(rows, cookies, input, now, issuedAt, production, crypto, fault).1)
  {
  }
}
