/** The request handlers of the authentication server: `POST /api/register`,
    `POST /api/login`, the `authRequired` guard, `GET /api/me` and
    `POST /api/logout`, with `makeToken` and `cookieOptions`.

    Each handler is a method that runs atomically against the users table.
    Its reply is the HTTP status, the JSON body and what it does to the
    `token` cookie. The clock (`Date.now()`) and bcrypt's random salt are
    parameters; the process configuration is a `Config` value. */
module Server {
  import opened JsText
  import EmailPattern
  import Bcrypt
  import Jwt
  import opened Store

  /** `COOKIE_NAME`. */
  const CookieName := "token"

  const MsgFillAll := "Tüm alanları doldurun."
  const MsgBadEmail := "Geçerli bir e-posta girin."
  const MsgShortPassword := "Şifre en az 6 karakter olmalı."
  const MsgEmailTaken := "Bu e-posta zaten kayıtlı."
  const MsgServerError := "Sunucu hatası."
  const MsgCredentialsRequired := "E-posta ve şifre gerekli."
  const MsgBadCredentials := "E-posta veya şifre hatalı."
  const MsgNoSession := "Oturum bulunamadı."
  const MsgSessionInvalid := "Oturum süresi dolmuş veya geçersiz."

  /** Shortest password the register handler accepts, in UTF-16 code units. */
  const MinPasswordLength := 6

  /** Process configuration: `JWT_SECRET`, whether `NODE_ENV` is
      `"production"`, and the raw value of `LOCAL_HTTPS`. */
  datatype Config = Config(secret: string, isProd: bool, localHttps: Option<string>)

  /** The options object handed to `res.cookie`. */
  datatype CookieAttributes = CookieAttributes(httpOnly: bool, sameSite: string, secure: bool, maxAge: nat)

  /** `cookieOptions()`: an HTTP-only, `SameSite=Lax` cookie that lives as
      long as the token it holds (seven days, in milliseconds), marked
      `Secure` in production or when local HTTPS is switched on. */
  function CookieOptions(cfg: Config): (o: CookieAttributes)
    ensures o.httpOnly && o.sameSite == "lax"
    ensures o.maxAge == 604_800_000 == Jwt.LifetimeSeconds * 1000
    ensures o.secure <==> cfg.isProd || cfg.localHttps == Some("true")
  {
    CookieAttributes(
      httpOnly := true,
      sameSite := "lax",
      secure := cfg.isProd || cfg.localHttps == Some("true"),
      maxAge := 7 * 24 * 60 * 60 * 1000)
  }

  /** The public view of a user, `{ id, name, email }`; it has no hash. */
  datatype PublicUser = PublicUser(id: nat, name: string, email: string)

  /** `{ id: row.id, name: row.name, email: row.email }`. */
  function Project(row: User): (u: PublicUser)
    ensures u.id == row.id && u.name == row.name && u.email == row.email
  {
    PublicUser(row.id, row.name, row.email)
  }

  /** The JSON body of a reply: `{ ok: false, error }`, `{ ok: true, user }`
      with a public user or with the session's token payload, or
      `{ ok: true }`. */
  datatype Body = Failure(error: string) | UserBody(user: PublicUser) | SessionBody(session: Jwt.Payload) | Done

  /** What a reply does to the client's `token` cookie. */
  datatype CookieAction = KeepCookie | SetCookie(name: string, token: Jwt.Token, options: CookieAttributes) | ClearCookie(name: string)

  datatype Reply = Reply(status: nat, body: Body, cookie: CookieAction)

  /** The reply of the handlers' `catch` block. */
  const ServerError := Reply(500, Failure(MsgServerError), KeepCookie)

  /** `res.status(status).json({ ok: false, error })`. */
  function Fail(status: nat, error: string): Reply {
    Reply(status, Failure(error), KeepCookie)
  }

  /** `makeToken(user)`: a token carrying exactly the user's id, e-mail and
      name, valid under the server secret from the moment it is made. */
  function MakeToken(user: PublicUser, secret: string, nowMs: nat): (t: Jwt.Token)
    ensures t.payload.id == user.id && t.payload.email == user.email && t.payload.name == user.name
    ensures Jwt.Verify(t, secret, nowMs) == Some(t.payload)
  {
    Jwt.Sign(Jwt.Claims(user.id, user.email, user.name), secret, nowMs)
  }

  /** The reply of a successful register or login: the public user, and the
      cookie holding a fresh token for that user. */
  function SignedIn(user: PublicUser, cfg: Config, nowMs: nat): Reply {
    Reply(200, UserBody(user), SetCookie(CookieName, MakeToken(user, cfg.secret, nowMs), CookieOptions(cfg)))
  }

  /** `req.body || {}` of a register request. */
  datatype RegisterBody = RegisterBody(name: Field, email: Field, password: Field)

  /** `req.body || {}` of a login request. */
  datatype LoginBody = LoginBody(email: Field, password: Field)

  /** A register request that passes the three input checks. */
  ghost predicate WellFormed(b: RegisterBody) {
    && Truthy(b.name) && Truthy(b.email) && Truthy(b.password)
    && EmailPattern.MatchesPattern(b.email.value)
    && Utf16Length(b.password.value) >= MinPasswordLength
  }

  /** `POST /api/register`. The checks run in source order and the first
      that fails decides the 400 message; then a taken e-mail gives 409.
      Every failure leaves the table as it was. On success exactly one row
      is added under a fresh id, holding the bcrypt digest of the password,
      and the reply carries the public user and a session cookie. The 500
      path (the insert rejected by the UNIQUE constraint) is never taken,
      because the e-mail was looked up first. */
  method Register(db: UserTable, cfg: Config, body: RegisterBody, salt: seq<Bcrypt.byte>, nowMs: nat)
    returns (reply: Reply)
    requires db.Valid()
    modifies db
    ensures db.Valid()
    ensures reply.status != 500
    ensures !(Truthy(body.name) && Truthy(body.email) && Truthy(body.password)) ==>
              reply == Fail(400, MsgFillAll)
    ensures Truthy(body.name) && Truthy(body.email) && Truthy(body.password)
            && !EmailPattern.MatchesPattern(body.email.value) ==>
              reply == Fail(400, MsgBadEmail)
    ensures Truthy(body.name) && Truthy(body.email) && Truthy(body.password)
            && EmailPattern.MatchesPattern(body.email.value)
            && Utf16Length(body.password.value) < MinPasswordLength ==>
              reply == Fail(400, MsgShortPassword)
    ensures WellFormed(body) && body.email.value in old(db.rows) ==>
              reply == Fail(409, MsgEmailTaken)
    ensures reply.status != 200 ==> db.rows == old(db.rows) && db.nextId == old(db.nextId)
    ensures WellFormed(body) && body.email.value !in old(db.rows) ==>
              var user := PublicUser(old(db.nextId), body.name.value, body.email.value);
              && db.rows == old(db.rows)[user.email := User(user.id, user.name, user.email, Bcrypt.Hash(body.password.value, salt))]
              && db.nextId == old(db.nextId) + 1
              && reply == SignedIn(user, cfg, nowMs)
  {
    if !Truthy(body.name) || !Truthy(body.email) || !Truthy(body.password) {
      return Fail(400, MsgFillAll);
    }
    var name, email, password := body.name.value, body.email.value, body.password.value;
    if !EmailPattern.Test(email) {
      return Fail(400, MsgBadEmail);
    }
    if Utf16Length(password) < MinPasswordLength {
      return Fail(400, MsgShortPassword);
    }

    var existing := db.FindByEmail(email);
    if existing.Some? {
      return Fail(409, MsgEmailTaken);
    }

    var hash := Bcrypt.Hash(password, salt);
    var id := db.Insert(name, email, hash);
    if id.None? {
      assert false;
      return ServerError;
    }
    var user := PublicUser(id.value, name, email);
    reply := SignedIn(user, cfg, nowMs);
  }

  /** `POST /api/login`. Missing credentials give 400. An unknown e-mail
      and a wrong password give one and the same 401 reply, so the reply
      never reveals whether an e-mail is registered. Otherwise the reply
      carries the stored row's public view and a session cookie. The
      handler only reads the table. */
  method Login(db: UserTable, cfg: Config, body: LoginBody, nowMs: nat) returns (reply: Reply)
    requires db.Valid()
    ensures reply.status == 400 <==> !(Truthy(body.email) && Truthy(body.password))
    ensures reply.status == 400 ==> reply == Fail(400, MsgCredentialsRequired)
    ensures reply.status == 401 <==>
              && Truthy(body.email) && Truthy(body.password)
              && (body.email.value !in db.rows
                  || !Bcrypt.Compare(body.password.value, db.rows[body.email.value].passwordHash))
    ensures reply.status == 401 ==> reply == Fail(401, MsgBadCredentials)
    ensures reply.status == 400 || reply.status == 401 || reply.status == 200
    ensures reply.status == 200 ==>
              body.email.value in db.rows && reply == SignedIn(Project(db.rows[body.email.value]), cfg, nowMs)
  {
    if !Truthy(body.email) || !Truthy(body.password) {
      return Fail(400, MsgCredentialsRequired);
    }
    var email, password := body.email.value, body.password.value;

    var row := db.FindByEmail(email);
    if row.None? {
      return Fail(401, MsgBadCredentials);
    }
    var ok := Bcrypt.Compare(password, row.value.passwordHash);
    if !ok {
      return Fail(401, MsgBadCredentials);
    }

    var user := Project(row.value);
    reply := SignedIn(user, cfg, nowMs);
  }

  /** The value of a request cookie, as far as the guard is concerned: a
      string that is not a well-formed token, or a token. */
  datatype CookieValue = Text(text: string) | Signed(token: Jwt.Token)

  /** An incoming request: its parsed cookies, and `req.user`, which only
      the guard sets. */
  class Request {
    const cookies: map<string, CookieValue>
    var user: Option<Jwt.Payload>

    constructor (cookies: map<string, CookieValue>)
      ensures this.cookies == cookies && user.None?
    {
      this.cookies := cookies;
      user := None;
    }
  }

  /** `req.cookies[COOKIE_NAME]` is truthy: present and not empty. */
  predicate HasToken(cookies: map<string, CookieValue>)
    ensures HasToken(cookies) <==>
              CookieName in cookies && (cookies[CookieName].Signed? || |cookies[CookieName].text| > 0)
  {
    CookieName in cookies && cookies[CookieName] != Text("")
  }

  /** `jwt.verify` applied to a cookie value; a string that is not a token
      makes it throw. */
  function CheckCookie(v: CookieValue, secret: string, nowMs: nat): (r: Option<Jwt.Payload>)
    ensures r.Some? <==>
              && v.Signed?
              && v.token.signature == Jwt.Hs256(secret, v.token.payload)
              && Jwt.Seconds(nowMs) < v.token.payload.exp
    ensures r.Some? ==> r.value == v.token.payload
  {
    match v
    case Text(_) => None
    case Signed(t) => Jwt.Verify(t, secret, nowMs)
  }

  /** `authRequired`: no token gives 401 "no session"; a token that does not
      verify gives 401 "expired or invalid"; a valid token attaches its
      payload to the request and lets it through (`rejection` is `None`).
      Nothing else about the request changes. */
  method AuthRequired(req: Request, secret: string, nowMs: nat) returns (rejection: Option<Reply>)
    modifies req
    ensures !HasToken(req.cookies) ==>
              rejection == Some(Fail(401, MsgNoSession)) && req.user == old(req.user)
    ensures HasToken(req.cookies) && CheckCookie(req.cookies[CookieName], secret, nowMs).None? ==>
              rejection == Some(Fail(401, MsgSessionInvalid)) && req.user == old(req.user)
    ensures HasToken(req.cookies) && CheckCookie(req.cookies[CookieName], secret, nowMs).Some? ==>
              rejection.None? && req.user == CheckCookie(req.cookies[CookieName], secret, nowMs)
  {
    if !HasToken(req.cookies) {
      return Some(Fail(401, MsgNoSession));
    }
    var payload := CheckCookie(req.cookies[CookieName], secret, nowMs);
    if payload.None? {
      return Some(Fail(401, MsgSessionInvalid));
    }
    req.user := payload;
    rejection := None;
  }

  /** The `GET /api/me` handler proper: it runs only after the guard has
      attached a payload, and echoes that payload unchanged. */
  method Me(req: Request) returns (reply: Reply)
    requires req.user.Some?
    ensures reply.status == 200 && reply.body == SessionBody(req.user.value) && reply.cookie == KeepCookie
  {
    reply := Reply(200, SessionBody(req.user.value), KeepCookie);
  }

  /** `app.get("/api/me", authRequired, handler)`: the guard, then the
      handler. A session cookie holding a token that still verifies yields
      exactly that token's payload, which is also left in `req.user`; a
      rejected request keeps its `req.user`. */
  method MeRoute(req: Request, cfg: Config, nowMs: nat) returns (reply: Reply)
    modifies req
    ensures req.user == if HasToken(req.cookies) && CheckCookie(req.cookies[CookieName], cfg.secret, nowMs).Some?
                        then CheckCookie(req.cookies[CookieName], cfg.secret, nowMs)
                        else old(req.user)
    ensures !HasToken(req.cookies) ==> reply == Fail(401, MsgNoSession)
    ensures HasToken(req.cookies) && CheckCookie(req.cookies[CookieName], cfg.secret, nowMs).None? ==>
              reply == Fail(401, MsgSessionInvalid)
    ensures HasToken(req.cookies) && CheckCookie(req.cookies[CookieName], cfg.secret, nowMs).Some? ==>
              reply == Reply(200, SessionBody(CheckCookie(req.cookies[CookieName], cfg.secret, nowMs).value), KeepCookie)
  {
    var rejection := AuthRequired(req, cfg.secret, nowMs);
    if rejection.Some? {
      return rejection.value;
    }
    reply := Me(req);
  }

  /** `POST /api/logout`: whatever the request carries, clear the cookie and
      answer `{ ok: true }`. The table is not an argument: the handler
      never touches it. */
  method Logout(req: Request) returns (reply: Reply)
    ensures reply == Reply(200, Done, ClearCookie(CookieName))
  {
    reply := Reply(200, Done, ClearCookie(CookieName));
  }
}
