/** Whole sessions run against a freshly created users table: a client
    registers, signs in, asks who it is and logs out. These are the
    end-to-end promises of the server, derived from the handlers' own
    contracts. */
module Flows {
  import opened JsText
  import EmailPattern
  import Bcrypt
  import Jwt
  import opened Store
  import opened Server

  /** Register on an empty table, sign in with some password, present the
      registration cookie to `GET /api/me` later on, log out and present the
      cookie again. The first user gets id 1. Sign-in succeeds exactly when
      bcrypt cannot tell the attempt from the registered password. The
      session answers with the registered identity until its seventh day is
      over, and logging out does not end it: the token is not revoked. */
  method SessionLifecycle(cfg: Config, body: RegisterBody, attempt: string, salt: seq<Bcrypt.byte>,
                          registeredMs: nat, loginMs: nat, laterMs: nat)
    returns (registered: Reply, login: Reply, me: Reply, loggedOut: Reply, meAgain: Reply)
    requires WellFormed(body) && attempt != ""
    ensures registered == SignedIn(PublicUser(1, body.name.value, body.email.value), cfg, registeredMs)
    ensures login.status == 200 <==> Bcrypt.Key(attempt) == Bcrypt.Key(body.password.value)
    ensures login.status != 200 ==> login == Fail(401, MsgBadCredentials)
    ensures login.status == 200 ==> login == SignedIn(PublicUser(1, body.name.value, body.email.value), cfg, loginMs)
    ensures me.status == 200 <==> Jwt.Seconds(laterMs) < Jwt.Seconds(registeredMs) + Jwt.LifetimeSeconds
    ensures me.status == 200 ==>
              && me.body.SessionBody?
              && me.body.session.id == 1
              && me.body.session.email == body.email.value
              && me.body.session.name == body.name.value
    ensures me.status != 200 ==> me == Fail(401, MsgSessionInvalid)
    ensures loggedOut == Reply(200, Done, ClearCookie(CookieName))
    ensures meAgain == me
  {
    var db := new UserTable();
    registered := Register(db, cfg, body, salt, registeredMs);
    var user := PublicUser(1, body.name.value, body.email.value);
    assert db.rows == map[user.email := User(1, user.name, user.email, Bcrypt.Hash(body.password.value, salt))];

    login := Login(db, cfg, LoginBody(body.email, Some(attempt)), loginMs);
    assert Bcrypt.Compare(attempt, db.rows[user.email].passwordHash)
       <==> Bcrypt.Key(attempt) == Bcrypt.Key(body.password.value);

    var token := registered.cookie.token;
    var req := new Request(map[CookieName := Signed(token)]);
    me := MeRoute(req, cfg, laterMs);

    loggedOut := Logout(req);
    var req' := new Request(map[CookieName := Signed(token)]);
    meAgain := MeRoute(req', cfg, laterMs);
  }

  /** The registration example: Ada registers with `ada@x.com` and
      `secret1` and becomes user 1; the same request again is refused with
      409; signing in with the password `wrong` gives the generic 401; and
      logging out with no session at all still succeeds. */
  method AdaExample(cfg: Config, salt: seq<Bcrypt.byte>, nowMs: nat)
    returns (first: Reply, again: Reply, wrong: Reply, out: Reply)
    ensures first.status == 200 && first.body == UserBody(PublicUser(1, "Ada", "ada@x.com"))
    ensures first.cookie.SetCookie? && first.cookie.name == "token"
    ensures again == Reply(409, Failure("Bu e-posta zaten kayıtlı."), KeepCookie)
    ensures wrong == Reply(401, Failure("E-posta veya şifre hatalı."), KeepCookie)
    ensures out == Reply(200, Done, ClearCookie("token"))
  {
    var body := RegisterBody(Some("Ada"), Some("ada@x.com"), Some("secret1"));
    AdaRequestWellFormed();
    var db := new UserTable();
    first := Register(db, cfg, body, salt, nowMs);
    again := Register(db, cfg, body, salt, nowMs);

    WrongPasswordRejected(salt);
    wrong := Login(db, cfg, LoginBody(Some("ada@x.com"), Some("wrong")), nowMs);

    var anonymous := new Request(map[]);
    out := Logout(anonymous);
  }

  lemma AdaRequestWellFormed()
    ensures WellFormed(RegisterBody(Some("Ada"), Some("ada@x.com"), Some("secret1")))
  {
    var email := "ada@x.com";
    assert EmailPattern.MatchesPattern(email) by {
      assert email[3] == '@' && email[5] == '.';
      assert email[..3] == "ada";
      assert email[4..5] == "x";
      assert email[6..] == "com";
      assert NoSpace("ada") && NoSpace("x") && NoSpace("com");
    }
    assert Utf16Length("secret1") >= |"secret1"|;
  }

  lemma WrongPasswordRejected(salt: seq<Bcrypt.byte>)
    ensures !Bcrypt.Compare("wrong", Bcrypt.Hash("secret1", salt))
  {
    Bcrypt.Utf8Length("wrong");
    Bcrypt.Utf8Length("secret1");
    Bcrypt.ShortPasswordsDistinguished("secret1", "wrong", salt);
  }
}
