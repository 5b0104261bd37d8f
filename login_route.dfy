/**
 * app/api/auth/login/route.ts: `POST /api/auth/login`, a fixed-order guard
 * chain (secret, credential configuration, credential equality) that ends in
 * a JSON reply and, on success, a session cookie on the response.
 */
module LoginRoute {
  import opened Wrappers
  import opened ProcessEnv
  import opened Session

  /** A property of the parsed request body, as `body?.name` yields it. */
  datatype BodyField =
    | Absent             // undefined: no such property, or no body object at all
    | Null
    | Str(s: string)
    | Other(text: string) // a number, boolean or object, with the text `String(x)` gives it

  /** The three properties the route reads; `None` when `req.json()` rejected or gave `null`. */
  datatype LoginBody = LoginBody(user: BodyField, pass: BodyField, next: BodyField)

  /** `String(x ?? d)`. */
  function FieldText(f: BodyField, d: string): (r: string)
    ensures f.Absent? || f.Null? ==> r == d
    ensures f.Str? ==> r == f.s
    ensures f.Other? ==> r == f.text
  {
    match f
    case Absent => d
    case Null => d
    case Str(s) => s
    case Other(text) => text
  }

  /** The properties `body?.user`, `body?.pass`, `body?.next` for a body that may be missing. */
  function Props(body: Option<LoginBody>): LoginBody {
    match body
    case None => LoginBody(Absent, Absent, Absent)
    case Some(b) => b
  }

  function BodyUser(body: Option<LoginBody>): string { FieldText(Props(body).user, "") }
  function BodyPass(body: Option<LoginBody>): string { FieldText(Props(body).pass, "") }
  function BodyNext(body: Option<LoginBody>): string { FieldText(Props(body).next, "/dashboard") }

  /** The JSON reply: `{ error }` or `{ redirectTo, ttlSeconds }`. */
  datatype Reply = Error(error: string) | Redirect(redirectTo: string, ttlSeconds: int)

  /** The attributes `res.cookies.set` gives the session cookie. */
  datatype SetCookie = SetCookie(name: string, value: string, httpOnly: bool, sameSite: string,
                                 secure: bool, path: string, maxAge: int)

  datatype LoginResponse = LoginResponse(status: int, reply: Reply, cookie: Option<SetCookie>)

  const NoSecret := LoginResponse(500, Error("SESSION_SECRET is not set"), None)
  const NoCredentials := LoginResponse(500, Error("DASH_USER/DASH_PASS is not set"), None)
  const BadCredentials := LoginResponse(401, Error("Invalid username or password"), None)

  /** The credentials a request must carry: configured, and equal to the body's. */
  predicate Authenticates(env: Env, body: Option<LoginBody>) {
    DashUser(env) != "" && DashPass(env) != "" &&
    BodyUser(body) == DashUser(env) && BodyPass(body) == DashPass(env)
  }

  /**
   * `POST(req)` at time `now`. The secret is checked before the body is looked
   * at; an unset DASH_USER or DASH_PASS is a 500, distinct from the 401 of a
   * mismatch; only a full match sets a cookie.
   */
  function Post(env: Env, hmac: Hmac, codec: PayloadCodec, body: Option<LoginBody>, now: int): (r: LoginResponse)
    ensures r.status in {200, 401, 500}
    ensures SettingsFromEnv(env).secret == "" ==> r == NoSecret
    ensures SettingsFromEnv(env).secret != "" && (DashUser(env) == "" || DashPass(env) == "") ==> r == NoCredentials
    ensures r.status == 200 <==> SettingsFromEnv(env).secret != "" && Authenticates(env, body)
    ensures r.status != 200 ==> r.reply.Error? && r.cookie.None?
    ensures r.status == 401 ==> r == BadCredentials
    ensures (SettingsFromEnv(env).secret != "" && DashUser(env) != "" && DashPass(env) != "" &&
             !Authenticates(env, body)) ==> r == BadCredentials
    ensures r.status == 500 <==> SettingsFromEnv(env).secret == "" || DashUser(env) == "" || DashPass(env) == ""
    ensures r.status == 200 ==>
      var st := SettingsFromEnv(env);
      r.reply == Redirect(BodyNext(body), st.ttlSeconds) &&
      r.cookie.Some? && r.cookie.value.name == st.cookieName &&
      r.cookie.value.httpOnly && r.cookie.value.sameSite == "lax" && r.cookie.value.path == "/" &&
      r.cookie.value.secure == (env.nodeEnv == Some("production")) &&
      r.cookie.value.maxAge == st.ttlSeconds
  {
    var st := SettingsFromEnv(env);
    var config := GetSessionConfig(st);
    if !config.hasSecret then NoSecret
    else
      var user := BodyUser(body);
      var pass := BodyPass(body);
      var next := BodyNext(body);
      var expectedUser := DashUser(env);
      var expectedPass := DashPass(env);
      if expectedUser == "" || expectedPass == "" then NoCredentials
      else if user != expectedUser || pass != expectedPass then BadCredentials
      else
        // the secret is set, so createSessionCookie does not throw
        var minted := CreateSessionCookie(st, hmac, codec, user, now).value;
        LoginResponse(200, Redirect(next, config.ttlSeconds),
          Some(SetCookie(config.cookieName, minted.token, true, "lax",
                         env.nodeEnv == Some("production"), "/", minted.maxAge)))
  }

  /** `next` falls back to `/dashboard` only when absent or null; an empty `next` is kept. */
  lemma NextDefault(user: BodyField, pass: BodyField)
    ensures BodyNext(Some(LoginBody(user, pass, Str("")))) == ""
    ensures BodyNext(Some(LoginBody(user, pass, BodyField.Null))) == "/dashboard"
    ensures BodyNext(Some(LoginBody(user, pass, Absent))) == "/dashboard"
    ensures BodyNext(None) == "/dashboard"
  {
  }

  /**
   * The cookie a successful login sets carries a token that the session
   * verifier accepts at every later time before its expiry `now + ttl`, and at
   * no time from the expiry on.
   */
  lemma LoginCookieVerifies(env: Env, hmac: Hmac, codec: PayloadCodec, body: Option<LoginBody>, now: int, later: int)
    requires CodecRoundTrips(codec)
    requires Post(env, hmac, codec, body, now).status == 200
    ensures var st := SettingsFromEnv(env);
      var token := Post(env, hmac, codec, body, now).cookie.value.value;
      VerifySessionCookie(st, hmac, codec, token, later) <==> later < now + st.ttlSeconds
  {
    var st := SettingsFromEnv(env);
    assert BodyUser(body) == DashUser(env) != "";
    MintedTokenVerifies(st, hmac, codec, BodyUser(body), now, later);
  }
}
