/**
 * middleware.ts: the request gate in front of the dashboard. It is HTTP Basic
 * authentication (section 2 of RFC 7617) against DASH_USER / DASH_PASS: an
 * ordered chain of early rejections, all answered by the same 401 response.
 *
 * `Buffer.from(text, "base64")` decodes well-formed padded base64 exactly as
 * section 4 of RFC 4648 says; what it makes of malformed text, and the UTF-8
 * decoding of the bytes, are platform behaviour and enter as the parameter
 * `NodeBuffer`.
 */
module BasicAuthGate {
  import opened Wrappers
  import opened JsString
  import opened Base64
  import opened ProcessEnv

  /** Either `NextResponse.next()` or a response with status, body and headers. */
  datatype GateResponse = Next | Respond(status: int, body: string, headers: seq<(string, string)>)

  const BasicPrefix: string := "Basic "

  /**
   * `unauthorized()`: the one rejection the gate ever gives, a 401 whose only
   * header is the `WWW-Authenticate` challenge of the `Basic` scheme with a
   * realm (section 2 of RFC 7617).
   */
  function Unauthorized(): (r: GateResponse)
    ensures r.Respond? && r.status == 401 && |r.headers| == 1
    ensures r.headers[0].0 == "WWW-Authenticate" && StartsWith(r.headers[0].1, "Basic realm=")
  {
    assert "Basic realm=\"Metrics Dashboard\""[..12] == "Basic realm=";
    Respond(401, "Unauthorized", [("WWW-Authenticate", "Basic realm=\"Metrics Dashboard\"")])
  }

  /**
   * The platform side of `Buffer.from(b64, "base64").toString("utf8")`:
   * the bytes Node makes of text that is not well-formed base64, and the
   * UTF-8 decoder (which replaces bad sequences rather than throwing).
   */
  datatype NodeBuffer = NodeBuffer(lenientBase64: string -> seq<byte>, utf8Decode: seq<byte> -> string)

  /** `Buffer.from(s, "base64")`: exact on well-formed input, platform-defined otherwise. */
  function BufferFromBase64(buf: NodeBuffer, s: string): seq<byte> {
    match Base64Decode(s)
    case Some(b) => b
    case None => buf.lenientBase64(s)
  }

  /** The text carried by a `Basic` header: what follows the scheme, trimmed, decoded. */
  function DecodedCredentials(buf: NodeBuffer, header: string): string
    requires StartsWith(header, BasicPrefix)
  {
    buf.utf8Decode(BufferFromBase64(buf, Trim(header[|BasicPrefix|..])))
  }

  /** A header `"Basic " + base64(b)` carries exactly the text the UTF-8 decoder makes of `b`. */
  lemma DecodedEncoded(buf: NodeBuffer, b: seq<byte>)
    ensures StartsWith(BasicPrefix + Base64Encode(b), BasicPrefix)
    ensures DecodedCredentials(buf, BasicPrefix + Base64Encode(b)) == buf.utf8Decode(b)
  {
    var b64 := Base64Encode(b);
    var header := BasicPrefix + b64;
    assert header[..|BasicPrefix|] == BasicPrefix;
    assert header[|BasicPrefix|..] == b64;
    Base64EncodeNoWhitespace(b);
    TrimUntouched(b64);
    Base64RoundTrip(b);
  }

  /** The check on the decoded text: split at the first `:`, compare both halves. */
  predicate CredentialsMatch(decoded: string, user: string, pass: string) {
    var idx := IndexOf(decoded, ':');
    idx >= 0 && decoded[..idx] == user && decoded[idx + 1..] == pass
  }

  /**
   * Splitting at the first `:` accepts exactly the text `user ":" pass` for a
   * user without `:`; the password may hold further colons.
   */
  lemma CredentialsMatchIff(decoded: string, user: string, pass: string)
    ensures CredentialsMatch(decoded, user, pass) <==> ':' !in user && decoded == user + ":" + pass
  {
    var idx := IndexOf(decoded, ':');
    if CredentialsMatch(decoded, user, pass) {
      assert decoded == decoded[..idx] + [':'] + decoded[idx + 1..];
    }
    if ':' !in user && decoded == user + ":" + pass {
      IndexOfAfter(user, pass, ':');
      assert decoded[..|user|] == user && decoded[|user| + 1..] == pass;
    }
  }

  /**
   * `middleware(req)` with the request reduced to its Authorization header.
   * It lets the request through exactly when both configured values are set,
   * the header starts with the case-sensitive `"Basic "`, and its credentials
   * decode to `user ":" pass` with the configured user and password; every
   * other outcome is the same 401.
   */
  function Middleware(env: Env, buf: NodeBuffer, authorization: Option<string>): (r: GateResponse)
    ensures r == Next || r == Unauthorized()
    ensures DashUser(env) == "" || DashPass(env) == "" ==> r == Unauthorized()
    ensures authorization.None? || !StartsWith(authorization.value, BasicPrefix) ==> r == Unauthorized()
    ensures r == Next <==>
      DashUser(env) != "" && DashPass(env) != "" &&
      authorization.Some? && StartsWith(authorization.value, BasicPrefix) &&
      ':' !in DashUser(env) &&
      DecodedCredentials(buf, authorization.value) == DashUser(env) + ":" + DashPass(env)
  {
    var user := DashUser(env);
    var pass := DashPass(env);
    if user == "" || pass == "" then Unauthorized()
    else if authorization.None? || !StartsWith(authorization.value, BasicPrefix) then Unauthorized()
    else
      // Buffer.from and toString("utf8") do not throw on a string, so the
      // catch branch of the source never runs.
      var decoded := DecodedCredentials(buf, authorization.value);
      CredentialsMatchIff(decoded, user, pass);
      if CredentialsMatch(decoded, user, pass) then Next else Unauthorized()
  }

  /** Standard base64 text has no whitespace at either end. */
  lemma Base64EncodeNoWhitespace(b: seq<byte>)
    ensures forall i :: 0 <= i < |Base64Encode(b)| ==> !IsJsWhitespace(Base64Encode(b)[i])
  {
    var s := Base64Encode(b);
    var t := Base64NoPad(b);
    forall i | 0 <= i < |s|
      ensures !IsJsWhitespace(s[i])
    {
      if i < |t| {
        assert s[i] == t[i] && IsStdChar(t[i]);
      } else {
        assert s[i] == '=';
      }
    }
  }

  /**
   * A client that sends `"Basic " + base64(utf8(user ":" pass))` with the
   * configured credentials is let through, whenever UTF-8 decoding undoes the
   * client's encoding of that text and the user holds no `:`.
   */
  lemma ClientHeaderAccepted(env: Env, buf: NodeBuffer, utf8Encode: string -> seq<byte>)
    requires DashUser(env) != "" && DashPass(env) != ""
    requires ':' !in DashUser(env)
    requires var text := DashUser(env) + ":" + DashPass(env);
      buf.utf8Decode(utf8Encode(text)) == text
    ensures var text := DashUser(env) + ":" + DashPass(env);
      Middleware(env, buf, Some(BasicPrefix + Base64Encode(utf8Encode(text)))) == Next
  {
    var text := DashUser(env) + ":" + DashPass(env);
    DecodedEncoded(buf, utf8Encode(text));
  }

  /** The scheme name is compared case-sensitively: a lower-case `basic` is refused. */
  lemma LowercaseSchemeRejected(env: Env, buf: NodeBuffer, rest: string)
    ensures Middleware(env, buf, Some("basic " + rest)) == Unauthorized()
  {
    var header := "basic " + rest;
    assert header[0] == 'b';
    assert !StartsWith(header, BasicPrefix);
  }

  /** `config.matcher`: `/` and `/dashboard` with any sub-path. */
  predicate InMatcherScope(path: string) {
    path == "/" || path == "/dashboard" || StartsWith(path, "/dashboard/")
  }

  /** What a request to `path` meets: the middleware inside the matcher, nothing outside it. */
  function RequestGate(path: string, env: Env, buf: NodeBuffer, authorization: Option<string>): (r: GateResponse)
    ensures r == Next || r == Unauthorized()
    ensures !InMatcherScope(path) ==> r == Next
    ensures InMatcherScope(path) ==> r == Middleware(env, buf, authorization)
  {
    if InMatcherScope(path) then Middleware(env, buf, authorization) else Next
  }

  /**
   * `/dashboard/:path*` takes every sub-path of `/dashboard`; everything in
   * scope is `/` or starts with `/dashboard`, so `/api/...` and `/login...`
   * are never gated.
   */
  lemma MatcherScopeShape(path: string, rest: string)
    ensures InMatcherScope("/dashboard/" + rest)
    ensures InMatcherScope(path) ==> path == "/" || StartsWith(path, "/dashboard")
    ensures StartsWith(path, "/api/") || StartsWith(path, "/login") ==> !InMatcherScope(path)
  {
    assert ("/dashboard/" + rest)[..11] == "/dashboard/";
    if StartsWith(path, "/api/") || StartsWith(path, "/login") {
      assert path[1] != 'd';
    }
  }

  /** The login page and the authentication API lie outside the gate; dashboard pages inside. */
  lemma MatcherScopeExamples()
    ensures !InMatcherScope("/login") && !InMatcherScope("/api/auth/login")
    ensures !InMatcherScope("/dashboards")
    ensures InMatcherScope("/") && InMatcherScope("/dashboard") && InMatcherScope("/dashboard/requests")
  {
    assert "/login"[1] == 'l';
    assert "/api/auth/login"[1] == 'a';
    assert "/dashboards"[10] == 's';
    assert "/dashboard/requests"[..11] == "/dashboard/";
  }
}
