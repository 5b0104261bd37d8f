/**
 * lib/auth.ts: minting and verifying the signed session token
 * `b64url(payload) "." b64url(HMAC(secret, b64url(payload)))`.
 *
 * HMAC-SHA-256 (RFC 2104) and the JSON/UTF-8 payload serialisation are
 * platform calls; they enter as function-valued parameters (`Hmac`,
 * `PayloadCodec`) and are never interpreted. The clock is the parameter `now`.
 */
module Session {
  import opened Wrappers
  import opened JsString
  import opened Base64
  import opened ProcessEnv

  const DefaultTtlSeconds: int := 43200
  const DefaultCookieName: string := "ws2_metrics_session"

  /** The module-level constants SECRET, TTL_SECONDS and COOKIE_NAME. */
  datatype Settings = Settings(secret: string, ttlSeconds: int, cookieName: string)

  function SettingsFromEnv(env: Env): (st: Settings)
    ensures st.secret == OrElse(env.sessionSecret, "")
    ensures env.sessionTtlSeconds.None? ==> st.ttlSeconds == 43200
    ensures env.sessionTtlSeconds.Some? ==> st.ttlSeconds == env.sessionTtlSeconds.value
    ensures env.sessionCookieName.None? ==> st.cookieName == "ws2_metrics_session"
    ensures env.sessionCookieName.Some? ==> st.cookieName == env.sessionCookieName.value
  {
    Settings(OrElse(env.sessionSecret, ""),
             OrElse(env.sessionTtlSeconds, DefaultTtlSeconds),
             OrElse(env.sessionCookieName, DefaultCookieName))
  }

  /** What `getSessionConfig` reports: never the secret itself, only whether one is set. */
  datatype SessionConfig = SessionConfig(cookieName: string, ttlSeconds: int, hasSecret: bool)

  function GetSessionConfig(st: Settings): (c: SessionConfig)
    ensures c.hasSecret <==> st.secret != ""
    ensures c.cookieName == st.cookieName && c.ttlSeconds == st.ttlSeconds
  {
    SessionConfig(st.cookieName, st.ttlSeconds, st.secret != "")
  }

  /** `hmacSha256(secret, data)`: a deterministic keyed digest, left uninterpreted. */
  type Hmac = (string, string) -> seq<byte>

  datatype SessionPayload = SessionPayload(u: string, exp: int)

  /** The payload `createSessionCookie` signs: the user and the expiry `now + TTL_SECONDS`. */
  function MintedPayload(st: Settings, username: string, now: int): SessionPayload {
    SessionPayload(username, now + st.ttlSeconds)
  }

  /** A property of a parsed JSON value, as far as `verifySessionCookie` inspects it. */
  datatype JsonField = Undefined | Null | Bool(b: bool) | Number(n: real) | Text(s: string) | Composite

  /** A parsed JSON value: an object with its `u` and `exp` properties, or anything else. */
  datatype ParsedJson = Object(u: JsonField, exp: JsonField) | NotObject

  /**
   * `TextEncoder.encode(JSON.stringify(p))` and `JSON.parse(TextDecoder.decode(b))`;
   * `parse` gives `None` where `JSON.parse` throws.
   */
  datatype PayloadCodec = PayloadCodec(serialize: SessionPayload -> seq<byte>, parse: seq<byte> -> Option<ParsedJson>)

  /** What JSON promises: parsing a serialised payload gives back its two fields. */
  ghost predicate CodecRoundTrips(codec: PayloadCodec) {
    forall p: SessionPayload :: codec.parse(codec.serialize(p)) == Some(Object(Text(p.u), Number(p.exp as real)))
  }

  /** JavaScript truthiness of a property value. */
  predicate Truthy(f: JsonField) {
    match f
    case Undefined => false
    case Null => false
    case Bool(b) => b
    case Number(n) => n != 0.0
    case Text(s) => s != ""
    case Composite => true
  }

  /** The body of a token: the URL encoding of the serialised payload. */
  function EncodedPayload(codec: PayloadCodec, p: SessionPayload): string {
    B64UrlEncode(codec.serialize(p))
  }

  /** The signature part that belongs to a body under a secret. */
  function Signature(hmac: Hmac, secret: string, body: string): string {
    B64UrlEncode(hmac(secret, body))
  }

  datatype SessionCookie = SessionCookie(token: string, maxAge: int)

  /** `createSessionCookie(username)` at time `now`; throws when no secret is set. */
  function CreateSessionCookie(st: Settings, hmac: Hmac, codec: PayloadCodec, username: string, now: int): (r: Result<SessionCookie, string>)
    ensures r.Failure? <==> st.secret == ""
    ensures r.Success? ==> r.value.maxAge == st.ttlSeconds
  {
    if st.secret == "" then Failure("SESSION_SECRET is not set")
    else
      var body := EncodedPayload(codec, MintedPayload(st, username, now));
      Success(SessionCookie(body + "." + Signature(hmac, st.secret, body), st.ttlSeconds))
  }

  /**
   * A minted token splits on `.` into exactly its payload part and the
   * signature of that part; both are in the URL-safe alphabet.
   */
  lemma MintedTokenSplits(st: Settings, hmac: Hmac, codec: PayloadCodec, username: string, now: int)
    requires st.secret != ""
    ensures var body := EncodedPayload(codec, MintedPayload(st, username, now));
      var token := CreateSessionCookie(st, hmac, codec, username, now).value.token;
      Split(token, '.') == [body, Signature(hmac, st.secret, body)]
  {
    var body := EncodedPayload(codec, MintedPayload(st, username, now));
    UrlEncodeAlphabet(codec.serialize(MintedPayload(st, username, now)));
    UrlEncodeAlphabet(hmac(st.secret, body));
    SplitPair(body, Signature(hmac, st.secret, body), '.');
  }

  /** The payload checks of `verifySessionCookie`, run once the signature has matched. */
  function PayloadAccepted(codec: PayloadCodec, body: string, now: int): bool {
    match B64UrlDecoded(body)
    case None => false
    case Some(bytes) =>
      match codec.parse(bytes)
      case None => false
      case Some(NotObject) => false
      case Some(Object(u, exp)) => Truthy(u) && exp.Number? && exp.n > now as real
  }

  /**
   * On the URL encoding of any bytes, the payload checks judge exactly the
   * value the codec parses from those bytes.
   */
  lemma PayloadOfEncoded(codec: PayloadCodec, bytes: seq<byte>, now: int)
    ensures var parsed := codec.parse(bytes);
      PayloadAccepted(codec, B64UrlEncode(bytes), now) <==>
        parsed.Some? && parsed.value.Object? && Truthy(parsed.value.u) &&
        parsed.value.exp.Number? && parsed.value.exp.n > now as real
  {
    B64UrlRoundTrip(bytes);
  }

  /** `verifySessionCookie(token)` at time `now`: an ordered chain of early rejections. */
  function VerifySessionCookie(st: Settings, hmac: Hmac, codec: PayloadCodec, token: string, now: int): (ok: bool)
    ensures st.secret == "" ==> !ok
    ensures |Split(token, '.')| != 2 ==> !ok
  {
    if st.secret == "" then false
    else
      var parts := Split(token, '.');
      if |parts| != 2 then false
      else
        var body, sig := parts[0], parts[1];
        // timingSafeEqual(sig, expectedSig) is true exactly when the two are equal
        if sig != Signature(hmac, st.secret, body) then false
        else PayloadAccepted(codec, body, now)
  }

  /** Bitwise `x ^ y` on non-negative integers. */
  function Xor(x: nat, y: nat): nat
    decreases x + y
  {
    if x == 0 && y == 0 then 0 else 2 * Xor(x / 2, y / 2) + (if x % 2 != y % 2 then 1 else 0)
  }

  /** Bitwise `x | y` on non-negative integers. */
  function Or(x: nat, y: nat): nat
    decreases x + y
  {
    if x == 0 && y == 0 then 0 else 2 * Or(x / 2, y / 2) + (if x % 2 == 1 || y % 2 == 1 then 1 else 0)
  }

  lemma {:induction false} XorZero(x: nat, y: nat)
    ensures Xor(x, y) == 0 <==> x == y
    decreases x + y
  {
    if !(x == 0 && y == 0) {
      XorZero(x / 2, y / 2);
    }
  }

  lemma {:induction false} OrZero(x: nat, y: nat)
    ensures Or(x, y) == 0 <==> x == 0 && y == 0
    decreases x + y
  {
    if !(x == 0 && y == 0) {
      OrZero(x / 2, y / 2);
    }
  }

  /**
   * `timingSafeEqual(a, b)`: after the length check, every index is visited and
   * the differences are accumulated with `|=`, with no early exit.
   */
  method TimingSafeEqual(a: string, b: string) returns (eq: bool, ghost visited: nat)
    ensures eq <==> a == b
    ensures |a| != |b| ==> !eq
    ensures |a| == |b| ==> visited == |a|
  {
    if |a| != |b| {
      return false, 0;
    }
    var out: nat := 0;
    var i := 0;
    while i < |a|
      invariant 0 <= i <= |a|
      invariant out == 0 <==> a[..i] == b[..i]
    {
      XorZero(a[i] as int, b[i] as int);
      OrZero(out, Xor(a[i] as int, b[i] as int));
      assert a[..i + 1] == a[..i] + [a[i]] && b[..i + 1] == b[..i] + [b[i]];
      out := Or(out, Xor(a[i] as int, b[i] as int));
      i := i + 1;
    }
    assert a[..i] == a && b[..i] == b;
    eq, visited := out == 0, i;
  }

  /**
   * A token that verifies is `body "." sig` with one separator, `sig` is the
   * URL-safe signature of `body` under the secret, and the payload it carries
   * has a truthy `u` and a numeric `exp` strictly after `now`.
   */
  lemma VerifiedTokenShape(st: Settings, hmac: Hmac, codec: PayloadCodec, token: string, now: int)
    requires VerifySessionCookie(st, hmac, codec, token, now)
    ensures st.secret != ""
    ensures var parts := Split(token, '.');
      && |parts| == 2
      && token == parts[0] + "." + parts[1]
      && '.' !in parts[0] && '.' !in parts[1]
      && parts[1] == Signature(hmac, st.secret, parts[0])
      && B64UrlDecoded(parts[0]).Some?
      && var parsed := codec.parse(B64UrlDecoded(parts[0]).value);
         parsed.Some? && parsed.value.Object? && Truthy(parsed.value.u)
         && parsed.value.exp.Number? && parsed.value.exp.n > now as real
  {
    SplitInTwo(token, '.');
    SplitPiecesFree(token, '.');
  }

  /**
   * The signature is compared before the payload is decoded: a token whose
   * signature part does not match is refused whatever the payload codec does.
   */
  lemma SignatureCheckedFirst(st: Settings, hmac: Hmac, codec1: PayloadCodec, codec2: PayloadCodec, token: string, now: int)
    requires |Split(token, '.')| == 2
    requires Split(token, '.')[1] != Signature(hmac, st.secret, Split(token, '.')[0])
    ensures !VerifySessionCookie(st, hmac, codec1, token, now)
    ensures VerifySessionCookie(st, hmac, codec1, token, now) == VerifySessionCookie(st, hmac, codec2, token, now)
  {
  }

  /**
   * A freshly minted token verifies under the same secret at time `later`
   * exactly when its username is non-empty and `later` is before its expiry
   * `now + ttl` (so an expiry equal to the current time is refused).
   */
  lemma MintedTokenVerifies(st: Settings, hmac: Hmac, codec: PayloadCodec, username: string, now: int, later: int)
    requires CodecRoundTrips(codec)
    requires st.secret != ""
    ensures var token := CreateSessionCookie(st, hmac, codec, username, now).value.token;
      VerifySessionCookie(st, hmac, codec, token, later) <==> username != "" && later < now + st.ttlSeconds
  {
    var p := MintedPayload(st, username, now);
    var body := EncodedPayload(codec, p);
    var sig := Signature(hmac, st.secret, body);
    var token := CreateSessionCookie(st, hmac, codec, username, now).value.token;
    MintedTokenSplits(st, hmac, codec, username, now);
    assert VerifySessionCookie(st, hmac, codec, token, later) == PayloadAccepted(codec, body, later);
    MintedPayloadAccepted(codec, p, later);
  }

  /** The payload part of a minted token passes the payload checks exactly while it is unexpired and names someone. */
  lemma MintedPayloadAccepted(codec: PayloadCodec, p: SessionPayload, later: int)
    requires CodecRoundTrips(codec)
    ensures PayloadAccepted(codec, EncodedPayload(codec, p), later) <==> p.u != "" && later < p.exp
  {
    B64UrlRoundTrip(codec.serialize(p));
    assert codec.parse(codec.serialize(p)) == Some(Object(Text(p.u), Number(p.exp as real)));
  }

  /**
   * Replacing the signature part of a minted token by anything else makes it
   * fail verification, whatever the payload and the time.
   */
  lemma ForgedSignatureRejected(st: Settings, hmac: Hmac, codec: PayloadCodec, username: string, now: int, forged: string, later: int)
    requires st.secret != ""
    requires forged != Signature(hmac, st.secret, EncodedPayload(codec, MintedPayload(st, username, now)))
    ensures var body := EncodedPayload(codec, MintedPayload(st, username, now));
      !VerifySessionCookie(st, hmac, codec, body + "." + forged, later)
  {
    var body := EncodedPayload(codec, MintedPayload(st, username, now));
    UrlEncodeAlphabet(codec.serialize(MintedPayload(st, username, now)));
    SplitAfterFirst(body, forged, '.');
    if '.' in forged {
      SplitMany(forged, '.');
    }
  }
}
