// auth.php: sign-in for the artist's site. The host gives the subdomain, a
// session older than an hour is cleared on every request, Google sign-in
// starts with a `subdomain|csrf` state, the central callback's signed token
// is checked step by step before the session is marked authenticated,
// video-upload tokens are issued at most ten per hour, and a magic link is
// requested only for the artist's own address.
module Auth {
  import opened Common
  import opened PhpExport
  import Setup

  // ---------------------------------------------------------------------
  // PHP conversions the handlers rely on

  /** `$config[k] ?? ''` as a string; a non-string value reads as its text, an array as "". */
  function ConfigText(config: seq<Entry>, k: string): string
  {
    match Setup.Field(config, k)
    case Some(v) => if ValueText(v).Some? then ValueText(v).value else ""
    case None => ""
  }

  /** strtolower(trim($config['email'] ?? '')); None when the value is an array. */
  function ArtistEmail(config: seq<Entry>): Option<string>
  {
    match Setup.Field(config, "email")
    case Some(v) => if ValueText(v).Some? then Some(ToLower(Trim(ValueText(v).value))) else None
    case None => Some("")
  }

  /** strtolower(trim(...)) of a request's or token's e-mail field, "" when unset; None when it is an array. */
  function ClaimedEmail(f: map<string, Json>): Option<string>
  {
    if !IsSet(f, "email") then Some("")
    else match JsonText(f["email"])
      case Some(t) => Some(ToLower(Trim(t)))
      case None => None
  }

  // ---------------------------------------------------------------------
  // The subdomain

  predicate IsLabelChar(c: char) { IsAlnum(c) || c == '-' }

  /**
   * The label of a host of the form `<label>.<domain>`, matched as
   * /^([a-z0-9-]+)\.<domain>$/i: letters in either case, the domain
   * compared without regard to case.
   */
  function HostLabel(host: string, domain: string): (r: Option<string>)
    ensures r.Some? ==> r.value != [] && |r.value| < |host| && host[..|r.value|] == r.value && host[|r.value|] == '.'
    ensures r.Some? ==> forall i :: 0 <= i < |r.value| ==> IsLabelChar(r.value[i])
  {
    if |host| < |domain| + 2 then None
    else
      var n := |host| - |domain| - 1;
      var head := host[..n];
      if host[n] == '.' && ToLower(host[n + 1..]) == ToLower(domain) && forall i :: 0 <= i < n ==> IsLabelChar(head[i])
      then Some(head)
      else None
  }

  /**
   * The subdomain the site answers as: the lower-cased label when the host
   * is `<label>.<site_domain>`, else the whole host.
   */
  function Subdomain(host: string, siteDomain: string): (r: string)
    ensures r == host || (r != [] && forall i :: 0 <= i < |r| ==> IsLabelChar(r[i]) && !IsUpper(r[i]))
  {
    var head := if !PhpEmpty(siteDomain) then HostLabel(host, siteDomain) else None;
    var sub := if head.Some? then ToLower(head.value) else "";
    if PhpEmpty(sub) then host else sub
  }

  /** A host built from a label and the site domain gives back the lower-cased label. */
  lemma {:induction false} SubdomainOfLabel(prefix: string, domain: string)
    requires prefix != [] && forall i :: 0 <= i < |prefix| ==> IsLabelChar(prefix[i])
    requires !PhpEmpty(domain) && !PhpEmpty(ToLower(prefix))
    ensures Subdomain(prefix + "." + domain, domain) == ToLower(prefix)
  {
    HostLabelOf(prefix, domain);
  }

  lemma {:induction false} HostLabelOf(prefix: string, domain: string)
    requires prefix != [] && forall i :: 0 <= i < |prefix| ==> IsLabelChar(prefix[i])
    ensures HostLabel(prefix + "." + domain, domain) == Some(prefix)
  {
    var host := prefix + "." + domain;
    var n := |prefix|;
    assert n == |host| - |domain| - 1;
    assert host[..n] == prefix;
    assert host[n + 1..] == domain;
    assert host[n] == '.';
  }

  /** A host that does not end in "." and the site domain is its own subdomain. */
  lemma {:induction false} SubdomainOfOtherHost(host: string, domain: string)
    requires |host| < |domain| + 2 || host[|host| - |domain| - 1] != '.'
    ensures Subdomain(host, domain) == host
  {
  }

  // ---------------------------------------------------------------------
  // The session

  /** What artist_name falls back to: the token's name, the configured name, or 'Artist'. */
  datatype Shown = FromToken(j: Json) | FromConfig(v: Value) | DefaultName

  /**
   * $_SESSION: the sign-in fields, the OAuth state's CSRF part, and the
   * video-token counter with its hour window.
   */
  datatype SessionData = SessionData(
    authenticated: bool,
    email: Option<string>,
    name: Option<Shown>,
    picture: Option<Json>,
    provider: Option<Json>,
    loginTime: Option<int>,
    oauthCsrf: Option<string>,
    videoWindow: Option<int>,
    videoCount: nat)

  const NoSession: SessionData := SessionData(false, None, None, None, None, None, None, None, 0)

  /** Set by a successful sign-in together: an authenticated session has its login time. */
  predicate Consistent(d: SessionData) { d.authenticated ==> d.loginTime.Some? }

  /**
   * The $_SESSION array these fields are kept in, under the keys auth.php
   * writes; a field that is not set has no key. Other pages read the
   * sign-in through this array.
   */
  function SessionVars(d: SessionData): (r: map<string, Json>)
    ensures "artist_authenticated" in r <==> d.authenticated
    ensures d.authenticated ==> r["artist_authenticated"] == JBool(true)
  {
    var signIn := if d.authenticated then map["artist_authenticated" := JBool(true)] else map[];
    var email := if d.email.Some? then signIn["artist_email" := JStr(d.email.value)] else signIn;
    var name := if d.name.Some? then email["artist_name" := ShownJson(d.name.value)] else email;
    var picture := if d.picture.Some? then name["artist_picture" := d.picture.value] else name;
    var provider := if d.provider.Some? then picture["oauth_provider" := d.provider.value] else picture;
    var login := if d.loginTime.Some? then provider["login_time" := JNum(d.loginTime.value)] else provider;
    var csrf := if d.oauthCsrf.Some? then login["oauth_csrf" := JStr(d.oauthCsrf.value)] else login;
    if d.videoWindow.Some? then
      csrf["video_token_window" := JNum(d.videoWindow.value)]["video_token_count" := JNum(d.videoCount)]
    else csrf
  }

  const SessionTimeout: int := 3600

  /** The check at the top of every request: a login more than an hour old clears the session. */
  function EnforceTimeout(d: SessionData, now: int): (r: SessionData)
    ensures d.loginTime.Some? && now - d.loginTime.value > SessionTimeout ==> r == NoSession
    ensures !(d.loginTime.Some? && now - d.loginTime.value > SessionTimeout) ==> r == d
  {
    if d.loginTime.Some? && now - d.loginTime.value > SessionTimeout then NoSession else d
  }

  /** After the check an authenticated session is at most an hour old. */
  lemma {:induction false} FreshAfterTimeout(d: SessionData, now: int)
    requires Consistent(d)
    ensures var r := EnforceTimeout(d, now);
      Consistent(r) && (r.authenticated ==> now - r.loginTime.value <= SessionTimeout)
  {
  }

  // ---------------------------------------------------------------------
  // Replies

  datatype Reply =
    | Redirect(location: string)
    | LoginError(message: string)               // Location: /?error=<message>
    | Die(code: nat, message: string)           // die() with a text body
    | JsonReply(code: nat, body: map<string, Json>)
    | Fatal                                     // an uncaught TypeError
    | MagicForm                                 // the sign-in form page

  // ---------------------------------------------------------------------
  // Starting Google sign-in

  const GoogleAuthUrl: string := "https://accounts.google.com/o/oauth2/v2/auth?"

  /** The OAuth state: the subdomain, '|', the CSRF token. */
  function State(subdomain: string, csrf: string): string
  {
    subdomain + "|" + csrf
  }

  /** The callback splits the state at its first '|' back into subdomain and CSRF token. */
  lemma {:induction false} StateRoundTrip(subdomain: string, csrf: string)
    requires '|' !in subdomain
    ensures var s := State(subdomain, csrf); var k := IndexOf(s, '|');
      k < |s| && s[..k] == subdomain && s[k + 1..] == csrf
  {
    var s := State(subdomain, csrf);
    assert s[|subdomain|] == '|';
    assert forall i :: 0 <= i < |subdomain| ==> s[i] == subdomain[i];
    assert IndexOf(s, '|') == |subdomain|;
    assert s[..|subdomain|] == subdomain;
    assert s[|subdomain| + 1..] == csrf;
  }

  /** The query parameters of the redirect to Google. */
  function GoogleParams(clientId: string, callbackUrl: string, state: string): seq<(string, string)>
  {
    [("client_id", clientId), ("redirect_uri", callbackUrl + "?provider=google"), ("response_type", "code"),
     ("scope", "openid email profile"), ("state", state), ("access_type", "online"), ("prompt", "select_account")]
  }

  /**
   * action=login. The CSRF token is stored before the provider is checked;
   * `query` is http_build_query.
   */
  function InitiateOAuth(d: SessionData, provider: string, subdomain: string, callbackUrl: string, clientId: string,
                         csrf: string, query: seq<(string, string)> -> string): (r: (Reply, SessionData))
    ensures r.1 == d.(oauthCsrf := Some(csrf))
    ensures r.0.Redirect? <==> provider == "google" && !PhpEmpty(clientId)
    ensures r.0.Redirect? ==> r.0.location == GoogleAuthUrl + query(GoogleParams(clientId, callbackUrl, State(subdomain, csrf)))
  {
    var stored := d.(oauthCsrf := Some(csrf));
    if provider != "google" then (Die(400, "Only Google OAuth is supported"), stored)
    else if PhpEmpty(clientId) then (Die(200, "Google OAuth not configured"), stored)
    else (Redirect(GoogleAuthUrl + query(GoogleParams(clientId, callbackUrl, State(subdomain, csrf)))), stored)
  }

  /** The callback URL: oauth.callback_url, else site_url without trailing '/' plus /auth/callback.php. */
  function CallbackUrl(config: seq<Entry>): string
  {
    var oauth := match Setup.Field(config, "oauth") case Some(Arr(es)) => es case _ => [];
    var configured := ConfigText(oauth, "callback_url");
    var siteUrl := Setup.Field(config, "site_url");
    if PhpEmpty(configured) && siteUrl.Some? && !EmptyValue(siteUrl.value) then
      StripTrailingSlashes(ConfigText(config, "site_url")) + "/auth/callback.php"
    else configured
  }

  // ---------------------------------------------------------------------
  // Verifying the signed token

  /** The primitives the check uses: hash_hmac('sha256', data, key), and base64 then JSON decoding. */
  datatype Crypto = Crypto(hmac: (string, string) -> string, decode: string -> Option<Json>, encode: Json -> string)

  /**
   * `time() > $exp` for a decoded value: numbers, booleans, null and strings
   * of decimal digits compare as PHP 8 compares them. Any other string is
   * compared as text, which PHP 8 does only when the string is not numeric.
   */
  predicate PastExpiry(now: int, exp: Json)
  {
    match exp
    case JNull => false
    case JBool(b) => !b && now != 0
    case JNum(n) => now > n
    case JStr(s) => if s != [] && AllDigits(s) then now > DigitsValue(s) else !StrLe(ExportInt(now), s)
    case _ => false
  }

  /** explode('.', token, 2): the payload before the first '.', the signature after it. */
  function SplitToken(token: string): (r: Option<(string, string)>)
    ensures r.Some? ==> token == r.value.0 + "." + r.value.1 && '.' !in r.value.0
  {
    var k := IndexOf(token, '.');
    if k == |token| then None
    else
      assert token == token[..k] + "." + token[k + 1..];
      Some((token[..k], token[k + 1..]))
  }

  /**
   * action=verify: empty token, format, signature, payload, expiry, CSRF,
   * then the e-mail, in this order. The stored CSRF token is dropped once
   * the CSRF check passes, before the e-mail is compared.
   */
  function VerifyToken(d: SessionData, token: string, secret: string, config: seq<Entry>, now: int, c: Crypto)
    : (r: (Reply, SessionData))
  {
    if PhpEmpty(token) then (LoginError("No auth token received"), d)
    else match SplitToken(token)
      case None => (LoginError("Invalid token format"), d)
      case Some((payload, signature)) =>
        if c.hmac(payload, secret) != signature then (LoginError("Invalid token signature"), d)
        else
          var data := c.decode(payload);
          if data.None? || EmptyJson(data.value) then (LoginError("Invalid token data"), d)
          else CheckClaims(d, Setup.FieldsOf(data.value), config, now)
  }

  /** The checks on the decoded claims: expiry, CSRF, e-mail; then the sign-in. */
  function CheckClaims(d: SessionData, f: map<string, Json>, config: seq<Entry>, now: int): (r: (Reply, SessionData))
  {
    if IsSet(f, "exp") && PastExpiry(now, f["exp"]) then (LoginError("Token expired"), d)
    else if d.oauthCsrf.Some? && IsSet(f, "csrf") && !f["csrf"].JStr? then (Fatal, d)
    else if d.oauthCsrf.Some? && IsSet(f, "csrf") && f["csrf"].s != d.oauthCsrf.value then (LoginError("CSRF token mismatch"), d)
    else
      var cleared := d.(oauthCsrf := None);
      var artist := ArtistEmail(config);
      var claimed := ClaimedEmail(f);
      if artist.None? || claimed.None? then (Fatal, cleared)
      else
        var email := claimed.value;
        if artist.value != email then (LoginError("Email does not match. Please login with " + artist.value), cleared)
        else (Redirect("/"), SignedIn(cleared, f, config, email, now))
  }

  /** The session after a successful sign-in. */
  function SignedIn(d: SessionData, f: map<string, Json>, config: seq<Entry>, email: string, now: int): SessionData
  {
    var name :=
      if IsSet(f, "name") then FromToken(f["name"])
      else match Setup.Field(config, "name")
        case Some(v) => if v.Null? then DefaultName else FromConfig(v)
        case None => DefaultName;
    d.(authenticated := true, email := Some(email), name := Some(name),
       picture := Some(if IsSet(f, "picture") then f["picture"] else JStr("")),
       provider := Some(if IsSet(f, "provider") then f["provider"] else JStr("")),
       loginTime := Some(now))
  }

  /**
   * A sign-in succeeds only with a well-formed token whose signature
   * matches, whose claims decode, are not expired and carry the artist's
   * e-mail; the session is then authenticated as of now.
   */
  lemma {:induction false} SignInRequires(d: SessionData, token: string, secret: string, config: seq<Entry>, now: int, c: Crypto)
    requires VerifyToken(d, token, secret, config, now, c).0 == Redirect("/")
    ensures SplitToken(token).Some?
    ensures var (payload, signature) := SplitToken(token).value;
      c.hmac(payload, secret) == signature && c.decode(payload).Some? && !EmptyJson(c.decode(payload).value) &&
      var f := Setup.FieldsOf(c.decode(payload).value);
      !(IsSet(f, "exp") && PastExpiry(now, f["exp"])) &&
      ArtistEmail(config).Some? && ClaimedEmail(f) == ArtistEmail(config)
    ensures var r := VerifyToken(d, token, secret, config, now, c).1;
      r.authenticated && r.loginTime == Some(now) && r.oauthCsrf.None? && r.email == ArtistEmail(config)
  {
  }

  /** Any other outcome leaves the sign-in fields as they were. */
  lemma {:induction false} FailedVerifyKeepsLogin(d: SessionData, token: string, secret: string, config: seq<Entry>, now: int, c: Crypto)
    requires VerifyToken(d, token, secret, config, now, c).0 != Redirect("/")
    ensures var r := VerifyToken(d, token, secret, config, now, c).1;
      r.authenticated == d.authenticated && r.loginTime == d.loginTime && r.email == d.email
  {
  }

  /** The signature is checked before the payload is decoded: with a bad signature the decoder plays no part. */
  lemma {:induction false} SignatureBeforeDecode(d: SessionData, token: string, secret: string, config: seq<Entry>, now: int, c: Crypto,
                              decode2: string -> Option<Json>)
    requires SplitToken(token).Some? && c.hmac(SplitToken(token).value.0, secret) != SplitToken(token).value.1
    ensures VerifyToken(d, token, secret, config, now, c) == VerifyToken(d, token, secret, config, now, c.(decode := decode2))
    ensures VerifyToken(d, token, secret, config, now, c).0 == (if PhpEmpty(token) then LoginError("No auth token received") else LoginError("Invalid token signature"))
  {
  }

  /** Expiry is enforced only when the claims carry exp: without it the time plays no part. */
  lemma {:induction false} NoExpNoExpiry(d: SessionData, f: map<string, Json>, config: seq<Entry>, now: int, later: int)
    requires !IsSet(f, "exp")
    ensures CheckClaims(d, f, config, now).0 == CheckClaims(d, f, config, later).0
    ensures CheckClaims(d, f, config, now).0 != LoginError("Token expired")
  {
  }

  /**
   * The CSRF token is compared only when both the session and the claims
   * carry one; a mismatch is refused and leaves the session as it was.
   */
  lemma {:induction false} CsrfRule(d: SessionData, f: map<string, Json>, config: seq<Entry>, now: int)
    requires !(IsSet(f, "exp") && PastExpiry(now, f["exp"]))
    ensures d.oauthCsrf.Some? && IsSet(f, "csrf") && f["csrf"].JStr? && f["csrf"].s != d.oauthCsrf.value ==>
              CheckClaims(d, f, config, now) == (LoginError("CSRF token mismatch"), d)
    ensures d.oauthCsrf.None? || !IsSet(f, "csrf") ==>
              CheckClaims(d, f, config, now).0 != LoginError("CSRF token mismatch") &&
              CheckClaims(d, f, config, now).1.oauthCsrf.None?
  {
  }

  // ---------------------------------------------------------------------
  // Logout and status

  /** action=logout: the session is emptied. */
  function Logout(d: SessionData): (r: (Reply, SessionData))
    ensures r.1 == NoSession && !r.1.authenticated
  {
    (Redirect("/"), NoSession)
  }

  /** action=status. */
  function Status(d: SessionData): (r: map<string, Json>)
    ensures "authenticated" in r && r["authenticated"] == JBool(d.authenticated)
    ensures d.authenticated ==> "email" in r && r["email"] == JStr(if d.email.Some? then d.email.value else "")
    ensures !d.authenticated ==> r.Keys == {"authenticated"}
  {
    if d.authenticated then
      map["authenticated" := JBool(true),
          "email" := JStr(if d.email.Some? then d.email.value else ""),
          "name" := ShownJson(if d.name.Some? then d.name.value else FromToken(JStr(""))),
          "picture" := if d.picture.Some? && !d.picture.value.JNull? then d.picture.value else JStr(""),
          "provider" := if d.provider.Some? && !d.provider.value.JNull? then d.provider.value else JStr("")]
    else map["authenticated" := JBool(false)]
  }

  /** How a shown name is sent back: a configuration scalar as JSON; an array is sent as an empty list. */
  function ShownJson(s: Shown): Json
  {
    match s
    case FromToken(j) => j
    case DefaultName => JStr("Artist")
    case FromConfig(v) =>
      match v
      case Null => JNull
      case Bool(b) => JBool(b)
      case Int(i) => JNum(i)
      case Str(t) => JStr(t)
      case Arr(_) => JArr([])
  }

  /** After a successful sign-in the status reports the artist's e-mail. */
  lemma {:induction false} StatusAfterSignIn(d: SessionData, token: string, secret: string, config: seq<Entry>, now: int, c: Crypto)
    requires VerifyToken(d, token, secret, config, now, c).0 == Redirect("/")
    ensures var st := Status(VerifyToken(d, token, secret, config, now, c).1);
      st["authenticated"] == JBool(true) && st["email"] == JStr(ArtistEmail(config).value)
  {
    SignInRequires(d, token, secret, config, now, c);
  }

  // ---------------------------------------------------------------------
  // Video-upload tokens

  const VideoLimit: nat := 10
  const TokenLifetime: int := 3600

  /** floor(time() / 3600). */
  function Window(now: nat): nat { now / 3600 }

  /** Tokens already issued in the current window, as far as the limit is concerned. */
  function VideoUsed(d: SessionData, now: nat): nat
  {
    if d.videoWindow == Some(Window(now)) then (if d.videoCount < VideoLimit then d.videoCount else VideoLimit) else 0
  }

  /** The signed claims of a video token. */
  function VideoClaims(subdomain: string, email: string, now: nat): Json
  {
    JObj(map["sub" := JStr(subdomain), "email" := JStr(email), "iat" := JNum(now),
             "exp" := JNum(now + TokenLifetime), "type" := JStr("video_upload")])
  }

  /** The token: the encoded claims, '.', their signature. */
  function VideoToken(claims: Json, secret: string, c: Crypto): string
  {
    c.encode(claims) + "." + c.hmac(c.encode(claims), secret)
  }

  /**
   * action=video_token: only for a signed-in session; the counter restarts
   * in a new hour window and refuses at ten.
   */
  function IssueVideoToken(d: SessionData, secret: string, subdomain: string, now: nat, c: Crypto): (r: (Reply, SessionData))
    ensures !d.authenticated ==> r == (JsonReply(401, map["error" := JStr("Not authenticated")]), d)
    ensures d.authenticated && VideoUsed(d, now) == VideoLimit ==> r == (JsonReply(429, map["error" := JStr("Rate limit exceeded. Try again later.")]), d)
    ensures d.authenticated && VideoUsed(d, now) < VideoLimit ==>
              r.0.JsonReply? && r.0.code == 200 && r.1.videoWindow == Some(Window(now)) && r.1.videoCount == VideoUsed(d, now) + 1
  {
    if !d.authenticated then (JsonReply(401, map["error" := JStr("Not authenticated")]), d)
    else
      var w := Window(now);
      var current := if d.videoWindow == Some(w) then d else d.(videoWindow := Some(w), videoCount := 0);
      if current.videoCount >= VideoLimit then (JsonReply(429, map["error" := JStr("Rate limit exceeded. Try again later.")]), current)
      else
        var email := if d.email.Some? then d.email.value else "";
        var token := VideoToken(VideoClaims(subdomain, email, now), secret, c);
        (JsonReply(200, map["token" := JStr(token), "expires_in" := JNum(TokenLifetime)]),
         current.(videoCount := current.videoCount + 1))
  }

  /** How many of a run of video-token requests are granted. */
  function Granted(d: SessionData, secret: string, subdomain: string, times: seq<nat>, c: Crypto): nat
    decreases |times|
  {
    if times == [] then 0
    else
      var r := IssueVideoToken(d, secret, subdomain, times[0], c);
      (if r.0.code == 200 then 1 else 0) + Granted(r.1, secret, subdomain, times[1..], c)
  }

  /** Within one hour window at most ten tokens are issued, fewer when some already were. */
  lemma {:induction false} AtMostTenPerWindow(d: SessionData, secret: string, subdomain: string, times: seq<nat>, c: Crypto, w: nat)
    requires forall i :: 0 <= i < |times| ==> Window(times[i]) == w
    ensures Granted(d, secret, subdomain, times, c) + (if d.videoWindow == Some(w) then VideoUsed(d, w * 3600) else 0) <= VideoLimit
    decreases |times|
  {
    if times != [] {
      var r := IssueVideoToken(d, secret, subdomain, times[0], c);
      assert Window(w * 3600) == w;
      AtMostTenPerWindow(r.1, secret, subdomain, times[1..], c, w);
    }
  }

  /**
   * A video token passes the token check's format and signature steps and
   * decodes to its claims, when the encoding holds no '.' (base64 has none)
   * and decoding inverts encoding.
   */
  lemma {:induction false} VideoTokenVerifies(claims: Json, secret: string, c: Crypto)
    requires '.' !in c.encode(claims) && c.decode(c.encode(claims)) == Some(claims)
    ensures var t := VideoToken(claims, secret, c);
      SplitToken(t) == Some((c.encode(claims), c.hmac(c.encode(claims), secret))) &&
      c.hmac(SplitToken(t).value.0, secret) == SplitToken(t).value.1 &&
      c.decode(SplitToken(t).value.0) == Some(claims)
  {
    var p := c.encode(claims);
    var t := VideoToken(claims, secret, c);
    assert t[|p|] == '.';
    assert forall i :: 0 <= i < |p| ==> t[i] == p[i];
    assert IndexOf(t, '.') == |p|;
    assert t[..|p|] == p;
  }

  // ---------------------------------------------------------------------
  // Magic links

  /** What the site sends to the central API for a magic link. */
  datatype MagicCall = MagicCall(url: string, email: string, purpose: string, target: string)

  /** The central API base: central_api, else painttwits_api, else the public one. */
  function MagicUrl(config: seq<Entry>): string
  {
    var api :=
      match Setup.Field(config, "central_api")
      case Some(v) => if v.Null? then ConfigFallback(config) else ValueOr(v)
      case None => ConfigFallback(config);
    StripTrailingSlashes(api) + "/../auth/magic-request.php"
  }

  function ConfigFallback(config: seq<Entry>): string
  {
    match Setup.Field(config, "painttwits_api")
    case Some(v) => if v.Null? then "https://painttwits.com/api" else ValueOr(v)
    case None => "https://painttwits.com/api"
  }

  function ValueOr(v: Value): string
  {
    if ValueText(v).Some? then ValueText(v).value else ""
  }

  /**
   * action=magic_request. `isEmail` is filter_var's e-mail check; the call
   * to the central API is returned with the reply; `httpCode` and
   * `answer` (the decoded response body, None when empty or not JSON) are
   * what it gives back.
   */
  function MagicRequest(input: Option<Json>, config: seq<Entry>, subdomain: string, isEmail: string -> bool,
                        httpCode: int, answer: Option<Json>): (r: (Reply, Option<MagicCall>))
  {
    var f := if input.Some? then Setup.FieldsOf(input.value) else map[];
    var given := ClaimedEmail(f);
    if given.None? then (Fatal, None)
    else
      var email := given.value;
      if !isEmail(email) then (JsonReply(200, map["success" := JBool(false), "error" := JStr("Invalid email address")]), None)
      else
        var artist := ArtistEmail(config);
        if artist.None? then (Fatal, None)
        else if email != artist.value then
          (JsonReply(200, map["success" := JBool(false), "error" := JStr("This email is not associated with this gallery")]), None)
        else
          var call := MagicCall(MagicUrl(config), email, "subdomain", subdomain);
          if httpCode == 200 && answer.Some? && !EmptyJson(answer.value) && answer.value.JObj? && IsSet(answer.value.fields, "success")
          then (JsonReply(200, answer.value.fields), Some(call))
          else (JsonReply(200, map["success" := JBool(false), "error" := JStr("Failed to send magic link. Please try again.")]), Some(call))
  }

  /** A magic link is asked for only for a valid address equal to the artist's, on behalf of this subdomain. */
  lemma {:induction false} MagicOnlyForArtist(input: Option<Json>, config: seq<Entry>, subdomain: string, isEmail: string -> bool,
                           httpCode: int, answer: Option<Json>)
    ensures var (reply, call) := MagicRequest(input, config, subdomain, isEmail, httpCode, answer);
      call.Some? ==> isEmail(call.value.email) && ArtistEmail(config) == Some(call.value.email) &&
                     call.value.target == subdomain && call.value.purpose == "subdomain"
    ensures var (reply, call) := MagicRequest(input, config, subdomain, isEmail, httpCode, answer);
      call.None? ==> reply == Fatal || (reply.JsonReply? && reply.body["success"] == JBool(false))
  {
  }

  // ---------------------------------------------------------------------
  // The script

  /** The request: the action and what each action reads. */
  datatype Action =
    | Login(provider: string, csrf: string)
    | Verify(token: string)
    | LogoutAction
    | StatusAction
    | VideoTokenAction
    | Magic
    | MagicRequestAction(input: Option<Json>, httpCode: int, answer: Option<Json>)
    | Unknown

  /** The library calls the script makes, as given functions. */
  datatype Env = Env(crypto: Crypto, query: seq<(string, string)> -> string, isEmail: string -> bool)

  class AuthSession {
    /** $_SESSION. */
    var data: SessionData

    constructor (initial: SessionData)
      ensures data == initial
    {
      data := initial;
    }

    /**
     * One request to auth.php: the subdomain from the host, the session
     * timeout, then the action.
     */
    method Handle(config: seq<Entry>, host: string, now: nat, action: Action, env: Env)
      returns (reply: Reply, call: Option<MagicCall>)
      modifies this
      ensures var d := EnforceTimeout(old(data), now);
        var sub := Subdomain(host, ConfigText(config, "site_domain"));
        var secret := ConfigText(config, "auth_signing_secret");
        match action
        case Login(p, csrf) =>
          var oauth := match Setup.Field(config, "oauth") case Some(Arr(es)) => es case _ => [];
          (reply, data) == InitiateOAuth(d, p, sub, CallbackUrl(config), ConfigText(oauth, "google_client_id"), csrf, env.query) && call.None?
        case Verify(token) => (reply, data) == VerifyToken(d, token, secret, config, now, env.crypto) && call.None?
        case LogoutAction => (reply, data) == Logout(d) && call.None?
        case StatusAction => reply == JsonReply(200, Status(d)) && data == d && call.None?
        case VideoTokenAction => (reply, data) == IssueVideoToken(d, secret, sub, now, env.crypto) && call.None?
        case Magic => reply == MagicForm && data == d && call.None?
        case MagicRequestAction(input, code, answer) =>
          (reply, call) == MagicRequest(input, config, sub, env.isEmail, code, answer) && data == d
        case Unknown => reply == JsonReply(400, map["error" := JStr("Invalid action")]) && data == d && call.None?
    {
      var subdomain := Subdomain(host, ConfigText(config, "site_domain"));
      var secret := ConfigText(config, "auth_signing_secret");
      if data.loginTime.Some? && now - data.loginTime.value > SessionTimeout {
        data := NoSession;
      }
      call := None;
      match action {
        case Login(p, csrf) =>
          var oauth := match Setup.Field(config, "oauth") case Some(Arr(es)) => es case _ => [];
          reply, data := InitiateOAuth(data, p, subdomain, CallbackUrl(config), ConfigText(oauth, "google_client_id"), csrf, env.query).0,
                         InitiateOAuth(data, p, subdomain, CallbackUrl(config), ConfigText(oauth, "google_client_id"), csrf, env.query).1;
        case Verify(token) =>
          var r := VerifyToken(data, token, secret, config, now, env.crypto);
          reply, data := r.0, r.1;
        case LogoutAction =>
          reply, data := Redirect("/"), NoSession;
        case StatusAction =>
          reply := JsonReply(200, Status(data));
        case VideoTokenAction =>
          var r := IssueVideoToken(data, secret, subdomain, now, env.crypto);
          reply, data := r.0, r.1;
        case Magic =>
          reply := MagicForm;
        case MagicRequestAction(input, code, answer) =>
          reply, call := MagicRequest(input, config, subdomain, env.isEmail, code, answer).0,
                         MagicRequest(input, config, subdomain, env.isEmail, code, answer).1;
        case Unknown =>
          reply := JsonReply(400, map["error" := JStr("Invalid action")]);
      }
    }
  }
}
