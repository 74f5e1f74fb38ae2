// The first-run setup wizard (setup.php): the gate that skips setup once a
// configuration exists, the form handler that validates the artist's details
// and builds the configuration array, the network registration outcome, the
// merge of network credentials once registration is verified, and the
// configuration file the wizard writes.

module Setup {
  import opened Common
  import opened PhpExport
  import Exhibits

  // ---------------------------------------------------------------------
  // PHP arrays with string keys, as the configuration uses them

  /** `$arr[$k]`: the value stored under k, if any. */
  function Lookup(es: seq<Entry>, k: Key): Option<Value>
  {
    if es == [] then None
    else if es[0].key == k then Some(es[0].val)
    else Lookup(es[1..], k)
  }

  /** The keys of an array, in order. */
  function Keys(es: seq<Entry>): (r: seq<Key>)
    ensures |r| == |es| && forall i :: 0 <= i < |es| ==> r[i] == es[i].key
  {
    seq(|es|, i requires 0 <= i < |es| => es[i].key)
  }

  /**
   * `$arr[$k] = $x`: an existing key keeps its place and takes the new
   * value; a new key is appended.
   */
  function SetKey(es: seq<Entry>, k: Key, x: Value): seq<Entry>
  {
    if es == [] then [Entry(k, x)]
    else if es[0].key == k then [Entry(k, x)] + es[1..]
    else [es[0]] + SetKey(es[1..], k, x)
  }

  /** After an assignment, the key reads as the new value and every other key as before. */
  lemma {:induction false} LookupSetKey(es: seq<Entry>, k: Key, x: Value, j: Key)
    ensures Lookup(SetKey(es, k, x), j) == if j == k then Some(x) else Lookup(es, j)
  {
    if es != [] && es[0].key != k {
      LookupSetKey(es[1..], k, x, j);
    }
  }

  /** Assigning to a key the array already has leaves its keys and their order alone. */
  lemma {:induction false} SetKeyKeepsKeys(es: seq<Entry>, k: Key, x: Value)
    requires Lookup(es, k).Some?
    ensures Keys(SetKey(es, k, x)) == Keys(es)
  {
    SetKeyKeys(es, k, x);
  }

  lemma {:induction false} SetKeyKeys(es: seq<Entry>, k: Key, x: Value)
    requires Lookup(es, k).Some?
    ensures |SetKey(es, k, x)| == |es|
    ensures forall i :: 0 <= i < |es| ==> SetKey(es, k, x)[i].key == es[i].key
  {
    if es[0].key != k {
      SetKeyKeys(es[1..], k, x);
      var t := SetKey(es[1..], k, x);
      assert SetKey(es, k, x) == [es[0]] + t;
      assert forall i :: 1 <= i < |es| ==> ([es[0]] + t)[i] == t[i - 1] && es[i] == es[1..][i - 1];
    }
  }

  /** Assigning a new key appends it. */
  lemma {:induction false} SetKeyAppends(es: seq<Entry>, k: Key, x: Value)
    requires Lookup(es, k).None?
    ensures SetKey(es, k, x) == es + [Entry(k, x)]
  {
    if es != [] {
      SetKeyAppends(es[1..], k, x);
      assert [es[0]] + (es[1..] + [Entry(k, x)]) == es + [Entry(k, x)];
    }
  }

  /** The first entry with key k is the one Lookup finds. */
  lemma {:induction false} LookupFirst(es: seq<Entry>, i: nat, k: Key)
    requires i < |es| && es[i].key == k && forall j :: 0 <= j < i ==> es[j].key != k
    ensures Lookup(es, k) == Some(es[i].val)
  {
    if i > 0 {
      LookupFirst(es[1..], i - 1, k);
    }
  }

  function Field(es: seq<Entry>, k: string): Option<Value>
  {
    Lookup(es, StrKey(k))
  }

  /** `$arr[$k] ?? d`. */
  function FieldOr(es: seq<Entry>, k: string, d: Value): Value
  {
    match Field(es, k)
    case Some(v) => if v.Null? then d else v
    case None => d
  }

  /** `$arr[$k1][$k2] = $x`: a missing or null inner value becomes a new array. */
  function SetNested(es: seq<Entry>, k1: string, k2: string, x: Value): seq<Entry>
  {
    var inner := match Field(es, k1)
      case Some(Arr(ies)) => ies
      case _ => [];
    SetKey(es, StrKey(k1), Arr(SetKey(inner, StrKey(k2), x)))
  }

  /** A decoded JSON scalar as the configuration stores it; JSON objects are not modelled and read as NULL. */
  function ScalarOf(j: Json): (r: Value)
    ensures j.JStr? ==> r == Str(j.s)
    ensures j.JNull? ==> r == Null
  {
    match j
    case JNull => Null
    case JBool(b) => Bool(b)
    case JNum(n) => Int(n)
    case JStr(s) => Str(s)
    case JArr(_) => Null
    case JObj(_) => Null
  }

  /** PHP's string conversion of a decoded JSON value, as `.` concatenation applies it. */
  function TextOf(j: Json): string
  {
    match j
    case JNull => ""
    case JBool(b) => if b then "1" else ""
    case JNum(n) => ExportInt(n)
    case JStr(s) => s
    case JArr(_) => "Array"
    case JObj(_) => "Array"
  }

  /** The fields of a decoded request or response; anything but an object has none. */
  function FieldsOf(j: Json): map<string, Json>
  {
    if j.JObj? then j.fields else map[]
  }

  // ---------------------------------------------------------------------
  // The configuration file

  /** The opening both configuration writers share; the word after it tells the two apart. */
  const Lead: string := "<?php\n/**\n * Artist "
  const Preamble: string := Lead + "Portfolio" + " Configuration\n * Generated by setup wizard on "
  const Opening: string := " */\n\nreturn "

  /** generateConfigFile: a comment with the date stamp, then `return <array>;`. */
  function ConfigFileText(config: Value, stamp: string): string
  {
    Preamble + (stamp + ("\n" + (Opening + (Pretty(config, "") + ";\n"))))
  }

  /** A date stamp stays on its line of the comment. */
  predicate OneLine(s: string)
  {
    forall i :: 0 <= i < |s| ==> s[i] != '\n'
  }

  /** The position of the first newline in s, or |s| when there is none. */
  function NewlineAt(s: string): (r: nat)
    ensures r <= |s| && (r < |s| ==> s[r] == '\n')
    ensures forall i :: 0 <= i < r ==> s[i] != '\n'
  {
    if s == [] || s[0] == '\n' then 0 else 1 + NewlineAt(s[1..])
  }

  /** The comment heading the file update_profile.php rewrites. */
  const ProfileComment: string := Lead + "Configuration" + "\n * Auto-generated - do not edit directly\n */\n\n"

  /**
   * `include` of a configuration file of one of the two shapes the site writes:
   * the wizard's comment with its date stamp, or the comment of the profile
   * rewrite, then `return`, an array literal and `;`. Any other text does not
   * yield a value.
   */
  function Include(text: string): Option<Value>
  {
    if StartsWith(text, Preamble) then AfterStamp(text[|Preamble|..])
    else if StartsWith(text, ProfileComment + "return ") then Returned(text[|ProfileComment + "return "|..])
    else None
  }

  /** The rest of the comment after "Generated by setup wizard on ": the stamp ends at the newline. */
  function AfterStamp(r: string): Option<Value>
  {
    var k := NewlineAt(r);
    if k < |r| then AfterComment(r[k + 1..]) else None
  }

  function AfterComment(r: string): Option<Value>
  {
    if StartsWith(r, Opening) then Returned(r[|Opening|..]) else None
  }

  /** The returned literal, which must be all that is left but the closing ";\n". */
  function Returned(r: string): Option<Value>
  {
    match ParseValue(r)
    case Some((v, tail)) => if tail == ";\n" then Some(v) else None
    case None => None
  }

  lemma {:induction false} NewlineAfterStamp(stamp: string, t: string)
    requires OneLine(stamp)
    ensures NewlineAt(stamp + ("\n" + t)) == |stamp|
  {
    var s := stamp + ("\n" + t);
    assert forall i :: 0 <= i < |stamp| ==> s[i] == stamp[i];
    assert s[|stamp|] == '\n';
  }

  lemma {:induction false} IncludePreamble(r: string)
    ensures Include(Preamble + r) == AfterStamp(r)
  {
    assert (Preamble + r)[..|Preamble|] == Preamble && (Preamble + r)[|Preamble|..] == r;
  }

  /** A file headed by the profile rewrite's comment returns the literal after `return`. */
  lemma {:induction false} IncludeProfileComment(r: string)
    ensures Include((ProfileComment + "return ") + r) == Returned(r)
  {
    var head := ProfileComment + "return ";
    var t := head + r;
    assert |Lead| == 20 && ProfileComment[20] == 'C' && Preamble[20] == 'P';
    assert t[20] == head[20] == ProfileComment[20];
    assert t[..|head|] == head && t[|head|..] == r;
  }

  lemma {:induction false} StampLine(stamp: string, t: string)
    requires OneLine(stamp)
    ensures AfterStamp(stamp + ("\n" + t)) == AfterComment(t)
  {
    NewlineAfterStamp(stamp, t);
    assert (stamp + ("\n" + t))[|stamp| + 1..] == t;
  }

  lemma {:induction false} OpeningLine(body: string)
    ensures AfterComment(Opening + body) == Returned(body)
  {
    assert (Opening + body)[..|Opening|] == Opening && (Opening + body)[|Opening|..] == body;
  }

  /** Including a file the wizard wrote returns the configuration it was written from. */
  lemma {:induction false} IncludeRoundTrip(config: Value, stamp: string)
    requires OneLine(stamp)
    ensures Include(ConfigFileText(config, stamp)) == Some(config)
  {
    var body := Pretty(config, "") + ";\n";
    IncludePreamble(stamp + ("\n" + (Opening + body)));
    StampLine(stamp, Opening + body);
    OpeningLine(body);
    PrettyRoundTrip(config, "", ";\n");
  }

  // ---------------------------------------------------------------------
  // The gate

  /** An included configuration that is an array with a non-empty email. */
  predicate Configured(loaded: Option<Value>)
  {
    loaded.Some? && loaded.value.Arr? &&
    match Field(loaded.value.entries, "email")
    case Some(e) => !EmptyValue(e)
    case None => false
  }

  /** A configuration file, when present, that sets up the site. */
  predicate FileConfigures(file: Option<string>)
  {
    file.Some? && Configured(Include(file.value))
  }

  // ---------------------------------------------------------------------
  // The setup form

  /** The form fields after trimming and defaulting. */
  datatype Form = Form(name: string, email: string, location: string, bio: string, siteTitle: string,
                       joinNetwork: bool)

  function ReadForm(fields: map<string, Json>): (f: Form)
    ensures f.name == Exhibits.TrimmedInput(fields, "name")
    ensures f.email == ToLower(Exhibits.TrimmedInput(fields, "email"))
    ensures f.siteTitle == (if PhpEmpty(Exhibits.TrimmedInput(fields, "site_title"))
                            then f.name + "'s Gallery" else Exhibits.TrimmedInput(fields, "site_title"))
    ensures f.joinNetwork <==> "join_network" in fields && !EmptyJson(fields["join_network"])
  {
    var name := Exhibits.TrimmedInput(fields, "name");
    var title := Exhibits.TrimmedInput(fields, "site_title");
    Form(name, ToLower(Exhibits.TrimmedInput(fields, "email")), Exhibits.TrimmedInput(fields, "location"),
         Exhibits.TrimmedInput(fields, "bio"), if PhpEmpty(title) then name + "'s Gallery" else title,
         "join_network" in fields && !EmptyJson(fields["join_network"]))
  }

  /** https unless the HTTPS server variable is missing, empty or "off". */
  function SiteUrl(https: Option<string>, host: string): (r: string)
    ensures (https.Some? && !PhpEmpty(https.value) && https.value != "off") <==> StartsWith(r, "https://")
  {
    var protocol := if https.Some? && !PhpEmpty(https.value) && https.value != "off" then "https" else "http";
    var r := protocol + "://" + host;
    assert protocol == "http" ==> r[4] == ':';
    assert protocol == "https" ==> r[..8] == "https://";
    r
  }

  function S(k: string, v: Value): Entry { Entry(StrKey(k), v) }

  /** The configuration array, in the order the wizard writes its keys. */
  function InitialConfig(f: Form, https: Option<string>, host: string, secret: string): seq<Entry>
  {
    [ S("site_name", Str(f.siteTitle)),
      S("site_domain", Str(host)),
      S("site_url", Str(SiteUrl(https, host))),
      S("central_api", Str("")),
      S("api_key", Str("")),
      S("video_tool_url", Str("")),
      S("artist_id", Int(1)),
      S("name", Str(f.name)),
      S("email", Str(f.email)),
      S("location", Str(f.location)),
      S("bio", Str(f.bio)),
      S("website", Str("")),
      S("oauth", Arr([S("google_client_id", Str("")), S("callback_url", Str(""))])),
      S("auth_signing_secret", Str(secret)),
      S("show_prices", Bool(false)),
      S("contact_form", Bool(true)),
      S("show_site_badge", Bool(true)),
      S("painttwits_network", Arr([S("enabled", Bool(false)), S("sample_artwork", Str(""))])) ]
  }

  /** The new configuration holds the artist's details as the form gave them. */
  lemma {:induction false} InitialConfigFields(f: Form, https: Option<string>, host: string, secret: string)
    ensures var c := InitialConfig(f, https, host, secret);
      Field(c, "name") == Some(Str(f.name)) && Field(c, "email") == Some(Str(f.email)) &&
      Field(c, "site_name") == Some(Str(f.siteTitle)) &&
      Field(c, "site_url") == Some(Str(SiteUrl(https, host)))
  {
    var c := InitialConfig(f, https, host, secret);
    LookupFirst(c, 7, StrKey("name"));
    LookupFirst(c, 8, StrKey("email"));
    LookupFirst(c, 0, StrKey("site_name"));
    LookupFirst(c, 2, StrKey("site_url"));
  }

  /**
   * The configuration the wizard builds holds no empty array, so the source's
   * printer, whose only difference from the corrected one is the empty array,
   * writes exactly the file ConfigFileText describes.
   */
  lemma {:induction false} InitialConfigPrintsAsWritten(f: Form, https: Option<string>, host: string, secret: string, stamp: string)
    ensures var c := Arr(InitialConfig(f, https, host, secret));
      Preamble + (stamp + ("\n" + (Opening + (PrettyAsWritten(c, "") + ";\n")))) == ConfigFileText(c, stamp)
  {
    var es := InitialConfig(f, https, host, secret);
    forall i | 0 <= i < |es|
      ensures NoEmptyArray(es[i].val)
    {
      if es[i].val.Arr? {
        assert i == 12 || i == 17;
      }
    }
    AsWrittenAgrees(Arr(es), "");
  }

  /** The new configuration carries the fresh signing secret and starts outside the network. */
  lemma {:induction false} InitialConfigStandalone(f: Form, https: Option<string>, host: string, secret: string)
    ensures var c := InitialConfig(f, https, host, secret);
      Field(c, "auth_signing_secret") == Some(Str(secret)) &&
      Field(c, "painttwits_network") == Some(Arr([S("enabled", Bool(false)), S("sample_artwork", Str(""))]))
  {
    var c := InitialConfig(f, https, host, secret);
    LookupFirst(c, 13, StrKey("auth_signing_secret"));
    LookupFirst(c, 17, StrKey("painttwits_network"));
  }

  /** The session record kept while the network verifies the artist's email. */
  datatype Pending = Pending(config: seq<Entry>, token: Json, email: string, initiatedAt: int)

  /**
   * initiateNetworkRegistration: the transport outcome (curl's error text,
   * the status code, the decoded body) mapped to the result handleSetup reads.
   */
  function Initiate(curlError: string, httpCode: int, decoded: Json): map<string, Json>
  {
    if !PhpEmpty(curlError) then map["success" := JBool(false), "error" := JStr("Connection failed: " + curlError)]
    else if httpCode != 200 then map["success" := JBool(false), "error" := JStr("Server returned status " + ExportInt(httpCode))]
    else if EmptyJson(decoded) then map["success" := JBool(false), "error" := JStr("Invalid response from server")]
    else FieldsOf(decoded)
  }

  /**
   * Every failure of the transport answers with success false and an error
   * text; otherwise the network's own answer is passed on.
   */
  lemma {:induction false} InitiateOutcomes(curlError: string, httpCode: int, decoded: Json)
    ensures var r := Initiate(curlError, httpCode, decoded);
      (PhpEmpty(curlError) && httpCode == 200 && !EmptyJson(decoded) ==> r == FieldsOf(decoded)) &&
      (!(PhpEmpty(curlError) && httpCode == 200 && !EmptyJson(decoded)) ==>
         !Accepted(r) && "error" in r && r["error"].JStr? &&
         (!PhpEmpty(curlError) ==> r["error"].s == "Connection failed: " + curlError) &&
         (PhpEmpty(curlError) && httpCode != 200 ==> r["error"].s == "Server returned status " + ExportInt(httpCode)))
  {
  }

  /** Whether registration went through: `$result['success']` is truthy. */
  predicate Accepted(result: map<string, Json>)
  {
    "success" in result && !EmptyJson(result["success"])
  }

  /** A request that handleSetup turns away before doing anything, with its error. */
  function Rejection(input: Json, isEmail: string -> bool): (r: Option<string>)
    ensures EmptyJson(input) ==> r == Some("Invalid request")
    ensures r.None? <==> !EmptyJson(input) && !PhpEmpty(ReadForm(FieldsOf(input)).name) &&
                         isEmail(ReadForm(FieldsOf(input)).email)
  {
    if EmptyJson(input) then Some("Invalid request")
    else
      var f := ReadForm(FieldsOf(input));
      if PhpEmpty(f.name) then Some("Name is required")
      else if !isEmail(f.email) then Some("Valid email is required")
      else None
  }

  function Failure(error: string): (r: map<string, Json>)
    ensures "success" in r && r["success"] == JBool(false)
  {
    map["success" := JBool(false), "error" := JStr(error)]
  }

  function AwaitingResponse(token: Json): (r: map<string, Json>)
    ensures "success" in r && r["success"] == JBool(true)
  {
    map["success" := JBool(true), "pending_verification" := JBool(true),
        "message" := JStr("Check your email to verify and complete registration."), "token" := token]
  }

  function JoinFailedResponse(reason: string): (r: map<string, Json>)
    ensures "success" in r && r["success"] == JBool(false)
    ensures "can_continue_standalone" in r && r["can_continue_standalone"] == JBool(true)
  {
    map["success" := JBool(false), "error" := JStr("Network registration failed: " + reason),
        "can_continue_standalone" := JBool(true)]
  }

  function ReadyResponse(): (r: map<string, Json>)
    ensures "success" in r && r["success"] == JBool(true)
  {
    map["success" := JBool(true), "message" := JStr("Setup complete! Your gallery is ready."),
        "config_location" := JStr("webroot"), "next_step" := JStr("upload_artwork")]
  }

  const WriteError: string := "Could not write configuration file. Please check directory permissions."

  /** What handleSetup does: its response, the configuration it writes and the session record it keeps. */
  datatype SetupEffect = SetupEffect(response: map<string, Json>, written: Option<seq<Entry>>, pending: Option<Pending>)

  /**
   * handleSetup. `registration` is the result of initiateNetworkRegistration,
   * `canWrite` whether writeConfig succeeds, `secret` the fresh signing
   * secret and `now` the time.
   */
  function SetupRequest(input: Json, isEmail: string -> bool, https: Option<string>, host: string, secret: string,
                        registration: map<string, Json>, canWrite: bool, now: int): (r: SetupEffect)
    ensures "success" in r.response && r.response["success"] == JBool(r.written.Some? || r.pending.Some?)
  {
    match Rejection(input, isEmail)
    case Some(error) => SetupEffect(Failure(error), None, None)
    case None =>
      var f := ReadForm(FieldsOf(input));
      var config := InitialConfig(f, https, host, secret);
      if f.joinNetwork then
        if Accepted(registration) then
          var token := Coalesce(registration, "token", JNull);
          SetupEffect(AwaitingResponse(token), None, Some(Pending(config, token, f.email, now)))
        else
          var reason := TextOf(Coalesce(registration, "error", JStr("Unknown error")));
          SetupEffect(JoinFailedResponse(reason), None, None)
      else if !canWrite then SetupEffect(Failure(WriteError), None, None)
      else
        SetupEffect(ReadyResponse(), Some(config), None)
  }

  /** A rejected request answers with its error and changes nothing. */
  lemma {:induction false} SetupRejects(input: Json, isEmail: string -> bool, https: Option<string>, host: string, secret: string,
                     registration: map<string, Json>, canWrite: bool, now: int)
    requires Rejection(input, isEmail).Some?
    ensures SetupRequest(input, isEmail, https, host, secret, registration, canWrite, now)
         == SetupEffect(Failure(Rejection(input, isEmail).value), None, None)
  {
  }

  /**
   * Joining the network writes no file: the configuration waits in the
   * session exactly when the network accepted the registration.
   */
  lemma {:induction false} SetupJoins(input: Json, isEmail: string -> bool, https: Option<string>, host: string, secret: string,
                   registration: map<string, Json>, canWrite: bool, now: int)
    requires Rejection(input, isEmail).None? && ReadForm(FieldsOf(input)).joinNetwork
    ensures var r := SetupRequest(input, isEmail, https, host, secret, registration, canWrite, now);
      var f := ReadForm(FieldsOf(input));
      r.written.None? &&
      (r.pending.Some? <==> Accepted(registration)) &&
      (r.pending.Some? ==> r.pending.value.config == InitialConfig(f, https, host, secret) &&
                           r.pending.value.email == f.email) &&
      (r.pending.None? ==> "can_continue_standalone" in r.response &&
                           r.response["can_continue_standalone"] == JBool(true))
  {
  }

  /** Standalone setup writes the configuration at once, when the directory takes it. */
  lemma {:induction false} SetupStandalone(input: Json, isEmail: string -> bool, https: Option<string>, host: string, secret: string,
                        registration: map<string, Json>, canWrite: bool, now: int)
    requires Rejection(input, isEmail).None? && !ReadForm(FieldsOf(input)).joinNetwork
    ensures var r := SetupRequest(input, isEmail, https, host, secret, registration, canWrite, now);
      r.pending.None? &&
      (canWrite ==> r.written == Some(InitialConfig(ReadForm(FieldsOf(input)), https, host, secret))) &&
      (!canWrite ==> r.written.None? && r.response == Failure(WriteError))
  {
  }

  /**
   * Once standalone setup has written its configuration, that configuration
   * passes the gate's test: an email the validator accepts is never empty.
   */
  lemma {:induction false} SetupThenGate(input: Json, isEmail: string -> bool, https: Option<string>, host: string, secret: string,
                      registration: map<string, Json>, now: int)
    requires !isEmail("") && !isEmail("0")
    requires Rejection(input, isEmail).None? && !ReadForm(FieldsOf(input)).joinNetwork
    ensures var w := SetupRequest(input, isEmail, https, host, secret, registration, true, now).written;
      w.Some? && Configured(Some(Arr(w.value)))
  {
    var f := ReadForm(FieldsOf(input));
    SetupStandalone(input, isEmail, https, host, secret, registration, true, now);
    assert isEmail(f.email);
    InitialConfigFields(f, https, host, secret);
  }

  /** The file written from any configuration that passes the gate's test makes the gate redirect. */
  lemma {:induction false} FileWithEmail(config: seq<Entry>, stamp: string)
    requires Configured(Some(Arr(config))) && OneLine(stamp)
    ensures FileConfigures(Some(ConfigFileText(Arr(config), stamp)))
  {
    IncludeRoundTrip(Arr(config), stamp);
  }

  // ---------------------------------------------------------------------
  // Completing a network registration

  const CentralApi: string := "https://painttwits.com/api"
  const OAuthCallback: string := "https://painttwits.com/auth/callback.php"

  /** The first three assignments: the central API, the key, and the network switched on. */
  function Enable(config: seq<Entry>, result: map<string, Json>): seq<Entry>
  {
    var c1 := SetKey(config, StrKey("central_api"), Str(CentralApi));
    var c2 := SetKey(c1, StrKey("api_key"), ScalarOf(Coalesce(result, "api_key", JStr(""))));
    SetNested(c2, "painttwits_network", "enabled", Bool(true))
  }

  /** The network's OAuth client, when it sends one. */
  function WithOAuth(config: seq<Entry>, result: map<string, Json>): seq<Entry>
  {
    if "google_client_id" in result && !EmptyJson(result["google_client_id"]) then
      var o := SetNested(config, "oauth", "google_client_id", ScalarOf(result["google_client_id"]));
      SetNested(o, "oauth", "callback_url", Str(OAuthCallback))
    else config
  }

  /** The network's signing secret, when it sends one. */
  function WithSecret(config: seq<Entry>, result: map<string, Json>): seq<Entry>
  {
    if "auth_signing_secret" in result && !EmptyJson(result["auth_signing_secret"]) then
      SetKey(config, StrKey("auth_signing_secret"), ScalarOf(result["auth_signing_secret"]))
    else config
  }

  /** The configuration once the network reports the registration verified. */
  function Verified(config: seq<Entry>, result: map<string, Json>): seq<Entry>
  {
    WithSecret(WithOAuth(Enable(config, result), result), result)
  }

  /** The inner array under k1 that `$arr[$k1][$k2] = ...` starts from. */
  function InnerOf(es: seq<Entry>, k1: string): seq<Entry>
  {
    match Field(es, k1) case Some(Arr(ies)) => ies case _ => []
  }

  lemma {:induction false} NestedLookup(es: seq<Entry>, k1: string, k2: string, x: Value, j: Key)
    ensures Lookup(SetNested(es, k1, k2, x), j) ==
      if j == StrKey(k1) then Some(Arr(SetKey(InnerOf(es, k1), StrKey(k2), x))) else Lookup(es, j)
  {
    LookupSetKey(es, StrKey(k1), Arr(SetKey(InnerOf(es, k1), StrKey(k2), x)), j);
  }

  /** Enable sets the central API and key and switches the network on, and changes no other key. */
  lemma {:induction false} EnableLookup(config: seq<Entry>, result: map<string, Json>, j: Key)
    ensures var e := Enable(config, result);
      Field(e, "central_api") == Some(Str(CentralApi)) &&
      Field(e, "api_key") == Some(ScalarOf(Coalesce(result, "api_key", JStr("")))) &&
      Field(e, "painttwits_network").Some? && Field(e, "painttwits_network").value.Arr? &&
      Field(Field(e, "painttwits_network").value.entries, "enabled") == Some(Bool(true)) &&
      (j != StrKey("central_api") && j != StrKey("api_key") && j != StrKey("painttwits_network") ==>
         Lookup(e, j) == Lookup(config, j))
  {
    var key := ScalarOf(Coalesce(result, "api_key", JStr("")));
    var c1 := SetKey(config, StrKey("central_api"), Str(CentralApi));
    var c2 := SetKey(c1, StrKey("api_key"), key);
    forall k: Key | k == j || k == StrKey("central_api") || k == StrKey("api_key") || k == StrKey("painttwits_network")
      ensures Lookup(Enable(config, result), k) ==
        if k == StrKey("painttwits_network") then Some(Arr(SetKey(InnerOf(c2, "painttwits_network"), StrKey("enabled"), Bool(true))))
        else Lookup(c2, k)
    {
      NestedLookup(c2, "painttwits_network", "enabled", Bool(true), k);
    }
    LookupSetKey(InnerOf(c2, "painttwits_network"), StrKey("enabled"), Bool(true), StrKey("enabled"));
    LookupSetKey(c1, StrKey("api_key"), key, StrKey("central_api"));
    LookupSetKey(c1, StrKey("api_key"), key, StrKey("api_key"));
    LookupSetKey(c1, StrKey("api_key"), key, j);
    LookupSetKey(config, StrKey("central_api"), Str(CentralApi), StrKey("central_api"));
    LookupSetKey(config, StrKey("central_api"), Str(CentralApi), j);
  }

  /** WithOAuth touches only oauth, and only when the network sends a client id. */
  lemma {:induction false} WithOAuthLookup(config: seq<Entry>, result: map<string, Json>, j: Key)
    ensures j != StrKey("oauth") ==> Lookup(WithOAuth(config, result), j) == Lookup(config, j)
    ensures "google_client_id" in result && !EmptyJson(result["google_client_id"]) ==>
      var o := Field(WithOAuth(config, result), "oauth");
      o.Some? && o.value.Arr? &&
      Field(o.value.entries, "google_client_id") == Some(ScalarOf(result["google_client_id"])) &&
      Field(o.value.entries, "callback_url") == Some(Str(OAuthCallback))
    ensures !("google_client_id" in result && !EmptyJson(result["google_client_id"])) ==>
      WithOAuth(config, result) == config
  {
    if "google_client_id" in result && !EmptyJson(result["google_client_id"]) {
      var id := ScalarOf(result["google_client_id"]);
      var o := SetNested(config, "oauth", "google_client_id", id);
      var inner1 := SetKey(InnerOf(config, "oauth"), StrKey("google_client_id"), id);
      NestedLookup(config, "oauth", "google_client_id", id, j);
      NestedLookup(config, "oauth", "google_client_id", id, StrKey("oauth"));
      NestedLookup(o, "oauth", "callback_url", Str(OAuthCallback), j);
      NestedLookup(o, "oauth", "callback_url", Str(OAuthCallback), StrKey("oauth"));
      assert InnerOf(o, "oauth") == inner1;
      LookupSetKey(inner1, StrKey("callback_url"), Str(OAuthCallback), StrKey("google_client_id"));
      LookupSetKey(inner1, StrKey("callback_url"), Str(OAuthCallback), StrKey("callback_url"));
      LookupSetKey(InnerOf(config, "oauth"), StrKey("google_client_id"), id, StrKey("google_client_id"));
    }
  }

  /** WithSecret touches only the signing secret, and only when the network sends one. */
  lemma {:induction false} WithSecretLookup(config: seq<Entry>, result: map<string, Json>, j: Key)
    ensures j != StrKey("auth_signing_secret") ==> Lookup(WithSecret(config, result), j) == Lookup(config, j)
    ensures "auth_signing_secret" in result && !EmptyJson(result["auth_signing_secret"]) ==>
      Field(WithSecret(config, result), "auth_signing_secret") == Some(ScalarOf(result["auth_signing_secret"]))
    ensures !("auth_signing_secret" in result && !EmptyJson(result["auth_signing_secret"])) ==>
      WithSecret(config, result) == config
  {
    if "auth_signing_secret" in result && !EmptyJson(result["auth_signing_secret"]) {
      var x := ScalarOf(result["auth_signing_secret"]);
      LookupSetKey(config, StrKey("auth_signing_secret"), x, j);
      LookupSetKey(config, StrKey("auth_signing_secret"), x, StrKey("auth_signing_secret"));
    }
  }

  /**
   * Verification joins the network: the central API and key are set, the
   * network is enabled, and no key outside the merged ones changes.
   */
  lemma {:induction false} VerifiedJoins(config: seq<Entry>, result: map<string, Json>, j: Key)
    ensures var v := Verified(config, result);
      Field(v, "central_api") == Some(Str(CentralApi)) &&
      Field(v, "api_key") == Some(ScalarOf(Coalesce(result, "api_key", JStr("")))) &&
      Field(v, "painttwits_network").Some? && Field(v, "painttwits_network").value.Arr? &&
      Field(Field(v, "painttwits_network").value.entries, "enabled") == Some(Bool(true))
    ensures j !in MergedKeys ==> Lookup(Verified(config, result), j) == Lookup(config, j)
  {
    var e := Enable(config, result);
    var o := WithOAuth(e, result);
    EnableLookup(config, result, j);
    forall k: Key | k == j || k == StrKey("central_api") || k == StrKey("api_key") || k == StrKey("painttwits_network")
      ensures Lookup(Verified(config, result), k) == Lookup(e, k) || k == j
    {
      WithOAuthLookup(e, result, k);
      WithSecretLookup(o, result, k);
    }
    WithOAuthLookup(e, result, j);
    WithSecretLookup(o, result, j);
  }

  /** The keys Verified may change. */
  const MergedKeys: set<Key> := {StrKey("central_api"), StrKey("api_key"), StrKey("painttwits_network"),
                                 StrKey("oauth"), StrKey("auth_signing_secret")}

  /**
   * The OAuth settings change only when the network sends a client id,
   * and then take it together with the network's callback address.
   */
  lemma {:induction false} VerifiedOAuth(config: seq<Entry>, result: map<string, Json>)
    ensures "google_client_id" in result && !EmptyJson(result["google_client_id"]) ==>
      var o := Field(Verified(config, result), "oauth");
      o.Some? && o.value.Arr? &&
      Field(o.value.entries, "google_client_id") == Some(ScalarOf(result["google_client_id"])) &&
      Field(o.value.entries, "callback_url") == Some(Str(OAuthCallback))
    ensures !("google_client_id" in result && !EmptyJson(result["google_client_id"])) ==>
      Field(Verified(config, result), "oauth") == Field(config, "oauth")
  {
    var e := Enable(config, result);
    var o := WithOAuth(e, result);
    EnableLookup(config, result, StrKey("oauth"));
    WithOAuthLookup(e, result, StrKey("oauth"));
    WithSecretLookup(o, result, StrKey("oauth"));
  }

  /** The signing secret is replaced only when the network sends one. */
  lemma {:induction false} VerifiedSecret(config: seq<Entry>, result: map<string, Json>)
    ensures "auth_signing_secret" in result && !EmptyJson(result["auth_signing_secret"]) ==>
      Field(Verified(config, result), "auth_signing_secret") == Some(ScalarOf(result["auth_signing_secret"]))
    ensures !("auth_signing_secret" in result && !EmptyJson(result["auth_signing_secret"])) ==>
      Field(Verified(config, result), "auth_signing_secret") == Field(config, "auth_signing_secret")
  {
    var e := Enable(config, result);
    var o := WithOAuth(e, result);
    EnableLookup(config, result, StrKey("auth_signing_secret"));
    WithOAuthLookup(e, result, StrKey("auth_signing_secret"));
    WithSecretLookup(o, result, StrKey("auth_signing_secret"));
  }

  // ---------------------------------------------------------------------
  // Polling the registration

  /** What checkRegistrationStatus does: its response, the configuration it writes, whether it ends the session record. */
  datatype CheckEffect = CheckEffect(response: map<string, Json>, written: Option<seq<Entry>>, clearsPending: bool)

  function StillPending(): map<string, Json>
  {
    map["status" := JStr("pending")]
  }

  function CompleteResponse(): map<string, Json>
  {
    map["status" := JStr("complete"), "success" := JBool(true),
        "message" := JStr("Setup complete! Your gallery is connected to the painttwits network."),
        "config_location" := JStr("webroot")]
  }

  /** The network reports the registration verified: `$result['status'] === 'verified'`. */
  predicate IsVerified(httpCode: int, decoded: Json)
  {
    httpCode == 200 && !EmptyJson(decoded) &&
    "status" in FieldsOf(decoded) && FieldsOf(decoded)["status"] == JStr("verified")
  }

  /**
   * checkRegistrationStatus, given the session record, the status code and
   * decoded body of the network's answer, and whether writeConfig succeeds.
   */
  function CheckRegistration(pending: Option<Pending>, httpCode: int, decoded: Json, canWrite: bool): CheckEffect
  {
    if pending.None? then CheckEffect(Failure("No pending registration"), None, false)
    else if !IsVerified(httpCode, decoded) then CheckEffect(StillPending(), None, false)
    else if !canWrite then CheckEffect(Failure(WriteError), None, false)
    else CheckEffect(CompleteResponse(), Some(Verified(pending.value.config, FieldsOf(decoded))), true)
  }

  /**
   * The session record ends exactly when the merged configuration is
   * written, and that happens only for a verified registration.
   */
  lemma {:induction false} CheckWritesOnlyVerified(pending: Option<Pending>, httpCode: int, decoded: Json, canWrite: bool)
    ensures var e := CheckRegistration(pending, httpCode, decoded, canWrite);
      (e.clearsPending <==> e.written.Some?) &&
      (e.written.Some? <==> pending.Some? && IsVerified(httpCode, decoded) && canWrite) &&
      (e.written.Some? ==> e.written.value == Verified(pending.value.config, FieldsOf(decoded)))
  {
  }

  /**
   * Completing the registration keeps the email of the configuration that
   * waited in the session, so what it writes passes the gate's test.
   */
  lemma {:induction false} JoinThenGate(p: Pending, httpCode: int, decoded: Json)
    requires Configured(Some(Arr(p.config))) && IsVerified(httpCode, decoded)
    ensures var w := CheckRegistration(Some(p), httpCode, decoded, true).written;
      w.Some? && Configured(Some(Arr(w.value)))
  {
    VerifiedJoins(p.config, FieldsOf(decoded), StrKey("email"));
  }

  // ---------------------------------------------------------------------
  // The installation the wizard works on

  /** A configuration file: one the wizard wrote, or any other text. */
  datatype ConfigFile = Written(config: seq<Entry>, stamp: string) | Other(text: string)

  function FileText(file: ConfigFile): string
  {
    match file
    case Written(config, stamp) => ConfigFileText(Arr(config), stamp)
    case Other(text) => text
  }

  /** A configuration file, when present, that makes the gate redirect. */
  predicate Redirects(file: Option<ConfigFile>)
  {
    file.Some? && FileConfigures(Some(FileText(file.value)))
  }

  class Installation {
    /** artist_config.php above the webroot, if present. */
    var aboveWebroot: Option<ConfigFile>
    /** artist_config.php in the webroot, the file the wizard writes. */
    var webroot: Option<ConfigFile>
    /** `$_SESSION['setup_pending']`. */
    var pending: Option<Pending>

    constructor (above: Option<ConfigFile>, inWebroot: Option<ConfigFile>)
      ensures aboveWebroot == above && webroot == inWebroot && pending.None?
    {
      aboveWebroot := above;
      webroot := inWebroot;
      pending := None;
    }

    /** The check at the top of the wizard: redirect when either location holds a configuration with an email. */
    method Gate() returns (redirect: bool)
      ensures redirect <==> Redirects(aboveWebroot) || Redirects(webroot)
    {
      var locations := [aboveWebroot, webroot];
      var i := 0;
      while i < |locations|
        invariant 0 <= i <= |locations|
        invariant forall j :: 0 <= j < i ==> !Redirects(locations[j])
      {
        if Redirects(locations[i]) {
          return true;
        }
        i := i + 1;
      }
      assert !Redirects(locations[0]) && !Redirects(locations[1]);
      return false;
    }

    /**
     * The form submission. The network registration is attempted, with the
     * given transport outcome, only when the artist chose to join.
     */
    method HandleSetup(input: Json, isEmail: string -> bool, https: Option<string>, host: string, secret: string,
                       curlError: string, httpCode: int, decoded: Json, canWrite: bool, now: int, stamp: string)
      returns (response: map<string, Json>)
      modifies this`webroot, this`pending
      ensures var e := SetupRequest(input, isEmail, https, host, secret, Initiate(curlError, httpCode, decoded),
                                    canWrite, now);
        response == e.response &&
        webroot == (if e.written.Some? then Some(Written(e.written.value, stamp)) else old(webroot)) &&
        pending == (if e.pending.Some? then e.pending else old(pending))
    {
      var registration := Initiate(curlError, httpCode, decoded);
      var e := SetupRequest(input, isEmail, https, host, secret, registration, canWrite, now);
      if e.written.Some? {
        webroot := Some(Written(e.written.value, stamp));
      }
      if e.pending.Some? {
        pending := e.pending;
      }
      response := e.response;
    }

    /** The polling endpoint. */
    method CheckStatus(httpCode: int, decoded: Json, canWrite: bool, stamp: string) returns (response: map<string, Json>)
      modifies this`webroot, this`pending
      ensures var e := CheckRegistration(old(pending), httpCode, decoded, canWrite);
        response == e.response &&
        webroot == (if e.written.Some? then Some(Written(e.written.value, stamp)) else old(webroot)) &&
        pending == (if e.clearsPending then None else old(pending))
    {
      var e := CheckRegistration(pending, httpCode, decoded, canWrite);
      if e.written.Some? {
        webroot := Some(Written(e.written.value, stamp));
      }
      if e.clearsPending {
        pending := None;
      }
      response := e.response;
    }
  }
}
