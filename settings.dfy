// The settings page (settings.php): where the site's subdomain comes from,
// the multi-subdomain plan, the account-deletion request (CSRF token,
// typed confirmation, the central network first, then the local files),
// the page's own script that enables the delete button, and the
// validator for a new subdomain.
//
// The site's files are a tree of paths relative to the site root (as in
// ApplyUpdate); the glob listing of the uploads directory, the central
// server's reply and the clock are parameters.

module Settings {
  import opened Common
  import opened PhpExport
  import Setup
  import ApplyUpdate
  import Export

  // ---------------------------------------------------------------------
  // The subdomain

  const Domain: string := ".painttwits.com"

  /** A label character of `([a-z0-9-]+)` under the /i flag. */
  predicate LabelChar(c: char) { IsAlnum(c) || c == '-' }

  /** The subject with one final newline set aside, where PCRE's `$` may also match. */
  function Unterminated(h: string): string
  {
    if h != [] && h[|h| - 1] == '\n' then h[..|h| - 1] else h
  }

  /** `preg_match('/^([a-z0-9-]+)\.painttwits\.com$/i', $host, $m)` and `$m[1]`. */
  function HostLabel(host: string): (r: Option<string>)
    ensures r.Some? ==> r.value != [] && StartsWith(host, r.value)
    ensures r.Some? ==> forall i :: 0 <= i < |r.value| ==> LabelChar(r.value[i])
  {
    var h := Unterminated(host);
    var n := |h| - |Domain|;
    if n > 0 && ToLower(h[n..]) == Domain && forall i :: 0 <= i < n ==> LabelChar(h[i]) then Some(h[..n]) else None
  }

  /** A host `<label>.painttwits.com`, in any case and with or without a final newline, yields its label. */
  lemma {:induction false} HostLabelOf(name: string, suffix: string)
    requires name != [] && forall i :: 0 <= i < |name| ==> LabelChar(name[i])
    requires ToLower(suffix) == Domain
    ensures HostLabel(name + suffix) == Some(name)
    ensures HostLabel(name + suffix + "\n") == Some(name)
  {
    var h := name + suffix;
    assert |suffix| == |Domain|;
    assert LowerChar(suffix[|suffix| - 1]) == 'm';
    assert h[|h| - 1] == suffix[|suffix| - 1];
    assert Unterminated(h) == h;
    assert h[|name|..] == suffix && h[..|name|] == name;
    assert forall i :: 0 <= i < |name| ==> h[i] == name[i];
    var g := h + "\n";
    assert Unterminated(g) == h;
  }

  /** `$config['subdomain'] ?? ''`, and when that is empty, the label of the Host header if it has one. */
  function Subdomain(config: seq<Entry>, host: string): Value
  {
    var v := Setup.FieldOr(config, "subdomain", Str(""));
    if !EmptyValue(v) then v
    else match HostLabel(host)
      case Some(l) => Str(l)
      case None => v
  }

  /** The configured subdomain wins; otherwise the Host header's label; a host of another form leaves it empty. */
  lemma {:induction false} SubdomainSource(config: seq<Entry>, host: string)
    ensures var v := Setup.FieldOr(config, "subdomain", Str(""));
      && (!EmptyValue(v) ==> Subdomain(config, host) == v)
      && (EmptyValue(v) && HostLabel(host).Some? ==> Subdomain(config, host) == Str(HostLabel(host).value))
      && (EmptyValue(v) && HostLabel(host).None? ==> EmptyValue(Subdomain(config, host)))
  {
  }

  /** `$subdomain ?: ($config['site_domain'] ?? $config['email'] ?? '')`. */
  function ConfirmText(config: seq<Entry>, subdomain: Value): Value
  {
    if !EmptyValue(subdomain) then subdomain
    else Setup.FieldOr(config, "site_domain", Setup.FieldOr(config, "email", Str("")))
  }

  /** The confirmation text is the subdomain when there is one, else site_domain, else email, else empty. */
  lemma {:induction false} ConfirmTextOrder(config: seq<Entry>, subdomain: Value)
    ensures !EmptyValue(subdomain) ==> ConfirmText(config, subdomain) == subdomain
    ensures EmptyValue(subdomain) && Setup.Field(config, "site_domain").Some? && !Setup.Field(config, "site_domain").value.Null?
            ==> ConfirmText(config, subdomain) == Setup.Field(config, "site_domain").value
    ensures EmptyValue(subdomain) && (Setup.Field(config, "site_domain").None? || Setup.Field(config, "site_domain").value.Null?)
            ==> ConfirmText(config, subdomain) == Setup.FieldOr(config, "email", Str(""))
  {
  }

  // ---------------------------------------------------------------------
  // The multi-subdomain plan

  /** `$config['central_api'] ?? $config['painttwits_api'] ?? ''`. */
  function CentralApi(config: seq<Entry>): Value
  {
    Setup.FieldOr(config, "central_api", Setup.FieldOr(config, "painttwits_api", Str("")))
  }

  /** The site is connected to the network: a central API and an API key, both non-empty. */
  predicate Connected(config: seq<Entry>)
  {
    !EmptyValue(CentralApi(config)) && !EmptyValue(Setup.FieldOr(config, "api_key", Str("")))
  }

  /** The blanks intval() skips before a number. */
  predicate IntSpace(c: char)
  {
    c == ' ' || c == '\t' || c == '\n' || c == '\r' || c == 11 as char || c == 12 as char
  }

  function SkipSpace(s: string): (r: string)
    ensures r == [] || !IntSpace(r[0])
  {
    if s != [] && IntSpace(s[0]) then SkipSpace(s[1..]) else s
  }

  /** intval() of a string: blanks, an optional sign and the leading digits; no digits read as 0. */
  function IntOfText(s: string): int
  {
    var t := SkipSpace(s);
    var signed := t != [] && (t[0] == '-' || t[0] == '+');
    var digits := if signed then t[1..] else t;
    var n := match ReadNat(digits) case Some((v, _)) => v as int case None => 0;
    if signed && t[0] == '-' then -n else n
  }

  /** intval() reads back what PHP prints for an integer. */
  lemma {:induction false} IntOfTextOfInt(i: int)
    ensures IntOfText(ExportInt(i)) == i
  {
    if i < 0 {
      var d := NatToString(-i);
      assert ("-" + d)[1..] == d;
      ReadNatOfNat(-i, []);
      assert d + [] == d;
    } else {
      var d := NatToString(i);
      assert !IntSpace(d[0]) && d[0] != '-' && d[0] != '+';
      ReadNatOfNat(i, []);
      assert d + [] == d;
    }
  }

  /** intval() of a decoded JSON value. */
  function IntVal(j: Json): int
  {
    match j
    case JNull => 0
    case JBool(b) => if b then 1 else 0
    case JNum(n) => n
    case JStr(s) => IntOfText(s)
    case JArr(items) => if items == [] then 0 else 1
    case JObj(f) => if f == map[] then 0 else 1
  }

  datatype Plan = Plan(maxSubdomains: int, paidMulti: bool, subdomainCount: int)

  /** One subdomain, not paid, one in use. */
  const DefaultPlan: Plan := Plan(1, false, 1)

  /** The plan the central status endpoint reports (`status` is the decoded reply, null when there is none). */
  function PlanOf(config: seq<Entry>, status: Json): Plan
  {
    if Connected(config) && !EmptyJson(status) && status.JObj? && IsSet(status.fields, "max_subdomains") then
      var f := status.fields;
      Plan(IntVal(f["max_subdomains"]), !EmptyJson(Coalesce(f, "is_paid_multi", JNull)),
           IntVal(Coalesce(f, "subdomain_count", JNum(1))))
    else DefaultPlan
  }

  /** `$canCreateMore = $is_paid_multi || ($subdomain_count < $max_subdomains)`. */
  predicate CanCreateMore(p: Plan) { p.paidMulti || p.subdomainCount < p.maxSubdomains }

  /** A site off the network, or one whose status reply is unusable, cannot add a subdomain; a paid account always can,
    * and otherwise the count must be below the maximum. */
  lemma {:induction false} CanCreateMoreWhen(config: seq<Entry>, status: Json)
    ensures !Connected(config) ==> !CanCreateMore(PlanOf(config, status))
    ensures !(status.JObj? && IsSet(status.fields, "max_subdomains")) ==> !CanCreateMore(PlanOf(config, status))
    ensures PlanOf(config, status).paidMulti ==> CanCreateMore(PlanOf(config, status))
    ensures !PlanOf(config, status).paidMulti ==>
      (CanCreateMore(PlanOf(config, status)) <==>
       PlanOf(config, status).subdomainCount < PlanOf(config, status).maxSubdomains)
  {
  }

  // ---------------------------------------------------------------------
  // The new-subdomain field and its validator (the page's script)

  predicate SubdomainChar(c: char) { IsLower(c) || IsDigit(c) || c == '-' }
  predicate EdgeChar(c: char) { IsLower(c) || IsDigit(c) }

  /** `this.value.toLowerCase().replace(/[^a-z0-9-]/g, '')`, run on every keystroke. */
  function InputFilter(typed: string): (r: string)
    ensures forall i :: 0 <= i < |r| ==> SubdomainChar(r[i])
  {
    Filter(ToLower(typed), SubdomainChar)
  }

  /** The filtered field is already trimmed and lower-case, so the script's trim().toLowerCase() leaves it as it is. */
  lemma {:induction false} InputFilterSettled(typed: string)
    ensures ToLower(InputFilter(typed)) == InputFilter(typed)
    ensures NoEdgeBlank(InputFilter(typed))
    ensures InputFilter(InputFilter(typed)) == InputFilter(typed)
  {
    var r := InputFilter(typed);
    ToLowerOfLower(r);
    FilterKeepsAll(r, SubdomainChar);
  }

  /** `/^[a-z][a-z0-9-]{1,48}[a-z0-9]$/`. */
  predicate LongForm(s: string)
  {
    3 <= |s| <= 50 && IsLower(s[0]) && EdgeChar(s[|s| - 1]) && forall i :: 1 <= i < |s| - 1 ==> SubdomainChar(s[i])
  }

  /** `/^[a-z][a-z0-9]?$/` as written: the second character is optional. */
  predicate ShortFormAsWritten(s: string)
  {
    1 <= |s| <= 2 && IsLower(s[0]) && (|s| == 2 ==> EdgeChar(s[1]))
  }

  /** The validator as written. */
  predicate ValidAsWritten(s: string) { LongForm(s) || ShortFormAsWritten(s) }

  /** A name of exactly two characters, as the "at least 2 characters" message and minlength="2" intend. */
  predicate ShortForm(s: string) { |s| == 2 && IsLower(s[0]) && EdgeChar(s[1]) }

  /** The validator as intended. */
  predicate Valid(s: string) { LongForm(s) || ShortForm(s) }

  /** A well-formed subdomain: 2 to 50 characters of [a-z0-9-], starting with a letter and not ending in '-'. */
  predicate WellFormed(s: string)
  {
    2 <= |s| <= 50 && IsLower(s[0]) && EdgeChar(s[|s| - 1]) && forall i :: 0 <= i < |s| ==> SubdomainChar(s[i])
  }

  /** The intended validator accepts exactly the well-formed names. */
  lemma {:induction false} ValidExactly(s: string)
    ensures Valid(s) <==> WellFormed(s)
  {
  }

  /** The validator as written accepts a single letter, which the message on failure and minlength="2" rule out. */
  lemma {:induction false} AsWrittenAcceptsOneLetter()
    ensures ValidAsWritten("a") && !Valid("a") && !WellFormed("a")
  {
  }

  /** The single letters are all the validator as written lets through beyond the intended one. */
  lemma {:induction false} AsWrittenOnlyAddsOneLetter(s: string)
    ensures ValidAsWritten(s) <==> Valid(s) || (|s| == 1 && IsLower(s[0]))
  {
  }

  datatype Creation = NoName | InvalidName | Create(subdomain: string)

  /**
   * createSubdomain() on what the field holds after the filter; the page
   * runs it with the validator as written (strict = false), strict = true
   * uses the intended one.
   */
  function CreateRequest(typed: string, strict: bool): Creation
  {
    var s := InputFilter(typed);
    if s == [] then NoName
    else if !(if strict then Valid(s) else ValidAsWritten(s)) then InvalidName
    else Create(s)
  }

  /** As written, the well-formed names and the single letters are sent on, as the filtered text. */
  lemma {:induction false} CreateRequestSends(typed: string)
    ensures var s := InputFilter(typed);
            CreateRequest(typed, false).Create? <==> WellFormed(s) || (|s| == 1 && IsLower(s[0]))
    ensures CreateRequest(typed, false).Create? ==> CreateRequest(typed, false).subdomain == InputFilter(typed)
  {
    ValidExactly(InputFilter(typed));
    AsWrittenOnlyAddsOneLetter(InputFilter(typed));
  }

  /** With the intended validator only well-formed names are sent on. */
  lemma {:induction false} CreateRequestSendsIntended(typed: string)
    ensures CreateRequest(typed, true).Create? <==> WellFormed(InputFilter(typed))
    ensures CreateRequest(typed, true).Create? ==> CreateRequest(typed, true).subdomain == InputFilter(typed)
  {
    ValidExactly(InputFilter(typed));
  }

  /** Typing one lower-case letter: the page sends it; the intended validator stops it. */
  lemma {:induction false} OneLetterSent(c: char)
    requires IsLower(c)
    ensures CreateRequest([c], false) == Create([c])
    ensures CreateRequest([c], true) == InvalidName
  {
    assert ToLower([c]) == [c];
    assert Filter([c], SubdomainChar) == [c];
  }

  // ---------------------------------------------------------------------
  // The delete-account request

  const TokenError: string := "Invalid or expired form token. Please try again."
  const MismatchError: string := "Confirmation text does not match. Please type it exactly."
  const CentralDefaultError: string := "Failed to delete from central server."

  /** What the central server answered: its HTTP status and the decoded body. */
  datatype CentralReply = CentralReply(httpCode: int, body: Json)

  /** deleteViaCentralApi's `['success' => ..., 'error' => ...]`. */
  datatype Answer = Answer(success: Json, error: Json)

  function CentralResult(r: CentralReply): Answer
  {
    if r.httpCode == 200 then
      var f := Setup.FieldsOf(r.body);
      Answer(Coalesce(f, "success", JBool(false)), Coalesce(f, "error", JNull))
    else Answer(JBool(false), JStr("API request failed (HTTP " + ExportInt(r.httpCode) + ")"))
  }

  /** `$result['error'] ?? 'Failed to delete from central server.'`. */
  function CentralMessage(a: Answer): Json
  {
    if a.error.JNull? then JStr(CentralDefaultError) else a.error
  }

  /** `$delete_error` after step 1: empty unless the site is connected and the central server refused. */
  function CentralError(config: seq<Entry>, a: Answer): Json
  {
    if !Connected(config) then JStr("")
    else if EmptyJson(a.success) then CentralMessage(a) else JStr("")
  }

  /** The error is empty exactly when the site is off the network, or the server agreed, or its message is empty. */
  lemma {:induction false} CentralErrorEmpty(config: seq<Entry>, a: Answer)
    ensures EmptyJson(CentralError(config, a)) <==> !Connected(config) || !EmptyJson(a.success) || EmptyJson(CentralMessage(a))
    ensures !EmptyJson(CentralError(config, a)) ==> CentralError(config, a) == CentralMessage(a)
  {
    assert PhpEmpty("");
  }

  /** A connected site whose request to the central server fails at the HTTP level keeps its files and reports the status. */
  lemma {:induction false} FailedRequestBlocks(config: seq<Entry>, r: CentralReply)
    requires Connected(config) && r.httpCode != 200
    ensures !EmptyJson(CentralError(config, CentralResult(r)))
    ensures StartsWith(CentralError(config, CentralResult(r)).s, "API request failed (HTTP ")
  {
    var m := "API request failed (HTTP " + ExportInt(r.httpCode) + ")";
    assert m[..25] == "API request failed (HTTP ";
  }

  /** The CSRF check: a non-empty token equal to the session's. */
  predicate TokenValid(post: map<string, string>, sessionCsrf: Option<string>)
  {
    var csrf := if "csrf_token" in post then post["csrf_token"] else "";
    !PhpEmpty(csrf) && sessionCsrf == Some(csrf)
  }

  /** `trim($_POST['confirm_subdomain'] ?? '')` compared with the confirmation text, both lower-cased. */
  predicate ConfirmationMatches(post: map<string, string>, confirm: string)
  {
    var typed := if "confirm_subdomain" in post then post["confirm_subdomain"] else "";
    ToLower(Trim(typed)) == ToLower(confirm)
  }

  /** `($site_url ?: '/') . '?deleted=1'`. */
  function RedirectTo(config: seq<Entry>): string
  {
    var u := Setup.FieldOr(config, "site_url", Str(""));
    (if EmptyValue(u) then "/" else ConcatText(u)) + "?deleted=1"
  }

  datatype Outcome =
    | SignIn                                   // no signed-in artist: redirect to the front page, nothing else runs
    | Page(error: Json, centralCalled: bool)   // the page is shown again, with $delete_error
    | Deleted(location: string)                // local files removed, session destroyed, redirect
    | Fatal                                    // an array as the confirmation text: strtolower throws

  /** The sign-in check, then the POST handler at the top of the page; `signedIn` is the truthiness of
    * `$_SESSION['artist_authenticated']` (false when it is unset). */
  function Decide(signedIn: bool, isPost: bool, post: map<string, string>, sessionCsrf: Option<string>, config: seq<Entry>,
                  subdomain: Value, answer: Answer): Outcome
  {
    if !signedIn then SignIn
    else if !(isPost && "action" in post) then Page(JStr(""), false)
    else if !TokenValid(post, sessionCsrf) then Page(JStr(TokenError), false)
    else if post["action"] != "delete_account" then Page(JStr(""), false)
    else match ValueText(ConfirmText(config, subdomain))
      case None => Fatal
      case Some(confirm) =>
        if !ConfirmationMatches(post, confirm) then Page(JStr(MismatchError), false)
        else AfterConsent(config, answer)
  }

  /** Past the consent checks: delete and redirect unless the central server reported an error. */
  function AfterConsent(config: seq<Entry>, answer: Answer): Outcome
  {
    var err := CentralError(config, answer);
    if EmptyJson(err) then Deleted(RedirectTo(config)) else Page(err, true)
  }

  /** Nothing is deleted without a signed-in artist's POST of delete_account carrying the session's token and the
    * typed confirmation. */
  lemma {:induction false} DeletionNeedsConsent(signedIn: bool, isPost: bool, post: map<string, string>, sessionCsrf: Option<string>, config: seq<Entry>,
                             subdomain: Value, answer: Answer)
    requires Decide(signedIn, isPost, post, sessionCsrf, config, subdomain, answer).Deleted?
    ensures signedIn
    ensures isPost && "action" in post && post["action"] == "delete_account"
    ensures TokenValid(post, sessionCsrf)
    ensures ValueText(ConfirmText(config, subdomain)).Some?
    ensures ConfirmationMatches(post, ValueText(ConfirmText(config, subdomain)).value)
  {
  }

  /** Once consent is given, the local files go exactly when the site is off the network, or the central server agreed,
    * or it refused with an empty error; a refusal with a message stops the deletion and shows that message. */
  lemma {:induction false} CentralBeforeLocal(isPost: bool, post: map<string, string>, sessionCsrf: Option<string>, config: seq<Entry>,
                           subdomain: Value, answer: Answer)
    requires isPost && "action" in post && post["action"] == "delete_account" && TokenValid(post, sessionCsrf)
    requires ValueText(ConfirmText(config, subdomain)).Some?
    requires ConfirmationMatches(post, ValueText(ConfirmText(config, subdomain)).value)
    ensures Decide(true, isPost, post, sessionCsrf, config, subdomain, answer).Deleted? <==>
      !Connected(config) || !EmptyJson(answer.success) || EmptyJson(CentralMessage(answer))
    ensures Connected(config) && EmptyJson(answer.success) && !EmptyJson(CentralMessage(answer)) ==>
      Decide(true, isPost, post, sessionCsrf, config, subdomain, answer) == Page(CentralMessage(answer), true)
  {
    CentralErrorEmpty(config, answer);
    DecideAfterConsent(isPost, post, sessionCsrf, config, subdomain, answer, ValueText(ConfirmText(config, subdomain)).value);
  }

  /** Past the consent checks, only the central server's error decides. */
  lemma {:induction false} DecideAfterConsent(isPost: bool, post: map<string, string>, sessionCsrf: Option<string>,
                                              config: seq<Entry>, subdomain: Value, answer: Answer, confirm: string)
    requires isPost && "action" in post && post["action"] == "delete_account" && TokenValid(post, sessionCsrf)
    requires ValueText(ConfirmText(config, subdomain)) == Some(confirm) && ConfirmationMatches(post, confirm)
    ensures Decide(true, isPost, post, sessionCsrf, config, subdomain, answer) == AfterConsent(config, answer)
  {
  }

  /** The delete button: `input.value.toLowerCase() !== expectedConfirm` disables it. */
  predicate ButtonEnabled(typed: string, confirm: string)
  {
    ToLower(typed) == ToLower(confirm)
  }

  /** For typed text without surrounding blanks, the button is enabled exactly when the server accepts the text. */
  lemma {:induction false} ButtonAgreesWithServer(typed: string, confirm: string)
    requires NoEdgeBlank(typed)
    ensures ButtonEnabled(typed, confirm) <==> ConfirmationMatches(map["confirm_subdomain" := typed], confirm)
  {
    TrimNoEdgeBlank(typed);
  }

  // ---------------------------------------------------------------------
  // deleteLocalAccount

  /** One glob result: a file is unlinked, a directory removed with everything in it. */
  function Sweep(t: ApplyUpdate.Tree, x: string): ApplyUpdate.Tree
  {
    if x in t then (if t[x].File? then t - {x} else ApplyUpdate.PruneDir(t, x)) else t
  }

  /** The loop over the glob results, in order. */
  function Cleared(t: ApplyUpdate.Tree, listing: seq<string>): ApplyUpdate.Tree
  {
    if listing == [] then t else Sweep(Cleared(t, listing[..|listing| - 1]), listing[|listing| - 1])
  }

  /** p goes when x, as the site stood before, is p itself or a directory holding p. */
  predicate SweptBy(t: ApplyUpdate.Tree, x: string, p: string)
  {
    x in t && (p == x || (t[x].Dir? && ApplyUpdate.InDir(p, x)))
  }

  lemma {:induction false} InDirTrans(p: string, x: string, y: string)
    requires ApplyUpdate.InDir(p, x) && ApplyUpdate.InDir(x, y)
    ensures ApplyUpdate.InDir(p, y)
  {
    if p != x && x != y {
      assert p[..|y| + 1] == x[..|y| + 1];
    }
  }

  /** After the loop, a path is left exactly when no glob result swept it (as the site stood before), and its contents
    * are untouched; a result that earlier ones already removed lay inside one of them and sweeps nothing new. */
  lemma {:induction false} ClearedAt(t: ApplyUpdate.Tree, listing: seq<string>, p: string)
    ensures p in Cleared(t, listing) <==> p in t && forall y :: y in listing ==> !SweptBy(t, y, p)
    ensures p in Cleared(t, listing) ==> Cleared(t, listing)[p] == t[p]
  {
    if listing != [] {
      var init := listing[..|listing| - 1];
      var x := listing[|listing| - 1];
      assert listing == init + [x];
      ClearedAt(t, init, p);
      ClearedAt(t, init, x);
      var c := Cleared(t, init);
      assert Cleared(t, listing) == Sweep(c, x);
      if x in c {
        assert SweptBy(t, x, p) <==> p == x || (c[x].Dir? && ApplyUpdate.InDir(p, x));
      } else if SweptBy(t, x, p) {
        var y :| y in init && SweptBy(t, y, x);
        if p != x {
          InDirTrans(p, x, y);
        }
        assert SweptBy(t, y, p);
        assert p !in c;
      }
    }
  }

  /** The foreach over the glob results. */
  method ClearUploads(t: ApplyUpdate.Tree, listing: seq<string>) returns (r: ApplyUpdate.Tree)
    ensures r == Cleared(t, listing)
  {
    r := t;
    for i := 0 to |listing|
      invariant r == Cleared(t, listing[..i])
    {
      assert listing[..i + 1][..i] == listing[..i];
      var x := listing[i];
      if x in r {
        if r[x].File? {
          r := r - {x};
        } else {
          r := ApplyUpdate.PruneDir(r, x);
        }
      }
    }
    assert listing[..|listing|] == listing;
  }

  /** The note left in the site root. */
  function NoteText(config: seq<Entry>): string
  {
    "Account deleted: " + ConcatText(Setup.FieldOr(config, "name", Str("Unknown")))
    + " (" + ConcatText(Setup.FieldOr(config, "site_domain", Str(""))) + ")"
  }

  /** The configuration that replaces the artist's, marking the account deleted at `stamp`. */
  function EmptyConfigText(stamp: string): string
  {
    "<?php\nreturn [\n    'name' => 'Deleted Account',\n    'email' => '',\n    'deleted' => true,\n    'deleted_at' => '"
    + stamp + "'\n];\n"
  }

  const MetaFile: string := "artwork_meta.json"

  /** What step 3 writes in the site root: the note's name and text, and the replacement configuration. */
  datatype Writes = Writes(notePath: string, noteText: string, configText: string)

  /** The note's name. */
  function NotePath(fileStamp: string): string { "deleted_" + fileStamp + ".txt" }

  /** The writes of deleteLocalAccount (`fileStamp` is date('Y-m-d_His'), `timeStamp` date('Y-m-d H:i:s')). */
  function DeletionWrites(config: seq<Entry>, fileStamp: string, timeStamp: string): Writes
  {
    Writes(NotePath(fileStamp), NoteText(config), EmptyConfigText(timeStamp))
  }

  /** A name in the site root starting with 'd'. */
  predicate RootName(path: string)
  {
    path != [] && path[0] == 'd' && '/' !in path
  }

  /** The note lies in the site root. */
  predicate NoteInRoot(w: Writes)
  {
    RootName(w.notePath)
  }

  /** A date stamp has no '/', so the note lies in the site root. */
  lemma {:induction false} NotePathInRoot(fileStamp: string)
    requires '/' !in fileStamp
    ensures RootName(NotePath(fileStamp))
  {
    assert NotePath(fileStamp) == "deleted_" + (fileStamp + ".txt");
  }

  /** The note of deleteLocalAccount lies in the site root. */
  lemma {:induction false} DeletionNoteInRoot(config: seq<Entry>, fileStamp: string, timeStamp: string)
    requires '/' !in fileStamp
    ensures NoteInRoot(DeletionWrites(config, fileStamp, timeStamp))
  {
    NotePathInRoot(fileStamp);
  }

  /** Step 1: the uploads, when uploads is a directory. */
  function UploadsCleared(files: ApplyUpdate.Tree, listing: seq<string>): ApplyUpdate.Tree
  {
    if "uploads" in files && files["uploads"].Dir? then Cleared(files, listing) else files
  }

  /** Step 2: the metadata file (unlink fails on a directory). */
  function MetaRemoved(t: ApplyUpdate.Tree): ApplyUpdate.Tree
  {
    if MetaFile in t && t[MetaFile].File? then t - {MetaFile} else t
  }

  /** Step 3: with a configuration present, the note and then the replacement configuration are written. */
  function ConfigReplaced(t: ApplyUpdate.Tree, w: Writes): ApplyUpdate.Tree
  {
    if ApplyUpdate.ConfigFile in t then
      ApplyUpdate.PutFile(ApplyUpdate.PutFile(t, w.notePath, w.noteText), ApplyUpdate.ConfigFile, w.configText)
    else t
  }

  /** deleteLocalAccount on the site, with the writes of step 3. */
  function LocalDeletion(files: ApplyUpdate.Tree, listing: seq<string>, w: Writes): ApplyUpdate.Tree
  {
    ConfigReplaced(MetaRemoved(UploadsCleared(files, listing)), w)
  }

  /** A write elsewhere neither adds p nor changes it, unless p is the written path's parent. */
  lemma {:induction false} WriteElsewhere(u: ApplyUpdate.Tree, q: string, data: string, p: string)
    requires q != p && (ApplyUpdate.Parent(q) != p || p == "")
    ensures var r := ApplyUpdate.PutFile(u, q, data);
      (p in r <==> p in u) && (p in r ==> r[p] == u[p])
  {
    var v := ApplyUpdate.MakeDir(u, ApplyUpdate.Parent(q));
    assert p in v <==> p in u;
  }

  /** A path without '/' lies in the site root. */
  lemma {:induction false} RootParent(q: string)
    requires '/' !in q
    ensures ApplyUpdate.Parent(q) == ""
  {
  }

  /** The configuration lies in the site root. */
  lemma {:induction false} ConfigAtTop()
    ensures ApplyUpdate.Parent(ApplyUpdate.ConfigFile) == ""
    ensures ApplyUpdate.ConfigFile[0] == 'a' && MetaFile[0] == 'a'
  {
    assert '/' !in ApplyUpdate.ConfigFile;
    RootParent(ApplyUpdate.ConfigFile);
  }

  /** Steps 2 and 3 touch only the metadata file, the note, its directory and the configuration. */
  lemma {:induction false} LaterStepsKeep(t: ApplyUpdate.Tree, w: Writes, p: string)
    requires p != MetaFile && p != ApplyUpdate.ConfigFile && p != w.notePath && p != ApplyUpdate.Parent(w.notePath)
    ensures var r := ConfigReplaced(MetaRemoved(t), w);
      (p in r <==> p in t) && (p in r ==> r[p] == t[p])
  {
    var t2 := MetaRemoved(t);
    assert (p in t2 <==> p in t) && (p in t2 ==> t2[p] == t[p]);
    if ApplyUpdate.ConfigFile in t2 {
      ConfigAtTop();
      WriteElsewhere(t2, w.notePath, w.noteText, p);
      WriteElsewhere(ApplyUpdate.PutFile(t2, w.notePath, w.noteText), ApplyUpdate.ConfigFile, w.configText, p);
    }
  }

  /** A path starting with 'u' is none of the paths steps 2 and 3 touch. */
  lemma {:induction false} NotTouchedLater(w: Writes, p: string)
    requires NoteInRoot(w)
    requires p != [] && p[0] == 'u'
    ensures p != MetaFile && p != ApplyUpdate.ConfigFile && p != w.notePath && p != ApplyUpdate.Parent(w.notePath)
  {
    ConfigAtTop();
    RootParent(w.notePath);
  }

  /** The glob of uploads lists exactly the visible entries directly inside it. */
  ghost predicate ListsUploads(files: ApplyUpdate.Tree, listing: seq<string>)
  {
    (forall x :: x in listing ==> Export.Globbed(x))
    && (forall p :: p in files && Export.Globbed(p) ==> p in listing)
  }

  /** A path under a visible entry of uploads, as the site stood, is gone afterwards. */
  lemma {:induction false} UploadsGone(files: ApplyUpdate.Tree, listing: seq<string>, w: Writes, d: string, p: string)
    requires "uploads" in files && files["uploads"].Dir? && ListsUploads(files, listing) && NoteInRoot(w)
    requires d in files && Export.Globbed(d) && (p == d || (files[d].Dir? && ApplyUpdate.InDir(p, d)))
    ensures p !in LocalDeletion(files, listing, w)
  {
    ClearedAt(files, listing, p);
    assert SweptBy(files, d, p);
    assert p !in UploadsCleared(files, listing);
    assert p != [] && p[0] == 'u' by {
      assert d[0] == 'u';
      if p != d {
        ApplyUpdate.InDirFirst(p, d);
      }
    }
    NotTouchedLater(w, p);
    LaterStepsKeep(UploadsCleared(files, listing), w, p);
  }

  /** Hidden entries directly inside uploads (an .htaccess, say) and everything under them survive. */
  lemma {:induction false} HiddenUploadsKept(files: ApplyUpdate.Tree, listing: seq<string>, w: Writes, p: string)
    requires ListsUploads(files, listing) && NoteInRoot(w)
    requires p in files && StartsWith(p, "uploads/") && |p| > 8 && p[8] == '.'
    ensures var after := LocalDeletion(files, listing, w);
      p in after && after[p] == files[p]
  {
    ClearedAt(files, listing, p);
    forall y | y in listing
      ensures !SweptBy(files, y, p)
    {
      assert Export.Globbed(y);
    }
    assert p[0] == 'u';
    NotTouchedLater(w, p);
    LaterStepsKeep(UploadsCleared(files, listing), w, p);
  }

  /** Outside uploads, every path but the metadata file, the note, its directory and the configuration keeps its contents. */
  lemma {:induction false} LocalDeletionElsewhere(files: ApplyUpdate.Tree, listing: seq<string>, w: Writes, p: string)
    requires ListsUploads(files, listing)
    requires p in files && !StartsWith(p, "uploads/")
    requires p != MetaFile && p != ApplyUpdate.ConfigFile && p != w.notePath && p != ApplyUpdate.Parent(w.notePath)
    ensures var after := LocalDeletion(files, listing, w);
      p in after && after[p] == files[p]
  {
    ClearedAt(files, listing, p);
    forall y | y in listing
      ensures !SweptBy(files, y, p)
    {
      InGlobbed(p, y);
    }
    LaterStepsKeep(UploadsCleared(files, listing), w, p);
  }

  /** Everything in a visible entry of uploads lies under uploads/. */
  lemma {:induction false} InGlobbed(p: string, y: string)
    requires Export.Globbed(y)
    ensures ApplyUpdate.InDir(p, y) ==> StartsWith(p, "uploads/") && p[0] == 'u'
  {
    if p != y && StartsWith(p, y + "/") {
      calc {
        p[..8];
        p[..|y| + 1][..8];
        (y + "/")[..8];
        y[..8];
      }
    }
    if ApplyUpdate.InDir(p, y) {
      assert p[..8][0] == 'u';
    }
  }

  /** Nothing the glob lists is a path outside uploads. */
  lemma {:induction false} OutsideUploadsKept(files: ApplyUpdate.Tree, listing: seq<string>, q: string)
    requires ListsUploads(files, listing)
    requires q != [] && q[0] != 'u'
    ensures q in UploadsCleared(files, listing) <==> q in files
    ensures q in files ==> UploadsCleared(files, listing)[q] == files[q]
  {
    ClearedAt(files, listing, q);
    forall y | y in listing
      ensures !SweptBy(files, y, q)
    {
      InGlobbed(q, y);
    }
  }

  /** The metadata file goes, and an existing configuration is replaced by the deleted-account one, next to the note. */
  lemma {:induction false} LocalDeletionRewrites(files: ApplyUpdate.Tree, listing: seq<string>, w: Writes)
    requires ListsUploads(files, listing) && NoteInRoot(w)
    requires w.notePath !in files || files[w.notePath].File?
    ensures var after := LocalDeletion(files, listing, w);
      && (MetaFile in files && files[MetaFile].File? ==> MetaFile !in after)
      && (ApplyUpdate.ConfigFile in files && files[ApplyUpdate.ConfigFile].File? ==>
            ApplyUpdate.ConfigFile in after && after[ApplyUpdate.ConfigFile] == ApplyUpdate.File(w.configText)
            && w.notePath in after && after[w.notePath] == ApplyUpdate.File(w.noteText))
  {
    ConfigAtTop();
    RootParent(w.notePath);
    OutsideUploadsKept(files, listing, MetaFile);
    OutsideUploadsKept(files, listing, ApplyUpdate.ConfigFile);
    OutsideUploadsKept(files, listing, w.notePath);
    var t2 := MetaRemoved(UploadsCleared(files, listing));
    if MetaFile in files && files[MetaFile].File? {
      assert MetaFile !in t2;
      if ApplyUpdate.ConfigFile in t2 {
        WriteElsewhere(t2, w.notePath, w.noteText, MetaFile);
        WriteElsewhere(ApplyUpdate.PutFile(t2, w.notePath, w.noteText), ApplyUpdate.ConfigFile, w.configText, MetaFile);
      }
    }
    if ApplyUpdate.ConfigFile in files && files[ApplyUpdate.ConfigFile].File? {
      assert w.notePath !in t2 || t2[w.notePath].File?;
      ApplyUpdate.PutFileWrites(t2, w.notePath, w.noteText);
      var t3 := ApplyUpdate.PutFile(t2, w.notePath, w.noteText);
      ApplyUpdate.PutFileWrites(t3, ApplyUpdate.ConfigFile, w.configText);
      WriteElsewhere(t3, ApplyUpdate.ConfigFile, w.configText, w.notePath);
    }
  }

  /** The three steps of deleteLocalAccount, with the glob loop, given what step 3 writes. */
  method ApplyDeletion(files: ApplyUpdate.Tree, listing: seq<string>, w: Writes) returns (after: ApplyUpdate.Tree)
    ensures after == LocalDeletion(files, listing, w)
  {
    after := files;
    if "uploads" in after && after["uploads"].Dir? {
      after := ClearUploads(after, listing);
    }
    if MetaFile in after && after[MetaFile].File? {
      after := after - {MetaFile};
    }
    assert after == MetaRemoved(UploadsCleared(files, listing));
    if ApplyUpdate.ConfigFile in after {
      after := ApplyUpdate.PutFile(after, w.notePath, w.noteText);
      after := ApplyUpdate.PutFile(after, ApplyUpdate.ConfigFile, w.configText);
    }
  }

  /** deleteLocalAccount: the note and the replacement configuration come from the configuration and the clock. */
  method DeleteLocalAccount(files: ApplyUpdate.Tree, listing: seq<string>, config: seq<Entry>,
                            fileStamp: string, timeStamp: string) returns (after: ApplyUpdate.Tree)
    ensures after == LocalDeletion(files, listing, DeletionWrites(config, fileStamp, timeStamp))
  {
    after := ApplyDeletion(files, listing, DeletionWrites(config, fileStamp, timeStamp));
  }

  /** The request against the site: the decision, then the local deletion when it is due. */
  method HandleDeleteRequest(files: ApplyUpdate.Tree, listing: seq<string>, signedIn: bool, isPost: bool, post: map<string, string>,
                             sessionCsrf: Option<string>, config: seq<Entry>, host: string, central: CentralReply,
                             fileStamp: string, timeStamp: string)
    returns (outcome: Outcome, after: ApplyUpdate.Tree)
    ensures outcome == Decide(signedIn, isPost, post, sessionCsrf, config, Subdomain(config, host), CentralResult(central))
    ensures after == if outcome.Deleted? then LocalDeletion(files, listing, DeletionWrites(config, fileStamp, timeStamp))
                     else files
  {
    outcome := Decide(signedIn, isPost, post, sessionCsrf, config, Subdomain(config, host), CentralResult(central));
    after := files;
    if outcome.Deleted? {
      after := DeleteLocalAccount(files, listing, config, fileStamp, timeStamp);
    }
  }
}
