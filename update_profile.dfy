// update_profile.php: an authenticated POST that changes the artist's bio,
// website and location, then rewrites artist_config.php with a fixed set of
// seven keys.

module UpdateProfile {
  import opened Common
  import opened PhpExport
  import Setup

  /** An HTTP status and the JSON body sent with it. */
  datatype Reply = Reply(code: nat, body: map<string, Json>)

  function Error(code: nat, message: string): Reply
  {
    Reply(code, map["error" := JStr(message)])
  }

  /** A PHP fatal error: status 500 and no JSON body. */
  const Fatal: Reply := Reply(500, map[])

  const Saved: Reply := Reply(200, map["success" := JBool(true), "message" := JStr("Profile updated")])

  // ---------------------------------------------------------------------
  // Reading the request

  /** `isset($input[k])`: the key is there and not null; only an object has string keys. */
  predicate Present(input: Json, k: string)
  {
    input.JObj? && k in input.fields && !input.fields[k].JNull?
  }

  /**
   * The string trim() receives: numbers and booleans are converted, and an
   * array is a TypeError, shown as None.
   */
  function ArgText(j: Json): (r: Option<string>)
    ensures j.JStr? ==> r == Some(j.s)
    ensures r.None? <==> j.JArr? || j.JObj?
  {
    match j
    case JStr(s) => Some(s)
    case JNum(n) => Some(ExportInt(n))
    case JBool(b) => Some(if b then "1" else "")
    case JNull => Some("")
    case JArr(_) => None
    case JObj(_) => None
  }

  /** The trimmed text of a present field, or None when trim() would fail. */
  function Trimmed(input: Json, k: string): Option<string>
    requires Present(input, k)
  {
    match ArgText(input.fields[k])
    case Some(t) => Some(Trim(t))
    case None => None
  }

  // ---------------------------------------------------------------------
  // The website

  /** `preg_match('/^https?:\/\//', w)`. */
  predicate HasScheme(w: string)
  {
    StartsWith(w, "http://") || StartsWith(w, "https://")
  }

  /**
   * The website as stored, or None when it is refused. An empty (or "0")
   * website is stored as it is; an invalid one is given "https://" when it
   * has no scheme, and refused if it is still invalid.
   */
  function Website(w: string, isUrl: string -> bool): Option<string>
  {
    if PhpEmpty(w) || isUrl(w) then Some(w)
    else
      var w2 := if HasScheme(w) then w else "https://" + w;
      if isUrl(w2) then Some(w2) else None
  }

  /** A stored website is empty, valid as given, or valid once "https://" is put in front. */
  lemma {:induction false} WebsiteOutcome(w: string, isUrl: string -> bool)
    ensures Website(w, isUrl).Some? ==>
              var r := Website(w, isUrl).value;
              (r == w && (PhpEmpty(w) || isUrl(w))) || (r == "https://" + w && !HasScheme(w) && isUrl(r))
    ensures Website(w, isUrl).None? <==>
              !PhpEmpty(w) && !isUrl(w) && (HasScheme(w) || !isUrl("https://" + w))
  {
  }

  /** Whatever is stored is either empty or passes the validator. */
  lemma {:induction false} WebsiteStoredValid(w: string, isUrl: string -> bool)
    requires Website(w, isUrl).Some?
    ensures PhpEmpty(Website(w, isUrl).value) || isUrl(Website(w, isUrl).value)
  {
  }

  /** A valid website is stored unchanged, and storing is idempotent. */
  lemma {:induction false} WebsiteIdempotent(w: string, isUrl: string -> bool)
    requires Website(w, isUrl).Some?
    ensures Website(Website(w, isUrl).value, isUrl) == Website(w, isUrl)
  {
  }

  // ---------------------------------------------------------------------
  // Applying the fields

  /** Where applying the request's fields to the configuration ends. */
  datatype Edit = Halt(reply: Reply) | Edited(config: seq<Entry>)

  /** `if (isset($input[k])) $config[k] = trim($input[k]);`, for the bio and the location. */
  function TrimStep(config: seq<Entry>, input: Json, k: string): Edit
  {
    if !Present(input, k) then Edited(config)
    else match Trimmed(input, k)
      case None => Halt(Fatal)
      case Some(t) => Edited(Setup.SetKey(config, StrKey(k), Str(t)))
  }

  /** The website update: trimmed, normalised, or the request refused. */
  function WebsiteStep(config: seq<Entry>, input: Json, isUrl: string -> bool): Edit
  {
    if !Present(input, "website") then Edited(config)
    else match Trimmed(input, "website")
      case None => Halt(Fatal)
      case Some(t) =>
        match Website(t, isUrl)
        case None => Halt(Error(400, "Invalid website URL"))
        case Some(w) => Edited(Setup.SetKey(config, StrKey("website"), Str(w)))
  }

  /** The value a present field is stored as, when its step succeeds. */
  function StoredText(input: Json, k: string, isUrl: string -> bool): string
    requires Present(input, k) && Trimmed(input, k).Some?
  {
    if k == "website" && Website(Trimmed(input, k).value, isUrl).Some? then Website(Trimmed(input, k).value, isUrl).value
    else Trimmed(input, k).value
  }

  /**
   * The three updates in the order the endpoint makes them: bio, website,
   * location; a request with none of them is refused.
   */
  function ApplyFields(config: seq<Entry>, input: Json, isUrl: string -> bool): (r: Edit)
    ensures r.Halt? ==> r.reply.code == 400 || r.reply.code == 500
    ensures r.Edited? ==> Present(input, "bio") || Present(input, "website") || Present(input, "location")
  {
    match TrimStep(config, input, "bio")
    case Halt(r) => Halt(r)
    case Edited(c1) =>
      match WebsiteStep(c1, input, isUrl)
      case Halt(r) => Halt(r)
      case Edited(c2) =>
        match TrimStep(c2, input, "location")
        case Halt(r) => Halt(r)
        case Edited(c3) =>
          if !Present(input, "bio") && !Present(input, "website") && !Present(input, "location")
          then Halt(Error(400, "No valid fields to update"))
          else Edited(c3)
  }

  /** With none of the three fields the request is refused. */
  lemma {:induction false} NothingToUpdate(config: seq<Entry>, input: Json, isUrl: string -> bool)
    requires !Present(input, "bio") && !Present(input, "website") && !Present(input, "location")
    ensures ApplyFields(config, input, isUrl) == Halt(Error(400, "No valid fields to update"))
  {
  }

  /** A refused website stops the request, whatever else it carries. */
  lemma {:induction false} BadWebsiteRefused(config: seq<Entry>, input: Json, isUrl: string -> bool)
    requires Present(input, "website") && Trimmed(input, "website").Some?
    requires Website(Trimmed(input, "website").value, isUrl).None?
    requires Present(input, "bio") ==> Trimmed(input, "bio").Some?
    ensures ApplyFields(config, input, isUrl) == Halt(Error(400, "Invalid website URL"))
  {
  }

  /** One step sets its own key, when present, and leaves every other key alone. */
  lemma {:induction false} StepLookup(config: seq<Entry>, input: Json, isUrl: string -> bool, k: string, j: Key)
    requires k in Updatable
    requires (if k == "website" then WebsiteStep(config, input, isUrl) else TrimStep(config, input, k)).Edited?
    ensures var c := (if k == "website" then WebsiteStep(config, input, isUrl) else TrimStep(config, input, k)).config;
      if j == StrKey(k) && Present(input, k) then Trimmed(input, k).Some? && Setup.Lookup(c, j) == Some(Str(StoredText(input, k, isUrl)))
      else Setup.Lookup(c, j) == Setup.Lookup(config, j)
  {
    if Present(input, k) {
      Setup.LookupSetKey(config, StrKey(k), Str(StoredText(input, k, isUrl)), j);
    }
  }

  const Updatable: set<string> := {"bio", "website", "location"}

  /** The keys the request sets: the updatable fields it carries. */
  predicate Sets(input: Json, j: Key)
  {
    j.StrKey? && j.s in Updatable && Present(input, j.s)
  }

  /**
   * After a successful edit each field the request carries holds its trimmed
   * value (the website normalised); every other key is as before.
   */
  lemma {:induction false} EditedFields(config: seq<Entry>, input: Json, isUrl: string -> bool, j: Key)
    requires ApplyFields(config, input, isUrl).Edited?
    ensures var c := ApplyFields(config, input, isUrl).config;
      if Sets(input, j) then Trimmed(input, j.s).Some? && Setup.Lookup(c, j) == Some(Str(StoredText(input, j.s, isUrl)))
      else Setup.Lookup(c, j) == Setup.Lookup(config, j)
  {
    var c1 := TrimStep(config, input, "bio").config;
    var c2 := WebsiteStep(c1, input, isUrl).config;
    StepLookup(config, input, isUrl, "bio", j);
    StepLookup(c1, input, isUrl, "website", j);
    StepLookup(c2, input, isUrl, "location", j);
    if Sets(input, j) {
      assert j.s == "bio" || j.s == "website" || j.s == "location";
      if j.s == "bio" {
        assert j != StrKey("website") && j != StrKey("location");
      } else if j.s == "website" {
        assert j != StrKey("location");
      }
    }
  }

  // ---------------------------------------------------------------------
  // The rewritten file

  /** `$config[k] ?? ''`. */
  function Coalesced(config: seq<Entry>, k: string): Value
  {
    Setup.FieldOr(config, k, Str(""))
  }

  /** The seven keys the rewritten file holds, in its order. */
  const ProfileKeys: seq<string> := ["name", "email", "location", "bio", "website", "artist_id", "api_key"]

  /** The array the rewritten file returns. */
  function ProfileEntries(config: seq<Entry>): seq<Entry>
  {
    [ Kept(config, "name"), Kept(config, "email"), Kept(config, "location"), Kept(config, "bio"),
      Kept(config, "website"), Kept(config, "artist_id"), Kept(config, "api_key") ]
  }

  /** The entry the rewritten file holds for key k. */
  function Kept(config: seq<Entry>, k: string): Entry
  {
    Setup.S(k, Coalesced(config, k))
  }

  /**
   * PHP's var_export(v, true): scalars as the configuration printer writes
   * them, and an array as `array (` with one line per element indented two
   * spaces deeper, a nested array starting on its own line.
   */
  function VarExport(v: Value, indent: string): string
    decreases v
  {
    match v
    case Arr(es) =>
      var vals := seq(|es|, k requires 0 <= k < |es| =>
                        if es[k].val.Arr? then "\n" + indent + "  " + VarExport(es[k].val, indent + "  ")
                        else VarExport(es[k].val, indent + "  "));
      var lines := seq(|es|, k requires 0 <= k < |es| => indent + "  " + ExportKey(es[k].key) + " => " + vals[k] + ",\n");
      "array (\n" + Join(lines, "") + indent + ")"
    case _ => Pretty(v, indent)
  }

  const Header: string := Setup.ProfileComment

  /** One line of the rewritten file: the quoted key, then var_export of the value. */
  function EntryLine(e: Entry): string
  {
    "    " + ExportKey(e.key) + " => " + VarExport(e.val, "") + ",\n"
  }

  /** The line the endpoint writes for key k: `'k' => var_export($config[k] ?? '')`. */
  function ProfileLine(config: seq<Entry>, k: string): string
  {
    "    '" + k + "' => " + VarExport(Coalesced(config, k), "") + ",\n"
  }

  /** A key made of lower-case letters and '_'. */
  predicate PlainKey(k: string)
  {
    forall i :: 0 <= i < |k| ==> IsLower(k[i]) || k[i] == '_'
  }

  /** For such a key the written line is the one the printer gives its entry. */
  lemma {:induction false} PlainLine(config: seq<Entry>, k: string)
    requires PlainKey(k)
    ensures ProfileLine(config, k) == EntryLine(Kept(config, k))
  {
    EscapePlain(k);
  }

  /**
   * A key made of lower-case letters and '_', as the seven the source writes
   * as literals, is printed between quotes and otherwise unchanged.
   */
  lemma {:induction false} EscapePlain(s: string)
    requires PlainKey(s)
    ensures Escape(s) == s
  {
    if s != [] {
      EscapePlain(s[1..]);
    }
  }

  /** h followed by the lines of the entries from the i-th on, appended one at a time. */
  function Lines(h: string, es: seq<Entry>, i: nat): string
    requires i <= |es|
    decreases |es| - i
  {
    if i == |es| then h else Lines(h + EntryLine(es[i]), es, i + 1)
  }

  /** The rewritten artist_config.php. */
  function ProfileText(config: seq<Entry>): string
  {
    Lines(Header + "return [\n", ProfileEntries(config), 0) + "];\n"
  }

  /** The file holds exactly the seven keys, each with its value or ''; every other key is dropped. */
  lemma {:induction false} ProfileKeysExactly(config: seq<Entry>, k: string)
    ensures Setup.Field(ProfileEntries(config), k) == if k in ProfileKeys then Some(Coalesced(config, k)) else None
  {
    var r := ProfileEntries(config);
    if k in ProfileKeys {
      var i :| 0 <= i < 7 && ProfileKeys[i] == k;
      Setup.LookupFirst(r, i, StrKey(k));
    } else {
      AbsentKey(r, StrKey(k));
    }
  }

  lemma {:induction false} AbsentKey(es: seq<Entry>, k: Key)
    requires forall i :: 0 <= i < |es| ==> es[i].key != k
    ensures Setup.Lookup(es, k) == None
  {
    if es != [] {
      AbsentKey(es[1..], k);
    }
  }

  /** Rewriting a rewritten configuration changes nothing. */
  lemma {:induction false} ProfileIdempotent(config: seq<Entry>)
    ensures ProfileEntries(ProfileEntries(config)) == ProfileEntries(config)
  {
    ProfileKeysExactly(config, "name");
    ProfileKeysExactly(config, "email");
    ProfileKeysExactly(config, "location");
    ProfileKeysExactly(config, "bio");
    ProfileKeysExactly(config, "website");
    ProfileKeysExactly(config, "artist_id");
    ProfileKeysExactly(config, "api_key");
  }

  // ---------------------------------------------------------------------
  // Reading the rewritten file back

  /** The seven values are scalars, as the wizard and this endpoint store them. */
  predicate ScalarProfile(config: seq<Entry>)
  {
    forall i :: 0 <= i < |ProfileEntries(config)| ==> !ProfileEntries(config)[i].val.Arr?
  }

  /** The printed values of the entries, one step deeper than indent, as the printer makes them. */
  function PrettyVals(es: seq<Entry>, indent: string): (r: seq<string>)
    ensures |r| == |es|
  {
    seq(|es|, k requires 0 <= k < |es| => Pretty(es[k].val, indent + Step))
  }

  /** The printer's element lines of a top-level array from the i-th on. */
  function BlockAt(es: seq<Entry>, i: nat): string
    requires i <= |es|
  {
    Block(KeyParts(es), PrettyVals(es, ""), i, "")
  }

  /** The printer's line for a keyed entry holding a scalar is the file's line for it. */
  lemma {:induction false} BlockStep(es: seq<Entry>, i: nat)
    requires i < |es| && !Indexed(es) && !es[i].val.Arr?
    ensures BlockAt(es, i) == EntryLine(es[i]) + BlockAt(es, i + 1)
  {
    var v := es[i].val;
    assert "" + Step == Step;
    assert PrettyVals(es, "")[i] == Pretty(v, Step) == VarExport(v, "");
    var b1 := BlockAt(es, i + 1);
    assert BlockAt(es, i) == Step + ((ExportKey(es[i].key) + " => ") + (VarExport(v, "") + (",\n" + b1)));
    Regroup(ExportKey(es[i].key), VarExport(v, ""), b1);
  }

  lemma {:induction false} Regroup(key: string, val: string, b1: string)
    ensures Step + ((key + " => ") + (val + (",\n" + b1))) == "    " + key + " => " + val + ",\n" + b1
  {
  }

  /** Moving one line from the block onto the text before it. */
  lemma {:induction false} Shift(p: string, line: string, b: string, b1: string, t: string)
    requires b == line + b1
    ensures p + (b + t) == (p + line) + (b1 + t)
  {
    Assoc(line, b1, t);
    Assoc(p, line, b1 + t);
  }

  /** Keyed scalar entries written line by line are the printer's element lines. */
  lemma {:induction false} LinesAreBlock(h: string, es: seq<Entry>, i: nat, t: string)
    requires i <= |es| && !Indexed(es) && forall j :: 0 <= j < |es| ==> !es[j].val.Arr?
    ensures Lines(h, es, i) + t == h + (BlockAt(es, i) + t)
    decreases |es| - i
  {
    if i == |es| {
      assert BlockAt(es, i) + t == t;
    } else {
      LinesAreBlock(h + EntryLine(es[i]), es, i + 1, t);
      BlockStep(es, i);
      Shift(h, EntryLine(es[i]), BlockAt(es, i), BlockAt(es, i + 1), t);
    }
  }

  /** Requiring the rewritten file returns the seven-key array it was written from. */
  lemma {:induction false} ProfileRoundTrip(config: seq<Entry>)
    requires ScalarProfile(config)
    ensures Setup.Include(ProfileText(config)) == Some(Arr(ProfileEntries(config)))
  {
    var es := ProfileEntries(config);
    assert !Indexed(es) by { assert es[0].key != IntKey(0); }
    LinesAreBlock(Header + "return [\n", es, 0, "];\n");
    PrettyArray(es);
    Frame(Header, BlockAt(es, 0));
    IncludeOf(Arr(es));
  }

  /** A site the gate lets through still passes it after its profile is rewritten: the file keeps the email. */
  lemma {:induction false} ProfileKeepsSiteConfigured(config: seq<Entry>)
    requires ScalarProfile(config) && Setup.Configured(Some(Arr(config)))
    ensures Setup.FileConfigures(Some(ProfileText(config)))
  {
    ProfileRoundTrip(config);
    ProfileKeysExactly(config, "email");
  }

  /** A file of this shape returns the value printed after `return`. */
  lemma {:induction false} IncludeOf(v: Value)
    ensures Setup.Include((Header + "return ") + (Pretty(v, "") + ";\n")) == Some(v)
  {
    Setup.IncludeProfileComment(Pretty(v, "") + ";\n");
    PrettyRoundTrip(v, "", ";\n");
  }

  lemma {:induction false} PrettyArray(es: seq<Entry>)
    ensures Pretty(Arr(es), "") == "[\n" + BlockAt(es, 0) + "" + "]"
  {
  }

  lemma {:induction false} Frame(h: string, b: string)
    ensures (h + "return [\n") + (b + "];\n") == (h + "return ") + ((("[\n" + b + "") + "]") + ";\n")
  {
  }

  /** A profile update keeps the artist's email, so a configured site stays configured. */
  lemma {:induction false} ProfileKeepsSetup(config: seq<Entry>, input: Json, isUrl: string -> bool)
    requires Setup.Configured(Some(Arr(config)))
    requires ApplyFields(config, input, isUrl).Edited?
    ensures Setup.Configured(Some(Arr(ProfileEntries(ApplyFields(config, input, isUrl).config))))
  {
    var c := ApplyFields(config, input, isUrl).config;
    var e := Setup.Field(config, "email").value;
    assert "email" !in Updatable;
    EditedFields(config, input, isUrl, StrKey("email"));
    assert Setup.Field(c, "email") == Some(e);
    assert Coalesced(c, "email") == e;
    ProfileKeysExactly(c, "email");
    assert Setup.Field(ProfileEntries(c), "email") == Some(e);
  }

  // ---------------------------------------------------------------------
  // The endpoint

  /** What the request does: its reply and, when the file is rewritten, the edited configuration. */
  datatype Effect = Effect(reply: Reply, written: Option<seq<Entry>>)

  /**
   * The request in the order the endpoint checks it. `input` is the decoded
   * body (None when it is not JSON), `config` what artist_config.php returns
   * (None when the file is missing) and `canWrite` whether the write succeeds.
   */
  function ProfileRequest(authenticated: bool, isPost: bool, input: Option<Json>, config: Option<seq<Entry>>,
                          isUrl: string -> bool, canWrite: bool): Effect
  {
    if !authenticated then Effect(Error(401, "Authentication required"), None)
    else if !isPost then Effect(Error(405, "Method not allowed"), None)
    else if input.None? || EmptyJson(input.value) then Effect(Error(400, "Invalid JSON"), None)
    else if config.None? then Effect(Error(500, "Config file not found"), None)
    else match ApplyFields(config.value, input.value, isUrl)
      case Halt(reply) => Effect(reply, None)
      case Edited(c) =>
        if canWrite then Effect(Saved, Some(c)) else Effect(Error(500, "Failed to save config"), None)
  }

  /** A body that is not JSON, or decodes to an empty value, is refused before anything is read. */
  lemma {:induction false} InvalidJsonRefused(input: Option<Json>, config: Option<seq<Entry>>, isUrl: string -> bool, canWrite: bool)
    requires input.None? || EmptyJson(input.value)
    ensures ProfileRequest(true, true, input, config, isUrl, canWrite) == Effect(Error(400, "Invalid JSON"), None)
  {
  }

  /** The file is rewritten exactly when the reply is the success reply. */
  lemma {:induction false} WrittenIffSaved(authenticated: bool, isPost: bool, input: Option<Json>, config: Option<seq<Entry>>,
                        isUrl: string -> bool, canWrite: bool)
    ensures var e := ProfileRequest(authenticated, isPost, input, config, isUrl, canWrite);
      (e.written.Some? <==> e.reply.code == 200) && (e.written.Some? ==> e.reply == Saved)
    ensures var e := ProfileRequest(authenticated, isPost, input, config, isUrl, canWrite);
      e.written.Some? ==> (authenticated && isPost && canWrite &&
        (Present(input.value, "bio") || Present(input.value, "website") || Present(input.value, "location")))
  {
  }

  /** The seven keys are plain. */
  lemma {:induction false} PlainProfileKeys()
    ensures forall i :: 0 <= i < |ProfileKeys| ==> PlainKey(ProfileKeys[i])
  {
  }

  /** The i-th entry of the rewritten file is the one kept for the i-th key. */
  lemma {:induction false} ProfileEntriesAt(c: seq<Entry>)
    ensures |ProfileEntries(c)| == |ProfileKeys|
    ensures forall i :: 0 <= i < |ProfileKeys| ==> ProfileEntries(c)[i] == Kept(c, ProfileKeys[i])
  {
  }

  /** The i-th line of the rewritten file is the one the endpoint writes for the i-th key. */
  lemma {:induction false} ProfileLines(c: seq<Entry>)
    ensures |ProfileEntries(c)| == |ProfileKeys|
    ensures forall i :: 0 <= i < |ProfileKeys| ==> EntryLine(ProfileEntries(c)[i]) == ProfileLine(c, ProfileKeys[i])
  {
    PlainProfileKeys();
    ProfileEntriesAt(c);
    forall i | 0 <= i < |ProfileKeys|
      ensures EntryLine(ProfileEntries(c)[i]) == ProfileLine(c, ProfileKeys[i])
    {
      PlainLine(c, ProfileKeys[i]);
    }
  }

  /** Appends the seven `'key' => value,` lines, in the file's order, to h. */
  method AppendProfileLines(c: seq<Entry>, h: string, ghost es: seq<Entry>) returns (text: string)
    requires |es| == |ProfileKeys|
    requires forall i :: 0 <= i < |ProfileKeys| ==> EntryLine(es[i]) == ProfileLine(c, ProfileKeys[i])
    ensures text == Lines(h, es, 0)
  {
    text := h;
    text := text + ProfileLine(c, ProfileKeys[0]);
    assert Lines(text, es, 1) == Lines(h, es, 0);
    text := text + ProfileLine(c, ProfileKeys[1]);
    assert Lines(text, es, 2) == Lines(h, es, 0);
    text := text + ProfileLine(c, ProfileKeys[2]);
    assert Lines(text, es, 3) == Lines(h, es, 0);
    text := text + ProfileLine(c, ProfileKeys[3]);
    assert Lines(text, es, 4) == Lines(h, es, 0);
    text := text + ProfileLine(c, ProfileKeys[4]);
    assert Lines(text, es, 5) == Lines(h, es, 0);
    text := text + ProfileLine(c, ProfileKeys[5]);
    assert Lines(text, es, 6) == Lines(h, es, 0);
    text := text + ProfileLine(c, ProfileKeys[6]);
    assert Lines(text, es, 7) == Lines(h, es, 0);
  }

  /** The file body, built piece by piece as the endpoint writes it. */
  method ConfigContent(c: seq<Entry>) returns (text: string)
    ensures text == ProfileText(c)
  {
    text := Header;
    text := text + "return [\n";
    ProfileLines(c);
    text := AppendProfileLines(c, text, ProfileEntries(c));
    text := text + "];\n";
  }

  /**
   * The three assignments into $config, in the endpoint's order: bio,
   * website, location, each trimmed, the website checked and completed.
   */
  method EditFields(config: seq<Entry>, data: Json, isUrl: string -> bool) returns (r: Edit)
    ensures r == ApplyFields(config, data, isUrl)
  {
    var c := config;
    var updated := false;
    if Present(data, "bio") {
      var t := ArgText(data.fields["bio"]);
      if t.None? {
        return Halt(Fatal);
      }
      c := Setup.SetKey(c, StrKey("bio"), Str(Trim(t.value)));
      updated := true;
    }
    assert TrimStep(config, data, "bio") == Edited(c);
    ghost var c1 := c;
    if Present(data, "website") {
      var t := ArgText(data.fields["website"]);
      if t.None? {
        return Halt(Fatal);
      }
      var website := Trim(t.value);
      if !PhpEmpty(website) && !isUrl(website) {
        if !HasScheme(website) {
          website := "https://" + website;
        }
        if !isUrl(website) {
          return Halt(Error(400, "Invalid website URL"));
        }
      }
      assert Website(Trim(t.value), isUrl) == Some(website);
      c := Setup.SetKey(c, StrKey("website"), Str(website));
      updated := true;
    }
    assert WebsiteStep(c1, data, isUrl) == Edited(c);
    ghost var c2 := c;
    if Present(data, "location") {
      var t := ArgText(data.fields["location"]);
      if t.None? {
        return Halt(Fatal);
      }
      c := Setup.SetKey(c, StrKey("location"), Str(Trim(t.value)));
      updated := true;
    }
    assert TrimStep(c2, data, "location") == Edited(c);
    if !updated {
      return Halt(Error(400, "No valid fields to update"));
    }
    r := Edited(c);
  }

  class ProfileStore {
    /** What requiring artist_config.php returns; None while the file is missing. */
    var config: Option<seq<Entry>>

    constructor (initial: Option<seq<Entry>>)
      ensures config == initial
    {
      config := initial;
    }

    /**
     * The endpoint. The bio, website and location are assigned one by one,
     * then the file body is built line by line; `content` is the text
     * written, if any.
     */
    method Update(authenticated: bool, isPost: bool, input: Option<Json>, isUrl: string -> bool, canWrite: bool)
      returns (reply: Reply, content: Option<string>)
      modifies this
      ensures var e := ProfileRequest(authenticated, isPost, input, old(config), isUrl, canWrite);
        reply == e.reply &&
        (e.written.Some? ==> content == Some(ProfileText(e.written.value)) &&
                             config == Some(ProfileEntries(e.written.value))) &&
        (e.written.None? ==> content.None? && config == old(config))
    {
      content := None;
      if !authenticated {
        return Error(401, "Authentication required"), None;
      }
      if !isPost {
        return Error(405, "Method not allowed"), None;
      }
      if input.None? || EmptyJson(input.value) {
        return Error(400, "Invalid JSON"), None;
      }
      if config.None? {
        return Error(500, "Config file not found"), None;
      }
      var edit := EditFields(config.value, input.value, isUrl);
      if edit.Halt? {
        return edit.reply, None;
      }
      var c := edit.config;
      var text := ConfigContent(c);
      if !canWrite {
        return Error(500, "Failed to save config"), None;
      }
      config := Some(ProfileEntries(c));
      reply, content := Saved, Some(text);
    }
  }
}
