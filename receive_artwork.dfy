// api/receive_artwork.php: the hub pushes a processed artwork to the
// artist's own site. The request carries an API key, a metadata record and
// image files; an hourly counter limits intake, saved file names are
// sanitised and must start with the artwork's base name, and the entry of
// the original image in artwork_meta.json is written as published.
module ReceiveArtwork {
  import opened Common
  import opened PhpExport
  import Setup

  datatype Reply = Reply(code: nat, body: map<string, Json>)

  function Error(code: nat, message: string): Reply
  {
    Reply(code, map["error" := JStr(message)])
  }

  /** An uncaught TypeError: status 500 and no JSON body. */
  const Fatal: Reply := Reply(500, map[])

  // ---------------------------------------------------------------------
  // Configuration and API key

  /**
   * The X-API-Key check; None lets the request on. Both keys must be
   * non-empty and equal; a configured key that is not a string makes
   * hash_equals throw.
   */
  function KeyRefusal(header: Option<string>, expected: Option<Value>): (r: Option<Reply>)
    ensures r.None? <==> header.Some? && !PhpEmpty(header.value) && expected == Some(Str(header.value))
    ensures r.Some? ==> r.value == Fatal || r.value == Error(401, "Invalid API key")
  {
    var given := if header.Some? then header.value else "";
    var configured := if expected.Some? then expected.value else Null;
    if PhpEmpty(given) || EmptyValue(configured) then Some(Error(401, "Invalid API key"))
    else if !configured.Str? then Some(Fatal)
    else if configured.s != given then Some(Error(401, "Invalid API key"))
    else None
  }

  /** The refusals before the counter: no configuration, not a POST, a wrong key. */
  function Gate(config: Option<seq<Entry>>, isPost: bool, header: Option<string>): (r: Option<Reply>)
    ensures r.None? <==> config.Some? && isPost && header.Some? && !PhpEmpty(header.value) &&
                         Setup.Field(config.value, "api_key") == Some(Str(header.value))
    ensures r.Some? ==> r.value.code in {401, 405, 500, 503}
  {
    if config.None? then Some(Error(503, "Site not configured"))
    else if !isPost then Some(Error(405, "Method not allowed"))
    else KeyRefusal(header, Setup.Field(config.value, "api_key"))
  }

  // ---------------------------------------------------------------------
  // The hourly counter (logs/receive_rate.json)

  const HourlyLimit: nat := 20

  datatype Rate = Rate(hour: string, count: nat)

  /** Requests already counted in this hour, as far as the limit is concerned. */
  function Used(stored: Option<Rate>, hour: string): nat
  {
    if stored.Some? && stored.value.hour == hour then
      (if stored.value.count < HourlyLimit then stored.value.count else HourlyLimit)
    else 0
  }

  /**
   * The counter step of a request in the given hour: a counter of another
   * hour, or none, starts again from 0; at the limit the request is refused
   * (None), otherwise the counter goes up by one.
   */
  function Admit(stored: Option<Rate>, hour: string): (r: Option<Rate>)
    ensures r.None? <==> Used(stored, hour) == HourlyLimit
    ensures r.Some? ==> r.value.hour == hour && r.value.count == Used(stored, hour) + 1
  {
    var current := if stored.Some? && stored.value.hour == hour then stored.value.count else 0;
    if current >= HourlyLimit then None else Some(Rate(hour, current + 1))
  }

  // ---------------------------------------------------------------------
  // The metadata record and filename_base

  predicate IsBaseChar(c: char) { IsAlnum(c) || c == '_' || c == '-' }
  predicate IsNameChar(c: char) { IsBaseChar(c) || c == '.' }

  /** A name made only of [A-Za-z0-9_.-]. */
  predicate IsSafeName(r: string) { forall i :: 0 <= i < |r| ==> IsNameChar(r[i]) }

  datatype BaseCheck = MissingBase | InvalidBase | Base(base: string)

  /**
   * The metadata must be a non-empty object with a non-empty filename_base;
   * stripped to [A-Za-z0-9_-] that must still be non-empty.
   */
  function CheckBase(metadata: Option<Json>): (r: BaseCheck)
    ensures r.Base? ==> !PhpEmpty(r.base) && forall i :: 0 <= i < |r.base| ==> IsBaseChar(r.base[i])
    ensures r.Base? ==> metadata.Some? && metadata.value.JObj? && "filename_base" in metadata.value.fields
  {
    if metadata.None? || EmptyJson(metadata.value) || !metadata.value.JObj? then MissingBase
    else
      var m := metadata.value.fields;
      if "filename_base" !in m || EmptyJson(m["filename_base"]) then MissingBase
      else match JsonText(m["filename_base"])
        case None => InvalidBase
        case Some(t) =>
          var b := Filter(t, IsBaseChar);
          if PhpEmpty(b) then InvalidBase else Base(b)
  }

  /** A clean base name comes through the check unchanged. */
  lemma {:induction false} CleanBaseKept(m: map<string, Json>, b: string)
    requires "filename_base" in m && m["filename_base"] == JStr(b)
    requires !PhpEmpty(b) && forall i :: 0 <= i < |b| ==> IsBaseChar(b[i])
    ensures CheckBase(Some(JObj(m))) == Base(b)
  {
    FilterKeepsAll(b, IsBaseChar);
  }

  function BaseError(c: BaseCheck): Reply
  {
    if c.MissingBase? then Error(400, "Missing metadata or filename_base") else Error(400, "Invalid filename")
  }

  // ---------------------------------------------------------------------
  // The uploaded files

  /**
   * One entry of $_FILES['images']: the temporary path, the client's name,
   * the upload error code, the type finfo reports, and whether
   * move_uploaded_file succeeds.
   */
  datatype Upload = Upload(tmp: string, name: string, error: int, mime: string, moves: bool)

  const UploadOk: int := 0
  const AllowedMimes: set<string> := {"image/jpeg", "image/png", "image/gif", "image/webp"}

  /** The basename stripped to [A-Za-z0-9_.-]. */
  function SafeName(name: string): (r: string)
    ensures IsSafeName(r)
  {
    Filter(Basename(name), IsNameChar)
  }

  /** The checks an upload passes before it is moved. */
  predicate Acceptable(u: Upload, base: string)
  {
    u.error == UploadOk && !PhpEmpty(u.tmp) && u.mime in AllowedMimes && StartsWith(SafeName(u.name), base)
  }

  predicate Saves(u: Upload, base: string) { Acceptable(u, base) && u.moves }

  /** $saved_files: the safe names of the uploads saved, in order. */
  function SavedNames(files: seq<Upload>, base: string): (r: seq<string>)
    ensures |r| <= |files|
    ensures forall k :: 0 <= k < |r| ==> StartsWith(r[k], base) && IsSafeName(r[k])
  {
    if files == [] then []
    else
      var last := files[|files| - 1];
      SavedNames(files[..|files| - 1], base) + (if Saves(last, base) then [SafeName(last.name)] else [])
  }

  /** A name is saved exactly when some upload that passes the checks and moves carries it. */
  lemma {:induction false} SavedNamesExactly(files: seq<Upload>, base: string, x: string)
    ensures x in SavedNames(files, base) <==> exists i :: 0 <= i < |files| && Saves(files[i], base) && SafeName(files[i].name) == x
  {
    if x in SavedNames(files, base) {
      SavedNameHasUpload(files, base, x);
    }
    if exists i :: 0 <= i < |files| && Saves(files[i], base) && SafeName(files[i].name) == x {
      var i :| 0 <= i < |files| && Saves(files[i], base) && SafeName(files[i].name) == x;
      UploadNameSaved(files, base, i);
    }
  }

  /** Every saved name comes from an upload that passed the checks and moved. */
  lemma {:induction false} SavedNameHasUpload(files: seq<Upload>, base: string, x: string)
    requires x in SavedNames(files, base)
    ensures exists i :: 0 <= i < |files| && Saves(files[i], base) && SafeName(files[i].name) == x
  {
    var init := files[..|files| - 1];
    if x in SavedNames(init, base) {
      SavedNameHasUpload(init, base, x);
      var i :| 0 <= i < |init| && Saves(init[i], base) && SafeName(init[i].name) == x;
      assert files[i] == init[i];
    } else {
      var j := |files| - 1;
      assert Saves(files[j], base) && SafeName(files[j].name) == x;
    }
  }

  /** Every upload that passes the checks and moves has its safe name saved. */
  lemma {:induction false} UploadNameSaved(files: seq<Upload>, base: string, i: nat)
    requires i < |files| && Saves(files[i], base)
    ensures SafeName(files[i].name) in SavedNames(files, base)
  {
    var init := files[..|files| - 1];
    if i < |init| {
      assert init[i] == files[i];
      UploadNameSaved(init, base, i);
    }
  }

  /** One more upload extends the saved names by its safe name when it is saved. */
  lemma {:induction false} SavedStep(files: seq<Upload>, base: string, i: nat)
    requires i < |files|
    ensures SavedNames(files[..i + 1], base)
         == SavedNames(files[..i], base) + (if Saves(files[i], base) then [SafeName(files[i].name)] else [])
  {
    assert files[..i + 1][..i] == files[..i];
  }

  /** The files a list of saved names puts on disk. */
  function NameSet(names: seq<string>): set<string>
  {
    set x | x in names
  }

  lemma {:induction false} NamesOfSnoc(names: seq<string>, y: string)
    ensures NameSet(names + [y]) == NameSet(names) + {y}
  {
  }

  /**
   * A saved name cannot leave uploads/: it has no '/', and it starts with
   * the base, which holds no '.', so it is neither "." nor "..".
   */
  lemma {:induction false} SavedNamesStayInUploads(files: seq<Upload>, base: string, x: string)
    requires !PhpEmpty(base) && forall i :: 0 <= i < |base| ==> IsBaseChar(base[i])
    requires x in SavedNames(files, base)
    ensures '/' !in x && x != "." && x != ".."
  {
    var r := SavedNames(files, base);
    var k :| 0 <= k < |r| && r[k] == x;
    assert StartsWith(x, base);
    assert x[0] == base[0];
    assert forall i :: 0 <= i < |x| ==> IsNameChar(x[i]);
  }

  // ---------------------------------------------------------------------
  // The original image

  predicate IsOriginalName(f: string, base: string) { f == base + ".jpg" || f == base + ".png" }

  /** The first saved base.jpg or base.png, else base.jpg. */
  function OriginalOf(saved: seq<string>, base: string): (r: string)
    ensures IsOriginalName(r, base)
  {
    if saved == [] then base + ".jpg"
    else if IsOriginalName(saved[0], base) then saved[0]
    else OriginalOf(saved[1..], base)
  }

  /** The original is the first candidate in the saved list. */
  lemma {:induction false} OriginalIsFirst(saved: seq<string>, base: string, i: nat)
    requires i < |saved| && IsOriginalName(saved[i], base)
    requires forall j :: 0 <= j < i ==> !IsOriginalName(saved[j], base)
    ensures OriginalOf(saved, base) == saved[i]
  {
    if i > 0 {
      OriginalIsFirst(saved[1..], base, i - 1);
    }
  }

  /** Without a candidate the original is base.jpg, saved or not. */
  lemma {:induction false} OriginalDefault(saved: seq<string>, base: string)
    requires forall j :: 0 <= j < |saved| ==> !IsOriginalName(saved[j], base)
    ensures OriginalOf(saved, base) == base + ".jpg"
  {
    if saved != [] {
      OriginalDefault(saved[1..], base);
    }
  }

  /** The loop with break that picks the original. */
  method ChooseOriginal(saved: seq<string>, base: string) returns (original: string)
    ensures original == OriginalOf(saved, base)
  {
    original := base + ".jpg";
    var i := 0;
    while i < |saved|
      invariant 0 <= i <= |saved|
      invariant OriginalOf(saved, base) == OriginalOf(saved[i..], base)
    {
      assert saved[i..][1..] == saved[i + 1..];
      if saved[i] == base + ".jpg" || saved[i] == base + ".png" {
        original := saved[i];
        break;
      }
      i := i + 1;
    }
    if i == |saved| {
      assert saved[i..] == [];
    }
  }

  // ---------------------------------------------------------------------
  // The entry written to artwork_meta.json

  /** The new entry for the original: the metadata fields, the upload time, published via email. */
  function NewEntry(original: string, m: map<string, Json>, uploadedAt: string): map<string, Json>
  {
    map["filename" := JStr(original),
        "title" := Coalesce(m, "title", JStr("")),
        "dimensions" := Coalesce(m, "dimensions", JStr("")),
        "medium" := Coalesce(m, "medium", JStr("")),
        "price" := Coalesce(m, "price", JStr("")),
        "description" := Coalesce(m, "description", JStr("")),
        "tags" := Coalesce(m, "tags", JArr([])),
        "uploaded_at" := JStr(uploadedAt),
        "uploaded_via" := JStr("email"),
        "status" := JStr("published")]
  }

  /** The decoded artwork_meta.json; a missing file or one that is not an object reads as empty. */
  function Loaded(meta: Option<map<string, Json>>): map<string, Json>
  {
    if meta.Some? then meta.value else map[]
  }

  function Received(original: string, count: nat): Reply
  {
    Reply(200, map["success" := JBool(true), "filename" := JStr(original),
                   "files_saved" := JNum(count), "message" := JStr("Artwork received successfully")])
  }

  // ---------------------------------------------------------------------
  // The endpoint

  /** What the site keeps between requests. */
  datatype SiteState = SiteState(rate: Option<Rate>, uploads: set<string>, meta: Option<map<string, Json>>)

  /** One push: the method, headers, the hour and time from the clock, the form fields and files. */
  datatype Request = Request(isPost: bool, header: Option<string>, hour: string, metadata: Option<Json>,
                             files: seq<Upload>, uploadedAt: string)

  datatype Effect = Effect(reply: Reply, state: SiteState)

  /** The whole request against the site's state. */
  function Intake(s: SiteState, config: Option<seq<Entry>>, q: Request): Effect
  {
    var gate := Gate(config, q.isPost, q.header);
    if gate.Some? then Effect(gate.value, s)
    else
      var admitted := Admit(s.rate, q.hour);
      if admitted.None? then Effect(Error(429, "Rate limit exceeded. Max 20 uploads per hour."), s)
      else
        var counted := s.(rate := admitted);
        var check := CheckBase(q.metadata);
        if !check.Base? then Effect(BaseError(check), counted)
        else
          var saved := SavedNames(q.files, check.base);
          var stored := counted.(uploads := s.uploads + NameSet(saved));
          if saved == [] then Effect(Error(400, "No valid images received"), stored)
          else
            var original := OriginalOf(saved, check.base);
            var entry := NewEntry(original, q.metadata.value.fields, q.uploadedAt);
            Effect(Received(original, |saved|), stored.(meta := Some(Loaded(s.meta)[original := JObj(entry)])))
  }

  /** The counter moves exactly for the requests past the key check and under the limit. */
  lemma {:induction false} IntakeRate(s: SiteState, config: Option<seq<Entry>>, q: Request)
    ensures var e := Intake(s, config, q);
      if Gate(config, q.isPost, q.header).None? && Admit(s.rate, q.hour).Some? then e.state.rate == Admit(s.rate, q.hour)
      else e.state == s
  {
  }

  /** A request that gets past the key check and the limit is counted, whether or not its metadata is valid. */
  lemma {:induction false} CountedBeforeValidation(s: SiteState, config: Option<seq<Entry>>, q: Request)
    requires Gate(config, q.isPost, q.header).None? && Admit(s.rate, q.hour).Some?
    ensures Intake(s, config, q).state.rate == Some(Rate(q.hour, Used(s.rate, q.hour) + 1))
    ensures !CheckBase(q.metadata).Base? ==> Intake(s, config, q).reply.code == 400
  {
  }

  /** Only a request with the configured non-empty key changes anything or succeeds. */
  lemma {:induction false} KeyRequired(s: SiteState, config: Option<seq<Entry>>, q: Request)
    requires Intake(s, config, q).state != s || Intake(s, config, q).reply.code == 200
    ensures config.Some? && q.isPost && q.header.Some? && !PhpEmpty(q.header.value)
    ensures Setup.Field(config.value, "api_key") == Some(Str(q.header.value))
  {
  }

  /** Whether a request passes the counter. */
  predicate Counted(s: SiteState, config: Option<seq<Entry>>, q: Request)
  {
    Gate(config, q.isPost, q.header).None? && Admit(s.rate, q.hour).Some?
  }

  /** How many of a run of requests pass the counter. */
  function CountedIn(s: SiteState, config: Option<seq<Entry>>, qs: seq<Request>): nat
    decreases |qs|
  {
    if qs == [] then 0
    else (if Counted(s, config, qs[0]) then 1 else 0) + CountedIn(Intake(s, config, qs[0]).state, config, qs[1..])
  }

  /** Within one hour at most 20 requests pass the counter, fewer when some were already counted. */
  lemma {:induction false} AtMostLimitPerHour(s: SiteState, config: Option<seq<Entry>>, qs: seq<Request>, hour: string)
    requires forall i :: 0 <= i < |qs| ==> qs[i].hour == hour
    ensures CountedIn(s, config, qs) + Used(s.rate, hour) <= HourlyLimit
    decreases |qs|
  {
    if qs != [] {
      var next := Intake(s, config, qs[0]).state;
      IntakeRate(s, config, qs[0]);
      AtMostLimitPerHour(next, config, qs[1..], hour);
    }
  }

  /** Until the limit is reached, every request with the right key is counted. */
  lemma {:induction false} AllCountedBelowLimit(s: SiteState, config: Option<seq<Entry>>, qs: seq<Request>, hour: string)
    requires forall i :: 0 <= i < |qs| ==> qs[i].hour == hour && Gate(config, qs[i].isPost, qs[i].header).None?
    requires Used(s.rate, hour) + |qs| <= HourlyLimit
    ensures CountedIn(s, config, qs) == |qs|
    decreases |qs|
  {
    if qs != [] {
      var next := Intake(s, config, qs[0]).state;
      IntakeRate(s, config, qs[0]);
      AllCountedBelowLimit(next, config, qs[1..], hour);
    }
  }

  /** artwork_meta.json changes only on success, and then only at the original's key, to a published entry. */
  lemma {:induction false} MetaOnlyOnSuccess(s: SiteState, config: Option<seq<Entry>>, q: Request)
    ensures var e := Intake(s, config, q);
      e.state.meta != s.meta ==> e.reply.code == 200
    ensures var e := Intake(s, config, q);
      e.reply.code == 200 ==>
        var original := e.reply.body["filename"].s;
        e.state.meta.Some? && original in e.state.meta.value &&
        (forall k :: k in Loaded(s.meta) && k != original ==> k in e.state.meta.value && e.state.meta.value[k] == Loaded(s.meta)[k]) &&
        (forall k :: k in e.state.meta.value && k != original ==> k in Loaded(s.meta)) &&
        e.state.meta.value[original].JObj? &&
        e.state.meta.value[original].fields["filename"] == JStr(original) &&
        e.state.meta.value[original].fields["status"] == JStr("published") &&
        e.state.meta.value[original].fields["uploaded_via"] == JStr("email")
  {
    if Gate(config, q.isPost, q.header).None? && Admit(s.rate, q.hour).Some? && CheckBase(q.metadata).Base? {
      var base := CheckBase(q.metadata).base;
      var saved := SavedNames(q.files, base);
      if saved != [] {
        var original := OriginalOf(saved, base);
        assert Intake(s, config, q).reply == Received(original, |saved|);
        PublishedEntry(Loaded(s.meta), original, q.metadata.value.fields, q.uploadedAt);
      }
    }
  }

  /** Writing the new entry keeps every other key and publishes the original via email. */
  lemma {:induction false} PublishedEntry(before: map<string, Json>, original: string, m: map<string, Json>, at: string)
    ensures var after := before[original := JObj(NewEntry(original, m, at))];
      original in after &&
      (forall k :: k in before && k != original ==> k in after && after[k] == before[k]) &&
      (forall k :: k in after && k != original ==> k in before) &&
      after[original].JObj? &&
      after[original].fields["filename"] == JStr(original) &&
      after[original].fields["status"] == JStr("published") &&
      after[original].fields["uploaded_via"] == JStr("email")
  {
    var e := NewEntry(original, m, at);
    assert "filename" in e && "status" in e && "uploaded_via" in e;
  }

  /** A success reports at least one saved file, and the original is base.jpg or base.png. */
  lemma {:induction false} SuccessHasFiles(s: SiteState, config: Option<seq<Entry>>, q: Request)
    requires Intake(s, config, q).reply.code == 200
    ensures CheckBase(q.metadata).Base?
    ensures var base := CheckBase(q.metadata).base;
      var saved := SavedNames(q.files, base);
      saved != [] &&
      Intake(s, config, q).reply == Received(OriginalOf(saved, base), |saved|) &&
      IsOriginalName(OriginalOf(saved, base), base)
  {
  }

  /** Without a saved file the reply is 400 and artwork_meta.json is untouched. */
  lemma {:induction false} NoFilesNoMeta(s: SiteState, config: Option<seq<Entry>>, q: Request)
    requires Counted(s, config, q) && CheckBase(q.metadata).Base?
    requires SavedNames(q.files, CheckBase(q.metadata).base) == []
    ensures Intake(s, config, q).reply == Error(400, "No valid images received")
    ensures Intake(s, config, q).state.meta == s.meta
  {
  }

  /** Every file the request adds to uploads/ is a saved name: base-prefixed and without a path. */
  lemma {:induction false} NewUploadsSafe(s: SiteState, config: Option<seq<Entry>>, q: Request, x: string)
    requires x in Intake(s, config, q).state.uploads && x !in s.uploads
    ensures CheckBase(q.metadata).Base?
    ensures StartsWith(x, CheckBase(q.metadata).base) && '/' !in x && x != "." && x != ".."
  {
    var base := CheckBase(q.metadata).base;
    var r := SavedNames(q.files, base);
    assert x in r;
    SavedNamesStayInUploads(q.files, base, x);
    var k :| 0 <= k < |r| && r[k] == x;
  }

  class Site {
    /** logs/receive_rate.json; None while missing or unreadable. */
    var rate: Option<Rate>
    /** The names present in uploads/. */
    var uploads: set<string>
    /** artwork_meta.json; None while missing or not a JSON object. */
    var meta: Option<map<string, Json>>

    constructor (s: SiteState)
      ensures rate == s.rate && uploads == s.uploads && meta == s.meta
    {
      rate, uploads, meta := s.rate, s.uploads, s.meta;
    }

    function State(): SiteState
      reads this
    {
      SiteState(rate, uploads, meta)
    }

    /** The upload loop: each file that passes the checks is moved into uploads/ under its safe name. */
    method SaveUploads(files: seq<Upload>, base: string) returns (saved: seq<string>)
      modifies this`uploads
      ensures saved == SavedNames(files, base)
      ensures uploads == old(uploads) + NameSet(saved)
    {
      saved := [];
      var i := 0;
      while i < |files|
        invariant 0 <= i <= |files|
        invariant saved == SavedNames(files[..i], base)
        invariant uploads == old(uploads) + NameSet(saved)
      {
        SavedStep(files, base, i);
        var moved := SaveUpload(files[i], base);
        if moved.Some? {
          NamesOfSnoc(saved, moved.value);
          saved := saved + [moved.value];
        }
        i := i + 1;
      }
      assert files[..i] == files;
    }

    /** One pass of the loop: the checks, then move_uploaded_file into uploads/. */
    method SaveUpload(u: Upload, base: string) returns (moved: Option<string>)
      modifies this`uploads
      ensures moved.Some? <==> Saves(u, base)
      ensures moved.Some? ==> moved.value == SafeName(u.name)
      ensures uploads == old(uploads) + (if moved.Some? then {moved.value} else {})
    {
      if u.error != UploadOk || PhpEmpty(u.tmp) {
        return None;
      }
      if u.mime !in AllowedMimes {
        return None;
      }
      var safe := SafeName(u.name);
      if !StartsWith(safe, base) {
        return None;
      }
      if !u.moves {
        return None;
      }
      assert Saves(u, base);
      uploads := uploads + {safe};
      return Some(safe);
    }

    /** The endpoint, step by step as the script runs. */
    method Receive(config: Option<seq<Entry>>, q: Request) returns (reply: Reply)
      modifies this
      ensures var e := Intake(old(State()), config, q);
        reply == e.reply && rate == e.state.rate && uploads == e.state.uploads && meta == e.state.meta
    {
      var gate := Gate(config, q.isPost, q.header);
      if gate.Some? {
        return gate.value;
      }
      var admitted := Admit(rate, q.hour);
      if admitted.None? {
        return Error(429, "Rate limit exceeded. Max 20 uploads per hour.");
      }
      rate := admitted;
      var check := CheckBase(q.metadata);
      if !check.Base? {
        return BaseError(check);
      }
      var saved := SaveUploads(q.files, check.base);
      if saved == [] {
        return Error(400, "No valid images received");
      }
      var all := Loaded(meta);
      var original := ChooseOriginal(saved, check.base);
      all := all[original := JObj(NewEntry(original, q.metadata.value.fields, q.uploadedAt))];
      meta := Some(all);
      reply := Received(original, |saved|);
    }
  }
}
