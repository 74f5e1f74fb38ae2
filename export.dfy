// The artwork export of api/export.php: a signed-in artist downloads a ZIP
// holding every file under uploads/, the artwork metadata and the artist's
// profile with the credentials taken out.
//
// The file system is a tree of paths relative to the site root, the
// directory iterator's order is a parameter (the paths it visits, relative
// to the uploads directory), and the archive is the list of entries added
// to it, in order.

module Export {
  import opened Common
  import opened PhpExport
  import Setup
  import Auth
  import ApplyUpdate

  // ---------------------------------------------------------------------
  // Access

  /** `isset($_SESSION['artist_authenticated']) && $_SESSION['artist_authenticated']`. */
  predicate SignedIn(session: map<string, Json>)
  {
    IsSet(session, "artist_authenticated") && !EmptyJson(session["artist_authenticated"])
  }

  /** The session variables the sign-in leaves behind pass the check exactly when the artist signed in. */
  lemma {:induction false} SignedInAfterLogin(d: Auth.SessionData)
    ensures SignedIn(Auth.SessionVars(d)) <==> d.authenticated
  {
  }

  // ---------------------------------------------------------------------
  // The uploads directory

  // A name the glob of uploads lists: directly inside uploads, not hidden.
  predicate Globbed(p: string)
  {
    StartsWith(p, "uploads/") && var n := p[8..]; n != "" && '/' !in n && n[0] != '.'
  }

  /** uploads is a directory and the glob finds something in it. */
  predicate HasUploads(site: ApplyUpdate.Tree)
  {
    "uploads" in site && site["uploads"].Dir? && exists p :: p in site && Globbed(p)
  }

  /** An upload that `isFile()` accepts, given by its path under the uploads directory. */
  predicate IsUpload(site: ApplyUpdate.Tree, rel: string)
  {
    "uploads/" + rel in site && site["uploads/" + rel].File?
  }

  /** The iterator lists, relative to the uploads directory, everything under uploads. */
  ghost predicate WalksUploads(site: ApplyUpdate.Tree, walk: seq<string>)
  {
    forall p :: p in site && StartsWith(p, "uploads/") ==> p[8..] in walk
  }

  // ---------------------------------------------------------------------
  // The artist name and the archive name

  /** A character the name keeps: `[a-zA-Z0-9_-]`. */
  predicate NameChar(c: char) { IsAlnum(c) || c == '_' || c == '-' }

  /** `preg_replace('/[^a-zA-Z0-9_-]/', '_', $s)`. */
  function Sanitize(s: string): (r: string)
    ensures |r| == |s|
    ensures forall i :: 0 <= i < |r| ==> NameChar(r[i])
    ensures forall i :: 0 <= i < |s| && NameChar(s[i]) ==> r[i] == s[i]
  {
    if s == [] then []
    else [if NameChar(s[0]) then s[0] else '_'] + Sanitize(s[1..])
  }

  /** A name made only of kept characters comes back unchanged, so sanitising twice is sanitising once. */
  lemma {:induction false} SanitizeKeepsSafe(s: string)
    requires forall i :: 0 <= i < |s| ==> NameChar(s[i])
    ensures Sanitize(s) == s
  {
    if s != [] {
      assert forall i :: 0 <= i < |s[1..]| ==> s[1..][i] == s[i + 1];
      SanitizeKeepsSafe(s[1..]);
    }
  }

  /** Sanitising is idempotent. */
  lemma {:induction false} SanitizeIdempotent(s: string)
    ensures Sanitize(Sanitize(s)) == Sanitize(s)
  {
    SanitizeKeepsSafe(Sanitize(s));
  }

  /** `preg_replace(..., $config['name'] ?? 'artist')` as the file name sees it: an array name becomes "Array". */
  function ArtistName(config: seq<Entry>): string
  {
    Sanitize(ConcatText(Setup.FieldOr(config, "name", Str("artist"))))
  }

  /** The artist name only ever holds kept characters. */
  lemma {:induction false} ArtistNameSafe(config: seq<Entry>)
    ensures forall i :: 0 <= i < |ArtistName(config)| ==> NameChar(ArtistName(config)[i])
  {
  }

  /** `<name>_artwork_<Y-m-d>.zip`. */
  function ZipFileName(name: string, date: string): string
  {
    name + "_artwork_" + date + ".zip"
  }

  /** A name of kept characters with a date free of '/' and '"' gives an archive name free of both, ending in .zip. */
  lemma {:induction false} ZipFileNameOfSafe(name: string, date: string)
    requires forall i :: 0 <= i < |name| ==> NameChar(name[i])
    requires '/' !in date && '"' !in date
    ensures '/' !in ZipFileName(name, date) && '"' !in ZipFileName(name, date)
    ensures EndsWith(ZipFileName(name, date), ".zip")
  {
    assert '/' !in name && '"' !in name by {
      assert !NameChar('/') && !NameChar('"');
    }
    var mid := "_artwork_";
    assert '/' !in mid && '"' !in mid;
    assert '/' !in ".zip" && '"' !in ".zip";
    EndsWithAppended(name + mid + date, ".zip");
  }

  /** The archive name cannot leave the temporary directory or break out of the quoted header: its name part
    * holds no '/' and no '"', so only the date could bring one in. */
  lemma {:induction false} ZipFileNameSafe(config: seq<Entry>, date: string)
    requires '/' !in date && '"' !in date
    ensures '/' !in ZipFileName(ArtistName(config), date)
    ensures '"' !in ZipFileName(ArtistName(config), date)
    ensures EndsWith(ZipFileName(ArtistName(config), date), ".zip")
  {
    ArtistNameSafe(config);
    ZipFileNameOfSafe(ArtistName(config), date);
  }

  // ---------------------------------------------------------------------
  // The archive

  datatype ZipEntry =
    | Copied(name: string, from: string)         // addFile: a file of the site under a name in the archive
    | Written(name: string, profile: seq<Entry>) // addFromString: the profile, as json_encode writes it

  /** `__DIR__ . '/../uploads'`. */
  function UploadsDir(apiDir: string): string { apiDir + "/../uploads" }

  /** The pathname the iterator gives for an upload. */
  function PathName(apiDir: string, rel: string): string { UploadsDir(apiDir) + "/" + rel }

  /** `'uploads/' . substr($pathname, strlen($uploads_dir) + 1)`; substr past the end is "". */
  function ArchiveName(apiDir: string, pathname: string): string
  {
    var k := |UploadsDir(apiDir)| + 1;
    "uploads/" + (if k <= |pathname| then pathname[k..] else "")
  }

  /** Each upload lands in the archive at uploads/ followed by its path under the uploads directory. */
  lemma {:induction false} ArchiveNameOfUpload(apiDir: string, rel: string)
    ensures ArchiveName(apiDir, PathName(apiDir, rel)) == "uploads/" + rel
  {
    assert PathName(apiDir, rel)[|UploadsDir(apiDir)| + 1..] == rel;
  }

  /** The entry addFile makes for an upload. */
  function UploadEntry(apiDir: string, rel: string): ZipEntry
  {
    Copied(ArchiveName(apiDir, PathName(apiDir, rel)), PathName(apiDir, rel))
  }

  /** The uploads added by the loop over the iterator, in its order; directories are skipped. */
  function UploadEntries(site: ApplyUpdate.Tree, apiDir: string, walk: seq<string>): seq<ZipEntry>
  {
    if walk == [] then []
    else
      var rest := UploadEntries(site, apiDir, walk[..|walk| - 1]);
      var rel := walk[|walk| - 1];
      if IsUpload(site, rel) then rest + [UploadEntry(apiDir, rel)] else rest
  }

  /** Every entry is an upload the iterator visited, stored under uploads/ and its path, copied from its pathname. */
  lemma {:induction false} UploadEntriesAreUploads(site: ApplyUpdate.Tree, apiDir: string, walk: seq<string>, e: ZipEntry)
    requires e in UploadEntries(site, apiDir, walk)
    ensures exists rel :: rel in walk && IsUpload(site, rel) && e == Copied("uploads/" + rel, PathName(apiDir, rel))
  {
    if walk != [] {
      var rel := walk[|walk| - 1];
      ArchiveNameOfUpload(apiDir, rel);
      if e in UploadEntries(site, apiDir, walk[..|walk| - 1]) {
        UploadEntriesAreUploads(site, apiDir, walk[..|walk| - 1], e);
        var r :| r in walk[..|walk| - 1] && IsUpload(site, r) && e == Copied("uploads/" + r, PathName(apiDir, r));
        assert r in walk;
      }
    }
  }

  /** Every upload the iterator visits is in the archive, under uploads/ and its path. */
  lemma {:induction false} UploadEntriesComplete(site: ApplyUpdate.Tree, apiDir: string, walk: seq<string>, rel: string)
    requires rel in walk && IsUpload(site, rel)
    ensures Copied("uploads/" + rel, PathName(apiDir, rel)) in UploadEntries(site, apiDir, walk)
  {
    var last := walk[|walk| - 1];
    if rel == last {
      ArchiveNameOfUpload(apiDir, rel);
    } else {
      assert rel in walk[..|walk| - 1];
      UploadEntriesComplete(site, apiDir, walk[..|walk| - 1], rel);
    }
  }

  /** When the iterator covers the uploads directory, every file of the site under uploads/ is exported under its own path. */
  lemma {:induction false} EveryUploadExported(site: ApplyUpdate.Tree, apiDir: string, walk: seq<string>, p: string)
    requires WalksUploads(site, walk)
    requires p in site && site[p].File? && StartsWith(p, "uploads/")
    ensures exists from :: Copied(p, from) in UploadEntries(site, apiDir, walk)
  {
    var rel := p[8..];
    assert "uploads/" + rel == p;
    UploadEntriesComplete(site, apiDir, walk, rel);
  }

  /** The foreach over the iterator. */
  method AddUploads(site: ApplyUpdate.Tree, apiDir: string, walk: seq<string>) returns (entries: seq<ZipEntry>)
    ensures entries == UploadEntries(site, apiDir, walk)
  {
    entries := [];
    for i := 0 to |walk|
      invariant entries == UploadEntries(site, apiDir, walk[..i])
    {
      assert walk[..i + 1][..i] == walk[..i];
      var rel := walk[i];
      if IsUpload(site, rel) {
        var pathname := PathName(apiDir, rel);
        entries := entries + [Copied(ArchiveName(apiDir, pathname), pathname)];
      }
    }
    assert walk[..|walk|] == walk;
  }

  // ---------------------------------------------------------------------
  // The profile

  const Secrets: seq<string> := ["api_key", "auth_signing_secret", "oauth"]

  /** `unset($arr[$k])`: the entry under k goes, the rest keep their order. */
  function Unset(es: seq<Entry>, k: string): (r: seq<Entry>)
    ensures forall e :: e in r ==> e in es && e.key != StrKey(k)
    ensures forall e :: e in es && e.key != StrKey(k) ==> e in r
  {
    if es == [] then []
    else if es[0].key == StrKey(k) then Unset(es[1..], k)
    else [es[0]] + Unset(es[1..], k)
  }

  /** Looking a key up after unset: the unset key is gone, any other reads as before. */
  lemma {:induction false} LookupUnset(es: seq<Entry>, k: string, j: Key)
    ensures Setup.Lookup(Unset(es, k), j) == if j == StrKey(k) then None else Setup.Lookup(es, j)
  {
    if es != [] {
      LookupUnset(es[1..], k, j);
    }
  }

  /** `$safe_config` after the three unsets. */
  function Redacted(config: seq<Entry>): seq<Entry>
  {
    Unset(Unset(Unset(config, "api_key"), "auth_signing_secret"), "oauth")
  }

  /** The exported profile holds no credential, and every other key with its value. */
  lemma {:induction false} RedactedFields(config: seq<Entry>, j: Key)
    ensures Setup.Lookup(Redacted(config), j) ==
      if j.StrKey? && j.s in Secrets then None else Setup.Lookup(config, j)
  {
    LookupUnset(config, "api_key", j);
    LookupUnset(Unset(config, "api_key"), "auth_signing_secret", j);
    LookupUnset(Unset(Unset(config, "api_key"), "auth_signing_secret"), "oauth", j);
  }

  /** The redacted profile is the configuration's entries minus those under a credential key. */
  lemma {:induction false} RedactedEntries(config: seq<Entry>, e: Entry)
    ensures e in Redacted(config) <==> e in config && !(e.key.StrKey? && e.key.s in Secrets)
  {
  }

  // ---------------------------------------------------------------------
  // The endpoint

  datatype Reply =
    | Unauthorized                                      // 401 'Authentication required'
    | NothingToExport                                   // 404 'No artwork to export'
    | ZipFailed                                         // 500 'Failed to create ZIP archive'
    | Download(fileName: string, entries: seq<ZipEntry>)

  /** The metadata file and the profile, added after the uploads. */
  function Extras(apiDir: string, config: seq<Entry>, metaExists: bool): seq<ZipEntry>
  {
    (if metaExists then [Copied("artwork_meta.json", apiDir + "/../artwork_meta.json")] else [])
    + (if config != [] then [Written("artist_profile.json", Redacted(config))] else [])
  }

  /**
   * The whole request. `config` is what artist_config.php returns ([] when
   * the file is missing), `date` is date('Y-m-d'), and `zipOpens` says
   * whether the temporary archive could be created.
   */
  function ExportRequest(session: map<string, Json>, site: ApplyUpdate.Tree, apiDir: string, walk: seq<string>,
                         config: seq<Entry>, date: string, zipOpens: bool, metaExists: bool): Reply
  {
    if !SignedIn(session) then Unauthorized
    else if !HasUploads(site) then NothingToExport
    else if !zipOpens then ZipFailed
    else Download(ZipFileName(ArtistName(config), date),
                  UploadEntries(site, apiDir, walk) + Extras(apiDir, config, metaExists))
  }

  /** A download happens exactly for a signed-in artist with something under uploads and a writable archive;
    * it then holds every upload, the metadata when present, and a profile without credentials when configured. */
  lemma {:induction false} ExportDelivers(session: map<string, Json>, site: ApplyUpdate.Tree, apiDir: string, walk: seq<string>,
                       config: seq<Entry>, date: string, zipOpens: bool, metaExists: bool, p: string)
    ensures ExportRequest(session, site, apiDir, walk, config, date, zipOpens, metaExists).Download?
            <==> SignedIn(session) && HasUploads(site) && zipOpens
    ensures var r := ExportRequest(session, site, apiDir, walk, config, date, zipOpens, metaExists);
      r.Download? && WalksUploads(site, walk) && p in site && site[p].File? && StartsWith(p, "uploads/") ==>
        exists from :: Copied(p, from) in r.entries
    ensures var r := ExportRequest(session, site, apiDir, walk, config, date, zipOpens, metaExists);
      r.Download? ==>
        (Copied("artwork_meta.json", apiDir + "/../artwork_meta.json") in r.entries <==> metaExists)
        && (forall e :: e in r.entries && e.Written? ==> e == Written("artist_profile.json", Redacted(config)))
        && (Written("artist_profile.json", Redacted(config)) in r.entries <==> config != [])
  {
    var r := ExportRequest(session, site, apiDir, walk, config, date, zipOpens, metaExists);
    if r.Download? {
      var ups := UploadEntries(site, apiDir, walk);
      assert r.entries == ups + Extras(apiDir, config, metaExists);
      if WalksUploads(site, walk) && p in site && site[p].File? && StartsWith(p, "uploads/") {
        EveryUploadExported(site, apiDir, walk, p);
      }
      forall e | e in ups
        ensures e.Copied? && e.name != "artwork_meta.json"
      {
        UploadEntriesAreUploads(site, apiDir, walk, e);
        var rel :| rel in walk && IsUpload(site, rel) && e == Copied("uploads/" + rel, PathName(apiDir, rel));
        assert e.name[0] == 'u';
      }
    }
  }

  /** The two files added after the uploads, each only when there is one. */
  method AddExtras(apiDir: string, config: seq<Entry>, metaExists: bool) returns (extras: seq<ZipEntry>)
    ensures extras == Extras(apiDir, config, metaExists)
  {
    extras := [];
    if metaExists {
      extras := extras + [Copied("artwork_meta.json", apiDir + "/../artwork_meta.json")];
    }
    if config != [] {
      extras := extras + [Written("artist_profile.json", Redacted(config))];
    }
  }

  /** The request, with the iterator loop as a loop. */
  method ExportArtwork(session: map<string, Json>, site: ApplyUpdate.Tree, apiDir: string, walk: seq<string>,
                       config: seq<Entry>, date: string, zipOpens: bool, metaExists: bool) returns (reply: Reply)
    ensures reply == ExportRequest(session, site, apiDir, walk, config, date, zipOpens, metaExists)
  {
    if !SignedIn(session) {
      return Unauthorized;
    }
    if !HasUploads(site) {
      return NothingToExport;
    }
    var zipName := ZipFileName(ArtistName(config), date);
    if !zipOpens {
      return ZipFailed;
    }
    var uploads := AddUploads(site, apiDir, walk);
    var extras := AddExtras(apiDir, config, metaExists);
    reply := Download(zipName, uploads + extras);
  }
}
