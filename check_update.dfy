// The update check of api/check_update.php: the latest GitHub release is
// compared with the installed version, and a download URL is chosen from
// the release's assets, falling back to the source zipball.
//
// The HTTP request is a parameter (its status code, curl's error text and
// the decoded body), and so is PHP's version_compare, as a relation
// `newer(latest, current)`.

module CheckUpdate {
  import opened Common
  import opened PhpExport

  // ---------------------------------------------------------------------
  // The tag

  /** `n` copies of 'v'. */
  function Vs(n: nat): (r: string)
    ensures |r| == n
  {
    if n == 0 then [] else ['v'] + Vs(n - 1)
  }

  /** `ltrim($tag, 'v')`: the tag is a run of lower-case 'v's followed by the result, which does not start with 'v'. */
  function StripV(tag: string): (r: string)
    ensures |r| <= |tag| && tag == Vs(|tag| - |r|) + r
    ensures r == [] || r[0] != 'v'
  {
    if tag != [] && tag[0] == 'v' then
      var tail := tag[1..];
      var r := StripV(tail);
      var k := |tail| - |r|;
      assert tail == Vs(k) + r;
      assert tag == ['v'] + tail;
      assert |tag| - |r| == k + 1;
      assert Vs(k + 1) == ['v'] + Vs(k);
      assert tag == Vs(k + 1) + r;
      r
    else
      assert tag == Vs(0) + tag;
      tag
  }

  /** One leading 'v' is stripped like the rest. */
  lemma {:induction false} StripVCons(x: string)
    ensures StripV(['v'] + x) == StripV(x)
  {
    assert (['v'] + x)[1..] == x;
  }

  /** Any run of leading 'v's is removed, and nothing else: a tag `v…v` + core with core not starting with 'v' gives core. */
  lemma {:induction false} StripVPrefixed(n: nat, core: string)
    requires core == [] || core[0] != 'v'
    ensures StripV(Vs(n) + core) == core
  {
    if n == 0 {
      assert Vs(n) + core == core;
    } else {
      var rest := Vs(n - 1) + core;
      assert Vs(n) == ['v'] + Vs(n - 1);
      calc {
        StripV(Vs(n) + core);
        { assert Vs(n) + core == ['v'] + rest; }
        StripV(['v'] + rest);
        { StripVCons(Vs(n - 1) + core); }
        StripV(Vs(n - 1) + core);
        { StripVPrefixed(n - 1, core); }
        core;
      }
    }
  }

  // ---------------------------------------------------------------------
  // Release assets

  /** `preg_match('/\.zip$/i', $name)`: ".zip" in any case at the end, or just before a final newline. */
  predicate ZipName(name: string)
  {
    var n := ToLower(name);
    EndsWith(n, ".zip") || EndsWith(n, ".zip\n")
  }

  /** A name whose last four characters spell ".zip" in any case is accepted, also with a trailing newline. */
  lemma {:induction false} ZipNameOfExtension(stem: string, ext: string)
    requires ToLower(ext) == ".zip"
    ensures ZipName(stem + ext)
    ensures ZipName(stem + ext + "\n")
  {
    ToLowerConcat(stem, ext);
    EndsWithAppended(ToLower(stem), ".zip");
    ToLowerConcat(stem + ext, "\n");
    assert ToLower("\n") == "\n";
    assert ToLower(stem) + ".zip" + "\n" == ToLower(stem) + ".zip\n";
    EndsWithAppended(ToLower(stem), ".zip\n");
  }

  /** `isset($asset['name'])`: only an object with a non-null "name" is looked at. */
  predicate Named(a: Json) { a.JObj? && IsSet(a.fields, "name") }

  /** The loop moves past this asset: it has no name, or a name with a string form that does not end in .zip. */
  predicate Passed(a: Json)
  {
    !Named(a) || (JsonText(a.fields["name"]).Some? && !ZipName(JsonText(a.fields["name"]).value))
  }

  /** What the scan of the assets found. */
  datatype Scan =
    | NoZip                  // the loop ran to its end
    | ZipAsset(url: Json)    // `$asset['browser_download_url']` of the first ZIP asset (null when missing)
    | NameNotText            // an array as a name: preg_match throws a TypeError

  /** Where the loop stops at a non-passed asset. */
  function Stop(a: Json): Scan
    requires !Passed(a)
  {
    match JsonText(a.fields["name"])
    case None => NameNotText
    case Some(_) => ZipAsset(Coalesce(a.fields, "browser_download_url", JNull))
  }

  /** The foreach over the assets, breaking at the first ZIP asset. */
  function ScanAssets(assets: seq<Json>): Scan
  {
    if assets == [] then NoZip
    else if Passed(assets[0]) then ScanAssets(assets[1..])
    else Stop(assets[0])
  }

  /** The scan stops at the first asset the loop does not pass, with that asset's URL. */
  lemma {:induction false} ScanStopsAtFirst(assets: seq<Json>, i: nat)
    requires i < |assets| && !Passed(assets[i])
    requires forall j :: 0 <= j < i ==> Passed(assets[j])
    ensures ScanAssets(assets) == Stop(assets[i])
  {
    if i > 0 {
      assert forall j :: 0 <= j < i - 1 ==> assets[1..][j] == assets[j + 1];
      ScanStopsAtFirst(assets[1..], i - 1);
    }
  }

  /** The scan finds nothing exactly when every asset is passed. */
  lemma {:induction false} ScanFindsNothing(assets: seq<Json>)
    ensures ScanAssets(assets) == NoZip <==> forall j :: 0 <= j < |assets| ==> Passed(assets[j])
  {
    if assets != [] {
      ScanFindsNothing(assets[1..]);
      assert forall j :: 1 <= j < |assets| ==> assets[j] == assets[1..][j - 1];
    }
  }

  /** The foreach loop with its break. */
  method FindAsset(assets: seq<Json>) returns (scan: Scan)
    ensures scan == ScanAssets(assets)
  {
    scan := NoZip;
    var i := 0;
    while i < |assets|
      invariant 0 <= i <= |assets|
      invariant ScanAssets(assets) == ScanAssets(assets[i..])
    {
      assert assets[i..][1..] == assets[i + 1..];
      if !Passed(assets[i]) {
        scan := Stop(assets[i]);
        return;
      }
      i := i + 1;
    }
  }

  // ---------------------------------------------------------------------
  // The endpoint

  /** The JSON reply. */
  datatype Reply =
    | FetchFailed(details: string)   // 500 'Failed to fetch release info from GitHub'
    | InvalidResponse                // 500 'Invalid response from GitHub API'
    | Fatal                          // an array where a string is needed: PHP stops with a TypeError
    | Release(updateAvailable: bool, currentVersion: string, latestVersion: string,
              releaseDate: Json, releaseNotes: Json, downloadUrl: Json, changelogUrl: Json)

  /** The assets the loop looks at: only a JSON list (an object under "assets" is not scanned, see README). */
  function AssetsOf(f: map<string, Json>): seq<Json>
  {
    if "assets" in f && f["assets"].JArr? then f["assets"].items else []
  }

  /** The whole script on the GitHub reply (`body` is json_decode's result, null for invalid JSON). */
  function Check(current: string, newer: (string, string) -> bool, httpCode: int, curlError: string, body: Json): Reply
  {
    if httpCode != 200 then
      FetchFailed(if PhpEmpty(curlError) then "HTTP " + ExportInt(httpCode) else curlError)
    else if EmptyJson(body) || !body.JObj? || !IsSet(body.fields, "tag_name") then
      InvalidResponse
    else
      var f := body.fields;
      match JsonText(f["tag_name"])
      case None => Fatal
      case Some(tag) =>
        var latest := StripV(tag);
        var scan := ScanAssets(AssetsOf(f));
        if scan.NameNotText? then Fatal
        else
          var url := if scan.ZipAsset? && !EmptyJson(scan.url) then scan.url
                     else Coalesce(f, "zipball_url", JNull);
          Release(newer(latest, current), current, latest, Coalesce(f, "published_at", JNull),
                  Coalesce(f, "body", JStr("")), url, Coalesce(f, "html_url", JNull))
  }

  /** A failed fetch always explains itself: curl's error, or the HTTP status when curl gave none. */
  lemma {:induction false} FetchFailureDetails(current: string, newer: (string, string) -> bool, httpCode: int, curlError: string, body: Json)
    requires httpCode != 200
    ensures Check(current, newer, httpCode, curlError, body).FetchFailed?
    ensures Check(current, newer, httpCode, curlError, body).details != ""
    ensures !PhpEmpty(curlError) ==> Check(current, newer, httpCode, curlError, body).details == curlError
  {
  }

  /** A release is reported only for a 200 reply whose object has a tag_name with a string form;
    * latest_version is that tag without its leading 'v's, and update_available is version_compare's verdict. */
  lemma {:induction false} ReleaseReported(current: string, newer: (string, string) -> bool, httpCode: int, curlError: string, body: Json)
    ensures Check(current, newer, httpCode, curlError, body).Release? <==>
      httpCode == 200 && body.JObj? && IsSet(body.fields, "tag_name") && JsonText(body.fields["tag_name"]).Some?
      && !ScanAssets(AssetsOf(body.fields)).NameNotText?
    ensures Check(current, newer, httpCode, curlError, body).Release? ==>
      var r := Check(current, newer, httpCode, curlError, body);
      var tag := JsonText(body.fields["tag_name"]).value;
      && tag == Vs(|tag| - |r.latestVersion|) + r.latestVersion
      && (r.latestVersion == [] || r.latestVersion[0] != 'v')
      && r.updateAvailable == newer(r.latestVersion, current)
      && r.currentVersion == current
  {
  }

  /** download_url is the URL of the first ZIP asset when that is truthy, otherwise zipball_url (or null). */
  lemma {:induction false} DownloadUrlChoice(current: string, newer: (string, string) -> bool, body: Json, i: nat)
    requires Check(current, newer, 200, "", body).Release?
    requires i < |AssetsOf(body.fields)| && !Passed(AssetsOf(body.fields)[i])
    requires forall j :: 0 <= j < i ==> Passed(AssetsOf(body.fields)[j])
    ensures var a := AssetsOf(body.fields)[i].fields;
      var u := Coalesce(a, "browser_download_url", JNull);
      Check(current, newer, 200, "", body).downloadUrl ==
        if EmptyJson(u) then Coalesce(body.fields, "zipball_url", JNull) else u
  {
    ScanStopsAtFirst(AssetsOf(body.fields), i);
  }

  /** With no ZIP asset the zipball is offered. */
  lemma {:induction false} ZipballWithoutAsset(current: string, newer: (string, string) -> bool, body: Json)
    requires Check(current, newer, 200, "", body).Release?
    requires forall j :: 0 <= j < |AssetsOf(body.fields)| ==> Passed(AssetsOf(body.fields)[j])
    ensures Check(current, newer, 200, "", body).downloadUrl == Coalesce(body.fields, "zipball_url", JNull)
  {
    ScanFindsNothing(AssetsOf(body.fields));
  }

  /** The script itself, with the asset loop as a loop. */
  method CheckForUpdate(current: string, newer: (string, string) -> bool, httpCode: int, curlError: string, body: Json)
    returns (reply: Reply)
    ensures reply == Check(current, newer, httpCode, curlError, body)
  {
    if httpCode != 200 {
      return FetchFailed(if PhpEmpty(curlError) then "HTTP " + ExportInt(httpCode) else curlError);
    }
    if EmptyJson(body) || !body.JObj? || !IsSet(body.fields, "tag_name") {
      return InvalidResponse;
    }
    var f := body.fields;
    var tag := JsonText(f["tag_name"]);
    if tag.None? {
      return Fatal;
    }
    var latest := StripV(tag.value);
    var updateAvailable := newer(latest, current);
    var zipball := Coalesce(f, "zipball_url", JNull);
    var scan := FindAsset(AssetsOf(f));
    if scan.NameNotText? {
      return Fatal;
    }
    var url := if scan.ZipAsset? then scan.url else JNull;
    if EmptyJson(url) {
      url := zipball;
    }
    reply := Release(updateAvailable, current, latest, Coalesce(f, "published_at", JNull),
                     Coalesce(f, "body", JStr("")), url, Coalesce(f, "html_url", JNull));
  }
}
