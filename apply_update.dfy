// The self-update endpoint (api/apply_update.php): backs up the
// installation, fetches and unpacks a release, checks it, copies it over
// the installation while preserving the artist's configuration and data,
// removes its scratch directory and keeps the five newest backups. The
// installation tree, the backup archives and the path filters are shared
// with the rollback endpoint (RollbackUpdate).
module ApplyUpdate {
  import opened Common
  import Auth

  // ---------------------------------------------------------------------
  // Installation tree and archives

  /** A node under the installation root, keyed by its path relative to the root. */
  datatype Node = Dir | File(data: string)

  type Tree = map<string, Node>

  /** A ZIP entry: a directory entry's name ends in '/' and holds nothing. */
  datatype Entry = Entry(name: string, data: string)

  /** backups/backup_<stamp>.zip with its modification time. */
  datatype Backup = Backup(name: string, mtime: int, entries: seq<Entry>)

  /** dirname() of a relative path; "" stands for the installation root itself. */
  function Parent(p: string): (r: string)
    ensures |r| <= |p| && r == p[..|r|]
    ensures r != "" ==> |r| < |p| && p[|r|] == '/'
  {
    var k := LastIndexOf(p, '/');
    if k <= 0 then "" else p[..k]
  }

  /** `if (!is_dir(p)) mkdir(p)`: a directory appears unless something is already there. */
  function MakeDir(t: Tree, p: string): (r: Tree)
    ensures forall q :: q in t ==> q in r && r[q] == t[q]
    ensures forall q :: q in r ==> q in t || q == p
  {
    if p == "" || p in t then t else t[p := Dir]
  }

  /**
   * Writing a file (copy(), file_put_contents()) after making sure its
   * parent directory exists; the write fails where a directory stands.
   */
  function PutFile(t: Tree, p: string, data: string): (r: Tree)
    ensures forall q :: q in t && q != p ==> q in r && r[q] == t[q]
    ensures forall q :: q in r ==> q in t || q == p || q == Parent(p)
  {
    var u := MakeDir(t, Parent(p));
    if p in u && u[p].Dir? then u else u[p := File(data)]
  }

  /** deleteDirectory() on a top-level directory: it and everything under it go. */
  function PruneDir(t: Tree, dir: string): (r: Tree)
    ensures forall q :: q in r <==> q in t && !InDir(q, dir)
    ensures forall q :: q in r ==> r[q] == t[q]
  {
    map q | q in t && !InDir(q, dir) :: t[q]
  }

  /**
   * The `new_version` the reply reports: `require`-ing version.php gives an
   * array whose `version` field is reported. version.php is not part of this
   * model, so the whole text of the installed file stands for that field;
   * none when no file is there.
   */
  function InstalledVersion(t: Tree): Option<string>
  {
    if "version.php" in t && t["version.php"].File? then Some(t["version.php"].data) else None
  }

  // ---------------------------------------------------------------------
  // Access

  /** The session key the guard tests as written (apply_update.php:11, rollback_update.php:10). */
  const GuardKey: string := "authenticated"

  /** The key auth.php sets at sign-in, which every other page tests. */
  const SignedInKey: string := "artist_authenticated"

  /** The guard: the session holds `true` under key. */
  predicate Admits(session: map<string, Json>, key: string)
  {
    key in session && session[key] == JBool(true)
  }

  /** As written, no session auth.php can produce passes: a signed-in artist is refused too. */
  lemma {:induction false} AsWrittenRefusesArtist(d: Auth.SessionData)
    ensures !Admits(Auth.SessionVars(d), GuardKey)
  {
    var r := Auth.SessionVars(d);
    assert "authenticated" !in r;
  }

  /** The intended guard lets in exactly the signed-in sessions. */
  lemma {:induction false} AdmitsSignedIn(d: Auth.SessionData)
    ensures Admits(Auth.SessionVars(d), SignedInKey) <==> d.authenticated
  {
  }

  // ---------------------------------------------------------------------
  // Path filters

  const ConfigFile: string := "artist_config.php"
  /** Left out of the backup. */
  const BackupExcludedDirs: seq<string> := ["backups", "temp_update", "uploads", "logs", "dzi", ".git"]
  /** Never overwritten by an update or a rollback. */
  const PreservedDirs: seq<string> := ["uploads", "logs", "dzi", "backups", ".git"]

  /** The path is dir itself or lies under it. */
  predicate InDir(path: string, dir: string)
  {
    path == dir || StartsWith(path, dir + "/")
  }

  /** The skip test of the backup, copy and restore loops. */
  predicate Skipped(path: string, dirs: seq<string>, files: seq<string>)
  {
    path in files || exists i :: 0 <= i < |dirs| && InDir(path, dirs[i])
  }

  predicate BackupSkips(path: string) { Skipped(path, BackupExcludedDirs, [ConfigFile]) }
  predicate Preserves(path: string) { Skipped(path, PreservedDirs, [ConfigFile]) }

  /** The loop over the directories, leaving at the first match, and the file check. */
  method SkipTest(path: string, dirs: seq<string>, files: seq<string>) returns (skip: bool)
    ensures skip == Skipped(path, dirs, files)
  {
    skip := false;
    var i := 0;
    while i < |dirs|
      invariant 0 <= i <= |dirs|
      invariant !skip
      invariant forall k :: 0 <= k < i ==> !InDir(path, dirs[k])
    {
      if StartsWith(path, dirs[i] + "/") || path == dirs[i] {
        skip := true;
        break;
      }
      i := i + 1;
    }
    if path in files {
      skip := true;
    }
  }

  /** What the backup leaves out: the configuration file and six directory trees. */
  lemma {:induction false} BackupSkipsExactly(p: string)
    ensures BackupSkips(p) <==>
      p == ConfigFile || InDir(p, "backups") || InDir(p, "temp_update") || InDir(p, "uploads") ||
      InDir(p, "logs") || InDir(p, "dzi") || InDir(p, ".git")
  {
    var ds := BackupExcludedDirs;
    assert ds[0] == "backups" && ds[1] == "temp_update" && ds[2] == "uploads";
    assert ds[3] == "logs" && ds[4] == "dzi" && ds[5] == ".git";
  }

  /** What an update or a rollback leaves alone: the configuration file and five directory trees. */
  lemma {:induction false} PreservesExactly(p: string)
    ensures Preserves(p) <==>
      p == ConfigFile || InDir(p, "uploads") || InDir(p, "logs") || InDir(p, "dzi") ||
      InDir(p, "backups") || InDir(p, ".git")
  {
    var ds := PreservedDirs;
    assert ds[0] == "uploads" && ds[1] == "logs" && ds[2] == "dzi";
    assert ds[3] == "backups" && ds[4] == ".git";
  }

  /** The two filters differ only in the scratch directory, which is backed up never and preserved never. */
  lemma {:induction false} BackupSkipsPreservedAndScratch(p: string)
    ensures BackupSkips(p) <==> Preserves(p) || InDir(p, "temp_update")
  {
    BackupSkipsExactly(p);
    PreservesExactly(p);
  }

  /** A directory entry "q/" is skipped exactly when the directory q is. */
  lemma {:induction false} SlashedDir(q: string, dir: string)
    requires '/' !in dir
    ensures InDir(q + "/", dir) <==> InDir(q, dir)
  {
    if |q| >= |dir| + 1 {
      assert (q + "/")[..|dir| + 1] == q[..|dir| + 1];
    } else if |q| == |dir| {
      assert (q + "/")[..|dir| + 1] == q + "/";
      if q + "/" == dir + "/" {
        assert q == (q + "/")[..|q|] == (dir + "/")[..|dir|] == dir;
      }
    }
    assert (q + "/")[|q + "/"| - 1] == '/';
  }

  /** Whatever lies under a preserved directory has its parent there too, or is the directory's child. */
  lemma {:induction false} ParentInDir(r: string, dir: string)
    requires dir != "" && InDir(Parent(r), dir)
    ensures InDir(r, dir)
  {
    var p := Parent(r);
    assert p != "";
    if p == dir {
      assert r[..|dir|] == dir && r[|dir|] == '/';
      assert r[..|dir| + 1] == r[..|dir|] + [r[|dir|]];
    } else {
      assert r[..|dir| + 1] == p[..|dir| + 1];
    }
  }

  lemma {:induction false} ParentPreserved(r: string)
    requires Preserves(Parent(r)) && Parent(r) != ConfigFile
    ensures Preserves(r)
  {
    var i :| 0 <= i < |PreservedDirs| && InDir(Parent(r), PreservedDirs[i]);
    ParentInDir(r, PreservedDirs[i]);
  }

  // ---------------------------------------------------------------------
  // Backup

  /** The entry the backup loop adds for one walked path, if it adds one. */
  function BackupEntry(t: Tree, p: string): Option<Entry>
  {
    if p !in t || BackupSkips(p) then None
    else if t[p].Dir? then Some(Entry(p + "/", ""))
    else Some(Entry(p, t[p].data))
  }

  /** The entries of the backup, in the order the directory walk yields the paths. */
  function BackupEntries(t: Tree, walk: seq<string>): (r: seq<Entry>)
    ensures |r| <= |walk|
    decreases |walk|
  {
    if walk == [] then []
    else
      var init := BackupEntries(t, walk[..|walk| - 1]);
      var e := BackupEntry(t, walk[|walk| - 1]);
      if e.Some? then init + [e.value] else init
  }

  /** A directory's name without its trailing '/', a file's name as it is. */
  function EntryPath(name: string): string
  {
    if name != [] && name[|name| - 1] == '/' then name[..|name| - 1] else name
  }

  /** No backup entry comes from a skipped path, and each one holds what the tree holds there. */
  lemma {:induction false} BackupEntriesFaithful(t: Tree, walk: seq<string>)
    ensures forall e :: e in BackupEntries(t, walk) ==>
      exists p :: p in walk && BackupEntry(t, p) == Some(e) && p in t && !BackupSkips(p)
    decreases |walk|
  {
    if walk != [] {
      var init := walk[..|walk| - 1];
      BackupEntriesFaithful(t, init);
      forall e | e in BackupEntries(t, walk)
        ensures exists p :: p in walk && BackupEntry(t, p) == Some(e) && p in t && !BackupSkips(p)
      {
        if e in BackupEntries(t, init) {
          var p :| p in init && BackupEntry(t, p) == Some(e) && p in t && !BackupSkips(p);
          assert p in walk;
        } else {
          assert walk[|walk| - 1] in walk;
        }
      }
    }
  }

  /** Every file the walk reaches and the filter keeps is in the backup with its contents. */
  lemma {:induction false} BackupHoldsFiles(t: Tree, walk: seq<string>, p: string)
    requires p in walk && p in t && t[p].File? && !BackupSkips(p)
    ensures Entry(p, t[p].data) in BackupEntries(t, walk)
    decreases |walk|
  {
    var init := walk[..|walk| - 1];
    assert walk == init + [walk[|walk| - 1]];
    if walk[|walk| - 1] != p {
      BackupHoldsFiles(t, init, p);
    }
  }

  // ---------------------------------------------------------------------
  // Unpacked release

  /** The first directory among the extracted entries, "." and ".." aside. */
  function FirstDir(listing: seq<string>, unpacked: Tree): (r: Option<string>)
    decreases |listing|
  {
    if listing == [] then None
    else if IsRootCandidate(listing[0], unpacked) then Some(listing[0])
    else FirstDir(listing[1..], unpacked)
  }

  predicate IsRootCandidate(item: string, unpacked: Tree)
  {
    item != "." && item != ".." && item in unpacked && unpacked[item].Dir?
  }

  /** The release's root folder is the first candidate of the listing, and there is none exactly when no entry qualifies. */
  lemma {:induction false} FirstDirIsFirst(listing: seq<string>, unpacked: Tree)
    ensures FirstDir(listing, unpacked).None? <==> forall i :: 0 <= i < |listing| ==> !IsRootCandidate(listing[i], unpacked)
    ensures FirstDir(listing, unpacked).Some? ==>
      exists i :: 0 <= i < |listing| && listing[i] == FirstDir(listing, unpacked).value &&
        IsRootCandidate(listing[i], unpacked) &&
        forall k :: 0 <= k < i ==> !IsRootCandidate(listing[k], unpacked)
    decreases |listing|
  {
    if listing != [] && !IsRootCandidate(listing[0], unpacked) {
      FirstDirIsFirst(listing[1..], unpacked);
      if FirstDir(listing[1..], unpacked).Some? {
        var i :| 0 <= i < |listing[1..]| && listing[1..][i] == FirstDir(listing[1..], unpacked).value &&
          IsRootCandidate(listing[1..][i], unpacked) &&
          forall k :: 0 <= k < i ==> !IsRootCandidate(listing[1..][k], unpacked);
        assert listing[i + 1] == listing[1..][i];
        forall k | 0 <= k < i + 1 ensures !IsRootCandidate(listing[k], unpacked) {
          if k > 0 { assert listing[k] == listing[1..][k - 1]; }
        }
      } else {
        forall k | 0 <= k < |listing| ensures !IsRootCandidate(listing[k], unpacked) {
          if k > 0 { assert listing[k] == listing[1..][k - 1]; }
        }
      }
    }
  }

  /** The loop over scandir's entries that stops at the first directory. */
  method FindRoot(listing: seq<string>, unpacked: Tree) returns (root: Option<string>)
    ensures root == FirstDir(listing, unpacked)
  {
    root := None;
    var i := 0;
    while i < |listing|
      invariant 0 <= i <= |listing|
      invariant FirstDir(listing, unpacked) == FirstDir(listing[i..], unpacked)
    {
      assert listing[i..][0] == listing[i];
      assert listing[i..][1..] == listing[i + 1..];
      if IsRootCandidate(listing[i], unpacked) {
        root := Some(listing[i]);
        return;
      }
      i := i + 1;
    }
  }

  const CriticalFiles: seq<string> := ["index.php", "art.php", "auth.php", "version.php"]

  /** The first critical file missing under the root folder (file_exists is true of directories too). */
  function MissingCritical(unpacked: Tree, root: string, names: seq<string>): (r: Option<string>)
    ensures r.None? <==> forall i :: 0 <= i < |names| ==> root + "/" + names[i] in unpacked
    ensures r.Some? ==> r.value in names && root + "/" + r.value !in unpacked
    decreases |names|
  {
    if names == [] then None
    else if root + "/" + names[0] !in unpacked then Some(names[0])
    else
      var r := MissingCritical(unpacked, root, names[1..]);
      assert forall i :: 1 <= i < |names| ==> names[i] == names[1..][i - 1];
      r
  }

  method CheckCritical(unpacked: Tree, root: string) returns (missing: Option<string>)
    ensures missing == MissingCritical(unpacked, root, CriticalFiles)
  {
    var i := 0;
    while i < |CriticalFiles|
      invariant 0 <= i <= |CriticalFiles|
      invariant MissingCritical(unpacked, root, CriticalFiles) == MissingCritical(unpacked, root, CriticalFiles[i..])
    {
      assert CriticalFiles[i..][0] == CriticalFiles[i];
      assert CriticalFiles[i..][1..] == CriticalFiles[i + 1..];
      if root + "/" + CriticalFiles[i] !in unpacked {
        return Some(CriticalFiles[i]);
      }
      i := i + 1;
    }
    return None;
  }

  // ---------------------------------------------------------------------
  // Copy

  /** One step of the copy loop: the path rel of the release, found at prefix + rel. */
  function CopyStep(t: Tree, count: nat, unpacked: Tree, prefix: string, rel: string): (r: (Tree, nat))
  {
    var src := prefix + rel;
    if src !in unpacked || Preserves(rel) then (t, count)
    else if unpacked[src].Dir? then (MakeDir(t, rel), count)
    else (PutFile(t, rel, unpacked[src].data), count + 1)
  }

  /** The copy loop over the walk of the release's root folder: the new tree and copiedCount. */
  function Install(t: Tree, unpacked: Tree, prefix: string, walk: seq<string>): (r: (Tree, nat))
    decreases |walk|
  {
    if walk == [] then (t, 0)
    else
      var (u, n) := Install(t, unpacked, prefix, walk[..|walk| - 1]);
      CopyStep(u, n, unpacked, prefix, walk[|walk| - 1])
  }

  /** The walked paths that are files of the release and not preserved. */
  function CopiedFiles(unpacked: Tree, prefix: string, walk: seq<string>): (r: seq<string>)
    ensures forall x :: x in r <==> x in walk && prefix + x in unpacked && unpacked[prefix + x].File? && !Preserves(x)
    decreases |walk|
  {
    if walk == [] then []
    else
      var rel := walk[|walk| - 1];
      var init := CopiedFiles(unpacked, prefix, walk[..|walk| - 1]);
      assert forall x :: x in walk <==> x in walk[..|walk| - 1] || x == rel;
      if prefix + rel in unpacked && unpacked[prefix + rel].File? && !Preserves(rel) then init + [rel] else init
  }

  /** copiedCount counts the files copied, directories not included. */
  lemma {:induction false} CopiedCount(t: Tree, unpacked: Tree, prefix: string, walk: seq<string>)
    ensures Install(t, unpacked, prefix, walk).1 == |CopiedFiles(unpacked, prefix, walk)|
    decreases |walk|
  {
    if walk != [] {
      CopiedCount(t, unpacked, prefix, walk[..|walk| - 1]);
    }
  }

  /**
   * The copy leaves the preserved paths alone: what was there is kept as it
   * was, and nothing appears under a preserved directory.
   */
  lemma {:induction false} InstallKeepsPreserved(t: Tree, unpacked: Tree, prefix: string, walk: seq<string>)
    ensures var r := Install(t, unpacked, prefix, walk).0;
      (forall p :: Preserves(p) && p in t ==> p in r && r[p] == t[p]) &&
      (forall p :: Preserves(p) && p != ConfigFile ==> (p in r <==> p in t))
    decreases |walk|
  {
    if walk != [] {
      var init := walk[..|walk| - 1];
      InstallKeepsPreserved(t, unpacked, prefix, init);
      var rel := walk[|walk| - 1];
      if Preserves(Parent(rel)) && Parent(rel) != ConfigFile {
        ParentPreserved(rel);
      }
    }
  }

  /** The release's tree is well formed: each walked path's parent is a walked directory or the root. */
  ghost predicate Rooted(unpacked: Tree, prefix: string, walk: seq<string>)
  {
    forall r :: r in walk && prefix + r in unpacked ==>
      Parent(r) == "" || (prefix + Parent(r) in unpacked && unpacked[prefix + Parent(r)].Dir?)
  }

  /**
   * Every file of the release the filter lets through ends up installed
   * with the release's contents, unless a directory of the installation
   * stands in its way.
   */
  lemma {:induction false} InstallCopies(t: Tree, unpacked: Tree, prefix: string, walk: seq<string>, rel: string)
    requires Distinct(walk) && Rooted(unpacked, prefix, walk)
    requires rel in walk && prefix + rel in unpacked && unpacked[prefix + rel].File? && !Preserves(rel)
    requires rel !in t || t[rel].File?
    ensures var r := Install(t, unpacked, prefix, walk).0;
      rel in r && r[rel] == unpacked[prefix + rel]
  {
    InstallNoDirAt(t, unpacked, prefix, walk, rel);
  }

  /** The invariant behind InstallCopies, over every prefix of the walk. */
  lemma {:induction false} InstallNoDirAt(t: Tree, unpacked: Tree, prefix: string, walk: seq<string>, rel: string)
    requires Distinct(walk) && Rooted(unpacked, prefix, walk)
    requires prefix + rel in unpacked && unpacked[prefix + rel].File? && !Preserves(rel)
    requires rel !in t || t[rel].File?
    ensures var r := Install(t, unpacked, prefix, walk).0;
      (rel in walk ==> rel in r && r[rel] == unpacked[prefix + rel]) &&
      (rel !in walk ==> rel !in r || r[rel].File?)
    decreases |walk|
  {
    if walk != [] {
      var init := walk[..|walk| - 1];
      var last := walk[|walk| - 1];
      assert walk == init + [last];
      DistinctInit(walk);
      assert Rooted(unpacked, prefix, init);
      InstallNoDirAt(t, unpacked, prefix, init, rel);
      var (u, n) := Install(t, unpacked, prefix, init);
      if last == rel {
        CopyStepWrites(u, n, unpacked, prefix, rel);
      } else {
        assert last in walk;
        CopyStepKeeps(u, n, unpacked, prefix, last, rel);
      }
    }
  }

  lemma {:induction false} DistinctInit<T>(walk: seq<T>)
    requires walk != [] && Distinct(walk)
    ensures Distinct(walk[..|walk| - 1]) && walk[|walk| - 1] !in walk[..|walk| - 1]
  {
    var init := walk[..|walk| - 1];
    forall i, j | 0 <= i < j < |init| ensures init[i] != init[j] {
      assert init[i] == walk[i] && init[j] == walk[j];
    }
  }

  /** A file write lands unless a directory stands at its path. */
  lemma {:induction false} PutFileWrites(u: Tree, p: string, data: string)
    requires p !in u || u[p].File?
    ensures p in PutFile(u, p, data) && PutFile(u, p, data)[p] == File(data)
  {
    if p != "" {
      assert Parent(p) != p;
    }
  }

  /** A write elsewhere leaves p alone and puts no directory there, unless p is the written path's parent. */
  lemma {:induction false} PutFileElsewhere(u: Tree, q: string, data: string, p: string)
    requires q != p && (Parent(q) != p || p == "")
    ensures var r := PutFile(u, q, data);
      (p in u ==> p in r && r[p] == u[p]) && (p !in u ==> p !in r || r[p].File?)
  {
  }

  /** The step that copies rel writes the release's file there, unless a directory stands there. */
  lemma {:induction false} CopyStepWrites(u: Tree, n: nat, unpacked: Tree, prefix: string, rel: string)
    requires prefix + rel in unpacked && unpacked[prefix + rel].File? && !Preserves(rel)
    requires rel !in u || u[rel].File?
    ensures var r := CopyStep(u, n, unpacked, prefix, rel).0;
      rel in r && r[rel] == unpacked[prefix + rel]
  {
    var v := MakeDir(u, Parent(rel));
    if rel != "" {
      assert Parent(rel) != rel;
    }
    assert rel !in v || v[rel].File?;
  }

  /** Another path's step leaves rel as it is, as long as rel's parent is not what it makes. */
  lemma {:induction false} CopyStepKeeps(u: Tree, n: nat, unpacked: Tree, prefix: string, last: string, rel: string)
    requires last != rel && prefix + rel in unpacked && unpacked[prefix + rel].File?
    requires prefix + last in unpacked ==>
      Parent(last) == "" || (prefix + Parent(last) in unpacked && unpacked[prefix + Parent(last)].Dir?)
    ensures var r := CopyStep(u, n, unpacked, prefix, last).0;
      (rel in u ==> rel in r && r[rel] == u[rel]) &&
      (rel !in u ==> rel !in r || r[rel].File?)
  {
    if prefix + last in unpacked && Parent(last) == rel {
      assert rel == "";
    }
  }

  /** The copy loop. */
  method CopyRelease(t: Tree, unpacked: Tree, prefix: string, walk: seq<string>) returns (r: Tree, copied: nat)
    ensures (r, copied) == Install(t, unpacked, prefix, walk)
  {
    r, copied := t, 0;
    for i := 0 to |walk|
      invariant (r, copied) == Install(t, unpacked, prefix, walk[..i])
    {
      assert walk[..i + 1][..i] == walk[..i];
      var rel := walk[i];
      var src := prefix + rel;
      if src !in unpacked {
        continue;
      }
      var skip := SkipTest(rel, PreservedDirs, [ConfigFile]);
      if !skip {
        if unpacked[src].Dir? {
          if !(rel == "" || rel in r) {
            r := r[rel := Dir];
          }
        } else {
          r := PutFile(r, rel, unpacked[src].data);
          copied := copied + 1;
        }
      }
    }
    assert walk[..|walk|] == walk;
  }

  // ---------------------------------------------------------------------
  // Backup retention

  const KeptBackups: nat := 5

  predicate NewestFirst(s: seq<Backup>)
  {
    forall i, j :: 0 <= i < j < |s| ==> s[i].mtime >= s[j].mtime
  }

  /**
   * One insertion step: b goes before the first backup strictly older than
   * it, so it stays behind the ones of the same age (PHP 8's usort is stable).
   */
  function InsertByAge(b: Backup, s: seq<Backup>): (r: seq<Backup>)
    ensures |r| == |s| + 1
    ensures multiset(r) == multiset(s) + multiset{b}
    decreases |s|
  {
    if s == [] then [b]
    else if b.mtime > s[0].mtime then [b] + s
    else
      assert s == [s[0]] + s[1..];
      [s[0]] + InsertByAge(b, s[1..])
  }

  /** Inserting into a newest-first list keeps it newest first. */
  lemma {:induction false} InsertByAgeOrdered(b: Backup, s: seq<Backup>)
    requires NewestFirst(s)
    ensures NewestFirst(InsertByAge(b, s))
    decreases |s|
  {
    if s != [] && b.mtime <= s[0].mtime {
      var t := InsertByAge(b, s[1..]);
      InsertByAgeOrdered(b, s[1..]);
      forall k | 0 <= k < |t| ensures s[0].mtime >= t[k].mtime {
        assert t[k] in multiset(t);
        if t[k] != b {
          assert t[k] in multiset(s[1..]);
        }
      }
    }
  }

  /** usort by filemtime, newest first; archives of the same age stay in glob order. */
  function ByNewest(s: seq<Backup>): (r: seq<Backup>)
    ensures NewestFirst(r) && |r| == |s|
    ensures multiset(r) == multiset(s)
    decreases |s|
  {
    if s == [] then []
    else
      assert s == s[..|s| - 1] + [s[|s| - 1]];
      InsertByAgeOrdered(s[|s| - 1], ByNewest(s[..|s| - 1]));
      InsertByAge(s[|s| - 1], ByNewest(s[..|s| - 1]))
  }

  function Names(s: seq<Backup>): set<string>
  {
    set b | b in s :: b.name
  }

  /** What is left after unlinking the named archives. */
  function Without(s: seq<Backup>, names: set<string>): (r: seq<Backup>)
    ensures forall b :: b in r <==> b in s && b.name !in names
    decreases |s|
  {
    if s == [] then []
    else
      var init := Without(s[..|s| - 1], names);
      var last := s[|s| - 1];
      assert forall b :: b in s <==> b in s[..|s| - 1] || b == last;
      if last.name in names then init else init + [last]
  }

  predicate DistinctNames(s: seq<Backup>)
  {
    forall i, j :: 0 <= i < j < |s| ==> s[i].name != s[j].name
  }

  /** The step recorded by the retention, if it deletes anything. */
  function RetainNote(s: seq<Backup>): seq<string>
  {
    if |s| > KeptBackups then ["Deleted " + NatToString(|Doomed(s)|) + " old backup(s)"] else []
  }

  /** The archives deleted: all but the five newest, when there are more than five. */
  function Doomed(s: seq<Backup>): seq<Backup>
  {
    if |s| > KeptBackups then ByNewest(s)[KeptBackups..] else []
  }

  /**
   * Retention keeps exactly the first five of the newest-first order: every
   * survivor is at least as new as every deleted archive.
   */
  lemma {:induction false} Retention(s: seq<Backup>)
    requires DistinctNames(s)
    ensures var left := Without(s, Names(Doomed(s)));
      (|s| <= KeptBackups ==> left == s) &&
      (|s| > KeptBackups ==>
        |Doomed(s)| == |s| - KeptBackups &&
        (forall b :: b in left <==> b in ByNewest(s)[..KeptBackups]) &&
        (forall b, c :: b in left && c in s && c !in left ==> b.mtime >= c.mtime))
  {
    if |s| <= KeptBackups {
      assert Names(Doomed(s)) == {};
      WithoutNothing(s);
    } else {
      var r := ByNewest(s);
      var left := Without(s, Names(Doomed(s)));
      forall b ensures b in left <==> b in r[..KeptBackups] {
        if b in left {
          LeftIsKept(s, b);
        }
        if b in r[..KeptBackups] {
          KeptIsLeft(s, b);
        }
      }
      forall b, c | b in left && c in s && c !in left ensures b.mtime >= c.mtime {
        LeftIsKept(s, b);
        KeptNewer(s, b, c);
      }
    }
  }

  /** One of the five newest is at least as new as any archive outside them. */
  lemma {:induction false} KeptNewer(s: seq<Backup>, b: Backup, c: Backup)
    requires |s| > KeptBackups && b in ByNewest(s)[..KeptBackups] && c in s && c !in ByNewest(s)[..KeptBackups]
    ensures b.mtime >= c.mtime
  {
    var r := ByNewest(s);
    var i :| 0 <= i < KeptBackups && r[i] == b;
    assert c in multiset(r);
    var j :| 0 <= j < |r| && r[j] == c;
  }

  /** A survivor is one of the five newest. */
  lemma {:induction false} LeftIsKept(s: seq<Backup>, b: Backup)
    requires |s| > KeptBackups
    requires b in Without(s, Names(Doomed(s)))
    ensures b in ByNewest(s)[..KeptBackups]
  {
    var r := ByNewest(s);
    assert b in multiset(s);
    var i :| 0 <= i < |r| && r[i] == b;
  }

  /** One of the five newest survives: no deleted archive shares its name. */
  lemma {:induction false} KeptIsLeft(s: seq<Backup>, b: Backup)
    requires |s| > KeptBackups && DistinctNames(s)
    requires b in ByNewest(s)[..KeptBackups]
    ensures b in Without(s, Names(Doomed(s)))
  {
    var r := ByNewest(s);
    var i :| 0 <= i < KeptBackups && r[i] == b;
    assert b in multiset(r);
    if b.name in Names(r[KeptBackups..]) {
      var c :| c in r[KeptBackups..] && c.name == b.name;
      var j :| KeptBackups <= j < |r| && r[j] == c;
      assert c in multiset(s);
      SameNameSame(s, b, c);
      RepeatCounted(r, i, j);
      DistinctElements(s);
      MultiplicityInDistinct(s, b);
    }
  }

  lemma {:induction false} WithoutNothing(s: seq<Backup>)
    ensures Without(s, {}) == s
  {
    if s != [] {
      WithoutNothing(s[..|s| - 1]);
    }
  }

  lemma {:induction false} SameNameSame(s: seq<Backup>, b: Backup, c: Backup)
    requires DistinctNames(s) && b in s && c in s && b.name == c.name
    ensures b == c
  {
  }

  lemma {:induction false} DistinctElements(s: seq<Backup>)
    requires DistinctNames(s)
    ensures Distinct(s)
  {
  }

  // ---------------------------------------------------------------------
  // The endpoint

  /** What extracting the downloaded ZIP gives: scandir's listing of the extraction directory and the tree under it. */
  datatype Unpacked = Unpacked(listing: seq<string>, tree: Tree)

  /** curl_exec's result, the HTTP status, the size shown, and the archive (None when ZipArchive cannot open it). */
  datatype Download = Download(fetched: bool, httpCode: nat, sizeText: string, archive: Option<Unpacked>)

  /**
   * One request. The clock's stamp and time, whether the backup archive
   * can be created, the order of the directory walks and the download are
   * supplied by the environment.
   */
  datatype Request = Request(
    session: map<string, Json>,
    body: Option<Json>,
    stamp: string,
    now: int,
    backupOpens: bool,
    siteWalk: seq<string>,
    download: Download,
    releaseWalk: seq<string>)

  datatype Reply =
    | Refused(code: nat, error: string)
    | Failed(error: string, steps: seq<string>)
    | Applied(steps: seq<string>, newVersion: Option<string>, backupFile: string)

  datatype Site = Site(files: Tree, backups: seq<Backup>)

  /** `$input['download_url'] ?? null`, refused when falsy. */
  function DownloadUrl(body: Option<Json>): (r: Option<Json>)
    ensures r.Some? ==> !EmptyJson(r.value)
  {
    if body.Some? && body.value.JObj? && "download_url" in body.value.fields &&
       !EmptyJson(body.value.fields["download_url"])
    then Some(body.value.fields["download_url"]) else None
  }

  function BackupName(stamp: string): string { "backup_" + stamp + ".zip" }

  /** How the download and the checks on the release end: the exception's message, or the release's root folder. */
  datatype Fetched = Fault(error: string) | Root(folder: string)

  function Fetch(d: Download): (r: Fetched)
  {
    if !d.fetched || d.httpCode != 200 then Fault("Failed to download update (HTTP " + NatToString(d.httpCode) + ")")
    else if d.archive.None? then Fault("Failed to open update ZIP")
    else
      var root := FirstDir(d.archive.value.listing, d.archive.value.tree);
      if root.None? then Fault("Invalid update package structure")
      else
        var missing := MissingCritical(d.archive.value.tree, root.value, CriticalFiles);
        if missing.Some? then Fault("Missing critical file: " + missing.value)
        else Root(root.value)
  }

  /** The steps recorded from the download on, up to the point where Fetch gives up or succeeds. */
  function FetchSteps(d: Download): seq<string>
  {
    var downloaded := ["Update downloaded: " + d.sizeText + " MB"];
    if !d.fetched || d.httpCode != 200 then []
    else if d.archive.None? then downloaded
    else if Fetch(d).Fault? then downloaded + ["Update extracted"]
    else downloaded + ["Update extracted", "Critical files verified"]
  }

  /**
   * The whole request as a function of the state before it; key is the
   * session key the guard tests (GuardKey in the source).
   */
  function Run(s: Site, q: Request, key: string): (r: (Reply, Site))
  {
    if !Admits(q.session, key) then (Refused(403, "Authentication required"), s)
    else if DownloadUrl(q.body).None? then (Refused(400, "Missing download_url"), s)
    else
      var files := MakeDir(s.files, "backups");
      var steps := ["Created backups directory"];
      if !q.backupOpens then
        (Failed("Failed to create backup ZIP", steps), Site(PruneDir(files, "temp_update"), s.backups))
      else
        var name := BackupName(q.stamp);
        var backups := s.backups + [Backup(name, q.now, BackupEntries(files, q.siteWalk))];
        var steps := steps + ["Backup created: " + name, "Downloading update from GitHub..."];
        var fetched := Fetch(q.download);
        var steps := steps + FetchSteps(q.download);
        if fetched.Fault? then
          (Failed(fetched.error, steps), Site(PruneDir(files, "temp_update"), backups))
        else
          var (installed, copied) := Install(files, q.download.archive.value.tree, fetched.folder + "/", q.releaseWalk);
          var steps := steps + ["Updated " + NatToString(copied) + " files", "Cleanup completed"] + RetainNote(backups);
          var files := PruneDir(installed, "temp_update");
          (Applied(steps, InstalledVersion(files), name), Site(files, Without(backups, Names(Doomed(backups)))))
  }

  // ---------------------------------------------------------------------
  // What a request guarantees

  /** 403 without the signed-in flag, 400 without a usable download_url; nothing changes then. */
  lemma {:induction false} RunRefuses(s: Site, q: Request, key: string)
    ensures !Admits(q.session, key) ==> Run(s, q, key) == (Refused(403, "Authentication required"), s)
    ensures Admits(q.session, key) && DownloadUrl(q.body).None? ==> Run(s, q, key) == (Refused(400, "Missing download_url"), s)
    ensures Run(s, q, key).0.Refused? <==> !Admits(q.session, key) || DownloadUrl(q.body).None?
  {
  }

  /** As written, a session signed in through auth.php gets 403 and nothing changes. */
  lemma {:induction false} SignedInRefused(s: Site, q: Request, d: Auth.SessionData)
    requires q.session == Auth.SessionVars(d) && d.authenticated
    ensures Run(s, q, GuardKey) == (Refused(403, "Authentication required"), s)
  {
    AsWrittenRefusesArtist(d);
  }

  /** Testing the key auth.php sets, a signed-in request with a download_url gets past the guard. */
  lemma {:induction false} SignedInAdmitted(s: Site, q: Request, d: Auth.SessionData)
    requires q.session == Auth.SessionVars(d) && d.authenticated && DownloadUrl(q.body).Some?
    ensures !Run(s, q, SignedInKey).0.Refused?
  {
    AdmitsSignedIn(d);
  }

  /**
   * A failed update installs nothing: the installed files are as before
   * apart from the backups directory and the scratch directory, and the
   * backup, once written, is kept.
   */
  lemma {:induction false} FailureInstallsNothing(s: Site, q: Request, key: string)
    requires Run(s, q, key).0.Failed?
    ensures Run(s, q, key).1.files == PruneDir(MakeDir(s.files, "backups"), "temp_update")
    ensures q.backupOpens ==>
      Run(s, q, key).1.backups == s.backups + [Backup(BackupName(q.stamp), q.now, BackupEntries(MakeDir(s.files, "backups"), q.siteWalk))]
    ensures !q.backupOpens ==> Run(s, q, key).1.backups == s.backups
    ensures q.backupOpens ==> Fetch(q.download).Fault?
  {
  }

  /** The preserved paths never lie in the scratch directory. */
  lemma {:induction false} PreservedNotScratch(p: string)
    requires Preserves(p)
    ensures !InDir(p, "temp_update")
  {
    PreservesExactly(p);
    if p == ConfigFile {
      assert p[0] == 'a';
    } else if InDir(p, "uploads") {
      InDirFirst(p, "uploads");
    } else if InDir(p, "logs") {
      InDirFirst(p, "logs");
    } else if InDir(p, "dzi") {
      InDirFirst(p, "dzi");
    } else if InDir(p, "backups") {
      InDirFirst(p, "backups");
    } else {
      InDirFirst(p, ".git");
    }
    if InDir(p, "temp_update") {
      InDirFirst(p, "temp_update");
    }
  }

  lemma {:induction false} InDirFirst(p: string, dir: string)
    requires dir != "" && InDir(p, dir)
    ensures p != "" && p[0] == dir[0]
  {
    if p != dir {
      assert p[..|dir| + 1][0] == (dir + "/")[0];
    }
  }

  /** A successful update leaves the configuration file and the preserved directories as they were. */
  lemma {:induction false} SuccessKeepsPreserved(s: Site, q: Request, p: string, key: string)
    requires Run(s, q, key).0.Applied? && Preserves(p) && p in s.files
    ensures p in Run(s, q, key).1.files && Run(s, q, key).1.files[p] == s.files[p]
  {
    var files := MakeDir(s.files, "backups");
    var root := Fetch(q.download).folder;
    InstallKeepsPreserved(files, q.download.archive.value.tree, root + "/", q.releaseWalk);
    PreservedNotScratch(p);
  }

  /**
   * A successful update installs each file of the release that the filter
   * lets through, with the release's contents, and reports how many it
   * copied.
   */
  lemma {:induction false} SuccessInstalls(s: Site, q: Request, rel: string, key: string)
    requires Run(s, q, key).0.Applied?
    requires var u := q.download.archive.value.tree; var prefix := Fetch(q.download).folder + "/";
      Distinct(q.releaseWalk) && Rooted(u, prefix, q.releaseWalk) &&
      rel in q.releaseWalk && prefix + rel in u && u[prefix + rel].File? && !Preserves(rel)
    requires (rel !in s.files || s.files[rel].File?) && !InDir(rel, "temp_update")
    ensures var u := q.download.archive.value.tree; var prefix := Fetch(q.download).folder + "/";
      rel in Run(s, q, key).1.files && Run(s, q, key).1.files[rel] == u[prefix + rel]
    ensures var u := q.download.archive.value.tree; var prefix := Fetch(q.download).folder + "/";
      "Updated " + NatToString(|CopiedFiles(u, prefix, q.releaseWalk)|) + " files" in Run(s, q, key).0.steps
  {
    var u := q.download.archive.value.tree;
    var prefix := Fetch(q.download).folder + "/";
    var files := MakeDir(s.files, "backups");
    PreservesExactly(rel);
    assert rel != "backups";
    InstallCopies(files, u, prefix, q.releaseWalk, rel);
    CopiedCount(files, u, prefix, q.releaseWalk);
  }

  /** After a successful update the backups directory holds the five newest archives, the new one counted. */
  lemma {:induction false} SuccessRetains(s: Site, q: Request, key: string)
    requires Run(s, q, key).0.Applied?
    requires DistinctNames(s.backups) && forall b :: b in s.backups ==> b.name != BackupName(q.stamp)
    ensures var all := s.backups + [Backup(BackupName(q.stamp), q.now, BackupEntries(MakeDir(s.files, "backups"), q.siteWalk))];
      var left := Run(s, q, key).1.backups;
      (|all| <= KeptBackups ==> left == all) &&
      (|all| > KeptBackups ==>
        (forall b :: b in left <==> b in ByNewest(all)[..KeptBackups]) &&
        (forall b, c :: b in left && c in all && c !in left ==> b.mtime >= c.mtime))
  {
    var all := s.backups + [Backup(BackupName(q.stamp), q.now, BackupEntries(MakeDir(s.files, "backups"), q.siteWalk))];
    assert DistinctNames(all) by {
      forall i, j | 0 <= i < j < |all| ensures all[i].name != all[j].name {
        if j < |s.backups| {
          assert all[i] == s.backups[i] && all[j] == s.backups[j];
        } else {
          assert all[i] in s.backups;
        }
      }
    }
    Retention(all);
  }

  // ---------------------------------------------------------------------
  // The endpoint, step by step

  /** The installation root's files and the archives under backups/, in glob order. */
  class Installation {
    var files: Tree
    var backups: seq<Backup>

    constructor (initialFiles: Tree, initialBackups: seq<Backup>)
      ensures files == initialFiles && backups == initialBackups
    {
      files := initialFiles;
      backups := initialBackups;
    }

    function State(): Site
      reads this
    {
      Site(files, backups)
    }

    /** The request, following the source's order of effects. */
    method Apply(q: Request) returns (reply: Reply)
      modifies this
      ensures (reply, State()) == Run(old(State()), q, GuardKey)
    {
      if !Admits(q.session, GuardKey) {
        return Refused(403, "Authentication required");
      }
      var url := DownloadUrl(q.body);
      if url.None? {
        return Refused(400, "Missing download_url");
      }
      if "backups" !in files {
        files := files["backups" := Dir];
      }
      var steps := ["Created backups directory"];
      if !q.backupOpens {
        files := PruneDir(files, "temp_update");
        return Failed("Failed to create backup ZIP", steps);
      }
      var name := BackupName(q.stamp);
      var entries := WriteBackup(q.siteWalk);
      backups := backups + [Backup(name, q.now, entries)];
      steps := steps + ["Backup created: " + name, "Downloading update from GitHub..."];
      reply := Update(q, name, steps);
    }

    /** From the download on: fetch, check, copy, clean up, prune the backups. */
    method Update(q: Request, name: string, steps0: seq<string>) returns (reply: Reply)
      modifies this
      ensures Fetch(q.download).Fault? ==>
        reply == Failed(Fetch(q.download).error, steps0 + FetchSteps(q.download)) &&
        files == PruneDir(old(files), "temp_update") && backups == old(backups)
      ensures Fetch(q.download).Root? ==>
        var (installed, copied) := Install(old(files), q.download.archive.value.tree, Fetch(q.download).folder + "/", q.releaseWalk);
        files == PruneDir(installed, "temp_update") &&
        backups == Without(old(backups), Names(Doomed(old(backups)))) &&
        reply == Applied(steps0 + FetchSteps(q.download) + ["Updated " + NatToString(copied) + " files", "Cleanup completed"] +
                         RetainNote(old(backups)), InstalledVersion(files), name)
    {
      var fetched, more := Fetching(q.download);
      if fetched.Fault? {
        files := PruneDir(files, "temp_update");
        return Failed(fetched.error, steps0 + more);
      }
      var installed, copied := CopyRelease(files, q.download.archive.value.tree, fetched.folder + "/", q.releaseWalk);
      files := PruneDir(installed, "temp_update");
      var note := Retain();
      return Applied(steps0 + more + ["Updated " + NatToString(copied) + " files", "Cleanup completed"] + note,
                     InstalledVersion(files), name);
    }

    /** Step 8: with more than five archives, all but the five newest are unlinked. */
    method Retain() returns (note: seq<string>)
      modifies this
      ensures files == old(files)
      ensures backups == Without(old(backups), Names(Doomed(old(backups))))
      ensures note == RetainNote(old(backups))
    {
      note := [];
      if |backups| > KeptBackups {
        var doomed := ByNewest(backups)[KeptBackups..];
        RemoveBackups(doomed);
        note := ["Deleted " + NatToString(|doomed|) + " old backup(s)"];
      } else {
        assert Names(Doomed(backups)) == {};
        WithoutNothing(backups);
      }
    }

    /** The backup loop over the walk of the installation. */
    method WriteBackup(walk: seq<string>) returns (entries: seq<Entry>)
      ensures entries == BackupEntries(files, walk)
    {
      entries := [];
      for i := 0 to |walk|
        invariant entries == BackupEntries(files, walk[..i])
      {
        assert walk[..i + 1][..i] == walk[..i];
        var p := walk[i];
        if p !in files {
          continue;
        }
        var skip := SkipTest(p, BackupExcludedDirs, [ConfigFile]);
        if !skip {
          if files[p].Dir? {
            entries := entries + [Entry(p + "/", "")];
          } else {
            entries := entries + [Entry(p, files[p].data)];
          }
        }
      }
      assert walk[..|walk|] == walk;
    }

    /** The unlink loop over the archives to delete. */
    method RemoveBackups(doomed: seq<Backup>)
      modifies this
      ensures files == old(files)
      ensures backups == Without(old(backups), Names(doomed))
    {
      assert Names(doomed[..0]) == {};
      WithoutNothing(backups);
      for i := 0 to |doomed|
        invariant files == old(files)
        invariant backups == Without(old(backups), Names(doomed[..i]))
      {
        WithoutMore(old(backups), Names(doomed[..i]), doomed[i].name);
        assert doomed[..i + 1] == doomed[..i] + [doomed[i]];
        NamesSnoc(doomed[..i], doomed[i]);
        backups := Without(backups, {doomed[i].name});
      }
      assert doomed[..|doomed|] == doomed;
    }
  }

  /** The download, the extraction and the checks on the release, with the steps they record. */
  method Fetching(d: Download) returns (fetched: Fetched, steps: seq<string>)
    ensures fetched == Fetch(d) && steps == FetchSteps(d)
  {
    steps := [];
    if !d.fetched || d.httpCode != 200 {
      return Fault("Failed to download update (HTTP " + NatToString(d.httpCode) + ")"), steps;
    }
    steps := steps + ["Update downloaded: " + d.sizeText + " MB"];
    if d.archive.None? {
      return Fault("Failed to open update ZIP"), steps;
    }
    var unpacked := d.archive.value;
    steps := steps + ["Update extracted"];
    var root := FindRoot(unpacked.listing, unpacked.tree);
    if root.None? {
      return Fault("Invalid update package structure"), steps;
    }
    var missing := CheckCritical(unpacked.tree, root.value);
    if missing.Some? {
      return Fault("Missing critical file: " + missing.value), steps;
    }
    steps := steps + ["Critical files verified"];
    return Root(root.value), steps;
  }

  lemma {:induction false} NamesSnoc(s: seq<Backup>, b: Backup)
    ensures Names(s + [b]) == Names(s) + {b.name}
  {
    assert forall x :: x in s + [b] <==> x in s || x == b;
  }

  /** Unlinking one more name after a set of names. */
  lemma {:induction false} WithoutMore(s: seq<Backup>, names: set<string>, n: string)
    ensures Without(Without(s, names), {n}) == Without(s, names + {n})
    decreases |s|
  {
    if s != [] {
      WithoutMore(s[..|s| - 1], names, n);
    }
  }
}
