// The rollback endpoint (api/rollback_update.php): restores the newest
// backup archive over the installation, leaving the configuration file and
// the preserved directories alone.
module RollbackUpdate {
  import opened Common
  import opened ApplyUpdate

  /** The archive restored: the first one once they are sorted newest first. */
  function Latest(backups: seq<Backup>): (r: Option<Backup>)
  {
    if backups == [] then None else Some(ByNewest(backups)[0])
  }

  /** There is an archive to restore exactly when the directory holds one, and it is one of the newest. */
  lemma {:induction false} LatestIsNewest(backups: seq<Backup>)
    ensures Latest(backups).None? <==> backups == []
    ensures Latest(backups).Some? ==>
      Latest(backups).value in backups &&
      forall b :: b in backups ==> b.mtime <= Latest(backups).value.mtime
  {
    if backups != [] {
      var r := ByNewest(backups);
      assert r[0] in multiset(r);
      forall b | b in backups ensures b.mtime <= r[0].mtime {
        assert b in multiset(backups);
        var j :| 0 <= j < |r| && r[j] == b;
      }
    }
  }

  /** backups[k] is newest, and every archive listed before it is strictly older. */
  predicate FirstOfNewest(backups: seq<Backup>, k: nat)
  {
    k < |backups| &&
    (forall j :: 0 <= j < |backups| ==> backups[j].mtime <= backups[k].mtime) &&
    (forall j :: 0 <= j < k ==> backups[j].mtime < backups[k].mtime)
  }

  /**
   * Among archives of the same age the one restored is the earliest in glob
   * order.
   */
  lemma {:induction false} LatestFirstOfNewest(backups: seq<Backup>) returns (k: nat)
    requires backups != []
    ensures FirstOfNewest(backups, k) && Latest(backups) == Some(backups[k])
    decreases |backups|
  {
    var n := |backups|;
    if n == 1 {
      k := 0;
      assert ByNewest(backups) == InsertByAge(backups[0], []);
    } else {
      var k0 := LatestFirstOfNewest(backups[..n - 1]);
      ByNewestHead(backups);
      k := ExtendFirstOfNewest(backups, k0);
    }
  }

  /** One more archive in glob order: it takes over only if strictly newer. */
  lemma {:induction false} ExtendFirstOfNewest(s: seq<Backup>, k0: nat) returns (k: nat)
    requires |s| >= 2 && FirstOfNewest(s[..|s| - 1], k0)
    ensures FirstOfNewest(s, k)
    ensures s[k] == if s[|s| - 1].mtime > s[..|s| - 1][k0].mtime then s[|s| - 1] else s[..|s| - 1][k0]
  {
    var n := |s|;
    var init := s[..n - 1];
    assert init[k0] == s[k0];
    k := if s[n - 1].mtime > s[k0].mtime then n - 1 else k0;
    forall j | 0 <= j < n ensures s[j].mtime <= s[k].mtime {
      if j < n - 1 {
        assert s[j] == init[j];
      }
    }
    forall j | 0 <= j < k ensures s[j].mtime < s[k].mtime {
      assert s[j] == init[j];
    }
  }

  /** The head after sorting: the last archive in glob order wins only if strictly newer. */
  lemma {:induction false} ByNewestHead(s: seq<Backup>)
    requires |s| >= 2
    ensures var h := ByNewest(s[..|s| - 1])[0];
      ByNewest(s)[0] == if s[|s| - 1].mtime > h.mtime then s[|s| - 1] else h
  {
    InsertHead(s[|s| - 1], ByNewest(s[..|s| - 1]));
  }

  lemma {:induction false} InsertHead(b: Backup, r: seq<Backup>)
    requires r != []
    ensures InsertByAge(b, r)[0] == if b.mtime > r[0].mtime then b else r[0]
  {
  }

  predicate IsDirEntry(name: string) { name != [] && name[|name| - 1] == '/' }

  /** One entry of the archive: preserved names are skipped, "q/" makes q, anything else is written and counted. */
  function RestoreStep(t: Tree, count: nat, e: Entry): (r: (Tree, nat))
  {
    if Preserves(e.name) then (t, count)
    else if IsDirEntry(e.name) then (MakeDir(t, EntryPath(e.name)), count)
    else (PutFile(t, e.name, e.data), count + 1)
  }

  /** The loop over the archive's entries: the restored tree and extractedCount. */
  function Restore(t: Tree, entries: seq<Entry>): (r: (Tree, nat))
    decreases |entries|
  {
    if entries == [] then (t, 0)
    else
      var (u, n) := Restore(t, entries[..|entries| - 1]);
      RestoreStep(u, n, entries[|entries| - 1])
  }

  /** The entries that are written: neither preserved nor directories. */
  function RestoredFiles(entries: seq<Entry>): (r: seq<Entry>)
    ensures forall e :: e in r <==> e in entries && !Preserves(e.name) && !IsDirEntry(e.name)
    decreases |entries|
  {
    if entries == [] then []
    else
      var e := entries[|entries| - 1];
      var init := RestoredFiles(entries[..|entries| - 1]);
      assert forall x :: x in entries <==> x in entries[..|entries| - 1] || x == e;
      if !Preserves(e.name) && !IsDirEntry(e.name) then init + [e] else init
  }

  /** extractedCount counts the files written, directory entries not included. */
  lemma {:induction false} RestoredCount(t: Tree, entries: seq<Entry>)
    ensures Restore(t, entries).1 == |RestoredFiles(entries)|
    decreases |entries|
  {
    if entries != [] {
      RestoredCount(t, entries[..|entries| - 1]);
    }
  }

  /** A directory entry of a preserved directory is itself preserved. */
  lemma {:induction false} DirEntryPreserved(name: string)
    requires IsDirEntry(name) && Preserves(EntryPath(name)) && EntryPath(name) != ConfigFile
    ensures Preserves(name)
  {
    var q := EntryPath(name);
    assert name == q + "/";
    var i :| 0 <= i < |PreservedDirs| && InDir(q, PreservedDirs[i]);
    var ds := PreservedDirs;
    assert ds[0] == "uploads" && ds[1] == "logs" && ds[2] == "dzi" && ds[3] == "backups" && ds[4] == ".git";
    assert '/' !in PreservedDirs[i];
    SlashedDir(q, PreservedDirs[i]);
  }

  /**
   * The rollback leaves the preserved paths alone: what was there is kept
   * as it was, and nothing appears under a preserved directory.
   */
  lemma {:induction false} RestoreKeepsPreserved(t: Tree, entries: seq<Entry>)
    ensures var r := Restore(t, entries).0;
      (forall p :: Preserves(p) && p in t ==> p in r && r[p] == t[p]) &&
      (forall p :: Preserves(p) && p != ConfigFile ==> (p in r <==> p in t))
    decreases |entries|
  {
    if entries != [] {
      RestoreKeepsPreserved(t, entries[..|entries| - 1]);
      var e := entries[|entries| - 1];
      if !Preserves(e.name) {
        if IsDirEntry(e.name) {
          var q := EntryPath(e.name);
          if Preserves(q) && q != ConfigFile {
            DirEntryPreserved(e.name);
          }
        } else if Preserves(Parent(e.name)) && Parent(e.name) != ConfigFile {
          ParentPreserved(e.name);
        }
      }
    }
  }

  /** No walked path names a directory with a trailing '/'. */
  predicate NoTrailingSlash(walk: seq<string>)
  {
    forall i :: 0 <= i < |walk| ==> !IsDirEntry(walk[i])
  }

  /**
   * Rolling back to a backup restores every file the backup took, with the
   * contents it had then, unless a directory now stands at its path.
   */
  lemma {:induction false} RollbackRestoresBackup(current: Tree, earlier: Tree, walk: seq<string>, p: string)
    requires Distinct(walk) && Rooted(earlier, "", walk) && NoTrailingSlash(walk)
    requires p in walk && p in earlier && earlier[p].File? && !BackupSkips(p)
    requires p !in current || current[p].File?
    ensures var r := Restore(current, BackupEntries(earlier, walk)).0;
      p in r && r[p] == earlier[p]
  {
    RestoreNoDirAt(current, earlier, walk, p);
  }

  /** The invariant behind RollbackRestoresBackup, over every prefix of the walk. */
  lemma {:induction false} RestoreNoDirAt(current: Tree, earlier: Tree, walk: seq<string>, p: string)
    requires Distinct(walk) && Rooted(earlier, "", walk) && NoTrailingSlash(walk)
    requires p in earlier && earlier[p].File? && !BackupSkips(p)
    requires p !in current || current[p].File?
    ensures var r := Restore(current, BackupEntries(earlier, walk)).0;
      (p in walk ==> p in r && r[p] == earlier[p]) &&
      (p !in walk ==> p !in r || r[p].File?)
    decreases |walk|
  {
    if walk != [] {
      var init := walk[..|walk| - 1];
      var last := walk[|walk| - 1];
      assert walk == init + [last];
      DistinctInit(walk);
      assert Rooted(earlier, "", init) && NoTrailingSlash(init);
      RestoreNoDirAt(current, earlier, init, p);
      var es := BackupEntries(earlier, init);
      var (u, n) := Restore(current, es);
      var e := BackupEntry(earlier, last);
      if e.Some? {
        assert (es + [e.value])[..|es|] == es;
        assert last in walk && "" + last == last && "" + Parent(last) == Parent(last);
        RestoreStepAt(u, n, earlier, last, p);
      }
    }
  }

  /** One step of the round trip: the backup's entry for last writes p when last is p, and leaves p alone otherwise. */
  lemma {:induction false} RestoreStepAt(u: Tree, n: nat, earlier: Tree, last: string, p: string)
    requires BackupEntry(earlier, last).Some? && !IsDirEntry(last)
    requires last in earlier ==> Parent(last) == "" || (Parent(last) in earlier && earlier[Parent(last)].Dir?)
    requires p in earlier && earlier[p].File? && !BackupSkips(p)
    ensures var r := RestoreStep(u, n, BackupEntry(earlier, last).value).0;
      (last == p && (p !in u || u[p].File?) ==> p in r && r[p] == earlier[p]) &&
      (last != p ==> (p in u ==> p in r && r[p] == u[p]) && (p !in u ==> p !in r || r[p].File?))
  {
    if last == p {
      BackupSkipsPreservedAndScratch(p);
      if p !in u || u[p].File? {
        PutFileWrites(u, p, earlier[p].data);
      }
    } else if earlier[last].Dir? {
      assert EntryPath(last + "/") == last;
    } else {
      PutFileElsewhere(u, last, earlier[last].data, p);
    }
  }

  // ---------------------------------------------------------------------
  // The endpoint

  datatype Answer =
    | Denied(code: nat, error: string)
    | Aborted(error: string, steps: seq<string>)
    | RolledBack(steps: seq<string>, restoredVersion: Option<string>, backupFile: string)

  /**
   * The request, given whether ZipArchive can open the newest archive; key
   * is the session key the guard tests (GuardKey in the source).
   */
  function Rollback(s: Site, session: map<string, Json>, opens: bool, key: string): (r: (Answer, Site))
  {
    if !Admits(session, key) then (Denied(403, "Authentication required"), s)
    else if s.backups == [] then (Aborted("No backup files found", []), s)
    else
      var latest := Latest(s.backups).value;
      var steps := ["Found backup: " + latest.name];
      if !opens then (Aborted("Failed to open backup ZIP", steps), s)
      else
        var (files, n) := Restore(s.files, latest.entries);
        (RolledBack(steps + ["Restored " + NatToString(n) + " files"], InstalledVersion(files), latest.name),
         Site(files, s.backups))
  }

  /** Only the installed files change, and only when an archive was restored. */
  lemma {:induction false} RollbackChangesOnlyFiles(s: Site, session: map<string, Json>, opens: bool, key: string)
    ensures Rollback(s, session, opens, key).1.backups == s.backups
    ensures !Rollback(s, session, opens, key).0.RolledBack? ==> Rollback(s, session, opens, key).1 == s
    ensures Rollback(s, session, opens, key).0.RolledBack? <==> Admits(session, key) && s.backups != [] && opens
  {
  }

  /** As written, a session signed in through auth.php gets 403 and nothing is restored. */
  lemma {:induction false} RollbackRefusesSignedIn(s: Site, d: Auth.SessionData, opens: bool)
    requires d.authenticated
    ensures Rollback(s, Auth.SessionVars(d), opens, GuardKey) == (Denied(403, "Authentication required"), s)
  {
    AsWrittenRefusesArtist(d);
  }

  /** Testing the key auth.php sets, a signed-in rollback with an openable archive is carried out. */
  lemma {:induction false} RollbackAdmitsSignedIn(s: Site, d: Auth.SessionData)
    requires d.authenticated && s.backups != []
    ensures Rollback(s, Auth.SessionVars(d), true, SignedInKey).0.RolledBack?
  {
    AdmitsSignedIn(d);
  }

  /** A rollback restores the newest archive and reports how many files it wrote. */
  lemma {:induction false} RollbackRestoresNewest(s: Site, session: map<string, Json>, opens: bool, key: string)
    requires Rollback(s, session, opens, key).0.RolledBack?
    ensures var b := Latest(s.backups).value;
      b in s.backups && (forall c :: c in s.backups ==> c.mtime <= b.mtime) &&
      Rollback(s, session, opens, key).1.files == Restore(s.files, b.entries).0 &&
      Rollback(s, session, opens, key).0.steps ==
        ["Found backup: " + b.name, "Restored " + NatToString(|RestoredFiles(b.entries)|) + " files"]
  {
    LatestIsNewest(s.backups);
    RestoredCount(s.files, Latest(s.backups).value.entries);
  }

  /** The extraction loop. */
  method RestoreEntries(t: Tree, entries: seq<Entry>) returns (r: Tree, extracted: nat)
    ensures (r, extracted) == Restore(t, entries)
  {
    r, extracted := t, 0;
    for i := 0 to |entries|
      invariant (r, extracted) == Restore(t, entries[..i])
    {
      assert entries[..i + 1][..i] == entries[..i];
      var name := entries[i].name;
      var skip := SkipTest(name, PreservedDirs, [ConfigFile]);
      if !skip {
        if name != [] && name[|name| - 1] == '/' {
          var dest := name[..|name| - 1];
          if !(dest == "" || dest in r) {
            r := r[dest := Dir];
          }
        } else {
          r := PutFile(r, name, entries[i].data);
          extracted := extracted + 1;
        }
      }
    }
    assert entries[..|entries|] == entries;
  }

  /** The request against the installation, following the source's order of effects. */
  method RollbackInstallation(inst: Installation, session: map<string, Json>, opens: bool) returns (answer: Answer)
    modifies inst
    ensures (answer, inst.State()) == Rollback(old(inst.State()), session, opens, GuardKey)
  {
    if !Admits(session, GuardKey) {
      return Denied(403, "Authentication required");
    }
    if inst.backups == [] {
      return Aborted("No backup files found", []);
    }
    var sorted := ByNewest(inst.backups);
    var latest := sorted[0];
    var steps := ["Found backup: " + latest.name];
    if !opens {
      return Aborted("Failed to open backup ZIP", steps);
    }
    var files, extracted := RestoreEntries(inst.files, latest.entries);
    inst.files := files;
    steps := steps + ["Restored " + NatToString(extracted) + " files"];
    return RolledBack(steps, InstalledVersion(inst.files), latest.name);
  }
}
