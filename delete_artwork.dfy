// The delete endpoint (delete.php): removes an artwork's original, its
// resized copies, its deep-zoom pyramid and its metadata entry, and reports
// what it removed.

module DeleteArtwork {
  import opened Common
  import opened FileStore
  import opened DziGenerator
  import opened GalleryFiles
  import MetaUpdate

  /** The upload files removed: the original and its large, medium, small and social copies (not `_map`). */
  function Versions(filename: string): seq<string>
  {
    [filename, SizedName(filename, "large"), SizedName(filename, "medium"),
     SizedName(filename, "small"), SizedName(filename, "social")]
  }

  function Targets(names: seq<string>): set<Path>
  {
    set n | n in names :: SourcePath(n)
  }

  predicate IsFileIn(m: map<Path, Node>, p: Path) { p in m && m[p].File? }

  /**
   * The loop over the versions: each one that is a file is unlinked and
   * recorded. Returns the new state and the recorded names.
   */
  function UnlinkEach(m: map<Path, Node>, names: seq<string>): (r: (map<Path, Node>, seq<string>))
    ensures forall p :: p in r.0 <==> p in m && !(p in Targets(names) && m[p].File?)
    ensures forall p :: p in r.0 ==> r.0[p] == m[p]
    ensures forall n :: n in r.1 <==> n in names && IsFileIn(m, SourcePath(n))
    decreases |names|
  {
    if names == [] then (m, [])
    else
      var init := names[..|names| - 1];
      var last := names[|names| - 1];
      var prev := UnlinkEach(m, init);
      assert names == init + [last];
      assert Targets(names) == Targets(init) + {SourcePath(last)};
      var p := SourcePath(last);
      if IsFileIn(prev.0, p) then (prev.0 - {p}, prev.1 + [last]) else prev
  }

  /** The whole removal as a function of the state before it. */
  function Removal(m: map<Path, Node>, filename: string): (r: (map<Path, Node>, seq<string>))
  {
    var name := Stem(filename);
    var (m1, d1) := UnlinkEach(m, Versions(filename));
    var (m2, d2) := if IsFileIn(m1, DescriptorPath(name))
                    then (m1 - {DescriptorPath(name)}, d1 + ["dzi/" + name + ".dzi"]) else (m1, d1);
    if IsDirIn(m2, FilesPath(name)) then (Prune(m2, FilesPath(name)), d2 + ["dzi/" + name + "_files/ (tiles)"])
    else (m2, d2)
  }

  datatype Reply = Reply(code: nat, deleted: seq<string>)

  /**
   * The request: 401 without a session, 405 for anything but POST, 400 for
   * a missing or unsafe filename; otherwise the removal, and 404 when
   * nothing at all was removed.
   */
  method Delete(fs: FileSystem, store: MetaUpdate.MetaStore, authenticated: bool, isPost: bool,
                input: map<string, Json>) returns (reply: Reply)
    modifies fs, store
    ensures !authenticated ==> reply.code == 401
    ensures authenticated && !isPost ==> reply.code == 405
    ensures authenticated && isPost && MetaUpdate.FileArg(MetaUpdate.Arg(input, "filename")).None? ==> reply.code == 400
    ensures reply.code in {401, 405, 400} ==> fs.entries == old(fs.entries) && store.metadata == old(store.metadata)
    ensures reply.code !in {401, 405, 400} ==>
      var filename := MetaUpdate.FileArg(MetaUpdate.Arg(input, "filename")).value;
      var (m, d) := Removal(old(fs.entries), filename);
      var deleted := d + (if filename in old(store.metadata) then ["metadata entry"] else []);
      && fs.entries == m
      && store.metadata == old(store.metadata) - {filename}
      && reply.deleted == deleted
      && (reply.code == 404 <==> deleted == [])
      && (reply.code == 200 <==> deleted != [])
  {
    if !authenticated {
      return Reply(401, []);
    }
    if !isPost {
      return Reply(405, []);
    }
    var arg := MetaUpdate.FileArg(MetaUpdate.Arg(input, "filename"));
    if arg.None? {
      return Reply(400, []);
    }
    var filename := arg.value;
    var deleted := RemoveFiles(fs, filename);
    if filename in store.metadata {
      store.metadata := store.metadata - {filename};
      deleted := deleted + ["metadata entry"];
    }
    if deleted == [] {
      return Reply(404, []);
    }
    return Reply(200, deleted);
  }

  /** The file part of the request: versions, descriptor, tile tree. */
  method RemoveFiles(fs: FileSystem, filename: string) returns (deleted: seq<string>)
    modifies fs
    ensures (fs.entries, deleted) == Removal(old(fs.entries), filename)
  {
    var name := Stem(filename);
    deleted := UnlinkVersions(fs, Versions(filename));
    var removed := fs.Unlink(DescriptorPath(name));
    if removed {
      deleted := deleted + ["dzi/" + name + ".dzi"];
    }
    if fs.IsDir(FilesPath(name)) {
      var tiles, _ := fs.RemoveTree(FilesPath(name));
      if tiles {
        deleted := deleted + ["dzi/" + name + "_files/ (tiles)"];
      }
    }
  }

  /** The foreach over the versions: file_exists, then unlink, then record. */
  method UnlinkVersions(fs: FileSystem, versions: seq<string>) returns (deleted: seq<string>)
    modifies fs
    ensures (fs.entries, deleted) == UnlinkEach(old(fs.entries), versions)
  {
    deleted := [];
    for i := 0 to |versions|
      invariant (fs.entries, deleted) == UnlinkEach(old(fs.entries), versions[..i])
    {
      assert versions[..i + 1][..i] == versions[..i];
      var removed := fs.Unlink(SourcePath(versions[i]));
      if removed {
        deleted := deleted + [versions[i]];
      }
    }
    assert versions[..|versions|] == versions;
  }

  /** Length of a variant name: the stem, the extension, the size and two separators. */
  lemma {:induction false} SizedNameLength(filename: string, size: string)
    ensures |SizedName(filename, size)| == |Stem(filename)| + |size| + 2 + |Extension(filename)|
    ensures |filename| <= |Stem(filename)| + 1 + |Extension(filename)|
  {
  }

  /** The `_map` copy is not one of the removed versions, so it survives. */
  lemma {:induction false} MapCopyKept(m: map<Path, Node>, filename: string)
    requires SourcePath(SizedName(filename, "map")) in m
    ensures SourcePath(SizedName(filename, "map")) in Removal(m, filename).0
  {
    var mapName := SizedName(filename, "map");
    SizedNameLength(filename, "map");
    SizedNameLength(filename, "large");
    SizedNameLength(filename, "medium");
    SizedNameLength(filename, "small");
    SizedNameLength(filename, "social");
    assert mapName !in Versions(filename);
    assert SourcePath(mapName) !in Targets(Versions(filename));
    assert !Under(FilesPath(Stem(filename)), SourcePath(mapName));
  }

  /**
   * Only targets go: an entry that disappears is a version file, the
   * descriptor, or lies in the tile directory; every other entry keeps its contents.
   */
  lemma {:induction false} OnlyTargetsRemoved(m: map<Path, Node>, filename: string, p: Path)
    requires p in m
    ensures var name := Stem(filename);
      p !in Removal(m, filename).0 ==>
        p in Targets(Versions(filename)) || p == DescriptorPath(name) || Under(FilesPath(name), p)
    ensures p in Removal(m, filename).0 ==> Removal(m, filename).0[p] == m[p]
  {
  }

  /** Every target that existed is gone afterwards. */
  lemma {:induction false} TargetsGone(m: map<Path, Node>, filename: string)
    ensures var name := Stem(filename); var r := Removal(m, filename).0;
      && (forall n :: n in Versions(filename) && IsFileIn(m, SourcePath(n)) ==> SourcePath(n) !in r)
      && (IsFileIn(m, DescriptorPath(name)) ==> DescriptorPath(name) !in r)
      && (IsDirIn(m, FilesPath(name)) ==> forall p :: Under(FilesPath(name), p) ==> p !in r)
  {
    var name := Stem(filename);
    var m1 := UnlinkEach(m, Versions(filename)).0;
    assert DescriptorPath(name) !in Targets(Versions(filename));
    assert FilesPath(name) !in Targets(Versions(filename));
  }

  predicate NoSlash(s: string) { forall i :: 0 <= i < |s| ==> s[i] != '/' }

  lemma {:induction false} VersionsNoSlash(filename: string)
    requires NoSlash(filename)
    ensures forall k :: 0 <= k < |Versions(filename)| ==> NoSlash(Versions(filename)[k])
  {
    SizedNoSlash(filename, "large");
    SizedNoSlash(filename, "medium");
    SizedNoSlash(filename, "small");
    SizedNoSlash(filename, "social");
  }

  lemma {:induction false} SizedNoSlash(filename: string, size: string)
    requires NoSlash(filename) && NoSlash(size)
    ensures NoSlash(SizedName(filename, size))
  {
    var st := Stem(filename);
    var ext := Extension(filename);
    assert NoSlash(st) && NoSlash(ext);
    var v := SizedName(filename, size);
    assert v == st + ("_" + size + "." + ext);
    forall i | 0 <= i < |v| ensures v[i] != '/' {
      if i >= |st| + |size| + 2 {
        assert v[i] == ext[i - |st| - |size| - 2];
      } else if i > |st| && i <= |st| + |size| {
        assert v[i] == size[i - |st| - 1];
      }
    }
  }

  /**
   * For a file name without '/', a version is reported exactly when it was
   * a file before the call: the report lines for the pyramid cannot be
   * mistaken for it.
   */
  lemma {:induction false} DeletedNamesRemoved(m: map<Path, Node>, filename: string, n: string)
    requires NoSlash(filename) && n in Versions(filename)
    ensures n in Removal(m, filename).1 <==> IsFileIn(m, SourcePath(n))
  {
    var name := Stem(filename);
    VersionsNoSlash(filename);
    var descriptorLine := "dzi/" + name + ".dzi";
    var tilesLine := "dzi/" + name + "_files/ (tiles)";
    assert descriptorLine[3] == '/' && tilesLine[3] == '/';
    assert |n| <= 3 || n[3] != '/';
    assert n != descriptorLine && n != tilesLine;
  }
}
