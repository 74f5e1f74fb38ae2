// The part of the server's filesystem the gallery touches, seen from its
// uploads directory: a map from paths to directories and files. Creating a
// directory or writing a file can fail (permissions, a full disk, a file
// where a directory should be); the paths where the environment refuses
// writes are a fixed set. Deleting never fails in this model.
module FileStore {
  import opened Common

  /**
   * One path component. The pyramid's components are kept structured, so
   * that their on-disk spellings ("<base>_files", "<base>.dzi", "<level>",
   * "<col>_<row>.jpg", see DziGeometry) need no parsing here.
   */
  datatype Seg =
    | Name(name: string)
    | FilesDir(filesOf: string)
    | Descriptor(descriptorOf: string)
    | LevelDir(level: nat)
    | Tile(col: nat, row: nat)

  type Path = seq<Seg>

  /** File contents: text, or a raster reduced to its size. */
  datatype Blob = Text(text: string) | Image(width: Pos, height: Pos)

  datatype Node = Dir | File(blob: Blob)

  /** p is dir or lies below it. */
  predicate Under(dir: Path, p: Path)
  {
    |dir| <= |p| && p[..|dir|] == dir
  }

  /** p lies strictly below dir. */
  predicate Below(dir: Path, p: Path)
  {
    Under(dir, p) && |dir| < |p|
  }

  predicate IsDirIn(m: map<Path, Node>, p: Path)
  {
    p in m && m[p].Dir?
  }

  /** Top-level entries sit in the uploads directory, which always exists. */
  predicate ParentIsDir(m: map<Path, Node>, p: Path)
  {
    |p| <= 1 || IsDirIn(m, p[..|p| - 1])
  }

  /** Whether mkdir(p) succeeds in state m: nothing may exist at p yet. */
  predicate MkdirOk(m: map<Path, Node>, failing: set<Path>, p: Path)
  {
    p !in failing && p !in m && ParentIsDir(m, p)
  }

  /** Whether writing a file at p succeeds in state m: p may not be a directory. */
  predicate WriteOk(m: map<Path, Node>, failing: set<Path>, p: Path)
  {
    p !in failing && !IsDirIn(m, p) && ParentIsDir(m, p)
  }

  /** The state after `if (!is_dir(p)) mkdir(p)` succeeded. */
  function EnsureDir(m: map<Path, Node>, p: Path): (r: map<Path, Node>)
    ensures IsDirIn(r, p)
  {
    if IsDirIn(m, p) then m else m[p := Dir]
  }

  /** The map without dir and everything below it. */
  function Prune(m: map<Path, Node>, dir: Path): (r: map<Path, Node>)
    ensures forall p :: p in r <==> p in m && !Under(dir, p)
  {
    map p | p in m && !Under(dir, p) :: m[p]
  }

  /** Two states that agree everywhere except strictly below dir. */
  ghost predicate SameOutside(a: map<Path, Node>, b: map<Path, Node>, dir: Path)
  {
    (forall p :: !Below(dir, p) ==> (p in a <==> p in b)) &&
    (forall p :: p in a && !Below(dir, p) ==> p in b && a[p] == b[p])
  }

  lemma {:induction false} SameOutsidePrune(a: map<Path, Node>, b: map<Path, Node>, dir: Path)
    requires SameOutside(a, b, dir)
    ensures Prune(a, dir) == Prune(b, dir)
  {
    assert forall p :: Under(dir, p) || !Below(dir, p);
  }

  lemma {:induction false} SameOutsideTrans(a: map<Path, Node>, b: map<Path, Node>, c: map<Path, Node>, dir: Path)
    requires SameOutside(a, b, dir) && SameOutside(b, c, dir)
    ensures SameOutside(a, c, dir)
  {
  }

  /**
   * Removing a deepest remaining path next keeps the removal order
   * children-first: nothing still to be removed lies below it.
   */
  lemma {:induction false} DeepestFirst(order: seq<Path>, doomed: set<Path>, p: Path)
    requires p in doomed && forall q :: q in doomed ==> |q| <= |p|
    requires forall i, j :: 0 <= i < j < |order| ==> !Below(order[i], order[j])
    requires forall i, q :: 0 <= i < |order| && q in doomed ==> !Below(order[i], q)
    ensures forall i, j :: 0 <= i < j < |order + [p]| ==> !Below((order + [p])[i], (order + [p])[j])
    ensures forall i, q :: 0 <= i < |order + [p]| && q in doomed - {p} ==> !Below((order + [p])[i], q)
  {
  }

  /** Some path of s is at least as long as every other. */
  lemma {:induction false} DeepestExists(s: set<Path>)
    requires s != {}
    ensures exists p :: p in s && forall q :: q in s ==> |q| <= |p|
  {
    var x :| x in s;
    if s == {x} {
      assert forall q :: q in s ==> q == x;
    } else {
      DeepestExists(s - {x});
      var y :| y in s - {x} && forall q :: q in s - {x} ==> |q| <= |y|;
      if |x| > |y| {
        assert forall q :: q in s ==> |q| <= |x|;
      } else {
        assert forall q :: q in s ==> |q| <= |y|;
      }
    }
  }

  class FileSystem {
    var entries: map<Path, Node>
    /** Where mkdir and file writes are refused. */
    const failing: set<Path>

    constructor (initial: map<Path, Node>, refused: set<Path>)
      ensures entries == initial && failing == refused
    {
      entries := initial;
      failing := refused;
    }

    predicate Exists(p: Path)
      reads this
    {
      p in entries
    }

    predicate IsDir(p: Path)
      reads this
    {
      IsDirIn(entries, p)
    }

    /** Whether mkdir(p) would succeed now. */
    predicate CanMkdir(p: Path)
      reads this
    {
      MkdirOk(entries, failing, p)
    }

    /** Whether writing a file at p would succeed now. */
    predicate CanWrite(p: Path)
      reads this
    {
      WriteOk(entries, failing, p)
    }

    /** mkdir: fails when anything already exists at p. */
    method Mkdir(p: Path) returns (ok: bool)
      modifies this
      ensures ok == old(CanMkdir(p))
      ensures entries == if ok then old(entries)[p := Dir] else old(entries)
    {
      ok := CanMkdir(p);
      if ok {
        entries := entries[p := Dir];
      }
    }

    /** file_put_contents / writeImage: creates or overwrites a file. */
    method WriteFile(p: Path, b: Blob) returns (ok: bool)
      modifies this
      ensures ok == old(CanWrite(p))
      ensures entries == if ok then old(entries)[p := File(b)] else old(entries)
    {
      ok := CanWrite(p);
      if ok {
        entries := entries[p := File(b)];
      }
    }

    /** file_exists(p) && unlink(p): removes a file, reporting whether one was there. */
    method Unlink(p: Path) returns (removed: bool)
      modifies this
      ensures removed == (p in old(entries) && old(entries)[p].File?)
      ensures entries == if removed then old(entries) - {p} else old(entries)
    {
      removed := p in entries && entries[p].File?;
      if removed {
        entries := entries - {p};
      }
    }

    /**
     * Recursive removal (rrmdir in generate_dzi.php, deleteDirectory in
     * delete.php and settings.php). Does nothing and reports false unless
     * dir is a directory; otherwise removes dir and everything below it,
     * each entry after everything below it, and reports true.
     */
    method RemoveTree(dir: Path) returns (removed: bool, ghost order: seq<Path>)
      modifies this
      ensures removed == old(IsDir(dir))
      ensures entries == if removed then Prune(old(entries), dir) else old(entries)
      ensures forall p :: p in order <==> p in old(entries) && Under(dir, p) && removed
      ensures forall i, j :: 0 <= i < j < |order| ==> !Below(order[i], order[j])
    {
      order := [];
      removed := IsDir(dir);
      if !removed {
        return;
      }
      var doomed := set p | p in entries.Keys && Under(dir, p);
      while doomed != {}
        invariant forall p :: p in doomed <==> p in entries && Under(dir, p)
        invariant forall p :: p in entries <==> p in old(entries) && (!Under(dir, p) || p in doomed)
        invariant forall p :: p in entries ==> entries[p] == old(entries)[p]
        invariant forall p :: p in order <==> p in old(entries) && Under(dir, p) && p !in doomed
        invariant forall i, j :: 0 <= i < j < |order| ==> !Below(order[i], order[j])
        invariant forall i, q :: 0 <= i < |order| && q in doomed ==> !Below(order[i], q)
        decreases |doomed|
      {
        DeepestExists(doomed);
        var p :| p in doomed && forall q :: q in doomed ==> |q| <= |p|;
        DeepestFirst(order, doomed, p);
        entries := entries - {p};
        doomed := doomed - {p};
        order := order + [p];
      }
      assert forall p :: p in entries <==> p in old(entries) && !Under(dir, p);
    }
  }
}
