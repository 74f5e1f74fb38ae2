// generate_dzi.php: builds the tile pyramid of one uploaded image under
// uploads/dzi/, with the descriptor written last as the commit point and the
// tile tree removed again whenever a step fails after it was created. Also
// the small helpers around it: dziExists, getDZIPath and shouldGenerateDZI.
module DziGenerator {
  import opened Common
  import opened DziGeometry
  import opened FileStore

  // Paths relative to the uploads directory.
  function SourcePath(filename: string): Path { [Name(filename)] }
  function DziDirPath(): Path { [Name("dzi")] }
  function FilesPath(base: string): Path { [Name("dzi"), FilesDir(base)] }
  function DescriptorPath(base: string): Path { [Name("dzi"), Descriptor(base)] }
  function LevelPath(base: string, l: nat): Path { [Name("dzi"), FilesDir(base), LevelDir(l)] }
  function TilePath(base: string, l: nat, c: nat, r: nat): Path
  {
    [Name("dzi"), FilesDir(base), LevelDir(l), Tile(c, r)]
  }

  /** The result array of generateDZI, one constructor per return statement. */
  datatype Outcome =
    | NotFound
    | AlreadyExists
    | DziDirFailed
    | FilesDirFailed
    | LevelDirFailed(level: nat)
    | ImagickFailed
    | DescriptorFailed
    | Generated(tiles: nat, levels: nat, width: Pos, height: Pos)
  {
    predicate Success() { AlreadyExists? || Generated? }
  }

  /**
   * The size Imagick reports for the source after auto-orientation, or None
   * when loading it throws (a directory, or a file that is not an image).
   */
  function SourceSize(m: map<Path, Node>, filename: string): Option<(Pos, Pos)>
  {
    var p := SourcePath(filename);
    if p in m && m[p].File? && m[p].blob.Image? then Some((m[p].blob.width, m[p].blob.height))
    else None
  }

  // ---------------------------------------------------------------------
  // The pyramid as a set of paths

  /** The size of one pyramid level, and its tile grid. */
  datatype LevelPlan = LevelPlan(width: nat, height: nat)
  {
    function Cols(): nat { GridCount(width) }
    function Rows(): nat { GridCount(height) }
  }

  /** The level sizes of the pyramid of a w x h image, level 0 first. */
  function Plan(w: Pos, h: Pos): (r: seq<LevelPlan>)
    ensures |r| == MaxLevel(w, h) + 1
    ensures forall l :: 0 <= l < |r| ==> r[l] == LevelPlan(LevelWidth(w, h, l), LevelHeight(w, h, l))
  {
    seq(MaxLevel(w, h) + 1,
        l requires 0 <= l <= MaxLevel(w, h) => LevelPlan(LevelWidth(w, h, l), LevelHeight(w, h, l)))
  }

  predicate IsLevelOf(base: string, plan: seq<LevelPlan>, p: Path)
  {
    |p| == 3 && p[0] == Name("dzi") && p[1] == FilesDir(base)
    && p[2].LevelDir? && p[2].level < |plan|
  }

  predicate IsTileOf(base: string, plan: seq<LevelPlan>, p: Path)
  {
    |p| == 4 && p[0] == Name("dzi") && p[1] == FilesDir(base)
    && p[2].LevelDir? && p[2].level < |plan| && p[3].Tile?
    && p[3].col < plan[p[2].level].Cols() && p[3].row < plan[p[2].level].Rows()
  }

  predicate InPyramid(base: string, plan: seq<LevelPlan>, p: Path)
  {
    IsLevelOf(base, plan, p) || IsTileOf(base, plan, p)
  }

  /** Tile (c, r) of level l holds the crop of the level image. */
  function TileImage(plan: seq<LevelPlan>, l: nat, c: nat, r: nat): Blob
    requires l < |plan| && c < plan[l].Cols() && r < plan[l].Rows()
  {
    CropInsideLevel(c, plan[l].width);
    CropInsideLevel(r, plan[l].height);
    Image(Crop(c, plan[l].width).len, Crop(r, plan[l].height).len)
  }

  /** What the pyramid holds at p: a directory per level, a crop per tile. */
  function PyramidNode(base: string, plan: seq<LevelPlan>, p: Path): Node
    requires InPyramid(base, plan, p)
  {
    if |p| == 3 then Dir else File(TileImage(plan, p[2].level, p[3].col, p[3].row))
  }

  /**
   * Progress through the pyramid. Levels above `level` are complete; at
   * `level` the directory exists once row >= 0, rows before `row` are
   * complete and in row `row` the columns before `col`.
   */
  predicate Done(base: string, plan: seq<LevelPlan>, p: Path, level: int, row: int, col: int)
  {
    (IsLevelOf(base, plan, p) && (p[2].level > level || (p[2].level == level && row >= 0)))
    || (IsTileOf(base, plan, p)
        && (p[2].level > level
            || (p[2].level == level && (p[3].row < row || (p[3].row == row && p[3].col < col)))))
  }

  /** m is pre with the finished part of the pyramid laid over it. */
  ghost predicate Matches(m: map<Path, Node>, pre: map<Path, Node>, base: string, plan: seq<LevelPlan>,
                          level: int, row: int, col: int)
  {
    (forall p :: p in m <==> p in pre || Done(base, plan, p, level, row, col)) &&
    (forall p :: p in m ==>
       m[p] == if Done(base, plan, p, level, row, col) then PyramidNode(base, plan, p) else pre[p])
  }

  /**
   * Whether creating p fails when the pyramid is laid over pre: a level
   * directory fails if anything is already there, a tile if a directory is.
   */
  predicate Blocked(failing: set<Path>, pre: map<Path, Node>, p: Path)
  {
    p in failing || (if |p| == 3 then p in pre else IsDirIn(pre, p))
  }

  ghost predicate PyramidClear(failing: set<Path>, pre: map<Path, Node>, base: string, plan: seq<LevelPlan>)
  {
    forall p :: InPyramid(base, plan, p) ==> !Blocked(failing, pre, p)
  }

  /** m is pre with the whole pyramid and the descriptor text xml laid over it. */
  ghost predicate Published(m: map<Path, Node>, pre: map<Path, Node>, base: string, plan: seq<LevelPlan>,
                            xml: string)
  {
    (forall p :: p in m <==> p in pre || InPyramid(base, plan, p) || p == DescriptorPath(base)) &&
    (forall p :: p in m ==>
       m[p] == if p == DescriptorPath(base) then File(Text(xml))
               else if InPyramid(base, plan, p) then PyramidNode(base, plan, p)
               else pre[p])
  }

  lemma {:induction false} NextLevel(base: string, plan: seq<LevelPlan>, l: nat)
    requires l < |plan|
    ensures forall p :: Done(base, plan, p, l, plan[l].Rows(), 0) <==> Done(base, plan, p, l - 1, -1, 0)
  {
  }

  lemma {:induction false} NextRow(base: string, plan: seq<LevelPlan>, l: nat, r: nat)
    requires l < |plan|
    ensures forall p :: Done(base, plan, p, l, r, plan[l].Cols()) <==> Done(base, plan, p, l, r + 1, 0)
  {
  }

  /** Writing one tile advances the progress by one column. */
  lemma {:induction false} TileStep(m: map<Path, Node>, pre: map<Path, Node>, failing: set<Path>, base: string,
                 plan: seq<LevelPlan>, l: nat, row: nat, col: nat)
    requires l < |plan| && row < plan[l].Rows() && col < plan[l].Cols()
    requires Matches(m, pre, base, plan, l, row, col)
    ensures WriteOk(m, failing, TilePath(base, l, col, row)) <==> !Blocked(failing, pre, TilePath(base, l, col, row))
    ensures Matches(m[TilePath(base, l, col, row) := File(TileImage(plan, l, col, row))],
                    pre, base, plan, l, row, col + 1)
    ensures SameOutside(m[TilePath(base, l, col, row) := File(TileImage(plan, l, col, row))], m, FilesPath(base))
  {
    var t := TilePath(base, l, col, row);
    assert t[..3] == LevelPath(base, l);
    assert Done(base, plan, LevelPath(base, l), l, row, col);
    assert InPyramid(base, plan, t) && !Done(base, plan, t, l, row, col);
    forall p: Path
      ensures Done(base, plan, p, l, row, col + 1) <==> Done(base, plan, p, l, row, col) || p == t
    {
      if IsTileOf(base, plan, p) && p[2].level == l && p[3].row == row && p[3].col == col {
        assert p == t;
      }
    }
  }

  /** Creating a level directory starts that level. */
  lemma {:induction false} LevelDirStep(m: map<Path, Node>, pre: map<Path, Node>, failing: set<Path>, base: string,
                     plan: seq<LevelPlan>, l: nat)
    requires l < |plan|
    requires IsDirIn(pre, FilesPath(base))
    requires Matches(m, pre, base, plan, l, -1, 0)
    ensures MkdirOk(m, failing, LevelPath(base, l)) <==> !Blocked(failing, pre, LevelPath(base, l))
    ensures Matches(m[LevelPath(base, l) := Dir], pre, base, plan, l, 0, 0)
    ensures SameOutside(m[LevelPath(base, l) := Dir], m, FilesPath(base))
  {
    var d := LevelPath(base, l);
    assert d[..2] == FilesPath(base) && !Done(base, plan, FilesPath(base), l, -1, 0);
    assert InPyramid(base, plan, d) && !Done(base, plan, d, l, -1, 0);
    forall p: Path
      ensures Done(base, plan, p, l, 0, 0) <==> Done(base, plan, p, l, -1, 0) || p == d
    {
      if IsLevelOf(base, plan, p) && p[2].level == l {
        assert p == d;
      }
    }
  }

  /** Once every level is done, writing the descriptor publishes the pyramid. */
  lemma {:induction false} PublishStep(m: map<Path, Node>, pre: map<Path, Node>, failing: set<Path>, base: string,
                    plan: seq<LevelPlan>, xml: string)
    requires Matches(m, pre, base, plan, -1, -1, 0)
    ensures WriteOk(m, failing, DescriptorPath(base)) <==> WriteOk(pre, failing, DescriptorPath(base))
    ensures Published(m[DescriptorPath(base) := File(Text(xml))], pre, base, plan, xml)
  {
    var d := DescriptorPath(base);
    assert d[..1] == DziDirPath() && !Done(base, plan, DziDirPath(), -1, -1, 0);
    assert !Done(base, plan, d, -1, -1, 0);
    assert forall p :: Done(base, plan, p, -1, -1, 0) <==> InPyramid(base, plan, p);
  }

  // ---------------------------------------------------------------------
  // Tiling, shared with the e-mail ingester's copy

  /**
   * The size of tile (col, row) of level l. With emailCrop it is computed
   * the way the e-mail ingester does it, which may in principle yield an
   * empty crop that the ingester then skips; it never does, and both ways
   * give the same rectangle (DziGeometry.CropsAgree).
   */
  method CutTile(plan: seq<LevelPlan>, l: nat, col: nat, row: nat, emailCrop: bool) returns (tw: int, th: int)
    requires l < |plan| && col < plan[l].Cols() && row < plan[l].Rows()
    ensures tw > 0 && th > 0 && Image(tw, th) == TileImage(plan, l, col, row)
  {
    var lw, lh := plan[l].width, plan[l].height;
    CropInsideLevel(col, lw);
    CropInsideLevel(row, lh);
    if emailCrop {
      CropsAgree(col, lw);
      CropsAgree(row, lh);
      var (x, w) := EmailCrop(col, GridCount(lw), lw);
      var (y, h) := EmailCrop(row, GridCount(lh), lh);
      tw, th := w, h;
    } else {
      tw, th := Crop(col, lw).len, Crop(row, lh).len;
    }
  }

  /** Tile (col, row) of level l: cut it, then write it. */
  method RenderTile(fs: FileSystem, ghost pre: map<Path, Node>, base: string, plan: seq<LevelPlan>,
                    l: nat, row: nat, col: nat, emailCrop: bool) returns (saved: bool)
    requires l < |plan| && row < plan[l].Rows() && col < plan[l].Cols()
    requires Matches(fs.entries, pre, base, plan, l, row, col)
    modifies fs
    ensures saved <==> !Blocked(fs.failing, pre, TilePath(base, l, col, row))
    ensures saved ==> Matches(fs.entries, pre, base, plan, l, row, col + 1)
    ensures SameOutside(fs.entries, old(fs.entries), FilesPath(base))
  {
    TileStep(fs.entries, pre, fs.failing, base, plan, l, row, col);
    var tw, th := CutTile(plan, l, col, row, emailCrop);
    // the e-mail ingester skips an empty crop; CutTile shows there never is one
    assert tw > 0 && th > 0;
    saved := fs.WriteFile(TilePath(base, l, col, row), Image(tw, th));
  }

  /** One row of tiles of level l, left to right. */
  method RenderRow(fs: FileSystem, ghost pre: map<Path, Node>, base: string, plan: seq<LevelPlan>,
                   l: nat, row: nat, emailCrop: bool) returns (ok: bool, written: nat)
    requires l < |plan| && row < plan[l].Rows()
    requires Matches(fs.entries, pre, base, plan, l, row, 0)
    modifies fs
    ensures ok <==> forall c :: 0 <= c < plan[l].Cols() ==> !Blocked(fs.failing, pre, TilePath(base, l, c, row))
    ensures ok ==> Matches(fs.entries, pre, base, plan, l, row + 1, 0)
    ensures ok ==> written == plan[l].Cols()
    ensures SameOutside(fs.entries, old(fs.entries), FilesPath(base))
  {
    var cols := plan[l].Cols();
    var col := 0;
    written := 0;
    while col < cols
      invariant 0 <= col <= cols && written == col
      invariant Matches(fs.entries, pre, base, plan, l, row, col)
      invariant forall c :: 0 <= c < col ==> !Blocked(fs.failing, pre, TilePath(base, l, c, row))
      invariant SameOutside(fs.entries, old(fs.entries), FilesPath(base))
    {
      ghost var before := fs.entries;
      var saved := RenderTile(fs, pre, base, plan, l, row, col, emailCrop);
      if !saved {
        return false, written;
      }
      SameOutsideTrans(fs.entries, before, old(fs.entries), FilesPath(base));
      written := written + 1;
      col := col + 1;
    }
    NextRow(base, plan, l, row);
    ok := true;
  }

  /** All rows of level l, once its directory exists. */
  method RenderLevel(fs: FileSystem, ghost pre: map<Path, Node>, base: string, plan: seq<LevelPlan>,
                     l: nat, emailCrop: bool) returns (ok: bool, written: nat)
    requires l < |plan|
    requires Matches(fs.entries, pre, base, plan, l, 0, 0)
    modifies fs
    ensures ok <==> forall p: Path :: IsTileOf(base, plan, p) && p[2].level == l ==> !Blocked(fs.failing, pre, p)
    ensures ok ==> Matches(fs.entries, pre, base, plan, l - 1, -1, 0)
    ensures ok ==> written == plan[l].Cols() * plan[l].Rows()
    ensures SameOutside(fs.entries, old(fs.entries), FilesPath(base))
  {
    var rows := plan[l].Rows();
    var cols := plan[l].Cols();
    var row := 0;
    written := 0;
    while row < rows
      invariant 0 <= row <= rows && written == row * cols
      invariant Matches(fs.entries, pre, base, plan, l, row, 0)
      invariant forall p: Path :: IsTileOf(base, plan, p) && p[2].level == l && p[3].row < row
                            ==> !Blocked(fs.failing, pre, p)
      invariant SameOutside(fs.entries, old(fs.entries), FilesPath(base))
    {
      ghost var before := fs.entries;
      var rowOk, n := RenderRow(fs, pre, base, plan, l, row, emailCrop);
      SameOutsideTrans(fs.entries, before, old(fs.entries), FilesPath(base));
      RowClear(fs.failing, pre, base, plan, l, row);
      if !rowOk {
        return false, written;
      }
      written := written + n;
      row := row + 1;
    }
    NextLevel(base, plan, l);
    ok := true;
  }

  /** Every column of a row is clear exactly when every tile of that row is. */
  lemma {:induction false} RowClear(failing: set<Path>, pre: map<Path, Node>, base: string, plan: seq<LevelPlan>,
                                    l: nat, row: nat)
    requires l < |plan| && row < plan[l].Rows()
    ensures (forall c :: 0 <= c < plan[l].Cols() ==> !Blocked(failing, pre, TilePath(base, l, c, row))) <==>
            (forall p: Path :: IsTileOf(base, plan, p) && p[2].level == l && p[3].row == row ==> !Blocked(failing, pre, p))
  {
    if exists c :: 0 <= c < plan[l].Cols() && Blocked(failing, pre, TilePath(base, l, c, row)) {
      var c :| 0 <= c < plan[l].Cols() && Blocked(failing, pre, TilePath(base, l, c, row));
      assert IsTileOf(base, plan, TilePath(base, l, c, row));
    }
    forall p: Path | IsTileOf(base, plan, p) && p[2].level == l && p[3].row == row
      ensures p == TilePath(base, l, p[3].col, row)
    {
    }
  }

  /** Why the level loop of generateDZI stopped early. */
  datatype LevelsStatus = AllLevels | LevelDirRefused(level: nat) | TileRefused

  /** `mkdir` of the directory of level l. */
  method MakeLevelDir(fs: FileSystem, ghost pre: map<Path, Node>, base: string, plan: seq<LevelPlan>, l: nat)
    returns (made: bool)
    requires l < |plan| && IsDirIn(pre, FilesPath(base))
    requires Matches(fs.entries, pre, base, plan, l, -1, 0)
    modifies fs
    ensures made <==> !Blocked(fs.failing, pre, LevelPath(base, l))
    ensures made ==> Matches(fs.entries, pre, base, plan, l, 0, 0)
    ensures SameOutside(fs.entries, old(fs.entries), FilesPath(base))
  {
    LevelDirStep(fs.entries, pre, fs.failing, base, plan, l);
    made := fs.Mkdir(LevelPath(base, l));
  }

  /** A level whose directory and tiles are all writable has nothing blocked. */
  lemma {:induction false} LevelClear(failing: set<Path>, pre: map<Path, Node>, base: string, plan: seq<LevelPlan>, l: nat)
    requires l < |plan| && !Blocked(failing, pre, LevelPath(base, l))
    requires forall p: Path :: IsTileOf(base, plan, p) && p[2].level == l ==> !Blocked(failing, pre, p)
    ensures forall p: Path :: InPyramid(base, plan, p) && p[2].level == l ==> !Blocked(failing, pre, p)
  {
    forall p: Path | InPyramid(base, plan, p) && p[2].level == l
      ensures !Blocked(failing, pre, p)
    {
      if |p| == 3 {
        assert p == LevelPath(base, l);
      }
    }
  }

  /** One pass of the level loop: the level's directory, then its tiles. */
  method BuildLevel(fs: FileSystem, ghost pre: map<Path, Node>, base: string, plan: seq<LevelPlan>, l: nat)
    returns (st: LevelsStatus, n: nat)
    requires l < |plan| && IsDirIn(pre, FilesPath(base))
    requires Matches(fs.entries, pre, base, plan, l, -1, 0)
    modifies fs
    ensures st == AllLevels <==> forall p: Path :: InPyramid(base, plan, p) && p[2].level == l ==> !Blocked(fs.failing, pre, p)
    ensures st == AllLevels ==> Matches(fs.entries, pre, base, plan, l - 1, -1, 0) && n == plan[l].Cols() * plan[l].Rows()
    ensures st.LevelDirRefused? ==> st.level == l && Blocked(fs.failing, pre, LevelPath(base, l))
    ensures SameOutside(fs.entries, old(fs.entries), FilesPath(base))
  {
    var made := MakeLevelDir(fs, pre, base, plan, l);
    if !made {
      assert InPyramid(base, plan, LevelPath(base, l));
      return LevelDirRefused(l), 0;
    }
    ghost var mid := fs.entries;
    var ok;
    ok, n := RenderLevel(fs, pre, base, plan, l, false);
    SameOutsideTrans(fs.entries, mid, old(fs.entries), FilesPath(base));
    if !ok {
      return TileRefused, n;
    }
    LevelClear(fs.failing, pre, base, plan, l);
    st := AllLevels;
  }

  /** The level loop of generateDZI: levels MaxLevel down to 0, each directory then its tiles. */
  method RenderLevels(fs: FileSystem, base: string, w: Pos, h: Pos) returns (st: LevelsStatus, total: nat)
    requires IsDirIn(fs.entries, FilesPath(base))
    modifies fs
    ensures st == AllLevels <==> PyramidClear(fs.failing, old(fs.entries), base, Plan(w, h))
    ensures st == AllLevels ==> Matches(fs.entries, old(fs.entries), base, Plan(w, h), -1, -1, 0)
    ensures st == AllLevels ==> total == TotalTiles(w, h)
    ensures st.LevelDirRefused? ==> Blocked(fs.failing, old(fs.entries), LevelPath(base, st.level))
    ensures SameOutside(fs.entries, old(fs.entries), FilesPath(base))
  {
    ghost var pre := fs.entries;
    var plan := Plan(w, h);
    var maxLevel := MaxLevel(w, h);
    total := 0;
    var level: int := maxLevel;
    while level >= 0
      invariant -1 <= level <= maxLevel
      invariant Matches(fs.entries, pre, base, plan, level, -1, 0)
      invariant total == TilesFrom(w, h, level + 1)
      invariant forall p: Path :: InPyramid(base, plan, p) && p[2].level > level ==> !Blocked(fs.failing, pre, p)
      invariant SameOutside(fs.entries, pre, FilesPath(base))
    {
      ghost var before := fs.entries;
      var done, n := BuildLevel(fs, pre, base, plan, level);
      SameOutsideTrans(fs.entries, before, pre, FilesPath(base));
      if done != AllLevels {
        return done, total;
      }
      assert n == LevelTiles(w, h, level);
      total := total + n;
      level := level - 1;
    }
    st := AllLevels;
  }

  // ---------------------------------------------------------------------
  // generateDZI

  /** The state once the dzi and tile directories exist. */
  function Prepared(m: map<Path, Node>, base: string): map<Path, Node>
  {
    EnsureDir(EnsureDir(m, DziDirPath()), FilesPath(base))
  }

  /** The idempotency test: descriptor present and tile directory present. */
  predicate AlreadyBuilt(m: map<Path, Node>, base: string)
  {
    DescriptorPath(base) in m && IsDirIn(m, FilesPath(base))
  }

  /** Both output directories exist or can be created. */
  predicate DirsCreatable(m: map<Path, Node>, failing: set<Path>, base: string)
  {
    (IsDirIn(m, DziDirPath()) || MkdirOk(m, failing, DziDirPath()))
    && (IsDirIn(EnsureDir(m, DziDirPath()), FilesPath(base))
        || MkdirOk(EnsureDir(m, DziDirPath()), failing, FilesPath(base)))
  }

  /** Every step of a fresh build of filename succeeds from state m. */
  ghost predicate BuildSucceeds(m: map<Path, Node>, failing: set<Path>, filename: string)
  {
    var base := Stem(filename);
    var pre := Prepared(m, base);
    DirsCreatable(m, failing, base)
    && SourceSize(pre, filename).Some?
    && PyramidClear(failing, pre, base, Plan(SourceSize(pre, filename).value.0, SourceSize(pre, filename).value.1))
    && WriteOk(pre, failing, DescriptorPath(base))
  }

  method GenerateDzi(fs: FileSystem, filename: string) returns (out: Outcome)
    modifies fs
    // a missing source is rejected before anything is created
    ensures out == NotFound <==> SourcePath(filename) !in old(fs.entries)
    // an existing descriptor and tile directory short-circuit the call
    ensures out == AlreadyExists <==>
              SourcePath(filename) in old(fs.entries) && AlreadyBuilt(old(fs.entries), Stem(filename))
    ensures out in {NotFound, AlreadyExists, DziDirFailed} ==> fs.entries == old(fs.entries)
    ensures out == FilesDirFailed ==> fs.entries == EnsureDir(old(fs.entries), DziDirPath())
    // a level directory that cannot be made, an Imagick failure, or a failed
    // descriptor write leaves the state with the whole tile tree removed
    ensures out.LevelDirFailed? || out == ImagickFailed || out == DescriptorFailed ==>
              fs.entries == Prune(Prepared(old(fs.entries), Stem(filename)), FilesPath(Stem(filename)))
    ensures out.LevelDirFailed? ==>
              Blocked(fs.failing, Prepared(old(fs.entries), Stem(filename)), LevelPath(Stem(filename), out.level))
    // a build happens exactly when every step can succeed
    ensures out.Generated? <==>
              SourcePath(filename) in old(fs.entries) && !AlreadyBuilt(old(fs.entries), Stem(filename))
              && BuildSucceeds(old(fs.entries), fs.failing, filename)
    ensures out.Generated? ==>
              var pre := Prepared(old(fs.entries), Stem(filename));
              SourceSize(pre, filename) == Some((out.width, out.height))
              && out.levels == MaxLevel(out.width, out.height) + 1
              && out.tiles == TotalTiles(out.width, out.height)
              && Published(fs.entries, pre, Stem(filename), Plan(out.width, out.height),
                           DescriptorXml(out.width, out.height))
  {
    if !fs.Exists(SourcePath(filename)) {
      return NotFound;
    }
    var base := Stem(filename);
    if fs.Exists(DescriptorPath(base)) && fs.IsDir(FilesPath(base)) {
      return AlreadyExists;
    }
    ghost var start := fs.entries;
    if !fs.IsDir(DziDirPath()) {
      var made := fs.Mkdir(DziDirPath());
      if !made {
        return DziDirFailed;
      }
    }
    if !fs.IsDir(FilesPath(base)) {
      var made := fs.Mkdir(FilesPath(base));
      if !made {
        return FilesDirFailed;
      }
    }
    ghost var pre := fs.entries;
    assert pre == Prepared(start, base);
    var size := SourceSize(fs.entries, filename);
    if size.None? {
      var _, _ := fs.RemoveTree(FilesPath(base));
      return ImagickFailed;
    }
    var (w, h) := size.value;
    var st, total := RenderLevels(fs, base, w, h);
    SameOutsidePrune(fs.entries, pre, FilesPath(base));
    assert IsDirIn(fs.entries, FilesPath(base));
    if st != AllLevels {
      var _, _ := fs.RemoveTree(FilesPath(base));
      return if st.LevelDirRefused? then LevelDirFailed(st.level) else ImagickFailed;
    }
    PublishStep(fs.entries, pre, fs.failing, base, Plan(w, h), DescriptorXml(w, h));
    var written := fs.WriteFile(DescriptorPath(base), Text(DescriptorXml(w, h)));
    if !written {
      var _, _ := fs.RemoveTree(FilesPath(base));
      return DescriptorFailed;
    }
    return Generated(total, MaxLevel(w, h) + 1, w, h);
  }

  // ---------------------------------------------------------------------
  // Helpers

  /** dziExists: the descriptor alone counts as a finished pyramid. */
  predicate DziExists(m: map<Path, Node>, filename: string)
  {
    DescriptorPath(Stem(filename)) in m
  }

  /** getDZIPath: the URL of the descriptor. */
  function GetDziPath(filename: string): (r: string)
    ensures StartsWith(r, "/uploads/dzi/") && EndsWith(r, ".dzi")
    ensures |r| == |Stem(filename)| + 17 && r[13..|r| - 4] == Stem(filename)
  {
    "/uploads/dzi/" + Stem(filename) + ".dzi"
  }

  /** shouldGenerateDZI: the source exists, has a size, and one side reaches 3000 pixels. */
  predicate ShouldGenerateDzi(m: map<Path, Node>, filename: string)
  {
    match SourceSize(m, filename)
    case None => false
    case Some((w, h)) => w >= MinDimension || h >= MinDimension
  }

  /**
   * "Ready" is judged two ways: a descriptor without its tile directory
   * satisfies dziExists, yet generateDZI does not treat it as built and goes
   * on to rebuild.
   */
  lemma {:induction false} ReadyDiffers(m: map<Path, Node>, filename: string)
    requires DescriptorPath(Stem(filename)) in m && FilesPath(Stem(filename)) !in m
    ensures DziExists(m, filename) && !AlreadyBuilt(m, Stem(filename))
  {
  }

  /** A build leaves the pyramid ready in both senses. */
  lemma {:induction false} BuiltIsReady(m: map<Path, Node>, pre: map<Path, Node>, filename: string, w: Pos, h: Pos)
    requires IsDirIn(pre, FilesPath(Stem(filename)))
    requires Published(m, pre, Stem(filename), Plan(w, h), DescriptorXml(w, h))
    ensures DziExists(m, filename) && AlreadyBuilt(m, Stem(filename))
    ensures m[DescriptorPath(Stem(filename))] == File(Text(DescriptorXml(w, h)))
  {
    var base := Stem(filename);
    assert !InPyramid(base, Plan(w, h), FilesPath(base));
    assert FilesPath(base) != DescriptorPath(base);
  }
}
