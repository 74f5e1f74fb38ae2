// email-handler/email_artwork_handler.php: the mailbox poller that turns an
// e-mail with image attachments into gallery artworks. Modelled here: the
// "[subdomain]" routing prefix of the subject and the choice among the
// sender's galleries, the pending-artwork limit for unknown senders, the
// metadata parser for the subject and body, the title suffix given to the
// second and later attachments, and the ingester's own copy of the DZI
// generator.
module EmailHandler {
  import opened Common
  import opened DziGeometry
  import opened FileStore
  import opened DziGenerator

  // ---------------------------------------------------------------------
  // generateDZI, the e-mail ingester's copy

  /**
   * The e-mail copy creates the tile directory (with its parent) only when
   * it is not already a directory, and reuses a level directory that exists.
   */
  function EmailPrepared(m: map<Path, Node>, base: string): map<Path, Node>
  {
    if IsDirIn(m, FilesPath(base)) then m else Prepared(m, base)
  }

  predicate EmailDirsCreatable(m: map<Path, Node>, failing: set<Path>, base: string)
  {
    IsDirIn(m, FilesPath(base)) || DirsCreatable(m, failing, base)
  }

  /**
   * Whether creating p fails in the e-mail copy: a level directory only when
   * no directory is there and mkdir is refused, a tile as in generateDZI.
   */
  predicate EmailBlocked(failing: set<Path>, pre: map<Path, Node>, p: Path)
  {
    if |p| == 3 then !IsDirIn(pre, p) && (p in failing || p in pre)
    else p in failing || IsDirIn(pre, p)
  }

  ghost predicate EmailPyramidClear(failing: set<Path>, pre: map<Path, Node>, base: string, plan: seq<LevelPlan>)
  {
    forall p :: InPyramid(base, plan, p) ==> !EmailBlocked(failing, pre, p)
  }

  /** A level directory that is already there counts as created. */
  lemma {:induction false} LevelDirReused(m: map<Path, Node>, pre: map<Path, Node>, base: string, plan: seq<LevelPlan>, l: nat)
    requires l < |plan|
    requires Matches(m, pre, base, plan, l, -1, 0)
    requires IsDirIn(m, LevelPath(base, l))
    ensures IsDirIn(pre, LevelPath(base, l))
    ensures Matches(m, pre, base, plan, l, 0, 0)
  {
    var d := LevelPath(base, l);
    assert InPyramid(base, plan, d) && !Done(base, plan, d, l, -1, 0);
    forall p: Path
      ensures Done(base, plan, p, l, 0, 0) <==> Done(base, plan, p, l, -1, 0) || p == d
    {
      if IsLevelOf(base, plan, p) && p[2].level == l {
        assert p == d;
      }
    }
  }

  /** Nothing outside uploads/dzi differs between a and b. */
  ghost predicate SameOutsideDzi(a: map<Path, Node>, b: map<Path, Node>)
  {
    Prune(a, DziDirPath()) == Prune(b, DziDirPath())
  }

  lemma {:induction false} NestedPrune(a: map<Path, Node>, b: map<Path, Node>, base: string)
    requires Prune(a, FilesPath(base)) == Prune(b, FilesPath(base))
    ensures SameOutsideDzi(a, b)
  {
    forall p | Under(FilesPath(base), p)
      ensures Under(DziDirPath(), p)
    {
      assert p[..1] == p[..2][..1];
    }
    assert forall p :: p in Prune(a, DziDirPath()) <==> p in Prune(Prune(a, FilesPath(base)), DziDirPath());
    assert forall p :: p in Prune(b, DziDirPath()) <==> p in Prune(Prune(b, FilesPath(base)), DziDirPath());
  }

  lemma {:induction false} PreparedOnlyInDzi(m: map<Path, Node>, base: string)
    ensures SameOutsideDzi(EmailPrepared(m, base), m)
    ensures SameOutsideDzi(EnsureDir(m, DziDirPath()), m)
  {
    assert Under(DziDirPath(), FilesPath(base));
  }

  /** `if (!is_dir($level_dir)) mkdir($level_dir, 0755, true)` */
  method EnsureLevelDir(fs: FileSystem, ghost pre: map<Path, Node>, base: string, plan: seq<LevelPlan>, l: nat)
    returns (made: bool)
    requires l < |plan| && IsDirIn(pre, FilesPath(base))
    requires Matches(fs.entries, pre, base, plan, l, -1, 0)
    modifies fs
    ensures made <==> !EmailBlocked(fs.failing, pre, LevelPath(base, l))
    ensures made ==> Matches(fs.entries, pre, base, plan, l, 0, 0)
    ensures SameOutside(fs.entries, old(fs.entries), FilesPath(base))
  {
    if fs.IsDir(LevelPath(base, l)) {
      LevelDirReused(fs.entries, pre, base, plan, l);
      made := true;
    } else {
      LevelDirStep(fs.entries, pre, fs.failing, base, plan, l);
      made := fs.Mkdir(LevelPath(base, l));
    }
  }

  /**
   * The level loop of the e-mail copy. Returns false where the PHP code
   * throws: a tile write that Imagick refuses, or the first tile of a level
   * whose directory could not be made (every level has a tile, and it is
   * written into that missing directory).
   */
  /** One pass of the ingester's level loop: the level's directory, reused when present, then its tiles. */
  method EmailBuildLevel(fs: FileSystem, ghost pre: map<Path, Node>, base: string, plan: seq<LevelPlan>, l: nat)
    returns (ok: bool)
    requires l < |plan| && IsDirIn(pre, FilesPath(base))
    requires Matches(fs.entries, pre, base, plan, l, -1, 0)
    modifies fs
    ensures ok <==> forall p: Path :: InPyramid(base, plan, p) && p[2].level == l ==> !EmailBlocked(fs.failing, pre, p)
    ensures ok ==> Matches(fs.entries, pre, base, plan, l - 1, -1, 0)
    ensures SameOutside(fs.entries, old(fs.entries), FilesPath(base))
  {
    var made := EnsureLevelDir(fs, pre, base, plan, l);
    if !made {
      assert InPyramid(base, plan, LevelPath(base, l));
      return false;
    }
    ghost var mid := fs.entries;
    var n;
    ok, n := RenderLevel(fs, pre, base, plan, l, true);
    SameOutsideTrans(fs.entries, mid, old(fs.entries), FilesPath(base));
    if ok {
      forall p: Path | InPyramid(base, plan, p) && p[2].level == l
        ensures !EmailBlocked(fs.failing, pre, p)
      {
        if |p| == 3 {
          assert p == LevelPath(base, l);
        }
      }
    }
  }

  method EmailRenderLevels(fs: FileSystem, base: string, w: Pos, h: Pos) returns (completed: bool)
    requires IsDirIn(fs.entries, FilesPath(base))
    modifies fs
    ensures completed <==> EmailPyramidClear(fs.failing, old(fs.entries), base, Plan(w, h))
    ensures completed ==> Matches(fs.entries, old(fs.entries), base, Plan(w, h), -1, -1, 0)
    ensures SameOutside(fs.entries, old(fs.entries), FilesPath(base))
  {
    ghost var pre := fs.entries;
    var plan := Plan(w, h);
    var level: int := MaxLevel(w, h);
    while level >= 0
      invariant -1 <= level < |plan|
      invariant Matches(fs.entries, pre, base, plan, level, -1, 0)
      invariant forall p: Path :: InPyramid(base, plan, p) && p[2].level > level ==> !EmailBlocked(fs.failing, pre, p)
      invariant SameOutside(fs.entries, pre, FilesPath(base))
    {
      ghost var before := fs.entries;
      var ok := EmailBuildLevel(fs, pre, base, plan, level);
      SameOutsideTrans(fs.entries, before, pre, FilesPath(base));
      if !ok {
        ghost var p: Path :| InPyramid(base, plan, p) && p[2].level == level && EmailBlocked(fs.failing, pre, p);
        return false;
      }
      level := level - 1;
    }
    completed := true;
  }

  /** `if (!is_dir($tiles_dir)) mkdir($tiles_dir, 0755, true)`, parents included. */
  method MakeTileDirs(fs: FileSystem, base: string) returns (ready: bool)
    modifies fs
    ensures ready <==> EmailDirsCreatable(old(fs.entries), fs.failing, base)
    ensures ready ==> fs.entries == EmailPrepared(old(fs.entries), base)
    ensures SameOutsideDzi(fs.entries, old(fs.entries))
  {
    PreparedOnlyInDzi(fs.entries, base);
    ready := true;
    if !fs.IsDir(FilesPath(base)) {
      if !fs.IsDir(DziDirPath()) {
        ready := fs.Mkdir(DziDirPath());
      }
      if ready {
        ready := fs.Mkdir(FilesPath(base));
      }
    }
  }

  /**
   * generateDZI of the e-mail ingester, given the in-memory image's size.
   * It never checks a step: mkdir and the descriptor write fail silently,
   * a refused tile write throws (reported as completed == false), and on
   * failure the partial pyramid is left where it is.
   */
  method EmailGenerateDzi(fs: FileSystem, base: string, w: Pos, h: Pos) returns (completed: bool)
    modifies fs
    ensures completed <==>
              EmailDirsCreatable(old(fs.entries), fs.failing, base)
              && EmailPyramidClear(fs.failing, EmailPrepared(old(fs.entries), base), base, Plan(w, h))
    // the descriptor is written last, when its path allows it
    ensures completed && WriteOk(EmailPrepared(old(fs.entries), base), fs.failing, DescriptorPath(base)) ==>
              Published(fs.entries, EmailPrepared(old(fs.entries), base), base, Plan(w, h), EmailDescriptorXml(w, h))
    ensures completed && !WriteOk(EmailPrepared(old(fs.entries), base), fs.failing, DescriptorPath(base)) ==>
              Matches(fs.entries, EmailPrepared(old(fs.entries), base), base, Plan(w, h), -1, -1, 0)
    // whatever happens, nothing outside uploads/dzi changes
    ensures SameOutsideDzi(fs.entries, old(fs.entries))
  {
    ghost var start := fs.entries;
    PreparedOnlyInDzi(start, base);
    var ready := MakeTileDirs(fs, base);
    if !ready {
      return false;
    }
    completed := EmailTileAndPublish(fs, base, w, h);
  }

  /** The tiling loops and the descriptor write, once the tile directory exists. */
  method EmailTileAndPublish(fs: FileSystem, base: string, w: Pos, h: Pos) returns (completed: bool)
    requires IsDirIn(fs.entries, FilesPath(base))
    modifies fs
    ensures completed <==> EmailPyramidClear(fs.failing, old(fs.entries), base, Plan(w, h))
    ensures completed && WriteOk(old(fs.entries), fs.failing, DescriptorPath(base)) ==>
              Published(fs.entries, old(fs.entries), base, Plan(w, h), EmailDescriptorXml(w, h))
    ensures completed && !WriteOk(old(fs.entries), fs.failing, DescriptorPath(base)) ==>
              Matches(fs.entries, old(fs.entries), base, Plan(w, h), -1, -1, 0)
    ensures SameOutsideDzi(fs.entries, old(fs.entries))
  {
    ghost var pre := fs.entries;
    completed := EmailRenderLevels(fs, base, w, h);
    SameOutsidePrune(fs.entries, pre, FilesPath(base));
    NestedPrune(fs.entries, pre, base);
    if !completed {
      return;
    }
    ghost var tiled := fs.entries;
    PublishStep(fs.entries, pre, fs.failing, base, Plan(w, h), EmailDescriptorXml(w, h));
    var written := fs.WriteFile(DescriptorPath(base), Text(EmailDescriptorXml(w, h)));
    if written {
      assert Prune(fs.entries, DziDirPath()) == Prune(tiled, DziDirPath());
    }
  }

  /**
   * Both copies build the same pyramid over the same starting state; only
   * the descriptor text differs, and it reads back to the same information.
   */
  lemma {:induction false} TwinsAgree(m1: map<Path, Node>, m2: map<Path, Node>, pre: map<Path, Node>, base: string, w: Pos, h: Pos)
    requires Published(m1, pre, base, Plan(w, h), DescriptorXml(w, h))
    requires Published(m2, pre, base, Plan(w, h), EmailDescriptorXml(w, h))
    ensures m1.Keys == m2.Keys
    ensures forall p :: p in m1 && p != DescriptorPath(base) ==> m1[p] == m2[p]
    ensures ParseDescriptor(m1[DescriptorPath(base)].blob.text) == ParseDescriptor(m2[DescriptorPath(base)].blob.text)
            == Some(DziInfo(TileSize, Overlap, w, h))
  {
    DescriptorRoundTrip(w, h);
    EmailDescriptorRoundTrip(w, h);
  }

  /** processArtwork builds a pyramid when either side exceeds 2000 pixels. */
  predicate EmailTriggersDzi(w: nat, h: nat)
  {
    w > 2000 || h > 2000
  }

  /** Every image that upload.php and shouldGenerateDZI tile, the ingester tiles too ... */
  lemma {:induction false} UploadTriggerImpliesEmail(w: nat, h: nat)
    requires w >= MinDimension || h >= MinDimension
    ensures EmailTriggersDzi(w, h)
  {
  }

  /** ... but not the other way round: a 2500 x 2500 image is tiled only by e-mail. */
  lemma {:induction false} TriggersDiffer()
    ensures EmailTriggersDzi(2500, 2500) && !(2500 >= MinDimension)
  {
  }

  // ---------------------------------------------------------------------
  // Routing by "[subdomain]" at the head of the subject

  /** The characters of `[a-z0-9-]` under the /i flag. */
  predicate IsRouteChar(c: char) { IsAlnum(c) || c == '-' }

  /** PCRE's \s: space, tab, line feed, vertical tab, form feed, carriage return. */
  predicate IsPcreSpace(c: char)
  {
    c == ' ' || c == '\t' || c == '\n' || c == 11 as char || c == 12 as char || c == '\r'
  }

  /** Length of the longest prefix of route characters. */
  function RouteRun(s: string): (k: nat)
    ensures k <= |s|
    ensures forall i :: 0 <= i < k ==> IsRouteChar(s[i])
    ensures k < |s| ==> !IsRouteChar(s[k])
  {
    if s == [] || !IsRouteChar(s[0]) then 0 else 1 + RouteRun(s[1..])
  }

  /** Length of the longest prefix of \s characters. */
  function SpaceRun(s: string): (k: nat)
    ensures k <= |s|
    ensures forall i :: 0 <= i < k ==> IsPcreSpace(s[i])
    ensures k < |s| ==> !IsPcreSpace(s[k])
  {
    if s == [] || !IsPcreSpace(s[0]) then 0 else 1 + SpaceRun(s[1..])
  }

  /** The length of the gallery name of a "[name]" prefix, or 0 when there is none. */
  function RouteNameLength(subject: string): (k: nat)
    ensures k > 0 ==> 2 + k <= |subject| && forall i :: 1 <= i <= k ==> IsRouteChar(subject[i])
  {
    if |subject| >= 1 && subject[0] == '[' then
      var k := RouteRun(subject[1..]);
      if k >= 1 && 1 + k < |subject| && subject[1 + k] == ']' then k else 0
    else 0
  }

  /** s without its leading \s characters. */
  function SkipSpace(s: string): string
  {
    s[SpaceRun(s)..]
  }

  /**
   * `^\[([a-z0-9-]+)\]\s*` on the subject: the lowercased gallery name and
   * the trimmed rest, or None and the subject as it is.
   */
  function SubjectRoute(subject: string): (r: (Option<string>, string))
    ensures r.0.None? ==> r.1 == subject
    ensures r.0.Some? ==> |r.0.value| >= 1 && NoUpper(r.0.value)
                          && forall i :: 0 <= i < |r.0.value| ==> IsRouteChar(r.0.value[i])
    ensures r.0.Some? ==> NoEdgeBlank(r.1)
  {
    var k := RouteNameLength(subject);
    if k == 0 then (None, subject)
    else
      TrimEdges(SkipSpace(subject[2 + k..]));
      RouteNameLowered(subject, k);
      (Some(ToLower(subject[1..1 + k])), Trim(SkipSpace(subject[2 + k..])))
  }

  /** The bracketed name, lowercased, is still made of [a-z0-9-] and has no upper-case letter. */
  lemma {:induction false} RouteNameLowered(subject: string, k: nat)
    requires 1 <= k && 1 + k <= |subject| && forall i :: 1 <= i <= k ==> IsRouteChar(subject[i])
    ensures var r := ToLower(subject[1..1 + k]);
            |r| >= 1 && NoUpper(r) && forall i :: 0 <= i < |r| ==> IsRouteChar(r[i])
  {
    var name := subject[1..1 + k];
    var r := ToLower(name);
    forall i | 0 <= i < |r|
      ensures !IsUpper(r[i]) && IsRouteChar(r[i])
    {
      assert name[i] == subject[1 + i];
      assert r[i] == LowerChar(name[i]);
    }
  }

  /** Writing "[name] text" and routing it gives back the name, lowercased, and the text. */
  lemma {:induction false} RouteRoundTrip(name: string, text: string)
    requires |name| >= 1 && forall i :: 0 <= i < |name| ==> IsRouteChar(name[i])
    requires NoEdgeBlank(text) && (text == [] || !IsPcreSpace(text[0]))
    ensures SubjectRoute("[" + name + "] " + text) == (Some(ToLower(name)), text)
  {
    var s := "[" + name + "] " + text;
    RoutedParts(name, text);
    assert RouteNameLength(s) == |name| > 0;
    RoutedAs(s, |name|, name, text);
  }

  /** How "[name] text" splits up. */
  lemma {:induction false} RoutedParts(name: string, text: string)
    requires |name| >= 1 && forall i :: 0 <= i < |name| ==> IsRouteChar(name[i])
    requires text == [] || !IsPcreSpace(text[0])
    ensures var s := "[" + name + "] " + text;
            RouteNameLength(s) == |name| && s[1..1 + |name|] == name && SkipSpace(s[2 + |name|..]) == text
  {
    var s := "[" + name + "] " + text;
    var head := "[" + name + "]";
    assert s == head + ([' '] + text);
    assert s[1..] == name + ("] " + text);
    RouteRunOfName(name, "] " + text);
    assert |head| == 2 + |name|;
    assert s[|head|..] == [' '] + text;
  }

  /** SubjectRoute once the parts of the subject are known. */
  lemma {:induction false} RoutedAs(s: string, k: nat, name: string, text: string)
    requires RouteNameLength(s) == k > 0
    requires s[1..1 + k] == name && SkipSpace(s[2 + k..]) == text && NoEdgeBlank(text)
    ensures SubjectRoute(s) == (Some(ToLower(name)), text)
  {
    TrimNoEdgeBlank(text);
  }

  lemma {:induction false} RouteRunOfName(a: string, b: string)
    requires forall i :: 0 <= i < |a| ==> IsRouteChar(a[i])
    requires b == [] || !IsRouteChar(b[0])
    ensures RouteRun(a + b) == |a|
  {
    if a != [] {
      assert (a + b)[1..] == a[1..] + b;
      RouteRunOfName(a[1..], b);
    }
  }

  /** A gallery row of the artists table: the fields the choice looks at. */
  datatype ArtistRow = ArtistRow(id: nat, subdomain: string, isPrimary: bool)

  /** The order of the query: primary galleries first, then by id. */
  predicate QueryOrder(rows: seq<ArtistRow>)
  {
    forall i, j :: 0 <= i < j < |rows| ==>
      (rows[i].isPrimary && !rows[j].isPrimary)
      || (rows[i].isPrimary == rows[j].isPrimary && rows[i].id < rows[j].id)
  }

  /** Index of the first row whose lowercased subdomain is t, or |rows|. */
  function FirstMatch(rows: seq<ArtistRow>, t: string): (k: nat)
    ensures k <= |rows|
    ensures k < |rows| ==> ToLower(rows[k].subdomain) == t
    ensures forall i :: 0 <= i < k ==> ToLower(rows[i].subdomain) != t
  {
    if rows == [] then 0
    else if ToLower(rows[0].subdomain) == t then 0
    else 1 + FirstMatch(rows[1..], t)
  }

  /** A requested gallery counts only when PHP finds it truthy ("0" is not). */
  predicate Requested(target: Option<string>)
  {
    target.Some? && !PhpEmpty(target.value)
  }

  /**
   * The gallery a mail goes to: None for an unknown sender (no rows);
   * otherwise the requested gallery if the sender owns it, else the first row.
   */
  method ChooseArtist(rows: seq<ArtistRow>, target: Option<string>) returns (artist: Option<ArtistRow>)
    ensures artist.None? <==> rows == []
    ensures artist.Some? && Requested(target) && FirstMatch(rows, target.value) < |rows| ==>
              artist.value == rows[FirstMatch(rows, target.value)]
    ensures artist.Some? && !(Requested(target) && FirstMatch(rows, target.value) < |rows|) ==>
              artist.value == rows[0]
  {
    if rows == [] {
      return None;
    }
    artist := None;
    if Requested(target) {
      var t := target.value;
      var i := 0;
      while i < |rows|
        invariant 0 <= i <= |rows|
        invariant forall j :: 0 <= j < i ==> ToLower(rows[j].subdomain) != t
      {
        if ToLower(rows[i].subdomain) == t {
          artist := Some(rows[i]);
          assert FirstMatch(rows, t) == i by {
            FirstMatchIs(rows, t, i);
          }
          break;
        }
        i := i + 1;
      }
      if artist.None? {
        FirstMatchIs(rows, t, |rows|);
      }
    }
    if artist.None? {
      artist := Some(rows[0]);
    }
  }

  /** FirstMatch is the index where no earlier row matches and this one does. */
  lemma {:induction false} FirstMatchIs(rows: seq<ArtistRow>, t: string, k: nat)
    requires k <= |rows|
    requires k < |rows| ==> ToLower(rows[k].subdomain) == t
    requires forall i :: 0 <= i < k ==> ToLower(rows[i].subdomain) != t
    ensures FirstMatch(rows, t) == k
  {
    if rows != [] && k > 0 {
      FirstMatchIs(rows[1..], t, k - 1);
    }
  }

  /** Without a usable request the mail goes to the primary gallery, if any. */
  lemma {:induction false} DefaultIsPrimary(rows: seq<ArtistRow>, k: nat)
    requires QueryOrder(rows) && k < |rows| && rows[k].isPrimary
    ensures rows[0].isPrimary && rows[0].id <= rows[k].id
  {
    if k > 0 {
      assert (rows[0].isPrimary && !rows[k].isPrimary)
             || (rows[0].isPrimary == rows[k].isPrimary && rows[0].id < rows[k].id);
    }
  }

  /** The subject the metadata parser sees: the cleaned one only for a known sender. */
  function MetadataSubject(subject: string, approved: bool): (r: string)
    ensures !approved ==> r == subject
    ensures SubjectRoute(subject).0.None? ==> r == subject
  {
    if approved then SubjectRoute(subject).1 else subject
  }

  // ---------------------------------------------------------------------
  // Pending artworks of unknown senders

  datatype Attachment = Attachment(filename: string, size: nat)

  const MaxPending: nat := 3
  /** The extensions a pending artwork may have. */
  predicate IsPendingExtension(e: string)
  {
    e == "jpg" || e == "jpeg" || e == "png" || e == "gif" || e == "webp"
  }

  /** strtolower(pathinfo(filename, PATHINFO_EXTENSION)) */
  function PendingExtension(a: Attachment): string
  {
    ToLower(Extension(Basename(a.filename)))
  }

  /** The extension is one of jpg, jpeg, png, gif and webp. */
  predicate AllowedPending(a: Attachment)
  {
    IsPendingExtension(PendingExtension(a))
  }

  /**
   * Whether attachment i would be saved given a free slot: its extension is
   * allowed (otherwise the loop goes on with `continue`) and file_put_contents
   * reports a non-zero byte count, so the data is not empty and the write at
   * that index is not refused.
   */
  function Saver(refused: set<nat>): (Attachment, nat) -> bool
  {
    (a: Attachment, i: nat) => AllowedPending(a) && a.size > 0 && i !in refused
  }

  /** p applied to each element with its index. */
  function Flags<A>(xs: seq<A>, p: (A, nat) -> bool): (r: seq<bool>)
    ensures |r| == |xs|
  {
    seq(|xs|, i requires 0 <= i < |xs| => p(xs[i], i))
  }

  /** Whether each attachment would be saved given a free slot. */
  function Storable(atts: seq<Attachment>, refused: set<nat>): (r: seq<bool>)
    ensures |r| == |atts|
  {
    Flags(atts, Saver(refused))
  }

  /** The indices saved from ok[i..] with `slots` places left, in order. */
  function PendingPicks(ok: seq<bool>, i: nat, slots: nat): seq<nat>
    decreases |ok| - i
  {
    if i >= |ok| || slots == 0 then []
    else if ok[i] then [i] + PendingPicks(ok, i + 1, slots - 1)
    else PendingPicks(ok, i + 1, slots)
  }

  /**
   * The pending-artwork loop for an unknown sender with pendingCount
   * artworks already waiting; returns the indices of the saved attachments.
   */
  method SavePending(pendingCount: nat, atts: seq<Attachment>, refused: set<nat>) returns (saved: seq<nat>)
    ensures saved == if pendingCount < MaxPending
                     then PendingPicks(Storable(atts, refused), 0, MaxPending - pendingCount) else []
  {
    saved := [];
    if pendingCount < MaxPending && atts != [] {
      saved := SaveSlots(atts, Saver(refused), MaxPending - pendingCount);
    }
  }

  /**
   * The foreach over the attachments with `remaining` free slots: `saves`
   * tells whether the attachment at that index ends up stored.
   */
  method SaveSlots<A>(atts: seq<A>, saves: (A, nat) -> bool, remaining: nat) returns (saved: seq<nat>)
    ensures saved == PendingPicks(Flags(atts, saves), 0, remaining)
  {
    ghost var ok := Flags(atts, saves);
    ghost var all := PendingPicks(ok, 0, remaining);
    saved := [];
    var i: nat := 0;
    EmptyAppend(all);
    // The source's `break` once every slot is taken is the loop guard here.
    while i < |atts| && |saved| < remaining
      invariant i <= |atts| && |saved| <= remaining
      invariant saved + PendingPicks(ok, i, remaining - |saved|) == all
    {
      var stored := saves(atts[i], i);
      PicksAdvance(ok, i, saved, remaining - |saved|, all);
      if stored {
        saved := saved + [i];
      }
      i := i + 1;
    }
    PicksDone(ok, i, saved, remaining - |saved|, all);
  }

  /** One attachment considered: the invariant of the pending loop moves past index i. */
  lemma {:induction false} PicksAdvance(ok: seq<bool>, i: nat, saved: seq<nat>, slots: nat, all: seq<nat>)
    requires i < |ok| && slots > 0
    requires saved + PendingPicks(ok, i, slots) == all
    ensures ok[i] ==> (saved + [i]) + PendingPicks(ok, i + 1, slots - 1) == all
    ensures !ok[i] ==> saved + PendingPicks(ok, i + 1, slots) == all
  {
    PicksStep(ok, i, slots);
    if ok[i] {
      AppendAssoc(saved, [i], PendingPicks(ok, i + 1, slots - 1));
    }
  }

  /** When the loop stops, every pick has been made. */
  lemma {:induction false} PicksDone(ok: seq<bool>, i: nat, saved: seq<nat>, slots: nat, all: seq<nat>)
    requires i >= |ok| || slots == 0
    requires saved + PendingPicks(ok, i, slots) == all
    ensures saved == all
  {
    assert PendingPicks(ok, i, slots) == [];
    assert saved + [] == saved;
  }

  lemma {:induction false} PicksStep(ok: seq<bool>, i: nat, slots: nat)
    requires i < |ok| && slots > 0
    ensures PendingPicks(ok, i, slots)
            == if ok[i] then [i] + PendingPicks(ok, i + 1, slots - 1) else PendingPicks(ok, i + 1, slots)
  {
  }

  /** At most `slots` attachments are picked. */
  lemma {:induction false} PendingPicksLength(ok: seq<bool>, i: nat, slots: nat)
    ensures |PendingPicks(ok, i, slots)| <= slots
    decreases |ok| - i
  {
    if i < |ok| && slots > 0 {
      if ok[i] {
        PendingPicksLength(ok, i + 1, slots - 1);
      } else {
        PendingPicksLength(ok, i + 1, slots);
      }
    }
  }

  /** Picks are increasing indices of storable attachments. */
  lemma {:induction false} PendingPicksBound(ok: seq<bool>, i: nat, slots: nat)
    ensures forall k :: 0 <= k < |PendingPicks(ok, i, slots)| ==>
              i <= PendingPicks(ok, i, slots)[k] < |ok| && ok[PendingPicks(ok, i, slots)[k]]
    ensures forall a, b :: 0 <= a < b < |PendingPicks(ok, i, slots)| ==>
              PendingPicks(ok, i, slots)[a] < PendingPicks(ok, i, slots)[b]
    decreases |ok| - i
  {
    if i < |ok| && slots > 0 {
      if ok[i] {
        PendingPicksBound(ok, i + 1, slots - 1);
      } else {
        PendingPicksBound(ok, i + 1, slots);
      }
    }
  }

  /** A storable attachment is passed over only once every slot is taken. */
  lemma {:induction false} PendingPicksGreedy(ok: seq<bool>, i: nat, slots: nat, j: nat)
    requires i <= j < |ok| && ok[j]
    requires j !in PendingPicks(ok, i, slots)
    ensures |PendingPicks(ok, i, slots)| == slots
    decreases |ok| - i
  {
    if slots > 0 {
      if ok[i] {
        PendingPicksGreedy(ok, i + 1, slots - 1, j);
      } else {
        PendingPicksGreedy(ok, i + 1, slots, j);
      }
    }
  }

  /** No sender ever has more than three artworks pending, unless they already had. */
  lemma {:induction false} PendingNeverExceeds(pendingCount: nat, atts: seq<Attachment>, refused: set<nat>)
    ensures pendingCount < MaxPending ==>
              pendingCount + |PendingPicks(Storable(atts, refused), 0, MaxPending - pendingCount)| <= MaxPending
  {
    PicksWithinSlots(pendingCount, Storable(atts, refused));
  }

  lemma {:induction false} PicksWithinSlots(pendingCount: nat, ok: seq<bool>)
    ensures pendingCount < MaxPending ==> pendingCount + |PendingPicks(ok, 0, MaxPending - pendingCount)| <= MaxPending
  {
    if pendingCount < MaxPending {
      PendingPicksLength(ok, 0, MaxPending - pendingCount);
    }
  }

  // ---------------------------------------------------------------------
  // parseArtworkMetadata

  datatype ArtworkMeta = ArtworkMeta(title: string, dimensions: string, medium: string,
                                     price: string, status: string, description: string)

  const Untitled: string := "Untitled"
  const DefaultMeta: ArtworkMeta := ArtworkMeta(Untitled, "", "", "", "available", "")

  predicate IsStatus(s: string) { s == "available" || s == "sold" || s == "other" }

  /** The line starts with key, compared case-insensitively (key is lower-case). */
  predicate HasKey(line: string, key: string)
  {
    |key| <= |line| && ToLower(line[..|key|]) == key
  }

  /**
   * The text `\s*(.+)` captures after a key: at least one character; the
   * greedy \s* leaves the last character when everything is blank.
   */
  function Capture(rest: string): Option<string>
  {
    if rest == [] then None
    else if SpaceRun(rest) < |rest| then Some(rest[SpaceRun(rest)..])
    else Some(rest[|rest| - 1..])
  }

  /** `^key\s*(.+)` with the /i flag: the trimmed capture, or None. */
  function KeyValue(line: string, key: string): Option<string>
  {
    if HasKey(line, key) then
      match Capture(line[|key|..])
      case Some(v) => Some(Trim(v))
      case None => None
    else None
  }

  /** One body line, tried against the keys in the source's order; the first that matches wins. */
  function ApplyLine(m: ArtworkMeta, raw: string): (r: ArtworkMeta)
    ensures IsStatus(m.status) ==> IsStatus(r.status)
  {
    var line := Trim(raw);
    if KeyValue(line, "title:").Some? then m.(title := KeyValue(line, "title:").value)
    else if KeyValue(line, "size:").Some? then m.(dimensions := KeyValue(line, "size:").value)
    else if KeyValue(line, "dimensions:").Some? then m.(dimensions := KeyValue(line, "dimensions:").value)
    else if KeyValue(line, "dimension:").Some? then m.(dimensions := KeyValue(line, "dimension:").value)
    else if KeyValue(line, "medium:").Some? then m.(medium := KeyValue(line, "medium:").value)
    else if KeyValue(line, "price:").Some? then m.(price := KeyValue(line, "price:").value)
    else if KeyValue(line, "status:").Some? then
      var st := ToLower(KeyValue(line, "status:").value);
      if IsStatus(st) then m.(status := st) else m
    else if KeyValue(line, "description:").Some? then m.(description := KeyValue(line, "description:").value)
    else m
  }

  /** The body lines applied in order, so a later line for the same key wins. */
  function ApplyLines(m: ArtworkMeta, lines: seq<string>): ArtworkMeta
  {
    if lines == [] then m else ApplyLine(ApplyLines(m, lines[..|lines| - 1]), lines[|lines| - 1])
  }

  /** The status is always one of the three accepted values. */
  lemma {:induction false} StatusStaysValid(m: ArtworkMeta, lines: seq<string>)
    requires IsStatus(m.status)
    ensures IsStatus(ApplyLines(m, lines).status)
  {
    if lines != [] {
      StatusStaysValid(m, lines[..|lines| - 1]);
    }
  }

  predicate IsQuote(c: char) { c == '"' || c == '\'' }

  /**
   * The lazy `(.+?)["']` from position j on: the first quote at or after j,
   * provided no line feed comes before it (the dot does not match one).
   */
  function CloseQuote(s: string, j: nat): (r: Option<nat>)
    requires j >= 1
    ensures r.Some? ==> j <= r.value < |s| && IsQuote(s[r.value])
    decreases |s| - j
  {
    if j >= |s| then None
    else if s[j - 1] == '\n' then None
    else if IsQuote(s[j]) then Some(j)
    else CloseQuote(s, j + 1)
  }

  /** Length of the match of `^(\d+\s*x\s*\d+)` with the /i flag, or None. */
  function DimsMatch(r: string): (n: Option<nat>)
    ensures n.Some? ==> n.value <= |r|
  {
    var a := DigitRun(r);
    var i := a + SpaceRun(r[a..]);
    if a == 0 || i >= |r| || !(r[i] == 'x' || r[i] == 'X') then None
    else
      var j := i + 1 + SpaceRun(r[i + 1..]);
      var b := DigitRun(r[j..]);
      if b == 0 then None else Some(j + b)
  }

  /**
   * The subject step of parseArtworkMetadata: used only while the title is
   * still "Untitled" and the subject is not empty. A quoted title may be
   * followed by dimensions and then a medium; otherwise the whole subject
   * becomes the title.
   */
  function ApplySubject(m: ArtworkMeta, subject: string): (r: ArtworkMeta)
    ensures m.title != Untitled || PhpEmpty(subject) ==> r == m
    ensures r.price == m.price && r.status == m.status && r.description == m.description
    ensures m.title == Untitled && !PhpEmpty(subject) && !IsQuote(subject[0]) ==> r == m.(title := subject)
  {
    if m.title != Untitled || PhpEmpty(subject) then m
    else if IsQuote(subject[0]) && CloseQuote(subject, 2).Some? then
      var j := CloseQuote(subject, 2).value;
      QuotedRest(m, Trim(subject[1..j]), Trim(subject[j + 1..]))
    else m.(title := subject)
  }

  /** After a quoted title: optional dimensions, then the medium unless nothing is left. */
  function QuotedRest(m: ArtworkMeta, title: string, rem: string): (r: ArtworkMeta)
    ensures r.title == title && r.price == m.price && r.status == m.status && r.description == m.description
  {
    var (dims, rest) :=
      match DimsMatch(rem)
      case Some(n) => (rem[..n], Trim(rem[n..]))
      case None => (m.dimensions, rem);
    m.(title := title, dimensions := dims, medium := if PhpEmpty(rest) then m.medium else rest)
  }

  /** The if/elseif chain of the body loop, for one line. */
  method ReadLine(m: ArtworkMeta, raw: string) returns (r: ArtworkMeta)
    ensures r == ApplyLine(m, raw)
  {
    var line := Trim(raw);
    r := m;
    if KeyValue(line, "title:").Some? {
      r := r.(title := KeyValue(line, "title:").value);
    } else if KeyValue(line, "size:").Some? {
      r := r.(dimensions := KeyValue(line, "size:").value);
    } else if KeyValue(line, "dimensions:").Some? {
      r := r.(dimensions := KeyValue(line, "dimensions:").value);
    } else if KeyValue(line, "dimension:").Some? {
      r := r.(dimensions := KeyValue(line, "dimension:").value);
    } else if KeyValue(line, "medium:").Some? {
      r := r.(medium := KeyValue(line, "medium:").value);
    } else if KeyValue(line, "price:").Some? {
      r := r.(price := KeyValue(line, "price:").value);
    } else if KeyValue(line, "status:").Some? {
      var st := ToLower(KeyValue(line, "status:").value);
      if IsStatus(st) {
        r := r.(status := st);
      }
    } else if KeyValue(line, "description:").Some? {
      r := r.(description := KeyValue(line, "description:").value);
    }
  }

  /**
   * parseArtworkMetadata: defaults, then every trimmed body line, then the
   * subject.
   */
  method ParseArtworkMetadata(subject: string, body: string) returns (meta: ArtworkMeta)
    ensures meta == ApplySubject(ApplyLines(DefaultMeta, Split(body, '\n')), subject)
  {
    meta := DefaultMeta;
    var lines := Split(body, '\n');
    var i := 0;
    while i < |lines|
      invariant 0 <= i <= |lines|
      invariant meta == ApplyLines(DefaultMeta, lines[..i])
    {
      assert lines[..i + 1][..i] == lines[..i];
      meta := ReadLine(meta, lines[i]);
      i := i + 1;
    }
    assert lines[..i] == lines;
    meta := ApplySubject(meta, subject);
  }

  /** Whatever the mail says, the parsed status is available, sold or other. */
  lemma {:induction false} ParsedStatusValid(subject: string, body: string)
    ensures IsStatus(ApplySubject(ApplyLines(DefaultMeta, Split(body, '\n')), subject).status)
  {
    StatusStaysValid(DefaultMeta, Split(body, '\n'));
  }

  // Round trips: a body line or a subject written the way the parser reads it

  /** A value as a person would type it: not empty, no blank at either end. */
  predicate PlainValue(v: string)
  {
    v != [] && NoEdgeBlank(v) && !IsPcreSpace(v[0])
  }

  /** A key followed by one blank and a plain value. */
  function KeyLine(key: string, v: string): string
  {
    key + ([' '] + v)
  }

  lemma {:induction false} KeyMatch(key: string, v: string)
    requires |key| >= 1 && NoUpper(key) && !IsTrimmed(key[0]) && PlainValue(v)
    ensures Trim(KeyLine(key, v)) == KeyLine(key, v)
    ensures KeyValue(KeyLine(key, v), key) == Some(v)
  {
    KeyLineTrimmed(key, v);
    KeyValueOf(key, v);
  }

  lemma {:induction false} KeyLineTrimmed(key: string, v: string)
    requires |key| >= 1 && !IsTrimmed(key[0]) && PlainValue(v)
    ensures Trim(KeyLine(key, v)) == KeyLine(key, v)
  {
    TrimNoEdgeBlank(KeyLine(key, v));
  }

  lemma {:induction false} KeyValueOf(key: string, v: string)
    requires NoUpper(key) && PlainValue(v)
    ensures KeyValue(KeyLine(key, v), key) == Some(v)
  {
    var line := KeyLine(key, v);
    assert line[..|key|] == key;
    ToLowerOfLower(key);
    assert line[|key|..] == [' '] + v;
    TrimNoEdgeBlank(v);
  }

  /** A line whose character i differs from key's, ignoring case, does not carry key. */
  lemma {:induction false} KeyMismatch(line: string, key: string, i: nat)
    requires i < |key| && (i >= |line| || LowerChar(line[i]) != key[i])
    ensures KeyValue(line, key) == None
  {
    if |key| <= |line| {
      assert ToLower(line[..|key|])[i] == LowerChar(line[i]);
    }
  }

  /** A key line does not carry a key that differs from its own at position i. */
  lemma {:induction false} OtherKey(key: string, v: string, other: string, i: nat)
    requires i < |key| && i < |other| && NoUpper(key) && key[i] != other[i]
    ensures KeyValue(KeyLine(key, v), other) == None
  {
    assert KeyLine(key, v)[i] == key[i];
    KeyMismatch(KeyLine(key, v), other, i);
  }

  /** "dimension: v" against "dimensions:": they part at the blank. */
  lemma {:induction false} ShorterKey(v: string)
    ensures KeyValue(KeyLine("dimension:", v), "dimensions:") == None
  {
    assert KeyLine("dimension:", v)[10] == ' ';
    KeyMismatch(KeyLine("dimension:", v), "dimensions:", 10);
  }

  /** "title: v" sets the title to v. */
  lemma {:induction false} TitleLine(m: ArtworkMeta, v: string)
    requires PlainValue(v)
    ensures ApplyLine(m, KeyLine("title:", v)) == m.(title := v)
  {
    KeyMatch("title:", v);
  }

  /** "size: v" sets the dimensions to v. */
  lemma {:induction false} SizeLine(m: ArtworkMeta, v: string)
    requires PlainValue(v)
    ensures ApplyLine(m, KeyLine("size:", v)) == m.(dimensions := v)
  {
    KeyMatch("size:", v);
    OtherKey("size:", v, "title:", 0);
  }

  /** "dimensions: v" sets the dimensions to v. */
  lemma {:induction false} DimensionsLine(m: ArtworkMeta, v: string)
    requires PlainValue(v)
    ensures ApplyLine(m, KeyLine("dimensions:", v)) == m.(dimensions := v)
  {
    KeyMatch("dimensions:", v);
    OtherKey("dimensions:", v, "title:", 0);
    OtherKey("dimensions:", v, "size:", 0);
  }

  /** "dimension: v" sets the dimensions to v; the longer key is tried first and does not match. */
  lemma {:induction false} DimensionLine(m: ArtworkMeta, v: string)
    requires PlainValue(v)
    ensures ApplyLine(m, KeyLine("dimension:", v)) == m.(dimensions := v)
  {
    KeyMatch("dimension:", v);
    OtherKey("dimension:", v, "title:", 0);
    OtherKey("dimension:", v, "size:", 0);
    ShorterKey(v);
  }

  /** "status: v" is taken, lower-cased, only when it names an accepted status. */
  lemma {:induction false} StatusLine(m: ArtworkMeta, v: string)
    requires PlainValue(v)
    ensures ApplyLine(m, KeyLine("status:", v)) == if IsStatus(ToLower(v)) then m.(status := ToLower(v)) else m
  {
    KeyMatch("status:", v);
    StatusKeyOnly(v);
    StatusApplied(m, KeyLine("status:", v), v);
  }

  /** A status line carries none of the keys tested before "status:". */
  lemma {:induction false} StatusKeyOnly(v: string)
    ensures KeyValue(KeyLine("status:", v), "title:") == None
    ensures KeyValue(KeyLine("status:", v), "size:") == None
    ensures KeyValue(KeyLine("status:", v), "dimensions:") == None
    ensures KeyValue(KeyLine("status:", v), "dimension:") == None
    ensures KeyValue(KeyLine("status:", v), "medium:") == None
    ensures KeyValue(KeyLine("status:", v), "price:") == None
  {
    OtherKey("status:", v, "title:", 0);
    OtherKey("status:", v, "size:", 1);
    OtherKey("status:", v, "dimensions:", 0);
    OtherKey("status:", v, "dimension:", 0);
    OtherKey("status:", v, "medium:", 0);
    OtherKey("status:", v, "price:", 0);
  }

  /** ApplyLine on a trimmed line whose first matching key is "status:". */
  lemma {:induction false} StatusApplied(m: ArtworkMeta, line: string, v: string)
    requires Trim(line) == line && KeyValue(line, "status:") == Some(v)
    requires KeyValue(line, "title:") == None && KeyValue(line, "size:") == None
    requires KeyValue(line, "dimensions:") == None && KeyValue(line, "dimension:") == None
    requires KeyValue(line, "medium:") == None && KeyValue(line, "price:") == None
    ensures ApplyLine(m, line) == if IsStatus(ToLower(v)) then m.(status := ToLower(v)) else m
  {
  }

  /** CloseQuote finds the quote at e when none comes before it. */
  lemma {:induction false} CloseQuoteAt(s: string, j: nat, e: nat)
    requires 1 <= j <= e < |s| && IsQuote(s[e])
    requires forall i :: j <= i < e ==> !IsQuote(s[i])
    requires forall i :: j - 1 <= i < e ==> s[i] != '\n'
    ensures CloseQuote(s, j) == Some(e)
    decreases e - j
  {
    if j < e {
      CloseQuoteAt(s, j + 1, e);
    }
  }

  /** A title the quoted form can carry: no quote, no line feed, no blank at the ends. */
  predicate PlainTitle(t: string)
  {
    t != [] && NoEdgeBlank(t) && forall i :: 0 <= i < |t| ==> !IsQuote(t[i]) && t[i] != '\n'
  }

  lemma {:induction false} TrimLeadingSpace(x: string)
    requires NoEdgeBlank(x)
    ensures Trim([' '] + x) == x
  {
    assert ([' '] + x)[1..] == x;
    TrimNoEdgeBlank(x);
  }

  /** The subject `"t" tail`. */
  function Quoted(t: string, tail: string): string
  {
    ['"'] + t + (['"'] + ([' '] + tail))
  }

  lemma {:induction false} QuotedParts(t: string, tail: string)
    requires PlainTitle(t) && NoEdgeBlank(tail)
    ensures var s := Quoted(t, tail);
            !PhpEmpty(s) && IsQuote(s[0]) && CloseQuote(s, 2) == Some(|t| + 1)
            && Trim(s[1..|t| + 1]) == t && Trim(s[|t| + 2..]) == tail
  {
    QuoteCloses(t, tail);
    QuotedPieces(t, tail);
    TrimNoEdgeBlank(t);
    TrimLeadingSpace(tail);
  }

  lemma {:induction false} QuotedPieces(t: string, tail: string)
    ensures var s := Quoted(t, tail);
            |s| == |t| + 3 + |tail| && s[0] == '"' && s[1..|t| + 1] == t && s[|t| + 2..] == [' '] + tail
  {
    var s := Quoted(t, tail);
    assert s == ['"'] + (t + (['"'] + ([' '] + tail)));
  }

  lemma {:induction false} QuoteCloses(t: string, tail: string)
    requires PlainTitle(t)
    ensures CloseQuote(Quoted(t, tail), 2) == Some(|t| + 1)
  {
    var s := Quoted(t, tail);
    var e := |t| + 1;
    assert s[e] == '"';
    assert forall i :: 1 <= i < e ==> s[i] == t[i - 1];
    CloseQuoteAt(s, 2, e);
  }

  lemma {:induction false} QuotedAs(t: string, tail: string)
    requires PlainTitle(t) && NoEdgeBlank(tail)
    ensures ApplySubject(DefaultMeta, Quoted(t, tail)) == QuotedRest(DefaultMeta, t, tail)
  {
    QuotedParts(t, tail);
  }

  /** `"t" medium` gives title t and medium, when the medium does not start with a digit. */
  lemma {:induction false} QuotedSubject(t: string, medium: string)
    requires PlainTitle(t)
    requires PlainValue(medium) && !PhpEmpty(medium) && !IsDigit(medium[0])
    ensures ApplySubject(DefaultMeta, Quoted(t, medium)) == DefaultMeta.(title := t, medium := medium)
  {
    QuotedAs(t, medium);
    assert DimsMatch(medium) == None;
  }

  /** The dimensions text "AxB" for two runs of digits A and B. */
  function Dims(da: string, db: string): string
  {
    da + (['x'] + db)
  }

  /** `"t" AxB medium` also gives the dimensions "AxB". */
  lemma {:induction false} QuotedSubjectWithDims(t: string, da: string, db: string, medium: string)
    requires PlainTitle(t)
    requires da != [] && db != [] && AllDigits(da) && AllDigits(db)
    requires PlainValue(medium) && !PhpEmpty(medium)
    ensures ApplySubject(DefaultMeta, Quoted(t, Dims(da, db) + ([' '] + medium)))
            == DefaultMeta.(title := t, dimensions := Dims(da, db), medium := medium)
  {
    var rem := Dims(da, db) + ([' '] + medium);
    assert rem[0] == da[0];
    assert NoEdgeBlank(rem);
    QuotedAs(t, rem);
    DimsOfDigits(da, db, [' '] + medium);
    assert rem[..|Dims(da, db)|] == Dims(da, db);
    assert rem[|Dims(da, db)|..] == [' '] + medium;
    TrimLeadingSpace(medium);
  }

  /** The same for any two non-empty runs of digits. */
  lemma {:induction false} DimsOfDigits(da: string, db: string, rest: string)
    requires da != [] && db != [] && AllDigits(da) && AllDigits(db)
    requires rest != [] && IsPcreSpace(rest[0])
    ensures DimsMatch(da + (['x'] + db) + rest) == Some(|da| + 1 + |db|)
  {
    var r := da + (['x'] + db) + rest;
    DimsPieces(da, db, rest);
    DigitsThenX(da, r[|da|..]);
    DigitsThenBlank(db, rest);
    DimsMatchTight(r, |da|, |db|);
  }

  /** A run of digits ended by 'x': the run is the digits, and no blank follows it. */
  lemma {:induction false} DigitsThenX(d: string, tail: string)
    requires AllDigits(d) && tail != [] && tail[0] == 'x'
    ensures DigitRun(d + tail) == |d| && SpaceRun(tail) == 0
  {
    DigitRunOfDigits(d, tail);
  }

  /** A run of digits ended by a blank: it does not start with a blank. */
  lemma {:induction false} DigitsThenBlank(d: string, rest: string)
    requires d != [] && AllDigits(d) && rest != [] && IsPcreSpace(rest[0])
    ensures DigitRun(d + rest) == |d| && SpaceRun(d + rest) == 0
  {
    DigitRunOfDigits(d, rest);
    assert (d + rest)[0] == d[0];
  }

  /** Digits, an 'x' right after them and digits again: no blanks to skip. */
  lemma {:induction false} DimsMatchTight(r: string, k: nat, m: nat)
    requires k > 0 && m > 0 && k < |r| && r[k] == 'x'
    requires DigitRun(r) == k && SpaceRun(r[k..]) == 0
    requires SpaceRun(r[k + 1..]) == 0 && DigitRun(r[k + 1..]) == m
    ensures DimsMatch(r) == Some(k + 1 + m)
  {
  }

  lemma {:induction false} DimsPieces(da: string, db: string, rest: string)
    ensures var r := da + (['x'] + db) + rest;
            r == da + r[|da|..] && r[|da|] == 'x' && r[|da| + 1..] == db + rest
  {
  }

  // ---------------------------------------------------------------------
  // processArtwork: the title of the index-th attachment

  /** Later attachments of one mail get " (index+1)" unless they are untitled. */
  function AttachmentTitle(title: string, index: nat): (r: string)
    ensures index == 0 || title == Untitled ==> r == title
    ensures StartsWith(r, title)
  {
    if index > 0 && title != Untitled then title + " (" + NatToString(index + 1) + ")" else title
  }

  /** Two attachments of one titled mail never share a title. */
  lemma {:induction false} AttachmentTitlesDistinct(title: string, i: nat, j: nat)
    requires title != Untitled && i != j
    ensures AttachmentTitle(title, i) != AttachmentTitle(title, j)
  {
    if i > 0 && j > 0 {
      var x, y := AttachmentTitle(title, i), AttachmentTitle(title, j);
      if x == y {
        var p := title + " (";
        assert x == p + (NatToString(i + 1) + ")");
        assert y == p + (NatToString(j + 1) + ")");
        assert x[|p|..|x| - 1] == NatToString(i + 1);
        assert y[|p|..|y| - 1] == NatToString(j + 1);
        NatToStringInjective(i + 1, j + 1);
      }
    } else if i > 0 {
      assert |AttachmentTitle(title, i)| > |title|;
    } else {
      assert |AttachmentTitle(title, j)| > |title|;
    }
  }
}
