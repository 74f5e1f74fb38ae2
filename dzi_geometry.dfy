// The integer geometry of a Deep Zoom Image pyramid as the gallery builds it
// (generate_dzi.php and the older twin inside the e-mail ingester): the
// number of levels, the size of each level, the 256-pixel tile grid, the
// overlap-aware crop rectangle of each tile, the on-disk names of levels and
// tiles, and the XML descriptor with its reader.
module DziGeometry {
  import opened Common

  const TileSize: nat := 256
  const Overlap: nat := 1
  const Format: string := "jpg"
  const Quality: nat := 85
  /** Images at least this wide or tall get a pyramid on upload. */
  const MinDimension: nat := 3000
  const Namespace: string := "http://schemas.microsoft.com/deepzoom/2008"

  function Pow2(k: nat): Pos
  {
    if k == 0 then 1 else 2 * Pow2(k - 1)
  }

  /** (int)ceil(a / b) for naturals. */
  function CeilDiv(a: nat, b: Pos): nat
  {
    (a + b - 1) / b
  }

  lemma {:induction false} CeilDivSpec(a: nat, b: Pos)
    ensures CeilDiv(a, b) * b >= a
    ensures CeilDiv(a, b) * b < a + b
  {
    var q, r := (a + b - 1) / b, (a + b - 1) % b;
    assert a + b - 1 == q * b + r && 0 <= r < b;
  }

  /** The ceiling is the unique q with a <= q*b < a + b. */
  lemma {:induction false} CeilDivUnique(a: nat, b: Pos, q: nat)
    requires q * b >= a && q * b < a + b
    ensures CeilDiv(a, b) == q
  {
    var c := CeilDiv(a, b);
    CeilDivSpec(a, b);
    assert (c - q) * b == c * b - q * b;
    SmallMultipleIsZero(c - q, b);
  }

  lemma {:induction false} SmallMultipleIsZero(k: int, b: Pos)
    requires 0 - b < k * b < b
    ensures k == 0
  {
  }

  lemma {:induction false} CeilDivOfNonZero(a: nat, b: Pos)
    requires a >= 1
    ensures CeilDiv(a, b) >= 1
  {
    CeilDivSpec(a, b);
  }

  // ---------------------------------------------------------------------
  // Levels

  /** (int)ceil(log2(n)), computed exactly on integers. */
  function CeilLog2(n: Pos): nat
    decreases n
  {
    if n == 1 then 0 else 1 + CeilLog2(CeilDiv(n, 2))
  }

  /** CeilLog2(n) is the least k with 2^k >= n. */
  lemma {:induction false} CeilLog2Least(n: Pos)
    ensures Pow2(CeilLog2(n)) >= n
    ensures CeilLog2(n) > 0 ==> Pow2(CeilLog2(n) - 1) < n
  {
    if n > 1 {
      var m := CeilDiv(n, 2);
      CeilDivSpec(n, 2);
      CeilDivOfNonZero(n, 2);
      CeilLog2Least(m);
    }
  }

  function Max(a: nat, b: nat): nat { if a >= b then a else b }

  /** The highest zoom level of a W x H image; levels run from it down to 0. */
  function MaxLevel(w: Pos, h: Pos): nat
  {
    CeilLog2(Max(w, h))
  }

  /** Width (or height) d of level l of a w x h image: ceil(d / 2^(max - l)). */
  function LevelDim(d: Pos, w: Pos, h: Pos, l: nat): nat
    requires l <= MaxLevel(w, h)
  {
    CeilDiv(d, Pow2(MaxLevel(w, h) - l))
  }

  function LevelWidth(w: Pos, h: Pos, l: nat): nat
    requires l <= MaxLevel(w, h)
  {
    LevelDim(w, w, h, l)
  }

  function LevelHeight(w: Pos, h: Pos, l: nat): nat
    requires l <= MaxLevel(w, h)
  {
    LevelDim(h, w, h, l)
  }

  lemma {:induction false} TopLevelIsFullSize(w: Pos, h: Pos)
    ensures LevelWidth(w, h, MaxLevel(w, h)) == w
    ensures LevelHeight(w, h, MaxLevel(w, h)) == h
  {
    CeilDivUnique(w, 1, w);
    CeilDivUnique(h, 1, h);
  }

  lemma {:induction false} LevelZeroIsOnePixel(w: Pos, h: Pos)
    ensures LevelWidth(w, h, 0) == 1 && LevelHeight(w, h, 0) == 1
  {
    CeilLog2Least(Max(w, h));
    var p := Pow2(MaxLevel(w, h));
    CeilDivUnique(w, p, 1);
    CeilDivUnique(h, p, 1);
  }

  /** No level is ever empty, so the generator's "too small" skip never fires. */
  lemma {:induction false} LevelsArePositive(w: Pos, h: Pos, l: nat)
    requires l <= MaxLevel(w, h)
    ensures LevelWidth(w, h, l) >= 1 && LevelHeight(w, h, l) >= 1
  {
    CeilDivOfNonZero(w, Pow2(MaxLevel(w, h) - l));
    CeilDivOfNonZero(h, Pow2(MaxLevel(w, h) - l));
  }

  /** Multiplying by a natural number keeps the order. */
  lemma {:induction false} MulMono(x: nat, y: nat, a: nat)
    requires x <= y
    ensures x * a <= y * a
  {
    var k := y - x;
    assert y * a == x * a + k * a;
  }

  lemma {:induction false} NestedCeilDiv(d: nat, a: Pos)
    ensures CeilDiv(CeilDiv(d, a), 2) == CeilDiv(d, 2 * a)
  {
    var q := CeilDiv(d, a);
    var r := CeilDiv(q, 2);
    CeilDivSpec(d, a);
    CeilDivSpec(q, 2);
    assert q * a >= d && q * a < d + a;
    assert 2 * r >= q && 2 * r < q + 2;
    assert r * (2 * a) == (2 * r) * a;
    MulMono(q, 2 * r, a);
    MulMono(2 * r, q + 1, a);
    assert (q + 1) * a == q * a + a;
    CeilDivUnique(d, 2 * a, r);
  }

  /** Each level is the next finer one halved and rounded up. */
  lemma {:induction false} LevelHalves(w: Pos, h: Pos, l: nat)
    requires l < MaxLevel(w, h)
    ensures LevelWidth(w, h, l) == CeilDiv(LevelWidth(w, h, l + 1), 2)
    ensures LevelHeight(w, h, l) == CeilDiv(LevelHeight(w, h, l + 1), 2)
  {
    var k := MaxLevel(w, h) - (l + 1);
    assert Pow2(k + 1) == 2 * Pow2(k);
    NestedCeilDiv(w, Pow2(k));
    NestedCeilDiv(h, Pow2(k));
  }

  // ---------------------------------------------------------------------
  // Tile grid and crop rectangles

  /** Number of tile columns (or rows) for a level dimension: ceil(d / 256). */
  function GridCount(d: nat): nat
  {
    CeilDiv(d, TileSize)
  }

  lemma {:induction false} GridCountSpec(d: nat)
    ensures (GridCount(d) - 1) * TileSize < d <= GridCount(d) * TileSize || d == GridCount(d) == 0
  {
    CeilDivSpec(d, TileSize);
  }

  /** A one-dimensional interval [start, start + len). */
  datatype Span = Span(start: nat, len: nat)
  {
    function End(): nat { start + len }
  }

  /** The core of tile c: [256c, min(256(c+1), d)), the pixels it alone owns. */
  function CoreEnd(c: nat, d: nat): nat
  {
    if (c + 1) * TileSize <= d then (c + 1) * TileSize else d
  }

  /** The crop of tile c along a level dimension d, as generate_dzi.php computes it. */
  function Crop(c: nat, d: nat): Span
    requires c < GridCount(d)
  {
    GridCountSpec(d);
    var x := if c * TileSize >= Overlap then c * TileSize - Overlap else 0;
    var len := if c * TileSize == 0
               then (if TileSize + Overlap <= d then TileSize + Overlap else d)
               else (if TileSize + 2 * Overlap <= d - x then TileSize + 2 * Overlap else d - x);
    Span(x, len)
  }

  /** The crop as the e-mail ingester computes it; it may come out non-positive. */
  function EmailCrop(c: nat, count: nat, d: nat): (int, int)
  {
    var x0 := c * TileSize - (if c > 0 then Overlap else 0);
    var len0 := TileSize + (if c > 0 then Overlap else 0) + (if c < count - 1 then Overlap else 0);
    var x := if x0 >= 0 then x0 else 0;
    var len := if len0 <= d - x then len0 else d - x;
    (x, len)
  }

  /** The crop is the core widened by the overlap on each side and clipped to the level. */
  lemma {:induction false} CropIsClippedCore(c: nat, d: nat)
    requires c < GridCount(d)
    ensures Crop(c, d).start == (if c == 0 then 0 else c * TileSize - Overlap)
    ensures Crop(c, d).End() == (if (c + 1) * TileSize + Overlap <= d then (c + 1) * TileSize + Overlap else d)
  {
    GridCountSpec(d);
  }

  lemma {:induction false} CropInsideLevel(c: nat, d: nat)
    requires c < GridCount(d)
    ensures Crop(c, d).len >= 1 && Crop(c, d).End() <= d
  {
    GridCountSpec(d);
  }

  lemma {:induction false} CropContainsCore(c: nat, d: nat)
    requires c < GridCount(d)
    ensures Crop(c, d).start <= c * TileSize
    ensures CoreEnd(c, d) <= Crop(c, d).End()
    ensures c * TileSize < CoreEnd(c, d)
  {
    GridCountSpec(d);
  }

  /** Every pixel of the level lies in the core of exactly one tile, tile i / 256. */
  lemma {:induction false} CoresPartition(d: nat, i: nat, c: nat)
    requires i < d && c < GridCount(d)
    ensures i / TileSize < GridCount(d)
    ensures c * TileSize <= i < CoreEnd(c, d) <==> c == i / TileSize
  {
    GridCountSpec(d);
  }

  /** Both generators crop every tile of the grid to the same rectangle. */
  lemma {:induction false} CropsAgree(c: nat, d: nat)
    requires c < GridCount(d)
    ensures EmailCrop(c, GridCount(d), d) == (Crop(c, d).start as int, Crop(c, d).len as int)
  {
    GridCountSpec(d);
  }

  /** The e-mail ingester's "empty tile" guard never skips a tile of the grid. */
  lemma {:induction false} EmailCropNeverEmpty(c: nat, d: nat)
    requires c < GridCount(d)
    ensures EmailCrop(c, GridCount(d), d).1 > 0
  {
    CropsAgree(c, d);
    CropInsideLevel(c, d);
  }

  // ---------------------------------------------------------------------
  // Tile count

  function LevelTiles(w: Pos, h: Pos, l: nat): nat
    requires l <= MaxLevel(w, h)
  {
    GridCount(LevelWidth(w, h, l)) * GridCount(LevelHeight(w, h, l))
  }

  /** Tiles of the levels lo..MaxLevel. */
  function TilesFrom(w: Pos, h: Pos, lo: nat): nat
    decreases MaxLevel(w, h) + 1 - lo
  {
    if lo > MaxLevel(w, h) then 0 else LevelTiles(w, h, lo) + TilesFrom(w, h, lo + 1)
  }

  function TotalTiles(w: Pos, h: Pos): nat
  {
    TilesFrom(w, h, 0)
  }

  /** Every level contributes at least one tile. */
  lemma {:induction false} TilesFromAtLeastLevels(w: Pos, h: Pos, lo: nat)
    ensures TilesFrom(w, h, lo) >= MaxLevel(w, h) + 1 - lo
    decreases MaxLevel(w, h) + 1 - lo
  {
    if lo <= MaxLevel(w, h) {
      LevelsArePositive(w, h, lo);
      CeilDivOfNonZero(LevelWidth(w, h, lo), TileSize);
      CeilDivOfNonZero(LevelHeight(w, h, lo), TileSize);
      MulMono(1, GridCount(LevelWidth(w, h, lo)), GridCount(LevelHeight(w, h, lo)));
      TilesFromAtLeastLevels(w, h, lo + 1);
    }
  }

  // ---------------------------------------------------------------------
  // On-disk names

  function LevelDirName(l: nat): string { NatToString(l) }

  /** "<col>_<row>.jpg" */
  function TileFileName(col: nat, row: nat): string
  {
    NatToString(col) + ("_" + (NatToString(row) + TileSuffix))
  }

  const TileSuffix: string := "." + Format

  /** Distinct grid positions never share a tile file. */
  lemma {:induction false} TileFileNameInjective(c1: nat, r1: nat, c2: nat, r2: nat)
    requires TileFileName(c1, r1) == TileFileName(c2, r2)
    ensures c1 == c2 && r1 == r2
  {
    var t1 := "_" + (NatToString(r1) + TileSuffix);
    var t2 := "_" + (NatToString(r2) + TileSuffix);
    ReadNatOfNat(c1, t1);
    ReadNatOfNat(c2, t2);
    assert t1 == t2;
    assert t1[1..] == NatToString(r1) + TileSuffix;
    assert t2[1..] == NatToString(r2) + TileSuffix;
    ReadNatOfNat(r1, TileSuffix);
    ReadNatOfNat(r2, TileSuffix);
  }

  // ---------------------------------------------------------------------
  // Descriptor

  /** What a DZI descriptor tells a viewer. */
  datatype DziInfo = DziInfo(tileSize: nat, overlap: nat, width: nat, height: nat)

  const XmlHeader: string := "<?xml version=\"1.0\" encoding=\"UTF-8\"?>\n"

  // The descriptor is assembled from these fixed pieces and four numbers.
  const GenLead: string := XmlHeader + "<Image TileSize=\""
  const GenAfterTile: string := "\" Overlap=\""
  const GenAfterOverlap: string := "\" Format=\"" + Format + "\" xmlns=\"" + Namespace + "\">\n  <Size Width=\""
  const GenAfterWidth: string := "\" Height=\""
  const Tail: string := "\"/>\n</Image>"

  const EmailLead: string := XmlHeader + "<Image xmlns=\"" + Namespace + "\" Format=\"" + Format + "\" Overlap=\""
  const EmailAfterOverlap: string := "\" TileSize=\""
  const EmailAfterTile: string := "\">\n  <Size Height=\""
  const EmailAfterHeight: string := "\" Width=\""

  /** The descriptor text written by generate_dzi.php. */
  function DescriptorXml(w: nat, h: nat): string
  {
    GenLead + (NatToString(TileSize) + (GenAfterTile + (NatToString(Overlap) + (GenAfterOverlap
    + (NatToString(w) + (GenAfterWidth + (NatToString(h) + Tail)))))))
  }

  /** The descriptor text written by the e-mail ingester: same data, other attribute order. */
  function EmailDescriptorXml(w: nat, h: nat): string
  {
    EmailLead + (NatToString(Overlap) + (EmailAfterOverlap + (NatToString(TileSize) + (EmailAfterTile
    + (NatToString(h) + (EmailAfterHeight + (NatToString(w) + Tail)))))))
  }

  /** Consumes the literal lit from the front of s. */
  function Expect(s: string, lit: string): Option<string>
  {
    if StartsWith(s, lit) then Some(s[|lit|..]) else None
  }

  lemma {:induction false} ExpectConcat(lit: string, rest: string)
    ensures Expect(lit + rest, lit) == Some(rest)
  {
    assert (lit + rest)[..|lit|] == lit;
    assert (lit + rest)[|lit|..] == rest;
  }

  /** Reads `lit` followed by a number. */
  function Field(s: string, lit: string): Option<(nat, string)>
  {
    match Expect(s, lit)
    case None => None
    case Some(t) => ReadNat(t)
  }

  lemma {:induction false} FieldOf(lit: string, n: nat, rest: string)
    requires rest == [] || !IsDigit(rest[0])
    ensures Field(lit + (NatToString(n) + rest), lit) == Some((n, rest))
  {
    ExpectConcat(lit, NatToString(n) + rest);
    ReadNatOfNat(n, rest);
  }

  /** Reads a descriptor in the layout of generate_dzi.php. */
  function ParseGenerated(s: string): Option<DziInfo>
  {
    match Field(s, GenLead)
    case None => None
    case Some((ts, s1)) =>
      match Field(s1, GenAfterTile)
      case None => None
      case Some((ov, s2)) =>
        match Field(s2, GenAfterOverlap)
        case None => None
        case Some((w, s3)) =>
          match Field(s3, GenAfterWidth)
          case None => None
          case Some((h, s4)) =>
            if s4 == Tail then Some(DziInfo(ts, ov, w, h)) else None
  }

  /** Reads a descriptor in the layout of the e-mail ingester. */
  function ParseEmailed(s: string): Option<DziInfo>
  {
    match Field(s, EmailLead)
    case None => None
    case Some((ov, s1)) =>
      match Field(s1, EmailAfterOverlap)
      case None => None
      case Some((ts, s2)) =>
        match Field(s2, EmailAfterTile)
        case None => None
        case Some((h, s3)) =>
          match Field(s3, EmailAfterHeight)
          case None => None
          case Some((w, s4)) =>
            if s4 == Tail then Some(DziInfo(ts, ov, w, h)) else None
  }

  /** What a viewer reads from a descriptor written by either generator. */
  function ParseDescriptor(s: string): Option<DziInfo>
  {
    match ParseGenerated(s)
    case Some(info) => Some(info)
    case None => ParseEmailed(s)
  }

  /** The descriptor of generate_dzi.php carries the tile size, overlap and image size. */
  lemma {:induction false} DescriptorRoundTrip(w: nat, h: nat)
    ensures ParseDescriptor(DescriptorXml(w, h)) == Some(DziInfo(TileSize, Overlap, w, h))
  {
    var s4 := Tail;
    var s3 := GenAfterWidth + (NatToString(h) + s4);
    var s2 := GenAfterOverlap + (NatToString(w) + s3);
    var s1 := GenAfterTile + (NatToString(Overlap) + s2);
    FieldOf(GenLead, TileSize, s1);
    FieldOf(GenAfterTile, Overlap, s2);
    FieldOf(GenAfterOverlap, w, s3);
    FieldOf(GenAfterWidth, h, s4);
  }

  /** A text in the e-mail ingester's layout is not read as one of generate_dzi.php. */
  lemma {:induction false} NotGenerated(rest: string)
    ensures !StartsWith(EmailLead + rest, GenLead)
  {
    var i := |XmlHeader| + 7;
    assert EmailLead[i] == 'x';
    assert GenLead[i] == 'T';
    assert (EmailLead + rest)[i] == EmailLead[i];
  }

  /** The e-mail ingester's descriptor carries the same information. */
  lemma {:induction false} EmailDescriptorRoundTrip(w: nat, h: nat)
    ensures ParseDescriptor(EmailDescriptorXml(w, h)) == Some(DziInfo(TileSize, Overlap, w, h))
  {
    var s4 := Tail;
    var s3 := EmailAfterHeight + (NatToString(w) + s4);
    var s2 := EmailAfterTile + (NatToString(h) + s3);
    var s1 := EmailAfterOverlap + (NatToString(TileSize) + s2);
    var x := EmailDescriptorXml(w, h);
    assert x == EmailLead + (NatToString(Overlap) + s1);
    NotGenerated(NatToString(Overlap) + s1);
    assert Field(x, GenLead) == None;
    assert ParseGenerated(x) == None;
    FieldOf(EmailLead, Overlap, s1);
    FieldOf(EmailAfterOverlap, TileSize, s2);
    FieldOf(EmailAfterTile, h, s3);
    FieldOf(EmailAfterHeight, w, s4);
  }
}
