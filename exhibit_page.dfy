// The public exhibit page (exhibit.php): slug clean-up, who may see an
// exhibit, the artworks it shows, its date badge and date line, the Open
// Graph text and the carousel's wrap-around.

module ExhibitPage {
  import opened Common
  import opened GalleryFiles
  import Exhibits
  import Gallery

  // ---------------------------------------------------------------------
  // Slug

  /** preg_replace('/[^a-z0-9-]/', '', strtolower(slug)). */
  function Sanitize(slug: string): (r: string)
    ensures Exhibits.SlugChars(r)
  {
    Filter(ToLower(slug), Exhibits.IsSlugChar)
  }

  /** A slug already made of [a-z0-9-] passes unchanged. */
  lemma {:induction false} SanitizeKeepsSlug(slug: string)
    requires Exhibits.SlugChars(slug)
    ensures Sanitize(slug) == slug
  {
    assert NoUpper(slug);
    ToLowerOfLower(slug);
    FilterKeepsAll(slug, Exhibits.IsSlugChar);
  }

  /** Cleaning twice is cleaning once. */
  lemma {:induction false} SanitizeIdempotent(slug: string)
    ensures Sanitize(Sanitize(slug)) == Sanitize(slug)
  {
    SanitizeKeepsSlug(Sanitize(slug));
  }

  /** Every slug the exhibit editor hands out reaches this page unchanged. */
  lemma {:induction false} GeneratedSlugSurvives(title: string, now: nat, n: nat)
    ensures Sanitize(Exhibits.Candidate(Exhibits.BaseSlug(title, now), n)) == Exhibits.Candidate(Exhibits.BaseSlug(title, now), n)
  {
    var base := Exhibits.BaseSlug(title, now);
    Exhibits.BaseSlugShape(title, now);
    CandidateSlugChars(base, n);
    SanitizeKeepsSlug(Exhibits.Candidate(base, n));
  }

  lemma {:induction false} CandidateSlugChars(base: string, n: nat)
    requires Exhibits.SlugChars(base)
    ensures Exhibits.SlugChars(Exhibits.Candidate(base, n))
  {
    if n > 1 {
      var d := NatToString(n);
      var c := base + ("-" + d);
      assert Exhibits.Candidate(base, n) == c;
      forall i | 0 <= i < |c| ensures Exhibits.IsSlugChar(c[i]) {
        if i > |base| {
          assert c[i] == d[i - |base| - 1];
        }
      }
    }
  }

  datatype Visit = Redirect | NotFound | Show(slug: string, exhibit: Exhibits.Exhibit)

  /**
   * The gate: an empty cleaned slug redirects to the gallery; an unknown
   * slug, or an unpublished exhibit for an anonymous visitor, is a 404.
   */
  function Lookup(param: Option<string>, exhibits: map<string, Exhibits.Exhibit>, authenticated: bool): (r: Visit)
    ensures r == Redirect <==> param.None? || PhpEmpty(Sanitize(param.value))
    ensures r.Show? ==> r.slug in exhibits && r.exhibit == exhibits[r.slug] && r.slug == Sanitize(param.value)
    ensures r.Show? ==> Exhibits.Published(r.exhibit) || authenticated
    ensures (param.Some? && !PhpEmpty(Sanitize(param.value)) && Sanitize(param.value) in exhibits
             && (Exhibits.Published(exhibits[Sanitize(param.value)]) || authenticated)) ==> r.Show?
  {
    var slug := if param.Some? then Sanitize(param.value) else "";
    if PhpEmpty(slug) then Redirect
    else if slug !in exhibits then NotFound
    else if !Exhibits.Published(exhibits[slug]) && !authenticated then NotFound
    else Show(slug, exhibits[slug])
  }

  // ---------------------------------------------------------------------
  // Artworks

  /** The listed artworks (`?? []`), their string entries. */
  function Listed(ex: Exhibits.Exhibit): seq<string>
  {
    Gallery.TagStrings(Coalesce(ex, "artworks", JArr([])))
  }

  /** The listed files still on disk, in listing order. */
  function Existing(names: seq<string>, present: set<string>): (r: seq<string>)
    ensures |r| <= |names|
    ensures forall f :: f in r <==> f in names && f in present
  {
    if names == [] then []
    else Existing(names[..|names| - 1], present) + (if names[|names| - 1] in present then [names[|names| - 1]] else [])
  }

  /** The existence filter loop. */
  method ValidArtworks(names: seq<string>, present: set<string>) returns (valid: seq<string>, total: nat)
    ensures valid == Existing(names, present) && total == |valid|
  {
    valid := [];
    for i := 0 to |names|
      invariant valid == Existing(names[..i], present)
    {
      assert names[..i + 1][..i] == names[..i];
      if names[i] in present {
        valid := valid + [names[i]];
      }
    }
    assert names[..|names|] == names;
    total := |valid|;
  }

  /** The filter keeps the relative order: removing missing files from a concatenation is concatenating the filtered parts. */
  lemma {:induction false} ExistingConcat(a: seq<string>, b: seq<string>, present: set<string>)
    ensures Existing(a + b, present) == Existing(a, present) + Existing(b, present)
    decreases |b|
  {
    if b == [] {
      assert a + b == a;
    } else {
      var b' := b[..|b| - 1];
      assert (a + b)[..|a + b| - 1] == a + b';
      assert (a + b)[|a + b| - 1] == b[|b| - 1];
      ExistingConcat(a, b', present);
    }
  }

  /** `cover ?? (artworks[0] ?? '')`: the first listed artwork, present or not. */
  function Cover(ex: Exhibits.Exhibit): (r: Json)
    ensures "cover" in ex && !ex["cover"].JNull? ==> r == ex["cover"]
    ensures ("cover" !in ex || ex["cover"].JNull?) ==>
      r == (var a := Coalesce(ex, "artworks", JArr([]));
            if a.JArr? && a.items != [] && !a.items[0].JNull? then a.items[0] else JStr(""))
  {
    var a := Coalesce(ex, "artworks", JArr([]));
    Coalesce(ex, "cover", if a.JArr? && a.items != [] && !a.items[0].JNull? then a.items[0] else JStr(""))
  }

  /** The Open Graph image: the cover's social variant, else its medium one, else the cover itself, if on disk. */
  function CoverImage(cover: Json, present: set<string>, baseUrl: string): (r: string)
    ensures r != "" ==> cover.JStr? && !PhpEmpty(cover.s)
    ensures cover.JStr? && !PhpEmpty(cover.s) && SizedName(cover.s, "social") in present ==>
      r == baseUrl + "/uploads/" + SizedName(cover.s, "social")
  {
    if !cover.JStr? || PhpEmpty(cover.s) then ""
    else if SizedName(cover.s, "social") in present then baseUrl + "/uploads/" + SizedName(cover.s, "social")
    else if SizedName(cover.s, "medium") in present then baseUrl + "/uploads/" + SizedName(cover.s, "medium")
    else if cover.s in present then baseUrl + "/uploads/" + cover.s
    else ""
  }

  // ---------------------------------------------------------------------
  // Dates

  datatype StatusBadge = NoStatus | PermanentCollection | OpensOn(start: int) | ClosedBadge
                       | NowThrough(end: int) | Since(since: int)

  /** The date line: nothing, one day, a range of days, or 'Since' a day. */
  datatype DateDisplay = NoDate | OnDay(day: int) | Range(first: int, last: int) | SinceDay(from: int)

  datatype DateState = DateState(badge: StatusBadge, display: DateDisplay)

  /**
   * The badge and date line: permanent first, then a future start, then a
   * past end, then a start and an end, then a start alone.
   */
  function Dates(ex: Exhibits.Exhibit, now: int, times: map<string, int>): DateState
  {
    if Gallery.IsPermanent(ex) then DateState(PermanentCollection, NoDate)
    else
      var start := Gallery.Stamp(ex, "start_date", times);
      var end := Gallery.Stamp(ex, "end_date", times);
      if start.Some? && start.value > now then DateState(OpensOn(start.value), OnDay(start.value))
      else if end.Some? && end.value < now then
        DateState(ClosedBadge, if start.Some? then Range(start.value, end.value) else NoDate)
      else if start.Some? && end.Some? then DateState(NowThrough(end.value), Range(start.value, end.value))
      else if start.Some? then DateState(Since(start.value), SinceDay(start.value))
      else DateState(NoStatus, NoDate)
  }

  /** The page's badge names the gallery group the exhibit is filed under. */
  lemma {:induction false} BadgeMatchesGalleryGroup(ex: Exhibits.Exhibit, authenticated: bool, now: int, times: map<string, int>)
    requires Exhibits.Published(ex) || authenticated
    ensures Dates(ex, now, times).badge == PermanentCollection <==>
      Gallery.BucketOf(ex, authenticated, now, times) == Some(Gallery.Permanent)
    ensures Dates(ex, now, times).badge.OpensOn? <==>
      Gallery.BucketOf(ex, authenticated, now, times) == Some(Gallery.Upcoming)
    ensures Dates(ex, now, times).badge == ClosedBadge <==>
      Gallery.BucketOf(ex, authenticated, now, times) == Some(Gallery.Past)
    ensures (Dates(ex, now, times).badge.NowThrough? || Dates(ex, now, times).badge.Since?
             || Dates(ex, now, times).badge == NoStatus) <==>
      Gallery.BucketOf(ex, authenticated, now, times) == Some(Gallery.Current)
  {
  }

  /** A date line shows a range exactly when the badge is 'Now through', or 'Closed' with a start. */
  lemma {:induction false} DateLineFollowsBadge(ex: Exhibits.Exhibit, now: int, times: map<string, int>)
    ensures var d := Dates(ex, now, times);
      d.display.Range? <==> d.badge.NowThrough? || (d.badge == ClosedBadge && Gallery.Stamp(ex, "start_date", times).Some?)
    ensures var d := Dates(ex, now, times);
      d.display.Range? ==> d.display.first <= d.display.last || d.badge == ClosedBadge
  {
  }

  datatype BadgeClass = NoClass | PermanentClass | UpcomingClass | ClosedClass | CurrentClass

  /**
   * The badge's CSS class as written: it re-tests the raw dates, so an end
   * date strtotime cannot read (false, and false < now) gives 'closed'.
   */
  function BadgeClassAsWritten(ex: Exhibits.Exhibit, now: int, times: map<string, int>): BadgeClass
  {
    var st := Gallery.Get(ex, "start_date");
    var en := Gallery.Get(ex, "end_date");
    if Gallery.IsPermanent(ex) then PermanentClass
    else if !EmptyJson(st) && Gallery.AfterNow(Gallery.StrToTime(st, times), now) then UpcomingClass
    else if !EmptyJson(en) && Gallery.BeforeNowAsWritten(Gallery.StrToTime(en, times), now) then ClosedClass
    else if Dates(ex, now, times).badge != NoStatus then CurrentClass
    else NoClass
  }

  /** A started exhibit with an unreadable end says 'Since ...' in a 'closed' badge. */
  lemma {:induction false} SinceBadgeStyledClosed()
    ensures var ex := map["start_date" := JStr("2024-01-01"), "end_date" := JStr("soon")];
      var times := map["2024-01-01" := 100];
      Dates(ex, 1000, times).badge == Since(100) && BadgeClassAsWritten(ex, 1000, times) == ClosedClass
  {
    var ex := map["start_date" := JStr("2024-01-01"), "end_date" := JStr("soon")];
    var times := map["2024-01-01" := 100];
    assert "duration" !in ex;
    assert Gallery.StrToTime(JStr("soon"), times).None? by { assert "soon" != "2024-01-01"; }
    assert Gallery.Stamp(ex, "start_date", times) == Some(100);
  }

  /** The class taken from the badge itself, so both follow one priority order. */
  function BadgeClassOf(badge: StatusBadge): (r: BadgeClass)
    ensures r == NoClass <==> badge == NoStatus
  {
    match badge
    case NoStatus => NoClass
    case PermanentCollection => PermanentClass
    case OpensOn(_) => UpcomingClass
    case ClosedBadge => ClosedClass
    case NowThrough(_) => CurrentClass
    case Since(_) => CurrentClass
  }

  /** With every set date readable as a non-zero time, the written class is the badge's class. */
  lemma {:induction false} BadgeClassAgrees(ex: Exhibits.Exhibit, now: int, times: map<string, int>)
    requires now > 0
    requires !EmptyJson(Gallery.Get(ex, "start_date")) ==> Gallery.Stamp(ex, "start_date", times).Some?
    requires !EmptyJson(Gallery.Get(ex, "end_date")) ==> Gallery.Stamp(ex, "end_date", times).Some?
    ensures BadgeClassAsWritten(ex, now, times) == BadgeClassOf(Dates(ex, now, times).badge)
  {
  }

  // ---------------------------------------------------------------------
  // Open Graph and carousel

  /** The pieces of og:description: the date line if set, the venue if set, then the count. */
  function DescriptionParts(dateText: string, venue: string, total: nat): (r: seq<string>)
    ensures |r| >= 1 && r[|r| - 1] == NatToString(total) + " works"
    ensures !PhpEmpty(dateText) ==> r[0] == dateText
    ensures |r| == 1 + (if PhpEmpty(dateText) then 0 else 1) + (if PhpEmpty(venue) then 0 else 1)
  {
    (if PhpEmpty(dateText) then [] else [dateText])
    + (if PhpEmpty(venue) then [] else [venue])
    + [NatToString(total) + " works"]
  }

  /** implode(' · ', parts). */
  function OgDescription(dateText: string, venue: string, total: nat): string
  {
    Join(DescriptionParts(dateText, venue, total), " · ")
  }

  lemma {:induction false} JoinEnds(parts: seq<string>, sep: string)
    requires parts != []
    ensures EndsWith(Join(parts, sep), parts[|parts| - 1])
    ensures |parts| > 1 ==> StartsWith(Join(parts, sep), parts[0] + sep)
    decreases |parts|
  {
    if |parts| > 1 {
      JoinEnds(parts[1..], sep);
      var rest := Join(parts[1..], sep);
      var whole := parts[0] + sep + rest;
      assert whole[|whole| - |parts[|parts| - 1]|..] == rest[|rest| - |parts[|parts| - 1]|..];
      assert whole[..|parts[0] + sep|] == parts[0] + sep;
    }
  }

  /** The description ends with the work count and, when there is a date line, starts with it. */
  lemma {:induction false} OgDescriptionShape(dateText: string, venue: string, total: nat)
    ensures EndsWith(OgDescription(dateText, venue, total), NatToString(total) + " works")
    ensures !PhpEmpty(dateText) ==> StartsWith(OgDescription(dateText, venue, total), dateText + " · ")
    ensures PhpEmpty(dateText) && PhpEmpty(venue) ==> OgDescription(dateText, venue, total) == NatToString(total) + " works"
  {
    JoinEnds(DescriptionParts(dateText, venue, total), " · ");
  }

  /** The caption title of a carousel entry: the metadata title, else the stem. */
  function CaptionTitle(meta: Gallery.Meta, f: string): (r: Json)
    ensures f !in meta ==> r == JStr(Stem(f))
  {
    Coalesce(Gallery.EntryOf(meta, f), "title", JStr(Stem(f)))
  }

  /** goTo: below 0 wraps to the last artwork, at or past the end to the first. */
  function GoTo(idx: int, total: nat): (r: int)
    ensures total > 0 && -1 <= idx <= total ==> 0 <= r < total
    ensures 0 <= idx < total ==> r == idx
  {
    var i := if idx < 0 then total - 1 else idx;
    if i >= total then 0 else i
  }

  /** 'next' and 'previous' buttons step with wrap-around. */
  function Next(i: int, total: nat): int { GoTo(i + 1, total) }
  function Prev(i: int, total: nat): int { GoTo(i - 1, total) }

  lemma {:induction false} NextPrevInverse(i: int, total: nat)
    requires 0 <= i < total
    ensures Prev(Next(i, total), total) == i
    ensures Next(Prev(i, total), total) == i
  {
  }

  function Steps(i: int, total: nat, k: nat): int
  {
    if k == 0 then i else Next(Steps(i, total, k - 1), total)
  }

  /** k presses of 'next' from position i, for k up to a full round, land on i + k wrapped once: a full round returns to the start. */
  lemma {:induction false} StepsWrap(i: int, total: nat, k: nat)
    requires 0 <= i < total && k <= total
    ensures Steps(i, total, k) == if i + k < total then i + k else i + k - total
  {
    if k > 0 {
      StepsWrap(i, total, k - 1);
    }
  }

  lemma {:induction false} FullRound(i: int, total: nat)
    requires 0 <= i < total
    ensures Steps(i, total, total) == i
  {
    StepsWrap(i, total, total);
  }
}
