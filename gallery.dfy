// The public gallery page (index.php): the artwork list built from the
// uploads directory, the tag list and tag filter, the Open Graph image, the
// grouping of exhibits by date and the badge on each exhibit card.

module Gallery {
  import opened Common
  import opened GalleryFiles
  import Exhibits

  /** artwork_meta.json: original file name to its metadata entry. */
  type Meta = map<string, map<string, Json>>

  datatype Card = Card(filename: string, original: string, title: Json, tags: seq<string>,
                       status: Json, medium: Json, dimensions: Json)

  function EntryOf(meta: Meta, b: string): map<string, Json>
  {
    if b in meta then meta[b] else map[]
  }

  /** The `_medium` variant shown in the grid when it is on disk, else the original. */
  function DisplayFile(b: string, present: set<string>): string
  {
    if SizedName(b, "medium") in present then SizedName(b, "medium") else b
  }

  /** The string tags of an entry's tag list. */
  function TagStrings(v: Json): (r: seq<string>)
    ensures v.JArr? ==> forall t :: t in r <==> JStr(t) in v.items
    ensures !v.JArr? ==> r == []
  {
    match v
    case JArr(items) => StringItems(items)
    case _ => []
  }

  function StringItems(items: seq<Json>): (r: seq<string>)
    ensures forall t :: t in r <==> JStr(t) in items
  {
    if items == [] then []
    else (if items[0].JStr? then [items[0].s] else []) + StringItems(items[1..])
  }

  /** One grid card: title `?? fallback`, tags `?? []`, status `?? 'available'`. */
  function CardOf(b: string, meta: Meta, present: set<string>): Card
  {
    var e := EntryOf(meta, b);
    Card(DisplayFile(b, present), b,
         Coalesce(e, "title", JStr(PlainTitle(Stem(b)))),
         TagStrings(Coalesce(e, "tags", JArr([]))),
         Coalesce(e, "status", JStr("available")),
         Coalesce(e, "medium", JStr("")),
         Coalesce(e, "dimensions", JStr("")))
  }

  /** The cards of the listed files, in listing order, variants skipped. */
  function Cards(files: seq<string>, meta: Meta, present: set<string>): (r: seq<Card>)
    ensures |r| <= |files|
    ensures forall i :: 0 <= i < |r| ==> !IsIndexVariant(r[i].original) && r[i] == CardOf(r[i].original, meta, present)
    decreases |files|
  {
    if files == [] then []
    else
      var last := files[|files| - 1];
      Cards(files[..|files| - 1], meta, present) + (if IsIndexVariant(last) then [] else [CardOf(last, meta, present)])
  }

  function Originals(cards: seq<Card>): (r: seq<string>)
    ensures |r| == |cards| && forall i :: 0 <= i < |cards| ==> r[i] == cards[i].original
  {
    seq(|cards|, i requires 0 <= i < |cards| => cards[i].original)
  }

  /** A file gets a card exactly when it is listed and is not a resized variant. */
  lemma {:induction false} CardsAreOriginals(files: seq<string>, meta: Meta, present: set<string>, f: string)
    ensures f in Originals(Cards(files, meta, present)) <==> f in files && !IsIndexVariant(f)
    decreases |files|
  {
    if files != [] {
      var init := files[..|files| - 1];
      CardsAreOriginals(init, meta, present, f);
      var prev := Cards(init, meta, present);
      var last := files[|files| - 1];
      var extra := if IsIndexVariant(last) then [] else [CardOf(last, meta, present)];
      assert Cards(files, meta, present) == prev + extra;
      OriginalsStep(prev, last, meta, present);
      var kept := if IsIndexVariant(last) then [] else [last];
      assert f in Originals(prev) + kept <==> f in Originals(prev) || f in kept;
      InInitOrLast(files, f);
    }
  }

  /** A listed file is in all but the last entry, or is the last. */
  lemma {:induction false} InInitOrLast(files: seq<string>, f: string)
    requires files != []
    ensures f in files <==> f in files[..|files| - 1] || f == files[|files| - 1]
  {
    var init := files[..|files| - 1];
    if f in files {
      var i :| 0 <= i < |files| && files[i] == f;
      if i < |init| {
        assert init[i] == f;
      }
    }
    if f in init {
      var i :| 0 <= i < |init| && init[i] == f;
      assert files[i] == f;
    }
  }

  lemma {:induction false} OriginalsStep(prev: seq<Card>, last: string, meta: Meta, present: set<string>)
    ensures var extra := if IsIndexVariant(last) then [] else [CardOf(last, meta, present)];
      Originals(prev + extra) == Originals(prev) + (if IsIndexVariant(last) then [] else [last])
  {
  }

  /** The display file is the original or its medium variant, the variant only when on disk. */
  lemma {:induction false} DisplayFileChoice(b: string, present: set<string>)
    ensures SizedName(b, "medium") in present ==> DisplayFile(b, present) == SizedName(b, "medium")
    ensures SizedName(b, "medium") !in present ==> DisplayFile(b, present) == b
    ensures Extension(b) != "" ==> IsIndexVariant(DisplayFile(b, present)) || DisplayFile(b, present) == b
  {
    if Extension(b) != "" {
      VariantsHiddenFromGallery(b, 1);
      assert IndexSizes[1] == "medium";
      assert IsIndexVariant(SizedName(b, "medium"));
    }
  }

  /** A card's title: the metadata title when set, else the plain fallback of the stem. */
  lemma {:induction false} CardTitle(b: string, meta: Meta, present: set<string>)
    ensures var e := EntryOf(meta, b);
      "title" in e && !e["title"].JNull? ==> CardOf(b, meta, present).title == e["title"]
    ensures var e := EntryOf(meta, b);
      ("title" !in e || e["title"].JNull?) && IsGeneratedName(Stem(b)) ==> CardOf(b, meta, present).title == JStr("Untitled")
    ensures var e := EntryOf(meta, b);
      ("title" !in e || e["title"].JNull?) && !IsGeneratedName(Stem(b)) ==> CardOf(b, meta, present).title == JStr(Stem(b))
  {
  }

  // ---------------------------------------------------------------------
  // Tags

  /** Every tag of every card. */
  function TagSet(cards: seq<Card>): set<string>
    decreases |cards|
  {
    if cards == [] then {}
    else TagSet(cards[..|cards| - 1]) + Elements(cards[|cards| - 1].tags)
  }

  function Elements(s: seq<string>): set<string>
  {
    set t | t in s
  }

  lemma {:induction false} TagSetMembers(cards: seq<Card>, t: string)
    ensures t in TagSet(cards) <==> exists i :: 0 <= i < |cards| && t in cards[i].tags
    decreases |cards|
  {
    if cards != [] {
      var init := cards[..|cards| - 1];
      TagSetMembers(init, t);
      if t in TagSet(init) {
        var i :| 0 <= i < |init| && t in init[i].tags;
        assert cards[i] == init[i];
      }
      if exists i :: 0 <= i < |cards| && t in cards[i].tags {
        var i :| 0 <= i < |cards| && t in cards[i].tags;
        if i < |init| {
          assert init[i] == cards[i];
        }
      }
    }
  }

  /**
   * The artwork loop: one card per original in listing order, and the tag
   * list, each tag of any card once, sorted.
   */
  method BuildGallery(files: seq<string>, meta: Meta, present: set<string>)
      returns (cards: seq<Card>, allTags: seq<string>)
    ensures cards == Cards(files, meta, present)
    ensures SortedStrings(allTags) && Distinct(allTags)
    ensures forall t :: t in allTags <==> t in TagSet(cards)
  {
    cards := [];
    var tags: seq<string> := [];
    for i := 0 to |files|
      invariant cards == Cards(files[..i], meta, present)
      invariant Distinct(tags)
      invariant forall t :: t in tags <==> t in TagSet(cards)
    {
      var b := files[i];
      assert files[..i + 1][..i] == files[..i];
      if !IsIndexVariant(b) {
        var card := CardOf(b, meta, present);
        tags := CollectTags(tags, card.tags);
        cards := cards + [card];
        assert cards[..|cards| - 1] == cards[..|cards| - 1];
      }
    }
    assert files[..|files|] == files;
    allTags := SortStrings(tags);
    SortedDistinct(tags, allTags);
  }

  /** The inner tag loop: append each tag not yet collected (in_array). */
  method CollectTags(tags: seq<string>, more: seq<string>) returns (r: seq<string>)
    requires Distinct(tags)
    ensures Distinct(r)
    ensures forall t :: t in r <==> t in tags || t in more
    ensures |r| >= |tags| && r[..|tags|] == tags
  {
    r := tags;
    for j := 0 to |more|
      invariant Distinct(r)
      invariant forall t :: t in r <==> t in tags || t in more[..j]
      invariant |r| >= |tags| && r[..|tags|] == tags
    {
      if more[j] !in r {
        r := r + [more[j]];
      }
      assert more[..j + 1] == more[..j] + [more[j]];
    }
    assert more[..|more|] == more;
  }

  /** strtolower(trim($_GET['tag'])), or '' without the parameter. */
  function ActiveTag(param: Option<string>): string
  {
    match param
    case Some(g) => ToLower(Trim(g))
    case None => ""
  }

  /** The grid loop skips a card when a (truthy) active tag is not among its tags. */
  function Shown(cards: seq<Card>, active: string): (r: seq<Card>)
    ensures |r| <= |cards|
  {
    if cards == [] then []
    else
      (if PhpEmpty(active) || active in cards[0].tags then [cards[0]] else []) + Shown(cards[1..], active)
  }

  /** Exactly the cards carrying the active tag are rendered; with no active tag, all of them. */
  lemma {:induction false} ShownCards(cards: seq<Card>, active: string)
    ensures PhpEmpty(active) ==> Shown(cards, active) == cards
    ensures forall c :: c in Shown(cards, active) <==> c in cards && (PhpEmpty(active) || active in c.tags)
    decreases |cards|
  {
    if cards != [] {
      ShownCards(cards[1..], active);
      assert cards == [cards[0]] + cards[1..];
    }
  }

  // ---------------------------------------------------------------------
  // Open Graph

  /** getSocialImageUrl: the `_social` variant when on disk, else the original. */
  function SocialUrl(original: string, present: set<string>, baseUrl: string): string
  {
    baseUrl + "/uploads/" + (if SizedName(original, "social") in present then SizedName(original, "social") else original)
  }

  /** `$site_name ?: 'this gallery'`. */
  function SiteOr(site: string): string
  {
    if PhpEmpty(site) then "this gallery" else site
  }

  /** The first card whose original is exactly `shared`. */
  function FindShared(cards: seq<Card>, shared: string): (r: Option<nat>)
    ensures r.Some? ==> r.value < |cards| && cards[r.value].original == shared
    ensures r.Some? ==> forall i :: 0 <= i < r.value ==> cards[i].original != shared
    ensures r.None? ==> forall i :: 0 <= i < |cards| ==> cards[i].original != shared
  {
    if cards == [] then None
    else if cards[0].original == shared then Some(0)
    else match FindShared(cards[1..], shared)
      case Some(k) => Some(k + 1)
      case None => None
  }

  /**
   * The Open Graph image and description: the shared artwork's social image
   * when `?art=` names a listed original, else the first artwork's with a
   * count of the artworks, else the site-wide default.
   */
  method OpenGraph(cards: seq<Card>, shared: Option<string>, present: set<string>,
                   baseUrl: string, artist: string, site: string)
      returns (image: string, description: string)
    ensures shared.Some? && !PhpEmpty(shared.value) && FindShared(cards, shared.value).Some? ==>
      image == SocialUrl(shared.value, present, baseUrl) &&
      description == "Artwork by " + artist + " on " + SiteOr(site)
    ensures (shared.None? || PhpEmpty(shared.value) || FindShared(cards, shared.value).None?) && cards != [] ==>
      image == SocialUrl(cards[0].original, present, baseUrl) &&
      description == "Discover " + NatToString(|cards|) + " artwork" + (if |cards| > 1 then "s" else "")
                     + " by " + artist + " on " + SiteOr(site)
    ensures cards == [] ==> image == "" && description == "View artwork by " + artist + " on " + SiteOr(site)
  {
    image := "";
    description := "View artwork by " + artist + " on " + SiteOr(site);
    if shared.Some? && !PhpEmpty(shared.value) && cards != [] {
      var i := 0;
      while i < |cards|
        invariant 0 <= i <= |cards|
        invariant forall k :: 0 <= k < i ==> cards[k].original != shared.value
        invariant image == ""
      {
        if cards[i].original == shared.value {
          image := SocialUrl(cards[i].original, present, baseUrl);
          description := "Artwork by " + artist + " on " + SiteOr(site);
          break;
        }
        i := i + 1;
      }
    }
    if image == "" && cards != [] {
      image := SocialUrl(cards[0].original, present, baseUrl);
      description := "Discover " + NatToString(|cards|) + " artwork" + (if |cards| > 1 then "s" else "")
                     + " by " + artist + " on " + SiteOr(site);
    }
  }

  // ---------------------------------------------------------------------
  // Exhibits by date

  datatype Bucket = Current | Permanent | Past | Upcoming

  function Get(ex: Exhibits.Exhibit, k: string): Json
  {
    if k in ex then ex[k] else JNull
  }

  /** strtotime(): the clock's reading of a date text, or false (None) when it cannot parse it. */
  function StrToTime(v: Json, times: map<string, int>): Option<int>
  {
    if v.JStr? && v.s in times then Some(times[v.s]) else None
  }

  /** `!empty($ex[k]) ? strtotime($ex[k]) : null`, read as a truthy timestamp or nothing. */
  function Stamp(ex: Exhibits.Exhibit, k: string, times: map<string, int>): (r: Option<int>)
    ensures r.Some? ==> r.value != 0 && !EmptyJson(Get(ex, k))
  {
    if EmptyJson(Get(ex, k)) then None
    else match StrToTime(Get(ex, k), times)
      case Some(t) => if t != 0 then Some(t) else None
      case None => None
  }

  predicate IsPermanent(ex: Exhibits.Exhibit)
  {
    Coalesce(ex, "duration", JStr("temporary")) == JStr("permanent")
  }

  /** Where the exhibit loop files one exhibit; None when it is hidden. */
  function BucketOf(ex: Exhibits.Exhibit, authenticated: bool, now: int, times: map<string, int>): Option<Bucket>
  {
    if !Exhibits.Published(ex) && !authenticated then None
    else if IsPermanent(ex) then Some(Permanent)
    else
      var start := Stamp(ex, "start_date", times);
      var end := Stamp(ex, "end_date", times);
      if start.Some? && start.value > now then Some(Upcoming)
      else if end.Some? && end.value < now then Some(Past)
      else Some(Current)
  }

  /** The exhibits of `done` that the loop filed under b, keyed by slug. */
  function InBucket(all: map<string, Exhibits.Exhibit>, done: set<string>, b: Bucket,
                    authenticated: bool, now: int, times: map<string, int>): map<string, Exhibits.Exhibit>
  {
    map s | s in done && s in all && BucketOf(all[s], authenticated, now, times) == Some(b) :: all[s]
  }

  /** The exhibit loop: each visible exhibit goes to the bucket BucketOf names. */
  method Partition(all: map<string, Exhibits.Exhibit>, authenticated: bool, now: int, times: map<string, int>)
      returns (current: map<string, Exhibits.Exhibit>, permanent: map<string, Exhibits.Exhibit>,
               past: map<string, Exhibits.Exhibit>, upcoming: map<string, Exhibits.Exhibit>)
    ensures current == InBucket(all, all.Keys, Current, authenticated, now, times)
    ensures permanent == InBucket(all, all.Keys, Permanent, authenticated, now, times)
    ensures past == InBucket(all, all.Keys, Past, authenticated, now, times)
    ensures upcoming == InBucket(all, all.Keys, Upcoming, authenticated, now, times)
  {
    current, permanent, past, upcoming := map[], map[], map[], map[];
    var rest := all.Keys;
    assert all.Keys - rest == {};
    while rest != {}
      invariant rest <= all.Keys
      invariant current == InBucket(all, all.Keys - rest, Current, authenticated, now, times)
      invariant permanent == InBucket(all, all.Keys - rest, Permanent, authenticated, now, times)
      invariant past == InBucket(all, all.Keys - rest, Past, authenticated, now, times)
      invariant upcoming == InBucket(all, all.Keys - rest, Upcoming, authenticated, now, times)
      decreases |rest|
    {
      var s :| s in rest;
      var done := all.Keys - rest;
      assert all.Keys - (rest - {s}) == done + {s};
      current, permanent, past, upcoming :=
        FileExhibit(all, done, s, authenticated, now, times, current, permanent, past, upcoming);
      rest := rest - {s};
    }
    assert all.Keys - rest == all.Keys;
  }

  /** One pass of the exhibit loop: exhibit s goes to the bucket BucketOf names, if any. */
  method FileExhibit(all: map<string, Exhibits.Exhibit>, done: set<string>, s: string,
                     authenticated: bool, now: int, times: map<string, int>,
                     current: map<string, Exhibits.Exhibit>, permanent: map<string, Exhibits.Exhibit>,
                     past: map<string, Exhibits.Exhibit>, upcoming: map<string, Exhibits.Exhibit>)
      returns (current': map<string, Exhibits.Exhibit>, permanent': map<string, Exhibits.Exhibit>,
               past': map<string, Exhibits.Exhibit>, upcoming': map<string, Exhibits.Exhibit>)
    requires s in all
    requires current == InBucket(all, done, Current, authenticated, now, times)
    requires permanent == InBucket(all, done, Permanent, authenticated, now, times)
    requires past == InBucket(all, done, Past, authenticated, now, times)
    requires upcoming == InBucket(all, done, Upcoming, authenticated, now, times)
    ensures current' == InBucket(all, done + {s}, Current, authenticated, now, times)
    ensures permanent' == InBucket(all, done + {s}, Permanent, authenticated, now, times)
    ensures past' == InBucket(all, done + {s}, Past, authenticated, now, times)
    ensures upcoming' == InBucket(all, done + {s}, Upcoming, authenticated, now, times)
  {
    current', permanent', past', upcoming' := current, permanent, past, upcoming;
    var b := BucketOf(all[s], authenticated, now, times);
    InBucketStep(all, done, s, Current, authenticated, now, times, b);
    InBucketStep(all, done, s, Permanent, authenticated, now, times, b);
    InBucketStep(all, done, s, Past, authenticated, now, times, b);
    InBucketStep(all, done, s, Upcoming, authenticated, now, times, b);
    if b == Some(Current) {
      current' := current[s := all[s]];
    } else if b == Some(Permanent) {
      permanent' := permanent[s := all[s]];
    } else if b == Some(Past) {
      past' := past[s := all[s]];
    } else if b == Some(Upcoming) {
      upcoming' := upcoming[s := all[s]];
    }
  }

  lemma {:induction false} InBucketStep(all: map<string, Exhibits.Exhibit>, done: set<string>, s: string, b: Bucket,
                     authenticated: bool, now: int, times: map<string, int>, found: Option<Bucket>)
    requires s in all && found == BucketOf(all[s], authenticated, now, times)
    ensures InBucket(all, done + {s}, b, authenticated, now, times) ==
      if found == Some(b)
      then InBucket(all, done, b, authenticated, now, times)[s := all[s]]
      else InBucket(all, done, b, authenticated, now, times)
  {
  }

  /** Each visible exhibit is in exactly one bucket, a hidden one in none. */
  lemma {:induction false} BucketsPartition(all: map<string, Exhibits.Exhibit>, authenticated: bool, now: int,
                         times: map<string, int>, s: string)
    requires s in all
    ensures var buckets := [Current, Permanent, Past, Upcoming];
      |set k | 0 <= k < 4 && s in InBucket(all, all.Keys, buckets[k], authenticated, now, times)|
        == (if Exhibits.Published(all[s]) || authenticated then 1 else 0)
  {
    var buckets := [Current, Permanent, Past, Upcoming];
    var hits := set k | 0 <= k < 4 && s in InBucket(all, all.Keys, buckets[k], authenticated, now, times);
    var b := BucketOf(all[s], authenticated, now, times);
    if b.Some? {
      var k := match b.value case Current => 0 case Permanent => 1 case Past => 2 case Upcoming => 3;
      assert buckets[k] == b.value;
      assert hits == {k};
    } else {
      assert hits == {};
    }
  }

  /** The bucket rules in words: permanent first, then a future start, then a past end. */
  lemma {:induction false} BucketRules(ex: Exhibits.Exhibit, authenticated: bool, now: int, times: map<string, int>)
    requires Exhibits.Published(ex) || authenticated
    ensures IsPermanent(ex) <==> BucketOf(ex, authenticated, now, times) == Some(Permanent)
    ensures (!IsPermanent(ex) && Stamp(ex, "start_date", times).Some? && Stamp(ex, "start_date", times).value > now)
              <==> BucketOf(ex, authenticated, now, times) == Some(Upcoming)
    ensures BucketOf(ex, authenticated, now, times) == Some(Past) ==>
              Stamp(ex, "end_date", times).Some? && Stamp(ex, "end_date", times).value < now
    ensures (!IsPermanent(ex) && (Stamp(ex, "start_date", times).None? || Stamp(ex, "start_date", times).value <= now)
              && (Stamp(ex, "end_date", times).None? || Stamp(ex, "end_date", times).value >= now))
              <==> BucketOf(ex, authenticated, now, times) == Some(Current)
  {
  }

  // ---------------------------------------------------------------------
  // Exhibit card badge

  datatype Badge = NoBadge | PermanentBadge | Opens(opens: int) | Closed | Through(until: Option<int>) | Draft

  /** PHP 8 `strtotime(...) > $now`: false compares as a boolean, and false > anything is false. */
  predicate AfterNow(t: Option<int>, now: int)
  {
    match t
    case Some(x) => x > now
    case None => false
  }

  /** PHP 8 `strtotime(...) < $now`: false < $now holds whenever $now is non-zero. */
  predicate BeforeNowAsWritten(t: Option<int>, now: int)
  {
    match t
    case Some(x) => x < now
    case None => now != 0
  }

  /** The card badge as written: an end date strtotime cannot read counts as past. */
  function CardBadgeAsWritten(ex: Exhibits.Exhibit, now: int, times: map<string, int>): Badge
  {
    var st := Get(ex, "start_date");
    var en := Get(ex, "end_date");
    var dated :=
      if Coalesce(ex, "duration", JStr("")) == JStr("permanent") then PermanentBadge
      else if !EmptyJson(st) && AfterNow(StrToTime(st, times), now) then Opens(StrToTime(st, times).value)
      else if !EmptyJson(en) && BeforeNowAsWritten(StrToTime(en, times), now) then Closed
      else if !EmptyJson(en) then Through(StrToTime(en, times))
      else NoBadge;
    if !Exhibits.Published(ex) then Draft else dated
  }

  /**
   * An exhibit whose end date cannot be parsed is filed under current
   * exhibits but its card says 'Closed'.
   */
  lemma {:induction false} UnreadableEndClosesCard()
    ensures var ex := map["status" := JStr("published"), "end_date" := JStr("soon")];
      CardBadgeAsWritten(ex, 1000, map[]) == Closed &&
      BucketOf(ex, false, 1000, map[]) == Some(Current)
  {
    var ex := map["status" := JStr("published"), "end_date" := JStr("soon")];
    assert Exhibits.Published(ex);
    assert Get(ex, "start_date") == JNull;
    assert "duration" !in ex;
  }

  /** The card badge with the bucket's truthy-timestamp tests, so that card and group agree. */
  function CardBadge(ex: Exhibits.Exhibit, now: int, times: map<string, int>): (r: Badge)
    ensures !Exhibits.Published(ex) ==> r == Draft
  {
    var start := Stamp(ex, "start_date", times);
    var end := Stamp(ex, "end_date", times);
    var dated :=
      if IsPermanent(ex) then PermanentBadge
      else if start.Some? && start.value > now then Opens(start.value)
      else if end.Some? && end.value < now then Closed
      else if !EmptyJson(Get(ex, "end_date")) then Through(StrToTime(Get(ex, "end_date"), times))
      else NoBadge;
    if !Exhibits.Published(ex) then Draft else dated
  }

  /** For a published exhibit the corrected badge names its group. */
  lemma {:induction false} CardBadgeMatchesBucket(ex: Exhibits.Exhibit, authenticated: bool, now: int, times: map<string, int>)
    requires Exhibits.Published(ex)
    ensures CardBadge(ex, now, times) == PermanentBadge <==> BucketOf(ex, authenticated, now, times) == Some(Permanent)
    ensures CardBadge(ex, now, times).Opens? <==> BucketOf(ex, authenticated, now, times) == Some(Upcoming)
    ensures CardBadge(ex, now, times) == Closed <==> BucketOf(ex, authenticated, now, times) == Some(Past)
  {
  }

  /** A 'Draft' badge overrides any date badge, in both versions. */
  lemma {:induction false} DraftOverrides(ex: Exhibits.Exhibit, now: int, times: map<string, int>)
    ensures !Exhibits.Published(ex) <==> CardBadgeAsWritten(ex, now, times) == Draft
    ensures !Exhibits.Published(ex) <==> CardBadge(ex, now, times) == Draft
  {
  }
}
