// The single-artwork page (art.php): which file it shows, its Open Graph
// image, title and description, the previous/next neighbours in the
// navigation list and the swipe gesture that follows them.

module ArtPage {
  import opened Common
  import opened GalleryFiles

  /** `basename($_GET['f'])`, or None when the parameter is missing or the name is falsy (redirect to '/'). */
  function RequestedFile(param: Option<string>): (r: Option<string>)
    ensures r.Some? ==> param.Some? && r.value == Basename(param.value) && !PhpEmpty(r.value)
    ensures param.Some? && !PhpEmpty(Basename(param.value)) ==> r.Some?
  {
    match param
    case None => None
    case Some(p) => if PhpEmpty(Basename(p)) then None else Some(Basename(p))
  }

  datatype Page = Redirect | NotFound | Found(filename: string)

  /** The page's gate: a redirect, a 404 for a file not in the uploads directory, or the file. */
  function Open(param: Option<string>, present: set<string>): (r: Page)
    ensures r.Found? ==> r.filename in present && forall i :: 0 <= i < |r.filename| ==> r.filename[i] != '/'
    ensures r == Redirect <==> RequestedFile(param).None?
  {
    match RequestedFile(param)
    case None => Redirect
    case Some(f) => if f in present then Found(f) else NotFound
  }

  /** The Open Graph image: the `_social` variant, else the `_large` one, else the original. */
  function OgImage(filename: string, present: set<string>, baseUrl: string): (r: string)
  {
    baseUrl + "/uploads/" +
      (if SizedName(filename, "social") in present then SizedName(filename, "social")
       else if SizedName(filename, "large") in present then SizedName(filename, "large")
       else filename)
  }

  /** The preference order of the Open Graph image. */
  lemma {:induction false} OgImagePreference(filename: string, present: set<string>, baseUrl: string)
    ensures SizedName(filename, "social") in present ==>
      OgImage(filename, present, baseUrl) == baseUrl + "/uploads/" + SizedName(filename, "social")
    ensures SizedName(filename, "social") !in present && SizedName(filename, "large") in present ==>
      OgImage(filename, present, baseUrl) == baseUrl + "/uploads/" + SizedName(filename, "large")
    ensures SizedName(filename, "social") !in present && SizedName(filename, "large") !in present ==>
      OgImage(filename, present, baseUrl) == baseUrl + "/uploads/" + filename
  {
  }

  /**
   * The page title: the metadata title when it is set and not empty(),
   * otherwise the cleaned-up stem of the file name.
   */
  function Title(filename: string, entry: Option<map<string, Json>>): (r: Json)
    ensures entry.Some? && "title" in entry.value && !EmptyJson(entry.value["title"]) ==> r == entry.value["title"]
    ensures !(entry.Some? && "title" in entry.value && !EmptyJson(entry.value["title"])) ==>
      r == JStr(PrettyTitle(Stem(filename)))
  {
    if entry.Some? && "title" in entry.value && !EmptyJson(entry.value["title"]) then entry.value["title"]
    else JStr(PrettyTitle(Stem(filename)))
  }

  /** A title never comes out as the empty string when the file has a stem. */
  lemma {:induction false} TitleNotEmpty(filename: string, entry: Option<map<string, Json>>)
    requires Stem(filename) != ""
    ensures Title(filename, entry) != JStr("")
  {
  }

  /** 'Artwork by <artist>', then ' on <site>' when set, then ' - <location>' when set. */
  function OgDescription(artist: string, site: string, location: string): (r: string)
    ensures StartsWith(r, "Artwork by " + artist)
    ensures PhpEmpty(site) && PhpEmpty(location) ==> r == "Artwork by " + artist
    ensures !PhpEmpty(site) && PhpEmpty(location) ==> r == "Artwork by " + artist + " on " + site
    ensures PhpEmpty(site) && !PhpEmpty(location) ==> r == "Artwork by " + artist + " - " + location
    ensures !PhpEmpty(site) && !PhpEmpty(location) ==> r == "Artwork by " + artist + " on " + site + " - " + location
  {
    var head := "Artwork by " + artist;
    var withSite := if PhpEmpty(site) then head else head + (" on " + site);
    var r := if PhpEmpty(location) then withSite else withSite + (" - " + location);
    assert r[..|head|] == head;
    r
  }

  // ---------------------------------------------------------------------
  // Navigation

  /** The navigation list: the listed images that are not large/medium/small/social variants. */
  function NavFiles(files: seq<string>): (r: seq<string>)
    ensures forall f :: f in r <==> f in files && !IsNavVariant(f)
  {
    if files == [] then []
    else NavFiles(files[..|files| - 1]) + (if IsNavVariant(files[|files| - 1]) then [] else [files[|files| - 1]])
  }

  /** The navigation loop over the directory listing, in listing order. */
  method NavList(files: seq<string>) returns (list: seq<string>)
    ensures list == NavFiles(files)
  {
    list := [];
    for i := 0 to |files|
      invariant list == NavFiles(files[..i])
    {
      assert files[..i + 1][..i] == files[..i];
      if !IsNavVariant(files[i]) {
        list := list + [files[i]];
      }
    }
    assert files[..|files|] == files;
  }

  /** array_search: the first position of x, or false (None). */
  function Search(list: seq<string>, x: string): (r: Option<nat>)
    ensures r.Some? ==> r.value < |list| && list[r.value] == x && x !in list[..r.value]
    ensures r.None? <==> x !in list
  {
    if list == [] then None
    else if list[0] == x then Some(0)
    else match Search(list[1..], x)
      case Some(k) =>
        assert list[..k + 1] == [list[0]] + list[1..][..k];
        Some(k + 1)
      case None => None
  }

  datatype Neighbours = Neighbours(prev: Option<string>, next: Option<string>)

  /**
   * The neighbours as written. When the file is not in the list the index is
   * false, `false > 0` is false and `false < n - 1` compares false with the
   * boolean of n - 1, so next is `$artworks[1]` (null when n < 2).
   */
  function NeighboursAsWritten(list: seq<string>, filename: string): Neighbours
  {
    match Search(list, filename)
    case Some(i) =>
      Neighbours(if i > 0 then Some(list[i - 1]) else None,
                 if i < |list| - 1 then Some(list[i + 1]) else None)
    case None =>
      Neighbours(None, if |list| >= 2 then Some(list[1]) else None)
  }

  /**
   * A file on disk but outside the list (here an upper-case extension, which
   * the lower-case glob patterns do not match) gets the second artwork as
   * its 'next' neighbour.
   */
  lemma {:induction false} UnlistedFileGetsNext()
    ensures NeighboursAsWritten(["a.jpg", "b.jpg"], "c.JPG") == Neighbours(None, Some("b.jpg"))
  {
    assert "c.JPG" !in ["a.jpg", "b.jpg"] by {
      assert "c.JPG"[0] != "a.jpg"[0] && "c.JPG"[0] != "b.jpg"[0];
    }
  }

  /** The neighbours, with no neighbours at all for a file that is not in the list. */
  function NeighboursOf(list: seq<string>, filename: string): (r: Neighbours)
    ensures filename !in list ==> r == Neighbours(None, None)
  {
    match Search(list, filename)
    case Some(i) =>
      Neighbours(if i > 0 then Some(list[i - 1]) else None,
                 if i < |list| - 1 then Some(list[i + 1]) else None)
    case None => Neighbours(None, None)
  }

  /**
   * The neighbours of a listed file are the entries beside its first
   * occurrence; the first file has no previous and the last no next.
   */
  lemma {:induction false} NeighboursAdjacent(list: seq<string>, filename: string)
    requires filename in list
    ensures var i := Search(list, filename).value;
      && (NeighboursOf(list, filename).prev.Some? <==> i > 0)
      && (NeighboursOf(list, filename).next.Some? <==> i < |list| - 1)
      && (i > 0 ==> NeighboursOf(list, filename).prev == Some(list[i - 1]))
      && (i < |list| - 1 ==> NeighboursOf(list, filename).next == Some(list[i + 1]))
      && NeighboursOf(list, filename) == NeighboursAsWritten(list, filename)
  {
  }

  /** Stepping to the next neighbour and back returns to a file listed once. */
  lemma {:induction false} NextThenPrev(list: seq<string>, filename: string)
    requires Distinct(list) && filename in list
    requires NeighboursOf(list, filename).next.Some?
    ensures NeighboursOf(list, NeighboursOf(list, filename).next.value).prev == Some(filename)
  {
    var i := Search(list, filename).value;
    var n := list[i + 1];
    var j := Search(list, n).value;
    assert j == i + 1;
  }

  // ---------------------------------------------------------------------
  // Swipe

  datatype Swipe = GoPrev | GoNext | Stay

  function Abs(x: int): nat { if x < 0 then -x else x }

  /** A JavaScript string is truthy unless it is empty; null is falsy. */
  predicate Truthy(s: Option<string>) { s.Some? && s.value != "" }

  /**
   * handleSwipe: a mostly horizontal swipe longer than 50 pixels goes to the
   * previous artwork when it moves right and to the next when it moves left.
   */
  function HandleSwipe(dx: int, dy: int, prev: Option<string>, next: Option<string>): (r: Swipe)
    ensures r == GoPrev <==> Abs(dx) > Abs(dy) && Abs(dx) > 50 && dx > 0 && Truthy(prev)
    ensures r == GoNext <==> Abs(dx) > Abs(dy) && Abs(dx) > 50 && dx < 0 && Truthy(next)
  {
    if Abs(dx) > Abs(dy) && Abs(dx) > 50 then
      if dx > 0 && Truthy(prev) then GoPrev
      else if dx < 0 && Truthy(next) then GoNext
      else Stay
    else Stay
  }

  /** Swiping never leaves through a missing neighbour, and a short or vertical swipe does nothing. */
  lemma {:induction false} SwipeStays(dx: int, dy: int, prev: Option<string>, next: Option<string>)
    requires Abs(dx) <= 50 || Abs(dx) <= Abs(dy)
    ensures HandleSwipe(dx, dy, prev, next) == Stay
  {
  }
}
