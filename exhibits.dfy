// The exhibit store behind update_exhibits.php: a JSON object from slug to
// exhibit record, changed in place by the create, update, delete and
// reorder actions of an authenticated, CSRF-checked POST.
module Exhibits {
  import opened Common
  import PhpExport

  /** An exhibit record: field name to decoded JSON value. */
  type Exhibit = map<string, Json>

  // ---------------------------------------------------------------------
  // Slug generation

  /** The characters a sanitised slug may hold. */
  predicate IsSlugChar(c: char) { IsDigit(c) || IsLower(c) || c == '-' }

  predicate SlugChars(s: string) { forall i :: 0 <= i < |s| ==> IsSlugChar(s[i]) }

  /** No two '-' next to each other. */
  predicate NoDoubleDash(s: string) { forall i :: 0 <= i < |s| - 1 ==> !(s[i] == '-' && s[i + 1] == '-') }

  /**
   * preg_replace('/[^a-z0-9]+/i', '-', s): every maximal run of characters
   * other than ASCII letters and digits becomes one '-'. inRun says that
   * the previous character already started such a run.
   */
  function DashRuns(s: string, inRun: bool): (r: string)
    ensures forall i :: 0 <= i < |r| ==> IsAlnum(r[i]) || r[i] == '-'
    ensures inRun && r != [] ==> r[0] != '-'
    ensures NoDoubleDash(r)
  {
    if s == [] then []
    else if IsAlnum(s[0]) then [s[0]] + DashRuns(s[1..], false)
    else if inRun then DashRuns(s[1..], true)
    else ['-'] + DashRuns(s[1..], true)
  }

  /** trim($s, '-'). */
  function TrimDashes(s: string): (r: string)
    ensures r == [] || (r[0] != '-' && r[|r| - 1] != '-')
    ensures exists i, j :: 0 <= i <= j <= |s| && r == s[i..j]
    decreases |s|
  {
    if s != [] && s[0] == '-' then
      var r := TrimDashes(s[1..]);
      var i, j :| 0 <= i <= j <= |s| - 1 && r == s[1..][i..j];
      assert s[1..][i..j] == s[i + 1..j + 1];
      assert 0 <= i + 1 <= j + 1 <= |s| && r == s[i + 1..j + 1];
      r
    else if s != [] && s[|s| - 1] == '-' then
      var r := TrimDashes(s[..|s| - 1]);
      var i, j :| 0 <= i <= j <= |s| - 1 && r == s[..|s| - 1][i..j];
      assert s[..|s| - 1][i..j] == s[i..j];
      assert 0 <= i <= j <= |s| && r == s[i..j];
      r
    else
      assert s == s[0..|s|];
      s
  }

  /** The slug a title asks for, before the uniqueness suffix; `now` is time(). */
  function BaseSlug(title: string, now: nat): string
  {
    var slug := TrimDashes(ToLower(DashRuns(title, false)));
    if PhpEmpty(slug) then "exhibit-" + NatToString(now) else slug
  }

  lemma {:induction false} ToLowerSlugChars(s: string)
    requires forall i :: 0 <= i < |s| ==> IsAlnum(s[i]) || s[i] == '-'
    ensures SlugChars(ToLower(s))
    ensures NoDoubleDash(s) ==> NoDoubleDash(ToLower(s))
  {
    var t := ToLower(s);
    forall i | 0 <= i < |t|
      ensures IsSlugChar(t[i])
    {
      assert t[i] == LowerChar(s[i]);
    }
    if NoDoubleDash(s) {
      forall i | 0 <= i < |t| - 1
        ensures !(t[i] == '-' && t[i + 1] == '-')
      {
        assert t[i] == LowerChar(s[i]) && t[i + 1] == LowerChar(s[i + 1]);
      }
    }
  }

  /** A base slug is a non-empty run of [a-z0-9-] with no doubled '-', and, from a title, no '-' at either end. */
  lemma {:induction false} BaseSlugShape(title: string, now: nat)
    ensures var b := BaseSlug(title, now);
            b != [] && SlugChars(b) && NoDoubleDash(b)
    ensures var slug := TrimDashes(ToLower(DashRuns(title, false)));
            !PhpEmpty(slug) ==> BaseSlug(title, now) == slug && slug[0] != '-' && slug[|slug| - 1] != '-'
  {
    var d := DashRuns(title, false);
    ToLowerSlugChars(d);
    SliceShape(ToLower(d));
    if PhpEmpty(TrimDashes(ToLower(d))) {
      FallbackShape(now);
    }
  }

  lemma {:induction false} SliceShape(l: string)
    requires SlugChars(l) && NoDoubleDash(l)
    ensures SlugChars(TrimDashes(l)) && NoDoubleDash(TrimDashes(l))
  {
    var slug := TrimDashes(l);
    var i, j :| 0 <= i <= j <= |l| && slug == l[i..j];
    forall k | 0 <= k < |slug| ensures slug[k] == l[i + k] { }
  }

  lemma {:induction false} FallbackShape(now: nat)
    ensures var b := "exhibit-" + NatToString(now);
            SlugChars(b) && NoDoubleDash(b)
  {
    var n := NatToString(now);
    var b := "exhibit-" + n;
    forall k | 0 <= k < |b|
      ensures IsSlugChar(b[k])
    {
      if k >= 8 {
        assert b[k] == n[k - 8];
      }
    }
    forall k | 0 <= k < |b| - 1
      ensures !(b[k] == '-' && b[k + 1] == '-')
    {
      if k >= 7 {
        assert b[k + 1] == n[k - 7];
      }
    }
  }

  /** The n-th slug tried: the base itself, then base-2, base-3, ... */
  function Candidate(base: string, n: nat): string
  {
    if n <= 1 then base else base + "-" + NatToString(n)
  }

  lemma {:induction false} CandidateInjective(base: string, i: nat, j: nat)
    requires 1 <= i && 1 <= j && Candidate(base, i) == Candidate(base, j)
    ensures i == j
  {
    if i > 1 && j > 1 {
      var p := base + "-";
      assert Candidate(base, i)[|p|..] == NatToString(i);
      assert Candidate(base, j)[|p|..] == NatToString(j);
      NatToStringInjective(i, j);
    }
  }

  /** The slugs tried before the n-th. */
  function Tried(base: string, n: nat): (r: set<string>)
    ensures forall j :: 1 <= j < n ==> Candidate(base, j) in r
  {
    if n <= 1 then {} else Tried(base, n - 1) + {Candidate(base, n - 1)}
  }

  lemma {:induction false} NotYetTried(base: string, n: nat)
    requires n >= 1
    ensures Candidate(base, n) !in Tried(base, n)
  {
    if n > 1 {
      NotTriedBelow(base, n - 1, n);
    }
  }

  lemma {:induction false} NotTriedBelow(base: string, m: nat, n: nat)
    requires 1 <= m < n
    ensures Candidate(base, n) !in Tried(base, m + 1)
  {
    if Candidate(base, m) == Candidate(base, n) {
      CandidateInjective(base, m, n);
    }
    if m > 1 {
      NotTriedBelow(base, m - 1, n);
    }
  }

  /**
   * The uniqueness loop: tries base, base-2, base-3, ... and stops at the
   * first slug not in use. Returns the slug and its position n.
   */
  method UniqueSlug(taken: set<string>, base: string) returns (slug: string, n: nat)
    ensures n >= 1 && slug == Candidate(base, n)
    ensures slug !in taken
    ensures forall j :: 1 <= j < n ==> Candidate(base, j) in taken
  {
    slug := base;
    n := 1;
    while slug in taken
      invariant n >= 1 && slug == Candidate(base, n)
      invariant Tried(base, n) <= taken
      decreases |taken - Tried(base, n)|
    {
      NotYetTried(base, n);
      assert taken - Tried(base, n + 1) == (taken - Tried(base, n)) - {slug};
      n := n + 1;
      slug := Candidate(base, n);
    }
  }

  // ---------------------------------------------------------------------
  // Request values

  /** trim($input[k] ?? ''), for a string value; anything else reads as "". */
  function TrimmedInput(input: map<string, Json>, k: string): string
  {
    if k in input && input[k].JStr? then Trim(input[k].s) else ""
  }

  /** A string is trimmed when stored; other values are kept as they are. */
  function TrimJson(v: Json): (r: Json)
    ensures v.JStr? <==> r.JStr?
    ensures r.JStr? ==> r.s == Trim(v.s)
    ensures !v.JStr? ==> r == v
  {
    if v.JStr? then JStr(Trim(v.s)) else v
  }

  /**
   * The exhibit key that `$input['slug'] ?? ''` selects once `empty` lets it
   * through. A string is the key itself. A number or `true` is an integer
   * offset, and finds the entry stored under its decimal text, because PHP
   * keeps a key such as "2024" as that integer. Every other value, and
   * every value `empty` refuses, gives none (the 404 path).
   */
  function SlugArg(input: map<string, Json>): (r: Option<string>)
    ensures "slug" !in input ==> r.None?
    ensures r.Some? ==> "slug" in input && !EmptyJson(input["slug"])
    ensures "slug" in input && input["slug"].JStr? ==>
              (r.Some? <==> !PhpEmpty(input["slug"].s)) && (r.Some? ==> r.value == input["slug"].s)
    ensures "slug" in input && input["slug"].JNum? ==>
              (r.Some? <==> input["slug"].n != 0) && (r.Some? ==> r.value == PhpExport.ExportInt(input["slug"].n))
    ensures "slug" in input && input["slug"].JBool? ==> (r.Some? <==> input["slug"].b) && (r.Some? ==> r.value == "1")
    ensures "slug" in input && (input["slug"].JArr? || input["slug"].JObj? || input["slug"].JNull?) ==> r.None?
  {
    if "slug" !in input then None
    else match input["slug"]
      case JStr(s) => if PhpEmpty(s) then None else Some(s)
      case JNum(n) => if n == 0 then None else Some(PhpExport.ExportInt(n))
      case JBool(b) => if b then Some("1") else None
      case _ => None
  }

  /** A non-zero number names the same exhibit as its decimal text does. */
  lemma {:induction false} SlugNumberAsText(input: map<string, Json>, n: int)
    requires n != 0
    ensures SlugArg(input["slug" := JNum(n)]) == SlugArg(input["slug" := JStr(PhpExport.ExportInt(n))])
  {
    if n > 0 {
      DigitsValueOfNat(n);
      assert PhpExport.ExportInt(n) != "0";
    } else {
      assert PhpExport.ExportInt(n)[0] == '-';
    }
  }

  /** The token to compare: the input's csrf_token, else the X-CSRF-Token header, else "". */
  function CsrfToken(input: map<string, Json>, header: Option<string>): Option<string>
  {
    if "csrf_token" in input && !input["csrf_token"].JNull? then
      (if input["csrf_token"].JStr? then Some(input["csrf_token"].s) else None)
    else Some(if header.Some? then header.value else "")
  }

  /**
   * A posted csrf_token that is truthy but not a string reaches
   * `hash_equals` when the session holds a token. PHP 8 raises a TypeError
   * there, a fatal error the server answers with HTTP 500.
   */
  predicate CsrfFatal(session: Option<string>, input: map<string, Json>)
  {
    "csrf_token" in input && !input["csrf_token"].JNull? && !input["csrf_token"].JStr? &&
    !EmptyJson(input["csrf_token"]) && session.Some?
  }

  /** The CSRF check: a non-empty token equal to the one in the session. */
  predicate CsrfOk(session: Option<string>, token: Option<string>)
  {
    token.Some? && !PhpEmpty(token.value) && session.Some? && session.value == token.value
  }

  lemma {:induction false} CsrfNeedsSessionToken(session: Option<string>, input: map<string, Json>, header: Option<string>)
    requires CsrfOk(session, CsrfToken(input, header))
    ensures session.Some? && !PhpEmpty(session.value)
    ensures "csrf_token" in input && !input["csrf_token"].JNull? ==> input["csrf_token"] == JStr(session.value)
    ensures ("csrf_token" !in input || input["csrf_token"].JNull?) ==> header == Some(session.value)
  {
  }

  // ---------------------------------------------------------------------
  // The action switch

  datatype Action = List | CreateAction | UpdateAction | DeleteAction | ReorderAction | Unknown

  /**
   * The case `switch ($input['action'] ?? '')` runs. The switch compares
   * with PHP's loose ==, trying the cases in order.
   */
  function ActionOf(input: map<string, Json>): Action
  {
    var action := Coalesce(input, "action", JStr(""));
    if LooseEqualsString(action, "list") then List
    else if LooseEqualsString(action, "create") then CreateAction
    else if LooseEqualsString(action, "update") then UpdateAction
    else if LooseEqualsString(action, "delete") then DeleteAction
    else if LooseEqualsString(action, "reorder") then ReorderAction
    else Unknown
  }

  /** A string action runs the case of that name, and an unnamed one the default. */
  lemma {:induction false} ActionNamed(input: map<string, Json>, s: string)
    requires "action" in input && input["action"] == JStr(s)
    ensures ActionOf(input) == List <==> s == "list"
    ensures ActionOf(input) == CreateAction <==> s == "create"
    ensures ActionOf(input) == UpdateAction <==> s == "update"
    ensures ActionOf(input) == DeleteAction <==> s == "delete"
    ensures ActionOf(input) == ReorderAction <==> s == "reorder"
    ensures ActionOf(input) == Unknown <==> s !in {"list", "create", "update", "delete", "reorder"}
  {
  }

  /**
   * Any other value: `true` loosely equals every case and so runs the first,
   * `list`; a number, `false`, null, a list or an object runs the default.
   */
  lemma {:induction false} ActionLoose(input: map<string, Json>)
    requires "action" in input && !input["action"].JStr?
    ensures ActionOf(input) == if input["action"] == JBool(true) then List else Unknown
  {
  }

  // ---------------------------------------------------------------------
  // Records

  /** The record `create` stores; `stamp` is date('Y-m-d H:i:s'). */
  function NewExhibit(title: string, input: map<string, Json>, stamp: string): (e: Exhibit)
    ensures "title" in e && "type" in e && "status" in e && "duration" in e && "created_at" in e
    ensures e["title"] == JStr(title) && e["type"] == JStr("solo")
    ensures e["status"] == Coalesce(input, "status", JStr("draft"))
    ensures e["duration"] == Coalesce(input, "duration", JStr("temporary"))
    ensures e["created_at"] == JStr(stamp)
    ensures "updated_at" !in e
  {
    map[
      "title" := JStr(title),
      "description" := JStr(TrimmedInput(input, "description")),
      "cover" := Coalesce(input, "cover", JNull),
      "artworks" := Coalesce(input, "artworks", JArr([])),
      "type" := JStr("solo"),
      "duration" := Coalesce(input, "duration", JStr("temporary")),
      "start_date" := Coalesce(input, "start_date", JNull),
      "end_date" := Coalesce(input, "end_date", JNull),
      "opening_reception" := Coalesce(input, "opening_reception", JNull),
      "venue" := JStr(TrimmedInput(input, "venue")),
      "press_release" := JStr(TrimmedInput(input, "press_release")),
      "status" := Coalesce(input, "status", JStr("draft")),
      "created_at" := JStr(stamp)
    ]
  }

  /** The fields `update` may change, in the order it visits them. */
  const Allowed: seq<string> := ["title", "description", "cover", "artworks", "duration", "start_date",
                                 "end_date", "opening_reception", "venue", "press_release", "status"]

  /** The hub is told about an exhibit only when its status is the string "published". */
  predicate Published(e: Exhibit)
  {
    "status" in e && e["status"] == JStr("published")
  }

  /**
   * The loop of `update` over the allowed fields: each one present in the
   * input, even as null, overwrites the record's value, trimmed when it
   * is a string.
   */
  method CopyAllowed(rec: Exhibit, input: map<string, Json>) returns (r: Exhibit)
    ensures forall k :: k in r <==> k in rec || (k in Allowed && k in input)
    ensures forall k :: k in r ==> r[k] == if k in Allowed && k in input then TrimJson(input[k]) else rec[k]
  {
    r := rec;
    for i := 0 to |Allowed|
      invariant forall k :: k in r <==> k in rec || (k in Allowed[..i] && k in input)
      invariant forall k :: k in r ==> r[k] == if k in Allowed[..i] && k in input then TrimJson(input[k]) else rec[k]
    {
      var field := Allowed[i];
      assert forall k :: k in Allowed[..i + 1] <==> k in Allowed[..i] || k == field;
      if field in input {
        r := r[field := TrimJson(input[field])];
      }
    }
    assert Allowed[..|Allowed|] == Allowed;
  }

  /** The outcome of one request: the HTTP status, the slug for create, and whether the hub was told. */
  datatype Reply = Reply(code: nat, slug: Option<string>, synced: bool)

  class ExhibitStore {
    /** The decoded exhibits.json. */
    var exhibits: map<string, Exhibit>

    constructor (initial: map<string, Exhibit>)
      ensures exhibits == initial
    {
      exhibits := initial;
    }

    /**
     * `create`: an empty trimmed title is refused; otherwise a fresh slug
     * is chosen and the record stored under it. `saved` says whether
     * writing exhibits.json succeeds; a failed write leaves the file as
     * it was.
     */
    method Create(input: map<string, Json>, now: nat, stamp: string, saved: bool) returns (reply: Reply)
      modifies this
      ensures PhpEmpty(TrimmedInput(input, "title")) ==> reply.code == 400 && exhibits == old(exhibits)
      ensures !PhpEmpty(TrimmedInput(input, "title")) ==>
                reply.slug.Some? && reply.slug.value !in old(exhibits) &&
                (exists n :: n >= 1 && reply.slug.value == Candidate(BaseSlug(TrimmedInput(input, "title"), now), n))
      ensures !PhpEmpty(TrimmedInput(input, "title")) && saved ==>
                reply.code == 200 &&
                exhibits == old(exhibits)[reply.slug.value := NewExhibit(TrimmedInput(input, "title"), input, stamp)] &&
                reply.synced == Published(exhibits[reply.slug.value])
      ensures !PhpEmpty(TrimmedInput(input, "title")) && !saved ==>
                reply.code == 500 && exhibits == old(exhibits) && !reply.synced
    {
      var title := TrimmedInput(input, "title");
      if PhpEmpty(title) {
        return Reply(400, None, false);
      }
      var base := BaseSlug(title, now);
      var slug, n := UniqueSlug(exhibits.Keys, base);
      var record := NewExhibit(title, input, stamp);
      if saved {
        exhibits := exhibits[slug := record];
        reply := Reply(200, Some(slug), Published(record));
      } else {
        reply := Reply(500, Some(slug), false);
      }
    }

    /** `update`: the allowed fields present in the input, and updated_at. */
    method Update(input: map<string, Json>, stamp: string, saved: bool) returns (reply: Reply)
      modifies this
      ensures var s := SlugArg(input);
              s.None? || s.value !in old(exhibits) ==> reply.code == 404 && exhibits == old(exhibits)
      ensures var s := SlugArg(input);
              s.Some? && s.value in old(exhibits) && saved ==>
                reply.code == 200 && exhibits.Keys == old(exhibits).Keys &&
                (forall k :: k in old(exhibits) && k != s.value ==> exhibits[k] == old(exhibits)[k]) &&
                UpdatedFrom(old(exhibits)[s.value], input, stamp, exhibits[s.value]) &&
                reply.synced == Published(exhibits[s.value])
      ensures var s := SlugArg(input);
              s.Some? && s.value in old(exhibits) && !saved ==> reply.code == 500 && exhibits == old(exhibits)
    {
      var s := SlugArg(input);
      if s.None? || s.value !in exhibits {
        return Reply(404, None, false);
      }
      var rec := CopyAllowed(exhibits[s.value], input);
      rec := rec["updated_at" := JStr(stamp)];
      if saved {
        exhibits := exhibits[s.value := rec];
        reply := Reply(200, s, Published(rec));
      } else {
        reply := Reply(500, s, false);
      }
    }

    /** `delete`: removes exactly the named exhibit. */
    method Delete(input: map<string, Json>, saved: bool) returns (reply: Reply)
      modifies this
      ensures var s := SlugArg(input);
              s.None? || s.value !in old(exhibits) ==> reply.code == 404 && exhibits == old(exhibits)
      ensures var s := SlugArg(input);
              s.Some? && s.value in old(exhibits) ==>
                if saved then reply.code == 200 && exhibits == old(exhibits) - {s.value}
                else reply.code == 500 && exhibits == old(exhibits)
      ensures !reply.synced
    {
      var s := SlugArg(input);
      if s.None? || s.value !in exhibits {
        return Reply(404, None, false);
      }
      if saved {
        exhibits := exhibits - {s.value};
        reply := Reply(200, None, false);
      } else {
        reply := Reply(500, None, false);
      }
    }

    /** `reorder`: replaces the artworks list, which must be an array, and updated_at. */
    method Reorder(input: map<string, Json>, stamp: string, saved: bool) returns (reply: Reply)
      modifies this
      ensures var s := SlugArg(input);
              s.None? || s.value !in old(exhibits) ==> reply.code == 404 && exhibits == old(exhibits)
      ensures var s := SlugArg(input);
              var a := Coalesce(input, "artworks", JArr([]));
              s.Some? && s.value in old(exhibits) && !(a.JArr? || a.JObj?) ==>
                reply.code == 400 && exhibits == old(exhibits)
      ensures var s := SlugArg(input);
              var a := Coalesce(input, "artworks", JArr([]));
              s.Some? && s.value in old(exhibits) && (a.JArr? || a.JObj?) ==>
                if saved then
                  reply.code == 200 &&
                  exhibits == old(exhibits)[s.value := old(exhibits)[s.value]["artworks" := a]["updated_at" := JStr(stamp)]]
                else reply.code == 500 && exhibits == old(exhibits)
      ensures !reply.synced
    {
      var s := SlugArg(input);
      var artworks := Coalesce(input, "artworks", JArr([]));
      if s.None? || s.value !in exhibits {
        return Reply(404, None, false);
      }
      if !(artworks.JArr? || artworks.JObj?) {
        return Reply(400, None, false);
      }
      if saved {
        exhibits := exhibits[s.value := exhibits[s.value]["artworks" := artworks]["updated_at" := JStr(stamp)]];
        reply := Reply(200, None, false);
      } else {
        reply := Reply(500, None, false);
      }
    }

    /**
     * The endpoint: authentication, POST, CSRF, then the action. The
     * action is matched with PHP's loose switch comparison.
     */
    method Handle(authenticated: bool, isPost: bool, input: map<string, Json>, header: Option<string>,
                  session: Option<string>, now: nat, stamp: string, saved: bool) returns (reply: Reply)
      modifies this
      ensures !authenticated ==> reply.code == 401 && exhibits == old(exhibits)
      ensures authenticated && !isPost ==> reply.code == 405 && exhibits == old(exhibits)
      ensures authenticated && isPost && CsrfFatal(session, input) ==> reply.code == 500 && exhibits == old(exhibits)
      ensures authenticated && isPost && !CsrfFatal(session, input) && !CsrfOk(session, CsrfToken(input, header)) ==>
                reply.code == 403 && exhibits == old(exhibits)
      ensures reply.code != 200 ==> exhibits == old(exhibits)
      ensures exhibits != old(exhibits) ==> authenticated && isPost && CsrfOk(session, CsrfToken(input, header))
      ensures authenticated && isPost && CsrfOk(session, CsrfToken(input, header)) ==>
                match ActionOf(input)
                case List => reply.code == 200 && exhibits == old(exhibits)
                case CreateAction => Created(old(exhibits), exhibits, reply, input, now, stamp, saved)
                case UpdateAction => Updated(old(exhibits), exhibits, reply, input, stamp, saved)
                case DeleteAction => Deleted(old(exhibits), exhibits, reply, input, saved)
                case ReorderAction => Reordered(old(exhibits), exhibits, reply, input, stamp, saved)
                case Unknown => reply.code == 400 && exhibits == old(exhibits)
    {
      if !authenticated {
        return Reply(401, None, false);
      }
      if !isPost {
        return Reply(405, None, false);
      }
      if CsrfFatal(session, input) {
        return Reply(500, None, false);
      }
      if !CsrfOk(session, CsrfToken(input, header)) {
        return Reply(403, None, false);
      }
      match ActionOf(input)
      case List =>
        reply := Reply(200, None, false);
      case CreateAction =>
        reply := Create(input, now, stamp, saved);
      case UpdateAction =>
        reply := Update(input, stamp, saved);
      case DeleteAction =>
        reply := Delete(input, saved);
      case ReorderAction =>
        reply := Reorder(input, stamp, saved);
      case Unknown =>
        reply := Reply(400, None, false);
    }
  }

  /** The store and reply `create` leaves, as ExhibitStore.Create states them. */
  ghost predicate Created(before: map<string, Exhibit>, after: map<string, Exhibit>, reply: Reply,
                          input: map<string, Json>, now: nat, stamp: string, saved: bool)
  {
    var title := TrimmedInput(input, "title");
    if PhpEmpty(title) then reply.code == 400 && after == before
    else
      reply.slug.Some? && reply.slug.value !in before &&
      (exists n :: n >= 1 && reply.slug.value == Candidate(BaseSlug(title, now), n)) &&
      if saved then
        reply.code == 200 && after == before[reply.slug.value := NewExhibit(title, input, stamp)] &&
        reply.synced == Published(after[reply.slug.value])
      else reply.code == 500 && after == before && !reply.synced
  }

  /** The store and reply `update` leaves, as ExhibitStore.Update states them. */
  ghost predicate Updated(before: map<string, Exhibit>, after: map<string, Exhibit>, reply: Reply,
                          input: map<string, Json>, stamp: string, saved: bool)
  {
    var s := SlugArg(input);
    if s.None? || s.value !in before then reply.code == 404 && after == before
    else if saved then
      reply.code == 200 && after.Keys == before.Keys &&
      (forall k :: k in before && k != s.value ==> after[k] == before[k]) &&
      UpdatedFrom(before[s.value], input, stamp, after[s.value]) &&
      reply.synced == Published(after[s.value])
    else reply.code == 500 && after == before
  }

  /** The store and reply `delete` leaves, as ExhibitStore.Delete states them. */
  ghost predicate Deleted(before: map<string, Exhibit>, after: map<string, Exhibit>, reply: Reply,
                          input: map<string, Json>, saved: bool)
  {
    var s := SlugArg(input);
    !reply.synced &&
    if s.None? || s.value !in before then reply.code == 404 && after == before
    else if saved then reply.code == 200 && after == before - {s.value}
    else reply.code == 500 && after == before
  }

  /** The store and reply `reorder` leaves, as ExhibitStore.Reorder states them. */
  ghost predicate Reordered(before: map<string, Exhibit>, after: map<string, Exhibit>, reply: Reply,
                            input: map<string, Json>, stamp: string, saved: bool)
  {
    var s := SlugArg(input);
    var a := Coalesce(input, "artworks", JArr([]));
    !reply.synced &&
    if s.None? || s.value !in before then reply.code == 404 && after == before
    else if !(a.JArr? || a.JObj?) then reply.code == 400 && after == before
    else if saved then
      reply.code == 200 && after == before[s.value := before[s.value]["artworks" := a]["updated_at" := JStr(stamp)]]
    else reply.code == 500 && after == before
  }

  /** What `update` leaves in a record: the allowed input fields (trimmed), updated_at, and the rest as before. */
  ghost predicate UpdatedFrom(before: Exhibit, input: map<string, Json>, stamp: string, after: Exhibit)
  {
    (forall k :: k in after <==> k in before || (k in Allowed && k in input) || k == "updated_at") &&
    after["updated_at"] == JStr(stamp) &&
    (forall k :: k in after && k != "updated_at" ==>
       after[k] == if k in Allowed && k in input then TrimJson(input[k]) else before[k])
  }

  /** An update whose input names no allowed field changes only updated_at. */
  lemma {:induction false} UpdateWithoutFields(before: Exhibit, input: map<string, Json>, stamp: string, after: Exhibit)
    requires UpdatedFrom(before, input, stamp, after)
    requires forall k :: k in Allowed ==> k !in input
    ensures after == before["updated_at" := JStr(stamp)]
  {
  }

  /** Updating twice with the same input gives the same record as updating once (up to the time stamp). */
  lemma {:induction false} UpdateIdempotent(before: Exhibit, input: map<string, Json>, s1: string, mid: Exhibit, s2: string, after: Exhibit)
    requires UpdatedFrom(before, input, s1, mid) && UpdatedFrom(mid, input, s2, after)
    ensures after == mid["updated_at" := JStr(s2)]
  {
    forall k | k in after && k != "updated_at" && k in Allowed && k in input
      ensures after[k] == mid[k]
    {
      var v := input[k];
      if v.JStr? {
        TrimIdempotent(v.s);
      }
    }
  }
}
