// update_meta.php: one field of one artwork's entry in artwork_meta.json
// is set by an authenticated POST, after the filename, the field name
// and, for tags and status, the value have been checked.
module MetaUpdate {
  import opened Common

  /** The text holds "..". */
  predicate HasDotDot(s: string) { exists i :: 0 <= i < |s| - 1 && s[i] == '.' && s[i + 1] == '.' }

  /**
   * The filename after the checks: a non-empty string whose basename is
   * neither empty nor holds "..".
   */
  function FileArg(v: Json): (r: Option<string>)
    ensures r.Some? ==> !PhpEmpty(r.value) && !HasDotDot(r.value) && '/' !in r.value
    ensures r.Some? <==> v.JStr? && !PhpEmpty(v.s) && !PhpEmpty(Basename(v.s)) && !HasDotDot(Basename(v.s))
  {
    if v.JStr? && !PhpEmpty(v.s) && !PhpEmpty(Basename(v.s)) && !HasDotDot(Basename(v.s)) then Some(Basename(v.s))
    else None
  }

  const Fields: seq<string> := ["title", "status", "price", "description", "tags"]

  /**
   * The key the field is stored under, when in_array($field, ...) accepts
   * it. The comparison is PHP's loose ==, so JSON true matches too and is
   * stored under the array key 1.
   */
  function FieldKey(v: Json): (r: Option<string>)
    ensures r.Some? <==> exists f :: f in Fields && LooseEqualsString(v, f)
    ensures v.JStr? ==> (r.Some? <==> v.s in Fields) && (r.Some? ==> r.value == v.s)
  {
    if v.JStr? && v.s in Fields then Some(v.s)
    else if v == JBool(true) then
      assert LooseEqualsString(v, "title");
      Some("1")
    else None
  }

  // ---------------------------------------------------------------------
  // Tags

  predicate IsTagChar(c: char) { IsDigit(c) || IsLower(c) || c == '-' }

  /** preg_replace('/[^a-z0-9-]/', '', s). */
  function KeepTagChars(s: string): (r: string)
    ensures forall i :: 0 <= i < |r| ==> IsTagChar(r[i])
    ensures |r| <= |s|
  {
    if s == [] then [] else (if IsTagChar(s[0]) then [s[0]] else []) + KeepTagChars(s[1..])
  }

  lemma {:induction false} KeepTagCharsAll(s: string)
    requires forall i :: 0 <= i < |s| ==> IsTagChar(s[i])
    ensures KeepTagChars(s) == s
  {
    if s != [] {
      KeepTagCharsAll(s[1..]);
    }
  }

  /** One tag: trimmed, lower-cased, stripped to [a-z0-9-]. */
  function CleanTag(t: string): (r: string)
    ensures forall i :: 0 <= i < |r| ==> IsTagChar(r[i])
  {
    KeepTagChars(ToLower(Trim(t)))
  }

  lemma {:induction false} CleanTagFixed(t: string)
    requires forall i :: 0 <= i < |t| ==> IsTagChar(t[i])
    ensures CleanTag(t) == t
  {
    assert NoEdgeBlank(t);
    TrimNoEdgeBlank(t);
    ToLowerOfLower(t);
    KeepTagCharsAll(t);
  }

  /** A tag as stored: [a-z0-9-] only, and not dropped by array_filter. */
  predicate CleanTagValue(t: string)
  {
    !PhpEmpty(t) && forall i :: 0 <= i < |t| ==> IsTagChar(t[i])
  }

  /** array_map with the tag cleaner. */
  function CleanEach(tags: seq<string>): (r: seq<string>)
    ensures |r| == |tags|
    ensures forall i :: 0 <= i < |tags| ==> r[i] == CleanTag(tags[i])
  {
    seq(|tags|, i requires 0 <= i < |tags| => CleanTag(tags[i]))
  }

  /** array_values(array_filter(...)): drops "" and "0", keeping the order. */
  function DropEmpty(tags: seq<string>): (r: seq<string>)
    ensures |r| <= |tags|
    ensures forall i :: 0 <= i < |r| ==> !PhpEmpty(r[i])
    ensures forall i :: 0 <= i < |r| ==> r[i] in tags
  {
    if tags == [] then []
    else (if PhpEmpty(tags[0]) then [] else [tags[0]]) + DropEmpty(tags[1..])
  }

  lemma {:induction false} DropEmptyKeeps(tags: seq<string>)
    requires forall i :: 0 <= i < |tags| ==> !PhpEmpty(tags[i])
    ensures DropEmpty(tags) == tags
  {
    if tags != [] {
      DropEmptyKeeps(tags[1..]);
    }
  }

  /**
   * The array_map / array_filter / array_values pipeline over a list of
   * tag strings: cleaned, then "" and "0" dropped, order kept.
   */
  function CleanTags(tags: seq<string>): (r: seq<string>)
    ensures |r| <= |tags|
    ensures forall i :: 0 <= i < |r| ==> CleanTagValue(r[i])
  {
    DroppedAreClean(tags);
    DropEmpty(CleanEach(tags))
  }

  /** What survives the filter is a cleaned tag, so only tag characters, and neither "" nor "0". */
  lemma {:induction false} DroppedAreClean(tags: seq<string>)
    ensures var r := DropEmpty(CleanEach(tags)); forall i :: 0 <= i < |r| ==> CleanTagValue(r[i])
  {
    var cleaned := CleanEach(tags);
    var r := DropEmpty(cleaned);
    forall i | 0 <= i < |r|
      ensures CleanTagValue(r[i])
    {
      assert r[i] in cleaned;
      var j :| 0 <= j < |cleaned| && cleaned[j] == r[i];
      assert r[i] == CleanTag(tags[j]);
    }
  }

  /** A list of clean tags comes through unchanged. */
  lemma {:induction false} CleanTagsKeeps(tags: seq<string>)
    requires forall i :: 0 <= i < |tags| ==> CleanTagValue(tags[i])
    ensures CleanTags(tags) == tags
  {
    forall i | 0 <= i < |tags|
      ensures CleanTag(tags[i]) == tags[i]
    {
      CleanTagFixed(tags[i]);
    }
    assert CleanEach(tags) == tags;
    DropEmptyKeeps(tags);
  }

  /** Cleaning a cleaned list changes nothing. */
  lemma {:induction false} CleanTagsIdempotent(tags: seq<string>)
    ensures CleanTags(CleanTags(tags)) == CleanTags(tags)
  {
    CleanTagsKeeps(CleanTags(tags));
  }

  /** The string values of a decoded array; other elements read as "". */
  function Strings(items: seq<Json>): (r: seq<string>)
    ensures |r| == |items|
    ensures forall i :: 0 <= i < |items| ==> r[i] == if items[i].JStr? then items[i].s else ""
  {
    if items == [] then [] else [if items[0].JStr? then items[0].s else ""] + Strings(items[1..])
  }

  function ToJsonStrings(tags: seq<string>): (r: seq<Json>)
    ensures |r| == |tags|
    ensures forall i :: 0 <= i < |tags| ==> r[i] == JStr(tags[i])
  {
    if tags == [] then [] else [JStr(tags[0])] + ToJsonStrings(tags[1..])
  }

  /**
   * The tags value stored: a string is split on commas first; a list is
   * cleaned element by element; a number, a boolean or null becomes [].
   * A JSON object is also [] here, although PHP's `is_array` accepts the
   * associative array it decodes to and cleans its values: this model's
   * objects keep no key order, so the order of those values is unknown.
   */
  function TagsValue(v: Json): (r: seq<string>)
    ensures forall i :: 0 <= i < |r| ==> CleanTagValue(r[i])
  {
    match v
    case JStr(s) => CleanTags(Split(s, ','))
    case JArr(items) => CleanTags(Strings(items))
    case _ => []
  }

  /** Sending back a stored tag list as an array stores the same list. */
  lemma {:induction false} TagsArrayRoundTrip(tags: seq<string>)
    requires forall i :: 0 <= i < |tags| ==> CleanTagValue(tags[i])
    ensures TagsValue(JArr(ToJsonStrings(tags))) == tags
  {
    assert Strings(ToJsonStrings(tags)) == tags;
    CleanTagsKeeps(tags);
  }

  /** Sending back a stored tag list as the text "a,b,c" stores the same list. */
  lemma {:induction false} TagsTextRoundTrip(tags: seq<string>)
    requires tags != []
    requires forall i :: 0 <= i < |tags| ==> CleanTagValue(tags[i])
    ensures TagsValue(JStr(Join(tags, ","))) == tags
  {
    forall i | 0 <= i < |tags|
      ensures ',' !in tags[i]
    {
      CleanHasNoComma(tags[i]);
    }
    SplitOfJoin(tags);
    CleanTagsKeeps(tags);
  }

  lemma {:induction false} CleanHasNoComma(t: string)
    requires CleanTagValue(t)
    ensures ',' !in t
  {
  }

  lemma {:induction false} SplitOfJoin(tags: seq<string>)
    requires tags != []
    requires forall i :: 0 <= i < |tags| ==> ',' !in tags[i]
    ensures Split(Join(tags, ","), ',') == tags
  {
    if |tags| == 1 {
      SplitWhole(tags[0]);
    } else {
      var t, rest := tags[0], Join(tags[1..], ",");
      assert forall i :: 0 <= i < |tags[1..]| ==> tags[1..][i] == tags[i + 1];
      SplitOfJoin(tags[1..]);
      JoinCons(tags);
      IndexOfAfter(t, [','] + rest);
      SplitAt(t, rest);
      calc {
        Split(Join(tags, ","), ',');
        Split(t + ([','] + rest), ',');
        [t] + Split(rest, ',');
        [t] + tags[1..];
        { assert tags == [t] + tags[1..]; }
        tags;
      }
    }
  }

  lemma {:induction false} SplitWhole(t: string)
    requires ',' !in t
    ensures Split(t, ',') == [t]
  {
    assert IndexOf(t, ',') == |t|;
  }

  lemma {:induction false} JoinCons(tags: seq<string>)
    requires |tags| >= 2
    ensures Join(tags, ",") == tags[0] + ([','] + Join(tags[1..], ","))
  {
  }

  lemma {:induction false} SplitAt(t: string, rest: string)
    requires IndexOf(t + ([','] + rest), ',') == |t|
    ensures Split(t + ([','] + rest), ',') == [t] + Split(rest, ',')
  {
    var s := t + ([','] + rest);
    assert s[..|t|] == t && s[|t| + 1..] == rest;
  }

  lemma {:induction false} IndexOfAfter(t: string, rest: string)
    requires ',' !in t && rest != [] && rest[0] == ','
    ensures IndexOf(t + rest, ',') == |t|
  {
    assert (t + rest)[|t|] == ',';
    assert forall i :: 0 <= i < |t| ==> (t + rest)[i] == t[i];
  }

  // ---------------------------------------------------------------------
  // Status

  predicate IsStatusName(s: string) { s == "available" || s == "sold" || s == "other" }

  /** in_array($value, ['available', 'sold', 'other']) with PHP's loose ==. */
  predicate StatusAcceptedAsWritten(v: Json)
  {
    LooseEqualsString(v, "available") || LooseEqualsString(v, "sold") || LooseEqualsString(v, "other")
  }

  /** The check the endpoint evidently means: the value is one of the three names. */
  predicate StatusAccepted(v: Json)
  {
    v.JStr? && IsStatusName(v.s)
  }

  /** JSON true passes the loose check and would be stored as the status. */
  lemma {:induction false} LooseStatusAcceptsTrue()
    ensures StatusAcceptedAsWritten(JBool(true)) && !StatusAccepted(JBool(true))
  {
  }

  /** Apart from true, the loose and the strict check agree. */
  lemma {:induction false} StatusChecksAgree(v: Json)
    requires v != JBool(true)
    ensures StatusAcceptedAsWritten(v) <==> StatusAccepted(v)
  {
  }

  // ---------------------------------------------------------------------
  // The endpoint

  /** `$input[k] ?? ''`. */
  function Arg(input: map<string, Json>, k: string): Json
  {
    Coalesce(input, k, JStr(""))
  }

  /** The value stored for an accepted field key. */
  function StoredValue(key: string, v: Json): Json
  {
    if key == "tags" then JArr(ToJsonStrings(TagsValue(v))) else v
  }

  /** The status check: the loose one as written, or the strict one when `strict`. */
  predicate StatusPasses(v: Json, strict: bool)
  {
    if strict then StatusAccepted(v) else StatusAcceptedAsWritten(v)
  }

  /**
   * Why a request is refused, or None when it goes through to the write;
   * the endpoint runs it with strict = false (update_meta.php:68).
   */
  function Refusal(authenticated: bool, isPost: bool, input: map<string, Json>, strict: bool): (code: Option<nat>)
    ensures code.None? ==> authenticated && isPost && FileArg(Arg(input, "filename")).Some?
                           && FieldKey(Arg(input, "field")).Some?
    ensures code.None? && FieldKey(Arg(input, "field")) == Some("status") ==> StatusPasses(Arg(input, "value"), strict)
  {
    var file := Arg(input, "filename");
    var field := Arg(input, "field");
    if !authenticated then Some(401)
    else if !isPost then Some(405)
    else if EmptyJson(file) || EmptyJson(field) then Some(400)
    else if FileArg(file).None? then Some(400)
    else if FieldKey(field).None? then Some(400)
    else if FieldKey(field) == Some("status") && !StatusPasses(Arg(input, "value"), strict) then Some(400)
    else None
  }

  /** The request {"filename": f, "field": "status", "value": true}. */
  function TrueStatusRequest(f: string): map<string, Json>
  {
    map["filename" := JStr(f), "field" := JStr("status"), "value" := JBool(true)]
  }

  /**
   * As written, a status of JSON true goes through to the write (for any
   * acceptable filename, such as "a.jpg"); the strict check refuses it.
   */
  lemma {:induction false} TrueStatusGoesThrough(f: string)
    requires FileArg(JStr(f)).Some?
    ensures Refusal(true, true, TrueStatusRequest(f), false).None?
    ensures StoredValue("status", Arg(TrueStatusRequest(f), "value")) == JBool(true)
    ensures Refusal(true, true, TrueStatusRequest(f), true) == Some(400)
  {
    var input := TrueStatusRequest(f);
    assert Arg(input, "filename") == JStr(f);
    assert Arg(input, "field") == JStr("status");
    assert Arg(input, "value") == JBool(true);
    assert FieldKey(JStr("status")) == Some("status");
  }

  class MetaStore {
    /** The decoded artwork_meta.json: filename to its fields. */
    var metadata: map<string, map<string, Json>>

    constructor (initial: map<string, map<string, Json>>)
      ensures metadata == initial
    {
      metadata := initial;
    }

    /**
     * The endpoint. `saved` says whether writing artwork_meta.json
     * succeeds. Exactly one field of one entry changes; the entry is
     * created when missing.
     */
    method Update(authenticated: bool, isPost: bool, input: map<string, Json>, saved: bool) returns (code: nat)
      modifies this
      ensures Refusal(authenticated, isPost, input, false).Some? ==>
                code == Refusal(authenticated, isPost, input, false).value && metadata == old(metadata)
      ensures Refusal(authenticated, isPost, input, false).None? && !saved ==> code == 500 && metadata == old(metadata)
      ensures Refusal(authenticated, isPost, input, false).None? && saved ==>
                var file := FileArg(Arg(input, "filename")).value;
                var key := FieldKey(Arg(input, "field")).value;
                var entry := if file in old(metadata) then old(metadata)[file] else map[];
                code == 200 &&
                metadata == old(metadata)[file := entry[key := StoredValue(key, Arg(input, "value"))]]
    {
      var r := Refusal(authenticated, isPost, input, false);
      if r.Some? {
        return r.value;
      }
      if !saved {
        return 500;
      }
      var file := FileArg(Arg(input, "filename")).value;
      var key := FieldKey(Arg(input, "field")).value;
      var value := StoredValue(key, Arg(input, "value"));
      // a missing entry starts out as an empty object
      var entry := if file in metadata then metadata[file] else map[];
      metadata := metadata[file := entry[key := value]];
      code := 200;
    }
  }

  /** As written, a stored status is one of the three names or JSON true. */
  lemma {:induction false} StoredStatusAsWritten(authenticated: bool, isPost: bool, input: map<string, Json>)
    requires Refusal(authenticated, isPost, input, false).None?
    requires FieldKey(Arg(input, "field")) == Some("status")
    ensures var v := StoredValue("status", Arg(input, "value"));
            (v.JStr? && IsStatusName(v.s)) || v == JBool(true)
  {
  }

  /** With the strict check, a stored status is always one of the three names. */
  lemma {:induction false} StoredStatusIsName(authenticated: bool, isPost: bool, input: map<string, Json>)
    requires Refusal(authenticated, isPost, input, true).None?
    requires FieldKey(Arg(input, "field")) == Some("status")
    ensures StoredValue("status", Arg(input, "value")).JStr?
    ensures IsStatusName(StoredValue("status", Arg(input, "value")).s)
  {
  }

  /** Stored tags are always clean, whatever the request sent. */
  lemma {:induction false} StoredTagsClean(v: Json)
    ensures var t := StoredValue("tags", v);
            t.JArr? && forall i :: 0 <= i < |t.items| ==> t.items[i].JStr? && CleanTagValue(t.items[i].s)
  {
    var tags := TagsValue(v);
    var items := ToJsonStrings(tags);
    assert StoredValue("tags", v) == JArr(items);
    forall i | 0 <= i < |items|
      ensures items[i].JStr? && CleanTagValue(items[i].s)
    {
      assert items[i] == JStr(tags[i]);
    }
  }
}
