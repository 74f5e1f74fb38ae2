// Names of the files in the uploads directory: the resized variants written
// next to each original, the filters that hide them from the gallery and the
// artwork page, and the title derived from a file name.

module GalleryFiles {
  import opened Common

  /** The suffixed name `<stem>_<size>.<ext>` of a resized variant. */
  function SizedName(name: string, size: string): string
  {
    Stem(name) + ("_" + size + "." + Extension(name))
  }

  /** The variant sizes the upload step writes. */
  const IndexSizes: seq<string> := ["large", "medium", "small", "social", "map"]
  /** The sizes the artwork page hides from its navigation list (no `map`). */
  const NavSizes: seq<string> := ["large", "medium", "small", "social"]

  predicate EndsWithSize(s: string, sizes: seq<string>)
  {
    exists k :: 0 <= k < |sizes| && EndsWith(s, "_" + sizes[k])
  }

  /** Letters only: the class [a-z] under the /i flag. */
  predicate AllLetters(s: string) { forall i :: 0 <= i < |s| ==> IsLower(s[i]) || IsUpper(s[i]) }

  predicate NoDot(s: string) { forall i :: 0 <= i < |s| ==> s[i] != '.' }

  /**
   * The gallery's filter `/_(large|medium|small|social|map)\.[^.]+$/`:
   * the part before the last dot ends in a size suffix and an extension follows.
   */
  predicate IsIndexVariant(b: string)
  {
    var d := LastIndexOf(b, '.');
    0 <= d < |b| - 1 && EndsWithSize(b[..d], IndexSizes)
  }

  /**
   * The artwork page's filter `/_(?:large|medium|small|social)\.[a-z]+$/i`:
   * letters after the last dot and a size suffix in any case before it.
   */
  predicate IsNavVariant(b: string)
  {
    var d := LastIndexOf(b, '.');
    0 <= d < |b| - 1 && AllLetters(b[d + 1..]) && EndsWithSize(ToLower(b[..d]), NavSizes)
  }

  lemma {:induction false} LastDot(p: string, e: string)
    requires NoDot(e)
    ensures LastIndexOf(p + "." + e, '.') == |p|
    decreases |e|
  {
    if e != [] {
      var s := p + "." + e;
      assert s[..|s| - 1] == p + "." + e[..|e| - 1];
      LastDot(p, e[..|e| - 1]);
    }
  }

  lemma {:induction false} ExtensionNoDot(name: string)
    ensures NoDot(Extension(name))
  {
  }

  /** Where the last dot of a variant name sits, and what precedes it. */
  lemma {:induction false} SizedNameParts(name: string, size: string)
    ensures LastIndexOf(SizedName(name, size), '.') == |Stem(name)| + 1 + |size|
    ensures SizedName(name, size)[..|Stem(name)| + 1 + |size|] == Stem(name) + "_" + size
    ensures SizedName(name, size)[|Stem(name)| + 1 + |size| + 1..] == Extension(name)
  {
    ExtensionNoDot(name);
    assert SizedName(name, size) == (Stem(name) + "_" + size) + "." + Extension(name);
    LastDot(Stem(name) + "_" + size, Extension(name));
  }

  /** Every variant written for an original with an extension is hidden from the gallery. */
  lemma {:induction false} VariantsHiddenFromGallery(name: string, k: nat)
    requires k < |IndexSizes| && Extension(name) != ""
    ensures IsIndexVariant(SizedName(name, IndexSizes[k]))
  {
    var size := IndexSizes[k];
    SizedNameParts(name, size);
    SizeSuffix(Stem(name), size);
    IndexVariantBefore(SizedName(name, size), Stem(name) + "_" + size, k);
  }

  /** `stem_size` ends with `_size`. */
  lemma {:induction false} SizeSuffix(stem: string, size: string)
    ensures EndsWith(stem + "_" + size, "_" + size)
  {
    var pre := stem + "_" + size;
    assert pre[|pre| - |"_" + size|..] == "_" + size;
  }

  /** A name whose part before its last dot ends in `_size` and that has an extension is an index variant. */
  lemma {:induction false} IndexVariantBefore(b: string, pre: string, k: nat)
    requires k < |IndexSizes|
    requires 0 <= LastIndexOf(b, '.') == |pre| && b[..|pre|] == pre && b[|pre| + 1..] != ""
    requires EndsWith(pre, "_" + IndexSizes[k])
    ensures IsIndexVariant(b)
  {
  }

  /** The artwork page hides the large, medium, small and social variants of an original whose extension is letters. */
  lemma {:induction false} NavHidesVariants(name: string, k: nat)
    requires k < |NavSizes| && Extension(name) != "" && AllLetters(Extension(name))
    requires NoUpper(Stem(name))
    ensures IsNavVariant(SizedName(name, NavSizes[k]))
  {
    var size := NavSizes[k];
    SizedNameParts(name, size);
    var pre := Stem(name) + "_" + size;
    ToLowerOfLower(pre);
    SizeSuffix(Stem(name), size);
    NavVariantBefore(SizedName(name, size), pre, k);
  }

  /** A name whose lower-case part before its last dot ends in `_size` and whose extension is letters is a navigation variant. */
  lemma {:induction false} NavVariantBefore(b: string, pre: string, k: nat)
    requires k < |NavSizes|
    requires 0 <= LastIndexOf(b, '.') == |pre| && b[..|pre|] == pre && b[|pre| + 1..] != "" && AllLetters(b[|pre| + 1..])
    requires ToLower(pre) == pre && EndsWith(pre, "_" + NavSizes[k])
    ensures IsNavVariant(b)
  {
  }

  /** ...but it lists the `_map` variant, which the gallery hides. */
  lemma {:induction false} NavListsMapVariant(name: string)
    requires Extension(name) != ""
    requires NoUpper(Stem(name))
    ensures !IsNavVariant(SizedName(name, "map"))
    ensures IsIndexVariant(SizedName(name, "map"))
  {
    VariantsHiddenFromGallery(name, 4);
    SizedNameParts(name, "map");
    MapStemLower(Stem(name));
    NotNavBefore(SizedName(name, "map"), Stem(name) + "_" + "map");
  }

  /** A lower-case stem followed by `_map` is its own lower-case form and ends in 'p'. */
  lemma {:induction false} MapStemLower(stem: string)
    requires NoUpper(stem)
    ensures var m := stem + "_" + "map"; ToLower(m) == m && m[|m| - 1] == 'p'
  {
    var m := stem + "_" + "map";
    assert forall i :: 0 <= i < |stem| ==> m[i] == stem[i];
    ToLowerOfLower(m);
  }

  /** A name whose part before the last dot is lower-case and ends in 'p' is no page variant. */
  lemma {:induction false} NotNavBefore(b: string, m: string)
    requires 0 <= LastIndexOf(b, '.') <= |b| && b[..LastIndexOf(b, '.')] == m
    requires ToLower(m) == m && m != [] && m[|m| - 1] == 'p'
    ensures !IsNavVariant(b)
  {
    EndsInP(m);
  }

  /** A name ending in 'p' ends in none of the page's size suffixes. */
  lemma {:induction false} EndsInP(m: string)
    requires m != [] && m[|m| - 1] == 'p'
    ensures !EndsWithSize(m, NavSizes)
  {
    forall j | 0 <= j < |NavSizes|
      ensures !EndsWith(m, "_" + NavSizes[j])
    {
      EndsWithLast(m, "_" + NavSizes[j]);
    }
  }

  lemma {:induction false} EndsWithLast(s: string, t: string)
    requires t != []
    ensures EndsWith(s, t) ==> s[|s| - 1] == t[|t| - 1]
  {
    if EndsWith(s, t) {
      assert s[|s| - |t|..][|t| - 1] == s[|s| - 1];
    }
  }

  /** `^art_[a-f0-9.]+$`: the name the e-mail importer gives an untitled image. */
  predicate IsGeneratedName(s: string)
  {
    |s| > 4 && s[..4] == "art_" && forall i :: 4 <= i < |s| ==> IsHexOrDot(s[i])
  }

  predicate IsHexOrDot(c: char) { IsDigit(c) || 'a' <= c <= 'f' || c == '.' }

  /** The same pattern under the /i flag. */
  predicate IsGeneratedNameAnyCase(s: string) { IsGeneratedName(ToLower(s)) }

  /**
   * The title the artwork and zoom pages derive from a stem: 'Untitled' for a
   * generated name, otherwise '_' and '-' become spaces and every word is capitalised.
   */
  function PrettyTitle(stem: string): (r: string)
    ensures IsGeneratedNameAnyCase(stem) ==> r == "Untitled"
    ensures !IsGeneratedNameAnyCase(stem) ==> |r| == |stem|
    ensures !IsGeneratedNameAnyCase(stem) ==> forall i :: 0 <= i < |r| ==> r[i] != '_' && r[i] != '-'
    ensures !IsGeneratedNameAnyCase(stem) ==>
      forall i :: 0 <= i < |r| ==> (i == 0 || r[i - 1] == ' ') ==> !IsLower(r[i])
  {
    if IsGeneratedNameAnyCase(stem) then "Untitled"
    else
      var t := ReplaceChar(ReplaceChar(stem, '_', ' '), '-', ' ');
      var r := UcWords(t);
      UcWordsShape(t);
      r
  }

  lemma {:induction false} UcWordsShape(t: string)
    ensures forall i :: 0 <= i < |t| ==> UcWords(t)[i] == t[i] || (IsLower(t[i]) && IsUpper(UcWords(t)[i]))
    ensures forall i :: 0 <= i < |t| ==> (i == 0 || IsWordBreak(t[i - 1])) ==> !IsLower(UcWords(t)[i])
  {
    var r := UcWords(t);
    forall i | 0 <= i < |t|
      ensures r[i] == t[i] || (IsLower(t[i]) && IsUpper(r[i]))
      ensures (i == 0 || IsWordBreak(t[i - 1])) ==> !IsLower(r[i])
    {
      if i == 0 || IsWordBreak(t[i - 1]) {
        assert r[i] == UpperChar(t[i]);
        if IsLower(t[i]) {
          assert 'A' as int <= t[i] as int - 32 <= 'Z' as int;
        }
      } else {
        assert r[i] == t[i];
      }
    }
  }

  /** The gallery's fallback: the /i-less pattern, and no other clean-up. */
  function PlainTitle(stem: string): (r: string)
    ensures IsGeneratedName(stem) ==> r == "Untitled"
    ensures !IsGeneratedName(stem) ==> r == stem
  {
    if IsGeneratedName(stem) then "Untitled" else stem
  }

  /** The two fallbacks disagree on an upper-case generated name. */
  lemma {:induction false} TitleFallbacksDiffer()
    ensures PlainTitle("ART_1f") == "ART_1f"
    ensures PrettyTitle("ART_1f") == "Untitled"
  {
    var lower := ToLower("ART_1f");
    assert |lower| == 6;
    assert lower[0] == 'a' && lower[1] == 'r' && lower[2] == 't';
    assert lower[3] == '_' && lower[4] == '1' && lower[5] == 'f';
    assert lower[..4] == "art_";
    assert IsGeneratedName(lower);
    assert "ART_1f"[0] == 'A';
  }
}
