// The upload handler of assets/js/upload.js: which dropped files are
// taken, which are converted from HEIC/HEIF first and under what name,
// how a file's name is escaped into its progress item, and what status
// the item ends with.
//
// The converter (heic2any) and the POST to upload.php are asynchronous; the
// model takes their outcomes as parameters of the step that settles an item.

module UploadScript {
  import opened Common

  /** A dropped or chosen file: its name and its MIME type (`file.type`, "" when the browser does not know it). */
  datatype Picked = Picked(name: string, mime: string)

  // ---------------------------------------------------------------------
  // Which files are taken

  /** The lower-cased name ends in .heic or .heif. */
  predicate HeicName(name: string)
  {
    EndsWith(ToLower(name), ".heic") || EndsWith(ToLower(name), ".heif")
  }

  /** isHeic: by the name's extension, or by the MIME type. */
  predicate IsHeic(f: Picked)
  {
    HeicName(f.name) || f.mime == "image/heic" || f.mime == "image/heif"
  }

  /** The file is taken: an image type (image/...), or HEIC/HEIF by name or type. */
  predicate Accepted(f: Picked)
  {
    StartsWith(f.mime, "image/") || IsHeic(f)
  }

  /** Any spelling of the extension is recognised, whatever type the browser reports; such a file is always taken. */
  lemma {:induction false} HeicByExtension(stem: string, ext: string, mime: string)
    requires ToLower(ext) == ".heic" || ToLower(ext) == ".heif"
    ensures IsHeic(Picked(stem + ext, mime)) && Accepted(Picked(stem + ext, mime))
  {
    ToLowerConcat(stem, ext);
    EndsWithAppended(ToLower(stem), ToLower(ext));
  }

  /** A file is skipped exactly when it is neither an image by type nor HEIC/HEIF. */
  lemma {:induction false} SkippedFiles(f: Picked)
    ensures !Accepted(f) <==> !StartsWith(f.mime, "image/") && !HeicName(f.name)
  {
  }

  // ---------------------------------------------------------------------
  // The converted file's name

  /** `name.replace(/\.<ext>$/i, '.jpg')`: the extension, in any case, at the very end is replaced. */
  function ReplaceExt(name: string, ext: string): string
  {
    if EndsWith(ToLower(name), ext) then name[..|name| - |ext|] + ".jpg" else name
  }

  /** The name the converted JPEG is uploaded under: .heic, then .heif, replaced by .jpg. */
  function ConvertedName(name: string): string
  {
    ReplaceExt(ReplaceExt(name, ".heic"), ".heif")
  }

  /** A name ending in .heic or .heif (any case) loses exactly that extension for .jpg, and is then no HEIC name. */
  lemma {:induction false} ConvertedNameOfHeic(name: string)
    requires HeicName(name)
    ensures |name| >= 5 && ConvertedName(name) == name[..|name| - 5] + ".jpg"
    ensures !HeicName(ConvertedName(name))
  {
    var stem := name[..|name| - 5];
    var r := stem + ".jpg";
    assert r[|r| - 4] == '.';
    assert ToLower(r)[|r| - 4] == '.';
    assert |r| >= 5 ==> ToLower(r)[|r| - 5..][1] == '.';
    if EndsWith(ToLower(name), ".heic") {
      assert ReplaceExt(name, ".heic") == r;
    } else {
      assert ReplaceExt(name, ".heic") == name by {
        assert ToLower(name)[|name| - 2] == 'i';
      }
    }
    assert ConvertedName(name) == r;
  }

  /** Any other name is kept: a file that is HEIC only by its type is uploaded under its own name. */
  lemma {:induction false} ConvertedNameOtherwise(name: string)
    requires !HeicName(name)
    ensures ConvertedName(name) == name
  {
  }

  // ---------------------------------------------------------------------
  // escapeHtml

  /** `str.replace(/c/g, rep)`: every c replaced by rep. */
  function ReplaceAll(s: string, c: char, rep: string): string
  {
    if s == [] then [] else (if s[0] == c then rep else [s[0]]) + ReplaceAll(s[1..], c, rep)
  }

  /** escapeHtml: '&' first, then '<', then '>'. */
  function EscapeHtml(s: string): string
  {
    ReplaceAll(ReplaceAll(ReplaceAll(s, '&', "&amp;"), '<', "&lt;"), '>', "&gt;")
  }

  /** One character's escape. */
  function EscapeChar(c: char): string
  {
    if c == '&' then "&amp;" else if c == '<' then "&lt;" else if c == '>' then "&gt;" else [c]
  }

  /** The escape character by character: no '<' or '>' in the result. */
  function Escaped(s: string): (r: string)
    ensures '<' !in r && '>' !in r
  {
    if s == [] then [] else EscapeChar(s[0]) + Escaped(s[1..])
  }

  lemma {:induction false} ReplaceAllConcat(a: string, b: string, c: char, rep: string)
    ensures ReplaceAll(a + b, c, rep) == ReplaceAll(a, c, rep) + ReplaceAll(b, c, rep)
  {
    if a != [] {
      assert (a + b)[0] == a[0];
      assert (a + b)[1..] == a[1..] + b;
      ReplaceAllConcat(a[1..], b, c, rep);
      var h := if a[0] == c then rep else [a[0]];
      calc {
        ReplaceAll(a + b, c, rep);
        h + ReplaceAll(a[1..] + b, c, rep);
        h + (ReplaceAll(a[1..], c, rep) + ReplaceAll(b, c, rep));
        (h + ReplaceAll(a[1..], c, rep)) + ReplaceAll(b, c, rep);
      }
    } else {
      assert a + b == b;
    }
  }

  lemma {:induction false} ReplaceAllAbsent(s: string, c: char, rep: string)
    requires c !in s
    ensures ReplaceAll(s, c, rep) == s
  {
    if s != [] {
      ReplaceAllAbsent(s[1..], c, rep);
    }
  }

  /** Escaping one character with the three passes gives its escape: the '&' put in by the later passes is never doubled. */
  lemma {:induction false} EscapeHtmlChar(c: char)
    ensures EscapeHtml([c]) == EscapeChar(c)
  {
    var one := ReplaceAll([c], '&', "&amp;");
    assert one == (if c == '&' then "&amp;" else [c]) by {
      assert [c][0] == c && [c][1..] == [];
      assert ReplaceAll([], '&', "&amp;") == [];
    }
    var two := ReplaceAll(one, '<', "&lt;");
    if c == '<' {
      assert two == "&lt;" by {
        assert one[0] == '<' && one[1..] == [];
        assert ReplaceAll([], '<', "&lt;") == [];
      }
      ReplaceAllAbsent(two, '>', "&gt;");
    } else {
      ReplaceAllAbsent(one, '<', "&lt;");
      if c != '>' {
        ReplaceAllAbsent(two, '>', "&gt;");
      } else {
        assert two[0] == '>' && two[1..] == [];
        assert ReplaceAll([], '>', "&gt;") == [];
      }
    }
  }

  /** The three passes of escapeHtml escape each character on its own. */
  lemma {:induction false} EscapeHtmlIsPerChar(s: string)
    ensures EscapeHtml(s) == Escaped(s)
  {
    if s != [] {
      assert s == [s[0]] + s[1..];
      var a := [s[0]];
      var b := s[1..];
      ReplaceAllConcat(a, b, '&', "&amp;");
      ReplaceAllConcat(ReplaceAll(a, '&', "&amp;"), ReplaceAll(b, '&', "&amp;"), '<', "&lt;");
      ReplaceAllConcat(ReplaceAll(ReplaceAll(a, '&', "&amp;"), '<', "&lt;"),
                       ReplaceAll(ReplaceAll(b, '&', "&amp;"), '<', "&lt;"), '>', "&gt;");
      EscapeHtmlChar(s[0]);
      EscapeHtmlIsPerChar(b);
    }
  }

  /** The escaped name holds no '<' or '>', so it cannot open or close a tag in the progress item. */
  lemma {:induction false} EscapeHtmlInert(s: string)
    ensures '<' !in EscapeHtml(s) && '>' !in EscapeHtml(s)
  {
    EscapeHtmlIsPerChar(s);
  }

  /** How the browser reads the escaped text back: the three entities decode, everything else stands for itself. */
  function Unescape(t: string): string
    decreases |t|
  {
    if t == [] then []
    else if StartsWith(t, "&amp;") then "&" + Unescape(t[5..])
    else if StartsWith(t, "&lt;") then "<" + Unescape(t[4..])
    else if StartsWith(t, "&gt;") then ">" + Unescape(t[4..])
    else [t[0]] + Unescape(t[1..])
  }

  /** The name shown is the file's name exactly: the escape is undone by reading it as HTML. */
  lemma {:induction false} UnescapeEscaped(s: string)
    ensures Unescape(Escaped(s)) == s
  {
    if s != [] {
      UnescapeEscaped(s[1..]);
      UnescapeChar(s[0], Escaped(s[1..]));
      assert s == [s[0]] + s[1..];
    }
  }

  /** Reading one escaped character back, whatever follows it. */
  lemma {:induction false} UnescapeChar(c: char, rest: string)
    ensures Unescape(EscapeChar(c) + rest) == [c] + Unescape(rest)
  {
    var t := EscapeChar(c) + rest;
    if c == '&' {
      assert t[..5] == "&amp;" && t[5..] == rest;
    } else if c == '<' {
      assert t[..4] == "&lt;" && t[4..] == rest;
      assert t[1] == 'l';
      assert !StartsWith(t, "&amp;") by { assert "&amp;"[1] == 'a'; }
    } else if c == '>' {
      assert t[..4] == "&gt;" && t[4..] == rest;
      assert t[1] == 'g';
      assert !StartsWith(t, "&amp;") by { assert "&amp;"[1] == 'a'; }
      assert !StartsWith(t, "&lt;") by { assert "&lt;"[1] == 'l'; }
    } else {
      assert t[0] == c && t[1..] == rest;
      assert !StartsWith(t, "&amp;") && !StartsWith(t, "&lt;") && !StartsWith(t, "&gt;") by {
        assert "&amp;"[0] == '&' && "&lt;"[0] == '&' && "&gt;"[0] == '&';
      }
    }
  }

  /** escapeHtml and the HTML reading are inverse. */
  lemma {:induction false} EscapeHtmlRoundTrip(s: string)
    ensures Unescape(EscapeHtml(s)) == s
  {
    EscapeHtmlIsPerChar(s);
    UnescapeEscaped(s);
  }

  // ---------------------------------------------------------------------
  // Progress items and their status

  datatype State = Working | Succeeded | Failed   // no class yet, 'success', 'error'

  /** A progress item: the file, its innerHTML and the text of its status span. */
  datatype Item = Item(file: Picked, markup: string, status: string, state: State)

  /** The status an item starts with. */
  function InitialStatus(f: Picked): string
  {
    if IsHeic(f) then "converting..." else "uploading..."
  }

  /** The new item for a taken file. */
  function NewItem(f: Picked): Item
  {
    Item(f, "<span class=\"name\">" + EscapeHtml(f.name) + "</span><span class=\"status\">" + InitialStatus(f) + "</span>",
         InitialStatus(f), Working)
  }

  /** The item one picked file contributes: none when it is skipped. */
  function ItemsFor(f: Picked): seq<Item>
  {
    if Accepted(f) then [NewItem(f)] else []
  }

  /** The items handleFiles appends, in the files' order. */
  function NewItems(files: seq<Picked>): (r: seq<Item>)
    ensures |r| <= |files|
  {
    if files == [] then []
    else ItemsFor(files[0]) + NewItems(files[1..])
  }

  /** Every item handleFiles appends is the fresh item of a taken file from the list. */
  lemma {:induction false} NewItemsFromFiles(files: seq<Picked>)
    ensures forall it :: it in NewItems(files) ==> Accepted(it.file) && it.file in files && it == NewItem(it.file)
  {
    if files != [] {
      NewItemsFromFiles(files[1..]);
    }
  }

  /** Every taken file gets an item. */
  lemma {:induction false} EveryAcceptedFileListed(files: seq<Picked>, f: Picked)
    requires f in files && Accepted(f)
    ensures NewItem(f) in NewItems(files)
  {
    if files[0] != f {
      EveryAcceptedFileListed(files[1..], f);
    }
  }

  /** What the converter did. */
  datatype Conversion =
    | NoConverter              // typeof heic2any === 'undefined'
    | Converted                // the promise resolved with a JPEG blob
    | ConversionFailed(message: string)   // `err.message || err` as text

  /** What upload.php's reply said (`res.success`, `res.synced_to_painttwits`, `res.error` as truthy values). */
  datatype Reply =
    | Unreadable               // fetch or JSON decoding failed
    | Answer(success: bool, synced: bool, error: string)

  /** The file that is posted, if any: the file itself, or for HEIC the converted JPEG under its new name. */
  function Posted(f: Picked, conv: Conversion): Option<Picked>
  {
    if !IsHeic(f) then Some(f)
    else if conv.Converted? then Some(Picked(ConvertedName(f.name), "image/jpeg"))
    else None
  }

  /** HEIC files are posted only once converted, as JPEG; without the converter nothing is posted. */
  lemma {:induction false} PostedOnlyConverted(f: Picked, conv: Conversion)
    requires IsHeic(f)
    ensures Posted(f, conv).Some? <==> conv.Converted?
    ensures Posted(f, conv).Some? ==> Posted(f, conv).value.mime == "image/jpeg"
    ensures Posted(f, conv).Some? && HeicName(f.name) ==> !HeicName(Posted(f, conv).value.name)
  {
    if conv.Converted? && HeicName(f.name) {
      ConvertedNameOfHeic(f.name);
    }
  }

  /** The status and class after upload.php replied. */
  function UploadOutcome(reply: Reply): (string, State)
  {
    match reply
    case Unreadable => ("failed", Failed)
    case Answer(success, synced, error) =>
      if success then (if synced then "done + synced" else "done (not synced)", Succeeded)
      else (if error != "" then error else "failed", Failed)
  }

  /** The status and class an item ends with. */
  function Outcome(f: Picked, conv: Conversion, reply: Reply): (string, State)
  {
    if !IsHeic(f) then UploadOutcome(reply)
    else match conv
      case NoConverter => ("HEIC conversion not available", Failed)
      case ConversionFailed(m) => ("conversion failed: " + m, Failed)
      case Converted => UploadOutcome(reply)
  }

  /** An item succeeds exactly when its file was posted and upload.php said so; it then says whether the artwork was synced. */
  lemma {:induction false} SuccessNeedsPostedFile(f: Picked, conv: Conversion, reply: Reply)
    ensures Outcome(f, conv, reply).1 == Succeeded <==> Posted(f, conv).Some? && reply.Answer? && reply.success
    ensures Outcome(f, conv, reply).1 == Succeeded ==>
      (Outcome(f, conv, reply).0 == "done + synced" <==> reply.synced)
    ensures Outcome(f, conv, reply).1 == Succeeded ==>
      (Outcome(f, conv, reply).0 == "done (not synced)" <==> !reply.synced)
  {
  }

  /** A failed item never shows an empty status. */
  lemma {:induction false} FailureExplained(f: Picked, conv: Conversion, reply: Reply)
    requires Outcome(f, conv, reply).1 == Failed
    ensures Outcome(f, conv, reply).0 != ""
  {
  }

  // ---------------------------------------------------------------------
  // The page

  /** The progress container and its items. */
  class ProgressPanel {
    var container: bool      // the .upload-progress element exists
    var items: seq<Item>

    constructor ()
      ensures !container && items == []
    {
      container := false;
      items := [];
    }

    /** handleFiles: nothing for an empty list; otherwise the container, then one item per taken file. */
    method HandleFiles(files: seq<Picked>)
      modifies this
      ensures container == (old(container) || files != [])
      ensures items == old(items) + NewItems(files)
    {
      if files == [] {
        return;
      }
      container := true;
      var added: seq<Item> := [];
      for i := 0 to |files|
        invariant container && items == old(items)
        invariant added == NewItems(files[..i])
      {
        ghost var done := files[..i];
        var f := files[i];
        assert files[..i + 1] == done + [f];
        NewItemsSnoc(done, f);
        added := added + ItemsFor(f);
      }
      assert files[..|files|] == files;
      items := items + added;
    }

    /** The converter's and upload.php's callbacks settle item i. */
    method Settle(i: nat, conv: Conversion, reply: Reply)
      requires i < |items|
      modifies this
      ensures var (status, state) := Outcome(old(items)[i].file, conv, reply);
        items == old(items)[i := old(items)[i].(status := status, state := state)]
      ensures container == old(container)
    {
      var f := items[i].file;
      var status: string;
      var state: State;
      if IsHeic(f) && conv.NoConverter? {
        status, state := "HEIC conversion not available", Failed;
      } else if IsHeic(f) && conv.ConversionFailed? {
        status, state := "conversion failed: " + conv.message, Failed;
      } else {
        if IsHeic(f) {
          items := items[i := items[i].(status := "uploading...")];
        }
        match reply {
          case Unreadable =>
            status, state := "failed", Failed;
          case Answer(success, synced, error) =>
            if success {
              status := if synced then "done + synced" else "done (not synced)";
              state := Succeeded;
            } else {
              status := if error != "" then error else "failed";
              state := Failed;
            }
        }
      }
      items := items[i := items[i].(status := status, state := state)];
    }
  }

  /** The items of files then one more. */
  lemma {:induction false} NewItemsSnoc(files: seq<Picked>, f: Picked)
    ensures NewItems(files + [f]) == NewItems(files) + ItemsFor(f)
  {
    if files != [] {
      assert (files + [f])[1..] == files[1..] + [f];
      NewItemsSnoc(files[1..], f);
    } else {
      assert [f][1..] == [];
    }
  }
}
