/** File helpers (src/utils/fileUtils.ts): the image MIME check, splitting a
    selection into accepted files and rejected names, the export file name
    and the export MIME type. */
module FileUtils {
  import opened Common
  import opened Config

  // ---------------------------------------------------------------------
  // Accepting files
  // ---------------------------------------------------------------------

  const ImagePrefix := "image/"

  /** `isValidImageFile`: the MIME type starts with "image/". */
  predicate IsValidImageFile(f: FileRef)
  {
    HasPrefix(f.mimeType, ImagePrefix)
  }

  /** The accepted files, in their original order. */
  function ValidOf(files: seq<FileRef>): (r: seq<FileRef>)
    ensures |r| <= |files|
    ensures forall k :: 0 <= k < |r| ==> IsValidImageFile(r[k])
  {
    if |files| == 0 then []
    else (if IsValidImageFile(files[0]) then [files[0]] else []) + ValidOf(files[1..])
  }

  /** The names of the rejected files, in their original order. */
  function InvalidNames(files: seq<FileRef>): seq<string>
  {
    if |files| == 0 then []
    else (if IsValidImageFile(files[0]) then [] else [files[0].name]) + InvalidNames(files[1..])
  }

  /** `filterValidImageFiles`: one pass over the files, pushing each one to
      `valid` or its name to `invalid`. */
  method FilterValidImageFiles(files: seq<FileRef>) returns (valid: seq<FileRef>, invalid: seq<string>)
    ensures valid == ValidOf(files) && invalid == InvalidNames(files)
    ensures |valid| + |invalid| == |files|
  {
    valid, invalid := [], [];
    var i := 0;
    while i < |files|
      invariant 0 <= i <= |files|
      invariant valid + ValidOf(files[i..]) == ValidOf(files)
      invariant invalid + InvalidNames(files[i..]) == InvalidNames(files)
      invariant |valid| + |invalid| == i
    {
      var f := files[i];
      assert files[i..][0] == f && files[i..][1..] == files[i + 1..];
      if IsValidImageFile(f) {
        assert ValidOf(files[i..]) == [f] + ValidOf(files[i + 1..]);
        assert InvalidNames(files[i..]) == InvalidNames(files[i + 1..]);
        ConcatAssoc(valid, [f], ValidOf(files[i + 1..]));
        valid := valid + [f];
      } else {
        assert ValidOf(files[i..]) == ValidOf(files[i + 1..]);
        assert InvalidNames(files[i..]) == [f.name] + InvalidNames(files[i + 1..]);
        ConcatAssoc(invalid, [f.name], InvalidNames(files[i + 1..]));
        invalid := invalid + [f.name];
      }
      i := i + 1;
    }
    assert files[i..] == [];
  }

  /** Every file lands on exactly one side: the accepted ones keep their
      multiplicity, the rejected ones are absent. */
  lemma {:induction false} ValidOfKeepsValid(files: seq<FileRef>, f: FileRef)
    ensures Count(ValidOf(files), f) == if IsValidImageFile(f) then Count(files, f) else 0
  {
    if |files| > 0 {
      ValidOfKeepsValid(files[1..], f);
      var head := if IsValidImageFile(files[0]) then [files[0]] else [];
      CountAppend(head, ValidOf(files[1..]), f);
      if IsValidImageFile(files[0]) {
        CountSingle(files[0], f);
      }
    }
  }

  /** The rejected names are the names of the rejected files. */
  lemma {:induction false} InvalidNamesAreRejected(files: seq<FileRef>)
    ensures |ValidOf(files)| + |InvalidNames(files)| == |files|
    ensures forall k :: 0 <= k < |InvalidNames(files)| ==>
      exists f :: f in files && !IsValidImageFile(f) && f.name == InvalidNames(files)[k]
  {
    if |files| > 0 {
      InvalidNamesAreRejected(files[1..]);
      var head := if IsValidImageFile(files[0]) then [] else [files[0].name];
      var rest := InvalidNames(files[1..]);
      forall k | 0 <= k < |InvalidNames(files)|
        ensures exists f :: f in files && !IsValidImageFile(f) && f.name == InvalidNames(files)[k]
      {
        if k < |head| {
          assert files[0] in files;
        } else {
          assert InvalidNames(files)[k] == rest[k - |head|];
          var g :| g in files[1..] && !IsValidImageFile(g) && g.name == rest[k - |head|];
          assert g in files;
        }
      }
    }
  }

  // ---------------------------------------------------------------------
  // Export file name
  // ---------------------------------------------------------------------

  /** Position `i` is the dot that `/\.[^/.]+$/` matches: a dot followed by
      at least one character and nothing but characters other than '.' and
      '/' up to the end. */
  predicate IsExtensionDot(s: string, i: int)
  {
    0 <= i < |s| - 1 && s[i] == '.' && forall k :: i < k < |s| ==> s[k] != '.' && s[k] != '/'
  }

  /** The match position, found by scanning back from the end: the scan
      stops with no match at a '/', and at a '.' that ends the name. */
  function ExtensionDot(s: string): (r: Option<nat>)
    ensures r.Some? ==> r.value < |s|
  {
    DotBefore(s, |s|)
  }

  /** Scans `s[..j]` backwards; `s[j..]` holds neither '.' nor '/'. */
  function DotBefore(s: string, j: nat): (r: Option<nat>)
    requires j <= |s|
    ensures r.Some? ==> r.value < j
    decreases j
  {
    if j == 0 then None
    else if s[j - 1] == '/' then None
    else if s[j - 1] == '.' then (if j < |s| then Some(j - 1) else None)
    else DotBefore(s, j - 1)
  }

  /** The scan finds exactly the regular expression's match. */
  lemma ExtensionDotMatches(s: string)
    ensures forall i :: ExtensionDot(s) == Some(i) <==> IsExtensionDot(s, i)
  {
    DotBeforeMatches(s, |s|);
  }

  lemma {:induction false} DotBeforeMatches(s: string, j: nat)
    requires j <= |s|
    requires forall k :: j <= k < |s| ==> s[k] != '.' && s[k] != '/'
    ensures DotBefore(s, j).Some? ==> IsExtensionDot(s, DotBefore(s, j).value)
    ensures forall i :: IsExtensionDot(s, i) ==> DotBefore(s, j) == Some(i)
    decreases j
  {
    if j > 0 && s[j - 1] != '/' && s[j - 1] != '.' {
      DotBeforeMatches(s, j - 1);
    }
  }

  /** `originalName.replace(/\.[^/.]+$/, '')`. */
  function StripExtension(name: string): (r: string)
    ensures r <= name
  {
    match ExtensionDot(name)
    case Some(i) => name[..i]
    case None => name
  }

  /** The strip removes exactly the matched extension, or nothing when the
      name has none. */
  lemma StripExtensionSpec(name: string)
    ensures (exists i :: IsExtensionDot(name, i)) ==>
      exists i :: IsExtensionDot(name, i) && StripExtension(name) == name[..i]
    ensures (forall i :: !IsExtensionDot(name, i)) ==> StripExtension(name) == name
  {
    ExtensionDotMatches(name);
  }

  /** A name whose stem is followed by '.' and a plain extension loses
      exactly that extension. */
  lemma StripAppendedExtension(stem: string, ext: string)
    requires |ext| > 0 && forall k :: 0 <= k < |ext| ==> ext[k] != '.' && ext[k] != '/'
    ensures StripExtension(stem + "." + ext) == stem
  {
    var s := stem + "." + ext;
    assert IsExtensionDot(s, |stem|) by {
      forall k | |stem| < k < |s| ensures s[k] != '.' && s[k] != '/' {
        assert s[k] == ext[k - |stem| - 1];
      }
    }
    ExtensionDotMatches(s);
    assert s[..|stem|] == stem;
  }

  /** Worked examples: only a plain trailing extension is removed. */
  lemma StripExamples()
    ensures StripExtension("a.tar.gz") == "a.tar"
    ensures StripExtension("noext") == "noext"
    ensures StripExtension("name.") == "name."
    ensures StripExtension("d.x/f") == "d.x/f"
    ensures StripExtension(".hidden") == ""
  {
    assert DotBefore("a.tar.gz", 8) == Some(5);
    assert DotBefore("noext", 5) == None;
    assert DotBefore("name.", 5) == None;
    assert DotBefore("d.x/f", 5) == None;
    assert DotBefore(".hidden", 7) == Some(0);
  }

  const WatermarkedSuffix := "-watermarked"

  /** `generateWatermarkedFilename(originalName, format)`. */
  function GenerateWatermarkedFilename(name: string, format: ExportFormat): (r: string)
    ensures HasPrefix(r, StripExtension(name))
    ensures r[|StripExtension(name)|..] == WatermarkedSuffix + "." + FormatName(format)
  {
    var stem := StripExtension(name);
    var r := stem + WatermarkedSuffix + "." + FormatName(format);
    assert r[..|stem|] == stem;
    r
  }

  /** The generated name's own extension is the format, so stripping it
      again gives the stem with the suffix. */
  lemma GeneratedNameExtension(name: string, format: ExportFormat)
    ensures StripExtension(GenerateWatermarkedFilename(name, format))
         == StripExtension(name) + WatermarkedSuffix
  {
    var ext := FormatName(format);
    assert |ext| > 0 && forall k :: 0 <= k < |ext| ==> ext[k] != '.' && ext[k] != '/';
    StripAppendedExtension(StripExtension(name) + WatermarkedSuffix, ext);
  }

  /** Names differing only in their extension get the same export name. */
  lemma SameStemSameName(a: string, b: string, format: ExportFormat)
    requires StripExtension(a) == StripExtension(b)
    ensures GenerateWatermarkedFilename(a, format) == GenerateWatermarkedFilename(b, format)
  {
  }

  // ---------------------------------------------------------------------
  // Export MIME type
  // ---------------------------------------------------------------------

  datatype MimeChoice = MimeChoice(mimeType: string, needsQuality: bool)

  /** `getExportMimeType(format)`. */
  function GetExportMimeType(format: ExportFormat): (m: MimeChoice)
    ensures m.mimeType == ImagePrefix + FormatName(format)
    ensures m.needsQuality <==> format != Png
  {
    match format
    case Jpeg => MimeChoice("image/jpeg", true)
    case Webp => MimeChoice("image/webp", true)
    case Png => MimeChoice("image/png", false)
  }

  /** The format a MIME type names, if it is one of the three. */
  function FormatOfMime(m: string): Option<ExportFormat>
  {
    if m == "image/png" then Some(Png)
    else if m == "image/jpeg" then Some(Jpeg)
    else if m == "image/webp" then Some(Webp)
    else None
  }

  /** The MIME type determines the format, and it is an image type. */
  lemma MimeTypeRoundTrip(format: ExportFormat)
    ensures FormatOfMime(GetExportMimeType(format).mimeType) == Some(format)
    ensures HasPrefix(GetExportMimeType(format).mimeType, ImagePrefix)
  {
  }

  /** The quality argument handed to `toDataURL`/`toBlob`
      (src/utils/exportUtils.ts): the option's quality when the format takes
      one, otherwise none. */
  function ExportQuality(options: ExportOptions): (q: Option<real>)
    ensures q.Some? <==> options.format != Png
    ensures q.Some? ==> q.value == options.quality
  {
    if GetExportMimeType(options.format).needsQuality then Some(options.quality) else None
  }
}
