/** The application shell (src/App.tsx): the list of uploaded images and the
    selected one, the settings handed to the panel and the preview, the
    language toggle, and the single and batch downloads.

    Browser I/O is a parameter: whether the preview canvas exists, whether
    each file decodes, whether `toBlob` yields a blob, and whether the
    watermark image loads. A download is the file name, MIME type and
    quality it is requested with; the encoded bytes are not modelled. */
module App {
  import opened Common
  import opened Config
  import opened Defaults
  import opened Geometry
  import opened Canvas
  import opened Compositor
  import opened FileUtils

  datatype AppState = AppState(
    files: seq<FileRef>,
    selected: int,
    config: WatermarkConfig,
    exportOptions: ExportOptions,
    language: string)

  /** The selection points at an image, or is 0 when there is none. */
  predicate AppInv(s: AppState)
  {
    0 <= s.selected && (s.selected < |s.files| || (|s.files| == 0 && s.selected == 0))
  }

  /** The state the application starts in (the language comes from the
      i18n setup). */
  function InitialApp(language: string): (s: AppState)
    ensures AppInv(s)
  {
    AppState([],
      0,
      WatermarkConfig(Text, "Watermark", "#ffffff", 48.0, 0.8, 0.0, false, 200.0, None, 100.0),
      ExportOptions(Png, 0.92),
      language)
  }

  /** The start state uses exactly the shared defaults. */
  lemma InitialIsDefault(language: string)
    ensures InitialApp(language).config == DefaultWatermarkConfig
    ensures InitialApp(language).exportOptions == DefaultExportOptions
    ensures InitialApp(language).files == [] && InitialApp(language).selected == 0
  {
  }

  // ---------------------------------------------------------------------
  // The image list
  // ---------------------------------------------------------------------

  /** The uploader (shown while the list is empty) replaces the list. */
  function Upload(s: AppState, files: seq<FileRef>): AppState
  {
    s.(files := files)
  }

  /** "Upload more" appends a non-empty selection after the existing files. */
  function UploadMore(s: AppState, more: seq<FileRef>): (t: AppState)
    ensures t.files == if |more| > 0 then s.files + more else s.files
    ensures |s.files| <= |t.files| && t.files[..|s.files|] == s.files
  {
    if |more| > 0 then s.(files := s.files + more) else s
  }

  /** The sidebar selects one of its images. */
  function Select(s: AppState, index: int): AppState
  {
    s.(selected := index)
  }

  /** `array.splice(index, 1)` on a copy: a negative index counts from the
      end, an index past the end removes nothing. */
  function Splice1<T>(xs: seq<T>, index: int): (r: seq<T>)
    ensures 0 <= index < |xs| ==> r == xs[..index] + xs[index + 1..]
    ensures index >= |xs| ==> r == xs
    ensures -|xs| <= index < 0 ==> r == xs[..|xs| + index] + xs[|xs| + index + 1..]
    ensures index < -|xs| && |xs| > 0 ==> r == xs[1..]
  {
    var start := if index < 0 then (if |xs| + index < 0 then 0 else |xs| + index)
                 else (if index < |xs| then index else |xs|);
    if start < |xs| then xs[..start] + xs[start + 1..] else xs
  }

  /** Removal and re-insertion at the same place give the list back. */
  lemma SpliceInverse<T>(xs: seq<T>, index: int)
    requires 0 <= index < |xs|
    ensures var r := Splice1(xs, index);
      |r| == |xs| - 1 && r[..index] + [xs[index]] + r[index..] == xs
  {
    var r := Splice1(xs, index);
    assert r[..index] == xs[..index];
    assert r[index..] == xs[index + 1..];
  }

  /** `handleRemoveImage(index)`: delete the image, then pull the
      selection back onto the list if it fell off the end. */
  function RemoveImage(s: AppState, index: int): (t: AppState)
    ensures t.files == Splice1(s.files, index)
    ensures t.selected == if s.selected >= |t.files| then (if |t.files| - 1 > 0 then |t.files| - 1 else 0) else s.selected
    ensures t.config == s.config && t.exportOptions == s.exportOptions && t.language == s.language
  {
    var files := Splice1(s.files, index);
    var selected := if s.selected >= |files| then (if |files| - 1 > 0 then |files| - 1 else 0) else s.selected;
    s.(files := files, selected := selected)
  }

  /** Every list operation keeps the selection on the list. */
  lemma ListOpsKeepInv(s: AppState, files: seq<FileRef>, more: seq<FileRef>, i: int, index: int)
    requires AppInv(s)
    ensures |s.files| == 0 ==> AppInv(Upload(s, files))
    ensures AppInv(UploadMore(s, more))
    ensures 0 <= i < |s.files| ==> AppInv(Select(s, i))
    ensures AppInv(RemoveImage(s, index))
  {
  }

  /** Removing an image after the selected one keeps the same image
      selected. Removing one before it keeps the index, so the selection
      moves on to the image that followed, unless the last image was
      selected, which stays selected. */
  lemma RemoveAndSelection(s: AppState, index: int)
    requires AppInv(s) && 0 <= index < |s.files|
    ensures var t := RemoveImage(s, index);
      && (s.selected < index ==> t.files[t.selected] == s.files[s.selected])
      && (index < s.selected < |s.files| - 1 ==> t.files[t.selected] == s.files[s.selected + 1])
      && (index < s.selected == |s.files| - 1 ==> t.files[t.selected] == s.files[s.selected])
      && (|t.files| > 0 ==> t.selected < |t.files|)
  {
  }

  /** `toggleLanguage`: Chinese switches to English, anything else to
      Chinese. */
  function ToggleLanguage(language: string): (r: string)
    ensures r == "en" || r == "zh"
    ensures r != language || (language != "zh" && language != "en")
  {
    if language == "zh" then "en" else "zh"
  }

  /** Toggling twice returns to a supported language, and to the same one
      when it was supported. */
  lemma ToggleTwice(language: string)
    ensures language == "zh" || language == "en" ==> ToggleLanguage(ToggleLanguage(language)) == language
    ensures ToggleLanguage(ToggleLanguage(language)) == "en" || ToggleLanguage(ToggleLanguage(language)) == "zh"
    ensures language != "zh" && language != "en" ==> ToggleLanguage(ToggleLanguage(language)) == "en"
  {
  }

  // ---------------------------------------------------------------------
  // Export settings written inline
  // ---------------------------------------------------------------------

  /** The file name built inline in both download handlers. */
  function InlineName(name: string, format: ExportFormat): string
  {
    StripExtension(name) + "-watermarked." + FormatName(format)
  }

  /** The MIME type and quality chosen by the inline `switch` in both
      download handlers. */
  function InlineExport(options: ExportOptions): (string, Option<real>)
  {
    match options.format
    case Jpeg => ("image/jpeg", Some(options.quality))
    case Webp => ("image/webp", Some(options.quality))
    case Png => ("image/png", None)
  }

  /** The inline copies agree with the shared helpers. */
  lemma InlineAgrees(name: string, options: ExportOptions)
    ensures InlineName(name, options.format) == GenerateWatermarkedFilename(name, options.format)
    ensures InlineExport(options).0 == GetExportMimeType(options.format).mimeType
    ensures InlineExport(options).1 == ExportQuality(options)
  {
  }

  // ---------------------------------------------------------------------
  // Single download
  // ---------------------------------------------------------------------

  /** A requested download: the name, MIME type and quality handed to the
      browser. */
  datatype Download = Download(name: string, mimeType: string, quality: Option<real>)

  /** The download `handleDownload` prepares for the selected image. */
  function SelectedDownload(s: AppState, options: ExportOptions): Download
    requires 0 <= s.selected < |s.files|
  {
    var mt := InlineExport(options);
    Download(InlineName(s.files[s.selected].name, options.format), mt.0, mt.1)
  }

  /** `handleDownload` as written: the link is clicked twice, so the same
      download is requested twice. */
  function HandleDownloadAsWritten(s: AppState, hasCanvas: bool, options: ExportOptions): (ds: seq<Download>)
    requires AppInv(s)
    ensures ds == HandleDownload(s, hasCanvas, options) + HandleDownload(s, hasCanvas, options)
  {
    if !hasCanvas || |s.files| == 0 then []
    else
      var d := SelectedDownload(s, options);
      [d, d]
  }

  /** `handleDownload` with a single click. */
  function HandleDownload(s: AppState, hasCanvas: bool, options: ExportOptions): (ds: seq<Download>)
    requires AppInv(s)
    ensures |ds| == if hasCanvas && |s.files| > 0 then 1 else 0
    ensures |ds| == 1 ==>
      && ds[0].name == GenerateWatermarkedFilename(s.files[s.selected].name, options.format)
      && ds[0].mimeType == GetExportMimeType(options.format).mimeType
      && ds[0].quality == ExportQuality(options)
  {
    if !hasCanvas || |s.files| == 0 then []
    else
      InlineAgrees(s.files[s.selected].name, options);
      [SelectedDownload(s, options)]
  }

  /** As written, one click on "download" saves the file twice. */
  lemma DoubleClickDownloadsTwice(s: AppState, options: ExportOptions)
    requires AppInv(s) && |s.files| > 0
    ensures |HandleDownloadAsWritten(s, true, options)| == 2
    ensures HandleDownloadAsWritten(s, true, options) == HandleDownload(s, true, options) + HandleDownload(s, true, options)
  {
  }

  // ---------------------------------------------------------------------
  // Batch download
  // ---------------------------------------------------------------------


  /** One zip entry: its name and the canvas calls that produced it, with
      the MIME type and quality it was encoded with. */
  datatype ZipEntry = ZipEntry(name: string, content: seq<DrawOp>, mimeType: string, quality: Option<real>)

  datatype BatchOutcome =
    | NoOp                           // no files
    | Aborted                        // the watermark image failed to load
    | Pending                        // a promise never settles; no zip is saved
    | Saved(entries: seq<ZipEntry>)  // 'watermarked_images.zip' is saved

  /** The browser's answers for one batch: which files decode, which
      canvases yield a blob, and whether the watermark image loads. */
  datatype BatchIo = BatchIo(decode: FileRef -> Option<Img>, blobOk: FileRef -> bool, watermarkLoads: bool)

  /** How the batch renders each image: on a fresh canvas, with no
      position, so the watermark sits at the default centre. */
  function Renderer(config: WatermarkConfig, env: Env): Img -> seq<DrawOp>
    requires config.repeat ==> StepsPositive(env, config)
  {
    img => DrawWatermarkOnCanvas(true, img, config, None, env)
  }

  /** What one file contributes: its rendered canvas under the generated
      name. */
  function Entry(f: FileRef, img: Img, render: Img -> seq<DrawOp>, options: ExportOptions): ZipEntry
  {
    var mt := InlineExport(options);
    ZipEntry(InlineName(f.name, options.format), render(img), mt.0, mt.1)
  }

  /** Whether a file ends up in the zip: it decodes and its blob is not
      null. */
  predicate Kept(f: FileRef, io: BatchIo)
  {
    io.decode(f).Some? && io.blobOk(f)
  }

  /** The entries, in file order: a file is skipped when its blob is null
      (and, in the corrected handler, when it does not decode). */
  function Entries(files: seq<FileRef>, io: BatchIo, render: Img -> seq<DrawOp>, options: ExportOptions): (es: seq<ZipEntry>)
    ensures |es| <= |files|
  {
    if |files| == 0 then []
    else
      var f := files[0];
      var head := if Kept(f, io) then [Entry(f, io.decode(f).value, render, options)] else [];
      head + Entries(files[1..], io, render, options)
  }

  /** Whether the batch first waits for the watermark image. */
  predicate NeedsWatermarkImage(config: WatermarkConfig)
  {
    config.kind == Image && config.imageFile.Some?
  }

  /** `handleBatchDownload` as written: a file that fails to decode has no
      `onerror`, so its promise never settles and `Promise.all` never
      resolves. */
  function BatchAsWritten(s: AppState, io: BatchIo, options: ExportOptions, env: Env): (o: BatchOutcome)
    requires s.config.repeat ==> StepsPositive(env, s.config)
    ensures o.Pending? <==>
      && Batch(s, io, options, env).Saved?
      && exists k :: 0 <= k < |s.files| && io.decode(s.files[k]).None?
    ensures !o.Pending? ==> o == Batch(s, io, options, env)
  {
    if |s.files| == 0 then NoOp
    else if NeedsWatermarkImage(s.config) && !io.watermarkLoads then Aborted
    else if exists k :: 0 <= k < |s.files| && io.decode(s.files[k]).None? then Pending
    else Saved(Entries(s.files, io, Renderer(s.config, env), options))
  }

  /** `handleBatchDownload` with undecodable files skipped like files
      without a blob. */
  function Batch(s: AppState, io: BatchIo, options: ExportOptions, env: Env): (o: BatchOutcome)
    requires s.config.repeat ==> StepsPositive(env, s.config)
    ensures o == NoOp <==> |s.files| == 0
    ensures o == Aborted <==> |s.files| > 0 && NeedsWatermarkImage(s.config) && !io.watermarkLoads
    ensures !o.Pending?
    ensures o.Saved? ==> forall e :: e in o.entries ==>
      exists f :: f in s.files && Kept(f, io) && e == Entry(f, io.decode(f).value, Renderer(s.config, env), options)
    ensures o.Saved? ==> forall k :: 0 <= k < |s.files| && Kept(s.files[k], io) ==>
      Entry(s.files[k], io.decode(s.files[k]).value, Renderer(s.config, env), options) in o.entries
  {
    if |s.files| == 0 then NoOp
    else if NeedsWatermarkImage(s.config) && !io.watermarkLoads then Aborted
    else
      EntriesExact(s.files, io, Renderer(s.config, env), options);
      Saved(Entries(s.files, io, Renderer(s.config, env), options))
  }

  /** The entries of a split list are the entries of its parts: a skipped
      file does not stop the files after it from being added. */
  lemma {:induction false} EntriesAppend(a: seq<FileRef>, b: seq<FileRef>, io: BatchIo, render: Img -> seq<DrawOp>, options: ExportOptions)
    ensures Entries(a + b, io, render, options) == Entries(a, io, render, options) + Entries(b, io, render, options)
    decreases |a|
  {
    if |a| == 0 {
      assert a + b == b;
    } else {
      assert (a + b)[0] == a[0];
      assert (a + b)[1..] == a[1..] + b;
      EntriesAppend(a[1..], b, io, render, options);
    }
  }

  /** A file that is not kept is left out and nothing else changes. */
  lemma SkippedFileDropped(a: seq<FileRef>, f: FileRef, b: seq<FileRef>, io: BatchIo, render: Img -> seq<DrawOp>, options: ExportOptions)
    requires !Kept(f, io)
    ensures Entries(a + [f] + b, io, render, options) == Entries(a, io, render, options) + Entries(b, io, render, options)
  {
    var af := a + [f];
    EntriesAppend(af, b, io, render, options);
    EntriesAppend(a, [f], io, render, options);
    EntriesOfSkipped(f, io, render, options);
    assert Entries(af, io, render, options) == Entries(a, io, render, options);
  }

  lemma EntriesOfSkipped(f: FileRef, io: BatchIo, render: Img -> seq<DrawOp>, options: ExportOptions)
    requires !Kept(f, io)
    ensures Entries([f], io, render, options) == []
  {
    assert [f][1..] == [];
  }

  /** Each entry comes from a kept file: it carries the generated name,
      the export MIME type and quality, and the file's image rendered. */
  lemma {:induction false} EntriesSound(files: seq<FileRef>, io: BatchIo, render: Img -> seq<DrawOp>, options: ExportOptions)
    ensures forall e :: e in Entries(files, io, render, options) ==>
      exists f :: f in files && Kept(f, io) && e == Entry(f, io.decode(f).value, render, options)
    decreases |files|
  {
    if |files| > 0 {
      EntriesSound(files[1..], io, render, options);
      forall e | e in Entries(files, io, render, options)
        ensures exists g :: g in files && Kept(g, io) && e == Entry(g, io.decode(g).value, render, options)
      {
        if e !in Entries(files[1..], io, render, options) {
          assert files[0] in files;
        } else {
          var g :| g in files[1..] && Kept(g, io) && e == Entry(g, io.decode(g).value, render, options);
          assert g in files;
        }
      }
    }
  }

  /** Every kept file gets an entry. */
  lemma {:induction false} EntriesComplete(files: seq<FileRef>, io: BatchIo, render: Img -> seq<DrawOp>, options: ExportOptions, k: nat)
    requires k < |files| && Kept(files[k], io)
    ensures Entry(files[k], io.decode(files[k]).value, render, options) in Entries(files, io, render, options)
    decreases k
  {
    if k > 0 {
      assert files[1..][k - 1] == files[k];
      EntriesComplete(files[1..], io, render, options, k - 1);
    }
  }

  /** The entries are exactly those of the kept files. */
  lemma EntriesExact(files: seq<FileRef>, io: BatchIo, render: Img -> seq<DrawOp>, options: ExportOptions)
    ensures forall e :: e in Entries(files, io, render, options) ==>
      exists f :: f in files && Kept(f, io) && e == Entry(f, io.decode(f).value, render, options)
    ensures forall k :: 0 <= k < |files| && Kept(files[k], io) ==>
      Entry(files[k], io.decode(files[k]).value, render, options) in Entries(files, io, render, options)
  {
    EntriesSound(files, io, render, options);
    forall k | 0 <= k < |files| && Kept(files[k], io)
      ensures Entry(files[k], io.decode(files[k]).value, render, options) in Entries(files, io, render, options)
    {
      EntriesComplete(files, io, render, options, k);
    }
  }

  /** An entry as the single download would name and encode it, with the
      image watermarked at the centre position. */
  lemma EntryIsCentredDownload(f: FileRef, img: Img, config: WatermarkConfig, options: ExportOptions, env: Env)
    requires config.repeat ==> StepsPositive(env, config)
    ensures var e := Entry(f, img, Renderer(config, env), options);
      && e.name == GenerateWatermarkedFilename(f.name, options.format)
      && e.mimeType == GetExportMimeType(options.format).mimeType
      && e.quality == ExportQuality(options)
      && e.content == DrawWatermarkOnCanvas(true, img, config, Some(Centre), env)
  {
    InlineAgrees(f.name, options);
    assert Anchors(env, img, config, None) == Anchors(env, img, config, Some(Centre));
  }

  /** When every file decodes, the written handler and the corrected one
      agree. */
  lemma BatchAgreesWhenDecoded(s: AppState, io: BatchIo, options: ExportOptions, env: Env)
    requires s.config.repeat ==> StepsPositive(env, s.config)
    requires forall k :: 0 <= k < |s.files| ==> io.decode(s.files[k]).Some?
    ensures BatchAsWritten(s, io, options, env) == Batch(s, io, options, env)
  {
  }

  /** As written, one undecodable file among decodable ones means no zip at
      all; the corrected handler saves the others. */
  lemma UndecodableFileHangsBatch(good: FileRef, bad: FileRef, img: Img, env: Env)
    requires good != bad
    ensures var s := InitialApp("en").(files := [good, bad]);
      var io := BatchIo(f => if f == good then Some(img) else None, f => true, true);
      && BatchAsWritten(s, io, DefaultExportOptions, env) == Pending
      && Batch(s, io, DefaultExportOptions, env)
           == Saved([Entry(good, img, Renderer(s.config, env), DefaultExportOptions)])
  {
    var s := InitialApp("en").(files := [good, bad]);
    var io := BatchIo(f => if f == good then Some(img) else None, f => true, true);
    assert !NeedsWatermarkImage(s.config);
    assert BatchAsWritten(s, io, DefaultExportOptions, env) == Pending by {
      assert 0 <= 1 < |s.files| && io.decode(s.files[1]).None?;
    }
    EntriesOfPair(good, bad, io, Renderer(s.config, env), DefaultExportOptions);
  }

  /** A kept file followed by a skipped one leaves one entry. */
  lemma EntriesOfPair(a: FileRef, b: FileRef, io: BatchIo, render: Img -> seq<DrawOp>, options: ExportOptions)
    requires Kept(a, io) && !Kept(b, io)
    ensures Entries([a, b], io, render, options) == [Entry(a, io.decode(a).value, render, options)]
  {
    assert [a, b][1..] == [b];
    assert [b][1..] == [];
    assert Entries([b], io, render, options) == [];
  }
}
