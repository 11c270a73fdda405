# vmark watermarking: a verified model of the core

vmark is a browser app. It loads one or more images and previews a text
watermark over the selected image, either once at a draggable position or
tiled over the whole image. It can download the selected image or zip all
of them, in PNG, JPEG or WebP. This project models the parts of the app that
are logic rather than rendering, and proves properties of that model.

- **Geometry** (`geometry.dfy`): the text metrics of
  `calculateTextDimensions`, the vertical centring of the lines, and the
  rotated bounding box.
- **Canvas** (`canvas.dfy`): an abstract 2D canvas. It records the drawing
  calls the code makes and follows the HTML canvas rules that matter here.
  Assigning a size resets the bitmap, the drawing state and the save stack.
  `save`/`restore` push and pop the state. An out-of-range `globalAlpha` is
  ignored.
- **Placement** (`placement.dfy`): the single-mode anchor, and the
  repeat-mode grid. The grid is both the two nested loops, step by step, and
  an independent row-major reference cut at 2000.
- **Compositor** (`compositor.dfy`): `drawWatermarkOnCanvas` and
  `drawSingleWatermark` as the sequence of canvas calls they make.
- **WatermarkCanvas** (`watermark_canvas.dfy`): the preview component as a
  transition function over its state. It covers image and watermark-image
  loading, dragging, and when a frame is drawn.
- **FileUtils** (`file_utils.dfy`): the image MIME check, the accepted and
  rejected split, the extension strip behind the export name, and the
  format-to-MIME table.
- **App** (`app.dfy`): the image list and selection, the initial state, the
  language toggle, and the single and batch downloads with their inline
  name and MIME logic.
- **ControlPanel** (`control_panel.dfy`): single-field setting updates,
  export option updates, slider ranges, the hex colour pattern, which
  controls are shown, and `isProcessing`.
- **Toast** (`toast.dfy`): the `useToast` list reducers, the shortcuts, and
  the auto-dismiss choice of a toast item.
- **Config and Defaults** (`config.dfy`): the settings types and the
  shared default values.

## Modelling notes

**Browser inputs become parameters.**
- Text width is an uninterpreted `measure(fontPx, line) >= 0`.
- |cos| and |sin| of the rotation are abstract values in [0,1], exact at
  the quarter turns.
- Whether a file decodes, whether `toBlob` yields a blob, whether the
  watermark image loads, and whether a 2D context exists are all inputs.
- Toast ids are supplied by the caller.

**Numbers are exact reals.** No floating-point rounding is modelled. In
particular, the i-th grid column is `-stepX + i*stepX`, where the source
adds `stepX` repeatedly.

**Behaviour of the code worth knowing:**
- Repeat mode has no phase offset: it ignores the position.
- A drag sets the absolute pointer percentage, unclamped. It does not add a
  delta from where the drag started.
- The canvas is resized on every draw, not only when the size changes.
- Only text is drawn. The watermark type and image file are never read. A
  fifth watermark-image argument passed by the callers is ignored.
- A batch file that fails to decode is not reported as an error (see
  Findings).

## Model

| member | source | states |
|---|---|---|
| Geometry.JoinSplit | src/utils/watermarkUtils.ts:9 | joining the lines of `text.split('\n')` with '\n' gives the text back |
| Geometry.SplitLineCount | src/utils/watermarkUtils.ts:9 | the split has one more line than the text has '\n' characters |
| Geometry.SplitLinesHaveNoNewline | src/utils/watermarkUtils.ts:9 | no line produced by the split contains '\n' |
| Geometry.SplitJoin | src/utils/watermarkUtils.ts:9 | for lines without '\n', splitting their join gives the same lines (the inverse direction) |
| Geometry.MaxOf | src/utils/watermarkUtils.ts:12 | `Math.max` of a non-empty list is at least every element and equal to one of them |
| Geometry.TextDimensions | src/utils/watermarkUtils.ts:3-15 | the lines rejoin to the text, there are (number of '\n') + 1 of them, the line height is 1.2·fontSize, the block height is lines·lineHeight, and maxWidth bounds every line's width and is attained by one of them |
| Geometry.TextBlockNonNegative | src/utils/watermarkUtils.ts:10-12 | with non-negative widths and font size, the block width and height are non-negative |
| Geometry.LinesCentred | src/utils/watermarkUtils.ts:51-55 | consecutive line offsets differ by the line height, and the first and last offsets sum to 0, so the block is centred on the anchor |
| Geometry.BlockCentred | src/utils/watermarkUtils.ts:51-55 | the same centring holds for any block whose height is its line count times its line height |
| Geometry.RotatedBoxNonNegative | src/utils/watermarkUtils.ts:74-75 | the rotated box of a non-negative block has non-negative sides at every angle |
| Geometry.RotatedBoxQuarterTurns | src/utils/watermarkUtils.ts:69-75 | at 0°, 180° and 360° the box is the block; at 90° and 270° its sides are swapped |
| Canvas.RunFills | src/utils/watermarkUtils.ts:53-55 | a run of `fillText` calls draws its lines in order in the current state and changes nothing else |
| Canvas.ScopedRestoresState | src/utils/watermarkUtils.ts:35-57 | a body wrapped in save/restore that neither resizes nor saves leaves the drawing state, stack and size as they were, and only adds paint |
| Canvas.ResizeForgetsPast | src/utils/watermarkUtils.ts:27-28 | after assigning width and height, the canvas no longer depends on what it held before |
| Placement.SingleAnchorInverse | src/utils/watermarkUtils.ts:107-108 | the anchor read back as percentages of the canvas is the position, and the default position anchors at the centre |
| Placement.SingleAnchorOnCanvas | src/utils/watermarkUtils.ts:105-110 | a position in [0,100]² puts the single anchor on the canvas [0,W]×[0,H] |
| Placement.CountBelow | src/utils/watermarkUtils.ts:91-99 | the number of iterations of `for (v = start; v < bound; v += step)`: every earlier value is below the bound and every later one is not |
| Placement.PlanGrid | src/utils/watermarkUtils.ts:78-99 | column i is visited exactly when -sX + i·sX < W + sX, and row j exactly when -sY + j·sY < H + sY |
| Placement.GridFromInBounds | src/utils/watermarkUtils.ts:91-103 | every anchor the loops produce lies within one step of the canvas |
| Placement.RepeatAnchors | src/utils/watermarkUtils.ts:86-104 | repeat mode yields at most 2000 anchors, each in [-sX, W+sX)×[-sY, H+sY) |
| Placement.RepeatAnchorLoop | src/utils/watermarkUtils.ts:88-104 | the two nested loops, adding the step and counting to 2000, produce exactly the planned anchors |
| Placement.GridFromIsPrefix | src/utils/watermarkUtils.ts:91-103 | from any grid point on, the loops produce the rest of the row-major grid cut to the remaining budget |
| Placement.RepeatAnchorsRowMajor | src/utils/watermarkUtils.ts:86-104 | the repeat anchors are the first 2000 points of the whole grid in row-major order |
| Placement.RepeatAnchorsCount | src/utils/watermarkUtils.ts:88-103 | the number of anchors is rows·cols, capped at 2000 |
| Placement.RepeatAnchorAt | src/utils/watermarkUtils.ts:91-101 | below the cap, anchor number j·cols + i is (-sX + i·sX, -sY + j·sY) |
| Placement.CountShrinks | src/utils/watermarkUtils.ts:96-99 | a larger step never makes one loop run more often |
| Placement.RepeatCountMonotone | src/utils/watermarkUtils.ts:78-104 | larger steps in both directions never produce more anchors |
| Compositor.DrawSingleWatermark | src/utils/watermarkUtils.ts:34-58 | an instance opens with `save`, closes with `restore`, neither resizes nor draws an image in between, and fills line i as its tenth-plus-i call |
| Compositor.RunSetup | src/utils/watermarkUtils.ts:36-42 | the setup calls move the state to the anchor, rotate it and set alpha, font, colour and alignment, and change nothing else |
| Compositor.InstanceBalanced | src/utils/watermarkUtils.ts:34-58 | an instance paints exactly its lines in the instance state and leaves the state, save stack and size as they were |
| Compositor.InstancesSaveCount | src/utils/watermarkUtils.ts:91-103 | the instances save once per anchor and never draw an image or resize |
| Compositor.InstancesBalanced | src/utils/watermarkUtils.ts:91-103 | the instances paint, anchor after anchor, that anchor's lines in its own instance state (moved to the anchor, rotated, styled), and leave the state, stack and size unchanged |
| Compositor.PaintedAt | src/utils/watermarkUtils.ts:91-103 | the instances paint one glyph per line per anchor |
| Compositor.PaintedAtIndex | src/utils/watermarkUtils.ts:51-55 | glyph number k·lines + i is line i at its centred offset, drawn in anchor k's instance state |
| Compositor.StepsPositiveWhenSpaced | src/utils/watermarkUtils.ts:74-79 | with valid measurement, a non-negative font size and positive spacing, both grid steps are positive, so the loops end |
| Compositor.Anchors | src/utils/watermarkUtils.ts:60-110 | single mode has the one anchor of the position (the centre when none is given); every call has at most 2000 anchors |
| Compositor.DrawWatermarkOnCanvas | src/utils/watermarkUtils.ts:17-31 | without a context no call is made; otherwise the first calls set width and height to the image's and draw the image at (0,0) |
| Compositor.CompositeCalls | src/utils/watermarkUtils.ts:27-110 | the image is drawn once, before everything else; nothing later resizes or draws an image; there is one save per anchor, exactly one in single mode |
| Compositor.CompositeResult | src/utils/watermarkUtils.ts:23-110 | whatever the canvas held, afterwards it has the image's size and an empty save stack, and holds the image at (0,0) followed by each anchor's lines in that anchor's instance state |
| Compositor.CompositeIdempotent | src/utils/watermarkUtils.ts:27-31 | drawing twice with the same inputs gives the canvas that drawing once gives |
| Compositor.RepeatIgnoresPosition | src/utils/watermarkUtils.ts:60-104 | in repeat mode the calls do not depend on the position |
| Compositor.TypeIgnored | src/utils/watermarkUtils.ts:17-111 | an image-type configuration draws exactly what the text configuration with the same fields draws |
| Compositor.InstancesSameConfig | src/utils/watermarkUtils.ts:34-58 | instances depend only on text, font size, rotation, opacity and colour |
| Compositor.SingleModePlacement | src/utils/watermarkUtils.ts:105-110 | single mode translates its one instance to (W·x/100, H·y/100) |
| Compositor.SpacingMonotone | src/utils/watermarkUtils.ts:77-99 | with measured text and positive spacing the steps are positive, and wider spacing never draws more watermarks |
| Compositor.MeasuringRun | src/utils/watermarkUtils.ts:62-66 | measuring for the grid only sets the font |
| WatermarkCanvas.Mount | src/components/WatermarkCanvas.tsx:14-19 | the component starts centred at (50,50), not dragging, with nothing decoded, loading exactly when a file is given |
| WatermarkCanvas.WatermarkEffect | src/components/WatermarkCanvas.tsx:60-81 | a watermark image is kept only for an image watermark with a file, and nothing else changes |
| WatermarkCanvas.Handle | src/components/WatermarkCanvas.tsx:21-120 | the props change only by their own events, and a drag starts only by mouse-down on the shown canvas in single mode |
| WatermarkCanvas.Frame | src/components/WatermarkCanvas.tsx:84-101 | a frame is drawn exactly when the canvas and image are there and an image watermark has its image |
| WatermarkCanvas.MouseDownGated | src/components/WatermarkCanvas.tsx:159-165 | mouse-down starts a drag exactly when the canvas is shown in single mode, and changes nothing else |
| WatermarkCanvas.MouseMoveNeedsDrag | src/components/WatermarkCanvas.tsx:108-109 | mouse-move without a drag changes nothing |
| WatermarkCanvas.MouseMoveSetsPosition | src/components/WatermarkCanvas.tsx:108-116 | during a drag, mouse-move sets the position to the pointer's percentage of the rectangle and changes nothing else |
| WatermarkCanvas.PointerPercentRange | src/components/WatermarkCanvas.tsx:111-113 | the unclamped percentage lies in [0,100] exactly when the pointer is inside the rectangle |
| WatermarkCanvas.PointerPercentInverse | src/components/WatermarkCanvas.tsx:111-113 | the percentage read back against the rectangle gives the pointer position |
| WatermarkCanvas.MouseUpEndsDrag | src/components/WatermarkCanvas.tsx:118-120 | mouse-up and mouse-leave end the drag and keep the position |
| WatermarkCanvas.RepeatKeepsDrag | src/components/WatermarkCanvas.tsx:108-116 | turning repeat mode on does not end a drag, and the next mouse-move still moves the position |
| WatermarkCanvas.RepeatNeverStartsDrag | src/components/WatermarkCanvas.tsx:159-165 | in repeat mode, with no configuration change, no sequence of events starts a drag |
| WatermarkCanvas.PositionChanges | src/components/WatermarkCanvas.tsx:36-41 | the position changes only on an image load or a mouse-move during a drag |
| WatermarkCanvas.ImageLoadResets | src/components/WatermarkCanvas.tsx:36-41 | a decoded image is stored, loading ends and the position is reset to the centre |
| WatermarkCanvas.ImageFailureShowsError | src/components/WatermarkCanvas.tsx:43-47 | a failed decode sets 'upload.error', clears the image, ends loading and hides the canvas |
| WatermarkCanvas.FileChangeEffect | src/components/WatermarkCanvas.tsx:22-31 | no file clears the image and error; a new file clears the error and starts loading |
| WatermarkCanvas.SameFileNoReload | src/components/WatermarkCanvas.tsx:57 | passing the same file again changes nothing |
| WatermarkCanvas.WatermarkClearedUnlessImage | src/components/WatermarkCanvas.tsx:60-64 | changing type or file clears the watermark image unless an image watermark with a file is set |
| WatermarkCanvas.FrameDraws | src/components/WatermarkCanvas.tsx:84-101 | the frame is `drawWatermarkOnCanvas` with the current image, configuration and position, whatever watermark image is loaded |
| WatermarkCanvas.AnchorFollowsPointer | src/components/WatermarkCanvas.tsx:108-115 | after a drag move, the next frame's instance is translated to the pointer's percentage of the image |
| WatermarkCanvas.AnchorRatio | src/components/WatermarkCanvas.tsx:111-113 | the anchor divides the image in the ratio in which the pointer divides the displayed rectangle |
| FileUtils.ValidOf | src/utils/fileUtils.ts:11-27 | the accepted files all pass the image MIME check |
| FileUtils.FilterValidImageFiles | src/utils/fileUtils.ts:11-27 | the single pass yields the accepted files and rejected names in input order, and their counts sum to the input length |
| FileUtils.ValidOfKeepsValid | src/utils/fileUtils.ts:18-24 | each accepted file keeps its multiplicity, and a rejected file never appears |
| FileUtils.InvalidNamesAreRejected | src/utils/fileUtils.ts:18-24 | every rejected name is the name of an input file that fails the check |
| FileUtils.ExtensionDotMatches | src/utils/fileUtils.ts:36 | the backward scan finds exactly the dot matched by `/\.[^/.]+$/` |
| FileUtils.StripExtension | src/utils/fileUtils.ts:36 | the stripped name is a prefix of the original |
| FileUtils.StripExtensionSpec | src/utils/fileUtils.ts:36 | the strip removes exactly the matched extension, and leaves a name without a match unchanged |
| FileUtils.StripAppendedExtension | src/utils/fileUtils.ts:36 | a stem followed by '.' and a plain extension loses exactly that extension |
| FileUtils.StripExamples | src/utils/fileUtils.ts:36 | "a.tar.gz" gives "a.tar"; "noext", "name." and "d.x/f" are unchanged; ".hidden" gives "" |
| FileUtils.GenerateWatermarkedFilename | src/utils/fileUtils.ts:32-38 | the export name is the stripped name followed by "-watermarked." and the format |
| FileUtils.GeneratedNameExtension | src/utils/fileUtils.ts:36-37 | the export name's own extension is the format: stripping it leaves the stem plus "-watermarked" |
| FileUtils.SameStemSameName | src/utils/fileUtils.ts:36-37 | names that differ only in their extension get the same export name |
| FileUtils.GetExportMimeType | src/utils/fileUtils.ts:43-54 | the MIME type is "image/" followed by the format, and quality is needed exactly for jpeg and webp |
| FileUtils.MimeTypeRoundTrip | src/utils/fileUtils.ts:43-54 | the MIME type determines the format back and is an image type |
| FileUtils.ExportQuality | src/utils/exportUtils.ts:12-13 | a quality is passed exactly when the format is not png, and it is the option's quality |
| App.InitialApp | src/App.tsx:15-34 | the start state satisfies the selection invariant |
| App.InitialIsDefault | src/App.tsx:18-34 | the start settings and export options equal the shared defaults, with no files and selection 0 |
| App.UploadMore | src/App.tsx:261-266 | a non-empty selection is appended after the existing files, which keep their places |
| App.Splice1 | src/App.tsx:146-148 | `splice(index, 1)` removes exactly the element at the index; a negative index counts from the end; an index past the end removes nothing |
| App.SpliceInverse | src/App.tsx:146-149 | putting the removed element back at its index restores the list |
| App.RemoveImage | src/App.tsx:146-153 | removal splices the list; the selection becomes max(0, len−1) when it fell off the end and is unchanged otherwise; nothing else changes |
| App.ListOpsKeepInv | src/App.tsx:146-153 | upload, upload-more, select and remove all keep the selection on the list (0 when it is empty) |
| App.RemoveAndSelection | src/App.tsx:150-152 | removing after the selection keeps the selected image; removing before it selects the next image, or keeps the last one |
| App.ToggleLanguage | src/App.tsx:36-39 | the result is 'en' or 'zh' and differs from a supported current language |
| App.ToggleTwice | src/App.tsx:36-39 | toggling twice returns to 'zh' or 'en', and any other language ends at 'en' |
| App.InlineAgrees | src/App.tsx:47-68 | the inline name, MIME type and quality agree with `generateWatermarkedFilename`, `getExportMimeType` and the export helper |
| App.HandleDownloadAsWritten | src/App.tsx:41-75 | as written: without a canvas or files nothing is downloaded; otherwise the corrected handler's download is requested twice |
| App.HandleDownload | src/App.tsx:41-75 | corrected (see Findings): without a canvas or files nothing is downloaded; otherwise one download of the selected image under the generated name, MIME type and quality |
| App.DoubleClickDownloadsTwice | src/App.tsx:70-74 | as written, one click requests the same download twice |
| App.Entries | src/App.tsx:96-139 | a batch never has more zip entries than files |
| App.BatchAsWritten | src/App.tsx:77-144 | as written: the batch hangs exactly when the corrected handler would save a zip but some file fails to decode; in every other case it agrees with the corrected handler |
| App.Batch | src/App.tsx:77-144 | corrected (see Findings): no files is a no-op; a watermark image that fails to load aborts; otherwise a zip is saved whose entries are exactly the kept files' entries, each under its generated name, MIME type and quality, with the file's image rendered |
| App.EntriesExact | src/App.tsx:96-141 | every entry comes from a kept file, and every kept file has its entry |
| App.EntriesAppend | src/App.tsx:122-133 | the entries of a split file list are the entries of its parts |
| App.SkippedFileDropped | src/App.tsx:122-133 | a file without a blob is left out, and the files around it still get their entries |
| App.EntriesSound | src/App.tsx:96-139 | every zip entry comes from a kept file, under its generated name, MIME type and quality |
| App.EntriesComplete | src/App.tsx:96-139 | every kept file has an entry |
| App.EntryIsCentredDownload | src/App.tsx:100-128 | a zip entry is named and encoded like the single download and drawn with the watermark at the centre position |
| App.BatchAgreesWhenDecoded | src/App.tsx:96-141 | when every file decodes, the handler as written and the corrected one give the same outcome |
| App.UndecodableFileHangsBatch | src/App.tsx:96-141 | as written, one undecodable file among decodable ones leaves the batch pending forever; the corrected handler saves the others |
| ControlPanel.HandleChange | src/components/ControlPanel.tsx:38-40 | the changed field holds the new value and every other field is unchanged |
| ControlPanel.ChangeUndo | src/components/ControlPanel.tsx:38-40 | writing the old value back undoes a change, repeating a change does nothing more, and writing the current value is a no-op |
| ControlPanel.ChangesCommute | src/components/ControlPanel.tsx:38-40 | changes to different fields commute |
| ControlPanel.AgreeEverywhere | src/components/ControlPanel.tsx:6-17 | settings agreeing on every field are equal, so the field list is complete |
| ControlPanel.SetFormat | src/components/ControlPanel.tsx:42-44 | the format handler sets the format and keeps the quality |
| ControlPanel.SetQuality | src/components/ControlPanel.tsx:46-48 | the quality handler sets the quality and keeps the format |
| ControlPanel.ExportHandlersIndependent | src/components/ControlPanel.tsx:42-48 | the two export handlers commute, and each is undone by writing the old value back |
| ControlPanel.ControlsKeepDomain | src/components/ControlPanel.tsx:239-340 | a slider value in its range keeps the settings in the domain; one outside its range would leave it |
| ControlPanel.QualityKeepsDomain | src/components/ControlPanel.tsx:385-395 | a format change keeps the quality in [0.1,1], and a quality change does exactly when the value is in [0.1,1] |
| ControlPanel.DomainGivesPositiveSteps | src/components/ControlPanel.tsx:331-340 | with the spacing in its slider range, repeat mode always has positive grid steps |
| ControlPanel.MatchHexColor | src/components/ControlPanel.tsx:220 | the scan accepts exactly '#' followed by 3 or 6 hex digits |
| ControlPanel.HexColorExamples | src/components/ControlPanel.tsx:220 | "#ffffff", "#FFF" and "#09aF3c" match; "ffffff", "#ffff", "#ggg" and "" do not |
| ControlPanel.ColorIsNotValidated | src/components/ControlPanel.tsx:214-220 | a colour that fails the pattern is still written to the settings |
| ControlPanel.ControlVisibility | src/components/ControlPanel.tsx:325-445 | the quality slider shows exactly for jpeg and webp, spacing exactly in repeat mode, the progress bar exactly with progress, and download-all exactly in batch mode |
| ControlPanel.TypeControlVisibility | src/components/ControlPanel.tsx:108-265 | text input and font size show exactly for text watermarks; image picker and image size exactly for image watermarks |
| ControlPanel.PanelChange | src/components/ControlPanel.tsx:244-246 | while processing, a change is dropped; otherwise the field takes the new value |
| ControlPanel.OmittedProgressDisablesPanel | src/components/ControlPanel.tsx:50-444 | as written, the omitted prop counts as processing, so every control is disabled: every change is dropped and neither Download nor Download-all can be pressed, so no download can be requested from the panel; the corrected reading applies the change and enables both buttons |
| ControlPanel.PanelBusyOnlyWhileRunning | src/components/ControlPanel.tsx:50-444 | with the corrected reading, a change is dropped exactly while a batch reports progress and applied otherwise, and a control (the Download buttons included) is usable exactly when no progress is reported |
| ControlPanel.ProcessingAgreesWhenPassed | src/components/ControlPanel.tsx:50 | when the prop is passed, the written and corrected readings agree |
| ControlPanel.DefaultsInDomain | src/constants/defaultConfig.ts:3-18 | the defaults lie in the slider ranges, the colour matches the pattern, repeat is off, rotation is 0, and the export is png with quality in [0.1,1] |
| Toast.ShowToast | src/components/Toast.tsx:195-200 | one toast is appended after the others, with the given id, message and duration, type 'info' by default, and its id is returned |
| Toast.RemoveToast | src/components/Toast.tsx:202-204 | the result holds exactly the toasts with another id |
| Toast.RemoveAppend | src/components/Toast.tsx:202-204 | removal works piecewise, so the rest keep their order |
| Toast.RemoveAbsent | src/components/Toast.tsx:202-204 | removing an id nobody has changes nothing |
| Toast.ShowThenRemove | src/components/Toast.tsx:195-204 | showing a toast under a fresh id and removing that id gives the list back |
| Toast.UpdateToast | src/components/Toast.tsx:206-210 | the length is kept; toasts with the id take the update's present fields, and the others are unchanged |
| Toast.UpdateFrames | src/components/Toast.tsx:206-210 | an empty update, or one for an absent id, changes nothing; an update that keeps the id leaves the same list after removal |
| Toast.RemoveUpdated | src/components/Toast.tsx:202-210 | removing an id after an update that keeps the id gives what removing it before gives |
| Toast.AutoDismiss | src/components/Toast.tsx:20-23 | only loading toasts never dismiss themselves, and the delay is never 0 |
| Toast.ShortcutsBehave | src/components/Toast.tsx:217-220 | each shortcut shows its type; success uses the given duration or 3000 when it is missing or 0; loading has no duration, is not closable and does not dismiss |
| Toast.ClosableIffDismisses | src/components/Toast.tsx:20-104 | a toast can be clicked away exactly when it dismisses itself |
| Toast.LoadingResolved | src/components/Toast.tsx:206-210 | updating a loading toast to a result type makes it closable and dismissing after 3000 ms, in place |

## Left out

- Font measurement, trigonometry and the degree-to-radian conversion are
  uninterpreted inputs. Floating-point rounding is not modelled: grid
  coordinates are exact reals.
- Repeat mode needs positive steps (`StepsPositive`), which the model
  requires of its callers. The source does not need them to stop: the
  2000 cap ends both loops whenever the inner loop runs. With zero or
  negative steps the loops run forever only when the inner loop never runs
  (−2·stepX ≥ width) while the outer one never leaves its bound
  (stepY ≤ 0 and −2·stepY < height); otherwise they stop, for instance
  after 2000 instances at one point when both steps are 0. That behaviour
  is not modelled. The slider ranges give positive steps
  (`DomainGivesPositiveSteps`).
- Pixels, CSS colour parsing and the effect of `globalAlpha` on pixels are
  not modelled. A drawn line is recorded with the drawing state it was
  drawn in.
- `requestAnimationFrame`, its cancellation and the dynamic `import()`
  before a draw are not modelled. One frame is one atomic step.
  `onCanvasReady` is not modelled.
- A load callback from an image that is no longer current can still update
  the preview's state. Each load outcome is one event, in the order
  delivered.
- A zero-size bounding rectangle, which would give NaN percentages, is
  excluded from mouse-move events.
- Batch downloads: JSZip, the zip's bytes, the order in which files finish,
  and entries with the same name overwriting each other are not modelled.
  Entries are listed in file order.
- The image watermark itself is never drawn by the code, so image sizing,
  position clamping, drag deltas and repeat-mode phase offsets are absent
  from the model as well.
- Toasts: random ids, `setTimeout` timing and the 300 ms exit animation are
  not modelled. NaN durations do not arise with exact reals.
- Rendering details are not modelled: styling, the progress bar's width and
  labels, the presentational components, the modals, and the
  `control-panel/*` subcomponents, which repeat the panel's handlers and
  ranges.
- File pickers, object URLs, `toDataURL`/`toBlob`, file-saver, the device
  detection hook and the global error patching in `main.tsx` are browser
  I/O.

## Findings

| source | as written | input that shows it | evidently intended | confidence | as-written member | corrected member |
|---|---|---|---|---|---|---|
| src/App.tsx:73-74 | `link.click()` is called twice in `handleDownload` | any click on "download" with an image loaded; reachable only once the `batchProgress !== null` defect below is corrected, since as written the button is disabled | one click saves the file once | high (not executed) | App.DoubleClickDownloadsTwice | App.HandleDownload |
| src/components/ControlPanel.tsx:50 | `isProcessing = batchProgress !== null`, and App omits `batchProgress`, so it is `undefined` | the panel as rendered by App (src/App.tsx:276-284): every setting and both download buttons are disabled | the panel is busy only while a batch is running | high (not executed) | ControlPanel.OmittedProgressDisablesPanel | ControlPanel.PanelBusyOnlyWhileRunning |
| src/App.tsx:96-141 | each file's promise resolves only from `img.onload`; there is no `onerror` | a batch of a decodable file and an undecodable one; reachable only once the `batchProgress !== null` defect above is corrected, since as written Download-all is disabled | undecodable files are skipped and the zip is saved | medium (not executed) | App.UndecodableFileHangsBatch | App.Batch |
