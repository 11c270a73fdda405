/** The settings panel (src/components/ControlPanel.tsx): single-field
    updates of the watermark settings and export options, the value range
    each widget allows, the advisory colour pattern, which controls are
    shown, and when the panel counts as busy. */
module ControlPanel {
  import opened Common
  import opened Config
  import opened Defaults
  import opened Geometry
  import opened Compositor
  import opened FileUtils

  // ---------------------------------------------------------------------
  // Single-field updates
  // ---------------------------------------------------------------------

  /** The settings fields a control can write. */
  datatype Field = KindField | TextField | ColorField | FontSizeField | OpacityField
                 | RotationField | RepeatField | SpacingField | ImageFileField | ImageSizeField

  /** One `handleChange(key, value)` call: the key and a value of its type. */
  datatype Change =
    | SetKind(kind: WatermarkType)
    | SetText(text: string)
    | SetColor(color: string)
    | SetFontSize(fontSize: real)
    | SetOpacity(opacity: real)
    | SetRotation(rotation: real)
    | SetRepeat(repeat: bool)
    | SetSpacing(spacing: real)
    | SetImageFile(file: FileRef)
    | SetImageSize(imageSize: real)

  function FieldOf(ch: Change): Field
  {
    match ch
    case SetKind(_) => KindField
    case SetText(_) => TextField
    case SetColor(_) => ColorField
    case SetFontSize(_) => FontSizeField
    case SetOpacity(_) => OpacityField
    case SetRotation(_) => RotationField
    case SetRepeat(_) => RepeatField
    case SetSpacing(_) => SpacingField
    case SetImageFile(_) => ImageFileField
    case SetImageSize(_) => ImageSizeField
  }

  /** Whether two settings agree on one field. */
  predicate Agree(a: WatermarkConfig, b: WatermarkConfig, f: Field)
  {
    match f
    case KindField => a.kind == b.kind
    case TextField => a.text == b.text
    case ColorField => a.color == b.color
    case FontSizeField => a.fontSize == b.fontSize
    case OpacityField => a.opacity == b.opacity
    case RotationField => a.rotation == b.rotation
    case RepeatField => a.repeat == b.repeat
    case SpacingField => a.spacing == b.spacing
    case ImageFileField => a.imageFile == b.imageFile
    case ImageSizeField => a.imageSize == b.imageSize
  }

  /** Whether the settings hold the value a change writes. */
  predicate Holds(c: WatermarkConfig, ch: Change)
  {
    match ch
    case SetKind(v) => c.kind == v
    case SetText(v) => c.text == v
    case SetColor(v) => c.color == v
    case SetFontSize(v) => c.fontSize == v
    case SetOpacity(v) => c.opacity == v
    case SetRotation(v) => c.rotation == v
    case SetRepeat(v) => c.repeat == v
    case SetSpacing(v) => c.spacing == v
    case SetImageFile(v) => c.imageFile == Some(v)
    case SetImageSize(v) => c.imageSize == v
  }

  /** `handleChange`: `{ ...config, [key]: value }`. */
  function HandleChange(c: WatermarkConfig, ch: Change): (r: WatermarkConfig)
    ensures Holds(r, ch)
    ensures forall f :: f != FieldOf(ch) ==> Agree(c, r, f)
  {
    match ch
    case SetKind(v) => c.(kind := v)
    case SetText(v) => c.(text := v)
    case SetColor(v) => c.(color := v)
    case SetFontSize(v) => c.(fontSize := v)
    case SetOpacity(v) => c.(opacity := v)
    case SetRotation(v) => c.(rotation := v)
    case SetRepeat(v) => c.(repeat := v)
    case SetSpacing(v) => c.(spacing := v)
    case SetImageFile(v) => c.(imageFile := Some(v))
    case SetImageSize(v) => c.(imageSize := v)
  }

  /** Two settings that agree on every field are the same settings. */
  lemma AgreeEverywhere(a: WatermarkConfig, b: WatermarkConfig)
    requires forall f :: Agree(a, b, f)
    ensures a == b
  {
    assert Agree(a, b, KindField) && Agree(a, b, TextField) && Agree(a, b, ColorField);
    assert Agree(a, b, FontSizeField) && Agree(a, b, OpacityField) && Agree(a, b, RotationField);
    assert Agree(a, b, RepeatField) && Agree(a, b, SpacingField) && Agree(a, b, ImageFileField);
    assert Agree(a, b, ImageSizeField);
  }

  /** The change that writes back the field's current value, when there is
      one a control can write (no control clears the watermark file). */
  function Current(c: WatermarkConfig, f: Field): Option<Change>
  {
    match f
    case KindField => Some(SetKind(c.kind))
    case TextField => Some(SetText(c.text))
    case ColorField => Some(SetColor(c.color))
    case FontSizeField => Some(SetFontSize(c.fontSize))
    case OpacityField => Some(SetOpacity(c.opacity))
    case RotationField => Some(SetRotation(c.rotation))
    case RepeatField => Some(SetRepeat(c.repeat))
    case SpacingField => Some(SetSpacing(c.spacing))
    case ImageFileField => if c.imageFile.Some? then Some(SetImageFile(c.imageFile.value)) else None
    case ImageSizeField => Some(SetImageSize(c.imageSize))
  }

  /** A change is undone by writing the old value back, and repeating a
      change changes nothing more. */
  lemma ChangeUndo(c: WatermarkConfig, ch: Change)
    ensures Current(c, FieldOf(ch)).Some? ==> HandleChange(HandleChange(c, ch), Current(c, FieldOf(ch)).value) == c
    ensures HandleChange(HandleChange(c, ch), ch) == HandleChange(c, ch)
    ensures Holds(c, ch) ==> HandleChange(c, ch) == c
  {
    var r := HandleChange(c, ch);
    if Current(c, FieldOf(ch)).Some? {
      var back := HandleChange(r, Current(c, FieldOf(ch)).value);
      AgreeEverywhere(back, c);
    }
    AgreeEverywhere(HandleChange(r, ch), r);
    if Holds(c, ch) {
      AgreeEverywhere(r, c);
    }
  }

  /** Changes to different fields commute. */
  lemma ChangesCommute(c: WatermarkConfig, a: Change, b: Change)
    requires FieldOf(a) != FieldOf(b)
    ensures HandleChange(HandleChange(c, a), b) == HandleChange(HandleChange(c, b), a)
  {
    AgreeEverywhere(HandleChange(HandleChange(c, a), b), HandleChange(HandleChange(c, b), a));
  }

  /** `handleExportFormatChange`. */
  function SetFormat(o: ExportOptions, format: ExportFormat): (r: ExportOptions)
    ensures r.format == format && r.quality == o.quality
  {
    o.(format := format)
  }

  /** `handleExportQualityChange`. */
  function SetQuality(o: ExportOptions, quality: real): (r: ExportOptions)
    ensures r.quality == quality && r.format == o.format
  {
    o.(quality := quality)
  }

  /** The two export handlers touch disjoint fields: they commute, and each
      is undone by writing the old value back. */
  lemma ExportHandlersIndependent(o: ExportOptions, format: ExportFormat, quality: real)
    ensures SetQuality(SetFormat(o, format), quality) == SetFormat(SetQuality(o, quality), format)
    ensures SetFormat(SetFormat(o, format), o.format) == o
    ensures SetQuality(SetQuality(o, quality), o.quality) == o
  {
  }

  // ---------------------------------------------------------------------
  // The value domain
  // ---------------------------------------------------------------------

  /** The `min`/`max` of each range slider, or none for a field with no
      slider. */
  function SliderRange(f: Field): Option<(real, real)>
  {
    match f
    case FontSizeField => Some((12.0, 200.0))
    case ImageSizeField => Some((10.0, 200.0))
    case OpacityField => Some((0.0, 1.0))
    case RotationField => Some((0.0, 360.0))
    case SpacingField => Some((50.0, 500.0))
    case _ => None
  }

  /** The export quality slider's range. */
  const QualityMin := 0.1
  const QualityMax := 1.0

  /** The number a change writes, for a numeric field. */
  function NumberOf(ch: Change): Option<real>
  {
    match ch
    case SetFontSize(v) => Some(v)
    case SetOpacity(v) => Some(v)
    case SetRotation(v) => Some(v)
    case SetSpacing(v) => Some(v)
    case SetImageSize(v) => Some(v)
    case _ => None
  }

  /** A change a control can produce: a slider only yields values within
      its range. */
  predicate FromControl(ch: Change)
  {
    SliderRange(FieldOf(ch)).Some? ==>
      SliderRange(FieldOf(ch)).value.0 <= NumberOf(ch).value <= SliderRange(FieldOf(ch)).value.1
  }

  /** Every numeric setting lies within its slider's range. */
  predicate InDomain(c: WatermarkConfig)
  {
    && 12.0 <= c.fontSize <= 200.0
    && 10.0 <= c.imageSize <= 200.0
    && 0.0 <= c.opacity <= 1.0
    && 0.0 <= c.rotation <= 360.0
    && 50.0 <= c.spacing <= 500.0
  }

  predicate QualityInDomain(o: ExportOptions)
  {
    QualityMin <= o.quality <= QualityMax
  }

  /** The slider ranges are exactly the domain: a change from a control
      keeps the settings in it, and a slider value outside its range would
      leave it. */
  lemma ControlsKeepDomain(c: WatermarkConfig, ch: Change)
    requires InDomain(c)
    ensures FromControl(ch) ==> InDomain(HandleChange(c, ch))
    ensures !FromControl(ch) ==> !InDomain(HandleChange(c, ch))
  {
  }

  /** The quality slider keeps the export options in range. */
  lemma QualityKeepsDomain(o: ExportOptions, format: ExportFormat, quality: real)
    requires QualityInDomain(o)
    ensures QualityInDomain(SetFormat(o, format))
    ensures QualityInDomain(SetQuality(o, quality)) <==> QualityMin <= quality <= QualityMax
  {
  }

  /** In the domain, repeat mode always has a positive grid step, so the
      tiling loops end. */
  lemma DomainGivesPositiveSteps(env: Env, c: WatermarkConfig)
    requires env.Valid() && InDomain(c)
    ensures StepsPositive(env, c)
  {
    StepsPositiveWhenSpaced(env, c);
  }

  // ---------------------------------------------------------------------
  // The colour pattern
  // ---------------------------------------------------------------------

  predicate IsHexDigit(ch: char)
  {
    ('0' <= ch <= '9') || ('a' <= ch <= 'f') || ('A' <= ch <= 'F')
  }

  predicate AllHex(s: string)
  {
    forall k :: 0 <= k < |s| ==> IsHexDigit(s[k])
  }

  /** `^#([A-Fa-f0-9]{6}|[A-Fa-f0-9]{3})$`. */
  predicate IsHexColor(s: string)
  {
    |s| > 0 && s[0] == '#' && (|s[1..]| == 6 || |s[1..]| == 3) && AllHex(s[1..])
  }

  /** A left-to-right match of the pattern. */
  method MatchHexColor(s: string) returns (ok: bool)
    ensures ok <==> IsHexColor(s)
  {
    if (|s| != 4 && |s| != 7) || s[0] != '#' {
      return false;
    }
    var i := 1;
    while i < |s|
      invariant 1 <= i <= |s|
      invariant forall k :: 1 <= k < i ==> IsHexDigit(s[k])
    {
      if !IsHexDigit(s[i]) {
        assert !IsHexDigit(s[1..][i - 1]);
        return false;
      }
      i := i + 1;
    }
    assert forall k :: 0 <= k < |s[1..]| ==> s[1..][k] == s[k + 1];
    return true;
  }

  /** Worked examples of the pattern. */
  lemma HexColorExamples()
    ensures IsHexColor("#ffffff") && IsHexColor("#FFF") && IsHexColor("#09aF3c")
    ensures !IsHexColor("ffffff") && !IsHexColor("#ffff") && !IsHexColor("#ggg") && !IsHexColor("")
  {
    assert !IsHexDigit("#ggg"[1..][0]);
  }

  /** The pattern only marks the text input invalid: whatever is typed is
      written to the settings. */
  lemma ColorIsNotValidated(c: WatermarkConfig)
    ensures HandleChange(c, SetColor("red")).color == "red" && !IsHexColor("red")
  {
  }

  // ---------------------------------------------------------------------
  // Visible controls
  // ---------------------------------------------------------------------

  datatype Control = TypeButtons | TextInput | ColorInputs | FontSizeSlider | WatermarkFilePicker
                   | ImageSizeSlider | OpacitySlider | RotationSlider | RepeatCheckbox | SpacingSlider
                   | FormatButtons | QualitySlider | ProgressBar | DownloadButton | DownloadAllButton

  /** The optional `batchProgress` prop: left out, `null`, or a value. */
  datatype ProgressProp = Undefined | Null | Progress(current: int, total: int)

  /** The controls the panel renders. */
  function VisibleControls(c: WatermarkConfig, o: ExportOptions, batchMode: bool, p: ProgressProp): set<Control>
  {
    {TypeButtons, OpacitySlider, RotationSlider, RepeatCheckbox, FormatButtons, DownloadButton}
    + (if c.kind == Text then {TextInput, ColorInputs, FontSizeSlider} else {})
    + (if c.kind == Image then {WatermarkFilePicker, ImageSizeSlider} else {})
    + (if c.repeat then {SpacingSlider} else {})
    + (if o.format == Jpeg || o.format == Webp then {QualitySlider} else {})
    + (if p.Progress? then {ProgressBar} else {})
    + (if batchMode then {DownloadAllButton} else {})
  }

  /** The quality slider appears exactly for the formats that take a
      quality, the spacing slider exactly in repeat mode, and the batch
      controls exactly when they apply. */
  lemma ControlVisibility(c: WatermarkConfig, o: ExportOptions, batchMode: bool, p: ProgressProp)
    ensures var v := VisibleControls(c, o, batchMode, p);
      && (QualitySlider in v <==> GetExportMimeType(o.format).needsQuality)
      && (SpacingSlider in v <==> c.repeat)
      && (DownloadAllButton in v <==> batchMode)
      && (ProgressBar in v <==> p.Progress?)
  {
  }

  /** The text and image controls appear exactly for their watermark type. */
  lemma TypeControlVisibility(c: WatermarkConfig, o: ExportOptions, batchMode: bool, p: ProgressProp)
    ensures var v := VisibleControls(c, o, batchMode, p);
      && (FontSizeSlider in v <==> c.kind == Text)
      && (TextInput in v <==> c.kind == Text)
      && (ImageSizeSlider in v <==> c.kind == Image)
      && (WatermarkFilePicker in v <==> c.kind == Image)
  {
  }

  /** `isProcessing` as written: `batchProgress !== null`, which is true for
      a prop that was left out. */
  predicate IsProcessingAsWritten(p: ProgressProp)
  {
    p != Null
  }

  /** `isProcessing` for a batch that is actually running. */
  predicate IsProcessing(p: ProgressProp)
  {
    p.Progress?
  }

  /** A settings change made through the panel: controls are disabled while
      processing, so the change is dropped. */
  function PanelChange(c: WatermarkConfig, ch: Change, processing: bool): (r: WatermarkConfig)
    ensures processing ==> r == c
    ensures !processing ==> Holds(r, ch)
  {
    if processing then c else HandleChange(c, ch)
  }

  /** Whether a control takes input: every button and input of the panel
      carries `disabled={isProcessing}`; the progress bar only displays. */
  predicate Enabled(ctl: Control, processing: bool)
  {
    ctl != ProgressBar && !processing
  }

  /** The progress prop App passes: none. */
  const AppProgress: ProgressProp := Undefined

  /** With the prop left out, the written panel disables every control: no
      change reaches the settings, and neither the Download nor the
      Download-all button can be pressed, so no download can be requested
      from the panel. The corrected one applies the change and enables both
      buttons. */
  lemma OmittedProgressDisablesPanel(c: WatermarkConfig, ch: Change)
    ensures IsProcessingAsWritten(AppProgress) && !IsProcessing(AppProgress)
    ensures PanelChange(c, ch, IsProcessingAsWritten(AppProgress)) == c
    ensures Holds(PanelChange(c, ch, IsProcessing(AppProgress)), ch)
    ensures forall ctl :: !Enabled(ctl, IsProcessingAsWritten(AppProgress))
    ensures !Enabled(DownloadButton, IsProcessingAsWritten(AppProgress))
         && !Enabled(DownloadAllButton, IsProcessingAsWritten(AppProgress))
    ensures Enabled(DownloadButton, IsProcessing(AppProgress))
         && Enabled(DownloadAllButton, IsProcessing(AppProgress))
  {
  }

  /** With the corrected reading the panel is busy exactly while a batch
      reports progress: otherwise every change reaches the settings. */
  lemma PanelBusyOnlyWhileRunning(c: WatermarkConfig, ch: Change, p: ProgressProp)
    ensures !p.Progress? ==> Holds(PanelChange(c, ch, IsProcessing(p)), ch)
    ensures !p.Progress? && !Holds(c, ch) ==> PanelChange(c, ch, IsProcessing(p)) != c
    ensures p.Progress? ==> PanelChange(c, ch, IsProcessing(p)) == c
    ensures forall ctl :: Enabled(ctl, IsProcessing(p)) <==> ctl != ProgressBar && !p.Progress?
  {
  }

  /** The two readings agree whenever the prop is actually passed. */
  lemma ProcessingAgreesWhenPassed(p: ProgressProp)
    requires p != Undefined
    ensures IsProcessingAsWritten(p) <==> IsProcessing(p)
  {
  }

  // ---------------------------------------------------------------------
  // Defaults
  // ---------------------------------------------------------------------

  /** The shared defaults lie in the domain the controls allow. */
  lemma DefaultsInDomain()
    ensures InDomain(DefaultWatermarkConfig)
    ensures IsHexColor(DefaultWatermarkConfig.color)
    ensures !DefaultWatermarkConfig.repeat && DefaultWatermarkConfig.rotation == 0.0
    ensures QualityInDomain(DefaultExportOptions) && DefaultExportOptions.format == Png
  {
    assert DefaultWatermarkConfig.color[1..] == "ffffff";
  }
}
