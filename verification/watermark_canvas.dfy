/** The preview component (src/components/WatermarkCanvas.tsx): which image
    and watermark image are loaded, where the single-mode watermark sits,
    whether it is being dragged, and when a frame is drawn.

    React state updates, effects and DOM events are modelled as one
    transition function over an immutable view state. An effect runs in the
    same transition as the prop change that triggers it; an image load
    finishing or failing is an event of its own. The canvas element exists
    only while the component shows it, so mouse events reach the handlers
    only then. */
module WatermarkCanvas {
  import opened Common
  import opened Config
  import opened Geometry
  import opened Canvas
  import opened Placement
  import opened Compositor

  /** The component's props and state. */
  datatype View = View(
    file: Option<FileRef>,
    config: WatermarkConfig,
    image: Option<Img>,
    watermarkImage: Option<Img>,
    position: Pos,
    isDragging: bool,
    isLoading: bool,
    error: Option<string>)

  /** `getBoundingClientRect()` of the displayed canvas. */
  datatype Rect = Rect(left: real, top: real, width: real, height: real)

  datatype Event =
    | FileChanged(newFile: Option<FileRef>)      // the imageFile prop
    | ImageLoaded(img: Img)                      // img.onload of the main image
    | ImageFailed                                // img.onerror of the main image
    | ConfigChanged(newConfig: WatermarkConfig)  // the config prop
    | WatermarkLoaded(wimg: Img)                 // img.onload of the watermark image
    | WatermarkFailed                            // img.onerror of the watermark image
    | MouseDown
    | MouseMove(clientX: real, clientY: real, rect: Rect)
    | MouseUp
    | MouseLeave

  /** The error key shown when the main image cannot be decoded. */
  const UploadError := "upload.error"

  /** A displayed canvas has a non-empty bounding rectangle. */
  predicate WellFormed(ev: Event)
  {
    ev.MouseMove? ==> ev.rect.width > 0.0 && ev.rect.height > 0.0
  }

  /** Whether the `<canvas>` element is rendered (and `canvasRef.current`
      is set): a file is given, nothing is loading, there is no error and
      the image is decoded. */
  predicate CanvasShown(v: View)
  {
    v.file.Some? && !v.isLoading && v.error.None? && v.image.Some?
  }

  /** The watermark-image effect, run when the watermark type or image file
      changes: without an image watermark it clears the watermark image;
      otherwise it starts a load and keeps the current one until then. */
  function WatermarkEffect(v: View): (w: View)
    ensures w.watermarkImage.Some? ==> v.config.kind == Image && v.config.imageFile.Some?
    ensures w == v.(watermarkImage := w.watermarkImage)
  {
    if v.config.kind != Image || v.config.imageFile.None? then v.(watermarkImage := None)
    else v
  }

  /** The image effect, run when the file changes: no file clears the image
      and the error; a file clears the error and starts loading. */
  function FileEffect(v: View): View
  {
    if v.file.None? then v.(image := None, error := None)
    else v.(isLoading := true, error := None)
  }

  /** The state after mounting with the given props: centred, not dragging,
      nothing decoded yet. */
  function Mount(file: Option<FileRef>, config: WatermarkConfig): (v: View)
    ensures v.position == Centre && !v.isDragging
    ensures v.image.None? && v.watermarkImage.None? && v.error.None?
    ensures v.isLoading <==> file.Some?
    ensures !CanvasShown(v)
  {
    WatermarkEffect(FileEffect(View(file, config, None, None, Centre, false, false, None)))
  }

  /** The pointer position as a percentage of the displayed canvas
      (`handleMouseMove`); not clamped. */
  function PointerPercent(clientX: real, clientY: real, rect: Rect): Pos
    requires rect.width > 0.0 && rect.height > 0.0
  {
    Pos((clientX - rect.left) / rect.width * 100.0, (clientY - rect.top) / rect.height * 100.0)
  }

  /** One transition. */
  function Handle(v: View, ev: Event): (w: View)
    requires WellFormed(ev)
    ensures w.file == (if ev.FileChanged? then ev.newFile else v.file)
    ensures w.config == (if ev.ConfigChanged? then ev.newConfig else v.config)
    ensures w.isDragging && !v.isDragging ==> ev.MouseDown? && CanvasShown(v) && !v.config.repeat
  {
    match ev
    case FileChanged(f) =>
      if f == v.file then v else FileEffect(v.(file := f))
    case ImageLoaded(img) =>
      v.(image := Some(img), isLoading := false, position := Centre)
    case ImageFailed =>
      v.(error := Some(UploadError), isLoading := false, image := None)
    case ConfigChanged(c) =>
      var w := v.(config := c);
      if c.kind != v.config.kind || c.imageFile != v.config.imageFile then WatermarkEffect(w) else w
    case WatermarkLoaded(img) =>
      v.(watermarkImage := Some(img))
    case WatermarkFailed =>
      v.(watermarkImage := None)
    case MouseDown =>
      // the handler is attached only in single mode
      if CanvasShown(v) && !v.config.repeat then v.(isDragging := true) else v
    case MouseMove(x, y, rect) =>
      if !v.isDragging || !CanvasShown(v) then v
      else v.(position := PointerPercent(x, y, rect))
    case MouseUp =>
      if CanvasShown(v) then v.(isDragging := false) else v
    case MouseLeave =>
      if CanvasShown(v) then v.(isDragging := false) else v
  }

  /** A sequence of transitions, in order. */
  function HandleAll(v: View, evs: seq<Event>): View
    requires forall k :: 0 <= k < |evs| ==> WellFormed(evs[k])
    decreases |evs|
  {
    if |evs| == 0 then v else HandleAll(Handle(v, evs[0]), evs[1..])
  }

  /** The draw effect: the calls made for the current state, or `None` when
      nothing is drawn (no canvas or image, or an image watermark whose
      image has not loaded). The position is always passed. */
  function Frame(v: View, hasContext: bool, env: Env): (ops: Option<seq<DrawOp>>)
    requires v.config.repeat ==> StepsPositive(env, v.config)
    ensures ops.Some? <==> CanvasShown(v) && (v.config.kind == Image ==> v.watermarkImage.Some?)
  {
    if !CanvasShown(v) then None
    else if v.config.kind == Image && v.watermarkImage.None? then None
    else Some(DrawWatermarkOnCanvas(hasContext, v.image.value, v.config, Some(v.position), env))
  }

  // ---------------------------------------------------------------------
  // Dragging
  // ---------------------------------------------------------------------

  /** Mouse-down starts a drag exactly when the canvas is shown in single
      mode, and changes nothing else. */
  lemma MouseDownGated(v: View)
    ensures var w := Handle(v, MouseDown);
      && w.isDragging == (v.isDragging || (CanvasShown(v) && !v.config.repeat))
      && w == v.(isDragging := w.isDragging)
  {
  }

  /** Mouse-move does nothing unless a drag is in progress. */
  lemma MouseMoveNeedsDrag(v: View, x: real, y: real, rect: Rect)
    requires rect.width > 0.0 && rect.height > 0.0 && !v.isDragging
    ensures Handle(v, MouseMove(x, y, rect)) == v
  {
  }

  /** During a drag, mouse-move sets the position to the pointer's
      percentage of the canvas rectangle and changes nothing else. */
  lemma MouseMoveSetsPosition(v: View, x: real, y: real, rect: Rect)
    requires rect.width > 0.0 && rect.height > 0.0 && v.isDragging && CanvasShown(v)
    ensures var w := Handle(v, MouseMove(x, y, rect));
      && w.position == PointerPercent(x, y, rect)
      && w == v.(position := w.position)
  {
  }

  /** The percentage is not clamped: it lies in [0,100] exactly when the
      pointer is inside the rectangle. */
  lemma PointerPercentRange(x: real, y: real, rect: Rect)
    requires rect.width > 0.0 && rect.height > 0.0
    ensures var p := PointerPercent(x, y, rect);
      && (0.0 <= p.x <= 100.0 <==> rect.left <= x <= rect.left + rect.width)
      && (0.0 <= p.y <= 100.0 <==> rect.top <= y <= rect.top + rect.height)
  {
    ScaledRange(x - rect.left, rect.width);
    ScaledRange(y - rect.top, rect.height);
  }

  /** `d / w * 100` is in [0,100] exactly when `d` is in [0,w]. */
  lemma ScaledRange(d: real, w: real)
    requires w > 0.0
    ensures 0.0 <= d / w * 100.0 <= 100.0 <==> 0.0 <= d <= w
  {
    var q := d / w;
    assert q * w == d;
    if 0.0 <= d <= w {
      assert 0.0 <= q;
      assert q <= 1.0;
    }
    if 0.0 <= q * 100.0 <= 100.0 {
      assert 0.0 <= q <= 1.0;
      assert 0.0 <= q * w <= w by { MulLeReal(q, 1.0, w); }
    }
  }

  lemma MulLeReal(a: real, b: real, c: real)
    requires 0.0 <= a <= b && c >= 0.0
    ensures 0.0 <= a * c <= b * c
  {
  }

  /** Reading the percentage back gives the pointer position. */
  lemma PointerPercentInverse(x: real, y: real, rect: Rect)
    requires rect.width > 0.0 && rect.height > 0.0
    ensures var p := PointerPercent(x, y, rect);
      && rect.left + p.x / 100.0 * rect.width == x
      && rect.top + p.y / 100.0 * rect.height == y
  {
  }

  /** Mouse-up and mouse-leave on the shown canvas end the drag and keep
      the position. */
  lemma MouseUpEndsDrag(v: View)
    requires CanvasShown(v)
    ensures Handle(v, MouseUp) == v.(isDragging := false)
    ensures Handle(v, MouseLeave) == v.(isDragging := false)
  {
  }

  /** Turning repeat mode on does not end a drag in progress, and the next
      mouse-move still moves the (now unused) position. */
  lemma RepeatKeepsDrag(v: View, x: real, y: real, rect: Rect)
    requires v.isDragging && CanvasShown(v) && rect.width > 0.0 && rect.height > 0.0
    ensures var w := Handle(v, ConfigChanged(v.config.(repeat := true)));
      && w.isDragging && w.config.repeat
      && Handle(w, MouseMove(x, y, rect)).position == PointerPercent(x, y, rect)
  {
  }

  /** Only mouse-down starts a drag: with repeat mode on and no configuration
      change, no sequence of events starts one. */
  lemma {:induction false} RepeatNeverStartsDrag(v: View, evs: seq<Event>)
    requires forall k :: 0 <= k < |evs| ==> WellFormed(evs[k]) && !evs[k].ConfigChanged?
    requires v.config.repeat && !v.isDragging
    ensures !HandleAll(v, evs).isDragging
    decreases |evs|
  {
    if |evs| > 0 {
      var w := Handle(v, evs[0]);
      assert w.config == v.config;
      RepeatNeverStartsDrag(w, evs[1..]);
    }
  }

  /** The position changes only on a successful image load or on a
      mouse-move during a drag over the shown canvas. */
  lemma PositionChanges(v: View, ev: Event)
    requires WellFormed(ev)
    ensures Handle(v, ev).position != v.position ==>
      ev.ImageLoaded? || (ev.MouseMove? && v.isDragging && CanvasShown(v))
  {
  }

  // ---------------------------------------------------------------------
  // Loading
  // ---------------------------------------------------------------------

  /** A decoded image is shown centred, whatever the previous position. */
  lemma ImageLoadResets(v: View, img: Img)
    ensures var w := Handle(v, ImageLoaded(img));
      && w.image == Some(img) && !w.isLoading && w.position == Centre
      && w.file == v.file && w.error == v.error && w.isDragging == v.isDragging
  {
  }

  /** A failed decode shows the upload error and no image. */
  lemma ImageFailureShowsError(v: View)
    ensures var w := Handle(v, ImageFailed);
      && w.error == Some(UploadError) && w.image.None? && !w.isLoading
      && !CanvasShown(w) && w.position == v.position
  {
  }

  /** Clearing the file clears the image and the error; a new file starts
      loading, clears the error and hides the canvas. */
  lemma FileChangeEffect(v: View, f: Option<FileRef>)
    requires f != v.file
    ensures var w := Handle(v, FileChanged(f));
      && w.error.None?
      && (f.None? ==> w.image.None? && w.isLoading == v.isLoading)
      && (f.Some? ==> w.isLoading && w.image == v.image && !CanvasShown(w))
      && w.position == v.position
  {
  }

  /** Re-passing the same file does not reload it. */
  lemma SameFileNoReload(v: View)
    ensures Handle(v, FileChanged(v.file)) == v
  {
  }

  /** When the watermark type or image file changes, the watermark image is
      cleared unless an image watermark with a file is configured. */
  lemma WatermarkClearedUnlessImage(v: View, c: WatermarkConfig)
    requires c.kind != v.config.kind || c.imageFile != v.config.imageFile
    ensures var w := Handle(v, ConfigChanged(c));
      && (c.kind != Image || c.imageFile.None? ==> w.watermarkImage.None?)
      && (c.kind == Image && c.imageFile.Some? ==> w.watermarkImage == v.watermarkImage)
  {
  }

  // ---------------------------------------------------------------------
  // Drawing
  // ---------------------------------------------------------------------

  /** What is drawn is `drawWatermarkOnCanvas` with the current image,
      configuration and position; the watermark image is never passed on. */
  lemma FrameDraws(v: View, hasContext: bool, env: Env, wimg: Option<Img>)
    requires v.config.repeat ==> StepsPositive(env, v.config)
    requires CanvasShown(v) && v.config.kind == Text
    ensures Frame(v, hasContext, env) == Some(DrawWatermarkOnCanvas(hasContext, v.image.value, v.config, Some(v.position), env))
    ensures Frame(v.(watermarkImage := wimg), hasContext, env) == Frame(v, hasContext, env)
  {
  }

  /** In single mode the dragged watermark follows the pointer: after a
      mouse-move the frame's one instance is anchored at the pointer's
      percentage of the rectangle, applied to the image size. */
  lemma AnchorFollowsPointer(v: View, x: real, y: real, rect: Rect, env: Env)
    requires rect.width > 0.0 && rect.height > 0.0 && v.isDragging && CanvasShown(v)
    requires !v.config.repeat && v.config.kind == Text
    ensures var w := Handle(v, MouseMove(x, y, rect));
      var img := v.image.value;
      var a := SingleAnchor(img.width, img.height, PointerPercent(x, y, rect));
      && w.position == PointerPercent(x, y, rect)
      && Frame(w, true, env).Some?
      && |Frame(w, true, env).value| > 4
      && Frame(w, true, env).value[4] == TranslateBy(a.x, a.y)
  {
    var w := Handle(v, MouseMove(x, y, rect));
    var img := v.image.value;
    var p := PointerPercent(x, y, rect);
    assert w == v.(position := p);
    assert Frame(w, true, env) == Some(DrawWatermarkOnCanvas(true, img, w.config, Some(p), env)) by {
      FrameDraws(w, true, env, w.watermarkImage);
    }
    SingleModePlacement(img, w.config, p, env);
  }

  /** The anchor of a pointer percentage divides the image in the same
      ratio as the pointer divides the canvas rectangle, whatever the
      displayed size of the canvas. */
  lemma AnchorRatio(img: Img, x: real, y: real, rect: Rect)
    requires rect.width > 0.0 && rect.height > 0.0
    ensures var a := SingleAnchor(img.width, img.height, PointerPercent(x, y, rect));
      && a.x * rect.width == (img.width as real) * (x - rect.left)
      && a.y * rect.height == (img.height as real) * (y - rect.top)
  {
    var a := SingleAnchor(img.width, img.height, PointerPercent(x, y, rect));
    ScaleBack(img.width as real, x - rect.left, rect.width, a.x);
    ScaleBack(img.height as real, y - rect.top, rect.height, a.y);
  }

  /** `s * (d / r * 100) / 100`, multiplied back by `r`, is `s * d`. */
  lemma ScaleBack(s: real, d: real, r: real, a: real)
    requires r > 0.0 && a == s * (d / r * 100.0) / 100.0
    ensures a * r == s * d
  {
    var q := d / r;
    assert q * r == d;
    assert a == s * q;
    assert a * r == s * (q * r);
  }
}
