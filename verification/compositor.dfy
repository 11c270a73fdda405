/** `drawWatermarkOnCanvas` (src/utils/watermarkUtils.ts:17-111): resize
    the canvas to the image, draw the image, then draw the configured text
    once at the position (single mode) or over a grid (repeat mode).

    The result is the sequence of canvas calls made; `Canvas.Run` says what
    they do to a canvas. Only text is drawn: the configuration's watermark
    type and image file are never read, and a watermark image passed as a
    fifth argument by the callers is ignored. */
module Compositor {
  import opened Common
  import opened Config
  import opened Geometry
  import opened Canvas
  import opened Placement

  // ---------------------------------------------------------------------
  // One watermark instance (drawSingleWatermark)
  // ---------------------------------------------------------------------

  /** The state-setting calls at the start of one instance. The font is set
      twice: once for drawing and once more while measuring. */
  function InstanceSetup(config: WatermarkConfig, x: real, y: real): seq<DrawOp>
  {
    [ TranslateBy(x, y), RotateBy(config.rotation), SetGlobalAlpha(config.opacity),
      SetFont(config.fontSize), SetFillStyle(config.color),
      SetTextAlign("center"), SetTextBaseline("middle"), SetFont(config.fontSize) ]
  }

  /** One `fillText` per line, centred horizontally on the anchor and
      stacked so that the block is centred vertically. */
  function LineFills(b: TextBlock): (ops: seq<DrawOp>)
    ensures |ops| == |b.lines|
    ensures forall i :: 0 <= i < |ops| ==> ops[i] == FillText(b.lines[i], 0.0, LineOffset(b, i))
  {
    seq(|b.lines|, i requires 0 <= i < |b.lines| => FillText(b.lines[i], 0.0, LineOffset(b, i)))
  }

  /** The drawing state one instance draws its lines in: the caller's state
      moved to the anchor, rotated, and with the watermark's style. */
  function InstanceState(st: GState, config: WatermarkConfig, x: real, y: real): GState
  {
    GState(
      st.xforms + [Shift(x, y), Turn(config.rotation)],
      if 0.0 <= config.opacity <= 1.0 then config.opacity else st.alpha,
      BoldInter(config.fontSize), config.color, "center", "middle")
  }

  /** `drawSingleWatermark(x, y)`: the whole instance is wrapped in one
      save/restore pair, and in between it draws each line of the text,
      line `i` at height `LineOffset(b, i)` relative to the anchor. */
  function DrawSingleWatermark(b: TextBlock, config: WatermarkConfig, x: real, y: real): (ops: seq<DrawOp>)
    ensures |ops| == |b.lines| + 10
      && ops[0] == Save && ops[|ops| - 1] == Restore
      && (forall k :: 0 < k < |ops| - 1 ==> Unscoped(ops[k]) && !ops[k].DrawImage?)
      && (forall i :: 0 <= i < |b.lines| ==> ops[9 + i] == FillText(b.lines[i], 0.0, LineOffset(b, i)))
  {
    [Save] + InstanceSetup(config, x, y) + LineFills(b) + [Restore]
  }

  lemma RunCons(c: Ctx, op: DrawOp, rest: seq<DrawOp>)
    ensures Run(c, [op] + rest) == Run(Step(c, op), rest)
  {
    assert ([op] + rest)[0] == op && ([op] + rest)[1..] == rest;
  }

  /** The setup calls move the drawing state to the instance state and
      change nothing else. */
  lemma RunSetup(c: Ctx, config: WatermarkConfig, x: real, y: real)
    ensures Run(c, InstanceSetup(config, x, y)) == c.(state := InstanceState(c.state, config, x, y))
  {
    var s := InstanceSetup(config, x, y);
    RunEight(c, s);
    SetupSteps(c, config, x, y);
  }

  /** The eight setup calls, stepped one by one. */
  lemma SetupSteps(c: Ctx, config: WatermarkConfig, x: real, y: real)
    ensures var s := InstanceSetup(config, x, y);
      Step(Step(Step(Step(Step(Step(Step(Step(c, s[0]), s[1]), s[2]), s[3]), s[4]), s[5]), s[6]), s[7])
        == c.(state := InstanceState(c.state, config, x, y))
  {
    var s := InstanceSetup(config, x, y);
    var c1 := Step(c, s[0]);
    var c2 := Step(c1, s[1]);
    var c8 := Step(Step(Step(Step(Step(Step(c2, s[2]), s[3]), s[4]), s[5]), s[6]), s[7]);
    assert c2.state.xforms == c.state.xforms + [Shift(x, y), Turn(config.rotation)];
    assert c8.state == InstanceState(c.state, config, x, y);
  }

  /** `Run` over eight calls, unfolded. */
  lemma RunEight(c: Ctx, s: seq<DrawOp>)
    requires |s| == 8
    ensures Run(c, s) == Step(Step(Step(Step(Step(Step(Step(Step(c, s[0]), s[1]), s[2]), s[3]), s[4]), s[5]), s[6]), s[7])
  {
    var c4 := Step(Step(Step(Step(c, s[0]), s[1]), s[2]), s[3]);
    RunFour(c, s[0], s[1], s[2], s[3]);
    RunFour(c4, s[4], s[5], s[6], s[7]);
    RunAppend(c, [s[0], s[1], s[2], s[3]], [s[4], s[5], s[6], s[7]]);
    assert [s[0], s[1], s[2], s[3]] + [s[4], s[5], s[6], s[7]] == s;
  }

  /** `Run` over four calls, unfolded. */
  lemma RunFour(c: Ctx, o1: DrawOp, o2: DrawOp, o3: DrawOp, o4: DrawOp)
    ensures Run(c, [o1, o2, o3, o4]) == Step(Step(Step(Step(c, o1), o2), o3), o4)
  {
    var c1 := Step(c, o1);
    var c2 := Step(c1, o2);
    var c3 := Step(c2, o3);
    assert [o1, o2, o3, o4][1..] == [o2, o3, o4];
    assert [o2, o3, o4][1..] == [o3, o4];
    assert [o3, o4][1..] == [o4];
    assert Run(c3, [o4]) == Run(Step(c3, o4), []);
    assert Run(c2, [o3, o4]) == Run(c3, [o4]);
    assert Run(c1, [o2, o3, o4]) == Run(c2, [o3, o4]);
  }

  /** One instance draws its lines, in order, in the instance state, and
      leaves the caller's drawing state, save stack and canvas size exactly
      as they were. */
  lemma InstanceBalanced(c: Ctx, b: TextBlock, config: WatermarkConfig, x: real, y: real)
    ensures Run(c, DrawSingleWatermark(b, config, x, y))
        == c.(painted := c.painted + GlyphsOf(LineFills(b), InstanceState(c.state, config, x, y)))
  {
    RunSetup(Step(c, Save), config, x, y);
    ScopedFills(c, InstanceSetup(config, x, y), LineFills(b), InstanceState(c.state, config, x, y));
  }

  /** A saved scope whose setup only changes the drawing state, followed by
      text fills, paints the fills in that state and restores the rest. */
  lemma ScopedFills(c: Ctx, setup: seq<DrawOp>, fills: seq<DrawOp>, st: GState)
    requires forall k :: 0 <= k < |fills| ==> fills[k].FillText?
    requires Run(Step(c, Save), setup) == Step(c, Save).(state := st)
    ensures Run(c, [Save] + setup + fills + [Restore]) == c.(painted := c.painted + GlyphsOf(fills, st))
  {
    var pushed := c.(stack := c.stack + [c.state]);
    assert Step(c, Save) == pushed;
    var c2 := pushed.(state := st);
    var c3 := c2.(painted := c.painted + GlyphsOf(fills, st));
    Regroup([Save], setup, fills, [Restore]);
    ScopeOpens(c, setup, fills + [Restore], st);
    FillsThenRestore(c2, fills);
    PopPushed(c3, c.stack, c.state);
  }

  lemma ScopeOpens(c: Ctx, setup: seq<DrawOp>, rest: seq<DrawOp>, st: GState)
    requires Run(Step(c, Save), setup) == Step(c, Save).(state := st)
    ensures Run(c, [Save] + (setup + rest)) == Run(Step(c, Save).(state := st), rest)
  {
    RunCons(c, Save, setup + rest);
    RunAppend(Step(c, Save), setup, rest);
  }

  lemma FillsThenRestore(c: Ctx, fills: seq<DrawOp>)
    requires forall k :: 0 <= k < |fills| ==> fills[k].FillText?
    ensures Run(c, fills + [Restore]) == Step(c.(painted := c.painted + GlyphsOf(fills, c.state)), Restore)
  {
    RunAppend(c, fills, [Restore]);
    RunFills(c, fills);
    RunCons(c.(painted := c.painted + GlyphsOf(fills, c.state)), Restore, []);
  }

  /** Restoring right after a push gives back the pushed state. */
  lemma PopPushed(c: Ctx, stack: seq<GState>, st: GState)
    requires c.stack == stack + [st]
    ensures Step(c, Restore) == c.(state := st, stack := stack)
  {
    assert c.stack[..|c.stack| - 1] == stack;
  }

  lemma Regroup<T>(a: seq<T>, b: seq<T>, c: seq<T>, d: seq<T>)
    ensures a + b + c + d == a + (b + (c + d))
  {
  }

  // ---------------------------------------------------------------------
  // Many instances (repeat mode)
  // ---------------------------------------------------------------------

  /** One instance per anchor, in the anchors' order. */
  function Instances(b: TextBlock, config: WatermarkConfig, anchors: seq<Point>): (ops: seq<DrawOp>)
    ensures |anchors| == 0 ==> ops == []
    decreases |anchors|
  {
    if |anchors| == 0 then []
    else DrawSingleWatermark(b, config, anchors[0].x, anchors[0].y) + Instances(b, config, anchors[1..])
  }

  lemma {:induction false} InstancesSaveCount(b: TextBlock, config: WatermarkConfig, anchors: seq<Point>)
    ensures Count(Instances(b, config, anchors), Save) == |anchors|
    ensures forall k :: 0 <= k < |Instances(b, config, anchors)| ==>
      var op := Instances(b, config, anchors)[k];
      !op.DrawImage? && !op.SetWidth? && !op.SetHeight?
    decreases |anchors|
  {
    if |anchors| > 0 {
      var one := DrawSingleWatermark(b, config, anchors[0].x, anchors[0].y);
      var rest := Instances(b, config, anchors[1..]);
      assert Instances(b, config, anchors) == one + rest;
      InstancesSaveCount(b, config, anchors[1..]);
      SingleSaveCount(b, config, anchors[0].x, anchors[0].y);
      CountAppend(one, rest, Save);
      NoImageOrResizeAppend(one, rest);
    }
  }

  /** No call draws an image or resizes the canvas. */
  predicate NoImageOrResize(ops: seq<DrawOp>)
  {
    forall k :: 0 <= k < |ops| ==> !ops[k].DrawImage? && !ops[k].SetWidth? && !ops[k].SetHeight?
  }

  lemma NoImageOrResizeAppend(a: seq<DrawOp>, b: seq<DrawOp>)
    requires |a| >= 2 && a[0] == Save && a[|a| - 1] == Restore
    requires forall k :: 0 < k < |a| - 1 ==> Unscoped(a[k]) && !a[k].DrawImage?
    requires NoImageOrResize(b)
    ensures NoImageOrResize(a + b)
  {
    forall k | 0 <= k < |a + b|
      ensures !(a + b)[k].DrawImage? && !(a + b)[k].SetWidth? && !(a + b)[k].SetHeight?
    {
      if k >= |a| { assert (a + b)[k] == b[k - |a|]; }
    }
  }

  /** One instance saves exactly once. */
  lemma SingleSaveCount(b: TextBlock, config: WatermarkConfig, x: real, y: real)
    ensures Count(DrawSingleWatermark(b, config, x, y), Save) == 1
  {
    BracketSaveCount(DrawSingleWatermark(b, config, x, y));
  }

  /** A bracket opened by the only save of the sequence saves once. */
  lemma BracketSaveCount(ops: seq<DrawOp>)
    requires |ops| >= 2 && ops[0] == Save && ops[|ops| - 1] == Restore
    requires forall k :: 0 < k < |ops| - 1 ==> Unscoped(ops[k])
    ensures Count(ops, Save) == 1
  {
    var middle := ops[1..|ops| - 1];
    assert ops == [Save] + middle + [Restore];
    assert Save !in middle by {
      forall k | 0 <= k < |middle| ensures middle[k] != Save {
        assert middle[k] == ops[k + 1];
      }
    }
    CountAbsent(middle, Save);
    CountAppend([Save] + middle, [Restore], Save);
    CountAppend([Save], middle, Save);
    CountSingle(Save, Save);
    CountSingle(Restore, Save);
  }

  /** The glyphs the instances paint: for each anchor in turn, its lines in
      the instance state at that anchor, `|lines|` glyphs per anchor. */
  function PaintedAt(b: TextBlock, config: WatermarkConfig, st: GState, anchors: seq<Point>): (ps: seq<Paint>)
    ensures |ps| == |anchors| * |b.lines|
    decreases |anchors|
  {
    if |anchors| == 0 then []
    else
      var rest := PaintedAt(b, config, st, anchors[1..]);
      MulSucc(|anchors| - 1, |b.lines|);
      GlyphsOf(LineFills(b), InstanceState(st, config, anchors[0].x, anchors[0].y)) + rest
  }

  /** Glyph `k·|lines| + i` of the instances is line `i`, at its offset
      below anchor `k`, in anchor `k`'s instance state. */
  lemma {:induction false} PaintedAtIndex(b: TextBlock, config: WatermarkConfig, st: GState, anchors: seq<Point>, k: nat, i: nat)
    requires k < |anchors| && i < |b.lines|
    ensures k * |b.lines| + i < |PaintedAt(b, config, st, anchors)|
    ensures PaintedAt(b, config, st, anchors)[k * |b.lines| + i]
         == Glyphs(b.lines[i], 0.0, LineOffset(b, i), InstanceState(st, config, anchors[k].x, anchors[k].y))
    decreases k
  {
    var g := GlyphsOf(LineFills(b), InstanceState(st, config, anchors[0].x, anchors[0].y));
    var rest := PaintedAt(b, config, st, anchors[1..]);
    assert PaintedAt(b, config, st, anchors) == g + rest;
    MulSucc(|anchors| - 1, |b.lines|);
    if k > 0 {
      PaintedAtIndex(b, config, st, anchors[1..], k - 1, i);
      MulSucc(k - 1, |b.lines|);
      assert (g + rest)[k * |b.lines| + i] == rest[(k - 1) * |b.lines| + i];
    }
  }

  /** The instances paint anchor after anchor, each anchor's lines in its
      own instance state; the drawing state, the save stack and the size are
      the same after all of them as before. */
  lemma {:induction false} InstancesBalanced(c: Ctx, b: TextBlock, config: WatermarkConfig, anchors: seq<Point>)
    ensures Run(c, Instances(b, config, anchors))
         == c.(painted := c.painted + PaintedAt(b, config, c.state, anchors))
    decreases |anchors|
  {
    if |anchors| > 0 {
      var one := DrawSingleWatermark(b, config, anchors[0].x, anchors[0].y);
      var g := GlyphsOf(LineFills(b), InstanceState(c.state, config, anchors[0].x, anchors[0].y));
      RunAppend(c, one, Instances(b, config, anchors[1..]));
      InstanceBalanced(c, b, config, anchors[0].x, anchors[0].y);
      var c1 := c.(painted := c.painted + g);
      InstancesBalanced(c1, b, config, anchors[1..]);
      ConcatAssoc(c.painted, g, PaintedAt(b, config, c.state, anchors[1..]));
    }
  }

  // ---------------------------------------------------------------------
  // The compositor
  // ---------------------------------------------------------------------

  /** Distance between neighbouring anchors in repeat mode: the rotated text
      box plus the configured spacing. */
  function RepeatSteps(env: Env, config: WatermarkConfig): (steps: (real, real))
  {
    var b := TextDimensions(env, config.text, config.fontSize);
    var box := RotatedBox(b.maxWidth, b.totalHeight, env.trig(config.rotation));
    (box.width + config.spacing, box.height + config.spacing)
  }

  /** Whether the grid loops of repeat mode advance. */
  predicate StepsPositive(env: Env, config: WatermarkConfig)
  {
    RepeatSteps(env, config).0 > 0.0 && RepeatSteps(env, config).1 > 0.0
  }

  /** Measured text, valid trigonometry, a non-negative font size and a
      positive spacing give positive steps. */
  lemma StepsPositiveWhenSpaced(env: Env, config: WatermarkConfig)
    requires env.Valid() && config.fontSize >= 0.0 && config.spacing > 0.0
    ensures StepsPositive(env, config)
  {
    var b := TextDimensions(env, config.text, config.fontSize);
    TextBlockNonNegative(env, config.text, config.fontSize);
    RotatedBoxNonNegative(b.maxWidth, b.totalHeight, env.trig(config.rotation));
  }

  /** The anchors of one call: the position's anchor in single mode (the
      centre when no position is given), the capped grid in repeat mode. */
  function Anchors(env: Env, image: Img, config: WatermarkConfig, position: Option<Pos>): (anchors: seq<Point>)
    requires config.repeat ==> StepsPositive(env, config)
    ensures !config.repeat ==> anchors == [SingleAnchor(image.width, image.height, position.GetOr(Centre))]
    ensures |anchors| <= MaxWatermarks
  {
    if config.repeat then
      var steps := RepeatSteps(env, config);
      RepeatAnchors(image.width, image.height, steps.0, steps.1)
    else
      [SingleAnchor(image.width, image.height, position.GetOr(Centre))]
  }

  /** The calls made before any watermark: resize to the image, then draw
      the image at the origin. */
  function Background(image: Img): seq<DrawOp>
  {
    [SetWidth(image.width), SetHeight(image.height), DrawImage(image, 0.0, 0.0)]
  }

  /** `drawWatermarkOnCanvas(canvas, image, config, position)`. Without a
      2D context nothing happens. Otherwise the canvas is resized to the
      image and the image drawn at (0,0), then one instance is drawn per
      anchor; repeat mode first sets the font once more while measuring. */
  function DrawWatermarkOnCanvas(hasContext: bool, image: Img, config: WatermarkConfig,
                                 position: Option<Pos>, env: Env): (ops: seq<DrawOp>)
    requires config.repeat ==> StepsPositive(env, config)
    ensures !hasContext ==> ops == []
    ensures hasContext ==> |ops| >= 3 && ops[..3] == Background(image)
  {
    if !hasContext then []
    else
      var b := TextDimensions(env, config.text, config.fontSize);
      Compose(image, config, b, Anchors(env, image, config, position))
  }

  /** The calls of one compositing pass, for a measured text block and a
      list of anchors. */
  function Compose(image: Img, config: WatermarkConfig, b: TextBlock, anchors: seq<Point>): (ops: seq<DrawOp>)
    ensures |ops| >= 3 && ops[..3] == Background(image)
  {
    Background(image) + Measuring(config) + Instances(b, config, anchors)
  }

  /** The font set while measuring the text for the grid (repeat mode only). */
  function Measuring(config: WatermarkConfig): seq<DrawOp>
  {
    if config.repeat then [SetFont(config.fontSize)] else []
  }

  /** The image is drawn exactly once, before anything else, and the canvas
      is not resized afterwards; there is one save per anchor: exactly one
      in single mode and at most 2000 in repeat mode. */
  lemma CompositeCalls(image: Img, config: WatermarkConfig, position: Option<Pos>, env: Env)
    requires config.repeat ==> StepsPositive(env, config)
    ensures var ops := DrawWatermarkOnCanvas(true, image, config, position, env);
      && (forall k :: 3 <= k < |ops| ==> !ops[k].DrawImage? && !ops[k].SetWidth? && !ops[k].SetHeight?)
      && Count(ops, Save) == |Anchors(env, image, config, position)|
      && Count(ops, Save) <= MaxWatermarks
      && (!config.repeat ==> Count(ops, Save) == 1)
  {
    var b := TextDimensions(env, config.text, config.fontSize);
    var anchors := Anchors(env, image, config, position);
    assert DrawWatermarkOnCanvas(true, image, config, position, env) == Compose(image, config, b, anchors);
    ComposeCalls(image, config, b, anchors);
  }

  lemma ComposeCalls(image: Img, config: WatermarkConfig, b: TextBlock, anchors: seq<Point>)
    ensures var ops := Compose(image, config, b, anchors);
      && (forall k :: 3 <= k < |ops| ==> !ops[k].DrawImage? && !ops[k].SetWidth? && !ops[k].SetHeight?)
      && Count(ops, Save) == |anchors|
  {
    var inst := Instances(b, config, anchors);
    var tail := Measuring(config) + inst;
    assert Compose(image, config, b, anchors) == Background(image) + tail;
    InstancesSaveCount(b, config, anchors);
    TailCalls(config, inst);
    BackgroundThen(image, tail);
  }

  /** The background calls followed by a tail that neither draws an image
      nor resizes. */
  lemma BackgroundThen(image: Img, tail: seq<DrawOp>)
    requires forall k :: 0 <= k < |tail| ==> !tail[k].DrawImage? && !tail[k].SetWidth? && !tail[k].SetHeight?
    ensures var ops := Background(image) + tail;
      && (forall k :: 3 <= k < |ops| ==> !ops[k].DrawImage? && !ops[k].SetWidth? && !ops[k].SetHeight?)
      && Count(ops, Save) == Count(tail, Save)
  {
    var ops := Background(image) + tail;
    forall k | 3 <= k < |ops|
      ensures !ops[k].DrawImage? && !ops[k].SetWidth? && !ops[k].SetHeight?
    {
      assert ops[k] == tail[k - 3];
    }
    CountAppend(Background(image), tail, Save);
    assert Save !in Background(image);
    CountAbsent(Background(image), Save);
  }

  /** What follows the background neither draws an image nor resizes, and
      saves once per instance. */
  lemma TailCalls(config: WatermarkConfig, inst: seq<DrawOp>)
    requires forall k :: 0 <= k < |inst| ==> !inst[k].DrawImage? && !inst[k].SetWidth? && !inst[k].SetHeight?
    ensures var tail := Measuring(config) + inst;
      && (forall k :: 0 <= k < |tail| ==> !tail[k].DrawImage? && !tail[k].SetWidth? && !tail[k].SetHeight?)
      && Count(tail, Save) == Count(inst, Save)
  {
    var tail := Measuring(config) + inst;
    forall k | 0 <= k < |tail|
      ensures !tail[k].DrawImage? && !tail[k].SetWidth? && !tail[k].SetHeight?
    {
      if k >= |Measuring(config)| {
        assert tail[k] == inst[k - |Measuring(config)|];
      }
    }
    CountAppend(Measuring(config), inst, Save);
    assert Save !in Measuring(config);
    CountAbsent(Measuring(config), Save);
  }

  /** The drawing state the compositor leaves behind: the initial one, with
      the measuring font set in repeat mode. */
  function FinalState(config: WatermarkConfig): GState
  {
    if config.repeat then InitialState.(font := BoldInter(config.fontSize)) else InitialState
  }

  /** Whatever the canvas held before, after the calls it is exactly the
      image's size, holds the image at (0,0) in the initial state followed
      by each anchor's lines in that anchor's instance state, and no saved
      state is left over. */
  lemma CompositeResult(c: Ctx, image: Img, config: WatermarkConfig, position: Option<Pos>, env: Env)
    requires config.repeat ==> StepsPositive(env, config)
    ensures var r := Run(c, DrawWatermarkOnCanvas(true, image, config, position, env));
      var b := TextDimensions(env, config.text, config.fontSize);
      var n := |Anchors(env, image, config, position)|;
      && r.width == image.width && r.height == image.height
      && r.stack == [] && r.state == FinalState(config)
      && |r.painted| == 1 + n * |b.lines|
      && r.painted == [Bitmap(image, 0.0, 0.0, InitialState)]
                      + PaintedAt(b, config, FinalState(config), Anchors(env, image, config, position))
  {
    var b := TextDimensions(env, config.text, config.fontSize);
    var anchors := Anchors(env, image, config, position);
    assert DrawWatermarkOnCanvas(true, image, config, position, env) == Compose(image, config, b, anchors);
    ComposeResult(c, image, config, b, anchors);
  }

  lemma ComposeResult(c: Ctx, image: Img, config: WatermarkConfig, b: TextBlock, anchors: seq<Point>)
    ensures var r := Run(c, Compose(image, config, b, anchors));
      && r.width == image.width && r.height == image.height
      && r.stack == [] && r.state == FinalState(config)
      && r.painted == [Bitmap(image, 0.0, 0.0, InitialState)] + PaintedAt(b, config, FinalState(config), anchors)
  {
    var c1 := Ctx(image.width, image.height, InitialState, [], [Bitmap(image, 0.0, 0.0, InitialState)]);
    ComposeUnfolds(c, image, config, b, anchors);
    MeasuringRun(c1, config);
    InstancesBalanced(c1.(state := FinalState(config)), b, config, anchors);
  }

  /** The calls reset the canvas, paint the background, then measure and
      draw the instances. */
  lemma ComposeUnfolds(c: Ctx, image: Img, config: WatermarkConfig, b: TextBlock, anchors: seq<Point>)
    ensures Run(c, Compose(image, config, b, anchors))
         == Run(Run(Ctx(image.width, image.height, InitialState, [], [Bitmap(image, 0.0, 0.0, InitialState)]),
                    Measuring(config)),
                Instances(b, config, anchors))
  {
    var pre := Measuring(config);
    var inst := Instances(b, config, anchors);
    var rest := [DrawImage(image, 0.0, 0.0)] + (pre + inst);
    assert Compose(image, config, b, anchors) == [SetWidth(image.width), SetHeight(image.height)] + rest by {
      assert Background(image) == [SetWidth(image.width), SetHeight(image.height)] + [DrawImage(image, 0.0, 0.0)];
    }
    ResizeForgetsPast(c, c, image.width, image.height, rest);
    var c0 := Ctx(image.width, image.height, InitialState, [], []);
    RunCons(c0, DrawImage(image, 0.0, 0.0), pre + inst);
    assert Step(c0, DrawImage(image, 0.0, 0.0))
        == Ctx(image.width, image.height, InitialState, [], [Bitmap(image, 0.0, 0.0, InitialState)]);
    RunAppend(Step(c0, DrawImage(image, 0.0, 0.0)), pre, inst);
  }

  /** Measuring sets the font the instances are measured in and nothing
      else. */
  lemma MeasuringRun(c: Ctx, config: WatermarkConfig)
    requires c.state == InitialState
    ensures Run(c, Measuring(config)) == c.(state := FinalState(config))
  {
    if config.repeat {
      RunCons(c, SetFont(config.fontSize), []);
    }
  }

  /** Drawing is idempotent: the canvas after a second identical call is
      the canvas after the first, whatever it held to begin with. */
  lemma CompositeIdempotent(c: Ctx, image: Img, config: WatermarkConfig, position: Option<Pos>, env: Env)
    requires config.repeat ==> StepsPositive(env, config)
    ensures var ops := DrawWatermarkOnCanvas(true, image, config, position, env);
      Run(Run(c, ops), ops) == Run(c, ops)
  {
    var b := TextDimensions(env, config.text, config.fontSize);
    var anchors := Anchors(env, image, config, position);
    assert DrawWatermarkOnCanvas(true, image, config, position, env) == Compose(image, config, b, anchors);
    ComposeIdempotent(c, image, config, b, anchors);
  }

  lemma ComposeIdempotent(c: Ctx, image: Img, config: WatermarkConfig, b: TextBlock, anchors: seq<Point>)
    ensures var ops := Compose(image, config, b, anchors);
      Run(Run(c, ops), ops) == Run(c, ops)
  {
    var ops := Compose(image, config, b, anchors);
    var rest := ops[2..];
    assert ops == [SetWidth(image.width), SetHeight(image.height)] + rest by {
      assert ops[..3] == Background(image);
    }
    ResizeForgetsPast(Run(c, ops), c, image.width, image.height, rest);
  }

  /** Repeat mode does not depend on the position. */
  lemma RepeatIgnoresPosition(hasContext: bool, image: Img, config: WatermarkConfig, p: Option<Pos>, q: Option<Pos>, env: Env)
    requires config.repeat && StepsPositive(env, config)
    ensures DrawWatermarkOnCanvas(hasContext, image, config, p, env)
         == DrawWatermarkOnCanvas(hasContext, image, config, q, env)
  {
  }

  /** The watermark type and image file are never read: an image
      watermark configuration draws the same text as a text one. */
  lemma TypeIgnored(hasContext: bool, image: Img, config: WatermarkConfig, position: Option<Pos>, env: Env)
    requires config.repeat ==> StepsPositive(env, config)
    ensures DrawWatermarkOnCanvas(hasContext, image, config, position, env)
         == DrawWatermarkOnCanvas(hasContext, image, config.(kind := Text, imageFile := None), position, env)
  {
    var c2 := config.(kind := Text, imageFile := None);
    var b := TextDimensions(env, config.text, config.fontSize);
    assert RepeatSteps(env, config) == RepeatSteps(env, c2);
    assert Anchors(env, image, config, position) == Anchors(env, image, c2, position);
    InstancesSameConfig(b, config, c2, Anchors(env, image, config, position));
  }

  lemma {:induction false} InstancesSameConfig(b: TextBlock, c1: WatermarkConfig, c2: WatermarkConfig, anchors: seq<Point>)
    requires c1.text == c2.text && c1.fontSize == c2.fontSize && c1.rotation == c2.rotation
    requires c1.opacity == c2.opacity && c1.color == c2.color
    ensures Instances(b, c1, anchors) == Instances(b, c2, anchors)
    decreases |anchors|
  {
    if |anchors| > 0 {
      InstancesSameConfig(b, c1, c2, anchors[1..]);
    }
  }

  /** In single mode with position `p`, the one instance is moved to `p`'s
      percentage of the image size. */
  lemma SingleModePlacement(image: Img, config: WatermarkConfig, p: Pos, env: Env)
    requires !config.repeat
    ensures var ops := DrawWatermarkOnCanvas(true, image, config, Some(p), env);
      var a := SingleAnchor(image.width, image.height, p);
      |ops| > 4 && ops[3] == Save && ops[4] == TranslateBy(a.x, a.y)
  {
    var a := SingleAnchor(image.width, image.height, p);
    var b := TextDimensions(env, config.text, config.fontSize);
    assert DrawWatermarkOnCanvas(true, image, config, Some(p), env) == Compose(image, config, b, [a]);
    ComposeSingle(image, config, b, a);
  }

  lemma ComposeSingle(image: Img, config: WatermarkConfig, b: TextBlock, a: Point)
    requires !config.repeat
    ensures var ops := Compose(image, config, b, [a]);
      |ops| > 4 && ops[3] == Save && ops[4] == TranslateBy(a.x, a.y)
  {
    var one := DrawSingleWatermark(b, config, a.x, a.y);
    assert Instances(b, config, [a]) == one + [];
    assert Compose(image, config, b, [a]) == Background(image) + one;
    assert one[1] == TranslateBy(a.x, a.y);
  }

  /** Wider spacing never draws more watermarks: with measured text, a
      non-negative font size and positive spacing both spacings give
      positive steps, and the wider one gives no more anchors. */
  lemma SpacingMonotone(env: Env, image: Img, config: WatermarkConfig, wider: real)
    requires env.Valid() && config.repeat && config.fontSize >= 0.0
    requires 0.0 < config.spacing <= wider
    ensures StepsPositive(env, config) && StepsPositive(env, config.(spacing := wider))
    ensures |Anchors(env, image, config.(spacing := wider), None)| <= |Anchors(env, image, config, None)|
  {
    StepsPositiveWhenSpaced(env, config);
    StepsPositiveWhenSpaced(env, config.(spacing := wider));
    var s1 := RepeatSteps(env, config);
    var s2 := RepeatSteps(env, config.(spacing := wider));
    RepeatCountMonotone(image.width, image.height, s1.0, s1.1, s2.0, s2.1);
  }
}
