/** An abstract 2D canvas: the drawing calls the watermark code makes, and
    what they do to the canvas following the HTML canvas rules that matter
    here. Pixels are not modelled; a drawn image or line of text is recorded
    together with the drawing state it was drawn in.

    - Assigning `width` or `height` gives the canvas that size, clears the
      bitmap and resets the drawing state and its save stack.
    - `save` pushes the drawing state; `restore` pops it, and does nothing
      when the stack is empty.
    - Assigning `globalAlpha` a value outside [0,1] is ignored. */
module Canvas {
  import opened Common

  /** A decoded image (`HTMLImageElement`): only its pixel size is read. */
  datatype Img = Img(id: nat, width: nat, height: nat)

  datatype Font = DefaultFont | BoldInter(px: real)

  /** One component of the current transformation. */
  datatype Xform = Shift(dx: real, dy: real) | Turn(degrees: real)

  /** The drawing state that `save`/`restore` keep. */
  datatype GState = GState(xforms: seq<Xform>, alpha: real, font: Font, fill: string, align: string, baseline: string)

  /** The drawing state of a fresh or resized canvas. */
  const InitialState := GState([], 1.0, DefaultFont, "#000000", "start", "alphabetic")

  /** The calls the watermark code makes on a canvas and its context. */
  datatype DrawOp =
    | SetWidth(w: nat)
    | SetHeight(h: nat)
    | DrawImage(img: Img, x: real, y: real)
    | Save
    | Restore
    | TranslateBy(x: real, y: real)
    | RotateBy(degrees: real)
    | SetGlobalAlpha(alpha: real)
    | SetFont(px: real)
    | SetFillStyle(color: string)
    | SetTextAlign(align: string)
    | SetTextBaseline(baseline: string)
    | FillText(text: string, x: real, y: real)

  /** Something drawn, with the state it was drawn in. */
  datatype Paint =
    | Bitmap(img: Img, x: real, y: real, st: GState)
    | Glyphs(text: string, x: real, y: real, st: GState)

  datatype Ctx = Ctx(width: nat, height: nat, state: GState, stack: seq<GState>, painted: seq<Paint>)

  /** A newly created canvas element (300×150 by default). */
  const FreshCanvas := Ctx(300, 150, InitialState, [], [])

  /** The effect of one call. */
  function Step(c: Ctx, op: DrawOp): Ctx
  {
    match op
    case SetWidth(w) => Ctx(w, c.height, InitialState, [], [])
    case SetHeight(h) => Ctx(c.width, h, InitialState, [], [])
    case DrawImage(img, x, y) => c.(painted := c.painted + [Bitmap(img, x, y, c.state)])
    case Save => c.(stack := c.stack + [c.state])
    case Restore =>
      if |c.stack| == 0 then c
      else c.(state := c.stack[|c.stack| - 1], stack := c.stack[..|c.stack| - 1])
    case TranslateBy(x, y) => c.(state := c.state.(xforms := c.state.xforms + [Shift(x, y)]))
    case RotateBy(d) => c.(state := c.state.(xforms := c.state.xforms + [Turn(d)]))
    case SetGlobalAlpha(a) => if 0.0 <= a <= 1.0 then c.(state := c.state.(alpha := a)) else c
    case SetFont(px) => c.(state := c.state.(font := BoldInter(px)))
    case SetFillStyle(color) => c.(state := c.state.(fill := color))
    case SetTextAlign(a) => c.(state := c.state.(align := a))
    case SetTextBaseline(b) => c.(state := c.state.(baseline := b))
    case FillText(t, x, y) => c.(painted := c.painted + [Glyphs(t, x, y, c.state)])
  }

  /** The effect of a sequence of calls, in order. */
  function Run(c: Ctx, ops: seq<DrawOp>): Ctx
    decreases |ops|
  {
    if |ops| == 0 then c else Run(Step(c, ops[0]), ops[1..])
  }

  /** Running two call sequences one after the other is running their
      concatenation. */
  lemma {:induction false} RunAppend(c: Ctx, a: seq<DrawOp>, b: seq<DrawOp>)
    ensures Run(c, a + b) == Run(Run(c, a), b)
    decreases |a|
  {
    if |a| == 0 {
      assert a + b == b;
    } else {
      assert (a + b)[0] == a[0];
      assert (a + b)[1..] == a[1..] + b;
      RunAppend(Step(c, a[0]), a[1..], b);
    }
  }

  /** Calls that neither resize nor touch the save stack. */
  predicate Unscoped(op: DrawOp)
  {
    !(op.SetWidth? || op.SetHeight? || op.Save? || op.Restore?)
  }

  /** Calls that only change the drawing state. */
  predicate StateOnly(op: DrawOp)
  {
    Unscoped(op) && !op.DrawImage? && !op.FillText?
  }

  /** Unscoped calls keep the size and the save stack and only ever add to
      what has been drawn. */
  lemma {:induction false} RunUnscoped(c: Ctx, ops: seq<DrawOp>)
    requires forall k :: 0 <= k < |ops| ==> Unscoped(ops[k])
    ensures var r := Run(c, ops);
      r.width == c.width && r.height == c.height && r.stack == c.stack && c.painted <= r.painted
    decreases |ops|
  {
    if |ops| > 0 {
      RunUnscoped(Step(c, ops[0]), ops[1..]);
    }
  }

  /** Calls that only change the drawing state draw nothing. */
  lemma {:induction false} RunStateOnly(c: Ctx, ops: seq<DrawOp>)
    requires forall k :: 0 <= k < |ops| ==> StateOnly(ops[k])
    ensures Run(c, ops).painted == c.painted
    ensures Run(c, ops).stack == c.stack
    ensures Run(c, ops).width == c.width && Run(c, ops).height == c.height
    decreases |ops|
  {
    if |ops| > 0 {
      RunStateOnly(Step(c, ops[0]), ops[1..]);
    }
  }

  /** The glyphs a sequence of `fillText` calls draws in state `st`. */
  function GlyphsOf(ops: seq<DrawOp>, st: GState): (ps: seq<Paint>)
    requires forall k :: 0 <= k < |ops| ==> ops[k].FillText?
    ensures |ps| == |ops|
    ensures forall k :: 0 <= k < |ops| ==>
      ps[k] == Glyphs(ops[k].text, ops[k].x, ops[k].y, st)
  {
    seq(|ops|, k requires 0 <= k < |ops| => Glyphs(ops[k].text, ops[k].x, ops[k].y, st))
  }

  /** `fillText` calls draw their text, in order, in the current state and
      change nothing else. */
  lemma {:induction false} RunFills(c: Ctx, ops: seq<DrawOp>)
    requires forall k :: 0 <= k < |ops| ==> ops[k].FillText?
    ensures Run(c, ops) == c.(painted := c.painted + GlyphsOf(ops, c.state))
    decreases |ops|
  {
    if |ops| > 0 {
      var p := Glyphs(ops[0].text, ops[0].x, ops[0].y, c.state);
      var c1 := c.(painted := c.painted + [p]);
      assert Step(c, ops[0]) == c1;
      RunFills(c1, ops[1..]);
      GlyphsCons(ops, c.state);
      ConcatAssoc(c.painted, [p], GlyphsOf(ops[1..], c.state));
    }
  }

  lemma GlyphsCons(ops: seq<DrawOp>, st: GState)
    requires |ops| > 0 && forall k :: 0 <= k < |ops| ==> ops[k].FillText?
    ensures GlyphsOf(ops, st) == [Glyphs(ops[0].text, ops[0].x, ops[0].y, st)] + GlyphsOf(ops[1..], st)
  {
  }

  /** A block wrapped in `save`/`restore` that neither resizes nor saves or
      restores by itself leaves the drawing state and the save stack as they
      were before it. */
  lemma ScopedRestoresState(c: Ctx, body: seq<DrawOp>)
    requires forall k :: 0 <= k < |body| ==> Unscoped(body[k])
    ensures var r := Run(c, [Save] + body + [Restore]);
      && r.state == c.state && r.stack == c.stack
      && r.width == c.width && r.height == c.height
      && c.painted <= r.painted
  {
    var c1 := Step(c, Save);
    assert Run(c, [Save]) == c1;
    RunAppend(c, [Save], body);
    RunAppend(c, [Save] + body, [Restore]);
    RunUnscoped(c1, body);
    var c2 := Run(c1, body);
    assert c2.stack == c.stack + [c.state];
    assert Run(c2, [Restore]) == Step(c2, Restore);
  }

  /** A call sequence that starts by assigning both dimensions produces the
      same canvas whatever the canvas held before. */
  lemma ResizeForgetsPast(c1: Ctx, c2: Ctx, w: nat, h: nat, rest: seq<DrawOp>)
    ensures Run(c1, [SetWidth(w), SetHeight(h)] + rest) == Run(c2, [SetWidth(w), SetHeight(h)] + rest)
    ensures Run(c1, [SetWidth(w), SetHeight(h)] + rest) == Run(Ctx(w, h, InitialState, [], []), rest)
  {
    var ops := [SetWidth(w), SetHeight(h)] + rest;
    assert ops[0] == SetWidth(w) && ops[1..][0] == SetHeight(h) && ops[1..][1..] == rest;
  }
}
