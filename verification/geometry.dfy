/** Text-block geometry of `calculateTextDimensions` and the rotated bounding
    box used for repeat spacing (src/utils/watermarkUtils.ts).

    Font measurement and trigonometry are not computed here: `Env.measure`
    gives the width of a line in a bold font of the given pixel size, and
    `Env.trig` gives |cos| and |sin| of a rotation in degrees. */
module Geometry {
  import opened Common

  /** Absolute cosine and sine of a rotation angle. */
  datatype Trig = Trig(absCos: real, absSin: real) {
    predicate Valid() {
      0.0 <= absCos <= 1.0 && 0.0 <= absSin <= 1.0
    }
  }

  /** What the browser supplies: text measurement and trigonometry. */
  datatype Env = Env(measure: (real, string) -> real, trig: real -> Trig) {
    /** Widths are never negative, |cos| and |sin| lie in [0,1], and the
        quarter turns have their exact values. */
    ghost predicate Valid() {
      && (forall px, line :: measure(px, line) >= 0.0)
      && (forall deg :: trig(deg).Valid())
      && trig(0.0) == Trig(1.0, 0.0)
      && trig(90.0) == Trig(0.0, 1.0)
      && trig(180.0) == Trig(1.0, 0.0)
      && trig(270.0) == Trig(0.0, 1.0)
      && trig(360.0) == Trig(1.0, 0.0)
    }
  }

  // ---------------------------------------------------------------------
  // Splitting on '\n' (JavaScript `text.split('\n')`)
  // ---------------------------------------------------------------------

  /** The lines of `s`: the maximal '\n'-free pieces between separators.
      Like `split`, the empty string has one (empty) line and a trailing
      '\n' yields a trailing empty line. */
  function Split(s: string): (lines: seq<string>)
    ensures |lines| >= 1
    decreases |s|
  {
    if |s| == 0 then [""]
    else if s[0] == '\n' then [""] + Split(s[1..])
    else
      var rest := Split(s[1..]);
      [[s[0]] + rest[0]] + rest[1..]
  }

  /** The lines put back together with '\n' between them. */
  function Join(lines: seq<string>): string
    requires |lines| >= 1
    decreases |lines|
  {
    if |lines| == 1 then lines[0] else lines[0] + "\n" + Join(lines[1..])
  }

  predicate NoNewline(line: string)
  {
    forall k :: 0 <= k < |line| ==> line[k] != '\n'
  }

  /** Joining the split lines gives the original text back. */
  lemma {:induction false} JoinSplit(s: string)
    ensures Join(Split(s)) == s
    decreases |s|
  {
    if |s| == 0 {
    } else if s[0] == '\n' {
      JoinSplit(s[1..]);
      assert Split(s) == [""] + Split(s[1..]);
      assert Split(s)[1..] == Split(s[1..]);
      assert s == "" + "\n" + s[1..];
    } else {
      var rest := Split(s[1..]);
      JoinSplit(s[1..]);
      var lines := Split(s);
      assert lines == [[s[0]] + rest[0]] + rest[1..];
      if |rest| == 1 {
        assert Join(lines) == [s[0]] + rest[0];
        assert rest[0] == s[1..];
      } else {
        assert lines[1..] == rest[1..];
        assert Join(rest) == rest[0] + "\n" + Join(rest[1..]);
        assert Join(lines) == [s[0]] + rest[0] + "\n" + Join(rest[1..]);
      }
      assert s == [s[0]] + s[1..];
    }
  }

  /** There is one more line than there are '\n' characters. */
  lemma {:induction false} SplitLineCount(s: string)
    ensures |Split(s)| == Count(s, '\n') + 1
    decreases |s|
  {
    if |s| != 0 {
      SplitLineCount(s[1..]);
    }
  }

  /** No line contains a '\n'. */
  lemma {:induction false} SplitLinesHaveNoNewline(s: string)
    ensures forall i :: 0 <= i < |Split(s)| ==> NoNewline(Split(s)[i])
    decreases |s|
  {
    if |s| != 0 {
      SplitLinesHaveNoNewline(s[1..]);
      var rest := Split(s[1..]);
      if s[0] != '\n' {
        var first := [s[0]] + rest[0];
        assert NoNewline(first) by {
          forall k | 0 <= k < |first| ensures first[k] != '\n' {
            if k > 0 { assert first[k] == rest[0][k - 1]; }
          }
        }
      }
    }
  }

  /** Splitting undoes joining when no line contains a '\n'. */
  lemma {:induction false} SplitJoin(lines: seq<string>)
    requires |lines| >= 1
    requires forall i :: 0 <= i < |lines| ==> NoNewline(lines[i])
    ensures Split(Join(lines)) == lines
    decreases |lines|, |lines[0]|
  {
    var l := lines[0];
    if |lines| == 1 {
      SplitNoNewline(l);
    } else if |l| == 0 {
      var s := Join(lines);
      assert s == "\n" + Join(lines[1..]);
      assert s[1..] == Join(lines[1..]);
      SplitJoin(lines[1..]);
      assert lines == [""] + lines[1..];
    } else {
      var s := Join(lines);
      var shorter := [l[1..]] + lines[1..];
      assert shorter[1..] == lines[1..];
      assert Join(shorter) == l[1..] + "\n" + Join(lines[1..]);
      assert s == [l[0]] + Join(shorter);
      assert s[1..] == Join(shorter);
      SplitJoin(shorter);
      assert l == [l[0]] + l[1..];
    }
  }

  lemma {:induction false} SplitNoNewline(l: string)
    requires NoNewline(l)
    ensures Split(l) == [l]
    decreases |l|
  {
    if |l| != 0 {
      SplitNoNewline(l[1..]);
      assert l == [l[0]] + l[1..];
    }
  }

  // ---------------------------------------------------------------------
  // Text metrics (calculateTextDimensions)
  // ---------------------------------------------------------------------

  /** The measured text block: its lines, the height of one line, the
      height of the whole block and the width of its widest line. */
  datatype TextBlock = TextBlock(lines: seq<string>, lineHeight: real, totalHeight: real, maxWidth: real)

  /** The largest element of a non-empty sequence (`Math.max(...xs)`). */
  function MaxOf(xs: seq<real>): (m: real)
    requires |xs| > 0
    ensures forall i :: 0 <= i < |xs| ==> xs[i] <= m
    ensures exists i :: 0 <= i < |xs| && xs[i] == m
    decreases |xs|
  {
    if |xs| == 1 then xs[0]
    else
      var rest := MaxOf(xs[1..]);
      assert forall i :: 1 <= i < |xs| ==> xs[i] == xs[1..][i - 1];
      if xs[0] >= rest then xs[0] else rest
  }

  /** The measured width of each line in a bold font of `fontSize` px. */
  function Widths(env: Env, fontSize: real, lines: seq<string>): (ws: seq<real>)
    ensures |ws| == |lines|
    ensures forall i :: 0 <= i < |lines| ==> ws[i] == env.measure(fontSize, lines[i])
  {
    seq(|lines|, i requires 0 <= i < |lines| => env.measure(fontSize, lines[i]))
  }

  /** One line is 1.2 times the font size high. */
  function LineHeight(fontSize: real): real
  {
    fontSize * 1.2
  }

  /** The height of `n` lines of height `lineHeight`. */
  function BlockHeight(n: nat, lineHeight: real): real
  {
    (n as real) * lineHeight
  }

  /** `calculateTextDimensions`: the lines are the '\n'-pieces of the text,
      the block is as high as all its lines, and it is as wide as its widest
      line. */
  function TextDimensions(env: Env, text: string, fontSize: real): (b: TextBlock)
    ensures |b.lines| >= 1 && Join(b.lines) == text
    ensures |b.lines| == Count(text, '\n') + 1
    ensures b.lineHeight == LineHeight(fontSize)
    ensures b.totalHeight == BlockHeight(|b.lines|, b.lineHeight)
    ensures forall i :: 0 <= i < |b.lines| ==> env.measure(fontSize, b.lines[i]) <= b.maxWidth
    ensures exists i :: 0 <= i < |b.lines| && env.measure(fontSize, b.lines[i]) == b.maxWidth
  {
    var lines := Split(text);
    var lineHeight := LineHeight(fontSize);
    var ws := Widths(env, fontSize, lines);
    var maxWidth := MaxOf(ws);
    JoinSplit(text);
    SplitLineCount(text);
    assert forall i :: 0 <= i < |lines| ==> env.measure(fontSize, lines[i]) <= maxWidth;
    var k :| 0 <= k < |lines| && ws[k] == maxWidth;
    assert env.measure(fontSize, lines[k]) == maxWidth;
    TextBlock(lines, lineHeight, BlockHeight(|lines|, lineHeight), maxWidth)
  }

  /** A block measured in a valid environment with a non-negative font
      size has non-negative width and height. */
  lemma TextBlockNonNegative(env: Env, text: string, fontSize: real)
    requires env.Valid() && fontSize >= 0.0
    ensures TextDimensions(env, text, fontSize).maxWidth >= 0.0
    ensures TextDimensions(env, text, fontSize).totalHeight >= 0.0
  {
    var b := TextDimensions(env, text, fontSize);
    WidestLineNonNegative(env, fontSize, b);
    BlockHeightNonNegative(|b.lines|, fontSize);
  }

  lemma WidestLineNonNegative(env: Env, fontSize: real, b: TextBlock)
    requires env.Valid() && |b.lines| > 0 && env.measure(fontSize, b.lines[0]) <= b.maxWidth
    ensures b.maxWidth >= 0.0
  {
    assert env.measure(fontSize, b.lines[0]) >= 0.0;
  }

  lemma BlockHeightNonNegative(n: nat, fontSize: real)
    requires fontSize >= 0.0
    ensures LineHeight(fontSize) >= 0.0 && BlockHeight(n, LineHeight(fontSize)) >= 0.0
  {
    MulNonNegative(fontSize, 1.2);
    MulNonNegative(n as real, LineHeight(fontSize));
  }

  // ---------------------------------------------------------------------
  // Vertical centring of the lines (drawSingleWatermark)
  // ---------------------------------------------------------------------

  /** The y offset of line `i` relative to the anchor. */
  function LineOffset(b: TextBlock, i: nat): real
  {
    -(b.totalHeight - b.lineHeight) / 2.0 + (i as real) * b.lineHeight
  }

  /** Consecutive lines are one line height apart, and the first and last
      offsets cancel out, so the block is centred on the anchor. */
  lemma LinesCentred(env: Env, text: string, fontSize: real)
    ensures var b := TextDimensions(env, text, fontSize);
      && (forall i: nat :: i + 1 < |b.lines| ==> LineOffset(b, i + 1) - LineOffset(b, i) == b.lineHeight)
      && LineOffset(b, 0) + LineOffset(b, |b.lines| - 1) == 0.0
  {
    var b := TextDimensions(env, text, fontSize);
    BlockCentred(b);
  }

  /** The centring argument for any block whose height is its line count
      times its line height. */
  lemma BlockCentred(b: TextBlock)
    requires |b.lines| >= 1 && b.totalHeight == BlockHeight(|b.lines|, b.lineHeight)
    ensures forall i: nat :: i + 1 < |b.lines| ==> LineOffset(b, i + 1) - LineOffset(b, i) == b.lineHeight
    ensures LineOffset(b, 0) + LineOffset(b, |b.lines| - 1) == 0.0
  {
    var n := |b.lines| as real;
    var h := b.lineHeight;
    assert LineOffset(b, 0) == -(n * h - h) / 2.0;
    assert LineOffset(b, |b.lines| - 1) == -(n * h - h) / 2.0 + (n - 1.0) * h;
    assert (n - 1.0) * h == n * h - h;
    forall i: nat | i + 1 < |b.lines|
      ensures LineOffset(b, i + 1) - LineOffset(b, i) == h
    {
      assert ((i + 1) as real) * h == (i as real) * h + h;
    }
  }

  // ---------------------------------------------------------------------
  // Rotated bounding box (repeat mode)
  // ---------------------------------------------------------------------

  datatype Box = Box(width: real, height: real)

  /** Axis-aligned bounding box of a `w`×`h` block rotated by an angle with
      the given |cos| and |sin|. */
  function RotatedBox(w: real, h: real, t: Trig): Box
  {
    Box(w * t.absCos + h * t.absSin, w * t.absSin + h * t.absCos)
  }

  /** A non-empty block has a non-empty bounding box at every angle. */
  lemma RotatedBoxNonNegative(w: real, h: real, t: Trig)
    requires t.Valid() && w >= 0.0 && h >= 0.0
    ensures RotatedBox(w, h, t).width >= 0.0 && RotatedBox(w, h, t).height >= 0.0
  {
    MulNonNegative(w, t.absCos);
    MulNonNegative(w, t.absSin);
    MulNonNegative(h, t.absCos);
    MulNonNegative(h, t.absSin);
  }

  /** Half turns leave the box as it is; quarter turns swap its sides. */
  lemma RotatedBoxQuarterTurns(env: Env, w: real, h: real)
    requires env.Valid()
    ensures RotatedBox(w, h, env.trig(0.0)) == Box(w, h)
    ensures RotatedBox(w, h, env.trig(180.0)) == Box(w, h)
    ensures RotatedBox(w, h, env.trig(360.0)) == Box(w, h)
    ensures RotatedBox(w, h, env.trig(90.0)) == Box(h, w)
    ensures RotatedBox(w, h, env.trig(270.0)) == Box(h, w)
  {
  }

  lemma MulNonNegative(a: real, b: real)
    requires a >= 0.0 && b >= 0.0
    ensures a * b >= 0.0
  {
  }
}
