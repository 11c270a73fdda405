/** Where the watermark instances go (src/utils/watermarkUtils.ts:78-110).

    Single mode: one anchor at the position's percentage of the canvas.
    Repeat mode: a grid whose steps are the rotated text box plus the
    spacing, starting one step above and left of the origin, visited row by
    row, left to right, and cut off after 2000 anchors.

    Coordinates are exact reals: the i-th column sits at `-stepX + i·stepX`,
    where the source adds `stepX` repeatedly in floating point. */
module Placement {
  import opened Common

  datatype Point = Point(x: real, y: real)

  /** The most watermarks repeat mode draws. */
  const MaxWatermarks: nat := 2000

  // ---------------------------------------------------------------------
  // Single mode
  // ---------------------------------------------------------------------

  /** The one anchor of single mode: the position read as percentages of
      the canvas size. */
  function SingleAnchor(width: nat, height: nat, p: Pos): Point
  {
    Point((width as real) * p.x / 100.0, (height as real) * p.y / 100.0)
  }

  /** Reading the anchor back as percentages of a non-empty canvas gives
      the position; the centre position anchors at the canvas centre. */
  lemma SingleAnchorInverse(width: nat, height: nat, p: Pos)
    ensures var a := SingleAnchor(width, height, p);
      && (width > 0 ==> a.x * 100.0 / (width as real) == p.x)
      && (height > 0 ==> a.y * 100.0 / (height as real) == p.y)
      && (p == Centre ==> a == Point(width as real / 2.0, height as real / 2.0))
  {
  }

  /** A position inside [0,100]×[0,100] puts the anchor on the canvas. */
  lemma SingleAnchorOnCanvas(width: nat, height: nat, p: Pos)
    requires 0.0 <= p.x <= 100.0 && 0.0 <= p.y <= 100.0
    ensures var a := SingleAnchor(width, height, p);
      0.0 <= a.x <= (width as real) && 0.0 <= a.y <= (height as real)
  {
    var a := SingleAnchor(width, height, p);
    PercentOf(width as real, p.x, a.x);
    PercentOf(height as real, p.y, a.y);
  }

  lemma PercentOf(whole: real, pct: real, part: real)
    requires whole >= 0.0 && 0.0 <= pct <= 100.0 && part == whole * pct / 100.0
    ensures 0.0 <= part <= whole
  {
    assert whole * pct <= whole * 100.0;
  }

  // ---------------------------------------------------------------------
  // Counting loop iterations
  // ---------------------------------------------------------------------

  /** The i-th value of a loop variable that starts at `start` and grows by
      `step`. */
  function Coord(start: real, step: real, i: nat): real
  {
    start + (i as real) * step
  }

  lemma CoordNext(start: real, step: real, i: nat)
    ensures Coord(start, step, i) + step == Coord(start, step, i + 1)
  {
    assert ((i + 1) as real) * step == (i as real) * step + step;
  }

  lemma CoordMonotone(start: real, step: real, i: nat, k: nat)
    requires step > 0.0 && i <= k
    ensures Coord(start, step, i) <= Coord(start, step, k)
  {
    assert (k as real) * step - (i as real) * step == ((k - i) as real) * step;
  }

  lemma MulStrict(a: real, b: real, s: real)
    requires a < b && s > 0.0
    ensures a * s < b * s
  {
  }

  /** The number of iterations of `for (v = start; v < bound; v += step)`:
      the values before it are below the bound and every later one is not. */
  function CountBelow(start: real, step: real, bound: real): (n: nat)
    requires step > 0.0
    ensures forall i: nat :: i < n ==> Coord(start, step, i) < bound
    ensures forall i: nat :: n <= i ==> Coord(start, step, i) >= bound
  {
    var n := if start >= bound then 0 else Ceil((bound - start) / step);
    CeilSteps(start, step, bound, n);
    n
  }

  /** The least whole number at or above `q`. */
  function Ceil(q: real): (n: nat)
    requires q >= 0.0
    ensures q <= n as real < q + 1.0
  {
    var f := q.Floor;
    assert f as real <= q < f as real + 1.0;
    if f as real == q then f else f + 1
  }

  /** `n = ⌈d/step⌉` whole steps cover `d`, one fewer does not. */
  lemma StepsBracket(d: real, step: real, n: nat)
    requires step > 0.0 && d > 0.0 && n == Ceil(d / step)
    ensures n >= 1
    ensures (n as real) * step >= d
    ensures ((n - 1) as real) * step < d
  {
    var q := d / step;
    assert q * step == d;
    assert q > 0.0;
    CeilCovers(q, step, n as real, d);
    BelowCeil(q, step, (n - 1) as real, d);
  }

  lemma CeilCovers(q: real, step: real, k: real, d: real)
    requires q * step == d && q <= k && step > 0.0
    ensures k * step >= d
  {
    MulLeRight(q, k, step);
  }

  lemma BelowCeil(q: real, step: real, m: real, d: real)
    requires q * step == d && m < q && step > 0.0
    ensures m * step < d
  {
    MulStrict(m, q, step);
  }

  lemma MulLeRight(a: real, b: real, s: real)
    requires a <= b && s >= 0.0
    ensures a * s <= b * s
  {
  }

  /** `n` whole steps reach the bound and one fewer does not: then the loop
      runs exactly `n` times. */
  lemma CeilSteps(start: real, step: real, bound: real, n: nat)
    requires step > 0.0
    requires start >= bound ==> n == 0
    requires start < bound ==> n == Ceil((bound - start) / step)
    ensures forall i: nat :: i < n ==> Coord(start, step, i) < bound
    ensures forall i: nat :: n <= i ==> Coord(start, step, i) >= bound
  {
    if start < bound {
      StepsBracket(bound - start, step, n);
      assert Coord(start, step, n - 1) < bound;
    }
    assert Coord(start, step, n) >= bound;
    forall i: nat | n <= i ensures Coord(start, step, i) >= bound {
      CoordMonotone(start, step, n, i);
    }
    forall i: nat | i < n ensures Coord(start, step, i) < bound {
      CoordMonotone(start, step, i, n - 1);
    }
  }

  // ---------------------------------------------------------------------
  // Repeat mode
  // ---------------------------------------------------------------------

  /** The grid of a `width`×`height` canvas with the given steps: `cols`
      and `rows` are how often the two loops of the source would run if
      nothing cut them off. */
  datatype Grid = Grid(width: nat, height: nat, stepX: real, stepY: real, cols: nat, rows: nat) {
    ghost predicate Valid() {
      && stepX > 0.0 && stepY > 0.0
      && (forall i: nat :: i < cols <==> XAt(i) < width as real + stepX)
      && (forall j: nat :: j < rows <==> YAt(j) < height as real + stepY)
    }

    function XAt(i: nat): real { Coord(-stepX, stepX, i) }

    function YAt(j: nat): real { Coord(-stepY, stepY, j) }

    /** The grid point in column `i` of row `j`. */
    function At(i: nat, j: nat): Point { Point(XAt(i), YAt(j)) }

    /** Every grid point lies within one step of the canvas. */
    ghost predicate InBounds(p: Point) {
      && -stepX <= p.x < width as real + stepX
      && -stepY <= p.y < height as real + stepY
    }
  }

  /** The grid the loops of the source walk. */
  function PlanGrid(width: nat, height: nat, stepX: real, stepY: real): (g: Grid)
    requires stepX > 0.0 && stepY > 0.0
    ensures g.Valid() && g.width == width && g.height == height
    ensures g.stepX == stepX && g.stepY == stepY
  {
    Grid(width, height, stepX, stepY,
         CountBelow(-stepX, stepX, width as real + stepX),
         CountBelow(-stepY, stepY, height as real + stepY))
  }

  lemma GridPointInBounds(g: Grid, i: nat, j: nat)
    requires g.Valid() && i < g.cols && j < g.rows
    ensures g.InBounds(g.At(i, j))
  {
    CoordMonotone(-g.stepX, g.stepX, 0, i);
    CoordMonotone(-g.stepY, g.stepY, 0, j);
  }

  /** The anchors the two loops produce from column `i` of row `j` on, with
      `budget` watermarks left before the cap. */
  function GridFrom(g: Grid, j: nat, i: nat, budget: nat): (r: seq<Point>)
    ensures |r| <= budget
    decreases g.rows - j, g.cols - i
  {
    if j >= g.rows || budget == 0 then []
    else if i >= g.cols then GridFrom(g, j + 1, 0, budget)
    else [g.At(i, j)] + GridFrom(g, j, i + 1, budget - 1)
  }

  /** Every anchor the loops produce lies within one step of the canvas. */
  lemma {:induction false} GridFromInBounds(g: Grid, j: nat, i: nat, budget: nat)
    requires g.Valid()
    ensures forall k :: 0 <= k < |GridFrom(g, j, i, budget)| ==> g.InBounds(GridFrom(g, j, i, budget)[k])
    decreases g.rows - j, g.cols - i
  {
    if j >= g.rows || budget == 0 {
    } else if i >= g.cols {
      GridFromInBounds(g, j + 1, 0, budget);
    } else {
      GridPointInBounds(g, i, j);
      GridFromInBounds(g, j, i + 1, budget - 1);
    }
  }

  /** The anchors of repeat mode: at most 2000, each within one step of the
      canvas. */
  function RepeatAnchors(width: nat, height: nat, stepX: real, stepY: real): (anchors: seq<Point>)
    requires stepX > 0.0 && stepY > 0.0
    ensures |anchors| <= MaxWatermarks
    ensures forall k :: 0 <= k < |anchors| ==>
      -stepX <= anchors[k].x < width as real + stepX && -stepY <= anchors[k].y < height as real + stepY
  {
    var g := PlanGrid(width, height, stepX, stepY);
    GridFromInBounds(g, 0, 0, MaxWatermarks);
    GridFrom(g, 0, 0, MaxWatermarks)
  }

  /** The nested loops of the source, step by step: `x` and `y` are
      advanced by adding the step, and the counter stops both loops at
      2000. */
  method RepeatAnchorLoop(width: nat, height: nat, stepX: real, stepY: real) returns (anchors: seq<Point>)
    requires stepX > 0.0 && stepY > 0.0
    ensures anchors == RepeatAnchors(width, height, stepX, stepY)
  {
    var g := PlanGrid(width, height, stepX, stepY);
    var all := GridFrom(g, 0, 0, MaxWatermarks);
    anchors := [];
    var count: nat := 0;
    var y := -stepY;
    var j: nat := 0;
    while y < height as real + stepY && count < MaxWatermarks
      invariant j <= g.rows && y == g.YAt(j)
      invariant count <= MaxWatermarks
      invariant anchors + GridFrom(g, j, 0, MaxWatermarks - count) == all
      decreases g.rows - j
    {
      var x := -stepX;
      var i: nat := 0;
      while x < width as real + stepX && count < MaxWatermarks
        invariant i <= g.cols && x == g.XAt(i)
        invariant count <= MaxWatermarks
        invariant anchors + GridFrom(g, j, i, MaxWatermarks - count) == all
        decreases g.cols - i
      {
        assert GridFrom(g, j, i, MaxWatermarks - count)
          == [Point(x, y)] + GridFrom(g, j, i + 1, MaxWatermarks - (count + 1));
        anchors := anchors + [Point(x, y)];
        count := count + 1;
        CoordNext(-stepX, stepX, i);
        x := x + stepX;
        i := i + 1;
      }
      assert GridFrom(g, j, i, MaxWatermarks - count) == GridFrom(g, j + 1, 0, MaxWatermarks - count);
      CoordNext(-stepY, stepY, j);
      y := y + stepY;
      j := j + 1;
    }
  }

  // ---------------------------------------------------------------------
  // The uncut grid, as an independent reference
  // ---------------------------------------------------------------------

  /** Row `j` of the grid, left to right. */
  function RowPoints(g: Grid, j: nat): (r: seq<Point>)
    ensures |r| == g.cols
    ensures forall i :: 0 <= i < g.cols ==> r[i] == g.At(i, j)
  {
    seq(g.cols, i requires 0 <= i < g.cols => g.At(i, j))
  }

  /** Rows `j` to the last, one after the other. */
  function RowsFrom(g: Grid, j: nat): (r: seq<Point>)
    decreases g.rows - j
  {
    if j >= g.rows then [] else RowPoints(g, j) + RowsFrom(g, j + 1)
  }

  /** The whole grid in row-major order. */
  function FullGrid(g: Grid): seq<Point>
  {
    RowsFrom(g, 0)
  }

  lemma {:induction false} RowsFromLength(g: Grid, j: nat)
    requires j <= g.rows
    ensures |RowsFrom(g, j)| == (g.rows - j) * g.cols
    decreases g.rows - j
  {
    if j < g.rows {
      RowsFromLength(g, j + 1);
      assert (g.rows - j) * g.cols == g.cols + (g.rows - (j + 1)) * g.cols;
    }
  }

  /** Point `i` of row `j` sits at index `(j - j0)·cols + i` of the rows
      from `j0` on. */
  lemma {:induction false} RowsFromIndex(g: Grid, j0: nat, j: nat, i: nat)
    requires j0 <= j < g.rows && i < g.cols
    ensures (j - j0) * g.cols + i < |RowsFrom(g, j0)|
    ensures RowsFrom(g, j0)[(j - j0) * g.cols + i] == g.At(i, j)
    decreases j - j0
  {
    var k := (j - j0) * g.cols + i;
    var here := RowPoints(g, j0);
    assert RowsFrom(g, j0) == here + RowsFrom(g, j0 + 1);
    if j0 == j {
      assert k == i;
    } else {
      RowsFromIndex(g, j0 + 1, j, i);
      var k' := (j - (j0 + 1)) * g.cols + i;
      MulSucc(j - (j0 + 1), g.cols);
      assert k == g.cols + k';
      assert RowsFrom(g, j0)[k] == RowsFrom(g, j0 + 1)[k'];
    }
  }

  lemma MulSucc(a: nat, c: nat)
    ensures (a + 1) * c == c + a * c
  {
  }

  /** What the loops produce from a point on is the rest of the grid from
      that point, cut to the budget. */
  lemma {:induction false} GridFromIsPrefix(g: Grid, j: nat, i: nat, budget: nat)
    requires j < g.rows && i <= g.cols
    ensures GridFrom(g, j, i, budget) == Take(RowPoints(g, j)[i..] + RowsFrom(g, j + 1), budget)
    decreases g.rows - j, g.cols - i
  {
    var rest := RowPoints(g, j)[i..] + RowsFrom(g, j + 1);
    if budget == 0 {
    } else if i >= g.cols {
      assert rest == RowsFrom(g, j + 1) by {
        assert RowPoints(g, j)[i..] == [];
      }
      assert GridFrom(g, j, i, budget) == GridFrom(g, j + 1, 0, budget);
      if j + 1 < g.rows {
        GridFromIsPrefix(g, j + 1, 0, budget);
        assert RowsFrom(g, j + 1) == RowPoints(g, j + 1)[0..] + RowsFrom(g, j + 2);
      }
    } else {
      GridFromIsPrefix(g, j, i + 1, budget - 1);
      var tail := RowPoints(g, j)[i + 1..] + RowsFrom(g, j + 1);
      assert rest == [g.At(i, j)] + tail by {
        assert RowPoints(g, j)[i..] == [g.At(i, j)] + RowPoints(g, j)[i + 1..];
      }
      assert GridFrom(g, j, i, budget) == [g.At(i, j)] + GridFrom(g, j, i + 1, budget - 1);
      TakeCons(g.At(i, j), tail, budget);
    }
  }

  lemma TakeCons<T>(x: T, s: seq<T>, n: nat)
    requires n > 0
    ensures Take([x] + s, n) == [x] + Take(s, n - 1)
  {
  }

  /** Repeat mode draws the first 2000 points of the whole grid, in
      row-major order. */
  lemma RepeatAnchorsRowMajor(width: nat, height: nat, stepX: real, stepY: real)
    requires stepX > 0.0 && stepY > 0.0
    ensures var g := PlanGrid(width, height, stepX, stepY);
      RepeatAnchors(width, height, stepX, stepY) == Take(FullGrid(g), MaxWatermarks)
  {
    var g := PlanGrid(width, height, stepX, stepY);
    if g.rows > 0 {
      GridFromIsPrefix(g, 0, 0, MaxWatermarks);
      assert RowPoints(g, 0)[0..] == RowPoints(g, 0);
    }
  }

  /** The number of anchors is the grid size, capped at 2000. */
  lemma RepeatAnchorsCount(width: nat, height: nat, stepX: real, stepY: real)
    requires stepX > 0.0 && stepY > 0.0
    ensures var g := PlanGrid(width, height, stepX, stepY);
      var n := g.rows * g.cols;
      |RepeatAnchors(width, height, stepX, stepY)| == (if n < MaxWatermarks then n else MaxWatermarks)
  {
    var g := PlanGrid(width, height, stepX, stepY);
    RepeatAnchorsRowMajor(width, height, stepX, stepY);
    RowsFromLength(g, 0);
  }

  /** Below the cap, anchor number `j·cols + i` is column `i` of row `j`. */
  lemma RepeatAnchorAt(width: nat, height: nat, stepX: real, stepY: real, i: nat, j: nat)
    requires stepX > 0.0 && stepY > 0.0
    requires var g := PlanGrid(width, height, stepX, stepY);
      i < g.cols && j < g.rows && j * g.cols + i < MaxWatermarks
    ensures var g := PlanGrid(width, height, stepX, stepY);
      var anchors := RepeatAnchors(width, height, stepX, stepY);
      j * g.cols + i < |anchors| && anchors[j * g.cols + i] == g.At(i, j)
  {
    var g := PlanGrid(width, height, stepX, stepY);
    RepeatAnchorsRowMajor(width, height, stepX, stepY);
    RowsFromIndex(g, 0, j, i);
  }

  // ---------------------------------------------------------------------
  // Wider spacing never draws more
  // ---------------------------------------------------------------------

  /** With a larger step the loop over one axis runs no more often. */
  lemma CountShrinks(extent: nat, s1: real, s2: real)
    requires 0.0 < s1 <= s2
    ensures CountBelow(-s2, s2, extent as real + s2) <= CountBelow(-s1, s1, extent as real + s1)
  {
    var n1 := CountBelow(-s1, s1, extent as real + s1);
    var n2 := CountBelow(-s2, s2, extent as real + s2);
    assert Coord(-s1, s1, 1) < extent as real + s1;
    assert n1 >= 2;
    var m := (n1 - 2) as real;
    CoordShift(s1, n1);
    CoordShift(s2, n1);
    assert m >= 0.0;
    StepGrowth(m, s1, s2, extent as real);
  }

  lemma StepGrowth(m: real, s1: real, s2: real, e: real)
    requires m >= 0.0 && s1 <= s2 && m * s1 + s1 >= e + s1
    ensures m * s2 + s2 >= e + s2
  {
    MulLe(m, s1, s2);
  }

  /** The n-th value of a loop that starts one step below zero. */
  lemma CoordShift(s: real, n: nat)
    requires n >= 2
    ensures Coord(-s, s, n) == ((n - 2) as real) * s + s
  {
    assert Coord(-s, s, n) == -s + (n as real) * s;
    assert (n as real) == ((n - 2) as real) + 2.0;
    assert (n as real) * s == ((n - 2) as real) * s + 2.0 * s;
  }

  lemma MulLe(a: real, b: real, c: real)
    requires a >= 0.0 && b <= c
    ensures a * b <= a * c
  {
  }

  lemma MulNatMonotone(a: nat, b: nat, c: nat, d: nat)
    requires a <= c && b <= d
    ensures a * b <= c * d
  {
    assert a * b <= c * b;
  }

  /** Growing both steps never increases the number of repeat anchors. */
  lemma RepeatCountMonotone(width: nat, height: nat, sx1: real, sy1: real, sx2: real, sy2: real)
    requires 0.0 < sx1 <= sx2 && 0.0 < sy1 <= sy2
    ensures |RepeatAnchors(width, height, sx2, sy2)| <= |RepeatAnchors(width, height, sx1, sy1)|
  {
    var g1 := PlanGrid(width, height, sx1, sy1);
    var g2 := PlanGrid(width, height, sx2, sy2);
    RepeatAnchorsCount(width, height, sx1, sy1);
    RepeatAnchorsCount(width, height, sx2, sy2);
    CountShrinks(width, sx1, sx2);
    CountShrinks(height, sy1, sy2);
    MulNatMonotone(g2.rows, g2.cols, g1.rows, g1.cols);
  }
}
