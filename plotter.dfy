/**
  Drawing primitives (vfi/src/plotter.rs): a Bresenham line whose every point
  anchors a width x width square, the very first pixel of which is green, and
  a filled rectangle.
 */
module Plotter {
  import opened Raster

  type Point = (int, int)

  /** The square of side w anchored (top-left) at p covers (a, b). */
  predicate InSquare(p: Point, w: nat, a: int, b: int)
  {
    p.0 <= a < p.0 + w && p.1 <= b < p.1 + w
  }

  /** Every pixel of the square of side w at p is inside a width x height image. */
  predicate SquareFits(width: nat, height: nat, p: Point, w: nat)
  {
    w >= 1 ==> 0 <= p.0 && p.0 + w <= width && 0 <= p.1 && p.1 + w <= height
  }

  /** The position and error of the Bresenham loop. */
  datatype Cursor = Cursor(x: int, y: int, err: int)

  /** A line from (x0, y0) to (x1, y1) and the quantities `draw_line` derives from it. */
  datatype Line = Line(x0: int, y0: int, x1: int, y1: int)
  {
    function Dx(): nat { if x0 > x1 then x0 - x1 else x1 - x0 }
    function Dy(): nat { if y0 > y1 then y0 - y1 else y1 - y0 }
    function Sx(): int { if x0 < x1 then 1 else -1 }
    function Sy(): int { if y0 < y1 then 1 else -1 }

    /** The initial error, halved with i32 division (toward zero). */
    function Err0(): (e: int)
      ensures -(Dy() as int) <= 2 * e <= Dx()
    {
      TruncDiv(if Dx() > Dy() then Dx() else -(Dy() as int), 2)
    }

    function Start(): Cursor { Cursor(x0, y0, Err0()) }

    /** The number of steps taken along x to reach column x, and along y to reach row y. */
    function XSteps(x: int): int { if x0 < x1 then x - x0 else x0 - x }
    function YSteps(y: int): int { if y0 < y1 then y - y0 else y0 - y }

    /** The Bresenham invariant: the cursor has moved toward the end point and not
        past it, and its error is the initial error plus dx per y step minus dy per
        x step, within [-dy, dx]. */
    ghost predicate OnTrack(c: Cursor)
    {
      0 <= XSteps(c.x) <= Dx() && 0 <= YSteps(c.y) <= Dy() &&
      c.err == Err0() + YSteps(c.y) * Dx() - XSteps(c.x) * Dy() &&
      -(Dy() as int) <= c.err <= Dx()
    }

    /** The steps still to take. */
    function Remaining(c: Cursor): int
    {
      (Dx() - XSteps(c.x)) + (Dy() - YSteps(c.y))
    }

    predicate AtEnd(c: Cursor) { c.x == x1 && c.y == y1 }

    /** One iteration of the loop after the square is painted: the cursor moves
        at most one pixel toward the end point along each axis, and the error
        loses dy per x step and gains dx per y step. */
    function Step(c: Cursor): (s: Cursor)
      ensures s.x == c.x || s.x == c.x + Sx()
      ensures s.y == c.y || s.y == c.y + Sy()
      ensures s.err == c.err - (if s.x != c.x then Dy() else 0) + (if s.y != c.y then Dx() else 0)
    {
      var err2 := 2 * c.err;
      var c1 := if err2 > -(Dx() as int) then Cursor(c.x + Sx(), c.y, c.err - Dy()) else c;
      if err2 < Dy() then Cursor(c1.x, c1.y + Sy(), c1.err + Dx()) else c1
    }

    /** The points at which the loop paints, from c on. */
    ghost function TraceFrom(c: Cursor): (t: seq<Point>)
      requires OnTrack(c)
      ensures |t| >= 1 && t[0] == (c.x, c.y) && t[|t| - 1] == (x1, y1)
      decreases Remaining(c)
    {
      if AtEnd(c) then [(c.x, c.y)]
      else
        StepOnTrack(c);
        [(c.x, c.y)] + TraceFrom(Step(c))
    }

    /** Every point of the trace from c lies in the bounding box, and each is at
        least one step further along than the one before. */
    lemma {:induction false} TraceAdvances(c: Cursor)
      requires OnTrack(c)
      ensures forall i | 0 <= i < |TraceFrom(c)| ::
        InBox(TraceFrom(c)[i]) && XSteps(TraceFrom(c)[i].0) + YSteps(TraceFrom(c)[i].1) >= XSteps(c.x) + YSteps(c.y) + i
      decreases Remaining(c)
    {
      var t := TraceFrom(c);
      if !AtEnd(c) {
        StepOnTrack(c);
        TraceAdvances(Step(c));
        var rest := TraceFrom(Step(c));
        assert t == [(c.x, c.y)] + rest;
        forall i | 1 <= i < |t|
          ensures InBox(t[i]) && XSteps(t[i].0) + YSteps(t[i].1) >= XSteps(c.x) + YSteps(c.y) + i
        {
          assert t[i] == rest[i - 1];
        }
      }
    }

    /** The trace from c is connected: each point follows its predecessor by
        one step in x, in y, or in both. */
    lemma {:induction false} TraceConnected(c: Cursor)
      requires OnTrack(c)
      ensures forall i | 0 <= i < |TraceFrom(c)| - 1 :: Adjacent(TraceFrom(c)[i], TraceFrom(c)[i + 1])
      decreases Remaining(c)
    {
      var t := TraceFrom(c);
      if !AtEnd(c) {
        StepOnTrack(c);
        TraceConnected(Step(c));
        var rest := TraceFrom(Step(c));
        assert t == [(c.x, c.y)] + rest;
        forall i | 1 <= i < |t| - 1
          ensures Adjacent(t[i], t[i + 1])
        {
          assert t[i] == rest[i - 1] && t[i + 1] == rest[i];
        }
      }
    }

    ghost function Trace(): seq<Point>
    {
      StartOnTrack();
      TraceFrom(Start())
    }

    /** p lies in the bounding box of the two end points. */
    predicate InBox(p: Point)
    {
      (if x0 <= x1 then x0 <= p.0 <= x1 else x1 <= p.0 <= x0) &&
      (if y0 <= y1 then y0 <= p.1 <= y1 else y1 <= p.1 <= y0)
    }

    /** q follows p: one step toward the end point along x, along y, or both. */
    predicate Adjacent(p: Point, q: Point)
    {
      (q.0 == p.0 || q.0 == p.0 + Sx()) && (q.1 == p.1 || q.1 == p.1 + Sy()) && q != p
    }

    lemma StartOnTrack()
      ensures OnTrack(Start())
    {
    }

    /** A cursor on track and not at the end takes at least one step toward the end
        point and none past it, and stays on track. */
    lemma StepOnTrack(c: Cursor)
      requires OnTrack(c) && !AtEnd(c)
      ensures OnTrack(Step(c)) && Remaining(Step(c)) < Remaining(c)
      ensures Adjacent((c.x, c.y), (Step(c).x, Step(c).y))
      ensures XSteps(Step(c).x) + YSteps(Step(c).y) > XSteps(c.x) + YSteps(c.y)
    {
      var a, b := XSteps(c.x), YSteps(c.y);
      var dx, dy := Dx(), Dy();
      var err2 := 2 * c.err;
      NoStepPastEnd(c);
      var c1 := if err2 > -(dx as int) then Cursor(c.x + Sx(), c.y, c.err - dy) else c;
      if err2 > -(dx as int) {
        MulSucc(a, dy);
      }
      assert c1.err == Err0() + b * dx - XSteps(c1.x) * dy;
      var c2 := if err2 < dy then Cursor(c1.x, c1.y + Sy(), c1.err + dx) else c1;
      if err2 < dy {
        MulSucc(b, dx);
      }
      assert c2.err == Err0() + YSteps(c2.y) * dx - XSteps(c2.x) * dy;
    }

    /** Once the cursor has reached the end column it takes no x step, and once it
        has reached the end row no y step; at the end point itself it takes
        neither. */
    lemma NoStepPastEnd(c: Cursor)
      requires OnTrack(c) && !AtEnd(c)
      ensures XSteps(c.x) == Dx() ==> 2 * c.err <= -(Dx() as int)
      ensures YSteps(c.y) == Dy() ==> 2 * c.err >= Dy()
      ensures 2 * c.err > -(Dx() as int) || 2 * c.err < Dy()
    {
      var a, b := XSteps(c.x), YSteps(c.y);
      if a == Dx() {
        XBlocked(Err0(), c.err, b, Dx(), Dy());
      }
      if b == Dy() {
        YBlocked(Err0(), c.err, a, Dx(), Dy());
      }
    }
  }

  /** At the end column (a = dx) with rows still to go (b < dy), the error is too
      low for an x step. */
  lemma XBlocked(e0: int, err: int, b: int, dx: nat, dy: nat)
    requires err == e0 + b * dx - dx * dy && 0 <= b < dy && 2 * e0 <= dx
    ensures 2 * err <= -(dx as int)
  {
    MulMono(b, dy - 1, dx);
    MulSucc(dy - 1, dx);
    assert dy * dx == dx * dy;
  }

  /** At the end row (b = dy) with columns still to go (a < dx), the error is too
      high for a y step. */
  lemma YBlocked(e0: int, err: int, a: int, dx: nat, dy: nat)
    requires err == e0 + dy * dx - a * dy && 0 <= a < dx && -(dy as int) <= 2 * e0
    ensures 2 * err >= dy
  {
    MulMono(a, dx - 1, dy);
    MulSucc(dx - 1, dy);
  }

  /** Multiplying by a natural number is monotone. */
  lemma MulMono(a: int, b: int, n: nat)
    requires a <= b
    ensures a * n <= b * n
  {
  }

  /** The frame after painting the square of side w at p with `color`, its anchor
      pixel green when `green` is set (the first `put_pixel` of `draw_line`). */
  function PaintSquare(f: Frame, p: Point, w: nat, color: Rgb, green: bool): (r: Frame)
    requires f.Valid() && SquareFits(f.width, f.height, p, w)
    ensures r.Valid() && r.width == f.width && r.height == f.height
    ensures forall a, b | 0 <= a < f.width && 0 <= b < f.height ::
      r.At(a, b) == if !InSquare(p, w, a, b) then f.At(a, b) else if green && a == p.0 && b == p.1 then Green else color
  {
    Frame(f.width, f.height, seq(f.width, a requires 0 <= a < f.width =>
      seq(f.height, b requires 0 <= b < f.height =>
        if !InSquare(p, w, a, b) then f.At(a, b) else if green && a == p.0 && b == p.1 then Green else color)))
  }

  /** Every square of the trace fits in the frame. */
  ghost predicate TraceFits(width: nat, height: nat, t: seq<Point>, w: nat)
  {
    forall i | 0 <= i < |t| :: SquareFits(width, height, t[i], w)
  }

  /** The frame after painting a square at every point of t in turn; `first`
      stays set until the first pixel is painted. */
  ghost function Drawn(f: Frame, t: seq<Point>, w: nat, color: Rgb, first: bool): (r: Frame)
    requires f.Valid() && TraceFits(f.width, f.height, t, w)
    ensures r.Valid() && r.width == f.width && r.height == f.height
    decreases |t|
  {
    if |t| == 0 then f
    else Drawn(PaintSquare(f, t[0], w, color, first), t[1..], w, color, first && w == 0)
  }

  /** Some square of t covers (a, b). */
  ghost predicate CoveredBy(t: seq<Point>, w: nat, a: int, b: int)
    decreases |t|
  {
    |t| > 0 && (InSquare(t[0], w, a, b) || CoveredBy(t[1..], w, a, b))
  }

  /** A painted pixel is outside every square and unchanged, or the anchor of the
      first square covered by no later one and green, or `color`. */
  lemma {:induction false} DrawnPixel(f: Frame, t: seq<Point>, w: nat, color: Rgb, first: bool, a: nat, b: nat)
    requires f.Valid() && TraceFits(f.width, f.height, t, w) && a < f.width && b < f.height
    ensures Drawn(f, t, w, color, first).At(a, b) ==
      if !CoveredBy(t, w, a, b) then f.At(a, b)
      else if first && (a, b) == t[0] && !CoveredBy(t[1..], w, a, b) then Green
      else color
    decreases |t|
  {
    if |t| > 0 {
      var g := PaintSquare(f, t[0], w, color, first);
      assert TraceFits(g.width, g.height, t[1..], w);
      DrawnPixel(g, t[1..], w, color, first && w == 0, a, b);
      if first && w == 0 && CoveredBy(t[1..], w, a, b) {
        NothingCoveredByEmptySquares(t[1..], a, b);
      }
    }
  }

  /** Squares of side 0 cover nothing. */
  lemma {:induction false} NothingCoveredByEmptySquares(t: seq<Point>, a: int, b: int)
    ensures !CoveredBy(t, 0, a, b)
    decreases |t|
  {
    if |t| > 0 {
      NothingCoveredByEmptySquares(t[1..], a, b);
    }
  }

  /** Squares of side 1 cover exactly their anchors. */
  lemma {:induction false} UnitSquaresCoverPoints(t: seq<Point>, a: int, b: int)
    ensures CoveredBy(t, 1, a, b) <==> (a, b) in t
    decreases |t|
  {
    if |t| > 0 {
      UnitSquaresCoverPoints(t[1..], a, b);
      assert t == [t[0]] + t[1..];
    }
  }

  /** The points of a line's trace after the first all differ from it. */
  lemma TraceLeavesStart(l: Line)
    ensures l.Trace()[0] == (l.x0, l.y0)
    ensures (l.x0, l.y0) !in l.Trace()[1..]
  {
    l.StartOnTrack();
    l.TraceAdvances(l.Start());
    var t := l.Trace();
    forall i | 1 <= i < |t|
      ensures t[i] != (l.x0, l.y0)
    {
      assert l.XSteps(t[i].0) + l.YSteps(t[i].1) >= i;
    }
  }

  /** A line of width 1: its start pixel is green, the other points of its trace
      take `color`, and every other pixel is unchanged. */
  lemma ThinLine(f: Frame, l: Line, color: Rgb, a: nat, b: nat)
    requires f.Valid() && TraceFits(f.width, f.height, l.Trace(), 1) && a < f.width && b < f.height
    ensures Drawn(f, l.Trace(), 1, color, true).At(a, b) ==
      if (a, b) == (l.x0, l.y0) then Green else if (a, b) in l.Trace() then color else f.At(a, b)
  {
    var t := l.Trace();
    DrawnPixel(f, t, 1, color, true, a, b);
    UnitSquaresCoverPoints(t, a, b);
    UnitSquaresCoverPoints(t[1..], a, b);
    TraceLeavesStart(l);
  }

  /** What `draw_line` needs: coordinates small enough for exact i32 arithmetic
      (`as i32` and `2 * err`), and every square inside the image. */
  predicate LineFits(f: Frame, p1: (u32, u32), p2: (u32, u32), w: nat)
  {
    p1.0 < 0x4000_0000 && p1.1 < 0x4000_0000 && p2.0 < 0x4000_0000 && p2.1 < 0x4000_0000 &&
    (w >= 1 ==>
       p1.0 + w <= f.width && p2.0 + w <= f.width && p1.1 + w <= f.height && p2.1 + w <= f.height)
  }

  /** The squares of a fitting line fit. */
  lemma LineTraceFits(f: Frame, p1: (u32, u32), p2: (u32, u32), w: nat)
    requires LineFits(f, p1, p2, w)
    ensures TraceFits(f.width, f.height, Line(p1.0, p1.1, p2.0, p2.1).Trace(), w)
  {
    var l := Line(p1.0, p1.1, p2.0, p2.1);
    l.StartOnTrack();
    l.TraceAdvances(l.Start());
  }

  /** The frame `draw_line` leaves: the squares of the trace from p1 to p2
      painted in order, the very first pixel green. */
  ghost function LineDrawn(f: Frame, p1: (u32, u32), p2: (u32, u32), w: nat, color: Rgb): (r: Frame)
    requires f.Valid() && LineFits(f, p1, p2, w)
    ensures r.Valid() && r.width == f.width && r.height == f.height
  {
    LineTraceFits(f, p1, p2, w);
    Drawn(f, Line(p1.0, p1.1, p2.0, p2.1).Trace(), w, color, true)
  }

  /** `draw_line`: the buffer holding f ends up holding the squares of the trace
      painted in order. */
  method DrawLine(img: RgbImage, ghost f: Frame, p1: (u32, u32), p2: (u32, u32), color: Rgb, width: u32)
    requires Holds(img, f) && LineFits(f, p1, p2, width)
    modifies img
    ensures Holds(img, LineDrawn(f, p1, p2, width, color))
  {
    var x0: i32, y0: i32 := p1.0, p1.1;
    var x1: i32, y1: i32 := p2.0, p2.1;
    var dx: i32 := if x0 > x1 then x0 - x1 else x1 - x0;
    var dy: i32 := if y0 > y1 then y0 - y1 else y1 - y0;
    var sx: i32 := if x0 < x1 then 1 else -1;
    var sy: i32 := if y0 < y1 then 1 else -1;
    var err: i32 := TruncDiv(if dx > dy then dx else -dy, 2);
    ghost var l := Line(x0, y0, x1, y1);
    LoopStarts(img, f, p1, p2, width, color, x0, y0, err, x1, y1, dx, dy, sx, sy);
    DrawLoop(img, f, l, l.Start(), LineDrawn(f, p1, p2, width, color), x0, y0, err, x1, y1, dx, dy, sx, sy, width, color);
  }

  /** The loop of `draw_line`, from the start of line l with nothing painted yet:
      it ends with the buffer holding the finished drawing. */
  method DrawLoop(img: RgbImage, ghost f: Frame, ghost l: Line, ghost start: Cursor, ghost target: Frame,
                  x0: i32, y0: i32, err0: i32, x1: i32, y1: i32, dx: i32, dy: i32, sx: i32, sy: i32,
                  width: u32, color: Rgb)
    requires LoopVars(l, start, x0, y0, err0, x1, y1, dx, dy, sx, sy) && Drawing(img, l, start, f, width, color, true, target)
    modifies img
    ensures Holds(img, target)
  {
    var x, y, err, first := x0, y0, err0, true;
    ghost var c, g := start, f;
    var done := false;
    while true
      invariant LoopVars(l, c, x, y, err, x1, y1, dx, dy, sx, sy) && Drawing(img, l, c, g, width, color, first, target)
      decreases l.Remaining(c)
    {
      done, x, y, err, first, g := Pass(img, g, l, c, target, x, y, err, x1, y1, dx, dy, sx, sy, width, color, first);
      if done {
        break;
      }
      c := l.Step(c);
    }
  }

  /** One pass of the loop of `draw_line`: the square at the cursor is painted;
      at the end point the loop is done and the buffer holds the finished
      drawing, and otherwise the cursor takes one Bresenham step. */
  method Pass(img: RgbImage, ghost g: Frame, ghost l: Line, ghost c: Cursor, ghost target: Frame,
              x0: i32, y0: i32, err: i32, x1: i32, y1: i32, dx: i32, dy: i32, sx: i32, sy: i32,
              w: u32, color: Rgb, first: bool)
    returns (done: bool, x: i32, y: i32, e: i32, stillFirst: bool, ghost g': Frame)
    requires LoopVars(l, c, x0, y0, err, x1, y1, dx, dy, sx, sy) && Drawing(img, l, c, g, w, color, first, target)
    modifies img
    ensures done == l.AtEnd(c)
    ensures done ==> Holds(img, target)
    ensures !done ==>
      LoopVars(l, l.Step(c), x, y, e, x1, y1, dx, dy, sx, sy) && Drawing(img, l, l.Step(c), g', w, color, stillFirst, target) &&
      l.Remaining(l.Step(c)) < l.Remaining(c)
  {
    stillFirst, g' := PaintStep(img, g, l, c, target, x0, y0, w, color, first);
    x, y, e := x0, y0, err;
    if x0 == x1 && y0 == y1 {
      return true, x, y, e, stillFirst, g';
    }
    done := false;
    x, y, e := Advance(l, c, x0, y0, err, x1, y1, dx, dy, sx, sy);
  }

  /** The initialisation of `draw_line` puts the loop variables at the start of
      the line, before anything is painted: the buffer holds f, from which the
      whole trace is to be drawn. */
  lemma LoopStarts(img: RgbImage, f: Frame, p1: (u32, u32), p2: (u32, u32), w: nat, color: Rgb,
                   x0: int, y0: int, err: int, x1: int, y1: int, dx: int, dy: int, sx: int, sy: int)
    requires Holds(img, f) && LineFits(f, p1, p2, w)
    requires x0 == p1.0 && y0 == p1.1 && x1 == p2.0 && y1 == p2.1
    requires dx == (if x0 > x1 then x0 - x1 else x1 - x0) && dy == (if y0 > y1 then y0 - y1 else y1 - y0)
    requires sx == (if x0 < x1 then 1 else -1) && sy == (if y0 < y1 then 1 else -1)
    requires err == TruncDiv(if dx > dy then dx else -dy, 2)
    ensures var l := Line(x0, y0, x1, y1);
      LoopVars(l, l.Start(), x0, y0, err, x1, y1, dx, dy, sx, sy) &&
      Drawing(img, l, l.Start(), f, w, color, true, LineDrawn(f, p1, p2, w, color))
  {
    Line(x0, y0, x1, y1).StartOnTrack();
    LineTraceFits(f, p1, p2, w);
  }

  /** The state of the drawing loop at cursor c: the buffer holds g, and drawing
      the trace from c onto g gives `target`. */
  ghost predicate Drawing(img: RgbImage, l: Line, c: Cursor, g: Frame, w: nat, color: Rgb, first: bool, target: Frame)
    requires l.OnTrack(c)
    reads img
  {
    Holds(img, g) && TraceFits(g.width, g.height, l.TraceFrom(c), w) && Drawn(g, l.TraceFrom(c), w, color, first) == target
  }

  /** The loop variables of `draw_line` at cursor c of line l, with the constants
      derived from l and small enough for the i32 error arithmetic. */
  ghost predicate LoopVars(l: Line, c: Cursor, x: int, y: int, err: int, x1: int, y1: int, dx: int, dy: int, sx: int, sy: int)
  {
    l.OnTrack(c) && c == Cursor(x, y, err) && x1 == l.x1 && y1 == l.y1 &&
    dx == l.Dx() && dy == l.Dy() && sx == l.Sx() && sy == l.Sy() && dx < 0x4000_0000 && dy < 0x4000_0000
  }

  /** The square loops of one pass of `draw_line`, at the cursor c: at the end
      point the buffer holds the finished drawing, and otherwise the drawing
      state moves on to the next cursor. */
  method PaintStep(img: RgbImage, ghost g: Frame, ghost l: Line, ghost c: Cursor, ghost target: Frame,
                   x: i32, y: i32, w: u32, color: Rgb, first: bool)
    returns (stillFirst: bool, ghost g': Frame)
    requires l.OnTrack(c) && Drawing(img, l, c, g, w, color, first, target) && c.x == x && c.y == y
    modifies img
    ensures l.AtEnd(c) ==> Holds(img, target)
    ensures !l.AtEnd(c) ==> l.OnTrack(l.Step(c)) && Drawing(img, l, l.Step(c), g', w, color, stillFirst, target)
  {
    if l.AtEnd(c) {
      DrawnLast(g, l, c, w, color, first, target);
    } else {
      DrawnNext(g, l, c, w, color, first, target);
    }
    stillFirst := PaintSquareInPlace(img, g, x, y, w, color, first);
    g' := PaintSquare(g, (x, y), w, color, first);
  }

  /** The error update and the x and y steps at the end of the loop body: one
      Bresenham step, in i32 arithmetic that cannot overflow while dx and dy are
      below 2^30. */
  method Advance(ghost l: Line, ghost c: Cursor, x0: i32, y0: i32, err: i32, x1: i32, y1: i32,
                 dx: i32, dy: i32, sx: i32, sy: i32)
    returns (x: i32, y: i32, e: i32)
    requires LoopVars(l, c, x0, y0, err, x1, y1, dx, dy, sx, sy) && !l.AtEnd(c)
    ensures LoopVars(l, l.Step(c), x, y, e, x1, y1, dx, dy, sx, sy) && l.Remaining(l.Step(c)) < l.Remaining(c)
  {
    l.StepOnTrack(c);
    x, y, e := x0, y0, err;
    var err2: i32 := 2 * err;
    if err2 > -dx {
      e := e - dy;
      x := x + sx;
    }
    if err2 < dy {
      e := e + dx;
      y := y + sy;
    }
  }

  /** At the end point the trace from the cursor is that point alone: painting
      its square finishes the drawing. */
  lemma DrawnLast(g: Frame, l: Line, c: Cursor, w: nat, color: Rgb, first: bool, target: Frame)
    requires g.Valid() && l.OnTrack(c) && l.AtEnd(c) && TraceFits(g.width, g.height, l.TraceFrom(c), w)
    requires Drawn(g, l.TraceFrom(c), w, color, first) == target
    ensures SquareFits(g.width, g.height, (c.x, c.y), w)
    ensures PaintSquare(g, (c.x, c.y), w, color, first) == target
  {
    var t := l.TraceFrom(c);
    assert t == [(c.x, c.y)];
    assert SquareFits(g.width, g.height, t[0], w);
  }

  /** Before the end point, painting the square at the cursor leaves the rest of
      the trace, drawn from the next cursor, to end as the same drawing. */
  lemma DrawnNext(g: Frame, l: Line, c: Cursor, w: nat, color: Rgb, first: bool, target: Frame)
    requires g.Valid() && l.OnTrack(c) && !l.AtEnd(c) && TraceFits(g.width, g.height, l.TraceFrom(c), w)
    requires Drawn(g, l.TraceFrom(c), w, color, first) == target
    ensures SquareFits(g.width, g.height, (c.x, c.y), w) && l.OnTrack(l.Step(c))
    ensures TraceFits(g.width, g.height, l.TraceFrom(l.Step(c)), w)
    ensures Drawn(PaintSquare(g, (c.x, c.y), w, color, first), l.TraceFrom(l.Step(c)), w, color, first && w == 0) == target
  {
    var t := l.TraceFrom(c);
    assert SquareFits(g.width, g.height, t[0], w);
    l.StepOnTrack(c);
    assert t[1..] == l.TraceFrom(l.Step(c));
  }

  /** The two square loops of `draw_line` at (x, y): the first pixel painted is
      green while `first` is set, which it then no longer is. */
  method PaintSquareInPlace(img: RgbImage, ghost g: Frame, x: int, y: int, w: nat, color: Rgb, first: bool)
    returns (stillFirst: bool)
    requires Holds(img, g) && SquareFits(g.width, g.height, (x, y), w)
    modifies img
    ensures Holds(img, PaintSquare(g, (x, y), w, color, first))
    ensures stillFirst == (first && w == 0)
  {
    ghost var r := PaintSquare(g, (x, y), w, color, first);
    stillFirst := first;
    var ox := 0;
    while ox < w
      invariant 0 <= ox <= w
      invariant stillFirst == (first && ox == 0)
      invariant forall a, b | 0 <= a < g.width && 0 <= b < g.height ::
        img[a, b] == if x <= a < x + ox && y <= b < y + w then r.At(a, b) else g.At(a, b)
    {
      PaintColumn(img, x + ox, y, w, color, stillFirst);
      stillFirst := false;
      ox := ox + 1;
    }
  }

  /** The inner square loop: pixels (col, y) to (col, y + h - 1) take `color`,
      the first of them green when `green` is set. */
  method PaintColumn(img: RgbImage, col: int, y: int, h: nat, color: Rgb, green: bool)
    requires h >= 1 ==> 0 <= col < img.Length0 && 0 <= y && y + h <= img.Length1
    modifies img
    ensures forall a, b | 0 <= a < img.Length0 && 0 <= b < img.Length1 ::
      img[a, b] == if a == col && y <= b < y + h then (if green && b == y then Green else color) else old(img[a, b])
  {
    var oy := 0;
    while oy < h
      invariant 0 <= oy <= h
      invariant forall a, b | 0 <= a < img.Length0 && 0 <= b < img.Length1 ::
        img[a, b] == if a == col && y <= b < y + oy then (if green && b == y then Green else color) else old(img[a, b])
    {
      img[col, y + oy] := if green && oy == 0 then Green else color;
      oy := oy + 1;
    }
  }

  /** What `draw_rect` needs: a rectangle with any pixel at all lies inside the
      image (`put_pixel` panics outside it). */
  predicate RectFits(f: Frame, x: nat, y: nat, w: nat, h: nat)
  {
    w >= 1 && h >= 1 ==> x + w <= f.width && y + h <= f.height
  }

  /** The frame after `draw_rect`: the w x h rectangle at (x, y) takes `color`,
      every other pixel keeps its value. */
  function Rect(f: Frame, x: nat, y: nat, w: nat, h: nat, color: Rgb): (r: Frame)
    requires f.Valid() && RectFits(f, x, y, w, h)
    ensures r.Valid() && r.width == f.width && r.height == f.height
    ensures forall a, b | 0 <= a < f.width && 0 <= b < f.height ::
      r.At(a, b) == if x <= a < x + w && y <= b < y + h then color else f.At(a, b)
  {
    Frame(f.width, f.height, seq(f.width, a requires 0 <= a < f.width =>
      seq(f.height, b requires 0 <= b < f.height =>
        if x <= a < x + w && y <= b < y + h then color else f.At(a, b))))
  }

  /** A square painted without its green first pixel is a w x w rectangle. */
  lemma SquareIsRect(f: Frame, x: nat, y: nat, w: nat, color: Rgb)
    requires f.Valid() && SquareFits(f.width, f.height, (x, y), w)
    ensures RectFits(f, x, y, w, w)
    ensures PaintSquare(f, (x, y), w, color, false) == Rect(f, x, y, w, w, color)
  {
    var s, r := PaintSquare(f, (x, y), w, color, false), Rect(f, x, y, w, w, color);
    GridExtensionality(s.px, r.px, f.width, f.height);
  }

  /** Drawing the same rectangle twice leaves what drawing it once does. */
  lemma RectIdempotent(f: Frame, x: nat, y: nat, w: nat, h: nat, color: Rgb)
    requires f.Valid() && RectFits(f, x, y, w, h)
    ensures Rect(Rect(f, x, y, w, h, color), x, y, w, h, color) == Rect(f, x, y, w, h, color)
  {
    var once := Rect(f, x, y, w, h, color);
    GridExtensionality(Rect(once, x, y, w, h, color).px, once.px, f.width, f.height);
  }

  /** `draw_rect`: column by column, the buffer holding f ends up holding the
      rectangle drawn on f. */
  method DrawRect(img: RgbImage, ghost f: Frame, x: u32, y: u32, w: u32, h: u32, color: Rgb)
    requires Holds(img, f) && RectFits(f, x, y, w, h)
    modifies img
    ensures Holds(img, Rect(f, x, y, w, h, color))
  {
    var ox := 0;
    while ox < w
      invariant 0 <= ox <= w
      invariant forall a, b | 0 <= a < f.width && 0 <= b < f.height ::
        img[a, b] == if x <= a < x + ox && y <= b < y + h then color else f.At(a, b)
    {
      PaintColumn(img, x + ox, y, h, color, false);
      ox := ox + 1;
    }
  }
}
