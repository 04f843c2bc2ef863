/**
  Frame compensation (vfi/src/compensator.rs): every pixel of the first frame
  is projected half-way along its flow vector, forward with its own colour and
  backward with the second frame's colour, blending with `pixel_average` where
  a target already holds a colour; pixels that stay black are then filled with
  the average of the two frames. The displacement of each pixel (the halved
  and rounded flow) and `pixel_average` are inputs.
 */
module Compensator {
  import opened Raster

  /** The whole-pixel displacement `(dx, dy)` of one pixel. */
  type Displacement = (i32, i32)

  /** `(c as i32 + d) as u32`: a coordinate moved by d, reinterpreted as u32. */
  function Target(c: nat, d: int): (t: u32)
    requires -0x1_0000_0000 <= c + d < 0x1_0000_0000
    ensures 0 <= c + d ==> t == c + d
    ensures c + d < 0 ==> t == c + d + 0x1_0000_0000
  {
    WrapU32(c + d)
  }

  /** A target below a bound of at most 2^31 is exactly a non-negative coordinate
      below it: the negative ones wrap to 2^31 or more and are skipped. */
  lemma TargetInBounds(c: nat, d: int, bound: nat)
    requires -0x8000_0000 <= c + d < 0x8000_0000 && bound <= 0x8000_0000
    ensures Target(c, d) < bound <==> 0 <= c + d < bound
  {
  }

  /** The i32 sums `j + dx`, `j - dx`, `i + dy` and `i - dy` do not overflow. */
  predicate NoOverflow(i: nat, j: nat, d: Displacement)
  {
    -0x8000_0000 <= j + d.0 < 0x8000_0000 && -0x8000_0000 <= j - d.0 < 0x8000_0000 &&
    -0x8000_0000 <= i + d.1 < 0x8000_0000 && -0x8000_0000 <= i - d.1 < 0x8000_0000
  }

  /** What `compensate` needs: the second frame covers the first, the coordinates
      are exact as i32, the displacement grid covers the frame row by row, and no
      target coordinate overflows. */
  ghost predicate CompensateFits(f1: Frame, f2: Frame, disp: seq<seq<Displacement>>)
  {
    f1.Valid() && f2.Valid() && f1.width <= f2.width && f1.height <= f2.height &&
    f1.width <= 0x8000_0000 && f1.height <= 0x8000_0000 &&
    |disp| >= f1.height &&
    (forall i | 0 <= i < f1.height :: |disp[i]| >= f1.width) &&
    (forall i, j | 0 <= i < f1.height && 0 <= j < f1.width :: NoOverflow(i, j, disp[i][j]))
  }

  /** The output being built has the first frame's dimensions. */
  ghost predicate Canvas(c: Frame, f1: Frame)
  {
    c.Valid() && c.width == f1.width && c.height == f1.height
  }

  /** Writing colour v at (x, y): a black pixel takes v, any other is averaged
      with `other`. */
  function Blend(c: Frame, x: nat, y: nat, v: Rgb, other: Rgb, avg: (Rgb, Rgb) -> Rgb): (r: Frame)
    requires c.Valid() && x < c.width && y < c.height
    ensures r.Valid() && r.width == c.width && r.height == c.height
    ensures c.At(x, y) == Black ==> r.At(x, y) == v
    ensures c.At(x, y) != Black ==> r.At(x, y) == avg(c.At(x, y), other)
    ensures forall a, b | 0 <= a < c.width && 0 <= b < c.height && (a != x || b != y) :: r.At(a, b) == c.At(a, b)
  {
    c.Put(x, y, if c.At(x, y) == Black then v else avg(c.At(x, y), other))
  }

  /** `(j + dx, i + dy)` as a target: when it lies in the image (the u32
      reinterpretation of a negative coordinate never does), it is blended with
      v; every other pixel stays. */
  function BlendAt(c: Frame, j: nat, dx: int, i: nat, dy: int, v: Rgb, other: Rgb, avg: (Rgb, Rgb) -> Rgb): (r: Frame)
    requires c.Valid() && c.width <= 0x8000_0000 && c.height <= 0x8000_0000
    requires -0x8000_0000 <= j + dx < 0x8000_0000 && -0x8000_0000 <= i + dy < 0x8000_0000
    ensures r.Valid() && r.width == c.width && r.height == c.height
    ensures 0 <= j + dx < c.width && 0 <= i + dy < c.height ==> r == Blend(c, j + dx, i + dy, v, other, avg)
    ensures !(0 <= j + dx < c.width && 0 <= i + dy < c.height) ==> r == c
  {
    var x := Target(j, dx);
    var y := Target(i, dy);
    TargetInBounds(j, dx, c.width);
    TargetInBounds(i, dy, c.height);
    if x < c.width && y < c.height then Blend(c, x, y, v, other, avg) else c
  }

  /** One iteration of the projection loop for pixel (j, i): the forward target
      `(j + dx, i + dy)` takes the first frame's pixel, then the backward target
      `(j - dx, i - dy)` takes the second frame's; nothing else changes. */
  function ProjectPixel(c: Frame, f1: Frame, f2: Frame, disp: seq<seq<Displacement>>, avg: (Rgb, Rgb) -> Rgb, i: nat, j: nat): (r: Frame)
    requires CompensateFits(f1, f2, disp) && Canvas(c, f1) && i < f1.height && j < f1.width
    ensures Canvas(r, f1)
    ensures var d := disp[i][j];
      forall x, y | 0 <= x < f1.width && 0 <= y < f1.height ::
        (x != j + d.0 || y != i + d.1) && (x != j - d.0 || y != i - d.1) ==> r.At(x, y) == c.At(x, y)
  {
    var d := disp[i][j];
    assert NoOverflow(i, j, d);
    var forward := BlendAt(c, j, d.0, i, d.1, f1.At(j, i), f2.At(j, i), avg);
    BlendAt(forward, j, -d.0, i, -d.1, f2.At(j, i), f2.At(j, i), avg)
  }

  /** The output after the projection loop has handled every row before i and
      the first j pixels of row i. */
  function ProjectedUpTo(f1: Frame, f2: Frame, disp: seq<seq<Displacement>>, avg: (Rgb, Rgb) -> Rgb, i: nat, j: nat): (r: Frame)
    requires CompensateFits(f1, f2, disp) && i <= f1.height && j <= f1.width && (j > 0 ==> i < f1.height)
    ensures Canvas(r, f1)
    decreases i, j
  {
    if j > 0 then ProjectPixel(ProjectedUpTo(f1, f2, disp, avg, i, j - 1), f1, f2, disp, avg, i, j - 1)
    else if i > 0 then ProjectedUpTo(f1, f2, disp, avg, i - 1, f1.width)
    else Blank(f1.width, f1.height)
  }

  /** The output after the whole projection loop. */
  function Projected(f1: Frame, f2: Frame, disp: seq<seq<Displacement>>, avg: (Rgb, Rgb) -> Rgb): (r: Frame)
    requires CompensateFits(f1, f2, disp)
    ensures Canvas(r, f1)
  {
    ProjectedUpTo(f1, f2, disp, avg, f1.height, 0)
  }

  /** The hole-filling loop: every pixel still black becomes the average of the
      two frames' pixels there; every other pixel stays. */
  function HoleFilled(c: Frame, f1: Frame, f2: Frame, avg: (Rgb, Rgb) -> Rgb): (r: Frame)
    requires f1.Valid() && f2.Valid() && f1.width <= f2.width && f1.height <= f2.height
    requires Canvas(c, f1)
    ensures Canvas(r, f1)
    ensures forall x, y | 0 <= x < f1.width && 0 <= y < f1.height ::
      r.At(x, y) == if c.At(x, y) == Black then avg(f1.At(x, y), f2.At(x, y)) else c.At(x, y)
  {
    Frame(c.width, c.height, seq(c.width, x requires 0 <= x < c.width =>
      seq(c.height, y requires 0 <= y < c.height =>
        if c.At(x, y) == Black then avg(f1.At(x, y), f2.At(x, y)) else c.At(x, y))))
  }

  /** `compensate` as a value. */
  function Compensated(f1: Frame, f2: Frame, disp: seq<seq<Displacement>>, avg: (Rgb, Rgb) -> Rgb): (r: Frame)
    requires CompensateFits(f1, f2, disp)
    ensures Canvas(r, f1)
  {
    HoleFilled(Projected(f1, f2, disp, avg), f1, f2, avg)
  }

  /** `compensate`: a new image of the first frame's dimensions. */
  method Compensate(f1: Frame, f2: Frame, disp: seq<seq<Displacement>>, avg: (Rgb, Rgb) -> Rgb) returns (img: RgbImage)
    requires CompensateFits(f1, f2, disp)
    ensures fresh(img) && Holds(img, Compensated(f1, f2, disp, avg))
  {
    var width, height := f1.width, f1.height;
    img := new Rgb[width, height]((_, _) => Black);
    assert ProjectedUpTo(f1, f2, disp, avg, 0, 0) == Blank(width, height);
    var i := 0;
    while i < height
      invariant 0 <= i <= height
      invariant Holds(img, ProjectedUpTo(f1, f2, disp, avg, i, 0))
    {
      ProjectRow(img, f1, f2, disp, avg, i);
      i := i + 1;
    }
    FillHoles(img, f1, f2, avg, Projected(f1, f2, disp, avg));
  }

  /** One iteration of the outer projection loop: row i. */
  method ProjectRow(img: RgbImage, f1: Frame, f2: Frame, disp: seq<seq<Displacement>>, avg: (Rgb, Rgb) -> Rgb, i: nat)
    requires CompensateFits(f1, f2, disp) && i < f1.height && Holds(img, ProjectedUpTo(f1, f2, disp, avg, i, 0))
    modifies img
    ensures Holds(img, ProjectedUpTo(f1, f2, disp, avg, i + 1, 0))
  {
    var j := 0;
    while j < f1.width
      invariant 0 <= j <= f1.width
      invariant Holds(img, ProjectedUpTo(f1, f2, disp, avg, i, j))
    {
      ProjectPixelInPlace(img, f1, f2, disp, avg, i, j, ProjectedUpTo(f1, f2, disp, avg, i, j));
      j := j + 1;
    }
    assert ProjectedUpTo(f1, f2, disp, avg, i + 1, 0) == ProjectedUpTo(f1, f2, disp, avg, i, f1.width);
  }

  /** The body of the projection loop for pixel (j, i), on the output buffer. */
  method ProjectPixelInPlace(img: RgbImage, f1: Frame, f2: Frame, disp: seq<seq<Displacement>>, avg: (Rgb, Rgb) -> Rgb,
                             i: nat, j: nat, ghost c: Frame)
    requires CompensateFits(f1, f2, disp) && Canvas(c, f1) && Holds(img, c) && i < f1.height && j < f1.width
    modifies img
    ensures Holds(img, ProjectPixel(c, f1, f2, disp, avg, i, j))
  {
    var dx, dy := disp[i][j].0, disp[i][j].1;
    assert NoOverflow(i, j, disp[i][j]);
    BlendInPlace(img, c, j, dx, i, dy, f1.At(j, i), f2.At(j, i), avg);
    BlendInPlace(img, BlendAt(c, j, dx, i, dy, f1.At(j, i), f2.At(j, i), avg), j, -dx, i, -dy, f2.At(j, i), f2.At(j, i), avg);
  }

  /** One in-bounds check and `put_pixel` of the projection loop. */
  method BlendInPlace(img: RgbImage, ghost c: Frame, j: nat, dx: int, i: nat, dy: int, v: Rgb, other: Rgb, avg: (Rgb, Rgb) -> Rgb)
    requires Holds(img, c) && c.width <= 0x8000_0000 && c.height <= 0x8000_0000
    requires -0x8000_0000 <= j + dx < 0x8000_0000 && -0x8000_0000 <= i + dy < 0x8000_0000
    modifies img
    ensures Holds(img, BlendAt(c, j, dx, i, dy, v, other, avg))
  {
    var x, y := Target(j, dx), Target(i, dy);
    TargetInBounds(j, dx, c.width);
    TargetInBounds(i, dy, c.height);
    if x < img.Length0 && y < img.Length1 {
      if img[x, y] == Black {
        PutPixel(img, c, x, y, v);
      } else {
        PutPixel(img, c, x, y, avg(img[x, y], other));
      }
    }
  }

  /** The hole-filling loop, in place. */
  method FillHoles(img: RgbImage, f1: Frame, f2: Frame, avg: (Rgb, Rgb) -> Rgb, ghost c: Frame)
    requires f1.Valid() && f2.Valid() && f1.width <= f2.width && f1.height <= f2.height
    requires Canvas(c, f1) && Holds(img, c)
    modifies img
    ensures Holds(img, HoleFilled(c, f1, f2, avg))
  {
    var width, height := f1.width, f1.height;
    var i := 0;
    while i < height
      invariant 0 <= i <= height
      invariant forall x, y | 0 <= x < width && 0 <= y < height ::
        img[x, y] == if y < i then HoleFilled(c, f1, f2, avg).At(x, y) else c.At(x, y)
    {
      var j := 0;
      while j < width
        invariant 0 <= j <= width
        invariant forall x, y | 0 <= x < width && 0 <= y < height ::
          img[x, y] == if y < i || (y == i && x < j) then HoleFilled(c, f1, f2, avg).At(x, y) else c.At(x, y)
      {
        if img[j, i] == Black {
          img[j, i] := avg(f1.At(j, i), f2.At(j, i));
        }
        j := j + 1;
      }
      i := i + 1;
    }
  }

  /** Filling the holes twice fills nothing more. */
  lemma HoleFillIdempotent(c: Frame, f1: Frame, f2: Frame, avg: (Rgb, Rgb) -> Rgb)
    requires f1.Valid() && f2.Valid() && f1.width <= f2.width && f1.height <= f2.height && Canvas(c, f1)
    ensures HoleFilled(HoleFilled(c, f1, f2, avg), f1, f2, avg) == HoleFilled(c, f1, f2, avg)
  {
    var once := HoleFilled(c, f1, f2, avg);
    var twice := HoleFilled(once, f1, f2, avg);
    GridExtensionality(twice.px, once.px, c.width, c.height);
  }

  /** The colour pixel (x, y) ends up with when every displacement is zero and
      before the holes are filled: the first frame's pixel is written, then
      blended with the second's unless it was black. */
  function OwnProjection(f1: Frame, f2: Frame, avg: (Rgb, Rgb) -> Rgb, x: nat, y: nat): Rgb
    requires f1.Valid() && f2.Valid() && x < f1.width && y < f1.height && f1.width <= f2.width && f1.height <= f2.height
  {
    if f1.At(x, y) == Black then f2.At(x, y) else avg(f1.At(x, y), f2.At(x, y))
  }

  /** With zero displacements each pixel is projected only onto itself. */
  lemma {:induction false} ZeroDisplacementProjection(f1: Frame, f2: Frame, disp: seq<seq<Displacement>>, avg: (Rgb, Rgb) -> Rgb, i: nat, j: nat)
    requires CompensateFits(f1, f2, disp) && i <= f1.height && j <= f1.width && (j > 0 ==> i < f1.height)
    requires forall k, l | 0 <= k < f1.height && 0 <= l < f1.width :: disp[k][l] == (0, 0)
    ensures forall x, y | 0 <= x < f1.width && 0 <= y < f1.height ::
      ProjectedUpTo(f1, f2, disp, avg, i, j).At(x, y) ==
        if y < i || (y == i && x < j) then OwnProjection(f1, f2, avg, x, y) else Black
    decreases i, j
  {
    if j > 0 {
      ZeroDisplacementProjection(f1, f2, disp, avg, i, j - 1);
      var c := ProjectedUpTo(f1, f2, disp, avg, i, j - 1);
      var v1, v2 := f1.At(j - 1, i), f2.At(j - 1, i);
      var c1 := BlendAt(c, j - 1, 0, i, 0, v1, v2, avg);
      assert c1 == Blend(c, j - 1, i, v1, v2, avg);
      assert ProjectedUpTo(f1, f2, disp, avg, i, j) == Blend(c1, j - 1, i, v2, v2, avg) by {
        assert disp[i][j - 1] == (0, 0);
      }
    } else if i > 0 {
      ZeroDisplacementProjection(f1, f2, disp, avg, i - 1, f1.width);
    }
  }

  /** With zero displacement everywhere, a pixel whose first-frame colour is not
      black comes out as the average of the two frames' pixels; one whose
      first-frame colour is black takes the second frame's colour, or the
      average when that is black too. */
  lemma ZeroDisplacementBlends(f1: Frame, f2: Frame, disp: seq<seq<Displacement>>, avg: (Rgb, Rgb) -> Rgb)
    requires CompensateFits(f1, f2, disp)
    requires forall k, l | 0 <= k < f1.height && 0 <= l < f1.width :: disp[k][l] == (0, 0)
    ensures forall x, y | 0 <= x < f1.width && 0 <= y < f1.height ::
      Compensated(f1, f2, disp, avg).At(x, y) ==
        if f1.At(x, y) != Black || f2.At(x, y) == Black then avg(f1.At(x, y), f2.At(x, y)) else f2.At(x, y)
  {
    ZeroDisplacementProjection(f1, f2, disp, avg, f1.height, 0);
  }
}
