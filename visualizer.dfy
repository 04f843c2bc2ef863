/**
  The vector-field picture of a flow (vfi/src/visualizer.rs): on a black image
  of `block_size` pixels per cell, every non-zero vector becomes a green line of
  width 1 from the centre of its cell towards its end point, clamped into the
  image, with a blue start pixel and a red end pixel.
 */
module Visualizer {
  import opened Raster
  import opened Plotter

  /** What `visualize_as_vector_field` needs: a first row to take the width from
      (`vf[0]`), an image small enough for the i32 line arithmetic, and for each
      non-zero cell a positive block size (`width - 1` is a u32 subtraction) and
      a column the image reaches (its start pixel is put in the image). */
  predicate FieldFits(vf: Flow, bs: nat)
  {
    |vf| >= 1 && Span(|vf|, bs) < 0x4000_0000 && Span(|vf[0]|, bs) < 0x4000_0000 &&
    forall i, j | 0 <= i < |vf| && 0 <= j < |vf[i]| && vf[i][j] != Zero :: bs >= 1 && j < |vf[0]|
  }

  /** The pixels spanned by n blocks of bs pixels each. */
  function Span(n: nat, bs: nat): nat
  {
    if n == 0 then 0 else Span(n - 1, bs) + bs
  }

  /** n blocks of bs pixels span n * bs pixels. */
  lemma {:induction false} SpanIsProduct(n: nat, bs: nat)
    ensures Span(n, bs) == n * bs
  {
    if n > 0 {
      SpanIsProduct(n - 1, bs);
      assert n * bs == (n - 1) * bs + bs;
    }
  }

  /** More blocks span at least as many pixels. */
  lemma {:induction false} SpanMono(m: nat, n: nat, bs: nat)
    requires m <= n
    ensures Span(m, bs) <= Span(n, bs)
    decreases n
  {
    if m < n {
      SpanMono(m, n - 1, bs);
    }
  }

  /** `vf[0].len() * block_size` */
  function Width(vf: Flow, bs: nat): nat
    requires |vf| >= 1
  {
    Span(|vf[0]|, bs)
  }

  /** `vf.len() * block_size` */
  function Height(vf: Flow, bs: nat): nat
  {
    Span(|vf|, bs)
  }

  /** The cell (i, j) holds a vector that is drawn. */
  predicate Drawable(vf: Flow, i: int, j: int)
  {
    0 <= i < |vf| && 0 <= j < |vf[i]| && vf[i][j] != Zero
  }

  /** (sx, sy): the centre of cell (i, j), rounded down. */
  function Start(i: nat, j: nat, bs: nat): (nat, nat)
  {
    (Span(j, bs) + bs / 2, Span(i, bs) + bs / 2)
  }

  /** `v.clamp(lo, hi)`, which panics unless lo <= hi. */
  function ClampTo(v: int, lo: int, hi: int): (c: int)
    requires lo <= hi
    ensures lo <= c <= hi
    ensures lo <= v <= hi ==> c == v
    ensures v < lo ==> c == lo
    ensures hi < v ==> c == hi
  {
    if v < lo then lo else if v > hi then hi else v
  }

  /** (ex, ey): the start moved by the vector and clamped into the image. */
  function End(s: (nat, nat), v: Vector, width: nat, height: nat): (e: (nat, nat))
    requires width >= 1 && height >= 1
    ensures e.0 < width && e.1 < height
  {
    (ClampTo(s.0 + v.0, 0, width - 1), ClampTo(s.1 + v.1, 0, height - 1))
  }

  /** The start of a drawn cell is a pixel of the image. */
  lemma StartInside(vf: Flow, bs: nat, i: nat, j: nat)
    requires FieldFits(vf, bs) && Drawable(vf, i, j)
    ensures bs >= 1 && j < |vf[0]|
    ensures Start(i, j, bs).0 < Width(vf, bs) && Start(i, j, bs).1 < Height(vf, bs)
  {
    SpanMono(j + 1, |vf[0]|, bs);
    SpanMono(i + 1, |vf|, bs);
  }

  /** The start point of the non-zero cell (i, j), inside the image. */
  function CellStart(vf: Flow, bs: nat, i: nat, j: nat): (s: (nat, nat))
    requires FieldFits(vf, bs) && Drawable(vf, i, j)
    ensures s.0 < Width(vf, bs) && s.1 < Height(vf, bs)
  {
    StartInside(vf, bs, i, j);
    Start(i, j, bs)
  }

  /** The end point of the non-zero cell (i, j), inside the image. */
  function CellEnd(vf: Flow, bs: nat, i: nat, j: nat): (e: (nat, nat))
    requires FieldFits(vf, bs) && Drawable(vf, i, j)
    ensures e.0 < Width(vf, bs) && e.1 < Height(vf, bs)
  {
    StartInside(vf, bs, i, j);
    End(Start(i, j, bs), vf[i][j], Width(vf, bs), Height(vf, bs))
  }

  /** The frame after drawing the non-zero cell (i, j) on f: its line, then the
      blue start pixel, then the red end pixel. */
  ghost function CellDrawn(f: Frame, vf: Flow, bs: nat, i: nat, j: nat): (r: Frame)
    requires FieldFits(vf, bs) && Drawable(vf, i, j)
    requires f.Valid() && f.width == Width(vf, bs) && f.height == Height(vf, bs)
    ensures r.Valid() && r.width == f.width && r.height == f.height
  {
    StartInside(vf, bs, i, j);
    var s, e := CellStart(vf, bs, i, j), CellEnd(vf, bs, i, j);
    LineDrawn(f, s, e, 1, Green).Put(s.0, s.1, Blue).Put(e.0, e.1, Red)
  }

  /** The points of the line drawn for the non-zero cell (i, j). */
  ghost function CellTrace(vf: Flow, bs: nat, i: nat, j: nat): seq<Point>
    requires FieldFits(vf, bs) && Drawable(vf, i, j)
  {
    StartInside(vf, bs, i, j);
    var s, e := CellStart(vf, bs, i, j), CellEnd(vf, bs, i, j);
    Line(s.0, s.1, e.0, e.1).Trace()
  }

  /** The frame after the inner loop of row i has handled its first j cells. */
  ghost function RowDrawn(f: Frame, vf: Flow, bs: nat, i: nat, j: nat): (r: Frame)
    requires FieldFits(vf, bs) && i < |vf| && j <= |vf[i]|
    requires f.Valid() && f.width == Width(vf, bs) && f.height == Height(vf, bs)
    ensures r.Valid() && r.width == f.width && r.height == f.height
    decreases j
  {
    if j == 0 then f
    else
      var g := RowDrawn(f, vf, bs, i, j - 1);
      if vf[i][j - 1] == Zero then g else CellDrawn(g, vf, bs, i, j - 1)
  }

  /** The frame after the outer loop has handled the first i rows. */
  ghost function RowsDrawn(vf: Flow, bs: nat, i: nat): (r: Frame)
    requires FieldFits(vf, bs) && i <= |vf|
    ensures r.Valid() && r.width == Width(vf, bs) && r.height == Height(vf, bs)
  {
    if i == 0 then Blank(Width(vf, bs), Height(vf, bs))
    else RowDrawn(RowsDrawn(vf, bs, i - 1), vf, bs, i - 1, |vf[i - 1]|)
  }

  /** The picture of the whole field. */
  ghost function Visualized(vf: Flow, bs: nat): (r: Frame)
    requires FieldFits(vf, bs)
    ensures r.Valid() && r.width == Width(vf, bs) && r.height == Height(vf, bs)
  {
    RowsDrawn(vf, bs, |vf|)
  }

  /** After a non-zero cell is drawn, its end pixel is red, its start pixel blue
      unless the end covers it, the rest of its line green, and every other
      pixel as before. */
  lemma CellPixels(f: Frame, vf: Flow, bs: nat, i: nat, j: nat, a: nat, b: nat)
    requires FieldFits(vf, bs) && Drawable(vf, i, j)
    requires f.Valid() && f.width == Width(vf, bs) && f.height == Height(vf, bs)
    requires a < f.width && b < f.height
    ensures var s, e := CellStart(vf, bs, i, j), CellEnd(vf, bs, i, j);
      CellDrawn(f, vf, bs, i, j).At(a, b) ==
        if (a, b) == e then Red
        else if (a, b) == s then Blue
        else if (a, b) in CellTrace(vf, bs, i, j) then Green
        else f.At(a, b)
  {
    StartInside(vf, bs, i, j);
    var s := CellStart(vf, bs, i, j);
    var e := CellEnd(vf, bs, i, j);
    var l := Line(s.0, s.1, e.0, e.1);
    LineTraceFits(f, s, e, 1);
    ThinLine(f, l, Green, a, b);
    CellOverLine(f, vf, bs, i, j, a, b);
  }

  /** The cell's frame is its line's frame with the start pixel blue and then
      the end pixel red. */
  lemma CellOverLine(f: Frame, vf: Flow, bs: nat, i: nat, j: nat, a: nat, b: nat)
    requires FieldFits(vf, bs) && Drawable(vf, i, j)
    requires f.Valid() && f.width == Width(vf, bs) && f.height == Height(vf, bs)
    requires a < f.width && b < f.height
    ensures var s, e := CellStart(vf, bs, i, j), CellEnd(vf, bs, i, j);
      LineFits(f, s, e, 1) &&
      CellDrawn(f, vf, bs, i, j).At(a, b) ==
        if (a, b) == e then Red else if (a, b) == s then Blue else LineDrawn(f, s, e, 1, Green).At(a, b)
  {
    StartInside(vf, bs, i, j);
  }

  /** The start and the end of a cell's line are points of its trace. */
  lemma CellTraceEnds(vf: Flow, bs: nat, i: nat, j: nat)
    requires FieldFits(vf, bs) && Drawable(vf, i, j)
    ensures CellStart(vf, bs, i, j) in CellTrace(vf, bs, i, j) && CellEnd(vf, bs, i, j) in CellTrace(vf, bs, i, j)
  {
    StartInside(vf, bs, i, j);
    var s := CellStart(vf, bs, i, j);
    var e := CellEnd(vf, bs, i, j);
    var l := Line(s.0, s.1, e.0, e.1);
    l.StartOnTrack();
    var t := l.TraceFrom(l.Start());
    assert t[0] == s && t[|t| - 1] == e;
  }

  /** Pixel (a, b) is off the line of cell (i, j), if that cell is drawn at all. */
  ghost predicate OffCell(vf: Flow, bs: nat, i: nat, j: nat, a: nat, b: nat)
    requires FieldFits(vf, bs)
  {
    Drawable(vf, i, j) ==> (a, b) !in CellTrace(vf, bs, i, j)
  }

  /** A pixel on no drawn line keeps what it had before row i's first j cells. */
  lemma RowLeavesPixel(f: Frame, vf: Flow, bs: nat, i: nat, j: nat, a: nat, b: nat)
    requires FieldFits(vf, bs) && i < |vf| && j <= |vf[i]|
    requires f.Valid() && f.width == Width(vf, bs) && f.height == Height(vf, bs)
    requires a < f.width && b < f.height
    requires forall k | 0 <= k < j :: OffCell(vf, bs, i, k, a, b)
    ensures RowDrawn(f, vf, bs, i, j).At(a, b) == f.At(a, b)
  {
    var k := 0;
    while k < j
      invariant k <= j && RowDrawn(f, vf, bs, i, k).At(a, b) == f.At(a, b)
    {
      k := k + 1;
      RowStepKeeps(f, vf, bs, i, k, a, b);
    }
  }

  /** Handling cell (i, j - 1) of the row leaves a pixel off its line as it was. */
  lemma RowStepKeeps(f: Frame, vf: Flow, bs: nat, i: nat, j: nat, a: nat, b: nat)
    requires FieldFits(vf, bs) && i < |vf| && 1 <= j <= |vf[i]|
    requires f.Valid() && f.width == Width(vf, bs) && f.height == Height(vf, bs)
    requires a < f.width && b < f.height && OffCell(vf, bs, i, j - 1, a, b)
    ensures RowDrawn(f, vf, bs, i, j).At(a, b) == RowDrawn(f, vf, bs, i, j - 1).At(a, b)
  {
    if vf[i][j - 1] != Zero {
      CellKeepsPixel(RowDrawn(f, vf, bs, i, j - 1), vf, bs, i, j - 1, a, b);
    }
  }

  /** A non-zero cell leaves every pixel off its line as it was. */
  lemma CellKeepsPixel(f: Frame, vf: Flow, bs: nat, i: nat, j: nat, a: nat, b: nat)
    requires FieldFits(vf, bs) && Drawable(vf, i, j)
    requires f.Valid() && f.width == Width(vf, bs) && f.height == Height(vf, bs)
    requires a < f.width && b < f.height && (a, b) !in CellTrace(vf, bs, i, j)
    ensures CellDrawn(f, vf, bs, i, j).At(a, b) == f.At(a, b)
  {
    CellTraceEnds(vf, bs, i, j);
    CellPixels(f, vf, bs, i, j, a, b);
  }

  /** A pixel that no non-zero vector's line passes through stays black. */
  lemma UntouchedPixelIsBlack(vf: Flow, bs: nat, n: nat, a: nat, b: nat)
    requires FieldFits(vf, bs) && n <= |vf| && a < Width(vf, bs) && b < Height(vf, bs)
    requires forall i, j | 0 <= i < n :: OffCell(vf, bs, i, j, a, b)
    ensures RowsDrawn(vf, bs, n).At(a, b) == Black
  {
    var k := 0;
    while k < n
      invariant k <= n && RowsDrawn(vf, bs, k).At(a, b) == Black
    {
      RowLeavesPixel(RowsDrawn(vf, bs, k), vf, bs, k, |vf[k]|, a, b);
      k := k + 1;
    }
  }

  /** A field of zero vectors is drawn as a black image. */
  lemma ZeroFieldIsBlack(vf: Flow, bs: nat)
    requires FieldFits(vf, bs)
    requires forall i, j | 0 <= i < |vf| && 0 <= j < |vf[i]| :: vf[i][j] == Zero
    ensures Visualized(vf, bs) == Blank(Width(vf, bs), Height(vf, bs))
  {
    var v, z := Visualized(vf, bs), Blank(Width(vf, bs), Height(vf, bs));
    forall a, b | 0 <= a < v.width && 0 <= b < v.height
      ensures v.px[a][b] == z.px[a][b]
    {
      UntouchedPixelIsBlack(vf, bs, |vf|, a, b);
    }
    GridExtensionality(v.px, z.px, v.width, v.height);
  }

  /** The end pixel of the last non-zero cell is red in the finished picture. */
  lemma LastEndIsRed(vf: Flow, bs: nat)
    requires FieldFits(vf, bs)
    requires var i := |vf| - 1; |vf[i]| >= 1 && vf[i][|vf[i]| - 1] != Zero
    ensures var i := |vf| - 1; var e := CellEnd(vf, bs, i, |vf[i]| - 1);
      Visualized(vf, bs).At(e.0, e.1) == Red
  {
    var i := |vf| - 1;
    var j := |vf[i]| - 1;
    StartInside(vf, bs, i, j);
    var e := CellEnd(vf, bs, i, j);
    CellPixels(RowDrawn(RowsDrawn(vf, bs, i), vf, bs, i, j), vf, bs, i, j, e.0, e.1);
  }

  /** `ImageBuffer::new(width, height)` */
  method NewImage(width: u32, height: u32) returns (img: RgbImage)
    ensures fresh(img) && Holds(img, Blank(width, height))
  {
    img := new Rgb[width, height]((_, _) => Black);
  }

  /** `visualize_as_vector_field`: a new image of `vf[0].len() * block_size` by
      `vf.len() * block_size` pixels holding the picture of the field. */
  method VisualizeAsVectorField(vf: Flow, bs: u32) returns (img: RgbImage)
    requires FieldFits(vf, bs)
    ensures fresh(img) && Holds(img, Visualized(vf, bs))
    ensures img.Length0 == |vf[0]| * bs && img.Length1 == |vf| * bs
  {
    SpanIsProduct(|vf|, bs);
    SpanIsProduct(|vf[0]|, bs);
    var height: u32, width: u32 := |vf| * bs, |vf[0]| * bs;
    img := NewImage(width, height);
    for i := 0 to |vf|
      invariant Holds(img, RowsDrawn(vf, bs, i))
    {
      ghost var row := RowsDrawn(vf, bs, i);
      for j := 0 to |vf[i]|
        invariant Holds(img, RowDrawn(row, vf, bs, i, j))
      {
        if vf[i][j] == Zero {
          continue;
        }
        DrawCell(img, RowDrawn(row, vf, bs, i, j), vf, bs, i, j, width, height);
      }
    }
  }

  /** The body of the inner loop for a non-zero cell: the line from the start to
      the clamped end, then the blue and red pixels. */
  method DrawCell(img: RgbImage, ghost g: Frame, vf: Flow, bs: u32, i: nat, j: nat, width: u32, height: u32)
    requires FieldFits(vf, bs) && Drawable(vf, i, j)
    requires Holds(img, g) && width == Width(vf, bs) && height == Height(vf, bs)
    requires g.width == width && g.height == height
    modifies img
    ensures Holds(img, CellDrawn(g, vf, bs, i, j))
  {
    StartInside(vf, bs, i, j);
    SpanIsProduct(j, bs);
    SpanIsProduct(i, bs);
    var sx: u32 := j * bs + bs / 2;
    var sy: u32 := i * bs + bs / 2;
    var ex: u32 := ClampTo(sx + vf[i][j].0, 0, width - 1);
    var ey: u32 := ClampTo(sy + vf[i][j].1, 0, height - 1);
    assert (sx, sy) == CellStart(vf, bs, i, j) && (ex, ey) == CellEnd(vf, bs, i, j);
    assert LineFits(g, (sx, sy), (ex, ey), 1);
    DrawLine(img, g, (sx, sy), (ex, ey), Green, 1);
    ghost var line := LineDrawn(g, (sx, sy), (ex, ey), 1, Green);
    PutPixel(img, line, sx, sy, Blue);
    PutPixel(img, line.Put(sx, sy, Blue), ex, ey, Red);
  }
}
