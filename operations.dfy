/**
  Pixel primitives and border-replicating padding (vfi/src/operations.rs).
 */
module Operations {
  import opened Raster

  function Sq(a: int): (s: nat)
    ensures -255 <= a <= 255 ==> s <= 255 * 255
    ensures s == 0 <==> a == 0
  {
    var b: nat := if a < 0 then -a else a;
    SqFacts(b);
    b * b
  }

  lemma SqFacts(b: nat)
    ensures b <= 255 ==> b * b <= 255 * 255
    ensures b * b == 0 <==> b == 0
  {
    if 0 < b <= 255 {
      assert b * b <= 255 * b;
    }
  }

  lemma SqrtHalving(n: nat, h: nat)
    requires n >= 4 && h * h <= n / 4 < (h + 1) * (h + 1)
    ensures (2 * h) * (2 * h) <= n < (2 * h + 2) * (2 * h + 2)
  {
    assert (2 * h) * (2 * h) == 4 * (h * h);
    assert (2 * h + 2) * (2 * h + 2) == 4 * ((h + 1) * (h + 1));
  }

  /** `Roots::sqrt` on an unsigned integer: the floor of the square root. */
  function FloorSqrt(n: nat): (r: nat)
    ensures r * r <= n < (r + 1) * (r + 1)
  {
    if n == 0 then 0
    else if n < 4 then 1
    else
      var h := FloorSqrt(n / 4);
      SqrtHalving(n, h);
      var s := 2 * h;
      if (s + 1) * (s + 1) <= n then s + 1 else s
  }

  /** The sum of the squared channel differences of two pixels. */
  function SquaredDistance(p: Rgb, q: Rgb): (s: nat)
    ensures s <= 3 * 255 * 255
    ensures s == 0 <==> p == q
  {
    Sq(p.c0 - q.c0) + Sq(p.c1 - q.c1) + Sq(p.c2 - q.c2)
  }

  lemma SqrtBound(d: nat, s: nat)
    requires d * d <= s <= 3 * 255 * 255
    ensures d <= 441
  {
  }

  /** `pixel_difference`: the integer Euclidean distance of two pixels, as a u16. */
  function PixelDifference(p: Rgb, q: Rgb): (d: u16)
    ensures d * d <= SquaredDistance(p, q) < (d + 1) * (d + 1)
    ensures d <= 441
    ensures d == 0 <==> p == q
  {
    var r := FloorSqrt(SquaredDistance(p, q));
    SqrtBound(r, SquaredDistance(p, q));
    r
  }

  lemma PixelDifferenceSymmetric(p: Rgb, q: Rgb)
    ensures PixelDifference(p, q) == PixelDifference(q, p)
  {
    assert SquaredDistance(p, q) == SquaredDistance(q, p);
  }

  // ---------------------------------------------------------------------------
  // add_padding

  /** What add_padding needs so that neither `p + width - 1` nor `p + height - 1`
      underflows in a pass that runs. */
  ghost predicate PaddingDefined(img: Frame, p: nat)
  {
    img.Valid() &&
    (img.height == 0 || p + img.width >= 1) &&
    (img.width + 2 * p == 0 || p + img.height >= 1)
  }

  /** The new buffer after `copy_from(img, p, p)`: the frame at offset (p, p), black around it. */
  function Copied(img: Frame, p: nat, x: nat, y: nat): Rgb
    requires img.Valid()
  {
    if p <= x < p + img.width && p <= y < p + img.height then img.At(x - p, y - p) else Black
  }

  /** The buffer after the first pass, which fills the left and right margins of rows p..p+H. */
  function RowPassAt(img: Frame, p: nat, x: nat, y: nat): Rgb
    requires PaddingDefined(img, p)
  {
    if p <= y < p + img.height && x < p then Copied(img, p, p, y)
    else if p <= y < p + img.height && img.width + p <= x then Copied(img, p, p + img.width - 1, y)
    else Copied(img, p, x, y)
  }

  /** The buffer after the second pass, which copies rows p and p+H-1 into the top and bottom margins. */
  function PaddedAt(img: Frame, p: nat, x: nat, y: nat): Rgb
    requires PaddingDefined(img, p) && y < img.height + 2 * p
  {
    if y < p then RowPassAt(img, p, x, p)
    else if p + img.height <= y then RowPassAt(img, p, x, p + img.height - 1)
    else RowPassAt(img, p, x, y)
  }

  /** The padded image as a value. */
  ghost function Padded(img: Frame, p: nat): (out: Frame)
    requires PaddingDefined(img, p)
    ensures out.Valid() && out.width == img.width + 2 * p && out.height == img.height + 2 * p
    ensures forall x, y | 0 <= x < out.width && 0 <= y < out.height :: out.px[x][y] == PaddedAt(img, p, x, y)
  {
    Frame(img.width + 2 * p, img.height + 2 * p,
      seq(img.width + 2 * p, x requires 0 <= x =>
        seq(img.height + 2 * p, y requires 0 <= y < img.height + 2 * p => PaddedAt(img, p, x, y))))
  }

  function Clamp(v: int, n: nat): (c: nat)
    requires n >= 1
    ensures c < n
    ensures 0 <= v < n ==> c == v
  {
    if v < 0 then 0 else if v >= n then n - 1 else v
  }

  /** For a non-empty frame the padded pixel is the frame pixel nearest to it: the
      interior is a copy, each margin repeats the border pixel of its row or column,
      and each corner block repeats the frame's corner pixel. */
  lemma PaddingReplicatesNearest(img: Frame, p: nat, x: nat, y: nat)
    requires img.Valid() && img.width >= 1 && img.height >= 1
    requires x < img.width + 2 * p && y < img.height + 2 * p
    ensures PaddingDefined(img, p)
    ensures PaddedAt(img, p, x, y) == img.At(Clamp(x - p, img.width), Clamp(y - p, img.height))
  {
  }

  lemma PaddingInterior(img: Frame, p: nat, x: nat, y: nat)
    requires img.Valid() && x < img.width && y < img.height
    ensures PaddingDefined(img, p)
    ensures PaddedAt(img, p, p + x, p + y) == img.At(x, y)
  {
    PaddingReplicatesNearest(img, p, p + x, p + y);
  }

  lemma PaddingSides(img: Frame, p: nat, x: nat, y: nat)
    requires img.Valid() && img.width >= 1 && y < img.height && x < img.width + 2 * p
    ensures PaddingDefined(img, p)
    ensures x < p ==> PaddedAt(img, p, x, p + y) == img.At(0, y)
    ensures img.width + p <= x ==> PaddedAt(img, p, x, p + y) == img.At(img.width - 1, y)
  {
    PaddingReplicatesNearest(img, p, x, p + y);
  }

  lemma PaddingTopBottom(img: Frame, p: nat, x: nat, y: nat)
    requires img.Valid() && img.width >= 1 && img.height >= 1
    requires x < img.width + 2 * p && y < img.height + 2 * p
    ensures PaddingDefined(img, p)
    ensures y < p ==> PaddedAt(img, p, x, y) == PaddedAt(img, p, x, p)
    ensures img.height + p <= y ==> PaddedAt(img, p, x, y) == PaddedAt(img, p, x, p + img.height - 1)
  {
    PaddingReplicatesNearest(img, p, x, y);
    PaddingReplicatesNearest(img, p, x, p);
    PaddingReplicatesNearest(img, p, x, p + img.height - 1);
  }

  /** `add_padding`: a (W+2p)x(H+2p) buffer holding the frame at (p, p), with the
      left/right margins filled row by row and then the top/bottom margins column by column. */
  method AddPadding(img: Frame, p: u32) returns (out: RgbImage)
    requires PaddingDefined(img, p)
    requires img.width + 2 * p <= U32_MAX && img.height + 2 * p <= U32_MAX
    ensures fresh(out)
    ensures out.Length0 == img.width + 2 * p && out.Length1 == img.height + 2 * p
    ensures forall x, y | 0 <= x < out.Length0 && 0 <= y < out.Length1 :: out[x, y] == PaddedAt(img, p, x, y)
    ensures Holds(out, Padded(img, p))
  {
    var width, height := img.width, img.height;
    out := new Rgb[width + 2 * p, height + 2 * p]((x, y) =>
      if p <= x < p + width && p <= y < p + height then img.px[x - p][y - p] else Black);
    FillRowMargins(img, p, out);
    FillColumnMargins(img, p, out);
  }

  /** The first loop of add_padding (rows p..p+H, columns 0..p and W+p..W+2p). */
  method FillRowMargins(img: Frame, p: nat, out: RgbImage)
    requires PaddingDefined(img, p)
    requires out.Length0 == img.width + 2 * p && out.Length1 == img.height + 2 * p
    requires forall x, y | 0 <= x < out.Length0 && 0 <= y < out.Length1 :: out[x, y] == Copied(img, p, x, y)
    modifies out
    ensures forall x, y | 0 <= x < out.Length0 && 0 <= y < out.Length1 :: out[x, y] == RowPassAt(img, p, x, y)
  {
    var width, height := img.width, img.height;
    var y := p;
    while y < p + height
      invariant p <= y <= p + height
      invariant forall x', y' | 0 <= x' < out.Length0 && 0 <= y' < out.Length1 ::
        out[x', y'] == if p <= y' < y then RowPassAt(img, p, x', y') else Copied(img, p, x', y')
    {
      var left := out[p, y];
      var right := out[p + width - 1, y];
      var x := 0;
      while x < p
        invariant 0 <= x <= p
        invariant forall x', y' | 0 <= x' < out.Length0 && 0 <= y' < out.Length1 && y' != y ::
          out[x', y'] == if p <= y' < y then RowPassAt(img, p, x', y') else Copied(img, p, x', y')
        invariant forall x' | 0 <= x' < out.Length0 ::
          out[x', y] == if x' < x then left
                        else if width + p <= x' < width + p + x then right
                        else Copied(img, p, x', y)
      {
        out[x, y] := left;
        out[x + width + p, y] := right;
        x := x + 1;
      }
      y := y + 1;
    }
  }

  /** The second loop of add_padding (every column, rows 0..p and H+p..H+2p). */
  method FillColumnMargins(img: Frame, p: nat, out: RgbImage)
    requires PaddingDefined(img, p)
    requires out.Length0 == img.width + 2 * p && out.Length1 == img.height + 2 * p
    requires forall x, y | 0 <= x < out.Length0 && 0 <= y < out.Length1 :: out[x, y] == RowPassAt(img, p, x, y)
    modifies out
    ensures forall x, y | 0 <= x < out.Length0 && 0 <= y < out.Length1 :: out[x, y] == PaddedAt(img, p, x, y)
  {
    var width, height := img.width, img.height;
    var x := 0;
    while x < width + 2 * p
      invariant 0 <= x <= width + 2 * p
      invariant forall x', y' | 0 <= x' < out.Length0 && 0 <= y' < out.Length1 ::
        out[x', y'] == if x' < x then PaddedAt(img, p, x', y') else RowPassAt(img, p, x', y')
    {
      var top := out[x, p];
      var bottom := out[x, p + height - 1];
      var y := 0;
      while y < p
        invariant 0 <= y <= p
        invariant forall x', y' | 0 <= x' < out.Length0 && 0 <= y' < out.Length1 && x' != x ::
          out[x', y'] == if x' < x then PaddedAt(img, p, x', y') else RowPassAt(img, p, x', y')
        invariant forall y' | 0 <= y' < out.Length1 ::
          out[x, y'] == if y' < y then top
                        else if p + height <= y' < p + height + y then bottom
                        else RowPassAt(img, p, x, y')
      {
        out[x, y] := top;
        out[x, y + p + height] := bottom;
        y := y + 1;
      }
      x := x + 1;
    }
  }
}
