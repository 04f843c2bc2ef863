/**
  Edge detection by convolution (vfi/src/estimator/combinator/conv_edges.rs):
  every interior pixel becomes the clamped response of the sum of a horizontal
  and a vertical 3x3 gradient kernel on channel 0 of its neighbourhood, written
  to all three channels; the one-pixel border becomes black. The result is
  built in a separate buffer and copied back, so every read sees the input.
 */
module ConvEdges {
  import opened Raster

  /** `filter_1`, the horizontal gradient, and `filter_2`, the vertical one;
      row fi, column fj weighs the neighbour (x + fj - 1, y + fi - 1). */
  const Filter1: seq<seq<int>> := [[-1, 0, 1], [-1, 0, 1], [-1, 0, 1]]
  const Filter2: seq<seq<int>> := [[-1, -1, -1], [0, 0, 0], [1, 1, 1]]

  /** (x, y) has all eight neighbours inside the frame. */
  predicate Interior(f: Frame, x: nat, y: nat)
  {
    1 <= x && x + 1 < f.width && 1 <= y && y + 1 < f.height
  }

  /** Channel 0 of the neighbour (x + dx, y + dy). */
  function Channel0(f: Frame, x: nat, y: nat, dx: int, dy: int): int
    requires f.Valid() && Interior(f, x, y) && -1 <= dx <= 1 && -1 <= dy <= 1
  {
    f.At(x + dx, y + dy).c0
  }

  /** The contribution of row fi, column fj of both kernels. */
  function Tap(f: Frame, x: nat, y: nat, fi: nat, fj: nat): int
    requires f.Valid() && Interior(f, x, y) && fi < 3 && fj < 3
  {
    (Filter1[fi][fj] + Filter2[fi][fj]) * Channel0(f, x, y, fj - 1, fi - 1)
  }

  /** `res_val` once the kernel loops have handled every row before fi and the
      first fj taps of row fi. */
  function TapSum(f: Frame, x: nat, y: nat, fi: nat, fj: nat): int
    requires f.Valid() && Interior(f, x, y) && fi <= 3 && fj <= 3 && (fj > 0 ==> fi < 3)
    decreases fi, fj
  {
    if fj > 0 then TapSum(f, x, y, fi, fj - 1) + Tap(f, x, y, fi, fj - 1)
    else if fi > 0 then TapSum(f, x, y, fi - 1, 3)
    else 0
  }

  /** The response at (x, y): `res_val` after both kernel loops. */
  function Response(f: Frame, x: nat, y: nat): int
    requires f.Valid() && Interior(f, x, y)
  {
    TapSum(f, x, y, 3, 0)
  }

  /** The two kernels together weigh neighbour (dx, dy) by dx + dy: the response
      is a diagonal gradient of channel 0. */
  lemma ResponseIsDiagonalGradient(f: Frame, x: nat, y: nat)
    requires f.Valid() && Interior(f, x, y)
    ensures Response(f, x, y) ==
      2 * (Channel0(f, x, y, 1, 1) - Channel0(f, x, y, -1, -1)) +
      (Channel0(f, x, y, 1, 0) - Channel0(f, x, y, -1, 0)) +
      (Channel0(f, x, y, 0, 1) - Channel0(f, x, y, 0, -1))
  {
    assert TapSum(f, x, y, 1, 0) == TapSum(f, x, y, 0, 3) == -2 * Channel0(f, x, y, -1, -1) - Channel0(f, x, y, 0, -1);
    assert TapSum(f, x, y, 2, 0) == TapSum(f, x, y, 1, 3) == TapSum(f, x, y, 1, 0) - Channel0(f, x, y, -1, 0) + Channel0(f, x, y, 1, 0);
    assert TapSum(f, x, y, 3, 0) == TapSum(f, x, y, 2, 3) == TapSum(f, x, y, 2, 0) + Channel0(f, x, y, 0, 1) + 2 * Channel0(f, x, y, 1, 1);
  }

  /** `res_val.clamp(0, 255)` */
  function ClampByte(v: int): (b: u8)
    ensures v < 0 ==> b == 0
    ensures 0 <= v <= 255 ==> b == v
    ensures 255 < v ==> b == 255
  {
    if v < 0 then 0 else if v > 255 then 255 else v
  }

  /** The frame `get_conv_edges` turns f into: the clamped response, in all
      three channels, inside; black on the border. */
  function Edges(f: Frame): (e: Frame)
    requires f.Valid()
    ensures e.Valid() && e.width == f.width && e.height == f.height
    ensures forall x, y | 0 <= x < f.width && 0 <= y < f.height && !Interior(f, x, y) :: e.At(x, y) == Black
    ensures forall x, y | 0 <= x < f.width && 0 <= y < f.height && Interior(f, x, y) ::
      var v := ClampByte(Response(f, x, y)); e.At(x, y) == Rgb(v, v, v)
  {
    Frame(f.width, f.height, seq(f.width, x requires 0 <= x < f.width =>
      seq(f.height, y requires 0 <= y < f.height =>
        if Interior(f, x, y) then var v := ClampByte(Response(f, x, y)); Rgb(v, v, v) else Black)))
  }

  /** A neighbourhood that is flat in channel 0 gives a black pixel. */
  lemma FlatNeighbourhoodIsBlack(f: Frame, x: nat, y: nat)
    requires f.Valid() && Interior(f, x, y)
    requires forall dx, dy | -1 <= dx <= 1 && -1 <= dy <= 1 :: Channel0(f, x, y, dx, dy) == Channel0(f, x, y, 0, 0)
    ensures Edges(f).At(x, y) == Black
  {
    ResponseIsDiagonalGradient(f, x, y);
  }

  /** Only channel 0 of the input matters: two frames of the same size that agree
      on it give the same result. */
  lemma OnlyChannelZeroIsRead(f: Frame, g: Frame)
    requires f.Valid() && g.Valid() && f.width == g.width && f.height == g.height
    requires forall x, y | 0 <= x < f.width && 0 <= y < f.height :: f.At(x, y).c0 == g.At(x, y).c0
    ensures Edges(f) == Edges(g)
  {
    forall x, y | 0 <= x < f.width && 0 <= y < f.height && Interior(f, x, y)
      ensures Response(f, x, y) == Response(g, x, y)
    {
      ResponseIsDiagonalGradient(f, x, y);
      ResponseIsDiagonalGradient(g, x, y);
    }
    GridExtensionality(Edges(f).px, Edges(g).px, f.width, f.height);
  }

  /** `get_conv_edges`: the buffer holding f ends up holding `Edges(f)`. The u32
      `height - 1` needs a non-empty frame, and `width - 1` a non-empty row once
      there is an interior row. */
  method GetConvEdges(img: RgbImage, ghost f: Frame)
    requires Holds(img, f) && f.height >= 1 && (f.height >= 3 ==> f.width >= 1)
    modifies img
    ensures Holds(img, Edges(f))
  {
    var width, height := img.Length0, img.Length1;
    var res := new Rgb[width, height]((_, _) => Black);
    var i := 1;
    while i < height - 1
      invariant 1 <= i && (height >= 2 ==> i <= height - 1)
      invariant Holds(img, f)
      invariant forall x, y | 0 <= x < width && 0 <= y < height ::
        res[x, y] == if y < i then Edges(f).At(x, y) else Black
    {
      EdgeRow(img, f, res, i);
      i := i + 1;
    }
    assert Holds(res, Edges(f));
    i := 0;
    while i < height
      invariant 0 <= i <= height
      invariant Holds(res, Edges(f))
      invariant forall x, y | 0 <= x < width && 0 <= y < height ::
        img[x, y] == if y < i then res[x, y] else f.At(x, y)
    {
      var j := 0;
      while j < width
        invariant 0 <= j <= width
        invariant Holds(res, Edges(f))
        invariant forall x, y | 0 <= x < width && 0 <= y < height ::
          img[x, y] == if y < i || (y == i && x < j) then res[x, y] else f.At(x, y)
      {
        img[j, i] := res[j, i];
        j := j + 1;
      }
      i := i + 1;
    }
  }

  /** One iteration of the outer convolution loop: interior row i of `res_img`. */
  method EdgeRow(img: RgbImage, ghost f: Frame, res: RgbImage, i: nat)
    requires Holds(img, f) && res != img && res.Length0 == img.Length0 && res.Length1 == img.Length1
    requires 1 <= i < img.Length1 - 1
    requires forall x, y | 0 <= x < res.Length0 && 0 <= y < res.Length1 ::
      res[x, y] == if y < i then Edges(f).At(x, y) else Black
    modifies res
    ensures forall x, y | 0 <= x < res.Length0 && 0 <= y < res.Length1 ::
      res[x, y] == if y <= i then Edges(f).At(x, y) else Black
  {
    var j := 1;
    while j < img.Length0 - 1
      invariant 1 <= j && (img.Length0 >= 2 ==> j <= img.Length0 - 1)
      invariant forall x, y | 0 <= x < res.Length0 && 0 <= y < res.Length1 ::
        res[x, y] == if y < i || (y == i && x < j) then Edges(f).At(x, y) else Black
    {
      var v := ConvolveAt(img, f, j, i);
      res[j, i] := Rgb(v, v, v);
      j := j + 1;
    }
  }

  /** The two kernel loops for pixel (x, y), then the clamp. */
  method ConvolveAt(img: RgbImage, ghost f: Frame, x: nat, y: nat) returns (v: u8)
    requires Holds(img, f) && Interior(f, x, y)
    ensures v == ClampByte(Response(f, x, y))
  {
    var resVal := 0;
    var fi := 0;
    while fi < 3
      invariant 0 <= fi <= 3 && resVal == TapSum(f, x, y, fi, 0)
    {
      var fj := 0;
      while fj < 3
        invariant 0 <= fj <= 3 && resVal == TapSum(f, x, y, fi, fj)
      {
        resVal := AddTap(img, f, x, y, fi, fj, resVal);
        fj := fj + 1;
      }
      fi := fi + 1;
    }
    v := ClampByte(resVal);
  }

  /** The body of the inner kernel loop: both kernels' weights at (fi, fj) times
      channel 0 of that neighbour, added to `res_val`. */
  method AddTap(img: RgbImage, ghost f: Frame, x: nat, y: nat, fi: nat, fj: nat, acc: int) returns (resVal: int)
    requires Holds(img, f) && Interior(f, x, y) && fi < 3 && fj < 3
    ensures resVal == acc + Tap(f, x, y, fi, fj)
  {
    var p := img[x + fj - 1, y + fi - 1].c0;
    resVal := acc + Filter1[fi][fj] * p;
    resVal := resVal + Filter2[fi][fj] * p;
  }
}
