/**
  The specification shared by the two block-matching estimators
  (vfi/src/estimator/combinator/bma.rs and vfi/src/estimator/bma.rs), whose
  `has_block_moved`, `get_motion_vector` and `calc_flow` are the same algorithm:
  the movement gate, the exhaustive search over offsets in [-r, r)^2 that keeps
  the first strict minimum, and the flow grid it produces.
 */
module BlockSearch {
  import opened Raster
  import opened Operations

  /** The largest block width for which a block's summed squared error fits in a u32. */
  const MaxBlockWidth: nat := 148
  /** The largest squared pixel difference, 441 * 441. */
  const MaxSquaredDifference: nat := 194481
  /** The value a search starts from, and the flow cell of a block that is not searched. */
  const NoMatch: ErrorVector := (0, 0, U32_MAX)

  /** `num::integer::div_ceil` on unsigned integers. */
  function DivCeil(a: nat, b: nat): nat
    requires b > 0
  {
    (a + b - 1) / b
  }

  /** Multiplication by a natural number is monotonic. */
  lemma MulLe(a: nat, b: nat, c: nat)
    requires a <= b
    ensures a * c <= b * c
  {
  }

  /** The pixel at (x, y) of the block of f whose top-left pixel is (cx, cy). */
  function BlockPixel(f: Frame, cx: int, cy: int, x: nat, y: nat): Rgb
    requires f.Valid() && 0 <= cx + x < f.width && 0 <= cy + y < f.height
  {
    f.At(cx + x, cy + y)
  }

  // ---------------------------------------------------------------------------
  // Movement gate (`has_block_moved`): counts, over the block of the UNPADDED
  // frames whose top-left pixel is (cx, cy), the pixels whose difference exceeds minDiff.

  ghost predicate BlockInside(f1: Frame, f2: Frame, cx: nat, cy: nat, bw: nat)
  {
    f1.Valid() && f2.Valid() &&
    cx + bw <= f1.width && cy + bw <= f1.height &&
    cx + bw <= f2.width && cy + bw <= f2.height
  }

  /** The difference of pixel (x, y) of the block in the two frames. */
  function GateDifference(f1: Frame, f2: Frame, cx: nat, cy: nat, bw: nat, x: nat, y: nat): u16
    requires BlockInside(f1, f2, cx, cy, bw) && x < bw && y < bw
  {
    PixelDifference(BlockPixel(f1, cx, cy, x, y), BlockPixel(f2, cx, cy, x, y))
  }

  function PixelChanged(f1: Frame, f2: Frame, cx: nat, cy: nat, bw: nat, x: nat, y: nat, minDiff: nat): nat
    requires BlockInside(f1, f2, cx, cy, bw) && x < bw && y < bw
  {
    if GateDifference(f1, f2, cx, cy, bw, x, y) > minDiff then 1 else 0
  }

  /** The changed pixels among the first n of column cx + x of the block. */
  function ColumnChanged(f1: Frame, f2: Frame, cx: nat, cy: nat, bw: nat, minDiff: nat, x: nat, n: nat): (c: nat)
    requires BlockInside(f1, f2, cx, cy, bw) && x < bw && n <= bw
    ensures c <= n
  {
    if n == 0 then 0
    else ColumnChanged(f1, f2, cx, cy, bw, minDiff, x, n - 1) + PixelChanged(f1, f2, cx, cy, bw, x, n - 1, minDiff)
  }

  /** The changed pixels in the first m columns of the block. */
  function ChangedUpTo(f1: Frame, f2: Frame, cx: nat, cy: nat, bw: nat, minDiff: nat, m: nat): (c: nat)
    requires BlockInside(f1, f2, cx, cy, bw) && m <= bw
  {
    if m == 0 then 0
    else ChangedUpTo(f1, f2, cx, cy, bw, minDiff, m - 1) + ColumnChanged(f1, f2, cx, cy, bw, minDiff, m - 1, bw)
  }

  lemma {:induction false} ChangedUpToBound(f1: Frame, f2: Frame, cx: nat, cy: nat, bw: nat, minDiff: nat, m: nat)
    requires BlockInside(f1, f2, cx, cy, bw) && m <= bw
    ensures ChangedUpTo(f1, f2, cx, cy, bw, minDiff, m) <= m * bw
  {
    if m > 0 {
      ChangedUpToBound(f1, f2, cx, cy, bw, minDiff, m - 1);
      MulSucc(m - 1, bw);
    }
  }

  /** The gate's count `changed_pixels`: at most the block's area, and zero
      exactly when no pixel of the block differs by more than minDiff. */
  function ChangedPixels(f1: Frame, f2: Frame, cx: nat, cy: nat, bw: nat, minDiff: nat): (c: nat)
    requires BlockInside(f1, f2, cx, cy, bw)
    ensures c <= bw * bw
    ensures c == 0 <==> forall x, y | 0 <= x < bw && 0 <= y < bw :: GateDifference(f1, f2, cx, cy, bw, x, y) <= minDiff
  {
    ChangedUpToBound(f1, f2, cx, cy, bw, minDiff, bw);
    ChangedUpToZero(f1, f2, cx, cy, bw, minDiff, bw);
    ChangedUpTo(f1, f2, cx, cy, bw, minDiff, bw)
  }

  /** For a positive divisor c, the truncated quotient n / c exceeds k exactly
      when n is at least (k + 1) * c. */
  lemma DivExceeds(n: nat, c: nat, k: nat)
    requires c > 0
    ensures n / c > k <==> (k + 1) * c <= n
  {
    var q, r := n / c, n % c;
    assert n == q * c + r && 0 <= r < c;
    if q > k {
      MulLe(k + 1, q, c);
    } else {
      MulLe(q + 1, k + 1, c);
    }
  }

  /** The gate's verdict: no changed pixel means unmoved; otherwise the block moved
      when `bw^2 * 100 / changed` exceeds the threshold (a ratio that falls as more
      pixels change). So a block counts as moved exactly when some pixel
      changed and at most `bw^2 * 100 / (minPct + 1)` did: the fewer changed
      pixels, the more readily it moves. */
  function Moved(f1: Frame, f2: Frame, cx: nat, cy: nat, bw: nat, minDiff: nat, minPct: nat): (m: bool)
    requires BlockInside(f1, f2, cx, cy, bw)
    ensures m <==> var changed := ChangedPixels(f1, f2, cx, cy, bw, minDiff);
      0 < changed && (minPct + 1) * changed <= bw * bw * 100
  {
    var changed := ChangedPixels(f1, f2, cx, cy, bw, minDiff);
    if changed == 0 then false
    else
      DivExceeds(bw * bw * 100, changed, minPct);
      bw * bw * 100 / changed > minPct
  }


  lemma {:induction false} ColumnChangedZero(f1: Frame, f2: Frame, cx: nat, cy: nat, bw: nat, minDiff: nat, x: nat, n: nat)
    requires BlockInside(f1, f2, cx, cy, bw) && x < bw && n <= bw
    ensures ColumnChanged(f1, f2, cx, cy, bw, minDiff, x, n) == 0 <==>
      forall y | 0 <= y < n :: GateDifference(f1, f2, cx, cy, bw, x, y) <= minDiff
  {
    if n > 0 {
      ColumnChangedZero(f1, f2, cx, cy, bw, minDiff, x, n - 1);
    }
  }

  lemma {:induction false} ChangedUpToZero(f1: Frame, f2: Frame, cx: nat, cy: nat, bw: nat, minDiff: nat, m: nat)
    requires BlockInside(f1, f2, cx, cy, bw) && m <= bw
    ensures ChangedUpTo(f1, f2, cx, cy, bw, minDiff, m) == 0 <==>
      forall x, y | 0 <= x < m && 0 <= y < bw :: GateDifference(f1, f2, cx, cy, bw, x, y) <= minDiff
  {
    if m > 0 {
      ChangedUpToZero(f1, f2, cx, cy, bw, minDiff, m - 1);
      ColumnChangedZero(f1, f2, cx, cy, bw, minDiff, m - 1, bw);
    }
  }

  /** The gate declares a block unmoved exactly when no pixel of it differs by more
      than minDiff or the change ratio `bw^2 * 100 / changed` does not exceed minPct. */
  lemma GateVerdict(f1: Frame, f2: Frame, cx: nat, cy: nat, bw: nat, minDiff: nat, minPct: nat)
    requires BlockInside(f1, f2, cx, cy, bw)
    ensures (forall x, y | 0 <= x < bw && 0 <= y < bw :: GateDifference(f1, f2, cx, cy, bw, x, y) <= minDiff)
            ==> !Moved(f1, f2, cx, cy, bw, minDiff, minPct)
    ensures (exists x, y | 0 <= x < bw && 0 <= y < bw :: GateDifference(f1, f2, cx, cy, bw, x, y) > minDiff)
            ==> 1 <= ChangedPixels(f1, f2, cx, cy, bw, minDiff) <= bw * bw &&
                Moved(f1, f2, cx, cy, bw, minDiff, minPct) ==
                  (bw * bw * 100 / ChangedPixels(f1, f2, cx, cy, bw, minDiff) > minPct)
  {
    ChangedUpToZero(f1, f2, cx, cy, bw, minDiff, bw);
    ChangedUpToBound(f1, f2, cx, cy, bw, minDiff, bw);
  }

  /** A block whose pixels are the same in both frames never counts as moved. */
  lemma UnchangedBlockNotMoved(f1: Frame, f2: Frame, cx: nat, cy: nat, bw: nat, minDiff: nat, minPct: nat)
    requires BlockInside(f1, f2, cx, cy, bw)
    requires forall x, y | 0 <= x < bw && 0 <= y < bw :: BlockPixel(f1, cx, cy, x, y) == BlockPixel(f2, cx, cy, x, y)
    ensures !Moved(f1, f2, cx, cy, bw, minDiff, minPct)
  {
    GateVerdict(f1, f2, cx, cy, bw, minDiff, minPct);
  }

  /** The largest block width for which `block_width.pow(2) * 100` fits in a u32. */
  const MaxGateWidth: nat := 6553

  lemma GateAreaFits(bw: nat)
    requires bw <= MaxGateWidth
    ensures bw * bw * 100 <= U32_MAX
  {
    MulLe(bw, MaxGateWidth, bw);
    MulLe(bw, MaxGateWidth, MaxGateWidth);
  }

  /** `has_block_moved` on the block of the unpadded frames whose top-left pixel is (cx, cy). */
  method BlockMoved(f1: Frame, f2: Frame, cx: nat, cy: nat, bw: u32, minDiff: u16, minPct: u16) returns (moved: bool)
    requires BlockInside(f1, f2, cx, cy, bw) && bw <= MaxGateWidth
    ensures moved == Moved(f1, f2, cx, cy, bw, minDiff, minPct)
  {
    var changed: u32 := 0;
    var x := 0;
    while x < bw
      invariant x <= bw && changed <= x * 6553
      invariant changed == ChangedUpTo(f1, f2, cx, cy, bw, minDiff, x)
    {
      changed := CountColumn(f1, f2, cx, cy, bw, minDiff, x, changed);
      x := x + 1;
    }
    if changed == 0 {
      return false;
    }
    GateAreaFits(bw);
    moved := bw * bw * 100 / changed > minPct;
  }

  /** The inner loop of `has_block_moved`: adds the changed pixels of column x of the block. */
  method CountColumn(f1: Frame, f2: Frame, cx: nat, cy: nat, bw: u32, minDiff: u16, x: nat, changed0: u32) returns (changed: u32)
    requires BlockInside(f1, f2, cx, cy, bw) && bw <= MaxGateWidth && x < bw && changed0 <= x * 6553
    ensures changed == changed0 + ColumnChanged(f1, f2, cx, cy, bw, minDiff, x, bw)
    ensures changed <= (x + 1) * 6553
  {
    changed := changed0;
    var y := 0;
    while y < bw
      invariant y <= bw && changed <= x * 6553 + y
      invariant changed == changed0 + ColumnChanged(f1, f2, cx, cy, bw, minDiff, x, y)
    {
      if PixelDifference(f1.At(cx + x, cy + y), f2.At(cx + x, cy + y)) > minDiff {
        changed := changed + 1;
      }
      y := y + 1;
    }
  }

  // ---------------------------------------------------------------------------
  // Block error: the block of the PADDED frame g1 whose top-left pixel is (cx, cy)
  // against the block of g2 moved by (ox, oy).

  ghost predicate Window(g1: Frame, g2: Frame, cx: nat, cy: nat, bw: nat, ox: int, oy: int)
  {
    g1.Valid() && g2.Valid() &&
    cx + bw <= g1.width && cy + bw <= g1.height &&
    0 <= cx + ox && cx + ox + bw <= g2.width &&
    0 <= cy + oy && cy + oy + bw <= g2.height
  }

  /** `(pixel_difference(p, q) as u32).pow(2)` */
  function SquaredDifference(p: Rgb, q: Rgb): (e: nat)
    ensures e <= MaxSquaredDifference
    ensures e == 0 <==> p == q
  {
    var d := PixelDifference(p, q);
    MulLe(d, 441, d);
    d * d
  }

  function SquaredPixelError(g1: Frame, g2: Frame, cx: nat, cy: nat, bw: nat, ox: int, oy: int, x: nat, y: nat): (e: nat)
    requires Window(g1, g2, cx, cy, bw, ox, oy) && x < bw && y < bw
    ensures e <= MaxSquaredDifference
  {
    SquaredDifference(BlockPixel(g1, cx, cy, x, y), BlockPixel(g2, cx + ox, cy + oy, x, y))
  }

  /** The squared errors of the first n pixels of column x of the block. */
  function ColumnError(g1: Frame, g2: Frame, cx: nat, cy: nat, bw: nat, ox: int, oy: int, x: nat, n: nat): (e: nat)
    requires Window(g1, g2, cx, cy, bw, ox, oy) && x < bw && n <= bw
    ensures e <= n * 194481
  {
    if n == 0 then 0
    else ColumnError(g1, g2, cx, cy, bw, ox, oy, x, n - 1) + SquaredPixelError(g1, g2, cx, cy, bw, ox, oy, x, n - 1)
  }

  /** The squared errors of the first m columns of the block. */
  function ErrorUpTo(g1: Frame, g2: Frame, cx: nat, cy: nat, bw: nat, ox: int, oy: int, m: nat): (e: nat)
    requires Window(g1, g2, cx, cy, bw, ox, oy) && bw <= MaxBlockWidth && m <= bw
    ensures e <= m * 28783188
  {
    if m == 0 then 0
    else ErrorUpTo(g1, g2, cx, cy, bw, ox, oy, m - 1) + ColumnError(g1, g2, cx, cy, bw, ox, oy, m - 1, bw)
  }

  lemma {:induction false} ErrorUpToBound(g1: Frame, g2: Frame, cx: nat, cy: nat, bw: nat, ox: int, oy: int, m: nat)
    requires Window(g1, g2, cx, cy, bw, ox, oy) && bw <= MaxBlockWidth && m <= bw
    ensures ErrorUpTo(g1, g2, cx, cy, bw, ox, oy, m) <= m * (bw * MaxSquaredDifference)
  {
    if m > 0 {
      ErrorUpToBound(g1, g2, cx, cy, bw, ox, oy, m - 1);
      MulSucc(m - 1, bw * MaxSquaredDifference);
    }
  }

  /** Dividing a block's summed error by its area gives at most the largest squared difference. */
  lemma MeanErrorBound(bw: nat, e: nat)
    requires 1 <= bw && e <= bw * (bw * MaxSquaredDifference)
    ensures bw * bw >= 1 && 0 <= e / (bw * bw) <= MaxSquaredDifference
  {
    MulLe(1, bw, bw);
    assert bw * (bw * MaxSquaredDifference) == (bw * bw) * MaxSquaredDifference;
  }

  /** A running sum of the block loop stays within a u32. */
  lemma PartialErrorFitsU32(bw: nat, x: nat, y: nat, sum: nat, done: nat, column: nat, d: nat)
    requires bw <= MaxBlockWidth && x < bw && y < bw && sum == done + column
    requires done <= x * 28783188 && column <= y * 194481 && d <= MaxSquaredDifference
    ensures sum + d <= U32_MAX
  {
  }

  /** The truncated mean squared difference of the block at offset (ox, oy). */
  function BlockError(g1: Frame, g2: Frame, cx: nat, cy: nat, bw: nat, ox: int, oy: int): (e: nat)
    requires Window(g1, g2, cx, cy, bw, ox, oy) && 1 <= bw <= MaxBlockWidth
    ensures e <= MaxSquaredDifference
  {
    var s := ErrorUpTo(g1, g2, cx, cy, bw, ox, oy, bw);
    ErrorUpToBound(g1, g2, cx, cy, bw, ox, oy, bw);
    MeanErrorBound(bw, s);
    s / (bw * bw)
  }

  /** The block of g1 reappears unchanged in g2 at offset (ox, oy). */
  ghost predicate ExactAt(g1: Frame, g2: Frame, cx: nat, cy: nat, bw: nat, ox: int, oy: int)
  {
    Window(g1, g2, cx, cy, bw, ox, oy) &&
    forall x, y | 0 <= x < bw && 0 <= y < bw :: BlockPixel(g1, cx, cy, x, y) == BlockPixel(g2, cx + ox, cy + oy, x, y)
  }

  lemma {:induction false} ColumnErrorZero(g1: Frame, g2: Frame, cx: nat, cy: nat, bw: nat, ox: int, oy: int, x: nat, n: nat)
    requires ExactAt(g1, g2, cx, cy, bw, ox, oy) && x < bw && n <= bw
    ensures ColumnError(g1, g2, cx, cy, bw, ox, oy, x, n) == 0
  {
    if n > 0 {
      ColumnErrorZero(g1, g2, cx, cy, bw, ox, oy, x, n - 1);
    }
  }

  lemma {:induction false} ErrorUpToZero(g1: Frame, g2: Frame, cx: nat, cy: nat, bw: nat, ox: int, oy: int, m: nat)
    requires ExactAt(g1, g2, cx, cy, bw, ox, oy) && bw <= MaxBlockWidth && m <= bw
    ensures ErrorUpTo(g1, g2, cx, cy, bw, ox, oy, m) == 0
  {
    if m > 0 {
      ErrorUpToZero(g1, g2, cx, cy, bw, ox, oy, m - 1);
      ColumnErrorZero(g1, g2, cx, cy, bw, ox, oy, m - 1, bw);
    }
  }

  /** A block that reappears unchanged at offset (ox, oy) has error 0 there. */
  lemma ExactMatchHasZeroError(g1: Frame, g2: Frame, cx: nat, cy: nat, bw: nat, ox: int, oy: int)
    requires ExactAt(g1, g2, cx, cy, bw, ox, oy) && 1 <= bw <= MaxBlockWidth
    ensures BlockError(g1, g2, cx, cy, bw, ox, oy) == 0
  {
    ErrorUpToZero(g1, g2, cx, cy, bw, ox, oy, bw);
  }

  /** The pixel loops of `get_motion_vector` for one offset: the summed squared
      difference, divided by the block's area. */
  method ComputeBlockError(pf1: RgbImage, pf2: RgbImage, ghost g1: Frame, ghost g2: Frame, cx: u32, cy: u32, bw: u32, ox: int, oy: int) returns (e: u32)
    requires Holds(pf1, g1) && Holds(pf2, g2)
    requires Window(g1, g2, cx, cy, bw, ox, oy) && 1 <= bw <= MaxBlockWidth
    ensures e == BlockError(g1, g2, cx, cy, bw, ox, oy)
  {
    var sum := SumBlockError(pf1, pf2, g1, g2, cx, cy, bw, ox, oy);
    ErrorUpToBound(g1, g2, cx, cy, bw, ox, oy, bw);
    MeanErrorBound(bw, sum);
    e := sum / (bw * bw);
  }

  /** The two pixel loops of `get_motion_vector` for one offset: the summed
      squared difference of the whole block. */
  method SumBlockError(pf1: RgbImage, pf2: RgbImage, ghost g1: Frame, ghost g2: Frame, cx: u32, cy: u32, bw: u32, ox: int, oy: int)
    returns (sum: u32)
    requires Holds(pf1, g1) && Holds(pf2, g2)
    requires Window(g1, g2, cx, cy, bw, ox, oy) && 1 <= bw <= MaxBlockWidth
    ensures sum == ErrorUpTo(g1, g2, cx, cy, bw, ox, oy, bw)
  {
    sum := 0;
    var x := 0;
    while x < bw
      invariant x <= bw
      invariant sum == ErrorUpTo(g1, g2, cx, cy, bw, ox, oy, x)
    {
      sum := AddColumnError(pf1, pf2, g1, g2, cx, cy, bw, ox, oy, x, sum);
      x := x + 1;
    }
  }

  /** The innermost loop of `get_motion_vector`: adds the squared errors of column x of the block. */
  method AddColumnError(pf1: RgbImage, pf2: RgbImage, ghost g1: Frame, ghost g2: Frame, cx: u32, cy: u32, bw: u32, ox: int, oy: int, x: nat, sum0: u32)
    returns (sum: u32)
    requires Holds(pf1, g1) && Holds(pf2, g2)
    requires Window(g1, g2, cx, cy, bw, ox, oy) && 1 <= bw <= MaxBlockWidth && x < bw
    requires sum0 == ErrorUpTo(g1, g2, cx, cy, bw, ox, oy, x)
    ensures sum == ErrorUpTo(g1, g2, cx, cy, bw, ox, oy, x + 1)
  {
    sum := sum0;
    var y := 0;
    while y < bw
      invariant y <= bw
      invariant sum == sum0 + ColumnError(g1, g2, cx, cy, bw, ox, oy, x, y)
    {
      var p, q := pf1[cx + x, cy + y], pf2[cx + x + ox, cy + y + oy];
      assert p == BlockPixel(g1, cx, cy, x, y) && q == BlockPixel(g2, cx + ox, cy + oy, x, y);
      PartialErrorFitsU32(bw, x, y, sum, sum0, ColumnError(g1, g2, cx, cy, bw, ox, oy, x, y), SquaredDifference(p, q));
      sum := sum + SquaredDifference(p, q);
      y := y + 1;
    }
  }

  // ---------------------------------------------------------------------------
  // The search: offsets in [-r, r)^2, x offset outer and y offset inner, keeping
  // the first candidate whose error is strictly below the best so far.

  /** Every read of the search stays inside the padded frames. */
  ghost predicate SearchFits(g1: Frame, g2: Frame, cx: nat, cy: nat, bw: nat, r: int)
  {
    g1.Valid() && g2.Valid() && 0 <= r <= 255 &&
    (r == 0 ||
     (1 <= bw <= MaxBlockWidth && r <= cx && r <= cy &&
      cx + bw <= g1.width && cy + bw <= g1.height &&
      cx + bw + r - 1 <= g2.width && cy + bw + r - 1 <= g2.height))
  }

  ghost predicate InSearchRange(r: int, ox: int, oy: int)
  {
    -r <= ox < r && -r <= oy < r
  }

  lemma WindowOfOffset(g1: Frame, g2: Frame, cx: nat, cy: nat, bw: nat, r: int, ox: int, oy: int)
    requires SearchFits(g1, g2, cx, cy, bw, r) && InSearchRange(r, ox, oy)
    ensures Window(g1, g2, cx, cy, bw, ox, oy) && 1 <= bw <= MaxBlockWidth
  {
  }

  /** The error of offset (ox, oy) of the search range. */
  function OffsetError(g1: Frame, g2: Frame, cx: nat, cy: nat, bw: nat, r: int, ox: int, oy: int): nat
    requires SearchFits(g1, g2, cx, cy, bw, r) && InSearchRange(r, ox, oy)
  {
    WindowOfOffset(g1, g2, cx, cy, bw, r, ox, oy);
    BlockError(g1, g2, cx, cy, bw, ox, oy)
  }

  /** A block error: a u32 below `u32::MAX` (at most MaxSquaredDifference in fact). */
  type MatchError = e: int | 0 <= e < 0xFFFF_FFFF

  /** The error of each offset, as the table the search scans. */
  type ErrorTable = (int, int) -> MatchError

  /** The errors of the search range of the block at (cx, cy); 0 outside the range. */
  ghost function OffsetErrors(g1: Frame, g2: Frame, cx: nat, cy: nat, bw: nat, r: int): ErrorTable
    requires SearchFits(g1, g2, cx, cy, bw, r)
  {
    (ox: int, oy: int) => if InSearchRange(r, ox, oy) then OffsetError(g1, g2, cx, cy, bw, r, ox, oy) else 0
  }

  function Keep(best: ErrorVector, ox: i16, oy: i16, e: u32): ErrorVector
  {
    if e < best.2 then (ox, oy, e) else best
  }

  /** The best candidate after the first a x offsets and, within x offset -r + a,
      the first b y offsets; it starts at `(0, 0, u32::MAX)`. */
  function Scan(err: ErrorTable, r: int, a: nat, b: nat): (best: ErrorVector)
    requires 0 <= r <= 255 && a <= 2 * r && b <= 2 * r && (a == 2 * r ==> b == 0)
    ensures best == NoMatch || InSearchRange(r, best.0, best.1)
    decreases a, b
  {
    if b > 0 then Keep(Scan(err, r, a, b - 1), -r + a, -r + b - 1, err(-r + a, -r + b - 1))
    else if a > 0 then Scan(err, r, a - 1, 2 * r)
    else NoMatch
  }

  /** `get_motion_vector` of the block at (cx, cy) of the padded frames. */
  /** With radius 0 nothing is searched; otherwise the answer is an offset of
      the search range with an error of at most 441^2. */
  ghost function BestMatch(g1: Frame, g2: Frame, cx: nat, cy: nat, bw: nat, r: int): (m: ErrorVector)
    requires SearchFits(g1, g2, cx, cy, bw, r)
    ensures r == 0 ==> m == NoMatch
    ensures r > 0 ==> InSearchRange(r, m.0, m.1) && m.2 <= MaxSquaredDifference
  {
    var err := OffsetErrors(g1, g2, cx, cy, bw, r);
    ScanFound(err, r, 2 * r, 0);
    Scan(err, r, 2 * r, 0)
  }

  /** Offset (ox, oy) is among the first a full x offsets and b further y offsets. */
  ghost predicate Visited(r: int, a: nat, b: nat, ox: int, oy: int)
  {
    InSearchRange(r, ox, oy) && (ox + r < a || (ox + r == a && oy + r < b))
  }

  /** Offset (ox, oy) comes strictly before (px, py) in the search order. */
  ghost predicate Earlier(ox: int, oy: int, px: int, py: int)
  {
    ox < px || (ox == px && oy < py)
  }

  /** After at least one offset the best candidate is a visited offset with its own error. */
  lemma {:induction false} ScanFound(err: ErrorTable, r: int, a: nat, b: nat)
    requires 0 <= r <= 255 && a <= 2 * r && b <= 2 * r && (a == 2 * r ==> b == 0)
    ensures var best := Scan(err, r, a, b);
      if a == 0 && b == 0 then best == NoMatch
      else Visited(r, a, b, best.0, best.1) && best.2 == err(best.0, best.1)
    decreases a, b
  {
    if b > 0 {
      ScanFound(err, r, a, b - 1);
    } else if a > 0 {
      ScanFound(err, r, a - 1, 2 * r);
    }
  }

  /** The best candidate's error is the least of all visited offsets. */
  lemma {:induction false} ScanLeast(err: ErrorTable, r: int, a: nat, b: nat)
    requires 0 <= r <= 255 && a <= 2 * r && b <= 2 * r && (a == 2 * r ==> b == 0)
    ensures forall ox, oy | Visited(r, a, b, ox, oy) :: Scan(err, r, a, b).2 <= err(ox, oy)
    decreases a, b
  {
    if b > 0 {
      ScanLeast(err, r, a, b - 1);
      assert forall ox, oy | Visited(r, a, b, ox, oy) :: Visited(r, a, b - 1, ox, oy) || (ox, oy) == (-r + a, -r + b - 1);
    } else if a > 0 {
      ScanLeast(err, r, a - 1, 2 * r);
      assert forall ox, oy | Visited(r, a, 0, ox, oy) :: Visited(r, a - 1, 2 * r, ox, oy);
    }
  }

  /** No visited offset before the best candidate reaches its error. */
  lemma {:induction false} ScanFirst(err: ErrorTable, r: int, a: nat, b: nat)
    requires 0 <= r <= 255 && a <= 2 * r && b <= 2 * r && (a == 2 * r ==> b == 0)
    ensures var best := Scan(err, r, a, b);
      forall ox, oy | Visited(r, a, b, ox, oy) && Earlier(ox, oy, best.0, best.1) :: best.2 < err(ox, oy)
    decreases a, b
  {
    if b > 0 {
      var best := Scan(err, r, a, b);
      ScanFirst(err, r, a, b - 1);
      ScanLeast(err, r, a, b - 1);
      ScanFound(err, r, a, b - 1);
      forall ox, oy | Visited(r, a, b, ox, oy) && Earlier(ox, oy, best.0, best.1)
        ensures best.2 < err(ox, oy)
      {
        assert Visited(r, a, b - 1, ox, oy);
      }
    } else if a > 0 {
      ScanFirst(err, r, a - 1, 2 * r);
      assert forall ox, oy | Visited(r, a, 0, ox, oy) :: Visited(r, a - 1, 2 * r, ox, oy);
    }
  }

  /** `get_motion_vector` with a search radius of 0 searches nothing and answers `(0, 0, u32::MAX)`;
      otherwise it answers an offset in [-r, r)^2 with that offset's error, which is the
      least error over the whole range, and no earlier offset reaches it. */
  lemma BestMatchIsFirstMinimum(g1: Frame, g2: Frame, cx: nat, cy: nat, bw: nat, r: int)
    requires SearchFits(g1, g2, cx, cy, bw, r)
    ensures var best := BestMatch(g1, g2, cx, cy, bw, r);
      (r == 0 ==> best == NoMatch) &&
      (r > 0 ==>
         InSearchRange(r, best.0, best.1) &&
         best.2 == OffsetError(g1, g2, cx, cy, bw, r, best.0, best.1) &&
         (forall ox, oy | InSearchRange(r, ox, oy) :: best.2 <= OffsetError(g1, g2, cx, cy, bw, r, ox, oy)) &&
         (forall ox, oy | InSearchRange(r, ox, oy) && Earlier(ox, oy, best.0, best.1) ::
            best.2 < OffsetError(g1, g2, cx, cy, bw, r, ox, oy)))
  {
    var err := OffsetErrors(g1, g2, cx, cy, bw, r);
    ScanFound(err, r, 2 * r, 0);
    ScanLeast(err, r, 2 * r, 0);
    ScanFirst(err, r, 2 * r, 0);
    assert forall ox, oy | InSearchRange(r, ox, oy) :: Visited(r, 2 * r, 0, ox, oy);
  }

  /** The offset the search answers lies within [-r, r] in both directions. */
  lemma BestMatchInRange(g1: Frame, g2: Frame, cx: nat, cy: nat, bw: nat, r: int)
    requires SearchFits(g1, g2, cx, cy, bw, r)
    ensures var best := BestMatch(g1, g2, cx, cy, bw, r);
      -r <= best.0 <= r && -r <= best.1 <= r
  {
    ScanFound(OffsetErrors(g1, g2, cx, cy, bw, r), r, 2 * r, 0);
  }

  /** When the block reappears unchanged at some offset of the range, the search
      reports error 0 (for identical frames, offset (0, 0) is such an offset). */
  lemma ExactMatchFound(g1: Frame, g2: Frame, cx: nat, cy: nat, bw: nat, r: int, sx: int, sy: int)
    requires SearchFits(g1, g2, cx, cy, bw, r) && InSearchRange(r, sx, sy)
    requires ExactAt(g1, g2, cx, cy, bw, sx, sy)
    ensures BestMatch(g1, g2, cx, cy, bw, r).2 == 0
  {
    BestMatchIsFirstMinimum(g1, g2, cx, cy, bw, r);
    ExactMatchHasZeroError(g1, g2, cx, cy, bw, sx, sy);
  }

  /** A block searched in its own frame finds error 0: offset (0, 0) matches exactly. */
  lemma SelfMatchHasZeroError(g: Frame, cx: nat, cy: nat, bw: nat, r: int)
    requires SearchFits(g, g, cx, cy, bw, r) && r >= 1
    ensures BestMatch(g, g, cx, cy, bw, r).2 == 0
  {
    WindowOfOffset(g, g, cx, cy, bw, r, 0, 0);
    ExactMatchFound(g, g, cx, cy, bw, r, 0, 0);
  }

  /** When every offset matches exactly (a frame compared with itself that is one
      flat colour), the first offset (-r, -r) wins, not (0, 0). */
  lemma FlatFramePicksFirstOffset(g1: Frame, g2: Frame, cx: nat, cy: nat, bw: nat, r: int)
    requires SearchFits(g1, g2, cx, cy, bw, r) && r >= 1
    requires forall ox, oy | InSearchRange(r, ox, oy) :: ExactAt(g1, g2, cx, cy, bw, ox, oy)
    ensures BestMatch(g1, g2, cx, cy, bw, r) == (-r, -r, 0)
  {
    var best := BestMatch(g1, g2, cx, cy, bw, r);
    BestMatchIsFirstMinimum(g1, g2, cx, cy, bw, r);
    ExactMatchHasZeroError(g1, g2, cx, cy, bw, -r, -r);
    assert OffsetError(g1, g2, cx, cy, bw, r, -r, -r) == 0;
    assert best.2 == 0;
  }

  /** The search loops of `get_motion_vector` over the padded buffers. */
  method MotionSearch(pf1: RgbImage, pf2: RgbImage, ghost g1: Frame, ghost g2: Frame, cx: u32, cy: u32, bw: u32, r: u8) returns (best: ErrorVector)
    requires Holds(pf1, g1) && Holds(pf2, g2) && SearchFits(g1, g2, cx, cy, bw, r)
    ensures best == BestMatch(g1, g2, cx, cy, bw, r)
  {
    ghost var err := OffsetErrors(g1, g2, cx, cy, bw, r);
    var error: u32 := U32_MAX;
    best := (0, 0, error);
    var radius: int := r;
    var ox := -radius;
    while ox < r
      invariant -radius <= ox <= r && best == Scan(err, r, ox + r, 0) && error == best.2
    {
      best, error := SearchColumn(pf1, pf2, g1, g2, cx, cy, bw, r, err, ox, best, error);
      ox := ox + 1;
    }
  }

  /** The inner loop of the search: the y offsets of x offset ox, whose errors are
      those of the table err. */
  method SearchColumn(pf1: RgbImage, pf2: RgbImage, ghost g1: Frame, ghost g2: Frame, cx: u32, cy: u32, bw: u32, r: u8,
                      ghost err: ErrorTable, ox: int, best0: ErrorVector, error0: u32)
    returns (best: ErrorVector, error: u32)
    requires Holds(pf1, g1) && Holds(pf2, g2) && SearchFits(g1, g2, cx, cy, bw, r) && -(r as int) <= ox < r
    requires forall oy {:trigger OffsetError(g1, g2, cx, cy, bw, r, ox, oy)} | -(r as int) <= oy < r ::
      err(ox, oy) == OffsetError(g1, g2, cx, cy, bw, r, ox, oy)
    requires best0 == Scan(err, r, ox + r, 0) && error0 == best0.2
    ensures best == Scan(err, r, ox + r + 1, 0) && error == best.2
  {
    best, error := best0, error0;
    var radius: int := r;
    var oy := -radius;
    while oy < r
      invariant -radius <= oy <= r && best == Scan(err, r, ox + r, oy + r) && error == best.2
    {
      best, error := TryOffset(pf1, pf2, g1, g2, cx, cy, bw, r, ox, oy, best, error);
      oy := oy + 1;
    }
  }

  /** The body of the inner loop: the error of offset (ox, oy), kept when it is
      strictly below the best so far. */
  method TryOffset(pf1: RgbImage, pf2: RgbImage, ghost g1: Frame, ghost g2: Frame, cx: u32, cy: u32, bw: u32, r: u8,
                   ox: int, oy: int, best0: ErrorVector, error0: u32)
    returns (best: ErrorVector, error: u32)
    requires Holds(pf1, g1) && Holds(pf2, g2) && SearchFits(g1, g2, cx, cy, bw, r) && InSearchRange(r, ox, oy)
    requires error0 == best0.2
    ensures best == Keep(best0, ox, oy, OffsetError(g1, g2, cx, cy, bw, r, ox, oy)) && error == best.2
  {
    best, error := best0, error0;
    WindowOfOffset(g1, g2, cx, cy, bw, r, ox, oy);
    var e := ComputeBlockError(pf1, pf2, g1, g2, cx, cy, bw, ox, oy);
    if e < error {
      error := e;
      best := (ox, oy, e);
    }
  }
}
