/**
  Weighted vector-median smoothing of an error flow
  (vfi/src/estimator/combinator/smoothing.rs). Each interior cell is replaced
  by the vector of its filter window whose weighted sum of distances to the
  window's vectors is least; the weights divide the cell's match error by each
  neighbour's. Cells closer than half a window to the edge keep their vector.

  The source computes the weights and distances in f64. The model keeps the
  special values of IEEE 754 (infinities and NaN, which a zero match error
  produces) and leaves the rounding of finite results to a given function.
 */
module Smoothing {
  import opened Raster
  import opened Operations

  datatype SmoothingSettings = SmoothingSettings(filterWindowWidth: u32)

  /** `SmoothingSettings::default()`: a 3 x 3 window. */
  const DefaultSmoothingSettings := SmoothingSettings(3)

  // ---------------------------------------------------------------------------
  // f64 values

  datatype F64 = Finite(value: real) | PosInf | NegInf | NaN

  /** The rounding of an exact real result to an f64, and the f64 square root
      of a u16 value. */
  datatype FloatOps = FloatOps(round: real -> real, root: nat -> real)

  function Sign(x: F64): int
    requires !x.NaN?
  {
    match x
    case PosInf => 1
    case NegInf => -1
    case Finite(v) => if v > 0.0 then 1 else if v < 0.0 then -1 else 0
  }

  /** `a as f64 / b as f64` for two u32 values: 0/0 is NaN, a/0 is +infinity. */
  function Quotient(ops: FloatOps, a: nat, b: nat): (q: F64)
    ensures q.NaN? <==> a == 0 && b == 0
    ensures q.PosInf? <==> a > 0 && b == 0
    ensures b > 0 ==> q.Finite?
  {
    if b == 0 then (if a == 0 then NaN else PosInf)
    else Finite(ops.round(a as real / b as real))
  }

  /** `x * y`: NaN absorbs, infinity times zero is NaN. */
  function Product(ops: FloatOps, x: F64, y: F64): (p: F64)
    ensures (x.NaN? || y.NaN?) ==> p.NaN?
    ensures x.Finite? && y.Finite? ==> p.Finite?
  {
    if x.NaN? || y.NaN? then NaN
    else if x.Finite? && y.Finite? then Finite(ops.round(x.value * y.value))
    else if Sign(x) * Sign(y) == 0 then NaN
    else if Sign(x) * Sign(y) > 0 then PosInf
    else NegInf
  }

  /** `x + y`: NaN absorbs, opposite infinities give NaN. */
  function Sum(ops: FloatOps, x: F64, y: F64): (s: F64)
    ensures (x.NaN? || y.NaN?) ==> s.NaN?
    ensures x.Finite? && y.Finite? ==> s.Finite?
  {
    if x.NaN? || y.NaN? then NaN
    else if x.Finite? && y.Finite? then Finite(ops.round(x.value + y.value))
    else if (x.PosInf? && y.NegInf?) || (x.NegInf? && y.PosInf?) then NaN
    else if x.PosInf? || y.PosInf? then PosInf
    else NegInf
  }

  /** `x < y`: false whenever either side is NaN. */
  predicate Less(x: F64, y: F64)
  {
    if x.NaN? || y.NaN? then false
    else if x.Finite? && y.Finite? then x.value < y.value
    else (x.NegInf? && !y.NegInf?) || (!x.PosInf? && y.PosInf?)
  }

  /** `<` is a strict total order on the values other than NaN: NaN is
      comparable with nothing, nothing is below -infinity and +infinity is
      below nothing. */
  lemma LessOrder(x: F64, y: F64, z: F64)
    ensures Less(x, y) ==> !x.NaN? && !y.NaN? && !x.PosInf? && !y.NegInf?
    ensures !Less(x, x)
    ensures Less(x, y) && Less(y, z) ==> Less(x, z)
    ensures !x.NaN? && !y.NaN? ==> Less(x, y) || x == y || Less(y, x)
  {
  }

  // ---------------------------------------------------------------------------
  // Filter windows

  /** The `fw` x `fw` window of the error flow centred on cell (i, j). */
  datatype Window = Window(ef: ErrorGrid, fw: nat, i: nat, j: nat)
  {
    /** The window lies inside a rectangular flow, and the u32 sums `i + y` and
        `j + x` of the source do not overflow. */
    ghost predicate Inside()
    {
      |ef| >= 1 && IsGrid(ef, |ef|, |ef[0]|) && fw >= 1 &&
      fw / 2 <= i && i + fw - fw / 2 <= |ef| && fw / 2 <= j && j + fw - fw / 2 <= |ef[0]| &&
      i + fw <= U32_MAX + 1 && j + fw <= U32_MAX + 1
    }

    /** Cell (y, x) of the window: flow cell (i + y - fw/2, j + x - fw/2). */
    function Cell(y: nat, x: nat): ErrorVector
      requires Inside() && y < fw && x < fw
    {
      ef[i + y - fw / 2][j + x - fw / 2]
    }

    /** `vector_diff` does not overflow its u16 arithmetic for any two vectors of the window. */
    ghost predicate Fits()
    {
      Inside() &&
      forall a, b, c, d | 0 <= a < fw && 0 <= b < fw && 0 <= c < fw && 0 <= d < fw :: PairFits(a, b, c, d)
    }

    /** `vector_diff` of window cells (a, b) and (c, d) does not overflow. */
    ghost predicate PairFits(a: nat, b: nat, c: nat, d: nat)
      requires Inside() && a < fw && b < fw && c < fw && d < fw
    {
      DiffFits(Strip(Cell(a, b)), Strip(Cell(c, d)))
    }
  }

  function Strip(e: ErrorVector): Vector
  {
    (e.0, e.1)
  }

  /** `|v.0 - w.0|^2 + |v.1 - w.1|^2` */
  function SquaredDiff(v: Vector, w: Vector): (s: nat)
    ensures s == 0 <==> v == w
  {
    Sq(v.0 - w.0) + Sq(v.1 - w.1)
  }

  /** Neither `abs_diff(..).pow(2)` nor their sum leaves the u16 range. */
  predicate DiffFits(v: Vector, w: Vector)
  {
    -255 <= v.0 - w.0 <= 255 && -255 <= v.1 - w.1 <= 255 && SquaredDiff(v, w) <= 0xFFFF
  }

  /** `vector_diff`: the Euclidean distance of two vectors, a finite f64. */
  function VectorDiff(ops: FloatOps, v: Vector, w: Vector): (d: F64)
    requires DiffFits(v, w)
    ensures d.Finite?
  {
    Finite(ops.root(SquaredDiff(v, w)))
  }

  /** The distance does not depend on the order of the two vectors. */
  lemma VectorDiffSymmetric(ops: FloatOps, v: Vector, w: Vector)
    requires DiffFits(v, w)
    ensures DiffFits(w, v) && VectorDiff(ops, v, w) == VectorDiff(ops, w, v)
  {
    assert Sq(v.0 - w.0) == Sq(w.0 - v.0) && Sq(v.1 - w.1) == Sq(w.1 - v.1);
  }

  // ---------------------------------------------------------------------------
  // Weights and deviations

  /** The weights of the window: the centre's error divided by each cell's. */
  function WindowWeights(win: Window, ops: FloatOps): (w: seq<seq<F64>>)
    requires win.Inside()
    ensures IsGrid(w, win.fw, win.fw)
    ensures forall y, x | 0 <= y < win.fw && 0 <= x < win.fw ::
      w[y][x] == Quotient(ops, win.ef[win.i][win.j].2, win.Cell(y, x).2)
  {
    seq(win.fw, y requires 0 <= y < win.fw =>
      seq(win.fw, x requires 0 <= x < win.fw => Quotient(ops, win.ef[win.i][win.j].2, win.Cell(y, x).2)))
  }

  /** The shape `get_median_weighted_vector` asserts and indexes. */
  ghost predicate WeightsFit(w: seq<seq<F64>>, fw: nat)
  {
    |w| == fw >= 1 && |w[0]| == fw && forall k | 0 <= k < fw :: |w[k]| >= fw
  }

  /** The term that neighbour (ni, nj) adds to the deviation of candidate (a, b). */
  function Term(win: Window, w: seq<seq<F64>>, ops: FloatOps, a: nat, b: nat, ni: nat, nj: nat): F64
    requires win.Fits() && WeightsFit(w, win.fw) && a < win.fw && b < win.fw && ni < win.fw && nj < win.fw
  {
    assert win.PairFits(a, b, ni, nj);
    Product(ops, w[ni][nj], VectorDiff(ops, Strip(win.Cell(a, b)), Strip(win.Cell(ni, nj))))
  }

  /** The running deviation of candidate (a, b) after the first ni rows of
      neighbours and nj further neighbours, summed in the source's order. With
      finite weights (no neighbour's error is 0) it stays finite. */
  function Deviation(win: Window, w: seq<seq<F64>>, ops: FloatOps, a: nat, b: nat, ni: nat, nj: nat): (d: F64)
    requires win.Fits() && WeightsFit(w, win.fw) && a < win.fw && b < win.fw
    requires ni <= win.fw && nj <= win.fw && (ni == win.fw ==> nj == 0)
    ensures (forall y, x | 0 <= y < win.fw && 0 <= x < win.fw :: w[y][x].Finite?) ==> d.Finite?
    decreases ni, nj
  {
    if nj > 0 then Sum(ops, Deviation(win, w, ops, a, b, ni, nj - 1), Term(win, w, ops, a, b, ni, nj - 1))
    else if ni > 0 then Deviation(win, w, ops, a, b, ni - 1, win.fw)
    else Finite(0.0)
  }

  type DeviationTable = (int, int) -> F64
  type CandidateTable = (int, int) -> Vector

  /** The deviation of every candidate of the window (NaN outside it). */
  ghost function Deviations(win: Window, w: seq<seq<F64>>, ops: FloatOps): DeviationTable
    requires win.Fits() && WeightsFit(w, win.fw)
  {
    (a: int, b: int) => if 0 <= a < win.fw && 0 <= b < win.fw then Deviation(win, w, ops, a, b, win.fw, 0) else NaN
  }

  /** The vector of every candidate of the window ((0, 0) outside it). */
  ghost function Candidates(win: Window): CandidateTable
    requires win.Inside()
  {
    (a: int, b: int) => if 0 <= a < win.fw && 0 <= b < win.fw then Strip(win.Cell(a, b)) else Zero
  }

  // ---------------------------------------------------------------------------
  // The choice of the median vector

  /** The minimum so far and its vector, replaced when a deviation is strictly less. */
  function Improve(s: (F64, Vector), d: F64, v: Vector): (F64, Vector)
  {
    if Less(d, s.0) then (d, v) else s
  }

  /** The minimum and vector after the first a rows of candidates and b further
      candidates; they start at +infinity and (0, 0). */
  function MedianScan(dev: DeviationTable, cand: CandidateTable, fw: nat, a: nat, b: nat): (s: (F64, Vector))
    requires a <= fw && b <= fw && (a == fw ==> b == 0)
    ensures s.0.PosInf? ==> s.1 == Zero
    ensures !s.0.PosInf? ==> exists x, y | 0 <= x < fw && 0 <= y < fw && (x < a || (x == a && y < b)) :: s == (dev(x, y), cand(x, y))
    decreases a, b
  {
    if b > 0 then Improve(MedianScan(dev, cand, fw, a, b - 1), dev(a, b - 1), cand(a, b - 1))
    else if a > 0 then MedianScan(dev, cand, fw, a - 1, fw)
    else (PosInf, Zero)
  }

  /** Candidate (x, y) is among the first a rows and b further candidates. */
  ghost predicate Visited(fw: nat, a: nat, b: nat, x: int, y: int)
  {
    0 <= x < fw && 0 <= y < fw && (x < a || (x == a && y < b))
  }

  /** Candidate (x, y) comes strictly before (p, q). */
  ghost predicate Earlier(x: int, y: int, p: int, q: int)
  {
    x < p || (x == p && y < q)
  }

  /** No visited deviation is below the minimum. Either nothing was taken (every
      visited deviation is NaN or +infinity), or the minimum and vector are those
      of a visited candidate (x, y), below +infinity, and every earlier
      candidate's deviation differs from it. */
  lemma {:induction false} MedianChoice(dev: DeviationTable, cand: CandidateTable, fw: nat, a: nat, b: nat)
    returns (x: int, y: int)
    requires a <= fw && b <= fw && (a == fw ==> b == 0)
    ensures var s := MedianScan(dev, cand, fw, a, b);
      (forall p, q | Visited(fw, a, b, p, q) :: !Less(dev(p, q), s.0)) &&
      (s == (PosInf, Zero) ||
       (Visited(fw, a, b, x, y) && s == (dev(x, y), cand(x, y)) && Less(s.0, PosInf) &&
        forall p, q | Visited(fw, a, b, p, q) && Earlier(p, q, x, y) :: dev(p, q) != s.0))
    decreases a, b
  {
    x, y := 0, 0;
    if b > 0 {
      var s0 := MedianScan(dev, cand, fw, a, b - 1);
      x, y := MedianChoice(dev, cand, fw, a, b - 1);
      assert forall p, q | Visited(fw, a, b, p, q) :: Visited(fw, a, b - 1, p, q) || (p, q) == (a, b - 1);
      if Less(dev(a, b - 1), s0.0) {
        forall p, q | Visited(fw, a, b - 1, p, q)
          ensures !Less(dev(p, q), dev(a, b - 1))
        {
          LessOrder(dev(p, q), dev(a, b - 1), s0.0);
        }
        LessOrder(dev(a, b - 1), s0.0, PosInf);
        x, y := a, b - 1;
      } else {
        LessOrder(dev(a, b - 1), dev(a, b - 1), dev(a, b - 1));
      }
    } else if a > 0 {
      x, y := MedianChoice(dev, cand, fw, a - 1, fw);
      assert forall p, q | Visited(fw, a, 0, p, q) :: Visited(fw, a - 1, fw, p, q);
    }
  }

  /** The vector `get_median_weighted_vector` picks for the window with weights w. */
  ghost function MedianOf(win: Window, w: seq<seq<F64>>, ops: FloatOps): (v: Vector)
    requires win.Fits() && WeightsFit(w, win.fw)
    ensures v == Zero || exists y, x | 0 <= y < win.fw && 0 <= x < win.fw :: v == Strip(win.Cell(y, x))
  {
    MedianScan(Deviations(win, w, ops), Candidates(win), win.fw, win.fw, 0).1
  }

  // ---------------------------------------------------------------------------
  // The smoothed flow

  /** Cell (i, j) is at least half a window away from every edge. */
  predicate Interior(rows: nat, cols: nat, fw: nat, i: nat, j: nat)
  {
    fw / 2 <= i < rows - fw / 2 && fw / 2 <= j < cols - fw / 2
  }

  /** What `smooth_error_flow` needs: a rectangular flow with at least one row,
      each dimension at least half a window (the u32 subtraction
      `len - half_fw`) and, with the window width added, within a u32; no
      overflow in `vector_diff` within any interior cell's window. */
  ghost predicate SmoothFits(ef: ErrorGrid, fw: nat)
  {
    |ef| >= 1 && IsGrid(ef, |ef|, |ef[0]|) &&
    |ef| >= fw / 2 && |ef[0]| >= fw / 2 &&
    |ef| + fw <= U32_MAX && |ef[0]| + fw <= U32_MAX &&
    forall i, j | Interior(|ef|, |ef[0]|, fw, i, j) :: Window(ef, fw, i, j).Fits()
  }

  /** An interior cell's window lies inside the flow. */
  lemma InteriorWindow(ef: ErrorGrid, fw: nat, i: nat, j: nat)
    requires fw % 2 == 1 && SmoothFits(ef, fw) && Interior(|ef|, |ef[0]|, fw, i, j)
    ensures Window(ef, fw, i, j).Fits()
  {
  }

  /** Cell (i, j) of the smoothed flow: the weighted median of its window inside,
      its own vector near the edges. Either way it is (0, 0) or a vector the
      input flow holds somewhere. */
  ghost function SmoothedCell(ef: ErrorGrid, fw: nat, ops: FloatOps, i: nat, j: nat): (v: Vector)
    requires fw % 2 == 1 && SmoothFits(ef, fw) && i < |ef| && j < |ef[0]|
    ensures v == Zero || exists k, l | 0 <= k < |ef| && 0 <= l < |ef[0]| :: v == Strip(ef[k][l])
  {
    if Interior(|ef|, |ef[0]|, fw, i, j) then
      var win := Window(ef, fw, i, j);
      InteriorWindow(ef, fw, i, j);
      MedianOf(win, WindowWeights(win, ops), ops)
    else Strip(ef[i][j])
  }

  /** The flow `smooth_error_flow` returns. */
  ghost function Smoothed(ef: ErrorGrid, fw: nat, ops: FloatOps): (flow: Flow)
    requires fw % 2 == 1 && SmoothFits(ef, fw)
    ensures IsGrid(flow, |ef|, |ef[0]|)
    ensures forall i, j | 0 <= i < |ef| && 0 <= j < |ef[0]| :: flow[i][j] == SmoothedCell(ef, fw, ops, i, j)
  {
    seq(|ef|, i requires 0 <= i < |ef| =>
      seq(|ef[0]|, j requires 0 <= j < |ef[0]| => SmoothedCell(ef, fw, ops, i, j)))
  }

  // ---------------------------------------------------------------------------
  // Properties

  /** An interior cell becomes the vector of a window cell (x, y) whose deviation
      is below +infinity, no deviation of the window is below it, and no earlier
      cell of the window has the same deviation; or, when every deviation is NaN
      or +infinity, it becomes (0, 0). */
  lemma SmoothedCellIsWeightedMedian(ef: ErrorGrid, fw: nat, ops: FloatOps, i: nat, j: nat)
    returns (x: nat, y: nat)
    requires fw % 2 == 1 && SmoothFits(ef, fw) && Interior(|ef|, |ef[0]|, fw, i, j)
    ensures Window(ef, fw, i, j).Fits() && x < fw && y < fw
    ensures var win := Window(ef, fw, i, j);
      var dev := Deviations(win, WindowWeights(win, ops), ops);
      (forall p, q | 0 <= p < fw && 0 <= q < fw :: !Less(dev(p, q), PosInf)) ==> SmoothedCell(ef, fw, ops, i, j) == Zero
    ensures var win := Window(ef, fw, i, j);
      var dev := Deviations(win, WindowWeights(win, ops), ops);
      (exists p, q | 0 <= p < fw && 0 <= q < fw :: Less(dev(p, q), PosInf)) ==>
        SmoothedCell(ef, fw, ops, i, j) == Strip(win.Cell(x, y)) && Less(dev(x, y), PosInf) &&
        (forall p, q | 0 <= p < fw && 0 <= q < fw :: !Less(dev(p, q), dev(x, y))) &&
        (forall p, q | 0 <= p < fw && 0 <= q < fw && Earlier(p, q, x, y) :: dev(p, q) != dev(x, y))
  {
    var win := Window(ef, fw, i, j);
    InteriorWindow(ef, fw, i, j);
    var dev := Deviations(win, WindowWeights(win, ops), ops);
    var px, py := MedianChoice(dev, Candidates(win), fw, fw, 0);
    assert forall p, q | 0 <= p < fw && 0 <= q < fw :: Visited(fw, fw, 0, p, q);
    if MedianScan(dev, Candidates(win), fw, fw, 0) == (PosInf, Zero) {
      x, y := 0, 0;
    } else {
      x, y := px, py;
    }
  }

  /** A NaN weight makes every deviation NaN: NaN absorbs in products and sums. */
  lemma {:induction false} NaNWeightSpreads(win: Window, w: seq<seq<F64>>, ops: FloatOps, a: nat, b: nat, p: nat, q: nat, ni: nat, nj: nat)
    requires win.Fits() && WeightsFit(w, win.fw) && a < win.fw && b < win.fw
    requires ni <= win.fw && nj <= win.fw && (ni == win.fw ==> nj == 0)
    requires Visited(win.fw, ni, nj, p, q) && w[p][q].NaN?
    ensures Deviation(win, w, ops, a, b, ni, nj).NaN?
    decreases ni, nj
  {
    if nj > 0 {
      if (p, q) != (ni, nj - 1) {
        NaNWeightSpreads(win, w, ops, a, b, p, q, ni, nj - 1);
      }
    } else {
      NaNWeightSpreads(win, w, ops, a, b, p, q, ni - 1, win.fw);
    }
  }

  /** With finite weights, f64 zero rounding to itself and a zero square root of
      zero, the deviation of a candidate equal to all its neighbours is 0. */
  lemma {:induction false} EqualVectorsZeroDeviation(win: Window, w: seq<seq<F64>>, ops: FloatOps, a: nat, b: nat, ni: nat, nj: nat)
    requires win.Fits() && WeightsFit(w, win.fw) && a < win.fw && b < win.fw
    requires ni <= win.fw && nj <= win.fw && (ni == win.fw ==> nj == 0)
    requires ops.round(0.0) == 0.0 && ops.root(0) == 0.0
    requires forall y, x | 0 <= y < win.fw && 0 <= x < win.fw :: w[y][x].Finite? && Strip(win.Cell(y, x)) == Strip(win.Cell(a, b))
    ensures Deviation(win, w, ops, a, b, ni, nj) == Finite(0.0)
    decreases ni, nj
  {
    if nj > 0 {
      EqualVectorsZeroDeviation(win, w, ops, a, b, ni, nj - 1);
      assert Term(win, w, ops, a, b, ni, nj - 1) == Finite(0.0);
    } else if ni > 0 {
      EqualVectorsZeroDeviation(win, w, ops, a, b, ni - 1, win.fw);
    }
  }

  /** An interior cell whose match error is 0 is smoothed to (0, 0), whatever its
      window holds: its own weight is 0/0, a NaN that every deviation inherits,
      and no NaN compares below the initial +infinity. */
  lemma ZeroErrorCellSmoothsToZero(ef: ErrorGrid, fw: nat, ops: FloatOps, i: nat, j: nat)
    requires fw % 2 == 1 && SmoothFits(ef, fw) && Interior(|ef|, |ef[0]|, fw, i, j)
    requires ef[i][j].2 == 0
    ensures SmoothedCell(ef, fw, ops, i, j) == Zero
  {
    var win := Window(ef, fw, i, j);
    InteriorWindow(ef, fw, i, j);
    var w := WindowWeights(win, ops);
    var h := fw / 2;
    assert win.Cell(h, h) == ef[i][j];
    forall a, b | 0 <= a < fw && 0 <= b < fw
      ensures Deviations(win, w, ops)(a, b).NaN?
    {
      NaNWeightSpreads(win, w, ops, a, b, h, h, fw, 0);
    }
    var x, y := SmoothedCellIsWeightedMedian(ef, fw, ops, i, j);
  }

  /** A flow whose cells all hold the same vector with non-zero errors is left
      unchanged by smoothing (given that f64 rounding keeps 0 and sqrt(0) = 0). */
  lemma UniformFlowUnchanged(ef: ErrorGrid, fw: nat, ops: FloatOps)
    requires fw % 2 == 1 && SmoothFits(ef, fw) && |ef[0]| >= 1
    requires ops.round(0.0) == 0.0 && ops.root(0) == 0.0
    requires forall k, l | 0 <= k < |ef| && 0 <= l < |ef[0]| :: Strip(ef[k][l]) == Strip(ef[0][0]) && ef[k][l].2 > 0
    ensures Smoothed(ef, fw, ops) == Filled(|ef|, |ef[0]|, Strip(ef[0][0]))
  {
    forall i, j | 0 <= i < |ef| && 0 <= j < |ef[0]|
      ensures SmoothedCell(ef, fw, ops, i, j) == Strip(ef[0][0])
    {
      if Interior(|ef|, |ef[0]|, fw, i, j) {
        UniformWindowKeepsVector(ef, fw, ops, i, j);
      }
    }
    GridExtensionality(Smoothed(ef, fw, ops), Filled(|ef|, |ef[0]|, Strip(ef[0][0])), |ef|, |ef[0]|);
  }

  lemma UniformWindowKeepsVector(ef: ErrorGrid, fw: nat, ops: FloatOps, i: nat, j: nat)
    requires fw % 2 == 1 && SmoothFits(ef, fw) && Interior(|ef|, |ef[0]|, fw, i, j) && |ef[0]| >= 1
    requires ops.round(0.0) == 0.0 && ops.root(0) == 0.0
    requires forall k, l | 0 <= k < |ef| && 0 <= l < |ef[0]| :: Strip(ef[k][l]) == Strip(ef[0][0]) && ef[k][l].2 > 0
    ensures SmoothedCell(ef, fw, ops, i, j) == Strip(ef[0][0])
  {
    var win := Window(ef, fw, i, j);
    InteriorWindow(ef, fw, i, j);
    var w := WindowWeights(win, ops);
    EqualVectorsZeroDeviation(win, w, ops, 0, 0, fw, 0);
    assert Less(Deviations(win, w, ops)(0, 0), PosInf);
    var x, y := SmoothedCellIsWeightedMedian(ef, fw, ops, i, j);
  }

  /** Smoothing only ever picks vectors of the flow or (0, 0), so it keeps any
      bound on their components. */
  lemma SmoothedWithin(ef: ErrorGrid, fw: nat, ops: FloatOps, bound: nat)
    requires fw % 2 == 1 && SmoothFits(ef, fw)
    requires forall k, l | 0 <= k < |ef| && 0 <= l < |ef[0]| ::
      -(bound as int) <= ef[k][l].0 <= bound && -(bound as int) <= ef[k][l].1 <= bound
    ensures forall i, j | 0 <= i < |ef| && 0 <= j < |ef[0]| ::
      -(bound as int) <= Smoothed(ef, fw, ops)[i][j].0 <= bound && -(bound as int) <= Smoothed(ef, fw, ops)[i][j].1 <= bound
  {
    forall i, j | 0 <= i < |ef| && 0 <= j < |ef[0]|
      ensures -(bound as int) <= SmoothedCell(ef, fw, ops, i, j).0 <= bound
      ensures -(bound as int) <= SmoothedCell(ef, fw, ops, i, j).1 <= bound
    {
      if Interior(|ef|, |ef[0]|, fw, i, j) {
        var x, y := SmoothedCellIsWeightedMedian(ef, fw, ops, i, j);
      }
    }
  }

  // ---------------------------------------------------------------------------
  // The loops of smoothing.rs

  /** `get_window_weights` */
  method GetWindowWeights(ef: ErrorGrid, fw: u32, i: u32, j: u32, ops: FloatOps) returns (weights: seq<seq<F64>>)
    requires Window(ef, fw, i, j).Inside()
    ensures weights == WindowWeights(Window(ef, fw, i, j), ops)
  {
    ghost var win := Window(ef, fw, i, j);
    weights := Filled(fw, fw, Finite(0.0));
    var centerError := ef[i][j].2;
    var y := 0;
    while y < fw
      invariant 0 <= y <= fw && IsGrid(weights, fw, fw)
      invariant forall k, l | 0 <= k < fw && 0 <= l < fw ::
        weights[k][l] == if k < y then Quotient(ops, centerError, win.Cell(k, l).2) else Finite(0.0)
    {
      var x := 0;
      while x < fw
        invariant 0 <= x <= fw && IsGrid(weights, fw, fw)
        invariant forall k, l | 0 <= k < fw && 0 <= l < fw ::
          weights[k][l] == if k < y || (k == y && l < x) then Quotient(ops, centerError, win.Cell(k, l).2) else Finite(0.0)
      {
        weights := SetCell(weights, y, x, Quotient(ops, centerError, ef[i + y - fw / 2][j + x - fw / 2].2));
        x := x + 1;
      }
      y := y + 1;
    }
    GridExtensionality(weights, WindowWeights(win, ops), fw, fw);
  }

  /** The two inner loops of `get_median_weighted_vector`: the deviation of
      candidate (vi, vj). */
  method ComputeDeviation(ef: ErrorGrid, fw: u32, weights: seq<seq<F64>>, i: u32, j: u32, ops: FloatOps, vi: u32, vj: u32)
    returns (deviation: F64)
    requires Window(ef, fw, i, j).Fits() && WeightsFit(weights, fw) && vi < fw && vj < fw
    ensures deviation == Deviation(Window(ef, fw, i, j), weights, ops, vi, vj, fw, 0)
  {
    ghost var win := Window(ef, fw, i, j);
    var cur := (ef[i + vi - fw / 2][j + vj - fw / 2].0, ef[i + vi - fw / 2][j + vj - fw / 2].1);
    deviation := Finite(0.0);
    var ni := 0;
    while ni < fw
      invariant 0 <= ni <= fw && deviation == Deviation(win, weights, ops, vi, vj, ni, 0)
    {
      var nj := 0;
      while nj < fw
        invariant 0 <= nj <= fw && deviation == Deviation(win, weights, ops, vi, vj, ni, nj)
      {
        deviation := AddTerm(ef, fw, weights, i, j, ops, cur, vi, vj, ni, nj, deviation);
        nj := nj + 1;
      }
      ni := ni + 1;
    }
  }

  /** The body of the innermost loop: the weighted distance of candidate cur,
      which is window cell (vi, vj), to neighbour (ni, nj) added to the deviation. */
  method AddTerm(ef: ErrorGrid, fw: u32, weights: seq<seq<F64>>, i: u32, j: u32, ops: FloatOps, cur: Vector,
                 vi: u32, vj: u32, ni: u32, nj: u32, deviation0: F64)
    returns (deviation: F64)
    requires Window(ef, fw, i, j).Fits() && WeightsFit(weights, fw) && vi < fw && vj < fw && ni < fw && nj < fw
    requires cur == Strip(Window(ef, fw, i, j).Cell(vi, vj))
    ensures deviation == Sum(ops, deviation0, Term(Window(ef, fw, i, j), weights, ops, vi, vj, ni, nj))
  {
    var neighbor := (ef[i + ni - fw / 2][j + nj - fw / 2].0, ef[i + ni - fw / 2][j + nj - fw / 2].1);
    assert Window(ef, fw, i, j).PairFits(vi, vj, ni, nj);
    deviation := Sum(ops, deviation0, Product(ops, weights[ni][nj], VectorDiff(ops, cur, neighbor)));
  }

  /** `get_median_weighted_vector` */
  method GetMedianWeightedVector(ef: ErrorGrid, fw: u32, weights: seq<seq<F64>>, i: u32, j: u32, ops: FloatOps)
    returns (mwv: Vector)
    requires Window(ef, fw, i, j).Fits() && WeightsFit(weights, fw)
    ensures mwv == MedianOf(Window(ef, fw, i, j), weights, ops)
  {
    ghost var win := Window(ef, fw, i, j);
    ghost var dev := Deviations(win, weights, ops);
    ghost var cand := Candidates(win);
    var minDeviation := PosInf;
    mwv := Zero;
    var vi := 0;
    while vi < fw
      invariant 0 <= vi <= fw && (minDeviation, mwv) == MedianScan(dev, cand, fw, vi, 0)
    {
      var vj := 0;
      while vj < fw
        invariant 0 <= vj <= fw && (minDeviation, mwv) == MedianScan(dev, cand, fw, vi, vj)
      {
        minDeviation, mwv := TryCandidate(ef, fw, weights, i, j, ops, vi, vj, minDeviation, mwv);
        vj := vj + 1;
      }
      vi := vi + 1;
    }
  }

  /** The body of the candidate loops: candidate (vi, vj) replaces the median so
      far when its deviation is strictly less. */
  method TryCandidate(ef: ErrorGrid, fw: u32, weights: seq<seq<F64>>, i: u32, j: u32, ops: FloatOps, vi: u32, vj: u32,
                      minDeviation0: F64, mwv0: Vector)
    returns (minDeviation: F64, mwv: Vector)
    requires Window(ef, fw, i, j).Fits() && WeightsFit(weights, fw) && vi < fw && vj < fw
    ensures (minDeviation, mwv) == Improve((minDeviation0, mwv0),
      Deviations(Window(ef, fw, i, j), weights, ops)(vi, vj), Candidates(Window(ef, fw, i, j))(vi, vj))
  {
    minDeviation, mwv := minDeviation0, mwv0;
    var curMwv := (ef[i + vi - fw / 2][j + vj - fw / 2].0, ef[i + vi - fw / 2][j + vj - fw / 2].1);
    var curDeviation := ComputeDeviation(ef, fw, weights, i, j, ops, vi, vj);
    ghost var win := Window(ef, fw, i, j);
    assert curMwv == Candidates(win)(vi, vj);
    assert curDeviation == Deviations(win, weights, ops)(vi, vj);
    if Less(curDeviation, minDeviation) {
      minDeviation := curDeviation;
      mwv := curMwv;
    }
  }

  /** `smooth_error_flow`: the interior cells get their weighted median vector,
      then the first and last fw/2 columns of every row and the first and last
      fw/2 rows of every column get their own vector. */
  method SmoothErrorFlow(ef: ErrorGrid, fw: u32, ops: FloatOps) returns (flow: Flow)
    requires fw % 2 == 1 && SmoothFits(ef, fw)
    ensures flow == Smoothed(ef, fw, ops)
  {
    var half := fw / 2;
    var rows, cols := |ef|, |ef[0]|;
    flow := Filled(rows, cols, Zero);
    var i := half;
    while i < rows - half
      invariant half <= i && (i == half || i <= rows - half) && IsGrid(flow, rows, cols)
      invariant forall k, l | 0 <= k < rows && 0 <= l < cols ::
        flow[k][l] == if k < i && Interior(rows, cols, fw, k, l) then SmoothedCell(ef, fw, ops, k, l) else Zero
    {
      flow := SmoothRow(ef, fw, ops, i, flow);
      i := i + 1;
    }
    i := 0;
    while i < rows
      invariant 0 <= i <= rows && IsGrid(flow, rows, cols)
      invariant forall k, l | 0 <= k < rows && 0 <= l < cols ::
        flow[k][l] == if Interior(rows, cols, fw, k, l) then SmoothedCell(ef, fw, ops, k, l)
                      else if k < i && (l < half || l >= cols - half) then Strip(ef[k][l])
                      else Zero
    {
      flow := FillRowEnds(ef, fw, i, flow);
      i := i + 1;
    }
    var j := 0;
    while j < cols
      invariant 0 <= j <= cols && IsGrid(flow, rows, cols)
      invariant forall k, l | 0 <= k < rows && 0 <= l < cols ::
        flow[k][l] == if Interior(rows, cols, fw, k, l) then SmoothedCell(ef, fw, ops, k, l)
                      else if l < half || l >= cols - half || (l < j && (k < half || k >= rows - half)) then Strip(ef[k][l])
                      else Zero
    {
      flow := FillColumnEnds(ef, fw, j, flow);
      j := j + 1;
    }
    GridExtensionality(flow, Smoothed(ef, fw, ops), rows, cols);
  }

  /** One row of the first loop nest of `smooth_error_flow`. */
  method SmoothRow(ef: ErrorGrid, fw: u32, ops: FloatOps, i: u32, flow0: Flow) returns (flow: Flow)
    requires fw % 2 == 1 && SmoothFits(ef, fw) && fw / 2 <= i < |ef| - fw / 2
    requires IsGrid(flow0, |ef|, |ef[0]|)
    requires forall k, l | 0 <= k < |ef| && 0 <= l < |ef[0]| ::
      flow0[k][l] == if k < i && Interior(|ef|, |ef[0]|, fw, k, l) then SmoothedCell(ef, fw, ops, k, l) else Zero
    ensures IsGrid(flow, |ef|, |ef[0]|)
    ensures forall k, l | 0 <= k < |ef| && 0 <= l < |ef[0]| ::
      flow[k][l] == if k <= i && Interior(|ef|, |ef[0]|, fw, k, l) then SmoothedCell(ef, fw, ops, k, l) else Zero
  {
    var half := fw / 2;
    var rows, cols := |ef|, |ef[0]|;
    flow := flow0;
    var j := half;
    while j < cols - half
      invariant half <= j && (j == half || j <= cols - half) && IsGrid(flow, rows, cols)
      invariant forall k, l | 0 <= k < rows && 0 <= l < cols ::
        flow[k][l] == if (k < i || (k == i && l < j)) && Interior(rows, cols, fw, k, l) then SmoothedCell(ef, fw, ops, k, l) else Zero
    {
      InteriorWindow(ef, fw, i, j);
      var weights := GetWindowWeights(ef, fw, i, j, ops);
      var v := GetMedianWeightedVector(ef, fw, weights, i, j, ops);
      flow := SetCell(flow, i, j, v);
      j := j + 1;
    }
  }

  /** The offsets loop of the second loop nest for row i: its first and last
      fw/2 cells. */
  method FillRowEnds(ef: ErrorGrid, fw: u32, i: nat, flow0: Flow) returns (flow: Flow)
    requires SmoothFits(ef, fw) && i < |ef| && IsGrid(flow0, |ef|, |ef[0]|)
    ensures IsGrid(flow, |ef|, |ef[0]|)
    ensures forall k, l | 0 <= k < |ef| && 0 <= l < |ef[0]| ::
      flow[k][l] == if k == i && (l < fw / 2 || l >= |ef[0]| - fw / 2) then Strip(ef[k][l]) else flow0[k][l]
  {
    var cols := |ef[i]|;
    flow := flow0;
    var offset := 0;
    while offset < fw / 2
      invariant 0 <= offset <= fw / 2 && IsGrid(flow, |ef|, |ef[0]|)
      invariant forall k, l | 0 <= k < |ef| && 0 <= l < |ef[0]| ::
        flow[k][l] == if k == i && (l < offset || l >= cols - offset) then Strip(ef[k][l]) else flow0[k][l]
    {
      flow := SetCell(flow, i, offset, (ef[i][offset].0, ef[i][offset].1));
      flow := SetCell(flow, i, cols - 1 - offset, (ef[i][cols - 1 - offset].0, ef[i][cols - 1 - offset].1));
      offset := offset + 1;
    }
  }

  /** The offsets loop of the third loop nest for column j: its first and last
      fw/2 cells. */
  method FillColumnEnds(ef: ErrorGrid, fw: u32, j: nat, flow0: Flow) returns (flow: Flow)
    requires SmoothFits(ef, fw) && j < |ef[0]| && IsGrid(flow0, |ef|, |ef[0]|)
    ensures IsGrid(flow, |ef|, |ef[0]|)
    ensures forall k, l | 0 <= k < |ef| && 0 <= l < |ef[0]| ::
      flow[k][l] == if l == j && (k < fw / 2 || k >= |ef| - fw / 2) then Strip(ef[k][l]) else flow0[k][l]
  {
    var rows := |ef|;
    flow := flow0;
    var offset := 0;
    while offset < fw / 2
      invariant 0 <= offset <= fw / 2 && IsGrid(flow, |ef|, |ef[0]|)
      invariant forall k, l | 0 <= k < |ef| && 0 <= l < |ef[0]| ::
        flow[k][l] == if l == j && (k < offset || k >= rows - offset) then Strip(ef[k][l]) else flow0[k][l]
    {
      flow := SetCell(flow, offset, j, (ef[offset][j].0, ef[offset][j].1));
      flow := SetCell(flow, rows - 1 - offset, j, (ef[rows - 1 - offset][j].0, ef[rows - 1 - offset][j].1));
      offset := offset + 1;
    }
  }
}
