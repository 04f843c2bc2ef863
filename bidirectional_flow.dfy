/**
  Combining a forward and a backward flow
  (vfi/src/estimator/combinator/bidirectional_flow.rs): each cell becomes half
  the difference of the two vectors, with Rust's i16 arithmetic.
 */
module BidirectionalFlow {
  import opened Raster

  /** The i16 subtraction `a - b` does not overflow. */
  predicate DiffFitsI16(a: int, b: int)
  {
    -0x8000 <= a - b < 0x8000
  }

  /** What `combine_bidirectional_flows` needs: two flows with the same number of
      rows (at least one) and the same first-row length, every row long enough for
      that length, and no i16 overflow in a difference. */
  ghost predicate Combinable(f: Flow, b: Flow)
  {
    |f| == |b| && |f| >= 1 && |f[0]| == |b[0]| &&
    (forall i | 0 <= i < |f| :: |f[i]| >= |f[0]| && |b[i]| >= |f[0]|) &&
    (forall i, j | 0 <= i < |f| && 0 <= j < |f[0]| ::
       DiffFitsI16(f[i][j].0, b[i][j].0) && DiffFitsI16(f[i][j].1, b[i][j].1))
  }

  /** Half the difference of two vectors, each component truncated toward zero:
      twice the result is the difference itself or one step closer to zero. */
  function HalfDifference(v: Vector, w: Vector): (h: Vector)
    requires DiffFitsI16(v.0, w.0) && DiffFitsI16(v.1, w.1)
    ensures v.0 - w.0 >= 0 ==> 0 <= 2 * h.0 <= v.0 - w.0 <= 2 * h.0 + 1
    ensures v.0 - w.0 < 0 ==> 2 * h.0 - 1 <= v.0 - w.0 <= 2 * h.0 <= 0
    ensures v.1 - w.1 >= 0 ==> 0 <= 2 * h.1 <= v.1 - w.1 <= 2 * h.1 + 1
    ensures v.1 - w.1 < 0 ==> 2 * h.1 - 1 <= v.1 - w.1 <= 2 * h.1 <= 0
  {
    (TruncDiv(v.0 - w.0, 2), TruncDiv(v.1 - w.1, 2))
  }

  /** The combined flow as a value: |f| rows of |f[0]| cells. */
  function Combined(f: Flow, b: Flow): (flow: Flow)
    requires Combinable(f, b)
    ensures IsGrid(flow, |f|, |f[0]|)
    ensures forall i, j | 0 <= i < |f| && 0 <= j < |f[0]| :: flow[i][j] == HalfDifference(f[i][j], b[i][j])
  {
    seq(|f|, i requires 0 <= i < |f| =>
      seq(|f[0]|, j requires 0 <= j < |f[0]| => HalfDifference(f[i][j], b[i][j])))
  }

  /** `combine_bidirectional_flows` */
  method CombineBidirectionalFlows(f: Flow, b: Flow) returns (flow: Flow)
    requires Combinable(f, b)
    ensures flow == Combined(f, b)
  {
    var rows, cols := |f|, |f[0]|;
    flow := Filled(rows, cols, Zero);
    var i := 0;
    while i < rows
      invariant 0 <= i <= rows
      invariant IsGrid(flow, rows, cols)
      invariant forall k, l | 0 <= k < rows && 0 <= l < cols ::
        flow[k][l] == if k < i then HalfDifference(f[k][l], b[k][l]) else Zero
    {
      var j := 0;
      while j < cols
        invariant 0 <= j <= cols
        invariant IsGrid(flow, rows, cols)
        invariant forall k, l | 0 <= k < rows && 0 <= l < cols ::
          flow[k][l] == if k < i || (k == i && l < j) then HalfDifference(f[k][l], b[k][l]) else Zero
      {
        var fx := TruncDiv(f[i][j].0 - b[i][j].0, 2);
        var fy := TruncDiv(f[i][j].1 - b[i][j].1, 2);
        flow := SetCell(flow, i, j, (fx, fy));
        j := j + 1;
      }
      i := i + 1;
    }
    GridExtensionality(flow, Combined(f, b), rows, cols);
  }

  /** A flow combined with itself is zero everywhere. */
  lemma CombineSameFlowIsZero(f: Flow)
    requires Combinable(f, f)
    ensures Combined(f, f) == Filled(|f|, |f[0]|, Zero)
  {
    var zero := Filled(|f|, |f[0]|, Zero);
    forall i, j | 0 <= i < |f| && 0 <= j < |f[0]|
      ensures Combined(f, f)[i][j] == zero[i][j]
    {
      var h := HalfDifference(f[i][j], f[i][j]);
      assert h.0 == 0 && h.1 == 0;
    }
    GridExtensionality(Combined(f, f), zero, |f|, |f[0]|);
  }

  /** Swapping the two flows negates every combined vector (truncation toward zero
      is symmetric about zero). */
  lemma CombineAntisymmetric(f: Flow, b: Flow, i: nat, j: nat)
    requires Combinable(f, b) && Combinable(b, f) && i < |f| && j < |f[0]|
    ensures Combined(b, f)[i][j] == (-Combined(f, b)[i][j].0, -Combined(f, b)[i][j].1)
  {
  }

  /** A backward flow that is exactly the reverse of the forward flow gives the
      forward flow back. */
  lemma CombineOppositeFlows(f: Flow, b: Flow)
    requires Combinable(f, b) && IsGrid(f, |f|, |f[0]|)
    requires forall i, j | 0 <= i < |f| && 0 <= j < |f[0]| :: b[i][j].0 as int == -(f[i][j].0 as int) && b[i][j].1 as int == -(f[i][j].1 as int)
    ensures Combined(f, b) == f
  {
    GridExtensionality(Combined(f, b), f, |f|, |f[0]|);
  }

  /** Every vector of the flow has both components within [-bound, bound]. */
  ghost predicate FlowWithin(f: Flow, bound: nat)
  {
    forall i, j | 0 <= i < |f| && 0 <= j < |f[i]| ::
      -(bound as int) <= f[i][j].0 <= bound && -(bound as int) <= f[i][j].1 <= bound
  }

  /** Two flows of the same shape whose vectors are at most 0x3FFF long in each
      component can be combined. */
  lemma CombinableWhenBounded(f: Flow, b: Flow, rows: nat, cols: nat, bound: nat)
    requires rows >= 1 && IsGrid(f, rows, cols) && IsGrid(b, rows, cols)
    requires bound <= 0x3FFF && FlowWithin(f, bound) && FlowWithin(b, bound)
    ensures Combinable(f, b)
  {
  }
}
