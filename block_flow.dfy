/**
  The flow grid that `calc_flow` builds (vfi/src/estimator/combinator/bma.rs and
  vfi/src/estimator/bma.rs): one cell per block of a ceil(H/bw) x ceil(W/bw) grid,
  holding the result of the block search, or `(0, 0, u32::MAX)` where the movement
  gate skipped the block.
 */
module BlockFlow {
  import opened Raster
  import opened Operations
  import opened BlockSearch

  /** What `calc_flow` needs so that it neither divides by zero, overflows a u32,
      nor reads outside a frame: a non-zero block width, small enough for the error
      sums when there is a search and for the gate's ratio when the gate is on;
      with the gate on, whole blocks only (the gate reads the unpadded frames);
      padded dimensions that fit in a u32; two frames of the same size. */
  ghost predicate FlowFits(f1: Frame, f2: Frame, bw: nat, r: nat, useMap: bool)
  {
    f1.Valid() && f2.Valid() && f1.width == f2.width && f1.height == f2.height &&
    1 <= bw && r <= 255 &&
    (r > 0 ==> bw <= MaxBlockWidth) &&
    (useMap ==> bw <= MaxGateWidth && f1.width % bw == 0 && f1.height % bw == 0) &&
    f1.width + 2 * (r + bw) <= U32_MAX && f1.height + 2 * (r + bw) <= U32_MAX
  }

  /** Block j of a ceil(w/bw)-block row ends at most bw - 1 pixels past the frame's
      edge, and inside it when bw divides w. */
  lemma BlockOrigin(j: nat, bw: nat, w: nat)
    requires 1 <= bw && j < DivCeil(w, bw)
    ensures j * bw + bw <= w + bw - 1
    ensures w % bw == 0 ==> j * bw + bw <= w
  {
    var q := DivCeil(w, bw);
    MulLe(j + 1, q, bw);
    MulSucc(j, bw);
    if w % bw == 0 {
      var k := w / bw;
      assert w == k * bw;
      MulSucc(k, bw);
      if j + 1 > k {
        MulLe(k + 1, j + 1, bw);
        assert false;
      }
      MulLe(j + 1, k, bw);
    }
  }

  /** Block (i, j) is searched: the gate is off, or it says the block moved. */
  ghost predicate Searched(f1: Frame, f2: Frame, bw: nat, r: nat, useMap: bool, minDiff: nat, minPct: nat, i: nat, j: nat)
    requires FlowFits(f1, f2, bw, r, useMap) && i < DivCeil(f1.height, bw) && j < DivCeil(f1.width, bw)
  {
    BlockOrigin(j, bw, f1.width);
    BlockOrigin(i, bw, f1.height);
    !useMap || Moved(f1, f2, j * bw, i * bw, bw, minDiff, minPct)
  }

  /** The search range of block (i, j) lies inside the frames padded by r + bw. */
  lemma PaddedSearchFits(f1: Frame, f2: Frame, bw: nat, r: nat, useMap: bool, i: nat, j: nat)
    requires FlowFits(f1, f2, bw, r, useMap) && i < DivCeil(f1.height, bw) && j < DivCeil(f1.width, bw)
    ensures PaddingDefined(f1, r + bw) && PaddingDefined(f2, r + bw)
    ensures SearchFits(Padded(f1, r + bw), Padded(f2, r + bw), r + bw + j * bw, r + bw + i * bw, bw, r)
  {
    BlockOrigin(j, bw, f1.width);
    BlockOrigin(i, bw, f1.height);
  }

  /** The search for block (i, j) over the padded frames. */
  ghost function BlockMatch(f1: Frame, f2: Frame, bw: nat, r: nat, useMap: bool, i: nat, j: nat): ErrorVector
    requires FlowFits(f1, f2, bw, r, useMap) && i < DivCeil(f1.height, bw) && j < DivCeil(f1.width, bw)
  {
    PaddedSearchFits(f1, f2, bw, r, useMap, i, j);
    BestMatch(Padded(f1, r + bw), Padded(f2, r + bw), r + bw + j * bw, r + bw + i * bw, bw, r)
  }

  /** Cell (i, j) of `calc_flow`: `(0, 0, u32::MAX)` for a block that is skipped
      or searched with radius 0; otherwise an offset of the search range with an
      error of at most 441^2. */
  ghost function FlowCell(f1: Frame, f2: Frame, bw: nat, r: nat, useMap: bool, minDiff: nat, minPct: nat, i: nat, j: nat): (c: ErrorVector)
    requires FlowFits(f1, f2, bw, r, useMap) && i < DivCeil(f1.height, bw) && j < DivCeil(f1.width, bw)
    ensures c == NoMatch || (InSearchRange(r, c.0, c.1) && c.2 <= MaxSquaredDifference)
  {
    if Searched(f1, f2, bw, r, useMap, minDiff, minPct, i, j) then BlockMatch(f1, f2, bw, r, useMap, i, j)
    else NoMatch
  }

  /** The flow grid of `calc_flow`. */
  ghost function ErrorFlow(f1: Frame, f2: Frame, bw: nat, r: nat, useMap: bool, minDiff: nat, minPct: nat): (flow: seq<seq<ErrorVector>>)
    requires FlowFits(f1, f2, bw, r, useMap)
    ensures IsGrid(flow, DivCeil(f1.height, bw), DivCeil(f1.width, bw))
    ensures forall i, j | 0 <= i < DivCeil(f1.height, bw) && 0 <= j < DivCeil(f1.width, bw) ::
      flow[i][j] == FlowCell(f1, f2, bw, r, useMap, minDiff, minPct, i, j)
  {
    seq(DivCeil(f1.height, bw), i requires 0 <= i < DivCeil(f1.height, bw) =>
      seq(DivCeil(f1.width, bw), j requires 0 <= j < DivCeil(f1.width, bw) =>
        FlowCell(f1, f2, bw, r, useMap, minDiff, minPct, i, j)))
  }

  /** `remove_flow_error_data` as a value: each cell keeps its `(dx, dy)`. */
  function StripErrors(ef: seq<seq<ErrorVector>>): (flow: seq<seq<Vector>>)
    ensures |flow| == |ef| && forall i | 0 <= i < |ef| :: |flow[i]| == |ef[i]|
    ensures forall i, j | 0 <= i < |ef| && 0 <= j < |ef[i]| :: flow[i][j] == (ef[i][j].0, ef[i][j].1)
  {
    seq(|ef|, i requires 0 <= i < |ef| => seq(|ef[i]|, j requires 0 <= j < |ef[i]| => (ef[i][j].0, ef[i][j].1)))
  }

  /** With a search radius of 0 nothing is searched: every cell is `(0, 0, u32::MAX)`. */
  lemma NoRadiusNoMotion(f1: Frame, f2: Frame, bw: nat, useMap: bool, minDiff: nat, minPct: nat, i: nat, j: nat)
    requires FlowFits(f1, f2, bw, 0, useMap) && i < DivCeil(f1.height, bw) && j < DivCeil(f1.width, bw)
    ensures FlowCell(f1, f2, bw, 0, useMap, minDiff, minPct, i, j) == NoMatch
  {
    PaddedSearchFits(f1, f2, bw, 0, useMap, i, j);
    assert BlockMatch(f1, f2, bw, 0, useMap, i, j) == NoMatch;
  }

  /** Two identical frames with the gate on: no block moves, so the whole grid keeps
      its initial `(0, 0, u32::MAX)`. */
  lemma IdenticalFramesSkipEveryBlock(f: Frame, bw: nat, r: nat, minDiff: nat, minPct: nat)
    requires FlowFits(f, f, bw, r, true)
    ensures ErrorFlow(f, f, bw, r, true, minDiff, minPct) == Filled(DivCeil(f.height, bw), DivCeil(f.width, bw), NoMatch)
  {
    var flow := ErrorFlow(f, f, bw, r, true, minDiff, minPct);
    var rows, cols := DivCeil(f.height, bw), DivCeil(f.width, bw);
    forall i, j | 0 <= i < rows && 0 <= j < cols
      ensures flow[i][j] == NoMatch
    {
      IdenticalBlockSkipped(f, bw, r, minDiff, minPct, i, j);
    }
    GridExtensionality(flow, Filled(rows, cols, NoMatch), rows, cols);
  }

  lemma IdenticalBlockSkipped(f: Frame, bw: nat, r: nat, minDiff: nat, minPct: nat, i: nat, j: nat)
    requires FlowFits(f, f, bw, r, true) && i < DivCeil(f.height, bw) && j < DivCeil(f.width, bw)
    ensures !Searched(f, f, bw, r, true, minDiff, minPct, i, j)
  {
    BlockOrigin(j, bw, f.width);
    BlockOrigin(i, bw, f.height);
    UnchangedBlockNotMoved(f, f, j * bw, i * bw, bw, minDiff, minPct);
  }

  /** Two identical frames with a non-zero radius: every searched block finds an exact
      match (offset (0, 0) is in the range), so its error is 0. */
  lemma IdenticalFramesZeroError(f: Frame, bw: nat, r: nat, useMap: bool, minDiff: nat, minPct: nat, i: nat, j: nat)
    requires FlowFits(f, f, bw, r, useMap) && r >= 1
    requires i < DivCeil(f.height, bw) && j < DivCeil(f.width, bw)
    requires Searched(f, f, bw, r, useMap, minDiff, minPct, i, j)
    ensures FlowCell(f, f, bw, r, useMap, minDiff, minPct, i, j).2 == 0
  {
    PaddedSearchFits(f, f, bw, r, useMap, i, j);
    SelfMatchHasZeroError(Padded(f, r + bw), r + bw + j * bw, r + bw + i * bw, bw, r);
  }

  /** Every vector of the flow lies in the search range [-r, r]. */
  lemma FlowCellInRange(f1: Frame, f2: Frame, bw: nat, r: nat, useMap: bool, minDiff: nat, minPct: nat, i: nat, j: nat)
    requires FlowFits(f1, f2, bw, r, useMap) && i < DivCeil(f1.height, bw) && j < DivCeil(f1.width, bw)
    ensures var c := FlowCell(f1, f2, bw, r, useMap, minDiff, minPct, i, j);
      -(r as int) <= c.0 <= r && -(r as int) <= c.1 <= r
  {
  }

  /** A frame with at least one row gives a flow with at least one row. */
  lemma FlowHasRows(f1: Frame, f2: Frame, bw: nat, r: nat, useMap: bool)
    requires FlowFits(f1, f2, bw, r, useMap) && f1.height >= 1
    ensures DivCeil(f1.height, bw) >= 1
  {
    assert f1.height + bw - 1 >= bw;
    MulLe(1, (f1.height + bw - 1) / bw + 1, bw);
  }
}
