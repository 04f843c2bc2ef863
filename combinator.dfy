/**
  The algorithm combinator (vfi/src/estimator/combinator.rs): it builds a
  block-matching estimator from the settings and runs one of four pipelines
  over it — plain, bidirectional, smoothed, or smoothed and bidirectional.
 */
module Combinator {
  import opened Raster
  import opened BlockSearch
  import opened BlockFlow
  import opened CombinatorBma
  import opened BidirectionalFlow
  import opened Smoothing

  datatype Algorithm =
    | BlockMatching
    | BidirectionalBlockMatching
    | SmoothedBlockMatching
    | SmoothedBidirectionalBlockMatching

  datatype AlgoSettings = AlgoSettings(verbose: bool, blockMatching: BmaSettings, smoothing: SmoothingSettings)

  /** `AlgoSettings::default()` */
  const DefaultAlgoSettings := AlgoSettings(false, DefaultBmaSettings, DefaultSmoothingSettings)

  /** The shape `remove_flow_error_data` indexes: at least one row, none longer than the first. */
  ghost predicate Removable(ef: ErrorGrid)
  {
    |ef| >= 1 && forall i | 0 <= i < |ef| :: |ef[i]| <= |ef[0]|
  }

  /** `remove_flow_error_data`: |ef| rows as long as the first, holding each
      cell's vector, and (0, 0) past the end of a shorter row. On a rectangular
      grid this is dropping the errors. */
  method RemoveFlowErrorData(ef: ErrorGrid) returns (flow: Flow)
    requires Removable(ef)
    ensures IsGrid(flow, |ef|, |ef[0]|)
    ensures forall i, j | 0 <= i < |ef| && 0 <= j < |ef[0]| ::
      flow[i][j] == if j < |ef[i]| then (ef[i][j].0, ef[i][j].1) else Zero
    ensures IsGrid(ef, |ef|, |ef[0]|) ==> flow == StripErrors(ef)
  {
    var rows, cols := |ef|, |ef[0]|;
    flow := Filled(rows, cols, Zero);
    var i := 0;
    while i < rows
      invariant 0 <= i <= rows && IsGrid(flow, rows, cols)
      invariant forall k, l | 0 <= k < rows && 0 <= l < cols ::
        flow[k][l] == if k < i && l < |ef[k]| then (ef[k][l].0, ef[k][l].1) else Zero
    {
      var j := 0;
      while j < |ef[i]|
        invariant 0 <= j <= |ef[i]| && IsGrid(flow, rows, cols)
        invariant forall k, l | 0 <= k < rows && 0 <= l < cols ::
          flow[k][l] == if (k < i || (k == i && l < j)) && l < |ef[k]| then (ef[k][l].0, ef[k][l].1) else Zero
      {
        flow := SetCell(flow, i, j, (ef[i][j].0, ef[i][j].1));
        j := j + 1;
      }
      i := i + 1;
    }
    if IsGrid(ef, rows, cols) {
      GridExtensionality(flow, StripErrors(ef), rows, cols);
    }
  }

  /** The settings after `get_bma`, which copies the top-level verbosity into the
      block-matching settings. */
  function WithVerbose(s: AlgoSettings): (t: AlgoSettings)
    ensures t.blockMatching.verbose == s.verbose
    ensures t.verbose == s.verbose && t.smoothing == s.smoothing
    ensures t.blockMatching.(verbose := s.blockMatching.verbose) == s.blockMatching
  {
    s.(blockMatching := s.blockMatching.(verbose := s.verbose))
  }

  /** `get_bma`: a new estimator with the block-matching settings applied. */
  method GetBma(settings: AlgoSettings) returns (bma: Bma, updated: AlgoSettings)
    requires settings.blockMatching.searchRadius + settings.blockMatching.blockWidth <= U32_MAX
    ensures updated == WithVerbose(settings)
    ensures fresh(bma) && bma.Valid() && bma.Settings() == updated.blockMatching
  {
    bma := new Bma();
    updated := settings.(blockMatching := settings.blockMatching.(verbose := settings.verbose));
    bma.ApplySettings(updated.blockMatching);
  }

  /** The block-matching settings fit the frames (see FlowFits). */
  ghost predicate BmaFits(f1: Frame, f2: Frame, s: BmaSettings)
  {
    FlowFits(f1, f2, s.blockWidth, s.searchRadius, s.useMovementMap)
  }

  /** The error flow `calc_flow` computes from f1 to f2 under the settings s. */
  ghost function BmaErrorFlow(f1: Frame, f2: Frame, s: BmaSettings): ErrorGrid
    requires BmaFits(f1, f2, s)
  {
    ErrorFlow(f1, f2, s.blockWidth, s.searchRadius, s.useMovementMap, s.minPixDiff, s.minChangePercentage)
  }

  /** The flow of one of the four algorithms, as a value. */
  ghost function AlgoFlow(algo: Algorithm, f1: Frame, f2: Frame, settings: AlgoSettings, ops: FloatOps): Flow
    requires AlgoFits(algo, f1, f2, settings)
  {
    var s := settings.blockMatching;
    var fw := settings.smoothing.filterWindowWidth;
    match algo
    case BlockMatching =>
      StripErrors(BmaErrorFlow(f1, f2, s))
    case BidirectionalBlockMatching =>
      BidirectionalCombinable(f1, f2, s);
      Combined(StripErrors(BmaErrorFlow(f1, f2, s)), StripErrors(BmaErrorFlow(f2, f1, s)))
    case SmoothedBlockMatching =>
      Smoothed(BmaErrorFlow(f1, f2, s), fw, ops)
    case SmoothedBidirectionalBlockMatching =>
      SmoothedCombinable(f1, f2, s, fw, ops);
      Combined(Smoothed(BmaErrorFlow(f1, f2, s), fw, ops), Smoothed(BmaErrorFlow(f2, f1, s), fw, ops))
  }

  /** What `run_algo` needs: settings that fit frames with at least one row and,
      for the smoothed algorithms, an odd window width whose requirements both
      smoothed flows meet. */
  ghost predicate AlgoFits(algo: Algorithm, f1: Frame, f2: Frame, settings: AlgoSettings)
  {
    var s := settings.blockMatching;
    var fw := settings.smoothing.filterWindowWidth;
    BmaFits(f1, f2, s) && f1.height >= 1 &&
    (algo.SmoothedBlockMatching? || algo.SmoothedBidirectionalBlockMatching? ==>
       fw % 2 == 1 && SmoothFits(BmaErrorFlow(f1, f2, s), fw)) &&
    (algo.SmoothedBidirectionalBlockMatching? ==> SmoothFits(BmaErrorFlow(f2, f1, s), fw))
  }

  /** An error flow has as many rows and columns as blocks and its vectors lie
      within the search radius, at most 255. */
  lemma ErrorFlowShape(f1: Frame, f2: Frame, s: BmaSettings)
    requires BmaFits(f1, f2, s) && f1.height >= 1
    ensures var ef := BmaErrorFlow(f1, f2, s);
      |ef| >= 1 && IsGrid(ef, DivCeil(f1.height, s.blockWidth), DivCeil(f1.width, s.blockWidth)) &&
      Removable(ef) && FlowWithin(StripErrors(ef), 255) &&
      forall i, j | 0 <= i < |ef| && 0 <= j < |ef[0]| :: -255 <= ef[i][j].0 <= 255 && -255 <= ef[i][j].1 <= 255
  {
    var bw, r := s.blockWidth, s.searchRadius;
    FlowHasRows(f1, f2, bw, r, s.useMovementMap);
    forall i, j | 0 <= i < DivCeil(f1.height, bw) && 0 <= j < DivCeil(f1.width, bw)
      ensures var c := FlowCell(f1, f2, bw, r, s.useMovementMap, s.minPixDiff, s.minChangePercentage, i, j);
        -255 <= c.0 <= 255 && -255 <= c.1 <= 255
    {
      FlowCellInRange(f1, f2, bw, r, s.useMovementMap, s.minPixDiff, s.minChangePercentage, i, j);
    }
  }

  /** The forward and backward flows of two frames can be combined. */
  lemma BidirectionalCombinable(f1: Frame, f2: Frame, s: BmaSettings)
    requires BmaFits(f1, f2, s) && f1.height >= 1
    ensures BmaFits(f2, f1, s)
    ensures Combinable(StripErrors(BmaErrorFlow(f1, f2, s)), StripErrors(BmaErrorFlow(f2, f1, s)))
  {
    ErrorFlowShape(f1, f2, s);
    ErrorFlowShape(f2, f1, s);
    CombinableWhenBounded(StripErrors(BmaErrorFlow(f1, f2, s)), StripErrors(BmaErrorFlow(f2, f1, s)),
      DivCeil(f1.height, s.blockWidth), DivCeil(f1.width, s.blockWidth), 255);
  }

  /** The smoothed forward and backward flows of two frames can be combined. */
  lemma SmoothedCombinable(f1: Frame, f2: Frame, s: BmaSettings, fw: nat, ops: FloatOps)
    requires BmaFits(f1, f2, s) && f1.height >= 1 && fw % 2 == 1
    requires SmoothFits(BmaErrorFlow(f1, f2, s), fw)
    requires BmaFits(f2, f1, s) && SmoothFits(BmaErrorFlow(f2, f1, s), fw)
    ensures Combinable(Smoothed(BmaErrorFlow(f1, f2, s), fw, ops), Smoothed(BmaErrorFlow(f2, f1, s), fw, ops))
  {
    var e12, e21 := BmaErrorFlow(f1, f2, s), BmaErrorFlow(f2, f1, s);
    ErrorFlowShape(f1, f2, s);
    ErrorFlowShape(f2, f1, s);
    SmoothedWithin(e12, fw, ops, 255);
    SmoothedWithin(e21, fw, ops, 255);
    CombinableWhenBounded(Smoothed(e12, fw, ops), Smoothed(e21, fw, ops), |e12|, |e12[0]|, 255);
  }

  /** `run_bma` */
  method RunBma(f1: Frame, f2: Frame, settings: AlgoSettings) returns (flow: Flow, updated: AlgoSettings)
    requires AlgoFits(BlockMatching, f1, f2, settings)
    ensures updated == WithVerbose(settings)
    ensures flow == StripErrors(BmaErrorFlow(f1, f2, settings.blockMatching))
  {
    var bma;
    bma, updated := GetBma(settings);
    ErrorFlowShape(f1, f2, settings.blockMatching);
    var ef := bma.CalcFlow(f1, f2);
    flow := RemoveFlowErrorData(ef);
  }

  /** `run_bidirectional_bma` */
  method RunBidirectionalBma(f1: Frame, f2: Frame, settings: AlgoSettings) returns (flow: Flow, updated: AlgoSettings)
    requires AlgoFits(BidirectionalBlockMatching, f1, f2, settings)
    ensures updated == WithVerbose(settings)
    ensures (BidirectionalCombinable(f1, f2, settings.blockMatching);
      flow == Combined(StripErrors(BmaErrorFlow(f1, f2, settings.blockMatching)), StripErrors(BmaErrorFlow(f2, f1, settings.blockMatching))))
  {
    var bma;
    bma, updated := GetBma(settings);
    BidirectionalCombinable(f1, f2, settings.blockMatching);
    ErrorFlowShape(f1, f2, settings.blockMatching);
    ErrorFlowShape(f2, f1, settings.blockMatching);
    var ef12 := bma.CalcFlow(f1, f2);
    var forwardFlow := RemoveFlowErrorData(ef12);
    var ef21 := bma.CalcFlow(f2, f1);
    var backwardFlow := RemoveFlowErrorData(ef21);
    flow := CombineBidirectionalFlows(forwardFlow, backwardFlow);
  }

  /** `run_smoothed_bma` */
  method RunSmoothedBma(f1: Frame, f2: Frame, settings: AlgoSettings, ops: FloatOps) returns (flow: Flow, updated: AlgoSettings)
    requires AlgoFits(SmoothedBlockMatching, f1, f2, settings)
    ensures updated == WithVerbose(settings)
    ensures flow == AlgoFlow(SmoothedBlockMatching, f1, f2, settings, ops)
  {
    var bma;
    bma, updated := GetBma(settings);
    var ef := bma.CalcFlow(f1, f2);
    flow := SmoothErrorFlow(ef, updated.smoothing.filterWindowWidth, ops);
  }

  /** `run_smoothed_bidirectional_bma` */
  method RunSmoothedBidirectionalBma(f1: Frame, f2: Frame, settings: AlgoSettings, ops: FloatOps)
    returns (flow: Flow, updated: AlgoSettings)
    requires AlgoFits(SmoothedBidirectionalBlockMatching, f1, f2, settings)
    ensures updated == WithVerbose(settings)
    ensures flow == AlgoFlow(SmoothedBidirectionalBlockMatching, f1, f2, settings, ops)
  {
    var bma;
    bma, updated := GetBma(settings);
    var fw := updated.smoothing.filterWindowWidth;
    SmoothedCombinable(f1, f2, settings.blockMatching, fw, ops);
    var forwardErrorFlow := bma.CalcFlow(f1, f2);
    var backwardErrorFlow := bma.CalcFlow(f2, f1);
    var forwardFlow := SmoothErrorFlow(forwardErrorFlow, fw, ops);
    var backwardFlow := SmoothErrorFlow(backwardErrorFlow, fw, ops);
    flow := CombineBidirectionalFlows(forwardFlow, backwardFlow);
  }

  /** `run_algo`: the flow of the chosen algorithm. */
  method RunAlgo(algo: Algorithm, f1: Frame, f2: Frame, settings: AlgoSettings, ops: FloatOps)
    returns (flow: Flow, updated: AlgoSettings)
    requires AlgoFits(algo, f1, f2, settings)
    ensures updated == WithVerbose(settings)
    ensures flow == AlgoFlow(algo, f1, f2, settings, ops)
  {
    match algo
    case BlockMatching =>
      flow, updated := RunBma(f1, f2, settings);
    case BidirectionalBlockMatching =>
      flow, updated := RunBidirectionalBma(f1, f2, settings);
    case SmoothedBlockMatching =>
      flow, updated := RunSmoothedBma(f1, f2, settings, ops);
    case SmoothedBidirectionalBlockMatching =>
      flow, updated := RunSmoothedBidirectionalBma(f1, f2, settings, ops);
  }

  /** With the movement gate on, two identical frames give the zero flow under
      every algorithm: no block moves, so every cell keeps `(0, 0, u32::MAX)`
      (for the smoothed ones, given that f64 rounding keeps 0 and the square
      root of 0 is 0). */
  lemma IdenticalFramesNoMotion(algo: Algorithm, f: Frame, settings: AlgoSettings, ops: FloatOps)
    requires AlgoFits(algo, f, f, settings) && settings.blockMatching.useMovementMap
    requires ops.round(0.0) == 0.0 && ops.root(0) == 0.0
    ensures AlgoFlow(algo, f, f, settings, ops) ==
      Filled(DivCeil(f.height, settings.blockMatching.blockWidth), DivCeil(f.width, settings.blockMatching.blockWidth), Zero)
  {
    var s := settings.blockMatching;
    var fw := settings.smoothing.filterWindowWidth;
    var rows, cols := DivCeil(f.height, s.blockWidth), DivCeil(f.width, s.blockWidth);
    var ef := BmaErrorFlow(f, f, s);
    var zero := Filled(rows, cols, Zero);
    IdenticalFramesSkipEveryBlock(f, s.blockWidth, s.searchRadius, s.minPixDiff, s.minChangePercentage);
    ErrorFlowShape(f, f, s);
    GridExtensionality(StripErrors(ef), zero, rows, cols);
    if algo.SmoothedBlockMatching? || algo.SmoothedBidirectionalBlockMatching? {
      if cols >= 1 {
        UniformFlowUnchanged(ef, fw, ops);
      } else {
        GridExtensionality(Smoothed(ef, fw, ops), zero, rows, cols);
      }
    }
    if algo.BidirectionalBlockMatching? || algo.SmoothedBidirectionalBlockMatching? {
      CombineSameFlowIsZero(zero);
    }
  }
}
