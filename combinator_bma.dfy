/**
  The block-matching estimator driven by the algorithm combinator
  (vfi/src/estimator/combinator/bma.rs): a settings record and an estimator
  object whose `calc_flow` pads both frames and fills the block grid.
 */
module CombinatorBma {
  import opened Raster
  import opened Operations
  import opened BlockSearch
  import opened BlockFlow

  datatype BmaSettings = BmaSettings(
    verbose: bool,
    blockWidth: u32,
    searchRadius: u8,
    useMovementMap: bool,
    minPixDiff: u16,
    minChangePercentage: u16)

  /** `BmaSettings::default()` */
  const DefaultBmaSettings := BmaSettings(false, 16, 7, true, 10, 30)

  class Bma {
    var blockWidth: u32
    var searchRadius: u8
    var useMovementMap: bool
    var minPixDiff: u16
    var minChangePercentage: u16
    var verbose: bool
    var padding: u32

    /** The padding is the search radius plus the block width. */
    ghost predicate Valid()
      reads this
    {
      padding == searchRadius + blockWidth
    }

    /** The settings the estimator currently works with. */
    function Settings(): BmaSettings
      reads this
    {
      BmaSettings(verbose, blockWidth, searchRadius, useMovementMap, minPixDiff, minChangePercentage)
    }

    /** `BMA::new()`: the default settings, padded by 7 + 16. */
    constructor ()
      ensures Valid() && Settings() == DefaultBmaSettings && padding == 23
    {
      blockWidth := 16;
      searchRadius := 7;
      useMovementMap := true;
      minPixDiff := 10;
      minChangePercentage := 30;
      verbose := false;
      padding := 7 + 16;
    }

    /** `apply_settings`: copies every setting and recomputes the padding (a u32 sum). */
    method ApplySettings(s: BmaSettings)
      requires s.searchRadius + s.blockWidth <= U32_MAX
      modifies this
      ensures Valid() && Settings() == s
    {
      verbose := s.verbose;
      blockWidth := s.blockWidth;
      searchRadius := s.searchRadius;
      padding := searchRadius + blockWidth;
      useMovementMap := s.useMovementMap;
      minPixDiff := s.minPixDiff;
      minChangePercentage := s.minChangePercentage;
    }

    /** `has_block_moved` for block (bi, bj) of the unpadded frames. */
    method HasBlockMoved(bi: nat, bj: nat, f1: Frame, f2: Frame) returns (moved: bool)
      requires BlockInside(f1, f2, bj * blockWidth, bi * blockWidth, blockWidth) && blockWidth <= MaxGateWidth
      ensures moved == Moved(f1, f2, bj * blockWidth, bi * blockWidth, blockWidth, minPixDiff, minChangePercentage)
    {
      moved := BlockMoved(f1, f2, bj * blockWidth, bi * blockWidth, blockWidth, minPixDiff, minChangePercentage);
    }

    /** `get_motion_vector` for block (bi, bj) of the padded buffers. */
    method GetMotionVector(pf1: RgbImage, pf2: RgbImage, ghost g1: Frame, ghost g2: Frame, bi: nat, bj: nat)
      returns (mv: ErrorVector)
      requires Holds(pf1, g1) && Holds(pf2, g2)
      requires padding + bj * blockWidth <= U32_MAX && padding + bi * blockWidth <= U32_MAX
      requires SearchFits(g1, g2, padding + bj * blockWidth, padding + bi * blockWidth, blockWidth, searchRadius)
      ensures mv == BestMatch(g1, g2, padding + bj * blockWidth, padding + bi * blockWidth, blockWidth, searchRadius)
    {
      mv := MotionSearch(pf1, pf2, g1, g2, padding + bj * blockWidth, padding + bi * blockWidth, blockWidth, searchRadius);
    }

    /** `calc_flow`: the flow grid of the two frames. */
    method CalcFlow(f1: Frame, f2: Frame) returns (flow: seq<seq<ErrorVector>>)
      requires Valid() && FlowFits(f1, f2, blockWidth, searchRadius, useMovementMap)
      ensures flow == ErrorFlow(f1, f2, blockWidth, searchRadius, useMovementMap, minPixDiff, minChangePercentage)
    {
      var pf1 := AddPadding(f1, padding);
      var pf2 := AddPadding(f2, padding);
      ghost var g1, g2 := Padded(f1, padding), Padded(f2, padding);
      var width, height := f1.width, f1.height;
      var horBlocks := DivCeil(width, blockWidth);
      var verBlocks := DivCeil(height, blockWidth);
      flow := Filled(verBlocks, horBlocks, NoMatch);
      var bi := 0;
      while bi < verBlocks
        invariant 0 <= bi <= verBlocks
        invariant Holds(pf1, g1) && Holds(pf2, g2)
        invariant IsGrid(flow, verBlocks, horBlocks)
        invariant forall i, j | 0 <= i < verBlocks && 0 <= j < horBlocks ::
          flow[i][j] == if i < bi then FlowCell(f1, f2, blockWidth, searchRadius, useMovementMap, minPixDiff, minChangePercentage, i, j) else NoMatch
      {
        flow := CalcFlowRow(f1, f2, pf1, pf2, g1, g2, bi, flow);
        bi := bi + 1;
      }
      GridExtensionality(flow, ErrorFlow(f1, f2, blockWidth, searchRadius, useMovementMap, minPixDiff, minChangePercentage), verBlocks, horBlocks);
    }

    /** One iteration of the outer loop of `calc_flow`: row bi of blocks. */
    method CalcFlowRow(f1: Frame, f2: Frame, pf1: RgbImage, pf2: RgbImage, ghost g1: Frame, ghost g2: Frame, bi: nat, flow0: seq<seq<ErrorVector>>)
      returns (flow: seq<seq<ErrorVector>>)
      requires Valid() && FlowFits(f1, f2, blockWidth, searchRadius, useMovementMap)
      requires Holds(pf1, g1) && Holds(pf2, g2) && g1 == Padded(f1, padding) && g2 == Padded(f2, padding)
      requires bi < DivCeil(f1.height, blockWidth) && IsGrid(flow0, DivCeil(f1.height, blockWidth), DivCeil(f1.width, blockWidth))
      requires forall i, j | 0 <= i < DivCeil(f1.height, blockWidth) && 0 <= j < DivCeil(f1.width, blockWidth) ::
        flow0[i][j] == if i < bi then FlowCell(f1, f2, blockWidth, searchRadius, useMovementMap, minPixDiff, minChangePercentage, i, j) else NoMatch
      ensures IsGrid(flow, DivCeil(f1.height, blockWidth), DivCeil(f1.width, blockWidth))
      ensures forall i, j | 0 <= i < DivCeil(f1.height, blockWidth) && 0 <= j < DivCeil(f1.width, blockWidth) ::
        flow[i][j] == if i <= bi then FlowCell(f1, f2, blockWidth, searchRadius, useMovementMap, minPixDiff, minChangePercentage, i, j) else NoMatch
    {
      var verBlocks, horBlocks := DivCeil(f1.height, blockWidth), DivCeil(f1.width, blockWidth);
      flow := flow0;
      var bj := 0;
      while bj < horBlocks
        invariant 0 <= bj <= horBlocks
        invariant IsGrid(flow, verBlocks, horBlocks)
        invariant forall i, j | 0 <= i < verBlocks && 0 <= j < horBlocks ::
          flow[i][j] == if i < bi || (i == bi && j < bj) then FlowCell(f1, f2, blockWidth, searchRadius, useMovementMap, minPixDiff, minChangePercentage, i, j) else NoMatch
      {
        var searched, mv := CalcFlowBlock(f1, f2, pf1, pf2, g1, g2, bi, bj);
        if searched {
          flow := SetCell(flow, bi, bj, mv);
        }
        bj := bj + 1;
      }
    }

    /** The body of the inner loop of `calc_flow` for block (bi, bj): whether the
        block is searched and, if so, its motion vector and error. */
    method CalcFlowBlock(f1: Frame, f2: Frame, pf1: RgbImage, pf2: RgbImage, ghost g1: Frame, ghost g2: Frame, bi: nat, bj: nat)
      returns (searched: bool, mv: ErrorVector)
      requires Valid() && FlowFits(f1, f2, blockWidth, searchRadius, useMovementMap)
      requires Holds(pf1, g1) && Holds(pf2, g2) && g1 == Padded(f1, padding) && g2 == Padded(f2, padding)
      requires bi < DivCeil(f1.height, blockWidth) && bj < DivCeil(f1.width, blockWidth)
      ensures searched == Searched(f1, f2, blockWidth, searchRadius, useMovementMap, minPixDiff, minChangePercentage, bi, bj)
      ensures searched ==> mv == FlowCell(f1, f2, blockWidth, searchRadius, useMovementMap, minPixDiff, minChangePercentage, bi, bj)
      ensures !searched ==> FlowCell(f1, f2, blockWidth, searchRadius, useMovementMap, minPixDiff, minChangePercentage, bi, bj) == NoMatch
    {
      BlockOrigin(bj, blockWidth, f1.width);
      BlockOrigin(bi, blockWidth, f1.height);
      searched := true;
      if useMovementMap {
        searched := HasBlockMoved(bi, bj, f1, f2);
      }
      mv := NoMatch;
      if searched {
        PaddedSearchFits(f1, f2, blockWidth, searchRadius, useMovementMap, bi, bj);
        mv := GetMotionVector(pf1, pf2, g1, g2, bi, bj);
      }
    }
  }
}
