/**
  The stateful block-matching estimator (vfi/src/estimator/bma.rs): it keeps
  the two frames and the settings, and its `calc_flow` returns the flow grid
  without the match errors.
 */
module EstimatorBma {
  import opened Raster
  import opened Operations
  import opened BlockSearch
  import opened BlockFlow

  datatype Option<T> = None | Some(value: T)

  class Bma {
    var frame1: Option<Frame>
    var frame2: Option<Frame>
    var width: u32
    var height: u32
    var verbose: bool
    var blockWidth: u32
    var searchRadius: u8
    var useMovementMap: bool
    var minPixDiff: u16
    var minChangePercentage: u16
    var padding: u32

    /** The padding is the search radius plus the block width; the frames are set
        together, have the recorded dimensions, and are well formed. */
    ghost predicate Valid()
      reads this
    {
      padding == searchRadius + blockWidth &&
      frame1.Some? == frame2.Some? &&
      (frame1.Some? ==>
         frame1.value.Valid() && frame2.value.Valid() &&
         frame1.value.width == width && frame1.value.height == height &&
         frame2.value.width == width && frame2.value.height == height)
    }

    /** `BMA::new()`: no frames, dimensions 0 x 0, default settings, padding 7 + 16. */
    constructor ()
      ensures Valid()
      ensures frame1 == None && frame2 == None && width == 0 && height == 0 && !verbose
      ensures blockWidth == 16 && searchRadius == 7 && useMovementMap && minPixDiff == 10 && minChangePercentage == 30
      ensures padding == 23
    {
      frame1, frame2 := None, None;
      width, height := 0, 0;
      verbose := false;
      blockWidth := 16;
      searchRadius := 7;
      useMovementMap := true;
      minPixDiff := 10;
      minChangePercentage := 30;
      padding := 7 + 16;
    }

    /** `set_frames`: the two frames must have the same dimensions (an assertion in
        the source), which become the estimator's. */
    method SetFrames(f1: Frame, f2: Frame)
      requires Valid() && f1.Valid() && f2.Valid()
      requires f1.width == f2.width && f1.height == f2.height
      requires f1.width <= U32_MAX && f1.height <= U32_MAX
      modifies this
      ensures Valid()
      ensures frame1 == Some(f1) && frame2 == Some(f2) && width == f1.width && height == f1.height
      ensures verbose == old(verbose) && blockWidth == old(blockWidth) && searchRadius == old(searchRadius)
      ensures useMovementMap == old(useMovementMap) && minPixDiff == old(minPixDiff)
      ensures minChangePercentage == old(minChangePercentage) && padding == old(padding)
    {
      width, height := f1.width, f1.height;
      frame1 := Some(f1);
      frame2 := Some(f2);
    }

    method SetVerbose(v: bool)
      requires Valid()
      modifies this
      ensures Valid() && verbose == v
      ensures frame1 == old(frame1) && frame2 == old(frame2) && width == old(width) && height == old(height)
      ensures blockWidth == old(blockWidth) && searchRadius == old(searchRadius) && padding == old(padding)
      ensures useMovementMap == old(useMovementMap) && minPixDiff == old(minPixDiff)
      ensures minChangePercentage == old(minChangePercentage)
    {
      verbose := v;
    }

    /** `set_block_width`: the padding follows (a u32 sum). */
    method SetBlockWidth(b: u32)
      requires Valid() && searchRadius + b <= U32_MAX
      modifies this
      ensures Valid() && blockWidth == b && padding == searchRadius + b
      ensures frame1 == old(frame1) && frame2 == old(frame2) && width == old(width) && height == old(height)
      ensures verbose == old(verbose) && searchRadius == old(searchRadius)
      ensures useMovementMap == old(useMovementMap) && minPixDiff == old(minPixDiff)
      ensures minChangePercentage == old(minChangePercentage)
    {
      blockWidth := b;
      padding := searchRadius + blockWidth;
    }

    /** `set_search_radius`: the padding follows (a u32 sum). */
    method SetSearchRadius(r: u8)
      requires Valid() && r + blockWidth <= U32_MAX
      modifies this
      ensures Valid() && searchRadius == r && padding == r + blockWidth
      ensures frame1 == old(frame1) && frame2 == old(frame2) && width == old(width) && height == old(height)
      ensures verbose == old(verbose) && blockWidth == old(blockWidth)
      ensures useMovementMap == old(useMovementMap) && minPixDiff == old(minPixDiff)
      ensures minChangePercentage == old(minChangePercentage)
    {
      searchRadius := r;
      padding := searchRadius + blockWidth;
    }

    method SetUseMovementMap(m: bool)
      requires Valid()
      modifies this
      ensures Valid() && useMovementMap == m
      ensures frame1 == old(frame1) && frame2 == old(frame2) && width == old(width) && height == old(height)
      ensures verbose == old(verbose) && blockWidth == old(blockWidth) && searchRadius == old(searchRadius)
      ensures padding == old(padding) && minPixDiff == old(minPixDiff)
      ensures minChangePercentage == old(minChangePercentage)
    {
      useMovementMap := m;
    }

    method SetMinPixDiff(d: u16)
      requires Valid()
      modifies this
      ensures Valid() && minPixDiff == d
      ensures frame1 == old(frame1) && frame2 == old(frame2) && width == old(width) && height == old(height)
      ensures verbose == old(verbose) && blockWidth == old(blockWidth) && searchRadius == old(searchRadius)
      ensures padding == old(padding) && useMovementMap == old(useMovementMap)
      ensures minChangePercentage == old(minChangePercentage)
    {
      minPixDiff := d;
    }

    method SetMinChangePercentage(p: u16)
      requires Valid()
      modifies this
      ensures Valid() && minChangePercentage == p
      ensures frame1 == old(frame1) && frame2 == old(frame2) && width == old(width) && height == old(height)
      ensures verbose == old(verbose) && blockWidth == old(blockWidth) && searchRadius == old(searchRadius)
      ensures padding == old(padding) && useMovementMap == old(useMovementMap) && minPixDiff == old(minPixDiff)
    {
      minChangePercentage := p;
    }

    /** `has_block_moved` for block (bi, bj) of the stored frames (which must be set). */
    method HasBlockMoved(bi: nat, bj: nat) returns (moved: bool)
      requires frame1.Some? && frame2.Some?
      requires BlockInside(frame1.value, frame2.value, bj * blockWidth, bi * blockWidth, blockWidth)
      requires blockWidth <= MaxGateWidth
      ensures moved == Moved(frame1.value, frame2.value, bj * blockWidth, bi * blockWidth, blockWidth, minPixDiff, minChangePercentage)
    {
      moved := BlockMoved(frame1.value, frame2.value, bj * blockWidth, bi * blockWidth, blockWidth, minPixDiff, minChangePercentage);
    }

    /** `get_motion_vector` for block (bi, bj): the offset of the search, without its error. */
    method GetMotionVector(pf1: RgbImage, pf2: RgbImage, ghost g1: Frame, ghost g2: Frame, bi: nat, bj: nat)
      returns (mv: Vector)
      requires Holds(pf1, g1) && Holds(pf2, g2)
      requires padding + bj * blockWidth <= U32_MAX && padding + bi * blockWidth <= U32_MAX
      requires SearchFits(g1, g2, padding + bj * blockWidth, padding + bi * blockWidth, blockWidth, searchRadius)
      ensures var best := BestMatch(g1, g2, padding + bj * blockWidth, padding + bi * blockWidth, blockWidth, searchRadius);
        mv == (best.0, best.1)
    {
      var best := MotionSearch(pf1, pf2, g1, g2, padding + bj * blockWidth, padding + bi * blockWidth, blockWidth, searchRadius);
      mv := (best.0, best.1);
    }

    /** `calc_flow`: the flow grid of the stored frames, without the errors. */
    method CalcFlow() returns (flow: seq<seq<Vector>>)
      requires Valid() && frame1.Some?
      requires FlowFits(frame1.value, frame2.value, blockWidth, searchRadius, useMovementMap)
      ensures flow == StripErrors(ErrorFlow(frame1.value, frame2.value, blockWidth, searchRadius, useMovementMap, minPixDiff, minChangePercentage))
    {
      ghost var f1, f2 := frame1.value, frame2.value;
      var pf1 := AddPadding(frame1.value, padding);
      var pf2 := AddPadding(frame2.value, padding);
      ghost var g1, g2 := Padded(f1, padding), Padded(f2, padding);
      var horBlocks := DivCeil(width, blockWidth);
      var verBlocks := DivCeil(height, blockWidth);
      flow := Filled(verBlocks, horBlocks, (0, 0));
      var bi := 0;
      while bi < verBlocks
        invariant 0 <= bi <= verBlocks
        invariant Holds(pf1, g1) && Holds(pf2, g2)
        invariant IsGrid(flow, verBlocks, horBlocks)
        invariant forall i, j | 0 <= i < verBlocks && 0 <= j < horBlocks ::
          flow[i][j] == if i < bi then FlowVector(i, j) else (0, 0)
      {
        flow := CalcFlowRow(pf1, pf2, g1, g2, bi, flow);
        bi := bi + 1;
      }
      ghost var expected := StripErrors(ErrorFlow(f1, f2, blockWidth, searchRadius, useMovementMap, minPixDiff, minChangePercentage));
      GridExtensionality(flow, expected, verBlocks, horBlocks);
    }

    /** The motion vector of cell (i, j) of the flow grid. */
    ghost function FlowVector(i: nat, j: nat): Vector
      reads this
      requires Valid() && frame1.Some?
      requires FlowFits(frame1.value, frame2.value, blockWidth, searchRadius, useMovementMap)
      requires i < DivCeil(height, blockWidth) && j < DivCeil(width, blockWidth)
    {
      var c := FlowCell(frame1.value, frame2.value, blockWidth, searchRadius, useMovementMap, minPixDiff, minChangePercentage, i, j);
      (c.0, c.1)
    }

    /** One iteration of the outer loop of `calc_flow`: row bi of blocks. */
    method CalcFlowRow(pf1: RgbImage, pf2: RgbImage, ghost g1: Frame, ghost g2: Frame, bi: nat, flow0: seq<seq<Vector>>)
      returns (flow: seq<seq<Vector>>)
      requires Valid() && frame1.Some?
      requires FlowFits(frame1.value, frame2.value, blockWidth, searchRadius, useMovementMap)
      requires Holds(pf1, g1) && Holds(pf2, g2) && g1 == Padded(frame1.value, padding) && g2 == Padded(frame2.value, padding)
      requires bi < DivCeil(height, blockWidth) && IsGrid(flow0, DivCeil(height, blockWidth), DivCeil(width, blockWidth))
      requires forall i, j | 0 <= i < DivCeil(height, blockWidth) && 0 <= j < DivCeil(width, blockWidth) ::
        flow0[i][j] == if i < bi then FlowVector(i, j) else (0, 0)
      ensures IsGrid(flow, DivCeil(height, blockWidth), DivCeil(width, blockWidth))
      ensures forall i, j | 0 <= i < DivCeil(height, blockWidth) && 0 <= j < DivCeil(width, blockWidth) ::
        flow[i][j] == if i <= bi then FlowVector(i, j) else (0, 0)
    {
      ghost var f1, f2 := frame1.value, frame2.value;
      var verBlocks, horBlocks := DivCeil(height, blockWidth), DivCeil(width, blockWidth);
      flow := flow0;
      var bj := 0;
      while bj < horBlocks
        invariant 0 <= bj <= horBlocks
        invariant IsGrid(flow, verBlocks, horBlocks)
        invariant forall i, j | 0 <= i < verBlocks && 0 <= j < horBlocks ::
          flow[i][j] == if i < bi || (i == bi && j < bj) then FlowVector(i, j) else (0, 0)
      {
        var searched, mv := CalcFlowBlock(pf1, pf2, g1, g2, bi, bj);
        if searched {
          flow := SetCell(flow, bi, bj, mv);
        }
        bj := bj + 1;
      }
    }

    /** The body of the inner loop of `calc_flow` for block (bi, bj): whether the
        block is searched and, if so, its motion vector. */
    method CalcFlowBlock(pf1: RgbImage, pf2: RgbImage, ghost g1: Frame, ghost g2: Frame, bi: nat, bj: nat)
      returns (searched: bool, mv: Vector)
      requires Valid() && frame1.Some?
      requires FlowFits(frame1.value, frame2.value, blockWidth, searchRadius, useMovementMap)
      requires Holds(pf1, g1) && Holds(pf2, g2) && g1 == Padded(frame1.value, padding) && g2 == Padded(frame2.value, padding)
      requires bi < DivCeil(height, blockWidth) && bj < DivCeil(width, blockWidth)
      ensures searched == Searched(frame1.value, frame2.value, blockWidth, searchRadius, useMovementMap, minPixDiff, minChangePercentage, bi, bj)
      ensures searched ==> mv == FlowVector(bi, bj)
      ensures !searched ==> FlowVector(bi, bj) == (0, 0)
    {
      ghost var f1, f2 := frame1.value, frame2.value;
      BlockOrigin(bj, blockWidth, width);
      BlockOrigin(bi, blockWidth, height);
      searched := true;
      if useMovementMap {
        searched := HasBlockMoved(bi, bj);
      }
      mv := (0, 0);
      if searched {
        PaddedSearchFits(f1, f2, blockWidth, searchRadius, useMovementMap, bi, bj);
        mv := GetMotionVector(pf1, pf2, g1, g2, bi, bj);
      }
    }
  }
}
