# algo-vfi core, modelled in Dafny

algo-vfi synthesises an intermediate video frame from two frames by estimating
motion between them and compensating along it. This project models the core of
the `vfi` crate:

- **block-matching motion estimation**, in two forms:
  - the combinator's estimator, which returns vectors tagged with their match error;
  - the stateful estimator, which returns plain vectors;
- the **movement gate** that decides which blocks to search, and the
  **exhaustive offset search** over a padded frame;
- **border-replicating padding** and the integer **pixel difference**;
- **bidirectional flow combination** and **weighted vector-median smoothing**;
- the **algorithm combinator**, which picks one of four pipelines, and the
  top-level **estimator** object;
- **frame compensation**, which projects pixels half-way along the flow,
  blends collisions and fills holes;
- **grayscale conversion** and **convolution edge detection**;
- the **Bresenham line** and **rectangle** drawing primitives, and the
  **vector-field visualisation** built on them.

Images the source updates in place are `array2<Rgb>` buffers indexed `[x, y]`.
Each one is tied by `Holds` to a value `Frame(width, height, px)`. Each
in-place method is proved to leave its buffer holding a specification function
of the frame it started from: `Padded`, `Edges`, `Grayscaled`, `LineDrawn`,
`Rect`, `Compensated` or `Visualized`. The properties the source promises are
then proved about those functions.

Flow grids are `seq<seq<(i16, i16)>>`, rows then columns. The flow `calc_flow`
produces is the specification function `BlockFlow.ErrorFlow`. The search it
performs is `BlockSearch.BestMatch`, a left-to-right scan that keeps the first
strict minimum. Machine integers are subset types (`u8`, `u16`, `u32`, `i16`,
`i32`). Wherever a Rust operation would overflow or index out of range, the
model makes it a precondition. Wherever the source truncates, wraps or clamps,
the model writes that out.

Three behaviours one might expect do not hold of the code. The model follows
the code in each case:

- **Identical frames.** One might expect a frame matched against itself to
  give error 0 and vector (0, 0) for every radius. The code does not:
  - with radius 0 nothing is searched, and the cell stays `(0, 0, u32::MAX)`
    (`BlockFlow.NoRadiusNoMotion`);
  - with radius r ≥ 1 the error is 0 (`BlockFlow.IdenticalFramesZeroError`),
    but the vector is the first offset that reaches it. For a flat block that
    is (-r, -r) (`BlockSearch.FlatFramePicksFirstOffset`).
- **Smoothing a uniform field.** One might expect smoothing to leave a uniform
  field unchanged whatever its errors. In the code a zero match error makes
  the cell's own weight 0/0, a NaN. That cell is smoothed to (0, 0)
  (`Smoothing.ZeroErrorCellSmoothsToZero`). The uniform-field property holds
  only when every error is non-zero (`Smoothing.UniformFlowUnchanged`).
- **Holes after compensation.** One might expect no black pixel to be left
  once the holes are filled. The code fills a hole with the average of the
  two frames there. That average can itself be black, for example where both
  frames are black (`Compensator.HoleFilled`).

The gate's ratio `block_width² * 100 / changed` falls as more pixels change.
The model keeps this as written (`BlockSearch.GateVerdict`).

## Model

| member | source | states |
|---|---|---|
| Raster.Frame.Put | vfi/src/visualizer.rs:24 | `put_pixel` on a frame value: the one pixel takes the new colour, every other pixel and both dimensions are unchanged |
| Raster.Blank | vfi/src/visualizer.rs:13 | `ImageBuffer::new(w, h)` is a w x h frame all of whose pixels are black |
| Raster.PutPixel | vfi/src/visualizer.rs:24-25 | writing one pixel of a buffer leaves it holding the frame with that pixel replaced |
| Raster.Filled | vfi/src/estimator/combinator/bidirectional_flow.rs:8 | `vec![vec![v; cols]; rows]` has `rows` rows of `cols` cells, every cell v |
| Raster.SetCell | vfi/src/estimator/combinator/bidirectional_flow.rs:13 | `g[i][j] = v` changes exactly that cell and keeps the grid's shape |
| Raster.WrapU32 | vfi/src/compensator.rs:18-19 | the `as u32` cast of an i32 keeps a non-negative value and adds 2³² to a negative one |
| Raster.TruncDiv | vfi/src/estimator/combinator/bidirectional_flow.rs:11-12 | Rust's integer division rounds toward zero: for a non-negative dividend the quotient times the divisor lies in [0, a], within one divisor below it; for a negative one it lies in [a, 0], within one divisor above it (the same division halves the initial error at vfi/src/plotter.rs:25) |
| Operations.Sq | vfi/src/operations.rs:34-36 | the square of a channel difference is at most 255², and zero exactly when the difference is zero |
| Operations.FloorSqrt | vfi/src/operations.rs:34-37 | the integer square root r of n satisfies r² ≤ n < (r+1)² |
| Operations.SquaredDistance | vfi/src/operations.rs:34-36 | the sum of squared channel differences is at most 3·255² and zero exactly for equal pixels |
| Operations.PixelDifference | vfi/src/operations.rs:31-38 | `pixel_difference` is the floor of the Euclidean distance (d² ≤ S < (d+1)²), at most 441, so it fits a u16, and zero exactly when the pixels are equal |
| Operations.PixelDifferenceSymmetric | vfi/src/operations.rs:31-38 | the pixel difference does not depend on the order of its arguments |
| Operations.Padded | vfi/src/operations.rs:4-29 | the padded frame is (W+2p) x (H+2p) and holds, pixel by pixel, what the copy and the two margin passes leave |
| Operations.PaddingReplicatesNearest | vfi/src/operations.rs:8-26 | every pixel of the padded frame is the input pixel nearest to it (coordinates clamped into the frame), so each corner block repeats a corner pixel |
| Operations.PaddingInterior | vfi/src/operations.rs:9-10 | the interior of the padded frame at offset (p, p) is a copy of the input that no later pass overwrites |
| Operations.PaddingSides | vfi/src/operations.rs:11-18 | in the rows of the frame, the left margin repeats the row's first pixel and the right margin its last |
| Operations.PaddingTopBottom | vfi/src/operations.rs:19-26 | every column's top margin repeats its row p and its bottom margin its row p+H-1 |
| Operations.AddPadding | vfi/src/operations.rs:4-29 | `add_padding` returns a new (W+2p) x (H+2p) buffer holding the padded frame |
| Operations.FillRowMargins | vfi/src/operations.rs:11-18 | the first pass turns the copied buffer into the buffer with left and right margins filled, row by row |
| Operations.FillColumnMargins | vfi/src/operations.rs:19-26 | the second pass turns that buffer into the fully padded one, column by column |
| BidirectionalFlow.HalfDifference | vfi/src/estimator/combinator/bidirectional_flow.rs:11-12 | each component is half the difference truncated toward zero: twice it is the difference or one step closer to zero, with the difference's sign |
| BidirectionalFlow.Combined | vfi/src/estimator/combinator/bidirectional_flow.rs:8-16 | the combined flow has the forward flow's row count and first-row length, each cell the half difference of the two flows' cells |
| BidirectionalFlow.CombineBidirectionalFlows | vfi/src/estimator/combinator/bidirectional_flow.rs:1-17 | the two loops build exactly the combined flow, under the assertions on row counts and first-row lengths |
| BidirectionalFlow.CombineSameFlowIsZero | vfi/src/estimator/combinator/bidirectional_flow.rs:11-13 | a flow combined with itself is zero everywhere |
| BidirectionalFlow.CombineAntisymmetric | vfi/src/estimator/combinator/bidirectional_flow.rs:11-12 | swapping forward and backward flow negates every combined vector |
| BidirectionalFlow.CombineOppositeFlows | vfi/src/estimator/combinator/bidirectional_flow.rs:11-13 | a backward flow that is the exact negation of the forward flow gives the forward flow back |
| BidirectionalFlow.CombinableWhenBounded | vfi/src/estimator/combinator/bidirectional_flow.rs:5-12 | two flows of the same shape with components within ±0x3FFF pass the assertions and never overflow an i16 subtraction |
| BlockSearch.ColumnChanged | vfi/src/estimator/combinator/bma.rs:76-84 | a column of the gate counts at most as many changed pixels as it has pixels |
| BlockSearch.ChangedUpToBound | vfi/src/estimator/combinator/bma.rs:74-85 | the changed-pixel count of m columns is at most m·bw |
| BlockSearch.ColumnChangedZero | vfi/src/estimator/combinator/bma.rs:76-84 | a column counts no changed pixel exactly when none of its pixel differences exceeds the minimum |
| BlockSearch.ChangedUpToZero | vfi/src/estimator/combinator/bma.rs:74-88 | the count of the first m columns is zero exactly when no pixel in them differs by more than the minimum |
| BlockSearch.GateVerdict | vfi/src/estimator/combinator/bma.rs:74-91 | with no pixel differing by more than the minimum the block is unmoved; otherwise 1 ≤ changed ≤ bw² and it moved exactly when bw²·100/changed exceeds the threshold |
| BlockSearch.ChangedPixels | vfi/src/estimator/combinator/bma.rs:74-85 | `changed_pixels` is at most the block's area, and 0 exactly when no pixel of the block differs by more than the minimum |
| BlockSearch.Moved | vfi/src/estimator/combinator/bma.rs:74-91 | a block moved exactly when some pixel changed and (threshold + 1)·changed ≤ bw²·100, so fewer changed pixels make it move more readily |
| BlockSearch.UnchangedBlockNotMoved | vfi/src/estimator/combinator/bma.rs:74-91 | a block whose pixels are the same in both frames never counts as moved |
| BlockSearch.GateAreaFits | vfi/src/estimator/combinator/bma.rs:89 | for block widths up to 6553 `block_width.pow(2) * 100` fits in a u32 |
| BlockSearch.BlockMoved | vfi/src/estimator/combinator/bma.rs:67-91 | the counting loops and the ratio test of `has_block_moved` compute the gate's verdict, with no u32 overflow |
| BlockSearch.CountColumn | vfi/src/estimator/combinator/bma.rs:76-84 | the inner loop adds the changed pixels of one column and stays within the u32 bound |
| BlockSearch.SquaredDifference | vfi/src/estimator/combinator/bma.rs:110-117 | the squared pixel difference is at most 441² and zero exactly for equal pixels |
| BlockSearch.SquaredPixelError | vfi/src/estimator/combinator/bma.rs:108-117 | each term of a block's error is at most 441² |
| BlockSearch.ColumnError | vfi/src/estimator/combinator/bma.rs:107-118 | the error of n pixels of a column is at most n·441² |
| BlockSearch.ErrorUpTo | vfi/src/estimator/combinator/bma.rs:106-119 | the error of m columns of a block of width at most 148 is at most m·148·441² |
| BlockSearch.ErrorUpToBound | vfi/src/estimator/combinator/bma.rs:106-119 | the error of m columns is at most m·bw·441² |
| BlockSearch.MeanErrorBound | vfi/src/estimator/combinator/bma.rs:120 | dividing a block's summed error by its non-zero area gives at most 441² |
| BlockSearch.PartialErrorFitsU32 | vfi/src/estimator/combinator/bma.rs:110-117 | every running sum `cur_error += ...` stays within a u32 for block widths up to 148 |
| BlockSearch.BlockError | vfi/src/estimator/combinator/bma.rs:105-120 | the truncated mean squared difference of a block at an offset is at most 441² |
| BlockSearch.ColumnErrorZero | vfi/src/estimator/combinator/bma.rs:107-118 | a column that matches exactly has error 0 |
| BlockSearch.ErrorUpToZero | vfi/src/estimator/combinator/bma.rs:106-119 | the columns of a block that matches exactly have error 0 |
| BlockSearch.ExactMatchHasZeroError | vfi/src/estimator/combinator/bma.rs:105-120 | a block that reappears unchanged at an offset has error 0 there |
| BlockSearch.ComputeBlockError | vfi/src/estimator/combinator/bma.rs:105-120 | the pixel loops and the division by `block_width²` compute the block error of one offset |
| BlockSearch.SumBlockError | vfi/src/estimator/combinator/bma.rs:105-119 | the two pixel loops sum the squared differences of the whole block |
| BlockSearch.AddColumnError | vfi/src/estimator/combinator/bma.rs:107-118 | the innermost loop adds one column's squared differences |
| BlockSearch.WindowOfOffset | vfi/src/estimator/combinator/bma.rs:103-117 | every offset of the search range reads only pixels of the padded frames |
| BlockSearch.ScanFound | vfi/src/estimator/combinator/bma.rs:100-126 | after at least one offset the best candidate is a visited offset carrying its own error; before any it is `(0, 0, u32::MAX)` |
| BlockSearch.ScanLeast | vfi/src/estimator/combinator/bma.rs:121-124 | the best candidate's error is at most that of every visited offset |
| BlockSearch.ScanFirst | vfi/src/estimator/combinator/bma.rs:121-124 | no visited offset earlier in x-outer, y-inner order reaches the best candidate's error (strict `<`) |
| BlockSearch.Scan | vfi/src/estimator/combinator/bma.rs:100-126 | the best candidate is `(0, 0, u32::MAX)` or an offset within the search range |
| BlockSearch.BestMatchIsFirstMinimum | vfi/src/estimator/combinator/bma.rs:93-129 | radius 0 answers `(0, 0, u32::MAX)`; otherwise the answer is an offset in [-r, r)² with its own error, the least over the range, and no earlier offset reaches it |
| BlockSearch.BestMatch | vfi/src/estimator/combinator/bma.rs:100-128 | with radius 0 nothing is searched and the answer is `(0, 0, u32::MAX)`; otherwise it is an offset of the search range with an error of at most 441² |
| BlockSearch.BestMatchInRange | vfi/src/estimator/combinator/bma.rs:103-104 | the answered offset lies within [-r, r] on both axes |
| BlockSearch.ExactMatchFound | vfi/src/estimator/combinator/bma.rs:100-128 | when the block reappears unchanged at some offset of the range, the search reports error 0 |
| BlockSearch.SelfMatchHasZeroError | vfi/src/estimator/combinator/bma.rs:103-128 | a block searched in its own frame with r ≥ 1 reports error 0 |
| BlockSearch.FlatFramePicksFirstOffset | vfi/src/estimator/combinator/bma.rs:103-124 | when every offset matches exactly, the answer is the first offset (-r, -r), not (0, 0) |
| BlockSearch.MotionSearch | vfi/src/estimator/combinator/bma.rs:100-128 | the search loops over the padded buffers compute the first-minimum answer |
| BlockSearch.SearchColumn | vfi/src/estimator/combinator/bma.rs:104-125 | the y loop for one x offset advances the scan by one full column of offsets |
| BlockSearch.TryOffset | vfi/src/estimator/combinator/bma.rs:105-124 | one offset replaces the best so far exactly when its error is strictly smaller |
| BlockFlow.BlockOrigin | vfi/src/estimator/combinator/bma.rs:139-146 | a block of the ceil(W/bw) grid ends at most bw-1 pixels past the edge, and inside when bw divides W |
| BlockFlow.PaddedSearchFits | vfi/src/estimator/combinator/bma.rs:136-151 | with padding r + bw every read of the search of any grid block is inside the padded frames |
| BlockFlow.ErrorFlow | vfi/src/estimator/combinator/bma.rs:131-165 | the flow has ceil(H/bw) rows of ceil(W/bw) cells; a cell holds its block's search result when the block is searched and `(0, 0, u32::MAX)` otherwise |
| BlockFlow.FlowCell | vfi/src/estimator/combinator/bma.rs:145-152 | a cell is `(0, 0, u32::MAX)` for a skipped block or radius 0, and otherwise an offset of the search range with an error of at most 441² |
| BlockFlow.StripErrors | vfi/src/estimator/combinator.rs:37-45 | dropping the errors keeps the shape and each cell's (dx, dy) |
| BlockFlow.NoRadiusNoMotion | vfi/src/estimator/combinator/bma.rs:100-128 | with search radius 0 every cell is `(0, 0, u32::MAX)` |
| BlockFlow.IdenticalFramesSkipEveryBlock | vfi/src/estimator/combinator/bma.rs:143-152 | with the gate on, identical frames leave the whole grid `(0, 0, u32::MAX)` |
| BlockFlow.IdenticalBlockSkipped | vfi/src/estimator/combinator/bma.rs:147-150 | with the gate on, no block of identical frames is searched |
| BlockFlow.IdenticalFramesZeroError | vfi/src/estimator/combinator/bma.rs:145-152 | every searched block of identical frames with r ≥ 1 has error 0 |
| BlockFlow.FlowCellInRange | vfi/src/estimator/combinator/bma.rs:145-152 | every vector of the flow lies within [-r, r] |
| BlockFlow.FlowHasRows | vfi/src/estimator/combinator/bma.rs:139-143 | a frame with at least one row gives a flow with at least one row |
| CombinatorBma.Bma.constructor | vfi/src/estimator/combinator/bma.rs:41-53 | `BMA::new()` has the default settings (16, 7, gate on, 10, 30, quiet) and padding 23 |
| CombinatorBma.Bma.ApplySettings | vfi/src/estimator/combinator/bma.rs:55-63 | every setting is copied and the padding becomes radius + block width |
| CombinatorBma.Bma.HasBlockMoved | vfi/src/estimator/combinator/bma.rs:67-91 | `has_block_moved` of block (i, j) is the gate's verdict on the unpadded frames |
| CombinatorBma.Bma.GetMotionVector | vfi/src/estimator/combinator/bma.rs:93-129 | `get_motion_vector` of block (i, j) is the first-minimum search answer with its error |
| CombinatorBma.Bma.CalcFlow | vfi/src/estimator/combinator/bma.rs:131-165 | `calc_flow` returns the error flow of the two frames under the current settings |
| CombinatorBma.Bma.CalcFlowRow | vfi/src/estimator/combinator/bma.rs:145-162 | one row of blocks gets its cells and nothing else changes |
| CombinatorBma.Bma.CalcFlowBlock | vfi/src/estimator/combinator/bma.rs:146-160 | a block is searched exactly when the gate is off or says it moved; a searched block gets its cell, and an unsearched block's cell is `(0, 0, u32::MAX)` |
| EstimatorBma.Bma.constructor | vfi/src/estimator/bma.rs:24-40 | no frames, 0 x 0, the default settings and padding 23 |
| EstimatorBma.Bma.SetFrames | vfi/src/estimator/bma.rs:42-51 | the frames must have equal dimensions; both are stored and their dimensions recorded; no setting changes |
| EstimatorBma.Bma.SetVerbose | vfi/src/estimator/bma.rs:53-55 | only the verbosity changes |
| EstimatorBma.Bma.SetBlockWidth | vfi/src/estimator/bma.rs:57-60 | the block width changes and the padding follows, keeping padding = radius + width; nothing else changes |
| EstimatorBma.Bma.SetSearchRadius | vfi/src/estimator/bma.rs:62-65 | the radius changes and the padding follows, keeping padding = radius + width; nothing else changes |
| EstimatorBma.Bma.SetUseMovementMap | vfi/src/estimator/bma.rs:67-69 | only the gate flag changes |
| EstimatorBma.Bma.SetMinPixDiff | vfi/src/estimator/bma.rs:71-73 | only the gate's pixel threshold changes |
| EstimatorBma.Bma.SetMinChangePercentage | vfi/src/estimator/bma.rs:75-77 | only the gate's ratio threshold changes |
| EstimatorBma.Bma.HasBlockMoved | vfi/src/estimator/bma.rs:81-101 | needs both frames set; answers the gate's verdict on them |
| EstimatorBma.Bma.GetMotionVector | vfi/src/estimator/bma.rs:103-139 | the first-minimum search answer without its error, (0, 0) for radius 0 |
| EstimatorBma.Bma.CalcFlow | vfi/src/estimator/bma.rs:141-166 | needs both frames set; returns the error flow of the stored frames without the errors, (0, 0) in skipped blocks |
| EstimatorBma.Bma.CalcFlowRow | vfi/src/estimator/bma.rs:150-163 | one row of blocks gets its vectors and nothing else changes |
| EstimatorBma.Bma.CalcFlowBlock | vfi/src/estimator/bma.rs:151-162 | a block is searched exactly when the gate is off or says it moved; an unsearched block's vector is (0, 0) |
| Estimator.Estimator.constructor | vfi/src/estimator.rs:22-31 | no frames, not verbose, block matching, and a new block-matching estimator with its defaults |
| Estimator.Estimator.SetFrames | vfi/src/estimator.rs:33-41 | the frames must have equal dimensions; both are stored; nothing else changes |
| Estimator.Estimator.SetVerbose | vfi/src/estimator.rs:43-46 | the flag is set on the estimator and on the owned block-matching estimator, whose other state is unchanged |
| Estimator.Estimator.SetAlgorithm | vfi/src/estimator.rs:48-50 | only the algorithm changes |
| Estimator.Estimator.EstimateMotion | vfi/src/estimator.rs:52-62 | needs both frames set; the owned estimator receives them, its settings unchanged, and the result is its flow of them without the errors |
| Combinator.RemoveFlowErrorData | vfi/src/estimator/combinator.rs:37-45 | the output has \|ef\| rows as long as the first; each cell keeps its (dx, dy), (0, 0) past the end of a shorter row; on a rectangular grid it only drops the errors |
| Combinator.WithVerbose | vfi/src/estimator/combinator.rs:47-53 | `get_bma` overwrites the block-matching verbosity with the top-level one and changes nothing else in the settings |
| Combinator.GetBma | vfi/src/estimator/combinator.rs:47-53 | a new estimator holding the updated block-matching settings, with consistent padding |
| Combinator.ErrorFlowShape | vfi/src/estimator/combinator/bma.rs:139-152 | the error flow is a rectangular grid with at least one row, its vectors within ±255 |
| Combinator.BidirectionalCombinable | vfi/src/estimator/combinator.rs:64-73 | the forward and backward flows of two frames pass the assertions of the combination and never overflow |
| Combinator.SmoothedCombinable | vfi/src/estimator/combinator.rs:85-98 | the smoothed forward and backward flows can be combined in the same way |
| Combinator.RunBma | vfi/src/estimator/combinator.rs:55-62 | the result is the stripped error flow, and the settings come back with the verbosity copied |
| Combinator.RunBidirectionalBma | vfi/src/estimator/combinator.rs:64-73 | the result combines the stripped forward flow with the stripped backward flow |
| Combinator.RunSmoothedBma | vfi/src/estimator/combinator.rs:75-83 | the result is the smoothed error flow, with the configured window width |
| Combinator.RunSmoothedBidirectionalBma | vfi/src/estimator/combinator.rs:85-98 | each direction is smoothed separately, then the two are combined |
| Combinator.RunAlgo | vfi/src/estimator/combinator.rs:100-114 | each algorithm runs exactly its own pipeline |
| Combinator.IdenticalFramesNoMotion | vfi/src/estimator/combinator.rs:100-114 | with the gate on, identical frames give the zero flow under all four algorithms |
| Smoothing.Quotient | vfi/src/estimator/combinator/smoothing.rs:23-25 | the f64 weight is NaN exactly for 0/0, +infinity exactly for a positive error over 0, and finite for a non-zero divisor |
| Smoothing.Product | vfi/src/estimator/combinator/smoothing.rs:64-65 | an f64 product is NaN when a factor is NaN and finite when both factors are |
| Smoothing.Sum | vfi/src/estimator/combinator/smoothing.rs:64-65 | an f64 sum is NaN when a term is NaN and finite when both terms are |
| Smoothing.LessOrder | vfi/src/estimator/combinator/smoothing.rs:68 | f64 `<` is irreflexive and transitive, and total on the values other than NaN; NaN is below and above nothing, nothing is below -infinity and +infinity is below nothing |
| Smoothing.SquaredDiff | vfi/src/estimator/combinator/smoothing.rs:32 | the squared component distance is zero exactly for equal vectors |
| Smoothing.VectorDiff | vfi/src/estimator/combinator/smoothing.rs:31-33 | `vector_diff` is a finite f64 when its u16 arithmetic does not overflow |
| Smoothing.VectorDiffSymmetric | vfi/src/estimator/combinator/smoothing.rs:31-33 | `vector_diff` does not depend on the order of its arguments |
| Smoothing.WindowWeights | vfi/src/estimator/combinator/smoothing.rs:13-29 | a fw x fw grid whose cell (y, x) is the centre's error divided by that window cell's |
| Smoothing.Deviation | vfi/src/estimator/combinator/smoothing.rs:53-67 | a candidate's running deviation stays finite when every weight is finite (no window cell has error 0) |
| Smoothing.MedianScan | vfi/src/estimator/combinator/smoothing.rs:45-73 | while the minimum is still +infinity the vector is (0, 0); otherwise the pair is the deviation and vector of a candidate already visited |
| Smoothing.MedianOf | vfi/src/estimator/combinator/smoothing.rs:35-76 | the weighted median is (0, 0) or the vector of some cell of the window |
| Smoothing.MedianChoice | vfi/src/estimator/combinator/smoothing.rs:45-73 | no visited deviation is below the kept minimum; either nothing was taken, or the kept vector is that of a visited candidate below +infinity and every earlier candidate's deviation differs |
| Smoothing.InteriorWindow | vfi/src/estimator/combinator/smoothing.rs:85-89 | the window of every interior cell lies inside the flow and fits `vector_diff` |
| Smoothing.Smoothed | vfi/src/estimator/combinator/smoothing.rs:78-112 | the smoothed flow has the input's shape; interior cells take their weighted median, cells within fw/2 of an edge keep their own vector |
| Smoothing.SmoothedCell | vfi/src/estimator/combinator/smoothing.rs:78-112 | every cell of the smoothed flow is (0, 0) or a vector the input flow holds somewhere |
| Smoothing.SmoothedCellIsWeightedMedian | vfi/src/estimator/combinator/smoothing.rs:35-76 | an interior cell becomes the first window vector of least deviation, or (0, 0) when every deviation is NaN or +infinity |
| Smoothing.NaNWeightSpreads | vfi/src/estimator/combinator/smoothing.rs:53-67 | one NaN weight makes a candidate's deviation NaN |
| Smoothing.EqualVectorsZeroDeviation | vfi/src/estimator/combinator/smoothing.rs:53-67 | with finite weights, a candidate equal to all its neighbours has deviation 0 |
| Smoothing.ZeroErrorCellSmoothsToZero | vfi/src/estimator/combinator/smoothing.rs:13-76 | an interior cell with match error 0 is smoothed to (0, 0) whatever its window holds |
| Smoothing.UniformFlowUnchanged | vfi/src/estimator/combinator/smoothing.rs:78-112 | a flow of one vector with non-zero errors is left unchanged |
| Smoothing.UniformWindowKeepsVector | vfi/src/estimator/combinator/smoothing.rs:85-90 | in such a flow each interior cell keeps the shared vector |
| Smoothing.SmoothedWithin | vfi/src/estimator/combinator/smoothing.rs:78-112 | smoothing keeps any bound on the vectors' components |
| Smoothing.GetWindowWeights | vfi/src/estimator/combinator/smoothing.rs:13-29 | the loops build exactly the window's weights |
| Smoothing.ComputeDeviation | vfi/src/estimator/combinator/smoothing.rs:53-67 | the neighbour loops compute one candidate's deviation in the source's order |
| Smoothing.AddTerm | vfi/src/estimator/combinator/smoothing.rs:56-65 | one neighbour's weighted distance is added to the deviation |
| Smoothing.GetMedianWeightedVector | vfi/src/estimator/combinator/smoothing.rs:35-76 | the candidate loops return the window's weighted median |
| Smoothing.TryCandidate | vfi/src/estimator/combinator/smoothing.rs:49-71 | a candidate replaces the median so far exactly when its deviation is strictly less |
| Smoothing.SmoothErrorFlow | vfi/src/estimator/combinator/smoothing.rs:78-112 | needs an odd window; the three loop nests build exactly the smoothed flow |
| Smoothing.SmoothRow | vfi/src/estimator/combinator/smoothing.rs:86-90 | one interior row gets its weighted medians and nothing else changes |
| Smoothing.FillRowEnds | vfi/src/estimator/combinator/smoothing.rs:93-101 | the first and last fw/2 cells of row i take the input's vectors and nothing else changes |
| Smoothing.FillColumnEnds | vfi/src/estimator/combinator/smoothing.rs:102-110 | the first and last fw/2 cells of column j take the input's vectors and nothing else changes |
| Compensator.Target | vfi/src/compensator.rs:18-19 | `(c as i32 + d) as u32` is c + d when that is non-negative and wraps by 2³² otherwise |
| Compensator.TargetInBounds | vfi/src/compensator.rs:18-20 | the bounds check accepts exactly the non-negative coordinates below the bound; negative ones wrap past it |
| Compensator.Blend | vfi/src/compensator.rs:21-32 | a black target takes the projected colour, any other is averaged with the second frame's pixel, and nothing else changes |
| Compensator.BlendAt | vfi/src/compensator.rs:18-33 | an in-image target is blended; a target outside the image changes nothing |
| Compensator.ProjectPixel | vfi/src/compensator.rs:13-49 | projecting one pixel changes at most its forward and backward targets |
| Compensator.ProjectedUpTo | vfi/src/compensator.rs:11-51 | the output after part of the projection loop has the first frame's dimensions |
| Compensator.Projected | vfi/src/compensator.rs:11-51 | the output after the projection loop has the first frame's dimensions |
| Compensator.HoleFilled | vfi/src/compensator.rs:53-66 | every pixel still black becomes the average of the two frames there; every other pixel is unchanged |
| Compensator.Compensated | vfi/src/compensator.rs:5-69 | the compensated frame has the first frame's dimensions |
| Compensator.Compensate | vfi/src/compensator.rs:5-69 | `compensate` returns a new buffer holding the projected and hole-filled frame |
| Compensator.ProjectRow | vfi/src/compensator.rs:12-50 | one row of the projection loop, on the buffer |
| Compensator.ProjectPixelInPlace | vfi/src/compensator.rs:13-49 | the loop body for one pixel, on the buffer |
| Compensator.BlendInPlace | vfi/src/compensator.rs:34-49 | one bounds check and `put_pixel`, on the buffer |
| Compensator.FillHoles | vfi/src/compensator.rs:53-66 | the hole-filling loop, in place |
| Compensator.HoleFillIdempotent | vfi/src/compensator.rs:53-66 | filling the holes a second time changes nothing more |
| Compensator.ZeroDisplacementProjection | vfi/src/compensator.rs:11-51 | with zero displacements each pixel is projected only onto itself |
| Compensator.ZeroDisplacementBlends | vfi/src/compensator.rs:5-69 | with zero displacements a pixel that is not black in the first frame comes out as the average of the two frames; a black one takes the second frame's colour, or the average if that is black too |
| ConvEdges.ResponseIsDiagonalGradient | vfi/src/estimator/combinator/conv_edges.rs:7-27 | the two kernels together weigh neighbour (dx, dy) by dx + dy, so the response is a diagonal gradient of channel 0 |
| ConvEdges.ClampByte | vfi/src/estimator/combinator/conv_edges.rs:28 | `clamp(0, 255)`: negatives become 0, values above 255 become 255, others stay |
| ConvEdges.Edges | vfi/src/estimator/combinator/conv_edges.rs:3-38 | same dimensions; the one-pixel border is black; each interior pixel is the clamped response in all three channels |
| ConvEdges.FlatNeighbourhoodIsBlack | vfi/src/estimator/combinator/conv_edges.rs:19-30 | a neighbourhood flat in channel 0 gives a black pixel |
| ConvEdges.OnlyChannelZeroIsRead | vfi/src/estimator/combinator/conv_edges.rs:24-25 | frames that agree on channel 0 give the same result |
| ConvEdges.GetConvEdges | vfi/src/estimator/combinator/conv_edges.rs:3-38 | the buffer ends up holding the edges of its original content; every read sees the input because results go to a separate buffer first |
| ConvEdges.EdgeRow | vfi/src/estimator/combinator/conv_edges.rs:20-30 | one interior row of the result buffer is filled |
| ConvEdges.ConvolveAt | vfi/src/estimator/combinator/conv_edges.rs:21-28 | the kernel loops and the clamp compute the pixel's value |
| ConvEdges.AddTap | vfi/src/estimator/combinator/conv_edges.rs:24-25 | both kernels' taps at (fi, fj) are added |
| Grayscale.PixelToGrayscale | vfi/src/estimator/combinator/convert_to_grayscale.rs:13-17 | a gray pixel whose brightness is the channel sum over three, rounded down by at most two; never above 255, so no u8 overflow |
| Grayscale.GrayPixelLosesRemainder | vfi/src/estimator/combinator/convert_to_grayscale.rs:15 | a gray pixel (g, g, g) becomes g - g % 3 in every channel |
| Grayscale.Grayscaled | vfi/src/estimator/combinator/convert_to_grayscale.rs:3-11 | same dimensions, every pixel the conversion of its original value |
| Grayscale.ToGrayscale | vfi/src/estimator/combinator/convert_to_grayscale.rs:3-11 | the buffer ends up holding the converted frame |
| Plotter.Line.Err0 | vfi/src/plotter.rs:25 | the initial error, halved toward zero, satisfies -dy ≤ 2·err ≤ dx |
| Plotter.Line.TraceFrom | vfi/src/plotter.rs:29-59 | the loop terminates; the points it paints start at the cursor and end at p2 |
| Plotter.Line.TraceAdvances | vfi/src/plotter.rs:29-59 | every painted point lies in the end points' bounding box, each at least one step further along than the one before |
| Plotter.Line.TraceConnected | vfi/src/plotter.rs:47-58 | consecutive painted points differ by one step toward p2 in x, in y, or in both |
| Plotter.Line.Step | vfi/src/plotter.rs:47-58 | a step moves the cursor by 0 or one pixel toward p2 on each axis; the error loses dy with an x step and gains dx with a y step |
| Plotter.Line.StartOnTrack | vfi/src/plotter.rs:11-25 | the initial position and error satisfy the Bresenham invariant |
| Plotter.Line.StepOnTrack | vfi/src/plotter.rs:48-58 | a step keeps the invariant and moves toward p2 without overshooting |
| Plotter.Line.NoStepPastEnd | vfi/src/plotter.rs:43-58 | at the end column no x step is taken, at the end row no y step, and before p2 at least one |
| Plotter.XBlocked | vfi/src/plotter.rs:51-54 | at the end column with rows left, the error is too low for an x step |
| Plotter.YBlocked | vfi/src/plotter.rs:55-58 | at the end row with columns left, the error is too high for a y step |
| Plotter.PaintSquare | vfi/src/plotter.rs:31-40 | the width x width square at the point takes `color`, its anchor green on the very first paint; every other pixel is unchanged |
| Plotter.Drawn | vfi/src/plotter.rs:29-59 | painting the squares of a trace in order keeps the dimensions |
| Plotter.DrawnPixel | vfi/src/plotter.rs:29-59 | a pixel under no square is unchanged; the first anchor is green unless a later square covers it; every other covered pixel takes `color` |
| Plotter.NothingCoveredByEmptySquares | vfi/src/plotter.rs:31-32 | squares of width 0 paint nothing |
| Plotter.UnitSquaresCoverPoints | vfi/src/plotter.rs:31-40 | squares of width 1 cover exactly the trace's points |
| Plotter.TraceLeavesStart | vfi/src/plotter.rs:29-59 | the trace starts at p1 and never returns to it |
| Plotter.ThinLine | vfi/src/plotter.rs:28-59 | a line of width 1 makes p1 green and the rest of its trace `color`, and leaves every other pixel unchanged |
| Plotter.LineTraceFits | vfi/src/plotter.rs:31-40 | when both end squares fit the image, so does every square of the trace |
| Plotter.LineDrawn | vfi/src/plotter.rs:3-60 | the frame `draw_line` leaves has the original dimensions |
| Plotter.DrawLine | vfi/src/plotter.rs:3-60 | `draw_line` leaves the buffer holding the squares of the trace painted in order |
| Plotter.DrawLoop | vfi/src/plotter.rs:29-59 | the loop, started at p1 with nothing painted, finishes the drawing |
| Plotter.Pass | vfi/src/plotter.rs:29-59 | one pass paints the cursor's square, stops exactly at p2, and otherwise takes a step that shortens what remains |
| Plotter.LoopStarts | vfi/src/plotter.rs:11-28 | the initialisation puts the loop variables at the start of the line |
| Plotter.PaintStep | vfi/src/plotter.rs:31-45 | after the square loops the drawing either is finished (at p2) or continues from the next cursor |
| Plotter.Advance | vfi/src/plotter.rs:47-58 | the error update and steps are one Bresenham step, with no i32 overflow |
| Plotter.DrawnLast | vfi/src/plotter.rs:43-45 | at p2, painting the last square finishes the drawing |
| Plotter.DrawnNext | vfi/src/plotter.rs:47-58 | before p2, the rest of the drawing continues from the next cursor |
| Plotter.PaintSquareInPlace | vfi/src/plotter.rs:31-40 | the square loops paint the square on the buffer and clear `first` exactly when they paint something |
| Plotter.PaintColumn | vfi/src/plotter.rs:32-39 | the inner loop paints one column segment, its top pixel green when asked, and nothing else |
| Plotter.Rect | vfi/src/plotter.rs:62-75 | the w x h rectangle takes `color` and every other pixel is unchanged |
| Plotter.SquareIsRect | vfi/src/plotter.rs:31-40 | a square painted without its green pixel is a w x w rectangle |
| Plotter.RectIdempotent | vfi/src/plotter.rs:62-75 | drawing the same rectangle twice is the same as drawing it once |
| Plotter.DrawRect | vfi/src/plotter.rs:62-75 | `draw_rect` leaves the buffer holding the rectangle drawn on its original content |
| Visualizer.SpanIsProduct | vfi/src/visualizer.rs:9-12 | n blocks of `block_size` pixels span n · `block_size` pixels |
| Visualizer.ClampTo | vfi/src/visualizer.rs:21-22 | `clamp(lo, hi)` lies in [lo, hi], keeps values inside, and sends values outside to the nearer bound |
| Visualizer.End | vfi/src/visualizer.rs:21-22 | the clamped end point is a pixel of the image |
| Visualizer.StartInside | vfi/src/visualizer.rs:19-20 | a drawn cell has a positive block size, and its start `j·bs + bs/2, i·bs + bs/2` is a pixel of the image |
| Visualizer.CellStart | vfi/src/visualizer.rs:19-20 | the start point of a drawn cell is in the image |
| Visualizer.CellEnd | vfi/src/visualizer.rs:21-22 | the end point of a drawn cell is in the image |
| Visualizer.CellDrawn | vfi/src/visualizer.rs:23-25 | drawing a cell keeps the dimensions |
| Visualizer.RowDrawn | vfi/src/visualizer.rs:15-26 | the frame after part of a row keeps the dimensions; zero cells are skipped |
| Visualizer.RowsDrawn | vfi/src/visualizer.rs:14-27 | the frame after the first rows has the image's dimensions |
| Visualizer.Visualized | vfi/src/visualizer.rs:5-29 | the picture is `vf[0].len()·bs` wide and `vf.len()·bs` high |
| Visualizer.CellPixels | vfi/src/visualizer.rs:23-25 | after a cell is drawn its end pixel is red, its start blue unless the end covers it, the rest of its line green, and every other pixel as before |
| Visualizer.CellOverLine | vfi/src/visualizer.rs:23-25 | the line fits the image, and the blue and then the red pixel are put over it |
| Visualizer.CellTraceEnds | vfi/src/visualizer.rs:23 | the start and the end point of a cell are on its line |
| Visualizer.RowLeavesPixel | vfi/src/visualizer.rs:15-26 | a pixel on no line of a row keeps its value through the row |
| Visualizer.RowStepKeeps | vfi/src/visualizer.rs:16-25 | one cell of a row leaves a pixel off its line as it was; a zero cell changes nothing |
| Visualizer.CellKeepsPixel | vfi/src/visualizer.rs:23-25 | a drawn cell leaves a pixel off its line as it was |
| Visualizer.UntouchedPixelIsBlack | vfi/src/visualizer.rs:13-27 | a pixel that no non-zero vector's line passes through stays black |
| Visualizer.ZeroFieldIsBlack | vfi/src/visualizer.rs:13-18 | a field of zero vectors gives an all-black image |
| Visualizer.LastEndIsRed | vfi/src/visualizer.rs:25 | the end pixel of the last cell, if that cell is non-zero, is red in the picture |
| Visualizer.NewImage | vfi/src/visualizer.rs:13 | a new all-black buffer of the given size |
| Visualizer.VisualizeAsVectorField | vfi/src/visualizer.rs:5-29 | a new buffer of `vf[0].len()·bs` x `vf.len()·bs` pixels holding the picture of the field |
| Visualizer.DrawCell | vfi/src/visualizer.rs:19-25 | the body of the inner loop draws one non-zero cell on the buffer |

## Left out

- Image decoding (`image::open(...).into_rgb8()` in `compensate`), file I/O and the `image` crate's buffer storage are not modelled. Frames are inputs; buffers are `array2`.
- vfi/src/tester.rs (file-system setup, timing, ffmpeg, reports) and vfi/src/main.rs are not part of this model. Nor are the OpenCV executables in vfi/src/executables/, which are foreign code computing floating-point optical flow.
- Verbose output (`println!`) in `calc_flow` is left out. The verbosity flag itself is modelled.
- Compensator.Compensate: the flow is taken as whole-pixel displacements. The f32 halving and `round()` of vfi/src/compensator.rs:13-16 are floating point and not modelled. `pixel_average` is imported from `operations` (vfi/src/compensator.rs:3), but vfi/src/operations.rs does not define it, so it is a parameter. The frames' dimensions must be at most 2³¹ so that `as i32` is exact.
- Smoothing.SmoothErrorFlow: the rounding of finite f64 results and the f64 square root are parameters (`FloatOps`). Infinities, NaN and IEEE comparison are modelled exactly. Any property that depends on the actual rounding (for example, which of two nearly equal deviations is smaller) is left to that parameter.
- Smoothing.SmoothErrorFlow: flows are taken to be rectangular. The output width and the interior pass use `error_flow[0].len()`, while the row-end pass (vfi/src/estimator/combinator/smoothing.rs:96-98) uses each row's own `error_flow[i].len()`; on a ragged flow the two disagree, so the model requires every row to have the first row's length. The flow must also be at least half a window in each dimension and, with the window width added, fit a u32. These are the u32 `len - half_fw` and `i + y` of the source.
- BlockSearch.ComputeBlockError: a block width of at most 148 is required whenever a search runs, so that the u32 sum of squared differences cannot overflow. Wider blocks can overflow `cur_error` in the source (a block that matches exactly still sums to 0 at any width).
- BlockSearch.BlockMoved: a block width of at most 6553 is required so that `block_width.pow(2) * 100` fits in a u32.
- BlockFlow.ErrorFlow: both frames must have the same dimensions. `calc_flow` reads the second frame only within the first frame's extent, so the source would also accept a larger second frame; `set_frames` asserts equal sizes (vfi/src/estimator.rs:38), and no caller passes frames of different sizes.
- BlockFlow.ErrorFlow: with the movement gate on, both frame dimensions must be multiples of the block width. The gate reads the unpadded frames and would index past their edge otherwise. Padded dimensions must fit in a u32.
- CombinatorBma.Bma.GetMotionVector: the u32 pixel coordinates `padding + block * bw` must not overflow. The model requires this rather than modelling the wrap.
- Plotter.DrawLine: coordinates must be below 2³⁰ so that the i32 arithmetic (`as i32`, `2 * err`) is exact. The source allows any u32 coordinate whose arithmetic happens not to overflow.
- Visualizer.VisualizeAsVectorField: the image must be under 2³⁰ pixels on each side, for the same i32 line arithmetic. Every non-zero cell needs a positive block size and a column within the first row's length, because the source panics otherwise.
- EstimatorBma.Bma.SetFrames: frames are assumed to have u32 dimensions, as an `ImageBuffer`'s are.
- The three `default()` settings functions are constants here (`DefaultBmaSettings`, `DefaultSmoothingSettings`, `DefaultAlgoSettings`), with the same values.
