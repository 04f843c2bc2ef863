/**
  The top-level motion estimator (vfi/src/estimator.rs): it keeps the two
  frames, a verbosity flag and the chosen algorithm, and owns a block-matching
  estimator to which `estimate_motion` hands the frames.
 */
module Estimator {
  import opened Raster
  import opened BlockFlow
  import opened EstimatorBma

  /** `Algorithm`: block matching is the only one. */
  datatype Algorithm = BlockMatching

  /** An image buffer's frame: well formed, with u32 dimensions. */
  ghost predicate IsImage(f: Frame)
  {
    f.Valid() && f.width <= U32_MAX && f.height <= U32_MAX
  }

  class Estimator {
    var frame1: Option<Frame>
    var frame2: Option<Frame>
    var verbose: bool
    var algorithm: Algorithm
    var bma: Bma

    /** The owned estimator is consistent; the frames are set together, are
        images and have the same dimensions. */
    ghost predicate Valid()
      reads this, bma
    {
      bma.Valid() &&
      frame1.Some? == frame2.Some? &&
      (frame1.Some? ==>
         IsImage(frame1.value) && IsImage(frame2.value) &&
         frame1.value.width == frame2.value.width && frame1.value.height == frame2.value.height)
    }

    /** `Estimator::new()`: no frames, not verbose, block matching, a fresh
        estimator with its defaults. */
    constructor ()
      ensures Valid() && fresh(bma)
      ensures frame1 == None && frame2 == None && !verbose && algorithm == BlockMatching
      ensures bma.frame1 == None && bma.width == 0 && bma.height == 0 && !bma.verbose
      ensures bma.blockWidth == 16 && bma.searchRadius == 7 && bma.useMovementMap
      ensures bma.minPixDiff == 10 && bma.minChangePercentage == 30
    {
      var b := new Bma();
      bma := b;
      verbose := false;
      algorithm := BlockMatching;
      frame1, frame2 := None, None;
    }

    /** `set_frames`: the dimensions must agree (an assertion in the source); the
        owned estimator is not touched. */
    method SetFrames(f1: Frame, f2: Frame)
      requires Valid() && IsImage(f1) && IsImage(f2)
      requires f1.width == f2.width && f1.height == f2.height
      modifies this
      ensures Valid() && frame1 == Some(f1) && frame2 == Some(f2)
      ensures verbose == old(verbose) && algorithm == old(algorithm) && bma == old(bma)
    {
      frame1 := Some(f1);
      frame2 := Some(f2);
    }

    /** `set_verbose`: the flag is passed on to the owned estimator. */
    method SetVerbose(v: bool)
      requires Valid()
      modifies this, bma
      ensures Valid() && verbose == v && bma == old(bma) && bma.verbose == v
      ensures frame1 == old(frame1) && frame2 == old(frame2) && algorithm == old(algorithm)
      ensures bma.blockWidth == old(bma.blockWidth) && bma.searchRadius == old(bma.searchRadius)
      ensures bma.useMovementMap == old(bma.useMovementMap) && bma.minPixDiff == old(bma.minPixDiff)
      ensures bma.minChangePercentage == old(bma.minChangePercentage) && bma.padding == old(bma.padding)
      ensures bma.frame1 == old(bma.frame1) && bma.frame2 == old(bma.frame2)
      ensures bma.width == old(bma.width) && bma.height == old(bma.height)
    {
      verbose := v;
      bma.SetVerbose(v);
    }

    /** `set_algorithm` */
    method SetAlgorithm(a: Algorithm)
      requires Valid()
      modifies this
      ensures Valid() && algorithm == a
      ensures frame1 == old(frame1) && frame2 == old(frame2) && verbose == old(verbose) && bma == old(bma)
    {
      algorithm := a;
    }

    /** `estimate_motion`: both frames must be set (`unwrap`); they are copied into
        the owned estimator, whose flow of them is returned. */
    method EstimateMotion() returns (flow: Flow)
      requires Valid() && frame1.Some?
      requires FlowFits(frame1.value, frame2.value, bma.blockWidth, bma.searchRadius, bma.useMovementMap)
      modifies bma
      ensures Valid() && bma.frame1 == frame1 && bma.frame2 == frame2
      ensures bma.verbose == old(bma.verbose) && bma.blockWidth == old(bma.blockWidth)
      ensures bma.searchRadius == old(bma.searchRadius) && bma.useMovementMap == old(bma.useMovementMap)
      ensures bma.minPixDiff == old(bma.minPixDiff) && bma.minChangePercentage == old(bma.minChangePercentage)
      ensures flow == StripErrors(ErrorFlow(frame1.value, frame2.value, bma.blockWidth, bma.searchRadius,
                                            bma.useMovementMap, bma.minPixDiff, bma.minChangePercentage))
    {
      match algorithm
      case BlockMatching =>
        bma.SetFrames(frame1.value, frame2.value);
        flow := bma.CalcFlow();
    }
  }
}
