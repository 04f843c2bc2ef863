/**
  Grayscale conversion (vfi/src/estimator/combinator/convert_to_grayscale.rs):
  each channel is divided by three with u8 division and the three thirds are
  added, and the brightness goes to all three channels, in place.
 */
module Grayscale {
  import opened Raster

  /** `pixel_to_grayscale`: a gray pixel whose brightness is the channel sum
      divided by three, rounded down by up to two (each third drops its own
      remainder); the sum of thirds never exceeds 255, so the u8 addition does
      not overflow. */
  function PixelToGrayscale(p: Rgb): (g: Rgb)
    ensures g.c0 == g.c1 == g.c2
    ensures 3 * g.c0 <= p.c0 + p.c1 + p.c2 <= 3 * g.c0 + 6
  {
    var br := p.c0 / 3 + p.c1 / 3 + p.c2 / 3;
    Rgb(br, br, br)
  }

  /** A gray pixel (v, v, v) loses the remainder of v by three. */
  lemma GrayPixelLosesRemainder(v: u8)
    ensures PixelToGrayscale(Rgb(v, v, v)) == Rgb(v - v % 3, v - v % 3, v - v % 3)
  {
  }

  /** The frame every pixel of which is converted. */
  function Grayscaled(f: Frame): (g: Frame)
    requires f.Valid()
    ensures g.Valid() && g.width == f.width && g.height == f.height
    ensures forall x, y | 0 <= x < f.width && 0 <= y < f.height :: g.At(x, y) == PixelToGrayscale(f.At(x, y))
  {
    Frame(f.width, f.height, seq(f.width, x requires 0 <= x < f.width =>
      seq(f.height, y requires 0 <= y < f.height => PixelToGrayscale(f.At(x, y)))))
  }

  /** `to_grayscale`: the buffer keeps its dimensions and every pixel becomes the
      conversion of its own original value. */
  method ToGrayscale(img: RgbImage, ghost f: Frame)
    requires Holds(img, f)
    modifies img
    ensures Holds(img, Grayscaled(f))
  {
    var width, height := img.Length0, img.Length1;
    var i := 0;
    while i < height
      invariant 0 <= i <= height
      invariant forall x, y | 0 <= x < width && 0 <= y < height ::
        img[x, y] == if y < i then PixelToGrayscale(f.At(x, y)) else f.At(x, y)
    {
      var j := 0;
      while j < width
        invariant 0 <= j <= width
        invariant forall x, y | 0 <= x < width && 0 <= y < height ::
          img[x, y] == if y < i || (y == i && x < j) then PixelToGrayscale(f.At(x, y)) else f.At(x, y)
      {
        img[j, i] := PixelToGrayscale(img[j, i]);
        j := j + 1;
      }
      i := i + 1;
    }
  }
}
