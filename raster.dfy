/**
  Machine integers, RGB pixels, image buffers and flow grids shared by the
  whole model (the role the `image` crate and Rust's primitive types play in
  the repository).
 */
module Raster {

  type u8 = x: int | 0 <= x < 0x100
  type u16 = x: int | 0 <= x < 0x1_0000
  type u32 = x: int | 0 <= x < 0x1_0000_0000
  type i16 = x: int | -0x8000 <= x < 0x8000
  type i32 = x: int | -0x8000_0000 <= x < 0x8000_0000

  const U32_MAX: u32 := 0xFFFF_FFFF

  /** The two's-complement reinterpretation `v as u32` of a signed value. */
  function WrapU32(v: int): (w: u32)
    ensures 0 <= v < 0x1_0000_0000 ==> w == v
    ensures -0x1_0000_0000 <= v < 0 ==> w == v + 0x1_0000_0000
  {
    v % 0x1_0000_0000
  }

  /** Rust's `/` on signed integers: the quotient is truncated toward zero. */
  function TruncDiv(a: int, b: int): (q: int)
    requires b > 0
    ensures 0 <= a ==> 0 <= q * b <= a < q * b + b
    ensures a < 0 ==> q * b - b < a <= q * b <= 0
  {
    if a >= 0 then DivBounds(a, b); a / b
    else DivBounds(-a, b); -((-a) / b)
  }

  /** One more multiple: (a + 1) n = a n + n. */
  lemma MulSucc(a: int, n: int)
    ensures (a + 1) * n == a * n + n
  {
  }

  /** Euclidean division of a natural number: n lies in [q * b, q * b + b). */
  lemma DivBounds(n: nat, b: int)
    requires b > 0
    ensures 0 <= (n / b) * b <= n < (n / b) * b + b
  {
    var q, r := n / b, n % b;
    assert n == q * b + r && 0 <= r < b;
  }

  /** `Rgb<u8>`: channels 0, 1 and 2. */
  datatype Rgb = Rgb(c0: u8, c1: u8, c2: u8)

  const Black := Rgb(0, 0, 0)
  const Green := Rgb(0, 255, 0)
  const Blue := Rgb(0, 0, 255)
  const Red := Rgb(255, 0, 0)

  /** An `RgbImage` buffer that is updated in place: `img[x, y]` is column x of row y. */
  type RgbImage = array2<Rgb>

  /** The value of an image: `px[x][y]` is the pixel in column x of row y. */
  datatype Frame = Frame(width: nat, height: nat, px: seq<seq<Rgb>>)
  {
    ghost predicate Valid()
    {
      |px| == width && forall x | 0 <= x < width :: |px[x]| == height
    }

    function At(x: nat, y: nat): Rgb
      requires Valid() && x < width && y < height
    {
      px[x][y]
    }

    /** `put_pixel(x, y, v)` on the value: pixel (x, y) becomes v, every other
        pixel and the dimensions stay. */
    function Put(x: nat, y: nat, v: Rgb): (g: Frame)
      requires Valid() && x < width && y < height
      ensures g.Valid() && g.width == width && g.height == height
      ensures forall a, b | 0 <= a < width && 0 <= b < height ::
        g.At(a, b) == if a == x && b == y then v else At(a, b)
    {
      Frame(width, height, px[x := px[x][y := v]])
    }
  }

  /** `ImageBuffer::new(width, height)`: every pixel black. */
  function Blank(width: nat, height: nat): (f: Frame)
    ensures f.Valid() && f.width == width && f.height == height
    ensures forall x, y | 0 <= x < width && 0 <= y < height :: f.At(x, y) == Black
  {
    Frame(width, height, Filled(width, height, Black))
  }

  /** The buffer a currently holds the pixels of the frame f. */
  ghost predicate Holds(a: RgbImage, f: Frame)
    reads a
  {
    f.Valid() && f.width == a.Length0 && f.height == a.Length1 &&
    forall x, y | 0 <= x < a.Length0 && 0 <= y < a.Length1 :: f.px[x][y] == a[x, y]
  }

  /** `put_pixel(x, y, v)` on a buffer holding f: it then holds `f.Put(x, y, v)`. */
  method PutPixel(a: RgbImage, ghost f: Frame, x: nat, y: nat, v: Rgb)
    requires Holds(a, f) && x < f.width && y < f.height
    modifies a
    ensures Holds(a, f.Put(x, y, v))
  {
    a[x, y] := v;
  }

  /** A motion vector `(dx, dy)` and one tagged with its match error. */
  type Vector = (i16, i16)
  type ErrorVector = (i16, i16, u32)

  /** The zero vector `(0i16, 0i16)`. */
  const Zero: Vector := (0, 0)

  /** A flow grid (`Vec<Vec<(i16, i16)>>`) and one whose cells carry their match error. */
  type Flow = seq<seq<Vector>>
  type ErrorGrid = seq<seq<ErrorVector>>

  /** A `Vec<Vec<T>>` with `rows` rows of `cols` cells each. */
  ghost predicate IsGrid<T>(g: seq<seq<T>>, rows: nat, cols: nat)
  {
    |g| == rows && forall i | 0 <= i < rows :: |g[i]| == cols
  }

  /** `vec![vec![v; cols]; rows]` */
  function Filled<T>(rows: nat, cols: nat, v: T): (g: seq<seq<T>>)
    ensures IsGrid(g, rows, cols)
    ensures forall i, j | 0 <= i < rows && 0 <= j < cols :: g[i][j] == v
  {
    seq(rows, _ => seq(cols, _ => v))
  }

  /** Two grids of the same shape with the same cells are equal. */
  lemma GridExtensionality<T>(a: seq<seq<T>>, b: seq<seq<T>>, rows: nat, cols: nat)
    requires IsGrid(a, rows, cols) && IsGrid(b, rows, cols)
    requires forall i, j | 0 <= i < rows && 0 <= j < cols :: a[i][j] == b[i][j]
    ensures a == b
  {
    forall i | 0 <= i < rows
      ensures a[i] == b[i]
    {
      assert forall j | 0 <= j < cols :: a[i][j] == b[i][j];
    }
  }

  /** `g[i][j] = v` */
  function SetCell<T>(g: seq<seq<T>>, i: nat, j: nat, v: T): (h: seq<seq<T>>)
    requires i < |g| && j < |g[i]|
    ensures |h| == |g| && forall k | 0 <= k < |g| :: |h[k]| == |g[k]|
    ensures forall k, l | 0 <= k < |g| && 0 <= l < |g[k]| ::
      h[k][l] == if k == i && l == j then v else g[k][l]
  {
    g[i := g[i][j := v]]
  }
}
