/** Images as the pixel scripts see them after `np.array(img)` on an RGBA
    image: a grid of rows of four-channel pixels. */
module Raster {

  /** An RGBA pixel; each channel is a byte in the source. */
  datatype Pixel = Pixel(r: int, g: int, b: int, a: int)

  type Image = seq<seq<Pixel>>

  /** A boolean mask over an image's pixels. */
  type Mask = seq<seq<bool>>

  /** A rectangular grid of `h` rows of `w` cells, as every numpy array is. */
  predicate IsGrid<T>(g: seq<seq<T>>, h: nat, w: nat) {
    |g| == h && forall i :: 0 <= i < h ==> |g[i]| == w
  }

  /** The width of a grid: the length of its first row, 0 when it has none. */
  function Width<T>(g: seq<seq<T>>): nat {
    if |g| == 0 then 0 else |g[0]|
  }

  /** Two grids of the same shape. */
  predicate SameShape<S, T>(a: seq<seq<S>>, b: seq<seq<T>>) {
    |a| == |b| && forall i :: 0 <= i < |a| ==> |a[i]| == |b[i]|
  }

  /** Two pixels with the same colour channels. */
  predicate SameRgb(p: Pixel, q: Pixel) {
    p.r == q.r && p.g == q.g && p.b == q.b
  }
}
