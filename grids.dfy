/** Rectangular grids of values, the shape of numpy arrays and canvas pixel
    buffers. A grid is indexed row first, `g[y][x]`, like `array[y, x]`. */
module Grids {

  type Grid<T> = seq<seq<T>>

  /** `g` has `h` rows of `w` entries each (numpy shape `(h, w)`). */
  ghost predicate IsMatrix<T>(g: Grid<T>, h: nat, w: nat) {
    |g| == h && forall y :: 0 <= y < h ==> |g[y]| == w
  }

  /** The contents of a two-dimensional array as a grid value. */
  function ToGrid<T>(a: array2<T>): (g: Grid<T>)
    reads a
    ensures IsMatrix(g, a.Length0, a.Length1)
    ensures forall y, x :: 0 <= y < a.Length0 && 0 <= x < a.Length1 ==> g[y][x] == a[y, x]
  {
    seq(a.Length0, y requires 0 <= y < a.Length0 reads a =>
      seq(a.Length1, x requires 0 <= x < a.Length1 reads a => a[y, x]))
  }

  /** Two matrices of the same shape that agree everywhere are equal. */
  lemma {:induction false} MatrixExt<T>(g: Grid<T>, k: Grid<T>, h: nat, w: nat)
    requires IsMatrix(g, h, w) && IsMatrix(k, h, w)
    requires forall y, x :: 0 <= y < h && 0 <= x < w ==> g[y][x] == k[y][x]
    ensures g == k
  {
    forall y | 0 <= y < h
      ensures g[y] == k[y]
    {
      assert forall x :: 0 <= x < w ==> g[y][x] == k[y][x];
    }
  }
}
