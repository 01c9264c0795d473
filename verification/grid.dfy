/** Rectangular two-dimensional grids as sequences of rows: the shape shared by
    `Vec<Vec<Pixel>>` in the canvas and `Vec<Vec<f64>>` in the matrix. */
module Grid {

  /** `g` has exactly `rows` rows of exactly `cols` cells each. */
  predicate IsRect<T>(g: seq<seq<T>>, rows: nat, cols: nat) {
    |g| == rows && forall i :: 0 <= i < rows ==> |g[i]| == cols
  }

  /** `g` and `h` have the same number of rows and each row the same length. */
  predicate SameShape<T>(g: seq<seq<T>>, h: seq<seq<T>>) {
    |g| == |h| && forall i :: 0 <= i < |g| ==> |g[i]| == |h[i]|
  }

  /** `vec![vec![v; cols]; rows]`: a `rows` by `cols` grid holding `v` everywhere. */
  function Fill<T>(rows: nat, cols: nat, v: T): (g: seq<seq<T>>)
    ensures IsRect(g, rows, cols)
    ensures forall i, j :: 0 <= i < rows && 0 <= j < cols ==> g[i][j] == v
  {
    seq(rows, _ => seq(cols, _ => v))
  }

  /** `g[i][j] = v`: the cell at `(i, j)` now holds `v`, the shape and every
      other cell are as before. */
  function Update<T>(g: seq<seq<T>>, i: nat, j: nat, v: T): (h: seq<seq<T>>)
    requires i < |g| && j < |g[i]|
    ensures SameShape(g, h)
    ensures h[i][j] == v
    ensures forall a, b :: 0 <= a < |g| && 0 <= b < |g[a]| && (a != i || b != j) ==> h[a][b] == g[a][b]
  {
    g[i := g[i][j := v]]
  }

  /** A rectangular grid stays rectangular under an update. */
  lemma UpdateKeepsRect<T>(g: seq<seq<T>>, rows: nat, cols: nat, i: nat, j: nat, v: T)
    requires IsRect(g, rows, cols)
    requires i < rows && j < cols
    ensures IsRect(Update(g, i, j, v), rows, cols)
  {
  }
}
