/** The matrix of `src/matrix.rs`: a grid of reals built zero-filled and then
    read and written cell by cell. */
module Matrices {
  import opened Wrappers
  import Grid

  datatype Matrix = Matrix(elements: seq<seq<real>>)

  datatype MatrixError = InvalidDimensions

  /** `m` has `rows` rows of `cols` entries. */
  predicate HasShape(m: Matrix, rows: nat, cols: nat) {
    Grid.IsRect(m.elements, rows, cols)
  }

  /** `matrix::new`: rejects a dimension below one, otherwise a zero matrix
      of the requested shape. */
  function New(rows: nat, cols: nat): (r: Result<Matrix, MatrixError>)
    ensures r.Failure? <==> (rows < 1 || cols < 1)
    ensures r.Failure? ==> r.error == InvalidDimensions
    ensures r.Success? ==> HasShape(r.value, rows, cols)
    ensures r.Success? ==> forall i, j :: 0 <= i < rows && 0 <= j < cols ==> Get(r.value, i, j) == 0.0
  {
    if cols < 1 || rows < 1 then Failure(InvalidDimensions)
    else Success(Matrix(Grid.Fill(rows, cols, 0.0)))
  }

  /** `Index<(usize, usize)>`: defined exactly where the nested `Vec`s are. */
  predicate InBounds(m: Matrix, i: nat, j: nat) {
    i < |m.elements| && j < |m.elements[i]|
  }

  /** `m[(i, j)]`: on a rows by cols matrix only below both dimensions. */
  function Get(m: Matrix, i: nat, j: nat): real
    requires InBounds(m, i, j)
    ensures forall rows: nat, cols: nat :: HasShape(m, rows, cols) ==> i < rows && j < cols
  {
    m.elements[i][j]
  }

  /** `m[(i, j)] = v` through `IndexMut`. */
  function Set(m: Matrix, i: nat, j: nat, v: real): (r: Matrix)
    requires InBounds(m, i, j)
    ensures Grid.SameShape(m.elements, r.elements)
    ensures forall rows: nat, cols: nat :: HasShape(m, rows, cols) ==> HasShape(r, rows, cols)
  {
    Matrix(Grid.Update(m.elements, i, j, v))
  }

  /** On a matrix of a known shape, an access is in bounds exactly when both
      indices are below the dimensions. */
  lemma InBoundsIffBelowShape(m: Matrix, rows: nat, cols: nat, i: nat, j: nat)
    requires HasShape(m, rows, cols)
    ensures InBounds(m, i, j) <==> (i < rows && j < cols)
  {
  }

  /** Reading back a written cell returns the written value. */
  lemma GetAfterSet(m: Matrix, i: nat, j: nat, v: real)
    requires InBounds(m, i, j)
    ensures InBounds(Set(m, i, j, v), i, j)
    ensures Get(Set(m, i, j, v), i, j) == v
  {
  }

  /** Writing a cell leaves every other cell as it was. */
  lemma GetAfterSetOther(m: Matrix, i: nat, j: nat, v: real, a: nat, b: nat)
    requires InBounds(m, i, j) && InBounds(m, a, b)
    requires a != i || b != j
    ensures InBounds(Set(m, i, j, v), a, b)
    ensures Get(Set(m, i, j, v), a, b) == Get(m, a, b)
  {
  }

  /** Writing back the value a cell already holds changes nothing. */
  lemma SetOwnValue(m: Matrix, i: nat, j: nat)
    requires InBounds(m, i, j)
    ensures Set(m, i, j, Get(m, i, j)) == m
  {
    var row := m.elements[i];
    assert row[j := row[j]] == row;
    assert m.elements[i := row] == m.elements;
  }

  /** A second write to the same cell overrides the first. */
  lemma SetTwice(m: Matrix, i: nat, j: nat, u: real, v: real)
    requires InBounds(m, i, j)
    ensures InBounds(Set(m, i, j, u), i, j)
    ensures Set(Set(m, i, j, u), i, j, v) == Set(m, i, j, v)
  {
    var row := m.elements[i];
    assert row[j := u][j := v] == row[j := v];
  }

  /** Writes to different cells can be done in either order. */
  lemma SetCommutes(m: Matrix, i: nat, j: nat, u: real, a: nat, b: nat, v: real)
    requires InBounds(m, i, j) && InBounds(m, a, b)
    requires a != i || b != j
    ensures InBounds(Set(m, i, j, u), a, b) && InBounds(Set(m, a, b, v), i, j)
    ensures Set(Set(m, i, j, u), a, b, v) == Set(Set(m, a, b, v), i, j, u)
  {
    var l := Set(Set(m, i, j, u), a, b, v).elements;
    var r := Set(Set(m, a, b, v), i, j, u).elements;
    assert |l| == |r|;
    forall x | 0 <= x < |l|
      ensures l[x] == r[x]
    {
      assert |l[x]| == |r[x]|;
    }
  }

  /** The `new_matrix` test: a fresh 4 by 4 matrix with `(0, 0)` set to 1 reads 1 there. */
  lemma NewMatrixExample()
    ensures New(4, 4).Success?
    ensures InBounds(New(4, 4).value, 0, 0)
    ensures Get(Set(New(4, 4).value, 0, 0, 1.0), 0, 0) == 1.0
  {
  }
}
