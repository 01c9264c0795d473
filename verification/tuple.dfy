/** Points and vectors as one homogeneous 4-tuple, told apart only by `w`:
    `build_point` sets `w = 1`, `build_vector` sets `w = 0`, and the operators
    act on all four components, so the tag follows the arithmetic. */
module Tuples {
  import opened Wrappers

  datatype Tuple = Tuple(x: real, y: real, z: real, w: real)

  datatype TupleError = DotOfPoint

  /** `is_point`: the tag is one, so a point is never also a vector. */
  predicate IsPoint(t: Tuple)
    ensures IsPoint(t) ==> !IsVector(t)
  {
    t.w == 1.0
  }

  /** The tag of a vector is zero. */
  predicate IsVector(t: Tuple) {
    t.w == 0.0
  }

  /** `build_point(x, y, z)`: a point holding the coordinates as given. */
  function BuildPoint(x: real, y: real, z: real): (p: Tuple)
    ensures IsPoint(p) && !IsVector(p)
    ensures p.x == x && p.y == y && p.z == z
  {
    Tuple(x, y, z, 1.0)
  }

  /** `build_vector(x, y, z)`: a vector, never a point, holding the
      coordinates as given. */
  function BuildVector(x: real, y: real, z: real): (v: Tuple)
    ensures IsVector(v) && !IsPoint(v)
    ensures v.x == x && v.y == y && v.z == z
  {
    Tuple(x, y, z, 0.0)
  }

  /** `a + b`: point plus vector (either order) is a point, vector plus vector
      a vector; point plus point is neither. */
  function Add(a: Tuple, b: Tuple): (r: Tuple)
    ensures IsPoint(a) && IsVector(b) ==> IsPoint(r)
    ensures IsVector(a) && IsPoint(b) ==> IsPoint(r)
    ensures IsVector(a) && IsVector(b) ==> IsVector(r)
    ensures IsPoint(a) && IsPoint(b) ==> !IsPoint(r) && !IsVector(r)
  {
    Tuple(a.x + b.x, a.y + b.y, a.z + b.z, a.w + b.w)
  }

  /** `a - b`: point minus point is a vector, point minus vector a point,
      vector minus vector a vector. */
  function Sub(a: Tuple, b: Tuple): (r: Tuple)
    ensures IsPoint(a) && IsPoint(b) ==> IsVector(r)
    ensures IsPoint(a) && IsVector(b) ==> IsPoint(r)
    ensures IsVector(a) && IsVector(b) ==> IsVector(r)
  {
    Tuple(a.x - b.x, a.y - b.y, a.z - b.z, a.w - b.w)
  }

  /** Unary `-t`: a vector stays a vector; a point does not stay a point. */
  function Neg(t: Tuple): (r: Tuple)
    ensures IsVector(t) <==> IsVector(r)
    ensures IsPoint(t) ==> !IsPoint(r)
  {
    Tuple(-t.x, -t.y, -t.z, -t.w)
  }

  /** `t * k`: a scaled vector is a vector. */
  function Scale(t: Tuple, k: real): (r: Tuple)
    ensures IsVector(t) ==> IsVector(r)
  {
    Tuple(t.x * k, t.y * k, t.z * k, t.w * k)
  }

  /** `t / k` for a non-zero `k`: a divided vector is a vector. */
  function Div(t: Tuple, k: real): (r: Tuple)
    requires k != 0.0
    ensures IsVector(t) ==> IsVector(r)
  {
    Tuple(t.x / k, t.y / k, t.z / k, t.w / k)
  }

  /** `a.dot(b)`: fails exactly when the receiver is a point; for a vector
      receiver it is the sum of the products of the x, y and z components. */
  function Dot(a: Tuple, b: Tuple): (r: Result<real, TupleError>)
    ensures r.Failure? <==> IsPoint(a)
    ensures r.Failure? ==> r.error == DotOfPoint
    ensures IsVector(a) ==> r == Success(a.x * b.x + a.y * b.y + a.z * b.z)
  {
    if IsPoint(a) then Failure(DotOfPoint)
    else Success(a.x * b.x + a.y * b.y + a.z * b.z + a.w * b.w)
  }

  /** The square of the Euclidean length of the x, y, z part. */
  function SquaredMagnitude(t: Tuple): (m: real)
    ensures m >= 0.0
  {
    t.x * t.x + t.y * t.y + t.z * t.z
  }

  const Zero := BuildVector(0.0, 0.0, 0.0)

  /** Adding then subtracting the same tuple returns the original. */
  lemma AddThenSub(a: Tuple, b: Tuple)
    ensures Sub(Add(a, b), b) == a
  {
  }

  /** Subtracting then adding the same tuple returns the original. */
  lemma SubThenAdd(a: Tuple, b: Tuple)
    ensures Add(Sub(a, b), b) == a
  {
  }

  /** Addition is commutative. */
  lemma AddCommutes(a: Tuple, b: Tuple)
    ensures Add(a, b) == Add(b, a)
  {
  }

  /** `a - b` and `b - a` are negations of each other, component by component. */
  lemma SubAntisymmetric(a: Tuple, b: Tuple)
    ensures Sub(a, b) == Neg(Sub(b, a))
  {
  }

  /** The zero vector minus `v` is the negation of `v`. */
  lemma ZeroMinus(v: Tuple)
    requires IsVector(v)
    ensures Sub(Zero, v) == Neg(v)
    ensures IsVector(Sub(Zero, v))
  {
  }

  /** Negation undoes itself. */
  lemma NegNeg(t: Tuple)
    ensures Neg(Neg(t)) == t
  {
  }

  /** Dividing by `k` undoes scaling by `k`. */
  lemma DivAfterScale(t: Tuple, k: real)
    requires k != 0.0
    ensures Div(Scale(t, k), k) == t
  {
  }

  /** Scaling by `k` undoes dividing by `k`. */
  lemma ScaleAfterDiv(t: Tuple, k: real)
    requires k != 0.0
    ensures Scale(Div(t, k), k) == t
  {
  }

  /** Dividing by `k` is scaling by `1 / k`. */
  lemma DivIsScaleByInverse(t: Tuple, k: real)
    requires k != 0.0
    ensures Div(t, k) == Scale(t, 1.0 / k)
  {
  }

  /** The dot product of two vectors does not depend on their order. */
  lemma DotSymmetric(a: Tuple, b: Tuple)
    requires IsVector(a) && IsVector(b)
    ensures Dot(a, b) == Dot(b, a)
  {
  }

  /** A vector dotted with itself is its squared magnitude. */
  lemma DotSelfIsSquaredMagnitude(v: Tuple)
    requires IsVector(v)
    ensures Dot(v, v) == Success(SquaredMagnitude(v))
  {
  }

  /** The dot product is linear in its second argument. */
  lemma DotLinear(a: Tuple, b: Tuple, c: Tuple, k: real)
    requires IsVector(a)
    ensures Dot(a, Add(b, Scale(c, k))).value == Dot(a, b).value + k * Dot(a, c).value
  {
  }

  // The tests of the vector module, with approximate equality read as equality.

  lemma BuiltTuplesExample()
    ensures IsPoint(BuildPoint(0.0, 0.0, 0.0))
    ensures !IsPoint(BuildVector(0.0, 0.0, 0.0))
    ensures BuildVector(-1.7, 3.5, 0.2) == Tuple(-1.7, 3.5, 0.2, 0.0)
  {
  }

  lemma AdditionExample()
    ensures Add(BuildPoint(1.0, 1.0, 1.0), BuildVector(1.0, 1.0, 1.0)) == BuildPoint(2.0, 2.0, 2.0)
    ensures Add(BuildVector(3.0, 2.0, 1.0), BuildVector(1.0, 2.0, 3.0)) == BuildVector(4.0, 4.0, 4.0)
  {
  }

  lemma SubtractionExample()
    ensures Sub(BuildPoint(1.0, 2.9, 3.4), BuildPoint(3.4, 6.3, 2.7)) == BuildVector(-2.4, -3.4, 0.7)
    ensures Sub(BuildPoint(3.4, 6.3, 2.7), BuildPoint(1.0, 2.9, 3.4)) == BuildVector(2.4, 3.4, -0.7)
    ensures Sub(Zero, BuildVector(3.0, 4.0, 5.0)) == BuildVector(-3.0, -4.0, -5.0)
    ensures Neg(BuildVector(1.0, 2.0, 3.0)) == BuildVector(-1.0, -2.0, -3.0)
  {
  }

  lemma ScalingExample()
    ensures Scale(BuildVector(1.0, 2.0, 3.0), 3.0) == BuildVector(3.0, 6.0, 9.0)
    ensures Scale(BuildVector(2.0, 1.0, 3.5), 0.5) == BuildVector(1.0, 0.5, 1.75)
  {
  }

  lemma DivisionExample()
    ensures Div(BuildVector(2.0, 1.0, 3.5), 2.0) == BuildVector(1.0, 0.5, 1.75)
    ensures Div(BuildVector(2.0, 1.0, 3.5), 0.5) == BuildVector(4.0, 2.0, 7.0)
  {
    assert 2.0 / 2.0 == 1.0 && 1.0 / 2.0 == 0.5 && 3.5 / 2.0 == 1.75 && 0.0 / 2.0 == 0.0;
    assert 2.0 / 0.5 == 4.0 && 1.0 / 0.5 == 2.0 && 3.5 / 0.5 == 7.0 && 0.0 / 0.5 == 0.0;
  }

  lemma UnitMagnitudeExample()
    ensures SquaredMagnitude(BuildVector(0.0, 0.0, 1.0)) == 1.0
    ensures SquaredMagnitude(BuildVector(0.0, 1.0, 0.0)) == 1.0
    ensures SquaredMagnitude(BuildVector(1.0, 0.0, 0.0)) == 1.0
  {
  }

  lemma MagnitudeExample()
    ensures SquaredMagnitude(BuildVector(3.0, 4.0, 5.0)) == 50.0
    ensures SquaredMagnitude(BuildVector(-3.0, -4.0, -5.0)) == 50.0
  {
  }

  lemma DotExample()
    ensures Dot(BuildVector(1.0, 2.0, 3.0), BuildVector(2.0, 3.0, 4.0)) == Success(20.0)
    ensures Dot(BuildPoint(1.0, 2.0, 3.0), BuildPoint(1.0, 2.0, 3.0)).Failure?
  {
  }
}
