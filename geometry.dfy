/**
 * Vectors of the simulation space (Unity's `Vector3`) over the reals, and the
 * properties the model relies on of the engine's `Vector3.magnitude`.
 *
 * The magnitude needs a square root, which is not a Dafny operation; the model
 * takes it as a function value `norm` and only assumes what characterises the
 * Euclidean length: it is never negative and its square is the sum of the
 * squared components (`IsNorm`).
 */
module Geometry {

  datatype Vec3 = Vec3(x: real, y: real, z: real)

  /** `Vector3.zero` */
  const Zero := Vec3(0.0, 0.0, 0.0)

  /** `Vector3.one * s`: the uniform scale vector an arrow is given. */
  function Uniform(s: real): Vec3
  {
    Vec3(s, s, s)
  }

  /** `a * a`; kept behind a name so that the solver treats squares as atoms. */
  function Sq(a: real): real
  {
    a * a
  }

  /** The squared Euclidean length, `x*x + y*y + z*z`. */
  function SqNorm(v: Vec3): real
  {
    Sq(v.x) + Sq(v.y) + Sq(v.z)
  }

  /** `norm` behaves as `Vector3.magnitude`: the non-negative square root of `SqNorm`. */
  ghost predicate IsNorm(norm: Vec3 -> real)
  {
    && (forall v :: 0.0 <= norm(v))
    && (forall v {:trigger Sq(norm(v))} :: Sq(norm(v)) == SqNorm(v))
  }

  /** Squaring is strictly increasing on the non-negative reals. */
  lemma SquareStrictMono(a: real, b: real)
    requires 0.0 <= a
    ensures a < b ==> Sq(a) < Sq(b)
  {
    if a < b {
      var aa, ab, bb := a * a, a * b, b * b;
      assert aa <= ab;
      assert ab < bb;
    }
  }

  /** A square is zero on zero and positive elsewhere. */
  lemma SquareSign(a: real)
    ensures a == 0.0 ==> Sq(a) == 0.0
    ensures a != 0.0 ==> 0.0 < Sq(a)
  {
    assert Sq(0.0) == 0.0;
    assert Sq(-a) == Sq(a);
    SquareStrictMono(0.0, a);
    SquareStrictMono(0.0, -a);
  }

  /** The magnitude is zero exactly on the zero vector. */
  lemma NormZeroIff(norm: Vec3 -> real, v: Vec3)
    requires IsNorm(norm)
    ensures norm(v) == 0.0 <==> v == Zero
  {
    assert Sq(norm(v)) == Sq(v.x) + Sq(v.y) + Sq(v.z);
    SquareSign(norm(v));
    SquareSign(v.x);
    SquareSign(v.y);
    SquareSign(v.z);
  }

  /** The force `(3, 4, 0)` has magnitude `5`. */
  lemma NormThreeFourFive(norm: Vec3 -> real)
    requires IsNorm(norm)
    ensures norm(Vec3(3.0, 4.0, 0.0)) == 5.0
  {
    var n := norm(Vec3(3.0, 4.0, 0.0));
    assert Sq(n) == Sq(3.0) + Sq(4.0) + Sq(0.0) == Sq(5.0);
    SquareStrictMono(n, 5.0);
    SquareStrictMono(5.0, n);
  }

  /**
   * The magnitude of a uniform scale vector `Vector3.one * s` is `sqrt(3) * |s|`:
   * its square is three times the square of `s`, and for `s > 0` it is strictly
   * larger than `s`.
   */
  lemma NormOfUniform(norm: Vec3 -> real, s: real)
    requires IsNorm(norm)
    ensures Sq(norm(Uniform(s))) == 3.0 * Sq(s)
    ensures 0.0 < s ==> s < norm(Uniform(s))
  {
    var n := norm(Uniform(s));
    assert Sq(n) == Sq(s) + Sq(s) + Sq(s);
    SquareSign(s);
    SquareStrictMono(n, s);
  }
}
