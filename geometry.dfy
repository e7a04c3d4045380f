/**
 * Three-dimensional positions and the Euclidean norm. Dafny has no square
 * root, so the norm is a function value the caller supplies; `IsNorm` states
 * what makes it the Euclidean norm.
 */
module Geometry {

  datatype Vec3 = Vec3(x: real, y: real, z: real)

  function Sub(a: Vec3, b: Vec3): Vec3 {
    Vec3(a.x - b.x, a.y - b.y, a.z - b.z)
  }

  function Dot(a: Vec3, b: Vec3): real {
    a.x * b.x + a.y * b.y + a.z * b.z
  }

  /** `norm` is the Euclidean norm: the non-negative square root of `Dot(v, v)`. */
  ghost predicate IsNorm(norm: Vec3 -> real) {
    forall v :: 0.0 <= norm(v) && norm(v) * norm(v) == Dot(v, v)
  }

  /** A three-element coordinate tuple as a vector (`np.array(position)`). */
  function FromTuple(p: seq<real>): (v: Vec3)
    requires |p| == 3
    ensures [v.x, v.y, v.z] == p
  {
    Vec3(p[0], p[1], p[2])
  }

  /** A non-negative root compares with a non-negative bound as its square does. */
  lemma RootCompare(r: real, bound: real)
    requires 0.0 <= r && 0.0 <= bound
    ensures r <= bound <==> r * r <= bound * bound
  {
    var gap := r - bound;
    assert r * r == bound * bound + gap * (r + bound);
    if gap > 0.0 {
      MulSign(gap, r + bound);
    } else if gap < 0.0 {
      MulSign(-gap, r + bound);
    }
  }

  /** The distance between two points is within `bound` exactly when its square is. */
  lemma NormWithin(norm: Vec3 -> real, v: Vec3, bound: real)
    requires IsNorm(norm) && 0.0 <= bound
    ensures norm(v) <= bound <==> Dot(v, v) <= bound * bound
  {
    RootCompare(norm(v), bound);
  }

  lemma MulSign(a: real, b: real)
    requires 0.0 < a && 0.0 <= b
    ensures 0.0 <= a * b
    ensures 0.0 < b ==> 0.0 < a * b
  {
  }
}
