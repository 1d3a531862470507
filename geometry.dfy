/** Exact-real vectors and affine maps standing in for the `mathutils`
    vectors and matrices the add-on works with. Floating-point rounding is
    not modelled: coordinates are `real`. */
module Geometry {

  /** A 3D position or direction (`mathutils.Vector` of size 3). */
  datatype Vec3 = Vec3(x: real, y: real, z: real)

  /** A 2D texture coordinate (`mathutils.Vector` of size 2). */
  datatype Vec2 = Vec2(x: real, y: real)

  /** Component `i` of `v`, as `v[i]` in the source. */
  function Get(v: Vec3, i: nat): real
    requires i < 3
  {
    if i == 0 then v.x else if i == 1 then v.y else v.z
  }

  function Add(a: Vec3, b: Vec3): Vec3 { Vec3(a.x + b.x, a.y + b.y, a.z + b.z) }

  function Sub(a: Vec3, b: Vec3): Vec3 { Vec3(a.x - b.x, a.y - b.y, a.z - b.z) }

  function Scale(k: real, v: Vec3): Vec3 { Vec3(k * v.x, k * v.y, k * v.z) }

  function Dot(a: Vec3, b: Vec3): real { a.x * b.x + a.y * b.y + a.z * b.z }

  function Sub2(a: Vec2, b: Vec2): Vec2 { Vec2(a.x - b.x, a.y - b.y) }

  function Scale2(k: real, v: Vec2): Vec2 { Vec2(k * v.x, k * v.y) }

  function Abs(r: real): real { if r < 0.0 then -r else r }

  /** A 3x3 matrix, given by its rows. */
  datatype Mat3 = Mat3(row0: Vec3, row1: Vec3, row2: Vec3)

  function MulVec(m: Mat3, v: Vec3): Vec3
  {
    Vec3(Dot(m.row0, v), Dot(m.row1, v), Dot(m.row2, v))
  }

  /** An object's world matrix: a 4x4 matrix whose last row is (0, 0, 0, 1),
      so `matrix_world @ p` for a 3-vector `p` is `linear * p + translation`. */
  datatype Affine = Affine(linear: Mat3, translation: Vec3)

  function Apply(a: Affine, p: Vec3): Vec3
  {
    Add(MulVec(a.linear, p), a.translation)
  }

  /** Every component of `v` is a whole number. */
  predicate IsIntegral(v: Vec3)
  {
    v.x == v.x.Floor as real && v.y == v.y.Floor as real && v.z == v.z.Floor as real
  }

  /** Component-wise `math.floor`, kept as a vector of reals: the greatest
      whole-number vector below or at `v`. */
  function FloorVec(v: Vec3): (f: Vec3)
    ensures IsIntegral(f)
    ensures forall i :: 0 <= i < 3 ==> Get(f, i) <= Get(v, i) < Get(f, i) + 1.0
  {
    Vec3(v.x.Floor as real, v.y.Floor as real, v.z.Floor as real)
  }

  /** The fractional part of every component. */
  function Frac(v: Vec3): Vec3 { Sub(v, FloorVec(v)) }

  function Sum(ps: seq<Vec3>): Vec3
  {
    if ps == [] then Vec3(0.0, 0.0, 0.0)
    else Add(Sum(ps[..|ps| - 1]), ps[|ps| - 1])
  }

  function Sum2(uvs: seq<Vec2>): Vec2
  {
    if uvs == [] then Vec2(0.0, 0.0)
    else var s := Sum2(uvs[..|uvs| - 1]); var u := uvs[|uvs| - 1]; Vec2(s.x + u.x, s.y + u.y)
  }

  /** The arithmetic mean of a non-empty list of positions (what
      `BMFace.calc_center_median` returns). */
  function Mean(ps: seq<Vec3>): (m: Vec3)
    requires |ps| > 0
    ensures Scale(|ps| as real, m) == Sum(ps)
  {
    var n, s := |ps| as real, Sum(ps);
    TimesInverse(n, s.x);
    TimesInverse(n, s.y);
    TimesInverse(n, s.z);
    Scale(1.0 / n, s)
  }

  lemma TimesInverse(n: real, a: real)
    requires n > 0.0
    ensures n * ((1.0 / n) * a) == a
  {
    assert n * ((1.0 / n) * a) == (n * (1.0 / n)) * a;
  }

  function Mean2(uvs: seq<Vec2>): Vec2
    requires |uvs| > 0
  {
    Scale2(1.0 / |uvs| as real, Sum2(uvs))
  }

  /** Every position moved by `t`. */
  function Translate(ps: seq<Vec3>, t: Vec3): (qs: seq<Vec3>)
    ensures |qs| == |ps|
    ensures forall i :: 0 <= i < |ps| ==> qs[i] == Add(ps[i], t)
  {
    seq(|ps|, i requires 0 <= i < |ps| => Add(ps[i], t))
  }

  /** The fractional part lies in the unit cube [0, 1)^3. */
  lemma FracInUnitCube(v: Vec3)
    ensures forall i :: 0 <= i < 3 ==> 0.0 <= Get(Frac(v), i) < 1.0
  {
  }

  /** Moving a point by a whole-number vector moves its floor by the same vector. */
  lemma FloorVecTranslate(v: Vec3, t: Vec3)
    requires IsIntegral(t)
    ensures FloorVec(Add(v, t)) == Add(FloorVec(v), t)
  {
    FloorAddWhole(v.x, t.x.Floor);
    FloorAddWhole(v.y, t.y.Floor);
    FloorAddWhole(v.z, t.z.Floor);
  }

  lemma FloorAddWhole(r: real, k: int)
    ensures (r + k as real).Floor == r.Floor + k
  {
    var f := r.Floor;
    assert f as real <= r < f as real + 1.0;
    assert (f + k) as real <= r + k as real < (f + k) as real + 1.0;
  }

  /** The translation of an affine map cancels in a difference of images:
      only the linear part acts on differences. */
  lemma ApplySub(a: Affine, p: Vec3, q: Vec3)
    ensures Sub(Apply(a, p), Apply(a, q)) == MulVec(a.linear, Sub(p, q))
  {
  }

  lemma {:induction false} SumTranslate(ps: seq<Vec3>, t: Vec3)
    ensures Sum(Translate(ps, t)) == Add(Sum(ps), Scale(|ps| as real, t))
  {
    if ps != [] {
      var n := |ps| - 1;
      var qs := Translate(ps, t);
      assert qs[..n] == Translate(ps[..n], t);
      SumTranslate(ps[..n], t);
      var a, b := Sum(ps[..n]), Sum(qs[..n]);
      assert Sum(qs) == Add(b, qs[n]);
      assert Sum(ps) == Add(a, ps[n]);
      var m := n as real;
      assert b == Add(a, Scale(m, t));
      assert qs[n] == Add(ps[n], t);
      ScaleSucc(m, t);
    }
  }

  lemma ScaleSucc(m: real, t: Vec3)
    ensures Scale(m + 1.0, t) == Add(Scale(m, t), t)
  {
    assert (m + 1.0) * t.x == m * t.x + t.x;
    assert (m + 1.0) * t.y == m * t.y + t.y;
    assert (m + 1.0) * t.z == m * t.z + t.z;
  }

  /** Translating every position translates the mean by the same vector. */
  lemma MeanTranslate(ps: seq<Vec3>, t: Vec3)
    requires |ps| > 0
    ensures Mean(Translate(ps, t)) == Add(Mean(ps), t)
  {
    SumTranslate(ps, t);
    var n := |ps| as real;
    var s := Sum(ps);
    assert (1.0 / n) * (s.x + n * t.x) == (1.0 / n) * s.x + t.x;
    assert (1.0 / n) * (s.y + n * t.y) == (1.0 / n) * s.y + t.y;
    assert (1.0 / n) * (s.z + n * t.z) == (1.0 / n) * s.z + t.z;
  }

  /** Dividing `s - n * f` by `n` gives `s / n - f`. */
  lemma ScaleOffset(n: real, s: Vec3, f: Vec3)
    requires n > 0.0
    ensures Scale(1.0 / n, Sub(s, Scale(n, f))) == Sub(Scale(1.0 / n, s), f)
  {
    var k := 1.0 / n;
    assert k * n == 1.0;
    InverseTimesDifference(k, n, s.x, f.x);
    InverseTimesDifference(k, n, s.y, f.y);
    InverseTimesDifference(k, n, s.z, f.z);
  }

  lemma InverseTimesDifference(k: real, n: real, a: real, b: real)
    requires k * n == 1.0
    ensures k * (a - n * b) == k * a - b
  {
    assert k * (a - n * b) == k * a - (k * n) * b;
  }
}
