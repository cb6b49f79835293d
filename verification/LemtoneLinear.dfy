/**
 The closed form of the Lemtone solver, over the reals: inverse of the RGB matrix,
 the split of the whites, and the range of white levels that keeps every duty legal.
*/
module LemtoneLinear {
  import opened Numeric

  const EPS: real := 0.000001
  const TINY: real := 0.000000000001

  datatype Vec = Vec(x: real, y: real, z: real)

  function Add(u: Vec, v: Vec): Vec {
    Vec(u.x + v.x, u.y + v.y, u.z + v.z)
  }

  function Times(x: real, s: real): real {
    x * s
  }

  function Scale(s: real, v: Vec): Vec {
    Vec(Times(v.x, s), Times(v.y, s), Times(v.z, s))
  }

  function Lin(a: real, b: real, c: real, u: real, v: real, w: real): real {
    a * u + b * v + c * w
  }

  function Dot(u: Vec, v: Vec): real {
    Lin(u.x, u.y, u.z, v.x, v.y, v.z)
  }

  function Total(v: Vec): real {
    v.x + v.y + v.z
  }

  /** XYZ per unit duty of the five channels. */
  datatype Prims = Prims(r: Vec, g: Vec, b: Vec, ww: Vec, cw: Vec)

  datatype Duty = Duty(r: real, g: real, b: real, ww: real, cw: real)

  /** Light of r, g, b duties v. */
  function RgbLight(v: Vec, p: Prims): Vec {
    Vec(Lin(p.r.x, p.g.x, p.b.x, v.x, v.y, v.z),
        Lin(p.r.y, p.g.y, p.b.y, v.x, v.y, v.z),
        Lin(p.r.z, p.g.z, p.b.z, v.x, v.y, v.z))
  }

  function Pair(a: real, u: real, b: real, v: real): real {
    a * u + b * v
  }

  function WhiteLight(ww: real, cw: real, p: Prims): Vec {
    Vec(Pair(cw, p.cw.x, ww, p.ww.x), Pair(cw, p.cw.y, ww, p.ww.y), Pair(cw, p.cw.z, ww, p.ww.z))
  }

  /** The light of a linear model: sum of d_i P_i. */
  function Light(d: Duty, p: Prims): Vec {
    Add(RgbLight(Vec(d.r, d.g, d.b), p), WhiteLight(d.ww, d.cw, p))
  }

  // ---- inverse of the r, g, b primaries --------------------------------------------

  /** Three rows. */
  datatype Mat = Mat(r0: Vec, r1: Vec, r2: Vec)

  /** mul3 */
  function Mul(m: Mat, v: Vec): Vec {
    Vec(Dot(m.r0, v), Dot(m.r1, v), Dot(m.r2, v))
  }

  /** The 2x2 determinant a b / c d. */
  function Minor(a: real, b: real, c: real, d: real): real {
    a * d - b * c
  }

  function Det3(a: real, b: real, c: real, d: real, e: real, f: real, g: real, h: real, k: real): real {
    a * Minor(e, f, h, k) + b * -Minor(d, f, g, k) + c * Minor(d, e, g, h)
  }

  function Det(p: Prims): real {
    Det3(p.r.x, p.g.x, p.b.x, p.r.y, p.g.y, p.b.y, p.r.z, p.g.z, p.b.z)
  }

  predicate Singular(p: Prims) {
    AbsR(Det(p)) < TINY
  }

  /** inv_rgb: the adjugate over the determinant. */
  function InvRgb(p: Prims): Mat
    requires !Singular(p)
  {
    var a, b, c := p.r.x, p.g.x, p.b.x;
    var d, e, f := p.r.y, p.g.y, p.b.y;
    var g, h, k := p.r.z, p.g.z, p.b.z;
    var det := Det(p);
    Mat(Vec(Minor(e, f, h, k) / det, -Minor(b, c, h, k) / det, Minor(b, c, e, f) / det),
        Vec(-Minor(d, f, g, k) / det, Minor(a, c, g, k) / det, -Minor(a, c, d, f) / det),
        Vec(Minor(d, e, g, h) / det, -Minor(a, b, g, h) / det, Minor(a, b, d, e) / det))
  }

  /** (x, y, z) against the rows a b c, d e f, g h k: one, zero, zero. */
  predicate Dual(a: real, b: real, c: real, d: real, e: real, f: real, g: real, h: real, k: real,
                 x: real, y: real, z: real) {
    && Lin(a, b, c, x, y, z) == 1.0
    && Lin(d, e, f, x, y, z) == 0.0
    && Lin(g, h, k, x, y, z) == 0.0
  }

  /** The r, g, b matrix times m is the identity. */
  predicate RightInverse(p: Prims, m: Mat) {
    var a, b, c := p.r.x, p.g.x, p.b.x;
    var d, e, f := p.r.y, p.g.y, p.b.y;
    var g, h, k := p.r.z, p.g.z, p.b.z;
    && Dual(a, b, c, d, e, f, g, h, k, m.r0.x, m.r1.x, m.r2.x)
    && Dual(d, e, f, g, h, k, a, b, c, m.r0.y, m.r1.y, m.r2.y)
    && Dual(g, h, k, a, b, c, d, e, f, m.r0.z, m.r1.z, m.r2.z)
  }

  /** m times the r, g, b matrix is the identity. */
  predicate LeftInverse(p: Prims, m: Mat) {
    var a, b, c := p.r.x, p.g.x, p.b.x;
    var d, e, f := p.r.y, p.g.y, p.b.y;
    var g, h, k := p.r.z, p.g.z, p.b.z;
    && Dual(a, d, g, b, e, h, c, f, k, m.r0.x, m.r0.y, m.r0.z)
    && Dual(b, e, h, c, f, k, a, d, g, m.r1.x, m.r1.y, m.r1.z)
    && Dual(c, f, k, a, d, g, b, e, h, m.r2.x, m.r2.y, m.r2.z)
  }

  lemma CofactorSums(a: real, b: real, c: real, d: real, e: real, f: real, g: real, h: real, k: real,
                     u: real, v: real, w: real, det: real)
    requires u == Minor(e, f, h, k) && v == -Minor(d, f, g, k) && w == Minor(d, e, g, h)
    requires det == Det3(a, b, c, d, e, f, g, h, k)
    ensures a * u + b * v + c * w == det
    ensures d * u + e * v + f * w == 0.0
    ensures g * u + h * v + k * w == 0.0
  {
  }

  lemma Unscaled(a: real, b: real, c: real, x: real, y: real, z: real, s: real, t: real)
    requires s != 0.0
    requires a * (x * s) + b * (y * s) + c * (z * s) == t * s
    ensures a * x + b * y + c * z == t
  {
    assert (a * x + b * y + c * z) * s == t * s;
  }

  /** Cofactors over det, against the row or column they expand: one; against the other two: zero. */
  lemma Cofactors(a: real, b: real, c: real, d: real, e: real, f: real, g: real, h: real, k: real,
                  x: real, y: real, z: real, det: real)
    requires det != 0.0
    requires det == Det3(a, b, c, d, e, f, g, h, k)
    requires Times(x, det) == Minor(e, f, h, k)
    requires Times(y, det) == -Minor(d, f, g, k)
    requires Times(z, det) == Minor(d, e, g, h)
    ensures Dual(a, b, c, d, e, f, g, h, k, x, y, z)
  {
    CofactorSums(a, b, c, d, e, f, g, h, k, x * det, y * det, z * det, det);
    hide Minor, Det3;
    Unscaled(a, b, c, x, y, z, det, 1.0);
    Unscaled(d, e, f, x, y, z, det, 0.0);
    Unscaled(g, h, k, x, y, z, det, 0.0);
  }

  /** The determinant is unchanged by cycling rows, by cycling columns and by transposing. */
  lemma DetSymmetries(a: real, b: real, c: real, d: real, e: real, f: real, g: real, h: real, k: real)
    ensures Det3(d, e, f, g, h, k, a, b, c) == Det3(a, b, c, d, e, f, g, h, k)
    ensures Det3(a, d, g, b, e, h, c, f, k) == Det3(a, b, c, d, e, f, g, h, k)
  {
  }

  lemma MinorSymmetries(a: real, b: real, c: real, d: real)
    ensures Minor(c, d, a, b) == -Minor(a, b, c, d)
    ensures Minor(b, a, d, c) == -Minor(a, b, c, d)
    ensures Minor(a, c, b, d) == Minor(a, b, c, d)
  {
  }

  lemma InverseEntries(p: Prims)
    requires !Singular(p)
    ensures var m, det := InvRgb(p), Det(p);
      && Times(m.r0.x, det) == Minor(p.g.y, p.b.y, p.g.z, p.b.z)
      && Times(m.r0.y, det) == -Minor(p.g.x, p.b.x, p.g.z, p.b.z)
      && Times(m.r0.z, det) == Minor(p.g.x, p.b.x, p.g.y, p.b.y)
      && Times(m.r1.x, det) == -Minor(p.r.y, p.b.y, p.r.z, p.b.z)
      && Times(m.r1.y, det) == Minor(p.r.x, p.b.x, p.r.z, p.b.z)
      && Times(m.r1.z, det) == -Minor(p.r.x, p.b.x, p.r.y, p.b.y)
      && Times(m.r2.x, det) == Minor(p.r.y, p.g.y, p.r.z, p.g.z)
      && Times(m.r2.y, det) == -Minor(p.r.x, p.g.x, p.r.z, p.g.z)
      && Times(m.r2.z, det) == Minor(p.r.x, p.g.x, p.r.y, p.g.y)
  {
    hide Minor, Det;
  }

  /** Entries that are cofactors over det make both products with the matrix the identity. */
  lemma AdjugateInverts(p: Prims, m: Mat, det: real)
    requires det != 0.0 && det == Det(p)
    requires Times(m.r0.x, det) == Minor(p.g.y, p.b.y, p.g.z, p.b.z)
    requires Times(m.r0.y, det) == -Minor(p.g.x, p.b.x, p.g.z, p.b.z)
    requires Times(m.r0.z, det) == Minor(p.g.x, p.b.x, p.g.y, p.b.y)
    requires Times(m.r1.x, det) == -Minor(p.r.y, p.b.y, p.r.z, p.b.z)
    requires Times(m.r1.y, det) == Minor(p.r.x, p.b.x, p.r.z, p.b.z)
    requires Times(m.r1.z, det) == -Minor(p.r.x, p.b.x, p.r.y, p.b.y)
    requires Times(m.r2.x, det) == Minor(p.r.y, p.g.y, p.r.z, p.g.z)
    requires Times(m.r2.y, det) == -Minor(p.r.x, p.g.x, p.r.z, p.g.z)
    requires Times(m.r2.z, det) == Minor(p.r.x, p.g.x, p.r.y, p.g.y)
    ensures RightInverse(p, m) && LeftInverse(p, m)
  {
    var a, b, c := p.r.x, p.g.x, p.b.x;
    var d, e, f := p.r.y, p.g.y, p.b.y;
    var g, h, k := p.r.z, p.g.z, p.b.z;
    assert det == Det3(a, b, c, d, e, f, g, h, k);
    hide Minor, Det3, Det, Dual, Times;
    DetSymmetries(a, b, c, d, e, f, g, h, k);
    DetSymmetries(d, e, f, g, h, k, a, b, c);
    DetSymmetries(a, d, g, b, e, h, c, f, k);
    DetSymmetries(b, e, h, c, f, k, a, d, g);
    Cofactors(a, b, c, d, e, f, g, h, k, m.r0.x, m.r1.x, m.r2.x, det);
    MinorSymmetries(b, c, h, k); MinorSymmetries(a, c, g, k); MinorSymmetries(a, b, g, h);
    Cofactors(d, e, f, g, h, k, a, b, c, m.r0.y, m.r1.y, m.r2.y, det);
    Cofactors(g, h, k, a, b, c, d, e, f, m.r0.z, m.r1.z, m.r2.z, det);
    MinorSymmetries(e, f, h, k); MinorSymmetries(d, f, g, k); MinorSymmetries(d, e, g, h);
    MinorSymmetries(e, h, f, k); MinorSymmetries(b, h, c, k); MinorSymmetries(b, e, c, f);
    MinorSymmetries(b, c, e, f); MinorSymmetries(a, c, d, f); MinorSymmetries(a, b, d, e);
    Cofactors(a, d, g, b, e, h, c, f, k, m.r0.x, m.r0.y, m.r0.z, det);
    Cofactors(b, e, h, c, f, k, a, d, g, m.r1.x, m.r1.y, m.r1.z, det);
    Cofactors(c, f, k, a, d, g, b, e, h, m.r2.x, m.r2.y, m.r2.z, det);
  }

  lemma InvRgbIsInverse(p: Prims)
    requires !Singular(p)
    ensures RightInverse(p, InvRgb(p)) && LeftInverse(p, InvRgb(p))
  {
    InverseEntries(p);
    hide *;
    AdjugateInverts(p, InvRgb(p), Det(p));
  }

  /** One row of a product of two matrices, applied to a vector. */
  lemma Combine(a: real, b: real, c: real, m00: real, m01: real, m02: real, m10: real, m11: real, m12: real,
                m20: real, m21: real, m22: real, u: real, v: real, w: real, i0: real, i1: real, i2: real)
    requires Lin(a, b, c, m00, m10, m20) == i0
    requires Lin(a, b, c, m01, m11, m21) == i1
    requires Lin(a, b, c, m02, m12, m22) == i2
    ensures Lin(a, b, c, Lin(m00, m01, m02, u, v, w), Lin(m10, m11, m12, u, v, w), Lin(m20, m21, m22, u, v, w))
         == i0 * u + i1 * v + i2 * w
  {
    assert (a * m00 + b * m10 + c * m20) * u == i0 * u;
    assert (a * m01 + b * m11 + c * m21) * v == i1 * v;
    assert (a * m02 + b * m12 + c * m22) * w == i2 * w;
  }

  /** The duties inv_rgb gives for v make exactly v. */
  lemma SolvesRgb(p: Prims, v: Vec)
    requires !Singular(p)
    ensures RgbLight(Mul(InvRgb(p), v), p) == v
  {
    InvRgbIsInverse(p);
    hide InvRgb, Singular, Det, Lin;
    var m := InvRgb(p);
    Combine(p.r.x, p.g.x, p.b.x, m.r0.x, m.r0.y, m.r0.z, m.r1.x, m.r1.y, m.r1.z, m.r2.x, m.r2.y, m.r2.z,
            v.x, v.y, v.z, 1.0, 0.0, 0.0);
    Combine(p.r.y, p.g.y, p.b.y, m.r0.x, m.r0.y, m.r0.z, m.r1.x, m.r1.y, m.r1.z, m.r2.x, m.r2.y, m.r2.z,
            v.x, v.y, v.z, 0.0, 1.0, 0.0);
    Combine(p.r.z, p.g.z, p.b.z, m.r0.x, m.r0.y, m.r0.z, m.r1.x, m.r1.y, m.r1.z, m.r2.x, m.r2.y, m.r2.z,
            v.x, v.y, v.z, 0.0, 0.0, 1.0);
  }

  /** No other r, g, b duties make that light. */
  lemma RecoversRgb(p: Prims, v: Vec)
    requires !Singular(p)
    ensures Mul(InvRgb(p), RgbLight(v, p)) == v
  {
    InvRgbIsInverse(p);
    hide InvRgb, Singular, Det, Lin;
    var m := InvRgb(p);
    Combine(m.r0.x, m.r0.y, m.r0.z, p.r.x, p.g.x, p.b.x, p.r.y, p.g.y, p.b.y, p.r.z, p.g.z, p.b.z,
            v.x, v.y, v.z, 1.0, 0.0, 0.0);
    Combine(m.r1.x, m.r1.y, m.r1.z, p.r.x, p.g.x, p.b.x, p.r.y, p.g.y, p.b.y, p.r.z, p.g.z, p.b.z,
            v.x, v.y, v.z, 0.0, 1.0, 0.0);
    Combine(m.r2.x, m.r2.y, m.r2.z, p.r.x, p.g.x, p.b.x, p.r.y, p.g.y, p.b.y, p.r.z, p.g.z, p.b.z,
            v.x, v.y, v.z, 0.0, 0.0, 1.0);
  }
}
