/**
 The split of the whites in its own terms: the two whites, mixed by the share the solver takes, make the
 point of the segment between their chromaticities that lies nearest to the colour asked for.
*/
module LemtoneWhiteLine {
  import opened Numeric
  import opened Options
  import opened LemtoneLinear
  import opened LemtoneClosedForm
  import opened LemtoneModel
  import opened LemtoneSolve

  function Square(x: real): real {
    Times(x, x)
  }

  /** Squared distance. */
  function Apart(p: Point, q: Point): real {
    Square(p.x - q.x) + Square(p.y - q.y)
  }

  /** No point of the segment from c to w is nearer to p than q is, and q is one of them. */
  ghost predicate NearestOf(c: Point, w: Point, p: Point, q: Point) {
    && (exists t :: 0.0 <= t <= 1.0 && q == Toward(c, w, t))
    && forall t :: 0.0 <= t <= 1.0 ==> Apart(p, q) <= Apart(p, Toward(c, w, t))
  }

  lemma OneAxis(u: real, dx: real, t: real)
    ensures Square(u - Times(t, dx)) == Square(u) - 2.0 * Times(t, Times(u, dx)) + Times(Square(t), Times(dx, dx))
  {
    var e := t * dx;
    assert (u - e) * (u - e) == u * u - 2.0 * (u * e) + e * e;
    assert u * e == t * (u * dx);
    assert e * e == t * t * (dx * dx);
  }

  lemma TimesAdds(t: real, x: real, y: real)
    ensures Times(t, x) + Times(t, y) == Times(t, x + y)
  {
  }

  lemma AlongParts(c: Point, w: Point, p: Point)
    ensures Along(c, w, p) == Times(p.x - c.x, w.x - c.x) + Times(p.y - c.y, w.y - c.y)
  {
  }

  lemma TowardParts(c: Point, w: Point, p: Point, t: real)
    ensures Apart(p, Toward(c, w, t))
         == Square(p.x - c.x - Times(t, w.x - c.x)) + Square(p.y - c.y - Times(t, w.y - c.y))
    ensures Apart(p, c) == Square(p.x - c.x) + Square(p.y - c.y)
  {
    assert p.x - (c.x + t * (w.x - c.x)) == p.x - c.x - Times(t, w.x - c.x);
    assert p.y - (c.y + t * (w.y - c.y)) == p.y - c.y - Times(t, w.y - c.y);
    hide Square, Times;
  }

  lemma Expanded(c: Point, w: Point, p: Point, t: real)
    ensures Apart(p, Toward(c, w, t)) == Apart(p, c) - 2.0 * Times(t, Along(c, w, p)) + Times(Square(t), Along(c, w, w))
  {
    hide *;
    var dx, dy, u, v := w.x - c.x, w.y - c.y, p.x - c.x, p.y - c.y;
    TowardParts(c, w, p, t);
    AlongParts(c, w, p);
    AlongParts(c, w, w);
    OneAxis(u, dx, t);
    OneAxis(v, dy, t);
    TimesAdds(t, Times(u, dx), Times(v, dy));
    TimesAdds(Square(t), Times(dx, dx), Times(dy, dy));
  }

  /** Where the unconstrained minimum is below 0 or above 1, the end of the interval is best. */
  lemma ParabolaMinimum(q: real, len: real, s: real)
    requires 0.0 < len && 0.0 <= s <= 1.0
    ensures var t := ClampR(q / len, 0.0, 1.0);
      Times(Square(t), len) - 2.0 * Times(t, q) <= Times(Square(s), len) - 2.0 * Times(s, q)
  {
    var z := q / len;
    var t := ClampR(z, 0.0, 1.0);
    assert q == z * len;
    var e := s + t - 2.0 * z;
    assert s * s * len - 2.0 * (s * q) - (t * t * len - 2.0 * (t * q)) == (s - t) * e * len by {
      assert s * q == s * z * len && t * q == t * z * len;
      assert (s - t) * e == s * s - t * t - 2.0 * (s * z) + 2.0 * (t * z);
    }
    if s - t >= 0.0 && e >= 0.0 {
      ProductNonNegative(s - t, e);
    } else {
      ProductNonNegative(t - s, -e);
      assert (t - s) * (-e) == (s - t) * e;
    }
    ProductNonNegative((s - t) * e, len);
  }

  lemma PositiveTimes(x: real, y: real)
    requires 0.0 < x && 0.0 < y
    ensures 0.0 < Times(x, y)
  {
  }

  lemma MinusTimes(x: real, y: real)
    ensures Times(-x, -y) == Times(x, y)
  {
  }

  lemma SquarePositive(x: real)
    ensures x != 0.0 ==> 0.0 < Square(x)
    ensures x == 0.0 ==> Square(x) == 0.0
  {
    MinusTimes(x, x);
    hide Times;
    if x > 0.0 {
      PositiveTimes(x, x);
    } else if x < 0.0 {
      PositiveTimes(-x, -x);
    } else {
      NothingTimes(x);
    }
  }

  lemma NothingTimes(y: real)
    ensures Times(0.0, y) == 0.0
  {
  }

  lemma SumOfSquares(x: real, y: real)
    ensures 0.0 <= x * x + y * y
    ensures x * x + y * y == 0.0 ==> x == 0.0 && y == 0.0
  {
    SquarePositive(x);
    SquarePositive(y);
    assert x * x + y * y == Square(x) + Square(y);
    hide Square;
  }

  lemma LengthNonNegative(c: Point, w: Point, t: real)
    ensures 0.0 <= Along(c, w, w)
    ensures Along(c, w, w) == 0.0 ==> Toward(c, w, t) == c
  {
    SumOfSquares(w.x - c.x, w.y - c.y);
  }

  lemma NoCloser(c: Point, w: Point, p: Point, s: real)
    requires 0.0 <= s <= 1.0
    ensures Apart(p, Toward(c, w, BetaOn(c, w, p))) <= Apart(p, Toward(c, w, s))
  {
    hide Along, Toward, Apart, Square, Times;
    var t := BetaOn(c, w, p);
    LengthNonNegative(c, w, s);
    LengthNonNegative(c, w, t);
    if Along(c, w, w) != 0.0 {
      Expanded(c, w, p, t);
      Expanded(c, w, p, s);
      ParabolaMinimum(Along(c, w, p), Along(c, w, w), s);
    }
  }

  /** beta_on finds the nearest point of the segment. */
  lemma BetaIsNearest(c: Point, w: Point, p: Point)
    ensures NearestOf(c, w, p, Toward(c, w, BetaOn(c, w, p)))
  {
    forall s | 0.0 <= s <= 1.0
      ensures Apart(p, Toward(c, w, BetaOn(c, w, p))) <= Apart(p, Toward(c, w, s))
    {
      NoCloser(c, w, p, s);
    }
    hide BetaOn, Toward, Apart;
  }

  lemma PositiveFactor(x: real, y: real)
    requires 0.0 < x && 0.0 < x * y
    ensures 0.0 < y
  {
  }

  /** A part of 1 - b of u and b of v. */
  function Blend(b: real, u: real, v: real): real {
    (1.0 - b) * u + b * v
  }

  lemma MixedPart(b: real, u: real, v: real, sc: real, sw: real, t: real, den: real)
    requires 0.0 < den && den == sw * (1.0 - t) + t * sc && b == t * sc / den
    ensures Times(den, Blend(b, u, v)) == sw * ((1.0 - t) * u) + sc * (t * v)
  {
    assert b * den == t * sc;
    assert (1.0 - b) * den == sw * (1.0 - t);
    assert den * ((1.0 - b) * u + b * v) == (1.0 - b) * den * u + b * den * v;
  }

  lemma MixedTotal(b: real, sc: real, sw: real, t: real, den: real)
    requires 0.0 < sc && 0.0 < sw && 0.0 < den && den == sw * (1.0 - t) + t * sc && b == t * sc / den
    ensures Times(den, Blend(b, sc, sw)) == sc * sw && 0.0 < Blend(b, sc, sw)
  {
    MixedPart(b, sc, sw, sc, sw, t, den);
    assert sw * ((1.0 - t) * sc) + sc * (t * sw) == sc * sw;
    ProductPositive(sc, sw);
    hide Blend;
    PositiveFactor(den, Blend(b, sc, sw));
  }

  lemma SharePositive(sc: real, sw: real, t: real)
    requires 0.0 < sc && 0.0 < sw && 0.0 <= t <= 1.0
    ensures sw * (1.0 - t) + t * sc > 0.0
  {
    if t < 1.0 {
      ProductPositive(sw, 1.0 - t);
      ProductNonNegative(t, sc);
    }
  }

  /** One coordinate of the mix: u of sc cold and v of sw warm make the blend of u / sc and v / sw at t. */
  lemma MixedRatio(b: real, u: real, v: real, sc: real, sw: real, t: real)
    requires 0.0 < sc && 0.0 < sw && 0.0 <= t <= 1.0 && b == ShareAt(sc, sw, t)
    ensures 0.0 < Blend(b, sc, sw)
    ensures Blend(b, u, v) / Blend(b, sc, sw) == u / sc + t * (v / sw - u / sc)
  {
    var den := sw * (1.0 - t) + t * sc;
    SharePositive(sc, sw, t);
    assert b == t * sc / den;
    hide ShareAt, Blend, Times;
    MixedPart(b, u, v, sc, sw, t, den);
    MixedTotal(b, sc, sw, t, den);
    Line(Blend(b, u, v), Blend(b, sc, sw), u, v, t, sc, sw, den);
  }

  lemma Line(n: real, d: real, u: real, v: real, t: real, sc: real, sw: real, den: real)
    requires 0.0 < d && 0.0 < den && 0.0 < sc && 0.0 < sw && Times(den, d) == sc * sw
    requires Times(den, n) == sw * ((1.0 - t) * u) + sc * (t * v)
    ensures n / d == u / sc + t * (v / sw - u / sc)
  {
    var x, y := u / sc, v / sw;
    assert u == x * sc && v == y * sw;
    OnLine(n, d, x, y, t, sc, sw, den);
  }

  lemma OnLine(n: real, d: real, x: real, y: real, t: real, sc: real, sw: real, den: real)
    requires 0.0 < d && 0.0 < den && Times(den, d) == sc * sw
    requires Times(den, n) == sw * ((1.0 - t) * (x * sc)) + sc * (t * (y * sw))
    ensures n / d == x + t * (y - x)
  {
    var z := x + t * (y - x);
    assert sw * ((1.0 - t) * (x * sc)) + sc * (t * (y * sw)) == sc * sw * z;
    assert den * n == den * d * z;
    assert den * (n - d * z) == 0.0;
    assert n == d * z;
  }

  lemma XyIs(v: Vec, x: real, y: real, d: real)
    requires v.x == x && v.y == y && Total(v) == d && 0.0 < d
    ensures XyOf(v) == Point(x / d, y / d)
  {
    hide Total;
  }

  lemma MixParts(p: Prims, b: real)
    ensures var v := WhiteMix(p, b);
      && v.x == Blend(b, p.cw.x, p.ww.x) && v.y == Blend(b, p.cw.y, p.ww.y)
      && Total(v) == Blend(b, Total(p.cw), Total(p.ww))
  {
    MixTotal(p, b);
  }

  /** duty_split: whites mixed by the share land at position t between their chromaticities. */
  lemma MixOnLine(p: Prims, t: real)
    requires 0.0 < Total(p.cw) && 0.0 < Total(p.ww) && 0.0 <= t <= 1.0
    ensures XyOf(WhiteMix(p, DutySplit(p, t))) == Toward(XyOf(p.cw), XyOf(p.ww), t)
  {
    var b, sc, sw := DutySplit(p, t), Total(p.cw), Total(p.ww);
    assert b == ShareAt(sc, sw, t);
    hide ShareAt, DutySplit, WhiteMix, Blend, Total;
    MixedRatio(b, p.cw.x, p.ww.x, sc, sw, t);
    MixedRatio(b, p.cw.y, p.ww.y, sc, sw, t);
    MixParts(p, b);
    XyIs(WhiteMix(p, b), Blend(b, p.cw.x, p.ww.x), Blend(b, p.cw.y, p.ww.y), Blend(b, sc, sw));
    XyIs(p.cw, p.cw.x, p.cw.y, sc);
    XyIs(p.ww, p.ww.x, p.ww.y, sw);
  }

  lemma MixTotal(p: Prims, b: real)
    ensures Total(WhiteMix(p, b)) == (1.0 - b) * Total(p.cw) + b * Total(p.ww)
  {
  }

  /** The solver's split for a colour at chromaticity `at`. */
  lemma ShareIsNearest(p: Prims, at: Point)
    requires 0.0 < Total(p.cw) && 0.0 < Total(p.ww)
    ensures NearestOf(XyOf(p.cw), XyOf(p.ww), at, XyOf(WhiteMix(p, WhiteShare(p, at))))
  {
    hide XyOf, NearestOf, WhiteMix, DutySplit, Toward, BetaOn;
    MixOnLine(p, BetaOn(XyOf(p.cw), XyOf(p.ww), at));
    BetaIsNearest(XyOf(p.cw), XyOf(p.ww), at);
  }

  /**
   And the white that an unreachable colour moves toward; for a colour without luminance the nearest point is
   looked for in the OKLab plane.
  */
  lemma AnchorIsNearest(m: Model, at: Point)
    requires 0.0 < Total(m.prim.cw) && 0.0 < Total(m.prim.ww)
    ensures AbToXyz(m, at).Some? ==>
              NearestOf(XyOf(m.prim.cw), XyOf(m.prim.ww), XyOf(AbToXyz(m, at).value),
                        XyOf(WhiteMix(m.prim, AnchorShare(m, at))))
    ensures AbToXyz(m, at).None? ==> exists t ::
              && 0.0 <= t <= 1.0
              && NearestOf(m.cwAb, m.wwAb, at, Toward(m.cwAb, m.wwAb, t))
              && XyOf(WhiteMix(m.prim, AnchorShare(m, at))) == Toward(XyOf(m.prim.cw), XyOf(m.prim.ww), t)
  {
    hide XyOf, NearestOf, WhiteMix, DutySplit, Toward, BetaOn, AbToXyz;
    var x := AbToXyz(m, at);
    if x.Some? {
      MixOnLine(m.prim, BetaOn(XyOf(m.prim.cw), XyOf(m.prim.ww), XyOf(x.value)));
      BetaIsNearest(XyOf(m.prim.cw), XyOf(m.prim.ww), XyOf(x.value));
    } else {
      MixOnLine(m.prim, BetaOn(m.cwAb, m.wwAb, at));
      BetaIsNearest(m.cwAb, m.wwAb, at);
    }
  }
}
