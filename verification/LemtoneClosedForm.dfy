/**
 closed_form of lemtone.c: r, g, b, warm and cold white duties for an XYZ target on a linear
 model. The white level ranges over an interval; the fidelity picks a point of it.
*/
module LemtoneClosedForm {
  import opened Numeric
  import opened Options
  import opened LemtoneLinear

  datatype Point = Point(x: real, y: real)

  /** Duty cap and cap on ww + cw (0: none). */
  datatype Limits = Limits(dutyMax: real, whiteSumMax: real) {
    predicate Valid() {
      0.0 < dutyMax
    }
  }

  datatype Range = Range(lo: real, hi: real) {
    predicate Has(x: real) {
      lo <= x <= hi
    }
  }

  function XyOf(v: Vec): Point {
    var s := Total(v);
    if s > 0.0 then Point(v.x / s, v.y / s) else Point(0.0, 0.0)
  }

  /** Inner product of the vectors from cw to p and from cw to ww. */
  function Along(cw: Point, ww: Point, p: Point): real {
    (p.x - cw.x) * (ww.x - cw.x) + (p.y - cw.y) * (ww.y - cw.y)
  }

  /** Where p projects onto the line cw -> ww. */
  function BetaOn(cw: Point, ww: Point, p: Point): (t: real)
    ensures 0.0 <= t <= 1.0
  {
    var len := Along(cw, ww, ww);
    if len == 0.0 then 0.0 else ClampR(Along(cw, ww, p) / len, 0.0, 1.0)
  }

  /** Position t on the xy line, as a share of the white duty, for X+Y+Z of sc and sw per unit duty. */
  function ShareAt(sc: real, sw: real, t: real): (share: real)
    ensures 0.0 <= sc && 0.0 <= sw && 0.0 <= t <= 1.0 ==> 0.0 <= share <= 1.0
  {
    var den := sw * (1.0 - t) + t * sc;
    ShareOf(sw, sc, t);
    if den > 0.0 then t * sc / den else t
  }

  lemma ShareOf(sw: real, sc: real, t: real)
    ensures var den := sw * (1.0 - t) + t * sc;
      0.0 <= sc && 0.0 <= sw && 0.0 <= t <= 1.0 && den > 0.0 ==> 0.0 <= t * sc / den <= 1.0
  {
    var den := sw * (1.0 - t) + t * sc;
    if 0.0 <= sc && 0.0 <= sw && 0.0 <= t <= 1.0 && den > 0.0 {
      ProductNonNegative(sw, 1.0 - t);
      ProductNonNegative(t, sc);
      QuotientBounds(0.0, t * sc, den);
      QuotientBounds(1.0, t * sc, den);
    }
  }

  function DutySplit(p: Prims, t: real): real {
    ShareAt(Total(p.cw), Total(p.ww), t)
  }

  function WhiteShare(p: Prims, at: Point): real {
    DutySplit(p, BetaOn(XyOf(p.cw), XyOf(p.ww), at))
  }

  function WhiteMix(p: Prims, beta: real): Vec {
    WhiteLight(beta, 1.0 - beta, p)
  }

  /** Highest white level with share beta that the caps allow. */
  function WhiteCap(lim: Limits, beta: real): real {
    var hi := lim.dutyMax / MaxR(MaxR(beta, 1.0 - beta), EPS);
    if lim.whiteSumMax > 0.0 then MinR(hi, lim.whiteSumMax) else hi
  }

  /** One of r, g, b: keep only the white levels x with a - x * b inside the duty range. */
  function Narrow(r: Range, a: real, b: real, dmax: real): Option<Range> {
    var tol := EPS * dmax;
    if AbsR(b) < TINY then
      if a < -tol || a > dmax + tol then None else Some(r)
    else
      var l, h := (a - dmax) / b, a / b;
      if b < 0.0 then Some(Range(MaxR(r.lo, h), MinR(r.hi, l))) else Some(Range(MaxR(r.lo, l), MinR(r.hi, h)))
  }

  function Comp(v: Vec, k: nat): real {
    if k == 0 then v.x else if k == 1 then v.y else v.z
  }

  function NarrowAll(r: Range, a: Vec, b: Vec, dmax: real, k: nat): Option<Range>
    requires k <= 3
  {
    if k == 0 then Some(r) else
      var s := NarrowAll(r, a, b, dmax, k - 1);
      if s.None? then None else Narrow(s.value, Comp(a, k - 1), Comp(b, k - 1), dmax)
  }

  /** The white levels that survive all three channels. */
  function Levels(lim: Limits, beta: real, a: Vec, b: Vec): Option<Range> {
    NarrowAll(Range(0.0, WhiteCap(lim, beta)), a, b, lim.dutyMax, 3)
  }

  /** What is left of a when the whites at level we contribute b each. */
  function Rest(a: real, we: real, b: real): real {
    a - we * b
  }

  /** The two whites' duties at level we with share beta. */
  function Warm(we: real, beta: real): real {
    we * beta
  }

  function Cold(we: real, beta: real): real {
    we * (1.0 - beta)
  }

  function DutiesAt(lim: Limits, beta: real, a: Vec, b: Vec, we: real): Duty {
    var dmax := lim.dutyMax;
    Duty(ClampR(Rest(a.x, we, b.x), 0.0, dmax), ClampR(Rest(a.y, we, b.y), 0.0, dmax), ClampR(Rest(a.z, we, b.z), 0.0, dmax),
         ClampR(Warm(we, beta), 0.0, dmax), ClampR(Cold(we, beta), 0.0, dmax))
  }

  function Level(r: Range, f: real): real {
    r.lo + f * MaxR(0.0, r.hi - r.lo)
  }

  /** Everything closed_form derives from the primaries before it looks at the caps. */
  datatype Setup = Setup(beta: real, a: Vec, b: Vec)

  function Prepare(p: Prims, tgt: Vec, at: Point): Setup
    requires !Singular(p)
  {
    var beta := WhiteShare(p, at);
    Setup(beta, Mul(InvRgb(p), tgt), Mul(InvRgb(p), WhiteMix(p, beta)))
  }

  function ClosedForm(lim: Limits, p: Prims, tgt: Vec, at: Point, f: real): Option<Duty> {
    if Singular(p) then None else
      var s := Prepare(p, tgt, at);
      var r := Levels(lim, s.beta, s.a, s.b);
      if r.None? || r.value.hi < r.value.lo - EPS * lim.dutyMax then None
      else Some(DutiesAt(lim, s.beta, s.a, s.b, Level(r.value, f)))
  }

  /** The loop over r, g, b as the code runs it. */
  method RunClosedForm(lim: Limits, p: Prims, tgt: Vec, at: Point, f: real) returns (ok: bool, d: Duty)
    ensures ok == ClosedForm(lim, p, tgt, at, f).Some?
    ensures ok ==> d == ClosedForm(lim, p, tgt, at, f).value
  {
    hide InvRgb, Singular, Mul, WhiteShare, WhiteMix, WhiteCap, DutiesAt, Level;
    d := Duty(0.0, 0.0, 0.0, 0.0, 0.0);
    if Singular(p) {
      return false, d;
    }
    var s := Prepare(p, tgt, at);
    var a, b, dmax := s.a, s.b, lim.dutyMax;
    var tol := EPS * dmax;
    var lo, hi := 0.0, WhiteCap(lim, s.beta);
    ghost var start := Range(lo, hi);
    for k := 0 to 3
      invariant NarrowAll(start, a, b, dmax, k) == Some(Range(lo, hi))
    {
      var ak, bk := Comp(a, k), Comp(b, k);
      if AbsR(bk) < TINY {
        if ak < -tol || ak > dmax + tol {
          NoneFromHere(start, a, b, dmax, k + 1);
          return false, d;
        }
        continue;
      }
      var l, h := (ak - dmax) / bk, ak / bk;
      if bk < 0.0 {
        l, h := h, l;
      }
      lo := MaxR(lo, l);
      hi := MinR(hi, h);
    }
    if hi < lo - tol {
      return false, d;
    }
    ok, d := true, DutiesAt(lim, s.beta, a, b, Level(Range(lo, hi), f));
  }

  lemma {:induction false} NoneFromHere(r: Range, a: Vec, b: Vec, dmax: real, k: nat)
    requires k <= 3 && NarrowAll(r, a, b, dmax, k).None?
    ensures NarrowAll(r, a, b, dmax, 3).None?
    decreases 3 - k
  {
    if k < 3 {
      NoneFromHere(r, a, b, dmax, k + 1);
    }
  }

  // ---- what the interval means --------------------------------------------------------

  /** White level we keeps every duty within the caps. */
  predicate Fits(lim: Limits, beta: real, a: Vec, b: Vec, we: real) {
    && CapFits(lim, beta, we)
    && RgbFits(lim.dutyMax, a.x, b.x, we) && RgbFits(lim.dutyMax, a.y, b.y, we) && RgbFits(lim.dutyMax, a.z, b.z, we)
  }

  predicate CapFits(lim: Limits, beta: real, we: real) {
    0.0 <= we && Warm(we, beta) <= lim.dutyMax && Cold(we, beta) <= lim.dutyMax
    && (lim.whiteSumMax > 0.0 ==> we <= lim.whiteSumMax)
  }

  predicate RgbFits(dmax: real, a: real, b: real, we: real) {
    0.0 <= Rest(a, we, b) <= dmax
  }

  predicate NoTiny(b: Vec) {
    AbsR(b.x) >= TINY && AbsR(b.y) >= TINY && AbsR(b.z) >= TINY
  }

  lemma QuotientBounds(we: real, n: real, q: real)
    requires q != 0.0
    ensures q > 0.0 ==> (we <= n / q <==> we * q <= n) && (we >= n / q <==> we * q >= n)
    ensures q < 0.0 ==> (we <= n / q <==> we * q >= n) && (we >= n / q <==> we * q <= n)
  {
    var z := n / q;
    assert z * q == n;
    assert (we - z) * q == we * q - n;
    if q > 0.0 {
      assert we >= z ==> (we - z) * q >= 0.0;
      assert we <= z ==> (z - we) * q >= 0.0;
      assert we > z ==> (we - z) * q > 0.0;
      assert we < z ==> (z - we) * q > 0.0;
    } else {
      assert we >= z ==> (we - z) * -q >= 0.0;
      assert we <= z ==> (z - we) * -q >= 0.0;
      assert we > z ==> (we - z) * -q > 0.0;
      assert we < z ==> (z - we) * -q > 0.0;
    }
  }

  /** The larger share decides whether both whites stay under the duty cap. */
  lemma LargerShareDecides(beta: real, we: real, dmax: real)
    requires 0.0 <= we
    ensures we * MaxR(beta, 1.0 - beta) <= dmax <==> Warm(we, beta) <= dmax && Cold(we, beta) <= dmax
  {
    if beta >= 1.0 - beta {
      ProductNonNegative(we, beta - (1.0 - beta));
    } else {
      ProductNonNegative(we, 1.0 - beta - beta);
    }
  }

  lemma WhiteCapIsExact(lim: Limits, beta: real, we: real)
    requires lim.Valid()
    ensures Range(0.0, WhiteCap(lim, beta)).Has(we) <==> CapFits(lim, beta, we)
  {
    var m := MaxR(beta, 1.0 - beta);
    assert m >= 0.5;
    QuotientBounds(we, lim.dutyMax, m);
    if 0.0 <= we {
      LargerShareDecides(beta, we, lim.dutyMax);
    }
    hide Warm, Cold;
  }

  lemma NarrowIsExact(r: Range, a: real, b: real, dmax: real, we: real)
    requires AbsR(b) >= TINY
    ensures Narrow(r, a, b, dmax).Some?
    ensures Narrow(r, a, b, dmax).value.Has(we) <==> r.Has(we) && RgbFits(dmax, a, b, we)
  {
    QuotientBounds(we, a - dmax, b);
    QuotientBounds(we, a, b);
  }

  /** A legal level survives a channel even when that channel hardly depends on the whites. */
  lemma NarrowKeepsFits(lim: Limits, beta: real, r: Range, a: real, b: real, we: real)
    requires lim.Valid() && CapFits(lim, beta, we) && r.Has(we) && RgbFits(lim.dutyMax, a, b, we)
    ensures Narrow(r, a, b, lim.dutyMax).Some? && Narrow(r, a, b, lim.dutyMax).value.Has(we)
  {
    if AbsR(b) < TINY {
      assert we * beta + we * (1.0 - beta) == we;
      assert we <= 2.0 * lim.dutyMax;
      TinyShift(we, b, lim.dutyMax);
    } else {
      NarrowIsExact(r, a, b, lim.dutyMax, we);
    }
  }

  lemma TinyShift(we: real, b: real, dmax: real)
    requires 0.0 <= we <= 2.0 * dmax && AbsR(b) < TINY
    ensures -(EPS * dmax) <= we * b <= EPS * dmax
  {
    assert we * (TINY - b) >= 0.0 && we * (TINY + b) >= 0.0;
  }

  /** With no tiny coefficient, the interval is exactly the set of legal white levels. */
  lemma LevelsExact(lim: Limits, beta: real, a: Vec, b: Vec, we: real)
    requires lim.Valid() && NoTiny(b)
    ensures Levels(lim, beta, a, b).Some?
    ensures Levels(lim, beta, a, b).value.Has(we) <==> Fits(lim, beta, a, b, we)
  {
    hide Narrow, RgbFits, CapFits;
    var dmax, r := lim.dutyMax, Range(0.0, WhiteCap(lim, beta));
    WhiteCapIsExact(lim, beta, we);
    hide WhiteCap;
    NarrowIsExact(r, a.x, b.x, dmax, we);
    assert NarrowAll(r, a, b, dmax, 1) == Narrow(r, a.x, b.x, dmax);
    var r1 := NarrowAll(r, a, b, dmax, 1).value;
    NarrowIsExact(r1, a.y, b.y, dmax, we);
    assert NarrowAll(r, a, b, dmax, 2) == Narrow(r1, a.y, b.y, dmax);
    NarrowIsExact(NarrowAll(r, a, b, dmax, 2).value, a.z, b.z, dmax, we);
  }

  /** Tiny coefficients or not, no legal white level is ever ruled out. */
  lemma LevelsComplete(lim: Limits, beta: real, a: Vec, b: Vec, we: real)
    requires lim.Valid() && Fits(lim, beta, a, b, we)
    ensures Levels(lim, beta, a, b).Some? && Levels(lim, beta, a, b).value.Has(we)
  {
    hide Narrow, RgbFits, CapFits;
    var dmax, r := lim.dutyMax, Range(0.0, WhiteCap(lim, beta));
    WhiteCapIsExact(lim, beta, we);
    hide WhiteCap;
    NarrowKeepsFits(lim, beta, r, a.x, b.x, we);
    assert NarrowAll(r, a, b, dmax, 1) == Narrow(r, a.x, b.x, dmax);
    var r1 := NarrowAll(r, a, b, dmax, 1).value;
    NarrowKeepsFits(lim, beta, r1, a.y, b.y, we);
    assert NarrowAll(r, a, b, dmax, 2) == Narrow(r1, a.y, b.y, dmax);
    NarrowKeepsFits(lim, beta, NarrowAll(r, a, b, dmax, 2).value, a.z, b.z, we);
  }
}
