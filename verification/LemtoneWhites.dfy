/**
 The cap on the sum of the two whites: every answer of the solver keeps it, up to the
 tolerance with which the closed form accepts an interval that is just empty.
*/
module LemtoneWhites {
  import opened Numeric
  import opened Options
  import opened LemtoneLinear
  import opened LemtoneClosedForm
  import opened LemtoneExactness
  import opened LemtoneModel
  import opened LemtoneSolve
  import LemtoneWitness

  predicate SumKept(lim: Limits, d: Duty) {
    lim.whiteSumMax > 0.0 ==> d.ww + d.cw <= lim.whiteSumMax + EPS * lim.dutyMax
  }

  lemma {:induction false} NarrowedStaysInside(r: Range, a: Vec, b: Vec, dmax: real, k: nat)
    requires k <= 3 && NarrowAll(r, a, b, dmax, k).Some?
    ensures var n := NarrowAll(r, a, b, dmax, k).value; r.lo <= n.lo && n.hi <= r.hi
    decreases k
  {
    if k > 0 {
      NarrowedStaysInside(r, a, b, dmax, k - 1);
    }
  }

  /** The chosen level is at most the interval's upper end, or its lower end where they cross within the tolerance. */
  lemma LevelUnderCap(r: Range, f: real, cap: real, tol: real)
    requires 0.0 <= f <= 1.0 && 0.0 <= r.lo && r.hi <= cap && r.lo - tol <= r.hi && 0.0 <= tol
    ensures 0.0 <= Level(r, f) <= cap + tol
  {
    var w := MaxR(0.0, r.hi - r.lo);
    ProductNonNegative(f, w);
    ProductNonNegative(1.0 - f, w);
    assert (1.0 - f) * w == w - f * w;
  }

  /** Split by a share in [0, 1] and clamped, the level is not exceeded. */
  lemma PairWithinLevel(lim: Limits, s: Setup, we: real)
    requires lim.Valid() && 0.0 <= we && 0.0 <= s.beta <= 1.0
    ensures var d := DutiesAt(lim, s.beta, s.a, s.b, we); d.ww + d.cw <= we
  {
    ProductNonNegative(we, s.beta);
    ProductNonNegative(we, 1.0 - s.beta);
    assert we * s.beta + we * (1.0 - s.beta) == we;
    hide Rest;
  }

  lemma ClosedFormKeepsSum(lim: Limits, p: Prims, tgt: Vec, at: Point, f: real)
    requires lim.Valid() && 0.0 <= f <= 1.0 && 0.0 <= WhiteShare(p, at) <= 1.0
    requires ClosedForm(lim, p, tgt, at, f).Some?
    ensures SumKept(lim, ClosedForm(lim, p, tgt, at, f).value)
  {
    assert lim.whiteSumMax > 0.0 ==> WhiteCap(lim, WhiteShare(p, at)) <= lim.whiteSumMax;
    hide Singular, WhiteShare, Mul, InvRgb, WhiteMix, WhiteCap, DutiesAt, Level, Narrow;
    var s := Prepare(p, tgt, at);
    NarrowedStaysInside(Range(0.0, WhiteCap(lim, s.beta)), s.a, s.b, lim.dutyMax, 3);
    var r := Levels(lim, s.beta, s.a, s.b).value;
    ProductNonNegative(EPS, lim.dutyMax);
    LevelUnderCap(r, f, WhiteCap(lim, s.beta), EPS * lim.dutyMax);
    PairWithinLevel(lim, s, Level(r, f));
  }

  // ---- the solver -------------------------------------------------------------------------

  predicate WhitesOk(p: Prims) {
    0.0 <= Total(p.ww) && 0.0 <= Total(p.cw)
  }

  /** Both whites have a non-negative X + Y + Z at every duty within the cap, interaction included. */
  ghost predicate WhitesMakeLight(m: Model) {
    WhitesOk(m.prim) && forall d: Duty, sag: bool :: LemtoneWitness.InCap(m, d) ==> WhitesOk(LocalPrims(m, d, sag))
  }

  /** The duties handed from one phase to the next are within the cap. */
  lemma {:induction false} RoundsInCap(m: Model, tgt: Vec, at: Point, f: real, sag: bool, n: nat,
                                       p: Prims, d: Duty, evals: nat)
    requires m.Valid() && LemtoneWitness.InCap(m, d)
    ensures LemtoneWitness.InCap(m, Rounds(m, tgt, at, f, sag, n, p, d, evals).d)
    decreases n
  {
    hide ClosedForm, LocalPrims, Light, Worst, LemtoneWitness.InCap;
    var next := ClosedForm(m.lim, p, tgt, at, f);
    if n > 0 && next.Some? {
      LemtoneWitness.ClosedFormInCap(m, p, tgt, at, f);
      RoundsInCap(m, tgt, at, f, sag, n - 1, LocalPrims(m, next.value, sag), next.value, evals + 1);
    }
  }

  lemma {:induction false} RoundsKeepSum(m: Model, tgt: Vec, at: Point, f: real, sag: bool, n: nat,
                                         p: Prims, d: Duty, evals: nat)
    requires m.Valid() && WhitesMakeLight(m) && WhitesOk(p) && 0.0 <= f <= 1.0
    ensures var r := Rounds(m, tgt, at, f, sag, n, p, d, evals);
      r.converged ==> SumKept(m.lim, r.d)
    decreases n
  {
    hide ClosedForm, LocalPrims, Light, Worst, SumKept, LemtoneWitness.InCap;
    var next := ClosedForm(m.lim, p, tgt, at, f);
    if n > 0 && next.Some? {
      LemtoneWitness.ClosedFormInCap(m, p, tgt, at, f);
      ShareInUnit(p, at);
      ClosedFormKeepsSum(m.lim, p, tgt, at, f);
      RoundsKeepSum(m, tgt, at, f, sag, n - 1, LocalPrims(m, next.value, sag), next.value, evals + 1);
    }
  }

  lemma AttemptKeepsSum(m: Model, f: real, ab: Point, y: real)
    requires m.Valid() && WhitesMakeLight(m) && 0.0 <= f <= 1.0
    ensures AttemptAb(m, f, ab, y).ok ==> SumKept(m.lim, AttemptAb(m, f, ab, y).d)
  {
    var x := TargetXyz(m, ab, y);
    if x.Some? && RealColour(x.value) {
      hide Rounds, LocalPrims, XyOf, SumKept, TargetXyz, WhitesOk;
      var tgt, at := x.value, XyOf(x.value);
      RoundsInCap(m, tgt, at, f, false, PHASE1_ROUNDS, m.prim, DARK, 0);
      var one := Rounds(m, tgt, at, f, false, PHASE1_ROUNDS, m.prim, DARK, 0);
      var p := if one.feasible then LocalPrims(m, one.d, true) else m.prim;
      RoundsKeepSum(m, tgt, at, f, true, FIX_ROUNDS, p, one.d, one.evals);
    }
  }

  lemma {:induction false} BisectKeepsSum(lim: Limits, probe: real -> Try, s: Search, n: nat)
    requires SumKept(lim, s.best) && forall t :: probe(t).ok ==> SumKept(lim, probe(t).d)
    ensures SumKept(lim, Bisect(probe, s, n).best)
    decreases n
  {
    if n > 0 {
      BisectKeepsSum(lim, probe, Probe(s, probe(Mid(s))), n - 1);
    }
  }

  lemma DarkKeepsSum(lim: Limits)
    requires lim.Valid()
    ensures SumKept(lim, DARK)
  {
    ProductNonNegative(EPS, lim.dutyMax);
  }

  lemma DesaturatedKeepsSum(m: Model, f: real, w: Point, p: Point, y: real, lm: real, white: Duty, spent: nat)
    requires m.Valid() && WhitesMakeLight(m) && 0.0 <= f <= 1.0 && SumKept(m.lim, white)
    ensures SumKept(m.lim, Desaturated(m, f, w, p, y, lm, white, spent).duty)
  {
    hide AttemptAb, SumKept, Toward, Bisect;
    var probe := AtSaturation(m, f, w, p, y);
    forall t | probe(t).ok ensures SumKept(m.lim, probe(t).d) {
      AttemptKeepsSum(m, f, Toward(w, p, t), y);
    }
    BisectKeepsSum(m.lim, probe, Search(0.0, 1.0, white, spent), BISECT_STEPS);
  }

  lemma DimmedKeepsSum(m: Model, f: real, w: Point, y: real, lm: real, spent: nat)
    requires m.Valid() && WhitesMakeLight(m) && 0.0 <= f <= 1.0
    ensures SumKept(m.lim, Dimmed(m, f, w, y, lm, spent).duty)
  {
    DarkKeepsSum(m.lim);
    hide AttemptAb, SumKept, Times, Bisect;
    var probe := AtLumens(m, f, w, y);
    forall t | probe(t).ok ensures SumKept(m.lim, probe(t).d) {
      AttemptKeepsSum(m, f, w, Times(t, y));
    }
    BisectKeepsSum(m.lim, probe, Search(0.0, 1.0, DARK, spent), BISECT_STEPS + 2);
  }

  lemma FallbackKeepsSum(m: Model, f: real, p: Point, y: real, lm: real, spent: nat)
    requires m.Valid() && WhitesMakeLight(m) && 0.0 <= f <= 1.0 && 0.0 < y
    ensures SumKept(m.lim, Fallback(m, f, p, y, lm, spent).duty)
  {
    hide *;
    LemtoneWitness.FallbackParts(m, f, p, y, lm, spent);
    var anchor := WhiteAnchor(m, p, y);
    var white := AttemptAb(m, f, anchor.w, y);
    var total := spent + anchor.evals + white.evals;
    AttemptKeepsSum(m, f, anchor.w, y);
    if white.ok {
      DesaturatedKeepsSum(m, f, anchor.w, p, y, lm, white.d, total);
    } else {
      DimmedKeepsSum(m, f, anchor.w, y, lm, total);
    }
  }

  /** Whatever is asked and whatever the mode of the answer, the whites stay within their common cap. */
  lemma SolveKeepsSum(m: Model, a: real, b: real, lm: real, fidelity: real)
    requires m.Valid() && WhitesMakeLight(m)
    ensures SumKept(m.lim, SolveFree(m, a, b, lm, fidelity).duty)
  {
    DarkKeepsSum(m.lim);
    if lm > 0.000000001 {
      var f, y, p := Clamp01(fidelity), Luminance(m, lm), Point(a, b);
      LuminancePositive(m, lm);
      hide AttemptAb, Fallback, SumKept, Luminance;
      AttemptKeepsSum(m, f, p, y);
      FallbackKeepsSum(m, f, p, y, lm, AttemptAb(m, f, p, y).evals);
    }
  }
}
