/**
 Every answer of the solver carries its witness: which light the duties make, and what the
 next step of the search that was given up would have been.
*/
module LemtoneWitness {
  import opened Numeric
  import opened Options
  import opened LemtoneLinear
  import opened LemtoneClosedForm
  import opened LemtoneExactness
  import opened LemtoneModel
  import opened LemtoneSolve

  predicate InCap(m: Model, d: Duty) {
    && 0.0 <= d.r <= m.lim.dutyMax && 0.0 <= d.g <= m.lim.dutyMax && 0.0 <= d.b <= m.lim.dutyMax
    && 0.0 <= d.ww <= m.lim.dutyMax && 0.0 <= d.cw <= m.lim.dutyMax
  }

  /** The full forward model, sag included, puts d within the solver's tolerance of tgt. */
  predicate Hits(m: Model, tgt: Vec, d: Duty) {
    InCap(m, d) && Within(Forward(m, d), tgt, FIX_TOL * tgt.y)
  }

  /** d makes colour ab, a real one, at luminance y: each XYZ component is within the tolerance of that colour's. */
  ghost predicate Shows(m: Model, ab: Point, y: real, d: Duty) {
    exists t: Vec :: OfColour(m, ab, y, t) && 0.0 <= t.x && 0.0 < t.y && 0.0 <= t.z && Hits(m, t, d)
  }

  lemma ClosedFormInCap(m: Model, p: Prims, tgt: Vec, at: Point, f: real)
    requires m.Valid() && ClosedForm(m.lim, p, tgt, at, f).Some?
    ensures InCap(m, ClosedForm(m.lim, p, tgt, at, f).value)
  {
    hide Singular, Prepare, Levels, Level, Rest, Warm, Cold;
  }

  lemma LandedHits(m: Model, tgt: Vec, d: Duty)
    requires m.Valid() && InCap(m, d) && 0.0 < tgt.y
    requires Worst(tgt, Light(d, LocalPrims(m, d, true))) < FIX_TOL * tgt.y
    ensures Hits(m, tgt, d)
  {
    hide Light, LocalPrims, Forward, Worst;
    ForwardIsLocalLight(m, d);
    WorstBounds(tgt, Forward(m, d), FIX_TOL * tgt.y);
  }

  lemma {:induction false} RoundsHit(m: Model, tgt: Vec, at: Point, f: real, sag: bool, n: nat, p: Prims, d: Duty, evals: nat)
    requires m.Valid() && 0.0 < tgt.y
    ensures var r := Rounds(m, tgt, at, f, sag, n, p, d, evals);
      r.evals <= evals + n && (sag && r.converged ==> Hits(m, tgt, r.d))
    decreases n
  {
    hide ClosedForm, LocalPrims, Light, Worst, Hits, InCap;
    var next := ClosedForm(m.lim, p, tgt, at, f);
    if n > 0 && next.Some? {
      var q := LocalPrims(m, next.value, sag);
      ClosedFormInCap(m, p, tgt, at, f);
      if Worst(tgt, Light(next.value, q)) < FIX_TOL * tgt.y {
        if sag {
          LandedHits(m, tgt, next.value);
        }
      } else {
        RoundsHit(m, tgt, at, f, sag, n - 1, q, next.value, evals + 1);
      }
    }
  }

  lemma AttemptHits(m: Model, tgt: Vec, f: real)
    requires m.Valid()
    ensures var t := Attempt(m, tgt, f);
      t.evals <= 18 && (t.ok ==> 0.0 <= tgt.x && 0.0 < tgt.y && 0.0 <= tgt.z && Hits(m, tgt, t.d))
  {
    if RealColour(tgt) {
      hide Rounds, Hits, LocalPrims, XyOf;
      var at := XyOf(tgt);
      var one := Rounds(m, tgt, at, f, false, PHASE1_ROUNDS, m.prim, DARK, 0);
      RoundsHit(m, tgt, at, f, false, PHASE1_ROUNDS, m.prim, DARK, 0);
      var p := if one.feasible then LocalPrims(m, one.d, true) else m.prim;
      RoundsHit(m, tgt, at, f, true, FIX_ROUNDS, p, one.d, one.evals);
    }
  }

  lemma AttemptAbHits(m: Model, f: real, ab: Point, y: real)
    requires m.Valid()
    ensures var t := AttemptAb(m, f, ab, y);
      t.evals <= 18 && (t.ok ==> 0.0 < y && Shows(m, ab, y, t.d))
  {
    hide TargetXyz, Attempt, Hits;
    var tgt := TargetXyz(m, ab, y);
    if tgt.Some? {
      TargetColour(m, ab, y);
      AttemptHits(m, tgt.value, f);
    }
  }

  // ---- bisection --------------------------------------------------------------------------

  function Halves(n: nat): real {
    if n == 0 then 1.0 else Halves(n - 1) / 2.0
  }

  /** The best duties are the ones found at lo, or lo never moved. */
  predicate BestAtLo(probe: real -> Try, start: Search, s: Search) {
    (s.lo == start.lo && s.best == start.best) || (probe(s.lo).ok && s.best == probe(s.lo).d)
  }

  ghost predicate Cheap(probe: real -> Try) {
    forall t :: probe(t).evals <= 18
  }

  /** n steps leave an interval 2^-n as long whose lower end succeeded and whose upper end failed. */
  lemma {:induction false} BisectBrackets(probe: real -> Try, start: Search, s: Search, n: nat)
    requires s.lo < s.hi && !probe(s.hi).ok && BestAtLo(probe, start, s) && Cheap(probe)
    ensures var r := Bisect(probe, s, n);
      && s.lo <= r.lo < r.hi <= s.hi
      && r.hi - r.lo == (s.hi - s.lo) * Halves(n)
      && !probe(r.hi).ok && BestAtLo(probe, start, r)
      && r.evals <= s.evals + 18 * n
    decreases n
  {
    if n > 0 {
      var next := Probe(s, probe(Mid(s)));
      BisectBrackets(probe, start, next, n - 1);
      assert next.hi - next.lo == (s.hi - s.lo) / 2.0;
      HalfWidth(s.hi - s.lo, next.hi - next.lo, Halves(n - 1));
    }
  }

  lemma HalfWidth(w: real, half: real, h: real)
    requires half == w / 2.0
    ensures half * h == w * (h / 2.0)
  {
  }

  lemma Halves10()
    ensures Halves(10) == 1.0 / 1024.0 && Halves(12) == 1.0 / 4096.0
  {
    assert Halves(2) == 0.25;
    assert Halves(4) == 0.0625;
    assert Halves(6) == 1.0 / 64.0;
    assert Halves(8) == 1.0 / 256.0;
    assert Halves(10) == 1.0 / 1024.0;
  }

  lemma {:induction false} WhiteRoundsCost(m: Model, beta: real, y: real, cap: real, we: real, n: nat, evals: nat)
    ensures WhiteRounds(m, beta, y, cap, we, n, evals).1 <= evals + n
    decreases n
  {
    hide Forward, WhiteDuty;
    if n > 0 {
      var got := Forward(m, WhiteDuty(beta, we)).y;
      if !(AbsR(got - y) < FIX_TOL * y || !(got > 0.0)) {
        WhiteRoundsCost(m, beta, y, cap, MinR(cap, Rescale(we, y, got)), n - 1, evals + 1);
      }
    }
  }

  lemma {:induction false} WhiteRoundsLevel(m: Model, beta: real, y: real, cap: real, we: real, n: nat, evals: nat)
    returns (level: real)
    requires 0.0 < y && 0.0 < we <= cap
    ensures 0.0 < level <= cap && WhiteRounds(m, beta, y, cap, we, n, evals).0 == WhiteDuty(beta, level)
    decreases n
  {
    hide Forward, WhiteDuty;
    level := we;
    if n > 0 {
      var got := Forward(m, WhiteDuty(beta, we)).y;
      if !(AbsR(got - y) < FIX_TOL * y || !(got > 0.0)) {
        ProductPositive(we, y);
        PositiveRatio(we * y, got);
        level := WhiteRoundsLevel(m, beta, y, cap, MinR(cap, Rescale(we, y, got)), n - 1, evals + 1);
      }
    }
  }

  lemma PositiveRatio(n: real, q: real)
    requires 0.0 < n && 0.0 < q
    ensures 0.0 < n / q
  {
  }

  lemma ShrinkingRatio(cap: real, y: real, full: real)
    requires 0.0 < cap && 0.0 < y < full
    ensures 0.0 < Rescale(cap, y, full) <= cap
  {
    ProductPositive(cap, y);
    PositiveRatio(cap * y, full);
    ProductPositive(cap, full - y);
    assert cap * (full - y) == cap * full - cap * y;
    QuotientBounds(cap, cap * y, full);
  }

  lemma LevelIsLegal(m: Model, beta: real, level: real)
    requires m.Valid() && 0.0 <= beta <= 1.0 && 0.0 <= level <= WhiteCap(m.lim, beta)
    ensures Legal(m.lim, WhiteDuty(beta, level)) && OnSplit(WhiteDuty(beta, level), beta)
  {
    WhiteCapIsExact(m.lim, beta, level);
    hide WhiteCap;
    ProductNonNegative(level, beta);
    ProductNonNegative(level, 1.0 - beta);
    assert level * beta + level * (1.0 - beta) == level;
  }

  /** The anchor's whites are legal and on their split, and dimmed only if full level is more than asked. */
  lemma WhiteOnlyIsLegal(m: Model, beta: real, y: real)
    requires m.Valid() && 0.0 < y && 0.0 <= beta <= 1.0
    ensures var d := WhiteOnly(m, beta, y).0;
      && Legal(m.lim, d) && OnSplit(d, beta) && d.r == 0.0 && d.g == 0.0 && d.b == 0.0
      && (Forward(m, WhiteDuty(beta, WhiteCap(m.lim, beta))).y <= y ==> d == WhiteDuty(beta, WhiteCap(m.lim, beta)))
  {
    var cap := WhiteCap(m.lim, beta);
    CapPositive(m.lim, beta);
    hide Forward, WhiteCap, WhiteRounds, Rescale;
    var full := Forward(m, WhiteDuty(beta, cap)).y;
    var level := cap;
    if full > y {
      ShrinkingRatio(cap, y, full);
      level := WhiteRoundsLevel(m, beta, y, cap, Rescale(cap, y, full), WHITE_ROUNDS, 1);
    }
    LevelIsLegal(m, beta, level);
  }

  lemma CapPositive(lim: Limits, beta: real)
    requires lim.Valid()
    ensures 0.0 < WhiteCap(lim, beta)
  {
    PositiveRatio(lim.dutyMax, MaxR(MaxR(beta, 1.0 - beta), EPS));
  }

  lemma AnchorCost(m: Model, at: Point, y: real)
    requires 0.0 < y
    ensures WhiteAnchor(m, at, y).evals <= 10
  {
    hide Forward, WhiteRounds, AnchorShare;
    var beta := AnchorShare(m, at);
    var cap := WhiteCap(m.lim, beta);
    var full := Forward(m, WhiteDuty(beta, cap)).y;
    if full > y {
      WhiteRoundsCost(m, beta, y, cap, Rescale(cap, y, full), WHITE_ROUNDS, 1);
    }
  }

  // ---- the answers ------------------------------------------------------------------------

  /** Saturation lo works with duties d; 2^-10 more of it does not. */
  ghost predicate DesatBracket(m: Model, f: real, w: Point, p: Point, y: real, lo: real, d: Duty) {
    && 0.0 <= lo <= 1.0 - 1.0 / 1024.0
    && Shows(m, Toward(w, p, lo), y, d)
    && !AttemptAb(m, f, Toward(w, p, lo + 1.0 / 1024.0), y).ok
  }

  lemma SaturationEnds(w: Point, p: Point)
    ensures Toward(w, p, 0.0) == w && Toward(w, p, 1.0) == p
  {
  }

  lemma DesatSearch(m: Model, f: real, w: Point, p: Point, y: real, spent: nat)
    requires m.Valid() && !AttemptAb(m, f, p, y).ok && AttemptAb(m, f, w, y).ok
    ensures var s := Bisect(AtSaturation(m, f, w, p, y), Search(0.0, 1.0, AttemptAb(m, f, w, y).d, spent), BISECT_STEPS);
      && DesatBracket(m, f, w, p, y, s.lo, s.best)
      && s.evals <= spent + 180
  {
    hide AttemptAb, Shows, Toward, Bisect, Halves;
    SaturationEnds(w, p);
    var probe := AtSaturation(m, f, w, p, y);
    var start := Search(0.0, 1.0, AttemptAb(m, f, w, y).d, spent);
    forall t ensures probe(t).evals <= 18 {
      AttemptAbHits(m, f, Toward(w, p, t), y);
    }
    BisectBrackets(probe, start, start, BISECT_STEPS);
    Halves10();
    AttemptAbHits(m, f, Toward(w, p, Bisect(probe, start, BISECT_STEPS).lo), y);
  }

  lemma DimSearch(m: Model, f: real, w: Point, y: real, spent: nat)
    requires m.Valid() && !AttemptAb(m, f, w, y).ok
    ensures var s := Bisect(AtLumens(m, f, w, y), Search(0.0, 1.0, DARK, spent), BISECT_STEPS + 2);
      && 0.0 <= s.lo < s.hi <= 1.0 && s.hi - s.lo == 1.0 / 4096.0
      && (s.lo > 0.0 ==> Shows(m, w, Times(s.lo, y), s.best))
      && (s.lo == 0.0 ==> s.best == DARK)
      && !AttemptAb(m, f, w, Times(s.hi, y)).ok
      && s.evals <= spent + 216
  {
    hide AttemptAb, Shows, Bisect, Halves;
    var probe := AtLumens(m, f, w, y);
    var start := Search(0.0, 1.0, DARK, spent);
    assert Times(1.0, y) == y && Times(0.0, y) == 0.0;
    forall t ensures probe(t).evals <= 18 {
      AttemptAbHits(m, f, w, Times(t, y));
    }
    AttemptAbHits(m, f, w, 0.0);
    hide Times;
    BisectBrackets(probe, start, start, BISECT_STEPS + 2);
    Halves10();
    AttemptAbHits(m, f, w, Times(Bisect(probe, start, BISECT_STEPS + 2).lo, y));
  }

  /** Lumens kept, colour moved toward the anchor w: saturation 1 - desat works, 2^-10 more does not. */
  ghost predicate DesatWitness(m: Model, f: real, w: Point, p: Point, lm: real, out: Solution)
    requires m.Valid()
  {
    out.lm == lm && DesatBracket(m, f, w, p, Luminance(m, lm), 1.0 - out.desat, out.duty)
  }

  /** The anchor w at fewer lumens: out.lm works (or nothing does), 2^-12 of the request more does not. */
  ghost predicate ClampWitness(m: Model, f: real, w: Point, lm: real, out: Solution)
    requires m.Valid()
  {
    && out.desat == 1.0 && 0.0 <= out.lm < lm
    && (out.lm > 0.0 ==> Shows(m, w, Luminance(m, out.lm), out.duty))
    && (out.lm == 0.0 ==> out.duty == DARK)
    && !AttemptAb(m, f, w, Luminance(m, out.lm + lm / 4096.0)).ok
  }

  /** What the solver promises of an answer, mode by mode, before the whites are snapped; y is the lumens' luminance. */
  ghost predicate Witnessed(m: Model, a: real, b: real, lm: real, fidelity: real, out: Solution)
    requires m.Valid()
  {
    var f, y, p := Clamp01(fidelity), Luminance(m, lm), Point(a, b);
    Times(y, m.lmPerY) == lm &&
    match out.mode
    case Off => !(lm > 0.000000001) && out.duty == DARK && out.lm == 0.0
    case Exact => out.lm == lm && out.desat == 0.0 && Shows(m, p, y, out.duty)
    case Desat => y > 0.0 && !AttemptAb(m, f, p, y).ok && DesatWitness(m, f, WhiteAnchor(m, p, y).w, p, lm, out)
    case Clamp => y > 0.0 && !AttemptAb(m, f, p, y).ok && ClampWitness(m, f, WhiteAnchor(m, p, y).w, lm, out)
  }

  lemma Ratio(q: real, n: real, per: real)
    requires 0.0 < per && q * per == n
    ensures n / per == q
  {
  }

  lemma LumenFraction(m: Model, t: real, lm: real)
    requires m.Valid()
    ensures Times(t, Luminance(m, lm)) == Luminance(m, Times(t, lm))
  {
    var y := Luminance(m, lm);
    assert y * m.lmPerY == lm;
    assert t * y * m.lmPerY == t * lm;
    Ratio(t * y, t * lm, m.lmPerY);
  }

  lemma StrictFraction(t: real, lm: real)
    requires 0.0 < lm && 0.0 <= t < 1.0
    ensures 0.0 <= Times(t, lm) < lm && (Times(t, lm) == 0.0 <==> t == 0.0)
  {
    ProductPositive(1.0 - t, lm);
    assert (1.0 - t) * lm == lm - Times(t, lm);
    if t > 0.0 {
      ProductPositive(t, lm);
    }
  }

  lemma LumenStep(lo: real, hi: real, lm: real)
    requires hi - lo == 1.0 / 4096.0
    ensures Times(hi, lm) == Times(lo, lm) + lm / 4096.0
  {
    assert (hi - lo) * lm == lm / 4096.0;
  }

  lemma DesaturatedIsWitnessed(m: Model, f: real, w: Point, p: Point, lm: real, spent: nat)
    requires m.Valid()
    requires var y := Luminance(m, lm); !AttemptAb(m, f, p, y).ok && AttemptAb(m, f, w, y).ok
    ensures var y := Luminance(m, lm); var out := Desaturated(m, f, w, p, y, lm, AttemptAb(m, f, w, y).d, spent);
      && out.mode == Desat && DesatWitness(m, f, w, p, lm, out)
      && out.evals <= spent + 180
  {
    hide AttemptAb, Bisect, DesatBracket, AtSaturation, Luminance;
    DesatSearch(m, f, w, p, Luminance(m, lm), spent);
  }

  lemma DimmedIsWitnessed(m: Model, f: real, w: Point, lm: real, spent: nat)
    requires m.Valid() && 0.0 < lm && !AttemptAb(m, f, w, Luminance(m, lm)).ok
    ensures var out := Dimmed(m, f, w, Luminance(m, lm), lm, spent);
      && out.mode == Clamp && ClampWitness(m, f, w, lm, out)
      && out.evals <= spent + 216
  {
    hide AttemptAb, Bisect, Shows, AtLumens, Times, Luminance;
    var y := Luminance(m, lm);
    DimSearch(m, f, w, y, spent);
    var s := Bisect(AtLumens(m, f, w, y), Search(0.0, 1.0, DARK, spent), BISECT_STEPS + 2);
    StrictFraction(s.lo, lm);
    LumenStep(s.lo, s.hi, lm);
    LumenFraction(m, s.lo, lm);
    LumenFraction(m, s.hi, lm);
  }

  /** An answer and its price. */
  ghost predicate Answers(m: Model, a: real, b: real, lm: real, fidelity: real, out: Solution)
    requires m.Valid()
  {
    Witnessed(m, a, b, lm, fidelity, out) && out.evals <= if out.mode.Clamp? then 262 else 226
  }

  lemma FallbackParts(m: Model, f: real, p: Point, y: real, lm: real, spent: nat)
    requires 0.0 < y
    ensures var anchor := WhiteAnchor(m, p, y);
      var white := AttemptAb(m, f, anchor.w, y);
      var total := spent + anchor.evals + white.evals;
      Fallback(m, f, p, y, lm, spent)
      == if white.ok then Desaturated(m, f, anchor.w, p, y, lm, white.d, total) else Dimmed(m, f, anchor.w, y, lm, total)
  {
    hide WhiteAnchor, AttemptAb, Desaturated, Dimmed;
  }

  ghost predicate FallbackGood(m: Model, f: real, w: Point, p: Point, lm: real, out: Solution)
    requires m.Valid()
  {
    || (out.mode.Desat? && DesatWitness(m, f, w, p, lm, out) && out.evals <= 226)
    || (out.mode.Clamp? && ClampWitness(m, f, w, lm, out) && out.evals <= 262)
  }

  lemma FallbackGoodIntro(m: Model, f: real, w: Point, p: Point, lm: real, out: Solution)
    requires m.Valid()
    ensures out.mode.Desat? && DesatWitness(m, f, w, p, lm, out) && out.evals <= 226 ==> FallbackGood(m, f, w, p, lm, out)
    ensures out.mode.Clamp? && ClampWitness(m, f, w, lm, out) && out.evals <= 262 ==> FallbackGood(m, f, w, p, lm, out)
  {
    hide DesatWitness, ClampWitness;
  }

  lemma FallbackAnswers(m: Model, f: real, p: Point, lm: real, y: real, spent: nat)
    requires m.Valid() && 0.0 < lm && 0.0 < y && y == Luminance(m, lm) && spent <= 18
    ensures !AttemptAb(m, f, p, y).ok ==>
              FallbackGood(m, f, WhiteAnchor(m, p, y).w, p, lm, Fallback(m, f, p, y, lm, spent))
  {
    hide *;
    if AttemptAb(m, f, p, y).ok {
      return;
    }
    FallbackParts(m, f, p, y, lm, spent);
    var anchor := WhiteAnchor(m, p, y);
    AnchorCost(m, p, y);
    AttemptAbHits(m, f, anchor.w, y);
    var white := AttemptAb(m, f, anchor.w, y);
    var total := spent + anchor.evals + white.evals;
    assert total <= 46;
    if white.ok {
      DesaturatedIsWitnessed(m, f, anchor.w, p, lm, total);
      FallbackGoodIntro(m, f, anchor.w, p, lm, Fallback(m, f, p, y, lm, spent));
    } else {
      DimmedIsWitnessed(m, f, anchor.w, lm, total);
      FallbackGoodIntro(m, f, anchor.w, p, lm, Fallback(m, f, p, y, lm, spent));
    }
  }

  lemma SolveParts(m: Model, a: real, b: real, lm: real, fidelity: real)
    requires m.Valid() && lm > 0.000000001
    ensures 0.0 < Luminance(m, lm)
    ensures var f, y, p := Clamp01(fidelity), Luminance(m, lm), Point(a, b);
      var first := AttemptAb(m, f, p, y);
      SolveFree(m, a, b, lm, fidelity)
      == if first.ok then Solution(first.d, Exact, 0.0, lm, first.evals) else Fallback(m, f, p, y, lm, first.evals)
  {
    LuminancePositive(m, lm);
    hide AttemptAb, Fallback, Luminance, Clamp01;
  }

  lemma AnswersIfExact(m: Model, a: real, b: real, lm: real, fidelity: real, d: Duty, evals: nat)
    requires m.Valid() && evals <= 226
    ensures Shows(m, Point(a, b), Luminance(m, lm), d) ==> Answers(m, a, b, lm, fidelity, Solution(d, Exact, 0.0, lm, evals))
  {
    LuminanceIsLumens(m, lm);
    hide Shows, Luminance, Clamp01;
  }

  lemma AnswersIfFallback(m: Model, a: real, b: real, lm: real, fidelity: real, out: Solution)
    requires m.Valid() && 0.0 < Luminance(m, lm)
    ensures var f, y, p := Clamp01(fidelity), Luminance(m, lm), Point(a, b);
      !AttemptAb(m, f, p, y).ok && FallbackGood(m, f, WhiteAnchor(m, p, y).w, p, lm, out) ==> Answers(m, a, b, lm, fidelity, out)
  {
    LuminanceIsLumens(m, lm);
    hide AttemptAb, WhiteAnchor, DesatWitness, ClampWitness, Luminance, Clamp01;
  }

  lemma SolveAnswers(m: Model, a: real, b: real, lm: real, fidelity: real)
    requires m.Valid()
    ensures Answers(m, a, b, lm, fidelity, SolveFree(m, a, b, lm, fidelity))
  {
    LuminanceIsLumens(m, lm);
    if lm > 0.000000001 {
      hide *;
      var f, y, p := Clamp01(fidelity), Luminance(m, lm), Point(a, b);
      SolveParts(m, a, b, lm, fidelity);
      AttemptAbHits(m, f, p, y);
      var first := AttemptAb(m, f, p, y);
      if first.ok {
        AnswersIfExact(m, a, b, lm, fidelity, first.d, first.evals);
      } else {
        FallbackAnswers(m, f, p, lm, y, first.evals);
        AnswersIfFallback(m, a, b, lm, fidelity, Fallback(m, f, p, y, lm, first.evals));
      }
    }
  }
}
