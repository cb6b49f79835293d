/**
 The solver on a linear model, one whose primaries do not depend on the duties: it finds what there is
 to find, at the first try and exactly. There the tolerances and the limits on rounds play no part.
*/
module LemtoneLinearModel {
  import opened Numeric
  import opened Options
  import opened LemtoneLinear
  import opened LemtoneClosedForm
  import opened LemtoneExactness
  import opened LemtoneModel
  import opened LemtoneSolve
  import opened LemtoneSnap
  import opened LemtoneWhiteLine
  import LemtoneWitness

  ghost predicate Linear(m: Model) {
    forall d: Duty, sag: bool :: LocalPrims(m, d, sag) == m.prim
  }

  lemma NoError(tgt: Vec)
    requires 0.0 < tgt.y
    ensures Worst(tgt, tgt) < FIX_TOL * tgt.y
  {
  }

  /** Exact duties end the rounds at once. */
  lemma RoundsAtOnce(m: Model, tgt: Vec, at: Point, f: real, sag: bool, n: nat, d: Duty, evals: nat)
    requires Linear(m) && 0.0 < tgt.y && n > 0
    ensures var next := ClosedForm(m.lim, m.prim, tgt, at, f);
      var r := Rounds(m, tgt, at, f, sag, n, m.prim, d, evals);
      && (next.None? ==> !r.converged && !r.feasible && r.d == d)
      && (next.Some? && Light(next.value, m.prim) == tgt ==> r == RoundsResult(true, true, next.value, evals + 1))
  {
    NoError(tgt);
    hide ClosedForm, Light, LocalPrims, Worst;
  }

  /** The target can be made, on the split of the whites that its chromaticity asks for. */
  ghost predicate Reachable(m: Model, tgt: Vec) {
    exists d :: Makes(m.lim, m.prim, tgt, WhiteShare(m.prim, XyOf(tgt)), d)
  }

  /** What the closed form needs to be exact. */
  predicate Tractable(m: Model, tgt: Vec) {
    m.lim.Valid() && Regular(m.prim, tgt, XyOf(tgt)) && 0.0 <= WhiteShare(m.prim, XyOf(tgt)) <= 1.0
  }

  lemma ReachedExactly(m: Model, tgt: Vec, f: real)
    requires Tractable(m, tgt) && Reachable(m, tgt) && 0.0 <= f <= 1.0
    ensures var next := ClosedForm(m.lim, m.prim, tgt, XyOf(tgt), f);
      next.Some? && Makes(m.lim, m.prim, tgt, WhiteShare(m.prim, XyOf(tgt)), next.value)
  {
    hide *;
    TractableParts(m, tgt);
    MakeableIffInterval(m.lim, m.prim, tgt, XyOf(tgt));
    ReachableParts(m, tgt);
    ClosedFormExact(m.lim, m.prim, tgt, XyOf(tgt), f);
  }

  lemma TractableParts(m: Model, tgt: Vec)
    requires Tractable(m, tgt)
    ensures m.lim.Valid() && Regular(m.prim, tgt, XyOf(tgt)) && 0.0 <= WhiteShare(m.prim, XyOf(tgt)) <= 1.0
  {
  }

  lemma ReachableParts(m: Model, tgt: Vec)
    ensures Reachable(m, tgt) <==> exists d :: Makes(m.lim, m.prim, tgt, WhiteShare(m.prim, XyOf(tgt)), d)
  {
    hide Makes, WhiteShare, XyOf;
  }

  lemma MadeLight(lim: Limits, p: Prims, tgt: Vec, beta: real, d: Duty)
    requires Makes(lim, p, tgt, beta, d)
    ensures Light(d, p) == tgt
  {
  }

  /** On a linear model an attempt succeeds at every target that can be made, and with no error at all. */
  lemma AttemptReaches(m: Model, tgt: Vec, f: real)
    requires Linear(m) && Tractable(m, tgt) && RealColour(tgt) && 0.0 <= f <= 1.0
    ensures Reachable(m, tgt) ==>
              var t := Attempt(m, tgt, f); t.ok && Makes(m.lim, m.prim, tgt, WhiteShare(m.prim, XyOf(tgt)), t.d)
    ensures ClosedForm(m.lim, m.prim, tgt, XyOf(tgt), f).None? ==> !Attempt(m, tgt, f).ok
  {
    hide Tractable, Reachable, Rounds, Makes, WhiteShare, XyOf, ClosedForm, LocalPrims;
    var at := XyOf(tgt);
    RoundsAtOnce(m, tgt, at, f, false, PHASE1_ROUNDS, DARK, 0);
    var one := Rounds(m, tgt, at, f, false, PHASE1_ROUNDS, m.prim, DARK, 0);
    RoundsAtOnce(m, tgt, at, f, true, FIX_ROUNDS, one.d, one.evals);
    if Reachable(m, tgt) {
      ReachedExactly(m, tgt, f);
      MadeLight(m.lim, m.prim, tgt, WhiteShare(m.prim, at), ClosedForm(m.lim, m.prim, tgt, at, f).value);
    }
  }

  /**
   So the solver answers EXACT for every request that can be met on the split, with duties that make the
   asked colour and lumens without error, and the search for a substitute is never begun.
  */
  lemma SolvesWhatCanBeMade(m: Model, a: real, b: real, lm: real, fidelity: real, tgt: Vec)
    requires m.Valid() && Linear(m) && lm > 0.000000001
    requires OfColour(m, Point(a, b), Luminance(m, lm), tgt) && tgt.x >= 0.0 && tgt.z >= 0.0
    ensures Tractable(m, tgt) && Reachable(m, tgt) ==>
              var out := SolveFree(m, a, b, lm, fidelity);
              && out.mode == Exact && out.lm == lm && Legal(m.lim, out.duty) && Light(out.duty, m.prim) == tgt
  {
    LuminancePositive(m, lm);
    hide Tractable, Reachable, Luminance, OfColour, Attempt, TargetXyz;
    if Tractable(m, tgt) && Reachable(m, tgt) {
      AimedAt(m, Point(a, b), Luminance(m, lm), tgt);
      AttemptReaches(m, tgt, Clamp01(fidelity));
      hide *;
    }
  }

  lemma AimedAt(m: Model, ab: Point, y: real, tgt: Vec)
    requires OfColour(m, ab, y, tgt)
    ensures TargetXyz(m, ab, y) == Some(tgt) && tgt.y == y
  {
    TargetColour(m, ab, y);
    ColourIsUnique(m, ab, y, tgt, TargetXyz(m, ab, y).value);
    hide TargetXyz;
  }

  // ---- the whites alone ---------------------------------------------------------------------

  lemma LevelLight(m: Model, beta: real, we: real)
    requires Linear(m) && 0.0 <= beta <= 1.0 && 0.0 <= we
    ensures Forward(m, WhiteDuty(beta, we)).y == Times(we, WhiteMix(m.prim, beta).y)
  {
    ProductNonNegative(we, beta);
    ProductNonNegative(we, 1.0 - beta);
    ForwardIsLocalLight(m, WhiteDuty(beta, we));
    hide Forward, LocalPrims;
    MixLevel(m.prim, beta, we);
  }

  lemma MixLevel(p: Prims, beta: real, we: real)
    ensures Light(WhiteDuty(beta, we), p).y == Times(we, WhiteMix(p, beta).y)
  {
    WhiteLevel(p, beta, we);
    Commutes(we, WhiteMix(p, beta).y);
    hide Light, WhiteMix, WhiteDuty, Times;
  }

  lemma Commutes(x: real, y: real)
    ensures Times(x, y) == Times(y, x)
  {
  }

  lemma Corrected(cap: real, y: real, k: real)
    requires 0.0 < cap && 0.0 < y && 0.0 < Times(cap, k)
    ensures 0.0 <= Rescale(cap, y, Times(cap, k)) && Times(Rescale(cap, y, Times(cap, k)), k) == y
  {
    var full := Times(cap, k);
    var we := Rescale(cap, y, full);
    assert we * full == cap * y;
    ProductPositive(cap, y);
    QuotientBounds(0.0, cap * y, full);
    assert cap * (we * k - y) == 0.0;
  }

  /** One correction in proportion is right: the whites give the asked luminance, or all they can give. */
  lemma WhiteOnlyLands(m: Model, beta: real, y: real)
    requires m.Valid() && Linear(m) && 0.0 < y && 0.0 <= beta <= 1.0
    ensures var full := Forward(m, WhiteDuty(beta, WhiteCap(m.lim, beta))).y;
      Forward(m, WhiteOnly(m, beta, y).0).y == MinR(full, y)
  {
    var cap, k := WhiteCap(m.lim, beta), WhiteMix(m.prim, beta).y;
    LemtoneWitness.CapPositive(m.lim, beta);
    LevelLight(m, beta, cap);
    hide Forward, WhiteCap, WhiteMix, Times, Rescale, WhiteDuty;
    if Times(cap, k) > y {
      Corrected(cap, y, k);
      var we := Rescale(cap, y, Times(cap, k));
      LevelLight(m, beta, we);
    }
  }

  lemma LevelColour(p: Prims, beta: real, we: real)
    requires 0.0 < we && 0.0 < Total(WhiteMix(p, beta))
    ensures XyOf(Light(WhiteDuty(beta, we), p)) == XyOf(WhiteMix(p, beta))
  {
    var v := WhiteMix(p, beta);
    assert Light(WhiteDuty(beta, we), p) == Scale(we, v) by {
      WhiteLevel(p, beta, we);
    }
    hide WhiteMix, Light;
    ScaledXy(v, we);
  }

  lemma NoRgb(p: Prims)
    ensures RgbLight(Vec(0.0, 0.0, 0.0), p) == Vec(0.0, 0.0, 0.0)
  {
  }

  lemma WhiteLevel(p: Prims, beta: real, we: real)
    ensures Light(WhiteDuty(beta, we), p) == Scale(we, WhiteMix(p, beta))
  {
    NoRgb(p);
    OneLevel(p.cw.x, p.ww.x, beta, we);
    OneLevel(p.cw.y, p.ww.y, beta, we);
    OneLevel(p.cw.z, p.ww.z, beta, we);
    hide RgbLight, Pair, Times;
  }

  lemma OneLevel(u: real, v: real, beta: real, we: real)
    ensures Pair(we * (1.0 - beta), u, we * beta, v) == Times(Pair(1.0 - beta, u, beta, v), we)
  {
  }

  lemma ScaledXy(v: Vec, s: real)
    requires 0.0 < s && 0.0 < Total(v)
    ensures XyOf(Scale(s, v)) == XyOf(v)
  {
    ProductPositive(s, Total(v));
    assert Total(Scale(s, v)) == s * Total(v);
    SameRatio(v.x, Total(v), s);
    SameRatio(v.y, Total(v), s);
  }

  lemma SameRatio(x: real, y: real, s: real)
    requires 0.0 < y && 0.0 < s
    ensures 0.0 < s * y && x * s / (s * y) == x / y
  {
    ProductPositive(s, y);
    var z := x / y;
    assert z * (s * y) == x * s;
  }

  /**
   The white an unreachable colour moves toward is the chromaticity of a light the whites make: the asked
   luminance, or all they can, at the point of the white line nearest to the colour.
  */
  lemma AnchorIsWhiteLight(m: Model, at: Point, y: real) returns (light: Vec)
    requires m.Valid() && Linear(m) && 0.0 < y && AbToXyz(m, at).Some?
    requires 0.0 < Total(m.prim.cw) && 0.0 < Total(m.prim.ww)
    ensures WhiteAnchor(m, at, y).w == m.toAb(light)
    ensures light.y == MinR(Forward(m, WhiteDuty(AnchorShare(m, at), WhiteCap(m.lim, AnchorShare(m, at)))).y, y)
    ensures NearestOf(XyOf(m.prim.cw), XyOf(m.prim.ww), XyOf(AbToXyz(m, at).value), XyOf(light))
  {
    var beta := AnchorShare(m, at);
    AnchorShareInUnit(m, at);
    AnchorIsNearest(m, at);
    MixPositive(m.prim, beta);
    hide *;
    WhiteOnlyLands(m, beta, y);
    var level := WhiteOnlyLevel(m, beta, y);
    light := Forward(m, WhiteOnly(m, beta, y).0);
    AnchorParts(m, at, y);
    LinearForward(m, beta, level);
    LevelColour(m.prim, beta, level);
  }

  lemma AnchorParts(m: Model, at: Point, y: real)
    requires 0.0 < y
    ensures WhiteAnchor(m, at, y).w == m.toAb(Forward(m, WhiteOnly(m, AnchorShare(m, at), y).0))
  {
    hide Forward, WhiteOnly, AnchorShare;
  }

  lemma LinearForward(m: Model, beta: real, we: real)
    requires Linear(m) && 0.0 <= beta <= 1.0 && 0.0 <= we
    ensures Forward(m, WhiteDuty(beta, we)) == Light(WhiteDuty(beta, we), m.prim)
  {
    ProductNonNegative(we, beta);
    ProductNonNegative(we, 1.0 - beta);
    ForwardIsLocalLight(m, WhiteDuty(beta, we));
    hide Forward, LocalPrims, Light;
  }

  lemma AnchorShareInUnit(m: Model, at: Point)
    requires 0.0 <= Total(m.prim.cw) && 0.0 <= Total(m.prim.ww)
    ensures 0.0 <= AnchorShare(m, at) <= 1.0
  {
    hide XyOf, AbToXyz;
  }

  lemma MixPositive(p: Prims, beta: real)
    requires 0.0 < Total(p.cw) && 0.0 < Total(p.ww) && 0.0 <= beta <= 1.0
    ensures 0.0 < Total(WhiteMix(p, beta))
  {
    MixTotal(p, beta);
    hide Total, WhiteMix;
    if beta > 0.0 {
      ProductPositive(beta, Total(p.ww));
    }
    ProductNonNegative(1.0 - beta, Total(p.cw));
  }

  lemma WhiteOnlyLevel(m: Model, beta: real, y: real) returns (level: real)
    requires m.Valid() && 0.0 < y && 0.0 <= beta <= 1.0
    ensures 0.0 < level && WhiteOnly(m, beta, y).0 == WhiteDuty(beta, level)
  {
    var cap := WhiteCap(m.lim, beta);
    LemtoneWitness.CapPositive(m.lim, beta);
    hide Forward, WhiteCap, WhiteRounds, Rescale, WhiteDuty;
    var full := Forward(m, WhiteDuty(beta, cap)).y;
    level := cap;
    if full > y {
      LemtoneWitness.ShrinkingRatio(cap, y, full);
      level := LemtoneWitness.WhiteRoundsLevel(m, beta, y, cap, Rescale(cap, y, full), WHITE_ROUNDS, 1);
    }
  }

  // ---- r, g, b for given whites ---------------------------------------------------------------

  /** r, g, b duties v in range complete the whites of d to the light tgt. */
  predicate Completes(m: Model, tgt: Vec, d: Duty, v: Vec) {
    && 0.0 <= v.x <= m.lim.dutyMax && 0.0 <= v.y <= m.lim.dutyMax && 0.0 <= v.z <= m.lim.dutyMax
    && Light(Duty(v.x, v.y, v.z, d.ww, d.cw), m.prim) == tgt
  }

  lemma NextRgb(m: Model, tgt: Vec, d: Duty, v: Vec)
    requires !Singular(m.prim) && Completes(m, tgt, d, v)
    ensures ClampRgb(Mul(InvRgb(m.prim), Remainder(tgt, d, m.prim)), d, m.lim.dutyMax) == Duty(v.x, v.y, v.z, d.ww, d.cw)
  {
    RemainderIs(m.prim, tgt, d, v);
    RecoversRgb(m.prim, v);
    hide Singular, InvRgb, Mul, Remainder, RgbLight, Light;
  }

  lemma RemainderIs(p: Prims, tgt: Vec, d: Duty, v: Vec)
    requires Light(Duty(v.x, v.y, v.z, d.ww, d.cw), p) == tgt
    ensures Remainder(tgt, d, p) == RgbLight(v, p)
  {
    hide RgbLight, WhiteLight;
  }

  /** One round, on a linear model whose r, g, b can complete the whites. */
  lemma OneRound(m: Model, tgt: Vec, d: Duty, v: Vec, n: nat, evals: nat)
    requires Linear(m) && !Singular(m.prim) && Completes(m, tgt, d, v) && n > 0
    ensures var next := Duty(v.x, v.y, v.z, d.ww, d.cw);
      RgbRounds(m, tgt, d, n, evals)
      == if RgbStep(d, next) < 0.00001 then (next, evals + 1) else RgbRounds(m, tgt, next, n - 1, evals + 1)
  {
    NextRgb(m, tgt, d, v);
    hide LocalPrims, Singular, InvRgb, Mul, Remainder, ClampRgb, Light, RgbStep;
  }

  lemma StaysPut(m: Model, tgt: Vec, d: Duty, v: Vec, n: nat, evals: nat)
    requires Linear(m) && !Singular(m.prim) && Completes(m, tgt, d, v) && d == Duty(v.x, v.y, v.z, d.ww, d.cw) && n > 0
    ensures RgbRounds(m, tgt, d, n, evals) == (d, evals + 1)
  {
    OneRound(m, tgt, d, v, n, evals);
    hide RgbRounds, Completes, Singular;
  }

  lemma NoMiss(u: Vec)
    ensures Worst(u, u) == 0.0
  {
  }

  lemma SameCompletion(m: Model, tgt: Vec, d: Duty, v: Vec)
    requires Completes(m, tgt, d, v)
    ensures Completes(m, tgt, Duty(v.x, v.y, v.z, d.ww, d.cw), v)
  {
    hide Light;
  }

  lemma RoundsComplete(m: Model, tgt: Vec, d: Duty, v: Vec)
    requires Linear(m) && !Singular(m.prim) && Completes(m, tgt, d, v)
    ensures var r := RgbRounds(m, tgt, d, FIX_ROUNDS, 0); r.0 == Duty(v.x, v.y, v.z, d.ww, d.cw) && r.1 <= 2
  {
    SameCompletion(m, tgt, d, v);
    OneRound(m, tgt, d, v, FIX_ROUNDS, 0);
    hide RgbRounds, Completes, Singular, Linear, RgbStep;
    StaysPut(m, tgt, Duty(v.x, v.y, v.z, d.ww, d.cw), v, FIX_ROUNDS - 1, 1);
  }

  lemma CompletedLight(m: Model, tgt: Vec, d: Duty, v: Vec)
    requires Linear(m) && 0.0 <= d.ww && 0.0 <= d.cw && Completes(m, tgt, d, v)
    ensures Forward(m, Duty(v.x, v.y, v.z, d.ww, d.cw)) == tgt
  {
    ForwardIsLocalLight(m, Duty(v.x, v.y, v.z, d.ww, d.cw));
    hide Forward, Light, LocalPrims;
  }

  /** Whites that r, g, b can complete are completed, without error and at no more than three evaluations. */
  lemma CompletesExactly(m: Model, tgt: Vec, d: Duty, v: Vec)
    requires m.Valid() && Linear(m) && !Singular(m.prim) && 0.0 <= d.ww && 0.0 <= d.cw && Completes(m, tgt, d, v)
    ensures RgbForWhites(m, tgt, d) == Completion(Duty(v.x, v.y, v.z, d.ww, d.cw), 0.0, RgbForWhites(m, tgt, d).evals)
    ensures RgbForWhites(m, tgt, d).evals <= 3
  {
    hide Linear, Singular, Completes, Forward, Worst, RgbRounds;
    RoundsComplete(m, tgt, d, v);
    CompletedLight(m, tgt, d, v);
    NoMiss(tgt);
  }
}
