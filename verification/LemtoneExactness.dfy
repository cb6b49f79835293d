/**
 The closed form is exact and complete over the reals: it gives the target at every fidelity,
 refuses only targets no legal white level reaches, and its fidelities run through every
 legal duty vector on the white split that makes the target.
*/
module LemtoneExactness {
  import opened Numeric
  import opened Options
  import opened LemtoneLinear
  import opened LemtoneClosedForm

  predicate Legal(lim: Limits, d: Duty) {
    && 0.0 <= d.r <= lim.dutyMax && 0.0 <= d.g <= lim.dutyMax && 0.0 <= d.b <= lim.dutyMax
    && 0.0 <= d.ww <= lim.dutyMax && 0.0 <= d.cw <= lim.dutyMax
    && (lim.whiteSumMax > 0.0 ==> d.ww + d.cw <= lim.whiteSumMax)
  }

  /** The warm share of the white duty is beta. */
  predicate OnSplit(d: Duty, beta: real) {
    d.ww == (d.ww + d.cw) * beta
  }

  /** d is a way of making the target that the closed form is after. */
  predicate Makes(lim: Limits, p: Prims, tgt: Vec, beta: real, d: Duty) {
    Legal(lim, d) && OnSplit(d, beta) && Light(d, p) == tgt
  }

  // ---- linearity ------------------------------------------------------------------------

  function Minus(u: Vec, we: real, v: Vec): Vec {
    Vec(Rest(u.x, we, v.x), Rest(u.y, we, v.y), Rest(u.z, we, v.z))
  }

  lemma LinAffine(a: real, b: real, c: real, u: Vec, v: Vec, we: real)
    ensures Lin(a, b, c, Rest(u.x, we, v.x), Rest(u.y, we, v.y), Rest(u.z, we, v.z))
         == Rest(Lin(a, b, c, u.x, u.y, u.z), we, Lin(a, b, c, v.x, v.y, v.z))
  {
  }

  lemma MulAffine(m: Mat, u: Vec, v: Vec, we: real)
    ensures Mul(m, Minus(u, we, v)) == Minus(Mul(m, u), we, Mul(m, v))
  {
    hide Lin, Rest;
    LinAffine(m.r0.x, m.r0.y, m.r0.z, u, v, we);
    LinAffine(m.r1.x, m.r1.y, m.r1.z, u, v, we);
    LinAffine(m.r2.x, m.r2.y, m.r2.z, u, v, we);
  }

  lemma RgbLightAffine(p: Prims, u: Vec, v: Vec, we: real)
    ensures RgbLight(Minus(u, we, v), p) == Minus(RgbLight(u, p), we, RgbLight(v, p))
  {
    hide Lin, Rest;
    LinAffine(p.r.x, p.g.x, p.b.x, u, v, we);
    LinAffine(p.r.y, p.g.y, p.b.y, u, v, we);
    LinAffine(p.r.z, p.g.z, p.b.z, u, v, we);
  }

  lemma WhitePart(c: real, w: real, beta: real, we: real)
    ensures Pair(Cold(we, beta), c, Warm(we, beta), w) == Times(Pair(1.0 - beta, c, beta, w), we)
  {
  }

  lemma WhiteLightScales(p: Prims, beta: real, we: real)
    ensures WhiteLight(Warm(we, beta), Cold(we, beta), p) == Scale(we, WhiteMix(p, beta))
  {
    hide Warm, Cold, Pair, Times;
    WhitePart(p.cw.x, p.ww.x, beta, we);
    WhitePart(p.cw.y, p.ww.y, beta, we);
    WhitePart(p.cw.z, p.ww.z, beta, we);
  }

  lemma PrepareParts(p: Prims, tgt: Vec, at: Point)
    requires !Singular(p)
    ensures var s := Prepare(p, tgt, at);
      && s.beta == WhiteShare(p, at)
      && s.a == Mul(InvRgb(p), tgt)
      && s.b == Mul(InvRgb(p), WhiteMix(p, s.beta))
  {
    hide WhiteShare, Mul, InvRgb, WhiteMix, Singular;
  }

  lemma LightParts(v: Vec, ww: real, cw: real, p: Prims)
    ensures Light(Duty(v.x, v.y, v.z, ww, cw), p) == Add(RgbLight(v, p), WhiteLight(ww, cw, p))
  {
    hide RgbLight, WhiteLight, Add;
  }

  lemma Regains(w: Vec, u: Vec, v: Vec, we: real)
    ensures Add(w, Scale(we, v)) == u <==> w == Minus(u, we, v)
  {
  }

  lemma ColdOfSplit(d: Duty, beta: real)
    ensures OnSplit(d, beta) <==> d.ww == Warm(d.ww + d.cw, beta) && d.cw == Cold(d.ww + d.cw, beta)
  {
    var we := d.ww + d.cw;
    assert we * (1.0 - beta) == we - we * beta;
  }

  /** Unclamped, every white level gives the target exactly. */
  lemma EveryLevelMakesTarget(p: Prims, tgt: Vec, at: Point, we: real)
    requires !Singular(p)
    ensures var s := Prepare(p, tgt, at); var v := Minus(s.a, we, s.b);
      Light(Duty(v.x, v.y, v.z, Warm(we, s.beta), Cold(we, s.beta)), p) == tgt
  {
    hide *;
    var s := Prepare(p, tgt, at);
    var v := Minus(s.a, we, s.b);
    PrepareParts(p, tgt, at);
    RgbLightAffine(p, s.a, s.b, we);
    SolvesRgb(p, tgt);
    SolvesRgb(p, WhiteMix(p, s.beta));
    WhiteLightScales(p, s.beta, we);
    LightParts(v, Warm(we, s.beta), Cold(we, s.beta), p);
    Regains(RgbLight(v, p), tgt, WhiteMix(p, s.beta), we);
  }

  /** Conversely, duties on the split that make the target have the r, g, b of their white level. */
  lemma TargetFixesRgb(p: Prims, tgt: Vec, at: Point, d: Duty)
    requires !Singular(p)
    requires OnSplit(d, WhiteShare(p, at)) && Light(d, p) == tgt
    ensures var s := Prepare(p, tgt, at);
      Vec(d.r, d.g, d.b) == Minus(s.a, d.ww + d.cw, s.b)
  {
    hide *;
    var s, we, rgb := Prepare(p, tgt, at), d.ww + d.cw, Vec(d.r, d.g, d.b);
    PrepareParts(p, tgt, at);
    ColdOfSplit(d, s.beta);
    WhiteLightScales(p, s.beta, we);
    LightParts(rgb, d.ww, d.cw, p);
    Regains(RgbLight(rgb, p), tgt, WhiteMix(p, s.beta), we);
    MulAffine(InvRgb(p), tgt, WhiteMix(p, s.beta), we);
    RecoversRgb(p, rgb);
  }

  // ---- the theorems -----------------------------------------------------------------------

  /** What the closed form assumes of its channels: no r, g or b that hardly depends on the whites. */
  predicate Regular(p: Prims, tgt: Vec, at: Point) {
    !Singular(p) && NoTiny(Prepare(p, tgt, at).b)
  }

  function LevelsOf(lim: Limits, p: Prims, tgt: Vec, at: Point): Range
    requires lim.Valid() && Regular(p, tgt, at)
  {
    var s := Prepare(p, tgt, at);
    LevelsExact(lim, s.beta, s.a, s.b, 0.0);
    Levels(lim, s.beta, s.a, s.b).value
  }

  lemma ShareInUnit(p: Prims, at: Point)
    requires 0.0 <= Total(p.ww) && 0.0 <= Total(p.cw)
    ensures 0.0 <= WhiteShare(p, at) <= 1.0
  {
  }

  /** A level inside the interval needs no clamping. */
  lemma NothingClamped(lim: Limits, s: Setup, we: real)
    requires lim.Valid() && 0.0 <= s.beta <= 1.0 && Fits(lim, s.beta, s.a, s.b, we)
    ensures var v := Minus(s.a, we, s.b);
      DutiesAt(lim, s.beta, s.a, s.b, we) == Duty(v.x, v.y, v.z, Warm(we, s.beta), Cold(we, s.beta))
    ensures Legal(lim, DutiesAt(lim, s.beta, s.a, s.b, we))
    ensures OnSplit(DutiesAt(lim, s.beta, s.a, s.b, we), s.beta)
  {
    ProductNonNegative(we, s.beta);
    ProductNonNegative(we, 1.0 - s.beta);
    assert we * s.beta + we * (1.0 - s.beta) == we;
  }

  lemma LevelInRange(r: Range, f: real)
    requires r.lo <= r.hi && 0.0 <= f <= 1.0
    ensures r.Has(Level(r, f))
  {
    ProductNonNegative(f, r.hi - r.lo);
    ProductNonNegative(1.0 - f, r.hi - r.lo);
    assert (1.0 - f) * (r.hi - r.lo) == (r.hi - r.lo) - f * (r.hi - r.lo);
  }

  lemma LevelsOfParts(lim: Limits, p: Prims, tgt: Vec, at: Point)
    requires lim.Valid() && Regular(p, tgt, at)
    ensures var s := Prepare(p, tgt, at);
      && NoTiny(s.b) && Levels(lim, s.beta, s.a, s.b) == Some(LevelsOf(lim, p, tgt, at))
  {
    var s := Prepare(p, tgt, at);
    LevelsExact(lim, s.beta, s.a, s.b, 0.0);
    hide Levels, Prepare, NoTiny, Singular;
  }

  lemma ClosedFormParts(lim: Limits, p: Prims, tgt: Vec, at: Point, f: real)
    requires lim.Valid() && !Singular(p)
    ensures var s, d := Prepare(p, tgt, at), ClosedForm(lim, p, tgt, at, f);
      var r := Levels(lim, s.beta, s.a, s.b);
      && (r.None? ==> d.None?)
      && (r.Some? && r.value.lo <= r.value.hi ==> d == Some(DutiesAt(lim, s.beta, s.a, s.b, Level(r.value, f))))
      && (d.None? ==> r.None? || r.value.hi < r.value.lo)
  {
    hide Levels, Prepare, Level, DutiesAt, Singular;
    ProductNonNegative(EPS, lim.dutyMax);
  }

  /** Exact: at every fidelity the duties are legal, on the split, and make the target. */
  lemma ClosedFormExact(lim: Limits, p: Prims, tgt: Vec, at: Point, f: real)
    requires lim.Valid() && Regular(p, tgt, at) && 0.0 <= WhiteShare(p, at) <= 1.0 && 0.0 <= f <= 1.0
    requires LevelsOf(lim, p, tgt, at).lo <= LevelsOf(lim, p, tgt, at).hi
    ensures ClosedForm(lim, p, tgt, at, f).Some?
    ensures var d := ClosedForm(lim, p, tgt, at, f).value;
      && Makes(lim, p, tgt, WhiteShare(p, at), d)
      && d.ww + d.cw == Level(LevelsOf(lim, p, tgt, at), f)
  {
    assert !Singular(p);
    hide *;
    var s, r := Prepare(p, tgt, at), LevelsOf(lim, p, tgt, at);
    var we := Level(r, f);
    LevelInRange(r, f);
    LevelsOfParts(lim, p, tgt, at);
    PrepareParts(p, tgt, at);
    ClosedFormParts(lim, p, tgt, at, f);
    LevelsExact(lim, s.beta, s.a, s.b, we);
    EveryLevelMakesTarget(p, tgt, at, we);
    NothingClamped(lim, s, we);
    MakesIntro(lim, p, tgt, s.beta, DutiesAt(lim, s.beta, s.a, s.b, we));
  }

  lemma MakesIntro(lim: Limits, p: Prims, tgt: Vec, beta: real, d: Duty)
    ensures Makes(lim, p, tgt, beta, d) <==> Legal(lim, d) && OnSplit(d, beta) && Light(d, p) == tgt
  {
  }

  lemma MadeMeansLevel(lim: Limits, p: Prims, tgt: Vec, at: Point, d: Duty)
    requires lim.Valid() && !Singular(p)
    ensures Makes(lim, p, tgt, WhiteShare(p, at), d) ==>
              var s, we := Prepare(p, tgt, at), d.ww + d.cw;
              && Fits(lim, s.beta, s.a, s.b, we)
              && Levels(lim, s.beta, s.a, s.b).Some? && Levels(lim, s.beta, s.a, s.b).value.Has(we)
  {
    hide *;
    var s, we := Prepare(p, tgt, at), d.ww + d.cw;
    if Makes(lim, p, tgt, WhiteShare(p, at), d) {
      MakesIntro(lim, p, tgt, WhiteShare(p, at), d);
      PrepareParts(p, tgt, at);
      TargetFixesRgb(p, tgt, at, d);
      ColdOfSplit(d, s.beta);
      LegalFits(lim, s, d, we);
      LevelsComplete(lim, s.beta, s.a, s.b, we);
    }
  }

  lemma LegalFits(lim: Limits, s: Setup, d: Duty, we: real)
    requires Legal(lim, d) && we == d.ww + d.cw && Vec(d.r, d.g, d.b) == Minus(s.a, we, s.b)
    requires d.ww == Warm(we, s.beta) && d.cw == Cold(we, s.beta)
    ensures Fits(lim, s.beta, s.a, s.b, we)
  {
    hide Rest, Warm, Cold;
  }

  /** Complete: what a non-singular closed form refuses, no legal duties on the split can make. */
  lemma ClosedFormComplete(lim: Limits, p: Prims, tgt: Vec, at: Point, f: real, d: Duty)
    requires lim.Valid() && !Singular(p) && ClosedForm(lim, p, tgt, at, f).None?
    ensures !Makes(lim, p, tgt, WhiteShare(p, at), d)
  {
    ClosedFormParts(lim, p, tgt, at, f);
    hide *;
    if Makes(lim, p, tgt, WhiteShare(p, at), d) {
      MadeMeansLevel(lim, p, tgt, at, d);
    }
  }

  /** Both directions at once: the target is makeable exactly when the interval is not empty. */
  lemma MakeableIffInterval(lim: Limits, p: Prims, tgt: Vec, at: Point)
    requires lim.Valid() && Regular(p, tgt, at) && 0.0 <= WhiteShare(p, at) <= 1.0
    ensures (exists d :: Makes(lim, p, tgt, WhiteShare(p, at), d))
       <==> LevelsOf(lim, p, tgt, at).lo <= LevelsOf(lim, p, tgt, at).hi
  {
    LevelsOfParts(lim, p, tgt, at);
    assert !Singular(p);
    hide Regular, LevelsOf, Makes, WhiteShare, Levels, ClosedForm, Level, Singular, Prepare, NoTiny, Fits;
    if LevelsOf(lim, p, tgt, at).lo <= LevelsOf(lim, p, tgt, at).hi {
      ClosedFormExact(lim, p, tgt, at, 0.0);
    }
    forall d | Makes(lim, p, tgt, WhiteShare(p, at), d)
      ensures LevelsOf(lim, p, tgt, at).lo <= LevelsOf(lim, p, tgt, at).hi
    {
      MadeMeansLevel(lim, p, tgt, at, d);
    }
  }

  function FidelityFor(r: Range, we: real): real {
    if r.lo < r.hi then (we - r.lo) / (r.hi - r.lo) else 0.0
  }

  lemma FidelityHits(r: Range, we: real)
    requires r.Has(we)
    ensures 0.0 <= FidelityFor(r, we) <= 1.0 && Level(r, FidelityFor(r, we)) == we
  {
    if r.lo < r.hi {
      QuotientBounds(0.0, we - r.lo, r.hi - r.lo);
      QuotientBounds(1.0, we - r.lo, r.hi - r.lo);
    }
  }

  /** The fidelities sweep out every legal way of making the target on the split, and nothing else. */
  lemma FidelitySpansAll(lim: Limits, p: Prims, tgt: Vec, at: Point, d: Duty)
    requires lim.Valid() && Regular(p, tgt, at) && 0.0 <= WhiteShare(p, at) <= 1.0
    requires Makes(lim, p, tgt, WhiteShare(p, at), d)
    ensures var f := FidelityFor(LevelsOf(lim, p, tgt, at), d.ww + d.cw);
      0.0 <= f <= 1.0 && ClosedForm(lim, p, tgt, at, f) == Some(d)
  {
    assert !Singular(p);
    var s, r, we := Prepare(p, tgt, at), LevelsOf(lim, p, tgt, at), d.ww + d.cw;
    MadeMeansLevel(lim, p, tgt, at, d);
    LevelsOfParts(lim, p, tgt, at);
    hide Regular, LevelsOf, Makes, WhiteShare, Levels, ClosedForm, Level, Singular, Prepare, NoTiny, Fits,
      DutiesAt, Minus, OnSplit, Warm, Cold, Legal, FidelityFor, Mul, InvRgb, WhiteMix;
    MakesIntro(lim, p, tgt, WhiteShare(p, at), d);
    PrepareParts(p, tgt, at);
    FidelityHits(r, we);
    TargetFixesRgb(p, tgt, at, d);
    NothingClamped(lim, s, we);
    ColdOfSplit(d, s.beta);
    ClosedFormParts(lim, p, tgt, at, FidelityFor(r, we));
  }

  /** Fidelity 0 makes the target with the least white there can be, 1 with the most, and more of it never with less. */
  lemma FidelityOrdersWhites(lim: Limits, p: Prims, tgt: Vec, at: Point, d: Duty, f: real, g: real)
    requires lim.Valid() && Regular(p, tgt, at) && 0.0 <= WhiteShare(p, at) <= 1.0 && 0.0 <= f <= g <= 1.0
    requires Makes(lim, p, tgt, WhiteShare(p, at), d)
    ensures ClosedForm(lim, p, tgt, at, 0.0).Some? && ClosedForm(lim, p, tgt, at, 1.0).Some?
    ensures Whites(ClosedForm(lim, p, tgt, at, 0.0).value) <= Whites(d) <= Whites(ClosedForm(lim, p, tgt, at, 1.0).value)
    ensures ClosedForm(lim, p, tgt, at, f).Some? && ClosedForm(lim, p, tgt, at, g).Some?
    ensures Whites(ClosedForm(lim, p, tgt, at, f).value) <= Whites(ClosedForm(lim, p, tgt, at, g).value)
  {
    assert !Singular(p);
    hide Regular, LevelsOf, Makes, WhiteShare, Levels, ClosedForm, Level, Singular, Prepare, NoTiny, Fits;
    MadeMeansLevel(lim, p, tgt, at, d);
    LevelsOfParts(lim, p, tgt, at);
    var r := LevelsOf(lim, p, tgt, at);
    ClosedFormExact(lim, p, tgt, at, 0.0);
    ClosedFormExact(lim, p, tgt, at, 1.0);
    ClosedFormExact(lim, p, tgt, at, f);
    ClosedFormExact(lim, p, tgt, at, g);
    LevelOrder(r, f, g);
  }

  function Whites(d: Duty): real {
    d.ww + d.cw
  }

  lemma LevelOrder(r: Range, f: real, g: real)
    requires r.lo <= r.hi && f <= g
    ensures Level(r, 0.0) == r.lo && Level(r, 1.0) == r.hi && Level(r, f) <= Level(r, g)
  {
    ProductNonNegative(g - f, r.hi - r.lo);
    assert (g - f) * (r.hi - r.lo) == g * (r.hi - r.lo) - f * (r.hi - r.lo);
  }

  // ---- when the white share leaves [0, 1] -------------------------------------------------

  lemma DroppedPart(n: real, a: real, u: real, b: real, v: real)
    ensures n + Pair(0.0, u, b, v) == n + Pair(a, u, b, v) ==> a == 0.0 || u == 0.0
    ensures n + Pair(a, u, 0.0, v) == n + Pair(a, u, b, v) ==> b == 0.0 || v == 0.0
  {
  }

  /** A white that can be left out without changing the light is dark, or was off. */
  lemma DroppedWhite(v: Vec, ww: real, cw: real, p: Prims)
    ensures Light(Duty(v.x, v.y, v.z, ww, 0.0), p) == Light(Duty(v.x, v.y, v.z, ww, cw), p) ==> cw == 0.0 || Total(p.cw) == 0.0
    ensures Light(Duty(v.x, v.y, v.z, 0.0, cw), p) == Light(Duty(v.x, v.y, v.z, ww, cw), p) ==> ww == 0.0 || Total(p.ww) == 0.0
  {
    hide Pair, Lin;
    var rgb := RgbLight(v, p);
    DroppedPart(rgb.x, cw, p.cw.x, ww, p.ww.x);
    DroppedPart(rgb.y, cw, p.cw.y, ww, p.ww.y);
    DroppedPart(rgb.z, cw, p.cw.z, ww, p.ww.z);
  }

  lemma ShareOutside(sc: real, sw: real, t: real)
    requires 0.0 <= t <= 1.0
    ensures ShareAt(sc, sw, t) > 1.0 ==> sc != 0.0
    ensures ShareAt(sc, sw, t) < 0.0 ==> sw != 0.0
  {
    var den := sw * (1.0 - t) + t * sc;
    if den > 0.0 && sw == 0.0 {
      QuotientBounds(0.0, t * sc, den);
    }
  }

  lemma WarmColdSigns(we: real, beta: real)
    requires 0.0 < we
    ensures (Warm(we, beta) < 0.0 <==> beta < 0.0) && (Cold(we, beta) < 0.0 <==> beta > 1.0)
  {
    if beta < 0.0 { assert we * -beta > 0.0; } else { ProductNonNegative(we, beta); }
    if beta > 1.0 { assert we * (beta - 1.0) > 0.0; } else { ProductNonNegative(we, 1.0 - beta); }
  }

  lemma ClampedOutside(lim: Limits, s: Setup, we: real)
    requires lim.Valid() && Fits(lim, s.beta, s.a, s.b, we) && 0.0 < we
    requires s.beta < 0.0 || s.beta > 1.0
    ensures var v := Minus(s.a, we, s.b);
      DutiesAt(lim, s.beta, s.a, s.b, we)
      == if s.beta > 1.0 then Duty(v.x, v.y, v.z, Warm(we, s.beta), 0.0) else Duty(v.x, v.y, v.z, 0.0, Cold(we, s.beta))
  {
    WarmColdSigns(we, s.beta);
    hide Warm, Cold, Rest;
  }

  lemma LitMissesTarget(lim: Limits, p: Prims, tgt: Vec, at: Point, we: real)
    requires lim.Valid() && !Singular(p) && (WhiteShare(p, at) < 0.0 || WhiteShare(p, at) > 1.0) && 0.0 < we
    requires var s := Prepare(p, tgt, at); Fits(lim, s.beta, s.a, s.b, we)
    ensures var s := Prepare(p, tgt, at); Light(DutiesAt(lim, s.beta, s.a, s.b, we), p) != tgt
  {
    ShareOutside(Total(p.cw), Total(p.ww), BetaOn(XyOf(p.cw), XyOf(p.ww), at));
    assert WhiteShare(p, at) > 1.0 ==> Total(p.cw) != 0.0;
    assert WhiteShare(p, at) < 0.0 ==> Total(p.ww) != 0.0;
    hide *;
    var s := Prepare(p, tgt, at);
    PrepareParts(p, tgt, at);
    EveryLevelMakesTarget(p, tgt, at, we);
    ClampedOutside(lim, s, we);
    WarmColdSigns(we, s.beta);
    DroppedWhite(Minus(s.a, we, s.b), Warm(we, s.beta), Cold(we, s.beta), p);
  }

  /**
   The exact condition, with no assumption on the primaries' signs: an accepted regular target is
   made exactly when the white share lies in [0, 1] or the whites stay off.
  */
  lemma ExactIffShareInUnit(lim: Limits, p: Prims, tgt: Vec, at: Point, f: real)
    requires lim.Valid() && Regular(p, tgt, at) && 0.0 <= f <= 1.0
    requires LevelsOf(lim, p, tgt, at).lo <= LevelsOf(lim, p, tgt, at).hi
    ensures ClosedForm(lim, p, tgt, at, f).Some?
    ensures Light(ClosedForm(lim, p, tgt, at, f).value, p) == tgt
       <==> 0.0 <= WhiteShare(p, at) <= 1.0 || Level(LevelsOf(lim, p, tgt, at), f) == 0.0
  {
    assert !Singular(p);
    hide *;
    var s, r := Prepare(p, tgt, at), LevelsOf(lim, p, tgt, at);
    var we := Level(r, f);
    LevelInRange(r, f);
    LevelsOfParts(lim, p, tgt, at);
    PrepareParts(p, tgt, at);
    ClosedFormParts(lim, p, tgt, at, f);
    LevelsExact(lim, s.beta, s.a, s.b, we);
    FitsNonNegative(lim, s, we);
    if 0.0 <= s.beta <= 1.0 {
      ClosedFormExact(lim, p, tgt, at, f);
      MakesIntro(lim, p, tgt, s.beta, DutiesAt(lim, s.beta, s.a, s.b, we));
    } else if 0.0 < we {
      LitMissesTarget(lim, p, tgt, at, we);
    } else {
      EveryLevelMakesTarget(p, tgt, at, we);
      UnlitUnclamped(lim, s);
    }
  }

  lemma FitsNonNegative(lim: Limits, s: Setup, we: real)
    requires Fits(lim, s.beta, s.a, s.b, we)
    ensures 0.0 <= we
  {
  }

  lemma UnlitUnclamped(lim: Limits, s: Setup)
    requires lim.Valid() && Fits(lim, s.beta, s.a, s.b, 0.0)
    ensures var v := Minus(s.a, 0.0, s.b);
      DutiesAt(lim, s.beta, s.a, s.b, 0.0) == Duty(v.x, v.y, v.z, Warm(0.0, s.beta), Cold(0.0, s.beta))
  {
    hide Rest;
  }
}
