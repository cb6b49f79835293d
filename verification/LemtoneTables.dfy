/**
 The forward model's two tables: each channel's colour against its duty, piecewise linear, and its
 interaction with the other four. With the panel's interaction the two whites never stop giving light
 inside the duty range, so the cap on their sum holds of that model's answers.
*/
module LemtoneTables {
  import opened Numeric
  import opened LemtoneLinear
  import opened LemtoneClosedForm
  import opened LemtoneModel
  import opened LemtoneSolve
  import opened LemtoneSnap
  import LemtoneQuantize
  import LemtoneWhites
  import LemtoneWitness

  const REF_DUTY: real := 0.4   // where prim is taken
  const FEATURES: nat := 18     // LEMTONE_NFEAT

  // ---- colour against duty ----------------------------------------------------------------

  datatype Knot = Knot(duty: real, xyz: Vec)

  type Table = t: seq<Knot> | |t| > 0 witness [Knot(0.0, Vec(0.0, 0.0, 0.0))]

  /** The first knot from j on that is not below d. */
  function KnotAt(t: Table, d: real, j: nat): (k: nat)
    requires j < |t| && d < t[|t| - 1].duty
    ensures j <= k < |t| && d <= t[k].duty && forall i :: j <= i < k ==> t[i].duty < d
    decreases |t| - j
  {
    if d <= t[j].duty then j else KnotAt(t, d, j + 1)
  }

  function Between(p: real, q: real, s: real): real {
    p + s * (q - p)
  }

  function BetweenKnots(k: Knot, l: Knot, d: real): Vec
    requires k.duty < l.duty
  {
    var s := (d - k.duty) / (l.duty - k.duty);
    Vec(Between(k.xyz.x, l.xyz.x, s), Between(k.xyz.y, l.xyz.y, s), Between(k.xyz.z, l.xyz.z, s))
  }

  function UnitXyz(t: Table, d: real): Vec {
    var last := |t| - 1;
    if d <= t[0].duty || last == 0 then t[0].xyz
    else if d >= t[last].duty then t[last].xyz
    else
      var j := KnotAt(t, d, 1);
      BetweenKnots(t[j - 1], t[j], d)
  }

  /** unit_xyz: the scan divides by no empty segment, whatever the table. */
  method RunUnitXyz(t: Table, d: real) returns (out: Vec)
    ensures out == UnitXyz(t, d)
  {
    if d <= t[0].duty || |t| == 1 {
      return t[0].xyz;
    }
    if d >= t[|t| - 1].duty {
      return t[|t| - 1].xyz;
    }
    var j := 1;
    while d > t[j].duty
      invariant 1 <= j < |t| && t[j - 1].duty < d
      invariant KnotAt(t, d, j) == KnotAt(t, d, 1)
      decreases |t| - j
    {
      j := j + 1;
    }
    out := BetweenKnots(t[j - 1], t[j], d);
  }

  predicate MakesLight(t: Table) {
    forall k :: 0 <= k < |t| ==> 0.0 <= Total(t[k].xyz)
  }

  lemma BetweenTotals(u: Vec, v: Vec, s: real)
    requires 0.0 <= s <= 1.0 && 0.0 <= Total(u) && 0.0 <= Total(v)
    ensures 0.0 <= Between(u.x, v.x, s) + Between(u.y, v.y, s) + Between(u.z, v.z, s)
  {
    ProductNonNegative(1.0 - s, Total(u));
    ProductNonNegative(s, Total(v));
    assert s * (v.x - u.x) + s * (v.y - u.y) + s * (v.z - u.z) == s * (Total(v) - Total(u));
    assert (1.0 - s) * Total(u) == Total(u) - s * Total(u);
    assert s * (Total(v) - Total(u)) == s * Total(v) - s * Total(u);
  }

  /** Interpolation invents no negative light. */
  lemma UnitMakesLight(t: Table, d: real)
    requires MakesLight(t)
    ensures 0.0 <= Total(UnitXyz(t, d))
  {
    if t[0].duty < d < t[|t| - 1].duty && |t| > 1 {
      var j := KnotAt(t, d, 1);
      ShareOf(d - t[j - 1].duty, t[j].duty - t[j - 1].duty);
      BetweenTotals(t[j - 1].xyz, t[j].xyz, (d - t[j - 1].duty) / (t[j].duty - t[j - 1].duty));
    }
  }

  /** Between two knots each component moves in proportion to the duty; outside them it stays. */
  lemma UnitInterpolates(t: Table, d: real, j: nat)
    requires 0 < j < |t| && t[j - 1].duty < d <= t[j].duty
    requires forall a, b :: 0 <= a < b < |t| ==> t[a].duty < t[b].duty
    ensures var u, k, l := UnitXyz(t, d), t[j - 1], t[j];
      && InProportion(u.x, k.xyz.x, l.xyz.x, d - k.duty, l.duty - k.duty)
      && InProportion(u.y, k.xyz.y, l.xyz.y, d - k.duty, l.duty - k.duty)
      && InProportion(u.z, k.xyz.z, l.xyz.z, d - k.duty, l.duty - k.duty)
    ensures UnitXyz(t, t[0].duty) == t[0].xyz
  {
    var k, l := t[j - 1], t[j];
    if d < t[|t| - 1].duty {
      assert KnotAt(t, d, 1) == j;
      Proportion(k.xyz.x, l.xyz.x, d - k.duty, l.duty - k.duty);
      Proportion(k.xyz.y, l.xyz.y, d - k.duty, l.duty - k.duty);
      Proportion(k.xyz.z, l.xyz.z, d - k.duty, l.duty - k.duty);
    }
  }

  predicate InProportion(u: real, p: real, q: real, part: real, whole: real) {
    Times(u - p, whole) == Times(q - p, part)
  }

  lemma Proportion(p: real, q: real, part: real, whole: real)
    requires 0.0 < whole
    ensures InProportion(Between(p, q, part / whole), p, q, part, whole)
  {
    var s := part / whole;
    assert s * whole == part;
    assert s * (q - p) * whole == (q - p) * (s * whole);
  }

  lemma ShareOf(x: real, y: real)
    requires 0.0 <= x <= y && 0.0 < y
    ensures 0.0 <= x / y <= 1.0
  {
  }

  // ---- interaction ------------------------------------------------------------------------

  function Others(d: Duty, i: Channel): (o: seq<real>)
    ensures |o| == 4
  {
    match i
    case 0 => [d.g, d.b, d.ww, d.cw]
    case 1 => [d.r, d.b, d.ww, d.cw]
    case 2 => [d.r, d.g, d.ww, d.cw]
    case 3 => [d.r, d.g, d.b, d.cw]
    case _ => [d.r, d.g, d.b, d.ww]
  }

  /** Where the products with o[a] start. */
  function RowStart(a: nat): nat
    requires a <= 4
  {
    match a
    case 0 => 8
    case 1 => 12
    case 2 => 15
    case 3 => 17
    case _ => 18
  }

  function RowOf(f: nat): (a: nat)
    requires 8 <= f < FEATURES
    ensures a < 4 && RowStart(a) <= f < RowStart(a + 1)
  {
    if f < 12 then 0 else if f < 15 then 1 else if f < 17 then 2 else 3
  }

  /** The other four duties, their products with the channel's own, and their products with each other. */
  function Feature(o: seq<real>, x: real, f: nat): real
    requires |o| == 4 && f < FEATURES
  {
    if f < 4 then o[f]
    else if f < 8 then Times(o[f - 4], x)
    else Times(o[RowOf(f)], o[RowOf(f) + f - RowStart(RowOf(f))])
  }

  function InteractionUpTo(th: seq<real>, o: seq<real>, x: real, n: nat): real
    requires |th| == FEATURES && |o| == 4 && n <= FEATURES
  {
    if n == 0 then 1.0 else InteractionUpTo(th, o, x, n - 1) + Times(th[n - 1], Feature(o, x, n - 1))
  }

  /** 1 + feats . theta */
  function Interaction(th: seq<real>, d: Duty, i: Channel): real
    requires |th| == FEATURES
  {
    InteractionUpTo(th, Others(d, i), DutyOf(d, i), FEATURES)
  }

  method RunInteraction(th: seq<real>, d: Duty, i: Channel) returns (g: real)
    requires |th| == FEATURES
    ensures g == Interaction(th, d, i)
  {
    hide Times;
    var o: seq<real> := [];
    for j := 0 to 5
      invariant |o| == (if j > i then j - 1 else j) <= 4 && o == Others(d, i)[..|o|]
    {
      if j != i {
        o := o + [DutyOf(d, j)];
      }
    }
    assert o == Others(d, i);
    g := 1.0;
    var f := 0;
    for a := 0 to 4
      invariant f == a && g == InteractionUpTo(th, o, DutyOf(d, i), f)
    {
      g, f := g + Times(th[f], o[a]), f + 1;
    }
    for a := 0 to 4
      invariant f == 4 + a && g == InteractionUpTo(th, o, DutyOf(d, i), f)
    {
      TimesTwice(th[f], DutyOf(d, i), o[a]);
      g, f := g + Times(Times(th[f], o[a]), DutyOf(d, i)), f + 1;
    }
    for a := 0 to 4
      invariant f == RowStart(a) && g == InteractionUpTo(th, o, DutyOf(d, i), f)
    {
      for b := a to 4
        invariant f == RowStart(a) + b - a && g == InteractionUpTo(th, o, DutyOf(d, i), f)
      {
        TimesTwice(th[f], o[b], o[a]);
        g, f := g + Times(Times(th[f], o[a]), o[b]), f + 1;
      }
    }
  }

  /** How far the first n coefficients can pull the factor down inside the unit cube. */
  function Dips(th: seq<real>, n: nat): real
    requires n <= |th|
  {
    if n == 0 then 0.0 else Dips(th, n - 1) + MaxR(0.0, -th[n - 1])
  }

  predicate InUnit(x: real) {
    0.0 <= x <= 1.0
  }

  lemma TimesInUnit(x: real, y: real)
    requires InUnit(x) && InUnit(y)
    ensures InUnit(Times(x, y))
  {
    ProductNonNegative(x, y);
    ProductNonNegative(1.0 - x, y);
    assert (1.0 - x) * y == y - x * y;
  }

  lemma TermAtLeast(c: real, x: real)
    requires InUnit(x)
    ensures Times(c, x) >= -MaxR(0.0, -c)
  {
    if c >= 0.0 {
      ProductNonNegative(c, x);
    } else {
      ProductNonNegative(-c, 1.0 - x);
      assert (-c) * (1.0 - x) == -c + c * x;
    }
  }

  lemma {:induction false} InteractionAtLeast(th: seq<real>, o: seq<real>, x: real, n: nat)
    requires |th| == FEATURES && |o| == 4 && n <= FEATURES
    requires InUnit(x) && forall k :: 0 <= k < 4 ==> InUnit(o[k])
    ensures InteractionUpTo(th, o, x, n) >= 1.0 - Dips(th, n)
    decreases n
  {
    hide InUnit, Times, MaxR;
    if n > 0 {
      InteractionAtLeast(th, o, x, n - 1);
      FeatureInUnit(o, x, n - 1);
      TermAtLeast(th[n - 1], Feature(o, x, n - 1));
    }
  }

  lemma FeatureInUnit(o: seq<real>, x: real, f: nat)
    requires |o| == 4 && f < FEATURES && InUnit(x) && forall k :: 0 <= k < 4 ==> InUnit(o[k])
    ensures InUnit(Feature(o, x, f))
  {
    hide InUnit, Times;
    if 4 <= f < 8 {
      TimesInUnit(o[f - 4], x);
    } else if 8 <= f {
      TimesInUnit(o[RowOf(f)], o[RowOf(f) + f - RowStart(RowOf(f))]);
    }
  }

  // ---- a model of two tables ----------------------------------------------------------------

  /** The duty at which every channel's colour is read for the first round: lemtone_init. */
  function InitialPrims(colour: seq<Table>): Prims
    requires |colour| == 5
  {
    Prims(UnitXyz(colour[0], REF_DUTY), UnitXyz(colour[1], REF_DUTY), UnitXyz(colour[2], REF_DUTY),
          UnitXyz(colour[3], REF_DUTY), UnitXyz(colour[4], REF_DUTY))
  }

  ghost predicate FromTables(m: Model, colour: seq<Table>, theta: seq<seq<real>>) {
    && |colour| == 5 && |theta| == 5 && (forall i :: 0 <= i < 5 ==> |theta[i]| == FEATURES)
    && m.prim == InitialPrims(colour)
    && (forall i: Channel, x: real :: m.unit(i, x) == UnitXyz(colour[i], x))
    && (forall i: Channel, d: Duty :: m.gain(i, d) == Interaction(theta[i], d, i))
  }

  /** Where colours depend on each channel's own duty, prim are the local primaries at the reference duty, sag left out. */
  lemma InitialIsLocal(m: Model, colour: seq<Table>, theta: seq<seq<real>>)
    requires FromTables(m, colour, theta) && !m.whiteByDim
    ensures m.prim == LocalPrims(m, Duty(0.4, 0.4, 0.4, 0.4, 0.4), false)
  {
    hide UnitXyz;
    var d := Duty(0.4, 0.4, 0.4, 0.4, 0.4);
    ColourDependsOn(m, 0, d, d);
    ColourDependsOn(m, 1, d, d);
    ColourDependsOn(m, 2, d, d);
    Unscaled(m.unit(3, 0.4));
    Unscaled(m.unit(4, 0.4));
  }

  lemma Unscaled(v: Vec)
    ensures Scale(1.0, v) == v
  {
  }

  lemma ScaledTotal(s: real, v: Vec)
    requires 0.0 <= s && 0.0 <= Total(v)
    ensures 0.0 <= Total(Scale(s, v))
  {
    ProductNonNegative(s, Total(v));
    assert v.x * s + v.y * s + v.z * s == s * Total(v);
  }

  lemma LocalTotal(m: Model, colour: seq<Table>, theta: seq<seq<real>>, i: Channel, d: Duty, sag: bool)
    requires FromTables(m, colour, theta) && MakesLight(colour[i]) && Dips(theta[i], FEATURES) <= 1.0
    requires m.lim.dutyMax <= 1.0 && LemtoneWitness.InCap(m, d)
    ensures 0.0 <= Total(LocalPrim(m, i, d, sag))
  {
    hide UnitXyz, Total, Scale, InteractionUpTo, Dips, MakesLight;
    InteractionAtLeast(theta[i], Others(d, i), DutyOf(d, i), FEATURES);
    UnitMakesLight(colour[i], KnotDuty(m, i, d));
    ScaledTotal(if sag then m.gain(i, d) else 1.0, m.unit(i, KnotDuty(m, i, d)));
  }

  /** If neither white's coefficients pull it down by more than all of it, both always give light. */
  lemma WhitesGiveLight(m: Model, colour: seq<Table>, theta: seq<seq<real>>)
    requires FromTables(m, colour, theta) && m.lim.dutyMax <= 1.0
    requires MakesLight(colour[3]) && MakesLight(colour[4])
    requires Dips(theta[3], FEATURES) <= 1.0 && Dips(theta[4], FEATURES) <= 1.0
    ensures LemtoneWhites.WhitesMakeLight(m)
  {
    UnitMakesLight(colour[3], REF_DUTY);
    UnitMakesLight(colour[4], REF_DUTY);
    hide UnitXyz, Total, MakesLight, Dips, LocalPrim, LemtoneWitness.InCap;
    forall d: Duty, sag: bool | LemtoneWitness.InCap(m, d)
      ensures LemtoneWhites.WhitesOk(LocalPrims(m, d, sag))
    {
      LocalTotal(m, colour, theta, 3, d, sag);
      LocalTotal(m, colour, theta, 4, d, sag);
    }
  }

  // ---- the panel --------------------------------------------------------------------------

  const PANEL_WW: seq<real> := [
    0.0358219226, 0.0258581344, -0.00765887329, -0.0168387408, -0.00887050598, -0.0236350615,
    -0.0113352292, 0.174535417, -0.0583595998, 0.0176598949, 0.0136278388, -0.00549126608,
    -0.0386018027, 0.0348642127, -0.00793446378, -0.00568163183, -0.0798795447, -0.0912202723]

  const PANEL_CW: seq<real> := [
    -0.0438641638, -0.00793444827, -0.0284264622, 0.0265322794, 0.0401687316, 0.013696434,
    0.0444627785, 0.198397128, 0.0417162603, 0.00296909162, -0.0218110529, 0.0551424734,
    0.00698771499, -0.0212484013, 0.0313426997, 0.0297461046, 0.151804366, -0.112312371]

  /** The one shipped model with a cap on the sum of its whites. */
  ghost predicate Panel(m: Model, colour: seq<Table>, theta: seq<seq<real>>) {
    && FromTables(m, colour, theta) && theta[3] == PANEL_WW && theta[4] == PANEL_CW
    && m.lim.dutyMax == 1.0 && m.lim.whiteSumMax == 1.0
  }

  lemma PanelDips()
    ensures |PANEL_WW| == |PANEL_CW| == FEATURES
    ensures Dips(PANEL_WW, FEATURES) <= 0.4 && Dips(PANEL_CW, FEATURES) <= 0.4
  {
    assert Dips(PANEL_WW, 3) <= 0.009;
    assert Dips(PANEL_WW, 6) <= 0.059;
    assert Dips(PANEL_WW, 9) <= 0.128;
    assert Dips(PANEL_WW, 12) <= 0.134;
    assert Dips(PANEL_WW, 15) <= 0.18;
    assert Dips(PANEL_CW, 3) <= 0.082;
    assert Dips(PANEL_CW, 6) <= 0.082;
    assert Dips(PANEL_CW, 9) <= 0.082;
    assert Dips(PANEL_CW, 12) <= 0.104;
    assert Dips(PANEL_CW, 15) <= 0.125;
  }

  /** A snapped pair is under the cap without any tolerance. */
  lemma SnapKeepsSum(m: Model, out: Solution)
    requires NonNegative(out.duty)
    ensures var d := Snap(m, out).duty; d == out.duty || d.ww + d.cw <= CapOf(m.lim)
  {
    if out.duty.ww + out.duty.cw > 0.0 {
      hide Snap, NonNegative;
      var steps := JobFor(m, out.duty).steps;
      var c, t := SnapOnGrid(m, out);
      LemtoneQuantize.GridTotal(t, JobFor(m, out.duty).warmSteps, steps);
      UnderCapShare(t, CapOf(m.lim), steps);
    }
  }

  lemma UnderCapShare(t: nat, cap: real, steps: nat)
    requires steps >= 1 && UnderCap(t, cap, steps)
    ensures t as real / steps as real <= cap
  {
    QuotientBounds(cap, t as real, steps as real);
  }

  /** Whatever the panel is asked, its white driver is asked for no more than full level. */
  lemma PanelKeepsSum(m: Model, colour: seq<Table>, theta: seq<seq<real>>, a: real, b: real, lm: real, fidelity: real)
    requires m.Valid() && Panel(m, colour, theta) && MakesLight(colour[3]) && MakesLight(colour[4])
    ensures var d := Solve(m, a, b, lm, fidelity).duty; d.ww + d.cw <= 1.0 + EPS
  {
    hide Dips, MakesLight, SolveFree, Snap;
    PanelDips();
    WhitesGiveLight(m, colour, theta);
    LemtoneWhites.SolveKeepsSum(m, a, b, lm, fidelity);
    AnswerNonNegative(m, a, b, lm, fidelity);
    SnapKeepsSum(m, SolveFree(m, a, b, lm, fidelity));
  }
}
