/**
 The forward model: light of five duties, with every channel's colour depending on its duty and
 its strength on all duties. The per-channel tables, the interaction polynomial and the OKLab
 conversions are parameters; everything proved about the solver holds whatever they are.
*/
module LemtoneModel {
  import opened Numeric
  import opened Options
  import opened LemtoneLinear
  import opened LemtoneClosedForm

  /** Channels in wire order: r, g, b, ww, cw. */
  type Channel = i: nat | i < 5

  datatype Model = Model(
    lim: Limits,
    lmPerY: real,
    prim: Prims,                      // per unit duty at the reference duty
    cwAb: Point, wwAb: Point,         // ends of the white line, OKLab
    unit: (Channel, real) -> Vec,     // unit_xyz
    gain: (Channel, Duty) -> real,    // lemtone_interaction
    toAb: Vec -> Point,               // lemtone_xyz_to_ab
    rawXyz: Point -> Vec,             // OKLab chromaticity to XYZ, luminance not yet scaled
    whiteByDim: bool,
    gridLog2: nat,
    dimMin: nat
  ) {
    predicate Valid() {
      lim.Valid() && 0.0 < lmPerY
    }
  }

  /** Model luminance of lm lumens. */
  function Luminance(m: Model, lm: real): real
    requires m.Valid()
  {
    lm / m.lmPerY
  }

  lemma LuminancePositive(m: Model, lm: real)
    requires m.Valid() && 0.0 < lm
    ensures 0.0 < Luminance(m, lm)
  {
  }

  lemma LuminanceIsLumens(m: Model, lm: real)
    requires m.Valid()
    ensures Times(Luminance(m, lm), m.lmPerY) == lm
  {
  }

  function DutyOf(d: Duty, i: Channel): real {
    match i
    case 0 => d.r
    case 1 => d.g
    case 2 => d.b
    case 3 => d.ww
    case _ => d.cw
  }

  /** Where channel i's colour table is read: its own duty, or the pair's DIM. */
  function KnotDuty(m: Model, i: Channel, d: Duty): real {
    if m.whiteByDim && i >= 3 then d.ww + d.cw else DutyOf(d, i)
  }

  function LocalPrim(m: Model, i: Channel, d: Duty, sag: bool): Vec {
    Scale(if sag then m.gain(i, d) else 1.0, m.unit(i, KnotDuty(m, i, d)))
  }

  /**
   What a channel's colour depends on: a white of a driver pair on their sum alone, any other channel on its
   own duty alone; and a channel that is alone reads its table at its own duty either way.
  */
  lemma ColourDependsOn(m: Model, i: Channel, d: Duty, e: Duty)
    ensures (if m.whiteByDim && i >= 3 then d.ww + d.cw == e.ww + e.cw else DutyOf(d, i) == DutyOf(e, i)) ==>
              LocalPrim(m, i, d, false) == LocalPrim(m, i, e, false)
    ensures (i == 3 ==> d.cw == 0.0) && (i == 4 ==> d.ww == 0.0) ==>
              LocalPrim(m, i, d, false) == m.unit(i, DutyOf(d, i))
  {
  }

  function LocalPrims(m: Model, d: Duty, sag: bool): Prims {
    Prims(LocalPrim(m, 0, d, sag), LocalPrim(m, 1, d, sag), LocalPrim(m, 2, d, sag),
          LocalPrim(m, 3, d, sag), LocalPrim(m, 4, d, sag))
  }

  /** lemtone_forward's running sum after the first n channels: dark channels are skipped. */
  function ForwardUpTo(m: Model, d: Duty, n: nat): Vec
    requires n <= 5
  {
    if n == 0 then Vec(0.0, 0.0, 0.0)
    else if DutyOf(d, n - 1) <= 0.0 then ForwardUpTo(m, d, n - 1)
    else
      Add(ForwardUpTo(m, d, n - 1),
          Scale(Times(m.gain(n - 1, d), DutyOf(d, n - 1)), m.unit(n - 1, KnotDuty(m, n - 1, d))))
  }

  function Forward(m: Model, d: Duty): Vec {
    ForwardUpTo(m, d, 5)
  }

  predicate NonNegative(d: Duty) {
    0.0 <= d.r && 0.0 <= d.g && 0.0 <= d.b && 0.0 <= d.ww && 0.0 <= d.cw
  }

  lemma TimesTwice(x: real, s: real, t: real)
    ensures Times(x, Times(t, s)) == Times(Times(x, t), s)
  {
    assert x * (t * s) == x * t * s;
  }

  lemma ScaleTwice(s: real, t: real, v: Vec)
    ensures Scale(Times(t, s), v) == Scale(s, Scale(t, v))
  {
    hide Times;
    TimesTwice(v.x, s, t);
    TimesTwice(v.y, s, t);
    TimesTwice(v.z, s, t);
  }

  lemma NothingAdded(u: Vec, v: Vec)
    ensures Add(u, Scale(0.0, v)) == u
  {
  }

  /** Adding a channel's local primary times its duty is what one pass of lemtone_forward does. */
  lemma ForwardStep(m: Model, d: Duty, n: nat)
    requires n < 5 && 0.0 <= DutyOf(d, n)
    ensures ForwardUpTo(m, d, n + 1) == Add(ForwardUpTo(m, d, n), Scale(DutyOf(d, n), LocalPrim(m, n, d, true)))
  {
    hide Scale, Add, Times;
    if DutyOf(d, n) == 0.0 {
      NothingAdded(ForwardUpTo(m, d, n), LocalPrim(m, n, d, true));
    } else {
      ScaleTwice(DutyOf(d, n), m.gain(n, d), m.unit(n, KnotDuty(m, n, d)));
    }
  }

  function Zero(): Vec {
    Vec(0.0, 0.0, 0.0)
  }

  lemma LightAsSum(d: Duty, p: Prims)
    ensures Light(d, p)
         == Add(Add(Add(Add(Add(Zero(), Scale(d.r, p.r)), Scale(d.g, p.g)), Scale(d.b, p.b)),
                    Scale(d.ww, p.ww)), Scale(d.cw, p.cw))
  {
  }

  /** XYZ(d) is the sum of d_i P_i exactly when the P_i are the local primaries at d, sag included. */
  lemma ForwardIsLocalLight(m: Model, d: Duty)
    requires NonNegative(d)
    ensures Forward(m, d) == Light(d, LocalPrims(m, d, true))
  {
    LightAsSum(d, LocalPrims(m, d, true));
    ForwardStep(m, d, 0);
    ForwardStep(m, d, 1);
    ForwardStep(m, d, 2);
    ForwardStep(m, d, 3);
    ForwardStep(m, d, 4);
    hide Light, Add, Scale, LocalPrim;
    assert ForwardUpTo(m, d, 0) == Zero();
  }

  // ---- OKLab chromaticity to XYZ --------------------------------------------------------

  /** lemtone_ab_to_xyz: XYZ with Y = 1, if the colour has positive luminance. */
  function AbToXyz(m: Model, at: Point): Option<Vec> {
    var raw := m.rawXyz(at);
    if raw.y > 0.000001 then Some(Scale(1.0 / raw.y, raw)) else None
  }

  lemma UnitLuminance(m: Model, at: Point)
    requires AbToXyz(m, at).Some?
    ensures AbToXyz(m, at).value.y == 1.0
  {
  }

  /** target_xyz */
  function TargetXyz(m: Model, ab: Point, y: real): Option<Vec> {
    var v := AbToXyz(m, ab);
    if v.None? then None else Some(Scale(y, v.value))
  }

  lemma TargetLuminance(m: Model, ab: Point, y: real)
    requires TargetXyz(m, ab, y).Some?
    ensures TargetXyz(m, ab, y).value.y == y
  {
    UnitLuminance(m, ab);
    hide AbToXyz;
  }

  /** XYZ t has the chromaticity ab, which has a luminance to speak of, and luminance y. */
  predicate OfColour(m: Model, ab: Point, y: real, t: Vec) {
    var raw := m.rawXyz(ab);
    raw.y > 0.000001 && t.y == y && Times(t.x, raw.y) == Times(y, raw.x) && Times(t.z, raw.y) == Times(y, raw.z)
  }

  /** The solver aims at the asked colour and luminance, all three components, whenever the colour can have any. */
  lemma TargetColour(m: Model, ab: Point, y: real)
    ensures TargetXyz(m, ab, y).Some? <==> m.rawXyz(ab).y > 0.000001
    ensures TargetXyz(m, ab, y).Some? ==> OfColour(m, ab, y, TargetXyz(m, ab, y).value)
  {
    var raw := m.rawXyz(ab);
    if raw.y > 0.000001 {
      TargetLuminance(m, ab, y);
      Regained(raw.x, y, raw.y);
      Regained(raw.z, y, raw.y);
    }
  }

  lemma Regained(x: real, y: real, q: real)
    requires q > 0.0
    ensures Times(Times(Times(x, 1.0 / q), y), q) == Times(y, x)
  {
    var z := 1.0 / q;
    assert z * q == 1.0;
    assert x * z * y * q == x * y * (z * q);
  }

  /** No other XYZ has that colour and that luminance. */
  lemma ColourIsUnique(m: Model, ab: Point, y: real, t: Vec, u: Vec)
    requires OfColour(m, ab, y, t) && OfColour(m, ab, y, u)
    ensures t == u
  {
    var q := m.rawXyz(ab).y;
    SameFactor(t.x, u.x, q);
    SameFactor(t.z, u.z, q);
  }

  lemma SameFactor(a: real, b: real, q: real)
    requires q > 0.0 && Times(a, q) == Times(b, q)
    ensures a == b
  {
    assert (a - b) * q == 0.0;
  }

  /** Largest of the three XYZ errors. */
  function Worst(u: Vec, v: Vec): (e: real)
    ensures 0.0 <= e
  {
    MaxR(MaxR(MaxR(0.0, AbsR(u.x - v.x)), AbsR(u.y - v.y)), AbsR(u.z - v.z))
  }

  predicate Within(u: Vec, v: Vec, tol: real) {
    AbsR(u.x - v.x) < tol && AbsR(u.y - v.y) < tol && AbsR(u.z - v.z) < tol
  }

  lemma WorstBounds(u: Vec, v: Vec, tol: real)
    requires 0.0 < tol
    ensures Worst(u, v) < tol <==> Within(u, v, tol)
  {
  }
}
