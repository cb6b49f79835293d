/**
 The solver loops of lemtone.c: frozen-coefficient rounds, two-phase attempts, white anchor,
 and the bisections of saturation and lumens. Each loop is a method proved equal to a
 recursive function; LemtoneWitness proves what the answers mean.
*/
module LemtoneSolve {
  import opened Numeric
  import opened Options
  import opened LemtoneLinear
  import opened LemtoneClosedForm
  import opened LemtoneModel

  const PHASE1_ROUNDS: nat := 6
  const FIX_ROUNDS: nat := 12
  const FIX_TOL: real := 0.002
  const BISECT_STEPS: nat := 10
  const WHITE_ROUNDS: nat := 8

  const DARK := Duty(0.0, 0.0, 0.0, 0.0, 0.0)

  // ---- rounds -----------------------------------------------------------------------------

  datatype RoundsResult = RoundsResult(converged: bool, feasible: bool, d: Duty, evals: nat)

  /** The loop state: primaries, last duties, evaluations spent. */
  function Rounds(m: Model, tgt: Vec, at: Point, f: real, sag: bool, n: nat, p: Prims, d: Duty, evals: nat): RoundsResult {
    if n == 0 then RoundsResult(false, true, d, evals) else
      var next := ClosedForm(m.lim, p, tgt, at, f);
      if next.None? then RoundsResult(false, false, d, evals) else
        var q := LocalPrims(m, next.value, sag);
        if Worst(tgt, Light(next.value, q)) < FIX_TOL * tgt.y then RoundsResult(true, true, next.value, evals + 1)
        else Rounds(m, tgt, at, f, sag, n - 1, q, next.value, evals + 1)
  }

  method RunRounds(m: Model, tgt: Vec, at: Point, f: real, sag: bool, maxRounds: nat, start: Prims, d0: Duty, evals0: nat)
    returns (converged: bool, feasible: bool, d: Duty, evals: nat)
    ensures RoundsResult(converged, feasible, d, evals) == Rounds(m, tgt, at, f, sag, maxRounds, start, d0, evals0)
  {
    hide ClosedForm, LocalPrims, Light, Worst;
    var p := start;
    feasible, d, evals := true, d0, evals0;
    var it := 0;
    while it < maxRounds
      invariant it <= maxRounds && feasible
      invariant Rounds(m, tgt, at, f, sag, maxRounds, start, d0, evals0)
             == Rounds(m, tgt, at, f, sag, maxRounds - it, p, d, evals)
    {
      var ok, next := RunClosedForm(m.lim, p, tgt, at, f);
      if !ok {
        return false, false, d, evals;
      }
      d := next;
      p := LocalPrims(m, d, sag);
      evals := evals + 1;
      if Worst(tgt, Light(d, p)) < FIX_TOL * tgt.y {
        return true, true, d, evals;
      }
      it := it + 1;
    }
    converged := false;
  }

  // ---- attempt ----------------------------------------------------------------------------

  datatype Try = Try(ok: bool, d: Duty, evals: nat)

  predicate RealColour(tgt: Vec) {
    tgt.y > 0.0 && tgt.x >= 0.0 && tgt.z >= 0.0
  }

  function Attempt(m: Model, tgt: Vec, f: real): Try {
    if !RealColour(tgt) then Try(false, DARK, 0) else
      var at := XyOf(tgt);
      var one := Rounds(m, tgt, at, f, false, PHASE1_ROUNDS, m.prim, DARK, 0);
      var p := if one.feasible then LocalPrims(m, one.d, true) else m.prim;
      var two := Rounds(m, tgt, at, f, true, FIX_ROUNDS, p, one.d, one.evals);
      Try(two.converged, two.d, two.evals)
  }

  function AttemptAb(m: Model, f: real, ab: Point, y: real): Try {
    var tgt := TargetXyz(m, ab, y);
    if tgt.None? then Try(false, DARK, 0) else Attempt(m, tgt.value, f)
  }

  method RunAttempt(m: Model, tgt: Vec, f: real) returns (ok: bool, d: Duty, evals: nat)
    ensures Try(ok, d, evals) == Attempt(m, tgt, f)
  {
    if !RealColour(tgt) {
      return false, DARK, 0;
    }
    var at := XyOf(tgt);
    var converged, feasible, d1, spent := RunRounds(m, tgt, at, f, false, PHASE1_ROUNDS, m.prim, DARK, 0);
    FeasibleIfConverged(m, tgt, at, f, false, PHASE1_ROUNDS, m.prim, DARK, 0);
    var p := m.prim;
    if converged || feasible {
      p := LocalPrims(m, d1, true);
    }
    ok, feasible, d, evals := RunRounds(m, tgt, at, f, true, FIX_ROUNDS, p, d1, spent);
  }

  lemma {:induction false} FeasibleIfConverged(m: Model, tgt: Vec, at: Point, f: real, sag: bool, n: nat,
                                               p: Prims, d: Duty, evals: nat)
    ensures var r := Rounds(m, tgt, at, f, sag, n, p, d, evals); r.converged ==> r.feasible
    decreases n
  {
    hide ClosedForm, LocalPrims, Light, Worst;
    var next := ClosedForm(m.lim, p, tgt, at, f);
    if n > 0 && next.Some? {
      FeasibleIfConverged(m, tgt, at, f, sag, n - 1, LocalPrims(m, next.value, sag), next.value, evals + 1);
    }
  }

  method RunAttemptAb(m: Model, f: real, ab: Point, y: real) returns (ok: bool, d: Duty, evals: nat)
    ensures Try(ok, d, evals) == AttemptAb(m, f, ab, y)
  {
    hide TargetXyz, Attempt;
    var tgt := TargetXyz(m, ab, y);
    if tgt.None? {
      return false, DARK, 0;
    }
    ok, d, evals := RunAttempt(m, tgt.value, f);
  }

  // ---- the whites alone -------------------------------------------------------------------

  function WhiteDuty(beta: real, we: real): Duty {
    Duty(0.0, 0.0, 0.0, we * beta, we * (1.0 - beta))
  }

  /** Level we, corrected in proportion for the light it gave. */
  function Rescale(we: real, y: real, got: real): real
    requires got != 0.0
  {
    we * y / got
  }

  function WhiteRounds(m: Model, beta: real, y: real, cap: real, we: real, n: nat, evals: nat): (Duty, nat)
    decreases n
  {
    if n == 0 then (WhiteDuty(beta, we), evals) else
      var got := Forward(m, WhiteDuty(beta, we)).y;
      if AbsR(got - y) < FIX_TOL * y || !(got > 0.0) then (WhiteDuty(beta, we), evals + 1)
      else WhiteRounds(m, beta, y, cap, MinR(cap, Rescale(we, y, got)), n - 1, evals + 1)
  }

  function WhiteOnly(m: Model, beta: real, y: real): (Duty, nat)
    requires 0.0 < y
  {
    var cap := WhiteCap(m.lim, beta);
    var full := Forward(m, WhiteDuty(beta, cap)).y;
    if !(full > y) then (WhiteDuty(beta, cap), 1)
    else WhiteRounds(m, beta, y, cap, Rescale(cap, y, full), WHITE_ROUNDS, 1)
  }

  method RunWhiteOnly(m: Model, beta: real, y: real) returns (d: Duty, evals: nat)
    requires 0.0 < y
    ensures (d, evals) == WhiteOnly(m, beta, y)
  {
    hide Forward, WhiteCap, Rescale, WhiteDuty;
    var cap := WhiteCap(m.lim, beta);
    d := WhiteDuty(beta, cap);
    var xyz := Forward(m, d);
    evals := 1;
    if !(xyz.y > y) {
      return;
    }
    var we := Rescale(cap, y, xyz.y);
    var k := 0;
    while k < WHITE_ROUNDS
      invariant k <= WHITE_ROUNDS
      invariant WhiteOnly(m, beta, y) == WhiteRounds(m, beta, y, cap, we, WHITE_ROUNDS - k, evals)
    {
      d := WhiteDuty(beta, we);
      xyz := Forward(m, d);
      evals := evals + 1;
      if AbsR(xyz.y - y) < FIX_TOL * y || !(xyz.y > 0.0) {
        return;
      }
      we := MinR(cap, Rescale(we, y, xyz.y));
      k := k + 1;
    }
    d := WhiteDuty(beta, we);
  }

  datatype Anchor = Anchor(w: Point, evals: nat)

  function AnchorShare(m: Model, at: Point): real {
    var x := AbToXyz(m, at);
    var t := if x.Some? then BetaOn(XyOf(m.prim.cw), XyOf(m.prim.ww), XyOf(x.value)) else BetaOn(m.cwAb, m.wwAb, at);
    DutySplit(m.prim, t)
  }

  /** white_anchor: the white an unreachable colour moves toward. */
  function WhiteAnchor(m: Model, at: Point, y: real): Anchor
    requires 0.0 < y
  {
    var whites := WhiteOnly(m, AnchorShare(m, at), y);
    Anchor(m.toAb(Forward(m, whites.0)), whites.1 + 1)
  }

  // ---- bisection --------------------------------------------------------------------------

  datatype Search = Search(lo: real, hi: real, best: Duty, evals: nat)

  function Mid(s: Search): real {
    0.5 * (s.lo + s.hi)
  }

  function Probe(s: Search, t: Try): Search {
    if t.ok then Search(Mid(s), s.hi, t.d, s.evals + t.evals) else Search(s.lo, Mid(s), s.best, s.evals + t.evals)
  }

  function Bisect(probe: real -> Try, s: Search, n: nat): Search
    decreases n
  {
    if n == 0 then s else Bisect(probe, Probe(s, probe(Mid(s))), n - 1)
  }

  lemma BisectStep(probe: real -> Try, s: Search, n: nat)
    ensures Bisect(probe, s, n) == if n == 0 then s else Bisect(probe, Probe(s, probe(Mid(s))), n - 1)
  {
  }

  function Toward(w: Point, p: Point, t: real): Point {
    Point(w.x + t * (p.x - w.x), w.y + t * (p.y - w.y))
  }

  /** Keeping the lumens, saturation t. */
  function AtSaturation(m: Model, f: real, w: Point, p: Point, y: real): real -> Try {
    t => AttemptAb(m, f, Toward(w, p, t), y)
  }

  /** The white w at a fraction t of the lumens. */
  function AtLumens(m: Model, f: real, w: Point, y: real): real -> Try {
    t => AttemptAb(m, f, w, Times(t, y))
  }

  // ---- solve_free -------------------------------------------------------------------------

  datatype Mode = Off | Exact | Desat | Clamp

  datatype Solution = Solution(duty: Duty, mode: Mode, desat: real, lm: real, evals: nat)

  function Desaturated(m: Model, f: real, w: Point, p: Point, y: real, lm: real, white: Duty, spent: nat): Solution {
    var s := Bisect(AtSaturation(m, f, w, p, y), Search(0.0, 1.0, white, spent), BISECT_STEPS);
    Solution(s.best, Desat, 1.0 - s.lo, lm, s.evals)
  }

  function Dimmed(m: Model, f: real, w: Point, y: real, lm: real, spent: nat): Solution {
    var s := Bisect(AtLumens(m, f, w, y), Search(0.0, 1.0, DARK, spent), BISECT_STEPS + 2);
    Solution(s.best, Clamp, 1.0, Times(s.lo, lm), s.evals)
  }

  /** What solve_free does once the target itself is out of reach. */
  function Fallback(m: Model, f: real, p: Point, y: real, lm: real, spent: nat): Solution
    requires 0.0 < y
  {
    var anchor := WhiteAnchor(m, p, y);
    var white := AttemptAb(m, f, anchor.w, y);
    var total := spent + anchor.evals + white.evals;
    if white.ok then Desaturated(m, f, anchor.w, p, y, lm, white.d, total)
    else Dimmed(m, f, anchor.w, y, lm, total)
  }

  function SolveFree(m: Model, a: real, b: real, lm: real, fidelity: real): Solution
    requires m.Valid()
  {
    if !(lm > 0.000000001) then Solution(DARK, Off, 0.0, 0.0, 0) else
      var f, y, p := Clamp01(fidelity), Luminance(m, lm), Point(a, b);
      LuminancePositive(m, lm);
      var first := AttemptAb(m, f, p, y);
      if first.ok then Solution(first.d, Exact, 0.0, lm, first.evals)
      else Fallback(m, f, p, y, lm, first.evals)
  }

  method RunDesaturate(m: Model, f: real, w: Point, p: Point, y: real, start: Duty, spent: nat)
    returns (lo: real, duty: Duty, evals: nat)
    ensures var s := Bisect(AtSaturation(m, f, w, p, y), Search(0.0, 1.0, start, spent), BISECT_STEPS);
      lo == s.lo && duty == s.best && evals == s.evals
  {
    hide AttemptAb, Toward, Bisect;
    ghost var probe := AtSaturation(m, f, w, p, y);
    var hi := 1.0;
    lo, duty, evals := 0.0, start, spent;
    var s := 0;
    while s < BISECT_STEPS
      invariant s <= BISECT_STEPS
      invariant Bisect(probe, Search(0.0, 1.0, start, spent), BISECT_STEPS)
             == Bisect(probe, Search(lo, hi, duty, evals), BISECT_STEPS - s)
    {
      BisectStep(probe, Search(lo, hi, duty, evals), BISECT_STEPS - s);
      var mid := 0.5 * (lo + hi);
      var ok, d, n := RunAttemptAb(m, f, Toward(w, p, mid), y);
      evals := evals + n;
      if ok {
        lo, duty := mid, d;
      } else {
        hi := mid;
      }
      s := s + 1;
    }
    BisectStep(probe, Search(lo, hi, duty, evals), 0);
  }

  method RunDim(m: Model, f: real, w: Point, y: real, spent: nat) returns (lo: real, duty: Duty, evals: nat)
    ensures var s := Bisect(AtLumens(m, f, w, y), Search(0.0, 1.0, DARK, spent), BISECT_STEPS + 2);
      lo == s.lo && duty == s.best && evals == s.evals
  {
    hide AttemptAb, Times, Bisect;
    ghost var probe := AtLumens(m, f, w, y);
    var hi := 1.0;
    lo, duty, evals := 0.0, DARK, spent;
    var s := 0;
    while s < BISECT_STEPS + 2
      invariant s <= BISECT_STEPS + 2
      invariant Bisect(probe, Search(0.0, 1.0, DARK, spent), BISECT_STEPS + 2)
             == Bisect(probe, Search(lo, hi, duty, evals), BISECT_STEPS + 2 - s)
    {
      BisectStep(probe, Search(lo, hi, duty, evals), BISECT_STEPS + 2 - s);
      var mid := 0.5 * (lo + hi);
      var ok, d, n := RunAttemptAb(m, f, w, Times(mid, y));
      evals := evals + n;
      if ok {
        lo, duty := mid, d;
      } else {
        hi := mid;
      }
      s := s + 1;
    }
    BisectStep(probe, Search(lo, hi, duty, evals), 0);
  }

  method RunSolveFree(m: Model, a: real, b: real, lm: real, fidelity: real) returns (out: Solution)
    requires m.Valid()
    ensures out == SolveFree(m, a, b, lm, fidelity)
  {
    hide AttemptAb, Bisect, WhiteOnly, AnchorShare, Forward, AtSaturation, AtLumens, Times, Luminance;
    if !(lm > 0.000000001) {
      return Solution(DARK, Off, 0.0, 0.0, 0);
    }
    var f, y, p := Clamp01(fidelity), Luminance(m, lm), Point(a, b);
    LuminancePositive(m, lm);
    var ok, d, spent := RunAttemptAb(m, f, p, y);
    if ok {
      return Solution(d, Exact, 0.0, lm, spent);
    }
    var whites, n := RunWhiteOnly(m, AnchorShare(m, p), y);
    var w := m.toAb(Forward(m, whites));
    spent := spent + n + 1;
    var more: nat;
    ok, d, more := RunAttemptAb(m, f, w, y);
    spent := spent + more;
    var lo, duty, evals;
    if ok {
      lo, duty, evals := RunDesaturate(m, f, w, p, y, d, spent);
      return Solution(duty, Desat, 1.0 - lo, lm, evals);
    }
    lo, duty, evals := RunDim(m, f, w, y, spent);
    return Solution(duty, Clamp, 1.0, Times(lo, lm), evals);
  }
}
