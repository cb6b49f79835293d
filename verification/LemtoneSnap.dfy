/**
 Driver whites on their tick grid: snap_whites tries a few DIM steps, redoes r, g, b for each,
 and keeps the first that meets the solver's tolerance, else the one that misses least.
*/
module LemtoneSnap {
  import opened Numeric
  import opened Options
  import opened LemtoneLinear
  import opened LemtoneClosedForm
  import opened LemtoneModel
  import opened LemtoneSolve
  import opened LemtoneWitness

  // ---- r, g, b for given whites -----------------------------------------------------------

  function ClampRgb(rgb: Vec, d: Duty, dmax: real): Duty {
    Duty(ClampR(rgb.x, 0.0, dmax), ClampR(rgb.y, 0.0, dmax), ClampR(rgb.z, 0.0, dmax), d.ww, d.cw)
  }

  function RgbStep(d: Duty, next: Duty): real {
    MaxR(MaxR(MaxR(0.0, AbsR(next.r - d.r)), AbsR(next.g - d.g)), AbsR(next.b - d.b))
  }

  /** tgt less the light of the two whites. */
  function Remainder(tgt: Vec, d: Duty, p: Prims): Vec {
    var w := WhiteLight(d.ww, d.cw, p);
    Vec(tgt.x - w.x, tgt.y - w.y, tgt.z - w.z)
  }

  function RgbRounds(m: Model, tgt: Vec, d: Duty, n: nat, evals: nat): (Duty, nat)
    decreases n
  {
    if n == 0 then (d, evals) else
      var p := LocalPrims(m, d, true);
      if Singular(p) then (d, evals + 1) else
        var next := ClampRgb(Mul(InvRgb(p), Remainder(tgt, d, p)), d, m.lim.dutyMax);
        if RgbStep(d, next) < 0.00001 then (next, evals + 1) else RgbRounds(m, tgt, next, n - 1, evals + 1)
  }

  datatype Completion = Completion(d: Duty, err: real, evals: nat)

  function RgbForWhites(m: Model, tgt: Vec, d: Duty): Completion {
    var r := RgbRounds(m, tgt, d, FIX_ROUNDS, 0);
    Completion(r.0, Worst(Forward(m, r.0), tgt), r.1 + 1)
  }

  method RunRgbForWhites(m: Model, tgt: Vec, start: Duty) returns (d: Duty, err: real, evals: nat)
    ensures Completion(d, err, evals) == RgbForWhites(m, tgt, start)
  {
    hide Singular, InvRgb, Mul, LocalPrims, Remainder, Worst, Forward;
    d, evals := start, 0;
    var it := 0;
    while it < FIX_ROUNDS
      invariant it <= FIX_ROUNDS
      invariant RgbRounds(m, tgt, start, FIX_ROUNDS, 0) == RgbRounds(m, tgt, d, FIX_ROUNDS - it, evals)
    {
      var p := LocalPrims(m, d, true);
      evals := evals + 1;
      if Singular(p) {
        break;
      }
      var next := ClampRgb(Mul(InvRgb(p), Remainder(tgt, d, p)), d, m.lim.dutyMax);
      var step := RgbStep(d, next);
      d := next;
      if step < 0.00001 {
        break;
      }
      it := it + 1;
    }
    evals := evals + 1;
    err := Worst(Forward(m, d), tgt);
  }

  // ---- candidates -------------------------------------------------------------------------

  /** (int)(x + 0.5f) of a non-negative x. */
  function Nearest(x: real): (n: nat)
    requires 0.0 <= x
    ensures n as real - 0.5 <= x < n as real + 0.5
  {
    (x + 0.5).Floor
  }

  /** The DIM steps to try for a total of x steps, of which 1..dimMin-1 are unusable. */
  function Candidate(x: real, dimMin: nat, k: nat): (t: int)
    requires 0.0 < x && k < 3
    ensures t == 0 || t >= dimMin
    ensures t >= 0
  {
    var near := Nearest(x);
    var next: int := if near as real > x then near - 1 else near + 1;
    var (near1, next1) :=
      if 0 < near < dimMin then
        var n := if dimMin as real - x < x then dimMin else 0;
        (n, if n != 0 then 0 else dimMin)
      else if 0 < next < dimMin then (near, if near == dimMin then 0 else dimMin)
      else (near, next);
    if k == 0 then near1 else if k == 1 then next1 else 0
  }

  /** Steps the driver can be set to. */
  predicate Usable(t: int, dimMin: nat) {
    t == 0 || t >= dimMin
  }

  /** a and b are the usable steps next to x, one on each side, and a is the nearer. */
  ghost predicate Surround(x: real, dimMin: nat, a: int, b: int) {
    && Usable(a, dimMin) && Usable(b, dimMin)
    && (a as real <= x <= b as real || b as real <= x <= a as real)
    && (forall t: nat :: Usable(t, dimMin) ==> !(Min(a, b) < t < Max(a, b)))
    && AbsR(a as real - x) <= AbsR(b as real - x)
  }

  lemma CandidatesSurround(x: real, dimMin: nat)
    requires 0.0 < x
    ensures Candidate(x, dimMin, 0) != Candidate(x, dimMin, 1)
    ensures Surround(x, dimMin, Candidate(x, dimMin, 0), Candidate(x, dimMin, 1))
    ensures Candidate(x, dimMin, 2) == 0
  {
  }

  function CapOf(lim: Limits): real {
    if lim.whiteSumMax > 0.0 then MinR(lim.whiteSumMax, 1.0) else 1.0
  }

  /** What snapping fixes before it tries anything: the light to keep, the total in steps, the warm fraction. */
  datatype Job = Job(duty: Duty, tgt: Vec, x: real, warmSteps: nat, steps: nat, cap: real, dimMin: nat)

  function JobFor(m: Model, duty: Duty): (j: Job)
    requires NonNegative(duty) && duty.ww + duty.cw > 0.0
    ensures j.x > 0.0 && j.warmSteps <= j.steps && j.cap >= 0.0 && j.steps >= 1
  {
    var steps, total := Pow2(m.gridLog2), duty.ww + duty.cw;
    ProductPositive(total, steps as real);
    Job(duty, Forward(m, duty), Times(total, steps as real), WarmSteps(duty.ww, duty.cw, steps), steps, CapOf(m.lim), m.dimMin)
  }

  /** The warm share of the total, in whole steps. */
  function WarmSteps(ww: real, cw: real, steps: nat): (k: nat)
    requires 0.0 <= ww && 0.0 <= cw && ww + cw > 0.0
    ensures k <= steps
  {
    ShareRange(ww, cw);
    FractionRange(ww / (ww + cw), steps);
    Nearest(Times(ww / (ww + cw), steps as real))
  }

  /**
   What is snapped: the light of the duties, kept; their white total, between the two steps that are tried
   first; and the warm part of it, to half a step.
  */
  lemma JobIsNear(m: Model, duty: Duty)
    requires NonNegative(duty) && duty.ww + duty.cw > 0.0
    ensures var j, total, s := JobFor(m, duty), duty.ww + duty.cw, Pow2(m.gridLog2) as real;
      && j.tgt == Forward(m, duty) && j.duty == duty
      && Surround(Times(total, s), m.dimMin, Candidate(j.x, j.dimMin, 0), Candidate(j.x, j.dimMin, 1))
      && AbsR(Times(j.warmSteps as real, total) - Times(s, duty.ww)) <= total / 2.0
  {
    var j := JobFor(m, duty);
    CandidatesSurround(j.x, j.dimMin);
    WarmNear(duty.ww, duty.cw, j.steps);
    hide Forward, Candidate, Surround, WarmSteps, Times, AbsR;
  }

  lemma WarmNear(ww: real, cw: real, steps: nat)
    requires 0.0 <= ww && 0.0 <= cw && ww + cw > 0.0
    ensures AbsR(Times(WarmSteps(ww, cw, steps) as real, ww + cw) - Times(steps as real, ww)) <= (ww + cw) / 2.0
  {
    ShareRange(ww, cw);
    FractionRange(ww / (ww + cw), steps);
    var total, z := ww + cw, ww / (ww + cw);
    assert z * total == ww;
    NearShare(WarmSteps(ww, cw, steps) as real, z, steps as real, ww, total);
  }

  /** k is within half a step of the share z of s steps, so within half the total of its part. */
  lemma NearShare(k: real, z: real, s: real, ww: real, total: real)
    requires 0.0 < total && z * total == ww && -0.5 <= k - Times(z, s) <= 0.5
    ensures AbsR(Times(k, total) - Times(s, ww)) <= total / 2.0
  {
    PartsDiffer(k, z, s, ww, total);
    hide Times, AbsR;
    HalfAtMost(k - Times(z, s), total);
  }

  lemma PartsDiffer(k: real, z: real, s: real, ww: real, total: real)
    requires z * total == ww
    ensures Times(k, total) - Times(s, ww) == Times(k - Times(z, s), total)
  {
    assert s * ww == z * s * total;
  }

  lemma HalfAtMost(e: real, total: real)
    requires -0.5 <= e <= 0.5 && 0.0 < total
    ensures AbsR(Times(e, total)) <= total / 2.0
  {
    ProductNonNegative(0.5 - e, total);
    ProductNonNegative(0.5 + e, total);
    assert (0.5 - e) * total == 0.5 * total - e * total && (0.5 + e) * total == 0.5 * total + e * total;
  }

  lemma ShareRange(ww: real, cw: real)
    requires 0.0 <= ww && 0.0 <= cw && ww + cw > 0.0
    ensures 0.0 <= ww / (ww + cw) <= 1.0
  {
    QuotientBounds(0.0, ww, ww + cw);
    QuotientBounds(1.0, ww, ww + cw);
  }

  /** The logical pair that stands for t DIM steps and k CCT steps. */
  function GridWarm(t: int, k: int, steps: nat): real
    requires steps >= 1
  {
    t as real / steps as real * (k as real / steps as real)
  }

  function GridCold(t: int, k: int, steps: nat): real
    requires steps >= 1
  {
    t as real / steps as real * (1.0 - k as real / steps as real)
  }

  /** Whites at t DIM steps with the job's warm fraction, r, g, b as they were. */
  function WhitesAt(j: Job, t: int): Duty
    requires j.steps >= 1
  {
    j.duty.(ww := GridWarm(t, j.warmSteps, j.steps), cw := GridCold(t, j.warmSteps, j.steps))
  }

  predicate UnderCap(t: int, cap: real, steps: nat) {
    t as real <= cap * steps as real
  }

  predicate Tried(j: Job, k: nat)
    requires j.x > 0.0 && k < 3
  {
    var t := Candidate(j.x, j.dimMin, k);
    && UnderCap(t, j.cap, j.steps)
    && !(k == 2 && (Candidate(j.x, j.dimMin, 0) == 0 || Candidate(j.x, j.dimMin, 1) == 0))
  }

  function Outcome(m: Model, j: Job, k: nat): Completion
    requires j.x > 0.0 && j.steps >= 1 && k < 3
  {
    RgbForWhites(m, j.tgt, WhitesAt(j, Candidate(j.x, j.dimMin, k)))
  }

  datatype Choice = Choice(k: nat, d: Duty, err: real)

  function Better(best: Option<Choice>, k: nat, c: Completion): (r: Option<Choice>)
    ensures r.Some?
  {
    if best.None? || c.err < best.value.err then Some(Choice(k, c.d, c.err)) else best
  }

  function Pick(m: Model, j: Job, k: nat, best: Option<Choice>, evals: nat): (Option<Choice>, nat)
    requires j.x > 0.0 && j.steps >= 1 && k <= 3
    decreases 3 - k
  {
    if k == 3 then (best, evals)
    else if !Tried(j, k) then Pick(m, j, k + 1, best, evals)
    else
      var c := Outcome(m, j, k);
      if c.err < FIX_TOL * j.tgt.y then (Better(best, k, c), evals + c.evals)
      else Pick(m, j, k + 1, Better(best, k, c), evals + c.evals)
  }

  lemma PickStep(m: Model, j: Job, k: nat, best: Option<Choice>, evals: nat)
    requires j.x > 0.0 && j.steps >= 1 && k < 3
    ensures !Tried(j, k) ==> Pick(m, j, k, best, evals) == Pick(m, j, k + 1, best, evals)
    ensures Tried(j, k) ==>
              var c := Outcome(m, j, k);
              Pick(m, j, k, best, evals)
              == if c.err < FIX_TOL * j.tgt.y then (Better(best, k, c), evals + c.evals)
                 else Pick(m, j, k + 1, Better(best, k, c), evals + c.evals)
  {
    hide Tried, Outcome, Better;
  }

  lemma PickDone(m: Model, j: Job, best: Option<Choice>, evals: nat)
    requires j.x > 0.0 && j.steps >= 1
    ensures Pick(m, j, 3, best, evals) == (best, evals)
  {
  }

  function Snap(m: Model, out: Solution): Solution
    requires NonNegative(out.duty)
  {
    if !(out.duty.ww + out.duty.cw > 0.0) then out else
      var picked := Pick(m, JobFor(m, out.duty), 0, None, out.evals + 1);
      out.(duty := if picked.0.Some? then picked.0.value.d else out.duty, evals := picked.1)
  }

  method RunSnap(m: Model, out: Solution) returns (snapped: Solution)
    requires NonNegative(out.duty)
    ensures snapped == Snap(m, out)
  {
    hide RgbForWhites, JobFor, Candidate, WhitesAt, UnderCap, Tried, Better, NonNegative, Pick;
    if !(out.duty.ww + out.duty.cw > 0.0) {
      return out;
    }
    var j := JobFor(m, out.duty);
    var best: Option<Choice>, evals: nat := None, out.evals + 1;
    var k := 0;
    while k < 3
      invariant k <= 3
      invariant Pick(m, j, 0, None, out.evals + 1) == Pick(m, j, k, best, evals)
    {
      PickStep(m, j, k, best, evals);
      if Tried(j, k) {
        var d, err, n := RunRgbForWhites(m, j.tgt, WhitesAt(j, Candidate(j.x, j.dimMin, k)));
        evals := evals + n;
        best := Better(best, k, Completion(d, err, n));
        if err < FIX_TOL * j.tgt.y {
          assert Pick(m, j, 0, None, out.evals + 1) == (best, evals);
          return out.(duty := best.value.d, evals := evals);
        }
      }
      k := k + 1;
    }
    PickDone(m, j, best, evals);
    snapped := out.(duty := if best.Some? then best.value.d else out.duty, evals := evals);
  }

  // ---- what the pick means ----------------------------------------------------------------

  predicate OnCandidate(m: Model, j: Job, c: Choice)
    requires j.x > 0.0 && j.steps >= 1
  {
    c.k < 3 && Tried(j, c.k) && c.d == Outcome(m, j, c.k).d && c.err == Outcome(m, j, c.k).err
  }

  predicate Misses(m: Model, j: Job, i: nat)
    requires j.x > 0.0 && j.steps >= 1 && i < 3
  {
    Outcome(m, j, i).err >= FIX_TOL * j.tgt.y
  }

  /** Choice c misses less than step i, which missed by err; or as much, and was tried first. */
  predicate NoWorse(c: Choice, i: nat, err: real) {
    c.err < err || (c.err == err && c.k <= i)
  }

  /** The first tried step within tolerance; or none is, and this one misses least. */
  predicate BestChoice(m: Model, j: Job, c: Choice)
    requires j.x > 0.0 && j.steps >= 1
  {
    && OnCandidate(m, j, c)
    && (|| (!Misses(m, j, c.k) && forall i: nat :: i < c.k && Tried(j, i) ==> Misses(m, j, i))
        || (forall i: nat :: i < 3 && Tried(j, i) ==> Misses(m, j, i) && NoWorse(c, i, Outcome(m, j, i).err)))
  }

  /** The loop's state before candidate k: everything tried so far missed, best misses least. */
  predicate SoFar(m: Model, j: Job, best: Option<Choice>, k: nat)
    requires j.x > 0.0 && j.steps >= 1 && k <= 3
  {
    && (best.Some? ==> OnCandidate(m, j, best.value) && best.value.k < k)
    && (forall i: nat :: i < k && Tried(j, i) ==>
          Misses(m, j, i) && best.Some? && NoWorse(best.value, i, Outcome(m, j, i).err))
  }

  lemma {:induction false} PickFrom(m: Model, j: Job, k: nat, best: Option<Choice>, evals: nat)
    requires j.x > 0.0 && j.steps >= 1 && k <= 3 && SoFar(m, j, best, k)
    ensures var r := Pick(m, j, k, best, evals);
      && (r.0.Some? ==> BestChoice(m, j, r.0.value))
      && (r.0.None? ==> forall i: nat :: i < 3 ==> !Tried(j, i))
      && r.1 <= evals + 13 * (3 - k)
    decreases 3 - k
  {
    hide Candidate, RgbForWhites, WhitesAt, UnderCap;
    if k < 3 {
      if !Tried(j, k) {
        PickFrom(m, j, k + 1, best, evals);
      } else {
        var c := Outcome(m, j, k);
        CompletionCost(m, j.tgt, WhitesAt(j, Candidate(j.x, j.dimMin, k)));
        if Misses(m, j, k) {
          PickFrom(m, j, k + 1, Better(best, k, c), evals + c.evals);
        }
      }
    }
  }

  predicate RgbInCap(m: Model, d: Duty) {
    0.0 <= d.r <= m.lim.dutyMax && 0.0 <= d.g <= m.lim.dutyMax && 0.0 <= d.b <= m.lim.dutyMax
  }

  lemma {:induction false} RgbRoundsCost(m: Model, tgt: Vec, d: Duty, n: nat, evals: nat)
    ensures var r := RgbRounds(m, tgt, d, n, evals);
      && r.1 <= evals + n && r.0.ww == d.ww && r.0.cw == d.cw
      && (m.lim.Valid() && RgbInCap(m, d) ==> RgbInCap(m, r.0))
    decreases n
  {
    hide Singular, InvRgb, Mul, LocalPrims, Remainder;
    if n > 0 {
      var p := LocalPrims(m, d, true);
      if !Singular(p) {
        var next := ClampRgb(Mul(InvRgb(p), Remainder(tgt, d, p)), d, m.lim.dutyMax);
        RgbRoundsCost(m, tgt, next, n - 1, evals + 1);
      }
    }
  }

  lemma CompletionCost(m: Model, tgt: Vec, d: Duty)
    ensures var c := RgbForWhites(m, tgt, d);
      && c.evals <= 13 && c.d.ww == d.ww && c.d.cw == d.cw
      && (m.lim.Valid() && RgbInCap(m, d) ==> RgbInCap(m, c.d))
  {
    hide RgbRounds, Forward, Worst;
    RgbRoundsCost(m, tgt, d, FIX_ROUNDS, 0);
  }

  /** The error of a completion is how far its light misses. */
  lemma MissIsDistance(m: Model, tgt: Vec, d: Duty, tol: real)
    requires 0.0 < tol
    ensures var c := RgbForWhites(m, tgt, d); c.err < tol <==> Within(Forward(m, c.d), tgt, tol)
  {
    hide RgbRounds, Forward, Worst, Within;
    var r := RgbRounds(m, tgt, d, FIX_ROUNDS, 0).0;
    WorstBounds(Forward(m, r), tgt, tol);
  }

  /** Whites off is always among the steps tried. */
  lemma SomethingTried(j: Job)
    requires j.x > 0.0 && j.cap >= 0.0 && j.steps >= 1
    ensures exists i: nat :: i < 3 && Tried(j, i)
  {
    ProductNonNegative(j.cap, j.steps as real);
    hide Candidate;
    assert Candidate(j.x, j.dimMin, 2) == 0;
    if Candidate(j.x, j.dimMin, 0) == 0 {
      assert Tried(j, 0);
    } else if Candidate(j.x, j.dimMin, 1) == 0 {
      assert Tried(j, 1);
    } else {
      assert Tried(j, 2);
    }
  }

  /** DIM and CCT steps of a white pair: t of the first, k of the second. */
  predicate PairOnGrid(d: Duty, t: nat, k: nat, steps: nat)
    requires steps >= 1
  {
    k <= steps && d.ww == GridWarm(t, k, steps) && d.cw == GridCold(t, k, steps)
  }

  lemma SnapParts(m: Model, out: Solution)
    requires NonNegative(out.duty) && out.duty.ww + out.duty.cw > 0.0
    ensures var j, r := JobFor(m, out.duty), Snap(m, out);
      var picked := Pick(m, j, 0, None, out.evals + 1);
      && (picked.0.Some? ==> r.duty == picked.0.value.d) && r.evals == picked.1
      && r.mode == out.mode && r.lm == out.lm && r.desat == out.desat
      && j.dimMin == m.dimMin && j.cap == CapOf(m.lim) && j.duty == out.duty
  {
    hide Pick;
  }

  /** The chosen duties keep the whites of their step. */
  lemma ChoiceOnGrid(m: Model, j: Job, c: Choice)
    requires j.x > 0.0 && j.steps >= 1 && j.warmSteps <= j.steps
    ensures BestChoice(m, j, c) ==>
              && c.k < 3
              && var t := Candidate(j.x, j.dimMin, c.k);
              && PairOnGrid(c.d, t, j.warmSteps, j.steps)
              && (m.lim.Valid() && RgbInCap(m, j.duty) ==> RgbInCap(m, c.d))
              && (t == 0 || t >= j.dimMin) && UnderCap(t, j.cap, j.steps)
  {
    hide Candidate, GridWarm, GridCold, RgbForWhites, UnderCap;
    if BestChoice(m, j, c) {
      CompletionCost(m, j.tgt, WhitesAt(j, Candidate(j.x, j.dimMin, c.k)));
    }
  }

  /**
   After snapping a lit white pair: it sits on the grid, its DIM is off or at least the driver's
   minimum and within the cap, the choice was the best one, and it cost at most 40 evaluations.
  */
  lemma SnapOnGrid(m: Model, out: Solution) returns (c: Choice, t: nat)
    requires NonNegative(out.duty) && out.duty.ww + out.duty.cw > 0.0
    ensures var j, r := JobFor(m, out.duty), Snap(m, out);
      && BestChoice(m, j, c) && r.duty == c.d && c.k < 3 && t == Candidate(j.x, j.dimMin, c.k)
      && PairOnGrid(r.duty, t, j.warmSteps, j.steps)
      && (m.lim.Valid() && RgbInCap(m, out.duty) ==> RgbInCap(m, r.duty))
      && (t == 0 || t >= m.dimMin) && UnderCap(t, CapOf(m.lim), j.steps)
      && r.evals <= out.evals + 40
      && r.mode == out.mode && r.lm == out.lm && r.desat == out.desat
  {
    var j := JobFor(m, out.duty);
    SnapParts(m, out);
    assert SoFar(m, j, None, 0);
    SomethingTried(j);
    hide *;
    PickFrom(m, j, 0, None, out.evals + 1);
    c := Pick(m, j, 0, None, out.evals + 1).0.value;
    ChoiceOnGrid(m, j, c);
    t := Candidate(j.x, j.dimMin, c.k);
  }

  /** The snap may use candidate i: it does not exceed what the whites may add up to, nor full level. */
  predicate Allowed(m: Model, j: Job, i: nat)
    requires j.x > 0.0 && i < 3
  {
    var t := Candidate(j.x, j.dimMin, i) as real;
    t <= j.steps as real && (m.lim.whiteSumMax > 0.0 ==> t <= Times(m.lim.whiteSumMax, j.steps as real))
  }

  /** With candidate i, r, g, b make the light of the unsnapped duties within the tolerance. */
  predicate Keeps(m: Model, j: Job, i: nat)
    requires j.x > 0.0 && j.steps >= 1 && i < 3
  {
    Within(Forward(m, Outcome(m, j, i).d), j.tgt, FIX_TOL * j.tgt.y)
  }

  lemma AllowedIsUnderCap(m: Model, j: Job, i: nat)
    requires j.x > 0.0 && i < 3 && j.cap == CapOf(m.lim)
    ensures Allowed(m, j, i) <==> UnderCap(Candidate(j.x, j.dimMin, i), j.cap, j.steps)
  {
    hide Candidate;
    if 0.0 < m.lim.whiteSumMax <= 1.0 {
      ProductNonNegative(1.0 - m.lim.whiteSumMax, j.steps as real);
      assert (1.0 - m.lim.whiteSumMax) * j.steps as real == j.steps as real - m.lim.whiteSumMax * j.steps as real;
    } else if m.lim.whiteSumMax > 1.0 {
      ProductNonNegative(m.lim.whiteSumMax - 1.0, j.steps as real);
      assert (m.lim.whiteSumMax - 1.0) * j.steps as real == m.lim.whiteSumMax * j.steps as real - j.steps as real;
    }
  }

  /** An allowed candidate is tried, or is off a second time. */
  lemma TriedOrAgain(m: Model, j: Job, i: nat)
    requires j.x > 0.0 && j.steps >= 1 && i < 3 && j.cap == CapOf(m.lim) && Allowed(m, j, i)
    ensures Tried(j, i)
         || exists e: nat :: e < i && Tried(j, e) && Candidate(j.x, j.dimMin, e) == Candidate(j.x, j.dimMin, i)
  {
    AllowedIsUnderCap(m, j, i);
    hide UnderCap;
    if !Tried(j, i) {
      assert i == 2 && Candidate(j.x, j.dimMin, 2) == 0;
      var e: nat := if Candidate(j.x, j.dimMin, 0) == 0 then 0 else 1;
      assert Candidate(j.x, j.dimMin, e) == 0;
      hide Candidate;
      assert Tried(j, e);
    }
  }

  /**
   What is taken is the first allowed candidate with which r, g, b keep the light, if there is one; if not,
   one that misses it least.
  */
  lemma SnapTakesFirst(m: Model, out: Solution) returns (k: nat)
    requires NonNegative(out.duty) && out.duty.ww + out.duty.cw > 0.0 && 0.0 < Forward(m, out.duty).y
    ensures var j := JobFor(m, out.duty);
      && k < 3 && Allowed(m, j, k) && Snap(m, out).duty == Outcome(m, j, k).d
      && (forall i: nat :: i < k && Allowed(m, j, i) ==> !Keeps(m, j, i))
      && (Keeps(m, j, k) || forall i: nat :: i < 3 && Allowed(m, j, i) ==>
            !Keeps(m, j, i) && Outcome(m, j, k).err <= Outcome(m, j, i).err)
  {
    var j := JobFor(m, out.duty);
    JobIsNear(m, out.duty);
    var c, t := SnapOnGrid(m, out);
    k := c.k;
    hide Snap, JobFor, Forward, Within, RgbForWhites, Candidate, UnderCap, Allowed, Tried;
    AllowedIsUnderCap(m, j, k);
    forall i: nat | i < 3
      ensures Misses(m, j, i) <==> !Keeps(m, j, i)
    {
      MissIsDistance(m, j.tgt, WhitesAt(j, Candidate(j.x, j.dimMin, i)), FIX_TOL * j.tgt.y);
    }
    forall i: nat | i < 3 && Allowed(m, j, i)
      ensures Tried(j, i) || exists e: nat :: e < i && Tried(j, e) && Outcome(m, j, e) == Outcome(m, j, i)
    {
      TriedOrAgain(m, j, i);
    }
  }

  // ---- lemtone_solve ----------------------------------------------------------------------

  lemma ShownIsNonNegative(m: Model, ab: Point, y: real, d: Duty)
    ensures Shows(m, ab, y, d) ==> NonNegative(d)
  {
    hide TargetXyz, Forward, Within;
  }

  lemma DesatNonNegative(m: Model, f: real, w: Point, p: Point, lm: real, out: Solution)
    requires m.Valid()
    ensures DesatWitness(m, f, w, p, lm, out) ==> NonNegative(out.duty)
  {
    hide Shows, Toward, AttemptAb, Luminance;
    ShownIsNonNegative(m, Toward(w, p, 1.0 - out.desat), Luminance(m, lm), out.duty);
  }

  lemma ClampNonNegative(m: Model, f: real, w: Point, lm: real, out: Solution)
    requires m.Valid()
    ensures ClampWitness(m, f, w, lm, out) ==> NonNegative(out.duty)
  {
    hide Shows, AttemptAb, Luminance;
    if ClampWitness(m, f, w, lm, out) && out.lm > 0.0 {
      ShownIsNonNegative(m, w, Luminance(m, out.lm), out.duty);
    }
  }

  lemma AnswerNonNegative(m: Model, a: real, b: real, lm: real, fidelity: real)
    requires m.Valid()
    ensures NonNegative(SolveFree(m, a, b, lm, fidelity).duty)
  {
    hide SolveFree, AttemptAb, Shows, WhiteAnchor, Clamp01, Luminance, DesatWitness, ClampWitness;
    SolveAnswers(m, a, b, lm, fidelity);
    var f, y, p, out := Clamp01(fidelity), Luminance(m, lm), Point(a, b), SolveFree(m, a, b, lm, fidelity);
    match out.mode
    case Off =>
    case Exact => ShownIsNonNegative(m, p, y, out.duty);
    case Desat => DesatNonNegative(m, f, WhiteAnchor(m, p, y).w, p, lm, out);
    case Clamp => ClampNonNegative(m, f, WhiteAnchor(m, p, y).w, lm, out);
  }

  /** Only driver whites are snapped, and only when the lumens were met. */
  function Solve(m: Model, a: real, b: real, lm: real, fidelity: real): Solution
    requires m.Valid()
  {
    var out := SolveFree(m, a, b, lm, fidelity);
    AnswerNonNegative(m, a, b, lm, fidelity);
    if m.gridLog2 != 0 && (out.mode.Exact? || out.mode.Desat?) then Snap(m, out) else out
  }

  method RunSolve(m: Model, a: real, b: real, lm: real, fidelity: real) returns (out: Solution)
    requires m.Valid()
    ensures out == Solve(m, a, b, lm, fidelity)
  {
    hide SolveFree, Snap;
    out := RunSolveFree(m, a, b, lm, fidelity);
    if m.gridLog2 != 0 && (out.mode.Exact? || out.mode.Desat?) {
      AnswerNonNegative(m, a, b, lm, fidelity);
      out := RunSnap(m, out);
    }
  }

  /** The evaluation counter is 16 bits wide and never gets past 266. */
  lemma SolveCost(m: Model, a: real, b: real, lm: real, fidelity: real)
    requires m.Valid()
    ensures Solve(m, a, b, lm, fidelity).evals <= 266 < 0x1_0000
  {
    SolveAnswers(m, a, b, lm, fidelity);
    var out := SolveFree(m, a, b, lm, fidelity);
    hide SolveFree, Snap, Witnessed;
    AnswerNonNegative(m, a, b, lm, fidelity);
    if m.gridLog2 != 0 && !out.mode.Clamp? {
      SnapCost(m, out);
    }
  }

  lemma SnapCost(m: Model, out: Solution)
    requires NonNegative(out.duty)
    ensures Snap(m, out).evals <= out.evals + 40
  {
    if out.duty.ww + out.duty.cw > 0.0 {
      hide *;
      var c, t := SnapOnGrid(m, out);
    }
  }
}
