/**
 From duties to ticks: the period each channel gets, the whole ticks of on-time in it, and
 the DIM / CCT steps of a driver's white pair.
*/
module LemtoneQuantize {
  import opened Numeric
  import opened LemtoneLinear
  import opened LemtoneClosedForm
  import opened LemtoneModel
  import opened LemtoneSnap

  // ---- periods ----------------------------------------------------------------------------

  const MAX_TIERS: nat := 4

  datatype Tier = Tier(lmAbove: real, cap: nat)

  datatype PeriodCfg = PeriodCfg(nMin: nat, nMax: nat, resTicks: nat, tiers: seq<Tier>) {
    predicate Valid() {
      nMin <= nMax
    }
  }

  const DEFAULT_PERIODS := PeriodCfg(10, 14, 200, [Tier(180.0, 10), Tier(60.0, 12)])

  function Ticks(duty: real, n: nat): real {
    duty * Pow2(n) as real
  }

  /** The brightness cap: first tier the lumens exceed, kept inside [nMin, nMax]. */
  function CapFor(cfg: PeriodCfg, lm: real, t: nat): (cap: nat)
    requires cfg.Valid()
    ensures cfg.nMin <= cap <= cfg.nMax
    decreases MAX_TIERS - t
  {
    if t < |cfg.tiers| && t < MAX_TIERS then
      if lm > cfg.tiers[t].lmAbove then Min(Max(cfg.tiers[t].cap, cfg.nMin), cfg.nMax) else CapFor(cfg, lm, t + 1)
    else cfg.nMax
  }

  /** A channel with no whole tick even at the longest period is off and keeps nMin. */
  predicate Dark(cfg: PeriodCfg, duty: real) {
    Ticks(duty, cfg.nMax) < 0.5
  }

  /** n is the shortest period in [nMin, cap] that gives resTicks of on-time, or cap if none does. */
  predicate ShortestEnough(cfg: PeriodCfg, cap: nat, duty: real, n: nat) {
    && cfg.nMin <= n <= cap
    && (n == cap || Ticks(duty, n) >= cfg.resTicks as real)
    && forall k: nat :: cfg.nMin <= k < n ==> Ticks(duty, k) < cfg.resTicks as real
  }

  predicate PeriodOf(cfg: PeriodCfg, lm: real, duty: real, n: nat)
    requires cfg.Valid()
  {
    if Dark(cfg, duty) then n == cfg.nMin else ShortestEnough(cfg, CapFor(cfg, lm, 0), duty, n)
  }

  method RunPeriods(cfg: PeriodCfg, duty: Duty, lm: real, out: array<nat>)
    requires cfg.Valid() && out.Length == 5
    modifies out
    ensures forall i: Channel :: PeriodOf(cfg, lm, DutyOf(duty, i), out[i])
  {
    hide Ticks;
    var cap := cfg.nMax;
    var t := 0;
    while t < |cfg.tiers| && t < MAX_TIERS
      invariant t <= |cfg.tiers| && t <= MAX_TIERS && cap == cfg.nMax
      invariant CapFor(cfg, lm, 0) == CapFor(cfg, lm, t)
    {
      if lm > cfg.tiers[t].lmAbove {
        cap := cfg.tiers[t].cap;
        break;
      }
      t := t + 1;
    }
    if cap < cfg.nMin {
      cap := cfg.nMin;
    }
    if cap > cfg.nMax {
      cap := cfg.nMax;
    }
    assert cap == CapFor(cfg, lm, 0);
    hide CapFor;
    for i := 0 to 5
      invariant forall c: Channel :: c < i ==> PeriodOf(cfg, lm, DutyOf(duty, c), out[c])
    {
      var n := ChoosePeriod(cfg, cap, DutyOf(duty, i));
      out[i] := n;
      assert PeriodOf(cfg, lm, DutyOf(duty, i), out[i]);
    }
  }

  method ChoosePeriod(cfg: PeriodCfg, cap: nat, duty: real) returns (n: nat)
    requires cfg.nMin <= cap
    ensures if Dark(cfg, duty) then n == cfg.nMin else ShortestEnough(cfg, cap, duty, n)
  {
    n := cfg.nMin;
    if Ticks(duty, cfg.nMax) >= 0.5 {
      while n < cap && Ticks(duty, n) < cfg.resTicks as real
        invariant cfg.nMin <= n <= cap
        invariant forall k: nat :: cfg.nMin <= k < n ==> Ticks(duty, k) < cfg.resTicks as real
      {
        n := n + 1;
      }
    }
  }

  lemma PeriodInRange(cfg: PeriodCfg, lm: real, duty: real, n: nat)
    requires cfg.Valid() && PeriodOf(cfg, lm, duty, n)
    ensures cfg.nMin <= n <= cfg.nMax
  {
    hide Ticks;
  }

  /** A tier's cap, kept inside [nMin, nMax]. */
  function TierCap(cfg: PeriodCfg, t: nat): nat
    requires cfg.Valid() && t < |cfg.tiers|
  {
    Min(Max(cfg.tiers[t].cap, cfg.nMin), cfg.nMax)
  }

  function TierCount(cfg: PeriodCfg): nat {
    Min(|cfg.tiers|, MAX_TIERS)
  }

  /** As the configuration's description asks: tiers sorted by descending lumens. */
  predicate TiersDescend(cfg: PeriodCfg) {
    forall t: nat :: t + 1 < TierCount(cfg) ==> cfg.tiers[t].lmAbove > cfg.tiers[t + 1].lmAbove
  }

  /** No dimmer tier has a shorter cap. */
  predicate CapsAscend(cfg: PeriodCfg)
    requires cfg.Valid()
  {
    forall t: nat :: t + 1 < TierCount(cfg) ==> TierCap(cfg, t) <= TierCap(cfg, t + 1)
  }

  lemma {:induction false} CapAtLeastTier(cfg: PeriodCfg, lm: real, t: nat)
    requires cfg.Valid() && CapsAscend(cfg) && t < TierCount(cfg)
    ensures TierCap(cfg, t) <= CapFor(cfg, lm, t)
    decreases TierCount(cfg) - t
  {
    if lm <= cfg.tiers[t].lmAbove && t + 1 < TierCount(cfg) {
      assert TierCap(cfg, t) <= TierCap(cfg, t + 1);
      CapAtLeastTier(cfg, lm, t + 1);
    }
  }

  lemma {:induction false} MoreLumensLowerCap(cfg: PeriodCfg, lm1: real, lm2: real, t: nat)
    requires cfg.Valid() && CapsAscend(cfg) && lm1 <= lm2 && t <= TierCount(cfg)
    ensures CapFor(cfg, lm2, t) <= CapFor(cfg, lm1, t)
    decreases TierCount(cfg) - t
  {
    if t < TierCount(cfg) {
      if lm2 > cfg.tiers[t].lmAbove {
        CapAtLeastTier(cfg, lm1, t);
        assert CapFor(cfg, lm2, t) == TierCap(cfg, t);
      } else {
        MoreLumensLowerCap(cfg, lm1, lm2, t + 1);
      }
    }
  }

  /** Lumens at a sorted tier's threshold fall through to a later tier; a little more picks the tier itself. */
  lemma {:induction false} CapAtThreshold(cfg: PeriodCfg, t: nat, lm: real, u: nat)
    requires cfg.Valid() && TiersDescend(cfg) && u <= t < TierCount(cfg)
    requires cfg.tiers[t].lmAbove < lm && (t > 0 ==> lm <= cfg.tiers[t - 1].lmAbove)
    ensures CapFor(cfg, lm, u) == TierCap(cfg, t)
    decreases t - u
  {
    if u < t {
      DescendAcross(cfg, u, t - 1);
      CapAtThreshold(cfg, t, lm, u + 1);
    }
  }

  lemma {:induction false} DescendAcross(cfg: PeriodCfg, u: nat, t: nat)
    requires TiersDescend(cfg) && u <= t < TierCount(cfg)
    ensures cfg.tiers[u].lmAbove >= cfg.tiers[t].lmAbove
    decreases t - u
  {
    if u < t {
      assert cfg.tiers[u].lmAbove > cfg.tiers[u + 1].lmAbove;
      DescendAcross(cfg, u + 1, t);
    }
  }

  ghost predicate MoreLumensNeverSlower(cfg: PeriodCfg)
    requires cfg.Valid()
  {
    forall lm1: real, lm2: real :: lm1 <= lm2 ==> CapFor(cfg, lm2, 0) <= CapFor(cfg, lm1, 0)
  }

  /** With sorted tiers, more lumens never raise the cap exactly when no dimmer tier has a shorter one. */
  lemma LumensShortenIffCapsAscend(cfg: PeriodCfg)
    requires cfg.Valid() && TiersDescend(cfg)
    ensures MoreLumensNeverSlower(cfg) <==> CapsAscend(cfg)
  {
    if CapsAscend(cfg) {
      forall lm1: real, lm2: real | lm1 <= lm2 ensures CapFor(cfg, lm2, 0) <= CapFor(cfg, lm1, 0) {
        MoreLumensLowerCap(cfg, lm1, lm2, 0);
      }
    }
    if MoreLumensNeverSlower(cfg) {
      forall t: nat | t + 1 < TierCount(cfg) ensures TierCap(cfg, t) <= TierCap(cfg, t + 1) {
        var dim := cfg.tiers[t].lmAbove;
        var bright := if t > 0 then cfg.tiers[t - 1].lmAbove else dim + 1.0;
        assert cfg.tiers[t].lmAbove > cfg.tiers[t + 1].lmAbove;
        CapAtThreshold(cfg, t + 1, dim, 0);
        CapAtThreshold(cfg, t, bright, 0);
        assert CapFor(cfg, bright, 0) <= CapFor(cfg, dim, 0);
      }
    }
  }

  lemma DefaultTiersInOrder()
    ensures DEFAULT_PERIODS.Valid() && TiersDescend(DEFAULT_PERIODS) && CapsAscend(DEFAULT_PERIODS)
  {
  }

  /** The shortest period already has enough ticks for duty d, or lm lumens allow no longer one. */
  predicate MinIsEnough(cfg: PeriodCfg, lm: real, d: real)
    requires cfg.Valid()
  {
    Dark(cfg, d) || Ticks(d, cfg.nMin) >= cfg.resTicks as real || CapFor(cfg, lm, 0) == cfg.nMin
  }

  /**
   Brighter, in this channel or in all, means no longer a period exactly if the channel was lit before or
   the shortest period is enough for it now: a dark channel has the shortest one, and may light up slower.
  */
  lemma BrighterIsFaster(cfg: PeriodCfg, lm1: real, d1: real, n1: nat, lm2: real, d2: real, n2: nat)
    requires cfg.Valid() && d1 <= d2 && lm1 <= lm2 && (lm1 < lm2 ==> CapsAscend(cfg))
    requires PeriodOf(cfg, lm1, d1, n1) && PeriodOf(cfg, lm2, d2, n2)
    ensures n2 <= n1 <==> !Dark(cfg, d1) || MinIsEnough(cfg, lm2, d2)
  {
    PeriodInRange(cfg, lm1, d1, n1);
    MinimalPeriod(cfg, lm2, d2, n2);
    if lm1 < lm2 {
      MoreLumensLowerCap(cfg, lm1, lm2, 0);
    }
    TicksMonotone(d1, d2, cfg.nMax);
    TicksMonotone(d1, d2, n1);
    hide Ticks, CapFor, CapsAscend, MinIsEnough;
  }

  lemma MinimalPeriod(cfg: PeriodCfg, lm: real, d: real, n: nat)
    requires cfg.Valid() && PeriodOf(cfg, lm, d, n)
    ensures cfg.nMin <= n && (n == cfg.nMin <==> MinIsEnough(cfg, lm, d))
  {
    hide Ticks, CapFor;
  }

  lemma TicksMonotone(d1: real, d2: real, n: nat)
    requires d1 <= d2
    ensures Ticks(d1, n) <= Ticks(d2, n)
  {
    ProductNonNegative(d2 - d1, Pow2(n) as real);
    assert (d2 - d1) * Pow2(n) as real == Ticks(d2, n) - Ticks(d1, n);
  }

  // ---- ticks ------------------------------------------------------------------------------

  datatype ChannelPwm = ChannelPwm(log2: nat, ticks: nat, cmd: real, eff: real)

  /** Floor of the duty cap in ticks. */
  function TickCap(dutyMax: real, n: nat): (t: nat)
    requires 0.0 <= dutyMax
  {
    ProductNonNegative(dutyMax, Pow2(n) as real);
    Ticks(dutyMax, n).Floor
  }

  /** Ticks for a duty whose every pulse makes `pulse` ticks of light beyond its length. */
  function TickCount(duty: real, dutyMax: real, pulse: real, n: nat): nat
    requires 0.0 <= dutyMax
  {
    var t := if Ticks(duty, n) >= 0.5 then Ticks(duty, n) - pulse else 0.0;
    var ticks := if t > 0.0 then (t + 0.5).Floor else 0;
    Min(ticks, TickCap(dutyMax, n))
  }

  function QuantizeOne(duty: real, dutyMax: real, pulse: real, n: nat): ChannelPwm
    requires 0.0 <= dutyMax
  {
    var ticks, steps := TickCount(duty, dutyMax, pulse, n), Pow2(n) as real;
    ChannelPwm(n, ticks, ticks as real / steps, if ticks != 0 then MaxR(0.0, ticks as real + pulse) / steps else 0.0)
  }

  /**
   The ticks for x ticks of light: none for less than half a tick of light, or of pulse; the whole number
   nearest to what the pulse leaves to do; the cap where that is more.
  */
  predicate TicksFor(x: real, pulse: real, cap: nat, ticks: nat) {
    && (x < 0.5 || x - pulse < 0.5 ==> ticks == 0)
    && (x >= 0.5 && 0.5 <= x - pulse < cap as real + 0.5 ==> IsNearest(ticks, x - pulse))
    && (x >= 0.5 && x - pulse >= cap as real + 0.5 ==> ticks == cap)
  }

  /** The request fits: it makes at least half a tick, and the pulse leaves no more than the cap to do. */
  predicate Fulfillable(x: real, pulse: real, cap: nat) {
    x >= 0.5 && 0.5 <= x - pulse < cap as real + 0.5
  }

  /** Whether ticks are zero, at the cap or in between is the request's doing; one that fits is met to half a tick. */
  lemma TicksKeepDuty(duty: real, dutyMax: real, pulse: real, n: nat)
    requires 0.0 <= dutyMax
    ensures var q, x, cap := QuantizeOne(duty, dutyMax, pulse, n), Ticks(duty, n), Ticks(dutyMax, n).Floor;
      && 0 <= cap && TicksFor(x, pulse, cap, q.ticks) && q.ticks <= cap
      && (Fulfillable(x, pulse, cap) ==> q.ticks > 0 && x - 0.5 <= Ticks(q.eff, n) <= x + 0.5)
      && (0 < q.ticks < cap ==> x - 0.5 <= Ticks(q.eff, n) <= x + 0.5)
      && Ticks(q.eff, n) == (if q.ticks == 0 then 0.0 else MaxR(0.0, q.ticks as real + pulse))
  {
    var q, steps := QuantizeOne(duty, dutyMax, pulse, n), Pow2(n) as real;
    CountIs(duty, dutyMax, pulse, n);
    Undivide(MaxR(0.0, q.ticks as real + pulse), steps);
  }

  lemma CountIs(duty: real, dutyMax: real, pulse: real, n: nat)
    requires 0.0 <= dutyMax
    ensures TicksFor(Ticks(duty, n), pulse, TickCap(dutyMax, n), TickCount(duty, dutyMax, pulse, n))
    ensures TickCount(duty, dutyMax, pulse, n) <= TickCap(dutyMax, n)
  {
    hide Ticks, TickCap;
  }

  lemma Undivide(x: real, s: real)
    requires 0.0 < s
    ensures x / s * s == x
  {
  }

  /** The command duty stands for exactly its ticks. */
  lemma CommandIsTicks(duty: real, dutyMax: real, pulse: real, n: nat)
    requires 0.0 <= dutyMax <= 1.0
    ensures var q := QuantizeOne(duty, dutyMax, pulse, n);
      && Ticks(q.cmd, n) == q.ticks as real
      && 0.0 <= q.cmd <= dutyMax
      && (q.cmd > 0.0 <==> q.ticks > 0)
  {
    var q, steps := QuantizeOne(duty, dutyMax, pulse, n), Pow2(n) as real;
    Undivide(q.ticks as real, steps);
    QuotientBounds(dutyMax, q.ticks as real, steps);
    QuotientBounds(0.0, q.ticks as real, steps);
  }

  // ---- the driver's white pair ------------------------------------------------------------

  datatype WhitePair = WhitePair(dim: nat, cct: nat)

  function CapSteps(cap: real, steps: nat): nat
    requires 0.0 <= cap
  {
    ProductNonNegative(cap, steps as real);
    (cap * steps as real).Floor
  }

  /** Nearest whole number of steps to a fraction of them. */
  function StepsOf(fraction: real, steps: nat): nat
    requires 0.0 <= fraction
  {
    ProductNonNegative(fraction, steps as real);
    Nearest(Times(fraction, steps as real))
  }

  function Share(part: real, whole: real): (s: real)
    requires 0.0 <= part && 0.0 < whole
    ensures 0.0 <= s
  {
    QuotientBounds(0.0, part, whole);
    part / whole
  }

  /** quantize_white_pair */
  function QuantizePair(ww: real, cw: real, cap: real, steps: nat): WhitePair
    requires 0.0 <= ww && 0.0 <= cw && 0.0 <= cap
  {
    var total := ww + cw;
    var dim := if total > 0.0 then Min(StepsOf(total, steps), CapSteps(cap, steps)) else 0;
    var cct := if dim != 0 then Min(StepsOf(Share(ww, total), steps), steps) else 0;
    WhitePair(dim, cct)
  }

  /**
   Any pair, on the grid or off: DIM is the step nearest to the total if that is half a step or more below
   the cap, and the last step under the cap if it is not; where both could be, one of the two. And CCT,
   where DIM is not zero, is the step nearest to the warm fraction.
  */
  lemma PairIsNearest(ww: real, cw: real, cap: real, steps: nat)
    requires 0.0 <= ww && 0.0 <= cw && 0.0 <= cap && steps >= 1
    ensures var q, total := QuantizePair(ww, cw, cap, steps), ww + cw;
      var x, top := Times(total, steps as real), Times(cap, steps as real);
      && (x <= top - 0.5 ==> IsNearStep(q.dim, x))
      && (top + 0.5 <= x ==> IsStepBelow(q.dim, cap, steps))
      && (q.dim as real <= top && (IsNearStep(q.dim, x) || (IsStepBelow(q.dim, cap, steps) && q.dim as real <= x)))
      && (q.dim > 0 ==> total > 0.0 && q.cct <= steps
                        && AbsR(Times(q.cct as real, total) - Times(steps as real, ww)) <= total / 2.0)
  {
    var q, total := QuantizePair(ww, cw, cap, steps), ww + cw;
    ProductNonNegative(cap, steps as real);
    ProductNonNegative(total, steps as real);
    if q.dim > 0 {
      ShareRange(ww, cw);
      ShareNear(ww, total, steps);
    }
  }

  predicate IsNearStep(k: nat, x: real) {
    -0.5 <= k as real - x <= 0.5
  }

  /** The last whole step not above the cap. */
  predicate IsStepBelow(k: nat, cap: real, steps: nat) {
    k as real <= Times(cap, steps as real) < k as real + 1.0
  }

  lemma ShareNear(ww: real, total: real, steps: nat)
    requires 0.0 <= ww <= total && 0.0 < total && Share(ww, total) <= 1.0
    ensures StepsOf(Share(ww, total), steps) <= steps
    ensures AbsR(Times(StepsOf(Share(ww, total), steps) as real, total) - Times(steps as real, ww)) <= total / 2.0
  {
    var z := Share(ww, total);
    FractionRange(z, steps);
    assert z * total == ww;
    hide AbsR, Times;
    NearShare(StepsOf(z, steps) as real, z, steps as real, ww, total);
  }

  lemma GridTotal(t: nat, k: nat, steps: nat)
    requires steps >= 1 && k <= steps
    ensures 0.0 <= GridWarm(t, k, steps) && 0.0 <= GridCold(t, k, steps)
    ensures GridWarm(t, k, steps) + GridCold(t, k, steps) == t as real / steps as real
  {
    var dim, c := t as real / steps as real, k as real / steps as real;
    QuotientBounds(0.0, t as real, steps as real);
    QuotientBounds(0.0, k as real, steps as real);
    QuotientBounds(1.0, k as real, steps as real);
    ProductNonNegative(dim, c);
    ProductNonNegative(dim, 1.0 - c);
    assert dim * c + dim * (1.0 - c) == dim;
  }

  lemma WholeSteps(k: nat, steps: nat)
    requires steps >= 1
    ensures 0.0 <= k as real / steps as real
    ensures StepsOf(k as real / steps as real, steps) == k
  {
    QuotientBounds(0.0, k as real, steps as real);
    Undivide(k as real, steps as real);
  }

  lemma GridShare(t: nat, k: nat, steps: nat)
    requires steps >= 1 && t >= 1
    ensures t as real / steps as real > 0.0
    ensures GridWarm(t, k, steps) / (t as real / steps as real) == k as real / steps as real
  {
    QuotientBounds(0.0, t as real, steps as real);
    Undivide(t as real, steps as real);
    Cancel(t as real / steps as real, k as real / steps as real);
  }

  lemma Cancel(x: real, y: real)
    requires x > 0.0
    ensures x * y / x == y
  {
  }

  lemma UnderCapSteps(t: nat, cap: real, steps: nat)
    requires 0.0 <= cap && UnderCap(t, cap, steps)
    ensures t <= CapSteps(cap, steps)
  {
  }

  /** A pair already on the grid and under the cap keeps its steps; an unlit one has no ratio. */
  lemma PairSurvives(d: Duty, t: nat, k: nat, steps: nat, cap: real)
    requires steps >= 1 && PairOnGrid(d, t, k, steps) && 0.0 <= cap && UnderCap(t, cap, steps)
    ensures 0.0 <= d.ww && 0.0 <= d.cw
    ensures QuantizePair(d.ww, d.cw, cap, steps) == WhitePair(t, if t == 0 then 0 else k)
  {
    GridTotal(t, k, steps);
    WholeSteps(t, steps);
    WholeSteps(k, steps);
    UnderCapSteps(t, cap, steps);
    if t > 0 {
      GridShare(t, k, steps);
      hide StepsOf, GridWarm, GridCold, CapSteps, UnderCap;
    }
  }

  /** What the packet carries for channel i: driver whites carry CCT and DIM steps, the rest ticks. */
  function OutputOf(m: Model, pulse: (Channel, nat) -> real, d: Duty, log2: nat, i: Channel): ChannelPwm
    requires m.Valid() && NonNegative(d)
  {
    if m.gridLog2 != 0 && i >= 3 then
      var steps := Pow2(m.gridLog2);
      var pair := QuantizePair(d.ww, d.cw, CapOf(m.lim), steps);
      if i == 3 then
        var ww := GridWarm(pair.dim, pair.cct, steps);
        ChannelPwm(m.gridLog2, pair.cct, ww, ww)
      else
        var cw := GridCold(pair.dim, pair.cct, steps);
        ChannelPwm(m.gridLog2, pair.dim, cw, cw)
    else QuantizeOne(DutyOf(d, i), m.lim.dutyMax, pulse(i, log2), log2)
  }

  /** lemtone_quantize: every channel as if direct, then the white entries over again. */
  method RunQuantize(m: Model, pulse: (Channel, nat) -> real, d: Duty, log2: seq<nat>, out: array<ChannelPwm>)
    requires m.Valid() && NonNegative(d) && |log2| == 5 && out.Length == 5
    modifies out
    ensures forall i: Channel :: out[i] == OutputOf(m, pulse, d, log2[i], i)
  {
    hide QuantizeOne, QuantizePair, GridWarm, GridCold, CapOf;
    for i := 0 to 5
      invariant forall c: Channel :: c < i ==> out[c] == QuantizeOne(DutyOf(d, c), m.lim.dutyMax, pulse(c, log2[c]), log2[c])
    {
      out[i] := QuantizeOne(DutyOf(d, i), m.lim.dutyMax, pulse(i, log2[i]), log2[i]);
    }
    if m.gridLog2 != 0 {
      CapNonNegative(m.lim);
      var steps := Pow2(m.gridLog2);
      var pair := QuantizePair(d.ww, d.cw, CapOf(m.lim), steps);
      var ww, cw := GridWarm(pair.dim, pair.cct, steps), GridCold(pair.dim, pair.cct, steps);
      out[3] := ChannelPwm(m.gridLog2, pair.cct, ww, ww);
      out[4] := ChannelPwm(m.gridLog2, pair.dim, cw, cw);
    }
  }

  lemma CapNonNegative(lim: Limits)
    ensures 0.0 <= CapOf(lim) <= 1.0
  {
  }
}
