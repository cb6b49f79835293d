/**
 From a raw packet to the pins: mixing logical colour onto a board's channels, the requests
 handed to the engine, and the driver inputs on hardware PWM. Ends with the two round trips:
 the solver's tick counts come out as high ticks, its DIM / CCT steps as hardware counts.
*/
module PwmDrive {
  import opened Numeric
  import opened LemtoneLinear
  import opened LemtoneClosedForm
  import opened LemtoneModel
  import opened LemtoneSnap
  import opened LemtoneSolve
  import opened LemtoneQuantize
  import opened LemtoneWitness
  import Waveform
  import PwmSchedule
  import PwmTheorems

  datatype Role = Direct | Cct | Dim

  /** One physical channel of the board table. */
  datatype Spec = Spec(role: Role, source: nat, log2: nat, degrees: real, rateLocked: bool, hwPwm: bool)

  predicate SpecOk(s: Spec) {
    && s.source < 5 && -180.0 < s.degrees <= 180.0
    && Waveform.PERIOD_LOG2_MIN <= s.log2 <= Waveform.PERIOD_LOG2_MAX
  }

  predicate BoardOk(board: seq<Spec>) {
    |board| <= Waveform.MAX_CHANNELS && forall i :: 0 <= i < |board| ==> SpecOk(board[i])
  }

  // ---- the mixer --------------------------------------------------------------------------

  function CctOf(ww: real, cw: real, zeroIsCold: bool): real {
    if ww + cw <= 0.0 then 0.0 else (if zeroIsCold then ww else cw) / (ww + cw)
  }

  function DimOf(ww: real, cw: real): real {
    if ww + cw <= 0.0 then 0.0 else MinR(ww + cw, 1.0)
  }

  /** What channel s gets of the logical colour d (r, g, b, ww, cw). */
  function Mixed(d: seq<real>, s: Spec, zeroIsCold: bool): real
    requires |d| == 5 && s.source < 5
  {
    match s.role
    case Cct => CctOf(d[3], d[4], zeroIsCold)
    case Dim => DimOf(d[3], d[4])
    case Direct => d[s.source]
  }

  method Mix(d: seq<real>, board: seq<Spec>, zeroIsCold: bool, out: array<real>)
    requires |d| == 5 && BoardOk(board) && out.Length == |board|
    modifies out
    ensures forall i :: 0 <= i < |board| ==> out[i] == Mixed(d, board[i], zeroIsCold)
  {
    var cct, dim, pair := 0.0, 0.0, false;
    for i := 0 to |board|
      invariant pair <==> exists k :: 0 <= k < i && board[k].role != Direct
    {
      if board[i].role == Cct || board[i].role == Dim {
        pair := true;
        break;
      }
    }
    if pair {
      var ww, cw := d[3], d[4];
      var total := ww + cw;
      if total > 0.0 {
        cct := (if zeroIsCold then ww else cw) / total;
        dim := total;
        if dim > 1.0 {
          dim := 1.0;
        }
      }
    }
    for i := 0 to |board|
      invariant forall k :: 0 <= k < i ==> out[k] == Mixed(d, board[k], zeroIsCold)
    {
      match board[i].role
      case Cct => out[i] := cct;
      case Dim => out[i] := dim;
      case Direct => out[i] := d[board[i].source];
    }
  }

  // ---- pwm_output_set_raw -----------------------------------------------------------------

  function PhaseFraction(degrees: real): (f: real)
    ensures -180.0 < degrees <= 180.0 ==> 0.0 <= f < 1.0
  {
    var f := degrees / 360.0;
    if f < 0.0 then f + 1.0 else f
  }

  function ClampLog2(n: nat): nat {
    Min(Max(n, Waveform.PERIOD_LOG2_MIN), Waveform.PERIOD_LOG2_MAX)
  }

  function Clamped(duties: seq<real>): seq<real>
    requires |duties| == 5
  {
    [Clamp01(duties[0]), Clamp01(duties[1]), Clamp01(duties[2]), Clamp01(duties[3]), Clamp01(duties[4])]
  }

  function RawReq(duties: seq<real>, log2: seq<nat>, s: Spec, zeroIsCold: bool): Waveform.ChanReq
    requires |duties| == 5 && |log2| == 5 && s.source < 5
  {
    Waveform.ChanReq(if s.hwPwm then 0.0 else Mixed(Clamped(duties), s, zeroIsCold),
                     PhaseFraction(s.degrees),
                     if s.rateLocked then s.log2 else ClampLog2(log2[s.source]))
  }

  /** The engine requests for a raw packet; hardware channels compile to nothing. */
  function RawReqs(duties: seq<real>, log2: seq<nat>, board: seq<Spec>, zeroIsCold: bool): (reqs: seq<Waveform.ChanReq>)
    requires |duties| == 5 && |log2| == 5 && BoardOk(board)
    ensures |reqs| == |board|
  {
    seq(|board|, i requires 0 <= i < |board| => RawReq(duties, log2, board[i], zeroIsCold))
  }

  /** Whatever the packet holds, the compiler gets requests it accepts and cannot overflow on. */
  lemma RawAlwaysCompiles(duties: seq<real>, log2: seq<nat>, board: seq<Spec>, zeroIsCold: bool)
    requires |duties| == 5 && |log2| == 5 && BoardOk(board)
    ensures Waveform.Acceptable(RawReqs(duties, log2, board, zeroIsCold))
    ensures Waveform.InConfiguredRange(RawReqs(duties, log2, board, zeroIsCold))
  {
  }

  /** build_reqs: the requests for default and curve-mapped colours keep every channel's own period. */
  function BuildReqs(duties: seq<real>, board: seq<Spec>, zeroIsCold: bool): seq<Waveform.ChanReq>
    requires |duties| == 5 && BoardOk(board)
  {
    seq(|board|, i requires 0 <= i < |board| =>
      var s := board[i];
      Waveform.ChanReq(if s.hwPwm then 0.0 else Mixed(duties, s, zeroIsCold), PhaseFraction(s.degrees), s.log2))
  }

  /** So pwm_output_init may ignore the compiler's answer: the default colour always compiles. */
  lemma DefaultAlwaysCompiles(duties: seq<real>, board: seq<Spec>, zeroIsCold: bool)
    requires |duties| == 5 && BoardOk(board)
    ensures Waveform.Acceptable(BuildReqs(duties, board, zeroIsCold))
    ensures Waveform.InConfiguredRange(BuildReqs(duties, board, zeroIsCold))
  {
    assert forall i :: 0 <= i < |board| ==> SpecOk(board[i]);
  }

  // ---- from board and packet to the pins --------------------------------------------------

  /** A negative phase stands for the same pulses, counted from one period earlier. */
  lemma DegreesArePulses(degrees: real, duty: real, n: nat, t: int)
    ensures PwmTheorems.InPulse(PhaseFraction(degrees), duty, n, t) <==> PwmTheorems.InPulse(degrees / 360.0, duty, n, t)
  {
    hide PwmTheorems.InPulse;
    var f, g := degrees / 360.0, PhaseFraction(degrees);
    if f < 0.0 && PwmTheorems.InPulse(f, duty, n, t) {
      PwmTheorems.PulsesShift(f, 1, duty, n, t);
    }
    if f < 0.0 && PwmTheorems.InPulse(g, duty, n, t) {
      PwmTheorems.PulsesShift(g, -1, duty, n, t);
      assert g + (-1) as real == f;
    }
  }

  lemma PlaysAtDegrees(reqs: seq<Waveform.ChanReq>, i: nat, degrees: real, t: nat)
    requires Waveform.Acceptable(reqs) && i < |reqs| && -180.0 < degrees <= 180.0 && reqs[i].phase == PhaseFraction(degrees)
    ensures i in PwmTheorems.PlayedState(Waveform.ScanTable(reqs), Waveform.Length(reqs), t)
       <==> PwmTheorems.InPulse(degrees / 360.0, reqs[i].duty, reqs[i].log2, t)
  {
    PwmTheorems.RepeatedTablePlaysWaves(reqs, t, i);
    hide PwmTheorems.InPulse, PhaseFraction, PwmTheorems.PlayedState, Waveform.ScanTable, Waveform.Length;
    DegreesArePulses(degrees, reqs[i].duty, reqs[i].log2, t);
  }

  /** n is the number in the configured range nearest to the packet's. */
  predicate NearestInRange(asked: nat, n: nat) {
    && Waveform.PERIOD_LOG2_MIN <= n <= Waveform.PERIOD_LOG2_MAX
    && (Waveform.PERIOD_LOG2_MIN <= asked <= Waveform.PERIOD_LOG2_MAX ==> n == asked)
    && (asked < Waveform.PERIOD_LOG2_MIN ==> n == Waveform.PERIOD_LOG2_MIN)
    && (asked > Waveform.PERIOD_LOG2_MAX ==> n == Waveform.PERIOD_LOG2_MAX)
  }

  /**
   A raw packet on the pins: at every tick of repeated playing a channel is high exactly within the pulses of
   its mixed duty at its board's phase, in its own period if that is locked and in the packet's, kept in
   range, if not; channels on hardware PWM stay low.
  */
  lemma RawPacketPlays(duties: seq<real>, log2: seq<nat>, board: seq<Spec>, zeroIsCold: bool, i: nat, t: nat) returns (n: nat)
    requires |duties| == 5 && |log2| == 5 && BoardOk(board) && i < |board|
    ensures board[i].rateLocked ==> n == board[i].log2
    ensures !board[i].rateLocked ==> NearestInRange(log2[board[i].source], n)
    ensures var reqs, s := RawReqs(duties, log2, board, zeroIsCold), board[i];
      && Waveform.Acceptable(reqs)
      && (i in PwmTheorems.PlayedState(Waveform.ScanTable(reqs), Waveform.Length(reqs), t)
          <==> !s.hwPwm && PwmTheorems.InPulse(s.degrees / 360.0, Mixed(Clamped(duties), s, zeroIsCold), n, t))
  {
    var reqs, s := RawReqs(duties, log2, board, zeroIsCold), board[i];
    RawAlwaysCompiles(duties, log2, board, zeroIsCold);
    assert SpecOk(s);
    n := reqs[i].log2;
    hide PwmTheorems.InPulse, PwmTheorems.PlayedState, Mixed, Waveform.ScanTable, Waveform.Length, Waveform.Acceptable;
    PlaysAtDegrees(reqs, i, s.degrees, t);
    if s.hwPwm {
      PwmTheorems.NoPulse(s.degrees / 360.0, n, t);
    }
  }

  /** The same for default and curve-mapped colours, every channel in its own period. */
  lemma ColourPlays(duties: seq<real>, board: seq<Spec>, zeroIsCold: bool, i: nat, t: nat)
    requires |duties| == 5 && BoardOk(board) && i < |board|
    ensures var reqs, s := BuildReqs(duties, board, zeroIsCold), board[i];
      && Waveform.Acceptable(reqs)
      && (i in PwmTheorems.PlayedState(Waveform.ScanTable(reqs), Waveform.Length(reqs), t)
          <==> !s.hwPwm && PwmTheorems.InPulse(s.degrees / 360.0, Mixed(duties, s, zeroIsCold), s.log2, t))
  {
    var reqs, s := BuildReqs(duties, board, zeroIsCold), board[i];
    DefaultAlwaysCompiles(duties, board, zeroIsCold);
    assert SpecOk(s);
    hide PwmTheorems.InPulse, PwmTheorems.PlayedState, Mixed, Waveform.ScanTable, Waveform.Length, Waveform.Acceptable;
    PlaysAtDegrees(reqs, i, s.degrees, t);
    if s.hwPwm {
      PwmTheorems.NoPulse(s.degrees / 360.0, s.log2, t);
    }
  }

  /**
   Tick conservation, solver to pins: if a direct channel's source was quantized to q.ticks in
   periods of 2^n, then whatever else the packet holds, every window of one such period, wherever it
   starts and whatever wraps it crosses, is high for exactly q.ticks ticks of the repeating table.
  */
  lemma TicksReachThePins(cmds: seq<real>, log2: seq<nat>, board: seq<Spec>, zeroIsCold: bool, i: nat,
                          duty: real, dutyMax: real, pulse: real, start: nat)
    requires |cmds| == 5 && |log2| == 5 && BoardOk(board) && i < |board|
    requires board[i].role == Direct && !board[i].rateLocked && !board[i].hwPwm
    requires Waveform.PERIOD_LOG2_MIN <= log2[board[i].source] <= Waveform.PERIOD_LOG2_MAX
    requires 0.0 <= dutyMax <= 1.0
    requires cmds[board[i].source] == QuantizeOne(duty, dutyMax, pulse, log2[board[i].source]).cmd
    ensures var reqs, n := RawReqs(cmds, log2, board, zeroIsCold), log2[board[i].source];
      && Waveform.Acceptable(reqs) && Waveform.InConfiguredRange(reqs)
      && PwmTheorems.PlayedTicks(Waveform.ScanTable(reqs), Waveform.Length(reqs), i, start, Pow2(n))
         == QuantizeOne(duty, dutyMax, pulse, n).ticks
  {
    var reqs, n := RawReqs(cmds, log2, board, zeroIsCold), log2[board[i].source];
    RawAlwaysCompiles(cmds, log2, board, zeroIsCold);
    CommandIsTicks(duty, dutyMax, pulse, n);
    var q := QuantizeOne(duty, dutyMax, pulse, n);
    SourceDuty(cmds, log2, board[i], zeroIsCold);
    OnTicksOfCommand(reqs[i], q.cmd, q.ticks);
    hide QuantizeOne, RawReq;
    PwmTheorems.RepeatedWindow(reqs, i, start);
  }

  /** Channel c of a solved light as the raw packet carries it: period from the default tiers, quantized duty. */
  predicate Carries(m: Model, pulse: (Channel, nat) -> real, d: Duty, lm: real, n: nat, cmd: real, c: Channel)
    requires m.Valid() && NonNegative(d)
  {
    PeriodOf(DEFAULT_PERIODS, lm, DutyOf(d, c), n) && cmd == OutputOf(m, pulse, d, n, c).cmd
  }

  /**
   The whole way for a solved light: periods from the default tiers, ticks from those periods, the
   raw packet and the compiled table. Channel c of the solution is high for exactly its ticks in every
   window of one of its periods; the ticks are those its duty asks for, and worth it to within half of one if it fits.
  */
  lemma SolvedLightReachesThePins(m: Model, pulse: (Channel, nat) -> real, d: Duty, lm: real, log2: seq<nat>,
                                  cmds: seq<real>, board: seq<Spec>, zeroIsCold: bool, i: nat, start: nat)
    requires m.Valid() && m.lim.dutyMax <= 1.0 && NonNegative(d) && |log2| == 5 && |cmds| == 5
    requires BoardOk(board) && i < |board| && board[i].role == Direct && !board[i].rateLocked && !board[i].hwPwm
    requires m.gridLog2 != 0 ==> board[i].source < 3
    ensures var reqs, c: Channel := RawReqs(cmds, log2, board, zeroIsCold), board[i].source;
      var q, cap := OutputOf(m, pulse, d, log2[c], c), Ticks(m.lim.dutyMax, log2[c]).Floor;
      Carries(m, pulse, d, lm, log2[c], cmds[c], c) ==>
        && Waveform.Acceptable(reqs) && Waveform.InConfiguredRange(reqs)
        && PwmTheorems.PlayedTicks(Waveform.ScanTable(reqs), Waveform.Length(reqs), i, start, Pow2(log2[c])) == q.ticks
        && 0 <= q.ticks <= cap && TicksFor(Ticks(DutyOf(d, c), log2[c]), pulse(c, log2[c]), cap, q.ticks)
        && (Fulfillable(Ticks(DutyOf(d, c), log2[c]), pulse(c, log2[c]), cap) || 0 < q.ticks < cap ==>
              Ticks(DutyOf(d, c), log2[c]) - 0.5 <= Ticks(q.eff, log2[c]) <= Ticks(DutyOf(d, c), log2[c]) + 0.5)
  {
    var c: Channel := board[i].source;
    RawAlwaysCompiles(cmds, log2, board, zeroIsCold);
    if Carries(m, pulse, d, lm, log2[c], cmds[c], c) {
      PeriodInRange(DEFAULT_PERIODS, lm, DutyOf(d, c), log2[c]);
      var p := pulse(c, log2[c]);
      assert OutputOf(m, pulse, d, log2[c], c) == QuantizeOne(DutyOf(d, c), m.lim.dutyMax, p, log2[c]);
      hide QuantizeOne, OutputOf, RawReqs, PeriodOf, Ticks, BoardOk;
      TicksReachThePins(cmds, log2, board, zeroIsCold, i, DutyOf(d, c), m.lim.dutyMax, p, start);
      TicksKeepDuty(DutyOf(d, c), m.lim.dutyMax, p, log2[c]);
    }
  }

  lemma SourceDuty(duties: seq<real>, log2: seq<nat>, s: Spec, zeroIsCold: bool)
    requires |duties| == 5 && |log2| == 5 && s.source < 5
    requires s.role == Direct && !s.rateLocked && !s.hwPwm
    requires Waveform.PERIOD_LOG2_MIN <= log2[s.source] <= Waveform.PERIOD_LOG2_MAX
    ensures RawReq(duties, log2, s, zeroIsCold).duty == Clamp01(duties[s.source])
    ensures RawReq(duties, log2, s, zeroIsCold).log2 == log2[s.source]
  {
  }

  lemma OnTicksOfCommand(r: Waveform.ChanReq, cmd: real, ticks: nat)
    requires r.duty == cmd && 0.0 <= cmd <= 1.0 && Ticks(cmd, r.log2) == ticks as real
    ensures Waveform.OnTicks(r) == ticks
  {
    RoundOfInt(ticks);
  }

  // ---- driver inputs on hardware PWM ------------------------------------------------------

  const HW_BITS: nat := 12

  function HwCounts(duty: real): nat {
    NearestPart(Clamp01(duty), Pow2(HW_BITS))
  }

  /** The LEDC peripheral: counts it was last set to, one entry per board channel. */
  class HwPwm {
    const ledc: seq<bool>        // board channel is on the peripheral
    var counts: seq<nat>         // last accepted setting (s_counts)
    var level: seq<nat>          // what the peripheral drives
    var writes: nat              // settings sent to it

    constructor (ledc: seq<bool>)
      ensures this.ledc == ledc && Valid() && writes == 0
      ensures counts == seq(|ledc|, _ => 0)
    {
      this.ledc := ledc;
      counts := seq(|ledc|, _ => 0);
      level := seq(|ledc|, _ => 0);
      writes := 0;
    }

    /** The skip test compares with what the peripheral really drives. */
    ghost predicate Valid()
      reads this
    {
      |counts| == |ledc| && level == counts
    }

    /** pwm_hw_set; `accepted` is the driver's answer to the two LEDC calls. */
    method Set(i: int, duty: real, accepted: bool)
      requires Valid()
      modifies this
      ensures Valid()
      ensures if 0 <= i < |ledc| && ledc[i] && accepted then counts == old(counts)[i := HwCounts(duty)]
              else counts == old(counts)
      ensures writes == old(writes) + if 0 <= i < |ledc| && ledc[i] && HwCounts(duty) != old(counts)[i] then 1 else 0
    {
      if i < 0 || i >= |ledc| || !ledc[i] {
        return;
      }
      var c := HwCounts(duty);
      if c == counts[i] {
        return;
      }
      writes := writes + 1;
      if accepted {
        level := level[i := c];
        counts := counts[i := c];
      }
    }
  }

  /** A whole number of steps survives the division and the rounding. */
  lemma CountsOfSteps(k: nat)
    requires k <= Pow2(HW_BITS)
    ensures HwCounts(k as real / Pow2(HW_BITS) as real) == k
  {
    var s := Pow2(HW_BITS);
    QuotientBounds(0.0, k as real, s as real);
    QuotientBounds(1.0, k as real, s as real);
    PartOfQuotient(k, s);
    var f := k as real / s as real;
    CountsArePart(f);
    hide Pow2, HwCounts, Part, NearestPart;
    PartIsNearest(f, s, k);
  }

  lemma PartOfQuotient(k: nat, s: nat)
    requires s >= 1
    ensures Part(k as real / s as real, s) == k as real
  {
    Undivide(k as real, s as real);
  }

  lemma ColdShare(t: nat, k: nat, steps: nat)
    requires steps >= 1 && t >= 1 && k <= steps
    ensures t as real / steps as real > 0.0
    ensures GridCold(t, k, steps) / (t as real / steps as real) == (steps - k) as real / steps as real
  {
    QuotientBounds(0.0, t as real, steps as real);
    Undivide(t as real, steps as real);
    Cancel(t as real / steps as real, 1.0 - k as real / steps as real);
    Undivide(k as real, steps as real);
    assert (1.0 - k as real / steps as real) * steps as real == (steps - k) as real;
    Ratio(1.0 - k as real / steps as real, (steps - k) as real, steps as real);
  }

  /** Clamping leaves a pair on the grid alone, and the mixer finds its two ratios. */
  lemma MixOnGrid(dim: nat, cct: nat, s: nat, zeroIsCold: bool)
    requires s >= 1 && dim <= s && cct <= s
    ensures var ww, cw := Clamp01(GridWarm(dim, cct, s)), Clamp01(GridCold(dim, cct, s));
      && DimOf(ww, cw) == dim as real / s as real
      && CctOf(ww, cw, zeroIsCold)
         == if dim == 0 then 0.0 else if zeroIsCold then cct as real / s as real else (s - cct) as real / s as real
  {
    GridTotal(dim, cct, s);
    QuotientBounds(0.0, dim as real, s as real);
    QuotientBounds(1.0, dim as real, s as real);
    if dim > 0 {
      GridShare(dim, cct, s);
      ColdShare(dim, cct, s);
    }
    hide GridWarm, GridCold;
  }

  /** Any duty, on the grid or off, gets the counts nearest to its share of the full scale. */
  lemma CountsAreNearest(duty: real)
    ensures PwmTheorems.Lasts(duty, HW_BITS, HwCounts(duty))
  {
    var n := Pow2(HW_BITS);
    CountsArePart(duty);
    WholeParts(n);
    hide Part, NearestPart, IsNearest, Pow2, HwCounts;
    if 0.0 < duty < 1.0 {
      PartIsNearest(duty, n, HwCounts(duty));
    }
  }

  lemma CountsArePart(duty: real)
    ensures HwCounts(duty) == NearestPart(Clamp01(duty), Pow2(HW_BITS))
  {
  }

  lemma CountsOfNothing()
    ensures HwCounts(0.0) == 0
  {
  }

  /** The mixer and the peripheral turn a pair on the 12-bit grid back into its two step counts. */
  lemma DriverRecovers(dim: nat, cct: nat, zeroIsCold: bool)
    requires dim <= Pow2(HW_BITS) && cct <= Pow2(HW_BITS)
    ensures var s := Pow2(HW_BITS);
      var ww, cw := Clamp01(GridWarm(dim, cct, s)), Clamp01(GridCold(dim, cct, s));
      && HwCounts(DimOf(ww, cw)) == dim
      && HwCounts(CctOf(ww, cw, zeroIsCold)) == (if dim == 0 then 0 else if zeroIsCold then cct else s - cct)
  {
    hide GridWarm, GridCold, HwCounts, DimOf, CctOf, Clamp01;
    var s := Pow2(HW_BITS);
    MixOnGrid(dim, cct, s, zeroIsCold);
    CountsOfSteps(dim);
    CountsOfSteps(cct);
    CountsOfSteps(s - cct);
    CountsOfNothing();
  }

  /** Quantized and mixed, the whites of d run the two hardware inputs at t steps of DIM, k of them warm. */
  predicate DrivenAt(m: Model, d: Duty, t: nat, k: nat, zeroIsCold: bool) {
    var s := Pow2(HW_BITS);
    && 0.0 <= d.ww && 0.0 <= d.cw && 0.0 <= CapOf(m.lim)
    && var pair := QuantizePair(d.ww, d.cw, CapOf(m.lim), s);
    var ww, cw := Clamp01(GridWarm(pair.dim, pair.cct, s)), Clamp01(GridCold(pair.dim, pair.cct, s));
    && HwCounts(DimOf(ww, cw)) == t
    && HwCounts(CctOf(ww, cw, zeroIsCold)) == (if t == 0 then 0 else if zeroIsCold then k else s - k)
  }

  /**
   White pair, solver to driver: after snapping and quantizing on the 12-bit grid, the two
   hardware inputs run at exactly the DIM step that was chosen and its warm fraction.
  */
  lemma WhitesReachTheDriver(m: Model, duty: Duty, t: nat, k: nat, zeroIsCold: bool)
    requires m.Valid() && m.gridLog2 == HW_BITS && 0.0 <= duty.ww && 0.0 <= duty.cw
    requires PairOnGrid(duty, t, k, Pow2(HW_BITS)) && UnderCap(t, CapOf(m.lim), Pow2(HW_BITS))
    ensures QuantizePair(duty.ww, duty.cw, CapOf(m.lim), Pow2(HW_BITS)) == WhitePair(t, if t == 0 then 0 else k)
    ensures DrivenAt(m, duty, t, k, zeroIsCold)
  {
    CapNonNegative(m.lim);
    PairSurvives(duty, t, k, Pow2(HW_BITS), CapOf(m.lim));
    StepsUnderFull(t, CapOf(m.lim), Pow2(HW_BITS));
    DriverRecovers(t, if t == 0 then 0 else k, zeroIsCold);
  }

  /** k is the warm fraction and t the best DIM step for the whites the free solve wants; off stays off. */
  ghost predicate StepFor(m: Model, want: Duty, t: nat, k: nat)
    requires NonNegative(want)
  {
    if want.ww + want.cw > 0.0 then
      var j := JobFor(m, want);
      k == j.warmSteps && exists c: Choice :: BestChoice(m, j, c) && c.k < 3 && t == Candidate(j.x, j.dimMin, c.k)
    else t == 0
  }

  lemma DarkPairOnGrid(d: Duty, steps: nat)
    requires NonNegative(d) && d.ww + d.cw <= 0.0 && steps >= 1
    ensures PairOnGrid(d, 0, 0, steps)
  {
  }

  lemma GridPairNonNegative(d: Duty, t: nat, k: nat, steps: nat)
    requires steps >= 1 && PairOnGrid(d, t, k, steps)
    ensures 0.0 <= d.ww && 0.0 <= d.cw && k <= steps
  {
    GridTotal(t, k, steps);
  }

  lemma SnapStep(m: Model, out: Solution) returns (t: nat, k: nat)
    requires NonNegative(out.duty)
    ensures var s := Pow2(m.gridLog2);
      && StepFor(m, out.duty, t, k) && PairOnGrid(Snap(m, out).duty, t, k, s)
      && (t == 0 || t >= m.dimMin) && UnderCap(t, CapOf(m.lim), s)
  {
    if out.duty.ww + out.duty.cw > 0.0 {
      var j := JobFor(m, out.duty);
      var c, n := SnapOnGrid(m, out);
      t, k := n, j.warmSteps;
    } else {
      t, k := 0, 0;
      DarkPairOnGrid(out.duty, Pow2(m.gridLog2));
    }
  }

  predicate LumensMet(out: Solution) {
    out.mode.Exact? || out.mode.Desat?
  }

  lemma SolveSnaps(m: Model, a: real, b: real, lm: real, fidelity: real)
    requires m.Valid() && m.gridLog2 == HW_BITS
    ensures LumensMet(SolveFree(m, a, b, lm, fidelity)) ==>
              && NonNegative(SolveFree(m, a, b, lm, fidelity).duty)
              && Solve(m, a, b, lm, fidelity) == Snap(m, SolveFree(m, a, b, lm, fidelity))
  {
    AnswerNonNegative(m, a, b, lm, fidelity);
    hide SolveFree, Snap;
  }

  /**
   From a request to the driver: for every colour and brightness whose lumens are met, the two hardware
   inputs run at the best DIM step next to what the free solve wants, off or at least the driver's
   minimum and under the cap, and at its warm fraction.
  */
  lemma SolveReachesTheDriver(m: Model, a: real, b: real, lm: real, fidelity: real, zeroIsCold: bool)
    returns (t: nat, k: nat)
    requires m.Valid() && m.gridLog2 == HW_BITS
    ensures LumensMet(SolveFree(m, a, b, lm, fidelity)) ==>
              && NonNegative(SolveFree(m, a, b, lm, fidelity).duty)
              && StepFor(m, SolveFree(m, a, b, lm, fidelity).duty, t, k)
              && (t == 0 || t >= m.dimMin) && UnderCap(t, CapOf(m.lim), Pow2(HW_BITS))
              && DrivenAt(m, Solve(m, a, b, lm, fidelity).duty, t, k, zeroIsCold)
  {
    hide *;
    AnswerNonNegative(m, a, b, lm, fidelity);
    var out := SolveFree(m, a, b, lm, fidelity);
    t, k := 0, 0;
    if LumensMet(out) {
      SolveSnaps(m, a, b, lm, fidelity);
      t, k := SnapStep(m, out);
      GridPairNonNegative(Snap(m, out).duty, t, k, Pow2(HW_BITS));
      WhitesReachTheDriver(m, Snap(m, out).duty, t, k, zeroIsCold);
    }
  }

  lemma StepsUnderFull(t: nat, cap: real, steps: nat)
    requires 0.0 <= cap <= 1.0 && UnderCap(t, cap, steps)
    ensures t <= steps
  {
    ProductNonNegative(1.0 - cap, steps as real);
    assert (1.0 - cap) * steps as real == steps as real - cap * steps as real;
  }
}
