/**
 The two timer backends behind pwm_tmr_arm_rebase: the ESP32-C3 systimer, which
 sets absolute compare values, and the ESP8266 TSF counter, which is zeroed on
 every arm. Both keep 32-bit words; the reference arm step works on absolute time.
*/
module PwmTimer {
  import opened Numeric

  const WORD: int := 0x1_0000_0000
  const HALF: int := 0x8000_0000

  /** A uint32_t. */
  type Word = w: nat | w < WORD

  /** The low 32 bits of a number, as stored in a uint32_t. */
  function U32(x: int): Word {
    x % WORD
  }

  /** The cast (int32_t). */
  function I32(w: nat): (x: int)
    requires w < WORD
    ensures -HALF <= x < HALF && U32(x) == w
  {
    if w < HALF then w else w - WORD
  }

  /** A signed 32-bit difference is exact while the two instants are less than 2^31 apart. */
  lemma SignedDifference(a: int, b: int)
    requires -HALF <= a - b < HALF
    ensures I32(U32(U32(a) - U32(b))) == a - b
  {
  }

  lemma U32Sum(a: int, b: int)
    ensures U32(U32(a) + b) == U32(a + b)
  {
    ModShift(a + b, -(a / WORD), WORD);
  }

  // ---- the reference arm step -------------------------------------------------

  predicate Near(target: int, now: int) {
    -HALF <= target - now < HALF
  }

  /**
   What arming at instant `now` does to an absolute target: it is kept unless less
   than `floor` ticks are left. `lag` is the time the arm itself stops the counter.
  */
  function Rearmed(target: int, now: int, floor: nat, lag: nat): int {
    Max(target, now + floor) + lag
  }

  // ---- the arithmetic of the two backends ----------------------------------------

  /** `wake` as both backends compute it from words. */
  function Wake(target: nat, now: nat, minWake: nat, ahead: nat): (wake: int)
    requires target < WORD && now < WORD
    ensures wake >= minWake + ahead
  {
    var left := I32(U32(target - now));
    if left < minWake + ahead then minWake + ahead else left
  }

  lemma WakeIsExact(target: int, now: int, minWake: nat, ahead: nat)
    requires Near(target, now)
    ensures Wake(U32(target), U32(now), minWake, ahead) == Rearmed(target, now, minWake + ahead, 0) - now
  {
    SignedDifference(target, now);
  }

  /** Both backends realise the reference arm step on a target less than 2^31 ticks away. */
  lemma ArmsRefineReference(target: int, now: int, zeroed: int, lag: nat, minWake: nat, ahead: nat)
    requires Near(target, now)
    ensures U32(U32(now) + Wake(U32(target), U32(now), minWake, ahead)) == U32(Rearmed(target, now, minWake + ahead, 0))
    ensures now + lag + Wake(U32(target - zeroed), U32(now - zeroed), minWake, ahead)
              == Rearmed(target, now, minWake + ahead, lag)
  {
    WakeIsExact(target, now, minWake, ahead);
    WakeIsExact(target - zeroed, now - zeroed, minWake, ahead);
    U32Sum(now, Rearmed(target, now, minWake + ahead, 0) - now);
  }

  /** One operation on the target: move on to the next edge, or arm at an instant. */
  datatype Op = Advance(gap: nat) | Arm(now: nat, lag: nat)

  /** Absolute target after the operations, and the instant the TSF counter was last zeroed. */
  datatype RefState = RefState(target: int, zeroed: nat)

  function RefStep(s: RefState, op: Op, floor: nat): RefState {
    match op
    case Advance(gap) => s.(target := s.target + gap)
    case Arm(now, lag) => RefState(Rearmed(s.target, now, floor, lag), now + lag)
  }

  function RefRun(s: RefState, ops: seq<Op>, floor: nat): RefState {
    if |ops| == 0 then s else RefStep(RefRun(s, ops[..|ops| - 1], floor), ops[|ops| - 1], floor)
  }

  /** Every arm happens within 2^31 ticks of the target it finds. */
  predicate AllNear(s: RefState, ops: seq<Op>, floor: nat) {
    forall k :: 0 <= k < |ops| && ops[k].Arm? ==> Near(RefRun(s, ops[..k], floor).target, ops[k].now)
  }

  /** The systimer backend keeps the target in the never-ending epoch. */
  function SystimerStep(word: Word, op: Op, minWake: nat, ahead: nat): Word {
    match op
    case Advance(gap) => U32(word + gap)
    case Arm(now, _) => U32(U32(now) + Wake(word, U32(now), minWake, ahead))
  }

  /** The TSF backend keeps it in the current epoch; its counter reads the time since the last zeroing. */
  function WdevStep(word: Word, zeroed: nat, op: Op, minWake: nat, ahead: nat): Word {
    match op
    case Advance(gap) => U32(word + gap)
    case Arm(now, _) => U32(Wake(word, U32(now - zeroed), minWake, ahead))
  }

  function SystimerRun(word: Word, ops: seq<Op>, minWake: nat, ahead: nat): Word {
    if |ops| == 0 then word
    else SystimerStep(SystimerRun(word, ops[..|ops| - 1], minWake, ahead), ops[|ops| - 1], minWake, ahead)
  }

  function WdevRun(word: Word, zeroed: nat, ops: seq<Op>, minWake: nat, ahead: nat): Word {
    if |ops| == 0 then word
    else
      var p := ops[..|ops| - 1];
      WdevStep(WdevRun(word, zeroed, p, minWake, ahead), LastZeroed(zeroed, p), ops[|ops| - 1], minWake, ahead)
  }

  function LastZeroed(zeroed: nat, ops: seq<Op>): nat {
    if |ops| == 0 then zeroed
    else if ops[|ops| - 1].Arm? then ops[|ops| - 1].now + ops[|ops| - 1].lag
    else LastZeroed(zeroed, ops[..|ops| - 1])
  }

  predicate NoLag(ops: seq<Op>) {
    forall k :: 0 <= k < |ops| && ops[k].Arm? ==> ops[k].lag == 0
  }

  lemma {:induction false} LastZeroedIsRef(s: RefState, ops: seq<Op>, floor: nat)
    ensures RefRun(s, ops, floor).zeroed == LastZeroed(s.zeroed, ops)
    decreases |ops|
  {
    if |ops| > 0 {
      LastZeroedIsRef(s, ops[..|ops| - 1], floor);
    }
  }

  lemma NearPrefix(s: RefState, ops: seq<Op>, floor: nat)
    requires |ops| > 0 && AllNear(s, ops, floor)
    ensures AllNear(s, ops[..|ops| - 1], floor)
  {
    var p := ops[..|ops| - 1];
    forall k | 0 <= k < |p| && p[k].Arm?
      ensures Near(RefRun(s, p[..k], floor).target, p[k].now)
    {
      assert p[..k] == ops[..k];
    }
  }

  lemma AdvanceAgrees(r: RefState, gap: nat, minWake: nat, ahead: nat)
    ensures var n := RefStep(r, Advance(gap), minWake + ahead);
      && WdevStep(U32(r.target - r.zeroed), r.zeroed, Advance(gap), minWake, ahead) == U32(n.target - n.zeroed)
      && SystimerStep(U32(r.target), Advance(gap), minWake, ahead) == U32(n.target)
  {
    U32Sum(r.target, gap);
    U32Sum(r.target - r.zeroed, gap);
    hide U32, Wake;
    assert r.target + gap - r.zeroed == r.target - r.zeroed + gap;
  }

  lemma ArmAgrees(r: RefState, now: nat, lag: nat, minWake: nat, ahead: nat)
    requires Near(r.target, now)
    ensures var n := RefStep(r, Arm(now, lag), minWake + ahead);
      && WdevStep(U32(r.target - r.zeroed), r.zeroed, Arm(now, lag), minWake, ahead) == U32(n.target - n.zeroed)
      && (lag == 0 ==> SystimerStep(U32(r.target), Arm(now, lag), minWake, ahead) == U32(n.target))
  {
    ArmsRefineReference(r.target, now, r.zeroed, lag, minWake, ahead);
    hide U32, Wake, Rearmed, Near;
  }

  /** One operation keeps both words the low 32 bits of the one absolute target. */
  lemma StepAgrees(r: RefState, op: Op, minWake: nat, ahead: nat)
    requires op.Arm? ==> Near(r.target, op.now)
    ensures var n := RefStep(r, op, minWake + ahead);
      && WdevStep(U32(r.target - r.zeroed), r.zeroed, op, minWake, ahead) == U32(n.target - n.zeroed)
      && ((op.Arm? ==> op.lag == 0) ==> SystimerStep(U32(r.target), op, minWake, ahead) == U32(n.target))
  {
    hide U32, Wake, Rearmed, Near, RefStep, WdevStep, SystimerStep;
    match op
    case Advance(gap) => AdvanceAgrees(r, gap, minWake, ahead);
    case Arm(now, lag) => ArmAgrees(r, now, lag, minWake, ahead);
  }

  /**
   Over any sequence of edge advances and arms, the words of both backends are the
   low 32 bits of one absolute target, each in its own epoch.
  */
  lemma {:induction false} BackendsAgree(s: RefState, ops: seq<Op>, minWake: nat, ahead: nat)
    requires AllNear(s, ops, minWake + ahead)
    ensures var n := RefRun(s, ops, minWake + ahead);
      && WdevRun(U32(s.target - s.zeroed), s.zeroed, ops, minWake, ahead) == U32(n.target - n.zeroed)
      && (NoLag(ops) ==> SystimerRun(U32(s.target), ops, minWake, ahead) == U32(n.target))
    decreases |ops|
  {
    if |ops| > 0 {
      var p := ops[..|ops| - 1];
      NearPrefix(s, ops, minWake + ahead);
      BackendsAgree(s, p, minWake, ahead);
      LastZeroedIsRef(s, p, minWake + ahead);
      StepAgrees(RefRun(s, p, minWake + ahead), ops[|ops| - 1], minWake, ahead);
    }
  }

  // ---- ESP32-C3: absolute compare on a free-running counter -----------------------

  class Systimer {
    const minWake: nat := 16
    var counter: nat       // 64-bit counter, never reset
    var compare: nat
    var enabled: bool
    var latched: bool      // the one-shot latch; set whenever the counter is past the compare

    constructor (start: nat)
      ensures counter == compare == start && !enabled && latched
    {
      counter, compare := start, start;
      enabled, latched := false, true;
    }

    /** Time passes between any two register accesses; a passed compare latches. */
    method Elapse(ticks: nat)
      modifies `counter, `latched
      ensures counter == old(counter) + ticks
      ensures latched == (old(latched) || counter >= compare)
    {
      counter := counter + ticks;
      latched := latched || counter >= compare;
    }

    method Now(delay: nat) returns (now: nat)
      modifies `counter, `latched
      ensures counter == old(counter) + delay && now == U32(counter)
      ensures latched == (old(latched) || counter >= compare)
    {
      Elapse(delay);
      now := U32(counter);
    }

    /**
     Programs the next interrupt `ahead` ticks before the target. The alarm lies at
     least minWake after the reading, and a latch left over from the old target is
     gone: if the latch is set afterwards, the new compare has been reached.
    */
    method ArmRebase(target: nat, ahead: nat, delays: (nat, nat, nat)) returns (rebased: nat, ghost now: nat)
      requires target < WORD
      modifies this
      ensures now == old(counter) + delays.0 <= counter && enabled
      ensures rebased == U32(U32(now) + Wake(target, U32(now), minWake, ahead))
      ensures compare == now + Wake(target, U32(now), minWake, ahead) - ahead
      ensures compare >= now + minWake
      ensures latched ==> counter >= compare
    {
      Elapse(delays.0);
      var now64 := counter;
      now := now64;
      var wake := I32(U32(target - U32(now64)));
      if wake < minWake + ahead {
        wake := minWake + ahead;
      }
      enabled := false;
      Elapse(delays.1);
      compare := now64 + (wake - ahead);
      Elapse(delays.2);
      latched := counter >= compare;
      enabled := true;
      rebased := U32(U32(now64) + wake);
    }
  }

  // ---- ESP8266: the counter is zeroed on every arm ----------------------------------

  class Wdev {
    const minWake: nat := 2
    ghost var time: nat    // absolute time
    ghost var zeroed: nat  // when the counter was last zeroed
    var counter: nat       // TSF0 low word
    var compare: nat       // relative to the last zeroing
    var enabled: bool

    ghost predicate Valid()
      reads this
    {
      zeroed <= time && counter == U32(time - zeroed)
    }

    constructor ()
      ensures Valid() && time == zeroed == 0 && !enabled
    {
      time, zeroed := 0, 0;
      counter, compare := 0, 0;
      enabled := false;
    }

    method Elapse(ticks: nat)
      requires Valid()
      modifies `time, `counter
      ensures Valid() && time == old(time) + ticks
    {
      time := time + ticks;
      counter := U32(counter + ticks);
    }

    method Now(delay: nat) returns (now: nat)
      requires Valid()
      modifies `time, `counter
      ensures Valid() && time == old(time) + delay && now == U32(time - zeroed)
    {
      Elapse(delay);
      now := counter;
    }

    /** The stock register sequence; `delay` is the time until the counter is zeroed. */
    method ArmRaw(wake0: nat, delay: nat)
      requires Valid()
      modifies this
      ensures Valid() && enabled && time == zeroed == old(time) + delay
      ensures compare == Max(wake0, minWake)
    {
      var wake := wake0;
      if wake < minWake {
        wake := minWake;
      }
      enabled := false;
      Elapse(delay);
      counter := 0;
      zeroed := time;
      compare := wake;
      enabled := true;
    }

    /** The returned target is the gap, its value in the epoch that starts at the zeroing. */
    method ArmRebase(target: nat, ahead: nat, delays: (nat, nat)) returns (rebased: nat, ghost now: nat)
      requires Valid() && target < WORD
      modifies this
      ensures Valid() && enabled && now == old(time) + delays.0 && time == zeroed == now + delays.1
      ensures rebased == Wake(target, U32(now - old(zeroed)), minWake, ahead)
      ensures compare == rebased - ahead && compare >= minWake
    {
      Elapse(delays.0);
      now := time;
      var wake := I32(U32(target - counter));
      if wake < minWake + ahead {
        wake := minWake + ahead;
      }
      ArmRaw(wake - ahead, delays.1);
      rebased := wake;
    }
  }
}
