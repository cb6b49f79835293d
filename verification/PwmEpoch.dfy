/**
 The engine's 32-bit target word over whole runs: handler passes and arms, in any interleaving with
 the producer, keep it the low word of the clock's absolute target in the timer's current epoch, so
 the handler's test of one word against another decides when the next edge is really due.
*/
module PwmEpoch {
  import opened Waveform
  import opened PwmHandoff
  import opened PwmTimer
  import opened PwmPlayback
  import opened PwmEngine

  /** Which counter the words are read from: the free-running one, or the one that every arm zeroes. */
  datatype Backend = FreeRunning | ZeroedByArm

  datatype Timer = Timer(backend: Backend, minWake: nat, ahead: nat, ticksPerUs: nat) {
    /** The least time an arm leaves. */
    function Floor(): nat {
      minWake + ahead
    }
  }

  /** The target word, and when the counter it is compared with read zero. */
  datatype Target = Target(word: Word, zeroed: nat)

  /** What an event does to it, computed from words alone. */
  function TargetStep(t: Timer, g: Target, p: Player, e: Event): Target
    requires Playable(p)
  {
    match e
    case Act(Isr) => g.(word := PlayEdge([], t.ticksPerUs, Moment(p, g.word, {})).target)
    case Act(_) => g
    case Rearm(now, lag) =>
      if t.backend.FreeRunning? then g.(word := SystimerStep(g.word, Arm(now, lag), t.minWake, t.ahead))
      else Target(WdevStep(g.word, g.zeroed, Arm(now, lag), t.minWake, t.ahead), now + lag)
  }

  function TargetRun(t: Timer, g: Target, s: State, es: seq<Event>): Target
    requires Inv(s) && LegalEvents(s, es)
    decreases |es|
  {
    if |es| == 0 then g
    else
      EventKeepsInv(s, es[0]);
      TargetRun(t, TargetStep(t, g, s.player, es[0]), EventNext(s, es[0]), es[1..])
  }

  /** An arm comes within 2^31 ticks of the target it finds, and does not stop a free-running counter. */
  predicate Timely(t: Timer, c: Clock, e: Event) {
    e.Rearm? ==> Near(c.target, e.now) && (t.backend.FreeRunning? ==> e.lag == 0)
  }

  predicate TimelyArms(t: Timer, s: State, c: Clock, es: seq<Event>)
    requires Inv(s) && LegalEvents(s, es)
    decreases |es|
  {
    if |es| == 0 then true
    else
      EventKeepsInv(s, es[0]);
      Timely(t, c, es[0])
      && TimelyArms(t, EventNext(s, es[0]), ClockStep(s, c, es[0], t.ticksPerUs, t.Floor()), es[1..])
  }

  predicate InStep(t: Timer, g: Target, c: Clock) {
    g.word == U32(c.target - g.zeroed) && (t.backend.FreeRunning? ==> g.zeroed == 0)
  }

  lemma ArmInStep(t: Timer, g: Target, s: State, c: Clock, now: nat, lag: nat)
    requires Playable(s.player) && InStep(t, g, c) && Timely(t, c, Rearm(now, lag))
    ensures InStep(t, TargetStep(t, g, s.player, Rearm(now, lag)),
                   ClockStep(s, c, Rearm(now, lag), t.ticksPerUs, t.Floor()))
  {
    hide Playable, U32, Wake, Near;
    ArmTracksClock(s, c, now, lag, g.zeroed, t.minWake, t.ahead, t.ticksPerUs);
  }

  lemma EventInStep(t: Timer, g: Target, s: State, c: Clock, e: Event)
    requires Inv(s) && InStep(t, g, c) && EventEnabled(s, e) && Timely(t, c, e)
    ensures InStep(t, TargetStep(t, g, s.player, e), ClockStep(s, c, e, t.ticksPerUs, t.Floor()))
  {
    match e
    case Act(a) =>
      if a.Isr? {
        hide Inv, U32, PlayEdge, IsrStep, Gap, Drive;
        EdgeTracksClock([], Moment(s.player, g.word, {}), s, c, g.zeroed, t.ticksPerUs, t.Floor());
      }
    case Rearm(now, lag) => ArmInStep(t, g, s, c, now, lag);
  }

  /** Over every run whose arms are timely, the word stays the low word of the clock's target. */
  lemma {:induction false} WordTracksClock(t: Timer, g: Target, s: State, c: Clock, es: seq<Event>)
    requires Inv(s) && InStep(t, g, c) && LegalEvents(s, es) && TimelyArms(t, s, c, es)
    ensures InStep(t, TargetRun(t, g, s, es), RunEvents(s, c, es, t.ticksPerUs, t.Floor()).1)
    decreases |es|
  {
    if |es| > 0 {
      hide Inv, InStep, EventEnabled, EventNext, ClockStep, TargetStep, Timely;
      EventKeepsInv(s, es[0]);
      EventInStep(t, g, s, c, es[0]);
      WordTracksClock(t, TargetStep(t, g, s.player, es[0]), EventNext(s, es[0]),
                      ClockStep(s, c, es[0], t.ticksPerUs, t.Floor()), es[1..]);
    }
  }

  /** The word engine_first_arm hands to its first arm is in step with the clock of the state it starts. */
  lemma FirstArmInStep(t: Timer, p: Player, reqs: seq<ChanReq>, start: int, zeroed: nat)
    requires Playable(p) && p.active == 0 && !p.pending && Acceptable(reqs) && Holds(p.bufs[0], ProgramOf(reqs))
    requires t.backend.FreeRunning? ==> zeroed == 0
    ensures Initial(StartedState(p, reqs))
    ensures InStep(t, Target(U32(U32(start - zeroed) + t.ticksPerUs * FirstGap(p)), zeroed),
                   FirstClock(StartedState(p, reqs), start, t.ticksPerUs))
  {
    FirstArmStarts(p, reqs, start, t.ticksPerUs);
    hide Playable, Acceptable, Holds, ProgramOf, StartedState, FirstClock, FirstGap, Initial, U32;
    U32Sum(start - zeroed, t.ticksPerUs * FirstGap(p));
  }

  /** When the next edge of s is due: its offset after the finished cycles, and the slip. */
  function DueTime(s: State, start: int, slip: int, ticksPerUs: nat): int
    requires Inv(s)
  {
    start + ticksPerUs * (CycleTime(s.published, s.cycles) + NextEdge(s.player).offset) + slip
  }

  lemma InStepDecides(t: Timer, g: Target, c: Clock, now: int)
    requires InStep(t, g, c)
    ensures -HALF <= now - c.target < HALF ==> (Due(g.word, U32(now - g.zeroed)) <==> now >= c.target)
  {
    hide U32, Due;
    if -HALF <= now - c.target < HALF {
      DueIsExact(c.target, now, g.zeroed);
    }
  }

  /**
   From start-up on, with programs from the compiler and timely arms: wherever the 32-bit words have
   wrapped and whatever epochs have passed, a reading of the counter within 2^31 ticks of the next edge
   passes the handler's test exactly if that edge is due, cycles, offset and slip counted from the start.
  */
  lemma TestIsTrueToSchedule(t: Timer, g: Target, s: State, start: int, es: seq<Event>, now: int)
    requires Initial(s) && AllCompiled(s) && LegalEvents(s, es) && CompilerEvents(es)
    requires Inv(s) && InStep(t, g, FirstClock(s, start, t.ticksPerUs))
    requires TimelyArms(t, s, FirstClock(s, start, t.ticksPerUs), es)
    ensures var (e, d) := RunEvents(s, FirstClock(s, start, t.ticksPerUs), es, t.ticksPerUs, t.Floor());
      var h := TargetRun(t, g, s, es);
      && Inv(e) && d.slip >= 0
      && (-HALF <= now - DueTime(e, start, d.slip, t.ticksPerUs) < HALF ==>
            (Due(h.word, U32(now - h.zeroed)) <==> now >= DueTime(e, start, d.slip, t.ticksPerUs)))
  {
    hide *;
    var c := FirstClock(s, start, t.ticksPerUs);
    TimelineFromStart(s, start, es, t.ticksPerUs, t.Floor());
    WordTracksClock(t, g, s, c, es);
    var (e, d) := RunEvents(s, c, es, t.ticksPerUs, t.Floor());
    InStepDecides(t, TargetRun(t, g, s, es), d, now);
    DueTimeIs(e, start, d.slip, t.ticksPerUs);
  }

  lemma DueTimeIs(s: State, start: int, slip: int, ticksPerUs: nat)
    requires Inv(s)
    ensures DueTime(s, start, slip, ticksPerUs)
         == start + ticksPerUs * (CycleTime(s.published, s.cycles) + NextEdge(s.player).offset) + slip
  {
  }
}
