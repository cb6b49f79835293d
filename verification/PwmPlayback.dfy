/**
 When edges are applied: the absolute target of every edge over whole runs of the
 interleaved system, however edges group into interrupts.
*/
module PwmPlayback {
  import opened Waveform
  import opened PwmHandoff
  import opened PwmTimer

  datatype Event = Act(action: Action) | Rearm(now: nat, lag: nat)

  /**
   The engine's view of time, in timer ticks: when playback started, the lengths of
   the finished cycles, the absolute target of the next edge, and the accumulated slip.
  */
  datatype Clock = Clock(start: int, base: nat, target: int, slip: int)

  /** Schedule time from the next edge to the one after it. */
  function Gap(p: Player): int
    requires Playable(p)
  {
    FollowingOffset(p) - NextEdge(p).offset
  }

  function ClockStep(s: State, c: Clock, e: Event, ticksPerUs: nat, floor: nat): Clock
    requires Playable(s.player)
  {
    match e
    case Act(Isr) =>
      c.(target := c.target + ticksPerUs * Gap(s.player),
         base := if AtWrap(s.player) then c.base + Current(s.player).length else c.base)
    case Act(_) => c
    case Rearm(now, lag) =>
      var t := Rearmed(c.target, now, floor, lag);
      c.(target := t, slip := c.slip + (t - c.target))
  }

  predicate EventEnabled(s: State, e: Event) {
    e.Act? ==> Enabled(s, e.action) && Disciplined(s, e.action)
  }

  function EventNext(s: State, e: Event): State
    requires EventEnabled(s, e)
  {
    if e.Act? then Next(s, e.action) else s
  }

  predicate LegalEvents(s: State, es: seq<Event>)
    decreases |es|
  {
    |es| > 0 ==> EventEnabled(s, es[0]) && LegalEvents(EventNext(s, es[0]), es[1..])
  }

  function RunEvents(s: State, c: Clock, es: seq<Event>, ticksPerUs: nat, floor: nat): (State, Clock)
    requires Inv(s) && LegalEvents(s, es)
    decreases |es|
  {
    if |es| == 0 then (s, c)
    else
      EventKeepsInv(s, es[0]);
      RunEvents(EventNext(s, es[0]), ClockStep(s, c, es[0], ticksPerUs, floor), es[1..], ticksPerUs, floor)
  }

  lemma EventKeepsInv(s: State, e: Event)
    requires Inv(s) && EventEnabled(s, e)
    ensures Inv(EventNext(s, e)) && |EventNext(s, e).trace| >= |s.trace|
  {
    if e.Act? {
      StepKeepsInv(s, e.action);
    }
  }

  /** Total length of the finished cycles. */
  function CycleTime(published: seq<Program>, cycles: seq<nat>): nat
    requires forall k :: 0 <= k < |cycles| ==> cycles[k] < |published|
  {
    if |cycles| == 0 then 0
    else CycleTime(published, cycles[..|cycles| - 1]) + published[cycles[|cycles| - 1]].length
  }

  /** Every table starts at offset zero, as compiled ones do. */
  predicate StartsAtZero(g: Program) {
    |g.table| > 0 && g.table[0].offset == 0
  }

  predicate AllStartAtZero(s: State) {
    && (forall k :: 0 <= k < |s.published| ==> StartsAtZero(s.published[k]))
    && (!s.producer.Idle? ==> StartsAtZero(s.producer.goal))
  }

  /** The next edge is due at start + earlier cycles + its offset + slip. */
  predicate OnTime(s: State, c: Clock, ticksPerUs: nat)
    requires Inv(s)
  {
    && AllStartAtZero(s)
    && c.base == CycleTime(s.published, s.cycles)
    && c.target == c.start + ticksPerUs * (c.base + NextEdge(s.player).offset) + c.slip
  }

  lemma {:induction false} CycleTimeUnderPublish(published: seq<Program>, g: Program, cycles: seq<nat>)
    requires forall k :: 0 <= k < |cycles| ==> cycles[k] < |published|
    ensures CycleTime(published + [g], cycles) == CycleTime(published, cycles)
    decreases |cycles|
  {
    if |cycles| > 0 {
      CycleTimeUnderPublish(published, g, cycles[..|cycles| - 1]);
    }
  }

  lemma Scaled(k: nat, a: int, b: int)
    ensures k * (a + b) == k * a + k * b
  {
  }

  /** Applying an edge moves on by its gap: to the next edge of this cycle or the first of the next. */
  lemma EdgeMovesOn(s: State)
    requires Inv(s) && AllStartAtZero(s)
    ensures var n := IsrStep(s);
      && Inv(n) && AllStartAtZero(n)
      && CycleTime(n.published, n.cycles)
         == CycleTime(s.published, s.cycles) + (if AtWrap(s.player) then Current(s.player).length else 0)
      && CycleTime(n.published, n.cycles) + NextEdge(n.player).offset
         == CycleTime(s.published, s.cycles) + NextEdge(s.player).offset + Gap(s.player)
  {
    var n := IsrStep(s);
    StepKeepsInv(s, Isr);
    PlayedEdge(s);
    PlayedEdge(n);
    if AtWrap(s.player) {
      assert n.cycles[..|n.cycles| - 1] == s.cycles;
      assert StartsAtZero(n.published[n.now]);
    }
  }

  lemma EdgeOnTime(s: State, c: Clock, ticksPerUs: nat, floor: nat)
    requires Inv(s) && OnTime(s, c, ticksPerUs)
    ensures Inv(IsrStep(s)) && OnTime(IsrStep(s), ClockStep(s, c, Act(Isr), ticksPerUs, floor), ticksPerUs)
  {
    EdgeMovesOn(s);
    hide Inv, IsrStep, AllStartAtZero, NextEdge, Gap, CycleTime, AtWrap, Current;
    Scaled(ticksPerUs, c.base + NextEdge(s.player).offset, Gap(s.player));
  }

  /** The producer never touches the next edge, nor what was published before. */
  lemma ProducerLeavesNextEdge(s: State, a: Action)
    requires Inv(s) && Enabled(s, a) && Disciplined(s, a) && !a.Isr?
    ensures var n := Next(s, a);
      && Inv(n) && n.cycles == s.cycles && NextEdge(n.player) == NextEdge(s.player)
      && n.published == if a.Continue? && s.producer.Remembered? then s.published + [s.producer.goal] else s.published
  {
    StepKeepsInv(s, a);
    PlayedEdge(s);
    PlayedEdge(Next(s, a));
  }

  lemma ProducerKeepsZeroStarts(s: State, a: Action)
    requires Enabled(s, a) && !a.Isr? && AllStartAtZero(s)
    requires a.Begin? ==> StartsAtZero(a.goal)
    ensures AllStartAtZero(Next(s, a))
  {
    hide StartsAtZero;
  }

  lemma ProducerKeepsCycleTime(s: State, a: Action)
    requires Inv(s) && Enabled(s, a) && Disciplined(s, a) && !a.Isr?
    ensures Inv(Next(s, a)) && NextEdge(Next(s, a).player) == NextEdge(s.player)
    ensures CycleTime(Next(s, a).published, Next(s, a).cycles) == CycleTime(s.published, s.cycles)
  {
    ProducerLeavesNextEdge(s, a);
    assert forall k :: 0 <= k < |s.cycles| ==> s.cycles[k] < |s.published|;
    hide Inv, NextEdge, Enabled, Disciplined, Next, CycleTime;
    if a.Continue? && s.producer.Remembered? {
      CycleTimeUnderPublish(s.published, s.producer.goal, s.cycles);
    }
  }

  lemma ProducerOnTime(s: State, c: Clock, ticksPerUs: nat, a: Action)
    requires Inv(s) && OnTime(s, c, ticksPerUs) && Enabled(s, a) && Disciplined(s, a) && !a.Isr?
    requires a.Begin? ==> StartsAtZero(a.goal)
    ensures Inv(Next(s, a)) && OnTime(Next(s, a), c, ticksPerUs)
  {
    hide Inv, NextEdge, Enabled, Disciplined, Next, CycleTime, AllStartAtZero, StartsAtZero;
    ProducerKeepsCycleTime(s, a);
    ProducerKeepsZeroStarts(s, a);
  }

  lemma EventOnTime(s: State, c: Clock, e: Event, ticksPerUs: nat, floor: nat)
    requires Inv(s) && OnTime(s, c, ticksPerUs) && EventEnabled(s, e)
    requires e.Act? && e.action.Begin? ==> StartsAtZero(e.action.goal)
    ensures Inv(EventNext(s, e)) && OnTime(EventNext(s, e), ClockStep(s, c, e, ticksPerUs, floor), ticksPerUs)
  {
    match e
    case Act(a) =>
      if a.Isr? {
        EdgeOnTime(s, c, ticksPerUs, floor);
      } else {
        ProducerOnTime(s, c, ticksPerUs, a);
      }
    case Rearm(_, _) =>
  }

  predicate GoalsStartAtZero(es: seq<Event>) {
    forall k :: 0 <= k < |es| && es[k].Act? && es[k].action.Begin? ==> StartsAtZero(es[k].action.goal)
  }

  lemma GoalsTail(es: seq<Event>)
    requires |es| > 0 && GoalsStartAtZero(es)
    ensures es[0].Act? && es[0].action.Begin? ==> StartsAtZero(es[0].action.goal)
    ensures GoalsStartAtZero(es[1..])
  {
    assert forall k :: 0 <= k < |es[1..]| ==> es[1..][k] == es[k + 1];
  }

  lemma SlipNeverDecreases(s: State, c: Clock, e: Event, ticksPerUs: nat, floor: nat)
    requires Playable(s.player)
    ensures var d := ClockStep(s, c, e, ticksPerUs, floor);
      d.start == c.start && d.slip >= c.slip
  {
  }

  /**
   Over every run: the next edge is due exactly its offset after the finished cycles,
   plus the slip, and the slip never decreases.
  */
  lemma {:induction false} Timeline(s: State, c: Clock, es: seq<Event>, ticksPerUs: nat, floor: nat)
    requires Inv(s) && OnTime(s, c, ticksPerUs) && LegalEvents(s, es) && GoalsStartAtZero(es)
    ensures var (e, d) := RunEvents(s, c, es, ticksPerUs, floor);
      && Inv(e) && OnTime(e, d, ticksPerUs) && d.start == c.start && d.slip >= c.slip
    decreases |es|
  {
    if |es| > 0 {
      GoalsTail(es);
      hide Inv, OnTime, EventEnabled, EventNext, ClockStep, StartsAtZero, GoalsStartAtZero;
      EventOnTime(s, c, es[0], ticksPerUs, floor);
      SlipNeverDecreases(s, c, es[0], ticksPerUs, floor);
      Timeline(EventNext(s, es[0]), ClockStep(s, c, es[0], ticksPerUs, floor), es[1..], ticksPerUs, floor);
    }
  }

  /** Slip grows only in an arm that finds less than the floor left, or that stops the counter. */
  lemma SlipOnlyWhenLate(s: State, c: Clock, e: Event, ticksPerUs: nat, floor: nat)
    requires Playable(s.player)
    ensures var d := ClockStep(s, c, e, ticksPerUs, floor);
      d.slip != c.slip <==> e.Rearm? && (c.target - e.now < floor || e.lag > 0)
    ensures e.Rearm? && c.target - e.now >= floor ==>
              ClockStep(s, c, e, ticksPerUs, floor).slip == c.slip + e.lag
  {
  }

  /** The clock after engine_first_arm at time `start`: the first target is one gap after the entry for t = 0. */
  function FirstClock(s: State, start: int, ticksPerUs: nat): Clock
    requires Initial(s)
  {
    var b := s.player.bufs[0];
    if b.count > 1 then Clock(start, 0, start + ticksPerUs * b.edges[1].offset, 0)
    else Clock(start, b.length, start + ticksPerUs * b.length, 0)
  }

  /** Playback starts on time. */
  lemma FirstArmOnTime(s: State, start: int, ticksPerUs: nat)
    requires Initial(s) && StartsAtZero(s.published[0])
    ensures Inv(s) && OnTime(s, FirstClock(s, start, ticksPerUs), ticksPerUs)
  {
    InitialInv(s);
    PlayedEdge(s);
    if s.player.bufs[0].count == 1 {
      assert s.cycles[..0] == [];
      assert CycleTime(s.published, []) == 0;
    }
  }

  // ---- whole runs from start-up -------------------------------------------------------

  /** Compiled programs start at offset zero, so the timeline applies to them. */
  lemma CompiledStartsAtZero(g: Program)
    requires Compiled(g)
    ensures StartsAtZero(g)
  {
    ScanMeaning(g.reqs, Length(g.reqs) - 1);
  }

  /** All programs that enter a run of events come from the compiler. */
  ghost predicate CompilerEvents(es: seq<Event>) {
    forall k :: 0 <= k < |es| && es[k].Act? && es[k].action.Begin? ==> Compiled(es[k].action.goal)
  }

  lemma CompilerGoals(es: seq<Event>)
    requires CompilerEvents(es)
    ensures GoalsStartAtZero(es)
  {
    forall k | 0 <= k < |es| && es[k].Act? && es[k].action.Begin?
      ensures StartsAtZero(es[k].action.goal)
    {
      CompiledStartsAtZero(es[k].action.goal);
    }
  }

  lemma CompilerTail(es: seq<Event>)
    requires |es| > 0 && CompilerEvents(es)
    ensures es[0].Act? && es[0].action.Begin? ==> Compiled(es[0].action.goal)
    ensures CompilerEvents(es[1..])
  {
    assert forall k :: 0 <= k < |es[1..]| ==> es[1..][k] == es[k + 1];
  }

  lemma EventStaysCompiled(s: State, e: Event)
    requires AllCompiled(s) && EventEnabled(s, e)
    requires e.Act? && e.action.Begin? ==> Compiled(e.action.goal)
    ensures AllCompiled(EventNext(s, e))
  {
    hide Compiled;
  }

  lemma {:induction false} EventsStayCompiled(s: State, c: Clock, es: seq<Event>, ticksPerUs: nat, floor: nat)
    requires Inv(s) && LegalEvents(s, es)
    ensures AllCompiled(s) && CompilerEvents(es) ==> AllCompiled(RunEvents(s, c, es, ticksPerUs, floor).0)
    decreases |es|
  {
    if |es| > 0 && AllCompiled(s) && CompilerEvents(es) {
      CompilerTail(es);
      hide Inv, AllCompiled, Compiled, EventEnabled, EventNext, ClockStep, CompilerEvents;
      EventStaysCompiled(s, es[0]);
      EventKeepsInv(s, es[0]);
      EventsStayCompiled(EventNext(s, es[0]), ClockStep(s, c, es[0], ticksPerUs, floor), es[1..], ticksPerUs, floor);
    }
  }

  lemma StartsOnTime(s: State, start: int, ticksPerUs: nat)
    requires Initial(s) && AllCompiled(s)
    ensures Inv(s) && OnTime(s, FirstClock(s, start, ticksPerUs), ticksPerUs)
    ensures FirstClock(s, start, ticksPerUs).start == start && FirstClock(s, start, ticksPerUs).slip == 0
  {
    CompiledStartsAtZero(s.published[0]);
    FirstArmOnTime(s, start, ticksPerUs);
  }

  lemma TargetWhenOnTime(s: State, c: Clock, ticksPerUs: nat)
    requires Inv(s) && OnTime(s, c, ticksPerUs)
    ensures c.target == c.start + ticksPerUs * (CycleTime(s.published, s.cycles) + NextEdge(s.player).offset) + c.slip
  {
  }

  /**
   From start-up on, with programs from the compiler: whatever handler, producer and arms
   do in whatever order, the next edge is due its offset after the finished cycles, plus the slip.
  */
  lemma TimelineFromStart(s: State, start: int, es: seq<Event>, ticksPerUs: nat, floor: nat)
    requires Initial(s) && AllCompiled(s) && LegalEvents(s, es) && CompilerEvents(es)
    ensures Inv(s)
    ensures var (e, d) := RunEvents(s, FirstClock(s, start, ticksPerUs), es, ticksPerUs, floor);
      && Inv(e) && AllCompiled(e) && d.start == start && d.slip >= 0
      && d.target == start + ticksPerUs * (CycleTime(e.published, e.cycles) + NextEdge(e.player).offset) + d.slip
  {
    hide *;
    StartsOnTime(s, start, ticksPerUs);
    CompilerGoals(es);
    var c := FirstClock(s, start, ticksPerUs);
    Timeline(s, c, es, ticksPerUs, floor);
    EventsStayCompiled(s, c, es, ticksPerUs, floor);
    var (e, d) := RunEvents(s, c, es, ticksPerUs, floor);
    TargetWhenOnTime(e, d, ticksPerUs);
  }
}
