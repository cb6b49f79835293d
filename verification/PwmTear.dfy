/**
 What happens without the unwritten rule of the hand-off: cycles that belong to no program, and
 changes that are lost for good. Both in general and on a concrete engine with one channel.
*/
module PwmTear {
  import opened Numeric
  import opened Waveform
  import opened PwmHandoff
  import PwmTheorems

  /** After a publish of g1, a publish of g2 followed by `after` plays g2's first entry and then g1's second. */
  predicate Tears(s: State, g1: Program, g2: Program, after: seq<Action>) {
    && Legal(s, PublishActs(g1)) && NoBegin(after) && |g1.table| > 1 && Fits(g2)
    && var m := Run(s, PublishActs(g1));
       && m.player.pending && Enabled(m, Begin(g2)) && Legal(Next(m, Begin(g2)), after)
       && var trace := Run(Next(m, Begin(g2)), after).trace;
          |trace| >= 2 && trace[|trace| - 2..] == [g2.table[0], g1.table[1]]
  }

  /** From any state with nothing staged, two publishes in a row can end in a torn cycle. */
  lemma TwoPublishesTear(s: State, g1: Program, g2: Program) returns (after: seq<Action>)
    requires Inv(s) && Enabled(s, Begin(g1)) && Disciplined(s, Begin(g1))
    requires Fits(g2) && g2.reqs != g1.reqs && |g1.table| > 1
    ensures Tears(s, g1, g2, after)
  {
    UninterruptedPublish(s, g1);
    var m := Run(s, PublishActs(g1));
    assert Latest(m) == g1 && Enabled(m, Begin(g2));
    hide Inv, Legal, Run, Next, Enabled, Latest, PublishActs, NoBegin, Fits;
    after := TornCycle(m, g2);
  }

  // ---- a change that is lost ------------------------------------------------------------

  /** The producer is inside publish_reqs, writing the buffer that is not in play. */
  predicate Busy(s: State) {
    && Playable(s.player) && !s.producer.Idle? && s.producer.target == 1 - s.player.active && Fits(s.producer.goal)
    && (s.producer.Writing? ==> s.producer.k <= |s.producer.goal.table|)
  }

  /** e is s with the producer one step from its flag: only the other buffer and `last` are new. */
  predicate AboutToFlag(s: State, e: State) {
    && Busy(s) && Busy(e) && e.producer == Remembered(s.producer.target, s.producer.goal)
    && e.player == WriteBuffer(s.player, s.producer.target, e.player.bufs[s.producer.target])
    && e == s.(player := e.player, producer := e.producer, last := s.producer.goal.reqs)
  }

  lemma BusyStep(s: State)
    requires Busy(s) && !s.producer.Remembered?
    ensures Enabled(s, Continue) && Busy(ProducerStep(s)) && ProducerStep(s).producer.goal == s.producer.goal
    ensures Remaining(ProducerStep(s).producer) == Remaining(s.producer) - 1 >= 1
    ensures ProducerStep(s).producer.Remembered? ==> AboutToFlag(s, ProducerStep(s))
    ensures forall e :: AboutToFlag(ProducerStep(s), e) ==> AboutToFlag(s, e)
  {
  }

  /** Everything up to the flag can happen while another schedule is staged. */
  lemma {:induction false} WriteUpToFlag(s: State)
    requires Busy(s) && !s.producer.Remembered?
    ensures Remaining(s.producer) >= 1
    ensures var acts := Continues(Remaining(s.producer) - 1);
      Legal(s, acts) && AboutToFlag(s, Run(s, acts))
    decreases Remaining(s.producer)
  {
    var m, n := ProducerStep(s), Remaining(s.producer) - 1;
    BusyStep(s);
    assert m.producer.Remembered? ==> Remaining(m.producer) == 1;
    hide Busy, ProducerStep, AboutToFlag, Remaining, Enabled;
    assert Continues(n) == [Continue] + Continues(n - 1);
    if m.producer.Remembered? {
      assert Legal(m, []) && Run(m, []) == m;
    } else {
      WriteUpToFlag(m);
    }
    StepThen(s, Continue, Continues(n - 1));
  }

  /** The swap onto the buffer being published comes before the flag, so the flag swaps back. */
  lemma FlagAfterSwap(s: State) returns (acts: seq<Action>)
    requires Busy(s) && s.producer.Remembered? && s.player.pending
    ensures Legal(s, acts) && NoBegin(acts)
    ensures var e := Run(s, acts);
      && e.producer.Idle? && e.last == s.last
      && e.player == s.player.(idx := 0, pending := false)
  {
    var n := Current(s.player).count - s.player.idx;
    PlayToSwap(s, n);
    var a := Run(s, Isrs(n));
    var b := ProducerStep(a);
    var m := Current(b.player).count - b.player.idx;
    PlayToSwap(b, m);
    StepThen(a, Continue, Isrs(m));
    RunAppend(s, Isrs(n), [Continue] + Isrs(m));
    acts := Isrs(n) + ([Continue] + Isrs(m));
  }

  /** The producer believes `reqs` are out, nothing is staged, and g is what plays. */
  predicate Stuck(s: State, g: Program, reqs: seq<ChanReq>) {
    && Playable(s.player) && s.producer.Idle? && !s.player.pending
    && s.last == reqs && Holds(Current(s.player), g)
  }

  /** Only a request for something else ends that: asking for `reqs` again is skipped as a repeat. */
  lemma {:induction false} StuckForGood(s: State, g: Program, reqs: seq<ChanReq>, acts: seq<Action>)
    requires Stuck(s, g, reqs) && Legal(s, acts) && NoBegin(acts)
    ensures Stuck(Run(s, acts), g, reqs)
    ensures forall goal: Program :: goal.reqs == reqs ==> !Enabled(Run(s, acts), Begin(goal))
    decreases |acts|
  {
    if |acts| > 0 {
      assert acts[0].Isr?;
      assert Stuck(Next(s, acts[0]), g, reqs);
      hide Stuck, Enabled;
      StuckForGood(Next(s, acts[0]), g, reqs, acts[1..]);
    }
  }

  lemma BeginsBusy(s: State, goal: Program)
    requires Inv(s) && Enabled(s, Begin(goal))
    ensures var b := Next(s, Begin(goal));
      Busy(b) && b.producer.Writing? && b.producer.goal == goal && b.player == s.player
    ensures s.now < |s.published| && Holds(Current(s.player), s.published[s.now])
  {
  }

  /** Everything but the flag leaves the player as it is, apart from the other buffer. */
  lemma FlagLeft(b: State, f: State)
    requires AboutToFlag(b, f) && b.player.pending
    ensures Busy(f) && f.producer.Remembered? && f.player.pending && Current(f.player) == Current(b.player)
    ensures f.last == b.producer.goal.reqs
  {
  }

  /**
   The lasting failure of a publish begun while a schedule is staged: in some interleaving the
   handler swaps onto the new table before the flag goes up, the flag then swaps it back, and the
   light is stuck on the program it had before, with the new requests remembered as published.
  */
  lemma LostChange(s: State, goal: Program) returns (acts: seq<Action>)
    requires Inv(s) && Enabled(s, Begin(goal)) && s.player.pending
    ensures Legal(Next(s, Begin(goal)), acts) && NoBegin(acts) && s.now < |s.published|
    ensures Stuck(Run(Next(s, Begin(goal)), acts), s.published[s.now], goal.reqs)
  {
    var b := Next(s, Begin(goal));
    BeginsBusy(s, goal);
    WriteUpToFlag(b);
    var first := Continues(Remaining(b.producer) - 1);
    var f := Run(b, first);
    FlagLeft(b, f);
    var rest := FlagAfterSwap(f);
    var e := Run(f, rest);
    assert Playable(e.player) && Current(e.player) == Current(f.player);
    assert NoBegin(first);
    hide Legal, Run, Next, Inv, Enabled, Busy, AboutToFlag, Holds, Playable, Current, Remaining;
    RunAppend(b, first, rest);
    NoBeginAppend(first, rest);
    acts := first + rest;
  }

  // ---- three programs --------------------------------------------------------------------

  /** High in the first half of every 256 ticks. */
  function Early(): Program {
    Program([ChanReq(0.5, 0.0, 8)], [Edge(0, {0}), Edge(128, {})], 256)
  }

  /** High in the second half. */
  function Late(): Program {
    Program([ChanReq(0.5, 0.5, 8)], [Edge(0, {}), Edge(128, {0})], 256)
  }

  /** Never high. */
  function Off(): Program {
    Program([ChanReq(0.0, 0.0, 8)], [Edge(0, {})], 1024)
  }

  lemma OffIsCompiled()
    ensures Compiled(Off())
  {
    var g := Off();
    assert !AnyActive(g.reqs) && Pow2(DEFAULT_PERIOD_LOG2) == 1024 by {
      assert Pow2(5) == 32;
    }
    forall t: nat | t < 1024
      ensures StateAt(g.table, t) == Wave(g.reqs, t)
    {
      assert OnTicks(g.reqs[0]) == 0;
    }
    PwmTheorems.TableIsCanonical(g.reqs, g.table);
  }

  lemma Pow2Of8()
    ensures Pow2(8) == 256
  {
    assert Pow2(4) == 16;
  }

  lemma HalfWave(phase: real, t: nat)
    requires (phase == 0.0 || phase == 0.5) && t < 256
    ensures High(ChanReq(0.5, phase, 8), t) <==> ((t < 128) <==> phase == 0.0)
  {
    Pow2Of8();
    var r := ChanReq(0.5, phase, 8);
    assert OnTicks(r) == 128;
    assert OnTime(r) == if phase == 0.0 then 0 else 128;
  }

  lemma HalfLength(phase: real)
    requires phase == 0.0 || phase == 0.5
    ensures Length([ChanReq(0.5, phase, 8)]) == 256 && Acceptable([ChanReq(0.5, phase, 8)])
  {
    Pow2Of8();
    var reqs := [ChanReq(0.5, phase, 8)];
    assert Active(reqs[0]);
    assert LongestLog2(reqs, 1) == 8;
  }

  lemma HalfIsCompiled(phase: real, g: Program)
    requires (phase == 0.0 && g == Early()) || (phase == 0.5 && g == Late())
    ensures Compiled(g)
  {
    HalfLength(phase);
    forall t: nat | t < 256
      ensures StateAt(g.table, t) == Wave(g.reqs, t)
    {
      HalfWave(phase, t);
      assert StateAt(g.table[..1], t) == g.table[0].state;
    }
    PwmTheorems.TableIsCanonical(g.reqs, g.table);
  }

  /** The engine right after engine_first_arm, with Late in play. */
  function Started(): State {
    var blank := seq(MAX_EDGES, _ => Edge(0, {}));
    var first := Buffer(blank[0 := Late().table[0]][1 := Late().table[1]], 2, 256);
    State(Player([first, Buffer(blank, 1, 256)], 0, false, 1), Idle, Late().reqs, [Late()], [], 0, [Late().table[0]])
  }

  lemma StartedIsInitial()
    ensures Initial(Started()) && Inv(Started()) && AllCompiled(Started())
    ensures Enabled(Started(), Begin(Early())) && Disciplined(Started(), Begin(Early()))
  {
    var s := Started();
    var b := s.player.bufs[0];
    assert b.edges[0] == Late().table[0] && b.edges[1] == Late().table[1];
    assert b.edges[..2] == Late().table;
    assert WellFormed(b) && WellFormed(s.player.bufs[1]);
    HalfIsCompiled(0.5, Late());
    InitialInv(s);
    assert Early().reqs[0].phase != Late().reqs[0].phase;
  }

  /**
   Early is published and staged, then Late is asked for again: the channel, high for half
   of every cycle in both programs, goes through a cycle in which both edges leave it low.
  */
  lemma DarkCycle() returns (s: State, after: seq<Action>)
    ensures Initial(s) && AllCompiled(s) && Compiled(Early()) && Compiled(Late())
    ensures Tears(s, Early(), Late(), after)
    ensures Late().table[0] == Edge(0, {}) && Early().table[1] == Edge(128, {})
  {
    HalfIsCompiled(0.0, Early());
    HalfIsCompiled(0.5, Late());
    StartedIsInitial();
    hide Initial, AllCompiled, Compiled, Inv, Enabled, Disciplined, Tears, Started;
    assert Early().reqs[0].phase != Late().reqs[0].phase;
    s := Started();
    after := TwoPublishesTear(s, Early(), Late());
  }

  /**
   Early is published and staged, then the light is asked to go dark: it keeps playing Late, with the
   dark requests remembered, until something else is asked for. Late is not what dark compiles to.
  */
  lemma StaysLit() returns (s: State, after: seq<Action>)
    ensures Initial(s) && AllCompiled(s) && Compiled(Early()) && Compiled(Off())
    ensures Legal(s, PublishActs(Early())) && NoBegin(after)
    ensures var m := Run(s, PublishActs(Early()));
      && m.player.pending && Enabled(m, Begin(Off())) && Legal(Next(m, Begin(Off())), after)
      && Stuck(Run(Next(m, Begin(Off())), after), Late(), Off().reqs)
    ensures Late().table != ScanTable(Off().reqs)
  {
    HalfIsCompiled(0.0, Early());
    OffIsCompiled();
    StartedIsInitial();
    s := Started();
    UninterruptedPublish(s, Early());
    var m := Run(s, PublishActs(Early()));
    assert Early().reqs[0].duty != Off().reqs[0].duty && Late().table[1] == Edge(128, {0});
    StagedOverLate(s, m);
    hide Initial, AllCompiled, Compiled, Inv, Enabled, Legal, Run, Next, PublishActs, PublishedIn, Stuck, Started;
    after := LostChange(m, Off());
  }

  lemma StagedOverLate(s: State, m: State)
    requires s == Started() && Inv(m) && PublishedIn(s, m, Early())
    ensures m.player.pending && Enabled(m, Begin(Off()))
    ensures m.now == 0 && |m.published| == 2 && m.published[0] == Late()
  {
    assert Early().reqs[0].duty != Off().reqs[0].duty;
  }
}
