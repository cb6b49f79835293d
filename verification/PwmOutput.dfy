/**
 What the light does at every moment of every run: timeline, tables and pins joined. Between
 two edges each engine pin shows the square wave of the program in play, at the tick that is due.
*/
module PwmOutput {
  import opened Waveform
  import opened PwmHandoff
  import opened PwmPlayback
  import opened PwmEngine

  /** Pins after all edges of a trace have been driven, one after the other. */
  function PinsAfter(chans: seq<Channel>, trace: seq<Edge>, pins: set<nat>): set<nat> {
    if |trace| == 0 then pins
    else Drive(chans, trace[|trace| - 1].state, PinsAfter(chans, trace[..|trace| - 1], pins))
  }

  /** Player and pins are where the edges applied so far have put them. */
  predicate Tracks(chans: seq<Channel>, m: Moment, s: State, pins0: set<nat>) {
    m.player == s.player && m.pins == PinsAfter(chans, s.trace, pins0)
  }

  lemma PassDrivesTrace(chans: seq<Channel>, ticksPerUs: nat, m: Moment, s: State, pins0: set<nat>)
    requires Inv(s) && Tracks(chans, m, s, pins0)
    ensures Tracks(chans, PlayEdge(chans, ticksPerUs, m), IsrStep(s), pins0)
  {
    var t := IsrStep(s).trace;
    assert t[..|t| - 1] == s.trace;
  }

  /** n player steps, one after the other. */
  function IsrSteps(s: State, n: nat): (t: State)
    requires Inv(s)
    ensures Inv(t)
  {
    if n == 0 then s else
      var t := IsrSteps(s, n - 1);
      StepKeepsInv(t, Isr);
      IsrStep(t)
  }

  lemma TracksPlayable(chans: seq<Channel>, m: Moment, s: State, pins0: set<nat>)
    requires Inv(s) && Tracks(chans, m, s, pins0)
    ensures Playable(m.player)
  {
  }

  /** A handler invocation of n passes leaves player and pins as n steps of the interleaved system do. */
  lemma {:induction false} HandlerDrivesTrace(chans: seq<Channel>, ticksPerUs: nat, m: Moment, s: State,
                                              pins0: set<nat>, n: nat)
    requires Inv(s) && Tracks(chans, m, s, pins0)
    ensures Playable(m.player)
    ensures Tracks(chans, PlayEdges(chans, ticksPerUs, m, n), IsrSteps(s, n), pins0)
    decreases n
  {
    hide Inv, IsrStep, PlayEdge, Tracks, Playable;
    TracksPlayable(chans, m, s, pins0);
    if n > 0 {
      HandlerDrivesTrace(chans, ticksPerUs, m, s, pins0, n - 1);
      PassDrivesTrace(chans, ticksPerUs, PlayEdges(chans, ticksPerUs, m, n - 1), IsrSteps(s, n - 1), pins0);
    }
  }

  /** The last applied edge belongs to the cycle in progress, or it ended the one before. */
  predicate MidCycle(s: State) {
    s.player.idx > 0
  }

  /** The cycles that were over before the last applied edge. */
  function CyclesBefore(s: State): seq<nat>
    requires |s.cycles| > 0 || MidCycle(s)
  {
    if MidCycle(s) then s.cycles else s.cycles[..|s.cycles| - 1]
  }

  /** The program that the last applied edge belongs to. */
  function Sounding(s: State): Program
    requires Inv(s) && (|s.cycles| > 0 || MidCycle(s))
  {
    s.published[if MidCycle(s) then s.now else s.cycles[|s.cycles| - 1]]
  }

  /** Position of the last applied edge in its program's table. */
  function LastIndex(s: State): int
    requires Inv(s) && (|s.cycles| > 0 || MidCycle(s))
  {
    if MidCycle(s) then s.player.idx - 1 else |Sounding(s).table| - 1
  }

  /** Schedule time at which entry j stops being in force: the next entry's, or the length. */
  function Until(g: Program, j: int): nat
    requires 0 <= j < |g.table|
  {
    if j + 1 < |g.table| then g.table[j + 1].offset else g.length
  }

  lemma SomethingSounds(s: State)
    requires Inv(s) && |s.trace| > 0
    ensures |s.cycles| > 0 || MidCycle(s)
  {
  }

  lemma LastOfAppend(w: seq<Edge>, t: seq<Edge>)
    requires |t| > 0
    ensures (w + t)[|w + t| - 1] == t[|t| - 1]
  {
  }

  /** The trace ends with the sounding program's entry. */
  lemma TraceEndsInSounding(s: State)
    requires Inv(s) && AllStartAtZero(s) && (|s.cycles| > 0 || MidCycle(s))
    ensures |s.trace| > 0 && 0 <= LastIndex(s) < |Sounding(s).table|
    ensures s.trace[|s.trace| - 1] == Sounding(s).table[LastIndex(s)]
  {
    var w := WholeCycles(s.published, s.cycles);
    if MidCycle(s) {
      var t := s.published[s.now].table;
      PlayedEdge(s);
      LastOfAppend(w, t[..s.player.idx]);
    } else {
      var g := Sounding(s);
      assert s.trace == w;
      assert StartsAtZero(g);
      LastOfAppend(WholeCycles(s.published, s.cycles[..|s.cycles| - 1]), g.table);
    }
  }

  /** The next edge is due when the sounding entry ends. */
  lemma NextIsUntil(s: State)
    requires Inv(s) && AllStartAtZero(s) && (|s.cycles| > 0 || MidCycle(s))
    requires 0 <= LastIndex(s) < |Sounding(s).table|
    ensures forall k :: 0 <= k < |CyclesBefore(s)| ==> CyclesBefore(s)[k] < |s.published|
    ensures CycleTime(s.published, CyclesBefore(s)) + Until(Sounding(s), LastIndex(s))
         == CycleTime(s.published, s.cycles) + NextEdge(s.player).offset
  {
    PlayedEdge(s);
    if !MidCycle(s) {
      assert StartsAtZero(s.published[s.now]);
    }
  }

  lemma CompiledParts(g: Program, u: nat)
    requires Compiled(g)
    ensures Minimal(g.table, g.length) && |g.table| >= 1 && g.length == Length(g.reqs)
    ensures u < g.length ==> StateAt(g.table, u) == Wave(g.reqs, u)
  {
    ScanMeaning(g.reqs, Length(g.reqs) - 1);
    ScanMinimal(g.reqs, Length(g.reqs) - 1);
    hide Wave, Scan, Minimal, StateAt, Acceptable, StrictlyOrdered;
  }

  /** While entry j is in force, its state is the set of channels whose wave is high. */
  lemma InForce(g: Program, j: nat, u: nat)
    requires Compiled(g) && j < |g.table| && g.table[j].offset <= u < Until(g, j)
    ensures u < Length(g.reqs) && g.table[j].state == Wave(g.reqs, u)
  {
    CompiledParts(g, u);
    hide Wave, StateAt, Acceptable, ScanTable;
    StateAtPrefix(g.table, j, u);
  }

  /** Channel i of the program is high at tick u; a channel it has no request for is low. */
  predicate Sounds(g: Program, i: nat, u: nat)
    requires Acceptable(g.reqs)
  {
    i < |g.reqs| && High(g.reqs[i], u)
  }

  lemma SoundingCompiled(s: State)
    requires Inv(s) && (|s.cycles| > 0 || MidCycle(s))
    ensures AllCompiled(s) ==> Compiled(Sounding(s)) && Acceptable(Sounding(s).reqs)
  {
  }

  lemma WaveSounds(g: Program, i: nat, u: nat)
    requires Acceptable(g.reqs)
    ensures i in Wave(g.reqs, u) <==> Sounds(g, i, u)
  {
  }

  lemma LastDriven(chans: seq<Channel>, trace: seq<Edge>, pins0: set<nat>, i: nat)
    requires |trace| > 0 && DistinctPins(chans) && i < |chans| && !chans[i].hwPwm
    ensures chans[i].gpio in PinsAfter(chans, trace, pins0) <==> i in trace[|trace| - 1].state
  {
    PinsFollowState(chans, trace[|trace| - 1].state, PinsAfter(chans, trace[..|trace| - 1], pins0), i);
  }

  lemma PinsShowWave(chans: seq<Channel>, s: State, pins0: set<nat>, i: nat, u: nat)
    requires Inv(s) && AllStartAtZero(s) && (|s.cycles| > 0 || MidCycle(s))
    requires DistinctPins(chans) && i < |chans| && !chans[i].hwPwm
    requires 0 <= LastIndex(s) < |Sounding(s).table|
    ensures AllCompiled(s) && Sounding(s).table[LastIndex(s)].offset <= u < Until(Sounding(s), LastIndex(s)) ==>
              && Acceptable(Sounding(s).reqs)
              && (chans[i].gpio in PinsAfter(chans, s.trace, pins0) <==> Sounds(Sounding(s), i, u))
  {
    hide *;
    var g, j := Sounding(s), LastIndex(s);
    if AllCompiled(s) && g.table[j].offset <= u < Until(g, j) {
      SoundingCompiled(s);
      TraceEndsInSounding(s);
      InForce(g, j, u);
      WaveSounds(g, i, u);
      LastDriven(chans, s.trace, pins0, i);
    }
  }

  // ---- whole runs ---------------------------------------------------------------------

  lemma CompiledStartAtZero(s: State)
    requires AllCompiled(s)
    ensures AllStartAtZero(s)
  {
    forall k | 0 <= k < |s.published|
      ensures StartsAtZero(s.published[k])
    {
      CompiledStartsAtZero(s.published[k]);
    }
    if !s.producer.Idle? {
      CompiledStartsAtZero(s.producer.goal);
    }
  }

  lemma {:induction false} EventsKeepTrace(s: State, c: Clock, es: seq<Event>, ticksPerUs: nat, floor: nat)
    requires Inv(s) && LegalEvents(s, es) && |s.trace| > 0
    ensures |RunEvents(s, c, es, ticksPerUs, floor).0.trace| > 0
    decreases |es|
  {
    if |es| > 0 {
      hide Inv, EventEnabled, EventNext, ClockStep;
      EventKeepsInv(s, es[0]);
      EventsKeepTrace(EventNext(s, es[0]), ClockStep(s, c, es[0], ticksPerUs, floor), es[1..], ticksPerUs, floor);
    }
  }

  /** Absolute time of tick u of the sounding cycle. */
  function TickTime(s: State, d: Clock, ticksPerUs: nat, u: nat): int
    requires |s.cycles| > 0 || MidCycle(s)
    requires forall k :: 0 <= k < |CyclesBefore(s)| ==> CyclesBefore(s)[k] < |s.published|
  {
    d.start + ticksPerUs * (CycleTime(s.published, CyclesBefore(s)) + u) + d.slip
  }

  lemma Before(k: nat, b: nat, u: nat, v: nat)
    requires k > 0 && u < v
    ensures k * (b + u) < k * (b + v)
  {
  }

  lemma TickBeforeTarget(s: State, d: Clock, ticksPerUs: nat, u: nat)
    requires Inv(s) && AllStartAtZero(s) && (|s.cycles| > 0 || MidCycle(s)) && ticksPerUs > 0
    requires 0 <= LastIndex(s) < |Sounding(s).table|
    requires d.target == d.start + ticksPerUs * (CycleTime(s.published, s.cycles) + NextEdge(s.player).offset) + d.slip
    ensures forall k :: 0 <= k < |CyclesBefore(s)| ==> CyclesBefore(s)[k] < |s.published|
    ensures TickTime(s, d, ticksPerUs, Until(Sounding(s), LastIndex(s))) == d.target
    ensures u < Until(Sounding(s), LastIndex(s)) ==> TickTime(s, d, ticksPerUs, u) < d.target
  {
    NextIsUntil(s);
    var v, b := Until(Sounding(s), LastIndex(s)), CycleTime(s.published, CyclesBefore(s));
    hide Inv, AllStartAtZero, CyclesBefore, Sounding, LastIndex, CycleTime, NextEdge;
    if u < v {
      Before(ticksPerUs, b, u, v);
    }
  }

  /**
   Channel i shows its wave: from the last applied edge until the next one is due, its pin is high
   at the tick that is due exactly when the wave of the program in play is high there.
  */
  ghost predicate ShowsWave(s: State, d: Clock, ticksPerUs: nat, chans: seq<Channel>, pins: set<nat>, i: nat)
    requires i < |chans|
  {
    && Inv(s) && (|s.cycles| > 0 || MidCycle(s))
    && (forall k :: 0 <= k < |CyclesBefore(s)| ==> CyclesBefore(s)[k] < |s.published|)
    && var g, j := Sounding(s), LastIndex(s);
       && Compiled(g) && 0 <= j < |g.table| && TickTime(s, d, ticksPerUs, Until(g, j)) == d.target
       && forall u: nat :: g.table[j].offset <= u < Until(g, j) ==>
            && TickTime(s, d, ticksPerUs, u) < d.target
            && (chans[i].gpio in pins <==> Sounds(g, i, u))
  }

  lemma OnTimeShowsWave(s: State, d: Clock, ticksPerUs: nat, chans: seq<Channel>, pins0: set<nat>, i: nat)
    requires Inv(s) && |s.trace| > 0
    requires d.target == d.start + ticksPerUs * (CycleTime(s.published, s.cycles) + NextEdge(s.player).offset) + d.slip
    requires DistinctPins(chans) && i < |chans| && !chans[i].hwPwm && ticksPerUs > 0
    ensures AllCompiled(s) ==> ShowsWave(s, d, ticksPerUs, chans, PinsAfter(chans, s.trace, pins0), i)
  {
    hide Inv, AllCompiled, AllStartAtZero, Compiled, Sounding, LastIndex, CyclesBefore, MidCycle, CycleTime, TickTime,
         Until, Sounds, PinsAfter, DistinctPins, NextEdge;
    if AllCompiled(s) {
      SomethingSounds(s);
      CompiledStartAtZero(s);
      SoundingCompiled(s);
      TraceEndsInSounding(s);
      TickBeforeTarget(s, d, ticksPerUs, 0);
      var g, j := Sounding(s), LastIndex(s);
      forall u: nat | g.table[j].offset <= u < Until(g, j)
        ensures TickTime(s, d, ticksPerUs, u) < d.target
        ensures chans[i].gpio in PinsAfter(chans, s.trace, pins0) <==> Sounds(g, i, u)
      {
        TickBeforeTarget(s, d, ticksPerUs, u);
        PinsShowWave(chans, s, pins0, i, u);
      }
    }
  }

  /**
   The light, at every moment of every run from start-up, however handler, producer and arms
   interleave: every engine pin shows the wave its channel has in the program in play.
  */
  lemma LightFollowsWaves(chans: seq<Channel>, pins0: set<nat>, s: State, start: int, es: seq<Event>,
                          ticksPerUs: nat, floor: nat, i: nat)
    requires Initial(s) && AllCompiled(s) && LegalEvents(s, es) && CompilerEvents(es)
    requires DistinctPins(chans) && i < |chans| && !chans[i].hwPwm && ticksPerUs > 0
    ensures Inv(s)
    ensures var (e, d) := RunEvents(s, FirstClock(s, start, ticksPerUs), es, ticksPerUs, floor);
      d.start == start && ShowsWave(e, d, ticksPerUs, chans, PinsAfter(chans, e.trace, pins0), i)
  {
    hide *;
    InitialInv(s);
    TimelineFromStart(s, start, es, ticksPerUs, floor);
    var c := FirstClock(s, start, ticksPerUs);
    EventsKeepTrace(s, c, es, ticksPerUs, floor);
    var (e, d) := RunEvents(s, c, es, ticksPerUs, floor);
    OnTimeShowsWave(e, d, ticksPerUs, chans, pins0, i);
  }
}
