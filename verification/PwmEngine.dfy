/**
 The statics of the PWM engine and the code that updates them: the interrupt handler,
 the first arm, and the publishing of new requests. Each is proved against the steps
 of PwmHandoff, which carry the interleaving argument.
*/
module PwmEngine {
  import opened Waveform
  import opened PwmSchedule
  import opened PwmHandoff
  import opened PwmTimer
  import opened PwmPlayback

  const AHEAD_US: nat := 8
  const SPIN_MAX_ITERS: nat := 512
  const MAX_COALESCE: nat := 8

  /** One physical channel: its pin, and whether a PWM peripheral drives it instead. */
  datatype Channel = Channel(gpio: nat, hwPwm: bool)

  // ---- state byte -> pins -----------------------------------------------------------

  function ChanMask(chans: seq<Channel>, i: nat): set<nat> {
    if i < |chans| && !chans[i].hwPwm then {chans[i].gpio} else {}
  }

  /** Pins of the channels below k that are high in the state. */
  function SetMask(chans: seq<Channel>, state: set<nat>, k: nat): set<nat> {
    if k == 0 then {}
    else SetMask(chans, state, k - 1) + if k - 1 in state then ChanMask(chans, k - 1) else {}
  }

  function AllPins(chans: seq<Channel>, k: nat): set<nat> {
    if k == 0 then {} else AllPins(chans, k - 1) + ChanMask(chans, k - 1)
  }

  /** One set write followed by one clear write. */
  function Drive(chans: seq<Channel>, state: set<nat>, pins: set<nat>): set<nat> {
    (pins + SetMask(chans, state, |chans|)) - (AllPins(chans, |chans|) - SetMask(chans, state, |chans|))
  }

  lemma {:induction false} MaskMembers(chans: seq<Channel>, state: set<nat>, k: nat, g: nat)
    requires k <= |chans|
    ensures g in AllPins(chans, k) <==> exists i :: 0 <= i < k && !chans[i].hwPwm && chans[i].gpio == g
    ensures g in SetMask(chans, state, k) <==> exists i :: 0 <= i < k && !chans[i].hwPwm && chans[i].gpio == g && i in state
    decreases k
  {
    if k > 0 {
      MaskMembers(chans, state, k - 1, g);
    }
  }

  predicate DistinctPins(chans: seq<Channel>) {
    forall i, j :: 0 <= i < j < |chans| ==> chans[i].gpio != chans[j].gpio
  }

  /** Whatever was driven before, engine pins show the state; other pins are left alone. */
  lemma PinsFollowState(chans: seq<Channel>, state: set<nat>, pins: set<nat>, i: nat)
    requires DistinctPins(chans) && i < |chans|
    ensures !chans[i].hwPwm ==> (chans[i].gpio in Drive(chans, state, pins) <==> i in state)
    ensures chans[i].hwPwm ==> (chans[i].gpio in Drive(chans, state, pins) <==> chans[i].gpio in pins)
  {
    MaskMembers(chans, state, |chans|, chans[i].gpio);
  }

  // ---- handler invocations on the model ---------------------------------------------

  /** What the handler changes: the player, the target word and the driven pins. */
  datatype Moment = Moment(player: Player, target: nat, pins: set<nat>)

  /** Applying one edge. */
  function PlayEdge(chans: seq<Channel>, ticksPerUs: nat, m: Moment): (n: Moment)
    requires Playable(m.player)
    ensures Playable(n.player) && n.target < WORD
  {
    Moment(EdgeStep(m.player), U32(m.target + ticksPerUs * Gap(m.player)),
           Drive(chans, NextEdge(m.player).state, m.pins))
  }

  function PlayEdges(chans: seq<Channel>, ticksPerUs: nat, m: Moment, n: nat): (r: Moment)
    requires Playable(m.player)
    ensures Playable(r.player) && (m.target < WORD ==> r.target < WORD)
  {
    if n == 0 then m else PlayEdge(chans, ticksPerUs, PlayEdges(chans, ticksPerUs, m, n - 1))
  }

  // ---- when an edge is applied --------------------------------------------------------

  /** The test that ends the spin: the signed difference of two words. */
  predicate Due(target: nat, now: nat)
    requires target < WORD
  {
    I32(U32(now - target)) >= 0
  }

  /** It is right about absolute times less than 2^31 ticks apart, in any epoch. */
  lemma DueIsExact(target: int, now: int, zeroed: int)
    requires -HALF <= now - target < HALF
    ensures Due(U32(target - zeroed), U32(now - zeroed)) <==> now >= target
  {
    SignedDifference(now - zeroed, target - zeroed);
  }

  /** A spin whose readings are `first` to `last`: it ends at the first one that is due, or at the cap. */
  predicate SpunFrom(now: nat -> nat, target: nat, first: nat, last: nat)
    requires target < WORD
  {
    && first <= last < first + SPIN_MAX_ITERS
    && (forall k: nat :: first <= k < last ==> !Due(target, now(k)))
    && (Due(target, now(last)) || last == first + SPIN_MAX_ITERS - 1)
  }

  /** The next edge is so close that the handler goes on to it instead of arming the timer. */
  predicate Soon(target: nat, now: nat, ticksPerUs: nat) {
    I32(U32(target - now)) <= AHEAD_US * ticksPerUs
  }

  /** Edge j's spin begins two readings after the one that ended the spin of edge j - 1. */
  function FirstRead(lasts: seq<nat>, j: nat): nat
    requires j <= |lasts|
  {
    if j == 0 then 0 else lasts[j - 1] + 2
  }

  /** Edge j was applied at the first reading at or past its target, or at the last one the cap allows. */
  predicate AppliedInTime(chans: seq<Channel>, ticksPerUs: nat, now: nat -> nat, m0: Moment, lasts: seq<nat>, j: nat)
    requires Playable(m0.player) && m0.target < WORD && j < |lasts|
  {
    SpunFrom(now, PlayEdges(chans, ticksPerUs, m0, j).target, FirstRead(lasts, j), lasts[j])
  }

  /** After edge j the next one was soon. */
  predicate GoesOn(chans: seq<Channel>, ticksPerUs: nat, now: nat -> nat, m0: Moment, lasts: seq<nat>, j: nat)
    requires Playable(m0.player) && m0.target < WORD && j < |lasts|
  {
    Soon(PlayEdges(chans, ticksPerUs, m0, j + 1).target, now(lasts[j] + 1), ticksPerUs)
  }

  /** n = |lasts| edges have been applied in time, each but the last because the next one was soon; m is where that led. */
  predicate Handled(chans: seq<Channel>, ticksPerUs: nat, now: nat -> nat, m0: Moment, lasts: seq<nat>, m: Moment)
    requires Playable(m0.player) && m0.target < WORD
  {
    && m == PlayEdges(chans, ticksPerUs, m0, |lasts|)
    && (forall j: nat :: j < |lasts| ==> AppliedInTime(chans, ticksPerUs, now, m0, lasts, j))
    && (forall j: nat :: j + 1 < |lasts| ==> GoesOn(chans, ticksPerUs, now, m0, lasts, j))
  }

  /** Later edges change nothing about earlier ones. */
  lemma EarlierStands(chans: seq<Channel>, ticksPerUs: nat, now: nat -> nat, m0: Moment, lasts: seq<nat>, last: nat, j: nat)
    requires Playable(m0.player) && m0.target < WORD && j < |lasts|
    ensures AppliedInTime(chans, ticksPerUs, now, m0, lasts + [last], j)
       <==> AppliedInTime(chans, ticksPerUs, now, m0, lasts, j)
    ensures GoesOn(chans, ticksPerUs, now, m0, lasts + [last], j) <==> GoesOn(chans, ticksPerUs, now, m0, lasts, j)
  {
    hide Playable, PlayEdge, PlayEdges, SpunFrom, Soon;
    var more := lasts + [last];
    assert more[j] == lasts[j] && FirstRead(more, j) == FirstRead(lasts, j);
  }

  lemma LatestStands(chans: seq<Channel>, ticksPerUs: nat, now: nat -> nat, m0: Moment, lasts: seq<nat>, last: nat)
    requires Playable(m0.player) && m0.target < WORD
    ensures var m := PlayEdges(chans, ticksPerUs, m0, |lasts|);
      && PlayEdges(chans, ticksPerUs, m0, |lasts| + 1) == PlayEdge(chans, ticksPerUs, m)
      && (AppliedInTime(chans, ticksPerUs, now, m0, lasts + [last], |lasts|)
          <==> SpunFrom(now, m.target, FirstRead(lasts, |lasts|), last))
      && (GoesOn(chans, ticksPerUs, now, m0, lasts + [last], |lasts|)
          <==> Soon(PlayEdge(chans, ticksPerUs, m).target, now(last + 1), ticksPerUs))
  {
    hide Playable, PlayEdge, SpunFrom, Soon;
    var more := lasts + [last];
    assert more[|lasts|] == last && FirstRead(more, |lasts|) == FirstRead(lasts, |lasts|);
  }

  lemma OneMoreHandled(chans: seq<Channel>, ticksPerUs: nat, now: nat -> nat, m0: Moment, lasts: seq<nat>,
                       m: Moment, last: nat)
    requires Playable(m0.player) && m0.target < WORD && Handled(chans, ticksPerUs, now, m0, lasts, m)
    requires |lasts| > 0 ==> GoesOn(chans, ticksPerUs, now, m0, lasts, |lasts| - 1)
    ensures Playable(m.player) && m.target < WORD
    ensures SpunFrom(now, m.target, FirstRead(lasts, |lasts|), last) ==>
              Handled(chans, ticksPerUs, now, m0, lasts + [last], PlayEdge(chans, ticksPerUs, m))
    ensures GoesOn(chans, ticksPerUs, now, m0, lasts + [last], |lasts|)
       <==> Soon(PlayEdge(chans, ticksPerUs, m).target, now(last + 1), ticksPerUs)
  {
    hide Playable, PlayEdge, PlayEdges, SpunFrom, Soon, AppliedInTime, GoesOn, FirstRead;
    LatestStands(chans, ticksPerUs, now, m0, lasts, last);
    forall j: nat | j < |lasts|
      ensures AppliedInTime(chans, ticksPerUs, now, m0, lasts + [last], j)
           == AppliedInTime(chans, ticksPerUs, now, m0, lasts, j)
      ensures GoesOn(chans, ticksPerUs, now, m0, lasts + [last], j) == GoesOn(chans, ticksPerUs, now, m0, lasts, j)
    {
      EarlierStands(chans, ticksPerUs, now, m0, lasts, last, j);
    }
  }

  lemma NoneHandled(chans: seq<Channel>, ticksPerUs: nat, now: nat -> nat, m0: Moment)
    requires Playable(m0.player) && m0.target < WORD
    ensures Handled(chans, ticksPerUs, now, m0, [], m0) && MAX_COALESCE == 8
  {
  }

  lemma NextRead(lasts: seq<nat>)
    ensures FirstRead(lasts, |lasts|) == if |lasts| == 0 then 0 else lasts[|lasts| - 1] + 2
  {
  }

  lemma HandledMeans(chans: seq<Channel>, ticksPerUs: nat, now: nat -> nat, m0: Moment, lasts: seq<nat>, m: Moment)
    requires Playable(m0.player) && m0.target < WORD && Handled(chans, ticksPerUs, now, m0, lasts, m)
    ensures m == PlayEdges(chans, ticksPerUs, m0, |lasts|)
  {
  }

  /** Timer readings that n edges may cost: a full spin and one more each. */
  function PollBudget(n: nat): nat {
    n * (SPIN_MAX_ITERS + 1)
  }

  lemma SpinIsShort(now: nat -> nat, target: nat, first: nat, last: nat, n: nat)
    requires target < WORD && SpunFrom(now, target, first, last)
    ensures PollBudget(0) == 0 && last + 2 <= first + PollBudget(n + 1) - PollBudget(n)
  {
  }

  /**
   The handler's pass is one Isr step of the interleaved system, and its target word
   stays the low 32 bits of the clock's absolute target in the epoch begun at `zeroed`.
  */
  lemma EdgeTracksClock(chans: seq<Channel>, m: Moment, s: State, c: Clock, zeroed: int, ticksPerUs: nat, floor: nat)
    requires Inv(s) && m.player == s.player && m.target == U32(c.target - zeroed)
    ensures var n := PlayEdge(chans, ticksPerUs, m);
      && n.player == IsrStep(s).player
      && n.target == U32(ClockStep(s, c, Act(Isr), ticksPerUs, floor).target - zeroed)
      && IsrStep(s).trace == s.trace + [NextEdge(m.player)]
      && n.pins == Drive(chans, NextEdge(m.player).state, m.pins)
  {
    U32Sum(c.target - zeroed, ticksPerUs * Gap(s.player));
  }

  /** Arming keeps the word in step with the clock, in whichever epoch exists afterwards. */
  lemma ArmTracksClock(s: State, c: Clock, now: nat, lag: nat, zeroed: int, minWake: nat, ahead: nat, ticksPerUs: nat)
    requires Playable(s.player) && Near(c.target, now)
    ensures var d := ClockStep(s, c, Rearm(now, lag), ticksPerUs, minWake + ahead);
      && Wake(U32(c.target - zeroed), U32(now - zeroed), minWake, ahead) == d.target - (now + lag)
      && (lag == 0 ==> U32(U32(now) + Wake(U32(c.target), U32(now), minWake, ahead)) == U32(d.target))
  {
    ArmsRefineReference(c.target, now, zeroed, lag, minWake, ahead);
  }

  function BufferOf(s: Schedule): Buffer
    reads s, s.edges
  {
    Buffer(s.edges[..], s.count, s.length)
  }

  function ProgramOf(reqs: seq<ChanReq>): Program
    requires Acceptable(reqs)
  {
    Program(reqs, ScanTable(reqs), Length(reqs))
  }

  /** A failed compile left its marks among the entries of buffer t, and changed nothing else. */
  predicate OnlyEntriesOf(t: nat, p: Player, q: Player)
    requires Playable(p) && Playable(q)
  {
    t < 2 && q == p.(bufs := p.bufs[t := p.bufs[t].(edges := q.bufs[t].edges)])
  }

  /** Player q has just been started on `reqs`, compiled into the active buffer of p. */
  predicate StartedOn(p: Player, q: Player, reqs: seq<ChanReq>)
    requires Playable(p) && Playable(q) && Acceptable(reqs)
  {
    && q.active == p.active && !q.pending && q.bufs[1 - p.active] == p.bufs[1 - p.active]
    && Holds(Current(q), ProgramOf(reqs)) && q == FirstArmed(q)
  }

  /** Buffer t has been compiled from `reqs`, everything else is as it was. */
  predicate CompiledInto(t: nat, p: Player, q: Player, reqs: seq<ChanReq>)
    requires Playable(p) && Playable(q) && Acceptable(reqs)
  {
    t < 2 && q == p.(bufs := p.bufs[t := q.bufs[t]]) && Holds(q.bufs[t], ProgramOf(reqs))
  }

  lemma ArmedIsStarted(p: Player, m: Player, reqs: seq<ChanReq>)
    requires Playable(p) && Acceptable(reqs) && Holds(Current(p), ProgramOf(reqs)) && m == p.(pending := false)
    ensures Playable(m) && StartedOn(p, FirstArmed(m), reqs) && FirstGap(FirstArmed(m)) == FirstGap(m)
    ensures Current(m).edges[0].state == Wave(reqs, 0)
  {
    FirstEntry(Current(p), reqs);
    hide Holds, ProgramOf, Acceptable, Wave;
  }

  lemma HoldsTable(b: Buffer, reqs: seq<ChanReq>)
    requires Acceptable(reqs) && WellFormed(b)
    requires b.edges[..b.count] == ScanTable(reqs) && b.length == Length(reqs)
    ensures Holds(b, ProgramOf(reqs))
  {
    hide ScanTable, Length, Acceptable;
  }

  lemma CompiledHolds(t: nat, p: Player, q: Player, reqs: seq<ChanReq>)
    requires Playable(p) && Playable(q) && Acceptable(reqs)
    ensures CompiledInto(t, p, q, reqs) ==> t < |q.bufs| && Holds(q.bufs[t], ProgramOf(reqs))
  {
  }

  lemma FirstBuffer(p: Player)
    requires Playable(p) && p.active == 0
    ensures Current(p) == p.bufs[0]
  {
  }

  lemma FlaggedIsStaged(p: Player, m: Player, q: Player, reqs: seq<ChanReq>)
    requires Playable(p) && Playable(m) && Acceptable(reqs) && CompiledInto(1 - p.active, p, m, reqs)
    requires q == m.(pending := true)
    ensures Playable(q) && Staged(p, q, ProgramOf(reqs))
  {
    hide Holds, ProgramOf, Acceptable;
  }

  lemma CompiledIsCurrent(p: Player, m: Player, reqs: seq<ChanReq>)
    requires Playable(p) && Playable(m) && Acceptable(reqs) && CompiledInto(p.active, p, m, reqs)
    ensures Holds(Current(m), ProgramOf(reqs))
  {
    hide Holds, ProgramOf, Acceptable;
  }

  lemma StartedSince(p: Player, m: Player, q: Player, reqs: seq<ChanReq>)
    requires Playable(p) && Playable(m) && Playable(q) && Acceptable(reqs)
    ensures CompiledInto(p.active, p, m, reqs) && StartedOn(m, q, reqs) ==> StartedOn(p, q, reqs)
  {
    hide Holds, ProgramOf, Acceptable;
  }

  /** engine_first_arm on player p: entry 0 has been shown, the next one is entry 1 or the wrap. */
  function FirstArmed(p: Player): (q: Player)
    requires Playable(p)
    ensures Playable(q)
  {
    p.(idx := if Current(p).count > 1 then 1 else 0)
  }

  /** Schedule time from entry 0 to the event after it. */
  function FirstGap(p: Player): nat
    requires Playable(p)
  {
    if Current(p).count > 1 then Current(p).edges[1].offset else Current(p).length
  }

  /** The interleaved system right after engine_first_arm has started player p on its first requests. */
  function StartedState(p: Player, reqs: seq<ChanReq>): State
    requires Playable(p) && Acceptable(reqs)
  {
    State(FirstArmed(p), Idle, reqs, [ProgramOf(reqs)], if Current(p).count > 1 then [] else [0], 0,
          [Current(p).edges[0]])
  }

  /** Once the default colour is compiled, the first arm puts the engine in an initial state, on time. */
  lemma FirstArmStarts(p: Player, reqs: seq<ChanReq>, now: int, ticksPerUs: nat)
    requires Playable(p) && p.active == 0 && !p.pending && Acceptable(reqs) && Holds(p.bufs[0], ProgramOf(reqs))
    ensures var s := StartedState(p, reqs);
      && Initial(s) && AllCompiled(s) && s.player == FirstArmed(p)
      && s.trace == [Edge(0, Wave(reqs, 0))]
      && FirstClock(s, now, ticksPerUs).target == now + ticksPerUs * FirstGap(p)
  {
    FirstEntry(p.bufs[0], reqs);
  }

  class Engine {
    const chans: seq<Channel>
    const ticksPerUs: nat
    const s0: Schedule
    const s1: Schedule
    var active: nat
    var updatePending: bool
    var idx: nat
    var running: bool
    var target: nat             // word, in the timer's current epoch
    var lastReqs: seq<ChanReq>
    var haveLastReqs: bool
    var pins: set<nat>          // GPIO outputs that are high

    ghost predicate Valid()
      reads `active, `idx, `target, s0, s1, s0.edges, s1.edges
    {
      && s0 != s1 && s0.edges != s1.edges && s0.Valid() && s1.Valid()
      && active < 2 && idx < Active().count && target < WORD
    }

    function Active(): Schedule
      reads `active
    {
      if active == 0 then s0 else s1
    }

    ghost function View(): (p: Player)
      requires Valid()
      reads `active, `updatePending, `idx, `target, s0, s1, s0.edges, s1.edges
      ensures Playable(p)
    {
      Player([BufferOf(s0), BufferOf(s1)], active, updatePending, idx)
    }

    ghost function Now(): (m: Moment)
      requires Valid()
      reads this, s0, s1, s0.edges, s1.edges
      ensures Playable(m.player)
    {
      Moment(View(), target, pins)
    }

    constructor (chans: seq<Channel>, ticksPerUs: nat)
      ensures Valid() && fresh(s0) && fresh(s1) && fresh(s0.edges) && fresh(s1.edges)
      ensures !running && !updatePending && !haveLastReqs && active == 0 && idx == 0
      ensures this.chans == chans && this.ticksPerUs == ticksPerUs
    {
      this.chans, this.ticksPerUs := chans, ticksPerUs;
      s0 := new Schedule();
      s1 := new Schedule();
      active, idx, target := 0, 0, 0;
      updatePending, running, haveLastReqs := false, false, false;
      lastReqs, pins := [], {};
    }

    /** Spins until the target has come, at most SPIN_MAX_ITERS polls. */
    method Spin(now: nat -> nat, poll0: nat) returns (poll: nat)
      requires target < WORD && forall k :: now(k) < WORD
      ensures poll0 < poll && SpunFrom(now, target, poll0, poll - 1)
    {
      var spin := 0;
      poll := poll0 + 1;
      while I32(U32(now(poll - 1) - target)) < 0
        invariant spin < SPIN_MAX_ITERS && poll == poll0 + 1 + spin
        invariant forall k: nat :: poll0 <= k < poll - 1 ==> !Due(target, now(k))
        decreases SPIN_MAX_ITERS - spin
      {
        spin := spin + 1;
        if spin >= SPIN_MAX_ITERS { break; }
        poll := poll + 1;
      }
    }

    /** One write to the set register, one to the clear register. */
    method DrivePins(st: set<nat>)
      modifies `pins
      ensures pins == Drive(chans, st, old(pins))
    {
      var mask := SetMask(chans, st, |chans|);
      pins := pins + mask;
      pins := pins - (AllPins(chans, |chans|) - mask);
    }

    /** Moves on from the edge at idx, swapping buffers at a wrap. */
    method Advance()
      requires Valid()
      modifies `active, `updatePending, `idx, `target
      ensures Valid() && View() == EdgeStep(old(View()))
      ensures target == U32(old(target) + ticksPerUs * Gap(old(View())))
    {
      var sch := Active();
      var cur: int := sch.edges[idx].offset;
      var next := idx + 1;
      var nextUs: int;
      if next < sch.count {
        nextUs := sch.edges[next].offset;
      } else {
        nextUs := sch.length;
        next := 0;
        if updatePending {
          active := 1 - active;
          updatePending := false;
        }
      }
      idx := next;
      target := U32(target + ticksPerUs * (nextUs - cur));
    }

    /** Applies the edge at idx and moves on. */
    method ApplyEdge()
      requires Valid()
      modifies `active, `updatePending, `idx, `target, `pins
      ensures Valid() && Now() == PlayEdge(chans, ticksPerUs, old(Now()))
    {
      var sch := Active();
      DrivePins(sch.edges[idx].state);
      Advance();
    }

    /** One pass of the handler's loop; `near` says that the next edge is within the arm-ahead window. */
    method Pass(now: nat -> nat, polls0: nat) returns (polls: nat, near: bool)
      requires Valid()
      requires forall k :: now(k) < WORD
      modifies `active, `updatePending, `idx, `target, `pins
      ensures Valid() && Now() == PlayEdge(chans, ticksPerUs, old(Now()))
      ensures polls >= polls0 + 2 && SpunFrom(now, old(target), polls0, polls - 2)
      ensures near == Soon(target, now(polls - 1), ticksPerUs)
    {
      hide Due, SpunFrom, PlayEdge, Playable;
      polls := Spin(now, polls0);
      ApplyEdge();
      near := I32(U32(target - now(polls))) <= AHEAD_US * ticksPerUs;
      polls := polls + 1;
    }

    /** The end of the handler: the target in the epoch that exists after arming. */
    method Rearm(arm: nat -> nat)
      requires Valid() && forall w :: arm(w) < WORD
      modifies `target
      ensures Valid() && View() == old(View()) && target == arm(old(target))
    {
      target := arm(target);
    }

    /** What a moment is made of. */
    lemma NowParts()
      requires Valid()
      ensures Now().player == View() && Now().target == target < WORD && Now().pins == pins && Playable(View())
    {
    }

    /**
     pwm_isr. `now(k)` is the k-th reading of the timer and `arm` the backend's arm-and-rebase.
     One invocation applies between one and nine edges; lasts[j] is the last reading before edge j.
    */
    method Isr(now: nat -> nat, arm: nat -> nat) returns (edges: nat, polls: nat, ghost lasts: seq<nat>)
      requires Valid()
      requires forall k :: now(k) < WORD
      requires forall w :: arm(w) < WORD
      modifies `active, `updatePending, `idx, `target, `pins
      ensures Valid() && 1 <= edges <= MAX_COALESCE + 1 && |lasts| == edges
      ensures polls == FirstRead(lasts, edges) <= PollBudget(edges)
      ensures var m := PlayEdges(chans, ticksPerUs, old(Now()), edges);
        && View() == m.player && pins == m.pins && target == arm(m.target)
        && Handled(chans, ticksPerUs, now, old(Now()), lasts, m)
      ensures edges <= MAX_COALESCE ==> !GoesOn(chans, ticksPerUs, now, old(Now()), lasts, edges - 1)
    {
      hide *;
      ghost var m0 := Now();
      var coalesced := 0;
      edges, polls, lasts := 0, 0, [];
      NowParts();
      NoneHandled(chans, ticksPerUs, now, m0);
      NextRead(lasts);
      while true
        invariant Valid() && edges == coalesced == |lasts| <= MAX_COALESCE
        invariant polls == FirstRead(lasts, edges) <= PollBudget(edges)
        invariant Handled(chans, ticksPerUs, now, m0, lasts, Now())
        invariant edges > 0 ==> GoesOn(chans, ticksPerUs, now, m0, lasts, edges - 1)
        decreases MAX_COALESCE - coalesced
      {
        ghost var m, first := Now(), polls;
        var near;
        NowParts();
        polls, near := Pass(now, polls);
        NowParts();
        OneMoreHandled(chans, ticksPerUs, now, m0, lasts, m, polls - 2);
        SpinIsShort(now, m.target, first, polls - 2, edges);
        lasts := lasts + [polls - 2];
        NextRead(lasts);
        edges := edges + 1;
        if near && coalesced < MAX_COALESCE {
          coalesced := coalesced + 1;
          continue;
        }
        break;
      }
      NowParts();
      HandledMeans(chans, ticksPerUs, now, m0, lasts, Now());
      Rearm(arm);
    }

    /** The level for t = 0, driven at once. */
    method DriveFirst()
      requires Valid()
      modifies `pins
      ensures pins == Drive(chans, Current(View()).edges[0].state, old(pins))
    {
      hide Drive;
      var sch := Active();
      DrivePins(sch.edges[0].state);
    }

    /** engine_first_arm: shows the entry for t = 0 and aims at the next one. */
    method FirstArm(now: nat, arm: nat -> nat)
      requires Valid()
      requires forall w :: arm(w) < WORD
      modifies `idx, `target, `running, `pins
      ensures Valid() && running
      ensures pins == Drive(chans, Current(old(View())).edges[0].state, old(pins))
      ensures View() == FirstArmed(old(View()))
      ensures target == arm(U32(now + ticksPerUs * FirstGap(old(View()))))
    {
      DriveFirst();
      hide Drive;
      var sch := Active();
      var gap;
      if sch.count > 1 {
        gap := sch.edges[1].offset;
        idx := 1;
      } else {
        gap := sch.length;
        idx := 0;
      }
      target := arm(U32(now + ticksPerUs * gap));
      running := true;
    }

    /** reqs_equal */
    method RequestsEqual(a: seq<ChanReq>, b: seq<ChanReq>) returns (equal: bool)
      requires |a| == |b|
      ensures equal <==> a == b
    {
      for i := 0 to |a|
        invariant a[..i] == b[..i]
      {
        if a[i].duty != b[i].duty || a[i].phase != b[i].phase || a[i].log2 != b[i].log2 {
          return false;
        }
      }
      return true;
    }

    /** pwm_compile into buffer t; nothing but that buffer changes. */
    method CompileInto(t: nat, reqs: seq<ChanReq>) returns (ok: bool)
      requires Valid() && Acceptable(reqs) && t < 2 && (t == active ==> idx == 0)
      modifies s0, s1, s0.edges, s1.edges
      ensures InConfiguredRange(reqs) ==> ok
      ensures Valid()
      ensures if ok then CompiledInto(t, old(View()), View(), reqs) else OnlyEntriesOf(t, old(View()), View())
    {
      hide Holds, InConfiguredRange, Acceptable, ScanTable, Length;
      var sch := if t == 0 then s0 else s1;
      ok := Compile(reqs, sch);
      if ok {
        HoldsTable(BufferOf(sch), reqs);
      }
    }

    lemma ViewParts()
      requires Valid()
      ensures Playable(View()) && View().active == active < 2 && |View().bufs| == 2
    {
    }

    /** The statics as pwm_output_init sets them, all engine pins low. */
    method Reset()
      requires Valid()
      modifies `active, `running, `updatePending, `idx, `pins
      ensures Valid() && !running && !updatePending && active == 0 && idx == 0
      ensures pins == old(pins) - AllPins(chans, |chans|)
    {
      pins := pins - AllPins(chans, |chans|);
      active, running, updatePending, idx := 0, false, false, 0;
    }

    /**
     pwm_output_init: everything low, the default colour compiled into buffer 0 and remembered,
     its level at t = 0 driven. Playback waits for engine_first_arm.
    */
    method Init(reqs: seq<ChanReq>)
      requires Valid() && Acceptable(reqs)
      modifies this, s0, s1, s0.edges, s1.edges
      ensures Valid() && !running && !updatePending && active == 0 && idx == 0
      ensures haveLastReqs && lastReqs == reqs && target == old(target)
      ensures pins == Drive(chans, View().bufs[0].edges[0].state, old(pins) - AllPins(chans, |chans|))
      ensures InConfiguredRange(reqs) ==> Holds(View().bufs[0], ProgramOf(reqs))
    {
      hide *;
      Reset();
      ghost var p := View();
      ViewParts();
      var ok := CompileInto(0, reqs);
      ViewParts();
      if ok {
        CompiledHolds(0, p, View(), reqs);
      }
      lastReqs, haveLastReqs := reqs, true;
      DriveFirst();
      FirstBuffer(View());
    }

    method LowerFlag()
      requires Valid()
      modifies `updatePending
      ensures Valid() && View() == old(View()).(pending := false)
    {
      updatePending := false;
    }

    /** Remembers requests compiled into the active buffer and starts playing them. */
    method Start(reqs: seq<ChanReq>, now: nat, arm: nat -> nat)
      requires Valid() && Acceptable(reqs) && Holds(Current(View()), ProgramOf(reqs))
      requires forall w :: arm(w) < WORD
      modifies `idx, `target, `running, `pins, `updatePending
      ensures Valid() && running && StartedOn(old(View()), View(), reqs)
      ensures pins == Drive(chans, Wave(reqs, 0), old(pins))
      ensures target == arm(U32(now + ticksPerUs * FirstGap(View())))
    {
      hide *;
      ghost var p := View();
      ViewParts();
      LowerFlag();
      ghost var m := View();
      FirstArm(now, arm);
      ArmedIsStarted(p, m, reqs);
    }

    /** The flag that the handler looks at when a cycle ends. */
    method Flag()
      requires Valid()
      modifies `updatePending
      ensures Valid() && View() == old(View()).(pending := true)
    {
      updatePending := true;
    }

    /** publish_reqs on a running engine, for requests that differ from the last ones. */
    method CompileAndStage(reqs: seq<ChanReq>) returns (ok: bool)
      requires Valid() && running && Acceptable(reqs)
      modifies `updatePending, `lastReqs, `haveLastReqs, s0, s1, s0.edges, s1.edges
      ensures Valid() && (!ok ==> !InConfiguredRange(reqs))
      ensures if ok then Staged(old(View()), View(), ProgramOf(reqs)) && haveLastReqs && lastReqs == reqs
              else && OnlyEntriesOf(1 - active, old(View()), View())
                   && haveLastReqs == old(haveLastReqs) && lastReqs == old(lastReqs)
    {
      hide *;
      ghost var p := View();
      ViewParts();
      ok := CompileInto(1 - active, reqs);
      if ok {
        lastReqs, haveLastReqs := reqs, true;
        ghost var m := View();
        Flag();
        FlaggedIsStaged(p, m, View(), reqs);
      }
    }

    /** publish_reqs before the engine runs. */
    method CompileAndStart(reqs: seq<ChanReq>, now: nat, arm: nat -> nat) returns (ok: bool)
      requires Valid() && !running && idx == 0 && Acceptable(reqs)
      requires forall w :: arm(w) < WORD
      modifies this, s0, s1, s0.edges, s1.edges
      ensures Valid() && running == ok && (!ok ==> !InConfiguredRange(reqs))
      ensures if ok then
                && StartedOn(old(View()), View(), reqs) && haveLastReqs && lastReqs == reqs
                && pins == Drive(chans, Wave(reqs, 0), old(pins))
                && target == arm(U32(now + ticksPerUs * FirstGap(View())))
              else && OnlyEntriesOf(active, old(View()), View()) && target == old(target) && pins == old(pins)
                   && active == old(active) && haveLastReqs == old(haveLastReqs) && lastReqs == old(lastReqs)
    {
      hide *;
      ghost var p := View();
      ViewParts();
      ok := CompileInto(active, reqs);
      if ok {
        lastReqs, haveLastReqs := reqs, true;
        ghost var m := View();
        CompiledIsCurrent(p, m, reqs);
        Start(reqs, now, arm);
        StartedSince(p, m, View(), reqs);
      }
    }

    /**
     publish_reqs. A repeat of the last requests changes nothing. Anything else is compiled whole into
     the idle buffer and staged for the next wrap, or, before the engine runs, into the active one,
     which starts playing. Only an exponent outside the configured range makes the compile fail.
    */
    method Publish(reqs: seq<ChanReq>, now: nat, arm: nat -> nat)
      requires Valid() && (!running ==> idx == 0)
      requires Acceptable(reqs) && (haveLastReqs ==> |lastReqs| == |reqs|)
      requires forall w :: arm(w) < WORD
      modifies this, s0, s1, s0.edges, s1.edges
      ensures Valid()
      ensures var knew, knows := old(haveLastReqs && lastReqs == reqs), haveLastReqs && lastReqs == reqs;
        var t := if old(running) then 1 - old(active) else old(active);
        if knew then
          knows && View() == old(View()) && running == old(running) && target == old(target) && pins == old(pins)
        else if !knows then
          && !InConfiguredRange(reqs) && OnlyEntriesOf(t, old(View()), View())
          && haveLastReqs == old(haveLastReqs) && lastReqs == old(lastReqs)
          && running == old(running) && target == old(target) && pins == old(pins)
        else if old(running) then
          Staged(old(View()), View(), ProgramOf(reqs)) && running && target == old(target) && pins == old(pins)
        else
          && StartedOn(old(View()), View(), reqs) && running && pins == Drive(chans, Wave(reqs, 0), old(pins))
          && target == arm(U32(now + ticksPerUs * FirstGap(View())))
    {
      hide Drive, Wave, Acceptable, InConfiguredRange, ProgramOf, FirstGap, Staged, StartedOn, OnlyEntriesOf, Playable;
      if haveLastReqs {
        var same := RequestsEqual(reqs, lastReqs);
        if same { return; }
      }
      var ok;
      if running {
        ok := CompileAndStage(reqs);
      } else {
        ok := CompileAndStart(reqs, now, arm);
      }
    }
  }

  lemma FirstEntry(b: Buffer, reqs: seq<ChanReq>)
    requires Acceptable(reqs) && Holds(b, ProgramOf(reqs))
    ensures b.edges[0] == Edge(0, Wave(reqs, 0)) && b.count == |ScanTable(reqs)|
  {
    ScanStarts(reqs, Length(reqs) - 1);
    assert b.edges[0] == b.edges[..b.count][0];
  }

  lemma {:induction false} ScanStarts(reqs: seq<ChanReq>, t: nat)
    requires Acceptable(reqs)
    ensures Scan(reqs, t)[0] == Edge(0, Wave(reqs, 0))
    decreases t
  {
    if t > 0 {
      ScanStarts(reqs, t - 1);
    }
  }
}
