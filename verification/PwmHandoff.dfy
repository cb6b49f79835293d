/**
 The edge player and the single producer as interleaved steps. The player applies
 one edge at a time from the active buffer and swaps buffers only at a cycle wrap;
 the producer writes the other buffer entry by entry and then raises a flag.
*/
module PwmHandoff {
  import opened Waveform

  /** A schedule buffer in memory: only the first `count` of its entries are in use. */
  datatype Buffer = Buffer(edges: seq<Edge>, count: nat, length: nat)

  predicate WellFormed(b: Buffer) {
    |b.edges| == MAX_EDGES && 1 <= b.count <= MAX_EDGES
  }

  /** A request set together with what it compiles to. */
  datatype Program = Program(reqs: seq<ChanReq>, table: seq<Edge>, length: nat)

  ghost predicate Compiled(g: Program) {
    Acceptable(g.reqs) && g.table == ScanTable(g.reqs) && g.length == Length(g.reqs)
  }

  predicate Fits(g: Program) {
    1 <= |g.table| <= MAX_EDGES
  }

  /** The buffer holds the complete program. */
  predicate Holds(b: Buffer, g: Program) {
    WellFormed(b) && b.edges[..b.count] == g.table && b.length == g.length
  }

  /** The statics that the interrupt handler works on. */
  datatype Player = Player(bufs: seq<Buffer>, active: nat, pending: bool, idx: nat)

  predicate Playable(p: Player) {
    && |p.bufs| == 2 && p.active < 2
    && WellFormed(p.bufs[0]) && WellFormed(p.bufs[1])
    && p.idx < p.bufs[p.active].count
  }

  function Current(p: Player): Buffer
    requires Playable(p)
  {
    p.bufs[p.active]
  }

  /** The edge the handler applies next. */
  function NextEdge(p: Player): Edge
    requires Playable(p)
  {
    Current(p).edges[p.idx]
  }

  predicate AtWrap(p: Player)
    requires Playable(p)
  {
    p.idx + 1 >= Current(p).count
  }

  /** One pass of the handler's loop: advance, and at the wrap take a staged schedule. */
  function EdgeStep(p: Player): (q: Player)
    requires Playable(p)
    ensures Playable(q)
  {
    if !AtWrap(p) then p.(idx := p.idx + 1)
    else if p.pending then p.(idx := 0, active := 1 - p.active, pending := false)
    else p.(idx := 0)
  }

  /** Where the edge after the next one lies, counted from the start of the current cycle. */
  function FollowingOffset(p: Player): nat
    requires Playable(p)
  {
    if AtWrap(p) then Current(p).length else Current(p).edges[p.idx + 1].offset
  }

  // ---- the interleaved system ---------------------------------------------------

  /** Where the producer is inside publish_reqs. */
  datatype Producer =
    | Idle
    | Writing(target: nat, goal: Program, k: nat)  // k entries written
    | CountWritten(target: nat, goal: Program)
    | LengthWritten(target: nat, goal: Program)    // pwm_compile has returned
    | Remembered(target: nat, goal: Program)       // s_last_reqs holds the requests

  /**
   `published` lists the programs made available to the player, `cycles` which of
   them each finished cycle played, `now` the one in play, `trace` every applied edge.
  */
  datatype State = State(player: Player, producer: Producer, last: seq<ChanReq>,
                         published: seq<Program>, cycles: seq<nat>, now: nat, trace: seq<Edge>)

  datatype Action =
    | Isr                       // the handler applies one edge
    | Begin(goal: Program)      // publish_reqs is called with requests that differ from the last ones
    | Continue                  // the producer takes its next step

  predicate Enabled(s: State, a: Action) {
    && Playable(s.player)
    && match a
       case Isr => true
       case Begin(goal) => s.producer.Idle? && Fits(goal) && goal.reqs != s.last
       case Continue =>
         && !s.producer.Idle? && s.producer.target < 2 && Fits(s.producer.goal)
         && (s.producer.Writing? ==> s.producer.k <= |s.producer.goal.table|)
  }

  /** The source's unwritten rule: a compile only begins while no schedule is staged. */
  predicate Disciplined(s: State, a: Action) {
    a.Begin? ==> !s.player.pending
  }

  function WriteBuffer(p: Player, i: nat, b: Buffer): Player
    requires |p.bufs| == 2 && i < 2
  {
    p.(bufs := p.bufs[i := b])
  }

  function ProducerStep(s: State): State
    requires Enabled(s, Continue)
  {
    var t, g := s.producer.target, s.producer.goal;
    var b := s.player.bufs[t];
    match s.producer
    case Writing(_, _, k) =>
      if k < |g.table| then
        s.(player := WriteBuffer(s.player, t, b.(edges := b.edges[k := g.table[k]])), producer := Writing(t, g, k + 1))
      else
        s.(player := WriteBuffer(s.player, t, b.(count := |g.table|)), producer := CountWritten(t, g))
    case CountWritten(_, _) =>
      s.(player := WriteBuffer(s.player, t, b.(length := g.length)), producer := LengthWritten(t, g))
    case LengthWritten(_, _) =>
      s.(last := g.reqs, producer := Remembered(t, g))
    case Remembered(_, _) =>
      s.(player := s.player.(pending := true), producer := Idle, published := s.published + [g])
  }

  function IsrStep(s: State): State
    requires Enabled(s, Isr)
  {
    var p := s.player;
    s.(player := EdgeStep(p),
       trace := s.trace + [NextEdge(p)],
       cycles := if AtWrap(p) then s.cycles + [s.now] else s.cycles,
       now := if AtWrap(p) && p.pending then s.now + 1 else s.now)
  }

  function Next(s: State, a: Action): State
    requires Enabled(s, a)
  {
    match a
    case Isr => IsrStep(s)
    case Begin(goal) => s.(producer := Writing(1 - s.player.active, goal, 0))
    case Continue => ProducerStep(s)
  }

  /** engine_first_arm: the entry for t = 0 is applied before the timer is armed. */
  predicate Initial(s: State) {
    && Playable(s.player) && s.player.active == 0 && !s.player.pending
    && s.producer.Idle? && s.now == 0
    && |s.published| == 1 && s.published[0].reqs == s.last && Holds(s.player.bufs[0], s.published[0])
    && s.trace == [s.player.bufs[0].edges[0]]
    && (if s.player.bufs[0].count > 1 then s.player.idx == 1 && s.cycles == []
        else s.player.idx == 0 && s.cycles == [0])
  }

  // ---- the invariant ---------------------------------------------------------------

  /** The edges of the finished cycles, one whole table after the other. */
  function WholeCycles(published: seq<Program>, cycles: seq<nat>): seq<Edge>
    requires forall k :: 0 <= k < |cycles| ==> cycles[k] < |published|
  {
    if |cycles| == 0 then []
    else WholeCycles(published, cycles[..|cycles| - 1]) + published[cycles[|cycles| - 1]].table
  }

  /** Cycles play the published programs in order, none skipped, each for one or more whole cycles. */
  predicate InOrder(cycles: seq<nat>, now: nat) {
    && (forall k :: 0 <= k < |cycles| - 1 ==> cycles[k] <= cycles[k + 1] <= cycles[k] + 1)
    && (|cycles| == 0 ==> now == 0)
    && (|cycles| > 0 ==> cycles[0] == 0 && cycles[|cycles| - 1] <= now <= cycles[|cycles| - 1] + 1)
  }

  predicate HistoryOk(s: State) {
    && InOrder(s.cycles, s.now) && s.now < |s.published|
    && (forall k :: 0 <= k < |s.cycles| ==> s.cycles[k] <= s.now)
    && s.player.idx <= |s.published[s.now].table|
    && s.trace == WholeCycles(s.published, s.cycles) + s.published[s.now].table[..s.player.idx]
  }

  /** What the producer has written so far, and that it never writes the active buffer. */
  predicate ProducerOk(s: State)
    requires Playable(s.player)
  {
    !s.producer.Idle? ==>
      && Fits(s.producer.goal) && !s.player.pending && s.producer.target == 1 - s.player.active
      && Progress(s.producer, s.player.bufs[s.producer.target])
  }

  predicate Progress(r: Producer, b: Buffer)
    requires WellFormed(b)
  {
    match r
    case Idle => true
    case Writing(_, g, k) => k <= |g.table| <= MAX_EDGES && b.edges[..k] == g.table[..k]
    case CountWritten(_, g) => b.edges[..b.count] == g.table
    case LengthWritten(_, g) => Holds(b, g)
    case Remembered(_, g) => Holds(b, g)
  }

  /** The program that is in play, or staged to be from the next wrap on. */
  function Latest(s: State): Program
    requires |s.published| > 0
  {
    s.published[|s.published| - 1]
  }

  predicate BuffersOk(s: State)
    requires Playable(s.player) && s.now < |s.published|
  {
    && Holds(Current(s.player), s.published[s.now])
    && (if s.player.pending
        then s.now + 2 == |s.published| && Holds(s.player.bufs[1 - s.player.active], Latest(s))
        else s.now + 1 == |s.published|)
    && s.last == if s.producer.Remembered? then s.producer.goal.reqs else Latest(s).reqs
  }

  predicate Inv(s: State) {
    Playable(s.player) && HistoryOk(s) && ProducerOk(s) && BuffersOk(s)
  }

  lemma InitialInv(s: State)
    requires Initial(s)
    ensures Inv(s) && |s.trace| == 1
  {
    var t := s.published[0].table;
    assert t == s.player.bufs[0].edges[..s.player.bufs[0].count];
    assert t[..1] == [t[0]];
    if |t| == 1 {
      CyclesAppend(s.published, [], 0);
      assert t == [t[0]];
    }
  }

  lemma CyclesAppend(published: seq<Program>, cycles: seq<nat>, c: nat)
    requires c < |published|
    requires forall k :: 0 <= k < |cycles| ==> cycles[k] < |published|
    ensures forall k :: 0 <= k < |cycles + [c]| ==> (cycles + [c])[k] < |published|
    ensures WholeCycles(published, cycles + [c]) == WholeCycles(published, cycles) + published[c].table
  {
    assert (cycles + [c])[..|cycles|] == cycles;
  }

  lemma {:induction false} CyclesUnderPublish(published: seq<Program>, g: Program, cycles: seq<nat>)
    requires forall k :: 0 <= k < |cycles| ==> cycles[k] < |published|
    ensures WholeCycles(published + [g], cycles) == WholeCycles(published, cycles)
    decreases |cycles|
  {
    if |cycles| > 0 {
      CyclesUnderPublish(published, g, cycles[..|cycles| - 1]);
    }
  }

  /** One more applied edge extends the partial cycle, or completes it. */
  lemma TraceExtends(published: seq<Program>, cycles: seq<nat>, now: nat, idx: nat)
    requires now < |published| && idx < |published[now].table|
    requires forall k :: 0 <= k < |cycles| ==> cycles[k] < |published|
    ensures var t := published[now].table;
      var trace := WholeCycles(published, cycles) + t[..idx] + [t[idx]];
      && trace == WholeCycles(published, cycles) + t[..idx + 1]
      && (forall k :: 0 <= k < |cycles + [now]| ==> (cycles + [now])[k] < |published|)
      && (idx + 1 == |t| ==> trace == WholeCycles(published, cycles + [now]))
  {
    var t := published[now].table;
    assert t[..idx + 1] == t[..idx] + [t[idx]];
    CyclesAppend(published, cycles, now);
    if idx + 1 == |t| {
      assert t[..idx + 1] == t;
    }
  }

  lemma PlayedEdge(s: State)
    requires Inv(s)
    ensures var t := s.published[s.now].table;
      && s.player.idx < |t| && NextEdge(s.player) == t[s.player.idx]
      && (AtWrap(s.player) <==> s.player.idx + 1 == |t|)
  {
    var b := Current(s.player);
    assert b.edges[..b.count][s.player.idx] == b.edges[s.player.idx];
  }

  /** An edge applied in mid-cycle or at a wrap keeps the trace a run of whole cycles. */
  lemma IsrKeepsHistory(s: State)
    requires Inv(s)
    ensures HistoryOk(IsrStep(s))
  {
    PlayedEdge(s);
    TraceExtends(s.published, s.cycles, s.now, s.player.idx);
  }

  /** At a wrap the staged table, if any, becomes the one in play. */
  lemma IsrKeepsBuffers(s: State)
    requires Inv(s)
    ensures Playable(IsrStep(s).player) && IsrStep(s).now < |s.published|
    ensures ProducerOk(IsrStep(s)) && BuffersOk(IsrStep(s))
  {
    hide Holds, Progress, Fits, NextEdge, HistoryOk;
  }

  lemma IsrKeepsInv(s: State)
    requires Inv(s)
    ensures Inv(IsrStep(s))
  {
    IsrKeepsHistory(s);
    IsrKeepsBuffers(s);
    hide HistoryOk, ProducerOk, BuffersOk, Playable, IsrStep;
  }

  lemma WriteKeepsInv(s: State)
    requires Inv(s) && Enabled(s, Continue) && s.producer.Writing?
    ensures Inv(ProducerStep(s))
  {
    var b := s.player.bufs[s.producer.target];
    var t, k := s.producer.goal.table, s.producer.k;
    if k < |t| {
      assert b.edges[k := t[k]][..k + 1] == t[..k + 1] by {
        assert b.edges[k := t[k]][..k] == b.edges[..k];
      }
    } else {
      assert t[..k] == t;
    }
  }

  lemma PublishKeepsInv(s: State)
    requires Inv(s) && Enabled(s, Continue) && s.producer.Remembered?
    ensures Inv(ProducerStep(s))
  {
    CyclesUnderPublish(s.published, s.producer.goal, s.cycles);
    assert ProducerStep(s).published[s.now] == s.published[s.now];
  }

  /** Every disciplined step of either side keeps the invariant. */
  lemma StepKeepsInv(s: State, a: Action)
    requires Inv(s) && Enabled(s, a) && Disciplined(s, a)
    ensures Inv(Next(s, a))
  {
    match a
    case Isr => IsrKeepsInv(s);
    case Begin(goal) =>
      assert s.player.bufs[1 - s.player.active].edges[..0] == goal.table[..0];
    case Continue =>
      match s.producer {
        case Writing(_, _, _) => WriteKeepsInv(s);
        case CountWritten(_, _) =>
        case LengthWritten(_, _) =>
        case Remembered(_, _) => PublishKeepsInv(s);
      }
  }

  // ---- whole runs --------------------------------------------------------------------

  /** The actions can be taken one after the other, and begin no compile while one is staged. */
  predicate Legal(s: State, acts: seq<Action>)
    decreases |acts|
  {
    |acts| > 0 ==> Enabled(s, acts[0]) && Disciplined(s, acts[0]) && Legal(Next(s, acts[0]), acts[1..])
  }

  function Run(s: State, acts: seq<Action>): State
    requires Legal(s, acts)
    decreases |acts|
  {
    if |acts| == 0 then s else Run(Next(s, acts[0]), acts[1..])
  }

  /**
   Whatever the interleaving, the player applies whole cycles of successively
   published programs, and the producer never writes the buffer in play.
  */
  lemma {:induction false} RunKeepsInv(s: State, acts: seq<Action>)
    requires Inv(s) && Legal(s, acts)
    ensures Inv(Run(s, acts))
    decreases |acts|
  {
    if |acts| > 0 {
      StepKeepsInv(s, acts[0]);
      RunKeepsInv(Next(s, acts[0]), acts[1..]);
    }
  }

  lemma PlaybackIsWholeCycles(s: State, acts: seq<Action>)
    requires Initial(s) && Legal(s, acts)
    ensures var e := Run(s, acts);
      && InOrder(e.cycles, e.now) && e.now < |e.published|
      && (forall k :: 0 <= k < |e.cycles| ==> e.cycles[k] < |e.published|)
      && e.player.idx <= |e.published[e.now].table|
      && e.trace == WholeCycles(e.published, e.cycles) + e.published[e.now].table[..e.player.idx]
      && |e.published| <= e.now + 2
  {
    InitialInv(s);
    RunKeepsInv(s, acts);
  }

  /** All programs that enter a run come from the compiler. */
  ghost predicate FromCompiler(acts: seq<Action>) {
    forall k :: 0 <= k < |acts| && acts[k].Begin? ==> Compiled(acts[k].goal)
  }

  ghost predicate AllCompiled(s: State) {
    && (forall k :: 0 <= k < |s.published| ==> Compiled(s.published[k]))
    && (!s.producer.Idle? ==> Compiled(s.producer.goal))
  }

  lemma {:induction false} RunStaysCompiled(s: State, acts: seq<Action>)
    requires AllCompiled(s) && Legal(s, acts) && FromCompiler(acts)
    ensures AllCompiled(Run(s, acts))
    decreases |acts|
  {
    if |acts| > 0 {
      var n := Next(s, acts[0]);
      assert acts[0].Begin? ==> Compiled(acts[0].goal);
      assert AllCompiled(n);
      assert forall k :: 0 <= k < |acts[1..]| ==> acts[1..][k] == acts[k + 1];
      RunStaysCompiled(n, acts[1..]);
    }
  }

  /** The buffer in play from the next wrap on. */
  function NextBuffer(p: Player): Buffer
    requires Playable(p)
  {
    p.bufs[if p.pending then 1 - p.active else p.active]
  }

  lemma IdleHoldsLast(s: State)
    requires Inv(s) && s.producer.Idle?
    ensures AllCompiled(s) ==>
              && Acceptable(s.last)
              && var b := NextBuffer(s.player);
                 b.edges[..b.count] == ScanTable(s.last) && b.length == Length(s.last)
  {
    hide ScanTable, Length, Acceptable, HistoryOk, ProducerOk;
    if AllCompiled(s) {
      assert Compiled(Latest(s));
    }
  }

  /**
   Skipping a request equal to the last one loses nothing: whenever the producer is
   idle, the buffer in play from the next wrap on holds what the last requests compile to.
  */
  lemma SkipLosesNothing(s: State, acts: seq<Action>)
    requires Initial(s) && AllCompiled(s) && Legal(s, acts) && FromCompiler(acts)
    requires Run(s, acts).producer.Idle?
    ensures var e := Run(s, acts);
      && Inv(e) && Acceptable(e.last)
      && var b := NextBuffer(e.player);
         b.edges[..b.count] == ScanTable(e.last) && b.length == Length(e.last)
  {
    hide *;
    InitialInv(s);
    RunKeepsInv(s, acts);
    RunStaysCompiled(s, acts);
    IdleHoldsLast(Run(s, acts));
  }

  // ---- publishing without interruption ----------------------------------------------------

  /** Only the idle buffer changed; it holds the program and is staged. */
  predicate Staged(p: Player, q: Player, g: Program)
    requires Playable(p) && Playable(q)
  {
    && q == p.(bufs := p.bufs[1 - p.active := q.bufs[1 - p.active]], pending := true)
    && Holds(q.bufs[1 - p.active], g)
  }

  function Continues(n: nat): (acts: seq<Action>)
    ensures |acts| == n && forall k :: 0 <= k < n ==> acts[k] == Continue
  {
    if n == 0 then [] else [Continue] + Continues(n - 1)
  }

  /** publish_reqs run through: entry by entry, count, length, the remembered requests, the flag. */
  function PublishActs(goal: Program): seq<Action> {
    [Begin(goal)] + Continues(|goal.table| + 4)
  }

  /** Steps the producer has left in publish_reqs. */
  function Remaining(r: Producer): nat
    requires r.Writing? ==> r.k <= |r.goal.table|
  {
    match r
    case Idle => 0
    case Writing(_, g, k) => |g.table| - k + 4
    case CountWritten(_, _) => 3
    case LengthWritten(_, _) => 2
    case Remembered(_, _) => 1
  }

  /** State e is s with g published: remembered, staged in the idle buffer, nothing else changed. */
  predicate PublishedIn(s: State, e: State, g: Program) {
    && Playable(s.player) && Playable(e.player) && Staged(s.player, e.player, g)
    && e == s.(player := e.player, producer := Idle, last := g.reqs, published := s.published + [g])
  }

  lemma ContinueThenPublished(s: State, e: State)
    requires Inv(s) && Enabled(s, Continue) && !s.producer.Remembered?
    requires PublishedIn(ProducerStep(s), e, s.producer.goal)
    ensures PublishedIn(s, e, s.producer.goal)
  {
    var p, q := s.player, ProducerStep(s).player;
    assert q == WriteBuffer(p, 1 - p.active, q.bufs[1 - p.active]);
  }

  /** The last step raises the flag. */
  lemma FlagPublishes(s: State)
    requires Inv(s) && s.producer.Remembered?
    ensures Legal(s, Continues(1)) && Run(s, Continues(1)) == ProducerStep(s)
    ensures PublishedIn(s, ProducerStep(s), s.producer.goal)
  {
    assert Continues(1)[1..] == [] && Run(ProducerStep(s), []) == ProducerStep(s);
  }

  lemma OneLeft(s: State)
    requires Inv(s) && !s.producer.Idle? && !s.producer.Remembered?
    ensures Enabled(s, Continue) && Remaining(s.producer) == Remaining(ProducerStep(s).producer) + 1
    ensures !ProducerStep(s).producer.Idle? && ProducerStep(s).producer.goal == s.producer.goal
  {
  }

  lemma {:induction false} FinishPublish(s: State)
    requires Inv(s) && !s.producer.Idle?
    ensures var acts := Continues(Remaining(s.producer));
      Legal(s, acts) && PublishedIn(s, Run(s, acts), s.producer.goal)
    decreases Remaining(s.producer)
  {
    if s.producer.Remembered? {
      FlagPublishes(s);
    } else {
      var m := ProducerStep(s);
      OneLeft(s);
      StepKeepsInv(s, Continue);
      hide Inv, ProducerStep, PublishedIn, Enabled, Remaining;
      FinishPublish(m);
      ContinueThenPublished(s, Run(m, Continues(Remaining(m.producer))));
      assert Continues(Remaining(s.producer))[1..] == Continues(Remaining(m.producer));
    }
  }

  /**
   A publish that no interrupt comes between does to the player what publish_reqs promises
   when read as straight-line code, and leaves the producer idle with the requests remembered.
  */
  lemma UninterruptedPublish(s: State, goal: Program)
    requires Inv(s) && Enabled(s, Begin(goal)) && Disciplined(s, Begin(goal))
    ensures Legal(s, PublishActs(goal))
    ensures Inv(Run(s, PublishActs(goal))) && PublishedIn(s, Run(s, PublishActs(goal)), goal)
  {
    StepKeepsInv(s, Begin(goal));
    FinishPublish(Next(s, Begin(goal)));
    assert PublishActs(goal)[1..] == Continues(|goal.table| + 4);
    RunKeepsInv(s, PublishActs(goal));
  }

  // ---- what the unwritten rule is worth -------------------------------------------------

  /** The producer is writing the very buffer that the handler plays. */
  predicate Torn(s: State) {
    !s.producer.Idle? && s.producer.target == s.player.active
  }

  predicate NoBegin(acts: seq<Action>) {
    forall k :: 0 <= k < |acts| ==> !acts[k].Begin?
  }

  /** No interleaving of the two sides from here on ever makes them share a buffer. */
  ghost predicate NeverTorn(s: State) {
    forall acts :: Legal(s, acts) && NoBegin(acts) ==> !Torn(Run(s, acts))
  }

  function Isrs(n: nat): (acts: seq<Action>)
    ensures |acts| == n && NoBegin(acts)
  {
    if n == 0 then [] else [Isr] + Isrs(n - 1)
  }

  /** With a schedule staged, playing to the wrap swaps onto the staged buffer. */
  lemma {:induction false} PlayToSwap(s: State, n: nat)
    requires Playable(s.player) && s.player.pending && n == Current(s.player).count - s.player.idx
    ensures Legal(s, Isrs(n))
    ensures var e := Run(s, Isrs(n));
      && e.player == s.player.(active := 1 - s.player.active, idx := 0, pending := false)
      && e.producer == s.producer && e.published == s.published && e.last == s.last
    decreases n
  {
    var m := IsrStep(s);
    assert Isrs(n)[1..] == Isrs(n - 1);
    if n == 1 {
      assert Legal(m, []);
    } else {
      PlayToSwap(m, n - 1);
    }
  }

  /**
   publish_reqs may start compiling exactly when no schedule is staged: then no
   interleaving tears the table, and otherwise some interleaving does.
  */
  lemma CompileSafeIffNothingStaged(s: State, goal: Program)
    requires Inv(s) && Enabled(s, Begin(goal))
    ensures NeverTorn(Next(s, Begin(goal))) <==> !s.player.pending
  {
    var b := Next(s, Begin(goal));
    if !s.player.pending {
      StepKeepsInv(s, Begin(goal));
      forall acts | Legal(b, acts) && NoBegin(acts)
        ensures !Torn(Run(b, acts))
      {
        RunKeepsInv(b, acts);
      }
    } else {
      var n := Current(b.player).count - b.player.idx;
      PlayToSwap(b, n);
      assert Torn(Run(b, Isrs(n)));
    }
  }

  lemma {:induction false} RunAppend(s: State, xs: seq<Action>, ys: seq<Action>)
    requires Legal(s, xs) && Legal(Run(s, xs), ys)
    ensures Legal(s, xs + ys) && Run(s, xs + ys) == Run(Run(s, xs), ys)
    decreases |xs|
  {
    hide Next, Enabled, Disciplined;
    if |xs| == 0 {
      assert xs + ys == ys;
    } else {
      assert (xs + ys)[1..] == xs[1..] + ys;
      RunAppend(Next(s, xs[0]), xs[1..], ys);
    }
  }

  /** Player phase of a tear: once played to the wrap, the table in play is the one the producer is about to overwrite. */
  lemma SwapUnderWriter(s: State, goal: Program) returns (e: State, n: nat)
    requires Inv(s) && Enabled(s, Begin(goal)) && s.player.pending
    ensures Legal(Next(s, Begin(goal)), Isrs(n)) && e == Run(Next(s, Begin(goal)), Isrs(n))
    ensures Playable(e.player) && e.player.idx == 0 && Holds(Current(e.player), Latest(s))
    ensures e.producer == Writing(e.player.active, goal, 0)
  {
    var b := Next(s, Begin(goal));
    n := Current(b.player).count - b.player.idx;
    PlayToSwap(b, n);
    e := Run(b, Isrs(n));
  }

  lemma HeldEntry(b: Buffer, g: Program, k: nat)
    requires Holds(b, g) && k < |g.table|
    ensures b.count == |g.table| && b.edges[k] == g.table[k]
  {
    assert b.edges[..b.count][k] == b.edges[k];
  }

  lemma NoBeginAppend(xs: seq<Action>, ys: seq<Action>)
    requires NoBegin(xs) && NoBegin(ys)
    ensures NoBegin(xs + ys)
  {
  }

  /**
   A torn cycle: a compile begun while a schedule is staged can make the player
   follow the first entry of the new table with the second of the staged one.
  */
  lemma TornCycle(s: State, goal: Program) returns (acts: seq<Action>)
    requires Inv(s) && Enabled(s, Begin(goal)) && s.player.pending && |Latest(s).table| > 1
    ensures Legal(Next(s, Begin(goal)), acts) && NoBegin(acts)
    ensures var trace := Run(Next(s, Begin(goal)), acts).trace;
      |trace| >= 2 && trace[|trace| - 2..] == [goal.table[0], Latest(s).table[1]]
  {
    var b, tear := Next(s, Begin(goal)), [Continue, Isr, Isr];
    var e, n := SwapUnderWriter(s, goal);
    assert Fits(goal) && NoBegin(tear);
    hide *;
    HeldEntry(Current(e.player), Latest(s), 1);
    OverwriteThenPlay(e, goal);
    assert (e.trace + [goal.table[0], Latest(s).table[1]])[|e.trace|..] == [goal.table[0], Latest(s).table[1]];
    RunAppend(b, Isrs(n), tear);
    NoBeginAppend(Isrs(n), tear);
    acts := Isrs(n) + tear;
  }

  lemma StepThen(s: State, a: Action, rest: seq<Action>)
    requires Enabled(s, a) && Disciplined(s, a) && Legal(Next(s, a), rest)
    ensures Legal(s, [a] + rest) && Run(s, [a] + rest) == Run(Next(s, a), rest)
  {
    assert ([a] + rest)[1..] == rest;
  }

  lemma ThreeSteps(s: State, a: Action, b: Action, c: Action)
    requires Enabled(s, a) && Disciplined(s, a)
    requires Enabled(Next(s, a), b) && Disciplined(Next(s, a), b)
    requires Enabled(Next(Next(s, a), b), c) && Disciplined(Next(Next(s, a), b), c)
    ensures Legal(s, [a, b, c]) && Run(s, [a, b, c]) == Next(Next(Next(s, a), b), c)
  {
    hide Next, Enabled, Disciplined;
    var t := Next(s, a);
    var u := Next(t, b);
    assert Legal(Next(u, c), []) && Run(Next(u, c), []) == Next(u, c);
    StepThen(u, c, []);
    StepThen(t, b, [c]);
    StepThen(s, a, [b, c]);
    assert [c] + [] == [c] && [b] + [c] == [b, c] && [a] + [b, c] == [a, b, c];
  }

  /** Producer phase of a tear: the first entry of the table in play is overwritten. */
  lemma OverwriteFirst(e: State, goal: Program)
    requires Playable(e.player) && e.player.idx == 0 && Current(e.player).count > 1
    requires e.producer == Writing(e.player.active, goal, 0) && Fits(goal)
    ensures Enabled(e, Continue) && Disciplined(e, Continue)
    ensures var n := Next(e, Continue);
      && Playable(n.player) && n.trace == e.trace && n.player.idx == 0 && NextEdge(n.player) == goal.table[0]
      && !AtWrap(n.player) && Current(n.player).edges[1] == Current(e.player).edges[1]
  {
  }

  lemma PlayOne(e: State)
    requires Playable(e.player)
    ensures Enabled(e, Isr) && Disciplined(e, Isr) && Playable(Next(e, Isr).player)
    ensures Next(e, Isr).trace == e.trace + [NextEdge(e.player)]
    ensures !AtWrap(e.player) ==> NextEdge(Next(e, Isr).player) == Current(e.player).edges[e.player.idx + 1]
  {
  }

  lemma OverwriteThenPlay(e: State, goal: Program)
    requires Playable(e.player) && e.player.idx == 0 && Current(e.player).count > 1
    requires e.producer == Writing(e.player.active, goal, 0) && Fits(goal)
    ensures Legal(e, [Continue, Isr, Isr])
    ensures Run(e, [Continue, Isr, Isr]).trace == e.trace + [goal.table[0], Current(e.player).edges[1]]
  {
    hide *;
    OverwriteFirst(e, goal);
    var e1 := Next(e, Continue);
    PlayOne(e1);
    PlayOne(Next(e1, Isr));
    ThreeSteps(e, Continue, Isr, Isr);
  }
}
