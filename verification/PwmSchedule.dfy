/**
 The schedule compiler: collects the level changes of every channel, sorts them
 by offset and merges them into an edge table. Its result is the table of the
 tick-by-tick scan in Waveform, whatever order the sort gives equal offsets.
*/
module PwmSchedule {
  import opened Numeric
  import opened Waveform

  /** At `offset`, channel `chan` takes level `level`. */
  datatype Toggle = Toggle(offset: nat, chan: nat, level: bool)

  /** The compiled table: entries 0..count of `edges`, repeating every `length` ticks. */
  class Schedule {
    const edges: array<Edge>
    var count: nat
    var length: nat

    ghost predicate Valid()
      reads this, edges
    {
      edges.Length == MAX_EDGES && 1 <= count <= MAX_EDGES
    }

    ghost function Table(): seq<Edge>
      requires Valid()
      reads this, edges
    {
      edges[..count]
    }

    constructor ()
      ensures Valid() && fresh(edges) && Table() == [Edge(0, {})] && length == Pow2(DEFAULT_PERIOD_LOG2)
    {
      edges := new Edge[MAX_EDGES](_ => Edge(0, {}));
      count := 1;
      length := Pow2(DEFAULT_PERIOD_LOG2);
    }
  }

  // ---- where the wave changes ------------------------------------------------

  /** Neither constantly low nor constantly high. */
  predicate Edgy(r: ChanReq) {
    0 < OnTicks(r) < Block(r)
  }

  /** The position inside a block at which a channel takes the given level. */
  function TogglePos(r: ChanReq, level: bool): (p: nat)
    requires 0.0 <= r.phase < 1.0
    ensures p < Block(r)
  {
    if level then OnTime(r) else FallPos(r)
  }

  /** The level changes of the wave strictly inside a schedule of length len. */
  predicate IsToggle(reqs: seq<ChanReq>, len: nat, tg: Toggle)
    requires Acceptable(reqs)
  {
    && tg.chan < |reqs| && Edgy(reqs[tg.chan]) && 0 < tg.offset < len
    && tg.offset % Block(reqs[tg.chan]) == TogglePos(reqs[tg.chan], tg.level)
  }

  lemma HighStep(r: ChanReq, t: int)
    requires 0.0 <= r.phase < 1.0 && Edgy(r)
    ensures t % Block(r) == OnTime(r) ==> High(r, t) && !High(r, t - 1)
    ensures t % Block(r) == FallPos(r) ==> !High(r, t) && High(r, t - 1)
    ensures t % Block(r) != OnTime(r) && t % Block(r) != FallPos(r) ==> (High(r, t) <==> High(r, t - 1))
  {
    var b, on, ticks := Block(r), OnTime(r), OnTicks(r);
    ModSucc(t - 1 - on, b);
    assert t - 1 - on + 1 == t - on;
    ModDifference(t, on, 0, b);
    DivModUnique(on, 0, on, b);
    ModDifference(t, on, ticks, b);
  }

  lemma HighConstant(r: ChanReq, t: int, u: int)
    requires 0.0 <= r.phase < 1.0 && !Edgy(r)
    ensures High(r, t) <==> High(r, u)
  {
  }

  /** Bit c changes at tick t exactly when a toggle of channel c sits there, to its level. */
  lemma WaveStep(reqs: seq<ChanReq>, len: nat, t: nat, c: nat)
    requires Acceptable(reqs) && 0 < t < len
    ensures forall v :: IsToggle(reqs, len, Toggle(t, c, v)) ==>
              (c in Wave(reqs, t) <==> v) && (c in Wave(reqs, t - 1) <==> !v)
    ensures (forall v :: !IsToggle(reqs, len, Toggle(t, c, v))) ==>
              (c in Wave(reqs, t) <==> c in Wave(reqs, t - 1))
  {
    if c < |reqs| {
      if Edgy(reqs[c]) {
        HighStep(reqs[c], t);
        assert !IsToggle(reqs, len, Toggle(t, c, true)) ==> t % Block(reqs[c]) != OnTime(reqs[c]);
        assert !IsToggle(reqs, len, Toggle(t, c, false)) ==> t % Block(reqs[c]) != FallPos(reqs[c]);
      } else {
        HighConstant(reqs[c], t, t - 1);
      }
    }
  }

  /** A channel never has two toggles at one offset. */
  lemma OneTogglePerOffset(reqs: seq<ChanReq>, len: nat, a: Toggle, b: Toggle)
    requires Acceptable(reqs) && IsToggle(reqs, len, a) && IsToggle(reqs, len, b)
    requires a.chan == b.chan && a.offset == b.offset
    ensures a == b
  {
    WaveStep(reqs, len, a.offset, a.chan);
    assert IsToggle(reqs, len, Toggle(a.offset, a.chan, a.level));
    assert IsToggle(reqs, len, Toggle(a.offset, a.chan, b.level));
  }

  /** The offsets at which some channel toggles. */
  ghost predicate ToggleAt(reqs: seq<ChanReq>, len: nat, t: nat)
    requires Acceptable(reqs)
  {
    exists c: nat, v :: IsToggle(reqs, len, Toggle(t, c, v))
  }

  /** The scan writes an entry exactly at the toggle offsets. */
  lemma ScanAtToggle(reqs: seq<ChanReq>, len: nat, t: nat)
    requires Acceptable(reqs) && 0 < t < len
    ensures ToggleAt(reqs, len, t) <==> Wave(reqs, t) != Wave(reqs, t - 1)
    ensures Scan(reqs, t) == if ToggleAt(reqs, len, t) then Scan(reqs, t - 1) + [Edge(t, Wave(reqs, t))] else Scan(reqs, t - 1)
  {
    if c: nat, v :| IsToggle(reqs, len, Toggle(t, c, v)) {
      WaveStep(reqs, len, t, c);
      assert c in Wave(reqs, t) <==> c !in Wave(reqs, t - 1);
    } else {
      forall c: nat
        ensures c in Wave(reqs, t) <==> c in Wave(reqs, t - 1)
      {
        WaveStep(reqs, len, t, c);
      }
      assert Wave(reqs, t) == Wave(reqs, t - 1);
    }
  }

  /** Nothing is written over a stretch without toggles. */
  lemma {:induction false} ScanQuiet(reqs: seq<ChanReq>, len: nat, lo: nat, hi: nat)
    requires Acceptable(reqs) && lo <= hi < len
    requires forall t: nat :: lo < t <= hi ==> !ToggleAt(reqs, len, t)
    ensures Scan(reqs, hi) == Scan(reqs, lo) && Wave(reqs, hi) == Wave(reqs, lo)
    decreases hi - lo
  {
    if lo < hi {
      ScanQuiet(reqs, len, lo, hi - 1);
      ScanAtToggle(reqs, len, hi);
    }
  }

  // ---- step 1: the longest active block --------------------------------------

  method FindLongest(reqs: seq<ChanReq>) returns (any: bool, nmax: nat)
    ensures any <==> AnyActive(reqs)
    ensures nmax == LongestLog2(reqs, |reqs|)
  {
    nmax, any := 0, false;
    for i := 0 to |reqs|
      invariant any <==> exists j :: 0 <= j < i && Active(reqs[j])
      invariant nmax == LongestLog2(reqs, i)
    {
      if reqs[i].duty > 0.0 {
        any := true;
        if reqs[i].log2 > nmax {
          nmax := reqs[i].log2;
        }
      }
    }
  }

  // ---- step 2: the raw toggle list -------------------------------------------

  /** The list holds the toggles of channels below i, in any order. */
  ghost predicate Collected(reqs: seq<ChanReq>, len: nat, i: nat, list: seq<Toggle>)
    requires Acceptable(reqs)
  {
    forall tg :: tg in list <==> IsToggle(reqs, len, tg) && tg.chan < i
  }

  /** Toggles of channel i that lie in its first k blocks. */
  predicate InBlocks(reqs: seq<ChanReq>, len: nat, i: nat, k: nat, tg: Toggle)
    requires Acceptable(reqs) && i < |reqs|
  {
    IsToggle(reqs, len, tg) && tg.chan == i && tg.offset < k * Block(reqs[i])
  }

  ghost predicate CollectedBlocks(reqs: seq<ChanReq>, len: nat, i: nat, k: nat, list: seq<Toggle>)
    requires Acceptable(reqs) && i < |reqs|
  {
    forall tg :: tg in list <==> (IsToggle(reqs, len, tg) && tg.chan < i) || InBlocks(reqs, len, i, k, tg)
  }

  /** A schedule of length len is a whole number of blocks, k one of them. */
  predicate HasBlock(len: nat, block: nat, k: nat)
    requires block > 0
  {
    len % block == 0 && k < len / block
  }

  lemma BaseIsNat(k: nat, b: nat)
    ensures k * b >= 0
  {
  }

  function BlockStart(k: nat, b: nat): nat {
    BaseIsNat(k, b);
    k * b
  }

  lemma BlockThere(len: nat, block: nat, k: nat)
    requires block > 0 && len % block == 0 && k < len / block
    ensures HasBlock(len, block, k)
  {
  }

  /** The offsets congruent to p below (k + 1) * b are those below k * b, and k * b + p. */
  lemma BlockOffsets(b: nat, p: nat, len: nat, k: nat, off: nat)
    requires b > 0 && p < b && HasBlock(len, b, k)
    ensures 0 < off < len && off % b == p && off < (k + 1) * b <==>
            (0 < off < len && off % b == p && off < k * b) || (off == k * b + p && off != 0)
  {
    assert (k + 1) * b == k * b + b;
    DivModExact(len, b);
    MultipleAtLeast(len / b - k, b);
    assert (len / b - k) * b == (len / b) * b - k * b;
    DivModUnique(k * b + p, k, p, b);
    if k * b <= off < k * b + b {
      DivModUnique(off, k, off - k * b, b);
    }
  }

  /** Block k of channel i holds exactly the rise and the fall at its two positions. */
  lemma BlockToggles(reqs: seq<ChanReq>, len: nat, i: nat, k: nat, tg: Toggle)
    requires Acceptable(reqs) && i < |reqs| && Edgy(reqs[i])
    requires HasBlock(len, Block(reqs[i]), k)
    ensures InBlocks(reqs, len, i, k + 1, tg) <==>
              InBlocks(reqs, len, i, k, tg)
              || (tg == Toggle(BlockStart(k, Block(reqs[i])) + TogglePos(reqs[i], tg.level), i, tg.level) && tg.offset != 0)
  {
    BlockOffsets(Block(reqs[i]), TogglePos(reqs[i], tg.level), len, k, tg.offset);
  }

  /** One pass of the per-channel loop: appends the toggles of an edgy channel i. */
  method AppendChannel(reqs: seq<ChanReq>, len: nat, i: nat, toggles: array<Toggle>, nt0: nat)
    returns (ok: bool, nt: nat)
    requires Acceptable(reqs) && i < |reqs| && Edgy(reqs[i])
    requires len % Block(reqs[i]) == 0
    requires toggles.Length == MAX_EDGES && nt0 <= MAX_EDGES
    requires Collected(reqs, len, i, toggles[..nt0])
    modifies toggles
    ensures nt0 + 2 * (len / Block(reqs[i])) <= MAX_EDGES ==> ok
    ensures ok ==> nt <= MAX_EDGES && nt <= nt0 + 2 * (len / Block(reqs[i]))
    ensures ok ==> Collected(reqs, len, i + 1, toggles[..nt])
  {
    assert CollectedBlocks(reqs, len, i, 0, toggles[..nt0]);
    hide Collected, CollectedBlocks, Block, OnTime, FallPos, Edgy, Acceptable, HasBlock;
    var block := Block(reqs[i]);
    var reps := len / block;
    nt := nt0;
    var k := 0;
    while k < reps
      invariant 0 <= k <= reps && nt <= MAX_EDGES && nt <= nt0 + 2 * k
      invariant CollectedBlocks(reqs, len, i, k, toggles[..nt])
    {
      BlockThere(len, block, k);
      ok, nt := AppendBlock(reqs, len, i, k, toggles, nt);
      if !ok { return; }
      k := k + 1;
    }
    AllBlocks(reqs, len, i, toggles[..nt]);
    ok := true;
  }

  /** Block k of channel i: its rise and its fall. */
  method AppendBlock(reqs: seq<ChanReq>, ghost len: nat, i: nat, k: nat, toggles: array<Toggle>, nt0: nat)
    returns (ok: bool, nt: nat)
    requires Acceptable(reqs) && i < |reqs| && Edgy(reqs[i])
    requires HasBlock(len, Block(reqs[i]), k)
    requires toggles.Length == MAX_EDGES && nt0 <= MAX_EDGES
    requires CollectedBlocks(reqs, len, i, k, toggles[..nt0])
    modifies toggles
    ensures nt0 + 2 <= MAX_EDGES ==> ok
    ensures ok ==> nt <= MAX_EDGES && nt <= nt0 + 2
    ensures ok ==> CollectedBlocks(reqs, len, i, k + 1, toggles[..nt])
  {
    ghost var before := toggles[..nt0];
    var base := BlockStart(k, Block(reqs[i]));
    var rise, fall := base + OnTime(reqs[i]), base + FallPos(reqs[i]);
    hide Collected, CollectedBlocks, Pair, Block, BlockStart, OnTime, FallPos, Edgy, HasBlock;
    AtMostTwo(i, rise, fall);
    ok, nt := AppendPair(i, rise, fall, toggles, nt0);
    if ok {
      BlockAppended(reqs, len, i, k, before, rise, fall);
    }
  }

  /** The toggles of one block; offset 0 is left out, the state at t = 0 covers it. */
  function Pair(i: nat, rise: nat, fall: nat): seq<Toggle> {
    (if rise != 0 then [Toggle(rise, i, true)] else []) + (if fall != 0 then [Toggle(fall, i, false)] else [])
  }

  lemma AtMostTwo(i: nat, rise: nat, fall: nat)
    ensures |Pair(i, rise, fall)| <= 2
  {
  }

  method AppendPair(i: nat, rise: nat, fall: nat, toggles: array<Toggle>, nt0: nat) returns (ok: bool, nt: nat)
    requires toggles.Length == MAX_EDGES && nt0 <= MAX_EDGES
    modifies toggles
    ensures ok <==> nt0 + |Pair(i, rise, fall)| <= MAX_EDGES
    ensures ok ==> nt == nt0 + |Pair(i, rise, fall)| && toggles[..nt] == old(toggles[..nt0]) + Pair(i, rise, fall)
  {
    ok, nt := true, nt0;
    if rise != 0 {
      if nt >= MAX_EDGES { return false, nt; }
      toggles[nt] := Toggle(rise, i, true);
      nt := nt + 1;
    }
    if fall != 0 {
      if nt >= MAX_EDGES { return false, nt; }
      toggles[nt] := Toggle(fall, i, false);
      nt := nt + 1;
    }
  }

  lemma BlockAppended(reqs: seq<ChanReq>, len: nat, i: nat, k: nat, before: seq<Toggle>, rise: nat, fall: nat)
    requires Acceptable(reqs) && i < |reqs| && Edgy(reqs[i])
    requires HasBlock(len, Block(reqs[i]), k)
    requires CollectedBlocks(reqs, len, i, k, before)
    requires rise == BlockStart(k, Block(reqs[i])) + OnTime(reqs[i])
    requires fall == BlockStart(k, Block(reqs[i])) + FallPos(reqs[i])
    ensures CollectedBlocks(reqs, len, i, k + 1, before + Pair(i, rise, fall))
  {
    forall tg
      ensures tg in before + Pair(i, rise, fall) <==>
                (IsToggle(reqs, len, tg) && tg.chan < i) || InBlocks(reqs, len, i, k + 1, tg)
    {
      BlockToggles(reqs, len, i, k, tg);
    }
  }

  lemma AllBlocks(reqs: seq<ChanReq>, len: nat, i: nat, list: seq<Toggle>)
    requires Acceptable(reqs) && i < |reqs| && len % Block(reqs[i]) == 0
    requires CollectedBlocks(reqs, len, i, len / Block(reqs[i]), list)
    ensures Collected(reqs, len, i + 1, list)
  {
    DivModExact(len, Block(reqs[i]));
  }

  /** How often a block repeats in a schedule of length 2^nmax. */
  lemma Repeats(r: ChanReq, nmax: nat)
    requires r.log2 <= nmax
    ensures Pow2(nmax) % Block(r) == 0 && Pow2(nmax) / Block(r) == Pow2(nmax - r.log2)
  {
    Pow2Add(nmax - r.log2, r.log2);
    DivModUnique(Pow2(nmax), Pow2(nmax - r.log2), 0, Block(r));
  }

  lemma RepeatsIfActive(r: ChanReq, nmax: nat)
    requires Active(r) ==> r.log2 <= nmax
    ensures Active(r) ==> Pow2(nmax) % Block(r) == 0
  {
    if Active(r) {
      Repeats(r, nmax);
    }
  }

  lemma InactiveIsOff(r: ChanReq)
    requires !Active(r)
    ensures OnTicks(r) == 0
  {
    assert Clamp01(r.duty) * Block(r) as real == 0.0;
  }

  /** Room for the toggles of the first i channels when channel m has the longest block. */
  function ToggleRoom(i: nat, m: nat): int {
    128 * i - if m < i then 126 else 0
  }

  /** In the configured range no block repeats more than 64 times, and the longest only once. */
  lemma RepeatBound(reqs: seq<ChanReq>, i: nat, m: nat, nmax: nat)
    requires i < |reqs| && m < |reqs| && Active(reqs[m])
    requires reqs[m].log2 == nmax && (Active(reqs[i]) ==> reqs[i].log2 <= nmax)
    ensures InConfiguredRange(reqs) && Edgy(reqs[i]) ==>
              2 * (Pow2(nmax) / Block(reqs[i])) <= ToggleRoom(i + 1, m) - ToggleRoom(i, m)
  {
    if InConfiguredRange(reqs) && Edgy(reqs[i]) {
      if !Active(reqs[i]) {
        InactiveIsOff(reqs[i]);
      }
      Repeats(reqs[i], nmax);
      Pow2Monotone(nmax - reqs[i].log2, 6);
      assert Pow2(6) == 64 by {
        assert Pow2(3) == 8;
      }
    }
  }

  lemma LevelAtZero(r: ChanReq)
    requires 0.0 <= r.phase < 1.0
    ensures OnTicks(r) == Block(r) ==> High(r, 0)
    ensures OnTicks(r) == 0 ==> !High(r, 0)
    ensures High(r, 0) <==> (Block(r) - OnTime(r)) % Block(r) < OnTicks(r)
  {
    ModShift(0 - OnTime(r), 1, Block(r));
  }

  lemma NoTogglesOfConstant(reqs: seq<ChanReq>, len: nat, i: nat, list: seq<Toggle>)
    requires Acceptable(reqs) && i < |reqs| && !Edgy(reqs[i]) && Collected(reqs, len, i, list)
    ensures Collected(reqs, len, i + 1, list)
  {
  }

  /** One channel: its level at t = 0 and its toggles. */
  method CollectChannel(reqs: seq<ChanReq>, len: nat, i: nat, initial: set<nat>, toggles: array<Toggle>, nt: nat)
    returns (ok: bool, initial2: set<nat>, nt2: nat)
    requires Acceptable(reqs) && i < |reqs|
    requires Active(reqs[i]) ==> len % Block(reqs[i]) == 0
    requires toggles.Length == MAX_EDGES && nt <= MAX_EDGES
    requires Collected(reqs, len, i, toggles[..nt])
    modifies toggles
    ensures initial2 == if High(reqs[i], 0) then initial + {i} else initial
    ensures !ok ==> Edgy(reqs[i]) && nt + 2 * (len / Block(reqs[i])) > MAX_EDGES
    ensures ok ==> nt2 <= MAX_EDGES && Collected(reqs, len, i + 1, toggles[..nt2])
    ensures ok ==> nt2 <= nt + if Edgy(reqs[i]) then 2 * (len / Block(reqs[i])) else 0
  {
    ok, initial2, nt2 := true, initial, nt;
    var r := reqs[i];
    var d := Clamp01(r.duty);
    LevelAtZero(r);
    if d <= 0.0 {
      InactiveIsOff(r);
      NoTogglesOfConstant(reqs, len, i, toggles[..nt]);
      return;
    }
    var block := Block(r);
    var onTicks := OnTicks(r);
    if onTicks >= block {
      initial2 := initial + {i};
      NoTogglesOfConstant(reqs, len, i, toggles[..nt]);
      return;
    }
    if onTicks == 0 {
      NoTogglesOfConstant(reqs, len, i, toggles[..nt]);
      return;
    }
    var onTime := OnTime(r);
    var phaseAtZero := (block - onTime) % block;
    if phaseAtZero < onTicks {
      initial2 := initial + {i};
    }
    ok, nt2 := AppendChannel(reqs, len, i, toggles, nt);
  }

  ghost predicate LevelsAtZero(reqs: seq<ChanReq>, i: nat, initial: set<nat>)
    requires Acceptable(reqs) && i <= |reqs|
  {
    initial == set c | 0 <= c < i && High(reqs[c], 0)
  }

  lemma LevelsAtZeroNext(reqs: seq<ChanReq>, i: nat, initial: set<nat>)
    requires Acceptable(reqs) && i < |reqs| && LevelsAtZero(reqs, i, initial)
    ensures LevelsAtZero(reqs, i + 1, if High(reqs[i], 0) then initial + {i} else initial)
  {
  }

  /** Levels at t = 0 and all toggles, channel by channel. */
  method CollectToggles(reqs: seq<ChanReq>, nmax: nat, toggles: array<Toggle>, ghost m: nat)
    returns (ok: bool, initial: set<nat>, nt: nat)
    requires Acceptable(reqs) && m < |reqs| && Active(reqs[m]) && reqs[m].log2 == nmax
    requires forall i :: 0 <= i < |reqs| && Active(reqs[i]) ==> reqs[i].log2 <= nmax
    requires toggles.Length == MAX_EDGES
    modifies toggles
    ensures InConfiguredRange(reqs) ==> ok && nt < MAX_EDGES - 4
    ensures ok ==> nt <= MAX_EDGES && initial == Wave(reqs, 0)
    ensures ok ==> Collected(reqs, Pow2(nmax), |reqs|, toggles[..nt])
  {
    var len := Pow2(nmax);
    initial, nt := {}, 0;
    var i := 0;
    while i < |reqs|
      invariant 0 <= i <= |reqs| && nt <= MAX_EDGES
      invariant LevelsAtZero(reqs, i, initial)
      invariant Collected(reqs, len, i, toggles[..nt])
      invariant InConfiguredRange(reqs) ==> nt <= ToggleRoom(i, m)
    {
      RepeatsIfActive(reqs[i], nmax);
      RepeatBound(reqs, i, m, nmax);
      LevelsAtZeroNext(reqs, i, initial);
      ok, initial, nt := CollectChannel(reqs, len, i, initial, toggles, nt);
      if !ok { return; }
      i := i + 1;
    }
    ok := true;
  }

  // ---- step 3: sort by offset alone -------------------------------------------

  predicate SortedByOffset(s: seq<Toggle>) {
    forall i, j :: 0 <= i < j < |s| ==> s[i].offset <= s[j].offset
  }

  method SwapNeighbours(a: array<Toggle>, j: nat)
    requires 0 < j < a.Length
    modifies a
    ensures a[..] == old(a[..])[j := old(a[j - 1])][j - 1 := old(a[j])]
    ensures multiset(a[..]) == multiset(old(a[..]))
  {
    a[j - 1], a[j] := a[j], a[j - 1];
  }

  /** All but element j are in order among the first i + 1, and j is where it belongs or further up. */
  predicate OutOfPlace(s: seq<Toggle>, i: nat, j: nat)
    requires j <= i < |s|
  {
    && (forall x, y :: 0 <= x < y <= i && x != j && y != j ==> s[x].offset <= s[y].offset)
    && (forall y :: j < y <= i ==> s[j].offset <= s[y].offset)
  }

  lemma MoveDown(s: seq<Toggle>, i: nat, j: nat)
    requires 0 < j <= i < |s| && OutOfPlace(s, i, j) && s[j - 1].offset > s[j].offset
    ensures OutOfPlace(s[j := s[j - 1]][j - 1 := s[j]], i, j - 1)
  {
  }

  lemma InPlace(s: seq<Toggle>, i: nat, j: nat)
    requires j <= i < |s| && OutOfPlace(s, i, j) && (j > 0 ==> s[j - 1].offset <= s[j].offset)
    ensures SortedByOffset(s[..i + 1])
  {
    forall x, y | 0 <= x < y <= i
      ensures s[x].offset <= s[y].offset
    {
      if y == j && x < j - 1 {
        assert s[x].offset <= s[j - 1].offset;
      }
    }
  }

  lemma StartsInOrder(s: seq<Toggle>, i: nat)
    requires i < |s| && SortedByOffset(s[..i])
    ensures OutOfPlace(s, i, i)
  {
    assert forall x :: 0 <= x < i ==> s[..i][x] == s[x];
  }

  /** Moves element i down to its place among the sorted elements before it. */
  method Insert(a: array<Toggle>, i: nat)
    requires i < a.Length && SortedByOffset(a[..i])
    modifies a
    ensures SortedByOffset(a[..i + 1])
    ensures multiset(a[..]) == multiset(old(a[..]))
    ensures forall x :: i < x < a.Length ==> a[x] == old(a[x])
  {
    var j := i;
    assert a[..][..i] == a[..i];
    StartsInOrder(a[..], i);
    hide OutOfPlace, SortedByOffset;
    while j > 0 && a[j - 1].offset > a[j].offset
      invariant 0 <= j <= i
      invariant OutOfPlace(a[..], i, j)
      invariant multiset(a[..]) == multiset(old(a[..]))
      invariant forall x :: i < x < a.Length ==> a[x] == old(a[x])
    {
      MoveDown(a[..], i, j);
      SwapNeighbours(a, j);
      j := j - 1;
    }
    InPlace(a[..], i, j);
    assert a[..][..i + 1] == a[..i + 1];
  }

  lemma CancelMultiset<T>(x: multiset<T>, y: multiset<T>, z: multiset<T>)
    requires x + z == y + z
    ensures x == y
  {
    assert x == (x + z) - z && y == (y + z) - z;
  }

  /**
   Stands for qsort with toggle_cmp: sorts the first n toggles in place by offset,
   leaving open how toggles with equal offsets end up ordered.
  */
  method SortByOffset(a: array<Toggle>, n: nat)
    requires n <= a.Length
    modifies a
    ensures SortedByOffset(a[..n])
    ensures multiset(a[..n]) == multiset(old(a[..n]))
    ensures a[n..] == old(a[n..])
  {
    for i := 0 to n
      invariant SortedByOffset(a[..i])
      invariant multiset(a[..]) == multiset(old(a[..]))
      invariant a[n..] == old(a[n..])
    {
      Insert(a, i);
    }
    assert a[..] == a[..n] + a[n..];
    assert old(a[..]) == old(a[..n]) + old(a[n..]);
    CancelMultiset(multiset(a[..n]), multiset(old(a[..n])), multiset(a[n..]));
  }

  // ---- step 4: the edge table ---------------------------------------------------

  /** Everything the assembly loop relies on: the complete, sorted toggle list. */
  ghost predicate Sorted(reqs: seq<ChanReq>, len: nat, list: seq<Toggle>)
    requires Acceptable(reqs)
  {
    SortedByOffset(list) && Collected(reqs, len, |reqs|, list)
  }

  /** Toggles below j are applied, all at offsets up to `last`; the rest lie beyond it. */
  predicate SplitAt(list: seq<Toggle>, j: nat, last: nat) {
    && j <= |list|
    && (forall x :: 0 <= x < j ==> list[x].offset <= last)
    && (forall x :: j <= x < |list| ==> list[x].offset > last)
  }

  /** Between two consecutive toggle offsets nothing happens. */
  lemma NothingBetween(reqs: seq<ChanReq>, len: nat, list: seq<Toggle>, j: nat, last: nat, next: nat)
    requires Acceptable(reqs) && Sorted(reqs, len, list) && SplitAt(list, j, last)
    requires last < next <= len
    requires j < |list| ==> next <= list[j].offset
    ensures Scan(reqs, next - 1) == Scan(reqs, last) && Wave(reqs, next - 1) == Wave(reqs, last)
  {
    assert forall tg :: tg in list ==> tg.offset <= last || next <= tg.offset;
    forall t: nat, c: nat, v | last < t <= next - 1
      ensures !IsToggle(reqs, len, Toggle(t, c, v))
    {
      assert IsToggle(reqs, len, Toggle(t, c, v)) ==> Toggle(t, c, v) in list;
    }
    ScanQuiet(reqs, len, last, next - 1);
  }

  /** State after applying the toggles x with j0 <= x < j to state s0. */
  ghost predicate Applied(reqs: seq<ChanReq>, list: seq<Toggle>, off: nat, j0: nat, j: nat, s0: set<nat>, s: set<nat>)
    requires Acceptable(reqs) && j0 <= j <= |list|
  {
    forall c: nat :: c in s <==> if exists x :: j0 <= x < j && list[x].chan == c then c in Wave(reqs, off) else c in s0
  }

  lemma ApplyOne(reqs: seq<ChanReq>, len: nat, list: seq<Toggle>, off: nat, j0: nat, j: nat, s0: set<nat>, s: set<nat>)
    requires Acceptable(reqs) && Sorted(reqs, len, list)
    requires j0 <= j < |list| && list[j].offset == off && Applied(reqs, list, off, j0, j, s0, s)
    ensures Applied(reqs, list, off, j0, j + 1, s0, if list[j].level then s + {list[j].chan} else s - {list[j].chan})
  {
    var tg := list[j];
    assert tg in list && IsToggle(reqs, len, tg);
    WaveStep(reqs, len, off, tg.chan);
    assert IsToggle(reqs, len, Toggle(off, tg.chan, tg.level));
  }

  /** Once every toggle at an offset is applied, the state is the wave there, and it changed. */
  lemma OffsetDone(reqs: seq<ChanReq>, len: nat, list: seq<Toggle>, off: nat, j0: nat, j: nat, last: nat, s: set<nat>)
    requires Acceptable(reqs) && Sorted(reqs, len, list) && SplitAt(list, j0, last)
    requires j0 < j <= |list| && list[j0].offset == off && last < off < len
    requires SplitAt(list, j, off)
    ensures Wave(reqs, off - 1) == Wave(reqs, last) && Applied(reqs, list, off, j0, j, Wave(reqs, last), s) ==>
              && s == Wave(reqs, off) && Wave(reqs, off) != Wave(reqs, last)
              && Scan(reqs, off) == Scan(reqs, off - 1) + [Edge(off, s)]
  {
    if Wave(reqs, off - 1) == Wave(reqs, last) && Applied(reqs, list, off, j0, j, Wave(reqs, last), s) {
      forall c: nat
        ensures c in s <==> c in Wave(reqs, off)
      {
        if !exists x :: j0 <= x < j && list[x].chan == c {
          WaveStep(reqs, len, off, c);
          forall v
            ensures !IsToggle(reqs, len, Toggle(off, c, v))
          {
            assert forall x :: 0 <= x < |list| && list[x].offset == off ==> list[x].chan != c;
            assert IsToggle(reqs, len, Toggle(off, c, v)) ==> Toggle(off, c, v) in list;
          }
        }
      }
      assert s == Wave(reqs, off);
      var tg := list[j0];
      assert tg in list && IsToggle(reqs, len, Toggle(off, tg.chan, tg.level));
      ScanAtToggle(reqs, len, off);
    }
  }

  lemma SameElements(a: seq<Toggle>, b: seq<Toggle>)
    requires multiset(a) == multiset(b)
    ensures forall x :: x in a <==> x in b
  {
    forall x
      ensures x in a <==> x in b
    {
      assert x in a <==> x in multiset(a);
      assert x in b <==> x in multiset(b);
    }
  }

  /** Applies every toggle at the next offset; the inner loop of the assembly. */
  method ApplyOffset(reqs: seq<ChanReq>, ghost len: nat, toggles: array<Toggle>, nt: nat, j0: nat,
                     ghost last: nat, state0: set<nat>)
    returns (j: nat, state: set<nat>)
    requires Acceptable(reqs) && nt <= toggles.Length && j0 < nt
    requires Sorted(reqs, len, toggles[..nt]) && SplitAt(toggles[..nt], j0, last)
    requires state0 == Wave(reqs, last)
    ensures var off := toggles[j0].offset;
      && j0 < j <= nt && SplitAt(toggles[..nt], j, off) && last < off < len
      && state == Wave(reqs, off) && state != state0
      && Scan(reqs, off) == Scan(reqs, last) + [Edge(off, state)]
  {
    ghost var list := toggles[..nt];
    ghost var off := toggles[j0].offset;
    assert list[j0] in list && list[j0].offset == off;
    j, state := ApplyGroup(reqs, len, toggles, nt, j0, state0);
    GroupEnd(list, j0, j, off);
    NothingBetween(reqs, len, list, j0, last, off);
    OffsetDone(reqs, len, list, off, j0, j, last, state);
  }

  lemma GroupEnd(list: seq<Toggle>, j0: nat, j: nat, off: nat)
    requires SortedByOffset(list) && j0 < j <= |list|
    requires forall x :: j0 <= x < j ==> list[x].offset == off
    requires j < |list| ==> list[j].offset != off
    ensures SplitAt(list, j, off)
  {
    assert list[j0].offset == off;
    if j < |list| {
      assert list[j0].offset <= list[j].offset;
    }
  }

  method ApplyGroup(reqs: seq<ChanReq>, ghost len: nat, toggles: array<Toggle>, nt: nat, j0: nat, state0: set<nat>)
    returns (j: nat, state: set<nat>)
    requires Acceptable(reqs) && nt <= toggles.Length && j0 < nt
    requires Sorted(reqs, len, toggles[..nt])
    ensures j0 < j <= nt && (j < nt ==> toggles[j].offset != toggles[j0].offset)
    ensures forall x :: j0 <= x < j ==> toggles[..nt][x].offset == toggles[j0].offset
    ensures Applied(reqs, toggles[..nt], toggles[j0].offset, j0, j, state0, state)
  {
    ghost var list := toggles[..nt];
    var off := toggles[j0].offset;
    j, state := j0, state0;
    while j < nt && toggles[j].offset == off
      invariant j0 <= j <= nt
      invariant forall x :: j0 <= x < j ==> list[x].offset == off
      invariant Applied(reqs, list, off, j0, j, state0, state)
    {
      ApplyOne(reqs, len, list, off, j0, j, state0, state);
      state := if toggles[j].level then state + {toggles[j].chan} else state - {toggles[j].chan};
      j := j + 1;
    }
  }

  /** Merges the sorted toggles into the edge table. */
  method AssembleEdges(reqs: seq<ChanReq>, ghost len: nat, toggles: array<Toggle>, nt: nat,
                       initial: set<nat>, edges: array<Edge>)
    returns (ok: bool, count: nat)
    requires Acceptable(reqs) && nt <= toggles.Length && edges.Length == MAX_EDGES && len >= 1
    requires Sorted(reqs, len, toggles[..nt]) && initial == Wave(reqs, 0)
    requires toggles as object != edges
    modifies edges
    ensures nt < MAX_EDGES ==> ok
    ensures ok ==> 1 <= count <= MAX_EDGES && edges[..count] == Scan(reqs, len - 1)
  {
    edges[0] := Edge(0, initial);
    count := 1;
    var state, lastEmitted := initial, initial;
    ghost var last: nat := 0;
    var j := 0;
    assert SplitAt(toggles[..nt], 0, 0) by {
      assert forall x :: 0 <= x < nt ==> toggles[..nt][x] in toggles[..nt];
    }
    while j < nt
      invariant 0 <= j <= nt && 1 <= count <= MAX_EDGES && count <= 1 + j && last < len
      invariant toggles[..] == old(toggles[..])
      invariant SplitAt(toggles[..nt], j, last)
      invariant state == lastEmitted == Wave(reqs, last)
      invariant edges[..count] == Scan(reqs, last)
    {
      var off := toggles[j].offset;
      j, state := ApplyOffset(reqs, len, toggles, nt, j, last, state);
      last := off;
      if state != lastEmitted {
        if count >= MAX_EDGES { return false, count; }
        edges[count] := Edge(off, state);
        count := count + 1;
        lastEmitted := state;
      }
    }
    if last < len - 1 {
      NothingBetween(reqs, len, toggles[..nt], j, last, len);
    }
    ok := true;
  }

  // ---- the compiler -----------------------------------------------------------

  /** Nothing is on: one entry for t = 0. */
  method CompileOff(reqs: seq<ChanReq>, out: Schedule)
    requires Acceptable(reqs) && out.Valid() && !AnyActive(reqs)
    modifies out, out.edges
    ensures out.Valid() && out.Table() == ScanTable(reqs) && out.length == Length(reqs)
  {
    out.edges[0] := Edge(0, {});
    out.count := 1;
    out.length := Pow2(DEFAULT_PERIOD_LOG2);
    AllOff(reqs, Length(reqs) - 1);
  }

  /** Toggles collected, sorted and merged. */
  method CompileToggles(reqs: seq<ChanReq>, nmax: nat, out: Schedule) returns (ok: bool)
    requires Acceptable(reqs) && out.Valid() && AnyActive(reqs) && nmax == LongestLog2(reqs, |reqs|)
    modifies out, out.edges
    ensures InConfiguredRange(reqs) ==> ok
    ensures out.Valid()
    ensures ok ==> out.Table() == ScanTable(reqs) && out.length == Length(reqs)
    ensures !ok ==> out.count == old(out.count) && out.length == old(out.length)
  {
    ghost var i: nat :| i < |reqs| && Active(reqs[i]);
    ghost var m := LongestAttained(reqs, |reqs|, i);
    var toggles := new Toggle[MAX_EDGES](_ => Toggle(0, 0, false));
    var initial, nt;
    ok, initial, nt := CollectToggles(reqs, nmax, toggles, m);
    if !ok { return; }
    hide Wave, Collected, SortedByOffset, InConfiguredRange, Acceptable;
    ghost var raw := toggles[..nt];
    SortByOffset(toggles, nt);
    NowSorted(reqs, Pow2(nmax), raw, toggles[..nt]);
    var count;
    ok, count := AssembleEdges(reqs, Pow2(nmax), toggles, nt, initial, out.edges);
    if !ok { return; }
    out.count := count;
    out.length := Pow2(nmax);
  }

  lemma NowSorted(reqs: seq<ChanReq>, len: nat, raw: seq<Toggle>, list: seq<Toggle>)
    requires Acceptable(reqs) && Collected(reqs, len, |reqs|, raw)
    requires SortedByOffset(list) && multiset(list) == multiset(raw)
    ensures Sorted(reqs, len, list)
  {
    SameElements(raw, list);
  }

  /**
   pwm_compile. On success `out` holds the scanned table and the schedule length.
   It succeeds whenever every active exponent is in the configured range; a failure
   leaves the entry count and the length alone.
  */
  method Compile(reqs: seq<ChanReq>, out: Schedule) returns (ok: bool)
    requires Acceptable(reqs) && out.Valid()
    modifies out, out.edges
    ensures InConfiguredRange(reqs) ==> ok
    ensures out.Valid()
    ensures ok ==> out.Table() == ScanTable(reqs) && out.length == Length(reqs)
    ensures !ok ==> out.count == old(out.count) && out.length == old(out.length)
  {
    var any, nmax := FindLongest(reqs);
    if any {
      ok := CompileToggles(reqs, nmax, out);
    } else {
      CompileOff(reqs, out);
      ok := true;
    }
  }

  /** With every channel off the wave is low forever. */
  lemma {:induction false} AllOff(reqs: seq<ChanReq>, t: nat)
    requires Acceptable(reqs) && !AnyActive(reqs)
    ensures Scan(reqs, t) == [Edge(0, {})]
    decreases t
  {
    AllLow(reqs, t);
    if t > 0 {
      AllLow(reqs, t - 1);
      AllOff(reqs, t - 1);
    }
  }

  lemma AllLow(reqs: seq<ChanReq>, t: nat)
    requires Acceptable(reqs) && !AnyActive(reqs)
    ensures Wave(reqs, t) == {}
  {
    forall i | 0 <= i < |reqs|
      ensures !High(reqs[i], t)
    {
      InactiveIsOff(reqs[i]);
    }
  }
}
