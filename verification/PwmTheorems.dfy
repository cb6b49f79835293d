/**
 What the compiled tables guarantee: they play every channel's square wave, they
 are the only minimal tables that do, and they conserve each channel's on-time.
*/
module PwmTheorems {
  import opened Numeric
  import opened Waveform
  import opened PwmSchedule

  // ---- what a request asks for, in its own numbers -----------------------------------------

  /** How many ticks of a period of 2^log2 a duty asks for. */
  predicate Lasts(duty: real, log2: nat, n: int) {
    && (duty <= 0.0 ==> n == 0) && (duty >= 1.0 ==> n == Pow2(log2))
    && (0.0 < duty < 1.0 ==> IsNearest(n, Part(duty, Pow2(log2))))
  }

  /**
   Pulse k at a phase, counted in periods: it begins at the tick nearest to the phase, k whole periods of
   2^log2 ticks on, and lasts the number of ticks nearest to the duty's share of a period.
  */
  predicate IsPulse(phase: real, duty: real, log2: nat, k: int, rise: int, n: int) {
    IsNearest(rise, Part(phase + k as real, Pow2(log2))) && Lasts(duty, log2, n)
  }

  ghost predicate InPulse(phase: real, duty: real, log2: nat, t: int) {
    exists k: int, rise: int, n: int :: IsPulse(phase, duty, log2, k, rise, n) && rise <= t < rise + n
  }

  /** Counting the pulses from another period on changes none of them. */
  lemma PulsesShift(phase: real, e: int, duty: real, log2: nat, t: int)
    requires InPulse(phase, duty, log2, t)
    ensures InPulse(phase + e as real, duty, log2, t)
  {
    hide IsNearest, Part, Pow2, Lasts;
    var k: int, rise: int, n: int :| IsPulse(phase, duty, log2, k, rise, n) && rise <= t < rise + n;
    assert phase + k as real == phase + e as real + (k - e) as real;
    assert IsPulse(phase + e as real, duty, log2, k - e, rise, n);
  }

  lemma NoPulse(phase: real, log2: nat, t: int)
    ensures !InPulse(phase, 0.0, log2, t)
  {
  }

  lemma PeriodsOn(phase: real, k: int, b: nat, rise: int)
    requires 0.0 <= phase <= 1.0
    ensures IsNearest(rise, Part(phase + k as real, b)) <==> rise == NearestPart(phase, b) + k * b
  {
    assert Part(phase + k as real, b) == Part(phase, b) + (k * b) as real by {
      assert (k * b) as real == k as real * b as real;
    }
    PartIsNearest(phase, b, rise - k * b);
    hide Part, NearestPart;
  }

  /** A pulse begins at OnTime, whole periods on, and lasts OnTicks. */
  lemma PulseParts(r: ChanReq, k: int, rise: int, n: int)
    requires 0.0 <= r.phase < 1.0
    ensures IsPulse(r.phase, r.duty, r.log2, k, rise, n) <==> rise == PhaseTicks(r) + k * Block(r) && n == OnTicks(r)
  {
    PeriodsOn(r.phase, k, Block(r), rise);
    WholeParts(Block(r));
    hide Part, NearestPart, IsNearest, Pow2;
    if 0.0 < r.duty < 1.0 {
      PartIsNearest(r.duty, Block(r), n);
    }
  }

  lemma WholePeriods(r: ChanReq) returns (e: int)
    requires 0.0 <= r.phase < 1.0
    ensures PhaseTicks(r) == OnTime(r) + e * Block(r)
  {
    hide PhaseTicks, Block;
    e := WholeTimes(PhaseTicks(r), Block(r));
  }

  lemma WholeTimes(x: int, b: nat) returns (e: int)
    requires b >= 1
    ensures x == x % b + e * b
  {
    e := x / b;
    DivModExact(x, b);
  }

  /** In step with the last rise at or before it, a tick is as far behind it as the remainder says. */
  lemma LastRise(t: int, on: int, b: nat) returns (q: int)
    requires b >= 1
    ensures t - (on + q * b) == (t - on) % b
  {
    q := (t - on) / b;
    DivModExact(t - on, b);
  }

  lemma BehindRise(t: int, on: int, q: int, b: nat)
    requires b >= 1 && 0 <= t - (on + q * b) < b
    ensures (t - on) % b == t - (on + q * b)
  {
    DivModUnique(t - on, q, t - (on + q * b), b);
  }

  /** Two ways of counting the periods, from the phase in ticks and from its remainder. */
  lemma SameRise(x: int, on: int, e: int, k: int, b: nat)
    requires x == on + e * b
    ensures x + k * b == on + (e + k) * b
  {
  }

  lemma HighMeans(r: ChanReq, t: int)
    requires 0.0 <= r.phase < 1.0
    ensures High(r, t) <==> (t - OnTime(r)) % Block(r) < OnTicks(r)
    ensures OnTicks(r) <= Block(r)
  {
  }

  /** The wave is high exactly within the pulses that the request asks for. */
  lemma HighIffInPulse(r: ChanReq, t: int)
    requires 0.0 <= r.phase < 1.0
    ensures High(r, t) <==> InPulse(r.phase, r.duty, r.log2, t)
  {
    HighMeans(r, t);
    var e := WholePeriods(r);
    hide OnTime, OnTicks, IsPulse, Block, PhaseTicks, High;
    if High(r, t) {
      var q := LastRise(t, OnTime(r), Block(r));
      SameRise(PhaseTicks(r), OnTime(r), e, q - e, Block(r));
      PulseParts(r, q - e, OnTime(r) + q * Block(r), OnTicks(r));
    }
    if k: int, rise: int, n: int :| IsPulse(r.phase, r.duty, r.log2, k, rise, n) && rise <= t < rise + n {
      PulseParts(r, k, rise, n);
      SameRise(PhaseTicks(r), OnTime(r), e, k, Block(r));
      BehindRise(t, OnTime(r), e + k, Block(r));
    }
  }

  // ---- what the table plays -----------------------------------------------------------------

  /** Compilation preserves meaning: the last edge at or before t carries channel i's level. */
  lemma TablePlaysWaves(reqs: seq<ChanReq>, t: nat, i: nat)
    requires Acceptable(reqs) && t < Length(reqs) && i < |reqs|
    ensures i in StateAt(ScanTable(reqs), t) <==> High(reqs[i], t)
    ensures i in StateAt(ScanTable(reqs), t) <==> InPulse(reqs[i].phase, reqs[i].duty, reqs[i].log2, t)
    ensures forall c :: c in StateAt(ScanTable(reqs), t) ==> c < |reqs|
  {
    ScanMeaning(reqs, Length(reqs) - 1);
    assert StateAt(ScanTable(reqs), t) == Wave(reqs, t);
    HighIffInPulse(reqs[i], t);
    hide InPulse;
  }

  lemma EntriesShowWaves(reqs: seq<ChanReq>, j: nat, i: nat)
    requires Acceptable(reqs) && 0 < j < |ScanTable(reqs)| && i < |reqs|
    ensures var e := ScanTable(reqs);
      && (i in e[j].state <==> High(reqs[i], e[j].offset))
      && (i in e[j - 1].state <==> High(reqs[i], e[j].offset - 1))
  {
    var e := ScanTable(reqs);
    TableWellFormed(reqs);
    hide Wave, Scan, ScanTable, Length, High, Acceptable, InPulse;
    assert e[j - 1].offset < e[j].offset;
    StateAtPrefix(e, j, e[j].offset);
    StateAtPrefix(e, j - 1, e[j].offset - 1);
    TablePlaysWaves(reqs, e[j].offset, i);
    TablePlaysWaves(reqs, e[j].offset - 1, i);
  }

  /** In the table a channel goes high at the beginning of one of its pulses, and low at the end of one. */
  lemma TableEdgesArePulseEnds(reqs: seq<ChanReq>, j: nat, i: nat) returns (k: int, n: int)
    requires Acceptable(reqs) && 0 < j < |ScanTable(reqs)| && i < |reqs|
    requires !(i in ScanTable(reqs)[j].state <==> i in ScanTable(reqs)[j - 1].state)
    ensures var e := ScanTable(reqs);
      IsPulse(reqs[i].phase, reqs[i].duty, reqs[i].log2, k, if i in e[j].state then e[j].offset else e[j].offset - n, n)
  {
    EntriesShowWaves(reqs, j, i);
    var r, t := reqs[i], ScanTable(reqs)[j].offset;
    n := OnTicks(r);
    if High(r, t) {
      k := RiseOf(r, t);
    } else {
      k := FallOf(r, t);
    }
  }

  lemma RiseOf(r: ChanReq, t: int) returns (k: int)
    requires 0.0 <= r.phase < 1.0 && High(r, t) && !High(r, t - 1)
    ensures IsPulse(r.phase, r.duty, r.log2, k, t, OnTicks(r))
  {
    assert Edgy(r);
    HighStep(r, t);
    k := PulseAt(r, t);
  }

  lemma FallOf(r: ChanReq, t: int) returns (k: int)
    requires 0.0 <= r.phase < 1.0 && !High(r, t) && High(r, t - 1)
    ensures IsPulse(r.phase, r.duty, r.log2, k, t - OnTicks(r), OnTicks(r))
  {
    assert Edgy(r);
    HighStep(r, t);
    BackFromFall(t, OnTime(r), OnTicks(r), Block(r));
    hide OnTime, OnTicks, IsPulse, Block;
    k := PulseAt(r, t - OnTicks(r));
  }

  lemma BackFromFall(t: int, on: nat, n: nat, b: nat)
    requires on < b && n < b && t % b == (on + n) % b
    ensures (t - n) % b == on
  {
    ModDifference(t, n, on, b);
  }

  lemma PulseAt(r: ChanReq, t: int) returns (k: int)
    requires 0.0 <= r.phase < 1.0 && t % Block(r) == OnTime(r)
    ensures IsPulse(r.phase, r.duty, r.log2, k, t, OnTicks(r))
  {
    var e := WholePeriods(r);
    hide OnTime, OnTicks, IsPulse, Block, PhaseTicks;
    DivModExact(t, Block(r));
    k := t / Block(r) - e;
    assert PhaseTicks(r) + k * Block(r) == t;
    PulseParts(r, k, t, OnTicks(r));
  }

  /** Offsets start at zero, strictly increase, and stay below the length; every entry changes something. */
  lemma TableWellFormed(reqs: seq<ChanReq>)
    requires Acceptable(reqs)
    ensures Minimal(ScanTable(reqs), Length(reqs))
  {
    ScanMinimal(reqs, Length(reqs) - 1);
  }

  /**
   Any minimal table that plays the waves is the compiled one. So the order a sort
   gives to toggles with equal offsets cannot show in the result.
  */
  lemma TableIsCanonical(reqs: seq<ChanReq>, e: seq<Edge>)
    requires Acceptable(reqs) && Minimal(e, Length(reqs))
    requires forall t: nat :: t < Length(reqs) ==> StateAt(e, t) == Wave(reqs, t)
    ensures e == ScanTable(reqs)
  {
    hide Minimal, StateAt, Wave, Scan, Length, Acceptable;
    CanonicalBelow(reqs, e, Length(reqs) - 1);
  }

  lemma CanonicalBelow(reqs: seq<ChanReq>, e: seq<Edge>, t: nat)
    requires Acceptable(reqs) && Minimal(e, t + 1)
    requires forall u: nat :: u <= t ==> StateAt(e, u) == Wave(reqs, u)
    ensures e == Scan(reqs, t)
  {
    ScanMinimal(reqs, t);
    ScanMeaning(reqs, t);
    hide Minimal, StateAt, Wave, Scan, Acceptable, StrictlyOrdered;
    MinimalUnique(e, Scan(reqs, t), t + 1, 0);
  }

  /** The offsets up to t at which some channel toggles, each once, in order. */
  ghost function ToggleOffsets(reqs: seq<ChanReq>, len: nat, t: nat): seq<nat>
    requires Acceptable(reqs)
  {
    if t == 0 then []
    else ToggleOffsets(reqs, len, t - 1) + if ToggleAt(reqs, len, t) then [t] else []
  }

  function OffsetsOf(edges: seq<Edge>): seq<nat> {
    seq(|edges|, k requires 0 <= k < |edges| => edges[k].offset)
  }

  /** The table has one entry for t = 0 and exactly one for each distinct toggle offset. */
  lemma {:induction false} EntriesAreToggleOffsets(reqs: seq<ChanReq>, len: nat, t: nat)
    requires Acceptable(reqs) && t < len
    ensures OffsetsOf(Scan(reqs, t)) == [0] + ToggleOffsets(reqs, len, t)
    decreases t
  {
    if t > 0 {
      EntriesAreToggleOffsets(reqs, len, t - 1);
      ScanAtToggle(reqs, len, t);
      OffsetsAppend(Scan(reqs, t - 1), Edge(t, Wave(reqs, t)));
    }
  }

  lemma OffsetsAppend(e: seq<Edge>, x: Edge)
    ensures OffsetsOf(e + [x]) == OffsetsOf(e) + [x.offset]
  {
  }

  // ---- conservation of on-time --------------------------------------------------

  /** How many of the n ticks from `start` on the wave of r is high. */
  function HighTicks(r: ChanReq, start: int, n: nat): nat
    requires 0.0 <= r.phase < 1.0
  {
    if n == 0 then 0 else HighTicks(r, start, n - 1) + if High(r, start + n - 1) then 1 else 0
  }

  lemma {:induction false} FromRise(r: ChanReq, n: nat)
    requires 0.0 <= r.phase < 1.0 && n <= Block(r)
    ensures HighTicks(r, OnTime(r), n) == Min(n, OnTicks(r))
    decreases n
  {
    if n > 0 {
      FromRise(r, n - 1);
      DivModUnique(n - 1, 0, n - 1, Block(r));
      assert OnTime(r) + n - 1 - OnTime(r) == n - 1;
    }
  }

  lemma {:induction false} DropFirst(r: ChanReq, start: int, n: nat)
    requires 0.0 <= r.phase < 1.0 && n > 0
    ensures HighTicks(r, start, n) == (if High(r, start) then 1 else 0) + HighTicks(r, start + 1, n - 1)
    decreases n
  {
    if n > 1 {
      DropFirst(r, start, n - 1);
      assert start + 1 + (n - 1) - 1 == start + n - 1;
    }
  }

  lemma HighPeriodic(r: ChanReq, t: int)
    requires 0.0 <= r.phase < 1.0
    ensures High(r, t + Block(r)) <==> High(r, t)
  {
    ModShift(t - OnTime(r), 1, Block(r));
    assert t + Block(r) - OnTime(r) == t - OnTime(r) + 1 * Block(r);
  }

  /** Sliding a whole-block window by one tick does not change the count. */
  lemma SlideWindow(r: ChanReq, start: int)
    requires 0.0 <= r.phase < 1.0
    ensures HighTicks(r, start, Block(r)) == HighTicks(r, start + 1, Block(r))
  {
    DropFirst(r, start, Block(r));
    HighPeriodic(r, start);
    assert start + 1 + Block(r) - 1 == start + Block(r);
  }

  /** Every window of one block, wherever it starts, is high for exactly OnTicks ticks. */
  lemma {:induction false} BlockHighTicks(r: ChanReq, start: int)
    requires 0.0 <= r.phase < 1.0
    ensures HighTicks(r, start, Block(r)) == OnTicks(r)
    decreases if start < OnTime(r) then OnTime(r) - start else start - OnTime(r)
  {
    if start == OnTime(r) {
      FromRise(r, Block(r));
    } else if start < OnTime(r) {
      SlideWindow(r, start);
      BlockHighTicks(r, start + 1);
    } else {
      SlideWindow(r, start - 1);
      BlockHighTicks(r, start - 1);
    }
  }

  lemma {:induction false} HighTicksSplit(r: ChanReq, start: int, n: nat, m: nat)
    requires 0.0 <= r.phase < 1.0
    ensures HighTicks(r, start, n + m) == HighTicks(r, start, n) + HighTicks(r, start + n, m)
    decreases m
  {
    if m > 0 {
      HighTicksSplit(r, start, n, m - 1);
      assert start + (n + m) - 1 == start + n + m - 1;
    }
  }

  lemma {:induction false} RepeatedHighTicks(r: ChanReq, k: nat)
    requires 0.0 <= r.phase < 1.0
    ensures k * Block(r) >= 0
    ensures HighTicks(r, 0, k * Block(r)) == k * OnTicks(r)
    decreases k
  {
    if k > 0 {
      RepeatedHighTicks(r, k - 1);
      assert k * Block(r) == (k - 1) * Block(r) + Block(r);
      assert k * OnTicks(r) == (k - 1) * OnTicks(r) + OnTicks(r);
      HighTicksSplit(r, 0, (k - 1) * Block(r), Block(r));
      BlockHighTicks(r, (k - 1) * Block(r));
    }
  }

  /** Ticks of [start, start + n) at which a table holds channel i high. */
  function TableTicks(edges: seq<Edge>, i: nat, start: nat, n: nat): nat
    requires |edges| >= 1
  {
    if n == 0 then 0 else TableTicks(edges, i, start, n - 1) + if i in StateAt(edges, start + n - 1) then 1 else 0
  }

  lemma {:induction false} TableTicksAreHighTicks(reqs: seq<ChanReq>, i: nat, start: nat, n: nat)
    requires Acceptable(reqs) && i < |reqs| && start + n <= Length(reqs)
    ensures TableTicks(ScanTable(reqs), i, start, n) == HighTicks(reqs[i], start, n)
    decreases n
  {
    if n > 0 {
      TableTicksAreHighTicks(reqs, i, start, n - 1);
      TablePlaysWaves(reqs, start + n - 1, i);
    }
  }

  /** A channel is high for its own tick count in every window of one of its periods. */
  lemma TableWindow(reqs: seq<ChanReq>, i: nat, start: nat)
    requires Acceptable(reqs) && i < |reqs| && start + Block(reqs[i]) <= Length(reqs)
    ensures TableTicks(ScanTable(reqs), i, start, Block(reqs[i])) == OnTicks(reqs[i])
  {
    TableTicksAreHighTicks(reqs, i, start, Block(reqs[i]));
    BlockHighTicks(reqs[i], start);
  }

  // ---- repeated playing -----------------------------------------------------------------

  /** State at tick t of a table of length len that is played over and over. */
  function PlayedState(edges: seq<Edge>, len: nat, t: nat): set<nat>
    requires |edges| >= 1 && len >= 1
  {
    StateAt(edges, t % len)
  }

  lemma HighAcrossCycles(r: ChanReq, t: nat, len: nat, k: nat)
    requires 0.0 <= r.phase < 1.0 && len >= 1 && len == k * Block(r)
    ensures High(r, t % len) <==> High(r, t)
  {
    var q, u := t / len, t % len;
    DivModExactParts(t, len);
    assert q * len == (q * k) * Block(r);
    ModShift(u - OnTime(r), q * k, Block(r));
    assert t - OnTime(r) == u - OnTime(r) + (q * k) * Block(r);
  }

  lemma DivModExactParts(t: nat, len: nat)
    requires len >= 1
    ensures t == (t / len) * len + t % len
  {
  }

  /** Played over and over, the table is the square wave itself at every tick, wraps included. */
  lemma RepeatedTablePlaysWaves(reqs: seq<ChanReq>, t: nat, i: nat)
    requires Acceptable(reqs) && i < |reqs|
    ensures i in PlayedState(ScanTable(reqs), Length(reqs), t) <==> High(reqs[i], t)
    ensures i in PlayedState(ScanTable(reqs), Length(reqs), t) <==> InPulse(reqs[i].phase, reqs[i].duty, reqs[i].log2, t)
  {
    var r, len := reqs[i], Length(reqs);
    HighIffInPulse(r, t);
    hide InPulse;
    TablePlaysWaves(reqs, t % len, i);
    if Active(r) {
      Repeats(r, LongestLog2(reqs, |reqs|));
      DivModExact(len, Block(r));
      HighAcrossCycles(r, t, len, len / Block(r));
    } else {
      InactiveIsOff(r);
    }
  }

  /** Ticks of [start, start + n) at which repeated playing holds channel i high. */
  function PlayedTicks(edges: seq<Edge>, len: nat, i: nat, start: nat, n: nat): nat
    requires |edges| >= 1 && len >= 1
  {
    if n == 0 then 0
    else PlayedTicks(edges, len, i, start, n - 1) + if i in PlayedState(edges, len, start + n - 1) then 1 else 0
  }

  lemma {:induction false} PlayedTicksAreHighTicks(reqs: seq<ChanReq>, i: nat, start: nat, n: nat)
    requires Acceptable(reqs) && i < |reqs|
    ensures PlayedTicks(ScanTable(reqs), Length(reqs), i, start, n) == HighTicks(reqs[i], start, n)
    decreases n
  {
    if n > 0 {
      PlayedTicksAreHighTicks(reqs, i, start, n - 1);
      RepeatedTablePlaysWaves(reqs, start + n - 1, i);
      hide Length, ScanTable, PlayedState, High;
    }
  }

  /** Every window of one period is high for exactly the channel's ticks, whatever wraps it crosses. */
  lemma RepeatedWindow(reqs: seq<ChanReq>, i: nat, start: nat)
    requires Acceptable(reqs) && i < |reqs|
    ensures PlayedTicks(ScanTable(reqs), Length(reqs), i, start, Block(reqs[i])) == OnTicks(reqs[i])
  {
    PlayedTicksAreHighTicks(reqs, i, start, Block(reqs[i]));
    BlockHighTicks(reqs[i], start);
  }

  /** Over a whole schedule every active channel is high on_ticks times per repetition of its block. */
  lemma TableConservesOnTime(reqs: seq<ChanReq>, i: nat)
    requires Acceptable(reqs) && i < |reqs| && Active(reqs[i])
    ensures Length(reqs) % Block(reqs[i]) == 0
    ensures TableTicks(ScanTable(reqs), i, 0, Length(reqs)) == (Length(reqs) / Block(reqs[i])) * OnTicks(reqs[i])
  {
    Repeats(reqs[i], LongestLog2(reqs, |reqs|));
    var k := Length(reqs) / Block(reqs[i]);
    DivModExact(Length(reqs), Block(reqs[i]));
    RepeatedHighTicks(reqs[i], k);
    TableTicksAreHighTicks(reqs, i, 0, Length(reqs));
  }
}
