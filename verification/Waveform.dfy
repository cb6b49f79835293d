/**
 The meaning of a set of PWM requests: one square wave per channel, and the
 edge table that a tick-by-tick scan of those waves would produce. This is the
 reference the schedule compiler is proved against.
*/
module Waveform {
  import opened Numeric

  const MAX_CHANNELS: nat := 5
  const PERIOD_LOG2_MIN: nat := 8
  const PERIOD_LOG2_MAX: nat := 14
  const DEFAULT_PERIOD_LOG2: nat := 10
  const MAX_EDGES: nat := 2 * (MAX_CHANNELS - 1) * 64 + MAX_CHANNELS + 2

  /** Offsets pack into the high 24 bits of a word, so exponents stay at most 22. */
  const OFFSET_LOG2_LIMIT: nat := 22

  /** One engine input; its index in the request list is the channel. */
  datatype ChanReq = ChanReq(duty: real, phase: real, log2: nat)

  /** An edge: from this offset on, exactly the channels in `state` are high. */
  datatype Edge = Edge(offset: nat, state: set<nat>)

  predicate Acceptable(reqs: seq<ChanReq>) {
    && |reqs| <= MAX_CHANNELS
    && forall i :: 0 <= i < |reqs| ==> 0.0 <= reqs[i].phase < 1.0 && reqs[i].log2 <= OFFSET_LOG2_LIMIT
  }

  predicate Active(r: ChanReq) {
    r.duty > 0.0
  }

  predicate InConfiguredRange(reqs: seq<ChanReq>) {
    forall i :: 0 <= i < |reqs| && Active(reqs[i]) ==> PERIOD_LOG2_MIN <= reqs[i].log2 <= PERIOD_LOG2_MAX
  }

  function Block(r: ChanReq): (b: nat)
    ensures b >= 1
  {
    Pow2(r.log2)
  }

  function OnTicks(r: ChanReq): (n: nat)
    ensures n <= Block(r)
  {
    NearestPart(Clamp01(r.duty), Block(r))
  }

  /** The phase in ticks, rounded: up to a whole block. */
  function PhaseTicks(r: ChanReq): nat
    requires 0.0 <= r.phase < 1.0
  {
    NearestPart(r.phase, Block(r))
  }

  function OnTime(r: ChanReq): (t: nat)
    requires 0.0 <= r.phase < 1.0
    ensures t < Block(r)
  {
    PhaseTicks(r) % Block(r)
  }

  function FallPos(r: ChanReq): (t: nat)
    requires 0.0 <= r.phase < 1.0
    ensures t < Block(r)
  {
    (OnTime(r) + OnTicks(r)) % Block(r)
  }

  /** The square wave of one channel. */
  predicate High(r: ChanReq, t: int)
    requires 0.0 <= r.phase < 1.0
  {
    (t - OnTime(r)) % Block(r) < OnTicks(r)
  }

  /** The channels that are high at tick t. */
  function Wave(reqs: seq<ChanReq>, t: nat): (s: set<nat>)
    requires Acceptable(reqs)
  {
    set i | 0 <= i < |reqs| && High(reqs[i], t)
  }

  /** Exponent of the longest active block among the first k requests. */
  function LongestLog2(reqs: seq<ChanReq>, k: nat): (n: nat)
    requires k <= |reqs|
    ensures forall i :: 0 <= i < k && Active(reqs[i]) ==> reqs[i].log2 <= n
    ensures (forall i :: 0 <= i < k ==> !Active(reqs[i])) ==> n == 0
  {
    if k == 0 then 0
    else
      var n := LongestLog2(reqs, k - 1);
      if Active(reqs[k - 1]) && reqs[k - 1].log2 > n then reqs[k - 1].log2 else n
  }

  lemma {:induction false} LongestAttained(reqs: seq<ChanReq>, k: nat, i: nat) returns (m: nat)
    requires i < k <= |reqs| && Active(reqs[i])
    ensures m < k && Active(reqs[m]) && reqs[m].log2 == LongestLog2(reqs, k)
  {
    var n := LongestLog2(reqs, k - 1);
    if Active(reqs[k - 1]) && reqs[k - 1].log2 > n {
      m := k - 1;
    } else if i < k - 1 {
      m := LongestAttained(reqs, k - 1, i);
    } else if j: nat :| j < k - 1 && Active(reqs[j]) {
      m := LongestAttained(reqs, k - 1, j);
    } else {
      m := k - 1;
    }
  }

  predicate AnyActive(reqs: seq<ChanReq>) {
    exists i :: 0 <= i < |reqs| && Active(reqs[i])
  }

  /** Length of the repeating schedule. */
  function Length(reqs: seq<ChanReq>): (n: nat)
    ensures n >= 1
  {
    Pow2(if AnyActive(reqs) then LongestLog2(reqs, |reqs|) else DEFAULT_PERIOD_LOG2)
  }

  /** The table a scan of ticks 0..t would write: an entry wherever the wave changes. */
  function Scan(reqs: seq<ChanReq>, t: nat): (edges: seq<Edge>)
    requires Acceptable(reqs)
    ensures |edges| >= 1
  {
    if t == 0 then [Edge(0, Wave(reqs, 0))]
    else if Wave(reqs, t) != Wave(reqs, t - 1) then Scan(reqs, t - 1) + [Edge(t, Wave(reqs, t))]
    else Scan(reqs, t - 1)
  }

  function ScanTable(reqs: seq<ChanReq>): (edges: seq<Edge>)
    requires Acceptable(reqs)
  {
    Scan(reqs, Length(reqs) - 1)
  }

  // ---- what a table means ----------------------------------------------------

  /** State of the last entry at or before tick t. */
  function StateAt(edges: seq<Edge>, t: nat): set<nat>
    requires |edges| >= 1
  {
    if |edges| == 1 || edges[|edges| - 1].offset <= t then edges[|edges| - 1].state
    else StateAt(edges[..|edges| - 1], t)
  }

  predicate StrictlyOrdered(edges: seq<Edge>) {
    forall i, j :: 0 <= i < j < |edges| ==> edges[i].offset < edges[j].offset
  }

  /** An appended later entry takes over from its offset on and leaves earlier ticks alone. */
  lemma AppendEntry(p: seq<Edge>, x: Edge)
    requires |p| >= 1 && StrictlyOrdered(p) && p[|p| - 1].offset < x.offset
    ensures StrictlyOrdered(p + [x])
    ensures forall u: nat :: StateAt(p + [x], u) == if u < x.offset then StateAt(p, u) else x.state
  {
    var e := p + [x];
    assert e[..|e| - 1] == p;
    forall i, j | 0 <= i < j < |e|
      ensures e[i].offset < e[j].offset
    {
      if j == |p| {
        assert e[i] == p[i] && p[i].offset <= p[|p| - 1].offset;
      }
    }
  }

  /** The table plays the wave back at every tick up to t. */
  ghost predicate PlaysUpTo(e: seq<Edge>, reqs: seq<ChanReq>, t: nat)
    requires Acceptable(reqs)
  {
    && |e| >= 1 && StrictlyOrdered(e) && e[0].offset == 0 && e[|e| - 1].offset <= t
    && e[|e| - 1].state == Wave(reqs, t)
    && (forall u: nat :: u <= t ==> StateAt(e, u) == Wave(reqs, u))
  }

  /** Scanned tables play the wave back exactly, and are ordered within their range. */
  lemma {:induction false} ScanMeaning(reqs: seq<ChanReq>, t: nat)
    requires Acceptable(reqs)
    ensures PlaysUpTo(Scan(reqs, t), reqs, t)
    decreases t
  {
    if t > 0 {
      ScanMeaning(reqs, t - 1);
      ScanExtends(reqs, t, Scan(reqs, t - 1), Wave(reqs, t));
    }
  }

  lemma ScanExtends(reqs: seq<ChanReq>, t: nat, p: seq<Edge>, w: set<nat>)
    requires Acceptable(reqs) && t > 0 && PlaysUpTo(p, reqs, t - 1) && w == Wave(reqs, t)
    ensures PlaysUpTo(if w != Wave(reqs, t - 1) then p + [Edge(t, w)] else p, reqs, t)
  {
    if w != Wave(reqs, t - 1) {
      AppendEntry(p, Edge(t, w));
    } else {
      assert StateAt(p, t) == w;
    }
  }

  /**
   Tables in which every entry changes the state are determined by what they play:
   two such tables that agree at every tick below `len` are the same table.
  */
  predicate Minimal(edges: seq<Edge>, len: nat) {
    && |edges| >= 1 && edges[0].offset == 0 && StrictlyOrdered(edges)
    && (forall i :: 0 <= i < |edges| ==> edges[i].offset < len)
    && (forall i :: 1 <= i < |edges| ==> edges[i].state != edges[i - 1].state)
  }

  lemma EndsInWave(reqs: seq<ChanReq>, t: nat)
    requires Acceptable(reqs)
    ensures Scan(reqs, t)[|Scan(reqs, t)| - 1].state == Wave(reqs, t)
  {
    ScanMeaning(reqs, t);
    hide Wave, StateAt, Scan, Acceptable, StrictlyOrdered;
  }

  lemma {:induction false} ScanMinimal(reqs: seq<ChanReq>, t: nat)
    requires Acceptable(reqs)
    ensures Minimal(Scan(reqs, t), t + 1)
    decreases t
  {
    if t > 0 {
      EndsInWave(reqs, t - 1);
      ScanMinimal(reqs, t - 1);
      hide Minimal, Wave, Acceptable;
      MinimalExtends(Scan(reqs, t - 1), t, Wave(reqs, t - 1), Wave(reqs, t));
    }
  }

  lemma MinimalExtends(p: seq<Edge>, t: nat, was: set<nat>, w: set<nat>)
    requires Minimal(p, t) && p[|p| - 1].state == was
    ensures Minimal(if w != was then p + [Edge(t, w)] else p, t + 1)
  {
    if w != was {
      AppendEntry(p, Edge(t, w));
    }
  }

  lemma {:induction false} StateAtPrefix(edges: seq<Edge>, i: nat, t: nat)
    requires i < |edges| && StrictlyOrdered(edges)
    requires edges[i].offset <= t && (i + 1 < |edges| ==> t < edges[i + 1].offset)
    ensures StateAt(edges, t) == edges[i].state
    decreases |edges|
  {
    if i < |edges| - 1 {
      var p := edges[..|edges| - 1];
      assert edges[|edges| - 1].offset > t;
      assert StrictlyOrdered(p) by {
        forall a, b | 0 <= a < b < |p| ensures p[a].offset < p[b].offset {
          assert edges[a].offset < edges[b].offset;
        }
      }
      StateAtPrefix(p, i, t);
    }
  }

  lemma {:induction false} MinimalUnique(a: seq<Edge>, b: seq<Edge>, len: nat, k: nat)
    requires Minimal(a, len) && Minimal(b, len) && k <= |a| && k <= |b|
    requires forall t: nat :: t < len ==> StateAt(a, t) == StateAt(b, t)
    requires a[..k] == b[..k]
    ensures a == b
    decreases |a| - k
  {
    if k == 0 {
      StateAtPrefix(a, 0, 0);
      StateAtPrefix(b, 0, 0);
      assert StateAt(a, 0) == StateAt(b, 0);
      assert a[..1] == b[..1];
      MinimalUnique(a, b, len, 1);
    } else {
      assert a[k - 1] == a[..k][k - 1] == b[..k][k - 1] == b[k - 1];
      if k < |a| {
        NextEntryAgrees(a, b, len, k);
        assert a[..k + 1] == a[..k] + [a[k]];
        assert b[..k + 1] == b[..k] + [b[k]];
        MinimalUnique(a, b, len, k + 1);
      } else if k < |b| {
        NextEntryAgrees(b, a, len, k);
        assert false;
      }
    }
  }

  lemma NextEntryAgrees(a: seq<Edge>, b: seq<Edge>, len: nat, k: nat)
    requires Minimal(a, len) && Minimal(b, len) && 1 <= k < |a| && k <= |b|
    requires forall t: nat :: t < len ==> StateAt(a, t) == StateAt(b, t)
    requires a[k - 1] == b[k - 1]
    ensures k < |b| && a[k] == b[k]
  {
    var t := a[k].offset;
    assert a[k - 1].offset < t;
    assert StateAt(a, t) == a[k].state by { StateAtPrefix(a, k, t); }
    if k == |b| || b[k].offset > t {
      StateAtPrefix(b, k - 1, t);
      assert false;
    }
    var u := b[k].offset;
    assert b[k - 1].offset < u;
    assert StateAt(b, u) == b[k].state by { StateAtPrefix(b, k, u); }
    if u < t {
      StateAtPrefix(a, k - 1, u);
      assert false;
    }
  }
}
