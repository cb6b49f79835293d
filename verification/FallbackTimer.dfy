/**
 The controller's fallback timer over whole runs: a 32-bit tick counter that wraps, refreshed by
 colours and keep-alives, checked on every wake. It is proved to do what a timer that never
 wraps would do.
*/
module FallbackTimer {
  import T = PwmTimer
  import Numeric

  const WRAP: nat := 0x1_0000_0000

  /** What one wake of the controller task brought: a colour, a keep-alive, or neither. */
  datatype Cause = Colour | KeepAlive | Nothing

  /**
   One wake: the ticks since power-on, counted without wrapping, when a message is handled and when
   the timer is checked, and the fallback time in ticks as the configuration then has it.
  */
  datatype Wake = Wake(cause: Cause, handled: nat, checked: nat, fallback: nat)

  /** last_seen and at_default. */
  datatype Timer = Timer(lastSeen: nat, atDefault: bool)

  function Refreshed(t: Timer, w: Wake): Timer {
    match w.cause
    case Colour => Timer(T.U32(w.handled), false)
    case KeepAlive => if t.atDefault then t else t.(lastSeen := T.U32(w.handled))
    case Nothing => t
  }

  function Checked(t: Timer, w: Wake): Timer {
    if !t.atDefault && T.U32(T.U32(w.checked) - t.lastSeen) >= w.fallback then t.(atDefault := true) else t
  }

  function Serve(t: Timer, w: Wake): Timer {
    Checked(Refreshed(t, w), w)
  }

  function Run(t: Timer, ws: seq<Wake>): Timer
    decreases |ws|
  {
    if |ws| == 0 then t else Serve(Run(t, ws[..|ws| - 1]), ws[|ws| - 1])
  }

  const INITIAL := Timer(0, true)

  // ---- the timer without wrap -------------------------------------------------------------

  /** Time of the last refresh while a light is live; None at the default. */
  datatype Live = At(last: nat) | Resting

  function RefRefreshed(l: Live, w: Wake): Live {
    match w.cause
    case Colour => At(w.handled)
    case KeepAlive => if l.Resting? then l else At(w.handled)
    case Nothing => l
  }

  /** Late means the fallback time has passed since the last refresh. */
  predicate Late(l: Live, w: Wake) {
    l.At? && w.checked as int - l.last as int >= w.fallback
  }

  function RefServe(l: Live, w: Wake): Live {
    var r := RefRefreshed(l, w);
    if Late(r, w) then Resting else r
  }

  function RefRun(ws: seq<Wake>): Live
    decreases |ws|
  {
    if |ws| == 0 then Resting else RefServe(RefRun(ws[..|ws| - 1]), ws[|ws| - 1])
  }

  // ---- refinement -------------------------------------------------------------------------

  /**
   Wakes come in order, and the time from one check to the next plus the fallback time then in force
   is at most one turn of the counter.
  */
  predicate Timely(ws: seq<Wake>) {
    && (forall i :: 0 <= i < |ws| ==> ws[i].handled <= ws[i].checked && ws[i].checked - ws[i].handled < WRAP)
    && (forall i :: 1 <= i < |ws| ==> ws[i - 1].checked <= ws[i].handled)
    && (forall i :: 1 <= i < |ws| ==> ws[i].checked - ws[i - 1].checked + ws[i - 1].fallback <= WRAP)
  }

  predicate Agrees(t: Timer, l: Live) {
    match l
    case Resting => t.atDefault
    case At(x) => !t.atDefault && t.lastSeen == T.U32(x)
  }

  /** The wrapped difference is the elapsed time, reduced by whole turns of the counter. */
  lemma WrappedDifference(now: int, last: int)
    ensures T.U32(T.U32(now) - T.U32(last)) == T.U32(now - last)
    ensures 0 <= now - last < WRAP ==> T.U32(T.U32(now) - T.U32(last)) == now - last
  {
    var past: int := T.U32(last);
    T.U32Sum(now, -past);
    Numeric.ModShift(now - last, last / WRAP, WRAP);
  }

  /** The check is right exactly when the wrapped elapsed time is on the same side of the fallback time. */
  lemma CheckIsExact(last: nat, w: Wake)
    requires last <= w.checked
    ensures Checked(Timer(T.U32(last), false), w).atDefault <==> T.U32(w.checked - last) >= w.fallback
    ensures w.checked - last < WRAP ==>
              (Checked(Timer(T.U32(last), false), w).atDefault <==> Late(At(last), w))
  {
    WrappedDifference(w.checked, last);
  }

  /** After a wake a live light was refreshed less than the fallback time ago, and not in the future. */
  predicate Recent(l: Live, w: Wake) {
    l.At? ==> l.last <= w.checked && w.checked - l.last < w.fallback
  }

  lemma {:induction false} TimerRefinesReference(ws: seq<Wake>)
    requires Timely(ws)
    ensures Agrees(Run(INITIAL, ws), RefRun(ws))
    ensures |ws| > 0 ==> Recent(RefRun(ws), ws[|ws| - 1])
    decreases |ws|
  {
    if |ws| > 0 {
      var n := |ws| - 1;
      var w, before := ws[n], ws[..n];
      TimerRefinesReference(before);
      var t, l := Refreshed(Run(INITIAL, before), w), RefRefreshed(RefRun(before), w);
      assert Agrees(t, l);
      if l.At? {
        assert l.last <= w.checked && w.checked - l.last < WRAP by {
          if n > 0 {
            assert before[n - 1] == ws[n - 1];
            assert ws[n].checked - ws[n - 1].checked + ws[n - 1].fallback <= WRAP;
          }
        }
        CheckIsExact(l.last, w);
      }
    }
  }

  // ---- what that means for the light ------------------------------------------------------

  /** Wake i is handled before it is checked, and after the one before was checked. */
  predicate InPlace(ws: seq<Wake>, i: nat)
    requires i < |ws|
  {
    ws[i].handled <= ws[i].checked && (i > 0 ==> ws[i - 1].checked <= ws[i].handled)
  }

  predicate Ordered(ws: seq<Wake>) {
    forall i: nat :: i < |ws| ==> InPlace(ws, i)
  }

  lemma {:induction false} OrderedAcross(ws: seq<Wake>, i: nat, k: nat)
    requires Ordered(ws) && i < k < |ws|
    ensures ws[i].checked <= ws[k].handled
    decreases k
  {
    assert InPlace(ws, k);
    if i < k - 1 {
      OrderedAcross(ws, i, k - 1);
      assert InPlace(ws, k - 1);
    }
  }

  /** A colour came with one of the first k wakes. */
  predicate Lit(ws: seq<Wake>, k: nat)
    requires k <= |ws|
  {
    exists i :: 0 <= i < k && ws[i].cause == Colour
  }

  /** A wake that refreshes the light: a colour, or a keep-alive after one. */
  predicate IsRefresh(ws: seq<Wake>, i: nat)
    requires i < |ws|
  {
    ws[i].cause == Colour || (ws[i].cause == KeepAlive && Lit(ws, i))
  }

  predicate NoRefresh(ws: seq<Wake>, lo: nat, hi: nat)
    requires hi <= |ws|
  {
    forall m: nat :: lo <= m < hi ==> !IsRefresh(ws, m)
  }

  /** From wake a on, `limit` is less than every fallback time in force up to wake k. */
  predicate UnderFallback(ws: seq<Wake>, a: nat, k: nat, limit: int)
    requires k <= |ws|
  {
    forall i: nat :: a <= i < k ==> limit < ws[i].fallback
  }

  /** The next refresh at or after wake i, or the end of the run. */
  function NextRefresh(ws: seq<Wake>, i: nat): (b: nat)
    requires i <= |ws|
    ensures i <= b <= |ws| && (b < |ws| ==> IsRefresh(ws, b))
    decreases |ws| - i
  {
    if i == |ws| || IsRefresh(ws, i) then i else NextRefresh(ws, i + 1)
  }

  /** When the refresh of wake a is renewed, or looked at for the last time. */
  function RenewedAt(ws: seq<Wake>, a: nat): nat
    requires a < |ws|
  {
    var b := NextRefresh(ws, a + 1);
    if b < |ws| then ws[b].handled else ws[|ws| - 1].checked
  }

  /**
   Consecutive refreshes are handled less than the fallback time apart, and the last check comes less
   than that after the last refresh. When the configuration changes in between, the smallest fallback
   time in force over the gap counts.
  */
  predicate Spaced(ws: seq<Wake>) {
    forall a: nat {:trigger RenewedAt(ws, a)} :: a < |ws| && IsRefresh(ws, a) ==>
      UnderFallback(ws, a, NextRefresh(ws, a + 1), RenewedAt(ws, a) - ws[a].handled)
  }

  /** Time of the latest refresh among the first k wakes, had the light never gone back to the default. */
  function LastRefresh(ws: seq<Wake>, k: nat): Live
    requires k <= |ws|
    decreases k
  {
    if k == 0 then Resting
    else
      var before, w := LastRefresh(ws, k - 1), ws[k - 1];
      if w.cause == Colour || (w.cause == KeepAlive && before.At?) then At(w.handled) else before
  }

  lemma {:induction false} LitIffRefreshed(ws: seq<Wake>, k: nat)
    requires k <= |ws|
    ensures Lit(ws, k) <==> LastRefresh(ws, k).At?
    decreases k
  {
    if k > 0 {
      LitIffRefreshed(ws, k - 1);
      assert Lit(ws, k) <==> Lit(ws, k - 1) || ws[k - 1].cause == Colour;
    }
  }

  /** The wake that made the latest refresh. */
  lemma {:induction false} Refresher(ws: seq<Wake>, k: nat) returns (a: nat)
    requires k <= |ws| && LastRefresh(ws, k).At?
    ensures a < k && IsRefresh(ws, a) && NoRefresh(ws, a + 1, k) && LastRefresh(ws, k) == At(ws[a].handled)
    decreases k
  {
    LitIffRefreshed(ws, k - 1);
    if IsRefresh(ws, k - 1) {
      a := k - 1;
    } else {
      a := Refresher(ws, k - 1);
    }
  }

  lemma {:induction false} NextSkips(ws: seq<Wake>, i: nat, k: nat)
    requires i <= k <= |ws| && NoRefresh(ws, i, k)
    ensures NextRefresh(ws, i) == NextRefresh(ws, k)
    decreases k - i
  {
    if i < k {
      NextSkips(ws, i + 1, k);
    }
  }

  /** Every check comes within the fallback time of the latest refresh. */
  predicate NeverLate(ws: seq<Wake>) {
    forall i: nat :: i < |ws| ==> !Late(LastRefresh(ws, i + 1), ws[i])
  }

  /** A check comes before the next refresh is handled, so refreshes spaced closely enough are never late. */
  lemma SpacedIsNeverLate(ws: seq<Wake>)
    requires Ordered(ws) && Spaced(ws)
    ensures NeverLate(ws)
  {
    forall i: nat | i < |ws| ensures !Late(LastRefresh(ws, i + 1), ws[i]) {
      if LastRefresh(ws, i + 1).At? {
        var a := Refresher(ws, i + 1);
        var b := NextRefresh(ws, i + 1);
        NextSkips(ws, a + 1, i + 1);
        assert InPlace(ws, |ws| - 1);
        if b < |ws| {
          OrderedAcross(ws, i, b);
        } else if i < |ws| - 1 {
          OrderedAcross(ws, i, |ws| - 1);
        }
        assert UnderFallback(ws, a, b, RenewedAt(ws, a) - ws[a].handled);
      }
    }
  }

  /** What the configuration can hold: a fallback time is a 32-bit number of ticks. */
  predicate Fallbacks32(ws: seq<Wake>) {
    forall i :: 0 <= i < |ws| ==> ws[i].fallback <= WRAP
  }

  /** While no check has been late, the timer stands at the latest refresh; the counter may wrap as it likes. */
  lemma {:induction false} NotLateStaysLive(ws: seq<Wake>, k: nat)
    requires Ordered(ws) && Fallbacks32(ws) && NeverLate(ws) && k <= |ws|
    ensures Agrees(Run(INITIAL, ws[..k]), LastRefresh(ws, k))
    decreases k
  {
    if k > 0 {
      NotLateStaysLive(ws, k - 1);
      assert ws[..k][..k - 1] == ws[..k - 1];
      var w, l := ws[k - 1], LastRefresh(ws, k);
      assert Agrees(Refreshed(Run(INITIAL, ws[..k - 1]), w), l);
      if l.At? {
        assert !Late(LastRefresh(ws, k - 1 + 1), ws[k - 1]);
        var a := Refresher(ws, k);
        assert InPlace(ws, k - 1) && InPlace(ws, a);
        if a < k - 1 {
          OrderedAcross(ws, a, k - 1);
        }
        CheckIsExact(l.last, w);
      }
    }
  }

  /**
   Refreshes closer together than the fallback time never fall back: from its first colour on the
   light is live after every wake, however often the tick counter wraps in between.
  */
  lemma RefreshedStaysLive(ws: seq<Wake>, k: nat)
    requires Ordered(ws) && Fallbacks32(ws) && Spaced(ws)
    requires k <= |ws| && Lit(ws, k)
    ensures !Run(INITIAL, ws[..k]).atDefault
    ensures LastRefresh(ws, k).At? && Run(INITIAL, ws[..k]).lastSeen == T.U32(LastRefresh(ws, k).last)
  {
    SpacedIsNeverLate(ws);
    NotLateStaysLive(ws, k);
    LitIffRefreshed(ws, k);
  }

  /** Wakes that bring no refresh. */
  predicate Silent(ws: seq<Wake>, k: nat) {
    forall i :: k <= i < |ws| ==> ws[i].cause == Nothing
  }

  predicate SomeCheckLate(ws: seq<Wake>, k: nat, last: nat) {
    exists i: nat :: k <= i < |ws| && ws[i].checked - last >= ws[i].fallback
  }

  lemma {:induction false} SilentReference(ws: seq<Wake>, k: nat)
    requires k <= |ws| && Silent(ws, k) && RefRun(ws[..k]).At?
    ensures RefRun(ws) == if SomeCheckLate(ws, k, RefRun(ws[..k]).last) then Resting else RefRun(ws[..k])
    decreases |ws|
  {
    if |ws| == k {
      assert ws[..k] == ws;
    } else {
      var before, last := ws[..|ws| - 1], RefRun(ws[..k]).last;
      assert before[..k] == ws[..k];
      SilentReference(before, k);
      if i: nat :| k <= i < |before| && before[i].checked - last >= before[i].fallback {
        assert ws[i] == before[i];
      } else {
        forall i: nat | k <= i < |before| ensures ws[i].checked - last < ws[i].fallback {
          assert before[i] == ws[i];
        }
        assert ws[|ws| - 1].checked - last >= ws[|ws| - 1].fallback ==> SomeCheckLate(ws, k, last);
      }
    }
  }

  /**
   A source that goes silent after wake k - 1: the light stays live at every wake before the
   deadline, and is at the default after the first wake checked at or past it.
  */
  lemma SilentSourceReverts(ws: seq<Wake>, k: nat)
    requires k <= |ws| && Timely(ws) && Silent(ws, k) && RefRun(ws[..k]).At?
    ensures Run(INITIAL, ws).atDefault <==> SomeCheckLate(ws, k, RefRun(ws[..k]).last)
  {
    TimerRefinesReference(ws);
    SilentReference(ws, k);
  }

  /** Once resting, keep-alives alone never bring the light back. */
  lemma {:induction false} KeepAlivesDoNotRevive(ws: seq<Wake>)
    requires forall i :: 0 <= i < |ws| ==> ws[i].cause != Colour
    ensures Run(INITIAL, ws).atDefault
    decreases |ws|
  {
    if |ws| > 0 {
      KeepAlivesDoNotRevive(ws[..|ws| - 1]);
    }
  }

  lemma SilentStep(t: Timer, w: Wake, last: nat)
    requires w.cause == Nothing
    ensures t.atDefault ==> Serve(t, w) == t
    ensures !t.atDefault && t.lastSeen == T.U32(last) ==>
              Serve(t, w) == t.(atDefault := T.U32(w.checked - last) >= w.fallback)
  {
    WrappedDifference(w.checked, last);
    hide T.U32;
  }

  predicate WrappedLate(w: Wake, last: nat) {
    T.U32(w.checked - last) >= w.fallback
  }

  /**
   A silent stretch with no assumption on its timing: it reverts exactly when some check finds the
   wrapped time since the last refresh at or past the fallback time; until then nothing changes.
  */
  lemma {:induction false} SilentRevertsIff(t: Timer, ws: seq<Wake>, last: nat)
    requires !t.atDefault && t.lastSeen == T.U32(last) && Silent(ws, 0)
    ensures Run(t, ws).atDefault <==> exists i: nat :: i < |ws| && WrappedLate(ws[i], last)
    ensures Run(t, ws) == t.(atDefault := Run(t, ws).atDefault)
    decreases |ws|
  {
    if |ws| > 0 {
      var n := |ws| - 1;
      var before := ws[..n];
      SilentRevertsIff(t, before, last);
      SilentStep(Run(t, before), ws[n], last);
      assert WrappedLate(ws[n], last) <==> T.U32(ws[n].checked - last) >= ws[n].fallback;
      hide Serve, T.U32, WrappedLate;
      assert forall i: nat :: i < n ==> before[i] == ws[i];
    }
  }

  /**
   The room below the wrap is needed: with a fallback time one tick short of the wrap, a silent
   light checked one tick early and then two ticks later reads as just refreshed.
  */
  lemma WrapHidesSilence()
    ensures var f := WRAP - 1;
      var ws := [Wake(Colour, 0, 0, f), Wake(Nothing, f - 1, f - 1, f), Wake(Nothing, f + 1, f + 1, f)];
      !Run(INITIAL, ws).atDefault && RefRun(ws).Resting? && !Timely(ws)
  {
    var f := WRAP - 1;
    var a, b, c := Wake(Colour, 0, 0, f), Wake(Nothing, f - 1, f - 1, f), Wake(Nothing, f + 1, f + 1, f);
    var ws := [a, b, c];
    assert ws[..2] == [a, b] && [a, b][..1] == [a] && [a][..0] == [];
    assert Run(INITIAL, [a]) == Timer(0, false);
    assert Run(INITIAL, [a, b]) == Timer(0, false);
    assert RefRun([a]) == At(0);
    assert RefRun([a, b]) == At(0);
    assert ws[2].checked - ws[1].checked + ws[1].fallback > WRAP;
  }
}
