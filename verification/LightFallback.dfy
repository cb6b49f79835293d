/**
 The controller's light and its fallback timer together, among the steps of the callback: over every
 run the light rests at the default exactly when the timer says so, and shows the last colour otherwise.
*/
module LightFallback {
  import opened Options
  import opened LightLink
  import F = FallbackTimer
  import T = PwmTimer

  /**
   The interleaved state with the controller's last_seen, and what happened so far: the wakes completed,
   cause and time of the one in progress, the last colour shown, and the number of fallbacks.
  */
  datatype Joint = Joint(s: State, lastSeen: nat, wakes: seq<F.Wake>, cause: F.Cause, handled: nat, colour: Light, falls: nat)

  const START := Joint(INITIAL, 0, [], F.Nothing, 0, Default(0), 0)

  /** The callback's side of the run, or a step of the controller at tick `now` since power-on. */
  datatype Event = Arrives(frame: Frame) | Callback | Controls(now: nat, fallback: nat)

  predicate TimerSays(lastSeen: nat, now: nat, fallback: nat) {
    T.U32(T.U32(now) - lastSeen) >= fallback
  }

  predicate BringsKeepAlive(q: seq<Msg>) {
    |q| > 0 && q[0].KeepAlive?
  }

  function ControlStep(j: Joint, enabled: bool, now: nat, fallback: nat): Joint {
    var c, n := j.s.c, j.(s := CtlStep(j.s, enabled, TimerSays(j.lastSeen, now, fallback)));
    match c.at
    case Waiting =>
      if BringsKeepAlive(j.s.queue) then
        n.(cause := F.KeepAlive, handled := now, lastSeen := if c.atDefault then j.lastSeen else T.U32(now))
      else n.(cause := F.Nothing, handled := now)
    case Lit(l) => n.(cause := F.Colour, handled := now, lastSeen := T.U32(now), colour := l)
    case Checking => n.(wakes := j.wakes + [F.Wake(j.cause, j.handled, now, fallback)])
    case FallMark => n.(falls := j.falls + 1)
    case _ => n
  }

  function JointStep(j: Joint, enabled: bool, e: Event): Joint {
    match e
    case Arrives(f) => j.(s := Step(j.s, enabled, Arrive(f)))
    case Callback => j.(s := Step(j.s, enabled, RunRx))
    case Controls(now, fallback) => ControlStep(j, enabled, now, fallback)
  }

  function JointRun(enabled: bool, es: seq<Event>): Joint
    decreases |es|
  {
    if |es| == 0 then START else JointStep(JointRun(enabled, es[..|es| - 1]), enabled, es[|es| - 1])
  }

  // ---- light and timer ----------------------------------------------------------------------

  /** What the timer has come to over the wakes so far. */
  function TimerOf(j: Joint): F.Timer {
    F.Run(F.INITIAL, j.wakes)
  }

  /** The controller's variables and the timer, wherever the controller is in its loop. */
  predicate InTime(j: Joint) {
    var c, t, own := j.s.c, TimerOf(j), F.Timer(j.lastSeen, j.s.c.atDefault);
    match c.at
    case Checking => own == F.Refreshed(t, F.Wake(j.cause, j.handled, j.handled, 0))
    case FallShow => t == own.(atDefault := true) && !c.atDefault
    case FallMark => t == own.(atDefault := true) && !c.atDefault
    case FallForget => t == own && c.atDefault
    case _ => own == t
  }

  /** A live light shows the last colour. */
  predicate ShowsColour(j: Joint) {
    var c := j.s.c;
    && (c.at.Lit? ==> c.lit == c.at.light)
    && (!c.atDefault && !c.at.Lit? && !c.at.FallMark? ==> c.lit == j.colour)
  }

  predicate JointInv(j: Joint) {
    InTime(j) && ShowsColour(j) && RestsRight(j.s.c)
  }

  lemma OneMoreWake(j: Joint, w: F.Wake)
    ensures F.Run(F.INITIAL, j.wakes + [w]) == F.Serve(TimerOf(j), w)
  {
    assert (j.wakes + [w])[..|j.wakes|] == j.wakes;
  }

  /** A wake that ends, with the timer not run out or run out. */
  lemma CheckedInTime(j: Joint, enabled: bool, now: nat, fallback: nat)
    requires InTime(j) && j.s.c.at.Checking?
    ensures InTime(ControlStep(j, enabled, now, fallback))
  {
    OneMoreWake(j, F.Wake(j.cause, j.handled, now, fallback));
    SameRefresh(TimerOf(j), j.cause, j.handled, now, fallback);
    hide F.Run, F.Refreshed, T.U32;
  }

  /** What a wake refreshes does not depend on when it is checked. */
  lemma SameRefresh(t: F.Timer, cause: F.Cause, handled: nat, checked: nat, fallback: nat)
    ensures F.Refreshed(t, F.Wake(cause, handled, handled, 0)) == F.Refreshed(t, F.Wake(cause, handled, checked, fallback))
  {
    hide T.U32;
  }

  /** Every other step of the controller. */
  lemma ControlInTime(j: Joint, enabled: bool, now: nat, fallback: nat)
    requires InTime(j) && !j.s.c.at.Checking?
    ensures InTime(ControlStep(j, enabled, now, fallback))
  {
    var t := TimerOf(j);
    assert TimerOf(ControlStep(j, enabled, now, fallback)) == t by {
      hide F.Run, T.U32, CtlStep;
    }
    hide F.Run, TimerOf, T.U32, TimerSays;
  }

  lemma ControlShowsColour(j: Joint, enabled: bool, now: nat, fallback: nat)
    requires ShowsColour(j) && InTime(j)
    ensures ShowsColour(ControlStep(j, enabled, now, fallback))
  {
    hide F.Run, F.Refreshed, T.U32, TimerSays;
  }

  lemma ControlKeepsInv(j: Joint, enabled: bool, now: nat, fallback: nat)
    requires JointInv(j)
    ensures JointInv(ControlStep(j, enabled, now, fallback))
  {
    StepRestsRight(j.s, enabled, RunCtl(TimerSays(j.lastSeen, now, fallback)));
    ControlState(j, enabled, now, fallback);
    hide RestsRight, InTime, ShowsColour, ControlStep, Step;
    ControlShowsColour(j, enabled, now, fallback);
    if j.s.c.at.Checking? {
      CheckedInTime(j, enabled, now, fallback);
    } else {
      ControlInTime(j, enabled, now, fallback);
    }
  }

  lemma ControlState(j: Joint, enabled: bool, now: nat, fallback: nat)
    ensures ControlStep(j, enabled, now, fallback).s == Step(j.s, enabled, RunCtl(TimerSays(j.lastSeen, now, fallback)))
  {
    hide CtlStep, TimerSays, T.U32;
  }

  lemma CallbackKeepsInv(j: Joint, enabled: bool, a: Action)
    requires JointInv(j) && !a.RunCtl?
    ensures JointInv(j.(s := Step(j.s, enabled, a)))
  {
    RxLeavesController(j.s, enabled);
    hide RxStep;
  }

  lemma {:induction false} JointRunKeepsInv(enabled: bool, es: seq<Event>)
    ensures JointInv(JointRun(enabled, es))
    decreases |es|
  {
    if |es| > 0 {
      var j := JointRun(enabled, es[..|es| - 1]);
      JointRunKeepsInv(enabled, es[..|es| - 1]);
      hide JointInv, Step, ControlStep;
      match es[|es| - 1] {
        case Arrives(f) => CallbackKeepsInv(j, enabled, Arrive(f));
        case Callback => CallbackKeepsInv(j, enabled, RunRx);
        case Controls(now, fallback) => ControlKeepsInv(j, enabled, now, fallback);
      }
    }
  }

  /**
   Over every run: between two wakes the light shows the default colour, as configured by then, if the
   timer has run out, and the last colour if it has not.
  */
  lemma LightFollowsTimer(enabled: bool, es: seq<Event>)
    ensures var j := JointRun(enabled, es); j.s.c.at.Waiting? ==>
              && j.s.c.atDefault == TimerOf(j).atDefault
              && j.s.c.lit == if TimerOf(j).atDefault then Default(j.s.c.config) else j.colour
  {
    JointRunKeepsInv(enabled, es);
    hide JointRun, F.Run;
  }

  /**
   A source that goes silent after wake k - 1, in wakes that come in time: the light is the default colour
   once some check was at or past the deadline, and still the last colour before.
  */
  lemma SilenceShowsDefault(enabled: bool, es: seq<Event>, k: nat)
    requires var j := JointRun(enabled, es);
      && j.s.c.at.Waiting? && k <= |j.wakes| && F.Timely(j.wakes) && F.Silent(j.wakes, k) && F.RefRun(j.wakes[..k]).At?
    ensures var j := JointRun(enabled, es);
      j.s.c.lit == if F.SomeCheckLate(j.wakes, k, F.RefRun(j.wakes[..k]).last) then Default(j.s.c.config) else j.colour
  {
    LightFollowsTimer(enabled, es);
    var j := JointRun(enabled, es);
    hide JointRun, F.Run, F.RefRun;
    F.SilentSourceReverts(j.wakes, k);
  }

  // ---- the controller -------------------------------------------------------------------------

  /** Receive, and show a colour if that is what came. */
  function Received(j: Joint, enabled: bool, now: nat, fallback: nat): Joint {
    var taken := ControlStep(j, enabled, now, fallback);
    if taken.s.c.at.Hand? then ControlStep(ControlStep(taken, enabled, now, fallback), enabled, now, fallback) else taken
  }

  /** Check the timer, and fall back if it says so. */
  function Looked(j: Joint, enabled: bool, now: nat, fallback: nat): Joint {
    var looked := ControlStep(j, enabled, now, fallback);
    if looked.s.c.at.FallShow? then
      ControlStep(ControlStep(ControlStep(looked, enabled, now, fallback), enabled, now, fallback), enabled, now, fallback)
    else looked
  }

  /** One wake with nothing in between. */
  function Served(j: Joint, enabled: bool, handled: nat, checked: nat, fallback: nat): Joint {
    var received := Received(j, enabled, handled, fallback);
    if received.s.c.at.Gone? then received else Looked(received, enabled, checked, fallback)
  }

  /** One turn of the loop, and the messages that came in before it. */
  datatype Turned = Turned(arrived: seq<Msg>, handled: nat, checked: nat, fallback: nat)

  function Queued(j: Joint, ms: seq<Msg>): Joint {
    j.(s := j.s.(queue := j.s.queue + ms))
  }

  /** Turn after turn, until it reboots or hands over. */
  function Turns(enabled: bool, ts: seq<Turned>): Joint
    decreases |ts|
  {
    if |ts| == 0 then START else
      var j, t := Turns(enabled, ts[..|ts| - 1]), ts[|ts| - 1];
      if j.s.c.at.Gone? then j else Served(Queued(j, t.arrived), enabled, t.handled, t.checked, t.fallback)
  }

  lemma ServedKeepsInv(j: Joint, enabled: bool, handled: nat, checked: nat, fallback: nat)
    requires JointInv(j)
    ensures JointInv(Served(j, enabled, handled, checked, fallback))
  {
    hide JointInv, ControlStep;
    forall k: Joint, now: nat | JointInv(k)
      ensures JointInv(ControlStep(k, enabled, now, fallback))
    {
      ControlKeepsInv(k, enabled, now, fallback);
    }
  }

  lemma QueuedKeepsInv(j: Joint, ms: seq<Msg>)
    requires JointInv(j)
    ensures JointInv(Queued(j, ms))
  {
    hide F.Run, F.Refreshed;
  }

  /** Turn after turn the controller's variables are those of the timer over the wakes there were. */
  lemma {:induction false} TurnsKeepInv(enabled: bool, ts: seq<Turned>)
    ensures JointInv(Turns(enabled, ts))
    decreases |ts|
  {
    if |ts| > 0 {
      var j, t := Turns(enabled, ts[..|ts| - 1]), ts[|ts| - 1];
      TurnsKeepInv(enabled, ts[..|ts| - 1]);
      hide JointInv, Served, Queued;
      QueuedKeepsInv(j, t.arrived);
      ServedKeepsInv(Queued(j, t.arrived), enabled, t.handled, t.checked, t.fallback);
    }
  }

  class Controller {
    const enabled: bool
    var lit: Light
    var atDefault: bool
    var config: nat
    var lastSeen: nat
    var falls: nat
    var queue: seq<Msg>
    var forget: bool

    constructor (enabled: bool)
      ensures this.enabled == enabled && Is(START, Waiting)
    {
      this.enabled := enabled;
      lit, atDefault, config, lastSeen, falls, queue, forget := Default(0), true, 0, 0, 0, [], false;
    }

    /** The variables are those of j. */
    ghost predicate Is(j: Joint, at: Ctl)
      reads this
    {
      && j.s.c == CtlVars(lit, atDefault, at, config) && j.lastSeen == lastSeen && j.falls == falls
      && j.s.queue == queue && j.s.forget == forget
    }

    /** controller_task from its start, with the messages of each turn as they come. */
    method Loop(ts: seq<Turned>) returns (running: bool)
      requires Is(START, Waiting)
      modifies this
      ensures Is(Turns(enabled, ts), if running then Waiting else Gone)
      ensures JointInv(Turns(enabled, ts))
    {
      TurnsKeepInv(enabled, ts);
      hide *;
      TurnsFrom(enabled, ts, 0);
      running := true;
      for i := 0 to |ts|
        invariant Is(Turns(enabled, ts[..i]), if running then Waiting else Gone)
      {
        TurnsFrom(enabled, ts, i);
        ghost var j := Turns(enabled, ts[..i]);
        IsAt(j, if running then Waiting else Gone);
        if running {
          Enqueue(ts[i].arrived, j);
          running := Turn(ts[i].handled, ts[i].checked, ts[i].fallback, Queued(j, ts[i].arrived));
        }
      }
      assert ts[..|ts|] == ts;
    }

    method Enqueue(ms: seq<Msg>, ghost j: Joint)
      requires Is(j, Waiting)
      modifies `queue
      ensures Is(Queued(j, ms), Waiting)
    {
      queue := queue + ms;
    }

    /** One turn of controller_task's loop; false when it reboots or hands over. */
    method Turn(handled: nat, checked: nat, fallback: nat, ghost j: Joint) returns (running: bool)
      requires Is(j, Waiting)
      modifies this
      ensures Is(Served(j, enabled, handled, checked, fallback), if running then Waiting else Gone)
    {
      hide *;
      ghost var received := Received(j, enabled, handled, fallback);
      running := Take(handled, fallback, j);
      ServedParts(j, enabled, handled, checked, fallback);
      IsAt(received, if running then Checking else Gone);
      if running {
        Look(checked, fallback, received);
      }
    }

    lemma IsAt(j: Joint, at: Ctl)
      requires Is(j, at)
      ensures j.s.c.at == at
    {
    }

    method Take(handled: nat, fallback: nat, ghost j: Joint) returns (running: bool)
      requires Is(j, Waiting)
      modifies this
      ensures Is(Received(j, enabled, handled, fallback), if running then Checking else Gone)
    {
      hide T.U32;
      running := true;
      if |queue| > 0 {
        var msg := queue[0];
        queue := queue[1..];
        match msg {
          case Reboot => return false;
          case Dfu2 => return false;
          case SetConfig(d, stored) =>
            if stored && d.Some? {
              config := d.value;
              if atDefault {
                lit := Default(config);
              }
            }
          case KeepAlive =>
            if !atDefault {
              lastSeen := T.U32(handled);
            }
          case Colour(l) =>
            if !l.Lemtone? || enabled {
              lit, lastSeen, atDefault := l, T.U32(handled), false;
            }
        }
      }
    }

    method Look(checked: nat, fallback: nat, ghost j: Joint)
      requires Is(j, Checking)
      modifies this
      ensures Is(Looked(j, enabled, checked, fallback), Waiting)
    {
      hide T.U32;
      if !atDefault {
        var now := T.U32(checked);
        if T.U32(now - lastSeen) >= fallback {
          lit := Default(config);
          atDefault := true;
          falls := falls + 1;
          forget := true;
        }
      }
    }
  }

  lemma ServedParts(j: Joint, enabled: bool, handled: nat, checked: nat, fallback: nat)
    ensures var received := Received(j, enabled, handled, fallback);
      Served(j, enabled, handled, checked, fallback)
      == if received.s.c.at == Gone then received else Looked(received, enabled, checked, fallback)
  {
    hide Received, Looked;
  }

  lemma TurnsFrom(enabled: bool, ts: seq<Turned>, i: nat)
    requires i <= |ts|
    ensures Turns(enabled, ts[..0]) == START
    ensures i < |ts| ==>
              var j, t := Turns(enabled, ts[..i]), ts[i];
              Turns(enabled, ts[..i + 1])
              == if j.s.c.at == Gone then j else Served(Queued(j, t.arrived), enabled, t.handled, t.checked, t.fallback)
  {
    hide Served, Queued;
    if i < |ts| {
      assert ts[..i + 1][..i] == ts[..i];
    }
  }
}
