/**
 The RX callback and the controller task: two threads of control that share a bounded queue and
 one flag. Modelled as interleaved steps, one per read or write of shared state. Duplicate
 suppression is proved never to strand a light: what the callback remembers as applied really is
 the latest colour, unless the controller is telling it to forget.
*/
module LightLink {
  import opened Options

  const QUEUE_LENGTH: nat := 8

  /** What the PWM shows, or is asked to show. Default colours are numbered; 0 is the one configured at start-up. */
  datatype Light = Default(colour: nat) | Lemtone(word: nat) | Other(value: nat)

  /** A configuration write carries the new default colour if it touches one of its channels; `stored` says it succeeds. */
  datatype Msg = Colour(light: Light) | KeepAlive | SetConfig(colour: Option<nat>, stored: bool) | Reboot | Dfu2

  /** A frame the parser found valid. `EmptyFrame` is one with nothing for this light, as a colour table for others. */
  datatype Frame =
    | LemtoneFrame(word: nat)
    | ColourFrame(value: nat)
    | EmptyFrame
    | CommandFrame(number: nat, action: Command)
    | Dfu2Frame(sameBuild: bool)

  datatype Command = Nothing | DoReboot | DoConfig(colour: Option<nat>, stored: bool)

  /** Where the callback is in handle_frame. */
  datatype Rx =
    | Idle
    | Start(frame: Frame)        // about to read the forget flag, or to take a command
    | Clear(frame: Frame)        // read it set: about to clear it
    | Drop(frame: Frame)         // about to clear s_lt_have
    | Check(frame: Frame)        // about to compare with the remembered word
    | Keep                       // about to post a keep-alive
    | Post(word: nat)            // about to post a new Lemtone value
    | SetHave(word: nat)         // posted: about to set s_lt_have
    | SetWord(word: nat)         // about to set s_lt_word
    | SendColour(value: nat)     // s_lt_have cleared: about to post another colour

  /** Where the controller task is in its loop. */
  datatype Ctl =
    | Waiting
    | Hand(light: Light)         // colour received: PWM not driven yet
    | Lit(light: Light)          // PWM driven: at_default not cleared yet
    | Checking                   // about to look at the fallback timer
    | FallShow                   // timer expired: about to show the default
    | FallMark                   // about to set at_default
    | FallForget                 // about to tell the callback
    | Gone                       // rebooting, or handed over to DFU2

  /** Variables only the callback touches. */
  datatype RxVars = RxVars(have: bool, word: nat, seqSeen: bool, highest: nat, dfu2Notified: bool, at: Rx)

  /** Variables only the controller touches, the light it drives, and the default colour as configured. */
  datatype CtlVars = CtlVars(lit: Light, atDefault: bool, at: Ctl, config: nat)

  /** Both, and what they share. */
  datatype State = State(r: RxVars, c: CtlVars, queue: seq<Msg>, forget: bool)

  const INITIAL := State(RxVars(false, 0, false, 0, false, Idle), CtlVars(Default(0), true, Waiting, 0), [], false)

  /** xQueueSend with no wait: a full queue drops the message. */
  function Send(q: seq<Msg>, m: Msg): seq<Msg> {
    if |q| < QUEUE_LENGTH then q + [m] else q
  }

  function SendCommand(q: seq<Msg>, c: Command): seq<Msg> {
    match c
    case Nothing => q
    case DoReboot => Send(q, Reboot)
    case DoConfig(d, ok) => Send(q, SetConfig(d, ok))
  }

  // ---- the callback -----------------------------------------------------------------------

  /** One step of the callback; `enabled` is LEMTONE_ENABLED. */
  function RxStep(s: State, enabled: bool): State {
    match s.r.at
    case Idle => s
    case Start(f) => StartStep(s, f)
    case Clear(f) => s.(forget := false, r := s.r.(at := Drop(f)))
    case Drop(f) => s.(r := s.r.(have := false, at := Check(f)))
    case Check(f) => s.(r := CheckStep(s.r, f, enabled))
    case Keep => s.(queue := Send(s.queue, KeepAlive), r := s.r.(at := Idle))
    case Post(w) =>
      if |s.queue| < QUEUE_LENGTH then s.(queue := s.queue + [Colour(Lemtone(w))], r := s.r.(at := SetHave(w)))
      else s.(r := s.r.(at := Idle))
    case SetHave(w) => s.(r := s.r.(have := true, at := SetWord(w)))
    case SetWord(w) => s.(r := s.r.(word := w, at := Idle))
    case SendColour(v) => s.(queue := Send(s.queue, Colour(Other(v))), r := s.r.(at := Idle))
  }

  function StartStep(s: State, f: Frame): State {
    match f
    case Dfu2Frame(same) =>
      if s.r.dfu2Notified || same then s.(r := s.r.(at := Idle))
      else s.(queue := Send(s.queue, Dfu2), r := s.r.(dfu2Notified := true, at := Idle))
    case CommandFrame(number, action) =>
      if s.r.seqSeen && number <= s.r.highest then s.(r := s.r.(at := Idle))
      else s.(queue := SendCommand(s.queue, action), r := s.r.(seqSeen := true, highest := number, at := Idle))
    case _ => s.(r := s.r.(at := if s.forget then Clear(f) else Check(f)))
  }

  function CheckStep(r: RxVars, f: Frame, enabled: bool): RxVars {
    match f
    case LemtoneFrame(w) =>
      if !enabled then r.(at := Idle)
      else if r.have && w == r.word then r.(at := Keep)
      else r.(at := Post(w))
    case ColourFrame(v) => r.(have := false, at := SendColour(v))
    case EmptyFrame => r.(at := Idle)
    case CommandFrame(_, _) => r.(at := Idle)   // left in StartStep
    case Dfu2Frame(_) => r.(at := Idle)         // left in StartStep
  }

  // ---- the controller ---------------------------------------------------------------------

  /** One step of the controller; `expired` is what the timer comparison says when it is made. */
  function CtlStep(s: State, enabled: bool, expired: bool): State {
    var c := s.c;
    match c.at
    case Waiting =>
      if |s.queue| == 0 then s.(c := c.(at := Checking))
      else s.(queue := s.queue[1..], c := Receive(c, s.queue[0], enabled))
    case Hand(l) => s.(c := c.(lit := l, at := Lit(l)))
    case Lit(l) => s.(c := c.(atDefault := false, at := Checking))
    case Checking => s.(c := c.(at := if !c.atDefault && expired then FallShow else Waiting))
    case FallShow => s.(c := c.(lit := Default(c.config), at := FallMark))
    case FallMark => s.(c := c.(atDefault := true, at := FallForget))
    case FallForget => s.(forget := true, c := c.(at := Waiting))
    case Gone => s
  }

  function Receive(c: CtlVars, m: Msg, enabled: bool): CtlVars {
    match m
    case Colour(l) => if l.Lemtone? && !enabled then c.(at := Checking) else c.(at := Hand(l))
    case KeepAlive => c.(at := Checking)
    case SetConfig(d, ok) =>
      if ok && d.Some? then c.(lit := if c.atDefault then Default(d.value) else c.lit, config := d.value, at := Checking)
      else c.(at := Checking)
    case Reboot => c.(at := Gone)
    case Dfu2 => c.(at := Gone)
  }

  datatype Action = Arrive(frame: Frame) | RunRx | RunCtl(expired: bool)

  /** Any interleaving: a frame reaches an idle callback, or one side takes a step. */
  function Step(s: State, enabled: bool, a: Action): State {
    match a
    case Arrive(f) => if s.r.at.Idle? then s.(r := s.r.(at := Start(f))) else s
    case RunRx => RxStep(s, enabled)
    case RunCtl(expired) => CtlStep(s, enabled, expired)
  }

  function Run(s: State, enabled: bool, acts: seq<Action>): State
    decreases |acts|
  {
    if |acts| == 0 then s else Step(Run(s, enabled, acts[..|acts| - 1]), enabled, acts[|acts| - 1])
  }

  // ---- the latest colour ------------------------------------------------------------------

  function LastColour(q: seq<Msg>): Option<Light> {
    if |q| == 0 then None
    else if q[|q| - 1].Colour? then Some(q[|q| - 1].light)
    else LastColour(q[..|q| - 1])
  }

  function InHand(c: Ctl): Option<Light> {
    match c
    case Hand(l) => Some(l)
    case Lit(l) => Some(l)
    case _ => None
  }

  /** The colour the light ends up at if nothing more arrives: queued last, else in hand, else shown. */
  function Latest(q: seq<Msg>, c: CtlVars): Light {
    var queued := LastColour(q);
    if queued.Some? then queued.value else if InHand(c.at).Some? then InHand(c.at).value else c.lit
  }

  predicate Pending(q: seq<Msg>, c: CtlVars) {
    LastColour(q).Some? || InHand(c.at).Some?
  }

  predicate Falling(c: CtlVars) {
    c.at.FallShow? || c.at.FallMark? || c.at.FallForget?
  }

  /** The light is, or is about to be, Lemtone value w. */
  predicate Shows(q: seq<Msg>, c: CtlVars, w: nat) {
    Latest(q, c) == Lemtone(w) && (c.atDefault ==> Pending(q, c))
  }

  /** It is; or the callback has been, or is going to be, told to forget. */
  predicate Covered(q: seq<Msg>, c: CtlVars, forget: bool, w: nat) {
    forget || Falling(c) || Shows(q, c, w)
  }

  predicate LitIsShown(c: CtlVars) {
    c.at.Lit? ==> c.lit == c.at.light
  }

  /** What the callback may rely on at each of its steps. */
  predicate RxInv(r: RxVars, q: seq<Msg>, c: CtlVars, forget: bool) {
    match r.at
    case Drop(_) => true
    case Clear(_) => true
    case SetHave(w) => Covered(q, c, forget, w)
    case SetWord(w) => r.have && Covered(q, c, forget, w)
    case SendColour(_) => !r.have
    case _ => r.have ==> Covered(q, c, forget, r.word)
  }

  /** Without a Lemtone model the callback never remembers anything. */
  predicate Disabled(r: RxVars) {
    !r.have && !r.at.Post? && !r.at.SetHave? && !r.at.SetWord?
  }

  /** What holds between any two steps. */
  predicate Inv(s: State, enabled: bool) {
    && |s.queue| <= QUEUE_LENGTH && LitIsShown(s.c)
    && RxInv(s.r, s.queue, s.c, s.forget)
    && (enabled || Disabled(s.r))
  }

  lemma LastColourSent(q: seq<Msg>, m: Msg)
    ensures LastColour(q + [m]) == if m.Colour? then Some(m.light) else LastColour(q)
  {
    assert (q + [m])[..|q|] == q;
  }

  lemma {:induction false} LastColourReceived(q: seq<Msg>)
    requires |q| > 0
    ensures LastColour(q) == if LastColour(q[1..]).Some? then LastColour(q[1..])
                             else if q[0].Colour? then Some(q[0].light) else None
    decreases |q|
  {
    if |q| > 1 {
      LastColourReceived(q[..|q| - 1]);
      assert q[1..][..|q| - 2] == q[..|q| - 1][1..];
    }
  }

  lemma NoticeKeepsCovered(q: seq<Msg>, c: CtlVars, forget: bool, w: nat, m: Msg)
    requires !m.Colour?
    ensures Covered(Send(q, m), c, forget, w) == Covered(q, c, forget, w)
  {
    LastColourSent(q, m);
  }

  lemma PostCovers(q: seq<Msg>, c: CtlVars, forget: bool, w: nat)
    ensures Covered(q + [Colour(Lemtone(w))], c, forget, w)
  {
    LastColourSent(q, Colour(Lemtone(w)));
  }

  /** Taking a message out of the queue and into hand changes neither the latest colour nor that one is pending. */
  lemma ReceiveKeepsShows(q: seq<Msg>, c: CtlVars, w: nat)
    requires |q| > 0 && c.at.Waiting? && Shows(q, c, w)
    ensures Shows(q[1..], Receive(c, q[0], true), w)
  {
    LastColourReceived(q);
    hide LastColour;
  }

  /** The controller keeps every value covered that was covered, wherever the callback is. */
  lemma CtlKeepsCovered(s: State, expired: bool, w: nat)
    requires Covered(s.queue, s.c, s.forget, w) && LitIsShown(s.c)
    ensures var t := CtlStep(s, true, expired); Covered(t.queue, t.c, t.forget, w)
  {
    if s.c.at.Waiting? && |s.queue| > 0 && Shows(s.queue, s.c, w) {
      ReceiveKeepsShows(s.queue, s.c, w);
    }
    hide LastColour, Receive;
  }

  lemma CtlShape(s: State, enabled: bool, expired: bool)
    requires |s.queue| <= QUEUE_LENGTH && LitIsShown(s.c)
    ensures var t := CtlStep(s, enabled, expired);
      t.r == s.r && |t.queue| <= QUEUE_LENGTH && LitIsShown(t.c)
  {
  }

  lemma CtlKeepsInv(s: State, enabled: bool, expired: bool)
    requires Inv(s, enabled)
    ensures Inv(CtlStep(s, enabled, expired), enabled)
  {
    CtlShape(s, enabled, expired);
    hide Covered, CtlStep, LitIsShown;
    if enabled {
      forall w: nat | Covered(s.queue, s.c, s.forget, w)
        ensures var t := CtlStep(s, true, expired); Covered(t.queue, t.c, t.forget, w)
      {
        CtlKeepsCovered(s, expired, w);
      }
    }
  }

  lemma StartKeepsInv(s: State, enabled: bool, f: Frame)
    requires Inv(s, enabled) && s.r.at == Start(f)
    ensures Inv(StartStep(s, f), enabled)
  {
    hide Covered, LitIsShown;
    NoticeKeepsCovered(s.queue, s.c, s.forget, s.r.word, Dfu2);
    NoticeKeepsCovered(s.queue, s.c, s.forget, s.r.word, Reboot);
    if f.CommandFrame? && f.action.DoConfig? {
      NoticeKeepsCovered(s.queue, s.c, s.forget, s.r.word, SetConfig(f.action.colour, f.action.stored));
    }
  }

  lemma RxKeepsInv(s: State, enabled: bool)
    requires Inv(s, enabled)
    ensures Inv(RxStep(s, enabled), enabled)
  {
    hide Covered, LitIsShown, StartStep;
    match s.r.at {
      case Start(f) => StartKeepsInv(s, enabled, f);
      case Keep => NoticeKeepsCovered(s.queue, s.c, s.forget, s.r.word, KeepAlive);
      case Post(w) => PostCovers(s.queue, s.c, s.forget, w);
      case _ =>
    }
  }

  lemma StepKeepsInv(s: State, enabled: bool, a: Action)
    requires Inv(s, enabled)
    ensures Inv(Step(s, enabled, a), enabled)
  {
    hide Covered, LitIsShown, RxStep, CtlStep;
    match a {
      case Arrive(f) =>
      case RunRx => RxKeepsInv(s, enabled);
      case RunCtl(expired) => CtlKeepsInv(s, enabled, expired);
    }
  }

  lemma {:induction false} RunKeepsInv(enabled: bool, acts: seq<Action>)
    ensures Inv(Run(INITIAL, enabled, acts), enabled)
    decreases |acts|
  {
    if |acts| > 0 {
      RunKeepsInv(enabled, acts[..|acts| - 1]);
      StepKeepsInv(Run(INITIAL, enabled, acts[..|acts| - 1]), enabled, acts[|acts| - 1]);
    }
  }

  /**
   Whatever the interleaving: with the callback idle, a remembered value and no forget request,
   the latest colour is that value, and the light is not left at the default with nothing queued.
   The one exception is a controller that is in the middle of falling back.
  */
  lemma NeverStranded(enabled: bool, acts: seq<Action>)
    requires var s := Run(INITIAL, enabled, acts); s.r.at.Idle? && s.r.have && !s.forget && !Falling(s.c)
    ensures var s := Run(INITIAL, enabled, acts);
      && |s.queue| <= QUEUE_LENGTH
      && Latest(s.queue, s.c) == Lemtone(s.r.word)
      && (s.c.atDefault ==> Pending(s.queue, s.c))
      && (!Pending(s.queue, s.c) ==> s.c.lit == Lemtone(s.r.word) && !s.c.atDefault)
  {
    RunKeepsInv(enabled, acts);
    hide Run;
  }

  // ---- resting at the default ---------------------------------------------------------------

  /** Resting means showing the default colour, as it is configured now; so does the last step before resting. */
  predicate RestsRight(c: CtlVars) {
    && (c.atDefault && !c.at.Lit? ==> c.lit == Default(c.config))
    && (c.at.FallMark? ==> c.lit == Default(c.config))
  }

  lemma StepRestsRight(s: State, enabled: bool, a: Action)
    requires RestsRight(s.c)
    ensures RestsRight(Step(s, enabled, a).c)
  {
    hide RxStep;
    if a.RunRx? {
      RxLeavesController(s, enabled);
    }
  }

  lemma RxLeavesController(s: State, enabled: bool)
    ensures RxStep(s, enabled).c == s.c
  {
  }

  /**
   Whatever the interleaving: from start-up on, at every fallback and through every change of the
   configuration, a light that rests at the default shows the default colour configured by then.
  */
  lemma {:induction false} RestingShowsDefault(enabled: bool, acts: seq<Action>)
    ensures RestsRight(Run(INITIAL, enabled, acts).c)
    decreases |acts|
  {
    if |acts| > 0 {
      RestingShowsDefault(enabled, acts[..|acts| - 1]);
      StepRestsRight(Run(INITIAL, enabled, acts[..|acts| - 1]), enabled, acts[|acts| - 1]);
    }
  }

  // ---- repeats after a forget request -----------------------------------------------------

  /** The callback is inside a frame with word w that it saw, or will see, the forget request for. */
  predicate Fresh(s: State, w: nat) {
    match s.r.at
    case Start(f) => f == LemtoneFrame(w) && s.forget
    case Clear(f) => f == LemtoneFrame(w)
    case Drop(f) => f == LemtoneFrame(w)
    case Check(f) => f == LemtoneFrame(w) && !s.r.have
    case Post(v) => v == w
    case SetHave(v) => v == w
    case SetWord(v) => v == w
    case _ => false
  }

  /** The step that ends such a frame: its value is queued and remembered, or the queue is full. */
  predicate Finishes(s: State, w: nat, a: Action) {
    a.RunRx? && (s.r.at == SetWord(w) || (s.r.at == Post(w) && |s.queue| >= QUEUE_LENGTH))
  }

  lemma FreshStep(s: State, w: nat, a: Action)
    requires Fresh(s, w)
    ensures Fresh(Step(s, true, a), w) || Finishes(s, w, a)
  {
    hide Receive;
  }

  /**
   A frame that arrives after the forget request was set is never dropped as a repeat, however the
   controller's steps fall: it is still being handled, or it ended at step k by being queued and
   remembered, or for want of room in the queue.
  */
  lemma {:induction false} ForgottenRepeatIsPosted(s: State, w: nat, acts: seq<Action>) returns (k: nat)
    requires Fresh(s, w)
    ensures k <= |acts|
    ensures Fresh(Run(s, true, acts[..k]), w)
    ensures k < |acts| ==> Finishes(Run(s, true, acts[..k]), w, acts[k])
    decreases |acts|
  {
    if |acts| == 0 {
      k := 0;
    } else {
      var n := |acts| - 1;
      k := ForgottenRepeatIsPosted(s, w, acts[..n]);
      assert acts[..n][..k] == acts[..k];
      if k == n {
        var t := Run(s, true, acts[..n]);
        FreshStep(t, w, acts[n]);
        if !Finishes(t, w, acts[n]) {
          assert acts[..n + 1] == acts;
          k := n + 1;
        }
      }
    }
  }

  // ---- commands are not retried -----------------------------------------------------------

  /** Highest sequence number taken and the DFU2 latch only ever go up. */
  predicate NotBefore(r: RxVars, t: RxVars) {
    (r.seqSeen ==> t.seqSeen && r.highest <= t.highest) && (r.dfu2Notified ==> t.dfu2Notified)
  }

  lemma StepMovesOn(s: State, enabled: bool, a: Action)
    ensures NotBefore(s.r, Step(s, enabled, a).r)
  {
    hide Receive, SendCommand;
  }

  lemma {:induction false} RunMovesOn(s: State, enabled: bool, acts: seq<Action>)
    ensures NotBefore(s.r, Run(s, enabled, acts).r)
    decreases |acts|
  {
    if |acts| > 0 {
      RunMovesOn(s, enabled, acts[..|acts| - 1]);
      StepMovesOn(Run(s, enabled, acts[..|acts| - 1]), enabled, acts[|acts| - 1]);
      hide Step;
    }
  }

  /**
   A first sighting is queued exactly when there is room, and either way its number is spent: no
   later retransmission, in any interleaving, ever queues it. So a command dropped for want of
   room is lost, whatever the header comments say about retransmits.
  */
  lemma CommandHasOneChance(s: State, enabled: bool, number: nat, action: Command, acts: seq<Action>)
    requires s.r.at == Start(CommandFrame(number, action)) && action != Nothing
    requires s.r.seqSeen ==> s.r.highest < number
    ensures var t := RxStep(s, enabled);
      && (|s.queue| < QUEUE_LENGTH <==> t.queue != s.queue)
      && (|s.queue| < QUEUE_LENGTH ==>
            t.queue == s.queue + [if action.DoReboot? then Reboot else SetConfig(action.colour, action.stored)])
      && var u := Run(t, enabled, acts);
      && (u.r.at == Start(CommandFrame(number, action)) ==> RxStep(u, enabled).queue == u.queue)
  {
    RunMovesOn(RxStep(s, enabled), enabled, acts);
    hide Run;
  }

  /** The same for an update request: the latch is set even when the post is dropped. */
  lemma Dfu2HasOneChance(s: State, enabled: bool, acts: seq<Action>)
    requires s.r.at == Start(Dfu2Frame(false)) && !s.r.dfu2Notified
    ensures var t := RxStep(s, enabled);
      && (|s.queue| < QUEUE_LENGTH <==> t.queue != s.queue)
      && var u := Run(t, enabled, acts);
      && (u.r.at == Start(Dfu2Frame(false)) ==> RxStep(u, enabled).queue == u.queue)
  {
    RunMovesOn(RxStep(s, enabled), enabled, acts);
    hide Run;
  }

  // ---- the two routines -------------------------------------------------------------------

  /** The callback run to completion, nothing in between. */
  function Settle(s: State, enabled: bool, n: nat): State
    decreases n
  {
    if n == 0 then s else Settle(RxStep(s, enabled), enabled, n - 1)
  }

  const FRAME_STEPS: nat := 7

  lemma SettleStep(s: State, enabled: bool, n: nat)
    requires n > 0
    ensures Settle(s, enabled, n) == Settle(RxStep(s, enabled), enabled, n - 1)
  {
  }

  lemma {:induction false} SettledStays(s: State, enabled: bool, n: nat)
    requires s.r.at.Idle?
    ensures Settle(s, enabled, n) == s
    decreases n
  {
    if n > 0 {
      SettledStays(s, enabled, n - 1);
    }
  }

  /** Light frames go on to the forget flag; the others end in the first step. */
  predicate LightFrame(f: Frame) {
    f.LemtoneFrame? || f.ColourFrame? || f.EmptyFrame?
  }

  /** What is left of a light frame once the forget flag is dealt with. */
  function ColourDone(s: State, f: Frame, enabled: bool): State {
    match f
    case LemtoneFrame(w) =>
      if !enabled then s.(r := s.r.(at := Idle))
      else if s.r.have && w == s.r.word then s.(queue := Send(s.queue, KeepAlive), r := s.r.(at := Idle))
      else if |s.queue| < QUEUE_LENGTH then
        s.(queue := s.queue + [Colour(Lemtone(w))], r := s.r.(have := true, word := w, at := Idle))
      else s.(r := s.r.(at := Idle))
    case ColourFrame(v) => s.(queue := Send(s.queue, Colour(Other(v))), r := s.r.(have := false, at := Idle))
    case _ => s.(r := s.r.(at := Idle))
  }

  lemma LemtoneSettles(s: State, w: nat, enabled: bool, n: nat)
    requires s.r.at == Check(LemtoneFrame(w)) && n >= 4
    ensures Settle(s, enabled, n) == ColourDone(s, LemtoneFrame(w), enabled)
  {
    var t := RxStep(s, enabled);
    SettleStep(s, enabled, n);
    if t.r.at.Idle? {
      SettledStays(t, enabled, n - 1);
    } else {
      var u := RxStep(t, enabled);
      SettleStep(t, enabled, n - 1);
      if u.r.at.Idle? {
        SettledStays(u, enabled, n - 2);
      } else {
        PostedSettles(u, w, enabled, n - 2);
      }
    }
  }

  lemma PostedSettles(s: State, w: nat, enabled: bool, n: nat)
    requires s.r.at == SetHave(w) && n >= 2
    ensures Settle(s, enabled, n) == s.(r := s.r.(have := true, word := w, at := Idle))
  {
    var t := RxStep(s, enabled);
    SettleStep(s, enabled, n);
    SettleStep(t, enabled, n - 1);
    SettledStays(RxStep(t, enabled), enabled, n - 2);
  }

  lemma ColourSettles(s: State, f: Frame, enabled: bool, n: nat)
    requires s.r.at == Check(f) && LightFrame(f) && n >= 4
    ensures Settle(s, enabled, n) == ColourDone(s, f, enabled)
  {
    if f.LemtoneFrame? {
      LemtoneSettles(s, f.word, enabled, n);
    } else {
      var t := RxStep(s, enabled);
      SettleStep(s, enabled, n);
      if f.EmptyFrame? {
        SettledStays(t, enabled, n - 1);
      } else {
        SettleStep(t, enabled, n - 1);
        SettledStays(RxStep(t, enabled), enabled, n - 2);
      }
    }
  }

  /** The callback run through a light frame, the forget flag first. */
  lemma FrameSettles(s: State, f: Frame, enabled: bool)
    requires s.r.at.Idle? && LightFrame(f)
    ensures var met := if s.forget then s.(forget := false, r := s.r.(have := false, at := Check(f)))
                       else s.(r := s.r.(at := Check(f)));
      Settle(Step(s, enabled, Arrive(f)), enabled, FRAME_STEPS) == ColourDone(met, f, enabled)
  {
    var a := s.(r := s.r.(at := Start(f)));
    assert Step(s, enabled, Arrive(f)) == a;
    SettleStep(a, enabled, 7);
    if s.forget {
      ForgetsFirst(a, enabled, f);
      ColourSettles(s.(forget := false, r := s.r.(have := false, at := Check(f))), f, enabled, 4);
    } else {
      ColourSettles(s.(r := s.r.(at := Check(f))), f, enabled, 6);
    }
  }

  /** Three steps of the controller in which the timer does not run out. */
  function ThreeControls(s: State, enabled: bool): State {
    CtlStep(CtlStep(CtlStep(s, enabled, false), enabled, false), enabled, false)
  }

  /** A colour alone in the queue is on the light after three steps. */
  lemma QueuedIsShown(s: State, l: Light, enabled: bool)
    requires s.c.at.Waiting? && s.queue == [Colour(l)] && (l.Lemtone? ==> enabled)
    ensures ThreeControls(s, enabled).c.lit == l
  {
  }

  /** And a keep-alive leaves it. */
  lemma KeepAliveShowsOn(s: State, enabled: bool)
    requires s.c.at.Waiting? && s.queue == [KeepAlive]
    ensures ThreeControls(s, enabled).c.lit == s.c.lit
  {
  }

  lemma RepeatIsShown(s: State, enabled: bool)
    requires Inv(s, enabled) && s.r.at.Idle? && s.c.at.Waiting? && s.queue == [] && s.r.have && !s.forget
    ensures s.c.lit == Lemtone(s.r.word)
  {
  }

  /**
   A quiet light does what it is told: with both sides idle and the queue empty, whatever was remembered and
   whether or not a forget request is up, a frame's colour is shown once the callback has run through it
   and the controller has taken its three steps.
  */
  lemma FrameIsShown(s: State, f: Frame, enabled: bool)
    requires Inv(s, enabled) && s.r.at.Idle? && s.c.at.Waiting? && s.queue == []
    ensures var u := ThreeControls(Settle(Step(s, enabled, Arrive(f)), enabled, FRAME_STEPS), enabled);
      && (f.LemtoneFrame? && enabled ==> u.c.lit == Lemtone(f.word))
      && (f.ColourFrame? ==> u.c.lit == Other(f.value))
  {
    if LightFrame(f) {
      FrameSettles(s, f, enabled);
      var t := Settle(Step(s, enabled, Arrive(f)), enabled, FRAME_STEPS);
      hide Settle, Step, ThreeControls, Inv;
      if f.LemtoneFrame? && enabled {
        if s.r.have && !s.forget && s.r.word == f.word {
          RepeatIsShown(s, enabled);
          KeepAliveShowsOn(t, enabled);
        } else {
          QueuedIsShown(t, Lemtone(f.word), enabled);
        }
      } else if f.ColourFrame? {
        QueuedIsShown(t, Other(f.value), enabled);
      }
    }
  }

  /** The statics of sniffer.c, with the queue and the flag it shares. */
  class Sniffer {
    const enabled: bool
    var have: bool
    var word: nat
    var forget: bool
    var seqSeen: bool
    var highest: nat
    var dfu2Notified: bool
    var queue: seq<Msg>

    constructor (enabled: bool)
      ensures this.enabled == enabled && !have && !forget && !seqSeen && !dfu2Notified && queue == []
    {
      this.enabled := enabled;
      have, word, forget, seqSeen, highest, dfu2Notified, queue := false, 0, false, false, 0, false, [];
    }

    /** The state as the interleaving sees it, the callback being at `at` and the controller at c. */
    function View(c: CtlVars, at: Rx): State
      reads this
    {
      State(RxVars(have, word, seqSeen, highest, dfu2Notified, at), c, queue, forget)
    }

    method Post(m: Msg) returns (ok: bool)
      modifies this`queue
      ensures ok == (|old(queue)| < QUEUE_LENGTH) && queue == Send(old(queue), m)
    {
      ok := |queue| < QUEUE_LENGTH;
      if ok {
        queue := queue + [m];
      }
    }

    /** handle_frame, from the build check and the sequence gate down. */
    method HandleFrame(f: Frame, ghost c: CtlVars)
      requires |queue| <= QUEUE_LENGTH
      modifies this
      ensures |queue| <= QUEUE_LENGTH
      ensures View(c, Idle) == Settle(old(View(c, Start(f))), enabled, FRAME_STEPS)
    {
      ghost var s := View(c, Start(f));
      SettleStep(s, enabled, 7);
      if f.Dfu2Frame? || f.CommandFrame? {
        HandleCommand(f, c);
        SettledStays(View(c, Idle), enabled, 6);
        return;
      }
      ghost var n: nat := if forget then 4 else 6;
      if forget {
        forget := false;
        have := false;
        ForgetsFirst(s, enabled, f);
      }
      assert Settle(s, enabled, 7) == Settle(View(c, Check(f)), enabled, n);
      ColourSettles(View(c, Check(f)), f, enabled, n);
      HandleColour(f, c);
    }

    method HandleCommand(f: Frame, ghost c: CtlVars)
      requires (f.Dfu2Frame? || f.CommandFrame?) && |queue| <= QUEUE_LENGTH
      modifies this
      ensures |queue| <= QUEUE_LENGTH
      ensures View(c, Idle) == RxStep(old(View(c, Start(f))), enabled)
    {
      var ok: bool;
      if f.Dfu2Frame? {
        if dfu2Notified || f.sameBuild {
          return;
        }
        dfu2Notified := true;
        ok := Post(Dfu2);
        return;
      }
      if seqSeen && f.number <= highest {
        return;
      }
      highest, seqSeen := f.number, true;
      match f.action
      case Nothing =>
      case DoReboot => ok := Post(Reboot);
      case DoConfig(d, stored) => ok := Post(SetConfig(d, stored));
    }

    method HandleColour(f: Frame, ghost c: CtlVars)
      requires LightFrame(f) && |queue| <= QUEUE_LENGTH
      modifies this
      ensures |queue| <= QUEUE_LENGTH
      ensures View(c, Idle) == ColourDone(old(View(c, Check(f))), f, enabled)
    {
      var ok: bool;
      if f.LemtoneFrame? {
        if enabled {
          if have && f.word == word {
            ok := Post(KeepAlive);
          } else {
            ok := Post(Colour(Lemtone(f.word)));
            if ok {
              have := true;
              word := f.word;
            }
          }
        }
        return;
      }
      if f.ColourFrame? {
        have := false;
        ok := Post(Colour(Other(f.value)));
      }
    }
  }

  lemma ForgetsFirst(s: State, enabled: bool, f: Frame)
    requires s.forget && s.r.at == Start(f) && LightFrame(f)
    ensures Settle(s, enabled, 7) == Settle(s.(forget := false, r := s.r.(have := false, at := Check(f))), enabled, 4)
  {
    SettleStep(s, enabled, 7);
    SettleStep(RxStep(s, enabled), enabled, 6);
    SettleStep(RxStep(RxStep(s, enabled), enabled), enabled, 5);
  }
}
