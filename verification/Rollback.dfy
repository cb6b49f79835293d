/**
 The rollback guard of the ESP8266 build: a pending flag, a boot counter and the slot to go back to,
 each change committed on its own, with power loss possible between any two persisted changes.
*/
module Rollback {
  const THRESHOLD: nat := 3   // DFU_BOOT_FAIL_THRESHOLD

  /** The "dfu" namespace in NVS. */
  datatype Nvs = Nvs(pending: bool, bootcnt: nat, prev: nat)

  /** What the device is about to do next. */
  datatype Phase =
    | Off
    | ToCount            // boot check passed: commit the attempt, then start
    | ToRevert           // threshold reached: point the bootloader back
    | ToClear            // then clear the guard
    | ToRestart
    | Started            // past the check: normal operation
    | Loading(target: nat)  // an update is being written into a slot
    | ToMark             // new image accepted, boot slot switched: mark it pending
    | Marked             // reply sent, about to reboot into it

  /**
   boot and nvs survive power loss; slot is the image that is running. `armed`: the validation task of
   this boot has still to fire. Nothing ever stops it, so it fires whatever else is going on by then.
  */
  datatype State = State(boot: nat, nvs: Nvs, slot: nat, phase: Phase, armed: bool)

  /**
   Loss of power, the next thing the code does, the validation task, and the steps of an update: its
   first write into a slot, a failure of any kind, or the switch of the boot slot to what was written.
  */
  datatype Action = Loss | Next | Fire | Download(slot: nat) | Fail | Accept

  /** The update task always ends in a restart; the running slot is never its target. */
  function UpdateStep(s: State, a: Action): State {
    match a
    case Download(t) => if s.phase.Started? && t != s.slot then s.(phase := Loading(t)) else s
    case Fail => if s.phase.Started? || s.phase.Loading? then s.(phase := ToRestart) else s
    case Accept => if s.phase.Loading? then s.(boot := s.phase.target, phase := ToMark) else s
    case _ => s
  }

  /** `slots` are the app partitions that exist. */
  function Step(s: State, a: Action, slots: set<nat>): State {
    match a
    case Loss => s.(phase := Off, armed := false)
    case Fire => if s.armed then s.(nvs := s.nvs.(pending := false, bootcnt := 0), armed := false) else s
    case Next =>
      (match s.phase
       case Off =>
         s.(slot := s.boot, armed := !s.nvs.pending,
            phase := if !s.nvs.pending then Started else if s.nvs.bootcnt + 1 >= THRESHOLD then ToRevert else ToCount)
       case ToCount => s.(nvs := s.nvs.(bootcnt := s.nvs.bootcnt + 1), phase := Started, armed := true)
       case ToRevert => s.(boot := if s.nvs.prev in slots then s.nvs.prev else s.boot, phase := ToClear)
       case ToClear => s.(nvs := s.nvs.(pending := false, bootcnt := 0), phase := ToRestart)
       case ToRestart => s.(phase := Off, armed := false)
       case Started => s
       case Loading(_) => s
       case ToMark => s.(nvs := Nvs(true, 0, s.slot), phase := Marked)
       case Marked => s.(phase := Off, armed := false))
    case _ => UpdateStep(s, a)
  }

  function Run(s: State, acts: seq<Action>, slots: set<nat>): State
    decreases |acts|
  {
    if |acts| == 0 then s else Step(Run(s, acts[..|acts| - 1], slots), acts[|acts| - 1], slots)
  }

  /** A step that brings image t to normal operation. */
  predicate Starts(s: State, a: Action, slots: set<nat>, t: nat) {
    !s.phase.Started? && Step(s, a, slots).phase.Started? && Step(s, a, slots).slot == t
  }

  function StartCount(s: State, acts: seq<Action>, slots: set<nat>, t: nat): nat
    decreases |acts|
  {
    if |acts| == 0 then 0 else
      StartCount(s, acts[..|acts| - 1], slots, t)
      + if Starts(Run(s, acts[..|acts| - 1], slots), acts[|acts| - 1], slots, t) then 1 else 0
  }

  // ---- the counter ------------------------------------------------------------------------

  predicate CounterOk(s: State) {
    && (s.nvs.pending ==> s.nvs.bootcnt < THRESHOLD)
    && (s.phase.ToCount? ==> s.nvs.pending && s.nvs.bootcnt + 1 < THRESHOLD)
    && ArmedPastCheck(s)
  }

  /** No validation task is waiting before or during the boot check. */
  predicate ArmedPastCheck(s: State) {
    s.armed ==> !s.phase.Off? && !s.phase.ToCount? && !s.phase.ToRevert? && !s.phase.ToClear?
  }

  /** While an image is pending its boot count stays below the threshold, whatever the run. */
  lemma {:induction false} CounterStaysBelow(s: State, acts: seq<Action>, slots: set<nat>)
    requires CounterOk(s)
    ensures CounterOk(Run(s, acts, slots))
    decreases |acts|
  {
    if |acts| > 0 {
      CounterStaysBelow(s, acts[..|acts| - 1], slots);
    }
  }

  // ---- an image that is never validated ---------------------------------------------------

  /** Updates may be begun, but none is accepted. */
  predicate NoUpdate(acts: seq<Action>) {
    forall k :: 0 <= k < |acts| ==> acts[k] != Accept
  }

  /** The validation task never fires while image t is running. */
  predicate NeverValidated(s: State, acts: seq<Action>, slots: set<nat>, t: nat) {
    forall k :: 0 <= k < |acts| && acts[k] == Fire ==> Run(s, acts[..k], slots).slot != t
  }

  /** Just after the pending mark for image t was committed by the image in slot `good`. */
  predicate JustMarked(s: State, t: nat, good: nat) {
    s == State(t, Nvs(true, 0, good), good, Marked, s.armed)
  }

  /** Every state of such a run after a mark that the marking image's own validation can no longer undo. */
  predicate Guarded(s: State, t: nat, good: nat, starts: nat) {
    && s.nvs.prev == good && starts < THRESHOLD
    && (s.nvs.pending ==>
          && starts <= s.nvs.bootcnt < THRESHOLD
          && (s.boot == t || (s.boot == good && s.nvs.bootcnt + 1 == THRESHOLD)))
    && (!s.nvs.pending ==> s.boot == good)
    && (s.armed ==> s.phase.Started? || s.phase.Loading? || s.phase.ToRestart?)
    && match s.phase
       case Off => true
       case Marked => s.nvs.pending && s.nvs.bootcnt == 0
       case ToCount => s.nvs.pending && s.slot == t && s.boot == t && s.nvs.bootcnt + 1 < THRESHOLD
       case ToRevert => s.nvs.pending && s.nvs.bootcnt + 1 == THRESHOLD
       case ToClear => s.nvs.pending && s.boot == good && s.nvs.bootcnt + 1 == THRESHOLD
       case ToRestart => s.nvs.pending ==> s.slot == t
       case Started => if s.nvs.pending then s.slot == t else s.slot == good
       case Loading(_) => if s.nvs.pending then s.slot == t else s.slot == good
       case ToMark => false
  }

  lemma GuardedStep(s: State, a: Action, slots: set<nat>, t: nat, good: nat, starts: nat)
    requires good in slots && t != good && a != Accept && (a == Fire ==> s.slot != t) && Guarded(s, t, good, starts)
    ensures Guarded(Step(s, a, slots), t, good, starts + if Starts(s, a, slots, t) then 1 else 0)
  {
  }

  lemma NeverValidatedPrefix(s: State, acts: seq<Action>, slots: set<nat>, t: nat)
    requires |acts| > 0 && NeverValidated(s, acts, slots, t) && NoUpdate(acts)
    ensures NeverValidated(s, acts[..|acts| - 1], slots, t) && NoUpdate(acts[..|acts| - 1])
    ensures acts[|acts| - 1] == Fire ==> Run(s, acts[..|acts| - 1], slots).slot != t
  {
    var before := acts[..|acts| - 1];
    forall k | 0 <= k < |before| && before[k] == Fire
      ensures Run(s, before[..k], slots).slot != t
    {
      assert before[..k] == acts[..k];
    }
  }

  /**
   Once the marking image's validation task is done, the new image reaches normal operation at most
   twice unless it is validated, wherever power is lost and updates fail; and whenever the guard is
   no longer pending the boot slot is the one that was running when it was marked.
  */
  lemma {:induction false} UnvalidatedStartsTwice(s: State, acts: seq<Action>, slots: set<nat>, t: nat, good: nat)
    requires JustMarked(s, t, good) && !s.armed && good in slots && t != good
    requires NoUpdate(acts) && NeverValidated(s, acts, slots, t)
    ensures StartCount(s, acts, slots, t) <= THRESHOLD - 1
    ensures Guarded(Run(s, acts, slots), t, good, StartCount(s, acts, slots, t))
    ensures !Run(s, acts, slots).nvs.pending ==> Run(s, acts, slots).boot == good
    decreases |acts|
  {
    if |acts| > 0 {
      var before := acts[..|acts| - 1];
      NeverValidatedPrefix(s, acts, slots, t);
      UnvalidatedStartsTwice(s, before, slots, t, good);
      GuardedStep(Run(s, before, slots), acts[|acts| - 1], slots, t, good, StartCount(s, before, slots, t));
    }
  }

  /** k times: power on, start, lose power. */
  function Cycles(k: nat): seq<Action>
    decreases k
  {
    if k == 0 then [] else Cycles(k - 1) + [Next, Loss]
  }

  /** From power-on with nothing pending, the image in the boot slot starts as often as it is powered. */
  lemma {:induction false} UnguardedStarts(s: State, first: seq<Action>, slots: set<nat>, t: nat, k: nat)
    requires var u := Run(s, first, slots); u.phase.Off? && !u.nvs.pending && u.boot == t
    ensures var acts := first + Cycles(k);
      && StartCount(s, acts, slots, t) == StartCount(s, first, slots, t) + k
      && Run(s, acts, slots).phase.Off? && !Run(s, acts, slots).nvs.pending && Run(s, acts, slots).boot == t
    decreases k
  {
    var acts := first + Cycles(k);
    if k == 0 {
      assert acts == first;
    } else {
      UnguardedStarts(s, first, slots, t, k - 1);
      var before := first + Cycles(k - 1);
      assert acts == before + [Next, Loss];
      var one := before + [Next];
      assert acts[..|acts| - 1] == one && one[..|one| - 1] == before;
      assert acts[|acts| - 1] == Loss && one[|one| - 1] == Next;
    }
  }

  /** The old image's task fires between the mark and the restart, then the device is powered k times. */
  function LateFire(k: nat): seq<Action> {
    [Fire, Next] + Cycles(k)
  }

  lemma {:induction false} CyclesFireNothing(k: nat, j: nat)
    requires j < |Cycles(k)|
    ensures Cycles(k)[j] == Next || Cycles(k)[j] == Loss
    decreases k
  {
    if k > 0 && j < |Cycles(k - 1)| {
      CyclesFireNothing(k - 1, j);
    }
  }

  /**
   The failing run: the marking image's task is still to fire when the mark is committed, and fires
   before the restart. It clears the new image's mark, which then starts as often as it is powered,
   never validated, the guard clear.
  */
  lemma LateFireUnguards(s: State, t: nat, good: nat, slots: set<nat>, k: nat)
    requires JustMarked(s, t, good) && s.armed && t != good
    ensures NoUpdate(LateFire(k)) && NeverValidated(s, LateFire(k), slots, t)
    ensures StartCount(s, LateFire(k), slots, t) == k
    ensures !Run(s, LateFire(k), slots).nvs.pending && Run(s, LateFire(k), slots).boot == t
  {
    var first, acts := [Fire, Next], LateFire(k);
    assert first[..1] == [Fire] && [Fire][..0] == [];
    assert Run(s, [], slots) == s && StartCount(s, [Fire], slots, t) == 0;
    assert Run(s, [Fire], slots) == State(t, Nvs(false, 0, good), good, Marked, false);
    UnguardedStarts(s, first, slots, t, k);
    forall j | 0 <= j < |acts|
      ensures acts[j] != Accept && (acts[j] == Fire ==> j == 0)
    {
      if j >= 2 {
        CyclesFireNothing(k, j - 2);
      }
    }
    assert acts[..0] == [];
  }

  /** The mark keeps an unvalidated image to two starts in every run exactly if the marking image's task is done. */
  lemma MarkGuardsIff(s: State, slots: set<nat>, t: nat, good: nat)
    requires JustMarked(s, t, good) && good in slots && t != good
    ensures !s.armed <==> forall acts :: NoUpdate(acts) && NeverValidated(s, acts, slots, t) ==>
                            StartCount(s, acts, slots, t) <= THRESHOLD - 1
  {
    if s.armed {
      LateFireUnguards(s, t, good, slots, THRESHOLD);
    } else {
      forall acts | NoUpdate(acts) && NeverValidated(s, acts, slots, t)
        ensures StartCount(s, acts, slots, t) <= THRESHOLD - 1
      {
        UnvalidatedStartsTwice(s, acts, slots, t, good);
      }
    }
  }

  // ---- reverting --------------------------------------------------------------------------

  /** What is left when power goes. */
  function Kept(s: State): (nat, Nvs) {
    (s.boot, s.nvs)
  }

  /** Where a revert leads. */
  function Reverted(s: State): (nat, Nvs) {
    (s.nvs.prev, Nvs(false, 0, s.nvs.prev))
  }

  predicate RevertDue(s: State) {
    s.nvs.pending && s.nvs.bootcnt + 1 >= THRESHOLD && s.phase.Off? && !s.armed
  }

  /** The states a due revert passes through, however often it is cut short and begun again. */
  predicate OnTheWay(now: State, from: State) {
    || (now.nvs == from.nvs && now.boot == from.boot && !now.armed && (now.phase.Off? || now.phase.ToRevert?))
    || (now.nvs == from.nvs && now.boot == from.nvs.prev && !now.armed
        && (now.phase.Off? || now.phase.ToRevert? || now.phase.ToClear?))
    || (Kept(now) == Reverted(from)
        && (now.phase.ToRestart? || now.phase.Off?
            || ((now.phase.Started? || now.phase.Loading?) && now.slot == from.nvs.prev)))
  }

  /** However many times power is lost during it, a due revert only ever moves toward the same end. */
  lemma {:induction false} RevertSurvivesLoss(s: State, acts: seq<Action>, slots: set<nat>)
    requires RevertDue(s) && s.nvs.prev in slots && NoUpdate(acts)
    ensures OnTheWay(Run(s, acts, slots), s)
    decreases |acts|
  {
    if |acts| > 0 {
      RevertSurvivesLoss(s, acts[..|acts| - 1], slots);
      OnTheWayStep(Run(s, acts[..|acts| - 1], slots), acts[|acts| - 1], slots, s);
    }
  }

  lemma OnTheWayStep(now: State, a: Action, slots: set<nat>, from: State)
    requires RevertDue(from) && from.nvs.prev in slots && a != Accept && OnTheWay(now, from)
    ensures OnTheWay(Step(now, a, slots), from)
  {
  }

  /** And three undisturbed steps from power-on finish it, after any number of interruptions. */
  lemma RevertCompletes(s: State, acts: seq<Action>, slots: set<nat>)
    requires RevertDue(s) && s.nvs.prev in slots && NoUpdate(acts) && Run(s, acts, slots).phase.Off?
    ensures Kept(Run(Run(s, acts, slots), [Next, Next, Next], slots)) == Reverted(s)
  {
    RevertSurvivesLoss(s, acts, slots);
    var u := Run(s, acts, slots);
    hide Run;
    RunThree(u, slots);
  }

  /** Without a slot to go back to, the guard gives up on the image it was guarding against. */
  lemma NoSlotNoRevert(s: State, slots: set<nat>)
    requires RevertDue(s) && s.nvs.prev !in slots
    ensures Kept(Run(s, [Next, Next, Next], slots)) == (s.boot, Nvs(false, 0, s.nvs.prev))
  {
    hide Run;
    RunThree(s, slots);
  }

  lemma RunThree(u: State, slots: set<nat>)
    ensures Run(u, [Next, Next, Next], slots) == Step(Step(Step(u, Next, slots), Next, slots), Next, slots)
  {
    hide Step;
    assert [Next, Next, Next][..2] == [Next, Next] && [Next, Next][..1] == [Next] && [Next][..0] == [];
    assert Run(u, [], slots) == u;
    assert Run(u, [Next], slots) == Step(u, Next, slots);
    assert Run(u, [Next, Next], slots) == Step(Step(u, Next, slots), Next, slots);
  }

  // ---- what the guard does not cover ------------------------------------------------------

  /**
   If power is lost after the boot slot was switched and before the mark was committed, nothing counts
   the boots of the new image: it starts as often as it is powered on.
  */
  lemma LossBeforeMarkUnguards(s: State, t: nat, slots: set<nat>, k: nat)
    requires s.phase.Started? && !s.nvs.pending && t != s.slot
    ensures var acts := [Download(t), Accept, Loss] + Cycles(k);
      && StartCount(s, acts, slots, t) == k
      && !Run(s, acts, slots).nvs.pending && Run(s, acts, slots).boot == t && Run(s, acts, slots).phase.Off?
  {
    var first := [Download(t), Accept, Loss];
    assert first[..2] == [Download(t), Accept] && first[..2][..1] == [Download(t)] && first[..1][..0] == [];
    assert Run(s, [], slots) == s && StartCount(s, [], slots, t) == 0;
    assert Run(s, [Download(t)], slots) == s.(phase := Loading(t));
    assert StartCount(s, [Download(t)], slots, t) == 0;
    assert Run(s, [Download(t), Accept], slots) == s.(boot := t, phase := ToMark);
    assert StartCount(s, [Download(t), Accept], slots, t) == 0;
    assert StartCount(s, first, slots, t) == 0;
    UnguardedStarts(s, first, slots, t, k);
  }

  // ---- what the guard goes back to ----------------------------------------------------------

  /** Slots whose image has been validated since it was written; a download overwrites its target from the start. */
  function ProvenStep(s: State, a: Action, good: set<nat>): set<nat> {
    match a
    case Fire => if s.armed then good + {s.slot} else good
    case Download(t) => if s.phase.Started? && t != s.slot then good - {t} else good
    case _ => good
  }

  function Proven(s: State, acts: seq<Action>, slots: set<nat>, good: set<nat>): set<nat>
    decreases |acts|
  {
    if |acts| == 0 then good else
      var before := acts[..|acts| - 1];
      ProvenStep(Run(s, before, slots), acts[|acts| - 1], Proven(s, before, slots, good))
  }

  /** Action a begins no download, or a validated image begins it. */
  predicate FromProven(s: State, a: Action, good: set<nat>) {
    a.Download? && s.phase.Started? ==> s.slot in good
  }

  predicate DownloadsFromProven(s: State, acts: seq<Action>, slots: set<nat>, good: set<nat>) {
    forall k :: 0 <= k < |acts| ==> FromProven(Run(s, acts[..k], slots), acts[k], Proven(s, acts[..k], slots, good))
  }

  /** While an image is pending, the slot to go back to holds a validated one. */
  predicate Sound(s: State, good: set<nat>) {
    && (s.nvs.pending ==> s.nvs.prev in good && (s.boot !in good || s.nvs.bootcnt + 1 >= THRESHOLD))
    && ArmedPastCheck(s)
    && match s.phase
       case ToCount => s.nvs.pending && s.slot == s.boot && s.nvs.bootcnt + 1 < THRESHOLD
       case ToRevert => s.nvs.pending && s.nvs.bootcnt + 1 >= THRESHOLD
       case ToClear => s.nvs.pending && s.nvs.bootcnt + 1 >= THRESHOLD
       case Started => s.nvs.pending ==> s.slot !in good
       case Loading(t) => !s.nvs.pending && s.slot in good && t !in good
       case ToMark => !s.nvs.pending && s.slot in good && s.boot !in good
       case _ => true
  }

  lemma SoundStep(s: State, a: Action, slots: set<nat>, good: set<nat>)
    requires Sound(s, good) && FromProven(s, a, good)
    ensures Sound(Step(s, a, slots), ProvenStep(s, a, good))
  {
  }

  /** If only validated images begin downloads, the guard always goes back to a validated image. */
  lemma {:induction false} PrevIsProven(s: State, acts: seq<Action>, slots: set<nat>, good: set<nat>)
    requires Sound(s, good) && DownloadsFromProven(s, acts, slots, good)
    ensures Sound(Run(s, acts, slots), Proven(s, acts, slots, good))
    ensures Run(s, acts, slots).nvs.pending ==> Run(s, acts, slots).nvs.prev in Proven(s, acts, slots, good)
    decreases |acts|
  {
    if |acts| > 0 {
      var n := |acts| - 1;
      var before := acts[..n];
      forall k | 0 <= k < n
        ensures FromProven(Run(s, before[..k], slots), before[k], Proven(s, before[..k], slots, good))
      {
        assert before[..k] == acts[..k];
      }
      PrevIsProven(s, before, slots, good);
      assert FromProven(Run(s, acts[..n], slots), acts[n], Proven(s, acts[..n], slots, good));
      hide Step, ProvenStep, FromProven;
      SoundStep(Run(s, before, slots), acts[n], slots, Proven(s, before, slots, good));
    }
  }

  /** And only then: what an update marks as the slot to go back to is validated exactly if the running image is. */
  lemma MarkIsProvenIff(s: State, t: nat, slots: set<nat>, good: set<nat>)
    requires s.phase.Started? && t != s.slot
    ensures var acts := [Download(t), Accept, Next];
      && Run(s, acts, slots).nvs == Nvs(true, 0, s.slot)
      && Proven(s, acts, slots, good) == good - {t}
      && (Run(s, acts, slots).nvs.prev in Proven(s, acts, slots, good) <==> s.slot in good)
  {
    var acts := [Download(t), Accept, Next];
    assert acts[..2] == [Download(t), Accept] && acts[..2][..1] == [Download(t)] && acts[..1][..0] == [];
    DownloadProves(s, t, slots, good);
    assert Run(s, [Download(t), Accept], slots) == s.(boot := t, phase := ToMark);
    assert Proven(s, [Download(t), Accept], slots, good) == good - {t};
  }

  lemma DownloadProves(s: State, t: nat, slots: set<nat>, good: set<nat>)
    requires s.phase.Started? && t != s.slot
    ensures Run(s, [Download(t)], slots) == s.(phase := Loading(t))
    ensures Proven(s, [Download(t)], slots, good) == good - {t}
  {
    assert [Download(t)][..0] == [];
    assert Run(s, [], slots) == s && Proven(s, [], slots, good) == good;
  }

  /** Power-up of a freshly marked image: counted once, started, still pending. */
  lemma FirstStart(s: State, t: nat, first: nat, slots: set<nat>)
    requires JustMarked(s, t, first)
    ensures Run(s, [Next, Next, Next], slots) == State(t, Nvs(true, 1, first), t, Started, true)
    ensures Proven(s, [Next, Next, Next], slots, {first}) == {first}
  {
    RunThree(s, slots);
    assert [Next, Next, Next][..2] == [Next, Next] && [Next, Next][..1] == [Next] && [Next][..0] == [];
    assert Proven(s, [], slots, {first}) == Proven(s, [Next], slots, {first}) == {first};
    assert Proven(s, [Next, Next], slots, {first}) == {first};
  }

  /** An update that fails, wherever it was, ends in a restart of what is running as far as flash is concerned. */
  lemma FailedUpdateRestarts(s: State, t: nat, slots: set<nat>)
    requires s.phase.Started? && t != s.slot
    ensures Run(s, [Fail, Next], slots) == s.(phase := Off, armed := false)
    ensures Run(s, [Download(t), Fail, Next], slots) == s.(phase := Off, armed := false)
  {
    assert [Fail, Next][..1] == [Fail] && [Fail][..0] == [] && [Download(t), Fail, Next][..2] == [Download(t), Fail];
    assert [Download(t), Fail][..1] == [Download(t)] && [Download(t)][..0] == [];
    assert Run(s, [], slots) == s;
    assert Run(s, [Fail], slots) == s.(phase := ToRestart);
    assert Run(s, [Download(t)], slots) == s.(phase := Loading(t));
    assert Run(s, [Download(t), Fail], slots) == s.(phase := ToRestart);
  }

  /**
   An image that begins a download before it is validated overwrites the slot it is to go back to: even
   if the download fails there and then, the guard is pending on a slot that holds no whole image.
  */
  lemma DownloadWhilePending(s: State, t: nat, first: nat, slots: set<nat>)
    requires JustMarked(s, t, first) && t != first
    ensures var u := Run(s, [Next, Next, Next], slots);
      var v := Run(u, [Download(first)], slots);
      && Proven(s, [Next, Next, Next], slots, {first}) == {first}
      && v.nvs == Nvs(true, 1, first) && Step(v, Fail, slots).nvs == v.nvs && Step(v, Loss, slots).nvs == v.nvs
      && Proven(u, [Download(first)], slots, {first}) == {}
  {
    FirstStart(s, t, first, slots);
    hide Run, Proven, ProvenStep;
    DownloadProves(State(t, Nvs(true, 1, first), t, Started, true), first, slots, {first});
  }

  /** And if it is accepted, the slot to go back to is the unvalidated image itself. */
  lemma UpdateWhilePending(s: State, t: nat, first: nat, slots: set<nat>)
    requires JustMarked(s, t, first) && t != first
    ensures var u := Run(s, [Next, Next, Next], slots);
      && u.phase.Started? && u.slot == t && Proven(s, [Next, Next, Next], slots, {first}) == {first}
      && Run(u, [Download(first), Accept, Next], slots).nvs == Nvs(true, 0, t)
      && Proven(u, [Download(first), Accept, Next], slots, {first}) == {}
  {
    FirstStart(s, t, first, slots);
    hide Run, Proven, Step, ProvenStep;
    MarkIsProvenIff(State(t, Nvs(true, 1, first), t, Started, true), first, slots, {first});
  }

  // ---- the routines -----------------------------------------------------------------------

  class Device {
    const slots: set<nat>
    var boot: nat
    var pending: bool
    var bootcnt: nat
    var prev: nat
    var slot: nat
    var armed: bool

    constructor (slots: set<nat>, boot: nat)
      ensures this.slots == slots && View(Off) == State(boot, Nvs(false, 0, 0), boot, Off, false)
    {
      this.slots := slots;
      this.boot, this.slot, pending, bootcnt, prev, armed := boot, boot, false, 0, 0, false;
    }

    function View(phase: Phase): State
      reads this
    {
      State(boot, Nvs(pending, bootcnt, prev), slot, phase, armed)
    }

    /**
     From reset to the end of dfu2_rollback_check_on_boot: restarting, or started, and then
     app_main goes on to arm the validation task.
    */
    method CheckOnBoot() returns (started: bool)
      requires !armed
      modifies this
      ensures var s := Step(old(View(Off)), Next, slots);
        View(if started then Started else ToRestart)
        == if s.phase.Started? then s
           else if s.phase.ToCount? then Step(s, Next, slots)
           else Step(Step(s, Next, slots), Next, slots)
    {
      slot := boot;
      if !pending {
        armed := true;
        return true;
      }
      var cnt := bootcnt + 1;
      if cnt >= THRESHOLD {
        if prev in slots {
          boot := prev;
        }
        pending, bootcnt := false, 0;
        return false;
      }
      bootcnt := cnt;
      armed, started := true, true;
    }

    /** rollback_mark_pending, after the boot slot was switched. */
    method MarkPending()
      modifies this
      ensures View(Marked) == Step(old(View(ToMark)), Next, slots)
    {
      pending, bootcnt, prev := true, 0, slot;
    }

    /** rollback_validate_task, in whatever phase its delay runs out. */
    method ValidateImage(ghost phase: Phase)
      requires armed
      modifies this
      ensures View(phase) == Step(old(View(phase)), Fire, slots)
    {
      pending, bootcnt, armed := false, 0, false;
    }
  }
}
