/** The autotune session object: the fields its inputs, actions and timers change in place. */
module AutotuneSessions {
  import opened Bytes
  import opened AutotuneRules
  import opened AutotuneOutcomes

  class AutotuneSession {
    const config: Config
    var started: bool
    var seqNo: nat
    var phase: Phase
    var verification: Verification
    var progress: Option<nat>
    var actionPending: Option<Action>
    var testModeTransition: bool
    var actionEpoch: nat
    var actionResends: nat
    var timers: map<Slot, Timer>
    /** The snapshots published and the commands the link took, oldest first. */
    var snapshots: seq<Snapshot>
    var sent: seq<Sent>
    ghost var startedAt: int
    ghost var actionAt: int
    ghost var actionSends: nat

    ghost function Now(): State
      reads this
    {
      State(started, seqNo, phase, verification, progress, actionPending, testModeTransition, actionEpoch, actionResends, timers,
            snapshots, sent, startedAt, actionAt, actionSends)
    }

    /** A waiting action has its timer, an open session its watchdog and an ended one no timer at all; saved parameters
        are claimed exactly in the saved phase. */
    ghost predicate Valid()
      reads this
    {
      Inv(config, Now())
    }

    predicate Ended()
      reads `phase
    {
      Terminal(config, phase)
    }

    constructor (config: Config)
      ensures Valid() && this.config == config && Now() == FRESH
    {
      this.config := config;
      started, seqNo, phase, verification, progress := false, 0, Starting, NotApplicable, None;
      actionPending, testModeTransition, actionEpoch, actionResends := None, false, 0, 0;
      timers, snapshots, sent := map[], [], [];
      startedAt, actionAt, actionSends := 0, 0, 0;
      new;
      FreshIsFine(config);
    }

    method Publish()
      modifies `seqNo, `snapshots
      ensures Now() == Emit(old(Now()))
    {
      seqNo := seqNo + 1;
      snapshots := snapshots + [Snapshot(seqNo, phase, verification)];
    }

    method Conclude(p: Phase, v: Verification)
      modifies `phase, `verification, `timers
      ensures Now() == old(Now()).(phase := p, verification := v, timers := map[])
    {
      phase, verification, timers := p, v, map[];
    }

    method FinishTerminal(p: Phase, v: Verification)
      modifies `phase, `verification, `timers, `seqNo, `snapshots
      ensures Now() == Finish(old(Now()), p, v)
    {
      hide Emit;
      Conclude(p, v);
      Publish();
    }

    method End(p: Phase)
      modifies `phase, `verification, `timers, `seqNo, `snapshots
      ensures Now() == EndWith(config, old(Now()), p)
    {
      hide Finish;
      if !Ended() {
        FinishTerminal(p, verification);
      }
    }

    method ShowPhase(p: Phase)
      modifies `phase, `seqNo, `snapshots
      ensures Now() == Emit(old(Now()).(phase := p))
    {
      hide Emit;
      phase := p;
      Publish();
    }

    method ShowCompleted(p: Phase)
      modifies `phase, `verification, `seqNo, `snapshots
      ensures Now() == Emit(old(Now()).(phase := p, verification := FirmwareCompleted))
    {
      hide Emit;
      phase, verification := p, FirmwareCompleted;
      Publish();
    }

    method ArmTimer(slot: Slot, due: int)
      modifies `timers
      ensures Now() == Arm(old(Now()), slot, due)
    {
      timers := timers[slot := Timer(due, actionEpoch)];
    }

    method ClearSlot(slot: Slot)
      modifies `timers
      ensures Now() == old(Now()).(timers := old(timers) - {slot})
    {
      timers := timers - {slot};
    }

    method Send(c: Sent)
      modifies `sent
      ensures Now() == old(Now()).(sent := old(sent) + [c])
    {
      sent := sent + [c];
    }

    /** The session starts once; a link that refuses the first command ends it. */
    method Begin(now: int, accepts: bool)
      requires Valid()
      modifies this
      ensures Valid() && Now() == Start(config, old(Now()), now, accepts)
      ensures old(started || Ended()) ==> Now() == old(Now())
      ensures !old(started || Ended()) ==> if accepts then !Ended() && OverallSlot in timers && |sent| == |old(sent)| + 1
                                           else phase.Failed? && sent == old(sent)
      ensures !old(Ended()) ==> Meant(config, old(Now()), Now(), StartCall(accepts), now)
    {
      hide Emit, EndWith, Inv, Meant;
      if !Ended() {
        StartMeans(config, Now(), now, accepts);
      }
      StartKeeps(config, Now(), now, accepts);
      if started || Ended() {
        return;
      }
      NoteStart(now);
      EmitsOnly(Now());
      Publish();
      if !accepts {
        EndsAs(config, Now(), Failed);
        End(Failed);
        return;
      }
      Send(if config.px4 then PollCommand else SetMode(ARDUCOPTER_AUTOTUNE_MODE));
      ArmTimer(OverallSlot, now + OverallTimeoutMs(config));
      if config.px4 {
        ArmTimer(PollSlot, now + AUTOTUNE_POLL_INTERVAL_MS);
      }
    }

    method NoteStart(now: int)
      modifies `started, `startedAt, `phase
      ensures Now() == old(Now()).(started := true, startedAt := now, phase := Starting)
    {
      started, startedAt, phase := true, now, Starting;
    }

    /** One epoch-tagged transmission of the waiting action. */
    method TransmitAction(now: int, accepts: bool) returns (ok: bool)
      modifies `actionEpoch, `actionSends, `sent, `timers
      ensures ok == accepts
      ensures Now() == if accepts then Transmitted(config, old(Now()), now) else old(Now()).(actionEpoch := old(actionEpoch) + 1)
    {
      hide Arm;
      actionEpoch := actionEpoch + 1;
      if !accepts {
        return false;
      }
      sent, actionSends := sent + [SetMode(config.initialModeId)], actionSends + 1;
      ArmTimer(ActionSlot, now + ACTION_TIMEOUT_MS);
      return true;
    }

    /** An action that may start and whose command the link takes holds the lock, with its timer armed; otherwise nothing
        waits, and a refused write leaves the phase alone. */
    method RequestAction(a: Action, now: int, accepts: bool) returns (ok: bool)
      requires Valid()
      modifies this
      ensures Valid() && Now() == BeginAction(config, old(Now()), now, a, accepts)
      ensures ok <==> ActionAllowed(config, old(Now()), a) && accepts
      ensures ok ==> actionPending == Some(a) && ActionSlot in timers && timers[ActionSlot] == Timer(now + ACTION_TIMEOUT_MS, actionEpoch)
                     && actionSends == 1 && actionEpoch == old(actionEpoch) + 1 && sent == old(sent) + [SetMode(config.initialModeId)]
      ensures !ok && ActionAllowed(config, old(Now()), a) ==> actionPending.None? && !testModeTransition && ActionSlot !in timers
      ensures phase == old(phase) && (!ok ==> sent == old(sent))
      ensures !old(Ended()) ==> Meant(config, old(Now()), Now(), ActionCall(a, accepts), now)
    {
      hide Inv, Transmitted, ClearActionLocks, Meant;
      ghost var s := Now();
      if !Ended() {
        ActionMeans(config, s, now, a, accepts);
      }
      ActionKeeps(config, s, now, a, accepts);
      if Ended() || config.px4 || actionPending.Some? || testModeTransition {
        return false;
      }
      if (a.Abort? && phase.SavePending?) || (a.TestGains? && !phase.Completed?)
         || (a.RestoreGains? && !phase.Completed? && !phase.Testing?) {
        return false;
      }
      NoteAction(a, now);
      TransmittedMeans(config, Now(), now);
      LocksCleared(Now().(actionEpoch := actionEpoch + 1));
      ok := TransmitAction(now, accepts);
      if !ok {
        ReleaseAction();
      }
    }

    method NoteAction(a: Action, now: int)
      modifies `actionPending, `testModeTransition, `actionResends, `actionAt, `actionSends
      ensures Now() == old(Now()).(actionPending := Some(a), testModeTransition := a.TestGains?, actionResends := 0, actionAt := now,
                                   actionSends := 0)
    {
      actionPending, testModeTransition, actionResends := Some(a), a.TestGains?, 0;
      actionAt, actionSends := now, 0;
    }

    method ReleaseAction()
      modifies `actionPending, `testModeTransition, `timers
      ensures Now() == ClearActionLocks(old(Now()))
    {
      actionPending, testModeTransition := None, false;
      timers := timers - {ActionSlot};
    }

    /** An unanswered action is sent again at most twice, each time with a fresh timer; after that, or if the link refuses,
        the session fails. */
    method HandleActionTimeout(now: int, accepts: bool)
      modifies this
      ensures Now() == ActionTimeout(config, old(Now()), now, accepts)
      ensures old(Ended() || actionPending.None?) ==> Now() == old(Now())
      ensures !old(Ended() || actionPending.None?) ==>
                if accepts && old(actionResends) < ACTION_MAX_RESENDS then
                  && !Ended() && actionPending == old(actionPending) && actionResends == old(actionResends) + 1
                  && actionSends == old(actionSends) + 1 && sent == old(sent) + [SetMode(config.initialModeId)]
                  && ActionSlot in timers && timers[ActionSlot] == Timer(now + ACTION_TIMEOUT_MS, actionEpoch)
                else phase.Failed? && timers == map[] && sent == old(sent)
    {
      hide Transmitted, EndWith;
      if Ended() || actionPending.None? {
        return;
      }
      EndsAs(config, Now(), Failed);
      ghost var again := Now().(actionResends := actionResends + 1);
      TransmittedMeans(config, again, now);
      EndsAs(config, again.(actionEpoch := actionEpoch + 1), Failed);
      if actionResends < ACTION_MAX_RESENDS {
        Retransmit(now, accepts);
      } else {
        End(Failed);
      }
    }

    method Retransmit(now: int, accepts: bool)
      modifies this
      ensures var s := old(Now()).(actionResends := old(actionResends) + 1);
              Now() == if accepts then Transmitted(config, s, now) else EndWith(config, s.(actionEpoch := s.actionEpoch + 1), Failed)
    {
      hide Transmitted, EndWith;
      actionResends := actionResends + 1;
      var ok := TransmitAction(now, accepts);
      if !ok {
        End(Failed);
      }
    }

    /** A timer acts once; only the poll and a retransmission leave the session open. */
    method FireTimer(slot: Slot, now: int, accepts: bool)
      requires Valid() && slot in timers
      modifies this
      ensures Valid() && Now() == TimerFires(config, old(Now()), slot, now, accepts)
      ensures (slot.OverallSlot? ==> phase.Failed?) && (slot.SaveSlot? ==> phase.Interrupted?)
      ensures slot.PollSlot? ==> if accepts then !Ended() && sent == old(sent) + [PollCommand] && PollSlot in timers else phase.Failed?
      ensures slot.ActionSlot? && old(actionPending).Some? ==>
                if accepts && old(actionResends) < ACTION_MAX_RESENDS then !Ended() && actionSends == old(actionSends) + 1
                else phase.Failed?
      ensures verification == old(verification) && (accepts || sent == old(sent))
      ensures Meant(config, old(Now()), Now(), TimerIn(slot, accepts), now)
    {
      hide Transmitted, EndWith, Inv, ActionTimeout, Meant;
      ghost var s := Now();
      TimerKeeps(config, s, slot, now, accepts);
      ArmedIsOpen(config, s, slot);
      TimerMeans(config, s, slot, now, accepts);
      var epoch := timers[slot].epoch;
      ClearSlot(slot);
      EndsAs(config, Now(), Failed);
      EndsAs(config, Now(), Interrupted);
      TimeoutKeepsClaim(config, Now(), now, accepts);
      match slot {
        case OverallSlot => End(Failed);
        case SaveSlot => End(Interrupted);
        case PollSlot =>
          if accepts {
            Send(PollCommand);
            ArmTimer(PollSlot, now + AUTOTUNE_POLL_INTERVAL_MS);
          } else {
            End(Failed);
          }
        case ActionSlot =>
          if epoch == actionEpoch {
            HandleActionTimeout(now, accepts);
          }
      }
    }

    /** A line of the firmware. Only the saved line makes the session saved, and only a final line ends it. */
    method HandleStatustext(l: Line)
      requires Valid()
      modifies this
      ensures Valid() && Now() == Statustext(config, old(Now()), l)
      ensures old(Ended() || config.px4) ==> Now() == old(Now())
      ensures !old(Ended() || config.px4) ==>
                && (phase.Saved? <==> l.SavedGains?)
                && (Ended() <==> l.SavedGains? || l.FailedLine? || l.StoppedLine? || (l.OriginalRestored? && Discarding(old(Now()))))
                && (l.SuccessLine? || l.TestingLine? ==> actionPending.None?)
      ensures sent == old(sent)
      ensures !old(Ended()) ==> forall now :: Meant(config, old(Now()), Now(), TextIn(l), now)
    {
      hide EndWith, Finish, Emit, Inv, ClearActionLocks, Meant;
      ghost var s := Now();
      TextKeeps(config, s, l);
      if !Ended() {
        forall now ensures Meant(config, s, Statustext(config, s, l), TextIn(l), now) {
          LineMeans(config, s, l, now);
        }
      }
      if Ended() || config.px4 {
        return;
      }
      TextMeans(config, s, l);
      match l {
        case StartedLine => ShowPhase(Tuning);
        case PausedLine => ShowPhase(Paused);
        case SuccessLine =>
          DropAction();
          ShowCompleted(Completed);
        case TestingLine =>
          ReleaseAction();
          ShowCompleted(Testing);
        case OriginalRestored =>
          if actionPending == Some(Abort) || actionPending == Some(RestoreGains) {
            FinishTerminal(Discarded, verification);
          } else {
            ShowCompleted(Completed);
          }
        case SavedGains => FinishTerminal(Saved, ParametersSaved);
        case FailedLine => End(Failed);
        case StoppedLine =>
          if actionPending == Some(Abort) || actionPending == Some(RestoreGains) {
            FinishTerminal(Discarded, verification);
          } else {
            End(Interrupted);
          }
        case OtherLine =>
      }
    }

    method DropAction()
      modifies `actionPending, `timers
      ensures Now() == old(Now()).(actionPending := None, timers := old(timers) - {ActionSlot})
    {
      actionPending, timers := None, timers - {ActionSlot};
    }

    /** A vehicle status never saves anything. It asks for AutoTune mode again exactly when a gain test waits for the
        original mode and that mode is reported; it opens the save window exactly on disarming in AutoTune mode with a
        finished tune; and it ends the session exactly as decided: on any other disarm, on leaving AutoTune mode while the
        tune is under way, to discard, or for a refusing link. */
    method HandleVehicleStatus(armed: bool, mode: nat, now: int, accepts: bool)
      requires Valid()
      modifies this
      ensures Valid() && Now() == VehicleStatus(config, old(Now()), now, armed, mode, accepts)
      ensures verification == old(verification) && (old(Ended()) ==> Now() == old(Now()))
      ensures !old(Ended()) ==> Meant(config, old(Now()), Now(), StatusIn(armed, mode, accepts), now)
      ensures sent == if !old(Ended()) && !config.px4 && old(testModeTransition) && mode == config.initialModeId && accepts
                      then old(sent) + [SetMode(ARDUCOPTER_AUTOTUNE_MODE)] else old(sent)
      ensures !old(Ended()) ==>
                var d := StatusDecides(config, old(Now()), armed, mode, accepts);
                if d.Some? then phase == d.value && timers == map[]
                else !Ended() && phase == PhaseAfter(config, old(Now()), StatusIn(armed, mode, accepts))
      ensures !old(Ended()) && !config.px4 && !old(phase).SavePending? && !BackAtStart(config, old(Now()), mode) ==>
                (phase.SavePending? <==> !armed && mode == ARDUCOPTER_AUTOTUNE_MODE && (old(phase).Completed? || old(phase).Testing?))
                && (phase.SavePending? ==> SaveSlot in timers && timers[SaveSlot].due == now + ARDUPILOT_SAVE_TIMEOUT_MS)
    {
      hide EndWith, Finish, Emit, Inv, Meant, StatusDecides, PhaseAfter;
      ghost var s := Now();
      StatusKeeps(config, s, now, armed, mode, accepts);
      if Ended() {
        return;
      }
      StatusSays(config, s, now, armed, mode, accepts);
      StatusParts(config, s);
      if config.px4 {
        if !armed && (progress.None? || progress.value < 100) {
          End(Interrupted);
        }
        return;
      }
      if testModeTransition && mode == config.initialModeId {
        BackToTest(accepts);
        return;
      }
      if !armed {
        if (phase.Completed? || phase.Testing?) && mode == ARDUCOPTER_AUTOTUNE_MODE {
          ShowPhase(SavePending);
          ArmTimer(SaveSlot, now + ARDUPILOT_SAVE_TIMEOUT_MS);
        } else {
          End(Interrupted);
        }
        return;
      }
      if mode == ARDUCOPTER_AUTOTUNE_MODE {
        if phase.Starting? {
          ShowPhase(Tuning);
        }
        return;
      }
      LeftAutotuneMode();
    }

    /** The original mode has been reached: ask for AutoTune mode, which tests the gains. */
    method BackToTest(accepts: bool)
      requires !Ended()
      modifies this
      ensures var s := old(Now()).(testModeTransition := false);
              Now() == if accepts then s.(sent := s.sent + [SetMode(ARDUCOPTER_AUTOTUNE_MODE)]) else EndWith(config, s, Failed)
    {
      hide EndWith;
      testModeTransition := false;
      if accepts {
        Send(SetMode(ARDUCOPTER_AUTOTUNE_MODE));
      } else {
        End(Failed);
      }
    }

    method LeftAutotuneMode()
      modifies this
      ensures var s := old(Now());
              Now() == if Discarding(s) then Finish(s, Discarded, s.verification)
                       else if s.phase.Starting? || s.phase.Tuning? || s.phase.Paused? then EndWith(config, s, Interrupted) else s
    {
      hide EndWith, Finish;
      if actionPending == Some(Abort) || actionPending == Some(RestoreGains) {
        FinishTerminal(Discarded, verification);
      } else if phase.Starting? || phase.Tuning? || phase.Paused? {
        End(Interrupted);
      }
    }

    /** PX4 reports by ACK: an acceptance or full progress completes the tune, a refusal fails it. */
    method HandleCommandAck(r: AckResult)
      requires Valid()
      modifies this
      ensures Valid() && Now() == CommandAck(config, old(Now()), r)
      ensures old(Ended()) || !config.px4 ==> Now() == old(Now())
      ensures !old(Ended()) && config.px4 ==>
                && (phase.Completed? <==> r.AckAccepted? || (r.AckInProgress? && r.progress.Some? && r.progress.value >= 100))
                && (phase.Failed? <==> r.AckRefused?)
                && (phase.Completed? ==> verification.FirmwareCompleted? && progress == Some(100))
      ensures !old(Ended()) ==> forall now :: Meant(config, old(Now()), Now(), AckIn(r), now)
    {
      hide EndWith, Finish, ApplyProgress, Inv, Meant;
      ghost var s := Now();
      AckKeeps(config, s, r);
      if !Ended() {
        forall now ensures Meant(config, s, CommandAck(config, s, r), AckIn(r), now) {
          AckMeans(config, s, r, now);
        }
      }
      if Ended() || !config.px4 {
        return;
      }
      AckParts(config, s, r);
      match r {
        case AckInProgress(p) =>
          if p.Some? {
            HandleProgress(p.value);
          }
        case AckAccepted =>
          progress := Some(100);
          FinishTerminal(Completed, FirmwareCompleted);
        case AckRefused => End(Failed);
      }
    }

    method HandleProgress(raw: nat)
      modifies this
      ensures Now() == ApplyProgress(config, old(Now()), raw)
    {
      hide EndWith, Finish, Emit;
      var next := if raw > 100 then 100 else raw;
      if progress.Some? && progress.value > 0 && next == 0 {
        End(Interrupted);
        return;
      }
      progress := Some(next);
      if next >= 100 {
        FinishTerminal(Completed, FirmwareCompleted);
        return;
      }
      if next >= 95 {
        ShowPhase(AwaitingDisarm);
      } else if next >= 85 {
        ShowPhase(if next < 90 then Applying else Verifying);
      } else {
        ShowPhase(if next < 20 then Starting else Tuning);
      }
    }

    /** External end of the session. */
    method Terminate()
      requires Valid()
      modifies this
      ensures Valid() && Now() == EndWith(config, old(Now()), Interrupted) && Ended() && timers == map[]
    {
      hide EndWith, Inv;
      TerminateKeeps(config, Now());
      EndsAs(config, Now(), Interrupted);
      EndedHasNoTimer(config, Now());
      End(Interrupted);
    }
  }

  lemma EndsAs(c: Config, s: State, p: Phase)
    requires Terminal(c, p)
    ensures !Terminal(c, s.phase) ==>
              var t := EndWith(c, s, p);
              t.phase == p && t.timers == map[] && t.verification == s.verification && t.sent == s.sent
    ensures Terminal(c, s.phase) ==> EndWith(c, s, p) == s
  {
  }

  lemma EndedHasNoTimer(c: Config, s: State)
    requires Inv(c, s)
    ensures Terminal(c, s.phase) ==> s.timers == map[]
  {
  }

  lemma ArmedIsOpen(c: Config, s: State, slot: Slot)
    requires Inv(c, s) && slot in s.timers
    ensures !Terminal(c, s.phase)
    ensures slot.ActionSlot? && s.actionPending.Some? ==> s.timers[slot].epoch == s.actionEpoch
  {
    hide Published;
  }

  lemma TransmittedMeans(c: Config, s: State, now: int)
    ensures var t := Transmitted(c, s, now);
            && t.phase == s.phase && t.verification == s.verification && t.actionPending == s.actionPending
            && t.actionEpoch == s.actionEpoch + 1
            && t.actionResends == s.actionResends && t.actionSends == s.actionSends + 1 && t.sent == s.sent + [SetMode(c.initialModeId)]
            && ActionSlot in t.timers && t.timers[ActionSlot] == Timer(now + ACTION_TIMEOUT_MS, t.actionEpoch)
  {
  }

  lemma LocksCleared(s: State)
    ensures var t := ClearActionLocks(s);
            && t.actionPending.None? && !t.testModeTransition && ActionSlot !in t.timers && t.phase == s.phase && t.sent == s.sent
            && t.verification == s.verification
  {
  }

  lemma TimeoutKeepsClaim(c: Config, s: State, now: int, accepts: bool)
    ensures ActionTimeout(c, s, now, accepts).verification == s.verification
    ensures !accepts ==> ActionTimeout(c, s, now, accepts).sent == s.sent
  {
  }

  lemma TextMeans(c: Config, s: State, l: Line)
    requires !Terminal(c, s.phase) && !c.px4
    ensures var t := Statustext(c, s, l);
            && (t.phase.Saved? <==> l.SavedGains?) && t.sent == s.sent
            && (Terminal(c, t.phase) <==> l.SavedGains? || l.FailedLine? || l.StoppedLine? || (l.OriginalRestored? && Discarding(s)))
            && (l.SuccessLine? || l.TestingLine? ==> t.actionPending.None?)
  {
  }

  lemma StatusSays(c: Config, s: State, now: int, armed: bool, mode: nat, accepts: bool)
    requires !Terminal(c, s.phase)
    ensures var t, d := VehicleStatus(c, s, now, armed, mode, accepts), StatusDecides(c, s, armed, mode, accepts);
            && Meant(c, s, t, StatusIn(armed, mode, accepts), now)
            && (if d.Some? then t.phase == d.value && t.timers == map[]
                else !Terminal(c, t.phase) && t.phase == PhaseAfter(c, s, StatusIn(armed, mode, accepts)))
            && (!c.px4 && !s.phase.SavePending? && !BackAtStart(c, s, mode) ==>
                  (t.phase.SavePending? <==> !armed && mode == ARDUCOPTER_AUTOTUNE_MODE && (s.phase.Completed? || s.phase.Testing?))
                  && (t.phase.SavePending? ==> SaveSlot in t.timers && t.timers[SaveSlot].due == now + ARDUPILOT_SAVE_TIMEOUT_MS))
  {
    hide VehicleStatus, Continues;
    StatusMeans(c, s, now, armed, mode, accepts);
    var t := VehicleStatus(c, s, now, armed, mode, accepts);
    if StatusDecides(c, s, armed, mode, accepts).None? {
      PhaseContinues(c, s, t, StatusIn(armed, mode, accepts), now);
    }
    if !c.px4 && !s.phase.SavePending? && !BackAtStart(c, s, mode) {
      SaveWindowOpensExactly(c, s, now, armed, mode, accepts);
      DueIsTimer(t, SaveSlot, now + ARDUPILOT_SAVE_TIMEOUT_MS);
    }
  }

  lemma PhaseContinues(c: Config, s: State, t: State, i: Input, now: int)
    requires (i.TimerIn? ==> i.slot in s.timers) && Continues(c, s, t, i, now)
    ensures t.phase == PhaseAfter(c, s, i)
  {
    hide PhaseAfter, DueAfter, WaitingAfter, TransitionAfter, ClaimAfter;
  }

  lemma DueIsTimer(s: State, slot: Slot, due: int)
    ensures slot in Dues(s) && Dues(s)[slot] == due ==> slot in s.timers && s.timers[slot].due == due
  {
  }

  /** What the blocks of a status report do to the fields its contract speaks about. */
  lemma StatusParts(c: Config, s: State)
    requires !Terminal(c, s.phase)
    ensures EndWith(c, s, Interrupted).phase.Interrupted? && EndWith(c, s, Interrupted).verification == s.verification
            && EndWith(c, s, Interrupted).sent == s.sent
    ensures var t := EndWith(c, s.(testModeTransition := false), Failed);
            t.phase.Failed? && t.verification == s.verification && t.sent == s.sent
    ensures var t := Finish(s, Discarded, s.verification); t.phase.Discarded? && t.verification == s.verification && t.sent == s.sent
    ensures forall p :: var t := Emit(s.(phase := p)); t.phase == p && t.verification == s.verification && t.sent == s.sent
  {
  }

  lemma AckParts(c: Config, s: State, r: AckResult)
    requires !Terminal(c, s.phase) && c.px4
    ensures var t := CommandAck(c, s, r);
            && (t.phase.Completed? <==> r.AckAccepted? || (r.AckInProgress? && r.progress.Some? && r.progress.value >= 100))
            && (t.phase.Failed? <==> r.AckRefused?)
            && (t.phase.Completed? ==> t.verification.FirmwareCompleted? && t.progress == Some(100))
  {
  }
}
