/** How a calibration session ends and what keeps watch over it, exactly, for every input and over whole sessions. */
module CalibrationOutcomes {
  import opened Bytes
  import opened CalibrationRules
  import opened CalibrationSafety
  import opened CalibrationRuns

  // ---------------------------------------------------------------------------------------------------
  // The watchdogs
  // ---------------------------------------------------------------------------------------------------

  /** The timers that can end a session, and what decides about them. */
  datatype Guard = Guard(watch: map<Slot, Timer>, startCommandId: CommandId, acked: bool, cancelling: bool)

  function GuardOf(s: State): Guard {
    Guard(s.timers - {FlushSlot}, s.startCommandId, s.magAcceptAcked, s.cancelRequested)
  }

  /** A sign of life restarts the idle watchdog and stops the start watchdog, unless a cancel is pending. */
  function Restarted(c: Config, g: Guard, now: int): Guard {
    if g.cancelling then g
    else g.(watch := (g.watch - {StartSlot})[IdleSlot := Timer(now + IdleTimeoutMs(c), GiveUp(IdleTimeout))])
  }

  function With(g: Guard, slot: Slot, due: int, action: Action): Guard {
    g.(watch := g.watch[slot := Timer(due, action)])
  }

  function StartCallGuard(c: Config, s: State, g: Guard, now: int): Guard {
    if s.started then g
    else if OneShot(c) then With(g.(startCommandId := Preflight), StartSlot, now + 30000, GiveUp(AckTimeout))
    else
      With(With(g.(startCommandId := if MagFlow(c) then StartMag else Preflight), StartSlot, now + 15000, GiveUp(StartTimeout)),
           OverallSlot, now + OverallTimeoutMs(c), GiveUp(OverallTimeout))
  }

  function CancelCallGuard(c: Config, s: State, g: Guard, now: int): Guard {
    if !CanCancel(c, s) then g
    else
      With(g.(cancelling := true, watch := g.watch - {StartSlot, IdleSlot, OverallSlot}), CancelSlot, now + 30000, CancelUnconfirmed)
  }

  /** The first acceptance opens the window for the report that the results are saved; only once. */
  function AcceptAckGuardAfter(g: Guard, result: AckResult, now: int): Guard {
    if result.AckInProgress? then With(g, AcceptSlot, now + 5000, GiveUp(AcceptAckTimeout))
    else if g.acked then g
    else With(g.(acked := true), AcceptSlot, now + 5000, AcceptUnverified)
  }

  function AckGuardAfter(c: Config, s: State, g: Guard, id: CommandId, result: AckResult, now: int): Guard {
    if s.cancelRequested && id == CancelCommandFor(c) then g
    else if s.magAcceptPending && id == AcceptMag then AcceptAckGuardAfter(g, result, now)
    else if id != s.startCommandId then g
    else if OneShot(c) then With(g, StartSlot, now + 30000, GiveUp(AckTimeout)) else Restarted(c, g, now)
  }

  /** The watchdogs after an input that leaves the session open. */
  function GuardAfter(c: Config, s: State, i: Input, now: int): Guard {
    var g := GuardOf(s);
    match i
    case StartCall(_) => StartCallGuard(c, s, g, now)
    case CancelCall(_) => CancelCallGuard(c, s, g, now)
    case AcceptCall(_) =>
      if CanAccept(c, s) then With(g.(acked := false), AcceptSlot, now + 5000, GiveUp(AcceptAckTimeout)) else g
    case ConfirmCall(position, _) => if CanConfirm(c, s, position) then Restarted(c, g, now) else g
    case AckIn(id, result) => AckGuardAfter(c, s, g, id, result, now)
    case TextIn(_) => if c.family.Px4? then Restarted(c, g, now) else g
    case PositionIn(m) =>
      if InteractiveAccel(c) && m.Hold? && 1 <= m.position <= 6 then Restarted(c, g, now) else g
    case TimerIn(slot) => g.(watch := g.watch - {slot})
    case TerminateCall => g
    case OwnerChanged => g
    case _ => if MagFlow(c) then Restarted(c, g, now) else g
  }

  lemma EmitGuard(s: State)
    ensures GuardOf(Emit(s)) == GuardOf(s)
  {
  }

  lemma ArmGuard(s: State, slot: Slot, due: int, action: Action)
    ensures GuardOf(Arm(s, slot, due, action))
            == if slot == FlushSlot then GuardOf(s) else With(GuardOf(s), slot, due, action)
  {
  }

  lemma MarkGuard(c: Config, s: State, now: int)
    ensures GuardOf(MarkEvidence(c, s, now))
            == Restarted(c, GuardOf(s), now)
  {
    hide IdleTimeoutMs;
  }

  lemma DirtyGuard(s: State, now: int)
    ensures GuardOf(MarkProgressDirty(s, now)) == GuardOf(s)
  {
  }

  lemma SideGuard(s: State, side: Side, state: SideState)
    ensures GuardOf(SetSideState(s, side, state)) == GuardOf(s)
  {
    hide Emit;
    if s.sides.Some? && side in s.sides.value {
      EmitGuard(s.(sides := Some(s.sides.value[side := state])));
    }
  }

  lemma AnnounceGuard(s: State)
    ensures GuardOf(Announce(s)) == GuardOf(s)
  {
    hide Emit;
    EmitGuard(s.(phase := Running));
  }

  lemma MeanGuard(s: State)
    ensures GuardOf(UpdateMagProgress(s)) == GuardOf(s)
  {
    hide CompassCount, PercentSum, MaskOf;
  }

  lemma StartGuard(c: Config, s: State, now: int)
    requires Unjudged(s)
    ensures GuardOf(Start(c, s, now, true)) == GuardAfter(c, s, StartCall(true), now)
  {
    hide Emit, Arm, AllSides, Start;
    if s.started {
      NothingToStart(c, s, now, true);
    } else {
      StartUnfolds(c, s, now, true);
      var t := Emit(StartWritten(c, s, now));
      EmitGuard(StartWritten(c, s, now));
      WrittenGuard(c, s, now);
      ArmGuard(t, StartSlot, now + AP_ONESHOT_ACK_TIMEOUT_MS, GiveUp(AckTimeout));
      ArmGuard(t, StartSlot, now + START_EVIDENCE_TIMEOUT_MS, GiveUp(StartTimeout));
      ArmGuard(Arm(t, StartSlot, now + START_EVIDENCE_TIMEOUT_MS, GiveUp(StartTimeout)), OverallSlot,
               now + OverallTimeoutMs(c), GiveUp(OverallTimeout));
    }
  }

  lemma WrittenGuard(c: Config, s: State, now: int)
    ensures GuardOf(StartWritten(c, s, now)) == GuardOf(s).(startCommandId := StartCommandFor(c))
  {
    hide AllSides;
  }

  lemma CancelGuard(c: Config, s: State, now: int)
    requires Unjudged(s)
    ensures GuardOf(Cancel(c, s, now, true)) == GuardAfter(c, s, CancelCall(true), now)
  {
  }

  lemma AcceptGuard(c: Config, s: State, now: int)
    requires Unjudged(s)
    ensures GuardOf(AcceptCalibration(c, s, now, true)) == GuardAfter(c, s, AcceptCall(true), now)
  {
    hide Emit, MaskOf;
    var t := Arm(s.(sent := s.sent + [AcceptCommand(MaskOf(s))], magAcceptPending := true, magAcceptAcked := false),
                 AcceptSlot, now + MAG_ACCEPT_CONFIRM_TIMEOUT_MS, GiveUp(AcceptAckTimeout));
    EmitGuard(t);
  }

  lemma ConfirmGuard(c: Config, s: State, now: int, position: nat)
    requires Unjudged(s)
    ensures GuardOf(ConfirmPosition(c, s, now, position, true)) == GuardAfter(c, s, ConfirmCall(position, true), now)
  {
    hide Emit, MarkEvidence, CanConfirm, IdleTimeoutMs;
    var t := s.(sent := s.sent + [PositionCommand(position)], requestedPosition := None, phase := Running);
    MarkGuard(c, t, now);
    EmitGuard(MarkEvidence(c, t, now));
  }

  lemma AckGuard(c: Config, s: State, now: int, id: CommandId, result: AckResult)
    requires Unjudged(s) && AckDecides(c, s, id, result).None?
    ensures GuardOf(CommandAck(c, s, now, id, result)) == GuardAfter(c, s, AckIn(id, result), now)
  {
    hide CommandAck, Settle, Fail, StartAck, MagAcceptAck, CancelCommandFor, OneShot, GuardOf, Restarted, With, AcceptAckGuardAfter;
    AckedIs(s);
    AckUnfolds(c, s, now, id, result);
    if s.cancelRequested && id == CancelCommandFor(c) {
    } else if s.magAcceptPending && id == AcceptMag {
      AcceptAckGuard(s, now, result);
    } else if id == s.startCommandId {
      StartAckGuard(c, s, now, result);
    }
  }

  lemma AckedIs(s: State)
    ensures GuardOf(s).acked == s.magAcceptAcked && GuardOf(s).cancelling == s.cancelRequested
  {
  }

  /** What an ACK achieves in an open session: an accepted one-shot start ends it as accepted; an accepted cancel of its own
      command ends it as cancelled, while on PX4 no ACK settles a cancel; the first acceptance of an accept opens the window
      for the saved reports, later ones change nothing; and any other accepted or progressing start is a sign of life. */
  lemma AckMeans(c: Config, s: State, now: int, id: CommandId, result: AckResult)
    requires Unjudged(s) && (s.cancelRequested ==> CancelSupported(c))
    ensures var t := CommandAck(c, s, now, id, result);
            && AfterAck(s, t, result, AckDecides(c, s, id, result))
            && (!Terminal(t.phase) ==> GuardOf(t) == AckGuardAfter(c, s, GuardOf(s), id, result, now))
            && (OneShot(c) && id == s.startCommandId == Preflight && result.AckAccepted? ==>
                  t.phase.Accepted? && t.verification.AckOnly?)
            && (s.cancelRequested && c.family.ArduPilot? && id.CancelMag? && result.AckAccepted? ==>
                  t.phase.Cancelled? && t.verification.AckOnly?)
            && (s.cancelRequested && c.family.Px4? && id.Preflight? ==> t == s)
            && (s.magAcceptPending && id.AcceptMag? && result.AckAccepted? ==>
                  if s.magAcceptAcked then t == s
                  else t.magAcceptAcked && AcceptSlot in t.timers && t.timers[AcceptSlot] == Timer(now + 5000, AcceptUnverified))
  {
    hide CommandAck, Settle, Fail, StartAck, MagAcceptAck, GuardOf, Restarted, With, AcceptAckGuardAfter, AfterAck;
    AckSays(c, s, now, id, result);
    AckUnfolds(c, s, now, id, result);
    AckEnds(s, CommandAck(c, s, now, id, result), result, AckDecides(c, s, id, result));
    if AckDecides(c, s, id, result).None? {
      AckGuard(c, s, now, id, result);
    }
    if result.AckAccepted? {
      AcceptWindow(s, now);
    }
  }

  lemma CancelIsSupported(c: Config, s: State)
    requires Inv(c, s)
    ensures s.cancelRequested ==> CancelSupported(c)
  {
  }

  lemma AckEnds(s: State, t: State, result: AckResult, d: Option<Ending>)
    requires AfterAck(s, t, result, d)
    ensures match d case None => !Terminal(t.phase) case Some(e) => t.phase == e.phase && t.verification == e.verification
  {
  }

  lemma AcceptWindow(s: State, now: int)
    ensures var t := MagAcceptAck(s, now, AckAccepted);
            if s.magAcceptAcked then t == s
            else t.magAcceptAcked && AcceptSlot in t.timers && t.timers[AcceptSlot] == Timer(now + 5000, AcceptUnverified)
  {
  }

  lemma AcceptAckGuard(s: State, now: int, result: AckResult)
    requires !result.AckRefused?
    ensures GuardOf(MagAcceptAck(s, now, result)) == AcceptAckGuardAfter(GuardOf(s), result, now)
  {
  }

  lemma StartAckGuard(c: Config, s: State, now: int, result: AckResult)
    requires !result.AckRefused? && (OneShot(c) ==> result.AckInProgress?)
    ensures GuardOf(StartAck(c, s, now, result))
            == if OneShot(c) then With(GuardOf(s), StartSlot, now + 30000, GiveUp(AckTimeout)) else Restarted(c, GuardOf(s), now)
  {
    hide Arm, MarkEvidence, Announce, OneShot, Restarted;
    MarkGuard(c, s, now);
    AnnounceGuard(MarkEvidence(c, s, now));
    AnnounceGuard(Arm(s, StartSlot, now + AP_ONESHOT_ACK_TIMEOUT_MS, GiveUp(AckTimeout)));
    ArmGuard(s, StartSlot, now + AP_ONESHOT_ACK_TIMEOUT_MS, GiveUp(AckTimeout));
  }

  lemma TextGuard(c: Config, s: State, now: int, e: CalEvent)
    requires Unjudged(s) && Decides(c, s, TextIn(e)).None?
    ensures GuardOf(Statustext(c, s, now, e)) == GuardAfter(c, s, TextIn(e), now)
  {
    hide MarkEvidence, Emit, InitialSides, SetSideState, MarkProgressDirty, Restarted, GuardOf, LeaveStarting, Statustext;
    var s1 := MarkEvidence(c, s, now);
    if c.family.ArduPilot? {
      NotForArduPilot(c, s, now, e);
      return;
    }
    TextUnfolds(c, s, now, e);
    MarkGuard(c, s, now);
    match e {
      case CalStarted(version) =>
        StartedGuard(c, s1, version);
      case OrientationDetected(side) => SideGuard(s1, side, ActiveSide);
      case SideDone(side) => SideGuard(s1, side, DoneSide);
      case CalProgress(pct) => PercentGuard(s1, pct, now);
      case _ =>
    }
  }

  lemma StartedGuard(c: Config, s: State, version: nat)
    ensures GuardOf(Emit(LeaveStarting(s.(sides := if version == PX4_CAL_PROTOCOL_VERSION then InitialSides(c) else None)))) == GuardOf(s)
  {
    hide Emit, InitialSides;
    EmitGuard(LeaveStarting(s.(sides := if version == PX4_CAL_PROTOCOL_VERSION then InitialSides(c) else None)));
  }

  lemma PercentGuard(s: State, pct: nat, now: int)
    ensures GuardOf(MarkProgressDirty(s.(progress := Some(pct)), now)) == GuardOf(s)
  {
  }

  lemma PositionGuard(c: Config, s: State, now: int, m: PositionMessage)
    requires Unjudged(s) && Decides(c, s, PositionIn(m)).None?
    ensures GuardOf(PositionRequest(c, s, now, m)) == GuardAfter(c, s, PositionIn(m), now)
  {
    hide PositionRequest, Emit, MarkEvidence, SidesHeld, Requested, PositionsDone, PositionHeld, Restarted, GuardOf, Fail;
    PositionUnfolds(c, s, now, m);
    if m.Hold? {
      MarkGuard(c, s, now);
      HoldGuard(c, s, now, m.position);
    }
  }

  lemma HoldGuard(c: Config, s: State, now: int, position: nat)
    ensures GuardOf(PositionHeld(c, s, now, position)) == GuardOf(MarkEvidence(c, s, now))
  {
    hide Emit, MarkEvidence, SidesHeld, Requested, GuardOf;
    var t := MarkEvidence(c, s, now);
    HeldGuard(t, position);
    EmitGuard(Requested(SidesHeld(t, position), position));
  }

  lemma HeldGuard(s: State, position: nat)
    ensures GuardOf(Requested(SidesHeld(s, position), position)) == GuardOf(s)
  {
    hide MarkSide, PositionSide;
  }

  lemma RecordedGuard(c: Config, s: State, now: int, calMask: nat, id: nat, k: Compass)
    ensures GuardOf(Recorded(c, s, now, calMask, id, k)) == GuardOf(MarkEvidence(c, s, now))
  {
    hide MarkEvidence, PowerOfTwo;
  }

  lemma ProgressGuard(c: Config, s: State, now: int, id: nat, calMask: nat, status: nat, attempt: nat, pct: nat)
    requires Unjudged(s) && Decides(c, s, MagProgressIn(id, calMask, status, attempt, pct)).None?
    ensures GuardOf(MagProgress(c, s, now, id, calMask, status, attempt, pct))
            == GuardAfter(c, s, MagProgressIn(id, calMask, status, attempt, pct), now)
  {
    hide MagProgress, UpdateMagProgress, Emit, Fail, MarkProgressDirty, Recorded, LeaveStarting, MarkEvidence, Restarted, GuardOf;
    if MagFlow(c) {
      MarkGuard(c, s, now);
      MagProgressUnfolds(c, s, now, id, calMask, status, attempt, pct);
      var t := Recorded(c, s, now, calMask, id, ProgressOf(s, id, status, attempt, pct));
      RecordedGuard(c, s, now, calMask, id, ProgressOf(s, id, status, attempt, pct));
      LeaveGuard(t);
      MeanGuard(LeaveStarting(t));
      EmitGuard(UpdateMagProgress(LeaveStarting(t)));
      DirtyGuard(UpdateMagProgress(LeaveStarting(t)), now);
    } else {
      NotForOthers(c, s, now, id, calMask, status, attempt, pct);
    }
  }

  lemma ReportGuard(c: Config, s: State, now: int, id: nat, calMask: nat, status: nat, autosaved: bool)
    requires Unjudged(s) && Decides(c, s, MagReportIn(id, calMask, status, autosaved)).None?
    ensures GuardOf(MagReport(c, s, now, id, calMask, status, autosaved))
            == GuardAfter(c, s, MagReportIn(id, calMask, status, autosaved), now)
  {
    hide MagReport, UpdateMagProgress, Emit, Fail, Recorded, AllAutosaved, AllSucceeded, MarkEvidence, Restarted, GuardOf, Saved,
         CompletesSaving, ExpectedMask;
    if MagFlow(c) {
      MarkGuard(c, s, now);
      MagReportUnfolds(c, s, now, id, calMask, status, autosaved);
      var k := ReportOf(s, id, status, autosaved);
      var t := Recorded(c, s, now, calMask, id, k);
      RecordedGuard(c, s, now, calMask, id, k);
      RecordGist(c, s, now, calMask, id, k);
      MeanGuard(t);
      MeanGist(t);
      var u := UpdateMagProgress(t);
      AllSavedMeans(s, u, id, calMask, k);
      EmitGuard(u);
      EmitGuard(u.(phase := AwaitingAccept));
      PhaseGuard(u, AwaitingAccept);
    } else {
      NotForOthers(c, s, now, id, calMask, status, 0, 0);
    }
  }

  lemma PhaseGuard(s: State, p: Phase)
    ensures GuardOf(s.(phase := p)) == GuardOf(s)
  {
  }

  lemma LeaveGuard(s: State)
    ensures GuardOf(LeaveStarting(s)) == GuardOf(s)
  {
  }

  lemma FlushGuard(s: State, slot: Slot)
    requires slot in s.timers && s.timers[slot].action.Flush?
    ensures GuardOf(TimerFires(s, slot)) == GuardOf(s).(watch := GuardOf(s).watch - {slot})
  {
    hide Emit;
    EmitGuard(s.(timers := s.timers - {slot}));
  }

  /** Any input to an open session that does not end it: signs of life restart the idle watchdog and stop the start
      watchdog, unless a cancel is pending; and each command sets its own. */
  lemma WatchedExactly(c: Config, s: State, i: Input, now: int)
    requires Unjudged(s) && (i.TimerIn? ==> i.slot in s.timers) && Decides(c, s, i).None?
    ensures GuardOf(Step(c, s, i, now)) == GuardAfter(c, s, i, now)
  {
    hide CommandAck, Statustext, PositionRequest, MagProgress, MagReport, TimerFires, Start, Cancel, ConfirmPosition, AcceptCalibration,
         Fail, Emit, CanConfirm, CanAccept, AckDecides, Restarted, With, GuardOf, StartCallGuard, CancelCallGuard,
         AckGuardAfter;
    match i {
      case StartCall(accepts) =>
        if accepts { StartGuard(c, s, now); } else { NotStarted(c, s, now); }
      case TerminateCall => assert false;
      case CancelCall(accepts) =>
        if accepts { CancelGuard(c, s, now); } else { NoCall(c, s, now, 0); }
      case OwnerChanged => EmitGuard(s);
      case AckIn(id, result) => AckGuard(c, s, now, id, result);
      case TextIn(e) => TextGuard(c, s, now, e);
      case PositionIn(m) => PositionGuard(c, s, now, m);
      case ConfirmCall(position, accepts) =>
        if accepts { ConfirmGuard(c, s, now, position); } else { NoCall(c, s, now, position); }
      case AcceptCall(accepts) =>
        if accepts { AcceptGuard(c, s, now); } else { NoCall(c, s, now, 0); }
      case TimerIn(slot) => FlushGuard(s, slot);
      case MagProgressIn(id, mask, status, attempt, pct) => ProgressGuard(c, s, now, id, mask, status, attempt, pct);
      case MagReportIn(id, mask, status, autosaved) => ReportGuard(c, s, now, id, mask, status, autosaved);
    }
  }

  lemma NotStarted(c: Config, s: State, now: int)
    requires s.started
    ensures Start(c, s, now, false) == s && StartCallGuard(c, s, GuardOf(s), now) == GuardOf(s)
  {
    NothingToStart(c, s, now, false);
  }

  /** A call that is not possible changes nothing. */
  lemma NoCall(c: Config, s: State, now: int, position: nat)
    ensures !CanCancel(c, s) ==> Cancel(c, s, now, false) == s && CancelCallGuard(c, s, GuardOf(s), now) == GuardOf(s)
    ensures !CanConfirm(c, s, position) ==> ConfirmPosition(c, s, now, position, false) == s
    ensures !CanAccept(c, s) ==> AcceptCalibration(c, s, now, false) == s
  {
    hide Fail, Emit, CanConfirm, CanAccept, CanCancel;
  }

  // ---------------------------------------------------------------------------------------------------
  // Whole sessions
  // ---------------------------------------------------------------------------------------------------

  /** Event `i` finds the session open and decides how it ends. */
  ghost predicate Decided(c: Config, s: State, es: seq<Timed>, i: nat)
    requires AllowedRun(c, s, es)
  {
    i < |es| && !Terminal(At(c, s, es, i).phase) && DecidedBy(c, At(c, s, es, i), es[i].input).Some?
  }

  /** How an input ends the session it finds; none if it does not, or names a timer that is not armed. */
  function DecidedBy(c: Config, s: State, i: Input): Option<Ending> {
    if i.TimerIn? && i.slot !in s.timers then None else Decides(c, s, i)
  }

  predicate EndedAs(t: State, e: Ending) {
    t.phase == e.phase && t.verification == e.verification && t.failureCode == e.code && t.rebootRequired == e.reboot
  }

  /** An open session is not put down to anything yet. */
  predicate Clean(s: State) {
    !Terminal(s.phase) ==> s.failureCode.None? && !s.rebootRequired
  }

  lemma NextDecided(c: Config, s: State, es: seq<Timed>, i: nat)
    requires AllowedRun(c, s, es) && es != []
    ensures Decided(c, s, es, i + 1) <==> Decided(c, Step(c, s, es[0].input, es[0].now), es[1..], i)
    ensures Decided(c, s, es, 0) <==> !Terminal(s.phase) && Decides(c, s, es[0].input).Some?
    ensures At(c, s, es, 0) == s && (i < |es[1..]| ==> At(c, s, es, i + 1) == At(c, Step(c, s, es[0].input, es[0].now), es[1..], i))
  {
    hide Step, Decides;
  }

  lemma {:induction false} EndedStays(c: Config, s: State, es: seq<Timed>)
    requires Inv(c, s) && Terminal(s.phase) && AllowedRun(c, s, es)
    ensures var t := After(c, s, es);
            t.phase == s.phase && t.verification == s.verification && t.failureCode == s.failureCode && t.rebootRequired == s.rebootRequired
    ensures forall i: nat :: !Decided(c, s, es, i)
    decreases |es|
  {
    hide Inv, Step, DecidedBy;
    if es != [] {
      var t := Step(c, s, es[0].input, es[0].now);
      StepKeeps(c, s, es[0].input, es[0].now);
      EndIsFinal(c, s, es[0].input, es[0].now);
      EndKeepsCode(c, s, es[0].input, es[0].now);
      EndedStays(c, t, es[1..]);
      NextDecided(c, s, es, 0);
      forall i: nat | i > 0 ensures !Decided(c, s, es, i) {
        NextDecided(c, s, es, i - 1);
      }
    }
  }

  lemma EndKeepsCode(c: Config, s: State, i: Input, now: int)
    requires Inv(c, s) && Terminal(s.phase) && (i.TimerIn? ==> i.slot in s.timers)
    ensures var t := Step(c, s, i, now); t.failureCode == s.failureCode && t.rebootRequired == s.rebootRequired
  {
  }

  /** In every session the outcome is the one the first deciding event decides: it ends exactly if there is one, with that
      phase, verification, code and restart demand, and whatever comes later. */
  lemma {:induction false} EndsExactly(c: Config, s: State, es: seq<Timed>)
    requires Inv(c, s) && !Terminal(s.phase) && Clean(s) && AllowedRun(c, s, es)
    ensures Terminal(After(c, s, es).phase) <==> exists i: nat :: Decided(c, s, es, i)
    ensures forall i: nat :: Decided(c, s, es, i) ==> EndedAs(After(c, s, es), DecidedBy(c, At(c, s, es, i), es[i].input).value)
    decreases |es|
  {
    hide Inv, Step, Decides;
    if es != [] {
      var t, later := Step(c, s, es[0].input, es[0].now), es[1..];
      OpenIsUnjudged(c, s);
      StepKeeps(c, s, es[0].input, es[0].now);
      StepSays(c, s, es[0].input, es[0].now);
      NextDecided(c, s, es, 0);
      forall i: nat ensures Decided(c, s, es, i + 1) <==> Decided(c, t, later, i) {
        NextDecided(c, s, es, i);
      }
      if Terminal(t.phase) {
        EndedStays(c, t, later);
        assert Decided(c, s, es, 0);
        forall i: nat | Decided(c, s, es, i) ensures i == 0 {
          if i > 0 {
            NextDecided(c, s, es, i - 1);
          }
        }
      } else {
        DecisionEnds(c, s, es[0].input, es[0].now);
        EndsExactly(c, t, later);
        forall i: nat | Decided(c, s, es, i)
          ensures EndedAs(After(c, s, es), DecidedBy(c, At(c, s, es, i), es[i].input).value)
        {
          NextDecided(c, s, es, i - 1);
          assert Decided(c, t, later, i - 1);
        }
        if i: nat :| Decided(c, t, later, i) {
          assert Decided(c, s, es, i + 1);
        }
        if i: nat :| Decided(c, s, es, i) {
          NextDecided(c, s, es, i - 1);
        }
      }
    }
  }

  lemma DecisionEnds(c: Config, s: State, i: Input, now: int)
    requires Unjudged(s) && (i.TimerIn? ==> i.slot in s.timers) && Concludes(s, Step(c, s, i, now), Decides(c, s, i))
    ensures Decides(c, s, i).Some? ==> Terminal(Step(c, s, i, now).phase)
  {
    hide Step, CanConfirm, CanAccept, CompletesSaving;
  }

  // ---------------------------------------------------------------------------------------------------
  // One-shot calibrations
  // ---------------------------------------------------------------------------------------------------

  /** A one-shot calibration has one command and at most one timer. */
  ghost predicate OneShotState(s: State) {
    && s.startCommandId.Preflight? && !s.cancelRequested && !s.magAcceptPending
    && forall slot :: slot in s.timers ==> slot.StartSlot? && s.timers[slot].action == GiveUp(AckTimeout)
  }

  lemma OneShotStep(c: Config, s: State, i: Input, now: int)
    requires OneShot(c) && OneShotState(s) && (i.TimerIn? ==> i.slot in s.timers)
    ensures OneShotState(Step(c, s, i, now))
  {
    hide Statustext, PositionRequest, MagProgress, MagReport, Start, CommandAck, Fail, TimerFires, Cancel, ConfirmPosition,
         AcceptCalibration, OneShotState, OneShot, Emit;
    OneShotEnds(s, External, NotApplicable);
    OneShotCalls(c, s, now, i);
    match i {
      case StartCall(accepts) => OneShotStart(c, s, now, accepts);
      case OwnerChanged => OneShotEmits(s);
      case AckIn(id, result) => OneShotAck(c, s, now, id, result);
      case TimerIn(slot) => OneShotTimer(s, slot);
      case _ =>
    }
  }

  lemma OneShotEmits(s: State)
    requires OneShotState(s)
    ensures OneShotState(Emit(s))
  {
  }

  lemma OneShotEnds(s: State, code: Code, v: Verification)
    requires OneShotState(s)
    ensures OneShotState(Fail(s, code, v))
    ensures OneShotState(Settle(s, Accepted, AckOnly))
  {
  }

  lemma OneShotStart(c: Config, s: State, now: int, accepts: bool)
    requires OneShot(c) && OneShotState(s)
    ensures OneShotState(Start(c, s, now, accepts))
  {
    hide AllSides, Start, Emit, Settle;
    if s.started || Terminal(s.phase) {
      NothingToStart(c, s, now, accepts);
    } else {
      StartUnfolds(c, s, now, accepts);
      var failed := s.(started := true, startedAt := now, startCommandId := StartCommandFor(c), failureCode := Some(WriteRejected));
      OneShotSettles(failed);
      OneShotEmits(StartWritten(c, s, now));
    }
  }

  lemma OneShotSettles(s: State)
    requires OneShotState(s)
    ensures OneShotState(Settle(s, Failed, NotApplicable))
  {
  }

  lemma OneShotAck(c: Config, s: State, now: int, id: CommandId, result: AckResult)
    requires OneShot(c) && OneShotState(s)
    ensures OneShotState(CommandAck(c, s, now, id, result))
  {
    hide Settle, Fail, MagAcceptAck, Announce, CancelCommandFor, MarkEvidence, Emit;
    OneShotEnds(s, StartDenied, NotApplicable);
    var t := Arm(s, StartSlot, now + AP_ONESHOT_ACK_TIMEOUT_MS, GiveUp(AckTimeout));
    OneShotEmits(t.(phase := Running));
    assert OneShotState(Announce(t)) by {
      OneShotAnnounces(t);
    }
  }

  lemma OneShotAnnounces(s: State)
    requires OneShotState(s)
    ensures OneShotState(Announce(s))
  {
  }

  lemma OneShotTimer(s: State, slot: Slot)
    requires OneShotState(s) && slot in s.timers
    ensures OneShotState(TimerFires(s, slot))
  {
    hide Fail;
    OneShotEnds(s.(timers := s.timers - {slot}), AckTimeout, NotApplicable);
  }

  /** What does not concern a one-shot calibration leaves it alone. */
  lemma OneShotCalls(c: Config, s: State, now: int, i: Input)
    requires OneShot(c) && OneShotState(s) && (i.TimerIn? ==> i.slot in s.timers)
    ensures !i.StartCall? && !i.OwnerChanged? && !i.AckIn? && !i.TimerIn? && !i.TerminateCall? ==> Step(c, s, i, now) == s
  {
    hide Statustext, PositionRequest, MagProgress, MagReport, Start, CommandAck, Fail, TimerFires, Emit;
    match i {
      case TextIn(e) => NotForArduPilot(c, s, now, e);
      case PositionIn(m) => PositionUnfolds(c, s, now, m);
      case MagProgressIn(id, mask, status, attempt, pct) => NotForOthers(c, s, now, id, mask, status, attempt, pct);
      case MagReportIn(id, mask, status, autosaved) => NotForOthers(c, s, now, id, mask, status, 0, 0);
      case _ =>
    }
  }

  /** The accepting ACK of the start command. */
  const ACCEPTING := AckIn(Preflight, AckAccepted)

  ghost predicate AcceptedAt(c: Config, s: State, es: seq<Timed>, i: nat)
    requires AllowedRun(c, s, es)
  {
    i < |es| && !Terminal(At(c, s, es, i).phase) && es[i].input == ACCEPTING
  }

  lemma {:induction false} OneShotAt(c: Config, s: State, es: seq<Timed>, i: nat)
    requires OneShot(c) && OneShotState(s) && AllowedRun(c, s, es) && i < |es|
    ensures OneShotState(At(c, s, es, i)) && (es[i].input.TimerIn? ==> es[i].input.slot in At(c, s, es, i).timers)
    decreases |es|
  {
    hide Step, OneShotState;
    if i > 0 {
      OneShotStep(c, s, es[0].input, es[0].now);
      OneShotAt(c, Step(c, s, es[0].input, es[0].now), es[1..], i - 1);
    }
  }

  lemma OneShotDecides(c: Config, s: State, i: Input)
    requires OneShot(c) && OneShotState(s) && (i.TimerIn? ==> i.slot in s.timers)
    ensures i == ACCEPTING <==> Decides(c, s, i).Some? && Decides(c, s, i).value.phase.Accepted?
    ensures i == ACCEPTING ==> Decides(c, s, i) == Some(Ending(Accepted, AckOnly, None, false))
  {
    hide CanConfirm, CanAccept, CompletesSaving;
  }

  /** In every run a one-shot calibration is accepted if and only if its start command was acknowledged as accepted while
      it was open; then it is accepted at once, on the word of the ACK alone. */
  lemma OneShotAcceptedExactly(c: Config, es: seq<Timed>)
    requires OneShot(c) && AllowedRun(c, FRESH, es)
    ensures var t := After(c, FRESH, es);
            && (t.phase.Accepted? <==> exists i: nat :: AcceptedAt(c, FRESH, es, i))
            && (t.phase.Accepted? ==> t.verification.AckOnly? && t.failureCode.None? && !t.rebootRequired)
  {
    hide Step, Decides, Inv, After, At, AllowedRun, OneShotState;
    FreshIsSafe(c);
    FreshIsOneShot();
    EndsExactly(c, FRESH, es);
    forall i: nat | i < |es|
      ensures AcceptedAt(c, FRESH, es, i)
              <==> Decided(c, FRESH, es, i) && DecidedBy(c, At(c, FRESH, es, i), es[i].input).value.phase.Accepted?
      ensures AcceptedAt(c, FRESH, es, i) ==>
                DecidedBy(c, At(c, FRESH, es, i), es[i].input) == Some(Ending(Accepted, AckOnly, None, false))
    {
      OneShotAt(c, FRESH, es, i);
      OneShotDecides(c, At(c, FRESH, es, i), es[i].input);
    }
    if After(c, FRESH, es).phase.Accepted? {
      var i: nat :| Decided(c, FRESH, es, i);
      assert AcceptedAt(c, FRESH, es, i);
    }
  }

  lemma FreshIsOneShot()
    ensures OneShotState(FRESH) && Clean(FRESH) && !Terminal(FRESH.phase)
  {
  }

  // ---------------------------------------------------------------------------------------------------
  // Silence
  // ---------------------------------------------------------------------------------------------------

  /** Signs of life: what the flight controller says about the calibration, and a confirmed position. */
  predicate Activity(c: Config, s: State, i: Input) {
    match i
    case TextIn(_) => c.family.Px4?
    case PositionIn(m) => InteractiveAccel(c) && m.Hold? && 1 <= m.position <= 6
    case ConfirmCall(position, _) => CanConfirm(c, s, position)
    case MagProgressIn(_, _, _, _, _) => MagFlow(c)
    case MagReportIn(_, _, _, _) => MagFlow(c)
    case AckIn(id, _) => id == s.startCommandId && !(s.magAcceptPending && id == AcceptMag)
    case _ => false
  }

  /** The last sign of life of a run, or the one given if there is none. */
  ghost function LastSign(c: Config, s: State, es: seq<Timed>, before: Option<int>): Option<int>
    requires AllowedRun(c, s, es)
    decreases |es|
  {
    if es == [] then before
    else LastSign(c, Step(c, s, es[0].input, es[0].now), es[1..], if Activity(c, s, es[0].input) then Some(es[0].now) else before)
  }

  /** A quarter of an hour on PX4, otherwise twenty minutes. */
  function OverallLimit(c: Config): nat {
    if c.family.Px4? then 900_000 else 1_200_000
  }

  /** Two minutes of silence, five while somebody turns the vehicle by hand. */
  function IdleLimit(c: Config): nat {
    if InteractiveAccel(c) then 300_000 else 120_000
  }

  lemma LimitsMean(c: Config)
    requires !OneShot(c)
    ensures OverallTimeoutMs(c) == OverallLimit(c) && IdleTimeoutMs(c) == IdleLimit(c)
  {
  }

  /** The session is given up 15 seconds after its start if nothing was heard, the idle time after the last sign of life,
      and in any case at its overall limit. */
  predicate WatchedFrom(c: Config, s: State, start: int, last: Option<int>) {
    && s.started
    && (!Terminal(s.phase) && !s.cancelRequested ==>
          && OverallSlot in s.timers && s.timers[OverallSlot] == Timer(start + OverallLimit(c), GiveUp(OverallTimeout))
          && match last
             case None => IdleSlot !in s.timers
                          && StartSlot in s.timers && s.timers[StartSlot] == Timer(start + 15000, GiveUp(StartTimeout))
             case Some(at) => StartSlot !in s.timers
                              && IdleSlot in s.timers && s.timers[IdleSlot] == Timer(at + IdleLimit(c), GiveUp(IdleTimeout)))
  }

  /** The watchdogs of the start, of silence and of the whole session. */
  predicate SameWatch(a: Guard, b: Guard) {
    forall slot :: slot in {StartSlot, IdleSlot, OverallSlot} ==>
      (slot in a.watch <==> slot in b.watch) && (slot in a.watch ==> a.watch[slot] == b.watch[slot])
  }

  lemma ActivityRestarts(c: Config, s: State, i: Input, now: int)
    requires !OneShot(c) && !Terminal(s.phase) && (i.TimerIn? ==> i.slot in s.timers) && Decides(c, s, i).None?
    requires Activity(c, s, i)
    ensures GuardAfter(c, s, i, now) == Restarted(c, GuardOf(s), now)
  {
    hide Restarted, With, CanConfirm, CanAccept, CompletesSaving, GuardOf, OneShot;
    AckedIs(s);
    CancelKnows(c, s);
  }

  lemma CancelKnows(c: Config, s: State)
    ensures s.cancelRequested ==> Restarted(c, GuardOf(s), 0) == GuardOf(s)
    ensures forall now :: s.cancelRequested ==> Restarted(c, GuardOf(s), now) == GuardOf(s)
  {
  }

  lemma QuietKeeps(c: Config, s: State, i: Input, now: int)
    requires !OneShot(c) && s.started && !Terminal(s.phase) && (i.TimerIn? ==> i.slot in s.timers) && Decides(c, s, i).None?
    requires !Activity(c, s, i)
    requires i.TimerIn? ==> i.slot !in {StartSlot, IdleSlot, OverallSlot}
    ensures GuardAfter(c, s, i, now).cancelling || SameWatch(GuardAfter(c, s, i, now), GuardOf(s))
  {
    hide Restarted, CanConfirm, CanAccept, CompletesSaving, GuardOf, OneShot;
    AckedIs(s);
  }

  lemma SilenceStep(c: Config, s: State, i: Input, now: int, start: int, last: Option<int>)
    requires !OneShot(c) && Inv(c, s) && WatchedFrom(c, s, start, last) && (i.TimerIn? ==> i.slot in s.timers)
    ensures WatchedFrom(c, Step(c, s, i, now), start, if Activity(c, s, i) then Some(now) else last)
  {
    hide Inv, Step, Decides, IdleTimeoutMs, OverallTimeoutMs, CanConfirm, CanAccept, OneShot, Activity, GuardAfter;
    if Terminal(s.phase) {
      EndIsFinal(c, s, i, now);
      EndStaysStarted(c, s, i, now);
    } else {
      OpenIsUnjudged(c, s);
      StepSays(c, s, i, now);
      StartedStays(c, s, i, now);
      if Decides(c, s, i).None? {
        WatchedExactly(c, s, i, now);
        SilenceGuard(c, s, Step(c, s, i, now), i, now, start, last);
      } else {
        DecisionEnds(c, s, i, now);
      }
    }
  }

  lemma SilenceGuard(c: Config, s: State, t: State, i: Input, now: int, start: int, last: Option<int>)
    requires !OneShot(c) && WatchedFrom(c, s, start, last) && (i.TimerIn? ==> i.slot in s.timers) && !Terminal(s.phase)
    requires Decides(c, s, i).None? && GuardOf(t) == GuardAfter(c, s, i, now) && t.started
    ensures WatchedFrom(c, t, start, if Activity(c, s, i) then Some(now) else last)
  {
    hide Decides, IdleTimeoutMs, OverallTimeoutMs, IdleLimit, OverallLimit, OneShot, Activity, GuardAfter;
    LimitsMean(c);
    FlushOnly(c, s, i);
    SlotsOf(s);
    SlotsOf(t);
    AckedIs(t);
    CancelStays(c, s, i, now);
    if !t.cancelRequested {
      if Activity(c, s, i) {
        ActivityRestarts(c, s, i, now);
      } else {
        QuietKeeps(c, s, i, now);
      }
    }
  }

  lemma CancelStays(c: Config, s: State, i: Input, now: int)
    ensures s.cancelRequested ==> GuardAfter(c, s, i, now).cancelling
  {
    hide IdleTimeoutMs, OverallTimeoutMs, CanConfirm, CanAccept, OneShot;
  }

  lemma SlotsOf(s: State)
    ensures forall slot :: slot != FlushSlot ==>
              (slot in GuardOf(s).watch <==> slot in s.timers) && (slot in s.timers ==> GuardOf(s).watch[slot] == s.timers[slot])
  {
  }

  lemma FlushOnly(c: Config, s: State, i: Input)
    requires (i.TimerIn? ==> i.slot in s.timers) && Decides(c, s, i).None?
    ensures i.TimerIn? ==> s.timers[i.slot].action.Flush?
  {
  }

  lemma StartedStays(c: Config, s: State, i: Input, now: int)
    requires Unjudged(s) && (i.TimerIn? ==> i.slot in s.timers) && s.started
    ensures Step(c, s, i, now).started
  {
    hide Step;
    StepSays(c, s, i, now);
    if i.StartCall? {
      NothingToStart(c, s, now, i.accepts);
      assert Step(c, s, i, now) == s by { StartIs(c, s, i.accepts, now); }
    }
  }

  lemma StartIs(c: Config, s: State, accepts: bool, now: int)
    ensures Step(c, s, StartCall(accepts), now) == Start(c, s, now, accepts)
  {
    hide Start;
  }

  lemma EndStaysStarted(c: Config, s: State, i: Input, now: int)
    requires Inv(c, s) && Terminal(s.phase) && (i.TimerIn? ==> i.slot in s.timers)
    ensures s.started ==> Step(c, s, i, now).started
  {
    hide Emit;
    EmitGist(s);
  }

  lemma {:induction false} SilenceRun(c: Config, s: State, es: seq<Timed>, start: int, last: Option<int>)
    requires !OneShot(c) && Inv(c, s) && WatchedFrom(c, s, start, last) && AllowedRun(c, s, es)
    ensures WatchedFrom(c, After(c, s, es), start, LastSign(c, s, es, last))
    decreases |es|
  {
    hide Inv, Step, WatchedFrom, Activity;
    if es != [] {
      StepKeeps(c, s, es[0].input, es[0].now);
      SilenceStep(c, s, es[0].input, es[0].now, start, last);
      SilenceRun(c, Step(c, s, es[0].input, es[0].now), es[1..], start,
                 if Activity(c, s, es[0].input) then Some(es[0].now) else last);
    }
  }

  /** In every session that has been started and is not one-shot, the watchdogs run from the start and from the last sign
      of life, until it ends or is cancelled. */
  lemma SilenceEnds(c: Config, es: seq<Timed>, start: int)
    requires !OneShot(c) && AllowedRun(c, Start(c, FRESH, start, true), es)
    ensures var s := Start(c, FRESH, start, true); WatchedFrom(c, After(c, s, es), start, LastSign(c, s, es, None))
  {
    hide Inv, Step, Start;
    LimitsMean(c);
    FreshIsSafe(c);
    StartKeeps(c, FRESH, start, true);
    StartGuard(c, FRESH, start);
    OpenIsUnjudged(c, FRESH);
    StartSays(c, FRESH, start, true);
    SlotsOf(Start(c, FRESH, start, true));
    SilenceRun(c, Start(c, FRESH, start, true), es, start, None);
  }
}
