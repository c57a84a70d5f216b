/** The calibration session object: the fields its inputs and timers change in place. */
module CalibrationSessions {
  import opened Bytes
  import opened CalibrationRules
  import opened CalibrationSafety
  import opened CalibrationRuns
  import opened CalibrationOutcomes

  class CalibrationSession {
    const config: Config
    var timers: map<Slot, Timer>
    var startCommandId: CommandId
    var started: bool
    var cancelRequested: bool
    var lastRequestedPosition: Option<nat>
    var seqNo: nat
    var phase: Phase
    var verification: Verification
    var progress: Option<nat>
    var sides: Option<Sides>
    var requestedPosition: Option<nat>
    var expectedMagMask: Option<nat>
    var compasses: map<nat, Compass>
    var magAcceptPending: bool
    var magAcceptAcked: bool
    var failureCode: Option<Code>
    var rebootRequired: bool
    /** The commands the link took and the snapshots published, oldest first. */
    var sent: seq<Sent>
    var snapshots: seq<Snapshot>
    ghost var startedAt: int
    ghost var cancelledAt: int

    ghost function Now(): State
      reads this
    {
      State(timers, startCommandId, started, cancelRequested, lastRequestedPosition, seqNo, phase, verification, progress, sides,
            requestedPosition, expectedMagMask, compasses, magAcceptPending, magAcceptAcked, failureCode, rebootRequired, sent,
            snapshots, startedAt, cancelledAt)
    }

    /** An open session is unjudged and watched, an ended one has no timer, and its snapshots tell one outcome. */
    ghost predicate Valid()
      reads this
    {
      Inv(config, Now())
    }

    constructor (config: Config)
      ensures Valid() && this.config == config && Now() == FRESH
    {
      this.config := config;
      timers, startCommandId, started, cancelRequested, lastRequestedPosition := map[], Preflight, false, false, None;
      seqNo, phase, verification, progress, sides, requestedPosition := 0, Starting, NotApplicable, None, None, None;
      expectedMagMask, compasses, magAcceptPending, magAcceptAcked := None, map[], false, false;
      failureCode, rebootRequired, sent, snapshots := None, false, [], [];
      startedAt, cancelledAt := 0, 0;
      new;
      FreshIsSafe(config);
    }

    method Publish()
      modifies `timers, `seqNo, `snapshots
      ensures Now() == Emit(old(Now()))
    {
      timers, seqNo := timers - {FlushSlot}, seqNo + 1;
      snapshots := snapshots + [Snapshot(seqNo, phase, verification, progress, sides, rebootRequired)];
    }

    method ArmTimer(slot: Slot, due: int, action: Action)
      modifies `timers
      ensures Now() == Arm(old(Now()), slot, due, action)
    {
      timers := timers[slot := Timer(due, action)];
    }

    /** The session ends with this outcome: no timer is left, one last snapshot goes out. */
    method Finish(p: Phase, v: Verification)
      modifies `timers, `seqNo, `snapshots, `phase, `verification
      ensures Now() == Settle(old(Now()), p, v)
    {
      hide Emit;
      Conclude(p, v);
      Publish();
    }

    method Conclude(p: Phase, v: Verification)
      modifies `timers, `phase, `verification
      ensures Now() == old(Now()).(timers := map[], phase := p, verification := v)
    {
      phase, verification, timers := p, v, map[];
    }

    method FailWith(code: Code, v: Verification)
      modifies `timers, `seqNo, `snapshots, `phase, `verification, `failureCode
      ensures Now() == Fail(old(Now()), code, v)
    {
      if Terminal(phase) {
        return;
      }
      failureCode := Some(code);
      Finish(Failed, v);
    }

    method NoteEvidence(now: int)
      modifies `timers
      ensures Now() == MarkEvidence(config, old(Now()), now)
    {
      if cancelRequested {
        return;
      }
      timers := timers - {StartSlot};
      ArmTimer(IdleSlot, now + IdleTimeoutMs(config), GiveUp(IdleTimeout));
    }

    method NoteProgress(now: int)
      modifies `timers
      ensures Now() == MarkProgressDirty(old(Now()), now)
    {
      if Terminal(phase) || FlushSlot in timers {
        return;
      }
      ArmTimer(FlushSlot, now + PROGRESS_COALESCE_MS, Flush);
    }

    /** The start command goes out at most once in the life of a session. */
    method Begin(now: int, accepts: bool)
      requires Valid()
      modifies this
      ensures Valid() && Now() == Start(config, old(Now()), now, accepts)
      ensures old(started || Terminal(phase)) ==> Now() == old(Now())
      ensures !old(started || Terminal(phase)) ==> started && (accepts ==> |sent| == |old(sent)| + 1) && (Terminal(phase) <==> !accepts)
    {
      hide Start, StartWritten, Emit, Settle, Arm, Fail, Inv, Started;
      ghost var s := Now();
      StartKeeps(config, s, now, accepts);
      if started || Terminal(phase) {
        NothingToStart(config, s, now, accepts);
        return;
      }
      OpenIsUnjudged(config, s);
      StartUnfolds(config, s, now, accepts);
      StartSays(config, s, now, accepts);
      if !accepts {
        RefuseStart(now);
      } else {
        WriteStart(now);
        WrittenGist(config, s, now);
        EmitGist(StartWritten(config, s, now));
        if OneShot(config) {
          ArmTimer(StartSlot, now + AP_ONESHOT_ACK_TIMEOUT_MS, GiveUp(AckTimeout));
        } else {
          ArmTimer(StartSlot, now + START_EVIDENCE_TIMEOUT_MS, GiveUp(StartTimeout));
          ArmTimer(OverallSlot, now + OverallTimeoutMs(config), GiveUp(OverallTimeout));
        }
      }
    }

    method RefuseStart(now: int)
      modifies this
      ensures Now() == Settle(old(Now()).(started := true, startedAt := now, startCommandId := StartCommandFor(config),
                                          failureCode := Some(WriteRejected)), Failed, NotApplicable)
    {
      hide Settle, Noted;
      NoteStart(now);
      NotedFails(config, old(Now()), now);
      Refuse();
    }

    method Refuse()
      modifies `timers, `seqNo, `snapshots, `phase, `verification, `failureCode
      ensures Now() == Settle(old(Now()).(failureCode := Some(WriteRejected)), Failed, NotApplicable)
    {
      hide Settle;
      failureCode := Some(WriteRejected);
      Finish(Failed, NotApplicable);
    }

    method NoteStart(now: int)
      modifies `started, `startedAt, `startCommandId
      ensures Now() == Noted(config, old(Now()), now)
    {
      started, startedAt, startCommandId := true, now, StartCommandFor(config);
    }

    method WriteStart(now: int)
      modifies this
      ensures Now() == Emit(StartWritten(config, old(Now()), now))
    {
      hide Emit, Noted, StartWritten;
      NotedWrites(config, Now(), now);
      NoteStart(now);
      SetStarting();
      Publish();
    }

    method SetStarting()
      modifies `sent, `phase, `sides
      ensures Now() == Written(config, old(Now()))
    {
      hide AllSides;
      sent := sent + [StartCommand(StartCommandFor(config))];
      phase := Starting;
      if InteractiveAccel(config) {
        sides := Some(AllSides(PendingSide));
      }
    }

    method RequestCancel(now: int, accepts: bool) returns (ok: bool)
      requires Valid()
      modifies this
      ensures Valid() && Now() == Cancel(config, old(Now()), now, accepts)
      ensures ok <==> CanCancel(config, old(Now())) && accepts
      ensures ok ==> cancelRequested && !Terminal(phase) && phase == old(phase)
    {
      hide Cancel, Fail, Inv, Started;
      ghost var s := Now();
      CancelKeeps(config, s, now, accepts);
      CancelUnfolds(config, s, now, accepts);
      ok := !Terminal(phase) && CancelSupported(config) && !cancelRequested;
      if !ok {
        return;
      }
      if !accepts {
        FailWith(WriteRejected, NotApplicable);
        return false;
      }
      WriteCancel(now);
    }

    method WriteCancel(now: int)
      modifies this
      ensures Now() == CancelWritten(config, old(Now()), now)
    {
      hide CancelWindow;
      sent, cancelRequested, cancelledAt := sent + [CancelCommand(CancelCommandFor(config))], true, now;
      OpenCancelWindow(now);
    }

    method OpenCancelWindow(now: int)
      modifies `timers
      ensures Now() == old(Now()).(timers := CancelWindow(old(timers), now))
    {
      timers := timers - {StartSlot, IdleSlot, OverallSlot};
      timers := timers[CancelSlot := Timer(now + CANCEL_CONFIRM_TIMEOUT_MS, CancelUnconfirmed)];
    }

    /** An ACK may end an open session, but never as verified, and a refusal only ever as failed. It ends it exactly as the
        table of ACKs says: an accepted one-shot start as accepted, an accepted cancel of its own command as cancelled. On
        PX4 no ACK settles a cancel, and the first acceptance of an accept opens the window for the saved reports. */
    method HandleCommandAck(id: CommandId, result: AckResult, now: int)
      requires Valid()
      modifies this
      ensures Valid() && Now() == CommandAck(config, old(Now()), now, id, result)
      ensures if old(Terminal(phase)) then Now() == old(Now())
              else AfterAck(old(Now()), Now(), result, AckDecides(config, old(Now()), id, result))
      ensures !old(Terminal(phase)) && OneShot(config) && id == old(startCommandId) == Preflight && result.AckAccepted? ==>
                phase.Accepted? && verification.AckOnly?
      ensures !old(Terminal(phase)) && old(cancelRequested) && config.family.ArduPilot? && id.CancelMag? && result.AckAccepted? ==>
                phase.Cancelled? && verification.AckOnly?
      ensures !old(Terminal(phase)) && old(cancelRequested) && config.family.Px4? && id.Preflight? ==> Now() == old(Now())
      ensures !old(Terminal(phase)) && old(magAcceptPending) && id.AcceptMag? && result.AckAccepted? ==>
                if old(magAcceptAcked) then Now() == old(Now())
                else magAcceptAcked && AcceptSlot in timers && timers[AcceptSlot] == Timer(now + 5000, AcceptUnverified)
      ensures !old(Terminal(phase)) && !Terminal(phase) ==>
                GuardOf(Now()) == AckGuardAfter(config, old(Now()), GuardOf(old(Now())), id, result, now)
    {
      hide Settle, Fail, Arm, MarkEvidence, Emit, Inv, StartAck, MagAcceptAck, GuardOf, AckGuardAfter, AckDecides, AfterAck;
      ghost var s := Now();
      AckKeeps(config, s, now, id, result);
      if Terminal(phase) {
        return;
      }
      OpenIsUnjudged(config, s);
      CancelIsSupported(config, s);
      AckMeans(config, s, now, id, result);
      if cancelRequested && id == CancelCommandFor(config) {
        if config.family.Px4? || result.AckInProgress? {
          return;
        }
        if result.AckAccepted? {
          Finish(Cancelled, AckOnly);
        } else {
          FailWith(CancelDenied, AckOnly);
        }
        return;
      }
      if id == AcceptMag && magAcceptPending {
        HandleMagAcceptAck(result, now);
        return;
      }
      if id != startCommandId {
        return;
      }
      HandleStartAck(result, now);
    }

    method HandleStartAck(result: AckResult, now: int)
      modifies this
      ensures Now() == StartAck(config, old(Now()), now, result)
    {
      hide Settle, Fail, Arm, MarkEvidence, Emit, Announce;
      if result.AckRefused? {
        FailWith(StartDenied, NotApplicable);
        return;
      }
      if OneShot(config) {
        if result.AckAccepted? {
          Finish(Accepted, AckOnly);
          return;
        }
        ArmTimer(StartSlot, now + AP_ONESHOT_ACK_TIMEOUT_MS, GiveUp(AckTimeout));
      } else {
        NoteEvidence(now);
      }
      AnnounceRunning();
    }

    method AnnounceRunning()
      modifies `timers, `seqNo, `snapshots, `phase
      ensures Now() == Announce(old(Now()))
    {
      hide Emit;
      if phase.Starting? {
        phase := Running;
        Publish();
      }
    }

    method HandleMagAcceptAck(result: AckResult, now: int)
      modifies this
      ensures Now() == MagAcceptAck(old(Now()), now, result)
    {
      hide Fail, Arm;
      match result {
        case AckAccepted =>
          if magAcceptAcked {
            return;
          }
          magAcceptAcked := true;
          ArmTimer(AcceptSlot, now + MAG_ACCEPT_CONFIRM_TIMEOUT_MS, AcceptUnverified);
        case AckInProgress => ArmTimer(AcceptSlot, now + MAG_ACCEPT_CONFIRM_TIMEOUT_MS, GiveUp(AcceptAckTimeout));
        case AckRefused => FailWith(AcceptDenied, NotApplicable);
      }
    }

    method MarkSideState(side: Side, mark: SideState)
      modifies `timers, `seqNo, `snapshots, `sides
      ensures Now() == SetSideState(old(Now()), side, mark)
    {
      hide Emit;
      if sides.None? || side !in sides.value || sides.value[side].HiddenSide? || sides.value[side] == mark {
        return;
      }
      SetSides(Some(sides.value[side := mark]));
      Publish();
    }

    method SetSides(s: Option<Sides>)
      modifies `sides
      ensures Now() == old(Now()).(sides := s)
    {
      sides := s;
    }

    /** One parsed `[cal]` line from the flight controller: the session ends exactly with a final line, and as it says. */
    method HandleStatustext(e: CalEvent, now: int)
      requires Valid()
      modifies this
      ensures Valid() && Now() == Statustext(config, old(Now()), now, e)
      ensures Obeys(config, old(Now()), TextIn(e), Now())
    {
      hide Settle, Fail, MarkEvidence, MarkProgressDirty, Emit, AllDone, InitialSides, SetSideState, Inv, LeaveStarting, ReportDecides,
           Concludes, Follows, Word, Silent;
      ghost var s := Now();
      TextKeeps(config, s, now, e);
      if Terminal(phase) || config.family.ArduPilot? {
        if !Terminal(phase) {
          OpenIsUnjudged(config, s);
          TextSays(config, s, now, e);
        }
        return;
      }
      OpenIsUnjudged(config, s);
      TextSays(config, s, now, e);
      NoteEvidence(now);
      match e {
        case CalStarted(version) => ShowSides(if version == PX4_CAL_PROTOCOL_VERSION then InitialSides(config) else None);
        case OrientationDetected(side) => MarkSideState(side, ActiveSide);
        case SideDone(side) => MarkSideState(side, DoneSide);
        case SideAlreadyCompleted =>
        case CalProgress(pct) => ShowProgress(pct, now);
        case CalDone => FinishAllSides();
        case CalFailed => FailWith(CalibrationFailed, Verified);
        case CalCancelled => Finish(Cancelled, Verified);
      }
    }

    method ShowSides(s: Option<Sides>)
      modifies `timers, `seqNo, `snapshots, `sides, `phase
      ensures Now() == Emit(LeaveStarting(old(Now()).(sides := s)))
    {
      hide Emit;
      sides := s;
      if phase.Starting? {
        phase := Running;
      }
      Publish();
    }

    method ShowProgress(pct: nat, now: int)
      modifies `timers, `progress
      ensures Now() == MarkProgressDirty(old(Now()).(progress := Some(pct)), now)
    {
      hide MarkProgressDirty;
      progress := Some(pct);
      NoteProgress(now);
    }

    method FinishAllSides()
      modifies this
      ensures Now() == Settle(old(Now()).(progress := Some(100), sides := AllDone(old(sides))), Done, Verified)
    {
      hide Settle, AllDone;
      progress, sides := Some(100), AllDone(sides);
      Finish(Done, Verified);
    }

    /** A message of the interactive flow: only success and failure end the session, and as they say. */
    method HandlePositionRequest(m: PositionMessage, now: int)
      requires Valid()
      modifies this
      ensures Valid() && Now() == PositionRequest(config, old(Now()), now, m)
      ensures Obeys(config, old(Now()), PositionIn(m), Now())
    {
      hide PositionRequest, Fail, Inv, ReportDecides, Concludes, Follows, Word, Silent;
      ghost var s := Now();
      PositionKeeps(config, s, now, m);
      PositionUnfolds(config, s, now, m);
      if Terminal(phase) {
        return;
      }
      OpenIsUnjudged(config, s);
      PositionSays(config, s, now, m);
      if !InteractiveAccel(config) {
        return;
      }
      match m {
        case PositionSuccess => FinishPositions(now);
        case PositionFailure => FailWith(CalibrationFailed, Verified);
        case PositionUnknown =>
        case Hold(position) =>
          if position < 1 || position > 6 {
            return;
          }
          HoldPosition(position, now);
      }
    }

    method FinishPositions(now: int)
      modifies this
      ensures Now() == PositionsDone(config, old(Now()), now)
    {
      hide Settle, MarkEvidence, AllPositions;
      NoteEvidence(now);
      ShowAllDone();
      Finish(Done, Verified);
    }

    method ShowAllDone()
      modifies `progress, `requestedPosition, `sides
      ensures Now() == AllPositions(old(Now()))
    {
      hide AllSides;
      progress, requestedPosition, sides := Some(100), None, if sides.None? then None else Some(AllSides(DoneSide));
    }

    method HoldPosition(position: nat, now: int)
      modifies this
      ensures Now() == PositionHeld(config, old(Now()), now, position)
    {
      hide Emit, MarkEvidence, Requested, SidesHeld;
      NoteEvidence(now);
      ShowSide(position);
      SetRequested(position);
      Publish();
    }

    method ShowSide(position: nat)
      modifies `sides
      ensures Now() == SidesHeld(old(Now()), position)
    {
      hide MarkSide, PositionSide;
      if lastRequestedPosition.Some? && lastRequestedPosition.value != position {
        sides := MarkSide(sides, PositionSide(lastRequestedPosition.value), DoneSide);
      }
      sides := MarkSide(sides, PositionSide(position), ActiveSide);
    }

    method SetRequested(position: nat)
      modifies `lastRequestedPosition, `requestedPosition, `phase
      ensures Now() == Requested(old(Now()), position)
    {
      lastRequestedPosition, requestedPosition, phase := Some(position), Some(position), WaitingPosition;
    }

    /** Only the position the flight controller asks for can be confirmed. */
    method Confirm(position: nat, now: int, accepts: bool) returns (ok: bool)
      requires Valid()
      modifies this
      ensures Valid() && Now() == ConfirmPosition(config, old(Now()), now, position, accepts)
      ensures ok <==> CanConfirm(config, old(Now()), position) && accepts
      ensures ok ==> sent == old(sent) + [PositionCommand(position)]
      ensures !ok ==> sent == old(sent)
    {
      hide Fail, MarkEvidence, Emit, Inv;
      ghost var s := Now();
      ConfirmKeeps(config, s, now, position, accepts);
      if Terminal(phase) || !InteractiveAccel(config) || !phase.WaitingPosition? || requestedPosition != Some(position) {
        return false;
      }
      OpenIsUnjudged(config, s);
      ConfirmSays(config, s, now, position, accepts);
      if !accepts {
        FailWith(WriteRejected, NotApplicable);
        return false;
      }
      WriteConfirm(position);
      NoteEvidence(now);
      Publish();
      return true;
    }

    method WriteConfirm(position: nat)
      modifies `sent, `requestedPosition, `phase
      ensures Now() == old(Now()).(sent := old(sent) + [PositionCommand(position)], requestedPosition := None, phase := Running)
    {
      sent := sent + [PositionCommand(position)];
      requestedPosition, phase := None, Running;
    }

    method EnsureMask(calMask: nat, id: nat)
      modifies `expectedMagMask
      ensures Now() == LatchMask(old(Now()), calMask, id)
    {
      if expectedMagMask.None? {
        expectedMagMask := Some(if calMask > 0 then calMask else PowerOfTwo(id % 32));
      }
    }

    /** The rounded mean over the compasses the mask names. */
    method ComputeMagProgress()
      modifies `progress
      ensures Now() == UpdateMagProgress(old(Now()))
    {
      hide Bit, CompassCount, PercentSum;
      ghost var s := Now();
      var mask := if expectedMagMask.Some? then expectedMagMask.value else 0;
      var total: nat, n: nat, id: nat := 0, 0, 0;
      CompassStep(s, 0);
      while id < 8
        invariant Now() == s && id <= 8 && n == CompassCount(mask, id) && total == PercentSum(s, id)
      {
        CompassStep(s, id);
        if Bit(mask, id) {
          n := n + 1;
          total := total + if id in compasses then compasses[id].pct else 0;
        }
        id := id + 1;
      }
      MeanIs(s, n, total);
      if n != 0 {
        progress := Some((2 * total + n) / (2 * n));
      }
    }

    /** The mask is latched from the first message that names one, and the compass's entry replaced. */
    method RecordCompass(calMask: nat, id: nat, k: Compass, now: int)
      modifies `timers, `expectedMagMask, `compasses
      ensures Now() == Recorded(config, old(Now()), now, calMask, id, k)
    {
      hide MarkEvidence, LatchMask;
      NoteEvidence(now);
      EnsureMask(calMask, id);
      compasses := compasses[id := k];
    }

    /** Progress of one compass: only a failed one ends the session. */
    method HandleMagProgress(id: nat, calMask: nat, status: nat, attempt: nat, pct: nat, now: int)
      requires Valid()
      modifies this
      ensures Valid() && Now() == MagProgress(config, old(Now()), now, id, calMask, status, attempt, pct)
      ensures Obeys(config, old(Now()), MagProgressIn(id, calMask, status, attempt, pct), Now())
    {
      hide MagProgress, Fail, MarkProgressDirty, Emit, Recorded, UpdateMagProgress, Inv, LeaveStarting, ReportDecides, Concludes, Follows,
           Word, Silent;
      ghost var s := Now();
      MagProgressKeeps(config, s, now, id, calMask, status, attempt, pct);
      if Terminal(phase) {
        EndedIgnoresCompasses(config, s, now, id, calMask, status, attempt, pct);
        return;
      }
      OpenIsUnjudged(config, s);
      MagProgressSays(config, s, now, id, calMask, status, attempt, pct);
      if !MagFlow(config) {
        NotForOthers(config, s, now, id, calMask, status, attempt, pct);
        return;
      }
      MagProgressUnfolds(config, s, now, id, calMask, status, attempt, pct);
      var known := id in compasses;
      var changed := !known || compasses[id].status != status;
      RecordCompass(calMask, id, Compass(pct, status, attempt, if known then compasses[id].report else None), now);
      if status >= MAG_FAILED {
        FailWith(MagFailed(status), Verified);
        return;
      }
      NoLongerStarting();
      ComputeMagProgress();
      ShowCompass(changed, now);
    }

    method ShowCompass(changed: bool, now: int)
      modifies `timers, `seqNo, `snapshots
      ensures Now() == if changed then Emit(old(Now())) else MarkProgressDirty(old(Now()), now)
    {
      hide Emit, MarkProgressDirty;
      if changed {
        Publish();
      } else {
        NoteProgress(now);
      }
    }

    method NoLongerStarting()
      modifies `phase
      ensures Now() == LeaveStarting(old(Now()))
    {
      if phase.Starting? {
        phase := Running;
      }
    }

    /** The result of one compass: a failed one ends the session, and so does the report that completes the saving. */
    method HandleMagReport(id: nat, calMask: nat, status: nat, autosaved: bool, now: int)
      requires Valid()
      modifies this
      ensures Valid() && Now() == MagReport(config, old(Now()), now, id, calMask, status, autosaved)
      ensures Obeys(config, old(Now()), MagReportIn(id, calMask, status, autosaved), Now())
    {
      hide MagReport, Fail, Emit, Recorded, UpdateMagProgress, AllExpected, Inv, CompletesSaving, Saved,
           ReportDecides, Concludes, Follows, Word, Silent, AllAutosaved, AllSucceeded;
      ghost var s := Now();
      MagReportKeeps(config, s, now, id, calMask, status, autosaved);
      if Terminal(phase) {
        EndedIgnoresReports(config, s, now, id, calMask, status, autosaved);
        return;
      }
      OpenIsUnjudged(config, s);
      MagReportSays(config, s, now, id, calMask, status, autosaved);
      if !MagFlow(config) {
        NotForOthers(config, s, now, id, calMask, status, 0, 0);
        return;
      }
      MagReportUnfolds(config, s, now, id, calMask, status, autosaved);
      var known := id in compasses;
      RecordCompass(calMask, id, Compass(if known then compasses[id].pct else 100, status, if known then compasses[id].attempt else 0,
                                         Some(Report(status, autosaved))), now);
      if status >= MAG_FAILED {
        FailWith(MagFailed(status), Verified);
        return;
      }
      JudgeCompasses();
    }

    /** Complete once all expected compasses are saved; ready to be accepted once all have succeeded. */
    method JudgeCompasses()
      modifies this
      ensures Now() == var u := UpdateMagProgress(old(Now()));
                       if u.magAcceptPending && AllAutosaved(u) then Saved(u)
                       else if u.magAcceptPending || !AllSucceeded(u) then Emit(u) else Emit(u.(phase := AwaitingAccept))
    {
      hide Emit, UpdateMagProgress, AllExpected, Saved;
      ComputeMagProgress();
      var mask := if expectedMagMask.Some? then expectedMagMask.value else 0;
      if magAcceptPending {
        if AllExpected(mask, compasses, (k: Compass) => k.report.Some? && k.report.value.autosaved) {
          FinishSaved();
          return;
        }
        Publish();
        return;
      }
      if AllExpected(mask, compasses, (k: Compass) => k.report.Some? && k.report.value.status == MAG_SUCCESS) {
        AwaitAccept();
      } else {
        Publish();
      }
    }

    method AwaitAccept()
      modifies `timers, `seqNo, `snapshots, `phase
      ensures Now() == Emit(old(Now()).(phase := AwaitingAccept))
    {
      hide Emit;
      phase := AwaitingAccept;
      Publish();
    }

    method FinishSaved()
      modifies this
      ensures Now() == Saved(old(Now()))
    {
      hide Settle;
      progress, rebootRequired := Some(100), true;
      Finish(Done, Verified);
    }

    /** The operator accepts the reviewed results, once. */
    method AcceptMagCalibration(now: int, accepts: bool) returns (ok: bool)
      requires Valid()
      modifies this
      ensures Valid() && Now() == AcceptCalibration(config, old(Now()), now, accepts)
      ensures ok <==> CanAccept(config, old(Now())) && accepts
      ensures ok ==> sent == old(sent) + [AcceptCommand(MaskOf(old(Now())))] && magAcceptPending && !Terminal(phase)
      ensures !ok ==> sent == old(sent)
    {
      hide Fail, Emit, Arm, Inv;
      ghost var s := Now();
      AcceptKeeps(config, s, now, accepts);
      if Terminal(phase) || !MagFlow(config) || !phase.AwaitingAccept? || magAcceptPending {
        return false;
      }
      OpenIsUnjudged(config, s);
      AcceptSays(config, s, now, accepts);
      if !accepts {
        FailWith(WriteRejected, NotApplicable);
        return false;
      }
      WriteAccept();
      ArmTimer(AcceptSlot, now + MAG_ACCEPT_CONFIRM_TIMEOUT_MS, GiveUp(AcceptAckTimeout));
      Publish();
      return true;
    }

    method WriteAccept()
      modifies `sent, `magAcceptPending, `magAcceptAcked
      ensures Now() == old(Now()).(sent := old(sent) + [AcceptCommand(MaskOf(old(Now())))],
                                     magAcceptPending := true, magAcceptAcked := false)
    {
      sent := sent + [AcceptCommand(if expectedMagMask.Some? then expectedMagMask.value else 0)];
      magAcceptPending, magAcceptAcked := true, false;
    }

    /** External end of the session: link loss, target change, shutdown. */
    method Terminate()
      requires Valid()
      modifies this
      ensures Valid() && Terminal(phase) && timers == map[]
      ensures sent == old(sent) && (!old(Terminal(phase)) ==> !verification.Verified?)
      ensures Now() == if old(Terminal(phase)) then old(Now())
                       else Settle(old(Now()).(failureCode := Some(External)), Failed, NotApplicable)
    {
      hide Settle, Inv, Emit;
      WordIsHonest();
      ghost var s := Now();
      FailKeeps(config, s, External, NotApplicable);
      if !Terminal(phase) {
        FailGist(s, External, NotApplicable);
      }
      FailWith(External, NotApplicable);
      EndedHasNoTimer(config, Now());
    }

    /** A timer does what it was armed for; only a flush leaves the session open, and none makes it verified. */
    method FireTimer(slot: Slot)
      requires Valid() && slot in timers
      modifies this
      ensures Valid() && Now() == TimerFires(old(Now()), slot)
      ensures Concludes(old(Now()), Now(), TimerDecides(old(timers[slot].action))) && !verification.Verified? && Silent(old(Now()), Now())
    {
      hide TimerFires, Fail, Emit, Settle, Cleared, Inv;
      ghost var s := Now();
      NotEndedYet(config, s, slot);
      OpenIsUnjudged(config, s);
      TimerKeeps(config, s, slot, 0);
      TimerSays(s, slot);
      var action := timers[slot].action;
      ClearSlot(slot);
      FireUnfolds(s, slot);
      match action {
        case GiveUp(code) => FailWith(code, NotApplicable);
        case CancelUnconfirmed =>
          CloseUnconfirmed();
        case AcceptUnverified =>
          CloseUnverified();
        case Flush => Publish();
      }
    }

    method CloseUnconfirmed()
      modifies `timers, `seqNo, `snapshots, `phase, `verification, `failureCode
      ensures Now() == Settle(old(Now()).(failureCode := Some(CancelUnverified)), Cancelled, AckOnly)
    {
      hide Settle;
      failureCode := Some(CancelUnverified);
      Finish(Cancelled, AckOnly);
    }

    method CloseUnverified()
      modifies `timers, `seqNo, `snapshots, `phase, `verification, `rebootRequired
      ensures Now() == Settle(old(Now()).(rebootRequired := true), Accepted, AckOnly)
    {
      hide Settle;
      rebootRequired := true;
      Finish(Accepted, AckOnly);
    }

    method ClearSlot(slot: Slot)
      modifies `timers
      ensures Now() == Cleared(old(Now()), slot)
    {
      timers := timers - {slot};
    }
  }

  function Cleared(s: State, slot: Slot): State {
    s.(timers := s.timers - {slot})
  }

  function CancelWindow(timers: map<Slot, Timer>, now: int): map<Slot, Timer> {
    (timers - {StartSlot, IdleSlot, OverallSlot})[CancelSlot := Timer(now + CANCEL_CONFIRM_TIMEOUT_MS, CancelUnconfirmed)]
  }

  /** The state with the cancel command written and its window open. */
  function CancelWritten(c: Config, s: State, now: int): State {
    s.(sent := s.sent + [CancelCommand(CancelCommandFor(c))], cancelRequested := true, cancelledAt := now,
       timers := CancelWindow(s.timers, now))
  }

  lemma CancelUnfolds(c: Config, s: State, now: int, accepts: bool)
    ensures Cancel(c, s, now, accepts)
            == if !CanCancel(c, s) then s else if !accepts then Fail(s, WriteRejected, NotApplicable) else CancelWritten(c, s, now)
  {
    hide Fail;
  }

  function Noted(c: Config, s: State, now: int): State {
    s.(started := true, startedAt := now, startCommandId := StartCommandFor(c))
  }

  function Written(c: Config, s: State): State {
    s.(sent := s.sent + [StartCommand(StartCommandFor(c))], phase := Starting,
       sides := if InteractiveAccel(c) then Some(AllSides(PendingSide)) else s.sides)
  }

  lemma NotedFails(c: Config, s: State, now: int)
    ensures Noted(c, s, now).(failureCode := Some(WriteRejected))
            == s.(started := true, startedAt := now, startCommandId := StartCommandFor(c), failureCode := Some(WriteRejected))
  {
  }

  lemma NotedWrites(c: Config, s: State, now: int)
    ensures Written(c, Noted(c, s, now)) == StartWritten(c, s, now)
  {
    hide AllSides;
  }

  lemma EndedIgnoresCompasses(c: Config, s: State, now: int, id: nat, calMask: nat, status: nat, attempt: nat, pct: nat)
    requires Terminal(s.phase)
    ensures MagProgress(c, s, now, id, calMask, status, attempt, pct) == s
  {
    hide MarkEvidence, LatchMask;
  }

  lemma EndedIgnoresReports(c: Config, s: State, now: int, id: nat, calMask: nat, status: nat, autosaved: bool)
    requires Terminal(s.phase)
    ensures MagReport(c, s, now, id, calMask, status, autosaved) == s
  {
    hide MarkEvidence, LatchMask;
  }

  lemma EndedHasNoTimer(c: Config, s: State)
    requires Inv(c, s) && Terminal(s.phase)
    ensures s.timers == map[]
  {
  }

  lemma FireUnfolds(s: State, slot: Slot)
    requires slot in s.timers
    ensures TimerFires(s, slot) == match s.timers[slot].action
                                   case GiveUp(code) => Fail(Cleared(s, slot), code, NotApplicable)
                                   case CancelUnconfirmed =>
                                      Settle(Cleared(s, slot).(failureCode := Some(CancelUnverified)), Cancelled, AckOnly)
                                   case AcceptUnverified => Settle(Cleared(s, slot).(rebootRequired := true), Accepted, AckOnly)
                                   case Flush => Emit(Cleared(s, slot))
  {
    hide Fail, Emit, Settle;
  }

  lemma MeanIs(s: State, n: nat, total: nat)
    requires n == CompassCount(MaskOf(s), 8) && total == PercentSum(s, 8)
    ensures UpdateMagProgress(s) == if n == 0 then s else s.(progress := Some((2 * total + n) / (2 * n)))
  {
    hide Bit;
  }

  lemma CompassStep(s: State, id: nat)
    ensures CompassCount(MaskOf(s), 0) == 0 && PercentSum(s, 0) == 0
    ensures CompassCount(MaskOf(s), id + 1) == CompassCount(MaskOf(s), id) + if Bit(MaskOf(s), id) then 1 else 0
    ensures PercentSum(s, id + 1) == PercentSum(s, id) + if Bit(MaskOf(s), id) then PercentAt(s, id) else 0
  {
    hide Bit;
  }
}
