/** What each input to a calibration session reports, what whole sessions may therefore claim, and when they end. */
module CalibrationRuns {
  import opened Bytes
  import opened CalibrationRules
  import opened CalibrationSafety

  // ---------------------------------------------------------------------------------------------------
  // What a single input says and does
  // ---------------------------------------------------------------------------------------------------

  /** The mask of expected compasses, should this message be the first to name one. */
  function ExpectedMask(s: State, mask: nat, compass: nat): nat {
    if s.expectedMagMask.Some? then s.expectedMagMask.value else if mask > 0 then mask else PowerOfTwo(compass % 32)
  }

  predicate SavedAt(s: State, compass: nat) {
    compass in s.compasses && s.compasses[compass].report.Some? && s.compasses[compass].report.value.autosaved
  }

  /** With this report every compass the mask names among the first eight has reported its result as saved. */
  predicate CompletesSaving(s: State, compass: nat, mask: nat, autosaved: bool) {
    var expected := ExpectedMask(s, mask, compass);
    expected != 0 && forall k :: 0 <= k < 8 && Bit(expected, k) ==> if k == compass then autosaved else SavedAt(s, k)
  }

  /** The outcome a message of the flight controller reports to an open session: a final line on PX4, a final message of
      the interactive flow, a failed compass, or the report that completes the saving of accepted compass results.
      ACKs, timers and calls report none. */
  function Word(c: Config, s: State, i: Input): Option<Phase> {
    match i
    case TextIn(e) =>
      if !c.family.Px4? then None
      else if e.CalDone? then Some(Done) else if e.CalFailed? then Some(Failed) else if e.CalCancelled? then Some(Cancelled) else None
    case PositionIn(m) =>
      if !InteractiveAccel(c) then None
      else if m.PositionSuccess? then Some(Done) else if m.PositionFailure? then Some(Failed) else None
    case MagProgressIn(_, _, status, _, _) => if MagFlow(c) && status >= MAG_FAILED then Some(Failed) else None
    case MagReportIn(compass, mask, status, autosaved) =>
      if !MagFlow(c) then None
      else if status >= MAG_FAILED then Some(Failed)
      else if s.magAcceptPending && CompletesSaving(s, compass, mask, autosaved) then Some(Done)
      else None
    case _ => None
  }

  /** The outcome is verified exactly if the flight controller reported one, and then it is that one. */
  predicate Follows(t: State, word: Option<Phase>) {
    if word.Some? then t.phase == word.value && t.verification.Verified? else !t.verification.Verified?
  }

  /** What a message of the flight controller may do: nothing to an ended session; an open one it ends exactly if it
      reports an outcome, which is then the verified outcome; and no message makes the session send anything. */
  predicate Obeys(c: Config, s: State, i: Input, t: State) {
    if Terminal(s.phase) then t == s
    else Follows(t, Word(c, s, i)) && Concludes(s, t, ReportDecides(c, s, i)) && Silent(s, t)
  }

  /** Nothing was sent, started or cancelled. */
  predicate Silent(s: State, t: State) {
    && t.sent == s.sent && t.started == s.started && t.startedAt == s.startedAt
    && t.cancelRequested == s.cancelRequested && t.cancelledAt == s.cancelledAt
  }

  /** How a session ends: its outcome, what it is put down to, and whether the vehicle must be restarted. */
  datatype Ending = Ending(phase: Phase, verification: Verification, code: Option<Code>, reboot: bool)

  function FailedBy(code: Code, v: Verification := NotApplicable): Option<Ending> {
    Some(Ending(Failed, v, Some(code), false))
  }

  /** What ends an open session, and how: a refusing link, an outside termination, certain ACKs, the reports of the flight
      controller, and every timer but the one that flushes progress. */
  function Decides(c: Config, s: State, i: Input): Option<Ending>
    requires i.TimerIn? ==> i.slot in s.timers
  {
    match i
    case StartCall(accepts) => if !s.started && !accepts then FailedBy(WriteRejected) else None
    case CancelCall(accepts) => if CancelSupported(c) && !s.cancelRequested && !accepts then FailedBy(WriteRejected) else None
    case ConfirmCall(position, accepts) => if CanConfirm(c, s, position) && !accepts then FailedBy(WriteRejected) else None
    case AcceptCall(accepts) => if CanAccept(c, s) && !accepts then FailedBy(WriteRejected) else None
    case TerminateCall => FailedBy(External)
    case OwnerChanged => None
    case AckIn(id, result) => AckDecides(c, s, id, result)
    case TimerIn(slot) => TimerDecides(s.timers[slot].action)
    case _ => ReportDecides(c, s, i)
  }

  /** A pending cancel takes the ACKs of its command, where it has one of its own; a pending accept those of the accept
      command. Only a refusal, an accepted cancel, and for a one-shot calibration the accepted start decide anything. */
  function AckDecides(c: Config, s: State, id: CommandId, result: AckResult): Option<Ending> {
    if s.cancelRequested && id == CancelCommandFor(c) then
      if c.family.Px4? || result.AckInProgress? then None
      else if result.AckAccepted? then Some(Ending(Cancelled, AckOnly, None, false)) else FailedBy(CancelDenied, AckOnly)
    else if s.magAcceptPending && id == AcceptMag then
      if result.AckRefused? then FailedBy(AcceptDenied) else None
    else if id != s.startCommandId || result.AckInProgress? then None
    else if result.AckRefused? then FailedBy(StartDenied)
    else if OneShot(c) then Some(Ending(Accepted, AckOnly, None, false)) else None
  }

  function TimerDecides(action: Action): Option<Ending> {
    match action
    case GiveUp(code) => FailedBy(code)
    case CancelUnconfirmed => Some(Ending(Cancelled, AckOnly, Some(CancelUnverified), false))
    case AcceptUnverified => Some(Ending(Accepted, AckOnly, None, true))
    case Flush => None
  }

  /** The verified endings: exactly the reports of an outcome. */
  function ReportDecides(c: Config, s: State, i: Input): Option<Ending> {
    var word := Word(c, s, i);
    if word.None? then None
    else
      Some(Ending(word.value, Verified,
                  if !word.value.Failed? then None
                  else if i.MagProgressIn? then Some(MagFailed(i.status))
                  else if i.MagReportIn? then Some(MagFailed(i.status)) else Some(CalibrationFailed),
                  word.value.Done? && i.MagReportIn?))
  }

  /** The session ends exactly as decided, or stays open. */
  predicate Concludes(s: State, t: State, d: Option<Ending>) {
    match d
    case None => !Terminal(t.phase) && t.failureCode == s.failureCode && t.rebootRequired == s.rebootRequired
    case Some(e) => t.phase == e.phase && t.verification == e.verification
                    && t.failureCode == (if e.code.Some? then e.code else s.failureCode)
                    && t.rebootRequired == (e.reboot || s.rebootRequired)
  }

  predicate Unjudged(s: State) {
    !Terminal(s.phase) && s.verification.NotApplicable?
  }

  /** What the whole-session properties speak about. */
  datatype Gist = Gist(phase: Phase, verification: Verification, sent: seq<Sent>, started: bool, startedAt: int,
                       cancelRequested: bool, cancelledAt: int, compasses: map<nat, Compass>, magAcceptPending: bool,
                       mask: Option<nat>, code: Option<Code>, reboot: bool)

  function GistOf(s: State): Gist {
    Gist(s.phase, s.verification, s.sent, s.started, s.startedAt, s.cancelRequested, s.cancelledAt, s.compasses,
         s.magAcceptPending, s.expectedMagMask, s.failureCode, s.rebootRequired)
  }

  lemma EmitGist(s: State)
    ensures GistOf(Emit(s)) == GistOf(s)
  {
  }

  lemma ArmGist(s: State, slot: Slot, due: int, action: Action)
    ensures GistOf(Arm(s, slot, due, action)) == GistOf(s)
  {
  }

  lemma MarkGist(c: Config, s: State, now: int)
    ensures GistOf(MarkEvidence(c, s, now)) == GistOf(s)
  {
  }

  lemma DirtyGist(s: State, now: int)
    ensures GistOf(MarkProgressDirty(s, now)) == GistOf(s)
  {
  }

  lemma SideGist(s: State, side: Side, state: SideState)
    ensures GistOf(SetSideState(s, side, state)) == GistOf(s)
  {
    hide Emit;
    if s.sides.Some? && side in s.sides.value {
      EmitGist(s.(sides := Some(s.sides.value[side := state])));
    }
  }

  lemma SettleGist(s: State, p: Phase, v: Verification)
    ensures GistOf(Settle(s, p, v)) == GistOf(s).(phase := p, verification := v)
  {
    hide Emit;
    EmitGist(s.(timers := map[], phase := p, verification := v));
  }

  lemma FailGist(s: State, code: Code, v: Verification)
    requires !Terminal(s.phase)
    ensures GistOf(Fail(s, code, v)) == GistOf(s).(phase := Failed, verification := v, code := Some(code))
  {
    hide Settle;
    SettleGist(s.(failureCode := Some(code)), Failed, v);
  }

  lemma AnnounceGist(s: State)
    ensures GistOf(Announce(s)) == GistOf(s).(phase := if s.phase.Starting? then Running else s.phase)
  {
    hide Emit;
    EmitGist(s.(phase := Running));
  }

  lemma MeanGist(s: State)
    ensures GistOf(UpdateMagProgress(s)) == GistOf(s)
  {
    hide CompassCount, PercentSum, MaskOf;
  }

  /** What holds after an ACK, whatever it is. */
  predicate AfterAck(s: State, t: State, result: AckResult, d: Option<Ending>) {
    && !t.verification.Verified? && Silent(s, t) && t.compasses == s.compasses && t.magAcceptPending == s.magAcceptPending
    && (Terminal(t.phase) && result.AckRefused? ==> t.phase.Failed?)
    && Concludes(s, t, d)
  }

  lemma AckSays(c: Config, s: State, now: int, id: CommandId, result: AckResult)
    requires Unjudged(s)
    ensures AfterAck(s, CommandAck(c, s, now, id, result), result, AckDecides(c, s, id, result))
  {
    hide Settle, Fail, StartAck, MagAcceptAck, CommandAck, AfterAck;
    AckUnfolds(c, s, now, id, result);
    NothingSaid(s, result);
    if s.cancelRequested && id == CancelCommandFor(c) {
      CancelAckSays(s, result);
    } else if s.magAcceptPending && id == AcceptMag {
      AcceptAckEnds(s, now, result);
    } else {
      StartAckEnds(c, s, now, result);
    }
  }

  lemma NothingSaid(s: State, result: AckResult)
    requires Unjudged(s)
    ensures AfterAck(s, s, result, None)
  {
  }

  lemma CancelAckSays(s: State, result: AckResult)
    requires Unjudged(s)
    ensures result.AckAccepted? ==> AfterAck(s, Settle(s, Cancelled, AckOnly), result, Some(Ending(Cancelled, AckOnly, None, false)))
    ensures AfterAck(s, Fail(s, CancelDenied, AckOnly), result, FailedBy(CancelDenied, AckOnly))
  {
    hide Settle, Fail;
    SettleGist(s, Cancelled, AckOnly);
    FailGist(s, CancelDenied, AckOnly);
  }

  lemma AcceptAckEnds(s: State, now: int, result: AckResult)
    requires Unjudged(s)
    ensures AfterAck(s, MagAcceptAck(s, now, result), result, if result.AckRefused? then FailedBy(AcceptDenied) else None)
  {
    hide MagAcceptAck;
    AcceptAckSays(s, now, result);
  }

  lemma StartAckEnds(c: Config, s: State, now: int, result: AckResult)
    requires Unjudged(s)
    ensures AfterAck(s, StartAck(c, s, now, result), result,
                     if result.AckInProgress? then None else if result.AckRefused? then FailedBy(StartDenied)
                     else if OneShot(c) then Some(Ending(Accepted, AckOnly, None, false)) else None)
  {
    hide StartAck, OneShot;
    StartAckSays(c, s, now, result);
  }

  lemma AckUnfolds(c: Config, s: State, now: int, id: CommandId, result: AckResult)
    requires Unjudged(s)
    ensures CommandAck(c, s, now, id, result)
            == if s.cancelRequested && id == CancelCommandFor(c) then
                 if c.family.Px4? || result.AckInProgress? then s
                 else if result.AckAccepted? then Settle(s, Cancelled, AckOnly) else Fail(s, CancelDenied, AckOnly)
               else if s.magAcceptPending && id == AcceptMag then MagAcceptAck(s, now, result)
               else if id != s.startCommandId then s else StartAck(c, s, now, result)
  {
    hide Settle, Fail, StartAck, MagAcceptAck, CancelCommandFor;
  }

  lemma StartAckSays(c: Config, s: State, now: int, result: AckResult)
    requires Unjudged(s)
    ensures GistOf(StartAck(c, s, now, result))
            == if result.AckRefused? then GistOf(s).(phase := Failed, verification := NotApplicable, code := Some(StartDenied))
               else if result.AckAccepted? && OneShot(c) then GistOf(s).(phase := Accepted, verification := AckOnly)
               else GistOf(s).(phase := if s.phase.Starting? then Running else s.phase)
  {
    hide Emit, Settle, Fail, MarkEvidence, Arm, Announce;
    SettleGist(s, Accepted, AckOnly);
    FailGist(s, StartDenied, NotApplicable);
    MarkGist(c, s, now);
    AnnounceGist(MarkEvidence(c, s, now));
    ArmGist(s, StartSlot, now + AP_ONESHOT_ACK_TIMEOUT_MS, GiveUp(AckTimeout));
    AnnounceGist(Arm(s, StartSlot, now + AP_ONESHOT_ACK_TIMEOUT_MS, GiveUp(AckTimeout)));
  }

  lemma AcceptAckSays(s: State, now: int, result: AckResult)
    requires Unjudged(s)
    ensures var t := MagAcceptAck(s, now, result);
            if !result.AckRefused? then GistOf(t) == GistOf(s)
            else GistOf(t) == GistOf(s).(phase := Failed, verification := NotApplicable, code := Some(AcceptDenied))
  {
    hide Fail, Arm;
    ArmGist(s.(magAcceptAcked := true), AcceptSlot, now + MAG_ACCEPT_CONFIRM_TIMEOUT_MS, AcceptUnverified);
    ArmGist(s, AcceptSlot, now + MAG_ACCEPT_CONFIRM_TIMEOUT_MS, GiveUp(AcceptAckTimeout));
    FailGist(s, AcceptDenied, NotApplicable);
  }

  lemma TextSays(c: Config, s: State, now: int, e: CalEvent)
    requires Unjudged(s)
    ensures var t := Statustext(c, s, now, e);
            && Follows(t, Word(c, s, TextIn(e))) && Silent(s, t) && t.compasses == s.compasses && t.magAcceptPending == s.magAcceptPending
            && Concludes(s, t, ReportDecides(c, s, TextIn(e)))
  {
    hide Statustext;
    if c.family.ArduPilot? {
      NotForArduPilot(c, s, now, e);
    } else if e.CalDone? || e.CalFailed? || e.CalCancelled? {
      LastLineGist(c, s, now, e);
    } else if e.CalStarted? {
      FirstLineGist(c, s, now, e.version);
    } else {
      LineGist(c, s, now, e);
    }
  }

  lemma TextUnfolds(c: Config, s: State, now: int, e: CalEvent)
    requires !Terminal(s.phase) && c.family.Px4?
    ensures var s1 := MarkEvidence(c, s, now);
            Statustext(c, s, now, e)
            == match e
               case CalStarted(version) =>
                 Emit(LeaveStarting(s1.(sides := if version == PX4_CAL_PROTOCOL_VERSION then InitialSides(c) else None)))
               case OrientationDetected(side) => SetSideState(s1, side, ActiveSide)
               case SideDone(side) => SetSideState(s1, side, DoneSide)
               case SideAlreadyCompleted => s1
               case CalProgress(pct) => MarkProgressDirty(s1.(progress := Some(pct)), now)
               case CalDone => Settle(s1.(progress := Some(100), sides := AllDone(s1.sides)), Done, Verified)
               case CalFailed => Fail(s1, CalibrationFailed, Verified)
               case CalCancelled => Settle(s1, Cancelled, Verified)
  {
    hide MarkEvidence, Emit, InitialSides, SetSideState, MarkProgressDirty, LeaveStarting, Settle, Fail, AllDone;
  }

  lemma NotForArduPilot(c: Config, s: State, now: int, e: CalEvent)
    requires c.family.ArduPilot?
    ensures Statustext(c, s, now, e) == s
  {
    hide MarkEvidence;
  }

  lemma LastLineGist(c: Config, s: State, now: int, e: CalEvent)
    requires Unjudged(s) && c.family.Px4? && (e.CalDone? || e.CalFailed? || e.CalCancelled?)
    ensures GistOf(Statustext(c, s, now, e))
            == GistOf(s).(phase := if e.CalDone? then Done else if e.CalFailed? then Failed else Cancelled, verification := Verified,
                          code := if e.CalFailed? then Some(CalibrationFailed) else s.failureCode)
  {
    hide AllDone, Settle, Fail, MarkEvidence;
    var s1 := MarkEvidence(c, s, now);
    MarkGist(c, s, now);
    if e.CalDone? {
      SettleGist(s1.(progress := Some(100), sides := AllDone(s1.sides)), Done, Verified);
    } else if e.CalFailed? {
      FailGist(s1, CalibrationFailed, Verified);
    } else {
      SettleGist(s1, Cancelled, Verified);
    }
  }

  lemma FirstLineGist(c: Config, s: State, now: int, version: nat)
    requires Unjudged(s) && c.family.Px4?
    ensures GistOf(Statustext(c, s, now, CalStarted(version))) == GistOf(s).(phase := if s.phase.Starting? then Running else s.phase)
  {
    hide InitialSides, Emit, MarkEvidence;
    var s1 := MarkEvidence(c, s, now);
    MarkGist(c, s, now);
    EmitGist(LeaveStarting(s1.(sides := if version == PX4_CAL_PROTOCOL_VERSION then InitialSides(c) else None)));
  }

  lemma LineGist(c: Config, s: State, now: int, e: CalEvent)
    requires Unjudged(s) && c.family.Px4? && !e.CalStarted? && !e.CalDone? && !e.CalFailed? && !e.CalCancelled?
    ensures GistOf(Statustext(c, s, now, e)) == GistOf(s)
  {
    hide MarkEvidence, MarkProgressDirty, SetSideState;
    var s1 := MarkEvidence(c, s, now);
    MarkGist(c, s, now);
    match e {
      case OrientationDetected(side) => SideGist(s1, side, ActiveSide);
      case SideDone(side) => SideGist(s1, side, DoneSide);
      case CalProgress(pct) => DirtyGist(s1.(progress := Some(pct)), now);
      case _ =>
    }
  }

  lemma PositionSays(c: Config, s: State, now: int, m: PositionMessage)
    requires Unjudged(s)
    ensures var t := PositionRequest(c, s, now, m);
            && Follows(t, Word(c, s, PositionIn(m))) && Silent(s, t)
             && t.compasses == s.compasses && t.magAcceptPending == s.magAcceptPending
            && Concludes(s, t, ReportDecides(c, s, PositionIn(m)))
  {
    hide PositionRequest, Fail, PositionsDone, PositionHeld;
    PositionUnfolds(c, s, now, m);
    PositionsDoneGist(c, s, now);
    FailGist(s, CalibrationFailed, Verified);
    if m.Hold? {
      PositionHeldGist(c, s, now, m.position);
    }
  }

  lemma PositionsDoneGist(c: Config, s: State, now: int)
    ensures GistOf(PositionsDone(c, s, now)) == GistOf(s).(phase := Done, verification := Verified)
  {
    hide Settle, MarkEvidence, AllSides;
    MarkGist(c, s, now);
    SettleGist(AllPositions(MarkEvidence(c, s, now)), Done, Verified);
  }

  lemma PositionHeldGist(c: Config, s: State, now: int, position: nat)
    ensures GistOf(PositionHeld(c, s, now, position)) == GistOf(s).(phase := WaitingPosition)
  {
    hide Emit, MarkEvidence, SidesHeld, Requested;
    var t := MarkEvidence(c, s, now);
    MarkGist(c, s, now);
    HeldGist(t, position);
    EmitGist(Requested(SidesHeld(t, position), position));
  }

  lemma HeldGist(s: State, position: nat)
    ensures GistOf(Requested(SidesHeld(s, position), position)) == GistOf(s).(phase := WaitingPosition)
  {
    hide MarkSide, PositionSide;
  }

  /** The state in which a compass has been recorded. */
  function Recorded(c: Config, s: State, now: int, calMask: nat, id: nat, k: Compass): State {
    var s1 := LatchMask(MarkEvidence(c, s, now), calMask, id);
    s1.(compasses := s1.compasses[id := k])
  }

  lemma RecordGist(c: Config, s: State, now: int, calMask: nat, id: nat, k: Compass)
    requires Unjudged(s)
    ensures GistOf(Recorded(c, s, now, calMask, id, k))
            == GistOf(s).(compasses := s.compasses[id := k], mask := Some(ExpectedMask(s, calMask, id)))
  {
    hide MarkEvidence, PowerOfTwo;
    MarkGist(c, s, now);
  }

  function ProgressOf(s: State, id: nat, status: nat, attempt: nat, pct: nat): Compass {
    Compass(pct, status, attempt, if id in s.compasses then s.compasses[id].report else None)
  }

  function ReportOf(s: State, id: nat, status: nat, autosaved: bool): Compass {
    Compass(if id in s.compasses then s.compasses[id].pct else 100, status,
            if id in s.compasses then s.compasses[id].attempt else 0, Some(Report(status, autosaved)))
  }

  lemma MagProgressUnfolds(c: Config, s: State, now: int, id: nat, calMask: nat, status: nat, attempt: nat, pct: nat)
    requires !Terminal(s.phase) && MagFlow(c)
    ensures var t := Recorded(c, s, now, calMask, id, ProgressOf(s, id, status, attempt, pct));
            var u := UpdateMagProgress(LeaveStarting(t));
            var changed := id !in s.compasses || s.compasses[id].status != status;
            MagProgress(c, s, now, id, calMask, status, attempt, pct)
            == if status >= MAG_FAILED then Fail(t, MagFailed(status), Verified)
               else if changed then Emit(u) else MarkProgressDirty(u, now)
  {
    hide UpdateMagProgress, Emit, Fail, MarkEvidence, MarkProgressDirty, LeaveStarting;
    LatchLeaves(MarkEvidence(c, s, now), calMask, id);
    MarkLeaves(c, s, now);
  }

  lemma LatchLeaves(s: State, calMask: nat, id: nat)
    ensures LatchMask(s, calMask, id).compasses == s.compasses
  {
  }

  lemma MarkLeaves(c: Config, s: State, now: int)
    ensures MarkEvidence(c, s, now).compasses == s.compasses
  {
  }

  lemma MagProgressSays(c: Config, s: State, now: int, id: nat, calMask: nat, status: nat, attempt: nat, pct: nat)
    requires Unjudged(s)
    ensures var t := MagProgress(c, s, now, id, calMask, status, attempt, pct);
            && Follows(t, Word(c, s, MagProgressIn(id, calMask, status, attempt, pct))) && Silent(s, t)
            && Concludes(s, t, ReportDecides(c, s, MagProgressIn(id, calMask, status, attempt, pct)))
            && t.magAcceptPending == s.magAcceptPending && (forall k :: SavedAt(t, k) ==> SavedAt(s, k))
  {
    hide MagProgress, UpdateMagProgress, Emit, Fail, MarkProgressDirty, Recorded, ExpectedMask, LeaveStarting;
    if MagFlow(c) {
      MagProgressUnfolds(c, s, now, id, calMask, status, attempt, pct);
      var k := ProgressOf(s, id, status, attempt, pct);
      var s2 := Recorded(c, s, now, calMask, id, k);
      RecordGist(c, s, now, calMask, id, k);
      FailGist(s2, MagFailed(status), Verified);
      LeaveGist(s2);
      MeanGist(LeaveStarting(s2));
      EmitGist(UpdateMagProgress(LeaveStarting(s2)));
      DirtyGist(UpdateMagProgress(LeaveStarting(s2)), now);
    } else {
      NotForOthers(c, s, now, id, calMask, status, attempt, pct);
    }
  }

  lemma NotForOthers(c: Config, s: State, now: int, id: nat, calMask: nat, status: nat, attempt: nat, pct: nat)
    requires !MagFlow(c)
    ensures MagProgress(c, s, now, id, calMask, status, attempt, pct) == s
    ensures forall autosaved :: MagReport(c, s, now, id, calMask, status, autosaved) == s
  {
    hide MarkEvidence, LatchMask;
  }

  lemma LeaveGist(s: State)
    ensures GistOf(LeaveStarting(s)) == GistOf(s).(phase := if s.phase.Starting? then Running else s.phase)
  {
  }

  lemma MagReportUnfolds(c: Config, s: State, now: int, id: nat, calMask: nat, status: nat, autosaved: bool)
    requires !Terminal(s.phase) && MagFlow(c)
    ensures var t := Recorded(c, s, now, calMask, id, ReportOf(s, id, status, autosaved));
            var u := UpdateMagProgress(t);
            MagReport(c, s, now, id, calMask, status, autosaved)
            == if status >= MAG_FAILED then Fail(t, MagFailed(status), Verified)
               else if u.magAcceptPending && AllAutosaved(u) then Saved(u)
               else if u.magAcceptPending || !AllSucceeded(u) then Emit(u) else Emit(u.(phase := AwaitingAccept))
  {
    hide UpdateMagProgress, Emit, Fail, MarkEvidence, AllAutosaved, AllSucceeded, Settle;
    LatchLeaves(MarkEvidence(c, s, now), calMask, id);
    MarkLeaves(c, s, now);
  }

  function Saved(s: State): State {
    Settle(s.(progress := Some(100), rebootRequired := true), Done, Verified)
  }

  lemma SavedGist(s: State)
    ensures GistOf(Saved(s)) == GistOf(s).(phase := Done, verification := Verified, reboot := true)
  {
    hide Settle;
    SettleGist(s.(progress := Some(100), rebootRequired := true), Done, Verified);
  }

  lemma AwaitGist(s: State)
    ensures GistOf(Emit(s.(phase := AwaitingAccept))) == GistOf(s).(phase := AwaitingAccept)
  {
    hide Emit;
    EmitGist(s.(phase := AwaitingAccept));
  }

  lemma MagReportSays(c: Config, s: State, now: int, id: nat, calMask: nat, status: nat, autosaved: bool)
    requires Unjudged(s)
    ensures var t := MagReport(c, s, now, id, calMask, status, autosaved);
            && Follows(t, Word(c, s, MagReportIn(id, calMask, status, autosaved))) && Silent(s, t)
            && Concludes(s, t, ReportDecides(c, s, MagReportIn(id, calMask, status, autosaved)))
            && t.magAcceptPending == s.magAcceptPending && (forall k :: SavedAt(t, k) && !(k == id && autosaved) ==> SavedAt(s, k))
  {
    hide MagReport, UpdateMagProgress, Emit, Fail, Recorded, AllAutosaved, AllSucceeded, CompletesSaving, Saved, ExpectedMask, MaskOf;
    if MagFlow(c) {
      MagReportUnfolds(c, s, now, id, calMask, status, autosaved);
      var k := ReportOf(s, id, status, autosaved);
      var s2 := Recorded(c, s, now, calMask, id, k);
      RecordGist(c, s, now, calMask, id, k);
      FailGist(s2, MagFailed(status), Verified);
      MeanGist(s2);
      var s3 := UpdateMagProgress(s2);
      AllSavedMeans(s, s3, id, calMask, k);
      SavedGist(s3);
      EmitGist(s3);
      AwaitGist(s3);
    } else {
      NotForOthers(c, s, now, id, calMask, status, 0, 0);
    }
  }

  lemma AllSavedMeans(s: State, t: State, id: nat, calMask: nat, k: Compass)
    requires k.report.Some? && t.compasses == s.compasses[id := k] && t.expectedMagMask == Some(ExpectedMask(s, calMask, id))
    ensures AllAutosaved(t) <==> CompletesSaving(s, id, calMask, k.report.value.autosaved)
  {
    hide Bit, PowerOfTwo, ExpectedMask;
    assert MaskOf(t) == ExpectedMask(s, calMask, id);
    assert forall j :: 0 <= j < 8 ==> (SavedAt(t, j) <==> if j == id then k.report.value.autosaved else SavedAt(s, j));
  }

  lemma TimerSays(s: State, slot: Slot)
    requires Unjudged(s) && slot in s.timers
    ensures var t := TimerFires(s, slot);
            && !t.verification.Verified? && Silent(s, t) && t.compasses == s.compasses && t.magAcceptPending == s.magAcceptPending
            && Concludes(s, t, TimerDecides(s.timers[slot].action))
  {
    hide TimerFires;
    match s.timers[slot].action {
      case GiveUp(code) => GiveUpGist(s, slot, code);
      case Flush => FlushGist(s, slot);
      case _ => WindowGist(s, slot);
    }
  }

  lemma GiveUpGist(s: State, slot: Slot, code: Code)
    requires Unjudged(s) && slot in s.timers && s.timers[slot].action == GiveUp(code)
    ensures GistOf(TimerFires(s, slot)) == GistOf(s).(phase := Failed, verification := NotApplicable, code := Some(code))
  {
    hide Fail, Emit, Settle;
    FailGist(s.(timers := s.timers - {slot}), code, NotApplicable);
  }

  lemma FlushGist(s: State, slot: Slot)
    requires slot in s.timers && s.timers[slot].action.Flush?
    ensures GistOf(TimerFires(s, slot)) == GistOf(s)
  {
    hide Fail, Emit, Settle;
    EmitGist(s.(timers := s.timers - {slot}));
  }

  lemma WindowGist(s: State, slot: Slot)
    requires slot in s.timers && (s.timers[slot].action.CancelUnconfirmed? || s.timers[slot].action.AcceptUnverified?)
    ensures GistOf(TimerFires(s, slot))
            == if s.timers[slot].action.CancelUnconfirmed?
               then GistOf(s).(phase := Cancelled, verification := AckOnly, code := Some(CancelUnverified))
               else GistOf(s).(phase := Accepted, verification := AckOnly, reboot := true)
  {
    hide Fail, Emit, Settle;
    if s.timers[slot].action.CancelUnconfirmed? {
      SettleGist(s.(timers := s.timers - {slot}, failureCode := Some(CancelUnverified)), Cancelled, AckOnly);
    } else {
      SettleGist(s.(timers := s.timers - {slot}, rebootRequired := true), Accepted, AckOnly);
    }
  }

  lemma StartSays(c: Config, s: State, now: int, accepts: bool)
    requires Unjudged(s)
    ensures var t := Start(c, s, now, accepts);
            && !t.verification.Verified? && t.compasses == s.compasses && t.magAcceptPending == s.magAcceptPending
            && t.cancelRequested == s.cancelRequested && t.cancelledAt == s.cancelledAt
            && Concludes(s, t, Decides(c, s, StartCall(accepts)))
            && if s.started then t == s else t.started && t.startedAt == now
  {
    hide Emit, Settle, Arm, AllSides, Start, StartWritten;
    if s.started {
      NothingToStart(c, s, now, accepts);
    } else {
      StartUnfolds(c, s, now, accepts);
      var failed := s.(started := true, startedAt := now, startCommandId := StartCommandFor(c), failureCode := Some(WriteRejected));
      SettleGist(failed, Failed, NotApplicable);
      WrittenGist(c, s, now);
      var t := Emit(StartWritten(c, s, now));
      EmitGist(StartWritten(c, s, now));
      ArmGist(t, StartSlot, now + AP_ONESHOT_ACK_TIMEOUT_MS, GiveUp(AckTimeout));
      ArmGist(t, StartSlot, now + START_EVIDENCE_TIMEOUT_MS, GiveUp(StartTimeout));
      ArmGist(Arm(t, StartSlot, now + START_EVIDENCE_TIMEOUT_MS, GiveUp(StartTimeout)), OverallSlot,
              now + OverallTimeoutMs(c), GiveUp(OverallTimeout));
    }
  }

  lemma WrittenGist(c: Config, s: State, now: int)
    ensures GistOf(StartWritten(c, s, now))
            == GistOf(s).(started := true, startedAt := now, phase := Starting, sent := s.sent + [StartCommand(StartCommandFor(c))])
  {
    hide AllSides;
  }

  lemma CancelSays(c: Config, s: State, now: int, accepts: bool)
    requires Unjudged(s)
    ensures var t := Cancel(c, s, now, accepts);
            && !t.verification.Verified? && t.compasses == s.compasses && t.magAcceptPending == s.magAcceptPending
            && t.started == s.started && t.startedAt == s.startedAt
            && Concludes(s, t, Decides(c, s, CancelCall(accepts)))
            && t.cancelRequested == (s.cancelRequested || (CanCancel(c, s) && accepts))
            && t.cancelledAt == if CanCancel(c, s) && accepts then now else s.cancelledAt
  {
    hide Arm, Fail;
    FailGist(s, WriteRejected, NotApplicable);
    ArmGist(s.(sent := s.sent + [CancelCommand(CancelCommandFor(c))], cancelRequested := true, cancelledAt := now,
               timers := s.timers - {StartSlot, IdleSlot, OverallSlot}),
            CancelSlot, now + CANCEL_CONFIRM_TIMEOUT_MS, CancelUnconfirmed);
  }

  lemma ConfirmSays(c: Config, s: State, now: int, position: nat, accepts: bool)
    requires Unjudged(s)
    ensures var t := ConfirmPosition(c, s, now, position, accepts);
            && GistOf(t) == if !CanConfirm(c, s, position) then GistOf(s)
                            else if !accepts then GistOf(s).(phase := Failed, verification := NotApplicable, code := Some(WriteRejected))
                            else GistOf(s).(phase := Running, sent := s.sent + [PositionCommand(position)])
  {
    hide Emit, Fail, MarkEvidence;
    FailGist(s, WriteRejected, NotApplicable);
    var t := s.(sent := s.sent + [PositionCommand(position)], requestedPosition := None, phase := Running);
    MarkGist(c, t, now);
    EmitGist(MarkEvidence(c, t, now));
  }

  lemma AcceptSays(c: Config, s: State, now: int, accepts: bool)
    requires Unjudged(s)
    ensures var t := AcceptCalibration(c, s, now, accepts);
            && GistOf(t) == if !CanAccept(c, s) then GistOf(s)
                            else if !accepts then GistOf(s).(phase := Failed, verification := NotApplicable, code := Some(WriteRejected))
                            else GistOf(s).(magAcceptPending := true, sent := s.sent + [AcceptCommand(MaskOf(s))])
  {
    hide Emit, Fail, Arm, MaskOf;
    FailGist(s, WriteRejected, NotApplicable);
    var t := s.(sent := s.sent + [AcceptCommand(MaskOf(s))], magAcceptPending := true, magAcceptAcked := false);
    ArmGist(t, AcceptSlot, now + MAG_ACCEPT_CONFIRM_TIMEOUT_MS, GiveUp(AcceptAckTimeout));
    EmitGist(Arm(t, AcceptSlot, now + MAG_ACCEPT_CONFIRM_TIMEOUT_MS, GiveUp(AcceptAckTimeout)));
  }

  /** What one input to an open session may do. */
  ghost predicate Said(c: Config, s: State, i: Input, t: State)
    requires i.TimerIn? ==> i.slot in s.timers
  {
    && Follows(t, Word(c, s, i)) && Concludes(s, t, Decides(c, s, i))
    && (i.StartCall? || (t.started == s.started && t.startedAt == s.startedAt))
    && (i.CancelCall? || (t.cancelRequested == s.cancelRequested && t.cancelledAt == s.cancelledAt))
    && (t.magAcceptPending ==> s.magAcceptPending || i == AcceptCall(true))
    && (forall k :: SavedAt(t, k) ==> SavedAt(s, k) || (i.MagReportIn? && i.compass == k && i.autosaved))
  }

  lemma StartOrCancelSays(c: Config, s: State, i: Input, now: int)
    requires Unjudged(s) && (i.StartCall? || i.CancelCall?)
    ensures Said(c, s, i, Step(c, s, i, now))
  {
    hide Start, Cancel, MaskOf, Concludes, Decides;
    match i {
      case StartCall(accepts) => StartSays(c, s, now, accepts);
      case CancelCall(accepts) => CancelSays(c, s, now, accepts);
      case _ =>
    }
  }

  lemma CallSays(c: Config, s: State, i: Input, now: int)
    requires Unjudged(s) && (i.TerminateCall? || i.OwnerChanged? || i.ConfirmCall? || i.AcceptCall?)
    ensures Said(c, s, i, Step(c, s, i, now))
  {
    hide ConfirmPosition, AcceptCalibration, Fail, Emit, CanConfirm, CanAccept, MaskOf;
    match i {
      case TerminateCall => FailGist(s, External, NotApplicable);
      case OwnerChanged => EmitGist(s);
      case ConfirmCall(position, accepts) => ConfirmSays(c, s, now, position, accepts);
      case AcceptCall(accepts) => AcceptSays(c, s, now, accepts);
      case _ =>
    }
  }

  lemma ReportSays(c: Config, s: State, i: Input, now: int)
    requires Unjudged(s) && (i.TimerIn? ==> i.slot in s.timers)
    requires i.AckIn? || i.TextIn? || i.PositionIn? || i.MagProgressIn? || i.MagReportIn? || i.TimerIn?
    ensures Said(c, s, i, Step(c, s, i, now))
  {
    hide CommandAck, Statustext, PositionRequest, MagProgress, MagReport, TimerFires, CompletesSaving, MaskOf;
    hide AckDecides, TimerDecides, ReportDecides;
    match i {
      case AckIn(id, result) => AckSays(c, s, now, id, result);
      case TextIn(e) => TextSays(c, s, now, e);
      case PositionIn(m) => PositionSays(c, s, now, m);
      case MagProgressIn(id, mask, status, attempt, pct) => MagProgressSays(c, s, now, id, mask, status, attempt, pct);
      case MagReportIn(id, mask, status, autosaved) => MagReportSays(c, s, now, id, mask, status, autosaved);
      case TimerIn(slot) => TimerSays(s, slot);
      case _ =>
    }
  }

  lemma StepSays(c: Config, s: State, i: Input, now: int)
    requires Unjudged(s) && (i.TimerIn? ==> i.slot in s.timers)
    ensures Said(c, s, i, Step(c, s, i, now))
  {
    hide Said, Step;
    if i.StartCall? || i.CancelCall? {
      StartOrCancelSays(c, s, i, now);
    } else if i.TerminateCall? || i.OwnerChanged? || i.ConfirmCall? || i.AcceptCall? {
      CallSays(c, s, i, now);
    } else {
      ReportSays(c, s, i, now);
    }
  }

  // ---------------------------------------------------------------------------------------------------
  // Whole sessions
  // ---------------------------------------------------------------------------------------------------

  datatype Timed = Timed(input: Input, now: int)

  ghost predicate AllowedRun(c: Config, s: State, es: seq<Timed>)
    decreases |es|
  {
    es == [] || (Allowed(s, es[0].input, es[0].now) && AllowedRun(c, Step(c, s, es[0].input, es[0].now), es[1..]))
  }

  ghost function After(c: Config, s: State, es: seq<Timed>): State
    requires AllowedRun(c, s, es)
    decreases |es|
  {
    if es == [] then s else After(c, Step(c, s, es[0].input, es[0].now), es[1..])
  }

  lemma {:induction false} RunKeeps(c: Config, s: State, es: seq<Timed>)
    requires Inv(c, s) && AllowedRun(c, s, es)
    ensures Inv(c, After(c, s, es))
    decreases |es|
  {
    hide Inv, Step;
    if es != [] {
      StepKeeps(c, s, es[0].input, es[0].now);
      RunKeeps(c, Step(c, s, es[0].input, es[0].now), es[1..]);
    }
  }

  lemma FreshIsSafe(c: Config)
    ensures Inv(c, FRESH)
  {
  }

  /** The state in which event `i` finds the session. */
  ghost function At(c: Config, s: State, es: seq<Timed>, i: nat): State
    requires AllowedRun(c, s, es) && i <= |es|
    decreases |es|
  {
    if i == 0 then s else At(c, Step(c, s, es[0].input, es[0].now), es[1..], i - 1)
  }

  /** Event `i` reports this outcome to the session while it is open. */
  ghost predicate Reports(c: Config, s: State, es: seq<Timed>, i: nat, p: Phase)
    requires AllowedRun(c, s, es)
  {
    i < |es| && !Terminal(At(c, s, es, i).phase) && Word(c, At(c, s, es, i), es[i].input) == Some(p)
  }

  lemma NextReports(c: Config, s: State, es: seq<Timed>, i: nat, p: Phase)
    requires AllowedRun(c, s, es) && es != []
    ensures Reports(c, s, es, i + 1, p) <==> Reports(c, Step(c, s, es[0].input, es[0].now), es[1..], i, p)
    ensures Reports(c, s, es, 0, p) <==> !Terminal(s.phase) && Word(c, s, es[0].input) == Some(p)
  {
    hide Step, Word;
  }

  lemma {:induction false} EndedReportsNothing(c: Config, s: State, es: seq<Timed>, i: nat, p: Phase)
    requires Inv(c, s) && Terminal(s.phase) && AllowedRun(c, s, es)
    ensures !Reports(c, s, es, i, p)
    ensures After(c, s, es).phase == s.phase && After(c, s, es).verification == s.verification
    decreases |es|
  {
    hide Inv, Step, Word;
    if es != [] {
      var t := Step(c, s, es[0].input, es[0].now);
      StepKeeps(c, s, es[0].input, es[0].now);
      EndIsFinal(c, s, es[0].input, es[0].now);
      EndedReportsNothing(c, t, es[1..], if i == 0 then 0 else i - 1, p);
      if i > 0 {
        NextReports(c, s, es, i - 1, p);
      } else {
        NextReports(c, s, es, 0, p);
      }
    }
  }

  /** An outcome is verified if and only if some event of the run reported it to the open session. */
  lemma {:induction false} VerifiedWasReported(c: Config, s: State, es: seq<Timed>)
    requires Inv(c, s) && !Terminal(s.phase) && AllowedRun(c, s, es)
    ensures var t := After(c, s, es);
            t.verification.Verified? <==> exists i: nat :: Reports(c, s, es, i, t.phase)
    decreases |es|
  {
    hide Inv, Step, Word, Reports;
    if es == [] {
      OpenIsUnjudged(c, s);
      NothingReported(c, s);
    } else {
      var t, later := Step(c, s, es[0].input, es[0].now), es[1..];
      var end := After(c, s, es).phase;
      OpenIsUnjudged(c, s);
      StepKeeps(c, s, es[0].input, es[0].now);
      StepSays(c, s, es[0].input, es[0].now);
      forall i: nat ensures Reports(c, s, es, i + 1, end) <==> Reports(c, t, later, i, end) {
        NextReports(c, s, es, i, end);
      }
      NextReports(c, s, es, 0, end);
      if Terminal(t.phase) {
        EndedReportsNothing(c, t, later, 0, end);
        forall i: nat | i > 0 ensures !Reports(c, s, es, i, end) {
          var k: nat := i - 1;
          EndedReportsNothing(c, t, later, k, end);
          NextReports(c, s, es, k, end);
          assert Reports(c, s, es, i, end) == Reports(c, s, es, k + 1, end);
        }
      } else {
        VerifiedWasReported(c, t, later);
        WordEnds(c, s, es[0].input, es[0].now);
        forall i: nat | Reports(c, s, es, i, end) ensures i > 0 && Reports(c, t, later, i - 1, end) {
          assert i > 0 ==> Reports(c, s, es, (i - 1) + 1, end);
        }
        if i: nat :| Reports(c, t, later, i, end) {
          assert Reports(c, s, es, i + 1, end);
        }
      }
    }
  }

  lemma NothingReported(c: Config, s: State)
    ensures forall i: nat, p: Phase :: !Reports(c, s, [], i, p)
  {
  }

  /** A reported outcome ends the session. */
  lemma WordEnds(c: Config, s: State, i: Input, now: int)
    requires Inv(c, s) && !Terminal(s.phase) && (i.TimerIn? ==> i.slot in s.timers)
    ensures Word(c, s, i).Some? ==> Terminal(Step(c, s, i, now).phase)
  {
    hide Inv, Step, CompletesSaving;
    OpenIsUnjudged(c, s);
    StepSays(c, s, i, now);
  }

  /** Before event `n` a compass was reported as saved. */
  ghost predicate ReportedSaved(es: seq<Timed>, n: nat, compass: nat) {
    exists j :: 0 <= j < n <= |es| && es[j].input.MagReportIn? && es[j].input.compass == compass && es[j].input.autosaved
  }

  /** Before event `n` the user accepted the results, and the link took the command. */
  ghost predicate AskedToSave(es: seq<Timed>, n: nat) {
    exists j :: 0 <= j < n <= |es| && es[j].input == AcceptCall(true)
  }

  lemma OneEarlier(es: seq<Timed>, n: nat, compass: nat)
    requires 0 < n <= |es|
    ensures ReportedSaved(es[1..], n - 1, compass) ==> ReportedSaved(es, n, compass)
    ensures es[0].input.MagReportIn? && es[0].input.compass == compass && es[0].input.autosaved ==> ReportedSaved(es, n, compass)
    ensures AskedToSave(es[1..], n - 1) || es[0].input == AcceptCall(true) ==> AskedToSave(es, n)
  {
    var later := es[1..];
    if ReportedSaved(later, n - 1, compass) {
      var j :| 0 <= j < n - 1 && later[j].input.MagReportIn? && later[j].input.compass == compass && later[j].input.autosaved;
      assert es[j + 1] == later[j];
    }
    if AskedToSave(later, n - 1) {
      var j :| 0 <= j < n - 1 && later[j].input == AcceptCall(true);
      assert es[j + 1] == later[j];
    }
  }

  /** What is recorded as saved has been reported as saved, and a pending accept was asked for. */
  lemma {:induction false} SavedWasReported(c: Config, s: State, es: seq<Timed>, n: nat, k: nat)
    requires Inv(c, s) && AllowedRun(c, s, es) && n <= |es|
    ensures SavedAt(At(c, s, es, n), k) ==> SavedAt(s, k) || ReportedSaved(es, n, k)
    ensures At(c, s, es, n).magAcceptPending ==> s.magAcceptPending || AskedToSave(es, n)
    decreases |es|
  {
    hide Inv, Step, SavedAt, ReportedSaved, AskedToSave;
    if n > 0 {
      var t, later := Step(c, s, es[0].input, es[0].now), es[1..];
      StepKeeps(c, s, es[0].input, es[0].now);
      SavedWasReported(c, t, later, n - 1, k);
      OneEarlier(es, n, k);
      if Terminal(s.phase) {
        EndRecordsNothing(c, s, es[0].input, es[0].now);
        assert SavedAt(t, k) <==> SavedAt(s, k) by { SameRecords(s, t, k); }
      } else {
        OpenIsUnjudged(c, s);
        StepSays(c, s, es[0].input, es[0].now);
      }
    }
  }

  lemma SameRecords(s: State, t: State, k: nat)
    requires t.compasses == s.compasses
    ensures SavedAt(t, k) <==> SavedAt(s, k)
  {
  }

  lemma EndRecordsNothing(c: Config, s: State, i: Input, now: int)
    requires Inv(c, s) && Terminal(s.phase) && (i.TimerIn? ==> i.slot in s.timers)
    ensures Step(c, s, i, now).compasses == s.compasses && Step(c, s, i, now).magAcceptPending == s.magAcceptPending
  {
    hide Published, Started, MarkEvidence, Settle;
  }

  /** A compass calibration that ends as done was accepted by the user before, and every compass the mask names among the
      first eight has been reported as saved. */
  lemma SavingWasReported(c: Config, es: seq<Timed>, i: nat, k: nat)
    requires AllowedRun(c, FRESH, es) && Reports(c, FRESH, es, i, Done) && es[i].input.MagReportIn?
    requires k < 8 && Bit(ExpectedMask(At(c, FRESH, es, i), es[i].input.mask, es[i].input.compass), k)
    ensures ReportedSaved(es, i + 1, k) && AskedToSave(es, i)
  {
    hide At, AllowedRun, Step, Bit;
    FreshIsSafe(c);
    SavedWasReported(c, FRESH, es, i, k);
    assert !SavedAt(FRESH, k) && !FRESH.magAcceptPending;
    if k == es[i].input.compass {
      assert es[i].input.autosaved;
    }
  }

  /** In every session: an outcome is verified if and only if the flight controller reported it to the open session in a
      message other than an ACK; success is always verified; an ended session has no armed timer; snapshots are numbered
      1, 2, 3 and so on and tell one outcome only; and the start command was sent at most once. */
  lemma EverySessionIsHonest(c: Config, es: seq<Timed>)
    requires AllowedRun(c, FRESH, es)
    ensures var s := After(c, FRESH, es);
            && (s.verification.Verified? <==> exists i: nat :: Reports(c, FRESH, es, i, s.phase))
            && (s.phase.Done? ==> s.verification.Verified?)
            && (s.phase.Accepted? ==> s.verification.AckOnly?)
            && (Terminal(s.phase) ==> s.timers == map[])
            && (forall k :: 0 <= k < |s.snapshots| ==> s.snapshots[k].seqNo == k + 1)
            && (forall j, k :: 0 <= j < |s.snapshots| && 0 <= k < |s.snapshots|
                  && Terminal(s.snapshots[j].phase) && Terminal(s.snapshots[k].phase)
                  ==> s.snapshots[j].phase == s.snapshots[k].phase)
            && Started(s.sent) <= 1
  {
    hide After, AllowedRun, Started, Reports;
    FreshIsSafe(c);
    RunKeeps(c, FRESH, es);
    VerifiedWasReported(c, FRESH, es);
  }

  /** Nothing the flight controller or the user does changes an outcome, sends a command or arms a timer any more. */
  lemma EndIsFinal(c: Config, s: State, i: Input, now: int)
    requires Inv(c, s) && Terminal(s.phase) && (i.TimerIn? ==> i.slot in s.timers)
    ensures var t := Step(c, s, i, now);
            && t.phase == s.phase && t.verification == s.verification && t.sent == s.sent && t.timers == map[]
            && t.snapshots == (if i.OwnerChanged? then s.snapshots + [Snapshot(s.seqNo + 1, s.phase, s.verification, s.progress,
                                                                              s.sides, s.rebootRequired)] else s.snapshots)
  {
    hide Published, Started, MarkEvidence, Settle;
  }

  /** An ACK by itself never produces a verified outcome, and refusing one never produces a success. */
  lemma AckNeverVerifies(c: Config, s: State, now: int, id: CommandId, result: AckResult)
    requires !Terminal(s.phase) && Inv(c, s)
    ensures !CommandAck(c, s, now, id, result).verification.Verified?
    ensures Terminal(CommandAck(c, s, now, id, result).phase) && result.AckRefused? ==> CommandAck(c, s, now, id, result).phase.Failed?
  {
    hide Inv, CommandAck;
    OpenIsUnjudged(c, s);
    AckSays(c, s, now, id, result);
  }

  lemma OpenIsUnjudged(c: Config, s: State)
    requires Inv(c, s) && !Terminal(s.phase)
    ensures s.verification.NotApplicable?
  {
  }

  lemma EarlyStep(c: Config, s: State, i: Input, now: int)
    requires Inv(c, s) && CancelledEarly(c, s) && Allowed(s, i, now)
    ensures CancelledEarly(c, Step(c, s, i, now))
  {
    hide CommandAck, Statustext, PositionRequest, MagProgress, MagReport, TimerFires, Start, Cancel, ConfirmPosition,
         AcceptCalibration, Fail, Emit, Started, Published, Word;
    if !Terminal(s.phase) {
      OpenIsUnjudged(c, s);
      StepSays(c, s, i, now);
      if i.StartCall? {
        StartSays(c, s, now, i.accepts);
      } else if i.CancelCall? {
        CancelSays(c, s, now, i.accepts);
      }
    } else {
      EndIsFinal(c, s, i, now);
    }
  }

  lemma {:induction false} EarlyRun(c: Config, s: State, es: seq<Timed>)
    requires Inv(c, s) && CancelledEarly(c, s) && AllowedRun(c, s, es)
    ensures CancelledEarly(c, After(c, s, es))
    decreases |es|
  {
    hide Inv, Step, CancelledEarly;
    if es != [] {
      StepKeeps(c, s, es[0].input, es[0].now);
      EarlyStep(c, s, es[0].input, es[0].now);
      EarlyRun(c, Step(c, s, es[0].input, es[0].now), es[1..]);
    }
  }

  /** While timers fire on time a started session that is not one-shot has ended by its overall limit plus the cancel
      window, whatever happens in between. */
  lemma EndsInTime(c: Config, es: seq<Timed>, now: int)
    requires AllowedRun(c, FRESH, es) && !OneShot(c)
    requires var s := After(c, FRESH, es); s.started && OnTime(s, now)
    ensures var s := After(c, FRESH, es);
            now > s.startedAt + OverallTimeoutMs(c) + CANCEL_CONFIRM_TIMEOUT_MS ==> Terminal(s.phase)
  {
    hide After, AllowedRun, Started, Published;
    FreshIsSafe(c);
    RunKeeps(c, FRESH, es);
    EarlyRun(c, FRESH, es);
    var s := After(c, FRESH, es);
    assert !Terminal(s.phase) && s.cancelRequested ==> now <= s.timers[CancelSlot].due;
    assert !Terminal(s.phase) && !s.cancelRequested ==> now <= s.timers[OverallSlot].due;
  }

  lemma Halved(a: int, b: int, p: int)
    ensures (2 * a + b) * p == a * (2 * p) + b * p
    ensures (b == 0 ==> b * p == 0) && (b == 1 ==> b * p == p)
  {
  }

  lemma LowBits(mask: nat, p: nat)
    requires p > 0
    ensures mask % (2 * p) == 0 <==> mask % p == 0 && mask / p % 2 == 0
  {
    var q, r := mask / p, mask % p;
    var a, b := q / 2, q % 2;
    var low := if b == 0 then r else p + r;
    Halved(a, b, p);
    ModUnique(mask, 2 * p, a, low);
  }

  /** Bits of a mask, low end first. */
  lemma {:induction false} NoLowBits(mask: nat, n: nat)
    ensures (forall k :: 0 <= k < n ==> !Bit(mask, k)) <==> mask % PowerOfTwo(n) == 0
  {
    if n == 0 {
      assert PowerOfTwo(0) == 1;
    } else {
      NoLowBits(mask, n - 1);
      LowBits(mask, PowerOfTwo(n - 1));
      assert PowerOfTwo(n) == 2 * PowerOfTwo(n - 1);
      assert !Bit(mask, n - 1) <==> mask / PowerOfTwo(n - 1) % 2 == 0;
      assert (forall k :: 0 <= k < n ==> !Bit(mask, k)) <==> (forall k :: 0 <= k < n - 1 ==> !Bit(mask, k)) && !Bit(mask, n - 1);
    }
  }

  /** The completeness test holds without any compass exactly for a non-zero mask whose eight low bits are clear; such a
      mask is latched from compass 8 or higher when the firmware leaves the mask empty. */
  lemma VacuousMask(mask: nat, good: Compass -> bool)
    ensures AllExpected(mask, map[], good) <==> mask != 0 && mask % 256 == 0
  {
    NoLowBits(mask, 8);
    assert PowerOfTwo(8) == 256 by { Powers(); }
  }

  /** The property the test stands for: every compass the mask names is there and good. */
  ghost predicate EveryNamed(mask: nat, compasses: map<nat, Compass>, good: Compass -> bool) {
    mask != 0 && forall id: nat :: Bit(mask, id) ==> id in compasses && good(compasses[id])
  }

  lemma {:induction false} PowersGrow(n: nat)
    ensures PowerOfTwo(n) > n
    ensures n >= 8 ==> PowerOfTwo(n) >= 256
  {
    Powers();
    if n > 0 {
      PowersGrow(n - 1);
    }
  }

  lemma TopBitClear(mask: nat, p: nat)
    requires p > 0 && mask / p % 2 != 1
    ensures mask % (2 * p) == mask % p
  {
    var q, r := mask / p, mask % p;
    Halved(q / 2, q % 2, p);
    ModUnique(mask, 2 * p, q / 2, r);
  }

  lemma {:induction false} NoHighBits(mask: nat, lo: nat, n: nat)
    requires lo <= n && forall k :: lo <= k < n ==> !Bit(mask, k)
    ensures mask % PowerOfTwo(n) == mask % PowerOfTwo(lo)
    decreases n
  {
    if n > lo {
      NoHighBits(mask, lo, n - 1);
      assert !Bit(mask, n - 1);
      TopBitClear(mask, PowerOfTwo(n - 1));
    }
  }

  /** The test agrees with the property for all compasses if and only if the mask has no bit above the eighth. */
  lemma TestIsRightExactly(mask: nat, good: Compass -> bool, k: Compass)
    requires good(k)
    ensures mask < 256 <==> forall compasses :: AllExpected(mask, compasses, good) <==> EveryNamed(mask, compasses, good)
  {
    hide Bit, PowerOfTwo;
    if mask < 256 {
      forall id: nat | id >= 8 ensures !Bit(mask, id) {
        BelowItsPower(mask, id);
      }
    } else {
      var id := BitAboveEighth(mask);
      var first: set<nat> := {0, 1, 2, 3, 4, 5, 6, 7};
      var eight := map x <- first :: k;
      assert AllExpected(mask, eight, good) && !EveryNamed(mask, eight, good);
    }
  }

  lemma BelowItsPower(mask: nat, id: nat)
    requires mask < 256 && id >= 8
    ensures !Bit(mask, id)
  {
    PowersGrow(id);
    ModUnique(mask, PowerOfTwo(id), 0, mask);
  }

  lemma BitAboveEighth(mask: nat) returns (id: nat)
    requires mask >= 256
    ensures id >= 8 && Bit(mask, id)
  {
    hide Bit;
    if forall k :: 8 <= k < mask ==> !Bit(mask, k) {
      NoHighBits(mask, 8, mask);
      PowersGrow(mask);
      ModUnique(mask, PowerOfTwo(mask), 0, mask);
      Powers();
      assert false;
    }
    id :| 8 <= id < mask && Bit(mask, id);
  }

  const COMPASS_SESSION := Config(ArduPilot, Mag, 0)

  /** The shortest session with one compass beyond the eighth that reports success, but never that anything was saved. */
  function UnsavedSession(compass: nat): seq<Timed> {
    var report := MagReportIn(compass, 0, MAG_SUCCESS, false);
    [Timed(StartCall(true), 0), Timed(report, 0), Timed(AcceptCall(true), 0), Timed(report, 0)]
  }

  /** Such a session ends as done and verified. */
  lemma DoneWithoutSaving(compass: nat)
    requires 8 <= compass < 32
    ensures var es := UnsavedSession(compass);
            && AllowedRun(COMPASS_SESSION, FRESH, es)
            && After(COMPASS_SESSION, FRESH, es).phase.Done? && After(COMPASS_SESSION, FRESH, es).verification.Verified?
            && forall n: nat, k: nat :: !ReportedSaved(es, n, k)
  {
    hide Step, PowerOfTwo, AllExpected, CompletesSaving;
    var c, es := COMPASS_SESSION, UnsavedSession(compass);
    var s1 := Step(c, FRESH, es[0].input, 0);
    var s2 := Step(c, s1, es[1].input, 0);
    var s3 := Step(c, s2, es[2].input, 0);
    var s4 := Step(c, s3, es[3].input, 0);
    SessionStarts();
    SessionAwaits(s1, compass);
    SessionAccepts(s2, compass);
    SessionEnds(s3, compass);
    assert es[1..][1..][1..] == es[3..] && es[3..][1..] == [];
    assert AllowedRun(c, s4, []);
    assert AllowedRun(c, s3, es[3..]) && After(c, s3, es[3..]) == s4;
    assert AllowedRun(c, s2, es[2..]) && After(c, s2, es[2..]) == s4 by { assert es[2..][1..] == es[3..]; }
    assert AllowedRun(c, s1, es[1..]) && After(c, s1, es[1..]) == s4 by { assert es[1..][1..] == es[2..]; }
  }

  /** An open compass session at time 0 with nothing overdue, which expects only compasses beyond the eighth. */
  ghost predicate Quiet(s: State) {
    Unjudged(s) && OnTime(s, 0) && !s.cancelRequested
  }

  lemma SessionStarts()
    ensures var s := Step(COMPASS_SESSION, FRESH, StartCall(true), 0);
            Quiet(s) && s.expectedMagMask.None? && s.compasses == map[] && !s.magAcceptPending && Quiet(FRESH)
  {
    hide Emit, StartWritten, Start;
    StartUnfolds(COMPASS_SESSION, FRESH, 0, true);
    WrittenGist(COMPASS_SESSION, FRESH, 0);
    EmitGist(StartWritten(COMPASS_SESSION, FRESH, 0));
    EmitFrame(StartWritten(COMPASS_SESSION, FRESH, 0));
    assert StartWritten(COMPASS_SESSION, FRESH, 0).timers == map[] by { WrittenTimers(); }
  }

  lemma WrittenTimers()
    ensures StartWritten(COMPASS_SESSION, FRESH, 0).timers == map[]
  {
  }

  /** A mask whose only bit is above the eighth passes every test. */
  lemma HighMaskPasses(compass: nat)
    requires 8 <= compass < 32
    ensures PowerOfTwo(compass) > 0 && PowerOfTwo(compass) % 256 == 0
  {
    PowersGrow(compass);
    MultipleOfEighth(compass);
  }

  lemma {:induction false} MultipleOfEighth(n: nat)
    requires n >= 8
    ensures PowerOfTwo(n) % 256 == 0
  {
    if n == 8 {
      Powers();
    } else {
      MultipleOfEighth(n - 1);
    }
  }

  lemma PassesAnyway(mask: nat, compasses: map<nat, Compass>, good: Compass -> bool)
    requires mask != 0 && mask % 256 == 0
    ensures AllExpected(mask, compasses, good)
  {
    VacuousMask(mask, good);
  }

  lemma SessionAwaits(s: State, compass: nat)
    requires Quiet(s) && s.expectedMagMask.None? && s.compasses == map[] && !s.magAcceptPending && 8 <= compass < 32
    ensures var t := Step(COMPASS_SESSION, s, MagReportIn(compass, 0, MAG_SUCCESS, false), 0);
            Quiet(t) && t.phase.AwaitingAccept? && t.expectedMagMask == Some(PowerOfTwo(compass)) && !t.magAcceptPending
  {
    hide MagReport, Recorded, UpdateMagProgress, Emit, Fail, PowerOfTwo, AllSucceeded, AllAutosaved, Saved, OnTime;
    var c := COMPASS_SESSION;
    var k := ReportOf(s, compass, MAG_SUCCESS, false);
    var u := UpdateMagProgress(Recorded(c, s, 0, 0, compass, k));
    MagReportUnfolds(c, s, 0, compass, 0, MAG_SUCCESS, false);
    RecordGist(c, s, 0, 0, compass, k);
    MeanGist(Recorded(c, s, 0, 0, compass, k));
    SucceedsAnyway(u, compass);
    RecordedTimers(s, compass, k);
    AwaitGist(u);
    AwaitTimers(u);
  }

  lemma SucceedsAnyway(s: State, compass: nat)
    requires 8 <= compass < 32 && s.expectedMagMask == Some(PowerOfTwo(compass))
    ensures AllSucceeded(s)
  {
    hide PowerOfTwo, AllExpected;
    HighMaskPasses(compass);
    PassesAnyway(MaskOf(s), s.compasses, (k: Compass) => k.report.Some? && k.report.value.status == MAG_SUCCESS);
  }

  lemma AwaitTimers(s: State)
    requires OnTime(s, 0)
    ensures OnTime(Emit(s.(phase := AwaitingAccept)), 0)
  {
    EmitFrame(s.(phase := AwaitingAccept));
  }

  lemma RecordedTimers(s: State, compass: nat, k: Compass)
    requires Quiet(s)
    ensures OnTime(UpdateMagProgress(Recorded(COMPASS_SESSION, s, 0, 0, compass, k)), 0)
  {
    hide PowerOfTwo, PercentSum, CompassCount, MaskOf;
  }

  lemma SessionAccepts(s: State, compass: nat)
    requires Quiet(s) && s.phase.AwaitingAccept? && !s.magAcceptPending
    ensures var t := Step(COMPASS_SESSION, s, AcceptCall(true), 0);
            Quiet(t) && t.magAcceptPending && t.expectedMagMask == s.expectedMagMask
  {
    hide Emit, MaskOf, AcceptCalibration, Fail;
    AcceptSays(COMPASS_SESSION, s, 0, true);
    AcceptTimers(s);
  }

  lemma AcceptTimers(s: State)
    requires Quiet(s) && CanAccept(COMPASS_SESSION, s)
    ensures OnTime(AcceptCalibration(COMPASS_SESSION, s, 0, true), 0)
  {
    hide MaskOf;
  }

  lemma SessionEnds(s: State, compass: nat)
    requires Quiet(s) && s.magAcceptPending && 8 <= compass < 32 && s.expectedMagMask == Some(PowerOfTwo(compass))
    ensures var t := Step(COMPASS_SESSION, s, MagReportIn(compass, 0, MAG_SUCCESS, false), 0);
            t.phase.Done? && t.verification.Verified?
  {
    hide MagReport, PowerOfTwo, Bit;
    MagReportSays(COMPASS_SESSION, s, 0, compass, 0, MAG_SUCCESS, false);
    HighMaskPasses(compass);
    NoLowBits(PowerOfTwo(compass), 8);
    assert PowerOfTwo(8) == 256 by { Powers(); }
  }
}
