/** One calibration attempt: a start command sent once, protocol evidence, watchdog timers and a cancel window. Every
    input is a function from state to state. */
module CalibrationRules {
  import opened Bytes

  const START_EVIDENCE_TIMEOUT_MS := 15000
  const PX4_IDLE_TIMEOUT_MS := 120000
  const PX4_OVERALL_TIMEOUT_MS := 900000
  const AP_ACCEL_IDLE_TIMEOUT_MS := 300000
  const AP_ACCEL_OVERALL_TIMEOUT_MS := 1200000
  const AP_ONESHOT_ACK_TIMEOUT_MS := 30000
  const AP_MAG_IDLE_TIMEOUT_MS := 120000
  const AP_MAG_OVERALL_TIMEOUT_MS := 1200000
  const CANCEL_CONFIRM_TIMEOUT_MS := 30000
  const PROGRESS_COALESCE_MS := 200
  const MAG_ACCEPT_CONFIRM_TIMEOUT_MS := 5000
  const PX4_CAL_PROTOCOL_VERSION := 2
  const MAG_SUCCESS := 4
  const MAG_FAILED := 5

  datatype Family = Px4 | ArduPilot
  datatype Kind = Accel | AccelSimple | Level | Gyro | Mag | Baro
  datatype Phase = Starting | Running | WaitingPosition | AwaitingAccept | Accepted | Done | Failed | Cancelled
  datatype Verification = NotApplicable | AckOnly | Verified

  datatype Side = Down | Up | Left | Right | Front | Back
  datatype SideState = PendingSide | ActiveSide | DoneSide | HiddenSide
  type Sides = map<Side, SideState>

  datatype Slot = StartSlot | IdleSlot | OverallSlot | CancelSlot | FlushSlot | AcceptSlot
  datatype Action = GiveUp(code: Code) | CancelUnconfirmed | AcceptUnverified | Flush
  datatype Timer = Timer(due: int, action: Action)
  datatype Code = AckTimeout | StartTimeout | OverallTimeout | IdleTimeout | AcceptAckTimeout | CancelUnverified
                | WriteRejected | StartDenied | CancelDenied | AcceptDenied | CalibrationFailed | MagFailed(status: nat)
                | External

  datatype CommandId = Preflight | StartMag | AcceptMag | CancelMag | VehiclePosition | OtherCommand
  datatype Sent = StartCommand(id: CommandId) | CancelCommand(id: CommandId) | AcceptCommand(mask: nat) | PositionCommand(position: nat)
  datatype AckResult = AckAccepted | AckInProgress | AckRefused

  datatype CalEvent =
    | CalStarted(version: nat) | OrientationDetected(side: Side) | SideDone(side: Side) | SideAlreadyCompleted
    | CalProgress(pct: nat) | CalDone | CalFailed | CalCancelled

  datatype Report = Report(status: nat, autosaved: bool)
  datatype Compass = Compass(pct: nat, status: nat, attempt: nat, report: Option<Report>)

  datatype Snapshot = Snapshot(seqNo: nat, phase: Phase, verification: Verification, progress: Option<nat>,
                               sides: Option<Sides>, rebootRequired: bool)

  predicate Terminal(p: Phase) {
    p == Accepted || p == Done || p == Failed || p == Cancelled
  }

  function AllSides(state: SideState): Sides {
    map[Down := state, Up := state, Left := state, Right := state, Front := state, Back := state]
  }

  function SideBit(side: Side): nat {
    match side
    case Back => 0
    case Front => 1
    case Left => 2
    case Right => 3
    case Up => 4
    case Down => 5
  }

  predicate Bit(mask: nat, k: nat) {
    mask / PowerOfTwo(k) % 2 == 1
  }

  function MagSideStates(magSides: nat): Sides {
    map side <- AllSides(PendingSide).Keys :: if Bit(magSides, SideBit(side)) then PendingSide else HiddenSide
  }

  function PositionSide(position: nat): Side {
    match position
    case 1 => Down
    case 2 => Left
    case 3 => Right
    case 4 => Front
    case 5 => Back
    case _ => Up
  }

  function Started(sent: seq<Sent>): nat {
    if sent == [] then 0 else (if sent[0].StartCommand? then 1 else 0) + Started(sent[1..])
  }

  lemma {:induction false} StartedSnoc(sent: seq<Sent>, s: Sent)
    ensures Started(sent + [s]) == Started(sent) + if s.StartCommand? then 1 else 0
  {
    if sent == [] {
      assert [s][1..] == [];
    } else {
      assert (sent + [s])[1..] == sent[1..] + [s];
      StartedSnoc(sent[1..], s);
    }
  }

  /** The completeness test looks at the first eight mask bits. */
  predicate AllExpected(mask: nat, compasses: map<nat, Compass>, good: Compass -> bool) {
    mask != 0 && forall id :: 0 <= id < 8 && Bit(mask, id) ==> id in compasses && good(compasses[id])
  }

  /** Only an outcome can be verified; success always is, and acceptance never. */
  ghost predicate Honest(p: Phase, v: Verification) {
    && (!Terminal(p) ==> v.NotApplicable?)
    && (p.Done? ==> v.Verified?)
    && (p.Accepted? ==> v.AckOnly?)
  }

  datatype Outcome = Open | Ended(phase: Phase, verification: Verification)

  function OutcomeOf(p: Phase, v: Verification): Outcome {
    if Terminal(p) then Ended(p, v) else Open
  }

  /** Snapshots are numbered without gaps, and every terminal one tells the same outcome. */
  ghost predicate Published(snapshots: seq<Snapshot>, seqNo: nat, outcome: Outcome) {
    && seqNo == |snapshots|
    && (forall i :: 0 <= i < |snapshots| ==> snapshots[i].seqNo == i + 1)
    && (forall i :: 0 <= i < |snapshots| && Terminal(snapshots[i].phase) ==>
          outcome == Ended(snapshots[i].phase, snapshots[i].verification))
  }

  datatype Config = Config(family: Family, kind: Kind, magSides: nat)

  predicate CancelSupported(c: Config) {
    c.family.Px4? || c.kind.Mag?
  }

  predicate OneShot(c: Config) {
    c.family.ArduPilot? && (c.kind.AccelSimple? || c.kind.Level? || c.kind.Gyro? || c.kind.Baro?)
  }

  predicate InteractiveAccel(c: Config) {
    c.family.ArduPilot? && c.kind.Accel?
  }

  predicate MagFlow(c: Config) {
    c.family.ArduPilot? && c.kind.Mag?
  }

  function OverallTimeoutMs(c: Config): nat {
    if c.family.Px4? then PX4_OVERALL_TIMEOUT_MS
    else if c.kind.Mag? then AP_MAG_OVERALL_TIMEOUT_MS else AP_ACCEL_OVERALL_TIMEOUT_MS
  }

  function IdleTimeoutMs(c: Config): nat {
    if c.family.Px4? then PX4_IDLE_TIMEOUT_MS
    else if c.kind.Mag? then AP_MAG_IDLE_TIMEOUT_MS else AP_ACCEL_IDLE_TIMEOUT_MS
  }

  /** `startedAt` and `cancelledAt` are history; no decision reads them. */
  datatype State = State(timers: map<Slot, Timer>, startCommandId: CommandId, started: bool, cancelRequested: bool,
                         lastRequestedPosition: Option<nat>, seqNo: nat, phase: Phase, verification: Verification,
                         progress: Option<nat>, sides: Option<Sides>, requestedPosition: Option<nat>,
                         expectedMagMask: Option<nat>, compasses: map<nat, Compass>, magAcceptPending: bool,
                         magAcceptAcked: bool, failureCode: Option<Code>, rebootRequired: bool, sent: seq<Sent>,
                         snapshots: seq<Snapshot>, startedAt: int, cancelledAt: int)

  const FRESH := State(map[], Preflight, false, false, None, 0, Starting, NotApplicable, None, None, None, None, map[],
                       false, false, None, false, [], [], 0, 0)

  // ---------------------------------------------------------------------------------------------------
  // Building blocks
  // ---------------------------------------------------------------------------------------------------

  function Emit(s: State): State {
    s.(timers := s.timers - {FlushSlot}, seqNo := s.seqNo + 1,
       snapshots := s.snapshots + [Snapshot(s.seqNo + 1, s.phase, s.verification, s.progress, s.sides, s.rebootRequired)])
  }

  function Arm(s: State, slot: Slot, due: int, action: Action): State {
    s.(timers := s.timers[slot := Timer(due, action)])
  }

  /** The session ends with this outcome: no timer is left, one last snapshot goes out. */
  function Settle(s: State, p: Phase, v: Verification): State {
    Emit(s.(timers := map[], phase := p, verification := v))
  }

  function Fail(s: State, code: Code, v: Verification): State {
    if Terminal(s.phase) then s else Settle(s.(failureCode := Some(code)), Failed, v)
  }

  /** Protocol activity: stop the start watchdog and restart the idle one, unless a cancel is pending. */
  function MarkEvidence(c: Config, s: State, now: int): State {
    if s.cancelRequested then s
    else Arm(s.(timers := s.timers - {StartSlot}), IdleSlot, now + IdleTimeoutMs(c), GiveUp(IdleTimeout))
  }

  function LeaveStarting(s: State): State {
    if s.phase.Starting? then s.(phase := Running) else s
  }

  function MarkProgressDirty(s: State, now: int): State {
    if Terminal(s.phase) || FlushSlot in s.timers then s else Arm(s, FlushSlot, now + PROGRESS_COALESCE_MS, Flush)
  }

  // ---------------------------------------------------------------------------------------------------
  // Inputs
  // ---------------------------------------------------------------------------------------------------

  function StartCommandFor(c: Config): CommandId {
    if MagFlow(c) then StartMag else Preflight
  }

  function Start(c: Config, s: State, now: int, accepts: bool): State {
    if s.started || Terminal(s.phase) then s
    else
      var s1 := s.(started := true, startedAt := now, startCommandId := StartCommandFor(c));
      if !accepts then Fail(s1, WriteRejected, NotApplicable)
      else
        var s2 := Emit(s1.(sent := s1.sent + [StartCommand(StartCommandFor(c))], phase := Starting,
                           sides := if InteractiveAccel(c) then Some(AllSides(PendingSide)) else s1.sides));
        if OneShot(c) then Arm(s2, StartSlot, now + AP_ONESHOT_ACK_TIMEOUT_MS, GiveUp(AckTimeout))
        else
          Arm(Arm(s2, StartSlot, now + START_EVIDENCE_TIMEOUT_MS, GiveUp(StartTimeout)),
              OverallSlot, now + OverallTimeoutMs(c), GiveUp(OverallTimeout))
  }

  function CancelCommandFor(c: Config): CommandId {
    if c.family.Px4? then Preflight else CancelMag
  }

  predicate CanCancel(c: Config, s: State) {
    !Terminal(s.phase) && CancelSupported(c) && !s.cancelRequested
  }

  function Cancel(c: Config, s: State, now: int, accepts: bool): State {
    if !CanCancel(c, s) then s
    else if !accepts then Fail(s, WriteRejected, NotApplicable)
    else
      Arm(s.(sent := s.sent + [CancelCommand(CancelCommandFor(c))], cancelRequested := true, cancelledAt := now,
             timers := s.timers - {StartSlot, IdleSlot, OverallSlot}),
          CancelSlot, now + CANCEL_CONFIRM_TIMEOUT_MS, CancelUnconfirmed)
  }

  function MagAcceptAck(s: State, now: int, result: AckResult): State {
    match result
    case AckAccepted =>
      if s.magAcceptAcked then s
      else Arm(s.(magAcceptAcked := true), AcceptSlot, now + MAG_ACCEPT_CONFIRM_TIMEOUT_MS, AcceptUnverified)
    case AckInProgress => Arm(s, AcceptSlot, now + MAG_ACCEPT_CONFIRM_TIMEOUT_MS, GiveUp(AcceptAckTimeout))
    case AckRefused => Fail(s, AcceptDenied, NotApplicable)
  }

  function StartAck(c: Config, s: State, now: int, result: AckResult): State {
    match result
    case AckAccepted =>
      if OneShot(c) then Settle(s, Accepted, AckOnly) else Announce(MarkEvidence(c, s, now))
    case AckInProgress =>
      Announce(if OneShot(c) then Arm(s, StartSlot, now + AP_ONESHOT_ACK_TIMEOUT_MS, GiveUp(AckTimeout)) else MarkEvidence(c, s, now))
    case AckRefused => Fail(s, StartDenied, NotApplicable)
  }

  function Announce(s: State): State {
    if s.phase.Starting? then Emit(s.(phase := Running)) else s
  }

  function CommandAck(c: Config, s: State, now: int, id: CommandId, result: AckResult): State {
    if Terminal(s.phase) then s
    else if s.cancelRequested && id == CancelCommandFor(c) then
      if c.family.Px4? || result.AckInProgress? then s
      else if result.AckAccepted? then Settle(s, Cancelled, AckOnly)
      else Fail(s, CancelDenied, AckOnly)
    else if id == AcceptMag && s.magAcceptPending then MagAcceptAck(s, now, result)
    else if id != s.startCommandId then s
    else StartAck(c, s, now, result)
  }

  function InitialSides(c: Config): Option<Sides> {
    match c.kind
    case Accel => Some(AllSides(PendingSide))
    case Mag => Some(MagSideStates(c.magSides))
    case Gyro => Some(AllSides(HiddenSide)[Down := PendingSide])
    case _ => None
  }

  function SetSideState(s: State, side: Side, state: SideState): State {
    if s.sides.None? || side !in s.sides.value || s.sides.value[side] in {HiddenSide, state} then s
    else Emit(s.(sides := Some(s.sides.value[side := state])))
  }

  function AllDone(sides: Option<Sides>): Option<Sides> {
    if sides.None? then None
    else Some(map side <- sides.value.Keys :: if sides.value[side].HiddenSide? then HiddenSide else DoneSide)
  }

  /** One parsed `[cal]` line. */
  function Statustext(c: Config, s: State, now: int, e: CalEvent): State {
    if Terminal(s.phase) || c.family.ArduPilot? then s
    else
      var s1 := MarkEvidence(c, s, now);
      match e
      case CalStarted(version) =>
        Emit(LeaveStarting(s1.(sides := if version == PX4_CAL_PROTOCOL_VERSION then InitialSides(c) else None)))
      case OrientationDetected(side) => SetSideState(s1, side, ActiveSide)
      case SideDone(side) => SetSideState(s1, side, DoneSide)
      case SideAlreadyCompleted => s1
      case CalProgress(pct) => MarkProgressDirty(s1.(progress := Some(pct)), now)
      case CalDone => Settle(s1.(progress := Some(100), sides := AllDone(s1.sides)), Done, Verified)
      case CalFailed => Fail(s1, CalibrationFailed, Verified)
      case CalCancelled => Settle(s1, Cancelled, Verified)
  }

  datatype PositionMessage = Hold(position: nat) | PositionSuccess | PositionFailure | PositionUnknown

  function MarkSide(sides: Option<Sides>, side: Side, state: SideState): Option<Sides> {
    if sides.None? then None else Some(sides.value[side := state])
  }

  function PositionRequest(c: Config, s: State, now: int, m: PositionMessage): State {
    if Terminal(s.phase) || !InteractiveAccel(c) then s
    else match m
      case PositionSuccess =>
        var s1 := MarkEvidence(c, s, now);
        Settle(s1.(progress := Some(100), requestedPosition := None,
                   sides := if s1.sides.None? then None else Some(AllSides(DoneSide))), Done, Verified)
      case PositionFailure => Fail(s, CalibrationFailed, Verified)
      case PositionUnknown => s
      case Hold(position) =>
        if position < 1 || position > 6 then s
        else
          var s1 := MarkEvidence(c, s, now);
          var moved := s1.lastRequestedPosition.Some? && s1.lastRequestedPosition.value != position;
          var sides1 := if moved then MarkSide(s1.sides, PositionSide(s1.lastRequestedPosition.value), DoneSide) else s1.sides;
          Emit(s1.(sides := MarkSide(sides1, PositionSide(position), ActiveSide), lastRequestedPosition := Some(position),
                   requestedPosition := Some(position), phase := WaitingPosition))
  }

  predicate CanConfirm(c: Config, s: State, position: nat) {
    !Terminal(s.phase) && InteractiveAccel(c) && s.phase.WaitingPosition? && s.requestedPosition == Some(position)
  }

  function ConfirmPosition(c: Config, s: State, now: int, position: nat, accepts: bool): State {
    if !CanConfirm(c, s, position) then s
    else if !accepts then Fail(s, WriteRejected, NotApplicable)
    else
      Emit(MarkEvidence(c, s.(sent := s.sent + [PositionCommand(position)], requestedPosition := None, phase := Running), now))
  }

  function LatchMask(s: State, calMask: nat, id: nat): State {
    if s.expectedMagMask.Some? then s
    else s.(expectedMagMask := Some(if calMask > 0 then calMask else PowerOfTwo(id % 32)))
  }

  function MaskOf(s: State): nat {
    if s.expectedMagMask.Some? then s.expectedMagMask.value else 0
  }

  function PercentAt(s: State, id: nat): nat {
    if id in s.compasses then s.compasses[id].pct else 0
  }

  function PercentSum(s: State, n: nat): nat {
    if n == 0 then 0 else PercentSum(s, n - 1) + if Bit(MaskOf(s), n - 1) then PercentAt(s, n - 1) else 0
  }

  function CompassCount(mask: nat, n: nat): nat {
    if n == 0 then 0 else CompassCount(mask, n - 1) + if Bit(mask, n - 1) then 1 else 0
  }

  /** The rounded mean over the expected compasses. */
  function UpdateMagProgress(s: State): State {
    var n := CompassCount(MaskOf(s), 8);
    if n == 0 then s else s.(progress := Some((2 * PercentSum(s, 8) + n) / (2 * n)))
  }

  function MagProgress(c: Config, s: State, now: int, id: nat, calMask: nat, status: nat, attempt: nat, pct: nat): State {
    if Terminal(s.phase) || !MagFlow(c) then s
    else
      var s1 := LatchMask(MarkEvidence(c, s, now), calMask, id);
      var known := id in s1.compasses;
      var changed := !known || s1.compasses[id].status != status;
      var s2 := s1.(compasses := s1.compasses[id := Compass(pct, status, attempt, if known then s1.compasses[id].report else None)]);
      if status >= MAG_FAILED then Fail(s2, MagFailed(status), Verified)
      else
        var s3 := UpdateMagProgress(LeaveStarting(s2));
        if changed then Emit(s3) else MarkProgressDirty(s3, now)
  }

  function MagReport(c: Config, s: State, now: int, id: nat, calMask: nat, status: nat, autosaved: bool): State {
    if Terminal(s.phase) || !MagFlow(c) then s
    else
      var s1 := LatchMask(MarkEvidence(c, s, now), calMask, id);
      var known := id in s1.compasses;
      var s2 := s1.(compasses := s1.compasses[id := Compass(if known then s1.compasses[id].pct else 100, status,
                                                            if known then s1.compasses[id].attempt else 0,
                                                            Some(Report(status, autosaved)))]);
      if status >= MAG_FAILED then Fail(s2, MagFailed(status), Verified)
      else
        var s3 := UpdateMagProgress(s2);
        if s3.magAcceptPending then
          if AllAutosaved(s3) then Settle(s3.(progress := Some(100), rebootRequired := true), Done, Verified)
          else Emit(s3)
        else Emit(if AllSucceeded(s3) then s3.(phase := AwaitingAccept) else s3)
  }

  predicate AllAutosaved(s: State) {
    AllExpected(MaskOf(s), s.compasses, (k: Compass) => k.report.Some? && k.report.value.autosaved)
  }

  predicate AllSucceeded(s: State) {
    AllExpected(MaskOf(s), s.compasses, (k: Compass) => k.report.Some? && k.report.value.status == MAG_SUCCESS)
  }

  predicate CanAccept(c: Config, s: State) {
    !Terminal(s.phase) && MagFlow(c) && s.phase.AwaitingAccept? && !s.magAcceptPending
  }

  function AcceptCalibration(c: Config, s: State, now: int, accepts: bool): State {
    if !CanAccept(c, s) then s
    else if !accepts then Fail(s, WriteRejected, NotApplicable)
    else
      Emit(Arm(s.(sent := s.sent + [AcceptCommand(MaskOf(s))], magAcceptPending := true, magAcceptAcked := false),
               AcceptSlot, now + MAG_ACCEPT_CONFIRM_TIMEOUT_MS, GiveUp(AcceptAckTimeout)))
  }

  function TimerFires(s: State, slot: Slot): State
    requires slot in s.timers
  {
    var s1 := s.(timers := s.timers - {slot});
    match s.timers[slot].action
    case GiveUp(code) => Fail(s1, code, NotApplicable)
    case CancelUnconfirmed => Settle(s1.(failureCode := Some(CancelUnverified)), Cancelled, AckOnly)
    case AcceptUnverified => Settle(s1.(rebootRequired := true), Accepted, AckOnly)
    case Flush => Emit(s1)
  }

  datatype Input =
    | StartCall(accepts: bool) | TerminateCall | CancelCall(accepts: bool) | OwnerChanged
    | AckIn(id: CommandId, result: AckResult) | TextIn(event: CalEvent) | PositionIn(message: PositionMessage)
    | ConfirmCall(position: nat, accepts: bool) | AcceptCall(accepts: bool)
    | MagProgressIn(compass: nat, mask: nat, status: nat, attempt: nat, pct: nat)
    | MagReportIn(compass: nat, mask: nat, status: nat, autosaved: bool)
    | TimerIn(slot: Slot)

  function Step(c: Config, s: State, i: Input, now: int): State
    requires i.TimerIn? ==> i.slot in s.timers
  {
    match i
    case StartCall(accepts) => Start(c, s, now, accepts)
    case TerminateCall => Fail(s, External, NotApplicable)
    case CancelCall(accepts) => Cancel(c, s, now, accepts)
    case OwnerChanged => Emit(s)
    case AckIn(id, result) => CommandAck(c, s, now, id, result)
    case TextIn(e) => Statustext(c, s, now, e)
    case PositionIn(m) => PositionRequest(c, s, now, m)
    case ConfirmCall(position, accepts) => ConfirmPosition(c, s, now, position, accepts)
    case AcceptCall(accepts) => AcceptCalibration(c, s, now, accepts)
    case MagProgressIn(id, mask, status, attempt, pct) => MagProgress(c, s, now, id, mask, status, attempt, pct)
    case MagReportIn(id, mask, status, autosaved) => MagReport(c, s, now, id, mask, status, autosaved)
    case TimerIn(slot) => TimerFires(s, slot)
  }
}

/** What every input and every timer keeps, and what follows for whole sessions. */
module CalibrationSafety {
  import opened Bytes
  import opened CalibrationRules

  ghost predicate SentOnce(s: State) {
    Started(s.sent) <= 1 && (!s.started ==> Started(s.sent) == 0)
  }

  /** A session that has been started and is not one-shot always has the timer that will end it. */
  ghost predicate Watched(c: Config, s: State) {
    !Terminal(s.phase) ==>
      && (s.started && !OneShot(c) && !s.cancelRequested ==>
            OverallSlot in s.timers && s.timers[OverallSlot] == Timer(s.startedAt + OverallTimeoutMs(c), GiveUp(OverallTimeout)))
      && (OverallSlot in s.timers ==> s.timers[OverallSlot].action.GiveUp?)
      && (CancelSlot in s.timers ==> s.timers[CancelSlot].action.CancelUnconfirmed?)
      && (s.cancelRequested ==>
            CancelSlot in s.timers && s.timers[CancelSlot] == Timer(s.cancelledAt + CANCEL_CONFIRM_TIMEOUT_MS, CancelUnconfirmed))
  }

  /** A cancel comes before the overall limit has run out. */
  ghost predicate CancelledEarly(c: Config, s: State) {
    !Terminal(s.phase) && s.started && s.cancelRequested ==> s.cancelledAt <= s.startedAt + OverallTimeoutMs(c)
  }

  ghost predicate Inv(c: Config, s: State) {
    && Honest(s.phase, s.verification)
    && Published(s.snapshots, s.seqNo, OutcomeOf(s.phase, s.verification))
    && (Terminal(s.phase) ==> s.timers == map[])
    && SentOnce(s)
    && (s.cancelRequested ==> CancelSupported(c))
    && Watched(c, s)
  }

  /** No armed timer is overdue. */
  predicate OnTime(s: State, now: int) {
    forall slot :: slot in s.timers ==> now <= s.timers[slot].due
  }

  predicate Allowed(s: State, i: Input, now: int) {
    && OnTime(s, now) && (s.cancelRequested ==> s.cancelledAt <= now)
    && (i.TimerIn? ==> i.slot in s.timers && now >= s.timers[i.slot].due)
  }

  predicate SameTimer(a: map<Slot, Timer>, b: map<Slot, Timer>, slot: Slot) {
    if slot in a then slot in b && b[slot] == a[slot] else slot !in b
  }

  /** The parts of a state the invariant speaks about when nothing terminal happens. */
  ghost predicate SameFrame(s: State, t: State) {
    && !Terminal(s.phase) && !Terminal(t.phase)
    && t.verification == s.verification
    && t.snapshots == s.snapshots && t.seqNo == s.seqNo && t.cancelRequested == s.cancelRequested
    && t.started == s.started && t.startedAt == s.startedAt && t.cancelledAt == s.cancelledAt
    && Started(t.sent) == Started(s.sent)
    && SameTimer(s.timers, t.timers, OverallSlot) && SameTimer(s.timers, t.timers, CancelSlot)
  }

  lemma FrameKeeps(c: Config, s: State, t: State)
    requires Inv(c, s) && SameFrame(s, t)
    ensures Inv(c, t)
  {
    hide Published, Started;
  }

  lemma EmitKeeps(c: Config, s: State)
    requires Inv(c, s)
    ensures Inv(c, Emit(s))
  {
    hide Started;
  }

  lemma SettleKeeps(c: Config, s: State, p: Phase, v: Verification)
    requires Inv(c, s) && !Terminal(s.phase) && Terminal(p) && Honest(p, v)
    ensures Inv(c, Settle(s, p, v))
  {
    hide Started;
  }

  lemma FailKeeps(c: Config, s: State, code: Code, v: Verification)
    requires Inv(c, s) && Honest(Failed, v)
    ensures Inv(c, Fail(s, code, v))
  {
    hide Published, Settle, Started;
    if !Terminal(s.phase) {
      FrameKeeps(c, s, s.(failureCode := Some(code)));
      SettleKeeps(c, s.(failureCode := Some(code)), Failed, v);
    }
  }

  lemma MarkKeeps(c: Config, s: State, now: int)
    requires Inv(c, s) && !Terminal(s.phase)
    ensures Inv(c, MarkEvidence(c, s, now)) && SameFrame(s, MarkEvidence(c, s, now))
    ensures MarkEvidence(c, s, now).phase == s.phase && MarkEvidence(c, s, now).sent == s.sent
  {
    hide Inv, Started;
    FrameKeeps(c, s, MarkEvidence(c, s, now));
  }

  lemma SentSomethingElse(s: seq<Sent>, x: Sent)
    requires !x.StartCommand?
    ensures Started(s + [x]) == Started(s)
  {
    StartedSnoc(s, x);
  }

  /** The state in which the start command has been written and announced, its timers not yet armed. */
  function StartWritten(c: Config, s: State, now: int): State {
    s.(started := true, startedAt := now, startCommandId := StartCommandFor(c),
       sent := s.sent + [StartCommand(StartCommandFor(c))], phase := Starting,
       sides := if InteractiveAccel(c) then Some(AllSides(PendingSide)) else s.sides)
  }

  lemma StartUnfolds(c: Config, s: State, now: int, accepts: bool)
    requires !s.started && !Terminal(s.phase)
    ensures !accepts ==> Start(c, s, now, accepts)
                         == Settle(s.(started := true, startedAt := now, startCommandId := StartCommandFor(c),
                                      failureCode := Some(WriteRejected)), Failed, NotApplicable)
    ensures accepts ==>
              var t := Emit(StartWritten(c, s, now));
              Start(c, s, now, accepts) ==
              if OneShot(c) then Arm(t, StartSlot, now + AP_ONESHOT_ACK_TIMEOUT_MS, GiveUp(AckTimeout))
              else Arm(Arm(t, StartSlot, now + START_EVIDENCE_TIMEOUT_MS, GiveUp(StartTimeout)),
                       OverallSlot, now + OverallTimeoutMs(c), GiveUp(OverallTimeout))
  {
    hide Emit, Settle, Arm, AllSides;
  }

  lemma StartKeeps(c: Config, s: State, now: int, accepts: bool)
    requires Inv(c, s)
    ensures Inv(c, Start(c, s, now, accepts))
  {
    hide Published, Emit, Started, Settle, AllSides, Start, StartWritten, Honest;
    if !s.started && !Terminal(s.phase) {
      StartUnfolds(c, s, now, accepts);
      NotYetPublished(c, s);
      if accepts {
        StartAccepted(c, s, now);
      } else {
        WordIsHonest();
        EndsHonestly(c, s.(started := true, startedAt := now, startCommandId := StartCommandFor(c),
                           failureCode := Some(WriteRejected)), Failed, NotApplicable);
      }
    } else {
      assert Start(c, s, now, accepts) == s by { NothingToStart(c, s, now, accepts); }
    }
  }

  lemma NothingToStart(c: Config, s: State, now: int, accepts: bool)
    requires s.started || Terminal(s.phase)
    ensures Start(c, s, now, accepts) == s
  {
  }

  lemma StartAccepted(c: Config, s: State, now: int)
    requires Inv(c, s) && !s.started && !Terminal(s.phase)
    ensures Inv(c, Start(c, s, now, true))
  {
    hide Published, Emit, Started, AllSides, Start;
    StartUnfolds(c, s, now, true);
    StartedSnoc(s.sent, StartCommand(StartCommandFor(c)));
    EmitFrame(StartWritten(c, s, now));
  }

  lemma NotYetPublished(c: Config, s: State)
    requires Inv(c, s) && !Terminal(s.phase)
    ensures Published(s.snapshots, s.seqNo, Open)
  {
  }

  /** Emitting touches nothing but the number, the list of snapshots and the pending flush. */
  lemma EmitFrame(s: State)
    ensures var t := Emit(s);
            && t == s.(timers := t.timers, seqNo := t.seqNo, snapshots := t.snapshots)
            && t.timers == s.timers - {FlushSlot}
    ensures Published(s.snapshots, s.seqNo, OutcomeOf(s.phase, s.verification)) ==>
              Published(Emit(s).snapshots, Emit(s).seqNo, OutcomeOf(s.phase, s.verification))
  {
  }

  lemma EndsHonestly(c: Config, s: State, p: Phase, v: Verification)
    requires Published(s.snapshots, s.seqNo, Open) && SentOnce(s) && (s.cancelRequested ==> CancelSupported(c))
    requires Terminal(p) && Honest(p, v)
    ensures Inv(c, Settle(s, p, v))
  {
    hide Started;
  }

  lemma CancelKeeps(c: Config, s: State, now: int, accepts: bool)
    requires Inv(c, s)
    ensures Inv(c, Cancel(c, s, now, accepts))
  {
    hide Published, Started, Fail, Settle;
    if CanCancel(c, s) {
      SentSomethingElse(s.sent, CancelCommand(CancelCommandFor(c)));
      FailKeeps(c, s, WriteRejected, NotApplicable);
    }
  }

  lemma AnnounceKeeps(c: Config, s: State)
    requires Inv(c, s)
    ensures Inv(c, Announce(s))
  {
    hide Emit, Inv, Started;
    if s.phase.Starting? {
      FrameKeeps(c, s, s.(phase := Running));
      EmitKeeps(c, s.(phase := Running));
    }
  }

  lemma ArmKeeps(c: Config, s: State, slot: Slot, due: int, action: Action)
    requires Inv(c, s) && !Terminal(s.phase) && !slot.OverallSlot? && !slot.CancelSlot?
    ensures Inv(c, Arm(s, slot, due, action)) && SameFrame(s, Arm(s, slot, due, action))
  {
    hide Inv, Started;
    FrameKeeps(c, s, Arm(s, slot, due, action));
  }

  /** An ACK keeps everything, and never makes an outcome verified. */
  lemma AckKeeps(c: Config, s: State, now: int, id: CommandId, result: AckResult)
    requires Inv(c, s)
    ensures Inv(c, CommandAck(c, s, now, id, result))
  {
    hide Inv, Emit, Settle, Fail, Announce, MarkEvidence, Arm, Started, SameFrame;
    if !Terminal(s.phase) {
      SettleKeeps(c, s, Cancelled, AckOnly);
      SettleKeeps(c, s, Accepted, AckOnly);
      FailKeeps(c, s, CancelDenied, AckOnly);
      FailKeeps(c, s, StartDenied, NotApplicable);
      MarkKeeps(c, s, now);
      AnnounceKeeps(c, MarkEvidence(c, s, now));
      ArmKeeps(c, s, StartSlot, now + AP_ONESHOT_ACK_TIMEOUT_MS, GiveUp(AckTimeout));
      AnnounceKeeps(c, Arm(s, StartSlot, now + AP_ONESHOT_ACK_TIMEOUT_MS, GiveUp(AckTimeout)));
      AcceptAckKeeps(c, s, now, result);
    }
  }

  lemma AcceptAckKeeps(c: Config, s: State, now: int, result: AckResult)
    requires Inv(c, s) && !Terminal(s.phase)
    ensures Inv(c, MagAcceptAck(s, now, result))
  {
    hide Inv, Settle, Fail, Started;
    var s1 := s.(magAcceptAcked := true);
    FrameKeeps(c, s, s1);
    ArmKeeps(c, s1, AcceptSlot, now + MAG_ACCEPT_CONFIRM_TIMEOUT_MS, AcceptUnverified);
    ArmKeeps(c, s, AcceptSlot, now + MAG_ACCEPT_CONFIRM_TIMEOUT_MS, GiveUp(AcceptAckTimeout));
    FailKeeps(c, s, AcceptDenied, NotApplicable);
  }

  lemma DirtyKeeps(c: Config, s: State, now: int)
    requires Inv(c, s)
    ensures Inv(c, MarkProgressDirty(s, now))
  {
    hide Inv, Arm, Started;
    if !Terminal(s.phase) {
      ArmKeeps(c, s, FlushSlot, now + PROGRESS_COALESCE_MS, Flush);
    }
  }

  lemma SideKeeps(c: Config, s: State, side: Side, state: SideState)
    requires Inv(c, s) && !Terminal(s.phase)
    ensures Inv(c, SetSideState(s, side, state))
  {
    hide Inv, Emit, Started;
    if s.sides.Some? && side in s.sides.value {
      var t := s.(sides := Some(s.sides.value[side := state]));
      FrameKeeps(c, s, t);
      EmitKeeps(c, t);
    }
  }

  lemma TextKeeps(c: Config, s: State, now: int, e: CalEvent)
    requires Inv(c, s)
    ensures Inv(c, Statustext(c, s, now, e))
  {
    hide Inv, Emit, Settle, Fail, MarkEvidence, MarkProgressDirty, SetSideState, Started, AllDone, InitialSides, Honest;
    if !Terminal(s.phase) && c.family.Px4? {
      MarkKeeps(c, s, now);
      if e.CalDone? || e.CalFailed? || e.CalCancelled? {
        LastLineKeeps(c, s, now, e);
      } else {
        ProgressLineKeeps(c, s, now, e);
      }
    }
  }

  lemma StartedLineKeeps(c: Config, s: State, version: nat)
    requires Inv(c, s) && !Terminal(s.phase)
    ensures Inv(c, Emit(LeaveStarting(s.(sides := if version == PX4_CAL_PROTOCOL_VERSION then InitialSides(c) else None))))
  {
    hide Inv, Emit, Started, InitialSides;
    var t := LeaveStarting(s.(sides := if version == PX4_CAL_PROTOCOL_VERSION then InitialSides(c) else None));
    FrameKeeps(c, s, t);
    EmitKeeps(c, t);
  }

  lemma PercentKeeps(c: Config, s: State, now: int, pct: nat)
    requires Inv(c, s) && !Terminal(s.phase)
    ensures Inv(c, MarkProgressDirty(s.(progress := Some(pct)), now))
  {
    hide Inv, MarkProgressDirty, Started;
    FrameKeeps(c, s, s.(progress := Some(pct)));
    DirtyKeeps(c, s.(progress := Some(pct)), now);
  }

  lemma ProgressLineKeeps(c: Config, s: State, now: int, e: CalEvent)
    requires Inv(c, s) && !Terminal(s.phase) && c.family.Px4? && !e.CalDone? && !e.CalFailed? && !e.CalCancelled?
    ensures Inv(c, Statustext(c, s, now, e))
  {
    hide Inv, Emit, MarkEvidence, MarkProgressDirty, SetSideState, Started, InitialSides, Honest, LeaveStarting, SameFrame;
    var s1 := MarkEvidence(c, s, now);
    MarkKeeps(c, s, now);
    match e {
      case CalStarted(version) => StartedLineKeeps(c, s1, version);
      case OrientationDetected(side) => SideKeeps(c, s1, side, ActiveSide);
      case SideDone(side) => SideKeeps(c, s1, side, DoneSide);
      case CalProgress(pct) => PercentKeeps(c, s1, now, pct);
      case _ =>
    }
  }

  lemma LastLineKeeps(c: Config, s: State, now: int, e: CalEvent)
    requires Inv(c, s) && !Terminal(s.phase) && c.family.Px4? && (e.CalDone? || e.CalFailed? || e.CalCancelled?)
    ensures Inv(c, Statustext(c, s, now, e))
  {
    hide Inv, Settle, Fail, MarkEvidence, Started, AllDone, Honest;
    var s1 := MarkEvidence(c, s, now);
    MarkKeeps(c, s, now);
    WordIsHonest();
    match e {
      case CalDone =>
        var t := s1.(progress := Some(100), sides := AllDone(s1.sides));
        FrameKeeps(c, s1, t);
        SettleKeeps(c, t, Done, Verified);
      case CalFailed => FailKeeps(c, s1, CalibrationFailed, Verified);
      case CalCancelled => SettleKeeps(c, s1, Cancelled, Verified);
      case _ =>
    }
  }

  lemma WordIsHonest()
    ensures Honest(Done, Verified) && Honest(Failed, Verified) && Honest(Cancelled, Verified)
    ensures Honest(Failed, NotApplicable) && Honest(Accepted, AckOnly) && Honest(Cancelled, AckOnly)
  {
  }

  function AllPositions(s: State): State {
    s.(progress := Some(100), requestedPosition := None, sides := if s.sides.None? then None else Some(AllSides(DoneSide)))
  }

  function PositionsDone(c: Config, s: State, now: int): State {
    Settle(AllPositions(MarkEvidence(c, s, now)), Done, Verified)
  }

  /** A new position means the one before has been accepted. */
  function SidesHeld(s: State, position: nat): State {
    var moved := s.lastRequestedPosition.Some? && s.lastRequestedPosition.value != position;
    var before := if moved then MarkSide(s.sides, PositionSide(s.lastRequestedPosition.value), DoneSide) else s.sides;
    s.(sides := MarkSide(before, PositionSide(position), ActiveSide))
  }

  function Requested(s: State, position: nat): State {
    s.(lastRequestedPosition := Some(position), requestedPosition := Some(position), phase := WaitingPosition)
  }

  function PositionHeld(c: Config, s: State, now: int, position: nat): State {
    Emit(Requested(SidesHeld(MarkEvidence(c, s, now), position), position))
  }

  lemma PositionUnfolds(c: Config, s: State, now: int, m: PositionMessage)
    ensures PositionRequest(c, s, now, m)
            == if Terminal(s.phase) || !InteractiveAccel(c) then s
               else match m
                 case PositionSuccess => PositionsDone(c, s, now)
                 case PositionFailure => Fail(s, CalibrationFailed, Verified)
                 case PositionUnknown => s
                 case Hold(position) => if position < 1 || position > 6 then s else PositionHeld(c, s, now, position)
  {
    hide MarkEvidence, Emit, Settle, Fail, AllSides, MarkSide, PositionSide;
  }

  lemma PositionKeeps(c: Config, s: State, now: int, m: PositionMessage)
    requires Inv(c, s)
    ensures Inv(c, PositionRequest(c, s, now, m))
  {
    hide PositionRequest, Inv, Fail, PositionsDone, PositionHeld, Honest;
    PositionUnfolds(c, s, now, m);
    if !Terminal(s.phase) && InteractiveAccel(c) {
      WordIsHonest();
      match m {
        case PositionSuccess => PositionsDoneKeeps(c, s, now);
        case PositionFailure => FailKeeps(c, s, CalibrationFailed, Verified);
        case PositionUnknown =>
        case Hold(position) => PositionHeldKeeps(c, s, now, position);
      }
    }
  }

  lemma PositionsDoneKeeps(c: Config, s: State, now: int)
    requires Inv(c, s) && !Terminal(s.phase)
    ensures Inv(c, PositionsDone(c, s, now))
  {
    hide Inv, Settle, MarkEvidence, Started, AllSides, Honest;
    var t := MarkEvidence(c, s, now);
    MarkKeeps(c, s, now);
    WordIsHonest();
    FrameKeeps(c, t, AllPositions(t));
    SettleKeeps(c, AllPositions(t), Done, Verified);
  }

  lemma PositionHeldKeeps(c: Config, s: State, now: int, position: nat)
    requires Inv(c, s) && !Terminal(s.phase)
    ensures Inv(c, PositionHeld(c, s, now, position))
  {
    hide Inv, Emit, MarkEvidence, Started, SidesHeld, Requested;
    var t := MarkEvidence(c, s, now);
    MarkKeeps(c, s, now);
    HeldFrame(t, position);
    FrameKeeps(c, t, Requested(SidesHeld(t, position), position));
    EmitKeeps(c, Requested(SidesHeld(t, position), position));
  }

  lemma HeldFrame(s: State, position: nat)
    requires !Terminal(s.phase)
    ensures SameFrame(s, Requested(SidesHeld(s, position), position))
  {
    hide MarkSide, PositionSide, Started;
  }

  lemma ConfirmKeeps(c: Config, s: State, now: int, position: nat, accepts: bool)
    requires Inv(c, s)
    ensures Inv(c, ConfirmPosition(c, s, now, position, accepts))
  {
    hide Inv, Emit, Settle, Fail, MarkEvidence, Started, Honest;
    if CanConfirm(c, s, position) {
      WordIsHonest();
      FailKeeps(c, s, WriteRejected, NotApplicable);
      var t := s.(sent := s.sent + [PositionCommand(position)], requestedPosition := None, phase := Running);
      SentSomethingElse(s.sent, PositionCommand(position));
      FrameKeeps(c, s, t);
      MarkKeeps(c, t, now);
      EmitKeeps(c, MarkEvidence(c, t, now));
    }
  }

  lemma AcceptKeeps(c: Config, s: State, now: int, accepts: bool)
    requires Inv(c, s)
    ensures Inv(c, AcceptCalibration(c, s, now, accepts))
  {
    hide Inv, Emit, Settle, Fail, Arm, Started, Honest, Bit;
    if CanAccept(c, s) {
      WordIsHonest();
      FailKeeps(c, s, WriteRejected, NotApplicable);
      var t := s.(sent := s.sent + [AcceptCommand(MaskOf(s))], magAcceptPending := true, magAcceptAcked := false);
      SentSomethingElse(s.sent, AcceptCommand(MaskOf(s)));
      FrameKeeps(c, s, t);
      ArmKeeps(c, t, AcceptSlot, now + MAG_ACCEPT_CONFIRM_TIMEOUT_MS, GiveUp(AcceptAckTimeout));
      EmitKeeps(c, Arm(t, AcceptSlot, now + MAG_ACCEPT_CONFIRM_TIMEOUT_MS, GiveUp(AcceptAckTimeout)));
    }
  }

  lemma LatchKeeps(c: Config, s: State, calMask: nat, id: nat)
    requires Inv(c, s) && !Terminal(s.phase)
    ensures Inv(c, LatchMask(s, calMask, id)) && LatchMask(s, calMask, id).phase == s.phase
  {
    hide Inv, Started;
    FrameKeeps(c, s, LatchMask(s, calMask, id));
  }

  lemma RecordKeeps(c: Config, s: State, id: nat, k: Compass)
    requires Inv(c, s) && !Terminal(s.phase)
    ensures Inv(c, s.(compasses := s.compasses[id := k]))
  {
    hide Inv, Started;
    FrameKeeps(c, s, s.(compasses := s.compasses[id := k]));
  }

  lemma MeanKeeps(c: Config, s: State)
    requires Inv(c, s) && !Terminal(s.phase)
    ensures Inv(c, UpdateMagProgress(s)) && !Terminal(UpdateMagProgress(s).phase)
  {
    hide Inv, Started, CompassCount, PercentSum, MaskOf;
    FrameKeeps(c, s, UpdateMagProgress(s));
  }

  /** Latching the mask, recording a compass and recomputing the mean leave the frame alone. */
  lemma MagFrame(c: Config, s: State, now: int, calMask: nat, id: nat, k: Compass)
    requires Inv(c, s) && !Terminal(s.phase)
    ensures var s1 := LatchMask(MarkEvidence(c, s, now), calMask, id);
            var s2 := s1.(compasses := s1.compasses[id := k]);
            && Inv(c, s2) && !Terminal(s2.phase) && Inv(c, UpdateMagProgress(s2)) && Inv(c, UpdateMagProgress(LeaveStarting(s2)))
            && !Terminal(UpdateMagProgress(s2).phase) && !Terminal(UpdateMagProgress(LeaveStarting(s2)).phase)
  {
    hide Inv, MarkEvidence, LatchMask, UpdateMagProgress, Started;
    MarkKeeps(c, s, now);
    LatchKeeps(c, MarkEvidence(c, s, now), calMask, id);
    var s1 := LatchMask(MarkEvidence(c, s, now), calMask, id);
    var s2 := s1.(compasses := s1.compasses[id := k]);
    RecordKeeps(c, s1, id, k);
    MeanKeeps(c, s2);
    FrameKeeps(c, s2, LeaveStarting(s2));
    MeanKeeps(c, LeaveStarting(s2));
  }

  lemma MagProgressKeeps(c: Config, s: State, now: int, id: nat, calMask: nat, status: nat, attempt: nat, pct: nat)
    requires Inv(c, s)
    ensures Inv(c, MagProgress(c, s, now, id, calMask, status, attempt, pct))
  {
    hide Inv, Emit, Settle, Fail, MarkEvidence, MarkProgressDirty, Started, Honest, LatchMask, UpdateMagProgress, LeaveStarting;
    if !Terminal(s.phase) && MagFlow(c) {
      var s1 := LatchMask(MarkEvidence(c, s, now), calMask, id);
      var k := Compass(pct, status, attempt, if id in s1.compasses then s1.compasses[id].report else None);
      MagFrame(c, s, now, calMask, id, k);
      var s2 := s1.(compasses := s1.compasses[id := k]);
      WordIsHonest();
      FailKeeps(c, s2, MagFailed(status), Verified);
      EmitKeeps(c, UpdateMagProgress(LeaveStarting(s2)));
      DirtyKeeps(c, UpdateMagProgress(LeaveStarting(s2)), now);
    }
  }

  lemma MagReportKeeps(c: Config, s: State, now: int, id: nat, calMask: nat, status: nat, autosaved: bool)
    requires Inv(c, s)
    ensures Inv(c, MagReport(c, s, now, id, calMask, status, autosaved))
  {
    hide Inv, Emit, Settle, Fail, MarkEvidence, Started, Honest, LatchMask, UpdateMagProgress, AllAutosaved, AllSucceeded;
    if !Terminal(s.phase) && MagFlow(c) {
      var s1 := LatchMask(MarkEvidence(c, s, now), calMask, id);
      var k := Compass(if id in s1.compasses then s1.compasses[id].pct else 100, status,
                       if id in s1.compasses then s1.compasses[id].attempt else 0, Some(Report(status, autosaved)));
      MagFrame(c, s, now, calMask, id, k);
      var s2 := s1.(compasses := s1.compasses[id := k]);
      var s3 := UpdateMagProgress(s2);
      WordIsHonest();
      FailKeeps(c, s2, MagFailed(status), Verified);
      FrameKeeps(c, s3, s3.(progress := Some(100), rebootRequired := true));
      SettleKeeps(c, s3.(progress := Some(100), rebootRequired := true), Done, Verified);
      EmitKeeps(c, s3);
      FrameKeeps(c, s3, s3.(phase := AwaitingAccept));
      EmitKeeps(c, s3.(phase := AwaitingAccept));
    }
  }

  lemma FlushKeeps(c: Config, s: State, slot: Slot)
    requires Inv(c, s) && slot in s.timers && s.timers[slot].action.Flush?
    ensures Inv(c, Emit(s.(timers := s.timers - {slot})))
  {
    hide Inv, Emit, Started;
    var t := s.(timers := s.timers - {slot});
    NoFlushWatches(c, s, slot);
    FrameKeeps(c, s, t);
    EmitKeeps(c, t);
  }

  lemma NoFlushWatches(c: Config, s: State, slot: Slot)
    requires Inv(c, s) && slot in s.timers && s.timers[slot].action.Flush?
    ensures SameFrame(s, s.(timers := s.timers - {slot}))
  {
    hide Published, Started, Honest;
  }

  lemma GiveUpKeeps(c: Config, s: State, slot: Slot, code: Code)
    requires Inv(c, s) && slot in s.timers && s.timers[slot].action == GiveUp(code)
    ensures Inv(c, TimerFires(s, slot))
  {
    hide Emit, Started, Settle, Fail, Published, Honest, Inv, SentOnce;
    WordIsHonest();
    NotEndedYet(c, s, slot);
    FailUnfolds(s.(timers := s.timers - {slot}), code);
    TimerEnds(c, s, s.(timers := s.timers - {slot}, failureCode := Some(code)), slot, Failed, NotApplicable);
  }

  lemma WindowKeeps(c: Config, s: State, slot: Slot)
    requires Inv(c, s) && slot in s.timers && (s.timers[slot].action.CancelUnconfirmed? || s.timers[slot].action.AcceptUnverified?)
    ensures Inv(c, TimerFires(s, slot))
  {
    hide Emit, Started, Settle, Fail, Published, Honest, Inv, SentOnce;
    WordIsHonest();
    if s.timers[slot].action.CancelUnconfirmed? {
      TimerEnds(c, s, s.(timers := s.timers - {slot}, failureCode := Some(CancelUnverified)), slot, Cancelled, AckOnly);
    } else {
      TimerEnds(c, s, s.(timers := s.timers - {slot}, rebootRequired := true), slot, Accepted, AckOnly);
    }
  }

  lemma TimerKeeps(c: Config, s: State, slot: Slot, now: int)
    requires Inv(c, s) && slot in s.timers
    ensures Inv(c, TimerFires(s, slot))
  {
    match s.timers[slot].action {
      case GiveUp(code) => hide *; GiveUpKeeps(c, s, slot, code);
      case Flush => hide Inv, Emit; FlushKeeps(c, s, slot);
      case _ => hide *; WindowKeeps(c, s, slot);
    }
  }

  lemma TimerEnds(c: Config, s: State, t: State, slot: Slot, p: Phase, v: Verification)
    requires Inv(c, s) && slot in s.timers && Terminal(p) && Honest(p, v)
    requires t.sent == s.sent && t.started == s.started && t.snapshots == s.snapshots && t.seqNo == s.seqNo
    requires t.cancelRequested == s.cancelRequested
    ensures Inv(c, Settle(t, p, v))
  {
    hide Emit, Started, Settle, Published, Honest, Inv;
    NotEndedYet(c, s, slot);
    EndsHonestly(c, t, p, v);
  }

  lemma NotEndedYet(c: Config, s: State, slot: Slot)
    requires Inv(c, s) && slot in s.timers
    ensures !Terminal(s.phase) && Published(s.snapshots, s.seqNo, Open) && (s.cancelRequested ==> CancelSupported(c))
    ensures forall t: State :: t.sent == s.sent && t.started == s.started ==> SentOnce(t)
  {
    hide Started;
  }

  lemma FailUnfolds(s: State, code: Code)
    requires !Terminal(s.phase)
    ensures Fail(s, code, NotApplicable) == Settle(s.(failureCode := Some(code)), Failed, NotApplicable)
  {
  }

  lemma StepKeeps(c: Config, s: State, i: Input, now: int)
    requires Inv(c, s) && (i.TimerIn? ==> i.slot in s.timers)
    ensures Inv(c, Step(c, s, i, now))
  {
    hide Inv, Start, Fail, Cancel, Emit, CommandAck, Statustext, PositionRequest, ConfirmPosition, AcceptCalibration,
         MagProgress, MagReport, TimerFires, Honest;
    match i {
      case StartCall(accepts) => StartKeeps(c, s, now, accepts);
      case TerminateCall => WordIsHonest(); FailKeeps(c, s, External, NotApplicable);
      case CancelCall(accepts) => CancelKeeps(c, s, now, accepts);
      case OwnerChanged => EmitKeeps(c, s);
      case AckIn(id, result) => AckKeeps(c, s, now, id, result);
      case TextIn(e) => TextKeeps(c, s, now, e);
      case PositionIn(m) => PositionKeeps(c, s, now, m);
      case ConfirmCall(position, accepts) => ConfirmKeeps(c, s, now, position, accepts);
      case AcceptCall(accepts) => AcceptKeeps(c, s, now, accepts);
      case MagProgressIn(id, mask, status, attempt, pct) => MagProgressKeeps(c, s, now, id, mask, status, attempt, pct);
      case MagReportIn(id, mask, status, autosaved) => MagReportKeeps(c, s, now, id, mask, status, autosaved);
      case TimerIn(slot) => TimerKeeps(c, s, slot, now);
    }
  }
}
