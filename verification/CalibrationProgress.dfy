/** What a calibration session shows of its progress: the sides of the vehicle, the position asked for, the percentage and
    the compasses, told by the messages it has received. */
module CalibrationProgress {
  import opened Bytes
  import opened CalibrationRules
  import opened CalibrationSafety
  import opened CalibrationRuns

  datatype Face = Face(sides: Option<Sides>, progress: Option<nat>, requested: Option<nat>, lastRequested: Option<nat>,
                       compasses: map<nat, Compass>, mask: Option<nat>)

  function FaceOf(s: State): Face {
    Face(s.sides, s.progress, s.requestedPosition, s.lastRequestedPosition, s.compasses, s.expectedMagMask)
  }

  /** The side takes the mark unless it is hidden; a session that shows no sides shows none. */
  function Marked(sides: Option<Sides>, side: Side, mark: SideState): Option<Sides> {
    if sides.None? || side !in sides.value || sides.value[side].HiddenSide? then sides else Some(sides.value[side := mark])
  }

  /** Which sides a PX4 calibration of this kind has to show: all, one, or those the mask names in the order back, front,
      left, right, up, down. */
  predicate Shown(c: Config, side: Side) {
    match c.kind
    case Accel => true
    case Gyro => side.Down?
    case Mag =>
      c.magSides / (match side case Back => 1 case Front => 2 case Left => 4 case Right => 8 case Up => 16 case Down => 32) % 2 == 1
    case _ => false
  }

  ghost predicate ShowsAllSides(sides: Sides) {
    forall side: Side :: side in sides
  }

  /** The first line of a known protocol version shows the sides of the calibration; an unknown one hides them all. */
  ghost predicate Opening(c: Config, sides: Option<Sides>, version: nat) {
    if version != 2 || !(c.kind.Accel? || c.kind.Gyro? || c.kind.Mag?) then sides.None?
    else
      && sides.Some? && ShowsAllSides(sides.value)
      && forall side: Side :: side in sides.value && sides.value[side] == if Shown(c, side) then PendingSide else HiddenSide
  }

  lemma PowersOfSides()
    ensures PowerOfTwo(0) == 1 && PowerOfTwo(1) == 2 && PowerOfTwo(2) == 4 && PowerOfTwo(3) == 8 && PowerOfTwo(4) == 16
            && PowerOfTwo(5) == 32
  {
    assert PowerOfTwo(3) == 8;
  }

  lemma OpeningMeans(c: Config, version: nat)
    ensures Opening(c, if version == PX4_CAL_PROTOCOL_VERSION then InitialSides(c) else None, version)
  {
    PowersOfSides();
    hide PowerOfTwo;
    AllSidesThere(PendingSide);
    AllSidesThere(HiddenSide);
    hide AllSides;
    if version == PX4_CAL_PROTOCOL_VERSION && c.kind.Mag? {
      forall side: Side ensures Bit(c.magSides, SideBit(side)) <==> Shown(c, side) {
        match side {
          case Back => assert SideBit(side) == 0;
          case Front => assert SideBit(side) == 1;
          case Left => assert SideBit(side) == 2;
          case Right => assert SideBit(side) == 3;
          case Up => assert SideBit(side) == 4;
          case Down => assert SideBit(side) == 5;
        }
      }
    }
  }

  lemma AllSidesThere(mark: SideState)
    ensures forall side: Side :: side in AllSides(mark) && AllSides(mark)[side] == mark
  {
    forall side: Side ensures side in AllSides(mark) && AllSides(mark)[side] == mark {
      match side {
        case Down =>
        case Up =>
        case Left =>
        case Right =>
        case Front =>
        case Back =>
      }
    }
  }

  lemma EmitFace(s: State)
    ensures FaceOf(Emit(s)) == FaceOf(s)
  {
  }

  lemma ArmFace(s: State, slot: Slot, due: int, action: Action)
    ensures FaceOf(Arm(s, slot, due, action)) == FaceOf(s)
  {
  }

  lemma MarkFace(c: Config, s: State, now: int)
    ensures FaceOf(MarkEvidence(c, s, now)) == FaceOf(s)
  {
  }

  lemma DirtyFace(s: State, now: int)
    ensures FaceOf(MarkProgressDirty(s, now)) == FaceOf(s)
  {
  }

  lemma SettleFace(s: State, p: Phase, v: Verification)
    ensures FaceOf(Settle(s, p, v)) == FaceOf(s)
  {
    hide Emit;
    EmitFace(s.(timers := map[], phase := p, verification := v));
  }

  lemma FailFace(s: State, code: Code, v: Verification)
    ensures FaceOf(Fail(s, code, v)) == FaceOf(s)
  {
    hide Settle;
    SettleFace(s.(failureCode := Some(code)), Failed, v);
  }

  lemma SideFace(s: State, side: Side, mark: SideState)
    requires !mark.HiddenSide?
    ensures FaceOf(SetSideState(s, side, mark)) == FaceOf(s).(sides := Marked(s.sides, side, mark))
  {
    hide Emit;
    if s.sides.Some? && side in s.sides.value {
      var t := s.(sides := Some(s.sides.value[side := mark]));
      EmitFace(t);
      if s.sides.value[side] == mark {
        assert s.sides.value[side := mark] == s.sides.value;
      }
    }
  }

  // ---------------------------------------------------------------------------------------------------
  // PX4
  // ---------------------------------------------------------------------------------------------------

  /** Every side that is shown is done. */
  ghost predicate AllMarkedDone(before: Option<Sides>, sides: Option<Sides>) {
    && (sides.Some? <==> before.Some?)
    && (before.Some? ==> sides.value.Keys == before.value.Keys
                         && forall side :: side in before.value ==>
                              sides.value[side] == if before.value[side].HiddenSide? then HiddenSide else DoneSide)
  }

  /** What a line of the flight controller changes of what is shown. */
  ghost predicate LineShows(c: Config, f: Face, g: Face, e: CalEvent) {
    match e
    case CalStarted(version) => Opening(c, g.sides, version) && g == f.(sides := g.sides)
    case OrientationDetected(side) => g == f.(sides := Marked(f.sides, side, ActiveSide))
    case SideDone(side) => g == f.(sides := Marked(f.sides, side, DoneSide))
    case CalProgress(pct) => g == f.(progress := Some(pct))
    case CalDone => AllMarkedDone(f.sides, g.sides) && g == f.(sides := g.sides, progress := Some(100))
    case _ => g == f
  }

  lemma LineFace(c: Config, s: State, now: int, e: CalEvent)
    requires !Terminal(s.phase) && c.family.Px4?
    ensures LineShows(c, FaceOf(s), FaceOf(Statustext(c, s, now, e)), e)
  {
    hide MarkEvidence, Emit, InitialSides, SetSideState, MarkProgressDirty, Settle, Fail, AllDone, Opening, Statustext, LeaveStarting,
         AllMarkedDone, FaceOf, Marked;
    var s1 := MarkEvidence(c, s, now);
    MarkFace(c, s, now);
    SameSides(s, s1);
    TextUnfolds(c, s, now, e);
    match e {
      case CalStarted(version) => FirstFace(c, s1, version);
      case OrientationDetected(side) => SideFace(s1, side, ActiveSide);
      case SideDone(side) => SideFace(s1, side, DoneSide);
      case CalProgress(pct) => PercentFace(s1, pct, now);
      case CalDone => DoneFace(s1);
      case CalFailed => FailFace(s1, CalibrationFailed, Verified);
      case CalCancelled => SettleFace(s1, Cancelled, Verified);
      case _ =>
    }
  }

  lemma SameSides(s: State, t: State)
    requires FaceOf(t) == FaceOf(s)
    ensures t.sides == s.sides == FaceOf(s).sides
  {
  }

  lemma FirstFace(c: Config, s: State, version: nat)
    ensures var t := Emit(LeaveStarting(s.(sides := if version == PX4_CAL_PROTOCOL_VERSION then InitialSides(c) else None)));
            Opening(c, FaceOf(t).sides, version) && FaceOf(t) == FaceOf(s).(sides := FaceOf(t).sides)
  {
    hide Emit, InitialSides, Opening;
    OpeningMeans(c, version);
    EmitFace(LeaveStarting(s.(sides := if version == PX4_CAL_PROTOCOL_VERSION then InitialSides(c) else None)));
  }

  lemma PercentFace(s: State, pct: nat, now: int)
    ensures FaceOf(MarkProgressDirty(s.(progress := Some(pct)), now)) == FaceOf(s).(progress := Some(pct))
  {
  }

  lemma DoneFace(s: State)
    ensures var t := Settle(s.(progress := Some(100), sides := AllDone(s.sides)), Done, Verified);
            AllMarkedDone(s.sides, FaceOf(t).sides) && FaceOf(t) == FaceOf(s).(sides := FaceOf(t).sides, progress := Some(100))
  {
    hide Settle, AllDone, AllMarkedDone;
    AllDoneMeans(s.sides);
    SettleFace(s.(progress := Some(100), sides := AllDone(s.sides)), Done, Verified);
  }

  lemma AllDoneMeans(sides: Option<Sides>)
    ensures AllMarkedDone(sides, AllDone(sides))
  {
  }

  /** On PX4 nothing but its lines changes what is shown. */
  lemma OthersShowNothing(c: Config, s: State, i: Input, now: int)
    requires !Terminal(s.phase) && c.family.Px4? && !i.TextIn? && (i.TimerIn? ==> i.slot in s.timers)
    ensures FaceOf(Step(c, s, i, now)) == FaceOf(s)
  {
    hide Settle, Fail, Arm, Emit, MarkEvidence, AllSides, Statustext, PositionRequest, MagProgress, MagReport, Start, Announce;
    EmitFace(s);
    MarkFace(c, s, now);
    FailFace(s, External, NotApplicable);
    match i {
      case StartCall(accepts) => StartFace(c, s, now, accepts);
      case CancelCall(accepts) => CancelFace(c, s, now, accepts);
      case AckIn(id, result) => AckFace(c, s, now, id, result);
      case PositionIn(m) => PositionUnfolds(c, s, now, m);
      case MagProgressIn(id, mask, status, attempt, pct) => NotForOthers(c, s, now, id, mask, status, attempt, pct);
      case MagReportIn(id, mask, status, autosaved) => NotForOthers(c, s, now, id, mask, status, 0, 0);
      case TimerIn(slot) => TimerFace(s, slot);
      case _ =>
    }
  }

  lemma StartFace(c: Config, s: State, now: int, accepts: bool)
    requires !Terminal(s.phase)
    ensures FaceOf(Start(c, s, now, accepts))
            == if !s.started && accepts && InteractiveAccel(c) then FaceOf(s).(sides := Some(AllSides(PendingSide))) else FaceOf(s)
  {
    hide Start, Settle, Arm, Emit, AllSides;
    if s.started {
      NothingToStart(c, s, now, accepts);
    } else {
      StartUnfolds(c, s, now, accepts);
      SettleFace(s.(started := true, startedAt := now, startCommandId := StartCommandFor(c), failureCode := Some(WriteRejected)),
                 Failed, NotApplicable);
      var t := Emit(StartWritten(c, s, now));
      EmitFace(StartWritten(c, s, now));
      ArmFace(t, StartSlot, now + AP_ONESHOT_ACK_TIMEOUT_MS, GiveUp(AckTimeout));
      ArmFace(t, StartSlot, now + START_EVIDENCE_TIMEOUT_MS, GiveUp(StartTimeout));
      ArmFace(Arm(t, StartSlot, now + START_EVIDENCE_TIMEOUT_MS, GiveUp(StartTimeout)), OverallSlot,
              now + OverallTimeoutMs(c), GiveUp(OverallTimeout));
    }
  }

  lemma CancelFace(c: Config, s: State, now: int, accepts: bool)
    ensures FaceOf(Cancel(c, s, now, accepts)) == FaceOf(s)
  {
    hide Fail;
    FailFace(s, WriteRejected, NotApplicable);
  }

  lemma AckFace(c: Config, s: State, now: int, id: CommandId, result: AckResult)
    requires !Terminal(s.phase)
    ensures FaceOf(CommandAck(c, s, now, id, result)) == FaceOf(s)
  {
    hide Settle, Fail, StartAck, MagAcceptAck;
    SettleFace(s, Cancelled, AckOnly);
    FailFace(s, CancelDenied, AckOnly);
    StartAckFace(c, s, now, result);
    AcceptAckFace(s, now, result);
  }

  lemma StartAckFace(c: Config, s: State, now: int, result: AckResult)
    ensures FaceOf(StartAck(c, s, now, result)) == FaceOf(s)
  {
    hide Settle, Fail, Arm, MarkEvidence, Emit;
    SettleFace(s, Accepted, AckOnly);
    FailFace(s, StartDenied, NotApplicable);
    MarkFace(c, s, now);
    ArmFace(s, StartSlot, now + AP_ONESHOT_ACK_TIMEOUT_MS, GiveUp(AckTimeout));
    EmitFace(MarkEvidence(c, s, now).(phase := Running));
    EmitFace(Arm(s, StartSlot, now + AP_ONESHOT_ACK_TIMEOUT_MS, GiveUp(AckTimeout)).(phase := Running));
  }

  lemma AcceptAckFace(s: State, now: int, result: AckResult)
    ensures FaceOf(MagAcceptAck(s, now, result)) == FaceOf(s)
  {
    hide Fail;
    FailFace(s, AcceptDenied, NotApplicable);
  }

  lemma TimerFace(s: State, slot: Slot)
    requires slot in s.timers
    ensures FaceOf(TimerFires(s, slot)) == FaceOf(s)
  {
    hide Settle, Fail, Emit;
    var s1 := s.(timers := s.timers - {slot});
    EmitFace(s1);
    match s.timers[slot].action {
      case GiveUp(code) => FailFace(s1, code, NotApplicable);
      case CancelUnconfirmed => SettleFace(s1.(failureCode := Some(CancelUnverified)), Cancelled, AckOnly);
      case AcceptUnverified => SettleFace(s1.(rebootRequired := true), Accepted, AckOnly);
      case Flush =>
    }
  }

  /** The last mark a run of inputs gives a side. */
  function LastMark(es: seq<Timed>, side: Side): SideState {
    if es == [] then PendingSide
    else match es[|es| - 1].input
      case TextIn(OrientationDetected(at)) => if at == side then ActiveSide else LastMark(es[..|es| - 1], side)
      case TextIn(SideDone(at)) => if at == side then DoneSide else LastMark(es[..|es| - 1], side)
      case _ => LastMark(es[..|es| - 1], side)
  }

  /** The last percentage a run of inputs reports. */
  function LastPercent(es: seq<Timed>, before: Option<nat>): Option<nat> {
    if es == [] then before
    else match es[|es| - 1].input
      case TextIn(CalProgress(pct)) => Some(pct)
      case _ => LastPercent(es[..|es| - 1], before)
  }

  ghost predicate NoNewStart(es: seq<Timed>) {
    forall i :: 0 <= i < |es| ==> !(es[i].input.TextIn? && es[i].input.event.CalStarted?)
  }

  /** What is shown after the first line and the inputs since: the marks given last, and the last percentage. */
  ghost predicate ShownSince(c: Config, f: Face, since: seq<Timed>, before: Option<nat>) {
    && f.progress == LastPercent(since, before)
    && if !(c.kind.Accel? || c.kind.Gyro? || c.kind.Mag?) then f.sides.None?
       else
         && f.sides.Some?
         && forall side: Side :: side in f.sides.value
                                 && f.sides.value[side] == if Shown(c, side) then LastMark(since, side) else HiddenSide
  }

  lemma ShownStep(c: Config, f: Face, g: Face, since: seq<Timed>, e: Timed, before: Option<nat>)
    requires ShownSince(c, f, since, before)
    requires if e.input.TextIn? then LineShows(c, f, g, e.input.event) && !e.input.event.CalStarted? && !e.input.event.CalDone? else g == f
    ensures ShownSince(c, g, since + [e], before)
  {
    hide Opening, Shown, LastMark, LastPercent;
    forall side: Side
      ensures LastMark(since + [e], side) == Marks(e.input, side, LastMark(since, side)) && !LastMark(since, side).HiddenSide?
    {
      LastMarkSnoc(since, e, side);
      NeverHidden(since);
    }
    PercentSnoc(since, e, before);
  }

  function Marks(i: Input, side: Side, before: SideState): SideState {
    match i
    case TextIn(OrientationDetected(at)) => if at == side then ActiveSide else before
    case TextIn(SideDone(at)) => if at == side then DoneSide else before
    case _ => before
  }

  lemma LastMarkSnoc(since: seq<Timed>, e: Timed, side: Side)
    ensures LastMark(since + [e], side) == Marks(e.input, side, LastMark(since, side))
  {
    assert (since + [e])[..|since|] == since;
  }

  lemma PercentSnoc(since: seq<Timed>, e: Timed, before: Option<nat>)
    ensures LastPercent(since + [e], before)
            == if e.input.TextIn? && e.input.event.CalProgress? then Some(e.input.event.pct) else LastPercent(since, before)
  {
    assert (since + [e])[..|since|] == since;
  }

  lemma {:induction false} NeverHidden(es: seq<Timed>)
    ensures forall side: Side :: !LastMark(es, side).HiddenSide?
    decreases |es|
  {
    if es != [] {
      NeverHidden(es[..|es| - 1]);
    }
  }

  lemma {:induction false} ShownRun(c: Config, s: State, since: seq<Timed>, es: seq<Timed>, before: Option<nat>)
    requires Inv(c, s) && c.family.Px4? && AllowedRun(c, s, es) && NoNewStart(es) && !Terminal(After(c, s, es).phase)
    requires ShownSince(c, FaceOf(s), since, before)
    ensures ShownSince(c, FaceOf(After(c, s, es)), since + es, before)
    decreases |es|
  {
    hide Inv, Step, ShownSince, LineShows, FaceOf;
    if es == [] {
      assert since + es == since;
    } else {
      var t := Step(c, s, es[0].input, es[0].now);
      StaysOpen(c, s, es);
      StepKeeps(c, s, es[0].input, es[0].now);
      if es[0].input.TextIn? {
        LineFace(c, s, es[0].now, es[0].input.event);
        StepIsLine(c, s, es[0].input, es[0].now);
      } else {
        OthersShowNothing(c, s, es[0].input, es[0].now);
      }
      ShownStep(c, FaceOf(s), FaceOf(t), since, es[0], before);
      forall i | 0 <= i < |es[1..]| ensures !(es[1..][i].input.TextIn? && es[1..][i].input.event.CalStarted?) {
        assert es[1..][i] == es[i + 1];
      }
      ShownRun(c, t, since + [es[0]], es[1..], before);
      assert since + [es[0]] + es[1..] == since + es;
    }
  }

  lemma StepIsLine(c: Config, s: State, i: Input, now: int)
    requires Inv(c, s) && !Terminal(s.phase) && i.TextIn? && c.family.Px4? && !Terminal(Step(c, s, i, now).phase)
    ensures Step(c, s, i, now) == Statustext(c, s, now, i.event) && !i.event.CalDone?
  {
    hide Statustext, Inv;
    OpenIsUnjudged(c, s);
    TextSays(c, s, now, i.event);
  }

  /** A session that is open at the end of a run was open all the time. */
  lemma StaysOpen(c: Config, s: State, es: seq<Timed>)
    requires Inv(c, s) && es != [] && AllowedRun(c, s, es) && !Terminal(After(c, s, es).phase)
    ensures !Terminal(s.phase) && !Terminal(Step(c, s, es[0].input, es[0].now).phase)
  {
    hide Inv, Step;
    StepKeeps(c, s, es[0].input, es[0].now);
    if Terminal(s.phase) {
      EndIsFinal(c, s, es[0].input, es[0].now);
    }
    if Terminal(Step(c, s, es[0].input, es[0].now).phase) {
      EndedStaysEnded(c, Step(c, s, es[0].input, es[0].now), es[1..]);
    }
  }

  lemma {:induction false} EndedStaysEnded(c: Config, s: State, es: seq<Timed>)
    requires Inv(c, s) && Terminal(s.phase) && AllowedRun(c, s, es)
    ensures Terminal(After(c, s, es).phase)
    decreases |es|
  {
    hide Inv, Step;
    if es != [] {
      StepKeeps(c, s, es[0].input, es[0].now);
      EndIsFinal(c, s, es[0].input, es[0].now);
      EndedStaysEnded(c, Step(c, s, es[0].input, es[0].now), es[1..]);
    }
  }

  /** On PX4, after the first line of the known protocol and whatever came since, an open session shows every side of the
      calibration with the mark given to it last, hides the others, and shows the last percentage. */
  lemma SidesAreTold(c: Config, s: State, now: int, es: seq<Timed>)
    requires c.family.Px4? && Inv(c, s) && !Terminal(s.phase)
    requires var t := Statustext(c, s, now, CalStarted(2)); AllowedRun(c, t, es) && NoNewStart(es) && !Terminal(After(c, t, es).phase)
    ensures ShownSince(c, FaceOf(After(c, Statustext(c, s, now, CalStarted(2)), es)), es, s.progress)
  {
    hide Inv, Statustext, Opening, Shown;
    var t := Statustext(c, s, now, CalStarted(2));
    LineFace(c, s, now, CalStarted(2));
    TextKeeps(c, s, now, CalStarted(2));
    OpeningShows(c, FaceOf(t), s.progress);
    ShownRun(c, t, [], es, s.progress);
    assert [] + es == es;
  }

  lemma OpeningShows(c: Config, f: Face, before: Option<nat>)
    requires Opening(c, f.sides, 2) && f.progress == before
    ensures ShownSince(c, f, [], before)
  {
    hide Shown;
  }

  // ---------------------------------------------------------------------------------------------------
  // Positions
  // ---------------------------------------------------------------------------------------------------

  /** The sides in the order of the positions asked for, from one to six. */
  const POSITION_SIDES := [Down, Left, Right, Front, Back, Up]

  predicate IsPosition(p: nat) {
    1 <= p <= 6
  }

  function SideOf(p: nat): Side
    requires IsPosition(p)
  {
    POSITION_SIDES[p - 1]
  }

  /** The positions the flight controller asked for, in order. */
  function Positions(es: seq<Timed>): (ps: seq<nat>)
    ensures forall i :: 0 <= i < |ps| ==> IsPosition(ps[i])
  {
    if es == [] then []
    else
      var i := es[|es| - 1].input;
      Positions(es[..|es| - 1])
      + if i.PositionIn? && i.message.Hold? && IsPosition(i.message.position) then [i.message.position] else []
  }

  ghost predicate AskedFor(ps: seq<nat>, side: Side)
    requires forall i :: 0 <= i < |ps| ==> IsPosition(ps[i])
  {
    exists i :: 0 <= i < |ps| && SideOf(ps[i]) == side
  }

  /** The side asked for last is active, sides asked for before are done, and the others wait. */
  ghost function MarkFor(ps: seq<nat>, side: Side): SideState
    requires forall i :: 0 <= i < |ps| ==> IsPosition(ps[i])
  {
    if ps != [] && SideOf(ps[|ps| - 1]) == side then ActiveSide else if AskedFor(ps, side) then DoneSide else PendingSide
  }

  ghost predicate PositionsShown(f: Face, ps: seq<nat>)
    requires forall i :: 0 <= i < |ps| ==> IsPosition(ps[i])
  {
    && f.sides.Some? && f.lastRequested == (if ps == [] then None else Some(ps[|ps| - 1]))
    && forall side: Side :: side in f.sides.value && f.sides.value[side] == MarkFor(ps, side)
  }

  lemma MarkSnoc(ps: seq<nat>, position: nat, side: Side)
    requires (forall i :: 0 <= i < |ps| ==> IsPosition(ps[i])) && IsPosition(position)
    ensures MarkFor(ps + [position], side)
            == if SideOf(position) == side then ActiveSide else if MarkFor(ps, side).PendingSide? then PendingSide else DoneSide
  {
    hide SideOf;
    var all := ps + [position];
    assert all[|ps|] == position && forall i :: 0 <= i < |ps| ==> all[i] == ps[i];
    if i :| 0 <= i < |ps| && SideOf(ps[i]) == side {
      assert SideOf(all[i]) == side;
    }
  }

  lemma HeldFace(s: State, position: nat)
    ensures FaceOf(Requested(SidesHeld(s, position), position))
            == FaceOf(s).(sides := SidesHeld(s, position).sides, requested := Some(position), lastRequested := Some(position))
  {
    hide MarkSide, PositionSide;
  }

  lemma PositionFace(c: Config, s: State, now: int, position: nat)
    requires !Terminal(s.phase) && InteractiveAccel(c) && IsPosition(position)
    ensures FaceOf(PositionRequest(c, s, now, Hold(position)))
            == FaceOf(s).(sides := SidesHeld(s, position).sides, requested := Some(position), lastRequested := Some(position))
  {
    hide PositionRequest, Emit, MarkEvidence, SidesHeld, Requested, PositionsDone, Fail;
    PositionUnfolds(c, s, now, Hold(position));
    var t := MarkEvidence(c, s, now);
    MarkFace(c, s, now);
    HeldFace(t, position);
    EmitFace(Requested(SidesHeld(t, position), position));
    SameHeld(s, t, position);
  }

  lemma SameHeld(s: State, t: State, position: nat)
    requires FaceOf(t) == FaceOf(s)
    ensures SidesHeld(t, position).sides == SidesHeld(s, position).sides
  {
    hide MarkSide, PositionSide;
  }

  lemma HoldShows(s: State, g: Face, ps: seq<nat>, position: nat)
    requires (forall i :: 0 <= i < |ps| ==> IsPosition(ps[i])) && IsPosition(position)
    requires PositionsShown(FaceOf(s), ps) && g.sides == SidesHeld(s, position).sides && g.lastRequested == Some(position)
    ensures PositionsShown(g, ps + [position])
  {
    hide SideOf, PositionSide, AskedFor;
    PositionTable(position);
    if ps != [] {
      PositionTable(ps[|ps| - 1]);
    }
    forall side: Side ensures side in g.sides.value && g.sides.value[side] == MarkFor(ps + [position], side) {
      MarkSnoc(ps, position, side);
    }
  }

  lemma PositionTable(p: nat)
    requires IsPosition(p)
    ensures PositionSide(p) == SideOf(p)
    ensures forall q :: IsPosition(q) && SideOf(q) == SideOf(p) ==> q == p
  {
  }

  /** In the interactive flow nothing but a position changes the sides, while the session is open. */
  lemma OthersHoldNothing(c: Config, s: State, i: Input, now: int)
    requires Inv(c, s) && !Terminal(s.phase) && s.started && InteractiveAccel(c) && (i.TimerIn? ==> i.slot in s.timers)
    requires !Terminal(Step(c, s, i, now).phase)
    requires !(i.PositionIn? && i.message.Hold? && IsPosition(i.message.position))
    ensures FaceOf(Step(c, s, i, now)).sides == s.sides && FaceOf(Step(c, s, i, now)).lastRequested == s.lastRequestedPosition
  {
    hide Settle, Fail, Arm, Emit, MarkEvidence, AllSides, Statustext, PositionRequest, MagProgress, MagReport, Start, CommandAck,
         TimerFires, Cancel, CanConfirm, Inv;
    EmitFace(s);
    FailFace(s, External, NotApplicable);
    match i {
      case StartCall(accepts) => NothingToStart(c, s, now, accepts);
      case CancelCall(accepts) => CancelFace(c, s, now, accepts);
      case AckIn(id, result) => AckFace(c, s, now, id, result);
      case TextIn(e) => NotForArduPilot(c, s, now, e);
      case PositionIn(m) => NoPosition(c, s, now, m);
      case ConfirmCall(position, accepts) => ConfirmFace(c, s, now, position, accepts);
      case MagProgressIn(id, mask, status, attempt, pct) => NotForOthers(c, s, now, id, mask, status, attempt, pct);
      case MagReportIn(id, mask, status, autosaved) => NotForOthers(c, s, now, id, mask, status, 0, 0);
      case TimerIn(slot) => TimerFace(s, slot);
      case _ =>
    }
  }

  lemma NoPosition(c: Config, s: State, now: int, m: PositionMessage)
    requires Inv(c, s) && !Terminal(s.phase) && !(m.Hold? && IsPosition(m.position))
    requires !Terminal(PositionRequest(c, s, now, m).phase)
    ensures PositionRequest(c, s, now, m) == s
  {
    hide PositionRequest, Fail, Settle, MarkEvidence, Inv, AllPositions;
    PositionUnfolds(c, s, now, m);
    OpenIsUnjudged(c, s);
    PositionSays(c, s, now, m);
  }

  lemma ConfirmFace(c: Config, s: State, now: int, position: nat, accepts: bool)
    ensures var g := FaceOf(ConfirmPosition(c, s, now, position, accepts));
            g.sides == s.sides && g.lastRequested == s.lastRequestedPosition
    ensures CanConfirm(c, s, position) && accepts ==> FaceOf(ConfirmPosition(c, s, now, position, accepts)).requested.None?
  {
    hide Emit, Fail, MarkEvidence, CanConfirm;
    FailFace(s, WriteRejected, NotApplicable);
    var t := s.(sent := s.sent + [PositionCommand(position)], requestedPosition := None, phase := Running);
    MarkFace(c, t, now);
    EmitFace(MarkEvidence(c, t, now));
  }

  lemma StepStaysStarted(c: Config, s: State, i: Input, now: int)
    requires Inv(c, s) && !Terminal(s.phase) && s.started && (i.TimerIn? ==> i.slot in s.timers)
    ensures Step(c, s, i, now).started
  {
    hide Step, Inv;
    OpenIsUnjudged(c, s);
    StepSays(c, s, i, now);
    if i.StartCall? {
      NothingToStart(c, s, now, i.accepts);
      StartIsStep(c, s, i.accepts, now);
    }
  }

  lemma StartIsStep(c: Config, s: State, accepts: bool, now: int)
    ensures Step(c, s, StartCall(accepts), now) == Start(c, s, now, accepts)
  {
    hide Start;
  }

  lemma {:induction false} PositionsRun(c: Config, s: State, before: seq<Timed>, es: seq<Timed>)
    requires Inv(c, s) && s.started && InteractiveAccel(c) && AllowedRun(c, s, es) && !Terminal(After(c, s, es).phase)
    requires PositionsShown(FaceOf(s), Positions(before))
    ensures PositionsShown(FaceOf(After(c, s, es)), Positions(before + es))
    decreases |es|
  {
    hide Inv, Step, PositionsShown, FaceOf, Positions, SidesHeld;
    if es == [] {
      assert before + es == before;
    } else {
      StaysOpen(c, s, es);
      var i, now := es[0].input, es[0].now;
      var t := Step(c, s, i, now);
      StepKeeps(c, s, i, now);
      StepStaysStarted(c, s, i, now);
      PositionsSnoc(before, es[0]);
      if i.PositionIn? && i.message.Hold? && IsPosition(i.message.position) {
        PositionFace(c, s, now, i.message.position);
        StepIsPosition(c, s, i, now);
        HoldShows(s, FaceOf(t), Positions(before), i.message.position);
      } else {
        OthersHoldNothing(c, s, i, now);
        SameShown(FaceOf(s), FaceOf(t), Positions(before), s);
        assert Positions(before) + [] == Positions(before);
      }
      PositionsRun(c, t, before + [es[0]], es[1..]);
      assert before + [es[0]] + es[1..] == before + es;
    }
  }

  lemma StepIsPosition(c: Config, s: State, i: Input, now: int)
    requires i.PositionIn?
    ensures Step(c, s, i, now) == PositionRequest(c, s, now, i.message)
  {
    hide PositionRequest;
  }

  lemma SameShown(f: Face, g: Face, ps: seq<nat>, s: State)
    requires (forall i :: 0 <= i < |ps| ==> IsPosition(ps[i])) && PositionsShown(f, ps) && f == FaceOf(s)
    requires g.sides == s.sides && g.lastRequested == s.lastRequestedPosition
    ensures PositionsShown(g, ps)
  {
    hide SideOf;
  }

  lemma PositionsSnoc(es: seq<Timed>, e: Timed)
    ensures Positions(es + [e])
            == Positions(es)
               + if e.input.PositionIn? && e.input.message.Hold? && IsPosition(e.input.message.position) then
                   [e.input.message.position] else []
  {
    assert (es + [e])[..|es|] == es;
  }

  /** In every interactive accelerometer session that is still open, whatever was confirmed, acknowledged or timed in between:
      the side asked for last is active, every side asked for before is done, and the others wait. */
  lemma PositionsAreTold(c: Config, now: int, es: seq<Timed>)
    requires InteractiveAccel(c)
    requires var s := Start(c, FRESH, now, true); AllowedRun(c, s, es) && !Terminal(After(c, s, es).phase)
    ensures PositionsShown(FaceOf(After(c, Start(c, FRESH, now, true), es)), Positions(es))
  {
    hide Inv, Start, AllSides, After, AllowedRun;
    FreshIsSafe(c);
    StartKeeps(c, FRESH, now, true);
    OpenIsUnjudged(c, FRESH);
    StartSays(c, FRESH, now, true);
    StartFace(c, FRESH, now, true);
    AllSidesThere(PendingSide);
    PositionsRun(c, Start(c, FRESH, now, true), [], es);
    assert [] + es == es;
  }

  // ---------------------------------------------------------------------------------------------------
  // Compasses
  // ---------------------------------------------------------------------------------------------------

  function MaskAfter(s: State, id: nat, mask: nat): nat {
    if s.expectedMagMask.Some? then s.expectedMagMask.value else if mask > 0 then mask else PowerOfTwo(id % 32)
  }

  /** Progress of a compass: its percentage, status and attempt are taken over and its report is kept; the first message
      of all sets the mask. No other compass is touched. */
  lemma ProgressRecorded(c: Config, s: State, id: nat, mask: nat, status: nat, attempt: nat, pct: nat, now: int)
    requires Unjudged(s) && MagFlow(c)
    ensures var t := MagProgress(c, s, now, id, mask, status, attempt, pct);
            && t.compasses == s.compasses[id := Compass(pct, status, attempt, if id in s.compasses then s.compasses[id].report else None)]
            && t.expectedMagMask == Some(MaskAfter(s, id, mask))
  {
    hide MagProgress, UpdateMagProgress, Emit, Fail, MarkProgressDirty, Recorded, LeaveStarting, PowerOfTwo;
    MagProgressUnfolds(c, s, now, id, mask, status, attempt, pct);
    var k := ProgressOf(s, id, status, attempt, pct);
    var t := Recorded(c, s, now, mask, id, k);
    RecordGist(c, s, now, mask, id, k);
    FailGist(t, MagFailed(status), Verified);
    LeaveGist(t);
    MeanGist(LeaveStarting(t));
    EmitGist(UpdateMagProgress(LeaveStarting(t)));
    DirtyGist(UpdateMagProgress(LeaveStarting(t)), now);
  }

  /** The report of a compass: its status and whether it was saved are taken over; a compass not heard of before counts as
      complete. No other compass is touched. */
  lemma ReportRecorded(c: Config, s: State, id: nat, mask: nat, status: nat, autosaved: bool, now: int)
    requires Unjudged(s) && MagFlow(c)
    ensures var t, known := MagReport(c, s, now, id, mask, status, autosaved), id in s.compasses;
            && t.compasses == s.compasses[id := Compass(if known then s.compasses[id].pct else 100, status,
                                                        if known then s.compasses[id].attempt else 0, Some(Report(status, autosaved)))]
            && t.expectedMagMask == Some(MaskAfter(s, id, mask))
  {
    hide MagReport, UpdateMagProgress, Emit, Fail, Recorded, AllAutosaved, AllSucceeded, Saved, PowerOfTwo;
    MagReportUnfolds(c, s, now, id, mask, status, autosaved);
    var k := ReportOf(s, id, status, autosaved);
    var t := Recorded(c, s, now, mask, id, k);
    RecordGist(c, s, now, mask, id, k);
    FailGist(t, MagFailed(status), Verified);
    MeanGist(t);
    SavedGist(UpdateMagProgress(t));
    EmitGist(UpdateMagProgress(t));
    AwaitGist(UpdateMagProgress(t));
  }

  /** A session is ready to be accepted exactly when a report that neither fails nor completes a saving finds every compass
      the mask names among the first eight reported as successful. */
  lemma ReadyExactly(c: Config, s: State, id: nat, mask: nat, status: nat, autosaved: bool, now: int)
    requires Unjudged(s) && MagFlow(c) && status < MAG_FAILED && !s.magAcceptPending && !s.phase.AwaitingAccept?
    ensures var t := MagReport(c, s, now, id, mask, status, autosaved);
            t.phase.AwaitingAccept?
            <==> AllExpected(MaskOf(t), t.compasses, (k: Compass) => k.report.Some? && k.report.value.status == 4)
  {
    hide MagReport, UpdateMagProgress, Emit, Fail, Recorded, AllExpected, Saved, PowerOfTwo;
    MagReportUnfolds(c, s, now, id, mask, status, autosaved);
    var k := ReportOf(s, id, status, autosaved);
    var t := Recorded(c, s, now, mask, id, k);
    RecordGist(c, s, now, mask, id, k);
    MeanGist(t);
    EmitGist(UpdateMagProgress(t));
    AwaitGist(UpdateMagProgress(t));
  }

  lemma {:induction false} SumBetween(s: State, n: nat, lo: nat, hi: nat)
    requires forall k: nat :: k < n && Bit(MaskOf(s), k) ==> lo <= PercentAt(s, k) <= hi
    ensures lo * CompassCount(MaskOf(s), n) <= PercentSum(s, n) <= hi * CompassCount(MaskOf(s), n)
  {
    hide Bit, MaskOf, PercentAt;
    if n > 0 {
      SumBetween(s, n - 1, lo, hi);
      var k := CompassCount(MaskOf(s), n - 1);
      assert lo * (k + 1) == lo * k + lo && hi * (k + 1) == hi * k + hi;
    }
  }

  lemma {:induction false} CountPositive(mask: nat, n: nat, k: nat)
    requires k < n && Bit(mask, k)
    ensures CompassCount(mask, n) > 0
  {
    hide Bit;
    if k < n - 1 {
      CountPositive(mask, n - 1, k);
    }
  }

  /** The percentage shown lies between the least and the greatest of the expected compasses among the first eight, a
      compass nobody has heard of counting as zero. */
  lemma MeanIsBetween(s: State, lo: nat, hi: nat, k: nat)
    requires k < 8 && Bit(MaskOf(s), k)
    requires forall j: nat :: j < 8 && Bit(MaskOf(s), j) ==> lo <= PercentAt(s, j) <= hi
    ensures var p := UpdateMagProgress(s).progress; p.Some? && lo <= p.value <= hi
  {
    hide Bit, MaskOf, PercentAt, CompassCount, PercentSum;
    SumBetween(s, 8, lo, hi);
    CountPositive(MaskOf(s), 8, k);
    var n, sum := CompassCount(MaskOf(s), 8), PercentSum(s, 8);
    MeanBounds(sum, n, lo, hi);
  }

  lemma MeanBounds(sum: nat, n: nat, lo: nat, hi: nat)
    requires n > 0 && lo * n <= sum <= hi * n
    ensures lo <= (2 * sum + n) / (2 * n) <= hi
  {
    var q := (2 * sum + n) / (2 * n);
    var d := 2 * n;
    assert d * q <= 2 * sum + n < d * (q + 1) by { QuotientBounds(2 * sum + n, d); }
    assert d * lo == 2 * (lo * n) && d * hi == 2 * (hi * n);
    SmallerFactor(d, lo, q);
    SmallerFactor(d, q, hi);
  }

  lemma QuotientBounds(a: nat, d: nat)
    requires d > 0
    ensures d * (a / d) <= a < d * (a / d + 1)
  {
  }

  /** Less than one more multiple means at most as many. */
  lemma SmallerFactor(d: nat, a: nat, b: nat)
    requires d > 0 && d * a < d * (b + 1)
    ensures a <= b
  {
    FactorOrder(d, a, b + 1);
  }

  lemma FactorOrder(d: nat, a: nat, b: nat)
    requires d * a < d * b
    ensures a < b
  {
    assert d * (b - a) > 0;
  }
}
