/** How an autotune session ends, what every input makes of an open one, and when tuned gains count as saved. */
module AutotuneOutcomes {
  import opened Bytes
  import opened AutotuneRules

  predicate Finished(s: State) {
    s.phase.Completed? || s.phase.Testing?
  }

  predicate Underway(s: State) {
    s.phase.Starting? || s.phase.Tuning? || s.phase.Paused?
  }

  /** The mode that ends the gain test's first half has been reached. */
  predicate BackAtStart(c: Config, s: State, mode: nat) {
    !c.px4 && s.testModeTransition && mode == c.initialModeId
  }

  // ---------------------------------------------------------------------------------------------------
  // Endings
  // ---------------------------------------------------------------------------------------------------

  /** How a vehicle status ends an open session: a disarm before PX4 is done or without gains to save, a discard that has
      left AutoTune mode, a tune that has left it, or a refusing link. */
  function StatusDecides(c: Config, s: State, armed: bool, mode: nat, accepts: bool): Option<Phase> {
    if c.px4 then
      if !armed && (s.progress.None? || s.progress.value < 100) then Some(Interrupted) else None
    else if BackAtStart(c, s, mode) then
      if accepts then None else Some(Failed)
    else if !armed then
      if Finished(s) && mode == 15 then None else Some(Interrupted)
    else if mode == 15 then None
    else if Discarding(s) then Some(Discarded)
    else if Underway(s) then Some(Interrupted) else None
  }

  function LineDecides(c: Config, s: State, l: Line): Option<Phase> {
    if c.px4 then None
    else match l
      case SavedGains => Some(Saved)
      case FailedLine => Some(Failed)
      case StoppedLine => Some(if Discarding(s) then Discarded else Interrupted)
      case OriginalRestored => if Discarding(s) then Some(Discarded) else None
      case _ => None
  }

  function AckDecides(c: Config, s: State, r: AckResult): Option<Phase> {
    if !c.px4 then None
    else match r
      case AckAccepted => Some(Completed)
      case AckRefused => Some(Failed)
      case AckInProgress(p) =>
        if p.None? then None
        else if p.value == 0 && s.progress.Some? && s.progress.value > 0 then Some(Interrupted)
        else if p.value >= 100 then Some(Completed) else None
  }

  function TimerDecides(s: State, slot: Slot, accepts: bool): Option<Phase>
    requires slot in s.timers
  {
    match slot
    case OverallSlot => Some(Failed)
    case SaveSlot => Some(Interrupted)
    case PollSlot => if accepts then None else Some(Failed)
    case ActionSlot =>
      if s.timers[slot].epoch == s.actionEpoch && s.actionPending.Some? && (s.actionResends >= 2 || !accepts) then Some(Failed) else None
  }

  /** The phase in which an input ends an open session, if it does. */
  function Decides(c: Config, s: State, i: Input): Option<Phase>
    requires i.TimerIn? ==> i.slot in s.timers
  {
    match i
    case StartCall(accepts) => if s.started || accepts then None else Some(Failed)
    case TerminateCall => Some(Interrupted)
    case OwnerChanged => None
    case AckIn(r) => AckDecides(c, s, r)
    case TextIn(l) => LineDecides(c, s, l)
    case StatusIn(armed, mode, accepts) => StatusDecides(c, s, armed, mode, accepts)
    case ActionCall(_, _) => None
    case TimerIn(slot, accepts) => TimerDecides(s, slot, accepts)
  }

  /** Ended in that phase, with the claim that goes with it and no timer left; or still open. */
  predicate Concludes(c: Config, s: State, t: State, d: Option<Phase>) {
    match d
    case None => !Terminal(c, t.phase)
    case Some(p) =>
      && t.phase == p && Terminal(c, p) && t.timers == map[]
      && t.verification == (if p.Saved? then ParametersSaved else if p.Completed? then FirmwareCompleted else s.verification)
  }

  // ---------------------------------------------------------------------------------------------------
  // What an open session becomes
  // ---------------------------------------------------------------------------------------------------

  function ProgressPhase(percent: nat): Phase {
    if percent < 20 then Starting else if percent < 85 then Tuning else if percent < 90 then Applying
    else if percent < 95 then Verifying else AwaitingDisarm
  }

  /** The phase after an input that leaves the session open. */
  function PhaseAfter(c: Config, s: State, i: Input): Phase {
    match i
    case StartCall(_) => if s.started then s.phase else Starting
    case AckIn(r) => if c.px4 && r.AckInProgress? && r.progress.Some? then ProgressPhase(r.progress.value) else s.phase
    case TextIn(l) =>
      if c.px4 then s.phase
      else (match l
            case StartedLine => Tuning
            case PausedLine => Paused
            case SuccessLine => Completed
            case TestingLine => Testing
            case OriginalRestored => Completed
            case _ => s.phase)
    case StatusIn(armed, mode, _) =>
      if c.px4 || BackAtStart(c, s, mode) then s.phase
      else if !armed then SavePending
      else if mode == 15 && s.phase.Starting? then Tuning else s.phase
    case _ => s.phase
  }

  function ClaimAfter(c: Config, s: State, i: Input): Verification {
    if !c.px4 && i.TextIn? && (i.line.SuccessLine? || i.line.TestingLine? || i.line.OriginalRestored?) then FirmwareCompleted
    else s.verification
  }

  /** The action that waits after an input that leaves the session open: an allowed one begins to wait if the link takes
      its command, and only a success or a test line ends the wait. */
  function WaitingAfter(c: Config, s: State, i: Input): Option<Action> {
    match i
    case ActionCall(a, accepts) => if ActionAllowed(c, s, a) then (if accepts then Some(a) else None) else s.actionPending
    case TextIn(l) => if !c.px4 && (l.SuccessLine? || l.TestingLine?) then None else s.actionPending
    case _ => s.actionPending
  }

  /** A gain test waits for the original mode until that is reported, or a line says that it is under way. */
  predicate TransitionAfter(c: Config, s: State, i: Input) {
    match i
    case ActionCall(a, accepts) => if ActionAllowed(c, s, a) then a.TestGains? && accepts else s.testModeTransition
    case TextIn(l) => s.testModeTransition && (c.px4 || !l.TestingLine?)
    case StatusIn(_, mode, _) => s.testModeTransition && !BackAtStart(c, s, mode)
    case _ => s.testModeTransition
  }

  /** What an input makes the session send: the first command and its polls, an action's mode once per transmission, and
      AutoTune mode again once the original mode is reached for a gain test. */
  function Sends(c: Config, s: State, i: Input): seq<Sent>
    requires i.TimerIn? ==> i.slot in s.timers
  {
    match i
    case StartCall(accepts) => if s.started || !accepts then [] else [if c.px4 then PollCommand else SetMode(15)]
    case ActionCall(a, accepts) => if ActionAllowed(c, s, a) && accepts then [SetMode(c.initialModeId)] else []
    case StatusIn(_, mode, accepts) => if BackAtStart(c, s, mode) && accepts then [SetMode(15)] else []
    case TimerIn(slot, accepts) =>
      if slot.PollSlot? && accepts then [PollCommand]
      else if slot.ActionSlot? && accepts && s.timers[slot].epoch == s.actionEpoch && s.actionPending.Some? && s.actionResends < 2
      then [SetMode(c.initialModeId)] else []
    case _ => []
  }

  /** The due times of the timers after an input that leaves the session open. */
  function DueAfter(c: Config, s: State, i: Input, now: int): map<Slot, int>
    requires i.TimerIn? ==> i.slot in s.timers
  {
    var due := Dues(s);
    match i
    case StartCall(_) =>
      if s.started then due
      else if c.px4 then due[OverallSlot := now + 900000][PollSlot := now + 1000] else due[OverallSlot := now + 1800000]
    case ActionCall(a, accepts) =>
      if !ActionAllowed(c, s, a) then due else if accepts then due[ActionSlot := now + 3000] else due - {ActionSlot}
    case TextIn(l) => if !c.px4 && (l.SuccessLine? || l.TestingLine?) then due - {ActionSlot} else due
    case StatusIn(armed, mode, _) => if c.px4 || armed || BackAtStart(c, s, mode) then due else due[SaveSlot := now + 15000]
    case TimerIn(slot, _) =>
      if slot.PollSlot? then due[slot := now + 1000]
      else if slot.ActionSlot? && s.timers[slot].epoch == s.actionEpoch && s.actionPending.Some? then due[slot := now + 3000]
      else due - {slot}
    case _ => due
  }

  function Dues(s: State): map<Slot, int> {
    map slot | slot in s.timers :: s.timers[slot].due
  }

  /** What an input makes of an open session that it does not end. */
  predicate Continues(c: Config, s: State, t: State, i: Input, now: int)
    requires i.TimerIn? ==> i.slot in s.timers
  {
    && t.phase == PhaseAfter(c, s, i) && t.verification == ClaimAfter(c, s, i)
    && t.actionPending == WaitingAfter(c, s, i) && (t.testModeTransition <==> TransitionAfter(c, s, i))
    && Dues(t) == DueAfter(c, s, i, now)
  }

  /** The whole effect of an input on an open session. */
  predicate Meant(c: Config, s: State, t: State, i: Input, now: int)
    requires i.TimerIn? ==> i.slot in s.timers
  {
    && Concludes(c, s, t, Decides(c, s, i)) && t.sent == s.sent + Sends(c, s, i)
    && (Decides(c, s, i).None? ==> Continues(c, s, t, i, now))
  }

  lemma StartMeans(c: Config, s: State, now: int, accepts: bool)
    requires !Terminal(c, s.phase)
    ensures Meant(c, s, Start(c, s, now, accepts), StartCall(accepts), now)
  {
  }

  lemma AckMeans(c: Config, s: State, r: AckResult, now: int)
    requires !Terminal(c, s.phase)
    ensures Meant(c, s, CommandAck(c, s, r), AckIn(r), now)
  {
  }

  lemma LineEndsIt(c: Config, s: State, l: Line, now: int)
    requires !Terminal(c, s.phase) && LineDecides(c, s, l).Some?
    ensures Meant(c, s, Statustext(c, s, l), TextIn(l), now)
  {
  }

  lemma LineClearsLocks(c: Config, s: State, l: Line, now: int)
    requires !Terminal(c, s.phase) && !c.px4 && (l.SuccessLine? || l.TestingLine?)
    ensures Meant(c, s, Statustext(c, s, l), TextIn(l), now)
  {
  }

  lemma LineGoesOn(c: Config, s: State, l: Line, now: int)
    requires !Terminal(c, s.phase) && LineDecides(c, s, l).None? && (c.px4 || !(l.SuccessLine? || l.TestingLine?))
    ensures Meant(c, s, Statustext(c, s, l), TextIn(l), now)
  {
  }

  lemma LineMeans(c: Config, s: State, l: Line, now: int)
    requires !Terminal(c, s.phase)
    ensures Meant(c, s, Statustext(c, s, l), TextIn(l), now)
  {
    hide Meant, Statustext;
    if LineDecides(c, s, l).Some? {
      LineEndsIt(c, s, l, now);
    } else if !c.px4 && (l.SuccessLine? || l.TestingLine?) {
      LineClearsLocks(c, s, l, now);
    } else {
      LineGoesOn(c, s, l, now);
    }
  }

  lemma StatusForPx4(c: Config, s: State, now: int, armed: bool, mode: nat, accepts: bool)
    requires !Terminal(c, s.phase) && c.px4
    ensures Meant(c, s, VehicleStatus(c, s, now, armed, mode, accepts), StatusIn(armed, mode, accepts), now)
  {
  }

  lemma StatusBackAtStart(c: Config, s: State, now: int, armed: bool, mode: nat, accepts: bool)
    requires !Terminal(c, s.phase) && BackAtStart(c, s, mode)
    ensures Meant(c, s, VehicleStatus(c, s, now, armed, mode, accepts), StatusIn(armed, mode, accepts), now)
  {
  }

  lemma StatusDisarmed(c: Config, s: State, now: int, mode: nat, accepts: bool)
    requires !Terminal(c, s.phase) && !c.px4 && !BackAtStart(c, s, mode)
    ensures Meant(c, s, VehicleStatus(c, s, now, false, mode, accepts), StatusIn(false, mode, accepts), now)
  {
  }

  lemma StatusArmed(c: Config, s: State, now: int, mode: nat, accepts: bool)
    requires !Terminal(c, s.phase) && !c.px4 && !BackAtStart(c, s, mode)
    ensures Meant(c, s, VehicleStatus(c, s, now, true, mode, accepts), StatusIn(true, mode, accepts), now)
  {
  }

  lemma StatusMeans(c: Config, s: State, now: int, armed: bool, mode: nat, accepts: bool)
    requires !Terminal(c, s.phase)
    ensures Meant(c, s, VehicleStatus(c, s, now, armed, mode, accepts), StatusIn(armed, mode, accepts), now)
  {
    hide VehicleStatus, Meant, BackAtStart;
    if c.px4 {
      StatusForPx4(c, s, now, armed, mode, accepts);
    } else if BackAtStart(c, s, mode) {
      StatusBackAtStart(c, s, now, armed, mode, accepts);
    } else if armed {
      StatusArmed(c, s, now, mode, accepts);
    } else {
      StatusDisarmed(c, s, now, mode, accepts);
    }
  }

  lemma ActionMeans(c: Config, s: State, now: int, a: Action, accepts: bool)
    requires !Terminal(c, s.phase)
    ensures Meant(c, s, BeginAction(c, s, now, a, accepts), ActionCall(a, accepts), now)
  {
  }

  lemma TimerMeans(c: Config, s: State, slot: Slot, now: int, accepts: bool)
    requires !Terminal(c, s.phase) && slot in s.timers
    ensures Meant(c, s, TimerFires(c, s, slot, now, accepts), TimerIn(slot, accepts), now)
  {
  }

  /** Any input to an open session. */
  lemma StepMeans(c: Config, s: State, i: Input, now: int)
    requires !Terminal(c, s.phase) && (i.TimerIn? ==> i.slot in s.timers)
    ensures Meant(c, s, Step(c, s, i, now), i, now)
  {
    hide Start, CommandAck, Statustext, VehicleStatus, BeginAction, TimerFires, Meant;
    match i {
      case StartCall(accepts) => StartMeans(c, s, now, accepts);
      case AckIn(r) => AckMeans(c, s, r, now);
      case TextIn(l) => LineMeans(c, s, l, now);
      case StatusIn(armed, mode, accepts) => StatusMeans(c, s, now, armed, mode, accepts);
      case ActionCall(a, accepts) => ActionMeans(c, s, now, a, accepts);
      case TimerIn(slot, accepts) => TimerMeans(c, s, slot, now, accepts);
      case _ => OtherCallsMean(c, s, now);
    }
  }

  lemma OtherCallsMean(c: Config, s: State, now: int)
    requires !Terminal(c, s.phase)
    ensures Meant(c, s, EndWith(c, s, Interrupted), TerminateCall, now) && Meant(c, s, Emit(s), OwnerChanged, now)
  {
  }

  // ---------------------------------------------------------------------------------------------------
  // Whole sessions
  // ---------------------------------------------------------------------------------------------------

  /** The state in which event `i` finds the session. */
  ghost function At(c: Config, s: State, es: seq<Timed>, i: nat): State
    requires AllowedRun(c, s, es) && i <= |es|
    decreases |es|
  {
    if i == 0 then s else At(c, Step(c, s, es[0].input, es[0].now), es[1..], i - 1)
  }

  function DecidedBy(c: Config, s: State, i: Input): Option<Phase> {
    if i.TimerIn? && i.slot !in s.timers then None else Decides(c, s, i)
  }

  /** Event `i` finds the session open and ends it. */
  ghost predicate Decided(c: Config, s: State, es: seq<Timed>, i: nat)
    requires AllowedRun(c, s, es)
  {
    i < |es| && !Terminal(c, At(c, s, es, i).phase) && DecidedBy(c, At(c, s, es, i), es[i].input).Some?
  }

  lemma NextDecided(c: Config, s: State, es: seq<Timed>, i: nat)
    requires AllowedRun(c, s, es) && es != []
    ensures Decided(c, s, es, i + 1) <==> Decided(c, Step(c, s, es[0].input, es[0].now), es[1..], i)
    ensures Decided(c, s, es, 0) <==> !Terminal(c, s.phase) && Decides(c, s, es[0].input).Some?
    ensures At(c, s, es, 0) == s && (i < |es[1..]| ==> At(c, s, es, i + 1) == At(c, Step(c, s, es[0].input, es[0].now), es[1..], i))
  {
    hide Step, Decides;
  }

  lemma {:induction false} EndedStays(c: Config, s: State, es: seq<Timed>)
    requires Inv(c, s) && Terminal(c, s.phase) && AllowedRun(c, s, es)
    ensures After(c, s, es).phase == s.phase && forall i: nat :: !Decided(c, s, es, i)
    decreases |es|
  {
    hide Inv, Step, DecidedBy;
    if es != [] {
      StepKeeps(c, s, es[0].input, es[0].now);
      EndIsFinal(c, s, es[0].input, es[0].now);
      EndedStays(c, Step(c, s, es[0].input, es[0].now), es[1..]);
      NextDecided(c, s, es, 0);
      forall i: nat | i > 0 ensures !Decided(c, s, es, i) {
        NextDecided(c, s, es, i - 1);
      }
    }
  }

  /** In every session: it has ended if and only if some event that found it open decides its end, and then in the phase
      that event decides. */
  lemma {:induction false} EndsExactly(c: Config, s: State, es: seq<Timed>)
    requires Inv(c, s) && !Terminal(c, s.phase) && AllowedRun(c, s, es)
    ensures Terminal(c, After(c, s, es).phase) <==> exists i: nat :: Decided(c, s, es, i)
    ensures forall i: nat :: Decided(c, s, es, i) ==> Some(After(c, s, es).phase) == DecidedBy(c, At(c, s, es, i), es[i].input)
    decreases |es|
  {
    hide Inv, Step, Decides, Continues;
    if es != [] {
      var t, later := Step(c, s, es[0].input, es[0].now), es[1..];
      StepKeeps(c, s, es[0].input, es[0].now);
      StepMeans(c, s, es[0].input, es[0].now);
      NextDecided(c, s, es, 0);
      forall i: nat ensures Decided(c, s, es, i + 1) <==> Decided(c, t, later, i) {
        NextDecided(c, s, es, i);
      }
      if Terminal(c, t.phase) {
        EndedStays(c, t, later);
        assert Decided(c, s, es, 0);
        forall i: nat | Decided(c, s, es, i) ensures i == 0 {
          if i > 0 {
            NextDecided(c, s, es, i - 1);
          }
        }
      } else {
        EndsExactly(c, t, later);
        forall i: nat | Decided(c, s, es, i) ensures Some(After(c, s, es).phase) == DecidedBy(c, At(c, s, es, i), es[i].input) {
          NextDecided(c, s, es, i - 1);
        }
        if i: nat :| Decided(c, t, later, i) {
          assert Decided(c, s, es, i + 1);
        }
        if i: nat :| Decided(c, s, es, i) {
          NextDecided(c, s, es, i - 1);
        }
      }
    }
  }

  // ---------------------------------------------------------------------------------------------------
  // Saving
  // ---------------------------------------------------------------------------------------------------

  /** In an open ArduPilot session with no mode change to make, a status opens the save window if and only if the vehicle
      disarms in AutoTune mode with a finished tune. */
  lemma SaveWindowOpensExactly(c: Config, s: State, now: int, armed: bool, mode: nat, accepts: bool)
    requires !c.px4 && !Terminal(c, s.phase) && !s.phase.SavePending? && !BackAtStart(c, s, mode)
    ensures VehicleStatus(c, s, now, armed, mode, accepts).phase.SavePending? <==> !armed && mode == 15 && Finished(s)
    ensures !armed && mode == 15 && Finished(s) ==> Dues(VehicleStatus(c, s, now, armed, mode, accepts)) == Dues(s)[SaveSlot := now + 15000]
  {
    StatusMeans(c, s, now, armed, mode, accepts);
  }

  /** A tune, its success, the disarm, and the firmware's word that the gains are saved. */
  function SavedTune(modeAtDisarm: nat): seq<Timed> {
    [Timed(StartCall(true), 0), Timed(TextIn(SuccessLine), 0), Timed(StatusIn(false, modeAtDisarm, true), 0), Timed(TextIn(SavedGains), 0)]
  }

  /** Such a session ends as saved if and only if the vehicle was in AutoTune mode when it disarmed. */
  lemma TuneIsSaved(c: Config, mode: nat)
    requires !c.px4
    ensures var es := SavedTune(mode);
            && AllowedRun(c, FRESH, es)
            && if mode == 15 then After(c, FRESH, es).phase.Saved? && After(c, FRESH, es).verification.ParametersSaved?
               else After(c, FRESH, es).phase.Interrupted?
  {
    var es := SavedTune(mode);
    var s1 := Start(c, FRESH, 0, true);
    var s2 := Statustext(c, s1, SuccessLine);
    var s3 := VehicleStatus(c, s2, 0, false, mode, true);
    var s4 := Statustext(c, s3, SavedGains);
    TuneStarts(c);
    Succeeds(c, s1);
    Disarms(c, s2, mode);
    GainsSaved(c, s3);
    hide Start, Statustext, VehicleStatus, Inv;
    assert AllowedRun(c, s4, []);
    assert AllowedRun(c, s3, es[3..]) && After(c, s3, es[3..]) == s4 by { assert es[3..][1..] == []; }
    assert AllowedRun(c, s2, es[2..]) && After(c, s2, es[2..]) == s4 by { assert es[2..][1..] == es[3..]; }
    assert AllowedRun(c, s1, es[1..]) && After(c, s1, es[1..]) == s4 by { assert es[1..][1..] == es[2..]; }
  }

  lemma Disarms(c: Config, s: State, mode: nat)
    requires !c.px4 && s.phase.Completed? && !s.testModeTransition && OnTime(s, 0)
    ensures var t := VehicleStatus(c, s, 0, false, mode, true);
            OnTime(t, 0) && t.phase == if mode == 15 then SavePending else Interrupted
  {
  }

  lemma GainsSaved(c: Config, s: State)
    requires !c.px4
    ensures var t := Statustext(c, s, SavedGains);
            if Terminal(c, s.phase) then t == s else t.phase.Saved? && t.verification.ParametersSaved?
  {
  }

  /** The window lasts only until the next status: one more report of the disarmed vehicle before the firmware's word ends
      the session as interrupted, and the word comes too late. */
  lemma SecondStatusLosesTheSave(c: Config, s: State, now: int, mode: nat, accepts: bool)
    requires !c.px4 && s.phase.SavePending? && !BackAtStart(c, s, mode)
    ensures var t := VehicleStatus(c, s, now, false, mode, accepts);
            t.phase.Interrupted? && Statustext(c, t, SavedGains) == t
  {
    StatusMeans(c, s, now, false, mode, accepts);
  }
}
