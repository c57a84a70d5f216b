/** In-flight autotune: what every protocol input, user action and timer does to the session. */
module AutotuneRules {
  import opened Bytes

  const ARDUCOPTER_AUTOTUNE_MODE := 15
  const AUTOTUNE_POLL_INTERVAL_MS := 1000
  const PX4_AUTOTUNE_TIMEOUT_MS := 900000
  const ARDUPILOT_AUTOTUNE_TIMEOUT_MS := 1800000
  const ARDUPILOT_SAVE_TIMEOUT_MS := 15000
  const ACTION_TIMEOUT_MS := 3000
  const ACTION_MAX_RESENDS := 2

  datatype Config = Config(px4: bool, initialModeId: nat)

  datatype Phase = Starting | Tuning | Paused | Completed | Testing | SavePending | Saved | Discarded | Failed | Interrupted
                 | AwaitingDisarm | Applying | Verifying
  datatype Verification = NotApplicable | FirmwareCompleted | ParametersSaved
  datatype Action = Abort | TestGains | RestoreGains
  datatype Slot = PollSlot | OverallSlot | SaveSlot | ActionSlot
  datatype Timer = Timer(due: int, epoch: nat)
  datatype Sent = PollCommand | SetMode(mode: nat)
  datatype Snapshot = Snapshot(seqNo: nat, phase: Phase, verification: Verification)

  /** An `AutoTune:` line, by the first pattern it matches. */
  datatype Line = StartedLine | PausedLine | SuccessLine | TestingLine | OriginalRestored | SavedGains | FailedLine
                | StoppedLine | OtherLine

  /** `startedAt`, `actionAt` and `actionSends` are history; no decision reads them. */
  datatype State = State(started: bool, seqNo: nat, phase: Phase, verification: Verification, progress: Option<nat>,
                         actionPending: Option<Action>, testModeTransition: bool, actionEpoch: nat, actionResends: nat,
                         timers: map<Slot, Timer>, snapshots: seq<Snapshot>, sent: seq<Sent>,
                         startedAt: int, actionAt: int, actionSends: nat)

  const FRESH := State(false, 0, Starting, NotApplicable, None, None, false, 0, 0, map[], [], [], 0, 0, 0)

  predicate Terminal(c: Config, p: Phase) {
    p == Saved || p == Discarded || p == Failed || p == Interrupted || (c.px4 && p == Completed)
  }

  function OverallTimeoutMs(c: Config): nat {
    if c.px4 then PX4_AUTOTUNE_TIMEOUT_MS else ARDUPILOT_AUTOTUNE_TIMEOUT_MS
  }

  function Emit(s: State): State {
    s.(seqNo := s.seqNo + 1, snapshots := s.snapshots + [Snapshot(s.seqNo + 1, s.phase, s.verification)])
  }

  function Finish(s: State, p: Phase, v: Verification): State {
    Emit(s.(phase := p, verification := v, timers := map[]))
  }

  /** End with `p` unless the session has ended already. */
  function EndWith(c: Config, s: State, p: Phase): State {
    if Terminal(c, s.phase) then s else Finish(s, p, s.verification)
  }

  function Arm(s: State, slot: Slot, due: int): State {
    s.(timers := s.timers[slot := Timer(due, s.actionEpoch)])
  }

  function Start(c: Config, s: State, now: int, accepts: bool): State {
    if s.started || Terminal(c, s.phase) then s
    else
      var s1 := Emit(s.(started := true, startedAt := now, phase := Starting));
      if !accepts then EndWith(c, s1, Failed)
      else
        var s2 := Arm(s1.(sent := s1.sent + [if c.px4 then PollCommand else SetMode(ARDUCOPTER_AUTOTUNE_MODE)]),
                      OverallSlot, now + OverallTimeoutMs(c));
        if c.px4 then Arm(s2, PollSlot, now + AUTOTUNE_POLL_INTERVAL_MS) else s2
  }

  /** PX4 reports progress in ACKs; a fall back to zero means it has started over. */
  function ApplyProgress(c: Config, s: State, raw: nat): State {
    var next := if raw > 100 then 100 else raw;
    if s.progress.Some? && s.progress.value > 0 && next == 0 then EndWith(c, s, Interrupted)
    else
      var s1 := s.(progress := Some(next));
      if next >= 100 then Finish(s1, Completed, FirmwareCompleted)
      else
        Emit(s1.(phase := if next >= 95 then AwaitingDisarm else if next >= 90 then Verifying else if next >= 85 then Applying
                          else if next >= 20 then Tuning else Starting))
  }

  datatype AckResult = AckInProgress(progress: Option<nat>) | AckAccepted | AckRefused

  function CommandAck(c: Config, s: State, r: AckResult): State {
    if Terminal(c, s.phase) || !c.px4 then s
    else match r
      case AckInProgress(p) => if p.Some? then ApplyProgress(c, s, p.value) else s
      case AckAccepted => Finish(s.(progress := Some(100)), Completed, FirmwareCompleted)
      case AckRefused => EndWith(c, s, Failed)
  }

  function ClearActionLocks(s: State): State {
    s.(actionPending := None, testModeTransition := false, timers := s.timers - {ActionSlot})
  }

  predicate Discarding(s: State) {
    s.actionPending == Some(Abort) || s.actionPending == Some(RestoreGains)
  }

  function Statustext(c: Config, s: State, l: Line): State {
    if Terminal(c, s.phase) || c.px4 then s
    else match l
      case StartedLine => Emit(s.(phase := Tuning))
      case PausedLine => Emit(s.(phase := Paused))
      case SuccessLine =>
        Emit(s.(actionPending := None, timers := s.timers - {ActionSlot}, phase := Completed, verification := FirmwareCompleted))
      case TestingLine => Emit(ClearActionLocks(s).(phase := Testing, verification := FirmwareCompleted))
      case OriginalRestored =>
        if Discarding(s) then Finish(s, Discarded, s.verification)
        else Emit(s.(phase := Completed, verification := FirmwareCompleted))
      case SavedGains => Finish(s, Saved, ParametersSaved)
      case FailedLine => EndWith(c, s, Failed)
      case StoppedLine => if Discarding(s) then Finish(s, Discarded, s.verification) else EndWith(c, s, Interrupted)
      case OtherLine => s
  }

  function VehicleStatus(c: Config, s: State, now: int, armed: bool, mode: nat, accepts: bool): State {
    if Terminal(c, s.phase) then s
    else if c.px4 then
      if !armed && (s.progress.None? || s.progress.value < 100) then EndWith(c, s, Interrupted) else s
    else if s.testModeTransition && mode == c.initialModeId then
      var s1 := s.(testModeTransition := false);
      if accepts then s1.(sent := s1.sent + [SetMode(ARDUCOPTER_AUTOTUNE_MODE)]) else EndWith(c, s1, Failed)
    else if !armed then
      if (s.phase.Completed? || s.phase.Testing?) && mode == ARDUCOPTER_AUTOTUNE_MODE then
        Arm(Emit(s.(phase := SavePending)), SaveSlot, now + ARDUPILOT_SAVE_TIMEOUT_MS)
      else EndWith(c, s, Interrupted)
    else if mode == ARDUCOPTER_AUTOTUNE_MODE then
      if s.phase.Starting? then Emit(s.(phase := Tuning)) else s
    else if Discarding(s) then Finish(s, Discarded, s.verification)
    else if s.phase.Starting? || s.phase.Tuning? || s.phase.Paused? then EndWith(c, s, Interrupted)
    else s
  }

  predicate ActionAllowed(c: Config, s: State, a: Action) {
    && !Terminal(c, s.phase) && !c.px4 && s.actionPending.None? && !s.testModeTransition
    && match a
       case Abort => !s.phase.SavePending?
       case TestGains => s.phase.Completed?
       case RestoreGains => s.phase.Completed? || s.phase.Testing?
  }

  /** One transmission: a new epoch, and a timer that judges this transmission only. */
  function Transmitted(c: Config, s: State, now: int): State {
    Arm(s.(actionEpoch := s.actionEpoch + 1, actionSends := s.actionSends + 1, sent := s.sent + [SetMode(c.initialModeId)]),
        ActionSlot, now + ACTION_TIMEOUT_MS)
  }

  function BeginAction(c: Config, s: State, now: int, a: Action, accepts: bool): State {
    if !ActionAllowed(c, s, a) then s
    else
      var s1 := s.(actionPending := Some(a), testModeTransition := a.TestGains?, actionResends := 0, actionAt := now, actionSends := 0);
      if accepts then Transmitted(c, s1, now) else ClearActionLocks(s1.(actionEpoch := s1.actionEpoch + 1))
  }

  function ActionTimeout(c: Config, s: State, now: int, accepts: bool): State {
    if Terminal(c, s.phase) || s.actionPending.None? then s
    else if s.actionResends < ACTION_MAX_RESENDS then
      var s1 := s.(actionResends := s.actionResends + 1);
      if accepts then Transmitted(c, s1, now) else EndWith(c, s1.(actionEpoch := s1.actionEpoch + 1), Failed)
    else EndWith(c, s, Failed)
  }

  function TimerFires(c: Config, s: State, slot: Slot, now: int, accepts: bool): State
    requires slot in s.timers
  {
    var epoch, s1 := s.timers[slot].epoch, s.(timers := s.timers - {slot});
    match slot
    case OverallSlot => EndWith(c, s1, Failed)
    case SaveSlot => EndWith(c, s1, Interrupted)
    case PollSlot =>
      if Terminal(c, s1.phase) then s1
      else if accepts then Arm(s1.(sent := s1.sent + [PollCommand]), PollSlot, now + AUTOTUNE_POLL_INTERVAL_MS)
      else EndWith(c, s1, Failed)
    case ActionSlot => if epoch != s1.actionEpoch then s1 else ActionTimeout(c, s1, now, accepts)
  }

  datatype Input =
    | StartCall(accepts: bool) | TerminateCall | OwnerChanged
    | AckIn(result: AckResult) | TextIn(line: Line) | StatusIn(armed: bool, mode: nat, accepts: bool)
    | ActionCall(action: Action, accepts: bool) | TimerIn(slot: Slot, accepts: bool)

  function Step(c: Config, s: State, i: Input, now: int): State
    requires i.TimerIn? ==> i.slot in s.timers
  {
    match i
    case StartCall(accepts) => Start(c, s, now, accepts)
    case TerminateCall => EndWith(c, s, Interrupted)
    case OwnerChanged => Emit(s)
    case AckIn(r) => CommandAck(c, s, r)
    case TextIn(l) => Statustext(c, s, l)
    case StatusIn(armed, mode, accepts) => VehicleStatus(c, s, now, armed, mode, accepts)
    case ActionCall(a, accepts) => BeginAction(c, s, now, a, accepts)
    case TimerIn(slot, accepts) => TimerFires(c, s, slot, now, accepts)
  }

  // ---------------------------------------------------------------------------------------------------
  // What every input keeps
  // ---------------------------------------------------------------------------------------------------

  /** Saved parameters are claimed exactly in the saved phase, and never for PX4. */
  ghost predicate Honest(c: Config, s: State) {
    (s.verification.ParametersSaved? <==> s.phase.Saved?) && (c.px4 ==> !s.phase.Saved? && s.actionPending.None?)
  }

  /** A waiting action has its own timer, which judges its last transmission, and its transmissions are bounded. */
  ghost predicate Locked(c: Config, s: State) {
    s.actionPending.Some? && !Terminal(c, s.phase) ==>
      && ActionSlot in s.timers && s.actionResends <= ACTION_MAX_RESENDS
      && s.timers[ActionSlot].epoch == s.actionEpoch && s.actionSends == s.actionResends + 1
  }

  /** While timers fire on time, the age of a waiting action is bounded too. */
  ghost predicate Scheduled(c: Config, s: State) {
    s.actionPending.Some? && !Terminal(c, s.phase) && ActionSlot in s.timers ==>
      s.timers[ActionSlot].due == s.actionAt + (s.actionResends + 1) * ACTION_TIMEOUT_MS
  }

  ghost predicate Watched(c: Config, s: State) {
    s.started && !Terminal(c, s.phase) ==> OverallSlot in s.timers && s.timers[OverallSlot].due == s.startedAt + OverallTimeoutMs(c)
  }

  ghost predicate Published(c: Config, s: State) {
    && s.seqNo == |s.snapshots|
    && (forall i :: 0 <= i < |s.snapshots| ==> s.snapshots[i].seqNo == i + 1)
    && (forall i :: 0 <= i < |s.snapshots| && Terminal(c, s.snapshots[i].phase) ==> s.snapshots[i].phase == s.phase)
  }

  ghost predicate Inv(c: Config, s: State) {
    && Honest(c, s) && Locked(c, s) && Watched(c, s) && Published(c, s)
    && (Terminal(c, s.phase) ==> s.timers == map[])
  }

  predicate OnTime(s: State, now: int) {
    forall slot :: slot in s.timers ==> now <= s.timers[slot].due
  }

  predicate Allowed(s: State, i: Input, now: int) {
    OnTime(s, now) && (i.TimerIn? ==> i.slot in s.timers && now >= s.timers[i.slot].due)
  }

  lemma EmitKeeps(c: Config, s: State)
    requires Inv(c, s)
    ensures Inv(c, Emit(s))
  {
  }

  /** Everything but the list of snapshots may move as long as the session stays open. */
  lemma OpenKeeps(c: Config, s: State, t: State)
    requires Inv(c, s) && !Terminal(c, s.phase) && !Terminal(c, t.phase)
    requires t.snapshots == s.snapshots && t.seqNo == s.seqNo && Honest(c, t) && Locked(c, t) && Watched(c, t)
    ensures Inv(c, t)
  {
  }

  lemma FinishKeeps(c: Config, s: State, p: Phase, v: Verification)
    requires Published(c, s) && !Terminal(c, s.phase) && Terminal(c, p)
    requires (v.ParametersSaved? <==> p.Saved?) && (c.px4 ==> !p.Saved? && s.actionPending.None?)
    ensures Inv(c, Finish(s, p, v))
  {
  }

  lemma EndKeeps(c: Config, s: State, t: State, p: Phase)
    requires Inv(c, s) && !Terminal(c, s.phase) && (p.Failed? || p.Interrupted?)
    requires t.phase == s.phase && t.snapshots == s.snapshots && t.seqNo == s.seqNo && t.verification == s.verification
    requires t.actionPending == s.actionPending
    ensures Inv(c, EndWith(c, t, p))
  {
    hide Locked, Watched;
    FinishKeeps(c, t, p, t.verification);
  }

  lemma StartKeeps(c: Config, s: State, now: int, accepts: bool)
    requires Inv(c, s)
    ensures Inv(c, Start(c, s, now, accepts))
  {
    hide Published, Finish, Emit;
    if !s.started && !Terminal(c, s.phase) {
      var s0 := s.(started := true, startedAt := now, phase := Starting);
      EmitPublishes(c, s0, s);
      if accepts {
        StartAccepted(c, s, now);
      } else {
        FinishKeeps(c, Emit(s0), Failed, s.verification);
      }
    }
  }

  lemma StartAccepted(c: Config, s: State, now: int)
    requires Inv(c, s) && !s.started && !Terminal(c, s.phase)
    ensures Inv(c, Start(c, s, now, true))
  {
    hide Published;
    var armed := Arm(s.(started := true, startedAt := now, phase := Starting,
                        sent := s.sent + [if c.px4 then PollCommand else SetMode(ARDUCOPTER_AUTOTUNE_MODE)]),
                     OverallSlot, now + OverallTimeoutMs(c));
    var t := if c.px4 then Arm(armed, PollSlot, now + AUTOTUNE_POLL_INTERVAL_MS) else armed;
    OpenKeeps(c, s, t);
    EmitKeeps(c, t);
    assert Start(c, s, now, true) == Emit(t);
  }

  lemma EmitPublishes(c: Config, t: State, s: State)
    requires Published(c, s) && t.snapshots == s.snapshots && t.seqNo == s.seqNo
    requires !Terminal(c, s.phase) && !Terminal(c, t.phase)
    ensures Published(c, Emit(t)) && Emit(t) == t.(seqNo := Emit(t).seqNo, snapshots := Emit(t).snapshots)
  {
  }

  lemma ProgressKeeps(c: Config, s: State, raw: nat)
    requires Inv(c, s) && c.px4 && !Terminal(c, s.phase)
    ensures Inv(c, ApplyProgress(c, s, raw))
  {
    hide Published, Finish, Emit;
    var next := if raw > 100 then 100 else raw;
    EndKeeps(c, s, s, Interrupted);
    var s1 := s.(progress := Some(next));
    FinishKeeps(c, s1, Completed, FirmwareCompleted) by { OpenKeeps(c, s, s1); }
    var t := s1.(phase := if next >= 95 then AwaitingDisarm else if next >= 90 then Verifying else if next >= 85 then Applying
                          else if next >= 20 then Tuning else Starting);
    OpenKeeps(c, s, t);
    EmitKeeps(c, t);
  }

  lemma AckKeeps(c: Config, s: State, r: AckResult)
    requires Inv(c, s)
    ensures Inv(c, CommandAck(c, s, r))
  {
    hide Published, Finish, Emit, ApplyProgress, EndWith;
    if !Terminal(c, s.phase) && c.px4 {
      if r.AckInProgress? && r.progress.Some? {
        ProgressKeeps(c, s, r.progress.value);
      }
      EndKeeps(c, s, s, Failed);
      OpenKeeps(c, s, s.(progress := Some(100)));
      FinishKeeps(c, s.(progress := Some(100)), Completed, FirmwareCompleted);
    }
  }

  lemma TextKeeps(c: Config, s: State, l: Line)
    requires Inv(c, s)
    ensures Inv(c, Statustext(c, s, l))
  {
    hide Published, Finish, Emit, EndWith;
    if !Terminal(c, s.phase) && !c.px4 {
      EndKeeps(c, s, s, Failed);
      EndKeeps(c, s, s, Interrupted);
      FinishKeeps(c, s, Discarded, s.verification);
      FinishKeeps(c, s, Saved, ParametersSaved);
      var t := match l
        case StartedLine => s.(phase := Tuning)
        case PausedLine => s.(phase := Paused)
        case SuccessLine =>
          s.(actionPending := None, timers := s.timers - {ActionSlot}, phase := Completed, verification := FirmwareCompleted)
        case TestingLine => ClearActionLocks(s).(phase := Testing, verification := FirmwareCompleted)
        case OriginalRestored => s.(phase := Completed, verification := FirmwareCompleted)
        case _ => s;
      OpenKeeps(c, s, t);
      EmitKeeps(c, t);
    }
  }

  lemma StatusKeeps(c: Config, s: State, now: int, armed: bool, mode: nat, accepts: bool)
    requires Inv(c, s)
    ensures Inv(c, VehicleStatus(c, s, now, armed, mode, accepts))
  {
    hide Published, Finish, Emit, EndWith;
    if !Terminal(c, s.phase) {
      EndKeeps(c, s, s, Interrupted);
      FinishKeeps(c, s, Discarded, s.verification);
      var s1 := s.(testModeTransition := false);
      EndKeeps(c, s, s1, Failed);
      OpenKeeps(c, s, s1.(sent := s1.sent + [SetMode(ARDUCOPTER_AUTOTUNE_MODE)]));
      OpenKeeps(c, s, s.(phase := Tuning));
      EmitKeeps(c, s.(phase := Tuning));
      SavePendingKeeps(c, s, now);
    }
  }

  lemma SavePendingKeeps(c: Config, s: State, now: int)
    requires Inv(c, s) && !Terminal(c, s.phase)
    ensures Inv(c, Arm(Emit(s.(phase := SavePending)), SaveSlot, now + ARDUPILOT_SAVE_TIMEOUT_MS))
  {
    hide Published, Emit;
    OpenKeeps(c, s, s.(phase := SavePending));
    EmitKeeps(c, s.(phase := SavePending));
    EmitPublishes(c, s.(phase := SavePending), s);
    var t := Emit(s.(phase := SavePending));
    OpenKeeps(c, t, Arm(t, SaveSlot, now + ARDUPILOT_SAVE_TIMEOUT_MS));
  }

  lemma ActionKeeps(c: Config, s: State, now: int, a: Action, accepts: bool)
    requires Inv(c, s)
    ensures Inv(c, BeginAction(c, s, now, a, accepts))
  {
    hide Published;
    if ActionAllowed(c, s, a) {
      OpenKeeps(c, s, BeginAction(c, s, now, a, accepts));
    }
  }

  lemma TimerKeeps(c: Config, s: State, slot: Slot, now: int, accepts: bool)
    requires Inv(c, s) && slot in s.timers
    ensures Inv(c, TimerFires(c, s, slot, now, accepts))
  {
    hide Published, Finish, EndWith;
    var s1 := s.(timers := s.timers - {slot});
    EndKeeps(c, s, s1, Failed);
    EndKeeps(c, s, s1, Interrupted);
    match slot {
      case PollSlot => if accepts { OpenKeeps(c, s, TimerFires(c, s, slot, now, accepts)); }
      case ActionSlot => ActionTimerKeeps(c, s, now, accepts);
      case _ =>
    }
  }

  lemma ActionTimerKeeps(c: Config, s: State, now: int, accepts: bool)
    requires Inv(c, s) && ActionSlot in s.timers
    ensures Inv(c, TimerFires(c, s, ActionSlot, now, accepts))
  {
    hide Published, Finish, EndWith;
    var s1 := s.(timers := s.timers - {ActionSlot});
    if s.actionPending.None? {
      OpenKeeps(c, s, s1);
    } else {
      EndKeeps(c, s, s1, Failed);
      var s2 := s1.(actionResends := s1.actionResends + 1);
      EndKeeps(c, s, s2.(actionEpoch := s2.actionEpoch + 1), Failed);
      if s.actionResends < ACTION_MAX_RESENDS {
        OpenKeeps(c, s, Transmitted(c, s2, now));
      }
    }
  }

  lemma StepKeeps(c: Config, s: State, i: Input, now: int)
    requires Inv(c, s) && (i.TimerIn? ==> i.slot in s.timers)
    ensures Inv(c, Step(c, s, i, now))
  {
    hide Inv, Start, EndWith, Emit, CommandAck, Statustext, VehicleStatus, BeginAction, TimerFires;
    match i {
      case StartCall(accepts) => StartKeeps(c, s, now, accepts);
      case TerminateCall => TerminateKeeps(c, s);
      case OwnerChanged => EmitKeeps(c, s);
      case AckIn(r) => AckKeeps(c, s, r);
      case TextIn(l) => TextKeeps(c, s, l);
      case StatusIn(armed, mode, accepts) => StatusKeeps(c, s, now, armed, mode, accepts);
      case ActionCall(a, accepts) => ActionKeeps(c, s, now, a, accepts);
      case TimerIn(slot, accepts) => TimerKeeps(c, s, slot, now, accepts);
    }
  }

  lemma TerminateKeeps(c: Config, s: State)
    requires Inv(c, s)
    ensures Inv(c, EndWith(c, s, Interrupted))
  {
    hide Inv;
    if !Terminal(c, s.phase) {
      EndKeeps(c, s, s, Interrupted);
    }
  }

  // ---------------------------------------------------------------------------------------------------
  // Whole sessions
  // ---------------------------------------------------------------------------------------------------

  datatype Timed = Timed(input: Input, now: int)

  ghost predicate AllowedRun(c: Config, s: State, es: seq<Timed>)
    decreases |es|
  {
    es == [] || (Allowed(s, es[0].input, es[0].now) && AllowedRun(c, Step(c, s, es[0].input, es[0].now), es[1..]))
  }

  ghost function After(c: Config, s: State, es: seq<Timed>): State
    requires AllowedRun(c, s, es)
    decreases |es|
  {
    if es == [] then s else After(c, Step(c, s, es[0].input, es[0].now), es[1..])
  }

  lemma {:induction false} RunKeeps(c: Config, s: State, es: seq<Timed>)
    requires Inv(c, s) && AllowedRun(c, s, es)
    ensures Inv(c, After(c, s, es))
    decreases |es|
  {
    hide Inv, Step;
    if es != [] {
      StepKeeps(c, s, es[0].input, es[0].now);
      RunKeeps(c, Step(c, s, es[0].input, es[0].now), es[1..]);
    }
  }

  lemma StatusSchedules(c: Config, s: State, now: int, armed: bool, mode: nat, accepts: bool)
    ensures var t := VehicleStatus(c, s, now, armed, mode, accepts);
            Terminal(c, t.phase) || SameAction(s, t)
  {
    hide Emit;
    EmitsOnly(s.(phase := SavePending));
    EmitsOnly(s.(phase := Tuning));
    EmitsOnly(s.(phase := Discarded, timers := map[]));
    EmitsOnly(s.(phase := Interrupted, timers := map[]));
    EmitsOnly(s.(testModeTransition := false, phase := Failed, timers := map[]));
  }

  lemma EmitsOnly(s: State)
    ensures Emit(s).phase == s.phase && SameAction(s, Emit(s)) && Emit(s).verification == s.verification && Emit(s).sent == s.sent
  {
  }

  /** The waiting action and its timer are as before. */
  predicate SameAction(s: State, t: State) {
    && t.actionPending == s.actionPending && t.actionAt == s.actionAt && t.actionResends == s.actionResends
    && (ActionSlot in t.timers <==> ActionSlot in s.timers) && (ActionSlot in s.timers ==> t.timers[ActionSlot] == s.timers[ActionSlot])
  }

  lemma TextSchedules(c: Config, s: State, l: Line)
    ensures var t := Statustext(c, s, l); Terminal(c, t.phase) || t.actionPending.None? || SameAction(s, t)
  {
  }

  lemma AckSchedules(c: Config, s: State, r: AckResult)
    ensures var t := CommandAck(c, s, r); Terminal(c, t.phase) || SameAction(s, t)
  {
  }

  lemma StartSchedules(c: Config, s: State, now: int, accepts: bool)
    ensures var t := Start(c, s, now, accepts); Terminal(c, t.phase) || SameAction(s, t)
  {
  }

  lemma TimerSchedules(c: Config, s: State, slot: Slot, now: int, accepts: bool)
    requires Scheduled(c, s) && slot in s.timers && now == s.timers[slot].due && Locked(c, s) && !Terminal(c, s.phase)
    ensures Scheduled(c, TimerFires(c, s, slot, now, accepts))
  {
    if slot.ActionSlot? {
      ActionTimerSchedules(c, s, now, accepts);
    }
  }

  lemma ActionTimerSchedules(c: Config, s: State, now: int, accepts: bool)
    requires Scheduled(c, s) && ActionSlot in s.timers && now == s.timers[ActionSlot].due && Locked(c, s) && !Terminal(c, s.phase)
    ensures Scheduled(c, TimerFires(c, s, ActionSlot, now, accepts))
  {
    assert (s.actionResends + 2) * ACTION_TIMEOUT_MS == (s.actionResends + 1) * ACTION_TIMEOUT_MS + ACTION_TIMEOUT_MS;
  }

  lemma ActionSchedules(c: Config, s: State, now: int, a: Action, accepts: bool)
    requires Scheduled(c, s)
    ensures Scheduled(c, BeginAction(c, s, now, a, accepts))
  {
  }

  lemma StepSchedules(c: Config, s: State, i: Input, now: int)
    requires Inv(c, s) && Scheduled(c, s) && Allowed(s, i, now)
    ensures Scheduled(c, Step(c, s, i, now))
  {
    hide Start, CommandAck, Statustext, VehicleStatus, BeginAction, TimerFires, Published, Emit;
    if Terminal(c, s.phase) {
      EndIsFinal(c, s, i, now);
    } else {
      match i {
        case StartCall(accepts) => StartSchedules(c, s, now, accepts);
        case TerminateCall => EmitsOnly(s.(phase := Interrupted, timers := map[]));
        case OwnerChanged => EmitsOnly(s);
        case AckIn(r) => AckSchedules(c, s, r);
        case TextIn(l) => TextSchedules(c, s, l);
        case StatusIn(armed, mode, accepts) => StatusSchedules(c, s, now, armed, mode, accepts);
        case ActionCall(a, accepts) => ActionSchedules(c, s, now, a, accepts);
        case TimerIn(slot, accepts) => TimerSchedules(c, s, slot, now, accepts);
      }
    }
  }

  lemma {:induction false} RunSchedules(c: Config, s: State, es: seq<Timed>)
    requires Inv(c, s) && Scheduled(c, s) && AllowedRun(c, s, es)
    ensures Scheduled(c, After(c, s, es))
    decreases |es|
  {
    hide Inv, Step, Scheduled;
    if es != [] {
      StepKeeps(c, s, es[0].input, es[0].now);
      StepSchedules(c, s, es[0].input, es[0].now);
      RunSchedules(c, Step(c, s, es[0].input, es[0].now), es[1..]);
    }
  }

  /** In every session that is still open: a waiting action has its timer armed, has been transmitted at most three times
      and is no older than three action timeouts; and the session itself is within its overall limit. */
  lemma ActionsAreReleased(c: Config, es: seq<Timed>, now: int)
    requires AllowedRun(c, FRESH, es)
    requires !Terminal(c, After(c, FRESH, es).phase) && OnTime(After(c, FRESH, es), now)
    ensures var s := After(c, FRESH, es);
            && (s.actionPending.Some? ==> ActionSlot in s.timers && s.timers[ActionSlot].epoch == s.actionEpoch
                                          && 1 <= s.actionSends <= 3 && now <= s.actionAt + 3 * ACTION_TIMEOUT_MS)
            && (s.started ==> now <= s.startedAt + OverallTimeoutMs(c))
  {
    hide After, AllowedRun, Published;
    assert Inv(c, FRESH) by { FreshIsFine(c); }
    RunKeeps(c, FRESH, es);
    RunSchedules(c, FRESH, es);
    var s := After(c, FRESH, es);
    assert s.actionPending.Some? ==> now <= s.timers[ActionSlot].due;
    assert s.started ==> now <= s.timers[OverallSlot].due;
  }

  lemma FreshIsFine(c: Config)
    ensures Inv(c, FRESH)
  {
  }

  /** In every session saved parameters are claimed exactly in the saved phase and never for PX4, an ended session has no
      timer, and all terminal snapshots agree. */
  lemma ClaimsAreHonest(c: Config, es: seq<Timed>)
    requires AllowedRun(c, FRESH, es)
    ensures var s := After(c, FRESH, es);
            && (s.verification.ParametersSaved? <==> s.phase.Saved?) && (c.px4 ==> !s.phase.Saved?)
            && (Terminal(c, s.phase) ==> s.timers == map[])
            && (forall i :: 0 <= i < |s.snapshots| ==> s.snapshots[i].seqNo == i + 1)
            && (forall i, j :: 0 <= i < |s.snapshots| && 0 <= j < |s.snapshots|
                  && Terminal(c, s.snapshots[i].phase) && Terminal(c, s.snapshots[j].phase)
                  ==> s.snapshots[i].phase == s.snapshots[j].phase)
  {
    hide After, AllowedRun, Locked, Watched;
    FreshIsFine(c);
    RunKeeps(c, FRESH, es);
  }

  lemma SavedByText(c: Config, s: State, l: Line)
    requires !s.phase.Saved?
    ensures Statustext(c, s, l).phase.Saved? <==> !Terminal(c, s.phase) && !c.px4 && l.SavedGains?
  {
  }

  lemma NotSavedByAck(c: Config, s: State, r: AckResult)
    requires !s.phase.Saved?
    ensures !CommandAck(c, s, r).phase.Saved?
  {
  }

  lemma NotSavedByStatus(c: Config, s: State, now: int, armed: bool, mode: nat, accepts: bool)
    requires !s.phase.Saved?
    ensures !VehicleStatus(c, s, now, armed, mode, accepts).phase.Saved?
  {
  }

  lemma NotSavedByCall(c: Config, s: State, now: int, a: Action, accepts: bool)
    requires !s.phase.Saved?
    ensures !BeginAction(c, s, now, a, accepts).phase.Saved? && !Start(c, s, now, accepts).phase.Saved?
  {
  }

  lemma NotSavedByTimer(c: Config, s: State, slot: Slot, now: int, accepts: bool)
    requires !s.phase.Saved? && slot in s.timers
    ensures !TimerFires(c, s, slot, now, accepts).phase.Saved?
  {
  }

  /** The saved phase is entered by the firmware's own line and by nothing else. */
  lemma SavedOnlyByLine(c: Config, s: State, i: Input, now: int)
    requires Inv(c, s) && Allowed(s, i, now) && !s.phase.Saved?
    ensures Step(c, s, i, now).phase.Saved? <==> !Terminal(c, s.phase) && !c.px4 && i == TextIn(SavedGains)
  {
    hide Inv, Start, CommandAck, Statustext, VehicleStatus, BeginAction, TimerFires;
    match i {
      case StartCall(accepts) => NotSavedByCall(c, s, now, Abort, accepts);
      case AckIn(r) => NotSavedByAck(c, s, r);
      case TextIn(l) => SavedByText(c, s, l);
      case StatusIn(armed, mode, accepts) => NotSavedByStatus(c, s, now, armed, mode, accepts);
      case ActionCall(a, accepts) => NotSavedByCall(c, s, now, a, accepts);
      case TimerIn(slot, accepts) => NotSavedByTimer(c, s, slot, now, accepts);
      case _ =>
    }
  }

  /** A terminal phase is never left. */
  lemma EndIsFinal(c: Config, s: State, i: Input, now: int)
    requires Inv(c, s) && Allowed(s, i, now) && Terminal(c, s.phase)
    ensures var t := Step(c, s, i, now);
            t.phase == s.phase && t.verification == s.verification && t.sent == s.sent && t.timers == map[]
            && t.actionPending == s.actionPending
  {
    hide Published, Locked, Watched;
  }

  /** After a success line nothing waits any more, but the mode change that leads to the gain test may still be expected:
      the next report of the original mode asks for AutoTune mode again if and only if it was expected before. */
  lemma SuccessKeepsTransition(c: Config, s: State, now: int)
    requires !c.px4 && !Terminal(c, s.phase)
    ensures var t := Statustext(c, s, SuccessLine);
            && t.actionPending.None? && t.testModeTransition == s.testModeTransition && t.sent == s.sent
            && (VehicleStatus(c, t, now, true, c.initialModeId, true).sent == s.sent + [SetMode(ARDUCOPTER_AUTOTUNE_MODE)]
                <==> s.testModeTransition)
  {
  }

  /** A tune, a success, a gain test asked for, and a second success line before the mode has changed. */
  function TwiceSuccessful(c: Config): seq<Timed> {
    [Timed(StartCall(true), 0), Timed(TextIn(SuccessLine), 0), Timed(ActionCall(TestGains, true), 0),
     Timed(TextIn(SuccessLine), 0), Timed(StatusIn(true, c.initialModeId, true), 0)]
  }

  /** In that session AutoTune mode is asked for a second time although no action waits. */
  lemma AsksAgainUnasked(c: Config)
    requires !c.px4
    ensures var es := TwiceSuccessful(c);
            && AllowedRun(c, FRESH, es) && After(c, FRESH, es).actionPending.None?
            && After(c, FRESH, es).sent
               == [SetMode(ARDUCOPTER_AUTOTUNE_MODE), SetMode(c.initialModeId), SetMode(ARDUCOPTER_AUTOTUNE_MODE)]
  {
    var es := TwiceSuccessful(c);
    var s1 := Start(c, FRESH, 0, true);
    var s2 := Statustext(c, s1, SuccessLine);
    var s3 := BeginAction(c, s2, 0, TestGains, true);
    var s4 := Statustext(c, s3, SuccessLine);
    var s5 := VehicleStatus(c, s4, 0, true, c.initialModeId, true);
    UntilTest(c);
    hide Start, Statustext, BeginAction, VehicleStatus, Inv;
    assert AllowedRun(c, s5, []);
    assert AllowedRun(c, s4, es[4..]) && After(c, s4, es[4..]) == s5 by { assert es[4..][1..] == []; }
    assert AllowedRun(c, s3, es[3..]) && After(c, s3, es[3..]) == s5 by { assert es[3..][1..] == es[4..]; }
    assert AllowedRun(c, s2, es[2..]) && After(c, s2, es[2..]) == s5 by { assert es[2..][1..] == es[3..]; }
    assert AllowedRun(c, s1, es[1..]) && After(c, s1, es[1..]) == s5 by { assert es[1..][1..] == es[2..]; }
  }

  lemma TuneStarts(c: Config)
    requires !c.px4
    ensures var t := Start(c, FRESH, 0, true);
            && t.phase.Starting? && OnTime(t, 0) && t.actionPending.None? && !t.testModeTransition
            && t.sent == [SetMode(ARDUCOPTER_AUTOTUNE_MODE)] && OnTime(FRESH, 0)
  {
  }

  lemma Succeeds(c: Config, s: State)
    requires !c.px4 && !Terminal(c, s.phase) && OnTime(s, 0)
    ensures var t := Statustext(c, s, SuccessLine);
            && t.phase.Completed? && OnTime(t, 0) && t.actionPending.None?
             && t.testModeTransition == s.testModeTransition && t.sent == s.sent
  {
  }

  lemma TestAsked(c: Config, s: State)
    requires !c.px4 && s.phase.Completed? && s.actionPending.None? && !s.testModeTransition && OnTime(s, 0)
    ensures var t := BeginAction(c, s, 0, TestGains, true);
            t.phase.Completed? && OnTime(t, 0) && t.testModeTransition && t.sent == s.sent + [SetMode(c.initialModeId)]
  {
  }

  lemma ModeReached(c: Config, s: State)
    requires !c.px4 && s.phase.Completed? && s.actionPending.None? && s.testModeTransition
    ensures var t := VehicleStatus(c, s, 0, true, c.initialModeId, true);
            t.actionPending.None? && t.sent == s.sent + [SetMode(ARDUCOPTER_AUTOTUNE_MODE)]
  {
  }

  lemma UntilTest(c: Config)
    requires !c.px4
    ensures var s1 := Start(c, FRESH, 0, true);
            var s2 := Statustext(c, s1, SuccessLine);
            var s3 := BeginAction(c, s2, 0, TestGains, true);
            var s4 := Statustext(c, s3, SuccessLine);
            var s5 := VehicleStatus(c, s4, 0, true, c.initialModeId, true);
            && OnTime(FRESH, 0) && OnTime(s1, 0) && OnTime(s2, 0) && OnTime(s3, 0) && OnTime(s4, 0)
            && s5.actionPending.None?
            && s5.sent == [SetMode(ARDUCOPTER_AUTOTUNE_MODE), SetMode(c.initialModeId), SetMode(ARDUCOPTER_AUTOTUNE_MODE)]
  {
    var s1 := Start(c, FRESH, 0, true);
    TuneStarts(c);
    var s2 := Statustext(c, s1, SuccessLine);
    Succeeds(c, s1);
    var s3 := BeginAction(c, s2, 0, TestGains, true);
    TestAsked(c, s2);
    var s4 := Statustext(c, s3, SuccessLine);
    Succeeds(c, s3);
    ModeReached(c, s4);
    hide Start, Statustext, BeginAction, VehicleStatus;
  }
}
