/** The one ESC session: entering, active, orphaned while a job outlives its owner, exiting; and the serial link that is
    opened and closed once per session. Asynchronous calls are split at their awaits. */
module EscSessionRules {
  import opened Bytes

  datatype Stage = Entering | Active | Orphaned | Exiting

  /** How far the teardown has come: not begun, in the protocol-level exit, or closing the transport. */
  datatype Teardown = NotBegun | ProtocolExit | ClosingTransport

  datatype Session = Session(generation: nat, owner: nat, safetyConfirmed: bool, stage: Stage, activeJob: Option<nat>,
                             orphanExpired: bool, idleTimer: bool, orphanTimer: bool, teardown: Teardown)

  datatype LinkEvent = Created(generation: nat) | CloseCalled(generation: nat) | CloseFinished(generation: nat)

  datatype Manager = Manager(session: Option<Session>, generationCounter: nat, jobCounter: nat, destroyed: bool,
                             link: seq<LinkEvent>)

  const IDLE := Manager(None, 0, 0, false, [])

  predicate Owns(m: Manager, client: nat, generation: nat) {
    m.session.Some? && m.session.value.generation == generation && m.session.value.owner == client
  }

  predicate Current(m: Manager, generation: nat) {
    m.session.Some? && m.session.value.generation == generation
  }

  /** Settings may be written only under the physical acknowledgement of the current owner. */
  predicate SettingsWriteAllowed(m: Manager, client: nat, generation: nat) {
    Owns(m, client, generation) && m.session.value.safetyConfirmed
  }

  /** All ways out meet here; a second call changes nothing. */
  function Finalize(s: Session): Session {
    if !s.teardown.NotBegun? then s
    else s.(stage := Exiting, safetyConfirmed := false, idleTimer := false, orphanTimer := false, teardown := ProtocolExit)
  }

  function With(m: Manager, s: Session): Manager {
    m.(session := Some(s))
  }

  function Start(m: Manager, client: nat, safetyConfirmed: bool, safe: bool): Manager {
    if m.destroyed || m.session.Some? || !safe then m
    else
      var g := m.generationCounter + 1;
      m.(generationCounter := g, link := m.link + [Created(g)],
         session := Some(Session(g, client, safetyConfirmed, Entering, None, false, false, false, NotBegun)))
  }

  /** The transport of session `g` has opened or failed to. */
  function OpenSettled(m: Manager, g: nat, ok: bool): Manager {
    if !Current(m, g) then m
    else
      var s := m.session.value;
      if ok && s.stage.Entering? then With(m, s.(stage := Active, idleTimer := true)) else With(m, Finalize(s))
  }

  function EndNow(m: Manager, g: nat): Manager {
    if Current(m, g) then With(m, Finalize(m.session.value)) else m
  }

  function Exit(m: Manager, client: nat, g: nat): Manager {
    if Owns(m, client, g) && m.session.value.activeJob.None? then EndNow(m, g) else m
  }

  function Disconnected(m: Manager, client: nat): Manager {
    if m.session.None? || m.session.value.owner != client || m.session.value.stage.Exiting? then m
    else
      var s := m.session.value;
      if s.activeJob.None? then With(m, Finalize(s))
      else With(m, s.(safetyConfirmed := false, stage := Orphaned, idleTimer := false, orphanTimer := true))
  }

  function Reclaim(m: Manager, client: nat, g: nat, tokenMatches: bool): Manager {
    if !Current(m, g) || !m.session.value.stage.Orphaned? || !tokenMatches then m
    else
      var s := m.session.value;
      With(m, s.(owner := client, stage := Active, orphanExpired := false, orphanTimer := false,
                 idleTimer := s.idleTimer || s.activeJob.None?))
  }

  /** The idle timer may be restarted at any time; whether it may act is decided when it fires. */
  function NoteActivity(m: Manager, client: nat): Manager {
    if m.session.Some? && m.session.value.owner == client then With(m, m.session.value.(idleTimer := true)) else m
  }

  function IdleFires(m: Manager, g: nat): Manager {
    if !Current(m, g) then m
    else
      var s := m.session.value.(idleTimer := false);
      if s.stage.Active? && s.activeJob.None? then With(m, Finalize(s)) else With(m, s)
  }

  function OrphanFires(m: Manager, g: nat): Manager {
    if !Current(m, g) then m
    else
      var s := m.session.value.(orphanTimer := false);
      if !s.stage.Orphaned? then With(m, s)
      else
        var t := s.(orphanExpired := true);
        With(m, if t.activeJob.None? then Finalize(t) else t)
  }

  predicate JobAccepted(m: Manager, client: nat) {
    m.session.Some? && m.session.value.owner == client && m.session.value.stage.Active? && m.session.value.activeJob.None?
  }

  function RunJob(m: Manager, client: nat, safe: bool): Manager {
    if !JobAccepted(m, client) then m
    else if !safe then With(m, Finalize(m.session.value))
    else With(m, m.session.value.(activeJob := Some(m.jobCounter), idleTimer := false)).(jobCounter := m.jobCounter + 1)
  }

  /** Job `job` of session `g` has ended, well or badly. */
  function JobEnds(m: Manager, g: nat, job: nat): Manager {
    if !Current(m, g) then m
    else
      var s := m.session.value.(activeJob := if m.session.value.activeJob == Some(job) then None else m.session.value.activeJob);
      With(m, if s.stage.Orphaned? && s.orphanExpired then Finalize(s)
              else if s.stage.Active? then s.(idleTimer := true) else s)
  }

  function ProtocolExitDone(m: Manager, g: nat): Manager {
    if !Current(m, g) || !m.session.value.teardown.ProtocolExit? then m
    else With(m, m.session.value.(teardown := ClosingTransport)).(link := m.link + [CloseCalled(g)])
  }

  function CloseDone(m: Manager, g: nat): Manager {
    if !Current(m, g) || !m.session.value.teardown.ClosingTransport? then m
    else m.(session := None, link := m.link + [CloseFinished(g)])
  }

  function Destroy(m: Manager): Manager {
    var d := m.(destroyed := true);
    if m.session.Some? then EndNow(d, m.session.value.generation) else d
  }

  datatype Input =
    | StartCall(client: nat, confirmed: bool, safe: bool) | OpenEnds(g: nat, ok: bool)
    | ExitCall(client: nat, g: nat) | ClientGone(client: nat) | ReclaimCall(client: nat, g: nat, tokenMatches: bool)
    | ActivityNoted(client: nat) | IdleTimerFires(g: nat) | OrphanTimerFires(g: nat)
    | JobCall(client: nat, safe: bool) | JobDone(g: nat, job: nat)
    | ForcedEnd(g: nat) | ExitStepDone(g: nat) | CloseStepDone(g: nat) | DestroyCall

  function Step(m: Manager, i: Input): Manager {
    match i
    case StartCall(client, confirmed, safe) => Start(m, client, confirmed, safe)
    case OpenEnds(g, ok) => OpenSettled(m, g, ok)
    case ExitCall(client, g) => Exit(m, client, g)
    case ClientGone(client) => Disconnected(m, client)
    case ReclaimCall(client, g, matches) => Reclaim(m, client, g, matches)
    case ActivityNoted(client) => NoteActivity(m, client)
    case IdleTimerFires(g) => IdleFires(m, g)
    case OrphanTimerFires(g) => OrphanFires(m, g)
    case JobCall(client, safe) => RunJob(m, client, safe)
    case JobDone(g, job) => JobEnds(m, g, job)
    case ForcedEnd(g) => EndNow(m, g)
    case ExitStepDone(g) => ProtocolExitDone(m, g)
    case CloseStepDone(g) => CloseDone(m, g)
    case DestroyCall => Destroy(m)
  }

  // ---------------------------------------------------------------------------------------------------
  // The link
  // ---------------------------------------------------------------------------------------------------

  datatype LinkState = Free | Held(generation: nat) | Closing(generation: nat) | Broken

  /** The only orderly use of the link: create, close once, wait for the close, and only then create again. */
  function NextLink(l: LinkState, e: LinkEvent): LinkState {
    match e
    case Created(g) => if l.Free? then Held(g) else Broken
    case CloseCalled(g) => if l == Held(g) then Closing(g) else Broken
    case CloseFinished(g) => if l == Closing(g) then Free else Broken
  }

  function LinkAfter(log: seq<LinkEvent>): LinkState {
    if log == [] then Free else NextLink(LinkAfter(log[..|log| - 1]), log[|log| - 1])
  }

  function Count(log: seq<LinkEvent>, e: LinkEvent): nat {
    if log == [] then 0 else Count(log[..|log| - 1], e) + if log[|log| - 1] == e then 1 else 0
  }

  /** No generation above `top` has been created, and none twice. */
  ghost predicate FreshUpTo(log: seq<LinkEvent>, top: nat) {
    (forall g: nat :: Count(log, Created(g)) <= 1) && (forall g: nat :: g > top ==> Count(log, Created(g)) == 0)
  }

  function Expected(m: Manager): LinkState {
    match m.session
    case None => Free
    case Some(s) => if s.teardown.ClosingTransport? then Closing(s.generation) else Held(s.generation)
  }

  /** A session being torn down is exiting and cannot be confirmed; one that is not has a watchdog unless a job or the
      opening of the transport is still running. */
  ghost predicate Guarded(s: Session) {
    && (s.teardown.NotBegun? <==> !s.stage.Exiting?)
    && (s.stage.Exiting? ==> !s.safetyConfirmed)
    && (s.stage.Active? && s.activeJob.None? ==> s.idleTimer)
    && (s.stage.Orphaned? ==> !s.safetyConfirmed && (s.orphanTimer || (s.orphanExpired && s.activeJob.Some?)))
    && (s.stage.Entering? ==> s.activeJob.None?)
  }

  ghost predicate Inv(m: Manager) {
    && LinkAfter(m.link) == Expected(m) && FreshUpTo(m.link, m.generationCounter)
    && (m.session.Some? ==> Guarded(m.session.value) && m.session.value.generation <= m.generationCounter
                            && (m.session.value.activeJob.Some? ==> m.session.value.activeJob.value < m.jobCounter))
  }

  lemma LinkSnoc(log: seq<LinkEvent>, e: LinkEvent)
    ensures LinkAfter(log + [e]) == NextLink(LinkAfter(log), e)
    ensures forall x :: Count(log + [e], x) == Count(log, x) + if x == e then 1 else 0
  {
    assert (log + [e])[..|log|] == log;
  }

  lemma LinkStepKeeps(m: Manager, i: Input)
    requires Inv(m) && (i.StartCall? || i.ExitStepDone? || i.CloseStepDone?)
    ensures Inv(Step(m, i))
  {
    hide LinkAfter, Count;
    match i {
      case StartCall(_, _, _) => LinkSnoc(m.link, Created(m.generationCounter + 1));
      case ExitStepDone(g) => LinkSnoc(m.link, CloseCalled(g));
      case CloseStepDone(g) => LinkSnoc(m.link, CloseFinished(g));
      case _ =>
    }
  }

  lemma QuietStepKeeps(m: Manager, i: Input)
    requires Inv(m) && !i.StartCall? && !i.ExitStepDone? && !i.CloseStepDone?
    ensures Inv(Step(m, i))
  {
    hide LinkAfter, FreshUpTo;
  }

  lemma StepKeeps(m: Manager, i: Input)
    requires Inv(m)
    ensures Inv(Step(m, i))
  {
    hide *;
    if i.StartCall? || i.ExitStepDone? || i.CloseStepDone? {
      LinkStepKeeps(m, i);
    } else {
      QuietStepKeeps(m, i);
    }
  }

  ghost function After(m: Manager, es: seq<Input>): Manager
    decreases |es|
  {
    if es == [] then m else After(Step(m, es[0]), es[1..])
  }

  lemma {:induction false} RunKeeps(m: Manager, es: seq<Input>)
    requires Inv(m)
    ensures Inv(After(m, es))
    decreases |es|
  {
    hide Inv, Step;
    if es != [] {
      StepKeeps(m, es[0]);
      RunKeeps(Step(m, es[0]), es[1..]);
    }
  }

  /** Over every interleaving the link is used in the one orderly way. */
  lemma LinkIsOrderly(es: seq<Input>)
    ensures !LinkAfter(After(IDLE, es).link).Broken?
    ensures FreshUpTo(After(IDLE, es).link, After(IDLE, es).generationCounter)
  {
    hide After;
    assert Inv(IDLE);
    RunKeeps(IDLE, es);
  }

  /** What orderly use means: a transport is closed at most as often as it was created. */
  lemma {:induction false} ClosedAtMostOnce(log: seq<LinkEvent>, g: nat)
    requires !LinkAfter(log).Broken?
    ensures Count(log, CloseFinished(g)) <= Count(log, CloseCalled(g)) <= Count(log, Created(g))
    ensures LinkAfter(log) == Held(g) ==> Count(log, CloseCalled(g)) < Count(log, Created(g))
    ensures LinkAfter(log) == Closing(g) ==> Count(log, CloseFinished(g)) < Count(log, CloseCalled(g))
  {
    if log != [] {
      ClosedAtMostOnce(log[..|log| - 1], g);
    }
  }

  /** Before another transport is created, the close of every earlier one has finished. */
  lemma {:induction false} NextAfterClose(log: seq<LinkEvent>, i: nat, j: nat) returns (k: nat)
    requires !LinkAfter(log).Broken? && i < j < |log| && log[i].Created? && log[j].Created?
    ensures i < k < j && log[k] == CloseFinished(log[i].generation)
    decreases |log|
  {
    if j < |log| - 1 {
      k := NextAfterClose(log[..|log| - 1], i, j);
    } else {
      k := ReleasedBy(log[..j], i);
    }
  }

  lemma {:induction false} ReleasedBy(log: seq<LinkEvent>, i: nat) returns (k: nat)
    requires i < |log| && log[i].Created? && !LinkAfter(log).Broken?
    requires LinkAfter(log) != Held(log[i].generation) && LinkAfter(log) != Closing(log[i].generation)
    ensures i < k < |log| && log[k] == CloseFinished(log[i].generation)
    decreases |log|
  {
    var last := |log| - 1;
    if log[last] == CloseFinished(log[i].generation) {
      k := last;
    } else {
      k := ReleasedBy(log[..last], i);
    }
  }

  // ---------------------------------------------------------------------------------------------------
  // Jobs, acknowledgement, expiry
  // ---------------------------------------------------------------------------------------------------

  /** Neither the idle nor the orphan timer tears down a session while its job runs, even if it was armed then. */
  lemma TimersSpareJobs(m: Manager, g: nat)
    requires Inv(m) && m.session.Some? && m.session.value.activeJob.Some? && m.session.value.teardown.NotBegun?
    ensures IdleFires(m, g).session.Some? && IdleFires(m, g).session.value.teardown.NotBegun?
    ensures OrphanFires(m, g).session.Some? && OrphanFires(m, g).session.value.teardown.NotBegun?
    ensures IdleFires(m, g).session.value.activeJob == m.session.value.activeJob == OrphanFires(m, g).session.value.activeJob
  {
  }

  /** A teardown begins only for a reason: with no job running, or because the vehicle, the link, the opening or the
      shutdown forces it, or when an expired orphan's job has just ended. */
  lemma WhyItEnds(m: Manager, i: Input)
    requires Inv(m) && m.session.Some? && m.session.value.teardown.NotBegun?
    requires Step(m, i).session.Some? && !Step(m, i).session.value.teardown.NotBegun?
    ensures m.session.value.activeJob.None? || i.ForcedEnd? || i.DestroyCall? || i.OpenEnds?
            || (i.JobDone? && m.session.value.orphanExpired && m.session.value.stage.Orphaned?)
  {
    hide LinkAfter, Count;
  }

  ghost predicate Unconfirmed(m: Manager, g: nat) {
    g <= m.generationCounter && (Current(m, g) ==> !m.session.value.safetyConfirmed)
  }

  lemma StaysUnconfirmed(m: Manager, i: Input, g: nat)
    requires Inv(m) && Unconfirmed(m, g)
    ensures Unconfirmed(Step(m, i), g)
  {
    hide LinkAfter, Count;
  }

  /** Losing the owner during a job clears the acknowledgement, and so does the beginning of every teardown. */
  lemma DisconnectClears(m: Manager, client: nat, g: nat)
    requires Inv(m) && Owns(m, client, g)
    ensures Unconfirmed(Disconnected(m, client), g)
  {
    hide LinkAfter, Count;
  }

  /** Once cleared the acknowledgement never comes back in that session, so no settings write is allowed again, not
      even after the session has been reclaimed. */
  lemma {:induction false} NoWriteEverAgain(m: Manager, es: seq<Input>, client: nat, g: nat)
    requires Inv(m) && Unconfirmed(m, g)
    ensures !SettingsWriteAllowed(After(m, es), client, g)
    decreases |es|
  {
    hide Inv, Step;
    if es != [] {
      StepKeeps(m, es[0]);
      StaysUnconfirmed(m, es[0], g);
      NoWriteEverAgain(Step(m, es[0]), es[1..], client, g);
    }
  }
}

/** The session object and its manager. */
module EscSessions {
  import opened Bytes
  import opened EscSessionRules

  lemma FreeWithout(m: Manager)
    requires Inv(m)
    ensures m.session.None? ==> LinkAfter(m.link).Free?
  {
    hide LinkAfter, FreshUpTo;
  }

  class InternalSession {
    const generation: nat
    var owner: nat
    var safetyConfirmed: bool
    var stage: Stage
    var activeJob: Option<nat>
    var orphanExpired: bool
    var idleTimer: bool
    var orphanTimer: bool
    var teardown: Teardown

    ghost function Value(): Session
      reads this
    {
      Session(generation, owner, safetyConfirmed, stage, activeJob, orphanExpired, idleTimer, orphanTimer, teardown)
    }

    constructor (generation: nat, owner: nat, safetyConfirmed: bool)
      ensures Value() == Session(generation, owner, safetyConfirmed, Entering, None, false, false, false, NotBegun)
    {
      this.generation, this.owner, this.safetyConfirmed := generation, owner, safetyConfirmed;
      stage, activeJob, orphanExpired, idleTimer, orphanTimer, teardown := Entering, None, false, false, false, NotBegun;
    }

    /** Begin the teardown unless it has begun. */
    method Finalize()
      modifies this
      ensures Value() == EscSessionRules.Finalize(old(Value()))
    {
      if !teardown.NotBegun? {
        return;
      }
      stage, safetyConfirmed := Exiting, false;
      idleTimer, orphanTimer := false, false;
      teardown := ProtocolExit;
    }
  }

  class EscSessionManager {
    var session: InternalSession?
    var generationCounter: nat
    var jobCounter: nat
    var destroyed: bool
    /** Transports created, closes called and closes finished, in order. */
    var link: seq<LinkEvent>

    ghost function Now(): Manager
      reads this, session
    {
      Manager(if session == null then None else Some(session.Value()), generationCounter, jobCounter, destroyed, link)
    }

    /** The link is used in order, and the session is watched or on its way out. */
    ghost predicate Valid()
      reads this, session
    {
      Inv(Now())
    }

    constructor ()
      ensures Valid() && Now() == IDLE
    {
      session, generationCounter, jobCounter, destroyed, link := null, 0, 0, false, [];
    }

    /** All ways out meet here. From now on no setting may be written and no timer runs; a second call changes nothing. */
    method FinalizeSession()
      requires Valid() && session != null
      modifies session
      ensures Valid() && Now() == EndNow(old(Now()), session.generation)
      ensures session.stage.Exiting? && !session.safetyConfirmed && !session.teardown.NotBegun?
      ensures old(session.teardown).NotBegun? ==> !session.idleTimer && !session.orphanTimer
      ensures session.activeJob == old(session.activeJob) && (!old(session.teardown).NotBegun? ==> Now() == old(Now()))
    {
      hide LinkAfter, FreshUpTo;
      StepKeeps(Now(), ForcedEnd(session.generation));
      session.Finalize();
    }

    /** Only one session at a time, and a new transport only when the one before has been closed. */
    method StartSession(client: nat, safetyConfirmed: bool, safe: bool) returns (g: Option<nat>)
      requires Valid()
      modifies this
      ensures Valid() && Now() == Start(old(Now()), client, safetyConfirmed, safe)
      ensures g.Some? <==> !old(destroyed) && old(session) == null && safe
      ensures g.Some? ==> g.value == generationCounter && fresh(session) && old(LinkAfter(link)).Free?
      ensures LinkAfter(link) == if g.Some? then Held(g.value) else old(LinkAfter(link))
    {
      hide FreshUpTo, LinkAfter, Inv, Count;
      StepKeeps(Now(), StartCall(client, safetyConfirmed, safe));
      FreeWithout(Now());
      if destroyed || session != null || !safe {
        return None;
      }
      LinkSnoc(link, Created(generationCounter + 1));
      generationCounter := generationCounter + 1;
      link := link + [Created(generationCounter)];
      session := new InternalSession(generationCounter, client, safetyConfirmed);
      return Some(generationCounter);
    }

    method HandleOpenSettled(g: nat, ok: bool)
      requires Valid()
      modifies session
      ensures Valid() && Now() == OpenSettled(old(Now()), g, ok)
      ensures session != null && session.generation == g ==>
                if ok && old(session.stage).Entering? then session.stage.Active? && session.idleTimer else session.stage.Exiting?
    {
      hide LinkAfter, FreshUpTo;
      StepKeeps(Now(), OpenEnds(g, ok));
      if session == null || session.generation != g {
        return;
      }
      if ok && session.stage.Entering? {
        session.stage, session.idleTimer := Active, true;
      } else {
        session.Finalize();
      }
    }

    /** The owner leaves; refused while a job runs. */
    method ExitSession(client: nat, g: nat) returns (ok: bool)
      requires Valid()
      modifies session
      ensures Valid() && Now() == Exit(old(Now()), client, g)
      ensures ok <==> Owns(old(Now()), client, g) && old(session.activeJob).None?
      ensures ok ==> session.stage.Exiting?
    {
      hide LinkAfter, FreshUpTo;
      StepKeeps(Now(), ExitCall(client, g));
      if session == null || session.generation != g || session.owner != client || session.activeJob.Some? {
        return false;
      }
      session.Finalize();
      return true;
    }

    /** The owner is gone: the acknowledgement goes with it, but a running job is not interrupted. */
    method HandleClientDisconnected(client: nat)
      requires Valid()
      modifies session
      ensures Valid() && Now() == Disconnected(old(Now()), client)
      ensures old(session != null && session.owner == client) ==>
                && !session.safetyConfirmed && session.activeJob == old(session.activeJob)
                && (forall other: nat :: !SettingsWriteAllowed(Now(), other, session.generation))
                && (old(session.activeJob).None? ==> session.stage.Exiting?)
                && (old(session.activeJob).Some? && old(session.teardown).NotBegun? ==>
                      session.stage.Orphaned? && session.orphanTimer && session.teardown.NotBegun?)
      ensures !old(session != null && session.owner == client) ==> Now() == old(Now())
    {
      hide LinkAfter, FreshUpTo;
      StepKeeps(Now(), ClientGone(client));
      if session == null || session.owner != client || session.stage.Exiting? {
        return;
      }
      if session.activeJob.None? {
        session.Finalize();
        return;
      }
      session.safetyConfirmed, session.stage := false, Orphaned;
      session.idleTimer, session.orphanTimer := false, true;
    }

    /** A reclaimed session goes on, but its acknowledgement stays cleared. */
    method ReclaimSession(client: nat, g: nat, tokenMatches: bool) returns (ok: bool)
      requires Valid()
      modifies session
      ensures Valid() && Now() == Reclaim(old(Now()), client, g, tokenMatches)
      ensures ok <==> Current(old(Now()), g) && old(session.stage).Orphaned? && tokenMatches
      ensures ok ==> session.owner == client && session.stage.Active? && !session.safetyConfirmed
                     && session.activeJob == old(session.activeJob)
    {
      hide LinkAfter, FreshUpTo;
      StepKeeps(Now(), ReclaimCall(client, g, tokenMatches));
      if session == null || session.generation != g || !session.stage.Orphaned? || !tokenMatches {
        return false;
      }
      session.owner, session.stage, session.orphanExpired, session.orphanTimer := client, Active, false, false;
      if session.activeJob.None? {
        session.idleTimer := true;
      }
      return true;
    }

    /** It acts only on an active session without a job, even if it was armed during one. */
    method FireIdleTimer(g: nat)
      requires Valid()
      modifies session
      ensures Valid() && Now() == IdleFires(old(Now()), g)
      ensures session != null && old(session.activeJob).Some? ==>
                session.teardown == old(session.teardown) && session.activeJob == old(session.activeJob)
    {
      hide LinkAfter, FreshUpTo;
      StepKeeps(Now(), IdleTimerFires(g));
      if session == null || session.generation != g {
        return;
      }
      session.idleTimer := false;
      if !session.stage.Active? || session.activeJob.Some? {
        return;
      }
      session.Finalize();
    }

    /** The grace period is over; a running job is still allowed to end. */
    method FireOrphanTimer(g: nat)
      requires Valid()
      modifies session
      ensures Valid() && Now() == OrphanFires(old(Now()), g)
      ensures session != null && old(session.activeJob).Some? ==>
                session.teardown == old(session.teardown) && session.activeJob == old(session.activeJob)
    {
      hide LinkAfter, FreshUpTo;
      StepKeeps(Now(), OrphanTimerFires(g));
      if session == null || session.generation != g {
        return;
      }
      session.orphanTimer := false;
      if !session.stage.Orphaned? {
        return;
      }
      session.orphanExpired := true;
      if session.activeJob.None? {
        session.Finalize();
      }
    }

    /** Start an exclusive job, re-checking the safety evidence first. */
    method StartJob(client: nat, safe: bool) returns (job: Option<nat>)
      requires Valid()
      modifies this, session
      ensures Valid() && Now() == RunJob(old(Now()), client, safe) && session == old(session)
      ensures job.Some? <==> JobAccepted(old(Now()), client) && safe
      ensures job.Some? ==> session.activeJob == job && !session.idleTimer && job.value == old(jobCounter) < jobCounter
      ensures JobAccepted(old(Now()), client) && !safe ==> session.stage.Exiting?
    {
      hide LinkAfter, FreshUpTo;
      StepKeeps(Now(), JobCall(client, safe));
      if session == null || session.owner != client || !session.stage.Active? || session.activeJob.Some? {
        return None;
      }
      if !safe {
        session.Finalize();
        return None;
      }
      session.activeJob, session.idleTimer := Some(jobCounter), false;
      jobCounter := jobCounter + 1;
      return Some(jobCounter - 1);
    }

    /** A job has ended. Only an expired orphan is then torn down; an active session is watched again. */
    method FinishJob(g: nat, job: nat)
      requires Valid()
      modifies session
      ensures Valid() && Now() == JobEnds(old(Now()), g, job)
      ensures session != null && session.generation == g ==>
                && session.activeJob != Some(job)
                && (old(session.activeJob) != Some(job) ==> session.activeJob == old(session.activeJob))
                && (session.teardown != old(session.teardown) <==> old(session.stage).Orphaned? && old(session.orphanExpired))
                && (session.stage.Active? ==> session.idleTimer)
    {
      hide LinkAfter, FreshUpTo;
      StepKeeps(Now(), JobDone(g, job));
      if session == null || session.generation != g {
        return;
      }
      if session.activeJob == Some(job) {
        session.activeJob := None;
      }
      if session.stage.Orphaned? && session.orphanExpired {
        session.Finalize();
      } else if session.stage.Active? {
        session.idleTimer := true;
      }
    }

    /** The protocol-level exit is over: close the transport, once. */
    method CloseTransport(g: nat)
      requires Valid()
      modifies this, session
      ensures Valid() && Now() == ProtocolExitDone(old(Now()), g) && session == old(session)
      ensures session != null && session.generation == g && old(session.teardown).ProtocolExit? ==>
                old(LinkAfter(link)) == Held(g) && LinkAfter(link) == Closing(g)
    {
      hide FreshUpTo;
      StepKeeps(Now(), ExitStepDone(g));
      if session == null || session.generation != g || !session.teardown.ProtocolExit? {
        return;
      }
      LinkSnoc(link, CloseCalled(g));
      session.teardown := ClosingTransport;
      link := link + [CloseCalled(g)];
    }

    /** The close is over: the session ends and the next may start. */
    method TransportClosed(g: nat)
      requires Valid()
      modifies this
      ensures Valid() && Now() == CloseDone(old(Now()), g)
      ensures Current(old(Now()), g) && old(session.teardown).ClosingTransport? ==> session == null && LinkAfter(link).Free?
    {
      hide FreshUpTo;
      StepKeeps(Now(), CloseStepDone(g));
      if session == null || session.generation != g || !session.teardown.ClosingTransport? {
        return;
      }
      LinkSnoc(link, CloseFinished(g));
      session := null;
      link := link + [CloseFinished(g)];
    }

    method Shutdown()
      requires Valid()
      modifies `destroyed, session
      ensures Valid() && Now() == Destroy(old(Now()))
      ensures destroyed && (session != null ==> session.stage.Exiting?)
    {
      hide LinkAfter, FreshUpTo;
      StepKeeps(Now(), DestroyCall);
      destroyed := true;
      if session != null {
        session.Finalize();
      }
    }
  }
}
