/** Field by field, what every event makes of the ESC session, and who may write settings after any history. */
module EscOutcomes {
  import opened Bytes
  import opened EscSessionRules

  /** The owner has gone, and the session has noticed. */
  predicate OwnerLost(s: Session, i: Input) {
    i.ClientGone? && s.owner == i.client && !s.stage.Exiting?
  }

  predicate Reclaimed(s: Session, i: Input) {
    i.ReclaimCall? && i.g == s.generation && s.stage.Orphaned? && i.tokenMatches
  }

  /** Events after which a session must end: an opening that fails or comes too late, an exit or a lost owner with no job
      running, an idle or orphan timer with no job running, an unsafe vehicle at the start of a job, the end of the job of
      an expired orphan, and whatever forces the end. */
  predicate MustEnd(s: Session, i: Input) {
    match i
    case OpenEnds(g, ok) => g == s.generation && !(ok && s.stage.Entering?)
    case ExitCall(client, g) => g == s.generation && s.owner == client && s.activeJob.None?
    case ClientGone(client) => OwnerLost(s, i) && s.activeJob.None?
    case IdleTimerFires(g) => g == s.generation && s.stage.Active? && s.activeJob.None?
    case OrphanTimerFires(g) => g == s.generation && s.stage.Orphaned? && s.activeJob.None?
    case JobCall(client, safe) => s.owner == client && s.stage.Active? && s.activeJob.None? && !safe
    case JobDone(g, _) => g == s.generation && s.stage.Orphaned? && s.orphanExpired
    case ForcedEnd(g) => g == s.generation
    case DestroyCall => true
    case _ => false
  }

  /** A teardown begins with such an event, once. */
  predicate BeginsTeardown(s: Session, i: Input) {
    s.teardown.NotBegun? && MustEnd(s, i)
  }

  predicate ClosesTransport(s: Session, i: Input) {
    i == CloseStepDone(s.generation) && s.teardown.ClosingTransport?
  }

  function OwnerAfter(s: Session, i: Input): nat {
    if Reclaimed(s, i) then i.client else s.owner
  }

  /** The acknowledgement lasts until the owner is lost or a teardown begins. */
  predicate ConfirmedAfter(s: Session, i: Input) {
    s.safetyConfirmed && !BeginsTeardown(s, i) && !OwnerLost(s, i)
  }

  function StageAfter(s: Session, i: Input): Stage {
    if BeginsTeardown(s, i) then Exiting
    else if OwnerLost(s, i) then Orphaned
    else if Reclaimed(s, i) || (s.stage.Entering? && i == OpenEnds(s.generation, true)) then Active
    else s.stage
  }

  function JobAfter(m: Manager, s: Session, i: Input): Option<nat> {
    if i.JobCall? && s.owner == i.client && s.stage.Active? && s.activeJob.None? && i.safe then Some(m.jobCounter)
    else if i.JobDone? && i.g == s.generation && s.activeJob == Some(i.job) then None
    else s.activeJob
  }

  /** The idle watchdog runs from the opening, a reclaim without a job, the end of a job, and on every sign of life; it
      stops when it fires, and for a job, a lost owner and the teardown. */
  predicate IdleAfter(m: Manager, s: Session, i: Input) {
    if BeginsTeardown(s, i) || OwnerLost(s, i) || i == IdleTimerFires(s.generation) || JobAfter(m, s, i) == Some(m.jobCounter) then false
    else
      || s.idleTimer
      || (s.stage.Entering? && i == OpenEnds(s.generation, true))
      || (Reclaimed(s, i) && s.activeJob.None?)
      || (i.ActivityNoted? && i.client == s.owner)
      || (i.JobDone? && i.g == s.generation && s.stage.Active?)
  }

  predicate OrphanAfter(s: Session, i: Input) {
    if BeginsTeardown(s, i) || Reclaimed(s, i) || i == OrphanTimerFires(s.generation) then false
    else s.orphanTimer || OwnerLost(s, i)
  }

  /** The grace period of an orphan is over once its timer has fired, until somebody reclaims it. */
  predicate ExpiredAfter(s: Session, i: Input) {
    !Reclaimed(s, i) && (s.orphanExpired || (i == OrphanTimerFires(s.generation) && s.stage.Orphaned?))
  }

  function TeardownAfter(s: Session, i: Input): Teardown {
    if BeginsTeardown(s, i) then ProtocolExit
    else if i == ExitStepDone(s.generation) && s.teardown.ProtocolExit? then ClosingTransport
    else s.teardown
  }

  /** The session after an event, field by field. */
  function SessionFor(m: Manager, s: Session, i: Input): Session {
    Session(s.generation, OwnerAfter(s, i), ConfirmedAfter(s, i), StageAfter(s, i), JobAfter(m, s, i), ExpiredAfter(s, i),
            IdleAfter(m, s, i), OrphanAfter(s, i), TeardownAfter(s, i))
  }

  predicate OwnerEvent(i: Input) {
    i.StartCall? || i.OpenEnds? || i.ExitCall? || i.ClientGone? || i.ReclaimCall? || i.ActivityNoted?
  }

  lemma OwnerEventAfter(m: Manager, i: Input)
    requires Inv(m) && m.session.Some? && OwnerEvent(i)
    ensures Step(m, i).session == Some(SessionFor(m, m.session.value, i))
  {
    hide LinkAfter, Count, FreshUpTo;
  }

  lemma JobEventAfter(m: Manager, i: Input)
    requires Inv(m) && m.session.Some? && (i.JobCall? || i.JobDone? || i.IdleTimerFires? || i.OrphanTimerFires?)
    ensures Step(m, i).session == Some(SessionFor(m, m.session.value, i))
  {
    hide LinkAfter, Count, FreshUpTo;
  }

  lemma EndEventAfter(m: Manager, i: Input)
    requires Inv(m) && m.session.Some? && (i.ForcedEnd? || i.ExitStepDone? || i.CloseStepDone? || i.DestroyCall?)
    ensures Step(m, i).session == if ClosesTransport(m.session.value, i) then None else Some(SessionFor(m, m.session.value, i))
  {
    hide LinkAfter, Count, FreshUpTo;
  }

  /** An event makes of a session exactly this, and a session is there until its transport has been closed. */
  lemma SessionAfter(m: Manager, i: Input)
    requires Inv(m) && m.session.Some?
    ensures Step(m, i).session == if ClosesTransport(m.session.value, i) then None else Some(SessionFor(m, m.session.value, i))
  {
    hide Inv, Step, SessionFor;
    if OwnerEvent(i) {
      OwnerEventAfter(m, i);
    } else if i.JobCall? || i.JobDone? || i.IdleTimerFires? || i.OrphanTimerFires? {
      JobEventAfter(m, i);
    } else {
      EndEventAfter(m, i);
    }
  }

  /** Without a session only a start has an effect: it creates one if the manager lives and the vehicle is safe. */
  lemma NoSession(m: Manager, i: Input)
    requires m.session.None?
    ensures var n := Step(m, i);
            && n.jobCounter == m.jobCounter && n.destroyed == (m.destroyed || i.DestroyCall?)
            && if i.StartCall? && i.safe && !m.destroyed then
                 && n.session == Some(Session(m.generationCounter + 1, i.client, i.confirmed, Entering, None, false, false, false,
                                              NotBegun))
                 && n.generationCounter == m.generationCounter + 1
               else n.session.None? && n.generationCounter == m.generationCounter
  {
  }

  /** Counters and the end of the service. */
  lemma CountersAfter(m: Manager, i: Input)
    requires m.session.Some?
    ensures var n := Step(m, i);
            && n.generationCounter == m.generationCounter && n.destroyed == (m.destroyed || i.DestroyCall?)
            && n.jobCounter == m.jobCounter + if JobAccepted(m, if i.JobCall? then i.client else 0) && i.JobCall? && i.safe then 1 else 0
  {
  }

  // ---------------------------------------------------------------------------------------------------
  // Histories
  // ---------------------------------------------------------------------------------------------------

  /** The state before event `i` of a history. */
  ghost function At(m: Manager, es: seq<Input>, i: nat): Manager
    requires i <= |es|
  {
    if i == 0 then m else Step(At(m, es, i - 1), es[i - 1])
  }

  lemma {:induction false} AtKeeps(m: Manager, es: seq<Input>, i: nat)
    requires Inv(m) && i <= |es|
    ensures Inv(At(m, es, i))
  {
    hide Inv, Step;
    if i > 0 {
      AtKeeps(m, es, i - 1);
      StepKeeps(At(m, es, i - 1), es[i - 1]);
    }
  }

  /** Event `j` starts session `g` with the acknowledgement given. */
  ghost predicate StartsConfirmed(m: Manager, es: seq<Input>, j: nat, g: nat)
    requires j < |es|
  {
    var b := At(m, es, j);
    b.session.None? && es[j].StartCall? && es[j].safe && es[j].confirmed && !b.destroyed && g == b.generationCounter + 1
  }

  /** Event `k` takes the acknowledgement away: the owner is lost or a teardown begins. */
  ghost predicate Clears(m: Manager, es: seq<Input>, k: nat)
    requires k < |es|
  {
    var b := At(m, es, k);
    b.session.Some? && (OwnerLost(b.session.value, es[k]) || BeginsTeardown(b.session.value, es[k]))
  }

  ghost predicate ConfirmedSince(m: Manager, es: seq<Input>, j: nat, i: nat, g: nat)
    requires i <= |es|
  {
    j < i && StartsConfirmed(m, es, j, g) && forall k :: j < k < i ==> !Clears(m, es, k)
  }

  ghost predicate Confirmed(m: Manager, g: nat) {
    Current(m, g) && m.session.value.safetyConfirmed
  }

  lemma ConfirmedStep(m: Manager, i: Input, g: nat)
    requires Inv(m)
    ensures Confirmed(Step(m, i), g)
            <==> (m.session.None? && i.StartCall? && i.safe && i.confirmed && !m.destroyed && g == m.generationCounter + 1)
                 || (Confirmed(m, g) && !OwnerLost(m.session.value, i) && !BeginsTeardown(m.session.value, i))
  {
    hide LinkAfter, Count, FreshUpTo, Step;
    if m.session.None? {
      NoSession(m, i);
    } else {
      SessionAfter(m, i);
      if ClosesTransport(m.session.value, i) {
        ClosingIsCleared(m);
      }
    }
  }

  lemma ClosingIsCleared(m: Manager)
    requires Inv(m) && m.session.Some?
    ensures !m.session.value.teardown.NotBegun? ==> !m.session.value.safetyConfirmed
  {
    hide LinkAfter, Count, FreshUpTo;
  }

  /** In every history: the acknowledgement of a session is in force exactly from the start that gave it until its owner is
      lost or its teardown begins. So settings may be written by its owner of the moment exactly in that time. */
  lemma {:induction false} ConfirmedExactly(m: Manager, es: seq<Input>, i: nat, g: nat)
    requires Inv(m) && m.session.None? && i <= |es|
    ensures Confirmed(At(m, es, i), g) <==> exists j: nat :: ConfirmedSince(m, es, j, i, g)
    decreases i
  {
    hide Inv, Step;
    if i > 0 {
      AtKeeps(m, es, i - 1);
      ConfirmedExactly(m, es, i - 1, g);
      ConfirmedStep(At(m, es, i - 1), es[i - 1], g);
      if Confirmed(At(m, es, i), g) {
        if StartsConfirmed(m, es, i - 1, g) {
          assert ConfirmedSince(m, es, i - 1, i, g);
        } else {
          var j: nat :| ConfirmedSince(m, es, j, i - 1, g);
          assert ConfirmedSince(m, es, j, i, g);
        }
      }
      if exists j: nat :: ConfirmedSince(m, es, j, i, g) {
        var j: nat :| ConfirmedSince(m, es, j, i, g);
        if j < i - 1 {
          assert ConfirmedSince(m, es, j, i - 1, g) && !Clears(m, es, i - 1);
        }
      }
    }
  }

  /** And the owner of the moment is who started the session, or reclaimed it last. */
  lemma WritersExactly(m: Manager, es: seq<Input>, i: nat, client: nat, g: nat)
    requires Inv(m) && m.session.None? && i <= |es|
    ensures SettingsWriteAllowed(At(m, es, i), client, g)
            <==> Owns(At(m, es, i), client, g) && exists j: nat :: ConfirmedSince(m, es, j, i, g)
  {
    hide Inv, Step;
    ConfirmedExactly(m, es, i, g);
  }

  /** A teardown once begun needs only its two steps to free the manager for the next session, whatever comes between. */
  lemma TeardownFrees(m: Manager, g: nat)
    requires Inv(m) && m.session.Some? && m.session.value.generation == g && m.session.value.teardown.ProtocolExit?
    ensures var n := Step(Step(m, ExitStepDone(g)), CloseStepDone(g));
            n.session.None? && n.link == m.link + [CloseCalled(g), CloseFinished(g)]
  {
    hide LinkAfter, Count, FreshUpTo;
  }
}
