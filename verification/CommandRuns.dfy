/** When a request is waiting for its ACK, told by the events of a run: from the moment it is written on a free id until
    something ends it. An answer is reported as stale only when its request is no longer waiting. */
module CommandRuns {
  import opened Bytes
  import opened CommandCells

  predicate Occupied(c: Cell, now: int) {
    c.pending.Some? || Live(c.uncertainUntil, now) || Live(c.quarantineUntil, now)
  }

  function Earlier(a: int, b: int): int {
    if a < b then a else b
  }

  /** The request of this event begins to wait: the id is free and the link takes the packet. */
  predicate Opens(c: Cell, e: Event, now: int) {
    e.Request? && e.accepted && !Occupied(c, now)
  }

  /** The waiting request is written once more, or should be. */
  predicate Resends(p: Pending, e: Event, now: int) {
    && p.attempt < p.maxAttempts
    && match e
       case Request(_, _, _) => false
       case TimerFires(_) => now < p.deadlineAt
       case AckArrives(_, result, _) => result.TemporarilyRejected?
  }

  /** What ends the wait: an emergency disarm, a refused packet, an ACK that is not asked to be followed by another, and
      after the deadline or without attempts left every timer. */
  predicate Closes(p: Pending, e: Event, now: int) {
    match e
    case Request(_, emergency, _) => emergency
    case TimerFires(accepted) => now >= p.deadlineAt || p.attempt >= p.maxAttempts || !accepted
    case AckArrives(_, InProgress, _) => now >= p.deadlineAt
    case AckArrives(_, TemporarilyRejected, accepted) => now >= p.deadlineAt || p.attempt >= p.maxAttempts || !accepted
    case AckArrives(_, Final, _) => true
  }

  /** A waiting request after an event that does not end its wait. */
  function StillWaiting(link: Link, p: Pending, e: Event, now: int): Pending {
    if Resends(p, e, now) then
      p.(attempt := p.attempt + 1, confirmation := if p.confirmation < 254 then p.confirmation + 1 else 255,
         timerAt := Some(Earlier(now + TimeoutMs(link), p.deadlineAt)))
    else if e.AckArrives? then p.(timerAt := Some(Earlier(now + 4 * TimeoutMs(link), p.deadlineAt)))
    else p
  }

  /** The mark an ended wait leaves: after a final ACK the id settles; after a refused packet it is free; otherwise the
      result is uncertain for at least 30 seconds and four deadlines. */
  predicate Marked(link: Link, c: Cell, p: Pending, e: Event, now: int) {
    if Resends(p, e, now) && !e.accepted then
      c == Cell(None, None, None)
    else if e.AckArrives? && !e.result.InProgress? && !Resends(p, e, now) then
      c == Cell(None, None, Some(now + TimeoutMs(link)))
    else
      && c.pending.None? && c.quarantineUntil.None?
      && c.uncertainUntil.Some? && c.uncertainUntil.value >= now + 30000 && c.uncertainUntil.value >= now + 4 * DeadlineMs(link)
      && (c.uncertainUntil.value == now + 30000 || c.uncertainUntil.value == now + 4 * DeadlineMs(link))
  }

  /** The marks in force are the same from now on. */
  ghost predicate SameMarks(c: Cell, d: Cell, now: int) {
    forall later: int :: later >= now ==>
      (Live(c.uncertainUntil, later) <==> Live(d.uncertainUntil, later))
      && (Live(c.quarantineUntil, later) <==> Live(d.quarantineUntil, later))
  }

  /** An event while a request waits: the request goes on waiting, or its wait ends with the mark for it. */
  lemma WaitGoesOnExactly(link: Link, w: World, e: Event, now: int)
    requires Inv(link, w) && Allowed(link, w, e, now) && w.cell.pending.Some?
    ensures var p, d := w.cell.pending.value, Step(link, w, e, now).cell;
            if Closes(p, e, now) then Marked(link, d, p, e, now)
            else d == Cell(Some(StillWaiting(link, p, e, now)), None, None)
  {
    hide Accounted;
  }

  /** An event on an id nobody waits for: a request accepted on a free id begins to wait; an answer in a window begins
      the settling window anew; everything else changes nothing that counts. */
  lemma NobodyWaits(link: Link, w: World, e: Event, now: int)
    requires Inv(link, w) && Allowed(link, w, e, now) && w.cell.pending.None?
    ensures var d := Step(link, w, e, now).cell;
            if Opens(w.cell, e, now) then
              d == Cell(Some(Pending(w.nextTxn, 1, e.maxAttempts, 0, now + DeadlineMs(link),
                                     Some(now + TimeoutMs(link)))), None, None)
            else if e.Request? && e.emergency && Occupied(w.cell, now) then
              d.pending.None? && d.quarantineUntil.None? && d.uncertainUntil.Some? && d.uncertainUntil.value >= now + 30000
            else if e.AckArrives? && Occupied(w.cell, now) && !e.result.InProgress? then
              d == Cell(None, None, Some(now + TimeoutMs(link)))
            else
              d.pending.None? && SameMarks(w.cell, d, now)
  {
    hide Accounted;
  }

  /** The packets written by an event: the request's own, if the id is free or it is an emergency, or one repetition. */
  lemma WrittenExactly(link: Link, w: World, e: Event, now: int)
    requires Inv(link, w) && Allowed(link, w, e, now)
    ensures var before := if e.AckArrives? && !e.result.InProgress? then w.flights - {e.origin} else w.flights;
            Step(link, w, e, now).flights
            == if e.Request? && e.accepted && (e.emergency || !Occupied(w.cell, now)) then before[(w.nextTxn, 1) := now]
               else if w.cell.pending.Some? && Resends(w.cell.pending.value, e, now) && e.accepted
               then before[(w.cell.pending.value.txn, w.cell.pending.value.attempt + 1) := now]
               else before
  {
    hide Accounted;
  }

  // ---------------------------------------------------------------------------------------------------
  // Runs
  // ---------------------------------------------------------------------------------------------------

  ghost predicate Waits(w: World, txn: nat) {
    w.cell.pending.Some? && w.cell.pending.value.txn == txn
  }

  /** Event `j` of the run began the wait of this request, and no event before `i` has ended it. */
  ghost predicate WaitsSince(link: Link, w: World, es: seq<Timed>, j: nat, i: nat, txn: nat)
    requires AllowedRun(link, w, es) && i <= |es|
  {
    && j < i
    && Opens(Before(link, w, es, j).cell, es[j].event, es[j].now) && Before(link, w, es, j).nextTxn == txn
    && forall k :: j < k < i ==> !EndsWait(link, w, es, k)
  }

  ghost predicate EndsWait(link: Link, w: World, es: seq<Timed>, k: nat)
    requires AllowedRun(link, w, es) && k < |es|
  {
    var c := Before(link, w, es, k).cell;
    c.pending.Some? && Closes(c.pending.value, es[k].event, es[k].now)
  }

  lemma {:induction false} BeforeNext(link: Link, w: World, es: seq<Timed>, i: nat)
    requires AllowedRun(link, w, es) && i < |es|
    ensures Allowed(link, Before(link, w, es, i), es[i].event, es[i].now)
    ensures Before(link, w, es, i + 1) == Step(link, Before(link, w, es, i), es[i].event, es[i].now)
    decreases i
  {
    hide Step, Allowed;
    if i > 0 {
      BeforeNext(link, Step(link, w, es[0].event, es[0].now), es[1..], i - 1);
    }
  }

  /** One event of a run: who waits after it. */
  lemma WaitStep(link: Link, w: World, es: seq<Timed>, i: nat, txn: nat)
    requires Inv(link, w) && AllowedRun(link, w, es) && i < |es|
    ensures Waits(Before(link, w, es, i + 1), txn)
            <==> (Waits(Before(link, w, es, i), txn) && !EndsWait(link, w, es, i))
                 || (Opens(Before(link, w, es, i).cell, es[i].event, es[i].now) && Before(link, w, es, i).nextTxn == txn)
  {
    hide Inv, Step, Before, Allowed, AllowedRun;
    BeforeNext(link, w, es, i);
    RunIsAttributed(link, w, es, i);
    var b := Before(link, w, es, i);
    if b.cell.pending.Some? {
      WaitGoesOnExactly(link, b, es[i].event, es[i].now);
    } else {
      NobodyWaits(link, b, es[i].event, es[i].now);
    }
  }

  /** A request waits exactly from the event that wrote it on a free id until the first event that ends its wait. */
  lemma {:induction false} WaitsExactly(link: Link, w: World, es: seq<Timed>, i: nat, txn: nat)
    requires Inv(link, w) && AllowedRun(link, w, es) && i <= |es| && w.cell.pending.None?
    ensures Waits(Before(link, w, es, i), txn) <==> exists j: nat :: WaitsSince(link, w, es, j, i, txn)
    decreases i
  {
    hide Inv, Step, Allowed, AllowedRun, Opens, EndsWait;
    if i == 0 {
      assert Before(link, w, es, 0) == w;
    } else {
      WaitsExactly(link, w, es, i - 1, txn);
      WaitStep(link, w, es, i - 1, txn);
      if Waits(Before(link, w, es, i), txn) {
        if Waits(Before(link, w, es, i - 1), txn) && !EndsWait(link, w, es, i - 1) {
          var j: nat :| WaitsSince(link, w, es, j, i - 1, txn);
          assert WaitsSince(link, w, es, j, i, txn);
        } else {
          assert WaitsSince(link, w, es, i - 1, i, txn);
        }
      }
      if exists j: nat :: WaitsSince(link, w, es, j, i, txn) {
        var j: nat :| WaitsSince(link, w, es, j, i, txn);
        if j < i - 1 {
          assert WaitsSince(link, w, es, j, i - 1, txn);
        }
      }
    }
  }

  /** In every run from the start an answer in time is credited to its request exactly while that request waits;
      otherwise, and only then, it is reported as stale. */
  lemma CreditedExactly(link: Link, clock: nat, es: seq<Timed>, i: nat)
    requires Proper(link) && AllowedRun(link, Start(clock), es) && i < |es| && es[i].event.AckArrives?
    ensures Report(Before(link, Start(clock), es, i).cell, es[i].now)
            == if exists j: nat :: WaitsSince(link, Start(clock), es, j, i, es[i].event.origin.0)
               then AckReport(Some(es[i].event.origin.0), false) else AckReport(None, true)
  {
    hide Before, AllowedRun, WaitsSince;
    RunFromStart(link, clock, es, i);
    WaitsExactly(link, Start(clock), es, i, es[i].event.origin.0);
  }
}
