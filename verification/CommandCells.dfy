/** One command id of the ground station's command transactions: a request waiting for its ACK, an uncertain window
    after a timeout, or a settling window after an ACK. An ACK names only the command id. */
module CommandCells {
  import opened Bytes

  datatype Link = Link(commandTimeoutMs: nat, bluetooth: bool)

  predicate Proper(link: Link) {
    link.commandTimeoutMs > 0
  }

  function TimeoutMs(link: Link): nat {
    if link.bluetooth then link.commandTimeoutMs * 2 else link.commandTimeoutMs
  }

  function DeadlineMs(link: Link): nat {
    link.commandTimeoutMs * if link.bluetooth then 12 else 8
  }

  function UncertainMs(link: Link): nat {
    if DeadlineMs(link) * 4 > 30000 then DeadlineMs(link) * 4 else 30000
  }

  /** `txn` identifies the request; a zero deadline has not been set yet. */
  datatype Pending = Pending(txn: nat, attempt: nat, maxAttempts: nat, confirmation: nat, deadlineAt: int,
                             timerAt: Option<int>)

  datatype Cell = Cell(pending: Option<Pending>, uncertainUntil: Option<int>, quarantineUntil: Option<int>)

  datatype AckResult = InProgress | TemporarilyRejected | Final

  datatype Outcome = Sent | WriteRejected | Busy | ResultUncertain | Settling

  predicate Live(until: Option<int>, now: int) {
    until.Some? && now < until.value
  }

  /** A mark whose time is over is forgotten when somebody looks at it. */
  function Looked(until: Option<int>, now: int): Option<int> {
    if Live(until, now) then until else None
  }

  function NextConfirmation(n: nat): nat {
    if n + 1 < 255 then n + 1 else 255
  }

  /** The request is abandoned with its result unknown. */
  function GiveUp(link: Link, now: int): Cell {
    Cell(None, Some(now + UncertainMs(link)), None)
  }

  function Schedule(link: Link, c: Cell, p: Pending, now: int, delay: int): Cell {
    var remaining := p.deadlineAt - now;
    if remaining <= 0 then GiveUp(link, now)
    else c.(pending := Some(p.(timerAt := Some(now + if delay < remaining then delay else remaining))))
  }

  function Transmit(link: Link, c: Cell, p: Pending, now: int, accepted: bool): Cell {
    var p1 := p.(attempt := p.attempt + 1, deadlineAt := if p.deadlineAt == 0 then now + DeadlineMs(link) else p.deadlineAt);
    if accepted then Schedule(link, c, p1, now, TimeoutMs(link)) else c.(pending := None)
  }

  function Timeout(link: Link, c: Cell, now: int, accepted: bool): Cell {
    if c.pending.None? then c
    else
      var p := c.pending.value.(timerAt := None);
      if Retries(c, now) then
        Transmit(link, c, p.(confirmation := NextConfirmation(p.confirmation)), now, accepted)
      else GiveUp(link, now)
  }

  predicate Retries(c: Cell, now: int) {
    c.pending.Some? && now < c.pending.value.deadlineAt && c.pending.value.attempt < c.pending.value.maxAttempts
  }

  function FreshPending(txn: nat, maxAttempts: nat): Pending {
    Pending(txn, 0, maxAttempts, 0, 0, None)
  }

  predicate Supersedes(c: Cell, now: int, emergency: bool) {
    emergency && (c.pending.Some? || Live(c.uncertainUntil, now) || Live(c.quarantineUntil, now))
  }

  /** A request to send. An emergency disarm is written at once even while the id is occupied, and is not waited for. */
  function Send(link: Link, c: Cell, now: int, txn: nat, maxAttempts: nat, emergency: bool, accepted: bool): (Cell, Outcome) {
    if Supersedes(c, now, emergency) then (GiveUp(link, now), if accepted then Sent else WriteRejected)
    else if c.pending.Some? then (c, Busy)
    else if Live(c.uncertainUntil, now) then (c, ResultUncertain)
    else if Live(c.quarantineUntil, now) then (c.(uncertainUntil := None), Settling)
    else
      (Transmit(link, Cell(None, None, None), FreshPending(txn, maxAttempts), now, accepted),
       if accepted then Sent else WriteRejected)
  }

  /** An ACK for this id: whom it is reported for, whether it is reported as stale, and what becomes of the id. */
  datatype AckReport = AckReport(creditedTo: Option<nat>, stale: bool)

  function Report(c: Cell, now: int): AckReport {
    if c.pending.Some? then AckReport(Some(c.pending.value.txn), false)
    else AckReport(None, Live(c.uncertainUntil, now) || Live(c.quarantineUntil, now))
  }

  function Ack(link: Link, c: Cell, now: int, result: AckResult, accepted: bool): Cell {
    if c.pending.None? then
      if Report(c, now).stale && !result.InProgress? then Cell(None, None, Some(now + TimeoutMs(link)))
      else
        Cell(None, Looked(c.uncertainUntil, now),
             if Live(c.uncertainUntil, now) then c.quarantineUntil else Looked(c.quarantineUntil, now))
    else
      var p := c.pending.value;
      if result.InProgress? then Schedule(link, c, p.(timerAt := None), now, TimeoutMs(link) * 4)
      else if result.TemporarilyRejected? && p.attempt < p.maxAttempts then
        Transmit(link, c, p.(timerAt := None, confirmation := NextConfirmation(p.confirmation)), now, accepted)
      else Cell(None, c.uncertainUntil, Some(now + TimeoutMs(link)))
  }

  // ---------------------------------------------------------------------------------------------------
  // Runs against a link on which ACKs travel
  // ---------------------------------------------------------------------------------------------------

  /** The packets written and not finally acknowledged: (request, attempt) and when each was written. */
  type Flights = map<(nat, nat), int>

  datatype World = World(cell: Cell, flights: Flights, clock: int, nextTxn: nat)

  datatype Event =
    | Request(maxAttempts: nat, emergency: bool, accepted: bool)
    | TimerFires(accepted: bool)
    | AckArrives(origin: (nat, nat), result: AckResult, accepted: bool)

  /** What the environment may do: requests allow one or two attempts; a timer never fires early; an ACK answers some
      packet still waiting for one, less than the link timeout after it was written. */
  predicate Allowed(link: Link, w: World, e: Event, now: int) {
    now >= w.clock >= 0 &&
    match e
    case Request(n, _, _) => 1 <= n <= 2
    case TimerFires(_) => w.cell.pending.Some? && w.cell.pending.value.timerAt.Some? && now >= w.cell.pending.value.timerAt.value
    case AckArrives(origin, _, _) => origin in w.flights && now < w.flights[origin] + TimeoutMs(link)
  }

  function Written(f: Flights, key: (nat, nat), now: int, accepted: bool): Flights {
    if accepted then f[key := now] else f
  }

  function Step(link: Link, w: World, e: Event, now: int): World
    requires Allowed(link, w, e, now)
  {
    var c := w.cell;
    match e
    case Request(n, emergency, accepted) =>
      var (c', outcome) := Send(link, c, now, w.nextTxn, n, emergency, accepted);
      World(c', Written(w.flights, (w.nextTxn, 1), now, outcome.Sent?), now, w.nextTxn + 1)
    case TimerFires(accepted) =>
      World(Timeout(link, c, now, accepted),
            if Retries(c, now) then Written(w.flights, (c.pending.value.txn, c.pending.value.attempt + 1), now, accepted) else w.flights,
            now, w.nextTxn)
    case AckArrives(origin, result, accepted) =>
      var left := if result.InProgress? then w.flights else w.flights - {origin};
      World(Ack(link, c, now, result, accepted),
            if c.pending.Some? && result.TemporarilyRejected? && c.pending.value.attempt < c.pending.value.maxAttempts
            then Written(left, (c.pending.value.txn, c.pending.value.attempt + 1), now, accepted) else left,
            now, w.nextTxn)
  }

  /** At most one of the three states holds; attempts stay within bounds; the timer is armed and not after the deadline. */
  ghost predicate Orderly(c: Cell) {
    && !(c.uncertainUntil.Some? && c.quarantineUntil.Some?)
    && (c.pending.Some? ==>
          var p := c.pending.value;
          && c.uncertainUntil.None? && c.quarantineUntil.None?
          && 1 <= p.attempt <= p.maxAttempts <= 2
          && p.timerAt.Some? && p.timerAt.value <= p.deadlineAt && 0 < p.deadlineAt)
  }

  /** No answer can come any more. */
  predicate Silent(link: Link, sentAt: int, moment: int) {
    sentAt + TimeoutMs(link) <= moment
  }

  /** Every packet that could still be answered belongs to the waiting request, or is outlived by the mark. */
  ghost predicate Accounted(link: Link, w: World) {
    forall k :: k in w.flights ==> k.0 < w.nextTxn && w.flights[k] <= w.clock && PacketAccounted(link, w.cell, w.clock, k, w.flights[k])
  }

  predicate PacketAccounted(link: Link, c: Cell, clock: int, k: (nat, nat), sentAt: int) {
    Silent(link, sentAt, clock)
    || match c.pending
       case Some(p) => k.0 == p.txn && k.1 <= p.attempt
                       && (p.attempt == 1 ==> p.timerAt.Some? && Silent(link, sentAt, p.timerAt.value))
       case None => (c.uncertainUntil.Some? && Silent(link, sentAt, c.uncertainUntil.value))
                    || (c.quarantineUntil.Some? && Silent(link, sentAt, c.quarantineUntil.value))
  }

  ghost predicate Inv(link: Link, w: World) {
    && Proper(link) && Orderly(w.cell) && Accounted(link, w)
    && (w.cell.pending.Some? ==> w.cell.pending.value.txn < w.nextTxn && 1 <= w.cell.pending.value.attempt)
    && (w.cell.pending.Some? && w.cell.pending.value.attempt == 1 ==>
          forall k :: k in w.flights && k.0 == w.cell.pending.value.txn ==> k.1 == 1)
  }

  /** An answer in time is credited to the request it answers, or reported as stale: never to another request. */
  lemma AckIsAttributed(link: Link, w: World, e: Event, now: int)
    requires Inv(link, w) && Allowed(link, w, e, now) && e.AckArrives?
    ensures var report := Report(w.cell, now);
            report == AckReport(Some(e.origin.0), false) || report == AckReport(None, true)
  {
  }

  lemma RequestKeeps(link: Link, w: World, e: Event, now: int)
    requires Inv(link, w) && Allowed(link, w, e, now) && e.Request?
    ensures Inv(link, Step(link, w, e, now))
  {
  }

  lemma TimerKeeps(link: Link, w: World, e: Event, now: int)
    requires Inv(link, w) && Allowed(link, w, e, now) && e.TimerFires?
    ensures Inv(link, Step(link, w, e, now))
  {
  }

  lemma AckKeeps(link: Link, w: World, e: Event, now: int)
    requires Inv(link, w) && Allowed(link, w, e, now) && e.AckArrives?
    ensures Inv(link, Step(link, w, e, now))
  {
    AckIsAttributed(link, w, e, now);
  }

  lemma StepKeeps(link: Link, w: World, e: Event, now: int)
    requires Inv(link, w) && Allowed(link, w, e, now)
    ensures Inv(link, Step(link, w, e, now))
  {
    hide Inv, Step;
    match e {
      case Request(_, _, _) => RequestKeeps(link, w, e, now);
      case TimerFires(_) => TimerKeeps(link, w, e, now);
      case AckArrives(_, _, _) => AckKeeps(link, w, e, now);
    }
  }

  datatype Timed = Timed(event: Event, now: int)

  ghost predicate AllowedRun(link: Link, w: World, es: seq<Timed>)
    decreases |es|
  {
    es == [] || (Allowed(link, w, es[0].event, es[0].now)
                 && AllowedRun(link, Step(link, w, es[0].event, es[0].now), es[1..]))
  }

  /** The world before event `i` of a run. */
  ghost function Before(link: Link, w: World, es: seq<Timed>, i: nat): World
    requires AllowedRun(link, w, es) && i <= |es|
    decreases i
  {
    if i == 0 then w else Before(link, Step(link, w, es[0].event, es[0].now), es[1..], i - 1)
  }

  function Start(clock: nat): World {
    World(Cell(None, None, None), map[], clock, 0)
  }

  /** In every run between two target resets every answer is credited to the request it answers or reported as stale,
      emergency disarms and refused writes included; the three states of an id exclude each other; and no request is
      written more often than it allows. */
  lemma {:induction false} RunIsAttributed(link: Link, w: World, es: seq<Timed>, i: nat)
    requires Inv(link, w) && AllowedRun(link, w, es) && i < |es|
    ensures Inv(link, Before(link, w, es, i))
    ensures es[i].event.AckArrives? ==>
              var report := Report(Before(link, w, es, i).cell, es[i].now);
              report == AckReport(Some(es[i].event.origin.0), false) || report == AckReport(None, true)
    decreases i
  {
    hide Inv, Step, Report, Allowed;
    if i == 0 {
      if es[0].event.AckArrives? {
        AckIsAttributed(link, w, es[0].event, es[0].now);
      }
    } else {
      StepKeeps(link, w, es[0].event, es[0].now);
      RunIsAttributed(link, Step(link, w, es[0].event, es[0].now), es[1..], i - 1);
    }
  }

  lemma RunFromStart(link: Link, clock: nat, es: seq<Timed>, i: nat)
    requires Proper(link) && AllowedRun(link, Start(clock), es) && i < |es| && es[i].event.AckArrives?
    ensures var report := Report(Before(link, Start(clock), es, i).cell, es[i].now);
            report == AckReport(Some(es[i].event.origin.0), false) || report == AckReport(None, true)
  {
    hide Before, AllowedRun, Report;
    RunIsAttributed(link, Start(clock), es, i);
  }

  /** A waiting request keeps the deadline it got with its first packet. */
  lemma DeadlineStands(link: Link, w: World, e: Event, now: int)
    requires Inv(link, w) && Allowed(link, w, e, now)
    requires Step(link, w, e, now).cell.pending.Some?
    ensures var p := Step(link, w, e, now).cell.pending.value;
            && (w.cell.pending.Some? ==> p.txn == w.cell.pending.value.txn && p.deadlineAt == w.cell.pending.value.deadlineAt)
            && (w.cell.pending.None? ==> p.txn == w.nextTxn && p.deadlineAt == now + DeadlineMs(link))
  {
    hide Accounted;
  }

  /** At or after the deadline a timer or an ACK of any kind, progress reports included, ends the wait. */
  lemma PastDeadlineEnds(link: Link, w: World, e: Event, now: int)
    requires Inv(link, w) && Allowed(link, w, e, now) && !e.Request?
    requires w.cell.pending.Some? && now >= w.cell.pending.value.deadlineAt
    ensures Step(link, w, e, now).cell.pending.None?
  {
    hide Accounted;
  }

  /** While timers fire on time, nothing is still waiting after the deadline, however many progress reports came. */
  ghost predicate Prompt(w: World, now: int) {
    w.cell.pending.Some? && w.cell.pending.value.timerAt.Some? ==> now <= w.cell.pending.value.timerAt.value
  }

  lemma {:induction false} PromptRunsReleaseInTime(link: Link, w: World, es: seq<Timed>, i: nat)
    requires Inv(link, w) && AllowedRun(link, w, es) && i < |es|
    requires forall j :: 0 <= j < |es| ==> Prompt(Before(link, w, es, j), es[j].now)
    ensures var c := Before(link, w, es, i).cell; c.pending.Some? ==> es[i].now <= c.pending.value.deadlineAt
  {
    hide Inv, Step, Allowed, Before, AllowedRun;
    RunIsAttributed(link, w, es, i);
    assert Prompt(Before(link, w, es, i), es[i].now);
    assert Orderly(Before(link, w, es, i).cell) by { InvIsOrderly(link, Before(link, w, es, i)); }
  }

  lemma InvIsOrderly(link: Link, w: World)
    requires Inv(link, w)
    ensures Orderly(w.cell)
  {
  }

  /** The bound on the answer time is needed: an answer to a first attempt that comes two link timeouts late is credited
      to the next request. */
  lemma LateAnswerIsMiscredited(link: Link)
    requires Proper(link)
    ensures var t := TimeoutMs(link);
            var es := [Timed(Request(2, false, true), 0), Timed(TimerFires(true), t),
                       Timed(AckArrives((0, 2), Final, true), t), Timed(Request(1, false, true), 2 * t)];
            && AllowedRun(link, Start(0), es)
            && var w := Before(link, Start(0), es, 4);
               (0, 1) in w.flights && w.flights[(0, 1)] == 0 && Report(w.cell, 2 * t) == AckReport(Some(1), false)
  {
    var t := TimeoutMs(link);
    var e0, e1 := Timed(Request(2, false, true), 0), Timed(TimerFires(true), t);
    var e2, e3 := Timed(AckArrives((0, 2), Final, true), t), Timed(Request(1, false, true), 2 * t);
    var w1 := Step(link, Start(0), e0.event, 0);
    assert w1 == World(Cell(Some(Pending(0, 1, 2, 0, DeadlineMs(link), Some(t))), None, None), map[(0, 1) := 0], 0, 1);
    var w2 := Step(link, w1, e1.event, t);
    assert w2.cell.pending.Some? && w2.flights == map[(0, 1) := 0, (0, 2) := t];
    var w3 := Step(link, w2, e2.event, t);
    assert w3.flights == map[(0, 1) := 0] && w3.cell == Cell(None, None, Some(2 * t));
    var w4 := Step(link, w3, e3.event, 2 * t);
    assert [e0, e1, e2, e3][1..] == [e1, e2, e3] && [e1, e2, e3][1..] == [e2, e3] && [e2, e3][1..] == [e3] && [e3][1..] == [];
    assert AllowedRun(link, w4, []);
    assert AllowedRun(link, w3, [e3]);
    assert AllowedRun(link, w2, [e2, e3]);
    assert AllowedRun(link, w1, [e1, e2, e3]);
    assert Before(link, w3, [e3], 1) == Before(link, w4, [], 0) == w4;
    assert Before(link, w2, [e2, e3], 2) == Before(link, w3, [e3], 1);
    assert Before(link, w1, [e1, e2, e3], 3) == Before(link, w2, [e2, e3], 2);
  }
}
