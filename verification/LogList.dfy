/** Listing the logs of a flight controller: replies stream in without transaction ids, in any order and number; what is
    still missing is asked for again when the link has been quiet. Also the check that follows an erase. */
module LogList {
  import opened Bytes

  const REQUEST_MAX_ATTEMPTS := 4
  const MAX_LIST_ENTRIES := 2000
  const LIST_MAX_FRAMES := MAX_LIST_ENTRIES * 4
  const LIST_MAX_NO_PROGRESS_FRAMES := 512
  const ERASE_VERIFY_MAX_ROUNDS := 5

  datatype LogEntry = LogEntry(id: nat, timeUtcMs: Option<nat>, sizeBytes: nat)

  datatype Reply = Reply(id: nat, numLogs: nat, lastLogNum: nat, timeUtc: nat, size: nat)

  datatype ListError = Cancelled | ListTimeout | ListOverflow | WriteRejected

  datatype Outcome = Open | Listed(entries: seq<LogEntry>) | Failed(error: ListError)

  function ToEntry(r: Reply): LogEntry {
    LogEntry(r.id, if r.timeUtc > 0 then Some(r.timeUtc * 1000) else None, r.size)
  }

  function Larger(a: int, b: int): int { if a < b then b else a }

  function Smaller(a: int, b: int): int { if a < b then a else b }

  datatype Event = Heard(reply: Reply) | Quiet(linkTakes: bool) | CancelAsked

  /** Does the reply carry an entry for the window? */
  predicate Carries(r: Reply, start: nat, end: nat) {
    r.numLogs > 0 && start <= r.id <= end
  }

  /** Does the reply say that the vehicle has a log of this id in the window? */
  predicate Advertises(r: Reply, start: nat, end: nat, id: int) {
    r.numLogs > 0 && Larger(start, r.lastLogNum - r.numLogs + 1) <= id <= Smaller(end, r.lastLogNum)
  }

  /** What a window's replies amount to: for every id the first entry heard. */
  ghost function Gathered(heard: seq<Reply>, start: nat, end: nat): map<nat, LogEntry> {
    if heard == [] then map[]
    else
      var before := Gathered(heard[..|heard| - 1], start, end);
      var r := heard[|heard| - 1];
      if Carries(r, start, end) && r.id !in before then before[r.id := ToEntry(r)] else before
  }

  /** Is the last reply the one that completes the list? */
  ghost predicate Completes(heard: seq<Reply>, start: nat, end: nat) {
    && heard != []
    && var r := heard[|heard| - 1];
       var entries := Gathered(heard, start, end);
       r.numLogs == 0 || (entries != map[] && forall id: nat :: Advertises(r, start, end, id) ==> id in entries)
  }

  /** The gathered entries by rising id. */
  function InOrder(entries: map<nat, LogEntry>, lo: nat, hi: int): seq<LogEntry>
    decreases hi + 1 - lo
  {
    if hi < lo then []
    else (if lo in entries then [entries[lo]] else []) + InOrder(entries, lo + 1, hi)
  }

  ghost predicate HeardAs(heard: seq<Reply>, start: nat, end: nat, id: nat, entry: LogEntry) {
    exists i :: 0 <= i < |heard| && heard[i].id == id && Carries(heard[i], start, end) && Lists(heard[i], entry)
  }

  /** The reply's own id and size; seconds count a thousandfold, and zero seconds mean no time. */
  predicate Lists(r: Reply, entry: LogEntry) {
    && entry.id == r.id && entry.sizeBytes == r.size && (entry.timeUtcMs.None? <==> r.timeUtc == 0)
    && (entry.timeUtcMs.Some? ==> entry.timeUtcMs.value == 1000 * r.timeUtc)
  }

  lemma HeardAsGrows(heard: seq<Reply>, r: Reply, start: nat, end: nat, id: nat, entry: LogEntry)
    ensures HeardAs(heard, start, end, id, entry) ==> HeardAs(heard + [r], start, end, id, entry)
    ensures r.id == id && Carries(r, start, end) && Lists(r, entry) ==> HeardAs(heard + [r], start, end, id, entry)
  {
    if HeardAs(heard, start, end, id, entry) {
      var i :| 0 <= i < |heard| && heard[i].id == id && Carries(heard[i], start, end) && Lists(heard[i], entry);
      assert (heard + [r])[i] == heard[i];
    }
    assert (heard + [r])[|heard|] == r;
  }

  lemma {:induction false} GatheredIsHeard(heard: seq<Reply>, start: nat, end: nat)
    ensures forall id :: id in Gathered(heard, start, end)
                    ==> start <= id <= end && HeardAs(heard, start, end, id, Gathered(heard, start, end)[id])
    ensures forall i :: 0 <= i < |heard| && Carries(heard[i], start, end) ==> heard[i].id in Gathered(heard, start, end)
    ensures |Gathered(heard, start, end)| <= |heard|
  {
    hide HeardAs;
    if heard != [] {
      var before, r := heard[..|heard| - 1], heard[|heard| - 1];
      GatheredIsHeard(before, start, end);
      assert heard == before + [r];
      forall id | id in Gathered(heard, start, end)
        ensures HeardAs(heard, start, end, id, Gathered(heard, start, end)[id])
      {
        HeardAsGrows(before, r, start, end, id, Gathered(heard, start, end)[id]);
      }
    }
  }

  /** How far a listing has come: `armed` tells whether its timer will fire, `written` how many requests the link took. */
  datatype Progress = Progress(outcome: Outcome, heard: seq<Reply>, cancelled: bool, attempts: nat, armed: bool, written: nat)

  /** The outcome after one more reply to an open listing, and the replies then taken into account. */
  ghost function AfterReply(heard: seq<Reply>, r: Reply, start: nat, end: nat): (Outcome, seq<Reply>) {
    if |heard| >= |Gathered(heard, start, end)| + LIST_MAX_NO_PROGRESS_FRAMES then (Failed(ListOverflow), heard)
    else
      var more := heard + [r];
      (if |Gathered(more, start, end)| > MAX_LIST_ENTRIES then Failed(ListOverflow)
       else if Completes(more, start, end) then Listed(InOrder(Gathered(more, start, end), start, end))
       else Open, more)
  }

  /** The end of an open listing; one that has ended keeps its outcome. */
  function Settled(outcome: Outcome, result: Outcome): Outcome {
    if outcome.Open? then result else outcome
  }

  ghost function Advance(p: Progress, e: Event, start: nat, end: nat): Progress {
    match e
    case Heard(r) =>
      if !p.outcome.Open? then p
      else if p.cancelled then p.(outcome := Failed(Cancelled), armed := false)
      else
        var (outcome, heard) := AfterReply(p.heard, r, start, end);
        p.(outcome := outcome, heard := heard, armed := outcome.Open?)
    case Quiet(takes) =>
      if !p.armed then p
      else if p.cancelled then p.(outcome := Settled(p.outcome, Failed(Cancelled)), armed := false)
      else if p.attempts + 1 >= REQUEST_MAX_ATTEMPTS then
        p.(attempts := p.attempts + 1, outcome := Settled(p.outcome, Failed(ListTimeout)), armed := false)
      else if takes then p.(attempts := p.attempts + 1, written := p.written + 1)
      else p.(attempts := p.attempts + 1, outcome := Settled(p.outcome, Failed(WriteRejected)))
    case CancelAsked => p.(cancelled := true)
  }

  ghost function RunOf(linkTakes: bool, events: seq<Event>, start: nat, end: nat): Progress {
    if events == [] then
      Progress(if linkTakes then Open else Failed(WriteRejected), [], false, 0, true, if linkTakes then 1 else 0)
    else Advance(RunOf(linkTakes, events[..|events| - 1], start, end), events[|events| - 1], start, end)
  }

  lemma {:induction false} InOrderMeans(entries: map<nat, LogEntry>, lo: nat, hi: int)
    requires forall id :: id in entries ==> entries[id].id == id
    ensures var s := InOrder(entries, lo, hi);
            && (forall e :: e in s <==> lo <= e.id <= hi && e.id in entries && entries[e.id] == e)
            && (forall i, j :: 0 <= i < j < |s| ==> s[i].id < s[j].id)
            && (s == [] <==> forall id: nat :: lo <= id <= hi ==> id !in entries)
    decreases hi + 1 - lo
  {
    if lo <= hi {
      InOrderMeans(entries, lo + 1, hi);
      var rest := InOrder(entries, lo + 1, hi);
      forall i | 0 <= i < |rest| ensures lo < rest[i].id {
        assert rest[i] in rest;
      }
    }
  }

  lemma GatherOne(heard: seq<Reply>, r: Reply, start: nat, end: nat)
    ensures var before := Gathered(heard, start, end);
            Gathered(heard + [r], start, end)
            == if Carries(r, start, end) && r.id !in before then before[r.id := ToEntry(r)] else before
  {
    assert (heard + [r])[..|heard|] == heard;
  }

  lemma {:induction false} GatheredIds(heard: seq<Reply>, start: nat, end: nat)
    ensures forall id :: id in Gathered(heard, start, end) ==> Gathered(heard, start, end)[id].id == id
  {
    GatheredIsHeard(heard, start, end);
  }

  /** One enumeration of the logs in a window of ids. */
  class ListCollector {
    const start: nat
    const end: nat
    var entriesById: map<nat, LogEntry>
    var numLogs: Option<nat>
    var lastLogNum: Option<nat>
    var attempts: nat
    var frames: nat
    var noProgressFrames: nat
    var timerArmed: bool
    var cancelRequested: bool
    var outcome: Outcome
    /** The windows asked for, in the order the link took them. */
    var requests: seq<(nat, nat)>
    /** The replies taken into account. */
    ghost var heard: seq<Reply>

    /** The fields agree with the replies taken into account. */
    ghost predicate Tracks()
      reads this
    {
      && start <= end
      && entriesById == Gathered(heard, start, end)
      && (heard == [] ==> numLogs.None? && lastLogNum.None?)
      && (heard != [] ==> numLogs == Some(heard[|heard| - 1].numLogs) && lastLogNum == Some(heard[|heard| - 1].lastLogNum))
    }

    ghost predicate Valid()
      reads this
    {
      && Tracks()
      && |requests| <= 1 + Smaller(attempts, REQUEST_MAX_ATTEMPTS - 1) && attempts <= REQUEST_MAX_ATTEMPTS
      && (timerArmed ==> attempts < REQUEST_MAX_ATTEMPTS)
      && |heard| == |entriesById| + noProgressFrames && |heard| <= frames <= MAX_LIST_ENTRIES + LIST_MAX_NO_PROGRESS_FRAMES + 1
      && noProgressFrames <= LIST_MAX_NO_PROGRESS_FRAMES
      && (outcome.Open? ==>
            timerArmed && frames == |heard| && |entriesById| <= MAX_LIST_ENTRIES && !Completes(heard, start, end))
      && (outcome.Listed? ==>
            Completes(heard, start, end) && |entriesById| <= MAX_LIST_ENTRIES && outcome.entries == InOrder(entriesById, start, end))
    }

    ghost function Seen(): Progress
      reads this
    {
      Progress(outcome, heard, cancelRequested, attempts, timerArmed, |requests|)
    }

    /** Advertised for the window and not heard of. */
    predicate Wanted(id: int)
      reads this`numLogs, this`lastLogNum, this`entriesById
    {
      && numLogs.Some? && lastLogNum.Some?
      && Advertises(Reply(0, numLogs.value, lastLogNum.value, 0, 0), start, end, id)
      && id !in entriesById
    }

    method MissingIds() returns (missing: seq<nat>)
      ensures forall id: nat :: id in missing <==> Wanted(id)
      ensures forall i, j :: 0 <= i < j < |missing| ==> missing[i] < missing[j]
    {
      missing := [];
      if numLogs.None? || lastLogNum.None? || numLogs.value == 0 {
        return;
      }
      var firstId := Larger(start, lastLogNum.value - numLogs.value + 1);
      var lastId := Smaller(end, lastLogNum.value);
      var id: nat := firstId;
      while id <= lastId
        invariant firstId <= id
        invariant forall k: nat :: k in missing <==> firstId <= k < id && k <= lastId && k !in entriesById
        invariant forall i :: 0 <= i < |missing| ==> missing[i] < id
        invariant forall i, j :: 0 <= i < j < |missing| ==> missing[i] < missing[j]
        decreases lastId + 1 - id
      {
        if id !in entriesById {
          missing := missing + [id];
        }
        id := id + 1;
      }
    }

    method IsComplete() returns (complete: bool)
      requires Tracks()
      ensures complete <==> Completes(heard, start, end)
    {
      if numLogs.None? {
        return false;
      }
      if numLogs.value == 0 {
        return true;
      }
      var missing := MissingIds();
      var last := heard[|heard| - 1];
      complete := |missing| == 0 && |entriesById| > 0;
      if |missing| > 0 {
        assert missing[0] in missing;
        assert Advertises(last, start, end, missing[0]);
      }
      assert forall id: nat :: Advertises(last, start, end, id) && id !in entriesById ==> Wanted(id);
    }

    method Finish(result: Outcome)
      modifies this`outcome, this`timerArmed
      ensures outcome == if old(outcome).Open? then result else old(outcome)
      ensures timerArmed == (if old(outcome).Open? then false else old(timerArmed))
    {
      if !outcome.Open? {
        return;
      }
      outcome := result;
      timerArmed := false;
    }

    /** The request spans exactly from the first to the last wanted id, or the whole window while none is known. A link
        that refuses it ends the listing. */
    method RequestWindow(linkTakes: bool)
      requires start <= end
      modifies this`requests, this`outcome, this`timerArmed
      ensures linkTakes ==> |requests| == |old(requests)| + 1 && requests[..|old(requests)|] == old(requests)
                            && outcome == old(outcome) && timerArmed == old(timerArmed)
      ensures linkTakes ==> var (from, to) := requests[|old(requests)|];
                            && start <= from <= to <= end
                            && (forall id: nat :: Wanted(id) ==> from <= id <= to)
                            && (if exists id: nat :: Wanted(id) then Wanted(from) && Wanted(to) else (from, to) == (start, end))
      ensures !linkTakes ==> requests == old(requests)
                             && outcome == (if old(outcome).Open? then Failed(WriteRejected) else old(outcome))
                             && timerArmed == (if old(outcome).Open? then false else old(timerArmed))
    {
      var missing := MissingIds();
      var reqStart := if |missing| > 0 then missing[0] else start;
      var reqEnd := if |missing| > 0 then missing[|missing| - 1] else end;
      if |missing| > 0 {
        assert reqStart in missing && reqEnd in missing;
      }
      forall id: nat | Wanted(id) ensures |missing| > 0 && reqStart <= id <= reqEnd {
        assert id in missing;
      }
      if linkTakes {
        requests := requests + [(reqStart, reqEnd)];
      } else {
        Finish(Failed(WriteRejected));
      }
    }

    constructor (start: nat, end: nat, linkTakes: bool)
      requires start <= end
      ensures Valid() && this.start == start && this.end == end && heard == [] && attempts == 0 && frames == 0
      ensures timerArmed && !cancelRequested
      ensures outcome == if linkTakes then Open else Failed(WriteRejected)
      ensures requests == if linkTakes then [(start, end)] else []
    {
      this.start, this.end := start, end;
      entriesById, numLogs, lastLogNum := map[], None, None;
      attempts, frames, noProgressFrames := 0, 0, 0;
      timerArmed, cancelRequested, outcome, requests := false, false, Open, [];
      heard := [];
      new;
      RequestWindow(linkTakes);
      assert !exists id: nat :: Wanted(id);
      if linkTakes {
        assert requests[0] == (this.start, this.end);
        assert requests == [requests[0]];
      }
      timerArmed := true;
    }

    method Cancel()
      requires Valid()
      modifies this`cancelRequested
      ensures Valid() && cancelRequested
    {
      cancelRequested := true;
    }

    /** Takes the counts and, if it is new and in the window, the entry of a reply. */
    method Record(reply: Reply)
      requires Tracks() && |heard| == |entriesById| + noProgressFrames
      modifies this`heard, this`entriesById, this`numLogs, this`lastLogNum, this`noProgressFrames
      ensures Tracks() && heard == old(heard) + [reply] && |heard| == |entriesById| + noProgressFrames
      ensures noProgressFrames <= old(noProgressFrames) + 1 && |entriesById| <= |old(entriesById)| + 1
    {
      hide Gathered;
      GatherOne(heard, reply, start, end);
      heard := heard + [reply];
      numLogs, lastLogNum := Some(reply.numLogs), Some(reply.lastLogNum);
      if reply.numLogs > 0 && start <= reply.id <= end && reply.id !in entriesById {
        entriesById := entriesById[reply.id := ToEntry(reply)];
      } else {
        noProgressFrames := noProgressFrames + 1;
      }
    }

    /** A reply: the frame budgets come first, then the entry, then the test whether that was all. Only the budget of
        frames without progress can run out: each other frame brings an entry, and there are too few of those. */
    method OnEntry(reply: Reply)
      requires Valid() && outcome.Open?
      modifies this`heard, this`entriesById, this`numLogs, this`lastLogNum, this`frames, this`noProgressFrames, this`outcome,
               this`timerArmed
      ensures Valid()
      ensures timerArmed <==> outcome.Open?
      ensures old(cancelRequested) ==> outcome == Failed(Cancelled) && heard == old(heard)
      ensures !old(cancelRequested) && old(noProgressFrames) == LIST_MAX_NO_PROGRESS_FRAMES
              ==> outcome == Failed(ListOverflow) && heard == old(heard)
      ensures !old(cancelRequested) && old(noProgressFrames) < LIST_MAX_NO_PROGRESS_FRAMES
              ==> heard == old(heard) + [reply]
                  && outcome == (if |Gathered(heard, start, end)| > MAX_LIST_ENTRIES then Failed(ListOverflow)
                                 else if Completes(heard, start, end) then Listed(InOrder(Gathered(heard, start, end), start, end))
                                 else Open)
    {
      hide Gathered, InOrder, Completes, Wanted;
      if cancelRequested {
        Finish(Failed(Cancelled));
        return;
      }
      frames := frames + 1;
      if frames > LIST_MAX_FRAMES || noProgressFrames >= LIST_MAX_NO_PROGRESS_FRAMES {
        Finish(Failed(ListOverflow));
        return;
      }
      Record(reply);
      if |entriesById| > MAX_LIST_ENTRIES {
        Finish(Failed(ListOverflow));
        return;
      }
      var complete := IsComplete();
      if complete {
        Finish(Listed(InOrder(entriesById, start, end)));
        return;
      }
      timerArmed := true;
    }

    /** The link has been quiet. Ask again for what is wanted, at most three times. The timer is armed again even after
        the link refused the request and the listing has ended. */
    method OnQuiet(linkTakes: bool)
      requires Valid() && timerArmed
      modifies this`attempts, this`requests, this`outcome, this`timerArmed
      ensures Valid()
      ensures attempts == if cancelRequested then old(attempts) else old(attempts) + 1
      ensures timerArmed <==> !cancelRequested && attempts < REQUEST_MAX_ATTEMPTS
      ensures outcome == (if !old(outcome).Open? then old(outcome)
                          else if cancelRequested then Failed(Cancelled)
                          else if attempts == REQUEST_MAX_ATTEMPTS then Failed(ListTimeout)
                          else if linkTakes then Open else Failed(WriteRejected))
      ensures linkTakes && timerArmed ==>
                |requests| == |old(requests)| + 1 && requests[..|old(requests)|] == old(requests)
                && var (from, to) := requests[|old(requests)|];
                   start <= from <= to <= end && forall id: nat :: Wanted(id) ==> from <= id <= to
      ensures !(linkTakes && timerArmed) ==> requests == old(requests)
    {
      hide Gathered, InOrder, Completes, Advertises;
      timerArmed := false;
      if cancelRequested {
        Finish(Failed(Cancelled));
        return;
      }
      attempts := attempts + 1;
      if attempts >= REQUEST_MAX_ATTEMPTS {
        Finish(Failed(ListTimeout));
        return;
      }
      RequestWindow(linkTakes);
      timerArmed := true;
    }

    /** One event: a reply counts while the listing is open, quiet while the timer is armed. */
    method Take(e: Event)
      requires Valid()
      modifies this
      ensures Valid()
      ensures heard == old(heard) || (e.Heard? && old(outcome).Open? && heard == old(heard) + [e.reply])
      ensures outcome.Open? ==> old(outcome).Open? && heard == old(heard) + if e.Heard? then [e.reply] else []
      ensures attempts == old(attempts) + if e.Quiet? && old(timerArmed) && !old(cancelRequested) then 1 else 0
      ensures cancelRequested == (old(cancelRequested) || e.CancelAsked?)
      ensures e.Quiet? && old(cancelRequested) ==> !outcome.Open?
      ensures e.CancelAsked? ==> outcome == old(outcome)
      ensures !old(outcome).Failed? && !old(cancelRequested) && e == Quiet(true) && old(attempts) < REQUEST_MAX_ATTEMPTS - 1
              ==> !outcome.Failed?
      ensures !old(outcome).Failed? && !old(cancelRequested) && e.Heard? && |old(heard)| < LIST_MAX_NO_PROGRESS_FRAMES
              ==> !outcome.Failed?
      ensures Seen() == Advance(old(Seen()), e, start, end)
    {
      hide Gathered, InOrder, Completes, Wanted;
      match e {
        case Heard(reply) =>
          if outcome.Open? {
            OnEntry(reply);
            GatheredIsHeard(heard, start, end);
          }
        case Quiet(takes) =>
          if timerArmed {
            OnQuiet(takes);
          }
        case CancelAsked =>
          Cancel();
      }
    }
  }

  lemma RunStarts(linkTakes: bool, start: nat, end: nat)
    ensures RunOf(linkTakes, [], start, end)
            == Progress(if linkTakes then Open else Failed(WriteRejected), [], false, 0, true, if linkTakes then 1 else 0)
  {
  }

  lemma RunGoesOn(linkTakes: bool, events: seq<Event>, i: nat, start: nat, end: nat)
    requires i < |events|
    ensures RunOf(linkTakes, events[..i + 1], start, end) == Advance(RunOf(linkTakes, events[..i], start, end), events[i], start, end)
  {
    hide Advance;
    var next := events[..i + 1];
    assert next[..|next| - 1] == events[..i];
  }

  /** The link has refused the first request, or a later one while the listing was open. */
  ghost predicate Refused(linkTakes: bool, events: seq<Event>, n: nat, start: nat, end: nat)
    requires n <= |events|
  {
    !linkTakes || exists i :: 0 <= i < n && events[i] == Quiet(false) && RunOf(linkTakes, events[..i], start, end).outcome.Open?
  }

  ghost predicate NoCancel(events: seq<Event>, n: nat)
    requires n <= |events|
  {
    forall i :: 0 <= i < n ==> !events[i].CancelAsked?
  }

  /** At event `j` a request is written although the listing has ended. */
  ghost predicate WritesLate(linkTakes: bool, events: seq<Event>, j: nat, start: nat, end: nat) {
    && j < |events| && !RunOf(linkTakes, events[..j], start, end).outcome.Open?
    && RunOf(linkTakes, events[..j + 1], start, end).written > RunOf(linkTakes, events[..j], start, end).written
  }

  /** The timer of an ended listing is armed only after a refusal; then it stays armed until it has fired four times in all
      or after a cancellation. */
  lemma {:induction false} ArmedWhen(linkTakes: bool, events: seq<Event>, n: nat, start: nat, end: nat)
    requires n <= |events|
    ensures var p := RunOf(linkTakes, events[..n], start, end);
            && (p.cancelled <==> !NoCancel(events, n))
            && (p.outcome.Open? ==> p.armed && p.attempts < REQUEST_MAX_ATTEMPTS && !Refused(linkTakes, events, n, start, end))
            && (p.armed ==> p.attempts == QuietsOf(events[..n]) < REQUEST_MAX_ATTEMPTS)
            && (!p.outcome.Open? && p.armed ==> Refused(linkTakes, events, n, start, end))
            && (NoCancel(events, n) && QuietsOf(events[..n]) < REQUEST_MAX_ATTEMPTS && Refused(linkTakes, events, n, start, end)
                ==> !p.outcome.Open? && p.armed)
  {
    hide AfterReply;
    if n == 0 {
      RunStarts(linkTakes, start, end);
      assert events[..0] == [] && QuietsOf([]) == 0;
    } else {
      ArmedWhen(linkTakes, events, n - 1, start, end);
      RunGoesOn(linkTakes, events, n - 1, start, end);
      OneMoreEvent(linkTakes, events, n - 1);
      RefusedGrows(linkTakes, events, n - 1, start, end);
      assert NoCancel(events, n) <==> NoCancel(events, n - 1) && !events[n - 1].CancelAsked?;
    }
  }

  lemma RefusedGrows(linkTakes: bool, events: seq<Event>, n: nat, start: nat, end: nat)
    requires n < |events|
    ensures Refused(linkTakes, events, n + 1, start, end)
            <==> Refused(linkTakes, events, n, start, end)
                 || (events[n] == Quiet(false) && RunOf(linkTakes, events[..n], start, end).outcome.Open?)
  {
    hide RunOf;
  }

  /** For every sequence of events: a request is written after the listing has ended exactly when the link had refused one,
      nobody has cancelled since the beginning, and the timer fires once more within its four attempts. */
  lemma WritesLateExactly(linkTakes: bool, events: seq<Event>, j: nat, start: nat, end: nat)
    ensures WritesLate(linkTakes, events, j, start, end)
            <==> && j < |events| && events[j] == Quiet(true) && Refused(linkTakes, events, j, start, end)
                 && NoCancel(events, j) && QuietsOf(events[..j]) < REQUEST_MAX_ATTEMPTS - 1
  {
    hide AfterReply, RunOf, Refused, NoCancel, QuietsOf;
    if j < |events| {
      ArmedWhen(linkTakes, events, j, start, end);
      RunGoesOn(linkTakes, events, j, start, end);
    }
  }

  /** The shortest case: a refused first request, and still three requests. */
  method RefusedListStillAsks(start: nat, end: nat) returns (c: ListCollector)
    requires start <= end
    ensures c.outcome == Failed(WriteRejected) && |c.requests| == 3
  {
    c := new ListCollector(start, end, false);
    c.OnQuiet(true);
    c.OnQuiet(true);
    c.OnQuiet(true);
  }

  /** The replies among the events, in order. */
  ghost function RepliesOf(events: seq<Event>): seq<Reply> {
    if events == [] then []
    else
      var e := events[|events| - 1];
      RepliesOf(events[..|events| - 1]) + if e.Heard? then [e.reply] else []
  }

  ghost function QuietsOf(events: seq<Event>): nat {
    if events == [] then 0
    else QuietsOf(events[..|events| - 1]) + if events[|events| - 1].Quiet? then 1 else 0
  }

  /** A vehicle's logs have consecutive ids. */
  datatype Vehicle = Vehicle(first: nat, logs: seq<LogEntry>) {
    ghost predicate Valid() {
      forall k :: 0 <= k < |logs| ==> logs[k].id == first + k
    }

    predicate Has(id: int) {
      first <= id < first + |logs|
    }

    /** A reply this vehicle may give. */
    ghost predicate Says(r: Reply) {
      && r.numLogs == |logs|
      && (logs != [] ==> r.lastLogNum == first + |logs| - 1 && Has(r.id) && Lists(r, logs[r.id - first]))
    }

    ghost predicate SaysAll(replies: seq<Reply>) {
      forall r :: r in replies ==> Says(r)
    }

    /** Its logs with ids in a window. */
    function Within(lo: nat, hi: int): seq<LogEntry> {
      var from := Larger(lo - first, 0);
      var to := Smaller(hi + 1 - first, |logs|);
      if from < to then logs[from..to] else []
    }
  }

  /** Some log lies in the window and every such log has been heard of; or there are no logs at all. */
  ghost predicate Covered(v: Vehicle, heard: seq<Reply>, start: nat, end: nat) {
    && heard != []
    && (v.logs == []
        || (v.Within(start, end) != []
            && forall id: nat :: v.Has(id) && start <= id <= end ==> exists r :: r in heard && r.id == id))
  }

  lemma {:induction false} InOrderIsSlice(v: Vehicle, entries: map<nat, LogEntry>, lo: nat, hi: int)
    requires v.Valid()
    requires forall id: nat :: lo <= id <= hi ==> (id in entries <==> v.Has(id))
    requires forall id: nat :: lo <= id <= hi && v.Has(id) ==> entries[id] == v.logs[id - v.first]
    ensures InOrder(entries, lo, hi) == v.Within(lo, hi)
    decreases hi + 1 - lo
  {
    if lo <= hi {
      InOrderIsSlice(v, entries, lo + 1, hi);
      if v.Has(lo) {
        assert v.Within(lo, hi) == [v.logs[lo - v.first]] + v.Within(lo + 1, hi);
      }
    }
  }

  /** What a truthful vehicle has been heard to say is true. */
  lemma GatheredIsTrue(v: Vehicle, heard: seq<Reply>, start: nat, end: nat)
    requires v.Valid() && v.SaysAll(heard)
    ensures forall id: nat :: id in Gathered(heard, start, end)
                         <==> start <= id <= end && v.logs != [] && exists r :: r in heard && r.id == id
    ensures forall id: nat :: id in Gathered(heard, start, end)
                              ==> v.Has(id) && Gathered(heard, start, end)[id] == v.logs[id - v.first]
  {
    hide Gathered;
    GatheredIsHeard(heard, start, end);
    var entries := Gathered(heard, start, end);
    forall id: nat | id in entries
      ensures v.Has(id) && entries[id] == v.logs[id - v.first] && start <= id <= end && exists r :: r in heard && r.id == id
    {
      assert HeardAs(heard, start, end, id, entries[id]);
      var i :| 0 <= i < |heard| && heard[i].id == id && Carries(heard[i], start, end) && Lists(heard[i], entries[id]);
      assert heard[i] in heard;
    }
    forall r | r in heard && v.logs != [] && start <= r.id <= end ensures r.id in entries {
      var i :| 0 <= i < |heard| && heard[i] == r;
      assert Carries(heard[i], start, end);
    }
  }

  /** From a vehicle that tells the truth, in any order and with any repetitions: the list is complete exactly when
      every log of the window has been heard of, and it is then the vehicle's own list. In particular a window without
      logs is never complete while the vehicle has logs elsewhere. */
  lemma TruthfulListing(v: Vehicle, heard: seq<Reply>, start: nat, end: nat)
    requires v.Valid() && start <= end && v.SaysAll(heard)
    ensures Completes(heard, start, end) <==> Covered(v, heard, start, end)
    ensures Completes(heard, start, end) ==> InOrder(Gathered(heard, start, end), start, end) == v.Within(start, end)
  {
    hide Gathered, InOrder, ToEntry;
    if heard == [] {
      return;
    }
    GatheredIsTrue(v, heard, start, end);
    var entries := Gathered(heard, start, end);
    var last := heard[|heard| - 1];
    assert v.Says(last);
    if v.logs == [] {
      InOrderIsSlice(v, entries, start, end);
      return;
    }
    assert forall id: nat :: Advertises(last, start, end, id) <==> v.Has(id) && start <= id <= end;
    if Covered(v, heard, start, end) {
      var id: nat := Larger(start, v.first);
      assert v.Has(id) && start <= id <= end;
      assert id in entries;
    }
    if Completes(heard, start, end) {
      var id :| id in entries;
      assert v.Has(id) && start <= id <= end;
      InOrderIsSlice(v, entries, start, end);
    }
  }

  /** The link works, nobody cancels, replies are neither too late nor too many. */
  ghost predicate Calm(linkTakes: bool, events: seq<Event>) {
    && linkTakes && (forall e :: e in events ==> e.Heard? || e == Quiet(true))
    && |RepliesOf(events)| <= LIST_MAX_NO_PROGRESS_FRAMES && QuietsOf(events) < REQUEST_MAX_ATTEMPTS
  }

  lemma OneMoreEvent(linkTakes: bool, events: seq<Event>, i: nat)
    requires i < |events|
    ensures RepliesOf(events[..i + 1]) == RepliesOf(events[..i]) + if events[i].Heard? then [events[i].reply] else []
    ensures QuietsOf(events[..i + 1]) == QuietsOf(events[..i]) + if events[i].Quiet? then 1 else 0
    ensures Calm(linkTakes, events[..i + 1]) ==>
              && Calm(linkTakes, events[..i]) && (events[i].Heard? || events[i] == Quiet(true))
              && |RepliesOf(events[..i + 1])| <= LIST_MAX_NO_PROGRESS_FRAMES
              && QuietsOf(events[..i + 1]) < REQUEST_MAX_ATTEMPTS
  {
    var next := events[..i + 1];
    assert next[..i] == events[..i];
    assert next == events[..i] + [events[i]];
    if Calm(linkTakes, next) {
      forall e | e in events[..i] ensures e.Heard? || e == Quiet(true) {
        assert e in next;
      }
      assert next[i] in next;
    }
  }

  /** The whole enumeration, against any peer. Four quiet spells or too many replies end it. What is listed was heard and
      ends the list; from a truthful vehicle it is exactly the vehicle's list of the window; and if all is calm it
      succeeds if and only if the window's logs have all been heard of. */
  method CollectList(ghost v: Vehicle, start: nat, end: nat, linkTakes: bool, events: seq<Event>)
    returns (outcome: Outcome, written: nat, ghost heard: seq<Reply>)
    requires start <= end && v.Valid()
    ensures outcome == RunOf(linkTakes, events, start, end).outcome && written == RunOf(linkTakes, events, start, end).written
    ensures heard <= RepliesOf(events)
    ensures outcome.Listed? ==>
              Completes(heard, start, end) && outcome.entries == InOrder(Gathered(heard, start, end), start, end)
    ensures outcome.Open? ==> heard == RepliesOf(events) && !Completes(heard, start, end)
    ensures QuietsOf(events) >= REQUEST_MAX_ATTEMPTS || |RepliesOf(events)| > MAX_LIST_ENTRIES + LIST_MAX_NO_PROGRESS_FRAMES
            ==> !outcome.Open?
    ensures v.SaysAll(RepliesOf(events)) && outcome.Listed? ==> outcome.entries == v.Within(start, end)
    ensures v.SaysAll(RepliesOf(events)) && Calm(linkTakes, events) ==>
              if Covered(v, RepliesOf(events), start, end) then outcome == Listed(v.Within(start, end)) else outcome.Open?
  {
    hide Gathered, InOrder, Completes, Covered, ListCollector.Wanted, RepliesOf, QuietsOf, Calm,
         Vehicle.Says, Vehicle.SaysAll, Vehicle.Within, RunOf, Advance;
    RunStarts(linkTakes, start, end);
    var c := new ListCollector(start, end, linkTakes);
    var i := 0;
    CalmFromStart(linkTakes);
    assert events[..i] == [];
    while i < |events|
      decreases |events| - i
      invariant 0 <= i <= |events| && c.Valid() && fresh(c) && c.start == start && c.end == end
      invariant c.Seen() == RunOf(linkTakes, events[..i], start, end)
      invariant c.heard <= RepliesOf(events[..i])
      invariant c.outcome.Open? ==> c.heard == RepliesOf(events[..i]) && c.attempts == QuietsOf(events[..i])
      invariant Calm(linkTakes, events[..i]) ==>
                  !c.outcome.Failed? && !c.cancelRequested && c.attempts <= QuietsOf(events[..i])
    {
      OneMoreEvent(linkTakes, events, i);
      RunGoesOn(linkTakes, events, i, start, end);
      c.Take(events[i]);
      i := i + 1;
    }
    assert events[..i] == events;
    outcome, written, heard := c.outcome, |c.requests|, c.heard;
    if v.SaysAll(RepliesOf(events)) {
      PrefixIsTrue(v, heard, RepliesOf(events), start, end);
    }
  }

  lemma CalmFromStart(linkTakes: bool)
    ensures RepliesOf([]) == [] && QuietsOf([]) == 0
    ensures Calm(linkTakes, []) ==> linkTakes
  {
  }

  lemma PrefixIsTrue(v: Vehicle, heard: seq<Reply>, all: seq<Reply>, start: nat, end: nat)
    requires v.Valid() && start <= end && v.SaysAll(all) && heard <= all
    ensures Completes(heard, start, end) <==> Covered(v, heard, start, end)
    ensures Completes(heard, start, end) ==>
              Covered(v, all, start, end) && InOrder(Gathered(heard, start, end), start, end) == v.Within(start, end)
  {
    hide Gathered, InOrder, Completes;
    forall r | r in heard ensures v.Says(r) {
      assert r in all;
    }
    TruthfulListing(v, heard, start, end);
    if Covered(v, heard, start, end) && v.logs != [] {
      forall id: nat | v.Has(id) && start <= id <= end ensures exists r :: r in all && r.id == id {
        var r :| r in heard && r.id == id;
        assert r in all;
      }
    }
  }

  /** An empty reply ends the list at once, with whatever has been gathered, whatever is still missing. */
  lemma EmptyReplyEndsList(heard: seq<Reply>, empty: Reply, start: nat, end: nat)
    requires empty.numLogs == 0
    ensures Completes(heard + [empty], start, end)
    ensures Gathered(heard + [empty], start, end) == Gathered(heard, start, end)
  {
    assert (heard + [empty])[..|heard|] == heard;
  }

  datatype EraseResult = Erased | EraseIncomplete | EraseUnverified | EraseFailed(error: ListError)

  /** Does the poll leave the question open? */
  predicate Inconclusive(poll: Outcome) {
    poll == Failed(ListTimeout) || (poll.Listed? && poll.entries != [])
  }

  /** There is no answer to an erase request, so the list is polled: at most five times, until it is empty. A poll that
      could not be made because of a cancellation counts as a cancelled one. */
  method RunErase(linkTakes: bool, polls: seq<Outcome>) returns (result: EraseResult)
    requires |polls| == ERASE_VERIFY_MAX_ROUNDS && forall poll :: poll in polls ==> !poll.Open?
    ensures result.Erased?
            <==> linkTakes && exists i :: 0 <= i < |polls| && polls[i] == Listed([]) && forall j :: 0 <= j < i ==> Inconclusive(polls[j])
    ensures result.EraseIncomplete?
            <==> linkTakes && (forall poll :: poll in polls ==> Inconclusive(poll)) && exists poll :: poll in polls && poll.Listed?
    ensures result.EraseUnverified? <==> linkTakes && forall poll :: poll in polls ==> poll == Failed(ListTimeout)
  {
    if !linkTakes {
      return EraseFailed(WriteRejected);
    }
    var observedRemainingLogs := false;
    var round := 0;
    while round < |polls|
      invariant 0 <= round <= |polls|
      invariant forall j :: 0 <= j < round ==> Inconclusive(polls[j])
      invariant observedRemainingLogs <==> exists j :: 0 <= j < round && polls[j].Listed?
    {
      var poll := polls[round];
      assert poll in polls;
      match poll {
        case Listed(entries) =>
          if |entries| == 0 {
            return Erased;
          }
          observedRemainingLogs := true;
        case Failed(error) =>
          if error != ListTimeout {
            return EraseFailed(error);
          }
      }
      round := round + 1;
    }
    result := if observedRemainingLogs then EraseIncomplete else EraseUnverified;
  }

  /** An empty list means that the vehicle said so: its last reply counted no logs and no reply carried one. */
  lemma EmptyListIsZeroLogs(heard: seq<Reply>, start: nat, end: nat)
    requires start <= end && Completes(heard, start, end) && InOrder(Gathered(heard, start, end), start, end) == []
    ensures heard[|heard| - 1].numLogs == 0
    ensures forall r :: r in heard ==> !Carries(r, start, end)
  {
    GatheredIsHeard(heard, start, end);
    GatheredIds(heard, start, end);
    InOrderMeans(Gathered(heard, start, end), start, end);
  }
}
