/** Single parameter writes: sent up to three times, confirmed only by a matching echo, answered exactly once. */
module ParamSets {
  import opened Bytes

  const MAX_PENDING_PARAM_SETS := 64
  const MAX_ATTEMPTS := 3
  const REAL32 := 9

  function Abs(x: real): real {
    if x < 0.0 then -x else x
  }

  function Tolerance(expected: real): real {
    if Abs(expected) * 0.000001 > 0.000001 then Abs(expected) * 0.000001 else 0.000001
  }

  /** Equal as far as the parameter's type can tell. */
  predicate ValuesEqual(expected: real, actual: real, paramType: nat) {
    if paramType != REAL32 then expected == actual else Abs(expected - actual) <= Tolerance(expected)
  }

  /** Which echoes confirm a write: of a floating-point parameter those within a millionth, absolute or of the value asked for,
      of any other the value itself. */
  lemma EchoConfirms(expected: real, actual: real, paramType: nat)
    ensures ValuesEqual(expected, actual, paramType) <==>
              if paramType == 9 then
                || -0.000001 <= actual - expected <= 0.000001
                || 0.999999 * expected <= actual <= 1.000001 * expected || 1.000001 * expected <= actual <= 0.999999 * expected
              else actual == expected
  {
  }

  datatype Mismatch = ValueMismatch | TypeMismatch

  datatype Reason = Refused | ParamBusy | QueueFull | WriteRejected | Mismatched(m: Mismatch) | TimedOut | ContextChanged

  datatype PendingSet = PendingSet(write: nat, value: real, paramType: nat, attempt: nat, lastMismatch: Option<Mismatch>)

  /** The answer to one write: accepted, or why not. */
  datatype Answer = Answer(write: nat, accepted: bool, reason: Option<Reason>)

  ghost predicate Answered(answers: seq<Answer>, write: nat) {
    exists i :: 0 <= i < |answers| && answers[i].write == write
  }

  /** Every write asked for is either waiting or answered, never both, and answered at most once. */
  ghost predicate Consistent(pending: map<string, PendingSet>, answers: seq<Answer>, writes: nat) {
    && |pending| <= MAX_PENDING_PARAM_SETS
    && (forall id :: id in pending ==> pending[id].write < writes && 1 <= pending[id].attempt <= MAX_ATTEMPTS)
    && (forall id, other :: id in pending && other in pending && id != other ==> pending[id].write != pending[other].write)
    && (forall id :: id in pending ==> !Answered(answers, pending[id].write))
    && (forall i :: 0 <= i < |answers| ==> answers[i].write < writes)
    && (forall i, j :: 0 <= i < j < |answers| ==> answers[i].write != answers[j].write)
    && |answers| + |pending| == writes
  }

  lemma SettleKeeps(pending: map<string, PendingSet>, answers: seq<Answer>, writes: nat, id: string, a: Answer)
    requires Consistent(pending, answers, writes) && id in pending && a.write == pending[id].write
    ensures Consistent(pending - {id}, answers + [a], writes)
  {
    hide Answered;
    RemoveShrinks(pending, id);
    var rest := pending - {id};
    forall other | other in rest ensures !Answered(answers + [a], rest[other].write) {
      StillUnanswered(answers, a, rest[other].write);
    }
    forall i | 0 <= i < |answers| ensures answers[i].write != a.write {
      NotYet(answers, a.write, i);
    }
  }

  lemma AnswerNewKeeps(pending: map<string, PendingSet>, answers: seq<Answer>, writes: nat, a: Answer)
    requires Consistent(pending, answers, writes) && a.write == writes
    ensures Consistent(pending, answers + [a], writes + 1)
  {
    hide Answered;
    forall other | other in pending ensures !Answered(answers + [a], pending[other].write) {
      StillUnanswered(answers, a, pending[other].write);
    }
  }

  lemma UpdateKeeps(pending: map<string, PendingSet>, answers: seq<Answer>, writes: nat, id: string, p: PendingSet)
    requires Consistent(pending, answers, writes) && id in pending && p.write == pending[id].write
    requires 1 <= p.attempt <= MAX_ATTEMPTS
    ensures Consistent(pending[id := p], answers, writes)
  {
    hide Answered;
    SameSize(pending, id, p);
  }

  lemma RegisterKeeps(pending: map<string, PendingSet>, answers: seq<Answer>, writes: nat, id: string, p: PendingSet)
    requires Consistent(pending, answers, writes) && id !in pending && |pending| < MAX_PENDING_PARAM_SETS
    requires p.write == writes && p.attempt == 1
    ensures Consistent(pending[id := p], answers, writes + 1)
  {
    AddGrows(pending, id, p);
  }

  lemma NotYet(answers: seq<Answer>, write: nat, i: nat)
    requires !Answered(answers, write) && i < |answers|
    ensures answers[i].write != write
  {
  }

  class ParamSetQueue {
    var pending: map<string, PendingSet>
    var answers: seq<Answer>
    /** Writes asked for so far; each has its number. */
    var writes: nat

    ghost predicate Valid()
      reads this
    {
      Consistent(pending, answers, writes)
    }

    constructor ()
      ensures Valid() && pending == map[] && answers == [] && writes == 0
    {
      pending, answers, writes := map[], [], 0;
    }

    /** Forget a waiting write and answer it. */
    method Settle(id: string, accepted: bool, reason: Option<Reason>)
      requires Valid() && id in pending
      modifies `pending, `answers
      ensures Valid() && pending == old(pending) - {id}
      ensures answers == old(answers) + [Answer(old(pending)[id].write, accepted, reason)]
    {
      hide Consistent;
      var a := Answer(pending[id].write, accepted, reason);
      SettleKeeps(pending, answers, writes, id, a);
      pending := pending - {id};
      answers := answers + [a];
    }

    /** Ask for a write. The policy decision is a parameter; a refusal, a busy id or a full queue answers at once. */
    method SendParamSet(allowed: bool, id: string, value: real, paramType: nat, accepted: bool) returns (started: bool)
      requires Valid()
      modifies this
      ensures Valid() && writes == old(writes) + 1
      ensures !started ==> pending == old(pending) && |answers| == |old(answers)| + 1
                           && answers[|answers| - 1].write == old(writes) && !answers[|answers| - 1].accepted
      ensures started && accepted ==>
                pending == old(pending)[id := PendingSet(old(writes), value, paramType, 1, None)] && answers == old(answers)
      ensures started && !accepted ==>
                pending == old(pending) && answers == old(answers) + [Answer(old(writes), false, Some(WriteRejected))]
      ensures started <==> allowed && id !in old(pending) && |old(pending)| < MAX_PENDING_PARAM_SETS
    {
      hide Consistent;
      if !allowed {
        AnswerNew(Refused);
        return false;
      }
      if id in pending {
        AnswerNew(ParamBusy);
        return false;
      }
      if |pending| >= MAX_PENDING_PARAM_SETS {
        AnswerNew(QueueFull);
        return false;
      }
      started := true;
      if !accepted {
        AnswerNew(WriteRejected);
        return;
      }
      var p := PendingSet(writes, value, paramType, 1, None);
      RegisterKeeps(pending, answers, writes, id, p);
      writes := writes + 1;
      pending := pending[id := p];
    }

    method AnswerNew(reason: Reason)
      requires Valid()
      modifies `writes, `answers
      ensures Valid() && writes == old(writes) + 1 && answers == old(answers) + [Answer(old(writes), false, Some(reason))]
    {
      hide Consistent;
      var a := Answer(writes, false, Some(reason));
      AnswerNewKeeps(pending, answers, writes, a);
      answers := answers + [a];
      writes := writes + 1;
    }

    /** A reported parameter value: it confirms a waiting write only if type and value match. */
    method HandleParamValue(id: string, value: real, paramType: nat)
      requires Valid()
      modifies this
      ensures Valid() && writes == old(writes)
      ensures id !in old(pending) ==> pending == old(pending) && answers == old(answers)
      ensures id in old(pending) ==>
                var p := old(pending)[id];
                if p.paramType == paramType && ValuesEqual(p.value, value, paramType) then
                  pending == old(pending) - {id} && answers == old(answers) + [Answer(p.write, true, None)]
                else
                  pending == old(pending)[id := p.(lastMismatch := Some(if p.paramType == paramType then ValueMismatch else TypeMismatch))]
                  && answers == old(answers)
    {
      hide Consistent, ValuesEqual;
      if id !in pending {
        return;
      }
      var p := pending[id];
      if p.paramType == paramType && ValuesEqual(p.value, value, p.paramType) {
        Settle(id, true, None);
      } else {
        var q := p.(lastMismatch := Some(if p.paramType == paramType then ValueMismatch else TypeMismatch));
        WaitingIsBounded(pending, answers, writes, id);
        UpdateKeeps(pending, answers, writes, id, q);
        pending := pending[id := q];
      }
    }

    /** Send again, at most three times in all; then give the last known reason. */
    method HandleTimeout(id: string, accepted: bool)
      requires Valid()
      modifies this
      ensures Valid() && writes == old(writes)
      ensures id !in old(pending) ==> pending == old(pending) && answers == old(answers)
      ensures id in old(pending) ==>
                var p := old(pending)[id];
                if p.attempt < MAX_ATTEMPTS && accepted then
                  pending == old(pending)[id := p.(attempt := p.attempt + 1)] && answers == old(answers)
                else
                  pending == old(pending) - {id}
                  && answers == old(answers) + [Answer(p.write, false,
                       Some(if p.attempt < MAX_ATTEMPTS then WriteRejected
                            else if p.lastMismatch.Some? then Mismatched(p.lastMismatch.value) else TimedOut))]
    {
      hide Consistent;
      if id !in pending {
        return;
      }
      var p := pending[id];
      WaitingIsBounded(pending, answers, writes, id);
      if p.attempt < MAX_ATTEMPTS {
        if !accepted {
          Settle(id, false, Some(WriteRejected));
          return;
        }
        UpdateKeeps(pending, answers, writes, id, p.(attempt := p.attempt + 1));
        pending := pending[id := p.(attempt := p.attempt + 1)];
        return;
      }
      Settle(id, false, Some(if p.lastMismatch.Some? then Mismatched(p.lastMismatch.value) else TimedOut));
    }

    /** The link or the target changed: everything still waiting is answered. */
    method CancelAll()
      requires Valid()
      modifies `pending, `answers
      ensures Valid() && pending == map[] && |answers| == writes
      ensures answers[..|old(answers)|] == old(answers)
    {
      hide Consistent;
      while pending != map[]
        invariant Valid() && |answers| >= |old(answers)| && answers[..|old(answers)|] == old(answers)
        decreases |pending|
      {
        var id :| id in pending;
        RemoveShrinks(pending, id);
        Settle(id, false, Some(ContextChanged));
      }
      AllAnswered(pending, answers, writes);
    }
  }

  lemma WaitingIsBounded(pending: map<string, PendingSet>, answers: seq<Answer>, writes: nat, id: string)
    requires Consistent(pending, answers, writes) && id in pending
    ensures 1 <= pending[id].attempt <= MAX_ATTEMPTS
  {
  }

  lemma AllAnswered(pending: map<string, PendingSet>, answers: seq<Answer>, writes: nat)
    requires Consistent(pending, answers, writes) && pending == map[]
    ensures |answers| == writes
  {
  }

  lemma StillUnanswered(answers: seq<Answer>, a: Answer, other: nat)
    requires !Answered(answers, other) && other != a.write
    ensures !Answered(answers + [a], other)
  {
    var after := answers + [a];
    assert forall i :: 0 <= i < |answers| ==> after[i] == answers[i];
  }

  lemma RemoveShrinks(m: map<string, PendingSet>, id: string)
    requires id in m
    ensures |m - {id}| == |m| - 1
  {
    var rest := m - {id};
    assert rest.Keys == m.Keys - {id};
    assert |rest| == |rest.Keys| && |m| == |m.Keys|;
  }

  lemma AddGrows(m: map<string, PendingSet>, id: string, p: PendingSet)
    requires id !in m
    ensures |m[id := p]| == |m| + 1
  {
    var more := m[id := p];
    assert more.Keys == m.Keys + {id};
    assert |more| == |more.Keys| && |m| == |m.Keys|;
  }

  lemma SameSize(m: map<string, PendingSet>, id: string, p: PendingSet)
    requires id in m
    ensures |m[id := p]| == |m|
  {
    var same := m[id := p];
    assert same.Keys == m.Keys;
    assert |same| == |same.Keys| && |m| == |m.Keys|;
  }
}

/** Several parameters as one transaction: write and confirm one after the other, and undo what was confirmed if one
    of them fails while the vehicle is still in the same safe context. */
module VerifiedWrites {
  import opened Bytes
  import opened ParamSets

  datatype Entry = Entry(id: string, value: real, paramType: nat)

  type Values = map<string, real>

  datatype Ending = Success | ContextLost | Failed(rollbackFailures: seq<string>)

  /** The one write whose answer is awaited: entry `index`, or the undoing of confirmed entry `index`. */
  datatype Awaiting = Nothing | Writing(index: nat) | Undoing(index: nat)

  predicate DistinctIds(entries: seq<Entry>) {
    forall i, j :: 0 <= i < j < |entries| ==> entries[i].id != entries[j].id
  }

  predicate Known(entries: seq<Entry>, previous: Values) {
    forall i :: 0 <= i < |entries| ==> entries[i].id in previous
  }

  /** The vehicle reports for entry `i` what the transaction wrote, or what was there before. */
  predicate Holds(e: Entry, value: real, fc: Values) {
    e.id in fc && ValuesEqual(value, fc[e.id], e.paramType)
  }

  /** Confirmed entries hold the new value while writing; while undoing, those already dealt with hold the old value
      unless their undoing was reported as failed; what comes later has not been touched. */
  ghost predicate Sound(entries: seq<Entry>, previous: Values, fc: Values, confirmed: nat, awaiting: Awaiting,
                        failures: seq<string>, ending: Option<Ending>) {
    && DistinctIds(entries) && Known(entries, previous) && Known(entries, fc) && confirmed <= |entries|
    && (forall i :: confirmed < i < |entries| ==> entries[i].id in fc && fc[entries[i].id] == previous[entries[i].id])
    && (awaiting.Writing? ==>
          && ending.None? && awaiting.index == confirmed < |entries| && failures == []
          && fc[entries[confirmed].id] == previous[entries[confirmed].id]
          && (forall i :: 0 <= i < confirmed ==> Holds(entries[i], entries[i].value, fc)))
    && (awaiting.Undoing? ==>
          && ending.None? && awaiting.index < confirmed < |entries|
          && Undone(entries, previous, fc, awaiting.index + 1, confirmed, failures))
    && (awaiting.Nothing? <==> ending.Some?)
    && (ending == Some(Success) ==>
          confirmed == |entries| && forall i :: 0 <= i < confirmed ==> Holds(entries[i], entries[i].value, fc))
    && (ending.Some? && ending.value.Failed? ==>
          confirmed < |entries| && ending.value.rollbackFailures == failures
          && Undone(entries, previous, fc, 0, confirmed, failures))
  }

  ghost predicate Undone(entries: seq<Entry>, previous: Values, fc: Values, from: nat, to: nat, failures: seq<string>)
    requires Known(entries, previous) && to <= |entries|
  {
    forall i :: from <= i < to ==> entries[i].id in failures || Holds(entries[i], previous[entries[i].id], fc)
  }

  lemma OthersHold(entries: seq<Entry>, fc: Values, now: Values, index: nat)
    requires DistinctIds(entries) && index < |entries|
    requires forall id :: id in fc && id != entries[index].id ==> id in now && now[id] == fc[id]
    ensures forall i: nat, v: real :: i < |entries| && i != index && Holds(entries[i], v, fc) ==> Holds(entries[i], v, now)
  {
    assert forall i :: 0 <= i < |entries| && i != index ==> entries[i].id != entries[index].id;
  }

  class VerifiedWrite {
    const entries: seq<Entry>
    const previous: Values
    var confirmed: nat
    var rollbackFailures: seq<string>
    var awaiting: Awaiting
    /** Every call of the completion callback, in order. */
    var completions: seq<Ending>
    /** The parameters as they are on the vehicle. */
    ghost var fc: Values
    /** Every write started, with whether the context was safe at that moment. */
    ghost var started: seq<(Awaiting, bool)>

    ghost predicate Valid()
      reads this
    {
      && |completions| <= 1
      && Sound(entries, previous, fc, confirmed, awaiting, rollbackFailures,
               if completions == [] then None else Some(completions[0]))
      && forall i :: 0 <= i < |started| ==> started[i].1
    }

    /** Start the first write. The cached values are the vehicle's. */
    constructor (entries: seq<Entry>, previous: Values, safe: bool)
      requires DistinctIds(entries) && Known(entries, previous)
      ensures Valid() && this.entries == entries && this.previous == previous && fc == previous && confirmed == 0
      ensures completions == if !safe then [ContextLost] else if entries == [] then [Success] else []
      ensures awaiting == (if safe && entries != [] then Writing(0) else Nothing) && rollbackFailures == []
      ensures started == if safe && entries != [] then [(Writing(0), true)] else []
    {
      this.entries, this.previous := entries, previous;
      confirmed, rollbackFailures, fc := 0, [], previous;
      awaiting := if safe && entries != [] then Writing(0) else Nothing;
      started := if safe && entries != [] then [(Writing(0), true)] else [];
      completions := if !safe then [ContextLost] else if entries == [] then [Success] else [];
    }

    method Complete(e: Ending)
      modifies `completions, `awaiting
      ensures completions == old(completions) + [e] && awaiting == Nothing
    {
      completions := completions + [e];
      awaiting := Nothing;
    }

    method WriteNext(index: nat, safe: bool)
      requires completions == [] && confirmed == index <= |entries| && rollbackFailures == []
      requires DistinctIds(entries) && Known(entries, previous) && Known(entries, fc)
      requires forall i :: index <= i < |entries| ==> entries[i].id in fc && fc[entries[i].id] == previous[entries[i].id]
      requires forall i :: 0 <= i < index ==> Holds(entries[i], entries[i].value, fc)
      requires forall i :: 0 <= i < |started| ==> started[i].1
      modifies `completions, `awaiting, `started
      ensures Valid()
      ensures !safe ==> completions == [ContextLost] && started == old(started)
      ensures safe ==> completions == (if index == |entries| then [Success] else [])
      ensures safe && index == |entries| ==> started == old(started)
      ensures safe && index < |entries| ==> started == old(started) + [(Writing(index), true)] && awaiting == Writing(index)
    {
      hide Holds;
      if !safe {
        Complete(ContextLost);
        return;
      }
      if index >= |entries| {
        Complete(Success);
        return;
      }
      awaiting := Writing(index);
      started := started + [(awaiting, safe)];
    }

    /** Undo confirmed entries from the last one back; stop at once if the context is lost. */
    method Rollback(next: nat, safe: bool)
      requires completions == [] && next <= confirmed < |entries|
      requires DistinctIds(entries) && Known(entries, previous) && Known(entries, fc)
      requires forall i :: confirmed < i < |entries| ==> entries[i].id in fc && fc[entries[i].id] == previous[entries[i].id]
      requires Undone(entries, previous, fc, next, confirmed, rollbackFailures)
      requires forall i :: 0 <= i < |started| ==> started[i].1
      modifies `completions, `awaiting, `started
      ensures Valid()
      ensures !safe ==> completions == [ContextLost] && started == old(started)
      ensures safe && next == 0 ==> completions == [Failed(rollbackFailures)] && started == old(started)
      ensures safe && next > 0 ==>
                completions == [] && awaiting == Undoing(next - 1) && started == old(started) + [(awaiting, true)]
    {
      hide Holds;
      if !safe {
        Complete(ContextLost);
        return;
      }
      if next == 0 {
        Complete(Failed(rollbackFailures));
        return;
      }
      awaiting := Undoing(next - 1);
      started := started + [(awaiting, safe)];
    }

    /** The answer to the awaited write. The vehicle may have changed that one parameter in any way; an acceptance
        means it reported the requested value. */
    method OnAnswer(accepted: bool, safe: bool, ghost now: Values)
      requires Valid() && !awaiting.Nothing?
      requires OnlyTouches(now)
      requires accepted ==> Holds(entries[awaiting.index], Requested(), now)
      modifies this
      ensures Valid() && fc == now
      ensures completions != [] <==> awaiting.Nothing?
      ensures AnswersLeft() < old(AnswersLeft())
      ensures !safe ==> completions == [ContextLost] && started == old(started) && confirmed == old(confirmed)
      ensures safe ==> started == old(started) + if awaiting.Nothing? then [] else [(awaiting, true)]
      ensures safe && old(awaiting).Writing? && accepted ==>
                confirmed == old(awaiting).index + 1 && rollbackFailures == []
                && if confirmed == |entries| then completions == [Success] else awaiting == Writing(confirmed)
      ensures safe && old(awaiting).Writing? && !accepted ==>
                confirmed == old(confirmed) && rollbackFailures == []
                && if confirmed == 0 then completions == [Failed([])] else awaiting == Undoing(confirmed - 1)
      ensures safe && old(awaiting).Undoing? ==>
                var index := old(awaiting).index;
                confirmed == old(confirmed)
                && rollbackFailures == old(rollbackFailures) + (if accepted then [] else [entries[index].id])
                && if index == 0 then completions == [Failed(rollbackFailures)] else awaiting == Undoing(index - 1)
    {
      hide Holds;
      var index := awaiting.index;
      OthersHold(entries, fc, now, index);
      fc := now;
      match awaiting {
        case Writing(_) =>
          if !safe {
            Complete(ContextLost);
          } else if !accepted {
            Rollback(confirmed, safe);
          } else {
            confirmed := confirmed + 1;
            WriteNext(index + 1, safe);
          }
        case Undoing(_) =>
          if !accepted {
            rollbackFailures := rollbackFailures + [entries[index].id];
          }
          Rollback(index, safe);
      }
    }

    /** No transaction waits for more answers than this. */
    function AnswersLeft(): int
      reads this
    {
      match awaiting
      case Nothing => 0
      case Writing(i) => 2 * |entries| - i
      case Undoing(i) => i + 1
    }

    ghost predicate OnlyTouches(now: Values)
      reads this
      requires Valid() && !awaiting.Nothing?
    {
      && entries[awaiting.index].id in now
      && forall id :: id in fc && id != entries[awaiting.index].id ==> id in now && now[id] == fc[id]
    }

    function Requested(): real
      reads this
      requires Valid() && !awaiting.Nothing?
    {
      var e := entries[awaiting.index];
      if awaiting.Writing? then e.value else previous[e.id]
    }
  }

  lemma Reflexive(v: real, paramType: nat)
    ensures ValuesEqual(v, v, paramType)
  {
  }

  /** A failure reported without rollback failures leaves every confirmed parameter at its earlier value. Whether the
      whole transaction left no trace hangs on the entry that failed: it is never undone, so a write the vehicle carried
      out without a matching echo stays. */
  lemma RestoredExactlyWhen(entries: seq<Entry>, previous: Values, fc: Values, confirmed: nat)
    requires Sound(entries, previous, fc, confirmed, Nothing, [], Some(Failed([])))
    ensures forall i :: 0 <= i < |entries| && i != confirmed ==> Holds(entries[i], previous[entries[i].id], fc)
    ensures (forall i :: 0 <= i < |entries| ==> Holds(entries[i], previous[entries[i].id], fc))
            <==> Holds(entries[confirmed], previous[entries[confirmed].id], fc)
  {
    hide ValuesEqual;
    forall i | confirmed < i < |entries| ensures Holds(entries[i], previous[entries[i].id], fc) {
      Reflexive(previous[entries[i].id], entries[i].paramType);
    }
  }

  /** What comes of one transmission: whether the link takes it, what the vehicle then sets the parameter to, if it does,
      and with which type it reports the value it now has, if it does before the timer. */
  datatype Try = Try(taken: bool, applied: Option<real>, reported: Option<nat>)

  /** For each write and each transmission of it. */
  type Tries = (nat, nat) -> Try

  function ValueAfter(before: real, t: Try): real {
    if t.applied.Some? then t.applied.value else before
  }

  /** The fate of write `k` from transmission `i` on, with the vehicle's value at that time: whether it is confirmed, the
      value it leaves behind, and how many transmissions the link took. */
  function Attempted(tries: Tries, k: nat, i: nat, now: real, value: real, paramType: nat): (bool, real, nat)
    decreases MAX_ATTEMPTS - i
  {
    if i >= MAX_ATTEMPTS || !tries(k, i).taken then (false, now, i)
    else
      var v := ValueAfter(now, tries(k, i));
      if tries(k, i).reported == Some(paramType) && ValuesEqual(value, v, paramType) then (true, v, i + 1)
      else Attempted(tries, k, i + 1, v, value, paramType)
  }

  lemma AttemptedUnfolds(tries: Tries, k: nat, i: nat, now: real, value: real, paramType: nat)
    ensures Attempted(tries, k, i, now, value, paramType)
            == if i >= MAX_ATTEMPTS || !tries(k, i).taken then (false, now, i)
               else
                 var v := ValueAfter(now, tries(k, i));
                 if tries(k, i).reported == Some(paramType) && ValuesEqual(value, v, paramType) then (true, v, i + 1)
                 else Attempted(tries, k, i + 1, v, value, paramType)
  {
  }

  /** Confirmed means: the value left behind is the requested one, as far as the type can tell, and the last transmission
      was reported with the right type. */
  lemma {:induction false} ConfirmedMeans(tries: Tries, k: nat, i: nat, now: real, value: real, paramType: nat)
    requires i <= MAX_ATTEMPTS
    ensures var (confirmed, after, sent) := Attempted(tries, k, i, now, value, paramType);
            && i <= sent <= MAX_ATTEMPTS && (forall j :: i <= j < sent ==> tries(k, j).taken)
            && (confirmed ==> ValuesEqual(value, after, paramType) && sent > i && tries(k, sent - 1).reported == Some(paramType))
            && (!confirmed ==> sent == MAX_ATTEMPTS || !tries(k, sent).taken)
    decreases MAX_ATTEMPTS - i
  {
    hide ValuesEqual;
    if i < MAX_ATTEMPTS && tries(k, i).taken {
      ConfirmedMeans(tries, k, i + 1, ValueAfter(now, tries(k, i)), value, paramType);
    }
  }

  /** The queue can take a write to this parameter. */
  predicate Free(pending: map<string, PendingSet>, id: string) {
    id !in pending && |pending| < MAX_PENDING_PARAM_SETS
  }

  /** One transmission of a waiting write and what follows it: a report, if there is one, and otherwise the timer. */
  method OneTry(q: ParamSetQueue, id: string, now: real, t: Try, nextTaken: bool,
                ghost others: map<string, PendingSet>, ghost p: PendingSet)
    returns (answered: Option<bool>, after: real, ghost next: PendingSet)
    requires q.Valid() && id !in others && q.pending == others[id := p]
    modifies q
    ensures q.Valid() && q.writes == old(q.writes) && after == ValueAfter(now, t)
    ensures if t.reported == Some(p.paramType) && ValuesEqual(p.value, after, p.paramType) then
              answered == Some(true) && q.pending == others && q.answers == old(q.answers) + [Answer(p.write, true, None)]
            else if p.attempt < MAX_ATTEMPTS && nextTaken then
              answered.None? && q.pending == others[id := next] && q.answers == old(q.answers)
              && next == p.(attempt := p.attempt + 1, lastMismatch := next.lastMismatch)
            else
              answered == Some(false) && q.pending == others && |q.answers| == |old(q.answers)| + 1
              && q.answers[|q.answers| - 1].write == p.write && !q.answers[|q.answers| - 1].accepted
  {
    hide ValuesEqual, Consistent;
    after, next := ValueAfter(now, t), p;
    assert others[id := p] - {id} == others;
    if t.reported.Some? {
      q.HandleParamValue(id, after, t.reported.value);
      if id !in q.pending {
        return Some(true), after, next;
      }
      next := q.pending[id];
      assert q.pending == others[id := next] && others[id := next] - {id} == others;
    }
    q.HandleTimeout(id, nextTaken);
    if id !in q.pending {
      return Some(false), after, next;
    }
    next := q.pending[id];
    assert q.pending == others[id := next];
    return None, after, next;
  }

  /** One write through the queue: transmitted up to three times until the vehicle reports the requested value with the
      right type. The queue is left as it was, with one more write answered. */
  method WriteThrough(q: ParamSetQueue, allowed: bool, id: string, value: real, paramType: nat, before: real, k: nat, tries: Tries)
    returns (accepted: bool, after: real, sent: nat)
    requires q.Valid()
    modifies q
    ensures q.Valid() && q.pending == old(q.pending) && q.writes == old(q.writes) + 1 && |q.answers| == |old(q.answers)| + 1
    ensures q.answers[|q.answers| - 1].write == old(q.writes) && q.answers[|q.answers| - 1].accepted == accepted
    ensures (accepted, after, sent) == if allowed && Free(old(q.pending), id) then Attempted(tries, k, 0, before, value, paramType)
                                       else (false, before, 0)
  {
    hide ValuesEqual, Consistent, Attempted, ValueAfter;
    AttemptedUnfolds(tries, k, 0, before, value, paramType);
    after, sent := before, 0;
    var started := q.SendParamSet(allowed, id, value, paramType, tries(k, 0).taken);
    if !started || !tries(k, 0).taken {
      return false, after, sent;
    }
    ghost var p := q.pending[id];
    while true
      invariant id !in old(q.pending) && Free(old(q.pending), id)
      invariant q.Valid() && sent < MAX_ATTEMPTS && tries(k, sent).taken && allowed
      invariant q.pending == old(q.pending)[id := p] && q.answers == old(q.answers) && q.writes == old(q.writes) + 1
      invariant p.write == old(q.writes) && p.value == value && p.paramType == paramType && p.attempt == sent + 1
      invariant Attempted(tries, k, 0, before, value, paramType) == Attempted(tries, k, sent, after, value, paramType)
      decreases MAX_ATTEMPTS - sent
    {
      AttemptedUnfolds(tries, k, sent, after, value, paramType);
      AttemptedUnfolds(tries, k, sent + 1, ValueAfter(after, tries(k, sent)), value, paramType);
      var answered;
      answered, after, p := OneTry(q, id, after, tries(k, sent), tries(k, sent + 1).taken, old(q.pending), p);
      sent := sent + 1;
      if answered.Some? {
        return answered.value, after, sent;
      }
    }
  }

  /** Written, reported as requested within three transmissions, and the context still safe. */
  ghost predicate Good(e: Entry, before: real, k: nat, allowed: bool, safe: bool, tries: Tries) {
    allowed && safe && Attempted(tries, k, 0, before, e.value, e.paramType).0
  }

  /** The whole transaction against any vehicle and link. It ends within twice as many writes as there are entries; it
      succeeds if and only if every entry was allowed, found a free place and was reported as requested in a safe context,
      and every parameter then has its new value; a clean failure leaves every parameter at its earlier value, except
      possibly the one that failed; and the queue is left as it was. */
  method Transact(q: ParamSetQueue, entries: seq<Entry>, previous: Values, safe: bool, allowed: nat -> bool, safeAfter: nat -> bool,
                  tries: Tries)
    returns (ending: Ending, used: nat, ghost failed: nat, ghost fc: Values)
    requires DistinctIds(entries) && Known(entries, previous)
    requires q.Valid()
    modifies q
    ensures q.Valid() && q.pending == old(q.pending) && q.writes == old(q.writes) + used
    ensures used <= 2 * |entries|
    ensures ending.Success?
            <==> safe && forall k :: 0 <= k < |entries| ==>
                           Good(entries[k], previous[entries[k].id], k,
                                allowed(k) && Free(old(q.pending), entries[k].id), safeAfter(k), tries)
    ensures ending.ContextLost? <==> !safe || (used > 0 && !safeAfter(used - 1))
    ensures ending.Success? ==> forall k :: 0 <= k < |entries| ==> Holds(entries[k], entries[k].value, fc)
    ensures ending == Failed([]) ==>
              && failed < |entries| && safeAfter(failed)
              && !Good(entries[failed], previous[entries[failed].id], failed,
                       allowed(failed) && Free(old(q.pending), entries[failed].id), safeAfter(failed), tries)
              && (forall k :: 0 <= k < |entries| && k != failed ==> Holds(entries[k], previous[entries[k].id], fc))
    ensures Elsewhere(entries, previous, fc)
  {
    hide Holds, ValuesEqual, Sound, Undone, Good, Elsewhere, DistinctIds, Attempted, Consistent, Free;
    ElsewhereAtFirst(entries, previous);
    var t := new VerifiedWrite(entries, previous, safe);
    var values := previous;
    used, failed := 0, 0;
    while t.awaiting != Nothing
      invariant t.Valid() && fresh(t) && t.entries == entries && t.previous == previous && t.confirmed <= |entries|
      invariant q.Valid() && q.pending == old(q.pending) && q.writes == old(q.writes) + used && values == t.fc
      invariant used + t.AnswersLeft() <= 2 * |entries|
      invariant t.awaiting.Nothing? <==> t.completions != []
      invariant forall k :: 0 <= k < t.confirmed ==> Good(entries[k], previous[entries[k].id], k,
                                                     allowed(k) && Free(old(q.pending), entries[k].id), safeAfter(k), tries)
      invariant t.awaiting.Writing? ==> used == t.confirmed
      invariant !safe ==> t.completions == [ContextLost]
      invariant safe && !t.awaiting.Writing? && t.completions != [Success] ==>
                  failed == t.confirmed < |entries|
                  && !Good(entries[failed], previous[entries[failed].id], failed,
                           allowed(failed) && Free(old(q.pending), entries[failed].id), safeAfter(failed), tries)
      invariant t.awaiting.Undoing? || (t.completions != [] && t.completions[0].Failed?) ==> safeAfter(failed)
      invariant t.completions == [ContextLost] <==> !safe || (used > 0 && !safeAfter(used - 1))
      invariant Elsewhere(entries, previous, t.fc)
      decreases t.AnswersLeft()
    {
      var index := t.awaiting.index;
      ghost var writing := t.awaiting.Writing?;
      var accepted, after := OneWrite(q, t, values, used, allowed(used), safeAfter(used), tries);
      values := values[entries[index].id := after];
      if writing && !(accepted && safeAfter(used)) {
        failed := used;
      }
      used := used + 1;
    }
    SoundFacts(entries, previous, t.fc, t.confirmed, t.awaiting, t.rollbackFailures, Some(t.completions[0]));
    ending, fc := t.completions[0], t.fc;
    if ending == Failed([]) {
      RestoredExactlyWhen(entries, previous, fc, failed);
    }
  }

  /** The awaited write, and what its answer means for the transaction. */
  method OneWrite(q: ParamSetQueue, t: VerifiedWrite, values: Values, k: nat, allowed: bool, safe: bool, tries: Tries)
    returns (accepted: bool, after: real)
    requires t.Valid() && !t.awaiting.Nothing? && values == t.fc && t.completions == []
    requires q.Valid()
    requires Elsewhere(t.entries, t.previous, t.fc)
    modifies q, t
    ensures t.Valid() && q.Valid() && q.pending == old(q.pending) && q.writes == old(q.writes) + 1
    ensures old(t.awaiting).index < |t.entries| && t.fc == values[t.entries[old(t.awaiting).index].id := after]
    ensures Elsewhere(t.entries, t.previous, t.fc)
    ensures old(t.awaiting).Writing? ==>
              var e := t.entries[old(t.awaiting).index];
              old(t.awaiting).index == old(t.confirmed) && e.id in t.previous
               && (Good(e, t.previous[e.id], k, allowed && Free(old(q.pending), e.id), safe, tries) <==> accepted && safe)
    ensures (t.completions != [] <==> t.awaiting.Nothing?) && t.AnswersLeft() < old(t.AnswersLeft()) && t.confirmed <= |t.entries|
    ensures !safe ==> t.completions == [ContextLost] && t.confirmed == old(t.confirmed)
    ensures safe && old(t.awaiting).Writing? && accepted ==>
              t.confirmed == old(t.awaiting).index + 1
              && if t.confirmed == |t.entries| then t.completions == [Success] else t.awaiting == Writing(t.confirmed)
    ensures safe && old(t.awaiting).Writing? && !accepted ==>
              t.confirmed == old(t.confirmed)
              && if t.confirmed == 0 then t.completions == [Failed([])] else t.awaiting == Undoing(t.confirmed - 1)
    ensures safe && old(t.awaiting).Undoing? ==>
              t.confirmed == old(t.confirmed)
              && if old(t.awaiting).index == 0 then t.completions == [Failed(t.rollbackFailures)]
                  else t.awaiting == Undoing(old(t.awaiting).index - 1)
  {
    hide Holds, ValuesEqual, Sound, Undone, Elsewhere, DistinctIds, Attempted, Consistent;
    SoundFacts(t.entries, t.previous, t.fc, t.confirmed, t.awaiting, t.rollbackFailures, None);
    var index := t.awaiting.index;
    var e := t.entries[index];
    var requested := t.Requested();
    ValueIsKnown(t.entries, t.previous, t.fc, t.confirmed, t.awaiting, t.rollbackFailures);
    var before := values[e.id];
    var sent;
    accepted, after, sent := WriteThrough(q, allowed, e.id, requested, e.paramType, before, k, tries);
    ConfirmedMeans(tries, k, 0, before, requested, e.paramType);
    if accepted {
      NowHolds(e, requested, after, t.fc);
    }
    ElsewhereStep(t.entries, t.previous, t.fc, index, after);
    t.OnAnswer(accepted, safe, t.fc[e.id := after]);
    SoundMeans(t);
  }

  lemma SoundMeans(t: VerifiedWrite)
    requires t.Valid()
    ensures t.confirmed <= |t.entries|
  {
  }

  /** The parameter of the awaited write has a value, the earlier one if it is being written for the first time. */
  lemma ValueIsKnown(entries: seq<Entry>, previous: Values, fc: Values, confirmed: nat, awaiting: Awaiting, failures: seq<string>)
    requires Sound(entries, previous, fc, confirmed, awaiting, failures, None) && !awaiting.Nothing?
    ensures awaiting.index < |entries| && entries[awaiting.index].id in previous && entries[awaiting.index].id in fc
    ensures awaiting.Writing? ==> fc[entries[awaiting.index].id] == previous[entries[awaiting.index].id]
  {
  }

  lemma NowHolds(e: Entry, requested: real, after: real, fc: Values)
    requires ValuesEqual(requested, after, e.paramType)
    ensures Holds(e, requested, fc[e.id := after])
  {
  }

  /** No other parameter has changed. */
  ghost predicate Elsewhere(entries: seq<Entry>, previous: Values, fc: Values) {
    forall id :: id in previous && (forall k :: 0 <= k < |entries| ==> entries[k].id != id) ==> id in fc && fc[id] == previous[id]
  }

  lemma ElsewhereAtFirst(entries: seq<Entry>, previous: Values)
    ensures Elsewhere(entries, previous, previous)
  {
  }

  lemma ElsewhereStep(entries: seq<Entry>, previous: Values, fc: Values, index: nat, value: real)
    requires Elsewhere(entries, previous, fc) && index < |entries|
    ensures Elsewhere(entries, previous, fc[entries[index].id := value])
  {
  }

  lemma SoundFacts(entries: seq<Entry>, previous: Values, fc: Values, confirmed: nat, awaiting: Awaiting,
                   failures: seq<string>, ending: Option<Ending>)
    requires Sound(entries, previous, fc, confirmed, awaiting, failures, ending)
    ensures confirmed <= |entries|
    ensures awaiting.Writing? ==> awaiting.index == confirmed < |entries|
    ensures awaiting.Undoing? ==> awaiting.index < confirmed < |entries|
    ensures ending == Some(Success) ==>
              confirmed == |entries| && forall i :: 0 <= i < confirmed ==> Holds(entries[i], entries[i].value, fc)
    ensures ending.Some? && ending.value.Failed? ==> confirmed < |entries| && ending.value.rollbackFailures == failures
  {
  }

  /** One entry, written by the vehicle but never echoed: the transaction reports a clean failure and the new value
      stays. */
  method FailedEntryStays(e: Entry, before: real) returns (t: VerifiedWrite)
    requires !ValuesEqual(before, e.value, e.paramType)
    ensures t.Valid() && t.completions == [Failed([])] && t.entries == [e] && t.previous == map[e.id := before]
    ensures !Holds(e, before, t.fc)
  {
    hide ValuesEqual;
    t := new VerifiedWrite([e], map[e.id := before], true);
    t.OnAnswer(false, true, map[e.id := e.value]);
  }
}
