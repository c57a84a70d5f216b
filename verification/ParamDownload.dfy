/** Downloading the parameter list: chasing missing indices in rotating batches, with bounded retries and reads. */
module ParamDownload {
  import opened Bytes

  const PARAM_MAX_STALL_RETRIES := 12
  const PARAM_MAX_COUNT := 8192
  const PARAM_MAX_READ_REQUESTS := 4096

  function BatchSize(bluetooth: bool): nat {
    if bluetooth then 8 else 32
  }

  function DeadlineMs(bluetooth: bool): nat {
    if bluetooth then 120000 else 60000
  }

  /** How long to wait for parameters: briefly while single gaps are being chased, otherwise a full quiet window. */
  function RetryDelayMs(bluetooth: bool, recovering: bool): nat {
    if recovering then (if bluetooth then 300 else 150) else if bluetooth then 3500 else 1800
  }

  /** How many of the first `n` requests the link takes. */
  function Taken(accepts: nat -> bool, n: nat): (t: nat)
    ensures t <= n && t == |set k: nat | k < n && accepts(k)|
  {
    if n == 0 then (assert (set k: nat | k < 0 && accepts(k)) == {}; 0)
    else
      assert (set k: nat | k < n && accepts(k))
             == (set k: nat | k < n - 1 && accepts(k)) + if accepts(n - 1) then {n - 1} else {};
      Taken(accepts, n - 1) + if accepts(n - 1) then 1 else 0
  }

  datatype Reason = CountExceedsLimit | DeadlineExceeded | BudgetExhausted | RetryLimit | CancelledBySelf

  datatype Emitted = ListRequest | Read(index: nat) | Retry(attempt: nat, missing: nat, total: nat)
                   | Complete(count: nat) | Failed(received: nat, total: nat, reason: Reason)

  /** The indices from `from` to `expected` not received yet, ascending. */
  function MissingFrom(received: set<nat>, from: nat, expected: nat): (m: seq<nat>)
    requires from <= expected
    ensures forall x :: x in m <==> from <= x < expected && x !in received
    ensures forall i, j :: 0 <= i < j < |m| ==> m[i] < m[j]
    decreases expected - from
  {
    if from == expected then []
    else
      var rest := MissingFrom(received, from + 1, expected);
      assert forall j :: 0 <= j < |rest| ==> rest[j] in rest;
      if from in received then rest else [from] + rest
  }

  function Least(a: nat, b: nat): nat {
    if a < b then a else b
  }

  /** The indices asked for in one batch, going round the missing list from the cursor. */
  function Batch(missing: seq<nat>, cursor: nat, size: nat): (b: seq<nat>)
    requires missing != []
    ensures |b| == Least(size, |missing|)
    ensures forall x :: x in b ==> x in missing
  {
    var b := seq(Least(size, |missing|), k requires 0 <= k < Least(size, |missing|) => missing[(cursor + k) % |missing|]);
    assert forall k :: 0 <= k < |b| ==> b[k] in missing;
    b
  }

  function NextCursor(m: nat, cursor: nat, size: nat): (c: nat)
    requires m > 0
    ensures c < m
  {
    (cursor + Least(size, m)) % m
  }

  function CursorAfter(m: nat, cursor: nat, size: nat, batches: nat): nat
    requires m > 0
  {
    if batches == 0 then cursor else NextCursor(m, CursorAfter(m, cursor, size, batches - 1), size)
  }

  lemma Distribute(a: int, b: int, m: int)
    ensures (a + b) * m == a * m + b * m
  {
  }

  lemma ModStep(x: nat, y: nat, m: nat)
    requires m > 0
    ensures (x % m + y) % m == (x + y) % m
  {
    var q, r := x / m, x % m;
    var q', r' := (r + y) / m, (r + y) % m;
    Distribute(q, q', m);
    ModUnique(x + y, m, q + q', r');
  }

  lemma {:induction false} CursorAdvances(m: nat, cursor: nat, size: nat, batches: nat)
    requires m > 0
    ensures CursorAfter(m, cursor, size, batches) % m == (cursor + batches * Least(size, m)) % m
  {
    if batches > 0 {
      CursorAdvances(m, cursor, size, batches - 1);
      var c, b := CursorAfter(m, cursor, size, batches - 1), Least(size, m);
      ModStep(c, b, m);
      ModStep(cursor + (batches - 1) * b, b, m);
      assert cursor + (batches - 1) * b + b == cursor + batches * b;
      ModStep(c + b, 0, m);
    }
  }

  /** With no reply in between, every missing index is asked for within ceil(m / size) batches. */
  lemma EveryGapIsAsked(missing: seq<nat>, cursor: nat, size: nat, x: nat) returns (j: nat)
    requires x in missing && size > 0
    ensures j * size < |missing|
    ensures x in Batch(missing, CursorAfter(|missing|, cursor, size, j), size)
  {
    hide CursorAfter;
    var m := |missing|;
    var i :| 0 <= i < m && missing[i] == x;
    var off;
    j, off := PositionReached(m, size, cursor, i);
    var c := CursorAfter(m, cursor, size, j);
    CursorAdvances(m, cursor, size, j);
    ModStep(c, off, m);
    ModStep(cursor + j * Least(size, m), off, m);
    assert Batch(missing, c, size)[off] == missing[(c + off) % m];
  }

  lemma PositionReached(m: nat, size: nat, cursor: nat, i: nat) returns (j: nat, off: nat)
    requires i < m && size > 0
    ensures off < Least(size, m) && j * size < m
    ensures (cursor + j * Least(size, m) + off) % m == i
  {
    var b, r := Least(size, m), cursor % m;
    var d := (i + m - r) % m;
    j, off := d / b, d % b;
    assert d == j * b + off;
    ModStep(cursor, d, m);
    WrapsTo(i, r, m);
    QuotientBelow(d, m, size);
  }

  lemma WrapsTo(i: nat, r: nat, m: nat)
    requires i < m && r < m
    ensures (r + (i + m - r) % m) % m == i
  {
    if i >= r {
      ModUnique(i + m - r, m, 1, i - r);
      ModUnique(i, m, 0, i);
    } else {
      ModUnique(i + m - r, m, 0, i + m - r);
      ModUnique(i + m, m, 1, i);
    }
  }

  lemma QuotientBelow(d: nat, m: nat, size: nat)
    requires d < m && size > 0
    ensures d / Least(size, m) * size < m
  {
    if size <= m {
      var q := d / size;
      assert d == size * q + d % size;
    } else {
      ModUnique(d, m, 0, d);
      assert d / m == 0;
    }
  }

  /** So everything is asked for before the retry limit whenever at most twelve batches are missing. */
  lemma AllAskedBeforeLimit(missing: seq<nat>, cursor: nat, size: nat, x: nat) returns (j: nat)
    requires x in missing && size > 0 && |missing| <= PARAM_MAX_STALL_RETRIES * size
    ensures j < PARAM_MAX_STALL_RETRIES
    ensures x in Batch(missing, CursorAfter(|missing|, cursor, size, j), size)
  {
    j := EveryGapIsAsked(missing, cursor, size, x);
    assert j * size < PARAM_MAX_STALL_RETRIES * size;
  }

  predicate Below(x: nat, n: nat) {
    x < n
  }

  ghost function Range(n: nat): set<nat> {
    set x: nat | 0 <= x < n && Below(x, n)
  }

  lemma NoneInEmpty(s: set<nat>)
    requires s <= Range(0)
    ensures forall n: nat :: s <= Range(n)
  {
    RangeSize(0);
    assert s == {};
  }

  lemma {:induction false} RangeSize(n: nat)
    ensures |Range(n)| == n
  {
    if n > 0 {
      RangeSize(n - 1);
      assert Range(n) == Range(n - 1) + {n - 1};
    } else {
      assert Range(0) == {};
    }
  }

  /** Enough indices inside the range are all of them. */
  lemma EnoughIsAll(s: set<nat>, n: nat)
    requires s <= Range(n)
    ensures |s| <= n
    ensures |s| >= n <==> s == Range(n)
  {
    RangeSize(n);
    var rest := Range(n) - s;
    assert Range(n) == s + rest;
    if rest != {} {
      var x :| x in rest;
      assert |rest| >= 1;
    }
  }

  function Reads(indices: seq<nat>): seq<Emitted> {
    seq(|indices|, k requires 0 <= k < |indices| => Read(indices[k]))
  }

  class ParamDownloader {
    const bluetooth: bool
    var active: bool
    var expectedCount: nat
    var indices: set<nat>
    var recovering: bool
    var retryAttempt: nat
    var retryCursor: nat
    var readRequests: nat
    var deadlineAt: int
    var retryAt: Option<int>
    var outbox: seq<Emitted>
    /** Retries since the download started. */
    ghost var retries: nat

    /** What holds between events: the timer runs exactly while the download does, indices lie in range, and the
        retries so far are paid for by received indices and the current stall. */
    ghost predicate Valid()
      reads this
    {
      && (active <==> retryAt.Some?)
      && Paid() && (active && expectedCount > 0 ==> indices < Range(expectedCount))
      && readRequests < PARAM_MAX_READ_REQUESTS + BatchSize(bluetooth)
    }

    constructor (bluetooth: bool)
      ensures Valid() && !active && outbox == [] && this.bluetooth == bluetooth
    {
      this.bluetooth := bluetooth;
      active, expectedCount, indices, recovering, retryAttempt := false, 0, {}, false, 0;
      retryCursor, readRequests, deadlineAt, retryAt, outbox, retries := 0, 0, 0, None, [], 0;
    }

    method Start(now: int)
      requires Valid()
      modifies this
      ensures Valid() && active && expectedCount == 0 && indices == {} && readRequests == 0 && retries == 0
      ensures !recovering && retryAttempt == 0 && retryCursor == 0
      ensures deadlineAt == now + (if bluetooth then 120_000 else 60_000) && retryAt == Some(now + if bluetooth then 3500 else 1800)
      ensures outbox == old(outbox) + [ListRequest]
    {
      hide Range;
      NoneInEmpty({});
      expectedCount, indices, active, recovering, retryAttempt, retryCursor, readRequests := 0, {}, true, false, 0, 0, 0;
      deadlineAt, retryAt, retries := now + DeadlineMs(bluetooth), Some(now + RetryDelayMs(bluetooth, false)), 0;
      outbox := outbox + [ListRequest];
    }

    method Finish(e: Emitted)
      requires Paid()
      modifies `active, `recovering, `deadlineAt, `readRequests, `retryAt, `outbox
      ensures Valid() && !active && outbox == old(outbox) + [e]
    {
      active, recovering, deadlineAt, readRequests, retryAt := false, false, 0, 0, None;
      outbox := outbox + [e];
    }

    ghost predicate Paid()
      reads this
    {
      && expectedCount <= PARAM_MAX_COUNT && indices <= Range(expectedCount)
      && retryAttempt <= PARAM_MAX_STALL_RETRIES
      && retries <= PARAM_MAX_STALL_RETRIES * |indices| + retryAttempt
    }

    /** A new index proves progress and clears the stall count. */
    method ReceiveIndex(index: nat, now: int)
      requires Paid() && index < expectedCount
      modifies `indices, `retryAttempt, `retryAt
      ensures Paid() && indices == old(indices) + {index}
      ensures index !in old(indices) ==> retryAttempt == 0 && retryAt == Some(now + RetryDelayMs(bluetooth, recovering))
      ensures index in old(indices) ==> retryAttempt == old(retryAttempt) && retryAt == old(retryAt)
    {
      var previousSize := |indices|;
      ghost var before := indices;
      indices := indices + {index};
      if |indices| > previousSize {
        retryAttempt := 0;
        retryAt := Some(now + RetryDelayMs(bluetooth, recovering));
      } else {
        GrowsOrSame(before, index);
      }
    }

    /** A parameter of the list. Completion is announced exactly when every index of the range has been received. */
    method HandleParamValue(index: nat, count: nat, now: int)
      requires Valid()
      modifies this
      ensures Valid()
      ensures !old(active) ==> outbox == old(outbox) && !active && indices == old(indices)
      ensures old(active) ==>
                expectedCount == if old(expectedCount) == 0 && index < count < 0xffff && count <= PARAM_MAX_COUNT then count
                                 else old(expectedCount)
      ensures old(active) ==> indices == old(indices) + if index < expectedCount then {index} else {}
      ensures old(active) ==>
                if old(expectedCount) == 0 && index < count < 0xffff && count > PARAM_MAX_COUNT then
                  !active && outbox == old(outbox) + [Failed(|indices|, 0, CountExceedsLimit)]
                else if expectedCount > 0 && indices == Range(expectedCount) then
                  !active && outbox == old(outbox) + [Complete(expectedCount)]
                else active && outbox == old(outbox)
      ensures active ==> recovering == old(recovering) && deadlineAt == old(deadlineAt) && readRequests == old(readRequests)
                         && retryCursor == old(retryCursor)
      ensures active ==> if index !in old(indices) && index < expectedCount
                         then retryAttempt == 0 && retryAt == Some(now + RetryDelayMs(bluetooth, recovering))
                         else retryAttempt == old(retryAttempt) && retryAt == old(retryAt)
    {
      hide Range, RetryDelayMs;
      if !active {
        return;
      }
      if expectedCount == 0 && 0 < count < 0xffff && index < count {
        if count > PARAM_MAX_COUNT {
          Finish(Failed(|indices|, expectedCount, CountExceedsLimit));
          return;
        }
        NoneInEmpty(indices);
        expectedCount := count;
      }
      if expectedCount > 0 && index < expectedCount {
        ReceiveIndex(index, now);
      }
      EnoughIsAll(indices, expectedCount);
      if expectedCount > 0 && |indices| >= expectedCount {
        Finish(Complete(expectedCount));
      }
    }

    /** The retry timer fired. */
    method RetryMissingParams(now: int, accepts: nat -> bool)
      requires Valid() && retryAt.Some?
      modifies this
      ensures Valid() && indices == old(indices) && expectedCount == old(expectedCount)
      ensures if now >= old(deadlineAt) then
                !active && outbox == old(outbox) + [Failed(|indices|, expectedCount, DeadlineExceeded)]
              else if old(readRequests) >= PARAM_MAX_READ_REQUESTS then
                !active && outbox == old(outbox) + [Failed(|indices|, expectedCount, BudgetExhausted)]
              else if old(retryAttempt) >= PARAM_MAX_STALL_RETRIES then
                !active && outbox == old(outbox) + [Failed(|indices|, expectedCount, RetryLimit)]
              else
                && active && retryAttempt == old(retryAttempt) + 1 && retries == old(retries) + 1
                && deadlineAt == old(deadlineAt) && retryAt == Some(now + if bluetooth then 3500 else 1800)
                && recovering == (old(recovering) || expectedCount > 0)
                && var missing, size := MissingFrom(indices, 0, expectedCount), if bluetooth then 8 else 32;
                   if expectedCount == 0 then
                     outbox == old(outbox) + [ListRequest, Retry(retryAttempt, 0, 0)]
                     && readRequests == old(readRequests) && retryCursor == old(retryCursor)
                   else
                     && missing != []
                     && outbox == old(outbox) + Reads(Batch(missing, old(retryCursor), size))
                                  + [Retry(retryAttempt, |missing|, expectedCount)]
                     && retryCursor == NextCursor(|missing|, old(retryCursor), size)
                     && readRequests == old(readRequests) + Taken(accepts, Least(size, |missing|))
    {
      hide Batch, NextCursor, MissingFrom, Range, Taken, Reads;
      retryAt := None;
      if now >= deadlineAt {
        Finish(Failed(|indices|, expectedCount, DeadlineExceeded));
        return;
      }
      if readRequests >= PARAM_MAX_READ_REQUESTS {
        Finish(Failed(|indices|, expectedCount, BudgetExhausted));
        return;
      }
      if retryAttempt >= PARAM_MAX_STALL_RETRIES {
        Finish(Failed(|indices|, expectedCount, RetryLimit));
        return;
      }
      retryAttempt := retryAttempt + 1;
      retries := retries + 1;
      if expectedCount == 0 {
        outbox := outbox + [ListRequest, Retry(retryAttempt, 0, 0)];
      } else {
        var missing := CollectMissing();
        SomethingMissing(indices, expectedCount);
        recovering := true;
        RequestBatch(missing, accepts);
        outbox := outbox + [Retry(retryAttempt, |missing|, expectedCount)];
      }
      retryAt := Some(now + RetryDelayMs(bluetooth, false));
    }

    method CollectMissing() returns (missing: seq<nat>)
      ensures missing == MissingFrom(indices, 0, expectedCount)
    {
      hide MissingFrom;
      missing := [];
      var index := 0;
      assert [] + MissingFrom(indices, 0, expectedCount) == MissingFrom(indices, 0, expectedCount);
      while index < expectedCount
        invariant index <= expectedCount
        invariant missing + MissingFrom(indices, index, expectedCount) == MissingFrom(indices, 0, expectedCount)
      {
        MissingUnfolds(missing, indices, index, expectedCount);
        if index !in indices {
          missing := missing + [index];
        }
        index := index + 1;
      }
      NothingBeyond(missing, indices, expectedCount);
    }

    method RequestBatch(missing: seq<nat>, accepts: nat -> bool)
      requires missing != []
      modifies `readRequests, `retryCursor, `outbox
      ensures outbox == old(outbox) + Reads(Batch(missing, old(retryCursor), BatchSize(bluetooth)))
      ensures retryCursor == NextCursor(|missing|, old(retryCursor), BatchSize(bluetooth))
      ensures readRequests == old(readRequests) + Taken(accepts, Least(BatchSize(bluetooth), |missing|))
    {
      var requestCount := Least(BatchSize(bluetooth), |missing|);
      ghost var batch := Batch(missing, retryCursor, BatchSize(bluetooth));
      var offset := 0;
      while offset < requestCount
        invariant offset <= requestCount && retryCursor == old(retryCursor)
        invariant outbox == old(outbox) + Reads(batch[..offset])
        invariant readRequests == old(readRequests) + Taken(accepts, offset)
      {
        outbox := outbox + [Read(missing[(retryCursor + offset) % |missing|])];
        if accepts(offset) {
          readRequests := readRequests + 1;
        }
        assert batch[..offset + 1] == batch[..offset] + [batch[offset]];
        offset := offset + 1;
      }
      assert batch[..offset] == batch;
      retryCursor := (retryCursor + requestCount) % |missing|;
    }
  }

  lemma MissingUnfolds(front: seq<nat>, received: set<nat>, index: nat, expected: nat)
    requires index < expected
    ensures front + MissingFrom(received, index, expected)
            == (if index in received then front else front + [index]) + MissingFrom(received, index + 1, expected)
  {
  }

  lemma NothingBeyond(front: seq<nat>, received: set<nat>, expected: nat)
    ensures front + MissingFrom(received, expected, expected) == front
  {
  }

  lemma GrowsOrSame(s: set<nat>, x: nat)
    ensures |s + {x}| <= |s| ==> s + {x} == s
  {
  }

  lemma SomethingMissing(s: set<nat>, n: nat)
    requires s < Range(n)
    ensures MissingFrom(s, 0, n) != []
  {
    var x :| x in Range(n) && x !in s;
    assert x in MissingFrom(s, 0, n);
  }

  /** Every index of this batch has been asked for. */
  ghost predicate Asked(outbox: seq<Emitted>, missing: seq<nat>, cursor: nat, size: nat)
    requires missing != []
  {
    forall x :: x in Batch(missing, cursor, size) ==> Read(x) in outbox
  }

  lemma BatchAsked(before: seq<Emitted>, missing: seq<nat>, cursor: nat, size: nat, last: Emitted)
    requires missing != []
    ensures Asked(before + Reads(Batch(missing, cursor, size)) + [last], missing, cursor, size)
  {
    var b := Batch(missing, cursor, size);
    forall x | x in b ensures Read(x) in before + Reads(b) + [last] {
      var k :| 0 <= k < |b| && b[k] == x;
      assert Reads(b)[k] == Read(x) && Reads(b)[k] in Reads(b);
    }
  }

  lemma StillAsked(outbox: seq<Emitted>, more: seq<Emitted>, missing: seq<nat>, cursor: nat, size: nat)
    requires missing != [] && Asked(outbox, missing, cursor, size)
    ensures Asked(outbox + more, missing, cursor, size)
  {
    hide Batch;
  }

  /** A run of retries with no reply in between. If at most twelve batches are missing, and neither the deadline nor the
      read budget comes first, every missing index has been asked for when the retry limit is reached. */
  method ChaseGaps(d: ParamDownloader, times: seq<int>, accepts: nat -> bool)
    requires d.Valid() && d.active && d.expectedCount > 0 && d.retryAttempt == 0 && |times| == PARAM_MAX_STALL_RETRIES
    requires forall k :: 0 <= k < |times| ==> times[k] < d.deadlineAt
    requires d.readRequests + (PARAM_MAX_STALL_RETRIES - 1) * BatchSize(d.bluetooth) < PARAM_MAX_READ_REQUESTS
    requires |MissingFrom(d.indices, 0, d.expectedCount)| <= PARAM_MAX_STALL_RETRIES * BatchSize(d.bluetooth)
    modifies d
    ensures d.Valid() && d.active && d.retryAttempt == PARAM_MAX_STALL_RETRIES && d.indices == old(d.indices)
    ensures forall x :: x in MissingFrom(old(d.indices), 0, old(d.expectedCount)) ==> Read(x) in d.outbox
  {
    hide Batch, MissingFrom, Range, Reads, CursorAfter, RetryDelayMs, Asked, NextCursor;
    ghost var missing, cursor, size := MissingFrom(d.indices, 0, d.expectedCount), d.retryCursor, BatchSize(d.bluetooth);
    GapsThere(d.indices, d.expectedCount);
    var k := 0;
    FirstCursor(|missing|, cursor, size);
    while k < |times|
      invariant k <= |times| && d.Valid() && d.active && d.retryAttempt == k && d.deadlineAt == old(d.deadlineAt)
      invariant d.indices == old(d.indices) && d.expectedCount == old(d.expectedCount)
      invariant d.readRequests <= old(d.readRequests) + k * size
      invariant d.retryCursor == CursorAfter(|missing|, cursor, size, k)
      invariant forall j :: 0 <= j < k ==> Asked(d.outbox, missing, CursorAfter(|missing|, cursor, size, j), size)
    {
      ghost var before := d.outbox;
      var c := d.retryCursor;
      d.RetryMissingParams(times[k], accepts);
      ghost var last := Retry(d.retryAttempt, |missing|, d.expectedCount);
      assert d.outbox == before + Reads(Batch(missing, c, size)) + [last];
      BatchAsked(before, missing, c, size, last);
      forall j | 0 <= j < k ensures Asked(d.outbox, missing, CursorAfter(|missing|, cursor, size, j), size) {
        StillAsked(before, Reads(Batch(missing, c, size)) + [last], missing, CursorAfter(|missing|, cursor, size, j), size);
        assert before + (Reads(Batch(missing, c, size)) + [last]) == d.outbox;
      }
      OneMoreCursor(|missing|, cursor, size, k);
      k := k + 1;
    }
    forall x | x in missing ensures Read(x) in d.outbox {
      var j := AllAskedBeforeLimit(missing, cursor, size, x);
      AskedMeans(d.outbox, missing, CursorAfter(|missing|, cursor, size, j), size, x);
    }
  }

  lemma AskedMeans(outbox: seq<Emitted>, missing: seq<nat>, cursor: nat, size: nat, x: nat)
    requires missing != [] && Asked(outbox, missing, cursor, size) && x in Batch(missing, cursor, size)
    ensures Read(x) in outbox
  {
  }

  lemma FirstCursor(m: nat, cursor: nat, size: nat)
    requires m > 0
    ensures CursorAfter(m, cursor, size, 0) == cursor
  {
  }

  lemma OneMoreCursor(m: nat, cursor: nat, size: nat, k: nat)
    requires m > 0
    ensures CursorAfter(m, cursor, size, k + 1) == NextCursor(m, CursorAfter(m, cursor, size, k), size)
  {
  }

  lemma GapsThere(indices: set<nat>, expected: nat)
    requires expected > 0 && indices < Range(expected)
    ensures MissingFrom(indices, 0, expected) != []
  {
    SomethingMissing(indices, expected);
  }
}
