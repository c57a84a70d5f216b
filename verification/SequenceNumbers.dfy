/** Sequence numbers travel modulo 256. What the session counts is what the sources really sent, as long as no source is
    more than half the range off. */
module SequenceNumbers {
  import opened Bytes
  import opened OrderedMaps
  import opened CodecPolicy

  /** The packets of all sources as they arrive, each with the true, never wrapping number its source gave it. */
  type Arrivals = seq<Entry<SourceKey, nat>>

  function LastOf(h: Arrivals, key: SourceKey): Option<nat> {
    if h == [] then None else if h[|h| - 1].key == key then Some(h[|h| - 1].value) else LastOf(h[..|h| - 1], key)
  }

  function Wrapped(n: nat): byte {
    n % 256
  }

  function Accounted(c: Core, h: Arrivals): Core {
    if h == [] then c
    else AccountSequence(Accounted(c, h[..|h| - 1]), h[|h| - 1].key, Wrapped(h[|h| - 1].value))
  }

  /** Each packet is less than half the range away from the one before it of the same source. */
  ghost predicate Near(h: Arrivals) {
    forall i {:trigger h[i]} :: 0 <= i < |h| ==>
      var before := LastOf(h[..i], h[i].key);
      before.Some? ==> before.value - 128 <= h[i].value < before.value + 128
  }

  datatype Tally = Tally(missed: nat, repeated: nat, stale: nat)

  /** One more packet of a source: skipped ones before it, sent again, or sent after a later one. */
  function Added(t: Tally, before: Option<nat>, n: nat): Tally {
    if before.None? then t
    else if n == before.value then t.(repeated := t.repeated + 1)
    else if n < before.value then t.(stale := t.stale + 1)
    else t.(missed := t.missed + (n - before.value - 1))
  }

  /** The counters of the session moved on by a tally. */
  function Counted(k: Counters, t: Tally): Counters {
    k.(rxSequenceLost := k.rxSequenceLost + t.missed, rxDuplicates := k.rxDuplicates + t.repeated,
       rxOutOfOrder := k.rxOutOfOrder + t.stale)
  }

  /** Packets a source has skipped, sent again, and sent after a later one. */
  function TallyOf(h: Arrivals): Tally {
    if h == [] then Tally(0, 0, 0)
    else
      Added(TallyOf(h[..|h| - 1]), LastOf(h[..|h| - 1], h[|h| - 1].key), h[|h| - 1].value)
  }

  ghost predicate Knows(m: seq<Entry<SourceKey, byte>>, h: Arrivals) {
    forall k: SourceKey :: Find(m, k) == (if LastOf(h, k).Some? then Some(Wrapped(LastOf(h, k).value)) else None)
  }

  lemma {:induction false} PutFinds(m: seq<Entry<SourceKey, byte>>, k: SourceKey, v: byte, other: SourceKey)
    ensures Find(Put(m, k, v), other) == if other == k then Some(v) else Find(m, other)
  {
    if m != [] && m[0].key != k {
      PutFinds(m[1..], k, v, other);
    }
  }

  lemma {:induction false} AppendIsPut(m: seq<Entry<SourceKey, byte>>, k: SourceKey, v: byte)
    requires Find(m, k).None?
    ensures m + [Entry(k, v)] == Put(m, k, v) && |Put(m, k, v)| == |m| + 1
  {
    if m != [] {
      AppendIsPut(m[1..], k, v);
      assert m + [Entry(k, v)] == [m[0]] + (m[1..] + [Entry(k, v)]);
    }
  }

  lemma {:induction false} LastAmongKeys(h: Arrivals, key: SourceKey)
    ensures LastOf(h, key).Some? <==> key in KeysOf(h)
  {
    if h != [] {
      LastAmongKeys(h[..|h| - 1], key);
      assert h == h[..|h| - 1] + [h[|h| - 1]];
      KeysOfSnoc(h[..|h| - 1], h[|h| - 1]);
    }
  }

  /** What wraps at 256 still tells steps of less than half the range apart, forwards and backwards. */
  lemma StepsTold(before: nat, n: nat)
    requires before - 128 <= n < before + 128
    ensures var distance := (Wrapped(n) as int - Wrapped(before) as int + 256) % 256;
            distance == if n >= before then n - before else n - before + 256
  {
    assert (n % 256 - before % 256 + 256) % 256 == (n - before + 256) % 256;
  }

  lemma KeysGrow(h: Arrivals, e: Entry<SourceKey, nat>)
    ensures |KeysOf(h + [e])| == |KeysOf(h)| + if e.key in KeysOf(h) then 0 else 1
  {
    KeysOfSnoc(h, e);
    if e.key in KeysOf(h) {
      assert KeysOf(h) + {e.key} == KeysOf(h);
    }
  }

  lemma OneArrival(a: Core, key: SourceKey, n: nat, before: Option<nat>)
    requires Find(a.lastRxSeq, key) == if before.Some? then Some(Wrapped(before.value)) else None
    requires before.Some? ==> before.value - 128 <= n < before.value + 128
    requires before.None? ==> |a.lastRxSeq| < MAX_TRACKED_SOURCES
    ensures var b := AccountSequence(a, key, Wrapped(n));
            && b.counters == Counted(a.counters, Added(Tally(0, 0, 0), before, n))
            && |b.lastRxSeq| == |a.lastRxSeq| + (if before.None? then 1 else 0)
            && forall k: SourceKey :: Find(b.lastRxSeq, k) == if k == key then Some(Wrapped(n)) else Find(a.lastRxSeq, k)
  {
    hide Put, Find;
    var m := a.lastRxSeq;
    forall k: SourceKey ensures Find(Put(m, key, Wrapped(n)), k) == if k == key then Some(Wrapped(n)) else Find(m, k) {
      PutFinds(m, key, Wrapped(n), k);
    }
    if before.None? {
      AppendIsPut(m, key, Wrapped(n));
    } else {
      StepsTold(before.value, n);
      PutKeepsSize(m, key, Wrapped(n));
    }
  }

  /** For any interleaving of at most 256 sources the counters say exactly how many packets were skipped, repeated and
      overtaken. */
  lemma {:induction false} CountersTell(c: Core, h: Arrivals)
    requires c.lastRxSeq == [] && Near(h) && |KeysOf(h)| <= MAX_TRACKED_SOURCES
    ensures Accounted(c, h).counters == Counted(c.counters, TallyOf(h))
    ensures Knows(Accounted(c, h).lastRxSeq, h) && |Accounted(c, h).lastRxSeq| == |KeysOf(h)|
  {
    hide AccountSequence, Find;
    if h != [] {
      var front, e := h[..|h| - 1], h[|h| - 1];
      assert h == front + [e];
      KeysGrow(front, e);
      NearBefore(h);
      CountersTell(c, front);
      LastAmongKeys(front, e.key);
      assert h[..|front|] == front;
      OneArrival(Accounted(c, front), e.key, e.value, LastOf(front, e.key));
    } else {
      NothingKnown(h);
    }
  }

  lemma NothingKnown(h: Arrivals)
    requires h == []
    ensures Knows([], h) && KeysOf(h) == {}
  {
  }

  lemma NearBefore(h: Arrivals)
    requires h != [] && Near(h)
    ensures Near(h[..|h| - 1])
    ensures var before := LastOf(h[..|h| - 1], h[|h| - 1].key);
            before.Some? ==> before.value - 128 <= h[|h| - 1].value < before.value + 128
  {
    var front := h[..|h| - 1];
    forall i {:trigger front[i]} | 0 <= i < |front|
      ensures var before := LastOf(front[..i], front[i].key);
              before.Some? ==> before.value - 128 <= front[i].value < before.value + 128
    {
      assert front[i] == h[i] && front[..i] == h[..i];
    }
  }
}
