/** When the way a byte stream is cut into chunks can be seen by the receiver, and when it cannot. */
module MavlinkChunking {
  import opened Bytes
  import opened Crc
  import opened MavlinkFrames

  /** What the session's listeners and counters see of a run of events. */
  datatype Tally = Tally(good: seq<bytes>, rejected: seq<bytes>, crcErrors: nat, garbageBytes: nat)

  function Plus(s: Tally, t: Tally): Tally {
    Tally(s.good + t.good, s.rejected + t.rejected, s.crcErrors + t.crcErrors, s.garbageBytes + t.garbageBytes)
  }

  const NOTHING := Tally([], [], 0, 0)

  function Single(e: Event): Tally {
    match e
    case Skipped(data) => Tally([], [], 0, |data|)
    case Rejected(frame) => Tally([], [frame], 0, 0)
    case Corrupt(_) => Tally([], [], 1, 1)
    case Good(frame) => Tally([frame], [], 0, 0)
  }

  function TallyOf(es: seq<Event>): Tally {
    if es == [] then NOTHING else Plus(Single(es[0]), TallyOf(es[1..]))
  }

  lemma PlusLaws(s: Tally, t: Tally, u: Tally)
    ensures Plus(Plus(s, t), u) == Plus(s, Plus(t, u))
    ensures Plus(NOTHING, s) == s
  {
  }

  lemma GarbageAdds(m: nat, n: nat, t: Tally)
    ensures Plus(Tally([], [], 0, m), Plus(Tally([], [], 0, n), t)) == Plus(Tally([], [], 0, m + n), t)
  {
  }

  /** The receiver gives up on an incomplete packet with an unknown id because a known one nests in it. */
  predicate AbandonsNow(reg: Registry, buffer: bytes) {
    var n := FrameLength(buffer);
    buffer != [] && n.Some? && |buffer| < n.value && HeaderOf(buffer).msgId !in reg && FindComplete(reg, buffer, 1).Some?
  }

  predicate Abandons(reg: Registry, buffer: bytes)
    decreases |buffer|
  {
    AbandonsNow(reg, buffer)
    || (buffer != [] && !Step(reg, buffer).Wait? && Abandons(reg, buffer[Taken(Step(reg, buffer))..]))
  }

  lemma UnrollTally(reg: Registry, buffer: bytes)
    requires buffer != [] && !Step(reg, buffer).Wait?
    ensures var a := Step(reg, buffer);
            TallyOf(Events(reg, buffer)) == Plus(Single(EventOf(a, buffer)), TallyOf(Events(reg, buffer[Taken(a)..])))
            && Rest(reg, buffer) == Rest(reg, buffer[Taken(a)..])
  {
    hide Step;
    var a := Step(reg, buffer);
    assert Events(reg, buffer)[1..] == Events(reg, buffer[Taken(a)..]);
  }

  lemma StepOverJunk(reg: Registry, buffer: bytes, n: nat)
    requires 0 < n <= |buffer|
    requires forall i :: 0 <= i < n ==> !IsMagic(buffer[i])
    requires n == |buffer| || IsMagic(buffer[n])
    ensures TallyOf(Events(reg, buffer)) == Plus(Tally([], [], 0, n), TallyOf(Events(reg, buffer[n..])))
    ensures Rest(reg, buffer) == Rest(reg, buffer[n..])
  {
    if n == |buffer| {
      MagicNowhere(buffer, 0);
    } else {
      MagicIs(buffer, 0, n);
    }
    assert Step(reg, buffer) == Garbage(n);
    UnrollTally(reg, buffer);
  }

  /** Junk in front of a buffer is only more garbage. */
  lemma JunkMerges(reg: Registry, junk: bytes, b: bytes)
    requires forall i :: 0 <= i < |junk| ==> !IsMagic(junk[i])
    ensures TallyOf(Events(reg, junk + b)) == Plus(Tally([], [], 0, |junk|), TallyOf(Events(reg, b)))
    ensures Rest(reg, junk + b) == Rest(reg, b)
  {
    hide Step, Events, Rest, NextMagic, TallyOf, Plus;
    var all := junk + b;
    PlusLaws(TallyOf(Events(reg, b)), NOTHING, NOTHING);
    NextMagicIsFirst(b, 0);
    var m := if NextMagic(b).Some? then NextMagic(b).value else |b|;
    forall i | 0 <= i < |junk| + m ensures !IsMagic(all[i]) {
      assert i >= |junk| ==> all[i] == b[i - |junk|];
    }
    if junk == [] {
      assert all == b;
    } else {
      assert m < |b| ==> all[|junk| + m] == b[m];
      StepOverJunk(reg, all, |junk| + m);
      assert all[|junk| + m..] == b[m..];
      if m > 0 {
        StepOverJunk(reg, b, m);
        GarbageAdds(|junk|, m, TallyOf(Events(reg, b[m..])));
      } else {
        assert b[m..] == b;
      }
    }
  }

  /** A decision that did not depend on the end of the buffer stands when more bytes follow. */
  lemma StepStands(reg: Registry, a: bytes, b: bytes)
    requires a != [] && !Step(reg, a).Wait? && !AbandonsNow(reg, a)
    requires NextMagic(a).Some?
    ensures Step(reg, a + b) == Step(reg, a)
  {
    hide FindComplete, MavlinkCrc, NextMagic;
    NextMagicIsFirst(a, 0);
    var start := NextMagic(a).value;
    assert forall i :: 0 <= i <= start ==> (a + b)[i] == a[i];
    MagicIs(a + b, 0, start);
    if start == 0 {
      var n := FrameLength(a);
      assert FrameLength(a + b) == n;
      assert (a + b)[..n.value] == a[..n.value];
    }
  }

  /** Cutting the stream where no packet has been abandoned cannot be seen: the same packets are delivered and
      rejected, the same errors counted, and the same bytes left over. */
  lemma {:induction false} CutInvisible(reg: Registry, a: bytes, b: bytes)
    requires !Abandons(reg, a)
    ensures TallyOf(Events(reg, a + b)) == Plus(TallyOf(Events(reg, a)), TallyOf(Events(reg, Rest(reg, a) + b)))
    ensures Rest(reg, a + b) == Rest(reg, Rest(reg, a) + b)
    decreases |a|
  {
    hide Step, AbandonsNow, Single, Plus, NextMagic, TallyOf, Events, Rest;
    if a == [] || Step(reg, a).Wait? {
      NothingHappens(reg, a);
      PlusLaws(TallyOf(Events(reg, a + b)), NOTHING, NOTHING);
    } else if NextMagic(a).None? {
      NoMagicAtAll(reg, a, b);
      var none: bytes := [];
      assert none + b == b;
    } else {
      var n, later := Taken(Step(reg, a)), a[Taken(Step(reg, a))..];
      StepStands(reg, a, b);
      CutInvisible(reg, later, b);
      assert (a + b)[n..] == later + b && (a + b)[..n] == a[..n] && (a + b)[0] == a[0];
      UnrollTally(reg, a);
      UnrollTally(reg, a + b);
      PlusLaws(Single(EventOf(Step(reg, a), a)), TallyOf(Events(reg, later)), TallyOf(Events(reg, Rest(reg, a) + b)));
    }
  }

  lemma NothingHappens(reg: Registry, a: bytes)
    requires a == [] || Step(reg, a).Wait?
    ensures TallyOf(Events(reg, a)) == NOTHING && Rest(reg, a) == a
  {
    hide Step;
  }

  lemma NoMagicAtAll(reg: Registry, a: bytes, b: bytes)
    requires a != [] && NextMagic(a).None?
    ensures TallyOf(Events(reg, a)) == Tally([], [], 0, |a|) && Rest(reg, a) == []
    ensures TallyOf(Events(reg, a + b)) == Plus(TallyOf(Events(reg, a)), TallyOf(Events(reg, b)))
    ensures Rest(reg, a + b) == Rest(reg, b)
  {
    hide Step;
    NextMagicIsFirst(a, 0);
    JunkMerges(reg, a, b);
    StepOverJunk(reg, a, |a|);
  }

  /** Nobody can tell that the stream was cut between `a` and `b`. */
  ghost predicate CutHidden(reg: Registry, a: bytes, b: bytes) {
    && TallyOf(Events(reg, a + b)) == Plus(TallyOf(Events(reg, a)), TallyOf(Events(reg, Rest(reg, a) + b)))
    && Rest(reg, a + b) == Rest(reg, Rest(reg, a) + b)
  }

  /** The exact condition: a cut stays hidden whatever follows if and only if no packet was abandoned before it. */
  lemma CutInvisibleExactly(reg: Registry, a: bytes)
    ensures !Abandons(reg, a) <==> forall b: bytes :: CutHidden(reg, a, b)
  {
    hide Abandons, TallyOf, Events, Rest, Plus;
    if Abandons(reg, a) {
      var b := AbandonedShows(reg, a);
      assert !CutHidden(reg, a, b);
    } else {
      forall b: bytes ensures CutHidden(reg, a, b) {
        CutInvisible(reg, a, b);
      }
    }
  }

  /** An abandoned packet can always still be completed: uncut it is then rejected whole. */
  lemma {:induction false} AbandonedShows(reg: Registry, a: bytes) returns (b: bytes)
    requires Abandons(reg, a)
    ensures TallyOf(Events(reg, a + b)) != Plus(TallyOf(Events(reg, a)), TallyOf(Events(reg, Rest(reg, a) + b)))
    decreases |a|
  {
    hide Step, AbandonsNow, Single, Plus, NextMagic, TallyOf, Events, Rest;
    if AbandonsNow(reg, a) {
      b := CompletedLater(reg, a);
    } else {
      var n, later := Taken(Step(reg, a)), a[Taken(Step(reg, a))..];
      b := AbandonedShows(reg, later);
      if NextMagic(a).None? {
        NoMagicLeaves(reg, a);
      }
      StepStands(reg, a, b);
      assert (a + b)[n..] == later + b && (a + b)[..n] == a[..n] && (a + b)[0] == a[0];
      UnrollTally(reg, a);
      UnrollTally(reg, a + b);
      var x := Single(EventOf(Step(reg, a), a));
      PlusLaws(x, TallyOf(Events(reg, later)), TallyOf(Events(reg, Rest(reg, a) + b)));
      PlusCancels(x, TallyOf(Events(reg, later + b)), Plus(TallyOf(Events(reg, later)), TallyOf(Events(reg, Rest(reg, a) + b))));
    }
  }

  lemma PlusCancels(x: Tally, s: Tally, t: Tally)
    ensures Plus(x, s) == Plus(x, t) ==> s == t
  {
    if Plus(x, s) == Plus(x, t) {
      assert s.good == (x.good + s.good)[|x.good|..] && t.good == (x.good + t.good)[|x.good|..];
      assert s.rejected == (x.rejected + s.rejected)[|x.rejected|..] && t.rejected == (x.rejected + t.rejected)[|x.rejected|..];
    }
  }

  lemma NoMagicLeaves(reg: Registry, a: bytes)
    requires a != [] && NextMagic(a).None?
    ensures !Abandons(reg, a)
  {
    NextMagicIsFirst(a, 0);
    assert a[|a|..] == [];
  }

  function Zeros(n: nat): bytes {
    seq(n, _ => 0)
  }

  lemma CompletedLater(reg: Registry, a: bytes) returns (b: bytes)
    requires AbandonsNow(reg, a)
    ensures TallyOf(Events(reg, a + b)) != Plus(TallyOf(Events(reg, a)), TallyOf(Events(reg, Rest(reg, a) + b)))
  {
    hide FindComplete, MavlinkCrc, NextMagic, Events, Rest, TallyOf;
    var n := FrameLength(a).value;
    b := Zeros(n - |a|);
    var whole := a + b;
    MagicIs(a, 0, 0);
    MagicIs(whole, 0, 0);
    assert FrameLength(whole) == Some(n) && whole[..n] == whole;
    UnrollTally(reg, a);
    UnrollTally(reg, whole);
    assert whole[n..] == [];
    NothingHappens(reg, []);
  }

  /** With every message id known, no packet is ever abandoned, so chunking never shows. */
  lemma {:induction false} KnownIdsNeverAbandon(reg: Registry, buffer: bytes)
    requires forall id: nat :: id < 0x1000000 ==> id in reg
    ensures !Abandons(reg, buffer)
    decreases |buffer|
  {
    hide FindComplete, MavlinkCrc;
    if buffer != [] && !Step(reg, buffer).Wait? {
      KnownIdsNeverAbandon(reg, buffer[Taken(Step(reg, buffer))..]);
    }
    if AbandonsNow(reg, buffer) {
      IdInRange(buffer);
    }
  }

  lemma IdInRange(frame: bytes)
    requires |frame| >= 6 && (frame[0] != V1_MAGIC ==> |frame| >= 10)
    ensures 0 <= HeaderOf(frame).msgId < 0x1000000
  {
  }

  /** The header of an unknown version-1 packet that claims to contain `inner` and nothing else. */
  function Wrapper(id: byte, inner: bytes): bytes
    requires |inner| < 253
  {
    [V1_MAGIC, |inner|, 0, 0, 0, id]
  }

  /** The concrete failure: a good packet inside an unknown one. In one piece the outer packet is rejected and
      nothing delivered; cut before the outer checksum, the inner packet is delivered. */
  lemma ChunkingCanShow(reg: Registry, inner: bytes, id: byte)
    requires IsGood(reg, inner) && |inner| < 253 && id < 253 && id !in reg
    ensures var outer := Wrapper(id, inner);
            Fed(reg, [outer + inner + [0, 0]]) == ([Rejected(outer + inner + [0, 0])], [])
            && Fed(reg, [outer + inner, [0, 0]]) == ([Skipped(outer), Good(inner), Skipped([0, 0])], [])
  {
    hide MavlinkCrc;
    hide Step, Wrapper, Events, Rest;
    var outer := Wrapper(id, inner);
    var zeros: bytes := [0, 0];
    WholeIsRejected(reg, inner, id);
    PartIsAbandoned(reg, inner, id);
    ZerosAreGarbage(reg);
    FedOne(reg, outer + inner + zeros);
    FedTwo(reg, outer + inner, zeros);
    var none: bytes := [];
    assert none + zeros == zeros;
    assert [Skipped(outer), Good(inner)] + [Skipped(zeros)] == [Skipped(outer), Good(inner), Skipped(zeros)];
  }

  lemma FedOne(reg: Registry, chunk: bytes)
    ensures Fed(reg, [chunk]) == (Events(reg, chunk), Rest(reg, chunk))
  {
    hide Events, Rest;
    var none: bytes := [];
    assert none + chunk == chunk;
    var noEvents: seq<Event> := [];
    assert noEvents + Events(reg, chunk) == Events(reg, chunk);
    assert Fed(reg, [chunk][..0]) == ([], []);
  }

  lemma FedTwo(reg: Registry, first: bytes, second: bytes)
    ensures Fed(reg, [first, second])
            == (Events(reg, first) + Events(reg, Rest(reg, first) + second), Rest(reg, Rest(reg, first) + second))
  {
    hide Events, Rest;
    FedOne(reg, first);
    assert [first, second][..1] == [first];
  }

  lemma ZerosAreGarbage(reg: Registry)
    ensures Events(reg, [0, 0]) == [Skipped([0, 0])] && Rest(reg, [0, 0]) == []
  {
    var zeros: bytes := [0, 0];
    MagicNowhere(zeros, 0);
    hide Events, Rest;
    UnrollRun(reg, zeros);
    assert zeros[2..] == [] && zeros[..2] == zeros;
    NothingRuns(reg);
  }

  lemma NothingRuns(reg: Registry)
    ensures Events(reg, []) == [] && Rest(reg, []) == []
  {
  }

  lemma WholeIsRejected(reg: Registry, inner: bytes, id: byte)
    requires IsGood(reg, inner) && |inner| < 253 && id < 253 && id !in reg
    ensures var whole := Wrapper(id, inner) + inner + [0, 0];
            Events(reg, whole) == [Rejected(whole)] && Rest(reg, whole) == []
  {
    hide MavlinkCrc, FindComplete;
    var whole := Wrapper(id, inner) + inner + [0, 0];
    MagicFirst(whole);
    assert FrameLength(whole) == Some(|whole|);
    assert whole[..|whole|] == whole && whole[|whole|..] == [];
  }

  lemma PartIsAbandoned(reg: Registry, inner: bytes, id: byte)
    requires IsGood(reg, inner) && |inner| < 253 && id < 253 && id !in reg
    ensures var part := Wrapper(id, inner) + inner;
            Events(reg, part) == [Skipped(Wrapper(id, inner)), Good(inner)] && Rest(reg, part) == []
  {
    hide MavlinkCrc;
    hide Events, Rest, Step;
    var part := Wrapper(id, inner) + inner;
    AbandonStep(reg, inner, id);
    UnrollRun(reg, part);
    assert part[6..] == inner && part[..6] == Wrapper(id, inner);
    GoodIsDelivered(reg, inner, []);
    assert inner + [] == inner && inner[|inner|..] == [] && inner[..|inner|] == inner;
    UnrollRun(reg, inner);
    NothingRuns(reg);
  }

  lemma AbandonStep(reg: Registry, inner: bytes, id: byte)
    requires IsGood(reg, inner) && |inner| < 253 && id < 253 && id !in reg
    ensures Step(reg, Wrapper(id, inner) + inner) == Garbage(6)
  {
    hide MavlinkCrc, NextMagic, IsGood;
    var part := Wrapper(id, inner) + inner;
    assert IsMagic(part[0]);
    assert IsFrame(inner) && part[6] == inner[0] && IsMagic(part[6]) by {
      GoodIsFrame(reg, inner);
    }
    MagicFirst(part);
    MagicIs(part, 1, 6);
    assert part[6..6 + |inner|] == inner;
    assert FrameLength(part, 6) == FrameLength(inner);
    assert FindComplete(reg, part, 1) == Some(6);
  }

  lemma GoodIsFrame(reg: Registry, frame: bytes)
    requires IsGood(reg, frame)
    ensures IsFrame(frame)
  {
  }
}
