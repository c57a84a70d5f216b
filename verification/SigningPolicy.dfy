/** Who may be heard when signing is on, told by the history of a session alone: which sources have proven that they
    sign, which stamps have been delivered, and what follows for the next packet. */
module SigningPolicy {
  import opened Bytes
  import opened MavlinkFrames
  import opened OrderedMaps
  import opened Watermarks
  import opened CodecPolicy

  /** One thing that happens to the receiving side: a framing event at some clock reading, or a reset. */
  datatype Input = Heard(event: Event, now: int) | WasReset

  ghost predicate Framed(hs: seq<Input>) {
    forall i :: 0 <= i < |hs| && hs[i].Heard? && hs[i].event.Good? ==> IsFrame(hs[i].event.frame)
  }

  function Turn(opts: Options, c: Core, i: Input): Core
    requires i.Heard? && i.event.Good? ==> IsFrame(i.event.frame)
  {
    match i
    case Heard(e, now) => Apply(opts, now, c, e)
    case WasReset => Cleared(opts, c)
  }

  function After(opts: Options, c: Core, hs: seq<Input>): Core
    requires Framed(hs)
  {
    if hs == [] then c else Turn(opts, After(opts, c, hs[..|hs| - 1]), hs[|hs| - 1])
  }

  /** What one write does is such a run. */
  lemma {:induction false} WritesAreRuns(opts: Options, now: int, c: Core, es: seq<Event>)
    requires Sound(es)
    ensures var hs := seq(|es|, i requires 0 <= i < |es| => Heard(es[i], now));
            Framed(hs) && After(opts, c, hs) == ApplyAll(opts, now, c, es)
    decreases |es|
  {
    hide Apply, IsFrame;
    var hs := seq(|es|, i requires 0 <= i < |es| => Heard(es[i], now));
    if es != [] {
      var front, last := es[..|es| - 1], es[|es| - 1];
      WritesAreRuns(opts, now, c, front);
      assert hs[..|hs| - 1] == seq(|front|, i requires 0 <= i < |front| => Heard(front[i], now));
      assert front + [last] == es;
      ApplyAllConcat(opts, now, c, front, [last]);
      assert ApplyAll(opts, now, ApplyAll(opts, now, c, front), [last]) == Apply(opts, now, ApplyAll(opts, now, c, front), last);
    }
  }

  // ---------------------------------------------------------------------------------------------------
  // Sources that sign
  // ---------------------------------------------------------------------------------------------------

  predicate Supported(h: Header) {
    !h.version.V2? || h.incompatibility / 2 == 0
  }

  /** The packet shows that its source signs: supported, signed, and the signature is right. Its stamp is of no account. */
  predicate Proves(opts: Options, frame: bytes)
    requires IsFrame(frame)
  {
    && opts.signing.Some? && Supported(HeaderOf(frame)) && FlagSigned(HeaderOf(frame))
    && (SignedIsLong(frame); SignatureMatches(opts.signing.value.mac, frame))
  }

  predicate ProvesSource(opts: Options, i: Input, source: SourceKey)
    requires i.Heard? && i.event.Good? ==> IsFrame(i.event.frame)
  {
    i.Heard? && i.event.Good? && Proves(opts, i.event.frame) && SourceOf(HeaderOf(i.event.frame)) == source
  }

  /** The sources in the order in which they were newly found to sign. */
  function Learnt(opts: Options, c: Core, hs: seq<Input>): seq<SourceKey>
    requires Framed(hs)
  {
    if hs == [] then []
    else
      var front, i := hs[..|hs| - 1], hs[|hs| - 1];
      if i.Heard? && i.event.Good? && Proves(opts, i.event.frame)
         && SourceOf(HeaderOf(i.event.frame)) !in After(opts, c, front).signedSources
      then Learnt(opts, c, front) + [SourceOf(HeaderOf(i.event.frame))]
      else Learnt(opts, c, front)
  }

  function Youngest<T>(s: seq<T>, cap: nat): seq<T> {
    if |s| <= cap then s else s[|s| - cap..]
  }

  /** What a packet does to the collection of signing sources. */
  lemma SourcesAfterPacket(opts: Options, now: int, c: Core, frame: bytes)
    requires IsFrame(frame) && |c.signedSources| <= MAX_TRACKED_SOURCES
    ensures var d := Handle(opts, now, c, frame);
            if Proves(opts, frame) && SourceOf(HeaderOf(frame)) !in c.signedSources
            then d.signedSources == Youngest(c.signedSources + [SourceOf(HeaderOf(frame))], MAX_TRACKED_SOURCES)
            else d.signedSources == c.signedSources
    ensures Proves(opts, frame) ==> SourceOf(HeaderOf(frame)) in Handle(opts, now, c, frame).signedSources
  {
    hide Find, TimestampOf, LinkIdOf, SignatureMatches, Touch, Pass, HeaderOf;
    var h := HeaderOf(frame);
    PassMeans(opts, c, frame);
    if FlagSigned(h) {
      SignedIsLong(frame);
      var learnt := c.(signedSources := Learn(c.signedSources, SourceOf(h)));
      PassMeans(opts, Accept(learnt, (h.sysId, h.compId, LinkIdOf(frame)), TimestampOf(frame)), frame);
    }
  }

  /** In every run the sources remembered are the last 256 newly found ones: a source stays remembered exactly until
      256 further ones have been found, whatever else happens, resets included. */
  lemma {:induction false} RememberedSources(opts: Options, c: Core, hs: seq<Input>)
    requires Framed(hs) && c.signedSources == []
    ensures After(opts, c, hs).signedSources == Youngest(Learnt(opts, c, hs), MAX_TRACKED_SOURCES)
    decreases |hs|
  {
    hide Handle, HeaderOf, Proves, IsFrame;
    if hs != [] {
      var front, i := hs[..|hs| - 1], hs[|hs| - 1];
      RememberedSources(opts, c, front);
      if i.Heard? && i.event.Good? {
        SourcesAfterPacket(opts, i.now, After(opts, c, front), i.event.frame);
      }
    }
  }

  /** A source newly found to sign stays remembered until 256 further sources have been found, and no longer, unless it
      has been found again among the last 256. */
  lemma RememberedUntil(opts: Options, c: Core, hs: seq<Input>, earlier: seq<SourceKey>, source: SourceKey, since: seq<SourceKey>)
    requires Framed(hs) && c.signedSources == []
    requires Learnt(opts, c, hs) == earlier + [source] + since
    ensures source in After(opts, c, hs).signedSources
            <==> |since| < MAX_TRACKED_SOURCES || source in Youngest(since, MAX_TRACKED_SOURCES)
  {
    hide After, Learnt, IsFrame;
    RememberedSources(opts, c, hs);
    var all := earlier + [source] + since;
    var y := Youngest(all, MAX_TRACKED_SOURCES);
    if |since| < MAX_TRACKED_SOURCES {
      assert y[|earlier| - (|all| - |y|)] == source;
    } else {
      assert y == Youngest(since, MAX_TRACKED_SOURCES);
    }
  }

  /** Until then every unsigned packet of that source is refused. */
  lemma DowngradeRefused(opts: Options, now: int, c: Core, hs: seq<Input>, i: nat, source: SourceKey, since: seq<SourceKey>,
                         frame: bytes)
    requires Framed(hs) && c.signedSources == [] && i < |hs|
    requires IsFrame(frame) && opts.signing.Some? && !FlagSigned(HeaderOf(frame)) && SourceOf(HeaderOf(frame)) == source
    requires ProvesSource(opts, hs[i], source) && source !in After(opts, c, hs[..i]).signedSources
    requires Learnt(opts, c, hs) == Learnt(opts, c, hs[..i + 1]) + since && |since| < MAX_TRACKED_SOURCES
    ensures var before := After(opts, c, hs);
            Handle(opts, now, before, frame)
            == before.(counters := before.counters.(rejectedPackets := before.counters.rejectedPackets + 1))
  {
    hide After, HeaderOf, Pass, Proves;
    assert hs[..i + 1][..i] == hs[..i];
    RememberedUntil(opts, c, hs, Learnt(opts, c, hs[..i]), source, since);
  }

  // ---------------------------------------------------------------------------------------------------
  // Stamps delivered
  // ---------------------------------------------------------------------------------------------------

  function StampEntry(frame: bytes): Entry<ReplayKey, int>
    requires IsFrame(frame) && FlagSigned(HeaderOf(frame))
  {
    SignedIsLong(frame);
    Entry((HeaderOf(frame).sysId, HeaderOf(frame).compId, LinkIdOf(frame)), TimestampOf(frame))
  }

  /** The keys and stamps of the signed packets that listeners have been given, in order. */
  function Deliveries(opts: Options, c: Core, hs: seq<Input>): History<ReplayKey>
    requires Framed(hs)
  {
    if hs == [] then []
    else
      var front, i := hs[..|hs| - 1], hs[|hs| - 1];
      if i.Heard? && i.event.Good? && FlagSigned(HeaderOf(i.event.frame))
         && |After(opts, c, hs).messages| > |After(opts, c, front).messages|
      then Deliveries(opts, c, front) + [StampEntry(i.event.frame)]
      else Deliveries(opts, c, front)
  }

  lemma DeliveryIsRecorded(opts: Options, now: int, c: Core, frame: bytes)
    requires IsFrame(frame) && opts.signing.Some?
    ensures var d := Handle(opts, now, c, frame);
            d.acceptances == if FlagSigned(HeaderOf(frame)) && |d.messages| > |c.messages| then c.acceptances + [StampEntry(frame)]
                             else c.acceptances
  {
    hide Find, TimestampOf, LinkIdOf, SignatureMatches, Touch, MessageOf, HeaderOf, Learn, Pass, AccountSequence;
    var h := HeaderOf(frame);
    PassMeans(opts, c, frame);
    if FlagSigned(h) {
      SignedIsLong(frame);
      var learnt := c.(signedSources := Learn(c.signedSources, SourceOf(h)));
      PassMeans(opts, Accept(learnt, (h.sysId, h.compId, LinkIdOf(frame)), TimestampOf(frame)), frame);
    }
  }

  /** In every run the watermark table is the one the deliveries leave behind. */
  lemma {:induction false} RememberedStamps(opts: Options, c: Core, hs: seq<Input>)
    requires Framed(hs) && Guarded(c) && c.acceptances == [] && opts.signing.Some?
    ensures Guarded(After(opts, c, hs))
    ensures After(opts, c, hs).replayTimestamps == Table(Deliveries(opts, c, hs), MAX_TRACKED_SOURCES)
    ensures After(opts, c, hs).acceptances == Deliveries(opts, c, hs)
    decreases |hs|
  {
    hide Handle, HeaderOf, IsFrame, StampEntry, Table, Admissible;
    if hs != [] {
      var front, i := hs[..|hs| - 1], hs[|hs| - 1];
      RememberedStamps(opts, c, front);
      if i.Heard? && i.event.Good? {
        DeliveryIsRecorded(opts, i.now, After(opts, c, front), i.event.frame);
        HandleKeepsGuard(opts, i.now, After(opts, c, front), i.event.frame);
      }
    }
  }

  /** Delivery `j` is the last one of its key, and fewer than 256 other keys have been delivered since. */
  ghost predicate InForce(h: History<ReplayKey>, key: ReplayKey, j: nat) {
    j < |h| && h[j].key == key && key !in KeysOf(h[j + 1..]) && |KeysOf(h[j + 1..])| < MAX_TRACKED_SOURCES
  }

  lemma {:induction false} TableKnowsDelivered(h: History<ReplayKey>, key: ReplayKey)
    requires key !in KeysOf(h)
    ensures Find(Table(h, MAX_TRACKED_SOURCES), key).None?
    decreases |h|
  {
    FindNowhere(Table(h, MAX_TRACKED_SOURCES), key);
    if h != [] {
      var front := h[..|h| - 1];
      assert h == front + [h[|h| - 1]];
      KeysOfConcat(front, [h[|h| - 1]]);
      assert h[|h| - 1].key in KeysOf(h);
      TableKnowsDelivered(front, key);
      FindNowhere(Table(front, MAX_TRACKED_SOURCES), key);
      TableShape(front, MAX_TRACKED_SOURCES);
      WithoutKeepsOut(Table(front, MAX_TRACKED_SOURCES), h[|h| - 1].key, key);
    }
  }

  lemma LastOf(h: History<ReplayKey>, key: ReplayKey) returns (j: nat)
    requires key in KeysOf(h)
    ensures j < |h| && h[j].key == key && key !in KeysOf(h[j + 1..])
  {
    j := |h| - 1;
    while h[j].key != key
      invariant j < |h| && key !in KeysOf(h[j + 1..])
      invariant exists q :: 0 <= q <= j && h[q].key == key
      decreases j
    {
      assert h[j..] == [h[j]] + h[j + 1..];
      KeysOfConcat([h[j]], h[j + 1..]);
      j := j - 1;
    }
  }

  lemma KeyAt(h: History<ReplayKey>, j: nat)
    requires j < |h|
    ensures h[j].key in KeysOf(h)
  {
  }

  lemma WatermarkInForce(h: History<ReplayKey>, key: ReplayKey)
    ensures Find(Table(h, MAX_TRACKED_SOURCES), key).Some? <==> exists j: nat :: InForce(h, key, j)
    ensures forall j: nat :: InForce(h, key, j) ==> Find(Table(h, MAX_TRACKED_SOURCES), key) == Some(h[j].value)
  {
    hide Table, Find, KeysOf;
    if key !in KeysOf(h) {
      TableKnowsDelivered(h, key);
      forall j: nat | j < |h| ensures h[j].key != key {
        KeyAt(h, j);
      }
    } else {
      var last := LastOf(h, key);
      WatermarkGone(h, last, MAX_TRACKED_SOURCES);
    }
    forall j: nat | InForce(h, key, j) ensures Find(Table(h, MAX_TRACKED_SOURCES), key) == Some(h[j].value) {
      var p := RememberedOrForgotten(h, j, MAX_TRACKED_SOURCES);
      TableShape(h, MAX_TRACKED_SOURCES);
      FindAt(Table(h, MAX_TRACKED_SOURCES), p);
    }
  }

  // ---------------------------------------------------------------------------------------------------
  // The next packet
  // ---------------------------------------------------------------------------------------------------

  /** What the policy asks of a packet: no unknown flags; unsigned, that signing is not mandatory and its source not among
      the signing ones; signed, a right signature, a time not too far ahead, and a stamp above the last one of its key, or
      a recent enough one if there is none in force. */
  ghost predicate Permitted(opts: Options, now: int, frame: bytes, signing: seq<SourceKey>, delivered: History<ReplayKey>)
    requires IsFrame(frame)
  {
    && Supported(HeaderOf(frame))
    && (opts.signing.Some? ==>
          if FlagSigned(HeaderOf(frame)) then
            && Proves(opts, frame)
            && StampEntry(frame).value <= now + SIGNATURE_MAX_FUTURE_TICKS
            && (forall j: nat :: InForce(delivered, StampEntry(frame).key, j) ==> delivered[j].value < StampEntry(frame).value)
            && (opts.signing.value.allowStaleFirstPacket || StampEntry(frame).value >= now - SIGNATURE_MAX_AGE_TICKS
                || exists j: nat :: InForce(delivered, StampEntry(frame).key, j))
          else
            !opts.signing.value.requireSigned && SourceOf(HeaderOf(frame)) !in signing)
  }

  /** After any run from the start the next packet is delivered if and only if the history permits it; otherwise it is
      counted as rejected and nobody hears of it. */
  lemma DeliveredExactlyWhen(opts: Options, now: int, c: Core, hs: seq<Input>, frame: bytes)
    requires Framed(hs) && IsFrame(frame) && Guarded(c) && c.acceptances == [] && c.signedSources == []
    ensures var before := After(opts, c, hs);
            var after := Handle(opts, now, before, frame);
            if Permitted(opts, now, frame, Youngest(Learnt(opts, c, hs), MAX_TRACKED_SOURCES), Deliveries(opts, c, hs)) then
              && after.messages == before.messages + [MessageOf(frame)]
              && after.counters.rxPackets == before.counters.rxPackets + 1
              && after.counters.rejectedPackets == before.counters.rejectedPackets
            else
              && after.messages == before.messages && after.lastRxSeq == before.lastRxSeq
              && after.counters == before.counters.(rejectedPackets := before.counters.rejectedPackets + 1)
  {
    hide After, Learnt, Deliveries, Youngest, MessageOf, Guarded, InForce, Find, Touch, Pass, SignatureMatches, TimestampOf, LinkIdOf;
    var before := After(opts, c, hs);
    RememberedSources(opts, c, hs);
    PassMeans(opts, before, frame);
    if opts.signing.Some? && FlagSigned(HeaderOf(frame)) {
      SignedIsLong(frame);
      RememberedStamps(opts, c, hs);
      WatermarkInForce(Deliveries(opts, c, hs), StampEntry(frame).key);
      var learnt := before.(signedSources := Learn(before.signedSources, SourceOf(HeaderOf(frame))));
      PassMeans(opts, Accept(learnt, StampEntry(frame).key, StampEntry(frame).value), frame);
    }
  }
}
