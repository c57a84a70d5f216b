/** What the codec session does with a packet that has passed framing and checksum: flags, signature, replay
    watermark, sequence accounting, delivery. */
module CodecPolicy {
  import opened Bytes
  import opened MavlinkFrames
  import opened OrderedMaps
  import opened Watermarks

  const MAX_TRACKED_SOURCES := 256
  const SIGNATURE_MAX_AGE_TICKS := 6_000_000
  const SIGNATURE_MAX_FUTURE_TICKS := 3_000_000

  type Mac = b: bytes | |b| == 6 witness [0, 0, 0, 0, 0, 0]

  /** The keyed hash is a parameter; only the six bytes that travel matter. */
  datatype Signing = Signing(mac: bytes -> Mac, linkId: byte, requireSigned: bool, allowStaleFirstPacket: bool)

  datatype Protocol = Auto | OnlyV1 | OnlyV2

  datatype Options = Options(protocol: Protocol, signing: Option<Signing>, maxBuffered: nat, sysId: byte, compId: byte)

  type SourceKey = (byte, byte)
  type ReplayKey = (byte, byte, byte)

  datatype Message = Message(header: Header, payload: bytes, signed: bool)

  datatype Counters = Counters(rxPackets: nat, rxSequenceLost: nat, rxDuplicates: nat, rxOutOfOrder: nat,
                               crcErrors: nat, garbageBytes: nat, rejectedPackets: nat)

  const ZERO_COUNTERS := Counters(0, 0, 0, 0, 0, 0, 0)

  /** The receiving half of a session. `messages` is what listeners have been told and `acceptances` the history
      of accepted signed packets; neither is read by the session itself. */
  datatype Core = Core(negotiated: Version, lastRxSeq: seq<Entry<SourceKey, byte>>,
                       replayTimestamps: seq<Entry<ReplayKey, int>>, signedSources: seq<SourceKey>,
                       counters: Counters, messages: seq<Message>, acceptances: seq<Entry<ReplayKey, int>>)

  function SourceOf(h: Header): SourceKey {
    (h.sysId, h.compId)
  }

  predicate FlagSigned(h: Header) {
    h.version.V2? && h.incompatibility % 2 == 1
  }

  function LinkIdOf(frame: bytes): byte
    requires |frame| >= SIGNATURE_LENGTH
  {
    frame[|frame| - 13]
  }

  function TimestampOf(frame: bytes): int
    requires |frame| >= SIGNATURE_LENGTH
  {
    LittleEndian(frame[|frame| - 12..|frame| - 6])
  }

  predicate SignatureMatches(mac: bytes -> Mac, frame: bytes)
    requires |frame| >= SIGNATURE_LENGTH
  {
    frame[|frame| - 6..] == mac(frame[..|frame| - 6])
  }

  function MessageOf(frame: bytes): Message
    requires IsFrame(frame)
  {
    Message(HeaderOf(frame), Payload(frame), FlagSigned(HeaderOf(frame)))
  }

  /** Sequence numbers are compared modulo 256; every packet but a duplicate moves the expectation. */
  function AccountSequence(c: Core, key: SourceKey, sequence: byte): Core {
    var previous := Find(c.lastRxSeq, key);
    if previous.None? then c.(lastRxSeq := MakeRoom(c.lastRxSeq, MAX_TRACKED_SOURCES) + [Entry(key, sequence)])
    else
      var distance := (sequence as int - previous.value as int + 256) % 256;
      var k := c.counters;
      if distance == 0 then c.(counters := k.(rxDuplicates := k.rxDuplicates + 1))
      else if distance < 128 then
        c.(lastRxSeq := Put(c.lastRxSeq, key, sequence),
           counters := if distance > 1 then k.(rxSequenceLost := k.rxSequenceLost + distance - 1) else k)
      else
        c.(lastRxSeq := Put(c.lastRxSeq, key, sequence), counters := k.(rxOutOfOrder := k.rxOutOfOrder + 1))
  }

  function Learn(sources: seq<SourceKey>, key: SourceKey): seq<SourceKey> {
    if key in sources then sources else MakeRoom(sources, MAX_TRACKED_SOURCES) + [key]
  }

  function Reject(c: Core): Core {
    c.(counters := c.counters.(rejectedPackets := c.counters.rejectedPackets + 1))
  }

  function Pass(opts: Options, c: Core, frame: bytes): Core
    requires IsFrame(frame)
  {
    var h := HeaderOf(frame);
    var c1 := if h.version.V2? && opts.protocol.Auto? then c.(negotiated := V2) else c;
    var c2 := AccountSequence(c1, SourceOf(h), h.seqNo);
    c2.(counters := c2.counters.(rxPackets := c2.counters.rxPackets + 1), messages := c2.messages + [MessageOf(frame)])
  }

  function Accept(c: Core, key: ReplayKey, stamp: int): Core {
    c.(replayTimestamps := Touch(c.replayTimestamps, key, stamp, MAX_TRACKED_SOURCES),
       acceptances := c.acceptances + [Entry(key, stamp)])
  }

  /** The checks on a packet that carries a signature, once the source has been noted as a signing one. */
  function HandleSigned(opts: Options, s: Signing, now: int, c: Core, frame: bytes): Core
    requires IsFrame(frame) && |frame| >= SIGNATURE_LENGTH
  {
    var h := HeaderOf(frame);
    var key := (h.sysId, h.compId, LinkIdOf(frame));
    var stamp := TimestampOf(frame);
    var previous := Find(c.replayTimestamps, key);
    if previous.None? && !s.allowStaleFirstPacket && stamp < now - SIGNATURE_MAX_AGE_TICKS then Reject(c)
    else if stamp > now + SIGNATURE_MAX_FUTURE_TICKS then Reject(c)
    else if previous.Some? && stamp <= previous.value then Reject(c)
    else
      Pass(opts, Accept(c, key, stamp), frame)
  }

  lemma SignedIsLong(frame: bytes)
    requires IsFrame(frame) && FlagSigned(HeaderOf(frame))
    ensures |frame| >= 25
  {
  }

  function Handle(opts: Options, now: int, c: Core, frame: bytes): Core
    requires IsFrame(frame)
  {
    var h := HeaderOf(frame);
    if h.version.V2? && h.incompatibility / 2 != 0 then Reject(c)
    else if opts.signing.None? then Pass(opts, c, frame)
    else
      var s := opts.signing.value;
      if !FlagSigned(h) then
        if s.requireSigned || SourceOf(h) in c.signedSources then Reject(c) else Pass(opts, c, frame)
      else if SignedIsLong(frame); !SignatureMatches(s.mac, frame) then Reject(c)
      else HandleSigned(opts, s, now, c.(signedSources := Learn(c.signedSources, SourceOf(h))), frame)
  }

  /** A reset forgets everything but what protects against replay and downgrade. */
  function Cleared(opts: Options, c: Core): Core {
    c.(negotiated := if opts.protocol.OnlyV2? then V2 else V1, lastRxSeq := [], counters := ZERO_COUNTERS)
  }

  /** One framing event seen by the session. */
  function Apply(opts: Options, now: int, c: Core, e: Event): Core
    requires e.Good? ==> IsFrame(e.frame)
  {
    var k := c.counters;
    match e
    case Skipped(data) => c.(counters := k.(garbageBytes := k.garbageBytes + |data|))
    case Rejected(_) => Reject(c)
    case Corrupt(_) => c.(counters := k.(crcErrors := k.crcErrors + 1, garbageBytes := k.garbageBytes + 1))
    case Good(frame) => Handle(opts, now, c, frame)
  }

  ghost predicate Sound(es: seq<Event>) {
    forall i :: 0 <= i < |es| && es[i].Good? ==> IsFrame(es[i].frame)
  }

  function ApplyAll(opts: Options, now: int, c: Core, es: seq<Event>): Core
    requires Sound(es)
    decreases |es|
  {
    if es == [] then c else ApplyAll(opts, now, Apply(opts, now, c, es[0]), es[1..])
  }

  lemma {:induction false} ApplyAllConcat(opts: Options, now: int, c: Core, a: seq<Event>, b: seq<Event>)
    requires Sound(a) && Sound(b)
    ensures Sound(a + b) && ApplyAll(opts, now, c, a + b) == ApplyAll(opts, now, ApplyAll(opts, now, c, a), b)
    decreases |a|
  {
    hide Apply, IsFrame;
    if a == [] {
      assert a + b == b;
    } else {
      assert (a + b)[1..] == a[1..] + b;
      ApplyAllConcat(opts, now, Apply(opts, now, c, a[0]), a[1..], b);
    }
  }

  // ---------------------------------------------------------------------------------------------------
  // Accounting
  // ---------------------------------------------------------------------------------------------------

  function FrameBytes(es: seq<Event>): nat {
    if es == [] then 0
    else (match es[0] case Rejected(f) => |f| case Good(f) => |f| case _ => 0) + FrameBytes(es[1..])
  }

  function FrameCount(es: seq<Event>): nat {
    if es == [] then 0 else (if es[0].Rejected? || es[0].Good? then 1 else 0) + FrameCount(es[1..])
  }

  ghost predicate CountsOnePacket(c: Core, d: Core) {
    && d.counters.rxPackets + d.counters.rejectedPackets == c.counters.rxPackets + c.counters.rejectedPackets + 1
    && d.counters.garbageBytes == c.counters.garbageBytes
    && |d.messages| - |c.messages| == d.counters.rxPackets - c.counters.rxPackets
  }

  lemma PassCounts(opts: Options, c: Core, frame: bytes)
    requires IsFrame(frame)
    ensures CountsOnePacket(c, Pass(opts, c, frame))
  {
    hide IsFrame, HeaderOf, Find, MakeRoom, Put, MessageOf;
  }

  lemma HandleCounts(opts: Options, now: int, c: Core, frame: bytes)
    requires IsFrame(frame)
    ensures CountsOnePacket(c, Handle(opts, now, c, frame))
  {
    hide HeaderOf, Find, Pass, Touch, Learn, TimestampOf, SignatureMatches;
    var h := HeaderOf(frame);
    PassCounts(opts, c, frame);
    if FlagSigned(h) {
      SignedIsLong(frame);
      var key, stamp := (h.sysId, h.compId, LinkIdOf(frame)), TimestampOf(frame);
      var learnt := c.(signedSources := Learn(c.signedSources, SourceOf(h)));
      PassCounts(opts, Accept(learnt, key, stamp), frame);
    }
  }

  /** Every packet taken from the stream is either delivered or rejected, and every other byte is garbage. */
  lemma {:induction false} EveryByteAccounted(opts: Options, now: int, c: Core, es: seq<Event>)
    requires Sound(es)
    ensures var d := ApplyAll(opts, now, c, es);
            && |AllConsumed(es)| == d.counters.garbageBytes - c.counters.garbageBytes + FrameBytes(es)
            && (d.counters.rxPackets + d.counters.rejectedPackets) - (c.counters.rxPackets + c.counters.rejectedPackets) == FrameCount(es)
            && |d.messages| - |c.messages| == d.counters.rxPackets - c.counters.rxPackets
    decreases |es|
  {
    hide Handle, IsFrame;
    if es != [] {
      EveryByteAccounted(opts, now, Apply(opts, now, c, es[0]), es[1..]);
      if es[0].Good? {
        HandleCounts(opts, now, c, es[0].frame);
      }
    }
  }

  // ---------------------------------------------------------------------------------------------------
  // Security state
  // ---------------------------------------------------------------------------------------------------

  /** The watermark table is exactly what the history of acceptances leaves behind, each acceptance was above the
      watermark it met, and both tracking collections stay bounded. */
  ghost predicate Guarded(c: Core) {
    && c.replayTimestamps == Table(c.acceptances, MAX_TRACKED_SOURCES)
    && Admissible(c.acceptances, MAX_TRACKED_SOURCES)
    && |c.signedSources| <= MAX_TRACKED_SOURCES
    && |c.lastRxSeq| <= MAX_TRACKED_SOURCES
  }

  lemma AdmissibleSnoc(h: seq<Entry<ReplayKey, int>>, e: Entry<ReplayKey, int>)
    requires Admissible(h, MAX_TRACKED_SOURCES)
    requires var previous := Find(Table(h, MAX_TRACKED_SOURCES), e.key); previous.None? || previous.value < e.value
    ensures Admissible(h + [e], MAX_TRACKED_SOURCES)
    ensures Table(h + [e], MAX_TRACKED_SOURCES) == Touch(Table(h, MAX_TRACKED_SOURCES), e.key, e.value, MAX_TRACKED_SOURCES)
  {
    var h' := h + [e];
    assert h'[..|h|] == h;
    forall i {:trigger h'[i]} | 0 <= i < |h'|
      ensures var previous := Find(Table(h'[..i], MAX_TRACKED_SOURCES), h'[i].key);
              previous.None? || previous.value < h'[i].value
    {
      if i < |h| {
        assert h'[..i] == h[..i] && h'[i] == h[i];
      }
    }
  }

  lemma {:induction false} PutKeepsSize(m: seq<Entry<SourceKey, byte>>, k: SourceKey, v: byte)
    requires Find(m, k).Some?
    ensures |Put(m, k, v)| == |m|
  {
    if m[0].key != k {
      PutKeepsSize(m[1..], k, v);
    }
  }

  lemma PassKeepsGuard(opts: Options, c: Core, frame: bytes)
    requires IsFrame(frame) && Guarded(c)
    ensures Guarded(Pass(opts, c, frame))
  {
    hide Table, Admissible, MessageOf;
    var h := HeaderOf(frame);
    if Find(c.lastRxSeq, SourceOf(h)).Some? {
      PutKeepsSize(c.lastRxSeq, SourceOf(h), h.seqNo);
    }
  }

  lemma HandleKeepsGuard(opts: Options, now: int, c: Core, frame: bytes)
    requires IsFrame(frame) && Guarded(c)
    ensures Guarded(Handle(opts, now, c, frame))
  {
    hide Table, Admissible, Pass, Touch, TimestampOf, SignatureMatches;
    var h := HeaderOf(frame);
    var learnt := c.(signedSources := Learn(c.signedSources, SourceOf(h)));
    PassKeepsGuard(opts, c, frame);
    if FlagSigned(h) {
      SignedIsLong(frame);
      var key, stamp := (h.sysId, h.compId, LinkIdOf(frame)), TimestampOf(frame);
      var previous := Find(learnt.replayTimestamps, key);
      if previous.None? || previous.value < stamp {
        AdmissibleSnoc(c.acceptances, Entry(key, stamp));
        PassKeepsGuard(opts, Accept(learnt, key, stamp), frame);
      }
    }
  }

  /** Over any run of events the guard is kept. */
  lemma {:induction false} RunKeepsGuard(opts: Options, now: int, c: Core, es: seq<Event>)
    requires Sound(es) && Guarded(c)
    ensures Guarded(ApplyAll(opts, now, c, es))
    decreases |es|
  {
    hide Handle, IsFrame, Table, Admissible;
    if es != [] {
      if es[0].Good? {
        HandleKeepsGuard(opts, now, c, es[0].frame);
      }
      RunKeepsGuard(opts, now, Apply(opts, now, c, es[0]), es[1..]);
    }
  }

  /** What the policy asks of a packet in a given state. */
  predicate Passes(opts: Options, now: int, c: Core, frame: bytes)
    requires IsFrame(frame)
  {
    var h := HeaderOf(frame);
    && (h.version.V2? ==> h.incompatibility <= 1)
    && (opts.signing.Some? && !FlagSigned(h) ==> !opts.signing.value.requireSigned && SourceOf(h) !in c.signedSources)
    && (opts.signing.Some? && FlagSigned(h) ==>
          && (SignedIsLong(frame); SignatureMatches(opts.signing.value.mac, frame))
          && TimestampOf(frame) <= now + SIGNATURE_MAX_FUTURE_TICKS
          && var watermark := Find(c.replayTimestamps, (h.sysId, h.compId, LinkIdOf(frame)));
             if watermark.Some? then watermark.value < TimestampOf(frame)
             else opts.signing.value.allowStaleFirstPacket || TimestampOf(frame) >= now - SIGNATURE_MAX_AGE_TICKS)
  }

  /** What delivering a packet changes: it is handed on and counted, its source's sequence numbers are accounted, and a
      version 2 packet settles the version where that is open. */
  lemma PassMeans(opts: Options, c: Core, frame: bytes)
    requires IsFrame(frame)
    ensures var d, counted := Pass(opts, c, frame), AccountSequence(c, SourceOf(HeaderOf(frame)), HeaderOf(frame).seqNo);
            && d.messages == c.messages + [MessageOf(frame)] && d.lastRxSeq == counted.lastRxSeq
            && d.counters == counted.counters.(rxPackets := c.counters.rxPackets + 1)
            && d.counters.rejectedPackets == c.counters.rejectedPackets
            && (d.negotiated.V2? <==> c.negotiated.V2? || (opts.protocol.Auto? && HeaderOf(frame).version.V2?))
            && d.signedSources == c.signedSources && d.acceptances == c.acceptances && d.replayTimestamps == c.replayTimestamps
  {
    hide Find, Put, MakeRoom, MessageOf, HeaderOf;
  }

  /** A packet is delivered if and only if nothing speaks against it: no unknown flag; with signing on, an unsigned one
      neither where signing is mandatory nor from a source known to sign, a signed one only with the right signature, not
      from the far future, and newer than the watermark of its key or, without one, recent enough. Otherwise it is counted
      as rejected, and apart from that nothing changes but the set of signing sources. */
  lemma DeliveredExactlyIf(opts: Options, now: int, c: Core, frame: bytes)
    requires IsFrame(frame)
    ensures var d := Handle(opts, now, c, frame);
            if Passes(opts, now, c, frame) then
              var counted := AccountSequence(c, SourceOf(HeaderOf(frame)), HeaderOf(frame).seqNo);
              && d.messages == c.messages + [MessageOf(frame)] && d.lastRxSeq == counted.lastRxSeq
              && d.counters == counted.counters.(rxPackets := c.counters.rxPackets + 1)
              && (d.negotiated.V2? <==> c.negotiated.V2? || (opts.protocol.Auto? && HeaderOf(frame).version.V2?))
            else d == c.(counters := c.counters.(rejectedPackets := c.counters.rejectedPackets + 1), signedSources := d.signedSources)
  {
    hide Find, TimestampOf, LinkIdOf, SignatureMatches, Touch, MessageOf, Learn, Pass, HeaderOf;
    var h := HeaderOf(frame);
    PassMeans(opts, c, frame);
    if FlagSigned(h) {
      SignedIsLong(frame);
      var learnt := c.(signedSources := Learn(c.signedSources, SourceOf(h)));
      var accepted := Accept(learnt, (h.sysId, h.compId, LinkIdOf(frame)), TimestampOf(frame));
      PassMeans(opts, accepted, frame);
      SequenceOnly(c, accepted, SourceOf(h), h.seqNo);
    }
  }

  /** Sequence accounting reads and changes nothing but the numbers and counters. */
  lemma SequenceOnly(c: Core, d: Core, key: SourceKey, n: byte)
    requires c.lastRxSeq == d.lastRxSeq && c.counters == d.counters
    ensures var a, b := AccountSequence(c, key, n), AccountSequence(d, key, n);
            a.lastRxSeq == b.lastRxSeq && a.counters == b.counters && a.counters.rxPackets == c.counters.rxPackets
  {
    hide Find, Put, MakeRoom;
  }
}
