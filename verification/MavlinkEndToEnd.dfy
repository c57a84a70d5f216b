/** One session sends, another receives: whatever the chunks, the payloads arrive. */
module MavlinkEndToEnd {
  import opened Bytes
  import opened Crc
  import opened MavlinkFrames
  import opened MavlinkSerializer
  import opened CodecPolicy
  import opened MavlinkSession

  datatype Outbound = Outbound(id: nat, payload: bytes, clock: int)

  /** The message is one the registry knows, with its full payload, and its id fits the header version in use. */
  predicate Sendable(reg: Registry, version: Version, m: Outbound) {
    m.id < 0x1000000 && m.id in reg && |m.payload| == reg[m.id].length && Carries(version, m.id)
  }

  /** The stamps of a run of messages, should they be signed. */
  function StampsOf(last: int, ms: seq<Outbound>): (stamps: seq<int>)
    ensures |stamps| == |ms|
  {
    var clocks := seq(|ms|, k requires 0 <= k < |ms| => ms[k].clock);
    StampsIncrease(last, clocks);
    Stamps(last, clocks)
  }

  predicate AllSendable(reg: Registry, version: Version, ms: seq<Outbound>) {
    forall k :: 0 <= k < |ms| ==> Sendable(reg, version, ms[k]) && |ms[k].payload| < 256
  }

  /** The packet of one message: with sequence number and stamp. */
  function PacketOf(reg: Registry, opts: Options, version: Version, m: Outbound, seqNo: byte, stampMs: int): bytes
    requires Sendable(reg, version, m) && |m.payload| < 256
  {
    Sent(opts, version, m.id, m.payload, seqNo, reg[m.id].magic, stampMs)
  }

  /** The packet of message `k` in a run: consecutive numbers, rising stamps. */
  function PacketAt(reg: Registry, opts: Options, version: Version, ms: seq<Outbound>, k: nat, seqNo: byte, last: int): bytes
    requires AllSendable(reg, version, ms) && k < |ms|
  {
    PacketOf(reg, opts, version, ms[k], (seqNo as int + k) % 256, StampsOf(last, ms)[k])
  }

  /** The receiver gets back what was sent. */
  ghost predicate Brings(reg: Registry, frame: bytes, m: Outbound) {
    && IsGood(reg, frame) && HeaderOf(frame).msgId == m.id && HeaderOf(frame).incompatibility < 2
    && Padded(Payload(frame), |m.payload|) == m.payload
  }

  /** A packet of a signing stream, with this stamp, not too far ahead of a receiver whose clock shows `from`. */
  ghost predicate SignedAs(opts: Options, from: int, stampMs: int, f: bytes) {
    && opts.signing.Some? && IsFrame(f) && |f| >= SIGNATURE_LENGTH && TimestampOf(f) == SigningTimestamp(stampMs)
    && ProperlySigned(opts.signing.value, from, (opts.sysId, opts.compId, opts.signing.value.linkId), f)
  }

  ghost predicate Travels(stampMs: int, from: int) {
    0 <= SigningTimestamp(stampMs) < 0x1000000000000 && SigningTimestamp(stampMs) <= from + SIGNATURE_MAX_FUTURE_TICKS
  }

  lemma PacketBrings(reg: Registry, opts: Options, version: Version, m: Outbound, seqNo: byte, stampMs: int, from: int)
    requires Sendable(reg, version, m) && |m.payload| < 256
    requires opts.signing.Some? ==> version.V2? && Travels(stampMs, from)
    ensures var f := PacketOf(reg, opts, version, m, seqNo, stampMs);
            Brings(reg, f, m) && (opts.signing.Some? ==> SignedAs(opts, from, stampMs, f))
  {
    hide Serialized, WithSignature, IsGood, Padded, TimestampOf, SigningTimestamp, HeaderOf, Payload, SignatureMatches;
    var f := PacketOf(reg, opts, version, m, seqNo, stampMs);
    if opts.signing.Some? {
      SentIsProper(reg, opts, m.id, m.payload, seqNo, stampMs, from);
      GoodIsAFrame(reg, f);
    } else {
      var o := Outgoing(version, m.id, m.payload, seqNo, opts.sysId, opts.compId, 0, 0);
      UnsignedHeader(o);
      SerializedRoundTrip(reg, o, []);
      assert f + [] == f;
      GoodIsAFrame(reg, f);
    }
  }

  lemma UnsignedHeader(o: Outgoing)
    requires |o.payload| < 256 && o.incompatibility == 0 && o.id < 0x1000000 && Carries(o.version, o.id)
    ensures HeaderFor(o).incompatibility == 0 && HeaderFor(o).msgId == o.id && !Signed(o)
  {
  }

  /** Sending changes nothing but the sender's counters; the packets carry consecutive numbers and rising stamps. */
  method SendAll(sender: MavlinkCodecSession, ms: seq<Outbound>) returns (frames: seq<bytes>)
    requires sender.Valid() && !sender.destroyed && AllSendable(sender.reg, sender.negotiated, ms)
    requires sender.opts.signing.Some? ==> sender.negotiated.V2?
    modifies sender`txSeq, sender`txPackets, sender`lastSigningTimestampMs
    ensures sender.Valid() && sender.txPackets == old(sender.txPackets) + |ms| && |frames| == |ms|
    ensures forall k :: 0 <= k < |ms| ==>
              frames[k]
              == PacketAt(sender.reg, sender.opts, sender.negotiated, ms, k, old(sender.txSeq), old(sender.lastSigningTimestampMs))
  {
    hide Sent, Sendable, StampBefore, Guarded, Settled;
    frames := [];
    var k := 0;
    ghost var last := sender.lastSigningTimestampMs;
    FirstStamp(last, ms);
    while k < |ms|
      invariant k <= |ms| && |frames| == k && sender.Valid() && !sender.destroyed
      invariant sender.txPackets == old(sender.txPackets) + k && sender.txSeq as int == (old(sender.txSeq) as int + k) % 256
      invariant sender.lastSigningTimestampMs == if sender.opts.signing.Some? then StampBefore(last, ms, k) else last
      invariant forall j :: 0 <= j < k ==>
                  frames[j] == PacketAt(sender.reg, sender.opts, sender.negotiated, ms, j, old(sender.txSeq), last)
    {
      assert Sendable(sender.reg, sender.negotiated, ms[k]);
      KnownId(sender.reg, sender.negotiated, ms[k]);
      var f := sender.Serialize(ms[k].id, ms[k].payload, sender.reg[ms[k].id].magic, ms[k].clock);
      NextStamp(last, ms, k);
      if sender.opts.signing.None? {
        NoStampWithoutKey(sender.opts, sender.negotiated, ms[k], (old(sender.txSeq) as int + k) % 256, sender.reg[ms[k].id].magic,
                          NextStampMs(ms[k].clock, last), StampsOf(last, ms)[k]);
      }
      assert f.value == PacketAt(sender.reg, sender.opts, sender.negotiated, ms, k, old(sender.txSeq), last);
      frames := frames + [f.value];
      k := k + 1;
    }
  }

  lemma KnownId(reg: Registry, version: Version, m: Outbound)
    requires Sendable(reg, version, m)
    ensures m.id in reg
  {
  }

  lemma NoStampWithoutKey(opts: Options, version: Version, m: Outbound, seqNo: byte, magic: byte, stampMs: int, other: int)
    requires opts.signing.None? && |m.payload| < 256
    ensures Sent(opts, version, m.id, m.payload, seqNo, magic, stampMs) == Sent(opts, version, m.id, m.payload, seqNo, magic, other)
  {
  }

  /** The last stamp used before message `k`. */
  ghost function StampBefore(last: int, ms: seq<Outbound>, k: nat): int
    requires k <= |ms|
  {
    if k == 0 then last else StampsOf(last, ms)[k - 1]
  }

  lemma FirstStamp(last: int, ms: seq<Outbound>)
    ensures StampBefore(last, ms, 0) == last
  {
  }

  lemma {:induction false} NextStamp(last: int, ms: seq<Outbound>, k: nat)
    requires k < |ms|
    ensures StampsOf(last, ms)[k] == NextStampMs(ms[k].clock, StampBefore(last, ms, k)) == StampBefore(last, ms, k + 1)
    decreases k
  {
    var clocks := seq(|ms|, i requires 0 <= i < |ms| => ms[i].clock);
    var later := ms[1..];
    var first := NextStampMs(ms[0].clock, last);
    assert clocks[1..] == seq(|later|, i requires 0 <= i < |later| => later[i].clock);
    assert StampsOf(last, ms) == [first] + StampsOf(first, later);
    if k > 0 {
      NextStamp(first, later, k - 1);
    }
  }

  /** A signing receiver that shares the key can take the sender's stamps: they are within the 48 bits that travel, none
      is too far ahead, and the first is above the watermark or recent. */
  ghost predicate Acceptable(sender: Options, s: Signing, stamps: seq<int>, from: int, until: int, receiver: Core) {
    && (forall k :: 0 <= k < |stamps| ==> Travels(stamps[k], from))
    && (stamps != [] ==> FreshStart(s, until, receiver, (sender.sysId, sender.compId, s.linkId), SigningTimestamp(stamps[0])))
  }

  ghost predicate AllBring(reg: Registry, frames: seq<bytes>, ms: seq<Outbound>) {
    |frames| == |ms| && forall k :: 0 <= k < |ms| ==> Brings(reg, frames[k], ms[k])
  }

  /** Sender to receiver: however the bytes are cut into chunks and whenever they arrive, the receiver hands on exactly the
      messages sent, in order, each with its full payload, and counts nothing against the stream. */
  method Deliver(sender: MavlinkCodecSession, receiver: MavlinkCodecSession, ms: seq<Outbound>, cut: bytes -> seq<bytes>,
                 readings: nat -> int, ghost from: int, ghost until: int)
    requires sender != receiver && sender.Valid() && receiver.Valid() && !sender.destroyed && !receiver.destroyed
    requires receiver.ingress == [] && sender.reg == receiver.reg && sender.opts.signing == receiver.opts.signing
    requires sender.opts.signing.Some? ==> sender.negotiated.V2?
    requires AllSendable(sender.reg, sender.negotiated, ms)
    requires forall all :: Joined(cut(all)) == all
    requires forall k :: from <= readings(k) <= until
    requires sender.opts.signing.Some? ==>
               Acceptable(sender.opts, sender.opts.signing.value, StampsOf(sender.lastSigningTimestampMs, ms), from, until,
                          receiver.Now())
    modifies sender`txSeq, sender`txPackets, sender`lastSigningTimestampMs, receiver
    ensures receiver.Valid() && receiver.ingress == []
    ensures |receiver.messages| == |old(receiver.messages)| + |ms|
    ensures receiver.messages[..|old(receiver.messages)|] == old(receiver.messages)
    ensures forall k :: 0 <= k < |ms| ==>
              var got := receiver.messages[|old(receiver.messages)| + k];
              got.header.msgId == ms[k].id && Padded(got.payload, |ms[k].payload|) == ms[k].payload
    ensures receiver.counters.rxPackets == old(receiver.counters).rxPackets + |ms|
    ensures receiver.counters.garbageBytes == old(receiver.counters).garbageBytes
            && receiver.counters.crcErrors == old(receiver.counters).crcErrors
            && receiver.counters.rejectedPackets == old(receiver.counters).rejectedPackets
  {
    hide PacketAt, Brings, Welcome, Acceptable, Joined, Guarded, Settled, Progress, StampsOf, Sendable, AllSendable;
    ghost var before, lastMs, seqNo := receiver.Now(), sender.lastSigningTimestampMs, sender.txSeq;
    var frames := SendAll(sender, ms);
    AllPacketsBring(sender.reg, sender.opts, sender.negotiated, ms, frames, seqNo, lastMs, from, until, before);
    var chunks := cut(Joined(frames));
    var clock := seq(|chunks|, k requires 0 <= k < |chunks| => readings(k));
    receiver.WriteAll(chunks, clock, from, until, frames);
    ProgressMeans(before, receiver.Now(), frames);
    forall k | 0 <= k < |ms|
      ensures var got := receiver.messages[|old(receiver.messages)| + k];
              got.header.msgId == ms[k].id && Padded(got.payload, |ms[k].payload|) == ms[k].payload
    {
      BringsMessage(receiver.reg, frames[k], ms[k]);
    }
  }

  lemma ProgressMeans(before: Core, after: Core, frames: seq<bytes>)
    requires Progress(before, after, frames)
    ensures AllFrames(frames) && |after.messages| == |before.messages| + |frames|
    ensures after.messages[..|before.messages|] == before.messages
    ensures forall k :: 0 <= k < |frames| ==> after.messages[|before.messages| + k] == MessageOf(frames[k])
    ensures after.counters.rxPackets == before.counters.rxPackets + |frames|
            && after.counters.garbageBytes == before.counters.garbageBytes && after.counters.crcErrors == before.counters.crcErrors
            && after.counters.rejectedPackets == before.counters.rejectedPackets
  {
  }

  lemma BringsMessage(reg: Registry, frame: bytes, m: Outbound)
    requires Brings(reg, frame, m)
    ensures IsFrame(frame) && MessageOf(frame).header.msgId == m.id && Padded(MessageOf(frame).payload, |m.payload|) == m.payload
  {
  }

  lemma AllPacketsBring(reg: Registry, opts: Options, version: Version, ms: seq<Outbound>, frames: seq<bytes>, seqNo: byte,
                        last: int, from: int, until: int, receiver: Core)
    requires AllSendable(reg, version, ms) && |frames| == |ms|
    requires opts.signing.Some? ==> version.V2? && Acceptable(opts, opts.signing.value, StampsOf(last, ms), from, until, receiver)
    requires forall k :: 0 <= k < |ms| ==> frames[k] == PacketAt(reg, opts, version, ms, k, seqNo, last)
    ensures AllBring(reg, frames, ms) && AllGood(reg, frames)
    ensures forall o: Options :: o.signing == opts.signing ==> Welcome(reg, o, from, until, receiver, frames)
  {
    hide PacketOf, ProperlySigned, SigningTimestamp, FreshStart, StampsOf, TimestampOf, IsGood, Padded, Sendable, HeaderOf, Payload,
         Travels, SignedAs;
    var stamps := StampsOf(last, ms);
    forall k | 0 <= k < |ms|
      ensures Brings(reg, frames[k], ms[k]) && (opts.signing.Some? ==> SignedAs(opts, from, stamps[k], frames[k]))
    {
      PacketBrings(reg, opts, version, ms[k], (seqNo as int + k) % 256, stamps[k], from);
    }
    GoodAreFrames(reg, frames);
    if opts.signing.Some? {
      RisingStream(opts, from, until, stamps, frames, receiver, last, ms);
    }
  }

  lemma RisingStream(opts: Options, from: int, until: int, stamps: seq<int>,
                     frames: seq<bytes>, receiver: Core, last: int, ms: seq<Outbound>)
    requires opts.signing.Some? && AllFrames(frames) && |frames| == |stamps| && stamps == StampsOf(last, ms)
    requires forall k :: 0 <= k < |frames| ==> SignedAs(opts, from, stamps[k], frames[k])
    requires Acceptable(opts, opts.signing.value, stamps, from, until, receiver)
    ensures exists key :: SignedStream(opts.signing.value, from, until, receiver, key, frames)
  {
    hide ProperlySigned, FreshStart, TimestampOf;
    var clocks := seq(|ms|, k requires 0 <= k < |ms| => ms[k].clock);
    StampsIncrease(last, clocks);
    assert forall k :: 0 <= k < |frames| ==> SignedAs(opts, from, stamps[k], frames[k]);
    assert SignedStream(opts.signing.value, from, until, receiver, (opts.sysId, opts.compId, opts.signing.value.linkId), frames);
  }
}
