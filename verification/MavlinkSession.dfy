/** The codec session object: an ingress buffer, counters, tracking tables and the sending side, changed in place by
    every call, and what a whole run of calls achieves. */
module MavlinkSession {
  import opened Bytes
  import opened Crc
  import opened MavlinkFrames
  import opened MavlinkSerializer
  import opened OrderedMaps
  import opened Watermarks
  import opened CodecPolicy
  import opened SigningPolicy

  const SIGNATURE_START_TIME := 1420070400000

  function SigningTimestamp(ms: int): int {
    (ms - SIGNATURE_START_TIME) * 100
  }

  /** The link id and six bytes of time; only the low 48 bits of it travel. */
  function SignatureSpace(s: Signing, timestampMs: int): bytes {
    [s.linkId] + LowBytes(SigningTimestamp(timestampMs), 6)
  }

  function WithSignature(frame: bytes, s: Signing, timestampMs: int): bytes {
    var covered := frame + SignatureSpace(s, timestampMs);
    covered + s.mac(covered)
  }

  /** Millisecond stamp for the next signed packet: the clock, or one past the last stamp used. */
  function NextStampMs(now: int, last: int): int {
    if now > last + 1 then now else last + 1
  }

  class MavlinkCodecSession {
    const reg: Registry
    const opts: Options
    var ingress: bytes
    var destroyed: bool
    var txSeq: byte
    var txPackets: nat
    var lastSigningTimestampMs: int
    var negotiated: Version
    var lastRxSeq: seq<Entry<SourceKey, byte>>
    var replayTimestamps: seq<Entry<ReplayKey, int>>
    var signedSources: seq<SourceKey>
    var counters: Counters
    /** Everything the `message` listeners have been given. */
    var messages: seq<Message>
    ghost var acceptances: seq<Entry<ReplayKey, int>>

    ghost function Now(): Core
      reads this
    {
      Core(negotiated, lastRxSeq, replayTimestamps, signedSources, counters, messages, acceptances)
    }

    ghost predicate Valid()
      reads this
    {
      && opts.maxBuffered >= MAX_FRAME
      && (opts.signing.Some? ==> opts.protocol.OnlyV2?)
      && |ingress| < MAX_FRAME && Settled(reg, ingress)
      && Guarded(Now())
    }

    /** Signing forces version 2; asking for both signing and version 1 is the caller's error. */
    constructor (reg: Registry, protocol: Protocol, signing: Option<Signing>, maxBuffered: nat, sysId: byte, compId: byte)
      requires signing.Some? ==> !protocol.OnlyV1?
      ensures Valid() && this.reg == reg && ingress == [] && !destroyed
      ensures opts == Options(if signing.Some? then OnlyV2 else protocol, signing,
                              if maxBuffered > MAX_FRAME then maxBuffered else MAX_FRAME, sysId, compId)
      ensures Now() == Core(if opts.protocol.OnlyV2? then V2 else V1, [], [], [], ZERO_COUNTERS, [], [])
    {
      this.reg := reg;
      var p := if signing.Some? then OnlyV2 else protocol;
      opts := Options(p, signing, if maxBuffered > MAX_FRAME then maxBuffered else MAX_FRAME, sysId, compId);
      ingress, destroyed, txSeq, txPackets, lastSigningTimestampMs := [], false, 0, 0, 0;
      negotiated := if p.OnlyV2? then V2 else V1;
      lastRxSeq, replayTimestamps, signedSources, counters, messages, acceptances := [], [], [], ZERO_COUNTERS, [], [];
    }

    /** Drop bytes from the front and count them as garbage. */
    method Discard(count: nat)
      modifies `ingress, `counters
      ensures var n := if count < |old(ingress)| then count else |old(ingress)|;
              && ingress == old(ingress)[n..]
              && counters == old(counters).(garbageBytes := old(counters).garbageBytes + n)
    {
      var n := if count < |ingress| then count else |ingress|;
      counters := counters.(garbageBytes := counters.garbageBytes + n);
      ingress := ingress[n..];
    }

    /** Offset of the first packet at or after `from` that lies completely in the buffer and passes its checksum. */
    method FindCompleteFrame(from: nat) returns (at: Option<nat>)
      ensures at == FindComplete(reg, ingress, from)
    {
      hide MavlinkCrc, FrameLength, NextMagic, HeaderOf;
      NextMagicIsFirst(ingress, from);
      at := NextMagic(ingress, from);
      while at.Some?
        invariant at.Some? ==> from <= at.value < |ingress|
        invariant at.None? ==> FindComplete(reg, ingress, from).None?
        invariant at.Some? ==>
                    (FindComplete(reg, ingress, from)
                     == if CompleteAt(reg, ingress, at.value) then at else FindComplete(reg, ingress, at.value + 1))
        decreases if at.Some? then |ingress| - at.value else -1
      {
        var length := FrameLength(ingress, at.value);
        if length.Some? && at.value + length.value <= |ingress| {
          FrameLengthLocal(ingress, at.value, length.value);
          var frame := ingress[at.value..at.value + length.value];
          if IsGood(reg, frame) {
            return;
          }
        }
        NextMagicIsFirst(ingress, at.value + 1);
        at := NextMagic(ingress, at.value + 1);
      }
    }

    method AccountSequence(key: SourceKey, sequence: byte)
      modifies `lastRxSeq, `counters
      ensures Now() == CodecPolicy.AccountSequence(old(Now()), key, sequence)
    {
      hide Find, Put;
      var previous := Find(lastRxSeq, key);
      if previous.None? {
        while |lastRxSeq| >= MAX_TRACKED_SOURCES
          invariant counters == old(counters)
          invariant MakeRoom(lastRxSeq, MAX_TRACKED_SOURCES) == MakeRoom(old(lastRxSeq), MAX_TRACKED_SOURCES)
        {
          lastRxSeq := lastRxSeq[1..];
        }
        lastRxSeq := lastRxSeq + [Entry(key, sequence)];
        return;
      }
      var distance := (sequence as int - previous.value as int + 256) % 256;
      if distance == 0 {
        counters := counters.(rxDuplicates := counters.rxDuplicates + 1);
      } else if distance < 128 {
        if distance > 1 {
          counters := counters.(rxSequenceLost := counters.rxSequenceLost + distance - 1);
        }
        lastRxSeq := Put(lastRxSeq, key, sequence);
      } else {
        counters := counters.(rxOutOfOrder := counters.rxOutOfOrder + 1);
        lastRxSeq := Put(lastRxSeq, key, sequence);
      }
    }

    method LearnSignedSource(key: SourceKey)
      modifies `signedSources
      ensures signedSources == Learn(old(signedSources), key)
    {
      if key in signedSources {
        return;
      }
      while |signedSources| >= MAX_TRACKED_SOURCES
        invariant MakeRoom(signedSources, MAX_TRACKED_SOURCES) == MakeRoom(old(signedSources), MAX_TRACKED_SOURCES)
      {
        signedSources := signedSources[1..];
      }
      signedSources := signedSources + [key];
    }

    /** Make the entry the youngest one, forgetting the oldest entries when the table is full. */
    method RecordTimestamp(key: ReplayKey, stamp: int)
      modifies `replayTimestamps, `acceptances
      ensures Now() == Accept(old(Now()), key, stamp)
    {
      hide Without;
      replayTimestamps := Without(replayTimestamps, key);
      while |replayTimestamps| >= MAX_TRACKED_SOURCES
        invariant acceptances == old(acceptances)
        invariant MakeRoom(replayTimestamps, MAX_TRACKED_SOURCES)
                  == MakeRoom(Without(old(replayTimestamps), key), MAX_TRACKED_SOURCES)
      {
        replayTimestamps := replayTimestamps[1..];
      }
      replayTimestamps := replayTimestamps + [Entry(key, stamp)];
      acceptances := acceptances + [Entry(key, stamp)];
    }

    method RejectPacket()
      modifies `counters
      ensures Now() == Reject(old(Now()))
    {
      counters := counters.(rejectedPackets := counters.rejectedPackets + 1);
    }

    method PassPacket(frame: bytes)
      requires IsFrame(frame)
      modifies `negotiated, `lastRxSeq, `counters, `messages
      ensures Now() == Pass(opts, old(Now()), frame)
    {
      hide CodecPolicy.AccountSequence, MessageOf;
      var h := HeaderOf(frame);
      if h.version.V2? && opts.protocol.Auto? {
        negotiated := V2;
      }
      AccountSequence(SourceOf(h), h.seqNo);
      counters := counters.(rxPackets := counters.rxPackets + 1);
      messages := messages + [MessageOf(frame)];
    }

    /** The signature is right: note the source, then judge the timestamp. */
    method JudgeTimestamp(s: Signing, frame: bytes, now: int)
      requires IsFrame(frame) && |frame| >= SIGNATURE_LENGTH
      modifies `negotiated, `lastRxSeq, `replayTimestamps, `counters, `messages, `acceptances
      ensures Now() == HandleSigned(opts, s, now, old(Now()), frame)
    {
      hide Pass, Accept, Find, TimestampOf, LinkIdOf;
      var h := HeaderOf(frame);
      var key := (h.sysId, h.compId, LinkIdOf(frame));
      var stamp := TimestampOf(frame);
      var previous := Find(replayTimestamps, key);
      if previous.None? && !s.allowStaleFirstPacket && stamp < now - SIGNATURE_MAX_AGE_TICKS {
        RejectPacket();
      } else if stamp > now + SIGNATURE_MAX_FUTURE_TICKS {
        RejectPacket();
      } else if previous.Some? && stamp <= previous.value {
        RejectPacket();
      } else {
        RecordTimestamp(key, stamp);
        PassPacket(frame);
      }
    }

    method HandleFrame(frame: bytes, now: int)
      requires IsFrame(frame)
      modifies `negotiated, `lastRxSeq, `replayTimestamps, `signedSources, `counters, `messages, `acceptances
      ensures Now() == Handle(opts, now, old(Now()), frame)
      ensures if Passes(opts, now, old(Now()), frame) then messages == old(messages) + [MessageOf(frame)]
              else messages == old(messages) && counters == old(counters).(rejectedPackets := old(counters).rejectedPackets + 1)
      ensures |old(signedSources)| <= MAX_TRACKED_SOURCES && Proves(opts, frame) ==> SourceOf(HeaderOf(frame)) in signedSources
    {
      hide Pass, HandleSigned, Learn, SignatureMatches, Passes, Proves, MessageOf;
      DeliveredExactlyIf(opts, now, Now(), frame);
      if |signedSources| <= MAX_TRACKED_SOURCES {
        SourcesAfterPacket(opts, now, Now(), frame);
      }
      var h := HeaderOf(frame);
      if h.version.V2? && h.incompatibility / 2 != 0 {
        RejectPacket();
        return;
      }
      if opts.signing.Some? {
        var s := opts.signing.value;
        if FlagSigned(h) {
          SignedIsLong(frame);
          if !SignatureMatches(s.mac, frame) {
            RejectPacket();
            return;
          }
          LearnSignedSource(SourceOf(h));
          JudgeTimestamp(s, frame, now);
          return;
        }
        if s.requireSigned || SourceOf(h) in signedSources {
          RejectPacket();
          return;
        }
      }
      PassPacket(frame);
    }

    /** An incomplete packet: wait for the rest if its id is known or nothing complete is nested inside. */
    method AwaitOrAbandon(now: int) returns (more: bool)
      requires NextMagic(ingress) == Some(0)
      requires FrameLength(ingress).Some? && |ingress| < FrameLength(ingress).value
      modifies `ingress, `counters
      ensures !more <==> Step(reg, old(ingress)).Wait?
      ensures !more ==> Now() == old(Now()) && ingress == old(ingress)
      ensures more ==> ingress == old(ingress)[Taken(Step(reg, old(ingress)))..]
      ensures more ==> Now() == ApplySound(reg, opts, now, old(Now()), old(ingress))
    {
      hide CrcMatches, FindComplete, Handle;
      if HeaderOf(ingress).msgId in reg {
        return false;
      }
      var nested := FindCompleteFrame(1);
      if nested.None? {
        return false;
      }
      Discard(nested.value);
      return true;
    }

    /** One decision on a buffer that starts with a marker. */
    method Advance(now: int) returns (more: bool)
      requires ingress != [] && NextMagic(ingress) == Some(0)
      modifies this
      ensures SendingSideKept()
      ensures !more <==> Step(reg, old(ingress)).Wait?
      ensures !more ==> Now() == old(Now()) && ingress == old(ingress)
      ensures more ==> ingress == old(ingress)[Taken(Step(reg, old(ingress)))..]
      ensures more ==> Now() == ApplySound(reg, opts, now, old(Now()), old(ingress))
    {
      hide MavlinkCrc, FindComplete, Handle;
      var expected := FrameLength(ingress);
      if expected.None? {
        return false;
      }
      if |ingress| < expected.value {
        more := AwaitOrAbandon(now);
        return;
      }
      TakeWhole(expected.value, now);
      return true;
    }

    /** A packet whose bytes are all there: unknown id, bad checksum, or handled. */
    method TakeWhole(expected: nat, now: int)
      requires NextMagic(ingress) == Some(0)
      requires FrameLength(ingress) == Some(expected) && expected <= |ingress|
      modifies this
      ensures SendingSideKept()
      ensures !Step(reg, old(ingress)).Wait?
      ensures ingress == old(ingress)[Taken(Step(reg, old(ingress)))..]
      ensures Now() == ApplySound(reg, opts, now, old(Now()), old(ingress))
    {
      hide MavlinkCrc, FindComplete, Handle, CrcMatches;
      var frame := ingress[..expected];
      assert IsFrame(frame);
      var header := HeaderOf(frame);
      if header.msgId !in reg {
        counters := counters.(rejectedPackets := counters.rejectedPackets + 1);
        ingress := ingress[expected..];
      } else if !CrcMatches(frame, reg[header.msgId].magic) {
        counters := counters.(crcErrors := counters.crcErrors + 1);
        Discard(1);
      } else {
        ingress := ingress[expected..];
        HandleFrame(frame, now);
      }
    }

    twostate predicate SendingSideKept()
      reads this
    {
      && txSeq == old(txSeq) && txPackets == old(txPackets) && destroyed == old(destroyed)
      && lastSigningTimestampMs == old(lastSigningTimestampMs)
    }

    /** Decide packet by packet until the buffer has to wait for more. */
    method Drain(now: int)
      modifies this
      ensures SendingSideKept()
      ensures Now() == ApplyAll(opts, now, old(Now()), Decided(reg, old(ingress)))
      ensures ingress == Rest(reg, old(ingress))
    {
      hide Step, ApplySound, ApplyAll, Decided, Rest, NextMagic;
      while ingress != []
        invariant SendingSideKept()
        invariant ApplyAll(opts, now, Now(), Decided(reg, ingress)) == ApplyAll(opts, now, old(Now()), Decided(reg, old(ingress)))
        invariant Rest(reg, ingress) == Rest(reg, old(ingress))
        decreases |ingress|
      {
        NextMagicIsFirst(ingress, 0);
        var start := NextMagic(ingress);
        if start != Some(0) {
          JunkStep(reg, opts, now, Now(), ingress);
        }
        if start.None? {
          Discard(|ingress|);
          assert ingress == [];
          break;
        }
        if start.value > 0 {
          Discard(start.value);
          MagicFirst(ingress);
        }
        Unrolled(reg, opts, now, Now(), ingress);
        var more := Advance(now);
        if !more {
          return;
        }
      }
      NothingToDo(reg, opts, now, Now());
    }

    /** Whatever bytes arrive, the session ends up exactly where the framing events of buffered-plus-new bytes take
        it, holding exactly the undecided remainder. The overflow discard at the end is never reached. */
    method Write(chunk: bytes, now: int)
      requires Valid()
      modifies this
      ensures Valid() && SendingSideKept()
      ensures destroyed ==> Now() == old(Now()) && ingress == old(ingress)
      ensures !destroyed ==> Now() == ApplyAll(opts, now, old(Now()), Decided(reg, old(ingress) + chunk))
      ensures !destroyed ==> ingress == Rest(reg, old(ingress) + chunk)
    {
      hide Guarded, Decided, Rest, ApplyAll;
      if destroyed || |chunk| == 0 {
        assert |chunk| == 0 ==> old(ingress) + chunk == old(ingress);
        Unrolled(reg, opts, now, Now(), ingress);
        return;
      }
      ingress := ingress + chunk;
      Drain(now);
      RestSettles(reg, old(ingress) + chunk);
      RunKeepsGuard(opts, now, old(Now()), Decided(reg, old(ingress) + chunk));
      if |ingress| > opts.maxBuffered {
        assert false;
      }
    }

    method ConfirmMavlink2()
      modifies `negotiated
      ensures negotiated == if !destroyed && opts.protocol.Auto? then V2 else old(negotiated)
    {
      if !destroyed && opts.protocol.Auto? {
        negotiated := V2;
      }
    }

    /** The next packet to send, or None once destroyed. */
    method Serialize(id: nat, payload: bytes, magic: byte, now: int) returns (r: Option<bytes>)
      requires |payload| < 256
      modifies `txSeq, `txPackets, `lastSigningTimestampMs
      ensures destroyed ==> r.None? && SendingSideKept()
      ensures !destroyed ==>
                && r == Some(Sent(opts, negotiated, id, payload, old(txSeq), magic, NextStampMs(now, old(lastSigningTimestampMs))))
                && txSeq as int == (old(txSeq) as int + 1) % 256 && txPackets == old(txPackets) + 1
                && lastSigningTimestampMs == if negotiated.V2? && opts.signing.Some?
                                             then NextStampMs(now, old(lastSigningTimestampMs)) else old(lastSigningTimestampMs)
    {
      hide Serialized, WithSignature;
      if destroyed {
        return None;
      }
      var sequence := txSeq;
      txSeq := (txSeq as int + 1) % 256;
      var frame: bytes;
      if negotiated.V2? {
        var flags: byte := if opts.signing.Some? then 1 else 0;
        frame := SerializeMessage(Outgoing(V2, id, payload, sequence, opts.sysId, opts.compId, flags, 0), magic);
        if opts.signing.Some? {
          var timestampMs := NextStampMs(now, lastSigningTimestampMs);
          lastSigningTimestampMs := timestampMs;
          frame := WithSignature(frame, opts.signing.value, timestampMs);
        }
      } else {
        frame := SerializeMessage(Outgoing(V1, id, payload, sequence, opts.sysId, opts.compId, 0, 0), magic);
      }
      txPackets := txPackets + 1;
      return Some(frame);
    }

    /** Back to the initial state, except that replay watermarks and known signing sources are kept. */
    method Reset() returns (ok: bool)
      requires Valid()
      modifies this
      ensures Valid() && ok == !destroyed && destroyed == old(destroyed)
      ensures !ok ==> Now() == old(Now()) && ingress == old(ingress) && SendingSideKept()
      ensures ok ==> ingress == [] && txSeq == 0 && txPackets == 0 && lastSigningTimestampMs == 0
      ensures ok ==> Now() == Cleared(opts, old(Now()))
      ensures ok ==> signedSources == old(signedSources) && replayTimestamps == old(replayTimestamps)
      ensures ok ==> lastRxSeq == [] && counters == ZERO_COUNTERS && messages == old(messages)
      ensures ok ==> (negotiated.V2? <==> opts.protocol.OnlyV2?)
    {
      hide Table, Admissible, Step;
      if destroyed {
        return false;
      }
      ingress, txSeq, txPackets, lastSigningTimestampMs, lastRxSeq := [], 0, 0, 0, [];
      counters := ZERO_COUNTERS;
      negotiated := if opts.protocol.OnlyV2? then V2 else V1;
      return true;
    }

    method Destroy()
      requires Valid()
      modifies `destroyed, `ingress
      ensures Valid() && destroyed && ingress == if old(destroyed) then old(ingress) else []
    {
      if !destroyed {
        destroyed, ingress := true, [];
      }
    }

    /** Round trip: packets in any chunks, at any pace, come out whole and in order with nothing counted as garbage,
        corrupt or rejected, provided the session's signing policy welcomes them. */
    method WriteAll(chunks: seq<bytes>, clock: seq<int>, ghost from: int, ghost until: int, ghost frames: seq<bytes>)
      requires Valid() && !destroyed && ingress == []
      requires |clock| == |chunks| && forall i :: 0 <= i < |clock| ==> from <= clock[i] <= until
      requires AllGood(reg, frames) && Joined(chunks) == Joined(frames)
      requires Welcome(reg, opts, from, until, Now(), frames)
      modifies this
      ensures Valid() && ingress == []
      ensures Progress(old(Now()), Now(), frames)
    {
      hide ApplyAll, Decided, Welcome, Guarded, Progress, Rest, IsGood, Settled, Joined, AsEvents, PartOfNext;
      EmptyIsPart(reg, frames, chunks);
      ghost var done, later := [], frames;
      NoProgress(Now());
      var i := 0;
      while i < |chunks|
        invariant Valid() && !destroyed && i <= |chunks|
        invariant AllGood(reg, done) && AllGood(reg, later) && done + later == frames
        invariant Progress(old(Now()), Now(), done)
        invariant Welcome(reg, opts, from, until, Now(), later)
        invariant PartOfNext(later, 0, ingress) && ingress + Joined(chunks[i..]) == Joined(later)
      {
        ghost var before := Now();
        ghost var j := NextPackets(reg, later, ingress, chunks, i);
        Write(chunks[i], clock[i]);
        WelcomeRun(reg, opts, from, until, clock[i], before, later, j);
        ProgressAdds(old(Now()), before, Now(), done, later[..j]);
        GoodParts(reg, later, j);
        assert done + later[..j] + later[j..] == frames;
        done, later := done + later[..j], later[j..];
        i := i + 1;
      }
      NothingLeft(reg, later, ingress, chunks);
      assert done == frames;
    }
  }

  /** The packet a session sends: everything from its options, its sequence counter and the stamp. */
  function Sent(opts: Options, version: Version, id: nat, payload: bytes, seqNo: byte, magic: byte, stampMs: int): bytes
    requires |payload| < 256
  {
    if version.V1? then Serialized(Outgoing(V1, id, payload, seqNo, opts.sysId, opts.compId, 0, 0), magic)
    else if opts.signing.None? then Serialized(Outgoing(V2, id, payload, seqNo, opts.sysId, opts.compId, 0, 0), magic)
    else WithSignature(Serialized(Outgoing(V2, id, payload, seqNo, opts.sysId, opts.compId, 1, 0), magic),
                       opts.signing.value, stampMs)
  }

  function Decided(reg: Registry, buffer: bytes): (es: seq<Event>)
    ensures Sound(es)
  {
    EventsAreTruthful(reg, buffer);
    Events(reg, buffer)
  }

  predicate Settled(reg: Registry, buffer: bytes) {
    buffer == [] || Step(reg, buffer).Wait?
  }

  lemma RestSettles(reg: Registry, buffer: bytes)
    ensures Settled(reg, Rest(reg, buffer)) && |Rest(reg, buffer)| < MAX_FRAME
    decreases |buffer|
  {
    RestIsShort(reg, buffer);
  }

  ghost function ApplySound(reg: Registry, opts: Options, now: int, c: Core, buffer: bytes): Core
    requires buffer != [] && !Step(reg, buffer).Wait?
  {
    StepIsSound(reg, buffer);
    Apply(opts, now, c, EventOf(Step(reg, buffer), buffer))
  }

  lemma StepIsSound(reg: Registry, buffer: bytes)
    requires buffer != [] && !Step(reg, buffer).Wait?
    ensures var e := EventOf(Step(reg, buffer), buffer); e.Good? ==> IsFrame(e.frame)
  {
    EventsAreTruthful(reg, buffer);
    assert Events(reg, buffer)[0] == EventOf(Step(reg, buffer), buffer);
  }

  lemma NothingToDo(reg: Registry, opts: Options, now: int, c: Core)
    ensures ApplyAll(opts, now, c, Decided(reg, [])) == c && Rest(reg, []) == []
  {
  }

  /** A buffer either waits, and then nothing happens, or its first decision is applied before the others. */
  lemma Unrolled(reg: Registry, opts: Options, now: int, c: Core, buffer: bytes)
    ensures Settled(reg, buffer) ==> ApplyAll(opts, now, c, Decided(reg, buffer)) == c && Rest(reg, buffer) == buffer
    ensures !Settled(reg, buffer) ==>
              var later := buffer[Taken(Step(reg, buffer))..];
              && ApplyAll(opts, now, c, Decided(reg, buffer))
                 == ApplyAll(opts, now, ApplySound(reg, opts, now, c, buffer), Decided(reg, later))
              && Rest(reg, buffer) == Rest(reg, later)
  {
    hide Step, Apply;
    if !Settled(reg, buffer) {
      UnrollRun(reg, buffer);
      assert Decided(reg, buffer)[1..] == Decided(reg, buffer[Taken(Step(reg, buffer))..]);
    }
  }

  /** Bytes in front of the first marker are one decision. */
  lemma JunkStep(reg: Registry, opts: Options, now: int, c: Core, buffer: bytes)
    requires buffer != [] && NextMagic(buffer) != Some(0)
    ensures var n := if NextMagic(buffer).None? then |buffer| else NextMagic(buffer).value;
            var d := c.(counters := c.counters.(garbageBytes := c.counters.garbageBytes + n));
            && 0 < n <= |buffer|
            && ApplyAll(opts, now, c, Decided(reg, buffer)) == ApplyAll(opts, now, d, Decided(reg, buffer[n..]))
            && Rest(reg, buffer) == Rest(reg, buffer[n..])
  {
    hide ApplyAll, Decided, Rest, NextMagic;
    NextMagicIsFirst(buffer, 0);
    Unrolled(reg, opts, now, c, buffer);
  }

  // ---------------------------------------------------------------------------------------------------
  // Runs
  // ---------------------------------------------------------------------------------------------------

  ghost predicate AllFrames(frames: seq<bytes>) {
    forall i :: 0 <= i < |frames| ==> IsFrame(frames[i])
  }

  function DecodedAll(frames: seq<bytes>): seq<Message>
    requires AllFrames(frames)
  {
    seq(|frames|, i requires 0 <= i < |frames| => MessageOf(frames[i]))
  }

  /** Exactly these packets were delivered, in order, and nothing was counted against the stream. */
  ghost predicate Progress(before: Core, after: Core, frames: seq<bytes>) {
    && AllFrames(frames)
    && after.messages == before.messages + DecodedAll(frames)
    && after.counters.rxPackets == before.counters.rxPackets + |frames|
    && after.counters.garbageBytes == before.counters.garbageBytes
    && after.counters.crcErrors == before.counters.crcErrors
    && after.counters.rejectedPackets == before.counters.rejectedPackets
  }

  lemma NoProgress(c: Core)
    ensures Progress(c, c, [])
  {
  }

  lemma ProgressAdds(a: Core, b: Core, c: Core, done: seq<bytes>, more: seq<bytes>)
    requires Progress(a, b, done) && Progress(b, c, more)
    ensures Progress(a, c, done + more)
  {
    assert DecodedAll(done + more) == DecodedAll(done) + DecodedAll(more);
  }

  function ReplayKeyOf(frame: bytes): ReplayKey
    requires IsFrame(frame) && |frame| >= SIGNATURE_LENGTH
  {
    (HeaderOf(frame).sysId, HeaderOf(frame).compId, LinkIdOf(frame))
  }

  /** A correctly signed packet of one given signing stream, not from the far future. */
  ghost predicate ProperlySigned(s: Signing, now: int, key: ReplayKey, frame: bytes)
    requires IsFrame(frame)
  {
    && FlagSigned(HeaderOf(frame)) && HeaderOf(frame).incompatibility < 2
    && |frame| >= SIGNATURE_LENGTH && SignatureMatches(s.mac, frame)
    && ReplayKeyOf(frame) == key && TimestampOf(frame) <= now + SIGNATURE_MAX_FUTURE_TICKS
  }

  /** The first packet of a signing stream is above the watermark, or recent enough to start one. */
  ghost predicate FreshStart(s: Signing, until: int, c: Core, key: ReplayKey, stamp: int) {
    var previous := Find(c.replayTimestamps, key);
    if previous.Some? then previous.value < stamp
    else s.allowStaleFirstPacket || stamp >= until - SIGNATURE_MAX_AGE_TICKS
  }

  ghost predicate SignedStream(s: Signing, from: int, until: int, c: Core, key: ReplayKey, frames: seq<bytes>)
    requires AllFrames(frames)
  {
    && (forall i :: 0 <= i < |frames| ==> ProperlySigned(s, from, key, frames[i]))
    && (forall i, j :: 0 <= i < j < |frames| ==> TimestampOf(frames[i]) < TimestampOf(frames[j]))
    && (frames != [] ==> FreshStart(s, until, c, key, TimestampOf(frames[0])))
  }

  /** From `from` to `until` the signing policy has no objection: signing is off, or the packets are one proper
      signed stream. */
  ghost predicate Welcome(reg: Registry, opts: Options, from: int, until: int, c: Core, frames: seq<bytes>)
    requires AllGood(reg, frames)
  {
    GoodAreFrames(reg, frames);
    if opts.signing.None? then
      forall i :: 0 <= i < |frames| ==> HeaderOf(frames[i]).incompatibility < 2
    else
      exists key :: SignedStream(opts.signing.value, from, until, c, key, frames)
  }

  lemma GoodAreFrames(reg: Registry, frames: seq<bytes>)
    requires AllGood(reg, frames)
    ensures AllFrames(frames)
  {
    assert forall i :: 0 <= i < |frames| ==> IsGood(reg, frames[i]);
  }

  /** A passed packet is delivered and only the tables it concerns move. */
  lemma PassDelivers(opts: Options, c: Core, frame: bytes)
    requires IsFrame(frame)
    ensures Progress(c, Pass(opts, c, frame), [frame])
    ensures Pass(opts, c, frame).replayTimestamps == c.replayTimestamps
  {
    hide Find, Put, MakeRoom, MessageOf, HeaderOf, IsFrame;
  }

  lemma FindTouched(t: seq<Entry<ReplayKey, int>>, key: ReplayKey, stamp: int)
    requires Distinct(t)
    ensures Find(Touch(t, key, stamp, MAX_TRACKED_SOURCES), key) == Some(stamp)
  {
    hide Find, Without;
    var u := Touch(t, key, stamp, MAX_TRACKED_SOURCES);
    TouchKeepsShape(t, key, stamp, MAX_TRACKED_SOURCES);
    FindAt(u, |u| - 1);
  }

  /** One packet of a signed stream: delivered, and the watermark is now its stamp. */
  lemma SignedIsDelivered(opts: Options, from: int, until: int, now: int, c: Core, key: ReplayKey, frame: bytes)
    requires IsFrame(frame) && opts.signing.Some? && Guarded(c) && from <= now <= until
    requires ProperlySigned(opts.signing.value, from, key, frame)
    requires FreshStart(opts.signing.value, until, c, key, TimestampOf(frame))
    ensures Progress(c, Handle(opts, now, c, frame), [frame])
    ensures Find(Handle(opts, now, c, frame).replayTimestamps, key) == Some(TimestampOf(frame))
  {
    hide Pass, Touch, Find, TimestampOf, LinkIdOf, SignatureMatches, Learn, Table, Admissible, Distinct;
    var learnt := c.(signedSources := Learn(c.signedSources, SourceOf(HeaderOf(frame))));
    var stamp := TimestampOf(frame);
    TableShape(c.acceptances, MAX_TRACKED_SOURCES);
    FindTouched(c.replayTimestamps, key, stamp);
    PassDelivers(opts, Accept(learnt, key, stamp), frame);
    assert Handle(opts, now, c, frame) == Pass(opts, Accept(learnt, key, stamp), frame);
  }

  /** The first welcome packet is delivered and the rest stay welcome. */
  lemma WelcomeStep(reg: Registry, opts: Options, from: int, until: int, now: int, c: Core, frames: seq<bytes>)
    requires AllGood(reg, frames) && frames != [] && Guarded(c) && from <= now <= until
    requires Welcome(reg, opts, from, until, c, frames)
    ensures IsFrame(frames[0])
    ensures var d := Handle(opts, now, c, frames[0]);
            Progress(c, d, [frames[0]]) && Guarded(d) && Welcome(reg, opts, from, until, d, frames[1..])
  {
    hide Handle, IsGood, Progress, Guarded, IsFrame, TimestampOf, SignatureMatches, HeaderOf, LinkIdOf, Find;
    GoodAreFrames(reg, frames);
    HandleKeepsGuard(opts, now, c, frames[0]);
    if opts.signing.None? {
      UnsignedIsDelivered(opts, now, c, frames[0]);
    } else {
      var s := opts.signing.value;
      var key :| SignedStream(s, from, until, c, key, frames);
      SignedIsDelivered(opts, from, until, now, c, key, frames[0]);
      assert SignedStream(s, from, until, Handle(opts, now, c, frames[0]), key, frames[1..]);
    }
  }

  lemma UnsignedIsDelivered(opts: Options, now: int, c: Core, frame: bytes)
    requires IsFrame(frame) && opts.signing.None? && HeaderOf(frame).incompatibility < 2
    ensures Progress(c, Handle(opts, now, c, frame), [frame])
  {
    hide Pass, Progress;
    PassDelivers(opts, c, frame);
  }

  /** The first `n` welcome packets are delivered in one go; what follows stays welcome. */
  lemma {:induction false} WelcomeRun(reg: Registry, opts: Options, from: int, until: int, now: int, c: Core,
                                      frames: seq<bytes>, n: nat)
    requires AllGood(reg, frames) && n <= |frames| && Guarded(c) && from <= now <= until
    requires Welcome(reg, opts, from, until, c, frames)
    ensures Sound(AsEvents(frames[..n]))
    ensures var d := ApplyAll(opts, now, c, AsEvents(frames[..n]));
            Progress(c, d, frames[..n]) && Guarded(d) && Welcome(reg, opts, from, until, d, frames[n..])
    decreases n
  {
    hide Handle, IsGood, Progress, Guarded, IsFrame, Welcome;
    GoodAreFrames(reg, frames);
    if n == 0 {
      NoProgress(c);
      assert frames[0..] == frames && frames[..0] == [];
    } else {
      var es, f := AsEvents(frames[..n]), frames[0];
      WelcomeStep(reg, opts, from, until, now, c, frames);
      var d := Handle(opts, now, c, f);
      WelcomeRun(reg, opts, from, until, now, d, frames[1..], n - 1);
      assert es[1..] == AsEvents(frames[1..][..n - 1]);
      assert frames[1..][n - 1..] == frames[n..];
      assert frames[..n] == [f] + frames[1..][..n - 1];
      assert es[0] == Good(f) && Apply(opts, now, c, es[0]) == d;
      ProgressAdds(c, d, ApplyAll(opts, now, c, es), [f], frames[1..][..n - 1]);
    }
  }

  lemma EmptyIsPart(reg: Registry, frames: seq<bytes>, chunks: seq<bytes>)
    ensures AllGood(reg, []) && PartOfNext(frames, 0, []) && [] + Joined(chunks[0..]) == Joined(chunks)
  {
    assert chunks[0..] == chunks;
  }

  lemma NothingLeft(reg: Registry, later: seq<bytes>, tail: bytes, chunks: seq<bytes>)
    requires AllGood(reg, later) && PartOfNext(later, 0, tail) && tail + Joined(chunks[|chunks|..]) == Joined(later)
    ensures later == [] && tail == []
  {
    hide IsGood;
    PartIsShorter(reg, later, 0, tail);
    assert later[0..] == later;
  }

  lemma GoodParts(reg: Registry, frames: seq<bytes>, j: nat)
    requires AllGood(reg, frames) && j <= |frames|
    ensures AllGood(reg, frames[..j]) && AllGood(reg, frames[j..])
  {
  }

  /** The next chunk completes some packets and leaves the beginning of another. */
  lemma NextPackets(reg: Registry, later: seq<bytes>, tail: bytes, chunks: seq<bytes>, i: nat) returns (j: nat)
    requires AllGood(reg, later) && i < |chunks| && tail + Joined(chunks[i..]) == Joined(later)
    ensures j <= |later| && Decided(reg, tail + chunks[i]) == AsEvents(later[..j])
    ensures PartOfNext(later[j..], 0, Rest(reg, tail + chunks[i]))
    ensures Rest(reg, tail + chunks[i]) + Joined(chunks[i + 1..]) == Joined(later[j..])
  {
    hide IsGood, Events, Rest, Joined, PartOfNext, AsEvents;
    var b, remaining := tail + chunks[i], Joined(chunks[i + 1..]);
    JoinedFirst(chunks, i);
    assert b + remaining == Joined(later) && (b + remaining)[..|b|] == b;
    var left: bytes;
    j, left := CutStream(reg, later, |b|);
    FramesThenPart(reg, later, j, left);
    PartMoves(later, j, left);
    JoinedSplit(later, j);
    var front := Joined(later[..j]);
    assert front + (left + remaining) == front + Joined(later[j..]);
    PrefixCancels(front, left + remaining, Joined(later[j..]));
  }

  lemma JoinedFirst(chunks: seq<bytes>, i: nat)
    requires i < |chunks|
    ensures Joined(chunks[i..]) == chunks[i] + Joined(chunks[i + 1..])
  {
    assert chunks[i..][1..] == chunks[i + 1..];
  }

  lemma PartMoves(frames: seq<bytes>, j: nat, tail: bytes)
    requires PartOfNext(frames, j, tail)
    ensures j <= |frames| && PartOfNext(frames[j..], 0, tail)
  {
  }

  // ---------------------------------------------------------------------------------------------------
  // What is sent is welcome
  // ---------------------------------------------------------------------------------------------------

  lemma SignatureReadsBack(frame: bytes, s: Signing, timestampMs: int)
    requires 0 <= SigningTimestamp(timestampMs) < 0x1000000000000
    ensures var f := WithSignature(frame, s, timestampMs);
            && |f| == |frame| + SIGNATURE_LENGTH
            && f == frame + f[|frame|..]
            && SignatureMatches(s.mac, f) && LinkIdOf(f) == s.linkId
            && TimestampOf(f) == SigningTimestamp(timestampMs)
  {
    hide LowBytes, LittleEndian, SigningTimestamp;
    var stamp := LowBytes(SigningTimestamp(timestampMs), 6);
    var covered := frame + SignatureSpace(s, timestampMs);
    var f := WithSignature(frame, s, timestampMs);
    assert f[..|f| - 6] == covered && f[|f| - 6..] == s.mac(covered);
    assert f[|f| - 12..|f| - 6] == stamp;
    FortyEightBits();
    LowBytesReadBack(SigningTimestamp(timestampMs), 6);
  }

  lemma FortyEightBits()
    ensures PowerOfTwo(48) == 0x1000000000000
  {
    Powers();
    assert PowerOfTwo(20) == 16 * PowerOfTwo(16) && PowerOfTwo(24) == 16 * PowerOfTwo(20) && PowerOfTwo(28) == 16 * PowerOfTwo(24);
    assert PowerOfTwo(32) == 16 * PowerOfTwo(28) && PowerOfTwo(36) == 16 * PowerOfTwo(32) && PowerOfTwo(40) == 16 * PowerOfTwo(36);
    assert PowerOfTwo(44) == 16 * PowerOfTwo(40) && PowerOfTwo(48) == 16 * PowerOfTwo(44);
  }

  /** A signed packet made by one session is a good packet and a proper part of a signed stream for any session
      sharing the key whose clock is not too far behind; its payload and stamp come back. */
  lemma SentIsProper(reg: Registry, opts: Options, id: nat, payload: bytes, seqNo: byte, stampMs: int, from: int)
    requires opts.signing.Some?
    requires Fits(reg, Outgoing(V2, id, payload, seqNo, opts.sysId, opts.compId, 1, 0))
    requires 0 <= SigningTimestamp(stampMs) < 0x1000000000000
    requires SigningTimestamp(stampMs) <= from + SIGNATURE_MAX_FUTURE_TICKS
    ensures var f := Sent(opts, V2, id, payload, seqNo, reg[id].magic, stampMs);
            && IsGood(reg, f)
            && ProperlySigned(opts.signing.value, from, (opts.sysId, opts.compId, opts.signing.value.linkId), f)
            && TimestampOf(f) == SigningTimestamp(stampMs)
            && HeaderOf(f).msgId == id && HeaderOf(f).seqNo == seqNo
            && Padded(Payload(f), |payload|) == payload
  {
    hide Serialized, WithSignature, IsGood, Padded, TimestampOf, LinkIdOf, SignatureMatches, HeaderOf, Payload, SigningTimestamp;
    var m := Outgoing(V2, id, payload, seqNo, opts.sysId, opts.compId, 1, 0);
    var body := Serialized(m, reg[id].magic);
    var f := WithSignature(body, opts.signing.value, stampMs);
    SignatureReadsBack(body, opts.signing.value, stampMs);
    SerializedRoundTrip(reg, m, f[|body|..]);
    assert IsFrame(f) by { GoodIsAFrame(reg, f); }
  }

  lemma GoodIsAFrame(reg: Registry, f: bytes)
    requires IsGood(reg, f)
    ensures IsFrame(f)
  {
  }

  /** Stamps used by a run of signed sends whose clock readings are given. */
  function Stamps(last: int, clocks: seq<int>): seq<int>
    decreases |clocks|
  {
    if clocks == [] then [] else
      var stamp := NextStampMs(clocks[0], last);
      [stamp] + Stamps(stamp, clocks[1..])
  }

  /** Whatever the clock does, no two packets between resets carry the same stamp, and they rise. */
  lemma {:induction false} StampsIncrease(last: int, clocks: seq<int>)
    ensures |Stamps(last, clocks)| == |clocks|
    ensures forall i :: 0 <= i < |clocks| ==> Stamps(last, clocks)[i] > last && Stamps(last, clocks)[i] >= clocks[i]
    ensures forall i, j :: 0 <= i < j < |clocks| ==> Stamps(last, clocks)[i] < Stamps(last, clocks)[j]
    decreases |clocks|
  {
    if clocks != [] {
      StampsIncrease(NextStampMs(clocks[0], last), clocks[1..]);
    }
  }

  /** A reset forgets the last stamp: the next packet's stamp is above the previous one exactly when the clock by
      itself has moved past it. A receiver holding the previous stamp as its watermark refuses the packet exactly if that
      has not happened, or the signature is wrong, or the stamp is too far ahead of its own clock. */
  lemma ResetMayReplay(opts: Options, s: Signing, now: int, c: Core, frame: bytes, usedMs: int, clock: int)
    requires clock > 1 && IsFrame(frame) && opts.signing == Some(s)
    requires HeaderOf(frame).version.V2? && FlagSigned(HeaderOf(frame)) && HeaderOf(frame).incompatibility / 2 == 0
    requires (SignedIsLong(frame); TimestampOf(frame)) == SigningTimestamp(NextStampMs(clock, 0))
    requires Find(c.replayTimestamps, ReplayKeyOf(frame)) == Some(SigningTimestamp(usedMs))
    ensures NextStampMs(clock, 0) > usedMs <==> clock > usedMs
    ensures Handle(opts, now, c, frame).messages == c.messages
            <==> clock <= usedMs || !(SignedIsLong(frame); SignatureMatches(s.mac, frame))
                 || SigningTimestamp(clock) > now + SIGNATURE_MAX_FUTURE_TICKS
  {
    hide Find, TimestampOf, LinkIdOf, SignatureMatches, Touch, Learn, AccountSequence, MessageOf;
    SignedIsLong(frame);
    var learnt := c.(signedSources := Learn(c.signedSources, SourceOf(HeaderOf(frame))));
    AccountingDelivers(opts, Accept(learnt, ReplayKeyOf(frame), TimestampOf(frame)), frame);
  }

  lemma AccountingDelivers(opts: Options, c: Core, frame: bytes)
    requires IsFrame(frame)
    ensures Pass(opts, c, frame).messages == c.messages + [MessageOf(frame)]
  {
  }

  /** Every byte fed is in exactly one place: counted as garbage, part of a packet taken, or still buffered; every
      packet taken is counted once, as received or as rejected; and every received one was handed on. */
  lemma BytesConserved(reg: Registry, opts: Options, now: int, c: Core, buffer: bytes)
    ensures var d := ApplyAll(opts, now, c, Decided(reg, buffer));
            && |buffer| == d.counters.garbageBytes - c.counters.garbageBytes + FrameBytes(Decided(reg, buffer)) + |Rest(reg, buffer)|
            && d.counters.rxPackets + d.counters.rejectedPackets
               == c.counters.rxPackets + c.counters.rejectedPackets + FrameCount(Decided(reg, buffer))
            && |d.messages| - |c.messages| == d.counters.rxPackets - c.counters.rxPackets
  {
    hide ApplyAll, Events, Rest;
    NothingLost(reg, buffer);
    EveryByteAccounted(opts, now, c, Decided(reg, buffer));
  }

  /** In every state a session can reach, the accepted stamps of one signing key rise strictly, unless 256 other keys
      were accepted in between; and a stamp at or below a watermark still held is refused. */
  lemma ReplaysRefused(opts: Options, s: Signing, now: int, c: Core, i: nat, j: nat, frame: bytes)
    requires Guarded(c) && i < j < |c.acceptances| && c.acceptances[i].key == c.acceptances[j].key
    requires |Between(c.acceptances, i, j) - {c.acceptances[i].key}| < MAX_TRACKED_SOURCES
    requires IsFrame(frame) && |frame| >= SIGNATURE_LENGTH
    ensures c.acceptances[i].value < c.acceptances[j].value
    ensures |KeysOf(c.acceptances[j + 1..])| < MAX_TRACKED_SOURCES && c.acceptances[j].key !in KeysOf(c.acceptances[j + 1..])
            && ReplayKeyOf(frame) == c.acceptances[j].key && TimestampOf(frame) <= c.acceptances[j].value
            ==> HandleSigned(opts, s, now, c, frame) == Reject(c)
  {
    hide Table, Pass, TimestampOf, LinkIdOf, Find;
    AcceptedIncrease(c.acceptances, i, j, MAX_TRACKED_SOURCES);
    if c.acceptances[j].key !in KeysOf(c.acceptances[j + 1..]) {
      var p := RememberedOrForgotten(c.acceptances, j, MAX_TRACKED_SOURCES);
      TableShape(c.acceptances, MAX_TRACKED_SOURCES);
      if |KeysOf(c.acceptances[j + 1..])| < MAX_TRACKED_SOURCES {
        FindAt(c.replayTimestamps, p);
      }
    }
  }
}
