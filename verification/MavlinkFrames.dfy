/** MAVLink v1/v2 packets: layout, serialisation with empty-byte truncation, and the framing decision the receiver
    takes on the bytes it has buffered. */
module MavlinkFrames {
  import opened Bytes
  import opened Crc

  const V1_MAGIC: byte := 0xfe
  const V2_MAGIC: byte := 0xfd
  const CHECKSUM_LENGTH := 2
  const SIGNATURE_LENGTH := 13
  /** The longest packet: v2 header, full payload, checksum and signature. */
  const MAX_FRAME := 280

  /** What the dialect says about a message id: its payload length and the extra checksum byte. */
  datatype Definition = Definition(length: byte, magic: byte)
  type Registry = map<nat, Definition>

  datatype Version = V1 | V2

  datatype Header = Header(version: Version, payloadLength: byte, seqNo: byte, sysId: byte, compId: byte,
                           msgId: nat, incompatibility: byte, compatibility: byte)

  function PayloadOffset(v: Version): nat {
    if v.V1? then 6 else 10
  }

  // ---------------------------------------------------------------------------------------------------
  // Looking into a buffer
  // ---------------------------------------------------------------------------------------------------

  predicate IsMagic(b: byte) {
    b == V1_MAGIC || b == V2_MAGIC
  }

  function IndexOf(buffer: bytes, value: byte, from: nat): (i: Option<nat>)
    ensures i.Some? ==> from <= i.value < |buffer| && buffer[i.value] == value && value !in buffer[from..i.value]
    ensures i.None? ==> from >= |buffer| || value !in buffer[from..]
    decreases |buffer| - from
  {
    if from >= |buffer| then None
    else if buffer[from] == value then Some(from)
    else
      var later := IndexOf(buffer, value, from + 1);
      assert buffer[from..] == [buffer[from]] + buffer[from + 1..];
      assert later.Some? ==> buffer[from..later.value] == [buffer[from]] + buffer[from + 1..later.value];
      later
  }

  function NextMagic(buffer: bytes, from: nat := 0): Option<nat> {
    var v1 := IndexOf(buffer, V1_MAGIC, from);
    var v2 := IndexOf(buffer, V2_MAGIC, from);
    if v1.None? then v2
    else if v2.None? then v1
    else Some(if v1.value < v2.value then v1.value else v2.value)
  }

  lemma NextMagicIsFirst(buffer: bytes, from: nat)
    ensures var m := NextMagic(buffer, from);
            && (m.Some? ==> from <= m.value < |buffer| && IsMagic(buffer[m.value]))
            && (m.Some? ==> forall i :: from <= i < m.value ==> !IsMagic(buffer[i]))
            && (m.None? ==> forall i :: from <= i < |buffer| ==> !IsMagic(buffer[i]))
  {
    var v1, v2 := IndexOf(buffer, V1_MAGIC, from), IndexOf(buffer, V2_MAGIC, from);
    var stop := if NextMagic(buffer, from).Some? then NextMagic(buffer, from).value else |buffer|;
    forall i | from <= i < stop ensures !IsMagic(buffer[i]) {
      assert v1.Some? ==> buffer[from..v1.value][i - from] == buffer[i];
      assert v2.Some? ==> buffer[from..v2.value][i - from] == buffer[i];
      assert buffer[from..][i - from] == buffer[i];
    }
  }

  lemma MagicIs(buffer: bytes, from: nat, m: nat)
    requires from <= m < |buffer| && IsMagic(buffer[m])
    requires forall i :: from <= i < m ==> !IsMagic(buffer[i])
    ensures NextMagic(buffer, from) == Some(m)
  {
    hide NextMagic;
    NextMagicIsFirst(buffer, from);
  }

  lemma MagicNowhere(buffer: bytes, from: nat)
    requires forall i :: from <= i < |buffer| ==> !IsMagic(buffer[i])
    ensures NextMagic(buffer, from).None?
  {
    hide NextMagic;
    NextMagicIsFirst(buffer, from);
  }

  /** Total length claimed by the packet starting at `offset`, or None while its header is incomplete. */
  function FrameLength(buffer: bytes, offset: nat := 0): (n: Option<nat>)
    ensures n.Some? ==> 8 <= n.value <= MAX_FRAME
  {
    if |buffer| < offset + 2 || !IsMagic(buffer[offset]) then None
    else
      var v := if buffer[offset] == V1_MAGIC then V1 else V2;
      if |buffer| < offset + PayloadOffset(v) then None
      else
        var signed := v.V2? && buffer[offset + 2] % 2 == 1;
        Some(PayloadOffset(v) + buffer[offset + 1] as nat + CHECKSUM_LENGTH + if signed then SIGNATURE_LENGTH else 0)
  }

  function HeaderOf(frame: bytes): Header
    requires |frame| >= 6 && (frame[0] != V1_MAGIC ==> |frame| >= 10)
  {
    if frame[0] == V1_MAGIC then Header(V1, frame[1], frame[2], frame[3], frame[4], frame[5], 0, 0)
    else Header(V2, frame[1], frame[4], frame[5], frame[6], U24(frame[7], frame[8], frame[9]), frame[2], frame[3])
  }

  function U24(b0: int, b1: int, b2: int): int {
    b0 + 256 * b1 + 0x10000 * b2
  }

  /** A complete packet: exactly as long as its own header claims. */
  predicate IsFrame(frame: bytes) {
    FrameLength(frame) == Some(|frame|)
  }

  function CrcOffset(frame: bytes): nat
    requires IsFrame(frame)
  {
    PayloadOffset(HeaderOf(frame).version) + HeaderOf(frame).payloadLength as nat
  }

  function Payload(frame: bytes): bytes
    requires IsFrame(frame)
  {
    frame[PayloadOffset(HeaderOf(frame).version)..CrcOffset(frame)]
  }

  /** The checksum field, low byte first, agrees with the header, payload and the message's extra byte. */
  predicate CrcMatches(frame: bytes, magic: byte)
    requires IsFrame(frame)
  {
    var at := CrcOffset(frame);
    U16(frame[at + 1], frame[at]) == MavlinkCrc(frame[1..at], Some(magic))
  }

  predicate Registered(reg: Registry, frame: bytes)
    requires IsFrame(frame)
  {
    HeaderOf(frame).msgId in reg
  }

  /** A packet the receiver will hand on. */
  predicate IsGood(reg: Registry, frame: bytes) {
    IsFrame(frame) && Registered(reg, frame) && CrcMatches(frame, reg[HeaderOf(frame).msgId].magic)
  }

  // ---------------------------------------------------------------------------------------------------
  // The framing decision
  // ---------------------------------------------------------------------------------------------------

  datatype Action = Wait | Garbage(n: nat) | Unknown(n: nat) | BadCrc | Deliver(n: nat)

  /** Offset of the first good packet lying completely inside the buffer at or after `from`. */
  function FindComplete(reg: Registry, buffer: bytes, from: nat): (at: Option<nat>)
    ensures at.Some? ==> from <= at.value < |buffer|
    decreases |buffer| - from
  {
    NextMagicIsFirst(buffer, from);
    var m := NextMagic(buffer, from);
    if m.None? then None
    else if CompleteAt(reg, buffer, m.value) then m
    else FindComplete(reg, buffer, m.value + 1)
  }

  predicate CompleteAt(reg: Registry, buffer: bytes, offset: nat)
    requires offset < |buffer|
  {
    var n := FrameLength(buffer, offset);
    n.Some? && offset + n.value <= |buffer|
    && (FrameLengthLocal(buffer, offset, n.value); IsGood(reg, buffer[offset..offset + n.value]))
  }

  lemma FrameLengthLocal(buffer: bytes, offset: nat, n: nat)
    requires FrameLength(buffer, offset) == Some(n) && offset + n <= |buffer|
    ensures IsFrame(buffer[offset..offset + n])
  {
  }

  /** What the receiver does next with a non-empty buffer. */
  function Step(reg: Registry, buffer: bytes): (a: Action)
    requires buffer != []
    ensures Taken(a) <= |buffer|
    ensures a.Wait? || Taken(a) > 0
  {
    var start := NextMagic(buffer);
    if start.None? then Garbage(|buffer|)
    else if start.value > 0 then Garbage(start.value)
    else
      var expected := FrameLength(buffer);
      if expected.None? then Wait
      else if |buffer| < expected.value then
        if HeaderOf(buffer).msgId in reg then Wait
        else
          var nested := FindComplete(reg, buffer, 1);
          if nested.None? then Wait else Garbage(nested.value)
      else
        var frame := buffer[..expected.value];
        if HeaderOf(frame).msgId !in reg then Unknown(expected.value)
        else if !CrcMatches(frame, reg[HeaderOf(frame).msgId].magic) then BadCrc
        else Deliver(expected.value)
  }

  function Taken(a: Action): nat {
    match a
    case Wait => 0
    case Garbage(n) => n
    case Unknown(n) => n
    case BadCrc => 1
    case Deliver(n) => n
  }

  // ---------------------------------------------------------------------------------------------------
  // Running the decision until it waits
  // ---------------------------------------------------------------------------------------------------

  datatype Event = Skipped(data: bytes) | Rejected(frame: bytes) | Corrupt(first: byte) | Good(frame: bytes)

  function EventOf(a: Action, buffer: bytes): Event
    requires !a.Wait? && 0 < Taken(a) <= |buffer|
  {
    match a
    case Garbage(n) => Skipped(buffer[..n])
    case Unknown(n) => Rejected(buffer[..n])
    case BadCrc => Corrupt(buffer[0])
    case Deliver(n) => Good(buffer[..n])
  }

  function Events(reg: Registry, buffer: bytes): seq<Event>
    decreases |buffer|
  {
    if buffer == [] || Step(reg, buffer).Wait? then []
    else
      var a := Step(reg, buffer);
      [EventOf(a, buffer)] + Events(reg, buffer[Taken(a)..])
  }

  function Rest(reg: Registry, buffer: bytes): bytes
    decreases |buffer|
  {
    if buffer == [] || Step(reg, buffer).Wait? then buffer
    else Rest(reg, buffer[Taken(Step(reg, buffer))..])
  }

  lemma UnrollRun(reg: Registry, buffer: bytes)
    requires buffer != [] && !Step(reg, buffer).Wait?
    ensures var a := Step(reg, buffer);
            Events(reg, buffer) == [EventOf(a, buffer)] + Events(reg, buffer[Taken(a)..])
            && Rest(reg, buffer) == Rest(reg, buffer[Taken(a)..])
  {
  }

  function Consumed(e: Event): bytes {
    match e
    case Skipped(data) => data
    case Rejected(frame) => frame
    case Corrupt(first) => [first]
    case Good(frame) => frame
  }

  function AllConsumed(es: seq<Event>): bytes {
    if es == [] then [] else Consumed(es[0]) + AllConsumed(es[1..])
  }

  /** No byte is lost, invented or reordered: the consumed pieces followed by the remainder are the input. */
  lemma {:induction false} NothingLost(reg: Registry, buffer: bytes)
    ensures AllConsumed(Events(reg, buffer)) + Rest(reg, buffer) == buffer
    decreases |buffer|
  {
    hide Step, Events, Rest, EventOf, Consumed;
    if buffer == [] || Step(reg, buffer).Wait? {
      NothingDone(reg, buffer);
    } else {
      var a := Step(reg, buffer);
      var later := buffer[Taken(a)..];
      NothingLost(reg, later);
      UnrollRun(reg, buffer);
      EventTakes(a, buffer);
      assert Events(reg, buffer)[1..] == Events(reg, later);
      assert buffer == buffer[..Taken(a)] + later;
    }
  }

  lemma NothingDone(reg: Registry, buffer: bytes)
    requires buffer == [] || Step(reg, buffer).Wait?
    ensures Events(reg, buffer) == [] && Rest(reg, buffer) == buffer
  {
  }

  lemma EventTakes(a: Action, buffer: bytes)
    requires !a.Wait? && 0 < Taken(a) <= |buffer|
    ensures Consumed(EventOf(a, buffer)) == buffer[..Taken(a)]
  {
  }

  /** What is left always fits below one maximal packet, whatever arrived. */
  lemma {:induction false} RestIsShort(reg: Registry, buffer: bytes)
    ensures |Rest(reg, buffer)| < MAX_FRAME
    ensures Rest(reg, buffer) != [] ==> IsMagic(Rest(reg, buffer)[0])
    ensures Events(reg, Rest(reg, buffer)) == []
    decreases |buffer|
  {
    if buffer == [] {
    } else if Step(reg, buffer).Wait? {
      NextMagicIsFirst(buffer, 0);
    } else {
      RestIsShort(reg, buffer[Taken(Step(reg, buffer))..]);
    }
  }

  /** Every event is what its name says. */
  lemma {:induction false} EventsAreTruthful(reg: Registry, buffer: bytes)
    ensures forall i :: 0 <= i < |Events(reg, buffer)| ==>
              match Events(reg, buffer)[i]
              case Good(f) => IsGood(reg, f)
              case Rejected(f) => IsFrame(f) && !Registered(reg, f)
              case Corrupt(b) => IsMagic(b)
              case Skipped(d) => d != []
    decreases |buffer|
  {
    if buffer != [] && !Step(reg, buffer).Wait? {
      var a := Step(reg, buffer);
      EventsAreTruthful(reg, buffer[Taken(a)..]);
      NextMagicIsFirst(buffer, 0);
      if a.Unknown? || a.Deliver? {
        FrameLengthLocal(buffer, 0, Taken(a));
        assert buffer[0..Taken(a)] == buffer[..Taken(a)];
      }
    }
  }

  // ---------------------------------------------------------------------------------------------------
  // Good packets pass, whole, in order, however the stream is cut
  // ---------------------------------------------------------------------------------------------------

  lemma MagicFirst(buffer: bytes)
    requires buffer != [] && IsMagic(buffer[0])
    ensures NextMagic(buffer) == Some(0)
  {
    NextMagicIsFirst(buffer, 0);
  }

  lemma GoodIsDelivered(reg: Registry, frame: bytes, more: bytes)
    requires IsGood(reg, frame)
    ensures Step(reg, frame + more) == Deliver(|frame|)
  {
    hide MavlinkCrc, FindComplete;
    var b := frame + more;
    MagicFirst(b);
    assert FrameLength(b) == Some(|frame|);
    assert b[..|frame|] == frame;
  }

  lemma PartOfGoodWaits(reg: Registry, frame: bytes, n: nat)
    requires IsGood(reg, frame) && 0 < n < |frame|
    ensures Step(reg, frame[..n]) == Wait
  {
    hide MavlinkCrc, FindComplete;
    var b := frame[..n];
    MagicFirst(b);
  }

  ghost predicate AllGood(reg: Registry, frames: seq<bytes>) {
    forall i :: 0 <= i < |frames| ==> IsGood(reg, frames[i])
  }

  function AsEvents(frames: seq<bytes>): seq<Event> {
    seq(|frames|, i requires 0 <= i < |frames| => Good(frames[i]))
  }

  /** `tail` is the beginning of the packet that comes after the first `k`. */
  ghost predicate PartOfNext(frames: seq<bytes>, k: nat, tail: bytes) {
    k <= |frames| && (tail == [] || (k < |frames| && |tail| < |frames[k]| && tail == frames[k][..|tail|]))
  }

  lemma {:induction false} FramesThenPart(reg: Registry, frames: seq<bytes>, k: nat, tail: bytes)
    requires AllGood(reg, frames) && PartOfNext(frames, k, tail)
    ensures Events(reg, Joined(frames[..k]) + tail) == AsEvents(frames[..k])
    ensures Rest(reg, Joined(frames[..k]) + tail) == tail
    decreases k
  {
    hide Step, IsGood;
    if k == 0 {
      assert Joined(frames[..k]) + tail == tail;
      if tail != [] {
        PartOfGoodWaits(reg, frames[0], |tail|);
      }
    } else {
      var f, later := frames[0], Joined(frames[1..][..k - 1]) + tail;
      assert frames[..k][1..] == frames[1..][..k - 1] && frames[..k][0] == f;
      assert Joined(frames[..k]) + tail == f + later;
      GoodIsDelivered(reg, f, later);
      assert (f + later)[|f|..] == later && (f + later)[..|f|] == f;
      FramesThenPart(reg, frames[1..], k - 1, tail);
      assert AsEvents(frames[..k]) == [Good(f)] + AsEvents(frames[1..][..k - 1]);
    }
  }

  /** Any beginning of a stream of packets is some whole packets and a part of the next. */
  lemma {:induction false} CutStream(reg: Registry, frames: seq<bytes>, n: nat) returns (k: nat, tail: bytes)
    requires AllGood(reg, frames) && n <= |Joined(frames)|
    ensures PartOfNext(frames, k, tail) && Joined(frames)[..n] == Joined(frames[..k]) + tail
    decreases |frames|
  {
    hide IsGood;
    if frames == [] {
      k, tail := 0, [];
    } else if n < |frames[0]| {
      k, tail := 0, frames[0][..n];
    } else {
      var f := frames[0];
      k, tail := CutStream(reg, frames[1..], n - |f|);
      k := k + 1;
      assert frames[..k][1..] == frames[1..][..k - 1];
      assert Joined(frames)[..n] == f + Joined(frames[1..])[..n - |f|];
    }
  }

  /** Buffer contents and events after a sequence of chunks. */
  function Fed(reg: Registry, chunks: seq<bytes>): (seq<Event>, bytes) {
    if chunks == [] then ([], [])
    else
      var (es, left) := Fed(reg, chunks[..|chunks| - 1]);
      var b := left + chunks[|chunks| - 1];
      (es + Events(reg, b), Rest(reg, b))
  }

  /** While a stream of packets arrives, the packets completed so far have been delivered in order and nothing
      else has happened; what is buffered is the beginning of the next packet. */
  lemma {:induction false} PrefixDelivered(reg: Registry, frames: seq<bytes>, chunks: seq<bytes>) returns (k: nat)
    requires AllGood(reg, frames)
    requires Joined(chunks) <= Joined(frames)
    ensures k <= |frames| && Fed(reg, chunks).0 == AsEvents(frames[..k])
    ensures PartOfNext(frames, k, Fed(reg, chunks).1)
    ensures Joined(chunks) == Joined(frames[..k]) + Fed(reg, chunks).1
    decreases |chunks|
  {
    hide IsGood, Events, Rest;
    if chunks == [] {
      k := 0;
      assert AsEvents(frames[..0]) == [];
    } else {
      var front, last := chunks[..|chunks| - 1], chunks[|chunks| - 1];
      assert chunks == front + [last];
      JoinedSnoc(front, last);
      k := PrefixDelivered(reg, frames, front);
      k := ChunkDelivered(reg, frames, k, Fed(reg, front).1, last);
    }
  }

  lemma JoinedSplit(frames: seq<bytes>, k: nat)
    requires k <= |frames|
    ensures Joined(frames) == Joined(frames[..k]) + Joined(frames[k..])
  {
    if k > 0 {
      JoinedSplit(frames[1..], k - 1);
      assert frames[..k][1..] == frames[1..][..k - 1] && frames[1..][k - 1..] == frames[k..];
    }
  }

  lemma PrefixCancels(p: bytes, b: bytes, l: bytes)
    requires p + b <= p + l
    ensures b <= l && l[..|b|] == b
  {
    forall i | 0 <= i < |b| ensures b[i] == l[i] {
      assert (p + b)[|p| + i] == (p + l)[|p| + i];
    }
  }

  lemma ChunkDelivered(reg: Registry, frames: seq<bytes>, k: nat, tail: bytes, chunk: bytes) returns (k': nat)
    requires AllGood(reg, frames) && PartOfNext(frames, k, tail)
    requires Joined(frames[..k]) + tail + chunk <= Joined(frames)
    ensures k <= k' <= |frames|
    ensures AsEvents(frames[..k]) + Events(reg, tail + chunk) == AsEvents(frames[..k'])
    ensures PartOfNext(frames, k', Rest(reg, tail + chunk))
    ensures Joined(frames[..k]) + tail + chunk == Joined(frames[..k']) + Rest(reg, tail + chunk)
  {
    hide IsGood, Events, Rest;
    var later := frames[k..];
    var b := tail + chunk;
    JoinedSplit(frames, k);
    assert Joined(frames[..k]) + tail + chunk == Joined(frames[..k]) + b;
    PrefixCancels(Joined(frames[..k]), b, Joined(later));
    var j, tail' := CutStream(reg, later, |b|);
    FramesThenPart(reg, later, j, tail');
    k' := k + j;
    assert frames[..k'][..k] == frames[..k] && frames[..k'][k..] == later[..j];
    JoinedSplit(frames[..k'], k);
    assert AsEvents(frames[..k']) == AsEvents(frames[..k]) + AsEvents(later[..j]);
    assert Joined(frames[..k]) + tail + chunk == Joined(frames[..k]) + (Joined(later[..j]) + tail');
  }

  /** Round trip at packet level: whatever the chunks, exactly the packets come out, in order, with no garbage,
      no checksum error and nothing left over. */
  lemma ChunkedStreamDelivered(reg: Registry, frames: seq<bytes>, chunks: seq<bytes>)
    requires AllGood(reg, frames)
    requires Joined(chunks) == Joined(frames)
    ensures Fed(reg, chunks) == (AsEvents(frames), [])
  {
    var k := PrefixDelivered(reg, frames, chunks);
    JoinedSplit(frames, k);
    var tail := Fed(reg, chunks).1;
    assert tail == Joined(frames[k..]);
    PartIsShorter(reg, frames, k, tail);
    assert frames[..k] == frames;
  }

  lemma PartIsShorter(reg: Registry, frames: seq<bytes>, k: nat, tail: bytes)
    requires AllGood(reg, frames) && PartOfNext(frames, k, tail)
    ensures k < |frames| ==> |tail| < |Joined(frames[k..])|
  {
    if k < |frames| {
      assert IsGood(reg, frames[k]) && frames[k..][0] == frames[k];
    }
  }
}
