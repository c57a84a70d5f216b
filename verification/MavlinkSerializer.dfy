/** Writing packets: field layout, empty-byte truncation, checksum, signature space; and reading the payload back. */
module MavlinkSerializer {
  import opened Bytes
  import opened Crc
  import opened MavlinkFrames

  /** Everything a packet is made of. `payload` is the full, untruncated field image of the message. */
  datatype Outgoing = Outgoing(version: Version, id: nat, payload: bytes, seqNo: byte, sysId: byte, compId: byte,
                               incompatibility: byte, compatibility: byte)

  predicate Fits(reg: Registry, m: Outgoing) {
    m.id < 0x1000000 && m.id in reg && |m.payload| == reg[m.id].length
  }

  /** Trailing zero bytes go, but never the first byte. */
  function TruncatedLength(payload: bytes, n: nat): (t: nat)
    requires n <= |payload|
    ensures t <= n && (n > 0 ==> t > 0)
    ensures t > 1 ==> payload[t - 1] != 0
    ensures forall i :: t <= i < n ==> payload[i] == 0
  {
    if n > 1 && payload[n - 1] == 0 then TruncatedLength(payload, n - 1) else n
  }

  function WireLength(m: Outgoing): (n: nat)
    ensures n <= |m.payload|
  {
    if m.version.V1? then |m.payload| else TruncatedLength(m.payload, |m.payload|)
  }

  function HeaderBytes(m: Outgoing): bytes
    requires |m.payload| < 256
  {
    var n := WireLength(m);
    if m.version.V1? then [V1_MAGIC, n, m.seqNo, m.sysId, m.compId, m.id % 256]
    else [V2_MAGIC, n, m.incompatibility, m.compatibility, m.seqNo, m.sysId, m.compId,
          m.id % 256, m.id / 256 % 256, m.id / 0x10000 % 256]
  }

  /** The packet up to and including its checksum. */
  function Serialized(m: Outgoing, magic: byte): bytes
    requires |m.payload| < 256
  {
    var body := HeaderBytes(m) + m.payload[..WireLength(m)];
    var crc := MavlinkCrc(body[1..], Some(magic)) % 0x10000;
    body + [crc % 256, crc / 256]
  }

  /** Fill a zeroed buffer of full size, cut it to the truncated length and close it with the checksum. */
  method SerializeMessage(m: Outgoing, magic: byte) returns (frame: bytes)
    requires |m.payload| < 256
    ensures frame == Serialized(m, magic)
  {
    hide MavlinkCrc, HeaderBytes, WireLength;
    var offset := PayloadOffset(m.version);
    var full := FilledBuffer(m);
    var payloadLength := CutTrailingZeros(full, m);
    var body := full[..offset + payloadLength];
    assert body == full[..offset] + full[offset..offset + payloadLength];
    var crc := X25Crc(body, 1, 0, Some(magic));
    assert body[1..|body|] == body[1..];
    frame := body + [crc % 256, crc / 256];
  }

  /** Version 2 shortens the payload; either way the length byte is final afterwards. */
  method CutTrailingZeros(full: array<byte>, m: Outgoing) returns (payloadLength: nat)
    requires |m.payload| < 256
    requires full.Length == PayloadOffset(m.version) + |m.payload| + CHECKSUM_LENGTH
    requires full[..PayloadOffset(m.version)] == HeaderBytes(m)[1 := full[1]]
    requires full[PayloadOffset(m.version)..PayloadOffset(m.version) + |m.payload|] == m.payload
    requires m.version.V1? ==> full[1] == |m.payload|
    modifies full
    ensures payloadLength == WireLength(m)
    ensures full[..PayloadOffset(m.version)] == HeaderBytes(m)
    ensures full[PayloadOffset(m.version)..PayloadOffset(m.version) + payloadLength] == m.payload[..payloadLength]
  {
    var offset := PayloadOffset(m.version);
    payloadLength := |m.payload|;
    if m.version.V2? {
      while payloadLength > 1 && full[offset + payloadLength - 1] == 0
        invariant 0 <= payloadLength <= |m.payload|
        invariant TruncatedLength(m.payload, |m.payload|) == TruncatedLength(m.payload, payloadLength)
      {
        assert full[offset..offset + |m.payload|][payloadLength - 1] == m.payload[payloadLength - 1];
        payloadLength := payloadLength - 1;
      }
      assert payloadLength > 1 ==> full[offset..offset + |m.payload|][payloadLength - 1] == m.payload[payloadLength - 1];
      full[1] := payloadLength;
    }
  }

  /** A zeroed buffer with header and fields written, the version-2 length byte still open. */
  method FilledBuffer(m: Outgoing) returns (full: array<byte>)
    requires |m.payload| < 256
    ensures fresh(full) && full.Length == PayloadOffset(m.version) + |m.payload| + CHECKSUM_LENGTH
    ensures full[..PayloadOffset(m.version)] == HeaderBytes(m)[1 := full[1]]
    ensures full[PayloadOffset(m.version)..PayloadOffset(m.version) + |m.payload|] == m.payload
    ensures m.version.V1? ==> full[1] == |m.payload|
  {
    var offset := PayloadOffset(m.version);
    full := new byte[offset + |m.payload| + CHECKSUM_LENGTH](_ => 0);
    FillHeader(full, m);
    ghost var header := full[..offset];
    forall i | 0 <= i < |m.payload| {
      full[offset + i] := m.payload[i];
    }
    assert full[..offset] == header;
  }

  /** Header fields of `m`, with the length byte already right for version 1 and left open for version 2. */
  method FillHeader(full: array<byte>, m: Outgoing)
    requires |m.payload| < 256 && full.Length >= PayloadOffset(m.version)
    modifies full
    ensures full[..PayloadOffset(m.version)] == HeaderBytes(m)[1 := full[1]]
    ensures m.version.V1? ==> full[1] == |m.payload|
  {
    if m.version.V1? {
      full[0], full[1], full[2] := V1_MAGIC, |m.payload|, m.seqNo;
      full[3], full[4], full[5] := m.sysId, m.compId, m.id % 256;
    } else {
      full[0], full[2], full[3] := V2_MAGIC, m.incompatibility, m.compatibility;
      full[4], full[5], full[6] := m.seqNo, m.sysId, m.compId;
      full[7], full[8], full[9] := m.id % 256, m.id / 256 % 256, m.id / 0x10000 % 256;
    }
  }

  // ---------------------------------------------------------------------------------------------------
  // Reading back
  // ---------------------------------------------------------------------------------------------------

  /** The payload as the field readers see it: zero-padded to the message's full length. */
  function Padded(payload: bytes, length: nat): bytes {
    if |payload| >= length then payload else payload + seq(length - |payload|, _ => 0)
  }

  predicate Signed(m: Outgoing) {
    m.version.V2? && m.incompatibility % 2 == 1
  }

  /** The message ids a version-1 header can carry. */
  predicate Carries(v: Version, id: nat) {
    v.V1? ==> id < 256
  }

  function HeaderFor(m: Outgoing): Header
    requires |m.payload| < 256
  {
    if m.version.V1? then Header(V1, WireLength(m), m.seqNo, m.sysId, m.compId, m.id, 0, 0)
    else Header(V2, WireLength(m), m.seqNo, m.sysId, m.compId, m.id, m.incompatibility, m.compatibility)
  }

  lemma ThreeBytes(id: nat)
    requires id < 0x1000000
    ensures U24(id % 256, id / 256 % 256, id / 0x10000 % 256) == id
  {
    var h := id / 256;
    assert id == 256 * h + id % 256;
    assert id / 0x10000 == h / 256 && h == 256 * (h / 256) + h % 256;
  }

  lemma HeaderReadsBack(m: Outgoing, more: bytes)
    requires |m.payload| < 256 && m.id < 0x1000000 && Carries(m.version, m.id)
    ensures |HeaderBytes(m)| == PayloadOffset(m.version)
    ensures HeaderOf(HeaderBytes(m) + more) == HeaderFor(m)
  {
    ThreeBytes(m.id);
  }

  /** Every packet the serialiser makes, with its signature appended when its flag asks for one, is good: it has
      the length its header claims and its checksum matches. Its header fields come back, and its payload
      zero-padded is the payload that went in. */
  lemma SerializedRoundTrip(reg: Registry, m: Outgoing, signature: bytes)
    requires Fits(reg, m) && Carries(m.version, m.id)
    requires |signature| == if Signed(m) then SIGNATURE_LENGTH else 0
    ensures var f := Serialized(m, reg[m.id].magic) + signature;
            IsGood(reg, f) && HeaderOf(f) == HeaderFor(m) && Padded(Payload(f), reg[m.id].length) == m.payload
  {
    hide MavlinkCrc, HeaderBytes, WireLength, FrameLength, Padded, U16;
    var n, offset, magic := WireLength(m), PayloadOffset(m.version), reg[m.id].magic;
    HeaderReadsBack(m, []);
    var body := HeaderBytes(m) + m.payload[..n];
    var f := Serialized(m, magic) + signature;
    var crc := MavlinkCrc(body[1..], Some(magic)) % 0x10000;
    var tail := [crc % 256, crc / 256] + signature;
    assert f == body + tail;
    assert f == HeaderBytes(m) + (m.payload[..n] + tail);
    HeaderReadsBack(m, m.payload[..n] + tail);
    LengthReadsBack(m, m.payload[..n] + tail);
    assert CrcOffset(f) == |body|;
    assert f[1..|body|] == body[1..];
    MavlinkCrcInRange(body[1..], Some(magic));
    CrcSplits(crc);
    assert f[offset..|body|] == m.payload[..n];
    PaddingRestores(m, n);
  }

  lemma CrcSplits(crc: nat)
    requires crc < 0x10000
    ensures U16(crc / 256, crc % 256) == crc
  {
  }

  lemma PaddingRestores(m: Outgoing, n: nat)
    requires n == WireLength(m)
    ensures Padded(m.payload[..n], |m.payload|) == m.payload
  {
  }

  lemma LengthReadsBack(m: Outgoing, more: bytes)
    requires |m.payload| < 256
    ensures FrameLength(HeaderBytes(m) + more)
            == Some(PayloadOffset(m.version) + WireLength(m) + CHECKSUM_LENGTH + if Signed(m) then SIGNATURE_LENGTH else 0)
  {
  }

  /** A version-1 header has one byte for the message id, and nothing stops a larger id from being written to it. */
  lemma V1DropsHighIdBits(m: Outgoing, more: bytes)
    requires |m.payload| < 256 && m.version.V1?
    ensures HeaderOf(HeaderBytes(m) + more).msgId == m.id <==> m.id < 256
  {
  }
}
