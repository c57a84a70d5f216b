/** The two framings spoken to an electronic speed controller, and the transaction pump that looks for a reply
    in whatever chunks the serial link delivers. */
module EscFrames {
  import opened Bytes
  import opened CrcRegisters
  import opened Crc

  datatype Result<+T> = Ok(value: T) | Err(error: FrameError)

  datatype FrameError = ValidationFailed | NoStart | TooShort | BadStart | LengthShort | ChecksumMismatch

  const FOUR_WAY_REQUEST_START: byte := 0x2f
  const FOUR_WAY_RESPONSE_START: byte := 0x2e

  // ---------------------------------------------------------------------------------------------------
  // 4-way interface
  // ---------------------------------------------------------------------------------------------------

  datatype FourWayResponse = FourWayResponse(command: byte, address: nat, params: bytes, ack: byte)

  /** Position of the first response marker at or after `from`. */
  function FourWayStart(b: bytes, from: nat := 0): (start: Option<nat>)
    requires from <= |b|
    ensures start.None? ==> forall i :: from <= i < |b| ==> b[i] != FOUR_WAY_RESPONSE_START
    ensures start.Some? ==> from <= start.value < |b| && b[start.value] == FOUR_WAY_RESPONSE_START
    ensures start.Some? ==> forall i :: from <= i < start.value ==> b[i] != FOUR_WAY_RESPONSE_START
    decreases |b| - from
  {
    if from == |b| then None
    else if b[from] == FOUR_WAY_RESPONSE_START then Some(from)
    else FourWayStart(b, from + 1)
  }

  method FindFourWayResponseStart(b: bytes) returns (start: Option<nat>)
    ensures start == FourWayStart(b)
  {
    for index := 0 to |b|
      invariant FourWayStart(b) == FourWayStart(b, index)
    {
      if b[index] == FOUR_WAY_RESPONSE_START {
        return Some(index);
      }
    }
    return None;
  }

  function ParamLength(lengthByte: byte): nat {
    if lengthByte == 0 then 256 else lengthByte
  }

  function FourWayFrameLength(b: bytes): Option<nat> {
    var start := FourWayStart(b);
    if start.None? || |b| < start.value + 5 then None
    else
      var length := start.value + 5 + ParamLength(b[start.value + 4]) + 1 + 2;
      if |b| >= length then Some(length) else None
  }

  function DecodeFourWay(b: bytes): Result<FourWayResponse> {
    var start := FourWayStart(b);
    if start.None? then Err(NoStart) else DecodeFourWayFrame(b[start.value..])
  }

  function DecodeFourWayFrame(frame: bytes): Result<FourWayResponse> {
    if |frame| < 8 then Err(TooShort)
    else if frame[0] != FOUR_WAY_RESPONSE_START then Err(BadStart)
    else
      var n := ParamLength(frame[4]);
      if |frame| < 5 + n + 1 + 2 then Err(LengthShort)
      else if Checksum(XMODEM, 0, frame[..5 + n + 1]) != U16(frame[6 + n], frame[7 + n]) then Err(ChecksumMismatch)
      else Ok(FourWayResponse(frame[1], U16(frame[2], frame[3]), frame[5..5 + n], frame[5 + n]))
  }

  /** Any frame closed by its own checksum, high byte first, has residue zero. */
  lemma Residue(data: bytes)
    ensures var crc := Checksum(XMODEM, 0, data);
            crc < 0x10000 && Checksum(XMODEM, 0, data + [crc / 256, crc % 256]) == 0
  {
    hide *;
    var crc := Checksum(XMODEM, 0, data);
    CodesAreProper();
    ChecksumInRange(XMODEM, 0, data);
    ChecksumConcat(XMODEM, 0, data, [crc / 256, crc % 256]);
    ResidueOfState(crc);
  }

  /** And only such a frame: residue zero means that the last two bytes are the checksum of the others. */
  lemma ResidueZeroExactly(data: bytes, h: byte, l: byte)
    ensures Checksum(XMODEM, 0, data + [h, l]) == 0 <==> U16(h, l) == Checksum(XMODEM, 0, data)
  {
    hide Checksum;
    var crc := Checksum(XMODEM, 0, data);
    Residue(data);
    var closed: bytes := [crc / 256, crc % 256];
    if Checksum(XMODEM, 0, data + [h, l]) == 0 {
      CodesAreProper();
      ChecksumConcat(XMODEM, 0, data, [h, l]);
      ChecksumConcat(XMODEM, 0, data, closed);
      PairDetermined(XMODEM, crc, [h, l], closed, []);
    }
  }

  lemma ResidueOfState(crc: nat)
    requires crc < 0x10000
    ensures Checksum(XMODEM, crc, [crc / 256, crc % 256]) == 0
  {
    hide Checksum, Xor, FeedAll, BitsOf, Steps;
    var h: byte, l: byte := crc / 256, crc % 256;
    ChecksumOfTwo(XMODEM, crc, h, l);
    FeedTwoBytes(XMODEM, crc, h, l);
    XorDisjoint(h, l);
    XorCommutes(256 * h, l);
    XorCancels(l, 256 * h);
    XorSelf(l);
    ZeroIsQuiet(XMODEM, 8);
  }

  /** The layout of a response: marker, command, address, length, parameters, acknowledgement, checksum. */
  function ResponseBody(r: FourWayResponse): bytes
    requires r.address < 0x10000
  {
    [FOUR_WAY_RESPONSE_START, r.command, r.address / 256, r.address % 256, |r.params| % 256] + r.params + [r.ack]
  }

  function EncodeResponse(r: FourWayResponse): bytes
    requires r.address < 0x10000
  {
    var body := ResponseBody(r);
    var crc := Checksum(XMODEM, 0, body) % 0x10000;
    body + [crc / 256, crc % 256]
  }

  lemma {:induction false} StartAfterJunk(junk: bytes, rest: bytes, from: nat)
    requires from <= |junk|
    requires forall i :: from <= i < |junk| ==> junk[i] != FOUR_WAY_RESPONSE_START
    requires rest != [] && rest[0] == FOUR_WAY_RESPONSE_START
    ensures FourWayStart(junk + rest, from) == Some(|junk|)
    decreases |junk| - from
  {
    if from < |junk| {
      StartAfterJunk(junk, rest, from + 1);
    }
  }

  /** Decoding recovers every field of a response behind any bytes that contain no marker, and the length
      probe cuts exactly behind it, whatever follows. */
  lemma FourWayRoundTrip(junk: bytes, r: FourWayResponse, rest: bytes)
    requires r.address < 0x10000 && 1 <= |r.params| <= 256
    requires FOUR_WAY_RESPONSE_START !in junk
    ensures var wire := junk + EncodeResponse(r);
            FourWayFrameLength(wire + rest) == Some(|wire|) && DecodeFourWay(wire) == Ok(r)
            && (wire + rest)[..|wire|] == wire
  {
    var frame := EncodeResponse(r);
    StartAfterJunk(junk, frame, 0);
    StartAfterJunk(junk, frame + rest, 0);
    assert junk + frame + rest == junk + (frame + rest);
    assert (junk + frame)[|junk|..] == frame;
    assert (junk + frame + rest)[|junk| + 4] == frame[4];
    hide Checksum;
    FrameDecodes(r);
  }

  lemma FrameDecodes(r: FourWayResponse)
    requires r.address < 0x10000 && 1 <= |r.params| <= 256
    ensures var frame := EncodeResponse(r);
            DecodeFourWayFrame(frame) == Ok(r) && |frame| == 8 + ParamLength(frame[4])
  {
    hide Checksum;
    var frame, n, body := EncodeResponse(r), |r.params|, ResponseBody(r);
    assert ParamLength(frame[4]) == n;
    assert frame[..5 + n + 1] == body;
    assert frame[5..5 + n] == r.params;
    CodesAreProper();
    ChecksumInRange(XMODEM, 0, body);
  }

  /** Once the probe answers, more bytes do not change the answer. */
  lemma FourWayProbeStable(b: bytes, x: bytes)
    requires FourWayFrameLength(b).Some?
    ensures FourWayFrameLength(b + x) == FourWayFrameLength(b)
  {
    StartExtends(b, x, 0);
  }

  lemma {:induction false} StartExtends(b: bytes, x: bytes, from: nat)
    requires from <= |b| && FourWayStart(b, from).Some?
    ensures FourWayStart(b + x, from) == FourWayStart(b, from)
    decreases |b| - from
  {
    if b[from] != FOUR_WAY_RESPONSE_START {
      StartExtends(b, x, from + 1);
    }
  }

  /** An accepted frame has residue zero. */
  lemma AcceptedHasZeroResidue(frame: bytes, n: nat)
    requires |frame| == 8 + n && n == ParamLength(frame[4])
    requires DecodeFourWay(frame).Ok? && FourWayStart(frame) == Some(0)
    ensures Checksum(XMODEM, 0, frame) == 0
  {
    hide Checksum;
    assert frame[0..] == frame;
    var body := frame[..6 + n];
    Residue(body);
    var crc := Checksum(XMODEM, 0, body);
    assert frame == body + [crc / 256, crc % 256];
  }

  /** Corruption confined to two adjacent bytes, anywhere but the marker and the length byte, is rejected. */
  lemma FourWayRejectsAdjacentErrors(frame: bytes, bad: bytes, k: nat)
    requires |frame| >= 8 && frame[0] == FOUR_WAY_RESPONSE_START && |frame| == 8 + ParamLength(frame[4])
    requires DecodeFourWay(frame).Ok?
    requires |bad| == |frame| && k + 2 <= |frame| && bad != frame
    requires forall i :: 0 <= i < |frame| && i != k && i != k + 1 ==> bad[i] == frame[i]
    requires bad[0] == frame[0] && bad[4] == frame[4]
    ensures DecodeFourWay(bad) == Err(ChecksumMismatch)
  {
    hide Checksum, Proper;
    var n := ParamLength(frame[4]);
    AcceptedHasZeroResidue(frame, n);
    CodesAreProper();
    AdjacentErrorsDetected(XMODEM, 0, frame, bad, k);
    if DecodeFourWay(bad).Ok? {
      AcceptedHasZeroResidue(bad, n);
    }
  }

  /** The layout of a request: as a response, but with its own marker and no acknowledgement. */
  function RequestBody(command: nat, address: nat, params: bytes): bytes {
    [FOUR_WAY_REQUEST_START, command % 256, address / 256 % 256, address % 256, |params| % 256] + params
  }

  function RequestFrame(command: nat, address: nat, params: bytes): bytes {
    var body := RequestBody(command, address, params);
    var crc := Checksum(XMODEM, 0, body) % 0x10000;
    body + [crc / 256, crc % 256]
  }

  /** The receiver of a request reads back what the caller passed, cut to the wire widths, and residue zero. */
  lemma RequestRecovered(command: nat, address: nat, params: bytes)
    requires 1 <= |params| <= 256
    ensures var f := RequestFrame(command, address, params);
            f[0] != FOUR_WAY_RESPONSE_START && f[1] == command % 256 && U16(f[2], f[3]) == address % 0x10000
            && ParamLength(f[4]) == |params| && f[5..5 + |params|] == params && Checksum(XMODEM, 0, f) == 0
  {
    hide Checksum;
    var f, body := RequestFrame(command, address, params), RequestBody(command, address, params);
    assert f[5..5 + |params|] == params;
    Residue(body);
  }

  /** Fill a fresh buffer with everything but the checksum. */
  method RequestBuffer(command: nat, address: nat, params: bytes) returns (frame: array<byte>)
    requires 1 <= |params| <= 256
    ensures fresh(frame) && frame.Length == 7 + |params|
    ensures frame[..5 + |params|] == RequestBody(command, address, params)
  {
    var paramLen := if |params| == 256 then 0 else |params|;
    frame := new byte[7 + |params|](_ => 0);
    frame[0], frame[1], frame[4] := FOUR_WAY_REQUEST_START, command % 256, paramLen;
    frame[2], frame[3] := address / 256 % 256, address % 256;
    forall i | 0 <= i < |params| {
      frame[5 + i] := params[i];
    }
  }

  lemma RequestFrameIs(command: nat, address: nat, params: bytes, crc: nat)
    requires crc == Checksum(XMODEM, 0, RequestBody(command, address, params)) < 0x10000
    ensures RequestFrame(command, address, params) == RequestBody(command, address, params) + [crc / 256, crc % 256]
  {
    hide Checksum, RequestBody;
  }

  /** Build a request; the length of the parameters is the only thing that can be wrong with it. */
  method EncodeFourWay(table: array<nat>, command: nat, address: nat, params: bytes) returns (r: Result<bytes>)
    requires IsTable(XMODEM, table[..])
    ensures r == if 1 <= |params| <= 256 then Ok(RequestFrame(command, address, params)) else Err(ValidationFailed)
  {
    hide Checksum, TableEntry, RequestBody, RequestFrame, IsTable;
    if |params| < 1 || |params| > 256 {
      return Err(ValidationFailed);
    }
    var n := 5 + |params|;
    var frame := RequestBuffer(command, address, params);
    var prefix := frame[..n];
    var crc := Crc16Xmodem(table, prefix, 0);
    RequestFrameIs(command, address, params, crc);
    frame[n], frame[n + 1] := crc / 256, crc % 256;
    assert frame[..] == prefix + [crc / 256, crc % 256];
    r := Ok(frame[..]);
  }

  // ---------------------------------------------------------------------------------------------------
  // MSP v1
  // ---------------------------------------------------------------------------------------------------

  datatype MspResponse = MspResponse(command: byte, payload: bytes, isError: bool)

  const DOLLAR: byte := 0x24
  const LETTER_M: byte := 0x4d
  const DIR_TO_FC: byte := 0x3c
  const DIR_FROM_FC: byte := 0x3e
  const DIR_ERROR: byte := 0x21

  /** Exclusive-or of a seed and every byte of `data`. */
  function XorFold(seed: nat, data: bytes): nat
    decreases |data|
  {
    if data == [] then seed else XorFold(Xor(seed, data[0]), data[1..])
  }

  function MspChecksum(command: nat, payload: bytes): (c: nat)
    ensures c < 256
  {
    XorFold(|payload| % 256, [command % 256] + payload) % 256
  }

  method ComputeMspChecksum(command: nat, payload: bytes) returns (crc: nat)
    ensures crc == MspChecksum(command, payload)
  {
    hide Xor;
    crc := |payload| % 256;
    crc := Xor(crc, command % 256);
    assert ([command % 256] + payload)[1..] == payload;
    ghost var start := crc;
    for i := 0 to |payload|
      invariant XorFold(start, payload) == XorFold(crc, payload[i..])
    {
      crc := Xor(crc, payload[i]);
    }
    crc := crc % 256;
  }

  predicate MspMarkerAt(b: bytes, i: nat) {
    i + 2 < |b| && b[i] == DOLLAR && b[i + 1] == LETTER_M && (b[i + 2] == DIR_FROM_FC || b[i + 2] == DIR_ERROR)
  }

  /** Position of the first response marker at or after `from`. */
  function MspStart(b: bytes, from: nat := 0): (start: Option<nat>)
    ensures start.Some? ==> from <= start.value && MspMarkerAt(b, start.value)
    ensures forall i :: from <= i < (if start.Some? then start.value else |b|) ==> !MspMarkerAt(b, i)
    decreases |b| - from
  {
    if from + 2 >= |b| then None
    else if MspMarkerAt(b, from) then Some(from)
    else MspStart(b, from + 1)
  }

  method FindMspResponseStart(b: bytes) returns (start: Option<nat>)
    ensures start == MspStart(b)
    ensures start.Some? ==> MspMarkerAt(b, start.value)
    ensures forall i :: 0 <= i < (if start.Some? then start.value else |b|) ==> !MspMarkerAt(b, i)
  {
    var index := 0;
    while index + 2 < |b|
      invariant MspStart(b) == MspStart(b, index)
    {
      if b[index] == DOLLAR && b[index + 1] == LETTER_M {
        var direction := b[index + 2];
        if direction == DIR_FROM_FC || direction == DIR_ERROR {
          return Some(index);
        }
      }
      index := index + 1;
    }
    return None;
  }

  function MspFrameLength(b: bytes): Option<nat> {
    var start := MspStart(b);
    if start.None? || |b| < start.value + 4 then None
    else
      var length := start.value + 6 + b[start.value + 3] as nat;
      if |b| >= length then Some(length) else None
  }

  function DecodeMsp(b: bytes): Result<MspResponse> {
    var start := MspStart(b);
    if start.None? then Err(NoStart)
    else
      var frame := b[start.value..];
      if |frame| < 6 then Err(TooShort)
      else
        var size: nat := frame[3];
        if |frame| < 6 + size then Err(LengthShort)
        else
          var payload := frame[5..5 + size];
          if MspChecksum(frame[4], payload) != frame[5 + size] then Err(ChecksumMismatch)
          else Ok(MspResponse(frame[4], payload, frame[2] == DIR_ERROR))
  }

  function MspFrame(direction: byte, command: byte, payload: bytes): bytes
    requires |payload| < 256
  {
    [DOLLAR, LETTER_M, direction, |payload|, command] + payload + [MspChecksum(command, payload)]
  }

  method EncodeMspRequest(command: nat, payload: bytes) returns (r: Result<bytes>)
    ensures r == if |payload| <= 0xff then Ok(MspFrame(DIR_TO_FC, command % 256, payload)) else Err(ValidationFailed)
  {
    hide XorFold;
    if |payload| > 0xff {
      return Err(ValidationFailed);
    }
    var frame := MspBuffer(command, payload);
    var crc := ComputeMspChecksum(command, payload);
    ghost var prefix := frame[..5 + |payload|];
    frame[5 + |payload|] := crc;
    assert frame[..] == prefix + [crc];
    r := Ok(frame[..]);
  }

  /** Fill a fresh buffer with everything but the checksum. */
  method MspBuffer(command: nat, payload: bytes) returns (frame: array<byte>)
    requires |payload| <= 0xff
    ensures fresh(frame) && frame.Length == 6 + |payload|
    ensures frame[..5 + |payload|] == [DOLLAR, LETTER_M, DIR_TO_FC, |payload|, command % 256] + payload
  {
    frame := new byte[6 + |payload|](_ => 0);
    frame[0], frame[1], frame[2] := DOLLAR, LETTER_M, DIR_TO_FC;
    frame[3], frame[4] := |payload|, command % 256;
    forall i | 0 <= i < |payload| {
      frame[5 + i] := payload[i];
    }
  }

  lemma {:induction false} MspStartAfterJunk(junk: bytes, rest: bytes, from: nat)
    requires from <= |junk|
    requires forall i :: from <= i ==> !MspMarkerAt(junk, i)
    requires MspMarkerAt(rest, 0)
    ensures MspStart(junk + rest, from) == Some(|junk|)
    decreases |junk| - from
  {
    var b := junk + rest;
    if from < |junk| {
      assert !MspMarkerAt(junk, from);
      assert !MspMarkerAt(b, from);
      MspStartAfterJunk(junk, rest, from + 1);
    } else {
      assert MspMarkerAt(b, from);
    }
  }

  /** A response is recovered behind any bytes that contain no complete response marker, even when their tail
      looks like the beginning of one. */
  lemma MspRoundTrip(junk: bytes, r: MspResponse, rest: bytes)
    requires |r.payload| < 256
    requires forall i :: 0 <= i ==> !MspMarkerAt(junk, i)
    ensures var wire := junk + MspFrame(if r.isError then DIR_ERROR else DIR_FROM_FC, r.command, r.payload);
            MspFrameLength(wire + rest) == Some(|wire|) && DecodeMsp(wire) == Ok(r)
  {
    hide MspChecksum;
    var frame := MspFrame(if r.isError then DIR_ERROR else DIR_FROM_FC, r.command, r.payload);
    assert MspMarkerAt(frame, 0) && MspMarkerAt(frame + rest, 0);
    MspStartAfterJunk(junk, frame, 0);
    MspStartAfterJunk(junk, frame + rest, 0);
    assert junk + frame + rest == junk + (frame + rest);
    assert (junk + frame)[|junk|..] == frame;
    assert (junk + frame + rest)[|junk| + 3] == frame[3];
    assert frame[5..5 + |r.payload|] == r.payload;
  }

  lemma {:induction false} MspStartExtends(b: bytes, x: bytes, from: nat)
    requires MspStart(b, from).Some?
    ensures MspStart(b + x, from) == MspStart(b, from)
    decreases |b| - from
  {
    assert MspMarkerAt(b, from) == MspMarkerAt(b + x, from);
    if !MspMarkerAt(b, from) {
      MspStartExtends(b, x, from + 1);
    }
  }

  lemma MspProbeStable(b: bytes, x: bytes)
    requires MspFrameLength(b).Some?
    ensures MspFrameLength(b + x) == MspFrameLength(b)
  {
    MspStartExtends(b, x, 0);
  }

  // ---------------------------------------------------------------------------------------------------
  // The transaction pump
  // ---------------------------------------------------------------------------------------------------

  datatype Outcome = Waiting | Reply(frame: bytes) | EchoMismatch

  /** A framing probe whose answer survives every extension of the buffer and lies inside it. */
  ghost predicate Stable(probe: bytes -> Option<nat>) {
    && (forall b, x :: probe(b).Some? ==> probe(b + x) == probe(b))
    && (forall b :: probe(b).Some? ==> probe(b).value <= |b|)
  }

  lemma ProbesAreStable()
    ensures Stable(FourWayFrameLength) && Stable(MspFrameLength)
  {
    forall b: bytes, x: bytes | FourWayFrameLength(b).Some? ensures FourWayFrameLength(b + x) == FourWayFrameLength(b) {
      FourWayProbeStable(b, x);
    }
    forall b: bytes, x: bytes | MspFrameLength(b).Some? ensures MspFrameLength(b + x) == MspFrameLength(b) {
      MspProbeStable(b, x);
    }
  }

  /** What the bytes received so far amount to. On a single-wire link they begin with our own echo. */
  function Judge(direct: bool, request: bytes, probe: bytes -> Option<nat>, received: bytes): Outcome {
    if direct && |received| < |request| then Waiting
    else if direct && received[..|request|] != request then EchoMismatch
    else
      var body := if direct then received[|request|..] else received;
      var length := probe(body);
      if length.None? || |body| < length.value then Waiting else Reply(body[..length.value])
  }

  lemma JudgeExtends(direct: bool, request: bytes, probe: bytes -> Option<nat>, b: bytes, x: bytes)
    requires Stable(probe)
    requires !Judge(direct, request, probe, b).Waiting?
    ensures Judge(direct, request, probe, b + x) == Judge(direct, request, probe, b)
  {
    if direct {
      assert (b + x)[..|request|] == b[..|request|];
      if b[..|request|] == request {
        assert (b + x)[|request|..] == b[|request|..] + x;
      }
    }
  }

  /** One request in flight on the borrowed link. */
  class Transaction {
    const direct: bool
    const request: bytes
    const probe: bytes -> Option<nat>
    var rxChunks: seq<bytes>
    var outcome: Outcome

    ghost predicate Valid()
      reads this
    {
      Stable(probe) && outcome == Judge(direct, request, probe, Joined(rxChunks))
    }

    constructor (direct: bool, request: bytes, probe: bytes -> Option<nat>)
      requires Stable(probe)
      ensures Valid() && rxChunks == []
      ensures this.direct == direct && this.request == request && this.probe == probe
    {
      this.direct, this.request, this.probe := direct, request, probe;
      rxChunks := [];
      new;
      Pump();
    }

    /** Re-evaluate the framing over everything buffered. */
    method Pump()
      requires Stable(probe)
      modifies this`outcome
      ensures Valid()
    {
      var buffered := ConcatChunks(rxChunks);
      var bodyStart := 0;
      if direct {
        if |buffered| < |request| {
          outcome := Waiting;
          return;
        }
        for index := 0 to |request|
          invariant buffered[..index] == request[..index]
        {
          if buffered[index] != request[index] {
            assert buffered[..|request|][index] != request[index];
            outcome := EchoMismatch;
            return;
          }
        }
        assert request[..|request|] == request;
        bodyStart := |request|;
      }
      var body := buffered[bodyStart..];
      assert bodyStart == 0 ==> body == buffered;
      var length := probe(body);
      if length.None? || |body| < length.value {
        outcome := Waiting;
      } else {
        outcome := Reply(body[..length.value]);
      }
    }

    /** A chunk arrives; a settled transaction no longer listens. */
    method OnData(chunk: bytes)
      requires Valid()
      modifies this
      ensures Valid() && rxChunks == old(rxChunks) + [chunk]
      ensures !old(outcome).Waiting? ==> outcome == old(outcome)
    {
      JoinedSnoc(rxChunks, chunk);
      if !outcome.Waiting? {
        JudgeExtends(direct, request, probe, Joined(rxChunks), chunk);
      }
      rxChunks := rxChunks + [chunk];
      if outcome.Waiting? {
        Pump();
      }
    }
  }

  method ConcatChunks(chunks: seq<bytes>) returns (all: bytes)
    ensures all == Joined(chunks)
  {
    all := [];
    for i := 0 to |chunks|
      invariant all == Joined(chunks[..i])
    {
      assert chunks[..i + 1] == chunks[..i] + [chunks[i]];
      JoinedSnoc(chunks[..i], chunks[i]);
      all := all + chunks[i];
    }
    assert chunks[..|chunks|] == chunks;
  }

  /** Outcome of feeding chunks one at a time to a transaction that stops listening once settled. */
  function Deliver(direct: bool, request: bytes, probe: bytes -> Option<nat>, chunks: seq<bytes>): Outcome {
    if chunks == [] then Judge(direct, request, probe, [])
    else
      var before := Deliver(direct, request, probe, chunks[..|chunks| - 1]);
      if before.Waiting? then Judge(direct, request, probe, Joined(chunks)) else before
  }

  lemma {:induction false} DeliverJudgesAllBytes(direct: bool, request: bytes, probe: bytes -> Option<nat>, chunks: seq<bytes>)
    requires Stable(probe)
    ensures Deliver(direct, request, probe, chunks) == Judge(direct, request, probe, Joined(chunks))
  {
    if chunks != [] {
      var front, last := chunks[..|chunks| - 1], chunks[|chunks| - 1];
      DeliverJudgesAllBytes(direct, request, probe, front);
      assert chunks == front + [last];
      JoinedSnoc(front, last);
      if !Judge(direct, request, probe, Joined(front)).Waiting? {
        JudgeExtends(direct, request, probe, Joined(front), last);
      }
    }
  }

  /** The same reply, or the same failure, comes out however the link cuts the stream into chunks. */
  lemma ChunkingIrrelevant(direct: bool, request: bytes, probe: bytes -> Option<nat>, chunks: seq<bytes>, chunks': seq<bytes>)
    requires Stable(probe)
    requires Joined(chunks) == Joined(chunks')
    ensures Deliver(direct, request, probe, chunks) == Deliver(direct, request, probe, chunks')
  {
    DeliverJudgesAllBytes(direct, request, probe, chunks);
    DeliverJudgesAllBytes(direct, request, probe, chunks');
  }

  /** End to end: behind an exact echo, line noise without a marker and any chunking, the reply decodes to the
      response that was sent. */
  lemma TransactionRecovers(direct: bool, request: bytes, junk: bytes, r: FourWayResponse, rest: bytes, chunks: seq<bytes>)
    requires r.address < 0x10000 && 1 <= |r.params| <= 256
    requires FOUR_WAY_RESPONSE_START !in junk
    requires Joined(chunks) == (if direct then request else []) + (junk + EncodeResponse(r) + rest)
    ensures Deliver(direct, request, FourWayFrameLength, chunks) == Reply(junk + EncodeResponse(r))
    ensures DecodeFourWay(junk + EncodeResponse(r)) == Ok(r)
  {
    hide Checksum, DecodeFourWay, FourWayFrameLength, EncodeResponse;
    ProbesAreStable();
    DeliverJudgesAllBytes(direct, request, FourWayFrameLength, chunks);
    FourWayRoundTrip(junk, r, rest);
    var echo := if direct then request else [];
    var body := junk + EncodeResponse(r) + rest;
    assert (echo + body)[..|echo|] == echo && (echo + body)[|echo|..] == body;
    assert echo == [] ==> echo + body == body;
  }
}
