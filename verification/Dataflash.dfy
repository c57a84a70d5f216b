/** DataFlash logs: frames that start with a marker, some of which describe the layout of the others. */
module DataflashFormats {
  import opened Bytes

  const FRAME_HEAD_0: byte := 0xa3
  const FRAME_HEAD_1: byte := 0x95
  const FMT_MSG_ID: byte := 0x80
  const FMT_MSG_LENGTH := 89

  /** Bytes taken by one field of the given code. */
  function FieldSize(code: char): Option<nat> {
    if code == 'a' || code == 'Z' then Some(64)
    else if code == 'b' || code == 'B' || code == 'M' then Some(1)
    else if code == 'g' || code == 'h' || code == 'H' || code == 'c' || code == 'C' then Some(2)
    else if code == 'i' || code == 'I' || code == 'f' || code == 'e' || code == 'E' || code == 'L' || code == 'n' then Some(4)
    else if code == 'd' || code == 'q' || code == 'Q' then Some(8)
    else if code == 'N' then Some(16)
    else None
  }

  /** Characters up to the first NUL or the end of the field. */
  function ReadAscii(data: bytes): string {
    if data == [] || data[0] == 0 then "" else [data[0] as char] + ReadAscii(data[1..])
  }

  /** Parts between commas, empty ones left out. */
  function Columns(s: string, part: string): seq<string> {
    if s == "" then (if part == "" then [] else [part])
    else if s[0] == ',' then (if part == "" then [] else [part]) + Columns(s[1..], "")
    else Columns(s[1..], part + [s[0]])
  }

  datatype Format = Format(id: byte, length: nat, name: string, codes: string, columns: seq<string>, offsets: seq<nat>,
                           revision: nat, decodable: bool)

  /** Number of leading codes that are known. */
  function KnownCodes(codes: string): (n: nat)
    ensures n <= |codes|
  {
    if codes == "" || FieldSize(codes[0]).None? then 0 else 1 + KnownCodes(codes[1..])
  }

  function SizeOf(codes: string): nat
    requires KnownCodes(codes) == |codes|
  {
    if codes == "" then 0 else FieldSize(codes[0]).value + SizeOf(codes[1..])
  }

  lemma {:induction false} KnownPrefix(codes: string, k: nat)
    requires k <= KnownCodes(codes)
    ensures KnownCodes(codes[..k]) == k
    ensures k < |codes| ==> (k < KnownCodes(codes) <==> FieldSize(codes[k]).Some?)
  {
    if k > 0 {
      KnownPrefix(codes[1..], k - 1);
      assert codes[..k][1..] == codes[1..][..k - 1];
    }
  }

  /** Offset of field `k`: the size of what stands before it. */
  function OffsetOf(codes: string, k: nat): nat
    requires k <= KnownCodes(codes)
  {
    KnownPrefix(codes, k);
    SizeOf(codes[..k])
  }

  lemma {:induction false} SizeSnoc(codes: string, c: char)
    requires KnownCodes(codes) == |codes| && FieldSize(c).Some?
    ensures KnownCodes(codes + [c]) == |codes| + 1
    ensures SizeOf(codes + [c]) == SizeOf(codes) + FieldSize(c).value
  {
    if codes == "" {
      assert [c][1..] == "";
    } else {
      assert (codes + [c])[1..] == codes[1..] + [c];
      SizeSnoc(codes[1..], c);
    }
  }

  lemma OffsetNext(codes: string, k: nat)
    requires k < KnownCodes(codes)
    ensures FieldSize(codes[k]).Some? && OffsetOf(codes, k + 1) == OffsetOf(codes, k) + FieldSize(codes[k]).value
  {
    KnownPrefix(codes, k);
    SizeSnoc(codes[..k], codes[k]);
    assert codes[..k + 1] == codes[..k] + [codes[k]];
  }

  lemma {:induction false} OffsetsGrow(codes: string, j: nat, k: nat)
    requires j <= k <= KnownCodes(codes)
    ensures OffsetOf(codes, j) <= OffsetOf(codes, k)
  {
    if j < k {
      OffsetNext(codes, k - 1);
      OffsetsGrow(codes, j, k - 1);
    }
  }

  function Offsets(codes: string): seq<nat> {
    seq(KnownCodes(codes), k requires 0 <= k < KnownCodes(codes) => OffsetOf(codes, k))
  }

  /** The layout a format frame describes. It can be decoded only if every code is known, there is one column per code,
      and the fields fit into the frame. */
  function FormatOf(frame: bytes, previousRevision: nat): Option<Format>
    requires |frame| == FMT_MSG_LENGTH
  {
    if frame[4] < 3 then None
    else
      var codes, columns := ReadAscii(frame[9..25]), Columns(ReadAscii(frame[25..89]), "");
      var known := KnownCodes(codes);
      Some(Format(frame[3], frame[4], ReadAscii(frame[5..9]), codes, columns, Offsets(codes), previousRevision + 1,
                  |codes| > 0 && |codes| == |columns| && known == |codes|
                  && OffsetOf(codes, known) <= frame[4] as int - 3))
  }

  /** Walk over the codes, adding up sizes, and stop at the first unknown one. */
  method ParseFormat(frame: bytes, previousRevision: nat) returns (format: Option<Format>)
    requires |frame| == FMT_MSG_LENGTH
    ensures format == FormatOf(frame, previousRevision)
  {
    hide ReadAscii, Columns, SizeOf, FieldSize;
    var length: nat := frame[4];
    if length < 3 {
      return None;
    }
    var codes, columns := ReadAscii(frame[9..25]), Columns(ReadAscii(frame[25..89]), "");
    var offsets: seq<nat> := [];
    var payloadOffset: nat := 0;
    var decodable := |codes| > 0 && |codes| == |columns|;
    var index := 0;
    assert OffsetOf(codes, 0) == 0 by { NoOffset(codes); }
    while index < |codes|
      invariant index <= KnownCodes(codes) && |offsets| == index && payloadOffset == OffsetOf(codes, index)
      invariant forall k :: 0 <= k < index ==> offsets[k] == OffsetOf(codes, k)
      invariant decodable == (|codes| > 0 && |codes| == |columns|)
    {
      KnownPrefix(codes, index);
      var size := FieldSize(codes[index]);
      if size.None? {
        decodable := false;
        break;
      }
      offsets := offsets + [payloadOffset];
      OffsetNext(codes, index);
      payloadOffset := payloadOffset + size.value;
      index := index + 1;
    }
    if payloadOffset > length - 3 {
      decodable := false;
    }
    assert index == KnownCodes(codes);
    assert offsets == Offsets(codes);
    return Some(Format(frame[3], length, ReadAscii(frame[5..9]), codes, columns, offsets, previousRevision + 1, decodable));
  }

  lemma NoOffset(codes: string)
    ensures OffsetOf(codes, 0) == 0
  {
    assert codes[..0] == "";
  }

  /** Consistent with the frame that announced it. */
  ghost predicate Sound(f: Format) {
    && f.length >= 3 && f.offsets == Offsets(f.codes)
    && (f.decodable ==> |f.codes| > 0 && |f.codes| == |f.columns| && KnownCodes(f.codes) == |f.codes|
                        && OffsetOf(f.codes, |f.codes|) <= f.length - 3)
  }

  lemma FormatIsSound(frame: bytes, previousRevision: nat)
    requires |frame| == FMT_MSG_LENGTH && FormatOf(frame, previousRevision).Some?
    ensures Sound(FormatOf(frame, previousRevision).value)
  {
  }

  /** Every field of a decodable format lies inside the payload. */
  lemma FieldInside(f: Format, k: nat)
    requires Sound(f) && f.decodable && k < |f.codes|
    ensures FieldSize(f.codes[k]).Some? && f.offsets[k] + FieldSize(f.codes[k]).value <= f.length - 3
  {
    hide SizeOf, FieldSize;
    OffsetNext(f.codes, k);
    OffsetsGrow(f.codes, k + 1, |f.codes|);
  }
}

/** What one position of a log holds, what becomes of it, and the whole decode as a function of the bytes. */
module DataflashRules {
  import opened Bytes
  import opened DataflashFormats

  const MAX_SAFE_INTEGER := 9_007_199_254_740_991

  /** Integers are exact, scaled ones keep their divisor; everything else stays as bytes. */
  datatype Value = Int(v: int) | Big(v: int) | Scaled(v: int, divisor: nat) | Opaque(code: char, data: bytes) | RawPayload(data: bytes)

  /** What this model does not compute: text, decimal digits, floating-point or textual timestamps in microseconds, and the
      thousandfold of a fraction or of a number whose thousandfold no longer fits a double exactly. */
  datatype Outside = Outside(text: (char, bytes) -> Option<string>, decimal: int -> string, micros: (char, bytes) -> Option<nat>,
                             millisInMicros: (char, bytes) -> Option<nat>, thousandfold: (nat, nat) -> nat)

  /** Two's complement of a value below 2^bits. */
  function Signed(v: nat, bits: nat): int {
    if bits > 0 && v >= PowerOfTwo(bits - 1) then v - PowerOfTwo(bits) else v
  }

  function ReadField(code: char, data: bytes): Value {
    if code == 'b' then Int(Signed(LittleEndian(data), 8))
    else if code == 'B' || code == 'M' then Int(LittleEndian(data))
    else if code == 'h' then Int(Signed(LittleEndian(data), 16))
    else if code == 'H' then Int(LittleEndian(data))
    else if code == 'i' then Int(Signed(LittleEndian(data), 32))
    else if code == 'I' then Int(LittleEndian(data))
    else if code == 'q' then Big(Signed(LittleEndian(data), 64))
    else if code == 'Q' then Big(LittleEndian(data))
    else if code == 'c' then Scaled(Signed(LittleEndian(data), 16), 100)
    else if code == 'C' then Scaled(LittleEndian(data), 100)
    else if code == 'e' then Scaled(Signed(LittleEndian(data), 32), 100)
    else if code == 'E' then Scaled(LittleEndian(data), 100)
    else if code == 'L' then Scaled(Signed(LittleEndian(data), 32), 10000000)
    else Opaque(code, data)
  }

  /** A negative number and its two's complement have the same low bytes. */
  lemma {:induction false} BytesWrap(v: int, width: nat)
    ensures LowBytes(v + PowerOfTwo(8 * width), width) == LowBytes(v, width)
    decreases width
  {
    if width > 0 {
      var p := PowerOfTwo(8 * (width - 1));
      PowerOfEight(width);
      assert (v + 256 * p) / 256 == v / 256 + p && (v + 256 * p) % 256 == v % 256;
      BytesWrap(v / 256, width - 1);
    }
  }

  predicate SignedCode(code: char) {
    code in "bhiqceL"
  }

  predicate UnsignedCode(code: char) {
    code in "BMHIQCE"
  }

  /** The numbers a code can hold. */
  predicate InRange(code: char, v: int)
    requires FieldSize(code).Some? && FieldSize(code).value > 0
  {
    var bits := 8 * FieldSize(code).value;
    var half: int := PowerOfTwo(bits - 1);
    if SignedCode(code) then -half <= v < half else 0 <= v < PowerOfTwo(bits)
  }

  lemma SignedReadsBack(v: int, width: nat)
    requires width > 0 && var half: int := PowerOfTwo(8 * width - 1); -half <= v < half
    ensures Signed(LittleEndian(LowBytes(v, width)), 8 * width) == v
  {
    hide LittleEndian, LowBytes;
    var half := PowerOfTwo(8 * width - 1);
    assert PowerOfTwo(8 * width) == 2 * half;
    if v >= 0 {
      LowBytesReadBack(v, width);
    } else {
      BytesWrap(v, width);
      LowBytesReadBack(v + 2 * half, width);
    }
  }

  /** Every integer code reads back every number of its width and sign; the scaled ones with their divisor. */
  lemma IntegersReadBack(code: char, v: int)
    requires (SignedCode(code) || UnsignedCode(code)) && FieldSize(code).Some? && FieldSize(code).value > 0 && InRange(code, v)
    ensures ReadField(code, LowBytes(v, FieldSize(code).value))
            == if code in "qQ" then Big(v) else if code in "cCeE" then Scaled(v, 100)
               else if code == 'L' then Scaled(v, 10_000_000) else Int(v)
  {
    hide LittleEndian, LowBytes, PowerOfTwo, Signed;
    var width := FieldSize(code).value;
    if SignedCode(code) {
      SignedReadsBack(v, width);
    } else {
      LowBytesReadBack(v, width);
    }
  }

  type Fields = map<string, Value>

  /** The first `n` fields; of columns with the same name the last one counts. */
  function FieldsOf(f: Format, payload: bytes, n: nat): Fields
    requires Sound(f) && f.decodable && |payload| == f.length - 3 && n <= |f.codes|
  {
    if n == 0 then map[]
    else
      FieldInside(f, n - 1);
      var at := f.offsets[n - 1];
      FieldsOf(f, payload, n - 1)[f.columns[n - 1] := ReadField(f.codes[n - 1], payload[at..at + FieldSize(f.codes[n - 1]).value])]
  }

  function DataOf(f: Format, frame: bytes): Fields
    requires Sound(f) && |frame| == f.length
  {
    if f.decodable then FieldsOf(f, frame[3..], |f.codes|) else map["$rawPayload" := RawPayload(frame[3..])]
  }

  function Trunc(v: nat, divisor: nat): nat {
    if divisor == 0 then v else v / divisor
  }

  /** `TimeUS` if it is a usable number, else `TimeMS` in thousands, else nothing. */
  function TimeOf(env: Outside, data: Fields): Option<nat> {
    var us := if "TimeUS" in data then MicrosOf(env, data["TimeUS"]) else None;
    if us.Some? then us else if "TimeMS" in data then MillisOf(env, data["TimeMS"]) else None
  }

  function MicrosOf(env: Outside, v: Value): Option<nat> {
    match v
    case Int(n) => if n >= 0 then Some(n) else None
    case Big(n) => if n >= 0 then Some(n) else None
    case Scaled(n, d) => if n >= 0 then Some(Trunc(n, d)) else None
    case Opaque(code, data) => env.micros(code, data)
    case RawPayload(_) => None
  }

  function MillisOf(env: Outside, v: Value): Option<nat> {
    match v
    case Int(n) => if n >= 0 then Some(n * 1000) else None
    case Big(n) =>
      if n < 0 || n > MAX_SAFE_INTEGER then None
      else Some(if n * 1000 <= MAX_SAFE_INTEGER then n * 1000 else env.thousandfold(n, 1))
    case Scaled(n, d) => if n >= 0 then Some(env.thousandfold(n, d)) else None
    case Opaque(code, data) => env.millisInMicros(code, data)
    case RawPayload(_) => None
  }

  datatype EventKind = BootBoundary | Msg | Ev | Err

  /** Everything that carries a sequence number. */
  datatype Emission =
    | Record(seqNo: nat, bootId: nat, time: Option<nat>, elapsed: Option<int>, id: byte, revision: nat, frame: bytes, data: Fields)
    | Event(seqNo: nat, bootId: nat, time: Option<nat>, elapsed: Option<int>, kind: EventKind, message: Option<string>, data: Fields)
    | Parameter(seqNo: nat, bootId: nat, time: Option<nat>, name: string, value: Option<Value>, initial: bool)

  datatype Counts = Counts(records: nat, events: nat, parameters: nat, resyncBytes: nat, formatFrames: nat, recordBytes: nat)

  /** `stamps` is the history of usable timestamps; no decision reads it. */
  datatype State = State(formats: map<byte, Format>, seqNo: nat, counts: Counts, bootId: nat, bootStart: Option<nat>,
                         lastTime: Option<nat>, seen: set<(nat, string)>, out: seq<Emission>, stamps: seq<nat>)

  const EMPTY := State(map[], 0, Counts(0, 0, 0, 0, 0, 0), 0, None, None, {}, [], [])

  datatype Found = End | Truncated | Junk | NewFormat(f: Format) | Frame(f: Format, frame: bytes)

  function Least(a: nat, b: nat): nat {
    if a < b then a else b
  }

  /** What stands at `pos`. */
  function Look(source: bytes, pos: nat, formats: map<byte, Format>): (r: Found)
    ensures r.Frame? ==> |r.frame| == r.f.length >= 3 && pos + r.f.length <= |source|
    ensures r.NewFormat? ==> pos + FMT_MSG_LENGTH <= |source|
    ensures r.Junk? ==> pos + 3 <= |source|
  {
    if pos + 3 > |source| then End
    else if source[pos] != FRAME_HEAD_0 || source[pos + 1] != FRAME_HEAD_1 then Junk
    else if source[pos + 2] == FMT_MSG_ID then
      if pos + FMT_MSG_LENGTH > |source| then Truncated
      else
        var frame := source[pos..pos + FMT_MSG_LENGTH];
        var f := FormatOf(frame, if frame[3] in formats then formats[frame[3]].revision else 0);
        if f.None? then Junk else NewFormat(f.value)
    else if source[pos + 2] !in formats || formats[source[pos + 2]].length < 3 then Junk
    else
      var f := formats[source[pos + 2]];
      if pos + f.length > |source| then Truncated else Frame(f, source[pos..pos + f.length])
  }

  function Consumed(r: Found): nat {
    match r
    case NewFormat(_) => FMT_MSG_LENGTH
    case Frame(_, frame) => |frame|
    case _ => 1
  }

  function Emit(st: State, e: Emission): State {
    st.(out := st.out + [e], seqNo := st.seqNo + 1)
  }

  /** A usable timestamp: a step back starts a new boot segment. */
  function Stamp(st: State, time: nat): State {
    var back := st.lastTime.Some? && time < st.lastTime.value;
    var s1 := if !back then st
              else Emit(st.(bootId := st.bootId + 1, bootStart := Some(time), counts := st.counts.(events := st.counts.events + 1)),
                        Event(st.seqNo, st.bootId + 1, Some(time), Some(0), BootBoundary, None, map[]));
    s1.(bootStart := if s1.bootStart.None? then Some(time) else s1.bootStart, lastTime := Some(time), stamps := st.stamps + [time])
  }

  function ElapsedOf(st: State, time: Option<nat>): Option<int> {
    if time.Some? && st.bootStart.Some? then Some(time.value - st.bootStart.value) else None
  }

  function TextOf(env: Outside, data: Fields, column: string): Option<string> {
    if column !in data then None
    else match data[column]
      case Big(v) => Some(env.decimal(v))
      case Opaque(code, d) => env.text(code, d)
      case _ => None
  }

  function ValueIn(data: Fields, column: string): Option<Value> {
    if column in data then Some(data[column]) else None
  }

  /** Only messages carry their text. */
  function MessageOf(env: Outside, f: Format, data: Fields): Option<string> {
    if f.name == "MSG" then TextOf(env, data, "Message") else None
  }

  function EventKindOf(name: string): Option<EventKind> {
    if name == "MSG" then Some(Msg) else if name == "EV" then Some(Ev) else if name == "ERR" then Some(Err) else None
  }

  function AddStamp(env: Outside, st: State, data: Fields): State {
    var stamp := TimeOf(env, data);
    if stamp.Some? then Stamp(st, stamp.value) else st
  }

  function AddRecord(st: State, f: Format, frame: bytes, data: Fields): State {
    Emit(st.(counts := st.counts.(records := st.counts.records + 1, recordBytes := st.counts.recordBytes + |frame|)),
         Record(st.seqNo, st.bootId, st.lastTime, ElapsedOf(st, st.lastTime), f.id, f.revision, frame, data))
  }

  function AddParameter(env: Outside, st: State, f: Format, data: Fields): State {
    var name := TextOf(env, data, "Name");
    if f.name != "PARM" || name.None? then st
    else
      Emit(st.(counts := st.counts.(parameters := st.counts.parameters + 1), seen := st.seen + {(st.bootId, name.value)}),
           Parameter(st.seqNo, st.bootId, st.lastTime, name.value, ValueIn(data, "Value"), (st.bootId, name.value) !in st.seen))
  }

  function AddEvent(env: Outside, st: State, f: Format, data: Fields): State {
    var kind := EventKindOf(f.name);
    if kind.None? then st
    else
      Emit(st.(counts := st.counts.(events := st.counts.events + 1)),
           Event(st.seqNo, st.bootId, st.lastTime, ElapsedOf(st, st.lastTime), kind.value, MessageOf(env, f, data), data))
  }

  /** One record frame: its record, then the parameter or event it also stands for. */
  function TakeRecord(env: Outside, st: State, f: Format, frame: bytes): State
    requires Sound(f) && |frame| == f.length
  {
    var data := DataOf(f, frame);
    AddEvent(env, AddParameter(env, AddRecord(AddStamp(env, st, data), f, frame, data), f, data), f, data)
  }

  function Act(env: Outside, st: State, r: Found): State
    requires r.Frame? ==> Sound(r.f) && |r.frame| == r.f.length
  {
    match r
    case Junk => st.(counts := st.counts.(resyncBytes := st.counts.resyncBytes + 1))
    case NewFormat(f) => st.(formats := st.formats[f.id := f], counts := st.counts.(formatFrames := st.counts.formatFrames + 1))
    case Frame(f, frame) => TakeRecord(env, st, f, frame)
    case _ => st
  }

  ghost predicate AllSound(formats: map<byte, Format>) {
    forall id :: id in formats ==> Sound(formats[id]) && formats[id].id == id
  }

  lemma LookIsSound(source: bytes, pos: nat, formats: map<byte, Format>)
    requires AllSound(formats)
    ensures var r := Look(source, pos, formats); (r.NewFormat? || r.Frame?) ==> Sound(r.f)
  {
    hide FormatOf, Sound;
    if pos + FMT_MSG_LENGTH <= |source| {
      var frame := source[pos..pos + FMT_MSG_LENGTH];
      var revision := if frame[3] in formats then formats[frame[3]].revision else 0;
      if FormatOf(frame, revision).Some? {
        FormatIsSound(frame, revision);
      }
    }
  }

  /** The decode from `pos` on. */
  function Decode(env: Outside, source: bytes, pos: nat, st: State): (State, nat)
    requires AllSound(st.formats)
    decreases |source| - pos
  {
    var r := Look(source, pos, st.formats);
    if r.End? || r.Truncated? then (st, pos)
    else
      LookIsSound(source, pos, st.formats);
      ActIsSound(env, st, r);
      Decode(env, source, pos + Consumed(r), Act(env, st, r))
  }

  lemma ActIsSound(env: Outside, st: State, r: Found)
    requires AllSound(st.formats) && ((r.NewFormat? || r.Frame?) ==> Sound(r.f)) && (r.Frame? ==> |r.frame| == r.f.length)
    ensures AllSound(Act(env, st, r).formats)
  {
    hide Sound, DataOf, TimeOf;
  }

  // ---------------------------------------------------------------------------------------------------
  // Accounting and order
  // ---------------------------------------------------------------------------------------------------

  /** Number of strict steps back in a history of timestamps. */
  function Drops(stamps: seq<nat>): nat {
    if |stamps| < 2 then 0
    else Drops(stamps[..|stamps| - 1]) + if stamps[|stamps| - 1] < stamps[|stamps| - 2] then 1 else 0
  }

  ghost predicate Numbered(out: seq<Emission>) {
    forall i :: 0 <= i < |out| ==> out[i].seqNo == i
  }

  predicate HasElapsed(e: Emission) {
    !e.Parameter? && e.elapsed.Some?
  }

  /** Elapsed times lie between zero and `now` in the current boot segment, and never fall within a segment. */
  ghost predicate Ordered(out: seq<Emission>, bootId: nat, now: int) {
    && (forall i :: 0 <= i < |out| ==> out[i].bootId <= bootId)
    && (forall i :: 0 <= i < |out| && HasElapsed(out[i]) ==>
          out[i].elapsed.value >= 0 && (out[i].bootId == bootId ==> out[i].elapsed.value <= now))
    && (forall i, j :: 0 <= i < j < |out| ==> out[i].bootId <= out[j].bootId)
    && (forall i, j :: 0 <= i < j < |out| && HasElapsed(out[i]) && HasElapsed(out[j]) && out[i].bootId == out[j].bootId
          ==> out[i].elapsed.value <= out[j].elapsed.value)
  }

  function NowOf(st: State): int {
    if st.lastTime.Some? && st.bootStart.Some? then st.lastTime.value - st.bootStart.value else 0
  }

  ghost predicate Timed(st: State) {
    && (st.lastTime.Some? <==> st.stamps != []) && (st.lastTime.Some? ==> st.lastTime.value == st.stamps[|st.stamps| - 1])
    && (st.bootStart.Some? <==> st.lastTime.Some?) && NowOf(st) >= 0
    && st.bootId == Drops(st.stamps)
  }

  ghost predicate Counted(st: State) {
    st.seqNo == |st.out| == st.counts.records + st.counts.events + st.counts.parameters
  }

  ghost predicate Inv(st: State) {
    Counted(st) && Numbered(st.out) && Timed(st) && Ordered(st.out, st.bootId, NowOf(st))
  }

  lemma OrderedSnoc(out: seq<Emission>, e: Emission, bootId: nat, now: int)
    requires Ordered(out, bootId, now) && now >= 0 && e.bootId == bootId && (HasElapsed(e) ==> e.elapsed.value == now)
    ensures Ordered(out + [e], bootId, now)
  {
  }

  lemma NumberedSnoc(out: seq<Emission>, e: Emission)
    requires Numbered(out) && e.seqNo == |out|
    ensures Numbered(out + [e])
  {
  }

  lemma OrderedLater(out: seq<Emission>, bootId: nat, now: int, later: int)
    requires Ordered(out, bootId, now) && now <= later
    ensures Ordered(out, bootId, later)
  {
  }

  lemma OrderedNewBoot(out: seq<Emission>, bootId: nat, now: int)
    requires Ordered(out, bootId, now)
    ensures Ordered(out, bootId + 1, 0)
  {
  }

  lemma DropsSnoc(stamps: seq<nat>, t: nat)
    ensures Drops(stamps + [t]) == Drops(stamps) + if stamps != [] && t < stamps[|stamps| - 1] then 1 else 0
  {
    assert (stamps + [t])[..|stamps|] == stamps;
  }

  lemma StampKeeps(st: State, time: nat)
    requires Inv(st)
    ensures Inv(Stamp(st, time)) && Stamp(st, time).lastTime == Some(time)
    ensures Stamp(st, time).counts == st.counts.(events := Stamp(st, time).counts.events)
  {
    hide Ordered, Numbered, Drops;
    DropsSnoc(st.stamps, time);
    if st.lastTime.Some? && time < st.lastTime.value {
      OrderedNewBoot(st.out, st.bootId, NowOf(st));
      var e := Event(st.seqNo, st.bootId + 1, Some(time), Some(0), BootBoundary, None, map[]);
      OrderedSnoc(st.out, e, st.bootId + 1, 0);
      NumberedSnoc(st.out, e);
    } else if st.lastTime.Some? {
      OrderedLater(st.out, st.bootId, NowOf(st), time - st.bootStart.value);
    }
  }

  /** Appending an emission of the current moment, counted once. */
  lemma EmitKeeps(st: State, counts: Counts, seen: set<(nat, string)>, e: Emission)
    requires Inv(st) && e.seqNo == st.seqNo && e.bootId == st.bootId
    requires HasElapsed(e) ==> e.elapsed.value == NowOf(st)
    requires counts.records + counts.events + counts.parameters
             == st.counts.records + st.counts.events + st.counts.parameters + 1
    ensures Inv(Emit(st.(counts := counts, seen := seen), e))
    ensures NowOf(Emit(st.(counts := counts, seen := seen), e)) == NowOf(st)
  {
    hide Ordered, Numbered, Drops;
    OrderedSnoc(st.out, e, st.bootId, NowOf(st));
    NumberedSnoc(st.out, e);
  }

  lemma AddingKeeps(env: Outside, st: State, f: Format, frame: bytes, data: Fields)
    requires Inv(st)
    ensures Inv(AddRecord(st, f, frame, data)) && Inv(AddParameter(env, st, f, data)) && Inv(AddEvent(env, st, f, data))
  {
    hide Inv, Emit, TextOf, EventKindOf, MessageOf, ValueIn;
    ElapsedIsNow(st);
    EmitKeeps(st, st.counts.(records := st.counts.records + 1, recordBytes := st.counts.recordBytes + |frame|), st.seen,
              Record(st.seqNo, st.bootId, st.lastTime, ElapsedOf(st, st.lastTime), f.id, f.revision, frame, data));
    var name := TextOf(env, data, "Name");
    if name.Some? {
      EmitKeeps(st, st.counts.(parameters := st.counts.parameters + 1), st.seen + {(st.bootId, name.value)},
                Parameter(st.seqNo, st.bootId, st.lastTime, name.value, ValueIn(data, "Value"), (st.bootId, name.value) !in st.seen));
    }
    var kind := EventKindOf(f.name);
    if kind.Some? {
      EmitKeeps(st, st.counts.(events := st.counts.events + 1), st.seen,
                Event(st.seqNo, st.bootId, st.lastTime, ElapsedOf(st, st.lastTime), kind.value, MessageOf(env, f, data), data));
    }
  }

  lemma TakeRecordKeeps(env: Outside, st: State, f: Format, frame: bytes)
    requires Inv(st) && Sound(f) && |frame| == f.length
    ensures var t := TakeRecord(env, st, f, frame);
            && Inv(t) && t.counts.recordBytes == st.counts.recordBytes + |frame| && t.counts.records == st.counts.records + 1
            && t.counts.resyncBytes == st.counts.resyncBytes && t.counts.formatFrames == st.counts.formatFrames
  {
    hide Inv, Stamp, DataOf, TimeOf, TextOf, EventKindOf, Sound, MessageOf, ValueIn, ElapsedOf;
    var data := DataOf(f, frame);
    var stamp := TimeOf(env, data);
    if stamp.Some? {
      StampKeeps(st, stamp.value);
    }
    var s1 := AddStamp(env, st, data);
    var s2 := AddRecord(s1, f, frame, data);
    AddingKeeps(env, s1, f, frame, data);
    AddingKeeps(env, s2, f, frame, data);
    AddingKeeps(env, AddParameter(env, s2, f, data), f, frame, data);
  }

  lemma EmitLeaves(st: State, e: Emission)
    ensures var t := Emit(st, e);
            && t == st.(out := t.out, seqNo := t.seqNo) && t.out == st.out + [e] && t.seqNo == st.seqNo + 1
  {
  }

  lemma ElapsedIsNow(st: State)
    requires Inv(st)
    ensures ElapsedOf(st, st.lastTime).Some? ==> ElapsedOf(st, st.lastTime).value == NowOf(st)
  {
    hide Ordered, Numbered, Drops;
  }

  /** Every byte passed is a skipped one, part of an accepted format frame, or part of a record frame. */
  ghost predicate Placed(st: State, pos: nat) {
    pos == st.counts.resyncBytes + FMT_MSG_LENGTH * st.counts.formatFrames + st.counts.recordBytes
  }

  lemma ActKeeps(env: Outside, st: State, r: Found, pos: nat)
    requires Inv(st) && Placed(st, pos) && !r.End? && !r.Truncated?
    requires ((r.NewFormat? || r.Frame?) ==> Sound(r.f)) && (r.Frame? ==> |r.frame| == r.f.length)
    ensures Inv(Act(env, st, r)) && Placed(Act(env, st, r), pos + Consumed(r))
  {
    hide Sound, TakeRecord, Ordered, Numbered, Drops;
    if r.Frame? {
      TakeRecordKeeps(env, st, r.f, r.frame);
    }
  }

  lemma {:induction false} DecodeKeeps(env: Outside, source: bytes, pos: nat, st: State)
    requires AllSound(st.formats) && Inv(st) && Placed(st, pos) && pos <= |source|
    ensures var (t, end) := Decode(env, source, pos, st);
            Inv(t) && Placed(t, end) && AllSound(t.formats) && end <= |source| && Look(source, end, t.formats) in {End, Truncated}
    decreases |source| - pos
  {
    hide Inv, Placed, AllSound, Act, Sound;
    var r := Look(source, pos, st.formats);
    LookIsSound(source, pos, st.formats);
    if !r.End? && !r.Truncated? {
      ActIsSound(env, st, r);
      ActKeeps(env, st, r, pos);
      DecodeKeeps(env, source, pos + Consumed(r), Act(env, st, r));
    }
  }

  /** For any bytes at all: the decode stops at the end or at a frame the file is too short for; the position reached is
      the skipped bytes, 89 per accepted format frame and the lengths of the records; sequence numbers are 0, 1, 2 and so
      on over records, events and parameters together; a boot segment begins exactly where a timestamp steps back; and
      within a segment elapsed time starts at zero or above and never falls. */
  lemma AnyLogDecodes(env: Outside, source: bytes)
    ensures var (t, end) := Decode(env, source, 0, EMPTY);
            && end == t.counts.resyncBytes + 89 * t.counts.formatFrames + t.counts.recordBytes <= |source|
            && Look(source, end, t.formats) in {End, Truncated}
            && |t.out| == t.counts.records + t.counts.events + t.counts.parameters
            && (forall i :: 0 <= i < |t.out| ==> t.out[i].seqNo == i)
            && t.bootId == Drops(t.stamps)
            && (forall i :: 0 <= i < |t.out| && HasElapsed(t.out[i]) ==> t.out[i].elapsed.value >= 0)
            && (forall i, j :: 0 <= i < j < |t.out| ==> t.out[i].bootId <= t.out[j].bootId)
            && (forall i, j :: 0 <= i < j < |t.out| && HasElapsed(t.out[i]) && HasElapsed(t.out[j]) && t.out[i].bootId == t.out[j].bootId
                  ==> t.out[i].elapsed.value <= t.out[j].elapsed.value)
  {
    hide Decode, Look, Drops, Inv, AllSound;
    EmptyIsFine();
    DecodeKeeps(env, source, 0, EMPTY);
    InvMeans(Decode(env, source, 0, EMPTY).0);
  }

  lemma InvMeans(t: State)
    requires Inv(t)
    ensures |t.out| == t.counts.records + t.counts.events + t.counts.parameters && t.bootId == Drops(t.stamps)
    ensures forall i :: 0 <= i < |t.out| ==> t.out[i].seqNo == i
    ensures forall i :: 0 <= i < |t.out| && HasElapsed(t.out[i]) ==> t.out[i].elapsed.value >= 0
    ensures forall i, j :: 0 <= i < j < |t.out| ==> t.out[i].bootId <= t.out[j].bootId
    ensures forall i, j :: 0 <= i < j < |t.out| && HasElapsed(t.out[i]) && HasElapsed(t.out[j]) && t.out[i].bootId == t.out[j].bootId
              ==> t.out[i].elapsed.value <= t.out[j].elapsed.value
  {
    hide Drops;
  }

  lemma NothingIsOrdered()
    ensures Ordered([], 0, 0) && Numbered([]) && Drops([]) == 0
  {
  }

  lemma EmptyIsTimed()
    ensures Timed(EMPTY)
  {
    hide Drops;
    NothingIsOrdered();
  }

  lemma EmptyIsCounted()
    ensures Counted(EMPTY) && Placed(EMPTY, 0)
  {
  }

  lemma EmptyIsOrdered()
    ensures Numbered(EMPTY.out) && Ordered(EMPTY.out, EMPTY.bootId, NowOf(EMPTY)) && AllSound(EMPTY.formats)
  {
    hide Ordered, Numbered, Sound;
    NothingIsOrdered();
  }

  lemma EmptyIsFine()
    ensures AllSound(EMPTY.formats) && Inv(EMPTY) && Placed(EMPTY, 0)
  {
    hide Ordered, Numbered, Timed, Counted, AllSound, Placed, NowOf;
    EmptyIsTimed();
    EmptyIsCounted();
    EmptyIsOrdered();
  }

  // ---------------------------------------------------------------------------------------------------
  // Well-formed logs
  // ---------------------------------------------------------------------------------------------------

  predicate HasMarker(frame: bytes) {
    |frame| >= 3 && frame[0] == FRAME_HEAD_0 && frame[1] == FRAME_HEAD_1
  }

  function RevisionOf(formats: map<byte, Format>, id: byte): nat {
    if id in formats then formats[id].revision else 0
  }

  /** The frames of a log in which every record's format has been announced before it. */
  ghost predicate WellFormed(frames: seq<bytes>, formats: map<byte, Format>)
    decreases |frames|
  {
    frames == [] || (Announced(frames[0], formats) && WellFormed(frames[1..], Learnt(frames[0], formats)))
  }

  predicate IsFormatFrame(frame: bytes) {
    HasMarker(frame) && frame[2] == FMT_MSG_ID
  }

  predicate Announced(frame: bytes, formats: map<byte, Format>) {
    && HasMarker(frame)
    && if frame[2] == FMT_MSG_ID then |frame| == FMT_MSG_LENGTH && FormatOf(frame, RevisionOf(formats, frame[3])).Some?
       else frame[2] in formats && |frame| == formats[frame[2]].length
  }

  function Learnt(frame: bytes, formats: map<byte, Format>): map<byte, Format>
    requires Announced(frame, formats)
  {
    if frame[2] == FMT_MSG_ID then
      var f := FormatOf(frame, RevisionOf(formats, frame[3])).value;
      formats[f.id := f]
    else formats
  }

  /** The frames that are records, and the frames behind the emitted records. */
  function RecordsIn(frames: seq<bytes>): seq<bytes> {
    if frames == [] then [] else (if IsFormatFrame(frames[0]) then [] else [frames[0]]) + RecordsIn(frames[1..])
  }

  function RecordFrames(out: seq<Emission>): seq<bytes> {
    if out == [] then []
    else RecordFrames(out[..|out| - 1]) + if out[|out| - 1].Record? then [out[|out| - 1].frame] else []
  }

  lemma RecordFramesSnoc(out: seq<Emission>, e: Emission)
    ensures RecordFrames(out + [e]) == RecordFrames(out) + if e.Record? then [e.frame] else []
  {
    assert (out + [e])[..|out|] == out;
  }

  lemma AddingEmits(env: Outside, st: State, f: Format, frame: bytes, data: Fields)
    ensures RecordFrames(AddRecord(st, f, frame, data).out) == RecordFrames(st.out) + [frame]
    ensures RecordFrames(AddParameter(env, st, f, data).out) == RecordFrames(st.out)
    ensures RecordFrames(AddEvent(env, st, f, data).out) == RecordFrames(st.out)
  {
    hide TextOf, EventKindOf, RecordFrames, ElapsedOf, MessageOf, ValueIn;
    RecordFramesSnoc(st.out, Record(st.seqNo, st.bootId, st.lastTime, ElapsedOf(st, st.lastTime), f.id, f.revision, frame, data));
    var name, kind := TextOf(env, data, "Name"), EventKindOf(f.name);
    if name.Some? {
      RecordFramesSnoc(st.out, Parameter(st.seqNo, st.bootId, st.lastTime, name.value, ValueIn(data, "Value"),
                                         (st.bootId, name.value) !in st.seen));
    }
    if kind.Some? {
      RecordFramesSnoc(st.out, Event(st.seqNo, st.bootId, st.lastTime, ElapsedOf(st, st.lastTime), kind.value,
                                     MessageOf(env, f, data), data));
    }
  }

  /** A record frame adds exactly one record with exactly its bytes. */
  lemma TakeRecordEmits(env: Outside, st: State, f: Format, frame: bytes)
    requires Sound(f) && |frame| == f.length
    ensures RecordFrames(TakeRecord(env, st, f, frame).out) == RecordFrames(st.out) + [frame]
    ensures TakeRecord(env, st, f, frame).formats == st.formats
    ensures TakeRecord(env, st, f, frame).counts.resyncBytes == st.counts.resyncBytes
  {
    hide Sound, DataOf, TimeOf, TextOf, EventKindOf, RecordFrames, ElapsedOf, Stamp, MessageOf, ValueIn;
    var data := DataOf(f, frame);
    var stamp := TimeOf(env, data);
    if stamp.Some? {
      StampEmits(st, stamp.value);
    }
    var s1 := AddStamp(env, st, data);
    var s2 := AddRecord(s1, f, frame, data);
    AddingEmits(env, s1, f, frame, data);
    AddingEmits(env, s2, f, frame, data);
    AddingEmits(env, AddParameter(env, s2, f, data), f, frame, data);
  }

  lemma StampEmits(st: State, time: nat)
    ensures var t := Stamp(st, time);
            && RecordFrames(t.out) == RecordFrames(st.out) && t.formats == st.formats
            && t.counts.resyncBytes == st.counts.resyncBytes && t.seen == st.seen
  {
    hide RecordFrames;
    RecordFramesSnoc(st.out, Event(st.seqNo, st.bootId + 1, Some(time), Some(0), BootBoundary, None, map[]));
  }

  /** At the start of an announced frame the decoder sees exactly that frame. */
  lemma LookAtFrame(before: bytes, frame: bytes, more: bytes, formats: map<byte, Format>)
    requires AllSound(formats) && Announced(frame, formats)
    ensures var r := Look(before + frame + more, |before|, formats);
            && Consumed(r) == |frame| && !r.End? && !r.Truncated?
            && |frame| >= 3 && (frame[2] == FMT_MSG_ID ==> r == NewFormat(FormatOf(frame, RevisionOf(formats, frame[3])).value))
            && (frame[2] != FMT_MSG_ID ==> r == Frame(formats[frame[2]], frame))
  {
    hide FormatOf;
    var source := before + frame + more;
    assert source[|before|..|before| + |frame|] == frame;
    assert source[|before|] == frame[0] && source[|before| + 1] == frame[1] && source[|before| + 2] == frame[2];
  }

  lemma DecodeUnfolds(env: Outside, source: bytes, pos: nat, st: State)
    requires AllSound(st.formats)
    ensures var r := Look(source, pos, st.formats);
            && (r.End? <==> pos + 3 > |source|) && Consumed(r) > 0
            && (r.End? || r.Truncated? ==> Decode(env, source, pos, st) == (st, pos))
            && (!r.End? && !r.Truncated? ==>
                  && pos + Consumed(r) <= |source| && (r.Frame? ==> Sound(r.f) && |r.frame| == r.f.length)
                  && AllSound(Act(env, st, r).formats)
                  && Decode(env, source, pos, st) == Decode(env, source, pos + Consumed(r), Act(env, st, r)))
  {
    hide Act, Sound, FormatOf;
    var r := Look(source, pos, st.formats);
    LookIsSound(source, pos, st.formats);
    if !r.End? && !r.Truncated? {
      ActIsSound(env, st, r);
    }
  }

  /** A well-formed log is decoded to exactly its records, in order, with nothing skipped and nothing left. */
  lemma {:induction false} WellFormedDecodes(env: Outside, before: bytes, frames: seq<bytes>, st: State)
    requires AllSound(st.formats) && WellFormed(frames, st.formats)
    ensures var (t, end) := Decode(env, before + Joined(frames), |before|, st);
            && end == |before| + |Joined(frames)|
            && t.counts.resyncBytes == st.counts.resyncBytes
            && RecordFrames(t.out) == RecordFrames(st.out) + RecordsIn(frames)
    decreases |frames|
  {
    hide Decode, Look, Act, AllSound, Sound, RecordFrames, RecordsIn, Announced, Learnt, FormatOf, Consumed;
    var source := before + Joined(frames);
    DecodeUnfolds(env, source, |before|, st);
    RecordsInFirst(frames);
    if frames != [] {
      var frame, more := frames[0], Joined(frames[1..]);
      assert source == (before + frame) + more;
      LookAtFrame(before, frame, more, st.formats);
      var r := Look(source, |before|, st.formats);
      ActOnFrame(env, st, r, frame);
      WellFormedDecodes(env, before + frame, frames[1..], Act(env, st, r));
    }
  }

  lemma RecordsInFirst(frames: seq<bytes>)
    ensures |frames| == 0 ==> |RecordsIn(frames)| == 0
    ensures frames != [] ==> RecordsIn(frames) == RecordsIn([frames[0]]) + RecordsIn(frames[1..])
  {
    hide IsFormatFrame;
    if frames != [] {
      var first, none: seq<bytes> := [frames[0]], [];
      var own: seq<bytes> := if IsFormatFrame(frames[0]) then [] else [frames[0]];
      assert first[1..] == none;
      assert RecordsIn(none) == none;
      assert RecordsIn(first) == own + none == own;
    }
  }

  lemma ActOnFrame(env: Outside, st: State, r: Found, frame: bytes)
    requires Announced(frame, st.formats) && (r.Frame? ==> Sound(r.f) && |r.frame| == r.f.length)
    requires frame[2] == FMT_MSG_ID ==> r == NewFormat(FormatOf(frame, RevisionOf(st.formats, frame[3])).value)
    requires frame[2] != FMT_MSG_ID ==> r == Frame(st.formats[frame[2]], frame)
    ensures var t := Act(env, st, r);
            && t.formats == Learnt(frame, st.formats) && t.counts.resyncBytes == st.counts.resyncBytes
            && RecordFrames(t.out) == RecordFrames(st.out) + RecordsIn([frame])
  {
    hide TakeRecord, Sound, RecordFrames, FormatOf;
    assert [frame][1..] == [];
    if r.Frame? {
      TakeRecordEmits(env, st, r.f, frame);
    }
  }

  lemma WholeLogDecodes(env: Outside, frames: seq<bytes>)
    requires WellFormed(frames, map[])
    ensures var (t, end) := Decode(env, Joined(frames), 0, EMPTY);
            end == |Joined(frames)| && t.counts.resyncBytes == 0 && RecordFrames(t.out) == RecordsIn(frames)
  {
    hide Decode, WellFormed;
    var none: bytes := [];
    assert none + Joined(frames) == Joined(frames);
    WellFormedDecodes(env, none, frames, EMPTY);
  }
}

/** The reader with its one-chunk cache, and the decode loop over it. */
module DataflashDecoder {
  import opened Bytes
  import opened DataflashFormats
  import opened DataflashRules

  const READ_CHUNK_SIZE := 1048576

  class SequentialSourceReader {
    const source: bytes
    var position: nat
    var bufferStart: nat
    var buffer: bytes

    /** The buffer holds what the source holds at its place. */
    ghost predicate Valid()
      reads this
    {
      && position <= |source| && bufferStart + |buffer| <= |source|
      && buffer == source[bufferStart..bufferStart + |buffer|]
    }

    constructor (source: bytes)
      ensures Valid() && this.source == source && position == 0
    {
      this.source := source;
      position, bufferStart, buffer := 0, 0, [];
    }

    /** The next bytes, exactly as a direct slice of the source would give them, cached or not. */
    method Peek(length: nat) returns (data: bytes)
      requires Valid()
      modifies `bufferStart, `buffer
      ensures Valid()
      ensures data == source[position..Least(|source|, position + length)]
    {
      var bufferEnd := bufferStart + |buffer|;
      if position < bufferStart || position + length > bufferEnd {
        bufferStart := position;
        buffer := source[position..Least(|source|, position + if READ_CHUNK_SIZE > length then READ_CHUNK_SIZE else length)];
      }
      var offset := position - bufferStart;
      var end := Least(|buffer|, offset + length);
      data := buffer[offset..end];
      SliceOfSlice(source, bufferStart, bufferStart + |buffer|, offset, end);
    }

    method Advance(length: nat)
      requires Valid()
      modifies `position
      ensures Valid() && position == Least(|source|, old(position) + length)
    {
      position := Least(|source|, position + length);
    }
  }

  /** Read frame by frame through the cache; the outcome is the decode of the bytes themselves. */
  method DecodeLog(env: Outside, source: bytes) returns (st: State, position: nat)
    ensures (st, position) == Decode(env, source, 0, EMPTY)
  {
    hide Decode, Look, Act, Consumed, AllSound, Inv, Placed, Sound;
    var reader := new SequentialSourceReader(source);
    st := EMPTY;
    EmptyIsFine();
    while reader.position + 3 <= |source|
      invariant reader.Valid() && reader.source == source && AllSound(st.formats)
      invariant Decode(env, source, reader.position, st) == Decode(env, source, 0, EMPTY)
      decreases |source| - reader.position
    {
      DecodeUnfolds(env, source, reader.position, st);
      var found, taken := TakeFrame(reader, st.formats);
      if found.Truncated? {
        position := reader.position;
        return;
      }
      st := Act(env, st, found);
      reader.Advance(taken);
    }
    DecodeUnfolds(env, source, reader.position, st);
    position := reader.position;
  }

  /** Nothing, a format frame, a record of a known format, too few bytes, or a byte to skip. */
  method TakeFrame(reader: SequentialSourceReader, formats: map<byte, Format>) returns (found: Found, taken: nat)
    requires reader.Valid() && reader.position + 3 <= |reader.source|
    modifies reader`bufferStart, reader`buffer
    ensures reader.Valid() && found == Look(reader.source, reader.position, formats) && taken == Consumed(found)
  {
    hide FormatOf;
    var header := reader.Peek(3);
    if header[0] != FRAME_HEAD_0 || header[1] != FRAME_HEAD_1 {
      return Junk, 1;
    }
    var id := header[2];
    if id == FMT_MSG_ID {
      var frame := reader.Peek(FMT_MSG_LENGTH);
      if |frame| < FMT_MSG_LENGTH {
        return Truncated, 1;
      }
      var format := ParseFormat(frame, if frame[3] in formats then formats[frame[3]].revision else 0);
      return if format.None? then Junk else NewFormat(format.value), if format.None? then 1 else FMT_MSG_LENGTH;
    }
    if id !in formats || formats[id].length < 3 {
      return Junk, 1;
    }
    var frame := reader.Peek(formats[id].length);
    if |frame| < formats[id].length {
      return Truncated, 1;
    }
    return Frame(formats[id], frame), |frame|;
  }
}
