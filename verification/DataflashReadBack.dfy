/** What somebody put into a log is what the decoder says: formats, fields, times and parameters. */
module DataflashReadBack {
  import opened Bytes
  import opened DataflashFormats
  import opened DataflashRules
  import opened DataflashHistory

  // ---------------------------------------------------------------------------------------------------
  // Format frames
  // ---------------------------------------------------------------------------------------------------

  /** Text that fits a field of an announcement: plain characters, none of them NUL. */
  predicate Plain(s: string) {
    forall i :: 0 <= i < |s| ==> 0 < s[i] as int < 256
  }

  function AsBytes(s: string): bytes
    requires Plain(s)
  {
    seq(|s|, i requires 0 <= i < |s| => s[i] as int)
  }

  function Zeros(n: nat): bytes {
    seq(n, _ => 0)
  }

  function Field(s: string, width: nat): bytes
    requires Plain(s) && |s| <= width
  {
    AsBytes(s) + Zeros(width - |s|)
  }

  lemma {:induction false} FieldReadsBack(s: string, width: nat)
    requires Plain(s) && |s| <= width
    ensures |Field(s, width)| == width && ReadAscii(Field(s, width)) == s
  {
    if s != "" {
      FieldReadsBack(s[1..], width - 1);
      assert Field(s, width)[1..] == Field(s[1..], width - 1);
      assert s == [s[0]] + s[1..];
    }
  }

  /** Column names joined by commas. */
  function Listed(columns: seq<string>): string {
    if columns == [] then "" else if |columns| == 1 then columns[0] else columns[0] + "," + Listed(columns[1..])
  }

  predicate Names(columns: seq<string>) {
    forall i :: 0 <= i < |columns| ==> columns[i] != "" && ',' !in columns[i]
  }

  lemma {:induction false} ColumnRead(name: string, part: string, more: string)
    requires ',' !in name
    ensures Columns(name + more, part) == Columns(more, part + name)
  {
    if name == "" {
      assert name + more == more && part + name == part;
    } else {
      assert (name + more)[1..] == name[1..] + more;
      ColumnRead(name[1..], part + [name[0]], more);
      assert part + [name[0]] + name[1..] == part + name;
    }
  }

  lemma {:induction false} ColumnsReadBack(columns: seq<string>)
    requires Names(columns)
    ensures Columns(Listed(columns), "") == columns
  {
    if |columns| > 0 {
      ColumnsReadBack(columns[1..]);
      FirstColumn(columns[0], Listed(columns[1..]));
      assert |columns| == 1 ==> columns == [columns[0]];
      assert columns == [columns[0]] + columns[1..];
    }
  }

  lemma FirstColumn(name: string, rest: string)
    requires name != "" && ',' !in name
    ensures Columns(name, "") == [name]
    ensures Columns(name + "," + rest, "") == [name] + Columns(rest, "")
  {
    ColumnRead(name, "", "");
    assert name + "" == name && "" + name == name;
    ColumnRead(name, "", "," + rest);
    assert name + ("," + rest) == name + "," + rest && ("," + rest)[1..] == rest;
  }

  /** The announcement of a layout. */
  function FormatFrame(id: byte, length: byte, name: string, codes: string, columns: seq<string>): bytes
    requires Plain(name) && |name| <= 4 && Plain(codes) && |codes| <= 16 && Plain(Listed(columns)) && |Listed(columns)| <= 64
  {
    [FRAME_HEAD_0, FRAME_HEAD_1, FMT_MSG_ID, id, length] + Field(name, 4) + Field(codes, 16) + Field(Listed(columns), 64)
  }

  /** An announcement is read back as announced. It can be decoded exactly if every code is known, each has its column,
      and the fields fit into the announced length. */
  lemma FormatReadsBack(id: byte, length: byte, name: string, codes: string, columns: seq<string>, previousRevision: nat)
    requires Plain(name) && |name| <= 4 && Plain(codes) && |codes| <= 16 && Plain(Listed(columns)) && |Listed(columns)| <= 64
    requires Names(columns)
    ensures var frame := FormatFrame(id, length, name, codes, columns);
            && |frame| == FMT_MSG_LENGTH && HasMarker(frame) && frame[2] == FMT_MSG_ID
            && (FormatOf(frame, previousRevision).None? <==> length < 3)
            && (length >= 3 ==>
                  var f := FormatOf(frame, previousRevision).value;
                  && Sound(f) && f.id == id && f.length == length as int && f.name == name && f.codes == codes
                  && f.columns == columns && f.revision == previousRevision + 1
                  && (f.decodable <==> codes != "" && |codes| == |columns| && KnownCodes(codes) == |codes|
                                       && SizeOf(codes) <= length as int - 3))
  {
    hide ReadAscii, Columns, Listed, KnownCodes, SizeOf, Field;
    FieldReadsBack(name, 4);
    FieldReadsBack(codes, 16);
    FieldReadsBack(Listed(columns), 64);
    ColumnsReadBack(columns);
    var frame := FormatFrame(id, length, name, codes, columns);
    assert frame[5..9] == Field(name, 4) && frame[9..25] == Field(codes, 16) && frame[25..89] == Field(Listed(columns), 64);
    if length >= 3 {
      FormatIsSound(frame, previousRevision);
      if KnownCodes(codes) == |codes| {
        assert codes[..|codes|] == codes;
      }
    }
  }

  // ---------------------------------------------------------------------------------------------------
  // Fields
  // ---------------------------------------------------------------------------------------------------

  /** One piece of bytes per code, each of the size of its code. */
  predicate Fills(codes: string, pieces: seq<bytes>) {
    |pieces| == |codes| == KnownCodes(codes)
    && forall k :: 0 <= k < |codes| ==> FieldSize(codes[k]) == Some(|pieces[k]|)
  }

  lemma {:induction false} JoinedParts(a: seq<bytes>, b: seq<bytes>)
    ensures Joined(a + b) == Joined(a) + Joined(b)
  {
    if a == [] {
      assert a + b == b;
    } else {
      assert (a + b)[1..] == a[1..] + b;
      JoinedParts(a[1..], b);
    }
  }

  lemma {:induction false} PieceOffset(codes: string, pieces: seq<bytes>, k: nat)
    requires Fills(codes, pieces) && k <= |codes|
    ensures OffsetOf(codes, k) == |Joined(pieces[..k])|
  {
    hide SizeOf, FieldSize;
    if k == 0 {
      NoOffset(codes);
    } else {
      PieceOffset(codes, pieces, k - 1);
      OffsetNext(codes, k - 1);
      assert pieces[..k] == pieces[..k - 1] + [pieces[k - 1]];
      JoinedSnoc(pieces[..k - 1], pieces[k - 1]);
    }
  }

  /** Field `k` stands where the pieces before it end. */
  lemma PieceInPlace(codes: string, pieces: seq<bytes>, tail: bytes, k: nat)
    requires Fills(codes, pieces) && k < |codes|
    ensures var payload, at := Joined(pieces) + tail, OffsetOf(codes, k);
            at + |pieces[k]| <= |payload| && payload[at..at + |pieces[k]|] == pieces[k]
  {
    hide OffsetOf, FieldSize;
    PieceOffset(codes, pieces, k);
    assert pieces == pieces[..k] + ([pieces[k]] + pieces[k + 1..]);
    JoinedParts(pieces[..k], [pieces[k]] + pieces[k + 1..]);
    assert ([pieces[k]] + pieces[k + 1..])[1..] == pieces[k + 1..];
    assert Joined(pieces) + tail == Joined(pieces[..k]) + (pieces[k] + (Joined(pieces[k + 1..]) + tail));
  }

  /** Column `k` is the last one of its name. */
  predicate LastNamed(columns: seq<string>, k: nat, name: string) {
    k < |columns| && columns[k] == name && name !in columns[k + 1..]
  }

  lemma {:induction false} FieldsRead(f: Format, pieces: seq<bytes>, tail: bytes, n: nat, name: string)
    requires Sound(f) && f.decodable && Fills(f.codes, pieces) && |Joined(pieces) + tail| == f.length - 3 && n <= |f.codes|
    ensures var data := FieldsOf(f, Joined(pieces) + tail, n);
            && (name in data <==> name in f.columns[..n])
            && forall k: nat :: LastNamed(f.columns[..n], k, name) ==> data[name] == ReadField(f.codes[k], pieces[k])
    decreases n
  {
    hide OffsetOf, FieldSize, ReadField, Sound;
    if n > 0 {
      FieldsRead(f, pieces, tail, n - 1, name);
      FieldStep(f, pieces, tail, n);
      var shown, front := f.columns[..n], f.columns[..n - 1];
      assert shown == front + [f.columns[n - 1]];
      forall k: nat | LastNamed(shown, k, name)
        ensures FieldsOf(f, Joined(pieces) + tail, n)[name] == ReadField(f.codes[k], pieces[k])
      {
        if k < n - 1 {
          assert shown[k + 1..] == front[k + 1..] + [f.columns[n - 1]];
          assert f.columns[n - 1] in shown[k + 1..] by { assert shown[k + 1..][n - 2 - k] == f.columns[n - 1]; }
          assert LastNamed(front, k, name);
        }
      }
    }
  }

  lemma FieldStep(f: Format, pieces: seq<bytes>, tail: bytes, n: nat)
    requires Sound(f) && f.decodable && Fills(f.codes, pieces) && |Joined(pieces) + tail| == f.length - 3 && 0 < n <= |f.codes|
    ensures |f.columns| == |f.codes|
    ensures FieldsOf(f, Joined(pieces) + tail, n)
            == FieldsOf(f, Joined(pieces) + tail, n - 1)[f.columns[n - 1] := ReadField(f.codes[n - 1], pieces[n - 1])]
  {
    hide OffsetOf, FieldSize, ReadField, KnownCodes;
    FieldInside(f, n - 1);
    PieceInPlace(f.codes, pieces, tail, n - 1);
    assert f.offsets[n - 1] == OffsetOf(f.codes, n - 1);
  }

  /** A record frame made of these pieces. */
  function RecordFrame(id: byte, pieces: seq<bytes>, tail: bytes): bytes {
    [FRAME_HEAD_0, FRAME_HEAD_1, id] + (Joined(pieces) + tail)
  }

  predicate Made(r: Taken, pieces: seq<bytes>, tail: bytes) {
    r.f.decodable && Fills(r.f.codes, pieces) && r.frame == RecordFrame(r.f.id, pieces, tail)
  }

  /** A record reads back: exactly its columns are there, and each holds what its piece says; of columns with the same
      name the last one counts. */
  lemma RecordReadsBack(r: Taken, pieces: seq<bytes>, tail: bytes, name: string)
    requires Fit(r) && Made(r, pieces, tail)
    ensures var data := DataOf(r.f, r.frame);
            && |r.f.columns| == |r.f.codes| && (name in data <==> name in r.f.columns)
            && forall k: nat :: LastNamed(r.f.columns, k, name) ==> data[name] == ReadField(r.f.codes[k], pieces[k])
  {
    hide FieldsOf, OffsetOf, FieldSize, ReadField, Fills;
    assert r.frame[3..] == Joined(pieces) + tail;
    FieldsRead(r.f, pieces, tail, |r.f.codes|, name);
    assert r.f.columns[..|r.f.codes|] == r.f.columns;
  }

  // ---------------------------------------------------------------------------------------------------
  // Times
  // ---------------------------------------------------------------------------------------------------

  /** A number put into column `k` in the code of that column. */
  predicate Holds(r: Taken, pieces: seq<bytes>, k: nat, v: int) {
    && k < |r.f.codes| && k < |pieces| && (SignedCode(r.f.codes[k]) || UnsignedCode(r.f.codes[k]))
    && FieldSize(r.f.codes[k]).Some? && FieldSize(r.f.codes[k]).value > 0 && InRange(r.f.codes[k], v)
    && pieces[k] == LowBytes(v, |pieces[k]|)
  }

  /** Microseconds put into `TimeUS` are the record's time, whatever else it holds: scaled codes count in whole microseconds,
      and a negative number is no time at all. */
  lemma MicrosRead(env: Outside, r: Taken, pieces: seq<bytes>, tail: bytes, k: nat, v: int)
    requires Fit(r) && Made(r, pieces, tail) && LastNamed(r.f.columns, k, "TimeUS") && Holds(r, pieces, k, v)
    ensures var data, code := DataOf(r.f, r.frame), r.f.codes[k];
            && (v >= 0 ==> TimeOf(env, data)
                           == Some(if code in "cCeE" then v / 100 else if code == 'L' then v / 10_000_000 else v))
            && (v < 0 && "TimeMS" !in r.f.columns ==> TimeOf(env, data) == None)
  {
    hide DataOf, LowBytes, PowerOfTwo, ReadField, InRange;
    RecordReadsBack(r, pieces, tail, "TimeUS");
    RecordReadsBack(r, pieces, tail, "TimeMS");
    IntegersReadBack(r.f.codes[k], v);
  }

  /** Milliseconds put into `TimeMS` count a thousandfold, where there is no usable `TimeUS`; a negative number is no time, nor
      is one that no double holds exactly. */
  lemma MillisRead(env: Outside, r: Taken, pieces: seq<bytes>, tail: bytes, k: nat, v: int)
    requires Fit(r) && Made(r, pieces, tail) && LastNamed(r.f.columns, k, "TimeMS") && Holds(r, pieces, k, v)
    requires var data := DataOf(r.f, r.frame); "TimeUS" in data ==> MicrosOf(env, data["TimeUS"]).None?
    ensures var data, code := DataOf(r.f, r.frame), r.f.codes[k];
            && (code !in "cCeEL" && 0 <= 1000 * v < 9_007_199_254_740_992 ==> TimeOf(env, data) == Some(1000 * v))
            && (v < 0 || (code in "qQ" && v >= 9_007_199_254_740_992) ==> TimeOf(env, data) == None)
  {
    hide DataOf, LowBytes, PowerOfTwo, ReadField, MicrosOf, InRange;
    RecordReadsBack(r, pieces, tail, "TimeMS");
    IntegersReadBack(r.f.codes[k], v);
  }

  // ---------------------------------------------------------------------------------------------------
  // Whole logs
  // ---------------------------------------------------------------------------------------------------

  /** The records of a well-formed log, each with the layout announced last before it. */
  function Contents(frames: seq<bytes>, formats: map<byte, Format>): seq<Taken>
    requires WellFormed(frames, formats)
    decreases |frames|
  {
    if frames == [] then []
    else
      (if IsFormatFrame(frames[0]) then [] else [Taken(formats[frames[0][2]], frames[0])])
      + Contents(frames[1..], Learnt(frames[0], formats))
  }

  lemma {:induction false} WalkFrames(before: bytes, frames: seq<bytes>, formats: map<byte, Format>)
    requires AllSound(formats) && WellFormed(frames, formats)
    ensures Walk(before + Joined(frames), |before|, formats) == Contents(frames, formats)
    decreases |frames|
  {
    hide Look, AllSound, Sound, FormatOf;
    var source := before + Joined(frames);
    if frames != [] {
      var frame, more := frames[0], Joined(frames[1..]);
      assert source == (before + frame) + more;
      LookAtFrame(before, frame, more, formats);
      LookIsSound(source, |before|, formats);
      LearntSound(frame, formats);
      WalkFrames(before + frame, frames[1..], Learnt(frame, formats));
    } else {
      EndsHere(source, formats);
    }
  }

  lemma EndsHere(source: bytes, formats: map<byte, Format>)
    requires AllSound(formats)
    ensures Walk(source, |source|, formats) == []
  {
  }

  lemma LearntSound(frame: bytes, formats: map<byte, Format>)
    requires AllSound(formats) && Announced(frame, formats)
    ensures AllSound(Learnt(frame, formats))
  {
    hide FormatOf, Sound;
    if frame[2] == FMT_MSG_ID {
      FormatIsSound(frame, RevisionOf(formats, frame[3]));
      IdRead(frame, RevisionOf(formats, frame[3]));
    }
  }

  lemma IdRead(frame: bytes, revision: nat)
    requires |frame| == FMT_MSG_LENGTH && FormatOf(frame, revision).Some?
    ensures FormatOf(frame, revision).value.id == frame[3]
  {
  }

  lemma {:induction false} ToldGrows(env: Outside, past: seq<Taken>, i: nat)
    requires AllFit(past) && i <= |past|
    ensures AllFit(past[..i]) && Told(env, past[..i]) <= Told(env, past)
    decreases |past|
  {
    hide WithBoundary, WithRecord, WithParameter, WithEvent, Times, Fit;
    if i == |past| {
      assert past[..i] == past;
    } else {
      var front := past[..|past| - 1];
      assert front[..i] == past[..i];
      ToldGrows(env, front, i);
      AddsOnly(env, past);
    }
  }

  lemma AddsOnly(env: Outside, past: seq<Taken>)
    requires AllFit(past) && past != []
    ensures Told(env, past[..|past| - 1]) <= Told(env, past)
  {
    hide Times, DataOf, TextOf, EventKindOf, Drops, SinceStart, Last, Named;
  }

  /** A record's place among everything told: behind all that was told before it and the boundary it may start with, and
      before the parameter or the event it also stands for. */
  lemma RecordPlace(env: Outside, past: seq<Taken>) returns (p: nat)
    requires AllFit(past) && past != []
    ensures var front, r, out := past[..|past| - 1], past[|past| - 1], Told(env, past);
            && p < |out|
            && (p == |Told(env, front)| || (p == |Told(env, front)| + 1 && out[p - 1].Event? && out[p - 1].kind == BootBoundary))
            && Follows(env, out, p, r, Times(env, past))
            && (r.f.name !in {"PARM", "MSG", "EV", "ERR"} ==> |out| == p + 1)
  {
    hide Times, Drops, SinceStart, Last, WithRecord, WithParameter, WithEvent, Follows, Fit;
    var front, r := past[..|past| - 1], past[|past| - 1];
    var out1 := WithBoundary(Told(env, front), Times(env, front), Times(env, past));
    p := |out1|;
    RecordThenRest(env, out1, Times(env, past), r);
    assert p > 0 ==> Told(env, past)[p - 1] == out1[p - 1];
  }

  lemma RecordThenRest(env: Outside, out1: seq<Emission>, times: seq<nat>, r: Taken)
    requires Fit(r)
    ensures var out := WithEvent(env, WithParameter(env, WithRecord(out1, times, r), times, r), times, r);
            && |out1| < |out| && Follows(env, out, |out1|, r, times) && out[..|out1|] == out1
            && (r.f.name !in {"PARM", "MSG", "EV", "ERR"} ==> |out| == |out1| + 1)
  {
    hide DataOf, TextOf, Drops, SinceStart, Last, Named, ValueIn, Fit;
    var out2 := WithRecord(out1, times, r);
    var out := WithEvent(env, WithParameter(env, out2, times, r), times, r);
    assert out[..|out1| + 1] == out2;
  }

  /** At `p` stands the record with its data, the last usable time, the number of steps back as its boot segment, and the time
      since that segment began. A named parameter record is followed at once by its parameter, which is new exactly if no
      parameter of that name has been told of in that segment; a message, an event or an error by an event of that kind, which
      only for a message has a text. */
  ghost predicate Follows(env: Outside, out: seq<Emission>, p: nat, r: Taken, times: seq<nat>)
    requires Fit(r)
  {
    var data := DataOf(r.f, r.frame);
    && p < |out|
    && out[p] == Record(p, Drops(times), Last(times), SinceStart(times), r.f.id, r.f.revision, r.frame, data)
    && (r.f.name == "PARM" && TextOf(env, data, "Name").Some? ==>
          var name := TextOf(env, data, "Name").value;
          && p + 1 < |out|
          && out[p + 1] == Parameter(p + 1, Drops(times), Last(times), name, ValueIn(data, "Value"),
                                     !Named(out[..p + 1], Drops(times), name)))
    && (r.f.name in {"MSG", "EV", "ERR"} ==>
          && p + 1 < |out| && out[p + 1].Event?
          && out[p + 1].seqNo == p + 1 && out[p + 1].bootId == Drops(times) && out[p + 1].data == data
          && out[p + 1].time == Last(times) && out[p + 1].elapsed == SinceStart(times)
          && (out[p + 1].kind == Msg <==> r.f.name == "MSG") && (out[p + 1].kind == Err <==> r.f.name == "ERR")
          && (out[p + 1].kind == Ev <==> r.f.name == "EV")
          && out[p + 1].message == if r.f.name == "MSG" then TextOf(env, data, "Message") else None)
  }

  /** For every record of a well-formed log: it is told of, with what follows from it. After a record of any other kind comes
      the next record or the boundary before it, or nothing. */
  lemma EveryRecordTold(env: Outside, frames: seq<bytes>, i: nat) returns (p: nat)
    requires WellFormed(frames, map[]) && i < |Contents(frames, map[])|
    ensures AllFit(Contents(frames, map[])[..i + 1]) && Fit(Contents(frames, map[])[i])
    ensures var told, r := Contents(frames, map[])[..i + 1], Contents(frames, map[])[i];
            var out := Decode(env, Joined(frames), 0, EMPTY).0.out;
            && Follows(env, out, p, r, Times(env, told))
            && (r.f.name !in {"PARM", "MSG", "EV", "ERR"} && p + 1 < |out| ==>
                  out[p + 1].Record? || (out[p + 1].Event? && out[p + 1].kind == BootBoundary))
  {
    hide Decode, Walk, Told, Times, Contents, Named, Drops, SinceStart, Last, DataOf, TextOf, WellFormed, ValueIn, Fit;
    var source := Joined(frames);
    var none: bytes := [];
    assert none + source == source;
    LogTold(env, source);
    WalkFrames(none, frames, map[]);
    var past := Contents(frames, map[]);
    ToldGrows(env, past, i + 1);
    assert past[..i + 1][i] == past[i];
    p := RecordPlace(env, past[..i + 1]);
    var out, shown := Told(env, past), Told(env, past[..i + 1]);
    assert out[..|shown|] == shown && out[..p + 1] == shown[..p + 1];
    if i + 1 < |past| {
      ToldGrows(env, past, i + 2);
      var q := RecordPlace(env, past[..i + 2]);
      assert past[..i + 2][..i + 1] == past[..i + 1];
    } else {
      assert past[..i + 1] == past;
    }
  }

  // ---------------------------------------------------------------------------------------------------
  // A parameter log
  // ---------------------------------------------------------------------------------------------------

  function RecordsOf(id: byte, records: seq<seq<bytes>>): seq<bytes> {
    seq(|records|, i requires 0 <= i < |records| => RecordFrame(id, records[i], []))
  }

  predicate AllFill(codes: string, records: seq<seq<bytes>>) {
    forall i :: 0 <= i < |records| ==> Fills(codes, records[i])
  }

  lemma RecordSize(id: byte, codes: string, pieces: seq<bytes>)
    requires Fills(codes, pieces)
    ensures |RecordFrame(id, pieces, [])| == 3 + SizeOf(codes)
  {
    hide FieldSize;
    PieceOffset(codes, pieces, |codes|);
    assert codes[..|codes|] == codes && pieces[..|codes|] == pieces;
  }

  /** Records of one announced layout follow each other. */
  lemma {:induction false} RecordsFollow(f: Format, records: seq<seq<bytes>>, formats: map<byte, Format>)
    requires f.id in formats && formats[f.id] == f && f.id != FMT_MSG_ID
    requires AllFill(f.codes, records) && KnownCodes(f.codes) == |f.codes| && f.length == 3 + SizeOf(f.codes)
    ensures WellFormed(RecordsOf(f.id, records), formats)
    ensures Contents(RecordsOf(f.id, records), formats)
            == seq(|records|, i requires 0 <= i < |records| => Taken(f, RecordFrame(f.id, records[i], [])))
    decreases |records|
  {
    hide Fills, SizeOf, KnownCodes, RecordFrame, FormatOf;
    var frames := RecordsOf(f.id, records);
    if records != [] {
      RecordSize(f.id, f.codes, records[0]);
      assert frames[1..] == RecordsOf(f.id, records[1..]);
      RecordHead(f.id, records[0]);
      RecordsFollow(f, records[1..], formats);
      assert Contents(frames, formats) == [Taken(f, frames[0])] + Contents(frames[1..], formats);
    }
  }

  lemma RecordHead(id: byte, pieces: seq<bytes>)
    ensures var frame := RecordFrame(id, pieces, []); HasMarker(frame) && frame[2] == id
  {
  }

  predicate Announceable(id: byte, codes: string, columns: seq<string>) {
    && id != FMT_MSG_ID && codes != "" && |codes| == |columns| && KnownCodes(codes) == |codes| && 3 + SizeOf(codes) < 256
    && Plain(codes) && |codes| <= 16 && Plain(Listed(columns)) && |Listed(columns)| <= 64 && Names(columns)
  }

  /** An announcement of parameters and their records. */
  function ParameterLog(id: byte, codes: string, columns: seq<string>, records: seq<seq<bytes>>): bytes
    requires Announceable(id, codes, columns)
  {
    Joined([FormatFrame(id, 3 + SizeOf(codes), "PARM", codes, columns)] + RecordsOf(id, records))
  }

  /** Each record of such a log is told of with the time put into `TimeUS`, and followed at once by its parameter: named
      by the text put into `Name`, and initial exactly if that name has not come before in the same boot segment. */
  lemma ParameterLogTold(env: Outside, id: byte, codes: string, columns: seq<string>, records: seq<seq<bytes>>, i: nat,
                         u: nat, micros: nat, n: nat, text: string) returns (p: nat)
    requires Announceable(id, codes, columns) && AllFill(codes, records) && i < |records|
    requires LastNamed(columns, u, "TimeUS") && codes[u] in "BHIQ" && |records[i]| == |codes|
    requires micros < PowerOfTwo(8 * |records[i][u]|) && records[i][u] == LowBytes(micros, |records[i][u]|)
    requires LastNamed(columns, n, "Name") && codes[n] in "nNZ" && env.text(codes[n], records[i][n]) == Some(text)
    ensures var out := Decode(env, ParameterLog(id, codes, columns, records), 0, EMPTY).0.out;
            && p + 1 < |out|
            && out[p].Record? && out[p].time == Some(micros) && out[p].frame == RecordFrame(id, records[i], [])
            && out[p + 1].Parameter? && out[p + 1].time == Some(micros) && out[p + 1].name == text
            && out[p + 1].bootId == out[p].bootId
            && (out[p + 1].initial <==> !Named(out[..p + 1], out[p].bootId, text))
  {
    hide Decode, Contents, WellFormed, FormatFrame, RecordFrame, SizeOf, KnownCodes, Fills, Listed, Names, Plain, LowBytes, PowerOfTwo;
    hide DataOf, Named, Drops, SinceStart, Times, ReadField, FormatOf, FieldSize;
    hide Holds, SinceStart, Last, TextOf, ValueIn;
    var f, frames := AnnouncedFormat(id, codes, columns, records);
    p := EveryRecordTold(env, frames, i);
    var r := Contents(frames, map[])[i];
    assert Made(r, records[i], []);
    var told := Contents(frames, map[])[..i + 1];
    assert told[i] == r && Fit(r);
    MicrosHeld(r, records[i], u, micros);
    MicrosRead(env, r, records[i], [], u, micros);
    LastTime(env, told, micros);
    RecordReadsBack(r, records[i], [], "Name");
    NameRead(env, r, codes[n], records[i][n], text);
  }

  lemma MicrosHeld(r: Taken, pieces: seq<bytes>, k: nat, v: nat)
    requires Fills(r.f.codes, pieces) && k < |r.f.codes| && r.f.codes[k] in "BHIQ"
    requires v < PowerOfTwo(8 * |pieces[k]|) && pieces[k] == LowBytes(v, |pieces[k]|)
    ensures Holds(r, pieces, k, v)
  {
    hide LowBytes, PowerOfTwo, KnownCodes;
  }

  lemma LastTime(env: Outside, told: seq<Taken>, v: nat)
    requires AllFit(told) && told != []
    requires var r := told[|told| - 1]; TimeOf(env, DataOf(r.f, r.frame)) == Some(v)
    ensures Last(Times(env, told)) == Some(v)
  {
    hide DataOf, TimeOf;
  }

  lemma NameRead(env: Outside, r: Taken, code: char, piece: bytes, text: string)
    requires Fit(r) && code in "nNZ" && env.text(code, piece) == Some(text)
    requires var data := DataOf(r.f, r.frame); "Name" in data && data["Name"] == ReadField(code, piece)
    ensures TextOf(env, DataOf(r.f, r.frame), "Name") == Some(text)
  {
    hide DataOf;
  }

  lemma AnnouncedFormat(id: byte, codes: string, columns: seq<string>, records: seq<seq<bytes>>)
    returns (f: Format, frames: seq<bytes>)
    requires Announceable(id, codes, columns) && AllFill(codes, records)
    ensures ParameterLog(id, codes, columns, records) == Joined(frames) && WellFormed(frames, map[])
    ensures Sound(f) && f.id == id && f.codes == codes && f.columns == columns && f.name == "PARM" && f.decodable
    ensures Contents(frames, map[]) == seq(|records|, i requires 0 <= i < |records| => Taken(f, RecordFrame(id, records[i], [])))
    ensures forall i :: 0 <= i < |records| ==> Fit(Taken(f, RecordFrame(id, records[i], [])))
  {
    hide FormatOf, RecordFrame, SizeOf, KnownCodes, Listed, Names, FormatFrame, Fills, Sound;
    var first := FormatFrame(id, 3 + SizeOf(codes), "PARM", codes, columns);
    frames := [first] + RecordsOf(id, records);
    FormatReadsBack(id, 3 + SizeOf(codes), "PARM", codes, columns, 0);
    IdOfFrame(id, 3 + SizeOf(codes), "PARM", codes, columns);
    f := FormatOf(first, 0).value;
    assert frames[0] == first && frames[1..] == RecordsOf(id, records);
    RecordsFollow(f, records, map[f.id := f]);
    assert Announced(first, map[]) && Learnt(first, map[]) == map[f.id := f];
    assert Contents(frames, map[]) == [] + Contents(frames[1..], map[f.id := f]);
    forall i | 0 <= i < |records| ensures Fit(Taken(f, RecordFrame(id, records[i], []))) {
      RecordSize(id, codes, records[i]);
    }
  }

  lemma IdOfFrame(id: byte, length: byte, name: string, codes: string, columns: seq<string>)
    requires Plain(name) && |name| <= 4 && Plain(codes) && |codes| <= 16 && Plain(Listed(columns)) && |Listed(columns)| <= 64
    ensures var frame := FormatFrame(id, length, name, codes, columns); |frame| > 3 && frame[3] == id
  {
    hide Field, Listed;
  }
}
