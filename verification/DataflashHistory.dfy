/** What a decoded log says, told by the records taken from it alone: which boot segment, which time, which parameters
    are new. And what the fields of a record are, told by the bytes somebody put into it. */
module DataflashHistory {
  import opened Bytes
  import opened DataflashFormats
  import opened DataflashRules

  /** A record frame and the format in force when it was read. */
  datatype Taken = Taken(f: Format, frame: bytes)

  ghost predicate Fit(r: Taken) {
    Sound(r.f) && |r.frame| == r.f.length
  }

  ghost predicate AllFit(past: seq<Taken>) {
    forall i :: 0 <= i < |past| ==> Fit(past[i])
  }

  /** The record frames of a log from `pos` on. */
  function Walk(source: bytes, pos: nat, formats: map<byte, Format>): seq<Taken>
    requires AllSound(formats)
    decreases |source| - pos
  {
    LookIsSound(source, pos, formats);
    match Look(source, pos, formats)
    case Junk => Walk(source, pos + 1, formats)
    case NewFormat(f) => Walk(source, pos + FMT_MSG_LENGTH, formats[f.id := f])
    case Frame(f, frame) => [Taken(f, frame)] + Walk(source, pos + f.length, formats)
    case _ => []
  }

  // ---------------------------------------------------------------------------------------------------
  // The history
  // ---------------------------------------------------------------------------------------------------

  /** The usable timestamps, in order. */
  function Times(env: Outside, past: seq<Taken>): seq<nat>
    requires AllFit(past)
  {
    if past == [] then []
    else
      var r := past[|past| - 1];
      var time := TimeOf(env, DataOf(r.f, r.frame));
      Times(env, past[..|past| - 1]) + if time.Some? then [time.value] else []
  }

  function Last(times: seq<nat>): Option<nat> {
    if times == [] then None else Some(times[|times| - 1])
  }

  /** The first timestamp since the last step back. */
  function SegmentStart(times: seq<nat>): nat
    requires times != []
  {
    var n := |times|;
    if n == 1 || times[n - 1] < times[n - 2] then times[n - 1] else SegmentStart(times[..n - 1])
  }

  function SinceStart(times: seq<nat>): Option<int> {
    if times == [] then None else Some(times[|times| - 1] - SegmentStart(times))
  }

  /** A parameter of this name has been told of in this boot segment. */
  ghost predicate Named(out: seq<Emission>, bootId: nat, name: string) {
    exists i :: 0 <= i < |out| && out[i].Parameter? && out[i].bootId == bootId && out[i].name == name
  }

  /** Everything told up to and including the last record. */
  ghost function Told(env: Outside, past: seq<Taken>): seq<Emission>
    requires AllFit(past)
  {
    if past == [] then []
    else
      var front, r := past[..|past| - 1], past[|past| - 1];
      var out1 := WithBoundary(Told(env, front), Times(env, front), Times(env, past));
      var out2 := WithRecord(out1, Times(env, past), r);
      var out3 := WithParameter(env, out2, Times(env, past), r);
      WithEvent(env, out3, Times(env, past), r)
  }

  /** A step back in time is a boundary of its own. */
  function WithBoundary(out: seq<Emission>, before: seq<nat>, times: seq<nat>): seq<Emission> {
    if Drops(times) == Drops(before) then out
    else out + [Event(|out|, Drops(times), Last(times), Some(0), BootBoundary, None, map[])]
  }

  function WithRecord(out: seq<Emission>, times: seq<nat>, r: Taken): seq<Emission>
    requires Fit(r)
  {
    out + [Record(|out|, Drops(times), Last(times), SinceStart(times), r.f.id, r.f.revision, r.frame, DataOf(r.f, r.frame))]
  }

  ghost function WithParameter(env: Outside, out: seq<Emission>, times: seq<nat>, r: Taken): seq<Emission>
    requires Fit(r)
  {
    var data := DataOf(r.f, r.frame);
    var name := TextOf(env, data, "Name");
    if r.f.name != "PARM" || name.None? then out
    else
      out + [Parameter(|out|, Drops(times), Last(times), name.value, ValueIn(data, "Value"), !Named(out, Drops(times), name.value))]
  }

  function WithEvent(env: Outside, out: seq<Emission>, times: seq<nat>, r: Taken): seq<Emission>
    requires Fit(r)
  {
    var data := DataOf(r.f, r.frame);
    var kind := EventKindOf(r.f.name);
    if kind.None? then out
    else out + [Event(|out|, Drops(times), Last(times), SinceStart(times), kind.value, MessageOf(env, r.f, data), data)]
  }

  /** The state is what the history of records leaves behind. */
  ghost predicate Tells(env: Outside, st: State, past: seq<Taken>) {
    && AllFit(past) && st.out == Told(env, past) && Remembers(st, Times(env, past))
  }

  ghost predicate Remembers(st: State, times: seq<nat>) {
    && st.seqNo == |st.out| && st.stamps == times && st.bootId == Drops(times) && st.lastTime == Last(times)
    && st.bootStart == (if times == [] then None else Some(SegmentStart(times)))
    && forall bootId: nat, name: string :: (bootId, name) in st.seen <==> Named(st.out, bootId, name)
  }

  lemma NamedSnoc(out: seq<Emission>, e: Emission, bootId: nat, name: string)
    ensures Named(out + [e], bootId, name)
            <==> Named(out, bootId, name) || (e.Parameter? && e.bootId == bootId && e.name == name)
  {
    var more := out + [e];
    assert more[|out|] == e && forall i :: 0 <= i < |out| ==> more[i] == out[i];
  }

  lemma EmitRemembers(st: State, times: seq<nat>, counts: Counts, seen: set<(nat, string)>, e: Emission)
    requires Remembers(st, times)
    requires seen == if e.Parameter? then st.seen + {(e.bootId, e.name)} else st.seen
    ensures Remembers(Emit(st.(counts := counts, seen := seen), e), times)
  {
    hide Named, Drops, SegmentStart;
    forall bootId: nat, name: string
      ensures (bootId, name) in seen <==> Named(st.out + [e], bootId, name)
    {
      NamedSnoc(st.out, e, bootId, name);
    }
  }

  lemma StampTells(st: State, times: seq<nat>, time: nat)
    requires Remembers(st, times)
    ensures Remembers(Stamp(st, time), times + [time])
    ensures Stamp(st, time).out == WithBoundary(st.out, times, times + [time])
    ensures var n := Stamp(st, time); n.formats == st.formats
  {
    hide Named, Drops, SegmentStart;
    var later := times + [time];
    DropsSnoc(times, time);
    SegmentSnoc(times, time);
    if st.lastTime.Some? && time < st.lastTime.value {
      var e := Event(st.seqNo, st.bootId + 1, Some(time), Some(0), BootBoundary, None, map[]);
      forall bootId: nat, name: string ensures Named(st.out + [e], bootId, name) <==> Named(st.out, bootId, name) {
        NamedSnoc(st.out, e, bootId, name);
      }
    }
  }

  lemma SegmentSnoc(times: seq<nat>, time: nat)
    ensures SegmentStart(times + [time])
            == if times == [] || time < times[|times| - 1] then time else SegmentStart(times)
  {
    assert (times + [time])[..|times|] == times;
  }

  lemma AddingTells(env: Outside, st: State, times: seq<nat>, r: Taken)
    requires Remembers(st, times) && Fit(r)
    ensures var s := AddRecord(st, r.f, r.frame, DataOf(r.f, r.frame));
            Remembers(s, times) && s.out == WithRecord(st.out, times, r)
    ensures var s := AddEvent(env, st, r.f, DataOf(r.f, r.frame));
            Remembers(s, times) && s.out == WithEvent(env, st.out, times, r)
  {
    hide Named, Drops, SegmentStart, DataOf, TextOf, EventKindOf, Sound, Remembers, MessageOf, ValueIn, ElapsedOf, SinceStart;
    var data := DataOf(r.f, r.frame);
    RemembersTime(st, times);
    EmitRemembers(st, times, st.counts.(records := st.counts.records + 1, recordBytes := st.counts.recordBytes + |r.frame|), st.seen,
                  Record(st.seqNo, st.bootId, st.lastTime, ElapsedOf(st, st.lastTime), r.f.id, r.f.revision, r.frame, data));
    var kind := EventKindOf(r.f.name);
    if kind.Some? {
      EmitRemembers(st, times, st.counts.(events := st.counts.events + 1), st.seen,
                    Event(st.seqNo, st.bootId, st.lastTime, ElapsedOf(st, st.lastTime), kind.value, MessageOf(env, r.f, data), data));
    }
  }

  lemma ParameterTells(env: Outside, st: State, times: seq<nat>, r: Taken)
    requires Remembers(st, times) && Fit(r)
    ensures var s := AddParameter(env, st, r.f, DataOf(r.f, r.frame));
            Remembers(s, times) && s.out == WithParameter(env, st.out, times, r)
  {
    hide Named, Drops, SegmentStart, DataOf, TextOf, Sound, Remembers, ValueIn, ElapsedOf, SinceStart;
    var data := DataOf(r.f, r.frame);
    RemembersTime(st, times);
    var name := TextOf(env, data, "Name");
    if name.Some? {
      RemembersSeen(st, times, name.value);
      EmitRemembers(st, times, st.counts.(parameters := st.counts.parameters + 1), st.seen + {(st.bootId, name.value)},
                    Parameter(st.seqNo, st.bootId, st.lastTime, name.value, ValueIn(data, "Value"), (st.bootId, name.value) !in st.seen));
    }
  }

  lemma RecordTells(env: Outside, st: State, past: seq<Taken>, r: Taken)
    requires Tells(env, st, past) && Fit(r)
    ensures Tells(env, TakeRecord(env, st, r.f, r.frame), past + [r])
    ensures TakeRecord(env, st, r.f, r.frame).formats == st.formats
  {
    hide Named, Drops, SegmentStart, DataOf, TimeOf, Stamp, Remembers, AddRecord, AddParameter, AddEvent;
    hide WithBoundary, WithRecord, WithParameter, WithEvent, Sound;
    var all := past + [r];
    assert all[..|all| - 1] == past && all[|all| - 1] == r;
    var data := DataOf(r.f, r.frame);
    var stamp, before, times := TimeOf(env, data), Times(env, past), Times(env, all);
    var s1 := AddStamp(env, st, data);
    if stamp.Some? {
      StampTells(st, before, stamp.value);
    } else {
      assert times == before;
      NoBoundary(st.out, times);
    }
    AddingTells(env, s1, times, r);
    var s2 := AddRecord(s1, r.f, r.frame, data);
    ParameterTells(env, s2, times, r);
    AddingTells(env, AddParameter(env, s2, r.f, data), times, r);
    TakeRecordEmits(env, st, r.f, r.frame);
  }

  lemma NoBoundary(out: seq<Emission>, times: seq<nat>)
    ensures WithBoundary(out, times, times) == out
  {
  }

  lemma RemembersTime(st: State, times: seq<nat>)
    requires Remembers(st, times)
    ensures ElapsedOf(st, st.lastTime) == SinceStart(times) && st.lastTime == Last(times) && st.bootId == Drops(times)
    ensures st.seqNo == |st.out|
  {
    hide Named, Drops, SegmentStart;
  }

  lemma RemembersSeen(st: State, times: seq<nat>, name: string)
    requires Remembers(st, times)
    ensures (st.bootId, name) in st.seen <==> Named(st.out, st.bootId, name)
  {
    hide Named, Drops, SegmentStart;
  }

  lemma NothingTold(env: Outside)
    ensures Tells(env, EMPTY, []) && AllSound(EMPTY.formats)
  {
    hide Named, SegmentStart;
    assert forall bootId: nat, name: string :: !Named([], bootId, name) by {
      NamedNever();
    }
  }

  lemma NamedNever()
    ensures forall bootId: nat, name: string :: !Named([], bootId, name)
  {
  }

  lemma OthersTellNothing(env: Outside, st: State, past: seq<Taken>, t: State)
    requires Tells(env, st, past) && t == st.(formats := t.formats, counts := t.counts)
    ensures Tells(env, t, past)
  {
    hide Named, Drops, SegmentStart, Told, Times;
  }

  /** From any position on, a decode tells of the records walked over and of nothing else. */
  lemma {:induction false} DecodeTells(env: Outside, source: bytes, pos: nat, st: State, past: seq<Taken>)
    requires AllSound(st.formats) && Tells(env, st, past)
    ensures Tells(env, Decode(env, source, pos, st).0, past + Walk(source, pos, st.formats))
    decreases |source| - pos
  {
    hide Decode, Look, TakeRecord, AllSound, Sound, Told, Times, Remembers;
    DecodeUnfolds(env, source, pos, st);
    LookIsSound(source, pos, st.formats);
    var found := Look(source, pos, st.formats);
    if found.End? || found.Truncated? {
      assert past + [] == past;
    } else if found.Frame? {
      var r := Taken(found.f, found.frame);
      RecordTells(env, st, past, r);
      DecodeTells(env, source, pos + Consumed(found), Act(env, st, found), past + [r]);
      assert past + Walk(source, pos, st.formats) == past + [r] + Walk(source, pos + found.f.length, st.formats);
    } else {
      OthersTellNothing(env, st, past, Act(env, st, found));
      DecodeTells(env, source, pos + Consumed(found), Act(env, st, found), past);
    }
  }

  /** For any bytes at all, what the decoder says is exactly what the records it takes say. */
  lemma LogTold(env: Outside, source: bytes)
    ensures AllSound(map[]) && AllFit(Walk(source, 0, map[]))
    ensures Decode(env, source, 0, EMPTY).0.out == Told(env, Walk(source, 0, map[]))
  {
    hide Decode, Walk, Told, Times, Remembers;
    NothingTold(env);
    DecodeTells(env, source, 0, EMPTY, []);
    assert [] + Walk(source, 0, EMPTY.formats) == Walk(source, 0, EMPTY.formats);
  }
}
