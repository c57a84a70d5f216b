/** Downloading a DataFlash log whose advertised size may be too large: data passes, end-of-log markers, truncation. */
module LogDownload {
  import opened Bytes
  import opened Intervals
  import opened PartFiles

  const CHUNK_SIZE := 90
  const MAX_NO_PROGRESS_PASSES := 5
  const DATA_PASS_FRAME_SLACK := 64
  const DATA_PASS_NO_PROGRESS_FRAMES := 256

  /** What happens while a pass is running; it also ends when nothing more happens. */
  datatype LogEvent = Data(ourLog: bool, ofs: nat, count: nat, data: bytes) | WritesDone(n: nat) | CancelAsked

  /** The flight controller and everything else outside, given the pass and the range requested in it. */
  type Streamer = (nat, nat, nat) -> seq<LogEvent>

  predicate IsEndMarker(e: LogEvent, reqEnd: nat) {
    e.Data? && e.count < CHUNK_SIZE && e.ofs + e.count < reqEnd
  }

  function Slice(e: LogEvent): bytes
    requires e.Data?
  {
    if e.count < |e.data| then e.data[..e.count] else e.data
  }

  predicate Touches(missing: Intervals, lo: int, hi: int) {
    exists i :: 0 <= i < |missing| && missing[i].lo < hi && missing[i].hi > lo
  }

  datatype AfterChunk = GoOn | EndPass

  /** What a chunk does to the missing list, the size and the pass, if no resource limit is hit. A short chunk below the
      requested end cuts the log. */
  function OneChunk(e: LogEvent, m: Intervals, size: nat, reqStart: nat, reqEnd: nat): (Intervals, nat, AfterChunk)
    requires e.Data?
  {
    var m' := if e.count > 0 then Subtract(m, e.ofs, Clipped(e.ofs + |Slice(e)|, size)) else m;
    var chunkEnd := e.ofs + e.count;
    if !IsEndMarker(e, reqEnd) then (m', size, if Touches(m', reqStart, reqEnd) then GoOn else EndPass)
    else if chunkEnd < size then (Subtract(m', chunkEnd, size), chunkEnd, EndPass)
    else (m', size, EndPass)
  }

  /** What a chunk brings is no longer missing, and a marker below the size makes its end the size and takes everything
      beyond off the missing list. */
  lemma ChunkMeans(e: LogEvent, m: Intervals, size: nat, reqStart: nat, reqEnd: nat, x: int)
    requires e.Data? && Proper(m, 0, size)
    ensures var (m', size', next) := OneChunk(e, m, size, reqStart, reqEnd);
            && size' == (if e.count < 90 && e.ofs + e.count < reqEnd && e.ofs + e.count < size then e.ofs + e.count else size)
            && (Covers(m', x) <==> Covers(m, x) && !(e.ofs <= x < e.ofs + Brought(e)) && x < size')
  {
    hide Subtract, Proper, Covers, Touches;
    var m1 := if e.count > 0 then Subtract(m, e.ofs, Clipped(e.ofs + |Slice(e)|, size)) else m;
    BroughtBy(e, m, size, x);
    CoveredIsBelow(m, 0, size, x);
    SubtractCovers(m1, e.ofs + e.count, size, x);
  }

  /** The pass ends with a marker, or when nothing of the requested range is missing any more. */
  lemma ChunkEnds(e: LogEvent, m: Intervals, size: nat, reqStart: nat, reqEnd: nat)
    requires e.Data? && Proper(m, 0, size) && reqStart < reqEnd
    ensures OneChunk(e, m, size, reqStart, reqEnd).2.EndPass?
            <==> (e.count < 90 && e.ofs + e.count < reqEnd) || BringsAll(e, m, reqStart, reqEnd)
  {
    hide Subtract, Proper, Covers, Touches, Brought, Slice, Clipped;
    var m1 := if e.count > 0 then Subtract(m, e.ofs, Clipped(e.ofs + |Slice(e)|, size)) else m;
    SubtractKeepsProper(m, 0, size, e.ofs, Clipped(e.ofs + |Slice(e)|, size));
    forall y ensures Covers(m1, y) <==> Covers(m, y) && !(e.ofs <= y < e.ofs + Brought(e)) {
      BroughtBy(e, m, size, y);
    }
    var y := TouchesMeans(m1, 0, size, reqStart, reqEnd);
    EndsWhen(e, m, size, reqStart, reqEnd);
    if !Touches(m1, reqStart, reqEnd) {
      forall z | reqStart <= z < reqEnd && Covers(m, z) ensures e.ofs <= z < e.ofs + Brought(e) {
        assert !Covers(m1, z);
      }
    } else {
      assert Covers(m1, y) && !BringsAll(e, m, reqStart, reqEnd);
    }
  }

  lemma EndsWhen(e: LogEvent, m: Intervals, size: nat, reqStart: nat, reqEnd: nat)
    requires e.Data?
    ensures var m1 := if e.count > 0 then Subtract(m, e.ofs, Clipped(e.ofs + |Slice(e)|, size)) else m;
            OneChunk(e, m, size, reqStart, reqEnd).2.EndPass?
            <==> (e.count < 90 && e.ofs + e.count < reqEnd) || !Touches(m1, reqStart, reqEnd)
  {
    hide Subtract, Touches, Slice, Clipped;
  }

  /** Whatever is missing of this range, the chunk brings. */
  ghost predicate BringsAll(e: LogEvent, m: Intervals, lo: int, hi: int)
    requires e.Data?
  {
    forall y :: lo <= y < hi && Covers(m, y) ==> e.ofs <= y < e.ofs + Brought(e)
  }

  function Brought(e: LogEvent): nat
    requires e.Data?
  {
    if e.count < |e.data| then e.count else |e.data|
  }

  lemma BroughtBy(e: LogEvent, m: Intervals, size: nat, y: int)
    requires e.Data? && Proper(m, 0, size)
    ensures var m1 := if e.count > 0 then Subtract(m, e.ofs, Clipped(e.ofs + |Slice(e)|, size)) else m;
            Covers(m1, y) <==> Covers(m, y) && !(e.ofs <= y < e.ofs + Brought(e))
  {
    hide Subtract, Proper, Covers;
    SubtractCovers(m, e.ofs, Clipped(e.ofs + |Slice(e)|, size), y);
    CoveredIsBelow(m, 0, size, y);
  }

  lemma {:induction false} CoveredIsBelow(m: Intervals, from: nat, size: nat, x: int)
    requires Proper(m, from, size)
    ensures Covers(m, x) ==> from <= x < size
  {
    if m != [] {
      CoveredIsBelow(m[1..], m[0].hi, size, x);
    }
  }

  /** A list of missing ranges touches a range exactly if some byte of it is missing. */
  lemma {:induction false} TouchesMeans(m: Intervals, from: nat, size: nat, lo: int, hi: int) returns (y: int)
    requires Proper(m, from, size) && lo < hi
    ensures Touches(m, lo, hi) ==> lo <= y < hi && Covers(m, y)
    ensures forall z :: lo <= z < hi && Covers(m, z) ==> Touches(m, lo, hi)
  {
    y := lo;
    if m != [] {
      var rest := m[1..];
      y := TouchesMeans(rest, m[0].hi, size, lo, hi);
      FirstOrRest(m, lo, hi);
      if m[0].lo < hi && m[0].hi > lo {
        y := if lo < m[0].lo then m[0].lo else lo;
      }
    }
  }

  lemma FirstOrRest(m: Intervals, lo: int, hi: int)
    requires m != []
    ensures Touches(m, lo, hi) <==> (m[0].lo < hi && m[0].hi > lo) || Touches(m[1..], lo, hi)
  {
    assert forall i :: 0 <= i < |m| - 1 ==> m[1..][i] == m[i + 1];
    if i :| 0 <= i < |m| && m[i].lo < hi && m[i].hi > lo {
      assert i > 0 ==> m[1..][i - 1] == m[i];
    }
    if i :| 0 <= i < |m[1..]| && m[1..][i].lo < hi && m[1..][i].hi > lo {
      assert m[i + 1] == m[1..][i];
    }
  }

  /** The chunks of this log among the events. */
  function OurChunks(events: seq<LogEvent>): (chunks: seq<LogEvent>)
    ensures forall e :: e in chunks ==> e.Data?
  {
    if events == [] then []
    else (if events[0].Data? && events[0].ourLog then [events[0]] else []) + OurChunks(events[1..])
  }

  /** The missing list, the size and the frame count a pass ends with, if no resource limit is hit: chunks count until
      one ends the pass, is beyond the budget, or follows too many without progress. */
  function AfterData(chunks: seq<LogEvent>, m: Intervals, size: nat, reqStart: nat, reqEnd: nat,
                     frames: nat, idle: nat, maxFrames: nat): (Intervals, nat, nat)
    requires forall e :: e in chunks ==> e.Data?
  {
    if chunks == [] then (m, size, frames)
    else if frames >= maxFrames || idle >= DATA_PASS_NO_PROGRESS_FRAMES then (m, size, frames + 1)
    else
      var (m', size', next) := OneChunk(chunks[0], m, size, reqStart, reqEnd);
      if next.EndPass? then (m', size', frames + 1)
      else AfterData(chunks[1..], m', size', reqStart, reqEnd, frames + 1,
                     if Remaining(m') < Remaining(m) then 0 else idle + 1, maxFrames)
  }

  function FrameBudget(reqStart: nat, reqEnd: nat): (budget: nat)
    requires reqStart <= reqEnd
    ensures budget * CHUNK_SIZE >= 2 * (reqEnd - reqStart)
  {
    (reqEnd - reqStart + CHUNK_SIZE - 1) / CHUNK_SIZE * 2 + DATA_PASS_FRAME_SLACK
  }

  lemma AfterNext(events: seq<LogEvent>, i: nat, m: Intervals, size: nat, reqStart: nat, reqEnd: nat,
                  frames: nat, idle: nat, maxFrames: nat)
    requires i < |events|
    ensures var e := events[i];
            var now := AfterData(OurChunks(events[i..]), m, size, reqStart, reqEnd, frames, idle, maxFrames);
            if !(e.Data? && e.ourLog) then now == AfterData(OurChunks(events[i + 1..]), m, size, reqStart, reqEnd, frames, idle, maxFrames)
            else if frames >= maxFrames || idle >= DATA_PASS_NO_PROGRESS_FRAMES then now == (m, size, frames + 1)
            else
              var (m', size', next) := OneChunk(e, m, size, reqStart, reqEnd);
              now == if next.EndPass? then (m', size', frames + 1)
                     else AfterData(OurChunks(events[i + 1..]), m', size', reqStart, reqEnd, frames + 1,
                                    if Remaining(m') < Remaining(m) then 0 else idle + 1, maxFrames)
  {
    hide OneChunk, Remaining;
    NextOurs(events, i);
  }

  lemma AfterNothing(none: seq<LogEvent>, m: Intervals, size: nat, reqStart: nat, reqEnd: nat, frames: nat, idle: nat, maxFrames: nat)
    requires none == []
    ensures AfterData(OurChunks(none), m, size, reqStart, reqEnd, frames, idle, maxFrames) == (m, size, frames)
  {
  }

  lemma NextOurs(events: seq<LogEvent>, i: nat)
    requires i < |events|
    ensures var rest, e := OurChunks(events[i + 1..]), events[i];
            if e.Data? && e.ourLog then OurChunks(events[i..]) == [e] + rest && OurChunks(events[i..])[1..] == rest
            else OurChunks(events[i..]) == rest
  {
    assert events[i..][1..] == events[i + 1..];
  }

  /** One chunk of the log: write it, then look for the end-of-log marker and for the end of the request. A marker is
      trusted wherever it comes from. */
  method TakeData(p: PartFile, e: LogEvent, reqStart: nat, reqEnd: nat)
    returns (next: AfterChunk, added: int)
    requires p.Valid() && e.Data? && p.resourceLimit.None?
    modifies p`missing, p`queue, p`resourceLimit, p`totalSize
    ensures p.Valid() && p.OnlyProgress() && p.cancelRequested == old(p.cancelRequested)
    ensures p.totalSize == (if IsEndMarker(e, reqEnd) && p.resourceLimit.None? && e.ofs + e.count < old(p.totalSize)
                            then e.ofs + e.count else old(p.totalSize))
    ensures old(p.Exact()) && Truthful(p.remote, old(p.totalSize), e.ofs, Slice(e)) ==> p.Exact()
    ensures added < 0 <==> p.resourceLimit.Some?
    ensures added < 0 || IsEndMarker(e, reqEnd) ==> next.EndPass?
    ensures next.GoOn? ==> Remaining(p.missing) == Remaining(old(p.missing)) - added && p.totalSize == old(p.totalSize)
    ensures added >= 0 ==> (p.missing, p.totalSize, next) == OneChunk(e, old(p.missing), old(p.totalSize), reqStart, reqEnd)
    ensures (e.ofs + |Slice(e)| <= old(p.totalSize)
             && |Subtract(old(p.missing), e.ofs, e.ofs + |Slice(e)|)| <= HARD_MAX_INTERVALS
             && |old(p.queue)| < MAX_QUEUED_FILE_WRITES)
            ==> added >= 0
  {
    hide Matches, Proper, Applied, Subtract, Within, Truthful, PartFile.Exact;
    added := 0;
    WithinItself(p.missing);
    if e.count > 0 {
      added := p.TakeChunk(e.ofs, Slice(e));
    } else {
      NothingToSubtract(p.missing, e.ofs);
    }
    if added < 0 {
      return EndPass, added;
    }
    ghost var between := p.missing;
    if e.count < CHUNK_SIZE && e.ofs + e.count < reqEnd {
      p.TruncateTo(e.ofs + e.count);
      WithinChains(p.missing, between, old(p.missing));
      return EndPass, added;
    }
    next := if Touches(p.missing, reqStart, reqEnd) then GoOn else EndPass;
  }

  lemma NothingToSubtract(m: Intervals, at: int)
    ensures Subtract(m, at, at) == m
  {
  }

  /** `TakeData`, and what it achieves when `e` is the chunk that is due. */
  method TakeDue(p: PartFile, e: LogEvent, reqStart: nat, reqEnd: nat,
                 ghost due: bool, ghost offset: nat, ghost others: Intervals)
    returns (next: AfterChunk, added: int)
    requires p.Valid() && e.Data? && p.resourceLimit.None?
    requires due ==> IsNextChunk(e, p.remote, offset, reqEnd) && reqStart <= offset < reqEnd
                     && p.missing == [Interval(offset, reqEnd)] + others && |p.queue| < MAX_QUEUED_FILE_WRITES
    modifies p`missing, p`queue, p`resourceLimit, p`totalSize
    ensures p.Valid() && p.OnlyProgress() && p.totalSize <= old(p.totalSize)
    ensures old(p.Exact()) && Truthful(p.remote, old(p.totalSize), e.ofs, Slice(e)) ==> p.Exact()
    ensures next.GoOn? ==> p.resourceLimit.None? && p.totalSize == old(p.totalSize)
    ensures p.resourceLimit.Some? ==> next.EndPass?
    ensures p.resourceLimit.None? ==>
              (p.missing, p.totalSize, next) == OneChunk(e, old(p.missing), old(p.totalSize), reqStart, reqEnd)
              && (next.GoOn? ==> (added > 0 <==> Remaining(p.missing) < Remaining(old(p.missing))))
    ensures due ==> p.resourceLimit.None?
    ensures due && next.EndPass? ==>
              && p.missing == (if |p.remote| < reqEnd then [] else others)
              && p.totalSize == if |p.remote| < reqEnd then |p.remote| else old(p.totalSize)
    ensures due && next.GoOn? ==> e.count == CHUNK_SIZE && offset + CHUNK_SIZE < reqEnd && added > 0
                                  && p.missing == [Interval(offset + CHUNK_SIZE, reqEnd)] + others
  {
    hide Matches, Proper, Applied, Subtract, Within, Truthful, Touches, Slice, IsNextChunk, IsEndMarker,
         PartFile.Exact;
    if due {
      NextChunkMeans(p.remote, offset, reqEnd, e);
      ServedChunk(p.totalSize, p.missing, offset, e.count, reqStart, reqEnd, others);
    }
    next, added := TakeData(p, e, reqStart, reqEnd);
  }

  /** One data pass: ask for the first missing range and take chunks until it is filled, the log ends, a limit or a
      budget is hit, or nothing more arrives. If exactly the requested range is streamed, it is filled; or, when the
      log ends inside it, nothing at all is missing any more and the size is the true one. */
  method DataPass(p: PartFile, pass: nat, stream: Streamer) returns (frames: nat)
    requires p.Valid() && p.missing != [] && p.resourceLimit.None?
    modifies p, p.file
    ensures p.Valid() && p.OnlyProgress() && p.totalSize <= old(p.totalSize)
    ensures old(p.Exact()) && TrueEvents(stream(pass, old(p.missing[0].lo), old(p.missing[0].hi)), p.remote, old(p.totalSize))
            ==> p.Exact()
    ensures var start, end := old(p.missing[0].lo), old(p.missing[0].hi);
            start <= |p.remote| && stream(pass, start, end) == Streamed(p.remote, start, end) ==>
              p.cancelRequested == old(p.cancelRequested) && p.resourceLimit.None?
              && p.missing == (if |p.remote| < end then [] else old(p.missing)[1..])
              && p.totalSize == if |p.remote| < end then |p.remote| else old(p.totalSize)
    ensures p.resourceLimit.None? ==>
              var start, end := old(p.missing[0].lo), old(p.missing[0].hi);
              (p.missing, p.totalSize, frames)
              == AfterData(OurChunks(stream(pass, start, end)), old(p.missing), old(p.totalSize), start, end, 0, 0, FrameBudget(start, end))
  {
    hide Matches, Proper, Applied, Subtract, Within, Truthful, Streamed, IsNextChunk, IsEndMarker, Remaining, Covers,
         OneChunk, AfterData, OurChunks, FrameBudget, Slice, PartFile.Exact;
    frames := 0;
    ProperMeans(p.missing, 0, p.totalSize);
    var reqStart, reqEnd := p.missing[0].lo, p.missing[0].hi;
    ghost var others := p.missing[1..];
    var noProgressFrames := 0;
    var maxFrames := FrameBudget(reqStart, reqEnd);
    var events := stream(pass, reqStart, reqEnd);
    ghost var offset := reqStart;
    ghost var exact := p.Exact() && TrueEvents(events, p.remote, p.totalSize);
    ghost var served := reqStart <= |p.remote| && events == Streamed(p.remote, reqStart, reqEnd);
    WithinItself(p.missing);
    var i := 0;
    while i < |events|
      invariant i <= |events| && p.Valid() && p.OnlyProgress() && p.resourceLimit.None?
      invariant p.totalSize == old(p.totalSize) && 0 <= offset && frames <= maxFrames && (exact ==> p.Exact())
      invariant AfterData(OurChunks(events), old(p.missing), old(p.totalSize), reqStart, reqEnd, 0, 0, maxFrames)
                == AfterData(OurChunks(events[i..]), p.missing, p.totalSize, reqStart, reqEnd, frames, noProgressFrames, maxFrames)
      invariant served ==> p.cancelRequested == old(p.cancelRequested) && frames * CHUNK_SIZE == offset - reqStart
                           && noProgressFrames == 0 && reqStart <= offset < reqEnd && offset <= |p.remote|
                           && p.missing == [Interval(offset, reqEnd)] + others
                           && Upcoming(p, events[i..], offset, reqEnd)
    {
      if served {
        StreamedNext(p.remote, offset, reqEnd);
      }
      var e := events[i];
      AfterNext(events, i, p.missing, p.totalSize, reqStart, reqEnd, frames, noProgressFrames, maxFrames);
      assert events[i..][0] == e && events[i..][1..] == events[i + 1..];
      i := i + 1;
      match e {
        case CancelAsked => p.cancelRequested := true;
        case WritesDone(n) => p.CompleteWrites(n);
        case Data(ourLog, ofs, count, data) =>
          if ourLog {
            frames := frames + 1;
            if frames > maxFrames || noProgressFrames >= DATA_PASS_NO_PROGRESS_FRAMES {
              return;
            }
            ghost var before := p.missing;
            var next, added;
            next, added := TakeDue(p, e, reqStart, reqEnd, served, offset, others);
            WithinChains(p.missing, before, old(p.missing));
            if next.EndPass? {
              return;
            }
            noProgressFrames := if added > 0 then 0 else noProgressFrames + 1;
            offset := offset + CHUNK_SIZE;
          }
      }
    }
    AfterNothing(events[i..], p.missing, p.totalSize, reqStart, reqEnd, frames, noProgressFrames, maxFrames);
    if served {
      StreamedNext(p.remote, offset, reqEnd);
    }
  }

  /** Everything a well-behaved flight controller sends for a request: full chunks up to the requested end, or up to
      the end of the log and then a short one; and a disk that keeps up. */
  ghost function Streamed(remote: bytes, start: nat, end: nat): seq<LogEvent>
    requires start <= |remote|
    decreases end - start
  {
    if start >= end then []
    else
      var n := Least(CHUNK_SIZE, Least(end - start, |remote| - start));
      [WritesDone(1), Data(true, start, n, remote[start..start + n])]
      + if n < CHUNK_SIZE then [] else Streamed(remote, start + n, end)
  }

  /** The next event is a finished write or, with room in the queue, the next chunk. */
  ghost predicate Upcoming(p: PartFile, events: seq<LogEvent>, offset: nat, end: nat)
    reads p
    requires offset <= |p.remote|
  {
    events == Streamed(p.remote, offset, end)
    || (offset < end && events == Streamed(p.remote, offset, end)[1..] && |p.queue| < MAX_QUEUED_FILE_WRITES)
  }

  /** The chunk that is due at `offset`. */
  ghost predicate IsNextChunk(e: LogEvent, remote: bytes, offset: nat, end: nat) {
    && e.Data? && e.ourLog && e.ofs == offset <= |remote|
    && e.count == Least(CHUNK_SIZE, Least(end - offset, |remote| - offset))
    && e.data == remote[offset..offset + e.count]
  }

  lemma StreamedNext(remote: bytes, start: nat, end: nat)
    requires start <= |remote| && start < end
    ensures var es := Streamed(remote, start, end);
            && |es| >= 2 && es[0] == WritesDone(1) && IsNextChunk(es[1], remote, start, end)
            && (es[1].count == CHUNK_SIZE ==> start + CHUNK_SIZE <= |remote| && es[1..][1..] == Streamed(remote, start + CHUNK_SIZE, end))
  {
  }

  lemma NextChunkMeans(remote: bytes, offset: nat, reqEnd: nat, e: LogEvent)
    requires IsNextChunk(e, remote, offset, reqEnd) && offset < reqEnd
    ensures e.Data? && e.ourLog && e.ofs == offset && offset + e.count <= |remote|
    ensures e.count <= CHUNK_SIZE && offset + e.count <= reqEnd && |Slice(e)| == e.count
    ensures IsEndMarker(e, reqEnd) <==> e.count < CHUNK_SIZE && |remote| < reqEnd
    ensures IsEndMarker(e, reqEnd) ==> offset + e.count == |remote|
    ensures offset + e.count < reqEnd && !IsEndMarker(e, reqEnd) ==> e.count == CHUNK_SIZE
    ensures offset + e.count == reqEnd ==> |remote| >= reqEnd
  {
  }

  /** What one streamed chunk does to the missing list. */
  lemma ServedChunk(total: nat, m: Intervals, offset: nat, n: nat, reqStart: nat, reqEnd: nat, others: Intervals)
    requires Proper(m, 0, total) && m == [Interval(offset, reqEnd)] + others
    requires reqStart <= offset < reqEnd && offset + n <= reqEnd
    ensures reqEnd <= total && |Subtract(m, offset, offset + n)| <= |m|
    ensures Remaining(Subtract(m, offset, offset + n)) == Remaining(m) - n
    ensures var m' := Subtract(m, offset, offset + n);
            && (offset + n < reqEnd ==> m' == [Interval(offset + n, reqEnd)] + others && Touches(m', reqStart, reqEnd)
                                        && Subtract(m', offset + n, total) == [])
            && (offset + n == reqEnd ==> m' == others && !Touches(m', reqStart, reqEnd))
  {
    hide Subtract, Proper, Touches;
    var m' := Subtract(m, offset, offset + n);
    ServedRange(m, total, offset, n, reqEnd, others);
    assert m[1..] == others && ([Interval(offset + n, reqEnd)] + others)[1..] == others;
    if offset + n < reqEnd {
      FirstTouches(m', reqStart, reqEnd);
    } else {
      assert [] + others == others;
      RestTouchesNot(others, reqStart, reqEnd, total);
    }
  }

  lemma ServedRange(m: Intervals, total: nat, offset: nat, n: nat, end: nat, others: Intervals)
    requires Proper(m, 0, total) && m == [Interval(offset, end)] + others && offset + n <= end && offset < end
    ensures end <= total && Proper(others, end, total)
    ensures var m' := Subtract(m, offset, offset + n);
            && |m'| <= |m| && m' == (if offset + n < end then [Interval(offset + n, end)] else []) + others
            && (offset + n < end ==> Subtract(m', offset + n, total) == [])
  {
    hide Subtract;
    assert m[1..] == others;
    ProperMeans(m, 0, total);
    if n > 0 {
      TrimFront(m, total, offset, offset + n);
    } else {
      NothingToSubtract(m, offset);
    }
    if offset + n < end {
      var m' := [Interval(offset + n, end)] + others;
      assert m'[1..] == others;
      AllRemoved(m', offset + n, total);
    }
  }

  lemma FirstTouches(m: Intervals, lo: int, hi: int)
    requires m != [] && m[0].lo < hi && m[0].hi > lo
    ensures Touches(m, lo, hi)
  {
  }

  lemma RestTouchesNot(m: Intervals, lo: int, hi: int, total: int)
    requires Proper(m, hi, total)
    ensures !Touches(m, lo, hi)
  {
    ProperMeans(m, hi, total);
  }

  lemma AllRemoved(m: Intervals, from: int, size: int)
    requires Proper(m, from, size) && from < size
    ensures Subtract(m, from, size) == []
  {
    AllGone(m, from, size, from);
  }

  function Least(a: int, b: int): int {
    if a < b then a else b
  }

  /** One pass, and the queued writes that follow it. */
  method OnePass(p: PartFile, pass: nat, stream: Streamer)
    requires p.Valid() && p.missing != [] && p.resourceLimit.None?
    modifies p, p.file
    ensures p.Valid() && p.OnlyProgress() && p.totalSize <= old(p.totalSize) && p.queue == []
    ensures 0 <= Remaining(p.missing) <= Remaining(old(p.missing)) && Asks(old(p.missing))
    ensures p.resourceLimit.None? ==> (p.missing, p.totalSize) == AfterPass(stream, pass, old(p.missing), old(p.totalSize))
    ensures old(p.Exact()) && TrueEvents(stream(pass, old(p.missing[0].lo), old(p.missing[0].hi)), p.remote, old(p.totalSize))
            ==> p.Exact()
    ensures var start, end := old(p.missing[0].lo), old(p.missing[0].hi);
            start <= |p.remote| && stream(pass, start, end) == Streamed(p.remote, start, end) ==>
              p.cancelRequested == old(p.cancelRequested) && p.resourceLimit.None?
              && p.missing == (if |p.remote| < end then [] else old(p.missing)[1..])
              && p.totalSize == if |p.remote| < end then |p.remote| else old(p.totalSize)
  {
    hide Matches, Proper, Applied, Subtract, Within, Truthful, Streamed, Remaining, AfterData, OurChunks, FrameBudget,
         PartFile.Exact, TrueEvents;
    FirstRange(p.missing, p.totalSize);
    var frames := DataPass(p, pass, stream);
    p.CompleteWrites(|p.queue|);
    WithinMeans(p.missing, old(p.missing));
    RemainingPositive(p.missing, 0, p.totalSize);
  }

  /** One pass of a transfer that began with missing list `m` and size `size`, against a peer known to stream what is
      asked or to send true chunks only. */
  method Round(p: PartFile, pass: nat, stream: Streamer, ghost m: Intervals, ghost size: nat, ghost served: bool, ghost exact: bool)
    requires p.Valid() && p.missing != [] && p.resourceLimit.None? && p.totalSize <= size
    requires (p.missing, p.totalSize) == Rounds(stream, m, size, pass)
    requires served ==> StreamsAlways(stream, p.remote) && StartsBelow(p.missing, |p.remote|)
    requires exact ==> p.Exact() && (served || TrueStream(stream, p.remote, size))
    modifies p, p.file
    ensures p.Valid() && p.OnlyProgress() && p.totalSize <= old(p.totalSize) && p.queue == []
    ensures 0 <= Remaining(p.missing) <= Remaining(old(p.missing))
    ensures p.resourceLimit.None? ==> (p.missing, p.totalSize) == Rounds(stream, m, size, pass + 1)
    ensures exact ==> p.Exact()
    ensures served ==> && p.cancelRequested == old(p.cancelRequested) && p.resourceLimit.None?
                       && StartsBelow(p.missing, |p.remote|) && Remaining(p.missing) < Remaining(old(p.missing))
                       && (p.totalSize == old(p.totalSize) || p.totalSize == |p.remote|)
  {
    hide Matches, Proper, Applied, Subtract, Within, Streamed, StreamsAlways, StartsBelow, Remaining, PartFile.Exact, Rounds,
         TrueStream, TrueEvents, AfterPass;
    FirstRange(p.missing, p.totalSize);
    OneRound(stream, m, size, pass);
    if served {
      AsksForOne(stream, p.remote, pass, p.missing, p.totalSize);
      StreamedIsTrue(p.remote, p.missing[0].lo, p.missing[0].hi, p.totalSize);
    } else if exact {
      EventsAreTrue(stream, p.remote, size, pass, p.missing[0].lo, p.missing[0].hi, p.totalSize);
    }
    OnePass(p, pass, stream);
  }

  /** The whole log transfer against any peer. It ends within a number of passes fixed by the advertised size; the
      expected size never grows; and success means every byte below the final size was written. If the chunks sent are
      true, the file is the beginning of the log, and its size is the true size capped by the advertised one exactly
      when no pass ended at a marker below that; so it is if all markers sent are at the true end. Against a peer that
      streams what is asked all of this comes true. */
  method Run(p: PartFile, stream: Streamer)
    returns (failure: Option<Failure>, passes: nat, ghost trace: seq<nat>)
    requires p.Valid() && p.resourceLimit.None? && !p.cancelRequested
    modifies p, p.file
    ensures p.Valid() && p.OnlyProgress() && p.totalSize <= old(p.totalSize)
    ensures p.resourceLimit.None? ==> (p.missing, p.totalSize) == Rounds(stream, old(p.missing), old(p.totalSize), passes)
    ensures failure.None? ==> p.missing == [] && p.queue == [] && p.resourceLimit.None?
    ensures failure.None? && old(p.Exact()) && TrueStream(stream, p.remote, old(p.totalSize)) ==>
              && p.totalSize <= |p.remote| && p.file[..p.totalSize] == p.remote[..p.totalSize]
              && (p.totalSize == Least(|p.remote|, old(p.totalSize))
                  <==> NoCutBelow(stream, old(p.missing), old(p.totalSize), passes, Least(|p.remote|, old(p.totalSize))))
              && (TrueMarkers(stream, |p.remote|) ==> p.totalSize == Least(|p.remote|, old(p.totalSize)))
    ensures passes <= 5 * old(p.totalSize) + 5
    ensures |trace| == passes + 1 && trace[0] == Remaining(old(p.missing)) && trace[passes] == Remaining(p.missing)
    ensures failure == Some(Stalled) ==> Flat(trace, MAX_NO_PROGRESS_PASSES)
    ensures NotFlatBefore(trace, MAX_NO_PROGRESS_PASSES)
    ensures StreamsAlways(stream, p.remote) && StartsBelow(old(p.missing), |p.remote|) ==> failure.None?
    ensures StreamsAlways(stream, p.remote) && StartsBelow(old(p.missing), |p.remote|) && old(p.Exact()) ==>
              p.totalSize == Least(|p.remote|, old(p.totalSize)) && p.file[..p.totalSize] == p.remote[..p.totalSize]
  {
    hide Matches, Proper, Applied, Subtract, Within, Truthful, Streamed, StreamsAlways, StartsBelow, Remaining, Flat, NotFlatBefore,
         PartFile.Exact, Rounds, TrueStream, TrueMarkers, TrueEvents, NoCutBelow, AfterPass, Touches,
         PartFile.Image, Asks, AllFit, IsEndMarker, Slice;
    failure, passes := None, 0;
    var noProgressPasses := 0;
    ghost var served := StreamsAlways(stream, p.remote) && StartsBelow(p.missing, |p.remote|);
    ghost var exact := p.Exact() && (served || TrueStream(stream, p.remote, p.totalSize));
    WithinItself(p.missing);
    RemainingPositive(p.missing, 0, p.totalSize);
    NoRound(stream, p.missing, p.totalSize);
    trace := Begin(Remaining(p.missing), MAX_NO_PROGRESS_PASSES);
    while p.missing != [] && !p.cancelRequested
      invariant p.Valid() && p.OnlyProgress() && p.resourceLimit.None? && failure.None?
      invariant passes > 0 ==> p.queue == []
      invariant (p.missing, p.totalSize) == Rounds(stream, old(p.missing), old(p.totalSize), passes)
      invariant |trace| == passes + 1 && trace[0] == Remaining(old(p.missing)) && trace[passes] == Remaining(p.missing)
      invariant Flat(trace, noProgressPasses) && !Flat(trace, noProgressPasses + 1)
      invariant NotFlatBefore(trace, MAX_NO_PROGRESS_PASSES)
      invariant p.totalSize <= old(p.totalSize) && noProgressPasses < MAX_NO_PROGRESS_PASSES && 0 <= Remaining(p.missing)
      invariant passes + 5 * Remaining(p.missing) + (MAX_NO_PROGRESS_PASSES - noProgressPasses) <= 5 * old(p.totalSize) + 5
      invariant exact ==> p.Exact()
      invariant served ==> !p.cancelRequested && StartsBelow(p.missing, |p.remote|)
                           && (p.totalSize == old(p.totalSize) || p.totalSize == |p.remote|)
      decreases Remaining(p.missing), MAX_NO_PROGRESS_PASSES - noProgressPasses
    {
      var before := p.missing;
      RemainingPositive(p.missing, 0, p.totalSize);
      Round(p, passes, stream, old(p.missing), old(p.totalSize), served, exact);
      passes := passes + 1;
      WithinChains(p.missing, before, old(p.missing));
      trace := Extend(trace, Remaining(p.missing), noProgressPasses, noProgressPasses, MAX_NO_PROGRESS_PASSES);
      if p.resourceLimit.Some? {
        return p.resourceLimit, passes, trace;
      }
      if Remaining(p.missing) < Remaining(before) {
        noProgressPasses := 0;
      } else {
        noProgressPasses := noProgressPasses + 1;
        if noProgressPasses >= MAX_NO_PROGRESS_PASSES {
          return Some(Stalled), passes, trace;
        }
      }
    }
    p.CompleteWrites(|p.queue|);
    if p.cancelRequested {
      return Some(Cancelled), passes, trace;
    }
    if exact {
      WholeBeginning(p);
      SizeIsTrueExactly(stream, old(p.missing), old(p.totalSize), passes, |p.remote|);
    }
  }

  // ---------------------------------------------------------------------------------------------------
  // What the peer's chunks and markers make of the size
  // ---------------------------------------------------------------------------------------------------

  /** The chunks of our log among the events are, below `total`, true slices of the log. */
  ghost predicate TrueEvents(events: seq<LogEvent>, remote: bytes, total: nat) {
    forall i :: 0 <= i < |events| && events[i].Data? && events[i].ourLog
      ==> Truthful(remote, total, events[i].ofs, Slice(events[i]))
  }

  ghost predicate TrueStream(stream: Streamer, remote: bytes, total: nat) {
    forall pass: nat, start: nat, end: nat :: TrueEvents(stream(pass, start, end), remote, total)
  }

  /** The end markers of our log among the events stand at the true end. */
  ghost predicate MarkersAt(events: seq<LogEvent>, reqEnd: nat, size: nat) {
    forall i :: 0 <= i < |events| && IsEndMarker(events[i], reqEnd) && events[i].ourLog
      ==> events[i].ofs + events[i].count == size
  }

  ghost predicate TrueMarkers(stream: Streamer, size: nat) {
    forall pass: nat, start: nat, end: nat :: MarkersAt(stream(pass, start, end), end, size)
  }

  lemma EventsAreTrue(stream: Streamer, remote: bytes, total: nat, pass: nat, start: nat, end: nat, shorter: nat)
    requires TrueStream(stream, remote, total) && shorter <= total
    ensures TrueEvents(stream(pass, start, end), remote, shorter)
  {
    hide Truthful, Slice;
    var events := stream(pass, start, end);
    assert TrueEvents(events, remote, total);
    forall i | 0 <= i < |events| && events[i].Data? && events[i].ourLog
      ensures Truthful(remote, shorter, events[i].ofs, Slice(events[i]))
    {
      TruthfulBelow(remote, total, shorter, events[i].ofs, Slice(events[i]));
    }
  }

  lemma {:induction false} StreamedIsTrue(remote: bytes, start: nat, end: nat, total: nat)
    requires start <= |remote|
    ensures TrueEvents(Streamed(remote, start, end), remote, total)
    decreases end - start
  {
    hide Truthful;
    if start < end {
      var n := Least(CHUNK_SIZE, Least(end - start, |remote| - start));
      IsSlice(remote, total, start, start + n);
      assert Slice(Data(true, start, n, remote[start..start + n])) == remote[start..start + n];
      if n == CHUNK_SIZE {
        StreamedIsTrue(remote, start + n, end, total);
      }
    }
  }

  /** The marker with which a pass ends, if it ends with one: where it puts the end of the log. */
  function Cut(chunks: seq<LogEvent>, m: Intervals, size: nat, reqStart: nat, reqEnd: nat,
               frames: nat, idle: nat, maxFrames: nat): Option<nat>
    requires forall e :: e in chunks ==> e.Data?
  {
    if chunks == [] || frames >= maxFrames || idle >= DATA_PASS_NO_PROGRESS_FRAMES then None
    else if IsEndMarker(chunks[0], reqEnd) then Some(chunks[0].ofs + chunks[0].count)
    else
      var (m', size', next) := OneChunk(chunks[0], m, size, reqStart, reqEnd);
      if next.EndPass? then None
      else Cut(chunks[1..], m', size', reqStart, reqEnd, frames + 1,
               if Remaining(m') < Remaining(m) then 0 else idle + 1, maxFrames)
  }

  predicate Asks(m: Intervals) {
    m != [] && 0 <= m[0].lo <= m[0].hi
  }

  /** The missing list and the size after pass `pass`, if no resource limit is hit. */
  function AfterPass(stream: Streamer, pass: nat, m: Intervals, size: nat): (Intervals, nat)
    requires Asks(m)
  {
    var lo, hi := m[0].lo, m[0].hi;
    var after := AfterData(OurChunks(stream(pass, lo, hi)), m, size, lo, hi, 0, 0, FrameBudget(lo, hi));
    (after.0, after.1)
  }

  function CutIn(stream: Streamer, pass: nat, m: Intervals, size: nat): Option<nat>
    requires Asks(m)
  {
    var lo, hi := m[0].lo, m[0].hi;
    Cut(OurChunks(stream(pass, lo, hi)), m, size, lo, hi, 0, 0, FrameBudget(lo, hi))
  }

  /** The missing list and the size after `n` passes. */
  function Rounds(stream: Streamer, m: Intervals, size: nat, n: nat): (Intervals, nat) {
    if n == 0 then (m, size)
    else
      var before := Rounds(stream, m, size, n - 1);
      if Asks(before.0) then AfterPass(stream, n - 1, before.0, before.1) else before
  }

  /** The marker with which pass `k` of a run ends, if it ends with one. */
  function CutOf(stream: Streamer, m: Intervals, size: nat, k: nat): Option<nat> {
    var before := Rounds(stream, m, size, k);
    if Asks(before.0) then CutIn(stream, k, before.0, before.1) else None
  }

  /** None of the first `n` passes ends at a marker below `limit`. */
  ghost predicate NoCutBelow(stream: Streamer, m: Intervals, size: nat, n: nat, limit: nat) {
    forall k: nat :: k < n && CutOf(stream, m, size, k).Some? ==> CutOf(stream, m, size, k).value >= limit
  }

  lemma NoRound(stream: Streamer, m: Intervals, size: nat)
    ensures Rounds(stream, m, size, 0) == (m, size)
  {
  }

  lemma OneRound(stream: Streamer, m: Intervals, size: nat, n: nat)
    requires Asks(Rounds(stream, m, size, n).0)
    ensures var before := Rounds(stream, m, size, n);
            Rounds(stream, m, size, n + 1) == AfterPass(stream, n, before.0, before.1)
  {
  }

  lemma FirstRange(m: Intervals, size: nat)
    requires Proper(m, 0, size) && m != []
    ensures Asks(m)
  {
  }

  lemma {:induction false} CutDecides(chunks: seq<LogEvent>, m: Intervals, size: nat, reqStart: nat, reqEnd: nat,
                                      frames: nat, idle: nat, maxFrames: nat)
    requires forall e :: e in chunks ==> e.Data?
    ensures var cut := Cut(chunks, m, size, reqStart, reqEnd, frames, idle, maxFrames);
            && AfterData(chunks, m, size, reqStart, reqEnd, frames, idle, maxFrames).1
               == (if cut.Some? && cut.value < size then cut.value else size)
            && (cut.Some? ==> exists e :: e in chunks && IsEndMarker(e, reqEnd) && e.ofs + e.count == cut.value)
    decreases |chunks|
  {
    hide Subtract, Touches, Slice, Remaining, Clipped;
    if chunks != [] && frames < maxFrames && idle < DATA_PASS_NO_PROGRESS_FRAMES && !IsEndMarker(chunks[0], reqEnd) {
      var (m', size', next) := OneChunk(chunks[0], m, size, reqStart, reqEnd);
      if next.GoOn? {
        CutDecides(chunks[1..], m', size', reqStart, reqEnd, frames + 1, if Remaining(m') < Remaining(m) then 0 else idle + 1, maxFrames);
      }
    } else if chunks != [] {
      assert chunks[0] in chunks;
    }
  }

  lemma {:induction false} OursAreAmong(events: seq<LogEvent>)
    ensures forall e :: e in OurChunks(events) ==> e in events && e.Data? && e.ourLog
  {
    if events != [] {
      OursAreAmong(events[1..]);
    }
  }

  /** The size after `n` passes is the least of the advertised size and the markers with which they ended. */
  lemma {:induction false} SizeIsLeast(stream: Streamer, m: Intervals, size: nat, n: nat)
    ensures Rounds(stream, m, size, n).1 <= size
    ensures forall k: nat :: k < n && CutOf(stream, m, size, k).Some? ==> Rounds(stream, m, size, n).1 <= CutOf(stream, m, size, k).value
    ensures Rounds(stream, m, size, n).1 == size
            || exists k: nat :: k < n && CutOf(stream, m, size, k) == Some(Rounds(stream, m, size, n).1)
  {
    hide AfterData, Cut, OurChunks, FrameBudget;
    if n > 0 {
      SizeIsLeast(stream, m, size, n - 1);
      var before := Rounds(stream, m, size, n - 1);
      if Asks(before.0) {
        var lo, hi := before.0[0].lo, before.0[0].hi;
        CutDecides(OurChunks(stream(n - 1, lo, hi)), before.0, before.1, lo, hi, 0, 0, FrameBudget(lo, hi));
        assert CutOf(stream, m, size, n - 1) == CutIn(stream, n - 1, before.0, before.1);
      }
    }
  }

  lemma CutsAreMarkers(stream: Streamer, m: Intervals, size: nat, k: nat, trueSize: nat)
    requires TrueMarkers(stream, trueSize)
    ensures CutOf(stream, m, size, k).Some? ==> CutOf(stream, m, size, k).value == trueSize
  {
    hide AfterData, Cut, FrameBudget, Rounds;
    var before := Rounds(stream, m, size, k);
    if Asks(before.0) {
      var lo, hi := before.0[0].lo, before.0[0].hi;
      var events := stream(k, lo, hi);
      OursAreAmong(events);
      CutDecides(OurChunks(events), before.0, before.1, lo, hi, 0, 0, FrameBudget(lo, hi));
      assert MarkersAt(events, hi, trueSize);
    }
  }

  /** If what was received is true, so that the final size cannot exceed the log's, it is the right one exactly when no
      pass ended at a marker below it. */
  lemma SizeIsTrueExactly(stream: Streamer, m: Intervals, size: nat, n: nat, trueSize: nat)
    requires Rounds(stream, m, size, n).1 <= trueSize
    ensures Rounds(stream, m, size, n).1 == Least(trueSize, size) <==> NoCutBelow(stream, m, size, n, Least(trueSize, size))
    ensures TrueMarkers(stream, trueSize) ==> NoCutBelow(stream, m, size, n, Least(trueSize, size))
  {
    hide Rounds, CutOf, TrueMarkers;
    SizeIsLeast(stream, m, size, n);
    if TrueMarkers(stream, trueSize) {
      forall k: nat | k < n && CutOf(stream, m, size, k).Some? ensures CutOf(stream, m, size, k).value >= Least(trueSize, size) {
        CutsAreMarkers(stream, m, size, k, trueSize);
      }
    }
  }

  /** Whatever range is asked for, exactly its chunks arrive. */
  ghost predicate StreamsAlways(stream: Streamer, remote: bytes) {
    forall pass: nat, start: nat, end: nat :: start <= |remote| ==> stream(pass, start, end) == Streamed(remote, start, end)
  }

  /** The next request is served, and serving it is progress. */
  lemma AsksForOne(stream: Streamer, remote: bytes, pass: nat, m: Intervals, total: nat)
    requires StreamsAlways(stream, remote) && StartsBelow(m, |remote|) && m != [] && Proper(m, 0, total)
    ensures 0 <= m[0].lo <= |remote| && 0 <= m[0].hi
    ensures stream(pass, m[0].lo, m[0].hi) == Streamed(remote, m[0].lo, m[0].hi)
    ensures StartsBelow(m[1..], |remote|) && Remaining(m[1..]) < Remaining(m)
    ensures StartsBelow([], |remote|) && 0 == Remaining([]) < Remaining(m)
  {
    RemainingPositive(m, 0, total);
  }

  /** Every missing range begins inside the log. */
  ghost predicate StartsBelow(missing: Intervals, size: nat) {
    forall i :: 0 <= i < |missing| ==> missing[i].lo <= size
  }

  /** How a wrong marker comes about: the answer to an earlier gap request, repeated while a
      later one is running, is short and below the new requested end, so a 270-byte log is kept as its first 50 bytes. */
  method LateShortChunk(remote: bytes) returns (p: PartFile, ghost before: Intervals)
    requires |remote| == 270
    ensures before == [Interval(140, 270)]
    ensures p.Valid() && p.Exact() && p.missing == [] && p.totalSize == 50 < |p.remote|
  {
    hide Matches, Truthful, Within, Applied;
    p := new PartFile(270, remote);
    var added := p.WriteChunk(50, remote[50..140]);
    TwoGaps();
    IsSlice(remote, 270, 50, 140);
    IsSlice(remote, 270, 0, 50);
    added := p.WriteChunk(0, remote[..50]);
    before := p.missing;
    var repeated := Data(true, 0, 50, remote[..50]);
    var next;
    next, added := TakeData(p, repeated, 140, 270);
  }

  lemma TwoGaps()
    ensures Subtract([Interval(0, 270)], 50, 140) == [Interval(0, 50), Interval(140, 270)]
    ensures Subtract([Interval(0, 50), Interval(140, 270)], 0, 50) == [Interval(140, 270)]
    ensures Subtract([Interval(140, 270)], 0, 50) == [Interval(140, 270)]
    ensures Subtract([Interval(140, 270)], 50, 270) == []
  {
    assert [Interval(0, 270)][1..] == [] && [Interval(140, 270)][1..] == [];
    assert [Interval(0, 50), Interval(140, 270)][1..] == [Interval(140, 270)];
  }

  lemma IsSlice(remote: bytes, total: nat, from: nat, to: nat)
    requires from <= to <= |remote|
    ensures Truthful(remote, total, from, remote[from..to])
  {
  }
}
