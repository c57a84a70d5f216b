/** A file being received piece by piece: the ranges still missing, the writes still queued, and the limits on both. */
module PartFiles {
  import opened Bytes
  import opened Intervals

  const HARD_MAX_INTERVALS := 1024
  const MAX_QUEUED_FILE_WRITES := 2048

  datatype Failure = GapOverflow | WriteBacklog | Stalled | Cancelled | ReadRefused

  datatype FileWrite = FileWrite(offset: nat, data: bytes)

  predicate Fits(w: FileWrite, size: nat) {
    w.offset + |w.data| <= size
  }

  function Patched(image: bytes, w: FileWrite): (r: bytes)
    requires Fits(w, |image|)
    ensures |r| == |image|
    ensures forall x :: 0 <= x < |image| ==>
              r[x] == if w.offset <= x < w.offset + |w.data| then w.data[x - w.offset] else image[x]
  {
    image[..w.offset] + w.data + image[w.offset + |w.data|..]
  }

  predicate AllFit(q: seq<FileWrite>, size: nat) {
    forall i :: 0 <= i < |q| ==> Fits(q[i], size)
  }

  /** The file once the queued writes have been carried out in order. */
  function Applied(image: bytes, q: seq<FileWrite>): (r: bytes)
    requires AllFit(q, |image|)
    ensures |r| == |image|
    decreases |q|
  {
    if q == [] then image else Applied(Patched(image, q[0]), q[1..])
  }

  lemma {:induction false} AppliedSnoc(image: bytes, q: seq<FileWrite>, w: FileWrite)
    requires AllFit(q, |image|) && Fits(w, |image|)
    ensures AllFit(q + [w], |image|) && Applied(image, q + [w]) == Patched(Applied(image, q), w)
    decreases |q|
  {
    hide Patched;
    if q == [] {
      assert q + [w] == [w] && [w][1..] == [];
      assert Applied(image, [w]) == Applied(Patched(image, w), []);
    } else {
      assert (q + [w])[1..] == q[1..] + [w];
      AppliedSnoc(Patched(image, q[0]), q[1..], w);
    }
  }

  /** As far as it will be written, the reply is a true slice of the remote file. */
  ghost predicate Truthful(remote: bytes, total: nat, offset: nat, data: bytes) {
    forall k :: 0 <= k < |data| && offset + k < total ==> TrueAt(remote, offset, data, k)
  }

  predicate TrueAt(remote: bytes, offset: nat, data: bytes, k: nat)
    requires k < |data|
  {
    offset + k < |remote| && data[k] == remote[offset + k]
  }

  /** What is true of a longer part of the file is true of a shorter one. */
  lemma TruthfulBelow(remote: bytes, total: nat, shorter: nat, offset: nat, data: bytes)
    requires Truthful(remote, total, offset, data) && shorter <= total
    ensures Truthful(remote, shorter, offset, data)
  {
  }

  /** Below `total` and outside the missing ranges the image is the remote file. */
  ghost predicate Matches(image: bytes, remote: bytes, missing: Intervals, total: nat) {
    total <= |image| && forall x :: 0 <= x < total && !Covers(missing, x) ==> x < |remote| && image[x] == remote[x]
  }

  lemma ChunkKeepsMatch(image: bytes, remote: bytes, missing: Intervals, total: nat, offset: nat, data: bytes, end: nat)
    requires Matches(image, remote, missing, total) && Truthful(remote, total, offset, data)
    requires offset < end <= total && end <= offset + |data|
    ensures Matches(Patched(image, FileWrite(offset, data[..end - offset])), remote, Subtract(missing, offset, end), total)
  {
    hide Subtract;
    var r := Patched(image, FileWrite(offset, data[..end - offset]));
    forall x | 0 <= x < total && !Covers(Subtract(missing, offset, end), x) ensures x < |remote| && r[x] == remote[x] {
      SubtractCovers(missing, offset, end, x);
      if offset <= x < end {
        assert TrueAt(remote, offset, data, x - offset);
      }
    }
  }

  lemma NothingMissing(image: bytes, remote: bytes, total: nat)
    requires total <= |image|
    ensures Matches(image, remote, [], total) <==> total <= |remote| && image[..total] == remote[..total]
  {
    if Matches(image, remote, [], total) {
      assert total > 0 ==> !Covers([], total - 1);
      assert forall x :: 0 <= x < total ==> !Covers([], x) && image[x] == remote[x];
    } else {
      var x :| 0 <= x < total && !Covers([], x) && !(x < |remote| && image[x] == remote[x]);
      if total <= |remote| {
        assert image[..total][x] == image[x] && remote[..total][x] == remote[x];
      }
    }
  }

  /** One missing list is the other with some ranges received. */
  ghost predicate Within(later: Intervals, earlier: Intervals) {
    Remaining(later) <= Remaining(earlier) && forall x :: Covers(later, x) ==> Covers(earlier, x)
  }

  lemma WithinItself(m: Intervals)
    ensures Within(m, m)
  {
  }

  lemma WithinMeans(a: Intervals, b: Intervals)
    requires Within(a, b)
    ensures Remaining(a) <= Remaining(b)
  {
  }

  lemma AppliedNothing(image: bytes)
    ensures Applied(image, []) == image
  {
  }

  lemma WithinChains(a: Intervals, b: Intervals, c: Intervals)
    requires Within(a, b) && Within(b, c)
    ensures Within(a, c)
  {
  }

  lemma SubtractWithin(m: Intervals, size: int, start: int, end: int)
    requires Proper(m, 0, size)
    ensures Within(Subtract(m, start, end), m)
  {
    hide Subtract;
    SubtractRemaining(m, 0, size, start, end);
    forall x ensures Covers(Subtract(m, start, end), x) ==> Covers(m, x) {
      SubtractCovers(m, start, end, x);
    }
  }

  class PartFile {
    const file: array<byte>
    /** Length the finished file is expected to have; it can only shrink. */
    var totalSize: nat
    var missing: Intervals
    var queue: seq<FileWrite>
    var resourceLimit: Option<Failure>
    var cancelRequested: bool
    ghost const remote: bytes

    /** The file as it will be once the queue has drained. */
    ghost function Image(): bytes
      reads `queue, file
      requires AllFit(queue, file.Length)
    {
      Applied(file[..], queue)
    }

    ghost predicate Valid()
      reads this, file
    {
      && totalSize <= file.Length
      && Proper(missing, 0, totalSize) && |missing| <= HARD_MAX_INTERVALS
      && AllFit(queue, file.Length) && |queue| <= MAX_QUEUED_FILE_WRITES
      && resourceLimit in {None, Some(GapOverflow), Some(WriteBacklog)}
    }

    /** What has been received is the remote file's. */
    ghost predicate Exact()
      reads `totalSize, `missing, `queue, file
    {
      AllFit(queue, file.Length) && Matches(Image(), remote, missing, totalSize)
    }

    constructor (size: nat, ghost remote: bytes)
      ensures Valid() && fresh(file) && file.Length == totalSize == size && this.remote == remote
      ensures Exact() && !cancelRequested && resourceLimit.None? && queue == []
      ensures missing == if size > 0 then [Interval(0, size)] else []
    {
      this.remote := remote;
      file := new byte[size];
      totalSize := size;
      missing := if size > 0 then [Interval(0, size)] else [];
      queue, resourceLimit, cancelRequested := [], None, false;
      new;
      forall x | 0 <= x < size ensures Covers(missing, x) {
      }
    }

    /** Only received ranges leave the missing list, the file's pending content follows, and the result counts
        exactly the bytes that were missing; -1 means a resource limit was hit and nothing changed. */
    method WriteChunk(offset: nat, data: bytes) returns (added: int)
      requires Valid()
      modifies `missing, `queue, `resourceLimit
      ensures Valid() && cancelRequested == old(cancelRequested)
      ensures added < 0 <==> resourceLimit.Some?
      ensures old(resourceLimit).Some? ==> resourceLimit == old(resourceLimit)
      ensures added < 0 ==> missing == old(missing) && queue == old(queue)
      ensures old(Exact()) && Truthful(remote, totalSize, offset, data) ==> Exact()
      ensures added >= 0 ==>
                var end := if offset + |data| < totalSize then offset + |data| else totalSize;
                && missing == Subtract(old(missing), offset, end) && |missing| <= HARD_MAX_INTERVALS
                && added == Overlap(old(missing), offset, end)
                && Remaining(missing) == Remaining(old(missing)) - added
                && queue == if offset < end then old(queue) + [FileWrite(offset, data[..end - offset])] else old(queue)
      ensures (var end := if offset + |data| < totalSize then offset + |data| else totalSize;
               && |Subtract(old(missing), offset, end)| <= HARD_MAX_INTERVALS
               && |old(queue)| < MAX_QUEUED_FILE_WRITES && old(resourceLimit).None?)
              ==> added >= 0
    {
      hide Matches, Truthful, Applied, AllPieces, Covers, Overlap, Remaining, Patched;
      if resourceLimit.Some? {
        return -1;
      }
      var end := if offset + |data| < totalSize then offset + |data| else totalSize;
      SubtractRemaining(missing, 0, totalSize, offset, end);
      if end <= offset {
        NoOverlap(missing, offset, end);
        return 0;
      }
      var before := Remaining(missing);
      var slice := data[..end - offset];
      var nextMissing := SubtractInterval(missing, offset, end);
      if |nextMissing| > HARD_MAX_INTERVALS {
        resourceLimit := Some(GapOverflow);
        return -1;
      }
      if |queue| >= MAX_QUEUED_FILE_WRITES {
        resourceLimit := Some(WriteBacklog);
        return -1;
      }
      SubtractKeepsProper(missing, 0, totalSize, offset, end);
      AppliedSnoc(file[..], queue, FileWrite(offset, slice));
      if Exact() && Truthful(remote, totalSize, offset, data) {
        ChunkKeepsMatch(Image(), remote, missing, totalSize, offset, data, end);
      }
      missing := nextMissing;
      added := before - Remaining(missing);
      queue := queue + [FileWrite(offset, slice)];
    }

    /** The oldest queued writes reach the file; what the file is going to be does not change. */
    method CompleteWrites(n: nat)
      requires Valid()
      modifies `queue, file
      ensures Valid() && Image() == old(Image()) && Exact() == old(Exact())
      ensures queue == if n < |old(queue)| then old(queue)[n..] else []
    {
      hide Matches, Proper, Patched;
      var i := 0;
      while i < n && |queue| > 0
        invariant i <= n && i <= |old(queue)| && queue == old(queue)[i..]
        invariant AllFit(queue, file.Length) && Image() == old(Image())
      {
        var w := queue[0];
        ghost var before := file[..];
        Store(w);
        assert Applied(before, queue) == Applied(Patched(before, w), queue[1..]);
        queue := queue[1..];
        i := i + 1;
      }
    }

    method Store(w: FileWrite)
      requires Fits(w, file.Length)
      modifies file
      ensures file[..] == Patched(old(file[..]), w)
    {
      forall k | 0 <= k < |w.data| {
        file[w.offset + k] := w.data[k];
      }
      assert forall x :: 0 <= x < file.Length ==> file[..][x] == Patched(old(file[..]), w)[x];
    }

    /** The true end is below the expected size: the tail beyond it stops being missing and being expected. */
    method TruncateTo(endOffset: nat)
      requires Valid()
      modifies `missing, `totalSize
      ensures Valid() && OnlyProgress() && (old(Exact()) ==> Exact())
      ensures totalSize == if endOffset < old(totalSize) then endOffset else old(totalSize)
      ensures missing == if endOffset < old(totalSize) then Subtract(old(missing), endOffset, old(totalSize)) else old(missing)
    {
      hide Matches, Applied, Within, Subtract, Proper;
      WithinItself(missing);
      if endOffset >= totalSize {
        return;
      }
      TailGone(missing, 0, totalSize, endOffset);
      SubtractWithin(missing, totalSize, endOffset, totalSize);
      if Exact() {
        TailKeepsMatch(Image(), remote, missing, totalSize, endOffset);
      }
      missing := SubtractInterval(missing, endOffset, totalSize);
      totalSize := endOffset;
    }

    /** Nothing received is ever missing again, and limits and cancellation stay once raised. */
    twostate predicate OnlyProgress()
      reads this
    {
      && Within(missing, old(missing))
      && (old(resourceLimit).Some? ==> resourceLimit == old(resourceLimit))
      && (old(cancelRequested) ==> cancelRequested)
    }

    /** `WriteChunk`, seen as progress. */
    method TakeChunk(offset: nat, data: bytes) returns (added: int)
      requires Valid()
      modifies `missing, `queue, `resourceLimit
      ensures Valid() && OnlyProgress() && cancelRequested == old(cancelRequested)
      ensures added < 0 <==> resourceLimit.Some?
      ensures old(Exact()) && Truthful(remote, totalSize, offset, data) ==> Exact()
      ensures added >= 0 ==> Remaining(missing) == Remaining(old(missing)) - added
      ensures added >= 0 ==> missing == Subtract(old(missing), offset, Clipped(offset + |data|, totalSize))
      ensures (offset + |data| <= totalSize && old(resourceLimit).None?
               && |Subtract(old(missing), offset, offset + |data|)| <= HARD_MAX_INTERVALS
               && |old(queue)| < MAX_QUEUED_FILE_WRITES) ==> added >= 0
    {
      hide Matches, Proper, Applied, Within, Truthful, Subtract;
      added := WriteChunk(offset, data);
      SubtractWithin(old(missing), totalSize, offset,
                     if offset + |data| < totalSize then offset + |data| else totalSize);
      WithinItself(old(missing));
    }
  }

  /** With nothing missing and nothing queued the file is the beginning of the remote one. */
  lemma WholeBeginning(p: PartFile)
    requires p.Valid() && p.Exact() && p.missing == [] && p.queue == []
    ensures p.totalSize <= |p.remote| && p.file[..p.totalSize] == p.remote[..p.totalSize]
  {
    hide Matches, Applied;
    NothingMissing(p.Image(), p.remote, p.totalSize);
    AppliedNothing(p.file[..]);
    assert p.file[..][..p.totalSize] == p.file[..p.totalSize];
  }

  function Clipped(end: nat, size: nat): nat {
    if end < size then end else size
  }

  /** The last `k` passes have changed nothing: `trace` tells how many bytes were missing before each pass and after
      the last. */
  ghost predicate Flat(trace: seq<nat>, k: nat) {
    |trace| > k && forall j :: |trace| - 1 - k <= j < |trace| ==> trace[j] == trace[|trace| - 1]
  }

  lemma FlatStep(trace: seq<nat>, x: nat)
    requires trace != []
    ensures Flat(trace, 0)
    ensures forall k: nat :: Flat(trace + [x], k + 1) <==> Flat(trace, k) && x == trace[|trace| - 1]
  {
    var longer := trace + [x];
    forall k: nat ensures Flat(longer, k + 1) <==> Flat(trace, k) && x == trace[|trace| - 1] {
      assert longer[|trace| - 1] == trace[|trace| - 1];
      if Flat(longer, k + 1) {
        assert forall j :: |trace| - 1 - k <= j < |trace| ==> trace[j] == longer[j];
      }
    }
  }

  /** Never before the last pass have `limit` passes in a row changed nothing. */
  ghost predicate NotFlatBefore(trace: seq<nat>, limit: nat) {
    forall k :: 0 < k < |trace| ==> !Flat(trace[..k], limit)
  }

  lemma Begin(x: nat, limit: nat) returns (trace: seq<nat>)
    ensures trace == [x] && Flat(trace, 0) && !Flat(trace, 1) && NotFlatBefore(trace, limit)
  {
    trace := [x];
  }

  /** One more pass, when the last `n` changed nothing and no more than `m` did so. */
  lemma Extend(trace: seq<nat>, x: nat, n: nat, m: nat, limit: nat) returns (longer: seq<nat>)
    requires trace != [] && Flat(trace, n) && !Flat(trace, m + 1) && m < limit && NotFlatBefore(trace, limit)
    ensures longer == trace + [x] && longer[|trace|] == x && longer[0] == trace[0] && NotFlatBefore(longer, limit)
    ensures Flat(longer, 0) && !Flat(longer, m + 2)
    ensures if x == trace[|trace| - 1] then Flat(longer, n + 1) else !Flat(longer, 1)
  {
    longer := trace + [x];
    FlatStep(trace, x);
    forall k | 0 < k < |longer| ensures !Flat(longer[..k], limit) {
      assert longer[..k] == trace[..k];
      if k == |trace| {
        assert trace[..k] == trace;
        FlatShrinks(trace, limit, m + 1);
      }
    }
    FlatStep(longer, x);
  }

  lemma FlatShrinks(trace: seq<nat>, k: nat, k': nat)
    requires k' <= k
    ensures Flat(trace, k) ==> Flat(trace, k')
  {
  }

  /** Receiving the beginning of the first missing range only shortens it. */
  lemma TrimFront(m: Intervals, size: int, start: int, end: int)
    requires Proper(m, 0, size) && m != [] && m[0].lo == start < end <= m[0].hi
    ensures Subtract(m, start, end) == (if end < m[0].hi then [Interval(end, m[0].hi)] else []) + m[1..]
    ensures |Subtract(m, start, end)| <= |m|
  {
    SubtractRemaining(m[1..], m[0].hi, size, start, end);
    var none: Intervals := [];
    assert none + m[1..] == m[1..];
  }

  /** Cutting the tail leaves a proper list below the cut, and no more ranges than before. */
  lemma {:induction false} TailGone(m: Intervals, from: int, size: int, end: int)
    requires Proper(m, from, size) && from <= end < size
    ensures Proper(Subtract(m, end, size), from, end) && |Subtract(m, end, size)| <= |m|
  {
    if m != [] {
      var iv := m[0];
      if iv.hi <= end {
        TailGone(m[1..], iv.hi, size, end);
        assert Subtract(m, end, size)[1..] == Subtract(m[1..], end, size);
      } else {
        AllGone(m[1..], iv.hi, size, end);
      }
    }
  }

  lemma {:induction false} AllGone(m: Intervals, from: int, size: int, end: int)
    requires Proper(m, from, size) && end <= from
    ensures AllPieces(m, end, size) == []
  {
    if m != [] {
      AllGone(m[1..], m[0].hi, size, end);
    }
  }

  lemma TailKeepsMatch(image: bytes, remote: bytes, missing: Intervals, total: nat, end: nat)
    requires Matches(image, remote, missing, total) && end < total
    ensures Matches(image, remote, Subtract(missing, end, total), end)
  {
    hide Subtract;
    forall x | 0 <= x < end && !Covers(Subtract(missing, end, total), x)
      ensures x < |remote| && image[x] == remote[x]
    {
      SubtractCovers(missing, end, total, x);
    }
  }
}
