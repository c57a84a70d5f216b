/** Downloading one file over a lossy link: burst passes, gap filling and the pass loop. */
module FtpDownload {
  import opened Bytes
  import opened Intervals
  import opened PartFiles

  const MAX_DATA := 239
  const COMPAT_READ_DATA := 200
  const MAX_NO_PROGRESS_PASSES := 5
  const GAP_FILL_MAX_BYTES := 65536
  const GAP_FILL_MAX_INTERVALS := 32
  const BURST_PASS_FRAME_SLACK := 64
  const BURST_PASS_NO_PROGRESS_FRAMES := 256

  datatype Reply = Chunk(offset: nat, data: bytes, complete: bool) | Nak(eof: bool)

  /** What happens while a burst is running: a frame, a finished file write, a cancel request. The pass also ends
      when nothing more happens. */
  datatype BurstEvent = Frame(ourSession: bool, reply: Reply) | WritesDone(n: nat) | CancelAsked

  /** What becomes of one ReadFile request, all its retransmissions included, and how many queued file writes
      finish meanwhile. */
  datatype Answer = Answered(reply: Reply, writesDone: nat) | Silence | CancelledNow

  /** The flight controller and everything else outside: for each pass, whatever it likes. `read` is given the pass,
      the number of the request in it, and the requested offset and size. */
  datatype Peer = Peer(burst: nat -> seq<BurstEvent>, read: (nat, nat, nat, nat) -> Answer)

  datatype AfterAnswer = GoOn | EndPass | Fail(failure: Failure)

  /** The server answers every request with exactly the requested slice, and at least one queued write has reached
      the disk by then. */
  ghost predicate Serves(read: (nat, nat, nat, nat) -> Answer, remote: bytes) {
    forall p: nat, r: nat, o: nat, w: nat :: 0 < w && o + w <= |remote| ==> GoodAnswer(read(p, r, o, w), remote, o, w)
  }

  ghost predicate GoodAnswer(a: Answer, remote: bytes, o: nat, w: nat)
    requires o + w <= |remote|
  {
    a.Answered? && a.reply.Chunk? && a.reply.offset == o && a.reply.data == remote[o..o + w] && a.writesDone > 0
  }

  /** A data reply is, as far as the file reaches, a true slice of it. */
  ghost predicate TrueReply(reply: Reply, remote: bytes) {
    reply.Chunk? ==> Truthful(remote, |remote|, reply.offset, reply.data)
  }

  ghost predicate TrueBurst(events: seq<BurstEvent>, remote: bytes) {
    forall i :: 0 <= i < |events| && events[i].Frame? && events[i].ourSession ==> TrueReply(events[i].reply, remote)
  }

  ghost predicate TrueAnswers(read: (nat, nat, nat, nat) -> Answer, remote: bytes) {
    forall p: nat, r: nat, o: nat, w: nat :: 0 < w && o + w <= |remote| && read(p, r, o, w).Answered?
      ==> TrueReply(read(p, r, o, w).reply, remote)
  }

  /** Whatever the peer leaves out, delays or repeats, data it sends in this session is the remote file's. */
  ghost predicate TruePeer(peer: Peer, remote: bytes) {
    (forall pass: nat :: TrueBurst(peer.burst(pass), remote)) && TrueAnswers(peer.read, remote)
  }

  lemma BurstIsTrue(peer: Peer, remote: bytes, pass: nat)
    requires TruePeer(peer, remote)
    ensures TrueBurst(peer.burst(pass), remote)
  {
  }

  lemma AnswerIsTrue(read: (nat, nat, nat, nat) -> Answer, remote: bytes, p: nat, r: nat, o: nat, w: nat)
    requires TrueAnswers(read, remote) && 0 < w && o + w <= |remote|
    ensures read(p, r, o, w).Answered? ==> TrueReply(read(p, r, o, w).reply, remote)
  {
  }

  /** A server that serves every request is true about what it is asked for. */
  lemma ServingIsTrue(read: (nat, nat, nat, nat) -> Answer, remote: bytes)
    requires Serves(read, remote)
    ensures TrueAnswers(read, remote)
  {
    forall p: nat, r: nat, o: nat, w: nat | 0 < w && o + w <= |remote| && read(p, r, o, w).Answered?
      ensures TrueReply(read(p, r, o, w).reply, remote)
    {
      assert GoodAnswer(read(p, r, o, w), remote, o, w);
    }
  }

  lemma ServedAnswer(read: (nat, nat, nat, nat) -> Answer, remote: bytes, p: nat, r: nat, o: nat, w: nat)
    requires Serves(read, remote) && 0 < w && o + w <= |remote|
    ensures GoodAnswer(read(p, r, o, w), remote, o, w)
  {
  }

  /** The frames of this session among the events. */
  function OurFrames(events: seq<BurstEvent>): seq<Reply> {
    if events == [] then []
    else (if events[0].Frame? && events[0].ourSession then [events[0].reply] else []) + OurFrames(events[1..])
  }

  lemma NextFrame(events: seq<BurstEvent>, i: nat)
    requires i < |events|
    ensures var rest, e := OurFrames(events[i + 1..]), events[i];
            if e.Frame? && e.ourSession
            then OurFrames(events[i..]) == [e.reply] + rest && OurFrames(events[i..])[1..] == rest
            else OurFrames(events[i..]) == rest
  {
    assert events[i..][1..] == events[i + 1..];
  }

  /** The missing list and the frame count a burst ends with, if no resource limit is hit: frames count until one is
      beyond the budget, follows too many without progress, refuses, or is the last. */
  function AfterBurst(replies: seq<Reply>, m: Intervals, size: nat, frames: nat, idle: nat, maxFrames: nat): (Intervals, nat) {
    if replies == [] then (m, frames)
    else if frames >= maxFrames || idle >= BURST_PASS_NO_PROGRESS_FRAMES || replies[0].Nak? then (m, frames + 1)
    else
      var Chunk(offset, data, complete) := replies[0];
      var m' := if data == [] then m else Subtract(m, offset, Clipped(offset + |data|, size));
      if complete then (m', frames + 1)
      else AfterBurst(replies[1..], m', size, frames + 1, if Remaining(m') < Remaining(m) then 0 else idle + 1, maxFrames)
  }

  lemma AfterNext(events: seq<BurstEvent>, i: nat, m: Intervals, size: nat, frames: nat, idle: nat, maxFrames: nat)
    requires i < |events|
    ensures var e := events[i];
            var now := AfterBurst(OurFrames(events[i..]), m, size, frames, idle, maxFrames);
            if !(e.Frame? && e.ourSession) then now == AfterBurst(OurFrames(events[i + 1..]), m, size, frames, idle, maxFrames)
            else if frames >= maxFrames || idle >= BURST_PASS_NO_PROGRESS_FRAMES || e.reply.Nak? then now == (m, frames + 1)
            else
              var Chunk(offset, data, complete) := e.reply;
              var m' := if data == [] then m else Subtract(m, offset, Clipped(offset + |data|, size));
              now == if complete then (m', frames + 1)
                     else AfterBurst(OurFrames(events[i + 1..]), m', size, frames + 1,
                                     if Remaining(m') < Remaining(m) then 0 else idle + 1, maxFrames)
  {
    hide Subtract, Remaining;
    NextFrame(events, i);
  }

  lemma AfterNothing(none: seq<BurstEvent>, m: Intervals, size: nat, frames: nat, idle: nat, maxFrames: nat)
    requires none == []
    ensures AfterBurst(OurFrames(none), m, size, frames, idle, maxFrames) == (m, frames)
  {
  }

  /** The missing list after the first `n` replies, if all their data is used. */
  function MissingAfter(replies: seq<Reply>, m: Intervals, size: nat, n: nat): Intervals
    requires n <= |replies|
  {
    if n == 0 then m
    else
      var before, reply := MissingAfter(replies, m, size, n - 1), replies[n - 1];
      if reply.Nak? || reply.data == [] then before else Subtract(before, reply.offset, Clipped(reply.offset + |reply.data|, size))
  }

  /** A burst is over after `n` replies: no more come, the last one was marked, the next one refuses, the frame budget is
      used up, or 256 frames in a row brought nothing that was missing. */
  predicate OverAfter(replies: seq<Reply>, m: Intervals, size: nat, maxFrames: nat, n: nat)
    requires n <= |replies|
  {
    || n == |replies| || (n > 0 && replies[n - 1].Chunk? && replies[n - 1].complete) || replies[n].Nak? || n >= maxFrames
    || (n >= 256 && Remaining(MissingAfter(replies, m, size, n)) == Remaining(MissingAfter(replies, m, size, n - 256)))
  }

  lemma MissingShrinks(replies: seq<Reply>, m: Intervals, size: nat, n: nat)
    requires Proper(m, 0, size) && n <= |replies|
    ensures Proper(MissingAfter(replies, m, size, n), 0, size)
    ensures n > 0 ==> Remaining(MissingAfter(replies, m, size, n)) <= Remaining(MissingAfter(replies, m, size, n - 1))
  {
    hide Subtract, Proper, Remaining;
    if n > 0 {
      var reply := replies[n - 1];
      MissingShrinks(replies, m, size, n - 1);
      if reply.Chunk? {
        var before := MissingAfter(replies, m, size, n - 1);
        SubtractKeepsProper(before, 0, size, reply.offset, Clipped(reply.offset + |reply.data|, size));
        SubtractShrinks(before, reply.offset, Clipped(reply.offset + |reply.data|, size), size);
      }
    }
  }

  lemma SubtractShrinks(m: Intervals, start: nat, end: nat, size: nat)
    requires Proper(m, 0, size)
    ensures Remaining(Subtract(m, start, end)) <= Remaining(m)
  {
    hide Subtract, Remaining, Proper;
    SubtractRemaining(m, 0, size, start, end);
  }

  /** A byte is missing after `n` replies exactly if it was missing before and none of them brought it. */
  lemma {:induction false} MissingCovers(replies: seq<Reply>, m: Intervals, size: nat, n: nat, x: int)
    requires Proper(m, 0, size) && n <= |replies|
    ensures Covers(MissingAfter(replies, m, size, n), x)
            <==> Covers(m, x) && forall j :: 0 <= j < n && replies[j].Chunk? ==>
                                   !(replies[j].offset <= x < replies[j].offset + |replies[j].data|)
  {
    hide Subtract, Proper, Covers;
    if n > 0 {
      var reply := replies[n - 1];
      MissingCovers(replies, m, size, n - 1, x);
      MissingShrinks(replies, m, size, n - 1);
      var before := MissingAfter(replies, m, size, n - 1);
      if reply.Chunk? {
        SubtractCovers(before, reply.offset, Clipped(reply.offset + |reply.data|, size), x);
        if Covers(before, x) {
          CoveredBelow(before, 0, size, x);
        }
      }
    }
  }

  lemma {:induction false} CoveredBelow(m: Intervals, from: nat, size: nat, x: int)
    requires Proper(m, from, size) && Covers(m, x)
    ensures from <= x < size
  {
    if !(m[0].lo <= x < m[0].hi) {
      CoveredBelow(m[1..], m[0].hi, size, x);
    }
  }

  /** Nothing has been missing less since `idle` replies ago, and if there were more, the one before brought something. */
  ghost predicate IdleFor(replies: seq<Reply>, m: Intervals, size: nat, n: nat, idle: nat)
    requires n <= |replies|
  {
    && idle <= n
    && (forall k :: n - idle <= k <= n ==> Remaining(MissingAfter(replies, m, size, k)) == Remaining(MissingAfter(replies, m, size, n)))
    && (idle < n ==> Remaining(MissingAfter(replies, m, size, n)) < Remaining(MissingAfter(replies, m, size, n - idle - 1)))
  }

  lemma {:induction false} MissingFalls(replies: seq<Reply>, m: Intervals, size: nat, k: nat, n: nat)
    requires Proper(m, 0, size) && k <= n <= |replies|
    ensures Remaining(MissingAfter(replies, m, size, n)) <= Remaining(MissingAfter(replies, m, size, k))
    decreases n - k
  {
    hide Proper, Remaining, MissingAfter;
    if k < n {
      MissingShrinks(replies, m, size, n);
      MissingFalls(replies, m, size, k, n - 1);
    }
  }

  /** The idle count of the loop is over its limit exactly if the last 256 replies brought nothing. */
  lemma IdleMeans(replies: seq<Reply>, m: Intervals, size: nat, n: nat, idle: nat)
    requires Proper(m, 0, size) && n <= |replies| && IdleFor(replies, m, size, n, idle)
    ensures idle >= 256
            <==> n >= 256 && Remaining(MissingAfter(replies, m, size, n)) == Remaining(MissingAfter(replies, m, size, n - 256))
  {
    hide Proper, Remaining, MissingAfter;
    if idle < 256 <= n {
      MissingFalls(replies, m, size, n - 256, n - idle - 1);
    }
  }

  /** A burst uses its replies up to the first moment at which it is over, and what is missing afterwards is what none of
      the replies used has brought. */
  lemma BurstUses(replies: seq<Reply>, m: Intervals, size: nat, maxFrames: nat) returns (n: nat)
    requires Proper(m, 0, size)
    ensures n <= |replies| && OverAfter(replies, m, size, maxFrames, n)
    ensures forall k :: 0 <= k < n ==> !OverAfter(replies, m, size, maxFrames, k)
    ensures AfterBurst(replies, m, size, 0, 0, maxFrames)
            == (MissingAfter(replies, m, size, n),
                if n == |replies| || (n > 0 && replies[n - 1].Chunk? && replies[n - 1].complete) then n else n + 1)
    ensures forall x :: Covers(AfterBurst(replies, m, size, 0, 0, maxFrames).0, x)
                        <==> Covers(m, x) && forall j :: 0 <= j < n && replies[j].Chunk? ==>
                                               !(replies[j].offset <= x < replies[j].offset + |replies[j].data|)
  {
    hide Subtract, Remaining, Proper, Covers, AfterBurst;
    n := 0;
    var idle := 0;
    assert replies[0..] == replies;
    while !OverAfter(replies, m, size, maxFrames, n)
      invariant n <= |replies| && IdleFor(replies, m, size, n, idle)
      invariant n > 0 ==> replies[n - 1].Chunk?
      invariant forall k :: 0 <= k < n ==> !OverAfter(replies, m, size, maxFrames, k)
      invariant AfterBurst(replies, m, size, 0, 0, maxFrames)
                == if n > 0 && replies[n - 1].complete then (MissingAfter(replies, m, size, n), n)
                   else AfterBurst(replies[n..], MissingAfter(replies, m, size, n), size, n, idle, maxFrames)
      decreases |replies| - n
    {
      IdleMeans(replies, m, size, n, idle);
      var missing := MissingAfter(replies, m, size, n);
      UseOne(replies[n..], missing, size, n, idle, maxFrames);
      MissingShrinks(replies, m, size, n + 1);
      assert replies[n..][1..] == replies[n + 1..];
      var less := Remaining(MissingAfter(replies, m, size, n + 1)) < Remaining(missing);
      idle := if less then 0 else idle + 1;
      n := n + 1;
    }
    IdleMeans(replies, m, size, n, idle);
    StopsHere(replies[n..], MissingAfter(replies, m, size, n), size, n, idle, maxFrames);
    forall x ensures Covers(MissingAfter(replies, m, size, n), x)
                     <==> Covers(m, x) && forall j :: 0 <= j < n && replies[j].Chunk? ==>
                                            !(replies[j].offset <= x < replies[j].offset + |replies[j].data|)
    {
      MissingCovers(replies, m, size, n, x);
    }
  }

  lemma UseOne(replies: seq<Reply>, m: Intervals, size: nat, frames: nat, idle: nat, maxFrames: nat)
    requires replies != [] && frames < maxFrames && idle < 256 && replies[0].Chunk?
    ensures var reply := replies[0];
            var m' := if reply.data == [] then m else Subtract(m, reply.offset, Clipped(reply.offset + |reply.data|, size));
            AfterBurst(replies, m, size, frames, idle, maxFrames)
            == if reply.complete then (m', frames + 1)
               else AfterBurst(replies[1..], m', size, frames + 1, if Remaining(m') < Remaining(m) then 0 else idle + 1, maxFrames)
  {
    hide Subtract, Remaining;
  }

  lemma StopsHere(replies: seq<Reply>, m: Intervals, size: nat, frames: nat, idle: nat, maxFrames: nat)
    ensures replies == [] ==> AfterBurst(replies, m, size, frames, idle, maxFrames) == (m, frames)
    ensures replies != [] && (frames >= maxFrames || idle >= 256 || replies[0].Nak?) ==>
              AfterBurst(replies, m, size, frames, idle, maxFrames) == (m, frames + 1)
  {
    hide Subtract, Remaining;
  }

  /** What a server streams for a burst request: the range in full frames, the last one marked. */
  function Stream(remote: bytes, start: nat, end: nat): seq<Reply>
    requires end <= |remote|
    decreases end - start
  {
    if end <= start then []
    else
      var n := if MAX_DATA < end - start then MAX_DATA else end - start;
      [Chunk(start, remote[start..start + n], start + n == end)] + Stream(remote, start + n, end)
  }

  /** A burst that streams the first missing range fills exactly that range. */
  lemma {:induction false} BurstFills(remote: bytes, m: Intervals, size: nat, start: nat, end: nat, others: Intervals,
                                      frames: nat, maxFrames: nat)
    requires Proper(m, 0, size) && m == [Interval(start, end)] + others && size <= |remote|
    requires end <= size && frames + (end - start + MAX_DATA - 1) / MAX_DATA <= maxFrames
    ensures AfterBurst(Stream(remote, start, end), m, size, frames, 0, maxFrames).0 == others
    decreases end - start
  {
    hide Subtract, Proper;
    assert m[1..] == others && m[0] == Interval(start, end);
    ProperMeans(m, 0, size);
    var n := if MAX_DATA < end - start then MAX_DATA else end - start;
    TrimFront(m, size, start, start + n);
    var m' := Subtract(m, start, start + n);
    if start + n < end {
      SubtractKeepsProper(m, 0, size, start, start + n);
      RemainingSplits(m', start + n, end, others);
      RemainingSplits(m, start, end, others);
      BurstFills(remote, m', size, start + n, end, others, frames + 1, maxFrames);
    } else {
      assert [] + others == others;
    }
  }

  lemma RemainingSplits(m: Intervals, start: int, end: int, others: Intervals)
    requires m == [Interval(start, end)] + others
    ensures Remaining(m) == end - start + Remaining(others)
  {
    assert m[1..] == others;
  }

  /** One streamed pass. It ends at a NAK, at the last frame of the burst, at a limit, at the frame or
      no-progress budget, or when nothing more arrives. */
  method BurstPass(p: PartFile, events: seq<BurstEvent>, maxFrames: nat) returns (frames: nat)
    requires p.Valid()
    modifies p`missing, p`queue, p`resourceLimit, p`cancelRequested, p.file
    ensures p.Valid() && p.OnlyProgress()
    ensures frames <= maxFrames + 1
    ensures old(p.Exact()) && p.totalSize <= |p.remote| && TrueBurst(events, p.remote) ==> p.Exact()
    ensures p.resourceLimit.None? ==> (p.missing, frames) == AfterBurst(OurFrames(events), old(p.missing), p.totalSize, 0, 0, maxFrames)
  {
    hide Matches, Proper, Applied, Subtract, Within, Remaining, Truthful, PartFile.Exact, AfterBurst, OurFrames;
    ghost var exact := p.Exact() && p.totalSize <= |p.remote| && TrueBurst(events, p.remote);
    frames := 0;
    var noProgressFrames := 0;
    WithinItself(p.missing);
    var i := 0;
    while i < |events|
      invariant i <= |events| && frames <= maxFrames && p.Valid() && p.OnlyProgress() && (exact ==> p.Exact())
      invariant p.resourceLimit.None? ==>
                  AfterBurst(OurFrames(events), old(p.missing), p.totalSize, 0, 0, maxFrames)
                  == AfterBurst(OurFrames(events[i..]), p.missing, p.totalSize, frames, noProgressFrames, maxFrames)
    {
      var e := events[i];
      AfterNext(events, i, p.missing, p.totalSize, frames, noProgressFrames, maxFrames);
      i := i + 1;
      match e {
        case CancelAsked => p.cancelRequested := true;
        case WritesDone(n) => p.CompleteWrites(n);
        case Frame(ourSession, reply) =>
          if ourSession {
            frames := frames + 1;
            if frames > maxFrames || noProgressFrames >= BURST_PASS_NO_PROGRESS_FRAMES || reply.Nak? {
              return;
            }
            var added := 0;
            ghost var before := p.missing;
            if exact {
              TruthfulBelow(p.remote, |p.remote|, p.totalSize, reply.offset, reply.data);
            }
            if |reply.data| > 0 {
              added := p.TakeChunk(reply.offset, reply.data);
              WithinChains(p.missing, before, old(p.missing));
            }
            if added < 0 {
              return;
            }
            noProgressFrames := if added > 0 then 0 else noProgressFrames + 1;
            if reply.complete {
              return;
            }
          }
      }
    }
    AfterNothing(events[i..], p.missing, p.totalSize, frames, noProgressFrames, maxFrames);
  }

  /** The missing list begins with this very range. */
  ghost predicate StartsWith(p: PartFile, offset: int, end: int, others: Intervals)
    reads p
  {
    p.missing == (if offset < end then [Interval(offset, end)] else []) + others
  }

  /** What an answer does to the missing list and to the pass, if no resource limit is hit: data is taken wherever it says
      it belongs; silence, an end of file or an empty answer ends the pass, another refusal the transfer. */
  function AnswerMeans(a: Answer, m: Intervals, size: nat): (Intervals, AfterAnswer) {
    match a
    case Silence => (m, EndPass)
    case CancelledNow => (m, Fail(Cancelled))
    case Answered(Nak(eof), _) => (m, if eof then EndPass else Fail(ReadRefused))
    case Answered(Chunk(offset, data, _), _) =>
      if data == [] then (m, EndPass) else (Subtract(m, offset, Clipped(offset + |data|, size)), GoOn)
  }

  method TakeAnswer(p: PartFile, answer: Answer) returns (next: AfterAnswer)
    requires p.Valid()
    modifies p`missing, p`queue, p`resourceLimit, p`cancelRequested, p.file
    ensures p.Valid() && p.OnlyProgress()
    ensures p.cancelRequested == (old(p.cancelRequested) || answer.CancelledNow?)
    ensures answer.CancelledNow? ==> next == Fail(Cancelled)
    ensures next == Fail(Cancelled) ==> p.cancelRequested
    ensures next.Fail? ==> next.failure == Cancelled || next.failure == ReadRefused
    ensures next.Fail? ==> AnswerMeans(answer, old(p.missing), p.totalSize).1 == next
    ensures old(p.Exact()) && p.totalSize <= |p.remote| && (answer.Answered? ==> TrueReply(answer.reply, p.remote)) ==> p.Exact()
    ensures p.resourceLimit.None? ==> (p.missing, next) == AnswerMeans(answer, old(p.missing), p.totalSize)
    ensures answer.Answered? && answer.writesDone > 0 && old(p.resourceLimit).None? && answer.reply.Chunk?
            && answer.reply.offset + |answer.reply.data| <= p.totalSize
            && |Subtract(old(p.missing), answer.reply.offset, answer.reply.offset + |answer.reply.data|)| <= HARD_MAX_INTERVALS
            ==> p.resourceLimit.None?
  {
    hide Matches, Applied, Within, Truthful, Subtract, PartFile.Exact, Proper;
    WithinItself(p.missing);
    match answer {
      case Silence => return EndPass;
      case CancelledNow =>
        p.cancelRequested := true;
        return Fail(Cancelled);
      case Answered(reply, writesDone) =>
        p.CompleteWrites(writesDone);
        if reply.Nak? {
          return if reply.eof then EndPass else Fail(ReadRefused);
        }
        if |reply.data| == 0 {
          return EndPass;
        }
        if p.Exact() && p.totalSize <= |p.remote| && TrueReply(reply, p.remote) {
          TruthfulBelow(p.remote, |p.remote|, p.totalSize, reply.offset, reply.data);
        }
        var added := p.TakeChunk(reply.offset, reply.data);
        return if added < 0 then EndPass else GoOn;
    }
  }

  /** One ReadFile request and what its answer means for the pass. */
  method Ask(p: PartFile, pass: nat, requestNo: nat, offset: nat, want: nat, read: (nat, nat, nat, nat) -> Answer,
             ghost end: nat, ghost others: Intervals) returns (next: AfterAnswer)
    requires p.Valid() && p.totalSize <= |p.remote| && 0 < want && offset + want <= end <= p.totalSize
    modifies p`missing, p`queue, p`resourceLimit, p`cancelRequested, p.file
    ensures p.Valid() && p.OnlyProgress()
    ensures next == Fail(Cancelled) ==> p.cancelRequested
    ensures next.GoOn? ==> p.cancelRequested == old(p.cancelRequested)
    ensures next.Fail? ==> next.failure == Cancelled || next.failure == ReadRefused
    ensures p.resourceLimit.None? ==>
              (p.missing, next) == AnswerMeans(read(pass, requestNo, offset, want), old(p.missing), p.totalSize)
    ensures old(p.Exact()) && TrueAnswers(read, p.remote) ==> p.Exact()
    ensures Serves(read, p.remote) && old(p.resourceLimit).None? && old(StartsWith(p, offset, end, others))
            ==> next.GoOn? && p.resourceLimit.None? && p.cancelRequested == old(p.cancelRequested)
                && StartsWith(p, offset + want, end, others)
  {
    hide Matches, Applied, Within, Truthful, Serves, Subtract, PartFile.Exact, TrueAnswers, Proper;
    var answer := read(pass, requestNo, offset, want);
    if p.Exact() && TrueAnswers(read, p.remote) {
      AnswerIsTrue(read, p.remote, pass, requestNo, offset, want);
    }
    if Serves(read, p.remote) && StartsWith(p, offset, end, others) {
      ServedAnswer(read, p.remote, pass, requestNo, offset, want);
      assert p.missing[1..] == others;
      TrimFront(p.missing, p.totalSize, offset, offset + want);
    }
    next := TakeAnswer(p, answer);
  }

  ghost predicate Natural(pieces: seq<(int, int)>) {
    forall i :: 0 <= i < |pieces| ==> pieces[i].0 >= 0 && pieces[i].1 >= 0
  }

  /** What a gap filling pass comes to, if no resource limit is hit: each piece is asked for until an answer ends the pass
      or the transfer. */
  ghost function AfterAsks(read: (nat, nat, nat, nat) -> Answer, pass: nat, no: nat, pieces: seq<(int, int)>, m: Intervals, size: nat)
    : (Intervals, Option<Failure>, nat)
    requires Natural(pieces)
    decreases |pieces|
  {
    if pieces == [] then (m, None, no)
    else
      var (m', next) := AnswerMeans(read(pass, no, pieces[0].0, pieces[0].1), m, size);
      match next
      case EndPass => (m', None, no + 1)
      case Fail(f) => (m', Some(f), no + 1)
      case GoOn => AfterAsks(read, pass, no + 1, pieces[1..], m', size)
  }

  /** A range in the pieces it is asked for: offset and size of each request. */
  ghost function PiecesOf(lo: int, hi: int): seq<(int, int)>
    decreases hi - lo
  {
    if hi <= lo then []
    else
      var want := if COMPAT_READ_DATA < hi - lo then COMPAT_READ_DATA else hi - lo;
      [(lo, want)] + PiecesOf(lo + want, hi)
  }

  ghost function Pieces(m: Intervals): seq<(int, int)> {
    if m == [] then [] else PiecesOf(m[0].lo, m[0].hi) + Pieces(m[1..])
  }

  lemma {:induction false} RangeIsNatural(lo: int, hi: int)
    requires 0 <= lo
    ensures Natural(PiecesOf(lo, hi))
    decreases hi - lo
  {
    if lo < hi {
      RangeIsNatural(lo + if COMPAT_READ_DATA < hi - lo then COMPAT_READ_DATA else hi - lo, hi);
    }
  }

  lemma {:induction false} PiecesAreNatural(m: Intervals, from: nat, size: nat)
    requires Proper(m, from, size)
    ensures Natural(Pieces(m))
  {
    if m != [] {
      RangeIsNatural(m[0].lo, m[0].hi);
      PiecesAreNatural(m[1..], m[0].hi, size);
    }
  }

  predicate InPieces(pieces: seq<(int, int)>, x: int) {
    pieces != [] && (pieces[0].0 <= x < pieces[0].0 + pieces[0].1 || InPieces(pieces[1..], x))
  }

  /** Requests of at most 200 bytes, one behind the other between `from` and `until`. */
  predicate InOrder(pieces: seq<(int, int)>, from: int, until: int) {
    if pieces == [] then from <= until
    else from <= pieces[0].0 && 0 < pieces[0].1 <= 200 && InOrder(pieces[1..], pieces[0].0 + pieces[0].1, until)
  }

  lemma {:induction false} PiecesJoin(a: seq<(int, int)>, b: seq<(int, int)>, from: int, mid: int, until: int, x: int)
    requires InOrder(a, from, mid) && InOrder(b, mid, until)
    ensures InOrder(a + b, from, until)
    ensures InPieces(a + b, x) <==> InPieces(a, x) || InPieces(b, x)
  {
    if a == [] {
      assert a + b == b;
      Earlier(b, from, mid, until);
    } else {
      assert (a + b)[1..] == a[1..] + b;
      PiecesJoin(a[1..], b, a[0].0 + a[0].1, mid, until, x);
    }
  }

  lemma Earlier(b: seq<(int, int)>, from: int, mid: int, until: int)
    requires InOrder(b, mid, until) && from <= mid
    ensures InOrder(b, from, until)
  {
  }

  lemma {:induction false} RangeIsCut(lo: int, hi: int, x: int)
    requires lo <= hi
    ensures InOrder(PiecesOf(lo, hi), lo, hi) && (InPieces(PiecesOf(lo, hi), x) <==> lo <= x < hi)
    decreases hi - lo
  {
    if lo < hi {
      RangeIsCut(lo + if COMPAT_READ_DATA < hi - lo then COMPAT_READ_DATA else hi - lo, hi, x);
    }
  }

  /** The pieces asked for are exactly the missing bytes, cut in order into requests of at most 200 bytes. */
  lemma {:induction false} PiecesAreMissing(m: Intervals, from: int, size: int, x: int)
    requires Proper(m, from, size) && from <= size
    ensures InOrder(Pieces(m), from, size) && (InPieces(Pieces(m), x) <==> Covers(m, x))
    decreases |m|
  {
    if m != [] {
      RangeIsCut(m[0].lo, m[0].hi, x);
      PiecesAreMissing(m[1..], m[0].hi, size, x);
      Earlier(PiecesOf(m[0].lo, m[0].hi), from, m[0].lo, m[0].hi);
      PiecesJoin(PiecesOf(m[0].lo, m[0].hi), Pieces(m[1..]), from, m[0].hi, size, x);
    }
  }

  lemma AskUnfolds(read: (nat, nat, nat, nat) -> Answer, pass: nat, no: nat, offset: nat, end: nat, later: seq<(int, int)>,
                   m: Intervals, size: nat)
    requires offset < end && Natural(later)
    ensures Natural(PiecesOf(offset, end) + later)
    ensures var want := if COMPAT_READ_DATA < end - offset then COMPAT_READ_DATA else end - offset;
            var (m', next) := AnswerMeans(read(pass, no, offset, want), m, size);
            && Natural(PiecesOf(offset + want, end) + later)
            && AfterAsks(read, pass, no, PiecesOf(offset, end) + later, m, size)
               == match next
                  case EndPass => (m', None, no + 1)
                  case Fail(f) => (m', Some(f), no + 1)
                  case GoOn => AfterAsks(read, pass, no + 1, PiecesOf(offset + want, end) + later, m', size)
  {
    hide AnswerMeans;
    var want := if COMPAT_READ_DATA < end - offset then COMPAT_READ_DATA else end - offset;
    RangeIsNatural(offset, end);
    RangeIsNatural(offset + want, end);
    assert (PiecesOf(offset, end) + later)[1..] == PiecesOf(offset + want, end) + later;
  }

  /** Ask for one missing range in pieces. */
  method FillRange(p: PartFile, pass: nat, no: nat, start: nat, end: nat, read: (nat, nat, nat, nat) -> Answer,
                   ghost others: Intervals, ghost later: seq<(int, int)>)
    returns (over: bool, failure: Option<Failure>, next: nat)
    requires p.Valid() && start <= end <= p.totalSize <= |p.remote| && Natural(later)
    modifies p`missing, p`queue, p`resourceLimit, p`cancelRequested, p.file
    ensures p.Valid() && p.OnlyProgress() && no <= next
    ensures failure == Some(Cancelled) ==> p.cancelRequested
    ensures failure.Some? ==> over && (failure.value == Cancelled || failure.value == ReadRefused)
    ensures Serves(read, p.remote) && old(p.resourceLimit.None? && !p.cancelRequested && StartsWith(p, start, end, others))
            ==> !over && failure.None? && p.resourceLimit.None? && !p.cancelRequested && p.missing == others
    ensures old(p.Exact()) && TrueAnswers(read, p.remote) ==> p.Exact()
    ensures !over && !old(p.cancelRequested) ==> !p.cancelRequested
    ensures Natural(PiecesOf(start, end) + later)
    ensures p.resourceLimit.None? && !old(p.cancelRequested) ==>
              AfterAsks(read, pass, no, PiecesOf(start, end) + later, old(p.missing), p.totalSize)
              == if over then (p.missing, failure, next) else AfterAsks(read, pass, next, later, p.missing, p.totalSize)
  {
    hide Matches, Proper, Applied, Within, Serves, PiecesOf, TrueAnswers, PartFile.Exact, AfterAsks, AnswerMeans, Natural;
    ghost var exact := p.Exact() && TrueAnswers(read, p.remote);
    ghost var served := Serves(read, p.remote) && p.resourceLimit.None? && !p.cancelRequested && StartsWith(p, start, end, others);
    RangeWith(start, end, later);
    WithinItself(p.missing);
    over, failure, next := false, None, no;
    var offset := start;
    while offset < end
      invariant 0 <= offset <= end <= p.totalSize && p.Valid() && p.OnlyProgress() && (exact ==> p.Exact()) && no <= next
      invariant served ==> p.resourceLimit.None? && !p.cancelRequested && StartsWith(p, offset, end, others)
      invariant !old(p.cancelRequested) ==> !p.cancelRequested
      invariant Natural(PiecesOf(offset, end) + later)
      invariant p.resourceLimit.None? && !old(p.cancelRequested) ==>
                  AfterAsks(read, pass, no, PiecesOf(start, end) + later, old(p.missing), p.totalSize)
                  == AfterAsks(read, pass, next, PiecesOf(offset, end) + later, p.missing, p.totalSize)
    {
      if p.cancelRequested {
        return true, None, next;
      }
      AskUnfolds(read, pass, next, offset, end, later, p.missing, p.totalSize);
      var want := if COMPAT_READ_DATA < end - offset then COMPAT_READ_DATA else end - offset;
      ghost var before := p.missing;
      var after := Ask(p, pass, next, offset, want, read, end, others);
      WithinChains(p.missing, before, old(p.missing));
      next, offset := next + 1, offset + want;
      match after {
        case EndPass => return true, None, next;
        case Fail(f) => return true, Some(f), next;
        case GoOn =>
      }
    }
    NoPieceLeft(end, later);
  }

  lemma RangeWith(lo: nat, hi: int, later: seq<(int, int)>)
    requires Natural(later)
    ensures Natural(PiecesOf(lo, hi) + later)
  {
    RangeIsNatural(lo, hi);
  }

  lemma NoPieceLeft(end: int, later: seq<(int, int)>)
    ensures PiecesOf(end, end) + later == later
  {
  }

  /** Ask for every missing range in pieces, until an answer ends the pass. A server that answers each request with the
      requested slice, and a disk that keeps up, leave nothing missing after one pass. */
  method GapFillPass(p: PartFile, pass: nat, read: (nat, nat, nat, nat) -> Answer)
    returns (failure: Option<Failure>, asked: nat)
    requires p.Valid() && p.totalSize <= |p.remote|
    modifies p`missing, p`queue, p`resourceLimit, p`cancelRequested, p.file
    ensures p.Valid() && p.OnlyProgress()
    ensures failure == Some(Cancelled) ==> p.cancelRequested
    ensures failure.Some? ==> failure.value == Cancelled || failure.value == ReadRefused
    ensures Serves(read, p.remote) && old(p.resourceLimit).None? && !old(p.cancelRequested)
            ==> failure.None? && p.missing == [] && p.resourceLimit.None? && !p.cancelRequested
    ensures Natural(Pieces(old(p.missing)))
    ensures p.resourceLimit.None? && !old(p.cancelRequested) ==>
              (p.missing, failure, asked) == AfterAsks(read, pass, 0, Pieces(old(p.missing)), old(p.missing), p.totalSize)
    ensures old(p.Exact()) && TrueAnswers(read, p.remote) ==> p.Exact()
  {
    hide Matches, Proper, Applied, Within, Serves, Pieces, PiecesOf, TrueAnswers, PartFile.Exact, AfterAsks, Natural;
    ghost var exact := p.Exact() && TrueAnswers(read, p.remote);
    var snapshot := p.missing;
    failure, asked := None, 0;
    assert snapshot[0..] == snapshot;
    WithinItself(p.missing);
    ProperMeans(snapshot, 0, p.totalSize);
    PiecesAreNatural(snapshot, 0, p.totalSize);
    ghost var served := Serves(read, p.remote) && p.resourceLimit.None? && !p.cancelRequested;
    var i := 0;
    while i < |snapshot|
      invariant i <= |snapshot| && p.Valid() && p.OnlyProgress() && (exact ==> p.Exact())
      invariant served ==> p.missing == snapshot[i..] && p.resourceLimit.None? && !p.cancelRequested
      invariant !old(p.cancelRequested) ==> !p.cancelRequested
      invariant Natural(Pieces(snapshot[i..])) && failure.None?
      invariant p.resourceLimit.None? && !old(p.cancelRequested) ==>
                  AfterAsks(read, pass, 0, Pieces(snapshot), snapshot, p.totalSize)
                  == AfterAsks(read, pass, asked, Pieces(snapshot[i..]), p.missing, p.totalSize)
    {
      var start, end := snapshot[i].lo, snapshot[i].hi;
      assert snapshot[i..] == [Interval(start, end)] + snapshot[i + 1..];
      FirstRange(snapshot, i);
      ghost var before := p.missing;
      var over;
      over, failure, asked := FillRange(p, pass, asked, start, end, read, snapshot[i + 1..], Pieces(snapshot[i + 1..]));
      WithinChains(p.missing, before, old(p.missing));
      if over {
        return;
      }
      i := i + 1;
    }
    NothingToAsk(read, pass, asked, snapshot[i..], p.missing, p.totalSize);
  }

  lemma NothingToAsk(read: (nat, nat, nat, nat) -> Answer, pass: nat, no: nat, none: Intervals, m: Intervals, size: nat)
    requires none == []
    ensures Natural(Pieces(none)) && AfterAsks(read, pass, no, Pieces(none), m, size) == (m, None, no)
  {
  }

  lemma FirstRange(m: Intervals, i: nat)
    requires i < |m| && Natural(Pieces(m[i..]))
    ensures Pieces(m[i..]) == PiecesOf(m[i].lo, m[i].hi) + Pieces(m[i + 1..]) && Natural(Pieces(m[i + 1..]))
  {
    assert m[i..][1..] == m[i + 1..];
    var a, b := PiecesOf(m[i].lo, m[i].hi), Pieces(m[i + 1..]);
    assert forall k :: 0 <= k < |b| ==> b[k] == (a + b)[|a| + k];
  }

  /** The answers to all pieces, were all of them asked for. */
  ghost function Answers(read: (nat, nat, nat, nat) -> Answer, pass: nat, no: nat, pieces: seq<(int, int)>): (answers: seq<Answer>)
    requires Natural(pieces)
    ensures |answers| == |pieces|
    ensures forall k :: 0 <= k < |pieces| ==> answers[k] == read(pass, no + k, pieces[k].0, pieces[k].1)
  {
    seq(|pieces|, k requires 0 <= k < |pieces| => read(pass, no + k, pieces[k].0, pieces[k].1))
  }

  lemma AnswersUnfold(read: (nat, nat, nat, nat) -> Answer, pass: nat, no: nat, pieces: seq<(int, int)>, m: Intervals, size: nat)
    requires Natural(pieces) && pieces != []
    ensures var answers := Answers(read, pass, no, pieces);
            var (m', next) := AnswerMeans(answers[0], m, size);
            && Natural(pieces[1..]) && answers == [answers[0]] + Answers(read, pass, no + 1, pieces[1..])
            && (next.GoOn? <==> GivesData(answers[0]))
            && (!GivesData(answers[0]) ==> m' == m && AfterAsks(read, pass, no, pieces, m, size).0 == m
                                           && AfterAsks(read, pass, no, pieces, m, size).2 == no + 1)
            && (GivesData(answers[0]) ==>
                  AfterAsks(read, pass, no, pieces, m, size) == AfterAsks(read, pass, no + 1, pieces[1..], m', size))
  {
    hide Subtract;
  }

  /** A pass asks for its pieces in order up to the first answer that is not data. */
  lemma {:induction false} AsksStop(read: (nat, nat, nat, nat) -> Answer, pass: nat, no: nat, pieces: seq<(int, int)>, m: Intervals,
                                    size: nat)
    requires Natural(pieces)
    ensures var last, answers := AfterAsks(read, pass, no, pieces, m, size).2, Answers(read, pass, no, pieces);
            && no <= last <= no + |pieces|
            && (forall k :: 0 <= k < last - no - 1 ==> GivesData(answers[k]))
            && (last == no + |pieces| || (last > no && !GivesData(answers[last - no - 1])))
    decreases |pieces|
  {
    hide AnswerMeans, GivesData, Answers;
    if pieces != [] {
      AnswersUnfold(read, pass, no, pieces, m, size);
      var a := Answers(read, pass, no, pieces)[0];
      if GivesData(a) {
        AsksStop(read, pass, no + 1, pieces[1..], AnswerMeans(a, m, size).0, size);
      }
    }
  }

  /** None of the first `n` answers brings this byte. */
  ghost predicate NoneBrings(answers: seq<Answer>, n: int, x: int) {
    forall k :: 0 <= k < n && k < |answers| ==> !Brings(answers[k], x)
  }

  lemma NoneFirst(a: Answer, later: seq<Answer>, n: int, x: int)
    requires n > 0
    ensures NoneBrings([a] + later, n, x) <==> !Brings(a, x) && NoneBrings(later, n - 1, x)
  {
    hide Brings;
    var all := [a] + later;
    assert all[0] == a && forall k :: 0 <= k < |later| ==> all[k + 1] == later[k];
    assert forall k :: 1 <= k < |all| ==> all[k] == later[k - 1];
  }

  /** After a pass exactly what none of its answers has brought is missing. */
  lemma {:induction false} AsksBring(read: (nat, nat, nat, nat) -> Answer, pass: nat, no: nat, pieces: seq<(int, int)>, m: Intervals,
                                     size: nat, x: int)
    requires Natural(pieces) && Proper(m, 0, size)
    ensures var (m', failure, last) := AfterAsks(read, pass, no, pieces, m, size);
            Covers(m', x) <==> Covers(m, x) && NoneBrings(Answers(read, pass, no, pieces), last - no, x)
    decreases |pieces|
  {
    hide Subtract, Proper, Covers, NoneBrings, Answers, AfterAsks;
    if pieces == [] {
      NothingBrought(read, pass, no, pieces, m, size, x);
    } else {
      AnswersUnfold(read, pass, no, pieces, m, size);
      AsksStop(read, pass, no, pieces, m, size);
      var a, later := Answers(read, pass, no, pieces)[0], Answers(read, pass, no + 1, pieces[1..]);
      if GivesData(a) {
        var m' := AnswerMeans(a, m, size).0;
        DataBrings(a, m, size, x);
        AsksStop(read, pass, no + 1, pieces[1..], m', size);
        AsksBring(read, pass, no + 1, pieces[1..], m', size, x);
      }
      NoneFirst(a, later, AfterAsks(read, pass, no, pieces, m, size).2 - no, x);
      NoneLeft(later, x);
    }
  }

  lemma NothingBrought(read: (nat, nat, nat, nat) -> Answer, pass: nat, no: nat, none: seq<(int, int)>, m: Intervals, size: nat, x: int)
    requires none == []
    ensures Natural(none) && AfterAsks(read, pass, no, none, m, size) == (m, None, no) && NoneBrings(Answers(read, pass, no, none), 0, x)
  {
  }

  lemma NoneLeft(answers: seq<Answer>, x: int)
    ensures NoneBrings(answers, 0, x)
  {
  }

  lemma DataBrings(a: Answer, m: Intervals, size: nat, x: int)
    requires Proper(m, 0, size) && GivesData(a)
    ensures Proper(AnswerMeans(a, m, size).0, 0, size)
    ensures Covers(AnswerMeans(a, m, size).0, x) <==> Covers(m, x) && !Brings(a, x)
  {
    hide Subtract, Proper, Covers;
    var offset, n := a.reply.offset, |a.reply.data|;
    SubtractCovers(m, offset, Clipped(offset + n, size), x);
    if Covers(m, x) {
      CoveredBelow(m, 0, size, x);
    }
    SubtractKeepsProper(m, 0, size, offset, Clipped(offset + n, size));
  }

  predicate GivesData(a: Answer) {
    a.Answered? && a.reply.Chunk? && a.reply.data != []
  }

  predicate Brings(a: Answer, x: int) {
    GivesData(a) && a.reply.offset <= x < a.reply.offset + |a.reply.data|
  }

  /** One pass of the loop, burst or gap filling, and the queued writes that follow it. */
  method OnePass(p: PartFile, pass: nat, useGapFill: bool, peer: Peer) returns (failure: Option<Failure>)
    requires p.Valid() && p.totalSize <= |p.remote| && p.missing != [] && p.resourceLimit.None? && !p.cancelRequested
    modifies p`missing, p`queue, p`resourceLimit, p`cancelRequested, p.file
    ensures p.Valid() && p.OnlyProgress()
    ensures failure.None? ==> p.resourceLimit.None? && p.queue == []
    ensures 0 <= Remaining(p.missing) <= Remaining(old(p.missing))
    ensures failure == Some(Cancelled) ==> p.cancelRequested
    ensures failure != Some(Stalled)
    ensures useGapFill && Serves(peer.read, p.remote) ==>
              failure.None? && p.missing == [] && !p.cancelRequested && (old(p.Exact()) ==> p.Exact())
    ensures Serves(peer.read, p.remote) ==> failure != Some(ReadRefused)
    ensures old(p.Exact()) && TruePeer(peer, p.remote) ==> p.Exact()
  {
    hide Matches, Proper, Applied, Within, Serves, PartFile.Exact, TrueBurst, TrueAnswers, Remaining;
    if TruePeer(peer, p.remote) {
      BurstIsTrue(peer, p.remote, pass);
    }
    if Serves(peer.read, p.remote) {
      ServingIsTrue(peer.read, p.remote);
    }
    failure := None;
    if useGapFill {
      var asked;
      failure, asked := GapFillPass(p, pass, peer.read);
    } else {
      var remaining := if p.missing[0].hi > p.missing[0].lo then p.missing[0].hi - p.missing[0].lo else 0;
      var maxFrames := (remaining + MAX_DATA - 1) / MAX_DATA * 2 + BURST_PASS_FRAME_SLACK;
      var frames := BurstPass(p, peer.burst(pass), maxFrames);
    }
    if failure.None? {
      p.CompleteWrites(|p.queue|);
      failure := p.resourceLimit;
    }
    WithinMeans(p.missing, old(p.missing));
    RemainingPositive(p.missing, 0, p.totalSize);
  }

  /** Few enough bytes and ranges to be read one by one. */
  predicate GapsAreSmall(m: Intervals) {
    Remaining(m) <= GAP_FILL_MAX_BYTES && |m| <= GAP_FILL_MAX_INTERVALS
  }

  /** The loop of passes: it ends within a number of passes fixed by the size, stalled only after five passes in a row
      brought nothing, and never going on after ten. */
  method RunPasses(p: PartFile, peer: Peer) returns (failure: Option<Failure>, passes: nat, ghost trace: seq<nat>)
    requires p.Valid() && p.resourceLimit.None? && !p.cancelRequested && p.totalSize <= |p.remote|
    modifies p`missing, p`queue, p`resourceLimit, p`cancelRequested, p.file
    ensures p.Valid() && p.OnlyProgress()
    ensures failure.None? ==> p.missing == [] || p.cancelRequested
    ensures failure == Some(Cancelled) ==> p.cancelRequested
    ensures failure == Some(Stalled) ==> p.missing != []
    ensures passes <= 6 * Remaining(old(p.missing)) + 11
    ensures |trace| == passes + 1 && trace[0] == Remaining(old(p.missing)) && trace[passes] == Remaining(p.missing)
    ensures failure == Some(Stalled) ==> Flat(trace, MAX_NO_PROGRESS_PASSES)
    ensures NotFlatBefore(trace, 2 * MAX_NO_PROGRESS_PASSES)
    ensures old(p.Exact()) && TruePeer(peer, p.remote) ==> p.Exact()
    ensures Serves(peer.read, p.remote) ==> failure != Some(Stalled) && failure != Some(ReadRefused)
    ensures Serves(peer.read, p.remote) && old(GapsAreSmall(p.missing)) ==>
              failure.None? && !p.cancelRequested && (old(p.Exact()) ==> p.Exact())
  {
    hide Matches, Proper, Applied, Within, Serves, Remaining, Flat, NotFlatBefore, TruePeer, PartFile.Exact, PartFile.Image,
         AllFit, GapsAreSmall;
    failure, passes := None, 0;
    var noProgressPasses := 0;
    var forceReadFileFallback := false;
    WithinItself(p.missing);
    RemainingPositive(p.missing, 0, p.totalSize);
    trace := Begin(Remaining(p.missing), 2 * MAX_NO_PROGRESS_PASSES);
    ghost var flat := 0;
    while p.missing != [] && !p.cancelRequested
      invariant p.Valid() && p.OnlyProgress() && p.resourceLimit.None? && failure.None? && noProgressPasses < MAX_NO_PROGRESS_PASSES
      invariant old(p.Exact()) && TruePeer(peer, p.remote) ==> p.Exact()
      invariant Serves(peer.read, p.remote) && old(GapsAreSmall(p.missing)) ==>
                  !p.cancelRequested && (old(p.Exact()) ==> p.Exact()) && (p.missing == [] || p.missing == old(p.missing))
      invariant 0 <= Remaining(p.missing) && (passes > 0 ==> p.queue == [])
      invariant |trace| == passes + 1 && trace[0] == Remaining(old(p.missing)) && trace[passes] == Remaining(p.missing)
      invariant NotFlatBefore(trace, 2 * MAX_NO_PROGRESS_PASSES)
      invariant Flat(trace, noProgressPasses) && !Flat(trace, flat + 1)
      invariant flat <= noProgressPasses + if forceReadFileFallback then MAX_NO_PROGRESS_PASSES else 0
      invariant passes + 6 * Remaining(p.missing) + (if forceReadFileFallback then 0 else 6)
                + (MAX_NO_PROGRESS_PASSES - noProgressPasses) <= 6 * Remaining(old(p.missing)) + 11
      decreases Remaining(p.missing), if forceReadFileFallback then 0 else 1, MAX_NO_PROGRESS_PASSES - noProgressPasses
    {
      ghost var before := p.missing;
      var bytesBefore := Remaining(p.missing);
      var useGapFill := forceReadFileFallback || GapsAreSmall(p.missing);
      RemainingPositive(p.missing, 0, p.totalSize);
      failure := OnePass(p, passes, useGapFill, peer);
      passes := passes + 1;
      WithinChains(p.missing, before, old(p.missing));
      RemainingPositive(p.missing, 0, p.totalSize);
      trace := Extend(trace, Remaining(p.missing), noProgressPasses, flat, 2 * MAX_NO_PROGRESS_PASSES);
      flat := if Remaining(p.missing) < bytesBefore then 0 else flat + 1;
      if failure.Some? {
        return;
      }
      if Remaining(p.missing) < bytesBefore {
        noProgressPasses := 0;
      } else if !useGapFill {
        forceReadFileFallback, noProgressPasses := true, 0;
      } else {
        noProgressPasses := noProgressPasses + 1;
        if noProgressPasses >= MAX_NO_PROGRESS_PASSES {
          return Some(Stalled), passes, trace;
        }
      }
    }
  }

  /** The whole transfer against any peer. Success means nothing is missing and every write has been carried out, so the
      file is the remote file if the data the peer sends is. A server that answers reads is never given up on; and if
      little enough is missing from the start, it alone decides: the transfer succeeds with the remote file. */
  method Run(p: PartFile, peer: Peer) returns (failure: Option<Failure>, passes: nat, ghost trace: seq<nat>)
    requires p.Valid() && p.resourceLimit.None? && !p.cancelRequested
    requires p.totalSize == p.file.Length == |p.remote|
    modifies p`missing, p`queue, p`resourceLimit, p`cancelRequested, p.file
    ensures p.Valid() && p.OnlyProgress()
    ensures failure.None? ==> p.missing == [] && p.queue == []
    ensures failure.None? && old(p.Exact()) && TruePeer(peer, p.remote) ==> p.file[..] == p.remote
    ensures failure == Some(Cancelled) ==> p.cancelRequested
    ensures failure == Some(Stalled) ==> p.missing != []
    ensures passes <= 6 * p.totalSize + 11
    ensures |trace| == passes + 1 && trace[0] == Remaining(old(p.missing)) && trace[passes] == Remaining(p.missing)
    ensures failure == Some(Stalled) ==> Flat(trace, MAX_NO_PROGRESS_PASSES)
    ensures NotFlatBefore(trace, 2 * MAX_NO_PROGRESS_PASSES)
    ensures Serves(peer.read, p.remote) ==> failure != Some(Stalled) && failure != Some(ReadRefused)
    ensures Serves(peer.read, p.remote) && old(p.Exact() && GapsAreSmall(p.missing)) ==> failure.None? && p.file[..] == p.remote
  {
    hide Matches, Proper, Applied, Within, Serves, Remaining, Flat, NotFlatBefore, TruePeer, PartFile.Exact, PartFile.Image,
         AllFit, GapsAreSmall;
    RemainingPositive(p.missing, 0, p.totalSize);
    failure, passes, trace := RunPasses(p, peer);
    if failure.Some? {
      return;
    }
    p.CompleteWrites(|p.queue|);
    if p.cancelRequested {
      return Some(Cancelled), passes, trace;
    }
    if p.Exact() {
      WholeBeginning(p);
      assert p.file[..][..p.totalSize] == p.file[..] && p.remote[..p.totalSize] == p.remote;
    }
  }
}

/** From the transfer to a registered file: the checksum comparison, and the sequence counter of the protocol. */
module FtpClient {
  import opened Bytes
  import opened Crc
  import opened Intervals
  import opened FtpDownload
  import opened PartFiles

  /** The two files have one length and differ at most in two neighbouring bytes. */
  ghost predicate DifferWithinTwo(x: bytes, y: bytes) {
    exists k: nat :: AgreeOutside(x, y, k)
  }

  ghost predicate AgreeOutside(x: bytes, y: bytes, k: nat) {
    |x| == |y| && k + 2 <= |x| && forall i :: 0 <= i < |x| && i != k && i != k + 1 ==> x[i] == y[i]
  }

  /** Transfer a file, compare its checksum with the one the flight controller reports, and only then keep it. */
  method DownloadFile(size: nat, peer: Peer, remoteCrc: Option<nat>, table: array<nat>, ghost remote: bytes)
    returns (kept: Option<bytes>, failure: Option<Failure>)
    requires |remote| == size && IsTable(CRC32, table[..])
    ensures kept.Some? ==> |kept.value| == size && failure.None? && remoteCrc == Some(Checksum(CRC32, 0, kept.value))
    ensures kept.Some? && remoteCrc == Some(Checksum(CRC32, 0, remote)) && DifferWithinTwo(kept.value, remote)
            ==> kept.value == remote
    ensures failure.None? && TruePeer(peer, remote) ==>
              kept == if remoteCrc == Some(Checksum(CRC32, 0, remote)) then Some(remote) else None
    ensures Serves(peer.read, remote) && size <= GAP_FILL_MAX_BYTES && remoteCrc == Some(Checksum(CRC32, 0, remote)) ==>
              kept == Some(remote)
    ensures Serves(peer.read, remote) ==> failure != Some(Stalled) && failure != Some(ReadRefused)
  {
    hide Checksum, Serves, Matches, IsTable, Applied, TruePeer;
    var d := new PartFile(size, remote);
    var passes: nat;
    ghost var trace;
    failure, passes, trace := Run(d, peer);
    if failure.Some? {
      return None, failure;
    }
    var localCrc := Crc32File(table, d.file[..], 65536);
    if remoteCrc != Some(localCrc) {
      return None, failure;
    }
    BurstErrorsShow(d.file[..], remote);
    return Some(d.file[..]), failure;
  }

  lemma BurstErrorsShow(x: bytes, y: bytes)
    ensures DifferWithinTwo(x, y) && x != y ==> Checksum(CRC32, 0, x) != Checksum(CRC32, 0, y)
  {
    hide Checksum;
    if DifferWithinTwo(x, y) && x != y {
      var k: nat :| AgreeOutside(x, y, k);
      CodesAreProper();
      AdjacentErrorsDetected(CRC32, 0, x, y, k);
    }
  }

  /** Move past a reply's sequence number unless the reply is a duplicate or stale. */
  function AdvanceSeq(seqNo: nat, replySeq: nat): (next: nat)
    requires seqNo < 0x10000 && replySeq < 0x10000
    ensures next < 0x10000
  {
    var next := (replySeq + 1) % 0x10000;
    var forward := (next - seqNo + 0x10000) % 0x10000;
    if 0 < forward < 0x8000 then next else seqNo
  }

  /** Against counters that never wrap, the 16-bit rule takes the later of the two as long as they are less than
      half the range apart. */
  lemma AdvanceIsMaximum(local: nat, reply: nat)
    requires local - 0x8000 <= reply + 1 < local + 0x8000
    ensures AdvanceSeq(local % 0x10000, reply % 0x10000) == (if reply + 1 > local then reply + 1 else local) % 0x10000
  {
    var next := (reply % 0x10000 + 1) % 0x10000;
    SuccessorWraps(reply);
    WrapDifference(reply + 1, local);
  }

  lemma SuccessorWraps(n: nat)
    ensures (n % 0x10000 + 1) % 0x10000 == (n + 1) % 0x10000
  {
  }

  lemma WrapDifference(a: nat, b: nat)
    requires -0x8000 <= a - b < 0x8000
    ensures (a % 0x10000 - b % 0x10000 + 0x10000) % 0x10000 == if a >= b then a - b else a - b + 0x10000
  {
    var q, r := a / 0x10000, b / 0x10000;
    assert a == 0x10000 * q + a % 0x10000 && b == 0x10000 * r + b % 0x10000;
    assert -1 <= q - r <= 1;
  }
}
