/** Sorted lists of half-open intervals: the bytes of a transfer that are still missing. */
module Intervals {
  datatype Interval = Interval(lo: int, hi: int)
  type Intervals = seq<Interval>

  /** Ascending, disjoint, non-empty pieces inside [from, size). */
  predicate Proper(ivs: Intervals, from: int, size: int) {
    ivs == [] || (from <= ivs[0].lo < ivs[0].hi <= size && Proper(ivs[1..], ivs[0].hi, size))
  }

  predicate Covers(ivs: Intervals, x: int) {
    ivs != [] && (ivs[0].lo <= x < ivs[0].hi || Covers(ivs[1..], x))
  }

  function Remaining(ivs: Intervals): int {
    if ivs == [] then 0 else ivs[0].hi - ivs[0].lo + Remaining(ivs[1..])
  }

  /** What is left of one interval once [start, end) is removed. */
  function Pieces(iv: Interval, start: int, end: int): Intervals {
    if end <= iv.lo || start >= iv.hi then [iv]
    else (if start > iv.lo then [Interval(iv.lo, start)] else []) + if end < iv.hi then [Interval(end, iv.hi)] else []
  }

  function AllPieces(ivs: Intervals, start: int, end: int): Intervals {
    if ivs == [] then [] else Pieces(ivs[0], start, end) + AllPieces(ivs[1..], start, end)
  }

  function Subtract(ivs: Intervals, start: int, end: int): Intervals {
    if end <= start then ivs else AllPieces(ivs, start, end)
  }

  lemma {:induction false} AllPiecesSnoc(ivs: Intervals, iv: Interval, start: int, end: int)
    ensures AllPieces(ivs + [iv], start, end) == AllPieces(ivs, start, end) + Pieces(iv, start, end)
  {
    hide Pieces;
    if ivs == [] {
      assert ivs + [iv] == [iv];
      assert AllPieces([iv], start, end) == Pieces(iv, start, end) + AllPieces([], start, end);
    } else {
      assert (ivs + [iv])[1..] == ivs[1..] + [iv];
      AllPiecesSnoc(ivs[1..], iv, start, end);
    }
  }

  /** Remove [start, end) from an interval list. */
  method SubtractInterval(ivs: Intervals, start: int, end: int) returns (result: Intervals)
    ensures result == Subtract(ivs, start, end)
  {
    if end <= start {
      return ivs;
    }
    result := [];
    var i := 0;
    while i < |ivs|
      invariant i <= |ivs| && result == AllPieces(ivs[..i], start, end)
    {
      var a, b := ivs[i].lo, ivs[i].hi;
      AllPiecesSnoc(ivs[..i], ivs[i], start, end);
      assert ivs[..i + 1] == ivs[..i] + [ivs[i]];
      i := i + 1;
      if end <= a || start >= b {
        result := result + [Interval(a, b)];
        continue;
      }
      if start > a {
        result := result + [Interval(a, start)];
      }
      if end < b {
        result := result + [Interval(end, b)];
      }
    }
    assert ivs[..|ivs|] == ivs;
  }

  /** The recursive description says what it should: pieces in order, apart, inside the bounds. */
  lemma {:induction false} ProperMeans(ivs: Intervals, from: int, size: int)
    ensures Proper(ivs, from, size) <==>
              && (forall i :: 0 <= i < |ivs| ==> from <= ivs[i].lo < ivs[i].hi <= size)
              && (forall i, j :: 0 <= i < j < |ivs| ==> ivs[i].hi <= ivs[j].lo)
  {
    if ivs != [] {
      var rest := ivs[1..];
      ProperMeans(rest, ivs[0].hi, size);
      assert forall i :: 1 <= i < |ivs| ==> ivs[i] == rest[i - 1];
      assert forall i :: 0 <= i < |rest| ==> rest[i] == ivs[i + 1];
    }
  }

  lemma {:induction false} ProperWeaken(ivs: Intervals, from: int, from': int, size: int)
    requires Proper(ivs, from, size) && from' <= from
    ensures Proper(ivs, from', size)
  {
  }

  /** Removing a range keeps the list proper and shrinks the missing set by exactly that range. */
  lemma {:induction false} SubtractKeepsProper(ivs: Intervals, from: int, size: int, start: int, end: int)
    requires Proper(ivs, from, size)
    ensures Proper(Subtract(ivs, start, end), from, size)
  {
    if start < end && ivs != [] {
      var iv, rest := ivs[0], Subtract(ivs[1..], start, end);
      SubtractKeepsProper(ivs[1..], iv.hi, size, start, end);
      var p := Pieces(iv, start, end);
      PiecesInFront(p, rest, from, iv.hi, size);
    }
  }

  lemma PiecesInFront(p: Intervals, rest: Intervals, from: int, mid: int, size: int)
    requires |p| <= 2 && Proper(p, from, mid) && Proper(rest, mid, size) && from <= mid <= size
    ensures Proper(p + rest, from, size)
  {
    if |p| == 0 {
      assert p + rest == rest;
      ProperWeaken(rest, mid, from, size);
    } else if |p| == 1 {
      assert (p + rest)[1..] == rest;
      ProperWeaken(rest, mid, p[0].hi, size);
    } else {
      assert p[1..][1..] == [];
      assert (p + rest)[1..][1..] == rest && (p + rest)[1..][0] == p[1];
      ProperWeaken(rest, mid, p[1].hi, size);
      assert Proper((p + rest)[1..], p[0].hi, size);
    }
  }

  lemma {:induction false} CoversConcat(a: Intervals, b: Intervals, x: int)
    ensures Covers(a + b, x) <==> Covers(a, x) || Covers(b, x)
  {
    if a == [] {
      assert a + b == b;
    } else {
      assert (a + b)[1..] == a[1..] + b;
      CoversConcat(a[1..], b, x);
    }
  }

  lemma {:induction false} SubtractCovers(ivs: Intervals, start: int, end: int, x: int)
    ensures Covers(Subtract(ivs, start, end), x) <==> Covers(ivs, x) && !(start <= x < end)
  {
    if start < end && ivs != [] {
      SubtractCovers(ivs[1..], start, end, x);
      PiecesCover(ivs[0], start, end, x);
      CoversConcat(Pieces(ivs[0], start, end), AllPieces(ivs[1..], start, end), x);
    }
  }

  lemma PiecesCover(iv: Interval, start: int, end: int, x: int)
    requires start < end
    ensures Covers(Pieces(iv, start, end), x) <==> iv.lo <= x < iv.hi && !(start <= x < end)
  {
    var a := if start > iv.lo then [Interval(iv.lo, start)] else [];
    var b := if end < iv.hi then [Interval(end, iv.hi)] else [];
    CoversConcat(a, b, x);
    assert a != [] ==> a[1..] == [];
    assert b != [] ==> b[1..] == [];
    assert [iv][1..] == [];
  }

  /** Bytes of [start, end) that were still missing. */
  function Overlap(ivs: Intervals, start: int, end: int): nat {
    if ivs == [] then 0
    else
      var lo := if start > ivs[0].lo then start else ivs[0].lo;
      var hi := if end < ivs[0].hi then end else ivs[0].hi;
      (if lo < hi then hi - lo else 0) + Overlap(ivs[1..], start, end)
  }

  lemma {:induction false} RemainingConcat(a: Intervals, b: Intervals)
    ensures Remaining(a + b) == Remaining(a) + Remaining(b)
  {
    if a == [] {
      assert a + b == b;
    } else {
      assert (a + b)[1..] == a[1..] + b;
      RemainingConcat(a[1..], b);
    }
  }

  /** The count of newly recovered bytes is exactly the overlap, and no overlap means no change at all. */
  lemma {:induction false} SubtractRemaining(ivs: Intervals, from: int, size: int, start: int, end: int)
    requires Proper(ivs, from, size)
    ensures Remaining(Subtract(ivs, start, end)) == Remaining(ivs) - Overlap(ivs, start, end)
    ensures Overlap(ivs, start, end) == 0 ==> Subtract(ivs, start, end) == ivs
    ensures |Subtract(ivs, start, end)| <= |ivs| + 1
    ensures ivs != [] && end <= ivs[0].lo ==> Subtract(ivs, start, end) == ivs
  {
    if ivs == [] {
    } else {
      var iv := ivs[0];
      SubtractRemaining(ivs[1..], iv.hi, size, start, end);
      if start < end {
        var p := Pieces(iv, start, end);
        RemainingConcat(p, AllPieces(ivs[1..], start, end));
        PiecesRemaining(iv, start, end);
        if ivs[1..] != [] {
          assert ivs[1..][0].lo >= iv.hi;
        }
      } else {
        NoOverlap(ivs, start, end);
      }
    }
  }

  lemma {:induction false} NoOverlap(ivs: Intervals, start: int, end: int)
    requires end <= start
    ensures Overlap(ivs, start, end) == 0
  {
    if ivs != [] {
      NoOverlap(ivs[1..], start, end);
    }
  }

  lemma PiecesRemaining(iv: Interval, start: int, end: int)
    requires iv.lo < iv.hi && start < end
    ensures Remaining(Pieces(iv, start, end)) == iv.hi - iv.lo - Overlap([iv], start, end)
    ensures Overlap([iv], start, end) == 0 ==> Pieces(iv, start, end) == [iv]
    ensures |Pieces(iv, start, end)| <= 2 && (|Pieces(iv, start, end)| == 2 ==> end < iv.hi)
  {
    var a := if start > iv.lo then [Interval(iv.lo, start)] else [];
    var b := if end < iv.hi then [Interval(end, iv.hi)] else [];
    RemainingConcat(a, b);
    assert a != [] ==> a[1..] == [];
    assert b != [] ==> b[1..] == [];
    assert [iv][1..] == [];
  }

  lemma {:induction false} RemainingPositive(ivs: Intervals, from: int, size: int)
    requires Proper(ivs, from, size)
    ensures 0 <= Remaining(ivs) && (from <= size ==> Remaining(ivs) <= size - from)
    ensures Remaining(ivs) == 0 <==> ivs == []
  {
    if ivs != [] {
      RemainingPositive(ivs[1..], ivs[0].hi, size);
    }
  }

  lemma {:induction false} CoveredInside(ivs: Intervals, from: int, size: int, x: int)
    requires Proper(ivs, from, size) && Covers(ivs, x)
    ensures from <= x < size
  {
    if !(ivs[0].lo <= x < ivs[0].hi) {
      CoveredInside(ivs[1..], ivs[0].hi, size, x);
    }
  }

  ghost function CoveredSet(ivs: Intervals, from: int, size: int): set<int> {
    set x | from <= x < size && Covers(ivs, x)
  }

  lemma {:induction false} SingleCount(lo: int, hi: int)
    requires lo <= hi
    ensures |CoveredSet([Interval(lo, hi)], lo, hi)| == hi - lo
    decreases hi - lo
  {
    var s := CoveredSet([Interval(lo, hi)], lo, hi);
    if lo < hi {
      SingleCount(lo, hi - 1);
      assert s == CoveredSet([Interval(lo, hi - 1)], lo, hi - 1) + {hi - 1};
    } else {
      assert s == {};
    }
  }

  /** `Remaining` counts exactly the missing bytes. */
  lemma {:induction false} RemainingCounts(ivs: Intervals, from: int, size: int)
    requires Proper(ivs, from, size) && from <= size
    ensures Remaining(ivs) == |CoveredSet(ivs, from, size)|
  {
    if ivs == [] {
      assert CoveredSet(ivs, from, size) == {};
    } else {
      var iv, rest := ivs[0], ivs[1..];
      RemainingCounts(rest, iv.hi, size);
      SingleCount(iv.lo, iv.hi);
      var first := CoveredSet([iv], iv.lo, iv.hi);
      forall x | x in CoveredSet(ivs, from, size) ensures x in first + CoveredSet(rest, iv.hi, size) {
        if Covers(rest, x) {
          CoveredInside(rest, iv.hi, size, x);
        }
      }
      assert CoveredSet(ivs, from, size) == first + CoveredSet(rest, iv.hi, size);
    }
  }
}
