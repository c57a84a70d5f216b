/** Maps that remember insertion order, oldest entry first, with a bounded number of entries. */
module OrderedMaps {
  import opened Bytes

  datatype Entry<+K, +V> = Entry(key: K, value: V)

  function Find<K(==), V>(m: seq<Entry<K, V>>, k: K): Option<V> {
    if m == [] then None else if m[0].key == k then Some(m[0].value) else Find(m[1..], k)
  }

  function Without<K(==), V>(m: seq<Entry<K, V>>, k: K): seq<Entry<K, V>> {
    if m == [] then [] else if m[0].key == k then Without(m[1..], k) else [m[0]] + Without(m[1..], k)
  }

  /** Replace the value of an existing key in place; otherwise add the entry at the young end. */
  function Put<K(==), V>(m: seq<Entry<K, V>>, k: K, v: V): seq<Entry<K, V>> {
    if m == [] then [Entry(k, v)]
    else if m[0].key == k then [Entry(k, v)] + m[1..]
    else [m[0]] + Put(m[1..], k, v)
  }

  /** Drop the oldest entries until fewer than `cap` are left. */
  function MakeRoom<E>(m: seq<E>, cap: nat): seq<E>
    requires cap > 0
  {
    if |m| < cap then m else m[|m| - cap + 1..]
  }

  function KeysOf<K, V>(m: seq<Entry<K, V>>): set<K> {
    set i | 0 <= i < |m| :: m[i].key
  }

  /** Remove `k` if present, make room and append: the entry becomes the youngest. */
  function Touch<K(==), V>(m: seq<Entry<K, V>>, k: K, v: V, cap: nat): seq<Entry<K, V>>
    requires cap > 0
  {
    MakeRoom(Without(m, k), cap) + [Entry(k, v)]
  }

  ghost predicate Distinct<K, V>(m: seq<Entry<K, V>>) {
    forall i, j :: 0 <= i < j < |m| ==> m[i].key != m[j].key
  }

  lemma {:induction false} FindAt<K, V>(m: seq<Entry<K, V>>, p: nat)
    requires Distinct(m) && p < |m|
    ensures Find(m, m[p].key) == Some(m[p].value)
  {
    if p > 0 {
      assert m[0].key != m[p].key;
      FindAt(m[1..], p - 1);
    }
  }

  lemma {:induction false} FindNowhere<K, V>(m: seq<Entry<K, V>>, k: K)
    ensures Find(m, k).None? <==> forall i :: 0 <= i < |m| ==> m[i].key != k
  {
    if m != [] {
      FindNowhere(m[1..], k);
      assert forall i :: 0 < i < |m| ==> m[i] == m[1..][i - 1];
      assert forall i :: 0 <= i < |m| - 1 ==> m[1..][i] == m[i + 1];
    }
  }

  lemma {:induction false} WithoutAbsent<K, V>(m: seq<Entry<K, V>>, k: K)
    requires forall i :: 0 <= i < |m| ==> m[i].key != k
    ensures Without(m, k) == m
  {
    if m != [] {
      WithoutAbsent(m[1..], k);
    }
  }

  lemma {:induction false} WithoutAt<K, V>(m: seq<Entry<K, V>>, p: nat)
    requires Distinct(m) && p < |m|
    ensures Without(m, m[p].key) == m[..p] + m[p + 1..]
  {
    if p == 0 {
      assert forall i :: 0 <= i < |m| - 1 ==> m[1..][i] == m[i + 1];
      WithoutAbsent(m[1..], m[0].key);
    } else {
      assert m[0].key != m[p].key;
      WithoutAt(m[1..], p - 1);
      assert m[..p] == [m[0]] + m[1..][..p - 1];
      assert m[1..][p..] == m[p + 1..];
    }
  }

  /** Removing a key either removes exactly one entry or changes nothing. */
  lemma WithoutCases<K, V>(m: seq<Entry<K, V>>, k: K) returns (p: nat)
    requires Distinct(m)
    ensures p <= |m| && (p < |m| ==> m[p].key == k)
    ensures p == |m| ==> Without(m, k) == m && forall i :: 0 <= i < |m| ==> m[i].key != k
    ensures p < |m| ==> Without(m, k) == m[..p] + m[p + 1..]
  {
    p := 0;
    while p < |m| && m[p].key != k
      invariant p <= |m| && forall i :: 0 <= i < p ==> m[i].key != k
    {
      p := p + 1;
    }
    if p == |m| {
      WithoutAbsent(m, k);
    } else {
      WithoutAt(m, p);
    }
  }

  lemma WithoutShape<K, V>(m: seq<Entry<K, V>>, k: K)
    requires Distinct(m)
    ensures Distinct(Without(m, k)) && |Without(m, k)| <= |m|
    ensures forall i :: 0 <= i < |Without(m, k)| ==> Without(m, k)[i].key != k
  {
    var p := WithoutCases(m, k);
    if p < |m| {
      var w := m[..p] + m[p + 1..];
      forall i | 0 <= i < |w| ensures w[i] == m[if i < p then i else i + 1] {
      }
    }
  }

  lemma TouchKeepsShape<K, V>(m: seq<Entry<K, V>>, k: K, v: V, cap: nat)
    requires cap > 0 && Distinct(m)
    ensures Distinct(Touch(m, k, v, cap)) && |Touch(m, k, v, cap)| <= cap
    ensures Touch(m, k, v, cap)[|Touch(m, k, v, cap)| - 1] == Entry(k, v)
  {
    WithoutShape(m, k);
  }

  lemma {:induction false} DistinctKeysCount<K, V>(m: seq<Entry<K, V>>)
    requires Distinct(m)
    ensures |KeysOf(m)| == |m|
  {
    if m != [] {
      var front := m[..|m| - 1];
      DistinctKeysCount(front);
      KeysOfSnoc(front, m[|m| - 1]);
      assert m == front + [m[|m| - 1]];
      assert m[|m| - 1].key !in KeysOf(front);
    }
  }

  lemma KeysOfSnoc<K, V>(m: seq<Entry<K, V>>, e: Entry<K, V>)
    ensures KeysOf(m + [e]) == KeysOf(m) + {e.key}
  {
    assert (m + [e])[|m|] == e;
    assert forall i :: 0 <= i < |m| ==> (m + [e])[i] == m[i];
  }

  lemma KeysOfConcat<K, V>(a: seq<Entry<K, V>>, b: seq<Entry<K, V>>)
    ensures KeysOf(a + b) == KeysOf(a) + KeysOf(b)
  {
    assert forall i :: 0 <= i < |a| ==> (a + b)[i] == a[i];
    assert forall i :: 0 <= i < |b| ==> (a + b)[|a| + i] == b[i];
  }
}

/** The bounded, least-recently-accepted table of watermarks, related to the history of acceptances. */
module Watermarks {
  import opened Bytes
  import opened OrderedMaps

  type History<K> = seq<Entry<K, int>>

  /** The table after a history of acceptances. */
  function Table<K(==)>(h: History<K>, cap: nat): seq<Entry<K, int>>
    requires cap > 0
  {
    if h == [] then []
    else Touch(Table(h[..|h| - 1], cap), h[|h| - 1].key, h[|h| - 1].value, cap)
  }

  /** Every acceptance was above the watermark in force at that moment, if there was one. */
  ghost predicate Admissible<K>(h: History<K>, cap: nat)
    requires cap > 0
  {
    forall i {:trigger h[i]} :: 0 <= i < |h| ==>
      var previous := Find(Table(h[..i], cap), h[i].key);
      previous.None? || previous.value < h[i].value
  }

  lemma {:induction false} TableShape<K>(h: History<K>, cap: nat)
    requires cap > 0
    ensures Distinct(Table(h, cap)) && |Table(h, cap)| <= cap
  {
    if h != [] {
      TableShape(h[..|h| - 1], cap);
      TouchKeepsShape(Table(h[..|h| - 1], cap), h[|h| - 1].key, h[|h| - 1].value, cap);
    }
  }

  /** Where the entry of acceptance `i` is kept: behind it in the table are exactly the keys accepted since. */
  ghost predicate KeptAt<K>(h: History<K>, i: nat, cap: nat, p: nat)
    requires cap > 0 && i < |h|
  {
    p < |Table(h, cap)| && Table(h, cap)[p] == h[i] && KeysOf(Table(h, cap)[p + 1..]) == KeysOf(h[i + 1..])
  }

  ghost predicate Forgotten<K>(h: History<K>, i: nat, cap: nat)
    requires cap > 0 && i < |h|
  {
    forall q :: 0 <= q < |Table(h, cap)| ==> Table(h, cap)[q].key != h[i].key
  }

  /** The last acceptance of a key is remembered exactly while fewer than `cap` other keys have been accepted. */
  lemma {:induction false} RememberedOrForgotten<K>(h: History<K>, i: nat, cap: nat) returns (p: nat)
    requires cap > 0 && i < |h| && h[i].key !in KeysOf(h[i + 1..])
    ensures |KeysOf(h[i + 1..])| < cap ==> KeptAt(h, i, cap, p)
    ensures |KeysOf(h[i + 1..])| >= cap ==> Forgotten(h, i, cap)
    decreases |h|
  {
    hide Without, Distinct;
    var n := |h| - 1;
    var h' := h[..n];
    TableShape(h', cap);
    TouchKeepsShape(Table(h', cap), h[n].key, h[n].value, cap);
    if i == n {
      p := |Table(h, cap)| - 1;
      assert h[i + 1..] == [] && Table(h, cap)[p + 1..] == [];
    } else {
      assert h[i + 1..] == h'[i + 1..] + [h[n]] && h'[i] == h[i];
      KeysOfSnoc(h'[i + 1..], h[n]);
      var p' := RememberedOrForgotten(h', i, cap);
      p := TouchMoves(Table(h', cap), h[i], h[n], cap, KeysOf(h'[i + 1..]), p');
    }
  }

  /** One more acceptance, of another key: the entry moves towards the old end or falls off it. */
  lemma TouchMoves<K>(t: seq<Entry<K, int>>, e: Entry<K, int>, x: Entry<K, int>, cap: nat, since: set<K>, p: nat) returns (p': nat)
    requires cap > 0 && Distinct(t) && |t| <= cap && x.key != e.key
    requires |since| < cap ==> p < |t| && t[p] == e && KeysOf(t[p + 1..]) == since
    requires |since| >= cap ==> forall q :: 0 <= q < |t| ==> t[q].key != e.key
    ensures var u := Touch(t, x.key, x.value, cap);
            && (|since + {x.key}| < cap ==> p' < |u| && u[p'] == e && KeysOf(u[p' + 1..]) == since + {x.key})
            && (|since + {x.key}| >= cap ==> forall q :: 0 <= q < |u| ==> u[q].key != e.key)
  {
    hide Without, KeysOf;
    p' := 0;
    var w := Without(t, x.key);
    WithoutShape(t, x.key);
    if |since| >= cap {
      WithoutKeepsOut(t, x.key, e.key);
      AddingGrows(since, x.key);
    } else {
      var pos := WithoutMoves(t, p, x.key);
      DistinctKeysCount(w[pos + 1..]);
      ReplacedSize(since, x.key);
      p' := RoomMoves(w, pos, x, cap);
    }
  }

  lemma ReplacedSize<K>(s: set<K>, k: K)
    ensures |s + {k}| == |s - {k}| + 1 && s - {k} + {k} == s + {k}
  {
    assert s + {k} == (s - {k}) + {k};
  }

  lemma AddingGrows<K>(s: set<K>, k: K)
    ensures |s + {k}| >= |s|
  {
    if k in s {
      assert s + {k} == s;
    }
  }

  lemma WithoutKeepsOut<K>(t: seq<Entry<K, int>>, k: K, out: K)
    requires Distinct(t) && forall q :: 0 <= q < |t| ==> t[q].key != out
    ensures forall q :: 0 <= q < |Without(t, k)| ==> Without(t, k)[q].key != out
  {
    var q := WithoutCases(t, k);
  }

  lemma WithoutMoves<K>(t: seq<Entry<K, int>>, p: nat, k: K) returns (pos: nat)
    requires Distinct(t) && p < |t| && t[p].key != k
    ensures var w := Without(t, k);
            pos < |w| && w[pos] == t[p] && KeysOf(w[pos + 1..]) == KeysOf(t[p + 1..]) - {k}
  {
    var q := WithoutCases(t, k);
    var w := Without(t, k);
    if q == |t| {
      pos := p;
    } else if q < p {
      pos := p - 1;
      assert w[pos + 1..] == t[p + 1..];
    } else {
      pos := p;
      var mid, last := t[p + 1..q], t[q + 1..];
      assert w[pos + 1..] == mid + last;
      assert t[p + 1..] == mid + [t[q]] + last;
      KeysOfConcat(mid, last);
      KeysOfConcat(mid + [t[q]], last);
      KeysOfSnoc(mid, t[q]);
    }
  }

  lemma RoomMoves<K>(w: seq<Entry<K, int>>, pos: nat, x: Entry<K, int>, cap: nat) returns (p': nat)
    requires cap > 0 && Distinct(w) && pos < |w|
    requires forall i :: 0 <= i < |w| ==> w[i].key != x.key
    requires x.key != w[pos].key
    ensures var u := MakeRoom(w, cap) + [x];
            && (|w| - pos < cap ==> p' < |u| && u[p'] == w[pos] && KeysOf(u[p' + 1..]) == KeysOf(w[pos + 1..]) + {x.key})
            && (|w| - pos >= cap ==> forall q :: 0 <= q < |u| ==> u[q].key != w[pos].key)
  {
    var d := if |w| < cap then 0 else |w| - cap + 1;
    var u := MakeRoom(w, cap) + [x];
    assert MakeRoom(w, cap) == w[d..];
    p' := if pos >= d then pos - d else 0;
    if pos >= d {
      assert u[p' + 1..] == w[pos + 1..] + [x];
      KeysOfSnoc(w[pos + 1..], x);
    }
  }

  // ---------------------------------------------------------------------------------------------------
  // No replay below the watermark, for as long as it is kept
  // ---------------------------------------------------------------------------------------------------

  /** The keys accepted strictly between two moments. */
  function Between<K>(h: History<K>, i: nat, j: nat): set<K>
    requires i < j <= |h|
  {
    KeysOf(h[i + 1..j])
  }

  /** Two acceptances of one key with none in between, and fewer than `cap` other keys in between. */
  lemma NextIsLater<K>(h: History<K>, i: nat, j: nat, cap: nat)
    requires cap > 0 && Admissible(h, cap)
    requires i < j < |h| && h[i].key == h[j].key && h[i].key !in Between(h, i, j)
    requires |Between(h, i, j)| < cap
    ensures h[i].value < h[j].value
  {
    var h' := h[..j];
    assert h'[i] == h[i] && h'[i + 1..] == h[i + 1..j];
    var p := RememberedOrForgotten(h', i, cap);
    TableShape(h', cap);
    FindAt(Table(h', cap), p);
    assert h[j].key == h[i].key;
  }

  /** Accepted timestamps of a key strictly increase over the whole run, unless `cap` other keys were accepted
      since an earlier acceptance. */
  lemma {:induction false} AcceptedIncrease<K>(h: History<K>, i: nat, j: nat, cap: nat)
    requires cap > 0 && Admissible(h, cap)
    requires i < j < |h| && h[i].key == h[j].key
    requires |Between(h, i, j) - {h[i].key}| < cap
    ensures h[i].value < h[j].value
    decreases j - i
  {
    var m := LastBefore(h, i, j);
    BetweenShrinks(h, i, j, m, j);
    SubsetIsSmaller(Between(h, m, j), Between(h, i, j) - {h[i].key});
    NextIsLater(h, m, j, cap);
    if m > i {
      BetweenShrinks(h, i, j, i, m);
      SubsetIsSmaller(Between(h, i, m) - {h[i].key}, Between(h, i, j) - {h[i].key});
      AcceptedIncrease(h, i, m, cap);
    }
  }

  /** The last acceptance of the key of `i` before moment `j`. */
  lemma LastBefore<K>(h: History<K>, i: nat, j: nat) returns (m: nat)
    requires i < j <= |h|
    ensures i <= m < j && h[m].key == h[i].key && h[i].key !in Between(h, m, j)
  {
    m := j - 1;
    while h[m].key != h[i].key
      invariant i <= m < j
      invariant forall q :: m < q < j ==> h[q].key != h[i].key
      decreases m
    {
      m := m - 1;
    }
  }

  lemma BetweenShrinks<K>(h: History<K>, i: nat, j: nat, i': nat, j': nat)
    requires i <= i' < j' <= j <= |h|
    ensures Between(h, i', j') <= Between(h, i, j)
  {
    assert h[i + 1..j] == h[i + 1..i' + 1] + h[i' + 1..j'] + h[j'..j];
    KeysOfConcat(h[i + 1..i' + 1], h[i' + 1..j']);
    KeysOfConcat(h[i + 1..i' + 1] + h[i' + 1..j'], h[j'..j]);
  }

  lemma SubsetIsSmaller<K>(a: set<K>, b: set<K>)
    requires a <= b
    ensures |a| <= |b|
  {
    var rest := b - a;
    assert b == a + rest;
  }

  /** The bound is exact: once `cap` other keys have been accepted the watermark is gone, whatever its value. */
  lemma WatermarkGone<K>(h: History<K>, i: nat, cap: nat)
    requires cap > 0 && i < |h| && h[i].key !in KeysOf(h[i + 1..])
    ensures Find(Table(h, cap), h[i].key).None? <==> |KeysOf(h[i + 1..])| >= cap
  {
    var p := RememberedOrForgotten(h, i, cap);
    TableShape(h, cap);
    FindNowhere(Table(h, cap), h[i].key);
    if |KeysOf(h[i + 1..])| < cap {
      FindAt(Table(h, cap), p);
    }
  }
}
