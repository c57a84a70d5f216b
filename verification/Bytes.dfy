/** Bytes, and exclusive-or on natural numbers with the few laws the checksum proofs need. */
module Bytes {

  type byte = b: int | 0 <= b < 256
  type bytes = seq<byte>

  datatype Option<+T> = None | Some(value: T)

  /** Two bytes read as one number, high byte first. */
  function U16(high: int, low: int): int {
    256 * high + low
  }

  /** All chunks laid end to end. */
  function Joined(chunks: seq<bytes>): bytes {
    if chunks == [] then [] else chunks[0] + Joined(chunks[1..])
  }

  lemma {:induction false} JoinedSnoc(chunks: seq<bytes>, c: bytes)
    ensures Joined(chunks + [c]) == Joined(chunks) + c
  {
    if chunks == [] {
      assert chunks + [c] == [c];
    } else {
      assert (chunks + [c])[1..] == chunks[1..] + [c];
      JoinedSnoc(chunks[1..], c);
    }
  }

  function PowerOfTwo(n: nat): (p: nat)
    ensures p > 0
  {
    if n == 0 then 1 else 2 * PowerOfTwo(n - 1)
  }

  lemma Powers()
    ensures PowerOfTwo(7) == 0x80 && PowerOfTwo(8) == 0x100 && PowerOfTwo(15) == 0x8000 && PowerOfTwo(16) == 0x10000
  {
    assert PowerOfTwo(4) == 16;
    assert PowerOfTwo(8) == 16 * PowerOfTwo(4);
    assert PowerOfTwo(12) == 16 * PowerOfTwo(8);
    assert PowerOfTwo(16) == 16 * PowerOfTwo(12);
  }

  /** Bitwise exclusive-or of two non-negative numbers. */
  function Xor(a: nat, b: nat): nat {
    if a == 0 && b == 0 then 0 else 2 * Xor(a / 2, b / 2) + (if a % 2 == b % 2 then 0 else 1)
  }

  lemma {:induction false} XorCommutes(a: nat, b: nat)
    ensures Xor(a, b) == Xor(b, a)
  {
    if a != 0 || b != 0 {
      XorCommutes(a / 2, b / 2);
    }
  }

  lemma {:induction false} XorHalves(a: nat, b: nat)
    ensures Xor(a, b) / 2 == Xor(a / 2, b / 2)
    ensures Xor(a, b) % 2 == if a % 2 == b % 2 then 0 else 1
  {
  }

  lemma XorDouble(a: nat, b: nat)
    ensures Xor(2 * a, 2 * b) == 2 * Xor(a, b)
  {
    hide Xor;
    XorHalves(2 * a, 2 * b);
  }

  lemma {:induction false} XorAssociates(a: nat, b: nat, c: nat)
    ensures Xor(Xor(a, b), c) == Xor(a, Xor(b, c))
    decreases a + b + c
  {
    if a != 0 || b != 0 || c != 0 {
      XorAssociates(a / 2, b / 2, c / 2);
      XorHalves(a, b);
      XorHalves(b, c);
      XorHalves(Xor(a, b), c);
      XorHalves(a, Xor(b, c));
    }
  }

  lemma {:induction false} XorZero(a: nat)
    ensures Xor(a, 0) == a
    ensures Xor(0, a) == a
  {
    if a != 0 {
      XorZero(a / 2);
    }
  }

  lemma {:induction false} XorSelf(a: nat)
    ensures Xor(a, a) == 0
  {
    if a != 0 {
      XorSelf(a / 2);
    }
  }

  lemma XorCancels(a: nat, b: nat)
    ensures Xor(Xor(a, b), b) == a
  {
    hide Xor;
    XorAssociates(a, b, b);
    XorSelf(b);
    XorZero(a);
  }

  lemma XorSwap(a: nat, b: nat, c: nat)
    ensures Xor(Xor(a, b), c) == Xor(Xor(a, c), b)
  {
    XorAssociates(a, b, c);
    XorCommutes(b, c);
    XorAssociates(a, c, b);
  }

  lemma {:induction false} ModHalf(a: nat, n: nat)
    requires n > 0
    ensures a % PowerOfTwo(n) == a % 2 + 2 * (a / 2 % PowerOfTwo(n - 1))
    ensures a % PowerOfTwo(n) % 2 == a % 2
    ensures a % PowerOfTwo(n) / 2 == a / 2 % PowerOfTwo(n - 1)
  {
    var p := PowerOfTwo(n - 1);
    var q, r := a / 2 / p, a / 2 % p;
    assert a / 2 == q * p + r;
    assert q * (2 * p) == 2 * (q * p);
    assert a == q * (2 * p) + (2 * r + a % 2);
    ModUnique(a, 2 * p, q, 2 * r + a % 2);
    assert a % PowerOfTwo(n) == 2 * r + a % 2;
  }

  lemma MultipleBounds(k: int, d: nat)
    ensures k >= 1 ==> k * d >= d
    ensures k <= -1 ==> k * d + d <= 0
  {
    assert k * d - d == (k - 1) * d && k * d + d == (k + 1) * d;
  }

  lemma ModUnique(a: nat, d: nat, q: nat, r: nat)
    requires d > 0 && r < d && a == q * d + r
    ensures a % d == r && a / d == q
  {
    var q', r' := a / d, a % d;
    assert (q' - q) * d == r - r';
    MultipleBounds(q' - q, d);
  }

  lemma {:induction false} XorMod(a: nat, b: nat, n: nat)
    ensures Xor(a, b) % PowerOfTwo(n) == Xor(a % PowerOfTwo(n), b % PowerOfTwo(n))
  {
    if n == 0 {
    } else {
      XorMod(a / 2, b / 2, n - 1);
      ModHalf(a, n);
      ModHalf(b, n);
      ModHalf(Xor(a, b), n);
      XorHalves(a, b);
      XorHalves(a % PowerOfTwo(n), b % PowerOfTwo(n));
    }
  }

  lemma {:induction false} XorBelow(a: nat, b: nat, n: nat)
    requires a < PowerOfTwo(n) && b < PowerOfTwo(n)
    ensures Xor(a, b) < PowerOfTwo(n)
  {
    if n > 0 {
      XorBelow(a / 2, b / 2, n - 1);
    }
  }

  /** Shift right by `n` bits. */
  function Shr(a: nat, n: nat): nat
    decreases n
  {
    if n == 0 then a else Shr(a / 2, n - 1)
  }

  lemma {:induction false} XorShr(a: nat, b: nat, n: nat)
    ensures Shr(Xor(a, b), n) == Xor(Shr(a, n), Shr(b, n))
    decreases n
  {
    if n > 0 {
      XorHalves(a, b);
      XorShr(a / 2, b / 2, n - 1);
    }
  }

  /** Shift left by `n` bits. */
  function Shl(a: nat, n: nat): nat {
    if n == 0 then a else 2 * Shl(a, n - 1)
  }

  lemma {:induction false} XorShl(a: nat, b: nat, n: nat)
    ensures Shl(Xor(a, b), n) == Xor(Shl(a, n), Shl(b, n))
  {
    hide Xor;
    if n > 0 {
      XorShl(a, b, n - 1);
      XorDouble(Shl(a, n - 1), Shl(b, n - 1));
    }
  }

  lemma ShlEight(a: nat)
    ensures Shl(a, 8) == 256 * a
  {
    assert Shl(a, 1) == 2 * a;
    assert Shl(a, 3) == 4 * Shl(a, 1);
    assert Shl(a, 5) == 4 * Shl(a, 3);
    assert Shl(a, 7) == 4 * Shl(a, 5);
  }

  lemma {:induction false} ShrTop(a: nat, n: nat)
    ensures a < PowerOfTwo(n) ==> Shr(a, n) == 0
    ensures PowerOfTwo(n) <= a < PowerOfTwo(n + 1) ==> Shr(a, n) == 1
    decreases n
  {
    if n > 0 {
      ShrTop(a / 2, n - 1);
    }
  }

  lemma {:induction false} ShrAdd(a: nat, m: nat, n: nat)
    ensures Shr(Shr(a, m), n) == Shr(a, m + n)
    decreases m
  {
    if m > 0 {
      ShrAdd(a / 2, m - 1, n);
    }
  }

  lemma ShrEight(a: nat)
    ensures Shr(a, 8) == a / 256
  {
    ShrAdd(a, 2, 2);
    ShrAdd(a, 4, 4);
    ShrAdd(Shr(a, 4), 2, 2);
    assert Shr(a, 2) == a / 4;
    assert Shr(a, 4) == a / 16;
    assert Shr(a, 6) == a / 64 by { ShrAdd(a, 4, 2); }
    ShrAdd(a, 6, 2);
  }

  lemma {:induction false} ShrShl(a: nat, m: nat, n: nat)
    requires m <= n
    ensures Shr(Shl(a, m), n) == Shr(a, n - m)
    decreases m
  {
    if m > 0 {
      ShrShl(a, m - 1, n - 1);
    }
  }

  /** Truncation above bit `n` does not change bit `n`. */
  lemma {:induction false} ShrMod(a: nat, n: nat)
    ensures Shr(a % PowerOfTwo(n + 1), n) % 2 == Shr(a, n) % 2
    decreases n
  {
    ModHalf(a, n + 1);
    if n > 0 {
      ShrMod(a / 2, n - 1);
    }
  }

  /** Numbers that share no bits add up. */
  lemma XorDisjoint(h: nat, l: byte)
    ensures Xor(256 * h, l) == 256 * h + l
  {
    hide Xor, Shr;
    var x := Xor(256 * h, l);
    assert x / 256 == h by {
      XorShr(256 * h, l, 8);
      ShrEight(x);
      ShrEight(256 * h);
      ShrEight(l);
      XorZero(h);
    }
    assert x % 256 == l by {
      Powers();
      XorMod(256 * h, l, 8);
      XorZero(l);
    }
  }

  /** A lone bit above all the bits of a number adds to it. */
  lemma {:induction false} XorTopBit(n: nat, l: nat)
    requires l < PowerOfTwo(n)
    ensures Xor(PowerOfTwo(n), l) == PowerOfTwo(n) + l
  {
    if n > 0 {
      XorTopBit(n - 1, l / 2);
    }
  }

  lemma SliceOfSlice(s: bytes, a: nat, b: nat, i: nat, j: nat)
    requires a <= b <= |s| && i <= j <= b - a
    ensures s[a..b][i..j] == s[a + i..a + j]
  {
    var x, y := s[a..b][i..j], s[a + i..a + j];
    forall k | 0 <= k < |x| ensures x[k] == y[k] {
      assert s[a..b][i + k] == s[a + i + k];
    }
  }

  /** The value of some bytes, low byte first. */
  function LittleEndian(data: bytes): nat {
    if data == [] then 0 else data[0] as nat + 256 * LittleEndian(data[1..])
  }

  /** The low `n` bytes of a value, low byte first. */
  function LowBytes(v: int, n: nat): (b: bytes)
    ensures |b| == n
    decreases n
  {
    if n == 0 then [] else [v % 256] + LowBytes(v / 256, n - 1)
  }

  lemma {:induction false} LowBytesReadBack(v: nat, n: nat)
    requires v < PowerOfTwo(8 * n)
    ensures LittleEndian(LowBytes(v, n)) == v
  {
    if n > 0 {
      PowerOfEight(n);
      LowBytesReadBack(v / 256, n - 1);
      assert LowBytes(v, n)[1..] == LowBytes(v / 256, n - 1);
    }
  }

  lemma PowerDoubles(m: nat)
    ensures PowerOfTwo(m + 1) == 2 * PowerOfTwo(m)
  {
  }

  lemma PowerOfEight(n: nat)
    requires n > 0
    ensures PowerOfTwo(8 * n) == 256 * PowerOfTwo(8 * (n - 1))
  {
    hide PowerOfTwo;
    var m := 8 * (n - 1);
    PowerDoubles(m);
    PowerDoubles(m + 1);
    PowerDoubles(m + 2);
    PowerDoubles(m + 3);
    PowerDoubles(m + 4);
    PowerDoubles(m + 5);
    PowerDoubles(m + 6);
    PowerDoubles(m + 7);
  }
}
