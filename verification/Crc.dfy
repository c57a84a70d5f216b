/** Serial feedback registers: the bit-by-bit definitions of the checksums, and what holds of all of them. */
module CrcRegisters {
  import opened Bytes

  /** A shift direction with its width and feedback polynomial. */
  datatype Code = Msb16 | Lsb(width: nat, poly: nat)

  function Width(c: Code): nat {
    if c.Msb16? then 16 else c.width
  }

  function Limit(c: Code): nat {
    PowerOfTwo(Width(c))
  }

  function Poly(c: Code): nat {
    if c.Msb16? then 0x1021 else c.poly
  }

  /** The polynomial fits its register and the feedback can be undone. */
  predicate Proper(c: Code) {
    Width(c) > 0 && Poly(c) < Limit(c) && (c.Lsb? ==> PowerOfTwo(c.width - 1) <= c.poly)
  }

  /** Move every bit one position towards the output end. */
  function Shift(c: Code, r: nat): nat {
    if c.Msb16? then 2 * r % 0x10000 else r / 2
  }

  /** The bit about to leave the register. */
  predicate Out(c: Code, r: nat) {
    if c.Msb16? then Shr(r, 15) % 2 == 1 else r % 2 == 1
  }

  /** The defining step: shift one message bit in. */
  function Feed(c: Code, r: nat, bit: bool): nat {
    if Out(c, r) != bit then Xor(Shift(c, r), Poly(c)) else Shift(c, r)
  }

  function FeedAll(c: Code, r: nat, bits: seq<bool>): nat {
    if bits == [] then r else Feed(c, FeedAll(c, r, bits[..|bits| - 1]), bits[|bits| - 1])
  }

  /** The same register running without message input, the loop body of every table construction. */
  function Step(c: Code, r: nat): nat {
    if Out(c, r) then Xor(Shift(c, r), Poly(c)) else Shift(c, r)
  }

  function Steps(c: Code, r: nat, n: nat): nat {
    if n == 0 then r else Step(c, Steps(c, r, n - 1))
  }

  function Shifted(c: Code, w: nat, n: nat): nat {
    if n == 0 then w else Shift(c, Shifted(c, w, n - 1))
  }

  lemma ShiftXor(c: Code, r: nat, w: nat)
    ensures Shift(c, Xor(r, w)) == Xor(Shift(c, r), Shift(c, w))
    ensures Out(c, Xor(r, w)) == (Out(c, r) != Out(c, w))
  {
    hide Shr, Xor;
    if c.Msb16? {
      Powers();
      XorDouble(r, w);
      XorMod(2 * r, 2 * w, 16);
      XorShr(r, w, 15);
      XorHalves(Shr(r, 15), Shr(w, 15));
    } else {
      XorHalves(r, w);
    }
  }

  /** Input xored into the register acts exactly like message bits fed at the output end. */
  lemma Absorb(c: Code, r: nat, w: nat)
    ensures Step(c, Xor(r, w)) == Xor(Feed(c, r, Out(c, w)), Shift(c, w))
  {
    ShiftXor(c, r, w);
    hide Xor;
    XorSwap(Shift(c, r), Shift(c, w), Poly(c));
  }

  lemma {:induction false} AbsorbAll(c: Code, r: nat, w: nat, bits: seq<bool>)
    requires forall k :: 0 <= k < |bits| ==> Out(c, Shifted(c, w, k)) == bits[k]
    ensures Steps(c, Xor(r, w), |bits|) == Xor(FeedAll(c, r, bits), Shifted(c, w, |bits|))
  {
    hide Xor, Out, Shift, Step, Feed;
    if bits != [] {
      var n := |bits| - 1;
      AbsorbAll(c, r, w, bits[..n]);
      Absorb(c, FeedAll(c, r, bits[..n]), Shifted(c, w, n));
      assert Out(c, Shifted(c, w, n)) == bits[n];
    }
  }

  lemma {:induction false} FeedZeros(c: Code, r: nat, bits: seq<bool>)
    requires forall k :: 0 <= k < |bits| ==> !bits[k]
    ensures FeedAll(c, r, bits) == Steps(c, r, |bits|)
  {
    hide Xor, Out, Shift;
    if bits != [] {
      FeedZeros(c, r, bits[..|bits| - 1]);
    }
  }

  /** The register is linear: running it on an exclusive-or is running it on each operand. */
  lemma {:induction false} StepsXor(c: Code, r: nat, w: nat, n: nat)
    ensures Steps(c, Xor(r, w), n) == Xor(Steps(c, r, n), Steps(c, w, n))
  {
    hide Xor, Out, Shift;
    if n > 0 {
      StepsXor(c, r, w, n - 1);
      var a, b := Steps(c, r, n - 1), Steps(c, w, n - 1);
      ShiftXor(c, a, b);
      var x, y, p := Shift(c, a), Shift(c, b), Poly(c);
      XorSwap(x, y, p);
      XorAssociates(x, y, p);
      XorSwap(x, p, Xor(y, p));
      XorAssociates(x, y, p);
      XorCancels(Xor(x, y), p);
      XorAssociates(x, p, Xor(y, p));
      XorCommutes(p, Xor(y, p));
      XorCancels(y, p);
    }
  }

  lemma StepInRange(c: Code, r: nat)
    requires Proper(c) && r < Limit(c)
    ensures Step(c, r) < Limit(c)
  {
    hide Xor;
    Powers();
    XorBelow(Shift(c, r), Poly(c), Width(c));
  }

  /** What the step before put out can be read off the result, so the step loses nothing. */
  lemma StepOut(c: Code, r: nat)
    requires Proper(c) && r < Limit(c)
    ensures Out(c, r) == (if c.Msb16? then Step(c, r) % 2 == 1 else Shr(Step(c, r), c.width - 1) == 1)
  {
    hide Xor, Shr;
    Powers();
    var s := Shift(c, r);
    if c.Msb16? {
      XorHalves(s, 0x1021);
    } else {
      var n := c.width - 1;
      ShrTop(s, n);
      ShrTop(c.poly, n);
      XorZero(1);
      XorZero(0);
      XorShr(s, c.poly, n);
    }
  }

  lemma StepInjective(c: Code, r: nat, s: nat)
    requires Proper(c) && r < Limit(c) && s < Limit(c)
    requires Step(c, r) == Step(c, s)
    ensures r == s
  {
    hide Xor, Shr;
    StepOut(c, r);
    StepOut(c, s);
    XorCancels(Shift(c, r), Poly(c));
    XorCancels(Shift(c, s), Poly(c));
    if c.Msb16? {
      Powers();
      ShrTop(r, 15);
      ShrTop(s, 15);
    }
  }

  lemma {:induction false} StepsInjective(c: Code, r: nat, s: nat, n: nat)
    requires Proper(c) && r < Limit(c) && s < Limit(c)
    ensures Steps(c, r, n) < Limit(c) && Steps(c, s, n) < Limit(c)
    ensures Steps(c, r, n) == Steps(c, s, n) ==> r == s
  {
    hide Step;
    if n > 0 {
      StepsInjective(c, r, s, n - 1);
      StepInRange(c, Steps(c, r, n - 1));
      StepInRange(c, Steps(c, s, n - 1));
      if Steps(c, r, n) == Steps(c, s, n) {
        StepInjective(c, Steps(c, r, n - 1), Steps(c, s, n - 1));
      }
    }
  }
}

/** The checksum algorithms as the ground station runs them. */
module Crc {
  import opened Bytes
  import opened CrcRegisters

  /** ITU-T V.41, most significant bit first, initial value chosen by the caller. */
  const XMODEM: Code := Msb16

  /** The reflected ITU-T V.41 code of MAVLink. */
  const X25: Code := Lsb(16, 0x8408)

  /** The reflected IEEE 802.3 code of MAVLink FTP. */
  const CRC32: Code := Lsb(32, 0xedb88320)

  // ---------------------------------------------------------------------------------------------------
  // Bit-by-bit definition of a message checksum
  // ---------------------------------------------------------------------------------------------------

  predicate BitAt(b: nat, k: nat) {
    Shr(b, k) % 2 == 1
  }

  /** The bits of a byte in transmission order. */
  function BitsOf(c: Code, b: byte): seq<bool> {
    seq(8, k requires 0 <= k < 8 => BitAt(b, if c.Lsb? then k else 7 - k))
  }

  function Checksum(c: Code, seed: nat, data: bytes): nat
    decreases |data|
  {
    if data == [] then seed else Checksum(c, FeedAll(c, seed, BitsOf(c, data[0])), data[1..])
  }

  /** Chunks compose through the seed. */
  lemma {:induction false} ChecksumConcat(c: Code, seed: nat, a: bytes, b: bytes)
    ensures Checksum(c, seed, a + b) == Checksum(c, Checksum(c, seed, a), b)
    decreases |a|
  {
    if a == [] {
      assert a + b == b;
    } else {
      assert (a + b)[1..] == a[1..] + b;
      ChecksumConcat(c, FeedAll(c, seed, BitsOf(c, a[0])), a[1..], b);
    }
  }

  lemma ChecksumSnoc(c: Code, seed: nat, data: bytes, n: nat)
    requires n < |data|
    ensures Checksum(c, seed, data[..n + 1]) == FeedAll(c, Checksum(c, seed, data[..n]), BitsOf(c, data[n]))
  {
    assert data[..n + 1] == data[..n] + [data[n]];
    ChecksumConcat(c, seed, data[..n], [data[n]]);
  }

  // ---------------------------------------------------------------------------------------------------
  // From bits to bytes
  // ---------------------------------------------------------------------------------------------------

  /** Where a message byte enters the register. */
  function Enter(c: Code, b: byte): nat {
    if c.Msb16? then 256 * b else b
  }

  lemma DoubleMod(x: nat)
    ensures 2 * (x % 0x10000) % 0x10000 == 2 * x % 0x10000
  {
    var q, r := x / 0x10000, x % 0x10000;
    assert 2 * x == 0x10000 * (2 * q) + 2 * r;
  }

  lemma {:induction false} MsbShifted(w: nat, n: nat)
    requires w < 0x10000
    ensures Shifted(Msb16, w, n) == Shl(w, n) % 0x10000
  {
    if n > 0 {
      MsbShifted(w, n - 1);
      DoubleMod(Shl(w, n - 1));
    }
  }

  lemma {:induction false} LsbShifted(c: Code, w: nat, n: nat)
    requires c.Lsb?
    ensures Shifted(c, w, n) == Shr(w, n)
  {
    if n > 0 {
      LsbShifted(c, w, n - 1);
      ShrAdd(w, n - 1, 1);
    }
  }

  /** A byte sitting at the output end leaves bit by bit in transmission order, and then is gone. */
  lemma EnteredByteLeaves(c: Code, b: byte, k: nat)
    requires k < 8
    ensures Out(c, Shifted(c, Enter(c, b), k)) == BitsOf(c, b)[k]
    ensures Shifted(c, Enter(c, b), 8) == 0
  {
    hide Shr, Shl, Shifted;
    if c.Msb16? {
      var w := Enter(c, b);
      MsbShifted(w, k);
      MsbShifted(w, 8);
      Powers();
      ShlEight(b);
      ShlEight(w);
      ShrMod(Shl(w, k), 15);
      ShrShl(w, k, 15);
      ShrShl(b, 8, 15 - k);
    } else {
      LsbShifted(c, b, k);
      LsbShifted(c, b, 8);
      ShrEight(b);
    }
  }

  /** Feeding a byte bit by bit is xoring it in and running the register for eight steps. */
  lemma FeedByte(c: Code, r: nat, b: byte)
    ensures FeedAll(c, r, BitsOf(c, b)) == Steps(c, Xor(r, Enter(c, b)), 8)
  {
    hide Xor, Out, FeedAll, Steps, Shifted;
    forall k | 0 <= k < 8 ensures Out(c, Shifted(c, Enter(c, b), k)) == BitsOf(c, b)[k] {
      EnteredByteLeaves(c, b, k);
    }
    AbsorbAll(c, r, Enter(c, b), BitsOf(c, b));
    EnteredByteLeaves(c, b, 0);
    XorZero(FeedAll(c, r, BitsOf(c, b)));
  }

  /** What a lookup table holds at index `v`. */
  function TableEntry(c: Code, v: byte): nat {
    Steps(c, Enter(c, v), 8)
  }

  /** The byte about to leave, and the rest of the register moved eight places. */
  function Leaving(c: Code, x: nat): byte
    requires c.Msb16? ==> x < 0x10000
  {
    if c.Msb16? then x / 256 else x % 256
  }

  function Staying(c: Code, x: nat): nat {
    if c.Msb16? then x * 256 % 0x10000 else x / 256
  }

  lemma MsbLeavesNothing(x: nat, k: nat)
    requires k < 8
    ensures !Out(Msb16, Shifted(Msb16, x % 256, k)) && Shifted(Msb16, x % 256, 8) == Staying(Msb16, x)
  {
    hide Shr, Shl, Shifted;
    var w := x % 256;
    MsbShifted(w, k);
    MsbShifted(w, 8);
    Powers();
    ShlEight(w);
    ShrMod(Shl(w, k), 15);
    ShrShl(w, k, 15);
    ShrAdd(w, 8, 7 - k);
    ShrEight(w);
    ShrZero(7 - k);
  }

  lemma StayingLeavesNothing(c: Code, x: nat, k: nat)
    requires k < 8
    ensures var w := if c.Msb16? then x % 256 else 256 * (x / 256);
            !Out(c, Shifted(c, w, k)) && Shifted(c, w, 8) == Staying(c, x)
  {
    hide Shr, Shl, Shifted;
    if c.Msb16? {
      MsbLeavesNothing(x, k);
    } else {
      var h := x / 256;
      LsbShifted(c, 256 * h, k);
      LsbShifted(c, 256 * h, 8);
      ShlEight(h);
      ShrEight(256 * h);
      ShlShr(h, 8, k);
    }
  }

  lemma {:induction false} ShrZero(n: nat)
    ensures Shr(0, n) == 0
  {
    if n > 0 {
      ShrZero(n - 1);
    }
  }

  lemma {:induction false} ShlShr(a: nat, m: nat, n: nat)
    requires n < m
    ensures Shr(Shl(a, m), n) % 2 == 0
    decreases n
  {
    if n > 0 {
      ShlShr(a, m - 1, n - 1);
    }
  }

  /** The table identity: eight steps are one lookup for the leaving byte plus a shift of the rest. */
  lemma StepsByTable(c: Code, x: nat)
    requires c.Msb16? ==> x < 0x10000
    ensures Steps(c, x, 8) == Xor(Staying(c, x), TableEntry(c, Leaving(c, x)))
  {
    hide Xor, Out, FeedAll, Steps, Shifted, Staying;
    var zeros := seq(8, _ => false);
    var w := if c.Msb16? then x % 256 else 256 * (x / 256);
    var r := Enter(c, Leaving(c, x));
    forall k | 0 <= k < 8 ensures Out(c, Shifted(c, w, k)) == zeros[k] {
      StayingLeavesNothing(c, x, k);
    }
    StayingLeavesNothing(c, x, 0);
    XorDisjoint(x / 256, x % 256);
    XorCommutes(256 * (x / 256), x % 256);
    assert Xor(r, w) == x;
    AbsorbAll(c, r, w, zeros);
    FeedZeros(c, r, zeros);
    XorCommutes(Steps(c, r, 8), Staying(c, x));
  }

  // ---------------------------------------------------------------------------------------------------
  // The algorithms
  // ---------------------------------------------------------------------------------------------------

  /** The table construction loops shared by both table-driven codes. */
  method BuildTable(c: Code) returns (table: array<nat>)
    ensures fresh(table) && IsTable(c, table[..])
  {
    table := new nat[256];
    for i := 0 to 256
      invariant forall v: byte :: v < i ==> table[v] == TableEntry(c, v)
    {
      var crc := if c.Msb16? then 256 * i else i;
      for bit := 0 to 8
        invariant crc == Steps(c, Enter(c, i), bit)
      {
        crc := if Out(c, crc) then Xor(Shift(c, crc), Poly(c)) else Shift(c, crc);
      }
      table[i] := crc;
    }
  }

  ghost predicate IsTable(c: Code, table: seq<nat>) {
    |table| == 256 && forall v: byte :: table[v] == TableEntry(c, v)
  }

  /** One byte of the table-driven update, most significant bit first. */
  lemma MsbTableStep(table: seq<nat>, crc: nat, b: byte)
    requires IsTable(Msb16, table) && crc < 0x10000
    ensures FeedAll(Msb16, crc, BitsOf(Msb16, b)) == Xor(crc * 256 % 0x10000, table[Xor(crc / 256, b) % 256])
  {
    hide Xor, Shr, Out, FeedAll, Steps, TableEntry, BitsOf;
    var x := Xor(crc, 256 * b);
    FeedByte(Msb16, crc, b);
    XorHighByte(crc, b);
    StepsByTable(Msb16, x);
    assert Staying(Msb16, x) == crc * 256 % 0x10000;
    assert table[Leaving(Msb16, x)] == TableEntry(Msb16, Leaving(Msb16, x));
  }

  lemma XorHighByte(crc: nat, b: byte)
    requires crc < 0x10000
    ensures var x := Xor(crc, 256 * b);
            x < 0x10000 && x / 256 == Xor(crc / 256, b) && x % 256 == crc % 256
  {
    hide Xor, Shr;
    Powers();
    XorHighParts(crc, b);
    XorBelow(crc, 256 * b, 16);
  }

  lemma XorHighParts(crc: nat, b: byte)
    ensures var x := Xor(crc, 256 * b); x / 256 == Xor(crc / 256, b) && x % 256 == crc % 256
  {
    hide Xor, Shr, PowerOfTwo;
    assert 256 * b / 256 == b && 256 * b % 256 == 0;
    XorBytes(crc, 256 * b);
    XorZero(crc % 256);
  }

  /** Exclusive-or works on the low byte and on the rest separately. */
  lemma XorBytes(a: nat, b: nat)
    ensures Xor(a, b) / 256 == Xor(a / 256, b / 256)
    ensures Xor(a, b) % 256 == Xor(a % 256, b % 256)
  {
    hide Xor, Shr;
    assert Xor(a, b) / 256 == Xor(a / 256, b / 256) by {
      XorShr(a, b, 8);
      ShrEight(a);
      ShrEight(b);
      ShrEight(Xor(a, b));
    }
    XorLowBytes(a, b);
  }

  lemma XorLowBytes(a: nat, b: nat)
    ensures Xor(a, b) % 256 == Xor(a % 256, b % 256)
  {
    hide Xor, Shr;
    XorMod(a, b, 8);
    assert PowerOfTwo(8) == 256 by { Powers(); }
  }

  lemma XorLowByte(crc: nat, b: byte)
    ensures var x := Xor(crc, b);
            x / 256 == crc / 256 && x % 256 == Xor(crc % 256, b)
  {
    hide Xor;
    XorBytes(crc, b);
    XorZero(crc / 256);
  }

  /** One byte of the table-driven update, least significant bit first. */
  lemma LsbTableStep(c: Code, table: seq<nat>, crc: nat, b: byte)
    requires c.Lsb? && IsTable(c, table)
    ensures FeedAll(c, crc, BitsOf(c, b)) == Xor(table[Xor(crc, b) % 256], crc / 256)
  {
    hide Xor, Shr, Out, FeedAll, Steps, TableEntry, BitsOf;
    var x := Xor(crc, b);
    FeedByte(c, crc, b);
    XorLowByte(crc, b);
    StepsByTable(c, x);
    assert table[Leaving(c, x)] == TableEntry(c, Leaving(c, x));
    XorCommutes(Staying(c, x), TableEntry(c, Leaving(c, x)));
  }

  lemma FeedInRange(c: Code, r: nat, bits: seq<bool>)
    requires Proper(c) && r < Limit(c)
    ensures FeedAll(c, r, bits) < Limit(c)
  {
    if bits != [] {
      FeedInRange(c, r, bits[..|bits| - 1]);
      var s := FeedAll(c, r, bits[..|bits| - 1]);
      Powers();
      XorBelow(Shift(c, s), Poly(c), Width(c));
    }
  }

  lemma {:induction false} ChecksumInRange(c: Code, seed: nat, data: bytes)
    requires Proper(c) && seed < Limit(c)
    ensures Checksum(c, seed, data) < Limit(c)
    decreases |data|
  {
    if data != [] {
      FeedInRange(c, seed, BitsOf(c, data[0]));
      ChecksumInRange(c, FeedAll(c, seed, BitsOf(c, data[0])), data[1..]);
    }
  }

  lemma CodesAreProper()
    ensures Proper(XMODEM) && Proper(X25) && Proper(CRC32)
    ensures Limit(XMODEM) == 0x10000 && Limit(X25) == 0x10000 && Limit(CRC32) == 0x1_0000_0000
  {
    Powers();
    assert PowerOfTwo(20) == 16 * PowerOfTwo(16);
    assert PowerOfTwo(24) == 16 * PowerOfTwo(20);
    assert PowerOfTwo(28) == 16 * PowerOfTwo(24);
    assert PowerOfTwo(31) == 8 * PowerOfTwo(28);
  }

  /** CRC16-XMODEM over a buffer, continuing from `seed`. */
  method Crc16Xmodem(table: array<nat>, data: bytes, seed: nat) returns (crc: nat)
    requires IsTable(XMODEM, table[..])
    ensures crc == Checksum(XMODEM, seed % 0x10000, data) < 0x10000
  {
    hide Xor, FeedAll, BitsOf, TableEntry;
    CodesAreProper();
    crc := seed % 0x10000;
    for i := 0 to |data|
      invariant crc == Checksum(XMODEM, seed % 0x10000, data[..i]) < 0x10000
    {
      MsbTableStep(table[..], crc, data[i]);
      ChecksumSnoc(XMODEM, seed % 0x10000, data, i);
      ChecksumInRange(XMODEM, seed % 0x10000, data[..i + 1]);
      crc := Xor(crc * 256 % 0x10000, table[Xor(crc / 256, data[i]) % 256]);
    }
    assert data[..|data|] == data;
  }

  /** The CRC32 of MAVLink FTP: no initial or final inversion. */
  method UpdateCrc32(table: array<nat>, state: nat, data: bytes) returns (crc: nat)
    requires IsTable(CRC32, table[..])
    requires state < 0x1_0000_0000
    ensures crc == Checksum(CRC32, state, data) < 0x1_0000_0000
  {
    hide Xor, FeedAll, BitsOf, TableEntry;
    CodesAreProper();
    crc := state;
    for i := 0 to |data|
      invariant crc == Checksum(CRC32, state, data[..i]) < 0x1_0000_0000
    {
      LsbTableStep(CRC32, table[..], crc, data[i]);
      ChecksumSnoc(CRC32, state, data, i);
      ChecksumInRange(CRC32, state, data[..i + 1]);
      crc := Xor(table[Xor(crc, data[i]) % 256], crc / 256);
    }
    assert data[..|data|] == data;
  }

  /** Streaming a file through a fixed buffer, whatever amount each read returns, gives the whole-file value. */
  method Crc32File(table: array<nat>, file: bytes, bufferSize: nat) returns (crc: nat)
    requires IsTable(CRC32, table[..])
    requires bufferSize > 0
    ensures crc == Checksum(CRC32, 0, file)
  {
    crc := 0;
    var position := 0;
    while position < |file|
      invariant position <= |file|
      invariant crc == Checksum(CRC32, 0, file[..position]) < 0x1_0000_0000
      decreases |file| - position
    {
      var bytesRead :| 0 < bytesRead <= bufferSize && position + bytesRead <= |file|;
      var chunk := file[position..position + bytesRead];
      assert file[..position + bytesRead] == file[..position] + chunk;
      ChecksumConcat(CRC32, 0, file[..position], chunk);
      crc := UpdateCrc32(table, crc, chunk);
      position := position + bytesRead;
    }
    assert file[..|file|] == file;
  }

  // ---------------------------------------------------------------------------------------------------
  // X.25 without a table
  // ---------------------------------------------------------------------------------------------------

  /** Folding a byte onto itself by nibbles. */
  function Folded(v: nat): byte {
    Xor(v, 16 * v) % 256
  }

  function Unfolded(w: nat): nat {
    Xor(Xor(256 * w, 8 * w), w / 16)
  }

  lemma XorQuads(a: nat, b: nat, c: nat, d: nat)
    ensures Xor(Xor(a, b), Xor(c, d)) == Xor(Xor(a, c), Xor(b, d))
  {
    hide Xor;
    XorAssociates(Xor(a, b), c, d);
    XorSwap(a, b, c);
    XorAssociates(Xor(a, c), b, d);
  }

  lemma ShiftsAsProducts(a: nat)
    ensures Shl(a, 3) == 8 * a && Shl(a, 4) == 16 * a && Shr(a, 4) == a / 16
  {
    assert Shl(a, 1) == 2 * a && Shl(a, 2) == 4 * a;
    ShrAdd(a, 2, 2);
    assert Shr(a, 2) == a / 4;
  }

  lemma FoldedXor(a: nat, b: nat)
    ensures Folded(Xor(a, b)) == Xor(Folded(a), Folded(b))
  {
    hide Xor, Shl, Shr;
    ShiftsAsProducts(a);
    ShiftsAsProducts(b);
    ShiftsAsProducts(Xor(a, b));
    XorShl(a, b, 4);
    XorQuads(a, b, 16 * a, 16 * b);
    Powers();
    XorMod(Xor(a, 16 * a), Xor(b, 16 * b), 8);
  }

  lemma UnfoldedXor(a: nat, b: nat)
    ensures Unfolded(Xor(a, b)) == Xor(Unfolded(a), Unfolded(b))
  {
    hide Xor, Shl, Shr;
    ShiftsAsProducts(a);
    ShiftsAsProducts(b);
    ShiftsAsProducts(Xor(a, b));
    ShlEight(a);
    ShlEight(b);
    ShlEight(Xor(a, b));
    XorShl(a, b, 3);
    XorShl(a, b, 8);
    XorShr(a, b, 4);
    XorQuads(256 * a, 256 * b, 8 * a, 8 * b);
    XorQuads(Xor(256 * a, 8 * a), Xor(256 * b, 8 * b), a / 16, b / 16);
  }

  /** Single-bit inputs of the low nibble. */
  lemma LowNibbleBasis(u: nat, k: nat)
    requires k < 4 && u == Shl(1, k)
    ensures u <= 8 && Unfolded(Folded(u)) == 0x1189 * u
  {
    hide Xor;
    assert u == 1 || u == 2 || u == 4 || u == 8;
    assert Folded(u) == 17 * u by {
      XorEvenOne(8);
      XorShl(16, 1, k);
      ShlScales(16, k);
      ShlScales(17, k);
      XorCommutes(u, 16 * u);
    }
    ShlScales(0x1100, k);
    ShlScales(0x88, k);
    ShlScales(0x1188, k);
    ShlScales(0x1189, k);
    XorDisjoint(0x11, 0x88);
    XorShl(0x1100, 0x88, k);
    XorEvenOne(0x8c4);
    XorShl(0x1188, 1, k);
  }

  /** Single-bit inputs of the high nibble. */
  lemma HighNibbleBasis(u: nat, k: nat)
    requires k < 4 && u == Shl(1, k)
    ensures u <= 8 && Unfolded(Folded(16 * u)) == 0x1081 * u
  {
    hide Xor;
    assert u == 1 || u == 2 || u == 4 || u == 8;
    assert Folded(16 * u) == 16 * u by {
      Powers();
      XorMod(16 * u, 256 * u, 8);
      XorZero(16 * u);
    }
    ShlScales(0x1000, k);
    ShlScales(0x80, k);
    ShlScales(0x1080, k);
    ShlScales(0x1081, k);
    XorDisjoint(0x10, 0x80);
    XorShl(0x1000, 0x80, k);
    XorEvenOne(0x840);
    XorShl(0x1080, 1, k);
  }

  lemma {:induction false} ShlScales(a: nat, k: nat)
    ensures Shl(a, k) == a * Shl(1, k)
  {
    if k > 0 {
      ShlScales(a, k - 1);
    }
  }

  lemma XorEvenOne(h: nat)
    ensures Xor(2 * h, 1) == 2 * h + 1
  {
    XorZero(h);
  }

  lemma {:induction false} StepsFromStep(c: Code, r: nat, n: nat)
    ensures Steps(c, r, n + 1) == Steps(c, Step(c, r), n)
  {
    hide Step;
    if n > 0 {
      StepsFromStep(c, r, n - 1);
    }
  }

  lemma LoneXor()
    ensures Xor(0x840, 0x8408) == 0x8c48
  {
    XorEvenOne(8);
    XorShl(16, 1, 2);
    assert Shl(16, 1) == 32 && Shl(1, 1) == 2 && Shl(17, 1) == 34;
    assert Xor(0x81, 8) == 0x89;
    hide Xor, Shl;
    XorShl(16, 1, 8);
    ShlEight(16);
    ShlEight(1);
    ShlEight(17);
    XorDisjoint(1, 8);
    XorDisjoint(16, 0x81);
    XorQuads(0x1000, 0x81, 0x100, 8);
    XorDisjoint(17, 0x89);
    XorCommutes(0x108, 0x1081);
    XorShl(0x108, 0x1081, 3);
    ShiftsAsProducts(0x108);
    ShiftsAsProducts(0x1081);
    ShiftsAsProducts(0x1189);
  }

  /** The register started from a lone bit at the output end. */
  lemma LoneBit()
    ensures Steps(X25, 1, 8) == 0x1189 && Steps(X25, 1, 7) == 0x2312 && Steps(X25, 1, 6) == 0x4624
    ensures Steps(X25, 1, 5) == 0x8c48 && Steps(X25, 1, 4) == 0x1081 && Steps(X25, 1, 3) == 0x2102
    ensures Steps(X25, 1, 2) == 0x4204 && Steps(X25, 1, 1) == 0x8408
  {
    hide Xor;
    XorZero(0x8408);
    assert Step(X25, 0x1081) == 0x8c48 by {
      LoneXor();
    }
    assert Step(X25, 1) == 0x8408 && Step(X25, 0x8408) == 0x4204 && Step(X25, 0x4204) == 0x2102;
    assert Step(X25, 0x2102) == 0x1081 && Step(X25, 0x8c48) == 0x4624 && Step(X25, 0x4624) == 0x2312;
    assert Step(X25, 0x2312) == 0x1189;
    hide Step;
    assert Steps(X25, 1, 2) == 0x4204;
    assert Steps(X25, 1, 4) == 0x1081;
    assert Steps(X25, 1, 6) == 0x4624;
  }

  lemma {:induction false} ShlIsPower(k: nat)
    ensures Shl(1, k) == PowerOfTwo(k)
  {
    if k > 0 {
      ShlIsPower(k - 1);
    }
  }

  lemma {:induction false} StepsOfLoneBit(c: Code, k: nat, n: nat)
    requires c.Lsb?
    ensures Steps(c, PowerOfTwo(k), k + n) == Steps(c, 1, n)
  {
    if k > 0 {
      StepsFromStep(c, PowerOfTwo(k), k - 1 + n);
      StepsOfLoneBit(c, k - 1, n);
    }
  }

  lemma NibbleBasis(k: nat)
    requires k < 8
    ensures PowerOfTwo(k) < 256
    ensures Unfolded(Folded(PowerOfTwo(k))) == Steps(X25, PowerOfTwo(k), 8)
  {
    hide Xor, Unfolded, Folded, Steps, Shl;
    ShlIsPower(k);
    StepsOfLoneBit(X25, k, 8 - k);
    LoneBit();
    Powers();
    assert PowerOfTwo(4) == 16;
    if k < 4 {
      LowNibbleBasis(PowerOfTwo(k), k);
    } else {
      ShlIsPower(k - 4);
      assert PowerOfTwo(k) == 16 * PowerOfTwo(k - 4);
      HighNibbleBasis(PowerOfTwo(k - 4), k - 4);
    }
  }

  lemma {:induction false} ZeroIsQuiet(c: Code, n: nat)
    ensures Steps(c, 0, n) == 0
  {
    hide Xor, Shr;
    ShrZero(15);
    if n > 0 {
      ZeroIsQuiet(c, n - 1);
    }
  }

  lemma FoldOfZero()
    ensures Unfolded(Folded(0)) == 0
  {
    hide Xor;
    XorZero(0);
    assert Folded(0) == 0;
  }

  /** The nibble trick is the table lookup: both sides are linear and agree on single bits. */
  lemma {:induction false} NibbleIsTable(v: nat, n: nat)
    requires n <= 8 && v < PowerOfTwo(n)
    ensures Unfolded(Folded(v)) == Steps(X25, v, 8)
  {
    hide Xor, Unfolded, Folded, Steps;
    if n == 0 {
      ZeroIsQuiet(X25, 8);
      FoldOfZero();
    } else if v < PowerOfTwo(n - 1) {
      NibbleIsTable(v, n - 1);
    } else {
      NibbleBasis(n - 1);
      NibbleIsTable(v - PowerOfTwo(n - 1), n - 1);
      AgreeOnXor(PowerOfTwo(n - 1), v - PowerOfTwo(n - 1));
      XorTopBit(n - 1, v - PowerOfTwo(n - 1));
    }
  }

  lemma AgreeOnXor(a: nat, b: nat)
    requires Unfolded(Folded(a)) == Steps(X25, a, 8) && Unfolded(Folded(b)) == Steps(X25, b, 8)
    ensures Unfolded(Folded(Xor(a, b))) == Steps(X25, Xor(a, b), 8)
  {
    hide Xor, Unfolded, Folded, Steps;
    FoldedXor(a, b);
    UnfoldedXor(Folded(a), Folded(b));
    StepsXor(X25, a, b, 8);
  }

  /** One byte of the MAVLink checksum, written with shifts on a 16-bit accumulator. */
  function Digest(crc: nat, b: byte): nat {
    var folded := Xor(b, crc % 256);
    var value := Xor(folded, 16 * folded) % 256;
    Xor(Xor(Xor(crc / 256, 256 * value), 8 * value), value / 16) % 0x10000
  }

  lemma DigestIsSerial(crc: nat, b: byte)
    requires crc < 0x10000
    ensures Digest(crc, b) == FeedAll(X25, crc, BitsOf(X25, b))
  {
    hide Xor, Steps, FeedAll, BitsOf;
    var v := Xor(b, crc % 256);
    var w: nat := Folded(v);
    Powers();
    FeedByte(X25, crc, b);
    XorLowByte(crc, b);
    XorCommutes(crc % 256, b);
    XorBelow(b, crc % 256, 8);
    StepsByTable(X25, Xor(crc, b));
    NibbleIsTable(v, 8);
    XorAssociates(crc / 256, 256 * w, 8 * w);
    XorAssociates(crc / 256, Xor(256 * w, 8 * w), w / 16);
    CodesAreProper();
    FeedInRange(X25, crc, BitsOf(X25, b));
  }

  /** `x25crc`: from `start` to `trim` bytes before the end, then optionally the message's magic number. */
  method X25Crc(buffer: bytes, start: nat, trim: nat, magic: Option<byte>) returns (crc: nat)
    requires start + trim <= |buffer|
    ensures crc == MavlinkCrc(buffer[start..|buffer| - trim], magic) < 0x10000
  {
    hide Digest, FeedAll, BitsOf, PowerOfTwo;
    CodesAreProper();
    crc := 0xffff;
    var end := |buffer| - trim;
    for index := start to end
      invariant crc == Checksum(X25, 0xffff, buffer[start..index]) < 0x10000
    {
      DigestIsSerial(crc, buffer[index]);
      assert buffer[start..index + 1] == buffer[start..index] + [buffer[index]];
      ChecksumConcat(X25, 0xffff, buffer[start..index], [buffer[index]]);
      ChecksumInRange(X25, 0xffff, buffer[start..index + 1]);
      crc := Digest(crc, buffer[index]);
    }
    if magic.Some? {
      DigestIsSerial(crc, magic.value);
      ChecksumConcat(X25, 0xffff, buffer[start..end], [magic.value]);
      ChecksumInRange(X25, 0xffff, buffer[start..end] + [magic.value]);
      crc := Digest(crc, magic.value);
    }
  }

  function MavlinkCrc(data: bytes, magic: Option<byte>): nat {
    Checksum(X25, 0xffff, if magic.Some? then data + [magic.value] else data)
  }

  lemma MavlinkCrcInRange(data: bytes, magic: Option<byte>)
    ensures MavlinkCrc(data, magic) < 0x10000
  {
    hide Checksum;
    CodesAreProper();
    ChecksumInRange(X25, 0xffff, if magic.Some? then data + [magic.value] else data);
  }

  // ---------------------------------------------------------------------------------------------------
  // Error detection
  // ---------------------------------------------------------------------------------------------------

  /** The register never forgets: equal results from equal continuations come from equal states. */
  lemma {:induction false} ChecksumInjectiveInSeed(c: Code, r: nat, s: nat, data: bytes)
    requires Proper(c) && Width(c) >= 16 && r < Limit(c) && s < Limit(c)
    requires Checksum(c, r, data) == Checksum(c, s, data)
    ensures r == s
    decreases |data|
  {
    hide Xor, FeedAll, Steps, BitsOf;
    if data != [] {
      var b := data[0];
      FeedByte(c, r, b);
      FeedByte(c, s, b);
      FeedInRange(c, r, BitsOf(c, b));
      FeedInRange(c, s, BitsOf(c, b));
      ChecksumInjectiveInSeed(c, FeedAll(c, r, BitsOf(c, b)), FeedAll(c, s, BitsOf(c, b)), data[1..]);
      EnterFits(c, r, b);
      EnterFits(c, s, b);
      StepsInjective(c, Xor(r, Enter(c, b)), Xor(s, Enter(c, b)), 8);
      XorCancels(r, Enter(c, b));
      XorCancels(s, Enter(c, b));
    }
  }

  lemma {:induction false} PowersGrow(m: nat, n: nat)
    requires m <= n
    ensures PowerOfTwo(m) <= PowerOfTwo(n)
    decreases n
  {
    if m < n {
      PowersGrow(m, n - 1);
    }
  }

  lemma EnterFits(c: Code, r: nat, b: byte)
    requires Width(c) >= 16 && r < Limit(c)
    ensures Enter(c, b) < Limit(c) && Xor(r, Enter(c, b)) < Limit(c)
  {
    hide Xor;
    Powers();
    PowersGrow(16, Width(c));
    XorBelow(r, Enter(c, b), Width(c));
  }

  /** Where the following message byte sits while the current one is being shifted out. */
  function Behind(c: Code, b: byte): nat {
    if c.Msb16? then b else 256 * b
  }

  lemma NextByteWaits(c: Code, r: nat, b: byte)
    ensures Steps(c, Xor(r, Behind(c, b)), 8) == Xor(Steps(c, r, 8), Enter(c, b))
  {
    hide Xor, Out, FeedAll, Steps, Shifted;
    var zeros := seq(8, _ => false);
    var w := Behind(c, b);
    forall k | 0 <= k < 8 ensures Out(c, Shifted(c, w, k)) == zeros[k] {
      StayingLeavesNothing(c, w, k);
    }
    StayingLeavesNothing(c, w, 0);
    AbsorbAll(c, r, w, zeros);
    FeedZeros(c, r, zeros);
  }

  /** Two bytes at a time: both can be xored in first, whatever the register holds. */
  lemma FeedTwoBytes(c: Code, r: nat, a: byte, b: byte)
    ensures FeedAll(c, FeedAll(c, r, BitsOf(c, a)), BitsOf(c, b))
            == Steps(c, Steps(c, Xor(Xor(r, Enter(c, a)), Behind(c, b)), 8), 8)
  {
    hide Xor, FeedAll, Steps, BitsOf;
    FeedByte(c, r, a);
    FeedByte(c, FeedAll(c, r, BitsOf(c, a)), b);
    NextByteWaits(c, Xor(r, Enter(c, a)), b);
  }

  lemma PairInjective(c: Code, r: nat, a: byte, b: byte, a': byte, b': byte)
    requires Xor(Xor(r, Enter(c, a)), Behind(c, b)) == Xor(Xor(r, Enter(c, a')), Behind(c, b'))
    ensures a == a' && b == b'
  {
    hide Xor;
    var x, y := Xor(Enter(c, a), Behind(c, b)), Xor(Enter(c, a'), Behind(c, b'));
    XorAssociates(r, Enter(c, a), Behind(c, b));
    XorAssociates(r, Enter(c, a'), Behind(c, b'));
    XorCommutes(r, x);
    XorCommutes(r, y);
    XorCancels(x, r);
    XorCancels(y, r);
    XorCommutes(Enter(c, a), Behind(c, b));
    XorCommutes(Enter(c, a'), Behind(c, b'));
    if c.Msb16? {
      XorDisjoint(a, b);
      XorDisjoint(a', b');
    } else {
      XorDisjoint(b, a);
      XorDisjoint(b', a');
    }
  }

  lemma TwoBytesInjective(c: Code, r: nat, a: byte, b: byte, a': byte, b': byte)
    requires Proper(c) && Width(c) >= 16 && r < Limit(c)
    requires FeedAll(c, FeedAll(c, r, BitsOf(c, a)), BitsOf(c, b)) == FeedAll(c, FeedAll(c, r, BitsOf(c, a')), BitsOf(c, b'))
    ensures a == a' && b == b'
  {
    hide Xor, FeedAll, Steps, BitsOf, Enter, Behind;
    var x, y := Xor(Xor(r, Enter(c, a)), Behind(c, b)), Xor(Xor(r, Enter(c, a')), Behind(c, b'));
    FeedTwoBytes(c, r, a, b);
    FeedTwoBytes(c, r, a', b');
    EnterFits(c, r, a);
    EnterFits(c, r, a');
    BehindFits(c, Xor(r, Enter(c, a)), b);
    BehindFits(c, Xor(r, Enter(c, a')), b');
    StepsInjective(c, x, y, 8);
    StepsInjective(c, Steps(c, x, 8), Steps(c, y, 8), 8);
    PairInjective(c, r, a, b, a', b');
  }

  lemma BehindFits(c: Code, r: nat, b: byte)
    requires Width(c) >= 16 && r < Limit(c)
    ensures Xor(r, Behind(c, b)) < Limit(c)
  {
    hide Xor;
    Powers();
    PowersGrow(16, Width(c));
    XorBelow(r, Behind(c, b), Width(c));
  }

  /** Two messages of equal length that differ only within two adjacent bytes never share a checksum. */
  lemma AdjacentErrorsDetected(c: Code, seed: nat, x: bytes, y: bytes, k: nat)
    requires Proper(c) && Width(c) >= 16 && seed < Limit(c)
    requires |x| == |y| && k + 2 <= |x|
    requires forall i :: 0 <= i < |x| && i != k && i != k + 1 ==> x[i] == y[i]
    requires x != y
    ensures Checksum(c, seed, x) != Checksum(c, seed, y)
  {
    hide *;
    if Checksum(c, seed, x) == Checksum(c, seed, y) {
      SplitAtPair(c, seed, x, k);
      SplitAtPair(c, seed, y, k);
      assert x[..k] == y[..k] && x[k + 2..] == y[k + 2..];
      ChecksumInRange(c, seed, x[..k]);
      PairDetermined(c, Checksum(c, seed, x[..k]), [x[k], x[k + 1]], [y[k], y[k + 1]], x[k + 2..]);
    }
  }

  /** What two bytes make of a register of 16 or more bits determines them, whatever follows. */
  lemma PairDetermined(c: Code, r: nat, xs: bytes, ys: bytes, post: bytes)
    requires Proper(c) && Width(c) >= 16 && r < Limit(c) && |xs| == |ys| == 2
    requires Checksum(c, Checksum(c, r, xs), post) == Checksum(c, Checksum(c, r, ys), post)
    ensures xs[0] == ys[0] && xs[1] == ys[1]
  {
    hide *;
    ChecksumInRange(c, r, xs);
    ChecksumInRange(c, r, ys);
    ChecksumInjectiveInSeed(c, Checksum(c, r, xs), Checksum(c, r, ys), post);
    ChecksumOfTwo(c, r, xs[0], xs[1]);
    ChecksumOfTwo(c, r, ys[0], ys[1]);
    assert xs == [xs[0], xs[1]] && ys == [ys[0], ys[1]];
    TwoBytesInjective(c, r, xs[0], xs[1], ys[0], ys[1]);
  }

  lemma SplitAtPair(c: Code, seed: nat, x: bytes, k: nat)
    requires k + 2 <= |x|
    ensures Checksum(c, seed, x) == Checksum(c, Checksum(c, Checksum(c, seed, x[..k]), [x[k], x[k + 1]]), x[k + 2..])
  {
    assert x == x[..k] + ([x[k], x[k + 1]] + x[k + 2..]);
    ChecksumConcat(c, seed, x[..k], [x[k], x[k + 1]] + x[k + 2..]);
    ChecksumConcat(c, Checksum(c, seed, x[..k]), [x[k], x[k + 1]], x[k + 2..]);
  }

  lemma ChecksumOfTwo(c: Code, r: nat, a: byte, b: byte)
    ensures Checksum(c, r, [a, b]) == FeedAll(c, FeedAll(c, r, BitsOf(c, a)), BitsOf(c, b))
  {
    hide FeedAll, BitsOf;
    var s := FeedAll(c, r, BitsOf(c, a));
    assert [a, b][1..] == [b] && [b][1..] == [];
    assert Checksum(c, s, [b]) == Checksum(c, FeedAll(c, s, BitsOf(c, b)), []);
  }
}
