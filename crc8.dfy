/**
 * The frame checksum shared by every frame the client sends: the Dallas/Maxim
 * 1-Wire CRC-8 (CRC-8/MAXIM-DOW, Maxim Application Note 27), computed bit by
 * bit with the register XOR written as a comparison of two 8-character binary
 * strings.
 *
 * `Checksum` is the specification of the source's `CRC8`; `Crc8` is the
 * method with the source's nested loops.  `RefChecksum` is an independent
 * reference definition (the usual byte-at-a-time reflected CRC with
 * polynomial 0x8C over an arithmetic XOR) and `ChecksumIsReflectedCrc`
 * connects the two.
 */
module Crc {

  type byte = x: int | 0 <= x < 256

  /** The reflected polynomial 0x31, written 140 in the source. */
  const POLY: nat := 0x8C

  /** Bits taken in per entry: the `range(8, 0, -1)` loop. */
  const BYTE_BITS: nat := 8

  function Pow2(n: nat): (r: nat)
    ensures r >= 1
  {
    if n == 0 then 1 else 2 * Pow2(n - 1)
  }

  // ---------------------------------------------------------------------
  // Bitwise XOR on naturals, defined bit by bit from the least significant
  // end; this is the reference meaning of `^`.
  // ---------------------------------------------------------------------

  function Xor(a: nat, b: nat): nat
    decreases a + b
  {
    if a == 0 && b == 0 then 0
    else (if a % 2 != b % 2 then 1 else 0) + 2 * Xor(a / 2, b / 2)
  }

  lemma XorLow(a: nat, b: nat)
    ensures Xor(a, b) % 2 == (if a % 2 != b % 2 then 1 else 0)
    ensures Xor(a, b) / 2 == Xor(a / 2, b / 2)
  {
  }

  lemma {:induction false} XorZero(a: nat)
    ensures Xor(a, 0) == a && Xor(0, a) == a
    decreases a
  {
    if a != 0 {
      XorZero(a / 2);
    }
  }

  lemma {:induction false} XorSelf(a: nat)
    ensures Xor(a, a) == 0
    decreases a
  {
    if a != 0 {
      XorSelf(a / 2);
    }
  }

  lemma {:induction false} XorComm(a: nat, b: nat)
    ensures Xor(a, b) == Xor(b, a)
    decreases a + b
  {
    if a != 0 || b != 0 {
      XorComm(a / 2, b / 2);
    }
  }

  /** Two naturals with the same low bit and the same upper part are equal. */
  lemma SplitEq(x: nat, y: nat)
    requires x % 2 == y % 2 && x / 2 == y / 2
    ensures x == y
  {
  }

  lemma {:induction false} XorAssoc(a: nat, b: nat, c: nat)
    ensures Xor(Xor(a, b), c) == Xor(a, Xor(b, c))
    decreases a + b + c
  {
    if a != 0 || b != 0 || c != 0 {
      XorAssoc(a / 2, b / 2, c / 2);
      XorLow(a, b);
      XorLow(Xor(a, b), c);
      XorLow(b, c);
      XorLow(a, Xor(b, c));
      SplitEq(Xor(Xor(a, b), c), Xor(a, Xor(b, c)));
    }
  }

  lemma {:induction false} XorBound(a: nat, b: nat, w: nat)
    requires a < Pow2(w) && b < Pow2(w)
    ensures Xor(a, b) < Pow2(w)
    decreases w
  {
    if w > 0 && (a != 0 || b != 0) {
      XorBound(a / 2, b / 2, w - 1);
    }
  }

  // ---------------------------------------------------------------------
  // The source's XOR: format(crc, "08b") and format(140, "08b") compared
  // character by character, and the digit list read back with int(..., 2).
  // ---------------------------------------------------------------------

  /** format(n, "0<w>b"): w binary digits, most significant first. */
  function Binary(n: nat, w: nat): (s: seq<char>)
    ensures |s| == w
    ensures forall k :: 0 <= k < |s| ==> s[k] == '0' || s[k] == '1'
  {
    if w == 0 then [] else Binary(n / 2, w - 1) + [if n % 2 == 1 then '1' else '0']
  }

  /** int(d, 2) for a list of 0/1 digits, most significant first. */
  function ParseDigits(d: seq<int>): int
  {
    if d == [] then 0 else 2 * ParseDigits(d[..|d| - 1]) + d[|d| - 1]
  }

  /** The digit list `str_list`: 1 where the two strings differ. */
  function DiffDigits(a: seq<char>, b: seq<char>): (d: seq<int>)
    requires |a| == |b|
    ensures |d| == |a|
  {
    seq(|a|, k requires 0 <= k < |a| => if a[k] != b[k] then 1 else 0)
  }

  /** The register update the source performs when the feedback bit is 1. */
  function StringXor(crc: nat): int
    requires crc < 256
  {
    ParseDigits(DiffDigits(Binary(crc, 8), Binary(POLY, 8)))
  }

  lemma {:induction false} DiffDigitsIsXor(a: nat, b: nat, w: nat)
    requires a < Pow2(w) && b < Pow2(w)
    ensures ParseDigits(DiffDigits(Binary(a, w), Binary(b, w))) == Xor(a, b)
    decreases w
  {
    if w == 0 {
      assert a == 0 && b == 0;
    } else {
      var d := DiffDigits(Binary(a, w), Binary(b, w));
      var d' := DiffDigits(Binary(a / 2, w - 1), Binary(b / 2, w - 1));
      assert d[..w - 1] == d';
      assert d[w - 1] == (if a % 2 != b % 2 then 1 else 0);
      DiffDigitsIsXor(a / 2, b / 2, w - 1);
      if a == 0 && b == 0 {
        XorZero(0);
      }
    }
  }

  /** The string comparison is bitwise XOR with 140, for every register value below 256. */
  lemma StringXorIsXor(crc: nat)
    requires crc < 256
    ensures StringXor(crc) == Xor(crc, POLY)
  {
    assert Pow2(8) == 256;
    DiffDigitsIsXor(crc, POLY, 8);
  }

  // ---------------------------------------------------------------------
  // The source's bit-serial CRC, as specification functions.
  // ---------------------------------------------------------------------

  /**
   * One pass of the inner `for i in range(8, 0, -1)` body on the register;
   * the string comparison is written as the XOR it computes (`StringXorIsXor`).
   */
  function BitStep(crc: nat, extract: nat): (r: nat)
    requires crc < 256
    ensures r < 256
  {
    var sum := if crc % 2 != extract % 2 then 1 else 0;
    var shifted := crc / 2;
    if sum > 0 then
      assert Pow2(8) == 256;
      XorBound(shifted, POLY, 8);
      Xor(shifted, POLY)
    else shifted
  }

  /** `n` passes of the inner loop, the byte shifting right after each one. */
  function BitSteps(crc: nat, extract: nat, n: nat): (r: nat)
    requires crc < 256
    ensures r < 256
    decreases n, crc
  {
    if n == 0 then crc else BitSteps(BitStep(crc, extract), extract / 2, n - 1)
  }

  /** CRC8(v, |v|): the register after all bytes of `v`, in order. */
  function Checksum(v: seq<nat>): (r: nat)
    ensures r < 256
    ensures v == [] ==> r == 0
  {
    if v == [] then 0 else BitSteps(Checksum(v[..|v| - 1]), v[|v| - 1], BYTE_BITS)
  }

  lemma ChecksumPrefix(v: seq<nat>, j: nat)
    requires j < |v|
    ensures Checksum(v[..j + 1]) == BitSteps(Checksum(v[..j]), v[j], BYTE_BITS)
  {
    assert v[..j + 1][..j] == v[..j];
  }

  /**
   * The `if Sum > 0` branch of CRC8: both registers formatted as eight
   * binary digits, compared position by position into `str_list`, and the
   * digit list parsed back as a base-2 number.
   */
  method XorWithPoly(crc: nat) returns (r: nat)
    requires crc < 256
    ensures r == StringXor(crc) && r == Xor(crc, POLY)
    ensures r < 256
  {
    var a := Binary(crc, 8);
    var b := Binary(POLY, 8);
    var strList := new int[8](_ => 0);
    for k := 0 to 8
      invariant forall m :: 0 <= m < k ==> strList[m] == (if a[m] != b[m] then 1 else 0)
    {
      strList[k] := if a[k] != b[k] then 1 else 0;
    }
    assert strList[..] == DiffDigits(a, b);
    StringXorIsXor(crc);
    assert Pow2(8) == 256;
    XorBound(crc, POLY, 8);
    r := ParseDigits(strList[..]);
  }

  /** The inner `for i in range(8, 0, -1)` loop of CRC8: one byte shifted in. */
  method ShiftInByte(crc0: nat, extract0: nat) returns (crc: nat)
    requires crc0 < 256
    ensures crc == BitSteps(crc0, extract0, BYTE_BITS)
    ensures crc < 256
  {
    crc := crc0;
    var extract := extract0;
    var i := 8;
    while i > 0
      invariant 0 <= i <= 8
      invariant crc < 256
      invariant BitSteps(crc, extract, i) == BitSteps(crc0, extract0, BYTE_BITS)
    {
      var sum := if crc % 2 != extract % 2 then 1 else 0;
      ghost var before := crc;
      crc := crc / 2;
      if sum > 0 {
        crc := XorWithPoly(crc);
      }
      assert crc == BitStep(before, extract);
      extract := extract / 2;
      i := i - 1;
    }
  }

  /**
   * CRC8(Vector, Len): the register starts at 0; for each of the first
   * `len` entries `Extract`, eight times: the feedback bit
   * `crc % 2 ^ Extract % 2`, the register halved, XOR-ed with 140 through
   * the binary strings when the feedback is 1, and `Extract` halved.  The
   * result is the checksum of the first `len` entries of `vector`.
   */
  method Crc8(vector: seq<nat>, len: nat) returns (crc: nat)
    requires len <= |vector|
    ensures crc == Checksum(vector[..len])
    ensures crc < 256
  {
    crc := 0;
    var j := 0;
    var remaining := len;
    while remaining > 0
      invariant 0 <= j <= len && remaining == len - j
      invariant crc == Checksum(vector[..j])
    {
      crc := ShiftInByte(crc, vector[j]);
      ChecksumPrefix(vector, j);
      remaining := remaining - 1;
      j := j + 1;
    }
    assert j == len;
  }

  // ---------------------------------------------------------------------
  // Reference: the byte-at-a-time reflected CRC-8, polynomial 0x8C.
  // ---------------------------------------------------------------------

  /** Shift the register right once, XOR-ing in 0x8C when a 1 falls out. */
  function RefShift(crc: nat): nat
  {
    if crc % 2 == 1 then Xor(crc / 2, POLY) else crc / 2
  }

  function RefShifts(crc: nat, n: nat): nat
    decreases n, crc
  {
    if n == 0 then crc else RefShifts(RefShift(crc), n - 1)
  }

  /** crc ^= byte, then eight shifts: Maxim Application Note 27, no final XOR. */
  function RefChecksum(v: seq<byte>): nat
  {
    if v == [] then 0 else RefShifts(Xor(RefChecksum(v[..|v| - 1]), v[|v| - 1]), BYTE_BITS)
  }

  lemma {:induction false} SerialIsByteWise(crc: nat, x: nat, n: nat)
    requires crc < 256 && x < Pow2(n)
    ensures BitSteps(crc, x, n) == RefShifts(Xor(crc, x), n)
    decreases n, crc
  {
    if n == 0 {
      XorZero(crc);
    } else {
      var next := BitStep(crc, x);
      SerialIsByteWise(next, x / 2, n - 1);
      XorLow(crc, x);
      var c := crc / 2;
      var y := x / 2;
      if crc % 2 != x % 2 {
        StringXorIsXor(c);
        XorAssoc(c, y, POLY);
        XorComm(y, POLY);
        XorAssoc(c, POLY, y);
      }
    }
  }

  /** The source's checksum is the reflected CRC-8 with polynomial 0x8C. */
  lemma {:induction false} ChecksumIsReflectedCrc(v: seq<byte>)
    ensures Checksum(v) == RefChecksum(v)
  {
    if v != [] {
      ChecksumIsReflectedCrc(v[..|v| - 1]);
      assert Pow2(8) == 256;
      SerialIsByteWise(Checksum(v[..|v| - 1]), v[|v| - 1], BYTE_BITS);
    }
  }

  lemma {:induction false} ShiftsOfZero(n: nat)
    ensures RefShifts(0, n) == 0
  {
    if n > 0 {
      XorZero(0);
      ShiftsOfZero(n - 1);
    }
  }

  /** A checksum over all-zero bytes is 0 (so the stop frame is all zeros). */
  lemma {:induction false} ChecksumOfZeros(v: seq<nat>)
    requires forall k :: 0 <= k < |v| ==> v[k] == 0
    ensures Checksum(v) == 0
  {
    if v != [] {
      ChecksumOfZeros(v[..|v| - 1]);
      assert Pow2(8) == 256;
      SerialIsByteWise(0, 0, BYTE_BITS);
      XorZero(0);
      ShiftsOfZero(8);
    }
  }

  /**
   * Residue: appending a frame's own checksum makes the checksum over the
   * whole frame 0, which is what lets the device check what it receives.
   */
  lemma ChecksumResidue(v: seq<nat>)
    ensures Checksum(v + [Checksum(v)]) == 0
  {
    var c := Checksum(v);
    assert (v + [c])[..|v|] == v;
    assert Pow2(8) == 256;
    SerialIsByteWise(c, c, BYTE_BITS);
    XorSelf(c);
    ShiftsOfZero(8);
  }

  /** Known values of the one-byte command checksums. */
  lemma CommandChecksums()
    ensures Checksum([1]) == 0x5E
    ensures Checksum([2]) == 0xBC
    ensures Checksum([3]) == 0xE2
  {
    XorZero(1); XorZero(2); XorZero(3); XorZero(POLY);
    Trace1(); Trace2(); Trace3();
    ChecksumIsReflectedCrc([1]);
    ChecksumIsReflectedCrc([2]);
    ChecksumIsReflectedCrc([3]);
  }

  // ---------------------------------------------------------------------
  // Proof scaffolding: the XorPoly*, Shift* and Trace* lemmas below only
  // evaluate single register steps for the command checksums above; they
  // state nothing about the source of their own.
  // ---------------------------------------------------------------------

  lemma XorPoly1()
    ensures Xor(1, POLY) == 141
  {
    assert Xor(0, 1) == 1;
    assert Xor(0, 2) == 2;
    assert Xor(0, 4) == 4;
    assert Xor(0, 8) == 8;
    assert Xor(0, 17) == 17;
    assert Xor(0, 35) == 35;
    assert Xor(0, 70) == 70;
  }

  lemma XorPoly17()
    ensures Xor(17, POLY) == 157
  {
    assert Xor(0, 1) == 1;
    assert Xor(0, 2) == 2;
    assert Xor(0, 4) == 4;
    assert Xor(1, 8) == 9;
    assert Xor(2, 17) == 19;
    assert Xor(4, 35) == 39;
    assert Xor(8, 70) == 78;
  }

  lemma XorPoly47()
    ensures Xor(47, POLY) == 163
  {
    assert Xor(0, 1) == 1;
    assert Xor(0, 2) == 2;
    assert Xor(1, 4) == 5;
    assert Xor(2, 8) == 10;
    assert Xor(5, 17) == 20;
    assert Xor(11, 35) == 40;
    assert Xor(23, 70) == 81;
  }

  lemma XorPoly48()
    ensures Xor(48, POLY) == 188
  {
    assert Xor(0, 1) == 1;
    assert Xor(0, 2) == 2;
    assert Xor(1, 4) == 5;
    assert Xor(3, 8) == 11;
    assert Xor(6, 17) == 23;
    assert Xor(12, 35) == 47;
    assert Xor(24, 70) == 94;
  }

  lemma XorPoly50()
    ensures Xor(50, POLY) == 190
  {
    assert Xor(0, 1) == 1;
    assert Xor(0, 2) == 2;
    assert Xor(1, 4) == 5;
    assert Xor(3, 8) == 11;
    assert Xor(6, 17) == 23;
    assert Xor(12, 35) == 47;
    assert Xor(25, 70) == 95;
  }

  lemma XorPoly70()
    ensures Xor(70, POLY) == 202
  {
    assert Xor(0, 1) == 1;
    assert Xor(1, 2) == 3;
    assert Xor(2, 4) == 6;
    assert Xor(4, 8) == 12;
    assert Xor(8, 17) == 25;
    assert Xor(17, 35) == 50;
    assert Xor(35, 70) == 101;
  }

  lemma XorPoly78()
    ensures Xor(78, POLY) == 194
  {
    assert Xor(0, 1) == 1;
    assert Xor(1, 2) == 3;
    assert Xor(2, 4) == 6;
    assert Xor(4, 8) == 12;
    assert Xor(9, 17) == 24;
    assert Xor(19, 35) == 48;
    assert Xor(39, 70) == 97;
  }

  lemma XorPoly81()
    ensures Xor(81, POLY) == 221
  {
    assert Xor(0, 1) == 1;
    assert Xor(1, 2) == 3;
    assert Xor(2, 4) == 6;
    assert Xor(5, 8) == 13;
    assert Xor(10, 17) == 27;
    assert Xor(20, 35) == 55;
    assert Xor(40, 70) == 110;
  }

  lemma XorPoly110()
    ensures Xor(110, POLY) == 226
  {
    assert Xor(0, 1) == 1;
    assert Xor(1, 2) == 3;
    assert Xor(3, 4) == 7;
    assert Xor(6, 8) == 14;
    assert Xor(13, 17) == 28;
    assert Xor(27, 35) == 56;
    assert Xor(55, 70) == 113;
  }

  lemma Shift1()
    ensures RefShift(1) == 140
  {
    XorZero(POLY);
  }

  lemma Shift2()
    ensures RefShift(2) == 1
  {
  }

  lemma Shift3()
    ensures RefShift(3) == 141
  {
    XorPoly1();
  }

  lemma Shift35()
    ensures RefShift(35) == 157
  {
    XorPoly17();
  }

  lemma Shift70()
    ensures RefShift(70) == 35
  {
  }

  lemma Shift95()
    ensures RefShift(95) == 163
  {
    XorPoly47();
  }

  lemma Shift97()
    ensures RefShift(97) == 188
  {
    XorPoly48();
  }

  lemma Shift101()
    ensures RefShift(101) == 190
  {
    XorPoly50();
  }

  lemma Shift140()
    ensures RefShift(140) == 70
  {
  }

  lemma Shift141()
    ensures RefShift(141) == 202
  {
    XorPoly70();
  }

  lemma Shift157()
    ensures RefShift(157) == 194
  {
    XorPoly78();
  }

  lemma Shift163()
    ensures RefShift(163) == 221
  {
    XorPoly81();
  }

  lemma Shift188()
    ensures RefShift(188) == 94
  {
  }

  lemma Shift190()
    ensures RefShift(190) == 95
  {
  }

  lemma Shift194()
    ensures RefShift(194) == 97
  {
  }

  lemma Shift202()
    ensures RefShift(202) == 101
  {
  }

  lemma Shift221()
    ensures RefShift(221) == 226
  {
    XorPoly110();
  }

  lemma Trace1()
    ensures RefShifts(1, 8) == 94
  {
    Shift1(); Shift140(); Shift70(); Shift35(); Shift157(); Shift194(); Shift97(); Shift188();
    assert RefShifts(188, 1) == 94;
    assert RefShifts(97, 2) == 94;
    assert RefShifts(194, 3) == 94;
    assert RefShifts(157, 4) == 94;
    assert RefShifts(35, 5) == 94;
    assert RefShifts(70, 6) == 94;
    assert RefShifts(140, 7) == 94;
  }

  lemma Trace2()
    ensures RefShifts(2, 8) == 188
  {
    Shift2(); Shift1(); Shift140(); Shift70(); Shift35(); Shift157(); Shift194(); Shift97();
    assert RefShifts(97, 1) == 188;
    assert RefShifts(194, 2) == 188;
    assert RefShifts(157, 3) == 188;
    assert RefShifts(35, 4) == 188;
    assert RefShifts(70, 5) == 188;
    assert RefShifts(140, 6) == 188;
    assert RefShifts(1, 7) == 188;
  }

  lemma Trace3()
    ensures RefShifts(3, 8) == 226
  {
    Shift3(); Shift141(); Shift202(); Shift101(); Shift190(); Shift95(); Shift163(); Shift221();
    assert RefShifts(221, 1) == 226;
    assert RefShifts(163, 2) == 226;
    assert RefShifts(95, 3) == 226;
    assert RefShifts(190, 4) == 226;
    assert RefShifts(101, 5) == 226;
    assert RefShifts(202, 6) == 226;
    assert RefShifts(141, 7) == 226;
  }
}
