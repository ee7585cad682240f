/** CRC-32 of section 8 of RFC 1952, the checksum that src/packet/packet.c takes from zlib,
    written bit by bit.  The fact the protocol rests on: a step is injective in the register
    and in the byte, so two strings that differ in exactly one byte never share a checksum. */
module Crc32 {

  type byte = bv8

  /** The reflected generator polynomial. */
  const POLY: bv32 := 0xEDB8_8320

  const ONES: bv32 := 0xFFFF_FFFF

  /** One division step on the register. */
  function Shift(c: bv32): bv32 {
    if c & 1 == 1 then POLY ^ (c >> 1) else c >> 1
  }

  function Shifts(c: bv32, n: nat): bv32 {
    if n == 0 then c else Shift(Shifts(c, n - 1))
  }

  /** The register after absorbing one byte. */
  function Step(c: bv32, b: byte): bv32 {
    Shifts(c ^ (b as bv32), 8)
  }

  function Update(c: bv32, s: seq<byte>): bv32 {
    if s == [] then c else Step(Update(c, s[..|s| - 1]), s[|s| - 1])
  }

  function Crc(s: seq<byte>): bv32 {
    Update(ONES, s) ^ ONES
  }

  lemma ShiftInjective(c: bv32, d: bv32)
    requires Shift(c) == Shift(d)
    ensures c == d
  {
  }

  lemma {:induction false} ShiftsInjective(c: bv32, d: bv32, n: nat)
    requires Shifts(c, n) == Shifts(d, n)
    ensures c == d
  {
    if n > 0 {
      ShiftInjective(Shifts(c, n - 1), Shifts(d, n - 1));
      ShiftsInjective(c, d, n - 1);
    }
  }

  lemma XorCancel(c: bv32, d: bv32, x: bv32)
    requires c ^ x == d ^ x
    ensures c == d
  {
  }

  lemma XorByteInjective(c: bv32, a: byte, b: byte)
    requires c ^ (a as bv32) == c ^ (b as bv32)
    ensures a == b
  {
  }

  lemma AbsorbInjective(c: bv32, d: bv32, x: bv32, n: nat)
    requires Shifts(c ^ x, n) == Shifts(d ^ x, n)
    ensures c == d
  {
    ShiftsInjective(c ^ x, d ^ x, n);
    XorCancel(c, d, x);
  }

  /** A step is injective in the register... */
  lemma StepInjectiveInState(c: bv32, d: bv32, b: byte)
    requires Step(c, b) == Step(d, b)
    ensures c == d
  {
    AbsorbInjective(c, d, b as bv32, 8);
  }

  /** ...and in the byte. */
  lemma StepInjectiveInByte(c: bv32, a: byte, b: byte)
    requires Step(c, a) == Step(c, b)
    ensures a == b
  {
    ShiftsInjective(c ^ (a as bv32), c ^ (b as bv32), 8);
    XorByteInjective(c, a, b);
  }

  /** `t` is `s` with the byte at `i`, and no other, replaced. */
  ghost predicate DiffersOnlyAt(s: seq<byte>, t: seq<byte>, i: nat) {
    |s| == |t| && i < |s| && s[i] != t[i] &&
    forall j :: 0 <= j < |s| && j != i ==> s[j] == t[j]
  }

  lemma {:induction false} UpdateDetects(c: bv32, s: seq<byte>, t: seq<byte>, i: nat)
    requires DiffersOnlyAt(s, t, i)
    ensures Update(c, s) != Update(c, t)
    decreases |s|
  {
    var n := |s| - 1;
    var u, v := Update(c, s[..n]), Update(c, t[..n]);
    if i == n {
      assert s[..n] == t[..n];
      if Step(u, s[n]) == Step(u, t[n]) {
        StepInjectiveInByte(u, s[n], t[n]);
      }
    } else {
      UpdateDetects(c, s[..n], t[..n], i);
      if Step(u, s[n]) == Step(v, s[n]) {
        StepInjectiveInState(u, v, s[n]);
      }
    }
  }

  /** Replacing exactly one byte always changes the checksum. */
  lemma CrcDetectsOneByte(s: seq<byte>, t: seq<byte>, i: nat)
    requires DiffersOnlyAt(s, t, i)
    ensures Crc(s) != Crc(t)
  {
    UpdateDetects(ONES, s, t, i);
    if Crc(s) == Crc(t) {
      XorCancel(Update(ONES, s), Update(ONES, t), ONES);
    }
  }

  // ---------- A checksum of zero ----------

  lemma ShiftTwice(c: bv32, n: nat)
    ensures Shifts(c, n + 2) == Shift(Shift(Shifts(c, n)))
  {
  }

  lemma StepIs(c: bv32, b: byte)
    ensures var x := c ^ (b as bv32); Step(c, b) == Shift(Shift(Shift(Shift(Shift(Shift(Shift(Shift(x))))))))
  {
    hide Shift;
    var x := c ^ (b as bv32);
    ShiftTwice(x, 0);
    ShiftTwice(x, 2);
    ShiftTwice(x, 4);
    ShiftTwice(x, 6);
  }

  /** Four bytes whose CRC-32 is zero. */
  const ZERO_SUM: seq<byte> := [0x9D, 0x0A, 0xD9, 0x6D]

  /** The values that the register takes on the way. */
  lemma ZeroSumSteps()
    ensures Step(ONES, 0x9D) == 0xA343_FF8B
    ensures Step(0xA343_FF8B, 0x0A) == 0x9A1C_F049
    ensures Step(0x9A1C_F049, 0xD9) == 0xF095_8FB4
    ensures Step(0xF095_8FB4, 0x6D) == ONES
  {
    hide Step, Shifts;
    StepIs(ONES, 0x9D);
    StepIs(0xA343_FF8B, 0x0A);
    StepIs(0x9A1C_F049, 0xD9);
    StepIs(0xF095_8FB4, 0x6D);
  }

  lemma UpdateNothing(c: bv32)
    ensures Update(c, []) == c
  {
  }

  lemma UpdateOne(c: bv32, s: seq<byte>, b: byte)
    ensures Update(c, s + [b]) == Step(Update(c, s), b)
  {
  }

  lemma ZeroSumIsZero()
    ensures Crc(ZERO_SUM) == 0
  {
    hide Step, Update;
    ZeroSumSteps();
    UpdateNothing(ONES);
    UpdateOne(ONES, [], 0x9D);
    UpdateOne(ONES, [] + [0x9D], 0x0A);
    UpdateOne(ONES, [] + [0x9D] + [0x0A], 0xD9);
    UpdateOne(ONES, [] + [0x9D] + [0x0A] + [0xD9], 0x6D);
    assert ZERO_SUM == [] + [0x9D] + [0x0A] + [0xD9] + [0x6D];
  }
}
