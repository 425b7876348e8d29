/** A register read the other way round, and the division step by which the checksum is defined. */
module CrcMirror {
  import opened CrcRegister

  /** The polynomial of section 8 of RFC 1952, its top bit left out: x^26 + x^23 + x^22 + x^16 + x^12 + x^11 + x^10
      + x^8 + x^7 + x^5 + x^4 + x^2 + x + 1. */
  const DIVISOR: bv32 := 0x04C1_1DB7

  /** Every bit k of the register at bit 31 - k. */
  function Mirror(c: bv32): bv32 {
    ((c >> 31) & 0x1) | ((c >> 29) & 0x2) | ((c >> 27) & 0x4) | ((c >> 25) & 0x8)
    | ((c >> 23) & 0x10) | ((c >> 21) & 0x20) | ((c >> 19) & 0x40) | ((c >> 17) & 0x80)
    | ((c >> 15) & 0x100) | ((c >> 13) & 0x200) | ((c >> 11) & 0x400) | ((c >> 9) & 0x800)
    | ((c >> 7) & 0x1000) | ((c >> 5) & 0x2000) | ((c >> 3) & 0x4000) | ((c >> 1) & 0x8000)
    | ((c << 1) & 0x1_0000) | ((c << 3) & 0x2_0000) | ((c << 5) & 0x4_0000) | ((c << 7) & 0x8_0000)
    | ((c << 9) & 0x10_0000) | ((c << 11) & 0x20_0000) | ((c << 13) & 0x40_0000) | ((c << 15) & 0x80_0000)
    | ((c << 17) & 0x100_0000) | ((c << 19) & 0x200_0000) | ((c << 21) & 0x400_0000) | ((c << 23) & 0x800_0000)
    | ((c << 25) & 0x1000_0000) | ((c << 27) & 0x2000_0000) | ((c << 29) & 0x4000_0000) | ((c << 31) & 0x8000_0000)
  }

  /** One step of long division: the bit that leaves at the top takes the divisor out. */
  function Divide(c: bv32): bv32 { (c << 1) ^ (if c & 0x8000_0000 != 0 then DIVISOR else 0) }

  lemma MirrorTwice(c: bv32)
    ensures Mirror(Mirror(c)) == c
  {
  }

  lemma MirrorMix(c: bv32, d: bv32)
    ensures Mirror(Mix(c, d)) == Mix(Mirror(c), Mirror(d))
  {
  }

  lemma MirrorFinal(c: bv32)
    ensures Mirror(Final(c)) == !Mirror(c) && Mirror(BEGIN) == 0xFFFF_FFFF
  {
  }

  /** A step of the reflected register is a division step of the mirrored one. */
  lemma ShiftDivides(c: bv32)
    ensures Mirror(Shift(c)) == Divide(Mirror(c))
  {
  }

  function Divisions(c: bv32, k: nat): bv32 { if k == 0 then c else Divide(Divisions(c, k - 1)) }

  lemma {:induction false} ShiftsDivide(c: bv32, k: nat)
    ensures Mirror(Shifts(c, k)) == Divisions(Mirror(c), k)
  {
    hide Mirror, Shift, Divide;
    if k > 0 {
      ShiftsDivide(c, k - 1);
      ShiftDivides(Shifts(c, k - 1));
    }
  }
}

/** The checksum is what long division leaves. */
module CrcDivision {
  import opened Bytes
  import opened Crc
  import opened CrcMirror
  import opened CrcRegister

  /** A byte's bits are its binary digits. */
  lemma WideDigits(b: byte)
    ensures (Wide(b) & 1 != 0 <==> b % 2 == 1) && (Wide(b) & 2 != 0 <==> b / 2 % 2 == 1)
    ensures (Wide(b) & 4 != 0 <==> b / 4 % 2 == 1) && (Wide(b) & 8 != 0 <==> b / 8 % 2 == 1)
    ensures (Wide(b) & 16 != 0 <==> b / 16 % 2 == 1) && (Wide(b) & 32 != 0 <==> b / 32 % 2 == 1)
    ensures (Wide(b) & 64 != 0 <==> b / 64 % 2 == 1) && (Wide(b) & 128 != 0 <==> b / 128 % 2 == 1)
    ensures Wide(b) < 256
  {
    hide Low, Halved;
    LowBits(Odd(b), Odd(Halved(b, 1)), Odd(Halved(b, 2)), Odd(Halved(b, 3)),
            Odd(Halved(b, 4)), Odd(Halved(b, 5)), Odd(Halved(b, 6)), Odd(Halved(b, 7)));
    LowSmall(Odd(b), Odd(Halved(b, 1)), Odd(Halved(b, 2)), Odd(Halved(b, 3)),
             Odd(Halved(b, 4)), Odd(Halved(b, 5)), Odd(Halved(b, 6)), Odd(Halved(b, 7)));
    HalvedIs(b);
  }

  lemma HalvedIs(b: nat)
    ensures Halved(b, 1) == b / 2 && Halved(b, 2) == b / 4 && Halved(b, 3) == b / 8 && Halved(b, 4) == b / 16
    ensures Halved(b, 5) == b / 32 && Halved(b, 6) == b / 64 && Halved(b, 7) == b / 128
  {
    assert Halved(b, 0) == b;
  }

  lemma LowSmall(b0: bool, b1: bool, b2: bool, b3: bool, b4: bool, b5: bool, b6: bool, b7: bool)
    ensures Low(b0, b1, b2, b3, b4, b5, b6, b7) < 256
  {
  }

  /** The remainder of the bytes so far, each taken in lowest bit first, by the division of section 8 of RFC 1952. */
  function Remainder(c: bv32, data: seq<byte>): bv32 {
    if data == [] then c
    else Divisions(Mix(Remainder(c, data[..|data| - 1]), Mirror(Wide(data[|data| - 1]))), 8)
  }

  lemma {:induction false} FedDivides(c: bv32, data: seq<byte>)
    ensures Mirror(Fed(c, data)) == Remainder(Mirror(c), data)
  {
    hide Mirror, Shifts, Divisions, Wide, Mix;
    if data != [] {
      var n := |data| - 1;
      FedDivides(c, data[..n]);
      var x := Wide(data[n]);
      ShiftsDivide(Mix(Fed(c, data[..n]), x), 8);
      MirrorMix(Fed(c, data[..n]), x);
    }
  }

  /** The checksum, read the other way round, is the complement of that remainder, from a register of ones. */
  lemma ChecksumDivides(data: seq<byte>)
    ensures exists c: bv32 :: Crc32(data) == Number(c) && Mirror(c) == !Remainder(0xFFFF_FFFF, data)
  {
    hide Mirror, Fed, Remainder, Number, Final;
    FedDivides(BEGIN, data);
    var c := Final(Fed(BEGIN, data));
    MirrorFinal(Fed(BEGIN, data));
    assert Crc32(data) == Number(c);
  }
}
