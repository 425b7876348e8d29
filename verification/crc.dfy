/** The CRC-32 register, one bit at a time, reflected (section 8 of RFC 1952): every step can be undone. */
module CrcRegister {

  const POLY: bv32 := 0xEDB8_8320

  /** One bit out of the register. */
  function Shift(c: bv32): bv32 { (c >> 1) ^ (if c & 1 == 1 then POLY else 0) }

  function Shifts(c: bv32, k: nat): bv32 { if k == 0 then c else Shift(Shifts(c, k - 1)) }

  /** The eight steps of one byte, the polynomial taken through a mask. */
  method ShiftByte(x: bv32) returns (c: bv32)
    ensures c == Shifts(x, 8)
  {
    c := x;
    var k := 0;
    while k < 8
      invariant 0 <= k <= 8 && c == Shifts(x, k)
    {
      var mask: bv32 := if c & 1 == 1 then 0xFFFF_FFFF else 0;
      Masked(mask, c);
      c := (c >> 1) ^ (POLY & mask);
      k := k + 1;
    }
  }

  lemma Masked(mask: bv32, c: bv32)
    requires mask == if c & 1 == 1 then 0xFFFF_FFFF else 0
    ensures POLY & mask == if c & 1 == 1 then POLY else 0
  {
  }

  /** The bit put out is the top bit of what is left, since the polynomial has its top bit set. */
  function Unshift(c: bv32): bv32 {
    if c & 0x8000_0000 != 0 then ((c ^ POLY) << 1) | 1 else c << 1
  }

  lemma TopBitSet(c: bv32)
    ensures ((c >> 1) ^ POLY) & 0x8000_0000 != 0
  {
  }

  lemma OddBack(c: bv32)
    requires c & 1 == 1
    ensures (((((c >> 1) ^ POLY) ^ POLY) << 1) | 1) == c
  {
  }

  lemma EvenBack(c: bv32)
    requires c & 1 != 1
    ensures ((c >> 1) ^ 0) << 1 == c && ((c >> 1) ^ 0) & 0x8000_0000 == 0
  {
  }

  lemma ShiftBack(c: bv32)
    ensures Unshift(Shift(c)) == c
  {
    if c & 1 == 1 {
      TopBitSet(c);
      OddBack(c);
    } else {
      EvenBack(c);
    }
  }

  lemma {:induction false} ShiftsInjective(c: bv32, d: bv32, k: nat)
    requires Shifts(c, k) == Shifts(d, k)
    ensures c == d
  {
    hide Shift, Unshift;
    if k > 0 {
      ShiftBack(Shifts(c, k - 1));
      ShiftBack(Shifts(d, k - 1));
      ShiftsInjective(c, d, k - 1);
    }
  }

  lemma XorSame(c: bv32, d: bv32, x: bv32)
    requires c ^ x == d ^ x
    ensures c == d
  {
    assert (c ^ x) ^ x == c && (d ^ x) ^ x == d;
  }

  lemma XorOther(c: bv32, x: bv32, y: bv32)
    requires c ^ x == c ^ y
    ensures x == y
  {
    assert c ^ (c ^ x) == x && c ^ (c ^ y) == y;
  }

  // ---- bytes ------------------------------------------------------------------------------------------------

  function Flag(b: bool, mask: bv32): bv32 { if b then mask else 0 }

  /** Eight bits as the low byte of a register. */
  function Low(b0: bool, b1: bool, b2: bool, b3: bool, b4: bool, b5: bool, b6: bool, b7: bool): bv32 {
    Flag(b0, 1) | Flag(b1, 2) | Flag(b2, 4) | Flag(b3, 8) | Flag(b4, 16) | Flag(b5, 32) | Flag(b6, 64) | Flag(b7, 128)
  }

  lemma LowBits(b0: bool, b1: bool, b2: bool, b3: bool, b4: bool, b5: bool, b6: bool, b7: bool)
    ensures var w := Low(b0, b1, b2, b3, b4, b5, b6, b7);
            && (b0 <==> w & 1 != 0) && (b1 <==> w & 2 != 0) && (b2 <==> w & 4 != 0) && (b3 <==> w & 8 != 0)
            && (b4 <==> w & 16 != 0) && (b5 <==> w & 32 != 0) && (b6 <==> w & 64 != 0) && (b7 <==> w & 128 != 0)
  {
  }

  function Mix(c: bv32, x: bv32): bv32 { c ^ x }

  function Step(c: bv32, x: bv32): bv32 { Shifts(Mix(c, x), 8) }

  /** Registers that differ still do when the same byte is fed to both, */
  lemma StepSame(c: bv32, d: bv32, x: bv32)
    requires Step(c, x) == Step(d, x)
    ensures c == d
  {
    hide Shifts;
    ShiftsInjective(Mix(c, x), Mix(d, x), 8);
    XorSame(c, d, x);
  }

  /** and equal ones no longer are when different bytes are. */
  lemma StepOther(c: bv32, x: bv32, y: bv32)
    requires Step(c, x) == Step(c, y)
    ensures x == y
  {
    hide Shifts;
    ShiftsInjective(Mix(c, x), Mix(c, y), 8);
    XorOther(c, x, y);
  }

  const BEGIN: bv32 := 0xFFFF_FFFF

  function Final(c: bv32): bv32 { c ^ BEGIN }

  lemma FinalInjective(c: bv32, d: bv32)
    requires Final(c) == Final(d)
    ensures c == d
  {
    XorSame(c, d, BEGIN);
  }
}

/** The checksum of byte strings. */
module Crc {
  import opened Bytes
  import opened CrcRegister

  predicate Odd(n: int) { n % 2 == 1 }

  function Halved(n: nat, k: nat): nat { if k == 0 then n else Halved(n, k - 1) / 2 }

  /** A byte as a register holds it. */
  function Wide(b: byte): bv32 {
    Low(Odd(b), Odd(Halved(b, 1)), Odd(Halved(b, 2)), Odd(Halved(b, 3)),
        Odd(Halved(b, 4)), Odd(Halved(b, 5)), Odd(Halved(b, 6)), Odd(Halved(b, 7)))
  }

  function Fed(c: bv32, data: seq<byte>): bv32 {
    if data == [] then c else Step(Fed(c, data[..|data| - 1]), Wide(data[|data| - 1]))
  }

  function Number(c: bv32): u32 { c as u32 }

  function Crc32(data: seq<byte>): u32 { Number(Final(Fed(BEGIN, data))) }

  /** crc32_feed. */
  method Crc32Feed(crc: bv32, data: seq<byte>) returns (c: bv32)
    ensures c == Fed(crc, data)
  {
    hide Shifts, Shift, Mix, Wide;
    c := crc;
    var i := 0;
    while i < |data|
      invariant 0 <= i <= |data| && c == Fed(crc, data[..i])
    {
      assert data[..i + 1][..i] == data[..i];
      c := ShiftByte(Mix(c, Wide(data[i])));
      i := i + 1;
    }
    assert data[..i] == data;
  }

  lemma Halving(a: nat, b: nat)
    requires a / 2 == b / 2 && (Odd(a) <==> Odd(b))
    ensures a == b
  {
  }

  lemma WideInjective(a: byte, b: byte)
    requires Wide(a) == Wide(b)
    ensures a == b
  {
    hide Low, Odd, Halved;
    LowBits(Odd(a), Odd(Halved(a, 1)), Odd(Halved(a, 2)), Odd(Halved(a, 3)),
            Odd(Halved(a, 4)), Odd(Halved(a, 5)), Odd(Halved(a, 6)), Odd(Halved(a, 7)));
    LowBits(Odd(b), Odd(Halved(b, 1)), Odd(Halved(b, 2)), Odd(Halved(b, 3)),
            Odd(Halved(b, 4)), Odd(Halved(b, 5)), Odd(Halved(b, 6)), Odd(Halved(b, 7)));
    SameHalves(a, b);
  }

  lemma SameHalves(a: byte, b: byte)
    requires Odd(a) <==> Odd(b)
    requires Odd(Halved(a, 1)) <==> Odd(Halved(b, 1))
    requires Odd(Halved(a, 2)) <==> Odd(Halved(b, 2))
    requires Odd(Halved(a, 3)) <==> Odd(Halved(b, 3))
    requires Odd(Halved(a, 4)) <==> Odd(Halved(b, 4))
    requires Odd(Halved(a, 5)) <==> Odd(Halved(b, 5))
    requires Odd(Halved(a, 6)) <==> Odd(Halved(b, 6))
    requires Odd(Halved(a, 7)) <==> Odd(Halved(b, 7))
    ensures a == b
  {
    hide Odd;
    Zeroed(a);
    Zeroed(b);
    Halving(Halved(a, 7), Halved(b, 7));
    Halving(Halved(a, 6), Halved(b, 6));
    Halving(Halved(a, 5), Halved(b, 5));
    Halving(Halved(a, 4), Halved(b, 4));
    Halving(Halved(a, 3), Halved(b, 3));
    Halving(Halved(a, 2), Halved(b, 2));
    Halving(Halved(a, 1), Halved(b, 1));
    assert Halved(a, 1) == Halved(a, 0) / 2 && Halved(b, 1) == Halved(b, 0) / 2;
    Halving(a, b);
  }

  lemma Zeroed(a: byte)
    ensures Halved(a, 7) / 2 == 0
  {
    assert Halved(a, 1) == Halved(a, 0) / 2 && Halved(a, 1) < 128;
    assert Halved(a, 2) < 64;
    assert Halved(a, 3) < 32;
    assert Halved(a, 4) < 16;
    assert Halved(a, 5) < 8;
    assert Halved(a, 6) < 4;
    assert Halved(a, 7) < 2;
  }

  lemma NumberInjective(c: bv32, d: bv32)
    requires Number(c) == Number(d)
    ensures c == d
  {
    assert Number(c) as bv32 == c && Number(d) as bv32 == d;
  }

  /** Different registers stay different whatever is fed to both. */
  lemma {:induction false} FedApart(c: bv32, d: bv32, data: seq<byte>)
    requires c != d
    ensures Fed(c, data) != Fed(d, data)
  {
    hide Step, Wide;
    if data != [] {
      var n := |data| - 1;
      FedApart(c, d, data[..n]);
      if Fed(c, data) == Fed(d, data) {
        StepSame(Fed(c, data[..n]), Fed(d, data[..n]), Wide(data[n]));
      }
    }
  }

  lemma {:induction false} FedConcat(c: bv32, a: seq<byte>, b: seq<byte>)
    ensures Fed(c, a + b) == Fed(Fed(c, a), b)
  {
    hide Step, Wide;
    if b == [] {
      assert a + b == a;
    } else {
      var n := |b| - 1;
      assert (a + b)[..|a + b| - 1] == a + b[..n];
      FedConcat(c, a, b[..n]);
    }
  }

  lemma FedOne(pre: seq<byte>, b: byte, post: seq<byte>)
    ensures Fed(BEGIN, pre + [b] + post) == Fed(Step(Fed(BEGIN, pre), Wide(b)), post)
  {
    hide Step, Wide;
    FedConcat(BEGIN, pre + [b], post);
    assert (pre + [b])[..|pre|] == pre;
  }

  lemma FinalApart(a: seq<byte>, b: seq<byte>)
    requires Fed(BEGIN, a) != Fed(BEGIN, b)
    ensures Crc32(a) != Crc32(b)
  {
    hide Fed, Number, Final;
    if Crc32(a) == Crc32(b) {
      NumberInjective(Final(Fed(BEGIN, a)), Final(Fed(BEGIN, b)));
      FinalInjective(Fed(BEGIN, a), Fed(BEGIN, b));
    }
  }

  /** One byte changed, wherever it is, changes the checksum. */
  lemma OneByteChanges(data: seq<byte>, i: nat, b: byte)
    requires i < |data| && b != data[i]
    ensures Crc32(data[i := b]) != Crc32(data)
  {
    hide Step, Wide, Crc32, Fed;
    var pre, post := data[..i], data[i + 1..];
    assert data == pre + [data[i]] + post && data[i := b] == pre + [b] + post;
    FedOne(pre, data[i], post);
    FedOne(pre, b, post);
    var s := Fed(BEGIN, pre);
    if Step(s, Wide(data[i])) == Step(s, Wide(b)) {
      StepOther(s, Wide(data[i]), Wide(b));
      WideInjective(data[i], b);
    }
    FedApart(Step(s, Wide(data[i])), Step(s, Wide(b)), post);
    FinalApart(data, data[i := b]);
  }
}
