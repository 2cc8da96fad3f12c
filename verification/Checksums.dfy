/**
 * The CRC-32 used by the cartridge, link and screenshot code.
 *
 * The definition is the bit-serial polynomial division: message bits enter the reflected register
 * one at a time, least significant bit of each byte first.  The program instead folds a whole byte
 * into the register and then shifts eight times; UpdateCrc32 is proved to compute the definition.
 */
module Checksums {
  import opened Bytes

  const ALL_ONES: bv32 := 0xFFFF_FFFF
  const POLYNOMIAL: bv32 := 0xEDB8_8320

  /** One shift of the register, subtracting the polynomial when a one falls out. */
  function Shift(v: bv32): bv32 {
    (v >> 1) ^ (if v & 1 == 1 then POLYNOMIAL else 0)
  }

  /** One step of the division: the message bit meets the low end of the register. */
  function DivideBit(crc: bv32, bit: bool): bv32 {
    Shift(crc ^ (if bit then 1 else 0))
  }

  /** The register after a run of message bits. */
  function CrcBits(crc: bv32, bits: seq<bool>): bv32
    decreases |bits|
  {
    if bits == [] then crc else CrcBits(DivideBit(crc, bits[0]), bits[1..])
  }

  /** The `count` low bits of a word, least significant first. */
  function Bits(b: bv32, count: nat): (bits: seq<bool>)
    ensures |bits| == count
    decreases count, b
  {
    if count == 0 then [] else [b & 1 == 1] + Bits(b >> 1, count - 1)
  }

  function Word(b: byte): bv32 {
    (b as bv8) as bv32
  }

  /** The register after one byte. */
  function CrcByte(crc: bv32, b: byte): bv32 {
    CrcBits(crc, Bits(Word(b), 8))
  }

  /** The register after a run of bytes. */
  function CrcUpdate(crc: bv32, data: seq<byte>): bv32 {
    if data == [] then crc
    else CrcByte(CrcUpdate(crc, data[..|data| - 1]), data[|data| - 1])
  }

  /** The final (and initial) inversion. */
  function Complement(v: bv32): bv32 {
    v ^ ALL_ONES
  }

  /** The CRC-32 of a whole message. */
  function Crc32(data: seq<byte>): bv32 {
    Complement(CrcUpdate(ALL_ONES, data))
  }

  /** The CRC-32 of a message continued from the finished CRC-32 of an earlier part. */
  function CrcContinue(previous: bv32, data: seq<byte>): bv32 {
    Complement(CrcUpdate(Complement(previous), data))
  }

  lemma {:induction false} CrcAppend(crc: bv32, a: seq<byte>, b: seq<byte>)
    ensures CrcUpdate(crc, a + b) == CrcUpdate(CrcUpdate(crc, a), b)
    decreases |b|
  {
    if b == [] {
      assert a + b == a;
    } else {
      CrcAppend(crc, a, b[..|b| - 1]);
      assert (a + b)[..|a + b| - 1] == a + b[..|b| - 1];
    }
  }

  /** Continuing a finished CRC over a second part gives the CRC of both parts together. */
  lemma CrcContinueAppend(previous: bv32, a: seq<byte>, b: seq<byte>)
    ensures CrcContinue(CrcContinue(previous, a), b) == CrcContinue(previous, a + b)
  {
    CrcAppend(Complement(previous), a, b);
    DoubleComplement(CrcUpdate(Complement(previous), a));
    assert Complement(CrcContinue(previous, a)) == CrcUpdate(Complement(previous), a);
  }

  /** One more piece of a message. */
  lemma CrcChunk(previous: bv32, data: seq<byte>, at: nat, count: nat)
    requires at + count <= |data|
    ensures CrcContinue(CrcContinue(previous, data[..at]), data[at..at + count])
         == CrcContinue(previous, data[..at + count])
  {
    CrcContinueAppend(previous, data[..at], data[at..at + count]);
    assert data[..at] + data[at..at + count] == data[..at + count];
  }

  lemma CrcContinueNothing(previous: bv32)
    ensures CrcContinue(previous, []) == previous
  {
    DoubleComplement(previous);
  }

  lemma DoubleComplement(v: bv32)
    ensures Complement(Complement(v)) == v
  {
  }

  lemma CrcOfWhole(data: seq<byte>)
    ensures CrcContinue(0, data) == Crc32(data)
  {
    assert Complement(0) == ALL_ONES;
  }

  function ShiftTimes(v: bv32, n: nat): bv32
    decreases n, v
  {
    if n == 0 then v else ShiftTimes(Shift(v), n - 1)
  }

  lemma ShiftStep(crc: bv32, b: bv32)
    ensures Shift(crc ^ b) == DivideBit(crc, b & 1 == 1) ^ (b >> 1)
  {
    if b & 1 == 1 {
      assert (crc ^ b) >> 1 == ((crc ^ 1) >> 1) ^ (b >> 1);
      assert (crc ^ b) & 1 == (crc ^ 1) & 1;
    } else {
      assert (crc ^ b) >> 1 == (crc >> 1) ^ (b >> 1);
      assert (crc ^ b) & 1 == crc & 1;
      assert crc ^ 0 == crc;
    }
  }

  function Halve(b: bv32, n: nat): bv32
    decreases n, b
  {
    if n == 0 then b else Halve(b >> 1, n - 1)
  }

  lemma BitsStep(crc: bv32, b: bv32, n: nat)
    requires n > 0
    ensures CrcBits(crc, Bits(b, n)) == CrcBits(DivideBit(crc, b & 1 == 1), Bits(b >> 1, n - 1))
  {
    assert Bits(b, n)[1..] == Bits(b >> 1, n - 1);
  }

  /** Folding several bits in at once and then shifting divides by the same bits one by one. */
  lemma {:induction false} ShiftsDivide(crc: bv32, b: bv32, n: nat, folded: bv32)
    requires folded == crc ^ b
    ensures ShiftTimes(folded, n) == CrcBits(crc, Bits(b, n)) ^ Halve(b, n)
    decreases n
  {
    if n > 0 {
      var crc', b', folded' := DivideBit(crc, b & 1 == 1), b >> 1, Shift(folded);
      assert folded' == crc' ^ b' by { ShiftStep(crc, b); }
      ShiftsDivide(crc', b', n - 1, folded');
      BitsStep(crc, b, n);
      OneShift(folded, n, folded');
      OneHalving(b, n, b');
    }
  }

  lemma OneShift(v: bv32, n: nat, next: bv32)
    requires n > 0 && next == Shift(v)
    ensures ShiftTimes(v, n) == ShiftTimes(next, n - 1)
  {
  }

  lemma OneHalving(b: bv32, n: nat, next: bv32)
    requires n > 0 && next == b >> 1
    ensures Halve(b, n) == Halve(next, n - 1)
  {
  }

  lemma ByteVanishes(b: byte)
    ensures Halve(Word(b), 8) == 0
  {
    var w := Word(b);
    assert (((((((w >> 1) >> 1) >> 1) >> 1) >> 1) >> 1) >> 1) >> 1 == 0;
    assert Halve(w, 8) == Halve(w >> 1, 7) == Halve((w >> 1) >> 1, 6);
    assert Halve((w >> 1) >> 1, 6) == Halve(((w >> 1) >> 1) >> 1, 5) == Halve((((w >> 1) >> 1) >> 1) >> 1, 4);
    var v := (((w >> 1) >> 1) >> 1) >> 1;
    assert Halve(v, 4) == Halve(v >> 1, 3) == Halve((v >> 1) >> 1, 2);
    assert Halve((v >> 1) >> 1, 2) == Halve(((v >> 1) >> 1) >> 1, 1) == (((v >> 1) >> 1) >> 1) >> 1;
  }

  /** The byte step of the program, exclusive-or and then eight shifts, is the division step. */
  lemma ByteStep(crc: bv32, b: byte, n: nat)
    requires n == 8
    ensures ShiftTimes(crc ^ Word(b), n) == CrcByte(crc, b)
  {
    ShiftsDivide(crc, Word(b), n, crc ^ Word(b));
    ByteVanishes(b);
    assert CrcByte(crc, b) ^ 0 == CrcByte(crc, b);
  }

  /** One byte as the firmware folds it in: exclusive-or, then eight shifts. */
  method FoldByte(crc: bv32, b: byte) returns (value: bv32)
    ensures value == CrcByte(crc, b)
  {
    ghost var result := CrcByte(crc, b);
    value := crc ^ ((b as bv8) as bv32);
    ghost var width: nat := |Bits(Word(b), 8)|;
    ByteStep(crc, b, width);
    for bit := 0 to 8
      invariant ShiftTimes(value, width - bit) == result
    {
      value := (value >> 1) ^ (if value & 1 == 1 then POLYNOMIAL else 0);
    }
  }

  /** The running register as the firmware computes it. */
  method UpdateCrc32(crc: bv32, data: seq<byte>) returns (value: bv32)
    ensures value == CrcUpdate(crc, data)
  {
    value := crc;
    for index := 0 to |data|
      invariant value == CrcUpdate(crc, data[..index])
    {
      assert data[..index + 1][..index] == data[..index];
      value := FoldByte(value, data[index]);
    }
    assert data[..|data|] == data;
  }

  /** A finished CRC-32 carried on over more data. */
  method ContinueCrc32(previous: bv32, data: seq<byte>) returns (value: bv32)
    ensures value == CrcContinue(previous, data)
  {
    var register := UpdateCrc32(Complement(previous), data);
    value := Complement(register);
  }
}
