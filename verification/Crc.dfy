/**
  CRC-32 with a table of 256 words: `CRC_TABLE` and `crc32` of webui/src/zip.ts.

  The reference divides the message, one bit at a time and lowest bit first, by the reflected polynomial.
  */
module Crc {

  const POLYNOMIAL: bv32 := 0xEDB88320

  // The word operations have names so that proofs about whole messages can leave their bits aside.

  function Xor(a: bv32, b: bv32): bv32 { a ^ b }

  function Word(b: bv8): bv32 { b as bv32 }

  function LowByte(w: bv32): bv8 { (w & 0xff) as bv8 }

  function WithoutLowByte(w: bv32): bv32 { w >> 8 }

  /** Shifts one zero bit out of the register. */
  function Shift(c: bv32): bv32 {
    if c & 1 == 1 then (c >> 1) ^ POLYNOMIAL else c >> 1
  }

  function Shifts(c: bv32, n: nat): bv32
    decreases n
  {
    if n == 0 then c else Shifts(Shift(c), n - 1)
  }

  // ----- The reference -----

  /** Bit `k` of a byte, as a word. */
  function BitOf(b: bv8, k: nat): bv32
    requires k < 8
  {
    Lowest(Dropped(Word(b), k))
  }

  function Lowest(w: bv32): bv32 { w & 1 }

  function Dropped(w: bv32, k: nat): bv32 {
    if k == 0 then w else Dropped(w, k - 1) >> 1
  }

  /** The bits of a byte, lowest first. */
  function BitsOf(b: bv8, from: nat): seq<bv32>
    requires from <= 8
    decreases 8 - from
  {
    if from == 8 then [] else [BitOf(b, from)] + BitsOf(b, from + 1)
  }

  function MessageBits(bytes: seq<bv8>): seq<bv32> {
    if bytes == [] then [] else BitsOf(bytes[0], 0) + MessageBits(bytes[1..])
  }

  /** Division of a bit string: each message bit is added to the lowest bit of the register and shifted out. */
  function Divide(c: bv32, bits: seq<bv32>): bv32
    decreases |bits|
  {
    if bits == [] then c else Divide(Shift(Xor(c, bits[0])), bits[1..])
  }

  const ONES: bv32 := 0xFFFFFFFF

  function Crc32(bytes: seq<bv8>): bv32 {
    Xor(Divide(ONES, MessageBits(bytes)), ONES)
  }

  // ----- Shifting is linear -----

  lemma LowBit(a: bv32, b: bv32)
    ensures (a ^ b) >> 1 == (a >> 1) ^ (b >> 1)
    ensures (a ^ b) & 1 == (a & 1) ^ (b & 1)
    ensures a & 1 == 0 || a & 1 == 1
    ensures b & 1 == 0 || b & 1 == 1
  {
  }

  lemma XorMoves(a: bv32, b: bv32, p: bv32)
    ensures (a ^ p) ^ b == (a ^ b) ^ p && (a ^ p) ^ (b ^ p) == a ^ b && a ^ (b ^ p) == (a ^ b) ^ p
  {
  }

  lemma ShiftOfXor(a: bv32, b: bv32)
    ensures Shift(a ^ b) == Shift(a) ^ Shift(b)
  {
    LowBit(a, b);
    XorMoves(a >> 1, b >> 1, POLYNOMIAL);
  }

  lemma ShiftLinear(a: bv32, b: bv32)
    ensures Shift(Xor(a, b)) == Xor(Shift(a), Shift(b))
  {
    hide Shift;
    ShiftOfXor(a, b);
  }

  lemma {:induction false} ShiftsLinear(a: bv32, b: bv32, n: nat)
    ensures Shifts(Xor(a, b), n) == Xor(Shifts(a, n), Shifts(b, n))
    decreases n
  {
    hide Shift, Xor;
    if n == 0 {
    } else {
      ShiftLinear(a, b);
      ShiftsLinear(Shift(a), Shift(b), n - 1);
    }
  }

  // ----- The table step -----

  lemma EightShifts(w: bv32)
    ensures Shifts(w, 8) == Shift(Shift(Shift(Shift(Shift(Shift(Shift(Shift(w))))))))
  {
    hide Shift;
    assert Shifts(w, 8) == Shifts(Shift(Shift(w)), 6);
    var w2 := Shift(Shift(w));
    assert Shifts(w2, 6) == Shifts(Shift(Shift(w2)), 4);
    var w4 := Shift(Shift(w2));
    assert Shifts(w4, 4) == Shifts(Shift(Shift(w4)), 2);
  }

  /** A word whose lowest byte is zero is only moved down. */
  lemma EightZeros(w: bv32)
    requires w & 0xff == 0
    ensures Shifts(w, 8) == WithoutLowByte(w)
  {
    hide Shifts;
    EightShifts(w);
    MovedDown(w);
  }

  lemma MovedDown(w: bv32)
    requires w & 0xff == 0
    ensures Shift(Shift(Shift(Shift(Shift(Shift(Shift(Shift(w)))))))) == w >> 8
  {
  }

  function HighPart(w: bv32): bv32 { (w >> 8) << 8 }

  lemma SplitWord(w: bv32)
    ensures w == Xor(Word(LowByte(w)), HighPart(w))
    ensures HighPart(w) & 0xff == 0 && WithoutLowByte(HighPart(w)) == WithoutLowByte(w)
  {
    WordParts(w);
  }

  lemma WordParts(w: bv32)
    ensures w == (((w & 0xff) as bv8) as bv32) ^ ((w >> 8) << 8)
    ensures ((w >> 8) << 8) & 0xff == 0 && ((w >> 8) << 8) >> 8 == w >> 8
  {
  }

  /** Eight shifts of a register depend on its lowest byte, through the table, and on the rest. */
  lemma TableStep(w: bv32)
    ensures Shifts(w, 8) == Xor(Shifts(Word(LowByte(w)), 8), WithoutLowByte(w))
  {
    hide Shifts, Shift, Xor, Word, LowByte, WithoutLowByte, HighPart;
    SplitWord(w);
    ShiftsLinear(Word(LowByte(w)), HighPart(w), 8);
    EightZeros(HighPart(w));
  }

  // ----- A byte at a time -----

  function EvenPart(v: bv32): bv32 { (v >> 1) << 1 }

  lemma SplitBit(d: bv32, v: bv32)
    ensures Xor(d, v) == Xor(Xor(d, Lowest(v)), EvenPart(v))
  {
    BitParts(d, v);
  }

  lemma BitParts(d: bv32, v: bv32)
    ensures d ^ v == (d ^ (v & 1)) ^ ((v >> 1) << 1)
  {
  }

  lemma EvenShift(v: bv32)
    ensures Shift((v >> 1) << 1) == v >> 1
  {
  }

  /** Adding a whole word now, or its lowest bit now and the rest after the shift. */
  lemma BitStep(d: bv32, v: bv32)
    ensures Shift(Xor(d, v)) == Xor(Shift(Xor(d, Lowest(v))), v >> 1)
  {
    hide Shift, Xor, Lowest;
    SplitBit(d, v);
    ShiftLinear(Xor(d, Lowest(v)), EvenPart(v));
    EvenShift(v);
  }

  /** Dividing by the bits of a byte from bit `k` on, when the rest of the byte has been added to the register. */
  lemma {:induction false} DivideBits(d: bv32, b: bv8, k: nat, rest: seq<bv32>)
    requires k <= 8
    ensures Divide(d, BitsOf(b, k) + rest) == Divide(Shifts(Xor(d, Dropped(Word(b), k)), 8 - k), rest)
    decreases 8 - k
  {
    hide Shift, Xor, Lowest, Word, Dropped;
    if k == 8 {
      assert BitsOf(b, 8) + rest == rest;
      ByteIsGone(d, b);
    } else {
      var v := Dropped(Word(b), k);
      var next := Shift(Xor(d, Lowest(v)));
      var bits := BitsOf(b, k + 1) + rest;
      assert BitsOf(b, k) + rest == [BitOf(b, k)] + bits;
      assert ([BitOf(b, k)] + bits)[1..] == bits;
      DivideBits(next, b, k + 1, rest);
      BitStep(d, v);
      DroppedNext(Word(b), k);
    }
  }

  lemma DroppedNext(w: bv32, k: nat)
    ensures Dropped(w, k + 1) == Dropped(w, k) >> 1
  {
  }

  lemma ByteIsGone(d: bv32, b: bv8)
    ensures Xor(d, Dropped(Word(b), 8)) == d
  {
    var w := Word(b);
    assert Dropped(w, 0) == w;
    hide Dropped;
    DroppedNext(w, 0);
    DroppedNext(w, 1);
    DroppedNext(w, 2);
    DroppedNext(w, 3);
    DroppedNext(w, 4);
    DroppedNext(w, 5);
    DroppedNext(w, 6);
    DroppedNext(w, 7);
    ByteFits(d, b);
  }

  lemma ByteFits(d: bv32, b: bv8)
    ensures d ^ ((((((((b as bv32) >> 1) >> 1) >> 1) >> 1) >> 1) >> 1) >> 1 >> 1) == d
  {
  }

  // ----- The code -----

  function TableEntry(index: int): bv32
    requires 0 <= index < 256
  {
    Shifts(Word(index as bv8), 8)
  }

  method BuildTable() returns (table: array<bv32>)
    ensures fresh(table) && table.Length == 256
    ensures forall i :: 0 <= i < 256 ==> table[i] == TableEntry(i)
  {
    hide Shift;
    table := new bv32[256];
    for index := 0 to 256
      invariant forall i :: 0 <= i < index ==> table[i] == TableEntry(i)
    {
      var crc := Word(index as bv8);
      for bit := 0 to 8
        invariant Shifts(crc, 8 - bit) == TableEntry(index)
      {
        crc := Shift(crc);
      }
      table[index] := crc;
    }
  }

  lemma IndexOf(b: bv8)
    ensures (b as int) as bv8 == b && 0 <= b as int < 256
  {
  }

  lemma XorByte(c: bv32, b: bv8)
    ensures WithoutLowByte(Xor(c, Word(b))) == WithoutLowByte(c)
  {
  }

  /** One table look-up divides by the eight bits of a byte. */
  lemma LookUp(c: bv32, b: bv8, rest: seq<bv32>)
    ensures var index := LowByte(Xor(c, Word(b))) as int;
            && 0 <= index < 256
            && Divide(c, BitsOf(b, 0) + rest) == Divide(Xor(TableEntry(index), WithoutLowByte(c)), rest)
  {
    hide Shifts, Xor, Word, LowByte, WithoutLowByte;
    var w := Xor(c, Word(b));
    IndexOf(LowByte(w));
    XorByte(c, b);
    TableStep(w);
    DivideBits(c, b, 0, rest);
  }

  lemma MessageBitsStep(bytes: seq<bv8>, i: nat)
    requires i < |bytes|
    ensures MessageBits(bytes[i..]) == BitsOf(bytes[i], 0) + MessageBits(bytes[i + 1..])
  {
    hide BitsOf;
    assert bytes[i..][1..] == bytes[i + 1..];
  }

  method ComputeCrc(table: array<bv32>, bytes: seq<bv8>) returns (r: bv32)
    requires table.Length == 256 && forall i :: 0 <= i < 256 ==> table[i] == TableEntry(i)
    ensures r == Crc32(bytes)
  {
    hide TableEntry, BitsOf, Xor, Word, LowByte, WithoutLowByte;
    var crc := ONES;
    assert bytes[0..] == bytes;
    for i := 0 to |bytes|
      invariant Divide(crc, MessageBits(bytes[i..])) == Divide(ONES, MessageBits(bytes))
    {
      MessageBitsStep(bytes, i);
      LookUp(crc, bytes[i], MessageBits(bytes[i + 1..]));
      crc := Xor(table[LowByte(Xor(crc, Word(bytes[i]))) as int], WithoutLowByte(crc));
    }
    assert bytes[|bytes|..] == [];
    r := Xor(crc, ONES);
  }

  // ----- Known values -----

  /** The generator is x^32 + x^26 + x^23 + x^22 + x^16 + x^12 + x^11 + x^10 + x^8 + x^7 + x^5 + x^4 + x^2 + x + 1, with
      the coefficient of x^e in bit 31 - e. */
  lemma GeneratorIs()
    ensures POLYNOMIAL == (1 << 5) | (1 << 8) | (1 << 9) | (1 << 15) | (1 << 19) | (1 << 20) | (1 << 21) | (1 << 23)
                          | (1 << 24) | (1 << 26) | (1 << 27) | (1 << 29) | (1 << 30) | (1 << 31)
  {
  }

  /** From register `d`, dividing byte `i` of the message leads to `after`. */
  lemma StepsTo(d: bv32, added: bv32, after: bv32, m: seq<bv8>, i: nat)
    requires i < |m| && added == d ^ (m[i] as bv32) && Shifts(added, 8) == after
    ensures Divide(d, MessageBits(m[i..])) == Divide(after, MessageBits(m[i + 1..]))
  {
    hide Shifts, Divide, BitsOf, MessageBits;
    MessageBitsStep(m, i);
    DivideBits(d, m[i], 0, MessageBits(m[i + 1..]));
  }

  const DIGITS: seq<bv8> := [0x31, 0x32, 0x33, 0x34, 0x35, 0x36, 0x37, 0x38, 0x39]

  lemma FirstDigits()
    ensures Divide(0xFFFFFFFF, MessageBits(DIGITS[0..])) == Divide(0x77B79C2D, MessageBits(DIGITS[3..]))
  {
    hide Divide, MessageBits;
    StepsTo(0xFFFFFFFF, 0xFFFFFFCE, 0x7C231048, DIGITS, 0);
    StepsTo(0x7C231048, 0x7C23107A, 0xB0ACBB32, DIGITS, 1);
    StepsTo(0xB0ACBB32, 0xB0ACBB01, 0x77B79C2D, DIGITS, 2);
  }

  lemma MiddleDigits()
    ensures Divide(0x77B79C2D, MessageBits(DIGITS[3..])) == Divide(0xF68D2C9E, MessageBits(DIGITS[6..]))
  {
    hide Divide, MessageBits;
    StepsTo(0x77B79C2D, 0x77B79C19, 0x641C1F5C, DIGITS, 3);
    StepsTo(0x641C1F5C, 0x641C1F69, 0x340AC5E3, DIGITS, 4);
    StepsTo(0x340AC5E3, 0x340AC5D5, 0xF68D2C9E, DIGITS, 5);
  }

  lemma LastDigits()
    ensures Divide(0xF68D2C9E, MessageBits(DIGITS[6..])) == Divide(0x340BC6D9, MessageBits(DIGITS[9..]))
  {
    hide Divide, MessageBits;
    StepsTo(0xF68D2C9E, 0xF68D2CA9, 0xAFFC9660, DIGITS, 6);
    StepsTo(0xAFFC9660, 0xAFFC9658, 0x651F2550, DIGITS, 7);
    StepsTo(0x651F2550, 0x651F2569, 0x340BC6D9, DIGITS, 8);
  }

  /** The check value that identifies CRC-32: that of the digits one to nine. */
  lemma CheckValue()
    ensures Crc32(DIGITS) == 0xCBF43926
  {
    hide Divide, MessageBits;
    assert DIGITS[0..] == DIGITS && DIGITS[9..] == [];
    FirstDigits();
    MiddleDigits();
    LastDigits();
    NothingLeft(0x340BC6D9);
  }

  lemma NothingLeft(d: bv32)
    ensures Divide(d, MessageBits([])) == d
  {
  }
}
