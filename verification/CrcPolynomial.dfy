/** The CRC as division by the generator polynomial of RFC 2083, section 3.4, term by term. */
module CrcPolynomial {
  import opened Collections
  import opened Crc32
  import opened PngChunks
  import opened ShiftRegisters

  // ----- The reference, on coefficients -----

  /** The generator has a term x^k for these k, besides x^32. */
  predicate IsTerm(k: nat) {
    k in {26, 23, 22, 16, 12, 11, 10, 8, 7, 5, 4, 2, 1, 0}
  }

  /** Coefficient k belongs to x^k. */
  type Coefficients = r: seq<bool> | |r| == 32 witness seq(32, _ => false)

  /** Takes in a message bit: times x, less the generator if the term x^32 came up. */
  function Divide(r: Coefficients, bit: bool): Coefficients {
    seq(32, k requires 0 <= k < 32 => (k > 0 && r[k - 1]) != (r[31] != bit && IsTerm(k)))
  }

  /** The lowest n bits of b, least significant first. */
  function DivideBits(r: Coefficients, b: nat, n: nat): Coefficients
    decreases n
  {
    if n == 0 then r else DivideBits(Divide(r, b % 2 == 1), b / 2, n - 1)
  }

  function DivideByte(r: Coefficients, b: Byte): Coefficients {
    DivideBits(r, b, 8)
  }

  function Negated(r: Coefficients): Coefficients {
    seq(32, k requires 0 <= k < 32 => !r[k])
  }

  /** Preset to ones and negated at the end. */
  function Remainder(bytes: seq<Byte>): Coefficients {
    Negated(Fold<Coefficients, Byte>(DivideByte, seq(32, _ => true), bytes))
  }

  // ----- The word as coefficients -----

  /** The bit of a word that stands for x^k: the register is held in reverse. */
  function Mask(k: nat): Word {
    match k
    case 0 => 0x8000_0000
    case 1 => 0x4000_0000
    case 2 => 0x2000_0000
    case 3 => 0x1000_0000
    case 4 => 0x0800_0000
    case 5 => 0x0400_0000
    case 6 => 0x0200_0000
    case 7 => 0x0100_0000
    case 8 => 0x0080_0000
    case 9 => 0x0040_0000
    case 10 => 0x0020_0000
    case 11 => 0x0010_0000
    case 12 => 0x0008_0000
    case 13 => 0x0004_0000
    case 14 => 0x0002_0000
    case 15 => 0x0001_0000
    case 16 => 0x0000_8000
    case 17 => 0x0000_4000
    case 18 => 0x0000_2000
    case 19 => 0x0000_1000
    case 20 => 0x0000_0800
    case 21 => 0x0000_0400
    case 22 => 0x0000_0200
    case 23 => 0x0000_0100
    case 24 => 0x0000_0080
    case 25 => 0x0000_0040
    case 26 => 0x0000_0020
    case 27 => 0x0000_0010
    case 28 => 0x0000_0008
    case 29 => 0x0000_0004
    case 30 => 0x0000_0002
    case _ => 0x0000_0001
  }

  predicate Has(c: Word, mask: Word) { c & mask != 0 }

  function BitsBy(mask: nat -> Word, c: Word): Coefficients {
    seq(32, k requires 0 <= k < 32 => Has(c, mask(k)))
  }

  function Bits(c: Word): Coefficients {
    BitsBy(Mask, c)
  }

  predicate OneBit(m: Word) { m != 0 && m & (m - 1) == 0 }

  function Generator(): Word { FeedBit(0, true) }

  /** What the proofs need to know of the masks. */
  ghost predicate Masks(mask: nat -> Word) {
    && mask(0) == 0x8000_0000 && mask(31) == 1
    && (forall k :: 0 <= k < 32 ==> OneBit(mask(k)))
    && (forall k :: 0 <= k < 31 ==> mask(k + 1) == Shift(mask(k)) && !Odd(mask(k)))
    && (forall k :: 0 <= k < 32 ==> (Has(Generator(), mask(k)) <==> IsTerm(k)))
  }

  lemma MaskOneBit(k: nat)
    requires k < 32
    ensures OneBit(Mask(k))
  {
  }

  lemma MaskStep(k: nat)
    requires k < 31
    ensures Mask(k + 1) == Shift(Mask(k)) && !Odd(Mask(k))
  {
    if k < 16 {
      MaskStepFirst(k);
    } else {
      MaskStepLast(k);
    }
  }

  lemma MaskStepFirst(k: nat)
    requires k < 16
    ensures Mask(k + 1) == Shift(Mask(k)) && !Odd(Mask(k))
  {
  }

  lemma MaskStepLast(k: nat)
    requires 16 <= k < 31
    ensures Mask(k + 1) == Shift(Mask(k)) && !Odd(Mask(k))
  {
  }

  /** A turn on the zero register leaves exactly the terms of the generator. */
  lemma GeneratorBits(k: nat)
    requires k < 32
    ensures Has(Generator(), Mask(k)) <==> IsTerm(k)
  {
  }

  lemma MaskIsMasks()
    ensures Masks(Mask)
  {
    forall k | 0 <= k < 32 ensures OneBit(Mask(k)) {
      MaskOneBit(k);
    }
    forall k | 0 <= k < 31 ensures Mask(k + 1) == Shift(Mask(k)) && !Odd(Mask(k)) {
      MaskStep(k);
    }
    forall k | 0 <= k < 32 ensures Has(Generator(), Mask(k)) <==> IsTerm(k) {
      GeneratorBits(k);
    }
  }

  lemma ShiftedBit(c: Word, m: Word)
    requires !Odd(m)
    ensures Has(Shift(c), Shift(m)) <==> Has(c, m)
  {
  }

  lemma TopCleared(c: Word)
    ensures !Has(Shift(c), 0x8000_0000)
  {
  }

  lemma RawXorBit(a: Word, b: Word, m: Word)
    requires m & (m - 1) == 0
    ensures (a ^ b) & m != 0 <==> (a & m != 0) != (b & m != 0)
  {
  }

  lemma XorBit(a: Word, b: Word, m: Word)
    requires OneBit(m)
    ensures Has(Xor(a, b), m) <==> Has(a, m) != Has(b, m)
  {
    RawXorBit(a, b, m);
  }

  lemma LowBit(c: Word)
    ensures Has(c, 1) <==> Odd(c)
  {
  }

  lemma OnesHas(m: Word)
    requires OneBit(m)
    ensures Has(ONES, m)
  {
  }

  // ----- One turn is one division step -----

  lemma FeedIsXor(c: Word, bit: bool)
    ensures FeedBit(c, bit) == if Odd(c) != bit then Xor(Generator(), Shift(c)) else Shift(c)
  {
  }

  lemma ShiftedAt(mask: nat -> Word, c: Word, k: nat)
    requires Masks(mask) && k < 32
    ensures Has(Shift(c), mask(k)) <==> k > 0 && Has(c, mask(k - 1))
  {
    if k == 0 {
      TopCleared(c);
    } else {
      ShiftedBit(c, mask(k - 1));
    }
  }

  /** Bit m of the fed register, if `left` is the bit that the shift puts there and `term` the generator's. */
  lemma FedAt(c: Word, bit: bool, m: Word, left: bool, term: bool)
    requires OneBit(m) && (Has(Shift(c), m) <==> left) && (Has(Generator(), m) <==> term)
    ensures Has(FeedBit(c, bit), m) <==> left != (Odd(c) != bit && term)
  {
    FeedIsXor(c, bit);
    XorBit(Generator(), Shift(c), m);
  }

  lemma Coefficient<T>(has: (T, T) -> bool, mask: nat -> T, fed: T, c: T, odd: bool, bit: bool, k: nat, r: Coefficients)
    requires k < 32 && forall i :: 0 <= i < 32 ==> r[i] == has(c, mask(i))
    requires has(c, mask(31)) <==> odd
    requires has(fed, mask(k)) <==> (k > 0 && has(c, mask(k - 1))) != (odd != bit && IsTerm(k))
    ensures has(fed, mask(k)) <==> Divide(r, bit)[k]
  {
    assert k > 0 ==> r[k - 1] == has(c, mask(k - 1));
  }

  lemma FedBit(mask: nat -> Word, c: Word, bit: bool, k: nat)
    requires Masks(mask) && k < 32
    ensures Has(c, mask(31)) <==> Odd(c)
    ensures Has(FeedBit(c, bit), mask(k)) <==> (k > 0 && Has(c, mask(k - 1))) != (Odd(c) != bit && IsTerm(k))
  {
    LowBit(c);
    ShiftedAt(mask, c, k);
    FedAt(c, bit, mask(k), k > 0 && Has(c, mask(k - 1)), IsTerm(k));
  }

  lemma FedCoefficient(mask: nat -> Word, c: Word, bit: bool, k: nat)
    requires Masks(mask) && k < 32
    ensures Has(FeedBit(c, bit), mask(k)) <==> Divide(BitsBy(mask, c), bit)[k]
  {
    FedBit(mask, c, bit, k);
    Coefficient(Has, mask, FeedBit(c, bit), c, Odd(c), bit, k, BitsBy(mask, c));
  }

  lemma FeedDivides(mask: nat -> Word, c: Word, bit: bool)
    requires Masks(mask)
    ensures BitsBy(mask, FeedBit(c, bit)) == Divide(BitsBy(mask, c), bit)
  {
    forall k | 0 <= k < 32 ensures BitsBy(mask, FeedBit(c, bit))[k] == Divide(BitsBy(mask, c), bit)[k] {
      FedCoefficient(mask, c, bit, k);
    }
  }

  // ----- The bits of a byte -----

  lemma HalfOctet(x: bv8)
    ensures (x >> 1) as int == x as int / 2
  {
  }

  lemma OddOctet(x: bv8)
    ensures x & 1 == 1 <==> x as int % 2 == 1
  {
  }

  lemma WideShift(x: bv8)
    ensures Shift(x as Word) == (x >> 1) as Word && (Odd(x as Word) <==> x & 1 == 1)
  {
  }

  lemma OctetDetermined(x: bv8, y: bv8)
    requires x as int == y as int
    ensures x == y
  {
  }

  lemma OctetBits(b: Byte)
    ensures Octet(b) >> 1 == Octet(b / 2) && (Octet(b) & 1 == 1 <==> b % 2 == 1)
  {
    OctetBack(b);
    OctetBack(b / 2);
    HalfOctet(Octet(b));
    OddOctet(Octet(b));
    OctetDetermined(Octet(b) >> 1, Octet(b / 2));
  }

  lemma ByteBits(b: Byte)
    ensures Odd(Wide(b)) <==> b % 2 == 1
    ensures Shift(Wide(b)) == Wide(b / 2)
  {
    OctetBits(b);
    WideShift(Octet(b));
  }

  /** Feeding bits is dividing, whatever the registers are. */
  lemma {:induction false} FeedIsDivide<T(!new)>(feed: (T, T) -> T, shift: T -> T, wide: Byte -> T, bits: T -> Coefficients,
      c: T, b: Byte, n: nat)
    requires forall c, b: Byte :: bits(feed(c, wide(b))) == Divide(bits(c), b % 2 == 1)
    requires forall b: Byte :: shift(wide(b)) == wide(b / 2)
    ensures bits(FeedBits(feed, shift, c, wide(b), n)) == DivideBits(bits(c), b, n)
    decreases n
  {
    if n > 0 {
      FeedIsDivide(feed, shift, wide, bits, feed(c, wide(b)), b / 2, n - 1);
    }
  }

  lemma LowBitDivides(mask: nat -> Word, c: Word, b: Byte)
    requires Masks(mask)
    ensures BitsBy(mask, FeedLowBit(c, Wide(b))) == Divide(BitsBy(mask, c), b % 2 == 1)
  {
    ByteBits(b);
    FeedDivides(mask, c, b % 2 == 1);
  }

  lemma ByteDivides(mask: nat -> Word, c: Word, b: Byte)
    requires Masks(mask)
    ensures BitsBy(mask, FeedByte(c, b)) == DivideByte(BitsBy(mask, c), b)
  {
    forall c, b: Byte ensures BitsBy(mask, FeedLowBit(c, Wide(b))) == Divide(BitsBy(mask, c), b % 2 == 1) {
      LowBitDivides(mask, c, b);
    }
    forall b: Byte ensures Shift(Wide(b)) == Wide(b / 2) {
      ByteBits(b);
    }
    FeedIsDivide(FeedLowBit, Shift, Wide, x => BitsBy(mask, x), c, b, 8);
  }

  lemma {:induction false} FoldDivides(mask: nat -> Word, bytes: seq<Byte>)
    requires Masks(mask)
    ensures BitsBy(mask, Fold(FeedByte, ONES, bytes)) == Fold<Coefficients, Byte>(DivideByte, seq(32, _ => true), bytes)
  {
    if bytes == [] {
      forall k | 0 <= k < 32 ensures Has(ONES, mask(k)) {
        OnesHas(mask(k));
      }
    } else {
      var n := |bytes| - 1;
      FoldDivides(mask, bytes[..n]);
      ByteDivides(mask, Fold(FeedByte, ONES, bytes[..n]), bytes[n]);
    }
  }

  lemma NegatedBits(mask: nat -> Word, c: Word)
    requires Masks(mask)
    ensures BitsBy(mask, Xor(c, ONES)) == Negated(BitsBy(mask, c))
  {
    forall k | 0 <= k < 32 ensures Has(Xor(c, ONES), mask(k)) <==> !Has(c, mask(k)) {
      XorBit(c, ONES, mask(k));
      OnesHas(mask(k));
    }
  }

  lemma RemainderBy(mask: nat -> Word, bytes: seq<Byte>)
    requires Masks(mask)
    ensures BitsBy(mask, BitwiseCrc(bytes)) == Remainder(bytes)
  {
    FoldDivides(mask, bytes);
    NegatedBits(mask, Fold(FeedByte, ONES, bytes));
  }

  /** The CRC of any bytes is the negated remainder of dividing them by the generator polynomial. */
  lemma CrcIsRemainder(bytes: seq<Byte>)
    ensures Bits(BitwiseCrc(bytes)) == Remainder(bytes)
  {
    MaskIsMasks();
    RemainderBy(Mask, bytes);
  }

  // ----- Known values -----

  lemma EightTurns(c: Word)
    ensures Times(Halve, c, 8) == Halve(Halve(Halve(Halve(Halve(Halve(Halve(Halve(c))))))))
  {
  }

  /** Entry 128 of the table is the polynomial's word. */
  lemma Entry128(table: seq<Word>)
    requires IsTable(table, Halve)
    ensures table[128] == 0xEDB8_8320
  {
    EightTurns(128);
    assert Number(128) == 128;
  }

  lemma Letter(b: Byte, x: Word, c: Word, d: Word)
    requires Wide(b) == x && Times(Halve, Xor(c, x), 8) == d
    ensures FeedByte(c, b) == d
  {
    FeedByteTurns(c, b);
  }

  lemma EndLetters()
    ensures FeedByte(ONES, 73) == 0x22FD_E946 && FeedByte(0x22FD_E946, 69) == 0x992B_AC53
    ensures FeedByte(0x992B_AC53, 78) == 0x639F_4775 && FeedByte(0x639F_4775, 68) == 0x51BD_9F7D
  {
    EightTurns(Xor(ONES, 73));
    EightTurns(Xor(0x22FD_E946, 69));
    EightTurns(Xor(0x992B_AC53, 78));
    EightTurns(Xor(0x639F_4775, 68));
    Letter(73, 73, ONES, 0x22FD_E946);
    Letter(69, 69, 0x22FD_E946, 0x992B_AC53);
    Letter(78, 78, 0x992B_AC53, 0x639F_4775);
    Letter(68, 68, 0x639F_4775, 0x51BD_9F7D);
  }

  /** The letters "IEND", the type of the last chunk of every picture. */
  predicate IsEndType(kind: seq<Byte>) { kind == [73, 69, 78, 68] }

  lemma EndRegister(kind: seq<Byte>)
    requires IsEndType(kind)
    ensures Fold(FeedByte, ONES, kind) == 0x51BD_9F7D
  {
    EndLetters();
    FoldFront(FeedByte, ONES, kind);
    FoldFront(FeedByte, 0x22FD_E946, kind[1..]);
    FoldFront(FeedByte, 0x992B_AC53, kind[2..]);
    FoldFront(FeedByte, 0x639F_4775, kind[3..]);
    assert kind[1..][1..] == kind[2..] && kind[2..][1..] == kind[3..] && kind[3..][1..] == [];
  }

  lemma EndCrc(kind: seq<Byte>)
    requires IsEndType(kind)
    ensures CrcOf(kind) == 0xAE42_6082
  {
    EndRegister(kind);
    assert Xor(0x51BD_9F7D, ONES) == 0xAE42_6082;
  }

  lemma EndDigits()
    ensures BE32(0) == [0, 0, 0, 0] && BE32(0xAE42_6082) == [0xAE, 0x42, 0x60, 0x82]
  {
    FourDigits(0);
    FourDigits(0xAE42_6082);
  }

  lemma FrameOf(kind: seq<Byte>, code: nat, len: seq<Byte>, crc: seq<Byte>)
    requires |kind| == 4 && CrcOf(kind) == code && BE32(0) == len && BE32(code) == crc
    ensures Frame(Chunk(kind, [])) == len + kind + crc
  {
    assert kind + [] == kind;
  }

  /** The whole last chunk, byte for byte. */
  lemma EndChunk(kind: seq<Byte>)
    requires IsEndType(kind)
    ensures Frame(Chunk(kind, [])) == [0, 0, 0, 0, 73, 69, 78, 68, 0xAE, 0x42, 0x60, 0x82]
  {
    EndCrc(kind);
    EndDigits();
    FrameOf(kind, 0xAE42_6082, [0, 0, 0, 0], [0xAE, 0x42, 0x60, 0x82]);
  }
}
