/** The table-driven CRC of the PNG generator against the bit-at-a-time CRC of RFC 2083, section 3.4. */
module Crc32 {
  import opened Collections
  import opened ShiftRegisters

  type Word = bv32

  const POLYNOMIAL: Word := 0xEDB8_8320
  const ONES: Word := 0xFFFF_FFFF

  function Xor(a: Word, b: Word): Word { a ^ b }

  function Shift(a: Word): Word { a >> 1 }

  function Shift8(a: Word): Word { a >> 8 }

  function Raise8(a: Word): Word { a << 8 }

  function Low8(a: Word): Word { a & 0xFF }

  function Octet(b: Byte): bv8 { b as bv8 }

  function Wide(b: Byte): Word { Octet(b) as Word }

  predicate Odd(a: Word) { a & 1 == 1 }

  // ----- The reference, bit at a time -----

  /** One turn of the shift register on a message bit. */
  function FeedBit(c: Word, bit: bool): Word {
    if Odd(c) != bit then Xor(POLYNOMIAL, Shift(c)) else Shift(c)
  }

  /** One turn on the lowest bit of `bits`. */
  function FeedLowBit(c: Word, bits: Word): Word {
    FeedBit(c, Odd(bits))
  }

  /** The eight bits of a byte, least significant first. */
  function FeedByte(c: Word, b: Byte): Word {
    FeedBits(FeedLowBit, Shift, c, Wide(b), 8)
  }

  /** Preset to all ones, fed bit by bit, complemented at the end. */
  function BitwiseCrc(bytes: seq<Byte>): Word {
    Xor(Fold(FeedByte, ONES, bytes), ONES)
  }

  // ----- The table -----

  /** One turn of the table's inner loop. */
  function Halve(c: Word): Word {
    if Odd(c) then Xor(POLYNOMIAL, Shift(c)) else Shift(c)
  }

  function Number(n: nat): Word
    requires n < 256
  {
    n as Word
  }

  ghost predicate IsTable(table: seq<Word>, halve: Word -> Word) {
    |table| == 256 && forall n :: 0 <= n < 256 ==> table[n] == Times(halve, Number(n), 8)
  }

  ghost predicate Turns(halve: Word -> Word) {
    forall c {:trigger Halve(c)} :: halve(c) == Halve(c)
  }

  /** Table entry n: eight turns of the inner loop. */
  method Entry(n: nat, ghost halve: Word -> Word) returns (c: Word)
    requires n < 256 && Turns(halve)
    ensures c == Times(halve, Number(n), 8)
  {
    c := n as Word;
    for k := 0 to 8
      invariant Times(halve, c, 8 - k) == Times(halve, Number(n), 8)
    {
      assert halve(c) == Halve(c);
      c := if c & 1 == 1 then POLYNOMIAL ^ (c >> 1) else c >> 1;
    }
  }

  ghost predicate IsTableUpTo(table: seq<Word>, halve: Word -> Word, n: nat) {
    n <= 256 && |table| == n && forall m :: 0 <= m < n ==> table[m] == Times(halve, Number(m), 8)
  }

  lemma ExtendTable(table: seq<Word>, halve: Word -> Word, n: nat, c: Word)
    requires n < 256 && IsTableUpTo(table, halve, n) && c == Times(halve, Number(n), 8)
    ensures IsTableUpTo(table + [c], halve, n + 1)
  {
  }

  method BuildTable() returns (table: seq<Word>)
    ensures IsTable(table, Halve)
  {
    ghost var halve := Halve;
    table := [];
    for n := 0 to 256
      invariant IsTableUpTo(table, halve, n)
    {
      var c := Entry(n, halve);
      ExtendTable(table, halve, n, c);
      table := table + [c];
    }
  }

  lemma LowByteInRange(x: Word)
    ensures 0 <= Low8(x) as int < 256
  {
  }

  lemma IntBack(x: Word)
    ensures (x as int) as Word == x
  {
  }

  /** Looking up the low byte of x gives what eight turns make of it. */
  lemma EntryAt(table: seq<Word>, halve: Word -> Word, x: Word)
    requires IsTable(table, halve)
    ensures 0 <= Low8(x) as int < |table|
    ensures table[Low8(x) as int] == Times(halve, Low8(x), 8)
  {
    LowByteInRange(x);
    IntBack(Low8(x));
  }

  /** The look-up loop folds any step that one look-up computes. */
  method FoldTable(table: seq<Word>, bytes: seq<Byte>, ghost halve: Word -> Word, ghost step: (Word, Byte) -> Word)
    returns (c: Word)
    requires IsTable(table, halve)
    requires forall c, b :: step(c, b) == Xor(Times(halve, Low8(Xor(c, Wide(b))), 8), Shift8(c))
    ensures c == Fold(step, ONES, bytes)
  {
    c := ONES;
    for i := 0 to |bytes|
      invariant c == Fold(step, ONES, bytes[..i])
    {
      assert bytes[..i + 1][..i] == bytes[..i];
      var x := Xor(c, Wide(bytes[i]));
      EntryAt(table, halve, x);
      c := Xor(table[Low8(x) as int], Shift8(c));
    }
    assert bytes[..|bytes|] == bytes;
  }

  /** The table loop computes the reference, for every byte sequence. */
  method Crc(table: seq<Word>, bytes: seq<Byte>) returns (crc: Word)
    requires IsTable(table, Halve)
    ensures crc == BitwiseCrc(bytes)
  {
    forall c, b ensures FeedByte(c, b) == Xor(Times(Halve, Low8(Xor(c, Wide(b))), 8), Shift8(c)) {
      TableStep(c, b);
    }
    var c := FoldTable(table, bytes, Halve, FeedByte);
    crc := Xor(c, ONES);
  }

  // ----- Words -----

  lemma RawAssoc(a: Word, b: Word, c: Word)
    ensures (a ^ b) ^ c == a ^ (b ^ c)
  {
  }

  lemma RawComm(a: Word, b: Word)
    ensures a ^ b == b ^ a
  {
  }

  lemma RawTwice(p: Word, a: Word, b: Word)
    ensures (p ^ a) ^ (p ^ b) == a ^ b
  {
  }

  lemma XorAssoc(a: Word, b: Word, c: Word)
    ensures Xor(Xor(a, b), c) == Xor(a, Xor(b, c))
  {
    RawAssoc(a, b, c);
  }

  lemma XorComm(a: Word, b: Word)
    ensures Xor(a, b) == Xor(b, a)
  {
    RawComm(a, b);
  }

  lemma XorTwice(p: Word, a: Word, b: Word)
    ensures Xor(Xor(p, a), Xor(p, b)) == Xor(a, b)
  {
    RawTwice(p, a, b);
  }

  lemma XorZero(a: Word)
    ensures Xor(a, 0) == a
  {
  }

  lemma XorCancel(c: Word, a: Word, b: Word)
    requires Xor(c, a) == Xor(c, b)
    ensures a == b
  {
  }

  lemma XorCancelRight(a: Word, b: Word, c: Word)
    requires Xor(a, c) == Xor(b, c)
    ensures a == b
  {
  }

  lemma RawShiftXor(a: Word, b: Word)
    ensures (a ^ b) >> 1 == (a >> 1) ^ (b >> 1)
  {
  }

  lemma ShiftXor(a: Word, b: Word)
    ensures Shift(Xor(a, b)) == Xor(Shift(a), Shift(b))
  {
    RawShiftXor(a, b);
  }

  lemma OddXor(a: Word, b: Word)
    ensures Odd(Xor(a, b)) <==> Odd(a) != Odd(b)
  {
  }

  // ----- The register as a linear map -----

  lemma HalveOdd(a: Word)
    requires Odd(a)
    ensures Halve(a) == Xor(POLYNOMIAL, Shift(a))
  {
  }

  lemma HalveEven(a: Word)
    requires !Odd(a)
    ensures Halve(a) == Shift(a)
  {
  }

  lemma HalveXorBothOdd(a: Word, b: Word)
    requires Odd(a) && Odd(b)
    ensures Halve(Xor(a, b)) == Xor(Halve(a), Halve(b))
  {
    OddXor(a, b);
    HalveOdd(a);
    HalveOdd(b);
    HalveEven(Xor(a, b));
    ShiftXor(a, b);
    XorTwice(POLYNOMIAL, Shift(a), Shift(b));
  }

  lemma HalveXorFirstOdd(a: Word, b: Word)
    requires Odd(a) && !Odd(b)
    ensures Halve(Xor(a, b)) == Xor(Halve(a), Halve(b))
  {
    OddXor(a, b);
    HalveOdd(a);
    HalveEven(b);
    HalveOdd(Xor(a, b));
    ShiftXor(a, b);
    XorAssoc(POLYNOMIAL, Shift(a), Shift(b));
  }

  lemma HalveXorNoneOdd(a: Word, b: Word)
    requires !Odd(a) && !Odd(b)
    ensures Halve(Xor(a, b)) == Xor(Halve(a), Halve(b))
  {
    OddXor(a, b);
    HalveEven(a);
    HalveEven(b);
    HalveEven(Xor(a, b));
    ShiftXor(a, b);
  }

  lemma HalveXor(a: Word, b: Word)
    ensures Halve(Xor(a, b)) == Xor(Halve(a), Halve(b))
  {
    if Odd(a) && Odd(b) {
      HalveXorBothOdd(a, b);
    } else if Odd(a) {
      HalveXorFirstOdd(a, b);
    } else if Odd(b) {
      HalveXorFirstOdd(b, a);
      XorComm(a, b);
      XorComm(Halve(a), Halve(b));
    } else {
      HalveXorNoneOdd(a, b);
    }
  }

  lemma TopBit(a: Word, b: Word)
    ensures Xor(POLYNOMIAL, Shift(a)) != Shift(b)
  {
  }

  lemma ShiftInjective(a: Word, b: Word)
    requires Shift(a) == Shift(b) && Odd(a) == Odd(b)
    ensures a == b
  {
  }

  lemma HalveInjective(a: Word, b: Word)
    requires Halve(a) == Halve(b)
    ensures a == b
  {
    TopBit(a, b);
    TopBit(b, a);
    if Odd(a) {
      XorCancel(POLYNOMIAL, Shift(a), Shift(b));
    }
    ShiftInjective(a, b);
  }

  lemma HalveIsLinear()
    ensures Linear(Halve, Xor)
  {
    forall a, b ensures Halve(Xor(a, b)) == Xor(Halve(a), Halve(b)) {
      HalveXor(a, b);
    }
  }

  lemma HalveIsInjective()
    ensures Injective(Halve)
  {
    forall a, b | Halve(a) == Halve(b) ensures a == b {
      HalveInjective(a, b);
    }
  }

  // ----- Feeding a byte is eight turns -----

  lemma FeedLowBitTurns(c: Word, bits: Word)
    ensures Halve(Xor(c, bits)) == Xor(FeedLowBit(c, bits), Shift(bits))
  {
    var x := Xor(c, bits);
    ShiftXor(c, bits);
    OddXor(c, bits);
    if Odd(x) {
      HalveOdd(x);
      XorAssoc(POLYNOMIAL, Shift(c), Shift(bits));
    } else {
      HalveEven(x);
    }
  }

  lemma RawStages(a: Word)
    ensures (a >> 1) >> 1 == a >> 2
  {
  }

  lemma RawStage4(a: Word)
    ensures ((a >> 2) >> 1) >> 1 == a >> 4
  {
  }

  lemma RawStage6(a: Word)
    ensures ((a >> 4) >> 1) >> 1 == a >> 6
  {
  }

  lemma RawStage8(a: Word)
    ensures ((a >> 6) >> 1) >> 1 == a >> 8
  {
  }

  lemma Stage2(a: Word)
    ensures Shift(Shift(a)) == a >> 2
  {
    RawStages(a);
  }

  lemma Stage4(a: Word)
    ensures Shift(Shift(a >> 2)) == a >> 4
  {
    RawStage4(a);
  }

  lemma Stage6(a: Word)
    ensures Shift(Shift(a >> 4)) == a >> 6
  {
    RawStage6(a);
  }

  lemma Stage8(a: Word)
    ensures Shift(Shift(a >> 6)) == a >> 8
  {
    RawStage8(a);
  }

  lemma TwoTimes(c: Word, k: nat)
    ensures Times(Shift, c, k + 2) == Times(Shift, Shift(Shift(c)), k)
  {
  }

  lemma EightShifts(a: Word)
    ensures Times(Shift, a, 8) == Shift8(a)
  {
    Stage2(a);
    Stage4(a);
    Stage6(a);
    Stage8(a);
    TwoTimes(a, 6);
    TwoTimes(a >> 2, 4);
    TwoTimes(a >> 4, 2);
    TwoTimes(a >> 6, 0);
  }

  lemma ByteShiftedOut(b: Byte)
    ensures Shift8(Wide(b)) == 0
  {
  }

  lemma FeedByteTurns(c: Word, b: Byte)
    ensures FeedByte(c, b) == Times(Halve, Xor(c, Wide(b)), 8)
  {
    forall c, bits ensures Halve(Xor(c, bits)) == Xor(FeedLowBit(c, bits), Shift(bits)) {
      FeedLowBitTurns(c, bits);
    }
    FeedBitsTurns(Halve, FeedLowBit, Shift, Xor, c, Wide(b), 8);
    EightShifts(Wide(b));
    ByteShiftedOut(b);
    XorZero(FeedByte(c, b));
  }

  lemma ClearLowBits(a: Word)
    requires Low8(a) == 0
    ensures !Odd(a) && !Odd(Shift(a)) && !Odd(a >> 2) && !Odd(Shift(a >> 2))
    ensures !Odd(a >> 4) && !Odd(Shift(a >> 4)) && !Odd(a >> 6) && !Odd(Shift(a >> 6))
  {
  }

  lemma LowByteClear(a: Word)
    requires Low8(a) == 0
    ensures forall i :: 0 <= i < 8 ==> !Odd(Times(Shift, a, i))
  {
    ClearLowBits(a);
    Stage2(a);
    Stage4(a);
    Stage6(a);
    forall i | 0 <= i < 8 ensures !Odd(Times(Shift, a, i)) {
      if i >= 2 { TwoTimes(a, i - 2); }
      if i >= 4 { TwoTimes(a >> 2, i - 4); }
      if i >= 6 { TwoTimes(a >> 4, i - 6); }
    }
  }

  /** With its low byte clear the register just shifts. */
  lemma HighBytesShift(a: Word)
    requires Low8(a) == 0
    ensures Times(Halve, a, 8) == Shift8(a)
  {
    LowByteClear(a);
    TimesAgree(Halve, Shift, a, 8);
    EightShifts(a);
  }

  lemma SplitLowByte(x: Word)
    ensures x == Xor(Low8(x), x & 0xFFFF_FF00)
    ensures Low8(x & 0xFFFF_FF00) == 0
    ensures Shift8(x & 0xFFFF_FF00) == Shift8(x)
  {
  }

  lemma Shift8Xor(a: Word, b: Word)
    ensures Shift8(Xor(a, b)) == Xor(Shift8(a), Shift8(b))
  {
  }

  /** One table look-up does the work of eight turns. */
  lemma TableStep(c: Word, b: Byte)
    ensures FeedByte(c, b) == Xor(Times(Halve, Low8(Xor(c, Wide(b))), 8), Shift8(c))
  {
    var x := Xor(c, Wide(b));
    FeedByteTurns(c, b);
    HalveIsLinear();
    SplitLowByte(x);
    TimesLinear(Halve, Xor, Low8(x), x & 0xFFFF_FF00, 8);
    HighBytesShift(x & 0xFFFF_FF00);
    Shift8Xor(c, Wide(b));
    ByteShiftedOut(b);
    XorZero(Shift8(c));
  }

  // ----- What the CRC detects -----

  predicate TopByteClear(x: Word) {
    x & 0xFF00_0000 == 0
  }

  lemma RaisedByte(x: Word)
    requires TopByteClear(x)
    ensures Low8(Raise8(x)) == 0 && Shift8(Raise8(x)) == x
  {
  }

  /** Up to four bytes as one little-endian word. */
  function LittleEndian(w: seq<Byte>): Word {
    Packed(Xor, Wide, Raise8, 0, w)
  }

  predicate Fits1(x: Word) { x & 0xFFFF_FF00 == 0 }

  predicate Fits2(x: Word) { x & 0xFFFF_0000 == 0 }

  lemma Grow1(b: Byte)
    ensures Fits1(Xor(Wide(b), Raise8(0)))
  {
  }

  lemma Grow2(b: Byte, r: Word)
    requires Fits1(r)
    ensures Fits2(Xor(Wide(b), Raise8(r)))
  {
  }

  lemma Grow3(b: Byte, r: Word)
    requires Fits2(r)
    ensures TopByteClear(Xor(Wide(b), Raise8(r)))
  {
  }

  lemma NarrowIsTopClear(x: Word)
    ensures Fits1(x) ==> TopByteClear(x)
    ensures Fits2(x) ==> TopByteClear(x)
  {
  }

  lemma PackedStep(w: seq<Byte>)
    requires w != []
    ensures LittleEndian(w) == Xor(Wide(w[0]), Raise8(LittleEndian(w[1..])))
  {
  }

  lemma LittleEndianFits(w: seq<Byte>)
    requires |w| <= 3
    ensures TopByteClear(LittleEndian(w))
    ensures |w| == 1 ==> Fits1(LittleEndian(w))
    ensures |w| == 2 ==> Fits2(LittleEndian(w))
    decreases |w|
  {
    if |w| > 0 {
      PackedStep(w);
      LittleEndianFits(w[1..]);
      NarrowIsTopClear(LittleEndian(w));
      if |w| == 1 {
        Grow1(w[0]);
      } else if |w| == 2 {
        Grow2(w[0], LittleEndian(w[1..]));
      } else {
        Grow3(w[0], LittleEndian(w[1..]));
      }
    }
  }

  lemma WordLow(b: Byte, r: Word)
    ensures Low8(Xor(Wide(b), Raise8(r))) == Wide(b)
  {
  }

  lemma WordHigh(b: Byte, r: Word)
    requires TopByteClear(r)
    ensures Shift8(Xor(Wide(b), Raise8(r))) == r
  {
  }

  lemma NextOctet(x: bv8)
    requires x as int < 255
    ensures (x + 1) as int == x as int + 1
  {
  }

  lemma {:induction false} SomeOctet(n: nat) returns (x: bv8)
    requires n < 256
    ensures x as int == n
  {
    if n == 0 {
      x := 0;
    } else {
      var y := SomeOctet(n - 1);
      NextOctet(y);
      x := y + 1;
    }
  }

  lemma OctetOf(n: nat, x: bv8)
    requires n < 256 && x as int == n
    ensures (n as bv8) as int == n
  {
  }

  lemma OctetBack(b: Byte)
    ensures Octet(b) as int == b
  {
    var x := SomeOctet(b);
    OctetOf(b, x);
  }

  lemma OctetWide(a: bv8, b: bv8)
    requires a as Word == b as Word
    ensures a == b
  {
  }

  lemma WideInjective(a: Byte, b: Byte)
    requires Wide(a) == Wide(b)
    ensures a == b
  {
    OctetWide(Octet(a), Octet(b));
    OctetBack(a);
    OctetBack(b);
  }

  lemma {:induction false} LittleEndianInjective(v: seq<Byte>, w: seq<Byte>)
    requires |v| == |w| <= 4 && LittleEndian(v) == LittleEndian(w)
    ensures v == w
    decreases |v|
  {
    if v != [] {
      var r, t := LittleEndian(v[1..]), LittleEndian(w[1..]);
      PackedStep(v);
      PackedStep(w);
      LittleEndianFits(v[1..]);
      LittleEndianFits(w[1..]);
      WordLow(v[0], r);
      WordLow(w[0], t);
      WordHigh(v[0], r);
      WordHigh(w[0], t);
      WideInjective(v[0], w[0]);
      LittleEndianInjective(v[1..], w[1..]);
      assert v == [v[0]] + v[1..] && w == [w[0]] + w[1..];
    }
  }

  lemma RaisedShifts(w: seq<Byte>)
    requires |w| <= 3
    ensures Times(Halve, Raise8(LittleEndian(w)), 8) == LittleEndian(w)
  {
    var x := LittleEndian(w);
    LittleEndianFits(w);
    RaisedByte(x);
    HighBytesShift(Raise8(x));
  }

  lemma {:induction false} SuffixesRaisable(w: seq<Byte>)
    requires |w| <= 4
    ensures Raisable(Halve, Xor, Wide, Raise8, 0, 8, w)
    decreases |w|
  {
    if w != [] {
      RaisedShifts(w[1..]);
      SuffixesRaisable(w[1..]);
    }
  }

  /** Up to four bytes act as one word added in front. */
  lemma FeedWindow(c: Word, w: seq<Byte>)
    requires |w| <= 4
    ensures Fold(FeedByte, c, w) == Times(Halve, Xor(c, LittleEndian(w)), 8 * |w|)
  {
    forall c, b ensures FeedByte(c, b) == Times(Halve, Xor(c, Wide(b)), 8) {
      FeedByteTurns(c, b);
    }
    HalveIsLinear();
    forall c, b, r ensures Xor(Xor(c, Wide(b)), Raise8(r)) == Xor(c, Xor(Wide(b), Raise8(r))) {
      XorAssoc(c, Wide(b), Raise8(r));
    }
    forall a ensures Xor(a, 0) == a {
      XorZero(a);
    }
    SuffixesRaisable(w);
    FoldWindow(FeedByte, Halve, Xor, Wide, Raise8, 0, 8, c, w);
  }

  lemma WindowInjective(c: Word, v: seq<Byte>, w: seq<Byte>)
    requires |v| == |w| <= 4 && Fold(FeedByte, c, v) == Fold(FeedByte, c, w)
    ensures v == w
  {
    FeedWindow(c, v);
    FeedWindow(c, w);
    HalveIsInjective();
    TimesInjective(Halve, Xor(c, LittleEndian(v)), Xor(c, LittleEndian(w)), 8 * |v|);
    XorCancel(c, LittleEndian(v), LittleEndian(w));
    LittleEndianInjective(v, w);
  }

  lemma FeedByteInjective(c: Word, d: Word, b: Byte)
    requires FeedByte(c, b) == FeedByte(d, b)
    ensures c == d
  {
    FeedByteTurns(c, b);
    FeedByteTurns(d, b);
    HalveIsInjective();
    TimesInjective(Halve, Xor(c, Wide(b)), Xor(d, Wide(b)), 8);
    XorCancelRight(c, d, Wide(b));
  }

  lemma FoldWindowed(before: seq<Byte>, v: seq<Byte>, behind: seq<Byte>)
    ensures Fold(FeedByte, ONES, before + v + behind)
      == Fold(FeedByte, Fold(FeedByte, Fold(FeedByte, ONES, before), v), behind)
  {
    FoldConcat(FeedByte, ONES, before + v, behind);
    FoldConcat(FeedByte, ONES, before, v);
  }

  lemma BurstChangesRegister(c: Word, v: seq<Byte>, w: seq<Byte>, behind: seq<Byte>)
    requires |v| == |w| <= 4
    ensures Fold(FeedByte, Fold(FeedByte, c, v), behind) == Fold(FeedByte, Fold(FeedByte, c, w), behind) ==> v == w
  {
    if Fold(FeedByte, Fold(FeedByte, c, v), behind) == Fold(FeedByte, Fold(FeedByte, c, w), behind) {
      forall c, d, b | FeedByte(c, b) == FeedByte(d, b) ensures c == d {
        FeedByteInjective(c, d, b);
      }
      FoldInjective(FeedByte, Fold(FeedByte, c, v), Fold(FeedByte, c, w), behind);
      WindowInjective(c, v, w);
    }
  }

  /** Damage confined to four consecutive bytes always changes the CRC, wherever it falls. */
  lemma BurstDetected(before: seq<Byte>, v: seq<Byte>, w: seq<Byte>, behind: seq<Byte>)
    requires |v| == |w| <= 4
    ensures BitwiseCrc(before + v + behind) == BitwiseCrc(before + w + behind) <==> v == w
  {
    if BitwiseCrc(before + v + behind) == BitwiseCrc(before + w + behind) {
      XorCancelRight(Fold(FeedByte, ONES, before + v + behind), Fold(FeedByte, ONES, before + w + behind), ONES);
      FoldWindowed(before, v, behind);
      FoldWindowed(before, w, behind);
      BurstChangesRegister(Fold(FeedByte, ONES, before), v, w, behind);
    }
  }
}
