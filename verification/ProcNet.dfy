/** The /proc/net socket tables: address decoding, and the grouping of established peers. */
module ProcNet {
  import opened Collections
  import opened Numerals
  import opened Text

  datatype Endpoint = Endpoint(address: string, port: Option<int>)

  // ----- What the kernel prints -----

  /** An IPv6 address as the kernel prints it: four 32-bit words, each least significant byte first. */
  function KernelOrder(b: seq<Byte>): (r: seq<Byte>)
    requires |b| == 16
    ensures |r| == 16
    ensures forall k :: 0 <= k < 16 ==> r[k] == b[k / 4 * 4 + 3 - k % 4]
  {
    seq(16, k requires 0 <= k < 16 => b[k / 4 * 4 + 3 - k % 4])
  }

  function Encode16(b: seq<Byte>): string
    requires |b| == 16
  {
    HexText(KernelOrder(b))
  }

  /** An IPv4 address is one such word. */
  function Encode4(b: seq<Byte>): string
    requires |b| == 4
  {
    HexText([b[3], b[2], b[1], b[0]])
  }

  function EncodePort(p: nat): string
    requires p < 65536
  {
    HexText([p / 256, p % 256])
  }

  // ----- The decoders -----

  /** JavaScript's slice, which stops at the end of the text. */
  function Slice(s: string, lo: nat, hi: nat): string
    requires lo <= hi
  {
    if |s| <= lo then "" else if |s| <= hi then s[lo..] else s[lo..hi]
  }

  /** The part of s before the first colon, and the part up to the second one, if there is one. */
  function AddressPart(s: string): string { Split(s, ':')[0] }

  function PortPart(s: string): Option<int> {
    var parts := Split(s, ':');
    if |parts| < 2 then None else ParseHex(parts[1])
  }

  function Word(addrHex: string, i: nat): string { Slice(addrHex, i * 8, i * 8 + 8) }

  /** The first two bytes of a word in network order, and the last two. */
  function Front(w: string): string { Slice(w, 6, 8) + Slice(w, 4, 6) }

  function Back(w: string): string { Slice(w, 2, 4) + Slice(w, 0, 2) }

  /** The g-th group of two bytes. */
  function Group(addrHex: string, g: nat): string {
    if g % 2 == 0 then Front(Word(addrHex, g / 2)) else Back(Word(addrHex, g / 2))
  }

  function Dotted(ns: seq<int>): string
    requires ns != []
  {
    Join(Decimals(ns), '.')
  }

  function Decimals(ns: seq<int>): (r: seq<string>)
    ensures |r| == |ns|
    ensures forall i :: 0 <= i < |ns| ==> r[i] == IntText(ns[i])
  {
    seq(|ns|, i requires 0 <= i < |ns| => IntText(ns[i]))
  }

  predicate IsHexGroup(s: string) {
    1 <= |s| <= 4 && forall i :: 0 <= i < |s| ==> IsLowerHex(s[i])
  }

  /** The groups match the pattern of a v4-mapped address. */
  predicate LooksMapped(gs: seq<string>)
    requires |gs| == 8
  {
    && (forall i :: 0 <= i < 5 ==> gs[i] == "0")
    && gs[5] == "ffff"
    && IsHexGroup(gs[6])
    && IsHexGroup(gs[7])
  }

  function Address6(gs: seq<string>): string
    requires |gs| == 8
  {
    if LooksMapped(gs) then
      var hi, lo := HexValue(gs[6]), HexValue(gs[7]);
      Dotted([hi / 256, hi % 256, lo / 256, lo % 256])
    else Join(gs, ':')
  }

  function Groups(addrHex: string): (r: seq<string>)
    ensures |r| == 8
    ensures forall g :: 0 <= g < 8 ==> r[g] == Group(addrHex, g)
  {
    seq(8, g requires 0 <= g < 8 => Group(addrHex, g))
  }

  /** Leading zeros dropped, lower case. */
  function Shown(gs: seq<string>): (r: seq<string>)
    ensures |r| == |gs|
    ensures forall g :: 0 <= g < |gs| ==> r[g] == Lower(DropZeros(gs[g]))
  {
    seq(|gs|, g requires 0 <= g < |gs| => Lower(DropZeros(gs[g])))
  }

  function ShownGroups(addrHex: string): (r: seq<string>)
    ensures |r| == 8
  {
    Shown(Groups(addrHex))
  }

  lemma TakeTwo<T>(s: seq<T>, k: nat)
    requires k + 2 <= |s|
    ensures s[..k + 2] == s[..k] + [s[k], s[k + 1]]
  {
  }

  lemma NextGroups(addrHex: string, i: nat)
    requires i < 4
    ensures Groups(addrHex)[..2 * i + 2] == Groups(addrHex)[..2 * i] + [Front(Word(addrHex, i)), Back(Word(addrHex, i))]
  {
    var g := 2 * i;
    assert g / 2 == i && (g + 1) / 2 == i;
    TakeTwo(Groups(addrHex), g);
  }

  method ParseHexAddr6(hex: string) returns (e: Endpoint)
    ensures e == Endpoint6(hex)
  {
    SplitNonempty(hex, ':');
    var addrHex := AddressPart(hex);
    var words: seq<string> := [];
    for i := 0 to 4
      invariant words == Groups(addrHex)[..2 * i]
    {
      var w := Word(addrHex, i);
      NextGroups(addrHex, i);
      words := words + [Front(w), Back(w)];
    }
    assert Groups(addrHex)[..8] == Groups(addrHex);
    e := Endpoint(Address6(Shown(words)), PortPart(hex));
  }

  function Endpoint6(hex: string): Endpoint {
    SplitNonempty(hex, ':');
    Endpoint(Address6(ShownGroups(AddressPart(hex))), PortPart(hex))
  }

  /** NaN counts as zero, and only the low 32 bits are looked at. */
  function Endpoint4(hex: string): Endpoint {
    SplitNonempty(hex, ':');
    Endpoint(Dotted(Octets(Low32(ParseHex(AddressPart(hex)).GetOr(0)))), PortPart(hex))
  }

  function Low32(n: int): int { n % TWO_32 }

  function Octets(n: int): seq<int> {
    [n % 256, n / 256 % 256, n / 65536 % 256, n / 16777216 % 256]
  }

  // ----- An independent reader of the printed addresses (RFC 4291, section 2.2) -----

  function Pair(v: nat): seq<int> { [v / 256, v % 256] }

  function MappedPrefix(): seq<int> { [0, 0, 0, 0, 0, 0, 0, 0, 0, 0, 255, 255] }

  /** Eight hexadecimal groups, or a dotted quad standing for a v4-mapped address. */
  function ReadAddress(text: string): seq<int> {
    var gs := Split(text, ':');
    if |gs| == 8 then PairsOf(gs) else MappedPrefix() + IntValues(Split(text, '.'))
  }

  function PairsOf(gs: seq<string>): seq<int> {
    if gs == [] then [] else PairsOf(gs[..|gs| - 1]) + Pair(HexValue(gs[|gs| - 1]))
  }

  function IntValues(parts: seq<string>): (r: seq<int>)
    ensures |r| == |parts|
    ensures forall i :: 0 <= i < |parts| ==> r[i] == IntValue(parts[i])
  {
    seq(|parts|, i requires 0 <= i < |parts| => IntValue(parts[i]))
  }

  // ----- Round trips -----

  lemma SplitPair(a: string, b: string)
    requires ':' !in a && ':' !in b
    ensures Split(a + ":" + b, ':') == [a, b]
  {
    assert a + ":" + b == a + ([':'] + b);
    SplitStep(a, b, ':');
    SplitStep(b, "", ':');
  }

  lemma NoColon(s: string)
    requires AllHex(s)
    ensures ':' !in s
  {
  }

  lemma EncodedPort(p: nat)
    requires p < 65536
    ensures EncodePort(p) != "" && AllHex(EncodePort(p)) && ParseHex(EncodePort(p)) == Some(p)
  {
    var bytes: seq<Byte> := [p / 256, p % 256];
    HexTextValue(bytes);
    ParseHexDigits(HexText(bytes));
    assert bytes[..1] == [bytes[0]];
    assert ByteValue([bytes[0]]) == bytes[0] by { assert [bytes[0]][..0] == []; }
  }

  lemma EncodedParts(a: string, p: nat)
    requires AllHex(a) && p < 65536
    ensures var hex := a + ":" + EncodePort(p);
      && Split(hex, ':') == [a, EncodePort(p)]
      && AddressPart(hex) == a
      && PortPart(hex) == Some(p)
  {
    NoColon(a);
    EncodedPort(p);
    NoColon(EncodePort(p));
    SplitPair(a, EncodePort(p));
  }

  lemma SliceOfSlice(s: string, a: nat, b: nat, lo: nat, hi: nat)
    requires a <= b <= |s| && lo <= hi <= b - a
    ensures s[a..b][lo..hi] == s[a + lo..a + hi]
  {
    var w := s[a..b];
    assert forall k :: 0 <= k < hi - lo ==> w[lo..hi][k] == w[lo + k] == s[a + lo + k];
    assert w[lo..hi] == s[a + lo..a + hi];
  }

  lemma WordSlice(s: string, i: nat, lo: nat, hi: nat)
    requires i < 4 && |s| == 32 && lo < hi <= 8
    ensures Slice(Word(s, i), lo, hi) == s[i * 8 + lo..i * 8 + hi]
  {
    var w := Word(s, i);
    assert w == s[i * 8..i * 8 + 8];
    SliceOfSlice(s, i * 8, i * 8 + 8, lo, hi);
    assert hi == 8 ==> w[lo..hi] == w[lo..];
  }

  lemma KernelByte(b: seq<Byte>, i: nat, j: nat)
    requires |b| == 16 && i < 4 && j < 4
    ensures KernelOrder(b)[4 * i + j] == b[4 * i + 3 - j]
  {
    var k := 4 * i + j;
    assert k / 4 == i && k % 4 == j;
  }

  /** Byte j of a printed word is byte 3 - j of the address word. */
  lemma WordByte(b: seq<Byte>, i: nat, j: nat)
    requires |b| == 16 && i < 4 && j < 4
    ensures Slice(Word(Encode16(b), i), 2 * j, 2 * j + 2) == Hex2(b[4 * i + 3 - j])
  {
    var k := 4 * i + j;
    KernelByte(b, i, j);
    HexTextAt(KernelOrder(b), k);
    WordSlice(Encode16(b), i, 2 * j, 2 * j + 2);
  }

  lemma FrontBytes(b: seq<Byte>, i: nat)
    requires |b| == 16 && i < 4
    ensures Front(Word(Encode16(b), i)) == Hex2(b[4 * i]) + Hex2(b[4 * i + 1])
  {
    WordByte(b, i, 3);
    WordByte(b, i, 2);
  }

  lemma BackBytes(b: seq<Byte>, i: nat)
    requires |b| == 16 && i < 4
    ensures Back(Word(Encode16(b), i)) == Hex2(b[4 * i + 2]) + Hex2(b[4 * i + 3])
  {
    WordByte(b, i, 1);
    WordByte(b, i, 0);
  }

  function GroupText(x: Byte, y: Byte): string {
    Lower(DropZeros(Hex2(x) + Hex2(y)))
  }

  lemma TwoBytes(x: Byte, y: Byte)
    ensures HexValue(Hex2(x) + Hex2(y)) == 256 * x + y && AllHex(Hex2(x) + Hex2(y))
  {
    var bytes: seq<Byte> := [x, y];
    HexTextValue(bytes);
    assert bytes[..1] == [x] && [x][..0] == [];
    assert HexText([x]) == Hex2(x);
    assert ByteValue([x]) == x;
  }

  lemma GroupTextFacts(x: Byte, y: Byte)
    ensures HexValue(GroupText(x, y)) == 256 * x + y
    ensures IsHexGroup(GroupText(x, y))
  {
    var s := Hex2(x) + Hex2(y);
    TwoBytes(x, y);
    DropZerosFacts(s);
    LowerValue(DropZeros(s));
  }

  lemma ZeroGroup()
    ensures GroupText(0, 0) == "0"
  {
    assert Hex2(0) + Hex2(0) == "0000";
    assert "0000"[1..] == "000" && "000"[1..] == "00" && "00"[1..] == "0";
    assert DropZeros("00") == DropZeros("0") == "0";
    assert DropZeros("000") == DropZeros("00");
  }

  lemma AllOnesGroup()
    ensures GroupText(255, 255) == "ffff"
  {
    assert Hex2(255) == "FF";
    assert Hex2(255) + Hex2(255) == "FFFF";
    assert DropZeros("FFFF") == "FFFF";
  }

  predicate IsMapped(b: seq<Byte>)
    requires |b| == 16
  {
    (forall k :: 0 <= k < 10 ==> b[k] == 0) && b[10] == 255 && b[11] == 255
  }

  function ShownBytes(b: seq<Byte>): (gs: seq<string>)
    requires |b| == 16
    ensures |gs| == 8
    ensures forall g :: 0 <= g < 8 ==> gs[g] == GroupText(b[2 * g], b[2 * g + 1])
  {
    seq(8, g requires 0 <= g < 8 => GroupText(b[2 * g], b[2 * g + 1]))
  }

  /** The decoder puts the two bytes of each group back in network order. */
  lemma GroupAt(b: seq<Byte>, g: nat)
    requires |b| == 16 && g < 8
    ensures Group(Encode16(b), g) == Hex2(b[2 * g]) + Hex2(b[2 * g + 1])
  {
    var i := g / 2;
    if g % 2 == 0 {
      FrontBytes(b, i);
      assert 2 * g == 4 * i;
    } else {
      BackBytes(b, i);
      assert 2 * g == 4 * i + 2;
    }
  }

  lemma ShownAreBytes(b: seq<Byte>)
    requires |b| == 16
    ensures ShownGroups(Encode16(b)) == ShownBytes(b)
  {
    var shown, expected := ShownGroups(Encode16(b)), ShownBytes(b);
    forall g | 0 <= g < 8 ensures shown[g] == expected[g] {
      GroupAt(b, g);
    }
  }

  lemma ShownValue(b: seq<Byte>, g: nat)
    requires |b| == 16 && g < 8
    ensures Pair(HexValue(ShownBytes(b)[g])) == [b[2 * g], b[2 * g + 1]]
    ensures IsHexGroup(ShownBytes(b)[g])
  {
    GroupTextFacts(b[2 * g], b[2 * g + 1]);
  }

  lemma KnownGroups()
    ensures HexValue("0") == 0 && HexValue("ffff") == 65535
  {
    ZeroGroup();
    AllOnesGroup();
    GroupTextFacts(0, 0);
    GroupTextFacts(255, 255);
  }

  lemma MappedShows(b: seq<Byte>)
    requires |b| == 16 && IsMapped(b)
    ensures LooksMapped(ShownBytes(b))
  {
    ZeroGroup();
    AllOnesGroup();
    ShownValue(b, 6);
    ShownValue(b, 7);
    forall g | 0 <= g < 5 ensures ShownBytes(b)[g] == "0" {
      assert b[2 * g] == 0 && b[2 * g + 1] == 0;
    }
  }

  lemma ShownZero(b: seq<Byte>, g: nat)
    requires |b| == 16 && g < 8 && ShownBytes(b)[g] == "0"
    ensures b[2 * g] == 0 == b[2 * g + 1]
  {
    KnownGroups();
    ShownValue(b, g);
  }

  lemma ShownOnes(b: seq<Byte>, g: nat)
    requires |b| == 16 && g < 8 && ShownBytes(b)[g] == "ffff"
    ensures b[2 * g] == 255 == b[2 * g + 1]
  {
    KnownGroups();
    ShownValue(b, g);
  }

  lemma ShownMapped(b: seq<Byte>)
    requires |b| == 16 && LooksMapped(ShownBytes(b))
    ensures IsMapped(b)
  {
    forall k | 0 <= k < 10 ensures b[k] == 0 {
      ShownZero(b, k / 2);
    }
    ShownOnes(b, 5);
  }

  /** The pattern of a v4-mapped address matches exactly the v4-mapped addresses. */
  lemma LooksMappedIff(b: seq<Byte>)
    requires |b| == 16
    ensures LooksMapped(ShownBytes(b)) <==> IsMapped(b)
  {
    if IsMapped(b) {
      MappedShows(b);
    } else if LooksMapped(ShownBytes(b)) {
      ShownMapped(b);
    }
  }

  lemma {:induction false} TailAvoids(rest: seq<string>, c: char, d: char)
    requires c != d && Free(rest, d)
    ensures d !in Tail(rest, c)
  {
    if rest != [] {
      TailAvoids(rest[1..], c, d);
    }
  }

  lemma JoinAvoids(parts: seq<string>, c: char, d: char)
    requires parts != [] && c != d && Free(parts, d)
    ensures d !in Join(parts, c)
  {
    TailAvoids(parts[1..], c, d);
  }

  lemma ColonText(gs: seq<string>)
    requires gs != [] && forall g :: 0 <= g < |gs| ==> IsHexGroup(gs[g])
    ensures Split(Join(gs, ':'), ':') == gs && '.' !in Join(gs, ':')
  {
    assert Free(gs, ':') && Free(gs, '.');
    SplitJoin(gs, ':');
    JoinAvoids(gs, ':', '.');
  }

  lemma DottedText(ns: seq<int>)
    requires ns != []
    ensures Split(Dotted(ns), ':') == [Dotted(ns)]
    ensures IntValues(Split(Dotted(ns), '.')) == ns
    ensures |ns| > 1 ==> '.' in Dotted(ns)
  {
    var parts := Decimals(ns);
    forall i | 0 <= i < |parts| ensures ':' !in parts[i] && '.' !in parts[i] && IntValue(parts[i]) == ns[i] {
      IntRoundTrip(ns[i]);
    }
    assert Free(parts, ':') && Free(parts, '.');
    SplitJoin(parts, '.');
    JoinAvoids(parts, '.', ':');
    SplitStep(Dotted(ns), "", ':');
    if |ns| > 1 {
      assert Tail(parts[1..], '.')[0] == '.';
    }
  }

  function AddressText(b: seq<Byte>): string
    requires |b| == 16
  {
    Address6(ShownGroups(Encode16(b)))
  }

  lemma MappedText(b: seq<Byte>)
    requires |b| == 16 && IsMapped(b)
    ensures AddressText(b) == Dotted([b[12], b[13], b[14], b[15]])
  {
    ShownAreBytes(b);
    LooksMappedIff(b);
    ShownValue(b, 6);
    ShownValue(b, 7);
  }

  lemma MappedBytes(b: seq<Byte>)
    requires |b| == 16 && IsMapped(b)
    ensures MappedPrefix() + [b[12], b[13], b[14], b[15]] == b
  {
  }

  lemma GroupedText(b: seq<Byte>)
    requires |b| == 16 && !IsMapped(b)
    ensures Split(AddressText(b), ':') == ShownBytes(b) && '.' !in AddressText(b)
  {
    ShownAreBytes(b);
    LooksMappedIff(b);
    forall g | 0 <= g < 8 ensures IsHexGroup(ShownBytes(b)[g]) {
      ShownValue(b, g);
    }
    ColonText(ShownBytes(b));
  }

  lemma LastTwo(b: seq<int>)
    requires |b| >= 2
    ensures b == b[..|b| - 2] + [b[|b| - 2], b[|b| - 1]]
  {
  }

  lemma {:induction false} PairsAreBytes(gs: seq<string>, b: seq<int>)
    requires |b| == 2 * |gs|
    requires forall g :: 0 <= g < |gs| ==> Pair(HexValue(gs[g])) == [b[2 * g], b[2 * g + 1]]
    ensures PairsOf(gs) == b
  {
    if gs != [] {
      var n := |gs| - 1;
      PairsAreBytes(gs[..n], b[..|b| - 2]);
      LastTwo(b);
    }
  }

  /** Printing any 16 address bytes and decoding them gives a text that reads back as the same bytes. */
  lemma AddressRoundTrip(b: seq<Byte>)
    requires |b| == 16
    ensures ReadAddress(AddressText(b)) == b
    ensures '.' in AddressText(b) <==> IsMapped(b)
  {
    if IsMapped(b) {
      MappedText(b);
      DottedText([b[12], b[13], b[14], b[15]]);
      MappedBytes(b);
    } else {
      GroupedText(b);
      forall g | 0 <= g < 8 ensures Pair(HexValue(ShownBytes(b)[g])) == [b[2 * g], b[2 * g + 1]] {
        ShownValue(b, g);
      }
      PairsAreBytes(ShownBytes(b), b);
    }
  }

  /** Different addresses are never shown as the same text. */
  lemma AddressTextInjective(a: seq<Byte>, b: seq<Byte>)
    requires |a| == 16 && |b| == 16
    ensures AddressText(a) == AddressText(b) <==> a == b
  {
    AddressRoundTrip(a);
    AddressRoundTrip(b);
  }

  lemma Encode16Hex(b: seq<Byte>)
    requires |b| == 16
    ensures AllHex(Encode16(b)) && ':' !in Encode16(b)
  {
    HexTextValue(KernelOrder(b));
    NoColon(Encode16(b));
  }

  /** A whole tcp6 endpoint decodes to the text of its address and to its port. */
  lemma Endpoint6RoundTrip(b: seq<Byte>, p: nat)
    requires |b| == 16 && p < 65536
    ensures Endpoint6(Encode16(b) + ":" + EncodePort(p)) == Endpoint(AddressText(b), Some(p))
  {
    Encode16Hex(b);
    EncodedParts(Encode16(b), p);
  }

  function Map4(b: seq<Byte>): (r: seq<Byte>)
    requires |b| == 4
    ensures |r| == 16 && IsMapped(r) && r[12..] == b
  {
    [0, 0, 0, 0, 0, 0, 0, 0, 0, 0, 255, 255] + b
  }

  lemma ByteValueSnoc(s: seq<Byte>, b: Byte)
    ensures ByteValue(s + [b]) == 256 * ByteValue(s) + b
  {
    Snoc(s, b);
  }

  function WordValue(a: int, b: int, c: int, d: int): int {
    256 * (256 * (256 * a + b) + c) + d
  }

  lemma ByteValue4(a: Byte, b: Byte, c: Byte, d: Byte)
    ensures ByteValue([a, b, c, d]) == WordValue(a, b, c, d)
  {
    ByteValueSnoc([], a);
    ByteValueSnoc([a], b);
    ByteValueSnoc([a, b], c);
    ByteValueSnoc([a, b, c], d);
    assert [] + [a] == [a] && [a] + [b] == [a, b] && [a, b] + [c] == [a, b, c] && [a, b, c] + [d] == [a, b, c, d];
  }

  lemma Shift256(q: int, r: Byte)
    ensures (256 * q + r) / 256 == q && (256 * q + r) % 256 == r
  {
  }

  lemma ByteShifts(n: nat)
    ensures n / 65536 == n / 256 / 256 && n / 16777216 == n / 256 / 256 / 256
  {
  }

  lemma WordFits(a: Byte, b: Byte, c: Byte, d: Byte)
    ensures 0 <= WordValue(a, b, c, d) < TWO_32
  {
  }

  lemma Octets4(a: Byte, b: Byte, c: Byte, d: Byte)
    ensures 0 <= WordValue(a, b, c, d) < TWO_32
    ensures Octets(WordValue(a, b, c, d)) == [d, c, b, a]
  {
    WordFits(a, b, c, d);
    Shift256(256 * (256 * a + b) + c, d);
    Shift256(256 * a + b, c);
    Shift256(a, b);
    ByteShifts(WordValue(a, b, c, d));
  }

  lemma Low32Small(n: int)
    requires 0 <= n < TWO_32
    ensures Low32(n) == n
  {
  }

  lemma Encode4Value(b: seq<Byte>)
    requires |b| == 4
    ensures AllHex(Encode4(b)) && ParseHex(Encode4(b)) == Some(WordValue(b[3], b[2], b[1], b[0]))
  {
    HexTextValue([b[3], b[2], b[1], b[0]]);
    ParseHexDigits(Encode4(b));
    ByteValue4(b[3], b[2], b[1], b[0]);
  }

  lemma FourBytes(b: seq<Byte>)
    requires |b| == 4
    ensures [b[0], b[1], b[2], b[3]] == b
  {
  }

  lemma WordOctets(b: seq<Byte>)
    requires |b| == 4
    ensures Octets(Low32(WordValue(b[3], b[2], b[1], b[0]))) == b
  {
    Octets4(b[3], b[2], b[1], b[0]);
    FourBytes(b);
    Low32Small(WordValue(b[3], b[2], b[1], b[0]));
  }

  lemma Map4Text(b: seq<Byte>)
    requires |b| == 4
    ensures AddressText(Map4(b)) == Dotted(b)
  {
    MappedText(Map4(b));
    Map4Tail(b);
  }

  lemma Map4Tail(b: seq<Byte>)
    requires |b| == 4
    ensures var m := Map4(b); [m[12], m[13], m[14], m[15]] == b
  {
    var m := Map4(b);
    assert m[12..] == [m[12], m[13], m[14], m[15]];
  }

  /** A tcp endpoint is shown exactly as the tcp6 endpoint of its v4-mapped address. */
  lemma Endpoint4RoundTrip(b: seq<Byte>, p: nat)
    requires |b| == 4 && p < 65536
    ensures Endpoint4(Encode4(b) + ":" + EncodePort(p)) == Endpoint(AddressText(Map4(b)), Some(p))
    ensures ReadAddress(AddressText(Map4(b))) == Map4(b)
  {
    Encode4Value(b);
    WordOctets(b);
    EncodedParts(Encode4(b), p);
    Map4Text(b);
    AddressRoundTrip(Map4(b));
  }

  /** An address that is no number is shown as if it were zero. */
  lemma UnreadableEndpoint4(hex: string)
    requires ParseHex(AddressPart(hex)) == None
    ensures Endpoint4(hex).address == "0.0.0.0"
  {
    var zeros := Decimals([0, 0, 0, 0]);
    assert zeros == ["0", "0", "0", "0"];
    assert Octets(0) == [0, 0, 0, 0];
    assert zeros[1..] == ["0", "0", "0"] && zeros[1..][1..] == ["0", "0"] && zeros[1..][1..][1..] == ["0"];
  }

  /** An address text cut before its seventh group is never shown dotted, whatever it starts with. */
  lemma ShortAddressNotDotted(hex: string)
    requires |AddressPart(hex)| <= 28
    ensures Endpoint6(hex).address == Join(ShownGroups(AddressPart(hex)), ':')
  {
    var addrHex := AddressPart(hex);
    assert Word(addrHex, 3) == Slice(addrHex, 24, 32);
    assert Front(Word(addrHex, 3)) == "";
    assert Group(addrHex, 6) == "";
    assert ShownGroups(addrHex)[6] == Lower(DropZeros(""));
  }
}
