/** PNG chunk framing: the generator's emitter against a chunk reader (RFC 2083, sections 3.2 and 3.4). */
module PngChunks {
  import opened Collections
  import opened Crc32

  datatype Chunk = Chunk(kind: seq<Byte>, data: seq<Byte>)

  /** A four-byte type, and a length that fits its field. */
  predicate Framable(c: Chunk) {
    |c.kind| == 4 && |c.data| < TWO_32
  }

  // ----- Integers in bytes, most significant byte first -----

  function BigEndian(n: nat, k: nat): (s: seq<Byte>)
    ensures |s| == k
  {
    if k == 0 then [] else BigEndian(n / 256, k - 1) + [n % 256]
  }

  function Capacity(k: nat): nat {
    if k == 0 then 1 else 256 * Capacity(k - 1)
  }

  lemma {:induction false} ReadBack(n: nat, k: nat)
    requires n < Capacity(k)
    ensures ByteValue(BigEndian(n, k)) == n
  {
    if k > 0 {
      ReadBack(n / 256, k - 1);
      Snoc(BigEndian(n / 256, k - 1), n % 256);
    }
  }

  lemma {:induction false} WriteBack(s: seq<Byte>)
    ensures ByteValue(s) < Capacity(|s|) && BigEndian(ByteValue(s), |s|) == s
  {
    if s != [] {
      var init, last: int := s[..|s| - 1], s[|s| - 1];
      WriteBack(init);
      QuotientAndRest(ByteValue(init), last);
      assert s == init + [last];
    }
  }

  lemma QuotientAndRest(q: int, r: int)
    requires 0 <= r < 256
    ensures (q * 256 + r) / 256 == q && (q * 256 + r) % 256 == r
  {
  }

  lemma FourBytes()
    ensures Capacity(4) == TWO_32
  {
    assert Capacity(2) == 65536;
  }

  function BE32(n: nat): seq<Byte> {
    BigEndian(n, 4)
  }

  function ReadBE32(s: seq<Byte>): nat {
    ByteValue(s)
  }

  // ----- Emitting -----

  function CrcOf(bytes: seq<Byte>): nat {
    BitwiseCrc(bytes) as int
  }

  lemma CrcFits(bytes: seq<Byte>)
    ensures CrcOf(bytes) < TWO_32
  {
    WordFits(BitwiseCrc(bytes));
  }

  lemma WordFits(x: Word)
    ensures 0 <= x as int < TWO_32
  {
  }

  function Frame(c: Chunk): seq<Byte>
    requires Framable(c)
  {
    CrcFits(c.kind + c.data);
    BE32(|c.data|) + (c.kind + c.data) + BE32(CrcOf(c.kind + c.data))
  }

  /** Writes n into a buffer of four bytes. */
  method WriteUInt32BE(buffer: array<Byte>, n: nat)
    requires buffer.Length == 4 && n < TWO_32
    modifies buffer
    ensures buffer[..] == BE32(n)
  {
    var rest := n;
    buffer[3] := rest % 256;
    rest := rest / 256;
    buffer[2] := rest % 256;
    rest := rest / 256;
    buffer[1] := rest % 256;
    rest := rest / 256;
    buffer[0] := rest % 256;
    FourDigits(n);
  }

  lemma FourDigits(n: nat)
    ensures BE32(n) == [n / 256 / 256 / 256 % 256, n / 256 / 256 % 256, n / 256 % 256, n % 256]
  {
    var m := n / 256 / 256;
    assert BigEndian(m, 2) == [m / 256 % 256, m % 256] by {
      assert BigEndian(m / 256, 1) == [m / 256 % 256];
    }
    assert BigEndian(n / 256, 3) == BigEndian(m, 2) + [n / 256 % 256];
  }

  datatype EmitError = LengthOutOfRange

  /** The generator's chunk(); a length that does not fit its field is an error. */
  method EmitChunk(table: seq<Word>, kind: seq<Byte>, data: seq<Byte>) returns (r: Result<seq<Byte>, EmitError>)
    requires IsTable(table, Halve)
    ensures r.Ok? <==> |data| < TWO_32
    ensures Framable(Chunk(kind, data)) ==> r == Ok(Frame(Chunk(kind, data)))
  {
    if |data| >= TWO_32 {
      return Err(LengthOutOfRange);
    }
    var len := new Byte[4];
    WriteUInt32BE(len, |data|);
    var td := kind + data;
    var code := Crc(table, td);
    var crc := new Byte[4];
    WordFits(code);
    WriteUInt32BE(crc, code as int);
    return Ok(len[..] + td + crc[..]);
  }

  function FrameAll(chunks: seq<Chunk>): seq<Byte>
    requires forall c :: c in chunks ==> Framable(c)
  {
    if chunks == [] then [] else Frame(chunks[0]) + FrameAll(chunks[1..])
  }

  // ----- Reading -----

  datatype ReadError = Truncated | CrcMismatch

  datatype Parsed = Parsed(chunk: Chunk, rest: seq<Byte>)

  function ParseChunk(bytes: seq<Byte>): Result<Parsed, ReadError> {
    if |bytes| < 12 then Err(Truncated)
    else
      var n := ReadBE32(bytes[..4]);
      if |bytes| < 12 + n then Err(Truncated)
      else if CrcOf(bytes[4..8 + n]) != ReadBE32(bytes[8 + n..12 + n]) then Err(CrcMismatch)
      else Ok(Parsed(Chunk(bytes[4..8], bytes[8..8 + n]), bytes[12 + n..]))
  }

  function ParseAll(bytes: seq<Byte>): Result<seq<Chunk>, ReadError>
    decreases |bytes|
  {
    if bytes == [] then Ok([])
    else
      match ParseChunk(bytes)
      case Err(e) => Err(e)
      case Ok(p) =>
        if |p.rest| < |bytes| then
          match ParseAll(p.rest)
          case Err(e) => Err(e)
          case Ok(cs) => Ok([p.chunk] + cs)
        else Err(Truncated)
  }

  /** The fields lie where the reader looks for them. */
  lemma Fields(n: nat, len: seq<Byte>, td: seq<Byte>, crc: seq<Byte>, rest: seq<Byte>)
    requires |len| == 4 && |td| == 4 + n && |crc| == 4
    ensures var bytes := len + td + crc + rest;
      && |bytes| == 12 + n + |rest|
      && bytes[..4] == len && bytes[4..8] == td[..4] && bytes[8..8 + n] == td[4..] && bytes[4..8 + n] == td
      && bytes[8 + n..12 + n] == crc && bytes[12 + n..] == rest
  {
  }

  /** The reader's verdict on a well-laid-out chunk rests on the CRC field alone. */
  lemma ParseFields(td: seq<Byte>, code: nat, rest: seq<Byte>)
    requires 4 <= |td| && |td| - 4 < TWO_32 && code < TWO_32
    ensures ParseChunk(BE32(|td| - 4) + td + BE32(code) + rest) ==
      if CrcOf(td) == code then Ok(Parsed(Chunk(td[..4], td[4..]), rest)) else Err(CrcMismatch)
  {
    var n := |td| - 4;
    Fields(n, BE32(n), td, BE32(code), rest);
    FourBytes();
    ReadBack(n, 4);
    ReadBack(code, 4);
  }

  lemma ParseFrame(c: Chunk, rest: seq<Byte>)
    requires Framable(c)
    ensures ParseChunk(Frame(c) + rest) == Ok(Parsed(c, rest))
  {
    var td := c.kind + c.data;
    CrcFits(td);
    ParseFields(td, CrcOf(td), rest);
    assert td[..4] == c.kind && td[4..] == c.data;
  }

  lemma ParseAllStep(bytes: seq<Byte>, p: Parsed, cs: seq<Chunk>)
    requires bytes != [] && |p.rest| < |bytes|
    ensures ParseChunk(bytes) == Ok(p) && ParseAll(p.rest) == Ok(cs) ==> ParseAll(bytes) == Ok([p.chunk] + cs)
  {
  }

  lemma ParseFrameThenRest(c: Chunk, rest: seq<Byte>, cs: seq<Chunk>)
    requires Framable(c) && ParseAll(rest) == Ok(cs)
    ensures ParseAll(Frame(c) + rest) == Ok([c] + cs)
  {
    ParseFrame(c, rest);
    ParseAllStep(Frame(c) + rest, Parsed(c, rest), cs);
  }

  lemma Slices(bytes: seq<Byte>, n: nat)
    requires 12 + n <= |bytes|
    ensures bytes[4..8] + bytes[8..8 + n] == bytes[4..8 + n]
    ensures bytes == bytes[..4] + bytes[4..8 + n] + bytes[8 + n..12 + n] + bytes[12 + n..]
  {
  }

  lemma FrameParsed(bytes: seq<Byte>)
    requires ParseChunk(bytes).Ok?
    ensures var p := ParseChunk(bytes).value;
      Framable(p.chunk) && bytes == Frame(p.chunk) + p.rest && |p.rest| < |bytes|
  {
    var n := ReadBE32(bytes[..4]);
    FourBytes();
    WriteBack(bytes[..4]);
    WriteBack(bytes[8 + n..12 + n]);
    Slices(bytes, n);
    CrcFits(bytes[4..8 + n]);
  }

  /** The reader accepts exactly the emitted streams, and gives back the very chunks they were made from. */
  lemma {:induction false} ParseIff(bytes: seq<Byte>, chunks: seq<Chunk>)
    ensures ParseAll(bytes) == Ok(chunks) <==> (forall c :: c in chunks ==> Framable(c)) && FrameAll(chunks) == bytes
    decreases |bytes| + |chunks|
  {
    if ParseAll(bytes) == Ok(chunks) {
      ParsedIsFramed(bytes, chunks);
    }
    if (forall c :: c in chunks ==> Framable(c)) && FrameAll(chunks) == bytes {
      FramedIsParsed(chunks);
    }
  }

  lemma {:induction false} FramedIsParsed(chunks: seq<Chunk>)
    requires forall c :: c in chunks ==> Framable(c)
    ensures ParseAll(FrameAll(chunks)) == Ok(chunks)
    decreases |chunks|
  {
    if chunks != [] {
      FramedIsParsed(chunks[1..]);
      ParseFrameThenRest(chunks[0], FrameAll(chunks[1..]), chunks[1..]);
      assert [chunks[0]] + chunks[1..] == chunks;
    }
  }

  lemma {:induction false} ParsedIsFramed(bytes: seq<Byte>, chunks: seq<Chunk>)
    requires ParseAll(bytes) == Ok(chunks)
    ensures (forall c :: c in chunks ==> Framable(c)) && FrameAll(chunks) == bytes
    decreases |bytes|
  {
    if bytes != [] {
      FrameParsed(bytes);
      var p := ParseChunk(bytes).value;
      var cs := ParseAll(p.rest).value;
      ParsedIsFramed(p.rest, cs);
      assert chunks == [p.chunk] + cs;
      assert chunks[1..] == cs;
    }
  }

  /** Damage to at most four consecutive bytes of a chunk's type or data is caught by the reader. */
  lemma DamageCaught(c: Chunk, before: seq<Byte>, v: seq<Byte>, w: seq<Byte>, behind: seq<Byte>, rest: seq<Byte>)
    requires Framable(c) && |v| == |w| <= 4 && v != w
    requires c.kind + c.data == before + v + behind
    ensures var damaged := BE32(|c.data|) + (before + w + behind) + BE32(CrcOf(c.kind + c.data)) + rest;
      CrcOf(c.kind + c.data) < TWO_32 && ParseChunk(damaged) == Err(CrcMismatch)
  {
    var code := CrcOf(c.kind + c.data);
    CrcFits(c.kind + c.data);
    var td := before + w + behind;
    ParseFields(td, code, rest);
    BurstDetected(before, v, w, behind);
    SameCode(BitwiseCrc(td), BitwiseCrc(c.kind + c.data));
  }

  lemma SameCode(a: Word, b: Word)
    ensures a as int == b as int ==> a == b
  {
    IntBack(a);
    IntBack(b);
  }
}
