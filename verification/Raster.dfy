/** The generator's picture: a xorshift noise source and the loop that fills the scan lines. */
module Raster {
  import opened Collections
  import opened Crc32
  import opened ShiftRegisters

  // ----- The noise source -----

  function Shift17(s: Word): Word { s >> 17 }

  function Left13(s: Word): Word { s ^ (s << 13) }
  function Right17(s: Word): Word { Xor(s, Shift17(s)) }
  function Left5(s: Word): Word { s ^ (s << 5) }

  function Scramble(s: Word): Word {
    Left5(Right17(Left13(s)))
  }

  lemma Left13Injective(a: Word, b: Word)
    requires Left13(a) == Left13(b)
    ensures a == b
  {
  }

  lemma RawShift17Xor(a: Word, b: Word)
    ensures (a ^ b) >> 17 == (a >> 17) ^ (b >> 17)
  {
  }

  lemma Shift17Twice(a: Word)
    ensures Shift17(Shift17(a)) == 0
  {
  }

  lemma Shift17Xor(a: Word, b: Word)
    ensures Shift17(Xor(a, b)) == Xor(Shift17(a), Shift17(b))
  {
    RawShift17Xor(a, b);
  }

  lemma RawUndo(a: Word, b: Word)
    ensures (a ^ b) ^ b == a
  {
  }

  lemma XorUndo(a: Word, b: Word)
    ensures Xor(Xor(a, b), b) == a
  {
    RawUndo(a, b);
  }

  lemma UndoneBy<T>(shift: T -> T, op: (T, T) -> T, zero: T, a: T)
    requires shift(op(a, shift(a))) == op(shift(a), shift(shift(a)))
    requires shift(shift(a)) == zero && op(shift(a), zero) == shift(a)
    requires op(op(a, shift(a)), shift(a)) == a
    ensures op(op(a, shift(a)), shift(op(a, shift(a)))) == a
  {
  }

  /** The right shift is more than half a word, so this stage undoes itself. */
  lemma Right17Twice(a: Word)
    ensures Right17(Right17(a)) == a
  {
    Shift17Xor(a, Shift17(a));
    Shift17Twice(a);
    XorZero(Shift17(a));
    XorUndo(a, Shift17(a));
    UndoneBy(Shift17, Xor, 0, a);
  }

  lemma Right17Injective(a: Word, b: Word)
    requires Right17(a) == Right17(b)
    ensures a == b
  {
    Right17Twice(a);
    Right17Twice(b);
  }

  lemma Left5Injective(a: Word, b: Word)
    requires Left5(a) == Left5(b)
    ensures a == b
  {
  }

  lemma ScrambleInjective(a: Word, b: Word)
    ensures Scramble(a) == Scramble(b) <==> a == b
  {
    if Scramble(a) == Scramble(b) {
      Left5Injective(Right17(Left13(a)), Right17(Left13(b)));
      Right17Injective(Left13(a), Left13(b));
      Left13Injective(a, b);
    }
  }

  lemma ScrambleZero()
    ensures Scramble(0) == 0
  {
  }

  /** From a seed that is not zero the noise source never gets stuck at zero. */
  lemma {:induction false} NeverZero(seed: Word, k: nat)
    ensures Times(Scramble, seed, k) == 0 <==> seed == 0
    decreases k
  {
    if k > 0 {
      NeverZero(Scramble(seed), k - 1);
      ScrambleInjective(seed, 0);
      ScrambleZero();
    }
  }

  /** Six bits of noise. */
  function Low6(s: Word): Word { s & 0x3F }

  lemma Low6Fits(s: Word)
    ensures Low6(s) < 64
  {
  }

  function NoiseOf(s: Word): nat {
    Low6Fits(s);
    Low6(s) as nat
  }

  lemma Low6IsRest(s: Word)
    ensures s == ((s >> 6) << 6) ^ Low6(s)
  {
  }

  lemma SmallWord(x: Word)
    requires x < 64
    ensures x as int < 64
  {
  }

  lemma NoiseFits(s: Word)
    ensures NoiseOf(s) < 64
  {
    Low6Fits(s);
    SmallWord(Low6(s));
  }

  lemma NoiseIsLow6(s: Word, n: nat)
    requires n == NoiseOf(s) && n < 64
    ensures n as Word == Low6(s)
  {
    IntBack(Low6(s));
  }

  /** The noise is less than 64, and is the state's last six bits: what is left ends in six zeros. */
  lemma NoiseMeaning(s: Word, n: nat)
    requires n == NoiseOf(s)
    ensures n < 64 && s == ((s >> 6) << 6) ^ (n as Word)
  {
    NoiseFits(s);
    NoiseIsLow6(s, n);
    Low6IsRest(s);
  }

  /** Known steps of the generator: from one, and from the program's seed. */
  lemma KnownSteps(one: Word, seed: Word)
    requires one == 1 && seed == SEED
    ensures Scramble(one) == 270369 && seed == 0x9E37_79B9 && Scramble(seed) == 0x510C_4619
  {
  }

  // ----- What the picture holds -----

  datatype Size = Size(width: nat, height: nat)

  predicate NonEmpty(z: Size) { z.width > 0 && z.height > 0 }

  /** A scan line: a filter byte, then three bytes for each pixel. */
  function LineLength(z: Size): nat { 3 * z.width + 1 }

  /** The gradient of channel c at (x, y), before the noise. */
  function Gradient(z: Size, x: nat, y: nat, c: nat): real
    requires NonEmpty(z)
  {
    var across, down := x as real / z.width as real, y as real / z.height as real;
    if c == 0 then across * 160.0 + 40.0 else if c == 1 then down * 120.0 + 30.0 else 200.0 - across * 80.0
  }

  /** The value t steps on the way from a to b, which takes n steps. */
  function Blend(a: real, b: real, t: nat, n: nat): real
    requires n > 0
  {
    (a * (n as real - t as real) + b * (t as real)) / (n as real)
  }

  lemma BlendLinear(a: real, b: real, t: nat, n: nat)
    requires n > 0
    ensures Blend(a, b, t, n) == t as real / n as real * (b - a) + a
  {
    var u, m := t as real, n as real;
    assert (a * (m - u) + b * u) == u * (b - a) + a * m;
    assert u * (b - a) / m == u / m * (b - a);
    assert a * m / m == a;
  }

  /** From left to right red runs from 40 to 200 and blue from 200 to 120, from top to bottom green from 30 to 150. */
  lemma GradientRuns(z: Size, x: nat, y: nat)
    requires NonEmpty(z)
    ensures Gradient(z, x, y, 0) == Blend(40.0, 200.0, x, z.width)
    ensures Gradient(z, x, y, 1) == Blend(30.0, 150.0, y, z.height)
    ensures Gradient(z, x, y, 2) == Blend(200.0, 120.0, x, z.width)
  {
    BlendLinear(40.0, 200.0, x, z.width);
    BlendLinear(30.0, 150.0, y, z.height);
    BlendLinear(200.0, 120.0, x, z.width);
  }

  /** The low byte of the whole part; the sums here are never negative. */
  function Channel(z: Size, x: nat, y: nat, c: nat, noise: nat): Byte
    requires NonEmpty(z)
  {
    (Gradient(z, x, y, c) + noise as real).Floor % 256
  }

  /** The colour of channel c at (x, y), given a noise value. */
  type Shader = (nat, nat, nat, nat) -> Byte

  function Shading(z: Size): Shader
    requires NonEmpty(z)
  {
    (x, y, c, noise) => Channel(z, x, y, c, noise)
  }

  /** Byte i of the picture, where `noise` numbers the noise values from one. */
  function ByteAt(z: Size, noise: nat -> nat, i: nat): Byte
    requires NonEmpty(z)
  {
    var y, column := i / LineLength(z), i % LineLength(z);
    if column == 0 then 0
    else Channel(z, (column - 1) / 3, y, (column - 1) % 3, noise(y * (3 * z.width) + column))
  }

  function Bytes(z: Size, noise: nat -> nat): nat -> Byte
    requires NonEmpty(z)
  {
    i => ByteAt(z, noise, i)
  }

  /** The first n bytes of what `at` describes byte by byte. */
  function Picture(at: nat -> Byte, n: nat): (s: seq<Byte>)
    ensures |s| == n
  {
    if n == 0 then [] else Picture(at, n - 1) + [at(n - 1)]
  }

  lemma {:induction false} PictureAt(at: nat -> Byte, n: nat, i: nat)
    requires i < n
    ensures Picture(at, n)[i] == at(i)
  {
    if i < n - 1 {
      PictureAt(at, n - 1, i);
    }
  }

  lemma {:induction false} Inside(y: nat, h: nat, d: nat, r: nat)
    requires y < h && r < d
    ensures y * d + r < h * d
    decreases h
  {
    OneMore(d, h - 1);
    if y < h - 1 {
      Inside(y, h - 1, d, r);
    }
  }

  lemma DivisionOf(n: nat, d: nat)
    requires d > 0
    ensures n == n / d * d + n % d && n % d < d
  {
  }

  lemma Unique(q: nat, m: nat, y: nat, r: nat, d: nat)
    requires m < d && r < d && q * d + m == y * d + r
    ensures q == y && m == r
  {
    if q < y {
      Inside(q, y, d, m);
    } else if y < q {
      Inside(y, q, d, r);
    }
  }

  lemma Quotient(y: nat, d: nat, r: nat)
    requires r < d
    ensures (y * d + r) / d == y && (y * d + r) % d == r
  {
    var n := y * d + r;
    DivisionOf(n, d);
    Unique(n / d, n % d, y, r, d);
  }

  /** Line y starts at byte `line`, when `base` noise values have been used. */
  predicate StartsAt(z: Size, y: nat, line: nat, base: nat) {
    line == y * LineLength(z) && base == y * (3 * z.width)
  }

  /** Byte p is channel c of pixel (x, y), shaded with the noise value after the first k. */
  ghost predicate ChannelAt(shade: Shader, at: nat -> Byte, noise: nat -> nat, x: nat, y: nat, c: nat, p: nat, k: nat) {
    at(p) == shade(x, y, c, noise(k + 1))
  }

  /** The three bytes from p on are pixel (x, y). */
  ghost predicate PixelAt(shade: Shader, at: nat -> Byte, noise: nat -> nat, x: nat, y: nat, p: nat, k: nat) {
    && ChannelAt(shade, at, noise, x, y, 0, p, k)
    && ChannelAt(shade, at, noise, x, y, 1, p + 1, k + 1)
    && ChannelAt(shade, at, noise, x, y, 2, p + 2, k + 2)
  }

  ghost predicate PixelOf(shade: Shader, at: nat -> Byte, noise: nat -> nat, y: nat, first: nat, base: nat, x: nat) {
    PixelAt(shade, at, noise, x, y, first + 3 * x, base + 3 * x)
  }

  ghost predicate PixelsAt(width: nat, shade: Shader, at: nat -> Byte, noise: nat -> nat, y: nat, first: nat, base: nat) {
    forall x: nat :: x < width ==> PixelOf(shade, at, noise, y, first, base, x)
  }

  /** The bytes from `line` on are scan line y, whose noise values come after the first `base`. */
  ghost predicate LineAt(width: nat, shade: Shader, at: nat -> Byte, noise: nat -> nat, y: nat, line: nat, base: nat) {
    at(line) == 0 && PixelsAt(width, shade, at, noise, y, line + 1, base)
  }

  lemma Position(z: Size, noise: nat -> nat, y: nat, line: nat, base: nat, x: nat, c: nat)
    requires NonEmpty(z) && y < z.height && x < z.width && c < 3 && StartsAt(z, y, line, base)
    ensures line + (1 + 3 * x + c) < z.height * LineLength(z)
    ensures ChannelAt(Shading(z), Bytes(z, noise), noise, x, y, c, line + (1 + 3 * x + c), base + 3 * x + c)
  {
    Quotient(y, LineLength(z), 1 + 3 * x + c);
    Inside(y, z.height, LineLength(z), 1 + 3 * x + c);
    assert (3 * x + c) / 3 == x && (3 * x + c) % 3 == c;
  }

  lemma PixelPosition(z: Size, noise: nat -> nat, y: nat, line: nat, base: nat, x: nat)
    requires NonEmpty(z) && y < z.height && x < z.width && StartsAt(z, y, line, base)
    ensures PixelOf(Shading(z), Bytes(z, noise), noise, y, line + 1, base, x)
  {
    Position(z, noise, y, line, base, x, 0);
    Position(z, noise, y, line, base, x, 1);
    Position(z, noise, y, line, base, x, 2);
  }

  /** Where the loop stands when it comes to line y. */
  lemma LinePosition(z: Size, noise: nat -> nat, y: nat, line: nat, base: nat)
    requires NonEmpty(z) && y < z.height && StartsAt(z, y, line, base)
    ensures line + LineLength(z) <= z.height * LineLength(z)
    ensures LineAt(z.width, Shading(z), Bytes(z, noise), noise, y, line, base)
    ensures StartsAt(z, y + 1, line + LineLength(z), base + 3 * z.width)
  {
    var first := line + 1;
    Quotient(y, LineLength(z), 0);
    Inside(y, z.height, LineLength(z), 3 * z.width);
    OneMore(LineLength(z), y);
    OneMore(3 * z.width, y);
    forall x: nat | x < z.width ensures PixelOf(Shading(z), Bytes(z, noise), noise, y, first, base, x) {
      PixelPosition(z, noise, y, line, base, x);
    }
  }

  lemma ChannelInPicture(z: Size, noise: nat -> nat, x: nat, y: nat, c: nat, line: nat, base: nat, n: nat)
    requires x < z.width && y < z.height && c < 3 && StartsAt(z, y, line, base) && n == z.height * LineLength(z)
    ensures NonEmpty(z) && line + (1 + 3 * x + c) < n
    ensures Picture(Bytes(z, noise), n)[line + (1 + 3 * x + c)] == Channel(z, x, y, c, noise(base + 3 * x + c + 1))
  {
    Position(z, noise, y, line, base, x, c);
    PictureAt(Bytes(z, noise), n, line + (1 + 3 * x + c));
  }

  lemma FilterInPicture(z: Size, noise: nat -> nat, y: nat, line: nat, base: nat, n: nat)
    requires NonEmpty(z) && y < z.height && StartsAt(z, y, line, base) && n == z.height * LineLength(z)
    ensures line < n && Picture(Bytes(z, noise), n)[line] == 0
  {
    LinePosition(z, noise, y, line, base);
    PictureAt(Bytes(z, noise), n, line);
  }

  /** The colour of channel c at (x, y) before the noise. */
  function Colour(z: Size, x: nat, y: nat, c: nat): real
    requires NonEmpty(z)
  {
    match c
    case 0 => Blend(40.0, 200.0, x, z.width)
    case 1 => Blend(30.0, 150.0, y, z.height)
    case _ => Blend(200.0, 120.0, x, z.width)
  }

  lemma ChannelColour(z: Size, x: nat, y: nat, c: nat, noise: nat)
    requires NonEmpty(z) && c < 3
    ensures Channel(z, x, y, c, noise) == (Colour(z, x, y, c).Floor + noise) % 256
  {
    GradientRuns(z, x, y);
    FloorShift(Gradient(z, x, y, c), noise);
  }

  lemma FloorShift(g: real, n: nat)
    ensures (g + n as real).Floor == g.Floor + n
  {
  }

  lemma PictureAtPixel(z: Size, noise: nat -> nat, x: nat, y: nat, c: nat)
    requires x < z.width && y < z.height && c < 3
    ensures NonEmpty(z)
    ensures var n, line := z.height * LineLength(z), y * LineLength(z);
      && line + (1 + 3 * x + c) < n
      && Picture(Bytes(z, noise), n)[line] == 0
      && Picture(Bytes(z, noise), n)[line + (1 + 3 * x + c)] == Channel(z, x, y, c, noise(y * (3 * z.width) + 3 * x + c + 1))
  {
    var n, line, base := z.height * LineLength(z), y * LineLength(z), y * (3 * z.width);
    ChannelInPicture(z, noise, x, y, c, line, base, n);
    FilterInPicture(z, noise, y, line, base, n);
  }

  /**
   * In the whole picture each line starts with its filter byte, and channel c of pixel (x, y) is its
   * colour with its own noise value added, cut to a byte.
   */
  lemma PictureMeaning(z: Size, noise: nat -> nat, x: nat, y: nat, c: nat, position: nat, number: nat)
    requires x < z.width && y < z.height && c < 3
    requires position == y * (3 * z.width + 1) + (1 + 3 * x + c) && number == y * (3 * z.width) + 3 * x + c + 1
    ensures NonEmpty(z)
    ensures var n, line := z.height * (3 * z.width + 1), y * (3 * z.width + 1);
      && line < position < n
      && Picture(Bytes(z, noise), n)[line] == 0
      && Picture(Bytes(z, noise), n)[position] == (Colour(z, x, y, c).Floor + noise(number)) % 256
  {
    PictureAtPixel(z, noise, x, y, c);
    ChannelColour(z, x, y, c, noise(number));
  }

  // ----- The loop -----

  /** The k-th noise value of a generator. */
  function Values<T>(seed: T, step: T -> T, low: T -> nat): nat -> nat {
    k => low(Times(step, seed, k))
  }

  lemma NextState<T>(seed: T, step: T -> T, k: nat)
    ensures Times(step, seed, k + 1) == step(Times(step, seed, k))
  {
    TimesAdd(step, seed, k, 1);
  }

  method Put(raw: array<Byte>, p: nat, v: Byte) returns (next: nat)
    requires p < raw.Length
    modifies raw
    ensures next == p + 1 && raw[..next] == old(raw[..p]) + [v]
  {
    raw[p] := v;
    next := p + 1;
  }

  /** Takes the next noise value, the one after k, and writes the channel it belongs to. */
  method PutChannel<T>(shade: Shader, raw: array<Byte>, x: nat, y: nat, c: nat, p: nat, state: T, step: T -> T, low: T -> nat,
      ghost at: nat -> Byte, ghost seed: T, ghost k: nat)
    returns (next: nat, s: T)
    requires p < raw.Length && ChannelAt(shade, at, Values(seed, step, low), x, y, c, p, k)
    requires state == Times(step, seed, k) && raw[..p] == Picture(at, p)
    modifies raw
    ensures next == p + 1 && raw[..next] == Picture(at, next)
    ensures s == Times(step, seed, k + 1)
  {
    NextState(seed, step, k);
    s := step(state);
    next := Put(raw, p, shade(x, y, c, low(s)));
  }

  /** One pixel: red, green, blue. */
  method PutPixel<T>(shade: Shader, raw: array<Byte>, x: nat, y: nat, p: nat, state: T, step: T -> T, low: T -> nat,
      ghost at: nat -> Byte, ghost seed: T, ghost k: nat)
    returns (next: nat, s: T)
    requires p + 3 <= raw.Length && PixelAt(shade, at, Values(seed, step, low), x, y, p, k)
    requires state == Times(step, seed, k) && raw[..p] == Picture(at, p)
    modifies raw
    ensures next == p + 3 && raw[..next] == Picture(at, next)
    ensures s == Times(step, seed, k + 3)
  {
    next, s := PutChannel(shade, raw, x, y, 0, p, state, step, low, at, seed, k);
    next, s := PutChannel(shade, raw, x, y, 1, next, s, step, low, at, seed, k + 1);
    next, s := PutChannel(shade, raw, x, y, 2, next, s, step, low, at, seed, k + 2);
  }

  /** The pixels of one scan line. */
  method PutPixels<T>(width: nat, shade: Shader, raw: array<Byte>, y: nat, first: nat, state: T, step: T -> T, low: T -> nat,
      ghost at: nat -> Byte, ghost seed: T, ghost base: nat)
    returns (p: nat, s: T)
    requires first + 3 * width <= raw.Length && PixelsAt(width, shade, at, Values(seed, step, low), y, first, base)
    requires state == Times(step, seed, base) && raw[..first] == Picture(at, first)
    modifies raw
    ensures p == first + 3 * width && raw[..p] == Picture(at, p)
    ensures s == Times(step, seed, base + 3 * width)
  {
    p, s := first, state;
    ghost var noise, k := Values(seed, step, low), base;
    for x := 0 to width
      invariant p == first + 3 * x && k == base + 3 * x
      invariant s == Times(step, seed, k)
      invariant raw[..p] == Picture(at, p)
    {
      assert PixelOf(shade, at, noise, y, first, base, x);
      p, s := PutPixel(shade, raw, x, y, p, s, step, low, at, seed, k);
      k := k + 3;
    }
  }

  /** One scan line: its filter byte, then its pixels. */
  method PutLine<T>(width: nat, shade: Shader, raw: array<Byte>, y: nat, line: nat, state: T, step: T -> T, low: T -> nat,
      ghost at: nat -> Byte, ghost seed: T, ghost base: nat)
    returns (p: nat, s: T)
    requires line + (3 * width + 1) <= raw.Length && LineAt(width, shade, at, Values(seed, step, low), y, line, base)
    requires state == Times(step, seed, base) && raw[..line] == Picture(at, line)
    modifies raw
    ensures p == line + (3 * width + 1) && raw[..p] == Picture(at, p)
    ensures s == Times(step, seed, base + 3 * width)
  {
    p := Put(raw, line, 0);
    p, s := PutPixels(width, shade, raw, y, p, state, step, low, at, seed, base);
  }

  /** Every byte of the buffer is written once, in order, and nothing is written past its end. */
  method Fill<T>(z: Size, seed: T, step: T -> T, low: T -> nat) returns (raw: array<Byte>)
    requires NonEmpty(z)
    ensures raw[..] == Picture(Bytes(z, Values(seed, step, low)), z.height * LineLength(z))
  {
    raw := new Byte[z.height * LineLength(z)];
    var p: nat, s := 0, seed;
    ghost var base: nat := 0;
    ghost var noise := Values(seed, step, low);
    for y := 0 to z.height
      invariant StartsAt(z, y, p, base) && p <= raw.Length
      invariant s == Times(step, seed, base)
      invariant raw[..p] == Picture(Bytes(z, noise), p)
    {
      LinePosition(z, noise, y, p, base);
      p, s := PutLine(z.width, Shading(z), raw, y, p, s, step, low, Bytes(z, noise), seed, base);
      base := base + 3 * z.width;
    }
    assert raw[..p] == raw[..];
  }

  const SEED: Word := 0x9E37_79B9

  /** The generator's picture: 900 lines of 1400 pixels. */
  method HeroPicture() returns (raw: array<Byte>)
    ensures var z := Size(1400, 900);
      raw[..] == Picture(Bytes(z, Values(SEED, Scramble, NoiseOf)), 900 * LineLength(z))
  {
    raw := Fill(Size(1400, 900), SEED, Scramble, NoiseOf);
  }
}
