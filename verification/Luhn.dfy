/** The check-digit test that the sensitive-data scanner applies to card numbers. */
module Luhn {
  import opened Numerals
  import opened Text

  // ----- The specification: weights counted from the right -----

  predicate AreDigits(ds: seq<int>) {
    forall i :: 0 <= i < |ds| ==> 0 <= ds[i] <= 9
  }

  /** The digit sum of twice d. */
  function Doubled(d: int): int {
    if 2 * d > 9 then 2 * d - 9 else 2 * d
  }

  /** Indeed the two digits of twice d, added. */
  lemma DoubledDigits(d: int)
    requires 0 <= d <= 9
    ensures Doubled(d) == 2 * d / 10 + 2 * d % 10
  {
  }

  predicate OddPlace(j: int) { j % 2 == 1 }

  /** What digit d contributes j places from the right end. */
  function Weighted(j: int, d: int): int {
    if OddPlace(j) then Doubled(d) else d
  }

  function LuhnSum(ds: seq<int>): int {
    if ds == [] then 0 else Weighted(|ds| - 1, ds[0]) + LuhnSum(ds[1..])
  }

  predicate Checks(ds: seq<int>) {
    LuhnSum(ds) % 10 == 0
  }

  // ----- The text level -----

  predicate IsSeparator(c: char) {
    IsSpace(c) || c == '-'
  }

  function StripSeparators(s: string): string {
    if s == "" then ""
    else (if IsSeparator(s[0]) then "" else [s[0]]) + StripSeparators(s[1..])
  }

  function DigitValues(s: string): seq<int> {
    seq(|s|, i requires 0 <= i < |s| => DigitValue(s[i]))
  }

  predicate AllDigits(s: string) {
    forall i :: 0 <= i < |s| ==> IsDigit(s[i])
  }

  /** A card number: 13 to 19 digits, separators aside, whose Luhn sum is a multiple of ten. */
  predicate Accepts(text: string) {
    var s := StripSeparators(text);
    13 <= |s| <= 19 && AllDigits(s) && Checks(DigitValues(s))
  }

  lemma NextPlace(j: int)
    ensures OddPlace(j + 1) <==> !OddPlace(j)
  {
  }

  lemma SumFrom(ds: seq<int>, i: nat)
    requires i < |ds|
    ensures LuhnSum(ds[i..]) == LuhnSum(ds[i + 1..]) + Weighted(|ds| - 1 - i, ds[i])
  {
    assert ds[i..][1..] == ds[i + 1..];
  }

  /** The right-to-left loop, doubling every other digit. */
  method DoublingSum(s: string) returns (sum: int)
    ensures sum == LuhnSum(DigitValues(s))
  {
    sum := 0;
    var alt := false;
    var i := |s| - 1;
    ghost var values := DigitValues(s);
    while i >= 0
      invariant -1 <= i < |s|
      invariant sum == LuhnSum(values[i + 1..])
      invariant alt <==> OddPlace(|s| - 1 - i)
    {
      var n := DigitValue(s[i]);
      SumFrom(values, i);
      NextPlace(|s| - 1 - i);
      if alt {
        n := n * 2;
        if n > 9 {
          n := n - 9;
        }
      }
      sum := sum + n;
      alt := !alt;
      i := i - 1;
    }
    assert values[0..] == values;
  }

  /** It accepts exactly the card numbers. */
  method LuhnValid(digits: string) returns (ok: bool)
    ensures ok <==> Accepts(digits)
    ensures ok <==> var s := StripSeparators(digits);
      13 <= |s| <= 19 && (forall i :: 0 <= i < |s| ==> '0' <= s[i] <= '9') && LuhnSum(DigitValues(s)) % 10 == 0
  {
    var s := StripSeparators(digits);
    if !(13 <= |s| <= 19 && AllDigits(s)) {
      return false;
    }
    var sum := DoublingSum(s);
    ok := sum % 10 == 0;
  }

  // ----- What the test detects -----

  /** Replacing one digit moves the sum by the difference of the two contributions. */
  lemma {:induction false} SumUpdate(ds: seq<int>, i: nat, x: int)
    requires i < |ds|
    ensures LuhnSum(ds[i := x]) == LuhnSum(ds) - Weighted(|ds| - 1 - i, ds[i]) + Weighted(|ds| - 1 - i, x)
  {
    var t := ds[i := x];
    if i == 0 {
      assert t[1..] == ds[1..];
    } else {
      SumUpdate(ds[1..], i - 1, x);
      assert t[1..] == ds[1..][i - 1 := x];
    }
  }

  lemma WeightedInjective(j: int, a: int, b: int)
    requires 0 <= a <= 9 && 0 <= b <= 9
    ensures Weighted(j, a) % 10 == Weighted(j, b) % 10 <==> a == b
    ensures 0 <= Weighted(j, a) <= 9
  {
  }

  lemma SameResidue(x: int, y: int, z: int)
    ensures (x - y + z) % 10 == x % 10 <==> y % 10 == z % 10
  {
  }

  /** Changing any single digit changes the residue, whatever the length. */
  lemma SingleDigitDetected(ds: seq<int>, i: nat, x: int)
    requires AreDigits(ds) && i < |ds| && 0 <= x <= 9
    ensures LuhnSum(ds[i := x]) % 10 == LuhnSum(ds) % 10 <==> x == ds[i]
  {
    var j := |ds| - 1 - i;
    SumUpdate(ds, i, x);
    SameResidue(LuhnSum(ds), Weighted(j, ds[i]), Weighted(j, x));
    WeightedInjective(j, ds[i], x);
  }

  /** How much doubling adds to a digit. */
  function Gain(d: int): int {
    Doubled(d) - d
  }

  lemma GainClash(a: int, b: int)
    requires 0 <= a <= 9 && 0 <= b <= 9
    ensures Gain(a) % 10 == Gain(b) % 10 <==> a == b || (a == 0 && b == 9) || (a == 9 && b == 0)
  {
  }

  lemma SwapResidue(x: int, g: int, h: int)
    ensures (x + g - h) % 10 == x % 10 <==> g % 10 == h % 10
  {
  }

  lemma SwapSum(ds: seq<int>, i: nat)
    requires i + 1 < |ds|
    ensures var j, a, b := |ds| - 1 - i, ds[i], ds[i + 1];
      LuhnSum(ds[i := b][i + 1 := a]) == LuhnSum(ds) + if j % 2 == 1 then Gain(b) - Gain(a) else Gain(a) - Gain(b)
  {
    var j, a, b := |ds| - 1 - i, ds[i], ds[i + 1];
    SumUpdate(ds, i, b);
    SumUpdate(ds[i := b], i + 1, a);
    assert (j - 1) % 2 == 1 - j % 2;
  }

  /** Swapping two neighbours goes unnoticed exactly when they are equal or are 0 and 9. */
  lemma TranspositionDetected(ds: seq<int>, i: nat)
    requires AreDigits(ds) && i + 1 < |ds|
    ensures var a, b := ds[i], ds[i + 1];
      LuhnSum(ds[i := b][i + 1 := a]) % 10 == LuhnSum(ds) % 10 <==>
        a == b || (a == 0 && b == 9) || (a == 9 && b == 0)
  {
    var a, b := ds[i], ds[i + 1];
    SwapSum(ds, i);
    SwapResidue(LuhnSum(ds), Gain(b), Gain(a));
    SwapResidue(LuhnSum(ds), Gain(a), Gain(b));
    GainClash(a, b);
  }

  function CheckDigit(prefix: seq<int>): int {
    (10 - LuhnSum(prefix + [0]) % 10) % 10
  }

  /** Every prefix is completed by exactly one check digit. */
  lemma UniqueCheckDigit(prefix: seq<int>, d: int)
    requires 0 <= d <= 9
    ensures 0 <= CheckDigit(prefix) <= 9
    ensures Checks(prefix + [d]) <==> d == CheckDigit(prefix)
  {
    var zero := prefix + [0];
    SumUpdate(zero, |prefix|, d);
    assert zero[|prefix| := d] == prefix + [d];
    CompleteToTen(LuhnSum(zero), d);
  }

  lemma CompleteToTen(s: int, d: int)
    requires 0 <= d <= 9
    ensures (s + d) % 10 == 0 <==> d == (10 - s % 10) % 10
  {
  }

  // ----- A known number -----

  lemma {:induction false} OnesSum(ds: seq<int>, i: nat)
    requires i <= |ds| && forall j :: i <= j < |ds| ==> ds[j] == 1
    ensures LuhnSum(ds[i..]) == (|ds| - i) + (|ds| - i) / 2
    decreases |ds| - i
  {
    if i < |ds| {
      OnesSum(ds, i + 1);
      SumFrom(ds, i);
    }
  }

  lemma {:induction false} NoSeparators(s: string)
    requires AllDigits(s)
    ensures StripSeparators(s) == s
  {
    if s != "" {
      DigitIsNoSeparator(s[0]);
      NoSeparators(s[1..]);
      assert s == [s[0]] + s[1..];
    }
  }

  lemma FourThenOnes(ds: seq<int>)
    requires |ds| == 16 && ds[0] == 4 && forall j :: 1 <= j < 16 ==> ds[j] == 1
    ensures LuhnSum(ds) == 30
  {
    OnesSum(ds, 1);
    SumFrom(ds, 0);
    assert ds[0..] == ds;
  }

  /** The usual test card: a four and fifteen ones. */
  predicate IsTestCard(card: string) {
    |card| == 16 && card[0] == '4' && forall i :: 1 <= i < 16 ==> card[i] == '1'
  }

  /** It is accepted, and with its last digit changed it is not. */
  lemma TestCard(card: string)
    requires IsTestCard(card)
    ensures Accepts(card) && !Accepts(card[15 := '2'])
  {
    NoSeparators(card);
    FourThenOnes(DigitValues(card));
    TypoRejected(card, 15, '2');
  }

  // ----- The same for the text a user typed -----

  lemma {:induction false} StripConcat(a: string, b: string)
    ensures StripSeparators(a + b) == StripSeparators(a) + StripSeparators(b)
  {
    if a == "" {
      assert a + b == b;
    } else {
      assert (a + b)[1..] == a[1..] + b;
      StripConcat(a[1..], b);
    }
  }

  /** What is dropped is white space and dashes, and nothing else. */
  lemma {:induction false} StripKeeps(s: string)
    ensures forall c :: multiset(StripSeparators(s))[c] == if IsSpace(c) || c == '-' then 0 else multiset(s)[c]
  {
    if s != "" {
      StripKeeps(s[1..]);
      assert s == [s[0]] + s[1..];
    }
  }

  lemma DigitIsNoSeparator(c: char)
    requires IsDigit(c)
    ensures !IsSeparator(c)
  {
  }

  /** The digit at place i of the text is the digit at place k of the number. */
  lemma StripUpdate(text: string, i: nat, c: char) returns (k: nat)
    requires i < |text| && IsDigit(text[i]) && IsDigit(c)
    ensures k < |StripSeparators(text)| && StripSeparators(text)[k] == text[i]
    ensures StripSeparators(text[i := c]) == StripSeparators(text)[k := c]
  {
    var a, b := text[..i], text[i + 1..];
    DigitIsNoSeparator(c);
    DigitIsNoSeparator(text[i]);
    assert text == a + ([text[i]] + b) && text[i := c] == a + ([c] + b);
    StripConcat(a, [text[i]] + b);
    StripConcat(a, [c] + b);
    StripConcat([text[i]], b);
    StripConcat([c], b);
    assert StripSeparators([c]) == [c] && StripSeparators([text[i]]) == [text[i]];
    k := |StripSeparators(a)|;
  }

  /** In an accepted text no digit can be replaced by another without being rejected. */
  lemma TypoRejected(text: string, i: nat, c: char)
    requires Accepts(text) && i < |text| && IsDigit(text[i]) && IsDigit(c) && c != text[i]
    ensures !Accepts(text[i := c])
  {
    var k := StripUpdate(text, i, c);
    var s := StripSeparators(text);
    var ds := DigitValues(s);
    assert forall j :: 0 <= j < |s| ==> IsDigit(s[j]);
    assert AreDigits(ds);
    assert DigitValues(s[k := c]) == ds[k := DigitValue(c)];
    SingleDigitDetected(ds, k, DigitValue(c));
  }

  /** Two digits of the text with nothing but separators between them. */
  predicate Neighbours(text: string, i: nat, j: nat) {
    && i < j < |text|
    && IsDigit(text[i]) && IsDigit(text[j])
    && forall k :: i < k < j ==> IsSeparator(text[k])
  }

  lemma {:induction false} StripAll(s: string)
    requires forall k :: 0 <= k < |s| ==> IsSeparator(s[k])
    ensures StripSeparators(s) == ""
  {
    if s != "" {
      StripAll(s[1..]);
    }
  }

  lemma StripDigit(x: char, rest: string)
    requires IsDigit(x)
    ensures StripSeparators([x] + rest) == [x] + StripSeparators(rest)
  {
    DigitIsNoSeparator(x);
    assert ([x] + rest)[1..] == rest;
  }

  lemma StripSkips(mid: string, rest: string)
    requires forall k :: 0 <= k < |mid| ==> IsSeparator(mid[k])
    ensures StripSeparators(mid + rest) == StripSeparators(rest)
  {
    StripConcat(mid, rest);
    StripAll(mid);
    assert "" + StripSeparators(rest) == StripSeparators(rest);
  }

  lemma StripAround(a: string, x: char, mid: string, y: char, b: string)
    requires IsDigit(x) && IsDigit(y) && forall k :: 0 <= k < |mid| ==> IsSeparator(mid[k])
    ensures StripSeparators(a + ([x] + (mid + ([y] + b)))) == StripSeparators(a) + ([x] + ([y] + StripSeparators(b)))
  {
    var t := [y] + b;
    var u := mid + t;
    StripConcat(a, [x] + u);
    StripDigit(x, u);
    StripSkips(mid, t);
    StripDigit(y, b);
  }

  lemma CutAround(text: string, i: nat, j: nat, x: char, y: char)
    requires i < j < |text|
    ensures text[i := x][j := y] == text[..i] + ([x] + (text[i + 1..j] + ([y] + text[j + 1..])))
  {
  }

  lemma SwapMiddle(a: string, x: char, y: char, b: string)
    ensures a + ([y] + ([x] + b)) == (a + ([x] + ([y] + b)))[|a| := y][|a| + 1 := x]
  {
  }

  /** Swapping two neighbouring digits of the text swaps the two digits of the number. */
  lemma StripSwap(text: string, i: nat, j: nat) returns (k: nat)
    requires Neighbours(text, i, j)
    ensures var s := StripSeparators(text);
      && k + 1 < |s| && s[k] == text[i] && s[k + 1] == text[j]
      && StripSeparators(text[i := text[j]][j := text[i]]) == s[k := text[j]][k + 1 := text[i]]
  {
    var a, mid, b, x, y := text[..i], text[i + 1..j], text[j + 1..], text[i], text[j];
    assert text[i := x][j := y] == text;
    CutAround(text, i, j, x, y);
    CutAround(text, i, j, y, x);
    StripAround(a, x, mid, y, b);
    StripAround(a, y, mid, x, b);
    k := |StripSeparators(a)|;
    SwapMiddle(StripSeparators(a), x, y, StripSeparators(b));
  }

  lemma SwapValues(s: string, k: nat, x: char, y: char)
    requires k + 1 < |s|
    ensures DigitValues(s[k := y][k + 1 := x]) == DigitValues(s)[k := DigitValue(y)][k + 1 := DigitValue(x)]
  {
  }

  /** Swapping two neighbouring digits of an accepted text is noticed unless they are equal or are 0 and 9. */
  lemma SwapRejectedIff(text: string, i: nat, j: nat)
    requires Accepts(text) && Neighbours(text, i, j)
    ensures var x, y := text[i], text[j];
      Accepts(text[i := y][j := x]) <==> x == y || (x == '0' && y == '9') || (x == '9' && y == '0')
  {
    var k := StripSwap(text, i, j);
    var s, x, y := StripSeparators(text), text[i], text[j];
    var ds := DigitValues(s);
    assert forall l :: 0 <= l < |s| ==> IsDigit(s[l]);
    assert AreDigits(ds);
    SwapValues(s, k, x, y);
    assert AllDigits(s[k := y][k + 1 := x]);
    TranspositionDetected(ds, k);
  }
}
