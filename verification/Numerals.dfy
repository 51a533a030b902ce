/** Numbers as text: hexadecimal as the kernel prints it and `parseInt(…, 16)` reads it, and decimal. */
module Numerals {
  import opened Collections
  import opened Text

  // ----- Hexadecimal -----

  function HexDigit(d: int): char
    requires 0 <= d < 16
  {
    if d < 10 then '0' + (d as char) else '7' + (d as char)
  }

  /** The value of a hexadecimal digit of either case. */
  function DigitValue(c: char): nat {
    if '0' <= c <= '9' then c as nat - '0' as nat
    else if 'a' <= c <= 'f' then c as nat - 'a' as nat + 10
    else if 'A' <= c <= 'F' then c as nat - 'A' as nat + 10
    else 0
  }

  lemma DigitRoundTrip(d: int)
    requires 0 <= d < 16
    ensures DigitValue(HexDigit(d)) == d && IsHexDigit(HexDigit(d))
  {
  }

  function HexValue(s: string): nat {
    if s == "" then 0 else 16 * HexValue(s[..|s| - 1]) + DigitValue(s[|s| - 1])
  }

  function Hex2(b: Byte): (s: string)
    ensures |s| == 2
  {
    [HexDigit(b / 16), HexDigit(b % 16)]
  }

  function HexText(bytes: seq<Byte>): (s: string)
    ensures |s| == 2 * |bytes|
  {
    if bytes == [] then "" else HexText(bytes[..|bytes| - 1]) + Hex2(bytes[|bytes| - 1])
  }

  ghost predicate AllHex(s: string) {
    forall i :: 0 <= i < |s| ==> IsHexDigit(s[i])
  }

  lemma HexValueSnoc2(s: string, c: char, d: char)
    ensures HexValue(s + [c, d]) == 256 * HexValue(s) + 16 * DigitValue(c) + DigitValue(d)
  {
    assert (s + [c, d])[..|s| + 1] == s + [c];
    assert (s + [c])[..|s|] == s;
  }

  lemma {:induction false} HexTextValue(bytes: seq<Byte>)
    ensures HexValue(HexText(bytes)) == ByteValue(bytes) && AllHex(HexText(bytes))
  {
    if bytes != [] {
      var n := |bytes| - 1;
      var b := bytes[n];
      HexTextValue(bytes[..n]);
      HexValueSnoc2(HexText(bytes[..n]), HexDigit(b / 16), HexDigit(b % 16));
      DigitRoundTrip(b / 16);
      DigitRoundTrip(b % 16);
    }
  }

  lemma {:induction false} HexTextAt(bytes: seq<Byte>, k: nat)
    requires k < |bytes|
    ensures HexText(bytes)[2 * k..2 * k + 2] == Hex2(bytes[k])
  {
    var n := |bytes| - 1;
    if k < n {
      HexTextAt(bytes[..n], k);
      assert HexText(bytes)[2 * k..2 * k + 2] == HexText(bytes[..n])[2 * k..2 * k + 2];
    }
  }

  /** The digits at the start of s. */
  function HexPrefix(s: string): string {
    if s != "" && IsHexDigit(s[0]) then [s[0]] + HexPrefix(s[1..]) else ""
  }

  function AfterSign(s: string): string {
    if s != "" && (s[0] == '-' || s[0] == '+') then s[1..] else s
  }

  function AfterMark(s: string): string {
    if |s| >= 2 && s[0] == '0' && (s[1] == 'x' || s[1] == 'X') then s[2..] else s
  }

  /** parseInt with radix 16; None is NaN. */
  function ParseHex(text: string): Option<int> {
    var s := TrimStart(text);
    var digits := HexPrefix(AfterMark(AfterSign(s)));
    if digits == "" then None
    else
      var n: int := HexValue(digits);
      Some(if s != "" && s[0] == '-' then -n else n)
  }

  /** A numeral inside a text: spaces, a sign, a mark of the radix, the digits, and what follows them. */
  datatype HexParts = HexParts(space: string, sign: string, mark: string, digits: string, rest: string)

  /** The text is written that way, with the longest run of digits, and a leading mark counts as one. */
  ghost predicate Spells(text: string, p: HexParts) {
    && text == p.space + (p.sign + (p.mark + (p.digits + p.rest)))
    && AllSpace(p.space)
    && IsSign(p.sign)
    && IsMark(p.mark)
    && (p.mark == "" && p.digits == "0" ==> p.rest == "" || (p.rest[0] != 'x' && p.rest[0] != 'X'))
    && p.digits != "" && AllHex(p.digits)
    && (p.rest == "" || !IsHexDigit(p.rest[0]))
  }

  predicate IsSign(s: string) { s == "" || s == "-" || s == "+" }

  predicate IsMark(s: string) { s == "" || s == "0x" || s == "0X" }

  function Signed(p: HexParts): int {
    var n: int := HexValue(p.digits);
    if p.sign == "-" then -n else n
  }

  lemma {:induction false} TrimAway(space: string, t: string)
    requires AllSpace(space) && (t == "" || !IsSpace(t[0]))
    ensures TrimStart(space + t) == t
  {
    if space == "" {
      assert space + t == t;
    } else {
      TrimAway(space[1..], t);
      assert (space + t)[1..] == space[1..] + t;
    }
  }

  lemma {:induction false} HexPrefixMeaning(s: string)
    ensures AllHex(HexPrefix(s)) && |HexPrefix(s)| <= |s| && s == HexPrefix(s) + s[|HexPrefix(s)|..]
    ensures |HexPrefix(s)| < |s| ==> !IsHexDigit(s[|HexPrefix(s)|])
  {
    if s != "" && IsHexDigit(s[0]) {
      HexPrefixMeaning(s[1..]);
    }
  }

  lemma {:induction false} HexPrefixExact(digits: string, rest: string)
    requires AllHex(digits) && (rest == "" || !IsHexDigit(rest[0]))
    ensures HexPrefix(digits + rest) == digits
  {
    if digits == "" {
      assert digits + rest == rest;
    } else {
      HexPrefixExact(digits[1..], rest);
      assert (digits + rest)[1..] == digits[1..] + rest;
    }
  }

  /** A text reads as a number exactly when it spells it. */
  lemma ParseHexIff(text: string, n: int)
    ensures ParseHex(text) == Some(n) <==> exists p :: Spells(text, p) && Signed(p) == n
  {
    if ParseHex(text) == Some(n) {
      var p := ParsedSpells(text, n);
    }
    if p :| Spells(text, p) && Signed(p) == n {
      SpelledParses(text, p);
    }
  }

  lemma CutMark(t: string) returns (mark: string)
    ensures t == mark + AfterMark(t) && IsMark(mark)
    ensures mark == "" ==> AfterMark(t) == t && (|t| < 2 || t[0] != '0' || (t[1] != 'x' && t[1] != 'X'))
  {
    mark := "";
    if |t| >= 2 && t[0] == '0' && (t[1] == 'x' || t[1] == 'X') {
      mark := ['0', t[1]];
      assert t == mark + t[2..];
    }
  }

  lemma CutSign(s: string) returns (sign: string)
    ensures s == sign + AfterSign(s) && IsSign(sign)
    ensures sign == "-" <==> s != "" && s[0] == '-'
  {
    sign := "";
    if s != "" && (s[0] == '-' || s[0] == '+') {
      sign := [s[0]];
    }
  }

  /** The digits that ParseHex reads after the mark that it drops. */
  lemma CutDigits(t: string) returns (mark: string, rest: string)
    ensures var digits := HexPrefix(AfterMark(t));
      && t == mark + (digits + rest) && IsMark(mark) && AllHex(digits)
      && (mark == "" && digits == "0" ==> rest == "" || (rest[0] != 'x' && rest[0] != 'X'))
      && (rest == "" || !IsHexDigit(rest[0]))
  {
    mark := CutMark(t);
    var u := AfterMark(t);
    HexPrefixMeaning(u);
    rest := u[|HexPrefix(u)|..];
    if mark == "" && HexPrefix(u) == "0" && rest != "" {
      assert u[1] == rest[0];
    }
  }

  lemma ParsedSpells(text: string, n: int) returns (p: HexParts)
    requires ParseHex(text) == Some(n)
    ensures Spells(text, p) && Signed(p) == n
  {
    var space := TrimStartMeaning(text);
    var s := TrimStart(text);
    var sign := CutSign(s);
    var mark, rest := CutDigits(AfterSign(s));
    p := HexParts(space, sign, mark, HexPrefix(AfterMark(AfterSign(s))), rest);
  }

  lemma SignedStart(sign: string, t: string)
    requires t != "" && IsHexDigit(t[0]) && IsSign(sign)
    ensures !IsSpace((sign + t)[0]) && AfterSign(sign + t) == t
    ensures (sign + t)[0] == '-' <==> sign == "-"
  {
    if sign == "" {
      assert sign + t == t;
    }
  }

  lemma MarkedStart(mark: string, digits: string, rest: string)
    requires IsMark(mark) && digits != "" && AllHex(digits)
    requires mark == "" && digits == "0" ==> rest == "" || (rest[0] != 'x' && rest[0] != 'X')
    ensures var t := mark + (digits + rest); t != "" && IsHexDigit(t[0]) && AfterMark(t) == digits + rest
  {
    var u := digits + rest;
    assert IsHexDigit(u[0]) by { assert u[0] == digits[0]; }
    if mark == "" {
      assert mark + u == u;
      assert |digits| >= 2 ==> u[1] == digits[1] && IsHexDigit(u[1]);
    } else {
      assert (mark + u)[2..] == u;
    }
  }

  lemma SpelledParses(text: string, p: HexParts)
    requires Spells(text, p)
    ensures ParseHex(text) == Some(Signed(p))
  {
    var t := p.mark + (p.digits + p.rest);
    MarkedStart(p.mark, p.digits, p.rest);
    SignedStart(p.sign, t);
    TrimAway(p.space, p.sign + t);
    HexPrefixExact(p.digits, p.rest);
  }

  lemma {:induction false} HexPrefixAll(s: string)
    requires AllHex(s)
    ensures HexPrefix(s) == s
  {
    if s != "" {
      HexPrefixAll(s[1..]);
      assert s == [s[0]] + s[1..];
    }
  }

  lemma ParseHexDigits(s: string)
    requires s != "" && AllHex(s)
    ensures ParseHex(s) == Some(HexValue(s))
  {
    HexPrefixAll(s);
    assert IsHexDigit(s[0]);
    assert TrimStart(s) == s;
    assert |s| >= 2 ==> IsHexDigit(s[1]);
  }

  // ----- Dropping leading zeros, lower case -----

  predicate IsLineEnd(c: char) {
    c == '\n' || c == '\r' || c == '\U{2028}' || c == '\U{2029}'
  }

  /** Drops zeros from the front while another character follows. */
  function DropZeros(s: string): string {
    if |s| >= 2 && s[0] == '0' && !IsLineEnd(s[1]) then DropZeros(s[1..]) else s
  }

  lemma {:induction false} HexValueZero(s: string)
    ensures HexValue(['0'] + s) == HexValue(s)
  {
    if s != "" {
      var n := |s| - 1;
      HexValueZero(s[..n]);
      assert (['0'] + s)[..n + 1] == ['0'] + s[..n];
    }
  }

  lemma {:induction false} DropZerosFacts(s: string)
    requires AllHex(s)
    ensures HexValue(DropZeros(s)) == HexValue(s) && AllHex(DropZeros(s))
    ensures |DropZeros(s)| <= |s| && (s != "" ==> DropZeros(s) != "")
  {
    if |s| >= 2 && s[0] == '0' && !IsLineEnd(s[1]) {
      DropZerosFacts(s[1..]);
      HexValueZero(s[1..]);
      assert s == ['0'] + s[1..];
    }
  }

  function LowerChar(c: char): char {
    if 'A' <= c <= 'Z' then c + ' ' else c
  }

  function Lower(s: string): (r: string)
    ensures |r| == |s|
    ensures forall i :: 0 <= i < |s| ==> r[i] == LowerChar(s[i])
  {
    seq(|s|, i requires 0 <= i < |s| => LowerChar(s[i]))
  }

  predicate IsLowerHex(c: char) {
    IsDigit(c) || 'a' <= c <= 'f'
  }

  lemma LowerDigit(c: char)
    requires IsHexDigit(c)
    ensures DigitValue(LowerChar(c)) == DigitValue(c) && IsLowerHex(LowerChar(c))
  {
  }

  lemma {:induction false} LowerValue(s: string)
    requires AllHex(s)
    ensures HexValue(Lower(s)) == HexValue(s)
    ensures forall i :: 0 <= i < |s| ==> IsLowerHex(Lower(s)[i])
  {
    if s != "" {
      var n := |s| - 1;
      LowerValue(s[..n]);
      assert Lower(s)[..n] == Lower(s[..n]);
      assert IsHexDigit(s[n]);
      LowerDigit(s[n]);
      assert Lower(s)[n] == LowerChar(s[n]);
      forall i | 0 <= i < |s| ensures IsLowerHex(Lower(s)[i]) {
        LowerDigit(s[i]);
      }
    }
  }

  // ----- Decimal -----

  function Decimal(n: nat): (s: string)
    ensures s != ""
  {
    if n < 10 then [HexDigit(n)] else Decimal(n / 10) + [HexDigit(n % 10)]
  }

  function DecimalValue(s: string): nat {
    if s == "" then 0 else 10 * DecimalValue(s[..|s| - 1]) + DigitValue(s[|s| - 1])
  }

  lemma {:induction false} DecimalRoundTrip(n: nat)
    ensures DecimalValue(Decimal(n)) == n
    ensures forall i :: 0 <= i < |Decimal(n)| ==> IsDigit(Decimal(n)[i])
  {
    DigitRoundTrip(n % 10);
    if n >= 10 {
      DecimalRoundTrip(n / 10);
      Snocs(Decimal(n / 10), HexDigit(n % 10));
    } else {
      assert Decimal(n)[..0] == "";
    }
  }

  lemma Snocs(s: string, c: char)
    ensures (s + [c])[..|s|] == s
  {
  }

  function IntText(n: int): string {
    if n < 0 then "-" + Decimal(-n) else Decimal(n)
  }

  function IntValue(s: string): int {
    var negative := s != "" && s[0] == '-';
    var n: int := DecimalValue(if negative then s[1..] else s);
    if negative then -n else n
  }

  lemma IntRoundTrip(n: int)
    ensures IntValue(IntText(n)) == n
    ensures forall i :: 0 <= i < |IntText(n)| ==> IsDigit(IntText(n)[i]) || IntText(n)[i] == '-'
  {
    DecimalRoundTrip(if n < 0 then -n else n);
    if n < 0 {
      assert IntText(n)[1..] == Decimal(-n);
    } else {
      assert IsDigit(IntText(n)[0]);
    }
  }
}
