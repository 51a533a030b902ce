/** Character classes, and splitting and joining text on a separator character. */
module Text {

  predicate IsDigit(c: char) { '0' <= c <= '9' }

  predicate IsHexDigit(c: char) {
    IsDigit(c) || 'a' <= c <= 'f' || 'A' <= c <= 'F'
  }

  /** The characters that \s matches. */
  predicate IsSpace(c: char) {
    c as int in {9, 10, 11, 12, 13, 32, 0xA0, 0x1680, 0x2028, 0x2029, 0x202F, 0x205F, 0x3000, 0xFEFF}
    || 0x2000 <= c as int <= 0x200A
  }

  function TrimStart(s: string): string {
    if s != "" && IsSpace(s[0]) then TrimStart(s[1..]) else s
  }

  function TrimEnd(s: string): string {
    if s != "" && IsSpace(s[|s| - 1]) then TrimEnd(s[..|s| - 1]) else s
  }

  function Trim(s: string): string {
    TrimEnd(TrimStart(s))
  }

  ghost predicate AllSpace(s: string) {
    forall i :: 0 <= i < |s| ==> IsSpace(s[i])
  }

  /** What remains starts with no space, and only space is gone before it. */
  lemma {:induction false} TrimStartMeaning(s: string) returns (before: string)
    ensures s == before + TrimStart(s) && AllSpace(before)
    ensures TrimStart(s) != "" ==> !IsSpace(TrimStart(s)[0])
  {
    before := "";
    if s != "" && IsSpace(s[0]) {
      var b := TrimStartMeaning(s[1..]);
      before := [s[0]] + b;
      assert s == [s[0]] + s[1..];
    }
  }

  lemma {:induction false} TrimEndMeaning(s: string) returns (behind: string)
    ensures s == TrimEnd(s) + behind && AllSpace(behind)
    ensures TrimEnd(s) != "" ==> !IsSpace(TrimEnd(s)[|TrimEnd(s)| - 1])
  {
    behind := "";
    if s != "" && IsSpace(s[|s| - 1]) {
      var b := TrimEndMeaning(s[..|s| - 1]);
      behind := b + [s[|s| - 1]];
      assert s == s[..|s| - 1] + [s[|s| - 1]];
    }
  }

  /** Trimming takes away space at both ends, and all of it. */
  lemma TrimMeaning(s: string) returns (before: string, behind: string)
    ensures s == before + Trim(s) + behind && AllSpace(before) && AllSpace(behind)
    ensures Trim(s) != "" ==> !IsSpace(Trim(s)[0]) && !IsSpace(Trim(s)[|Trim(s)| - 1])
  {
    before := TrimStartMeaning(s);
    behind := TrimEndMeaning(TrimStart(s));
    assert before + (Trim(s) + behind) == before + Trim(s) + behind;
    assert Trim(s) != "" ==> Trim(s)[0] == TrimStart(s)[0];
  }

  /** The part of s before the first c, or all of s. */
  function Before(s: string, c: char): string {
    if s == "" || s[0] == c then "" else [s[0]] + Before(s[1..], c)
  }

  function Split(s: string, c: char): seq<string>
    decreases |s|
  {
    var p := Before(s, c);
    BeforeFacts(s, c);
    if |p| == |s| then [s] else [p] + Split(s[|p| + 1..], c)
  }

  lemma {:induction false} BeforeFacts(s: string, c: char)
    ensures c !in Before(s, c) && Before(s, c) <= s
    ensures |Before(s, c)| < |s| ==> s[|Before(s, c)|] == c
    ensures |Before(s, c)| == |s| <==> c !in s
  {
    if s != "" && s[0] != c {
      BeforeFacts(s[1..], c);
      assert s == [s[0]] + s[1..];
    }
  }

  /** The segments of `rest`, each led by the separator. */
  function Tail(rest: seq<string>, c: char): string {
    if rest == [] then "" else [c] + rest[0] + Tail(rest[1..], c)
  }

  function Join(parts: seq<string>, c: char): string
    requires parts != []
  {
    parts[0] + Tail(parts[1..], c)
  }

  ghost predicate Free(parts: seq<string>, c: char) {
    forall i :: 0 <= i < |parts| ==> c !in parts[i]
  }

  lemma BeforeConcat(p: string, t: string, c: char)
    requires c !in p && (t == "" || t[0] == c)
    ensures Before(p + t, c) == p
  {
    if p == "" {
      assert p + t == t;
    } else {
      assert (p + t)[1..] == p[1..] + t;
      BeforeConcat(p[1..], t, c);
    }
  }

  lemma {:induction false} SplitNonempty(s: string, c: char)
    ensures Split(s, c) != [] && Free(Split(s, c), c)
    decreases |s|
  {
    BeforeFacts(s, c);
    var p := Before(s, c);
    if |p| < |s| {
      SplitNonempty(s[|p| + 1..], c);
    }
  }

  lemma SplitStep(p: string, t: string, c: char)
    requires c !in p
    ensures Split(p, c) == [p]
    ensures Split(p + ([c] + t), c) == [p] + Split(t, c)
  {
    BeforeFacts(p, c);
    var s := p + ([c] + t);
    BeforeConcat(p, [c] + t, c);
    assert s[|p| + 1..] == t;
  }

  /** A text is free of c, or a first segment, a c and the rest. */
  lemma CutAt(s: string, c: char) returns (p: string, t: string)
    ensures c !in p
    ensures if c in s then s == p + ([c] + t) else s == p
  {
    BeforeFacts(s, c);
    p := Before(s, c);
    t := if |p| < |s| then s[|p| + 1..] else "";
  }

  lemma JoinStep(p: string, ps: seq<string>, c: char)
    requires ps != []
    ensures Join([p] + ps, c) == p + ([c] + Join(ps, c))
  {
    assert ([p] + ps)[1..] == ps;
    assert Tail(ps, c) == [c] + Join(ps, c);
  }

  lemma {:induction false} JoinSplit(s: string, c: char)
    ensures Split(s, c) != [] && Join(Split(s, c), c) == s
    decreases |s|
  {
    var p, t := CutAt(s, c);
    SplitStep(p, t, c);
    if c in s {
      JoinSplit(t, c);
      JoinStep(p, Split(t, c), c);
    }
  }

  lemma {:induction false} SplitJoin(parts: seq<string>, c: char)
    requires parts != [] && Free(parts, c)
    ensures Split(Join(parts, c), c) == parts
  {
    var p, rest := parts[0], parts[1..];
    assert parts == [p] + rest;
    if rest != [] {
      SplitJoin(rest, c);
      JoinStep(p, rest, c);
      SplitStep(p, Join(rest, c), c);
    } else {
      assert Join(parts, c) == p;
      SplitStep(p, "", c);
    }
  }

  lemma {:induction false} TailConcat(a: seq<string>, b: seq<string>, c: char)
    ensures Tail(a + b, c) == Tail(a, c) + Tail(b, c)
  {
    if a == [] {
      assert a + b == b;
    } else {
      assert (a + b)[1..] == a[1..] + b;
      TailConcat(a[1..], b, c);
    }
  }

  ghost predicate Shortened(p: seq<string>, q: seq<string>) {
    && 0 < |p| <= |q|
    && p[|p| - 1] <= q[|p| - 1]
    && forall i :: 0 <= i < |p| - 1 ==> p[i] == q[i]
  }

  /** A prefix of a text has the same segments, except that its last one may be cut short. */
  lemma {:induction false} SplitPrefix(s: string, n: nat, c: char)
    requires n <= |s|
    ensures Shortened(Split(s[..n], c), Split(s, c))
    decreases |s|
  {
    var b, rest := CutAt(s, c);
    SplitStep(b, rest, c);
    if n <= |b| {
      assert s[..n] == b[..n];
      SplitStep(b[..n], "", c);
    } else {
      var m := n - |b| - 1;
      assert s[..n] == b + ([c] + rest[..m]);
      SplitStep(b, rest[..m], c);
      SplitPrefix(rest, m, c);
      ShortenedCons(b, Split(rest[..m], c), Split(rest, c));
    }
  }

  lemma ShortenedCons(b: string, p: seq<string>, q: seq<string>)
    requires Shortened(p, q)
    ensures Shortened([b] + p, [b] + q)
  {
  }
}
