/** Route and path normalisation, on the server and in the browser client. */
module Routes {
  import opened Collections
  import opened Text

  const MAX_ROUTE := 200

  predicate IsDigits(seg: string) {
    seg != "" && forall i :: 0 <= i < |seg| ==> IsDigit(seg[i])
  }

  /** Eight, four, four, four and twelve hexadecimal digits joined by dashes, in either case. */
  predicate IsUuid(seg: string) {
    |seg| == 36 && forall i :: 0 <= i < 36 ==>
      if i == 8 || i == 13 || i == 18 || i == 23 then seg[i] == '-' else IsHexDigit(seg[i])
  }

  /** Sixteen or more hexadecimal digits. */
  predicate IsHash(seg: string) {
    |seg| >= 16 && forall i :: 0 <= i < |seg| ==> IsHexDigit(seg[i])
  }

  /**
   * A global replacement of `/segment` by `/replacement` wherever the segment obeys the
   * rule and ends at a slash or at the end of the text, scanning left to right.
   */
  function Rewrite(s: string, rule: string -> bool, replacement: string): string
    decreases |s|
  {
    if s == "" then ""
    else if s[0] != '/' then [s[0]] + Rewrite(s[1..], rule, replacement)
    else
      var seg := Before(s[1..], '/');
      BeforeFacts(s[1..], '/');
      if rule(seg) then "/" + replacement + Rewrite(s[1 + |seg|..], rule, replacement)
      else "/" + Rewrite(s[1..], rule, replacement)
  }

  /**
   * The regular expression asks for some run of rule characters with a slash or the end
   * after it; for a rule that admits no slash this is the whole segment.
   */
  lemma LookaheadIsSegment(t: string, rule: string -> bool, k: nat)
    requires k <= |t| && rule(t[..k]) && '/' !in t[..k]
    requires k == |t| || t[k] == '/'
    ensures t[..k] == Before(t, '/')
  {
    assert t == t[..k] + t[k..];
    BeforeConcat(t[..k], t[k..], '/');
  }

  function Replace(rule: string -> bool, replacement: string, seg: string): string {
    if rule(seg) then replacement else seg
  }

  function ReplaceAll(rule: string -> bool, replacement: string, segs: seq<string>): seq<string> {
    seq(|segs|, i requires 0 <= i < |segs| => Replace(rule, replacement, segs[i]))
  }

  lemma {:induction false} RewriteCopies(p: string, t: string, rule: string -> bool, replacement: string)
    requires '/' !in p
    ensures Rewrite(p + t, rule, replacement) == p + Rewrite(t, rule, replacement)
  {
    if p == "" {
      assert p + t == t;
    } else {
      assert (p + t)[1..] == p[1..] + t;
      RewriteCopies(p[1..], t, rule, replacement);
    }
  }

  /** The scan at a slash followed by a segment. */
  lemma RewriteSegment(seg: string, more: string, rule: string -> bool, replacement: string)
    requires '/' !in seg && (more == "" || more[0] == '/')
    ensures Rewrite("/" + (seg + more), rule, replacement)
      == "/" + (Replace(rule, replacement, seg) + Rewrite(more, rule, replacement))
  {
    var s := "/" + (seg + more);
    assert s[1..] == seg + more;
    BeforeConcat(seg, more, '/');
    assert s[1 + |seg|..] == more;
    RewriteCopies(seg, more, rule, replacement);
    if rule(seg) {
      assert "/" + replacement + Rewrite(more, rule, replacement) == "/" + (replacement + Rewrite(more, rule, replacement));
    }
  }

  lemma TailStep(seg: string, rest: seq<string>)
    ensures Tail([seg] + rest, '/') == "/" + (seg + Tail(rest, '/'))
  {
    assert ([seg] + rest)[1..] == rest;
  }

  lemma {:induction false} RewriteTail(rest: seq<string>, rule: string -> bool, replacement: string)
    requires Free(rest, '/')
    ensures Rewrite(Tail(rest, '/'), rule, replacement) == Tail(ReplaceAll(rule, replacement, rest), '/')
  {
    if rest != [] {
      var seg, after := rest[0], rest[1..];
      RewriteTail(after, rule, replacement);
      assert rest == [seg] + after;
      TailStep(seg, after);
      RewriteSegment(seg, Tail(after, '/'), rule, replacement);
      assert ReplaceAll(rule, replacement, rest) == [Replace(rule, replacement, seg)] + ReplaceAll(rule, replacement, after);
      TailStep(Replace(rule, replacement, seg), ReplaceAll(rule, replacement, after));
    }
  }

  /** The scan acts segment by segment, on every segment but the first. */
  lemma RewriteIsSegmentwise(s: string, rule: string -> bool, replacement: string)
    requires '/' !in replacement
    ensures var a, b := Split(s, '/'), Split(Rewrite(s, rule, replacement), '/');
      && |b| == |a|
      && b[0] == a[0]
      && forall i :: 1 <= i < |a| ==> b[i] == Replace(rule, replacement, a[i])
  {
    var a := Split(s, '/');
    SplitNonempty(s, '/');
    JoinSplit(s, '/');
    var rest := a[1..];
    RewriteCopies(a[0], Tail(rest, '/'), rule, replacement);
    RewriteTail(rest, rule, replacement);
    var b := [a[0]] + ReplaceAll(rule, replacement, rest);
    assert b[1..] == ReplaceAll(rule, replacement, rest);
    SplitJoin(b, '/');
  }

  // ----- The three normalisers -----

  function StripIds(s: string): string {
    Rewrite(Rewrite(s, IsUuid, ":uuid"), IsDigits, ":id")
  }

  function StripQuery(s: string): string {
    Before(Before(s, '?'), '#')
  }

  /** Query and fragment dropped, cut to the cap. */
  function CutRoute(route: string): string {
    var r := StripQuery(route);
    if |r| > MAX_ROUTE then r[..MAX_ROUTE] else r
  }

  /** The server's normaliser. */
  function NormalizeRoute(route: Option<string>): string {
    if route.None? || route.value == "" then "(unknown)"
    else
      var n := StripIds(CutRoute(route.value));
      if n == "" then "/" else n
  }

  /** The browser client's default resolver. */
  function DefaultRouteResolver(pathname: string): string {
    var p := StripQuery(pathname);
    StripIds(if p == "" then "/" else p)
  }

  /** The access log's path normaliser. */
  function NormalizePath(path: string): string {
    Rewrite(StripIds(path), IsHash, ":hash")
  }

  // ----- What they guarantee -----

  function IdFree(seg: string): string {
    if IsUuid(seg) then ":uuid" else if IsDigits(seg) then ":id" else seg
  }

  /** No segment after the first slash is a UUID or a number. */
  ghost predicate Clean(s: string) {
    forall i :: 1 <= i < |Split(s, '/')| ==> IdFree(Split(s, '/')[i]) == Split(s, '/')[i]
  }

  lemma StripIdsIsSegmentwise(s: string)
    ensures var a, b := Split(s, '/'), Split(StripIds(s), '/');
      && |b| == |a| > 0
      && b[0] == a[0]
      && forall i :: 1 <= i < |a| ==> b[i] == IdFree(a[i])
    ensures Clean(StripIds(s))
  {
    SplitNonempty(s, '/');
    var m := Rewrite(s, IsUuid, ":uuid");
    RewriteIsSegmentwise(s, IsUuid, ":uuid");
    RewriteIsSegmentwise(m, IsDigits, ":id");
    var a, b := Split(s, '/'), Split(StripIds(s), '/');
    assert !IsDigits(":uuid") by { assert !IsDigit(":uuid"[0]); }
    assert !IsDigits(":id") by { assert !IsDigit(":id"[0]); }
    forall i | 1 <= i < |a|
      ensures b[i] == IdFree(a[i]) && IdFree(b[i]) == b[i]
    {
      var u := Split(m, '/')[i];
      assert u == Replace(IsUuid, ":uuid", a[i]);
      assert b[i] == Replace(IsDigits, ":id", u);
      UuidIsNotDigits(a[i]);
    }
  }

  lemma UuidIsNotDigits(seg: string)
    ensures !(IsUuid(seg) && IsDigits(seg))
  {
    if |seg| == 36 {
      assert IsUuid(seg) ==> seg[8] == '-';
    }
  }

  /** A clean text is left alone, and only a clean one is. */
  lemma StripIdsFixes(s: string)
    ensures StripIds(s) == s <==> Clean(s)
  {
    StripIdsIsSegmentwise(s);
    SplitNonempty(s, '/');
    JoinSplit(s, '/');
    JoinSplit(StripIds(s), '/');
    if Clean(s) {
      assert Split(StripIds(s), '/') == Split(s, '/');
    }
  }

  ghost predicate NoQuery(s: string) {
    '?' !in s && '#' !in s
  }

  lemma StripQueryFacts(s: string)
    ensures NoQuery(StripQuery(s)) && StripQuery(s) <= s
    ensures NoQuery(s) <==> StripQuery(s) == s
  {
    BeforeFacts(s, '?');
    BeforeFacts(Before(s, '?'), '#');
    if NoQuery(s) {
      assert Before(s, '?') == s;
    }
  }

  /** What is left ends just before the first question mark or hash, and nothing else is dropped. */
  lemma StripQueryExact(s: string)
    ensures var n := |StripQuery(s)|;
      n <= |s| && StripQuery(s) == s[..n] && NoQuery(s[..n]) && (n < |s| ==> s[n] == '?' || s[n] == '#')
  {
    BeforeFacts(s, '?');
    BeforeFacts(Before(s, '?'), '#');
  }

  /** The cut route ends before the first question mark or hash, or after 200 characters, whichever comes first. */
  lemma CutExact(route: string)
    ensures var n := |CutRoute(route)|;
      && n <= |route| && CutRoute(route) == route[..n] && n <= 200 && NoQuery(route[..n])
      && (n < |route| ==> n == 200 || route[n] == '?' || route[n] == '#')
  {
    StripQueryExact(route);
  }

  lemma {:induction false} TailChars(rest: seq<string>, c: char)
    requires c != '/' && Free(rest, c)
    ensures c !in Tail(rest, '/')
  {
    if rest != [] {
      TailChars(rest[1..], c);
    }
  }

  lemma {:induction false} TailFree(rest: seq<string>, c: char)
    requires c !in Tail(rest, '/')
    ensures Free(rest, c)
  {
    if rest != [] {
      var t := Tail(rest, '/');
      assert forall x :: x in rest[0] ==> x in t;
      assert forall x :: x in Tail(rest[1..], '/') ==> x in t;
      TailFree(rest[1..], c);
      forall i | 0 <= i < |rest| ensures c !in rest[i] {
        if i > 0 { assert rest[i] == rest[1..][i - 1]; }
      }
    }
  }

  /** Stripping ids introduces no query and no fragment. */
  lemma StripIdsKeepsNoQuery(s: string, c: char)
    requires (c == '?' || c == '#') && c !in s
    ensures c !in StripIds(s)
  {
    StripIdsIsSegmentwise(s);
    JoinSplit(s, '/');
    JoinSplit(StripIds(s), '/');
    var a, b := Split(s, '/'), Split(StripIds(s), '/');
    TailFree(a[1..], c);
    assert forall x :: x in a[0] ==> x in s;
    forall i | 0 <= i < |b[1..]| ensures c !in b[1..][i] {
      assert a[1..][i] == a[i + 1];
    }
    TailChars(b[1..], c);
  }

  lemma StripIdsEmpty(s: string)
    ensures StripIds(s) == "" <==> s == ""
  {
    StripIdsIsSegmentwise(s);
    JoinSplit(s, '/');
    JoinSplit(StripIds(s), '/');
    assert Split("", '/') == [""];
  }

  lemma NormalizeRouteByCut(route: string)
    requires route != ""
    ensures NormalizeRoute(Some(route)) == if CutRoute(route) == "" then "/" else StripIds(CutRoute(route))
    ensures NoQuery(CutRoute(route))
  {
    StripIdsEmpty(CutRoute(route));
    StripQueryFacts(route);
  }

  /** What the server stores, for any route: a nonempty pattern without query or fragment, with no id after the first slash. */
  lemma NormalizedRoute(route: Option<string>)
    ensures var n := NormalizeRoute(route);
      && n != "" && NoQuery(n) && Clean(n)
      && (route == None || route == Some("") ==> n == "(unknown)")
  {
    if route.None? || route.value == "" {
      UnknownRoute();
    } else {
      var cut := CutRoute(route.value);
      NormalizeRouteByCut(route.value);
      StripIdsIsSegmentwise(cut);
      StripIdsKeepsNoQuery(cut, '?');
      StripIdsKeepsNoQuery(cut, '#');
      StripIdsEmpty(cut);
      SlashIsClean();
    }
  }

  /** The segments of the stored route are those of the cut route with the ids after the first masked, unless the cut left nothing. */
  lemma NormalizedSegments(route: string)
    requires route != ""
    ensures var a, b := Split(CutRoute(route), '/'), Split(NormalizeRoute(Some(route)), '/');
      && |a| > 0 && |b| > 0
      && (|b| == |a| <==> CutRoute(route) != "")
      && b[0] == a[0]
      && (CutRoute(route) != "" ==> forall i :: 1 <= i < |a| ==> b[i] == IdFree(a[i]))
      && (CutRoute(route) == "" ==> b == ["", ""])
  {
    NormalizeRouteByCut(route);
    StripIdsIsSegmentwise(CutRoute(route));
    SlashIsClean();
    SplitStep("", "", '/');
  }

  /** A route that is only a query is stored as a slash, which has one segment more. */
  lemma QueryOnlyGainsSegment()
    ensures CutRoute("?q") == "" && NormalizeRoute(Some("?q")) == "/"
    ensures |Split(NormalizeRoute(Some("?q")), '/')| == |Split(CutRoute("?q"), '/')| + 1
  {
    NormalizedSegments("?q");
    SplitStep("", "", '/');
    NormalizeRouteByCut("?q");
  }

  /** No segment at all is a UUID or a number. */
  ghost predicate CleanThroughout(s: string) {
    forall i :: 0 <= i < |Split(s, '/')| ==> IdFree(Split(s, '/')[i]) == Split(s, '/')[i]
  }

  predicate IsId(seg: string) { IsUuid(seg) || IsDigits(seg) }

  lemma IdFreeIff(seg: string)
    ensures IdFree(seg) == seg <==> !IsId(seg)
  {
    assert !IsDigit(":uuid"[0]) && !IsDigit(":id"[0]);
  }

  /** The first segment is kept as it is, whatever it is. */
  lemma FirstSegmentKept(route: string)
    requires route != ""
    ensures Split(NormalizeRoute(Some(route)), '/')[0] == Split(CutRoute(route), '/')[0]
  {
    NormalizedSegments(route);
  }

  /** So a stored route is free of ids throughout exactly when the first segment of the route was no id. */
  lemma CleanThroughoutIff(route: string)
    requires route != ""
    ensures CleanThroughout(NormalizeRoute(Some(route))) <==> !IsId(Before(CutRoute(route), '/'))
  {
    var n := NormalizeRoute(Some(route));
    FirstSegmentKept(route);
    NormalizedRoute(Some(route));
    FirstIsBefore(CutRoute(route));
    IdFreeIff(Split(n, '/')[0]);
  }

  lemma FirstIsBefore(s: string)
    ensures |Split(s, '/')| > 0 && Split(s, '/')[0] == Before(s, '/')
  {
    BeforeFacts(s, '/');
    SplitNonempty(s, '/');
  }

  lemma TwoSegments(a: string, b: string)
    requires '/' !in a && '/' !in b && !IsId(b)
    ensures Split(a + (['/'] + b), '/') == [a, b] && Clean(a + (['/'] + b))
  {
    SplitStep(a, b, '/');
    SplitStep(b, "", '/');
    IdFreeIff(b);
  }

  lemma LeadingNumberKept(a: string, b: string)
    requires IsDigits(a) && '/' !in b && NoQuery(b) && !IsId(b) && |a| + 1 + |b| <= MAX_ROUTE
    ensures var s := a + (['/'] + b);
      NormalizeRoute(Some(s)) == s && !CleanThroughout(s)
  {
    var s := a + (['/'] + b);
    assert forall c :: c in a ==> IsDigit(c);
    TwoSegments(a, b);
    NormalizeRouteFixes(s);
    IdFreeIff(Split(s, '/')[0]);
  }

  /** A number in the first segment stays a number. */
  lemma FirstNumberKept()
    ensures NormalizeRoute(Some("123/x")) == "123/x" && !CleanThroughout("123/x")
  {
    var a, b := "123", "x";
    assert !IsDigit(b[0]);
    assert a + (['/'] + b) == "123/x";
    LeadingNumberKept(a, b);
  }

  lemma SlashIsClean()
    ensures Split("/", '/') == ["", ""] && Clean("/")
  {
    assert ["", ""][1..] == [""];
    assert Tail([""], '/') == "/";
    assert Join(["", ""], '/') == "/";
    SplitJoin(["", ""], '/');
    assert IdFree("") == "";
  }

  lemma CutChangesIds(s: string)
    requires |s| > MAX_ROUTE
    ensures StripIds(s[..MAX_ROUTE]) != s
  {
    var cut := s[..MAX_ROUTE];
    StripIdsIsSegmentwise(cut);
    SplitPrefix(s, MAX_ROUTE, '/');
    var p, q := Split(cut, '/'), Split(s, '/');
    var last := |p| - 1;
    if IdFree(p[last]) == p[last] || last == 0 {
      if StripIds(cut) == s {
        assert p == q;
        JoinSplit(cut, '/');
        JoinSplit(s, '/');
      }
    } else {
      assert p[last] != "" && IsHexDigit(p[last][0]);
      assert q[last][0] == p[last][0];
      assert Split(StripIds(cut), '/')[last][0] == ':';
    }
  }

  /**
   * The server normaliser leaves a nonempty route unchanged exactly when it has no query
   * or fragment, no id after the first slash, and at most MAX_ROUTE characters.
   */
  lemma NormalizeRouteFixes(x: string)
    requires x != ""
    ensures NormalizeRoute(Some(x)) == x <==> NoQuery(x) && Clean(x) && |x| <= MAX_ROUTE
  {
    NormalizedRoute(Some(x));
    StripQueryFacts(x);
    NormalizeRouteByCut(x);
    if NoQuery(x) {
      if |x| > MAX_ROUTE {
        CutChangesIds(x);
      } else {
        StripIdsFixes(x);
      }
    }
  }

  lemma OneSegment(s: string)
    requires '/' !in s
    ensures Clean(s)
  {
    SplitStep(s, "", '/');
  }

  lemma UnknownRoute()
    ensures NoQuery("(unknown)") && Clean("(unknown)")
  {
    OneSegment("(unknown)");
  }

  /** Normalising twice is normalising once exactly when the result fits the cap. */
  lemma IdempotentIff(route: Option<string>)
    ensures var n := NormalizeRoute(route);
      NormalizeRoute(Some(n)) == n <==> |n| <= MAX_ROUTE
  {
    NormalizedRoute(route);
    NormalizeRouteFixes(NormalizeRoute(route));
  }

  /** A route resolved by the client survives the server unchanged exactly when it fits the cap. */
  lemma ClientRouteSurvives(pathname: string)
    ensures var c := DefaultRouteResolver(pathname);
      && c != "" && NoQuery(c) && Clean(c)
      && (NormalizeRoute(Some(c)) == c <==> |c| <= MAX_ROUTE)
  {
    StripQueryFacts(pathname);
    var p := StripQuery(pathname);
    var q := if p == "" then "/" else p;
    StripIdsIsSegmentwise(q);
    StripIdsKeepsNoQuery(q, '?');
    StripIdsKeepsNoQuery(q, '#');
    StripIdsEmpty(q);
    NormalizeRouteFixes(StripIds(q));
  }

  /** The client keeps the segments before the first question mark or hash, and masks the ids after the first. */
  lemma ClientSegments(pathname: string, n: nat)
    requires n <= |pathname| && NoQuery(pathname[..n]) && (n < |pathname| ==> pathname[n] == '?' || pathname[n] == '#')
    ensures var a := Split(if n == 0 then "/" else pathname[..n], '/');
      var b := Split(DefaultRouteResolver(pathname), '/');
      |b| == |a| > 0 && b[0] == a[0] && forall i :: 1 <= i < |a| ==> b[i] == IdFree(a[i])
  {
    StripQueryExact(pathname);
    var m := |StripQuery(pathname)|;
    assert m == n by {
      assert forall k :: 0 <= k < n ==> pathname[k] in pathname[..n];
      assert forall k :: 0 <= k < m ==> pathname[k] in pathname[..m];
    }
    StripIdsIsSegmentwise(if n == 0 then "/" else pathname[..n]);
  }

  // ----- What counts as an id -----

  predicate AllHexDigits(s: string) {
    forall i :: 0 <= i < |s| ==> s[i] in "0123456789abcdefABCDEF"
  }

  /** Five groups of 8, 4, 4, 4 and 12 hexadecimal digits. */
  ghost predicate FiveGroups(g: seq<string>) {
    && |g| == 5
    && |g[0]| == 8 && |g[1]| == 4 && |g[2]| == 4 && |g[3]| == 4 && |g[4]| == 12
    && forall i :: 0 <= i < 5 ==> AllHexDigits(g[i])
  }

  lemma HexDigits()
    ensures forall c :: IsHexDigit(c) <==> c in "0123456789abcdefABCDEF"
    ensures forall c :: IsDigit(c) <==> c in "0123456789"
  {
  }

  lemma JoinFive(a: string, b: string, c: string, d: string, e: string)
    ensures Join([a, b, c, d, e], '-') == a + ("-" + (b + ("-" + (c + ("-" + (d + ("-" + e)))))))
  {
    JoinStep(a, [b, c, d, e], '-');
    JoinStep(b, [c, d, e], '-');
    JoinStep(c, [d, e], '-');
    JoinStep(d, [e], '-');
    assert [a] + [b, c, d, e] == [a, b, c, d, e] && [b] + [c, d, e] == [b, c, d, e];
    assert [c] + [d, e] == [c, d, e] && [d] + [e] == [d, e];
    assert Join([e], '-') == e;
  }

  lemma DashedGroups(seg: string)
    requires |seg| == 36 && seg[8] == '-' && seg[13] == '-' && seg[18] == '-' && seg[23] == '-'
    ensures Join([seg[..8], seg[9..13], seg[14..18], seg[19..23], seg[24..]], '-') == seg
  {
    JoinFive(seg[..8], seg[9..13], seg[14..18], seg[19..23], seg[24..]);
  }

  /** A UUID is five groups of hexadecimal digits between dashes. */
  lemma UuidGroups(seg: string)
    ensures IsUuid(seg) <==> FiveGroups(Split(seg, '-'))
  {
    HexDigits();
    if IsUuid(seg) {
      var g := [seg[..8], seg[9..13], seg[14..18], seg[19..23], seg[24..]];
      DashedGroups(seg);
      forall i | 0 <= i < 5 ensures '-' !in g[i] && AllHexDigits(g[i]) {
        assert forall k :: 0 <= k < |g[i]| ==> IsHexDigit(g[i][k]);
      }
      SplitJoin(g, '-');
    }
    if FiveGroups(Split(seg, '-')) {
      var g := Split(seg, '-');
      JoinSplit(seg, '-');
      assert g == [g[0], g[1], g[2], g[3], g[4]];
      JoinFive(g[0], g[1], g[2], g[3], g[4]);
    }
  }

  lemma {:induction false} TailLength(rest: seq<string>, n: nat)
    requires forall i :: 0 <= i < |rest| ==> |rest[i]| == n
    ensures |Tail(rest, '/')| == |rest| * (n + 1)
  {
    if rest != [] {
      TailLength(rest[1..], n);
    }
  }

  /** Replacing `1` by `:id` after the cut can double the text, so the cap is not a bound on the result. */
  lemma NormalizedCanExceedCap()
    ensures exists x :: |x| == MAX_ROUTE && |NormalizeRoute(Some(x))| == 2 * MAX_ROUTE
  {
    var ones := seq(100, _ => "1");
    var x := Tail(ones, '/');
    TailLength(ones, 1);
    var n := Rewrite(x, IsUuid, ":uuid");
    RewriteTail(ones, IsUuid, ":uuid");
    assert ReplaceAll(IsUuid, ":uuid", ones) == ones;
    RewriteTail(ones, IsDigits, ":id");
    TailLength(ReplaceAll(IsDigits, ":id", ones), 3);
    StripQueryFacts(x);
    TailChars(ones, '?');
    TailChars(ones, '#');
    assert |NormalizeRoute(Some(x))| == 2 * MAX_ROUTE;
  }

  function HashFree(seg: string): string {
    if IsUuid(seg) then ":uuid" else if IsDigits(seg) then ":id" else if IsHash(seg) then ":hash" else seg
  }

  /** Access-log paths are normalised segment by segment as well, and normalising is idempotent. */
  lemma NormalizePathIsSegmentwise(path: string)
    ensures var a, b := Split(path, '/'), Split(NormalizePath(path), '/');
      && |b| == |a| > 0
      && b[0] == a[0]
      && forall i :: 1 <= i < |a| ==> b[i] == HashFree(a[i])
    ensures NormalizePath(NormalizePath(path)) == NormalizePath(path)
  {
    SegmentwisePath(path);
    var n := NormalizePath(path);
    SegmentwisePath(n);
    var b := Split(n, '/');
    forall i | 1 <= i < |b| ensures HashFree(b[i]) == b[i] {
      HashFreeTwice(Split(path, '/')[i]);
    }
    assert Split(NormalizePath(n), '/') == b;
    JoinSplit(n, '/');
    JoinSplit(NormalizePath(n), '/');
  }

  lemma HashFreeTwice(seg: string)
    ensures HashFree(HashFree(seg)) == HashFree(seg)
  {
    assert !IsDigit(":uuid"[0]) && !IsDigit(":id"[0]) && !IsDigit(":hash"[0]);
  }

  lemma SegmentwisePath(path: string)
    ensures var a, b := Split(path, '/'), Split(NormalizePath(path), '/');
      && |b| == |a| > 0
      && b[0] == a[0]
      && forall i :: 1 <= i < |a| ==> b[i] == HashFree(a[i])
  {
    StripIdsIsSegmentwise(path);
    RewriteIsSegmentwise(StripIds(path), IsHash, ":hash");
  }
}
