/**
 * String helpers the two stores and the two front-ends rely on: JavaScript's
 * `trim`, `toLowerCase`, the `/\s+/g -> '-'` replacement, decimal rendering of
 * an index inside a template literal, and joining and splitting on "||".
 */
module Text {

  /** The characters JavaScript's `\s` and `String.prototype.trim` treat as white space. */
  predicate IsWhitespace(c: char) {
    c in {'\t', '\n', '\U{000B}', '\U{000C}', '\r', ' ', '\U{00A0}', '\U{1680}',
          '\U{2028}', '\U{2029}', '\U{202F}', '\U{205F}', '\U{3000}', '\U{FEFF}'}
    || ('\U{2000}' <= c <= '\U{200A}')
  }

  predicate IsBlank(s: string) {
    forall k | 0 <= k < |s| :: IsWhitespace(s[k])
  }

  /** Drops the leading white space. */
  function TrimStart(s: string): (r: string)
    ensures |r| <= |s| && r == s[|s| - |r|..]
    ensures r == [] || !IsWhitespace(r[0])
    ensures forall k | 0 <= k < |s| - |r| :: IsWhitespace(s[k])
  {
    if |s| > 0 && IsWhitespace(s[0]) then TrimStart(s[1..]) else s
  }

  /** Drops the trailing white space. */
  function TrimEnd(s: string): (r: string)
    ensures |r| <= |s| && r == s[..|r|]
    ensures r == [] || !IsWhitespace(r[|r| - 1])
    ensures forall k | |r| <= k < |s| :: IsWhitespace(s[k])
  {
    if |s| > 0 && IsWhitespace(s[|s| - 1]) then TrimEnd(s[..|s| - 1]) else s
  }

  /** `s.trim()`. */
  function Trim(s: string): string {
    TrimEnd(TrimStart(s))
  }

  /** `s.trim()` is the empty (falsy) string exactly when `s` is all white space. */
  lemma TrimEmptyIffBlank(s: string)
    ensures Trim(s) == "" <==> IsBlank(s)
  {
    var u := TrimStart(s);
    if Trim(s) == "" {
      assert u == [];
    } else {
      assert !IsWhitespace(u[0]);
      assert s[|s| - |u|] == u[0];
    }
  }

  /** What `TrimStart` drops is white space. */
  lemma TrimStartBlank(s: string)
    ensures IsBlank(s[..|s| - |TrimStart(s)|])
  {
    var pre := s[..|s| - |TrimStart(s)|];
    forall k | 0 <= k < |pre| ensures IsWhitespace(pre[k]) {
      assert pre[k] == s[k];
    }
  }

  /** What `TrimEnd` drops is white space. */
  lemma TrimEndBlank(s: string)
    ensures IsBlank(s[|TrimEnd(s)|..])
  {
    var n := |TrimEnd(s)|;
    var post := s[n..];
    forall k | 0 <= k < |post| ensures IsWhitespace(post[k]) {
      assert post[k] == s[n + k];
    }
  }

  /** A trimmed title is a contiguous piece of the input with only white space around it. */
  lemma TrimShape(s: string) returns (i: nat)
    ensures var r := Trim(s);
      && i + |r| <= |s| && s == s[..i] + r + s[i + |r|..]
      && IsBlank(s[..i]) && IsBlank(s[i + |r|..])
  {
    var u := TrimStart(s);
    var r := TrimEnd(u);
    i := |s| - |u|;
    TrimStartBlank(s);
    TrimEndBlank(u);
    PieceShape(s, i, u, r);
  }

  /** `r`, a prefix of the suffix `u` of `s`, sits between two blank pieces of `s`. */
  lemma PieceShape(s: string, i: nat, u: string, r: string)
    requires i <= |s| && u == s[i..] && |r| <= |u| && r == u[..|r|]
    requires IsBlank(s[..i]) && IsBlank(u[|r|..])
    ensures i + |r| <= |s| && s == s[..i] + r + s[i + |r|..]
    ensures IsBlank(s[i + |r|..])
  {
    assert r == s[i..i + |r|];
    assert s[i + |r|..] == u[|r|..];
    SplitThree(s, i, i + |r|);
  }

  lemma SplitThree(s: string, i: nat, j: nat)
    requires i <= j <= |s|
    ensures s == s[..i] + s[i..j] + s[j..]
  {
  }

  /** ASCII part of `toLowerCase`. */
  function LowerChar(c: char): char {
    if 'A' <= c <= 'Z' then (c as int + 32) as char else c
  }

  function ToLower(s: string): (r: string)
    ensures |r| == |s|
    ensures forall k | 0 <= k < |s| :: r[k] == LowerChar(s[k])
  {
    seq(|s|, k requires 0 <= k < |s| => LowerChar(s[k]))
  }

  /** `s.replace(/\s+/g, '-')`: every maximal run of white space becomes one dash. */
  function DashRuns(s: string): (r: string)
    ensures |r| <= |s|
    ensures forall k | 0 <= k < |r| :: !IsWhitespace(r[k])
    decreases |s|
  {
    if s == [] then []
    else if IsWhitespace(s[0]) then
      var rest := TrimStart(s);
      assert rest == [] || rest[0] != s[0];
      "-" + DashRuns(rest)
    else [s[0]] + DashRuns(s[1..])
  }

  /** A character that is not white space passes through the replacement untouched. */
  lemma DashRunsCons(c: char, s: string)
    requires !IsWhitespace(c)
    ensures DashRuns([c] + s) == [c] + DashRuns(s)
  {
    var cs := [c] + s;
    assert cs != [] && cs[0] == c && cs[1..] == s;
  }

  /** A piece without white space passes through the replacement untouched. */
  lemma {:induction false} DashRunsPrefix(a: string, b: string)
    requires forall k | 0 <= k < |a| :: !IsWhitespace(a[k])
    ensures DashRuns(a + b) == a + DashRuns(b)
  {
    if a == [] {
      assert a + b == b;
    } else {
      var c, rest := a[0], a[1..];
      assert a + b == [c] + (rest + b);
      assert !IsWhitespace(c);
      DashRunsCons(c, rest + b);
      forall k | 0 <= k < |rest| ensures !IsWhitespace(rest[k]) {
        assert rest[k] == a[k + 1];
      }
      DashRunsPrefix(rest, b);
      assert [c] + rest == a;
    }
  }

  /** White-space runs are the only thing the replacement changes. */
  lemma DashRunsNoWhitespace(s: string)
    requires forall k | 0 <= k < |s| :: !IsWhitespace(s[k])
    ensures DashRuns(s) == s
  {
    DashRunsPrefix(s, []);
    assert s + [] == s;
  }

  function Slug(s: string): string {
    DashRuns(ToLower(s))
  }

  /** Decimal digit character for 0 <= d < 10. */
  function Digit(d: nat): (c: char)
    requires d < 10
    ensures '0' <= c <= '9'
  {
    ('0' as int + d) as char
  }

  /** Decimal rendering of an index inside a template literal. */
  function NatToString(n: nat): (r: string)
    ensures |r| >= 1
    ensures forall k | 0 <= k < |r| :: '0' <= r[k] <= '9'
  {
    if n < 10 then [Digit(n)] else NatToString(n / 10) + [Digit(n % 10)]
  }

  lemma {:induction false} NatToStringInjective(n: nat, m: nat)
    requires NatToString(n) == NatToString(m)
    ensures n == m
  {
    var a, b := NatToString(n), NatToString(m);
    if n < 10 && m < 10 {
      assert Digit(n) == a[0] == b[0] == Digit(m);
    } else if n >= 10 && m >= 10 {
      assert a[|a| - 1] == Digit(n % 10) && b[|b| - 1] == Digit(m % 10);
      assert NatToString(n / 10) == a[..|a| - 1] == b[..|b| - 1] == NatToString(m / 10);
      NatToStringInjective(n / 10, m / 10);
    }
  }

  /** The separator the title-keyed store puts between title parts. */
  const Bars: string := "||"

  predicate NoBar(s: string) {
    forall k | 0 <= k < |s| :: s[k] != '|'
  }

  function Join2(a: string, b: string): string {
    a + Bars + b
  }

  function Join3(a: string, b: string, c: string): string {
    a + Bars + b + Bars + c
  }

  /** `s.split("||")`: left-to-right, non-overlapping occurrences of the separator. */
  function SplitBars(s: string): (parts: seq<string>)
    ensures |parts| >= 1
    decreases |s|
  {
    if |s| < 2 then [s]
    else if s[0] == '|' && s[1] == '|' then [""] + SplitBars(s[2..])
    else
      var rest := SplitBars(s[1..]);
      [[s[0]] + rest[0]] + rest[1..]
  }

  lemma {:induction false} SplitNoBar(s: string)
    requires NoBar(s)
    ensures SplitBars(s) == [s]
  {
    if |s| >= 2 {
      SplitNoBar(s[1..]);
      assert [s[0]] + s[1..] == s;
    }
  }

  lemma {:induction false} SplitJoin(a: string, b: string)
    requires NoBar(a)
    ensures SplitBars(a + Bars + b) == [a] + SplitBars(b)
  {
    var s := a + Bars + b;
    if a == [] {
      assert s[2..] == b;
    } else {
      assert s[1..] == a[1..] + Bars + b;
      SplitJoin(a[1..], b);
      assert [a[0]] + a[1..] == a;
    }
  }

  /** A key of two bar-free titles splits back into exactly those titles. */
  lemma SplitJoin2(a: string, b: string)
    requires NoBar(a) && NoBar(b)
    ensures SplitBars(Join2(a, b)) == [a, b]
  {
    SplitJoin(a, b);
    SplitNoBar(b);
  }

  /** A key of two bar-free titles and a decimal index splits back into its three parts. */
  lemma SplitJoin3(a: string, b: string, n: nat)
    requires NoBar(a) && NoBar(b)
    ensures SplitBars(Join3(a, b, NatToString(n))) == [a, b, NatToString(n)]
  {
    var c := NatToString(n);
    assert Join3(a, b, c) == a + Bars + (b + Bars + c);
    SplitJoin(a, b + Bars + c);
    SplitJoin(b, c);
    SplitNoBar(c);
  }

  /** With bar-free titles the key `a||b||n` determines a, b and n. */
  lemma Join3Injective(a: string, b: string, n: nat, a': string, b': string, n': nat)
    requires NoBar(a) && NoBar(b) && NoBar(a') && NoBar(b')
    requires Join3(a, b, NatToString(n)) == Join3(a', b', NatToString(n'))
    ensures a == a' && b == b' && n == n'
  {
    SplitJoin3(a, b, n);
    SplitJoin3(a', b', n');
    NatToStringInjective(n, n');
  }

  /** Without that restriction two different title pairs share a key. */
  lemma Join3Collision()
    ensures Join3("a|", "b", NatToString(0)) == Join3("a", "|b", NatToString(0))
  {
  }
}
