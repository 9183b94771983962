/** The PHP string functions the core relies on, over `string` (a sequence of
    characters; PHP strings are byte strings, and every function here works on
    one unit at a time, as PHP's do). */
module Text {
  import opened Wrappers

  /** str_starts_with */
  predicate StartsWith(s: string, prefix: string) {
    |prefix| <= |s| && s[..|prefix|] == prefix
  }

  /** str_ends_with */
  predicate EndsWith(s: string, suffix: string) {
    |suffix| <= |s| && s[|s| - |suffix|..] == suffix
  }

  /** `needle` occurs in `s` as a contiguous substring (str_contains). */
  ghost predicate Occurs(needle: string, s: string) {
    exists k :: 0 <= k && OccursAt(needle, s, k)
  }

  predicate OccursAt(needle: string, s: string, k: nat) {
    k + |needle| <= |s| && s[k..k + |needle|] == needle
  }

  /** strpos with a one-character needle: the first position of `c`, or none. */
  function IndexOf(s: string, c: char): (r: Option<nat>)
    ensures r.None? <==> c !in s
    ensures r.Some? ==> r.value < |s| && s[r.value] == c && c !in s[..r.value]
  {
    if s == [] then None
    else if s[0] == c then Some(0)
    else
      match IndexOf(s[1..], c)
      case None => None
      case Some(i) =>
        assert s[..i + 1] == [s[0]] + s[1..][..i];
        Some(i + 1)
  }

  /** explode(c, s, 2) on a string that contains `c`: the text before the
      first `c` and everything after it. */
  function SplitFirst(s: string, c: char): (r: (string, string))
    requires c in s
    ensures r.0 + [c] + r.1 == s
    ensures c !in r.0
  {
    var i := IndexOf(s, c).value;
    assert s == s[..i] + [c] + s[i + 1..];
    (s[..i], s[i + 1..])
  }

  /** The characters PHP's trim() removes by default: space, tab, line feed,
      carriage return, NUL and vertical tab. */
  predicate IsTrimmable(c: char) {
    c == ' ' || c == '\t' || c == '\n' || c == '\r' || c as int == 0 || c as int == 11
  }

  function TrimLeft(s: string): (r: string)
    ensures |r| <= |s|
  {
    if s != [] && IsTrimmable(s[0]) then TrimLeft(s[1..]) else s
  }

  function TrimRight(s: string): (r: string)
    ensures |r| <= |s|
  {
    if s != [] && IsTrimmable(s[|s| - 1]) then TrimRight(s[..|s| - 1]) else s
  }

  /** trim(): `s` without its leading and trailing trimmable characters. */
  function Trim(s: string): (r: string)
    ensures |r| <= |s|
  {
    TrimRight(TrimLeft(s))
  }

  predicate AllTrimmable(s: string) {
    forall i :: 0 <= i < |s| ==> IsTrimmable(s[i])
  }

  lemma {:induction false} TrimLeftSpec(s: string)
    ensures var r := TrimLeft(s);
      && r == s[|s| - |r|..]
      && (r == [] || !IsTrimmable(r[0]))
      && AllTrimmable(s[..|s| - |r|])
  {
    if s != [] && IsTrimmable(s[0]) {
      TrimLeftSpec(s[1..]);
      var r := TrimLeft(s);
      assert s[..|s| - |r|] == [s[0]] + s[1..][..|s| - 1 - |r|];
    }
  }

  lemma {:induction false} TrimRightSpec(s: string)
    ensures var r := TrimRight(s);
      && r == s[..|r|]
      && (r == [] || !IsTrimmable(r[|r| - 1]))
      && AllTrimmable(s[|r|..])
  {
    if s != [] && IsTrimmable(s[|s| - 1]) {
      TrimRightSpec(s[..|s| - 1]);
      var r := TrimRight(s);
      assert s[|r|..] == s[..|s| - 1][|r|..] + [s[|s| - 1]];
    }
  }

  /** trim() removes the trimmable characters at both ends and only those: the
      result is the slice s[a..b] of the input with no trimmable character at
      either end, and everything cut off on either side is trimmable. */
  lemma TrimSpec(s: string)
    ensures var r := Trim(s);
      var a := |s| - |TrimLeft(s)|;
      && a + |r| <= |s|
      && r == s[a..a + |r|]
      && (r == [] || (!IsTrimmable(r[0]) && !IsTrimmable(r[|r| - 1])))
      && AllTrimmable(s[..a])
      && AllTrimmable(s[a + |r|..])
  {
    var l := TrimLeft(s);
    TrimLeftSpec(s);
    TrimRightSpec(l);
    var r := TrimRight(l);
    var a := |s| - |l|;
    assert s[a + |r|..] == l[|r|..];
  }

  /** trim() leaves a text alone when neither end is trimmable. */
  lemma TrimKeeps(s: string)
    requires s == [] || (!IsTrimmable(s[0]) && !IsTrimmable(s[|s| - 1]))
    ensures Trim(s) == s
  {
  }

  /** strtoupper since PHP 8.2: only the ASCII letters a-z change. */
  function UpperChar(c: char): char {
    if 'a' <= c <= 'z' then (c as int - 32) as char else c
  }

  function Upper(s: string): (r: string)
    ensures |r| == |s|
    ensures forall i :: 0 <= i < |s| ==> r[i] == UpperChar(s[i])
  {
    if s == [] then [] else [UpperChar(s[0])] + Upper(s[1..])
  }

  /** str_replace with a one-character search and a one-character replacement. */
  function ReplaceChar(s: string, from: char, to: char): (r: string)
    ensures |r| == |s|
    ensures forall i :: 0 <= i < |s| ==> r[i] == if s[i] == from then to else s[i]
  {
    if s == [] then [] else [if s[0] == from then to else s[0]] + ReplaceChar(s[1..], from, to)
  }

  /** str_replace(pattern, replacement, s): every occurrence of `pattern`,
      scanning left to right without overlaps, is replaced. */
  function ReplaceAll(s: string, pattern: string, replacement: string): string
    requires pattern != []
    decreases |s|
  {
    if |s| < |pattern| then s
    else if s[..|pattern|] == pattern then replacement + ReplaceAll(s[|pattern|..], pattern, replacement)
    else [s[0]] + ReplaceAll(s[1..], pattern, replacement)
  }

  /** A string without the pattern is left as it is. */
  lemma {:induction false} ReplaceAllAbsent(s: string, pattern: string, replacement: string)
    requires pattern != []
    requires !Occurs(pattern, s)
    ensures ReplaceAll(s, pattern, replacement) == s
  {
    if |s| >= |pattern| {
      assert !OccursAt(pattern, s, 0);
      assert s[0..|pattern|] == s[..|pattern|];
      assert !Occurs(pattern, s[1..]) by {
        forall k: nat
          ensures OccursAt(pattern, s[1..], k) == OccursAt(pattern, s, k + 1)
        {
          if k + |pattern| <= |s[1..]| {
            assert s[1..][k..k + |pattern|] == s[k + 1..k + 1 + |pattern|];
          }
        }
      }
      ReplaceAllAbsent(s[1..], pattern, replacement);
    }
  }

  /** A text without curly braces. */
  predicate BraceFree(t: string) {
    '{' !in t && '}' !in t
  }

  /** A prefix without `{` is copied as it is when the pattern starts with
      `{`: no occurrence of the pattern can start inside it. */
  lemma {:induction false} ReplaceAllCopiesPrefix(s: string, t: string, pattern: string, replacement: string)
    requires pattern != [] && pattern[0] == '{' && '{' !in t && StartsWith(s, t)
    ensures ReplaceAll(s, pattern, replacement) == t + ReplaceAll(s[|t|..], pattern, replacement)
    decreases |t|
  {
    if t != [] {
      assert s[0] == t[0];
      if |s| >= |pattern| {
        assert s[..|pattern|][0] != pattern[0];
        ReplaceAllCopiesPrefix(s[1..], t[1..], pattern, replacement);
        assert s[1..][|t| - 1..] == s[|t|..];
        assert [s[0]] + (t[1..] + ReplaceAll(s[|t|..], pattern, replacement)) == t + ReplaceAll(s[|t|..], pattern, replacement);
      } else {
        assert ReplaceAll(s[|t|..], pattern, replacement) == s[|t|..];
        assert s == t + s[|t|..];
      }
    }
  }

  /** Two brace-delimited placeholders with brace-free names that both start
      at position 0 of a text have the same name. */
  lemma PlaceholdersAtSameStart(s: string, p: string, q: string)
    requires BraceFree(p) && BraceFree(q)
    requires OccursAt("{" + p + "}", s, 0) && OccursAt("{" + q + "}", s, 0)
    ensures p == q
  {
    var a, b := "{" + p + "}", "{" + q + "}";
    assert forall j :: 0 <= j < |a| ==> s[j] == a[j];
    assert forall j :: 0 <= j < |b| ==> s[j] == b[j];
    assert forall j :: 1 <= j < |p| + 1 ==> s[j] == p[j - 1] != '}';
    assert forall j :: 1 <= j < |q| + 1 ==> s[j] == q[j - 1] != '}';
    assert s[|p| + 1] == '}' && s[|q| + 1] == '}';
    forall j | 0 <= j < |p| ensures p[j] == q[j] {
      assert a[j + 1] == s[j + 1] == b[j + 1];
    }
  }

  /** An occurrence inside a text is an occurrence inside any text that
      ends with it. */
  lemma OccursAfter(needle: string, x: string, y: string, m: nat)
    requires OccursAt(needle, x, m)
    ensures OccursAt(needle, y + x, |y| + m)
  {
    assert (y + x)[|y| + m..|y| + m + |needle|] == x[m..m + |needle|];
  }

  /** An occurrence at or after position d is an occurrence in s[d..]. */
  lemma OccursInTail(needle: string, s: string, k: nat, d: nat)
    requires OccursAt(needle, s, k) && d <= k
    ensures OccursAt(needle, s[d..], k - d)
  {
    assert s[d..][k - d..k - d + |needle|] == s[k..k + |needle|];
  }

  /** Replacing one placeholder `{q}` leaves every occurrence of another
      placeholder `{p}` in place, whatever the replacement text. */
  lemma {:induction false} PlaceholderSurvives(s: string, p: string, q: string, replacement: string, k: nat)
    requires BraceFree(p) && BraceFree(q) && p != q
    requires OccursAt("{" + p + "}", s, k)
    ensures Occurs("{" + p + "}", ReplaceAll(s, "{" + q + "}", replacement))
    decreases |s|
  {
    var a, b := "{" + p + "}", "{" + q + "}";
    if |s| < |b| {
      assert OccursAt(a, ReplaceAll(s, b, replacement), k);
    } else if s[..|b|] == b {
      NoPlaceholderInside(s, p, q, k);
      OccursInTail(a, s, k, |b|);
      PlaceholderSurvives(s[|b|..], p, q, replacement, k - |b|);
      var m :| 0 <= m && OccursAt(a, ReplaceAll(s[|b|..], b, replacement), m);
      OccursAfter(a, ReplaceAll(s[|b|..], b, replacement), replacement, m);
    } else if k == 0 {
      var t := p + "}";
      assert s[1..][..|t|] == t by {
        assert s[..|a|] == a;
      }
      ReplaceAllCopiesPrefix(s[1..], t, b, replacement);
      assert ReplaceAll(s, b, replacement)[..|a|] == [s[0]] + t == a;
      assert OccursAt(a, ReplaceAll(s, b, replacement), 0);
    } else {
      OccursInTail(a, s, k, 1);
      PlaceholderSurvives(s[1..], p, q, replacement, k - 1);
      var m :| 0 <= m && OccursAt(a, ReplaceAll(s[1..], b, replacement), m);
      OccursAfter(a, ReplaceAll(s[1..], b, replacement), [s[0]], m);
    }
  }

  /** A placeholder `{p}` cannot start inside an occurrence of a different
      placeholder `{q}` at the start of the text. */
  lemma NoPlaceholderInside(s: string, p: string, q: string, k: nat)
    requires BraceFree(p) && BraceFree(q) && p != q
    requires OccursAt("{" + p + "}", s, k) && OccursAt("{" + q + "}", s, 0)
    ensures k >= |q| + 2
  {
    var a, b := "{" + p + "}", "{" + q + "}";
    if k == 0 {
      PlaceholdersAtSameStart(s, p, q);
    } else {
      assert s[k] == s[k..k + |a|][0] == '{';
      assert forall j :: 1 <= j < |b| ==> s[j] == s[..|b|][j] == b[j] != '{';
    }
  }

  /** implode(sep, parts) */
  function Join(parts: seq<string>, sep: char): string
  {
    if parts == [] then []
    else if |parts| == 1 then parts[0]
    else parts[0] + [sep] + Join(parts[1..], sep)
  }

  lemma JoinCons(first: string, rest: seq<string>, sep: char)
    ensures Join([first] + rest, sep) == if rest == [] then first else first + [sep] + Join(rest, sep)
  {
    assert ([first] + rest)[1..] == rest;
  }

  predicate IsDigit(c: char) {
    '0' <= c <= '9'
  }

  predicate IsDigits(s: string) {
    forall i :: 0 <= i < |s| ==> IsDigit(s[i])
  }

  function DigitValue(c: char): nat
    requires IsDigit(c)
  {
    c as int - '0' as int
  }

  function DigitChar(d: nat): char
    requires d < 10
  {
    ('0' as int + d) as char
  }

  /** The number a string of decimal digits denotes. */
  function DecimalValue(s: string): nat
    requires IsDigits(s)
  {
    if s == [] then 0 else 10 * DecimalValue(s[..|s| - 1]) + DigitValue(s[|s| - 1])
  }

  /** A natural number in decimal, without leading zeros. */
  function NatText(n: nat): (r: string)
    ensures r != [] && IsDigits(r)
  {
    if n < 10 then [DigitChar(n)] else NatText(n / 10) + [DigitChar(n % 10)]
  }

  /** An integer as PHP prints it: decimal, with a leading '-' when negative. */
  function IntText(i: int): string {
    if i < 0 then "-" + NatText(-i) else NatText(i)
  }

  /** Decimal digits in canonical form: "0", or no leading zero. */
  predicate CanonicalDigits(s: string) {
    s != [] && IsDigits(s) && (s[0] != '0' || |s| == 1)
  }

  lemma {:induction false} DecimalValueAtLeastLead(s: string)
    requires s != [] && IsDigits(s)
    ensures DecimalValue(s) >= DigitValue(s[0])
  {
    if |s| > 1 {
      var t := s[..|s| - 1];
      assert t[0] == s[0];
      DecimalValueAtLeastLead(t);
    }
  }

  /** Printing the value of canonical digits gives the digits back. */
  lemma {:induction false} DecimalRoundTrip(s: string)
    requires CanonicalDigits(s)
    ensures NatText(DecimalValue(s)) == s
  {
    var t := s[..|s| - 1];
    var d := DigitValue(s[|s| - 1]);
    assert DigitChar(d) == s[|s| - 1];
    if |s| == 1 {
      assert DecimalValue(t) == 0;
      assert [s[0]] == s;
    } else {
      assert t[0] == s[0] && t[0] != '0';
      DecimalValueAtLeastLead(t);
      DecimalRoundTrip(t);
      var n := DecimalValue(s);
      assert n == 10 * DecimalValue(t) + d;
      assert n / 10 == DecimalValue(t) && n % 10 == d;
      assert s == t + [s[|s| - 1]];
    }
  }
}
