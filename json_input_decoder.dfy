/** Best-effort repair of JSON typed on a command line, where the shell has
    eaten the quotes (`{name: test}` for `{"name": "test"}`): keys are quoted,
    values that are not literals or numbers are quoted, nested objects and
    arrays are repaired recursively, and the result is handed to json_decode. */
module JsonInputDecoder {
  import opened Wrappers
  import opened Text
  import opened PhpArrays

  // ---------------------------------------------------------------------------
  // splitTopLevel

  /** How a character moves splitTopLevel's depth counter: `{` and `[` open,
      `}` and `]` close, both kinds on one counter. */
  function Delta(c: char): int {
    if c == '{' || c == '[' then 1 else if c == '}' || c == ']' then -1 else 0
  }

  /** The counter after reading `s` from zero: openers minus closers, with no
      lower bound. */
  function Depth(s: string): int {
    if s == [] then 0 else Depth(s[..|s| - 1]) + Delta(s[|s| - 1])
  }

  /** splitTopLevel's loop from position `i` on, with the current part
      starting at `start` and the counter at `level`: the parts it still adds. */
  function Scan(s: string, sep: char, start: nat, i: nat, level: int): (parts: seq<string>)
    requires start <= i <= |s|
    decreases |s| - i
  {
    if i == |s| then
      if start < |s| then [s[start..]] else []
    else if s[i] == '{' || s[i] == '[' then Scan(s, sep, start, i + 1, level + 1)
    else if s[i] == '}' || s[i] == ']' then Scan(s, sep, start, i + 1, level - 1)
    else if s[i] == sep && level == 0 then [s[start..i]] + Scan(s, sep, i + 1, i + 1, level)
    else Scan(s, sep, start, i + 1, level)
  }

  /** The parts splitTopLevel returns. */
  function TopLevelParts(s: string, sep: char): (parts: seq<string>)
  {
    Scan(s, sep, 0, 0, 0)
  }

  lemma {:induction false} ScanBound(s: string, sep: char, start: nat, i: nat, level: int)
    requires start <= i <= |s|
    ensures forall p :: p in Scan(s, sep, start, i, level) ==> |p| <= |s| - start
    decreases |s| - i
  {
    if i < |s| {
      var c := s[i];
      if c == '{' || c == '[' {
        ScanBound(s, sep, start, i + 1, level + 1);
      } else if c == '}' || c == ']' {
        ScanBound(s, sep, start, i + 1, level - 1);
      } else if c == sep && level == 0 {
        var rest := Scan(s, sep, i + 1, i + 1, level);
        ScanBound(s, sep, i + 1, i + 1, level);
        assert Scan(s, sep, start, i, level) == [s[start..i]] + rest;
        assert forall p :: p in [s[start..i]] + rest ==> p == s[start..i] || p in rest;
      } else {
        ScanBound(s, sep, start, i + 1, level);
      }
    }
  }

  /** No part is longer than the input: the fixers below recurse on parts. */
  lemma PartsShorter(s: string, sep: char)
    ensures forall p :: p in TopLevelParts(s, sep) ==> |p| <= |s|
  {
    ScanBound(s, sep, 0, 0, 0);
  }

  /** splitTopLevel: cut `s` at the separators met while the depth counter is zero. */
  method SplitTopLevel(s: string, sep: char) returns (parts: seq<string>)
    ensures parts == TopLevelParts(s, sep)
  {
    parts := [];
    var start := 0;
    var level := 0;
    for i := 0 to |s|
      invariant start <= i
      invariant parts + Scan(s, sep, start, i, level) == TopLevelParts(s, sep)
    {
      var c := s[i];
      if c == '{' || c == '[' {
        level := level + 1;
      } else if c == '}' || c == ']' {
        level := level - 1;
      } else if c == sep && level == 0 {
        parts := parts + [s[start..i]];
        start := i + 1;
      }
    }
    if start < |s| {
      parts := parts + [s[start..]];
    }
  }

  /** A separator at position `p` that splitTopLevel cuts at: the depth counter
      is zero there (a bracket character is never a separator). */
  predicate TopLevelSeparatorAt(s: string, sep: char, p: nat) {
    p < |s| && s[p] == sep && Delta(sep) == 0 && Depth(s[..p]) == 0
  }

  lemma DepthStep(s: string, i: nat)
    requires i < |s|
    ensures Depth(s[..i + 1]) == Depth(s[..i]) + Delta(s[i])
  {
    assert s[..i + 1][..i] == s[..i];
  }

  lemma {:induction false} ScanEmpty(s: string, sep: char, start: nat, i: nat, level: int)
    requires start <= i <= |s|
    ensures Scan(s, sep, start, i, level) == [] <==> start == |s|
    decreases |s| - i
  {
    if i < |s| {
      var c := s[i];
      if c == '{' || c == '[' {
        ScanEmpty(s, sep, start, i + 1, level + 1);
      } else if c == '}' || c == ']' {
        ScanEmpty(s, sep, start, i + 1, level - 1);
      } else if c == sep && level == 0 {
      } else {
        ScanEmpty(s, sep, start, i + 1, level);
      }
    }
  }

  /** The cut step of ScanJoin: a part ended by a top-level separator in
      front of parts that rebuild the rest. */
  lemma JoinCutStep(s: string, sep: char, start: nat, i: nat, rest: seq<string>)
    requires start <= i < |s| && TopLevelSeparatorAt(s, sep, i)
    requires rest == [] <==> i + 1 == |s|
    requires || Join(rest, sep) == s[i + 1..]
             || (Join(rest, sep) + [sep] == s[i + 1..] && TopLevelSeparatorAt(s, sep, |s| - 1))
    ensures || Join([s[start..i]] + rest, sep) == s[start..]
            || (Join([s[start..i]] + rest, sep) + [sep] == s[start..] && TopLevelSeparatorAt(s, sep, |s| - 1))
  {
    assert s[start..] == s[start..i] + [sep] + s[i + 1..];
    JoinCons(s[start..i], rest, sep);
  }

  lemma {:induction false} ScanJoin(s: string, sep: char, start: nat, i: nat, level: int)
    requires start <= i <= |s| && level == Depth(s[..i])
    ensures var parts := Scan(s, sep, start, i, level);
      || Join(parts, sep) == s[start..]
      || (Join(parts, sep) + [sep] == s[start..] && TopLevelSeparatorAt(s, sep, |s| - 1))
    decreases |s| - i
  {
    if i < |s| {
      DepthStep(s, i);
      var c := s[i];
      if c == '{' || c == '[' {
        ScanJoin(s, sep, start, i + 1, level + 1);
      } else if c == '}' || c == ']' {
        ScanJoin(s, sep, start, i + 1, level - 1);
      } else if c == sep && level == 0 {
        ScanJoin(s, sep, i + 1, i + 1, level);
        ScanEmpty(s, sep, i + 1, i + 1, level);
        JoinCutStep(s, sep, start, i, Scan(s, sep, i + 1, i + 1, level));
      } else {
        ScanJoin(s, sep, start, i + 1, level);
      }
    }
  }

  /** Joining the parts with the separator gives the input back, except that a
      trailing top-level separator is dropped; only the empty input has no parts. */
  lemma SplitJoin(s: string, sep: char)
    ensures TopLevelParts(s, sep) == [] <==> s == []
    ensures || Join(TopLevelParts(s, sep), sep) == s
            || (Join(TopLevelParts(s, sep), sep) + [sep] == s && TopLevelSeparatorAt(s, sep, |s| - 1))
  {
    ScanEmpty(s, sep, 0, 0, 0);
    ScanJoin(s, sep, 0, 0, 0);
  }

  lemma {:induction false} ScanShift(s: string, sep: char, a: nat, start: nat, i: nat, level: int)
    requires a <= start <= i <= |s|
    ensures Scan(s, sep, start, i, level) == Scan(s[a..], sep, start - a, i - a, level)
    decreases |s| - i
  {
    var t := s[a..];
    if i < |s| {
      var c := s[i];
      assert t[i - a] == c;
      if c == sep && level == 0 && !(c == '{' || c == '[' || c == '}' || c == ']') {
        ScanShift(s, sep, a, i + 1, i + 1, level);
        assert t[start - a..i - a] == s[start..i];
      } else {
        var next := if c == '{' || c == '[' then level + 1 else if c == '}' || c == ']' then level - 1 else level;
        ScanShift(s, sep, a, start, i + 1, next);
        assert Scan(s, sep, start, i, level) == Scan(s, sep, start, i + 1, next);
        assert Scan(t, sep, start - a, i - a, level) == Scan(t, sep, start - a, i + 1 - a, next);
      }
    } else if start < |s| {
      assert t[start - a..] == s[start..];
    }
  }

  lemma {:induction false} ScanNoCut(s: string, sep: char, start: nat, i: nat, level: int)
    requires start <= i <= |s| && level == Depth(s[..i])
    requires forall q :: i <= q < |s| ==> !TopLevelSeparatorAt(s, sep, q)
    ensures Scan(s, sep, start, i, level) == if start < |s| then [s[start..]] else []
    decreases |s| - i
  {
    if i < |s| {
      DepthStep(s, i);
      assert !TopLevelSeparatorAt(s, sep, i);
      var c := s[i];
      if c == '{' || c == '[' {
        ScanNoCut(s, sep, start, i + 1, level + 1);
      } else if c == '}' || c == ']' {
        ScanNoCut(s, sep, start, i + 1, level - 1);
      } else {
        ScanNoCut(s, sep, start, i + 1, level);
      }
    }
  }

  lemma {:induction false} ScanFirstCut(s: string, sep: char, start: nat, i: nat, level: int, p: nat)
    requires TopLevelSeparatorAt(s, sep, p)
    requires start <= i <= p && level == Depth(s[..i])
    requires forall q :: i <= q < p ==> !TopLevelSeparatorAt(s, sep, q)
    ensures Scan(s, sep, start, i, level) == [s[start..p]] + Scan(s, sep, p + 1, p + 1, 0)
    decreases p - i
  {
    DepthStep(s, i);
    var c := s[i];
    if i == p {
    } else if c == '{' || c == '[' {
      ScanFirstCut(s, sep, start, i + 1, level + 1, p);
    } else if c == '}' || c == ']' {
      ScanFirstCut(s, sep, start, i + 1, level - 1, p);
    } else {
      assert !TopLevelSeparatorAt(s, sep, i);
      ScanFirstCut(s, sep, start, i + 1, level, p);
    }
  }

  /** Without a top-level separator the input stays in one piece (none when empty). */
  lemma NoTopLevelSeparator(s: string, sep: char)
    requires forall q :: 0 <= q < |s| ==> !TopLevelSeparatorAt(s, sep, q)
    ensures TopLevelParts(s, sep) == if s == [] then [] else [s]
  {
    ScanNoCut(s, sep, 0, 0, 0);
  }

  /** At the first top-level separator the input is cut, and the rest is split
      the same way from a zero counter; with NoTopLevelSeparator this is a
      complete recursive definition of splitTopLevel. */
  lemma FirstTopLevelSeparator(s: string, sep: char, p: nat)
    requires TopLevelSeparatorAt(s, sep, p)
    requires forall q :: 0 <= q < p ==> !TopLevelSeparatorAt(s, sep, q)
    ensures TopLevelParts(s, sep) == [s[..p]] + TopLevelParts(s[p + 1..], sep)
  {
    ScanFirstCut(s, sep, 0, 0, 0, p);
    ScanShift(s, sep, p + 1, p + 1, p + 1, 0);
  }

  /** The counter has no lower bound: once it is below zero and no opener
      follows, no later separator is cut at. */
  lemma {:induction false} UnmatchedCloserStopsSplitting(s: string, sep: char, k: nat)
    requires k <= |s| && Depth(s[..k]) < 0
    requires forall q :: k <= q < |s| ==> s[q] != '{' && s[q] != '['
    ensures forall q :: k <= q < |s| ==> !TopLevelSeparatorAt(s, sep, q)
    decreases |s| - k
  {
    if k < |s| {
      DepthStep(s, k);
      UnmatchedCloserStopsSplitting(s, sep, k + 1);
    }
  }

  // ---------------------------------------------------------------------------
  // getMatchingBrace

  /** The closer getMatchingBrace looks for: `}` for `{`, `]` for anything else. */
  function CloserOf(open: char): char {
    if open == '{' then '}' else ']'
  }

  /** getMatchingBrace's loop from position `i` on with counter `level`. */
  function MatchFrom(s: string, open: char, close: char, i: nat, level: int): (r: Option<nat>)
    requires i <= |s|
    ensures r.Some? ==> i <= r.value < |s|
    decreases |s| - i
  {
    if i == |s| then None
    else if s[i] == open then MatchFrom(s, open, close, i + 1, level + 1)
    else if s[i] == close then
      if level - 1 == 0 then Some(i) else MatchFrom(s, open, close, i + 1, level - 1)
    else MatchFrom(s, open, close, i + 1, level)
  }

  /** The position getMatchingBrace returns for the opener at `start`, or none (false). */
  function MatchingBrace(s: string, start: nat): (r: Option<nat>)
    requires start < |s|
    ensures r.Some? ==> start < r.value < |s|
  {
    MatchFrom(s, s[start], CloserOf(s[start]), start + 1, 1)
  }

  /** getMatchingBrace */
  method GetMatchingBrace(s: string, start: nat) returns (r: Option<nat>)
    requires start < |s|
    ensures r == MatchingBrace(s, start)
  {
    var open := s[start];
    var close := CloserOf(open);
    var level := 1;
    for i := start + 1 to |s|
      invariant MatchFrom(s, open, close, i, level) == MatchingBrace(s, start)
    {
      var c := s[i];
      if c == open {
        level := level + 1;
      } else if c == close {
        level := level - 1;
        if level == 0 {
          return Some(i);
        }
      }
    }
    return None;
  }

  /** Openers of one kind minus closers of that kind; the other kind is ignored. */
  function Balance(t: string, open: char, close: char): int {
    if t == [] then 0
    else Balance(t[..|t| - 1], open, close)
         + (if t[|t| - 1] == open then 1 else if t[|t| - 1] == close then -1 else 0)
  }

  /** getMatchingBrace's counter just after reading position `j`, for the
      opener at `start`. */
  function CounterAt(s: string, open: char, close: char, start: nat, j: nat): int
    requires start < j < |s|
  {
    1 + Balance(s[start + 1..j + 1], open, close)
  }

  lemma {:induction false} MatchFromBalance(s: string, open: char, close: char, start: nat, i: nat, level: int)
    requires start < i <= |s| && level == 1 + Balance(s[start + 1..i], open, close) && level > 0
    ensures var r := MatchFrom(s, open, close, i, level);
      && (r.Some? ==> s[r.value] == close && CounterAt(s, open, close, start, r.value) == 0
                      && forall j :: i <= j < r.value ==> CounterAt(s, open, close, start, j) > 0)
      && (r.None? ==> forall j :: i <= j < |s| ==> CounterAt(s, open, close, start, j) > 0)
    decreases |s| - i
  {
    if i < |s| {
      assert s[start + 1..i + 1][..i - start - 1] == s[start + 1..i];
      var c := s[i];
      assert CounterAt(s, open, close, start, i)
          == level + (if c == open then 1 else if c == close then -1 else 0);
      if c == open {
        MatchFromBalance(s, open, close, start, i + 1, level + 1);
      } else if c == close && level - 1 == 0 {
      } else if c == close {
        MatchFromBalance(s, open, close, start, i + 1, level - 1);
      } else {
        MatchFromBalance(s, open, close, start, i + 1, level);
      }
    }
  }

  /** getMatchingBrace finds the first position after `start` where the
      openers of `start`'s kind minus their closers, counted from `start`,
      reach zero; that position holds a closer. It returns none exactly when
      the count stays positive to the end. */
  lemma MatchingBraceFirstZero(s: string, start: nat)
    requires start < |s|
    ensures var r := MatchingBrace(s, start);
      var open, close := s[start], CloserOf(s[start]);
      && (r.Some? ==> s[r.value] == close && CounterAt(s, open, close, start, r.value) == 0
                      && forall j :: start < j < r.value ==> CounterAt(s, open, close, start, j) > 0)
      && (r.None? ==> forall j :: start < j < |s| ==> CounterAt(s, open, close, start, j) > 0)
  {
    MatchFromBalance(s, s[start], CloserOf(s[start]), start, start + 1, 1);
  }

  lemma {:induction false} MatchFromPrefix(s: string, open: char, close: char, i: nat, level: int, n: nat)
    requires i <= n <= |s|
    requires MatchFrom(s, open, close, i, level).Some? && MatchFrom(s, open, close, i, level).value < n
    ensures MatchFrom(s[..n], open, close, i, level) == MatchFrom(s, open, close, i, level)
    decreases n - i
  {
    assert s[..n][i] == s[i];
    if s[i] == open {
      MatchFromPrefix(s, open, close, i + 1, level + 1, n);
    } else if s[i] == close && level - 1 == 0 {
    } else if s[i] == close {
      MatchFromPrefix(s, open, close, i + 1, level - 1, n);
    } else {
      MatchFromPrefix(s, open, close, i + 1, level, n);
    }
  }

  /** The matching closer depends only on the text up to it. */
  lemma MatchingBracePrefix(s: string, start: nat, n: nat)
    requires start < |s| && n <= |s|
    requires MatchingBrace(s, start).Some? && MatchingBrace(s, start).value < n
    ensures MatchingBrace(s[..n], start) == MatchingBrace(s, start)
  {
    MatchFromPrefix(s, s[start], CloserOf(s[start]), start + 1, 1, n);
  }

  // ---------------------------------------------------------------------------
  // fixValue, fixObject, fixArray, fixJson, fixAndDecode

  /** `v` wrapped in double quotes, with nothing escaped. */
  function Quote(v: string): string {
    "\"" + v + "\""
  }

  predicate IsLiteral(v: string) {
    v == "true" || v == "false" || v == "null"
  }

  /** What PHP's is_numeric guarantees about a text it accepts: the text is
      not empty and starts with whitespace, a sign, a digit or a dot. */
  ghost predicate NumericTextsStartPlainly(php: Php) {
    forall t :: php.isNumeric(t) ==>
      t != [] && (IsTrimmable(t[0]) || t[0] as int == 12 || IsDigit(t[0]) || t[0] == '+' || t[0] == '-' || t[0] == '.')
  }

  /** The trimmed key of a pair: the text before its first colon. */
  function PairKey(pair: string): string
    requires ':' in pair
  {
    Trim(pair[..IndexOf(pair, ':').value])
  }

  /** The trimmed value of a pair: the text after its first colon. */
  function PairValue(pair: string): (r: string)
    requires ':' in pair
    ensures |r| < |pair|
  {
    Trim(pair[IndexOf(pair, ':').value + 1..])
  }

  /** The text fixValue returns. */
  function FixedValue(php: Php, value: string): string
    decreases |value|, 0, 0
  {
    var v := Trim(value);
    if IsLiteral(v) || php.isNumeric(v) then v
    else if StartsWith(v, "{") && MatchingBrace(v, 0).Some? then FixedObject(php, v[1..MatchingBrace(v, 0).value])
    else if StartsWith(v, "[") && MatchingBrace(v, 0).Some? then FixedArray(php, v[1..MatchingBrace(v, 0).value])
    else Quote(v)
  }

  /** The text fixObject returns for the interior of an object. */
  function FixedObject(php: Php, inner: string): string
    decreases |inner|, 2, 0
  {
    PartsShorter(inner, ',');
    "{" + Join(FixedPairs(php, TopLevelParts(inner, ','), |inner|), ',') + "}"
  }

  /** The fixed pairs, in order, of the parts that hold a colon. */
  function FixedPairs(php: Php, pairs: seq<string>, bound: nat): seq<string>
    requires forall p :: p in pairs ==> |p| <= bound
    decreases bound, 1, |pairs|
  {
    if pairs == [] then []
    else
      var rest := FixedPairs(php, pairs[1..], bound);
      if ':' in pairs[0] then [Quote(PairKey(pairs[0])) + ":" + FixedValue(php, PairValue(pairs[0]))] + rest
      else rest
  }

  /** The text fixArray returns for the interior of an array. */
  function FixedArray(php: Php, inner: string): string
    decreases |inner|, 2, 0
  {
    PartsShorter(inner, ',');
    "[" + Join(FixedElements(php, TopLevelParts(inner, ','), |inner|), ',') + "]"
  }

  function FixedElements(php: Php, elements: seq<string>, bound: nat): seq<string>
    requires forall e :: e in elements ==> |e| <= bound
    decreases bound, 1, |elements|
  {
    if elements == [] then []
    else [FixedValue(php, Trim(elements[0]))] + FixedElements(php, elements[1..], bound)
  }

  /** substr(s, 1, -1): `s` without its first and last character. */
  function Interior(s: string): string {
    if |s| >= 2 then s[1..|s| - 1] else []
  }

  /** The text fixJson returns. */
  function FixedJson(php: Php, s: string): string {
    if StartsWith(s, "{") then FixedObject(php, Interior(s))
    else if StartsWith(s, "[") then FixedArray(php, Interior(s))
    else s
  }

  /** What fixAndDecode returns: a PHP array or the input string. */
  datatype Decoding = DecodedArray(entries: Entries<Value>) | Original(text: string)

  predicate Bracketed(t: string) {
    (StartsWith(t, "{") && EndsWith(t, "}")) || (StartsWith(t, "[") && EndsWith(t, "]"))
  }

  predicate IsNonEmptyArray(decoded: Option<Value>) {
    decoded.Some? && decoded.value.VArr? && decoded.value.entries != []
  }

  /** The result of fixAndDecode: the input, untrimmed, unless its trimmed
      text is bracketed and the repaired text decodes to a non-empty array. */
  function DecodeResult(php: Php, s: string): (r: Decoding)
    ensures r.Original? ==> r.text == s
    ensures r.DecodedArray? <==> Bracketed(Trim(s)) && IsNonEmptyArray(php.jsonDecode(FixedJson(php, Trim(s)), true))
    ensures r.DecodedArray? ==> php.jsonDecode(FixedJson(php, Trim(s)), true) == Some(VArr(r.entries))
  {
    var t := Trim(s);
    if Bracketed(t) then
      match php.jsonDecode(FixedJson(php, t), true)
      case Some(VArr(entries)) => if entries != [] then DecodedArray(entries) else Original(s)
      case _ => Original(s)
    else Original(s)
  }

  /** fixValue */
  method FixValue(php: Php, value: string) returns (r: string)
    ensures r == FixedValue(php, value)
    decreases |value|, 0
  {
    var v := Trim(value);
    if v == "true" || v == "false" || v == "null" {
      return v;
    } else if php.isNumeric(v) {
      return v;
    } else if StartsWith(v, "{") {
      var end := GetMatchingBrace(v, 0);
      if end.Some? {
        r := FixObject(php, v[1..end.value]);
        return;
      }
    } else if StartsWith(v, "[") {
      var end := GetMatchingBrace(v, 0);
      if end.Some? {
        r := FixArray(php, v[1..end.value]);
        return;
      }
    }
    return Quote(v);
  }

  /** fixObject */
  method FixObject(php: Php, inner: string) returns (r: string)
    ensures r == FixedObject(php, inner)
    decreases |inner|, 1
  {
    var pairs := SplitTopLevel(inner, ',');
    PartsShorter(inner, ',');
    var fixedPairs: seq<string> := [];
    for i := 0 to |pairs|
      invariant fixedPairs + FixedPairs(php, pairs[i..], |inner|) == FixedPairs(php, pairs, |inner|)
    {
      var pair := pairs[i];
      FixedPairsAt(php, pairs, i, |inner|);
      ghost var rest := FixedPairs(php, pairs[i + 1..], |inner|);
      var colon := IndexOf(pair, ':');
      if colon.Some? {
        var key := Trim(pair[..colon.value]);
        var value := Trim(pair[colon.value + 1..]);
        var fixedValue := FixValue(php, value);
        var item := Quote(key) + ":" + fixedValue;
        assert (fixedPairs + [item]) + rest == fixedPairs + ([item] + rest);
        fixedPairs := fixedPairs + [item];
      }
    }
    assert pairs[|pairs|..] == [];
    assert fixedPairs == FixedPairs(php, pairs, |inner|);
    assert FixedObject(php, inner) == "{" + Join(FixedPairs(php, pairs, |inner|), ',') + "}";
    return "{" + Join(fixedPairs, ',') + "}";
  }

  /** The fixed pairs from position i on: the fixed pair i, if it holds a
      colon, before the rest; its value is shorter than the bound. */
  lemma FixedPairsAt(php: Php, pairs: seq<string>, i: nat, bound: nat)
    requires i < |pairs| && forall p :: p in pairs ==> |p| <= bound
    ensures var pair, colon := pairs[i], IndexOf(pairs[i], ':');
      && (colon.Some? ==> |Trim(pair[colon.value + 1..])| < bound)
      && FixedPairs(php, pairs[i..], bound)
         == (if colon.Some? then [Quote(Trim(pair[..colon.value])) + ":" + FixedValue(php, Trim(pair[colon.value + 1..]))]
             else [])
            + FixedPairs(php, pairs[i + 1..], bound)
  {
    assert pairs[i..][1..] == pairs[i + 1..] && pairs[i..][0] == pairs[i];
    assert pairs[i] in pairs;
  }

  /** The fixed elements from position i on: element i fixed, before the
      rest. */
  lemma FixedElementsAt(php: Php, elements: seq<string>, i: nat, bound: nat)
    requires i < |elements| && forall e :: e in elements ==> |e| <= bound
    ensures FixedElements(php, elements[i..], bound)
         == [FixedValue(php, Trim(elements[i]))] + FixedElements(php, elements[i + 1..], bound)
  {
    assert elements[i..][1..] == elements[i + 1..] && elements[i..][0] == elements[i];
  }

  /** fixArray */
  method FixArray(php: Php, inner: string) returns (r: string)
    ensures r == FixedArray(php, inner)
    decreases |inner|, 1
  {
    var elements := SplitTopLevel(inner, ',');
    PartsShorter(inner, ',');
    var fixedElements: seq<string> := [];
    for i := 0 to |elements|
      invariant fixedElements + FixedElements(php, elements[i..], |inner|) == FixedElements(php, elements, |inner|)
    {
      var element := elements[i];
      FixedElementsAt(php, elements, i, |inner|);
      assert element in elements;
      var fixedValue := FixValue(php, Trim(element));
      fixedElements := fixedElements + [fixedValue];
    }
    assert elements[|elements|..] == [];
    assert fixedElements == FixedElements(php, elements, |inner|);
    assert FixedArray(php, inner) == "[" + Join(FixedElements(php, elements, |inner|), ',') + "]";
    return "[" + Join(fixedElements, ',') + "]";
  }

  /** fixJson */
  method FixJson(php: Php, s: string) returns (r: string)
    ensures r == FixedJson(php, s)
  {
    if StartsWith(s, "{") {
      r := FixObject(php, Interior(s));
    } else if StartsWith(s, "[") {
      r := FixArray(php, Interior(s));
    } else {
      r := s;
    }
  }

  /** fixAndDecode */
  method FixAndDecode(php: Php, s: string) returns (r: Decoding)
    ensures r == DecodeResult(php, s)
  {
    var trimmed := Trim(s);
    if Bracketed(trimmed) {
      var fixedText := FixJson(php, trimmed);
      var decoded := php.jsonDecode(fixedText, true);
      if decoded.Some? && decoded.value.VArr? && decoded.value.entries != [] {
        return DecodedArray(decoded.value.entries);
      }
    }
    return Original(s);
  }

  // ---------------------------------------------------------------------------
  // Properties of the repair

  /** The parts that hold a colon, in order. */
  function WithColon(parts: seq<string>): (r: seq<string>)
    ensures forall p :: p in r ==> ':' in p
  {
    if parts == [] then []
    else if ':' in parts[0] then [parts[0]] + WithColon(parts[1..])
    else WithColon(parts[1..])
  }

  lemma {:induction false} FixedPairsFilterMap(php: Php, pairs: seq<string>, bound: nat)
    requires forall p :: p in pairs ==> |p| <= bound
    ensures var kept := WithColon(pairs);
      var fixedPairs := FixedPairs(php, pairs, bound);
      && |fixedPairs| == |kept|
      && forall k :: 0 <= k < |kept| ==> fixedPairs[k] == Quote(PairKey(kept[k])) + ":" + FixedValue(php, PairValue(kept[k]))
    decreases |pairs|
  {
    if pairs != [] {
      assert forall p :: p in pairs[1..] ==> p in pairs;
      FixedPairsFilterMap(php, pairs[1..], bound);
      var kept := WithColon(pairs[1..]);
      var rest := FixedPairs(php, pairs[1..], bound);
      if ':' in pairs[0] {
        var head := Quote(PairKey(pairs[0])) + ":" + FixedValue(php, PairValue(pairs[0]));
        var all := [pairs[0]] + kept;
        assert WithColon(pairs) == all;
        assert FixedPairs(php, pairs, bound) == [head] + rest;
        forall k | 0 <= k < |all|
          ensures ([head] + rest)[k] == Quote(PairKey(all[k])) + ":" + FixedValue(php, PairValue(all[k]))
        {
          if k > 0 {
            assert all[k] == kept[k - 1];
          }
        }
      } else {
        assert WithColon(pairs) == kept;
        assert FixedPairs(php, pairs, bound) == rest;
      }
    }
  }

  /** fixObject drops the top-level parts without a colon and turns each other
      part, in order, into its quoted trimmed key, a colon and its fixed value. */
  lemma FixedObjectPairs(php: Php, inner: string)
    ensures var kept := WithColon(TopLevelParts(inner, ','));
      FixedObject(php, inner) == "{" + Join(seq(|kept|, k requires 0 <= k < |kept| =>
        Quote(PairKey(kept[k])) + ":" + FixedValue(php, PairValue(kept[k]))), ',') + "}"
  {
    PartsShorter(inner, ',');
    var parts := TopLevelParts(inner, ',');
    var kept := WithColon(parts);
    FixedPairsFilterMap(php, parts, |inner|);
    var fixedPairs := FixedPairs(php, parts, |inner|);
    assert fixedPairs == seq(|kept|, k requires 0 <= k < |kept| =>
      Quote(PairKey(kept[k])) + ":" + FixedValue(php, PairValue(kept[k])));
  }

  lemma {:induction false} FixedElementsMap(php: Php, elements: seq<string>, bound: nat)
    requires forall e :: e in elements ==> |e| <= bound
    ensures var fixedElements := FixedElements(php, elements, bound);
      && |fixedElements| == |elements|
      && forall k :: 0 <= k < |elements| ==> fixedElements[k] == FixedValue(php, Trim(elements[k]))
  {
    FixedElementsLength(php, elements, bound);
    forall k | 0 <= k < |elements|
      ensures FixedElements(php, elements, bound)[k] == FixedValue(php, Trim(elements[k]))
    {
      FixedElementAt(php, elements, bound, k);
    }
  }

  lemma {:induction false} FixedElementsLength(php: Php, elements: seq<string>, bound: nat)
    requires forall e :: e in elements ==> |e| <= bound
    ensures |FixedElements(php, elements, bound)| == |elements|
    decreases |elements|
  {
    if elements != [] {
      assert forall e :: e in elements[1..] ==> e in elements;
      FixedElementsLength(php, elements[1..], bound);
    }
  }

  lemma {:induction false} FixedElementAt(php: Php, elements: seq<string>, bound: nat, k: nat)
    requires forall e :: e in elements ==> |e| <= bound
    requires k < |elements|
    ensures |FixedElements(php, elements, bound)| == |elements|
    ensures FixedElements(php, elements, bound)[k] == FixedValue(php, Trim(elements[k]))
    decreases k
  {
    FixedElementsLength(php, elements, bound);
    if k > 0 {
      assert forall e :: e in elements[1..] ==> e in elements;
      FixedElementAt(php, elements[1..], bound, k - 1);
      assert elements[1..][k - 1] == elements[k];
    }
  }

  /** fixArray emits exactly one fixed value per top-level element, in order. */
  lemma FixedArrayElements(php: Php, inner: string)
    ensures var parts := TopLevelParts(inner, ',');
      FixedArray(php, inner) == "[" + Join(seq(|parts|, k requires 0 <= k < |parts| =>
        FixedValue(php, Trim(parts[k]))), ',') + "]"
  {
    PartsShorter(inner, ',');
    var parts := TopLevelParts(inner, ',');
    FixedElementsMap(php, parts, |inner|);
    assert FixedElements(php, parts, |inner|) == seq(|parts|, k requires 0 <= k < |parts| =>
      FixedValue(php, Trim(parts[k])));
  }

  /** A value that opens a bracket with a matching closer is fixed as the
      interior of that object or array. */
  lemma FixedValueBracket(php: Php, value: string)
    requires NumericTextsStartPlainly(php)
    requires Trim(value) != [] && (Trim(value)[0] == '{' || Trim(value)[0] == '[')
    requires MatchingBrace(Trim(value), 0).Some?
    ensures var v := Trim(value);
      var e := MatchingBrace(v, 0).value;
      FixedValue(php, value) == if v[0] == '{' then FixedObject(php, v[1..e]) else FixedArray(php, v[1..e])
  {
    var v := Trim(value);
    assert !php.isNumeric(v);
    assert !IsLiteral(v) by {
      assert v[0] != 't' && v[0] != 'f' && v[0] != 'n';
    }
  }

  /** A value that opens a bracket with a matching closer is fixed as if the
      text after the closer were not there. */
  lemma FixedValueDiscardsTail(php: Php, value: string)
    requires NumericTextsStartPlainly(php)
    requires Trim(value) != [] && (Trim(value)[0] == '{' || Trim(value)[0] == '[')
    requires MatchingBrace(Trim(value), 0).Some?
    ensures FixedValue(php, value) == FixedValue(php, Trim(value)[..MatchingBrace(Trim(value), 0).value + 1])
  {
    var v := Trim(value);
    var e := MatchingBrace(v, 0).value;
    var w := v[..e + 1];
    MatchingBraceFirstZero(v, 0);
    TrimKeeps(w);
    MatchingBracePrefix(v, 0, e + 1);
    var inner := v[1..e];
    assert Trim(w) == w && w[0] == v[0] && w[1..e] == inner;
    assert MatchingBrace(w, 0) == Some(e);
    FixedValueBracket(php, value);
    FixedValueBracket(php, w);
    if v[0] == '{' {
      assert FixedValue(php, value) == FixedObject(php, inner) == FixedValue(php, w);
    } else {
      assert FixedValue(php, value) == FixedArray(php, inner) == FixedValue(php, w);
    }
  }

  /** A value that is a literal or numeric text is kept, trimmed; any other
      value that does not open a matched bracket is quoted verbatim. */
  lemma FixedValueScalars(php: Php, value: string)
    ensures IsLiteral(Trim(value)) || php.isNumeric(Trim(value)) ==> FixedValue(php, value) == Trim(value)
    ensures !IsLiteral(Trim(value)) && !php.isNumeric(Trim(value))
            && (Trim(value) == [] || (Trim(value)[0] != '{' && Trim(value)[0] != '[') || MatchingBrace(Trim(value), 0).None?)
            ==> FixedValue(php, value) == Quote(Trim(value))
  {
  }
}
