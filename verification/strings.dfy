/**
 * Character classes and string helpers shared by the scanners.
 *
 * Python's `re` classes are Unicode-aware; here they are restricted to ASCII:
 * `\d` is 0-9, `\w` is letters, digits and `_`, and `\s` is the ASCII
 * whitespace that Python's `str.isspace` accepts.
 */
module Strings {

  predicate IsDigit(c: char) { '0' <= c <= '9' }

  predicate IsUpper(c: char) { 'A' <= c <= 'Z' }

  predicate IsLower(c: char) { 'a' <= c <= 'z' }

  /** Python's `\w` on ASCII text. */
  predicate IsWordChar(c: char) { IsDigit(c) || IsUpper(c) || IsLower(c) || c == '_' }

  /** Python's `\s` on ASCII text: tab, newline, vertical tab, form feed, return, the four separators, space. */
  predicate IsSpace(c: char) { ('\t' <= c <= '\r') || ((28 as char) <= c <= ' ') }

  predicate AllDigits(s: string) { forall i :: 0 <= i < |s| ==> IsDigit(s[i]) }

  function ToLowerChar(c: char): char { if IsUpper(c) then (c as int + 32) as char else c }

  function ToUpperChar(c: char): char { if IsLower(c) then (c as int - 32) as char else c }

  /** Python's `str.lower()` on ASCII letters. */
  function Lower(s: string): (r: string)
    ensures |r| == |s|
    ensures forall i :: 0 <= i < |s| ==> r[i] == ToLowerChar(s[i])
  {
    seq(|s|, i requires 0 <= i < |s| => ToLowerChar(s[i]))
  }

  lemma LowerIdempotent(s: string)
    ensures Lower(Lower(s)) == Lower(s)
  {
  }

  /** Python's `str.capitalize()` on ASCII letters: first character upper case, the rest lower case. */
  function Capitalize(s: string): (r: string)
    ensures |r| == |s|
    ensures |s| > 0 ==> r[0] == ToUpperChar(s[0])
    ensures forall i :: 0 < i < |s| ==> r[i] == ToLowerChar(s[i])
  {
    if |s| == 0 then [] else [ToUpperChar(s[0])] + Lower(s[1..])
  }

  /** `capitalize` ignores the case the text had: capitalizing the lower-cased text gives the same result, and lower-casing undoes it. */
  lemma CapitalizeIgnoresCase(s: string)
    ensures Capitalize(Lower(s)) == Capitalize(s)
    ensures Lower(Capitalize(s)) == Lower(s)
  {
  }

  predicate StartsWith(s: string, prefix: string) {
    |prefix| <= |s| && s[..|prefix|] == prefix
  }

  /** `pattern` occurs in `s` starting at index `i`. */
  predicate OccursAt(s: string, pattern: string, i: int) {
    0 <= i && i + |pattern| <= |s| && s[i..i + |pattern|] == pattern
  }

  /** Python's `pattern in s`. */
  predicate Contains(s: string, pattern: string) {
    exists i :: 0 <= i <= |s| && OccursAt(s, pattern, i)
  }

  /** Python's `s.find(pattern, start)`: the first occurrence at or after `start`, or -1. */
  function Find(s: string, pattern: string, start: nat): (r: int)
    ensures r == -1 || (start <= r && OccursAt(s, pattern, r))
    ensures r == -1 ==> forall j :: start <= j ==> !OccursAt(s, pattern, j)
    ensures r != -1 ==> forall j :: start <= j < r ==> !OccursAt(s, pattern, j)
    decreases |s| - start
  {
    if start + |pattern| > |s| then -1
    else if s[start..start + |pattern|] == pattern then start
    else Find(s, pattern, start + 1)
  }

  lemma FindFromZero(s: string, pattern: string)
    ensures Find(s, pattern, 0) != -1 <==> Contains(s, pattern)
  {
  }

  /** The number of occurrences of `c` in `s` (Python's `s.count(c)` for one character). */
  function Count(s: string, c: char): nat
  {
    if |s| == 0 then 0 else Count(s[..|s| - 1], c) + (if s[|s| - 1] == c then 1 else 0)
  }

  lemma CountAppend(a: string, b: string, c: char)
    ensures Count(a + b, c) == Count(a, c) + Count(b, c)
    decreases |b|
  {
    if |b| == 0 {
      assert a + b == a;
    } else {
      assert (a + b)[..|a + b| - 1] == a + b[..|b| - 1];
      CountAppend(a, b[..|b| - 1], c);
    }
  }

  // ---------------------------------------------------------------------------
  // Splitting and joining on a one-character separator
  // ---------------------------------------------------------------------------

  function FirstIndex(s: string, c: char): (i: nat)
    requires c in s
    ensures i < |s| && s[i] == c && c !in s[..i]
  {
    if s[0] == c then 0 else 1 + FirstIndex(s[1..], c)
  }

  /** Python's `s.split(sep)` for a one-character separator. */
  function Split(s: string, sep: char): (parts: seq<string>)
    ensures |parts| >= 1
    ensures forall k :: 0 <= k < |parts| ==> sep !in parts[k]
    decreases |s|
  {
    if sep !in s then [s]
    else
      var i := FirstIndex(s, sep);
      [s[..i]] + Split(s[i + 1..], sep)
  }

  /** Python's `sep.join(parts)`. */
  function Join(parts: seq<string>, sep: char): string
  {
    if |parts| == 0 then []
    else if |parts| == 1 then parts[0]
    else Join(parts[..|parts| - 1], sep) + [sep] + parts[|parts| - 1]
  }

  lemma {:induction false} JoinFront(parts: seq<string>, sep: char)
    requires |parts| >= 2
    ensures Join(parts, sep) == parts[0] + [sep] + Join(parts[1..], sep)
    decreases |parts|
  {
    if |parts| > 2 {
      var init := parts[..|parts| - 1];
      JoinFront(init, sep);
      assert init[1..] == parts[1..][..|parts[1..]| - 1];
    }
  }

  /** Joining a part in front of a non-empty list puts one separator between them. */
  lemma JoinCons(first: string, rest: seq<string>, sep: char)
    requires |rest| >= 1
    ensures Join([first] + rest, sep) == first + [sep] + Join(rest, sep)
  {
    if |rest| == 1 {
      assert ([first] + rest)[..1] == [first];
    } else {
      JoinFront([first] + rest, sep);
      assert ([first] + rest)[1..] == rest;
    }
  }

  /** One step of `Split`: the text before the first separator, then the split of the rest. */
  lemma SplitStep(s: string, sep: char)
    requires sep in s
    ensures Split(s, sep) == [s[..FirstIndex(s, sep)]] + Split(s[FirstIndex(s, sep) + 1..], sep)
  {
  }

  /** A text is the part before any of its positions, the character there, and the part after. */
  lemma Around(s: string, i: nat)
    requires i < |s|
    ensures s == s[..i] + [s[i]] + s[i + 1..]
  {
    assert s[i..] == [s[i]] + s[i + 1..];
    assert s == s[..i] + s[i..];
  }

  /** Splitting and re-joining gives the original text back. */
  lemma {:induction false} JoinSplit(s: string, sep: char)
    ensures Join(Split(s, sep), sep) == s
    decreases |s|
  {
    if sep in s {
      var i := FirstIndex(s, sep);
      SplitStep(s, sep);
      Around(s, i);
      JoinSplit(s[i + 1..], sep);
      JoinCons(s[..i], Split(s[i + 1..], sep), sep);
    }
  }

  lemma FirstIndexAfterPrefix(a: string, sep: char, b: string)
    requires sep !in a
    ensures sep in a + [sep] + b
    ensures FirstIndex(a + [sep] + b, sep) == |a|
    ensures (a + [sep] + b)[..|a|] == a && (a + [sep] + b)[|a| + 1..] == b
  {
    var s := a + [sep] + b;
    assert s[|a|] == sep;
    assert s[..|a|] == a;
  }

  /** Splitting the join of separator-free parts gives the parts back. */
  lemma {:induction false} SplitJoin(parts: seq<string>, sep: char)
    requires |parts| >= 1
    requires forall k :: 0 <= k < |parts| ==> sep !in parts[k]
    ensures Split(Join(parts, sep), sep) == parts
    decreases |parts|
  {
    if |parts| >= 2 {
      JoinFront(parts, sep);
      var tail := Join(parts[1..], sep);
      FirstIndexAfterPrefix(parts[0], sep, tail);
      SplitStep(parts[0] + [sep] + tail, sep);
      SplitJoin(parts[1..], sep);
      assert parts == [parts[0]] + parts[1..];
    }
  }

  /** Joining one more part extends the joined text by a separator and that part. */
  lemma JoinSnoc(parts: seq<string>, last: string, sep: char)
    requires |parts| >= 1
    ensures Join(parts + [last], sep) == Join(parts, sep) + [sep] + last
  {
    assert (parts + [last])[..|parts|] == parts;
  }

  // ---------------------------------------------------------------------------
  // Decimal digits
  // ---------------------------------------------------------------------------

  function DigitValue(c: char): nat
    requires IsDigit(c)
  {
    c as int - '0' as int
  }

  function DigitChar(d: nat): (c: char)
    requires d < 10
    ensures IsDigit(c) && DigitValue(c) == d
  {
    ('0' as int + d) as char
  }

  /** Python's `int(s)` on a string of ASCII digits. */
  function DigitsValue(s: string): nat
    requires AllDigits(s)
  {
    if |s| == 0 then 0 else 10 * DigitsValue(s[..|s| - 1]) + DigitValue(s[|s| - 1])
  }

  /** Python's `str(n)` for a natural number. */
  function NatToString(n: nat): (r: string)
    ensures |r| >= 1 && AllDigits(r)
    ensures DigitsValue(r) == n
    ensures r[0] == '0' ==> n == 0
  {
    if n < 10 then [DigitChar(n)]
    else
      var r := NatToString(n / 10) + [DigitChar(n % 10)];
      assert r[..|r| - 1] == NatToString(n / 10);
      r
  }

  /** The end of the run of digits that starts at `i`. */
  function DigitsEnd(s: string, i: nat): (j: nat)
    requires i <= |s|
    ensures i <= j <= |s|
    ensures forall k :: i <= k < j ==> IsDigit(s[k])
    ensures j == |s| || !IsDigit(s[j])
    decreases |s| - i
  {
    if i == |s| || !IsDigit(s[i]) then i else DigitsEnd(s, i + 1)
  }

  /** A digit run followed by a non-digit (or nothing) ends exactly where the run ends. */
  lemma DigitsEndOfRun(s: string, i: nat, run: string)
    requires i + |run| <= |s| && s[i..i + |run|] == run && AllDigits(run)
    requires i + |run| == |s| || !IsDigit(s[i + |run|])
    ensures DigitsEnd(s, i) == i + |run|
    decreases |run|
  {
    if |run| > 0 {
      assert s[i] == run[0];
      assert s[i + 1..i + 1 + |run[1..]|] == run[1..];
      DigitsEndOfRun(s, i + 1, run[1..]);
    }
  }

  /** Python's `s.rstrip(c)` for one character. */
  function TrimRight(s: string, c: char): (r: string)
    ensures |r| <= |s| && r == s[..|r|]
    ensures |r| == 0 || r[|r| - 1] != c
    ensures forall i :: |r| <= i < |s| ==> s[i] == c
  {
    if |s| == 0 || s[|s| - 1] != c then s else TrimRight(s[..|s| - 1], c)
  }
}
