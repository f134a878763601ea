/**
 * The few pieces of Python's `str` that the backend and the preprocessor lean on:
 * whitespace stripping, substring search, `replace`, `join`, `split`, `lower`,
 * the `</?p>` tag removal and the decimal rendering of integers.
 */
module Strings {

  /** Python's `str.isspace()`: the ASCII whitespace and separators plus the Unicode spaces. */
  predicate IsSpace(c: char) {
    var n := c as int;
    n == 32 || 9 <= n <= 13 || 28 <= n <= 31 || n == 0x85 || n == 0xA0 || n == 0x1680
    || 0x2000 <= n <= 0x200A || n == 0x2028 || n == 0x2029 || n == 0x202F || n == 0x205F
    || n == 0x3000
  }

  /** `s.lstrip()` */
  function LStrip(s: string): (r: string)
    ensures |r| <= |s| && r == s[|s| - |r|..]
    ensures r == [] || !IsSpace(r[0])
    ensures forall i :: 0 <= i < |s| - |r| ==> IsSpace(s[i])
  {
    if |s| > 0 && IsSpace(s[0]) then LStrip(s[1..]) else s
  }

  /** `s.rstrip()` */
  function RStrip(s: string): (r: string)
    ensures |r| <= |s| && r == s[..|r|]
    ensures r == [] || !IsSpace(r[|r| - 1])
    ensures forall i :: |r| <= i < |s| ==> IsSpace(s[i])
  {
    if |s| > 0 && IsSpace(s[|s| - 1]) then RStrip(s[..|s| - 1]) else s
  }

  /** The number of white-space characters `s.strip()` cuts from the front of `s`. */
  function Leading(s: string): nat {
    |s| - |LStrip(s)|
  }

  /** `s.strip()`: the result is a slice of `s` with no white space at either end, and
      everything cut off on either side is white space. */
  function Strip(s: string): (r: string)
    ensures r == [] || (!IsSpace(r[0]) && !IsSpace(r[|r| - 1]))
    ensures Leading(s) + |r| <= |s| && r == s[Leading(s)..Leading(s) + |r|]
    ensures forall i :: 0 <= i < Leading(s) ==> IsSpace(s[i])
    ensures forall i :: Leading(s) + |r| <= i < |s| ==> IsSpace(s[i])
  {
    RStrip(LStrip(s))
  }

  lemma StripOfStripped(s: string)
    requires s == [] || (!IsSpace(s[0]) && !IsSpace(s[|s| - 1]))
    ensures Strip(s) == s
  {
  }

  /** `s.strip()` is idempotent. */
  lemma StripIdempotent(s: string)
    ensures Strip(Strip(s)) == Strip(s)
  {
    StripOfStripped(Strip(s));
  }

  predicate StartsWith(s: string, prefix: string) {
    |prefix| <= |s| && s[..|prefix|] == prefix
  }

  /** `p` occurs in `s` at index `i`. */
  predicate OccursAt(s: string, p: string, i: int) {
    0 <= i && i + |p| <= |s| && s[i..i + |p|] == p
  }

  /** An occurrence in a suffix is an occurrence in the whole string, shifted. */
  lemma OccursShift(s: string, p: string, off: nat, i: int)
    requires off <= |s|
    ensures OccursAt(s[off..], p, i) <==> 0 <= i && OccursAt(s, p, off + i)
  {
    if 0 <= i && i + |p| <= |s| - off {
      assert s[off..][i..i + |p|] == s[off + i..off + i + |p|];
    }
  }

  /** `s.find(p)`: the first index at which `p` occurs in `s`, or -1. */
  function Find(s: string, p: string): (r: int)
    ensures r == -1 || OccursAt(s, p, r)
    ensures forall i :: 0 <= i && (r == -1 || i < r) ==> !OccursAt(s, p, i)
  {
    if |s| < |p| then -1
    else if s[..|p|] == p then 0
    else
      var k := Find(s[1..], p);
      assert forall i :: 1 <= i ==> (OccursAt(s, p, i) <==> OccursAt(s[1..], p, i - 1));
      if k < 0 then -1 else k + 1
  }

  /** The first occurrence is the one `find` reports. */
  lemma FindIsFirst(s: string, p: string, i: nat)
    requires OccursAt(s, p, i)
    requires forall i' :: 0 <= i' < i ==> !OccursAt(s, p, i')
    ensures Find(s, p) == i
  {
  }

  /** Python's `p in s` for strings. */
  predicate Contains(s: string, p: string) {
    Find(s, p) >= 0
  }

  lemma ContainsAt(s: string, p: string, i: int)
    requires OccursAt(s, p, i)
    ensures Contains(s, p)
  {
  }

  /** Python's `p in s` looks at the front and then at the rest. */
  lemma ContainsUnfold(s: string, p: string)
    ensures Contains(s, p) <==> StartsWith(s, p) || (|s| > 0 && Contains(s[1..], p))
  {
    if |s| > 0 && Contains(s[1..], p) {
      var k := Find(s[1..], p);
      assert s[k + 1..k + 1 + |p|] == s[1..][k..k + |p|];
      ContainsAt(s, p, k + 1);
    }
  }

  /** `s.rfind(c)` for one character: the last index of `c`, or -1. */
  function RFindChar(s: string, c: char): (r: int)
    ensures -1 <= r < |s|
    ensures r >= 0 ==> s[r] == c
    ensures forall i :: r < i < |s| ==> s[i] != c
  {
    if |s| == 0 then -1
    else if s[|s| - 1] == c then |s| - 1
    else RFindChar(s[..|s| - 1], c)
  }

  /** ASCII lower-casing of one character. */
  function LowerChar(c: char): char {
    if 'A' <= c <= 'Z' then (c as int + 32) as char else c
  }

  /** `s.lower()` restricted to ASCII letters. */
  function Lower(s: string): (r: string)
    ensures |r| == |s|
    ensures forall i :: 0 <= i < |s| ==> r[i] == LowerChar(s[i])
  {
    seq(|s|, i requires 0 <= i < |s| => LowerChar(s[i]))
  }

  lemma LowerAppend(a: string, b: string)
    ensures Lower(a + b) == Lower(a) + Lower(b)
  {
  }

  lemma LowerPrefix(s: string, n: nat)
    requires n <= |s|
    ensures Lower(s[..n]) == Lower(s)[..n] && Lower(s[n..]) == Lower(s)[n..]
  {
  }

  /** `s.replace(pat, repl)`: every occurrence, left to right, without overlaps. */
  function ReplaceAll(s: string, pat: string, repl: string): string
    requires |pat| > 0
    decreases |s|
  {
    if |s| < |pat| then s
    else if s[..|pat|] == pat then repl + ReplaceAll(s[|pat|..], pat, repl)
    else [s[0]] + ReplaceAll(s[1..], pat, repl)
  }

  /** `s.replace(pat, repl)` leaves a string without `pat` unchanged. */
  lemma {:induction false} ReplaceAllAbsent(s: string, pat: string, repl: string)
    requires |pat| > 0 && !Contains(s, pat)
    ensures ReplaceAll(s, pat, repl) == s
    decreases |s|
  {
    ContainsUnfold(s, pat);
    if |s| >= |pat| {
      ReplaceAllAbsent(s[1..], pat, repl);
    }
  }

  /** `sep.join(parts)` */
  function Join(parts: seq<string>, sep: string): string {
    if |parts| == 0 then ""
    else if |parts| == 1 then parts[0]
    else parts[0] + sep + Join(parts[1..], sep)
  }

  /** `s.split(c)` with a one-character separator: every occurrence cuts, empty pieces stay. */
  function SplitChar(s: string, c: char): (parts: seq<string>)
    ensures |parts| >= 1
    ensures forall k :: 0 <= k < |parts| ==> c !in parts[k]
    decreases |s|
  {
    var i := Find(s, [c]);
    assert forall j :: 0 <= j < |s| && s[j] == c ==> OccursAt(s, [c], j);
    if i < 0 then [s] else [s[..i]] + SplitChar(s[i + 1..], c)
  }

  /** Splitting on a character and joining with it gives the string back. */
  lemma {:induction false} JoinSplitChar(s: string, c: char)
    ensures Join(SplitChar(s, c), [c]) == s
    decreases |s|
  {
    var i := Find(s, [c]);
    if i >= 0 {
      var rest := SplitChar(s[i + 1..], c);
      JoinSplitChar(s[i + 1..], c);
      assert SplitChar(s, c) == [s[..i]] + rest;
      assert ([s[..i]] + rest)[1..] == rest;
      assert Join(SplitChar(s, c), [c]) == s[..i] + [c] + s[i + 1..];
      assert s[i..i + 1] == [c];
      assert s == s[..i] + [c] + s[i + 1..];
    }
  }

  /** The length of the run of non-space characters at the front of `s`. */
  function WordLength(s: string): (n: nat)
    ensures n <= |s|
    ensures forall i :: 0 <= i < n ==> !IsSpace(s[i])
    ensures n == |s| || IsSpace(s[n])
  {
    if |s| == 0 || IsSpace(s[0]) then 0 else 1 + WordLength(s[1..])
  }

  /** A non-empty run of non-space characters. */
  predicate IsWord(w: string) {
    |w| > 0 && forall i :: 0 <= i < |w| ==> !IsSpace(w[i])
  }

  /** The word at the front of a string that does not start with white space. */
  function FirstWord(t: string): (w: string)
    requires |t| > 0 && !IsSpace(t[0])
    ensures IsWord(w) && |w| <= |t| && w == t[..WordLength(t)]
  {
    t[..WordLength(t)]
  }

  predicate AllWords(words: seq<string>) {
    forall k :: 0 <= k < |words| ==> IsWord(words[k])
  }

  lemma AllWordsCons(w: string, rest: seq<string>)
    requires IsWord(w) && AllWords(rest)
    ensures AllWords([w] + rest)
  {
    assert forall k :: 1 <= k < 1 + |rest| ==> ([w] + rest)[k] == rest[k - 1];
  }

  /** `s.split()` with no argument: the maximal runs of non-space characters. */
  function SplitWhitespace(s: string): (words: seq<string>)
    ensures AllWords(words)
    decreases |s|
  {
    var t := LStrip(s);
    if |t| == 0 then []
    else
      var w := FirstWord(t);
      var rest := SplitWhitespace(t[|w|..]);
      AllWordsCons(w, rest);
      [w] + rest
  }

  /** `re.sub(r'</?p>', '', s)`: one left-to-right pass deleting every `<p>` and `</p>` it meets. */
  function RemovePTags(s: string): (r: string)
    ensures |r| <= |s|
    decreases |s|
  {
    if |s| == 0 then ""
    else if StartsWith(s, "<p>") then RemovePTags(s[3..])
    else if StartsWith(s, "</p>") then RemovePTags(s[4..])
    else [s[0]] + RemovePTags(s[1..])
  }

  predicate HasPTag(s: string) {
    Contains(s, "<p>") || Contains(s, "</p>")
  }

  /** The tag removal changes a string exactly when the string holds a `<p>` or `</p>`. */
  lemma {:induction false} RemovePTagsChanges(s: string)
    ensures RemovePTags(s) == s <==> !HasPTag(s)
    ensures HasPTag(s) ==> |RemovePTags(s)| < |s|
    decreases |s|
  {
    ContainsUnfold(s, "<p>");
    ContainsUnfold(s, "</p>");
    if |s| > 0 && !StartsWith(s, "<p>") && !StartsWith(s, "</p>") {
      RemovePTagsChanges(s[1..]);
    }
  }

  /** `s[:n]` on a list. */
  function Take<T>(xs: seq<T>, n: nat): (r: seq<T>)
    ensures |r| <= n && |r| <= |xs| && r == xs[..|r|]
    ensures |xs| >= n ==> |r| == n
    ensures |xs| < n ==> r == xs
  {
    if |xs| <= n then xs else xs[..n]
  }

  function DigitChar(d: nat): char
    requires d < 10
  {
    ('0' as int + d) as char
  }

  /** `str(n)` for a non-negative integer. */
  function NatToString(n: nat): (s: string)
    ensures |s| >= 1
    ensures forall i :: 0 <= i < |s| ==> '0' <= s[i] <= '9'
    ensures n >= 10 ==> s[0] != '0'
  {
    if n < 10 then [DigitChar(n)] else NatToString(n / 10) + [DigitChar(n % 10)]
  }

  /** `str(i)` for any integer. */
  function IntToString(i: int): (s: string)
    ensures |s| >= 1
    ensures i < 0 <==> s[0] == '-'
  {
    if i < 0 then "-" + NatToString(-i) else NatToString(i)
  }

  /** The value of a string of decimal digits: the inverse of `NatToString`. */
  function DigitsValue(s: string): nat
    requires forall i :: 0 <= i < |s| ==> '0' <= s[i] <= '9'
  {
    if |s| == 0 then 0 else 10 * DigitsValue(s[..|s| - 1]) + (s[|s| - 1] as int - '0' as int)
  }

  lemma {:induction false} NatToStringRoundTrip(n: nat)
    ensures DigitsValue(NatToString(n)) == n
  {
    if n >= 10 {
      NatToStringRoundTrip(n / 10);
      var s := NatToString(n);
      assert s[..|s| - 1] == NatToString(n / 10);
    }
  }
}
