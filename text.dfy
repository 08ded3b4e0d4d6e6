/**
 * The string operations of Python 2 `str` that the scripts rely on: decimal
 * printing and parsing (`str(n)`, `int(s)`), `zfill`, `endswith`, `in`,
 * `replace`, `strip(chars)`, `split(sep)[0]`, `split(sep)[-1]` and `lower`.
 * Python 2 byte strings are modelled as `string`; `\d` and `lower` are ASCII only.
 */
module Text {

  // ----- decimal digits -----

  predicate IsDigit(c: char) { '0' <= c <= '9' }

  predicate AllDigits(s: string) { forall k :: 0 <= k < |s| ==> IsDigit(s[k]) }

  function DigitChar(d: nat): (c: char)
    requires d < 10
    ensures IsDigit(c)
  {
    ('0' as int + d) as char
  }

  function DigitValue(c: char): nat
    requires IsDigit(c)
  {
    c as int - '0' as int
  }

  /** `int(s)` for a non-empty run of ASCII digits (leading zeros allowed). */
  function DigitsValue(s: string): nat
    requires AllDigits(s)
  {
    if s == [] then 0 else 10 * DigitsValue(s[..|s| - 1]) + DigitValue(s[|s| - 1])
  }

  /** `str(n)` for a non-negative integer. */
  function Str(n: nat): (s: string)
    ensures 1 <= |s| && AllDigits(s)
    ensures |s| > 1 ==> s[0] != '0'
  {
    if n < 10 then [DigitChar(n)] else Str(n / 10) + [DigitChar(n % 10)]
  }

  /** Parsing what `str` printed gives the number back. */
  lemma {:induction false} StrRoundTrip(n: nat)
    ensures DigitsValue(Str(n)) == n
  {
    if n >= 10 {
      var s := Str(n);
      assert s[..|s| - 1] == Str(n / 10);
      StrRoundTrip(n / 10);
    }
  }

  lemma StrInjective(m: nat, n: nat)
    ensures Str(m) == Str(n) ==> m == n
  {
    StrRoundTrip(m);
    StrRoundTrip(n);
  }

  function Zeros(k: nat): (z: string)
    ensures |z| == k && AllDigits(z)
  {
    if k == 0 then [] else Zeros(k - 1) + ['0']
  }

  lemma {:induction false} ZerosValue(k: nat)
    ensures DigitsValue(Zeros(k)) == 0
  {
    if k > 0 {
      assert Zeros(k)[..k - 1] == Zeros(k - 1);
      ZerosValue(k - 1);
    }
  }

  /** Leading zeros do not change the value of a digit run. */
  lemma {:induction false} ZeroPaddedValue(k: nat, s: string)
    requires AllDigits(s)
    ensures AllDigits(Zeros(k) + s) && DigitsValue(Zeros(k) + s) == DigitsValue(s)
  {
    var t := Zeros(k) + s;
    if s == [] {
      assert t == Zeros(k);
      ZerosValue(k);
    } else {
      assert t[..|t| - 1] == Zeros(k) + s[..|s| - 1];
      ZeroPaddedValue(k, s[..|s| - 1]);
    }
  }

  /** `s.zfill(width)` for a digit string: '0's on the left up to `width` characters. */
  function ZFill(s: string, width: nat): (r: string)
    requires AllDigits(s)
    ensures AllDigits(r)
  {
    var pad := if |s| < width then width - |s| else 0;
    ZeroPaddedValue(pad, s);
    Zeros(pad) + s
  }

  /** `zfill` pads to `width` when shorter, keeps `s` as the tail and keeps its value. */
  lemma ZFillSpec(s: string, width: nat)
    requires AllDigits(s)
    ensures |ZFill(s, width)| == if |s| < width then width else |s|
    ensures ZFill(s, width)[|ZFill(s, width)| - |s|..] == s
    ensures DigitsValue(ZFill(s, width)) == DigitsValue(s)
  {
    var pad := if |s| < width then width - |s| else 0;
    ZeroPaddedValue(pad, s);
    assert (Zeros(pad) + s)[pad..] == s;
  }

  // ----- prefixes, suffixes, substrings -----

  predicate EndsWith(s: string, suffix: string) {
    |suffix| <= |s| && s[|s| - |suffix|..] == suffix
  }

  predicate OccursAt(s: string, sub: string, i: nat) {
    i + |sub| <= |s| && s[i..i + |sub|] == sub
  }

  /** Python's `sub in s` for two strings. */
  predicate Contains(s: string, sub: string) {
    exists i: nat :: i <= |s| && OccursAt(s, sub, i)
  }

  // ----- replace -----

  /**
   * `s.replace(pat, rep)`: scanning from the left, every occurrence of `pat`
   * that does not overlap an earlier replaced one becomes `rep`.
   */
  function ReplaceAll(s: string, pat: string, rep: string): string
    requires |pat| > 0
  {
    ReplaceFrom(s, pat, rep, 0)
  }

  /** The scan of `ReplaceAll` from position `i` of `s` on. */
  function ReplaceFrom(s: string, pat: string, rep: string, i: nat): string
    requires |pat| > 0 && i <= |s|
    decreases |s| - i
  {
    if |s| - i < |pat| then s[i..]
    else if OccursAt(s, pat, i) then rep + ReplaceFrom(s, pat, rep, i + |pat|)
    else [s[i]] + ReplaceFrom(s, pat, rep, i + 1)
  }

  /** With no occurrence of `pat` from `i` on, the scan copies the rest of `s`. */
  lemma {:induction false} ReplaceFromAbsent(s: string, pat: string, rep: string, i: nat)
    requires |pat| > 0 && i <= |s|
    requires forall j: nat :: i <= j <= |s| ==> !OccursAt(s, pat, j)
    ensures ReplaceFrom(s, pat, rep, i) == s[i..]
    decreases |s| - i
  {
    if |s| - i >= |pat| {
      ReplaceFromAbsent(s, pat, rep, i + 1);
      assert s[i..] == [s[i]] + s[i + 1..];
    }
  }

  /** A string without `pat` in it comes back unchanged. */
  lemma ReplaceAllAbsent(s: string, pat: string, rep: string)
    requires |pat| > 0 && !Contains(s, pat)
    ensures ReplaceAll(s, pat, rep) == s
  {
    ReplaceFromAbsent(s, pat, rep, 0);
  }

  /**
   * From `i` to the next occurrence (at `k`) the scan copies `s`, then
   * writes `rep` and resumes right after the occurrence.
   */
  lemma {:induction false} ReplaceFromNext(s: string, pat: string, rep: string, i: nat, k: nat)
    requires |pat| > 0 && i <= k && OccursAt(s, pat, k)
    requires forall j: nat :: i <= j < k ==> !OccursAt(s, pat, j)
    ensures ReplaceFrom(s, pat, rep, i) == s[i..k] + rep + ReplaceFrom(s, pat, rep, k + |pat|)
    decreases k - i
  {
    if i < k {
      ReplaceFromNext(s, pat, rep, i + 1, k);
      assert s[i..k] == [s[i]] + s[i + 1..k];
    }
  }

  /**
   * The leftmost occurrence of `pat` (at `k`) is replaced, the text before it
   * is kept, and the scan resumes right after it.
   */
  lemma ReplaceAllLeftmost(s: string, pat: string, rep: string, k: nat)
    requires |pat| > 0 && OccursAt(s, pat, k)
    requires forall i: nat :: i < k ==> !OccursAt(s, pat, i)
    ensures ReplaceAll(s, pat, rep) == s[..k] + rep + ReplaceFrom(s, pat, rep, k + |pat|)
  {
    ReplaceFromNext(s, pat, rep, 0, k);
    assert s[0..k] == s[..k];
  }

  /** Replacing one character by another, from `i` on: one character out per character in. */
  lemma {:induction false} ReplaceCharFrom(s: string, a: char, b: char, i: nat)
    requires i <= |s|
    ensures |ReplaceFrom(s, [a], [b], i)| == |s| - i
    ensures forall k :: i <= k < |s| ==> ReplaceFrom(s, [a], [b], i)[k - i] == (if s[k] == a then b else s[k])
    decreases |s| - i
  {
    if i < |s| {
      ReplaceCharFrom(s, a, b, i + 1);
      assert OccursAt(s, [a], i) <==> s[i] == a by {
        assert s[i..i + 1] == [s[i]];
      }
      var c := if s[i] == a then b else s[i];
      var rest := ReplaceFrom(s, [a], [b], i + 1);
      assert ReplaceFrom(s, [a], [b], i) == [c] + rest;
      assert forall j :: 0 < j < |s| - i ==> ([c] + rest)[j] == rest[j - 1];
    }
  }

  /** Replacing one character by another: same length, every `a` becomes `b`, the rest stays. */
  lemma ReplaceCharSpec(s: string, a: char, b: char)
    ensures |ReplaceAll(s, [a], [b])| == |s|
    ensures forall k :: 0 <= k < |s| ==> ReplaceAll(s, [a], [b])[k] == (if s[k] == a then b else s[k])
  {
    ReplaceCharFrom(s, a, b, 0);
  }

  // ----- strip(chars) -----

  /** How many characters at the front of `s` belong to `cs`. */
  function LeadingIn(s: string, cs: set<char>): (n: nat)
    ensures n <= |s|
    ensures forall k :: 0 <= k < n ==> s[k] in cs
    ensures n < |s| ==> s[n] !in cs
  {
    if |s| > 0 && s[0] in cs then 1 + LeadingIn(s[1..], cs) else 0
  }

  /** How many characters at the back of `s` belong to `cs`. */
  function TrailingIn(s: string, cs: set<char>): (n: nat)
    ensures n <= |s|
    ensures forall k :: |s| - n <= k < |s| ==> s[k] in cs
    ensures n < |s| ==> s[|s| - n - 1] !in cs
  {
    if |s| > 0 && s[|s| - 1] in cs then 1 + TrailingIn(s[..|s| - 1], cs) else 0
  }

  /** `LeadingIn` is the one count whose prefix lies in `cs` and whose next character does not. */
  lemma LeadingInExact(s: string, cs: set<char>, n: nat)
    requires n <= |s| && (forall k :: 0 <= k < n ==> s[k] in cs) && (n < |s| ==> s[n] !in cs)
    ensures LeadingIn(s, cs) == n
  {
  }

  /** `TrailingIn` is the one count whose suffix lies in `cs` and whose previous character does not. */
  lemma TrailingInExact(s: string, cs: set<char>, n: nat)
    requires n <= |s| && (forall k :: |s| - n <= k < |s| ==> s[k] in cs) && (n < |s| ==> s[|s| - n - 1] !in cs)
    ensures TrailingIn(s, cs) == n
  {
  }

  /** `s[i..j]` is what is left once every end character in `cs` is removed. */
  ghost predicate StrippedAt(s: string, cs: set<char>, i: nat, j: nat) {
    && i <= j <= |s|
    && (forall k :: 0 <= k < i ==> s[k] in cs)
    && (forall k :: j <= k < |s| ==> s[k] in cs)
    && (i < j ==> s[i] !in cs && s[j - 1] !in cs)
  }

  /**
   * `s.strip(chars)`: removes the characters of the SET `cs` from both ends;
   * it does not remove a suffix (`'anim.ma'.strip('.ma') == 'ni'`).
   */
  function Strip(s: string, cs: set<char>): string {
    var i := LeadingIn(s, cs);
    var t := s[i..];
    t[..|t| - TrailingIn(t, cs)]
  }

  /** What `Strip` keeps is a slice of `s` whose removed ends are all in `cs` and whose own ends are not. */
  lemma StripSpec(s: string, cs: set<char>)
    ensures exists i: nat, j: nat :: StrippedAt(s, cs, i, j) && Strip(s, cs) == s[i..j]
  {
    var i := LeadingIn(s, cs);
    var t := s[i..];
    var j := |t| - TrailingIn(t, cs);
    assert StrippedAt(s, cs, i, i + j);
  }

  /** The characters of a Python string literal, as a set. */
  function CharSet(chars: string): set<char> {
    set k | 0 <= k < |chars| :: chars[k]
  }

  // ----- split -----

  /** `s.split(sep)[-1]`: the text after the last `sep`, or all of `s`. */
  function AfterLast(s: string, sep: char): string {
    if |s| == 0 then []
    else if s[|s| - 1] == sep then []
    else AfterLast(s[..|s| - 1], sep) + [s[|s| - 1]]
  }

  /** `AfterLast` is a suffix without `sep`, preceded by `sep` unless it is all of `s`. */
  lemma {:induction false} AfterLastSpec(s: string, sep: char)
    ensures var r := AfterLast(s, sep);
      && |r| <= |s| && s[|s| - |r|..] == r
      && (forall k :: 0 <= k < |r| ==> r[k] != sep)
      && (|r| < |s| ==> s[|s| - |r| - 1] == sep)
  {
    if |s| > 0 && s[|s| - 1] != sep {
      var t := s[..|s| - 1];
      AfterLastSpec(t, sep);
      var r := AfterLast(t, sep);
      assert s[|s| - |r| - 1..] == t[|t| - |r|..] + [s[|s| - 1]];
      assert |r| < |t| ==> s[|s| - |r| - 2] == t[|t| - |r| - 1];
    }
  }

  /** `s.split(sep)[0]`: the text before the first `sep`, or all of `s`. */
  function BeforeFirst(s: string, sep: char): (r: string)
    ensures |r| <= |s| && s[..|r|] == r
    ensures forall k :: 0 <= k < |r| ==> r[k] != sep
    ensures |r| < |s| ==> s[|r|] == sep
  {
    if |s| == 0 then []
    else if s[0] == sep then []
    else [s[0]] + BeforeFirst(s[1..], sep)
  }

  // ----- lower -----

  function LowerChar(c: char): char {
    if 'A' <= c <= 'Z' then (c as int + 32) as char else c
  }

  /** Python 2 `str.lower()`: ASCII upper-case letters become lower-case. */
  function Lower(s: string): string {
    seq(|s|, k requires 0 <= k < |s| => LowerChar(s[k]))
  }

  lemma LowerSpec(s: string)
    ensures |Lower(s)| == |s|
    ensures forall k :: 0 <= k < |s| ==> !('A' <= Lower(s)[k] <= 'Z')
    ensures Lower(Lower(s)) == Lower(s)
    ensures forall k :: 0 <= k < |s| && !('A' <= s[k] <= 'Z') ==> Lower(s)[k] == s[k]
  {
  }
}
