/**
 The parts of Python's `str` that the pipeline relies on: `isspace`, `strip`,
 `in` (substring test), `replace`, `lower`, decimal digits and zero-padded
 number rendering (`%02d`, `%04d`, `%06d`).
 */
module PyStrings {

  /** Python's `str.isspace()` for one character: the ASCII whitespace and
      separators `\t`..`\r`, the file/group/record/unit separators, and the
      Unicode space separators. It is also what `\s` matches in a `str` regex. */
  predicate IsSpace(c: char) {
    || c == ' '
    || ('\t' <= c <= '\r')
    || ('\U{1C}' <= c <= '\U{1F}')
    || c == '\U{85}' || c == '\U{A0}' || c == '\U{1680}'
    || ('\U{2000}' <= c <= '\U{200A}')
    || c == '\U{2028}' || c == '\U{2029}' || c == '\U{202F}'
    || c == '\U{205F}' || c == '\U{3000}'
  }

  predicate AllSpace(s: string) {
    forall i :: 0 <= i < |s| ==> IsSpace(s[i])
  }

  /** Number of whitespace characters at the front of `s`. */
  function LeadingSpaces(s: string): (n: nat)
    ensures n <= |s|
    ensures AllSpace(s[..n])
    ensures n < |s| ==> !IsSpace(s[n])
  {
    if |s| == 0 || !IsSpace(s[0]) then 0
    else
      var k := LeadingSpaces(s[1..]);
      assert s[1..][..k] == s[1..1 + k];
      1 + k
  }

  /** Number of whitespace characters at the back of `s`. */
  function TrailingSpaces(s: string): (n: nat)
    ensures n <= |s|
    ensures AllSpace(s[|s| - n..])
    ensures n < |s| ==> !IsSpace(s[|s| - n - 1])
  {
    if |s| == 0 || !IsSpace(s[|s| - 1]) then 0
    else
      var k := TrailingSpaces(s[..|s| - 1]);
      assert s[..|s| - 1][|s| - 1 - k..] == s[|s| - 1 - k..|s| - 1];
      1 + k
  }

  /** Python's `s.strip()`: the slice of `s` left once whitespace is removed
      from both ends. */
  function Strip(s: string): (r: string)
    ensures |r| <= |s|
    ensures exists i :: 0 <= i <= |s| - |r| && s[i..i + |r|] == r
                        && AllSpace(s[..i]) && AllSpace(s[i + |r|..])
    ensures r == [] || (!IsSpace(r[0]) && !IsSpace(r[|r| - 1]))
  {
    var i := LeadingSpaces(s);
    var rest := s[i..];
    var j := TrailingSpaces(rest);
    var r := rest[..|rest| - j];
    assert s[i..i + |r|] == r;
    assert s[i + |r|..] == rest[|rest| - j..];
    if j == |rest| then
      assert r == [];
      r
    else
      assert r[0] == s[i];
      r
  }

  /** Stripping a string that neither starts nor ends with whitespace leaves it
      as it is. */
  lemma {:induction false} StripKeepsTrimmed(s: string)
    requires s == [] || (!IsSpace(s[0]) && !IsSpace(s[|s| - 1]))
    ensures Strip(s) == s
  {
    assert LeadingSpaces(s) == 0;
    assert s[0..] == s;
    assert TrailingSpaces(s) == 0;
  }

  /** `strip` is idempotent. */
  lemma StripIdempotent(s: string)
    ensures Strip(Strip(s)) == Strip(s)
  {
    StripKeepsTrimmed(Strip(s));
  }

  /** `sub` occurs in `s` starting at index `i`. */
  predicate OccursAt(sub: string, s: string, i: int) {
    0 <= i <= |s| - |sub| && s[i..i + |sub|] == sub
  }

  /** An occurrence of `sub` fixes the characters of `s` it covers. */
  lemma CharOfOccurrence(sub: string, s: string, i: int, k: nat)
    requires k < |sub|
    ensures OccursAt(sub, s, i) ==> s[i + k] == sub[k]
  {
    if OccursAt(sub, s, i) {
      assert s[i..i + |sub|][k] == s[i + k];
    }
  }

  /** An occurrence in `y` is one in `x + y`, `|x|` places later. */
  lemma OccursAtConcat(sub: string, x: string, y: string, i: int)
    requires OccursAt(sub, y, i)
    ensures OccursAt(sub, x + y, |x| + i)
  {
    assert (x + y)[|x| + i..|x| + i + |sub|] == y[i..i + |sub|];
  }

  /** An occurrence in `x` is one in `x + y`, at the same place. */
  lemma OccursAtExtend(sub: string, x: string, y: string, i: int)
    requires OccursAt(sub, x, i)
    ensures OccursAt(sub, x + y, i)
  {
    assert (x + y)[i..i + |sub|] == x[i..i + |sub|];
  }

  /** An occurrence in `s[1..]` is an occurrence in `s`, one index later. */
  lemma OccursInTail(sub: string, s: string, k: nat)
    requires |s| > 0
    ensures OccursAt(sub, s[1..], k) <==> OccursAt(sub, s, k + 1)
  {
    if 0 <= k <= |s[1..]| - |sub| {
      assert s[1..][k..k + |sub|] == s[k + 1..k + 1 + |sub|];
    }
  }

  /** Python's `sub in s` for two strings. */
  predicate IsSubstring(sub: string, s: string)
    ensures IsSubstring(sub, s) <==> exists i :: OccursAt(sub, s, i)
    decreases |s|
  {
    if sub <= s then
      assert OccursAt(sub, s, 0);
      true
    else if |s| <= |sub| then
      assert s[0..|s|] == s;
      false
    else
      var tail := IsSubstring(sub, s[1..]);
      if tail then
        var k :| OccursAt(sub, s[1..], k);
        OccursInTail(sub, s, k);
        true
      else
        forall i ensures !OccursAt(sub, s, i) {
          if i >= 1 {
            OccursInTail(sub, s, i - 1);
          }
        }
        false
  }

  /** Python's `s.replace(pat, rep)` for a non-empty pattern: every
      non-overlapping occurrence, scanning left to right, is replaced. */
  function ReplaceAll(s: string, pat: string, rep: string): (r: string)
    requires |pat| > 0
    ensures !IsSubstring(pat, s) ==> r == s
    ensures pat <= s ==> rep <= r
    decreases |s|
  {
    if |s| < |pat| then s
    else if pat <= s then rep + ReplaceAll(s[|pat|..], pat, rep)
    else
      var tail := ReplaceAll(s[1..], pat, rep);
      assert !IsSubstring(pat, s) ==> !IsSubstring(pat, s[1..]) by {
        if IsSubstring(pat, s[1..]) {
          var k :| OccursAt(pat, s[1..], k);
          OccursInTail(pat, s, k);
        }
      }
      [s[0]] + tail
  }

  /** Python's `str.lower()` on one character, for the ASCII letters. */
  function LowerChar(c: char): char {
    if 'A' <= c <= 'Z' then (c as int - 'A' as int + 'a' as int) as char else c
  }

  /** Python's `str.lower()`, for the ASCII letters. */
  function Lower(s: string): (r: string)
    ensures |r| == |s|
    ensures forall i :: 0 <= i < |s| ==> r[i] == LowerChar(s[i])
  {
    seq(|s|, i requires 0 <= i < |s| => LowerChar(s[i]))
  }

  predicate IsDigit(c: char) {
    '0' <= c <= '9'
  }

  predicate AllDigits(s: string) {
    forall i :: 0 <= i < |s| ==> IsDigit(s[i])
  }

  function DigitChar(d: nat): (c: char)
    requires d < 10
    ensures IsDigit(c)
  {
    (d + '0' as int) as char
  }

  /** The number a string of decimal digits denotes (Python's `int(s)`). */
  function DigitsValue(s: string): nat
    requires AllDigits(s)
  {
    if |s| == 0 then 0
    else DigitsValue(s[..|s| - 1]) * 10 + (s[|s| - 1] as int - '0' as int)
  }

  function Pow10(n: nat): (p: nat)
    ensures p >= 1
  {
    if n == 0 then 1 else 10 * Pow10(n - 1)
  }

  /** `n` rendered with exactly `width` digits, zero-padded on the left
      (Python's `"%0*d" % (width, n)`). */
  function PadDigits(n: nat, width: nat): (r: string)
    requires n < Pow10(width)
    ensures |r| == width
    ensures AllDigits(r)
    ensures DigitsValue(r) == n
  {
    if width == 0 then ""
    else
      var prefix := PadDigits(n / 10, width - 1);
      var r := prefix + [DigitChar(n % 10)];
      assert r[..|r| - 1] == prefix;
      r
  }

  /** Python's `str(n)` for a natural number: its decimal digits without
      leading zeros ("0" for zero). */
  function NatToString(n: nat): (r: string)
    ensures |r| > 0
    ensures AllDigits(r)
    ensures DigitsValue(r) == n
    ensures r[0] != '0' || n == 0
  {
    if n < 10 then [DigitChar(n)]
    else
      var prefix := NatToString(n / 10);
      var r := prefix + [DigitChar(n % 10)];
      assert r[..|r| - 1] == prefix;
      r
  }
}
