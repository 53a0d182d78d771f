/** The parts of Python's `str` that the relay relies on: `strip()`, the
    ordering `<` used by `min`/`max`, and `min`/`max` of two strings. */
module Strings {

  /** Python's `str.isspace()` for one character: the characters that
      `str.strip()` with no argument removes. */
  predicate IsSpace(c: char) {
    var n := c as int;
    (0x09 <= n <= 0x0D) || (0x1C <= n <= 0x20) || n == 0x85 || n == 0xA0 || n == 0x1680
    || (0x2000 <= n <= 0x200A) || n == 0x2028 || n == 0x2029 || n == 0x202F
    || n == 0x205F || n == 0x3000
  }

  predicate AllSpace(s: string) {
    forall i :: 0 <= i < |s| ==> IsSpace(s[i])
  }

  /** How many white-space characters `s` starts with (LeadingSpaceIs). */
  function LeadingSpace(s: string): (n: nat)
    ensures n <= |s|
  {
    if |s| > 0 && IsSpace(s[0]) then 1 + LeadingSpace(s[1..]) else 0
  }

  /** How many white-space characters `s` ends with (TrailingSpaceIs). */
  function TrailingSpace(s: string): (n: nat)
    ensures n <= |s|
  {
    if |s| > 0 && IsSpace(s[|s| - 1]) then 1 + TrailingSpace(s[..|s| - 1]) else 0
  }

  /** The leading count covers white space only, and stops at the first
      character that is not white space. */
  lemma {:induction false} LeadingSpaceIs(s: string)
    ensures AllSpace(s[..LeadingSpace(s)])
    ensures LeadingSpace(s) == |s| || !IsSpace(s[LeadingSpace(s)])
  {
    if |s| > 0 && IsSpace(s[0]) {
      LeadingSpaceIs(s[1..]);
      var n := LeadingSpace(s);
      assert s[..n] == [s[0]] + s[1..][..n - 1];
    }
  }

  /** The trailing count covers white space only, and stops at the last
      character that is not white space. */
  lemma {:induction false} TrailingSpaceIs(s: string)
    ensures AllSpace(s[|s| - TrailingSpace(s)..])
    ensures TrailingSpace(s) == |s| || !IsSpace(s[|s| - TrailingSpace(s) - 1])
  {
    if |s| > 0 && IsSpace(s[|s| - 1]) {
      TrailingSpaceIs(s[..|s| - 1]);
      var n := TrailingSpace(s);
      assert s[|s| - n..] == s[..|s| - 1][|s| - n..] + [s[|s| - 1]];
    }
  }

  /** `s.lstrip()`: what is left once the leading white space is removed. */
  function StripLeft(s: string): string {
    s[LeadingSpace(s)..]
  }

  /** `s.rstrip()`: what is left once the trailing white space is removed. */
  function StripRight(s: string): string {
    s[..|s| - TrailingSpace(s)]
  }

  /** `s.strip()`: `s` without its leading and trailing white space. */
  function Strip(s: string): string {
    StripRight(StripLeft(s))
  }

  lemma AllSpaceSplit(s: string, i: nat)
    requires i <= |s|
    ensures AllSpace(s) <==> AllSpace(s[..i]) && AllSpace(s[i..])
  {
    if AllSpace(s[..i]) && AllSpace(s[i..]) {
      forall j | 0 <= j < |s| ensures IsSpace(s[j]) {
        if j < i { assert s[j] == s[..i][j]; } else { assert s[j] == s[i..][j - i]; }
      }
    }
  }

  /** What `strip()` keeps neither starts nor ends with white space, and it
      is empty exactly when `s` is white space throughout. */
  lemma StripTrimmed(s: string)
    ensures var r := Strip(s); r == [] || (!IsSpace(r[0]) && !IsSpace(r[|r| - 1]))
    ensures Strip(s) == [] <==> AllSpace(s)
  {
    var left := StripLeft(s);
    LeadingSpaceIs(s);
    TrailingSpaceIs(left);
    AllSpaceSplit(s, LeadingSpace(s));
    if left != [] {
      assert left[0] == s[LeadingSpace(s)];
    }
  }

  /** What `strip()` keeps is a slice of `s` with only white space around it. */
  lemma StripIsSlice(s: string) returns (i: nat)
    ensures i + |Strip(s)| <= |s| && Strip(s) == s[i..i + |Strip(s)|]
    ensures AllSpace(s[..i]) && AllSpace(s[i + |Strip(s)|..])
  {
    var left := StripLeft(s);
    var r := Strip(s);
    LeadingSpaceIs(s);
    TrailingSpaceIs(left);
    i := LeadingSpace(s);
    assert s[i..i + |r|] == left[..|r|];
    assert s[i + |r|..] == left[|r|..];
  }

  /** Python's `a < b` on strings: lexicographic by code point, where a
      proper prefix comes first. (Dafny's own `<` on sequences means
      "proper prefix" only.) */
  predicate Less(a: string, b: string) {
    if a == [] then b != []
    else if b == [] then false
    else if a[0] != b[0] then a[0] < b[0]
    else Less(a[1..], b[1..])
  }

  lemma {:induction false} LessIrreflexive(a: string)
    ensures !Less(a, a)
  {
    if a != [] {
      LessIrreflexive(a[1..]);
    }
  }

  lemma {:induction false} LessAsymmetric(a: string, b: string)
    ensures Less(a, b) ==> !Less(b, a)
  {
    if a != [] && b != [] && a[0] == b[0] {
      LessAsymmetric(a[1..], b[1..]);
    }
  }

  lemma {:induction false} LessTotal(a: string, b: string)
    ensures a != b ==> Less(a, b) || Less(b, a)
  {
    if a != [] && b != [] && a[0] == b[0] {
      assert a == [a[0]] + a[1..] && b == [b[0]] + b[1..];
      LessTotal(a[1..], b[1..]);
    }
  }

  lemma {:induction false} LessTransitive(a: string, b: string, c: string)
    ensures Less(a, b) && Less(b, c) ==> Less(a, c)
  {
    if a != [] && b != [] && c != [] && a[0] == b[0] == c[0] {
      LessTransitive(a[1..], b[1..], c[1..]);
    }
  }

  /** Python's `min(a, b)`: `b` replaces `a` only when `b < a`. The result is
      one of the two and no greater than either. */
  function Min(a: string, b: string): (r: string)
    ensures r == a || r == b
    ensures !Less(a, r) && !Less(b, r)
  {
    LessIrreflexive(a);
    LessIrreflexive(b);
    LessAsymmetric(a, b);
    if Less(b, a) then b else a
  }

  /** Python's `max(a, b)`: `b` replaces `a` only when `b > a`. The result is
      one of the two and no smaller than either. */
  function Max(a: string, b: string): (r: string)
    ensures r == a || r == b
    ensures !Less(r, a) && !Less(r, b)
  {
    LessIrreflexive(a);
    LessIrreflexive(b);
    LessAsymmetric(a, b);
    if Less(a, b) then b else a
  }

  /** The order of the arguments does not matter to `min` and `max`, and the
      two together give back both arguments. */
  lemma MinMaxSymmetric(a: string, b: string)
    ensures Min(a, b) == Min(b, a) && Max(a, b) == Max(b, a)
    ensures {Min(a, b), Max(a, b)} == {a, b}
  {
    LessTotal(a, b);
    LessAsymmetric(a, b);
  }
}
