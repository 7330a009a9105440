/** String operations the portal relies on, with JavaScript's meaning:
    `includes`, `toLowerCase`, `trim`, `split`, `Number(...)`, `toString`,
    `padStart` and the `<` comparison of strings. */
module Strings {

  datatype Option<+T> = None | Some(value: T)

  // ---------------------------------------------------------------------------
  // includes

  /** `needle` sits in `hay` starting at position i. */
  predicate OccursAt(hay: string, needle: string, i: int)
  {
    0 <= i && i + |needle| <= |hay| && hay[i..i + |needle|] == needle
  }

  /** `hay.includes(needle)`: the needle occurs as a contiguous block of hay. */
  predicate Contains(hay: string, needle: string)
  {
    exists i | 0 <= i <= |hay| - |needle| :: OccursAt(hay, needle, i)
  }

  /** Every character of a needle that occurs is a character of the hay. */
  lemma ContainsHasChar(hay: string, needle: string, j: int)
    requires 0 <= j < |needle|
    ensures Contains(hay, needle) ==> needle[j] in hay
  {
    if Contains(hay, needle) {
      var i :| 0 <= i <= |hay| - |needle| && OccursAt(hay, needle, i);
      assert hay[i + j] == hay[i..i + |needle|][j];
    }
  }

  lemma ContainsAt(hay: string, needle: string, i: int)
    requires OccursAt(hay, needle, i)
    ensures Contains(hay, needle)
  {
  }

  /** The first and the last of three joined pieces occur in the whole. */
  lemma ContainsEnds(a: string, b: string, c: string)
    ensures Contains(a + b + c, a) && Contains(a + b + c, c)
  {
    assert OccursAt(a + b + c, a, 0);
    assert OccursAt(a + b + c, c, |a| + |b|);
  }

  /** A needle with a character the hay lacks does not occur in it. */
  lemma LacksChar(hay: string, needle: string, j: int)
    requires 0 <= j < |needle| && needle[j] !in hay
    ensures !Contains(hay, needle)
  {
    ContainsHasChar(hay, needle, j);
  }

  // ---------------------------------------------------------------------------
  // toLowerCase (ASCII letters)

  function LowerChar(c: char): (r: char)
    ensures !('A' <= r <= 'Z')
    ensures !('A' <= c <= 'Z') ==> r == c
  {
    if 'A' <= c <= 'Z' then (c as int + 32) as char else c
  }

  /** `s.toLowerCase()`, restricted to the ASCII letters A-Z. */
  function ToLower(s: string): (r: string)
    ensures |r| == |s|
    ensures forall i :: 0 <= i < |s| ==> r[i] == LowerChar(s[i])
  {
    seq(|s|, i requires 0 <= i < |s| => LowerChar(s[i]))
  }

  lemma ToLowerIdempotent(s: string)
    ensures ToLower(ToLower(s)) == ToLower(s)
  {
  }

  // ---------------------------------------------------------------------------
  // trim

  /** The characters JavaScript's `trim` removes: white space and line terminators. */
  predicate IsWhitespace(c: char)
  {
    c == ' ' || c == '\t' || c == '\n' || c == '\r' || c == '\U{000B}' || c == '\U{000C}'
    || c == '\U{00A0}' || c == '\U{1680}' || ('\U{2000}' <= c <= '\U{200A}')
    || c == '\U{2028}' || c == '\U{2029}' || c == '\U{202F}' || c == '\U{205F}'
    || c == '\U{3000}' || c == '\U{FEFF}'
  }

  /** The number of white-space characters s starts with. */
  function LeadingSpace(s: string): (n: nat)
    ensures n <= |s| && (n == |s| || !IsWhitespace(s[n]))
    ensures forall i :: 0 <= i < n ==> IsWhitespace(s[i])
  {
    if s != [] && IsWhitespace(s[0]) then
      var k := LeadingSpace(s[1..]);
      assert forall i :: 1 <= i < 1 + k ==> s[i] == s[1..][i - 1];
      1 + k
    else 0
  }

  /** The length of s without the white space it ends with. */
  function SolidLength(s: string): (n: nat)
    ensures n <= |s| && (n == 0 || !IsWhitespace(s[n - 1]))
    ensures forall i :: n <= i < |s| ==> IsWhitespace(s[i])
  {
    if s != [] && IsWhitespace(s[|s| - 1]) then SolidLength(s[..|s| - 1]) else |s|
  }

  /** `s.trim()`: the slice of s left after dropping white space at both ends. */
  function Trim(s: string): (r: string)
    ensures exists i :: OccursAt(s, r, i)
    ensures r == [] || (!IsWhitespace(r[0]) && !IsWhitespace(r[|r| - 1]))
  {
    var k := LeadingSpace(s);
    var b := s[k..][..SolidLength(s[k..])];
    assert b == s[k..k + |b|] && OccursAt(s, b, k);
    b
  }

  /** Trim drops white space only: everything before and after the kept
      slice is white space. */
  lemma TrimDropsOnlySpace(s: string)
    ensures var k := LeadingSpace(s);
      && OccursAt(s, Trim(s), k)
      && (forall j :: 0 <= j < k ==> IsWhitespace(s[j]))
      && (forall j :: k + |Trim(s)| <= j < |s| ==> IsWhitespace(s[j]))
  {
    var k := LeadingSpace(s);
    var rest := s[k..];
    var n := SolidLength(rest);
    assert Trim(s) == rest[..n] == s[k..k + n];
    forall j | k + n <= j < |s|
      ensures IsWhitespace(s[j])
    {
      assert s[j] == rest[j - k];
    }
  }

  lemma TrimOfSolid(s: string)
    requires forall i :: 0 <= i < |s| ==> !IsWhitespace(s[i])
    ensures Trim(s) == s
  {
  }

  // ---------------------------------------------------------------------------
  // split

  /** `s.split(sep)` for a one-character separator: the maximal separator-free
      pieces, in order; there is always at least one piece. */
  function Split(s: string, sep: char): (r: seq<string>)
    ensures |r| >= 1
    decreases |s|
  {
    if s == [] then [""]
    else if s[0] == sep then [""] + Split(s[1..], sep)
    else
      var rest := Split(s[1..], sep);
      [[s[0]] + rest[0]] + rest[1..]
  }

  lemma {:induction false} SplitTwo(a: string, b: string, sep: char)
    requires sep !in a && sep !in b
    ensures Split(a + [sep] + b, sep) == [a, b]
    decreases |a|
  {
    if a == [] {
      assert a + [sep] + b == [sep] + b;
      SplitOne(b, sep);
    } else {
      assert (a + [sep] + b)[1..] == a[1..] + [sep] + b;
      SplitTwo(a[1..], b, sep);
      assert [a[0]] + a[1..] == a;
    }
  }

  lemma {:induction false} SplitOne(a: string, sep: char)
    requires sep !in a
    ensures Split(a, sep) == [a]
    decreases |a|
  {
    if a != [] {
      SplitOne(a[1..], sep);
      assert [a[0]] + a[1..] == a;
    }
  }

  // ---------------------------------------------------------------------------
  // Number(...) and toString() on non-negative integers

  predicate IsDigit(c: char) { '0' <= c <= '9' }

  /** Every character is a decimal digit (the empty string included). */
  predicate AllDigits(s: string)
  {
    s == [] || (IsDigit(s[|s| - 1]) && AllDigits(s[..|s| - 1]))
  }

  /** Digits are neither white space nor a colon. */
  lemma {:induction false} DigitsAreSolid(s: string)
    requires AllDigits(s)
    ensures ':' !in s && forall i :: 0 <= i < |s| ==> !IsWhitespace(s[i])
  {
    if s != [] {
      var init := s[..|s| - 1];
      DigitsAreSolid(init);
      DigitIsSolid(s[|s| - 1]);
      assert s == init + [s[|s| - 1]];
    }
  }

  lemma DigitIsSolid(c: char)
    requires IsDigit(c)
    ensures c != ':' && !IsWhitespace(c)
  {
  }

  function DigitValue(c: char): nat requires IsDigit(c) { c as int - '0' as int }

  /** The decimal value of a string of digits; the empty string is 0. */
  function DigitsValue(s: string): nat
    requires AllDigits(s)
  {
    if s == [] then 0 else DigitsValue(s[..|s| - 1]) * 10 + DigitValue(s[|s| - 1])
  }

  /** `Number(s)` for the strings a time field holds: surrounding white space is
      ignored, a run of digits (possibly empty) is its decimal value, anything
      else is NaN, written None. */
  function NumberOf(s: string): (r: Option<nat>)
  {
    var t := Trim(s);
    if AllDigits(t) then Some(DigitsValue(t)) else None
  }

  function DigitChar(d: nat): (c: char)
    requires d < 10
    ensures IsDigit(c) && DigitValue(c) == d
  {
    ('0' as int + d) as char
  }

  /** `n.toString()`: decimal digits without leading zeros. */
  function NatToString(n: nat): (r: string)
    ensures |r| >= 1 && AllDigits(r)
  {
    if n < 10 then [DigitChar(n)]
    else
      var r := NatToString(n / 10) + [DigitChar(n % 10)];
      assert r[..|r| - 1] == NatToString(n / 10);
      r
  }

  /** Printing a number and reading it back gives the number. */
  lemma {:induction false} NatToStringRoundTrip(n: nat)
    ensures DigitsValue(NatToString(n)) == n
  {
    if n >= 10 {
      NatToStringRoundTrip(n / 10);
      var s := NatToString(n);
      assert s[..|s| - 1] == NatToString(n / 10);
    }
  }

  /** `s.padStart(2, '0')`. */
  function PadStart2(s: string): (r: string)
    ensures |r| == if |s| < 2 then 2 else |s|
    ensures r[|r| - |s|..] == s
    ensures forall i :: 0 <= i < |r| - |s| ==> r[i] == '0'
  {
    if |s| >= 2 then s else if |s| == 1 then "0" + s else "00"
  }

  lemma {:induction false} LeadingZeroValue(s: string)
    requires AllDigits(s)
    ensures AllDigits("0" + s) && DigitsValue("0" + s) == DigitsValue(s)
    decreases |s|
  {
    if s != [] {
      LeadingZeroValue(s[..|s| - 1]);
      assert ("0" + s)[..|s|] == "0" + s[..|s| - 1];
    }
  }

  /** A number printed and padded to two digits still reads back as itself. */
  lemma PaddedNumberValue(n: nat)
    ensures AllDigits(PadStart2(NatToString(n)))
    ensures DigitsValue(PadStart2(NatToString(n))) == n
  {
    var s := NatToString(n);
    NatToStringRoundTrip(n);
    if |s| == 1 {
      LeadingZeroValue(s);
    }
  }

  // ---------------------------------------------------------------------------
  // the `<` comparison of strings

  /** `a < b` on strings: lexicographic by character code. */
  predicate Less(a: string, b: string)
  {
    if a == [] then b != []
    else if b == [] then false
    else if a[0] != b[0] then a[0] < b[0]
    else Less(a[1..], b[1..])
  }

  lemma {:induction false} LessIrreflexive(a: string)
    ensures !Less(a, a)
  {
    if a != [] { LessIrreflexive(a[1..]); }
  }

  lemma {:induction false} LessTrichotomy(a: string, b: string)
    ensures a == b || Less(a, b) || Less(b, a)
  {
    if a != [] && b != [] && a[0] == b[0] {
      LessTrichotomy(a[1..], b[1..]);
      assert a == [a[0]] + a[1..] && b == [b[0]] + b[1..];
    }
  }

  lemma {:induction false} LessTransitive(a: string, b: string, c: string)
    requires Less(a, b) && Less(b, c)
    ensures Less(a, c)
  {
    if a != [] && b != [] && c != [] && a[0] == b[0] && b[0] == c[0] {
      LessTransitive(a[1..], b[1..], c[1..]);
    }
  }
}
