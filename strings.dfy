/**
 * The few pieces of java.lang.String, java.lang.Integer and Java `int`
 * arithmetic that the bot's services rely on, written out so that every
 * other module states its behaviour in the same terms.
 */
module Strings {

  datatype Option<T> = None | Some(value: T)

  const INT_MIN: int := -0x8000_0000
  const INT_MAX: int := 0x7FFF_FFFF
  /** 2^32, the modulus of Java `int` arithmetic. */
  const MODULUS: int := 0x1_0000_0000

  /** A value a Java `int` can hold. */
  predicate IsInt(x: int) {
    INT_MIN <= x <= INT_MAX
  }

  /** Java `int` arithmetic: two's-complement wrap-around to 32 bits. */
  function Wrap32(x: int): (r: int)
    ensures IsInt(r)
    ensures (r - x) % 0x1_0000_0000 == 0
    ensures IsInt(x) ==> r == x
  {
    (x - INT_MIN) % 0x1_0000_0000 + INT_MIN
  }

  /** Numbers that differ by a multiple of 2^32 wrap to the same `int`. */
  lemma WrapCongruent(x: int, y: int)
    requires (x - y) % MODULUS == 0
    ensures Wrap32(x) == Wrap32(y)
  {
    var a, b := Wrap32(x), Wrap32(y);
    assert (a - x) % MODULUS == 0 && (b - y) % MODULUS == 0;
    assert (a - b) % MODULUS == 0;
  }

  lemma WrapAdd(a: int, b: int)
    ensures Wrap32(Wrap32(a) + b) == Wrap32(a + b)
  {
    WrapCongruent(Wrap32(a) + b, a + b);
  }

  lemma WrapMul(a: int, b: int)
    ensures Wrap32(Wrap32(a) * b) == Wrap32(a * b)
  {
    var w := Wrap32(a);
    var k := (w - a) / MODULUS;
    assert w - a == MODULUS * k;
    assert w * b - a * b == MODULUS * (k * b) by {
      assert w * b == (a + MODULUS * k) * b;
    }
    WrapCongruent(w * b, a * b);
  }

  /** The numbers `xs` read as the digits of a base-`b` number, most significant first. */
  function Horner(b: int, xs: seq<int>): int
    decreases |xs|
  {
    if xs == [] then 0 else Horner(b, xs[..|xs| - 1]) * b + xs[|xs| - 1]
  }

  // ---------------------------------------------------------------------
  // Prefixes and substrings (String.startsWith, contains, indexOf)
  // ---------------------------------------------------------------------

  predicate StartsWith(s: string, p: string) {
    |p| <= |s| && s[..|p|] == p
  }

  predicate OccursAt(s: string, p: string, i: nat) {
    i + |p| <= |s| && s[i..i + |p|] == p
  }

  /** String.indexOf: the first position at or after `from` where `p` occurs, or -1. */
  function IndexFrom(s: string, p: string, from: nat): (r: int)
    requires from <= |s|
    ensures r == -1 || (from <= r && OccursAt(s, p, r))
    ensures forall j :: from <= j && (r == -1 || j < r) ==> !OccursAt(s, p, j)
    decreases |s| - from
  {
    if OccursAt(s, p, from) then from
    else if from == |s| then -1
    else IndexFrom(s, p, from + 1)
  }

  function IndexOf(s: string, p: string): (r: int)
    ensures r == -1 || (0 <= r && OccursAt(s, p, r))
    ensures forall j: nat :: r == -1 || j < r ==> !OccursAt(s, p, j)
  {
    IndexFrom(s, p, 0)
  }

  /** String.contains */
  predicate Contains(s: string, p: string) {
    IndexOf(s, p) >= 0
  }

  lemma ContainsAt(s: string, p: string, i: nat)
    requires OccursAt(s, p, i)
    ensures Contains(s, p) && IndexOf(s, p) <= i
  {
  }

  /** The text after the first occurrence of `p` (line.substring(line.indexOf(p) + |p|)). */
  function After(s: string, p: string): (r: string)
    requires Contains(s, p)
    ensures |r| <= |s| - |p|
    ensures s == s[..IndexOf(s, p)] + p + r
  {
    var i := IndexOf(s, p);
    assert s == s[..i] + s[i..i + |p|] + s[i + |p|..];
    s[i + |p|..]
  }

  /** The text before the first occurrence of `p` (line.substring(0, line.indexOf(p))). */
  function Before(s: string, p: string): (r: string)
    requires Contains(s, p)
    ensures StartsWith(s, r) && OccursAt(s, p, |r|)
    ensures forall j: nat :: j < |r| ==> !OccursAt(s, p, j)
  {
    s[..IndexOf(s, p)]
  }

  // ---------------------------------------------------------------------
  // Character classes
  // ---------------------------------------------------------------------

  /** The characters String.trim removes: every code point up to U+0020. */
  predicate IsTrimmable(c: char) {
    c <= ' '
  }

  /** The regular-expression class \s: [ \t\n\x0B\f\r]. */
  predicate IsSpace(c: char) {
    c == ' ' || c == '\t' || c == '\n' || c == '\U{0B}' || c == '\U{0C}' || c == '\r'
  }

  /** The line terminators that the regular-expression `.` does not match. */
  predicate IsLineTerminator(c: char) {
    c == '\n' || c == '\r' || c == '\U{85}' || c == '\U{2028}' || c == '\U{2029}'
  }

  predicate IsDigit(c: char) {
    '0' <= c <= '9'
  }

  function ToLowerChar(c: char): char {
    if 'A' <= c <= 'Z' then (c as int + 32) as char else c
  }

  function ToUpperChar(c: char): char {
    if 'a' <= c <= 'z' then (c as int - 32) as char else c
  }

  function ToLower(s: string): (r: string)
    ensures |r| == |s| && forall i :: 0 <= i < |s| ==> r[i] == ToLowerChar(s[i])
  {
    if s == [] then [] else [ToLowerChar(s[0])] + ToLower(s[1..])
  }

  function ToUpper(s: string): (r: string)
    ensures |r| == |s| && forall i :: 0 <= i < |s| ==> r[i] == ToUpperChar(s[i])
  {
    if s == [] then [] else [ToUpperChar(s[0])] + ToUpper(s[1..])
  }

  /** ASCII case-insensitive equality, as regular expressions compiled with CASE_INSENSITIVE use it. */
  predicate EqualsIgnoreCase(a: string, b: string) {
    ToLower(a) == ToLower(b)
  }

  // ---------------------------------------------------------------------
  // String.trim
  // ---------------------------------------------------------------------

  function TrimStart(s: string): (r: string)
    ensures |r| <= |s| && r == s[|s| - |r|..]
    ensures r == [] || !IsTrimmable(r[0])
    ensures forall i :: 0 <= i < |s| - |r| ==> IsTrimmable(s[i])
  {
    if s != [] && IsTrimmable(s[0]) then TrimStart(s[1..]) else s
  }

  function TrimEnd(s: string): (r: string)
    ensures |r| <= |s| && r == s[..|r|]
    ensures r == [] || !IsTrimmable(r[|r| - 1])
    ensures forall i :: |r| <= i < |s| ==> IsTrimmable(s[i])
  {
    if s != [] && IsTrimmable(s[|s| - 1]) then TrimEnd(s[..|s| - 1]) else s
  }

  /** How many characters String.trim strips from the front of `s`. */
  function TrimOffset(s: string): (k: nat)
    ensures k <= |s|
  {
    |s| - |TrimStart(s)|
  }

  /** String.trim: strip every leading and trailing character up to U+0020. */
  function Trim(s: string): (r: string)
    ensures r == [] || (!IsTrimmable(r[0]) && !IsTrimmable(r[|r| - 1]))
    ensures TrimOffset(s) + |r| <= |s| && r == s[TrimOffset(s)..TrimOffset(s) + |r|]
    ensures forall i :: 0 <= i < TrimOffset(s) || TrimOffset(s) + |r| <= i < |s| ==> IsTrimmable(s[i])
  {
    var t := TrimStart(s);
    var r := TrimEnd(t);
    assert r == s[|s| - |t|..|s| - |t| + |r|];
    r
  }

  /** Drop leading characters of the \s class. */
  function SkipSpaces(s: string): (r: string)
    ensures |r| <= |s| && r == s[|s| - |r|..]
    ensures r == [] || !IsSpace(r[0])
  {
    if s != [] && IsSpace(s[0]) then SkipSpaces(s[1..]) else s
  }

  // ---------------------------------------------------------------------
  // Decimal numbers: Integer.toString / String.valueOf(int) and Integer.parseInt
  // ---------------------------------------------------------------------

  function DigitChar(d: nat): (c: char)
    requires d < 10
    ensures IsDigit(c) && c as int - '0' as int == d
  {
    ('0' as int + d) as char
  }

  function NatToString(n: nat): (r: string)
    ensures r != [] && forall i :: 0 <= i < |r| ==> IsDigit(r[i])
  {
    if n < 10 then [DigitChar(n)] else NatToString(n / 10) + [DigitChar(n % 10)]
  }

  /** The decimal rendering Java uses for `int` and `long` values. */
  function IntToString(n: int): (r: string)
    ensures r != []
  {
    if n < 0 then "-" + NatToString(-n) else NatToString(n)
  }

  predicate AllDigits(s: string) {
    forall i :: 0 <= i < |s| ==> IsDigit(s[i])
  }

  function DigitsValue(s: string): nat
    requires AllDigits(s)
  {
    if s == [] then 0 else 10 * DigitsValue(s[..|s| - 1]) + (s[|s| - 1] as int - '0' as int)
  }

  /**
   * Integer.parseInt on decimal text: an optional sign followed by at least one
   * digit, with the value inside the `int` range; anything else is a
   * NumberFormatException, here None.
   */
  function ParseInt(s: string): (r: Option<int>)
    ensures r.Some? ==> IsInt(r.value)
    ensures r.Some? ==> s != [] && (AllDigits(s) || ((s[0] == '-' || s[0] == '+') && |s| > 1 && AllDigits(s[1..])))
  {
    if s == [] then None
    else if s[0] == '-' || s[0] == '+' then
      if |s| > 1 && AllDigits(s[1..]) then
        var m: int := DigitsValue(s[1..]);
        var v: int := if s[0] == '-' then -m else m;
        if IsInt(v) then Some(v) else None
      else None
    else if AllDigits(s) then
      var v := DigitsValue(s);
      if IsInt(v) then Some(v) else None
    else None
  }

  lemma {:induction false} NatToStringValue(n: nat)
    ensures AllDigits(NatToString(n)) && DigitsValue(NatToString(n)) == n
  {
    var r := NatToString(n);
    if n >= 10 {
      NatToStringValue(n / 10);
      assert r[..|r| - 1] == NatToString(n / 10);
    }
  }

  /** Rendering an `int` and parsing it back gives the same value. */
  lemma ParseIntToString(n: int)
    requires IsInt(n)
    ensures ParseInt(IntToString(n)) == Some(n)
  {
    var s := IntToString(n);
    if n < 0 {
      var d := NatToString(-n);
      NatToStringValue(-n);
      assert s == "-" + d && s[0] == '-' && s[1..] == d;
      assert |s| > 1 && AllDigits(s[1..]);
    } else {
      NatToStringValue(n);
      assert IsDigit(s[0]);
      assert s[0] != '-' && s[0] != '+';
    }
  }

  function Spaces(n: nat): (r: string)
    ensures |r| == n && forall i :: 0 <= i < n ==> r[i] == ' '
  {
    if n == 0 then [] else [' '] + Spaces(n - 1)
  }

  /** String.format("%<w>d", n): right-justified in a field of `w` characters. */
  function PadLeft(s: string, w: nat): (r: string)
    ensures |r| == if |s| < w then w else |s|
    ensures r[|r| - |s|..] == s
    ensures forall i :: 0 <= i < |r| - |s| ==> r[i] == ' '
  {
    if |s| < w then
      var r := Spaces(w - |s|) + s;
      assert r[w - |s|..] == s;
      r
    else s
  }

  // ---------------------------------------------------------------------
  // String.compareTo: lexicographic order of characters, a proper prefix first
  // ---------------------------------------------------------------------

  /**
   * The difference of the first characters that differ; when one string is
   * a prefix of the other, the difference of the lengths.
   */
  function Compare(a: string, b: string): (r: int)
    ensures a <= b || b <= a ==> r == |a| - |b|
  {
    if a == [] || b == [] then |a| - |b|
    else if a[0] != b[0] then a[0] as int - b[0] as int
    else Compare(a[1..], b[1..])
  }

  /** a.compareTo(b) < 0 */
  predicate Below(a: string, b: string) {
    Compare(a, b) < 0
  }

  lemma {:induction false} CompareZeroIffEqual(a: string, b: string)
    ensures Compare(a, b) == 0 <==> a == b
  {
    if a != [] && b != [] && a[0] == b[0] {
      CompareZeroIffEqual(a[1..], b[1..]);
      assert a == [a[0]] + a[1..] && b == [b[0]] + b[1..];
    }
  }

  lemma {:induction false} CompareAntisymmetric(a: string, b: string)
    ensures Compare(a, b) < 0 <==> Compare(b, a) > 0
  {
    if a != [] && b != [] && a[0] == b[0] {
      CompareAntisymmetric(a[1..], b[1..]);
    }
  }

  lemma {:induction false} CompareTransitive(a: string, b: string, c: string)
    requires Compare(a, b) < 0 && Compare(b, c) < 0
    ensures Compare(a, c) < 0
  {
    if a != [] && b != [] && c != [] && a[0] == b[0] && b[0] == c[0] {
      CompareTransitive(a[1..], b[1..], c[1..]);
    }
  }

  /** Every two distinct strings are ordered one way or the other. */
  lemma CompareTotal(a: string, b: string)
    ensures a == b || Below(a, b) || Below(b, a)
  {
    CompareZeroIffEqual(a, b);
    CompareAntisymmetric(a, b);
    CompareAntisymmetric(b, a);
  }

  // ---------------------------------------------------------------------
  // Text built line by line
  // ---------------------------------------------------------------------

  /** Each element followed by a newline, as the reply's StringBuilder builds it. */
  function Lines(s: seq<string>): (r: string)
    ensures |r| >= |s|
  {
    if s == [] then [] else s[0] + "\n" + Lines(s[1..])
  }

  lemma {:induction false} LinesAppend(a: seq<string>, b: seq<string>)
    ensures Lines(a + b) == Lines(a) + Lines(b)
  {
    if a != [] {
      LinesAppend(a[1..], b);
      assert (a + b)[0] == a[0] && (a + b)[1..] == a[1..] + b;
      assert Lines(a + b) == a[0] + "\n" + Lines(a[1..] + b);
    } else {
      assert a + b == b;
    }
  }

  /** One more element adds its line at the end. */
  lemma LinesStep(s: seq<string>, i: nat)
    requires i < |s|
    ensures Lines(s[..i + 1]) == Lines(s[..i]) + s[i] + "\n"
  {
    LinesAppend(s[..i], [s[i]]);
    assert s[..i + 1] == s[..i] + [s[i]];
    assert Lines([s[i]]) == s[i] + "\n" + Lines([]);
  }
}
