/**
 * The JavaScript string and number built-ins that the posts front end leans on, written out:
 * `toLowerCase` (ASCII letters only), `includes`, `trim`, the UTF-16 `length`,
 * `Number.prototype.toString` on integers, `Number.parseInt` and a code-point
 * lexicographic stand-in for `localeCompare`.
 */
module Text {

  // ---------------------------------------------------------------------------
  // Case folding
  // ---------------------------------------------------------------------------

  /** `toLowerCase` restricted to the ASCII letters A-Z; every other character is kept. */
  function LowerChar(c: char): char {
    if 'A' <= c <= 'Z' then (c as int + 32) as char else c
  }

  function Lower(s: string): (r: string)
    ensures |r| == |s|
    ensures forall i :: 0 <= i < |s| ==> r[i] == LowerChar(s[i])
    ensures forall i :: 0 <= i < |r| ==> !('A' <= r[i] <= 'Z')
    ensures forall i :: 0 <= i < |s| && !('A' <= s[i] <= 'Z') ==> r[i] == s[i]
  {
    seq(|s|, i requires 0 <= i < |s| => LowerChar(s[i]))
  }

  // ---------------------------------------------------------------------------
  // Substring search
  // ---------------------------------------------------------------------------

  /** `sub` occurs in `s` starting at index `i`. */
  ghost predicate OccursAt(s: string, sub: string, i: int) {
    0 <= i && i + |sub| <= |s| && s[i..i + |sub|] == sub
  }

  /** `s.includes(sub)`: the empty string occurs in every string. */
  function Contains(s: string, sub: string): (r: bool)
    ensures sub == [] ==> r
    ensures r ==> |sub| <= |s|
    ensures s == sub ==> r
  {
    if |sub| > |s| then false
    else s[..|sub|] == sub || Contains(s[1..], sub)
  }

  /** `Contains` agrees with the definition of an occurrence at some index. */
  lemma {:induction false} ContainsIff(s: string, sub: string)
    ensures Contains(s, sub) <==> exists i :: OccursAt(s, sub, i)
    decreases |s|
  {
    if |sub| > |s| {
      assert !exists i :: OccursAt(s, sub, i);
    } else if s[..|sub|] == sub {
      assert OccursAt(s, sub, 0);
    } else {
      ContainsIff(s[1..], sub);
      if exists i :: OccursAt(s[1..], sub, i) {
        var i :| OccursAt(s[1..], sub, i);
        assert s[1..][i..i + |sub|] == s[i + 1..i + 1 + |sub|];
        assert OccursAt(s, sub, i + 1);
      }
      if exists i :: OccursAt(s, sub, i) {
        var i :| OccursAt(s, sub, i);
        assert i != 0;
        assert s[1..][i - 1..i - 1 + |sub|] == s[i..i + |sub|];
        assert OccursAt(s[1..], sub, i - 1);
      }
    }
  }

  // ---------------------------------------------------------------------------
  // Trimming
  // ---------------------------------------------------------------------------

  /** The characters `String.prototype.trim` removes: ECMAScript WhiteSpace and LineTerminator. */
  predicate IsWhitespace(c: char) {
    var n := c as int;
    n == 0x09 || n == 0x0A || n == 0x0B || n == 0x0C || n == 0x0D || n == 0x20 || n == 0xA0
    || n == 0x1680 || (0x2000 <= n <= 0x200A) || n == 0x2028 || n == 0x2029 || n == 0x202F
    || n == 0x205F || n == 0x3000 || n == 0xFEFF
  }

  /** The first index at or after `i` that does not hold whitespace (`|s|` if none). */
  function SkipWhitespace(s: string, i: nat): (k: nat)
    requires i <= |s|
    ensures i <= k <= |s|
    ensures forall j :: i <= j < k ==> IsWhitespace(s[j])
    ensures k < |s| ==> !IsWhitespace(s[k])
    decreases |s| - i
  {
    if i == |s| || !IsWhitespace(s[i]) then i else SkipWhitespace(s, i + 1)
  }

  /** The end of `s[lo..hi]` once its trailing whitespace is dropped. */
  function DropTrailingWhitespace(s: string, lo: nat, hi: nat): (e: nat)
    requires lo <= hi <= |s|
    ensures lo <= e <= hi
    ensures forall j :: e <= j < hi ==> IsWhitespace(s[j])
    ensures e > lo ==> !IsWhitespace(s[e - 1])
    decreases hi
  {
    if hi == lo || !IsWhitespace(s[hi - 1]) then hi else DropTrailingWhitespace(s, lo, hi - 1)
  }

  /** Every character of `t` is whitespace. */
  predicate AllWhitespace(t: string) {
    forall j :: 0 <= j < |t| ==> IsWhitespace(t[j])
  }

  /**
   * `s.trim()`: `s` with its leading and trailing whitespace removed, so `s` is
   * whitespace, then `r`, then whitespace, and `r` neither starts nor ends with whitespace.
   */
  function Trim(s: string): (r: string)
    ensures |r| <= |s|
    ensures exists a :: OccursAt(s, r, a) && AllWhitespace(s[..a]) && AllWhitespace(s[a + |r|..])
    ensures r == [] <==> forall j :: 0 <= j < |s| ==> IsWhitespace(s[j])
    ensures r != [] ==> !IsWhitespace(r[0]) && !IsWhitespace(r[|r| - 1])
  {
    var a := SkipWhitespace(s, 0);
    var b := DropTrailingWhitespace(s, a, |s|);
    assert OccursAt(s, s[a..b], a) && AllWhitespace(s[..a]) && AllWhitespace(s[b..]);
    s[a..b]
  }

  /** Trimming an already trimmed string changes nothing. */
  lemma TrimIdempotent(s: string)
    ensures Trim(Trim(s)) == Trim(s)
  {
    var r := Trim(s);
    assert SkipWhitespace(r, 0) == 0;
    assert DropTrailingWhitespace(r, 0, |r|) == |r|;
  }

  // ---------------------------------------------------------------------------
  // Length
  // ---------------------------------------------------------------------------

  /**
   * `s.length`: JavaScript counts UTF-16 code units, so a character outside the
   * Basic Multilingual Plane counts twice.
   */
  function Utf16Length(s: string): (n: nat)
    ensures |s| <= n <= 2 * |s|
    ensures (forall i :: 0 <= i < |s| ==> !IsSupplementary(s[i])) ==> n == |s|
    ensures n == 2 * |s| <==> forall i :: 0 <= i < |s| ==> IsSupplementary(s[i])
  {
    if s == [] then 0
    else (if IsSupplementary(s[0]) then 2 else 1) + Utf16Length(s[1..])
  }

  /** A character above U+FFFF, which UTF-16 encodes as a surrogate pair. */
  predicate IsSupplementary(c: char) {
    c as int >= 0x1_0000
  }

  /** The UTF-16 length of a concatenation is the sum of the lengths. */
  lemma {:induction false} Utf16LengthAppend(a: string, b: string)
    ensures Utf16Length(a + b) == Utf16Length(a) + Utf16Length(b)
    decreases |a|
  {
    if a != [] {
      assert (a + b)[0] == a[0];
      assert (a + b)[1..] == a[1..] + b;
      Utf16LengthAppend(a[1..], b);
    } else {
      assert a + b == b;
    }
  }

  // ---------------------------------------------------------------------------
  // Numbers as text
  // ---------------------------------------------------------------------------

  /** A JavaScript number as produced by `Number.parseInt`: an integer, or NaN. */
  datatype Number = Num(value: int) | NaN

  /** The value of a digit in the radix-36 alphabet 0-9, a-z (either case); 36 for any other character. */
  function DigitValue(c: char): (v: nat)
    ensures v <= 36
  {
    if '0' <= c <= '9' then c as int - '0' as int
    else if 'a' <= c <= 'z' then c as int - 'a' as int + 10
    else if 'A' <= c <= 'Z' then c as int - 'A' as int + 10
    else 36
  }

  /**
   * `rest` cannot extend the printed digits of a number: it does not start with a decimal
   * digit, nor, after a lone `0` (`zero`), with the `x` or `X` of a hexadecimal prefix.
   */
  predicate StopsNumber(rest: string, zero: bool) {
    rest == [] || (DigitValue(rest[0]) >= 10 && !(zero && (rest[0] == 'x' || rest[0] == 'X')))
  }

  function DigitChar(d: nat): (c: char)
    requires d < 10
    ensures DigitValue(c) == d
  {
    ('0' as int + d) as char
  }

  /** The decimal digits of `n`, most significant first, without leading zeros. */
  function NatToString(n: nat): (s: string)
    ensures |s| >= 1
    ensures forall i :: 0 <= i < |s| ==> DigitValue(s[i]) < 10
    ensures s[0] == '0' ==> n == 0 && |s| == 1
    decreases n
  {
    if n < 10 then [DigitChar(n)] else NatToString(n / 10) + [DigitChar(n % 10)]
  }

  /** `Number.prototype.toString()` (and template interpolation) for an integral number. */
  function IntToString(i: int): (r: string)
    ensures r != []
    ensures r[0] == '-' <==> i < 0
    ensures forall k :: (if i < 0 then 1 else 0) <= k < |r| ==> DigitValue(r[k]) < 10
    ensures |r| > 1 ==> r[if i < 0 then 1 else 0] != '0'
  {
    if i < 0 then "-" + NatToString(-i) else NatToString(i)
  }

  /** The value of a string of radix-`radix` digits, most significant first. */
  function DigitsValue(s: string, radix: nat): nat {
    if s == [] then 0
    else DigitsValue(s[..|s| - 1], radix) * radix + DigitValue(s[|s| - 1])
  }

  /** The end of the run of radix-`radix` digits that starts at `i`. */
  function DigitRun(s: string, radix: nat, i: nat): (k: nat)
    requires i <= |s|
    ensures i <= k <= |s|
    ensures forall j :: i <= j < k ==> DigitValue(s[j]) < radix
    ensures k < |s| ==> DigitValue(s[k]) >= radix
    decreases |s| - i
  {
    if i == |s| || DigitValue(s[i]) >= radix then i else DigitRun(s, radix, i + 1)
  }

  /**
   * The unsigned part of `Number.parseInt`: a `0x`/`0X` prefix selects radix 16, otherwise
   * radix 10, and the longest run of digits that follows is the value; none gives NaN.
   */
  function ParseUnsigned(u: string): (r: Number)
    ensures r.Num? ==> r.value >= 0
  {
    var hex := |u| >= 2 && u[0] == '0' && (u[1] == 'x' || u[1] == 'X');
    var radix := if hex then 16 else 10;
    var digits := if hex then u[2..] else u;
    var n := DigitRun(digits, radix, 0);
    if n == 0 then NaN else Num(DigitsValue(digits[..n], radix))
  }

  /**
   * `Number.parseInt(s)` with no radix argument: leading whitespace is skipped, one sign
   * is read, and the rest is read by `ParseUnsigned`.
   */
  function ParseInt(s: string): (r: Number)
    ensures r.Num? ==> exists k :: 0 <= k < |s| && DigitValue(s[k]) < 10
    ensures r.Num? && r.value < 0 ==> '-' in s
  {
    var t := s[SkipWhitespace(s, 0)..];
    var negative := |t| > 0 && t[0] == '-';
    var u := if |t| > 0 && (t[0] == '-' || t[0] == '+') then t[1..] else t;
    match ParseUnsigned(u)
    case NaN => NaN
    case Num(m) => Num(if negative then -m else m)
  }

  /** Reading the decimal digits of `n` back gives `n`. */
  lemma {:induction false} NatToStringValue(n: nat)
    ensures DigitsValue(NatToString(n), 10) == n
    decreases n
  {
    if n >= 10 {
      NatToStringValue(n / 10);
      var s := NatToString(n);
      assert s[..|s| - 1] == NatToString(n / 10);
    }
  }

  /** The digit run of `NatToString(m) + rest` is exactly the digits of `m`. */
  lemma DigitRunOfNat(m: nat, rest: string)
    requires rest == [] || DigitValue(rest[0]) >= 10
    ensures DigitRun(NatToString(m) + rest, 10, 0) == |NatToString(m)|
  {
    var d := NatToString(m);
    var u := d + rest;
    assert forall j :: 0 <= j < |d| ==> u[j] == d[j];
    assert rest != [] ==> u[|d|] == rest[0];
  }

  lemma ParseUnsignedNat(m: nat, rest: string)
    requires StopsNumber(rest, m == 0)
    ensures ParseUnsigned(NatToString(m) + rest) == Num(m)
  {
    var d := NatToString(m);
    var u := d + rest;
    assert !(|u| >= 2 && u[0] == '0' && (u[1] == 'x' || u[1] == 'X')) by {
      if |d| == 1 {
        assert rest != [] ==> u[1] == rest[0];
      } else {
        assert u[1] == d[1];
      }
    }
    DigitRunOfNat(m, rest);
    assert u[..|d|] == d;
    NatToStringValue(m);
  }

  /** Skipping whitespace after a leading whitespace character is one step further along. */
  lemma {:induction false} SkipWhitespaceCons(c: char, s: string, i: nat)
    requires IsWhitespace(c) && i <= |s|
    ensures SkipWhitespace([c] + s, i + 1) == SkipWhitespace(s, i) + 1
    decreases |s| - i
  {
    assert forall j :: 0 <= j < |s| ==> ([c] + s)[j + 1] == s[j];
    if i < |s| && IsWhitespace(s[i]) {
      SkipWhitespaceCons(c, s, i + 1);
    }
  }

  /** Leading whitespace does not change what `parseInt` reads. */
  lemma ParseIntSkipsWhitespace(c: char, s: string)
    requires IsWhitespace(c)
    ensures ParseInt([c] + s) == ParseInt(s)
  {
    var t := [c] + s;
    assert SkipWhitespace(t, 0) == SkipWhitespace(t, 1);
    SkipWhitespaceCons(c, s, 0);
    assert t[SkipWhitespace(t, 0)..] == s[SkipWhitespace(s, 0)..];
  }

  /** A leading plus sign is dropped. */
  lemma ParseIntPlus(u: string)
    ensures ParseInt("+" + u) == ParseUnsigned(u)
  {
    var s := "+" + u;
    assert SkipWhitespace(s, 0) == 0;
    assert s[0..] == s;
    assert s[1..] == u;
  }

  /** A string that starts with neither whitespace nor a sign is read unsigned. */
  lemma ParseIntUnsigned(s: string)
    requires s != [] && !IsWhitespace(s[0]) && s[0] != '-' && s[0] != '+'
    ensures ParseInt(s) == ParseUnsigned(s)
  {
    assert SkipWhitespace(s, 0) == 0;
    assert s[0..] == s;
  }

  /** A leading minus sign negates what follows it. */
  lemma ParseIntMinus(u: string, m: nat)
    requires ParseUnsigned(u) == Num(m)
    ensures ParseInt("-" + u) == Num(-(m as int))
  {
    var s := "-" + u;
    assert SkipWhitespace(s, 0) == 0;
    assert s[0..] == s;
    assert s[1..] == u;
  }

  /**
   * `parseInt` reads back the number `toString` wrote, even with text after it,
   * as long as that text cannot continue the number (`StopsNumber`).
   */
  lemma ParseIntToStringPrefix(i: int, rest: string)
    requires StopsNumber(rest, i == 0)
    ensures ParseInt(IntToString(i) + rest) == Num(i)
  {
    if i < 0 {
      ParseIntNegativePrefix(-i, rest);
    } else {
      ParseIntNatPrefix(i, rest);
    }
  }

  /** The non-negative case: the printed digits are read unsigned. */
  lemma ParseIntNatPrefix(m: nat, rest: string)
    requires StopsNumber(rest, m == 0)
    ensures ParseInt(NatToString(m) + rest) == Num(m)
  {
    var s := NatToString(m) + rest;
    ParseUnsignedNat(m, rest);
    assert s[0] == NatToString(m)[0];
    assert DigitValue(s[0]) < 10;
    ParseIntUnsigned(s);
  }

  /** The negative case: a minus sign followed by the printed magnitude. */
  lemma ParseIntNegativePrefix(m: nat, rest: string)
    requires StopsNumber(rest, m == 0)
    ensures ParseInt("-" + NatToString(m) + rest) == Num(-(m as int))
  {
    var d := NatToString(m);
    ParseUnsignedNat(m, rest);
    MinusPrefix(d, rest, m);
  }

  /** A minus sign before digits that read as `m` gives `-m`, whatever text follows. */
  lemma MinusPrefix(d: string, rest: string, m: nat)
    requires ParseUnsigned(d + rest) == Num(m)
    ensures ParseInt("-" + d + rest) == Num(-(m as int))
  {
    assert "-" + d + rest == "-" + (d + rest);
    ParseIntMinus(d + rest, m);
  }

  /** `parseInt(n.toString())` is `n` for every integer `n`. */
  lemma ParseIntToString(i: int)
    ensures ParseInt(IntToString(i)) == Num(i)
  {
    ParseIntToStringPrefix(i, []);
    assert IntToString(i) + [] == IntToString(i);
  }

  /** Distinct integers print differently. */
  lemma IntToStringInjective(i: int, j: int)
    ensures IntToString(i) == IntToString(j) ==> i == j
  {
    ParseIntToString(i);
    ParseIntToString(j);
  }

  // ---------------------------------------------------------------------------
  // Collation
  // ---------------------------------------------------------------------------

  /**
   * Stand-in for `a.localeCompare(b)`: lexicographic comparison by code point,
   * negative when `a` sorts first, zero when equal, positive otherwise.
   */
  function Compare(a: string, b: string): (r: int)
    ensures -1 <= r <= 1
  {
    if a == [] then (if b == [] then 0 else -1)
    else if b == [] then 1
    else if a[0] < b[0] then -1
    else if a[0] > b[0] then 1
    else Compare(a[1..], b[1..])
  }

  lemma {:induction false} CompareZeroIff(a: string, b: string)
    ensures Compare(a, b) == 0 <==> a == b
    decreases |a|
  {
    if a != [] && b != [] && a[0] == b[0] {
      CompareZeroIff(a[1..], b[1..]);
      assert a == [a[0]] + a[1..];
      assert b == [b[0]] + b[1..];
    }
  }

  lemma {:induction false} CompareAntisymmetric(a: string, b: string)
    ensures Compare(b, a) == -Compare(a, b)
    decreases |a|
  {
    if a != [] && b != [] && a[0] == b[0] {
      CompareAntisymmetric(a[1..], b[1..]);
    }
  }

  lemma {:induction false} CompareTransitive(a: string, b: string, c: string)
    requires Compare(a, b) <= 0 && Compare(b, c) <= 0
    ensures Compare(a, c) <= 0
    decreases |a|
  {
    if a != [] && b != [] && c != [] && a[0] == b[0] && b[0] == c[0] {
      CompareTransitive(a[1..], b[1..], c[1..]);
    }
  }
}
