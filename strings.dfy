/**
 * The JavaScript string and number primitives the game screens rely on:
 * `String.prototype.trim`, `toUpperCase` (ASCII letters only), `parseInt`
 * without a radix, `Number.prototype.toString` for integers and `padStart`.
 */
module Strings {
  import opened Options

  // ---------------------------------------------------------------------
  // Whitespace and trim
  // ---------------------------------------------------------------------

  /** The code points ECMAScript classes as WhiteSpace or LineTerminator,
      which are the ones `trim` removes. */
  predicate IsWhiteSpace(c: char) {
    var n := c as int;
    n == 0x09 || n == 0x0A || n == 0x0B || n == 0x0C || n == 0x0D ||
    n == 0x20 || n == 0xA0 || n == 0x1680 || (0x2000 <= n <= 0x200A) ||
    n == 0x2028 || n == 0x2029 || n == 0x202F || n == 0x205F ||
    n == 0x3000 || n == 0xFEFF
  }

  /** Every character of `s` is whitespace (so `s.trim()` is falsy). */
  predicate IsBlank(s: string) {
    forall i :: 0 <= i < |s| ==> IsWhiteSpace(s[i])
  }

  /** The first index at or after `i` whose character is not whitespace,
      or `|s|` when there is none. */
  function SkipBlankFrom(s: string, i: nat): (k: nat)
    requires i <= |s|
    ensures i <= k <= |s|
    ensures forall j :: i <= j < k ==> IsWhiteSpace(s[j])
    ensures k == |s| || !IsWhiteSpace(s[k])
    decreases |s| - i
  {
    if i < |s| && IsWhiteSpace(s[i]) then SkipBlankFrom(s, i + 1) else i
  }

  /** The index just past the last character of `s[lo..hi]` that is not
      whitespace, or `lo` when there is none. */
  function SkipBlankBack(s: string, lo: nat, hi: nat): (k: nat)
    requires lo <= hi <= |s|
    ensures lo <= k <= hi
    ensures forall j :: k <= j < hi ==> IsWhiteSpace(s[j])
    ensures k == lo || !IsWhiteSpace(s[k - 1])
    decreases hi
  {
    if lo < hi && IsWhiteSpace(s[hi - 1]) then SkipBlankBack(s, lo, hi - 1) else hi
  }

  /** `s` without its leading whitespace (what `parseInt` skips). */
  function TrimStart(s: string): string {
    s[SkipBlankFrom(s, 0)..]
  }

  /** `s.trim()`: `s` without its leading and trailing whitespace. */
  function Trim(s: string): string {
    var lo := SkipBlankFrom(s, 0);
    s[lo..SkipBlankBack(s, lo, |s|)]
  }

  /** What `trim` keeps is a slice of the input, only whitespace is cut away
      on either side, and the result neither starts nor ends with whitespace. */
  lemma TrimIsSlice(s: string) returns (lo: nat)
    ensures lo + |Trim(s)| <= |s| && Trim(s) == s[lo..lo + |Trim(s)|]
    ensures forall j :: 0 <= j < lo || lo + |Trim(s)| <= j < |s| ==> IsWhiteSpace(s[j])
    ensures Trim(s) == [] || (!IsWhiteSpace(Trim(s)[0]) && !IsWhiteSpace(Trim(s)[|Trim(s)| - 1]))
  {
    lo := SkipBlankFrom(s, 0);
    var hi := SkipBlankBack(s, lo, |s|);
    if lo < hi {
      assert Trim(s)[0] == s[lo];
      assert Trim(s)[|Trim(s)| - 1] == s[hi - 1];
    }
  }

  /** A string trims to nothing exactly when it is blank. */
  lemma TrimEmptyIffBlank(s: string)
    ensures Trim(s) == [] <==> IsBlank(s)
  {
    var lo := TrimIsSlice(s);
  }

  /** Trimming twice is trimming once. */
  lemma TrimIdempotent(s: string)
    ensures Trim(Trim(s)) == Trim(s)
  {
    var t := Trim(s);
    var lo := TrimIsSlice(s);
    assert SkipBlankFrom(t, 0) == 0;
    assert SkipBlankBack(t, 0, |t|) == |t|;
  }

  // ---------------------------------------------------------------------
  // Upper case
  // ---------------------------------------------------------------------

  function UpperChar(c: char): char {
    if 'a' <= c <= 'z' then (c as int - 32) as char else c
  }

  /** `s.toUpperCase()` restricted to the ASCII letters. */
  function ToUpper(s: string): (r: string)
    ensures |r| == |s|
    ensures forall i :: 0 <= i < |s| ==> r[i] == UpperChar(s[i])
  {
    seq(|s|, i requires 0 <= i < |s| => UpperChar(s[i]))
  }

  /** Upper-casing never turns a whitespace character into a visible one or
      the other way round. */
  lemma UpperKeepsWhiteSpace(c: char)
    ensures IsWhiteSpace(UpperChar(c)) <==> IsWhiteSpace(c)
  {
  }

  /** A string in upper case has no lower-case ASCII letter. */
  predicate IsUpper(s: string) {
    forall i :: 0 <= i < |s| ==> !('a' <= s[i] <= 'z')
  }

  lemma ToUpperIsUpper(s: string)
    ensures IsUpper(ToUpper(s))
    ensures IsUpper(s) ==> ToUpper(s) == s
  {
  }

  lemma {:induction false} SkipBlankFromOfUpper(s: string, i: nat)
    requires i <= |s|
    ensures SkipBlankFrom(ToUpper(s), i) == SkipBlankFrom(s, i)
    decreases |s| - i
  {
    if i < |s| {
      UpperKeepsWhiteSpace(s[i]);
      SkipBlankFromOfUpper(s, i + 1);
    }
  }

  lemma {:induction false} SkipBlankBackOfUpper(s: string, lo: nat, hi: nat)
    requires lo <= hi <= |s|
    ensures SkipBlankBack(ToUpper(s), lo, hi) == SkipBlankBack(s, lo, hi)
    decreases hi
  {
    if lo < hi {
      UpperKeepsWhiteSpace(s[hi - 1]);
      SkipBlankBackOfUpper(s, lo, hi - 1);
    }
  }

  lemma ToUpperSlice(s: string, lo: nat, hi: nat)
    requires lo <= hi <= |s|
    ensures ToUpper(s)[lo..hi] == ToUpper(s[lo..hi])
  {
    var a, b := ToUpper(s)[lo..hi], ToUpper(s[lo..hi]);
    forall i | 0 <= i < hi - lo ensures a[i] == b[i] {
      assert s[lo..hi][i] == s[lo + i];
    }
  }

  /** Trimming and upper-casing commute. */
  lemma TrimOfUpper(s: string)
    ensures Trim(ToUpper(s)) == ToUpper(Trim(s))
  {
    var lo := SkipBlankFrom(s, 0);
    var hi := SkipBlankBack(s, lo, |s|);
    SkipBlankFromOfUpper(s, 0);
    SkipBlankBackOfUpper(s, lo, |s|);
    ToUpperSlice(s, lo, hi);
  }

  // ---------------------------------------------------------------------
  // Digits, parseInt and integer toString
  // ---------------------------------------------------------------------

  /** The value of a character as a digit in bases up to 36, or 36 if it is
      not a digit at all. */
  function DigitValue(c: char): (v: nat)
    ensures v <= 36
  {
    if '0' <= c <= '9' then c as int - '0' as int
    else if 'a' <= c <= 'z' then c as int - 'a' as int + 10
    else if 'A' <= c <= 'Z' then c as int - 'A' as int + 10
    else 36
  }

  predicate IsDigitOf(c: char, radix: nat) {
    DigitValue(c) < radix
  }

  predicate AllDigitsOf(s: string, radix: nat) {
    forall i :: 0 <= i < |s| ==> IsDigitOf(s[i], radix)
  }

  /** The longest prefix of `s` made of digits of `radix`. */
  function DigitPrefix(s: string, radix: nat): (r: string)
    ensures |r| <= |s| && r == s[..|r|]
    ensures AllDigitsOf(r, radix)
    ensures |r| == |s| || !IsDigitOf(s[|r|], radix)
  {
    if |s| > 0 && IsDigitOf(s[0], radix) then [s[0]] + DigitPrefix(s[1..], radix) else []
  }

  /** The number a string of digits denotes, most significant digit first. */
  function DigitsValue(s: string, radix: nat): nat
  {
    if s == [] then 0
    else DigitsValue(s[..|s| - 1], radix) * radix + DigitValue(s[|s| - 1])
  }

  /**
   * `parseInt(s)` with no radix argument; `None` stands for NaN. Leading
   * whitespace is skipped, one sign is read, a `0x`/`0X` prefix selects
   * base 16, and the longest run of digits that follows is the value.
   */
  function ParseInt(s: string): Option<int>
  {
    var t := TrimStart(s);
    if |t| > 0 && t[0] == '-' then Negate(ParseMagnitude(t[1..]))
    else if |t| > 0 && t[0] == '+' then ParseMagnitude(t[1..])
    else ParseMagnitude(t)
  }

  /** The unsigned part of `parseInt`: radix prefix, then digits. */
  function ParseMagnitude(u: string): Option<int>
  {
    if |u| >= 2 && u[0] == '0' && (u[1] == 'x' || u[1] == 'X') then ParseDigits(u[2..], 16)
    else ParseDigits(u, 10)
  }

  /** The value of the longest digit prefix, or NaN when there is none. */
  function ParseDigits(v: string, radix: nat): Option<int>
  {
    var digits := DigitPrefix(v, radix);
    if digits == [] then None else Some(DigitsValue(digits, radix))
  }

  /** Unary minus on a possibly-NaN number. */
  function Negate(x: Option<int>): Option<int>
  {
    match x
    case None => None
    case Some(v) => Some(-v)
  }

  function DigitChar(d: nat): (c: char)
    requires d < 10
    ensures DigitValue(c) == d
  {
    ('0' as int + d) as char
  }

  /** The decimal numeral of a natural number, without leading zeros. */
  function NatToString(n: nat): (s: string)
    ensures |s| > 0 && AllDigitsOf(s, 10)
    ensures s[0] == '0' ==> n == 0 && |s| == 1
  {
    if n < 10 then [DigitChar(n)] else NatToString(n / 10) + [DigitChar(n % 10)]
  }

  /** `n.toString()` for an integer `n`. */
  function IntToString(n: int): string {
    if n < 0 then "-" + NatToString(-n) else NatToString(n)
  }

  lemma {:induction false} NatToStringValue(n: nat)
    ensures DigitsValue(NatToString(n), 10) == n
  {
    var s := NatToString(n);
    if n >= 10 {
      assert s[..|s| - 1] == NatToString(n / 10);
      NatToStringValue(n / 10);
    }
  }

  lemma {:induction false} DigitPrefixOfDigits(s: string, radix: nat)
    requires AllDigitsOf(s, radix)
    ensures DigitPrefix(s, radix) == s
    decreases |s|
  {
    if s != [] {
      DigitPrefixOfDigits(s[1..], radix);
    }
  }

  lemma TrimStartKeeps(s: string)
    requires s != [] && !IsWhiteSpace(s[0])
    ensures TrimStart(s) == s
  {
  }

  /** A decimal numeral, leading zeros included, is read in base 10: a
      `0x` prefix needs an `x`, which is no decimal digit. */
  lemma MagnitudeOfNumeral(digits: string)
    requires digits != [] && AllDigitsOf(digits, 10)
    ensures ParseMagnitude(digits) == Some(DigitsValue(digits, 10))
  {
    DigitPrefixOfDigits(digits, 10);
  }

  /** `parseInt` of a string that starts with no whitespace, sign or
      decimal digit is NaN. */
  lemma ParseIntNoDigits(s: string)
    requires s == [] || (!IsWhiteSpace(s[0]) && s[0] != '-' && s[0] != '+' && DigitValue(s[0]) >= 10)
    ensures ParseInt(s) == None
  {
    assert SkipBlankFrom(s, 0) == 0;
    assert TrimStart(s) == s;
    assert DigitPrefix(s, 10) == [];
  }

  /** `parseInt` of a decimal numeral (leading zeros included), with or
      without a minus sign in front. */
  lemma ParseIntOfNumeral(digits: string)
    requires digits != [] && AllDigitsOf(digits, 10)
    ensures ParseInt(digits) == Some(DigitsValue(digits, 10))
    ensures ParseInt("-" + digits) == Negate(Some(DigitsValue(digits, 10)))
  {
    MagnitudeOfNumeral(digits);
    assert DigitValue(digits[0]) < 10;
    TrimStartKeeps(digits);
    var neg := "-" + digits;
    TrimStartKeeps(neg);
    assert neg[1..] == digits;
  }

  /** `parseInt` reads back what `toString` wrote. */
  lemma ParseIntOfIntToString(n: int)
    ensures ParseInt(IntToString(n)) == Some(n)
  {
    var m: nat := if n < 0 then -n else n;
    ParseIntOfNumeral(NatToString(m));
    NatToStringValue(m);
  }

  // ---------------------------------------------------------------------
  // padStart
  // ---------------------------------------------------------------------

  /** `s.padStart(width, [fill])` with a one-character filler. */
  function PadStart(s: string, width: nat, fill: char): (r: string)
    ensures |r| == if |s| >= width then |s| else width
    ensures r[|r| - |s|..] == s
    ensures forall i :: 0 <= i < |r| - |s| ==> r[i] == fill
  {
    if |s| >= width then s else seq(width - |s|, _ => fill) + s
  }
}
