/**
 * The parts of `java.lang.String` the registry relies on, restricted to what the
 * model needs: ASCII case mapping (`toUpperCase`, `equalsIgnoreCase`), `trim()`
 * blankness, UTF-16 length and `hashCode`, and the decimal rendering of `%d`.
 */
module Text {
  import opened Wrappers

  // ---------------------------------------------------------------------------
  // Case mapping (ASCII letters only; every other character maps to itself)
  // ---------------------------------------------------------------------------

  function UpperChar(c: char): char {
    if 'a' <= c <= 'z' then (c as int - 32) as char else c
  }

  function LowerChar(c: char): char {
    if 'A' <= c <= 'Z' then (c as int + 32) as char else c
  }

  /** `String.toUpperCase()`, character by character. */
  function ToUpperCase(s: string): string {
    seq(|s|, i requires 0 <= i < |s| => UpperChar(s[i]))
  }

  /** Upper-casing twice is upper-casing once. */
  lemma ToUpperCaseIdempotent(s: string)
    ensures ToUpperCase(ToUpperCase(s)) == ToUpperCase(s)
  {
  }

  /** One step of `String.regionMatches(true, ...)`, the loop of `equalsIgnoreCase`. */
  predicate CharEqualsIgnoreCase(c1: char, c2: char) {
    || c1 == c2
    || UpperChar(c1) == UpperChar(c2)
    || LowerChar(UpperChar(c1)) == LowerChar(UpperChar(c2))
  }

  /** `String.equalsIgnoreCase`: same length, and every position matches ignoring case. */
  predicate EqualsIgnoreCase(a: string, b: string) {
    |a| == |b| && forall i :: 0 <= i < |a| ==> CharEqualsIgnoreCase(a[i], b[i])
  }

  lemma CharEqualsIgnoreCaseIffSameUpper(c1: char, c2: char)
    ensures CharEqualsIgnoreCase(c1, c2) <==> UpperChar(c1) == UpperChar(c2)
  {
  }

  /** Comparing ignoring case is comparing the upper-cased forms. */
  lemma EqualsIgnoreCaseIffSameUpper(a: string, b: string)
    ensures EqualsIgnoreCase(a, b) <==> ToUpperCase(a) == ToUpperCase(b)
  {
    if EqualsIgnoreCase(a, b) {
      forall i | 0 <= i < |a| ensures ToUpperCase(a)[i] == ToUpperCase(b)[i] {
        CharEqualsIgnoreCaseIffSameUpper(a[i], b[i]);
      }
    }
    if ToUpperCase(a) == ToUpperCase(b) {
      forall i | 0 <= i < |a| ensures CharEqualsIgnoreCase(a[i], b[i]) {
        assert ToUpperCase(a)[i] == ToUpperCase(b)[i];
        CharEqualsIgnoreCaseIffSameUpper(a[i], b[i]);
      }
    }
  }

  /** EqualsIgnoreCaseIffSameUpper for every pair of strings at once. */
  lemma EqualsIgnoreCaseIffSameUpperAll()
    ensures forall a, b :: EqualsIgnoreCase(a, b) <==> ToUpperCase(a) == ToUpperCase(b)
  {
    forall a, b ensures EqualsIgnoreCase(a, b) <==> ToUpperCase(a) == ToUpperCase(b) {
      EqualsIgnoreCaseIffSameUpper(a, b);
    }
  }

  /** Ignoring case is an equivalence relation. */
  lemma EqualsIgnoreCaseIsEquivalence(a: string, b: string, c: string)
    ensures EqualsIgnoreCase(a, a)
    ensures EqualsIgnoreCase(a, b) ==> EqualsIgnoreCase(b, a)
    ensures EqualsIgnoreCase(a, b) && EqualsIgnoreCase(b, c) ==> EqualsIgnoreCase(a, c)
  {
    EqualsIgnoreCaseIffSameUpper(a, a);
    EqualsIgnoreCaseIffSameUpper(a, b);
    EqualsIgnoreCaseIffSameUpper(b, a);
    EqualsIgnoreCaseIffSameUpper(b, c);
    EqualsIgnoreCaseIffSameUpper(a, c);
  }

  /** A string matches, ignoring case, exactly what its upper-cased form matches. */
  lemma EqualsIgnoreCaseUpperLeft(s: string, t: string)
    ensures EqualsIgnoreCase(ToUpperCase(s), t) <==> EqualsIgnoreCase(s, t)
  {
    EqualsIgnoreCaseIffSameUpper(ToUpperCase(s), t);
    EqualsIgnoreCaseIffSameUpper(s, t);
    ToUpperCaseIdempotent(s);
  }

  // ---------------------------------------------------------------------------
  // Blankness and length, as Bean Validation's @NotBlank and @Size see them
  // ---------------------------------------------------------------------------

  /** `s.trim().length() == 0`: `trim` strips every character up to U+0020. */
  predicate IsBlank(s: string) {
    forall i :: 0 <= i < |s| ==> s[i] <= ' '
  }

  /** The UTF-16 code units of a string, as Java stores it. */
  function Utf16Units(s: string): (units: seq<int>)
    ensures forall i :: 0 <= i < |units| ==> 0 <= units[i] < 0x1_0000
    ensures |s| <= |units| <= 2 * |s|
  {
    if s == [] then []
    else
      var c := s[0] as int;
      var head := if c < 0x1_0000 then [c]
                  else [0xD800 + (c - 0x1_0000) / 0x400, 0xDC00 + (c - 0x1_0000) % 0x400];
      head + Utf16Units(s[1..])
  }

  /** `String.length()`: the number of UTF-16 code units. */
  function Utf16Length(s: string): nat {
    |Utf16Units(s)|
  }

  /** A string of Basic Multilingual Plane characters has one code unit per character. */
  lemma {:induction false} Utf16LengthOfBmp(s: string)
    requires forall i :: 0 <= i < |s| ==> s[i] as int < 0x1_0000
    ensures Utf16Length(s) == |s|
    decreases |s|
  {
    if s != [] {
      Utf16LengthOfBmp(s[1..]);
    }
  }

  // ---------------------------------------------------------------------------
  // hashCode, in 32-bit two's-complement arithmetic
  // ---------------------------------------------------------------------------

  const TWO_32: int := 0x1_0000_0000
  const TWO_31: int := 0x8000_0000

  /** Java `int` wrap-around: the value of `x` reduced into [-2^31, 2^31). */
  function Wrap32(x: int): (r: int)
    ensures -TWO_31 <= r < TWO_31
    ensures (r - x) % TWO_32 == 0
  {
    (x + TWO_31) % TWO_32 - TWO_31
  }

  /** `h = 31 * h + unit` over the code units, as `String.hashCode` does. */
  function HashUnits(units: seq<int>): int
    decreases |units|
  {
    if units == [] then 0
    else Wrap32(31 * HashUnits(units[..|units| - 1]) + units[|units| - 1])
  }

  function StringHashCode(s: string): int {
    HashUnits(Utf16Units(s))
  }

  /** The hash of a nullable string field inside `Objects.hash`: null hashes to 0. */
  function NullableHashCode(s: Option<string>): int {
    match s
    case None => 0
    case Some(v) => StringHashCode(v)
  }

  /** `Objects.hash(a, b)`, i.e. `Arrays.hashCode(new Object[] {a, b})`. */
  function Hash2(a: Option<string>, b: Option<string>): int {
    Wrap32(31 * Wrap32(31 * 1 + NullableHashCode(a)) + NullableHashCode(b))
  }

  // ---------------------------------------------------------------------------
  // Decimal rendering of integers (`%d`, string concatenation of numbers)
  // ---------------------------------------------------------------------------

  function DigitChar(d: nat): char
    requires d < 10
  {
    "0123456789"[d]
  }

  function NatToDecimal(n: nat): string
    decreases n
  {
    if n < 10 then [DigitChar(n)] else NatToDecimal(n / 10) + [DigitChar(n % 10)]
  }

  /** `Integer.toString` / `%d`: a minus sign before the digits of a negative number. */
  function IntToDecimal(i: int): string {
    if i < 0 then "-" + NatToDecimal(-i) else NatToDecimal(i)
  }

  predicate IsDigits(s: string) {
    forall k :: 0 <= k < |s| ==> '0' <= s[k] <= '9'
  }

  function ParseDigits(s: string): nat
    requires IsDigits(s)
    decreases |s|
  {
    if s == [] then 0 else 10 * ParseDigits(s[..|s| - 1]) + (s[|s| - 1] as int - '0' as int)
  }

  /** Reading back a rendered number: the inverse of NatToDecimal. */
  lemma {:induction false} NatToDecimalRoundTrip(n: nat)
    ensures |NatToDecimal(n)| >= 1 && IsDigits(NatToDecimal(n))
    ensures ParseDigits(NatToDecimal(n)) == n
    decreases n
  {
    DigitCharValue(n % 10);
    if n >= 10 {
      NatToDecimalRoundTrip(n / 10);
      var s := NatToDecimal(n);
      assert s[..|s| - 1] == NatToDecimal(n / 10);
      assert s[|s| - 1] == DigitChar(n % 10);
      assert ParseDigits(s) == 10 * (n / 10) + n % 10;
    }
  }

  lemma DigitCharValue(d: nat)
    requires d < 10
    ensures '0' <= DigitChar(d) <= '9' && DigitChar(d) as int - '0' as int == d
  {
  }

  /** Reading back a signed rendering: a leading '-' then the digits. */
  function ParseSignedDecimal(s: string): int
    requires |s| >= 1
    requires s[0] == '-' ==> IsDigits(s[1..])
    requires s[0] != '-' ==> IsDigits(s)
  {
    if s[0] == '-' then -(ParseDigits(s[1..]) as int) else ParseDigits(s)
  }

  /** A minus sign before the digits of n: the tail after the sign is the digit string of n. */
  lemma NegativeRendering(n: nat)
    ensures var s := "-" + NatToDecimal(n); s[0] == '-' && s[1..] == NatToDecimal(n)
    ensures IsDigits(NatToDecimal(n)) && ParseDigits(NatToDecimal(n)) == n
  {
    var digits := NatToDecimal(n);
    NatToDecimalRoundTrip(n);
    assert ("-" + digits)[1..] == digits;
  }

  /** Distinct numbers render as distinct strings; the rendering can be read back. */
  lemma IntToDecimalRoundTrip(i: int)
    ensures var s := IntToDecimal(i);
      && |s| >= 1
      && (s[0] == '-' ==> IsDigits(s[1..]))
      && (s[0] != '-' ==> IsDigits(s))
      && ParseSignedDecimal(s) == i
  {
    if i < 0 {
      NegativeRendering(-i);
    } else {
      var digits := NatToDecimal(i);
      NatToDecimalRoundTrip(i);
      assert IntToDecimal(i) == digits;
      assert '0' <= digits[0] <= '9';
    }
  }

  /** Java's string conversion of a nullable reference in `+` and `%s`. */
  function Str(s: Option<string>): string {
    match s
    case None => "null"
    case Some(v) => v
  }
}
