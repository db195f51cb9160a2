/**
 * The few `java.lang` behaviours both core files lean on: 32-bit `int`,
 * `Character.isWhitespace` / `String.isBlank`, the digit filters written as
 * `replaceAll("[^0-9]", "")`, `replaceAll("\\D", "")` and `replaceAll("[0-9]", "")`,
 * `Integer.parseInt` on a string of ASCII digits, `String.valueOf(int)`, and
 * `toUpperCase(Locale.ROOT)` restricted to ASCII letters.
 */
module JavaText {
  import opened Nullable

  const MinInt32: int := -0x8000_0000
  const MaxInt32: int := 0x7FFF_FFFF

  /** Java's `int` (and the value of a non-null `Integer`). */
  type Int32 = x: int | MinInt32 <= x <= MaxInt32

  /** The class `[0-9]`, which is also what `\d` means in a Java regex without UNICODE_CHARACTER_CLASS. */
  predicate IsDigit(c: char) {
    '0' <= c <= '9'
  }

  predicate AllDigits(s: string) {
    forall i :: 0 <= i < |s| ==> IsDigit(s[i])
  }

  /**
   * `Character.isWhitespace`: a Unicode space, line or paragraph separator other than
   * the non-breaking spaces U+00A0, U+2007 and U+202F, or one of U+0009..U+000D, U+001C..U+001F.
   */
  predicate IsWhitespace(c: char) {
    var n := c as int;
    n == 0x20 || 0x09 <= n <= 0x0D || 0x1C <= n <= 0x1F || n == 0x1680 ||
    (0x2000 <= n <= 0x200A && n != 0x2007) || n == 0x2028 || n == 0x2029 ||
    n == 0x205F || n == 0x3000
  }

  /** `String.isBlank`: empty, or whitespace only. */
  predicate IsBlank(s: string) {
    forall i :: 0 <= i < |s| ==> IsWhitespace(s[i])
  }

  /** `s.replaceAll("[^0-9]", "")`: the digits of `s`, in order. */
  function Digits(s: string): (r: string)
    ensures AllDigits(r)
    ensures |r| <= |s|
  {
    if s == [] then []
    else (if IsDigit(s[0]) then [s[0]] else []) + Digits(s[1..])
  }

  /** `s.replaceAll("[0-9]", "")`: the characters of `s` that are not digits, in order. */
  function NonDigits(s: string): (r: string)
    ensures forall i :: 0 <= i < |r| ==> !IsDigit(r[i])
    ensures |r| <= |s|
  {
    if s == [] then []
    else (if IsDigit(s[0]) then [] else [s[0]]) + NonDigits(s[1..])
  }

  function DigitValue(c: char): (d: nat)
    requires IsDigit(c)
    ensures d < 10
  {
    (c as int) - ('0' as int)
  }

  function DigitChar(d: nat): (c: char)
    requires d < 10
    ensures IsDigit(c) && DigitValue(c) == d
  {
    (('0' as int) + d) as char
  }

  /** The number a string of decimal digits denotes (leading zeros allowed). */
  function Value(ds: string): nat
    requires AllDigits(ds)
  {
    if ds == [] then 0
    else 10 * Value(ds[..|ds| - 1]) + DigitValue(ds[|ds| - 1])
  }

  /**
   * `Integer.parseInt` on a string made of ASCII digits only, the only strings the
   * core ever hands it: a NumberFormatException (here `None`) for the empty string
   * and for a value above `Integer.MAX_VALUE`.
   */
  function ParseDigits(ds: string): (r: Option<Int32>)
    requires AllDigits(ds)
    ensures r.Some? <==> ds != [] && Value(ds) <= MaxInt32
    ensures r.Some? ==> r.value == Value(ds) && r.value >= 0
  {
    if ds == [] || Value(ds) > MaxInt32 then None else Some(Value(ds))
  }

  /** The canonical decimal rendering of a natural number: no sign, no leading zeros. */
  function Decimal(n: nat): (r: string)
    ensures AllDigits(r) && r != []
    decreases n
  {
    if n < 10 then [DigitChar(n)] else Decimal(n / 10) + [DigitChar(n % 10)]
  }

  /**
   * `String.valueOf(int)`: a minus sign exactly for a negative number, followed by
   * digits that read back as the magnitude.
   */
  function IntToString(n: Int32): (r: string)
    ensures r != []
    ensures r[0] == '-' <==> n < 0
    ensures n < 0 ==> AllDigits(r[1..]) && Value(r[1..]) == -(n as int)
    ensures n >= 0 ==> AllDigits(r) && Value(r) == n
    ensures n >= 0 ==> r == Decimal(n)
    ensures n < 0 ==> r == "-" + Decimal(-(n as int))
  {
    if n < 0 then
      var d := Decimal(-(n as int));
      ValueOfDecimal(-(n as int));
      assert ("-" + d)[1..] == d;
      "-" + d
    else
      ValueOfDecimal(n);
      Decimal(n)
  }

  /** `Character.toUpperCase` under `Locale.ROOT`, for ASCII letters; every other character is kept. */
  function UpperChar(c: char): char {
    if 'a' <= c <= 'z' then ((c as int) - 32) as char else c
  }

  /** `toUpperCase(Locale.ROOT)`, one character at a time. */
  function ToUpperAscii(s: string): (r: string)
    ensures |r| == |s|
    ensures forall i :: 0 <= i < |s| ==> r[i] == UpperChar(s[i])
  {
    if s == [] then [] else [UpperChar(s[0])] + ToUpperAscii(s[1..])
  }

  // ---------------------------------------------------------------------
  // Properties of the filters and of the decimal codec
  // ---------------------------------------------------------------------

  /** Filtering the digits distributes over concatenation. */
  lemma {:induction false} DigitsAppend(a: string, b: string)
    ensures Digits(a + b) == Digits(a) + Digits(b)
    ensures NonDigits(a + b) == NonDigits(a) + NonDigits(b)
  {
    if a != [] {
      assert (a + b)[1..] == a[1..] + b;
      DigitsAppend(a[1..], b);
    } else {
      assert a + b == b;
    }
  }

  /** A string of digits is its own digit filter and has no non-digit. */
  lemma {:induction false} DigitsOfDigitString(s: string)
    requires AllDigits(s)
    ensures Digits(s) == s
    ensures NonDigits(s) == []
  {
    if s != [] {
      DigitsOfDigitString(s[1..]);
    }
  }

  /** `Digits` is empty exactly when the string contains no digit. */
  lemma {:induction false} DigitsEmptyIff(s: string)
    ensures Digits(s) == [] <==> forall i :: 0 <= i < |s| ==> !IsDigit(s[i])
  {
    if s != [] {
      DigitsEmptyIff(s[1..]);
      assert forall i :: 1 <= i < |s| ==> s[i] == s[1..][i - 1];
    }
  }

  /**
   * The first character that survives `replaceAll("[0-9]", "")` is the first
   * non-digit of the whole string, wherever it stands; there is none exactly
   * when the string is all digits.
   */
  lemma {:induction false} FirstNonDigit(s: string)
    ensures NonDigits(s) == [] <==> AllDigits(s)
    ensures NonDigits(s) != [] ==>
      exists i :: 0 <= i < |s| && s[i] == NonDigits(s)[0] && AllDigits(s[..i])
  {
    if s != [] {
      FirstNonDigit(s[1..]);
      assert forall i :: 1 <= i < |s| ==> s[i] == s[1..][i - 1];
      if IsDigit(s[0]) && NonDigits(s) != [] {
        var i :| 0 <= i < |s[1..]| && s[1..][i] == NonDigits(s[1..])[0] && AllDigits(s[1..][..i]);
        assert s[..i + 1] == [s[0]] + s[1..][..i];
        assert s[i + 1] == NonDigits(s)[0];
      } else if !IsDigit(s[0]) {
        assert s[..0] == [];
      }
    }
  }

  /** Reading back the decimal rendering gives the number: `parseInt(String.valueOf(n)) == n`. */
  lemma {:induction false} ValueOfDecimal(n: nat)
    ensures Value(Decimal(n)) == n
    decreases n
  {
    var d := Decimal(n);
    if n >= 10 {
      assert d[..|d| - 1] == Decimal(n / 10);
      ValueOfDecimal(n / 10);
    }
  }

  /** A rendering has no leading zero, except the rendering of zero itself. */
  lemma {:induction false} DecimalNoLeadingZero(n: nat)
    ensures Decimal(n)[0] == '0' <==> n == 0
    decreases n
  {
    if n >= 10 {
      DecimalNoLeadingZero(n / 10);
      assert Decimal(n)[0] == Decimal(n / 10)[0];
    }
  }

  /** Every number `parseInt` accepts back from its own rendering. */
  lemma ParseDecimal(n: nat)
    requires n <= MaxInt32
    ensures ParseDigits(Decimal(n)) == Some(n)
  {
    ValueOfDecimal(n);
  }

  /** A leading zero does not change the value, so `parseInt` cannot tell "012" from "12". */
  lemma {:induction false} LeadingZeroIgnored(ds: string)
    requires AllDigits(ds)
    ensures Value("0" + ds) == Value(ds)
    decreases |ds|
  {
    if ds != [] {
      var p := ds[..|ds| - 1];
      assert ("0" + ds)[..|ds|] == "0" + p;
      LeadingZeroIgnored(p);
    }
  }

  /** A string with a digit in it is not blank, so a house number with digits is never cleared as blank. */
  lemma NotBlankWithDigit(s: string)
    requires Digits(s) != []
    ensures !IsBlank(s)
  {
  }

  /**
   * `isBlank` follows `Character.isWhitespace`: the empty string and tabs, line
   * breaks and spaces are blank, a no-break space U+00A0 is not.
   */
  lemma BlankExamples()
    ensures IsBlank("")
    ensures IsBlank(" \t\n\r")
    ensures IsBlank("\U{2003}")
    ensures !IsBlank("\U{00A0}")
    ensures !IsBlank(" 1 ")
  {
    assert !IsWhitespace(" 1 "[1]);
    assert !IsWhitespace("\U{00A0}"[0]);
  }

  /** Uppercasing twice is uppercasing once, so the lookup is insensitive to ASCII case. */
  lemma UpperIdempotent(s: string)
    ensures ToUpperAscii(ToUpperAscii(s)) == ToUpperAscii(s)
  {
  }

  /** A string with no lower-case ASCII letter is its own upper-case form. */
  lemma UpperKeepsUpper(s: string)
    requires forall i :: 0 <= i < |s| ==> !('a' <= s[i] <= 'z')
    ensures ToUpperAscii(s) == s
  {
  }
}
