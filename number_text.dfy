/**
 * The two number conversions the create handler applies to ids: JavaScript's
 * `parseInt` without a radix argument on the stored id string, and
 * `Number.prototype.toString` on the incremented value.
 *
 * `parseInt` (ECMA-262, section 19.2.5) skips leading white space, reads an
 * optional sign, switches to base 16 after a `0x` or `0X` prefix (base 10
 * otherwise) and takes the longest run of digits of that base, ignoring
 * whatever follows; when there is no digit at all it yields NaN, written here
 * as `None`. Values are unbounded integers here.
 */
module NumberText {
  import opened Wrappers

  /**
   * The characters `parseInt` skips before the number: ECMAScript's WhiteSpace
   * (tab, vertical tab, form feed, the byte order mark and the Unicode space
   * separators) and LineTerminator (line feed, carriage return, U+2028, U+2029).
   */
  predicate IsSpace(c: char) {
    c == '\t' || c == '\n' || c == '\U{B}' || c == '\U{C}' || c == '\r' ||
    c == ' ' || c == '\U{A0}' || c == '\U{1680}' || '\U{2000}' <= c <= '\U{200A}' ||
    c == '\U{2028}' || c == '\U{2029}' || c == '\U{202F}' || c == '\U{205F}' ||
    c == '\U{3000}' || c == '\U{FEFF}'
  }

  predicate IsDigit(c: char) {
    '0' <= c <= '9'
  }

  /** The value of `c` as a digit of any base up to 36 (`0-9`, then `a-z` or `A-Z`); 36 when it is none. */
  function DigitOf(c: char): (d: nat)
    ensures d <= 36
    ensures d < 10 <==> IsDigit(c)
  {
    if '0' <= c <= '9' then c as int - '0' as int
    else if 'a' <= c <= 'z' then c as int - 'a' as int + 10
    else if 'A' <= c <= 'Z' then c as int - 'A' as int + 10
    else 36
  }

  /** Every character of `s` is a digit of base `radix`. */
  predicate AllDigits(s: string, radix: nat) {
    forall i | 0 <= i < |s| :: DigitOf(s[i]) < radix
  }

  function DigitChar(d: nat): (c: char)
    requires d < 10
    ensures IsDigit(c) && DigitOf(c) == d
  {
    ('0' as int + d) as char
  }

  /** The number of white-space characters at the start of `s`: where `parseInt` starts reading. */
  function LeadingSpaces(s: string): (n: nat)
    ensures n <= |s|
    ensures forall i | 0 <= i < n :: IsSpace(s[i])
    ensures n < |s| ==> !IsSpace(s[n])
  {
    if s != [] && IsSpace(s[0]) then 1 + LeadingSpaces(s[1..]) else 0
  }

  /** The longest prefix of `s` made of digits of base `radix`: where `parseInt` stops reading. */
  function DigitPrefix(s: string, radix: nat): (p: string)
    ensures |p| <= |s| && p == s[..|p|]
    ensures AllDigits(p, radix)
    ensures |p| < |s| ==> DigitOf(s[|p|]) >= radix
  {
    if s != [] && DigitOf(s[0]) < radix then [s[0]] + DigitPrefix(s[1..], radix) else []
  }

  /** The value of a run of digits of base `radix`, most significant digit first. */
  function DigitsValue(d: string, radix: nat): nat
    requires AllDigits(d, radix)
  {
    if d == [] then 0 else radix * DigitsValue(d[..|d| - 1], radix) + DigitOf(d[|d| - 1])
  }

  /** The decimal numeral of a non-negative integer, without leading zeros. */
  function NatDigits(n: nat): (s: string)
    ensures |s| > 0 && AllDigits(s, 10)
    ensures (|s| > 1 || n > 0) ==> s[0] != '0'
  {
    if n < 10 then [DigitChar(n)] else NatDigits(n / 10) + [DigitChar(n % 10)]
  }

  /** `Number.prototype.toString` on an integer value: a minus sign exactly for negatives, then decimal digits. */
  function ToDecimal(i: int): (s: string)
    ensures |s| > 0 && (s[0] == '-' <==> i < 0)
    ensures AllDigits(if i < 0 then s[1..] else s, 10)
  {
    if i < 0 then "-" + NatDigits(-i) else NatDigits(i)
  }

  /** The value of the leading digits of base `radix`, or NaN when there are none. */
  function ParseDigits(s: string, radix: nat): Option<nat> {
    var digits := DigitPrefix(s, radix);
    if digits == [] then None else Some(DigitsValue(digits, radix))
  }

  /** `parseInt` on the text after the sign: hexadecimal after `0x` or `0X`, decimal otherwise. */
  function ParseUnsigned(s: string): Option<nat> {
    if |s| >= 2 && s[0] == '0' && (s[1] == 'x' || s[1] == 'X') then
      ParseDigits(s[2..], 16)
    else
      ParseDigits(s, 10)
  }

  /** `parseInt` after the white space: an optional sign, then the unsigned number. */
  function ParseSigned(t: string): Option<int> {
    if |t| > 0 && t[0] == '-' then
      match ParseUnsigned(t[1..])
      case Some(n) => Some(-(n as int))
      case None => None
    else if |t| > 0 && t[0] == '+' then
      match ParseUnsigned(t[1..])
      case Some(n) => Some(n)
      case None => None
    else
      match ParseUnsigned(t)
      case Some(n) => Some(n)
      case None => None
  }

  /** `parseInt(s)` with no radix argument; `None` stands for NaN. */
  function ParseInt(s: string): Option<int> {
    ParseSigned(s[LeadingSpaces(s)..])
  }

  /** Text that does not start with white space is read from its first character. */
  lemma ParseIntNoSpace(s: string)
    requires s == [] || !IsSpace(s[0])
    ensures ParseInt(s) == ParseSigned(s)
  {
  }

  /** Leading white space does not change what `parseInt` reads. */
  lemma ParseIntSkipsSpace(c: char, s: string)
    requires IsSpace(c)
    ensures ParseInt([c] + s) == ParseInt(s)
  {
    assert ([c] + s)[1..] == s;
  }

  lemma {:induction false} DigitPrefixOfDigits(d: string, rest: string)
    requires AllDigits(d, 10)
    requires rest == [] || !IsDigit(rest[0])
    ensures DigitPrefix(d + rest, 10) == d
  {
    if d != [] {
      assert (d + rest)[1..] == d[1..] + rest;
      DigitPrefixOfDigits(d[1..], rest);
    }
  }

  lemma {:induction false} DigitsValueOfNatDigits(n: nat)
    ensures DigitsValue(NatDigits(n), 10) == n
  {
    if n >= 10 {
      var s := NatDigits(n);
      assert s[..|s| - 1] == NatDigits(n / 10);
      DigitsValueOfNatDigits(n / 10);
    }
  }

  /**
   * A numeral followed by text that does not continue it reads as the
   * numeral's value; after the numeral `0`, an `x` would start a hexadecimal number.
   */
  lemma ParseUnsignedOfNatDigits(n: nat, rest: string)
    requires rest == [] || !IsDigit(rest[0])
    requires n == 0 && rest != [] ==> rest[0] != 'x' && rest[0] != 'X'
    ensures ParseUnsigned(NatDigits(n) + rest) == Some(n)
  {
    var s := NatDigits(n) + rest;
    DigitPrefixOfDigits(NatDigits(n), rest);
    DigitsValueOfNatDigits(n);
    assert !(|s| >= 2 && s[0] == '0' && (s[1] == 'x' || s[1] == 'X')) by {
      if |s| >= 2 && s[0] == '0' {
        assert |NatDigits(n)| == 1 && n == 0 && s[1] == rest[0];
      }
    }
  }

  /** A leading minus sign, not being white space, starts the number and negates what follows. */
  lemma ParseSignedMinus(t: string, n: nat)
    requires ParseUnsigned(t) == Some(n)
    ensures ParseInt(['-'] + t) == Some(-(n as int))
  {
    var s := ['-'] + t;
    ParseIntNoSpace(s);
    assert s[1..] == t;
  }

  lemma NegativeText(i: int, rest: string)
    requires i < 0
    ensures ToDecimal(i) + rest == ['-'] + (NatDigits(-i) + rest)
  {
  }

  lemma ParseIntOfNegative(i: int, rest: string)
    requires i < 0
    requires rest == [] || !IsDigit(rest[0])
    ensures ParseInt(ToDecimal(i) + rest) == Some(i)
  {
    var n: nat := -i;
    ParseUnsignedOfNatDigits(n, rest);
    ParseSignedMinus(NatDigits(n) + rest, n);
    NegativeText(i, rest);
  }

  lemma ParseIntOfNonNegative(i: int, rest: string)
    requires i >= 0
    requires rest == [] || !IsDigit(rest[0])
    requires i == 0 && rest != [] ==> rest[0] != 'x' && rest[0] != 'X'
    ensures ParseInt(ToDecimal(i) + rest) == Some(i)
  {
    var s := ToDecimal(i) + rest;
    ParseUnsignedOfNatDigits(i, rest);
    assert s == NatDigits(i) + rest && IsDigit(s[0]);
    ParseIntNoSpace(s);
  }

  /**
   * Reading back a printed value gives the value, when what follows does not
   * continue the number: no digit, and no `x` or `X` after a lone `0`.
   */
  lemma ParseIntOfToDecimal(i: int, rest: string)
    requires rest == [] || !IsDigit(rest[0])
    requires i == 0 && rest != [] ==> rest[0] != 'x' && rest[0] != 'X'
    ensures ParseInt(ToDecimal(i) + rest) == Some(i)
  {
    if i < 0 {
      ParseIntOfNegative(i, rest);
    } else {
      ParseIntOfNonNegative(i, rest);
    }
  }

  /** After the printed `0`, the text `x10` is read as the hexadecimal number 16. */
  lemma ZeroThenHexText()
    ensures ParseInt(ToDecimal(0) + "x10") == Some(16)
  {
    var s := "0x10";
    assert ToDecimal(0) + "x10" == s by {
      assert DigitChar(0) == '0';
    }
    ParseIntNoSpace(s);
    assert ParseUnsigned(s) == ParseDigits(s[2..], 16);
    HexTen(s[2..]);
  }

  lemma HexTen(t: string)
    requires t == "10"
    ensures ParseDigits(t, 16) == Some(16)
  {
    assert DigitPrefix(t[1..], 16) == t[1..] by {
      assert t[1..] == "0";
      assert DigitPrefix("0"[1..], 16) == [];
    }
    assert DigitPrefix(t, 16) == t;
    assert t[..1] == "1";
    assert DigitsValue(t[..1], 16) == 1 by {
      assert "1"[..0] == [];
    }
  }

  /** The text "NaN" that `toString` gives for NaN reads back as NaN. */
  lemma ParseIntOfNaN()
    ensures ParseInt("NaN") == None
  {
    ParseIntNoSpace("NaN");
    assert DigitPrefix("NaN", 10) == [];
  }

  /** `parseInt` inverts `toString` on integers. */
  lemma ParseIntRoundTrip(i: int)
    ensures ParseInt(ToDecimal(i)) == Some(i)
  {
    ParseIntOfToDecimal(i, []);
    assert ToDecimal(i) + [] == ToDecimal(i);
  }

  /** Distinct values print as distinct strings. */
  lemma ToDecimalInjective(i: int, j: int)
    ensures ToDecimal(i) == ToDecimal(j) <==> i == j
  {
    ParseIntRoundTrip(i);
    ParseIntRoundTrip(j);
  }
}
