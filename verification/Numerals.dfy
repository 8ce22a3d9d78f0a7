/** Numbers as text, and back: what printf's %u and %x write, and what from_chars reads. */
module Numerals {
  import opened Wrappers

  function DigitChar(d: nat): char
    requires d < 16
  {
    if d < 10 then '0' + d as char else 'a' + (d - 10) as char
  }

  /** Either case is read; only lower case is written. */
  function DigitValue(c: char, base: nat): Option<nat> {
    var d :=
      if '0' <= c <= '9' then (c - '0') as nat
      else if 'a' <= c <= 'z' then (c - 'a') as nat + 10
      else if 'A' <= c <= 'Z' then (c - 'A') as nat + 10
      else base;
    if d < base then Some(d) else None
  }

  /** The two bases in use. */
  predicate Base(base: nat) {
    base == 10 || base == 16
  }

  /** n without its last digit. */
  function Front(n: nat, base: nat): nat
    requires Base(base)
  {
    if base == 10 then n / 10 else n / 16
  }

  function Last(n: nat, base: nat): (d: nat)
    requires Base(base)
    ensures d < base
  {
    if base == 10 then n % 10 else n % 16
  }

  function Extend(v: nat, base: nat, d: nat): nat {
    if base == 10 then 10 * v + d else 16 * v + d
  }

  function Numeral(n: nat, base: nat): (text: string)
    requires Base(base)
    ensures |text| > 0
    decreases n
  {
    if n < base then [DigitChar(n)] else Numeral(Front(n, base), base) + [DigitChar(Last(n, base))]
  }

  /** The value of a text of digits only. */
  function ValueOf(text: string, base: nat): Option<nat> {
    if text == "" then Some(0)
    else
      var last := |text| - 1;
      match (ValueOf(text[..last], base), DigitValue(text[last], base))
      case (Some(v), Some(d)) => Some(Extend(v, base, d))
      case _ => None
  }

  /** parse_uint */
  function ParseUint(text: string, base: nat, max: nat): Option<nat> {
    if text == "" || |text| > 8 then None
    else
      match ValueOf(text, base)
      case Some(v) => if v > max then None else Some(v)
      case None => None
  }

  predicate IsDigit(c: char) {
    '0' <= c <= '9' || 'a' <= c <= 'f'
  }

  lemma DigitRoundTrip(d: nat, base: nat)
    requires d < base <= 16
    ensures DigitValue(DigitChar(d), base) == Some(d) && IsDigit(DigitChar(d))
  {
  }

  lemma {:induction false} NumeralValue(n: nat, base: nat)
    requires Base(base)
    ensures ValueOf(Numeral(n, base), base) == Some(n)
    ensures forall i :: 0 <= i < |Numeral(n, base)| ==> IsDigit(Numeral(n, base)[i])
    decreases n
  {
    var text := Numeral(n, base);
    if n < base {
      DigitRoundTrip(n, base);
      assert ValueOf(text[..0], base) == Some(0);
    } else {
      DigitRoundTrip(Last(n, base), base);
      NumeralValue(Front(n, base), base);
      assert text[..|text| - 1] == Numeral(Front(n, base), base);
    }
  }

  lemma {:induction false} NoValue(text: string, base: nat, i: nat)
    requires i < |text| && DigitValue(text[i], base).None?
    ensures ValueOf(text, base).None?
  {
    var last := |text| - 1;
    if i < last {
      assert text[..last][i] == text[i];
      NoValue(text[..last], base, i);
    }
  }

  const LOWER := "0123456789abcdef"
  const UPPER := "0123456789ABCDEF"

  /** The digits, of which either case is read and only lower case is written. */
  lemma DigitsAre(c: char, d: nat, base: nat)
    requires Base(base)
    ensures d < 16 ==> DigitChar(d) == LOWER[d]
    ensures DigitValue(c, base) == Some(d) <==> d < base && (c == LOWER[d] || c == UPPER[d])
  {
    assert forall i :: 0 <= i < 10 ==> LOWER[i] == '0' + i as char && UPPER[i] == '0' + i as char;
    assert forall i :: 10 <= i < 16 ==> LOWER[i] == 'a' + (i - 10) as char && UPPER[i] == 'A' + (i - 10) as char;
  }

  lemma {:induction false} ValueIfDigits(text: string, base: nat)
    requires forall c :: c in text ==> DigitValue(c, base).Some?
    ensures ValueOf(text, base).Some?
  {
    if text == "" {
    } else {
      ValueIfDigits(text[..|text| - 1], base);
    }
  }

  /** A text has a value exactly when it has nothing but digits. */
  lemma OnlyDigits(text: string, base: nat)
    ensures ValueOf(text, base).Some? <==> forall c :: c in text ==> DigitValue(c, base).Some?
  {
    if c :| c in text && DigitValue(c, base).None? {
      var i :| 0 <= i < |text| && text[i] == c;
      NoValue(text, base, i);
    } else {
      ValueIfDigits(text, base);
    }
  }

  /** Digits count by their place: the ones in front are worth as much more as there are digits behind. */
  lemma {:induction false} ValueOfBoth(a: string, b: string, base: nat)
    requires Base(base) && ValueOf(a, base).Some? && ValueOf(b, base).Some?
    ensures ValueOf(a + b, base) == Some(ValueOf(a, base).value * Power(base, |b|) + ValueOf(b, base).value)
  {
    if b == "" {
      assert a + b == a;
    } else {
      var n := |b| - 1;
      ValueOfBoth(a, b[..n], base);
      assert (a + b)[..|a + b| - 1] == a + b[..n];
      Scaled(ValueOf(a, base).value, Power(base, n), base);
    }
  }

  lemma Scaled(v: nat, p: nat, base: nat)
    requires Base(base)
    ensures v * Extend(p, base, 0) == Extend(v * p, base, 0)
  {
  }

  /** No superfluous zero in front, as section 4.1 of RFC 5952 asks. */
  lemma {:induction false} NoLeadingZero(n: nat, base: nat)
    requires Base(base)
    ensures Numeral(n, base)[0] == '0' ==> n == 0 && |Numeral(n, base)| == 1
    decreases n
  {
    if n >= base {
      NoLeadingZero(Front(n, base), base);
      assert Front(n, base) >= 1;
    }
  }

  lemma {:induction false} NumeralLength(n: nat, base: nat, k: nat, bound: nat)
    requires Base(base) && k > 0 && n < bound && bound == Power(base, k)
    ensures |Numeral(n, base)| <= k
    decreases k
  {
    if n >= base {
      assert k > 1;
      NumeralLength(Front(n, base), base, k - 1, Power(base, k - 1));
    }
  }

  function Power(base: nat, k: nat): nat {
    if k == 0 then 1 else Extend(Power(base, k - 1), base, 0)
  }

  /** A text of decimal digits without a superfluous zero is the numeral of its value. */
  lemma {:induction false} ValueNumeral(text: string)
    requires text != "" && ValueOf(text, 10).Some? && (|text| > 1 ==> text[0] != '0')
    ensures Numeral(ValueOf(text, 10).value, 10) == text
  {
    var n := |text| - 1;
    var d := DigitValue(text[n], 10).value;
    assert DigitChar(d) == text[n];
    if n == 0 {
      assert text[..0] == "";
      assert text == [text[0]];
    } else {
      assert text[..n] != "" && (|text[..n]| > 1 ==> text[..n][0] == text[0]);
      ValueNumeral(text[..n]);
      var v := ValueOf(text[..n], 10).value;
      LeadingDigit(text[..n]);
      assert Front(10 * v + d, 10) == v && Last(10 * v + d, 10) == d;
      assert text == text[..n] + [text[n]];
    }
  }

  lemma {:induction false} LeadingDigit(text: string)
    requires text != "" && ValueOf(text, 10).Some? && text[0] != '0'
    ensures ValueOf(text, 10).value > 0
  {
    var n := |text| - 1;
    if n > 0 {
      assert text[..n][0] == text[0];
      LeadingDigit(text[..n]);
    } else {
      assert text[..0] == "";
    }
  }

  // ---- decimal octets and hexadecimal groups ----

  function Decimal(n: nat): string {
    Numeral(n, 10)
  }

  function Hex(n: nat): string {
    Numeral(n, 16)
  }

  /** What parse_v4 makes of one part: a superfluous zero is refused. */
  function ParseOctet(part: string): Option<nat> {
    if |part| > 1 && part[0] == '0' then None else ParseUint(part, 10, 255)
  }

  /** An octet is read from its own numeral and from nothing else. */
  lemma OctetRoundTrip(part: string, n: nat)
    ensures ParseOctet(part) == Some(n) <==> n <= 255 && part == Decimal(n)
  {
    if n <= 255 && part == Decimal(n) {
      NumeralValue(n, 10);
      NoLeadingZero(n, 10);
      assert Power(10, 3) == 1000;
      NumeralLength(n, 10, 3, 1000);
    }
    if ParseOctet(part) == Some(n) {
      ValueNumeral(part);
    }
  }

  lemma GroupRoundTrip(n: nat)
    requires n <= 0xFFFF
    ensures ParseUint(Hex(n), 16, 0xFFFF) == Some(n) && |Hex(n)| <= 4
  {
    NumeralValue(n, 16);
    assert Power(16, 4) == 0x1_0000;
    NumeralLength(n, 16, 4, 0x1_0000);
  }

  /** Separators do not occur in numerals. */
  lemma NumeralIsPlain(n: nat, base: nat, c: char)
    requires Base(base) && !IsDigit(c)
    ensures c !in Numeral(n, base)
  {
    NumeralValue(n, base);
  }
}
