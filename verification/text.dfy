/** Decimal text as .NET renders it: `int.ToString()` for identifiers and
    the zero-padded fixed-width numeric fields of custom date and time
    patterns. Digits are ASCII; the invariant culture is assumed throughout. */
module Text {
  import opened Wrappers

  predicate IsDigit(c: char) {
    '0' <= c <= '9'
  }

  predicate AllDigits(s: string) {
    forall i :: 0 <= i < |s| ==> IsDigit(s[i])
  }

  function DigitValue(c: char): (d: nat)
    requires IsDigit(c)
    ensures d < 10
  {
    c as int - '0' as int
  }

  function DigitChar(d: nat): (c: char)
    requires d < 10
    ensures IsDigit(c) && DigitValue(c) == d
  {
    ('0' as int + d) as char
  }

  function Pow10(n: nat): (p: nat)
    ensures p >= 1
  {
    if n == 0 then 1 else 10 * Pow10(n - 1)
  }

  /** The value of a string of decimal digits, most significant first. */
  function ParseDigits(s: string): (n: nat)
    requires AllDigits(s)
    ensures n < Pow10(|s|)
  {
    if |s| == 0 then 0
    else ParseDigits(s[..|s| - 1]) * 10 + DigitValue(s[|s| - 1])
  }

  /** Reads a `width`-digit field off the front of `s`, returning its
      value and the rest of the text; `None` when the text is too short or
      a character there is not a digit. */
  function ReadDigits(s: string, width: nat): (r: Option<(nat, string)>)
    ensures r.Some? ==> r.value.0 < Pow10(width)
  {
    if |s| >= width && AllDigits(s[..width]) then Some((ParseDigits(s[..width]), s[width..]))
    else None
  }

  /** Reads the literal character `c` off the front of `s`. */
  function ReadChar(s: string, c: char): Option<string> {
    if |s| >= 1 && s[0] == c then Some(s[1..]) else None
  }

  /** A numeric field of a custom format pattern ("dd", "yyyy", "fff"):
      exactly `width` digits, zero-padded on the left. */
  function PadDigits(n: nat, width: nat): (s: string)
    requires n < Pow10(width)
    ensures |s| == width
    ensures AllDigits(s)
    ensures ParseDigits(s) == n
  {
    if width == 0 then ""
    else
      var s := PadDigits(n / 10, width - 1) + [DigitChar(n % 10)];
      assert s[..|s| - 1] == PadDigits(n / 10, width - 1);
      s
  }

  /** A padded field reads back as its value, leaving what followed it. */
  lemma ReadPadded(n: nat, width: nat, rest: string)
    requires n < Pow10(width)
    ensures ReadDigits(PadDigits(n, width) + rest, width) == Some((n, rest))
  {
    var s := PadDigits(n, width) + rest;
    assert s[..width] == PadDigits(n, width);
    assert s[width..] == rest;
  }

  lemma ReadLiteral(c: char, rest: string)
    ensures ReadChar([c] + rest, c) == Some(rest)
  {
    assert ([c] + rest)[1..] == rest;
  }

  /** `ToString()` of a non-negative integer: the shortest digit string. */
  function NatToString(n: nat): (s: string)
    ensures |s| >= 1 && AllDigits(s)
    ensures |s| > 1 ==> s[0] != '0'
    ensures ParseDigits(s) == n
  {
    if n < 10 then [DigitChar(n)]
    else
      var s := NatToString(n / 10) + [DigitChar(n % 10)];
      assert s[..|s| - 1] == NatToString(n / 10);
      s
  }

  /** `ToString()` of a 32-bit `int` under the invariant culture: an
      optional '-' followed by the shortest digit string. */
  function IntToString(i: int): (s: string)
  {
    if i < 0 then "-" + NatToString(-i) else NatToString(i)
  }

  /** A digit string in the shortest form `ToString()` writes: no leading
      zero unless the number is zero itself. */
  predicate IsCanonicalDigits(s: string) {
    |s| >= 1 && AllDigits(s) && (|s| > 1 ==> s[0] != '0')
  }

  /** Reads back what `IntToString` writes, and nothing else: leading
      zeros, "-0", a bare "-" and non-digits are rejected. */
  function ParseInt(s: string): Option<int>
  {
    if |s| >= 2 && s[0] == '-' && s[1] != '0' && IsCanonicalDigits(s[1..]) then
      Some(-(ParseDigits(s[1..]) as int))
    else if IsCanonicalDigits(s) then Some(ParseDigits(s))
    else None
  }

  lemma IntToStringRoundTrip(i: int)
    ensures ParseInt(IntToString(i)) == Some(i)
  {
    if i < 0 {
      var s := IntToString(i);
      var digits := NatToString(-i);
      assert s[1..] == digits;
      assert s[1] == digits[0];
      assert digits[0] != '0' by {
        if |digits| == 1 {
          assert DigitValue(digits[0]) == -i;
        }
      }
      assert !IsDigit(s[0]);
    }
  }

  /** A digit string not starting with '0' names a positive number. */
  lemma {:induction false} LeadingNonZeroPositive(s: string)
    requires |s| >= 1 && AllDigits(s) && s[0] != '0'
    ensures ParseDigits(s) >= 1
  {
    if |s| > 1 {
      var prefix := s[..|s| - 1];
      assert prefix[0] == s[0];
      LeadingNonZeroPositive(prefix);
    }
  }

  /** A canonical digit string is the one `NatToString` writes for its
      value. */
  lemma {:induction false} CanonicalDigitsUnique(s: string)
    requires IsCanonicalDigits(s)
    ensures s == NatToString(ParseDigits(s))
  {
    var n := ParseDigits(s);
    var last := s[|s| - 1];
    if |s| == 1 {
      assert DigitChar(DigitValue(last)) == last;
    } else {
      var prefix := s[..|s| - 1];
      assert prefix[0] == s[0];
      assert AllDigits(prefix);
      LeadingNonZeroPositive(prefix);
      CanonicalDigitsUnique(prefix);
      assert n / 10 == ParseDigits(prefix) && n % 10 == DigitValue(last);
      assert DigitChar(DigitValue(last)) == last;
      assert s == prefix + [last];
    }
  }

  /** `ParseInt` accepts exactly the strings `IntToString` writes: the only
      text that reads as `i` is `i.ToString()`. */
  lemma ParseIntExact(s: string, i: int)
    ensures ParseInt(s) == Some(i) <==> s == IntToString(i)
  {
    if s == IntToString(i) {
      IntToStringRoundTrip(i);
    }
    if ParseInt(s) == Some(i) {
      if |s| >= 2 && s[0] == '-' && s[1] != '0' && IsCanonicalDigits(s[1..]) {
        CanonicalDigitsUnique(s[1..]);
        LeadingNonZeroPositive(s[1..]);
        assert s == "-" + s[1..];
      } else {
        CanonicalDigitsUnique(s);
      }
    }
  }

  /** Distinct identifiers render to distinct strings. */
  lemma IntToStringInjective(i: int, j: int)
    ensures IntToString(i) == IntToString(j) <==> i == j
  {
    if IntToString(i) == IntToString(j) {
      IntToStringRoundTrip(i);
      IntToStringRoundTrip(j);
    }
  }
}
