/** PHP strings are sequences of bytes. The model writes a byte as the
    `char` whose code is that byte, so that string literals read as usual. */
module PhpStrings {
  import opened Wrappers

  type Byte = c: char | c as int < 256
  type Bytes = seq<Byte>

  predicate IsDigit(c: Byte) { '0' <= c <= '9' }

  predicate IsDigitString(s: Bytes) {
    |s| > 0 && forall i :: 0 <= i < |s| ==> IsDigit(s[i])
  }

  function DigitChar(d: int): (c: Byte)
    requires 0 <= d < 10
    ensures IsDigit(c) && c as int - '0' as int == d
  {
    ('0' as int + d) as char
  }

  /** The decimal digits of `n`, most significant first, without leading zeros. */
  function Digits(n: nat): (s: Bytes)
    ensures IsDigitString(s)
    ensures s[0] == '0' ==> n == 0
  {
    if n < 10 then [DigitChar(n)] else Digits(n / 10) + [DigitChar(n % 10)]
  }

  /** PHP's conversion of an integer to a string, as done by `'...' . $n`:
      a minus sign for negative values, then the decimal digits. */
  function IntToString(n: int): (s: Bytes)
    ensures |s| > 0
    ensures forall i :: 0 <= i < |s| ==> IsDigit(s[i]) || s[i] == '-'
  {
    if n < 0 then ['-'] + Digits(-n) else Digits(n)
  }

  /** The value of a string of decimal digits. */
  function DigitsValue(s: Bytes): nat
    requires forall i :: 0 <= i < |s| ==> IsDigit(s[i])
  {
    if |s| == 0 then 0
    else
      assert IsDigit(s[|s| - 1]);
      DigitsValue(s[..|s| - 1]) * 10 + (s[|s| - 1] as int - '0' as int)
  }

  /** Reads a decimal integer back: an optional minus sign and at least one digit. */
  function ParseInt(s: Bytes): Option<int>
  {
    if |s| > 0 && s[0] == '-' then
      if IsDigitString(s[1..]) then Some(0 - DigitsValue(s[1..]) as int) else None
    else if IsDigitString(s) then Some(DigitsValue(s))
    else None
  }

  lemma {:induction false} DigitsRoundTrip(n: nat)
    ensures DigitsValue(Digits(n)) == n
  {
    if n >= 10 {
      var s := Digits(n);
      assert s[..|s| - 1] == Digits(n / 10);
      DigitsRoundTrip(n / 10);
    }
  }

  /** Reading back the string PHP makes of an integer gives that integer. */
  lemma IntToStringRoundTrip(n: int)
    ensures ParseInt(IntToString(n)) == Some(n)
  {
    if n < 0 {
      DigitsRoundTrip(-n);
      assert IntToString(n)[1..] == Digits(-n);
    } else {
      DigitsRoundTrip(n);
    }
  }

  /** Distinct integers give distinct strings. */
  lemma IntToStringInjective(m: int, n: int)
    ensures IntToString(m) == IntToString(n) ==> m == n
  {
    IntToStringRoundTrip(m);
    IntToStringRoundTrip(n);
  }

  /** PHP 7's and 8's `substr($s, 0, $length)` for a non-negative length: the first
      `length` bytes, or the whole string when it is shorter. */
  function Prefix(s: Bytes, length: nat): (r: Bytes)
    ensures |r| == if |s| < length then |s| else length
    ensures forall i :: 0 <= i < |r| ==> r[i] == s[i]
  {
    if |s| < length then s else s[..length]
  }
}
