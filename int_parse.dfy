/**
  The part of JavaScript's `parseInt` (called without a radix) that the input
  guard relies on: an optional sign, then either `0x`/`0X` and the longest run
  of hexadecimal digits, or the longest run of decimal digits. No digit at all
  reads as NaN (`None`). Characters after the digits are ignored, so "12abc"
  reads as 12 and "0x10" as 16.
 */
module IntParse {

  import opened Wrappers

  predicate IsDigit(c: char)
  {
    '0' <= c <= '9'
  }

  /** `c` is a digit of base `radix`, which is 16 or taken as 10. */
  predicate IsDigitIn(c: char, radix: nat)
  {
    if radix == 16 then IsDigit(c) || 'a' <= c <= 'f' || 'A' <= c <= 'F'
    else IsDigit(c)
  }

  predicate AllDigitsIn(s: string, radix: nat)
  {
    forall j :: 0 <= j < |s| ==> IsDigitIn(s[j], radix)
  }

  function DigitValue(c: char): (d: nat)
    requires IsDigitIn(c, 16)
    ensures d < 16 && (IsDigit(c) ==> d < 10)
  {
    if IsDigit(c) then (c as int) - ('0' as int)
    else if 'a' <= c <= 'f' then (c as int) - ('a' as int) + 10
    else (c as int) - ('A' as int) + 10
  }

  function DigitChar(d: nat): (c: char)
    requires d < 10
    ensures IsDigit(c) && DigitValue(c) == d
  {
    ('0' as int + d) as char
  }

  /** The longest prefix of `s` made of digits of base `radix`. */
  function DigitPrefix(s: string, radix: nat): (p: string)
    ensures p <= s && AllDigitsIn(p, radix)
    ensures |p| < |s| ==> !IsDigitIn(s[|p|], radix)
  {
    if |s| > 0 && IsDigitIn(s[0], radix) then [s[0]] + DigitPrefix(s[1..], radix) else []
  }

  /** The number a run of digits denotes in base `radix`, most significant first. */
  function DigitsValue(d: string, radix: nat): nat
    requires AllDigitsIn(d, radix)
  {
    if |d| == 0 then 0
    else DigitsValue(d[..|d| - 1], radix) * (if radix == 16 then 16 else 10) + DigitValue(d[|d| - 1])
  }

  /** The text after the sign starts with `0x` or `0X`. */
  predicate HasHexPrefix(body: string)
  {
    |body| >= 2 && body[0] == '0' && (body[1] == 'x' || body[1] == 'X')
  }

  /** The unsigned part of `parseInt`: a hex numeral after `0x`/`0X`, otherwise
      a decimal one; NaN when no digit follows. */
  function ParseMagnitude(body: string): Option<nat>
  {
    var radix := if HasHexPrefix(body) then 16 else 10;
    var digits := DigitPrefix(if HasHexPrefix(body) then body[2..] else body, radix);
    if digits == [] then None else Some(DigitsValue(digits, radix))
  }

  /** `parseInt` without a radix: an optional sign, then the magnitude. */
  function ParseInt(s: string): Option<int>
  {
    var negative := |s| > 0 && s[0] == '-';
    var body := if |s| > 0 && (s[0] == '-' || s[0] == '+') then s[1..] else s;
    match ParseMagnitude(body)
    case None => None
    case Some(m) =>
      var magnitude: int := m;
      Some(if negative then -magnitude else magnitude)
  }

  /** The decimal numeral of `n`, without leading zeros. */
  function Decimal(n: nat): (s: string)
    ensures |s| > 0 && AllDigitsIn(s, 10)
    ensures s[0] == '0' <==> n == 0
    ensures n < 10 ==> |s| == 1
  {
    if n < 10 then [DigitChar(n)] else Decimal(n / 10) + [DigitChar(n % 10)]
  }

  lemma {:induction false} DecimalValue(n: nat)
    ensures DigitsValue(Decimal(n), 10) == n
  {
    if n >= 10 {
      DecimalValue(n / 10);
      var s := Decimal(n);
      assert s[..|s| - 1] == Decimal(n / 10);
    }
  }

  /** The digit prefix of a run of digits followed by a non-digit (or nothing)
      is that run. */
  lemma {:induction false} DigitPrefixStopsAtNonDigit(d: string, t: string, radix: nat)
    requires AllDigitsIn(d, radix)
    requires t == [] || !IsDigitIn(t[0], radix)
    ensures DigitPrefix(d + t, radix) == d
  {
    if |d| > 0 {
      assert (d + t)[1..] == d[1..] + t;
      DigitPrefixStopsAtNonDigit(d[1..], t, radix);
    } else {
      assert d + t == t;
    }
  }

  /** The magnitude of a decimal numeral followed by a non-digit (or nothing)
      is its number, unless "0" is followed by `x` or `X`. */
  lemma MagnitudeOfDecimal(n: nat, t: string)
    requires t == [] || !IsDigit(t[0])
    requires n == 0 ==> t == [] || (t[0] != 'x' && t[0] != 'X')
    ensures ParseMagnitude(Decimal(n) + t) == Some(n)
  {
    var body := Decimal(n) + t;
    DecimalValue(n);
    DigitPrefixStopsAtNonDigit(Decimal(n), t, 10);
    if n == 0 && t != [] {
      assert body[1] == t[0];
    }
    assert !HasHexPrefix(body);
  }

  /** Text starting with a digit reads as its magnitude, and with a minus
      sign in front as its negation. */
  lemma ParseIntSigned(body: string)
    requires |body| > 0 && IsDigit(body[0])
    ensures ParseInt(body) == ParseMagnitude(body)
    ensures ParseMagnitude(body).Some? ==>
      ParseInt("-" + body) == Some(-(ParseMagnitude(body).value as int))
  {
    assert ("-" + body)[1..] == body;
  }

  /** Reading back a decimal numeral, with or without a minus sign and followed
      by anything that does not start with a digit, gives the number. The one
      exception is "0" followed by `x` or `X`, which starts a hex numeral. */
  lemma ParseIntDecimal(n: nat, t: string)
    requires t == [] || !IsDigit(t[0])
    requires n == 0 ==> t == [] || (t[0] != 'x' && t[0] != 'X')
    ensures ParseInt(Decimal(n) + t) == Some(n)
    ensures ParseInt("-" + (Decimal(n) + t)) == Some(-(n as int))
  {
    var body := Decimal(n) + t;
    assert ParseMagnitude(body) == Some(n) by {
      MagnitudeOfDecimal(n, t);
    }
    assert |body| > 0 && IsDigit(body[0]) by {
      assert body[0] == Decimal(n)[0];
    }
    ParseIntSigned(body);
  }

  /** After `0x`, a run of hex digits followed by anything that does not start
      with a hex digit reads as its base-16 value; no hex digit reads as NaN. */
  lemma ParseIntHex(d: string, t: string)
    requires AllDigitsIn(d, 16)
    requires t == [] || !IsDigitIn(t[0], 16)
    ensures ParseInt("0x" + d + t) == if d == [] then None else Some(DigitsValue(d, 16))
  {
    var s := "0x" + d + t;
    assert HasHexPrefix(s);
    assert s[2..] == d + t;
    DigitPrefixStopsAtNonDigit(d, t, 16);
    assert ParseMagnitude(s) == if d == [] then None else Some(DigitsValue(d, 16));
  }

  /** Text whose first character after an optional sign is not a digit reads as NaN. */
  lemma ParseIntNoDigits(s: string)
    requires var body := if |s| > 0 && (s[0] == '-' || s[0] == '+') then s[1..] else s;
             body == [] || !IsDigit(body[0])
    ensures ParseInt(s) == None
  {
  }
}
