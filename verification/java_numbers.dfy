/** Java integer semantics that the report relies on: the 32-bit `int` used for
    hit counts and the error tally, the 64-bit `long` range of timestamps, `/`
    rounding toward zero, and `Long.parseLong` / `Long.toString` on ASCII digits. */
module JavaNumbers {

  /** The result of a parse that can fail. */
  datatype Option<+T> = None | Some(value: T)

  const IntMin: int := -0x8000_0000
  const IntMax: int := 0x7fff_ffff
  const IntModulus: int := 0x1_0000_0000
  const LongMin: int := -0x8000_0000_0000_0000
  const LongMax: int := 0x7fff_ffff_ffff_ffff

  predicate IsInt(x: int) { IntMin <= x <= IntMax }

  predicate IsLong(x: int) { LongMin <= x <= LongMax }

  /** `x + 1` evaluated on a Java `int` (two's complement, wrapping at IntMax). */
  function Inc32(x: int): (r: int)
    ensures IsInt(r)
    ensures (r - (x + 1)) % IntModulus == 0
    ensures IsInt(x) && x < IntMax ==> r == x + 1
  {
    (x + 1 - IntMin) % IntModulus + IntMin
  }

  /** Java's `a / b` for a positive divisor: the quotient is rounded toward zero
      (section 15.17.2 of the Java Language Specification), unlike Dafny's
      Euclidean `/`, which rounds a negative dividend down. */
  function JavaDiv(a: int, b: int): (q: int)
    requires b > 0
    ensures a >= 0 ==> q >= 0 && q * b <= a < q * b + b
    ensures a < 0 ==> q <= 0 && q * b - b < a <= q * b
  {
    if a >= 0 then a / b else -((-a) / b)
  }

  predicate IsDigit(c: char) { '0' <= c <= '9' }

  predicate AllDigits(s: string) { forall i :: 0 <= i < |s| ==> IsDigit(s[i]) }

  function DigitValue(c: char): (v: nat)
    requires IsDigit(c)
    ensures v < 10
  {
    c as int - '0' as int
  }

  function DigitChar(v: nat): (c: char)
    requires v < 10
    ensures IsDigit(c) && DigitValue(c) == v
  {
    ('0' as int + v) as char
  }

  /** The value of a string of decimal digits, most significant first. */
  function DigitsValue(s: string): nat
    requires AllDigits(s)
  {
    if |s| == 0 then 0 else DigitsValue(s[..|s| - 1]) * 10 + DigitValue(s[|s| - 1])
  }

  /** `Long.parseLong(s)`: an optional `-` or `+` followed by at least one digit,
      whose value lies in the `long` range; anything else is a
      `NumberFormatException`, modelled as None. */
  function ParseLong(s: string): (r: Option<int>)
    ensures r.Some? ==> IsLong(r.value)
    ensures r.Some? ==> |s| > 0 && AllDigits(s[1..])
    ensures r.Some? && r.value < 0 ==> s[0] == '-'
    ensures r.Some? ==> IsDigit(s[0]) || ((s[0] == '-' || s[0] == '+') && |s| >= 2)
    ensures r.Some? ==> r.value == if s[0] == '-' then -(DigitsValue(s[1..]) as int)
                                   else if s[0] == '+' then DigitsValue(s[1..])
                                   else DigitsValue(s)
    ensures (|s| > 0 && AllDigits(s) && DigitsValue(s) <= LongMax) ==> r == Some(DigitsValue(s))
    ensures (|s| >= 2 && (s[0] == '-' || s[0] == '+') && AllDigits(s[1..])
             && IsLong(if s[0] == '-' then -(DigitsValue(s[1..]) as int) else DigitsValue(s[1..])))
            ==> r.Some?
  {
    if |s| == 0 then None
    else if s[0] == '-' || s[0] == '+' then
      var body := s[1..];
      if |body| == 0 || !AllDigits(body) then None
      else
        var v: int := if s[0] == '-' then -(DigitsValue(body) as int) else DigitsValue(body);
        if IsLong(v) then Some(v) else None
    else if AllDigits(s) && DigitsValue(s) <= LongMax then Some(DigitsValue(s))
    else None
  }

  /** Decimal digits of a natural number, without leading zeros. */
  function NatToDigits(n: nat): (s: string)
    ensures |s| > 0 && AllDigits(s)
  {
    if n < 10 then [DigitChar(n)] else NatToDigits(n / 10) + [DigitChar(n % 10)]
  }

  /** `Long.toString(n)`: a minus sign for negative values, then the digits. */
  function LongToString(n: int): (s: string)
    ensures |s| > 0
  {
    if n < 0 then "-" + NatToDigits(-n) else NatToDigits(n)
  }

  lemma {:induction false} DigitsRoundTrip(n: nat)
    ensures DigitsValue(NatToDigits(n)) == n
  {
    if n >= 10 {
      var s := NatToDigits(n);
      assert s[..|s| - 1] == NatToDigits(n / 10);
      DigitsRoundTrip(n / 10);
    }
  }

  /** Parsing what `Long.toString` printed gives the number back. */
  lemma ParseLongRoundTrip(n: int)
    requires IsLong(n)
    ensures ParseLong(LongToString(n)) == Some(n)
  {
    var s := LongToString(n);
    if n < 0 {
      DigitsRoundTrip(-n);
      assert s[0] == '-' && s[1..] == NatToDigits(-n);
      assert DigitsValue(s[1..]) == -n;
    } else {
      DigitsRoundTrip(n);
      assert s == NatToDigits(n) && IsDigit(s[0]);
      assert DigitsValue(s) == n;
    }
  }
}
