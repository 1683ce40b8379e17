/**
 * Decimal integer parsing as Go's `strconv.Atoi` performs it on a 64-bit platform,
 * and the decimal rendering that inverts it.
 */
module Strconv {
  import opened Wrappers

  /** The range of Go's `int` on a 64-bit platform. */
  const MinInt: int := -0x8000_0000_0000_0000
  const MaxInt: int := 0x7FFF_FFFF_FFFF_FFFF

  predicate IsDigit(c: char) {
    '0' <= c <= '9'
  }

  predicate AllDigits(s: string) {
    forall i :: 0 <= i < |s| ==> IsDigit(s[i])
  }

  function DigitValue(c: char): nat
    requires IsDigit(c)
  {
    c as int - '0' as int
  }

  function DigitChar(d: nat): (c: char)
    requires d < 10
    ensures IsDigit(c) && DigitValue(c) == d
  {
    ('0' as int + d) as char
  }

  /** The value of a string of decimal digits, most significant first. */
  function DecimalValue(s: string): nat
    requires AllDigits(s)
    decreases |s|
  {
    if |s| == 0 then 0 else 10 * DecimalValue(s[..|s| - 1]) + DigitValue(s[|s| - 1])
  }

  /** The part of `s` after an optional leading `+` or `-`. */
  function Magnitude(s: string): string {
    if |s| > 0 && (s[0] == '+' || s[0] == '-') then s[1..] else s
  }

  predicate Negative(s: string) {
    |s| > 0 && s[0] == '-'
  }

  /**
   * `strconv.Atoi`: one optional sign, then at least one decimal digit and nothing else
   * (no spaces, no underscores); a value outside the 64-bit range is an error.
   * `None` stands for a non-nil error.
   */
  function Atoi(s: string): (r: Option<int>)
    ensures r.Some? ==> MinInt <= r.value <= MaxInt
    ensures r.Some? ==> |Magnitude(s)| > 0 && AllDigits(Magnitude(s))
    ensures r.Some? ==> (r.value < 0 ==> Negative(s))
  {
    var digits := Magnitude(s);
    if |digits| == 0 || !AllDigits(digits) then None
    else
      var magnitude: int := DecimalValue(digits);
      var n := if Negative(s) then -magnitude else magnitude;
      if MinInt <= n <= MaxInt then Some(n) else None
  }

  /** The shortest decimal spelling of a natural number. */
  function NatDigits(n: nat): (s: string)
    ensures |s| > 0 && AllDigits(s)
    decreases n
  {
    if n < 10 then [DigitChar(n)] else NatDigits(n / 10) + [DigitChar(n % 10)]
  }

  /** Decimal rendering of an integer, as `strconv.Itoa` writes it. */
  function FormatInt(n: int): string {
    if n < 0 then "-" + NatDigits(-n) else NatDigits(n)
  }

  lemma {:induction false} DecimalValueOfNatDigits(n: nat)
    ensures DecimalValue(NatDigits(n)) == n
    decreases n
  {
    var s := NatDigits(n);
    if n >= 10 {
      DecimalValueOfNatDigits(n / 10);
      assert s[..|s| - 1] == NatDigits(n / 10);
    }
  }

  /** Every 64-bit integer survives a trip through its decimal rendering. */
  lemma AtoiFormatIntRoundTrip(n: int)
    requires MinInt <= n <= MaxInt
    ensures Atoi(FormatInt(n)) == Some(n)
  {
    var s := FormatInt(n);
    if n < 0 {
      DecimalValueOfNatDigits(-n);
      assert Magnitude(s) == NatDigits(-n);
    } else {
      DecimalValueOfNatDigits(n);
      assert IsDigit(s[0]);
      assert Magnitude(s) == NatDigits(n);
    }
  }

  /** `z` zero digits. */
  function Zeros(z: nat): (s: string)
    ensures |s| == z && AllDigits(s)
  {
    seq(z, _ => '0')
  }

  /**
   * A leading `+` and any run of leading zeros are accepted and change nothing, after
   * either sign; a minus sign negates the value, so `-0…0` parses as 0.
   */
  lemma AtoiIgnoresPlusAndLeadingZeros(z: nat, m: nat)
    ensures var u := Zeros(z) + NatDigits(m);
      && Atoi(u) == Atoi(NatDigits(m))
      && Atoi("+" + u) == Atoi(NatDigits(m))
      && Atoi("-" + u) == Atoi("-" + NatDigits(m))
    ensures m <= MaxInt ==> Atoi(NatDigits(m)) == Some(m)
    ensures m <= -MinInt ==> Atoi("-" + NatDigits(m)) == Some(-(m as int))
  {
    var d := NatDigits(m);
    DecimalValueOfNatDigits(m);
    LeadingZeros(z, d);
    var u := Zeros(z) + d;
    SameValueParsesAlike("", u, d);
    SameValueParsesAlike("+", u, d);
    SameValueParsesAlike("-", u, d);
    AtoiOfNatDigits(m);
  }

  /** Digit runs of equal value parse alike after the same sign, and a `+` changes nothing. */
  lemma SameValueParsesAlike(sign: string, u: string, v: string)
    requires sign == "" || sign == "+" || sign == "-"
    requires |u| > 0 && AllDigits(u) && |v| > 0 && AllDigits(v) && DecimalValue(u) == DecimalValue(v)
    ensures Atoi(sign + u) == Atoi(sign + v)
    ensures sign == "" ==> Atoi(u) == Atoi(v)
    ensures sign == "+" ==> Atoi(sign + u) == Atoi(v)
  {
    AtoiSigned(sign, u);
    AtoiSigned(sign, v);
    AtoiSigned("", v);
  }

  /** The shortest spelling of `m`, and of `-m`, parses back when in range. */
  lemma AtoiOfNatDigits(m: nat)
    ensures m <= MaxInt ==> Atoi(NatDigits(m)) == Some(m)
    ensures m <= -MinInt ==> Atoi("-" + NatDigits(m)) == Some(-(m as int))
  {
    DecimalValueOfNatDigits(m);
    if m <= MaxInt {
      AtoiDigits(NatDigits(m), m);
    }
    if m <= -MinInt {
      AtoiNegatedDigits(NatDigits(m), m);
    }
  }

  lemma AtoiDigits(u: string, m: nat)
    requires |u| > 0 && AllDigits(u) && DecimalValue(u) == m <= MaxInt
    ensures Atoi(u) == Some(m)
  {
    AtoiSigned("", u);
  }

  lemma AtoiNegatedDigits(u: string, m: nat)
    requires |u| > 0 && AllDigits(u) && DecimalValue(u) == m <= -MinInt
    ensures Atoi("-" + u) == Some(-(m as int))
  {
    AtoiSigned("-", u);
  }

  /** After an optional sign, a run of digits parses to its value when in range, with the sign's direction. */
  lemma AtoiSigned(sign: string, u: string)
    requires sign == "" || sign == "+" || sign == "-"
    requires |u| > 0 && AllDigits(u)
    ensures var n: int := if sign == "-" then -(DecimalValue(u) as int) else DecimalValue(u);
      Atoi(sign + u) == if MinInt <= n <= MaxInt then Some(n) else None
    ensures sign == "" ==> sign + u == u
  {
    if sign == "" {
      assert sign + u == u && IsDigit(u[0]);
    } else {
      SignedMagnitude(sign, u);
    }
  }

  lemma SignedMagnitude(sign: string, u: string)
    requires sign == "+" || sign == "-"
    ensures Magnitude(sign + u) == u && Negative(sign + u) == (sign == "-")
  {
    assert (sign + u)[1..] == u;
  }

  lemma {:induction false} LeadingZeros(z: nat, s: string)
    requires AllDigits(s)
    ensures AllDigits(Zeros(z) + s) && DecimalValue(Zeros(z) + s) == DecimalValue(s)
    decreases z
  {
    if z > 0 {
      LeadingZeros(z - 1, s);
      assert Zeros(z) + s == "0" + (Zeros(z - 1) + s);
      LeadingZero(Zeros(z - 1) + s);
    } else {
      assert Zeros(z) + s == s;
    }
  }

  lemma {:induction false} LeadingZero(s: string)
    requires AllDigits(s)
    ensures AllDigits("0" + s) && DecimalValue("0" + s) == DecimalValue(s)
    decreases |s|
  {
    if |s| > 0 {
      var t := "0" + s;
      assert t[..|t| - 1] == "0" + s[..|s| - 1];
      LeadingZero(s[..|s| - 1]);
    }
  }

  /** Values just outside the 64-bit range are rejected although they are well formed. */
  lemma AtoiRejectsOverflow()
    ensures Atoi(FormatInt(MaxInt + 1)) == None
    ensures Atoi(FormatInt(MinInt - 1)) == None
  {
    DecimalValueOfNatDigits(MaxInt + 1);
    DecimalValueOfNatDigits(-(MinInt - 1));
    var s := FormatInt(MaxInt + 1);
    assert IsDigit(s[0]);
    assert Magnitude(s) == NatDigits(MaxInt + 1);
    var t := FormatInt(MinInt - 1);
    assert Magnitude(t) == NatDigits(-(MinInt - 1));
  }
}
