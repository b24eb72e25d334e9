/** Base-ten text: digit strings, their values, and canonical decimal rendering. */
module Digits {

  predicate IsDigit(c: char) {
    '0' <= c <= '9'
  }

  predicate AllDigits(s: string) {
    forall i :: 0 <= i < |s| ==> IsDigit(s[i])
  }

  function DigitValue(c: char): nat
    requires IsDigit(c)
  {
    c as int - '0' as int
  }

  function DigitChar(d: nat): (c: char)
    requires d < 10
    ensures IsDigit(c) && DigitValue(c) == d
  {
    ('0' as int + d) as char
  }

  /** The number a digit string denotes; the empty string denotes 0. */
  function NatOf(s: string): nat
    requires AllDigits(s)
  {
    if s == [] then 0 else NatOf(s[..|s| - 1]) * 10 + DigitValue(s[|s| - 1])
  }

  /** One digit more, read or refused. */
  lemma DigitsMore(digits: string, k: nat)
    requires k < |digits| && AllDigits(digits[..k])
    ensures AllDigits(digits[..k + 1]) == IsDigit(digits[k])
    ensures !IsDigit(digits[k]) ==> !AllDigits(digits)
    ensures IsDigit(digits[k]) ==> NatOf(digits[..k + 1]) == NatOf(digits[..k]) * 10 + DigitValue(digits[k])
  {
    hide DigitValue, IsDigit;
    var longer := digits[..k + 1];
    assert longer[..k] == digits[..k] && longer[k] == digits[k];
    forall i | 0 <= i < k ensures IsDigit(longer[i]) {
      assert longer[i] == digits[..k][i];
    }
  }

  lemma NoDigits(digits: string)
    ensures AllDigits(digits[..0]) && NatOf(digits[..0]) == 0 && digits[..|digits|] == digits
  {
  }

  lemma DigitBelowTen(c: char)
    requires IsDigit(c)
    ensures DigitValue(c) < 10
  {
  }

  /** c * 10^n */
  function Shift(c: nat, n: nat): nat {
    if n == 0 then c else 10 * Shift(c, n - 1)
  }

  function Zeros(n: nat): (s: string)
    ensures |s| == n && AllDigits(s) && forall i :: 0 <= i < n ==> s[i] == '0'
  {
    if n == 0 then [] else Zeros(n - 1) + ['0']
  }

  /** Canonical decimal text of a natural number, as strconv.Itoa writes it. */
  function Decimal(n: nat): (s: string)
    ensures s != [] && AllDigits(s)
  {
    if n < 10 then [DigitChar(n)] else Decimal(n / 10) + [DigitChar(n % 10)]
  }

  /** An integer in base ten. */
  function IntegerText(n: int): string {
    if n < 0 then "-" + Decimal(-n) else Decimal(n)
  }

  lemma {:induction false} ShiftAdd(c: nat, a: nat, b: nat)
    ensures Shift(Shift(c, a), b) == Shift(c, a + b)
  {
    if b > 0 {
      ShiftAdd(c, a, b - 1);
    }
  }

  lemma {:induction false} ShiftOrder(c: nat, d: nat, n: nat)
    ensures c < d <==> Shift(c, n) < Shift(d, n)
    ensures Shift(c, n) == Shift(d, n) <==> c == d
    ensures c > 0 ==> Shift(c, n) >= c
  {
    if n > 0 {
      ShiftOrder(c, d, n - 1);
    }
  }

  lemma {:induction false} ShiftMonotone(c: nat, a: nat, b: nat)
    requires a <= b
    ensures Shift(c, a) <= Shift(c, b)
    decreases b - a
  {
    if a < b {
      ShiftMonotone(c, a + 1, b);
    }
  }

  lemma {:induction false} ShiftZero(n: nat)
    ensures Shift(0, n) == 0
  {
    if n > 0 {
      ShiftZero(n - 1);
    }
  }

  lemma {:induction false} ShiftSum(c: nat, d: nat, n: nat)
    ensures Shift(c + d, n) == Shift(c, n) + Shift(d, n)
  {
    if n > 0 {
      ShiftSum(c, d, n - 1);
    }
  }

  lemma {:induction false} NatOfConcat(a: string, b: string)
    requires AllDigits(a) && AllDigits(b)
    ensures AllDigits(a + b)
    ensures NatOf(a + b) == Shift(NatOf(a), |b|) + NatOf(b)
    decreases |b|
  {
    if b == [] {
      assert a + b == a;
    } else {
      NatOfConcat(a, b[..|b| - 1]);
      assert (a + b)[..|a + b| - 1] == a + b[..|b| - 1];
      assert (a + b)[|a + b| - 1] == b[|b| - 1];
    }
  }

  lemma {:induction false} NatOfBound(s: string)
    requires AllDigits(s)
    ensures NatOf(s) < Shift(1, |s|)
    ensures s != [] && s[0] != '0' ==> Shift(1, |s| - 1) <= NatOf(s)
  {
    if s != [] {
      NatOfBound(s[..|s| - 1]);
      if |s| > 1 {
        assert s[..|s| - 1][0] == s[0];
      }
    }
  }

  lemma {:induction false} NatOfZeros(n: nat)
    ensures NatOf(Zeros(n)) == 0
  {
    if n > 0 {
      NatOfZeros(n - 1);
      assert Zeros(n)[..n - 1] == Zeros(n - 1);
    }
  }

  lemma {:induction false} ZeroMeansZeros(s: string)
    requires AllDigits(s) && NatOf(s) == 0
    ensures s == Zeros(|s|)
  {
    if s != "" {
      ZeroMeansZeros(s[..|s| - 1]);
      assert s == s[..|s| - 1] + [s[|s| - 1]];
    }
  }

  lemma {:induction false} ZerosAdd(a: nat, b: nat)
    ensures Zeros(a) + Zeros(b) == Zeros(a + b)
  {
    if b > 0 {
      ZerosAdd(a, b - 1);
    }
  }

  lemma LeadingZeros(lead: nat, s: string)
    requires AllDigits(s)
    ensures AllDigits(Zeros(lead) + s) && NatOf(Zeros(lead) + s) == NatOf(s)
  {
    NatOfConcat(Zeros(lead), s);
    NatOfZeros(lead);
    ShiftZero(|s|);
  }

  lemma TrailingZeros(s: string, trail: nat)
    requires AllDigits(s)
    ensures AllDigits(s + Zeros(trail)) && NatOf(s + Zeros(trail)) == Shift(NatOf(s), trail)
  {
    NatOfConcat(s, Zeros(trail));
    NatOfZeros(trail);
  }

  /** Digits between zeros. */
  function Padded(lead: nat, s: string, trail: nat): string {
    Zeros(lead) + s + Zeros(trail)
  }

  /** Leading zeros change nothing; each trailing zero multiplies by ten. */
  lemma PaddedValue(lead: nat, s: string, trail: nat)
    requires AllDigits(s)
    ensures AllDigits(Padded(lead, s, trail))
    ensures NatOf(Padded(lead, s, trail)) == Shift(NatOf(s), trail)
  {
    LeadingZeros(lead, s);
    TrailingZeros(Zeros(lead) + s, trail);
  }

  /** Decimal text denotes its number and has no leading zero. */
  lemma {:induction false} DecimalDenotes(n: nat)
    ensures NatOf(Decimal(n)) == n
    ensures |Decimal(n)| == 1 || Decimal(n)[0] != '0'
  {
    if n >= 10 {
      DecimalDenotes(n / 10);
      var s := Decimal(n);
      assert s[..|s| - 1] == Decimal(n / 10);
      assert s[0] == Decimal(n / 10)[0];
      if |Decimal(n / 10)| == 1 {
        assert Decimal(n / 10)[..0] == [];
        assert NatOf(Decimal(n / 10)) == DigitValue(Decimal(n / 10)[0]);
      }
    } else {
      assert Decimal(n)[..0] == [];
    }
  }

  lemma NatOfEnd(s: string)
    requires s != "" && AllDigits(s)
    ensures var n := |s| - 1;
            AllDigits(s[..n]) && IsDigit(s[n]) && DigitValue(s[n]) < 10 && NatOf(s) == NatOf(s[..n]) * 10 + DigitValue(s[n])
  {
  }

  lemma DecimalEnd(n: nat, d: nat)
    requires d < 10
    ensures Decimal(n * 10 + d) == if n == 0 then [DigitChar(d)] else Decimal(n) + [DigitChar(d)]
  {
  }

  lemma NoNumber()
    ensures NatOf("") == 0
  {
  }

  /** A digit string without a superfluous zero is the decimal text of its number. */
  lemma {:induction false} CanonicalIsDecimal(s: string)
    requires s != "" && AllDigits(s) && (|s| > 1 ==> s[0] != '0')
    ensures s == Decimal(NatOf(s))
    ensures s[0] != '0' ==> NatOf(s) > 0
  {
    hide NatOf, AllDigits, Decimal, IsDigit, DigitChar;
    var n := |s| - 1;
    NatOfEnd(s);
    DigitOfValue(s[n]);
    DecimalEnd(NatOf(s[..n]), DigitValue(s[n]));
    assert s == s[..n] + [s[n]];
    if n > 0 {
      CanonicalIsDecimal(s[..n]);
    } else {
      NoNumber();
      assert s[..0] == "";
    }
  }

  lemma DigitOfValue(c: char)
    requires IsDigit(c)
    ensures DigitChar(DigitValue(c)) == c
  {
  }
}
