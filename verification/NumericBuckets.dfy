/**
 Numeric bucket boundaries (internal/queryspec/numeric_bucket.go) and the CASE expression over them
 (internal/adapters/mysql8/numeric_bucket.go): exact comparison of decimal text and canonical text.
 */
module NumericBuckets {
  import opened Wrappers
  import opened Digits
  import opened DecimalText

  const MAX_BOUNDARIES := 64
  const MAX_BYTES := 128

  // ------------------------------------------------------------------- values

  predicate PlainIntegral(s: string) {
    |s| == 1 || (|s| > 1 && s[0] != '0')
  }

  /** -?(0|[1-9][0-9]*)(.[0-9]+)? */
  predicate FixedPoint(text: string) {
    WellFormed(text) && !HasExponent(text) && PlainIntegral(Integral(Mantissa(text)))
  }

  /** Fixed-point text within the byte bound. */
  predicate Bounded(text: string) {
    |text| <= MAX_BYTES && FixedPoint(text)
  }

  /** The exact value of bounded text as a multiple of 10^-128: no text of 128 bytes is finer. */
  function ValueOf(text: string): int {
    if !Bounded(text) || |Fraction(Mantissa(text))| > MAX_BYTES then 0
    else
      var magnitude: int := Shift(NatOf(DigitsOf(Mantissa(text))), MAX_BYTES - |Fraction(Mantissa(text))|);
      if Negative(text) then -magnitude else magnitude
  }

  function Trim(s: string, c: char): (t: string)
    ensures |t| <= |s|
  {
    if s != "" && s[|s| - 1] == c then Trim(s[..|s| - 1], c) else s
  }

  /** Trailing fraction zeros and then the point removed; zero has one spelling. */
  function Canonical(text: string): string {
    if ValueOf(text) == 0 then "0"
    else if '.' in text then Trim(Trim(text, '0'), '.')
    else text
  }

  // ---------------------------------------------------------------- canonical

  lemma {:induction false} TrimZeros(s: string, n: nat)
    requires s == "" || s[|s| - 1] != '0'
    ensures Trim(s + Zeros(n), '0') == s
  {
    if n == 0 {
      assert s + Zeros(0) == s;
    } else {
      assert (s + Zeros(n))[..|s + Zeros(n)| - 1] == s + Zeros(n - 1);
      TrimZeros(s, n - 1);
    }
  }

  lemma {:induction false} SplitZeros(s: string) returns (core: string, n: nat)
    ensures s == core + Zeros(n) && (core == "" || core[|core| - 1] != '0')
  {
    if s != "" && s[|s| - 1] == '0' {
      core, n := SplitZeros(s[..|s| - 1]);
      assert s == s[..|s| - 1] + ['0'];
      assert Zeros(n + 1) == Zeros(n) + ['0'];
      n := n + 1;
    } else {
      core, n := s, 0;
      assert s == s + Zeros(0);
    }
  }

  /** Fixed-point text is its sign, integral digits and fraction digits. */
  lemma FixedPointParts(text: string)
    requires FixedPoint(text)
    ensures var integral, fraction := Integral(Mantissa(text)), Fraction(Mantissa(text));
            && text == FixedText(Negative(text), integral, fraction) && integral != "" && AllDigits(integral)
            && AllDigits(fraction) && PlainIntegral(integral) && |fraction| <= |text|
  {
    hide AllDigits, HasExponent, Mantissa, Unsigned;
    var m := Mantissa(text);
    UnsignedIsMantissa(text);
    MantissaSplit(m);
    hide Integral, Fraction, Point;
    assert text == (if Negative(text) then "-" else "") + m;
  }

  lemma UnsignedIsMantissa(text: string)
    requires !HasExponent(text)
    ensures Mantissa(text) == Unsigned(text) && |Mantissa(text)| <= |text|
    ensures text == (if Negative(text) then "-" else "") + Mantissa(text)
  {
    hide FirstOf;
  }

  lemma MantissaSplit(m: string)
    ensures m == (if Point(m) < |m| then Integral(m) + "." + Fraction(m) else Integral(m))
    ensures Point(m) == |m| ==> Fraction(m) == ""
    ensures |Fraction(m)| <= |m|
  {
    hide FirstOf;
  }

  /** What FixedText spells is fixed-point text with these parts. */
  lemma FixedTextParts(negative: bool, integral: string, fraction: string)
    requires integral != "" && AllDigits(integral) && AllDigits(fraction) && PlainIntegral(integral)
    ensures var text := FixedText(negative, integral, fraction);
            && FixedPoint(text) && Negative(text) == negative && DigitsOf(Mantissa(text)) == integral + fraction
            && Fraction(Mantissa(text)) == fraction && Integral(Mantissa(text)) == integral
  {
    var body := if fraction == "" then integral else integral + "." + fraction;
    var text := FixedText(negative, integral, fraction);
    assert text == (if negative then "-" else "") + body;
    MarksOfFixed(integral, fraction);
    PointAndDigits(integral, fraction);
    SignAndMantissa(negative, body);
    IntegralOfFixed(integral, fraction);
    hide Fraction, MantissaForm, Integral, DigitsOf, FixedText;
  }

  lemma IntegralOfFixed(integral: string, fraction: string)
    requires AllDigits(integral)
    ensures var body := if fraction == "" then integral else integral + "." + fraction;
            Integral(body) == integral
  {
    var body := if fraction == "" then integral else integral + "." + fraction;
    FirstOfAt(body, {'.'}, |integral|);
  }

  function SignedShift(negative: bool, c: nat, n: nat): int {
    var magnitude: int := Shift(c, n);
    if negative then -magnitude else magnitude
  }

  lemma ValueOfFixed(negative: bool, integral: string, fraction: string)
    requires integral != "" && AllDigits(integral) && AllDigits(fraction) && PlainIntegral(integral)
    requires |FixedText(negative, integral, fraction)| <= MAX_BYTES
    ensures |fraction| <= MAX_BYTES && Bounded(FixedText(negative, integral, fraction))
    ensures ValueOf(FixedText(negative, integral, fraction))
         == SignedShift(negative, NatOf(integral + fraction), MAX_BYTES - |fraction|)
  {
    hide FixedPoint, DigitsOf, Fraction, Mantissa, Negative, NatOf, Shift, Integral;
    FixedTextParts(negative, integral, fraction);
  }

  /** Dropping trailing fraction zeros keeps the value. */
  lemma DroppedZeros(negative: bool, integral: string, core: string, n: nat)
    requires integral != "" && AllDigits(integral) && AllDigits(core + Zeros(n)) && PlainIntegral(integral)
    requires |FixedText(negative, integral, core + Zeros(n))| <= MAX_BYTES
    ensures AllDigits(core) && |FixedText(negative, integral, core)| <= |FixedText(negative, integral, core + Zeros(n))|
    ensures ValueOf(FixedText(negative, integral, core)) == ValueOf(FixedText(negative, integral, core + Zeros(n)))
    ensures Bounded(FixedText(negative, integral, core))
  {
    hide *;
    DigitsOfPrefix(core, Zeros(n));
    FixedLength(negative, integral, core);
    FixedLength(negative, integral, core + Zeros(n));
    ZerosLength(n);
    Regrouped(integral, core, Zeros(n));
    ValueOfFixed(negative, integral, core);
    ValueOfFixed(negative, integral, core + Zeros(n));
    DigitsJoined(integral, core);
    TrailingZeros(integral + core, n);
    ShiftAdd(NatOf(integral + core), n, MAX_BYTES - |core| - n);
    SignedParts(negative, Shift(NatOf(integral + core), n), MAX_BYTES - |core| - n);
    SignedParts(negative, NatOf(integral + core), MAX_BYTES - |core|);
  }

  lemma DigitsOfPrefix(a: string, b: string)
    requires AllDigits(a + b)
    ensures AllDigits(a)
  {
    forall i | 0 <= i < |a| ensures IsDigit(a[i]) {
      assert (a + b)[i] == a[i];
    }
  }

  lemma DigitsJoined(a: string, b: string)
    requires AllDigits(a) && AllDigits(b)
    ensures AllDigits(a + b)
  {
  }

  lemma FixedLength(negative: bool, integral: string, fraction: string)
    ensures |FixedText(negative, integral, fraction)|
         == (if negative then 1 else 0) + |integral| + (if fraction == "" then 0 else 1 + |fraction|)
  {
  }

  lemma ZerosLength(n: nat)
    ensures |Zeros(n)| == n
  {
  }

  lemma Regrouped(a: string, b: string, c: string)
    ensures a + (b + c) == (a + b) + c
  {
  }

  lemma SignedParts(negative: bool, c: nat, n: nat)
    ensures SignedShift(negative, c, n) == (var magnitude: int := Shift(c, n); if negative then -magnitude else magnitude)
  {
  }

  lemma {:induction false} TrimPrefix(s: string, c: char)
    ensures Trim(s + [c], c) == Trim(s, c)
  {
    assert (s + [c])[..|s + [c]| - 1] == s;
  }

  /** The two trims leave the sign, the integral digits and the significant fraction digits. */
  lemma TrimmedText(negative: bool, integral: string, core: string, n: nat)
    requires integral != "" && AllDigits(integral) && AllDigits(core) && (core == "" || core[|core| - 1] != '0')
    requires core + Zeros(n) != ""
    ensures Trim(Trim(FixedText(negative, integral, core + Zeros(n)), '0'), '.') == FixedText(negative, integral, core)
  {
    hide *;
    var sign := if negative then "-" else "";
    var rest := sign + integral;
    var head := rest + ['.'] + core;
    FixedSpelling(negative, integral, core + Zeros(n));
    FixedSpelling(negative, integral, core);
    Regrouped(rest + ['.'], core, Zeros(n));
    LastOfHead(sign, integral, core);
    TrimZeros(head, n);
    if core == "" {
      NothingAdded(rest + ['.']);
      TrimPrefix(rest, '.');
      TrimStops(rest, '.');
    } else {
      TrimStops(head, '.');
    }
  }

  lemma FixedSpelling(negative: bool, integral: string, fraction: string)
    ensures var rest := (if negative then "-" else "") + integral;
            FixedText(negative, integral, fraction) == if fraction == "" then rest else rest + ['.'] + fraction
  {
  }

  lemma LastOfHead(sign: string, integral: string, core: string)
    requires integral != "" && AllDigits(integral) && AllDigits(core) && (core == "" || core[|core| - 1] != '0')
    ensures var rest := sign + integral;
            var head := rest + ['.'] + core;
            && rest != "" && rest[|rest| - 1] != '.' && head != "" && head[|head| - 1] != '0'
            && (core != "" ==> head[|head| - 1] != '.')
  {
    var rest := sign + integral;
    assert rest[|rest| - 1] == integral[|integral| - 1];
    if core != "" {
      assert (rest + ['.'] + core)[|rest| + |core|] == core[|core| - 1];
    }
  }

  lemma NothingAdded(s: string)
    ensures s + "" == s
  {
  }

  lemma TrimStops(s: string, c: char)
    requires s != "" && s[|s| - 1] != c
    ensures Trim(s, c) == s
  {
  }

  lemma PointMeansFraction(negative: bool, integral: string, fraction: string)
    requires AllDigits(integral) && AllDigits(fraction)
    ensures '.' in FixedText(negative, integral, fraction) <==> fraction != ""
  {
    var text := FixedText(negative, integral, fraction);
    if fraction != "" {
      var sign := if negative then "-" else "";
      assert text == sign + integral + "." + fraction;
      assert text[|sign + integral|] == '.';
    }
  }

  /** Canonical text is bounded fixed-point text of the same value. */
  lemma CanonicalKeepsValue(text: string)
    requires Bounded(text)
    ensures Bounded(Canonical(text)) && ValueOf(Canonical(text)) == ValueOf(text)
    ensures Canonical(Canonical(text)) == Canonical(text)
  {
    var negative, integral, fraction := Negative(text), Integral(Mantissa(text)), Fraction(Mantissa(text));
    FixedPointParts(text);
    ZeroText();
    hide *;
    if ValueOf(text) == 0 {
      CanonicalParts(text);
    } else {
      var core, n := SplitZeros(fraction);
      DroppedZeros(negative, integral, core, n);
      PointMeansFraction(negative, integral, fraction);
      PointMeansFraction(negative, integral, core);
      CanonicalParts(text);
      CanonicalParts(FixedText(negative, integral, core));
      ZeroNothing(core);
      if fraction != "" {
        TrimmedText(negative, integral, core, n);
      } else {
        NoFraction(core, n);
      }
      if core != "" {
        TrimmedText(negative, integral, core, 0);
      }
    }
  }

  lemma NoFraction(core: string, n: nat)
    requires core + Zeros(n) == ""
    ensures core == ""
  {
  }

  lemma ZeroNothing(core: string)
    ensures core + Zeros(0) == core
  {
  }

  lemma ZeroText()
    ensures Bounded("0") && ValueOf("0") == 0 && Canonical("0") == "0"
  {
    ValueOfFixed(false, "0", "");
    assert FixedText(false, "0", "") == "0";
    assert "0" + "" == "0";
    assert NatOf("0") == 0;
    ShiftZero(MAX_BYTES);
    hide Bounded, NatOf, Shift;
  }

  lemma CanonicalParts(text: string)
    ensures Canonical(text) ==
              if ValueOf(text) == 0 then "0" else if '.' in text then Trim(Trim(text, '0'), '.') else text
  {
    hide ValueOf, Trim;
  }

  // ------------------------------------------------------------ one spelling

  /** The value of fixed-point text: its digits, with as many places behind the point, and below zero after a minus. */
  lemma ValueIsSpelled(negative: bool, integral: string, fraction: string)
    requires integral != "" && AllDigits(integral) && AllDigits(fraction) && (|integral| > 1 ==> integral[0] != '0')
    requires (if negative then 1 else 0) + |integral| + (if fraction == "" then 0 else 1 + |fraction|) <= 128
    ensures var text := (if negative then "-" else "") + (if fraction == "" then integral else integral + "." + fraction);
            && Bounded(text) && AllDigits(integral + fraction)
            && (negative ==> ValueOf(text) + Shift(NatOf(integral + fraction), 128 - |fraction|) == 0)
            && (!negative ==> ValueOf(text) == Shift(NatOf(integral + fraction), 128 - |fraction|))
  {
    hide Bounded, ValueOf, NatOf, Shift;
    FixedLength(negative, integral, fraction);
    DigitsJoined(integral, fraction);
    ValueOfFixed(negative, integral, fraction);
    var text := (if negative then "-" else "") + (if fraction == "" then integral else integral + "." + fraction);
    assert text == FixedText(negative, integral, fraction);
  }

  /** The canonical text of a number other than zero: its sign, its integral digits and its significant fraction digits. */
  lemma CanonicalShape(text: string) returns (integral: string, core: string)
    requires Bounded(text) && ValueOf(text) != 0
    ensures integral != "" && AllDigits(integral) && PlainIntegral(integral) && AllDigits(core) && AllDigits(integral + core)
    ensures core != "" ==> core[|core| - 1] != '0'
    ensures Canonical(text) == FixedText(Negative(text), integral, core) && |core| <= MAX_BYTES
    ensures ValueOf(text) == SignedShift(Negative(text), NatOf(integral + core), MAX_BYTES - |core|)
  {
    FixedPointParts(text);
    var negative, fraction := Negative(text), Fraction(Mantissa(text));
    integral := Integral(Mantissa(text));
    hide *;
    var n;
    core, n := SplitZeros(fraction);
    DroppedZeros(negative, integral, core, n);
    DigitsJoined(integral, core);
    BoundedLength(text);
    ValueOfFixed(negative, integral, core);
    PointMeansFraction(negative, integral, fraction);
    CanonicalParts(text);
    if fraction != "" {
      TrimmedText(negative, integral, core, n);
    } else {
      NoFraction(core, n);
    }
  }

  lemma BoundedLength(text: string)
    requires Bounded(text)
    ensures |text| <= MAX_BYTES
  {
  }

  /** Digits that do not end in zero are no multiple of ten. */
  lemma LastDigitCounts(digits: string)
    requires digits != "" && AllDigits(digits) && digits[|digits| - 1] != '0'
    ensures NatOf(digits) % 10 != 0
  {
    NatOfEnd(digits);
    var last := digits[|digits| - 1];
    DigitOfValue(last);
    assert DigitValue(last) != 0;
    hide NatOf;
  }

  /** The same number of units of 10^-128 with different numbers of places needs a zero at the end. */
  lemma SamePlaces(a: nat, b: nat, m: nat, n: nat)
    requires m <= MAX_BYTES && n <= MAX_BYTES && Shift(a, MAX_BYTES - m) == Shift(b, MAX_BYTES - n)
    ensures m < n ==> b % 10 == 0
    ensures m == n ==> a == b
  {
    hide Shift;
    if m < n {
      ShiftAdd(a, n - m, MAX_BYTES - n);
      ShiftOrder(Shift(a, n - m), b, MAX_BYTES - n);
      TenTimes(a, n - m);
    } else if m == n {
      ShiftOrder(a, b, MAX_BYTES - n);
    }
  }

  lemma TenTimes(a: nat, k: nat)
    requires k > 0
    ensures Shift(a, k) % 10 == 0
  {
  }

  /** Equally many digits of one value are the same digits. */
  lemma {:induction false} SameDigits(a: string, b: string)
    requires AllDigits(a) && AllDigits(b) && |a| == |b| && NatOf(a) == NatOf(b)
    ensures a == b
  {
    if a != "" {
      var n := |a| - 1;
      NatOfEnd(a);
      NatOfEnd(b);
      DigitOfValue(a[n]);
      DigitOfValue(b[n]);
      DigitBelowTen(a[n]);
      DigitBelowTen(b[n]);
      hide NatOf, DigitValue, DigitChar;
      SameDigits(a[..n], b[..n]);
      assert a == a[..n] + [a[n]] && b == b[..n] + [b[n]];
    }
  }

  /** Integral digits without a superfluous zero are as many as the value needs. */
  lemma IntegralLength(a: string, b: string, n: nat)
    requires AllDigits(a) && AllDigits(b) && n < |a| && n < |b| && NatOf(a) == NatOf(b) && PlainIntegral(b[..|b| - n])
    ensures |b| <= |a|
  {
    NatOfBound(a);
    NatOfBound(b);
    assert b[..|b| - n][0] == b[0];
    if |a| < |b| {
      ShiftMonotone(1, |a|, |b| - 1);
    }
  }

  lemma SameIntegral(a: string, b: string, core1: string, core2: string)
    requires AllDigits(a + core1) && AllDigits(b + core2) && a != "" && b != "" && PlainIntegral(a) && PlainIntegral(b)
    requires |core1| == |core2| && NatOf(a + core1) == NatOf(b + core2)
    ensures a == b && core1 == core2
  {
    var s, t, n := a + core1, b + core2, |core1|;
    assert s[..|s| - n] == a && t[..|t| - n] == b && s[|s| - n..] == core1 && t[|t| - n..] == core2;
    hide *;
    IntegralLength(s, t, n);
    IntegralLength(t, s, n);
    SameDigits(s, t);
  }

  /** Texts of one value have one canonical text. */
  lemma OneSpelling(a: string, b: string)
    requires Bounded(a) && Bounded(b) && ValueOf(a) == ValueOf(b)
    ensures Canonical(a) == Canonical(b)
  {
    hide *;
    CanonicalParts(a);
    CanonicalParts(b);
    if ValueOf(a) != 0 {
      var i, c := CanonicalShape(a);
      var j, d := CanonicalShape(b);
      SignedParts(Negative(a), NatOf(i + c), MAX_BYTES - |c|);
      SignedParts(Negative(b), NatOf(j + d), MAX_BYTES - |d|);
      SamePlaces(NatOf(i + c), NatOf(j + d), |c|, |d|);
      SamePlaces(NatOf(j + d), NatOf(i + c), |d|, |c|);
      if |c| < |d| {
        LastOfBoth(j, d);
        LastDigitCounts(j + d);
      } else if |d| < |c| {
        LastOfBoth(i, c);
        LastDigitCounts(i + c);
      }
      SameIntegral(i, j, c, d);
    }
  }

  lemma LastOfBoth(integral: string, core: string)
    requires core != ""
    ensures integral + core != "" && (integral + core)[|integral + core| - 1] == core[|core| - 1]
  {
  }

  // --------------------------------------------------------------- boundaries

  predicate Increasing(boundaries: seq<string>) {
    forall i, j :: 0 <= i < j < |boundaries| ==> ValueOf(boundaries[i]) < ValueOf(boundaries[j])
  }

  predicate AllBounded(boundaries: seq<string>) {
    forall i :: 0 <= i < |boundaries| ==> Bounded(boundaries[i])
  }

  /** Between one and 64 bounded decimals with strictly increasing exact values. */
  predicate Acceptable(boundaries: seq<string>) {
    1 <= |boundaries| <= MAX_BOUNDARIES && AllBounded(boundaries) && Increasing(boundaries)
  }

  function Canonicals(boundaries: seq<string>): (r: seq<string>)
    ensures |r| == |boundaries|
  {
    seq(|boundaries|, i requires 0 <= i < |boundaries| => Canonical(boundaries[i]))
  }

  /** NormalizeNumericBoundaries. */
  method NormalizeBoundaries(boundaries: seq<string>) returns (r: Option<seq<string>>)
    ensures r == if Acceptable(boundaries) then Some(Canonicals(boundaries)) else None
  {
    hide Bounded, ValueOf, Canonical;
    if |boundaries| < 1 || |boundaries| > MAX_BOUNDARIES {
      return None;
    }
    var result: seq<string> := [];
    var previous: Option<int> := None;
    for i := 0 to |boundaries|
      invariant |result| == i && forall j :: 0 <= j < i ==> result[j] == Canonical(boundaries[j])
      invariant AllBounded(boundaries[..i]) && Increasing(boundaries[..i])
      invariant previous == if i == 0 then None else Some(ValueOf(boundaries[i - 1]))
    {
      var text := boundaries[i];
      if !Bounded(text) {
        return None;
      }
      var value := ValueOf(text);
      if previous.Some? && previous.value >= value {
        assert !Increasing(boundaries);
        return None;
      }
      previous := Some(value);
      IncreasingEnd(boundaries, i);
      result := result + [Canonical(text)];
    }
    assert boundaries[..|boundaries|] == boundaries;
    assert result == Canonicals(boundaries);
    r := Some(result);
  }

  lemma IncreasingEnd(boundaries: seq<string>, i: nat)
    requires i < |boundaries| && Increasing(boundaries[..i])
    requires i > 0 ==> ValueOf(boundaries[i - 1]) < ValueOf(boundaries[i])
    ensures Increasing(boundaries[..i + 1])
  {
    hide ValueOf;
    var longer := boundaries[..i + 1];
    forall a, b | 0 <= a < b < |longer| ensures ValueOf(longer[a]) < ValueOf(longer[b]) {
      assert longer[a] == boundaries[a] && longer[b] == boundaries[b];
      if b < i {
        assert ValueOf(boundaries[..i][a]) < ValueOf(boundaries[..i][b]);
      } else if a < i - 1 {
        assert ValueOf(boundaries[..i][a]) < ValueOf(boundaries[..i][i - 1]);
      }
    }
  }

  /** Normal boundaries have the same values and are normalized to themselves. */
  lemma NormalBoundariesAreFixed(boundaries: seq<string>)
    requires Acceptable(boundaries)
    ensures Acceptable(Canonicals(boundaries)) && Canonicals(Canonicals(boundaries)) == Canonicals(boundaries)
    ensures forall i :: 0 <= i < |boundaries| ==> ValueOf(Canonicals(boundaries)[i]) == ValueOf(boundaries[i])
  {
    hide Bounded, ValueOf, Canonical;
    var c := Canonicals(boundaries);
    forall i | 0 <= i < |boundaries|
      ensures Bounded(c[i]) && ValueOf(c[i]) == ValueOf(boundaries[i]) && Canonical(c[i]) == c[i]
    {
      assert Bounded(boundaries[i]);
      CanonicalKeepsValue(boundaries[i]);
    }
    assert Canonicals(c) == c;
  }

  // --------------------------------------------------------------------- CASE

  /** CASE WHEN v < l0 THEN 0 WHEN v < l1 THEN 1 ... ELSE n END. */
  function CaseIndex(v: int, limits: seq<int>, i: nat): (index: nat)
    requires i <= |limits|
    ensures i <= index <= |limits|
    decreases |limits| - i
  {
    if i == |limits| then i else if v < limits[i] then i else CaseIndex(v, limits, i + 1)
  }

  function Values(boundaries: seq<string>): (r: seq<int>)
    ensures |r| == |boundaries|
  {
    seq(|boundaries|, i requires 0 <= i < |boundaries| => ValueOf(boundaries[i]))
  }

  function NotAbove(v: int, boundaries: seq<string>): nat {
    if boundaries == [] then 0
    else NotAbove(v, boundaries[..|boundaries| - 1]) + (if ValueOf(boundaries[|boundaries| - 1]) <= v then 1 else 0)
  }

  lemma {:induction false} AllNotAbove(v: int, boundaries: seq<string>)
    requires forall i :: 0 <= i < |boundaries| ==> ValueOf(boundaries[i]) <= v
    ensures NotAbove(v, boundaries) == |boundaries|
  {
    hide ValueOf;
    if boundaries != [] {
      AllNotAbove(v, boundaries[..|boundaries| - 1]);
    }
  }

  lemma {:induction false} PrefixNotAbove(v: int, boundaries: seq<string>, k: nat)
    requires k <= |boundaries| && (forall i :: 0 <= i < k ==> ValueOf(boundaries[i]) <= v)
    requires forall i :: k <= i < |boundaries| ==> v < ValueOf(boundaries[i])
    ensures NotAbove(v, boundaries) == k
    decreases |boundaries|
  {
    hide ValueOf;
    if k == |boundaries| {
      AllNotAbove(v, boundaries);
    } else {
      PrefixNotAbove(v, boundaries[..|boundaries| - 1], k);
    }
  }

  lemma {:induction false} CaseFinds(v: int, limits: seq<int>, i: nat)
    requires i <= |limits| && forall j :: 0 <= j < i ==> limits[j] <= v
    ensures var k := CaseIndex(v, limits, i);
            (forall j :: 0 <= j < k ==> limits[j] <= v) && (k < |limits| ==> v < limits[k])
    decreases |limits| - i
  {
    if i < |limits| && v >= limits[i] {
      CaseFinds(v, limits, i + 1);
    }
  }

  /** Compared with the values of increasing boundaries, the CASE gives the number of boundaries not above v. */
  lemma BucketCountsBoundaries(v: int, boundaries: seq<string>)
    requires Increasing(boundaries)
    ensures CaseIndex(v, Values(boundaries), 0) == NotAbove(v, boundaries)
  {
    hide ValueOf, CaseIndex, NotAbove;
    var limits := Values(boundaries);
    CaseFinds(v, limits, 0);
    var k := CaseIndex(v, limits, 0);
    forall i | 0 <= i < |boundaries| ensures if i < k then ValueOf(boundaries[i]) <= v else v < ValueOf(boundaries[i]) {
      assert limits[i] == ValueOf(boundaries[i]);
      if i > k {
        assert limits[k] == ValueOf(boundaries[k]) && ValueOf(boundaries[k]) < ValueOf(boundaries[i]);
      }
    }
    PrefixNotAbove(v, boundaries, k);
  }

  // -------------------------------------------------------------------- casts

  function TrimLeft(s: string): string {
    if s != "" && s[0] == '0' then TrimLeft(s[1..]) else s
  }

  /** numericBoundaryCast: the DECIMAL(precision, scale) of a canonical boundary, when the server has it. */
  function Cast(boundary: string): Option<(nat, nat)> {
    if !Bounded(boundary) || Canonical(boundary) != boundary then None
    else
      var scale := |Fraction(Mantissa(boundary))|;
      var digits := |TrimLeft(Integral(Mantissa(boundary)))| + scale;
      var precision := if digits > 1 then digits else 1;
      if precision > 65 || scale > 30 then None else Some((precision, scale))
  }

  lemma TrimLeftPlain(s: string)
    requires AllDigits(s) && PlainIntegral(s)
    ensures TrimLeft(s) == (if s == "0" then "" else s)
  {
    if s[0] == '0' {
      assert s == "0";
      assert s[1..] == "";
    }
  }

  lemma CastParts(boundary: string)
    requires Cast(boundary).Some?
    ensures Bounded(boundary) && FixedPoint(boundary)
    ensures var scale, left := |Fraction(Mantissa(boundary))|, |TrimLeft(Integral(Mantissa(boundary)))|;
            && Cast(boundary) == Some((if left + scale > 1 then left + scale else 1, scale))
            && Cast(boundary).value.0 <= 65 && scale <= 30
    ensures MantissaForm(Mantissa(boundary))
         && DigitsOf(Mantissa(boundary)) == Integral(Mantissa(boundary)) + Fraction(Mantissa(boundary))
  {
    hide Canonical, TrimLeft, MantissaForm, Integral, Fraction, Mantissa;
  }

  /**
   A canonical boundary put together from these pieces has a cast exactly when the server's DECIMAL has room for its
   digits: 30 behind the point and 65 in all, where a single zero before the point does not count.
   */
  lemma CastDecided(negative: bool, integral: string, fraction: string)
    requires integral != "" && AllDigits(integral) && AllDigits(fraction) && (|integral| > 1 ==> integral[0] != '0')
    requires |FixedText(negative, integral, fraction)| <= 128
    requires Canonical(FixedText(negative, integral, fraction)) == FixedText(negative, integral, fraction)
    ensures var text, places := FixedText(negative, integral, fraction), |fraction| + (if integral == "0" then 0 else |integral|);
            && (Cast(text).Some? <==> |fraction| <= 30 && places <= 65)
            && (Cast(text).Some? ==> Cast(text).value == (if places == 0 then 1 else places, |fraction|))
  {
    hide Canonical, ValueOf, Fraction, Mantissa, Integral, FixedText, FixedPoint, DigitsOf, Negative;
    ValueOfFixed(negative, integral, fraction);
    FixedTextParts(negative, integral, fraction);
    TrimLeftPlain(integral);
  }

  /** Digits below the power of ten that as many places allow. */
  lemma DigitsBelow(integral: string, fraction: string, precision: nat)
    requires AllDigits(integral) && AllDigits(fraction) && PlainIntegral(integral)
    requires precision >= |TrimLeft(integral)| + |fraction|
    ensures AllDigits(integral + fraction) && NatOf(integral + fraction) < Shift(1, precision)
  {
    TrimLeftPlain(integral);
    if integral == "0" {
      assert Zeros(1) == "0";
      hide *;
      LeadingZeros(1, fraction);
      NatOfBound(fraction);
      ShiftMonotone(1, |fraction|, precision);
    } else {
      hide *;
      DigitsJoined(integral, fraction);
      NatOfBound(integral + fraction);
      ShiftMonotone(1, |integral + fraction|, precision);
    }
  }

  /** The cast keeps every digit: the boundary has exactly its scale and fits its precision. */
  lemma CastIsExact(boundary: string)
    requires Cast(boundary).Some?
    ensures var (precision, scale) := Cast(boundary).value;
            && scale == |Fraction(Mantissa(boundary))| && scale <= precision <= 65 && scale <= 30
            && MantissaForm(Mantissa(boundary)) && NatOf(DigitsOf(Mantissa(boundary))) < Shift(1, precision)
  {
    hide *;
    CastParts(boundary);
    FixedPointParts(boundary);
    DigitsBelow(Integral(Mantissa(boundary)), Fraction(Mantissa(boundary)), Cast(boundary).value.0);
  }

  /** As many units as are nearest to m, half a unit up. */
  function Rounded(m: nat, unit: nat): nat
    requires unit > 0
  {
    (2 * m + unit) / (2 * unit)
  }

  /** 10^-scale as a multiple of 10^-128. */
  function Unit(scale: nat): (unit: nat)
    ensures unit > 0
  {
    var places: nat := if scale < MAX_BYTES then MAX_BYTES - scale else 0;
    ShiftOrder(1, 1, places);
    Shift(1, places)
  }

  /** The greatest magnitude below the limit when there is no room; a power of ten is never 0. */
  function Kept(units: nat, limit: nat): nat {
    if units < limit || limit == 0 then units else limit - 1
  }

  function CastMagnitude(m: nat, precision: nat, scale: nat): nat {
    var units, limit := Rounded(m, Unit(scale)), Shift(1, precision);
    Kept(units, limit) * Unit(scale)
  }

  /** CAST(text AS DECIMAL(precision, scale)): rounded away from zero at the half, and kept within the precision. */
  function CastTo(text: string, precision: nat, scale: nat): int {
    var v := ValueOf(text);
    var magnitude: int := CastMagnitude(if v < 0 then -v else v, precision, scale);
    if v < 0 then -magnitude else magnitude
  }

  lemma {:induction false} ShiftIsProduct(c: nat, n: nat)
    ensures Shift(c, n) == c * Shift(1, n)
  {
    if n > 0 {
      ShiftIsProduct(c, n - 1);
      Times10(c, Shift(1, n - 1));
    }
  }

  lemma Times10(c: nat, d: nat)
    ensures 10 * (c * d) == c * (10 * d)
  {
  }

  lemma RoundedWhole(c: nat, unit: nat)
    requires unit > 0
    ensures Rounded(c * unit, unit) == c
  {
    assert 2 * (c * unit) + unit == c * (2 * unit) + unit;
    QuotientOf(c, 2 * unit, unit);
  }

  lemma QuotientOf(c: nat, d: nat, r: nat)
    requires r < d
    ensures (c * d + r) / d == c
  {
    var q := (c * d + r) / d;
    Ordered(c, q, d);
    Ordered(q, c, d);
  }

  lemma {:induction false} Ordered(a: int, b: int, d: nat)
    ensures a < b ==> a * d + d <= b * d
    decreases b - a
  {
    if a + 1 < b {
      Ordered(a + 1, b, d);
    }
    OneMore(a, d);
  }

  lemma OneMore(a: int, d: nat)
    ensures (a + 1) * d == a * d + d
  {
  }

  lemma MagnitudeKept(c: nat, precision: nat, scale: nat)
    requires c < Shift(1, precision) && scale <= MAX_BYTES
    ensures CastMagnitude(Shift(c, MAX_BYTES - scale), precision, scale) == Shift(c, MAX_BYTES - scale)
  {
    hide Shift, Rounded;
    ShiftIsProduct(c, MAX_BYTES - scale);
    RoundedWhole(c, Unit(scale));
  }

  /** The cast of a boundary that the compiler accepts is the boundary's own value. */
  lemma CastKeepsValue(boundary: string)
    requires Cast(boundary).Some?
    ensures var (precision, scale) := Cast(boundary).value; CastTo(boundary, precision, scale) == ValueOf(boundary)
  {
    hide Cast, CastMagnitude, Shift, NatOf, DigitsOf, Mantissa, Fraction, MantissaForm, Bounded, Negative;
    CastIsExact(boundary);
    CastParts(boundary);
    var c, scale := NatOf(DigitsOf(Mantissa(boundary))), |Fraction(Mantissa(boundary))|;
    MagnitudeKept(c, Cast(boundary).value.0, scale);
    MagnitudeKept(0, Cast(boundary).value.0, scale);
    ShiftZero(MAX_BYTES - scale);
  }
}
