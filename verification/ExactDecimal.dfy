/**
 normalizeExactKeysetDecimal (internal/adapters/mysql8/keyset.go): whether a decimal text has an exact
 representation in DECIMAL(precision, scale), and its canonical fixed-point spelling.
 */
module ExactDecimal {
  import opened Wrappers
  import opened Digits
  import opened DecimalText

  /** coefficient * 10^-scale is v * 10^-columnScale for some v of at most `precision` digits. */
  ghost predicate Representable(coefficient: nat, scale: int, precision: nat, columnScale: nat) {
    exists v: nat :: SameMagnitude(v, columnScale, coefficient, scale) && v < Shift(1, precision)
  }

  /** The column holds exactly this number. */
  ghost predicate FitsColumn(n: Number, precision: nat, columnScale: nat, unsigned: bool) {
    || n.coefficient == 0
    || (Representable(n.coefficient, n.scale, precision, columnScale) && !(n.negative && unsigned))
  }

  // ------------------------------------------------------ arithmetic lemmas

  /** Trailing zeros of the coefficient trade against the scale. */
  lemma RepresentableShift(c: nat, zeros: nat, scale: int, precision: nat, columnScale: nat)
    ensures Representable(Shift(c, zeros), scale + zeros, precision, columnScale)
        <==> Representable(c, scale, precision, columnScale)
  {
    forall v: nat
      ensures SameMagnitude(v, columnScale, Shift(c, zeros), scale + zeros) <==> SameMagnitude(v, columnScale, c, scale)
    {
      SameMagnitudeShift(v, columnScale, c, scale, zeros);
    }
    if Representable(c, scale, precision, columnScale) {
      var v: nat :| SameMagnitude(v, columnScale, c, scale) && v < Shift(1, precision);
      assert SameMagnitude(v, columnScale, Shift(c, zeros), scale + zeros);
    }
    if Representable(Shift(c, zeros), scale + zeros, precision, columnScale) {
      var v: nat :| SameMagnitude(v, columnScale, Shift(c, zeros), scale + zeros) && v < Shift(1, precision);
      assert SameMagnitude(v, columnScale, c, scale);
    }
  }

  lemma ScaledBound(c: nat, n: nat, q: nat, precision: nat)
    requires n >= 1 && Shift(1, n - 1) <= c < Shift(1, n)
    ensures Shift(c, q) < Shift(1, precision) <==> n + q <= precision
  {
    if n + q <= precision {
      ShiftOrder(c, Shift(1, n), q);
      ShiftAdd(1, n, q);
      ShiftMonotone(1, n + q, precision);
    } else {
      ShiftOrder(c, Shift(1, n - 1), q);
      ShiftAdd(1, n - 1, q);
      ShiftMonotone(1, precision, n - 1 + q);
    }
  }

  /** For a coefficient of n digits that does not end in zero, the source's two counts decide exactness. */
  lemma ReducedRepresentable(c: nat, n: nat, scale: int, precision: nat, columnScale: nat)
    requires n >= 1 && Shift(1, n - 1) <= c < Shift(1, n) && c % 10 != 0
    ensures Representable(c, scale, precision, columnScale)
        <==> scale <= columnScale && n - scale <= precision - columnScale
  {
    if scale <= columnScale {
      var v := Shift(c, columnScale - scale);
      assert SameMagnitude(v, columnScale, c, scale);
      ScaledBound(c, n, columnScale - scale, precision);
    } else {
      assert forall v: nat :: SameMagnitude(v, columnScale, c, scale) ==> c == 10 * Shift(v, scale - columnScale - 1);
    }
  }

  // --------------------------------------------------------- significant digits

  /** Digits from the first nonzero one to the last nonzero one. */
  predicate Significant(s: string) {
    s != "" && AllDigits(s) && s[0] != '0' && s[|s| - 1] != '0'
  }

  lemma SignificantBounds(s: string)
    requires Significant(s)
    ensures Shift(1, |s| - 1) <= NatOf(s) < Shift(1, |s|) && NatOf(s) % 10 != 0
  {
    NatOfBound(s);
  }

  /** Significant digits decide the verdict, whatever zeros surround them. */
  lemma PaddedRepresentable(lead: nat, s: string, trail: nat, scale: int, precision: nat, columnScale: nat)
    requires Significant(s)
    ensures Representable(NatOf(Padded(lead, s, trail)), scale, precision, columnScale)
        <==> scale - trail <= columnScale && |s| - (scale - trail) <= precision - columnScale
  {
    PaddedValue(lead, s, trail);
    SignificantBounds(s);
    RepresentableShift(NatOf(s), trail, scale - trail, precision, columnScale);
    ReducedRepresentable(NatOf(s), |s|, scale - trail, precision, columnScale);
  }

  /** Every digit string is zeros, or significant digits between zeros. */
  lemma {:induction false} Unpad(d: string) returns (lead: nat, s: string, trail: nat)
    requires AllDigits(d)
    ensures d == Padded(lead, s, trail)
    ensures s == "" || Significant(s)
  {
    if d == "" {
      lead, s, trail := 0, "", 0;
    } else {
      lead, s, trail := Unpad(d[..|d| - 1]);
      var c := d[|d| - 1];
      assert d == d[..|d| - 1] + [c];
      if c != '0' {
        if s == "" {
          ZerosAdd(lead, trail);
          lead, s, trail := lead + trail, [c], 0;
        } else {
          s, trail := s + Zeros(trail) + [c], 0;
        }
      } else {
        trail := trail + 1;
      }
    }
  }

  /** Significant digits followed by any digits are longer significant digits followed by zeros. */
  lemma Extend(s: string, tail: string) returns (whole: string, trail: nat)
    requires Significant(s) && AllDigits(tail)
    ensures Significant(whole) && |whole| >= |s| && s + tail == whole + Zeros(trail)
  {
    var inner, sig, rest := Unpad(tail);
    if sig == "" {
      ZerosAdd(inner, rest);
      whole, trail := s, inner + rest;
      assert tail == Zeros(inner) + Zeros(rest);
    } else {
      whole, trail := s + Zeros(inner) + sig, rest;
      assert s + (Zeros(inner) + sig + Zeros(rest)) == whole + Zeros(rest);
    }
  }

  /** More significant digits than the precision are never representable, whatever follows them. */
  lemma TooManyDigits(lead: nat, s: string, tail: string, scale: int, precision: nat, columnScale: nat)
    requires Significant(s) && AllDigits(tail) && |s| > precision
    ensures AllDigits(Zeros(lead) + s + tail) && NatOf(Zeros(lead) + s + tail) != 0
    ensures !Representable(NatOf(Zeros(lead) + s + tail), scale, precision, columnScale)
  {
    var whole, trail := Extend(s, tail);
    assert Zeros(lead) + s + tail == Zeros(lead) + (s + tail);
    assert Padded(lead, whole, trail) == Zeros(lead) + (whole + Zeros(trail));
    PaddedRepresentable(lead, whole, trail, scale, precision, columnScale);
    PaddedValue(lead, whole, trail);
    SignificantBounds(whole);
    ShiftOrder(0, NatOf(whole), trail);
    ShiftZero(trail);
    ShiftOrder(1, 1, |whole| - 1);
  }

  // ------------------------------------------------------------- the exponent

  /** Go's integer division, which truncates toward zero. */
  function Truncated(n: int, d: int): int
    requires d > 0
  {
    if n < 0 then -(-n / d) else n / d
  }

  method ParseBoundedExponent(text: string, maximum: nat) returns (value: int, ok: bool)
    requires maximum >= 1
    ensures ok <==> ExponentForm(text)
    ensures ok ==> Saturates(value, ExponentOf(text), maximum)
    ensures forall p :: Writes(p, text) ==> ok && Saturates(value, PowerValue(p), maximum)
  {
    WrittenIsRead(text);
    hide Writes, PowerValue;
    hide AllDigits, NatOf, IsDigit, DigitValue;
    if text == "" {
      return 0, false;
    }
    var negative := false;
    var position := 0;
    if text[0] == '-' || text[0] == '+' {
      negative := text[0] == '-';
      position := 1;
      if position == |text| {
        return 0, false;
      }
    }
    ghost var digits := ExponentDigits(text);
    ghost var start := position;
    value := 0;
    NoDigits(digits);
    while position < |text|
      invariant start <= position <= |text|
      invariant AllDigits(digits[..position - start])
      invariant BoundedValue(value, NatOf(digits[..position - start]), maximum)
    {
      var digit := text[position];
      DigitsMore(digits, position - start);
      if !IsDigit(digit) {
        return 0, false;
      }
      var numeric := DigitValue(digit);
      DigitBelowTen(digit);
      if value > Truncated(maximum - numeric, 10) {
        value := maximum;
      } else {
        value := value * 10 + numeric;
      }
      position := position + 1;
    }
    if negative {
      value := -value;
    }
    ok := true;
  }

  /** The magnitude read so far, or the bound once it is exceeded. */
  predicate BoundedValue(value: int, exact: nat, maximum: nat) {
    value == exact || (value == maximum && exact > maximum)
  }

  // ------------------------------------------------------------- the mantissa

  /** More significant digits than the precision, followed by any digits. */
  ghost predicate Overlong(digits: string, precision: nat) {
    exists lead: nat, s: string, tail: string ::
      Significant(s) && |s| > precision && AllDigits(tail) && digits == Zeros(lead) + s + tail
  }

  lemma OverlongIsNotRepresentable(digits: string, scale: int, precision: nat, columnScale: nat)
    requires AllDigits(digits) && Overlong(digits, precision)
    ensures NatOf(digits) != 0 && !Representable(NatOf(digits), scale, precision, columnScale)
  {
    var lead: nat, s: string, tail: string :|
      Significant(s) && |s| > precision && AllDigits(tail) && digits == Zeros(lead) + s + tail;
    TooManyDigits(lead, s, tail, scale, precision, columnScale);
  }

  /** A character other than a digit and the point spoils the mantissa. */
  lemma BadCharacter(mantissa: string, i: nat)
    requires i < |mantissa| && !IsDigit(mantissa[i]) && i != Point(mantissa)
    ensures !MantissaForm(mantissa)
  {
    if i < Point(mantissa) {
      assert Integral(mantissa)[i] == mantissa[i];
    } else {
      assert Fraction(mantissa)[i - Point(mantissa) - 1] == mantissa[i];
    }
  }

  /** The digits of mantissa[..i], given where its point is if it has one. */
  function Seen(mantissa: string, i: nat, decimalPoint: bool, before: nat): string
    requires i <= |mantissa| && before <= i && (decimalPoint ==> before < i)
  {
    if decimalPoint then mantissa[..before] + mantissa[before + 1..i] else mantissa[..i]
  }

  ghost predicate PointSeen(mantissa: string, i: nat, decimalPoint: bool, before: nat) {
    && i <= |mantissa| && before <= i
    && (if decimalPoint then 1 <= before < i && mantissa[before] == '.' else before == i)
    && AllDigits(Seen(mantissa, i, decimalPoint, before))
  }

  lemma PointAt(mantissa: string, i: nat, decimalPoint: bool, before: nat)
    requires PointSeen(mantissa, i, decimalPoint, before)
    ensures if decimalPoint then Point(mantissa) == before else Point(mantissa) >= i
  {
    var seen := Seen(mantissa, i, decimalPoint, before);
    assert forall k :: 0 <= k < before ==> mantissa[k] == seen[k];
    if decimalPoint {
      FirstOfAt(mantissa, {'.'}, before);
    }
  }

  /** What has been seen is a prefix of all digits. */
  lemma SeenPrefix(mantissa: string, i: nat, decimalPoint: bool, before: nat) returns (tail: string)
    requires PointSeen(mantissa, i, decimalPoint, before) && MantissaForm(mantissa)
    ensures AllDigits(tail) && DigitsOf(mantissa) == Seen(mantissa, i, decimalPoint, before) + tail
    ensures i == |mantissa| ==> tail == ""
  {
    PointAt(mantissa, i, decimalPoint, before);
    var digits := DigitsOf(mantissa);
    var seen := Seen(mantissa, i, decimalPoint, before);
    tail := digits[|seen|..];
    assert digits[..|seen|] == seen;
    assert digits == digits[..|seen|] + tail;
  }

  /** The loop's state after i characters: the digits seen are the coefficient between zeros. */
  ghost predicate Scanned(
    mantissa: string, i: nat, decimalPoint: bool, before: nat, lead: nat, coefficient: string, pendingZeros: nat
  ) {
    && PointSeen(mantissa, i, decimalPoint, before)
    && Seen(mantissa, i, decimalPoint, before) == Padded(lead, coefficient, pendingZeros)
    && (if coefficient == "" then pendingZeros == 0 else Significant(coefficient))
  }

  lemma StepPoint(mantissa: string, i: nat, lead: nat, coefficient: string, pendingZeros: nat)
    requires Scanned(mantissa, i, false, i, lead, coefficient, pendingZeros)
    requires 0 < i < |mantissa| && mantissa[i] == '.'
    ensures Scanned(mantissa, i + 1, true, i, lead, coefficient, pendingZeros)
  {
    assert Seen(mantissa, i + 1, true, i) == Seen(mantissa, i, false, i);
  }

  lemma SeenDigit(mantissa: string, i: nat, decimalPoint: bool, before: nat)
    requires PointSeen(mantissa, i, decimalPoint, before) && i < |mantissa| && IsDigit(mantissa[i])
    ensures var before' := if decimalPoint then before else before + 1;
            && PointSeen(mantissa, i + 1, decimalPoint, before')
            && Seen(mantissa, i + 1, decimalPoint, before') == Seen(mantissa, i, decimalPoint, before) + [mantissa[i]]
  {
    var before' := if decimalPoint then before else before + 1;
    assert Seen(mantissa, i + 1, decimalPoint, before') == Seen(mantissa, i, decimalPoint, before) + [mantissa[i]];
  }

  /** One more digit joins the leading zeros, the pending zeros or the coefficient. */
  lemma StepDigit(
    mantissa: string, i: nat, decimalPoint: bool, before: nat, lead: nat, coefficient: string, pendingZeros: nat
  )
    requires Scanned(mantissa, i, decimalPoint, before, lead, coefficient, pendingZeros)
    requires i < |mantissa| && IsDigit(mantissa[i])
    ensures var before' := if decimalPoint then before else before + 1;
            if mantissa[i] != '0' then
              Scanned(mantissa, i + 1, decimalPoint, before', lead, coefficient + Zeros(pendingZeros) + [mantissa[i]], 0)
            else if coefficient == "" then
              Scanned(mantissa, i + 1, decimalPoint, before', lead + 1, coefficient, pendingZeros)
            else Scanned(mantissa, i + 1, decimalPoint, before', lead, coefficient, pendingZeros + 1)
  {
    SeenDigit(mantissa, i, decimalPoint, before);
    if mantissa[i] != '0' {
      var grown := coefficient + Zeros(pendingZeros) + [mantissa[i]];
      assert Padded(lead, grown, 0) == Padded(lead, coefficient, pendingZeros) + [mantissa[i]];
      assert Significant(grown);
    }
  }

  lemma ScannedOverlong(
    mantissa: string, i: nat, decimalPoint: bool, before: nat, lead: nat, coefficient: string, precision: nat
  )
    requires Scanned(mantissa, i, decimalPoint, before, lead, coefficient, 0)
    requires |coefficient| > precision
    ensures MantissaForm(mantissa) ==> Overlong(DigitsOf(mantissa), precision)
  {
    if !MantissaForm(mantissa) {
      return;
    }
    var tail := SeenPrefix(mantissa, i, decimalPoint, before);
    assert Padded(lead, coefficient, 0) == Zeros(lead) + coefficient;
  }

  lemma ScannedNothing(mantissa: string)
    ensures Scanned(mantissa, 0, false, 0, 0, "", 0)
  {
  }

  lemma RejectedCharacter(
    mantissa: string, i: nat, decimalPoint: bool, before: nat, lead: nat, coefficient: string, pendingZeros: nat
  )
    requires Scanned(mantissa, i, decimalPoint, before, lead, coefficient, pendingZeros)
    requires i < |mantissa| && !IsDigit(mantissa[i])
    requires mantissa[i] == '.' ==> decimalPoint || before == 0
    ensures !MantissaForm(mantissa)
  {
    PointAt(mantissa, i, decimalPoint, before);
    if decimalPoint || mantissa[i] != '.' {
      BadCharacter(mantissa, i);
    }
  }

  lemma SeenWhole(mantissa: string, decimalPoint: bool, before: nat)
    requires PointSeen(mantissa, |mantissa|, decimalPoint, before)
    ensures Seen(mantissa, |mantissa|, decimalPoint, before) == Integral(mantissa) + Fraction(mantissa)
    ensures AllDigits(Integral(mantissa)) && AllDigits(Fraction(mantissa)) && |Integral(mantissa)| == before
    ensures decimalPoint == (Point(mantissa) < |mantissa|)
    ensures |Fraction(mantissa)| == if decimalPoint then |mantissa| - before - 1 else 0
  {
    hide AllDigits, Integral, Fraction, Seen;
    PointAt(mantissa, |mantissa|, decimalPoint, before);
    SeenParts(mantissa, decimalPoint, before);
    SplitDigits(Integral(mantissa), Fraction(mantissa));
  }

  lemma SeenParts(mantissa: string, decimalPoint: bool, before: nat)
    requires PointSeen(mantissa, |mantissa|, decimalPoint, before)
    requires Point(mantissa) == (if decimalPoint then before else |mantissa|)
    ensures Seen(mantissa, |mantissa|, decimalPoint, before) == Integral(mantissa) + Fraction(mantissa)
    ensures |Integral(mantissa)| == before
    ensures |Fraction(mantissa)| == if decimalPoint then |mantissa| - before - 1 else 0
  {
    hide AllDigits, Point;
  }

  lemma SplitDigits(a: string, b: string)
    requires AllDigits(a + b)
    ensures AllDigits(a) && AllDigits(b)
  {
    forall k | 0 <= k < |a| ensures IsDigit(a[k]) {
      assert (a + b)[k] == a[k];
    }
    forall k | 0 <= k < |b| ensures IsDigit(b[k]) {
      assert (a + b)[|a| + k] == b[k];
    }
  }

  lemma ScannedAll(
    mantissa: string, decimalPoint: bool, before: nat, lead: nat, coefficient: string, pendingZeros: nat
  )
    requires Scanned(mantissa, |mantissa|, decimalPoint, before, lead, coefficient, pendingZeros)
    ensures MantissaForm(mantissa) == (before > 0 && (decimalPoint ==> before + 1 < |mantissa|))
    ensures MantissaForm(mantissa) ==> DigitsOf(mantissa) == Padded(lead, coefficient, pendingZeros)
    ensures |Fraction(mantissa)| == (if decimalPoint then |mantissa| - before - 1 else 0)
    ensures coefficient == "" || Significant(coefficient)
  {
    hide Integral, Fraction, AllDigits, Padded, Seen;
    SeenWhole(mantissa, decimalPoint, before);
  }

  /** What the digit loop learns about the mantissa. */
  ghost predicate MantissaRead(
    mantissa: string, precision: nat, ok: bool, lead: nat, coefficient: string, pendingZeros: nat, fractionalDigits: nat
  ) {
    if ok then
      && MantissaForm(mantissa) && fractionalDigits == |Fraction(mantissa)|
      && DigitsOf(mantissa) == Padded(lead, coefficient, pendingZeros)
      && (coefficient == "" || Significant(coefficient)) && |coefficient| <= precision
    else MantissaForm(mantissa) ==> Overlong(DigitsOf(mantissa), precision)
  }

  lemma MantissaReadBy(mantissa: string, precision: nat, lead: nat, coefficient: string, pendingZeros: nat)
    ensures forall ok, fractionalDigits ::
              (if ok then
                 && MantissaForm(mantissa) && fractionalDigits == |Fraction(mantissa)|
                 && DigitsOf(mantissa) == Padded(lead, coefficient, pendingZeros)
                 && (coefficient == "" || Significant(coefficient)) && |coefficient| <= precision
               else MantissaForm(mantissa) ==> Overlong(DigitsOf(mantissa), precision))
              == MantissaRead(mantissa, precision, ok, lead, coefficient, pendingZeros, fractionalDigits)
  {
    hide MantissaForm, Fraction, DigitsOf, Padded, Significant, Overlong;
  }

  /**
   The digit loop. On success the digits are the coefficient between zeros; a failure means the
   mantissa is malformed or its digits exceed the precision.
   */
  method ScanMantissa(mantissa: string, precision: nat)
    returns (ok: bool, coefficient: string, pendingZeros: nat, fractionalDigits: nat, ghost lead: nat)
    requires precision >= 1
    ensures MantissaRead(mantissa, precision, ok, lead, coefficient, pendingZeros, fractionalDigits)
  {
    hide *;
    ok, coefficient, pendingZeros, fractionalDigits, lead := false, "", 0, 0, 0;
    var digitsBeforePoint := 0;
    var decimalPoint := false;
    ScannedNothing(mantissa);
    for index := 0 to |mantissa|
      invariant Scanned(mantissa, index, decimalPoint, digitsBeforePoint, lead, coefficient, pendingZeros)
      invariant digitsBeforePoint <= index && (!decimalPoint ==> digitsBeforePoint == index)
      invariant fractionalDigits == if decimalPoint then index - digitsBeforePoint - 1 else 0
      invariant |coefficient| <= precision && !ok
    {
      var character := mantissa[index];
      if character == '.' && !decimalPoint && digitsBeforePoint != 0 {
        StepPoint(mantissa, index, lead, coefficient, pendingZeros);
        decimalPoint := true;
      } else if !IsDigit(character) {
        RejectedCharacter(mantissa, index, decimalPoint, digitsBeforePoint, lead, coefficient, pendingZeros);
        MantissaReadBy(mantissa, precision, lead, coefficient, pendingZeros);
        return;
      } else {
        StepDigit(mantissa, index, decimalPoint, digitsBeforePoint, lead, coefficient, pendingZeros);
        if decimalPoint {
          fractionalDigits := fractionalDigits + 1;
        } else {
          digitsBeforePoint := digitsBeforePoint + 1;
        }
        if character == '0' {
          if coefficient != "" {
            pendingZeros := pendingZeros + 1;
          } else {
            lead := lead + 1;
          }
        } else {
          if |coefficient| + pendingZeros + 1 > precision {
            ScannedOverlong(mantissa, index + 1, decimalPoint, digitsBeforePoint, lead,
                            coefficient + Zeros(pendingZeros) + [character], precision);
            MantissaReadBy(mantissa, precision, lead, coefficient, pendingZeros);
            return;
          }
          coefficient := coefficient + Zeros(pendingZeros) + [character];
          pendingZeros := 0;
        }
      }
    }
    ScannedAll(mantissa, decimalPoint, digitsBeforePoint, lead, coefficient, pendingZeros);
    ok := !(digitsBeforePoint == 0 || (decimalPoint && fractionalDigits == 0));
    MantissaReadBy(mantissa, precision, lead, coefficient, pendingZeros);
  }

  // ----------------------------------------------------------------- the text

  /** The fixed-point spelling of digits * 10^-scale for digits without surrounding zeros. */
  function Spelled(negative: bool, digits: string, scale: int): string
    requires digits != ""
  {
    if scale <= 0 then FixedText(negative, digits + Zeros(-scale), "")
    else if scale >= |digits| then FixedText(negative, "0", Zeros(scale - |digits|) + digits)
    else FixedText(negative, digits[..|digits| - scale], digits[|digits| - scale..])
  }

  lemma SpelledReads(negative: bool, digits: string, scale: int) returns (c: nat, k: nat)
    requires Significant(digits)
    ensures NumberOf(Spelled(negative, digits, scale)) == Some(Number(negative, c, k))
    ensures !HasExponent(Spelled(negative, digits, scale))
    ensures SameMagnitude(c, k, NatOf(digits), scale)
  {
    hide NumberOf, HasExponent, FixedText, NatOf;
    if scale <= 0 {
      var integral := digits + Zeros(-scale);
      TrailingZeros(digits, -scale);
      assert integral + "" == integral;
      var text := FixedText(negative, integral, "");
      FixedTextReads(negative, integral, "");
      assert Spelled(negative, digits, scale) == text;
      c, k := NatOf(integral), 0;
    } else if scale >= |digits| {
      var fraction := Zeros(scale - |digits|) + digits;
      LeadingZeros(scale - |digits|, digits);
      LeadingZeros(1, fraction);
      assert Zeros(1) == "0";
      var text := FixedText(negative, "0", fraction);
      FixedTextReads(negative, "0", fraction);
      assert Spelled(negative, digits, scale) == text;
      c, k := NatOf(digits), scale;
    } else {
      var integral, fraction := digits[..|digits| - scale], digits[|digits| - scale..];
      assert integral + fraction == digits;
      var text := FixedText(negative, integral, fraction);
      FixedTextReads(negative, integral, fraction);
      assert Spelled(negative, digits, scale) == text;
      c, k := NatOf(digits), scale;
    }
  }

  method WriteFixed(negative: bool, coefficient: string, scalePower: int) returns (builder: string)
    requires coefficient != ""
    ensures builder == Spelled(negative, coefficient, scalePower)
  {
    var requiredScale := if scalePower < 0 then 0 else scalePower;
    builder := if negative then "-" else "";
    if requiredScale == 0 {
      var zeros := WriteZeros(-scalePower);
      builder := builder + (coefficient + zeros);
    } else if requiredScale >= |coefficient| {
      var zeros := WriteZeros(requiredScale - |coefficient|);
      builder := builder + ("0" + "." + (zeros + coefficient));
    } else {
      var split := |coefficient| - requiredScale;
      builder := builder + (coefficient[..split] + "." + coefficient[split..]);
    }
  }

  method WriteZeros(count: nat) returns (zeros: string)
    ensures zeros == Zeros(count)
  {
    zeros := "";
    for written := 0 to count
      invariant zeros == Zeros(written)
    {
      zeros := zeros + "0";
    }
  }

  // ------------------------------------------------------------- the function

  /** What the source's two counts say about a coefficient of n digits with this scale. */
  predicate CountsFit(n: nat, scalePower: int, precision: nat, columnScale: nat) {
    scalePower <= columnScale && n - scalePower <= precision - columnScale
  }

  /** Saturating the exponent never changes what the counts say, and an accepted exponent is exact. */
  lemma SaturationIsHarmless(
    n: nat, fractionalDigits: nat, pendingZeros: nat, value: int, exponent: int, length: nat,
    precision: nat, columnScale: nat
  )
    requires n >= 1 && columnScale <= precision
    requires fractionalDigits <= length && pendingZeros <= length
    requires Saturates(value, exponent, length + precision + columnScale + 1)
    ensures CountsFit(n, fractionalDigits - value - pendingZeros, precision, columnScale)
        <==> CountsFit(n, fractionalDigits - exponent - pendingZeros, precision, columnScale)
    ensures CountsFit(n, fractionalDigits - value - pendingZeros, precision, columnScale) ==> value == exponent
  {
  }

  /** The text's exponent, when it has a well-formed one. */
  function WrittenExponent(text: string): int {
    if HasExponent(text) && ExponentForm(ExponentText(text)) then ExponentOf(ExponentText(text)) else 0
  }

  /** The leading sign, the mantissa and the bounded exponent. */
  method SplitText(text: string, maximum: nat) returns (ok: bool, negative: bool, mantissa: string, exponent: int)
    requires maximum >= 1
    ensures !ok ==> !WellFormed(text)
    ensures ok ==> negative == Negative(text) && mantissa == Mantissa(text)
    ensures ok ==> (HasExponent(text) ==> ExponentForm(ExponentText(text)))
    ensures ok ==> Saturates(exponent, WrittenExponent(text), maximum)
  {
    ok, negative, mantissa, exponent := false, false, "", 0;
    if text == "" {
      return;
    }
    var position := 0;
    if text[position] == '-' {
      negative := true;
      position := position + 1;
      if position == |text| {
        return;
      }
    } else if text[position] == '+' {
      assert Integral(Mantissa(text)) == "" || Integral(Mantissa(text))[0] == '+';
      return;
    }
    assert text[position..] == Unsigned(text);
    var mantissaEnd := position + FirstOf(text[position..], {'e', 'E'});
    mantissa := text[position..mantissaEnd];
    assert mantissa == Mantissa(text);
    if mantissaEnd < |text| {
      assert text[mantissaEnd + 1..] == ExponentText(text);
      exponent, ok := ParseBoundedExponent(text[mantissaEnd + 1..], maximum);
    } else {
      ok := true;
    }
  }

  /** The two counts, and the spelling when they fit. */
  method FitCoefficient(negative: bool, coefficient: string, scalePower: int, precision: nat, scale: nat)
    returns (r: Option<string>)
    requires coefficient != "" && scale <= precision
    ensures r.Some? <==> CountsFit(|coefficient|, scalePower, precision, scale)
    ensures r.Some? ==> r.value == Spelled(negative, coefficient, scalePower) && |r.value| <= precision + 3
  {
    var requiredScale := scalePower;
    var integerDigits := 0;
    if requiredScale < |coefficient| {
      integerDigits := |coefficient| - requiredScale;
    }
    if requiredScale < 0 {
      integerDigits := |coefficient| - requiredScale;
      requiredScale := 0;
    }
    if requiredScale > scale || integerDigits > precision - scale {
      return None;
    }
    var builder := WriteFixed(negative, coefficient, scalePower);
    r := Some(builder);
  }

  /** The text denotes a number the column holds exactly. */
  ghost predicate Accepted(text: string, precision: nat, scale: nat, unsigned: bool) {
    NumberOf(text).Some? && FitsColumn(NumberOf(text).value, precision, scale, unsigned)
  }

  /** Both texts denote numbers, and the same one. */
  predicate SameText(text1: string, text2: string) {
    NumberOf(text1).Some? && NumberOf(text2).Some? && SameNumber(NumberOf(text1).value, NumberOf(text2).value)
  }

  lemma PaddedLength(lead: nat, coefficient: string, pendingZeros: nat, text: string)
    requires WellFormed(text) && DigitsOf(Mantissa(text)) == Padded(lead, coefficient, pendingZeros)
    ensures pendingZeros <= |text| && |Fraction(Mantissa(text))| <= |text|
  {
    assert |Padded(lead, coefficient, pendingZeros)| == lead + |coefficient| + pendingZeros;
    assert |DigitsOf(Mantissa(text))| <= |Mantissa(text)|;
  }

  /** A text whose digits were scanned is accepted exactly when the counts fit the bounded exponent. */
  lemma ScannedVerdict(
    text: string, lead: nat, coefficient: string, pendingZeros: nat, exponent: int,
    precision: nat, scale: nat, unsigned: bool
  )
    requires scale <= precision && WellFormed(text) && Significant(coefficient)
    requires DigitsOf(Mantissa(text)) == Padded(lead, coefficient, pendingZeros)
    requires Saturates(exponent, Exponent(text), |text| + precision + scale + 1)
    ensures var scalePower := |Fraction(Mantissa(text))| - exponent - pendingZeros;
            && Accepted(text, precision, scale, unsigned)
               == (CountsFit(|coefficient|, scalePower, precision, scale) && !(Negative(text) && unsigned))
            && (CountsFit(|coefficient|, scalePower, precision, scale)
                ==> SameText(Spelled(Negative(text), coefficient, scalePower), text))
            && !HasExponent(Spelled(Negative(text), coefficient, scalePower))
  {
    hide MantissaForm, Mantissa, Fraction, Integral, HasExponent, Exponent, DigitsOf, NatOf, Negative, Spelled, FixedText;
    hide AllDigits, Zeros, Padded, Shift, Representable, SameMagnitude;
    var scalePower := |Fraction(Mantissa(text))| - exponent - pendingZeros;
    PaddedValue(lead, coefficient, pendingZeros);
    NonzeroCoefficient(coefficient, pendingZeros);
    PaddedRepresentable(lead, coefficient, pendingZeros, Scale(text), precision, scale);
    PaddedLength(lead, coefficient, pendingZeros, text);
    SaturationIsHarmless(|coefficient|, |Fraction(Mantissa(text))|, pendingZeros, exponent, Exponent(text), |text|,
                         precision, scale);
    var c, k := SpelledReads(Negative(text), coefficient, scalePower);
    SameMagnitudeShift(c, k, NatOf(coefficient), scalePower, pendingZeros);
  }

  lemma MalformedIsRejected(text: string, precision: nat, scale: nat, unsigned: bool)
    requires !WellFormed(text)
    ensures !Accepted(text, precision, scale, unsigned)
  {
    hide WellFormed;
  }

  /** A mantissa that was not scanned is malformed or has too many digits. */
  lemma UnscannedIsRejected(
    text: string, precision: nat, scale: nat, unsigned: bool, lead: nat, coefficient: string, pendingZeros: nat,
    fractionalDigits: nat
  )
    requires MantissaRead(Mantissa(text), precision, false, lead, coefficient, pendingZeros, fractionalDigits)
    ensures !Accepted(text, precision, scale, unsigned)
  {
    hide MantissaForm, Mantissa, DigitsOf, HasExponent, Overlong, NatOf, Representable, Fraction, Exponent, ExponentForm;
    if WellFormed(text) {
      OverlongIsNotRepresentable(DigitsOf(Mantissa(text)), Scale(text), precision, scale);
    }
  }

  /** What a scanned mantissa and a parsed exponent say about the text. */
  lemma ScannedParts(
    text: string, precision: nat, lead: nat, coefficient: string, pendingZeros: nat, fractionalDigits: nat
  )
    requires HasExponent(text) ==> ExponentForm(ExponentText(text))
    requires MantissaRead(Mantissa(text), precision, true, lead, coefficient, pendingZeros, fractionalDigits)
    ensures WellFormed(text) && Exponent(text) == WrittenExponent(text)
    ensures MantissaForm(Mantissa(text)) && DigitsOf(Mantissa(text)) == Padded(lead, coefficient, pendingZeros)
    ensures fractionalDigits == |Fraction(Mantissa(text))| && (coefficient == "" || Significant(coefficient))
  {
    hide MantissaForm, Mantissa, Fraction, DigitsOf, HasExponent, ExponentForm, ExponentOf, ExponentText, Padded, Significant;
  }

  lemma ZeroIsAccepted(
    text: string, precision: nat, scale: nat, unsigned: bool, lead: nat, pendingZeros: nat
  )
    requires WellFormed(text) && DigitsOf(Mantissa(text)) == Padded(lead, "", pendingZeros)
    ensures Accepted(text, precision, scale, unsigned) && SameText("0", text) && !HasExponent("0")
  {
    hide MantissaForm, Mantissa, Fraction, DigitsOf, HasExponent, Exponent, ExponentForm, Padded, NatOf, Shift, Representable,
         SameMagnitude;
    PaddedValue(lead, "", pendingZeros);
    EmptyValue();
    ZeroIsZero(NumberOf(text).value, pendingZeros);
  }

  lemma EmptyValue()
    ensures NatOf("") == 0
  {
  }

  /** The outcome for a text made of these pieces: whether the column holds their number, and then that number again. */
  ghost predicate SpelledOutcome(s: Spelling, precision: nat, scale: nat, unsigned: bool, r: Result<string, ()>)
    requires ValidSpelling(s)
  {
    && r.Success? == FitsColumn(SpelledNumber(s), precision, scale, unsigned)
    && (r.Success? ==> NumberOf(r.value).Some? && SameNumber(NumberOf(r.value).value, SpelledNumber(s)))
  }

  lemma OutcomeIsSpelled(text: string, precision: nat, scale: nat, unsigned: bool, r: Result<string, ()>)
    requires r.Success? == Accepted(text, precision, scale, unsigned) && (r.Success? ==> SameText(r.value, text))
    ensures forall s :: ValidSpelling(s) && Spell(s) == text ==> SpelledOutcome(s, precision, scale, unsigned, r)
    ensures r.Success? ==> exists s :: ValidSpelling(s) && Spell(s) == text
  {
    hide ValidSpelling, Spell, SpelledNumber, FitsColumn, SameNumber, NumberOf;
    forall s | ValidSpelling(s) && Spell(s) == text ensures SpelledOutcome(s, precision, scale, unsigned, r) {
      SpelledTextDenotes(s);
    }
    if r.Success? {
      var s := NumbersAreSpelled(text);
    }
  }

  /**
   Succeeds exactly on text that denotes a number the column holds, and then spells the same number
   without an exponent in at most precision + 3 characters. The second pair of clauses says so of the text's pieces.
   */
  method NormalizeExactDecimal(text: string, precision: nat, scale: nat, unsigned: bool) returns (r: Result<string, ()>)
    requires 1 <= precision && scale <= precision
    ensures r.Success? == Accepted(text, precision, scale, unsigned)
    ensures r.Success? ==> SameText(r.value, text) && !HasExponent(r.value) && |r.value| <= precision + 3
    ensures forall s :: ValidSpelling(s) && Spell(s) == text ==> SpelledOutcome(s, precision, scale, unsigned, r)
    ensures r.Success? ==> exists s :: ValidSpelling(s) && Spell(s) == text
  {
    r := NormalizeText(text, precision, scale, unsigned);
    OutcomeIsSpelled(text, precision, scale, unsigned, r);
  }

  /** The function's body. */
  method NormalizeText(text: string, precision: nat, scale: nat, unsigned: bool) returns (r: Result<string, ()>)
    requires 1 <= precision && scale <= precision
    ensures r.Success? == Accepted(text, precision, scale, unsigned)
    ensures r.Success? ==> SameText(r.value, text) && !HasExponent(r.value) && |r.value| <= precision + 3
  {
    hide *;
    var ok, negative, mantissa, exponent := SplitText(text, |text| + precision + scale + 1);
    if !ok {
      MalformedIsRejected(text, precision, scale, unsigned);
      return Failure(());
    }
    var scanned, coefficient, pendingZeros, fractionalDigits, lead := ScanMantissa(mantissa, precision);
    if !scanned {
      UnscannedIsRejected(text, precision, scale, unsigned, lead, coefficient, pendingZeros, fractionalDigits);
      return Failure(());
    }
    ScannedParts(text, precision, lead, coefficient, pendingZeros, fractionalDigits);
    if coefficient == "" {
      ZeroIsAccepted(text, precision, scale, unsigned, lead, pendingZeros);
      return Success("0");
    }
    ScannedVerdict(text, lead, coefficient, pendingZeros, exponent, precision, scale, unsigned);
    if negative && unsigned {
      return Failure(());
    }
    var fitted := FitCoefficient(negative, coefficient, fractionalDigits - exponent - pendingZeros, precision, scale);
    if fitted == None {
      return Failure(());
    }
    r := Success(fitted.value);
  }

  lemma ZeroIsZero(n: Number, pendingZeros: nat)
    requires n.coefficient == Shift(0, pendingZeros)
    ensures n.coefficient == 0 && !HasExponent("0")
    ensures NumberOf("0") == Some(Number(false, 0, 0)) && SameNumber(Number(false, 0, 0), n)
  {
    ShiftZero(pendingZeros);
    FixedTextReads(false, "0", "");
    assert "0"[..0] == "";
    assert NatOf("0") == 0;
    assert "0" + "" == "0";
    ShiftZeroMagnitude(0, n.scale);
  }

  lemma NonzeroCoefficient(coefficient: string, pendingZeros: nat)
    requires Significant(coefficient)
    ensures NatOf(coefficient) > 0 && Shift(NatOf(coefficient), pendingZeros) > 0
  {
    SignificantBounds(coefficient);
    ShiftOrder(0, NatOf(coefficient), pendingZeros);
    ShiftZero(pendingZeros);
    ShiftOrder(1, 1, |coefficient| - 1);
  }

  lemma ShiftZeroMagnitude(scale1: int, scale2: int)
    ensures SameMagnitude(0, scale1, 0, scale2)
  {
    if scale1 <= scale2 {
      ShiftZero(scale2 - scale1);
    } else {
      ShiftZero(scale1 - scale2);
    }
  }
}
