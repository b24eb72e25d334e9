/**
 parseJSONInteger (internal/queryspec/types.go): a JSON number whose value is an integer in the
 signed 64-bit range, however it is written.
 */
module JsonInteger {
  import opened Wrappers
  import opened Digits
  import opened DecimalText

  /** The number grammar of section 6 of RFC 8259: no superfluous leading zero. */
  predicate JsonNumber(text: string) {
    && NumberOf(text).Some?
    && (Integral(Mantissa(text)) == "0" || Integral(Mantissa(text))[0] != '0')
  }

  const MIN_INT64: int := -0x8000_0000_0000_0000
  const MAX_INT64: int := 0x7FFF_FFFF_FFFF_FFFF

  /** The largest magnitude with this sign. */
  function Limit(negative: bool): nat {
    if negative then 0x8000_0000_0000_0000 else 0x7FFF_FFFF_FFFF_FFFF
  }

  /** v is exactly the magnitude of the number. */
  predicate IsMagnitude(v: nat, n: Number) {
    SameMagnitude(v, 0, n.coefficient, n.scale)
  }

  function Magnitude(value: int): nat {
    if value < 0 then -value else value
  }

  /** value is the number's exact value. */
  predicate Denotes(value: int, n: Number) {
    IsMagnitude(Magnitude(value), n) && (value != 0 ==> (value < 0) == n.negative)
  }

  /** Some signed 64-bit integer is the number's exact value. */
  ghost predicate Int64Number(n: Number) {
    exists v: nat :: IsMagnitude(v, n) && v <= Limit(n.negative)
  }

  // ------------------------------------------------------------------ lemmas

  /** Int64Number is what it says: an integer in range is denoted. */
  lemma Int64NumberMeans(n: Number)
    ensures Int64Number(n) == exists value: int :: MIN_INT64 <= value <= MAX_INT64 && Denotes(value, n)
  {
    if Int64Number(n) {
      var v: nat :| IsMagnitude(v, n) && v <= Limit(n.negative);
      var value: int := if n.negative then 0 - v else v;
      assert MIN_INT64 <= value <= MAX_INT64 && Denotes(value, n);
    }
    if value: int :| MIN_INT64 <= value <= MAX_INT64 && Denotes(value, n) {
      assert IsMagnitude(Magnitude(value), n) && Magnitude(value) <= Limit(n.negative) by {
        if value == 0 {
          assert Magnitude(value) == 0;
        }
      }
    }
  }

  lemma {:induction false} MagnitudeUnique(v: nat, w: nat, n: Number)
    requires IsMagnitude(v, n) && IsMagnitude(w, n)
    ensures v == w
  {
    if n.scale > 0 {
      ShiftOrder(v, w, n.scale);
    }
  }

  /** Quotient and remainder by a power of ten are unique. */
  lemma ShiftDivides(v: nat, h: nat, t: nat, k: nat)
    requires t < Shift(1, k) && Shift(v, k) == Shift(h, k) + t
    ensures v == h && t == 0
  {
    if v > h {
      ShiftSum(h, v - h, k);
      ShiftOrder(0, v - h - 1, k);
      ShiftSum(1, v - h - 1, k);
    } else if v < h {
      ShiftOrder(v, h, k);
    } 
  }

  /** More fraction digits than digits: a nonzero number is not an integer. */
  lemma TooFine(d: string, n: Number)
    requires AllDigits(d) && n.coefficient == NatOf(d) > 0 && n.scale > |d|
    ensures forall v: nat :: !IsMagnitude(v, n)
  {
    forall v: nat ensures !IsMagnitude(v, n) {
      NatOfBound(d);
      if v == 0 {
        ShiftZero(n.scale);
      } else {
        ShiftMonotone(1, |d|, n.scale);
        ShiftSum(1, v - 1, n.scale);
      }
    }
  }

  /** With k fraction digits the number is an integer exactly when its last k digits are zeros. */
  lemma LastDigitsDecide(d: string, n: Number)
    requires AllDigits(d) && n.coefficient == NatOf(d) && 0 < n.scale <= |d|
    ensures var head, tail := d[..|d| - n.scale], d[|d| - n.scale..];
            && (tail == Zeros(n.scale) ==> IsMagnitude(NatOf(head), n))
            && (tail != Zeros(n.scale) ==> forall v: nat :: !IsMagnitude(v, n))
  {
    var head, tail := d[..|d| - n.scale], d[|d| - n.scale..];
    assert d == head + tail;
    NatOfConcat(head, tail);
    NatOfBound(tail);
    if tail == Zeros(n.scale) {
      NatOfZeros(n.scale);
    } else {
      forall v: nat ensures !IsMagnitude(v, n) {
        if IsMagnitude(v, n) {
          ShiftDivides(v, NatOf(head), NatOf(tail), n.scale);
          ZeroMeansZeros(tail);
        }
      }
    }
  }

  lemma TwentyDigits()
    ensures Shift(1, 20) == 100_000_000_000_000_000_000
  {
    assert Shift(1, 4) == 10_000;
    assert Shift(1, 8) == 100_000_000;
    assert Shift(1, 12) == 1_000_000_000_000;
    assert Shift(1, 16) == 10_000_000_000_000_000;
  }

  /** Twenty trailing zeros are out of range. */
  lemma TooLarge(n: Number)
    requires n.coefficient > 0 && n.scale <= -20
    ensures forall v: nat :: IsMagnitude(v, n) ==> v > Limit(n.negative)
  {
    TwentyDigits();
    ShiftMonotone(1, 20, -n.scale);
    ShiftOrder(0, n.coefficient - 1, -n.scale);
    ShiftSum(1, n.coefficient - 1, -n.scale);
  }

  lemma {:induction false} PrefixIsSmaller(d: string, i: nat)
    requires AllDigits(d) && i <= |d|
    ensures NatOf(d[..i]) <= NatOf(d)
    decreases |d| - i
  {
    if i < |d| {
      PrefixIsSmaller(d, i + 1);
      assert d[..i + 1][..i] == d[..i];
    } else {
      assert d[..i] == d;
    }
  }

  // ------------------------------------------------------------ the function

  lemma DigitAt(digits: string, k: nat)
    requires AllDigits(digits) && k < |digits|
    ensures IsDigit(digits[k]) && DigitValue(digits[k]) < 10
  {
  }

  method ParseSaturatedExponent(raw: string, maximum: nat) returns (value: int)
    requires ExponentForm(raw) && maximum >= 9
    ensures Saturates(value, ExponentOf(raw), maximum)
    ensures forall p :: Writes(p, raw) ==> Saturates(value, PowerValue(p), maximum)
  {
    WrittenIsRead(raw);
    hide Writes, PowerValue;
    hide NatOf, AllDigits, DigitValue;
    var negative := raw[0] == '-';
    var digits := if raw[0] == '-' || raw[0] == '+' then raw[1..] else raw;
    assert digits == ExponentDigits(raw);
    value := 0;
    NoDigits(digits);
    var index := 0;
    while index < |digits|
      invariant index <= |digits| && AllDigits(digits[..index]) && value == NatOf(digits[..index])
    {
      DigitAt(digits, index);
      DigitsMore(digits, index);
      var decimal := DigitValue(digits[index]);
      if value > (maximum - decimal) / 10 {
        value := maximum;
        PrefixIsSmaller(digits, index + 1);
        break;
      }
      value := value * 10 + decimal;
      index := index + 1;
    }
    if negative {
      value := -value;
    }
  }

  /** The mantissa without its point. */
  function WithoutPoint(s: string): string {
    if s == "" then "" else WithoutPoint(s[..|s| - 1]) + (if s[|s| - 1] == '.' then "" else [s[|s| - 1]])
  }

  lemma {:induction false} NoPoint(s: string)
    requires forall i :: 0 <= i < |s| ==> s[i] != '.'
    ensures WithoutPoint(s) == s
  {
    if s != "" {
      NoPoint(s[..|s| - 1]);
      assert s == s[..|s| - 1] + [s[|s| - 1]];
    }
  }

  lemma {:induction false} WithoutPointConcat(a: string, b: string)
    ensures WithoutPoint(a + b) == WithoutPoint(a) + WithoutPoint(b)
    decreases |b|
  {
    if b == "" {
      assert a + b == a;
      assert WithoutPoint(a) + "" == WithoutPoint(a);
    } else {
      WithoutPointConcat(a, b[..|b| - 1]);
      assert (a + b)[..|a + b| - 1] == a + b[..|b| - 1];
    }
  }

  lemma WithoutPointIsDigits(mantissa: string)
    requires MantissaForm(mantissa)
    ensures WithoutPoint(mantissa) == DigitsOf(mantissa)
  {
    hide WithoutPoint;
    var integral, fraction := Integral(mantissa), Fraction(mantissa);
    NoPoint(integral);
    NoPoint(fraction);
    if Point(mantissa) < |mantissa| {
      assert mantissa == integral + "." + fraction;
      PointDropped(integral, fraction);
    } else {
      assert mantissa == integral && fraction == "";
      assert integral + "" == integral;
    }
  }

  lemma PointDropped(a: string, b: string)
    ensures WithoutPoint(a + "." + b) == WithoutPoint(a) + WithoutPoint(b)
  {
    WithoutPointConcat(a + ".", b);
    assert (a + ".")[..|a|] == a;
    assert WithoutPoint(a) + "" == WithoutPoint(a);
  }

  method CollectDigits(mantissa: string) returns (digits: string)
    ensures digits == WithoutPoint(mantissa)
  {
    digits := "";
    for i := 0 to |mantissa|
      invariant digits == WithoutPoint(mantissa[..i])
    {
      assert mantissa[..i + 1][..i] == mantissa[..i];
      if mantissa[i] != '.' {
        digits := digits + [mantissa[i]];
      } else {
        assert digits + "" == digits;
      }
    }
    assert mantissa[..|mantissa|] == mantissa;
  }

  method DropLeadingZeros(collected: string) returns (digits: string)
    requires AllDigits(collected)
    ensures AllDigits(digits) && |digits| <= |collected| && NatOf(digits) == NatOf(collected)
    ensures digits != "" ==> digits[0] != '0'
  {
    digits := collected;
    while digits != "" && digits[0] == '0'
      invariant AllDigits(digits) && |digits| <= |collected| && NatOf(digits) == NatOf(collected)
      decreases |digits|
    {
      LeadingZeros(1, digits[1..]);
      assert Zeros(1) == "0" && digits == "0" + digits[1..];
      digits := digits[1..];
    }
  }

  method AllZeros(digits: string) returns (zeros: bool)
    ensures zeros == (digits == Zeros(|digits|))
  {
    for i := 0 to |digits|
      invariant forall k :: 0 <= k < i ==> digits[k] == '0'
    {
      if digits[i] != '0' {
        return false;
      }
    }
    zeros := true;
  }

  /** The accumulator of the digits and then of the exponent's zeros, stopping beyond the limit. */
  method Accumulate(digits: string, zeros: nat, limit: nat) returns (r: Option<nat>)
    requires AllDigits(digits)
    ensures r.Some? == (Shift(NatOf(digits), zeros) <= limit)
    ensures r.Some? ==> r.value == Shift(NatOf(digits), zeros)
  {
    hide Shift;
    var magnitude := 0;
    for i := 0 to |digits|
      invariant magnitude == NatOf(digits[..i]) && magnitude <= limit
    {
      var value := DigitValue(digits[i]);
      assert digits[..i + 1][..i] == digits[..i];
      if value > limit || magnitude > (limit - value) / 10 {
        PrefixIsSmaller(digits, i + 1);
        ShiftOrder(NatOf(digits), NatOf(digits), zeros);
        return None;
      }
      magnitude := magnitude * 10 + value;
    }
    assert digits[..|digits|] == digits;
    ShiftNothing(NatOf(digits));
    for j := 0 to zeros
      invariant magnitude == Shift(NatOf(digits), j) && magnitude <= limit
    {
      ShiftOnce(NatOf(digits), j);
      if magnitude > limit / 10 {
        ShiftMonotone(NatOf(digits), j + 1, zeros);
        return None;
      }
      magnitude := magnitude * 10;
    }
    r := Some(magnitude);
  }

  lemma ShiftNothing(c: nat)
    ensures Shift(c, 0) == c
  {
  }

  lemma ShiftOnce(c: nat, n: nat)
    ensures Shift(c, n + 1) == 10 * Shift(c, n)
  {
  }

  /** The significant digits and the (saturated) power of ten they are multiplied by. */
  method Evaluate(digits: string, effectiveExponent: int, negative: bool) returns (r: Option<nat>)
    requires AllDigits(digits) && digits != "" && digits[0] != '0'
    ensures var n := Number(negative, NatOf(digits), -effectiveExponent);
            && (r.Some? ==> IsMagnitude(r.value, n) && r.value <= Limit(negative))
            && (r == None ==> !Int64Number(n))
  {
    ghost var n := Number(negative, NatOf(digits), -effectiveExponent);
    NatOfBound(digits);
    ShiftOrder(1, 1, |digits| - 1);
    var kept, zeros := digits, effectiveExponent;
    if effectiveExponent < 0 {
      var trailingZeros := -effectiveExponent;
      if trailingZeros > |digits| {
        TooFine(digits, n);
        return None;
      }
      LastDigitsDecide(digits, n);
      var integral := AllZeros(digits[|digits| - trailingZeros..]);
      if !integral {
        return None;
      }
      kept, zeros := digits[..|digits| - trailingZeros], 0;
    }
    if zeros > 19 {
      TooLarge(n);
      return None;
    }
    r := Accumulate(kept, zeros, Limit(negative));
    if effectiveExponent < 0 {
      forall v: nat | IsMagnitude(v, n) ensures v == NatOf(kept) {
        MagnitudeUnique(v, NatOf(kept), n);
      }
      ShiftNothing(NatOf(kept));
    }
  }

  /** Saturation changes neither an accepted value nor a rejection. */
  lemma SaturationIsHarmless(
    digits: string, fractionalDigits: nat, value: int, exponent: int, length: nat, negative: bool
  )
    requires AllDigits(digits) && digits != "" && digits[0] != '0'
    requires |digits| <= length && fractionalDigits <= length
    requires Saturates(value, exponent, length + 20) && value != exponent
    ensures !Int64Number(Number(negative, NatOf(digits), fractionalDigits - value))
    ensures !Int64Number(Number(negative, NatOf(digits), fractionalDigits - exponent))
  {
    hide IsMagnitude;
    NatOfBound(digits);
    ShiftOrder(1, 1, |digits| - 1);
    var saturated := Number(negative, NatOf(digits), fractionalDigits - value);
    var exact := Number(negative, NatOf(digits), fractionalDigits - exponent);
    if exponent > 0 {
      TooLarge(saturated);
      TooLarge(exact);
    } else {
      TooFine(digits, saturated);
      TooFine(digits, exact);
    }
  }

  /** Accepted exactly when the text is a JSON number whose value is a 64-bit integer, and then with that value. */
  ghost predicate IntegerVerdict(text: string, r: Result<int, ()>) {
    if JsonNumber(text) && Int64Number(NumberOf(text).value) then
      r.Success? && MIN_INT64 <= r.value <= MAX_INT64 && Denotes(r.value, NumberOf(text).value)
    else r.Failure?
  }

  lemma VerdictBy(text: string)
    ensures !JsonNumber(text) ==> IntegerVerdict(text, Failure(()))
    ensures JsonNumber(text) ==> NumberOf(text).Some?
    ensures NumberOf(text).Some? && !Int64Number(NumberOf(text).value) ==> IntegerVerdict(text, Failure(()))
    ensures forall v: int ::
              JsonNumber(text) && NumberOf(text).Some? && Int64Number(NumberOf(text).value)
              && MIN_INT64 <= v <= MAX_INT64 && Denotes(v, NumberOf(text).value)
              ==> IntegerVerdict(text, Success(v))
  {
    hide Int64Number, Denotes;
  }

  /** The verdict on a text made of these pieces; JSON has no superfluous leading zero. */
  ghost predicate SpelledVerdict(s: Spelling, r: Result<int, ()>)
    requires ValidSpelling(s)
  {
    if (s.integral == "0" || s.integral[0] != '0') && Int64Number(SpelledNumber(s)) then
      r.Success? && MIN_INT64 <= r.value <= MAX_INT64 && Denotes(r.value, SpelledNumber(s))
    else r.Failure?
  }

  lemma VerdictIsSpelled(text: string, r: Result<int, ()>)
    requires IntegerVerdict(text, r)
    ensures forall s :: ValidSpelling(s) && Spell(s) == text ==> SpelledVerdict(s, r)
    ensures r.Success? ==> exists s :: ValidSpelling(s) && Spell(s) == text
  {
    hide Spell, SpelledNumber, Int64Number, Denotes, NumberOf, Integral, Mantissa;
    forall s | ValidSpelling(s) && Spell(s) == text ensures SpelledVerdict(s, r) {
      SpelledTextDenotes(s);
    }
    if r.Success? {
      var s := NumbersAreSpelled(text);
    }
  }

  lemma IntegerTextIsFixed(n: int)
    ensures var digits := if n < 0 then Decimal(-n) else Decimal(n);
            IntegerText(n) == FixedText(n < 0, digits, "")
  {
  }

  /** The text of an integer is a JSON number that denotes it. */
  lemma IntegerTextDenotes(n: int)
    ensures NumberOf(IntegerText(n)).Some? && JsonNumber(IntegerText(n)) && Denotes(n, NumberOf(IntegerText(n)).value)
  {
    var digits := if n < 0 then Decimal(-n) else Decimal(n);
    IntegerTextIsFixed(n);
    SpelledTextDenotes(Spelling(n < 0, digits, "", NoPower));
    assert digits + "" == digits && IntegerText(n) + "" == IntegerText(n);
    DecimalDenotes(Magnitude(n));
    var number := Number(n < 0, NatOf(digits), 0);
    hide WellFormed, Coefficient, Scale, Negative, Integral, Mantissa, NatOf, Decimal, IntegerText, FixedText;
    assert NumberOf(IntegerText(n)) == Some(number);
    if Magnitude(n) == 0 {
      assert digits == "0" by {
        ZeroIsOneDigit();
      }
    } else {
      FirstDigit(Magnitude(n));
    }
  }

  lemma ZeroIsOneDigit()
    ensures Decimal(0) == "0"
  {
  }

  lemma FirstDigit(n: nat)
    requires n > 0
    ensures Decimal(n)[0] != '0'
  {
    DecimalDenotes(n);
    NatOfEnd(Decimal(n));
    NoNumber();
    if |Decimal(n)| == 1 {
      assert Decimal(n)[..0] == "";
    }
  }

  /** What the verdict is on the text of an integer in range: that integer. */
  lemma IntegersAreRead(text: string, r: Result<int, ()>)
    requires IntegerVerdict(text, r)
    ensures forall n: int :: MIN_INT64 <= n <= MAX_INT64 && text == IntegerText(n) ==> r == Success(n)
  {
    hide JsonNumber, Denotes, NumberOf, IntegerText, Int64Number;
    forall n: int | MIN_INT64 <= n <= MAX_INT64 && text == IntegerText(n) ensures r == Success(n) {
      IntegerTextDenotes(n);
      Int64NumberMeans(NumberOf(text).value);
      OneInteger(n, r.value, NumberOf(text).value);
    }
  }

  lemma OneInteger(v: int, w: int, n: Number)
    requires Denotes(v, n) && Denotes(w, n)
    ensures v == w
  {
    MagnitudeUnique(Magnitude(v), Magnitude(w), n);
    hide IsMagnitude;
  }

  /**
   Accepts a JSON number exactly when its value is an integer in the signed 64-bit range, and
   returns that value; the last two clauses say so of the text's pieces.
   */
  method ParseJsonInteger(text: string) returns (r: Result<int, ()>)
    ensures IntegerVerdict(text, r)
    ensures forall s :: ValidSpelling(s) && Spell(s) == text ==> SpelledVerdict(s, r)
    ensures r.Success? ==> exists s :: ValidSpelling(s) && Spell(s) == text
    ensures forall n: int :: MIN_INT64 <= n <= MAX_INT64 && text == IntegerText(n) ==> r == Success(n)
  {
    r := ParseInteger(text);
    VerdictIsSpelled(text, r);
    IntegersAreRead(text, r);
  }

  /** The function's body. */
  method ParseInteger(text: string) returns (r: Result<int, ()>)
    ensures IntegerVerdict(text, r)
  {
    hide *;
    VerdictBy(text);
    if !JsonNumber(text) {
      return Failure(());
    }
    NumberParts(text);
    var negative := Negative(text);
    var raw := Unsigned(text);
    var mantissa := Mantissa(text);
    var fractionalDigits := |Fraction(mantissa)|;
    WithoutPointIsDigits(mantissa);
    var collected := CollectDigits(mantissa);
    var digits := DropLeadingZeros(collected);
    ghost var n := NumberOf(text).value;
    if |digits| == 0 {
      ZeroIsDenoted(n, digits);
      return Success(0);
    }
    var exponent := 0;
    if HasExponent(text) {
      exponent := ParseSaturatedExponent(ExponentText(text), |raw| + 20);
    }
    if exponent != Exponent(text) {
      SaturationIsHarmless(digits, fractionalDigits, exponent, Exponent(text), |raw|, negative);
    }
    var magnitude := Evaluate(digits, exponent - fractionalDigits, negative);
    if magnitude == None {
      return Failure(());
    }
    SignedValue(magnitude.value, Number(negative, NatOf(digits), fractionalDigits - exponent));
    var value: int := magnitude.value;
    r := Success(if negative then -value else value);
  }

  /** The pieces of a well-formed number, as the function cuts them. */
  lemma NumberParts(text: string)
    requires JsonNumber(text)
    ensures WellFormed(text) && MantissaForm(Mantissa(text))
    ensures NumberOf(text) == Some(Number(Negative(text), NatOf(DigitsOf(Mantissa(text))),
                                          |Fraction(Mantissa(text))| - Exponent(text)))
    ensures if HasExponent(text) then
              ExponentForm(ExponentText(text)) && Exponent(text) == ExponentOf(ExponentText(text))
            else Exponent(text) == 0
    ensures |DigitsOf(Mantissa(text))| <= |Unsigned(text)| && |Fraction(Mantissa(text))| <= |Unsigned(text)|
  {
    hide FirstOf, NatOf, Shift;
  }

  lemma SignedValue(v: nat, n: Number)
    requires IsMagnitude(v, n) && v <= Limit(n.negative)
    ensures Int64Number(n)
    ensures var value: int := if n.negative then 0 - v else v;
            MIN_INT64 <= value <= MAX_INT64 && Denotes(value, n)
  {
  }

  lemma ZeroIsDenoted(n: Number, digits: string)
    requires digits == "" && n.coefficient == NatOf(digits)
    ensures MIN_INT64 <= 0 <= MAX_INT64 && Denotes(0, n) && Int64Number(n)
  {
    if n.scale > 0 {
      ShiftZero(n.scale);
    } else {
      ShiftZero(-n.scale);
    }
    assert IsMagnitude(0, n);
  }
}
