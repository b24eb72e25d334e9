/**
 Decimal text with an optional fraction and an optional exponent, and the exact number it denotes.

 A text denotes (-1)^negative * coefficient * 10^-scale, where the scale may be any integer: no
 rational numbers, no rounding and no bound on the exponent.
 */
module DecimalText {
  import opened Wrappers
  import opened Digits

  function FirstOf(s: string, marks: set<char>): (n: nat)
    ensures n <= |s|
    ensures n < |s| ==> s[n] in marks
    ensures forall i :: 0 <= i < n ==> s[i] !in marks
  {
    if s == "" || s[0] in marks then 0 else 1 + FirstOf(s[1..], marks)
  }

  lemma FirstOfAt(s: string, marks: set<char>, n: nat)
    requires n <= |s| && (n < |s| ==> s[n] in marks)
    requires forall i :: 0 <= i < n ==> s[i] !in marks
    ensures FirstOf(s, marks) == n
  {
  }

  predicate Negative(text: string) {
    text != "" && text[0] == '-'
  }

  function Unsigned(text: string): string {
    if Negative(text) then text[1..] else text
  }

  function ExponentMark(text: string): nat {
    FirstOf(Unsigned(text), {'e', 'E'})
  }

  function Mantissa(text: string): (m: string)
    ensures |m| <= |text|
  {
    Unsigned(text)[..ExponentMark(text)]
  }

  predicate HasExponent(text: string) {
    ExponentMark(text) < |Unsigned(text)|
  }

  function ExponentText(text: string): string
    requires HasExponent(text)
  {
    Unsigned(text)[ExponentMark(text) + 1..]
  }

  function Point(mantissa: string): nat {
    FirstOf(mantissa, {'.'})
  }

  function Integral(mantissa: string): string {
    mantissa[..Point(mantissa)]
  }

  function Fraction(mantissa: string): string {
    if Point(mantissa) < |mantissa| then mantissa[Point(mantissa) + 1..] else ""
  }

  predicate MantissaForm(mantissa: string) {
    && Integral(mantissa) != "" && AllDigits(Integral(mantissa))
    && AllDigits(Fraction(mantissa))
    && (Point(mantissa) < |mantissa| ==> Fraction(mantissa) != "")
  }

  function ExponentDigits(exponent: string): string {
    if exponent != "" && (exponent[0] == '-' || exponent[0] == '+') then exponent[1..] else exponent
  }

  predicate ExponentForm(exponent: string) {
    ExponentDigits(exponent) != "" && AllDigits(ExponentDigits(exponent))
  }

  function ExponentOf(exponent: string): int
    requires ExponentForm(exponent)
  {
    var magnitude: int := NatOf(ExponentDigits(exponent));
    if exponent[0] == '-' then -magnitude else magnitude
  }

  /** -?digits(.digits)?([eE][+-]?digits)? */
  predicate WellFormed(text: string) {
    MantissaForm(Mantissa(text)) && (HasExponent(text) ==> ExponentForm(ExponentText(text)))
  }

  function Exponent(text: string): int
    requires WellFormed(text)
  {
    if HasExponent(text) then ExponentOf(ExponentText(text)) else 0
  }

  function DigitsOf(mantissa: string): (d: string)
    requires MantissaForm(mantissa)
    ensures AllDigits(d)
  {
    Integral(mantissa) + Fraction(mantissa)
  }

  function Coefficient(text: string): nat
    requires WellFormed(text)
  {
    NatOf(DigitsOf(Mantissa(text)))
  }

  function Scale(text: string): int
    requires WellFormed(text)
  {
    |Fraction(Mantissa(text))| - Exponent(text)
  }

  /** coefficient1 * 10^-scale1 == coefficient2 * 10^-scale2 */
  predicate SameMagnitude(coefficient1: nat, scale1: int, coefficient2: nat, scale2: int) {
    if scale1 <= scale2 then Shift(coefficient1, scale2 - scale1) == coefficient2
    else coefficient1 == Shift(coefficient2, scale1 - scale2)
  }

  /** (-1)^negative * coefficient * 10^-scale */
  datatype Number = Number(negative: bool, coefficient: nat, scale: int)

  /** The number a text denotes, if it is well-formed. */
  function NumberOf(text: string): Option<Number> {
    if WellFormed(text) then Some(Number(Negative(text), Coefficient(text), Scale(text))) else None
  }

  predicate SameNumber(a: Number, b: Number) {
    && SameMagnitude(a.coefficient, a.scale, b.coefficient, b.scale)
    && (a.coefficient != 0 ==> a.negative == b.negative)
  }

  /** `value` is the exponent, or the bound on its side when the exponent is beyond the bound. */
  predicate Saturates(value: int, exponent: int, maximum: nat) {
    value == exponent || (exponent > maximum && value == maximum) || (exponent + maximum < 0 && value + maximum == 0)
  }

  // ----------------------------------------------------------- magnitudes

  /** A number compares the same against a coefficient and against its shifted form. */
  lemma SameMagnitudeShift(v: nat, vScale: int, c: nat, scale: int, zeros: nat)
    ensures SameMagnitude(v, vScale, Shift(c, zeros), scale + zeros) == SameMagnitude(v, vScale, c, scale)
  {
    hide Shift;
    if vScale <= scale {
      ShiftAdd(v, scale - vScale, zeros);
      ShiftOrder(Shift(v, scale - vScale), c, zeros);
    } else if vScale <= scale + zeros {
      ShiftAdd(c, vScale - scale, scale + zeros - vScale);
      ShiftOrder(v, Shift(c, vScale - scale), scale + zeros - vScale);
    } else {
      ShiftAdd(c, zeros, vScale - scale - zeros);
    }
  }

  // -------------------------------------------------------- fixed-point text

  /** Sign, integral digits, and a fraction only when there are fraction digits. */
  function FixedText(negative: bool, integral: string, fraction: string): string {
    (if negative then "-" else "") + (if fraction == "" then integral else integral + "." + fraction)
  }

  lemma SignAndMantissa(negative: bool, body: string)
    requires body != "" && body[0] != '-' && forall i :: 0 <= i < |body| ==> body[i] != 'e' && body[i] != 'E'
    ensures var text := (if negative then "-" else "") + body;
            Negative(text) == negative && Mantissa(text) == body && !HasExponent(text)
  {
    var text := (if negative then "-" else "") + body;
    assert negative ==> text[1..] == body;
    assert !negative ==> text == body;
    assert Unsigned(text) == body;
    FirstOfAt(body, {'e', 'E'}, |body|);
  }

  lemma PointAndDigits(integral: string, fraction: string)
    requires integral != "" && AllDigits(integral) && AllDigits(fraction)
    ensures var body := if fraction == "" then integral else integral + "." + fraction;
            && MantissaForm(body) && DigitsOf(body) == integral + fraction && Fraction(body) == fraction
            && Integral(body) == integral
  {
    var body := if fraction == "" then integral else integral + "." + fraction;
    FirstOfAt(body, {'.'}, |integral|);
    assert Integral(body) == integral && Fraction(body) == fraction;
  }

  lemma NumberOfMantissa(text: string)
    requires !HasExponent(text) && MantissaForm(Mantissa(text))
    ensures NumberOf(text) == Some(Number(Negative(text), NatOf(DigitsOf(Mantissa(text))), |Fraction(Mantissa(text))|))
  {
    hide HasExponent, MantissaForm, Mantissa, DigitsOf, Fraction, NatOf, Negative;
  }

  lemma MarksOfFixed(integral: string, fraction: string)
    requires integral != "" && AllDigits(integral) && AllDigits(fraction)
    ensures var body := if fraction == "" then integral else integral + "." + fraction;
            body[0] != '-' && forall i :: 0 <= i < |body| ==> body[i] != 'e' && body[i] != 'E'
  {
    var body := if fraction == "" then integral else integral + "." + fraction;
    assert body[0] == integral[0];
    assert forall i :: 0 <= i < |integral| ==> body[i] == integral[i];
    assert forall i :: |integral| < i < |body| ==> body[i] == fraction[i - |integral| - 1];
  }

  lemma FixedTextReads(negative: bool, integral: string, fraction: string)
    requires integral != "" && AllDigits(integral) && AllDigits(fraction)
    ensures !HasExponent(FixedText(negative, integral, fraction))
    ensures NumberOf(FixedText(negative, integral, fraction))
         == Some(Number(negative, NatOf(integral + fraction), |fraction|))
  {
    var body := if fraction == "" then integral else integral + "." + fraction;
    var text := FixedText(negative, integral, fraction);
    assert text == (if negative then "-" else "") + body;
    MarksOfFixed(integral, fraction);
    hide *;
    PointAndDigits(integral, fraction);
    SignAndMantissa(negative, body);
    NumberOfMantissa(text);
  }

  // -------------------------------------------------------------- spellings

  /** The power of ten a text may end with: its mark, its sign if any, and its digits. */
  datatype Power = NoPower | Power(mark: char, sign: string, digits: string)

  /** The pieces of a decimal text, as its grammar lists them. */
  datatype Spelling = Spelling(negative: bool, integral: string, fraction: string, power: Power)

  predicate ValidPower(p: Power) {
    p.Power? ==>
      (p.mark == 'e' || p.mark == 'E') && (p.sign == "" || p.sign == "+" || p.sign == "-") && p.digits != "" && AllDigits(p.digits)
  }

  predicate ValidSpelling(s: Spelling) {
    s.integral != "" && AllDigits(s.integral) && AllDigits(s.fraction) && ValidPower(s.power)
  }

  function SpellPower(p: Power): string {
    if p == NoPower then "" else [p.mark] + p.sign + p.digits
  }

  function Spell(s: Spelling): string {
    FixedText(s.negative, s.integral, s.fraction) + SpellPower(s.power)
  }

  /** The exponent that a power writes. */
  function PowerValue(p: Power): int
    requires ValidPower(p)
  {
    if p == NoPower then 0
    else
      var magnitude: int := NatOf(p.digits);
      if p.sign == "-" then -magnitude else magnitude
  }

  /** The number that the pieces denote: fraction digits move the point to the left, and a power moves it by its value. */
  function SpelledNumber(s: Spelling): Number
    requires ValidSpelling(s)
  {
    Number(s.negative, NatOf(s.integral + s.fraction), |s.fraction| - PowerValue(s.power))
  }

  /** The text before an exponent mark decides sign and mantissa, the text behind it the exponent. */
  lemma ExponentSplits(negative: bool, body: string, mark: char, rest: string)
    requires body != "" && body[0] != '-' && (forall i :: 0 <= i < |body| ==> body[i] != 'e' && body[i] != 'E')
    requires mark == 'e' || mark == 'E'
    ensures var text := (if negative then "-" else "") + body + ([mark] + rest);
            Negative(text) == negative && Mantissa(text) == body && HasExponent(text) && ExponentText(text) == rest
  {
    var text := (if negative then "-" else "") + body + ([mark] + rest);
    assert negative ==> text[1..] == body + ([mark] + rest);
    assert !negative ==> text == body + ([mark] + rest);
    var u := body + ([mark] + rest);
    assert Unsigned(text) == u;
    assert forall i :: 0 <= i < |body| ==> u[i] == body[i];
    assert u[|body|] == mark;
    FirstOfAt(u, {'e', 'E'}, |body|);
    assert u[..|body|] == body && u[|body| + 1..] == rest;
  }

  lemma PowerReads(p: Power)
    requires p.Power? && ValidPower(p)
    ensures ExponentForm(p.sign + p.digits)
    ensures ExponentOf(p.sign + p.digits) == PowerValue(p)
  {
    hide NatOf;
    var rest := p.sign + p.digits;
    if p.sign == "" {
      assert rest == p.digits;
      assert IsDigit(rest[0]);
    } else {
      assert rest[0] == p.sign[0] && rest[1..] == p.digits;
    }
  }

  /** A sign and digits are an exponent of their value. */
  predicate Writes(p: Power, exponent: string) {
    p.Power? && ValidPower(p) && exponent == p.sign + p.digits
  }

  lemma WrittenIsRead(exponent: string)
    ensures forall p :: Writes(p, exponent) ==> ExponentForm(exponent) && ExponentOf(exponent) == PowerValue(p)
  {
    hide ExponentForm, ExponentOf, PowerValue, ValidPower;
    forall p | Writes(p, exponent) ensures ExponentForm(exponent) && ExponentOf(exponent) == PowerValue(p) {
      PowerReads(p);
    }
  }

  lemma BodySpelling(negative: bool, integral: string, fraction: string, tail: string)
    ensures var body := if fraction == "" then integral else integral + "." + fraction;
            FixedText(negative, integral, fraction) + tail == (if negative then "-" else "") + body + tail
  {
  }

  /** A spelled text denotes the number of its pieces. */
  lemma SpelledTextDenotes(s: Spelling)
    requires ValidSpelling(s)
    ensures NumberOf(Spell(s)) == Some(SpelledNumber(s)) && Integral(Mantissa(Spell(s))) == s.integral
  {
    hide AllDigits, NatOf, FixedText, HasExponent, MantissaForm, Mantissa, ExponentForm, ExponentOf, ExponentText, DigitsOf, Fraction,
         Integral, Negative;
    var body := if s.fraction == "" then s.integral else s.integral + "." + s.fraction;
    MarksOfFixed(s.integral, s.fraction);
    PointAndDigits(s.integral, s.fraction);
    if s.power == NoPower {
      BodySpelling(s.negative, s.integral, s.fraction, "");
      SignAndMantissa(s.negative, body);
      assert Spell(s) == (if s.negative then "-" else "") + body;
    } else {
      PowerReads(s.power);
      BodySpelling(s.negative, s.integral, s.fraction, SpellPower(s.power));
      assert SpellPower(s.power) == [s.power.mark] + (s.power.sign + s.power.digits);
      ExponentSplits(s.negative, body, s.power.mark, s.power.sign + s.power.digits);
    }
  }

  lemma UnsignedIsPieces(text: string)
    ensures Unsigned(text) == Mantissa(text)
                            + (if HasExponent(text) then [Unsigned(text)[ExponentMark(text)]] + ExponentText(text) else "")
  {
    hide FirstOf;
    var u, n := Unsigned(text), ExponentMark(text);
    SplitAt(u, n);
  }

  lemma SplitAt(u: string, n: nat)
    requires n <= |u|
    ensures u == u[..n] + (if n < |u| then [u[n]] + u[n + 1..] else "")
  {
  }

  lemma SignIsPiece(text: string)
    ensures text == (if Negative(text) then "-" else "") + Unsigned(text)
  {
  }

  lemma TextIsPieces(text: string)
    ensures text == (if Negative(text) then "-" else "") + Mantissa(text)
                  + (if HasExponent(text) then [Unsigned(text)[ExponentMark(text)]] + ExponentText(text) else "")
  {
    hide Negative, Unsigned, Mantissa, ExponentText, ExponentMark;
    SignIsPiece(text);
    UnsignedIsPieces(text);
  }

  lemma MantissaIsPieces(m: string)
    requires MantissaForm(m)
    ensures m == if Fraction(m) == "" then Integral(m) else Integral(m) + "." + Fraction(m)
  {
    hide AllDigits;
  }

  /** Only spelled texts denote numbers. */
  lemma NumbersAreSpelled(text: string) returns (s: Spelling)
    requires NumberOf(text).Some?
    ensures ValidSpelling(s) && Spell(s) == text
  {
    var m := Mantissa(text);
    var power := NoPower;
    if HasExponent(text) {
      power := PowerOf(text);
    }
    TextIsPieces(text);
    MantissaIsPieces(m);
    s := Spelling(Negative(text), Integral(m), Fraction(m), power);
    hide Negative, Mantissa, HasExponent, ExponentText, ExponentMark, Unsigned, Integral, Fraction, AllDigits, ExponentForm;
    BodySpelling(s.negative, s.integral, s.fraction, SpellPower(s.power));
  }

  lemma MarkIsMark(text: string)
    requires HasExponent(text)
    ensures Unsigned(text)[ExponentMark(text)] == 'e' || Unsigned(text)[ExponentMark(text)] == 'E'
  {
    hide Unsigned;
  }

  lemma SignOf(rest: string) returns (sign: string)
    requires rest != ""
    ensures rest == sign + ExponentDigits(rest) && (sign == "" || sign == "+" || sign == "-")
  {
    sign := if rest[0] == '-' || rest[0] == '+' then [rest[0]] else "";
    assert rest == [rest[0]] + rest[1..];
  }

  lemma FormParts(rest: string)
    requires ExponentForm(rest)
    ensures rest != "" && ExponentDigits(rest) != "" && AllDigits(ExponentDigits(rest))
  {
    hide AllDigits;
  }

  lemma PowerOf(text: string) returns (p: Power)
    requires HasExponent(text) && ExponentForm(ExponentText(text))
    ensures p.Power? && ValidPower(p) && SpellPower(p) == [Unsigned(text)[ExponentMark(text)]] + ExponentText(text)
  {
    hide AllDigits, HasExponent, ExponentText, ExponentMark, Unsigned, ExponentDigits, ExponentForm;
    var rest := ExponentText(text);
    FormParts(rest);
    MarkIsMark(text);
    HasMark(text);
    var sign := SignOf(rest);
    p := Power(Unsigned(text)[ExponentMark(text)], sign, ExponentDigits(rest));
  }

  lemma HasMark(text: string)
    requires HasExponent(text)
    ensures ExponentMark(text) < |Unsigned(text)|
  {
    hide Unsigned, ExponentMark;
  }

  /** The same number with a decimal point that many places further to the right. */
  function Moved(n: Number, places: nat): Number {
    Number(n.negative, Shift(n.coefficient, places), n.scale)
  }

  /**
   Behind a text without a power, "e" and "e+" multiply its number by ten to the digits that follow, and "e-"
   divides it by that.
   */
  lemma PowersOfTen(negative: bool, integral: string, fraction: string, mark: char, digits: string)
    requires integral != "" && AllDigits(integral) && AllDigits(fraction) && digits != "" && AllDigits(digits)
    requires mark == 'e' || mark == 'E'
    ensures var plain := FixedText(negative, integral, fraction);
            var k, up, plus, down := NatOf(digits), plain + ([mark] + digits), plain + ([mark] + "+" + digits), plain + ([mark] + "-" + digits);
            && NumberOf(plain).Some? && NumberOf(up).Some? && NumberOf(plus) == NumberOf(up) && NumberOf(down).Some?
            && SameNumber(NumberOf(up).value, Moved(NumberOf(plain).value, k))
            && SameNumber(Moved(NumberOf(down).value, k), NumberOf(plain).value)
  {
    hide *;
    NothingBetween([mark], digits);
    FixedTextReads(negative, integral, fraction);
    PowerSpelled(negative, integral, fraction, mark, "", digits);
    PowerSpelled(negative, integral, fraction, mark, "+", digits);
    PowerSpelled(negative, integral, fraction, mark, "-", digits);
    var k := NatOf(digits);
    NatOfConcat(integral, fraction);
    MovedIsSame(negative, NatOf(integral + fraction), |fraction|, k);
  }

  lemma NothingBetween(a: string, b: string)
    ensures a + "" + b == a + b
  {
  }

  lemma PowerSpelled(negative: bool, integral: string, fraction: string, mark: char, sign: string, digits: string)
    requires integral != "" && AllDigits(integral) && AllDigits(fraction) && digits != "" && AllDigits(digits)
    requires (mark == 'e' || mark == 'E') && (sign == "" || sign == "+" || sign == "-")
    ensures var k: int := NatOf(digits);
            NumberOf(FixedText(negative, integral, fraction) + ([mark] + sign + digits))
            == Some(Number(negative, NatOf(integral + fraction), |fraction| - (if sign == "-" then -k else k)))
  {
    hide AllDigits, NatOf, FixedText, NumberOf;
    SpelledTextDenotes(Spelling(negative, integral, fraction, Power(mark, sign, digits)));
  }

  lemma MovedIsSame(negative: bool, c: nat, scale: int, k: nat)
    ensures SameNumber(Number(negative, c, scale - k), Moved(Number(negative, c, scale), k))
    ensures SameNumber(Moved(Number(negative, c, scale + k), k), Number(negative, c, scale))
  {
  }
}
