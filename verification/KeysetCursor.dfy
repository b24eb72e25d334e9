/**
 Keyset cursors (internal/adapters/mysql8/keyset.go): the text a key cell becomes in a cursor, and the
 value that text binds to.
 */
module KeysetCursor {
  import opened Wrappers
  import opened Digits
  import opened JsonText

  // ----------------------------------------------------------------- columns

  datatype Kind = IntegerKind | StringKind | BytesKind | DateKind | DatetimeKind | TimestampKind

  datatype Direction = Asc | Desc

  /**
   A column of order_by. `maximumLength` is its character or octet length, `bits` its integer width,
   `precision` its number of fraction digits, `cell` its position in the projection.
   */
  datatype KeyColumn = KeyColumn(
    kind: Kind, sourceText: bool, unsigned: bool, bits: nat, maximumLength: nat, precision: nat, cell: nat,
    direction: Direction)

  /** Calendar arithmetic and the server's temporal ranges, which this model does not look into. */
  datatype Calendar = Calendar(
    date: Bytes -> Option<int>, seconds: Bytes -> Option<int>,
    dateRange: (int, int), datetimeRange: (int, int), timestampRange: (int, int))

  const MAX_CURSOR_RUNES := 3072
  const MAX_CURSOR_BYTES := 3072

  /** What validateKeysetColumnType demands of a column. */
  predicate SupportedColumn(column: KeyColumn) {
    && (column.sourceText ==> column.kind == StringKind)
    && (column.kind == IntegerKind ==> column.bits == 8 || column.bits == 16 || column.bits == 24 || column.bits == 32 || column.bits == 64)
    && (column.kind == StringKind && !column.sourceText ==> column.maximumLength <= MAX_CURSOR_RUNES)
    && (column.kind == BytesKind ==> column.maximumLength <= MAX_CURSOR_BYTES)
    && (column.kind == DatetimeKind || column.kind == TimestampKind ==> column.precision <= 6)
  }

  datatype CursorValue = CursorValue(kind: Kind, value: Bytes)

  /** A bound parameter, and equally the key value a cell stands for. */
  datatype Bound = IntBound(number: int) | TextBound(text: Bytes) | BlobBound(blob: Bytes)

  // -------------------------------------------------------------------- text

  predicate ValidUtf8(value: Bytes) {
    if value == [] then true
    else if value[0] < 0x80 then ValidUtf8(value[1..])
    else RuneWidth(value) > 1 && ValidUtf8(value[RuneWidth(value)..])
  }

  function RuneCount(value: Bytes): nat {
    if value == [] then 0
    else if value[0] < 0x80 then 1 + RuneCount(value[1..])
    else 1 + RuneCount(value[RuneWidth(value)..])
  }

  function Chars(b: Bytes): (s: string)
    ensures |s| == |b|
  {
    seq(|b|, i requires 0 <= i < |b| => b[i] as char)
  }

  lemma CharsOfAscii(s: string)
    requires AllDigits(s)
    ensures Chars(Ascii(s)) == s
  {
    hide AllDigits;
    forall i | 0 <= i < |s| ensures Chars(Ascii(s))[i] == s[i] {
      DigitInRange(s, i);
    }
  }

  lemma DigitInRange(s: string, i: nat)
    requires AllDigits(s) && i < |s|
    ensures (s[i] as int % 256) as char == s[i]
  {
  }

  lemma AsciiOfChars(b: Bytes)
    ensures Ascii(Chars(b)) == b
  {
  }

  predicate IsNegative(text: Bytes) {
    text != [] && text[0] == 45
  }

  function Unsigned(text: Bytes): Bytes {
    if IsNegative(text) then text[1..] else text
  }

  /** An optional minus and digits, without a superfluous zero or sign. */
  predicate CanonicalInteger(text: Bytes) {
    var digits := Chars(Unsigned(text));
    && digits != "" && AllDigits(digits) && |text| <= 20
    && (digits[0] == '0' ==> |digits| == 1 && !IsNegative(text))
  }

  /** strconv.ParseInt without its range check: an optional sign and at least one digit. */
  function ParsedInteger(text: Bytes): Option<int> {
    var unsigned := if text != [] && (text[0] == 45 || text[0] == 43) then text[1..] else text;
    var digits := Chars(unsigned);
    if digits == "" || !AllDigits(digits) then None
    else
      var magnitude: int := NatOf(digits);
      Some(if IsNegative(text) then -magnitude else magnitude)
  }

  function Power2(n: nat): (p: nat)
    ensures p >= 1
  {
    if n == 0 then 1 else 2 * Power2(n - 1)
  }

  predicate InIntegerRange(number: int, unsigned: bool, bits: nat) {
    if unsigned then 0 <= number < Power2(bits)
    else bits >= 1 && 0 <= number + Power2(bits - 1) && number < Power2(bits - 1)
  }

  // ---------------------------------------------------------- temporal values

  predicate InRange(instant: int, range: (int, int)) {
    range.0 <= instant <= range.1
  }

  function ParseDate(calendar: Calendar, value: Bytes): Option<int> {
    if |value| == 10 then calendar.date(value) else None
  }

  const NANOSECONDS := 1_000_000_000

  /**
   parsePortableDateTime: nineteen characters with the separator at position ten, then an optional
   point and one to nine digits. The result is the instant in nanoseconds and the number of fraction digits.
   */
  function ParseDateTime(calendar: Calendar, value: Bytes, separator: byte, utcSuffix: bool): Option<(int, nat)> {
    if utcSuffix && (value == [] || value[|value| - 1] != 90) then None
    else
      var text := if utcSuffix then value[..|value| - 1] else value;
      if |text| < 19 || |text| > 29 || text[10] != separator then None
      else
        var seconds := calendar.seconds(text[..10] + [32] + text[11..19]);
        if seconds == None then None
        else if |text| == 19 then Some((seconds.value * NANOSECONDS, 0))
        else
          var fraction := Chars(text[20..]);
          if text[19] != 46 || fraction == "" || !AllDigits(fraction) then None
          else Some((seconds.value * NANOSECONDS + Shift(NatOf(fraction), 9 - |fraction|), |fraction|))
  }

  /** The cell's wall-clock reading has the column's precision and lies in the range. */
  predicate TemporalInRange(parsed: Option<(int, nat)>, precision: nat, range: (int, int)) {
    parsed.Some? && parsed.value.1 == precision && precision <= 6 && InRange(parsed.value.0, range)
  }

  // ------------------------------------------------------------- cell to text

  /** The checks validateKeysetRow makes on a key cell. */
  predicate ValidKeyCell(calendar: Calendar, raw: Bytes, column: KeyColumn) {
    if column.sourceText then ValidUtf8(raw)
    else
      match column.kind
      case IntegerKind => CanonicalInteger(raw)
      case StringKind => ValidUtf8(raw)
      case BytesKind => true
      case DateKind =>
        var parsed := ParseDate(calendar, raw);
        parsed.Some? && InRange(parsed.value, calendar.dateRange)
      case DatetimeKind =>
        TemporalInRange(ParseDateTime(calendar, raw, 32, false), column.precision, calendar.datetimeRange)
      case TimestampKind =>
        TemporalInRange(ParseDateTime(calendar, raw, 32, false), column.precision, calendar.timestampRange)
  }

  /** What the column's declared type guarantees of its cells. */
  predicate StoredInColumn(raw: Bytes, column: KeyColumn) {
    if column.sourceText then RuneCount(raw) <= MAX_CURSOR_RUNES
    else
      match column.kind
      case IntegerKind =>
        ParsedInteger(raw).Some? && InIntegerRange(ParsedInteger(raw).value, column.unsigned, column.bits)
      case StringKind => RuneCount(raw) <= column.maximumLength
      case BytesKind => |raw| <= column.maximumLength
      case _ => true
  }

  /** mysqlKeysetCursorText, and base64 for binary keys. */
  function CursorText(calendar: Calendar, raw: Bytes, kind: Kind): Option<Bytes> {
    match kind
    case BytesKind => Some(Base64Text(raw))
    case DateKind => if ParseDate(calendar, raw).Some? then Some(raw) else None
    case DatetimeKind => if ParseDateTime(calendar, raw, 32, false).Some? then Some(raw) else None
    case TimestampKind =>
      if ParseDateTime(calendar, raw, 32, false) == None then None
      else
        var result := raw[..10] + [84] + raw[11..] + [90];
        if ParseDateTime(calendar, result, 84, true).Some? then Some(result) else None
    case _ => Some(raw)
  }

  // ------------------------------------------------------------ text to bound

  function Base64Value(c: byte): (r: Option<nat>)
    ensures r.Some? ==> r.value < 64
  {
    if 65 <= c <= 90 then Some(c - 65)
    else if 97 <= c <= 122 then Some(c - 71)
    else if 48 <= c <= 57 then Some(c + 4)
    else if c == 43 then Some(62)
    else if c == 47 then Some(63)
    else None
  }

  function Byte1(w: nat, x: nat): (a: byte)
    requires w < 64 && x < 64
  {
    w * 4 + x / 16
  }

  function Byte2(x: nat, y: nat): (b: byte)
    requires x < 64 && y < 64
  {
    x % 16 * 16 + y / 4
  }

  function Byte3(y: nat, z: nat): (c: byte)
    requires y < 64 && z < 64
  {
    y % 4 * 64 + z
  }

  /** Strict standard base64: whole groups, padding only at the end, no stray bits. */
  function DecodeBase64(text: Bytes): Option<Bytes> {
    if text == [] then Some([])
    else if |text| < 4 then None
    else
      var w, x, y, z := Base64Value(text[0]), Base64Value(text[1]), Base64Value(text[2]), Base64Value(text[3]);
      if w == None || x == None then None
      else if |text| == 4 && text[2] == 61 && text[3] == 61 then
        if Byte2(x.value, 0) == 0 then Some([Byte1(w.value, x.value)]) else None
      else if y == None then None
      else if |text| == 4 && text[3] == 61 then
        if Byte3(y.value, 0) == 0 then Some([Byte1(w.value, x.value), Byte2(x.value, y.value)]) else None
      else if z == None || DecodeBase64(text[4..]) == None then None
      else Some([Byte1(w.value, x.value), Byte2(x.value, y.value), Byte3(y.value, z.value)]
                + DecodeBase64(text[4..]).value)
  }

  /** validateKeysetCursorValue: what a request's cursor must satisfy before any column is known. */
  predicate AcceptableCursor(calendar: Calendar, value: CursorValue) {
    match value.kind
    case IntegerKind =>
      && CanonicalInteger(value.value) && ParsedInteger(value.value).Some?
      && (if IsNegative(value.value) then InIntegerRange(ParsedInteger(value.value).value, false, 64)
          else InIntegerRange(ParsedInteger(value.value).value, true, 64))
    case StringKind => ValidUtf8(value.value) && RuneCount(value.value) <= MAX_CURSOR_RUNES
    case BytesKind => DecodeBase64(value.value).Some? && |DecodeBase64(value.value).value| <= MAX_CURSOR_BYTES
    case DateKind => ParseDate(calendar, value.value).Some?
    case DatetimeKind => ParseDateTime(calendar, value.value, 32, false).Some?
    case TimestampKind => ParseDateTime(calendar, value.value, 84, true).Some?
  }

  /** bindKeysetCursor, preceded by the check that the cursor's type is the column's. */
  function BindCursor(calendar: Calendar, value: CursorValue, column: KeyColumn): Option<Bound> {
    if value.kind != column.kind then None
    else if column.sourceText then
      if ValidUtf8(value.value) && RuneCount(value.value) <= MAX_CURSOR_RUNES then Some(TextBound(value.value)) else None
    else
      match value.kind
      case IntegerKind =>
        var parsed := ParsedInteger(value.value);
        if parsed.Some? && InIntegerRange(parsed.value, column.unsigned, column.bits)
           && (column.unsigned ==> value.value[0] != 45 && value.value[0] != 43)
        then Some(IntBound(parsed.value)) else None
      case StringKind =>
        if ValidUtf8(value.value) && RuneCount(value.value) <= column.maximumLength then Some(TextBound(value.value))
        else None
      case BytesKind =>
        var decoded := DecodeBase64(value.value);
        if decoded.Some? && |decoded.value| <= column.maximumLength then Some(BlobBound(decoded.value)) else None
      case DateKind =>
        var parsed := ParseDate(calendar, value.value);
        if parsed.Some? && InRange(parsed.value, calendar.dateRange) then Some(TextBound(value.value)) else None
      case DatetimeKind =>
        if TemporalInRange(ParseDateTime(calendar, value.value, 32, false), column.precision, calendar.datetimeRange)
        then Some(TextBound(value.value)) else None
      case TimestampKind =>
        if TemporalInRange(ParseDateTime(calendar, value.value, 84, true), column.precision, calendar.timestampRange)
           && |value.value| >= 12
        then Some(TextBound(value.value[..10] + [32] + value.value[11..|value.value| - 1])) else None
  }

  /** The key value a stored cell stands for. */
  function KeyValue(raw: Bytes, column: KeyColumn): Bound {
    if column.sourceText then TextBound(raw)
    else
      match column.kind
      case IntegerKind => IntBound(if ParsedInteger(raw).Some? then ParsedInteger(raw).value else 0)
      case BytesKind => BlobBound(raw)
      case _ => TextBound(raw)
  }

  // -------------------------------------------------------------- round trips

  lemma Base64CharacterValue(index: nat)
    requires index < 64
    ensures Base64Value(Base64Character(index)) == Some(index)
  {
  }

  lemma SextetBounds(a: byte, b: byte, c: byte)
    ensures Sextet1(a) < 64 && Sextet2(a, b) < 64 && Sextet3(b, c) < 64 && Sextet4(c) < 64
  {
  }

  /** The bytes a group of sextets came from. */
  lemma SextetsGiveBytes(a: byte, b: byte, c: byte)
    ensures Byte1(Sextet1(a), Sextet2(a, b)) == a
    ensures Byte2(Sextet2(a, b), Sextet3(b, c)) == b
    ensures Byte3(Sextet3(b, c), Sextet4(c)) == c
    ensures Byte2(Sextet2(a, 0), 0) == 0 && Byte3(Sextet3(b, 0), 0) == 0
  {
  }

  /** Decoding inverts encoding, one group at a time. */
  lemma Base64Group(a: byte, b: byte, c: byte, rest: Bytes)
    requires DecodeBase64(Base64Text(rest)) == Some(rest)
    ensures DecodeBase64(Base64Text([a, b, c] + rest)) == Some([a, b, c] + rest)
  {
    hide Base64Character, Base64Value, Sextet1, Sextet2, Sextet3, Sextet4, Byte1, Byte2, Byte3;
    SextetsGiveBytes(a, b, c);
    Base64CharacterValue(Sextet1(a));
    Base64CharacterValue(Sextet2(a, b));
    Base64CharacterValue(Sextet3(b, c));
    Base64CharacterValue(Sextet4(c));
    var raw := [a, b, c] + rest;
    assert raw[3..] == rest;
    assert Base64Text(raw)[4..] == Base64Text(rest);
    PaddingIsNoCharacter(Sextet3(b, c));
    PaddingIsNoCharacter(Sextet4(c));
  }

  lemma PaddingIsNoCharacter(index: nat)
    requires index < 64
    ensures Base64Character(index) != 61
  {
  }

  lemma DecodeTwoPads(text: Bytes, w: nat, x: nat)
    requires |text| == 4 && text[2] == 61 && text[3] == 61
    requires Base64Value(text[0]) == Some(w) && Base64Value(text[1]) == Some(x)
    requires w < 64 && x < 64 && Byte2(x, 0) == 0
    ensures DecodeBase64(text) == Some([Byte1(w, x)])
  {
    hide Base64Value, Byte1, Byte2;
  }

  lemma EncodeOne(a: byte)
    ensures Base64Text([a]) == [Base64Character(Sextet1(a)), Base64Character(Sextet2(a, 0)), 61, 61]
  {
    hide Base64Character, Sextet1, Sextet2;
  }

  lemma Base64One(a: byte)
    ensures DecodeBase64(Base64Text([a])) == Some([a])
  {
    hide *;
    SextetBounds(a, 0, 0);
    SextetsGiveBytes(a, 0, 0);
    EncodeOne(a);
    Base64CharacterValue(Sextet1(a));
    Base64CharacterValue(Sextet2(a, 0));
    DecodeTwoPads(Base64Text([a]), Sextet1(a), Sextet2(a, 0));
  }

  lemma Base64Two(a: byte, b: byte)
    ensures DecodeBase64(Base64Text([a, b])) == Some([a, b])
  {
    hide Base64Character, Base64Value, Sextet1, Sextet2, Sextet3, Byte1, Byte2, Byte3;
    SextetsGiveBytes(a, b, 0);
    Base64CharacterValue(Sextet1(a));
    Base64CharacterValue(Sextet2(a, b));
    Base64CharacterValue(Sextet3(b, 0));
    PaddingIsNoCharacter(Sextet3(b, 0));
    assert Base64Text([a, b])
        == [Base64Character(Sextet1(a)), Base64Character(Sextet2(a, b)), Base64Character(Sextet3(b, 0)), 61];
    hide Base64Text;
  }

  lemma Base64None()
    ensures DecodeBase64(Base64Text([])) == Some([])
  {
  }

  lemma {:induction false} Base64RoundTrip(raw: Bytes)
    ensures DecodeBase64(Base64Text(raw)) == Some(raw)
  {
    hide DecodeBase64, Base64Text;
    if raw == [] {
      Base64None();
    } else if |raw| == 1 {
      assert raw == [raw[0]];
      Base64One(raw[0]);
    } else if |raw| == 2 {
      assert raw == [raw[0], raw[1]];
      Base64Two(raw[0], raw[1]);
    } else {
      Base64RoundTrip(raw[3..]);
      Base64Group(raw[0], raw[1], raw[2], raw[3..]);
      assert raw == [raw[0], raw[1], raw[2]] + raw[3..];
    }
  }

  /** A timestamp cell and its cursor text read as the same instant with the same fraction digits. */
  lemma TimestampText(calendar: Calendar, raw: Bytes)
    requires ParseDateTime(calendar, raw, 32, false).Some?
    ensures |raw| >= 19 && raw[10] == 32
    ensures var text := raw[..10] + [84] + raw[11..] + [90];
            ParseDateTime(calendar, text, 84, true) == ParseDateTime(calendar, raw, 32, false)
  {
    var text := raw[..10] + [84] + raw[11..] + [90];
    var inner := text[..|text| - 1];
    assert inner == raw[..10] + [84] + raw[11..];
    assert inner[..10] == raw[..10] && inner[11..19] == raw[11..19];
    if |raw| > 19 {
      assert inner[20..] == raw[20..];
    }
  }

  lemma IntegerRoundTrip(calendar: Calendar, raw: Bytes, column: KeyColumn)
    requires SupportedColumn(column) && column.kind == IntegerKind
    requires CanonicalInteger(raw) && StoredInColumn(raw, column)
    ensures var value := CursorValue(IntegerKind, raw);
            BindCursor(calendar, value, column) == Some(KeyValue(raw, column)) && AcceptableCursor(calendar, value)
  {
    var number := ParsedInteger(raw).value;
    IntegerRanges(number, column.unsigned, column.bits);
    var digits := Chars(Unsigned(raw));
    assert digits[0] == Unsigned(raw)[0] as char;
    NatOfBound(digits);
    ShiftOrder(0, 1, |digits| - 1);
    ShiftOrder(1, 1, |digits| - 1);
    hide NatOf, Shift, InIntegerRange;
    assert IsNegative(raw) <==> number < 0;
  }

  lemma CharsOfSigned(digits: string)
    requires AllDigits(digits)
    ensures Ascii("-" + digits) == [45] + Ascii(digits)
    ensures Ascii("-" + digits)[1..] == Ascii(digits) && Chars(Ascii(digits)) == digits
  {
    var text, signed := Ascii(digits), Ascii("-" + digits);
    assert signed[0] == 45;
    forall i | 0 <= i < |digits| ensures signed[1 + i] == text[i] {
      assert ("-" + digits)[1 + i] == digits[i];
    }
    CharsOfAscii(digits);
    hide Ascii, Chars, AllDigits;
  }

  lemma NoSign(digits: string)
    requires digits != "" && AllDigits(digits)
    ensures Ascii(digits) != [] && Ascii(digits)[0] != 45 && Ascii(digits)[0] != 43
  {
    CharsOfAscii(digits);
    assert IsDigit(digits[0]) && Chars(Ascii(digits))[0] == digits[0];
  }

  lemma ParsedDigits(digits: string)
    requires digits != "" && AllDigits(digits)
    ensures ParsedInteger(Ascii(digits)) == Some(NatOf(digits)) && !IsNegative(Ascii(digits))
  {
    NoSign(digits);
    CharsOfAscii(digits);
    hide Ascii, Chars, AllDigits, NatOf;
  }

  lemma ParsedSigned(digits: string)
    requires digits != "" && AllDigits(digits)
    ensures ParsedInteger(Ascii("-" + digits)) == Some(-(NatOf(digits) as int)) && IsNegative(Ascii("-" + digits))
  {
    CharsOfSigned(digits);
    var text := Ascii("-" + digits);
    hide *;
    SignedParses(text, digits);
  }

  lemma SignedParses(text: Bytes, digits: string)
    requires text != [] && text[0] == 45 && Chars(text[1..]) == digits && digits != "" && AllDigits(digits)
    ensures ParsedInteger(text) == Some(-(NatOf(digits) as int)) && IsNegative(text)
  {
    hide Chars, AllDigits, NatOf;
  }

  /** An integer cell reads as the integer whose text it is. */
  lemma IntegerTextReads(n: int)
    ensures ParsedInteger(Ascii(IntegerText(n))) == Some(n)
    ensures IsNegative(Ascii(IntegerText(n))) <==> n < 0
  {
    hide ParsedInteger, IsNegative, Ascii, Decimal, NatOf;
    if n < 0 {
      DecimalDenotes(-n);
      ParsedSigned(Decimal(-n));
    } else {
      DecimalDenotes(n);
      ParsedDigits(Decimal(n));
    }
  }

  /** And a canonical cell is the text of the integer it reads as. */
  lemma CanonicalIsText(raw: Bytes)
    requires CanonicalInteger(raw)
    ensures ParsedInteger(raw).Some? && raw == Ascii(IntegerText(ParsedInteger(raw).value))
  {
    var digits := Chars(Unsigned(raw));
    CanonicalIsDecimal(digits);
    AsciiOfChars(Unsigned(raw));
    assert digits[0] == Unsigned(raw)[0] as char;
    if IsNegative(raw) {
      CharsOfSigned(digits);
      assert raw == [45] + Unsigned(raw);
    }
  }

  /** Binding a cursor's integer gives the integer that its text says. */
  lemma IntegerIsBound(calendar: Calendar, n: int, column: KeyColumn)
    requires column.kind == IntegerKind && !column.sourceText && InIntegerRange(n, column.unsigned, column.bits)
    ensures BindCursor(calendar, CursorValue(IntegerKind, Ascii(IntegerText(n))), column) == Some(IntBound(n))
    ensures KeyValue(Ascii(IntegerText(n)), column) == IntBound(n)
  {
    hide Power2, Ascii, IntegerText;
    IntegerTextReads(n);
    UnsignedHasNoPlus(n);
  }

  lemma UnsignedHasNoPlus(n: int)
    ensures Ascii(IntegerText(n)) != [] && Ascii(IntegerText(n))[0] != 43
  {
    if n >= 0 {
      NoSign(Decimal(n));
    }
  }

  /** No two cells that the collector accepts stand for one key value. */
  lemma KeysNameCells(calendar: Calendar, a: Bytes, b: Bytes, column: KeyColumn)
    requires SupportedColumn(column) && ValidKeyCell(calendar, a, column) && ValidKeyCell(calendar, b, column)
    requires KeyValue(a, column) == KeyValue(b, column)
    ensures a == b
  {
    hide CanonicalInteger, ParsedInteger, ParseDateTime, ParseDate, ValidUtf8, Ascii, IntegerText;
    if column.kind == IntegerKind {
      CanonicalIsText(a);
      CanonicalIsText(b);
    }
  }

  lemma TimestampRoundTrip(calendar: Calendar, raw: Bytes, column: KeyColumn)
    requires column.kind == TimestampKind && !column.sourceText && ValidKeyCell(calendar, raw, column)
    ensures CursorText(calendar, raw, TimestampKind).Some?
    ensures var value := CursorValue(TimestampKind, CursorText(calendar, raw, TimestampKind).value);
            BindCursor(calendar, value, column) == Some(KeyValue(raw, column)) && AcceptableCursor(calendar, value)
  {
    hide ParseDateTime;
    TimestampText(calendar, raw);
    var text := raw[..10] + [84] + raw[11..] + [90];
    assert text[..10] + [32] + text[11..|text| - 1] == raw;
  }

  /** Binding the cursor text of a stored cell gives back the key value of that cell. */
  lemma CursorRoundTrip(calendar: Calendar, raw: Bytes, column: KeyColumn)
    requires SupportedColumn(column) && ValidKeyCell(calendar, raw, column) && StoredInColumn(raw, column)
    ensures CursorText(calendar, raw, column.kind).Some?
    ensures var value := CursorValue(column.kind, CursorText(calendar, raw, column.kind).value);
            && BindCursor(calendar, value, column) == Some(KeyValue(raw, column))
            && AcceptableCursor(calendar, value)
  {
    hide ParseDateTime, ValidUtf8, RuneCount, DecodeBase64, Base64Text, InIntegerRange, CanonicalInteger;
    if column.kind == IntegerKind {
      IntegerRoundTrip(calendar, raw, column);
    } else if column.kind == TimestampKind {
      TimestampRoundTrip(calendar, raw, column);
    } else if column.kind == BytesKind {
      Base64RoundTrip(raw);
    }
  }

  lemma {:induction false} Power2Monotone(a: nat, b: nat)
    requires a <= b
    ensures Power2(a) <= Power2(b)
    decreases b - a
  {
    if a < b {
      Power2Monotone(a + 1, b);
    }
  }

  /** Every supported column's integers fit the portable 64-bit ranges. */
  lemma IntegerRanges(number: int, unsigned: bool, bits: nat)
    requires bits <= 64 && InIntegerRange(number, unsigned, bits)
    ensures if number < 0 then InIntegerRange(number, false, 64) else InIntegerRange(number, true, 64)
  {
    Power2Monotone(bits, 64);
    if bits >= 1 {
      Power2Monotone(bits - 1, 63);
      Power2Monotone(bits - 1, 64);
    }
  }
}
