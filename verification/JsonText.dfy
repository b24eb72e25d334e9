/**
 The bytes encoding/json writes for strings and rows, and the source's size functions, which measure
 them without writing them (internal/adapters/mysql8/mysql8.go).
 */
module JsonText {
  import opened Wrappers
  import opened Digits

  type byte = b: int | 0 <= b < 256

  type Bytes = seq<byte>

  function Ascii(s: string): (b: Bytes)
    ensures |b| == |s|
  {
    seq(|s|, i requires 0 <= i < |s| => s[i] as int % 256)
  }

  // ------------------------------------------------------------------- UTF-8

  predicate Continues(value: Bytes, index: nat, low: int, high: int) {
    index < |value| && low <= value[index] <= high
  }

  /** The width of the encoded rune a non-ASCII byte starts; 1 when it starts none (RFC 3629). */
  function RuneWidth(value: Bytes): (width: nat)
    requires value != [] && value[0] >= 0x80
    ensures 1 <= width <= |value| && width <= 4
  {
    var first := value[0];
    if 0xC2 <= first <= 0xDF && Continues(value, 1, 0x80, 0xBF) then 2
    else if 0xE0 <= first <= 0xEF
         && Continues(value, 1, if first == 0xE0 then 0xA0 else 0x80, if first == 0xED then 0x9F else 0xBF)
         && Continues(value, 2, 0x80, 0xBF) then 3
    else if 0xF0 <= first <= 0xF4
         && Continues(value, 1, if first == 0xF0 then 0x90 else 0x80, if first == 0xF4 then 0x8F else 0xBF)
         && Continues(value, 2, 0x80, 0xBF) && Continues(value, 3, 0x80, 0xBF) then 4
    else 1
  }

  /** The encoding of a Unicode scalar value (section 3 of RFC 3629). */
  function Utf8(c: nat): (b: Bytes)
    requires ScalarValue(c)
  {
    var second: nat := c / 64;
    var third: nat := second / 64;
    var fourth: nat := third / 64;
    if c < 0x80 then [c]
    else if c < 0x800 then [0xC0 + second, Continuation(c)]
    else if c < 0x10000 then [0xE0 + third, Continuation(second), Continuation(c)]
    else [0xF0 + fourth, Continuation(third), Continuation(second), Continuation(c)]
  }

  /** The byte that carries the last six bits of c. */
  function Continuation(c: nat): (b: byte)
    ensures 0x80 <= b < 0xC0
  {
    0x80 + c % 64
  }

  predicate ScalarValue(c: nat) {
    c < 0x11_0000 && !(0xD800 <= c < 0xE000)
  }

  /** The rune at the start of a character's encoding is as wide as the encoding. */
  lemma RuneOfCharacter(c: nat, rest: Bytes)
    requires ScalarValue(c) && c >= 0x80
    ensures Utf8(c)[0] >= 0x80 && RuneWidth(Utf8(c) + rest) == |Utf8(c)|
  {
    var value := Utf8(c) + rest;
    assert forall i :: 0 <= i < |Utf8(c)| ==> value[i] == Utf8(c)[i];
  }

  /** And a rune of more than one byte is some character's encoding. */
  lemma RuneIsCharacter(value: Bytes) returns (c: nat)
    requires value != [] && value[0] >= 0x80 && RuneWidth(value) > 1
    ensures ScalarValue(c) && c >= 0x80 && value[..RuneWidth(value)] == Utf8(c)
  {
    hide ScalarValue, Utf8;
    if RuneWidth(value) == 2 {
      c := TwoBytes(value[0], value[1]);
    } else if RuneWidth(value) == 3 {
      c := ThreeBytes(value[0], value[1], value[2]);
    } else {
      c := FourBytes(value[0], value[1], value[2], value[3]);
    }
  }

  lemma TwoBytes(first: int, second: int) returns (c: nat)
    requires 0xC2 <= first <= 0xDF && 0x80 <= second <= 0xBF
    ensures ScalarValue(c) && c >= 0x80 && Utf8(c) == [first, second]
  {
    c := (first - 0xC0) * 64 + (second - 0x80);
    assert c / 64 == first - 0xC0 && c % 64 == second - 0x80;
  }

  lemma ThreeBytes(first: int, second: int, third: int) returns (c: nat)
    requires 0xE0 <= first <= 0xEF && (if first == 0xE0 then 0xA0 else 0x80) <= second <= (if first == 0xED then 0x9F else 0xBF)
    requires 0x80 <= third <= 0xBF
    ensures ScalarValue(c) && c >= 0x80 && Utf8(c) == [first, second, third]
  {
    var high := (first - 0xE0) * 64 + (second - 0x80);
    c := high * 64 + (third - 0x80);
    assert c / 64 == high && c % 64 == third - 0x80;
    assert high / 64 == first - 0xE0 && high % 64 == second - 0x80;
  }

  lemma FourBytes(first: int, second: int, third: int, fourth: int) returns (c: nat)
    requires 0xF0 <= first <= 0xF4 && (if first == 0xF0 then 0x90 else 0x80) <= second <= (if first == 0xF4 then 0x8F else 0xBF)
    requires 0x80 <= third <= 0xBF && 0x80 <= fourth <= 0xBF
    ensures ScalarValue(c) && c >= 0x80 && Utf8(c) == [first, second, third, fourth]
  {
    var top := (first - 0xF0) * 64 + (second - 0x80);
    var high := top * 64 + (third - 0x80);
    c := high * 64 + (fourth - 0x80);
    assert c / 64 == high && c % 64 == fourth - 0x80;
    assert high / 64 == top && high % 64 == third - 0x80;
    assert top / 64 == first - 0xF0 && top % 64 == second - 0x80;
  }

  /** U+2028 or U+2029. */
  predicate LineSeparator(value: Bytes) {
    |value| >= 3 && value[0] == 0xE2 && value[1] == 0x80 && (value[2] == 0xA8 || value[2] == 0xA9)
  }

  // ------------------------------------------------------------ JSON strings

  function HexDigit(d: nat): byte
    requires d < 16
  {
    if d < 10 then 48 + d else 87 + d
  }

  function UnicodeEscape(code: nat): (e: Bytes)
    requires code < 0x10000
    ensures |e| == 6
  {
    [92, 117, HexDigit(code / 4096), HexDigit(code / 256 % 16), HexDigit(code / 16 % 16), HexDigit(code % 16)]
  }

  /** The short escape of a character, if it has one. */
  function ShortEscape(character: byte): Option<byte> {
    match character
    case 8 => Some(98)
    case 9 => Some(116)
    case 10 => Some(110)
    case 12 => Some(102)
    case 13 => Some(114)
    case 34 => Some(34)
    case 92 => Some(92)
    case _ => None
  }

  /** What the encoder writes for the first character, and how many bytes that character has. */
  function EncodedCharacter(value: Bytes): (r: (Bytes, nat))
    requires value != []
    ensures 1 <= r.1 <= |value|
  {
    var character := value[0];
    if character < 0x80 then
      var written :=
        if ShortEscape(character).Some? then [92, ShortEscape(character).value]
        else if character == 38 || character == 60 || character == 62 || character < 0x20 then UnicodeEscape(character)
        else [character];
      (written, 1)
    else if RuneWidth(value) == 1 then (UnicodeEscape(0xFFFD), 1)
    else if LineSeparator(value) then (UnicodeEscape(if value[2] == 0xA8 then 0x2028 else 0x2029), 3)
    else (value[..RuneWidth(value)], RuneWidth(value))
  }

  function EncodedCharacters(value: Bytes): Bytes {
    if value == [] then []
    else
      var (written, width) := EncodedCharacter(value);
      written + EncodedCharacters(value[width..])
  }

  function JsonString(value: Bytes): Bytes {
    [34] + EncodedCharacters(value) + [34]
  }

  /** Add two sizes below a maximum. */
  function AddEncodedSize(current: int, increment: int, maxBytes: int): (r: Option<int>)
    ensures r.Some? <==> current >= 0 && increment >= 0 && current + increment <= maxBytes
    ensures r.Some? ==> r.value == current + increment
  {
    if current < 0 || increment < 0 || current > maxBytes || increment > maxBytes - current then None
    else Some(current + increment)
  }

  /** How far the first character of value[index..] advances and how many bytes it writes. */
  lemma CharacterAt(value: Bytes, index: nat)
    requires index < |value|
    ensures var rest := value[index..];
            var width := EncodedCharacter(rest).1;
            && rest[0] == value[index] && 1 <= width && index + width <= |value| && rest[width..] == value[index + width..]
            && |EncodedCharacters(rest)| == |EncodedCharacter(rest).0| + |EncodedCharacters(value[index + width..])|
    ensures var rest := value[index..];
            |EncodedCharacter(rest).0| ==
              if value[index] < 0x80 then
                if ShortEscape(value[index]).Some? then 2
                else if value[index] == 38 || value[index] == 60 || value[index] == 62 || value[index] < 0x20 then 6
                else 1
              else if RuneWidth(rest) == 1 || LineSeparator(rest) then 6
              else RuneWidth(rest)
    ensures EncodedCharacter(value[index..]).1 == if value[index] < 0x80 then 1 else RuneWidth(value[index..])
  {
    var rest := value[index..];
    var width := EncodedCharacter(rest).1;
    assert rest[width..] == value[index + width..];
    hide EncodedCharacters;
    if value[index] >= 0x80 && LineSeparator(rest) {
      assert RuneWidth(rest) == 3;
    }
  }

  lemma StringSize(value: Bytes)
    ensures |JsonString(value)| == 2 + |EncodedCharacters(value)| && value[0..] == value
  {
    hide EncodedCharacters;
  }

  method EncodedJsonStringSize(value: Bytes, maxBytes: int) returns (r: Option<int>)
    ensures r == if |JsonString(value)| <= maxBytes then Some(|JsonString(value)|) else None
  {
    hide *;
    StringSize(value);
    var size := 2;
    if size > maxBytes {
      return None;
    }
    var index := 0;
    while index < |value|
      invariant index <= |value| && 2 <= size <= maxBytes
      invariant size + |EncodedCharacters(value[index..])| == 2 + |EncodedCharacters(value)|
    {
      CharacterAt(value, index);
      var width, encodedBytes := 1, 1;
      var character := value[index];
      if character < 0x80 {
        if ShortEscape(character).Some? {
          encodedBytes := 2;
        } else if character == 38 || character == 60 || character == 62 || character < 0x20 {
          encodedBytes := 6;
        }
      } else {
        width := RuneWidth(value[index..]);
        encodedBytes := if width == 1 || LineSeparator(value[index..]) then 6 else width;
      }
      var added := AddEncodedSize(size, encodedBytes, maxBytes);
      AddedSize(size, encodedBytes, maxBytes);
      if added == None {
        return None;
      }
      size := added.value;
      index := index + width;
    }
    NothingToEncode(value[index..]);
    r := Some(size);
  }

  lemma NothingToEncode(value: Bytes)
    requires value == []
    ensures EncodedCharacters(value) == []
  {
  }

  // ------------------------------------------------------------------ base64

  /** The standard alphabet. */
  function Base64Character(index: nat): (c: byte)
    requires index < 64
    ensures 43 <= c <= 122 && c != 60 && c != 62 && c != 92 && c != 61
  {
    if index < 26 then 65 + index
    else if index < 52 then 71 + index
    else if index < 62 then index - 4
    else if index == 62 then 43 else 47
  }

  /** The four six-bit groups of three bytes. */
  function Sextet1(a: byte): (x: nat)
    ensures x < 64
  {
    a / 4
  }

  function Sextet2(a: byte, b: byte): (x: nat)
    ensures x < 64
  {
    a % 4 * 16 + b / 16
  }

  function Sextet3(b: byte, c: byte): (x: nat)
    ensures x < 64
  {
    b % 16 * 4 + c / 64
  }

  function Sextet4(c: byte): (x: nat)
    ensures x < 64
  {
    c % 64
  }

  /** JSON writes this character as it is. */
  predicate UnescapedByte(b: byte) {
    43 <= b <= 122 && b != 60 && b != 62 && b != 92
  }

  predicate Unescaped(value: Bytes) {
    forall i :: 0 <= i < |value| ==> UnescapedByte(value[i])
  }

  lemma JoinedUnescaped(group: Bytes, rest: Bytes)
    requires Unescaped(group) && Unescaped(rest)
    ensures Unescaped(group + rest)
  {
    hide UnescapedByte;
  }

  function OneInGroup(a: byte): (g: Bytes)
    ensures |g| == 4 && Unescaped(g)
  {
    [Base64Character(Sextet1(a)), Base64Character(Sextet2(a, 0)), 61, 61]
  }

  function TwoInGroup(a: byte, b: byte): (g: Bytes)
    ensures |g| == 4 && Unescaped(g)
  {
    [Base64Character(Sextet1(a)), Base64Character(Sextet2(a, b)), Base64Character(Sextet3(b, 0)), 61]
  }

  function WholeGroup(a: byte, b: byte, c: byte): (g: Bytes)
    ensures |g| == 4 && Unescaped(g)
  {
    [Base64Character(Sextet1(a)), Base64Character(Sextet2(a, b)), Base64Character(Sextet3(b, c)), Base64Character(Sextet4(c))]
  }

  /** Four characters for every three bytes or a part of them. */
  function Base64Length(n: nat): nat {
    (n + 2) / 3 * 4
  }

  lemma OneGroupMore(n: nat)
    ensures Base64Length(0) == 0 && Base64Length(1) == Base64Length(2) == 4 && Base64Length(n + 3) == 4 + Base64Length(n)
  {
  }

  /** The text of a byte string, which needs no escaping. */
  function Base64Text(raw: Bytes): (text: Bytes)
    ensures |text| == Base64Length(|raw|)
    ensures Unescaped(text)
  {
    OneGroupMore(if |raw| >= 3 then |raw| - 3 else 0);
    if raw == [] then []
    else if |raw| == 1 then OneInGroup(raw[0])
    else if |raw| == 2 then TwoInGroup(raw[0], raw[1])
    else
      var rest := Base64Text(raw[3..]);
      JoinedUnescaped(WholeGroup(raw[0], raw[1], raw[2]), rest);
      WholeGroup(raw[0], raw[1], raw[2]) + rest
  }

  lemma OneUnescaped(value: Bytes)
    requires value != [] && UnescapedByte(value[0])
    ensures EncodedCharacter(value) == ([value[0]], 1)
  {
  }

  lemma {:induction false} PlainCharacters(value: Bytes)
    requires Unescaped(value)
    ensures EncodedCharacters(value) == value
  {
    hide EncodedCharacter, UnescapedByte;
    if value != [] {
      PlainCharacters(value[1..]);
      OneUnescaped(value);
      assert value == [value[0]] + value[1..];
    }
  }

  lemma Base64StringLength(raw: Bytes)
    ensures |JsonString(Base64Text(raw))| == 2 + Base64Length(|raw|)
  {
    PlainCharacters(Base64Text(raw));
  }

  // -------------------------------------------------------------------- rows

  datatype Encoding = StringEncoding | Base64Encoding

  /** A raw cell as the driver delivers it; None is SQL NULL. */
  type RawRow = seq<Option<Bytes>>

  function MaterializedCell(raw: Option<Bytes>, encoding: Encoding): Option<Bytes> {
    match raw
    case None => None
    case Some(b) => Some(if encoding == Base64Encoding then Base64Text(b) else b)
  }

  function EncodingAt(encodings: seq<Encoding>, index: nat): Encoding {
    if index < |encodings| then encodings[index] else StringEncoding
  }

  /** The row as the result holds it. */
  function Materialized(raw: RawRow, encodings: seq<Encoding>): (row: RawRow)
    ensures |row| == |raw|
  {
    seq(|raw|, i requires 0 <= i < |raw| => MaterializedCell(raw[i], EncodingAt(encodings, i)))
  }

  function JsonCell(cell: Option<Bytes>): Bytes {
    if cell == None then Ascii("null") else JsonString(cell.value)
  }

  function JsonCells(row: RawRow): Bytes {
    if row == [] then []
    else if |row| == 1 then JsonCell(row[0])
    else JsonCells(row[..|row| - 1]) + Ascii(",") + JsonCell(row[|row| - 1])
  }

  function JsonRow(row: RawRow): (b: Bytes)
    ensures |b| >= 2
  {
    Ascii("[") + JsonCells(row) + Ascii("]")
  }

  lemma CellSize(raw: RawRow, encodings: seq<Encoding>, index: nat)
    requires |raw| == |encodings| && index < |raw|
    ensures |JsonCell(Materialized(raw, encodings)[index])| ==
              if raw[index] == None then 4
              else if encodings[index] == Base64Encoding then 2 + Base64Length(|raw[index].value|)
              else |JsonString(raw[index].value)|
  {
    hide JsonString;
    if raw[index].Some? && encodings[index] == Base64Encoding {
      Base64StringLength(raw[index].value);
    }
  }

  lemma RowSize(row: RawRow)
    ensures |JsonRow(row)| == 2 + |JsonCells(row)|
    ensures row[..|row|] == row && |JsonCells(row[..0])| == 0
  {
  }

  lemma MaterializedWidth(raw: RawRow, encodings: seq<Encoding>)
    ensures |Materialized(raw, encodings)| == |raw|
  {
  }

  /** The exact size of the row's JSON, or None when it exceeds the maximum. */
  method EncodedRowSize(raw: RawRow, encodings: seq<Encoding>, maxBytes: int) returns (r: Option<int>)
    ensures var size := |JsonRow(Materialized(raw, encodings))|;
            r == if |raw| == |encodings| && size <= maxBytes then Some(size) else None
  {
    hide *;
    ghost var row := Materialized(raw, encodings);
    MaterializedWidth(raw, encodings);
    RowSize(row);
    var size := 2;
    if |raw| != |encodings| || maxBytes < size {
      return None;
    }
    for index := 0 to |raw|
      invariant 2 <= size <= maxBytes && size == 2 + |JsonCells(row[..index])|
    {
      CellsGrow(row, index);
      CellSize(raw, encodings, index);
      if index != 0 {
        var separated := AddEncodedSize(size, 1, maxBytes);
        AddedSize(size, 1, maxBytes);
        if separated == None {
          return None;
        }
        size := separated.value;
      }
      var valueBytes := Some(4);
      if raw[index].Some? {
        if encodings[index] == Base64Encoding {
          valueBytes := Some(2 + Base64Length(|raw[index].value|));
        } else {
          valueBytes := EncodedJsonStringSize(raw[index].value, maxBytes - size);
        }
      }
      if valueBytes == None {
        return None;
      }
      var added := AddEncodedSize(size, valueBytes.value, maxBytes);
      AddedSize(size, valueBytes.value, maxBytes);
      if added == None {
        return None;
      }
      size := added.value;
    }
    r := Some(size);
  }

  lemma AddedSize(current: int, increment: int, maxBytes: int)
    ensures AddEncodedSize(current, increment, maxBytes)
         == if current >= 0 && increment >= 0 && current + increment <= maxBytes then Some(current + increment) else None
  {
  }

  /** The row's JSON is at least as long as any of its prefixes, and grows by one cell at a time. */
  lemma CellsGrow(row: RawRow, index: nat)
    requires index < |row|
    ensures |JsonCells(row[..index + 1])|
         == |JsonCells(row[..index])| + (if index == 0 then 0 else 1) + |JsonCell(row[index])|
    ensures |JsonCells(row[..index + 1])| <= |JsonCells(row)|
  {
    assert row[..index + 1][..index] == row[..index];
    CellsMonotone(row, index + 1);
  }

  lemma {:induction false} CellsMonotone(row: RawRow, index: nat)
    requires index <= |row|
    ensures |JsonCells(row[..index])| <= |JsonCells(row)|
    decreases |row| - index
  {
    hide JsonCell;
    if index < |row| {
      CellsMonotone(row, index + 1);
      assert row[..index + 1][..index] == row[..index];
    } else {
      assert row[..index] == row;
    }
  }

  // ------------------------------------------------------- rows of a response

  function JoinedRows(rows: seq<RawRow>): Bytes {
    if rows == [] then []
    else if |rows| == 1 then JsonRow(rows[0])
    else JoinedRows(rows[..|rows| - 1]) + Ascii(",") + JsonRow(rows[|rows| - 1])
  }

  lemma JoinedRowsGrow(rows: seq<RawRow>)
    requires rows != []
    ensures var k := |rows| - 1;
            |JoinedRows(rows)| == |JoinedRows(rows[..k])| + (if k == 0 then 0 else 1) + |JsonRow(rows[k])|
    ensures |JsonRow(rows[|rows| - 1])| >= 2
  {
    hide JsonRow;
    RowSize(rows[|rows| - 1]);
  }

  /** The number of decimal digits, as the source counts them. */
  method DecimalDigits(value: nat) returns (digits: nat)
    ensures digits == |Decimal(value)|
  {
    if value == 0 {
      return 1;
    }
    digits := 0;
    var rest := value;
    while rest > 0
      invariant digits + (if rest == 0 then 0 else |Decimal(rest)|) == |Decimal(value)|
    {
      digits := digits + 1;
      rest := rest / 10;
    }
  }

  lemma {:induction false} DigitsMonotone(n: nat)
    ensures |Decimal(n)| <= |Decimal(n + 1)|
  {
    if n >= 10 {
      DigitsMonotone(n / 10);
      assert (n + 1) / 10 == n / 10 || (n + 1) / 10 == n / 10 + 1;
    }
  }
}
