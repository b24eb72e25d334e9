/**
 The JSON a policy is assembled into (internal/config/load.go): the text writeAssembledJSON emits and
 the sizes the loader computes before any of it is written.
 */
module PolicyJson {
  import opened Wrappers
  import opened JsonText

  // ------------------------------------------------------------------ values

  datatype Tag = Str | Int | Float | Bool

  /** A YAML scalar; `canonical` is the library's rendering of an integer or boolean, if it has one. */
  datatype Scalar = Scalar(tag: Tag, value: string, canonical: Option<string>)

  /** A tree without aliases and references; a mapping's content alternates keys and values. */
  datatype Value = Atom(scalar: Scalar) | Container(mapping: bool, content: seq<Value>)

  predicate HasText(scalar: Scalar) {
    (scalar.tag == Int || scalar.tag == Bool) ==> scalar.canonical.Some?
  }

  // -------------------------------------------------------------- characters

  function Utf8(c: char): (b: Bytes)
    ensures 1 <= |b| <= 4
  {
    JsonText.Utf8(c as int)
  }

  function Utf8Text(s: string): Bytes {
    if s == "" then [] else Utf8Text(s[..|s| - 1]) + Utf8(s[|s| - 1])
  }

  /** NEL and the two separators are escaped beside the control characters; nothing is escaped for HTML. */
  function Escaped(c: char): Bytes {
    var r := c as int;
    if r < 0x80 && ShortEscape(r).Some? then [92, ShortEscape(r).value]
    else if r < 0x20 || r == 0x85 || r == 0x2028 || r == 0x2029 then UnicodeEscape(r)
    else Utf8(c)
  }

  function EscapedText(s: string): Bytes {
    if s == "" then [] else EscapedText(s[..|s| - 1]) + Escaped(s[|s| - 1])
  }

  function Quoted(s: string): Bytes {
    [34] + EscapedText(s) + [34]
  }

  function ScalarText(scalar: Scalar): Bytes {
    match scalar.tag
    case Str => Quoted(scalar.value)
    case Float => Utf8Text(scalar.value)
    case _ => if scalar.canonical.Some? then Utf8Text(scalar.canonical.value) else []
  }

  // -------------------------------------------------------------------- JSON

  function Json(v: Value): Bytes
    decreases v, 0
  {
    match v
    case Atom(scalar) => ScalarText(scalar)
    case Container(mapping, content) =>
      if mapping then [123] + Members(content) + [125] else [91] + Elements(content) + [93]
  }

  function Elements(content: seq<Value>): Bytes
    decreases content, 1
  {
    if content == [] then []
    else
      Elements(content[..|content| - 1]) + (if |content| == 1 then [] else [44]) + Json(content[|content| - 1])
  }

  function Members(content: seq<Value>): Bytes
    decreases content, 1
  {
    if |content| < 2 then []
    else
      Members(content[..|content| - 2]) + (if |content| == 2 then [] else [44])
      + Json(content[|content| - 2]) + [58] + Json(content[|content| - 1])
  }

  function TotalSize(content: seq<Value>): nat {
    if content == [] then 0 else TotalSize(content[..|content| - 1]) + |Json(content[|content| - 1])|
  }

  lemma {:induction false} ElementsSize(content: seq<Value>)
    ensures |Elements(content)| == TotalSize(content) + (if content == [] then 0 else |content| - 1)
  {
    hide Json;
    if content != [] {
      ElementsSize(content[..|content| - 1]);
    }
  }

  lemma {:induction false} MembersSize(content: seq<Value>)
    requires |content| % 2 == 0
    ensures |Members(content)| == TotalSize(content) + (if content == [] then 0 else |content| - 1)
  {
    hide Json;
    if content != [] {
      MembersSize(content[..|content| - 2]);
      var shorter := content[..|content| - 1];
      assert shorter[..|shorter| - 1] == content[..|content| - 2];
    }
  }

  /** Braces, one separator fewer than children, and the children: what `container` adds up. */
  lemma ContainerSize(mapping: bool, content: seq<Value>)
    requires mapping ==> |content| % 2 == 0
    ensures |Json(Container(mapping, content))|
         == 2 + (if content == [] then 0 else |content| - 1) + TotalSize(content)
  {
    hide Elements, Members, TotalSize;
    if mapping {
      MembersSize(content);
    } else {
      ElementsSize(content);
    }
  }

  // -------------------------------------------------------------------- sizes

  lemma Utf8Length(c: char)
    ensures |Utf8(c)| == if c as int < 0x80 then 1 else if c as int < 0x800 then 2 else if c as int < 0x10000 then 3 else 4
  {
  }

  /** The size of a character as jsonStringSize counts it. */
  lemma EscapedLength(c: char)
    ensures |Escaped(c)| ==
              if c == '"' || c == '\\' || c == '\U{8}' || c == '\U{C}' || c == '\n' || c == '\r' || c == '\t' then 2
              else if c == '\U{85}' || c == '\U{2028}' || c == '\U{2029}' then 6
              else if c as int < 0x20 then 6
              else |Utf8(c)|
  {
    hide Utf8;
  }

  lemma TextGrows(s: string, i: nat)
    requires i < |s|
    ensures EscapedText(s[..i + 1]) == EscapedText(s[..i]) + Escaped(s[i])
    ensures Utf8Text(s[..i + 1]) == Utf8Text(s[..i]) + Utf8(s[i])
    ensures s[..0] == "" && EscapedText("") == [] && Utf8Text("") == []
  {
    hide Escaped, Utf8;
    assert s[..i + 1][..i] == s[..i];
  }

  lemma QuotedParts(s: string)
    ensures Quoted(s) == [34] + EscapedText(s) + [34] && s[..|s|] == s
    ensures EscapedText(s[..0]) == [] && Utf8Text(s[..0]) == []
  {
  }

  /** jsonStringSize. */
  method JsonStringSize(s: string) returns (size: nat)
    ensures size == |Quoted(s)|
  {
    hide *;
    QuotedParts(s);
    size := 2;
    for i := 0 to |s|
      invariant size == 2 + |EscapedText(s[..i])|
    {
      TextGrows(s, i);
      EscapedLength(s[i]);
      Utf8Length(s[i]);
      var r := s[i];
      if r == '"' || r == '\\' || r == '\U{8}' || r == '\U{C}' || r == '\n' || r == '\r' || r == '\t' {
        size := size + 2;
      } else if r == '\U{85}' || r == '\U{2028}' || r == '\U{2029}' {
        size := size + 6;
      } else if r as int < 0x20 {
        size := size + 6;
      } else {
        size := size + (if r as int < 0x80 then 1 else if r as int < 0x800 then 2 else if r as int < 0x10000 then 3 else 4);
      }
    }
  }

  // ------------------------------------------------------------------ writer

  /** bytes.Buffer. */
  class Buffer {
    var data: Bytes

    constructor ()
      ensures data == []
    {
      data := [];
    }

    method Write(bytes: Bytes)
      modifies this
      ensures data == old(data) + bytes
    {
      data := data + bytes;
    }

    /** writeJSONString. */
    method WriteJsonString(s: string)
      modifies this
      ensures data == old(data) + Quoted(s)
    {
      hide *;
      QuotedParts(s);
      ghost var before := data;
      Write([34]);
      for i := 0 to |s|
        invariant data == before + [34] + EscapedText(s[..i])
      {
        TextGrows(s, i);
        var written := EscapedBytes(s[i]);
        Write(written);
      }
      Write([34]);
    }

    /** writeAssembledJSON. */
    method WriteAssembled(v: Value)
      requires EvenMappings(v)
      modifies this
      ensures data == old(data) + Json(v)
      decreases v, 0
    {
      hide *;
      JsonParts(v);
      if v.Atom? {
        if v.scalar.tag == Str {
          WriteJsonString(v.scalar.value);
        } else {
          Write(ScalarText(v.scalar));
        }
      } else if v.mapping {
        WriteMembers(v.content);
      } else {
        WriteElements(v.content);
      }
    }

    /** The writer's mapping branch. */
    method WriteMembers(content: seq<Value>)
      requires |content| % 2 == 0 && AllEven(content)
      modifies this
      ensures data == old(data) + [123] + Members(content) + [125]
      decreases content, 1
    {
      hide *;
      NothingWritten(content);
      ghost var before := data;
      Write([123]);
      var i := 0;
      while i < |content|
        invariant i % 2 == 0 && i <= |content| && data == before + [123] + Members(content[..i])
      {
        MembersGrow(content, i);
        EvenAt(content, i);
        EvenAt(content, i + 1);
        if i > 0 {
          Write([44]);
        }
        WriteAssembled(content[i]);
        Write([58]);
        WriteAssembled(content[i + 1]);
        i := i + 2;
      }
      Write([125]);
    }

    /** The writer's sequence branch. */
    method WriteElements(content: seq<Value>)
      requires AllEven(content)
      modifies this
      ensures data == old(data) + [91] + Elements(content) + [93]
      decreases content, 1
    {
      hide *;
      NothingWritten(content);
      ghost var before := data;
      Write([91]);
      for i := 0 to |content|
        invariant data == before + [91] + Elements(content[..i])
      {
        ElementsGrow(content, i);
        EvenAt(content, i);
        if i > 0 {
          Write([44]);
        }
        WriteAssembled(content[i]);
      }
      Write([93]);
    }
  }

  /** The bytes written for one character, chosen as writeJSONString chooses them. */
  method EscapedBytes(r: char) returns (written: Bytes)
    ensures written == Escaped(r)
  {
    hide Utf8;
    if r == '"' || r == '\\' {
      return [92, r as int];
    }
    match r
    case '\U{8}' => written := [92, 98];
    case '\U{C}' => written := [92, 102];
    case '\n' => written := [92, 110];
    case '\r' => written := [92, 114];
    case '\t' => written := [92, 116];
    case _ =>
      if r as int < 0x20 || r == '\U{85}' || r == '\U{2028}' || r == '\U{2029}' {
        var code := r as int;
        written := [92, 117, HexDigit(code / 4096 % 16), HexDigit(code / 256 % 16), HexDigit(code / 16 % 16), HexDigit(code % 16)];
      } else {
        written := Utf8(r);
      }
  }

  /** Every mapping has as many keys as values. */
  predicate EvenMappings(v: Value) {
    match v
    case Atom(_) => true
    case Container(mapping, content) => (mapping ==> |content| % 2 == 0) && AllEven(content)
  }

  predicate AllEven(content: seq<Value>) {
    forall i :: 0 <= i < |content| ==> EvenMappings(content[i])
  }

  lemma EvenAt(content: seq<Value>, i: nat)
    requires AllEven(content) && i < |content|
    ensures EvenMappings(content[i])
  {
  }

  lemma JsonParts(v: Value)
    requires EvenMappings(v)
    ensures v.Atom? ==> Json(v) == ScalarText(v.scalar) && (v.scalar.tag == Str ==> ScalarText(v.scalar) == Quoted(v.scalar.value))
    ensures v.Container? ==>
              && Json(v) == (if v.mapping then [123] + Members(v.content) + [125] else [91] + Elements(v.content) + [93])
              && (v.mapping ==> |v.content| % 2 == 0) && AllEven(v.content)
  {
  }

  lemma NothingWritten(content: seq<Value>)
    ensures content[..|content|] == content && Members(content[..0]) == [] && Elements(content[..0]) == []
  {
  }

  lemma MembersGrow(content: seq<Value>, i: nat)
    requires i + 1 < |content|
    ensures Members(content[..i + 2])
         == Members(content[..i]) + (if i == 0 then [] else [44]) + Json(content[i]) + [58] + Json(content[i + 1])
  {
    hide Json;
    assert content[..i + 2][..i] == content[..i];
  }

  lemma ElementsGrow(content: seq<Value>, i: nat)
    requires i < |content|
    ensures Elements(content[..i + 1]) == Elements(content[..i]) + (if i == 0 then [] else [44]) + Json(content[i])
  {
    hide Json;
    assert content[..i + 1][..i] == content[..i];
  }
}
