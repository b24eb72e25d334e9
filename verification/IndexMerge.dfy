/**
 The recogniser for the key text of an index_merge plan node
 (internal/adapters/mysql8/plan_indexes.go).

 The recursive grammar is the specification: a plan is a comma list of index names or one merge
 expression. `Scan` is the same left-to-right machine as the source's loop, but its stack holds the
 arguments themselves where the source keeps only their count; the method `IndexMergeUsesIndex` is
 the source's loop over counters.
 */
module IndexMerge {
  import opened Wrappers
  import opened Digits

  // ---------------------------------------------------------------- grammar

  datatype Merge =
    | Leaf(name: string)
    | Op(operator: string, args: seq<Merge>)

  const OPERATORS: set<string> := {"union", "intersect", "sort_union"}

  predicate IsPunctuation(c: char) {
    c == '(' || c == ')' || c == ','
  }

  /** An index identity the syntax cannot confuse with an expression. */
  predicate NativeName(name: string) {
    name != [] && '(' !in name && ')' !in name && ',' !in name
  }

  function Render(m: Merge): string
    decreases m, 1
  {
    match m
    case Leaf(name) => name
    case Op(operator, args) => operator + "(" + RenderList(args) + ")"
  }

  function RenderList(ms: seq<Merge>): string
    decreases ms, 0
  {
    if ms == [] then ""
    else if |ms| == 1 then Render(ms[0])
    else RenderList(ms[..|ms| - 1]) + "," + Render(ms[|ms| - 1])
  }

  predicate WellFormed(m: Merge, native: set<string>)
    decreases m, 1
  {
    match m
    case Leaf(name) => name in native
    case Op(operator, args) => operator in OPERATORS && |args| >= 2 && AllWellFormed(args, native)
  }

  predicate AllWellFormed(ms: seq<Merge>, native: set<string>)
    decreases ms, 0
  {
    forall i :: 0 <= i < |ms| ==> WellFormed(ms[i], native)
  }

  /** The root: a comma list of names, or exactly one merge expression. */
  predicate IsPlan(ms: seq<Merge>, native: set<string>) {
    ms != [] && AllWellFormed(ms, native) && (|ms| == 1 || AllLeaves(ms))
  }

  predicate AllLeaves(ms: seq<Merge>) {
    forall i :: 0 <= i < |ms| ==> ms[i].Leaf?
  }

  /** The index names of a merge, in textual order. */
  function Names(m: Merge): seq<string>
    decreases m, 1
  {
    match m
    case Leaf(name) => [name]
    case Op(_, args) => NamesOf(args)
  }

  function NamesOf(ms: seq<Merge>): seq<string>
    decreases ms, 0
  {
    if ms == [] then [] else NamesOf(ms[..|ms| - 1]) + Names(ms[|ms| - 1])
  }

  lemma RenderListSnoc(ms: seq<Merge>, m: Merge)
    ensures RenderList(ms + [m]) == (if ms == [] then "" else RenderList(ms) + ",") + Render(m)
  {
    assert (ms + [m])[..|ms + [m]| - 1] == ms;
  }

  lemma NamesOfSnoc(ms: seq<Merge>, m: Merge)
    ensures NamesOf(ms + [m]) == NamesOf(ms) + Names(m)
  {
    assert (ms + [m])[..|ms + [m]| - 1] == ms;
  }

  // ---------------------------------------------------------------- machine

  /** An open argument list; the bottom frame is the root and has no operator. */
  datatype Frame = Frame(operator: string, args: seq<Merge>)

  function Top(frames: seq<Frame>): Frame
    requires frames != []
  {
    frames[|frames| - 1]
  }

  function Push(frames: seq<Frame>, m: Merge): seq<Frame>
    requires frames != []
  {
    frames[|frames| - 1 := Frame(Top(frames).operator, Top(frames).args + [m])]
  }

  /** Close the top argument list and hand the finished operator to the list below. */
  function Pop(frames: seq<Frame>): seq<Frame>
    requires |frames| > 1
  {
    Push(frames[..|frames| - 1], Op(Top(frames).operator, Top(frames).args))
  }

  predicate RootExpression(frames: seq<Frame>)
    requires frames != []
  {
    |frames| > 1 || (frames[0].args != [] && frames[0].args[0].Op?)
  }

  /** The length of the longest punctuation-free prefix. */
  function NameLength(text: string): (n: nat)
    ensures n <= |text|
    ensures forall i :: 0 <= i < n ==> !IsPunctuation(text[i])
    ensures n == |text| || IsPunctuation(text[n])
  {
    if text != "" && !IsPunctuation(text[0]) then 1 + NameLength(text[1..]) else 0
  }

  function Scan(rest: string, frames: seq<Frame>, expectIndex: bool, native: set<string>): Option<seq<Merge>>
    requires frames != []
    decreases |rest|
  {
    if rest == "" then
      if expectIndex || |frames| != 1 then None else Some(frames[0].args)
    else if expectIndex then
      var end := NameLength(rest);
      var name := rest[..end];
      if end == 0 then None
      else if end < |rest| && rest[end] == '(' then
        if name !in OPERATORS || (|frames| == 1 && frames[0].args != []) then None
        else Scan(rest[end + 1..], frames + [Frame(name, [])], true, native)
      else if name !in native then None
      else Scan(rest[end..], Push(frames, Leaf(name)), false, native)
    else if rest[0] == ',' then
      if |frames| == 1 && RootExpression(frames) then None
      else Scan(rest[1..], frames, true, native)
    else if rest[0] == ')' then
      if |frames| == 1 || |Top(frames).args| < 2 then None
      else Scan(rest[1..], Pop(frames), false, native)
    else None
  }

  // ------------------------------------------------- soundness of the machine

  function Separator(args: seq<Merge>): string {
    if args == [] then "" else ","
  }

  /** The text a stack of open argument lists has consumed so far. */
  function Consumed(frames: seq<Frame>): string
    requires frames != []
    decreases |frames|, 1
  {
    if |frames| == 1 then RenderList(frames[0].args)
    else Enclosing(frames) + RenderList(Top(frames).args)
  }

  /** The text up to and including the top frame's opening bracket. */
  function Enclosing(frames: seq<Frame>): string
    requires |frames| > 1
    decreases |frames|, 0
  {
    var below := frames[..|frames| - 1];
    Consumed(below) + Separator(Top(below).args) + Top(frames).operator + "("
  }

  predicate ValidFrames(frames: seq<Frame>, expectIndex: bool, native: set<string>) {
    && frames != []
    && (forall i :: 0 <= i < |frames| ==> AllWellFormed(frames[i].args, native))
    && (forall i :: 1 <= i < |frames| ==> frames[i].operator in OPERATORS)
    && (|frames| > 1 ==> frames[0].args == [])
    && (AllLeaves(frames[0].args) || (|frames| == 1 && |frames[0].args| == 1 && !expectIndex))
    && (!expectIndex ==> Top(frames).args != [])
  }

  lemma ConsumedPush(frames: seq<Frame>, m: Merge)
    requires frames != []
    ensures Consumed(Push(frames, m)) == Consumed(frames) + Separator(Top(frames).args) + Render(m)
  {
    hide *;
    ListOfArguments(Top(frames).args, m);
    PushedConsumes(frames, m);
    var head, list := if |frames| == 1 then "" else Enclosing(frames), RenderList(Top(frames).args);
    assert head + (list + Separator(Top(frames).args) + Render(m)) == head + list + Separator(Top(frames).args) + Render(m);
    assert "" + RenderList(Top(frames).args + [m]) == RenderList(Top(frames).args + [m]) && "" + list == list;
  }

  lemma ListOfArguments(args: seq<Merge>, m: Merge)
    ensures RenderList(args + [m]) == RenderList(args) + Separator(args) + Render(m)
  {
    RenderListSnoc(args, m);
    EmptyListRenders();
    hide RenderList, Render;
  }

  /** The text of a stack is what encloses its top list, and that list. */
  lemma PushedConsumes(frames: seq<Frame>, m: Merge)
    requires frames != []
    ensures var pushed := Push(frames, m);
            && Consumed(pushed) == (if |frames| == 1 then "" else Enclosing(frames)) + RenderList(Top(frames).args + [m])
            && Consumed(frames) == (if |frames| == 1 then "" else Enclosing(frames)) + RenderList(Top(frames).args)
  {
    hide RenderList;
    var pushed := Push(frames, m);
    assert Top(pushed).args == Top(frames).args + [m];
    assert pushed[..|pushed| - 1] == frames[..|frames| - 1];
    NoPrefix(RenderList(Top(frames).args + [m]));
    NoPrefix(RenderList(Top(frames).args));
  }

  lemma NoPrefix(text: string)
    ensures "" + text == text
  {
  }

  lemma EmptyListRenders()
    ensures RenderList([]) == ""
  {
  }

  lemma ConsumedPop(frames: seq<Frame>)
    requires |frames| > 1
    ensures Consumed(Pop(frames)) == Consumed(frames) + ")"
  {
    var below := frames[..|frames| - 1];
    var top := Top(frames);
    var m := Op(top.operator, top.args);
    assert Pop(frames) == Push(below, m);
    ConsumedPush(below, m);
    EnclosingText(frames);
    hide *;
    Regroup(Consumed(below) + Separator(Top(below).args), top.operator, RenderList(top.args));
    assert Render(m) == top.operator + "(" + RenderList(top.args) + ")" by {
      RenderOp(top.operator, top.args);
    }
  }

  lemma RenderOp(operator: string, args: seq<Merge>)
    ensures Render(Op(operator, args)) == operator + "(" + RenderList(args) + ")"
  {
  }

  lemma EnclosingText(frames: seq<Frame>)
    requires |frames| > 1
    ensures var below := frames[..|frames| - 1];
            Consumed(frames) == Consumed(below) + Separator(Top(below).args) + Top(frames).operator + "("
                              + RenderList(Top(frames).args)
  {
  }

  lemma Regroup(head: string, operator: string, inner: string)
    ensures head + (operator + "(" + inner + ")") == head + operator + "(" + inner + ")"
  {
  }

  lemma ConsumedOpen(frames: seq<Frame>, operator: string)
    requires frames != []
    ensures Consumed(frames + [Frame(operator, [])])
         == Consumed(frames) + Separator(Top(frames).args) + operator + "("
  {
    var deeper := frames + [Frame(operator, [])];
    assert deeper[..|deeper| - 1] == frames;
    assert RenderList([]) == "";
  }

  lemma PushKeepsValid(frames: seq<Frame>, m: Merge, native: set<string>)
    requires ValidFrames(frames, true, native) && WellFormed(m, native)
    requires m.Leaf? || |frames| > 1 || frames[0].args == []
    ensures ValidFrames(Push(frames, m), false, native)
  {
    var pushed := Push(frames, m);
    forall i | 0 <= i < |pushed| ensures AllWellFormed(pushed[i].args, native) {
      assert AllWellFormed(frames[i].args, native);
    }
  }

  lemma OpenKeepsValid(frames: seq<Frame>, operator: string, native: set<string>)
    requires ValidFrames(frames, true, native) && operator in OPERATORS
    requires |frames| > 1 || frames[0].args == []
    ensures ValidFrames(frames + [Frame(operator, [])], true, native)
  {
    var deeper := frames + [Frame(operator, [])];
    forall i | 0 <= i < |deeper| ensures AllWellFormed(deeper[i].args, native) {
      if i < |frames| {
        assert AllWellFormed(frames[i].args, native);
      }
    }
  }

  lemma PopKeepsValid(frames: seq<Frame>, native: set<string>)
    requires ValidFrames(frames, false, native) && |frames| > 1 && |Top(frames).args| >= 2
    ensures ValidFrames(Pop(frames), false, native)
  {
    var below := frames[..|frames| - 1];
    var m := Op(Top(frames).operator, Top(frames).args);
    assert AllWellFormed(Top(frames).args, native);
    forall i | 0 <= i < |below| ensures AllWellFormed(below[i].args, native) {
      assert AllWellFormed(frames[i].args, native);
    }
    assert ValidFrames(below, true, native);
    PushKeepsValid(below, m, native);
  }

  /** The text consumed by a state, with the comma already read before a further argument. */
  function Read(frames: seq<Frame>, expectIndex: bool): string
    requires frames != []
  {
    Consumed(frames) + (if expectIndex then Separator(Top(frames).args) else "")
  }

  lemma ReadOpen(frames: seq<Frame>, operator: string, rest: string)
    requires frames != []
    ensures Read(frames + [Frame(operator, [])], true) + rest == Read(frames, true) + (operator + "(" + rest)
  {
    var deeper := frames + [Frame(operator, [])];
    assert Read(deeper, true) == Consumed(deeper) + "";
    assert Read(frames, true) == Consumed(frames) + Separator(Top(frames).args);
    hide *;
    ConsumedOpen(frames, operator);
    assert Read(deeper, true) == Read(frames, true) + operator + "(";
  }

  lemma ReadPush(frames: seq<Frame>, m: Merge, rest: string)
    requires frames != []
    ensures Read(Push(frames, m), false) + rest == Read(frames, true) + (Render(m) + rest)
  {
    assert Read(Push(frames, m), false) == Consumed(Push(frames, m)) + "";
    assert Read(frames, true) == Consumed(frames) + Separator(Top(frames).args);
    hide *;
    ConsumedPush(frames, m);
    assert Read(Push(frames, m), false) == Read(frames, true) + Render(m);
  }

  lemma ReadComma(frames: seq<Frame>, rest: string)
    requires frames != [] && Top(frames).args != []
    ensures Read(frames, true) + rest == Read(frames, false) + ("," + rest)
  {
    assert Read(frames, true) == Consumed(frames) + "," && Read(frames, false) == Consumed(frames) + "";
    hide *;
    assert Read(frames, true) == Read(frames, false) + ",";
  }

  lemma ReadPop(frames: seq<Frame>, rest: string)
    requires |frames| > 1
    ensures Read(Pop(frames), false) + rest == Read(frames, false) + (")" + rest)
  {
    assert Read(Pop(frames), false) == Consumed(Pop(frames)) + "" && Read(frames, false) == Consumed(frames) + "";
    hide *;
    ConsumedPop(frames);
    assert Read(Pop(frames), false) == Read(frames, false) + ")";
  }

  lemma CommaKeepsValid(frames: seq<Frame>, native: set<string>)
    requires ValidFrames(frames, false, native) && (|frames| > 1 || !RootExpression(frames))
    ensures ValidFrames(frames, true, native) && Top(frames).args != []
  {
  }

  lemma AcceptedIsPlan(frames: seq<Frame>, native: set<string>)
    requires ValidFrames(frames, false, native) && |frames| == 1
    ensures IsPlan(frames[0].args, native) && RenderList(frames[0].args) == Read(frames, false)
  {
    assert Consumed(frames) + "" == Consumed(frames);
  }

  /** The machine's four moves. */
  lemma ScanMoves(rest: string, frames: seq<Frame>, expectIndex: bool, native: set<string>)
    requires frames != [] && rest != ""
    ensures expectIndex ==>
              var end := NameLength(rest);
              var name := rest[..end];
              Scan(rest, frames, true, native)
              == if end == 0 then None
                 else if end < |rest| && rest[end] == '(' then
                   if name !in OPERATORS || (|frames| == 1 && frames[0].args != []) then None
                   else Scan(rest[end + 1..], frames + [Frame(name, [])], true, native)
                 else if name !in native then None
                 else Scan(rest[end..], Push(frames, Leaf(name)), false, native)
    ensures !expectIndex ==>
              Scan(rest, frames, false, native)
              == if rest[0] == ',' then
                   if |frames| == 1 && RootExpression(frames) then None else Scan(rest[1..], frames, true, native)
                 else if rest[0] == ')' then
                   if |frames| == 1 || |Top(frames).args| < 2 then None else Scan(rest[1..], Pop(frames), false, native)
                 else None
  {
    hide Push, Pop, RootExpression, Top, NameLength;
  }

  /** Accepted from here, the key is the text of a plan. */
  ghost predicate Sound(rest: string, frames: seq<Frame>, expectIndex: bool, native: set<string>)
    requires frames != []
  {
    var r := Scan(rest, frames, expectIndex, native);
    r.Some? ==> IsPlan(r.value, native) && RenderList(r.value) == Read(frames, expectIndex) + rest
  }

  /** Sound after a move that only passes text from the rest to what is read. */
  lemma SoundMove(
    rest: string, frames: seq<Frame>, expectIndex: bool, tail: string, after: seq<Frame>, next: bool, native: set<string>
  )
    requires frames != [] && after != [] && Sound(tail, after, next, native)
    requires Scan(rest, frames, expectIndex, native) == Scan(tail, after, next, native)
    requires Read(after, next) + tail == Read(frames, expectIndex) + rest
    ensures Sound(rest, frames, expectIndex, native)
  {
    hide Scan, IsPlan, RenderList, Read;
  }

  lemma SoundFailure(rest: string, frames: seq<Frame>, expectIndex: bool, native: set<string>)
    requires frames != [] && Scan(rest, frames, expectIndex, native) == None
    ensures Sound(rest, frames, expectIndex, native)
  {
  }

  lemma SoundEnd(frames: seq<Frame>, expectIndex: bool, native: set<string>)
    requires frames != [] && ValidFrames(frames, expectIndex, native)
    ensures Sound("", frames, expectIndex, native)
  {
    hide ValidFrames, IsPlan, RenderList, Read;
    if !expectIndex && |frames| == 1 {
      AcceptedIsPlan(frames, native);
      assert Read(frames, false) + "" == Read(frames, false);
    }
  }

  lemma {:induction false} SoundName(rest: string, frames: seq<Frame>, native: set<string>)
    requires frames != [] && ValidFrames(frames, true, native) && rest != ""
    ensures Sound(rest, frames, true, native)
    decreases |rest|, 0
  {
    hide *;
    ScanMoves(rest, frames, true, native);
    var end := NameLength(rest);
    var name, tail, inner := rest[..end], rest[end..], if end < |rest| then rest[end + 1..] else "";
    if Scan(rest, frames, true, native) == None {
      SoundFailure(rest, frames, true, native);
    } else if end < |rest| && rest[end] == '(' {
      var deeper := frames + [Frame(name, [])];
      OpenKeepsValid(frames, name, native);
      ReadOpen(frames, name, inner);
      assert rest == name + "(" + inner;
      AllSound(inner, deeper, true, native);
      SoundMove(rest, frames, true, inner, deeper, true, native);
    } else {
      var pushed := Push(frames, Leaf(name));
      LeafIsItsName(name, native);
      PushKeepsValid(frames, Leaf(name), native);
      ReadPush(frames, Leaf(name), tail);
      assert rest == name + tail;
      PushedFrames(frames, Leaf(name));
      AllSound(tail, pushed, false, native);
      SoundMove(rest, frames, true, tail, pushed, false, native);
    }
  }

  lemma PushedFrames(frames: seq<Frame>, m: Merge)
    requires frames != []
    ensures |Push(frames, m)| == |frames|
  {
  }

  lemma {:induction false} SoundPunctuation(rest: string, frames: seq<Frame>, native: set<string>)
    requires frames != [] && ValidFrames(frames, false, native) && rest != ""
    ensures Sound(rest, frames, false, native)
    decreases |rest|, 0
  {
    hide *;
    ScanMoves(rest, frames, false, native);
    var tail := rest[1..];
    if Scan(rest, frames, false, native) == None {
      SoundFailure(rest, frames, false, native);
    } else if rest[0] == ',' {
      CommaKeepsValid(frames, native);
      ReadComma(frames, tail);
      assert rest == "," + tail;
      AllSound(tail, frames, true, native);
      SoundMove(rest, frames, false, tail, frames, true, native);
    } else {
      PopKeepsValid(frames, native);
      ReadPop(frames, tail);
      assert rest == ")" + tail;
      PoppedFrames(frames);
      AllSound(tail, Pop(frames), false, native);
      SoundMove(rest, frames, false, tail, Pop(frames), false, native);
    }
  }

  lemma PoppedFrames(frames: seq<Frame>)
    requires |frames| > 1
    ensures |Pop(frames)| == |frames| - 1
  {
  }

  lemma {:induction false} AllSound(rest: string, frames: seq<Frame>, expectIndex: bool, native: set<string>)
    requires frames != [] && ValidFrames(frames, expectIndex, native)
    ensures Sound(rest, frames, expectIndex, native)
    decreases |rest|, 1
  {
    hide *;
    if rest == "" {
      SoundEnd(frames, expectIndex, native);
    } else if expectIndex {
      SoundName(rest, frames, native);
    } else {
      SoundPunctuation(rest, frames, native);
    }
  }

  /** Whatever the machine accepts is a plan, and the key is exactly that plan's text. */
  lemma ScanSound(rest: string, frames: seq<Frame>, expectIndex: bool, native: set<string>)
    requires frames != [] && ValidFrames(frames, expectIndex, native)
    ensures var r := Scan(rest, frames, expectIndex, native);
            r.Some? ==> IsPlan(r.value, native) && RenderList(r.value) == Read(frames, expectIndex) + rest
  {
    hide Scan, IsPlan, RenderList, Read, ValidFrames;
    AllSound(rest, frames, expectIndex, native);
  }

  lemma LeafIsItsName(name: string, native: set<string>)
    requires name in native
    ensures WellFormed(Leaf(name), native) && Render(Leaf(name)) == name
  {
  }

  // ---------------------------------------------- completeness of the machine

  predicate AllNativeNames(native: set<string>) {
    forall name :: name in native ==> NativeName(name)
  }

  /** What may follow a complete merge: the end, a comma or a closing bracket. */
  predicate Follows(rest: string) {
    rest == "" || rest[0] == ',' || rest[0] == ')'
  }

  lemma {:induction false} NameLengthOf(name: string, rest: string)
    requires forall i :: 0 <= i < |name| ==> !IsPunctuation(name[i])
    requires rest == "" || IsPunctuation(rest[0])
    ensures NameLength(name + rest) == |name|
  {
    if name == "" {
      assert name + rest == rest;
    } else {
      NameLengthOf(name[1..], rest);
      assert (name + rest)[1..] == name[1..] + rest;
    }
  }

  lemma ScanLeaf(name: string, rest: string, frames: seq<Frame>, native: set<string>)
    requires name in native && NativeName(name) && Follows(rest) && frames != []
    ensures Scan(name + rest, frames, true, native) == Scan(rest, Push(frames, Leaf(name)), false, native)
  {
    NameLengthOf(name, rest);
    assert (name + rest)[..|name|] == name && (name + rest)[|name|..] == rest;
  }

  lemma ScanOpen(operator: string, rest: string, frames: seq<Frame>, native: set<string>)
    requires operator in OPERATORS && frames != [] && (|frames| > 1 || frames[0].args == [])
    ensures Scan(operator + "(" + rest, frames, true, native)
         == Scan(rest, frames + [Frame(operator, [])], true, native)
  {
    var text := operator + "(" + rest;
    assert text == operator + ("(" + rest);
    OperatorIsName(operator);
    NameLengthOf(operator, "(" + rest);
    assert text[..|operator|] == operator && text[|operator| + 1..] == rest;
    hide Scan;
    ScanMoves(text, frames, true, native);
  }

  lemma OperatorIsName(operator: string)
    requires operator in OPERATORS
    ensures operator != "" && forall i :: 0 <= i < |operator| ==> !IsPunctuation(operator[i])
  {
  }

  lemma ScanComma(rest: string, frames: seq<Frame>, native: set<string>)
    requires frames != [] && (|frames| > 1 || !RootExpression(frames))
    ensures Scan("," + rest, frames, false, native) == Scan(rest, frames, true, native)
  {
    assert ("," + rest)[1..] == rest;
  }

  lemma ScanClose(rest: string, frames: seq<Frame>, native: set<string>)
    requires |frames| > 1 && |Top(frames).args| >= 2
    ensures Scan(")" + rest, frames, false, native) == Scan(rest, Pop(frames), false, native)
  {
    assert (")" + rest)[1..] == rest;
  }

  function WithArgs(frames: seq<Frame>, ms: seq<Merge>): seq<Frame>
    requires frames != []
  {
    frames[|frames| - 1 := Frame(Top(frames).operator, ms)]
  }

  /** Reading a well-formed merge where an index may start pushes exactly that merge. */
  lemma {:induction false} ScanMerge(m: Merge, rest: string, frames: seq<Frame>, native: set<string>)
    requires AllNativeNames(native) && WellFormed(m, native) && Follows(rest)
    requires frames != [] && (m.Op? ==> |frames| > 1 || frames[0].args == [])
    ensures Scan(Render(m) + rest, frames, true, native) == Scan(rest, Push(frames, m), false, native)
    decreases m, 1
  {
    match m {
      case Leaf(name) =>
        ScanLeaf(name, rest, frames, native);
      case Op(operator, args) =>
        var deeper := frames + [Frame(operator, [])];
        assert Render(m) + rest == operator + "(" + (RenderList(args) + (")" + rest));
        ScanOpen(operator, RenderList(args) + (")" + rest), frames, native);
        ScanList(args, ")" + rest, deeper, native);
        var full := WithArgs(deeper, args);
        ScanClose(rest, full, native);
        assert full[..|full| - 1] == frames;
        assert Pop(full) == Push(frames, m);
    }
  }

  /** Reading a comma list of well-formed merges pushes them in order. */
  lemma {:induction false} ScanList(ms: seq<Merge>, rest: string, frames: seq<Frame>, native: set<string>)
    requires AllNativeNames(native) && AllWellFormed(ms, native) && ms != [] && Follows(rest)
    requires frames != [] && Top(frames).args == []
    requires |frames| == 1 ==> |ms| == 1 || AllLeaves(ms)
    ensures Scan(RenderList(ms) + rest, frames, true, native) == Scan(rest, WithArgs(frames, ms), false, native)
    decreases ms, 0
  {
    hide Scan, AllNativeNames, NativeName, IsPunctuation, Names, NamesOf;
    var last := ms[|ms| - 1];
    assert WellFormed(last, native);
    if |ms| == 1 {
      ScanMerge(last, rest, frames, native);
      assert Top(frames).args + [last] == ms;
      assert Push(frames, last) == WithArgs(frames, ms);
    } else {
      var init := ms[..|ms| - 1];
      var framed := WithArgs(frames, init);
      assert AllWellFormed(init, native) && (|frames| == 1 ==> AllLeaves(init) && last.Leaf?);
      assert RenderList(ms) == RenderList(init) + "," + Render(last);
      hide WellFormed, AllWellFormed, AllLeaves, RenderList, Render;
      assert RenderList(ms) + rest == RenderList(init) + ("," + (Render(last) + rest));
      ScanList(init, "," + (Render(last) + rest), frames, native);
      ScanComma(Render(last) + rest, framed, native);
      ScanMerge(last, rest, framed, native);
      PushLast(frames, ms);
    }
  }

  lemma PushLast(frames: seq<Frame>, ms: seq<Merge>)
    requires frames != [] && ms != []
    ensures Push(WithArgs(frames, ms[..|ms| - 1]), ms[|ms| - 1]) == WithArgs(frames, ms)
  {
    assert ms[..|ms| - 1] + [ms[|ms| - 1]] == ms;
  }

  const EMPTY_ROOT: seq<Frame> := [Frame("", [])]

  /** The machine started on an empty root decides the grammar. */
  lemma ScanDecidesGrammar(key: string, native: set<string>)
    requires AllNativeNames(native)
    ensures var r := Scan(key, EMPTY_ROOT, true, native);
            && (r.Some? ==> IsPlan(r.value, native) && RenderList(r.value) == key)
            && (forall ms :: IsPlan(ms, native) && RenderList(ms) == key ==> r == Some(ms))
  {
    ScanSound(key, EMPTY_ROOT, true, native);
    assert Read(EMPTY_ROOT, true) + key == key;
    forall ms | IsPlan(ms, native) && RenderList(ms) == key
      ensures Scan(key, EMPTY_ROOT, true, native) == Some(ms)
    {
      assert key + "" == key;
      ScanList(ms, "", EMPTY_ROOT, native);
      assert WithArgs(EMPTY_ROOT, ms)[0].args == ms;
    }
  }

  /** The text determines the plan: no key reads as two different plans. */
  lemma PlanTextIsUnambiguous(a: seq<Merge>, b: seq<Merge>, native: set<string>)
    requires AllNativeNames(native) && IsPlan(a, native) && IsPlan(b, native)
    requires RenderList(a) == RenderList(b)
    ensures a == b
  {
    ScanDecidesGrammar(RenderList(a), native);
    var r := Scan(RenderList(a), EMPTY_ROOT, true, native);
    assert r == Some(a);
    assert r == Some(b);
  }

  // -------------------------------------------------------- the source's loop

  /** An element of the plan's possible_keys array: any JSON value. */
  datatype PossibleKey = Text(name: string) | NotText

  predicate UsableKeys(possibleKeys: seq<PossibleKey>) {
    && possibleKeys != []
    && forall i :: 0 <= i < |possibleKeys| ==> possibleKeys[i].Text? && NativeName(possibleKeys[i].name)
  }

  function NativeNames(possibleKeys: seq<PossibleKey>): (native: set<string>) {
    set i | 0 <= i < |possibleKeys| && possibleKeys[i].Text? :: possibleKeys[i].name
  }

  /** The pieces of a comma-separated text; there is always at least one. */
  function SplitComma(text: string): (pieces: seq<string>)
    ensures pieces != []
  {
    var n := CommaAt(text);
    if n == |text| then [text] else [text[..n]] + SplitComma(text[n + 1..])
  }

  function CommaAt(text: string): (n: nat)
    ensures n <= |text|
    ensures n < |text| ==> text[n] == ','
    ensures forall i :: 0 <= i < n ==> text[i] != ','
  {
    if text == "" || text[0] == ',' then 0 else 1 + CommaAt(text[1..])
  }

  const MAX_UINT64: nat := 0xFFFF_FFFF_FFFF_FFFF

  /** A positive 64-bit length without a leading zero. */
  predicate CanonicalLength(text: string) {
    text != "" && text[0] != '0' && AllDigits(text) && NatOf(text) <= MAX_UINT64
  }

  /** The decimal text of a positive unsigned 64-bit number. */
  ghost predicate IsLength(text: string) {
    exists n: nat :: 1 <= n <= MAX_UINT64 && text == Decimal(n)
  }

  lemma CanonicalIsLength(text: string)
    ensures CanonicalLength(text) <==> IsLength(text)
  {
    if CanonicalLength(text) {
      CanonicalIsDecimal(text);
      assert text == Decimal(NatOf(text));
    }
    if n: nat :| 1 <= n <= MAX_UINT64 && text == Decimal(n) {
      DecimalDenotes(n);
      NatOfEnd(text);
      NoNumber();
      if |text| == 1 {
        assert text[..0] == "";
      }
    }
  }

  ghost predicate CanonicalLengths(pieces: seq<string>) {
    forall i :: 0 <= i < |pieces| ==> IsLength(pieces[i])
  }

  predicate Uses(names: seq<string>, requiredIndex: string, equalFold: (string, string) -> bool) {
    exists i :: 0 <= i < |names| && equalFold(names[i], requiredIndex)
  }

  /** The key names a plan over these possible keys, with one length per named index. */
  ghost predicate DescribedBy(key: string, keyLengths: string, possibleKeys: seq<PossibleKey>, plan: seq<Merge>) {
    && UsableKeys(possibleKeys)
    && IsPlan(plan, NativeNames(possibleKeys))
    && RenderList(plan) == key
    && CanonicalLengths(SplitComma(keyLengths))
    && |NamesOf(plan)| == |SplitComma(keyLengths)|
  }

  // ------------------------------------------------------ leaves and commas

  /** The name stands at some leaf of the merge. */
  predicate IsLeaf(m: Merge, name: string)
    decreases m
  {
    match m
    case Leaf(n) => n == name
    case Op(_, args) => exists i :: 0 <= i < |args| && IsLeaf(args[i], name)
  }

  predicate InSomeLeaf(ms: seq<Merge>, name: string) {
    exists i :: 0 <= i < |ms| && IsLeaf(ms[i], name)
  }

  lemma {:induction false} NameIsLeaf(m: Merge, name: string)
    ensures name in Names(m) <==> IsLeaf(m, name)
    decreases m, 1
  {
    if m.Op? {
      NamesAreLeaves(m.args, name);
    }
  }

  lemma {:induction false} NamesAreLeaves(ms: seq<Merge>, name: string)
    ensures name in NamesOf(ms) <==> InSomeLeaf(ms, name)
    decreases ms, 0
  {
    hide Names, IsLeaf;
    if ms != [] {
      var n := |ms| - 1;
      var init := ms[..n];
      NamesAreLeaves(init, name);
      NameIsLeaf(ms[n], name);
      assert forall i :: 0 <= i < n ==> init[i] == ms[i];
    }
  }

  function Commas(text: string): nat {
    if text == "" then 0 else Commas(text[..|text| - 1]) + (if text[|text| - 1] == ',' then 1 else 0)
  }

  lemma {:induction false} CommasConcat(a: string, b: string)
    ensures Commas(a + b) == Commas(a) + Commas(b)
  {
    if b == "" {
      assert a + b == a;
    } else {
      assert (a + b)[..|a + b| - 1] == a + b[..|b| - 1];
      CommasConcat(a, b[..|b| - 1]);
    }
  }

  lemma {:induction false} NoCommas(text: string)
    requires ',' !in text
    ensures Commas(text) == 0
  {
    if text != "" {
      NoCommas(text[..|text| - 1]);
    }
  }

  lemma BracketedCommas(operator: string, inner: string)
    requires operator in OPERATORS
    ensures Commas(operator + "(" + inner + ")") == Commas(inner)
  {
    hide Commas;
    CommasConcat(operator + "(" + inner, ")");
    CommasConcat(operator + "(", inner);
    NoCommas(operator + "(");
    NoCommas(")");
  }

  /** A well-formed merge has one leaf more than its text has commas. */
  lemma {:induction false} LeavesOfText(m: Merge, native: set<string>)
    requires AllNativeNames(native) && WellFormed(m, native)
    ensures |Names(m)| == 1 + Commas(Render(m))
    decreases m, 1
  {
    match m {
      case Leaf(name) =>
        NoCommas(name);
      case Op(operator, args) =>
        LeavesOfList(args, native);
        BracketedCommas(operator, RenderList(args));
    }
  }

  lemma {:induction false} LeavesOfList(ms: seq<Merge>, native: set<string>)
    requires AllNativeNames(native) && AllWellFormed(ms, native) && ms != []
    ensures |NamesOf(ms)| == 1 + Commas(RenderList(ms))
    decreases ms, 0
  {
    var n := |ms| - 1;
    LeavesOfText(ms[n], native);
    if n > 0 {
      LeavesOfList(ms[..n], native);
    } else {
      assert NamesOf(ms[..n]) == [];
    }
    hide WellFormed, Names, Render, AllNativeNames;
    if n > 0 {
      CommasConcat(RenderList(ms[..n]) + ",", Render(ms[n]));
      CommasConcat(RenderList(ms[..n]), ",");
      OneComma();
    }
  }

  lemma OneComma()
    ensures Commas(",") == 1
  {
  }

  lemma CommasAfter(head: string, tail: string)
    requires ',' !in head
    ensures Commas(head + "," + tail) == 1 + Commas(tail)
  {
    hide Commas;
    CommasConcat(head + ",", tail);
    CommasConcat(head, ",");
    NoCommas(head);
    OneComma();
  }

  lemma FirstPiece(text: string)
    ensures var n := CommaAt(text);
            SplitComma(text) == if n == |text| then [text[..n]] else [text[..n]] + SplitComma(text[n + 1..])
  {
    hide CommaAt;
    var n := CommaAt(text);
    assert n == |text| ==> text[..n] == text;
  }

  lemma TextAround(text: string, n: nat)
    requires n < |text| && text[n] == ','
    ensures text == text[..n] + "," + text[n + 1..]
  {
  }

  /** A comma list has one piece more than commas, and no piece has one. */
  lemma {:induction false} PiecesOfText(text: string)
    ensures |SplitComma(text)| == 1 + Commas(text)
    ensures forall i :: 0 <= i < |SplitComma(text)| ==> ',' !in SplitComma(text)[i]
  {
    hide *;
    FirstPiece(text);
    var n := CommaAt(text);
    if n < |text| {
      var head, tail := text[..n], text[n + 1..];
      TextAround(text, n);
      PiecesOfText(tail);
      CommasAfter(head, tail);
      var rest := SplitComma(tail);
      forall i | 0 <= i < |SplitComma(text)| ensures ',' !in SplitComma(text)[i] {
        assert i > 0 ==> SplitComma(text)[i] == rest[i - 1];
      }
    } else {
      assert text[..n] == text;
      NoCommas(text);
    }
  }

  /** A plan over native names has as many leaves as there are key lengths exactly when both texts have as many commas. */
  lemma LeavesAreCommas(plan: seq<Merge>, native: set<string>, keyLengths: string)
    requires AllNativeNames(native) && IsPlan(plan, native)
    ensures |NamesOf(plan)| == |SplitComma(keyLengths)| <==> Commas(RenderList(plan)) == Commas(keyLengths)
  {
    hide NamesOf, RenderList, SplitComma, Commas, AllNativeNames;
    LeavesOfList(plan, native);
    PiecesOfText(keyLengths);
  }

  /** Some leaf of the plan folds to the index. */
  ghost predicate SomeLeafFolds(plan: seq<Merge>, requiredIndex: string, equalFold: (string, string) -> bool) {
    exists name :: InSomeLeaf(plan, name) && equalFold(name, requiredIndex)
  }

  lemma UsedIsLeaf(plan: seq<Merge>, requiredIndex: string, equalFold: (string, string) -> bool)
    ensures Uses(NamesOf(plan), requiredIndex, equalFold) == SomeLeafFolds(plan, requiredIndex, equalFold)
  {
    hide NamesOf, InSomeLeaf;
    var names := NamesOf(plan);
    if Uses(names, requiredIndex, equalFold) {
      var i :| 0 <= i < |names| && equalFold(names[i], requiredIndex);
      NamesAreLeaves(plan, names[i]);
      assert names[i] in names;
    }
    if SomeLeafFolds(plan, requiredIndex, equalFold) {
      var name :| InSomeLeaf(plan, name) && equalFold(name, requiredIndex);
      NamesAreLeaves(plan, name);
      var i :| 0 <= i < |names| && names[i] == name;
      assert equalFold(names[i], requiredIndex);
    }
  }

  function FrameNames(frames: seq<Frame>): seq<string> {
    if frames == [] then []
    else FrameNames(frames[..|frames| - 1]) + NamesOf(frames[|frames| - 1].args)
  }

  lemma FrameNamesPush(frames: seq<Frame>, m: Merge)
    requires frames != []
    ensures FrameNames(Push(frames, m)) == FrameNames(frames) + Names(m)
  {
    assert Push(frames, m)[..|frames| - 1] == frames[..|frames| - 1];
    NamesOfSnoc(Top(frames).args, m);
  }

  lemma FrameNamesOpen(frames: seq<Frame>, operator: string)
    ensures FrameNames(frames + [Frame(operator, [])]) == FrameNames(frames)
  {
    var deeper := frames + [Frame(operator, [])];
    assert deeper[..|deeper| - 1] == frames;
    assert NamesOf([]) == [];
  }

  lemma FrameNamesPop(frames: seq<Frame>)
    requires |frames| > 1
    ensures FrameNames(Pop(frames)) == FrameNames(frames)
  {
    FrameNamesPush(frames[..|frames| - 1], Op(Top(frames).operator, Top(frames).args));
  }

  /** The loop's counters describe the machine's stack. */
  ghost predicate Counts(arguments: seq<nat>, frames: seq<Frame>) {
    |arguments| == |frames| && forall i :: 0 <= i < |frames| ==> arguments[i] == |frames[i].args|
  }

  method CountKeyLengths(keyLengths: string) returns (r: Result<nat, ()>)
    ensures r.Success? <==> CanonicalLengths(SplitComma(keyLengths))
    ensures r.Success? ==> r.value == |SplitComma(keyLengths)|
  {
    var rest := keyLengths;
    var indexCount := 0;
    ghost var done: seq<string> := [];
    while true
      invariant SplitComma(keyLengths) == done + SplitComma(rest)
      invariant indexCount == |done| && CanonicalLengths(done)
      decreases |rest|
    {
      var n := CommaAt(rest);
      var length := rest[..n];
      assert SplitComma(rest)[0] == length;
      assert SplitComma(keyLengths)[|done|] == length;
      CanonicalIsLength(length);
      if !CanonicalLength(length) {
        return Failure(());
      }
      indexCount := indexCount + 1;
      if n == |rest| {
        assert SplitComma(keyLengths) == done + [length];
        return Success(indexCount);
      }
      done := done + [length];
      rest := rest[n + 1..];
    }
  }

  /**
   Accepts exactly the keys that some plan describes, and then reports whether any of that plan's
   names folds to the required index.
   */
  method IndexMergeUsesIndex(
    key: string, keyLengths: string, requiredIndex: string, possibleKeys: seq<PossibleKey>,
    equalFold: (string, string) -> bool
  ) returns (r: Result<bool, ()>)
    ensures r.Success? <==> exists plan :: DescribedBy(key, keyLengths, possibleKeys, plan)
    ensures forall plan :: DescribedBy(key, keyLengths, possibleKeys, plan)
              ==> r == Success(SomeLeafFolds(plan, requiredIndex, equalFold))
  {
    if |possibleKeys| == 0 {
      return Failure(());
    }
    var nativeIndexes: set<string> := {};
    for k := 0 to |possibleKeys|
      invariant UsableKeys(possibleKeys[..k]) || k == 0
      invariant nativeIndexes == NativeNames(possibleKeys[..k])
    {
      assert possibleKeys[..k + 1] == possibleKeys[..k] + [possibleKeys[k]];
      if !possibleKeys[k].Text? || !NativeName(possibleKeys[k].name) {
        return Failure(());
      }
      nativeIndexes := nativeIndexes + {possibleKeys[k].name};
      assert possibleKeys[..k + 1][k].name in NativeNames(possibleKeys[..k + 1]);
    }
    assert possibleKeys[..|possibleKeys|] == possibleKeys;
    var counted := CountKeyLengths(keyLengths);
    if counted.Failure? {
      return Failure(());
    }
    ScanDecidesGrammar(key, nativeIndexes);
    var scanned := ScanKey(key, requiredIndex, nativeIndexes, equalFold);
    if scanned == None || scanned.value.1 != counted.value {
      return Failure(());
    }
    ghost var plan := Scan(key, EMPTY_ROOT, true, nativeIndexes).value;
    assert DescribedBy(key, keyLengths, possibleKeys, plan);
    UsedIsLeaf(plan, requiredIndex, equalFold);
    r := Success(scanned.value.0);
  }

  /** The loop's variables describe the machine state `frames`, `expectIndex`. */
  ghost predicate Tracks(
    arguments: seq<nat>, expectIndex: bool, rootExpression: bool, usesIndex: bool, leaves: nat,
    frames: seq<Frame>, requiredIndex: string, native: set<string>, equalFold: (string, string) -> bool
  ) {
    && ValidFrames(frames, expectIndex, native)
    && Counts(arguments, frames)
    && rootExpression == RootExpression(frames)
    && leaves == |FrameNames(frames)|
    && usesIndex == Uses(FrameNames(frames), requiredIndex, equalFold)
  }

  lemma TracksOpen(
    arguments: seq<nat>, rootExpression: bool, usesIndex: bool, leaves: nat, frames: seq<Frame>, operator: string,
    requiredIndex: string, native: set<string>, equalFold: (string, string) -> bool
  )
    requires Tracks(arguments, true, rootExpression, usesIndex, leaves, frames, requiredIndex, native, equalFold)
    requires operator in OPERATORS && (|arguments| > 1 || arguments[0] == 0)
    ensures Tracks(arguments + [0], true, true, usesIndex, leaves, frames + [Frame(operator, [])],
                   requiredIndex, native, equalFold)
  {
    OpenKeepsValid(frames, operator, native);
    FrameNamesOpen(frames, operator);
  }

  lemma TracksLeaf(
    arguments: seq<nat>, rootExpression: bool, usesIndex: bool, leaves: nat, frames: seq<Frame>, name: string,
    requiredIndex: string, native: set<string>, equalFold: (string, string) -> bool
  )
    requires Tracks(arguments, true, rootExpression, usesIndex, leaves, frames, requiredIndex, native, equalFold)
    requires name in native
    ensures Tracks(Bump(arguments), false, rootExpression, usesIndex || equalFold(name, requiredIndex), leaves + 1,
                   Push(frames, Leaf(name)), requiredIndex, native, equalFold)
  {
    PushKeepsValid(frames, Leaf(name), native);
    FrameNamesPush(frames, Leaf(name));
    UsesSnoc(FrameNames(frames), name, requiredIndex, equalFold);
  }

  lemma TracksClose(
    arguments: seq<nat>, rootExpression: bool, usesIndex: bool, leaves: nat, frames: seq<Frame>,
    requiredIndex: string, native: set<string>, equalFold: (string, string) -> bool
  )
    requires Tracks(arguments, false, rootExpression, usesIndex, leaves, frames, requiredIndex, native, equalFold)
    requires |arguments| > 1 && arguments[|arguments| - 1] >= 2
    ensures Tracks(Bump(arguments[..|arguments| - 1]), false, rootExpression, usesIndex, leaves, Pop(frames),
                   requiredIndex, native, equalFold)
  {
    PopKeepsValid(frames, native);
    FrameNamesPop(frames);
  }

  function Bump(arguments: seq<nat>): seq<nat>
    requires arguments != []
  {
    arguments[|arguments| - 1 := arguments[|arguments| - 1] + 1]
  }

  method FindNameEnd(key: string, position: nat) returns (end: nat)
    requires position <= |key|
    ensures position <= end <= |key| && end - position == NameLength(key[position..])
  {
    end := position;
    while end < |key| && !IsPunctuation(key[end])
      invariant position <= end <= |key|
      invariant forall i :: position <= i < end ==> !IsPunctuation(key[i])
    {
      end := end + 1;
    }
    assert key[position..] == key[position..end] + key[end..];
    NameLengthOf(key[position..end], key[end..]);
  }

  lemma ScanAtEnd(
    frames: seq<Frame>, expectIndex: bool, native: set<string>
  )
    requires frames != [] && !expectIndex && |frames| == 1
    ensures Scan("", frames, expectIndex, native) == Some(frames[0].args)
    ensures FrameNames(frames) == NamesOf(frames[0].args)
  {
    assert frames[..0] == [];
  }

  lemma TracksFacts(
    arguments: seq<nat>, expectIndex: bool, rootExpression: bool, usesIndex: bool, leaves: nat,
    frames: seq<Frame>, requiredIndex: string, native: set<string>, equalFold: (string, string) -> bool
  )
    requires Tracks(arguments, expectIndex, rootExpression, usesIndex, leaves, frames, requiredIndex, native, equalFold)
    ensures arguments != [] && |arguments| == |frames| && arguments[0] == |frames[0].args|
    ensures arguments[|arguments| - 1] == |Top(frames).args| && rootExpression == RootExpression(frames)
    ensures |arguments| > 1 ==> rootExpression
  {
  }

  /** The name at `start`, and what the machine does with it. */
  lemma ScanName(key: string, start: nat, end: nat, frames: seq<Frame>, native: set<string>)
    requires start < |key| && start <= end <= |key| && end - start == NameLength(key[start..])
    requires frames != [] && AllNativeNames(native)
    ensures var name := key[start..end];
            var opens := end < |key| && key[end] == '(';
            var outcome := Scan(key[start..], frames, true, native);
            if end == start then outcome == None
            else if opens then
              outcome == if name !in OPERATORS || (|frames| == 1 && frames[0].args != []) then None
                         else Scan(key[end + 1..], frames + [Frame(name, [])], true, native)
            else
              outcome == if name !in native then None else Scan(key[end..], Push(frames, Leaf(name)), false, native)
  {
    var rest := key[start..];
    assert rest[..end - start] == key[start..end];
    assert rest[end - start..] == key[end..];
    assert end < |key| ==> rest[end - start + 1..] == key[end + 1..];
  }

  /** One turn of the loop where an index name or an operator must start. */
  method TakeName(
    key: string, start: nat, counts: seq<nat>, inExpression: bool, used: bool, count: nat, ghost before: seq<Frame>,
    requiredIndex: string, native: set<string>, equalFold: (string, string) -> bool
  ) returns (ok: bool, position: nat, arguments: seq<nat>, expectIndex: bool, rootExpression: bool, usesIndex: bool,
             leaves: nat, ghost frames: seq<Frame>)
    requires start < |key| && AllNativeNames(native)
    requires Tracks(counts, true, inExpression, used, count, before, requiredIndex, native, equalFold)
    ensures !ok ==> Scan(key[start..], before, true, native) == None
    ensures ok ==> start < position <= |key|
    ensures ok ==> Tracks(arguments, expectIndex, rootExpression, usesIndex, leaves, frames, requiredIndex, native, equalFold)
    ensures ok ==> Scan(key[start..], before, true, native) == Scan(key[position..], frames, expectIndex, native)
  {
    hide *;
    ok, position, arguments, expectIndex := false, start, counts, true;
    rootExpression, usesIndex, leaves, frames := inExpression, used, count, before;
    TracksFacts(counts, true, inExpression, used, count, before, requiredIndex, native, equalFold);
    var end := FindNameEnd(key, start);
    var name := key[start..end];
    ScanName(key, start, end, before, native);
    if end == start {
      return;
    }
    if end < |key| && key[end] == '(' {
      if name !in OPERATORS {
        return;
      }
      if |arguments| == 1 {
        if arguments[0] != 0 {
          return;
        }
        rootExpression := true;
      }
      TracksOpen(counts, inExpression, usesIndex, leaves, frames, name, requiredIndex, native, equalFold);
      arguments := arguments + [0];
      frames := frames + [Frame(name, [])];
      position := end + 1;
    } else {
      if name !in native {
        return;
      }
      TracksLeaf(arguments, rootExpression, usesIndex, leaves, frames, name, requiredIndex, native, equalFold);
      usesIndex := usesIndex || equalFold(name, requiredIndex);
      leaves := leaves + 1;
      arguments := Bump(arguments);
      frames := Push(frames, Leaf(name));
      expectIndex := false;
      position := end;
    }
    ok := true;
  }

  /** One turn of the loop after a complete merge: a comma, a closing bracket, or a failure. */
  method TakePunctuation(
    character: char, counts: seq<nat>, inExpression: bool, used: bool, count: nat, ghost before: seq<Frame>,
    ghost rest: string, requiredIndex: string, native: set<string>, equalFold: (string, string) -> bool
  ) returns (ok: bool, arguments: seq<nat>, expectIndex: bool, ghost frames: seq<Frame>)
    requires rest != "" && rest[0] == character
    requires Tracks(counts, false, inExpression, used, count, before, requiredIndex, native, equalFold)
    ensures !ok ==> Scan(rest, before, false, native) == None
    ensures ok ==> Tracks(arguments, expectIndex, inExpression, used, count, frames, requiredIndex, native, equalFold)
    ensures ok ==> Scan(rest, before, false, native) == Scan(rest[1..], frames, expectIndex, native)
  {
    ok, arguments, expectIndex, frames := false, counts, false, before;
    if character == ',' {
      if |arguments| == 1 && inExpression {
        return;
      }
      expectIndex := true;
    } else if character == ')' {
      if |arguments| == 1 || arguments[|arguments| - 1] < 2 {
        return;
      }
      TracksClose(arguments, inExpression, used, count, frames, requiredIndex, native, equalFold);
      arguments := Bump(arguments[..|arguments| - 1]);
      frames := Pop(frames);
    } else {
      return;
    }
    ok := true;
  }

  /** The explicit-stack loop over the key text: whether some leaf folds to the required index, and the leaf count. */
  method ScanKey(
    key: string, requiredIndex: string, native: set<string>, equalFold: (string, string) -> bool
  ) returns (r: Option<(bool, nat)>)
    requires AllNativeNames(native)
    ensures var plan := Scan(key, EMPTY_ROOT, true, native);
            match plan
            case None => r == None
            case Some(ms) => r == Some((Uses(NamesOf(ms), requiredIndex, equalFold), |NamesOf(ms)|))
  {
    ghost var verdict := Scan(key, EMPTY_ROOT, true, native);
    var arguments: seq<nat> := [0];
    var expectIndex, rootExpression, usesIndex := true, false, false;
    var leaves := 0;
    var position := 0;
    ghost var frames := EMPTY_ROOT;
    assert key[0..] == key;
    assert FrameNames(EMPTY_ROOT) == [] by {
      assert EMPTY_ROOT[..0] == [] && NamesOf([]) == [];
    }
    while position < |key|
      invariant position <= |key|
      invariant Tracks(arguments, expectIndex, rootExpression, usesIndex, leaves, frames, requiredIndex, native, equalFold)
      invariant verdict == Scan(key[position..], frames, expectIndex, native)
      decreases |key| - position
    {
      var ok: bool;
      if expectIndex {
        ok, position, arguments, expectIndex, rootExpression, usesIndex, leaves, frames :=
          TakeName(key, position, arguments, rootExpression, usesIndex, leaves, frames, requiredIndex, native, equalFold);
      } else {
        assert key[position..][1..] == key[position + 1..];
        ok, arguments, expectIndex, frames :=
          TakePunctuation(key[position], arguments, rootExpression, usesIndex, leaves, frames, key[position..],
                          requiredIndex, native, equalFold);
        position := position + 1;
      }
      if !ok {
        return None;
      }
    }
    assert key[position..] == "";
    if expectIndex || |arguments| != 1 {
      return None;
    }
    ScanAtEnd(frames, expectIndex, native);
    r := Some((usesIndex, leaves));
  }

  lemma UsesSnoc(names: seq<string>, name: string, requiredIndex: string, equalFold: (string, string) -> bool)
    ensures Uses(names + [name], requiredIndex, equalFold)
        <==> Uses(names, requiredIndex, equalFold) || equalFold(name, requiredIndex)
  {
    var all := names + [name];
    if equalFold(name, requiredIndex) {
      assert all[|names|] == name;
    }
    if Uses(names, requiredIndex, equalFold) {
      var i :| 0 <= i < |names| && equalFold(names[i], requiredIndex);
      assert all[i] == names[i];
    }
  }
}
