/**
 The recursion that compileAggregateFilter and compileKeysetFilter share (internal/adapters/mysql8): the condition
 a filter is written as, its placeholders in textual order, and the parameters that go with them. The compilers
 differ in how an operand binds, so that is a parameter.
 */
module CompiledFilter {
  import opened Wrappers
  import opened FilterNormalForm

  /** An operand and what it is compared with. */
  datatype Operand = Operand(field: string, representation: string, value: TypedValue)

  /** Whether a field's column is known, and the parameter an operand binds to when it has a placeholder there. */
  datatype Binder<B> = Binder(known: string -> bool, bind: Operand -> Option<B>)

  datatype Condition =
    | Comparison(field: string, representation: string, operator: string, operands: seq<Operand>)
    | Combination(operator: string, parts: seq<Condition>)

  // ------------------------------------------------------------- placeholders

  datatype OperandHole = OperandHole(operand: Operand) | UnfilledHole

  predicate NullTest(operator: string) {
    operator == "is_null" || operator == "is_not_null"
  }

  predicate Membership(operator: string) {
    operator == "in" || operator == "not_in"
  }

  function OperandHoles(operands: seq<Operand>): (holes: seq<OperandHole>)
    ensures |holes| == |operands|
  {
    seq(|operands|, i requires 0 <= i < |operands| => OperandHole(operands[i]))
  }

  /** A list for a membership test, nothing for a null test, and otherwise one placeholder, whatever the operands. */
  function WrittenHoles(operator: string, operands: seq<Operand>): seq<OperandHole> {
    if NullTest(operator) then []
    else if Membership(operator) then OperandHoles(operands)
    else [if operands == [] then UnfilledHole else OperandHole(operands[0])]
  }

  function ConditionHoles(c: Condition): seq<OperandHole>
    decreases c, 0
  {
    match c
    case Comparison(_, _, operator, operands) => WrittenHoles(operator, operands)
    case Combination(_, parts) => PartsHoles(parts)
  }

  function PartsHoles(parts: seq<Condition>): seq<OperandHole>
    decreases parts, 1
  {
    if parts == [] then [] else PartsHoles(parts[..|parts| - 1]) + ConditionHoles(parts[|parts| - 1])
  }

  /** What belongs into a placeholder. */
  function Wanted<B>(binder: Binder<B>, hole: OperandHole): Option<B> {
    match hole
    case OperandHole(operand) => binder.bind(operand)
    case UnfilledHole => None
  }

  /** One parameter for every placeholder, and at each position the one it stands for. */
  predicate Filled<B(==)>(binder: Binder<B>, args: seq<B>, holes: seq<OperandHole>) {
    |args| == |holes| && forall k :: 0 <= k < |holes| ==> Wanted(binder, holes[k]) == Some(args[k])
  }

  lemma FilledConcat<B>(binder: Binder<B>, a: seq<B>, h: seq<OperandHole>, b: seq<B>, g: seq<OperandHole>)
    requires Filled(binder, a, h) && Filled(binder, b, g)
    ensures Filled(binder, a + b, h + g)
  {
    hide Wanted;
    forall k | 0 <= k < |h + g| ensures Wanted(binder, (h + g)[k]) == Some((a + b)[k]) {
      if k < |h| {
        assert Wanted(binder, h[k]) == Some(a[k]);
      } else {
        assert Wanted(binder, g[k - |h|]) == Some(b[k - |h|]);
      }
    }
  }

  // ------------------------------------------------------------------- filter

  const OPERATORS := {"eq", "ne", "lt", "lte", "gt", "gte", "like", "in", "not_in", "is_null", "is_not_null"}

  const SOURCE_TEXT := "source_text"

  /** What compileSourceTextFilter demands of its operands beside their binding. */
  predicate SourceTextOperands(operator: string, operands: seq<Operand>) {
    && (forall i :: 0 <= i < |operands| ==> operands[i].value.kind == "string")
    && (NullTest(operator) || Membership(operator) || |operands| == 1)
  }

  function Operands(field: string, representation: string, operator: string, values: seq<TypedValue>): (operands: seq<Operand>)
    ensures |operands| == if NullTest(operator) then 0 else |values|
  {
    if NullTest(operator) then []
    else seq(|values|, i requires 0 <= i < |values| => Operand(field, representation, values[i]))
  }

  /** The condition a filter is written as. */
  function ConditionOf(f: Filter): Condition
    decreases f, 0
  {
    match f
    case Predicate(field, representation, operator, values) =>
      Comparison(field, representation, operator, Operands(field, representation, operator, values))
    case Group(operator, expressions) => Combination(operator, ConditionsOf(expressions))
  }

  function ConditionsOf(expressions: seq<Filter>): seq<Condition>
    decreases expressions, 1
  {
    if expressions == [] then []
    else ConditionsOf(expressions[..|expressions| - 1]) + [ConditionOf(expressions[|expressions| - 1])]
  }

  /** The parameters of all operands, when all of them bind. */
  function BindOperands<B>(binder: Binder<B>, operands: seq<Operand>): Option<seq<B>> {
    if operands == [] then Some([])
    else
      var init, last := BindOperands(binder, operands[..|operands| - 1]), binder.bind(operands[|operands| - 1]);
      if init == None || last == None then None else Some(init.value + [last.value])
  }

  /** Comparing with values needs the field's column, except for source text. */
  predicate ColumnKnown<B>(binder: Binder<B>, field: string, representation: string, operator: string) {
    NullTest(operator) || representation == SOURCE_TEXT || binder.known(field)
  }

  /** Every operator is known, every compared column is known and every operand binds. */
  predicate FilterCompiles<B>(binder: Binder<B>, f: Filter)
    decreases f, 0
  {
    match f
    case Predicate(field, representation, operator, values) =>
      var operands := Operands(field, representation, operator, values);
      && operator in OPERATORS && ColumnKnown(binder, field, representation, operator)
      && BindOperands(binder, operands).Some?
      && (representation == SOURCE_TEXT ==> SourceTextOperands(operator, operands))
    case Group(_, expressions) => FiltersCompile(binder, expressions)
  }

  predicate FiltersCompile<B>(binder: Binder<B>, expressions: seq<Filter>)
    decreases expressions, 1
  {
    expressions != [] ==>
      FiltersCompile(binder, expressions[..|expressions| - 1]) && FilterCompiles(binder, expressions[|expressions| - 1])
  }

  /** The predicate stands somewhere in the filter. */
  predicate Within(f: Filter, p: Filter)
    decreases f
  {
    match f
    case Predicate(_, _, _, _) => p == f
    case Group(_, expressions) => exists i :: 0 <= i < |expressions| && Within(expressions[i], p)
  }

  predicate WithinSome(expressions: seq<Filter>, p: Filter) {
    exists i :: 0 <= i < |expressions| && Within(expressions[i], p)
  }

  /**
   A null test needs no column and no values. Any other known operator needs its column, unless it compares source
   text, and each of its values must bind; source text takes strings, and one of them outside of a list.
   */
  predicate PredicateCompiles<B>(binder: Binder<B>, p: Filter)
    requires p.Predicate?
  {
    p.operator in {"is_null", "is_not_null"} ||
    (&& p.operator in {"eq", "ne", "lt", "lte", "gt", "gte", "like", "in", "not_in"}
     && (p.representation == "source_text" || binder.known(p.field))
     && (forall i :: 0 <= i < |p.values| ==> binder.bind(Operand(p.field, p.representation, p.values[i])).Some?)
     && (p.representation == "source_text" ==>
           && (forall i :: 0 <= i < |p.values| ==> p.values[i].kind == "string")
           && (p.operator in {"in", "not_in"} || |p.values| == 1)))
  }

  lemma {:induction false} OperandsBind<B>(binder: Binder<B>, operands: seq<Operand>)
    ensures BindOperands(binder, operands).Some? <==> forall i :: 0 <= i < |operands| ==> binder.bind(operands[i]).Some?
  {
    if operands != [] {
      var init := operands[..|operands| - 1];
      OperandsBind(binder, init);
      assert forall i :: 0 <= i < |init| ==> init[i] == operands[i];
    }
  }

  lemma OnePredicateCompiles<B>(binder: Binder<B>, p: Filter)
    requires p.Predicate?
    ensures FilterCompiles(binder, p) <==> PredicateCompiles(binder, p)
  {
    hide BindOperands;
    var operands := Operands(p.field, p.representation, p.operator, p.values);
    OperandsBind(binder, operands);
    if !NullTest(p.operator) {
      assert forall i :: 0 <= i < |p.values| ==> operands[i] == Operand(p.field, p.representation, p.values[i]);
    }
  }

  /** A filter compiles exactly when each of its predicates does. */
  lemma {:induction false} CompilesByPredicate<B>(binder: Binder<B>, f: Filter)
    ensures FilterCompiles(binder, f) <==> forall p :: Within(f, p) ==> p.Predicate? && PredicateCompiles(binder, p)
    decreases f, 1
  {
    if f.Predicate? {
      OnePredicateCompiles(binder, f);
    } else {
      hide PredicateCompiles, FiltersCompile;
      ListCompiles(binder, f.expressions);
      assert forall p :: Within(f, p) == WithinSome(f.expressions, p);
    }
  }

  lemma {:induction false} ListCompiles<B>(binder: Binder<B>, expressions: seq<Filter>)
    ensures FiltersCompile(binder, expressions)
       <==> forall p :: WithinSome(expressions, p) ==> p.Predicate? && PredicateCompiles(binder, p)
    decreases expressions, 0, |expressions|
  {
    hide PredicateCompiles, Within, FilterCompiles;
    if expressions != [] {
      var n := |expressions| - 1;
      var init := expressions[..n];
      ListCompiles(binder, init);
      CompilesByPredicate(binder, expressions[n]);
      assert forall i :: 0 <= i < n ==> init[i] == expressions[i];
      forall p ensures WithinSome(expressions, p) <==> WithinSome(init, p) || Within(expressions[n], p) {
        LastWithin(expressions, p);
      }
    }
  }

  lemma LastWithin(expressions: seq<Filter>, p: Filter)
    requires expressions != []
    ensures var n := |expressions| - 1;
            WithinSome(expressions, p) <==> WithinSome(expressions[..n], p) || Within(expressions[n], p)
  {
    hide Within;
    var n := |expressions| - 1;
    var init := expressions[..n];
    if WithinSome(init, p) {
      var i :| 0 <= i < |init| && Within(init[i], p);
      assert Within(expressions[i], p);
    }
    if WithinSome(expressions, p) && !Within(expressions[n], p) {
      var i :| 0 <= i < |expressions| && Within(expressions[i], p);
      assert Within(init[i], p);
    }
  }

  /** Every operator has as many values as validation admits. */
  predicate ValidArities(f: Filter)
    decreases f, 0
  {
    match f
    case Predicate(_, _, operator, values) =>
      if operator in {"is_null", "is_not_null"} then values == [] else operator in {"in", "not_in"} || |values| == 1
    case Group(_, expressions) => AllValidArities(expressions)
  }

  predicate AllValidArities(expressions: seq<Filter>)
    decreases expressions, 1
  {
    forall i :: 0 <= i < |expressions| ==> ValidArities(expressions[i])
  }

  lemma ArityAt(expressions: seq<Filter>, i: nat)
    requires i < |expressions|
    ensures AllValidArities(expressions) ==> ValidArities(expressions[i])
  {
    hide ValidArities;
  }

  /** With a valid arity the written placeholders are one for each operand. */
  lemma OneHoleEach(field: string, representation: string, operator: string, values: seq<TypedValue>)
    requires if NullTest(operator) then values == [] else Membership(operator) || |values| == 1
    ensures var operands := Operands(field, representation, operator, values);
            WrittenHoles(operator, operands) == OperandHoles(operands) && |operands| == |values|
  {
  }

  lemma {:induction false} BoundsFill<B>(binder: Binder<B>, operands: seq<Operand>)
    requires BindOperands(binder, operands).Some?
    ensures Filled(binder, BindOperands(binder, operands).value, OperandHoles(operands))
  {
    if operands != [] {
      var n := |operands| - 1;
      BoundsFill(binder, operands[..n]);
      var holes := OperandHoles(operands);
      assert holes == OperandHoles(operands[..n]) + [OperandHole(operands[n])];
    }
  }

  /** The compiler: the condition, and the parameters of its placeholders. */
  method CompileFilter<B>(binder: Binder<B>, f: Filter) returns (r: Option<(Condition, seq<B>)>)
    ensures r.Some? == FilterCompiles(binder, f)
    ensures r.Some? ==> r.value.0 == ConditionOf(f)
    ensures r.Some? && ValidArities(f) ==> Filled(binder, r.value.1, ConditionHoles(ConditionOf(f)))
    decreases f, 1
  {
    match f {
      case Predicate(field, representation, operator, values) =>
        hide BindOperands, Filled, Operands;
        if operator !in OPERATORS || !ColumnKnown(binder, field, representation, operator) {
          return None;
        }
        var operands := Operands(field, representation, operator, values);
        var args := BindValues(binder, operands);
        if args == None {
          return None;
        }
        if representation == SOURCE_TEXT && !SourceTextOperands(operator, operands) {
          return None;
        }
        BoundsFill(binder, operands);
        if ValidArities(f) {
          OneHoleEach(field, representation, operator, values);
        }
        r := Some((Comparison(field, representation, operator, operands), args.value));
      case Group(operator, expressions) =>
        hide Filled, FiltersCompile, ConditionsOf, PartsHoles, AllValidArities;
        var parts := CompileParts(binder, expressions);
        if parts == None {
          return None;
        }
        r := Some((Combination(operator, parts.value.0), parts.value.1));
    }
  }

  /** The value loop. */
  method BindValues<B>(binder: Binder<B>, operands: seq<Operand>) returns (r: Option<seq<B>>)
    ensures r == BindOperands(binder, operands)
  {
    hide *;
    var args: seq<B> := [];
    OperandsStart(binder, operands);
    for i := 0 to |operands|
      invariant BindOperands(binder, operands[..i]) == Some(args)
    {
      OperandsStep(binder, operands, i);
      var bound := binder.bind(operands[i]);
      if bound == None {
        return None;
      }
      args := args + [bound.value];
    }
    r := Some(args);
  }

  lemma OperandsStart<B>(binder: Binder<B>, operands: seq<Operand>)
    ensures BindOperands(binder, operands[..0]) == Some([]) && operands[..|operands|] == operands
  {
  }

  lemma OperandsStep<B>(binder: Binder<B>, operands: seq<Operand>, i: nat)
    requires i < |operands| && BindOperands(binder, operands[..i]).Some?
    ensures BindOperands(binder, operands[..i + 1]) ==
              if binder.bind(operands[i]) == None then None
              else Some(BindOperands(binder, operands[..i]).value + [binder.bind(operands[i]).value])
    ensures binder.bind(operands[i]) == None ==> BindOperands(binder, operands) == None
  {
    assert operands[..i + 1][..i] == operands[..i];
    if binder.bind(operands[i]) == None {
      OneOperandFails(binder, operands, i + 1);
    }
  }

  lemma {:induction false} OneOperandFails<B>(binder: Binder<B>, operands: seq<Operand>, i: nat)
    requires i <= |operands| && BindOperands(binder, operands[..i]) == None
    ensures BindOperands(binder, operands) == None
    decreases |operands|
  {
    if i == |operands| {
      assert operands[..i] == operands;
    } else {
      var n := |operands| - 1;
      assert operands[..n][..i] == operands[..i];
      OneOperandFails(binder, operands[..n], i);
    }
  }

  /** The loop over a group's expressions. */
  method CompileParts<B>(binder: Binder<B>, expressions: seq<Filter>) returns (r: Option<(seq<Condition>, seq<B>)>)
    ensures r.Some? == FiltersCompile(binder, expressions)
    ensures r.Some? ==> r.value.0 == ConditionsOf(expressions)
    ensures r.Some? && AllValidArities(expressions) ==> Filled(binder, r.value.1, PartsHoles(ConditionsOf(expressions)))
    decreases expressions, 0
  {
    hide *;
    var parts: seq<Condition>, args: seq<B> := [], [];
    PartsStart(binder, expressions);
    for i := 0 to |expressions|
      invariant FiltersCompile(binder, expressions[..i]) && parts == ConditionsOf(expressions[..i])
      invariant AllValidArities(expressions) ==> Filled(binder, args, PartsHoles(parts))
    {
      PartsStep(binder, expressions, i);
      ArityAt(expressions, i);
      var part := CompileFilter(binder, expressions[i]);
      if part == None {
        return None;
      }
      if AllValidArities(expressions) {
        FilledConcat(binder, args, PartsHoles(parts), part.value.1, ConditionHoles(part.value.0));
      }
      parts := parts + [part.value.0];
      args := args + part.value.1;
    }
    r := Some((parts, args));
  }

  lemma PartsStart<B>(binder: Binder<B>, expressions: seq<Filter>)
    ensures FiltersCompile(binder, expressions[..0]) && ConditionsOf(expressions[..0]) == []
    ensures Filled(binder, [], PartsHoles([])) && expressions[..|expressions|] == expressions
  {
  }

  lemma PartsStep<B>(binder: Binder<B>, expressions: seq<Filter>, i: nat)
    requires i < |expressions| && FiltersCompile(binder, expressions[..i])
    ensures FiltersCompile(binder, expressions[..i + 1]) == FilterCompiles(binder, expressions[i])
    ensures !FilterCompiles(binder, expressions[i]) ==> !FiltersCompile(binder, expressions)
    ensures ConditionsOf(expressions[..i + 1]) == ConditionsOf(expressions[..i]) + [ConditionOf(expressions[i])]
    ensures PartsHoles(ConditionsOf(expressions[..i]) + [ConditionOf(expressions[i])])
         == PartsHoles(ConditionsOf(expressions[..i])) + ConditionHoles(ConditionOf(expressions[i]))
  {
    hide FilterCompiles, ConditionHoles, ConditionOf;
    assert expressions[..i + 1][..i] == expressions[..i];
    var parts := ConditionsOf(expressions[..i]) + [ConditionOf(expressions[i])];
    assert parts[..|parts| - 1] == ConditionsOf(expressions[..i]);
    if !FilterCompiles(binder, expressions[i]) {
      OnePartFails(binder, expressions, i + 1);
    }
  }

  lemma {:induction false} OnePartFails<B>(binder: Binder<B>, expressions: seq<Filter>, i: nat)
    requires i <= |expressions| && !FiltersCompile(binder, expressions[..i])
    ensures !FiltersCompile(binder, expressions)
    decreases |expressions|
  {
    hide FilterCompiles;
    if i == |expressions| {
      assert expressions[..i] == expressions;
    } else {
      var n := |expressions| - 1;
      assert expressions[..n][..i] == expressions[..i];
      OnePartFails(binder, expressions[..n], i);
    }
  }

  // ----------------------------------------------------------------- filling

  predicate AllWanted<B>(binder: Binder<B>, holes: seq<OperandHole>) {
    forall k :: 0 <= k < |holes| ==> Wanted(binder, holes[k]).Some?
  }

  /** Every placeholder of a filter that compiles has its parameter. */
  lemma {:induction false} FilterFills<B>(binder: Binder<B>, f: Filter)
    requires FilterCompiles(binder, f) && ValidArities(f)
    ensures AllWanted(binder, ConditionHoles(ConditionOf(f)))
    decreases f, 1
  {
    if f.Group? {
      hide FiltersCompile, PartsHoles, ConditionsOf, AllValidArities, AllWanted;
      PartsFill(binder, f.expressions);
    } else {
      hide BindOperands, Operands, Wanted;
      var operands := Operands(f.field, f.representation, f.operator, f.values);
      OneHoleEach(f.field, f.representation, f.operator, f.values);
      BoundsFill(binder, operands);
    }
  }

  lemma {:induction false} PartsFill<B>(binder: Binder<B>, expressions: seq<Filter>)
    requires FiltersCompile(binder, expressions) && AllValidArities(expressions)
    ensures AllWanted(binder, PartsHoles(ConditionsOf(expressions)))
    decreases expressions, 0, |expressions|
  {
    hide ConditionHoles, ConditionOf, FilterCompiles, ValidArities, Wanted;
    if expressions != [] {
      var n := |expressions| - 1;
      PartsFill(binder, expressions[..n]);
      FilterFills(binder, expressions[n]);
      var parts := ConditionsOf(expressions);
      assert parts[..|parts| - 1] == ConditionsOf(expressions[..n]);
    }
  }

  // ----------------------------------------------------------------- meaning

  /** What the server computes for one comparison in a row, from field, representation, operator and parameters. */
  type Comparing<!B> = (string, string, string, seq<Option<B>>) -> Truth

  /** What each value binds to where it is compared. */
  function Bindings<B>(binder: Binder<B>, field: string, representation: string, values: seq<TypedValue>): (p: seq<Option<B>>)
    ensures |p| == |values|
  {
    seq(|values|, i requires 0 <= i < |values| => binder.bind(Operand(field, representation, values[i])))
  }

  /** The filter's three-valued meaning: each predicate compares with what its own values bind to, in their order. */
  function Meaning<B>(binder: Binder<B>, row: Comparing<B>, f: Filter): Truth
    decreases f, 0
  {
    match f
    case Predicate(field, representation, operator, values) =>
      row(field, representation, operator, Bindings(binder, field, representation, values))
    case Group(operator, expressions) => Combine(operator, MeaningAll(binder, row, expressions))
  }

  function MeaningAll<B>(binder: Binder<B>, row: Comparing<B>, expressions: seq<Filter>): set<Truth>
    decreases expressions, 1
  {
    if expressions == [] then {}
    else
      MeaningAll(binder, row, expressions[..|expressions| - 1])
      + {Meaning(binder, row, expressions[|expressions| - 1])}
  }

  function Parameters<B>(args: seq<B>): (p: seq<Option<B>>)
    ensures |p| == |args|
  {
    seq(|args|, i requires 0 <= i < |args| => Some(args[i]))
  }

  /** The server's evaluation of a condition, which takes one parameter for each of its placeholders. */
  function EvaluateCondition<B>(row: Comparing<B>, c: Condition, args: seq<B>): Truth
    requires |args| == |ConditionHoles(c)|
    decreases c, 0
  {
    match c
    case Comparison(field, representation, operator, operands) => row(field, representation, operator, Parameters(args))
    case Combination(operator, parts) => Combine(operator, EvaluateParts(row, parts, args))
  }

  /** The parts take their parameters in textual order. */
  function EvaluateParts<B>(row: Comparing<B>, parts: seq<Condition>, args: seq<B>): set<Truth>
    requires |args| == |PartsHoles(parts)|
    decreases parts, 1
  {
    if parts == [] then {}
    else
      var init, last := parts[..|parts| - 1], parts[|parts| - 1];
      var n := |PartsHoles(init)|;
      EvaluateParts(row, init, args[..n]) + {EvaluateCondition(row, last, args[n..])}
  }

  lemma FilledSplit<B>(binder: Binder<B>, args: seq<B>, a: seq<OperandHole>, b: seq<OperandHole>)
    requires Filled(binder, args, a + b)
    ensures |a| <= |args| && Filled(binder, args[..|a|], a) && Filled(binder, args[|a|..], b)
  {
    hide Wanted;
    var both, first, second := a + b, args[..|a|], args[|a|..];
    forall k | 0 <= k < |a| ensures Wanted(binder, a[k]) == Some(first[k]) {
      assert both[k] == a[k] && first[k] == args[k];
    }
    forall k | 0 <= k < |b| ensures Wanted(binder, b[k]) == Some(second[k]) {
      var j := |a| + k;
      assert both[j] == b[k] && second[k] == args[j];
    }
  }

  /** The condition written for a filter, evaluated with its positional parameters, means what the filter means. */
  lemma {:induction false} CompiledFilterMeans<B>(binder: Binder<B>, row: Comparing<B>, f: Filter, args: seq<B>)
    requires ValidArities(f) && Filled(binder, args, ConditionHoles(ConditionOf(f)))
    ensures EvaluateCondition(row, ConditionOf(f), args) == Meaning(binder, row, f)
    decreases f, 1
  {
    match f {
      case Predicate(field, representation, operator, values) =>
        OperandsMean(binder, args, f);
      case Group(operator, expressions) =>
        hide MeaningAll, EvaluateParts, PartsHoles, ConditionsOf, AllValidArities, Filled, Combine;
        PartsMean(binder, row, expressions, args);
    }
  }

  lemma OperandsMean<B>(binder: Binder<B>, args: seq<B>, f: Filter)
    requires f.Predicate? && ValidArities(f) && Filled(binder, args, ConditionHoles(ConditionOf(f)))
    ensures ConditionOf(f) ==
              Comparison(f.field, f.representation, f.operator, Operands(f.field, f.representation, f.operator, f.values))
    ensures Parameters(args) == Bindings(binder, f.field, f.representation, f.values)
  {
    var operands := Operands(f.field, f.representation, f.operator, f.values);
    OneHoleEach(f.field, f.representation, f.operator, f.values);
    var holes := OperandHoles(operands);
    assert ConditionHoles(ConditionOf(f)) == holes;
    hide ConditionHoles, ConditionOf, WrittenHoles;
    forall i | 0 <= i < |f.values|
      ensures i < |args| && binder.bind(Operand(f.field, f.representation, f.values[i])) == Some(args[i])
    {
      assert holes[i] == OperandHole(Operand(f.field, f.representation, f.values[i]));
      assert Wanted(binder, holes[i]) == Some(args[i]);
    }
  }

  lemma {:induction false} PartsMean<B>(binder: Binder<B>, row: Comparing<B>, expressions: seq<Filter>, args: seq<B>)
    requires AllValidArities(expressions) && Filled(binder, args, PartsHoles(ConditionsOf(expressions)))
    ensures EvaluateParts(row, ConditionsOf(expressions), args) == MeaningAll(binder, row, expressions)
    decreases expressions, 0, |expressions|
  {
    hide ConditionHoles, ConditionOf, Meaning, EvaluateCondition, ValidArities, Wanted;
    if expressions != [] {
      var n := |expressions| - 1;
      var parts := ConditionsOf(expressions);
      assert parts[..|parts| - 1] == ConditionsOf(expressions[..n]);
      var before := PartsHoles(ConditionsOf(expressions[..n]));
      FilledSplit(binder, args, before, ConditionHoles(ConditionOf(expressions[n])));
      PartsMean(binder, row, expressions[..n], args[..|before|]);
      CompiledFilterMeans(binder, row, expressions[n], args[|before|..]);
    }
  }

  // ------------------------------------------------------------------- counts

  /** The filter's values, as validation counts them. */
  function FilterParameters(f: Filter): nat
    decreases f, 0
  {
    match f
    case Predicate(_, _, _, values) => |values|
    case Group(_, expressions) => AllParameters(expressions)
  }

  function AllParameters(expressions: seq<Filter>): nat
    decreases expressions, 1
  {
    if expressions == [] then 0
    else AllParameters(expressions[..|expressions| - 1]) + FilterParameters(expressions[|expressions| - 1])
  }

  /** A filter is written with as many placeholders as validation has counted values. */
  lemma {:induction false} FilterHolesCount(f: Filter)
    requires ValidArities(f)
    ensures |ConditionHoles(ConditionOf(f))| == FilterParameters(f)
    decreases f, 1
  {
    if f.Group? {
      hide AllParameters, PartsHoles, ConditionsOf, AllValidArities;
      PartsHolesCount(f.expressions);
    } else {
      OneHoleEach(f.field, f.representation, f.operator, f.values);
    }
  }

  lemma {:induction false} PartsHolesCount(expressions: seq<Filter>)
    requires AllValidArities(expressions)
    ensures |PartsHoles(ConditionsOf(expressions))| == AllParameters(expressions)
    decreases expressions, 0, |expressions|
  {
    hide ConditionHoles, ConditionOf, FilterParameters, ValidArities;
    if expressions != [] {
      var n := |expressions| - 1;
      PartsHolesCount(expressions[..n]);
      FilterHolesCount(expressions[n]);
      var parts := ConditionsOf(expressions);
      assert parts[..|parts| - 1] == ConditionsOf(expressions[..n]);
    }
  }
}
