/**
 Validate and Revalidate (internal/queryspec/types.go): a filter tree measured once into Stats, and
 what those Stats are worth when the query is later held against stricter limits.
 */
module QueryLimits {
  import opened Wrappers

  // -------------------------------------------------------------------- query

  datatype Value = Value(kind: string, raw: string)

  /** A filter as decoded; an absent list of values differs from an empty one. */
  datatype Filter = Filter(
    representation: string, kind: string, field: string, operator: string, values: Option<seq<Value>>,
    expressions: seq<Filter>)

  /** The parts of a query that limits speak about; `rest` is what they do not. */
  datatype Spec<!T> = Spec(
    projection: seq<T>, filter: Option<Filter>, groupBy: seq<string>, orderBy: seq<T>, limit: Option<int>,
    offset: Option<int>)

  /** The checks of single fields, which no limit takes part in. */
  datatype Rules<!T> = Rules(structure: Spec<T> -> bool, identifier: string -> bool, binds: Value -> bool)

  datatype Limits = Limits(
    projection: int, groupBy: int, orderBy: int, predicates: int, depth: int, parameters: int, rows: int, offset: int)

  datatype Stats = Stats(predicates: nat, depth: nat, parameters: nat)

  datatype Validated<!T> = Validated(
    projection: seq<T>, filter: Option<Filter>, groupBy: seq<string>, orderBy: seq<T>, limit: int, offset: int, stats: Stats)

  const DEFAULT_LIMIT := 100
  const PROTOCOL_PROJECTION := 100
  const PROTOCOL_GROUP_BY := 100
  const PROTOCOL_ORDER_BY := 100
  const PROTOCOL_ITEMS := 200
  const PROTOCOL_ROWS := 1_000_000
  const PROTOCOL_OFFSET := 1_000_000_000

  function Minimum(a: int, b: int): int {
    if a <= b then a else b
  }

  /** domain.Limits.Min, on the limits a query is held against. */
  function Stricter(a: Limits, b: Limits): Limits {
    Limits(Minimum(a.projection, b.projection), Minimum(a.groupBy, b.groupBy), Minimum(a.orderBy, b.orderBy),
           Minimum(a.predicates, b.predicates), Minimum(a.depth, b.depth), Minimum(a.parameters, b.parameters),
           Minimum(a.rows, b.rows), Minimum(a.offset, b.offset))
  }

  // ------------------------------------------------------------------ filters

  const COMPARISONS := {"eq", "ne", "lt", "lte", "gt", "gte", "like"}
  const MEMBERSHIPS := {"in", "not_in"}
  const NULL_TESTS := {"is_null", "is_not_null"}

  predicate ValidArity(operator: string, n: nat) {
    (operator in COMPARISONS && n == 1) || (operator in MEMBERSHIPS && n >= 1) || (operator in NULL_TESTS && n == 0)
  }

  predicate ValidPredicate<T>(rules: Rules<T>, f: Filter) {
    && |f.expressions| == 0 && rules.identifier(f.field)
    && f.values.Some? && |f.values.value| <= PROTOCOL_ITEMS && ValidArity(f.operator, |f.values.value|)
    && forall i :: 0 <= i < |f.values.value| ==>
         (f.representation == "source_text" ==> f.values.value[i].kind == "string") && rules.binds(f.values.value[i])
  }

  predicate ValidRepresentation(f: Filter) {
    (f.representation == "" || f.representation == "source_text") && (f.kind != "predicate" ==> f.representation == "")
  }

  predicate GroupHead(f: Filter) {
    && f.field == "" && f.values == None && 2 <= |f.expressions| <= PROTOCOL_ITEMS
    && (f.operator == "and" || f.operator == "or")
  }

  /** Everything validateFilter demands of a tree, apart from the limits. */
  predicate ValidFilter<T>(rules: Rules<T>, f: Filter)
    decreases f, 0
  {
    && ValidRepresentation(f)
    && (if f.kind == "predicate" then ValidPredicate(rules, f)
        else f.kind == "group" && GroupHead(f) && ValidFilters(rules, f.expressions))
  }

  predicate ValidFilters<T>(rules: Rules<T>, expressions: seq<Filter>)
    decreases expressions, 1
  {
    expressions != [] ==>
      ValidFilters(rules, expressions[..|expressions| - 1]) && ValidFilter(rules, expressions[|expressions| - 1])
  }

  function ValueCount(f: Filter): nat {
    if f.values.Some? then |f.values.value| else 0
  }

  /** The tree's predicates, levels and values. */
  function Measure(f: Filter): Stats
    decreases f, 0
  {
    if f.kind == "predicate" then Stats(1, 1, ValueCount(f))
    else
      var m := MeasureAll(f.expressions);
      Stats(m.predicates, m.depth + 1, m.parameters)
  }

  function MeasureAll(expressions: seq<Filter>): Stats
    decreases expressions, 1
  {
    if expressions == [] then Stats(0, 0, 0)
    else Both(MeasureAll(expressions[..|expressions| - 1]), Measure(expressions[|expressions| - 1]))
  }

  function Both(a: Stats, b: Stats): Stats {
    Stats(a.predicates + b.predicates, if a.depth >= b.depth then a.depth else b.depth, a.parameters + b.parameters)
  }

  /** The statistics after a tree has been met at some depth. */
  function After(s: Stats, m: Stats, depth: nat): Stats {
    var deepest := if m.depth == 0 then s.depth else depth + m.depth - 1;
    Stats(s.predicates + m.predicates, if s.depth >= deepest then s.depth else deepest, s.parameters + m.parameters)
  }

  /** The limits hold for what has been measured. */
  predicate Within(limits: Limits, s: Stats) {
    s.predicates <= limits.predicates && s.depth <= limits.depth && s.parameters <= limits.parameters
  }

  /** The node stands somewhere in the tree. */
  predicate Holds(f: Filter, node: Filter)
    decreases f
  {
    node == f || exists i :: 0 <= i < |f.expressions| && Holds(f.expressions[i], node)
  }

  predicate SomeHolds(expressions: seq<Filter>, node: Filter) {
    exists i :: 0 <= i < |expressions| && Holds(expressions[i], node)
  }

  /**
   A predicate has an identifier, a known operator, no children and at most 200 values that bind: one for a
   comparison, at least one for a list and none for a null test; source text takes strings. A group has nothing but
   2 to 200 children and "and" or "or".
   */
  predicate SoundNode<T>(rules: Rules<T>, node: Filter) {
    if node.kind == "predicate" then
      && (node.representation == "" || node.representation == "source_text")
      && node.expressions == [] && rules.identifier(node.field) && node.values.Some?
      && var values := node.values.value;
         && (|| (node.operator in {"eq", "ne", "lt", "lte", "gt", "gte", "like"} && |values| == 1)
             || (node.operator in {"in", "not_in"} && 1 <= |values| <= 200)
             || (node.operator in {"is_null", "is_not_null"} && values == []))
         && (forall i :: 0 <= i < |values| ==> rules.binds(values[i]))
         && (node.representation == "source_text" ==> forall i :: 0 <= i < |values| ==> values[i].kind == "string")
    else
      && node.kind == "group" && node.representation == "" && node.field == "" && node.values == None
      && (node.operator == "and" || node.operator == "or") && 2 <= |node.expressions| <= 200
  }

  lemma OnePredicateSound<T>(rules: Rules<T>, f: Filter)
    requires f.kind == "predicate"
    ensures ValidFilter(rules, f) <==> SoundNode(rules, f)
  {
  }

  lemma GroupSound<T>(rules: Rules<T>, f: Filter)
    requires f.kind != "predicate"
    ensures ValidFilter(rules, f) <==> SoundNode(rules, f) && ValidFilters(rules, f.expressions)
  {
    hide ValidFilters;
  }

  /** A tree is valid exactly when each of its nodes is sound. */
  lemma {:induction false} ValidByNode<T>(rules: Rules<T>, f: Filter)
    ensures ValidFilter(rules, f) <==> forall node :: Holds(f, node) ==> SoundNode(rules, node)
    decreases f, 1
  {
    if f.kind == "predicate" {
      OnePredicateSound(rules, f);
      if SoundNode(rules, f) {
        assert f.expressions == [];
      }
      assert Holds(f, f);
    } else {
      GroupSound(rules, f);
      ListValidByNode(rules, f.expressions);
      hide ValidFilter, ValidFilters, SoundNode;
      assert forall node :: Holds(f, node) == (node == f || SomeHolds(f.expressions, node));
    }
  }

  lemma {:induction false} ListValidByNode<T>(rules: Rules<T>, expressions: seq<Filter>)
    ensures ValidFilters(rules, expressions) <==> forall node :: SomeHolds(expressions, node) ==> SoundNode(rules, node)
    decreases expressions, 0, |expressions|
  {
    hide ValidFilter, SoundNode, Holds;
    if expressions != [] {
      var n := |expressions| - 1;
      var init := expressions[..n];
      ListValidByNode(rules, init);
      ValidByNode(rules, expressions[n]);
      forall node ensures SomeHolds(expressions, node) <==> SomeHolds(init, node) || Holds(expressions[n], node) {
        LastHolds(expressions, node);
      }
    }
  }

  lemma LastHolds(expressions: seq<Filter>, node: Filter)
    requires expressions != []
    ensures var n := |expressions| - 1;
            SomeHolds(expressions, node) <==> SomeHolds(expressions[..n], node) || Holds(expressions[n], node)
  {
    hide Holds;
    var n := |expressions| - 1;
    var init := expressions[..n];
    if SomeHolds(init, node) {
      var i :| 0 <= i < |init| && Holds(init[i], node);
      assert Holds(expressions[i], node);
    }
    if SomeHolds(expressions, node) && !Holds(expressions[n], node) {
      var i :| 0 <= i < |expressions| && Holds(expressions[i], node);
      assert Holds(init[i], node);
    }
  }

  /** Some path of n nodes leads down from the root. */
  ghost predicate HasLevel(f: Filter, n: nat)
    decreases f, 0
  {
    n == 1 || (f.kind != "predicate" && n > 1 && SomeHasLevel(f.expressions, n - 1))
  }

  ghost predicate SomeHasLevel(expressions: seq<Filter>, n: nat)
    decreases expressions, 1
  {
    exists i :: 0 <= i < |expressions| && HasLevel(expressions[i], n)
  }

  /** The measured depth is the length of the longest path. */
  lemma {:induction false} DepthIsLongestPath(f: Filter, n: nat)
    requires n >= 1
    ensures HasLevel(f, n) <==> n <= Measure(f).depth
    decreases f, 0
  {
    MeasureDepth(f);
    if f.kind != "predicate" && n > 1 {
      SomeDeepest(f.expressions, n - 1);
    }
  }

  lemma {:induction false} SomeDeepest(expressions: seq<Filter>, n: nat)
    requires n >= 1
    ensures SomeHasLevel(expressions, n) <==> n <= MeasureAll(expressions).depth
    decreases expressions, 1
  {
    hide HasLevel, Measure;
    if expressions != [] {
      var last := |expressions| - 1;
      var others := expressions[..last];
      SomeDeepest(others, n);
      DepthIsLongestPath(expressions[last], n);
      assert forall i :: 0 <= i < last ==> others[i] == expressions[i];
      SomeOrLast(expressions, others, n);
    }
  }

  lemma SomeOrLast(expressions: seq<Filter>, others: seq<Filter>, n: nat)
    requires expressions != [] && others == expressions[..|expressions| - 1]
    ensures SomeHasLevel(expressions, n) <==> SomeHasLevel(others, n) || HasLevel(expressions[|expressions| - 1], n)
  {
    hide HasLevel;
    if SomeHasLevel(others, n) {
      var i :| 0 <= i < |others| && HasLevel(others[i], n);
      assert HasLevel(expressions[i], n);
    }
    if SomeHasLevel(expressions, n) && !HasLevel(expressions[|expressions| - 1], n) {
      var i :| 0 <= i < |expressions| && HasLevel(expressions[i], n);
      assert HasLevel(others[i], n);
    }
  }

  // ---------------------------------------------------------------- validator

  /** The Stats that validateFilter fills in. */
  class StatsRecord {
    var predicates: nat
    var depth: nat
    var parameters: nat

    constructor (parameters: nat)
      ensures Value() == Stats(0, 0, parameters)
    {
      predicates, depth, this.parameters := 0, 0, parameters;
    }

    ghost function Value(): Stats
      reads this
    {
      Stats(predicates, depth, parameters)
    }

    lemma Fields()
      ensures Value() == Stats(predicates, depth, parameters)
    {
    }
  }

  /** What validateFilter decides about a tree: its form, and whether the limits hold after it. */
  ghost predicate Accepts<T>(rules: Rules<T>, limits: Limits, f: Filter, depth: nat, before: Stats, after: Stats, ok: bool) {
    if ok then ValidFilter(rules, f) && after == After(before, Measure(f), depth) && Within(limits, after)
    else !ValidFilter(rules, f) || !Within(limits, After(before, Measure(f), depth))
  }

  ghost predicate AcceptsAll<T>(
    rules: Rules<T>, limits: Limits, expressions: seq<Filter>, depth: nat, before: Stats, after: Stats, ok: bool
  ) {
    if ok then
      ValidFilters(rules, expressions) && after == After(before, MeasureAll(expressions), depth) && Within(limits, after)
    else !ValidFilters(rules, expressions) || !Within(limits, After(before, MeasureAll(expressions), depth))
  }

  /** The levels measured so far are within the limit; at the start there are none. */
  predicate Sane(limits: Limits, s: Stats) {
    s.depth == 0 || s.depth <= limits.depth
  }

  function Deepened(s: Stats, depth: nat): Stats {
    Stats(s.predicates, if s.depth >= depth then s.depth else depth, s.parameters)
  }

  lemma PredicateParts<T>(rules: Rules<T>, limits: Limits, f: Filter, depth: nat, before: Stats)
    requires f.kind == "predicate" && Sane(limits, before) && depth >= 1 && ValidRepresentation(f) && depth <= limits.depth
    ensures var n := ValueCount(f);
            var after := Stats(before.predicates + 1, Deepened(before, depth).depth, before.parameters + n);
            if ValidPredicate(rules, f) && before.predicates < limits.predicates && before.parameters <= limits.parameters - n
            then Accepts(rules, limits, f, depth, before, after, true)
            else forall any :: Accepts(rules, limits, f, depth, before, any, false)
  {
    hide ValidPredicate, ValidRepresentation;
  }

  lemma HeadRejects<T>(rules: Rules<T>, limits: Limits, f: Filter, depth: nat, before: Stats)
    requires !ValidRepresentation(f) || depth > limits.depth
             || (f.kind != "predicate" && (f.kind != "group" || !GroupHead(f)))
    requires depth >= 1
    ensures forall any :: Accepts(rules, limits, f, depth, before, any, false)
  {
    hide ValidPredicate, ValidRepresentation, GroupHead, ValidFilters;
    if depth > limits.depth {
      MeasureDepth(f);
    }
  }

  lemma {:induction false} MeasureDepth(f: Filter)
    ensures Measure(f).depth >= 1
    decreases f, 0
  {
    hide MeasureAll;
  }

  lemma {:induction false} MeasureAllDepth(expressions: seq<Filter>)
    requires expressions != []
    ensures MeasureAll(expressions).depth >= 1
  {
    hide Measure;
    MeasureDepth(expressions[|expressions| - 1]);
  }

  lemma GroupParts<T>(rules: Rules<T>, limits: Limits, f: Filter, depth: nat, before: Stats, after: Stats, ok: bool)
    requires f.kind == "group" && ValidRepresentation(f) && GroupHead(f) && depth >= 1
    requires AcceptsAll(rules, limits, f.expressions, depth + 1, Deepened(before, depth), after, ok)
    ensures Accepts(rules, limits, f, depth, before, after, ok)
  {
    hide ValidFilters, ValidRepresentation, MeasureAll;
    MeasureAllDepth(f.expressions);
  }

  lemma NoExpressions<T>(rules: Rules<T>, limits: Limits, expressions: seq<Filter>, depth: nat, before: Stats)
    ensures ValidFilters(rules, expressions[..0]) && After(before, MeasureAll(expressions[..0]), depth) == before
    ensures expressions[..|expressions|] == expressions
  {
  }

  /** One child more: accepted with the statistics so far, or rejected, and then the whole list is. */
  lemma OneChildMore<T>(
    rules: Rules<T>, limits: Limits, expressions: seq<Filter>, i: nat, depth: nat, before: Stats, middle: Stats,
    after: Stats, ok: bool
  )
    requires i < |expressions| && depth >= 1
    requires ValidFilters(rules, expressions[..i]) && middle == After(before, MeasureAll(expressions[..i]), depth)
    requires Accepts(rules, limits, expressions[i], depth, middle, after, ok)
    ensures ok ==> ValidFilters(rules, expressions[..i + 1]) && after == After(before, MeasureAll(expressions[..i + 1]), depth)
                   && Within(limits, after)
    ensures !ok ==> AcceptsAll(rules, limits, expressions, depth, before, after, false)
  {
    hide ValidFilter, Measure;
    assert expressions[..i + 1][..i] == expressions[..i];
    MeasureDepth(expressions[i]);
    assert ValidFilters(rules, expressions[..i + 1]) == ValidFilter(rules, expressions[i]);
    assert MeasureAll(expressions[..i + 1]) == Both(MeasureAll(expressions[..i]), Measure(expressions[i]));
    hide ValidFilters, MeasureAll;
    if !ok {
      ListRejects(rules, limits, expressions, i + 1, depth, before);
    }
  }

  /** What is invalid or too much in a prefix is so in the whole. */
  lemma {:induction false} ListRejects<T>(
    rules: Rules<T>, limits: Limits, expressions: seq<Filter>, i: nat, depth: nat, before: Stats
  )
    requires i <= |expressions| && depth >= 1
    requires !ValidFilters(rules, expressions[..i]) || !Within(limits, After(before, MeasureAll(expressions[..i]), depth))
    ensures !ValidFilters(rules, expressions) || !Within(limits, After(before, MeasureAll(expressions), depth))
    decreases |expressions|
  {
    hide ValidFilter, Measure;
    if i == |expressions| {
      assert expressions[..i] == expressions;
    } else {
      var n := |expressions| - 1;
      assert expressions[..n][..i] == expressions[..i];
      ListRejects(rules, limits, expressions[..n], i, depth, before);
    }
  }

  /** The value loop of a predicate. */
  method CheckValues<T>(rules: Rules<T>, f: Filter) returns (ok: bool)
    requires f.values.Some?
    ensures ok == forall i :: 0 <= i < |f.values.value| ==>
              (f.representation == "source_text" ==> f.values.value[i].kind == "string") && rules.binds(f.values.value[i])
  {
    for i := 0 to |f.values.value|
      invariant forall j :: 0 <= j < i ==>
                  (f.representation == "source_text" ==> f.values.value[j].kind == "string") && rules.binds(f.values.value[j])
    {
      if f.representation == "source_text" && f.values.value[i].kind != "string" {
        return false;
      }
      if !rules.binds(f.values.value[i]) {
        return false;
      }
    }
    ok := true;
  }

  /** validateFilter's predicate branch. */
  method CheckPredicate<T>(rules: Rules<T>, limits: Limits, f: Filter, stats: StatsRecord) returns (ok: bool)
    requires f.kind == "predicate"
    modifies stats
    ensures ok == (ValidPredicate(rules, f) && old(stats.predicates) < limits.predicates
                   && old(stats.parameters) <= limits.parameters - ValueCount(f))
    ensures ok ==> stats.predicates == old(stats.predicates) + 1 && stats.depth == old(stats.depth)
                   && stats.parameters == old(stats.parameters) + ValueCount(f)
  {
    if |f.expressions| != 0 || !rules.identifier(f.field) || f.values == None {
      return false;
    }
    var n := |f.values.value|;
    if n > PROTOCOL_ITEMS || !ValidArity(f.operator, n) {
      return false;
    }
    if stats.predicates >= limits.predicates || stats.parameters > limits.parameters - n {
      return false;
    }
    stats.predicates := stats.predicates + 1;
    stats.parameters := stats.parameters + n;
    ok := CheckValues(rules, f);
  }

  /** validateFilter, adding to the shared statistics. */
  method ValidateFilter<T>(rules: Rules<T>, limits: Limits, f: Filter, depth: nat, stats: StatsRecord) returns (ok: bool)
    requires depth >= 1 && Sane(limits, stats.Value())
    modifies stats
    ensures Accepts(rules, limits, f, depth, old(stats.Value()), stats.Value(), ok)
    decreases f, 0
  {
    hide *;
    stats.Fields();
    ghost var before := stats.Value();
    var wellRepresented := ValidRepresentation(f);
    if !wellRepresented || depth > limits.depth {
      HeadRejects(rules, limits, f, depth, before);
      return false;
    }
    stats.depth := if stats.depth >= depth then stats.depth else depth;
    stats.Fields();
    DeepenedParts(limits, before, depth);
    if f.kind == "predicate" {
      PredicateParts(rules, limits, f, depth, before);
      ok := CheckPredicate(rules, limits, f, stats);
      stats.Fields();
    } else if f.kind != "group" || !GroupHead(f) {
      HeadRejects(rules, limits, f, depth, before);
      ok := false;
    } else {
      GroupHasChildren(f);
      ok := ValidateAll(rules, limits, f.expressions, depth + 1, stats);
      GroupParts(rules, limits, f, depth, before, stats.Value(), ok);
    }
  }

  lemma GroupHasChildren(f: Filter)
    requires GroupHead(f)
    ensures f.expressions != []
  {
  }

  lemma DeepenedParts(limits: Limits, s: Stats, depth: nat)
    requires depth <= limits.depth && Sane(limits, s)
    ensures Deepened(s, depth) == Stats(s.predicates, if s.depth >= depth then s.depth else depth, s.parameters)
    ensures Sane(limits, Deepened(s, depth))
  {
  }

  /** validateFilter's loop over a group. */
  method ValidateAll<T>(rules: Rules<T>, limits: Limits, expressions: seq<Filter>, depth: nat, stats: StatsRecord)
    returns (ok: bool)
    requires depth >= 1 && Sane(limits, stats.Value()) && expressions != []
    modifies stats
    ensures AcceptsAll(rules, limits, expressions, depth, old(stats.Value()), stats.Value(), ok)
    decreases expressions, 1
  {
    hide *;
    ghost var before := stats.Value();
    NoExpressions(rules, limits, expressions, depth, before);
    for i := 0 to |expressions|
      invariant ValidFilters(rules, expressions[..i])
      invariant stats.Value() == After(before, MeasureAll(expressions[..i]), depth) && Sane(limits, stats.Value())
      invariant i > 0 ==> Within(limits, stats.Value())
    {
      ghost var middle := stats.Value();
      ok := ValidateFilter(rules, limits, expressions[i], depth, stats);
      OneChildMore(rules, limits, expressions, i, depth, before, middle, stats.Value(), ok);
      if !ok {
        return;
      }
      WithinIsSane(limits, stats.Value());
    }
    AllAccepted(rules, limits, expressions, depth, before);
    ok := true;
  }

  lemma WithinIsSane(limits: Limits, s: Stats)
    requires Within(limits, s)
    ensures Sane(limits, s)
  {
  }

  lemma AllAccepted<T>(rules: Rules<T>, limits: Limits, expressions: seq<Filter>, depth: nat, before: Stats)
    requires ValidFilters(rules, expressions) && Within(limits, After(before, MeasureAll(expressions), depth))
    ensures AcceptsAll(rules, limits, expressions, depth, before, After(before, MeasureAll(expressions), depth), true)
  {
    hide ValidFilters, Within, After, MeasureAll;
  }

  // --------------------------------------------------------------- validation

  /** LIMIT and OFFSET are always bound. */
  const BASE := Stats(0, 0, 2)

  function FilterStats(filter: Option<Filter>): Stats {
    if filter == None then BASE else After(BASE, Measure(filter.value), 1)
  }

  function RequestedLimit<T>(spec: Spec<T>): int {
    if spec.limit == None then DEFAULT_LIMIT else spec.limit.value
  }

  function RequestedOffset<T>(spec: Spec<T>): int {
    if spec.offset == None then 0 else spec.offset.value
  }

  /** Valid under every limit that is loose enough. */
  predicate ValidSpec<T>(rules: Rules<T>, spec: Spec<T>) {
    && rules.structure(spec)
    && 1 <= |spec.projection| <= PROTOCOL_PROJECTION && |spec.groupBy| <= PROTOCOL_GROUP_BY && |spec.orderBy| <= PROTOCOL_ORDER_BY
    && (spec.filter.Some? ==> ValidFilter(rules, spec.filter.value))
    && 1 <= RequestedLimit(spec) <= PROTOCOL_ROWS && 0 <= RequestedOffset(spec) <= PROTOCOL_OFFSET
  }

  /** The effective limits admit the query; without a filter only its two parameters count. */
  predicate Fits<T>(limits: Limits, spec: Spec<T>) {
    && |spec.projection| <= limits.projection && |spec.groupBy| <= limits.groupBy && |spec.orderBy| <= limits.orderBy
    && (if spec.filter == None then BASE.parameters <= limits.parameters else Within(limits, FilterStats(spec.filter)))
    && RequestedOffset(spec) <= limits.offset
  }

  function Normalized<T>(limits: Limits, spec: Spec<T>): Validated<T> {
    Validated(spec.projection, spec.filter, spec.groupBy, spec.orderBy, Minimum(RequestedLimit(spec), limits.rows),
              RequestedOffset(spec), FilterStats(spec.filter))
  }

  /** What Validate returns. */
  function ValidatedAs<T>(rules: Rules<T>, limits: Limits, spec: Spec<T>): Option<Validated<T>> {
    if ValidSpec(rules, spec) && Fits(limits, spec) then Some(Normalized(limits, spec)) else None
  }

  lemma AcceptedFilter<T>(rules: Rules<T>, limits: Limits, f: Filter, after: Stats, ok: bool)
    requires Accepts(rules, limits, f, 1, BASE, after, ok)
    ensures ok ==> ValidFilter(rules, f) && after == FilterStats(Some(f)) && Within(limits, after)
    ensures !ok ==> !ValidFilter(rules, f) || !Within(limits, FilterStats(Some(f)))
  {
    hide ValidFilter, Within, After, Measure;
  }

  /** More than the two parameters that every query has, once a filter adds its own. */
  lemma BaseWithin<T>(rules: Rules<T>, limits: Limits, f: Filter)
    requires BASE.parameters > limits.parameters
    ensures !Within(limits, FilterStats(Some(f)))
  {
    hide Measure;
  }

  /** An accepted query: the requested limit or the default one, cut to the row limit, and nothing beyond any limit. */
  ghost predicate Admitted<T>(limits: Limits, spec: Spec<T>, v: Validated<T>) {
    && v.projection == spec.projection && v.filter == spec.filter && v.groupBy == spec.groupBy && v.orderBy == spec.orderBy
    && |v.projection| <= limits.projection && |v.groupBy| <= limits.groupBy && |v.orderBy| <= limits.orderBy
    && v.limit <= limits.rows
    && match spec.limit {
         case None => v.limit == 100 || (v.limit == limits.rows && v.limit < 100)
         case Some(n) => v.limit == n || (v.limit == limits.rows && v.limit < n)
       }
    && v.offset <= limits.offset
    && match spec.offset { case None => v.offset == 0 case Some(n) => v.offset == n }
    && v.stats.parameters <= limits.parameters
    && (spec.filter.Some? ==> v.stats.predicates <= limits.predicates && v.stats.depth <= limits.depth)
  }

  lemma ValidatedIsAdmitted<T>(rules: Rules<T>, limits: Limits, spec: Spec<T>)
    requires ValidatedAs(rules, limits, spec).Some?
    ensures Admitted(limits, spec, ValidatedAs(rules, limits, spec).value)
  {
    hide ValidFilter, Measure, After;
  }

  method Validate<T>(rules: Rules<T>, limits: Limits, spec: Spec<T>) returns (r: Option<Validated<T>>)
    ensures r == ValidatedAs(rules, limits, spec)
    ensures r.Some? ==> Admitted(limits, spec, r.value)
  {
    if ValidatedAs(rules, limits, spec).Some? {
      ValidatedIsAdmitted(rules, limits, spec);
    }
    hide ValidFilter, Within, Measure, After, Accepts, Admitted;
    if |spec.projection| == 0 || |spec.projection| > PROTOCOL_PROJECTION || |spec.projection| > limits.projection {
      return None;
    }
    var stats := new StatsRecord(2);
    if 2 > limits.parameters {
      if spec.filter.Some? {
        BaseWithin(rules, limits, spec.filter.value);
      }
      return None;
    }
    if spec.filter.Some? {
      var ok := ValidateFilter(rules, limits, spec.filter.value, 1, stats);
      AcceptedFilter(rules, limits, spec.filter.value, stats.Value(), ok);
      if !ok {
        return None;
      }
    }
    if |spec.groupBy| > PROTOCOL_GROUP_BY || |spec.groupBy| > limits.groupBy {
      return None;
    }
    if |spec.orderBy| > PROTOCOL_ORDER_BY || |spec.orderBy| > limits.orderBy {
      return None;
    }
    if !rules.structure(spec) {
      return None;
    }
    var limit := DEFAULT_LIMIT;
    if spec.limit.Some? {
      limit := spec.limit.value;
      if limit < 1 || limit > PROTOCOL_ROWS {
        return None;
      }
    }
    if limit > limits.rows {
      limit := limits.rows;
    }
    var offset := 0;
    if spec.offset.Some? {
      offset := spec.offset.value;
      if offset < 0 || offset > PROTOCOL_OFFSET {
        return None;
      }
    }
    if offset > limits.offset {
      return None;
    }
    r := Some(Validated(spec.projection, spec.filter, spec.groupBy, spec.orderBy, limit, offset,
                        Stats(stats.predicates, stats.depth, stats.parameters)));
  }

  // ------------------------------------------------------------- revalidation

  /** What Revalidate returns for a validated query. */
  function RevalidatedAs<T>(limits: Limits, q: Validated<T>): Option<Validated<T>> {
    if |q.projection| <= limits.projection && |q.groupBy| <= limits.groupBy && |q.orderBy| <= limits.orderBy
       && Within(limits, q.stats) && q.offset <= limits.offset && limits.rows >= 1
    then Some(q.(limit := Minimum(q.limit, limits.rows)))
    else None
  }

  method Revalidate<T>(limits: Limits, q: Validated<T>) returns (r: Option<Validated<T>>)
    ensures r == RevalidatedAs(limits, q)
  {
    if |q.projection| > limits.projection {
      return None;
    }
    if |q.groupBy| > limits.groupBy {
      return None;
    }
    if |q.orderBy| > limits.orderBy {
      return None;
    }
    if q.stats.predicates > limits.predicates || q.stats.depth > limits.depth || q.stats.parameters > limits.parameters {
      return None;
    }
    if q.offset > limits.offset {
      return None;
    }
    if limits.rows < 1 {
      return None;
    }
    var limit := q.limit;
    if limit > limits.rows {
      limit := limits.rows;
    }
    r := Some(q.(limit := limit));
  }

  /** The new limits are ones Revalidate accepts at all: a row, and no negative filter limits without a filter. */
  predicate Usable<T>(limits: Limits, spec: Spec<T>) {
    limits.rows >= 1 && (spec.filter == None ==> limits.predicates >= 0 && limits.depth >= 0)
  }

  /**
   Holding a validated query against new limits is the same as validating the original under the
   stricter of both: the stored statistics stand for the whole filter tree. With unusable limits it rejects.
   */
  lemma RevalidationIsValidation<T>(rules: Rules<T>, first: Limits, second: Limits, spec: Spec<T>)
    requires ValidatedAs(rules, first, spec).Some?
    ensures RevalidatedAs(second, ValidatedAs(rules, first, spec).value)
         == if Usable(second, spec) then ValidatedAs(rules, Stricter(first, second), spec) else None
  {
    hide ValidFilter, Measure, After;
  }

  /** Holding a query against the stricter limits accepts it exactly when both limits do. */
  lemma StricterIsBoth<T>(rules: Rules<T>, first: Limits, second: Limits, spec: Spec<T>)
    ensures ValidatedAs(rules, Stricter(first, second), spec).Some?
       <==> ValidatedAs(rules, first, spec).Some? && ValidatedAs(rules, second, spec).Some?
    ensures ValidatedAs(rules, Stricter(first, second), spec).Some? ==>
              var both := ValidatedAs(rules, Stricter(first, second), spec).value;
              both == ValidatedAs(rules, first, spec).value || both == ValidatedAs(rules, second, spec).value
  {
    hide ValidFilter, Measure, After;
  }

  /** The two ways differ exactly for unusable limits under which validation would still accept. */
  lemma WhenTheyDiffer<T>(rules: Rules<T>, first: Limits, second: Limits, spec: Spec<T>)
    requires ValidatedAs(rules, first, spec).Some?
    ensures RevalidatedAs(second, ValidatedAs(rules, first, spec).value) == ValidatedAs(rules, Stricter(first, second), spec)
       <==> Usable(second, spec) || !Fits(Stricter(first, second), spec)
  {
    hide ValidSpec, Fits, Normalized, RevalidatedAs, Usable;
    RevalidationIsValidation(rules, first, second, spec);
  }

  const GENEROUS := Limits(10, 10, 10, 10, 10, 10, 10, 10)

  /** A query without a filter: revalidation rejects a negative predicate limit, which validation never looks at. */
  lemma NegativeLimitDiffers(rules: Rules<string>)
    requires rules.structure(Spec(["id"], None, [], [], None, None))
    ensures var spec: Spec<string> := Spec(["id"], None, [], [], None, None);
            var second := GENEROUS.(predicates := -1);
            && ValidatedAs(rules, GENEROUS, spec).Some?
            && RevalidatedAs(second, ValidatedAs(rules, GENEROUS, spec).value) == None
            && ValidatedAs(rules, Stricter(GENEROUS, second), spec).Some?
  {
  }
}
