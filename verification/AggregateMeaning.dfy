/**
 What the compiled aggregate statement says (internal/adapters/mysql8/aggregate.go), output by output and term by term,
 and what its WHERE clause means once the server has put the positional parameters in: the query's own filter.
 */
module AggregateMeaning {
  import opened Wrappers
  import opened FilterNormalForm
  import opened CompiledFilter
  import opened AggregateShapes
  import opened AggregateStatement
  import NumericBuckets

  // ---------------------------------------------------------------- statement

  /** A column for the output: a bucket of numbers is aggregated, so that it may stand beside its GROUP BY. */
  predicate Shows(o: Output, e: Expression) {
    match o.kind
    case "dimension" => e == Dimension(o.field, o.representation)
    case "time_bucket" => e == TimeBucket(o.field, o.unit)
    case "numeric_bucket" =>
      e.MinimumOf? && e.bucket.NumericBucket? && e.bucket.field == o.field && e.bucket.alias == o.alias
    case _ => e == Expression.Measure(o.function_, o.field)
  }

  /** The expression groups by the output that is shown as the column. */
  predicate GroupsBy(o: Output, column: Expression, e: Expression) {
    if o.kind == "numeric_bucket" then column == MinimumOf(e)
    else (o.kind == "dimension" || o.kind == "time_bucket") && column == e
  }

  /** A bucket is ordered by its own column, a dimension by its field, and anything else by its alias. */
  predicate Sorts(spec: Spec, s: Statement, o: Order, t: Term)
    requires |s.projection| >= |spec.projection|
  {
    t.direction == o.direction &&
    match o.kind
    case "dimension" => t.target == ExpressionTarget(Dimension(o.field, o.representation))
    case "time_bucket" => SortsBucket(spec, s, o.alias, t.target)
    case "numeric_bucket" => SortsBucket(spec, s, o.alias, t.target)
    case _ => t.target == AliasTarget(o.alias)
  }

  predicate SortsBucket(spec: Spec, s: Statement, alias: string, target: Target)
    requires |s.projection| >= |spec.projection|
  {
    exists j :: 0 <= j < |spec.projection| && OwnBucket(spec.projection[j], s.projection[j], alias, target)
  }

  predicate OwnBucket(o: Output, column: Expression, alias: string, target: Target) {
    (o.kind == "time_bucket" || o.kind == "numeric_bucket") && o.alias == alias && target == ExpressionTarget(column)
  }

  /** The statement asks for what the query asks for. */
  ghost predicate Says(spec: Spec, s: Statement) {
    && |s.projection| == |spec.projection|
         + (if exists i :: 0 <= i < |spec.projection| && spec.projection[i].kind == "time_bucket" then 1 else 0)
    && (forall i :: 0 <= i < |spec.projection| ==> Shows(spec.projection[i], s.projection[i]))
    && (forall e :: e in s.groupBy <==>
          exists i :: 0 <= i < |spec.projection| && GroupsBy(spec.projection[i], s.projection[i], e))
    && |s.orderBy| == |spec.orderBy| && (forall i :: 0 <= i < |s.orderBy| ==> Sorts(spec, s, spec.orderBy[i], s.orderBy[i]))
    && s.condition.Some? == spec.filter.Some? && s.limit == (spec.mode == "grouped")
  }

  lemma OutputShows(inputs: Inputs, o: Output)
    ensures Shows(o, ProjectedExpression(inputs, o))
    ensures forall e :: IsDimension(o) && e == GroupExpression(inputs, o) <==> GroupsBy(o, ProjectedExpression(inputs, o), e)
  {
    hide Casts, BoundariesOf;
  }

  lemma {:induction false} GroupsHold(inputs: Inputs, outputs: seq<Output>, e: Expression)
    ensures e in Groups(inputs, outputs) <==>
              exists i :: 0 <= i < |outputs| && GroupsBy(outputs[i], ProjectedExpression(inputs, outputs[i]), e)
  {
    hide GroupsBy, ProjectedExpression, GroupExpression, IsDimension;
    if outputs != [] {
      var n := |outputs| - 1;
      var init := outputs[..n];
      GroupsHold(inputs, init, e);
      OutputShows(inputs, outputs[n]);
      assert forall i :: 0 <= i < n ==> init[i] == outputs[i];
      if exists i :: 0 <= i < n && GroupsBy(init[i], ProjectedExpression(inputs, init[i]), e) {
        var i :| 0 <= i < n && GroupsBy(init[i], ProjectedExpression(inputs, init[i]), e);
        assert GroupsBy(outputs[i], ProjectedExpression(inputs, outputs[i]), e);
      }
    }
  }

  lemma {:induction false} TermsAt(inputs: Inputs, outputs: seq<Output>, orders: seq<Order>, i: nat)
    requires TermsOf(inputs, outputs, orders).Some?
    ensures |TermsOf(inputs, outputs, orders).value| == |orders|
    ensures i < |orders| ==>
              var target := TargetOf(inputs, outputs, orders[i]);
              target.Some? && TermsOf(inputs, outputs, orders).value[i] == Term(target.value, orders[i].direction)
    decreases |orders|
  {
    hide TargetOf;
    if orders != [] {
      TermsAt(inputs, outputs, orders[..|orders| - 1], i);
    }
  }

  lemma {:induction false} BucketForAt(inputs: Inputs, outputs: seq<Output>, alias: string) returns (j: nat)
    requires BucketFor(inputs, outputs, alias).Some?
    ensures j < |outputs| && IsBucket(outputs[j]) && outputs[j].alias == alias
    ensures BucketFor(inputs, outputs, alias).value == ProjectedExpression(inputs, outputs[j])
    decreases |outputs|
  {
    hide IsBucket, ProjectedExpression;
    var n := |outputs| - 1;
    if IsBucket(outputs[n]) && outputs[n].alias == alias {
      j := n;
    } else {
      j := BucketForAt(inputs, outputs[..n], alias);
    }
  }

  lemma TermSorts(inputs: Inputs, spec: Spec, s: Statement, o: Order)
    requires |s.projection| >= |spec.projection| && TargetOf(inputs, spec.projection, o).Some?
    requires forall i :: 0 <= i < |spec.projection| ==> s.projection[i] == ProjectedExpression(inputs, spec.projection[i])
    ensures Sorts(spec, s, o, Term(TargetOf(inputs, spec.projection, o).value, o.direction))
  {
    hide BucketFor, ProjectedExpression;
    if BucketOrder(o) {
      var j := BucketForAt(inputs, spec.projection, o.alias);
      assert OwnBucket(spec.projection[j], s.projection[j], o.alias, TargetOf(inputs, spec.projection, o).value);
    }
  }

  lemma StatementFields(inputs: Inputs, spec: Spec)
    requires TermsOf(inputs, spec.projection, spec.orderBy).Some?
    ensures var s := StatementOf(inputs, spec);
            && s.projection == Projections(inputs, spec.projection) + (if HasTimeBucket(spec.projection) then [NullnessCheck] else [])
            && s.groupBy == Groups(inputs, spec.projection)
            && s.orderBy == TermsOf(inputs, spec.projection, spec.orderBy).value
            && s.condition == (if spec.filter == None then None else Some(ConditionOf(spec.filter.value)))
            && s.limit == (spec.mode == "grouped")
  {
    hide Projections, Groups, TermsOf, ConditionOf, HasTimeBucket;
  }

  /** Whatever compiles is written as a statement that asks for exactly that. */
  lemma StatementSays(inputs: Inputs, spec: Spec)
    requires Compiles(inputs, spec)
    ensures Says(spec, StatementOf(inputs, spec))
  {
    var s, outputs := StatementOf(inputs, spec), spec.projection;
    assert TermsOf(inputs, outputs, spec.orderBy).Some?;
    assert HasTimeBucket(outputs) == exists i :: 0 <= i < |outputs| && outputs[i].kind == "time_bucket";
    hide *;
    StatementFields(inputs, spec);
    ProjectionsEnd(inputs, outputs);
    forall i | 0 <= i < |outputs|
      ensures s.projection[i] == ProjectedExpression(inputs, outputs[i]) && Shows(outputs[i], s.projection[i])
    {
      ProjectionsAt(inputs, outputs, i);
      OutputShows(inputs, outputs[i]);
    }
    forall e ensures e in s.groupBy <==> exists i :: 0 <= i < |outputs| && GroupsBy(outputs[i], s.projection[i], e) {
      GroupsHold(inputs, outputs, e);
    }
    TermsAt(inputs, outputs, spec.orderBy, 0);
    forall i | 0 <= i < |s.orderBy| ensures Sorts(spec, s, spec.orderBy[i], s.orderBy[i]) {
      TermsAt(inputs, outputs, spec.orderBy, i);
      TermSorts(inputs, spec, s, spec.orderBy[i]);
    }
    SaysBy(spec, s);
  }

  lemma {:induction false} ProjectionsEnd(inputs: Inputs, outputs: seq<Output>)
    ensures |Projections(inputs, outputs)| == |outputs|
  {
    hide ProjectedExpression;
    if outputs != [] {
      ProjectionsEnd(inputs, outputs[..|outputs| - 1]);
    }
  }

  lemma SaysBy(spec: Spec, s: Statement)
    requires |s.projection| == |spec.projection|
               + (if exists i :: 0 <= i < |spec.projection| && spec.projection[i].kind == "time_bucket" then 1 else 0)
    requires forall i :: 0 <= i < |spec.projection| ==> Shows(spec.projection[i], s.projection[i])
    requires forall e :: e in s.groupBy <==>
               exists i :: 0 <= i < |spec.projection| && GroupsBy(spec.projection[i], s.projection[i], e)
    requires |s.orderBy| == |spec.orderBy| && forall i :: 0 <= i < |s.orderBy| ==> Sorts(spec, s, spec.orderBy[i], s.orderBy[i])
    requires s.condition.Some? == spec.filter.Some? && s.limit == (spec.mode == "grouped")
    ensures Says(spec, s)
  {
    hide Shows, GroupsBy, Sorts;
  }

  /** A bucket of numbers needs 1 to 64 configured boundaries with casts; a bucket of time a known unit of UTC. */
  predicate Accepted(inputs: Inputs, o: Output) {
    && (o.kind == "numeric_bucket" ==>
          && o.alias in inputs.boundaries
          && var boundaries := inputs.boundaries[o.alias];
             1 <= |boundaries| <= 64 && forall i :: 0 <= i < |boundaries| ==> NumericBuckets.Cast(boundaries[i]).Some?)
    && (o.kind == "time_bucket" ==> o.timezone == "UTC" && o.unit in {"hour", "day", "week", "month"})
  }

  /** Ordering by a bucket needs an output that is a bucket of that name. */
  predicate Orderable(outputs: seq<Output>, o: Order) {
    o.kind == "time_bucket" || o.kind == "numeric_bucket" ==>
      exists j :: 0 <= j < |outputs| && NamedBucket(outputs[j], o.alias)
  }

  predicate NamedBucket(o: Output, alias: string) {
    (o.kind == "time_bucket" || o.kind == "numeric_bucket") && o.alias == alias
  }

  lemma {:induction false} BucketForExists(inputs: Inputs, outputs: seq<Output>, alias: string)
    ensures BucketFor(inputs, outputs, alias).Some? <==> exists j :: 0 <= j < |outputs| && NamedBucket(outputs[j], alias)
    decreases |outputs|
  {
    hide ProjectedExpression;
    if outputs != [] {
      var n := |outputs| - 1;
      var init := outputs[..n];
      BucketForExists(inputs, init, alias);
      assert forall i :: 0 <= i < n ==> init[i] == outputs[i];
      if exists j :: 0 <= j < n && NamedBucket(init[j], alias) {
        var j :| 0 <= j < n && NamedBucket(init[j], alias);
        assert NamedBucket(outputs[j], alias);
      }
      assert NamedBucket(outputs[n], alias) == (IsBucket(outputs[n]) && outputs[n].alias == alias);
    }
  }

  lemma TargetExists(inputs: Inputs, outputs: seq<Output>, o: Order)
    ensures TargetOf(inputs, outputs, o).Some? <==> Orderable(outputs, o)
  {
    hide BucketFor, NamedBucket;
    BucketForExists(inputs, outputs, o.alias);
  }

  lemma {:induction false} TermsExist(inputs: Inputs, outputs: seq<Output>, orders: seq<Order>)
    ensures TermsOf(inputs, outputs, orders).Some? <==> forall i :: 0 <= i < |orders| ==> Orderable(outputs, orders[i])
    decreases |orders|
  {
    hide TargetOf, Orderable;
    if orders != [] {
      var n := |orders| - 1;
      var init := orders[..n];
      TermsExist(inputs, outputs, init);
      TargetExists(inputs, outputs, orders[n]);
      assert forall i :: 0 <= i < n ==> init[i] == orders[i];
    }
  }

  lemma OutputAccepted(inputs: Inputs, o: Output)
    ensures OutputCompiles(inputs, o) <==> Accepted(inputs, o)
  {
    hide NumericBuckets.Cast;
  }

  /** Which queries compile. */
  lemma CompilingDecided(inputs: Inputs, spec: Spec)
    ensures Compiles(inputs, spec) <==>
              && (forall i :: 0 <= i < |spec.projection| ==> Accepted(inputs, spec.projection[i]))
              && (forall i :: 0 <= i < |spec.orderBy| ==> Orderable(spec.projection, spec.orderBy[i]))
              && (spec.filter.Some? ==> FilterCompiles(BinderOf(inputs.x), spec.filter.value))
  {
    hide OutputCompiles, Accepted, Orderable, TermsOf, FilterCompiles, BinderOf;
    TermsExist(inputs, spec.projection, spec.orderBy);
    forall i | 0 <= i < |spec.projection|
      ensures OutputCompiles(inputs, spec.projection[i]) <==> Accepted(inputs, spec.projection[i])
    {
      OutputAccepted(inputs, spec.projection[i]);
    }
  }

  // -------------------------------------------------------------------- WHERE

  function Values(parameters: seq<Option<Bound>>): Option<seq<Bound>> {
    if parameters == [] then Some([])
    else
      var init, last := Values(parameters[..|parameters| - 1]), parameters[|parameters| - 1];
      if init == None || last == None then None else Some(init.value + [last.value])
  }

  /** The server's comparison in a row: of the parameters it was given, and unknown without one. */
  function ComparingIn(row: Row): Comparing<Bound> {
    (field, representation, operator, parameters) =>
      var values := Values(parameters);
      if values == None then Unknown else row(field, representation, operator, values.value)
  }

  lemma {:induction false} ValuesAreBound(x: Schema, field: string, representation: string, values: seq<TypedValue>)
    ensures Values(Bindings(BinderOf(x), field, representation, values)) == BindAll(x, values)
  {
    var parameters := Bindings(BinderOf(x), field, representation, values);
    if values != [] {
      var n := |values| - 1;
      ValuesAreBound(x, field, representation, values[..n]);
      assert parameters[..n] == Bindings(BinderOf(x), field, representation, values[..n]);
      assert parameters[n] == x.bind(values[n]);
    }
  }

  /** The two meanings of a filter agree. */
  lemma {:induction false} MeaningIsEvaluation(x: Schema, row: Row, f: Filter)
    ensures Meaning(BinderOf(x), ComparingIn(row), f) == FilterNormalForm.Evaluate(x, row, f)
    decreases f, 1
  {
    match f {
      case Predicate(field, representation, operator, values) =>
        ValuesAreBound(x, field, representation, values);
      case Group(operator, expressions) =>
        hide MeaningAll, EvaluateAll, Combine;
        MeaningsAreEvaluations(x, row, expressions);
    }
  }

  lemma {:induction false} MeaningsAreEvaluations(x: Schema, row: Row, expressions: seq<Filter>)
    ensures MeaningAll(BinderOf(x), ComparingIn(row), expressions) == EvaluateAll(x, row, expressions)
    decreases expressions, 0, |expressions|
  {
    hide Meaning, FilterNormalForm.Evaluate, BinderOf, ComparingIn;
    if expressions != [] {
      var n := |expressions| - 1;
      MeaningsAreEvaluations(x, row, expressions[..n]);
      MeaningIsEvaluation(x, row, expressions[n]);
    }
  }

  /** The parameters of the WHERE clause: those of its own placeholders, behind the projection's. */
  function WhereArgs(s: Statement, args: seq<Bound>): (part: seq<Bound>)
    requires s.condition.Some? && |args| == |Holes(s)|
    ensures |part| == |ConditionHoles(s.condition.value)|
  {
    HolesOfStatement(s);
    var at := |ListHoles(s.projection)|;
    args[at..at + |FilterHoles(s.condition.value)|]
  }

  lemma WhereFilled(inputs: Inputs, s: Statement, args: seq<Bound>)
    requires s.condition.Some? && AggregateStatement.Filled(inputs, args, Holes(s))
    ensures |args| == |Holes(s)|
    ensures CompiledFilter.Filled(BinderOf(inputs.x), WhereArgs(s, args), ConditionHoles(s.condition.value))
  {
    hide *;
    AggregateStatement.SameLengths(inputs, args, Holes(s));
    WhereAt(s, args);
    var at, part, holes := |ListHoles(s.projection)|, WhereArgs(s, args), ConditionHoles(s.condition.value);
    forall k | 0 <= k < |part| ensures CompiledFilter.Wanted(BinderOf(inputs.x), holes[k]) == Some(part[k]) {
      var j := at + k;
      HoleAt(s, args, k);
      FilledAt(inputs, args, Holes(s), j);
      FilterWanted(inputs, holes[k]);
    }
    FilledBy(BinderOf(inputs.x), part, holes);
  }

  lemma FilterWanted(inputs: Inputs, hole: OperandHole)
    ensures AggregateStatement.Wanted(inputs, FilterHole(hole)) == CompiledFilter.Wanted(BinderOf(inputs.x), hole)
  {
    hide CompiledFilter.Wanted, BinderOf;
  }

  lemma FilledBy<B>(binder: Binder<B>, args: seq<B>, holes: seq<OperandHole>)
    requires |args| == |holes| && forall k :: 0 <= k < |args| ==> CompiledFilter.Wanted(binder, holes[k]) == Some(args[k])
    ensures CompiledFilter.Filled(binder, args, holes)
  {
    hide CompiledFilter.Wanted;
  }

  lemma WhereAt(s: Statement, args: seq<Bound>)
    requires s.condition.Some? && |args| == |Holes(s)|
    ensures |WhereArgs(s, args)| == |ConditionHoles(s.condition.value)|
    ensures |ListHoles(s.projection)| + |WhereArgs(s, args)| <= |args|
    ensures forall k :: 0 <= k < |WhereArgs(s, args)| ==> WhereArgs(s, args)[k] == args[|ListHoles(s.projection)| + k]
  {
    hide Holes, ListHoles, ConditionHoles;
    HolesOfStatement(s);
  }

  lemma HoleAt(s: Statement, args: seq<Bound>, k: nat)
    requires s.condition.Some? && |args| == |Holes(s)| && k < |ConditionHoles(s.condition.value)|
    ensures var j := |ListHoles(s.projection)| + k;
            j < |Holes(s)| && Holes(s)[j] == FilterHole(ConditionHoles(s.condition.value)[k])
  {
    hide Holes, ListHoles, ConditionHoles, TermsHoles;
    HolesOfStatement(s);
  }

  /** For each row the compiled WHERE clause with its parameters is what the query's filter means. */
  lemma WhereMeansFilter(inputs: Inputs, spec: Spec, args: seq<Bound>, row: Row)
    requires Compiles(inputs, spec) && spec.filter.Some? && ValidArities(spec.filter.value)
    requires AggregateStatement.Filled(inputs, args, Holes(StatementOf(inputs, spec)))
    ensures var s := StatementOf(inputs, spec);
            && |args| == |Holes(s)| && s.condition.Some?
            && EvaluateCondition(ComparingIn(row), s.condition.value, WhereArgs(s, args))
               == FilterNormalForm.Evaluate(inputs.x, row, spec.filter.value)
  {
    assert TermsOf(inputs, spec.projection, spec.orderBy).Some?;
    hide *;
    var s := StatementOf(inputs, spec);
    StatementFields(inputs, spec);
    WhereFilled(inputs, s, args);
    CompiledFilterMeans(BinderOf(inputs.x), ComparingIn(row), spec.filter.value, WhereArgs(s, args));
    MeaningIsEvaluation(inputs.x, row, spec.filter.value);
  }

  /** And so is the WHERE clause compiled for the filter's normal form, which is what the server gets. */
  lemma WhereMeansRequestedFilter(inputs: Inputs, spec: Spec, requested: Filter, args: seq<Bound>, row: Row)
    requires FieldsResolve(inputs.x, row) && Normalize(inputs.x, requested).Some?
    requires spec.filter == Some(Normalize(inputs.x, requested).value.filter) && ValidArities(spec.filter.value)
    requires Compiles(inputs, spec) && AggregateStatement.Filled(inputs, args, Holes(StatementOf(inputs, spec)))
    ensures var s := StatementOf(inputs, spec);
            && |args| == |Holes(s)| && s.condition.Some?
            && EvaluateCondition(ComparingIn(row), s.condition.value, WhereArgs(s, args))
               == FilterNormalForm.Evaluate(inputs.x, row, requested)
  {
    hide *;
    WhereMeansFilter(inputs, spec, args, row);
    NormalFormMeansTheSame(inputs.x, row, requested);
  }
}
