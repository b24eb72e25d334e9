/**
 compileAggregate (internal/adapters/mysql8/aggregate.go): the statement as the expressions it writes,
 its placeholders in textual order, and the parameters bound to them; and NumericBucketParameters
 (internal/queryspec/numeric_bucket.go), which counts them beforehand.
 */
module AggregateStatement {
  import opened Wrappers
  import opened FilterNormalForm
  import opened CompiledFilter
  import opened AggregateShapes
  import NumericBuckets

  // --------------------------------------------------------------- statements

  /** A placeholder, named by what it stands for. */
  datatype Hole = BucketHole(alias: string, index: nat) | FilterHole(hole: OperandHole) | LimitHole

  datatype Expression =
    | Dimension(field: string, representation: string)
    | TimeBucket(field: string, unit: string)
    | NumericBucket(field: string, alias: string, casts: seq<(nat, nat)>)
    | MinimumOf(bucket: Expression)
    | Measure(function_: string, field: string)
    | NullnessCheck

  datatype Target = AliasTarget(alias: string) | ExpressionTarget(expression: Expression)

  datatype Term = Term(target: Target, direction: string)

  datatype Statement = Statement(
    projection: seq<Expression>, condition: Option<Condition>, groupBy: seq<Expression>, orderBy: seq<Term>, limit: bool)

  // ------------------------------------------------------------- placeholders

  /** CASE WHEN c IS NULL THEN NULL, then one placeholder a WHEN. */
  function ExpressionHoles(e: Expression): seq<Hole> {
    match e
    case NumericBucket(_, alias, casts) => BucketHoles(alias, |casts|)
    case MinimumOf(bucket) => ExpressionHoles(bucket)
    case _ => []
  }

  function BucketHoles(alias: string, n: nat): (holes: seq<Hole>)
    ensures |holes| == n
  {
    seq(n, i requires 0 <= i < n => BucketHole(alias, i))
  }

  function ListHoles(list: seq<Expression>): seq<Hole> {
    if list == [] then [] else ListHoles(list[..|list| - 1]) + ExpressionHoles(list[|list| - 1])
  }

  function FilterHoles(c: Condition): (holes: seq<Hole>)
    ensures |holes| == |ConditionHoles(c)|
  {
    var holes := ConditionHoles(c);
    seq(|holes|, i requires 0 <= i < |holes| => FilterHole(holes[i]))
  }

  function TermHoles(t: Term): seq<Hole> {
    if t.target.ExpressionTarget? then ExpressionHoles(t.target.expression) else []
  }

  function TermsHoles(terms: seq<Term>): seq<Hole> {
    if terms == [] then [] else TermsHoles(terms[..|terms| - 1]) + TermHoles(terms[|terms| - 1])
  }

  /** All placeholders, in the order in which the statement's text shows them. */
  function Holes(s: Statement): seq<Hole> {
    ListHoles(s.projection) + (if s.condition == None then [] else FilterHoles(s.condition.value))
    + ListHoles(s.groupBy) + TermsHoles(s.orderBy) + (if s.limit then [LimitHole] else [])
  }

  /** The configured boundaries by alias, the row limit, and how typed values bind. */
  datatype Inputs = Inputs(boundaries: map<string, seq<string>>, limit: int, x: Schema)

  /** Each operand binds by its own kind; the columns play no part. */
  function BinderOf(x: Schema): Binder<Bound> {
    Binder(_ => true, (operand: Operand) => x.bind(operand.value))
  }

  function BoundariesOf(inputs: Inputs, alias: string): seq<string> {
    if alias in inputs.boundaries then inputs.boundaries[alias] else []
  }

  /** What belongs into a placeholder. */
  function Wanted(inputs: Inputs, hole: Hole): Option<Bound> {
    match hole
    case BucketHole(alias, index) =>
      if index < |BoundariesOf(inputs, alias)| then Some(StringBound(BoundariesOf(inputs, alias)[index])) else None
    case FilterHole(hole) => CompiledFilter.Wanted(BinderOf(inputs.x), hole)
    case LimitHole => Some(IntBound(inputs.limit + 1))
  }

  /** One parameter for every placeholder, and at each position the one it stands for. */
  predicate Filled(inputs: Inputs, args: seq<Bound>, holes: seq<Hole>) {
    |args| == |holes| && forall k :: 0 <= k < |holes| ==> Wanted(inputs, holes[k]) == Some(args[k])
  }

  lemma FilledConcat(inputs: Inputs, a: seq<Bound>, h: seq<Hole>, b: seq<Bound>, g: seq<Hole>)
    requires Filled(inputs, a, h) && Filled(inputs, b, g)
    ensures Filled(inputs, a + b, h + g)
  {
    hide Wanted;
    forall k | 0 <= k < |h + g| ensures Wanted(inputs, (h + g)[k]) == Some((a + b)[k]) {
      if k < |h| {
        assert Wanted(inputs, h[k]) == Some(a[k]);
      } else {
        assert Wanted(inputs, g[k - |h|]) == Some(b[k - |h|]);
      }
    }
  }

  lemma NothingFilled(inputs: Inputs)
    ensures Filled(inputs, [], [])
  {
  }

  // ------------------------------------------------------------------ buckets

  predicate IsBucket(o: Output) {
    o.kind == "time_bucket" || o.kind == "numeric_bucket"
  }

  predicate IsDimension(o: Output) {
    o.kind == "dimension" || IsBucket(o)
  }

  /** compileNumericBucketExpression accepts the boundaries. */
  predicate BucketCompiles(boundaries: seq<string>) {
    && 1 <= |boundaries| <= NumericBuckets.MAX_BOUNDARIES
    && forall i :: 0 <= i < |boundaries| ==> NumericBuckets.Cast(boundaries[i]).Some?
  }

  function Casts(boundaries: seq<string>): (casts: seq<(nat, nat)>)
    ensures |casts| == |boundaries|
  {
    seq(|boundaries|, i requires 0 <= i < |boundaries| =>
      if NumericBuckets.Cast(boundaries[i]).Some? then NumericBuckets.Cast(boundaries[i]).value else (0, 0))
  }

  function StringBounds(boundaries: seq<string>): (args: seq<Bound>)
    ensures |args| == |boundaries|
  {
    seq(|boundaries|, i requires 0 <= i < |boundaries| => StringBound(boundaries[i]))
  }

  method CompileBucket(field: string, alias: string, boundaries: seq<string>) returns (r: Option<(Expression, seq<Bound>)>)
    ensures r == if BucketCompiles(boundaries) then Some((NumericBucket(field, alias, Casts(boundaries)), StringBounds(boundaries)))
                 else None
  {
    hide NumericBuckets.Cast;
    if |boundaries| < 1 || |boundaries| > NumericBuckets.MAX_BOUNDARIES {
      return None;
    }
    var casts: seq<(nat, nat)>, args: seq<Bound> := [], [];
    for i := 0 to |boundaries|
      invariant |casts| == |args| == i
      invariant forall j :: 0 <= j < i ==>
                  NumericBuckets.Cast(boundaries[j]) == Some(casts[j]) && args[j] == StringBound(boundaries[j])
    {
      var cast := NumericBuckets.Cast(boundaries[i]);
      if cast == None {
        return None;
      }
      casts := casts + [cast.value];
      args := args + [StringBound(boundaries[i])];
    }
    assert casts == Casts(boundaries) && args == StringBounds(boundaries);
    r := Some((NumericBucket(field, alias, casts), args));
  }

  lemma BucketFilled(inputs: Inputs, field: string, alias: string)
    ensures var boundaries := BoundariesOf(inputs, alias);
            Filled(inputs, StringBounds(boundaries), ExpressionHoles(NumericBucket(field, alias, Casts(boundaries))))
  {
    hide NumericBuckets.Cast;
  }

  lemma FilterFilled(inputs: Inputs, args: seq<Bound>, c: Condition)
    requires CompiledFilter.Filled(BinderOf(inputs.x), args, ConditionHoles(c))
    ensures Filled(inputs, args, FilterHoles(c))
  {
    hide ConditionHoles, CompiledFilter.Wanted, BinderOf;
    var holes := ConditionHoles(c);
    forall k | 0 <= k < |holes| ensures Wanted(inputs, FilterHoles(c)[k]) == Some(args[k]) {
      assert FilterHoles(c)[k] == FilterHole(holes[k]);
      assert CompiledFilter.Wanted(BinderOf(inputs.x), holes[k]) == Some(args[k]);
    }
  }

  // ------------------------------------------------------- projected statement

  function BucketOf(inputs: Inputs, o: Output): Expression {
    NumericBucket(o.field, o.alias, Casts(BoundariesOf(inputs, o.alias)))
  }

  /** What GROUP BY repeats for a dimension. */
  function GroupExpression(inputs: Inputs, o: Output): Expression {
    if o.kind == "numeric_bucket" then BucketOf(inputs, o)
    else if o.kind == "time_bucket" then TimeBucket(o.field, o.unit)
    else Dimension(o.field, o.representation)
  }

  /** What is projected, and repeated by ORDER BY for a bucket; MIN keeps a bucket's index in its group. */
  function ProjectedExpression(inputs: Inputs, o: Output): Expression {
    if o.kind == "numeric_bucket" then MinimumOf(BucketOf(inputs, o))
    else if IsDimension(o) then GroupExpression(inputs, o)
    else Measure(o.function_, o.field)
  }

  function Projections(inputs: Inputs, outputs: seq<Output>): seq<Expression> {
    if outputs == [] then []
    else Projections(inputs, outputs[..|outputs| - 1]) + [ProjectedExpression(inputs, outputs[|outputs| - 1])]
  }

  function Groups(inputs: Inputs, outputs: seq<Output>): seq<Expression> {
    if outputs == [] then []
    else
      Groups(inputs, outputs[..|outputs| - 1])
      + (if IsDimension(outputs[|outputs| - 1]) then [GroupExpression(inputs, outputs[|outputs| - 1])] else [])
  }

  /** The bucket output with an alias. */
  function BucketFor(inputs: Inputs, outputs: seq<Output>, alias: string): Option<Expression> {
    if outputs == [] then None
    else if IsBucket(outputs[|outputs| - 1]) && outputs[|outputs| - 1].alias == alias then
      Some(ProjectedExpression(inputs, outputs[|outputs| - 1]))
    else BucketFor(inputs, outputs[..|outputs| - 1], alias)
  }

  predicate BucketOrder(o: Order) {
    o.kind == "time_bucket" || o.kind == "numeric_bucket"
  }

  function TargetOf(inputs: Inputs, outputs: seq<Output>, o: Order): Option<Target> {
    if o.kind == "dimension" then Some(ExpressionTarget(Dimension(o.field, o.representation)))
    else if BucketOrder(o) then
      (var e := BucketFor(inputs, outputs, o.alias); if e == None then None else Some(ExpressionTarget(e.value)))
    else Some(AliasTarget(o.alias))
  }

  function TermsOf(inputs: Inputs, outputs: seq<Output>, orders: seq<Order>): Option<seq<Term>> {
    if orders == [] then Some([])
    else
      var n := |orders| - 1;
      var before, target := TermsOf(inputs, outputs, orders[..n]), TargetOf(inputs, outputs, orders[n]);
      if before == None || target == None then None else Some(before.value + [Term(target.value, orders[n].direction)])
  }

  const UNITS := {"hour", "day", "week", "month"}

  predicate OutputCompiles(inputs: Inputs, o: Output) {
    && (o.kind == "numeric_bucket" ==> BucketCompiles(BoundariesOf(inputs, o.alias)))
    && (o.kind == "time_bucket" ==> o.timezone == "UTC" && o.unit in UNITS)
  }

  predicate OutputsCompile(inputs: Inputs, outputs: seq<Output>) {
    forall i :: 0 <= i < |outputs| ==> OutputCompiles(inputs, outputs[i])
  }

  /** Exactly what compileAggregate needs in order to return a statement. */
  predicate Compiles(inputs: Inputs, spec: Spec) {
    && OutputsCompile(inputs, spec.projection) && (spec.filter.Some? ==> FilterCompiles(BinderOf(inputs.x), spec.filter.value))
    && TermsOf(inputs, spec.projection, spec.orderBy).Some?
  }

  predicate HasTimeBucket(outputs: seq<Output>) {
    exists i :: 0 <= i < |outputs| && outputs[i].kind == "time_bucket"
  }

  /** The statement written for a query. */
  function StatementOf(inputs: Inputs, spec: Spec): Statement {
    var terms := TermsOf(inputs, spec.projection, spec.orderBy);
    Statement(
      Projections(inputs, spec.projection) + (if HasTimeBucket(spec.projection) then [NullnessCheck] else []),
      if spec.filter == None then None else Some(ConditionOf(spec.filter.value)),
      Groups(inputs, spec.projection), if terms == None then [] else terms.value, spec.mode == "grouped")
  }

  /** What validation guarantees about names: buckets have names of their own, and other orders do not use them. */
  predicate NamesApart(inputs: Inputs, spec: Spec) {
    && (forall i, j :: 0 <= i < j < |spec.projection| && IsBucket(spec.projection[i]) && IsBucket(spec.projection[j]) ==>
          spec.projection[i].alias != spec.projection[j].alias)
    && (forall i :: 0 <= i < |spec.orderBy| && !BucketOrder(spec.orderBy[i]) ==>
          BucketFor(inputs, spec.projection, spec.orderBy[i].alias) == None)
  }

  // ----------------------------------------------------------------- compiler

  /** The compiler's maps: each bucket's expression, and the parameters that go with its placeholders. */
  datatype Buckets = Buckets(expressions: map<string, Expression>, args: map<string, seq<Bound>>)

  function ArgsOf(buckets: Buckets, alias: string): seq<Bound> {
    if alias in buckets.args then buckets.args[alias] else []
  }

  /** The maps know the bucket of an alias, with the parameters of its placeholders, and nothing else under it. */
  predicate BucketHolds(inputs: Inputs, outputs: seq<Output>, buckets: Buckets, alias: string) {
    var e := BucketFor(inputs, outputs, alias);
    && (alias in buckets.expressions <==> e.Some?) && (alias in buckets.args ==> e.Some?)
    && (e.Some? ==>
          buckets.expressions[alias] == e.value && Filled(inputs, ArgsOf(buckets, alias), ExpressionHoles(e.value)))
  }

  ghost predicate BucketsHold(inputs: Inputs, outputs: seq<Output>, buckets: Buckets) {
    forall alias :: BucketHolds(inputs, outputs, buckets, alias)
  }

  lemma {:induction false} BucketIsNew(inputs: Inputs, outputs: seq<Output>, i: nat, n: nat)
    requires n <= i < |outputs| && IsBucket(outputs[i])
    requires forall a, b :: 0 <= a < b < |outputs| && IsBucket(outputs[a]) && IsBucket(outputs[b]) ==>
               outputs[a].alias != outputs[b].alias
    ensures BucketFor(inputs, outputs[..n], outputs[i].alias) == None
    decreases n
  {
    hide ProjectedExpression, IsBucket;
    if n > 0 {
      BucketIsNew(inputs, outputs, i, n - 1);
      assert outputs[..n][..n - 1] == outputs[..n - 1];
    }
  }

  lemma OutputStep(inputs: Inputs, outputs: seq<Output>, i: nat)
    requires i < |outputs|
    ensures Projections(inputs, outputs[..i + 1]) == Projections(inputs, outputs[..i]) + [ProjectedExpression(inputs, outputs[i])]
    ensures Groups(inputs, outputs[..i + 1])
         == if IsDimension(outputs[i]) then Groups(inputs, outputs[..i]) + [GroupExpression(inputs, outputs[i])]
            else Groups(inputs, outputs[..i])
  {
    hide ProjectedExpression, GroupExpression, IsDimension;
    assert outputs[..i + 1][..i] == outputs[..i];
  }

  lemma BucketForStep(inputs: Inputs, outputs: seq<Output>, i: nat, alias: string)
    requires i < |outputs|
    ensures BucketFor(inputs, outputs[..i + 1], alias) ==
              if IsBucket(outputs[i]) && outputs[i].alias == alias then Some(ProjectedExpression(inputs, outputs[i]))
              else BucketFor(inputs, outputs[..i], alias)
  {
    hide ProjectedExpression, IsBucket;
    assert outputs[..i + 1][..i] == outputs[..i];
  }

  lemma OutputStart(inputs: Inputs, outputs: seq<Output>)
    ensures Projections(inputs, outputs[..0]) == [] && Groups(inputs, outputs[..0]) == []
    ensures BucketsHold(inputs, outputs[..0], Buckets(map[], map[])) && ListHoles([]) == []
    ensures outputs[..|outputs|] == outputs
  {
  }

  lemma ListEnd(list: seq<Expression>, e: Expression)
    ensures ListHoles(list + [e]) == ListHoles(list) + ExpressionHoles(e)
  {
    hide ExpressionHoles;
    assert (list + [e])[..|list + [e]| - 1] == list;
  }

  /** The parameters an output brings with it. */
  function OutputArgs(inputs: Inputs, o: Output): seq<Bound> {
    if o.kind == "numeric_bucket" then StringBounds(BoundariesOf(inputs, o.alias)) else []
  }

  lemma OutputFilled(inputs: Inputs, o: Output)
    ensures Filled(inputs, OutputArgs(inputs, o), ExpressionHoles(ProjectedExpression(inputs, o)))
    ensures IsDimension(o) ==> Filled(inputs, OutputArgs(inputs, o), ExpressionHoles(GroupExpression(inputs, o)))
    ensures o.kind != "numeric_bucket" ==> OutputArgs(inputs, o) == []
    ensures !IsDimension(o) ==> OutputArgs(inputs, o) == []
  {
    hide Filled, StringBounds, Casts;
    BucketFilled(inputs, o.field, o.alias);
    NothingFilled(inputs);
  }

  /** The maps after one more bucket. */
  lemma BucketsMore(inputs: Inputs, outputs: seq<Output>, i: nat, buckets: Buckets, next: Buckets)
    requires i < |outputs| && BucketsHold(inputs, outputs[..i], buckets)
    requires IsBucket(outputs[i]) ==> BucketFor(inputs, outputs[..i], outputs[i].alias) == None
    requires next == if !IsBucket(outputs[i]) then buckets
                     else Buckets(
                       buckets.expressions[outputs[i].alias := ProjectedExpression(inputs, outputs[i])],
                       if outputs[i].kind == "numeric_bucket" then
                         buckets.args[outputs[i].alias := OutputArgs(inputs, outputs[i])]
                       else buckets.args)
    ensures BucketsHold(inputs, outputs[..i + 1], next)
  {
    hide Filled, ProjectedExpression, OutputArgs, BucketFor, ExpressionHoles, GroupExpression, IsBucket, BucketHolds;
    var longer := outputs[..i + 1];
    forall alias ensures BucketHolds(inputs, longer, next, alias) {
      OneBucketMore(inputs, outputs, i, buckets, next, alias);
    }
  }

  lemma OneBucketMore(inputs: Inputs, outputs: seq<Output>, i: nat, buckets: Buckets, next: Buckets, alias: string)
    requires i < |outputs| && BucketHolds(inputs, outputs[..i], buckets, alias)
    requires IsBucket(outputs[i]) ==> BucketFor(inputs, outputs[..i], outputs[i].alias) == None
    requires next == if !IsBucket(outputs[i]) then buckets
                     else Buckets(
                       buckets.expressions[outputs[i].alias := ProjectedExpression(inputs, outputs[i])],
                       if outputs[i].kind == "numeric_bucket" then
                         buckets.args[outputs[i].alias := OutputArgs(inputs, outputs[i])]
                       else buckets.args)
    ensures BucketHolds(inputs, outputs[..i + 1], next, alias)
  {
    hide Filled, ProjectedExpression, OutputArgs, BucketFor, ExpressionHoles, GroupExpression, IsBucket;
    BucketForStep(inputs, outputs, i, alias);
    OutputFilled(inputs, outputs[i]);
  }

  /** The projection loop's results. */
  datatype Projected = Projected(
    projection: seq<Expression>, dimensions: seq<Expression>, projectionArgs: seq<Bound>, groupArgs: seq<Bound>,
    buckets: Buckets)

  ghost predicate ProjectionHolds(inputs: Inputs, outputs: seq<Output>, p: Projected) {
    && p.projection == Projections(inputs, outputs) && p.dimensions == Groups(inputs, outputs)
    && Filled(inputs, p.projectionArgs, ListHoles(p.projection)) && Filled(inputs, p.groupArgs, ListHoles(p.dimensions))
    && BucketsHold(inputs, outputs, p.buckets)
  }

  /** The projection loop. */
  method CompileProjection(inputs: Inputs, outputs: seq<Output>) returns (r: Option<Projected>)
    requires forall i, j :: 0 <= i < j < |outputs| && IsBucket(outputs[i]) && IsBucket(outputs[j]) ==>
               outputs[i].alias != outputs[j].alias
    ensures r.Some? == OutputsCompile(inputs, outputs)
    ensures r.Some? ==> ProjectionHolds(inputs, outputs, r.value)
  {
    hide *;
    var p := Projected([], [], [], [], Buckets(map[], map[]));
    OutputStart(inputs, outputs);
    ProjectionStart(inputs, outputs);
    for i := 0 to |outputs|
      invariant OutputsCompile(inputs, outputs[..i]) && ProjectionHolds(inputs, outputs[..i], p)
    {
      var output := outputs[i];
      OneMoreCompiles(inputs, outputs, i);
      OutputKinds(inputs, output);
      var args: seq<Bound>, buckets := [], p.buckets;
      var projected := Measure(output.function_, output.field);
      var grouped := projected;
      if IsDimension(output) {
        grouped := Dimension(output.field, output.representation);
        projected := grouped;
        if output.kind == "time_bucket" {
          if output.timezone != "UTC" || output.unit !in UNITS {
            return None;
          }
          grouped := TimeBucket(output.field, output.unit);
          projected := grouped;
          buckets := Buckets(buckets.expressions[output.alias := projected], buckets.args);
        }
        if output.kind == "numeric_bucket" {
          var bucket := CompileBucket(output.field, output.alias, BoundariesOf(inputs, output.alias));
          if bucket == None {
            return None;
          }
          grouped := bucket.value.0;
          projected := MinimumOf(grouped);
          args := bucket.value.1;
          buckets := Buckets(buckets.expressions[output.alias := projected], buckets.args[output.alias := args]);
        }
      }
      var next := Projected(p.projection + [projected], if IsDimension(output) then p.dimensions + [grouped] else p.dimensions,
                            p.projectionArgs + args, p.groupArgs + args, buckets);
      ProjectionMore(inputs, outputs, i, p, next, args, projected, grouped);
      p := next;
    }
    r := Some(p);
  }

  lemma ProjectionStart(inputs: Inputs, outputs: seq<Output>)
    ensures ProjectionHolds(inputs, outputs[..0], Projected([], [], [], [], Buckets(map[], map[])))
    ensures OutputsCompile(inputs, outputs[..0]) && outputs[..|outputs|] == outputs
  {
    hide BucketsHold;
    OutputStart(inputs, outputs);
  }

  lemma OneMoreCompiles(inputs: Inputs, outputs: seq<Output>, i: nat)
    requires i < |outputs| && OutputsCompile(inputs, outputs[..i])
    ensures OutputsCompile(inputs, outputs[..i + 1]) == OutputCompiles(inputs, outputs[i])
    ensures !OutputCompiles(inputs, outputs[i]) ==> !OutputsCompile(inputs, outputs)
  {
    hide OutputCompiles;
    var shorter, longer := outputs[..i], outputs[..i + 1];
    forall j | 0 <= j < i ensures OutputCompiles(inputs, longer[j]) {
      assert shorter[j] == longer[j];
    }
    assert longer[i] == outputs[i];
  }

  lemma OutputKinds(inputs: Inputs, o: Output)
    ensures IsDimension(o) == (o.kind == "dimension" || o.kind == "time_bucket" || o.kind == "numeric_bucket")
    ensures IsBucket(o) == (o.kind == "time_bucket" || o.kind == "numeric_bucket")
    ensures OutputCompiles(inputs, o) ==
              if o.kind == "numeric_bucket" then BucketCompiles(BoundariesOf(inputs, o.alias))
              else if o.kind == "time_bucket" then o.timezone == "UTC" && o.unit in UNITS
              else true
    ensures OutputArgs(inputs, o) == if o.kind == "numeric_bucket" then StringBounds(BoundariesOf(inputs, o.alias)) else []
    ensures var bucket := NumericBucket(o.field, o.alias, Casts(BoundariesOf(inputs, o.alias)));
            && GroupExpression(inputs, o) ==
                 (if o.kind == "numeric_bucket" then bucket
                  else if o.kind == "time_bucket" then TimeBucket(o.field, o.unit)
                  else Dimension(o.field, o.representation))
            && ProjectedExpression(inputs, o) ==
                 (if o.kind == "numeric_bucket" then MinimumOf(bucket)
                  else if o.kind == "time_bucket" then TimeBucket(o.field, o.unit)
                  else if o.kind == "dimension" then Dimension(o.field, o.representation)
                  else Measure(o.function_, o.field))
  {
    hide BucketCompiles, BoundariesOf, StringBounds, Casts;
  }

  lemma ProjectionMore(
    inputs: Inputs, outputs: seq<Output>, i: nat, p: Projected, next: Projected, args: seq<Bound>, projected: Expression,
    grouped: Expression
  )
    requires i < |outputs| && ProjectionHolds(inputs, outputs[..i], p)
    requires forall i, j :: 0 <= i < j < |outputs| && IsBucket(outputs[i]) && IsBucket(outputs[j]) ==>
               outputs[i].alias != outputs[j].alias
    requires args == OutputArgs(inputs, outputs[i]) && projected == ProjectedExpression(inputs, outputs[i])
    requires IsDimension(outputs[i]) ==> grouped == GroupExpression(inputs, outputs[i])
    requires next.projection == p.projection + [projected] && next.projectionArgs == p.projectionArgs + args
    requires next.dimensions == (if IsDimension(outputs[i]) then p.dimensions + [grouped] else p.dimensions)
    requires next.groupArgs == p.groupArgs + args
    requires next.buckets == if !IsBucket(outputs[i]) then p.buckets
                             else Buckets(
                               p.buckets.expressions[outputs[i].alias := projected],
                               if outputs[i].kind == "numeric_bucket" then p.buckets.args[outputs[i].alias := args]
                               else p.buckets.args)
    ensures ProjectionHolds(inputs, outputs[..i + 1], next)
  {
    hide *;
    ProjectionParts(inputs, outputs[..i], p);
    OutputStep(inputs, outputs, i);
    OutputFilled(inputs, outputs[i]);
    ListEnd(p.projection, projected);
    FilledConcat(inputs, p.projectionArgs, ListHoles(p.projection), args, ExpressionHoles(projected));
    if IsDimension(outputs[i]) {
      ListEnd(p.dimensions, grouped);
      FilledConcat(inputs, p.groupArgs, ListHoles(p.dimensions), args, ExpressionHoles(grouped));
    } else {
      assert p.groupArgs + [] == p.groupArgs;
    }
    if IsBucket(outputs[i]) {
      BucketIsNew(inputs, outputs, i, i);
    }
    BucketsMore(inputs, outputs, i, p.buckets, next.buckets);
    ProjectionBy(inputs, outputs[..i + 1], next);
  }

  lemma ProjectionParts(inputs: Inputs, outputs: seq<Output>, p: Projected)
    requires ProjectionHolds(inputs, outputs, p)
    ensures p.projection == Projections(inputs, outputs) && p.dimensions == Groups(inputs, outputs)
    ensures Filled(inputs, p.projectionArgs, ListHoles(p.projection)) && Filled(inputs, p.groupArgs, ListHoles(p.dimensions))
    ensures BucketsHold(inputs, outputs, p.buckets)
  {
    hide Projections, Groups, Filled, ListHoles, BucketsHold;
  }

  lemma ProjectionBy(inputs: Inputs, outputs: seq<Output>, p: Projected)
    requires p.projection == Projections(inputs, outputs) && p.dimensions == Groups(inputs, outputs)
    requires Filled(inputs, p.projectionArgs, ListHoles(p.projection)) && Filled(inputs, p.groupArgs, ListHoles(p.dimensions))
    requires BucketsHold(inputs, outputs, p.buckets)
    ensures ProjectionHolds(inputs, outputs, p)
  {
    hide Projections, Groups, Filled, ListHoles, BucketsHold;
  }

  /** The ORDER BY loop: whatever the kind, the alias's parameters are appended. */
  method CompileOrder(inputs: Inputs, outputs: seq<Output>, orders: seq<Order>, buckets: Buckets)
    returns (r: Option<(seq<Term>, seq<Bound>)>)
    requires BucketsHold(inputs, outputs, buckets)
    requires forall i :: 0 <= i < |orders| && !BucketOrder(orders[i]) ==> BucketFor(inputs, outputs, orders[i].alias) == None
    ensures r.Some? == TermsOf(inputs, outputs, orders).Some?
    ensures r.Some? ==> r.value.0 == TermsOf(inputs, outputs, orders).value && Filled(inputs, r.value.1, TermsHoles(r.value.0))
  {
    hide *;
    var terms: seq<Term>, args: seq<Bound> := [], [];
    OrderStart(inputs, outputs, orders);
    for i := 0 to |orders|
      invariant TermsOf(inputs, outputs, orders[..i]) == Some(terms) && Filled(inputs, args, TermsHoles(terms))
    {
      var order := orders[i];
      OrderStep(inputs, outputs, orders, i, buckets);
      var target := AliasTarget(order.alias);
      if order.kind == "dimension" {
        target := ExpressionTarget(Dimension(order.field, order.representation));
      } else if order.kind == "time_bucket" || order.kind == "numeric_bucket" {
        if order.alias !in buckets.expressions {
          return None;
        }
        target := ExpressionTarget(buckets.expressions[order.alias]);
      }
      TermEnd(terms, Term(target, order.direction));
      FilledConcat(inputs, args, TermsHoles(terms), ArgsOf(buckets, order.alias), TermHoles(Term(target, order.direction)));
      args := args + ArgsOf(buckets, order.alias);
      terms := terms + [Term(target, order.direction)];
    }
    r := Some((terms, args));
  }

  lemma OrderStart(inputs: Inputs, outputs: seq<Output>, orders: seq<Order>)
    ensures TermsOf(inputs, outputs, orders[..0]) == Some([]) && Filled(inputs, [], TermsHoles([]))
    ensures orders[..|orders|] == orders
  {
  }

  lemma TermEnd(terms: seq<Term>, t: Term)
    ensures TermsHoles(terms + [t]) == TermsHoles(terms) + TermHoles(t)
  {
    hide TermHoles;
    assert (terms + [t])[..|terms + [t]| - 1] == terms;
  }

  lemma OrderStep(inputs: Inputs, outputs: seq<Output>, orders: seq<Order>, i: nat, buckets: Buckets)
    requires i < |orders| && BucketsHold(inputs, outputs, buckets) && TermsOf(inputs, outputs, orders[..i]).Some?
    requires !BucketOrder(orders[i]) ==> BucketFor(inputs, outputs, orders[i].alias) == None
    ensures var order, target := orders[i], TargetOf(inputs, outputs, orders[i]);
            && target == (if order.kind == "dimension" then Some(ExpressionTarget(Dimension(order.field, order.representation)))
                          else if order.kind == "time_bucket" || order.kind == "numeric_bucket" then
                            (if order.alias in buckets.expressions then
                               Some(ExpressionTarget(buckets.expressions[order.alias])) else None)
                          else Some(AliasTarget(order.alias)))
            && (target == None ==> TermsOf(inputs, outputs, orders) == None)
            && (target.Some? ==>
                  && TermsOf(inputs, outputs, orders[..i + 1])
                     == Some(TermsOf(inputs, outputs, orders[..i]).value + [Term(target.value, order.direction)])
                  && Filled(inputs, ArgsOf(buckets, order.alias), TermHoles(Term(target.value, order.direction))))
  {
    hide Filled, BucketFor;
    assert orders[..i + 1][..i] == orders[..i];
    assert BucketHolds(inputs, outputs, buckets, orders[i].alias);
    NothingFilled(inputs);
    if TargetOf(inputs, outputs, orders[i]) == None {
      OneTermFails(inputs, outputs, orders, i + 1);
    }
  }

  lemma {:induction false} OneTermFails(inputs: Inputs, outputs: seq<Output>, orders: seq<Order>, i: nat)
    requires i <= |orders| && TermsOf(inputs, outputs, orders[..i]) == None
    ensures TermsOf(inputs, outputs, orders) == None
    decreases |orders|
  {
    hide TargetOf;
    if i == |orders| {
      assert orders[..i] == orders;
    } else {
      assert orders[..|orders| - 1][..i] == orders[..i];
      OneTermFails(inputs, outputs, orders[..|orders| - 1], i);
    }
  }

  /** compileAggregate: the statement, and one parameter for each of its placeholders in textual order. */
  method CompileAggregate(inputs: Inputs, spec: Spec) returns (r: Option<(Statement, seq<Bound>)>)
    requires NamesApart(inputs, spec) && inputs.limit == spec.limit
    ensures r.Some? == Compiles(inputs, spec)
    ensures r.Some? ==> r.value.0 == StatementOf(inputs, spec)
    ensures r.Some? && (spec.filter.Some? ==> ValidArities(spec.filter.value)) ==> Filled(inputs, r.value.1, Holes(r.value.0))
  {
    hide *;
    SpecParts(inputs, spec);
    NothingFilled(inputs);
    var projected := CompileProjection(inputs, spec.projection);
    if projected == None {
      return None;
    }
    var p := projected.value;
    ProjectionParts(inputs, spec.projection, p);
    var condition: Option<Condition>, filterArgs: seq<Bound> := None, [];
    if spec.filter.Some? {
      var compiled := CompileFilter(BinderOf(inputs.x), spec.filter.value);
      if compiled == None {
        return None;
      }
      if ValidArities(spec.filter.value) {
        FilterFilled(inputs, compiled.value.1, compiled.value.0);
      }
      condition, filterArgs := Some(compiled.value.0), compiled.value.1;
    }
    var order := CompileOrder(inputs, spec.projection, spec.orderBy, p.buckets);
    if order == None {
      return None;
    }
    var grouped := spec.mode == "grouped";
    var limitArgs: seq<Bound> := if grouped then [IntBound(spec.limit + 1)] else [];
    var check := if HasTimeBucket(spec.projection) then [NullnessCheck] else [];
    ChecksHaveNoHoles(p.projection, HasTimeBucket(spec.projection));
    LimitFilled(inputs, grouped);
    var statement := Statement(p.projection + check, condition, p.dimensions, order.value.0, grouped);
    if spec.filter.Some? ==> ValidArities(spec.filter.value) {
      StatementFilled(inputs, statement, p.projectionArgs, filterArgs, p.groupArgs, order.value.1, limitArgs);
    }
    r := Some((statement, p.projectionArgs + filterArgs + p.groupArgs + order.value.1 + limitArgs));
  }

  lemma SpecParts(inputs: Inputs, spec: Spec)
    requires NamesApart(inputs, spec)
    ensures forall i, j :: 0 <= i < j < |spec.projection| && IsBucket(spec.projection[i]) && IsBucket(spec.projection[j]) ==>
              spec.projection[i].alias != spec.projection[j].alias
    ensures forall i :: 0 <= i < |spec.orderBy| && !BucketOrder(spec.orderBy[i]) ==>
              BucketFor(inputs, spec.projection, spec.orderBy[i].alias) == None
    ensures Compiles(inputs, spec) ==
              (OutputsCompile(inputs, spec.projection) && (spec.filter.Some? ==> FilterCompiles(BinderOf(inputs.x), spec.filter.value))
               && TermsOf(inputs, spec.projection, spec.orderBy).Some?)
    ensures TermsOf(inputs, spec.projection, spec.orderBy).Some? ==>
              StatementOf(inputs, spec) == Statement(
                Projections(inputs, spec.projection) + (if HasTimeBucket(spec.projection) then [NullnessCheck] else []),
                if spec.filter == None then None else Some(ConditionOf(spec.filter.value)),
                Groups(inputs, spec.projection), TermsOf(inputs, spec.projection, spec.orderBy).value, spec.mode == "grouped")
  {
    hide OutputsCompile, FilterCompiles, TermsOf, Projections, Groups, ConditionOf, HasTimeBucket, BucketFor;
  }

  lemma ChecksHaveNoHoles(list: seq<Expression>, check: bool)
    ensures ListHoles(list + (if check then [NullnessCheck] else [])) == ListHoles(list)
  {
    hide ListHoles;
    if check {
      ListEnd(list, NullnessCheck);
      assert ExpressionHoles(NullnessCheck) == [];
    } else {
      assert list + [] == list;
    }
  }

  lemma LimitFilled(inputs: Inputs, grouped: bool)
    ensures Filled(inputs, if grouped then [IntBound(inputs.limit + 1)] else [], if grouped then [LimitHole] else [])
  {
  }

  lemma StatementFilled(
    inputs: Inputs, s: Statement, projectionArgs: seq<Bound>, filterArgs: seq<Bound>, groupArgs: seq<Bound>,
    orderArgs: seq<Bound>, limitArgs: seq<Bound>
  )
    requires Filled(inputs, projectionArgs, ListHoles(s.projection))
    requires Filled(inputs, filterArgs, if s.condition == None then [] else FilterHoles(s.condition.value))
    requires Filled(inputs, groupArgs, ListHoles(s.groupBy)) && Filled(inputs, orderArgs, TermsHoles(s.orderBy))
    requires Filled(inputs, limitArgs, if s.limit then [LimitHole] else [])
    ensures Filled(inputs, projectionArgs + filterArgs + groupArgs + orderArgs + limitArgs, Holes(s))
  {
    var filterHoles := if s.condition == None then [] else FilterHoles(s.condition.value);
    var limitHoles := if s.limit then [LimitHole] else [];
    assert Holes(s) == ListHoles(s.projection) + filterHoles + ListHoles(s.groupBy) + TermsHoles(s.orderBy) + limitHoles;
    hide *;
    FilledConcat(inputs, projectionArgs, ListHoles(s.projection), filterArgs, filterHoles);
    FilledConcat(inputs, projectionArgs + filterArgs, ListHoles(s.projection) + filterHoles, groupArgs, ListHoles(s.groupBy));
    FilledConcat(inputs, projectionArgs + filterArgs + groupArgs, ListHoles(s.projection) + filterHoles + ListHoles(s.groupBy),
                 orderArgs, TermsHoles(s.orderBy));
    FilledConcat(inputs, projectionArgs + filterArgs + groupArgs + orderArgs,
                 ListHoles(s.projection) + filterHoles + ListHoles(s.groupBy) + TermsHoles(s.orderBy), limitArgs, limitHoles);
  }

  // --------------------------------------------------------------- evaluation

  /** What a WHEN compares with: the cast of the parameter at its placeholder. */
  function LimitOf(cast: (nat, nat), arg: Bound): int {
    if arg.StringBound? then NumericBuckets.CastTo(arg.text, cast.0, cast.1) else 0
  }

  function LimitsOf(casts: seq<(nat, nat)>, args: seq<Bound>, at: nat): (limits: seq<int>)
    requires at + |casts| <= |args|
    ensures |limits| == |casts|
  {
    seq(|casts|, k requires 0 <= k < |casts| => LimitOf(casts[k], args[at + k]))
  }

  /** The CASE for a field that is NULL or v * 10^-128, when its first placeholder is the one at `at`. */
  function Evaluate(e: Expression, v: Option<int>, args: seq<Bound>, at: nat): Option<nat>
    requires e.NumericBucket? && at + |e.casts| <= |args|
  {
    if v == None then None else Some(NumericBuckets.CaseIndex(v.value, LimitsOf(e.casts, args, at), 0))
  }

  /** The bucket that a value belongs to. */
  function Bucket(v: Option<int>, boundaries: seq<string>): Option<nat> {
    if v == None then None else Some(NumericBuckets.NotAbove(v.value, boundaries))
  }

  /** The expression's placeholders start at this place. */
  predicate ShownAt(holes: seq<Hole>, at: nat, e: Expression) {
    at + |ExpressionHoles(e)| <= |holes| && holes[at..at + |ExpressionHoles(e)|] == ExpressionHoles(e)
  }

  lemma ShownLater(before: seq<Hole>, holes: seq<Hole>, after: seq<Hole>, at: nat, e: Expression)
    requires ShownAt(holes, at, e)
    ensures ShownAt(before + holes + after, |before| + at, e)
  {
    hide ExpressionHoles;
    var n := |ExpressionHoles(e)|;
    assert (before + holes + after)[|before| + at..|before| + at + n] == holes[at..at + n];
  }

  lemma {:induction false} ShownInList(list: seq<Expression>, i: nat)
    requires i < |list|
    ensures ShownAt(ListHoles(list), |ListHoles(list[..i])|, list[i])
    ensures |ListHoles(list[..i])| <= |ListHoles(list)|
  {
    hide ExpressionHoles;
    var n := |list| - 1;
    if i < n {
      ShownInList(list[..n], i);
      assert list[..n][..i] == list[..i];
      ShownLater([], ListHoles(list[..n]), ExpressionHoles(list[n]), |ListHoles(list[..i])|, list[i]);
      assert [] + ListHoles(list[..n]) == ListHoles(list[..n]);
    }
  }

  lemma HoleShown(holes: seq<Hole>, at: nat, bucket: Expression, k: nat)
    requires bucket.NumericBucket? && ShownAt(holes, at, bucket) && k < |bucket.casts|
    ensures at + k < |holes| && holes[at + k] == BucketHole(bucket.alias, k)
  {
    assert holes[at..at + |bucket.casts|][k] == holes[at + k];
  }

  lemma FilledAt(inputs: Inputs, args: seq<Bound>, holes: seq<Hole>, j: nat)
    requires Filled(inputs, args, holes) && j < |holes|
    ensures j < |args| && Wanted(inputs, holes[j]) == Some(args[j])
  {
    hide Wanted;
  }

  /** The k-th WHEN compares with the value of the k-th boundary. */
  lemma LimitIsBoundary(inputs: Inputs, o: Output, args: seq<Bound>, holes: seq<Hole>, at: nat, k: nat)
    requires Filled(inputs, args, holes) && BucketCompiles(BoundariesOf(inputs, o.alias))
    requires ShownAt(holes, at, BucketOf(inputs, o)) && k < |BoundariesOf(inputs, o.alias)|
    ensures at + k < |args|
    ensures LimitOf(Casts(BoundariesOf(inputs, o.alias))[k], args[at + k])
         == NumericBuckets.ValueOf(BoundariesOf(inputs, o.alias)[k])
  {
    hide NumericBuckets.Cast, NumericBuckets.CastTo, NumericBuckets.ValueOf, BoundariesOf, ShownAt, Filled;
    HoleShown(holes, at, BucketOf(inputs, o), k);
    FilledAt(inputs, args, holes, at + k);
    NumericBuckets.CastKeepsValue(BoundariesOf(inputs, o.alias)[k]);
  }

  /** Evaluated with the parameters at its own placeholders, the compiled CASE counts the boundaries not above the value. */
  lemma CompiledBucketCounts(inputs: Inputs, o: Output, args: seq<Bound>, holes: seq<Hole>, at: nat, v: Option<int>)
    requires Filled(inputs, args, holes) && BucketCompiles(BoundariesOf(inputs, o.alias))
    requires NumericBuckets.Increasing(BoundariesOf(inputs, o.alias)) && ShownAt(holes, at, BucketOf(inputs, o))
    ensures at + |BucketOf(inputs, o).casts| <= |args|
    ensures Evaluate(BucketOf(inputs, o), v, args, at) == Bucket(v, BoundariesOf(inputs, o.alias))
  {
    hide BucketCompiles, LimitOf, Filled, NumericBuckets.Increasing, NumericBuckets.ValueOf, NumericBuckets.CaseIndex,
         NumericBuckets.NotAbove, BoundariesOf;
    var boundaries := BoundariesOf(inputs, o.alias);
    SameLengths(inputs, args, holes);
    forall k | 0 <= k < |boundaries|
      ensures at + k < |args| && LimitOf(Casts(boundaries)[k], args[at + k]) == NumericBuckets.ValueOf(boundaries[k])
    {
      LimitIsBoundary(inputs, o, args, holes, at, k);
    }
    assert LimitsOf(Casts(boundaries), args, at) == NumericBuckets.Values(boundaries);
    if v.Some? {
      NumericBuckets.BucketCountsBoundaries(v.value, boundaries);
    }
  }

  lemma SameLengths(inputs: Inputs, args: seq<Bound>, holes: seq<Hole>)
    requires Filled(inputs, args, holes)
    ensures |args| == |holes|
  {
  }

  /** Where the i-th output's placeholders start in the projection, and in GROUP BY. */
  function ProjectionPlace(inputs: Inputs, spec: Spec, i: nat): nat
    requires i < |spec.projection|
  {
    |ListHoles(Projections(inputs, spec.projection[..i]))|
  }

  function GroupPlace(inputs: Inputs, spec: Spec, i: nat): nat
    requires i < |spec.projection|
  {
    var s := StatementOf(inputs, spec);
    |ListHoles(s.projection)| + (if s.condition == None then 0 else |FilterHoles(s.condition.value)|)
    + |ListHoles(Groups(inputs, spec.projection[..i]))|
  }

  lemma {:induction false} ProjectionsAt(inputs: Inputs, outputs: seq<Output>, i: nat)
    requires i < |outputs|
    ensures |Projections(inputs, outputs)| == |outputs|
    ensures Projections(inputs, outputs)[..i] == Projections(inputs, outputs[..i])
    ensures Projections(inputs, outputs)[i] == ProjectedExpression(inputs, outputs[i])
  {
    hide ProjectedExpression;
    var n := |outputs| - 1;
    if i < n {
      ProjectionsAt(inputs, outputs[..n], i);
      assert outputs[..n][..i] == outputs[..i];
    } else if n > 0 {
      ProjectionsAt(inputs, outputs[..n], 0);
    }
  }

  lemma {:induction false} GroupsAt(inputs: Inputs, outputs: seq<Output>, i: nat)
    requires i < |outputs| && IsDimension(outputs[i])
    ensures var place := |Groups(inputs, outputs[..i])|;
            && place < |Groups(inputs, outputs)| && Groups(inputs, outputs)[..place] == Groups(inputs, outputs[..i])
            && Groups(inputs, outputs)[place] == GroupExpression(inputs, outputs[i])
  {
    hide GroupExpression, IsDimension;
    var n := |outputs| - 1;
    if i < n {
      GroupsAt(inputs, outputs[..n], i);
      assert outputs[..n][..i] == outputs[..i];
    }
  }

  lemma HolesOfStatement(s: Statement)
    ensures var filterHoles := if s.condition == None then [] else FilterHoles(s.condition.value);
            var end := TermsHoles(s.orderBy) + (if s.limit then [LimitHole] else []);
            && Holes(s) == [] + ListHoles(s.projection) + (filterHoles + ListHoles(s.groupBy) + end)
            && Holes(s) == (ListHoles(s.projection) + filterHoles) + ListHoles(s.groupBy) + end
  {
    hide ListHoles, FilterHoles, TermsHoles;
  }

  lemma ExpressionsOfBucket(inputs: Inputs, o: Output)
    requires o.kind == "numeric_bucket"
    ensures GroupExpression(inputs, o) == BucketOf(inputs, o) && ProjectedExpression(inputs, o) == MinimumOf(BucketOf(inputs, o))
    ensures IsDimension(o)
  {
    hide BucketOf;
  }

  /** The aggregate of a bucket shows the bucket's own placeholders. */
  lemma ShownInside(holes: seq<Hole>, at: nat, e: Expression)
    requires ShownAt(holes, at, MinimumOf(e))
    ensures ShownAt(holes, at, e)
  {
    assert ExpressionHoles(MinimumOf(e)) == ExpressionHoles(e);
  }

  lemma ProjectedShown(inputs: Inputs, outputs: seq<Output>, i: nat)
    requires i < |outputs| && outputs[i].kind == "numeric_bucket"
    ensures ShownAt(ListHoles(Projections(inputs, outputs)), |ListHoles(Projections(inputs, outputs[..i]))|,
                    BucketOf(inputs, outputs[i]))
  {
    hide *;
    ExpressionsOfBucket(inputs, outputs[i]);
    ProjectionsAt(inputs, outputs, i);
    ShownInList(Projections(inputs, outputs), i);
    ShownInside(ListHoles(Projections(inputs, outputs)), |ListHoles(Projections(inputs, outputs[..i]))|,
                BucketOf(inputs, outputs[i]));
  }

  lemma GroupedShown(inputs: Inputs, outputs: seq<Output>, i: nat)
    requires i < |outputs| && outputs[i].kind == "numeric_bucket"
    ensures ShownAt(ListHoles(Groups(inputs, outputs)), |ListHoles(Groups(inputs, outputs[..i]))|, BucketOf(inputs, outputs[i]))
  {
    hide *;
    ExpressionsOfBucket(inputs, outputs[i]);
    GroupsAt(inputs, outputs, i);
    ShownInList(Groups(inputs, outputs), |Groups(inputs, outputs[..i])|);
  }

  lemma StatementParts(inputs: Inputs, spec: Spec)
    ensures var s := StatementOf(inputs, spec);
            && s.groupBy == Groups(inputs, spec.projection)
            && ListHoles(s.projection) == ListHoles(Projections(inputs, spec.projection))
  {
    hide Groups, Projections, ListHoles, TermsOf, ConditionOf, HasTimeBucket;
    ChecksHaveNoHoles(Projections(inputs, spec.projection), HasTimeBucket(spec.projection));
  }

  /** A bucket is shown in the projection, inside MIN, and in GROUP BY. */
  lemma BucketPlaces(inputs: Inputs, spec: Spec, i: nat)
    requires i < |spec.projection| && spec.projection[i].kind == "numeric_bucket"
    ensures ShownAt(Holes(StatementOf(inputs, spec)), ProjectionPlace(inputs, spec, i), BucketOf(inputs, spec.projection[i]))
    ensures ShownAt(Holes(StatementOf(inputs, spec)), GroupPlace(inputs, spec, i), BucketOf(inputs, spec.projection[i]))
  {
    hide ListHoles, FilterHoles, TermsHoles, Projections, Groups, Holes, StatementOf, ShownAt, BucketOf;
    var s, bucket := StatementOf(inputs, spec), BucketOf(inputs, spec.projection[i]);
    var filterHoles := if s.condition == None then [] else FilterHoles(s.condition.value);
    var end := TermsHoles(s.orderBy) + (if s.limit then [LimitHole] else []);
    HolesOfStatement(s);
    StatementParts(inputs, spec);
    ProjectedShown(inputs, spec.projection, i);
    ShownLater([], ListHoles(s.projection), filterHoles + ListHoles(s.groupBy) + end, ProjectionPlace(inputs, spec, i), bucket);
    GroupedShown(inputs, spec.projection, i);
    ShownLater(ListHoles(s.projection) + filterHoles, ListHoles(s.groupBy), end,
               |ListHoles(Groups(inputs, spec.projection[..i]))|, bucket);
  }

  /** MIN over the values that are not NULL. */
  function Minimum(values: seq<Option<nat>>): Option<nat> {
    if values == [] then None
    else
      var before, last := Minimum(values[..|values| - 1]), values[|values| - 1];
      if before == None then last else if last == None || before.value < last.value then before else last
  }

  lemma {:induction false} MinimumOfSame(values: seq<Option<nat>>, key: Option<nat>)
    requires values != [] && forall k :: 0 <= k < |values| ==> values[k] == key
    ensures Minimum(values) == key
  {
    var n := |values| - 1;
    if n > 0 {
      MinimumOfSame(values[..n], key);
    }
  }

  /** The rows that GROUP BY puts together under a key, and what MIN gives for them. */
  predicate Grouped(inputs: Inputs, spec: Spec, args: seq<Bound>, i: nat, rows: seq<Option<int>>, key: Option<nat>)
    requires i < |spec.projection|
  {
    && GroupPlace(inputs, spec, i) + |BucketOf(inputs, spec.projection[i]).casts| <= |args|
    && forall k :: 0 <= k < |rows| ==>
         Evaluate(BucketOf(inputs, spec.projection[i]), rows[k], args, GroupPlace(inputs, spec, i)) == key
  }

  function MinimumOver(inputs: Inputs, spec: Spec, args: seq<Bound>, i: nat, rows: seq<Option<int>>): Option<nat>
    requires i < |spec.projection|
    requires ProjectionPlace(inputs, spec, i) + |BucketOf(inputs, spec.projection[i]).casts| <= |args|
  {
    Minimum(seq(|rows|, k requires 0 <= k < |rows| =>
      Evaluate(BucketOf(inputs, spec.projection[i]), rows[k], args, ProjectionPlace(inputs, spec, i))))
  }

  /**
   The bucket column of a group: GROUP BY and the projection evaluate their own copies of the CASE with their own
   parameters, and what MIN gives is the number of boundaries not above the value of each row in the group.
   */
  lemma BucketColumnCounts(
    inputs: Inputs, spec: Spec, args: seq<Bound>, i: nat, rows: seq<Option<int>>, key: Option<nat>, k: nat
  )
    requires Filled(inputs, args, Holes(StatementOf(inputs, spec)))
    requires i < |spec.projection| && spec.projection[i].kind == "numeric_bucket"
    requires BucketCompiles(BoundariesOf(inputs, spec.projection[i].alias))
    requires NumericBuckets.Increasing(BoundariesOf(inputs, spec.projection[i].alias))
    requires k < |rows| && Grouped(inputs, spec, args, i, rows, key)
    ensures ProjectionPlace(inputs, spec, i) + |BucketOf(inputs, spec.projection[i]).casts| <= |args|
    ensures MinimumOver(inputs, spec, args, i, rows) == key == Bucket(rows[k], BoundariesOf(inputs, spec.projection[i].alias))
  {
    hide Filled, Holes, StatementOf, BucketCompiles, NumericBuckets.Increasing, ProjectionPlace, GroupPlace, ShownAt, Evaluate,
         Bucket, Minimum, Casts, BoundariesOf;
    var o, holes := spec.projection[i], Holes(StatementOf(inputs, spec));
    var here, there := ProjectionPlace(inputs, spec, i), GroupPlace(inputs, spec, i);
    BucketPlaces(inputs, spec, i);
    CompiledBucketCounts(inputs, o, args, holes, here, None);
    var bucket := BucketOf(inputs, o);
    var values := seq(|rows|, j requires 0 <= j < |rows| => Evaluate(bucket, rows[j], args, here));
    forall j | 0 <= j < |rows| ensures values[j] == key == Bucket(rows[j], BoundariesOf(inputs, o.alias)) {
      CompiledBucketCounts(inputs, o, args, holes, here, rows[j]);
      CompiledBucketCounts(inputs, o, args, holes, there, rows[j]);
    }
    MinimumOfSame(values, key);
    assert MinimumOver(inputs, spec, args, i, rows) == Minimum(values);
  }

  // ------------------------------------------------------------------- counts

  /** The boundaries of a numeric bucket output. */
  function CountOf(inputs: Inputs, o: Output): nat {
    if o.kind == "numeric_bucket" then |BoundariesOf(inputs, o.alias)| else 0
  }

  predicate OrdersBucket(o: Order, alias: string) {
    o.kind == "numeric_bucket" && o.alias == alias
  }

  function Repeats(orders: seq<Order>, alias: string): nat {
    if orders == [] then 0
    else Repeats(orders[..|orders| - 1], alias) + (if OrdersBucket(orders[|orders| - 1], alias) then 1 else 0)
  }

  /** Every boundary once in the projection, once in GROUP BY, and once for each ORDER BY term of its bucket. */
  function BucketParameters(inputs: Inputs, outputs: seq<Output>, orders: seq<Order>): nat {
    if outputs == [] then 0
    else
      var o := outputs[|outputs| - 1];
      BucketParameters(inputs, outputs[..|outputs| - 1], orders) + CountOf(inputs, o) * (2 + Repeats(orders, o.alias))
  }

  predicate CountValid(inputs: Inputs, o: Output) {
    o.kind == "numeric_bucket" ==> 1 <= CountOf(inputs, o) <= NumericBuckets.MAX_BOUNDARIES
  }

  predicate CountsValid(inputs: Inputs, outputs: seq<Output>) {
    forall i :: 0 <= i < |outputs| ==> CountValid(inputs, outputs[i])
  }

  lemma QuotientBound(count: nat, room: nat, repeats: nat)
    requires repeats > 0
    ensures count > room / repeats <==> count * repeats > room
  {
    if count > room / repeats {
      assert count * repeats >= (room / repeats + 1) * repeats;
    } else {
      assert count * repeats <= room / repeats * repeats;
    }
  }

  lemma ParametersStep(inputs: Inputs, outputs: seq<Output>, orders: seq<Order>, i: nat)
    requires i < |outputs|
    ensures BucketParameters(inputs, outputs[..i + 1], orders)
         == BucketParameters(inputs, outputs[..i], orders) + CountOf(inputs, outputs[i]) * (2 + Repeats(orders, outputs[i].alias))
    ensures outputs[i].kind != "numeric_bucket" ==>
              BucketParameters(inputs, outputs[..i + 1], orders) == BucketParameters(inputs, outputs[..i], orders)
    ensures BucketParameters(inputs, outputs[..i + 1], orders) <= BucketParameters(inputs, outputs, orders)
  {
    hide Repeats, BoundariesOf;
    assert outputs[..i + 1][..i] == outputs[..i];
    ParametersGrow(inputs, outputs, orders, i + 1);
  }

  lemma {:induction false} ParametersGrow(inputs: Inputs, outputs: seq<Output>, orders: seq<Order>, i: nat)
    requires i <= |outputs|
    ensures BucketParameters(inputs, outputs[..i], orders) <= BucketParameters(inputs, outputs, orders)
    decreases |outputs|
  {
    hide CountOf, Repeats;
    if i == |outputs| {
      assert outputs[..i] == outputs;
    } else {
      assert outputs[..|outputs| - 1][..i] == outputs[..i];
      ParametersGrow(inputs, outputs[..|outputs| - 1], orders, i);
    }
  }

  lemma CountsStep(inputs: Inputs, outputs: seq<Output>, i: nat)
    requires i < |outputs| && CountsValid(inputs, outputs[..i])
    ensures CountsValid(inputs, outputs[..i + 1]) == CountValid(inputs, outputs[i])
    ensures !CountValid(inputs, outputs[i]) ==> !CountsValid(inputs, outputs)
  {
    hide CountValid;
    var shorter, longer := outputs[..i], outputs[..i + 1];
    forall j | 0 <= j < i ensures CountValid(inputs, longer[j]) {
      assert shorter[j] == longer[j];
    }
    assert longer[i] == outputs[i];
  }

  lemma CountsStart(inputs: Inputs, outputs: seq<Output>, orders: seq<Order>)
    ensures CountsValid(inputs, outputs[..0]) && BucketParameters(inputs, outputs[..0], orders) == 0
    ensures outputs[..|outputs|] == outputs
  {
  }

  lemma CountValidParts(inputs: Inputs, o: Output)
    ensures CountValid(inputs, o) ==
              (o.kind == "numeric_bucket" ==> 1 <= CountOf(inputs, o) <= NumericBuckets.MAX_BOUNDARIES)
  {
  }

  /** NumericBucketParameters: the count, unless a bucket lacks boundaries or the maximum is exceeded. */
  method CountParameters(inputs: Inputs, outputs: seq<Output>, orders: seq<Order>, base: nat, maximum: int)
    returns (r: Option<nat>)
    ensures r == if CountsValid(inputs, outputs) && base + BucketParameters(inputs, outputs, orders) <= maximum
                 then Some(base + BucketParameters(inputs, outputs, orders)) else None
  {
    hide *;
    var total := base;
    if total > maximum {
      return None;
    }
    CountsStart(inputs, outputs, orders);
    for i := 0 to |outputs|
      invariant CountsValid(inputs, outputs[..i])
      invariant total == base + BucketParameters(inputs, outputs[..i], orders) <= maximum
    {
      CountsStep(inputs, outputs, i);
      CountValidParts(inputs, outputs[i]);
      ParametersStep(inputs, outputs, orders, i);
      if outputs[i].kind != "numeric_bucket" {
        continue;
      }
      var count := CountOf(inputs, outputs[i]);
      if count < 1 || count > NumericBuckets.MAX_BOUNDARIES {
        return None;
      }
      var repeats := CountRepeats(orders, outputs[i].alias);
      var room: nat := maximum - total;
      QuotientBound(count, room, 2 + repeats);
      if count > room / (2 + repeats) {
        return None;
      }
      total := total + count * (2 + repeats);
    }
    r := Some(total);
  }

  /** The inner loop over ORDER BY. */
  method CountRepeats(orders: seq<Order>, alias: string) returns (repeats: nat)
    ensures repeats == Repeats(orders, alias)
  {
    repeats := 0;
    assert orders[..|orders|] == orders;
    for i := 0 to |orders|
      invariant repeats == Repeats(orders[..i], alias)
    {
      assert orders[..i + 1][..i] == orders[..i];
      if OrdersBucket(orders[i], alias) {
        repeats := repeats + 1;
      }
    }
  }

  // ---------------------------------------------------- counts are placeholders

  function TotalCount(inputs: Inputs, outputs: seq<Output>): nat {
    if outputs == [] then 0
    else TotalCount(inputs, outputs[..|outputs| - 1]) + CountOf(inputs, outputs[|outputs| - 1])
  }

  lemma OutputHoles(inputs: Inputs, o: Output)
    ensures |ExpressionHoles(ProjectedExpression(inputs, o))| == CountOf(inputs, o)
    ensures IsDimension(o) ==> |ExpressionHoles(GroupExpression(inputs, o))| == CountOf(inputs, o)
    ensures !IsDimension(o) ==> CountOf(inputs, o) == 0
  {
    hide BoundariesOf, BucketHoles;
    assert |BucketHoles(o.alias, CountOf(inputs, o))| == CountOf(inputs, o);
  }

  lemma {:induction false} ProjectionCount(inputs: Inputs, outputs: seq<Output>)
    ensures |ListHoles(Projections(inputs, outputs))| == TotalCount(inputs, outputs)
    ensures |ListHoles(Groups(inputs, outputs))| == TotalCount(inputs, outputs)
  {
    if outputs != [] {
      var init, o := outputs[..|outputs| - 1], outputs[|outputs| - 1];
      ProjectionCount(inputs, init);
      OutputHoles(inputs, o);
      ListEnd(Projections(inputs, init), ProjectedExpression(inputs, o));
      ListEnd(Groups(inputs, init), GroupExpression(inputs, o));
      assert Groups(inputs, init) + [] == Groups(inputs, init);
      hide ListHoles, ExpressionHoles, ProjectedExpression, GroupExpression, CountOf, IsDimension;
    }
  }

  /** What each output's boundaries contribute to ORDER BY. */
  function OrderCount(inputs: Inputs, outputs: seq<Output>, orders: seq<Order>): nat {
    if outputs == [] then 0
    else
      var o := outputs[|outputs| - 1];
      OrderCount(inputs, outputs[..|outputs| - 1], orders) + CountOf(inputs, o) * Repeats(orders, o.alias)
  }

  lemma {:induction false} ParametersSplit(inputs: Inputs, outputs: seq<Output>, orders: seq<Order>)
    ensures BucketParameters(inputs, outputs, orders) == 2 * TotalCount(inputs, outputs) + OrderCount(inputs, outputs, orders)
  {
    hide CountOf, Repeats;
    if outputs != [] {
      ParametersSplit(inputs, outputs[..|outputs| - 1], orders);
      var o := outputs[|outputs| - 1];
      Distributes(CountOf(inputs, o), Repeats(orders, o.alias));
    }
  }

  lemma Distributes(a: nat, b: nat)
    ensures a * (2 + b) == 2 * a + a * b
    ensures a * (b + 1) == a * b + a
  {
  }

  /** The boundaries of the buckets with an alias. */
  function CountFor(inputs: Inputs, outputs: seq<Output>, alias: string): nat {
    if outputs == [] then 0
    else
      var o := outputs[|outputs| - 1];
      CountFor(inputs, outputs[..|outputs| - 1], alias) + (if o.alias == alias then CountOf(inputs, o) else 0)
  }

  lemma {:induction false} OneOrderMore(inputs: Inputs, outputs: seq<Output>, orders: seq<Order>, order: Order)
    ensures OrderCount(inputs, outputs, orders + [order])
         == OrderCount(inputs, outputs, orders) + (if order.kind == "numeric_bucket" then CountFor(inputs, outputs, order.alias) else 0)
  {
    if outputs != [] {
      var o := outputs[|outputs| - 1];
      OneOrderMore(inputs, outputs[..|outputs| - 1], orders, order);
      assert (orders + [order])[..|orders + [order]| - 1] == orders;
      assert Repeats(orders + [order], o.alias) == Repeats(orders, o.alias) + (if OrdersBucket(order, o.alias) then 1 else 0);
      Distributes(CountOf(inputs, o), Repeats(orders, o.alias));
      hide Repeats, CountOf;
    }
  }

  /** ORDER BY names buckets by their kind. */
  predicate OrderKindsMatch(inputs: Inputs, outputs: seq<Output>, orders: seq<Order>) {
    forall i :: 0 <= i < |orders| && orders[i].kind == "time_bucket" ==> CountFor(inputs, outputs, orders[i].alias) == 0
  }

  lemma {:induction false} BucketForCount(inputs: Inputs, outputs: seq<Output>, alias: string)
    requires forall i, j :: 0 <= i < j < |outputs| && IsBucket(outputs[i]) && IsBucket(outputs[j]) ==>
               outputs[i].alias != outputs[j].alias
    ensures CountFor(inputs, outputs, alias)
         == (var e := BucketFor(inputs, outputs, alias); if e == None then 0 else |ExpressionHoles(e.value)|)
  {
    if outputs != [] {
      var n := |outputs| - 1;
      BucketForCount(inputs, outputs[..n], alias);
      OutputHoles(inputs, outputs[n]);
      if IsBucket(outputs[n]) && outputs[n].alias == alias {
        BucketIsNew(inputs, outputs, n, n);
      } else {
        assert outputs[n].alias == alias ==> CountOf(inputs, outputs[n]) == 0;
      }
      hide ExpressionHoles, ProjectedExpression, CountOf;
    }
  }

  lemma {:induction false} OrderHolesCount(inputs: Inputs, outputs: seq<Output>, orders: seq<Order>)
    requires forall i, j :: 0 <= i < j < |outputs| && IsBucket(outputs[i]) && IsBucket(outputs[j]) ==>
               outputs[i].alias != outputs[j].alias
    requires OrderKindsMatch(inputs, outputs, orders) && TermsOf(inputs, outputs, orders).Some?
    ensures |TermsHoles(TermsOf(inputs, outputs, orders).value)| == OrderCount(inputs, outputs, orders)
    decreases |orders|
  {
    hide *;
    if orders == [] {
      NoOrders(inputs, outputs);
      NoTerms(inputs, outputs);
    } else {
      var init, order := orders[..|orders| - 1], orders[|orders| - 1];
      TermsUnfold(inputs, outputs, orders);
      KindsUnfold(inputs, outputs, orders);
      OrderHolesCount(inputs, outputs, init);
      OneOrderMore(inputs, outputs, init, order);
      TargetHolesCount(inputs, outputs, order);
      TermEnd(TermsOf(inputs, outputs, init).value, Term(TargetOf(inputs, outputs, order).value, order.direction));
    }
  }

  lemma NoTerms(inputs: Inputs, outputs: seq<Output>)
    ensures TermsOf(inputs, outputs, []) == Some([]) && TermsHoles([]) == []
  {
  }

  lemma TermsUnfold(inputs: Inputs, outputs: seq<Output>, orders: seq<Order>)
    requires orders != [] && TermsOf(inputs, outputs, orders).Some?
    ensures var init, order := orders[..|orders| - 1], orders[|orders| - 1];
            && orders == init + [order] && TermsOf(inputs, outputs, init).Some? && TargetOf(inputs, outputs, order).Some?
            && TermsOf(inputs, outputs, orders)
               == Some(TermsOf(inputs, outputs, init).value + [Term(TargetOf(inputs, outputs, order).value, order.direction)])
  {
    hide TargetOf;
  }

  lemma KindsUnfold(inputs: Inputs, outputs: seq<Output>, orders: seq<Order>)
    requires orders != [] && OrderKindsMatch(inputs, outputs, orders)
    ensures var init, order := orders[..|orders| - 1], orders[|orders| - 1];
            OrderKindsMatch(inputs, outputs, init) && (order.kind == "time_bucket" ==> CountFor(inputs, outputs, order.alias) == 0)
  {
    hide CountFor;
  }

  /** An ORDER BY term repeats a numeric bucket's placeholders, and has none otherwise. */
  lemma TargetHolesCount(inputs: Inputs, outputs: seq<Output>, order: Order)
    requires forall i, j :: 0 <= i < j < |outputs| && IsBucket(outputs[i]) && IsBucket(outputs[j]) ==>
               outputs[i].alias != outputs[j].alias
    requires TargetOf(inputs, outputs, order).Some?
    requires order.kind == "time_bucket" ==> CountFor(inputs, outputs, order.alias) == 0
    ensures |TermHoles(Term(TargetOf(inputs, outputs, order).value, order.direction))|
         == (if order.kind == "numeric_bucket" then CountFor(inputs, outputs, order.alias) else 0)
  {
    hide BucketFor, CountFor, IsBucket;
    BucketForCount(inputs, outputs, order.alias);
  }

  lemma {:induction false} NoOrders(inputs: Inputs, outputs: seq<Output>)
    ensures OrderCount(inputs, outputs, []) == 0
  {
    hide CountOf;
    if outputs != [] {
      NoOrders(inputs, outputs[..|outputs| - 1]);
    }
  }

  /** What validation has counted before the buckets: the filter's values and the group limit. */
  function BaseParameters(spec: Spec): nat {
    (if spec.filter == None then 0 else FilterParameters(spec.filter.value)) + (if spec.mode == "grouped" then 1 else 0)
  }

  /** The statement has exactly as many placeholders as were authorized. */
  lemma PlaceholdersAreAuthorized(inputs: Inputs, spec: Spec)
    requires NamesApart(inputs, spec) && Compiles(inputs, spec) && OrderKindsMatch(inputs, spec.projection, spec.orderBy)
    requires spec.filter.Some? ==> ValidArities(spec.filter.value)
    ensures |Holes(StatementOf(inputs, spec))| == BaseParameters(spec) + BucketParameters(inputs, spec.projection, spec.orderBy)
  {
    hide *;
    SpecParts(inputs, spec);
    ProjectionCount(inputs, spec.projection);
    ChecksHaveNoHoles(Projections(inputs, spec.projection), HasTimeBucket(spec.projection));
    OrderHolesCount(inputs, spec.projection, spec.orderBy);
    ParametersSplit(inputs, spec.projection, spec.orderBy);
    if spec.filter.Some? {
      FilterHolesCount(spec.filter.value);
    }
    HolesParts(StatementOf(inputs, spec));
    BaseParts(spec);
  }

  lemma HolesParts(s: Statement)
    ensures |Holes(s)| == |ListHoles(s.projection)| + (if s.condition == None then 0 else |FilterHoles(s.condition.value)|)
                        + |ListHoles(s.groupBy)| + |TermsHoles(s.orderBy)| + (if s.limit then 1 else 0)
  {
    hide ListHoles, FilterHoles, TermsHoles;
  }

  lemma BaseParts(spec: Spec)
    ensures BaseParameters(spec) == (if spec.filter == None then 0 else FilterParameters(spec.filter.value))
                                  + (if spec.mode == "grouped" then 1 else 0)
  {
    hide FilterParameters;
  }
}
