/**
 Matching an aggregate query against the policy's shapes (internal/policy/policy.go), and the overlap
 check that the configuration passes first (internal/config/config.go).
 */
module AggregateShapes {
  import opened Wrappers
  import opened Sequences
  import opened Sorting
  import opened FilterNormalForm

  // ------------------------------------------------------------------- shapes

  /** A filter shape: types instead of values. A validated predicate has types, a validated group only expressions. */
  datatype Shape =
    | Leaf(representation: string, field: string, operator: string, kinds: seq<string>)
    | Node(operator: string, expressions: seq<Shape>)

  datatype Output = Output(
    representation: string, kind: string, field: string, function_: string, alias: string, unit: string, timezone: string)

  datatype Order = Order(representation: string, kind: string, field: string, alias: string, direction: string)

  /** A configured shape, without the controls that play no part in matching. */
  datatype AggregateShape = AggregateShape(
    mode: string, schema: string, name: string, projection: seq<Output>, filter: Option<Shape>, orderBy: seq<Order>,
    maximumLimit: int)

  /** What the policy compares; absent and empty parts are written alike, and everything else apart. */
  datatype Signature = Signature(
    mode: string, schema: string, name: string, projection: seq<Output>, filter: Option<Shape>, orderBy: seq<Order>)

  datatype Spec = Spec(
    mode: string, schema: string, name: string, projection: seq<Output>, filter: Option<Filter>, orderBy: seq<Order>,
    limit: int)

  /** Which kinds of identifier the server compares without case. */
  datatype Semantics = Semantics(schemas: bool, objects: bool, fields: bool)

  /** What the configuration hashes for one filter, and for a whole shape. */
  datatype FilterMessage =
    | LeafMessage(representation: string, field: string, operator: string, kinds: seq<string>)
    | NodeMessage(operator: string, expressions: seq<Digest>)

  datatype ShapeMessage = ShapeMessage(
    mode: string, schema: string, name: string, projection: seq<Output>, filter: Option<Digest>, orderBy: seq<Order>)

  /** Lower-casing and the hashes. `x` holds the digest shared with normalized queries. */
  datatype Environment = Environment(
    x: Schema, lower: string -> string, hashFilter: FilterMessage -> Digest, hashShape: ShapeMessage -> Digest)

  ghost predicate Lowers(env: Environment) {
    forall name :: env.lower(env.lower(name)) == env.lower(name)
  }

  function Name(env: Environment, insensitive: bool, name: string): string {
    if insensitive then env.lower(name) else name
  }

  function NameOutput(env: Environment, fields: bool, o: Output): Output {
    o.(field := Name(env, fields, o.field), alias := env.lower(o.alias))
  }

  function NameOrder(env: Environment, fields: bool, o: Order): Order {
    o.(field := Name(env, fields, o.field), alias := env.lower(o.alias))
  }

  function NameOutputs(env: Environment, fields: bool, outputs: seq<Output>): (r: seq<Output>)
    ensures |r| == |outputs|
  {
    seq(|outputs|, i requires 0 <= i < |outputs| => NameOutput(env, fields, outputs[i]))
  }

  function NameOrders(env: Environment, fields: bool, orders: seq<Order>): (r: seq<Order>)
    ensures |r| == |orders|
  {
    seq(|orders|, i requires 0 <= i < |orders| => NameOrder(env, fields, orders[i]))
  }

  // --------------------------------------------------------------- shape keys

  /** aggregateShapeFilterKey, which is AggregateFilterShapeDigest of the converted filter. */
  function KeyOf(x: Schema, s: Shape): Digest
    decreases s, 0
  {
    match s
    case Leaf(representation, field, operator, kinds) => x.digest(ShapePredicate(field, representation, operator, kinds))
    case Node(operator, expressions) => x.digest(ShapeGroup(operator, SortBy(KeysOf(x, expressions), Itself)))
  }

  function KeysOf(x: Schema, expressions: seq<Shape>): (keys: seq<Digest>)
    ensures |keys| == |expressions|
    decreases expressions, 1
  {
    if expressions == [] then []
    else KeysOf(x, expressions[..|expressions| - 1]) + [KeyOf(x, expressions[|expressions| - 1])]
  }

  datatype KeyedShape = KeyedShape(shape: Shape, key: Digest)

  function ShapePart(k: KeyedShape): Shape {
    k.shape
  }

  function PairKey(k: KeyedShape): (nat, nat) {
    (k.key, 0)
  }

  function KeyPart(k: KeyedShape): nat {
    k.key
  }

  function Pair(x: Schema, shapes: seq<Shape>): (r: seq<KeyedShape>)
    ensures |r| == |shapes|
  {
    if shapes == [] then []
    else Pair(x, shapes[..|shapes| - 1]) + [KeyedShape(shapes[|shapes| - 1], KeyOf(x, shapes[|shapes| - 1]))]
  }

  predicate EqualNeighbours(s: seq<KeyedShape>) {
    exists i :: 0 < i < |s| && s[i - 1].key == s[i].key
  }

  /** configuredAggregateShapeFilter: canonical fields, sorted children; two children of one shape are refused. */
  function Configure(env: Environment, fields: bool, s: Shape): Option<Shape>
    decreases s, 0
  {
    match s
    case Leaf(representation, field, operator, kinds) =>
      Some(Leaf(representation, Name(env, fields, field), operator, kinds))
    case Node(operator, expressions) =>
      var children := ConfigureAll(env, fields, expressions);
      if children == None then None
      else
        var sorted := SortBy(Pair(env.x, children.value), PairKey);
        if EqualNeighbours(sorted) then None else Some(Node(operator, Map(sorted, ShapePart)))
  }

  function ConfigureAll(env: Environment, fields: bool, expressions: seq<Shape>): Option<seq<Shape>>
    decreases expressions, 1
  {
    if expressions == [] then Some([])
    else
      var init := ConfigureAll(env, fields, expressions[..|expressions| - 1]);
      var last := Configure(env, fields, expressions[|expressions| - 1]);
      if init == None || last == None then None else Some(init.value + [last.value])
  }

  // ----------------------------------------------------------- overlap digests

  /** canonicalAggregateShapeFilter. */
  function OverlapOf(env: Environment, s: Shape): Digest
    decreases s, 0
  {
    match s
    case Leaf(representation, field, operator, kinds) =>
      env.hashFilter(LeafMessage(representation, env.lower(field), operator, kinds))
    case Node(operator, expressions) => env.hashFilter(NodeMessage(operator, SortBy(OverlapsOf(env, expressions), Itself)))
  }

  function OverlapsOf(env: Environment, expressions: seq<Shape>): seq<Digest>
    decreases expressions, 1
  {
    if expressions == [] then []
    else OverlapsOf(env, expressions[..|expressions| - 1]) + [OverlapOf(env, expressions[|expressions| - 1])]
  }

  /** canonicalAggregateRequestSignature. */
  function OverlapSignature(env: Environment, a: AggregateShape): Digest {
    env.hashShape(ShapeMessage(
      a.mode, env.lower(a.schema), env.lower(a.name), NameOutputs(env, true, a.projection),
      if a.filter == None then None else Some(OverlapOf(env, a.filter.value)), NameOrders(env, true, a.orderBy)))
  }

  /** configuredAggregateShapeSignature. */
  function ConfiguredSignature(env: Environment, semantics: Semantics, a: AggregateShape): Option<Signature> {
    var filter := if a.filter == None then Some(None) else
      (var c := Configure(env, semantics.fields, a.filter.value); if c == None then None else Some(c));
    if filter == None then None
    else
      Some(Signature(
        a.mode, Name(env, semantics.schemas, a.schema), Name(env, semantics.objects, a.name),
        NameOutputs(env, semantics.fields, a.projection), filter.value, NameOrders(env, semantics.fields, a.orderBy)))
  }

  // ---------------------------------------------- configuration keeps overlaps

  lemma LowerName(env: Environment, insensitive: bool, name: string)
    requires Lowers(env)
    ensures env.lower(Name(env, insensitive, name)) == env.lower(name)
  {
  }

  lemma {:induction false} OverlapsAreMap(env: Environment, expressions: seq<Shape>, f: Shape -> Digest)
    requires forall s :: f(s) == OverlapOf(env, s)
    ensures OverlapsOf(env, expressions) == Map(expressions, f)
    decreases |expressions|
  {
    hide OverlapOf;
    if expressions != [] {
      OverlapsAreMap(env, expressions[..|expressions| - 1], f);
    }
  }

  lemma OverlapsInAnyOrder(env: Environment, a: seq<Shape>, b: seq<Shape>)
    requires multiset(a) == multiset(b)
    ensures multiset(OverlapsOf(env, a)) == multiset(OverlapsOf(env, b))
  {
    hide OverlapOf, OverlapsOf, Map;
    var f := (s: Shape) => OverlapOf(env, s);
    OverlapsAreMap(env, a, f);
    OverlapsAreMap(env, b, f);
    MapMultiset(a, b, f);
  }

  lemma {:induction false} PairShapes(x: Schema, shapes: seq<Shape>)
    ensures Map(Pair(x, shapes), ShapePart) == shapes
    decreases |shapes|
  {
    hide KeyOf;
    if shapes != [] {
      PairShapes(x, shapes[..|shapes| - 1]);
      var pairs := Pair(x, shapes);
      assert pairs[..|pairs| - 1] == Pair(x, shapes[..|shapes| - 1]);
    }
  }

  /** The configured children are the canonical ones in another order. */
  lemma SortedShapes(x: Schema, shapes: seq<Shape>)
    ensures multiset(Map(SortBy(Pair(x, shapes), PairKey), ShapePart)) == multiset(shapes)
  {
    hide *;
    SortBySorts(Pair(x, shapes), PairKey);
    MapMultiset(SortBy(Pair(x, shapes), PairKey), Pair(x, shapes), ShapePart);
    PairShapes(x, shapes);
  }

  lemma {:induction false} ConfigureKeepsOverlap(env: Environment, fields: bool, s: Shape)
    requires Lowers(env) && Configure(env, fields, s).Some?
    ensures OverlapOf(env, Configure(env, fields, s).value) == OverlapOf(env, s)
    decreases s, 1
  {
    if s.Leaf? {
      LowerName(env, fields, s.field);
    } else {
      var children := ConfigureAll(env, fields, s.expressions).value;
      var sorted := Map(SortBy(Pair(env.x, children), PairKey), ShapePart);
      assert Configure(env, fields, s).value == Node(s.operator, sorted);
      hide ConfigureAll, Configure, SortBy, Pair, Map, EqualNeighbours, OverlapsOf, Lowers;
      AllKeepOverlap(env, fields, s.expressions);
      SortedShapes(env.x, children);
      OverlapsInAnyOrder(env, sorted, children);
      NumbersDetermine(OverlapsOf(env, sorted));
      SortByForgets(OverlapsOf(env, sorted), OverlapsOf(env, children), Itself);
    }
  }

  lemma {:induction false} AllKeepOverlap(env: Environment, fields: bool, expressions: seq<Shape>)
    requires Lowers(env) && ConfigureAll(env, fields, expressions).Some?
    ensures OverlapsOf(env, ConfigureAll(env, fields, expressions).value) == OverlapsOf(env, expressions)
    decreases expressions, 0, |expressions|
  {
    hide Configure, OverlapOf, Lowers;
    if expressions != [] {
      var n := |expressions| - 1;
      AllKeepOverlap(env, fields, expressions[..n]);
      ConfigureKeepsOverlap(env, fields, expressions[n]);
      var shapes := ConfigureAll(env, fields, expressions).value;
      assert shapes[..|shapes| - 1] == ConfigureAll(env, fields, expressions[..n]).value;
    }
  }

  lemma LowerOutputs(env: Environment, fields: bool, a: seq<Output>, b: seq<Output>)
    requires Lowers(env) && NameOutputs(env, fields, a) == NameOutputs(env, fields, b)
    ensures NameOutputs(env, true, a) == NameOutputs(env, true, b)
  {
    var l, r := NameOutputs(env, true, a), NameOutputs(env, true, b);
    forall i | 0 <= i < |a| ensures |b| == |a| && l[i] == r[i] {
      assert NameOutputs(env, fields, a)[i] == NameOutputs(env, fields, b)[i];
      LowerName(env, fields, a[i].field);
      LowerName(env, fields, b[i].field);
    }
    assert |NameOutputs(env, fields, a)| == |NameOutputs(env, fields, b)|;
    assert l == r;
  }

  lemma LowerOrders(env: Environment, fields: bool, a: seq<Order>, b: seq<Order>)
    requires Lowers(env) && NameOrders(env, fields, a) == NameOrders(env, fields, b)
    ensures NameOrders(env, true, a) == NameOrders(env, true, b)
  {
    var l, r := NameOrders(env, true, a), NameOrders(env, true, b);
    forall i | 0 <= i < |a| ensures |b| == |a| && l[i] == r[i] {
      assert NameOrders(env, fields, a)[i] == NameOrders(env, fields, b)[i];
      LowerName(env, fields, a[i].field);
      LowerName(env, fields, b[i].field);
    }
    assert |NameOrders(env, fields, a)| == |NameOrders(env, fields, b)|;
    assert l == r;
  }

  /** Two shapes that look the same under some case semantics overlap for the configuration. */
  lemma SameSignatureOverlaps(env: Environment, semantics: Semantics, a: AggregateShape, b: AggregateShape)
    requires Lowers(env) && ConfiguredSignature(env, semantics, a).Some?
    requires ConfiguredSignature(env, semantics, a) == ConfiguredSignature(env, semantics, b)
    ensures OverlapSignature(env, a) == OverlapSignature(env, b)
  {
    hide Configure, OverlapOf, NameOutputs, NameOrders, Lowers, Name;
    LowerName(env, semantics.schemas, a.schema);
    LowerName(env, semantics.schemas, b.schema);
    LowerName(env, semantics.objects, a.name);
    LowerName(env, semantics.objects, b.name);
    LowerOutputs(env, semantics.fields, a.projection, b.projection);
    LowerOrders(env, semantics.fields, a.orderBy, b.orderBy);
    if a.filter.Some? {
      ConfigureKeepsOverlap(env, semantics.fields, a.filter.value);
    }
    if b.filter.Some? {
      ConfigureKeepsOverlap(env, semantics.fields, b.filter.value);
    }
  }

  // ------------------------------------------------------------ overlap check

  /** No two shapes have the same overlap signature. */
  predicate NoOverlap(env: Environment, shapes: seq<AggregateShape>, n: nat) {
    n <= |shapes| && forall i, j :: 0 <= i < j < n ==> OverlapSignature(env, shapes[i]) != OverlapSignature(env, shapes[j])
  }

  /** The part of validateAggregateShapes that refuses overlapping shapes. */
  method CheckOverlap(env: Environment, shapes: seq<AggregateShape>) returns (ok: bool)
    ensures ok == NoOverlap(env, shapes, |shapes|)
  {
    hide OverlapSignature;
    var seen: map<Digest, nat> := map[];
    for index := 0 to |shapes|
      invariant forall d :: d in seen ==> seen[d] < index && OverlapSignature(env, shapes[seen[d]]) == d
      invariant forall i :: 0 <= i < index ==> OverlapSignature(env, shapes[i]) in seen
      invariant NoOverlap(env, shapes, index)
    {
      var signature := OverlapSignature(env, shapes[index]);
      if signature in seen {
        return false;
      }
      seen := seen[signature := index];
    }
    ok := true;
  }

  // ----------------------------------------------------------------- matching

  /** queryAggregateShapeFilter. */
  function QueryShape(f: Filter): Shape
    decreases f, 0
  {
    match f
    case Predicate(field, representation, operator, values) => Leaf(representation, field, operator, Map(values, KindOf))
    case Group(operator, expressions) => Node(operator, QueryShapes(expressions))
  }

  function QueryShapes(expressions: seq<Filter>): seq<Shape>
    decreases expressions, 1
  {
    if expressions == [] then []
    else QueryShapes(expressions[..|expressions| - 1]) + [QueryShape(expressions[|expressions| - 1])]
  }

  /** aggregateQuerySignature. */
  function QuerySignature(spec: Spec): Signature {
    Signature(spec.mode, spec.schema, spec.name, spec.projection,
              if spec.filter == None then None else Some(QueryShape(spec.filter.value)), spec.orderBy)
  }

  /** The query's output is the configured one; aliases never count case, and fields where the server does not. */
  predicate SameOutput(env: Environment, fields: bool, configured: Output, o: Output) {
    && o.representation == configured.representation && o.kind == configured.kind && o.function_ == configured.function_
    && o.unit == configured.unit && o.timezone == configured.timezone
    && o.field == (if fields then env.lower(configured.field) else configured.field) && o.alias == env.lower(configured.alias)
  }

  predicate SameOrder(env: Environment, fields: bool, configured: Order, o: Order) {
    && o.representation == configured.representation && o.kind == configured.kind && o.direction == configured.direction
    && o.field == (if fields then env.lower(configured.field) else configured.field) && o.alias == env.lower(configured.alias)
  }

  /** Neither has a filter, or the query's is what the configured one becomes. */
  predicate SameFilter(env: Environment, fields: bool, configured: Option<Shape>, filter: Option<Filter>) {
    if configured == None || filter == None then configured == None && filter == None
    else Configure(env, fields, configured.value) == Some(QueryShape(filter.value))
  }

  /** The shape admits the query under the given semantics: part by part, and within the limit of grouped queries. */
  predicate Admits(env: Environment, semantics: Semantics, shape: AggregateShape, spec: Spec) {
    && (spec.mode == "grouped" ==> spec.limit <= shape.maximumLimit) && spec.mode == shape.mode
    && spec.schema == (if semantics.schemas then env.lower(shape.schema) else shape.schema)
    && spec.name == (if semantics.objects then env.lower(shape.name) else shape.name)
    && |spec.projection| == |shape.projection|
    && (forall i :: 0 <= i < |spec.projection| ==>
          SameOutput(env, semantics.fields, shape.projection[i], spec.projection[i]))
    && SameFilter(env, semantics.fields, shape.filter, spec.filter)
    && |spec.orderBy| == |shape.orderBy|
    && (forall i :: 0 <= i < |spec.orderBy| ==> SameOrder(env, semantics.fields, shape.orderBy[i], spec.orderBy[i]))
  }

  lemma OutputsAreNamed(env: Environment, fields: bool, a: seq<Output>, b: seq<Output>)
    ensures NameOutputs(env, fields, a) == b <==>
              |b| == |a| && forall i :: 0 <= i < |b| ==> SameOutput(env, fields, a[i], b[i])
  {
    var named := NameOutputs(env, fields, a);
    if |b| == |a| {
      forall i | 0 <= i < |b| ensures SameOutput(env, fields, a[i], b[i]) <==> named[i] == b[i] {
      }
    }
  }

  lemma OrdersAreNamed(env: Environment, fields: bool, a: seq<Order>, b: seq<Order>)
    ensures NameOrders(env, fields, a) == b <==>
              |b| == |a| && forall i :: 0 <= i < |b| ==> SameOrder(env, fields, a[i], b[i])
  {
    var named := NameOrders(env, fields, a);
    if |b| == |a| {
      forall i | 0 <= i < |b| ensures SameOrder(env, fields, a[i], b[i]) <==> named[i] == b[i] {
      }
    }
  }

  /** Comparing the two signatures decides whether the shape admits the query. */
  lemma SignaturesDecide(env: Environment, semantics: Semantics, shape: AggregateShape, spec: Spec)
    ensures Admits(env, semantics, shape, spec) ==
              (!(spec.mode == "grouped" && spec.limit > shape.maximumLimit)
               && ConfiguredSignature(env, semantics, shape) == Some(QuerySignature(spec)))
  {
    hide Configure, QueryShape, NameOutputs, NameOrders, SameOutput, SameOrder;
    OutputsAreNamed(env, semantics.fields, shape.projection, spec.projection);
    OrdersAreNamed(env, semantics.fields, shape.orderBy, spec.orderBy);
  }

  /** Whatever the case semantics, a configuration without overlaps has at most one shape for any query. */
  lemma AtMostOneShape(env: Environment, semantics: Semantics, shapes: seq<AggregateShape>, spec: Spec, i: nat, j: nat)
    requires Lowers(env) && NoOverlap(env, shapes, |shapes|) && i < |shapes| && j < |shapes|
    requires Admits(env, semantics, shapes[i], spec) && Admits(env, semantics, shapes[j], spec)
    ensures i == j
  {
    hide OverlapSignature, ConfiguredSignature, QuerySignature, Lowers, Admits;
    SignaturesDecide(env, semantics, shapes[i], spec);
    SignaturesDecide(env, semantics, shapes[j], spec);
    SameSignatureOverlaps(env, semantics, shapes[i], shapes[j]);
  }

  datatype Match = Unmatched | Matched(index: nat) | Ambiguous

  /** Among the first n shapes: none admits the query, exactly one does, or several do. */
  ghost predicate Decides(env: Environment, semantics: Semantics, shapes: seq<AggregateShape>, spec: Spec, n: nat, m: Match) {
    n <= |shapes|
    && match m
       case Unmatched => forall i :: 0 <= i < n ==> !Admits(env, semantics, shapes[i], spec)
       case Matched(k) =>
         k < n && Admits(env, semantics, shapes[k], spec)
         && forall i :: 0 <= i < n && i != k ==> !Admits(env, semantics, shapes[i], spec)
       case Ambiguous =>
         exists i, j :: 0 <= i < j < n && Admits(env, semantics, shapes[i], spec) && Admits(env, semantics, shapes[j], spec)
  }

  /** The ambiguous branch is unreachable behind the overlap check. */
  lemma NeverAmbiguous(env: Environment, semantics: Semantics, shapes: seq<AggregateShape>, spec: Spec)
    requires Lowers(env) && NoOverlap(env, shapes, |shapes|)
    ensures !Decides(env, semantics, shapes, spec, |shapes|, Ambiguous)
  {
    hide Admits, NoOverlap, Lowers;
    if Decides(env, semantics, shapes, spec, |shapes|, Ambiguous) {
      var i, j :| 0 <= i < j < |shapes| && Admits(env, semantics, shapes[i], spec) && Admits(env, semantics, shapes[j], spec);
      AtMostOneShape(env, semantics, shapes, spec, i, j);
    }
  }

  /** matchAggregateShape, with its two refusals told apart. */
  method MatchShape(env: Environment, semantics: Semantics, shapes: seq<AggregateShape>, spec: Spec) returns (m: Match)
    ensures Decides(env, semantics, shapes, spec, |shapes|, m)
    ensures Lowers(env) && NoOverlap(env, shapes, |shapes|) ==> m != Ambiguous
  {
    hide ConfiguredSignature, QuerySignature, NoOverlap, Lowers, Admits;
    var query := QuerySignature(spec);
    m := Unmatched;
    for index := 0 to |shapes|
      invariant Decides(env, semantics, shapes, spec, index, m) && !m.Ambiguous?
    {
      var shape := shapes[index];
      SignaturesDecide(env, semantics, shape, spec);
      if spec.mode == "grouped" && spec.limit > shape.maximumLimit {
        continue;
      }
      var signature := ConfiguredSignature(env, semantics, shape);
      if signature == None || signature.value != query {
        continue;
      }
      assert Admits(env, semantics, shapes[index], spec);
      if m.Matched? {
        AmbiguousFrom(env, semantics, shapes, spec, m.index, index);
        m := Ambiguous;
        return;
      }
      m := Matched(index);
    }
  }

  lemma AmbiguousFrom(env: Environment, semantics: Semantics, shapes: seq<AggregateShape>, spec: Spec, i: nat, j: nat)
    requires i < j < |shapes| && Admits(env, semantics, shapes[i], spec) && Admits(env, semantics, shapes[j], spec)
    ensures Decides(env, semantics, shapes, spec, |shapes|, Ambiguous)
    ensures !(Lowers(env) && NoOverlap(env, shapes, |shapes|))
  {
    hide Admits, NoOverlap, Lowers;
    if Lowers(env) && NoOverlap(env, shapes, |shapes|) {
      AtMostOneShape(env, semantics, shapes, spec, i, j);
    }
  }

  // ------------------------------------------------------------ key agreement

  /** At every level the children stand in the order of their shape keys. */
  predicate InOrder(x: Schema, s: Shape)
    decreases s, 0
  {
    match s
    case Leaf(_, _, _, _) => true
    case Node(_, expressions) => SortedBy(KeysOf(x, expressions), Itself) && AllInOrder(x, expressions)
  }

  predicate AllInOrder(x: Schema, expressions: seq<Shape>)
    decreases expressions, 1
  {
    forall i :: 0 <= i < |expressions| ==> InOrder(x, expressions[i])
  }

  lemma OrderedKey(x: Schema, operator: string, expressions: seq<Shape>)
    requires SortedBy(KeysOf(x, expressions), Itself)
    ensures KeyOf(x, Node(operator, expressions)) == x.digest(ShapeGroup(operator, KeysOf(x, expressions)))
  {
    hide KeysOf, SortBy, SortedBy;
    NumbersDetermine(KeysOf(x, expressions));
    SortByFixed(KeysOf(x, expressions), Itself);
  }

  /** Ordered shapes with the same key are the same shape. */
  lemma {:induction false} KeyNamesShape(x: Schema, a: Shape, b: Shape)
    requires Injective(x) && InOrder(x, a) && InOrder(x, b) && KeyOf(x, a) == KeyOf(x, b)
    ensures a == b
    decreases a, 1
  {
    if a.Leaf? {
      assert b.Leaf?;
    } else {
      assert b.Node?;
      OrderedKey(x, a.operator, a.expressions);
      OrderedKey(x, b.operator, b.expressions);
      assert a == Node(a.operator, a.expressions) && b == Node(b.operator, b.expressions);
      hide KeyOf, KeysOf, SortedBy, AllInOrder;
      assert ShapeGroup(a.operator, KeysOf(x, a.expressions)) == ShapeGroup(b.operator, KeysOf(x, b.expressions));
      hide Injective;
      KeysNameShapes(x, a.expressions, b.expressions);
    }
  }

  lemma {:induction false} KeysNameShapes(x: Schema, a: seq<Shape>, b: seq<Shape>)
    requires Injective(x) && AllInOrder(x, a) && AllInOrder(x, b) && KeysOf(x, a) == KeysOf(x, b)
    ensures a == b
    decreases a, 0, |a|
  {
    hide KeyOf, InOrder, Injective;
    assert |KeysOf(x, a)| == |a| && |KeysOf(x, b)| == |b|;
    if a != [] {
      var n := |a| - 1;
      assert KeysOf(x, a)[..n] == KeysOf(x, a[..n]) && KeysOf(x, b)[..n] == KeysOf(x, b[..n]);
      assert KeysOf(x, a)[n] == KeyOf(x, a[n]) && KeysOf(x, b)[n] == KeyOf(x, b[n]);
      KeysNameShapes(x, a[..n], b[..n]);
      KeyNamesShape(x, a[n], b[n]);
    }
  }

  /** The shape of a normalized filter is in order, and its key is the one normalization computed. */
  ghost predicate ShapeFits(x: Schema, k: Keyed) {
    InOrder(x, QueryShape(k.filter)) && KeyOf(x, QueryShape(k.filter)) == k.shape
  }

  lemma {:induction false} NormalShapeFits(x: Schema, f: Filter)
    requires Normalize(x, f).Some?
    ensures ShapeFits(x, Normalize(x, f).value)
    decreases f, 1
  {
    if f.Predicate? {
      hide BindAll, Map;
    } else {
      var children := NormalizeAll(x, f.expressions).value;
      hide *;
      NormalizeGroup(x, f.operator, f.expressions);
      GroupExpressions(f);
      AllShapesFit(x, f.expressions);
      GroupedParts(x, f.operator, children);
      SortSorts(children);
      FitInAnyOrder(x, children, Sort(children));
      SortedShapesFit(x, f.operator, Sort(children));
    }
  }

  ghost predicate AllFit(x: Schema, s: seq<Keyed>) {
    forall i :: 0 <= i < |s| ==> ShapeFits(x, s[i])
  }

  lemma {:induction false} AllShapesFit(x: Schema, expressions: seq<Filter>)
    requires NormalizeAll(x, expressions).Some?
    ensures AllFit(x, NormalizeAll(x, expressions).value)
    decreases expressions, 0
  {
    hide Normalize, NormalizeAll, ShapeFits;
    var s := NormalizeAll(x, expressions).value;
    AllAt(x, expressions, 0);
    forall i | 0 <= i < |s| ensures ShapeFits(x, s[i]) {
      AllAt(x, expressions, i);
      NormalShapeFits(x, expressions[i]);
    }
  }

  lemma FitInAnyOrder(x: Schema, a: seq<Keyed>, b: seq<Keyed>)
    requires AllFit(x, a) && multiset(a) == multiset(b)
    ensures AllFit(x, b)
  {
    hide ShapeFits;
    forall i | 0 <= i < |b| ensures ShapeFits(x, b[i]) {
      InMultiset(b, i);
      var j := PlaceOf(a, b[i]);
      assert ShapeFits(x, a[j]);
    }
  }

  lemma {:induction false} QueryShapesFit(x: Schema, s: seq<Keyed>)
    requires AllFit(x, s)
    ensures KeysOf(x, QueryShapes(Map(s, FilterOf))) == Map(s, ShapeOf)
    ensures AllInOrder(x, QueryShapes(Map(s, FilterOf)))
    decreases |s|
  {
    hide InOrder, KeyOf, QueryShape;
    if s != [] {
      var n := |s| - 1;
      QueryShapesFit(x, s[..n]);
      assert ShapeFits(x, s[n]);
      assert Map(s, FilterOf)[..n] == Map(s[..n], FilterOf);
      var shapes := QueryShapes(Map(s, FilterOf));
      assert shapes[..|shapes| - 1] == QueryShapes(Map(s[..n], FilterOf));
      QueryShapesLength(Map(s[..n], FilterOf));
    }
  }

  lemma {:induction false} QueryShapesLength(expressions: seq<Filter>)
    ensures |QueryShapes(expressions)| == |expressions|
    decreases |expressions|
  {
    hide QueryShape;
    if expressions != [] {
      QueryShapesLength(expressions[..|expressions| - 1]);
    }
  }

  lemma ShapesSorted(s: seq<Keyed>)
    requires Sorted(s)
    ensures SortedBy(Map(s, ShapeOf), Itself)
  {
    hide Map;
    var shapes := Map(s, ShapeOf);
    forall i, j | 0 <= i < j < |shapes| ensures NotAfter(Itself(shapes[i]), Itself(shapes[j])) {
      MapAt(s, ShapeOf, i);
      MapAt(s, ShapeOf, j);
      assert NotAfter(BothKeys(s[i]), BothKeys(s[j]));
    }
  }

  lemma SortedShapesFit(x: Schema, operator: string, s: seq<Keyed>)
    requires AllFit(x, s) && Sorted(s)
    ensures ShapeFits(x, GroupOf(x, operator, s))
  {
    hide *;
    QueryShapesFit(x, s);
    ShapesSorted(s);
    OrderedKey(x, operator, QueryShapes(Map(s, FilterOf)));
    GroupFits(x, operator, s);
  }

  lemma GroupFits(x: Schema, operator: string, s: seq<Keyed>)
    requires SortedBy(KeysOf(x, QueryShapes(Map(s, FilterOf))), Itself) && AllInOrder(x, QueryShapes(Map(s, FilterOf)))
    requires KeyOf(x, Node(operator, QueryShapes(Map(s, FilterOf)))) == x.digest(ShapeGroup(operator, Map(s, ShapeOf)))
    ensures ShapeFits(x, GroupOf(x, operator, s))
  {
    hide KeyOf, KeysOf, SortedBy, AllInOrder, Map, QueryShapes;
  }

  lemma {:induction false} ConfiguredInOrder(env: Environment, fields: bool, s: Shape)
    requires Configure(env, fields, s).Some?
    ensures InOrder(env.x, Configure(env, fields, s).value)
    decreases s, 1
  {
    if s.Node? {
      var children := ConfigureAll(env, fields, s.expressions).value;
      var sorted := SortBy(Pair(env.x, children), PairKey);
      assert Configure(env, fields, s).value == Node(s.operator, Map(sorted, ShapePart));
      hide ConfigureAll, Configure, SortBy, Pair, Map, EqualNeighbours, SortedBy, KeysOf, AllInOrder;
      AllConfiguredInOrder(env, fields, s.expressions);
      SortedInOrder(env.x, children);
    }
  }

  lemma {:induction false} AllConfiguredInOrder(env: Environment, fields: bool, expressions: seq<Shape>)
    requires ConfigureAll(env, fields, expressions).Some?
    ensures AllInOrder(env.x, ConfigureAll(env, fields, expressions).value)
    decreases expressions, 0, |expressions|
  {
    hide Configure, InOrder;
    if expressions != [] {
      AllConfiguredInOrder(env, fields, expressions[..|expressions| - 1]);
      ConfiguredInOrder(env, fields, expressions[|expressions| - 1]);
    }
  }

  predicate PairsFit(x: Schema, s: seq<KeyedShape>) {
    forall i :: 0 <= i < |s| ==> s[i].key == KeyOf(x, s[i].shape)
  }

  lemma {:induction false} PairFits(x: Schema, shapes: seq<Shape>)
    ensures PairsFit(x, Pair(x, shapes))
    decreases |shapes|
  {
    hide KeyOf;
    if shapes != [] {
      PairFits(x, shapes[..|shapes| - 1]);
    }
  }

  lemma {:induction false} PairKeys(x: Schema, s: seq<KeyedShape>)
    requires PairsFit(x, s)
    ensures KeysOf(x, Map(s, ShapePart)) == Map(s, KeyPart)
    decreases |s|
  {
    hide KeyOf;
    if s != [] {
      var n := |s| - 1;
      PairKeys(x, s[..n]);
      assert Map(s, ShapePart)[..n] == Map(s[..n], ShapePart);
    }
  }

  lemma SortedInOrder(x: Schema, shapes: seq<Shape>)
    requires AllInOrder(x, shapes)
    ensures var sorted := Map(SortBy(Pair(x, shapes), PairKey), ShapePart);
            SortedBy(KeysOf(x, sorted), Itself) && AllInOrder(x, sorted)
  {
    hide *;
    var pairs := Pair(x, shapes);
    var sorted := SortBy(pairs, PairKey);
    SortBySorts(pairs, PairKey);
    PairFits(x, shapes);
    PairsFitAnywhere(x, pairs, sorted);
    PairKeys(x, sorted);
    KeysSorted(sorted);
    SortedShapes(x, shapes);
    InOrderAnywhere(x, shapes, Map(sorted, ShapePart));
  }

  lemma PairsFitAnywhere(x: Schema, a: seq<KeyedShape>, b: seq<KeyedShape>)
    requires PairsFit(x, a) && multiset(a) == multiset(b)
    ensures PairsFit(x, b)
  {
    hide KeyOf;
    forall i | 0 <= i < |b| ensures b[i].key == KeyOf(x, b[i].shape) {
      InMultiset(b, i);
      var j := PlaceOf(a, b[i]);
      assert a[j].key == KeyOf(x, a[j].shape);
    }
  }

  lemma InOrderAnywhere(x: Schema, a: seq<Shape>, b: seq<Shape>)
    requires AllInOrder(x, a) && multiset(a) == multiset(b)
    ensures AllInOrder(x, b)
  {
    hide InOrder;
    forall i | 0 <= i < |b| ensures InOrder(x, b[i]) {
      InMultiset(b, i);
      var j := PlaceOf(a, b[i]);
      assert InOrder(x, a[j]);
    }
  }

  lemma KeysSorted(s: seq<KeyedShape>)
    requires SortedBy(s, PairKey)
    ensures SortedBy(Map(s, KeyPart), Itself)
  {
    hide Map;
    var keys := Map(s, KeyPart);
    forall i, j | 0 <= i < j < |keys| ensures NotAfter(Itself(keys[i]), Itself(keys[j])) {
      MapAt(s, KeyPart, i);
      MapAt(s, KeyPart, j);
      assert NotAfter(PairKey(s[i]), PairKey(s[j]));
    }
  }

  /**
   The policy's sort keys agree with those of the normalized query: a configured filter equals the
   query's exactly when the policy's key for it is the query's shape key.
   */
  lemma FilterMatchesByKey(env: Environment, fields: bool, f: Filter, s: Shape)
    requires Injective(env.x) && Normalize(env.x, f).Some? && Configure(env, fields, s).Some?
    ensures Configure(env, fields, s).value == QueryShape(Normalize(env.x, f).value.filter)
       <==> KeyOf(env.x, Configure(env, fields, s).value) == Normalize(env.x, f).value.shape
  {
    hide Normalize, Configure, QueryShape, KeyOf, InOrder, Injective;
    var k, c := Normalize(env.x, f).value, Configure(env, fields, s).value;
    NormalShapeFits(env.x, f);
    ConfiguredInOrder(env, fields, s);
    if KeyOf(env.x, c) == k.shape {
      KeyNamesShape(env.x, c, QueryShape(k.filter));
    }
  }
}
