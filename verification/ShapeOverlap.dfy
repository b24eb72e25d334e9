/**
 Which configured shapes overlap, said without hashes and sorting: the same parts up to letter case, and filters with
 the same predicates and groups in any order at every level (internal/config/config.go).
 */
module ShapeOverlap {
  import opened Wrappers
  import opened Sequences
  import opened Sorting
  import opened FilterNormalForm
  import opened AggregateShapes
  import opened ShapeMatching

  /** The configuration's hashes tell their messages apart. */
  ghost predicate Separating(env: Environment) {
    && (forall m, n :: env.hashFilter(m) == env.hashFilter(n) ==> m == n)
    && (forall m, n :: env.hashShape(m) == env.hashShape(n) ==> m == n)
  }

  /** The same predicate up to the case of its field, or groups whose members are alike in some order. */
  ghost predicate Alike(env: Environment, s: Shape, t: Shape)
    decreases s
  {
    match s
    case Leaf(representation, field, operator, kinds) =>
      && t.Leaf? && t.representation == representation && t.operator == operator && t.kinds == kinds
      && env.lower(t.field) == env.lower(field)
    case Node(operator, expressions) =>
      && t.Node? && t.operator == operator && |t.expressions| == |expressions|
      && exists p: seq<nat> :: Places(p, |expressions|) && AllAlike(env, s, p, t.expressions)
  }

  ghost predicate AllAlike(env: Environment, s: Shape, p: seq<nat>, expressions: seq<Shape>)
    requires s.Node? && Places(p, |s.expressions|) && |expressions| == |s.expressions|
    decreases s, 0
  {
    forall i :: 0 <= i < |p| ==> Alike(env, s.expressions[p[i]], expressions[i])
  }

  lemma {:induction false} OverlapsAt(env: Environment, expressions: seq<Shape>, i: nat)
    ensures |OverlapsOf(env, expressions)| == |expressions|
    ensures i < |expressions| ==> OverlapsOf(env, expressions)[i] == OverlapOf(env, expressions[i])
    decreases |expressions|
  {
    hide OverlapOf;
    if expressions != [] {
      OverlapsAt(env, expressions[..|expressions| - 1], i);
    }
  }

  lemma LeavesOverlap(env: Environment, s: Shape, t: Shape)
    requires Separating(env) && s.Leaf?
    ensures OverlapOf(env, s) == OverlapOf(env, t) <==> Alike(env, s, t)
  {
    hide SortBy, OverlapsOf;
  }

  lemma NodesOverlap(env: Environment, s: Shape, t: Shape)
    requires Separating(env) && s.Node?
    ensures OverlapOf(env, s) == OverlapOf(env, t) <==>
              t.Node? && t.operator == s.operator && multiset(OverlapsOf(env, s.expressions)) == multiset(OverlapsOf(env, t.expressions))
  {
    hide SortBy, OverlapsOf;
    if t.Node? {
      var a, b := OverlapsOf(env, s.expressions), OverlapsOf(env, t.expressions);
      SortBySorts(a, Itself);
      SortBySorts(b, Itself);
      NumbersDetermine(a);
      if multiset(a) == multiset(b) {
        SortByForgets(a, b, Itself);
      }
    }
  }

  /** One overlap digest means the same filter in some order. */
  lemma {:induction false} OverlapIsAlike(env: Environment, s: Shape, t: Shape)
    requires Separating(env) && OverlapOf(env, s) == OverlapOf(env, t)
    ensures Alike(env, s, t)
    decreases s
  {
    hide Separating, OverlapOf, OverlapsOf, Places;
    if s.Leaf? {
      LeavesOverlap(env, s, t);
    } else {
      NodesOverlap(env, s, t);
      OverlapsAt(env, s.expressions, 0);
      OverlapsAt(env, t.expressions, 0);
      var p := Permuted(OverlapsOf(env, t.expressions), OverlapsOf(env, s.expressions));
      PlacesInside(p, |s.expressions|);
      forall i | 0 <= i < |p| ensures Alike(env, s.expressions[p[i]], t.expressions[i]) {
        OverlapsAt(env, s.expressions, p[i]);
        OverlapsAt(env, t.expressions, i);
        OverlapIsAlike(env, s.expressions[p[i]], t.expressions[i]);
      }
      assert AllAlike(env, s, p, t.expressions);
    }
  }

  lemma GroupsAlike(env: Environment, s: Shape, t: Shape) returns (p: seq<nat>)
    requires s.Node? && Alike(env, s, t)
    ensures t.Node? && t.operator == s.operator && |t.expressions| == |s.expressions|
    ensures Places(p, |s.expressions|) && |p| == |s.expressions|
    ensures forall i :: 0 <= i < |p| ==> p[i] < |s.expressions| && Alike(env, s.expressions[p[i]], t.expressions[i])
  {
    p :| Places(p, |s.expressions|) && AllAlike(env, s, p, t.expressions);
  }

  /** And the same filter in any order has one overlap digest. */
  lemma {:induction false} AlikeOverlaps(env: Environment, s: Shape, t: Shape)
    requires Separating(env) && Alike(env, s, t)
    ensures OverlapOf(env, s) == OverlapOf(env, t)
    decreases s
  {
    hide Separating, Alike, OverlapOf, OverlapsOf, Places;
    if s.Leaf? {
      LeavesOverlap(env, s, t);
    } else {
      var p := GroupsAlike(env, s, t);
      var a, b := OverlapsOf(env, t.expressions), OverlapsOf(env, s.expressions);
      OverlapsAt(env, s.expressions, 0);
      OverlapsAt(env, t.expressions, 0);
      forall i | 0 <= i < |a| ensures p[i] < |b| && a[i] == b[p[i]] {
        OverlapsAt(env, s.expressions, p[i]);
        OverlapsAt(env, t.expressions, i);
        AlikeOverlaps(env, s.expressions[p[i]], t.expressions[i]);
      }
      PlacesKeepMultiset(a, b, p);
      NodesOverlap(env, s, t);
    }
  }

  predicate AlikeOutput(env: Environment, a: Output, b: Output) {
    && a.representation == b.representation && a.kind == b.kind && a.function_ == b.function_ && a.unit == b.unit
    && a.timezone == b.timezone && env.lower(a.field) == env.lower(b.field) && env.lower(a.alias) == env.lower(b.alias)
  }

  predicate AlikeOrder(env: Environment, a: Order, b: Order) {
    && a.representation == b.representation && a.kind == b.kind && a.direction == b.direction
    && env.lower(a.field) == env.lower(b.field) && env.lower(a.alias) == env.lower(b.alias)
  }

  /** Neither has a filter, or their filters are alike. */
  ghost predicate AlikeFilter(env: Environment, a: Option<Shape>, b: Option<Shape>) {
    if a == None || b == None then a == None && b == None else Alike(env, a.value, b.value)
  }

  /** Two configured shapes that could admit one query: every part is the same up to letter case. */
  ghost predicate Overlapping(env: Environment, a: AggregateShape, b: AggregateShape) {
    && a.mode == b.mode && env.lower(a.schema) == env.lower(b.schema) && env.lower(a.name) == env.lower(b.name)
    && |a.projection| == |b.projection|
    && (forall i :: 0 <= i < |a.projection| ==> AlikeOutput(env, a.projection[i], b.projection[i]))
    && AlikeFilter(env, a.filter, b.filter)
    && |a.orderBy| == |b.orderBy|
    && (forall i :: 0 <= i < |a.orderBy| ==> AlikeOrder(env, a.orderBy[i], b.orderBy[i]))
  }

  lemma OutputsAlike(env: Environment, a: seq<Output>, b: seq<Output>)
    ensures NameOutputs(env, true, a) == NameOutputs(env, true, b) <==>
              |a| == |b| && forall i :: 0 <= i < |a| ==> AlikeOutput(env, a[i], b[i])
  {
    var l, r := NameOutputs(env, true, a), NameOutputs(env, true, b);
    if |a| == |b| {
      forall i | 0 <= i < |a| ensures AlikeOutput(env, a[i], b[i]) <==> l[i] == r[i] {
      }
    }
  }

  lemma OrdersAlike(env: Environment, a: seq<Order>, b: seq<Order>)
    ensures NameOrders(env, true, a) == NameOrders(env, true, b) <==>
              |a| == |b| && forall i :: 0 <= i < |a| ==> AlikeOrder(env, a[i], b[i])
  {
    var l, r := NameOrders(env, true, a), NameOrders(env, true, b);
    if |a| == |b| {
      forall i | 0 <= i < |a| ensures AlikeOrder(env, a[i], b[i]) <==> l[i] == r[i] {
      }
    }
  }

  /** The configuration's signatures are equal exactly for shapes that overlap. */
  lemma OverlapDecided(env: Environment, a: AggregateShape, b: AggregateShape)
    requires Separating(env)
    ensures OverlapSignature(env, a) == OverlapSignature(env, b) <==> Overlapping(env, a, b)
  {
    hide OverlapOf, Alike, NameOutputs, NameOrders, AlikeOutput, AlikeOrder;
    OutputsAlike(env, a.projection, b.projection);
    OrdersAlike(env, a.orderBy, b.orderBy);
    if a.filter.Some? && b.filter.Some? {
      if OverlapOf(env, a.filter.value) == OverlapOf(env, b.filter.value) {
        OverlapIsAlike(env, a.filter.value, b.filter.value);
      }
      if Alike(env, a.filter.value, b.filter.value) {
        AlikeOverlaps(env, a.filter.value, b.filter.value);
      }
    }
  }

  /** validateAggregateShapes accepts exactly the lists in which no two shapes overlap. */
  lemma AcceptedListsDoNotOverlap(env: Environment, shapes: seq<AggregateShape>)
    requires Separating(env)
    ensures NoOverlap(env, shapes, |shapes|) <==> forall i, j :: 0 <= i < j < |shapes| ==> !Overlapping(env, shapes[i], shapes[j])
  {
    hide OverlapSignature, Overlapping, Separating;
    forall i, j | 0 <= i < j < |shapes|
      ensures OverlapSignature(env, shapes[i]) == OverlapSignature(env, shapes[j]) <==> Overlapping(env, shapes[i], shapes[j])
    {
      OverlapDecided(env, shapes[i], shapes[j]);
    }
  }
}
