/**
 Which configured filter a query's filter matches, said without keys and sorting: the same predicates and groups, in
 any order at every level (internal/policy/policy.go). Comparing configured shapes and comparing keys both decide it.
 */
module ShapeMatching {
  import opened Wrappers
  import opened Sequences
  import opened Sorting
  import opened FilterNormalForm
  import opened AggregateShapes

  // ------------------------------------------------------------- permutations

  /** Every place of a list of this length, once. */
  predicate Places(p: seq<nat>, n: nat) {
    && |p| == n && (forall i :: 0 <= i < n ==> p[i] < n) && (forall j: nat :: j < n ==> j in p)
    && (forall i, j :: 0 <= i < j < n ==> p[i] != p[j])
  }

  function Skip(m: nat, k: nat): nat {
    if k < m then k else k + 1
  }

  function SkipAll(m: nat, p: seq<nat>): (q: seq<nat>)
    ensures |q| == |p| && forall i :: 0 <= i < |p| ==> q[i] == Skip(m, p[i])
  {
    seq(|p|, i requires 0 <= i < |p| => Skip(m, p[i]))
  }

  lemma PlacesGrow(p: seq<nat>, n: nat, m: nat)
    requires Places(p, n) && m <= n
    ensures Places(SkipAll(m, p) + [m], n + 1)
  {
    var q := SkipAll(m, p) + [m];
    forall j: nat | j < n + 1 ensures j in q {
      if j == m {
        assert q[n] == m;
      } else {
        var k := if j < m then j else j - 1;
        assert k in p;
        var i :| 0 <= i < |p| && p[i] == k;
        assert q[i] == j;
      }
    }
  }

  /** Equal multisets are the same elements at permuted places. */
  lemma {:induction false} Permuted<T>(a: seq<T>, b: seq<T>) returns (p: seq<nat>)
    requires multiset(a) == multiset(b)
    ensures |a| == |b| && Places(p, |a|) && forall i :: 0 <= i < |a| ==> a[i] == b[p[i]]
    decreases |a|
  {
    hide Places, SkipAll, Skip;
    SameLength(a, b);
    if a == [] {
      p := [];
      NoPlaces();
    } else {
      var n := |a| - 1;
      InMultiset(a, n);
      var m := PlaceOf(b, a[n]);
      Removed(b, m);
      Removed(a, n);
      NothingAfter(a);
      var rest := b[..m] + b[m + 1..];
      var inner := Permuted(a[..n], rest);
      PlacesInside(inner, n);
      PlacesGrow(inner, n, m);
      p := SkipAll(m, inner) + [m];
      forall i | 0 <= i < |a| ensures p[i] < |b| && a[i] == b[p[i]] {
        if i < n {
          RestPlace(b, m, inner[i]);
          assert a[..n][i] == rest[inner[i]];
        }
      }
    }
  }

  lemma NoPlaces()
    ensures Places([], 0)
  {
  }

  lemma PlacesInside(p: seq<nat>, n: nat)
    requires Places(p, n)
    ensures |p| == n && forall i :: 0 <= i < n ==> p[i] < n
  {
  }

  lemma RestPlace<T>(b: seq<T>, m: nat, k: nat)
    requires m < |b| && k < |b| - 1
    ensures Skip(m, k) < |b| && (b[..m] + b[m + 1..])[k] == b[Skip(m, k)]
  {
  }

  /** The elements of a are those of b at the given places. */
  predicate At<T(==)>(a: seq<T>, b: seq<T>, p: seq<nat>) {
    |a| == |b| == |p| && forall i :: 0 <= i < |a| ==> p[i] < |b| && a[i] == b[p[i]]
  }

  lemma AtShrinks<T>(a: seq<T>, b: seq<T>, p: seq<nat>, q: seq<nat>)
    requires a != [] && At(a, b, p) && |q| == |a| - 1
    requires forall i :: 0 <= i < |q| ==> q[i] < |q| && p[i] == Skip(p[|q|], q[i])
    ensures var n := |a| - 1; p[n] < |b| && a[n] == b[p[n]] && At(a[..n], b[..p[n]] + b[p[n] + 1..], q)
  {
    var n := |a| - 1;
    var m := p[n];
    var init, rest := a[..n], b[..m] + b[m + 1..];
    hide Skip;
    forall i | 0 <= i < n ensures q[i] < |rest| && init[i] == rest[q[i]] {
      RestPlace(b, m, q[i]);
    }
  }

  /** And permuted places leave the multiset as it is. */
  lemma {:induction false} PlacesKeepMultiset<T>(a: seq<T>, b: seq<T>, p: seq<nat>)
    requires Places(p, |a|) && At(a, b, p)
    ensures multiset(a) == multiset(b)
    decreases |a|
  {
    hide *;
    PlacesInside(p, |a|);
    AtLength(a, b, p);
    if a == [] {
      assert b == [];
    } else {
      var n := |a| - 1;
      var q := PlacesShrink(p, n);
      PlacesInside(q, n);
      AtShrinks(a, b, p, q);
      PlacesKeepMultiset(a[..n], b[..p[n]] + b[p[n] + 1..], q);
      WithOne(b, p[n]);
      WithOne(a, n);
      NothingAfter(a);
    }
  }

  lemma WithOne<T>(s: seq<T>, i: nat)
    requires i < |s|
    ensures multiset(s) == multiset(s[..i] + s[i + 1..]) + multiset{s[i]}
  {
    assert s == s[..i] + [s[i]] + s[i + 1..];
  }

  lemma AtLength<T>(a: seq<T>, b: seq<T>, p: seq<nat>)
    requires At(a, b, p)
    ensures |a| == |b| == |p|
  {
  }

  function Unskip(m: nat, k: nat): nat {
    if k < m || k == 0 then k else k - 1
  }

  function UnskipAll(m: nat, p: seq<nat>): (q: seq<nat>)
    ensures |q| == |p| && forall i :: 0 <= i < |p| ==> q[i] == Unskip(m, p[i])
  {
    seq(|p|, i requires 0 <= i < |p| => Unskip(m, p[i]))
  }

  lemma PlacesShrink(p: seq<nat>, n: nat) returns (q: seq<nat>)
    requires Places(p, n + 1)
    ensures Places(q, n) && forall i :: 0 <= i < n ==> q[i] < n && p[i] == Skip(p[n], q[i])
  {
    var m := p[n];
    q := UnskipAll(m, p[..n]);
    forall i | 0 <= i < n ensures q[i] < n && p[i] == Skip(m, q[i]) {
      assert p[..n][i] == p[i] && p[i] != p[n];
    }
    forall j: nat | j < n ensures j in q {
      var k := Skip(m, j);
      assert k in p;
      var i :| 0 <= i < |p| && p[i] == k;
      assert i < n && q[i] == j;
    }
    forall i, j | 0 <= i < j < n ensures q[i] != q[j] {
      assert p[i] != p[j];
    }
  }

  // -------------------------------------------------------------- resemblance

  /**
   A predicate of the same representation, field, operator and types of values, or a group of the same operator
   whose members resemble the configured ones in some order.
   */
  ghost predicate Resembles(env: Environment, fields: bool, s: Shape, f: Filter)
    decreases s
  {
    match s
    case Leaf(representation, field, operator, kinds) =>
      && f.Predicate? && f.representation == representation && f.operator == operator
      && f.field == (if fields then env.lower(field) else field)
      && |f.values| == |kinds| && forall i :: 0 <= i < |kinds| ==> f.values[i].kind == kinds[i]
    case Node(operator, expressions) =>
      && f.Group? && f.operator == operator && |f.expressions| == |expressions|
      && exists p: seq<nat> :: Places(p, |expressions|) && AllResemble(env, fields, s, p, f.expressions)
  }

  ghost predicate AllResemble(env: Environment, fields: bool, s: Shape, p: seq<nat>, filters: seq<Filter>)
    requires s.Node? && Places(p, |s.expressions|) && |filters| == |s.expressions|
    decreases s, 0
  {
    forall i :: 0 <= i < |p| ==> Resembles(env, fields, s.expressions[p[i]], filters[i])
  }

  /** No group has two members of one shape. */
  predicate NoTwins(f: Filter)
    decreases f
  {
    f.Group? ==>
      && (forall i, j :: 0 <= i < j < |f.expressions| ==> QueryShape(f.expressions[i]) != QueryShape(f.expressions[j]))
      && forall i :: 0 <= i < |f.expressions| ==> NoTwins(f.expressions[i])
  }

  lemma {:induction false} ConfiguredAt(env: Environment, fields: bool, expressions: seq<Shape>, i: nat)
    requires ConfigureAll(env, fields, expressions).Some?
    ensures |ConfigureAll(env, fields, expressions).value| == |expressions|
    ensures i < |expressions| ==> Configure(env, fields, expressions[i]) == Some(ConfigureAll(env, fields, expressions).value[i])
    decreases |expressions|
  {
    hide Configure;
    if expressions != [] {
      ConfiguredAt(env, fields, expressions[..|expressions| - 1], i);
    }
  }

  lemma {:induction false} AllConfigured(env: Environment, fields: bool, expressions: seq<Shape>)
    requires forall i :: 0 <= i < |expressions| ==> Configure(env, fields, expressions[i]).Some?
    ensures ConfigureAll(env, fields, expressions).Some?
    decreases |expressions|
  {
    hide Configure;
    if expressions != [] {
      AllConfigured(env, fields, expressions[..|expressions| - 1]);
    }
  }

  lemma {:induction false} QueryShapesAt(expressions: seq<Filter>, i: nat)
    ensures |QueryShapes(expressions)| == |expressions|
    ensures i < |expressions| ==> QueryShapes(expressions)[i] == QueryShape(expressions[i])
    decreases |expressions|
  {
    hide QueryShape;
    QueryShapesLength(expressions);
    if expressions != [] {
      QueryShapesAt(expressions[..|expressions| - 1], i);
    }
  }

  lemma KindsAt(values: seq<TypedValue>, kinds: seq<string>)
    ensures Map(values, KindOf) == kinds <==> |values| == |kinds| && forall i :: 0 <= i < |kinds| ==> values[i].kind == kinds[i]
  {
    forall i | 0 <= i < |values| ensures Map(values, KindOf)[i] == values[i].kind {
      MapAt(values, KindOf, i);
    }
  }

  /** The configured children in the order of their keys. */
  function InKeyOrder(x: Schema, children: seq<Shape>): seq<Shape> {
    Map(SortBy(Pair(x, children), PairKey), ShapePart)
  }

  lemma NodeConfigured(env: Environment, fields: bool, s: Shape)
    requires s.Node?
    ensures Configure(env, fields, s).Some? <==>
              ConfigureAll(env, fields, s.expressions).Some?
              && !EqualNeighbours(SortBy(Pair(env.x, ConfigureAll(env, fields, s.expressions).value), PairKey))
    ensures Configure(env, fields, s).Some? ==>
              Configure(env, fields, s).value
              == Node(s.operator, InKeyOrder(env.x, ConfigureAll(env, fields, s.expressions).value))
  {
    hide ConfigureAll, SortBy, Pair, Map, EqualNeighbours;
  }

  lemma QueryShapeParts(f: Filter)
    ensures QueryShape(f) ==
              if f.Predicate? then Leaf(f.representation, f.field, f.operator, Map(f.values, KindOf))
              else Node(f.operator, QueryShapes(f.expressions))
  {
    hide Map, QueryShapes;
  }

  lemma LeafConfigured(env: Environment, fields: bool, s: Shape)
    requires s.Leaf?
    ensures Configure(env, fields, s) ==
              Some(Leaf(s.representation, if fields then env.lower(s.field) else s.field, s.operator, s.kinds))
  {
  }

  lemma LeafResembles(env: Environment, fields: bool, s: Shape, f: Filter)
    requires s.Leaf?
    ensures Configure(env, fields, s) == Some(QueryShape(f)) <==> Resembles(env, fields, s, f)
  {
    hide Configure, QueryShape, Map;
    LeafConfigured(env, fields, s);
    QueryShapeParts(f);
    if f.Predicate? {
      KindsAt(f.values, s.kinds);
    }
  }

  /** What a configured filter turns into resembles it. */
  lemma {:induction false} ConfiguredResembles(env: Environment, fields: bool, s: Shape, f: Filter)
    requires Configure(env, fields, s) == Some(QueryShape(f))
    ensures Resembles(env, fields, s, f)
    decreases s
  {
    if s.Leaf? {
      LeafResembles(env, fields, s, f);
    } else {
      hide Configure, ConfigureAll, QueryShape, QueryShapes, InKeyOrder, Places;
      NodeConfigured(env, fields, s);
      QueryShapeParts(f);
      var children, shapes := ConfigureAll(env, fields, s.expressions).value, QueryShapes(f.expressions);
      ConfiguredAt(env, fields, s.expressions, 0);
      QueryShapesAt(f.expressions, 0);
      InKeyOrderIsSame(env.x, children);
      var p := Permuted(shapes, children);
      PlacesInside(p, |children|);
      forall i | 0 <= i < |p| ensures Resembles(env, fields, s.expressions[p[i]], f.expressions[i]) {
        ConfiguredAt(env, fields, s.expressions, p[i]);
        QueryShapesAt(f.expressions, i);
        ConfiguredResembles(env, fields, s.expressions[p[i]], f.expressions[i]);
      }
      assert AllResemble(env, fields, s, p, f.expressions);
    }
  }

  lemma InKeyOrderIsSame(x: Schema, children: seq<Shape>)
    ensures multiset(InKeyOrder(x, children)) == multiset(children)
  {
    hide SortBy, Pair, Map;
    SortedShapes(x, children);
  }

  lemma {:induction false} KeysAreMap(x: Schema, shapes: seq<Shape>, f: Shape -> Digest)
    requires forall s :: f(s) == KeyOf(x, s)
    ensures KeysOf(x, shapes) == Map(shapes, f)
    decreases |shapes|
  {
    hide KeyOf;
    if shapes != [] {
      KeysAreMap(x, shapes[..|shapes| - 1], f);
    }
  }

  lemma KeysInAnyOrder(x: Schema, a: seq<Shape>, b: seq<Shape>)
    requires multiset(a) == multiset(b)
    ensures multiset(KeysOf(x, a)) == multiset(KeysOf(x, b))
  {
    hide KeyOf, KeysOf, Map;
    var f := (s: Shape) => KeyOf(x, s);
    KeysAreMap(x, a, f);
    KeysAreMap(x, b, f);
    MapMultiset(a, b, f);
  }

  /** Ordered shapes have only one order of their keys. */
  lemma OneKeyOrder(x: Schema, children: seq<Shape>, shapes: seq<Shape>)
    requires Injective(x) && multiset(children) == multiset(shapes) && AllInOrder(x, children)
    requires SortedBy(KeysOf(x, shapes), Itself) && AllInOrder(x, shapes)
    ensures InKeyOrder(x, children) == shapes
  {
    hide Injective, AllInOrder, SortedBy, KeysOf, SortBy, Pair, Map;
    var sorted := InKeyOrder(x, children);
    SortedInOrder(x, children);
    InKeyOrderIsSame(x, children);
    KeysInAnyOrder(x, sorted, shapes);
    NumbersDetermine(KeysOf(x, sorted));
    SortedByUnique(KeysOf(x, sorted), KeysOf(x, shapes), Itself);
    KeysNameShapes(x, sorted, shapes);
  }

  lemma {:induction false} KeysAt(x: Schema, shapes: seq<Shape>, i: nat)
    requires i < |shapes|
    ensures KeysOf(x, shapes)[i] == KeyOf(x, shapes[i])
    decreases |shapes|
  {
    hide KeyOf;
    if i < |shapes| - 1 {
      KeysAt(x, shapes[..|shapes| - 1], i);
    }
  }

  /** The i-th sorted pair holds the i-th shape in key order and its key. */
  lemma SortedPairAt(x: Schema, children: seq<Shape>, i: nat)
    requires i < |children|
    ensures |SortBy(Pair(x, children), PairKey)| == |InKeyOrder(x, children)| == |children|
    ensures SortBy(Pair(x, children), PairKey)[i].key == KeyOf(x, InKeyOrder(x, children)[i])
  {
    hide KeyOf, SortBy, Pair, Map, PairsFit;
    var pairs := Pair(x, children);
    SortBySorts(pairs, PairKey);
    SameLength(SortBy(pairs, PairKey), pairs);
    PairFits(x, children);
    PairsFitAnywhere(x, pairs, SortBy(pairs, PairKey));
    MapAt(SortBy(pairs, PairKey), ShapePart, i);
    PairFitsAt(x, SortBy(pairs, PairKey), i);
  }

  lemma PairFitsAt(x: Schema, s: seq<KeyedShape>, i: nat)
    requires PairsFit(x, s) && i < |s|
    ensures s[i].key == KeyOf(x, s[i].shape)
  {
    hide KeyOf;
  }

  /** Sorted by key, two children of one shape are neighbours somewhere. */
  lemma TwinsAreNeighbours(x: Schema, children: seq<Shape>)
    requires Injective(x) && AllInOrder(x, children)
    ensures var shapes := InKeyOrder(x, children);
            EqualNeighbours(SortBy(Pair(x, children), PairKey)) <==> exists i, j :: 0 <= i < j < |shapes| && shapes[i] == shapes[j]
  {
    hide Injective, InOrder, KeyOf, KeysOf, SortBy, Pair, InKeyOrder;
    var pairs, shapes := SortBy(Pair(x, children), PairKey), InKeyOrder(x, children);
    InKeyOrderIsSame(x, children);
    SameLength(shapes, children);
    SortedInOrderAgain(x, children);
    SortedLength(x, children);
    forall i | 0 <= i < |shapes| ensures pairs[i].key == KeyOf(x, shapes[i]) {
      SortedPairAt(x, children, i);
    }
    if EqualNeighbours(pairs) {
      var i :| 0 < i < |pairs| && pairs[i - 1].key == pairs[i].key;
      KeyNamesShape(x, shapes[i - 1], shapes[i]);
      var h := i - 1;
      assert 0 <= h < i < |shapes| && shapes[h] == shapes[i];
    }
    if i, j :| 0 <= i < j < |shapes| && shapes[i] == shapes[j] {
      KeysOrdered(x, shapes, i, i + 1);
      KeysOrdered(x, shapes, i + 1, j);
      assert pairs[i + 1 - 1].key == pairs[i + 1].key;
    }
  }

  lemma SortedLength(x: Schema, children: seq<Shape>)
    ensures |SortBy(Pair(x, children), PairKey)| == |InKeyOrder(x, children)|
  {
    hide SortBy, Pair, Map;
  }

  lemma SortedInOrderAgain(x: Schema, children: seq<Shape>)
    requires AllInOrder(x, children)
    ensures SortedBy(KeysOf(x, InKeyOrder(x, children)), Itself) && AllInOrder(x, InKeyOrder(x, children))
  {
    hide AllInOrder, SortedBy, KeysOf, SortBy, Pair, Map;
    SortedInOrder(x, children);
  }

  lemma KeysOrdered(x: Schema, shapes: seq<Shape>, i: nat, j: nat)
    requires SortedBy(KeysOf(x, shapes), Itself) && i <= j < |shapes|
    ensures KeyOf(x, shapes[i]) <= KeyOf(x, shapes[j])
  {
    hide KeyOf, KeysOf;
    KeysAt(x, shapes, i);
    KeysAt(x, shapes, j);
    if i < j {
      assert NotAfter(Itself(KeysOf(x, shapes)[i]), Itself(KeysOf(x, shapes)[j]));
    }
  }

  lemma OrderOfGroup(x: Schema, f: Filter, i: nat)
    requires f.Group? && InOrder(x, QueryShape(f))
    ensures SortedBy(KeysOf(x, QueryShapes(f.expressions)), Itself) && AllInOrder(x, QueryShapes(f.expressions))
    ensures i < |f.expressions| ==> InOrder(x, QueryShape(f.expressions[i]))
  {
    hide KeyOf, KeysOf, SortedBy, QueryShapes;
    QueryShapesAt(f.expressions, i);
  }

  /** Each member of the group is what the configured one at its place becomes. */
  predicate MembersConfigured(env: Environment, fields: bool, s: Shape, p: seq<nat>, f: Filter)
    requires s.Node? && f.Group?
  {
    && |p| == |s.expressions| == |f.expressions|
    && forall i :: 0 <= i < |p| ==>
         p[i] < |s.expressions| && Configure(env, fields, s.expressions[p[i]]) == Some(QueryShape(f.expressions[i]))
  }

  lemma MembersAt(env: Environment, fields: bool, s: Shape, p: seq<nat>, f: Filter)
    requires s.Node? && f.Group? && Places(p, |s.expressions|) && MembersConfigured(env, fields, s, p, f)
    ensures ConfigureAll(env, fields, s.expressions).Some?
    ensures At(QueryShapes(f.expressions), ConfigureAll(env, fields, s.expressions).value, p)
    ensures |QueryShapes(f.expressions)| == |s.expressions|
  {
    hide Configure, ConfigureAll, QueryShape, QueryShapes;
    forall j: nat | j < |s.expressions| ensures Configure(env, fields, s.expressions[j]).Some? {
      assert j in p;
    }
    AllConfigured(env, fields, s.expressions);
    var children, shapes := ConfigureAll(env, fields, s.expressions).value, QueryShapes(f.expressions);
    ConfiguredAt(env, fields, s.expressions, 0);
    QueryShapesAt(f.expressions, 0);
    forall i | 0 <= i < |p| ensures p[i] < |children| && shapes[i] == children[p[i]] {
      ConfiguredAt(env, fields, s.expressions, p[i]);
      QueryShapesAt(f.expressions, i);
    }
  }

  lemma NoTwinsMeans(f: Filter, i: nat)
    requires f.Group? && NoTwins(f)
    ensures forall i, j :: 0 <= i < j < |QueryShapes(f.expressions)| ==>
              QueryShapes(f.expressions)[i] != QueryShapes(f.expressions)[j]
    ensures i < |f.expressions| ==> NoTwins(f.expressions[i])
  {
    hide QueryShape, QueryShapes;
    var shapes := QueryShapes(f.expressions);
    QueryShapesAt(f.expressions, 0);
    forall i, j | 0 <= i < j < |shapes| ensures shapes[i] != shapes[j] {
      QueryShapesAt(f.expressions, i);
      QueryShapesAt(f.expressions, j);
    }
  }

  /** Members that are configured one by one make up the configured group. */
  lemma GroupIsConfigured(env: Environment, fields: bool, s: Shape, p: seq<nat>, f: Filter)
    requires Injective(env.x) && s.Node? && f.Group? && f.operator == s.operator && Places(p, |s.expressions|)
    requires InOrder(env.x, QueryShape(f)) && NoTwins(f) && MembersConfigured(env, fields, s, p, f)
    ensures Configure(env, fields, s) == Some(QueryShape(f))
  {
    hide *;
    MembersAt(env, fields, s, p, f);
    var children, shapes := ConfigureAll(env, fields, s.expressions).value, QueryShapes(f.expressions);
    PlacesKeepMultiset(shapes, children, p);
    AllConfiguredInOrder(env, fields, s.expressions);
    OrderOfGroup(env.x, f, 0);
    OneKeyOrder(env.x, children, shapes);
    TwinsAreNeighbours(env.x, children);
    NoTwinsMeans(f, 0);
    NodeConfigured(env, fields, s);
    QueryShapeParts(f);
  }

  lemma GroupResembles(env: Environment, fields: bool, s: Shape, f: Filter) returns (p: seq<nat>)
    requires s.Node? && Resembles(env, fields, s, f)
    ensures f.Group? && f.operator == s.operator && |f.expressions| == |s.expressions|
    ensures Places(p, |s.expressions|) && |p| == |s.expressions|
    ensures forall i :: 0 <= i < |p| ==> p[i] < |s.expressions| && Resembles(env, fields, s.expressions[p[i]], f.expressions[i])
  {
    p :| Places(p, |s.expressions|) && AllResemble(env, fields, s, p, f.expressions);
  }

  /** A filter in order without twins is what each filter that it resembles turns into. */
  lemma {:induction false} ResemblingIsConfigured(env: Environment, fields: bool, s: Shape, f: Filter)
    requires Injective(env.x) && InOrder(env.x, QueryShape(f)) && NoTwins(f) && Resembles(env, fields, s, f)
    ensures Configure(env, fields, s) == Some(QueryShape(f))
    decreases s
  {
    hide Configure, QueryShape, Injective, InOrder, NoTwins, Resembles, Places;
    if s.Leaf? {
      LeafResembles(env, fields, s, f);
    } else {
      var p := GroupResembles(env, fields, s, f);
      forall i | 0 <= i < |p| ensures Configure(env, fields, s.expressions[p[i]]) == Some(QueryShape(f.expressions[i])) {
        OrderOfGroup(env.x, f, i);
        NoTwinsMeans(f, i);
        ResemblingIsConfigured(env, fields, s.expressions[p[i]], f.expressions[i]);
      }
      GroupIsConfigured(env, fields, s, p, f);
    }
  }

  lemma NoTwinsBy(f: Filter)
    requires f.Group? && forall i :: 0 <= i < |f.expressions| ==> NoTwins(f.expressions[i])
    requires forall i, j :: 0 <= i < j < |QueryShapes(f.expressions)| ==>
               QueryShapes(f.expressions)[i] != QueryShapes(f.expressions)[j]
    ensures NoTwins(f)
  {
    hide QueryShape, QueryShapes;
    QueryShapesAt(f.expressions, 0);
    forall i, j | 0 <= i < j < |f.expressions| ensures QueryShape(f.expressions[i]) != QueryShape(f.expressions[j]) {
      QueryShapesAt(f.expressions, i);
      QueryShapesAt(f.expressions, j);
    }
  }

  /** The members of a configured group, and where each of them stood. */
  lemma GroupMembers(env: Environment, fields: bool, s: Shape, f: Filter) returns (p: seq<nat>)
    requires Injective(env.x) && s.Node? && Configure(env, fields, s) == Some(QueryShape(f))
    ensures f.Group? && MembersConfigured(env, fields, s, p, f)
    ensures forall i, j :: 0 <= i < j < |QueryShapes(f.expressions)| ==>
              QueryShapes(f.expressions)[i] != QueryShapes(f.expressions)[j]
  {
    hide Configure, ConfigureAll, QueryShape, QueryShapes, InKeyOrder, Injective, AllInOrder, Places, EqualNeighbours, SortBy, Pair;
    NodeConfigured(env, fields, s);
    QueryShapeParts(f);
    var children, shapes := ConfigureAll(env, fields, s.expressions).value, QueryShapes(f.expressions);
    ConfiguredAt(env, fields, s.expressions, 0);
    QueryShapesAt(f.expressions, 0);
    AllConfiguredInOrder(env, fields, s.expressions);
    TwinsAreNeighbours(env.x, children);
    InKeyOrderIsSame(env.x, children);
    p := Permuted(shapes, children);
    PlacesInside(p, |children|);
    forall i | 0 <= i < |p| ensures Configure(env, fields, s.expressions[p[i]]) == Some(QueryShape(f.expressions[i])) {
      ConfiguredAt(env, fields, s.expressions, p[i]);
      QueryShapesAt(f.expressions, i);
    }
  }

  /** What a configured filter turns into has no twins. */
  lemma {:induction false} ConfiguredHasNoTwins(env: Environment, fields: bool, s: Shape, f: Filter)
    requires Injective(env.x) && Configure(env, fields, s) == Some(QueryShape(f))
    ensures NoTwins(f)
    decreases s
  {
    hide Configure, QueryShape, QueryShapes, Injective, NoTwins;
    if s.Node? {
      var p := GroupMembers(env, fields, s, f);
      forall i | 0 <= i < |f.expressions| ensures NoTwins(f.expressions[i]) {
        ConfiguredHasNoTwins(env, fields, s.expressions[p[i]], f.expressions[i]);
      }
      NoTwinsBy(f);
    } else {
      LeafHasNoTwins(env, fields, s, f);
    }
  }

  lemma LeafHasNoTwins(env: Environment, fields: bool, s: Shape, f: Filter)
    requires s.Leaf? && Configure(env, fields, s) == Some(QueryShape(f))
    ensures NoTwins(f)
  {
    QueryShapeParts(f);
  }

  // ------------------------------------------------------------------ results

  /** A configured filter becomes a normalized query's filter exactly when the query's resembles it without twins. */
  lemma ConfiguredDecides(env: Environment, fields: bool, s: Shape, f: Filter)
    requires Injective(env.x) && Normalize(env.x, f).Some?
    ensures var query := Normalize(env.x, f).value.filter;
            Configure(env, fields, s) == Some(QueryShape(query)) <==> Resembles(env, fields, s, query) && NoTwins(query)
  {
    hide Configure, QueryShape, Normalize, Injective, Resembles, NoTwins, InOrder, KeyOf;
    var query := Normalize(env.x, f).value.filter;
    NormalShapeFits(env.x, f);
    if Configure(env, fields, s) == Some(QueryShape(query)) {
      ConfiguredResembles(env, fields, s, query);
      ConfiguredHasNoTwins(env, fields, s, query);
    }
    if Resembles(env, fields, s, query) && NoTwins(query) {
      ResemblingIsConfigured(env, fields, s, query);
    }
  }

  /** For a normalized query the policy's filter test is resemblance, and it is equality of the two shape keys. */
  lemma AdmittedFilter(env: Environment, fields: bool, configured: Shape, f: Filter)
    requires Injective(env.x) && Normalize(env.x, f).Some?
    ensures var query := Normalize(env.x, f).value;
            && SameFilter(env, fields, Some(configured), Some(query.filter))
               == (Resembles(env, fields, configured, query.filter) && NoTwins(query.filter))
            && SameFilter(env, fields, Some(configured), Some(query.filter))
               == (Configure(env, fields, configured).Some? && KeyOf(env.x, Configure(env, fields, configured).value) == query.shape)
  {
    hide Configure, QueryShape, Normalize, Injective, Resembles, NoTwins, KeyOf;
    ConfiguredDecides(env, fields, configured, f);
    if Configure(env, fields, configured).Some? {
      FilterMatchesByKey(env, fields, f, configured);
    }
  }
}
