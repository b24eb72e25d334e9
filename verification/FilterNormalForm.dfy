/**
 The normal form of an aggregate filter (internal/queryspec/aggregate.go): canonical fields, children
 sorted by two digests, duplicates rejected. A digest is modelled as an injective key in a total order.
 */
module FilterNormalForm {
  import opened Wrappers
  import opened Sequences
  import opened Sorting

  // ------------------------------------------------------------------ filters

  datatype TypedValue = TypedValue(kind: string, raw: string)

  /** A validated filter: a predicate, or an "and" or "or" of expressions. */
  datatype Filter =
    | Predicate(field: string, representation: string, operator: string, values: seq<TypedValue>)
    | Group(operator: string, expressions: seq<Filter>)

  /** A bind value with its Go type. */
  datatype Bound = BoolBound(truth: bool) | IntBound(number: int) | StringBound(text: string) | BytesBound(bytes: seq<nat>)

  type Digest = nat

  /** What is hashed: every part is written with its length, so a message is its parts. */
  datatype Message =
    | ShapePredicate(field: string, representation: string, operator: string, kinds: seq<string>)
    | ValuePredicate(shape: Digest, bounds: seq<Bound>)
    | ShapeGroup(operator: string, children: seq<Digest>)
    | ValueGroup(operator: string, children: seq<Digest>)

  /** The hash, TypedValue.BindValue and the identifier case semantics. */
  datatype Schema = Schema(digest: Message -> Digest, bind: TypedValue -> Option<Bound>, canonical: string -> string)

  ghost predicate Injective(x: Schema) {
    forall m, n :: x.digest(m) == x.digest(n) ==> m == n
  }

  ghost predicate Canonical(x: Schema) {
    forall name :: x.canonical(x.canonical(name)) == x.canonical(name)
  }

  function BindAll(x: Schema, values: seq<TypedValue>): Option<seq<Bound>> {
    if values == [] then Some([])
    else
      var init, last := BindAll(x, values[..|values| - 1]), x.bind(values[|values| - 1]);
      if init == None || last == None then None else Some(init.value + [last.value])
  }

  function KindOf(v: TypedValue): string {
    v.kind
  }

  // -------------------------------------------------------------- normal form

  /** A normalized filter with its shape key and its value key. */
  datatype Keyed = Keyed(filter: Filter, shape: Digest, value: Digest)

  function FilterOf(k: Keyed): Filter {
    k.filter
  }

  function ShapeOf(k: Keyed): Digest {
    k.shape
  }

  function ValueOf(k: Keyed): Digest {
    k.value
  }

  /** Children are compared by their shape keys and then by their value keys. */
  function BothKeys(k: Keyed): (nat, nat) {
    (k.shape, k.value)
  }

  predicate Sorted(s: seq<Keyed>) {
    SortedBy(s, BothKeys)
  }

  function Sort(s: seq<Keyed>): seq<Keyed> {
    SortBy(s, BothKeys)
  }

  /** Two children with equal value keys, wherever they stand. */
  predicate Duplicates(s: seq<Keyed>) {
    exists i, j :: 0 <= i < j < |s| && s[i].value == s[j].value
  }

  function GroupOf(x: Schema, operator: string, s: seq<Keyed>): Keyed {
    Keyed(Group(operator, Map(s, FilterOf)),
          x.digest(ShapeGroup(operator, Map(s, ShapeOf))),
          x.digest(ValueGroup(operator, Map(s, ValueOf))))
  }

  /** A group over normalized children. */
  function Grouped(x: Schema, operator: string, children: seq<Keyed>): Option<Keyed> {
    if Duplicates(children) then None else Some(GroupOf(x, operator, Sort(children)))
  }

  function ShapeKey(x: Schema, field: string, representation: string, operator: string, values: seq<TypedValue>): Digest {
    x.digest(ShapePredicate(field, representation, operator, Map(values, KindOf)))
  }

  /** The normal form, or None when a value does not bind or a group holds duplicates. */
  function Normalize(x: Schema, f: Filter): Option<Keyed>
    decreases f, 0
  {
    match f
    case Predicate(field, representation, operator, values) =>
      var shape := ShapeKey(x, x.canonical(field), representation, operator, values);
      var bounds := BindAll(x, values);
      if bounds == None then None
      else Some(Keyed(Predicate(x.canonical(field), representation, operator, values), shape,
                      x.digest(ValuePredicate(shape, bounds.value))))
    case Group(operator, expressions) =>
      var children := NormalizeAll(x, expressions);
      if children == None then None else Grouped(x, operator, children.value)
  }

  function NormalizeAll(x: Schema, expressions: seq<Filter>): Option<seq<Keyed>>
    decreases expressions, 1
  {
    if expressions == [] then Some([])
    else
      var init := NormalizeAll(x, expressions[..|expressions| - 1]);
      var last := Normalize(x, expressions[|expressions| - 1]);
      if init == None || last == None then None else Some(init.value + [last.value])
  }

  // ------------------------------------------------------------------ sorting

  lemma SortSorts(s: seq<Keyed>)
    ensures Sorted(Sort(s)) && multiset(Sort(s)) == multiset(s)
  {
    hide SortBy, SortedBy;
    SortBySorts(s, BothKeys);
  }

  /** Without equal value keys the two sort keys tell all children apart, and only one order is sorted. */
  lemma SortedUnique(a: seq<Keyed>, b: seq<Keyed>)
    requires Sorted(a) && Sorted(b) && multiset(a) == multiset(b) && !Duplicates(a)
    ensures a == b
  {
    hide SortedBy, KeyDetermines;
    KeysDetermine(a);
    SortedByUnique(a, b, BothKeys);
  }

  lemma KeysDetermine(s: seq<Keyed>)
    requires !Duplicates(s)
    ensures KeyDetermines(s, BothKeys)
  {
    forall i, j | 0 <= i < |s| && 0 <= j < |s| && BothKeys(s[i]) == BothKeys(s[j]) ensures s[i] == s[j] {
      assert s[i].value == s[j].value;
    }
  }

  /** Whether there are duplicates does not depend on the order. */
  lemma DuplicatesAnywhere(a: seq<Keyed>, b: seq<Keyed>)
    requires multiset(a) == multiset(b) && Duplicates(a)
    ensures Duplicates(b)
  {
    var i, j :| 0 <= i < j < |a| && a[i].value == a[j].value;
    var m, n := TwoPlaces(a, b, i, j);
    if m < n {
      assert b[m].value == b[n].value;
    } else {
      assert b[n].value == b[m].value;
    }
  }

  /** Children in any order give the same group, or are rejected alike. */
  lemma GroupedInAnyOrder(x: Schema, operator: string, a: seq<Keyed>, b: seq<Keyed>)
    requires multiset(a) == multiset(b)
    ensures Grouped(x, operator, a) == Grouped(x, operator, b)
  {
    hide Sort, Sorted, GroupOf, Duplicates;
    SortSorts(a);
    SortSorts(b);
    if Duplicates(a) {
      DuplicatesAnywhere(a, b);
    } else if Duplicates(b) {
      DuplicatesAnywhere(b, a);
    } else {
      if Duplicates(Sort(a)) {
        DuplicatesAnywhere(Sort(a), a);
      }
      SortedUnique(Sort(a), Sort(b));
    }
  }

  // ------------------------------------------------------------- reorderings

  /** g lists at every depth the same expressions as f, in some order. */
  ghost predicate Reordered(f: Filter, g: Filter)
    decreases f
  {
    match f
    case Predicate(_, _, _, _) => g == f
    case Group(operator, expressions) =>
      && g.Group? && g.operator == operator
      && exists inner: seq<Filter> :: ReorderedAll(expressions, inner) && multiset(inner) == multiset(g.expressions)
  }

  ghost predicate ReorderedAll(expressions: seq<Filter>, inner: seq<Filter>)
    decreases expressions, 0
  {
    |inner| == |expressions| && forall i :: 0 <= i < |expressions| ==> Reordered(expressions[i], inner[i])
  }

  lemma AllEnd(x: Schema, init: seq<Filter>, last: Filter)
    ensures NormalizeAll(x, []) == Some([])
    ensures NormalizeAll(x, init + [last])
         == (var l, r := NormalizeAll(x, init), Normalize(x, last);
             if l == None || r == None then None else Some(l.value + [r.value]))
  {
    hide Normalize;
    assert (init + [last])[..|init + [last]| - 1] == init;
  }

  lemma {:induction false} AllConcat(x: Schema, a: seq<Filter>, b: seq<Filter>)
    ensures NormalizeAll(x, a + b)
         == (var l, r := NormalizeAll(x, a), NormalizeAll(x, b);
             if l == None || r == None then None else Some(l.value + r.value))
    decreases |b|
  {
    hide *;
    if b == [] {
      assert a + b == a;
      AllEnd(x, [], Predicate("", "", "", []));
      if NormalizeAll(x, a).Some? {
        assert NormalizeAll(x, a).value + [] == NormalizeAll(x, a).value;
      }
    } else {
      var init, last := b[..|b| - 1], b[|b| - 1];
      assert b == init + [last] && a + b == (a + init) + [last];
      AllConcat(x, a, init);
      AllEnd(x, a + init, last);
      AllEnd(x, init, last);
      var l, m, r := NormalizeAll(x, a), NormalizeAll(x, init), Normalize(x, last);
      if l.Some? && m.Some? && r.Some? {
        assert l.value + m.value + [r.value] == l.value + (m.value + [r.value]);
      }
    }
  }

  lemma AllOne(x: Schema, f: Filter)
    ensures NormalizeAll(x, [f]) == if Normalize(x, f) == None then None else Some([Normalize(x, f).value])
  {
    hide *;
    AllEnd(x, [], f);
    assert [] + [f] == [f];
    if Normalize(x, f).Some? {
      assert [] + [Normalize(x, f).value] == [Normalize(x, f).value];
    }
  }

  lemma AllRemoved(x: Schema, s: seq<Filter>, i: nat)
    requires i < |s|
    ensures var rest, whole := NormalizeAll(x, s[..i] + s[i + 1..]), NormalizeAll(x, s);
            && whole.Some? == (rest.Some? && Normalize(x, s[i]).Some?)
            && (whole.Some? ==> multiset(whole.value) == multiset(rest.value) + multiset{Normalize(x, s[i]).value})
  {
    hide *;
    SplitAt(s, i);
    AllConcat(x, s[..i] + [s[i]], s[i + 1..]);
    AllConcat(x, s[..i], [s[i]]);
    AllConcat(x, s[..i], s[i + 1..]);
    AllOne(x, s[i]);
    var l, r := NormalizeAll(x, s[..i]), NormalizeAll(x, s[i + 1..]);
    if l.Some? && r.Some? && Normalize(x, s[i]).Some? {
      Shuffled(l.value, Normalize(x, s[i]).value, r.value);
    }
  }

  /** Normalizing a list of expressions in another order. */
  lemma {:induction false} AllInAnyOrder(x: Schema, a: seq<Filter>, b: seq<Filter>)
    requires multiset(a) == multiset(b)
    ensures NormalizeAll(x, a).Some? == NormalizeAll(x, b).Some?
    ensures NormalizeAll(x, a).Some? ==> multiset(NormalizeAll(x, a).value) == multiset(NormalizeAll(x, b).value)
    decreases |a|
  {
    hide *;
    SameLength(a, b);
    if a == [] {
      assert b == [];
    } else {
      var n := |a| - 1;
      InMultiset(a, n);
      var i := PlaceOf(b, a[n]);
      Removed(b, i);
      Removed(a, n);
      RestLength(a, n);
      AllInAnyOrder(x, a[..n] + a[n + 1..], b[..i] + b[i + 1..]);
      AllRemoved(x, b, i);
      AllRemoved(x, a, n);
    }
  }

  /** Reordering the expressions at any depth changes neither the verdict nor the normal form nor its keys. */
  lemma {:induction false} NormalFormIgnoresOrder(x: Schema, f: Filter, g: Filter)
    requires Reordered(f, g)
    ensures Normalize(x, f) == Normalize(x, g)
    decreases f, 1
  {
    if f.Group? {
      var inner: seq<Filter> :| ReorderedAll(f.expressions, inner) && multiset(inner) == multiset(g.expressions);
      hide Reordered, ReorderedAll, Grouped, NormalizeAll;
      AllReordered(x, f.expressions, inner);
      AllInAnyOrder(x, inner, g.expressions);
      var children := NormalizeAll(x, inner);
      if children.Some? {
        GroupedInAnyOrder(x, f.operator, children.value, NormalizeAll(x, g.expressions).value);
      }
    }
  }

  lemma {:induction false} AllReordered(x: Schema, a: seq<Filter>, b: seq<Filter>)
    requires ReorderedAll(a, b)
    ensures NormalizeAll(x, a) == NormalizeAll(x, b)
    decreases a, 0, |a|
  {
    hide Normalize, Reordered;
    if a != [] {
      var n := |a| - 1;
      AllReordered(x, a[..n], b[..n]);
      assert Reordered(a[n], b[n]);
      NormalFormIgnoresOrder(x, a[n], b[n]);
    }
  }

  // -------------------------------------------------------------- fixed point

  lemma {:induction false} AllAt(x: Schema, expressions: seq<Filter>, i: nat)
    requires NormalizeAll(x, expressions).Some?
    ensures |NormalizeAll(x, expressions).value| == |expressions|
    ensures i < |expressions| ==> Normalize(x, expressions[i]) == Some(NormalizeAll(x, expressions).value[i])
    decreases |expressions|
  {
    hide Normalize;
    if expressions != [] {
      AllAt(x, expressions[..|expressions| - 1], i);
    }
  }

  /** Every key of the list is the normal form of its own filter. */
  ghost predicate Settled(x: Schema, s: seq<Keyed>) {
    forall i :: 0 <= i < |s| ==> Normalize(x, s[i].filter) == Some(s[i])
  }

  lemma {:induction false} SettledAll(x: Schema, s: seq<Keyed>)
    requires Settled(x, s)
    ensures NormalizeAll(x, Map(s, FilterOf)) == Some(s)
    decreases |s|
  {
    hide Normalize;
    if s != [] {
      var n := |s| - 1;
      SettledAll(x, s[..n]);
      assert s == s[..n] + [s[n]];
      assert Map(s, FilterOf)[..n] == Map(s[..n], FilterOf);
    }
  }

  lemma SettledAnywhere(x: Schema, a: seq<Keyed>, b: seq<Keyed>)
    requires Settled(x, a) && multiset(a) == multiset(b)
    ensures Settled(x, b)
  {
    hide Normalize;
    forall i | 0 <= i < |b| ensures Normalize(x, b[i].filter) == Some(b[i]) {
      InMultiset(b, i);
      var j := PlaceOf(a, b[i]);
      assert Normalize(x, a[j].filter) == Some(a[j]);
    }
  }

  /** Normalization is idempotent: a normal form is its own normal form, with the same keys. */
  lemma {:induction false} NormalFormIsFixed(x: Schema, f: Filter)
    requires Canonical(x) && Normalize(x, f).Some?
    ensures Normalize(x, Normalize(x, f).value.filter) == Normalize(x, f)
    decreases f, 1
  {
    if f.Group? {
      var children := NormalizeAll(x, f.expressions).value;
      hide Grouped, NormalizeAll, Canonical, GroupOf;
      AllSettled(x, f.expressions);
      GroupIsFixed(x, f.operator, children);
    } else {
      hide BindAll, ShapeKey;
    }
  }

  lemma {:induction false} AllSettled(x: Schema, expressions: seq<Filter>)
    requires Canonical(x) && NormalizeAll(x, expressions).Some?
    ensures Settled(x, NormalizeAll(x, expressions).value)
    decreases expressions, 0
  {
    hide Normalize, NormalizeAll, Canonical;
    var s := NormalizeAll(x, expressions).value;
    AllAt(x, expressions, 0);
    forall i | 0 <= i < |s| ensures Normalize(x, s[i].filter) == Some(s[i]) {
      AllAt(x, expressions, i);
      NormalFormIsFixed(x, expressions[i]);
    }
  }

  lemma GroupIsFixed(x: Schema, operator: string, children: seq<Keyed>)
    requires Settled(x, children) && Grouped(x, operator, children).Some?
    ensures Normalize(x, Grouped(x, operator, children).value.filter) == Grouped(x, operator, children)
  {
    hide *;
    var sorted := Sort(children);
    GroupedParts(x, operator, children);
    SortSorts(children);
    SettledAnywhere(x, children, sorted);
    SettledAll(x, sorted);
    NormalizeGroup(x, operator, Map(sorted, FilterOf));
    GroupedInAnyOrder(x, operator, sorted, children);
  }

  lemma GroupedParts(x: Schema, operator: string, children: seq<Keyed>)
    ensures Grouped(x, operator, children) == if Duplicates(children) then None else Some(GroupOf(x, operator, Sort(children)))
    ensures GroupOf(x, operator, Sort(children)).filter == Group(operator, Map(Sort(children), FilterOf))
  {
    hide Duplicates, Sort, Map;
  }

  lemma NormalizeGroup(x: Schema, operator: string, expressions: seq<Filter>)
    ensures Normalize(x, Group(operator, expressions))
         == if NormalizeAll(x, expressions) == None then None else Grouped(x, operator, NormalizeAll(x, expressions).value)
  {
    hide NormalizeAll, Grouped;
  }

  // ----------------------------------------------------------------- meaning

  datatype Truth = True | False | Unknown

  /** What a predicate evaluates to in a row, given its field, representation, operator and parameters. */
  type Row = (string, string, string, seq<Bound>) -> Truth

  ghost predicate FieldsResolve(x: Schema, row: Row) {
    forall field, representation, operator, bounds ::
      row(x.canonical(field), representation, operator, bounds) == row(field, representation, operator, bounds)
  }

  /** SQL's three-valued AND and OR of any number of operands. */
  function Combine(operator: string, truths: set<Truth>): Truth {
    if operator == "or" then if True in truths then True else if Unknown in truths then Unknown else False
    else if False in truths then False else if Unknown in truths then Unknown else True
  }

  function Evaluate(x: Schema, row: Row, f: Filter): Truth
    decreases f, 0
  {
    match f
    case Predicate(field, representation, operator, values) =>
      var bounds := BindAll(x, values);
      if bounds == None then Unknown else row(field, representation, operator, bounds.value)
    case Group(operator, expressions) => Combine(operator, EvaluateAll(x, row, expressions))
  }

  function EvaluateAll(x: Schema, row: Row, expressions: seq<Filter>): set<Truth>
    decreases expressions, 1
  {
    if expressions == [] then {}
    else EvaluateAll(x, row, expressions[..|expressions| - 1]) + {Evaluate(x, row, expressions[|expressions| - 1])}
  }

  lemma {:induction false} EvaluateMembers(x: Schema, row: Row, expressions: seq<Filter>, t: Truth)
    ensures t in EvaluateAll(x, row, expressions) <==> exists f :: f in expressions && Evaluate(x, row, f) == t
    decreases |expressions|
  {
    hide Evaluate;
    if expressions != [] {
      var init, last := expressions[..|expressions| - 1], expressions[|expressions| - 1];
      EvaluateMembers(x, row, init, t);
      assert forall f :: f in init ==> f in expressions;
      assert last in expressions;
      if exists f :: f in init && Evaluate(x, row, f) == t {
        var f :| f in init && Evaluate(x, row, f) == t;
        assert f in expressions;
      }
      if exists f :: f in expressions && Evaluate(x, row, f) == t {
        var f :| f in expressions && Evaluate(x, row, f) == t;
        assert f in init || f == last;
      }
    }
  }

  /** The normal form has the same three-valued meaning in every row. */
  lemma {:induction false} NormalFormMeansTheSame(x: Schema, row: Row, f: Filter)
    requires FieldsResolve(x, row) && Normalize(x, f).Some?
    ensures Evaluate(x, row, Normalize(x, f).value.filter) == Evaluate(x, row, f)
    decreases f, 1
  {
    if f.Group? {
      hide Grouped, NormalizeAll, FieldsResolve, Combine, EvaluateAll;
      GroupMeansTheSame(x, row, f.operator, f.expressions);
    } else {
      hide BindAll, ShapeKey;
    }
  }

  lemma {:induction false} GroupMeansTheSame(x: Schema, row: Row, operator: string, expressions: seq<Filter>)
    requires FieldsResolve(x, row) && NormalizeAll(x, expressions).Some?
    requires Grouped(x, operator, NormalizeAll(x, expressions).value).Some?
    ensures Evaluate(x, row, Grouped(x, operator, NormalizeAll(x, expressions).value).value.filter)
         == Combine(operator, EvaluateAll(x, row, expressions))
    decreases expressions, 0
  {
    hide *;
    var children := NormalizeAll(x, expressions).value;
    var sorted := Map(Sort(children), FilterOf);
    GroupedParts(x, operator, children);
    EvaluateGroup(x, row, operator, sorted);
    forall t: Truth ensures t in EvaluateAll(x, row, sorted) <==> t in EvaluateAll(x, row, expressions) {
      EvaluateMembers(x, row, sorted, t);
      EvaluateMembers(x, row, expressions, t);
      if exists f :: f in expressions && Evaluate(x, row, f) == t {
        var f :| f in expressions && Evaluate(x, row, f) == t;
        var i :| 0 <= i < |expressions| && expressions[i] == f;
        AllAt(x, expressions, i);
        NormalFormMeansTheSame(x, row, expressions[i]);
        SortedHas(children, i);
      }
      if exists f :: f in sorted && Evaluate(x, row, f) == t {
        var f :| f in sorted && Evaluate(x, row, f) == t;
        var i := SortedFrom(children, f);
        AllAt(x, expressions, i);
        NormalFormMeansTheSame(x, row, expressions[i]);
      }
    }
    assert EvaluateAll(x, row, sorted) == EvaluateAll(x, row, expressions);
  }

  lemma EvaluateGroup(x: Schema, row: Row, operator: string, expressions: seq<Filter>)
    ensures Evaluate(x, row, Group(operator, expressions)) == Combine(operator, EvaluateAll(x, row, expressions))
  {
    hide EvaluateAll, Combine;
  }

  lemma SortedHas(children: seq<Keyed>, i: nat)
    requires i < |children|
    ensures children[i].filter in Map(Sort(children), FilterOf)
  {
    hide Sort;
    SortSorts(children);
    InMultiset(children, i);
    var j := PlaceOf(Sort(children), children[i]);
    MapAt(Sort(children), FilterOf, j);
  }

  lemma SortedFrom(children: seq<Keyed>, f: Filter) returns (i: nat)
    requires f in Map(Sort(children), FilterOf)
    ensures i < |children| && children[i].filter == f
  {
    hide Sort, Map;
    var j: nat :| j < |Map(Sort(children), FilterOf)| && Map(Sort(children), FilterOf)[j] == f;
    SortSorts(children);
    MapAt(Sort(children), FilterOf, j);
    InMultiset(Sort(children), j);
    i := PlaceOf(children, Sort(children)[j]);
  }

  // -------------------------------------------------------------- bound forms

  /** What a normalized filter asks for once its values are bound. */
  datatype Form =
    | BoundPredicate(field: string, representation: string, operator: string, kinds: seq<string>, bounds: seq<Bound>)
    | BoundGroup(operator: string, children: seq<Form>)

  function FormOf(x: Schema, f: Filter): Form
    decreases f, 0
  {
    match f
    case Predicate(field, representation, operator, values) =>
      var bounds := BindAll(x, values);
      BoundPredicate(field, representation, operator, Map(values, KindOf), if bounds == None then [] else bounds.value)
    case Group(operator, expressions) => BoundGroup(operator, FormsOf(x, expressions))
  }

  function FormsOf(x: Schema, expressions: seq<Filter>): seq<Form>
    decreases expressions, 1
  {
    if expressions == [] then []
    else FormsOf(x, expressions[..|expressions| - 1]) + [FormOf(x, expressions[|expressions| - 1])]
  }

  function FormShape(x: Schema, form: Form): Digest
    decreases form, 0
  {
    match form
    case BoundPredicate(field, representation, operator, kinds, _) =>
      x.digest(ShapePredicate(field, representation, operator, kinds))
    case BoundGroup(operator, children) => x.digest(ShapeGroup(operator, FormShapes(x, children)))
  }

  function FormShapes(x: Schema, forms: seq<Form>): seq<Digest>
    decreases forms, 1
  {
    if forms == [] then [] else FormShapes(x, forms[..|forms| - 1]) + [FormShape(x, forms[|forms| - 1])]
  }

  function FormValue(x: Schema, form: Form): Digest
    decreases form, 0
  {
    match form
    case BoundPredicate(_, _, _, _, bounds) => x.digest(ValuePredicate(FormShape(x, form), bounds))
    case BoundGroup(operator, children) => x.digest(ValueGroup(operator, FormValues(x, children)))
  }

  function FormValues(x: Schema, forms: seq<Form>): seq<Digest>
    decreases forms, 1
  {
    if forms == [] then [] else FormValues(x, forms[..|forms| - 1]) + [FormValue(x, forms[|forms| - 1])]
  }

  /** A key whose digests are those of its filter's bound form. */
  predicate KeysFit(x: Schema, k: Keyed) {
    k.shape == FormShape(x, FormOf(x, k.filter)) && k.value == FormValue(x, FormOf(x, k.filter))
  }

  predicate AllKeysFit(x: Schema, s: seq<Keyed>) {
    forall i :: 0 <= i < |s| ==> KeysFit(x, s[i])
  }

  lemma {:induction false} ListKeysFit(x: Schema, s: seq<Keyed>)
    requires AllKeysFit(x, s)
    ensures Map(s, ShapeOf) == FormShapes(x, FormsOf(x, Map(s, FilterOf)))
    ensures Map(s, ValueOf) == FormValues(x, FormsOf(x, Map(s, FilterOf)))
    decreases |s|
  {
    hide FormOf, FormShape, FormValue;
    if s != [] {
      var n := |s| - 1;
      ListKeysFit(x, s[..n]);
      assert KeysFit(x, s[n]);
      assert Map(s, FilterOf)[..n] == Map(s[..n], FilterOf);
      var forms := FormsOf(x, Map(s, FilterOf));
      assert forms[..|forms| - 1] == FormsOf(x, Map(s[..n], FilterOf));
    }
  }

  lemma {:induction false} NormalKeysFit(x: Schema, f: Filter)
    requires Normalize(x, f).Some?
    ensures KeysFit(x, Normalize(x, f).value)
    decreases f, 1
  {
    if f.Group? {
      var children := NormalizeAll(x, f.expressions).value;
      hide *;
      NormalizeGroup(x, f.operator, f.expressions);
      GroupExpressions(f);
      AllNormalKeysFit(x, f.expressions);
      GroupedParts(x, f.operator, children);
      SortSorts(children);
      FitAnywhere(x, children, Sort(children));
      ListKeysFit(x, Sort(children));
      GroupKeysFit(x, f.operator, Sort(children));
    } else {
      hide BindAll, Map;
    }
  }

  lemma GroupExpressions(f: Filter)
    requires f.Group?
    ensures f == Group(f.operator, f.expressions)
  {
  }

  lemma GroupKeysFit(x: Schema, operator: string, s: seq<Keyed>)
    requires Map(s, ShapeOf) == FormShapes(x, FormsOf(x, Map(s, FilterOf)))
    requires Map(s, ValueOf) == FormValues(x, FormsOf(x, Map(s, FilterOf)))
    ensures KeysFit(x, GroupOf(x, operator, s))
  {
    hide Map, FormsOf, FormShapes, FormValues;
  }

  lemma FitAnywhere(x: Schema, a: seq<Keyed>, b: seq<Keyed>)
    requires AllKeysFit(x, a) && multiset(a) == multiset(b)
    ensures AllKeysFit(x, b)
  {
    hide KeysFit;
    forall i | 0 <= i < |b| ensures KeysFit(x, b[i]) {
      InMultiset(b, i);
      var j := PlaceOf(a, b[i]);
      assert KeysFit(x, a[j]);
    }
  }

  lemma {:induction false} AllNormalKeysFit(x: Schema, expressions: seq<Filter>)
    requires NormalizeAll(x, expressions).Some?
    ensures AllKeysFit(x, NormalizeAll(x, expressions).value)
    decreases expressions, 0
  {
    hide Normalize, NormalizeAll, KeysFit;
    var s := NormalizeAll(x, expressions).value;
    AllAt(x, expressions, 0);
    forall i | 0 <= i < |s| ensures KeysFit(x, s[i]) {
      AllAt(x, expressions, i);
      NormalKeysFit(x, expressions[i]);
    }
  }

  lemma {:induction false} FormsUnique(x: Schema, a: Form, b: Form)
    requires Injective(x) && FormValue(x, a) == FormValue(x, b)
    ensures a == b
    decreases a, 1
  {
    if a.BoundPredicate? {
      assert b.BoundPredicate? && a.bounds == b.bounds && FormShape(x, a) == FormShape(x, b);
    } else {
      assert b.BoundGroup? && FormValues(x, a.children) == FormValues(x, b.children);
      hide Injective, FormValues, FormShape;
      FormListsUnique(x, a.children, b.children);
    }
  }

  lemma {:induction false} FormListsUnique(x: Schema, a: seq<Form>, b: seq<Form>)
    requires Injective(x) && FormValues(x, a) == FormValues(x, b)
    ensures a == b
    decreases a, 0, |a|
  {
    hide FormValue, Injective;
    FormValuesLength(x, a);
    FormValuesLength(x, b);
    if a != [] {
      var n := |a| - 1;
      assert FormValues(x, a)[..n] == FormValues(x, a[..n]) && FormValues(x, b)[..n] == FormValues(x, b[..n]);
      assert FormValues(x, a)[n] == FormValue(x, a[n]) && FormValues(x, b)[n] == FormValue(x, b[n]);
      FormListsUnique(x, a[..n], b[..n]);
      FormsUnique(x, a[n], b[n]);
    }
  }

  lemma {:induction false} FormValuesLength(x: Schema, forms: seq<Form>)
    ensures |FormValues(x, forms)| == |forms|
    decreases |forms|
  {
    hide FormValue;
    if forms != [] {
      FormValuesLength(x, forms[..|forms| - 1]);
    }
  }

  /**
   Two normalized filters have the same value key exactly when they ask for the same thing once their
   values are bound; and then they have the same shape key.
   */
  lemma EqualKeysMeanEqualForms(x: Schema, a: Keyed, b: Keyed)
    requires Injective(x) && KeysFit(x, a) && KeysFit(x, b)
    ensures a.value == b.value <==> FormOf(x, a.filter) == FormOf(x, b.filter)
    ensures a.value == b.value ==> a.shape == b.shape
  {
    hide Injective, FormOf, FormShape, FormValue;
    if a.value == b.value {
      FormsUnique(x, FormOf(x, a.filter), FormOf(x, b.filter));
    }
  }

  // ------------------------------------------------------------------ methods

  /** Equal neighbours in the sorted list. */
  predicate Neighbours(s: seq<Keyed>, n: nat) {
    exists i :: 0 < i < n <= |s| && s[i - 1].value == s[i].value
  }

  lemma SortedNeighbours(s: seq<Keyed>, i: nat, j: nat)
    requires Sorted(s) && i < j < |s| && s[i].value == s[j].value && s[i].shape == s[j].shape
    ensures s[i].value == s[i + 1].value
  {
    assert NotAfter(BothKeys(s[i]), BothKeys(s[i + 1]));
    if i + 1 < j {
      assert NotAfter(BothKeys(s[i + 1]), BothKeys(s[j]));
    }
  }

  /** Comparing neighbours after sorting by both keys finds every pair of equal value keys. */
  lemma NeighboursDecide(x: Schema, s: seq<Keyed>)
    requires Injective(x) && AllKeysFit(x, s) && Sorted(s)
    ensures Neighbours(s, |s|) == Duplicates(s)
  {
    hide Injective, KeysFit, Sorted;
    if Duplicates(s) {
      var i, j :| 0 <= i < j < |s| && s[i].value == s[j].value;
      EqualKeysMeanEqualForms(x, s[i], s[j]);
      SortedNeighbours(s, i, j);
      assert s[i + 1 - 1].value == s[i + 1].value;
    }
  }

  /** slices.SortFunc: some ordering of the same elements by the two keys. */
  method SortFunc(s: seq<Keyed>) returns (r: seq<Keyed>)
    ensures Sorted(r) && multiset(r) == multiset(s)
  {
    hide *;
    r := Sort(s);
    SortSorts(s);
  }

  /** normalizeAggregateFilterNode. */
  method NormalizeNode(x: Schema, f: Filter) returns (r: Option<Keyed>)
    requires Injective(x)
    ensures r == Normalize(x, f)
    decreases f, 1
  {
    hide *;
    match f {
      case Predicate(field, representation, operator, values) =>
        NormalizePredicate(x, field, representation, operator, values);
        var shape := ShapeKey(x, x.canonical(field), representation, operator, values);
        var bounds: seq<Bound> := [];
        BindStart(x, values);
        for i := 0 to |values|
          invariant BindAll(x, values[..i]) == Some(bounds)
        {
          BindStep(x, values, i);
          var bound := x.bind(values[i]);
          if bound == None {
            return None;
          }
          bounds := bounds + [bound.value];
        }
        r := Some(Keyed(Predicate(x.canonical(field), representation, operator, values), shape,
                        x.digest(ValuePredicate(shape, bounds))));
      case Group(operator, expressions) =>
        NormalizeGroup(x, operator, expressions);
        var children := NormalizeExpressions(x, expressions);
        if children == None {
          return None;
        }
        AllNormalKeysFit(x, expressions);
        r := SortAndCheck(x, operator, children.value);
    }
  }

  /** The loop over a group's expressions. */
  method NormalizeExpressions(x: Schema, expressions: seq<Filter>) returns (r: Option<seq<Keyed>>)
    requires Injective(x)
    ensures r == NormalizeAll(x, expressions)
    decreases expressions, 0
  {
    hide *;
    var children: seq<Keyed> := [];
    AllEnd(x, [], Predicate("", "", "", []));
    NoExpressions(expressions);
    for i := 0 to |expressions|
      invariant NormalizeAll(x, expressions[..i]) == Some(children)
    {
      AllEnd(x, expressions[..i], expressions[i]);
      OneExpressionMore(expressions, i);
      var child := NormalizeNode(x, expressions[i]);
      if child == None {
        AllFails(x, expressions, i + 1);
        return None;
      }
      children := children + [child.value];
    }
    r := Some(children);
  }

  /** The sort, and the loop that rejects equal neighbours and collects the children's keys. */
  method SortAndCheck(x: Schema, operator: string, children: seq<Keyed>) returns (r: Option<Keyed>)
    requires Injective(x) && AllKeysFit(x, children)
    ensures r == Grouped(x, operator, children)
  {
    hide *;
    var sorted := SortFunc(children);
    FitAnywhere(x, children, sorted);
    NeighboursDecide(x, sorted);
    GroupedInAnyOrder(x, operator, sorted, children);
    GroupedSorted(x, operator, sorted);
    var filters: seq<Filter>, shapes: seq<Digest>, values: seq<Digest> := [], [], [];
    var previous: Digest := 0;
    NoKeys(sorted);
    for i := 0 to |sorted|
      invariant filters == Map(sorted[..i], FilterOf)
      invariant shapes == Map(sorted[..i], ShapeOf) && values == Map(sorted[..i], ValueOf)
      invariant !Neighbours(sorted, i) && (i > 0 ==> previous == sorted[i - 1].value)
    {
      OneKeyMore(sorted, i);
      var expression := sorted[i];
      if i != 0 && expression.value == previous {
        return None;
      }
      previous := expression.value;
      filters := filters + [expression.filter];
      shapes := shapes + [expression.shape];
      values := values + [expression.value];
    }
    r := Some(Keyed(Group(operator, filters), x.digest(ShapeGroup(operator, shapes)), x.digest(ValueGroup(operator, values))));
  }

  // --------------------------------------------------------- facts for methods

  lemma NormalizePredicate(
    x: Schema, field: string, representation: string, operator: string, values: seq<TypedValue>
  )
    ensures var shape := ShapeKey(x, x.canonical(field), representation, operator, values);
            Normalize(x, Predicate(field, representation, operator, values))
            == if BindAll(x, values) == None then None
               else Some(Keyed(Predicate(x.canonical(field), representation, operator, values), shape,
                               x.digest(ValuePredicate(shape, BindAll(x, values).value))))
  {
    hide BindAll, ShapeKey;
  }

  lemma BindStart(x: Schema, values: seq<TypedValue>)
    ensures BindAll(x, values[..0]) == Some([]) && values[..|values|] == values
  {
  }

  lemma {:induction false} BindFails(x: Schema, values: seq<TypedValue>, i: nat)
    requires i <= |values| && BindAll(x, values[..i]) == None
    ensures BindAll(x, values) == None
    decreases |values|
  {
    if i == |values| {
      assert values[..i] == values;
    } else {
      var init := values[..|values| - 1];
      assert init[..i] == values[..i];
      BindFails(x, init, i);
    }
  }

  lemma BindStep(x: Schema, values: seq<TypedValue>, i: nat)
    requires i < |values|
    ensures BindAll(x, values[..i + 1])
         == (var init, last := BindAll(x, values[..i]), x.bind(values[i]);
             if init == None || last == None then None else Some(init.value + [last.value]))
    ensures BindAll(x, values[..i + 1]) == None ==> BindAll(x, values) == None
  {
    assert values[..i + 1][..i] == values[..i];
    if BindAll(x, values[..i + 1]) == None {
      BindFails(x, values, i + 1);
    }
  }

  lemma NoExpressions(expressions: seq<Filter>)
    ensures expressions[..0] == [] && expressions[..|expressions|] == expressions
  {
  }

  lemma OneExpressionMore(expressions: seq<Filter>, i: nat)
    requires i < |expressions|
    ensures expressions[..i + 1] == expressions[..i] + [expressions[i]]
  {
  }

  lemma AllFails(x: Schema, expressions: seq<Filter>, i: nat)
    requires i <= |expressions| && NormalizeAll(x, expressions[..i]) == None
    ensures NormalizeAll(x, expressions) == None
  {
    hide *;
    AllConcat(x, expressions[..i], expressions[i..]);
    WholeIs(expressions, i);
  }

  lemma WholeIs(expressions: seq<Filter>, i: nat)
    requires i <= |expressions|
    ensures expressions[..i] + expressions[i..] == expressions
  {
  }

  lemma GroupedSorted(x: Schema, operator: string, s: seq<Keyed>)
    requires Sorted(s)
    ensures Grouped(x, operator, s) == if Duplicates(s) then None else Some(GroupOf(x, operator, s))
    ensures GroupOf(x, operator, s) == Keyed(Group(operator, Map(s, FilterOf)),
              x.digest(ShapeGroup(operator, Map(s, ShapeOf))), x.digest(ValueGroup(operator, Map(s, ValueOf))))
  {
    hide Duplicates, Sorted, Sort, Map;
    if !Duplicates(s) {
      SortSorts(s);
      SortedUnique(s, Sort(s));
    }
  }

  lemma NoKeys(s: seq<Keyed>)
    ensures Map(s[..0], FilterOf) == [] && Map(s[..0], ShapeOf) == [] && Map(s[..0], ValueOf) == []
    ensures s[..|s|] == s && !Neighbours(s, 0)
  {
  }

  lemma OneKeyMore(s: seq<Keyed>, i: nat)
    requires i < |s|
    ensures Map(s[..i + 1], FilterOf) == Map(s[..i], FilterOf) + [s[i].filter]
    ensures Map(s[..i + 1], ShapeOf) == Map(s[..i], ShapeOf) + [s[i].shape]
    ensures Map(s[..i + 1], ValueOf) == Map(s[..i], ValueOf) + [s[i].value]
    ensures Neighbours(s, i + 1) == (Neighbours(s, i) || (i > 0 && s[i - 1].value == s[i].value))
    ensures Neighbours(s, i + 1) ==> Neighbours(s, |s|)
  {
    assert s[..i + 1][..i] == s[..i];
  }
}
