/**
 Which filter a filter is normalized to, said without keys of its children's lists and without the sort: canonical
 fields, the children's own normal forms in the order of their digests, and no two children that ask for the same
 thing (internal/queryspec/aggregate.go). Normalization succeeds exactly when there is such a filter, and yields it.
 */
module NormalForms {
  import opened Wrappers
  import opened Sequences
  import opened Sorting
  import opened FilterNormalForm
  import opened ShapeMatching

  // ------------------------------------------------------------ bound filters

  /** Every value of every predicate binds. */
  ghost predicate AllBind(x: Schema, f: Filter)
    decreases f
  {
    match f
    case Predicate(_, _, _, values) => forall i :: 0 <= i < |values| ==> x.bind(values[i]).Some?
    case Group(_, expressions) => forall i :: 0 <= i < |expressions| ==> AllBind(x, expressions[i])
  }

  /** The same predicates and groups in the same order, with values of the same types that bind alike. */
  ghost predicate AsksTheSame(x: Schema, f: Filter, g: Filter)
    decreases f
  {
    match f
    case Predicate(field, representation, operator, values) =>
      && g.Predicate? && g.field == field && g.representation == representation && g.operator == operator
      && |g.values| == |values|
      && forall i :: 0 <= i < |values| ==> g.values[i].kind == values[i].kind && x.bind(g.values[i]) == x.bind(values[i])
    case Group(operator, expressions) =>
      && g.Group? && g.operator == operator && |g.expressions| == |expressions|
      && forall i :: 0 <= i < |expressions| ==> AsksTheSame(x, expressions[i], g.expressions[i])
  }

  lemma {:induction false} BindAllAt(x: Schema, values: seq<TypedValue>)
    ensures BindAll(x, values).Some? <==> forall i :: 0 <= i < |values| ==> x.bind(values[i]).Some?
    ensures BindAll(x, values).Some? ==>
              |BindAll(x, values).value| == |values|
              && forall i :: 0 <= i < |values| ==> x.bind(values[i]) == Some(BindAll(x, values).value[i])
  {
    if values != [] {
      var n := |values| - 1;
      BindAllAt(x, values[..n]);
      assert forall i :: 0 <= i < n ==> values[..n][i] == values[i];
    }
  }

  lemma {:induction false} FormsAt(x: Schema, expressions: seq<Filter>, i: nat)
    ensures |FormsOf(x, expressions)| == |expressions|
    ensures i < |expressions| ==> FormsOf(x, expressions)[i] == FormOf(x, expressions[i])
    decreases |expressions|
  {
    hide FormOf;
    if expressions != [] {
      FormsAt(x, expressions[..|expressions| - 1], i);
    }
  }

  lemma KindsEqual(a: seq<TypedValue>, b: seq<TypedValue>)
    ensures Map(a, KindOf) == Map(b, KindOf) <==> |a| == |b| && forall i :: 0 <= i < |a| ==> b[i].kind == a[i].kind
  {
    hide Map;
    var l, r := Map(a, KindOf), Map(b, KindOf);
    forall i | 0 <= i < |a| ensures l[i] == a[i].kind {
      MapAt(a, KindOf, i);
    }
    forall i | 0 <= i < |b| ensures r[i] == b[i].kind {
      MapAt(b, KindOf, i);
    }
    if |a| == |b| && forall i :: 0 <= i < |a| ==> b[i].kind == a[i].kind {
      assert l == r;
    }
  }

  lemma PredicatesAsk(x: Schema, f: Filter, g: Filter)
    requires AllBind(x, f) && AllBind(x, g) && f.Predicate?
    ensures FormOf(x, f) == FormOf(x, g) <==> AsksTheSame(x, f, g)
  {
    hide Map, BindAll;
    if g.Predicate? {
      KindsEqual(f.values, g.values);
      BindAllAt(x, f.values);
      BindAllAt(x, g.values);
    }
  }

  /** For filters whose values bind, equal bound forms are the same request. */
  lemma {:induction false} FormsAsk(x: Schema, f: Filter, g: Filter)
    requires AllBind(x, f) && AllBind(x, g)
    ensures FormOf(x, f) == FormOf(x, g) <==> AsksTheSame(x, f, g)
    decreases f
  {
    if f.Predicate? {
      PredicatesAsk(x, f, g);
    } else if g.Group? {
      hide FormsOf;
      FormsAt(x, f.expressions, 0);
      FormsAt(x, g.expressions, 0);
      forall i | 0 <= i < |f.expressions| && |g.expressions| == |f.expressions|
        ensures FormsOf(x, f.expressions)[i] == FormsOf(x, g.expressions)[i] <==> AsksTheSame(x, f.expressions[i], g.expressions[i])
      {
        FormsAt(x, f.expressions, i);
        FormsAt(x, g.expressions, i);
        FormsAsk(x, f.expressions[i], g.expressions[i]);
      }
      if AsksTheSame(x, f, g) {
        assert FormsOf(x, f.expressions) == FormsOf(x, g.expressions);
      }
    }
  }

  // ------------------------------------------------------------- normal forms

  function FormKeys(x: Schema, f: Filter): (nat, nat) {
    (FormShape(x, FormOf(x, f)), FormValue(x, FormOf(x, f)))
  }

  /** In the order of their two digests. */
  ghost predicate InFormOrder(x: Schema, filters: seq<Filter>) {
    forall i, j :: 0 <= i < j < |filters| ==> NotAfter(FormKeys(x, filters[i]), FormKeys(x, filters[j]))
  }

  ghost predicate Different(x: Schema, filters: seq<Filter>) {
    forall i, j :: 0 <= i < j < |filters| ==> !AsksTheSame(x, filters[i], filters[j])
  }

  /** g is f with canonical fields, its groups ordered and without repetition, and every value binds. */
  ghost predicate NormalFormOf(x: Schema, f: Filter, g: Filter)
    decreases f
  {
    match f
    case Predicate(field, representation, operator, values) =>
      g == Predicate(x.canonical(field), representation, operator, values) && AllBind(x, f)
    case Group(operator, expressions) =>
      && g.Group? && g.operator == operator && |g.expressions| == |expressions|
      && InFormOrder(x, g.expressions) && Different(x, g.expressions)
      && exists p: seq<nat> :: Places(p, |expressions|) && AllNormalFormOf(x, f, p, g.expressions)
  }

  ghost predicate AllNormalFormOf(x: Schema, f: Filter, p: seq<nat>, filters: seq<Filter>)
    requires f.Group? && Places(p, |f.expressions|) && |filters| == |f.expressions|
    decreases f, 0
  {
    forall i :: 0 <= i < |p| ==> NormalFormOf(x, f.expressions[p[i]], filters[i])
  }

  lemma GroupNormalForm(x: Schema, f: Filter, g: Filter) returns (p: seq<nat>)
    requires f.Group? && NormalFormOf(x, f, g)
    ensures g.Group? && g.operator == f.operator && |g.expressions| == |f.expressions|
    ensures InFormOrder(x, g.expressions) && Different(x, g.expressions)
    ensures Places(p, |f.expressions|) && |p| == |f.expressions|
    ensures forall i :: 0 <= i < |p| ==> p[i] < |f.expressions| && NormalFormOf(x, f.expressions[p[i]], g.expressions[i])
  {
    p :| Places(p, |f.expressions|) && AllNormalFormOf(x, f, p, g.expressions);
  }

  lemma {:induction false} NormalFormBinds(x: Schema, f: Filter, g: Filter)
    requires NormalFormOf(x, f, g)
    ensures AllBind(x, g)
    decreases f
  {
    if f.Group? {
      var p := GroupNormalForm(x, f, g);
      forall i | 0 <= i < |g.expressions| ensures AllBind(x, g.expressions[i]) {
        NormalFormBinds(x, f.expressions[p[i]], g.expressions[i]);
      }
    }
  }

  lemma PredicateNormalForm(x: Schema, f: Filter, g: Filter)
    requires f.Predicate?
    ensures NormalFormOf(x, f, g) <==> Normalize(x, f).Some? && Normalize(x, f).value.filter == g
  {
    hide BindAll, ShapeKey;
    BindAllAt(x, f.values);
  }

  /** The filters of a sorted list of keyed children, in order and all different. */
  lemma SortedChildren(x: Schema, s: seq<Keyed>)
    requires Injective(x) && AllKeysFit(x, s) && forall i :: 0 <= i < |s| ==> AllBind(x, s[i].filter)
    ensures Sorted(s) <==> InFormOrder(x, Map(s, FilterOf))
    ensures !Duplicates(s) <==> Different(x, Map(s, FilterOf))
  {
    hide Injective, Map, FormOf, FormShape, FormValue, AllBind, AsksTheSame;
    var filters := Map(s, FilterOf);
    forall i | 0 <= i < |s| ensures filters[i] == s[i].filter && BothKeys(s[i]) == FormKeys(x, filters[i]) {
      MapAt(s, FilterOf, i);
      assert KeysFit(x, s[i]);
    }
    forall i, j | 0 <= i < j < |s| ensures s[i].value == s[j].value <==> AsksTheSame(x, filters[i], filters[j]) {
      assert KeysFit(x, s[i]) && KeysFit(x, s[j]);
      EqualKeysMeanEqualForms(x, s[i], s[j]);
      FormsAsk(x, filters[i], filters[j]);
    }
  }

  /** What normalization yields is a normal form. */
  lemma {:induction false} NormalizedIsNormal(x: Schema, f: Filter)
    requires Injective(x) && Normalize(x, f).Some?
    ensures NormalFormOf(x, f, Normalize(x, f).value.filter)
    decreases f
  {
    if f.Predicate? {
      PredicateNormalForm(x, f, Normalize(x, f).value.filter);
    } else {
      var p := NormalChildren(x, f);
      var children := NormalizeAll(x, f.expressions).value;
      var sorted, g := Sort(children), Normalize(x, f).value.filter;
      hide *;
      forall i | 0 <= i < |p| ensures NormalFormOf(x, f.expressions[p[i]], sorted[i].filter) && AllBind(x, sorted[i].filter) {
        NormalizedIsNormal(x, f.expressions[p[i]]);
        NormalFormBinds(x, f.expressions[p[i]], sorted[i].filter);
      }
      SortedChildren(x, sorted);
      NormalGroup(x, f, g, p, sorted);
    }
  }

  /** The sorted children of a normalized group, and where each of them stood. */
  lemma NormalChildren(x: Schema, f: Filter) returns (p: seq<nat>)
    requires Injective(x) && f.Group? && Normalize(x, f).Some?
    ensures NormalizeAll(x, f.expressions).Some?
    ensures var sorted := Sort(NormalizeAll(x, f.expressions).value);
            && Places(p, |f.expressions|) && |p| == |sorted| == |f.expressions|
            && (forall i :: 0 <= i < |p| ==> p[i] < |f.expressions| && Normalize(x, f.expressions[p[i]]) == Some(sorted[i]))
            && Normalize(x, f).value.filter == Group(f.operator, Map(sorted, FilterOf))
            && Sorted(sorted) && !Duplicates(sorted) && AllKeysFit(x, sorted)
  {
    hide *;
    GroupExpressions(f);
    NormalizeGroup(x, f.operator, f.expressions);
    var children := NormalizeAll(x, f.expressions).value;
    var sorted := Sort(children);
    GroupedParts(x, f.operator, children);
    SortSorts(children);
    if Duplicates(sorted) {
      DuplicatesAnywhere(sorted, children);
    }
    AllNormalKeysFit(x, f.expressions);
    FitAnywhere(x, children, sorted);
    AllAt(x, f.expressions, 0);
    p := Permuted(sorted, children);
    PlacesInside(p, |children|);
    forall i | 0 <= i < |p| ensures Normalize(x, f.expressions[p[i]]) == Some(sorted[i]) {
      AllAt(x, f.expressions, p[i]);
    }
  }

  lemma NormalGroup(x: Schema, f: Filter, g: Filter, p: seq<nat>, sorted: seq<Keyed>)
    requires f.Group? && g == Group(f.operator, Map(sorted, FilterOf))
    requires InFormOrder(x, Map(sorted, FilterOf)) && Different(x, Map(sorted, FilterOf))
    requires Places(p, |f.expressions|) && |p| == |sorted| == |f.expressions|
    requires forall i :: 0 <= i < |p| ==> p[i] < |f.expressions| && NormalFormOf(x, f.expressions[p[i]], sorted[i].filter)
    ensures NormalFormOf(x, f, g)
  {
    hide InFormOrder, Different, Map, Places;
    forall i | 0 <= i < |p| ensures NormalFormOf(x, f.expressions[p[i]], g.expressions[i]) {
      MapAt(sorted, FilterOf, i);
    }
    assert AllNormalFormOf(x, f, p, g.expressions);
  }

  /** And each normal form of a filter is what it is normalized to. */
  lemma {:induction false} NormalIsNormalized(x: Schema, f: Filter, g: Filter)
    requires Injective(x) && NormalFormOf(x, f, g)
    ensures Normalize(x, f).Some? && Normalize(x, f).value.filter == g
    decreases f
  {
    if f.Predicate? {
      PredicateNormalForm(x, f, g);
    } else {
      hide *;
      var p := GroupNormalForm(x, f, g);
      forall i | 0 <= i < |p|
        ensures p[i] < |f.expressions| && Normalize(x, f.expressions[p[i]]).Some?
        ensures Normalize(x, f.expressions[p[i]]).value.filter == g.expressions[i] && AllBind(x, g.expressions[i])
      {
        NormalIsNormalized(x, f.expressions[p[i]], g.expressions[i]);
        NormalFormBinds(x, f.expressions[p[i]], g.expressions[i]);
      }
      GroupIsNormalized(x, f, g, p);
    }
  }

  lemma {:induction false} AllNormalized(x: Schema, expressions: seq<Filter>)
    requires forall i :: 0 <= i < |expressions| ==> Normalize(x, expressions[i]).Some?
    ensures NormalizeAll(x, expressions).Some?
    decreases |expressions|
  {
    hide Normalize;
    if expressions != [] {
      AllNormalized(x, expressions[..|expressions| - 1]);
    }
  }

  lemma EveryPlace(p: seq<nat>, n: nat, j: nat) returns (i: nat)
    requires Places(p, n) && j < n
    ensures i < |p| && p[i] == j
  {
    assert j in p;
    i :| 0 <= i < |p| && p[i] == j;
  }

  function Picked(children: seq<Keyed>, p: seq<nat>): (r: seq<Keyed>)
    requires forall i :: 0 <= i < |p| ==> p[i] < |children|
    ensures |r| == |p| && forall i :: 0 <= i < |p| ==> r[i] == children[p[i]]
  {
    seq(|p|, i requires 0 <= i < |p| => children[p[i]])
  }

  lemma GroupIsNormalized(x: Schema, f: Filter, g: Filter, p: seq<nat>)
    requires Injective(x) && f.Group? && g.Group? && g.operator == f.operator && |g.expressions| == |f.expressions|
    requires InFormOrder(x, g.expressions) && Different(x, g.expressions)
    requires Places(p, |f.expressions|) && |p| == |f.expressions|
    requires forall i :: 0 <= i < |p| ==>
               && p[i] < |f.expressions| && Normalize(x, f.expressions[p[i]]).Some?
               && Normalize(x, f.expressions[p[i]]).value.filter == g.expressions[i] && AllBind(x, g.expressions[i])
    ensures Normalize(x, f).Some? && Normalize(x, f).value.filter == g
  {
    hide *;
    forall j | 0 <= j < |f.expressions| ensures Normalize(x, f.expressions[j]).Some? {
      var i := EveryPlace(p, |f.expressions|, j);
    }
    AllNormalized(x, f.expressions);
    var children := NormalizeAll(x, f.expressions).value;
    AllAt(x, f.expressions, 0);
    var picked := Picked(children, p);
    PickedKeepsMultiset(children, p);
    forall i | 0 <= i < |picked| ensures picked[i].filter == g.expressions[i] && AllBind(x, picked[i].filter) {
      AllAt(x, f.expressions, p[i]);
    }
    FiltersOf(picked, g.expressions);
    AllNormalKeysFit(x, f.expressions);
    FitAnywhere(x, children, picked);
    SortedChildren(x, picked);
    GroupedInAnyOrder(x, f.operator, picked, children);
    GroupedSorted(x, f.operator, picked);
    NormalizeGroup(x, f.operator, f.expressions);
    GroupExpressions(f);
    GroupExpressions(g);
  }

  lemma FiltersOf(s: seq<Keyed>, filters: seq<Filter>)
    requires |s| == |filters| && forall i :: 0 <= i < |s| ==> s[i].filter == filters[i]
    ensures Map(s, FilterOf) == filters
  {
    hide Map;
    forall i | 0 <= i < |s| ensures Map(s, FilterOf)[i] == filters[i] {
      MapAt(s, FilterOf, i);
    }
  }

  lemma PickedKeepsMultiset(children: seq<Keyed>, p: seq<nat>)
    requires Places(p, |children|) && |p| == |children| && forall i :: 0 <= i < |p| ==> p[i] < |children|
    ensures multiset(Picked(children, p)) == multiset(children)
  {
    hide Places, Picked;
    PlacesKeepMultiset(Picked(children, p), children, p);
  }

  /** A filter has at most one normal form, and it is normalized to it, or rejected when it has none. */
  lemma NormalizationDecided(x: Schema, f: Filter, g: Filter)
    requires Injective(x)
    ensures NormalFormOf(x, f, g) <==> Normalize(x, f).Some? && Normalize(x, f).value.filter == g
  {
    hide *;
    if NormalFormOf(x, f, g) {
      NormalIsNormalized(x, f, g);
    }
    if Normalize(x, f).Some? {
      NormalizedIsNormal(x, f);
    }
  }
}
