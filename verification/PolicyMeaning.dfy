/**
 What a node of a policy stands for, said by relations on positions: pairs of a mapping, chains of aliases, paths of
 pointers and pairs of an override (internal/config/load.go). The function that computes it is proved to agree.
 */
module PolicyMeaning {
  import opened Wrappers
  import opened Sequences
  import opened PolicyJson
  import opened PolicyOverride
  import opened PolicyGraph

  // --------------------------------------------------------------- overriding

  /** A pair stands at position j whose key has this text. */
  predicate KeyAt<T>(pairs: seq<T>, key: T -> string, k: string, j: nat) {
    j % 2 == 0 && j + 1 < |pairs| && key(pairs[j]) == k
  }

  predicate HasKey<T>(pairs: seq<T>, key: T -> string, k: string) {
    exists j: nat :: j < |pairs| && KeyAt(pairs, key, k, j)
  }

  /** The pair at position i is the override's pair of the same key, or the base's own when the override has none. */
  predicate PairOverridden<T(==)>(base: seq<T>, over: seq<T>, key: T -> string, r: seq<T>, i: nat)
    requires i + 1 < |base| && i + 1 < |r|
  {
    if HasKey(over, key, key(base[i])) then
      exists j: nat :: j < |over| && KeyAt(over, key, key(base[i]), j) && r[i] == over[j] && r[i + 1] == over[j + 1]
    else r[i] == base[i] && r[i + 1] == base[i + 1]
  }

  /** The positions of the override's pairs whose keys the base lacks, in their order. */
  predicate NewPlaces<T>(base: seq<T>, over: seq<T>, key: T -> string, places: seq<nat>) {
    && (forall a, b :: 0 <= a < b < |places| ==> places[a] < places[b])
    && (forall a :: 0 <= a < |places| ==> IsNew(base, over, key, places[a]))
    && (forall j: nat :: j < |over| && IsNew(base, over, key, j) ==> j in places)
  }

  predicate IsNew<T>(base: seq<T>, over: seq<T>, key: T -> string, j: nat) {
    j % 2 == 0 && j + 1 < |over| && !HasKey(base, key, key(over[j]))
  }

  /** Base order with replaced pairs, and behind it the new pairs in the override's order. */
  ghost predicate IsOverridden<T(!new)>(base: seq<T>, over: seq<T>, key: T -> string, r: seq<T>) {
    && |base| <= |r| && (forall i: nat :: i + 1 < |base| && i % 2 == 0 ==> PairOverridden(base, over, key, r, i))
    && exists places :: NewPlaces(base, over, key, places) && PairsFrom(over, places, r[|base|..])
  }

  predicate PairsFrom<T(==)>(over: seq<T>, places: seq<nat>, r: seq<T>) {
    && |r| == 2 * |places|
    && forall a :: 0 <= a < |places| ==>
         places[a] + 1 < |over| && r[2 * a] == over[places[a]] && r[2 * a + 1] == over[places[a] + 1]
  }

  lemma {:induction false} KeysAreKeys<T>(pairs: seq<T>, key: T -> string, k: string)
    requires |pairs| % 2 == 0
    ensures k in Keys(pairs, key) <==> HasKey(pairs, key, k)
  {
    if pairs != [] {
      var n := |pairs| - 2;
      var init := pairs[..n];
      KeysAreKeys(init, key, k);
      assert forall j: nat :: j < n ==> KeyAt(init, key, k, j) == KeyAt(pairs, key, k, j);
      assert key(pairs[n]) == k ==> KeyAt(pairs, key, k, n);
    }
  }

  /** What is chosen is the last pair of a key. */
  lemma {:induction false} ChosenStands<T>(pairs: seq<T>, key: T -> string, k: string)
    requires |pairs| % 2 == 0
    ensures Chosen(pairs, key, k).Some? <==> HasKey(pairs, key, k)
    ensures Chosen(pairs, key, k).Some? ==>
              exists j: nat :: j < |pairs| && KeyAt(pairs, key, k, j)
                && Chosen(pairs, key, k) == Some((pairs[j], pairs[j + 1]))
  {
    if pairs != [] {
      var n := |pairs| - 2;
      var init := pairs[..n];
      ChosenStands(init, key, k);
      assert forall j: nat :: j < n ==> KeyAt(init, key, k, j) == KeyAt(pairs, key, k, j);
      assert key(pairs[n]) == k ==> KeyAt(pairs, key, k, n);
    }
  }

  lemma PickStands<T>(base: seq<T>, over: seq<T>, key: T -> string, r: seq<T>, i: nat)
    requires |over| % 2 == 0 && i + 1 < |base| && i + 1 < |r|
    requires [r[i], r[i + 1]] == Pick(over, key, base[i], base[i + 1])
    ensures PairOverridden(base, over, key, r, i)
  {
    hide KeyAt, HasKey, Chosen;
    ChosenStands(over, key, key(base[i]));
    var picked := Pick(over, key, base[i], base[i + 1]);
    assert r[i] == picked[0] && r[i + 1] == picked[1];
  }

  lemma {:induction false} ReplacedAt<T>(base: seq<T>, over: seq<T>, key: T -> string, i: nat)
    requires |base| % 2 == 0 && i % 2 == 0 && i + 1 < |base|
    ensures |Replaced(base, over, key)| == |base|
    ensures var r := Replaced(base, over, key); [r[i], r[i + 1]] == Pick(over, key, base[i], base[i + 1])
    decreases |base|
  {
    hide Pick;
    var n := |base| - 2;
    var init := base[..n];
    if n > 0 {
      ReplacedAt(init, over, key, if i < n then i else 0);
    }
  }

  lemma NothingReplaced<T>(base: seq<T>, over: seq<T>, key: T -> string)
    requires base == []
    ensures Replaced(base, over, key) == []
  {
  }

  lemma IsNewBefore<T>(base: seq<T>, over: seq<T>, key: T -> string, j: nat)
    requires |over| % 2 == 0 && over != [] && j < |over| - 2
    ensures IsNew(base, over[..|over| - 2], key, j) == IsNew(base, over, key, j)
  {
    hide HasKey;
  }

  lemma IsNewLast<T>(base: seq<T>, over: seq<T>, key: T -> string)
    requires |over| % 2 == 0 && over != []
    ensures IsNew(base, over, key, |over| - 2) == !HasKey(base, key, key(over[|over| - 2]))
    ensures !IsNew(base, over, key, |over| - 1)
  {
    hide HasKey;
  }

  lemma NewPlacesGrow<T>(base: seq<T>, over: seq<T>, key: T -> string, places: seq<nat>, all: seq<nat>)
    requires |over| % 2 == 0 && over != [] && NewPlaces(base, over[..|over| - 2], key, places)
    requires all == if IsNew(base, over, key, |over| - 2) then places + [|over| - 2] else places
    ensures NewPlaces(base, over, key, all)
  {
    hide IsNew;
    var n := |over| - 2;
    var init := over[..n];
    IsNewLast(base, over, key);
    forall a | 0 <= a < |places| ensures places[a] < n && IsNew(base, over, key, places[a]) {
      assert IsNew(base, init, key, places[a]);
      NewIsInside(base, init, key, places[a]);
      IsNewBefore(base, over, key, places[a]);
    }
    forall j: nat | j < |over| && IsNew(base, over, key, j) ensures j in all {
      if j < n {
        IsNewBefore(base, over, key, j);
      } else {
        assert j == n;
        assert all[|places|] == n;
      }
    }
  }

  lemma NewIsInside<T>(base: seq<T>, over: seq<T>, key: T -> string, j: nat)
    requires IsNew(base, over, key, j)
    ensures j + 1 < |over|
  {
    hide HasKey;
  }

  lemma PairsGrow<T>(over: seq<T>, places: seq<nat>, r: seq<T>)
    requires |over| >= 2 && PairsFrom(over[..|over| - 2], places, r)
    ensures PairsFrom(over, places, r)
    ensures PairsFrom(over, places + [|over| - 2], r + over[|over| - 2..])
  {
    var n := |over| - 2;
    var all, longer := places + [n], r + over[n..];
    forall a | 0 <= a < |all|
      ensures all[a] + 1 < |over| && longer[2 * a] == over[all[a]] && longer[2 * a + 1] == over[all[a] + 1]
    {
      if a < |places| {
        assert longer[2 * a] == r[2 * a] && longer[2 * a + 1] == r[2 * a + 1];
      }
    }
  }

  lemma {:induction false} AddedStands<T>(base: seq<T>, over: seq<T>, key: T -> string) returns (places: seq<nat>)
    requires |base| % 2 == 0 && |over| % 2 == 0
    ensures NewPlaces(base, over, key, places) && PairsFrom(over, places, Added(base, over, key))
    decreases |over|
  {
    hide *;
    if over == [] {
      places := [];
      NothingAdded(base, over, key);
    } else {
      var n := |over| - 2;
      var init, last := over[..n], over[n..];
      var before := AddedStands(base, init, key);
      SplitEnd(over);
      AddedEnd(base, init, last, key);
      KeysAreKeys(base, key, key(over[n]));
      IsNewLast(base, over, key);
      PairsGrow(over, before, Added(base, init, key));
      places := if IsNew(base, over, key, n) then before + [n] else before;
      NewPlacesGrow(base, over, key, before, places);
    }
  }

  lemma NothingAdded<T>(base: seq<T>, over: seq<T>, key: T -> string)
    requires over == []
    ensures NewPlaces(base, over, key, []) && PairsFrom(over, [], Added(base, over, key))
  {
  }

  /** The override is applied as its relation says. */
  lemma OverriddenIsOverridden<T(!new)>(base: seq<T>, over: seq<T>, key: T -> string)
    requires |base| % 2 == 0 && |over| % 2 == 0
    ensures IsOverridden(base, over, key, Overridden(base, over, key))
  {
    hide PairOverridden, NewPlaces, PairsFrom, Pick;
    var r, replaced, added := Overridden(base, over, key), Replaced(base, over, key), Added(base, over, key);
    var places := AddedStands(base, over, key);
    if base == [] {
      NothingReplaced(base, over, key);
    } else {
      ReplacedAt(base, over, key, 0);
    }
    assert r == replaced + added;
    assert r[|base|..] == added;
    forall i: nat | i + 1 < |base| && i % 2 == 0 ensures PairOverridden(base, over, key, r, i) {
      ReplacedAt(base, over, key, i);
      assert r[i] == replaced[i] && r[i + 1] == replaced[i + 1];
      PickStands(base, over, key, r, i);
    }
  }

  // ----------------------------------------------------------------- meaning

  predicate NoKey(g: Graph, content: seq<Id>, key: string) {
    forall i :: 0 <= i < |content| && i % 2 == 0 ==> KeyText(g, content[i]) != key
  }

  /** The text at the end of a `$ref` value names a document and the path to the target in it. */
  ghost predicate RefersTo(g: Graph, n: Id, ref: Id, target: Id) {
    exists end :: EndsAt(g, ref, end) && Names(g, DocOf(g, n), KeyText(g, end), target)
  }

  ghost predicate Names(g: Graph, doc: nat, uri: string, target: Id) {
    var place := g.reference(doc, uri);
    place.Some? && place.value.0 in g.roots && PathTo(g, g.roots[place.value.0], place.value.1, target)
  }

  /** The node stands for the tree, found within so many steps. */
  ghost predicate StandsFor(g: Graph, n: Id, v: Value, fuel: nat)
    decreases fuel, 0
  {
    && fuel > 0 && n in g.nodes
    && match g.nodes[n].node
       case AliasNode(target) => StandsFor(g, target, v, fuel - 1)
       case ScalarNode(scalar) => HasText(scalar) && v == Atom(scalar)
       case SequenceNode(content) => v.Container? && !v.mapping && AllStandFor(g, content, v.content, fuel - 1)
       case MappingNode(content) =>
         if NoKey(g, content, REF) then v.Container? && v.mapping && AllStandFor(g, content, v.content, fuel - 1)
         else
           exists ref, target ::
             HasPair(g, content, REF, ref) && RefersTo(g, n, ref, target) && ReferenceStandsFor(g, content, target, v, fuel - 1)
  }

  /** A reference stands for its target's tree, with the direct keys that an `$override` gives. */
  ghost predicate ReferenceStandsFor(g: Graph, content: seq<Id>, target: Id, v: Value, fuel: nat)
    decreases fuel, 1
  {
    if NoKey(g, content, OVERRIDE) then StandsFor(g, target, v, fuel)
    else
      exists override, end, base, over ::
        && HasPair(g, content, OVERRIDE, override) && EndsAt(g, override, end) && NodeAt(g, end).MappingNode?
        && StandsFor(g, target, Container(true, base), fuel) && fuel > 0
        && AllStandFor(g, NodeAt(g, end).content, over, fuel - 1)
        && v == Container(true, Overridden(base, over, ValueKey))
  }

  ghost predicate AllStandFor(g: Graph, content: seq<Id>, values: seq<Value>, fuel: nat)
    decreases fuel, 1
  {
    |values| == |content| && forall i :: 0 <= i < |content| ==> StandsFor(g, content[i], values[i], fuel)
  }

  lemma FieldOfMapping(g: Graph, n: Id, content: seq<Id>, key: string, v: Id)
    requires Scanned(g) && n in g.nodes && g.nodes[n].node == MappingNode(content)
    ensures Field(g, content, key) == Some(v) <==> HasPair(g, content, key, v)
    ensures Field(g, content, key) == None <==> NoKey(g, content, key)
  {
    assert ScannedNode(g, n);
    hide Scanned, Field, Texts, HasPair, KeyText, Below, End;
    TextsAreDistinct(g, content);
    FieldIsPair(g, content, key, v);
  }

  lemma RefTargetIs(g: Graph, n: Id, ref: Id, target: Id)
    requires Scanned(g)
    ensures RefTarget(g, n, ref) == Some(target) <==> RefersTo(g, n, ref, target)
  {
    hide Scanned, End, EndsAt, KeyText, Target, PathTo;
    var end := End(g, ref);
    EndIsEnd(g, ref, end);
    var place := g.reference(DocOf(g, n), KeyText(g, end));
    if place.Some? && place.value.0 in g.roots {
      TargetIsPath(g, g.roots[place.value.0], place.value.1, target);
    }
    if RefersTo(g, n, ref, target) {
      var e :| EndsAt(g, ref, e) && Names(g, DocOf(g, n), KeyText(g, e), target);
      EndIsEnd(g, ref, e);
    }
  }

  /** The computed tree is the one that the node stands for. */
  lemma {:induction false} MeaningStands(g: Graph, n: Id, v: Value, fuel: nat)
    requires Scanned(g)
    ensures Meaning(g, n, fuel) == Some(v) <==> StandsFor(g, n, v, fuel)
    decreases fuel, 0
  {
    if fuel > 0 && n in g.nodes {
      match g.nodes[n].node {
        case AliasNode(target) =>
          hide Scanned;
          MeaningStands(g, target, v, fuel - 1);
        case ScalarNode(_) =>
        case SequenceNode(content) =>
          hide Scanned, MeaningAll, AllStandFor;
          if v.Container? {
            AllStand(g, content, v.content, fuel - 1);
          }
        case MappingNode(content) =>
          MappingStands(g, n, content, v, fuel);
      }
    }
  }

  lemma {:induction false} MappingStands(g: Graph, n: Id, content: seq<Id>, v: Value, fuel: nat)
    requires Scanned(g) && n in g.nodes && g.nodes[n].node == MappingNode(content) && fuel > 0
    ensures Meaning(g, n, fuel) == Some(v) <==> StandsFor(g, n, v, fuel)
    decreases fuel - 1, 5
  {
    hide Scanned, MeaningAll, AllStandFor, MeaningOfReference, ReferenceStandsFor, Field, NoKey, HasPair, RefersTo, RefTarget;
    var ref := Field(g, content, REF);
    if ref == None {
      FieldOfMapping(g, n, content, REF, 0);
      if v.Container? {
        AllStand(g, content, v.content, fuel - 1);
      }
    } else {
      FieldOfMapping(g, n, content, REF, ref.value);
      ReferenceStands(g, n, content, ref.value, v, fuel - 1);
      forall r: Id, target: Id | HasPair(g, content, REF, r) && RefersTo(g, n, r, target)
        ensures r == ref.value && RefTarget(g, n, r) == Some(target)
      {
        FieldOfMapping(g, n, content, REF, r);
        RefTargetIs(g, n, r, target);
      }
      var target := RefTarget(g, n, ref.value);
      if target.Some? {
        RefTargetIs(g, n, ref.value, target.value);
      }
    }
  }

  lemma {:induction false} ReferenceStands(g: Graph, n: Id, content: seq<Id>, ref: Id, v: Value, fuel: nat)
    requires Scanned(g) && n in g.nodes && g.nodes[n].node == MappingNode(content)
    ensures MeaningOfReference(g, n, content, ref, fuel) == Some(v) <==>
              RefTarget(g, n, ref).Some? && ReferenceStandsFor(g, content, RefTarget(g, n, ref).value, v, fuel)
    decreases fuel, 4
  {
    hide Scanned, Meaning, MeaningAll, StandsFor, AllStandFor, Field, NoKey, HasPair, RefTarget, End, EndsAt, Overridden;
    var target := RefTarget(g, n, ref);
    if target.Some? {
      var override := Field(g, content, OVERRIDE);
      if override == None {
        FieldOfMapping(g, n, content, OVERRIDE, 0);
        MeaningStands(g, target.value, v, fuel);
      } else {
        FieldOfMapping(g, n, content, OVERRIDE, override.value);
        OverrideStands(g, n, content, target.value, override.value, v, fuel);
      }
    }
  }

  /** The tree of a reference with an override, as it is computed. */
  function OverriddenTree(g: Graph, target: Id, override: Id, fuel: nat): Option<Value> {
    var base := Meaning(g, target, fuel);
    var overrides := NodeAt(g, End(g, override));
    if base == None || !overrides.MappingNode? || base.value.Atom? || !base.value.mapping || fuel == 0 then None
    else
      var over := MeaningAll(g, overrides.content, fuel - 1);
      if over == None then None
      else Some(Container(true, Overridden(base.value.content, over.value, ValueKey)))
  }

  ghost predicate OverrideStandsFor(g: Graph, target: Id, override: Id, v: Value, fuel: nat) {
    exists end, base, over ::
      && EndsAt(g, override, end) && NodeAt(g, end).MappingNode?
      && StandsFor(g, target, Container(true, base), fuel) && fuel > 0
      && AllStandFor(g, NodeAt(g, end).content, over, fuel - 1)
      && v == Container(true, Overridden(base, over, ValueKey))
  }

  lemma {:induction false} OverrideStands(g: Graph, n: Id, content: seq<Id>, target: Id, override: Id, v: Value, fuel: nat)
    requires Scanned(g) && n in g.nodes && g.nodes[n].node == MappingNode(content)
    requires Field(g, content, OVERRIDE) == Some(override)
    ensures OverriddenTree(g, target, override, fuel) == Some(v) <==> ReferenceStandsFor(g, content, target, v, fuel)
    decreases fuel, 3
  {
    hide Scanned, Meaning, MeaningAll, StandsFor, AllStandFor, Field, NoKey, HasPair, End, EndsAt, Overridden;
    FieldOfMapping(g, n, content, OVERRIDE, override);
    OverrideStandsSomehow(g, target, override, v, fuel);
    hide OverriddenTree;
    forall o: Id | HasPair(g, content, OVERRIDE, o) ensures o == override {
      FieldOfMapping(g, n, content, OVERRIDE, o);
    }
  }

  lemma {:induction false} OverrideStandsSomehow(g: Graph, target: Id, override: Id, v: Value, fuel: nat)
    requires Scanned(g)
    ensures OverriddenTree(g, target, override, fuel) == Some(v) <==> OverrideStandsFor(g, target, override, v, fuel)
    decreases fuel, 2
  {
    hide Scanned, Meaning, MeaningAll, StandsFor, AllStandFor, End, EndsAt, Overridden;
    var end := End(g, override);
    EndIsEnd(g, override, end);
    if OverriddenTree(g, target, override, fuel) == Some(v) {
      var base := Meaning(g, target, fuel).value;
      var over := MeaningAll(g, NodeAt(g, end).content, fuel - 1).value;
      MeaningStands(g, target, base, fuel);
      AllStand(g, NodeAt(g, end).content, over, fuel - 1);
      assert base == Container(true, base.content);
    }
    if OverrideStandsFor(g, target, override, v, fuel) {
      var e, base, over :|
        && EndsAt(g, override, e) && NodeAt(g, e).MappingNode?
        && StandsFor(g, target, Container(true, base), fuel) && fuel > 0
        && AllStandFor(g, NodeAt(g, e).content, over, fuel - 1)
        && v == Container(true, Overridden(base, over, ValueKey));
      EndIsEnd(g, override, e);
      MeaningStands(g, target, Container(true, base), fuel);
      AllStand(g, NodeAt(g, end).content, over, fuel - 1);
    }
  }

  lemma AllStandEnd(g: Graph, content: seq<Id>, values: seq<Value>, fuel: nat)
    requires content != [] && |values| == |content|
    ensures var n := |content| - 1;
            AllStandFor(g, content, values, fuel)
            <==> AllStandFor(g, content[..n], values[..n], fuel) && StandsFor(g, content[n], values[n], fuel)
  {
    hide StandsFor;
    var n := |content| - 1;
    var c, v := content[..n], values[..n];
    assert forall i :: 0 <= i < n ==> c[i] == content[i] && v[i] == values[i];
  }

  lemma {:induction false} AllStand(g: Graph, content: seq<Id>, values: seq<Value>, fuel: nat)
    requires Scanned(g)
    ensures MeaningAll(g, content, fuel) == Some(values) <==> AllStandFor(g, content, values, fuel)
    decreases fuel, 1, |content|
  {
    hide Scanned, Meaning, StandsFor, AllStandFor;
    if content == [] {
      NothingStands(g, values, fuel);
    } else {
      AllLength(g, content, fuel);
      AllStandLength(g, content, values, fuel);
      if |values| == |content| {
        var n := |content| - 1;
        AllStand(g, content[..n], values[..n], fuel);
        MeaningStands(g, content[n], values[n], fuel);
        AllStandEnd(g, content, values, fuel);
        AllEnds(g, content, values, fuel);
      }
    }
  }

  lemma AllEnds(g: Graph, content: seq<Id>, values: seq<Value>, fuel: nat)
    requires content != [] && |values| == |content|
    ensures var n := |content| - 1;
            MeaningAll(g, content, fuel) == Some(values)
            <==> MeaningAll(g, content[..n], fuel) == Some(values[..n]) && Meaning(g, content[n], fuel) == Some(values[n])
  {
    hide Meaning;
    var n := |content| - 1;
    assert values == values[..n] + [values[n]];
    AllLength(g, content[..n], fuel);
  }

  lemma AllStandLength(g: Graph, content: seq<Id>, values: seq<Value>, fuel: nat)
    ensures AllStandFor(g, content, values, fuel) ==> |values| == |content|
  {
    hide StandsFor;
  }

  lemma NothingStands(g: Graph, values: seq<Value>, fuel: nat)
    ensures AllStandFor(g, [], values, fuel) <==> values == []
  {
  }

  /** What a node means is exactly what it stands for. */
  lemma MeansIsStandsFor(g: Graph, n: Id, v: Value)
    requires Scanned(g)
    ensures Means(g, n, v) <==> exists fuel: nat :: StandsFor(g, n, v, fuel)
  {
    hide Scanned, Meaning, StandsFor;
    if Means(g, n, v) {
      var fuel: nat :| Meaning(g, n, fuel) == Some(v);
      MeaningStands(g, n, v, fuel);
    }
    if fuel: nat :| StandsFor(g, n, v, fuel) {
      MeaningStands(g, n, v, fuel);
    }
  }
}
