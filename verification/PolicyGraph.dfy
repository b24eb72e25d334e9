/**
 The source graph of a policy and what it means (internal/config/load.go): aliases and references
 inlined, overrides applied to direct keys. A meaning is computed with fuel because references may be cyclic.
 */
module PolicyGraph {
  import opened Wrappers
  import opened Digits
  import opened Sequences
  import opened PolicyJson
  import opened PolicyOverride

  // ------------------------------------------------------------------- graph

  type Id = nat

  /** A parsed YAML node; a mapping's content alternates keys and values. */
  datatype Node = ScalarNode(scalar: Scalar) | SequenceNode(content: seq<Id>) | MappingNode(content: seq<Id>) | AliasNode(target: Id)

  /** A node and the document it belongs to. */
  datatype Source = Source(node: Node, doc: nat)

  /**
   The scanned documents. `heights` is what the alias check computed, `roots` are the documents' root
   nodes, and `reference` splits a `$ref` URI seen in a document into the document it names and its tokens.
   */
  datatype Graph = Graph(
    nodes: map<Id, Source>, heights: map<Id, nat>, roots: map<nat, Id>,
    reference: (nat, string) -> Option<(nat, seq<string>)>)

  const REF := "$ref"
  const OVERRIDE := "$override"

  function NodeAt(g: Graph, n: Id): Node {
    if n in g.nodes then g.nodes[n].node else SequenceNode([])
  }

  function HeightAt(g: Graph, n: Id): nat {
    if n in g.heights then g.heights[n] else 0
  }

  function DocOf(g: Graph, n: Id): nat {
    if n in g.nodes then g.nodes[n].doc else 0
  }

  /** A key's text; keys are scalars. */
  function KeyText(g: Graph, n: Id): string {
    if NodeAt(g, n).ScalarNode? then NodeAt(g, n).scalar.value else ""
  }

  /** An edge inside a document goes to a lower node of the same document. */
  predicate Below(g: Graph, n: Id, child: Id) {
    n in g.nodes && child in g.nodes && DocOf(g, child) == DocOf(g, n) && HeightAt(g, child) < HeightAt(g, n)
  }

  /** The value of a key of a mapping. */
  function Field(g: Graph, content: seq<Id>, key: string): Option<Id> {
    if |content| < 2 then None
    else if KeyText(g, content[|content| - 2]) == key then Some(content[|content| - 1])
    else Field(g, content[..|content| - 2], key)
  }

  /** The node an alias chain ends at. */
  function Unaliased(g: Graph, n: Id, steps: nat): Id
    decreases steps
  {
    if steps > 0 && NodeAt(g, n).AliasNode? then Unaliased(g, NodeAt(g, n).target, steps - 1) else n
  }

  function End(g: Graph, n: Id): Id {
    Unaliased(g, n, HeightAt(g, n))
  }

  predicate StringKeys(g: Graph, content: seq<Id>) {
    && |content| % 2 == 0
    && forall i :: 0 <= i < |content| && i % 2 == 0 ==> NodeAt(g, content[i]).ScalarNode? && NodeAt(g, content[i]).scalar.tag == Str
  }

  /** The texts of a mapping's keys. */
  function Texts(g: Graph, content: seq<Id>): seq<string> {
    if |content| < 2 then [] else Texts(g, content[..|content| - 2]) + [KeyText(g, content[|content| - 2])]
  }

  /** What scan demands of a mapping. */
  predicate ScannedMapping(g: Graph, content: seq<Id>) {
    && StringKeys(g, content) && NoDuplicates(Texts(g, content))
    && var ref, override := Field(g, content, REF), Field(g, content, OVERRIDE);
       && (override.Some? ==> ref.Some? && NodeAt(g, End(g, override.value)).MappingNode?)
       && (ref.Some? ==> NodeAt(g, End(g, ref.value)).ScalarNode?)
  }

  predicate ScannedNode(g: Graph, n: Id) {
    match NodeAt(g, n)
    case ScalarNode(_) => true
    case AliasNode(target) => Below(g, n, target)
    case SequenceNode(content) => forall i :: 0 <= i < |content| ==> Below(g, n, content[i])
    case MappingNode(content) => ScannedMapping(g, content) && forall i :: 0 <= i < |content| ==> Below(g, n, content[i])
  }

  /** A graph that passed scan and the alias check. */
  ghost predicate Scanned(g: Graph) {
    && (forall n :: n in g.nodes ==> ScannedNode(g, n))
    && (forall d :: d in g.roots ==> g.roots[d] in g.nodes && DocOf(g, g.roots[d]) == d)
    && (forall d, uri :: g.reference(d, uri).Some? ==> g.reference(d, uri).value.0 in g.roots)
  }

  // ----------------------------------------------------------------- targets

  function Index(token: string): Option<nat> {
    if CanonicalUnsigned(token) then Some(NatOf(token)) else None
  }

  /** Digits without a superfluous zero. */
  predicate CanonicalUnsigned(token: string) {
    token != "" && (|token| > 1 ==> token[0] != '0') && AllDigits(token)
  }

  /** One pointer token, applied to a node that is no alias. */
  function Child(g: Graph, n: Id, token: string): Option<Id> {
    match NodeAt(g, n)
    case MappingNode(content) => Field(g, content, token)
    case SequenceNode(content) =>
      if Index(token).Some? && Index(token).value < |content| then Some(content[Index(token).value]) else None
    case _ => None
  }

  /** The node a pointer names, following aliases before each token. */
  function Target(g: Graph, n: Id, tokens: seq<string>): Option<Id>
    decreases |tokens|
  {
    if tokens == [] then Some(n)
    else
      var child := Child(g, End(g, n), tokens[0]);
      if child == None then None else Target(g, child.value, tokens[1..])
  }

  /** Where the `$ref` of mapping n leads. */
  function RefTarget(g: Graph, n: Id, ref: Id): Option<Id> {
    var place := g.reference(DocOf(g, n), KeyText(g, End(g, ref)));
    if place == None || place.value.0 !in g.roots then None
    else Target(g, g.roots[place.value.0], place.value.1)
  }

  function ValueKey(v: Value): string {
    if v.Atom? then v.scalar.value else ""
  }

  // ----------------------------------------------------------------- meaning

  /**
   The tree a node stands for, when it is found within the fuel: one unit for every step towards a
   child or a target, and another one for the mapping that an override builds over its pairs.
   */
  function Meaning(g: Graph, n: Id, fuel: nat): Option<Value>
    decreases fuel, 0
  {
    if fuel == 0 || n !in g.nodes then None
    else
      match g.nodes[n].node
      case AliasNode(target) => Meaning(g, target, fuel - 1)
      case ScalarNode(scalar) => if HasText(scalar) then Some(Atom(scalar)) else None
      case SequenceNode(content) =>
        var items := MeaningAll(g, content, fuel - 1);
        if items == None then None else Some(Container(false, items.value))
      case MappingNode(content) =>
        var ref := Field(g, content, REF);
        if ref == None then
          var items := MeaningAll(g, content, fuel - 1);
          if items == None then None else Some(Container(true, items.value))
        else MeaningOfReference(g, n, content, ref.value, fuel - 1)
  }

  function MeaningOfReference(g: Graph, n: Id, content: seq<Id>, ref: Id, fuel: nat): Option<Value>
    decreases fuel, 1
  {
    var target := RefTarget(g, n, ref);
    if target == None then None
    else
      var base := Meaning(g, target.value, fuel);
      var override := Field(g, content, OVERRIDE);
      if base == None || override == None then base
      else
        var overrides := NodeAt(g, End(g, override.value));
        if !overrides.MappingNode? || base.value.Atom? || !base.value.mapping || fuel == 0 then None
        else
          var over := MeaningAll(g, overrides.content, fuel - 1);
          if over == None then None
          else Some(Container(true, Overridden(base.value.content, over.value, ValueKey)))
  }

  function MeaningAll(g: Graph, content: seq<Id>, fuel: nat): Option<seq<Value>>
    decreases fuel, 1, |content|
  {
    if content == [] then Some([])
    else
      var init := MeaningAll(g, content[..|content| - 1], fuel);
      var last := Meaning(g, content[|content| - 1], fuel);
      if init == None || last == None then None else Some(init.value + [last.value])
  }

  ghost predicate Means(g: Graph, n: Id, v: Value) {
    exists fuel: nat :: Meaning(g, n, fuel) == Some(v)
  }

  ghost predicate Meaningless(g: Graph, n: Id) {
    forall fuel: nat :: Meaning(g, n, fuel) == None
  }

  /** More fuel finds the same tree. */
  lemma {:induction false} MeaningGrows(g: Graph, n: Id, fuel: nat, more: nat)
    requires fuel <= more && Meaning(g, n, fuel).Some?
    ensures Meaning(g, n, more) == Meaning(g, n, fuel)
    decreases fuel, 0
  {
    hide Field, Overridden, NodeAt;
    match g.nodes[n].node {
      case AliasNode(target) => MeaningGrows(g, target, fuel - 1, more - 1);
      case ScalarNode(_) =>
      case SequenceNode(content) => MeaningAllGrows(g, content, fuel - 1, more - 1);
      case MappingNode(content) =>
        var ref := Field(g, content, REF);
        if ref == None {
          MeaningAllGrows(g, content, fuel - 1, more - 1);
        } else {
          ReferenceGrows(g, n, content, ref.value, fuel - 1, more - 1);
        }
    }
  }

  lemma {:induction false} ReferenceGrows(g: Graph, n: Id, content: seq<Id>, ref: Id, fuel: nat, more: nat)
    requires fuel <= more && MeaningOfReference(g, n, content, ref, fuel).Some?
    ensures MeaningOfReference(g, n, content, ref, more) == MeaningOfReference(g, n, content, ref, fuel)
    decreases fuel, 1
  {
    hide Meaning, MeaningAll, Field, Overridden, RefTarget, End;
    MeaningGrows(g, RefTarget(g, n, ref).value, fuel, more);
    var override := Field(g, content, OVERRIDE);
    if override.Some? {
      MeaningAllGrows(g, NodeAt(g, End(g, override.value)).content, fuel - 1, more - 1);
    }
  }

  lemma {:induction false} MeaningAllGrows(g: Graph, content: seq<Id>, fuel: nat, more: nat)
    requires fuel <= more && MeaningAll(g, content, fuel).Some?
    ensures MeaningAll(g, content, more) == MeaningAll(g, content, fuel)
    decreases fuel, 1, |content|
  {
    hide Meaning;
    if content != [] {
      MeaningAllGrows(g, content[..|content| - 1], fuel, more);
      MeaningGrows(g, content[|content| - 1], fuel, more);
    }
  }

  /** A node has at most one meaning. */
  lemma MeaningUnique(g: Graph, n: Id, a: Value, b: Value)
    requires Means(g, n, a) && Means(g, n, b)
    ensures a == b
  {
    hide Meaning;
    var i: nat :| Meaning(g, n, i) == Some(a);
    var j: nat :| Meaning(g, n, j) == Some(b);
    MeaningGrows(g, n, i, if i <= j then j else i);
    MeaningGrows(g, n, j, if i <= j then j else i);
  }

  // ------------------------------------------------------------- composition

  lemma {:induction false} EachMeans(g: Graph, content: seq<Id>, fuel: nat, i: nat)
    requires MeaningAll(g, content, fuel).Some? && i < |content|
    ensures |MeaningAll(g, content, fuel).value| == |content|
    ensures Meaning(g, content[i], fuel) == Some(MeaningAll(g, content, fuel).value[i])
    decreases |content|
  {
    hide Meaning;
    AllLength(g, content, fuel);
    AllLength(g, content[..|content| - 1], fuel);
    if i < |content| - 1 {
      EachMeans(g, content[..|content| - 1], fuel, i);
    }
  }

  lemma {:induction false} AllLength(g: Graph, content: seq<Id>, fuel: nat)
    ensures MeaningAll(g, content, fuel).Some? ==> |MeaningAll(g, content, fuel).value| == |content|
    decreases |content|
  {
    hide Meaning;
    if content != [] {
      AllLength(g, content[..|content| - 1], fuel);
    }
  }

  ghost predicate MeansAll(g: Graph, content: seq<Id>, values: seq<Value>) {
    exists fuel: nat :: MeaningAll(g, content, fuel) == Some(values)
  }

  lemma MeansNothing(g: Graph)
    ensures MeansAll(g, [], [])
  {
    assert MeaningAll(g, [], 0) == Some([]);
  }

  lemma MeansOneMore(g: Graph, content: seq<Id>, values: seq<Value>, n: Id, v: Value)
    requires MeansAll(g, content, values) && Means(g, n, v)
    ensures MeansAll(g, content + [n], values + [v])
  {
    hide Meaning;
    var i: nat :| MeaningAll(g, content, i) == Some(values);
    var j: nat :| Meaning(g, n, j) == Some(v);
    var most := if i <= j then j else i;
    MeaningAllGrows(g, content, i, most);
    MeaningGrows(g, n, j, most);
    assert (content + [n])[..|content + [n]| - 1] == content;
    assert MeaningAll(g, content + [n], most) == Some(values + [v]);
  }

  lemma AliasMeans(g: Graph, n: Id, v: Value)
    requires n in g.nodes && g.nodes[n].node.AliasNode? && Means(g, g.nodes[n].node.target, v)
    ensures Means(g, n, v)
  {
    var fuel: nat :| Meaning(g, g.nodes[n].node.target, fuel) == Some(v);
    assert Meaning(g, n, fuel + 1) == Some(v);
  }

  lemma ScalarMeans(g: Graph, n: Id)
    requires n in g.nodes && g.nodes[n].node.ScalarNode?
    ensures HasText(g.nodes[n].node.scalar) ==> Means(g, n, Atom(g.nodes[n].node.scalar))
    ensures !HasText(g.nodes[n].node.scalar) ==> Meaningless(g, n)
  {
    hide HasText;
    if HasText(g.nodes[n].node.scalar) {
      assert Meaning(g, n, 1) == Some(Atom(g.nodes[n].node.scalar));
    }
  }

  /** A sequence, or a mapping without a reference. */
  predicate Plainly(g: Graph, n: Id, mapping: bool, content: seq<Id>) {
    n in g.nodes
    && if mapping then g.nodes[n].node == MappingNode(content) && Field(g, content, REF) == None
       else g.nodes[n].node == SequenceNode(content)
  }

  lemma ContentMeans(g: Graph, n: Id, mapping: bool, content: seq<Id>, values: seq<Value>)
    requires Plainly(g, n, mapping, content) && MeansAll(g, content, values)
    ensures Means(g, n, Container(mapping, values))
  {
    hide Field;
    var fuel: nat :| MeaningAll(g, content, fuel) == Some(values);
    hide MeaningAll;
    assert Meaning(g, n, fuel + 1) == Some(Container(mapping, values));
  }

  /** A mapping with a reference. */
  predicate Refers(g: Graph, n: Id, content: seq<Id>, ref: Id) {
    n in g.nodes && g.nodes[n].node == MappingNode(content) && Field(g, content, REF) == Some(ref)
  }

  lemma ReferenceMeans(g: Graph, n: Id, content: seq<Id>, ref: Id, v: Value)
    requires Refers(g, n, content, ref) && Field(g, content, OVERRIDE) == None
    requires RefTarget(g, n, ref).Some? && Means(g, RefTarget(g, n, ref).value, v)
    ensures Means(g, n, v)
  {
    hide Field, RefTarget;
    var fuel: nat :| Meaning(g, RefTarget(g, n, ref).value, fuel) == Some(v);
    assert Meaning(g, n, fuel + 1) == MeaningOfReference(g, n, content, ref, fuel);
    hide Meaning;
  }

  /** The mapping an `$override` stands for. */
  predicate Overrides(g: Graph, content: seq<Id>, overrides: seq<Id>) {
    var override := Field(g, content, OVERRIDE);
    override.Some? && NodeAt(g, End(g, override.value)) == MappingNode(overrides)
  }

  lemma OverrideMeans(
    g: Graph, n: Id, content: seq<Id>, ref: Id, overrides: seq<Id>, base: seq<Value>, over: seq<Value>
  )
    requires Refers(g, n, content, ref) && Overrides(g, content, overrides)
    requires RefTarget(g, n, ref).Some? && Means(g, RefTarget(g, n, ref).value, Container(true, base))
    requires MeansAll(g, overrides, over)
    ensures Means(g, n, Container(true, Overridden(base, over, ValueKey)))
  {
    hide Field, RefTarget, End, Overridden;
    var i: nat :| Meaning(g, RefTarget(g, n, ref).value, i) == Some(Container(true, base));
    var j: nat :| MeaningAll(g, overrides, j) == Some(over);
    var most := if i <= j then j else i;
    MeaningGrows(g, RefTarget(g, n, ref).value, i, most + 1);
    MeaningAllGrows(g, overrides, j, most);
    assert Meaning(g, n, most + 2) == MeaningOfReference(g, n, content, ref, most + 1);
    hide Meaning, MeaningAll;
  }

  lemma ReferenceUnfolds(g: Graph, n: Id, content: seq<Id>, ref: Id, fuel: nat)
    requires Refers(g, n, content, ref)
    ensures Meaning(g, n, fuel) == if fuel == 0 then None else MeaningOfReference(g, n, content, ref, fuel - 1)
  {
    hide Field, RefTarget, MeaningOfReference, MeaningAll, End;
  }

  /** What a reference with a meaning is made of. */
  lemma ReferenceParts(g: Graph, n: Id, content: seq<Id>, ref: Id, fuel: nat)
    requires Refers(g, n, content, ref) && Meaning(g, n, fuel).Some?
    ensures fuel > 0 && RefTarget(g, n, ref).Some? && Meaning(g, RefTarget(g, n, ref).value, fuel - 1).Some?
    ensures forall overrides :: Overrides(g, content, overrides) ==>
              && fuel > 1 && MeaningAll(g, overrides, fuel - 2).Some?
              && var base := Meaning(g, RefTarget(g, n, ref).value, fuel - 1).value;
                 base.Container? && base.mapping
  {
    hide Field, RefTarget, End, Overridden, Meaning, MeaningAll;
    ReferenceUnfolds(g, n, content, ref, fuel);
  }

  lemma AtomicBase(g: Graph, n: Id, content: seq<Id>, ref: Id, overrides: seq<Id>, base: Value)
    requires Refers(g, n, content, ref) && Overrides(g, content, overrides)
    requires RefTarget(g, n, ref).Some? && Means(g, RefTarget(g, n, ref).value, base) && (base.Atom? || !base.mapping)
    ensures Meaningless(g, n)
  {
    hide Field, RefTarget, End, Overridden, Meaning, MeaningAll, MeaningOfReference, Refers, Overrides;
    forall fuel: nat ensures Meaning(g, n, fuel) == None {
      if Meaning(g, n, fuel).Some? {
        ReferenceParts(g, n, content, ref, fuel);
        var found := Meaning(g, RefTarget(g, n, ref).value, fuel - 1).value;
        MeaningUnique(g, RefTarget(g, n, ref).value, base, found);
      }
    }
  }

  lemma LostReference(g: Graph, n: Id, content: seq<Id>, ref: Id)
    requires Refers(g, n, content, ref) && RefTarget(g, n, ref) == None
    ensures Meaningless(g, n)
  {
    hide Field, RefTarget, MeaningAll, Meaning, Refers;
    forall fuel: nat ensures Meaning(g, n, fuel) == None {
      if Meaning(g, n, fuel).Some? {
        ReferenceParts(g, n, content, ref, fuel);
      }
    }
  }

  // ------------------------------------------------------------------ cycles

  /** The meaning of m contains the meaning of c, k levels of fuel further down. */
  ghost predicate Needs(g: Graph, m: Id, c: Id, k: nat) {
    forall fuel: nat :: Meaning(g, m, fuel).Some? ==> fuel >= k && Meaning(g, c, fuel - k).Some?
  }

  lemma NeedsMore(g: Graph, m: Id, n: Id, c: Id, k: nat)
    requires Needs(g, m, n, k) && Needs(g, n, c, 1)
    ensures Needs(g, m, c, k + 1)
  {
    hide Meaning;
  }

  lemma NeededMeaning(g: Graph, n: Id, c: Id)
    requires Needs(g, n, c, 1) && Meaningless(g, c)
    ensures Meaningless(g, n)
  {
    hide Meaning;
    forall fuel: nat ensures Meaning(g, n, fuel) == None {
      if fuel >= 1 {
        assert Meaning(g, c, fuel - 1) == None;
      }
    }
  }

  lemma {:induction false} NeedsItself(g: Graph, n: Id, k: nat, fuel: nat)
    requires Needs(g, n, n, k) && k >= 1
    ensures Meaning(g, n, fuel) == None
  {
    hide Meaning;
    if Meaning(g, n, fuel).Some? {
      NeedsItself(g, n, k, fuel - k);
    }
  }

  /** A node that needs itself has no meaning. */
  lemma CyclesAreMeaningless(g: Graph, n: Id, k: nat)
    requires Needs(g, n, n, k) && k >= 1
    ensures Meaningless(g, n)
  {
    hide *;
    forall fuel: nat ensures Meaning(g, n, fuel) == None {
      NeedsItself(g, n, k, fuel);
    }
    MeaninglessBy(g, n);
  }

  lemma MeaninglessBy(g: Graph, n: Id)
    requires forall fuel: nat :: Meaning(g, n, fuel) == None
    ensures Meaningless(g, n)
  {
    hide Meaning;
  }

  lemma AliasNeeds(g: Graph, n: Id)
    requires n in g.nodes && g.nodes[n].node.AliasNode?
    ensures Needs(g, n, g.nodes[n].node.target, 1)
  {
  }

  lemma ContentNeeds(g: Graph, n: Id, mapping: bool, content: seq<Id>, i: nat)
    requires Plainly(g, n, mapping, content) && i < |content|
    ensures Needs(g, n, content[i], 1)
  {
    hide Field;
    forall fuel: nat | Meaning(g, n, fuel).Some? ensures fuel >= 1 && Meaning(g, content[i], fuel - 1).Some? {
      EachMeans(g, content, fuel - 1, i);
    }
  }

  lemma ReferenceNeeds(g: Graph, n: Id, content: seq<Id>, ref: Id)
    requires Refers(g, n, content, ref) && RefTarget(g, n, ref).Some?
    ensures Needs(g, n, RefTarget(g, n, ref).value, 1)
  {
    hide Field, RefTarget, MeaningAll, Meaning, Refers;
    forall fuel: nat | Meaning(g, n, fuel).Some?
      ensures fuel >= 1 && Meaning(g, RefTarget(g, n, ref).value, fuel - 1).Some?
    {
      ReferenceParts(g, n, content, ref, fuel);
    }
  }

  lemma OverrideNeeds(g: Graph, n: Id, content: seq<Id>, ref: Id, overrides: seq<Id>, i: nat)
    requires Refers(g, n, content, ref) && Overrides(g, content, overrides) && i < |overrides|
    ensures Needs(g, n, overrides[i], 1)
  {
    hide Field, RefTarget, End, Overridden, Meaning, MeaningAll, Refers, Overrides;
    forall fuel: nat | Meaning(g, n, fuel).Some? ensures fuel >= 1 && Meaning(g, overrides[i], fuel - 1).Some? {
      ReferenceParts(g, n, content, ref, fuel);
      EachMeans(g, overrides, fuel - 2, i);
      MeaningGrows(g, overrides[i], fuel - 2, fuel - 1);
    }
  }

  // ---------------------------------------------------------------- assembly

  predicate StringAtom(v: Value) {
    v.Atom? && v.scalar.tag == Str
  }

  /** What the strict decoder can rely on: written scalars, string keys, no key twice. */
  predicate Assembled(v: Value) {
    match v
    case Atom(scalar) => HasText(scalar)
    case Container(mapping, content) =>
      && (mapping ==> MappingShape(content))
      && forall i :: 0 <= i < |content| ==> Assembled(content[i])
  }

  predicate MappingShape(content: seq<Value>) {
    |content| % 2 == 0 && AllKeys(content, StringAtom) && NoDuplicates(Keys(content, ValueKey))
  }

  predicate AllAssembled(content: seq<Value>) {
    forall i :: 0 <= i < |content| ==> Assembled(content[i])
  }

  lemma ScalarMeaning(g: Graph, n: Id, fuel: nat)
    requires NodeAt(g, n).ScalarNode?
    ensures Meaning(g, n, fuel).Some? ==> Meaning(g, n, fuel).value == Atom(NodeAt(g, n).scalar)
  {
  }

  /** The keys of a mapping's meaning are the texts of its key nodes. */
  lemma {:induction false} MeaningKeys(g: Graph, content: seq<Id>, fuel: nat)
    requires StringKeys(g, content) && MeaningAll(g, content, fuel).Some?
    ensures var values := MeaningAll(g, content, fuel).value;
            && |values| == |content| && AllKeys(values, StringAtom) && Keys(values, ValueKey) == Texts(g, content)
    decreases |content|
  {
    AllLength(g, content, fuel);
    if |content| >= 2 {
      var n := |content|;
      var init := content[..n - 2];
      assert content[..n - 1][..n - 2] == init && content[..n - 1][n - 2] == content[n - 2];
      var values := MeaningAll(g, content, fuel).value;
      assert MeaningAll(g, init, fuel).Some?;
      assert MeaningAll(g, content[..n - 1], fuel).value == MeaningAll(g, init, fuel).value + [Meaning(g, content[n - 2], fuel).value];
      hide Meaning, MeaningAll, Keys, AllKeys, Texts;
      MeaningKeys(g, init, fuel);
      ScalarMeaning(g, content[n - 2], fuel);
      KeyEnd(g, content, MeaningAll(g, init, fuel).value, values);
    }
  }

  lemma KeyEnd(g: Graph, content: seq<Id>, init: seq<Value>, values: seq<Value>)
    requires |content| >= 2 && |values| == |content| && values[..|content| - 2] == init
    requires NodeAt(g, content[|content| - 2]).ScalarNode? && NodeAt(g, content[|content| - 2]).scalar.tag == Str
    requires values[|content| - 2] == Atom(NodeAt(g, content[|content| - 2]).scalar)
    requires AllKeys(init, StringAtom) && Keys(init, ValueKey) == Texts(g, content[..|content| - 2])
    ensures AllKeys(values, StringAtom) && Keys(values, ValueKey) == Texts(g, content)
  {
  }

  /** Every meaning in a scanned graph is fit for the decoder: overrides keep keys distinct. */
  lemma {:induction false} MeaningAssembled(g: Graph, n: Id, fuel: nat)
    requires Scanned(g) && Meaning(g, n, fuel).Some?
    ensures Assembled(Meaning(g, n, fuel).value)
    decreases fuel, 0
  {
    assert ScannedNode(g, n);
    hide Scanned, Field, RefTarget, End, Below, StringKeys, MeaningOfReference, MappingShape, HasText, NoDuplicates, Texts;
    match g.nodes[n].node {
      case AliasNode(target) => MeaningAssembled(g, target, fuel - 1);
      case ScalarNode(_) =>
      case SequenceNode(content) => AllMeaningsAssembled(g, content, fuel - 1);
      case MappingNode(content) =>
        var ref := Field(g, content, REF);
        if ref == None {
          AllMeaningsAssembled(g, content, fuel - 1);
          MeaningShape(g, content, fuel - 1);
        } else {
          ReferenceAssembled(g, n, content, ref.value, fuel - 1);
        }
    }
  }

  lemma MeaningShape(g: Graph, content: seq<Id>, fuel: nat)
    requires ScannedMapping(g, content) && MeaningAll(g, content, fuel).Some?
    ensures MappingShape(MeaningAll(g, content, fuel).value)
  {
    hide Meaning, MeaningAll, Field, End, Keys, Texts, AllKeys, NoDuplicates;
    assert |content| % 2 == 0;
    hide StringKeys;
    MeaningKeys(g, content, fuel);
  }

  lemma {:induction false} AllMeaningsAssembled(g: Graph, content: seq<Id>, fuel: nat)
    requires Scanned(g) && MeaningAll(g, content, fuel).Some?
    ensures AllAssembled(MeaningAll(g, content, fuel).value)
    decreases fuel, 1, |content|
  {
    hide Scanned, Meaning, Assembled;
    if content != [] {
      AllMeaningsAssembled(g, content[..|content| - 1], fuel);
      MeaningAssembled(g, content[|content| - 1], fuel);
    }
  }

  lemma {:induction false} ReferenceAssembled(g: Graph, n: Id, content: seq<Id>, ref: Id, fuel: nat)
    requires Scanned(g) && MeaningOfReference(g, n, content, ref, fuel).Some?
    ensures Assembled(MeaningOfReference(g, n, content, ref, fuel).value)
    decreases fuel, 1
  {
    hide Scanned, Meaning, MeaningAll, Field, RefTarget, End, MappingShape, AllAssembled, Overridden;
    var target := RefTarget(g, n, ref).value;
    MeaningAssembled(g, target, fuel);
    var override := Field(g, content, OVERRIDE);
    if override.Some? {
      var overrides := NodeAt(g, End(g, override.value)).content;
      var base, over := Meaning(g, target, fuel).value.content, MeaningAll(g, overrides, fuel - 1).value;
      ScannedOverride(g, End(g, override.value), overrides);
      MeaningShape(g, overrides, fuel - 1);
      AllMeaningsAssembled(g, overrides, fuel - 1);
      OverriddenAssembled(base, over);
    }
  }

  lemma ScannedOverride(g: Graph, n: Id, content: seq<Id>)
    requires Scanned(g) && NodeAt(g, n) == MappingNode(content)
    ensures ScannedMapping(g, content)
  {
    hide ScannedMapping;
    assert n in g.nodes ==> ScannedNode(g, n);
  }

  lemma OverriddenAssembled(base: seq<Value>, over: seq<Value>)
    requires Assembled(Container(true, base)) && MappingShape(over) && AllAssembled(over)
    ensures Assembled(Container(true, Overridden(base, over, ValueKey)))
  {
    hide Overridden, Keys, AllKeys, NoDuplicates;
    var result := Overridden(base, over, ValueKey);
    OverriddenKeys(base, over, ValueKey);
    OverriddenOk(base, over, ValueKey, StringAtom);
    forall i | 0 <= i < |result| ensures Assembled(result[i]) {
      OverriddenFrom(base, over, ValueKey, result[i]);
    }
  }

  /** The assembled tree has string keys, no key twice, and a text for every scalar. */
  lemma MeansAssembled(g: Graph, n: Id, v: Value)
    requires Scanned(g) && Means(g, n, v)
    ensures Assembled(v)
  {
    var fuel: nat :| Meaning(g, n, fuel) == Some(v);
    hide *;
    MeaningAssembled(g, n, fuel);
  }

  // ----------------------------------------------------------------- walking

  lemma {:induction false} EnoughSteps(g: Graph, n: Id, steps: nat)
    requires Scanned(g) && steps >= HeightAt(g, n)
    ensures Unaliased(g, n, steps) == End(g, n) && !NodeAt(g, End(g, n)).AliasNode?
    ensures n in g.nodes ==> End(g, n) in g.nodes && DocOf(g, End(g, n)) == DocOf(g, n)
    decreases HeightAt(g, n), steps
  {
    if NodeAt(g, n).AliasNode? {
      var target := NodeAt(g, n).target;
      assert ScannedNode(g, n);
      hide Scanned;
      EnoughSteps(g, target, steps - 1);
      EnoughSteps(g, target, HeightAt(g, n) - 1);
    }
  }

  lemma EndStep(g: Graph, n: Id)
    requires Scanned(g) && n in g.nodes
    ensures if NodeAt(g, n).AliasNode? then
              && NodeAt(g, n).target in g.nodes && HeightAt(g, NodeAt(g, n).target) < HeightAt(g, n)
              && End(g, n) == End(g, NodeAt(g, n).target)
            else End(g, n) == n
  {
    if NodeAt(g, n).AliasNode? {
      assert ScannedNode(g, n);
      hide Scanned;
      EnoughSteps(g, NodeAt(g, n).target, HeightAt(g, n) - 1);
    }
  }

  /** The loop that follows an alias chain; it ends because aliases lead to lower nodes. */
  method SkipAliases(g: Graph, n: Id) returns (end: Id)
    requires Scanned(g) && n in g.nodes
    ensures end == End(g, n) && EndsAt(g, n, end)
  {
    hide *;
    EndIsEnd(g, n, End(g, n));
    end := n;
    EndStep(g, end);
    while NodeAt(g, end).AliasNode?
      invariant end in g.nodes && End(g, end) == End(g, n)
      invariant NodeAt(g, end).AliasNode? || end == End(g, end)
      decreases HeightAt(g, end)
    {
      EndStep(g, end);
      end := NodeAt(g, end).target;
      EndStep(g, end);
    }
  }

  lemma {:induction false} FieldBelow(g: Graph, content: seq<Id>, key: string)
    ensures Field(g, content, key).Some? ==> Field(g, content, key).value in content
  {
    hide KeyText;
    if |content| >= 2 && KeyText(g, content[|content| - 2]) != key {
      FieldBelow(g, content[..|content| - 2], key);
    }
  }

  // ------------------------------------------------------- paths by position

  /** At an even position stands a key with this text, and the value follows it. */
  predicate PairStands(g: Graph, content: seq<Id>, key: string, v: Id, i: nat) {
    i + 1 < |content| && i % 2 == 0 && KeyText(g, content[i]) == key && content[i + 1] == v
  }

  predicate HasPair(g: Graph, content: seq<Id>, key: string, v: Id) {
    exists i: nat :: i < |content| && PairStands(g, content, key, v, i)
  }

  predicate DistinctKeys(g: Graph, content: seq<Id>) {
    forall i, j :: 0 <= i < j < |content| && i % 2 == 0 && j % 2 == 0 ==> KeyText(g, content[i]) != KeyText(g, content[j])
  }

  /** A mapping's lookup finds the value of a key wherever its pair stands, and nothing when there is no such key. */
  lemma {:induction false} FieldIsPair(g: Graph, content: seq<Id>, key: string, v: Id)
    requires |content| % 2 == 0 && DistinctKeys(g, content)
    ensures Field(g, content, key) == Some(v) <==> HasPair(g, content, key, v)
    ensures Field(g, content, key) == None <==>
              forall i :: 0 <= i < |content| && i % 2 == 0 ==> KeyText(g, content[i]) != key
  {
    hide KeyText;
    if content != [] {
      var n := |content| - 2;
      var init := content[..n];
      assert forall i :: 0 <= i < n ==> init[i] == content[i];
      FieldIsPair(g, init, key, v);
      if KeyText(g, content[n]) == key {
        PairIsLast(g, content, key, v);
      } else {
        assert forall i: nat :: i < n ==> PairStands(g, init, key, v, i) == PairStands(g, content, key, v, i);
        assert HasPair(g, content, key, v) ==> HasPair(g, init, key, v);
      }
    }
  }

  lemma PairIsLast(g: Graph, content: seq<Id>, key: string, v: Id)
    requires |content| % 2 == 0 && DistinctKeys(g, content) && content != [] && KeyText(g, content[|content| - 2]) == key
    ensures HasPair(g, content, key, v) <==> v == content[|content| - 1]
  {
    hide KeyText;
    var n := |content| - 2;
    assert v == content[n + 1] ==> PairStands(g, content, key, v, n);
  }

  lemma TextsEnd(g: Graph, content: seq<Id>)
    requires |content| >= 2
    ensures Texts(g, content) == Texts(g, content[..|content| - 2]) + [KeyText(g, content[|content| - 2])]
  {
    hide KeyText;
  }

  lemma LastIsNew(texts: seq<string>, last: string)
    requires NoDuplicates(texts + [last])
    ensures NoDuplicates(texts) && last !in texts
  {
    assert (texts + [last])[..|texts + [last]| - 1] == texts;
  }

  lemma {:induction false} TextsAreDistinct(g: Graph, content: seq<Id>)
    requires |content| % 2 == 0 && NoDuplicates(Texts(g, content))
    ensures DistinctKeys(g, content)
    ensures forall i :: 0 <= i < |content| && i % 2 == 0 ==> KeyText(g, content[i]) in Texts(g, content)
  {
    hide KeyText, Texts, NoDuplicates;
    if content != [] {
      var n := |content| - 2;
      var init := content[..n];
      TextsEnd(g, content);
      LastIsNew(Texts(g, init), KeyText(g, content[n]));
      TextsAreDistinct(g, init);
      forall i | 0 <= i < n && i % 2 == 0
        ensures KeyText(g, content[i]) in Texts(g, init) && KeyText(g, content[i]) != KeyText(g, content[n])
      {
        assert init[i] == content[i];
      }
      forall i, j | 0 <= i < j < n && i % 2 == 0 && j % 2 == 0 ensures KeyText(g, content[i]) != KeyText(g, content[j]) {
        assert init[i] == content[i] && init[j] == content[j];
      }
    }
  }

  /** So many aliases lead from n to m, which is none. */
  predicate AliasesLead(g: Graph, n: Id, m: Id, steps: nat)
    decreases steps
  {
    if steps == 0 then n == m && !NodeAt(g, m).AliasNode?
    else NodeAt(g, n).AliasNode? && AliasesLead(g, NodeAt(g, n).target, m, steps - 1)
  }

  ghost predicate EndsAt(g: Graph, n: Id, m: Id) {
    exists steps: nat :: AliasesLead(g, n, m, steps)
  }

  lemma {:induction false} AliasesLeadOnce(g: Graph, n: Id, a: Id, b: Id, i: nat, j: nat)
    requires AliasesLead(g, n, a, i) && AliasesLead(g, n, b, j)
    ensures a == b
    decreases i
  {
    if i > 0 && j > 0 {
      AliasesLeadOnce(g, NodeAt(g, n).target, a, b, i - 1, j - 1);
    }
  }

  lemma {:induction false} UnaliasedLeads(g: Graph, n: Id, steps: nat)
    requires !NodeAt(g, Unaliased(g, n, steps)).AliasNode?
    ensures EndsAt(g, n, Unaliased(g, n, steps))
    decreases steps
  {
    if NodeAt(g, n).AliasNode? {
      var next, m := NodeAt(g, n).target, Unaliased(g, n, steps);
      UnaliasedLeads(g, next, steps - 1);
      var more: nat :| AliasesLead(g, next, m, more);
      assert AliasesLead(g, n, m, more + 1);
    } else {
      assert AliasesLead(g, n, n, 0);
    }
  }

  lemma EndIsEnd(g: Graph, n: Id, m: Id)
    requires Scanned(g)
    ensures EndsAt(g, n, m) <==> m == End(g, n)
  {
    hide Scanned, AliasesLead;
    EnoughSteps(g, n, HeightAt(g, n));
    UnaliasedLeads(g, n, HeightAt(g, n));
    if EndsAt(g, n, m) {
      var i: nat :| AliasesLead(g, n, m, i);
      var j: nat :| AliasesLead(g, n, End(g, n), j);
      AliasesLeadOnce(g, n, m, End(g, n), i, j);
    }
  }

  /** A token selects the value of that key, or the element whose index it spells in decimal. */
  ghost predicate Selects(g: Graph, n: Id, token: string, child: Id) {
    match NodeAt(g, n)
    case MappingNode(content) => HasPair(g, content, token, child)
    case SequenceNode(content) => exists i: nat :: i < |content| && token == Decimal(i) && content[i] == child
    case _ => false
  }

  /** A pointer's path: before each token, aliases are followed to their end. */
  ghost predicate PathTo(g: Graph, n: Id, tokens: seq<string>, m: Id)
    decreases |tokens|
  {
    if tokens == [] then n == m
    else exists end, child :: EndsAt(g, n, end) && Selects(g, end, tokens[0], child) && PathTo(g, child, tokens[1..], m)
  }

  lemma IndexIsDecimal(token: string, i: nat)
    ensures Index(token) == Some(i) <==> token == Decimal(i)
  {
    DecimalDenotes(i);
    if CanonicalUnsigned(token) {
      CanonicalIsDecimal(token);
    }
  }

  lemma ChildIsSelected(g: Graph, n: Id, token: string, child: Id)
    requires Scanned(g)
    ensures Child(g, n, token) == Some(child) <==> Selects(g, n, token, child)
  {
    hide Field, Index, HasPair, Below, HeightAt, Texts, DistinctKeys;
    match NodeAt(g, n) {
      case MappingNode(content) =>
        assert ScannedNode(g, n);
        TextsAreDistinct(g, content);
        FieldIsPair(g, content, token, child);
      case SequenceNode(content) =>
        forall i: nat ensures Index(token) == Some(i) <==> token == Decimal(i) {
          IndexIsDecimal(token, i);
        }
      case _ =>
    }
  }

  /** The node that a walk finds is the one that the pointer's path leads to. */
  lemma {:induction false} TargetIsPath(g: Graph, n: Id, tokens: seq<string>, m: Id)
    requires Scanned(g)
    ensures Target(g, n, tokens) == Some(m) <==> PathTo(g, n, tokens, m)
    decreases |tokens|
  {
    hide Scanned, End, Child, EndsAt, Selects;
    if tokens != [] {
      var end := End(g, n);
      EndIsEnd(g, n, end);
      var child := Child(g, end, tokens[0]);
      if child.Some? {
        ChildIsSelected(g, end, tokens[0], child.value);
        TargetIsPath(g, child.value, tokens[1..], m);
      }
      if PathTo(g, n, tokens, m) {
        var e, c :| EndsAt(g, n, e) && Selects(g, e, tokens[0], c) && PathTo(g, c, tokens[1..], m);
        EndIsEnd(g, n, e);
        ChildIsSelected(g, e, tokens[0], c);
      }
    }
  }

  lemma ChildInGraph(g: Graph, n: Id, token: string)
    requires Scanned(g) && n in g.nodes && Child(g, n, token).Some?
    ensures Child(g, n, token).value in g.nodes && DocOf(g, Child(g, n, token).value) == DocOf(g, n)
  {
    assert ScannedNode(g, n);
    hide Scanned, Field, ScannedMapping, Index, HeightAt;
    if NodeAt(g, n).MappingNode? {
      FieldBelow(g, NodeAt(g, n).content, token);
    }
  }

  lemma TargetStep(g: Graph, n: Id, tokens: seq<string>)
    ensures Target(g, n, tokens) ==
              if tokens == [] then Some(n)
              else if Child(g, End(g, n), tokens[0]) == None then None
              else Target(g, Child(g, End(g, n), tokens[0]).value, tokens[1..])
  {
    hide Child, End;
  }

  lemma DropFirst(tokens: seq<string>, i: nat)
    requires i < |tokens|
    ensures tokens[i..] != [] && tokens[i..][0] == tokens[i] && tokens[i..][1..] == tokens[i + 1..]
  {
  }

  lemma WholeList(tokens: seq<string>)
    ensures tokens[0..] == tokens && tokens[|tokens|..] == []
  {
  }

  /** target: walking a JSON pointer through mappings, sequences and aliases. */
  method FindTarget(g: Graph, root: Id, tokens: seq<string>) returns (r: Option<Id>)
    requires Scanned(g) && root in g.nodes
    ensures r == Target(g, root, tokens)
    ensures forall m: Id :: r == Some(m) <==> PathTo(g, root, tokens, m)
    ensures r.Some? ==> r.value in g.nodes && DocOf(g, r.value) == DocOf(g, root)
  {
    hide *;
    forall m: Id ensures Target(g, root, tokens) == Some(m) <==> PathTo(g, root, tokens, m) {
      TargetIsPath(g, root, tokens, m);
    }
    var n := root;
    WholeList(tokens);
    for i := 0 to |tokens|
      invariant n in g.nodes && DocOf(g, n) == DocOf(g, root)
      invariant Target(g, n, tokens[i..]) == Target(g, root, tokens)
    {
      TargetStep(g, n, tokens[i..]);
      DropFirst(tokens, i);
      EnoughSteps(g, n, HeightAt(g, n));
      n := SkipAliases(g, n);
      var child := Child(g, n, tokens[i]);
      if child == None {
        return None;
      }
      ChildInGraph(g, n, tokens[i]);
      n := child.value;
    }
    TargetStep(g, n, tokens[|tokens|..]);
    r := Some(n);
  }
}
