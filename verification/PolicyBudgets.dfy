/**
 What assembling a node demands of the budgets (internal/config/load.go), and why a budget error is then
 justified: the levels a node needs, what it charges when nothing has been assembled before, and the largest
 text assembled on the way. The cache never makes any of these larger.
 */
module PolicyBudgets {
  import opened Wrappers
  import opened Sequences
  import opened PolicyJson
  import opened PolicyOverride
  import opened PolicyGraph
  import opened PolicyAccounting

  // ----------------------------------------------------------------- demands

  /** What assembling a node charges when nothing has been assembled before. */
  function Cost(g: Graph, n: Id, fuel: nat): nat
    decreases fuel, 0
  {
    if fuel == 0 || n !in g.nodes then 0
    else
      match g.nodes[n].node
      case AliasNode(target) => Cost(g, target, fuel - 1)
      case ScalarNode(_) => 1
      case SequenceNode(content) => 1 + CostAll(g, content, fuel - 1)
      case MappingNode(content) =>
        var ref := Field(g, content, REF);
        if ref == None then 1 + CostAll(g, content, fuel - 1) else CostOfReference(g, n, content, ref.value, fuel - 1)
  }

  function CostOfReference(g: Graph, n: Id, content: seq<Id>, ref: Id, fuel: nat): nat
    decreases fuel, 1
  {
    var target, override := RefTarget(g, n, ref), Field(g, content, OVERRIDE);
    if target == None then 0
    else if override == None then Cost(g, target.value, fuel)
    else
      var overrides := NodeAt(g, End(g, override.value));
      if fuel == 0 || !overrides.MappingNode? then 0
      else Cost(g, target.value, fuel) + CostAll(g, overrides.content, fuel - 1) + 1
  }

  function CostAll(g: Graph, content: seq<Id>, fuel: nat): nat
    decreases fuel, 1, |content|
  {
    if content == [] then 0
    else CostAll(g, content[..|content| - 1], fuel) + Cost(g, content[|content| - 1], fuel)
  }

  function Most(a: nat, b: nat): nat {
    if a >= b then a else b
  }

  function TextSize(v: Option<Value>): nat {
    if v == None then 0 else |Json(v.value)|
  }

  /** The size of the largest tree assembled on the way to a node's tree. */
  function Peak(g: Graph, n: Id, fuel: nat): nat
    decreases fuel, 0
  {
    if fuel == 0 || n !in g.nodes then 0
    else
      var below :=
        match g.nodes[n].node
        case AliasNode(target) => Peak(g, target, fuel - 1)
        case ScalarNode(_) => 0
        case SequenceNode(content) => PeakAll(g, content, fuel - 1)
        case MappingNode(content) =>
          var ref := Field(g, content, REF);
          if ref == None then PeakAll(g, content, fuel - 1) else PeakOfReference(g, n, content, ref.value, fuel - 1);
      Most(TextSize(Meaning(g, n, fuel)), below)
  }

  function PeakOfReference(g: Graph, n: Id, content: seq<Id>, ref: Id, fuel: nat): nat
    decreases fuel, 1
  {
    var target, override := RefTarget(g, n, ref), Field(g, content, OVERRIDE);
    if target == None then 0
    else if override == None then Peak(g, target.value, fuel)
    else
      var overrides := NodeAt(g, End(g, override.value));
      if fuel == 0 || !overrides.MappingNode? then 0
      else Most(Peak(g, target.value, fuel), PeakAll(g, overrides.content, fuel - 1))
  }

  function PeakAll(g: Graph, content: seq<Id>, fuel: nat): nat
    decreases fuel, 1, |content|
  {
    if content == [] then 0
    else Most(PeakAll(g, content[..|content| - 1], fuel), Peak(g, content[|content| - 1], fuel))
  }

  // ---------------------------------------------------- what demands consist of

  lemma ContentDemands(g: Graph, n: Id, mapping: bool, content: seq<Id>, fuel: nat)
    requires Plainly(g, n, mapping, content) && Meaning(g, n, fuel).Some?
    ensures fuel >= 1 && MeaningAll(g, content, fuel - 1).Some?
    ensures Cost(g, n, fuel) == 1 + CostAll(g, content, fuel - 1) && PeakAll(g, content, fuel - 1) <= Peak(g, n, fuel)
  {
    hide Field, MeaningAll, CostAll, PeakAll, TextSize;
  }

  lemma OwnPeak(g: Graph, n: Id, fuel: nat)
    requires Meaning(g, n, fuel).Some?
    ensures |Json(Meaning(g, n, fuel).value)| <= Peak(g, n, fuel)
  {
    hide Field, MeaningAll, MeaningOfReference, PeakAll, PeakOfReference, Json;
  }

  lemma ScalarDemands(g: Graph, n: Id, fuel: nat)
    requires n in g.nodes && g.nodes[n].node.ScalarNode? && Meaning(g, n, fuel).Some?
    ensures fuel >= 1 && Cost(g, n, fuel) == 1 && |ScalarText(g.nodes[n].node.scalar)| <= Peak(g, n, fuel)
  {
    hide HasText, ScalarText;
  }

  /** One step down: the node's meaning contains c's, and its demands include c's. */
  ghost predicate Carries(g: Graph, n: Id, c: Id) {
    forall fuel: nat :: Meaning(g, n, fuel).Some? ==>
      && fuel >= 1 && Meaning(g, c, fuel - 1).Some?
      && Cost(g, c, fuel - 1) <= Cost(g, n, fuel) && Peak(g, c, fuel - 1) <= Peak(g, n, fuel)
  }

  lemma AliasCarries(g: Graph, n: Id)
    requires n in g.nodes && g.nodes[n].node.AliasNode?
    ensures Carries(g, n, g.nodes[n].node.target)
  {
  }

  lemma ReferenceDemands(g: Graph, n: Id, content: seq<Id>, ref: Id, fuel: nat)
    requires Refers(g, n, content, ref) && Meaning(g, n, fuel).Some?
    ensures fuel >= 1 && RefTarget(g, n, ref).Some? && Meaning(g, RefTarget(g, n, ref).value, fuel - 1).Some?
    ensures Cost(g, RefTarget(g, n, ref).value, fuel - 1) <= Cost(g, n, fuel)
    ensures Peak(g, RefTarget(g, n, ref).value, fuel - 1) <= Peak(g, n, fuel)
    ensures forall overrides :: Overrides(g, content, overrides) ==>
              && fuel >= 2 && MeaningAll(g, overrides, fuel - 2).Some?
              && Cost(g, n, fuel) == Cost(g, RefTarget(g, n, ref).value, fuel - 1) + CostAll(g, overrides, fuel - 2) + 1
              && PeakAll(g, overrides, fuel - 2) <= Peak(g, n, fuel)
  {
    ReferenceParts(g, n, content, ref, fuel);
    ReferenceUnfoldsDemands(g, n, content, ref, fuel);
    hide Refers, Meaning, MeaningAll, Cost, CostAll, Peak, PeakAll, RefTarget, End, Field;
  }

  lemma ReferenceUnfoldsDemands(g: Graph, n: Id, content: seq<Id>, ref: Id, fuel: nat)
    requires Refers(g, n, content, ref) && fuel >= 1
    ensures Cost(g, n, fuel) == CostOfReference(g, n, content, ref, fuel - 1)
    ensures Peak(g, n, fuel) >= PeakOfReference(g, n, content, ref, fuel - 1)
  {
    hide Field, CostOfReference, PeakOfReference, TextSize, Meaning;
  }

  lemma ReferenceCarries(g: Graph, n: Id, content: seq<Id>, ref: Id)
    requires Refers(g, n, content, ref) && RefTarget(g, n, ref).Some?
    ensures Carries(g, n, RefTarget(g, n, ref).value)
  {
    hide Refers, Meaning, MeaningAll, Cost, CostAll, Peak, PeakAll, RefTarget, Overrides;
    forall fuel: nat | Meaning(g, n, fuel).Some?
      ensures && fuel >= 1 && Meaning(g, RefTarget(g, n, ref).value, fuel - 1).Some?
              && Cost(g, RefTarget(g, n, ref).value, fuel - 1) <= Cost(g, n, fuel)
              && Peak(g, RefTarget(g, n, ref).value, fuel - 1) <= Peak(g, n, fuel)
    {
      ReferenceDemands(g, n, content, ref, fuel);
    }
  }

  /** A prefix of a list of nodes demands no more than the list, and leaves room for the next node. */
  lemma {:induction false} PrefixDemands(g: Graph, content: seq<Id>, fuel: nat, i: nat)
    requires MeaningAll(g, content, fuel).Some? && i <= |content|
    ensures MeaningAll(g, content[..i], fuel).Some?
    ensures CostAll(g, content[..i], fuel) <= CostAll(g, content, fuel)
    ensures PeakAll(g, content[..i], fuel) <= PeakAll(g, content, fuel)
    ensures i < |content| ==>
              && Meaning(g, content[i], fuel).Some?
              && CostAll(g, content[..i], fuel) + Cost(g, content[i], fuel) <= CostAll(g, content, fuel)
              && Peak(g, content[i], fuel) <= PeakAll(g, content, fuel)
    decreases |content|
  {
    hide Meaning, Cost, Peak;
    if i == |content| {
      assert content[..i] == content;
    } else if i < |content| - 1 {
      PrefixDemands(g, content[..|content| - 1], fuel, i);
      assert content[..|content| - 1][..i] == content[..i];
    }
  }

  lemma ListStep(g: Graph, content: seq<Id>, fuel: nat, i: nat)
    requires i < |content|
    ensures MeaningAll(g, content[..i + 1], fuel).Some? ==
              (MeaningAll(g, content[..i], fuel).Some? && Meaning(g, content[i], fuel).Some?)
    ensures CostAll(g, content[..i + 1], fuel) == CostAll(g, content[..i], fuel) + Cost(g, content[i], fuel)
  {
    hide Meaning, Cost;
    assert content[..i + 1][..i] == content[..i];
  }

  // --------------------------------------------------------- nodes are charged

  /** A tree has no more nodes than its assembly charges. */
  lemma {:induction false} NodesAreCharged(g: Graph, n: Id, fuel: nat)
    requires Scanned(g) && Meaning(g, n, fuel).Some?
    ensures NodeCount(Meaning(g, n, fuel).value) <= Cost(g, n, fuel)
    decreases fuel, 0
  {
    hide Scanned, Field, RefTarget, End, MeaningOfReference, CostOfReference, HasText;
    match g.nodes[n].node {
      case AliasNode(target) => NodesAreCharged(g, target, fuel - 1);
      case ScalarNode(_) =>
      case SequenceNode(content) => AllNodesAreCharged(g, content, fuel - 1);
      case MappingNode(content) =>
        var ref := Field(g, content, REF);
        if ref == None {
          AllNodesAreCharged(g, content, fuel - 1);
        } else {
          ReferenceIsCharged(g, n, content, ref.value, fuel - 1);
        }
    }
  }

  lemma {:induction false} ReferenceIsCharged(g: Graph, n: Id, content: seq<Id>, ref: Id, fuel: nat)
    requires Scanned(g) && MeaningOfReference(g, n, content, ref, fuel).Some?
    ensures NodeCount(MeaningOfReference(g, n, content, ref, fuel).value) <= CostOfReference(g, n, content, ref, fuel)
    decreases fuel, 1
  {
    hide Scanned, Meaning, MeaningAll, Cost, CostAll, Field, RefTarget, End, Overridden;
    var target := RefTarget(g, n, ref).value;
    NodesAreCharged(g, target, fuel);
    var override := Field(g, content, OVERRIDE);
    if override.Some? {
      var overrides := NodeAt(g, End(g, override.value)).content;
      var base, over := Meaning(g, target, fuel).value.content, MeaningAll(g, overrides, fuel - 1).value;
      AllNodesAreCharged(g, overrides, fuel - 1);
      OverrideShapes(g, target, End(g, override.value), overrides, base, fuel);
      OverriddenCount(base, over);
    }
  }

  lemma OverrideShapes(g: Graph, target: Id, end: Id, overrides: seq<Id>, base: seq<Value>, fuel: nat)
    requires Scanned(g) && Meaning(g, target, fuel) == Some(Container(true, base)) && fuel >= 1
    requires NodeAt(g, end) == MappingNode(overrides) && MeaningAll(g, overrides, fuel - 1).Some?
    ensures |base| % 2 == 0 && NoDuplicates(Keys(base, ValueKey)) && |MeaningAll(g, overrides, fuel - 1).value| % 2 == 0
  {
    hide *;
    MeaningAssembled(g, target, fuel);
    AssembledShape(base);
    ScannedOverride(g, end, overrides);
    EvenOverrides(g, overrides);
    AllLength(g, overrides, fuel - 1);
  }

  lemma EvenOverrides(g: Graph, overrides: seq<Id>)
    requires ScannedMapping(g, overrides)
    ensures |overrides| % 2 == 0
  {
    hide Field, End, NoDuplicates, Texts;
  }

  lemma {:induction false} AllNodesAreCharged(g: Graph, content: seq<Id>, fuel: nat)
    requires Scanned(g) && MeaningAll(g, content, fuel).Some?
    ensures CountAll(MeaningAll(g, content, fuel).value) <= CostAll(g, content, fuel)
    decreases fuel, 1, |content|
  {
    hide Scanned, Meaning, Cost, NodeCount;
    if content != [] {
      AllNodesAreCharged(g, content[..|content| - 1], fuel);
      NodesAreCharged(g, content[|content| - 1], fuel);
    }
  }

  // ---------------------------------------------------------------- promises

  /** The fuel that the depth limit leaves at a depth. */
  function Left(b: Budgets, depth: nat): nat {
    if depth <= b.depth then b.depth + 1 - depth else 0
  }

  /** The recorded height is no more than what the meaning needs. */
  ghost predicate Low(g: Graph, n: Id, height: nat) {
    forall fuel: nat :: Meaning(g, n, fuel).Some? ==> height <= fuel
  }

  /** No more was charged than without a cache. */
  ghost predicate Paid(g: Graph, n: Id, before: nat, after: nat) {
    forall fuel: nat :: Meaning(g, n, fuel).Some? ==> after <= before + Cost(g, n, fuel)
  }

  /** A budget error is justified: the budget at hand is really exceeded. */
  ghost predicate Excused(g: Graph, b: Budgets, n: Id, depth: nat, spent: nat, e: LoadError) {
    && (e == DepthLimit ==> Meaning(g, n, Left(b, depth)) == None)
    && (e == ExpansionLimit ==> forall fuel: nat :: Meaning(g, n, fuel).Some? ==> spent + Cost(g, n, fuel) > b.expandedNodes)
    && (e == AssembledLimit ==> forall fuel: nat :: Meaning(g, n, fuel).Some? ==> Peak(g, n, fuel) > b.assembledBytes)
  }

  /** The cache's entry for the assembled node is no higher than this result. */
  predicate AtMost(s: State, r: Resolved) {
    r.node.id in s.indexed && s.indexed[r.node.id].height <= r.height
  }

  predicate Above(s: State, t: Tree, height: nat) {
    t.Branch? ==>
      forall i :: 0 <= i < |t.content| ==> t.content[i].id in s.indexed && s.indexed[t.content[i].id].height + 1 <= height
  }

  /** Cached heights are low enough, and grow from children to their parents. */
  ghost predicate Tight(g: Graph, s: State) {
    && (forall n :: n in s.resolved ==> Low(g, n, s.resolved[n].height) && AtMost(s, s.resolved[n]))
    && (forall id :: id in s.indexed ==> Above(s, s.indexed[id].node, s.indexed[id].height))
  }

  /** What a call of `resolve` promises about the budgets. */
  ghost predicate Settled(g: Graph, b: Budgets, n: Id, depth: nat, s: State, t: State, r: Result<Resolved, LoadError>) {
    && Tight(g, t)
    && match r
       case Success(x) => Low(g, n, x.height) && AtMost(t, x) && Paid(g, n, s.expandedNodes, t.expandedNodes)
       case Failure(e) => Excused(g, b, n, depth, s.expandedNodes, e)
  }

  predicate Storable(s: State, r: Resolved) {
    if r.node.id in s.indexed then s.indexed[r.node.id].height <= r.height else Above(s, r.node, r.height)
  }

  /** The same before the result is stored, and before `raise` is added to its height. */
  ghost predicate FreshSettled(
    g: Graph, b: Budgets, n: Id, depth: nat, s: State, t: State, r: Result<Resolved, LoadError>, raise: nat
  ) {
    && Tight(g, t)
    && match r
       case Success(x) => Low(g, n, x.height + raise) && Storable(t, x) && Paid(g, n, s.expandedNodes, t.expandedNodes)
       case Failure(e) => Excused(g, b, n, depth, s.expandedNodes, e)
  }

  // ----------------------------------------------------------------- the cache

  lemma TightSame(g: Graph, s: State, t: State)
    requires Tight(g, s) && t.resolved == s.resolved && t.indexed == s.indexed
    ensures Tight(g, t)
  {
    hide Low;
    forall id | id in t.indexed ensures Above(t, t.indexed[id].node, t.indexed[id].height) {
      assert Above(s, s.indexed[id].node, s.indexed[id].height);
    }
    forall n | n in t.resolved ensures Low(g, n, t.resolved[n].height) && AtMost(t, t.resolved[n]) {
      assert AtMost(s, s.resolved[n]);
    }
  }

  lemma AboveExtends(s: State, t: State, tree: Tree, height: nat, more: nat)
    requires Above(s, tree, height) && Extends(s, t) && height <= more
    ensures Above(t, tree, more)
  {
  }

  lemma AtMostExtends(s: State, t: State, r: Resolved)
    requires AtMost(s, r) && Extends(s, t)
    ensures AtMost(t, r)
  {
  }

  lemma StoredIsTight(g: Graph, s: State, n: Id, r: Resolved)
    requires Tight(g, s) && Low(g, n, r.height) && Storable(s, r) && Extends(s, Stored(s, n, r))
    ensures Tight(g, Stored(s, n, r)) && AtMost(Stored(s, n, r), r)
  {
    hide Low;
    var t := Stored(s, n, r);
    forall id | id in t.indexed ensures Above(t, t.indexed[id].node, t.indexed[id].height) {
      if id in s.indexed {
        assert Above(s, s.indexed[id].node, s.indexed[id].height);
        AboveExtends(s, t, s.indexed[id].node, s.indexed[id].height, s.indexed[id].height);
      } else {
        AboveExtends(s, t, r.node, r.height, r.height);
      }
    }
    forall m | m in t.resolved ensures Low(g, m, t.resolved[m].height) && AtMost(t, t.resolved[m]) {
      if m != n {
        assert AtMost(s, s.resolved[m]);
        AtMostExtends(s, t, s.resolved[m]);
      }
    }
  }

  lemma StoredSettled(g: Graph, b: Budgets, n: Id, depth: nat, s: State, t: State, x: Resolved)
    requires FreshSettled(g, b, n, depth, s, t, Success(x), 0) && Extends(t, Stored(t, n, x))
    ensures Settled(g, b, n, depth, s, Stored(t, n, x), Success(x))
  {
    hide Tight, Low, Paid, Storable, AtMost;
    StoredIsTight(g, t, n, x);
  }

  lemma CachedIsLow(g: Graph, s: State, n: Id)
    requires Tight(g, s) && n in s.resolved
    ensures Low(g, n, s.resolved[n].height) && AtMost(s, s.resolved[n])
  {
    hide Low;
  }

  // ------------------------------------------------------------------- excuses

  lemma NoFuelLeft(g: Graph, b: Budgets, n: Id, depth: nat, spent: nat)
    requires depth > b.depth
    ensures Excused(g, b, n, depth, spent, DepthLimit)
  {
  }

  lemma SemanticExcuse(g: Graph, b: Budgets, n: Id, depth: nat, spent: nat, e: LoadError)
    requires Semantic(e)
    ensures Excused(g, b, n, depth, spent, e)
  {
    hide Meaning, Cost, Peak;
  }

  /** A result that is too high for the depth needs more levels than are left. */
  lemma HeightExcuse(g: Graph, b: Budgets, n: Id, depth: nat, spent: nat, height: nat)
    requires Low(g, n, height) && height + depth > b.depth + 1 && depth <= b.depth
    ensures Excused(g, b, n, depth, spent, DepthLimit)
  {
    hide Meaning, Cost, Peak;
  }

  /** Charging a cached node costs no more than assembling it. */
  lemma CachedCharge(g: Graph, b: Budgets, s: State, n: Id, depth: nat, r: Resolved)
    requires Scanned(g) && Good(g, b, s, n, r)
    ensures Paid(g, n, s.expandedNodes, s.expandedNodes + r.nodes)
    ensures s.expandedNodes + r.nodes > b.expandedNodes ==> Excused(g, b, n, depth, s.expandedNodes, ExpansionLimit)
  {
    hide Meaning, Cost, Peak, Good;
    forall fuel: nat | Meaning(g, n, fuel).Some? ensures r.nodes <= Cost(g, n, fuel) {
      hide *;
      GoodParts(g, b, s, n, r);
      GoodCount(g, b, s, n, r);
      ValueOfParts(r);
      FoundMeans(g, n, fuel);
      MeaningUnique(g, n, Plain(r.node), Meaning(g, n, fuel).value);
      NodesAreCharged(g, n, fuel);
    }
  }

  lemma FoundMeans(g: Graph, n: Id, fuel: nat)
    requires Meaning(g, n, fuel).Some?
    ensures Means(g, n, Meaning(g, n, fuel).value)
  {
    hide Meaning;
    assert Meaning(g, n, fuel) == Some(Meaning(g, n, fuel).value);
  }

  /** One step down: the child's or target's outcome settles the node's. */
  lemma StepSettled(g: Graph, b: Budgets, n: Id, c: Id, depth: nat, s: State, t: State, r: Result<Resolved, LoadError>)
    requires Carries(g, n, c) && Settled(g, b, c, depth + 1, s, t, r) && depth <= b.depth
    ensures FreshSettled(
              g, b, n, depth, s, t,
              match r case Success(x) => Success(x.(height := x.height + 1)) case Failure(e) => Failure(e), 0)
  {
    hide Meaning, Cost, Peak, Tight, Above;
    assert Left(b, depth) >= 1 && Left(b, depth + 1) == Left(b, depth) - 1;
    if r.Success? {
      StepLow(g, n, c, r.value.height);
      StepPaid(g, n, c, s.expandedNodes, t.expandedNodes);
    } else {
      StepExcused(g, b, n, c, depth, s.expandedNodes, r.error);
    }
  }

  lemma StepLow(g: Graph, n: Id, c: Id, height: nat)
    requires Carries(g, n, c) && Low(g, c, height)
    ensures Low(g, n, height + 1)
  {
    hide Meaning, Cost, Peak;
  }

  lemma StepPaid(g: Graph, n: Id, c: Id, before: nat, after: nat)
    requires Carries(g, n, c) && Paid(g, c, before, after)
    ensures Paid(g, n, before, after)
  {
    hide Meaning, Cost, Peak;
  }

  lemma StepExcused(g: Graph, b: Budgets, n: Id, c: Id, depth: nat, spent: nat, e: LoadError)
    requires Carries(g, n, c) && Excused(g, b, c, depth + 1, spent, e) && depth <= b.depth
    ensures Excused(g, b, n, depth, spent, e)
  {
    hide Meaning, Cost, Peak;
    assert Left(b, depth) >= 1 && Left(b, depth + 1) == Left(b, depth) - 1;
    if e == ExpansionLimit {
      forall fuel: nat | Meaning(g, n, fuel).Some? ensures spent + Cost(g, n, fuel) > b.expandedNodes {
        assert spent + Cost(g, c, fuel - 1) > b.expandedNodes;
      }
    }
    if e == AssembledLimit {
      forall fuel: nat | Meaning(g, n, fuel).Some? ensures Peak(g, n, fuel) > b.assembledBytes {
        assert Peak(g, c, fuel - 1) > b.assembledBytes;
      }
    }
  }

  // -------------------------------------------------------------------- lists

  predicate HeightsWithin(rs: seq<Resolved>, height: int) {
    forall i :: 0 <= i < |rs| ==> rs[i].height <= height
  }

  ghost predicate LowAll(g: Graph, content: seq<Id>, rs: seq<Resolved>) {
    forall fuel: nat :: MeaningAll(g, content, fuel).Some? ==> HeightsWithin(rs, fuel)
  }

  ghost predicate PaidAll(g: Graph, content: seq<Id>, before: nat, after: nat) {
    forall fuel: nat :: MeaningAll(g, content, fuel).Some? ==> after <= before + CostAll(g, content, fuel)
  }

  ghost predicate ExcusedAll(g: Graph, b: Budgets, content: seq<Id>, depth: nat, spent: nat, e: LoadError) {
    && (e == DepthLimit ==> MeaningAll(g, content, Left(b, depth)) == None)
    && (e == ExpansionLimit ==>
          forall fuel: nat :: MeaningAll(g, content, fuel).Some? ==> spent + CostAll(g, content, fuel) > b.expandedNodes)
    && (e == AssembledLimit ==>
          forall fuel: nat :: MeaningAll(g, content, fuel).Some? ==> PeakAll(g, content, fuel) > b.assembledBytes)
  }

  predicate AllAtMost(s: State, rs: seq<Resolved>) {
    forall i :: 0 <= i < |rs| ==> AtMost(s, rs[i])
  }

  /** The same promises about a list of nodes that are resolved one after the other. */
  ghost predicate ListSettled(
    g: Graph, b: Budgets, content: seq<Id>, depth: nat, s: State, t: State, r: Result<seq<Resolved>, LoadError>
  ) {
    && Tight(g, t)
    && match r
       case Success(rs) =>
         && |rs| == |content| && LowAll(g, content, rs) && AllAtMost(t, rs)
         && PaidAll(g, content, s.expandedNodes, t.expandedNodes)
       case Failure(e) => ExcusedAll(g, b, content, depth, s.expandedNodes, e)
  }

  lemma ListNothing(g: Graph, b: Budgets, content: seq<Id>, depth: nat, s: State)
    requires Tight(g, s)
    ensures ListSettled(g, b, content[..0], depth, s, s, Success([]))
  {
    hide Tight, MeaningAll;
  }

  lemma ListParts(
    g: Graph, b: Budgets, content: seq<Id>, depth: nat, s: State, t: State, r: Result<seq<Resolved>, LoadError>
  )
    requires ListSettled(g, b, content, depth, s, t, r)
    ensures Tight(g, t)
    ensures r.Success? ==>
              && |r.value| == |content| && LowAll(g, content, r.value) && AllAtMost(t, r.value)
              && PaidAll(g, content, s.expandedNodes, t.expandedNodes)
    ensures r.Failure? ==> ExcusedAll(g, b, content, depth, s.expandedNodes, r.error)
  {
    hide Tight, LowAll, PaidAll, AllAtMost, ExcusedAll;
  }

  lemma SettledParts(g: Graph, b: Budgets, n: Id, depth: nat, s: State, t: State, r: Result<Resolved, LoadError>)
    requires Settled(g, b, n, depth, s, t, r)
    ensures Tight(g, t)
    ensures r.Success? ==> Low(g, n, r.value.height) && AtMost(t, r.value) && Paid(g, n, s.expandedNodes, t.expandedNodes)
    ensures r.Failure? ==> Excused(g, b, n, depth, s.expandedNodes, r.error)
  {
    hide Tight, Low, Paid, AtMost, Excused;
  }

  lemma LowMore(g: Graph, content: seq<Id>, i: nat, rs: seq<Resolved>, x: Resolved)
    requires i < |content| && LowAll(g, content[..i], rs) && Low(g, content[i], x.height)
    ensures LowAll(g, content[..i + 1], rs + [x])
  {
    hide MeaningAll, Meaning;
    forall fuel: nat | MeaningAll(g, content[..i + 1], fuel).Some? ensures HeightsWithin(rs + [x], fuel) {
      ListStep(g, content, fuel, i);
    }
  }

  lemma PaidMore(g: Graph, content: seq<Id>, i: nat, before: nat, middle: nat, after: nat)
    requires i < |content| && PaidAll(g, content[..i], before, middle) && Paid(g, content[i], middle, after)
    ensures PaidAll(g, content[..i + 1], before, after)
  {
    hide MeaningAll, Meaning, Cost, CostAll;
    var more := content[..i + 1];
    forall fuel: nat | MeaningAll(g, more, fuel).Some? ensures after <= before + CostAll(g, more, fuel)
    {
      ListStep(g, content, fuel, i);
    }
  }

  lemma AllAtMostMore(s: State, t: State, rs: seq<Resolved>, x: Resolved)
    requires AllAtMost(s, rs) && Extends(s, t) && AtMost(t, x)
    ensures AllAtMost(t, rs + [x])
  {
  }

  lemma ListMore(
    g: Graph, b: Budgets, content: seq<Id>, i: nat, depth: nat, s: State, t: State, u: State, rs: seq<Resolved>, x: Resolved
  )
    requires i < |content| && ListSettled(g, b, content[..i], depth, s, t, Success(rs))
    requires Settled(g, b, content[i], depth, t, u, Success(x)) && Extends(t, u)
    ensures ListSettled(g, b, content[..i + 1], depth, s, u, Success(rs + [x]))
  {
    hide Tight, LowAll, PaidAll, AllAtMost, Low, Paid, AtMost;
    LowMore(g, content, i, rs, x);
    PaidMore(g, content, i, s.expandedNodes, t.expandedNodes, u.expandedNodes);
    AllAtMostMore(t, u, rs, x);
  }

  /** A node of the list that fails excuses the list, when what was charged before is what the list charges. */
  lemma ListFailed(
    g: Graph, b: Budgets, content: seq<Id>, i: nat, j: nat, depth: nat, s: State, t: State, u: State, rs: seq<Resolved>,
    e: LoadError
  )
    requires i <= j < |content| && ListSettled(g, b, content[..i], depth, s, t, Success(rs))
    requires Settled(g, b, content[j], depth, t, u, Failure(e))
    ensures ListSettled(g, b, content, depth, s, u, Failure(e))
  {
    hide MeaningAll, Meaning, Cost, CostAll, Peak, PeakAll, Tight, LowAll, AllAtMost;
    forall fuel: nat | MeaningAll(g, content, fuel).Some?
      ensures Meaning(g, content[j], fuel).Some? && MeaningAll(g, content[..i], fuel).Some?
      ensures CostAll(g, content[..i], fuel) + Cost(g, content[j], fuel) <= CostAll(g, content, fuel)
      ensures Peak(g, content[j], fuel) <= PeakAll(g, content, fuel)
    {
      hide *;
      PrefixDemands(g, content, fuel, i);
      PrefixDemands(g, content, fuel, j);
      PrefixOfPrefix(g, content, fuel, i, j);
    }
  }

  lemma PrefixOfPrefix(g: Graph, content: seq<Id>, fuel: nat, i: nat, j: nat)
    requires MeaningAll(g, content, fuel).Some? && i <= j <= |content|
    ensures CostAll(g, content[..i], fuel) <= CostAll(g, content[..j], fuel)
  {
    hide *;
    PrefixDemands(g, content, fuel, j);
    PrefixDemands(g, content[..j], fuel, i);
    assert content[..j][..i] == content[..i];
  }

  // ---------------------------------------------------------------- containers

  /** What `container` promises about the budgets. */
  ghost predicate Boxed(
    b: Budgets, mapping: bool, children: seq<Resolved>, depth: nat, s: State, r: Result<Resolved, LoadError>
  ) {
    match r
    case Success(x) =>
      && (forall i :: 0 <= i < |children| ==> children[i].height + 1 <= x.height)
      && (forall h: nat :: HeightsWithin(children, h) ==> x.height <= h + 1)
    case Failure(e) =>
      && (e == DepthLimit ==> forall h: nat :: HeightsWithin(children, h) ==> h + depth > b.depth)
      && (e == ExpansionLimit ==>
            s.expandedNodes + 1 > b.expandedNodes || 1 + CountAll(Map(children, ValueOf)) > b.expandedNodes)
      && (e == AssembledLimit ==> |Json(Container(mapping, Map(children, ValueOf)))| > b.assembledBytes)
  }

  /** What the container's owner knows: its meaning, what was charged for the children, and their heights. */
  ghost predicate Ownable(
    g: Graph, n: Id, mapping: bool, children: seq<Resolved>, spent: nat, charged: nat, raise: nat
  ) {
    && Means(g, n, Container(mapping, Map(children, ValueOf)))
    && forall fuel: nat :: Meaning(g, n, fuel).Some? ==>
         && fuel >= 1 + raise && HeightsWithin(children, fuel - 1 - raise) && charged + 1 <= spent + Cost(g, n, fuel)
  }

  lemma OwnedMeaning(g: Graph, n: Id, mapping: bool, children: seq<Resolved>, fuel: nat)
    requires Scanned(g) && Means(g, n, Container(mapping, Map(children, ValueOf))) && Meaning(g, n, fuel).Some?
    ensures 1 + CountAll(Map(children, ValueOf)) <= Cost(g, n, fuel)
    ensures |Json(Container(mapping, Map(children, ValueOf)))| <= Peak(g, n, fuel)
  {
    hide *;
    var v := Container(mapping, Map(children, ValueOf));
    FoundMeans(g, n, fuel);
    MeaningUnique(g, n, v, Meaning(g, n, fuel).value);
    NodesAreCharged(g, n, fuel);
    OwnPeak(g, n, fuel);
    ContainerCount(mapping, Map(children, ValueOf));
  }

  lemma ContainerCount(mapping: bool, content: seq<Value>)
    ensures NodeCount(Container(mapping, content)) == 1 + CountAll(content)
  {
    hide CountAll;
  }

  lemma BoxExcused(
    g: Graph, b: Budgets, n: Id, mapping: bool, children: seq<Resolved>, depth: nat, spent: nat, t: State, e: LoadError, raise: nat
  )
    requires Scanned(g) && depth <= b.depth && Ownable(g, n, mapping, children, spent, t.expandedNodes, raise)
    requires Boxed(b, mapping, children, depth, t, Failure(e))
    ensures Excused(g, b, n, depth, spent, e)
  {
    hide Meaning, Cost, Peak, Means, Json, CountAll, Map, HeightsWithin;
    forall fuel: nat | Meaning(g, n, fuel).Some?
      ensures 1 + CountAll(Map(children, ValueOf)) <= Cost(g, n, fuel)
      ensures |Json(Container(mapping, Map(children, ValueOf)))| <= Peak(g, n, fuel)
    {
      OwnedMeaning(g, n, mapping, children, fuel);
    }
  }

  lemma BoxLow(
    g: Graph, b: Budgets, n: Id, mapping: bool, children: seq<Resolved>, depth: nat, spent: nat, t: State, x: Resolved,
    raise: nat
  )
    requires Ownable(g, n, mapping, children, spent, t.expandedNodes, raise) && Boxed(b, mapping, children, depth, t, Success(x))
    ensures Low(g, n, x.height + raise) && Paid(g, n, spent, t.expandedNodes + 1)
  {
    hide Meaning, Cost, Means, Map, HeightsWithin;
  }

  lemma BoxStorable(children: seq<Resolved>, t: State, u: State, x: Resolved, id: nat, mapping: bool)
    requires AllAtMost(t, children) && u.indexed == t.indexed && x.node == Branch(id, mapping, Map(children, NodeOf))
    requires id !in t.indexed && forall i :: 0 <= i < |children| ==> children[i].height + 1 <= x.height
    ensures Storable(u, x)
  {
    forall i | 0 <= i < |children| ensures Map(children, NodeOf)[i] == children[i].node {
      MapAt(children, NodeOf, i);
    }
    hide Map, NodeOf;
  }

  /** A container over resolved children settles its owner. */
  lemma BoxSettled(
    g: Graph, b: Budgets, n: Id, mapping: bool, children: seq<Resolved>, depth: nat, s: State, t: State, u: State,
    r: Result<Resolved, LoadError>, raise: nat
  )
    requires Scanned(g) && Valid(g, b, t) && Tight(g, t) && AllAtMost(t, children) && depth <= b.depth
    requires Contained(b, mapping, children, depth, t, u, r) && Boxed(b, mapping, children, depth, t, r)
    requires Ownable(g, n, mapping, children, s.expandedNodes, t.expandedNodes, raise)
    ensures FreshSettled(g, b, n, depth, s, u, r, raise)
  {
    hide Scanned, Valid, Tight, Contained, Ownable, Low, Paid, Storable, Excused, AllAtMost;
    ContainedParts(b, mapping, children, depth, t, u, r);
    TightSame(g, t, u);
    if r.Success? {
      BoxLow(g, b, n, mapping, children, depth, s.expandedNodes, t, r.value, raise);
      NewId(g, b, t);
      BoxStorable(children, t, u, r.value, t.nextNode, mapping);
    } else {
      BoxExcused(g, b, n, mapping, children, depth, s.expandedNodes, t, r.error, raise);
    }
  }

  lemma ContainedParts(
    b: Budgets, mapping: bool, children: seq<Resolved>, depth: nat, t: State, u: State, r: Result<Resolved, LoadError>
  )
    requires Contained(b, mapping, children, depth, t, u, r)
    ensures u.resolved == t.resolved && u.indexed == t.indexed
    ensures r.Success? ==>
              u.expandedNodes == t.expandedNodes + 1 && r.value.node == Branch(t.nextNode, mapping, Map(children, NodeOf))
  {
    hide Map, Exact, Plain, CountAll;
  }

  lemma PlainOwnable(
    g: Graph, b: Budgets, n: Id, mapping: bool, content: seq<Id>, children: seq<Resolved>, depth: nat, s: State, t: State
  )
    requires Plainly(g, n, mapping, content) && ListSettled(g, b, content, depth, s, t, Success(children))
    requires MeansAll(g, content, Map(children, ValueOf))
    ensures Ownable(g, n, mapping, children, s.expandedNodes, t.expandedNodes, 0)
  {
    hide Plainly, Tight, Meaning, MeaningAll, Means, MeansAll, Cost, CostAll, Peak, PeakAll, Map, HeightsWithin;
    ContentMeans(g, n, mapping, content, Map(children, ValueOf));
    ListParts(g, b, content, depth, s, t, Success(children));
    forall fuel: nat | Meaning(g, n, fuel).Some?
      ensures fuel >= 1 && HeightsWithin(children, fuel - 1) && t.expandedNodes + 1 <= s.expandedNodes + Cost(g, n, fuel)
    {
      ContentDemands(g, n, mapping, content, fuel);
    }
  }

  /** A failing list of children excuses its owner. */
  lemma ContentExcused(g: Graph, b: Budgets, n: Id, mapping: bool, content: seq<Id>, depth: nat, spent: nat, e: LoadError)
    requires Plainly(g, n, mapping, content) && ExcusedAll(g, b, content, depth + 1, spent, e) && depth <= b.depth
    ensures Excused(g, b, n, depth, spent, e)
  {
    hide Plainly, Meaning, MeaningAll, Cost, CostAll, Peak, PeakAll;
    assert Left(b, depth) >= 1 && Left(b, depth + 1) == Left(b, depth) - 1;
    if Meaning(g, n, Left(b, depth)).Some? {
      ContentDemands(g, n, mapping, content, Left(b, depth));
    }
    forall fuel: nat | Meaning(g, n, fuel).Some?
      ensures e == ExpansionLimit ==> spent + Cost(g, n, fuel) > b.expandedNodes
      ensures e == AssembledLimit ==> Peak(g, n, fuel) > b.assembledBytes
    {
      ContentDemands(g, n, mapping, content, fuel);
    }
  }

  // ----------------------------------------------------------------- overrides

  /** A failing list of override pairs excuses the reference, after its base has been charged. */
  lemma OverridesExcused(
    g: Graph, b: Budgets, n: Id, content: seq<Id>, ref: Id, overrides: seq<Id>, depth: nat, spent: nat, charged: nat, e: LoadError
  )
    requires Refers(g, n, content, ref) && Overrides(g, content, overrides) && RefTarget(g, n, ref).Some?
    requires Paid(g, RefTarget(g, n, ref).value, spent, charged)
    requires ExcusedAll(g, b, overrides, depth + 1, charged, e) && depth <= b.depth
    ensures Excused(g, b, n, depth, spent, e)
  {
    hide Refers, Overrides, RefTarget, Meaning, MeaningAll, Cost, CostAll, Peak, PeakAll;
    assert Left(b, depth) >= 1 && Left(b, depth + 1) == Left(b, depth) - 1;
    if Meaning(g, n, Left(b, depth)).Some? {
      ReferenceDemands(g, n, content, ref, Left(b, depth));
      MeaningAllGrows(g, overrides, Left(b, depth) - 2, Left(b, depth) - 1);
    }
    forall fuel: nat | Meaning(g, n, fuel).Some?
      ensures e == ExpansionLimit ==> spent + Cost(g, n, fuel) > b.expandedNodes
      ensures e == AssembledLimit ==> Peak(g, n, fuel) > b.assembledBytes
    {
      ReferenceDemands(g, n, content, ref, fuel);
    }
  }

  /** The base's cached children are lower than the base. */
  lemma EntriesLow(g: Graph, b: Budgets, s: State, t: State, target: Id, base: Resolved)
    requires Good(g, b, s, target, base) && base.node.Branch? && Tight(g, s) && AtMost(s, base)
    requires Extends(s, t) && Valid(g, b, t)
    ensures HeightsWithin(Entries(t, base.node.content), base.height - 1) && AllAtMost(t, Entries(t, base.node.content))
  {
    hide Low, Exact, Means, Plain;
    var content := base.node.content;
    var rs := Entries(t, content);
    assert Above(s, s.indexed[base.node.id].node, s.indexed[base.node.id].height);
    forall i | 0 <= i < |rs| ensures rs[i].height <= base.height - 1 && AtMost(t, rs[i]) {
      EntryAt(t, content, i);
      assert content[i].id in t.indexed;
      assert IndexEntry(b, t, content[i].id);
    }
  }

  lemma OverriddenWithin(base: seq<Resolved>, over: seq<Resolved>, height: int)
    requires HeightsWithin(base, height) && HeightsWithin(over, height)
    ensures HeightsWithin(Overridden(base, over, KeyOf), height)
  {
    hide Overridden, KeyOf;
    var rs := Overridden(base, over, KeyOf);
    forall i | 0 <= i < |rs| ensures rs[i].height <= height {
      OverriddenFrom(base, over, KeyOf, rs[i]);
    }
  }

  lemma OverriddenAtMost(s: State, base: seq<Resolved>, over: seq<Resolved>)
    requires AllAtMost(s, base) && AllAtMost(s, over)
    ensures AllAtMost(s, Overridden(base, over, KeyOf))
  {
    hide Overridden, KeyOf, AtMost;
    var rs := Overridden(base, over, KeyOf);
    forall i | 0 <= i < |rs| ensures AtMost(s, rs[i]) {
      OverriddenFrom(base, over, KeyOf, rs[i]);
    }
  }

  lemma OverrideOwnable(
    g: Graph, b: Budgets, n: Id, content: seq<Id>, ref: Id, overrides: seq<Id>, target: Id, depth: nat,
    s: State, t: State, u: State, base: Resolved, rs: seq<Resolved>, over: seq<Resolved>
  )
    requires Refers(g, n, content, ref) && Overrides(g, content, overrides) && RefTarget(g, n, ref) == Some(target)
    requires Low(g, target, base.height) && Paid(g, target, s.expandedNodes, t.expandedNodes)
    requires ListSettled(g, b, overrides, depth, t, u, Success(over)) && HeightsWithin(rs, base.height - 1)
    requires Means(g, n, Container(true, Map(Overridden(rs, over, KeyOf), ValueOf)))
    ensures Ownable(g, n, true, Overridden(rs, over, KeyOf), s.expandedNodes, u.expandedNodes, 1)
  {
    hide Refers, Overrides, RefTarget, Tight, Meaning, MeaningAll, Means, Cost, CostAll, Peak, PeakAll, Map, HeightsWithin, Overridden;
    ListParts(g, b, overrides, depth, t, u, Success(over));
    forall fuel: nat | Meaning(g, n, fuel).Some?
      ensures && fuel >= 2 && HeightsWithin(Overridden(rs, over, KeyOf), fuel - 2)
              && u.expandedNodes + 1 <= s.expandedNodes + Cost(g, n, fuel)
    {
      ReferenceDemands(g, n, content, ref, fuel);
      HigherBound(rs, base.height - 1, fuel - 2);
      OverriddenWithin(rs, over, fuel - 2);
    }
  }

  lemma HigherBound(rs: seq<Resolved>, height: int, more: int)
    requires HeightsWithin(rs, height) && height <= more
    ensures HeightsWithin(rs, more)
  {
  }

  /** Too many children: the mapping alone exceeds the budget. */
  lemma ChildrenExcuse(
    g: Graph, b: Budgets, n: Id, children: seq<Resolved>, depth: nat, spent: nat
  )
    requires Scanned(g) && Means(g, n, Container(true, Map(children, ValueOf))) && |children| >= b.expandedNodes
    ensures Excused(g, b, n, depth, spent, ExpansionLimit)
  {
    hide *;
    MapLength(children);
    EachCounts(Map(children, ValueOf));
    forall fuel: nat | Meaning(g, n, fuel).Some? ensures spent + Cost(g, n, fuel) > b.expandedNodes {
      OwnedMeaning(g, n, true, children, fuel);
    }
    ExpansionExcuse(g, b, n, depth, spent);
  }

  lemma ExpansionExcuse(g: Graph, b: Budgets, n: Id, depth: nat, spent: nat)
    requires forall fuel: nat :: Meaning(g, n, fuel).Some? ==> spent + Cost(g, n, fuel) > b.expandedNodes
    ensures Excused(g, b, n, depth, spent, ExpansionLimit)
  {
    hide Meaning, Cost;
  }

  lemma {:induction false} EachCounts(content: seq<Value>)
    ensures CountAll(content) >= |content|
  {
    if content != [] {
      EachCounts(content[..|content| - 1]);
    }
  }

  lemma RaisedSettled(g: Graph, b: Budgets, n: Id, depth: nat, s: State, t: State, x: Resolved)
    requires FreshSettled(g, b, n, depth, s, t, Success(x), 1)
    ensures FreshSettled(g, b, n, depth, s, t, Success(x.(height := x.height + 1)), 0)
  {
    hide Tight, Low, Paid;
  }

  // --------------------------------------------------------------------- pairs

  /** An override's pair: the value is resolved before the key. */
  lemma PairSettled(
    g: Graph, b: Budgets, content: seq<Id>, i: nat, depth: nat, s: State, t: State, u: State, w: State, rs: seq<Resolved>,
    key: Resolved, value: Resolved
  )
    requires i + 1 < |content| && ListSettled(g, b, content[..i], depth, s, t, Success(rs))
    requires Settled(g, b, content[i + 1], depth, t, u, Success(value)) && Extends(t, u)
    requires Settled(g, b, content[i], depth, u, w, Success(key)) && Extends(u, w)
    ensures ListSettled(g, b, content[..i + 2], depth, s, w, Success(rs + [key, value]))
  {
    hide *;
    ListParts(g, b, content[..i], depth, s, t, Success(rs));
    SettledParts(g, b, content[i + 1], depth, t, u, Success(value));
    SettledParts(g, b, content[i], depth, u, w, Success(key));
    LowMore(g, content, i, rs, key);
    LowMore(g, content, i + 1, rs + [key], value);
    PairPaid(g, content, i, s.expandedNodes, t.expandedNodes, u.expandedNodes, w.expandedNodes);
    PairAtMost(t, u, w, rs, key, value);
    assert rs + [key] + [value] == rs + [key, value];
    ListBy(g, b, content[..i + 2], depth, s, w, rs + [key, value]);
  }

  lemma ListBy(g: Graph, b: Budgets, content: seq<Id>, depth: nat, s: State, t: State, rs: seq<Resolved>)
    requires Tight(g, t) && |rs| == |content| && LowAll(g, content, rs) && AllAtMost(t, rs)
    requires PaidAll(g, content, s.expandedNodes, t.expandedNodes)
    ensures ListSettled(g, b, content, depth, s, t, Success(rs))
  {
    hide Tight, LowAll, PaidAll, AllAtMost;
  }

  lemma PairAtMost(t: State, u: State, w: State, rs: seq<Resolved>, key: Resolved, value: Resolved)
    requires AllAtMost(t, rs) && Extends(t, u) && Extends(u, w) && AtMost(u, value) && AtMost(w, key)
    ensures AllAtMost(w, rs + [key, value])
  {
  }

  lemma PairPaid(g: Graph, content: seq<Id>, i: nat, before: nat, one: nat, two: nat, after: nat)
    requires i + 1 < |content| && PaidAll(g, content[..i], before, one)
    requires Paid(g, content[i + 1], one, two) && Paid(g, content[i], two, after)
    ensures PaidAll(g, content[..i + 2], before, after)
  {
    hide MeaningAll, Meaning, Cost, CostAll;
    var more := content[..i + 2];
    forall fuel: nat | MeaningAll(g, more, fuel).Some? ensures after <= before + CostAll(g, more, fuel)
    {
      ListStep(g, content, fuel, i);
      ListStep(g, content, fuel, i + 1);
    }
  }

  /** A key that fails after its value has been charged. */
  lemma KeyFailed(
    g: Graph, b: Budgets, content: seq<Id>, i: nat, depth: nat, s: State, t: State, u: State, w: State, rs: seq<Resolved>,
    value: Resolved, e: LoadError
  )
    requires i + 1 < |content| && ListSettled(g, b, content[..i], depth, s, t, Success(rs))
    requires Settled(g, b, content[i + 1], depth, t, u, Success(value)) && Settled(g, b, content[i], depth, u, w, Failure(e))
    ensures ListSettled(g, b, content, depth, s, w, Failure(e))
  {
    hide MeaningAll, Meaning, Cost, CostAll, Peak, PeakAll, Tight, LowAll, AllAtMost, Low, AtMost;
    forall fuel: nat | MeaningAll(g, content, fuel).Some?
      ensures Meaning(g, content[i], fuel).Some? && Meaning(g, content[i + 1], fuel).Some? && MeaningAll(g, content[..i], fuel).Some?
      ensures CostAll(g, content[..i], fuel) + Cost(g, content[i], fuel) + Cost(g, content[i + 1], fuel) <= CostAll(g, content, fuel)
      ensures Peak(g, content[i], fuel) <= PeakAll(g, content, fuel)
    {
      hide *;
      PrefixDemands(g, content, fuel, i);
      PrefixDemands(g, content, fuel, i + 1);
      ListStep(g, content, fuel, i);
    }
  }

  // ------------------------------------------------------------------- scalars

  lemma ScalarSettled(g: Graph, b: Budgets, n: Id, depth: nat, s: State, t: State, x: Resolved)
    requires n in g.nodes && g.nodes[n].node.ScalarNode? && Tight(g, s)
    requires t.resolved == s.resolved && t.indexed == s.indexed && t.expandedNodes == s.expandedNodes + 1
    requires x.node.Leaf? && x.height == 1 && x.node.id !in s.indexed
    ensures FreshSettled(g, b, n, depth, s, t, Success(x), 0)
  {
    hide Tight, Meaning, Cost;
    TightSame(g, s, t);
    forall fuel: nat | Meaning(g, n, fuel).Some? ensures fuel >= 1 && Cost(g, n, fuel) == 1 {
      ScalarDemands(g, n, fuel);
    }
  }

  lemma ScalarExcused(g: Graph, b: Budgets, n: Id, depth: nat, spent: nat, size: nat)
    requires n in g.nodes && g.nodes[n].node.ScalarNode?
    ensures spent + 1 > b.expandedNodes ==> Excused(g, b, n, depth, spent, ExpansionLimit)
    ensures size == |ScalarText(g.nodes[n].node.scalar)| > b.assembledBytes ==> Excused(g, b, n, depth, spent, AssembledLimit)
  {
    hide Meaning, Cost, Peak, ScalarText;
    forall fuel: nat | Meaning(g, n, fuel).Some?
      ensures Cost(g, n, fuel) == 1 && |ScalarText(g.nodes[n].node.scalar)| <= Peak(g, n, fuel)
    {
      ScalarDemands(g, n, fuel);
    }
  }

  lemma FreshExcused(g: Graph, b: Budgets, n: Id, depth: nat, s: State, t: State, e: LoadError, raise: nat)
    requires Tight(g, t) && Excused(g, b, n, depth, s.expandedNodes, e)
    ensures FreshSettled(g, b, n, depth, s, t, Failure(e), raise)
  {
    hide Tight, Excused;
  }

  // ------------------------------------------------------------------- totals

  /** The height over the first i children. */
  ghost predicate HeightsTo(children: seq<Resolved>, i: nat, height: int) {
    && i <= |children| && (forall j :: 0 <= j < i ==> children[j].height + 1 <= height)
    && forall h: nat :: HeightsWithin(children, h) ==> height <= h + 1
  }

  lemma HeightsStart(children: seq<Resolved>)
    ensures HeightsTo(children, 0, 1)
  {
  }

  lemma HeightsStep(children: seq<Resolved>, i: nat, height: int)
    requires HeightsTo(children, i, height) && i < |children|
    ensures HeightsTo(children, i + 1, if height >= children[i].height + 1 then height else children[i].height + 1)
  {
  }

  function Separators(n: nat): nat {
    if n == 0 then 0 else n - 1
  }

  /** The totals over all children exceed the budget that a failure names. */
  ghost predicate OverTotal(b: Budgets, children: seq<Resolved>, depth: nat, e: LoadError) {
    && (e == DepthLimit ==> forall h: nat :: HeightsWithin(children, h) ==> h + depth > b.depth)
    && (e == ExpansionLimit ==> 1 + CountAll(Map(children, ValueOf)) > b.expandedNodes)
    && (e == AssembledLimit ==> 2 + Separators(|children|) + TotalSize(Map(children, ValueOf)) > b.assembledBytes)
  }

  lemma {:induction false} PrefixTotals(values: seq<Value>, i: nat)
    requires i <= |values|
    ensures CountAll(values[..i]) <= CountAll(values) && TotalSize(values[..i]) <= TotalSize(values)
    decreases |values|
  {
    hide NodeCount, Json;
    if i == |values| {
      assert values[..i] == values;
    } else {
      PrefixTotals(values[..|values| - 1], i);
      assert values[..|values| - 1][..i] == values[..i];
    }
  }

  lemma {:induction false} MapPrefix(rs: seq<Resolved>, i: nat)
    requires i <= |rs|
    ensures Map(rs[..i], ValueOf) == Map(rs, ValueOf)[..i] && |Map(rs, ValueOf)| == |rs|
    decreases |rs|
  {
    hide ValueOf;
    MapLength(rs);
    if i == |rs| {
      assert rs[..i] == rs;
    } else {
      MapPrefix(rs[..|rs| - 1], i);
      assert rs[..|rs| - 1][..i] == rs[..i];
    }
  }

  /** The totals with one more child are no more than all the totals. */
  lemma PartialTotals(b: Budgets, rs: seq<Resolved>, i: nat, totals: Totals)
    requires Totalled(rs, i, |rs|, totals) && i < |rs| && Exact(b, rs[i])
    ensures totals.nodes + rs[i].nodes <= 1 + CountAll(Map(rs, ValueOf))
    ensures totals.size + rs[i].size <= 2 + Separators(|rs|) + TotalSize(Map(rs, ValueOf))
  {
    hide *;
    TotalledStep(b, rs, i, |rs|, totals);
    var height := if totals.height >= rs[i].height + 1 then totals.height else rs[i].height + 1;
    TotalledParts(rs, i + 1, |rs|, Totals(totals.nodes + rs[i].nodes, totals.size + rs[i].size, height));
    MapPrefix(rs, i + 1);
    PrefixTotals(Map(rs, ValueOf), i + 1);
    SeparatorsIs(|rs|);
  }

  lemma AllTotals(rs: seq<Resolved>, totals: Totals)
    requires Totalled(rs, |rs|, |rs|, totals)
    ensures totals.size == 2 + Separators(|rs|) + TotalSize(Map(rs, ValueOf))
  {
    hide *;
    TotalledParts(rs, |rs|, |rs|, totals);
    MapEnds(rs, ValueOf);
    SeparatorsIs(|rs|);
  }

  lemma SeparatorsIs(n: nat)
    ensures Separators(n) == if n == 0 then 0 else n - 1
  {
  }

  lemma OverTotalBy(b: Budgets, children: seq<Resolved>, depth: nat)
    ensures 1 + CountAll(Map(children, ValueOf)) > b.expandedNodes ==> OverTotal(b, children, depth, ExpansionLimit)
    ensures 2 + Separators(|children|) + TotalSize(Map(children, ValueOf)) > b.assembledBytes ==>
              OverTotal(b, children, depth, AssembledLimit)
    ensures forall i: nat, height: int ::
              HeightsTo(children, i, height) && height + depth - 1 > b.depth ==> OverTotal(b, children, depth, DepthLimit)
  {
    hide CountAll, Map, HeightsWithin, TotalSize, Separators;
  }

  lemma OverBoxed(b: Budgets, mapping: bool, children: seq<Resolved>, depth: nat, s: State, e: LoadError)
    requires OverTotal(b, children, depth, e) || (e == ExpansionLimit && s.expandedNodes + 1 > b.expandedNodes)
    requires mapping ==> |children| % 2 == 0
    ensures Boxed(b, mapping, children, depth, s, Failure(e))
  {
    hide CountAll, Map, HeightsWithin, TotalSize, Json, ValueOf;
    MapLength(children);
    ContainerSize(mapping, Map(children, ValueOf));
  }

  lemma TotalBoxed(b: Budgets, mapping: bool, children: seq<Resolved>, depth: nat, s: State, x: Resolved)
    requires HeightsTo(children, |children|, x.height)
    ensures Boxed(b, mapping, children, depth, s, Success(x))
  {
    hide HeightsWithin;
  }

  // --------------------------------------------------------------------- load

  /** The root has a meaning within the depth, and assembling it without a cache stays within the other budgets. */
  ghost predicate Affordable(g: Graph, b: Budgets, root: Id) {
    exists fuel: nat ::
      && fuel <= b.depth && Meaning(g, root, fuel).Some?
      && Cost(g, root, fuel) <= b.expandedNodes && Peak(g, root, fuel) <= b.assembledBytes
  }

  lemma ExcusedIsUnaffordable(g: Graph, b: Budgets, root: Id, e: LoadError)
    requires Excused(g, b, root, 1, 0, e) && (Semantic(e) ==> Meaningless(g, root))
    ensures !Affordable(g, b, root)
  {
    hide Meaning, Cost, Peak;
    if Affordable(g, b, root) {
      var fuel: nat :|
        && fuel <= b.depth && Meaning(g, root, fuel).Some?
        && Cost(g, root, fuel) <= b.expandedNodes && Peak(g, root, fuel) <= b.assembledBytes;
      MeaningGrows(g, root, fuel, b.depth);
    }
  }
}
