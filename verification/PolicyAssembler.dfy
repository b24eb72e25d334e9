/**
 policyLoader.resolve (internal/config/load.go): assembling a policy from a shared source graph with
 memoisation, cycle detection and budgets.
 */
module PolicyAssembler {
  import opened Wrappers
  import opened JsonText
  import opened Sequences
  import opened PolicyJson
  import opened PolicyOverride
  import opened PolicyGraph
  import opened PolicyAccounting
  import opened PolicyBudgets

  // ------------------------------------------------------------------ loader

  class PolicyLoader {
    const graph: Graph
    const budgets: Budgets
    var resolved: map<Id, Resolved>
    var indexed: map<nat, Resolved>
    var active: set<Id>
    var expandedNodes: nat
    var nextNode: nat

    constructor (graph: Graph, budgets: Budgets)
      ensures this.graph == graph && this.budgets == budgets
      ensures Value() == State(map[], map[], {}, 0, 0)
    {
      this.graph, this.budgets := graph, budgets;
      resolved, indexed, active, expandedNodes, nextNode := map[], map[], {}, 0, 0;
    }

    ghost function Value(): State
      reads this
    {
      State(resolved, indexed, active, expandedNodes, nextNode)
    }

    lemma Fields()
      ensures Value() == State(resolved, indexed, active, expandedNodes, nextNode)
    {
    }

    /** charge. */
    method Charge(count: nat) returns (ok: bool)
      requires expandedNodes <= budgets.expandedNodes
      modifies this`expandedNodes
      ensures ok == (old(expandedNodes) + count <= budgets.expandedNodes)
      ensures expandedNodes == if ok then old(expandedNodes) + count else old(expandedNodes)
    {
      if count > budgets.expandedNodes - expandedNodes {
        return false;
      }
      expandedNodes := expandedNodes + count;
      ok := true;
    }

    /** The loop of `container`. */
    method Total(children: seq<Resolved>, depth: nat, ghost s: State) returns (r: Result<Totals, LoadError>)
      requires AllExact(budgets, s, children)
      ensures r.Success? ==>
                && Totalled(children, |children|, |children|, r.value)
                && r.value.size <= budgets.assembledBytes && r.value.height + depth <= budgets.depth + 1
                && HeightsTo(children, |children|, r.value.height)
      ensures r.Failure? ==> !Semantic(r.error) && OverTotal(budgets, children, depth, r.error)
    {
      hide *;
      BudgetErrors();
      var nodes: int, size: int, height: int := 1, 2, 1;
      if |children| > 0 {
        size := size + (|children| - 1);
      }
      TotalledStart(children, |children|);
      HeightsStart(children);
      OverTotalBy(budgets, children, depth);
      for i := 0 to |children|
        invariant Totalled(children, i, |children|, Totals(nodes, size, height)) && HeightsTo(children, i, height)
      {
        AllExactAt(budgets, s, children, i);
        PartialTotals(budgets, children, i, Totals(nodes, size, height));
        HeightsStep(children, i, height);
        TotalledStep(budgets, children, i, |children|, Totals(nodes, size, height));
        var child := children[i];
        if child.nodes > budgets.expandedNodes - nodes {
          return Failure(ExpansionLimit);
        }
        nodes := nodes + child.nodes;
        if child.size > budgets.assembledBytes - size {
          return Failure(AssembledLimit);
        }
        size := size + child.size;
        height := if height >= child.height + 1 then height else child.height + 1;
      }
      AllTotals(children, Totals(nodes, size, height));
      if size > budgets.assembledBytes {
        return Failure(AssembledLimit);
      }
      if height + depth - 1 > budgets.depth {
        return Failure(DepthLimit);
      }
      r := Success(Totals(nodes, size, height));
    }

    /** container. */
    method MakeContainer(mapping: bool, children: seq<Resolved>, depth: nat) returns (r: Result<Resolved, LoadError>)
      requires AllExact(budgets, Value(), children) && (mapping ==> |children| % 2 == 0)
      requires expandedNodes <= budgets.expandedNodes
      modifies this`expandedNodes, this`nextNode
      ensures Contained(budgets, mapping, children, depth, old(Value()), Value(), r)
      ensures Boxed(budgets, mapping, children, depth, old(Value()), r)
    {
      hide *;
      ghost var before := Value();
      Fields();
      BudgetErrors();
      var charged := Charge(1);
      Fields();
      if !charged {
        NotContained(budgets, mapping, children, depth, before, Value(), ExpansionLimit);
        OverBoxed(budgets, mapping, children, depth, before, ExpansionLimit);
        return Failure(ExpansionLimit);
      }
      var totals := Total(children, depth, before);
      if totals.Failure? {
        NotContained(budgets, mapping, children, depth, before, Value(), totals.error);
        OverBoxed(budgets, mapping, children, depth, before, totals.error);
        return Failure(totals.error);
      }
      var node := Branch(nextNode, mapping, Map(children, NodeOf));
      nextNode := nextNode + 1;
      Fields();
      ContainedBy(budgets, mapping, children, depth, before, Value(), totals.value);
      r := Success(Resolved(node, totals.value.nodes, totals.value.size, totals.value.height));
      TotalBoxed(budgets, mapping, children, depth, before, r.value);
    }

    // ----------------------------------------------------------- leaves

    /** The scalar branch of `resolve`. */
    method ResolveScalar(n: Id, ghost depth: nat) returns (r: Result<Resolved, LoadError>)
      requires Valid(graph, budgets, Value()) && n in graph.nodes && graph.nodes[n].node.ScalarNode? && Tight(graph, Value())
      modifies this`expandedNodes, this`nextNode
      ensures FreshOutcome(graph, budgets, n, old(Value()), Value(), r)
      ensures FreshSettled(graph, budgets, n, depth, old(Value()), Value(), r, 0)
    {
      hide *;
      var scalar := graph.nodes[n].node.scalar;
      ghost var before := Value();
      Fields();
      ExtendsSelf(before);
      BudgetErrors();
      WithinBudget(graph, budgets, before);
      ScalarMeans(graph, n);
      HasTextParts(scalar);
      var charged := Charge(1);
      Fields();
      ChargedIsValid(graph, budgets, before, Value());
      TightSame(graph, before, Value());
      if !charged {
        FreshFailure(graph, budgets, n, before, Value(), ExpansionLimit);
        ScalarExcused(graph, budgets, n, depth, before.expandedNodes, 0);
        FreshExcused(graph, budgets, n, depth, before, Value(), ExpansionLimit, 0);
        return Failure(ExpansionLimit);
      }
      var size: nat;
      if scalar.tag == Str {
        size := JsonStringSize(scalar.value);
      } else if scalar.tag == Float {
        size := |Utf8Text(scalar.value)|;
      } else if scalar.canonical == None {
        FreshFailure(graph, budgets, n, before, Value(), IntegerRange);
        SemanticExcuse(graph, budgets, n, depth, before.expandedNodes, IntegerRange);
        FreshExcused(graph, budgets, n, depth, before, Value(), IntegerRange, 0);
        return Failure(IntegerRange);
      } else {
        size := |Utf8Text(scalar.canonical.value)|;
      }
      if size > budgets.assembledBytes {
        FreshFailure(graph, budgets, n, before, Value(), AssembledLimit);
        ScalarExcused(graph, budgets, n, depth, before.expandedNodes, size);
        FreshExcused(graph, budgets, n, depth, before, Value(), AssembledLimit, 0);
        return Failure(AssembledLimit);
      }
      var result := Resolved(Leaf(nextNode, scalar), 1, size, 1);
      ghost var charge := Value();
      nextNode := nextNode + 1;
      Fields();
      LeafReady(graph, budgets, n, scalar, before, charge, Value(), result);
      NewId(graph, budgets, before);
      ScalarSettled(graph, budgets, n, depth, before, Value(), result);
      r := Success(result);
    }

    // --------------------------------------------------------- children

    /** The loop over a node's children. */
    method ResolveAll(n: Id, content: seq<Id>, doc: nat, depth: nat) returns (r: Result<seq<Resolved>, LoadError>)
      requires Scanned(graph) && Valid(graph, budgets, Value()) && depth <= budgets.depth && Tight(graph, Value())
      requires Needed(graph, active, n, doc, content)
      modifies this
      ensures AllOutcome(graph, budgets, n, content, old(Value()), Value(), r)
      ensures ListSettled(graph, budgets, content, depth + 1, old(Value()), Value(), r)
      decreases budgets.depth + 1 - depth, 0
    {
      hide *;
      ghost var before := Value();
      Fields();
      NoneYet(graph, budgets, content, before);
      ListNothing(graph, budgets, content, depth + 1, before);
      var children: seq<Resolved> := [];
      for i := 0 to |content|
        invariant Partly(graph, budgets, content[..i], before, Value(), children)
        invariant ListSettled(graph, budgets, content[..i], depth + 1, before, Value(), Success(children))
      {
        ghost var now := Value();
        Fields();
        PartlyActive(graph, budgets, content[..i], before, now, children);
        NeededAt(graph, before.active, n, doc, content, i);
        ListParts(graph, budgets, content[..i], depth + 1, before, now, Success(children));
        var child := Resolve(content[i], doc, depth + 1);
        if child.Failure? {
          ChildFailed(graph, budgets, n, content, content[..i], content[i], depth + 1, before, now, Value(), children, child.error);
          ListFailed(graph, budgets, content, i, i, depth + 1, before, now, Value(), children, child.error);
          return Failure(child.error);
        }
        OneMore(graph, budgets, content, i, depth + 1, before, now, Value(), children, child.value);
        OutcomeParts(graph, budgets, content[i], depth + 1, now, Value(), child);
        ListMore(graph, budgets, content, i, depth + 1, before, now, Value(), children, child.value);
        children := children + [child.value];
      }
      WholeContent(content);
      AllResolved(graph, budgets, n, content, before, Value(), children);
      r := Success(children);
    }

    /** A sequence, or a mapping without a reference. */
    method ResolveContainer(n: Id, mapping: bool, content: seq<Id>, doc: nat, depth: nat)
      returns (r: Result<Resolved, LoadError>)
      requires Scanned(graph) && Valid(graph, budgets, Value()) && depth <= budgets.depth && Tight(graph, Value())
      requires Plainly(graph, n, mapping, content) && (mapping ==> |content| % 2 == 0)
      requires Needed(graph, active, n, doc, content)
      modifies this
      ensures FreshOutcome(graph, budgets, n, old(Value()), Value(), r)
      ensures FreshSettled(graph, budgets, n, depth, old(Value()), Value(), r, 0)
      decreases budgets.depth + 1 - depth, 1
    {
      hide *;
      ghost var before := Value();
      var children := ResolveAll(n, content, doc, depth);
      ghost var resolved := Value();
      AllOutcomeParts(graph, budgets, n, content, before, resolved, children);
      ListParts(graph, budgets, content, depth + 1, before, resolved, children);
      if children.Failure? {
        FreshFailure(graph, budgets, n, before, resolved, children.error);
        ContentExcused(graph, budgets, n, mapping, content, depth, before.expandedNodes, children.error);
        FreshExcused(graph, budgets, n, depth, before, resolved, children.error, 0);
        return Failure(children.error);
      }
      PartlyParts(graph, budgets, content, before, resolved, children.value);
      AllGoodMeans(graph, budgets, resolved, content, children.value);
      PartlyActive(graph, budgets, content, before, resolved, children.value);
      Fields();
      WithinBudget(graph, budgets, resolved);
      r := MakeContainer(mapping, children.value, depth);
      PlainContainer(graph, budgets, n, mapping, content, children.value, depth, before, resolved, Value(), r);
      PlainOwnable(graph, budgets, n, mapping, content, children.value, depth + 1, before, resolved);
      BoxSettled(graph, budgets, n, mapping, children.value, depth, before, resolved, Value(), r, 0);
    }

    // -------------------------------------------------------- overrides

    /** Resolves an override's pairs, value before key, into maps by key text. */
    method ResolveOverrides(n: Id, overrides: seq<Id>, doc: nat, depth: nat)
      returns (r: Result<Fields, LoadError>, ghost over: seq<Resolved>)
      requires Scanned(graph) && Valid(graph, budgets, Value()) && depth <= budgets.depth && Tight(graph, Value())
      requires Needed(graph, active, n, doc, overrides) && StringKeys(graph, overrides)
      modifies this
      ensures OverridesOutcome(graph, budgets, n, overrides, old(Value()), Value(), r, over)
      ensures ListSettled(graph, budgets, overrides, depth + 1, old(Value()), Value(),
                          if r.Success? then Success(over) else Failure(r.error))
      decreases budgets.depth + 1 - depth, 0
    {
      hide *;
      ghost var before := Value();
      Fields();
      NoneYet(graph, budgets, overrides, before);
      ListNothing(graph, budgets, overrides, depth + 1, before);
      NoFields();
      NothingMatched(graph, overrides);
      EvenPairs(graph, overrides);
      over := [];
      var values: map<string, Resolved>, keys: map<string, Resolved> := map[], map[];
      var i := 0;
      while i < |overrides|
        invariant i <= |overrides| && i % 2 == 0 && Partly(graph, budgets, overrides[..i], before, Value(), over)
        invariant FieldsHold(over, PolicyAccounting.Fields(values, keys)) && TextsMatch(graph, overrides[..i], over)
        invariant ListSettled(graph, budgets, overrides[..i], depth + 1, before, Value(), Success(over))
      {
        ghost var start := Value();
        Fields();
        PartlyActive(graph, budgets, overrides[..i], before, start, over);
        NeededAt(graph, before.active, n, doc, overrides, i);
        NeededAt(graph, before.active, n, doc, overrides, i + 1);
        StringKeyAt(graph, overrides, i);
        ListParts(graph, budgets, overrides[..i], depth + 1, before, start, Success(over));
        var value := Resolve(overrides[i + 1], doc, depth + 1);
        ghost var middle := Value();
        OutcomeParts(graph, budgets, overrides[i + 1], depth + 1, start, middle, value);
        SettledParts(graph, budgets, overrides[i + 1], depth + 1, start, middle, value);
        Fields();
        if value.Failure? {
          ChildFailed(graph, budgets, n, overrides, overrides[..i], overrides[i + 1], depth + 1, before, start, middle, over, value.error);
          OverridesFailed(graph, budgets, n, overrides, before, middle, value.error, over);
          ListFailed(graph, budgets, overrides, i, i + 1, depth + 1, before, start, middle, over, value.error);
          return Failure(value.error), over;
        }
        var key := Resolve(overrides[i], doc, depth + 1);
        ghost var end := Value();
        OutcomeParts(graph, budgets, overrides[i], depth + 1, middle, end, key);
        if key.Failure? {
          PairFailed(graph, budgets, n, overrides, overrides[..i], overrides[i + 1], overrides[i], depth + 1,
                     before, start, middle, end, over, value.value, key.error);
          OverridesFailed(graph, budgets, n, overrides, before, end, key.error, over);
          KeyFailed(graph, budgets, overrides, i, depth + 1, before, start, middle, end, over, value.value, key.error);
          return Failure(key.error), over;
        }
        PairMore(graph, budgets, overrides, i, depth + 1, before, start, middle, end, over, key.value, value.value);
        PairSettled(graph, budgets, overrides, i, depth + 1, before, start, middle, end, over, key.value, value.value);
        KeyResolved(graph, budgets, end, overrides[i], key.value);
        FieldsMore(over, PolicyAccounting.Fields(values, keys), key.value, value.value, KeyText(graph, overrides[i]));
        MatchedMore(graph, overrides, i, over, key.value, value.value);
        values := values[KeyText(graph, overrides[i]) := value.value];
        keys := keys[KeyText(graph, overrides[i]) := key.value];
        over := over + [key.value, value.value];
        i := i + 2;
      }
      WholeContent(overrides);
      r := Success(PolicyAccounting.Fields(values, keys));
      OverridesResolved(graph, budgets, n, overrides, before, Value(), r.value, over);
    }

    /** The children of the overridden mapping: base order with replaced pairs, then the pairs left over. */
    method Merge(base: seq<Tree>, overrides: seq<Id>, fields: Fields, ghost over: seq<Resolved>)
      returns (children: seq<Resolved>)
      requires |base| % 2 == 0 && NoDuplicates(Keys(Entries(Value(), base), KeyOf))
      requires ChildEntries(Value(), base)
      requires FieldsHold(over, fields) && TextsMatch(graph, overrides, over) && NoDuplicates(Keys(over, KeyOf))
      ensures children == Overridden(Entries(Value(), base), over, KeyOf)
    {
      hide *;
      ghost var rs := Entries(Value(), base);
      Fields();
      EntriesLength(Value(), base);
      UnusedStart(rs, over, fields);
      WholePairs(rs, KeyOf, over);
      WholePairs(over, KeyOf, rs);
      OverriddenParts(rs, over, KeyOf);
      MatchedLength(graph, overrides, over);
      var unused := fields.values;
      children := [];
      var i := 0;
      while i < |base|
        invariant i <= |base| && i % 2 == 0 && Unused(rs, over, i, fields.keys, unused)
        invariant children == Replaced(rs[..i], over, KeyOf)
      {
        EntryOf(Value(), base, i);
        EntryOf(Value(), base, i + 1);
        LookupIsEntry(base[i]);
        LookupIsEntry(base[i + 1]);
        var key := TreeKey(base[i]);
        MergeBaseStep(rs, over, i, fields.keys, unused, key);
        if key in unused {
          children := children + [fields.keys[key], unused[key]];
          unused := unused - {key};
        } else {
          children := children + [Lookup(base[i]), Lookup(base[i + 1])];
        }
        i := i + 2;
      }
      i := 0;
      while i < |overrides|
        invariant i <= |overrides| && i % 2 == 0
        invariant children == Replaced(rs, over, KeyOf) + Added(rs, over[..i], KeyOf)
      {
        MatchedAt(graph, overrides, over, i);
        var key := KeyText(graph, overrides[i]);
        MergeNewStep(rs, over, i, fields.keys, unused, key);
        if key in unused {
          children := children + [fields.keys[key], unused[key]];
        }
        i := i + 2;
      }
    }

    lemma LookupIsEntry(t: Tree)
      ensures Lookup(t) == Entry(Value(), t)
    {
    }

    /** l.resolved at an assembled node. */
    function Lookup(t: Tree): Resolved
      reads this
    {
      if t.id in indexed then indexed[t.id] else Resolved(t, 0, 0, 0)
    }

    /** The number of children the overridden mapping will have, counted before they are collected. */
    method ChildCount(base: seq<Tree>, overrides: seq<Id>, ghost rs: seq<Resolved>, ghost over: seq<Resolved>)
      returns (count: nat)
      requires |base| % 2 == 0 && rs == Entries(Value(), base) && ChildEntries(Value(), base)
      requires TextsMatch(graph, overrides, over)
      ensures count == |Overridden(rs, over, KeyOf)|
    {
      hide *;
      EntriesLength(Value(), base);
      KeysOfEntries(Value(), base);
      MatchedLength(graph, overrides, over);
      OverriddenParts(rs, over, KeyOf);
      ReplacedKeys(rs, over, KeyOf);
      KeysLength(rs);
      WholePairs(over, KeyOf, rs);
      var texts := BaseKeys(base);
      count := |base|;
      var i := 0;
      while i < |overrides|
        invariant i <= |overrides| && i % 2 == 0 && count == |base| + |Added(rs, over[..i], KeyOf)|
      {
        MatchedAt(graph, overrides, over, i);
        AddedStep(rs, over, KeyOf, i);
        if KeyText(graph, overrides[i]) !in texts {
          count := count + 2;
        }
        i := i + 2;
      }
    }

    /** Replaces direct keys of a resolved base. */
    method ApplyOverride(
      n: Id, content: seq<Id>, ref: Id, overrides: seq<Id>, ghost target: Id, base: Resolved, doc: nat, depth: nat,
      ghost start: State
    ) returns (r: Result<Resolved, LoadError>)
      requires Scanned(graph) && Valid(graph, budgets, Value()) && depth <= budgets.depth && Tight(graph, Value())
      requires Refers(graph, n, content, ref) && Overrides(graph, content, overrides)
      requires RefTarget(graph, n, ref) == Some(target) && ScannedMapping(graph, overrides)
      requires Needed(graph, active, n, doc, overrides)
      requires Extends(start, Value()) && active == start.active && Good(graph, budgets, Value(), target, base)
      requires start.expandedNodes + base.nodes <= expandedNodes
      requires Low(graph, target, base.height) && AtMost(Value(), base) && Paid(graph, target, start.expandedNodes, expandedNodes)
      modifies this
      ensures FreshOutcome(graph, budgets, n, start, Value(), r)
      ensures FreshSettled(graph, budgets, n, depth, start, Value(), r, 1)
      decreases budgets.depth + 1 - depth, 1
    {
      hide *;
      ghost var before := Value();
      Fields();
      BudgetErrors();
      if base.node.Leaf? || !base.node.mapping {
        BaseIsNoMapping(graph, budgets, n, content, ref, overrides, target, before, base);
        FreshFailure(graph, budgets, n, start, before, OverrideTarget);
        SemanticExcuse(graph, budgets, n, depth, start.expandedNodes, OverrideTarget);
        FreshExcused(graph, budgets, n, depth, start, before, OverrideTarget, 1);
        return Failure(OverrideTarget);
      }
      ScannedKeys(graph, overrides);
      ghost var over: seq<Resolved>;
      var fields;
      fields, over := ResolveOverrides(n, overrides, doc, depth);
      ghost var resolved := Value();
      OverridesParts(graph, budgets, n, overrides, before, resolved, fields, over);
      ExtendsTransitive(start, before, resolved);
      ListParts(graph, budgets, overrides, depth + 1, before, resolved,
                if fields.Success? then Success(over) else Failure(fields.error));
      Fields();
      if fields.Failure? {
        FreshFailure(graph, budgets, n, start, resolved, fields.error);
        OverridesExcused(graph, budgets, n, content, ref, overrides, depth, start.expandedNodes, before.expandedNodes, fields.error);
        FreshExcused(graph, budgets, n, depth, start, resolved, fields.error, 1);
        return Failure(fields.error);
      }
      MatchedLength(graph, overrides, over);
      TextsAreKeys(graph, overrides, over);
      BaseEntries(graph, budgets, before, resolved, target, base);
      EntriesAgree(graph, budgets, before, resolved, base.node.content, target, base);
      var count := ChildCount(base.node.content, overrides, Entries(resolved, base.node.content), over);
      PartlyParts(graph, budgets, overrides, before, resolved, over);
      OverriddenMeans(graph, budgets, n, content, ref, overrides, target, before, resolved, base, over);
      if count >= budgets.expandedNodes {
        FreshFailure(graph, budgets, n, start, resolved, ExpansionLimit);
        ChildrenExcuse(graph, budgets, n, Overridden(Entries(resolved, base.node.content), over, KeyOf), depth, start.expandedNodes);
        FreshExcused(graph, budgets, n, depth, start, resolved, ExpansionLimit, 1);
        return Failure(ExpansionLimit);
      }
      var children := Merge(base.node.content, overrides, fields.value, over);
      AllGoodMeans(graph, budgets, resolved, overrides, over);
      OverriddenExact(budgets, resolved, Entries(resolved, base.node.content), over);
      OverriddenKeys(Entries(resolved, base.node.content), over, KeyOf);
      WithinBudget(graph, budgets, resolved);
      r := MakeContainer(true, children, depth);
      OverriddenReady(graph, budgets, n, content, ref, overrides, target, depth, start, before, resolved, Value(), base, over, r);
      EntriesLow(graph, budgets, before, resolved, target, base);
      OverriddenAtMost(resolved, Entries(resolved, base.node.content), over);
      OverrideOwnable(graph, budgets, n, content, ref, overrides, target, depth + 1, start, before, resolved, base,
                      Entries(resolved, base.node.content), over);
      BoxSettled(graph, budgets, n, true, children, depth, start, resolved, Value(), r, 1);
    }

    // ------------------------------------------------------- references

    /** Resolves the target of a reference and applies its override, if any. */
    method ResolveReference(n: Id, content: seq<Id>, ref: Id, doc: nat, depth: nat) returns (r: Result<Resolved, LoadError>)
      requires Scanned(graph) && Valid(graph, budgets, Value()) && depth <= budgets.depth && Tight(graph, Value())
      requires Refers(graph, n, content, ref) && DocOf(graph, n) == doc && n in active
      requires Stack(graph, active - {n}, n)
      modifies this
      ensures FreshOutcome(graph, budgets, n, old(Value()), Value(), r)
      ensures FreshSettled(graph, budgets, n, depth, old(Value()), Value(), r, 0)
      decreases budgets.depth + 1 - depth, 2
    {
      hide *;
      ghost var start := Value();
      Fields();
      ExtendsSelf(start);
      BudgetErrors();
      var found := FollowReference(graph, n, content, ref, doc);
      if found == None {
        LostReference(graph, n, content, ref);
        FreshFailure(graph, budgets, n, start, start, RefTargetMissing);
        SemanticExcuse(graph, budgets, n, depth, start.expandedNodes, RefTargetMissing);
        FreshExcused(graph, budgets, n, depth, start, start, RefTargetMissing, 0);
        return Failure(RefTargetMissing);
      }
      var target := found.value;
      ReferenceNeeds(graph, n, content, ref);
      StackPush(graph, active - {n}, n, target);
      assert active - {n} + {n} == active;
      var base := Resolve(target, DocOf(graph, target), depth + 1);
      ghost var resolved := Value();
      OutcomeParts(graph, budgets, target, depth + 1, start, resolved, base);
      SettledParts(graph, budgets, target, depth + 1, start, resolved, base);
      ReferenceCarries(graph, n, content, ref);
      StepSettled(graph, budgets, n, target, depth, start, resolved, base);
      Fields();
      if base.Failure? {
        if Semantic(base.error) {
          NeededMeaning(graph, n, target);
        }
        FreshFailure(graph, budgets, n, start, resolved, base.error);
        return Failure(base.error);
      }
      GoodParts(graph, budgets, resolved, target, base.value);
      var override := Field(graph, content, OVERRIDE);
      if override == None {
        ReferenceMeans(graph, n, content, ref, Plain(base.value.node));
        SameTree(graph, budgets, n, target, start, resolved, base.value);
        return Success(base.value.(height := base.value.height + 1));
      }
      var overrides := OverrideContent(graph, n, content, ref, override.value);
      OverrideChildren(graph, active - {n}, n, content, ref, overrides, doc);
      var result := ApplyOverride(n, content, ref, overrides, target, base.value, doc, depth, start);
      if result.Failure? {
        FailedRaise(graph, budgets, n, depth, start, Value(), result.error);
        return result;
      }
      ReadyRaised(graph, budgets, n, start, Value(), result.value);
      RaisedSettled(graph, budgets, n, depth, start, Value(), result.value);
      r := Success(result.value.(height := result.value.height + 1));
    }

    // ---------------------------------------------------------- resolve

    /** The part of `resolve` behind the cache. */
    method ResolveFresh(n: Id, doc: nat, depth: nat) returns (r: Result<Resolved, LoadError>)
      requires Scanned(graph) && Valid(graph, budgets, Value()) && depth <= budgets.depth && Tight(graph, Value())
      requires n in graph.nodes && DocOf(graph, n) == doc && n in active && Stack(graph, active - {n}, n)
      modifies this
      ensures FreshOutcome(graph, budgets, n, old(Value()), Value(), r)
      ensures FreshSettled(graph, budgets, n, depth, old(Value()), Value(), r, 0)
      decreases budgets.depth + 1 - depth, 3
    {
      hide *;
      ghost var start := Value();
      Fields();
      NodeShape(graph, n);
      var node := graph.nodes[n].node;
      if node.AliasNode? {
        AliasNeeds(graph, n);
        StackPush(graph, active - {n}, n, node.target);
        assert active - {n} + {n} == active;
        var target := Resolve(node.target, doc, depth + 1);
        ghost var resolved := Value();
        OutcomeParts(graph, budgets, node.target, depth + 1, start, resolved, target);
        AliasCarries(graph, n);
        StepSettled(graph, budgets, n, node.target, depth, start, resolved, target);
        Fields();
        if target.Failure? {
          if Semantic(target.error) {
            NeededMeaning(graph, n, node.target);
          }
          FreshFailure(graph, budgets, n, start, resolved, target.error);
          return target;
        }
        GoodParts(graph, budgets, resolved, node.target, target.value);
        AliasMeans(graph, n, Plain(target.value.node));
        SameTree(graph, budgets, n, node.target, start, resolved, target.value);
        r := Success(target.value.(height := target.value.height + 1));
      } else if node.MappingNode? && Field(graph, node.content, REF).Some? {
        ReferenceShape(graph, n, node.content);
        r := ResolveReference(n, node.content, Field(graph, node.content, REF).value, doc, depth);
      } else if node.ScalarNode? {
        r := ResolveScalar(n, depth);
      } else {
        PlainShape(graph, n, node.MappingNode?, node.content);
        PlainChildren(graph, active - {n}, n, node.MappingNode?, node.content, doc);
        assert active - {n} + {n} == active;
        r := ResolveContainer(n, node.MappingNode?, node.content, doc, depth);
      }
    }

    /**
     policyLoader.resolve. Outcome says what a result or an error means; Settled says that no more is charged
     and no greater height recorded than without the cache, and that a budget error is justified.
     */
    method Resolve(n: Id, doc: nat, depth: nat) returns (r: Result<Resolved, LoadError>)
      requires Scanned(graph) && Valid(graph, budgets, Value()) && depth <= budgets.depth + 1 && Tight(graph, Value())
      requires n in graph.nodes && DocOf(graph, n) == doc && Stack(graph, active, n)
      modifies this
      ensures Outcome(graph, budgets, n, depth, old(Value()), Value(), r)
      ensures Settled(graph, budgets, n, depth, old(Value()), Value(), r)
      decreases budgets.depth + 1 - depth, 4
    {
      hide *;
      ghost var start := Value();
      Fields();
      BudgetErrors();
      ExtendsSelf(start);
      if depth > budgets.depth {
        Failed(graph, budgets, n, depth, start, start, DepthLimit);
        NoFuelLeft(graph, budgets, n, depth, start.expandedNodes);
        NotSettled(graph, budgets, n, depth, start, start, DepthLimit);
        return Failure(DepthLimit);
      }
      if n in active {
        StackCycle(graph, active, n);
        Failed(graph, budgets, n, depth, start, start, RefCycle);
        SemanticExcuse(graph, budgets, n, depth, start.expandedNodes, RefCycle);
        NotSettled(graph, budgets, n, depth, start, start, RefCycle);
        return Failure(RefCycle);
      }
      if n in resolved {
        var cached := resolved[n];
        Cached(graph, budgets, start, n);
        CachedIsLow(graph, start, n);
        CachedCharge(graph, budgets, start, n, depth, cached);
        if cached.height + depth - 1 > budgets.depth {
          Failed(graph, budgets, n, depth, start, start, DepthLimit);
          HeightExcuse(graph, budgets, n, depth, start.expandedNodes, cached.height);
          NotSettled(graph, budgets, n, depth, start, start, DepthLimit);
          return Failure(DepthLimit);
        }
        var charged := Charge(cached.nodes);
        Fields();
        ChargedIsValid(graph, budgets, start, Value());
        TightSame(graph, start, Value());
        if !charged {
          Failed(graph, budgets, n, depth, start, Value(), ExpansionLimit);
          NotSettled(graph, budgets, n, depth, start, Value(), ExpansionLimit);
          return Failure(ExpansionLimit);
        }
        Reused(graph, budgets, n, depth, start, Value(), cached);
        AtMostExtends(start, Value(), cached);
        CachedSettled(graph, budgets, n, depth, start, Value(), cached);
        return Success(cached);
      }
      active := active + {n};
      Fields();
      ghost var entered := Value();
      ActiveIsFree(graph, budgets, start, entered);
      assert active - {n} == start.active;
      TightSame(graph, start, entered);
      var result := ResolveFresh(n, doc, depth);
      ghost var computed := Value();
      FreshParts(graph, budgets, n, entered, computed, result);
      FreshSettledParts(graph, budgets, n, depth, entered, computed, result);
      Fields();
      active := active - {n};
      Fields();
      ghost var left := Value();
      ActiveIsFree(graph, budgets, computed, left);
      TightSame(graph, computed, left);
      ExtendsTransitive(start, entered, computed);
      ExtendsTransitive(start, computed, left);
      assert active == start.active;
      if result.Failure? {
        Failed(graph, budgets, n, depth, start, left, result.error);
        NotSettled(graph, budgets, n, depth, start, left, result.error);
        return result;
      }
      if result.value.height + depth - 1 > budgets.depth {
        Failed(graph, budgets, n, depth, start, left, DepthLimit);
        HeightExcuse(graph, budgets, n, depth, start.expandedNodes, result.value.height);
        NotSettled(graph, budgets, n, depth, start, left, DepthLimit);
        return Failure(DepthLimit);
      }
      ReadyIsFree(graph, budgets, computed, left, n, result.value);
      resolved := resolved[n := result.value];
      if result.value.node.id !in indexed {
        indexed := indexed[result.value.node.id := result.value];
      }
      Fields();
      StoredFields(left, n, result.value);
      StoredIsValid(graph, budgets, left, n, result.value);
      StorableSame(computed, left, result.value);
      FreshBy(graph, budgets, n, depth, start, left, result.value);
      StoredSettled(graph, budgets, n, depth, start, left, result.value);
      ExtendsTransitive(start, left, Value());
      r := result;
      Finished(graph, budgets, n, depth, start, left, result.value);
    }

    /**
     load, up to the strict decoder: resolves a document's root and writes the assembled tree. It succeeds
     whenever the root has a meaning within the depth and assembling it, even without the cache, is affordable.
     */
    method Load(doc: nat, out: Buffer) returns (r: Result<Resolved, LoadError>)
      requires Scanned(graph) && doc in graph.roots && Value() == State(map[], map[], {}, 0, 0)
      modifies this, out
      ensures Loaded(graph, budgets, graph.roots[doc], old(out.data), out.data, r)
      ensures r.Failure? ==> !Affordable(graph, budgets, graph.roots[doc])
    {
      hide *;
      EmptyState(graph, budgets, doc);
      Fields();
      ghost var before := Value();
      r := Resolve(graph.roots[doc], doc, 1);
      ghost var after := Value();
      LoadedParts(graph, budgets, graph.roots[doc], before, after, r, out.data);
      LoadExcused(graph, budgets, graph.roots[doc], before, after, r);
      if r.Success? {
        var v := Plain(r.value.node);
        out.WriteAssembled(v);
        LoadedBy(graph, budgets, graph.roots[doc], before, after, r.value, old(out.data));
      }
    }
  }

  lemma WithinBudget(g: Graph, b: Budgets, s: State)
    requires Valid(g, b, s)
    ensures s.expandedNodes <= b.expandedNodes
  {
    hide Good, IndexEntry;
  }

  lemma HasTextParts(scalar: Scalar)
    ensures (scalar.tag == Int || scalar.tag == Bool) && scalar.canonical == None ==> !HasText(scalar)
    ensures scalar.tag == Str || scalar.tag == Float || scalar.canonical.Some? ==> HasText(scalar)
    ensures scalar.tag == Str ==> ScalarText(scalar) == Quoted(scalar.value)
    ensures scalar.tag == Float ==> ScalarText(scalar) == Utf8Text(scalar.value)
    ensures (scalar.tag == Int || scalar.tag == Bool) && scalar.canonical.Some? ==>
              ScalarText(scalar) == Utf8Text(scalar.canonical.value)
  {
    hide Quoted, Utf8Text;
  }

  lemma LeafParts(b: Budgets, id: nat, scalar: Scalar, size: nat)
    requires size == |ScalarText(scalar)| <= b.assembledBytes
    ensures Exact(b, Resolved(Leaf(id, scalar), 1, size, 1)) && Plain(Leaf(id, scalar)) == Atom(scalar)
  {
    hide ScalarText;
  }

  lemma LeafReady(g: Graph, b: Budgets, n: Id, scalar: Scalar, s: State, t: State, u: State, x: Resolved)
    requires Valid(g, b, s) && Valid(g, b, t) && Extends(s, t) && t.active == s.active
    requires t == State(s.resolved, s.indexed, s.active, s.expandedNodes + 1, s.nextNode)
    requires u == State(t.resolved, t.indexed, t.active, t.expandedNodes, t.nextNode + 1)
    requires x == Resolved(Leaf(t.nextNode, scalar), 1, |ScalarText(scalar)|, 1) && x.size <= b.assembledBytes
    requires Means(g, n, Atom(scalar))
    ensures FreshOutcome(g, b, n, s, u, Success(x))
  {
    hide Valid, Extends, Means, Exact, Plain, ScalarText;
    WithinBudget(g, b, t);
    ChargedIsValid(g, b, t, u);
    ExtendsTransitive(s, t, u);
    LeafParts(b, t.nextNode, scalar, x.size);
    NewId(g, b, t);
  }

  lemma WholeContent(content: seq<Id>)
    ensures content[..|content|] == content
  {
  }

  lemma AllResolved(g: Graph, b: Budgets, n: Id, content: seq<Id>, s: State, t: State, rs: seq<Resolved>)
    requires Partly(g, b, content, s, t, rs)
    ensures AllOutcome(g, b, n, content, s, t, Success(rs))
  {
    hide Partly;
  }

  lemma AllOutcomeParts(g: Graph, b: Budgets, n: Id, content: seq<Id>, s: State, t: State, r: Result<seq<Resolved>, LoadError>)
    requires AllOutcome(g, b, n, content, s, t, r)
    ensures r.Success? ==> Partly(g, b, content, s, t, r.value)
    ensures r.Failure? ==> Valid(g, b, t) && Extends(s, t) && t.active == s.active && (Semantic(r.error) ==> Meaningless(g, n))
  {
    hide Partly, Valid, Extends, Meaningless;
  }

  // ---------------------------------------------------- facts about overrides

  ghost predicate OverridesOutcome(
    g: Graph, b: Budgets, n: Id, overrides: seq<Id>, s: State, t: State, r: Result<Fields, LoadError>, over: seq<Resolved>
  ) {
    match r
    case Success(fields) => Partly(g, b, overrides, s, t, over) && FieldsHold(over, fields) && TextsMatch(g, overrides, over)
    case Failure(e) => AllOutcome(g, b, n, overrides, s, t, Failure(e))
  }

  lemma OverridesFailed(
    g: Graph, b: Budgets, n: Id, overrides: seq<Id>, s: State, t: State, e: LoadError, over: seq<Resolved>
  )
    requires AllOutcome(g, b, n, overrides, s, t, Failure(e))
    ensures OverridesOutcome(g, b, n, overrides, s, t, Failure(e), over)
  {
    hide AllOutcome, Partly, FieldsHold, TextsMatch;
  }

  lemma OverridesResolved(
    g: Graph, b: Budgets, n: Id, overrides: seq<Id>, s: State, t: State, fields: Fields, over: seq<Resolved>
  )
    requires Partly(g, b, overrides, s, t, over) && FieldsHold(over, fields) && TextsMatch(g, overrides, over)
    ensures OverridesOutcome(g, b, n, overrides, s, t, Success(fields), over)
  {
    hide AllOutcome, Partly, FieldsHold, TextsMatch;
  }

  lemma NothingMatched(g: Graph, overrides: seq<Id>)
    ensures TextsMatch(g, overrides[..0], []) && overrides[..0] == []
  {
  }

  lemma EvenPairs(g: Graph, overrides: seq<Id>)
    requires StringKeys(g, overrides)
    ensures |overrides| % 2 == 0
  {
  }

  lemma StringKeyAt(g: Graph, overrides: seq<Id>, i: nat)
    requires StringKeys(g, overrides) && i < |overrides| && i % 2 == 0
    ensures NodeAt(g, overrides[i]).ScalarNode?
  {
    hide NodeAt;
  }

  lemma MatchedMore(g: Graph, overrides: seq<Id>, i: nat, over: seq<Resolved>, key: Resolved, value: Resolved)
    requires i + 1 < |overrides| && TextsMatch(g, overrides[..i], over) && KeyOf(key) == KeyText(g, overrides[i])
    ensures TextsMatch(g, overrides[..i + 2], over + [key, value])
  {
    hide KeyOf, KeyText;
    var content, rs := overrides[..i + 2], over + [key, value];
    forall j | 0 <= j < |rs| && j % 2 == 0 ensures KeyOf(rs[j]) == KeyText(g, content[j]) {
      if j < i {
        assert KeyOf(over[j]) == KeyText(g, overrides[..i][j]);
      }
    }
  }

  lemma MatchedLength(g: Graph, overrides: seq<Id>, over: seq<Resolved>)
    requires TextsMatch(g, overrides, over)
    ensures |over| == |overrides| && |over| % 2 == 0
  {
  }

  lemma MatchedAt(g: Graph, overrides: seq<Id>, over: seq<Resolved>, i: nat)
    requires TextsMatch(g, overrides, over) && i < |overrides| && i % 2 == 0
    ensures i + 1 < |over| && KeyOf(over[i]) == KeyText(g, overrides[i])
  {
    hide KeyOf, KeyText;
  }

  function TreeKey(t: Tree): string {
    if t.Leaf? then t.scalar.value else ""
  }

  /** Every entry is about the child it was looked up for. */
  ghost predicate ChildEntries(s: State, base: seq<Tree>) {
    forall i :: 0 <= i < |base| ==> Entry(s, base[i]).node == base[i]
  }

  lemma EntryOf(s: State, base: seq<Tree>, i: nat)
    requires ChildEntries(s, base) && i < |base|
    ensures i < |Entries(s, base)| && Entries(s, base)[i] == Entry(s, base[i])
    ensures KeyOf(Entries(s, base)[i]) == TreeKey(base[i])
    ensures Entry(s, base[i]) == if base[i].id in s.indexed then s.indexed[base[i].id] else Resolved(base[i], 0, 0, 0)
  {
    hide Entries;
    EntryAt(s, base, i);
    EntriesLength(s, base);
  }

  /** The texts of a mapping's keys. */
  function BaseKeys(base: seq<Tree>): set<string> {
    if |base| < 2 then {} else BaseKeys(base[..|base| - 2]) + {TreeKey(base[|base| - 2])}
  }

  lemma {:induction false} KeysOfEntries(s: State, base: seq<Tree>)
    requires ChildEntries(s, base)
    ensures forall k :: k in Keys(Entries(s, base), KeyOf) <==> k in BaseKeys(base)
    decreases |base|
  {
    EntriesLength(s, base);
    if |base| >= 2 {
      var n := |base| - 2;
      EntryOf(s, base, n);
      forall i | 0 <= i < n ensures Entry(s, base[..n][i]).node == base[..n][i] {
        assert Entry(s, base[i]).node == base[i];
      }
      KeysOfEntries(s, base[..n]);
      EntriesPrefix(s, base, n);
      hide Entries, Entry, KeyOf, TreeKey;
    }
  }

  lemma EntriesPrefix(s: State, base: seq<Tree>, n: nat)
    requires n <= |base|
    ensures Entries(s, base)[..n] == Entries(s, base[..n])
  {
    EntriesLength(s, base);
    EntriesLength(s, base[..n]);
    var a, b := Entries(s, base)[..n], Entries(s, base[..n]);
    forall i | 0 <= i < n ensures a[i] == b[i] {
      EntryAt(s, base, i);
      EntryAt(s, base[..n], i);
    }
  }

  lemma {:induction false} KeysLength(rs: seq<Resolved>)
    requires |rs| % 2 == 0
    ensures 2 * |Keys(rs, KeyOf)| == |rs|
  {
    hide KeyOf;
    if rs != [] {
      KeysLength(rs[..|rs| - 2]);
    }
  }

  // --------------------------------------------------- facts about references

  /** reference and target. */
  method FollowReference(g: Graph, n: Id, content: seq<Id>, ref: Id, doc: nat) returns (r: Option<Id>)
    requires Scanned(g) && Refers(g, n, content, ref) && DocOf(g, n) == doc
    ensures r == RefTarget(g, n, ref)
    ensures r.Some? ==> r.value in g.nodes
  {
    hide *;
    ReferencePlace(g, n, content, ref);
    var end := SkipAliases(g, ref);
    var place := g.reference(doc, KeyText(g, end));
    if place == None {
      return None;
    }
    r := FindTarget(g, g.roots[place.value.0], place.value.1);
  }

  lemma ReferencePlace(g: Graph, n: Id, content: seq<Id>, ref: Id)
    requires Scanned(g) && Refers(g, n, content, ref)
    ensures ref in g.nodes
    ensures var place := g.reference(DocOf(g, n), KeyText(g, End(g, ref)));
            if place == None then RefTarget(g, n, ref) == None
            else
              && place.value.0 in g.roots && g.roots[place.value.0] in g.nodes
              && RefTarget(g, n, ref) == Target(g, g.roots[place.value.0], place.value.1)
  {
    hide Field, Target, End, ScannedMapping;
    FieldBelow(g, content, REF);
    assert ScannedNode(g, n);
  }

  /** The content of the mapping an `$override` leads to. */
  method OverrideContent(g: Graph, n: Id, content: seq<Id>, ref: Id, override: Id) returns (overrides: seq<Id>)
    requires Scanned(g) && Refers(g, n, content, ref) && Field(g, content, OVERRIDE) == Some(override)
    ensures Overrides(g, content, overrides)
  {
    hide *;
    OverrideShape(g, n, content, ref, override);
    var end := SkipAliases(g, override);
    overrides := NodeAt(g, end).content;
    OverridesBy(g, content, override, overrides);
  }

  lemma OverrideShape(g: Graph, n: Id, content: seq<Id>, ref: Id, override: Id)
    requires Scanned(g) && Refers(g, n, content, ref) && Field(g, content, OVERRIDE) == Some(override)
    ensures override in g.nodes && DocOf(g, override) == DocOf(g, n) && NodeAt(g, End(g, override)).MappingNode?
  {
    hide Field, End, StringKeys, NoDuplicates, Texts, HeightAt;
    FieldBelow(g, content, OVERRIDE);
    assert ScannedNode(g, n);
  }

  lemma OverridesBy(g: Graph, content: seq<Id>, override: Id, overrides: seq<Id>)
    requires Field(g, content, OVERRIDE) == Some(override) && NodeAt(g, End(g, override)) == MappingNode(overrides)
    ensures Overrides(g, content, overrides)
  {
    hide Field, End, NodeAt;
  }

  /** The override's pairs are needed by the node, belong to its document and have distinct string keys. */
  lemma OverrideChildren(g: Graph, stack: set<Id>, n: Id, content: seq<Id>, ref: Id, overrides: seq<Id>, doc: nat)
    requires Scanned(g) && Refers(g, n, content, ref) && Overrides(g, content, overrides)
    requires DocOf(g, n) == doc && Stack(g, stack, n)
    ensures ScannedMapping(g, overrides) && Needed(g, stack + {n}, n, doc, overrides)
  {
    var override := Field(g, content, OVERRIDE).value;
    var end := End(g, override);
    assert NodeAt(g, end) == MappingNode(overrides) && Field(g, content, OVERRIDE) == Some(override);
    hide *;
    OverrideShape(g, n, content, ref, override);
    EnoughSteps(g, override, HeightAt(g, override));
    ScannedOverride(g, end, overrides);
    forall i | 0 <= i < |overrides|
      ensures overrides[i] in g.nodes && DocOf(g, overrides[i]) == doc && Needs(g, n, overrides[i], 1)
           && Stack(g, stack + {n}, overrides[i])
    {
      ChildOf(g, end, overrides, i);
      OverrideNeeds(g, n, content, ref, overrides, i);
      StackPush(g, stack, n, overrides[i]);
    }
    NeededBy(g, stack + {n}, n, doc, overrides);
  }

  lemma ChildOf(g: Graph, n: Id, content: seq<Id>, i: nat)
    requires Scanned(g) && n in g.nodes && i < |content|
    requires NodeAt(g, n) == MappingNode(content) || NodeAt(g, n) == SequenceNode(content)
    ensures content[i] in g.nodes && DocOf(g, content[i]) == DocOf(g, n)
  {
    assert ScannedNode(g, n);
    hide Scanned, ScannedMapping, HeightAt;
  }

  lemma NeededBy(g: Graph, active: set<Id>, n: Id, doc: nat, content: seq<Id>)
    requires forall i :: 0 <= i < |content| ==>
               content[i] in g.nodes && DocOf(g, content[i]) == doc && Needs(g, n, content[i], 1) && Stack(g, active, content[i])
    ensures Needed(g, active, n, doc, content)
  {
    hide Needs, Stack, DocOf;
  }

  lemma ScannedKeys(g: Graph, overrides: seq<Id>)
    requires ScannedMapping(g, overrides)
    ensures StringKeys(g, overrides) && |overrides| % 2 == 0 && NoDuplicates(Texts(g, overrides))
  {
    hide NoDuplicates, Texts, Field, End;
  }

  lemma OverridesParts(
    g: Graph, b: Budgets, n: Id, overrides: seq<Id>, s: State, t: State, r: Result<Fields, LoadError>, over: seq<Resolved>
  )
    requires OverridesOutcome(g, b, n, overrides, s, t, r, over)
    ensures Valid(g, b, t) && Extends(s, t) && t.active == s.active
    ensures r.Success? ==> Partly(g, b, overrides, s, t, over) && FieldsHold(over, r.value) && TextsMatch(g, overrides, over)
    ensures r.Failure? && Semantic(r.error) ==> Meaningless(g, n)
  {
    hide Valid, Extends, AllGood, FieldsHold, TextsMatch, Meaningless;
  }

  lemma BaseIsNoMapping(
    g: Graph, b: Budgets, n: Id, content: seq<Id>, ref: Id, overrides: seq<Id>, target: Id, s: State, base: Resolved
  )
    requires Refers(g, n, content, ref) && Overrides(g, content, overrides) && RefTarget(g, n, ref) == Some(target)
    requires Good(g, b, s, target, base) && (base.node.Leaf? || !base.node.mapping)
    ensures Meaningless(g, n)
  {
    var v := Plain(base.node);
    assert v.Atom? || !v.mapping;
    hide *;
    GoodParts(g, b, s, target, base);
    AtomicBase(g, n, content, ref, overrides, v);
  }

  lemma EntriesAgree(g: Graph, b: Budgets, s: State, t: State, content: seq<Tree>, target: Id, base: Resolved)
    requires Valid(g, b, s) && Good(g, b, s, target, base) && base.node.Branch? && content == base.node.content
    requires Extends(s, t)
    ensures ChildEntries(t, content)
  {
    hide *;
    GoodParts(g, b, s, target, base);
    IndexedChildren(g, b, s, base.node);
    AllIndexedExtends(s, t, content);
    IndexedEntries(t, content);
  }

  lemma IndexedEntries(s: State, content: seq<Tree>)
    requires AllIndexed(s, content)
    ensures ChildEntries(s, content)
  {
    forall i | 0 <= i < |content| ensures Entry(s, content[i]).node == content[i] {
      assert Indexed(s, content[i]);
    }
  }

  // ---------------------------------------------------- facts about resolving

  lemma NodeShape(g: Graph, n: Id)
    requires Scanned(g) && n in g.nodes
    ensures var node := g.nodes[n].node;
            node.AliasNode? ==> node.target in g.nodes && DocOf(g, node.target) == DocOf(g, n)
  {
    assert ScannedNode(g, n);
    hide Scanned, ScannedMapping, HeightAt;
  }

  lemma ReferenceShape(g: Graph, n: Id, content: seq<Id>)
    requires n in g.nodes && g.nodes[n].node == MappingNode(content) && Field(g, content, REF).Some?
    ensures Refers(g, n, content, Field(g, content, REF).value)
  {
    hide Field;
  }

  lemma PlainShape(g: Graph, n: Id, mapping: bool, content: seq<Id>)
    requires Scanned(g) && n in g.nodes
    requires if mapping then g.nodes[n].node == MappingNode(content) && Field(g, content, REF) == None
             else g.nodes[n].node == SequenceNode(content)
    ensures Plainly(g, n, mapping, content) && (mapping ==> |content| % 2 == 0)
  {
    assert ScannedNode(g, n);
    hide Scanned, Field, Below, End, Texts, NoDuplicates;
  }

  lemma PlainChildren(g: Graph, stack: set<Id>, n: Id, mapping: bool, content: seq<Id>, doc: nat)
    requires Scanned(g) && Plainly(g, n, mapping, content) && DocOf(g, n) == doc && Stack(g, stack, n)
    ensures Needed(g, stack + {n}, n, doc, content)
  {
    assert n in g.nodes && (NodeAt(g, n) == MappingNode(content) || NodeAt(g, n) == SequenceNode(content)) by {
      hide Field;
    }
    hide *;
    forall i | 0 <= i < |content|
      ensures content[i] in g.nodes && DocOf(g, content[i]) == doc && Needs(g, n, content[i], 1)
           && Stack(g, stack + {n}, content[i])
    {
      ChildOf(g, n, content, i);
      ContentNeeds(g, n, mapping, content, i);
      StackPush(g, stack, n, content[i]);
    }
    NeededBy(g, stack + {n}, n, doc, content);
  }

  lemma Failed(g: Graph, b: Budgets, n: Id, depth: nat, s: State, t: State, e: LoadError)
    requires Valid(g, b, t) && Extends(s, t) && t.active == s.active && (Semantic(e) ==> Meaningless(g, n))
    ensures Outcome(g, b, n, depth, s, t, Failure(e))
  {
    hide Valid, Extends, Meaningless;
  }

  lemma Reused(g: Graph, b: Budgets, n: Id, depth: nat, s: State, t: State, x: Resolved)
    requires Valid(g, b, t) && Extends(s, t) && t.active == s.active && Good(g, b, s, n, x)
    requires s.expandedNodes + x.nodes <= t.expandedNodes && x.height + depth <= b.depth + 1
    ensures Outcome(g, b, n, depth, s, t, Success(x))
  {
    hide Valid, Extends, Good;
    GoodExtends(g, b, s, t, n, x);
  }

  /** The set of nodes being resolved does not concern the cache. */
  lemma ActiveIsFree(g: Graph, b: Budgets, s: State, t: State)
    requires Valid(g, b, s) && t == State(s.resolved, s.indexed, t.active, s.expandedNodes, s.nextNode)
    ensures Valid(g, b, t) && Extends(s, t)
  {
    hide Means, Exact, Plain;
    forall id | id in t.indexed ensures IndexEntry(b, t, id) {
      assert IndexEntry(b, s, id);
    }
    forall n | n in t.resolved ensures Good(g, b, t, n, t.resolved[n]) {
      assert Good(g, b, s, n, s.resolved[n]);
    }
  }

  lemma ReadyIsFree(g: Graph, b: Budgets, s: State, t: State, n: Id, x: Resolved)
    requires Ready(g, b, s, n, x) && t == State(s.resolved, s.indexed, t.active, s.expandedNodes, s.nextNode)
    ensures Ready(g, b, t, n, x)
  {
    hide Means, Exact, Plain;
  }

  lemma StoredFields(s: State, n: Id, x: Resolved)
    ensures Stored(s, n, x) == State(s.resolved[n := x], if x.node.id in s.indexed then s.indexed else s.indexed[x.node.id := x],
                                     s.active, s.expandedNodes, s.nextNode)
  {
  }

  lemma Finished(g: Graph, b: Budgets, n: Id, depth: nat, s: State, t: State, x: Resolved)
    requires Valid(g, b, Stored(t, n, x)) && Good(g, b, Stored(t, n, x), n, x) && Extends(s, Stored(t, n, x))
    requires t.active == s.active && s.expandedNodes + x.nodes <= t.expandedNodes && x.height + depth <= b.depth + 1
    ensures Outcome(g, b, n, depth, s, Stored(t, n, x), Success(x))
  {
    hide Valid, Extends, Good;
  }

  // -------------------------------------------------------------------- load

  /**
   A loaded policy is the inlined and overridden source, fit for the decoder, written in exactly the
   announced number of bytes and within every budget; a semantic failure means that there is no such tree.
   */
  ghost predicate Loaded(g: Graph, b: Budgets, root: Id, before: Bytes, after: Bytes, r: Result<Resolved, LoadError>) {
    match r
    case Success(x) =>
      var v := Plain(x.node);
      && Means(g, root, v) && Assembled(v) && after == before + Json(v)
      && x.size == |Json(v)| <= b.assembledBytes && x.nodes == NodeCount(v) <= b.expandedNodes
      && Levels(v) <= x.height <= b.depth
    case Failure(e) => after == before && (Semantic(e) ==> Meaningless(g, root))
  }

  lemma EmptyState(g: Graph, b: Budgets, doc: nat)
    requires Scanned(g) && doc in g.roots
    ensures Valid(g, b, State(map[], map[], {}, 0, 0)) && Stack(g, {}, g.roots[doc]) && Tight(g, State(map[], map[], {}, 0, 0))
    ensures g.roots[doc] in g.nodes && DocOf(g, g.roots[doc]) == doc
  {
    hide ScannedNode;
  }

  lemma LoadedParts(
    g: Graph, b: Budgets, root: Id, s: State, t: State, r: Result<Resolved, LoadError>, data: Bytes
  )
    requires Scanned(g) && Outcome(g, b, root, 1, s, t, r)
    ensures r.Success? ==> EvenMappings(Plain(r.value.node))
    ensures r.Failure? ==> Loaded(g, b, root, data, data, r)
  {
    hide Valid, Extends, Good, Meaningless, Means, Assembled, EvenMappings, Json, NodeCount, Levels, Plain;
    if r.Success? {
      GoodParts(g, b, t, root, r.value);
      MeansAssembled(g, root, Plain(r.value.node));
      AssembledEven(Plain(r.value.node));
    }
  }

  lemma {:induction false} AssembledEven(v: Value)
    requires Assembled(v)
    ensures EvenMappings(v)
  {
    hide AllKeys, NoDuplicates, HasText, Keys;
    if v.Container? {
      forall i | 0 <= i < |v.content| ensures EvenMappings(v.content[i]) {
        AssembledEven(v.content[i]);
      }
    }
  }

  lemma LoadedBy(g: Graph, b: Budgets, root: Id, s: State, t: State, x: Resolved, before: Bytes)
    requires Scanned(g) && Outcome(g, b, root, 1, s, t, Success(x))
    ensures Loaded(g, b, root, before, before + Json(Plain(x.node)), Success(x))
  {
    hide Valid, Extends, Good, Meaningless, Means, Assembled, Json, NodeCount, Levels, Plain;
    GoodParts(g, b, t, root, x);
    MeansAssembled(g, root, Plain(x.node));
    WithinBudget(g, b, t);
  }

  lemma LoadExcused(g: Graph, b: Budgets, root: Id, s: State, t: State, r: Result<Resolved, LoadError>)
    requires Outcome(g, b, root, 1, s, t, r) && Settled(g, b, root, 1, s, t, r) && s.expandedNodes == 0
    ensures r.Failure? ==> !Affordable(g, b, root)
  {
    hide Outcome, Settled, Affordable, Excused;
    OutcomeParts(g, b, root, 1, s, t, r);
    SettledParts(g, b, root, 1, s, t, r);
    if r.Failure? {
      ExcusedIsUnaffordable(g, b, root, r.error);
    }
  }

  lemma NotSettled(g: Graph, b: Budgets, n: Id, depth: nat, s: State, t: State, e: LoadError)
    requires Tight(g, t) && Excused(g, b, n, depth, s.expandedNodes, e)
    ensures Settled(g, b, n, depth, s, t, Failure(e))
  {
    hide Tight, Excused;
  }

  lemma CachedSettled(g: Graph, b: Budgets, n: Id, depth: nat, s: State, t: State, x: Resolved)
    requires Tight(g, t) && Low(g, n, x.height) && AtMost(t, x) && Paid(g, n, s.expandedNodes, t.expandedNodes)
    ensures Settled(g, b, n, depth, s, t, Success(x))
  {
    hide Tight, Low, Paid, AtMost;
  }

  lemma FreshSettledParts(g: Graph, b: Budgets, n: Id, depth: nat, s: State, t: State, r: Result<Resolved, LoadError>)
    requires FreshSettled(g, b, n, depth, s, t, r, 0)
    ensures Tight(g, t)
    ensures r.Success? ==> Low(g, n, r.value.height) && Storable(t, r.value) && Paid(g, n, s.expandedNodes, t.expandedNodes)
    ensures r.Failure? ==> Excused(g, b, n, depth, s.expandedNodes, r.error)
  {
    hide Tight, Low, Paid, Storable, Excused;
  }

  lemma FailedRaise(g: Graph, b: Budgets, n: Id, depth: nat, s: State, t: State, e: LoadError)
    requires FreshSettled(g, b, n, depth, s, t, Failure(e), 1)
    ensures FreshSettled(g, b, n, depth, s, t, Failure(e), 0)
  {
    hide Tight, Excused;
  }

  lemma StorableSame(s: State, t: State, x: Resolved)
    requires Storable(s, x) && t.indexed == s.indexed
    ensures Storable(t, x)
  {
    hide Above;
    if x.node.id !in s.indexed {
      AboveSame(s, t, x.node, x.height);
    }
  }

  lemma AboveSame(s: State, t: State, tree: Tree, height: nat)
    requires Above(s, tree, height) && t.indexed == s.indexed
    ensures Above(t, tree, height)
  {
  }

  /** The merged children's container is what the reference means. */
  lemma OverriddenMeans(
    g: Graph, b: Budgets, n: Id, content: seq<Id>, ref: Id, overrides: seq<Id>, target: Id, t: State, u: State,
    base: Resolved, over: seq<Resolved>
  )
    requires Scanned(g) && Refers(g, n, content, ref) && Overrides(g, content, overrides) && RefTarget(g, n, ref) == Some(target)
    requires Valid(g, b, t) && Good(g, b, t, target, base) && base.node.Branch? && base.node.mapping
    requires Partly(g, b, overrides, t, u, over)
    ensures Means(g, n, Container(true, Map(Overridden(Entries(u, base.node.content), over, KeyOf), ValueOf)))
  {
    hide *;
    var rs := Entries(u, base.node.content);
    PartlyParts(g, b, overrides, t, u, over);
    BaseEntries(g, b, t, u, target, base);
    AllGoodMeans(g, b, u, overrides, over);
    OverrideMeans(g, n, content, ref, overrides, Map(rs, ValueOf), Map(over, ValueOf));
    KeysAgree();
    MapOverridden(rs, over, ValueOf, KeyOf, ValueKey);
  }

  lemma FreshBy(g: Graph, b: Budgets, n: Id, depth: nat, s: State, t: State, x: Resolved)
    requires Tight(g, t) && Low(g, n, x.height) && Storable(t, x) && Paid(g, n, s.expandedNodes, t.expandedNodes)
    ensures FreshSettled(g, b, n, depth, s, t, Success(x), 0)
  {
    hide Tight, Low, Paid, Storable;
  }
}
