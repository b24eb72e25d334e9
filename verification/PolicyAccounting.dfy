/**
 The state of the policy loader and the accounting it keeps for every assembled node
 (internal/config/load.go): nodes, bytes and an upper bound of the height.
 */
module PolicyAccounting {
  import opened Wrappers
  import opened JsonText
  import opened Sequences
  import opened PolicyJson
  import opened PolicyOverride
  import opened PolicyGraph

  // -------------------------------------------------------------------- data

  /** An assembled node: immutable, shared, and identified by `id` as a pointer identifies it. */
  datatype Tree = Leaf(id: nat, scalar: Scalar) | Branch(id: nat, mapping: bool, content: seq<Tree>)

  /** resolvedPolicyNode. */
  datatype Resolved = Resolved(node: Tree, nodes: nat, size: nat, height: nat)

  datatype Budgets = Budgets(depth: nat, expandedNodes: nat, assembledBytes: nat)

  datatype LoadError =
    | DepthLimit | ExpansionLimit | AssembledLimit
    | RefCycle | RefTargetMissing | OverrideTarget | IntegerRange

  /** Errors that say something about the policy, not about a budget. */
  predicate Semantic(e: LoadError) {
    e.RefCycle? || e.RefTargetMissing? || e.OverrideTarget? || e.IntegerRange?
  }

  /** The tree without its identities. */
  function Plain(t: Tree): Value
    decreases t, 0
  {
    match t
    case Leaf(_, scalar) => Atom(scalar)
    case Branch(_, mapping, content) => Container(mapping, PlainAll(content))
  }

  function PlainAll(content: seq<Tree>): (values: seq<Value>)
    ensures |values| == |content|
    decreases content, 1
  {
    if content == [] then [] else PlainAll(content[..|content| - 1]) + [Plain(content[|content| - 1])]
  }

  function NodeCount(v: Value): nat
    decreases v, 0
  {
    match v
    case Atom(_) => 1
    case Container(_, content) => 1 + CountAll(content)
  }

  function CountAll(content: seq<Value>): nat
    decreases content, 1
  {
    if content == [] then 0 else CountAll(content[..|content| - 1]) + NodeCount(content[|content| - 1])
  }

  /** The number of levels of a tree. */
  function Levels(v: Value): (levels: nat)
    ensures levels >= 1
    decreases v, 0
  {
    match v
    case Atom(_) => 1
    case Container(_, content) => 1 + LevelsOfAll(content)
  }

  function LevelsOfAll(content: seq<Value>): nat
    decreases content, 1
  {
    if content == [] then 0
    else
      var before, last := LevelsOfAll(content[..|content| - 1]), Levels(content[|content| - 1]);
      if before >= last then before else last
  }

  /** The accounting agrees with the tree: exact nodes, exact bytes, a height that is an upper bound. */
  predicate Exact(b: Budgets, r: Resolved) {
    var v := Plain(r.node);
    r.nodes == NodeCount(v) && r.size == |Json(v)| <= b.assembledBytes && Levels(v) <= r.height
  }

  // ------------------------------------------------------------------- state

  /** The loader's fields; `resolved` and `indexed` are its one cache, split by kind of key. */
  datatype State = State(
    resolved: map<Id, Resolved>, indexed: map<nat, Resolved>, active: set<Id>, expandedNodes: nat, nextNode: nat)

  predicate Indexed(s: State, t: Tree) {
    t.id in s.indexed && s.indexed[t.id].node == t
  }

  predicate ChildrenIndexed(s: State, t: Tree) {
    t.Branch? ==> forall i :: 0 <= i < |t.content| ==> Indexed(s, t.content[i])
  }

  predicate IndexEntry(b: Budgets, s: State, id: nat) {
    id in s.indexed && id < s.nextNode && s.indexed[id].node.id == id && Exact(b, s.indexed[id])
    && ChildrenIndexed(s, s.indexed[id].node)
  }

  /** A result stands for a source node, is exactly accounted for, and can be reused by an override. */
  ghost predicate Good(g: Graph, b: Budgets, s: State, n: Id, r: Resolved) {
    Means(g, n, Plain(r.node)) && Exact(b, r) && Indexed(s, r.node)
  }

  ghost predicate Valid(g: Graph, b: Budgets, s: State) {
    && s.expandedNodes <= b.expandedNodes
    && (forall id :: id in s.indexed ==> IndexEntry(b, s, id))
    && (forall n :: n in s.resolved ==> Good(g, b, s, n, s.resolved[n]))
  }

  /** Nothing assembled is changed or forgotten, and nothing charged is given back. */
  predicate Extends(s: State, t: State) {
    && (forall id :: id in s.indexed ==> id in t.indexed && t.indexed[id] == s.indexed[id])
    && s.nextNode <= t.nextNode && s.expandedNodes <= t.expandedNodes
  }

  /** Every node being resolved needs n, so meeting one again is a cycle. */
  ghost predicate Stack(g: Graph, active: set<Id>, n: Id) {
    forall m :: m in active ==> exists k: nat :: k >= 1 && Needs(g, m, n, k)
  }

  /**
   What a call of `resolve` promises: success gives the node's meaning, exactly accounted for and
   charged; a semantic failure means that the node has no meaning.
   */
  ghost predicate Outcome(
    g: Graph, b: Budgets, n: Id, depth: nat, s: State, t: State, r: Result<Resolved, LoadError>
  ) {
    && Valid(g, b, t) && Extends(s, t) && t.active == s.active
    && match r
       case Success(x) =>
         Good(g, b, t, n, x) && s.expandedNodes + x.nodes <= t.expandedNodes && x.height + depth <= b.depth + 1
       case Failure(e) => Semantic(e) ==> Meaningless(g, n)
  }

  // --------------------------------------------------------- facts about state

  lemma ExtendsTransitive(s: State, t: State, u: State)
    requires Extends(s, t) && Extends(t, u)
    ensures Extends(s, u)
  {
  }

  lemma ExtendsSelf(s: State)
    ensures Extends(s, s)
  {
  }

  lemma GoodExtends(g: Graph, b: Budgets, s: State, t: State, n: Id, r: Resolved)
    requires Good(g, b, s, n, r) && Extends(s, t)
    ensures Good(g, b, t, n, r)
  {
    hide Means, Exact, Plain;
  }

  lemma StackPush(g: Graph, active: set<Id>, n: Id, c: Id)
    requires Stack(g, active, n) && Needs(g, n, c, 1)
    ensures Stack(g, active + {n}, c)
  {
    hide Needs;
    forall m | m in active + {n} ensures exists k: nat :: k >= 1 && Needs(g, m, c, k) {
      if m in active {
        var k: nat :| k >= 1 && Needs(g, m, n, k);
        NeedsMore(g, m, n, c, k);
      }
    }
  }

  lemma StackCycle(g: Graph, active: set<Id>, n: Id)
    requires Stack(g, active, n) && n in active
    ensures Meaningless(g, n)
  {
    hide Needs, Meaningless;
    var k: nat :| k >= 1 && Needs(g, n, n, k);
    CyclesAreMeaningless(g, n, k);
  }

  lemma Cached(g: Graph, b: Budgets, s: State, n: Id)
    requires Valid(g, b, s) && n in s.resolved
    ensures Good(g, b, s, n, s.resolved[n]) && s.expandedNodes <= b.expandedNodes
  {
    hide IndexEntry, Good;
  }

  // ------------------------------------------------------------- one new node

  /** A result that is about to enter the cache: its node is known, or new with known children. */
  ghost predicate Ready(g: Graph, b: Budgets, s: State, n: Id, r: Resolved) {
    && Means(g, n, Plain(r.node)) && Exact(b, r) && r.node.id < s.nextNode
    && (if r.node.id in s.indexed then s.indexed[r.node.id].node == r.node else ChildrenIndexed(s, r.node))
  }

  /** The state after `resolve` has stored its result. */
  function Stored(s: State, n: Id, r: Resolved): State {
    State(s.resolved[n := r], if r.node.id in s.indexed then s.indexed else s.indexed[r.node.id := r],
          s.active, s.expandedNodes, s.nextNode)
  }

  lemma StoredIsValid(g: Graph, b: Budgets, s: State, n: Id, r: Resolved)
    requires Valid(g, b, s) && Ready(g, b, s, n, r)
    ensures Valid(g, b, Stored(s, n, r)) && Extends(s, Stored(s, n, r)) && Good(g, b, Stored(s, n, r), n, r)
  {
    hide Means, Exact, Plain;
    var t := Stored(s, n, r);
    assert Extends(s, t);
    forall id | id in t.indexed ensures IndexEntry(b, t, id) {
      if id in s.indexed {
        assert IndexEntry(b, s, id);
      }
    }
    forall m | m in t.resolved ensures Good(g, b, t, m, t.resolved[m]) {
      if m != n {
        assert Good(g, b, s, m, s.resolved[m]);
      }
    }
  }

  // -------------------------------------------------------------- containers

  function NodeOf(r: Resolved): Tree {
    r.node
  }

  function ValueOf(r: Resolved): Value {
    Plain(r.node)
  }

  /** The key text of an assembled scalar. */
  function KeyOf(r: Resolved): string {
    if r.node.Leaf? then r.node.scalar.value else ""
  }

  lemma KeysAgree()
    ensures SameKeys(ValueOf, KeyOf, ValueKey)
  {
  }

  lemma {:induction false} PlainNodes(rs: seq<Resolved>)
    ensures PlainAll(Map(rs, NodeOf)) == Map(rs, ValueOf)
  {
    hide Plain;
    if rs != [] {
      PlainNodes(rs[..|rs| - 1]);
      var nodes := Map(rs, NodeOf);
      assert nodes[..|nodes| - 1] == Map(rs[..|rs| - 1], NodeOf);
    }
  }

  ghost predicate AllExact(b: Budgets, s: State, rs: seq<Resolved>) {
    forall i :: 0 <= i < |rs| ==> Exact(b, rs[i]) && Indexed(s, rs[i].node)
  }

  lemma MapStep<A, B>(s: seq<A>, f: A -> B, i: nat)
    requires i < |s|
    ensures Map(s[..i + 1], f) == Map(s[..i], f) + [f(s[i])]
    ensures s[..|s|] == s && Map(s[..0], f) == []
  {
    assert s[..i + 1][..i] == s[..i];
  }

  lemma MapEnds<A, B>(s: seq<A>, f: A -> B)
    ensures s[..|s|] == s && Map(s[..0], f) == []
  {
  }

  lemma CountStep(content: seq<Value>, v: Value)
    ensures CountAll(content + [v]) == CountAll(content) + NodeCount(v)
    ensures TotalSize(content + [v]) == TotalSize(content) + |Json(v)|
    ensures LevelsOfAll(content + [v]) == if LevelsOfAll(content) >= Levels(v) then LevelsOfAll(content) else Levels(v)
  {
    hide NodeCount, Json, Levels;
    assert (content + [v])[..|content + [v]| - 1] == content;
  }

  lemma CountNothing()
    ensures CountAll([]) == 0 && TotalSize([]) == 0 && LevelsOfAll([]) == 0
  {
  }

  lemma ExactParts(b: Budgets, r: Resolved)
    ensures Exact(b, r) == (r.nodes == NodeCount(ValueOf(r)) && r.size == |Json(ValueOf(r))| <= b.assembledBytes
                            && Levels(ValueOf(r)) <= r.height)
  {
    hide Plain, NodeCount, Json, Levels;
  }

  lemma AllExactAt(b: Budgets, s: State, rs: seq<Resolved>, i: nat)
    requires AllExact(b, s, rs) && i < |rs|
    ensures Exact(b, rs[i])
  {
    hide Exact, Indexed;
  }

  /** The totals over a list of results. */
  datatype Totals = Totals(nodes: int, size: int, height: int)

  ghost predicate Totalled(rs: seq<Resolved>, i: nat, n: nat, totals: Totals) {
    i <= |rs|
    && var values := Map(rs[..i], ValueOf);
       && totals.nodes == 1 + CountAll(values)
       && totals.size == 2 + (if n == 0 then 0 else n - 1) + TotalSize(values)
       && 1 + LevelsOfAll(values) <= totals.height
  }

  lemma TotalledStart(rs: seq<Resolved>, n: nat)
    ensures Totalled(rs, 0, n, Totals(1, if n == 0 then 2 else 2 + (n - 1), 1))
  {
    hide Map, CountAll, TotalSize, LevelsOfAll;
    MapEnds(rs, ValueOf);
    CountNothing();
  }

  lemma TotalledStep(b: Budgets, rs: seq<Resolved>, i: nat, n: nat, totals: Totals)
    requires Totalled(rs, i, n, totals) && i < |rs| && Exact(b, rs[i])
    ensures Totalled(rs, i + 1, n, Totals(totals.nodes + rs[i].nodes, totals.size + rs[i].size,
                                         if totals.height >= rs[i].height + 1 then totals.height else rs[i].height + 1))
  {
    hide Map, CountAll, TotalSize, LevelsOfAll, Exact, NodeCount, Json, Levels, ValueOf;
    ExactParts(b, rs[i]);
    MapStep(rs, ValueOf, i);
    CountStep(Map(rs[..i], ValueOf), ValueOf(rs[i]));
  }

  /** The totals of all children are the container's exact accounting. */
  lemma TotalledExact(b: Budgets, rs: seq<Resolved>, totals: Totals, id: nat, mapping: bool)
    requires Totalled(rs, |rs|, |rs|, totals) && totals.size <= b.assembledBytes
    requires mapping ==> |rs| % 2 == 0
    ensures totals.nodes >= 1 && totals.size >= 0 && totals.height >= 1
    ensures Exact(b, Resolved(Branch(id, mapping, Map(rs, NodeOf)), totals.nodes, totals.size, totals.height))
    ensures Plain(Branch(id, mapping, Map(rs, NodeOf))) == Container(mapping, Map(rs, ValueOf))
    ensures totals.nodes == 1 + CountAll(Map(rs, ValueOf))
  {
    hide *;
    MapEnds(rs, ValueOf);
    PlainNodes(rs);
    MapLength(rs);
    TotalledParts(rs, |rs|, |rs|, totals);
    PlainBranch(id, mapping, Map(rs, NodeOf), Map(rs, ValueOf));
    ContainerSize(mapping, Map(rs, ValueOf));
    ExactParts(b, Resolved(Branch(id, mapping, Map(rs, NodeOf)), totals.nodes, totals.size, totals.height));
    ValueOfParts(Resolved(Branch(id, mapping, Map(rs, NodeOf)), totals.nodes, totals.size, totals.height));
  }

  lemma TotalledParts(rs: seq<Resolved>, i: nat, n: nat, totals: Totals)
    requires Totalled(rs, i, n, totals)
    ensures i <= |rs| && totals.nodes == 1 + CountAll(Map(rs[..i], ValueOf)) && totals.nodes >= 1
    ensures totals.size == 2 + (if n == 0 then 0 else n - 1) + TotalSize(Map(rs[..i], ValueOf)) && totals.size >= 0
    ensures 1 + LevelsOfAll(Map(rs[..i], ValueOf)) <= totals.height && totals.height >= 1
  {
    hide Map, CountAll, TotalSize, LevelsOfAll;
  }

  lemma PlainBranch(id: nat, mapping: bool, content: seq<Tree>, values: seq<Value>)
    requires PlainAll(content) == values
    ensures Plain(Branch(id, mapping, content)) == Container(mapping, values)
    ensures NodeCount(Container(mapping, values)) == 1 + CountAll(values)
    ensures Levels(Container(mapping, values)) == 1 + LevelsOfAll(values)
  {
    hide PlainAll, CountAll, LevelsOfAll;
  }

  lemma ValueOfParts(r: Resolved)
    ensures ValueOf(r) == Plain(r.node)
  {
    hide Plain;
  }

  lemma MapLength(rs: seq<Resolved>)
    ensures |Map(rs, ValueOf)| == |rs| && (Map(rs, ValueOf) == [] <==> rs == [])
  {
  }

  /** What `container` promises: a new node over the children, one more charge, or a budget error. */
  ghost predicate Contained(
    b: Budgets, mapping: bool, children: seq<Resolved>, depth: nat, s: State, t: State, r: Result<Resolved, LoadError>
  ) {
    && t.resolved == s.resolved && t.indexed == s.indexed && t.active == s.active
    && s.nextNode <= t.nextNode && s.expandedNodes <= t.expandedNodes <= b.expandedNodes
    && match r
       case Success(x) =>
         && t.expandedNodes == s.expandedNodes + 1 && t.nextNode == s.nextNode + 1
         && x.node == Branch(s.nextNode, mapping, Map(children, NodeOf))
         && Plain(x.node) == Container(mapping, Map(children, ValueOf))
         && Exact(b, x) && x.nodes == 1 + CountAll(Map(children, ValueOf)) && x.height + depth <= b.depth + 1
       case Failure(e) => !Semantic(e)
  }

  lemma ContainedBy(
    b: Budgets, mapping: bool, children: seq<Resolved>, depth: nat, s: State, t: State, totals: Totals
  )
    requires Totalled(children, |children|, |children|, totals) && (mapping ==> |children| % 2 == 0)
    requires totals.size <= b.assembledBytes && totals.height + depth <= b.depth + 1
    requires t == State(s.resolved, s.indexed, s.active, s.expandedNodes + 1, s.nextNode + 1) && t.expandedNodes <= b.expandedNodes
    ensures totals.nodes >= 1 && totals.size >= 0 && totals.height >= 1
    ensures Contained(b, mapping, children, depth, s, t,
                      Success(Resolved(Branch(s.nextNode, mapping, Map(children, NodeOf)), totals.nodes, totals.size, totals.height)))
  {
    hide Map, CountAll, Exact, Plain, Totalled;
    TotalledExact(b, children, totals, s.nextNode, mapping);
  }

  lemma NotContained(b: Budgets, mapping: bool, children: seq<Resolved>, depth: nat, s: State, t: State, e: LoadError)
    requires t == s || t == State(s.resolved, s.indexed, s.active, s.expandedNodes + 1, s.nextNode)
    requires t.expandedNodes <= b.expandedNodes && !Semantic(e)
    ensures Contained(b, mapping, children, depth, s, t, Failure(e))
  {
  }

  lemma BudgetErrors()
    ensures !Semantic(DepthLimit) && !Semantic(ExpansionLimit) && !Semantic(AssembledLimit)
    ensures Semantic(RefCycle) && Semantic(RefTargetMissing) && Semantic(OverrideTarget) && Semantic(IntegerRange)
  {
  }

  // ---------------------------------------------------------------- children

  ghost predicate AllGood(g: Graph, b: Budgets, s: State, content: seq<Id>, rs: seq<Resolved>) {
    |rs| == |content| && forall i :: 0 <= i < |rs| ==> Good(g, b, s, content[i], rs[i])
  }

  lemma {:induction false} AllGoodMeans(g: Graph, b: Budgets, s: State, content: seq<Id>, rs: seq<Resolved>)
    requires AllGood(g, b, s, content, rs)
    ensures MeansAll(g, content, Map(rs, ValueOf)) && AllExact(b, s, rs)
    decreases |rs|
  {
    hide MeansAll, Means, Exact, Indexed, ValueOf;
    if rs == [] {
      MeansNothing(g);
    } else {
      var n := |rs| - 1;
      AllGoodMeans(g, b, s, content[..n], rs[..n]);
      ValueOfParts(rs[n]);
      MeansOneMore(g, content[..n], Map(rs[..n], ValueOf), content[n], ValueOf(rs[n]));
      assert content == content[..n] + [content[n]];
    }
  }

  /** The children of a node being resolved: it needs them, and so does everything on the stack. */
  ghost predicate Needed(g: Graph, active: set<Id>, n: Id, doc: nat, content: seq<Id>) {
    forall i :: 0 <= i < |content| ==>
      content[i] in g.nodes && DocOf(g, content[i]) == doc && Needs(g, n, content[i], 1) && Stack(g, active, content[i])
  }

  lemma NeededAt(g: Graph, active: set<Id>, n: Id, doc: nat, content: seq<Id>, i: nat)
    requires Needed(g, active, n, doc, content) && i < |content|
    ensures content[i] in g.nodes && DocOf(g, content[i]) == doc && Needs(g, n, content[i], 1) && Stack(g, active, content[i])
  {
    hide Needs, Stack;
  }

  /** The first children resolved so far. */
  ghost predicate Partly(g: Graph, b: Budgets, content: seq<Id>, s: State, t: State, rs: seq<Resolved>) {
    && Valid(g, b, t) && Extends(s, t) && t.active == s.active
    && AllGood(g, b, t, content, rs) && s.expandedNodes + CountAll(Map(rs, ValueOf)) <= t.expandedNodes
  }

  ghost predicate AllOutcome(
    g: Graph, b: Budgets, n: Id, content: seq<Id>, s: State, t: State, r: Result<seq<Resolved>, LoadError>
  ) {
    match r
    case Success(rs) => Partly(g, b, content, s, t, rs)
    case Failure(e) => Valid(g, b, t) && Extends(s, t) && t.active == s.active && (Semantic(e) ==> Meaningless(g, n))
  }

  lemma NoneYet(g: Graph, b: Budgets, content: seq<Id>, s: State)
    requires Valid(g, b, s)
    ensures Partly(g, b, content[..0], s, s, [])
  {
    hide Valid, Extends, Good;
    ExtendsSelf(s);
    CountNothing();
  }

  lemma OneMore(g: Graph, b: Budgets, content: seq<Id>, i: nat, depth: nat, s: State, t: State, u: State, rs: seq<Resolved>, x: Resolved)
    requires i < |content| && Partly(g, b, content[..i], s, t, rs)
    requires Outcome(g, b, content[i], depth, t, u, Success(x))
    ensures Partly(g, b, content[..i + 1], s, u, rs + [x])
  {
    hide Valid, Good, Extends, Exact, CountAll, NodeCount, Map;
    ExtendsTransitive(s, t, u);
    assert content[..i + 1][..i] == content[..i];
    forall j | 0 <= j <= i ensures Good(g, b, u, content[..i + 1][j], (rs + [x])[j]) {
      if j < i {
        assert Good(g, b, t, content[..i][j], rs[j]);
        GoodExtends(g, b, t, u, content[j], rs[j]);
      }
    }
    GoodCount(g, b, u, content[i], x);
    MapAppend(rs, x);
    CountStep(Map(rs, ValueOf), ValueOf(x));
  }

  lemma GoodCount(g: Graph, b: Budgets, s: State, n: Id, x: Resolved)
    requires Good(g, b, s, n, x)
    ensures x.nodes == NodeCount(ValueOf(x))
  {
    hide Exact, Means, NodeCount;
    ExactParts(b, x);
  }

  lemma MapAppend(rs: seq<Resolved>, x: Resolved)
    ensures Map(rs + [x], ValueOf) == Map(rs, ValueOf) + [ValueOf(x)]
  {
    hide ValueOf;
    assert (rs + [x])[..|rs + [x]| - 1] == rs;
  }

  lemma ChildFailed(
    g: Graph, b: Budgets, n: Id, content: seq<Id>, part: seq<Id>, c: Id, depth: nat, s: State, t: State, u: State,
    rs: seq<Resolved>, e: LoadError
  )
    requires Partly(g, b, part, s, t, rs) && Outcome(g, b, c, depth, t, u, Failure(e)) && Needs(g, n, c, 1)
    ensures AllOutcome(g, b, n, content, s, u, Failure(e))
  {
    hide Valid, Extends, Needs, Meaningless, AllGood, Map, CountAll;
    ExtendsTransitive(s, t, u);
    if Semantic(e) {
      NeededMeaning(g, n, c);
    }
  }

  lemma PartlyActive(g: Graph, b: Budgets, content: seq<Id>, s: State, t: State, rs: seq<Resolved>)
    requires Partly(g, b, content, s, t, rs)
    ensures Valid(g, b, t) && t.active == s.active && |rs| == |content|
  {
    hide Valid, Extends, Good, Map, CountAll;
  }

  // -------------------------------------------------------------- fresh nodes

  /** What resolving an uncached node promises before its result is stored. */
  ghost predicate FreshOutcome(g: Graph, b: Budgets, n: Id, s: State, t: State, r: Result<Resolved, LoadError>) {
    && Valid(g, b, t) && Extends(s, t) && t.active == s.active
    && match r
       case Success(x) => Ready(g, b, t, n, x) && s.expandedNodes + x.nodes <= t.expandedNodes
       case Failure(e) => Semantic(e) ==> Meaningless(g, n)
  }

  /** A state that differs only in what it has charged and numbered. */
  lemma ChargedIsValid(g: Graph, b: Budgets, s: State, t: State)
    requires Valid(g, b, s)
    requires t == State(s.resolved, s.indexed, s.active, t.expandedNodes, t.nextNode)
    requires s.expandedNodes <= t.expandedNodes <= b.expandedNodes && s.nextNode <= t.nextNode
    ensures Valid(g, b, t) && Extends(s, t)
  {
    hide Means, Exact, Plain;
    forall id | id in t.indexed ensures IndexEntry(b, t, id) {
      assert IndexEntry(b, s, id);
    }
    forall n | n in t.resolved ensures Good(g, b, t, n, t.resolved[n]) {
      assert Good(g, b, s, n, s.resolved[n]);
    }
  }

  lemma ContainerReady(
    g: Graph, b: Budgets, n: Id, mapping: bool, rs: seq<Resolved>, depth: nat, s: State, t: State, x: Resolved
  )
    requires Valid(g, b, s) && AllExact(b, s, rs) && Contained(b, mapping, rs, depth, s, t, Success(x))
    requires Means(g, n, Container(mapping, Map(rs, ValueOf)))
    ensures Valid(g, b, t) && Extends(s, t) && Ready(g, b, t, n, x)
  {
    hide Valid, AllExact, Means, Exact, Plain, Map, CountAll, Extends;
    ChargedIsValid(g, b, s, t);
    NewId(g, b, s);
    NodesIndexed(b, s, rs);
    assert ChildrenIndexed(t, x.node) by {
      forall i | 0 <= i < |x.node.content| ensures Indexed(t, x.node.content[i]) {
        assert Indexed(s, x.node.content[i]);
      }
    }
  }

  lemma NewId(g: Graph, b: Budgets, s: State)
    requires Valid(g, b, s)
    ensures s.nextNode !in s.indexed
  {
    hide Good, Exact;
    forall id | id in s.indexed ensures id != s.nextNode {
      assert IndexEntry(b, s, id);
    }
  }

  lemma NodesIndexed(b: Budgets, s: State, rs: seq<Resolved>)
    requires AllExact(b, s, rs)
    ensures forall i :: 0 <= i < |rs| ==> Indexed(s, Map(rs, NodeOf)[i])
  {
    hide Exact, Indexed;
    forall i | 0 <= i < |rs| ensures Indexed(s, Map(rs, NodeOf)[i]) {
      MapAt(rs, NodeOf, i);
    }
  }

  /** A sequence or plain mapping over its resolved children. */
  lemma PlainContainer(
    g: Graph, b: Budgets, n: Id, mapping: bool, content: seq<Id>, rs: seq<Resolved>, depth: nat,
    s: State, t: State, u: State, r: Result<Resolved, LoadError>
  )
    requires Plainly(g, n, mapping, content) && Partly(g, b, content, s, t, rs)
    requires Contained(b, mapping, rs, depth, t, u, r)
    ensures FreshOutcome(g, b, n, s, u, r)
  {
    hide *;
    PartlyParts(g, b, content, s, t, rs);
    AllGoodMeans(g, b, t, content, rs);
    ContentMeans(g, n, mapping, content, Map(rs, ValueOf));
    match r {
      case Success(x) => ContainerReady(g, b, n, mapping, rs, depth, t, u, x);
      case Failure(_) => 
    }
    PlainContainerBy(g, b, n, mapping, content, rs, depth, s, t, u, r);
  }

  lemma PartlyParts(g: Graph, b: Budgets, content: seq<Id>, s: State, t: State, rs: seq<Resolved>)
    requires Partly(g, b, content, s, t, rs)
    ensures Valid(g, b, t) && Extends(s, t) && t.active == s.active && AllGood(g, b, t, content, rs)
    ensures s.expandedNodes + CountAll(Map(rs, ValueOf)) <= t.expandedNodes
  {
    hide Valid, Extends, AllGood, Map, CountAll;
  }

  lemma PlainContainerBy(
    g: Graph, b: Budgets, n: Id, mapping: bool, content: seq<Id>, rs: seq<Resolved>, depth: nat,
    s: State, t: State, u: State, r: Result<Resolved, LoadError>
  )
    requires Valid(g, b, t) && Extends(s, t) && t.active == s.active
    requires s.expandedNodes + CountAll(Map(rs, ValueOf)) <= t.expandedNodes
    requires Contained(b, mapping, rs, depth, t, u, r)
    requires r.Success? ==> Ready(g, b, u, n, r.value)
    ensures FreshOutcome(g, b, n, s, u, r)
  {
    hide Valid, Extends, Map, CountAll, Exact, Plain, Ready, Meaningless;
    ChargedIsValid(g, b, t, u);
    ExtendsTransitive(s, t, u);
  }

  // --------------------------------------------------------------- overrides

  lemma {:induction false} CountConcat(a: seq<Value>, b: seq<Value>)
    ensures CountAll(a + b) == CountAll(a) + CountAll(b)
  {
    hide NodeCount;
    if b == [] {
      assert a + b == a;
    } else {
      var init, last := b[..|b| - 1], b[|b| - 1];
      assert a + b == (a + init) + [last];
      CountConcat(a, init);
      CountStep(a + init, last);
    }
  }

  lemma CountPair(a: seq<Value>, pair: seq<Value>)
    requires |pair| == 2
    ensures CountAll(a + pair) == CountAll(a) + NodeCount(pair[0]) + NodeCount(pair[1])
  {
    hide *;
    TwoSteps(a, pair);
    CountStep(a, pair[0]);
    CountStep(a + [pair[0]], pair[1]);
  }

  lemma TwoSteps(a: seq<Value>, pair: seq<Value>)
    requires |pair| == 2
    ensures a + pair == a + [pair[0]] + [pair[1]]
  {
  }

  /** The nodes of the override's pairs whose keys are listed. */
  function CountIn(over: seq<Value>, keys: seq<string>): nat {
    if |over| < 2 then 0
    else
      CountIn(over[..|over| - 2], keys)
      + (if ValueKey(over[|over| - 2]) in keys then NodeCount(over[|over| - 2]) + NodeCount(over[|over| - 1]) else 0)
  }

  function ChosenCount(over: seq<Value>, k: string): nat {
    var chosen := Chosen(over, ValueKey, k);
    if chosen.Some? then NodeCount(chosen.value.0) + NodeCount(chosen.value.1) else 0
  }

  lemma {:induction false} CountInGrows(over: seq<Value>, keys: seq<string>, k: string)
    ensures CountIn(over, keys + [k]) >= CountIn(over, keys)
    ensures k !in keys ==> CountIn(over, keys + [k]) >= CountIn(over, keys) + ChosenCount(over, k)
  {
    hide NodeCount, ValueKey;
    if |over| >= 2 {
      CountInGrows(over[..|over| - 2], keys, k);
    }
  }

  lemma {:induction false} CountAdded(base: seq<Value>, over: seq<Value>)
    requires |over| % 2 == 0
    ensures CountAll(Added(base, over, ValueKey)) + CountIn(over, Keys(base, ValueKey)) == CountAll(over)
    decreases |over|
  {
    if |over| < 2 {
      CountNothing();
    } else {
      var init, last := over[..|over| - 2], over[|over| - 2..];
      hide NodeCount, ValueKey, CountAll, Keys, Added;
      CountAdded(base, init);
      SplitEnd(over);
      AddedEnd(base, init, last, ValueKey);
      CountPair(init, last);
      CountPair(Added(base, init, ValueKey), last);
    }
  }

  lemma PickCount(over: seq<Value>, k: Value, v: Value)
    ensures var picked := Pick(over, ValueKey, k, v);
            NodeCount(picked[0]) + NodeCount(picked[1]) <= NodeCount(k) + NodeCount(v) + ChosenCount(over, ValueKey(k))
  {
    hide NodeCount, Chosen, ValueKey;
  }

  lemma {:induction false} CountReplaced(base: seq<Value>, over: seq<Value>)
    requires |base| % 2 == 0 && NoDuplicates(Keys(base, ValueKey))
    ensures CountAll(Replaced(base, over, ValueKey)) <= CountAll(base) + CountIn(over, Keys(base, ValueKey))
    decreases |base|
  {
    hide *;
    ReplacedEnd(base, over, ValueKey);
    if |base| < 2 {
      CountNothing();
    } else {
      var n := |base|;
      var init, last := base[..n - 2], base[n - 2..];
      var before, picked := Replaced(init, over, ValueKey), Pick(over, ValueKey, base[n - 2], base[n - 1]);
      SplitEnd(base);
      KeysEnd(init, last, ValueKey);
      NoDuplicatesEnd(Keys(init, ValueKey), ValueKey(last[0]));
      CountReplaced(init, over);
      CountPair(init, last);
      CountPair(before, picked);
      PickCount(over, base[n - 2], base[n - 1]);
      CountInGrows(over, Keys(init, ValueKey), ValueKey(last[0]));
    }
  }

  /** An overridden mapping has no more nodes than the base and the override together, which were charged. */
  lemma OverriddenCount(base: seq<Value>, over: seq<Value>)
    requires |base| % 2 == 0 && |over| % 2 == 0 && NoDuplicates(Keys(base, ValueKey))
    ensures CountAll(Overridden(base, over, ValueKey)) <= CountAll(base) + CountAll(over)
  {
    hide *;
    OverriddenParts(base, over, ValueKey);
    CountReplaced(base, over);
    CountAdded(base, over);
    CountConcat(Replaced(base, over, ValueKey), Added(base, over, ValueKey));
  }

  // ------------------------------------------------------------------- merge

  /** What the cache knows about an assembled child; the zero value when it knows nothing. */
  function Entry(s: State, t: Tree): Resolved {
    if t.id in s.indexed then s.indexed[t.id] else Resolved(t, 0, 0, 0)
  }

  function Entries(s: State, content: seq<Tree>): (rs: seq<Resolved>)
    ensures |rs| == |content|
  {
    if content == [] then [] else Entries(s, content[..|content| - 1]) + [Entry(s, content[|content| - 1])]
  }

  lemma {:induction false} EntryAt(s: State, content: seq<Tree>, i: nat)
    requires i < |content|
    ensures Entries(s, content)[i] == Entry(s, content[i])
  {
    hide Entry;
    if i < |content| - 1 {
      EntryAt(s, content[..|content| - 1], i);
    }
  }

  ghost predicate AllIndexed(s: State, content: seq<Tree>) {
    forall i :: 0 <= i < |content| ==> Indexed(s, content[i])
  }

  /** Every child of a cached node is in the cache under its own exact accounting. */
  lemma {:induction false} EntriesExact(g: Graph, b: Budgets, s: State, content: seq<Tree>)
    requires Valid(g, b, s) && AllIndexed(s, content)
    ensures AllExact(b, s, Entries(s, content)) && Map(Entries(s, content), ValueOf) == PlainAll(content)
    decreases |content|
  {
    hide Good, Exact, Plain, ChildrenIndexed;
    if content != [] {
      var n := |content| - 1;
      EntriesExact(g, b, s, content[..n]);
      assert Indexed(s, content[n]);
      assert IndexEntry(b, s, content[n].id);
      var rs := Entries(s, content);
      assert rs[..n] == Entries(s, content[..n]);
    }
  }

  lemma IndexedChildren(g: Graph, b: Budgets, s: State, t: Tree)
    requires Valid(g, b, s) && Indexed(s, t) && t.Branch?
    ensures AllIndexed(s, t.content) && Plain(t) == Container(t.mapping, PlainAll(t.content))
  {
    hide Good, Exact, PlainAll;
    assert IndexEntry(b, s, t.id);
  }

  lemma AllIndexedExtends(s: State, t: State, content: seq<Tree>)
    requires AllIndexed(s, content) && Extends(s, t)
    ensures AllIndexed(t, content)
  {
    forall i | 0 <= i < |content| ensures Indexed(t, content[i]) {
      assert Indexed(s, content[i]);
    }
  }

  /** The override's resolved keys and values, by key text. */
  datatype Fields = Fields(values: map<string, Resolved>, keys: map<string, Resolved>)

  ghost predicate FieldsHold(over: seq<Resolved>, fields: Fields) {
    && (forall k :: k in fields.values <==> Chosen(over, KeyOf, k).Some?)
    && (forall k :: k in fields.values ==>
          k in fields.keys && Chosen(over, KeyOf, k) == Some((fields.keys[k], fields.values[k])))
  }

  lemma NoFields()
    ensures FieldsHold([], Fields(map[], map[]))
  {
  }

  lemma FieldsMore(over: seq<Resolved>, fields: Fields, key: Resolved, value: Resolved, text: string)
    requires FieldsHold(over, fields) && KeyOf(key) == text
    ensures FieldsHold(over + [key, value], Fields(fields.values[text := value], fields.keys[text := key]))
  {
    hide KeyOf, Chosen;
    forall k: string ensures Chosen(over + [key, value], KeyOf, k)
                          == if KeyOf(key) == k then Some((key, value)) else Chosen(over, KeyOf, k) {
      ChosenEnd(over, [key, value], KeyOf, k);
    }
  }

  /** The override's pairs that the base has not used up to place i. */
  ghost predicate Unused(base: seq<Resolved>, over: seq<Resolved>, i: nat, keys: map<string, Resolved>, unused: map<string, Resolved>) {
    && i <= |base|
    && (forall k :: k in unused <==> Chosen(over, KeyOf, k).Some? && k !in Keys(base[..i], KeyOf))
    && (forall k :: k in unused ==> k in keys && Chosen(over, KeyOf, k) == Some((keys[k], unused[k])))
  }

  lemma UnusedStart(base: seq<Resolved>, over: seq<Resolved>, fields: Fields)
    requires FieldsHold(over, fields)
    ensures Unused(base, over, 0, fields.keys, fields.values)
  {
    hide KeyOf, Chosen;
    assert Keys(base[..0], KeyOf) == [];
  }

  lemma MergeBaseStep(
    base: seq<Resolved>, over: seq<Resolved>, i: nat, keys: map<string, Resolved>, unused: map<string, Resolved>, k: string
  )
    requires Unused(base, over, i, keys, unused) && i + 1 < |base| && i % 2 == 0 && |base| % 2 == 0
    requires NoDuplicates(Keys(base, KeyOf)) && k == KeyOf(base[i])
    ensures k in unused ==> k in keys
    ensures Replaced(base[..i + 2], over, KeyOf)
         == Replaced(base[..i], over, KeyOf) + (if k in unused then [keys[k], unused[k]] else [base[i], base[i + 1]])
    ensures Unused(base, over, i + 2, keys, if k in unused then unused - {k} else unused)
  {
    hide KeyOf, Chosen, Keys, Replaced, NoDuplicates;
    ReplacedStep(base, over, KeyOf, i);
    KeyIsNew(base, KeyOf, i);
  }

  lemma MergeNewStep(
    base: seq<Resolved>, over: seq<Resolved>, i: nat, keys: map<string, Resolved>, unused: map<string, Resolved>, k: string
  )
    requires Unused(base, over, |base|, keys, unused) && i + 1 < |over| && i % 2 == 0 && |over| % 2 == 0
    requires NoDuplicates(Keys(over, KeyOf)) && k == KeyOf(over[i])
    ensures k in unused ==> k in keys
    ensures Added(base, over[..i + 2], KeyOf)
         == if k in unused then Added(base, over[..i], KeyOf) + [keys[k], unused[k]] else Added(base, over[..i], KeyOf)
  {
    hide KeyOf, Chosen, Keys, Added, NoDuplicates;
    AddedStep(base, over, KeyOf, i);
    KeyIsNew(over, KeyOf, i);
    WholePairs(base, KeyOf, over);
  }

  /** The override's resolved pairs line up with the source's keys. */
  ghost predicate TextsMatch(g: Graph, overrides: seq<Id>, over: seq<Resolved>) {
    && |over| == |overrides| && |over| % 2 == 0
    && forall i :: 0 <= i < |over| && i % 2 == 0 ==> KeyOf(over[i]) == KeyText(g, overrides[i])
  }

  lemma {:induction false} TextsAreKeys(g: Graph, overrides: seq<Id>, over: seq<Resolved>)
    requires TextsMatch(g, overrides, over)
    ensures Keys(over, KeyOf) == Texts(g, overrides)
    decreases |over|
  {
    hide KeyOf, KeyText;
    if |over| >= 2 {
      var n := |over| - 2;
      assert KeyOf(over[n]) == KeyText(g, overrides[n]);
      var o, r := overrides[..n], over[..n];
      forall i | 0 <= i < |r| && i % 2 == 0 ensures KeyOf(r[i]) == KeyText(g, o[i]) {
        assert r[i] == over[i];
      }
      TextsAreKeys(g, o, r);
    }
  }

  /** A resolved key carries its source's text. */
  lemma KeyResolved(g: Graph, b: Budgets, s: State, n: Id, r: Resolved)
    requires Good(g, b, s, n, r) && NodeAt(g, n).ScalarNode?
    ensures KeyOf(r) == KeyText(g, n)
  {
    hide Meaning, Exact;
    var fuel: nat :| Meaning(g, n, fuel) == Some(Plain(r.node));
    ScalarMeaning(g, n, fuel);
  }

  // --------------------------------------------------- facts for the overrides

  /** A pair of an override: its value is resolved before its key. */
  lemma PairMore(
    g: Graph, b: Budgets, overrides: seq<Id>, i: nat, depth: nat, s: State, t: State, u: State, w: State,
    over: seq<Resolved>, key: Resolved, value: Resolved
  )
    requires i + 1 < |overrides| && Partly(g, b, overrides[..i], s, t, over)
    requires Outcome(g, b, overrides[i + 1], depth, t, u, Success(value))
    requires Outcome(g, b, overrides[i], depth, u, w, Success(key))
    ensures Partly(g, b, overrides[..i + 2], s, w, over + [key, value])
  {
    hide Valid, Good, Extends, Exact, CountAll, NodeCount, Map, ValueOf;
    ExtendsTransitive(s, t, u);
    ExtendsTransitive(s, u, w);
    ExtendsTransitive(t, u, w);
    PairAt(overrides, i);
    var content, rs := overrides[..i + 2], over + [key, value];
    GoodExtends(g, b, u, w, overrides[i + 1], value);
    forall j | 0 <= j < |rs| ensures Good(g, b, w, content[j], rs[j]) {
      if j < i {
        assert Good(g, b, t, overrides[..i][j], over[j]);
        GoodExtends(g, b, t, w, overrides[j], over[j]);
      }
    }
    GoodCount(g, b, w, overrides[i], key);
    GoodCount(g, b, w, overrides[i + 1], value);
    MapConcat(over, [key, value], ValueOf);
    MapPair(key, value, ValueOf);
    CountPair(Map(over, ValueOf), [ValueOf(key), ValueOf(value)]);
  }

  lemma PairFailed(
    g: Graph, b: Budgets, n: Id, content: seq<Id>, part: seq<Id>, v: Id, k: Id, depth: nat,
    s: State, t: State, u: State, w: State, rs: seq<Resolved>, value: Resolved, e: LoadError
  )
    requires Partly(g, b, part, s, t, rs) && Outcome(g, b, v, depth, t, u, Success(value))
    requires Outcome(g, b, k, depth, u, w, Failure(e)) && Needs(g, n, k, 1)
    ensures AllOutcome(g, b, n, content, s, w, Failure(e))
  {
    hide Valid, Extends, Needs, Meaningless, AllGood, Map, CountAll, Good;
    ExtendsTransitive(s, t, u);
    ExtendsTransitive(s, u, w);
    if Semantic(e) {
      NeededMeaning(g, n, k);
    }
  }

  lemma OutcomeParts(g: Graph, b: Budgets, n: Id, depth: nat, s: State, t: State, r: Result<Resolved, LoadError>)
    requires Outcome(g, b, n, depth, s, t, r)
    ensures Valid(g, b, t) && Extends(s, t) && t.active == s.active
    ensures r.Success? ==> Good(g, b, t, n, r.value) && s.expandedNodes + r.value.nodes <= t.expandedNodes
    ensures r.Failure? && Semantic(r.error) ==> Meaningless(g, n)
  {
    hide Valid, Extends, Good, Meaningless;
  }

  lemma FreshParts(g: Graph, b: Budgets, n: Id, s: State, t: State, r: Result<Resolved, LoadError>)
    requires FreshOutcome(g, b, n, s, t, r)
    ensures Valid(g, b, t) && Extends(s, t) && t.active == s.active
    ensures r.Success? ==> Ready(g, b, t, n, r.value) && s.expandedNodes + r.value.nodes <= t.expandedNodes
    ensures r.Failure? && Semantic(r.error) ==> Meaningless(g, n)
  {
    hide Valid, Extends, Ready, Meaningless;
  }

  lemma FreshFailure(g: Graph, b: Budgets, n: Id, s: State, t: State, e: LoadError)
    requires Valid(g, b, t) && Extends(s, t) && t.active == s.active && (Semantic(e) ==> Meaningless(g, n))
    ensures FreshOutcome(g, b, n, s, t, Failure(e))
  {
    hide Valid, Extends, Meaningless;
  }

  /** A node that stands for the same tree as the one it leads to. */
  lemma SameTree(g: Graph, b: Budgets, n: Id, target: Id, s: State, t: State, x: Resolved)
    requires Valid(g, b, t) && Extends(s, t) && t.active == s.active && Good(g, b, t, target, x)
    requires s.expandedNodes + x.nodes <= t.expandedNodes
    requires Means(g, n, Plain(x.node))
    ensures FreshOutcome(g, b, n, s, t, Success(x.(height := x.height + 1)))
  {
    hide Extends, Exact, Means, Plain, ChildrenIndexed;
    Raised(b, x);
    assert IndexEntry(b, t, x.node.id);
  }

  lemma Raised(b: Budgets, x: Resolved)
    requires Exact(b, x)
    ensures Exact(b, x.(height := x.height + 1))
  {
    hide Plain, NodeCount, Json, Levels;
  }

  lemma ReadyRaised(g: Graph, b: Budgets, n: Id, s: State, t: State, x: Resolved)
    requires FreshOutcome(g, b, n, s, t, Success(x))
    ensures FreshOutcome(g, b, n, s, t, Success(x.(height := x.height + 1)))
  {
    hide Valid, Extends, Exact, Means, Plain, ChildrenIndexed;
    Raised(b, x);
  }

  /** The shape of an override's base, as the tree and as the cache's entries. */
  lemma BaseEntries(g: Graph, b: Budgets, s: State, t: State, target: Id, base: Resolved)
    requires Scanned(g) && Valid(g, b, s) && Good(g, b, s, target, base) && base.node.Branch? && base.node.mapping
    requires Valid(g, b, t) && Extends(s, t)
    ensures var rs := Entries(t, base.node.content);
            && |base.node.content| % 2 == 0 && NoDuplicates(Keys(rs, KeyOf)) && AllExact(b, t, rs)
            && Means(g, target, Container(true, Map(rs, ValueOf)))
            && base.nodes == 1 + CountAll(Map(rs, ValueOf)) && NoDuplicates(Keys(Map(rs, ValueOf), ValueKey))
  {
    hide *;
    var content := base.node.content;
    var rs := Entries(t, content);
    GoodParts(g, b, s, target, base);
    IndexedChildren(g, b, s, base.node);
    AllIndexedExtends(s, t, content);
    EntriesExact(g, b, t, content);
    MeansAssembled(g, target, Plain(base.node));
    AssembledShape(Map(rs, ValueOf));
    KeysAgree();
    MapKeys(rs, ValueOf, KeyOf, ValueKey);
    GoodCount(g, b, s, target, base);
    ValueOfParts(base);
    PlainBranch(0, true, content, Map(rs, ValueOf));
    MapLength(rs);
    EntriesLength(t, content);
  }

  lemma EntriesLength(s: State, content: seq<Tree>)
    ensures |Entries(s, content)| == |content|
  {
  }

  lemma GoodParts(g: Graph, b: Budgets, s: State, n: Id, r: Resolved)
    requires Good(g, b, s, n, r)
    ensures Means(g, n, Plain(r.node)) && Exact(b, r) && Indexed(s, r.node)
  {
    hide Means, Exact, Indexed, Plain;
  }

  lemma AssembledShape(values: seq<Value>)
    requires Assembled(Container(true, values))
    ensures |values| % 2 == 0 && NoDuplicates(Keys(values, ValueKey))
  {
    hide AllKeys, NoDuplicates, Keys;
  }

  /** The mapping rebuilt over base and override is the reference's meaning, within what was charged. */
  lemma OverriddenReady(
    g: Graph, b: Budgets, n: Id, content: seq<Id>, ref: Id, overrides: seq<Id>, target: Id, depth: nat,
    s: State, t: State, u: State, w: State, base: Resolved, over: seq<Resolved>, r: Result<Resolved, LoadError>
  )
    requires Scanned(g) && Refers(g, n, content, ref) && Overrides(g, content, overrides) && RefTarget(g, n, ref) == Some(target)
    requires Valid(g, b, t) && Extends(s, t) && t.active == s.active && Good(g, b, t, target, base)
    requires s.expandedNodes + base.nodes <= t.expandedNodes && base.node.Branch? && base.node.mapping
    requires Partly(g, b, overrides, t, u, over) && |over| % 2 == 0
    requires Contained(b, true, Overridden(Entries(u, base.node.content), over, KeyOf), depth, u, w, r)
    ensures FreshOutcome(g, b, n, s, w, r)
  {
    hide *;
    var rs := Entries(u, base.node.content);
    var children := Overridden(rs, over, KeyOf);
    PartlyParts(g, b, overrides, t, u, over);
    BaseEntries(g, b, t, u, target, base);
    AllGoodMeans(g, b, u, overrides, over);
    OverrideMeans(g, n, content, ref, overrides, Map(rs, ValueOf), Map(over, ValueOf));
    KeysAgree();
    MapOverridden(rs, over, ValueOf, KeyOf, ValueKey);
    MapLength(rs);
    MapLength(over);
    EntriesLength(u, base.node.content);
    OverriddenCount(Map(rs, ValueOf), Map(over, ValueOf));
    ExtendsTransitive(s, t, u);
    if r.Success? {
      OverriddenExact(b, u, rs, over);
      ContainerReady(g, b, n, true, children, depth, u, w, r.value);
    }
    OverriddenOutcome(g, b, n, children, depth, s, u, w, r);
  }

  lemma OverriddenExact(b: Budgets, s: State, base: seq<Resolved>, over: seq<Resolved>)
    requires AllExact(b, s, base) && AllExact(b, s, over)
    ensures AllExact(b, s, Overridden(base, over, KeyOf))
  {
    hide Exact, Indexed, Overridden, KeyOf;
    var rs := Overridden(base, over, KeyOf);
    forall i | 0 <= i < |rs| ensures Exact(b, rs[i]) && Indexed(s, rs[i].node) {
      OverriddenFrom(base, over, KeyOf, rs[i]);
    }
  }

  lemma OverriddenOutcome(
    g: Graph, b: Budgets, n: Id, children: seq<Resolved>, depth: nat,
    s: State, u: State, w: State, r: Result<Resolved, LoadError>
  )
    requires Valid(g, b, u) && Extends(s, u) && u.active == s.active && Contained(b, true, children, depth, u, w, r)
    requires s.expandedNodes + CountAll(Map(children, ValueOf)) <= u.expandedNodes
    requires r.Success? ==> Ready(g, b, w, n, r.value)
    ensures FreshOutcome(g, b, n, s, w, r)
  {
    hide Valid, Extends, Map, CountAll, Exact, Plain, Ready, Meaningless;
    ChargedIsValid(g, b, u, w);
    ExtendsTransitive(s, u, w);
  }
}
