/**
 The check that a document's aliases are acyclic and not too deep (internal/config/load.go, checkAliases).
 It walks the document once, remembering the height of every finished node, and accepts exactly the documents
 that an unmemoized walk along every path accepts: those without a path that is too long, and so without a cycle.
 */
module PolicyAliases {
  import opened Wrappers
  import opened Sequences
  import opened PolicyGraph

  datatype AliasError = DepthLimit | AliasCycle

  // ------------------------------------------------------------------- paths

  /** The nodes that a walk visits from a node: its content, or what it aliases. */
  function Edges(g: Graph, n: Id): seq<Id> {
    match NodeAt(g, n)
    case ScalarNode(_) => []
    case AliasNode(target) => [target]
    case SequenceNode(content) => content
    case MappingNode(content) => content
  }

  /** Some path of this many nodes starts at n. */
  ghost predicate HasPath(g: Graph, n: Id, count: nat)
    decreases count
  {
    count <= 1 || exists child :: child in Edges(g, n) && HasPath(g, child, count - 1)
  }

  /** Some path of `steps` edges leads from one node to another. */
  ghost predicate Leads(g: Graph, from: Id, to: Id, steps: nat)
    decreases steps
  {
    if steps == 0 then from == to else exists child :: child in Edges(g, from) && Leads(g, child, to, steps - 1)
  }

  /** A path leads from n back to n. */
  ghost predicate OnCycle(g: Graph, n: Id) {
    exists steps: nat :: steps >= 1 && Leads(g, n, n, steps)
  }

  /** A walk from n at this nesting meets a node that is nested more deeply than the budget. */
  ghost predicate TooDeep(g: Graph, budget: nat, n: Id, nesting: nat) {
    HasPath(g, n, if nesting <= budget then budget - nesting + 2 else 1)
  }

  /** b stands in a's content, or a aliases b. */
  predicate LeadsOn(g: Graph, a: Id, b: Id) {
    match NodeAt(g, a)
    case ScalarNode(_) => false
    case AliasNode(target) => b == target
    case SequenceNode(content) => exists i :: 0 <= i < |content| && content[i] == b
    case MappingNode(content) => exists i :: 0 <= i < |content| && content[i] == b
  }

  predicate IsPath(g: Graph, p: seq<Id>) {
    forall i :: 0 <= i < |p| - 1 ==> LeadsOn(g, p[i], p[i + 1])
  }

  predicate PathFrom(g: Graph, p: seq<Id>, n: Id, count: nat) {
    |p| == count && p != [] && p[0] == n && IsPath(g, p)
  }

  predicate PathBetween(g: Graph, p: seq<Id>, from: Id, to: Id, steps: nat) {
    PathFrom(g, p, from, steps + 1) && p[steps] == to
  }

  lemma PathGrows(g: Graph, p: seq<Id>, n: Id, child: Id, count: nat)
    requires PathFrom(g, p, child, count) && child in Edges(g, n)
    ensures PathFrom(g, [n] + p, n, count + 1)
  {
    assert LeadsOn(g, n, child);
    var longer := [n] + p;
    forall i | 0 <= i < |longer| - 1 ensures LeadsOn(g, longer[i], longer[i + 1]) {
      if i > 0 {
        assert LeadsOn(g, p[i - 1], p[i - 1 + 1]);
      }
    }
  }

  lemma PathShrinks(g: Graph, p: seq<Id>, n: Id, count: nat)
    requires PathFrom(g, p, n, count + 1) && count >= 1
    ensures p[1] in Edges(g, n) && PathFrom(g, p[1..], p[1], count)
  {
    assert LeadsOn(g, p[0], p[0 + 1]);
    var shorter := p[1..];
    forall i | 0 <= i < |shorter| - 1 ensures LeadsOn(g, shorter[i], shorter[i + 1]) {
      var j := i + 1;
      assert LeadsOn(g, p[j], p[j + 1]);
    }
  }

  /** Paths are what they should be: sequences in which each node holds or aliases the next. */
  lemma {:induction false} PathsAreSequences(g: Graph, n: Id, count: nat)
    requires count >= 1
    ensures HasPath(g, n, count) <==> exists p :: PathFrom(g, p, n, count)
    decreases count
  {
    if count == 1 {
      assert PathFrom(g, [n], n, 1);
    } else {
      hide PathFrom, Edges;
      if HasPath(g, n, count) {
        var child :| child in Edges(g, n) && HasPath(g, child, count - 1);
        PathsAreSequences(g, child, count - 1);
        var p :| PathFrom(g, p, child, count - 1);
        PathGrows(g, p, n, child, count - 1);
      }
      if p :| PathFrom(g, p, n, count) {
        PathLength(g, p, n, count);
        PathShrinks(g, p, n, count - 1);
        PathsAreSequences(g, p[1], count - 1);
        assert HasPath(g, p[1], count - 1);
      }
    }
  }

  lemma PathLength(g: Graph, p: seq<Id>, n: Id, count: nat)
    requires PathFrom(g, p, n, count)
    ensures |p| == count
  {
  }

  lemma {:induction false} LeadingIsPath(g: Graph, from: Id, to: Id, steps: nat)
    ensures Leads(g, from, to, steps) <==> exists p :: PathBetween(g, p, from, to, steps)
    decreases steps
  {
    if steps == 0 {
      if from == to {
        assert PathBetween(g, [from], from, to, 0);
      }
    } else {
      hide PathFrom, Edges;
      if Leads(g, from, to, steps) {
        var child :| child in Edges(g, from) && Leads(g, child, to, steps - 1);
        LeadingIsPath(g, child, to, steps - 1);
        var p :| PathBetween(g, p, child, to, steps - 1);
        PathGrows(g, p, from, child, steps);
        PathLength(g, p, child, steps);
        assert PathBetween(g, [from] + p, from, to, steps);
      }
      if p :| PathBetween(g, p, from, to, steps) {
        PathLength(g, p, from, steps + 1);
        PathShrinks(g, p, from, steps);
        assert PathBetween(g, p[1..], p[1], to, steps - 1);
        LeadingIsPath(g, p[1], to, steps - 1);
      }
    }
  }

  lemma ShortPath(g: Graph, n: Id, count: nat)
    requires count <= 1
    ensures HasPath(g, n, count)
  {
  }

  lemma PathBy(g: Graph, n: Id, child: Id, count: nat)
    requires child in Edges(g, n) && HasPath(g, child, count)
    ensures HasPath(g, n, count + 1)
  {
  }

  lemma PathChild(g: Graph, n: Id, count: nat) returns (child: Id)
    requires HasPath(g, n, count + 1) && count >= 1
    ensures child in Edges(g, n) && HasPath(g, child, count)
  {
    child :| child in Edges(g, n) && HasPath(g, child, count);
  }

  lemma {:induction false} ShorterPath(g: Graph, n: Id, count: nat, fewer: nat)
    requires HasPath(g, n, count) && fewer <= count
    ensures HasPath(g, n, fewer)
    decreases count
  {
    if fewer > 1 {
      var child :| child in Edges(g, n) && HasPath(g, child, count - 1);
      ShorterPath(g, child, count - 1, fewer - 1);
    }
  }

  /** A path to a node from which a path starts is the beginning of a longer path. */
  lemma {:induction false} PathThrough(g: Graph, from: Id, to: Id, steps: nat, count: nat)
    requires Leads(g, from, to, steps) && HasPath(g, to, count)
    ensures HasPath(g, from, steps + count)
    decreases steps
  {
    if steps > 0 {
      var child :| child in Edges(g, from) && Leads(g, child, to, steps - 1);
      PathThrough(g, child, to, steps - 1, count);
      if steps + count <= 1 {
        ShorterPath(g, from, 1, steps + count);
      }
    }
  }

  /** From a node on a cycle there are paths of every length. */
  lemma {:induction false} CycleHasPaths(g: Graph, n: Id, count: nat)
    requires OnCycle(g, n)
    ensures HasPath(g, n, count)
    decreases count
  {
    if count > 1 {
      var steps: nat :| steps >= 1 && Leads(g, n, n, steps);
      CycleHasPaths(g, n, count - 1);
      PathThrough(g, n, n, steps, count - 1);
      ShorterPath(g, n, steps + (count - 1), count);
    }
  }

  lemma {:induction false} OneStepMore(g: Graph, from: Id, to: Id, steps: nat, child: Id)
    requires Leads(g, from, to, steps) && child in Edges(g, to)
    ensures Leads(g, from, child, steps + 1)
    decreases steps
  {
    if steps == 0 {
      assert Leads(g, child, child, 0);
    } else {
      var next :| next in Edges(g, from) && Leads(g, next, to, steps - 1);
      OneStepMore(g, next, to, steps - 1, child);
    }
  }

  // ----------------------------------------------------------------- heights

  /** The greatest height of the first i children, plus one. */
  function HeightOver(heights: map<Id, nat>, children: seq<Id>): nat {
    if children == [] then 1
    else
      var init, last := HeightOver(heights, children[..|children| - 1]), children[|children| - 1];
      var height := if last in heights then 1 + heights[last] else 1;
      if init >= height then init else height
  }

  predicate HeightAtNode(g: Graph, heights: map<Id, nat>, n: Id) {
    && n in heights && (forall child :: child in Edges(g, n) ==> child in heights)
    && heights[n] == HeightOver(heights, Edges(g, n))
  }

  /** Every finished node has finished children, and the height that they give it. */
  ghost predicate Exact(g: Graph, heights: map<Id, nat>) {
    forall n :: n in heights ==> HeightAtNode(g, heights, n)
  }

  lemma {:induction false} HeightOverBounds(heights: map<Id, nat>, children: seq<Id>)
    ensures HeightOver(heights, children) >= 1
    ensures forall child :: child in children && child in heights ==> heights[child] < HeightOver(heights, children)
    ensures HeightOver(heights, children) > 1 ==>
              exists child :: child in children && child in heights && heights[child] + 1 == HeightOver(heights, children)
  {
    if children != [] {
      var init, last := children[..|children| - 1], children[|children| - 1];
      HeightOverBounds(heights, init);
      assert children == init + [last];
    }
  }

  lemma ExactAt(g: Graph, heights: map<Id, nat>, n: Id)
    requires Exact(g, heights) && n in heights
    ensures heights[n] >= 1 && forall child :: child in Edges(g, n) ==> child in heights && heights[child] < heights[n]
    ensures heights[n] > 1 ==> exists child :: child in Edges(g, n) && child in heights && heights[child] + 1 == heights[n]
  {
    assert HeightAtNode(g, heights, n);
    HeightOverBounds(heights, Edges(g, n));
  }

  /** The height of a finished node is the number of nodes on the longest path from it. */
  lemma {:induction false} HeightIsLongestPath(g: Graph, heights: map<Id, nat>, n: Id, count: nat)
    requires Exact(g, heights) && n in heights
    ensures HasPath(g, n, count) <==> count <= heights[n]
    decreases count
  {
    hide *;
    ExactAt(g, heights, n);
    if count <= 1 {
      ShortPath(g, n, count);
    } else if count <= heights[n] {
      var child :| child in Edges(g, n) && child in heights && heights[child] + 1 == heights[n];
      HeightIsLongestPath(g, heights, child, count - 1);
      PathBy(g, n, child, count - 1);
    } else if HasPath(g, n, count) {
      var child := PathChild(g, n, count - 1);
      HeightIsLongestPath(g, heights, child, count - 1);
      assert false;
    }
  }

  lemma {:induction false} HeightOverGrown(heights: map<Id, nat>, more: map<Id, nat>, children: seq<Id>)
    requires forall child :: child in children ==> child in heights && child in more && more[child] == heights[child]
    ensures HeightOver(more, children) == HeightOver(heights, children)
  {
    if children != [] {
      HeightOverGrown(heights, more, children[..|children| - 1]);
    }
  }

  /** Everything finished stays finished with its height. */
  ghost predicate Kept(heights: map<Id, nat>, more: map<Id, nat>) {
    forall n :: n in heights ==> n in more && more[n] == heights[n]
  }

  // ------------------------------------------------------------------- check

  /** What a visit promises: an exact height within the budget, or a path that is too long. */
  ghost predicate Visited(
    g: Graph, budget: nat, n: Id, nesting: nat, before: map<Id, nat>, after: map<Id, nat>, r: Result<nat, AliasError>
  ) {
    if r.Success? then
      && Exact(g, after) && Kept(before, after)
      && n in after && r.value == after[n] && after[n] + nesting <= budget + 1
    else
      && TooDeep(g, budget, n, nesting)
      && (r.error == AliasCycle ==> exists m, steps: nat :: Leads(g, n, m, steps) && OnCycle(g, m))
  }

  /** Every node on the stack leads to n by at least one edge. */
  ghost predicate Above(g: Graph, active: set<Id>, n: Id) {
    forall m :: m in active ==> exists steps: nat :: steps >= 1 && Leads(g, m, n, steps)
  }

  lemma ChildIsBelow(g: Graph, active: set<Id>, n: Id, child: Id)
    requires Above(g, active, n) && child in Edges(g, n)
    ensures Above(g, active + {n}, child)
  {
    forall m | m in active + {n} ensures exists steps: nat :: steps >= 1 && Leads(g, m, child, steps) {
      if m == n {
        assert Leads(g, n, n, 0);
        OneStepMore(g, n, n, 0, child);
      } else {
        var steps: nat :| steps >= 1 && Leads(g, m, n, steps);
        OneStepMore(g, m, n, steps, child);
      }
    }
  }

  class AliasCheck {
    var heights: map<Id, nat>
    var active: set<Id>

    constructor ()
      ensures heights == map[] && active == {}
    {
      heights, active := map[], {};
    }

    /** The closure `visit` of checkAliases. */
    method Visit(g: Graph, budget: nat, n: Id, nesting: nat) returns (r: Result<nat, AliasError>)
      requires nesting >= 1 && Exact(g, heights) && Above(g, active, n)
      modifies this
      ensures Visited(g, budget, n, nesting, old(heights), heights, r)
      ensures r.Success? ==> active == old(active)
      decreases budget + 1 - nesting
    {
      hide *;
      if nesting > budget {
        OneNodeIsTooDeep(g, budget, n, nesting, heights, heights);
        return Failure(DepthLimit);
      }
      if n in active {
        CycleIsTooDeep(g, budget, n, nesting, active, heights, heights);
        return Failure(AliasCycle);
      }
      if n in heights {
        var h := heights[n];
        RememberedHeight(g, budget, n, nesting, heights);
        if h + nesting - 1 > budget {
          return Failure(DepthLimit);
        }
        return Success(h);
      }
      active := active + {n};
      var h: nat := 1;
      var children := Edges(g, n);
      StartOfChildren(g, budget, n, nesting, heights);
      var i: nat := 0;
      while i < |children|
        invariant i <= |children| && active == old(active) + {n}
        invariant Measured(g, n, old(heights), heights, i, h) && Fits(g, budget, n, nesting, heights, i)
      {
        ChildIsBelow(g, old(active), n, children[i]);
        ghost var before := heights;
        MeasuredParts(g, n, old(heights), heights, i, h);
        var ch := Visit(g, budget, children[i], nesting + 1);
        ChildMeasured(g, budget, n, nesting, old(heights), before, heights, i, h, ch);
        if ch.Failure? {
          return Failure(ch.error);
        }
        h := if h >= 1 + ch.value then h else 1 + ch.value;
        if h > budget {
          TooHighIsTooDeep(g, budget, n, nesting, old(heights), heights, i + 1, h);
          return Failure(DepthLimit);
        }
        i := i + 1;
      }
      Finished(g, budget, n, nesting, old(heights), heights, h);
      heights := heights[n := h];
      active := active - {n};
      return Success(h);
    }

    /** checkAliases for a document's root: accepts exactly the documents without a path longer than the budget. */
    method CheckAliases(g: Graph, budget: nat, root: Id) returns (r: Option<AliasError>)
      requires heights == map[] && active == {}
      modifies this
      ensures r == None <==> !TooDeep(g, budget, root, 1)
      ensures r == None ==> Exact(g, heights) && root in heights
      ensures r == Some(AliasCycle) ==> exists m: Id, steps: nat :: Leads(g, root, m, steps) && OnCycle(g, m)
    {
      var visited := Visit(g, budget, root, 1);
      if visited.Success? {
        SuccessIsNotTooDeep(g, budget, root, 1, map[], heights, visited);
        return None;
      }
      return Some(visited.error);
    }
  }

  // ------------------------------------------------------------------- turns

  /** The first i children are finished, and h is the height that they give the node. */
  ghost predicate Measured(g: Graph, n: Id, before: map<Id, nat>, heights: map<Id, nat>, i: nat, h: nat) {
    && Exact(g, heights) && Kept(before, heights) && i <= |Edges(g, n)|
    && (forall j :: 0 <= j < i ==> Edges(g, n)[j] in heights)
    && h == HeightOver(heights, Edges(g, n)[..i])
  }

  /** The node and its first i children are within the budget. */
  ghost predicate Fits(g: Graph, budget: nat, n: Id, nesting: nat, heights: map<Id, nat>, i: nat) {
    && nesting <= budget && i <= |Edges(g, n)|
    && HeightOver(heights, Edges(g, n)[..i]) + nesting <= budget + 1
  }

  lemma OneNodeIsTooDeep(g: Graph, budget: nat, n: Id, nesting: nat, before: map<Id, nat>, after: map<Id, nat>)
    requires nesting > budget
    ensures Visited(g, budget, n, nesting, before, after, Failure(DepthLimit))
  {
  }

  /** A node met again on the stack is on a cycle, and so has paths of every length. */
  lemma CycleIsTooDeep(
    g: Graph, budget: nat, n: Id, nesting: nat, active: set<Id>, before: map<Id, nat>, after: map<Id, nat>
  )
    requires Above(g, active, n) && n in active
    ensures Visited(g, budget, n, nesting, before, after, Failure(AliasCycle))
  {
    assert OnCycle(g, n);
    assert Leads(g, n, n, 0);
    CycleHasPaths(g, n, if nesting <= budget then budget - nesting + 2 else 1);
  }

  /** A remembered height decides like a walk would. */
  lemma RememberedHeight(g: Graph, budget: nat, n: Id, nesting: nat, heights: map<Id, nat>)
    requires Exact(g, heights) && n in heights && nesting <= budget
    ensures Visited(
              g, budget, n, nesting, heights, heights,
              if heights[n] + nesting - 1 > budget then Failure(DepthLimit) else Success(heights[n]))
  {
    hide HasPath, Exact, Leads;
    HeightIsLongestPath(g, heights, n, budget - nesting + 2);
  }

  lemma StartOfChildren(g: Graph, budget: nat, n: Id, nesting: nat, heights: map<Id, nat>)
    requires Exact(g, heights) && nesting <= budget
    ensures Measured(g, n, heights, heights, 0, 1) && Fits(g, budget, n, nesting, heights, 0)
  {
  }

  lemma MeasuredParts(g: Graph, n: Id, before: map<Id, nat>, heights: map<Id, nat>, i: nat, h: nat)
    requires Measured(g, n, before, heights, i, h)
    ensures Exact(g, heights)
  {
  }

  /** A child that fails fails its node, and a child that succeeds contributes its height. */
  lemma ChildMeasured(
    g: Graph, budget: nat, n: Id, nesting: nat, before: map<Id, nat>, middle: map<Id, nat>, after: map<Id, nat>,
    i: nat, h: nat, r: Result<nat, AliasError>
  )
    requires Measured(g, n, before, middle, i, h) && Fits(g, budget, n, nesting, middle, i) && i < |Edges(g, n)|
    requires Visited(g, budget, Edges(g, n)[i], nesting + 1, middle, after, r)
    ensures r.Failure? ==> Visited(g, budget, n, nesting, before, after, Failure(r.error))
    ensures r.Success? ==>
              var grown := if h >= 1 + r.value then h else 1 + r.value;
              Measured(g, n, before, after, i + 1, grown) && Fits(g, budget, n, nesting, after, i + 1)
  {
    hide *;
    if r.Failure? {
      ChildFailed(g, budget, n, nesting, Edges(g, n)[i], i, middle, before, after, r.error);
    } else {
      ChildSucceeded(g, budget, n, nesting, before, middle, after, i, h, r.value);
    }
  }

  lemma ChildSucceeded(
    g: Graph, budget: nat, n: Id, nesting: nat, before: map<Id, nat>, middle: map<Id, nat>, after: map<Id, nat>,
    i: nat, h: nat, ch: nat
  )
    requires Measured(g, n, before, middle, i, h) && Fits(g, budget, n, nesting, middle, i) && i < |Edges(g, n)|
    requires Visited(g, budget, Edges(g, n)[i], nesting + 1, middle, after, Success(ch))
    ensures var grown := if h >= 1 + ch then h else 1 + ch;
            Measured(g, n, before, after, i + 1, grown) && Fits(g, budget, n, nesting, after, i + 1)
  {
    hide Exact, Edges;
    var children := Edges(g, n);
    HeightOverGrown(middle, after, children[..i]);
    HeightOverStep(after, children, i);
  }

  lemma HeightOverStep(heights: map<Id, nat>, children: seq<Id>, i: nat)
    requires i < |children| && children[i] in heights
    ensures HeightOver(heights, children[..i + 1]) ==
              if HeightOver(heights, children[..i]) >= 1 + heights[children[i]] then HeightOver(heights, children[..i])
              else 1 + heights[children[i]]
  {
    assert children[..i + 1][..i] == children[..i] && children[..i + 1][i] == children[i];
  }

  lemma ChildFailed(
    g: Graph, budget: nat, n: Id, nesting: nat, child: Id, i: nat,
    middle: map<Id, nat>, before: map<Id, nat>, after: map<Id, nat>, e: AliasError
  )
    requires child in Edges(g, n) && Fits(g, budget, n, nesting, middle, i)
    requires Visited(g, budget, child, nesting + 1, middle, after, Failure(e))
    ensures Visited(g, budget, n, nesting, before, after, Failure(e))
  {
    assert HasPath(g, n, budget - nesting + 2);
    if e == AliasCycle {
      var m: Id, steps: nat :| Leads(g, child, m, steps) && OnCycle(g, m);
      assert Leads(g, n, m, steps + 1);
    }
  }

  /** A height above the budget is itself a path that is too long. */
  lemma TooHighIsTooDeep(
    g: Graph, budget: nat, n: Id, nesting: nat, before: map<Id, nat>, heights: map<Id, nat>, i: nat, h: nat
  )
    requires Measured(g, n, before, heights, i, h) && nesting >= 1
    ensures h > budget ==> Visited(g, budget, n, nesting, before, heights, Failure(DepthLimit))
  {
    if h > budget {
      MeasuredPath(g, n, before, heights, i, h);
      hide *;
      TooLong(g, budget, n, nesting, before, heights, h);
    }
  }

  lemma TooLong(g: Graph, budget: nat, n: Id, nesting: nat, before: map<Id, nat>, after: map<Id, nat>, h: nat)
    requires HasPath(g, n, h) && nesting >= 1 && h > budget
    ensures Visited(g, budget, n, nesting, before, after, Failure(DepthLimit))
  {
    ShorterPath(g, n, h, if nesting <= budget then budget - nesting + 2 else 1);
  }

  lemma MeasuredPath(g: Graph, n: Id, before: map<Id, nat>, heights: map<Id, nat>, i: nat, h: nat)
    requires Measured(g, n, before, heights, i, h)
    ensures HasPath(g, n, h)
  {
    hide HasPath;
    var children := Edges(g, n)[..i];
    HeightOverBounds(heights, children);
    if h > 1 {
      var child :| child in children && child in heights && heights[child] + 1 == h;
      HeightIsLongestPath(g, heights, child, h - 1);
      PathBy(g, n, child, h - 1);
    } else {
      ShortPath(g, n, h);
    }
  }

  lemma Finished(
    g: Graph, budget: nat, n: Id, nesting: nat, before: map<Id, nat>, heights: map<Id, nat>, h: nat
  )
    requires Measured(g, n, before, heights, |Edges(g, n)|, h) && Fits(g, budget, n, nesting, heights, |Edges(g, n)|)
    ensures Visited(g, budget, n, nesting, before, heights[n := h], Success(h))
  {
    var children := Edges(g, n);
    assert children[..|children|] == children;
    var after := heights[n := h];
    forall m | m in after ensures HeightAtNode(g, after, m) {
      if m in heights {
        assert HeightAtNode(g, heights, m);
      }
      HeightOverGrown(heights, after, Edges(g, m));
    }
    if n in before {
      assert HeightAtNode(g, heights, n);
    }
  }

  lemma SuccessIsNotTooDeep(
    g: Graph, budget: nat, n: Id, nesting: nat, before: map<Id, nat>, after: map<Id, nat>, r: Result<nat, AliasError>
  )
    requires r.Success? && Visited(g, budget, n, nesting, before, after, r) && nesting >= 1
    ensures !TooDeep(g, budget, n, nesting)
  {
    hide HasPath, Exact, Leads;
    ExactAt(g, after, n);
    HeightIsLongestPath(g, after, n, budget - nesting + 2);
  }

  // ----------------------------------------------------------------- results

  /** Nothing that an accepted root leads to is on a cycle. */
  lemma AcceptedIsAcyclic(g: Graph, budget: nat, root: Id, m: Id, steps: nat)
    requires !TooDeep(g, budget, root, 1) && Leads(g, root, m, steps)
    ensures !OnCycle(g, m)
  {
    if OnCycle(g, m) {
      var count := if 1 <= budget then budget + 1 else 1;
      CycleHasPaths(g, m, count);
      PathThrough(g, root, m, steps, count);
      ShorterPath(g, root, steps + count, count);
    }
  }

  /** What an accepted root leads to has a height, and every edge goes to a lower node of the same document. */
  lemma {:induction false} AcceptedIsBelow(g: Graph, heights: map<Id, nat>, root: Id, m: Id, steps: nat, child: Id)
    requires Exact(g, heights) && root in heights && Leads(g, root, m, steps) && child in Edges(g, m)
    requires m in g.nodes && child in g.nodes && DocOf(g, m) == DocOf(g, child)
    ensures Below(g.(heights := heights), m, child)
    decreases steps
  {
    hide *;
    ExactAt(g, heights, root);
    var next := FirstStep(g, root, m, steps);
    if steps == 0 {
      BelowBy(g, heights, m, child);
    } else {
      AcceptedIsBelow(g, heights, next, m, steps - 1, child);
    }
  }

  lemma FirstStep(g: Graph, from: Id, to: Id, steps: nat) returns (next: Id)
    requires Leads(g, from, to, steps)
    ensures if steps == 0 then from == to else next in Edges(g, from) && Leads(g, next, to, steps - 1)
  {
    if steps == 0 {
      next := from;
    } else {
      next :| next in Edges(g, from) && Leads(g, next, to, steps - 1);
    }
  }

  lemma BelowBy(g: Graph, heights: map<Id, nat>, n: Id, child: Id)
    requires n in heights && child in heights && heights[child] < heights[n]
    requires n in g.nodes && child in g.nodes && DocOf(g, n) == DocOf(g, child)
    ensures Below(g.(heights := heights), n, child)
  {
  }

  // --------------------------------------------------------------- documents

  /** A node is walked from its document's root, and its edges stay inside the document. */
  ghost predicate DocumentNode(g: Graph, n: Id) {
    && DocOf(g, n) in g.roots && (exists steps: nat :: Leads(g, g.roots[DocOf(g, n)], n, steps))
    && forall child :: child in Edges(g, n) ==> child in g.nodes && DocOf(g, child) == DocOf(g, n)
  }

  /** The parsed documents that references name: each node belongs to the one whose root leads to it. */
  ghost predicate Documents(g: Graph) {
    && (forall n :: n in g.nodes ==> DocumentNode(g, n))
    && (forall d :: d in g.roots ==> g.roots[d] in g.nodes && DocOf(g, g.roots[d]) == d)
    && (forall d, uri :: g.reference(d, uri).Some? ==> g.reference(d, uri).value.0 in g.roots)
  }

  /** Following aliases, however many, ends at a mapping, or at a scalar. */
  ghost predicate EndsAtMapping(g: Graph, n: Id) {
    exists steps: nat :: NodeAt(g, Unaliased(g, n, steps)).MappingNode?
  }

  ghost predicate EndsAtScalar(g: Graph, n: Id) {
    exists steps: nat :: NodeAt(g, Unaliased(g, n, steps)).ScalarNode?
  }

  /** What scan demands of a mapping, before there are heights. */
  ghost predicate ShapedMapping(g: Graph, content: seq<Id>) {
    && StringKeys(g, content) && NoDuplicates(Texts(g, content))
    && var ref, override := Field(g, content, REF), Field(g, content, OVERRIDE);
       (override.Some? ==> ref.Some? && EndsAtMapping(g, override.value)) && (ref.Some? ==> EndsAtScalar(g, ref.value))
  }

  ghost predicate Shaped(g: Graph) {
    forall n :: n in g.nodes && NodeAt(g, n).MappingNode? ==> ShapedMapping(g, NodeAt(g, n).content)
  }

  /** The alias check of every document has succeeded with these heights. */
  ghost predicate Accepted(g: Graph, checks: map<nat, map<Id, nat>>) {
    forall d :: d in g.roots ==> d in checks && Exact(g, checks[d]) && g.roots[d] in checks[d]
  }

  /** Each node's height in its own document. */
  function Joined(g: Graph, checks: map<nat, map<Id, nat>>): map<Id, nat> {
    map n | n in g.nodes && DocOf(g, n) in checks && n in checks[DocOf(g, n)] :: checks[DocOf(g, n)][n]
  }

  /** The graph that references are resolved in. */
  function WithHeights(g: Graph, checks: map<nat, map<Id, nat>>): Graph {
    g.(heights := Joined(g, checks))
  }

  lemma {:induction false} Reached(g: Graph, heights: map<Id, nat>, root: Id, n: Id, steps: nat)
    requires Exact(g, heights) && root in heights && Leads(g, root, n, steps)
    ensures n in heights
    decreases steps
  {
    hide *;
    ExactAt(g, heights, root);
    var next := FirstStep(g, root, n, steps);
    if steps > 0 {
      Reached(g, heights, next, n, steps - 1);
    }
  }

  lemma NodeHasHeight(g: Graph, checks: map<nat, map<Id, nat>>, n: Id)
    requires Documents(g) && Accepted(g, checks) && n in g.nodes
    ensures DocOf(g, n) in checks && Exact(g, checks[DocOf(g, n)]) && n in checks[DocOf(g, n)]
    ensures forall child :: child in Edges(g, n) ==> child in g.nodes && DocOf(g, child) == DocOf(g, n)
  {
    hide Leads, Exact, Edges;
    var d := DocOf(g, n);
    assert DocumentNode(g, n);
    var steps: nat :| Leads(g, g.roots[d], n, steps);
    Reached(g, checks[d], g.roots[d], n, steps);
  }

  /** Every edge of every document goes to a lower node of the same document. */
  lemma EdgesGoBelow(g: Graph, checks: map<nat, map<Id, nat>>, n: Id, child: Id)
    requires Documents(g) && Accepted(g, checks) && n in g.nodes && child in Edges(g, n)
    ensures Below(WithHeights(g, checks), n, child)
  {
    hide Documents, Accepted, Exact, Edges;
    NodeHasHeight(g, checks, n);
    NodeHasHeight(g, checks, child);
    ExactAt(g, checks[DocOf(g, n)], n);
  }

  lemma {:induction false} HeightsDoNotMatter(g: Graph, heights: map<Id, nat>, n: Id, steps: nat)
    ensures Unaliased(g.(heights := heights), n, steps) == Unaliased(g, n, steps)
    decreases steps
  {
    if steps > 0 && NodeAt(g, n).AliasNode? {
      HeightsDoNotMatter(g, heights, NodeAt(g, n).target, steps - 1);
    }
  }

  lemma {:induction false} SameFields(g: Graph, heights: map<Id, nat>, content: seq<Id>, key: string)
    ensures Field(g.(heights := heights), content, key) == Field(g, content, key)
    ensures Texts(g.(heights := heights), content) == Texts(g, content)
  {
    if |content| >= 2 {
      SameFields(g, heights, content[..|content| - 2], key);
    }
  }

  /** A chain of aliases that ends at all ends within the height. */
  lemma {:induction false} ChainEnds(g: Graph, n: Id, steps: nat, enough: nat)
    requires forall m, child :: m in g.nodes && child in Edges(g, m) ==> Below(g, m, child)
    requires !NodeAt(g, Unaliased(g, n, steps)).AliasNode? && enough >= HeightAt(g, n)
    ensures Unaliased(g, n, enough) == Unaliased(g, n, steps)
    decreases steps
  {
    if NodeAt(g, n).AliasNode? {
      var target := NodeAt(g, n).target;
      assert target in Edges(g, n);
      assert Below(g, n, target);
      ChainEnds(g, target, steps - 1, enough - 1);
    }
  }

  lemma MappingScanned(g: Graph, heights: map<Id, nat>, content: seq<Id>)
    requires var h := g.(heights := heights); forall m, child :: m in h.nodes && child in Edges(h, m) ==> Below(h, m, child)
    requires ShapedMapping(g, content)
    ensures ScannedMapping(g.(heights := heights), content)
  {
    hide Field, Texts, Unaliased, Below, NoDuplicates, Edges;
    var h := g.(heights := heights);
    SameFields(g, heights, content, REF);
    SameFields(g, heights, content, OVERRIDE);
    var ref, override := Field(g, content, REF), Field(g, content, OVERRIDE);
    if override.Some? {
      var steps: nat :| NodeAt(g, Unaliased(g, override.value, steps)).MappingNode?;
      HeightsDoNotMatter(g, heights, override.value, steps);
      ChainEnds(h, override.value, steps, HeightAt(h, override.value));
    }
    if ref.Some? {
      var steps: nat :| NodeAt(g, Unaliased(g, ref.value, steps)).ScalarNode?;
      HeightsDoNotMatter(g, heights, ref.value, steps);
      ChainEnds(h, ref.value, steps, HeightAt(h, ref.value));
    }
  }

  /** Documents that scan and the alias check have accepted one by one make up a scanned graph. */
  lemma AcceptedDocumentsAreScanned(g: Graph, checks: map<nat, map<Id, nat>>)
    requires Documents(g) && Shaped(g) && Accepted(g, checks)
    ensures Scanned(WithHeights(g, checks))
  {
    hide ShapedMapping, ScannedMapping, Below, Accepted, Joined, DocumentNode;
    var h := WithHeights(g, checks);
    forall m, child | m in h.nodes && child in Edges(h, m) ensures Below(h, m, child) {
      assert Edges(h, m) == Edges(g, m);
      EdgesGoBelow(g, checks, m, child);
    }
    forall n | n in h.nodes ensures ScannedNode(h, n) {
      if NodeAt(g, n).MappingNode? {
        MappingScanned(g, h.heights, NodeAt(g, n).content);
      }
      assert forall child :: child in Edges(h, n) ==> Below(h, n, child);
    }
  }
}
