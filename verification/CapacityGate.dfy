/**
 acquireCapacity and the release it returns (internal/queryservice/service.go) as a state machine: one
 global channel of tokens and one per binding, with every send and receive an action of its own.
 */
module CapacityGate {
  import opened Wrappers

  type Key = string

  /** A request: it holds a global token from Entered on, and a binding token while Holding. */
  datatype Phase = Entered(key: Key) | Unwinding | Holding(key: Key) | Leaving | Ended(admitted: bool)

  datatype Gates = Gates(globalCapacity: nat, bindingCapacity: map<Key, nat>)

  /** The tokens in the channels, and every request that has asked for capacity. */
  datatype State = State(globalTokens: nat, bindingTokens: map<Key, nat>, requests: map<nat, Phase>)

  datatype Action = Ask(id: nat, key: Key) | Enter(id: nat) | Unwind(id: nat) | Release(id: nat) | Leave(id: nat)

  function Start(g: Gates): State {
    State(0, map key | key in g.bindingCapacity :: 0, map[])
  }

  predicate InPhase(s: State, id: nat, phase: Phase) {
    id in s.requests && s.requests[id] == phase
  }

  /** The effect of an action; None when it cannot happen, which for a receive means that it blocks. */
  function Step(g: Gates, s: State, a: Action): Option<State> {
    match a
    case Ask(id, key) =>
      if id in s.requests then None
      else if s.globalTokens < g.globalCapacity then
        Some(State(s.globalTokens + 1, s.bindingTokens, s.requests[id := Entered(key)]))
      else Some(s.(requests := s.requests[id := Ended(false)]))
    case Enter(id) =>
      if id !in s.requests || !s.requests[id].Entered? then None
      else
        var key := s.requests[id].key;
        if key !in g.bindingCapacity || key !in s.bindingTokens then Some(s.(requests := s.requests[id := Unwinding]))
        else if s.bindingTokens[key] < g.bindingCapacity[key] then
          Some(s.(bindingTokens := s.bindingTokens[key := s.bindingTokens[key] + 1], requests := s.requests[id := Holding(key)]))
        else Some(s.(requests := s.requests[id := Unwinding]))
    case Unwind(id) =>
      if !InPhase(s, id, Unwinding) || s.globalTokens == 0 then None
      else Some(s.(globalTokens := s.globalTokens - 1, requests := s.requests[id := Ended(false)]))
    case Release(id) =>
      if id !in s.requests || !s.requests[id].Holding? then None
      else
        var key := s.requests[id].key;
        if key !in s.bindingTokens || s.bindingTokens[key] == 0 then None
        else
          Some(s.(bindingTokens := s.bindingTokens[key := s.bindingTokens[key] - 1], requests := s.requests[id := Leaving]))
    case Leave(id) =>
      if !InPhase(s, id, Leaving) || s.globalTokens == 0 then None
      else Some(s.(globalTokens := s.globalTokens - 1, requests := s.requests[id := Ended(true)]))
  }

  // --------------------------------------------------------------- invariant

  /** The requests that hold a global token. */
  function GlobalHolders(s: State): set<nat> {
    set id | id in s.requests && !s.requests[id].Ended?
  }

  /** The requests that hold a token of one binding. */
  function BindingHolders(s: State, key: Key): set<nat> {
    set id | id in s.requests && s.requests[id] == Holding(key)
  }

  predicate KeyHolds(g: Gates, s: State, key: Key) {
    if key in g.bindingCapacity then
      key in s.bindingTokens && s.bindingTokens[key] == |BindingHolders(s, key)| <= g.bindingCapacity[key]
    else key !in s.bindingTokens && BindingHolders(s, key) == {}
  }

  /** Tokens are exactly the requests that hold them, and never exceed a capacity. */
  ghost predicate Inv(g: Gates, s: State) {
    && s.globalTokens == |GlobalHolders(s)| <= g.globalCapacity
    && forall key :: KeyHolds(g, s, key)
  }

  lemma StartHolds(g: Gates)
    ensures Inv(g, Start(g))
  {
  }

  /** An action gives one request its next phase. */
  lemma OneRequest(g: Gates, s: State, a: Action, t: State)
    requires Step(g, s, a) == Some(t)
    ensures a.id in t.requests && t.requests == s.requests[a.id := t.requests[a.id]]
  {
  }

  lemma GlobalHoldersMove(s: State, t: State, id: nat)
    requires id in t.requests && t.requests == s.requests[id := t.requests[id]]
    ensures GlobalHolders(t) == if t.requests[id].Ended? then GlobalHolders(s) - {id} else GlobalHolders(s) + {id}
    ensures id in GlobalHolders(s) <==> id in s.requests && !s.requests[id].Ended?
  {
  }

  lemma BindingHoldersMove(s: State, t: State, id: nat, key: Key)
    requires id in t.requests && t.requests == s.requests[id := t.requests[id]]
    ensures BindingHolders(t, key) ==
              if t.requests[id] == Holding(key) then BindingHolders(s, key) + {id} else BindingHolders(s, key) - {id}
    ensures id in BindingHolders(s, key) <==> InPhase(s, id, Holding(key))
  {
  }

  lemma Resized<T>(a: set<T>, x: T)
    ensures |a + {x}| == if x in a then |a| else |a| + 1
    ensures |a - {x}| == if x in a then |a| - 1 else |a|
    ensures x in a ==> |a| >= 1 && a + {x} == a
    ensures x !in a ==> a - {x} == a
  {
  }

  /** A global token moves exactly when the request starts or ceases to hold one. */
  lemma GlobalTokenMoves(g: Gates, s: State, a: Action, t: State)
    requires Step(g, s, a) == Some(t) && a.id in t.requests && s.globalTokens <= g.globalCapacity
    ensures var held, holds := a.id in s.requests && !s.requests[a.id].Ended?, !t.requests[a.id].Ended?;
            && t.globalTokens <= g.globalCapacity
            && t.globalTokens == s.globalTokens + (if holds then 1 else 0) - (if held then 1 else 0)
  {
  }

  /** How an action changes the holders of the global tokens. */
  lemma GlobalStep(g: Gates, s: State, a: Action, t: State)
    requires Inv(g, s) && Step(g, s, a) == Some(t)
    ensures t.globalTokens == |GlobalHolders(t)| <= g.globalCapacity
  {
    hide KeyHolds, BindingHolders, GlobalHolders, Step;
    OneRequest(g, s, a, t);
    GlobalTokenMoves(g, s, a, t);
    GlobalHoldersMove(s, t, a.id);
    Resized(GlobalHolders(s), a.id);
  }

  /** A binding's token moves exactly when the request starts or ceases to hold it. */
  lemma BindingTokenMoves(g: Gates, s: State, a: Action, t: State, key: Key)
    requires Step(g, s, a) == Some(t) && (key in s.bindingTokens <==> key in g.bindingCapacity)
    ensures key in t.bindingTokens <==> key in g.bindingCapacity
    ensures InPhase(t, a.id, Holding(key)) ==> key in s.bindingTokens
    ensures key in s.bindingTokens && s.bindingTokens[key] <= g.bindingCapacity[key] ==>
              && t.bindingTokens[key] <= g.bindingCapacity[key]
              && t.bindingTokens[key] == s.bindingTokens[key] + (if InPhase(t, a.id, Holding(key)) then 1 else 0)
                                       - (if InPhase(s, a.id, Holding(key)) then 1 else 0)
  {
  }

  lemma BindingStep(g: Gates, s: State, a: Action, t: State, key: Key)
    requires KeyHolds(g, s, key) && Step(g, s, a) == Some(t)
    ensures KeyHolds(g, t, key)
  {
    hide BindingHolders, Step;
    OneRequest(g, s, a, t);
    BindingTokenMoves(g, s, a, t, key);
    BindingHoldersMove(s, t, a.id, key);
    Resized(BindingHolders(s, key), a.id);
  }

  /** Every action keeps tokens and holders equal and within the capacities. */
  lemma InvStep(g: Gates, s: State, a: Action, t: State)
    requires Inv(g, s) && Step(g, s, a) == Some(t)
    ensures Inv(g, t)
  {
    hide Step, KeyHolds, GlobalHolders;
    GlobalStep(g, s, a, t);
    forall key ensures KeyHolds(g, t, key) {
      assert KeyHolds(g, s, key);
      BindingStep(g, s, a, t, key);
    }
  }

  // ----------------------------------------------------------------- theorems

  predicate Run(g: Gates, states: seq<State>, actions: seq<Action>) {
    && |states| == |actions| + 1 && states[0] == Start(g)
    && forall i :: 0 <= i < |actions| ==> Step(g, states[i], actions[i]) == Some(states[i + 1])
  }

  /** In every interleaving, the tokens are the requests holding them, within both capacities. */
  lemma {:induction false} RunHolds(g: Gates, states: seq<State>, actions: seq<Action>, i: nat)
    requires Run(g, states, actions) && i < |states|
    ensures Inv(g, states[i])
  {
    hide Step, Inv;
    if i == 0 {
      StartHolds(g);
    } else {
      RunHolds(g, states, actions, i - 1);
      InvStep(g, states[i - 1], actions[i - 1], states[i]);
    }
  }

  /** No receive ever blocks: a request that must give a token back finds one. */
  lemma ReturningNeverBlocks(g: Gates, s: State, id: nat)
    requires Inv(g, s) && id in s.requests
    ensures s.requests[id].Unwinding? ==> Step(g, s, Unwind(id)).Some?
    ensures s.requests[id].Holding? ==> Step(g, s, Release(id)).Some?
    ensures s.requests[id].Leaving? ==> Step(g, s, Leave(id)).Some?
  {
    if !s.requests[id].Ended? {
      assert id in GlobalHolders(s);
    }
    if s.requests[id].Holding? {
      var key := s.requests[id].key;
      assert KeyHolds(g, s, key) && id in BindingHolders(s, key);
    }
  }

  /** A refused request holds nothing, and when every request has ended no token is left anywhere. */
  lemma NothingLeaks(g: Gates, s: State)
    requires Inv(g, s)
    ensures forall id :: id in s.requests && s.requests[id].Ended? ==>
              id !in GlobalHolders(s) && forall key :: id !in BindingHolders(s, key)
    ensures (forall id :: id in s.requests ==> s.requests[id].Ended?) ==>
              s.globalTokens == 0 && forall key :: key in s.bindingTokens ==> s.bindingTokens[key] == 0
  {
    if forall id :: id in s.requests ==> s.requests[id].Ended? {
      assert GlobalHolders(s) == {};
      forall key | key in s.bindingTokens ensures s.bindingTokens[key] == 0 {
        assert KeyHolds(g, s, key);
        assert BindingHolders(s, key) == {};
      }
    }
  }

  /** A request is refused only when a channel is full or its binding is unknown. */
  lemma RefusedOnlyWhenFull(g: Gates, s: State, id: nat, key: Key)
    requires Inv(g, s)
    ensures id !in s.requests && Step(g, s, Ask(id, key)).value.requests[id] == Ended(false) ==>
              |GlobalHolders(s)| == g.globalCapacity
    ensures InPhase(s, id, Entered(key)) && Step(g, s, Enter(id)).value.requests[id] == Unwinding ==>
              key !in g.bindingCapacity || |BindingHolders(s, key)| == g.bindingCapacity[key]
  {
    assert KeyHolds(g, s, key);
  }
}
