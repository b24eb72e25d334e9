/**
 compileKeysetCursor (internal/adapters/mysql8/keyset.go): the OR of AND-prefixes over the cursor's
 columns, its positional parameters, and what the server computes from them.
 */
module KeysetPredicate {
  import opened Wrappers
  import opened JsonText
  import opened KeysetCursor

  // -------------------------------------------------------------- statements

  datatype Operator = Equal | Greater | Less

  /** `column <operator> ?` : every term holds exactly one placeholder. */
  datatype Term = Term(column: nat, operator: Operator)

  /** A parenthesised AND of terms. */
  type Clause = seq<Term>

  function DirectedOperator(direction: Direction): Operator {
    if direction == Desc then Less else Greater
  }

  /** Equal on the columns before i, strictly beyond on column i. */
  function PrefixClause(columns: seq<KeyColumn>, i: nat): (c: Clause)
    requires i < |columns|
    ensures |c| == i + 1
  {
    seq(i + 1, t requires 0 <= t <= i => if t < i then Term(t, Equal) else Term(i, DirectedOperator(columns[i].direction)))
  }

  function CursorClauses(columns: seq<KeyColumn>, n: nat): (clauses: seq<Clause>)
    requires n <= |columns|
    ensures |clauses| == n
  {
    seq(n, i requires 0 <= i < n => PrefixClause(columns, i))
  }

  /** The bounds of the first n clauses, in textual order. */
  function CursorBinds(bounds: seq<Bound>, n: nat): seq<Bound>
    requires n <= |bounds|
  {
    if n == 0 then [] else CursorBinds(bounds, n - 1) + bounds[..n]
  }

  /** keysetCursorParameterCount. */
  function CursorParameterCount(width: nat): nat {
    width * (width + 1) / 2
  }

  lemma {:induction false} BindsMatchCount(bounds: seq<Bound>, n: nat)
    requires n <= |bounds|
    ensures |CursorBinds(bounds, n)| == CursorParameterCount(n)
  {
    if n > 0 {
      BindsMatchCount(bounds, n - 1);
      assert n * (n + 1) == (n - 1) * n + 2 * n;
    }
  }

  // -------------------------------------------------------------- evaluation

  /** The server's ordering of one key column: "at most", up to its collation's equalities. */
  type Order = (Bound, Bound) -> bool

  ghost predicate TotalPreorder(le: Order) {
    && (forall a, b :: le(a, b) || le(b, a))
    && (forall a, b, c :: le(a, b) && le(b, c) ==> le(a, c))
  }

  ghost predicate Orders(orders: seq<Order>, n: nat) {
    |orders| == n && forall j :: 0 <= j < n ==> TotalPreorder(orders[j])
  }

  predicate Same(le: Order, a: Bound, b: Bound) {
    le(a, b) && le(b, a)
  }

  /** SQL's =, > and <, by the column's ordering. */
  predicate Compare(operator: Operator, le: Order, a: Bound, b: Bound) {
    match operator
    case Equal => Same(le, a, b)
    case Greater => le(b, a) && !le(a, b)
    case Less => le(a, b) && !le(b, a)
  }

  /** An AND of terms whose placeholders are the parameters from position `at` on. */
  predicate EvalClause(clause: Clause, args: seq<Bound>, at: nat, key: seq<Bound>, orders: seq<Order>) {
    forall t :: 0 <= t < |clause| ==>
      && at + t < |args| && clause[t].column < |key| && clause[t].column < |orders|
      && Compare(clause[t].operator, orders[clause[t].column], key[clause[t].column], args[at + t])
  }

  /** An OR of clauses, consuming the parameters in textual order. */
  predicate EvalClauses(clauses: seq<Clause>, args: seq<Bound>, at: nat, key: seq<Bound>, orders: seq<Order>) {
    clauses != []
    && (EvalClause(clauses[0], args, at, key, orders)
        || EvalClauses(clauses[1..], args, at + |clauses[0]|, key, orders))
  }

  // ------------------------------------------------------------ lexicographic

  /** Column k of the key lies strictly beyond the bound: above it when the column ascends, below it when it descends. */
  predicate Beyond(columns: seq<KeyColumn>, orders: seq<Order>, key: seq<Bound>, bounds: seq<Bound>, k: nat)
    requires k < |columns| && k < |orders| && k < |key| && k < |bounds|
  {
    match columns[k].direction
    case Asc => orders[k](bounds[k], key[k]) && !orders[k](key[k], bounds[k])
    case Desc => orders[k](key[k], bounds[k]) && !orders[k](bounds[k], key[k])
  }

  /** The columns before k are the same. */
  predicate SameBefore(orders: seq<Order>, key: seq<Bound>, bounds: seq<Bound>, k: nat)
    requires k <= |orders| && k <= |key| && k <= |bounds|
  {
    forall t :: 0 <= t < k ==> Same(orders[t], key[t], bounds[t])
  }

  ghost predicate AfterFrom(columns: seq<KeyColumn>, orders: seq<Order>, key: seq<Bound>, bounds: seq<Bound>, i: nat)
    requires |orders| == |key| == |bounds| == |columns|
  {
    exists k :: i <= k < |columns| && SameBefore(orders, key, bounds, k) && Beyond(columns, orders, key, bounds, k)
  }

  /** The key comes strictly after the bounds in the mixed-direction lexicographic order. */
  ghost predicate After(columns: seq<KeyColumn>, orders: seq<Order>, key: seq<Bound>, bounds: seq<Bound>)
    requires |orders| == |key| == |bounds| == |columns|
  {
    AfterFrom(columns, orders, key, bounds, 0)
  }

  /** The operator of a direction is the comparison that goes beyond. */
  lemma OperatorGoesBeyond(columns: seq<KeyColumn>, orders: seq<Order>, key: seq<Bound>, bounds: seq<Bound>, i: nat)
    requires |orders| == |key| == |bounds| == |columns| && i < |columns|
    ensures Compare(DirectedOperator(columns[i].direction), orders[i], key[i], bounds[i])
         == Beyond(columns, orders, key, bounds, i)
  {
  }

  /** Clause i, with its own parameters, says: same before i and beyond at i. */
  lemma ClauseMeans(columns: seq<KeyColumn>, orders: seq<Order>, key: seq<Bound>, bounds: seq<Bound>, i: nat,
                    args: seq<Bound>, at: nat)
    requires |orders| == |key| == |bounds| == |columns| && i < |columns|
    requires at + i + 1 <= |args| && args[at..at + i + 1] == bounds[..i + 1]
    ensures EvalClause(PrefixClause(columns, i), args, at, key, orders)
         == (SameBefore(orders, key, bounds, i) && Beyond(columns, orders, key, bounds, i))
  {
    var clause := PrefixClause(columns, i);
    assert forall t :: 0 <= t <= i ==> args[at + t] == args[at..at + i + 1][t] == bounds[t];
    OperatorGoesBeyond(columns, orders, key, bounds, i);
    hide Beyond;
    if EvalClause(clause, args, at, key, orders) {
      assert clause[i] == Term(i, DirectedOperator(columns[i].direction));
      forall t | 0 <= t < i ensures Same(orders[t], key[t], bounds[t]) {
        assert clause[t] == Term(t, Equal);
      }
    }
  }

  lemma {:induction false} BindsAt(bounds: seq<Bound>, i: nat, n: nat)
    requires i < n <= |bounds|
    ensures var at := |CursorBinds(bounds, i)|;
            && at + i + 1 == |CursorBinds(bounds, i + 1)| <= |CursorBinds(bounds, n)|
            && CursorBinds(bounds, n)[at..at + i + 1] == bounds[..i + 1]
    decreases n - i
  {
    if i + 1 < n {
      BindsAt(bounds, i, n - 1);
    }
  }

  lemma AfterFromStep(columns: seq<KeyColumn>, orders: seq<Order>, key: seq<Bound>, bounds: seq<Bound>, i: nat)
    requires |orders| == |key| == |bounds| == |columns| && i < |columns|
    ensures AfterFrom(columns, orders, key, bounds, i)
         == ((SameBefore(orders, key, bounds, i) && Beyond(columns, orders, key, bounds, i))
             || AfterFrom(columns, orders, key, bounds, i + 1))
  {
    hide SameBefore, Beyond;
  }

  lemma EvalFirst(clauses: seq<Clause>, i: nat, args: seq<Bound>, at: nat, key: seq<Bound>, orders: seq<Order>)
    requires i < |clauses|
    ensures EvalClauses(clauses[i..], args, at, key, orders)
         == (EvalClause(clauses[i], args, at, key, orders)
             || EvalClauses(clauses[i + 1..], args, at + |clauses[i]|, key, orders))
  {
    hide EvalClause;
    assert clauses[i..][1..] == clauses[i + 1..];
  }

  /** The cursor's parameters stand in the statement's argument list from position `base` on. */
  predicate BindsFrom(args: seq<Bound>, base: nat, bounds: seq<Bound>) {
    var binds := CursorBinds(bounds, |bounds|);
    base + |binds| <= |args| && args[base..base + |binds|] == binds
  }

  lemma ArgumentsAt(args: seq<Bound>, base: nat, bounds: seq<Bound>, i: nat)
    requires BindsFrom(args, base, bounds) && i < |bounds|
    ensures var at := base + |CursorBinds(bounds, i)|;
            && |CursorBinds(bounds, i + 1)| == |CursorBinds(bounds, i)| + i + 1
            && at + i + 1 <= |args| && args[at..at + i + 1] == bounds[..i + 1]
  {
    BindsAt(bounds, i, |bounds|);
    var binds := CursorBinds(bounds, |bounds|);
    var at := |CursorBinds(bounds, i)|;
    hide *;
    SliceOfSlice(args, base, |binds|, at, i + 1);
  }

  lemma SliceOfSlice(args: seq<Bound>, base: nat, length: nat, at: nat, n: nat)
    requires base + length <= |args| && at + n <= length
    ensures args[base..base + length][at..at + n] == args[base + at..base + at + n]
  {
    var whole := args[base..base + length];
    var inner, outer := whole[at..at + n], args[base + at..base + at + n];
    assert |inner| == |outer|;
    forall k | 0 <= k < |inner| ensures inner[k] == outer[k] {
      assert inner[k] == whole[at + k] == args[base + at + k];
    }
  }

  lemma ClauseAt(columns: seq<KeyColumn>, i: nat)
    requires i < |columns|
    ensures i < |CursorClauses(columns, |columns|)|
    ensures CursorClauses(columns, |columns|)[i] == PrefixClause(columns, i) && |PrefixClause(columns, i)| == i + 1
  {
  }

  lemma NoClausesLeft(columns: seq<KeyColumn>, orders: seq<Order>, key: seq<Bound>, bounds: seq<Bound>, args: seq<Bound>, at: nat)
    requires |orders| == |key| == |bounds| == |columns|
    ensures |CursorClauses(columns, |columns|)| == |columns|
    ensures !EvalClauses(CursorClauses(columns, |columns|)[|columns|..], args, at, key, orders)
    ensures !AfterFrom(columns, orders, key, bounds, |columns|)
  {
  }

  lemma {:induction false} ClausesMean(
    columns: seq<KeyColumn>, orders: seq<Order>, key: seq<Bound>, bounds: seq<Bound>, i: nat, args: seq<Bound>, base: nat
  )
    requires |orders| == |key| == |bounds| == |columns| && i <= |columns| && BindsFrom(args, base, bounds)
    ensures |CursorClauses(columns, |columns|)| == |columns|
    ensures EvalClauses(CursorClauses(columns, |columns|)[i..], args, base + |CursorBinds(bounds, i)|, key, orders)
         == AfterFrom(columns, orders, key, bounds, i)
    decreases |columns| - i
  {
    hide *;
    NoClausesLeft(columns, orders, key, bounds, args, base + |CursorBinds(bounds, i)|);
    if i < |columns| {
      var at := base + |CursorBinds(bounds, i)|;
      ClauseAt(columns, i);
      EvalFirst(CursorClauses(columns, |columns|), i, args, at, key, orders);
      ArgumentsAt(args, base, bounds, i);
      ClauseMeans(columns, orders, key, bounds, i, args, at);
      ClausesMean(columns, orders, key, bounds, i + 1, args, base);
      AfterFromStep(columns, orders, key, bounds, i);
    }
  }

  /** The compiled predicate, evaluated with its positional parameters, is "strictly after the cursor". */
  lemma PredicateIsAfter(
    columns: seq<KeyColumn>, orders: seq<Order>, key: seq<Bound>, bounds: seq<Bound>, args: seq<Bound>, base: nat
  )
    requires |orders| == |key| == |bounds| == |columns| && BindsFrom(args, base, bounds)
    ensures EvalClauses(CursorClauses(columns, |columns|), args, base, key, orders) == After(columns, orders, key, bounds)
  {
    ClausesMean(columns, orders, key, bounds, 0, args, base);
    assert CursorClauses(columns, |columns|)[0..] == CursorClauses(columns, |columns|);
  }

  // ------------------------------------------------------------- strict order

  lemma AfterIrreflexive(columns: seq<KeyColumn>, orders: seq<Order>, key: seq<Bound>)
    requires |key| == |columns| && Orders(orders, |columns|)
    ensures !After(columns, orders, key, key)
  {
    forall k | 0 <= k < |columns| ensures !Beyond(columns, orders, key, key, k) {
      assert TotalPreorder(orders[k]);
      assert orders[k](key[k], key[k]);
    }
  }

  lemma AfterTransitive(columns: seq<KeyColumn>, orders: seq<Order>, a: seq<Bound>, b: seq<Bound>, c: seq<Bound>)
    requires |a| == |b| == |c| == |columns| && Orders(orders, |columns|)
    requires After(columns, orders, c, b) && After(columns, orders, b, a)
    ensures After(columns, orders, c, a)
  {
    var k1 :| 0 <= k1 < |columns| && SameBefore(orders, c, b, k1) && Beyond(columns, orders, c, b, k1);
    var k2 :| 0 <= k2 < |columns| && SameBefore(orders, b, a, k2) && Beyond(columns, orders, b, a, k2);
    var k := if k1 <= k2 then k1 else k2;
    forall t | 0 <= t < k ensures Same(orders[t], c[t], a[t]) {
      assert TotalPreorder(orders[t]) && Same(orders[t], c[t], b[t]) && Same(orders[t], b[t], a[t]);
    }
    assert Beyond(columns, orders, c, a, k) by {
      assert TotalPreorder(orders[k]);
      assert k < k1 ==> Same(orders[k], c[k], b[k]);
      assert k < k2 ==> Same(orders[k], b[k], a[k]);
    }
  }

  lemma {:induction false} FirstDifference(orders: seq<Order>, a: seq<Bound>, b: seq<Bound>, n: nat) returns (k: nat)
    requires n <= |orders| && n <= |a| && n <= |b| && !SameBefore(orders, a, b, n)
    ensures k < n && SameBefore(orders, a, b, k) && !Same(orders[k], a[k], b[k])
  {
    if SameBefore(orders, a, b, n - 1) {
      k := n - 1;
    } else {
      k := FirstDifference(orders, a, b, n - 1);
    }
  }

  /** Keys that are not the same on every column are comparable. */
  lemma AfterTotal(columns: seq<KeyColumn>, orders: seq<Order>, a: seq<Bound>, b: seq<Bound>)
    requires |a| == |b| == |columns| && Orders(orders, |columns|) && !SameBefore(orders, a, b, |columns|)
    ensures After(columns, orders, a, b) || After(columns, orders, b, a)
  {
    var k := FirstDifference(orders, a, b, |columns|);
    assert TotalPreorder(orders[k]);
    assert SameBefore(orders, b, a, k);
    if Beyond(columns, orders, a, b, k) {
      assert After(columns, orders, a, b);
    } else {
      assert Beyond(columns, orders, b, a, k);
    }
  }

  // ---------------------------------------------------------------- compiler

  predicate AllBind(calendar: Calendar, columns: seq<KeyColumn>, cursor: seq<CursorValue>, n: nat)
    requires n <= |columns| && n <= |cursor|
  {
    forall j :: 0 <= j < n ==> BindCursor(calendar, cursor[j], columns[j]).Some?
  }

  function Bounds(calendar: Calendar, columns: seq<KeyColumn>, cursor: seq<CursorValue>, n: nat): (b: seq<Bound>)
    requires n <= |columns| && n <= |cursor| && AllBind(calendar, columns, cursor, n)
    ensures |b| == n
  {
    seq(n, j requires 0 <= j < n => BindCursor(calendar, cursor[j], columns[j]).value)
  }

  lemma BoundsGrow(calendar: Calendar, columns: seq<KeyColumn>, cursor: seq<CursorValue>, n: nat)
    requires n < |columns| && n < |cursor| && AllBind(calendar, columns, cursor, n + 1)
    ensures Bounds(calendar, columns, cursor, n + 1)
         == Bounds(calendar, columns, cursor, n) + [BindCursor(calendar, cursor[n], columns[n]).value]
  {
    hide BindCursor;
  }

  /** The terms and parameters of the source's inner loop. */
  method CompileClause(calendar: Calendar, columns: seq<KeyColumn>, cursor: seq<CursorValue>, index: nat)
    returns (r: Result<(Clause, seq<Bound>), ()>)
    requires |cursor| == |columns| && index < |columns|
    ensures r.Success? == AllBind(calendar, columns, cursor, index + 1)
    ensures r.Success? ==> r.value == (PrefixClause(columns, index), Bounds(calendar, columns, cursor, index + 1))
  {
    hide BindCursor, Bounds;
    var terms: Clause, args: seq<Bound> := [], [];
    NoBounds(calendar, columns, cursor);
    for prefix := 0 to index
      invariant |terms| == prefix && AllBind(calendar, columns, cursor, prefix)
      invariant args == Bounds(calendar, columns, cursor, prefix)
      invariant forall t :: 0 <= t < prefix ==> terms[t] == Term(t, Equal)
    {
      terms := terms + [Term(prefix, Equal)];
      var bound := BindCursor(calendar, cursor[prefix], columns[prefix]);
      if bound == None {
        return Failure(());
      }
      BoundsGrow(calendar, columns, cursor, prefix);
      args := args + [bound.value];
    }
    terms := terms + [Term(index, if columns[index].direction == Desc then Less else Greater)];
    var bound := BindCursor(calendar, cursor[index], columns[index]);
    if bound == None {
      return Failure(());
    }
    BoundsGrow(calendar, columns, cursor, index);
    args := args + [bound.value];
    var expected := PrefixClause(columns, index);
    assert terms[index] == Term(index, DirectedOperator(columns[index].direction));
    forall t | 0 <= t < |terms| ensures terms[t] == expected[t] {
      if t < index {
        assert terms[t] == Term(t, Equal);
      }
    }
    assert |terms| == |expected|;
    assert terms == expected;
    r := Success((terms, args));
  }

  lemma NoBounds(calendar: Calendar, columns: seq<KeyColumn>, cursor: seq<CursorValue>)
    ensures AllBind(calendar, columns, cursor, 0) && Bounds(calendar, columns, cursor, 0) == []
  {
  }

  /** Fails exactly when some cursor value does not bind; otherwise one parameter per placeholder, in order. */
  method CompileCursor(calendar: Calendar, columns: seq<KeyColumn>, cursor: seq<CursorValue>)
    returns (r: Result<(seq<Clause>, seq<Bound>), ()>)
    requires |cursor| == |columns|
    ensures r.Success? == AllBind(calendar, columns, cursor, |columns|)
    ensures r.Success? ==>
              && r.value.0 == CursorClauses(columns, |columns|)
              && r.value.1 == CursorBinds(Bounds(calendar, columns, cursor, |columns|), |columns|)
  {
    hide BindCursor, Bounds, PrefixClause;
    NoBounds(calendar, columns, cursor);
    var parts: seq<Clause>, args: seq<Bound> := [], [];
    for index := 0 to |columns|
      invariant parts == CursorClauses(columns, index)
      invariant AllBind(calendar, columns, cursor, index)
      invariant args == CursorBinds(Bounds(calendar, columns, cursor, index), index)
    {
      var clause := CompileClause(calendar, columns, cursor, index);
      if clause.Failure? {
        return Failure(());
      }
      parts := parts + [clause.value.0];
      args := args + clause.value.1;
      BoundsGrow(calendar, columns, cursor, index);
      BindsExtend(Bounds(calendar, columns, cursor, index), Bounds(calendar, columns, cursor, index + 1), index);
    }
    r := Success((parts, args));
  }

  lemma {:induction false} BindsExtend(a: seq<Bound>, b: seq<Bound>, n: nat)
    requires n <= |a| && n <= |b| && a[..n] == b[..n]
    ensures CursorBinds(a, n) == CursorBinds(b, n)
  {
    if n > 0 {
      assert a[..n - 1] == a[..n][..n - 1] && b[..n - 1] == b[..n][..n - 1];
      BindsExtend(a, b, n - 1);
    }
  }
}
