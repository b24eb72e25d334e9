/**
 One keyset request (internal/adapters/mysql8/keyset.go): the statement it compiles to, what a server selects for it,
 and how many parameters validation has authorized (internal/queryspec/keyset.go).
 */
module KeysetStatement {
  import opened Wrappers
  import opened JsonText
  import opened KeysetCursor
  import opened KeysetPredicate
  import opened KeysetCollector
  import opened CompiledFilter
  import FilterNormalForm

  // ------------------------------------------------------------------- table

  /** A stored row: the projected cells, and whatever else the filter may look at. */
  datatype TableRow = TableRow(values: RawRow, unprojected: RawRow)

  /**
   A fixed table and one query over it. `binder` is how the filter's operands bind to the source's columns,
   `compare` is what the server computes for one comparison in a row, and `orders` is its ordering of each
   key column.
   */
  datatype Database = Database(
    table: set<TableRow>, query: Query, orders: seq<Order>, filter: Option<FilterNormalForm.Filter>, binder: Binder<Bound>,
    compare: TableRow -> Comparing<Bound>)

  /** The ordered tuple of a row. */
  function Key(query: Query, values: RawRow): (key: seq<Bound>)
    ensures |key| == |query.columns|
  {
    seq(|query.columns|, j requires 0 <= j < |query.columns| =>
      KeyValue(CellText(values, query.columns[j].cell), query.columns[j]))
  }

  /** ORDER BY: at the first term on which the keys differ, ASC puts the smaller one first and DESC the greater one. */
  ghost predicate Precedes(terms: seq<Direction>, orders: seq<Order>, a: seq<Bound>, b: seq<Bound>)
    requires |terms| == |orders| == |a| == |b|
  {
    exists k :: 0 <= k < |terms| && SameBefore(orders, a, b, k) && ComesFirst(terms[k], orders[k], a[k], b[k])
  }

  predicate ComesFirst(direction: Direction, le: Order, a: Bound, b: Bound) {
    if direction == Asc then le(a, b) && !le(b, a) else le(b, a) && !le(a, b)
  }

  function Directions(columns: seq<KeyColumn>): (terms: seq<Direction>)
    ensures |terms| == |columns|
  {
    seq(|columns|, j requires 0 <= j < |columns| => columns[j].direction)
  }

  /** Row a comes strictly before row b in the query's order. */
  ghost predicate Before(db: Database, a: TableRow, b: TableRow) {
    && |db.orders| == |db.query.columns|
    && Precedes(Directions(db.query.columns), db.orders, Key(db.query, a.values), Key(db.query, b.values))
  }

  lemma SameEitherWay(orders: seq<Order>, a: seq<Bound>, b: seq<Bound>, k: nat)
    requires k <= |orders| && k <= |a| && k <= |b|
    ensures SameBefore(orders, a, b, k) == SameBefore(orders, b, a, k)
  {
  }

  /** What ORDER BY puts later is what the cursor's predicate calls beyond. */
  lemma PrecedesIsAfter(columns: seq<KeyColumn>, orders: seq<Order>, a: seq<Bound>, b: seq<Bound>)
    requires |orders| == |a| == |b| == |columns|
    ensures Precedes(Directions(columns), orders, a, b) == After(columns, orders, b, a)
  {
    hide SameBefore;
    forall k | 0 <= k < |columns|
      ensures SameBefore(orders, a, b, k) == SameBefore(orders, b, a, k)
      ensures ComesFirst(Directions(columns)[k], orders[k], a[k], b[k]) == Beyond(columns, orders, b, a, k)
    {
      SameEitherWay(orders, a, b, k);
    }
  }

  lemma BeforeIsAfter(db: Database, a: TableRow, b: TableRow)
    ensures Before(db, a, b) ==
              (|db.orders| == |db.query.columns|
               && After(db.query.columns, db.orders, Key(db.query, b.values), Key(db.query, a.values)))
  {
    hide Key, After, Precedes;
    if |db.orders| == |db.query.columns| {
      PrecedesIsAfter(db.query.columns, db.orders, Key(db.query, a.values), Key(db.query, b.values));
    }
  }

  predicate KeysStored(query: Query, values: RawRow) {
    forall j :: 0 <= j < |query.columns| ==> StoredInColumn(CellText(values, query.columns[j].cell), query.columns[j])
  }

  /** The administrator's obligations and the column types: ordered key columns, unique full tuples. */
  ghost predicate ValidDatabase(db: Database) {
    var n := |db.query.columns|;
    && n >= 1 && db.query.limit >= 1 && Orders(db.orders, n)
    && (forall j :: 0 <= j < n ==> SupportedColumn(db.query.columns[j]))
    && (forall row :: row in db.table ==> KeysStored(db.query, row.values))
    && (forall a, b :: a in db.table && b in db.table && a != b ==>
          !SameBefore(db.orders, Key(db.query, a.values), Key(db.query, b.values), n))
  }

  // ------------------------------------------------------------------ filter

  /** The condition of the query's filter, if it has one. */
  function FilterCondition(db: Database): Option<Condition> {
    if db.filter == None then None else Some(ConditionOf(db.filter.value))
  }

  function FilterHoles(condition: Option<Condition>): seq<OperandHole> {
    if condition == None then [] else ConditionHoles(condition.value)
  }

  predicate FilterBinds(db: Database) {
    db.filter.Some? ==> FilterCompiles(db.binder, db.filter.value)
  }

  /** What belongs into each of the filter's placeholders. */
  function FilterArgs(db: Database): (args: seq<Bound>)
    ensures |args| == |FilterHoles(FilterCondition(db))|
  {
    var holes := FilterHoles(FilterCondition(db));
    seq(|holes|, i requires 0 <= i < |holes| =>
      var wanted := CompiledFilter.Wanted(db.binder, holes[i]); if wanted.Some? then wanted.value else IntBound(0))
  }

  /** The parameters that fill the placeholders are these. */
  lemma FilledAreArgs(db: Database, args: seq<Bound>)
    requires CompiledFilter.Filled(db.binder, args, FilterHoles(FilterCondition(db)))
    ensures args == FilterArgs(db)
  {
    hide FilterHoles, FilterCondition, CompiledFilter.Wanted;
  }

  /** The server's verdict on the filter alone. */
  predicate FilterHolds(db: Database, row: TableRow) {
    db.filter.Some? ==> Meaning(db.binder, db.compare(row), db.filter.value) == FilterNormalForm.True
  }

  /** What validation guarantees: operators have their arities, and a cursor has a value for each key. */
  predicate ValidRequest(db: Database, after: Option<seq<CursorValue>>) {
    (db.filter.Some? ==> ValidArities(db.filter.value)) && (after.Some? ==> |after.value| == |db.query.columns|)
  }

  // --------------------------------------------------------------- statement

  /**
   A compiled SELECT: the filter's condition and the cursor's predicate, if any, the directions of the ORDER BY terms,
   which are the key columns, and all parameters in textual order.
   */
  datatype Statement = Statement(
    condition: Option<Condition>, clauses: Option<seq<Clause>>, orderBy: seq<Direction>, args: seq<Bound>)

  /** compileKeyset: filter AND cursor, ORDER BY, LIMIT ? with one more row than the page may hold. */
  method CompileKeyset(db: Database, after: Option<seq<CursorValue>>) returns (r: Result<Statement, ()>)
    requires ValidRequest(db, after)
    ensures r.Success? == Accepts(db, after)
    ensures r.Success? ==> r.value == Compiled(db, after)
  {
    hide *;
    RequestParts(db, after);
    StatementParts(db, after);
    var condition: Option<Condition>, args: seq<Bound> := None, [];
    if db.filter.Some? {
      var filter := CompileFilter(db.binder, db.filter.value);
      if filter == None {
        return Failure(());
      }
      condition, args := Some(filter.value.0), filter.value.1;
    }
    FilledAreArgs(db, args);
    var clauses: Option<seq<Clause>> := None;
    if after.Some? {
      var cursor := CompileCursor(db.query.calendar, db.query.columns, after.value);
      if cursor.Failure? {
        return Failure(());
      }
      clauses := Some(cursor.value.0);
      args := args + cursor.value.1;
    }
    var terms: seq<Direction> := [];
    for index := 0 to |db.query.columns|
      invariant |terms| == index && forall j :: 0 <= j < index ==> terms[j] == db.query.columns[j].direction
    {
      terms := terms + [db.query.columns[index].direction];
    }
    TermsAreDirections(db.query.columns, terms);
    r := Success(Statement(condition, clauses, terms, args + [IntBound(db.query.limit + 1)]));
  }

  lemma TermsAreDirections(columns: seq<KeyColumn>, terms: seq<Direction>)
    requires |terms| == |columns| && forall j :: 0 <= j < |terms| ==> terms[j] == columns[j].direction
    ensures terms == Directions(columns)
  {
  }

  lemma RequestParts(db: Database, after: Option<seq<CursorValue>>)
    requires ValidRequest(db, after)
    ensures db.filter.Some? ==> ValidArities(db.filter.value)
    ensures after.Some? ==> |after.value| == |db.query.columns|
    ensures FilterBinds(db) == (db.filter.Some? ==> FilterCompiles(db.binder, db.filter.value))
    ensures FilterCondition(db) == if db.filter == None then None else Some(ConditionOf(db.filter.value))
    ensures FilterHoles(FilterCondition(db)) == if db.filter == None then [] else ConditionHoles(ConditionOf(db.filter.value))
    ensures db.filter == None ==> CompiledFilter.Filled(db.binder, [], FilterHoles(FilterCondition(db)))
  {
    hide ValidArities, FilterCompiles, ConditionHoles, ConditionOf;
  }

  /** The filter's operands and the request's cursor, if any, bind to the source's columns. */
  predicate Accepts(db: Database, after: Option<seq<CursorValue>>) {
    FilterBinds(db) && Binds(db.query, after)
  }

  /** The request's cursor, if any, binds to the key columns. */
  predicate Binds(query: Query, after: Option<seq<CursorValue>>) {
    after.Some? ==>
      |after.value| == |query.columns| && AllBind(query.calendar, query.columns, after.value, |query.columns|)
  }

  function Position(query: Query, after: Option<seq<CursorValue>>): seq<Bound> {
    if after.Some? && Binds(query, after) then Bounds(query.calendar, query.columns, after.value, |query.columns|) else []
  }

  function Compiled(db: Database, after: Option<seq<CursorValue>>): Statement {
    var n := |db.query.columns|;
    var position := Position(db.query, after);
    if after == None then Statement(FilterCondition(db), None, Directions(db.query.columns), FilterArgs(db) + [IntBound(db.query.limit + 1)])
    else
      Statement(FilterCondition(db), Some(CursorClauses(db.query.columns, n)), Directions(db.query.columns),
                FilterArgs(db) + CursorBinds(position, |position|) + [IntBound(db.query.limit + 1)])
  }

  lemma StatementParts(db: Database, after: Option<seq<CursorValue>>)
    requires after.Some? ==> |after.value| == |db.query.columns|
    ensures Accepts(db, after) == (FilterBinds(db) && Binds(db.query, after))
    ensures after == None ==>
              Binds(db.query, after)
              && Compiled(db, after)
                 == Statement(FilterCondition(db), None, Directions(db.query.columns), FilterArgs(db) + [IntBound(db.query.limit + 1)])
    ensures after.Some? ==>
              && var n, columns := |db.query.columns|, db.query.columns;
                 && Binds(db.query, after) == AllBind(db.query.calendar, columns, after.value, n)
                 && (Binds(db.query, after) ==>
                       Compiled(db, after)
                       == Statement(FilterCondition(db), Some(CursorClauses(columns, n)), Directions(columns),
                                    FilterArgs(db) + CursorBinds(Bounds(db.query.calendar, columns, after.value, n), n)
                                    + [IntBound(db.query.limit + 1)]))
  {
    hide AllBind, CursorClauses, CursorBinds, Bounds, FilterArgs, FilterBinds, FilterCondition, Directions;
    if Binds(db.query, after) && after.Some? {
      BoundsLength(db.query.calendar, db.query.columns, after.value);
    }
  }

  lemma BoundsLength(calendar: Calendar, columns: seq<KeyColumn>, cursor: seq<CursorValue>)
    requires |cursor| == |columns| && AllBind(calendar, columns, cursor, |columns|)
    ensures |Bounds(calendar, columns, cursor, |columns|)| == |columns|
  {
    hide BindCursor;
  }

  // ------------------------------------------------------------- placeholders

  /** A placeholder of the statement, named by what it stands for. */
  datatype Placeholder = FilterPlaceholder(hole: OperandHole) | CursorPlaceholder(column: nat) | LimitPlaceholder

  function FilterPlaceholders(holes: seq<OperandHole>): (p: seq<Placeholder>)
    ensures |p| == |holes|
  {
    seq(|holes|, i requires 0 <= i < |holes| => FilterPlaceholder(holes[i]))
  }

  /** One placeholder a term, for the term's own column. */
  function ClausePlaceholders(clause: Clause): (p: seq<Placeholder>)
    ensures |p| == |clause|
  {
    seq(|clause|, t requires 0 <= t < |clause| => CursorPlaceholder(clause[t].column))
  }

  function CursorPlaceholders(clauses: seq<Clause>): seq<Placeholder> {
    if clauses == [] then []
    else CursorPlaceholders(clauses[..|clauses| - 1]) + ClausePlaceholders(clauses[|clauses| - 1])
  }

  /** All placeholders, in the order in which the statement's text shows them. */
  function Placeholders(s: Statement): seq<Placeholder> {
    FilterPlaceholders(FilterHoles(s.condition)) + (if s.clauses == None then [] else CursorPlaceholders(s.clauses.value))
    + [LimitPlaceholder]
  }

  /** What belongs into a placeholder. */
  function Wanted(db: Database, after: Option<seq<CursorValue>>, p: Placeholder): Option<Bound> {
    match p
    case FilterPlaceholder(hole) => CompiledFilter.Wanted(db.binder, hole)
    case CursorPlaceholder(column) =>
      var position := Position(db.query, after); if column < |position| then Some(position[column]) else None
    case LimitPlaceholder => Some(IntBound(db.query.limit + 1))
  }

  /** One parameter for every placeholder, and at each position the one it stands for. */
  predicate Filled(db: Database, after: Option<seq<CursorValue>>, args: seq<Bound>, p: seq<Placeholder>) {
    |args| == |p| && forall k :: 0 <= k < |p| ==> Wanted(db, after, p[k]) == Some(args[k])
  }

  lemma FilledConcat(
    db: Database, after: Option<seq<CursorValue>>, a: seq<Bound>, p: seq<Placeholder>, b: seq<Bound>, q: seq<Placeholder>
  )
    requires Filled(db, after, a, p) && Filled(db, after, b, q)
    ensures Filled(db, after, a + b, p + q)
  {
    hide Wanted;
    forall k | 0 <= k < |p + q| ensures Wanted(db, after, (p + q)[k]) == Some((a + b)[k]) {
      if k < |p| {
        assert Wanted(db, after, p[k]) == Some(a[k]);
      } else {
        assert Wanted(db, after, q[k - |p|]) == Some(b[k - |p|]);
      }
    }
  }

  /** The filter's own parameters fill its placeholders, when all operands bind. */
  lemma FilterFilled(db: Database, after: Option<seq<CursorValue>>)
    requires FilterBinds(db) && ValidRequest(db, after)
    ensures Filled(db, after, FilterArgs(db), FilterPlaceholders(FilterHoles(FilterCondition(db))))
  {
    hide ValidArities, FilterCompiles, ConditionHoles, ConditionOf, CompiledFilter.Wanted, FilterHoles, FilterCondition;
    RequestParts(db, after);
    var holes := FilterHoles(FilterCondition(db));
    if db.filter.Some? {
      FilterFills(db.binder, db.filter.value);
    }
    forall k | 0 <= k < |holes| ensures CompiledFilter.Wanted(db.binder, holes[k]) == Some(FilterArgs(db)[k]) {
      assert CompiledFilter.Wanted(db.binder, holes[k]).Some?;
    }
  }

  /** The clause of column i takes the first i + 1 bounds. */
  lemma ClauseFilled(db: Database, after: Option<seq<CursorValue>>, i: nat)
    requires i < |db.query.columns| == |Position(db.query, after)|
    ensures Filled(db, after, Position(db.query, after)[..i + 1], ClausePlaceholders(PrefixClause(db.query.columns, i)))
  {
    hide Position;
    var clause := PrefixClause(db.query.columns, i);
    assert forall t :: 0 <= t <= i ==> clause[t].column == t;
  }

  lemma {:induction false} CursorFilled(db: Database, after: Option<seq<CursorValue>>, n: nat)
    requires n <= |db.query.columns| == |Position(db.query, after)|
    ensures Filled(db, after, CursorBinds(Position(db.query, after), n), CursorPlaceholders(CursorClauses(db.query.columns, n)))
    decreases n
  {
    hide Position, Filled, PrefixClause, ClausePlaceholders;
    if n == 0 {
      NothingFilled(db, after);
    } else {
      var position, clauses := Position(db.query, after), CursorClauses(db.query.columns, n);
      CursorFilled(db, after, n - 1);
      ClauseFilled(db, after, n - 1);
      assert clauses[..n - 1] == CursorClauses(db.query.columns, n - 1);
      FilledConcat(db, after, CursorBinds(position, n - 1), CursorPlaceholders(clauses[..n - 1]), position[..n],
                   ClausePlaceholders(clauses[n - 1]));
    }
  }

  lemma NothingFilled(db: Database, after: Option<seq<CursorValue>>)
    ensures Filled(db, after, [], [])
  {
  }

  lemma LimitFilled(db: Database, after: Option<seq<CursorValue>>)
    ensures Filled(db, after, [IntBound(db.query.limit + 1)], [LimitPlaceholder])
  {
  }

  lemma PositionLength(db: Database, after: Option<seq<CursorValue>>)
    requires Binds(db.query, after)
    ensures |Position(db.query, after)| == (if after.Some? then |db.query.columns| else 0)
  {
    hide AllBind, Bounds;
    if after.Some? {
      BoundsLength(db.query.calendar, db.query.columns, after.value);
    }
  }

  /** At every position of an accepted request's statement the parameter is the one that its placeholder stands for. */
  lemma StatementFilled(db: Database, after: Option<seq<CursorValue>>)
    requires ValidRequest(db, after) && Accepts(db, after)
    ensures Filled(db, after, Compiled(db, after).args, Placeholders(Compiled(db, after)))
  {
    hide Filled, CursorBinds, CursorPlaceholders, CursorClauses, FilterPlaceholders, FilterHoles, FilterArgs, FilterCondition,
         Binds, Position;
    var n, position := |db.query.columns|, Position(db.query, after);
    var filterHoles := FilterPlaceholders(FilterHoles(FilterCondition(db)));
    FilterFilled(db, after);
    LimitFilled(db, after);
    PositionLength(db, after);
    if after == None {
      FilledConcat(db, after, FilterArgs(db), filterHoles, [IntBound(db.query.limit + 1)], [LimitPlaceholder]);
      assert filterHoles + [] == filterHoles;
    } else {
      CursorFilled(db, after, n);
      FilledConcat(db, after, FilterArgs(db), filterHoles, CursorBinds(position, n),
                   CursorPlaceholders(CursorClauses(db.query.columns, n)));
      FilledConcat(db, after, FilterArgs(db) + CursorBinds(position, n),
                   filterHoles + CursorPlaceholders(CursorClauses(db.query.columns, n)),
                   [IntBound(db.query.limit + 1)], [LimitPlaceholder]);
    }
  }

  // ------------------------------------------------------------------- counts

  /** The filter's values, n(n+1)/2 for a cursor of n keys, and one for LIMIT. */
  function AuthorizedParameters(filter: Option<FilterNormalForm.Filter>, after: Option<seq<CursorValue>>): nat {
    (if filter == None then 0 else FilterParameters(filter.value))
    + (if after == None then 0 else CursorParameterCount(|after.value|)) + 1
  }

  /** The end of ValidateKeyset: the request's parameters, unless they exceed the maximum. */
  method CountParameters(filter: Option<FilterNormalForm.Filter>, after: Option<seq<CursorValue>>, maximum: int)
    returns (r: Option<nat>)
    ensures r == if AuthorizedParameters(filter, after) <= maximum then Some(AuthorizedParameters(filter, after)) else None
  {
    hide FilterParameters, CursorParameterCount;
    var parameters := if filter == None then 0 else FilterParameters(filter.value);
    var cursorParameters: nat := 0;
    if after.Some? {
      cursorParameters := CursorParameterCount(|after.value|);
    }
    if parameters > maximum - 1 || cursorParameters > maximum - 1 - parameters {
      return None;
    }
    r := Some(parameters + (cursorParameters + 1));
  }

  /** The compiled statement has exactly as many placeholders, and parameters, as validation has counted. */
  lemma PlaceholdersAreAuthorized(db: Database, after: Option<seq<CursorValue>>)
    requires ValidRequest(db, after) && Accepts(db, after)
    ensures |Placeholders(Compiled(db, after))| == |Compiled(db, after).args| == AuthorizedParameters(db.filter, after)
  {
    hide CursorBinds, CursorPlaceholders, CursorClauses, ConditionHoles, ConditionOf, FilterParameters, Wanted, ValidArities,
         FilterCompiles, AllBind, Bounds, CursorParameterCount;
    StatementFilled(db, after);
    PositionLength(db, after);
    if db.filter.Some? {
      FilterHolesCount(db.filter.value);
    }
    if after.Some? {
      BindsMatchCount(Position(db.query, after), |db.query.columns|);
    }
  }

  // ------------------------------------------------------------------ meaning

  /** The rows the server selects for a statement: the condition takes the first parameters, the cursor the next ones. */
  predicate Matches(db: Database, statement: Statement, row: TableRow) {
    var n := |FilterHoles(statement.condition)|;
    && n <= |statement.args|
    && (statement.condition.Some? ==>
          EvaluateCondition(db.compare(row), statement.condition.value, statement.args[..n]) == FilterNormalForm.True)
    && (statement.clauses.Some? ==>
          EvalClauses(statement.clauses.value, statement.args, n, Key(db.query, row.values), db.orders))
  }

  lemma ArgumentsInPlace(before: seq<Bound>, binds: seq<Bound>, limit: Bound)
    ensures |before| + |binds| <= |before + binds + [limit]|
    ensures (before + binds + [limit])[|before|..|before| + |binds|] == binds
  {
  }

  /** The compiled condition, with its own parameters, is the filter's verdict. */
  lemma ConditionMeaning(db: Database, after: Option<seq<CursorValue>>, row: TableRow)
    requires ValidRequest(db, after) && FilterBinds(db) && db.filter.Some?
    ensures FilterCondition(db) == Some(ConditionOf(db.filter.value))
    ensures |FilterArgs(db)| == |ConditionHoles(ConditionOf(db.filter.value))|
    ensures EvaluateCondition(db.compare(row), ConditionOf(db.filter.value), FilterArgs(db))
         == Meaning(db.binder, db.compare(row), db.filter.value)
  {
    hide ValidArities, FilterCompiles, ConditionHoles, ConditionOf, CompiledFilter.Wanted, EvaluateCondition, Meaning;
    FilterFills(db.binder, db.filter.value);
    ArgsFill(db);
    CompiledFilterMeans(db.binder, db.compare(row), db.filter.value, FilterArgs(db));
  }

  lemma ArgsFill(db: Database)
    requires AllWanted(db.binder, FilterHoles(FilterCondition(db)))
    ensures CompiledFilter.Filled(db.binder, FilterArgs(db), FilterHoles(FilterCondition(db)))
  {
    hide FilterHoles, FilterCondition, CompiledFilter.Wanted;
  }

  /** The statement selects the filtered rows strictly after the cursor's position. */
  lemma StatementMeaning(db: Database, after: Option<seq<CursorValue>>, row: TableRow)
    requires ValidRequest(db, after) && Accepts(db, after) && |db.orders| == |db.query.columns|
    ensures |Position(db.query, after)| == (if after.Some? then |db.query.columns| else 0)
    ensures Matches(db, Compiled(db, after), row)
         == (FilterHolds(db, row)
             && (after.Some? ==>
                   After(db.query.columns, db.orders, Key(db.query, row.values), Position(db.query, after))))
  {
    hide CursorClauses, CursorBinds, Key, After, EvalClauses, FilterArgs, ConditionOf, ConditionHoles, Binds, Position,
         FilterBinds, ValidRequest, Meaning, EvaluateCondition, Directions;
    PositionLength(db, after);
    var args, filterArgs := Compiled(db, after).args, FilterArgs(db);
    assert args[..|filterArgs|] == filterArgs;
    if db.filter.Some? {
      ConditionMeaning(db, after, row);
    }
    if after.Some? {
      var position := Position(db.query, after);
      ArgumentsInPlace(filterArgs, CursorBinds(position, |position|), IntBound(db.query.limit + 1));
      PredicateIsAfter(db.query.columns, db.orders, Key(db.query, row.values), position, args, |filterArgs|);
    }
  }

  // ------------------------------------------------------------------- answer

  /**
   What a server may answer to a statement: the rows that match, each once and none of them later than a row that
   ORDER BY puts behind it, up to as many as the last parameter says.
   */
  ghost predicate Answers(db: Database, s: Statement, ordering: seq<TableRow>, stream: seq<StreamRow>) {
    && |s.orderBy| == |db.orders| == |db.query.columns| && s.args != [] && s.args[|s.args| - 1].IntBound?
    && (forall row :: row in ordering <==> row in db.table && Matches(db, s, row))
    && (forall i, j :: 0 <= i < j < |ordering| ==> MayFollow(db, s, ordering[i], ordering[j]))
    && Limited(ordering, stream, s.args[|s.args| - 1].number)
  }

  ghost predicate MayFollow(db: Database, s: Statement, a: TableRow, b: TableRow)
    requires |s.orderBy| == |db.orders| == |db.query.columns|
  {
    a != b && !Precedes(s.orderBy, db.orders, Key(db.query, b.values), Key(db.query, a.values))
  }

  predicate Limited(ordering: seq<TableRow>, stream: seq<StreamRow>, limit: int) {
    && |stream| == (if |ordering| <= limit then |ordering| else limit)
    && forall i :: 0 <= i < |stream| ==> stream[i].values == ordering[i].values
  }
}
