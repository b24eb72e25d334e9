# Quordon: a verified model of its hard logic

Quordon turns typed, policy-checked queries into MySQL statements and streams the results back under exact byte budgets.
This project models the parts of it whose correctness is not visible from one function body, and proves what they are for:

- **Keyset pagination**: the cursor predicate, the compiled statement, the page collector with its two envelopes, the cursor
  round trip, and whole runs of pages (`KeysetPredicate`, `KeysetStatement`, `KeysetCursor`, `KeysetCollector`, `KeysetPaging`).
- **Byte budgets**: encoded sizes that are exact, and the grouped aggregate's largest legal prefix (`JsonText`,
  `StreamedRows`, `AggregateCollector`).
- **Exact arithmetic on text**: decimals for DECIMAL keys, JSON integers, numeric bucket boundaries (`DecimalText`,
  `ExactDecimal`, `JsonInteger`, `NumericBuckets`, over `Digits`).
- **The index-merge recogniser** as an explicit-stack machine that decides a recursive grammar (`IndexMerge`).
- **The policy assembler**: aliases, `$ref` and `$override` over a shared graph with a cache, cycle detection and budgets
  (`PolicyGraph`, `PolicyAliases`, `PolicyMeaning`, `PolicyOverride`, `PolicyJson`, `PolicyAccounting`, `PolicyBudgets`, `PolicyAssembler`).
- **Filter normal form and shape matching** (`FilterNormalForm`, `NormalForms`, `AggregateShapes`, `ShapeMatching`,
  `ShapeOverlap`, over `Sequences` and `Sorting`), and **compiled statements** with their placeholders, what they ask for and
  what their WHERE clause and the bucket CASE evaluate to (`CompiledFilter`, `AggregateStatement`, `AggregateMeaning`).
- **Protocols**: connection clean-up under arbitrary failures, the two-level capacity gate, the audit sink
  (`SessionCleanup`, `CapacityGate`, `AuditSink`).
- **Limits held twice** (`QueryLimits`) and **partition metadata** folded row by row against an independent validator
  (`PartitionStatistics`, `PartitionRules`).

Code that updates state keeps that form: the collectors' results, the policy loader, the alias check, the JSON buffer, the
filter statistics and the connection are classes whose methods are proved against specification functions and predicates;
loops are loops with invariants. Integers are unbounded: the sizes, counts and depths of the source are bounded by budgets far
below its integer width, and where a width matters (64-bit integers, 65-digit decimals, `Itoa`) it is written out.

## Reading the results

- `KeysetPaging.RunReturnsEveryRowOnce`: over a table whose ordered tuples are stored, supported and unique (the
  administrator's obligation, `ValidDatabase`), following `next_cursor` to the end returns exactly the filtered rows, each
  once, in order; the server answers a statement by its own WHERE, ORDER BY and LIMIT (`KeysetStatement.Precedes` reads the
  ORDER BY terms without the cursor predicate's operators), and the filter counts by its own meaning; `RunMakesProgress` says that an unfinished run can always go on, and `OrderingExists` that the theorem is
  not empty. `KeysetCollector.IsPage` fixes a page completely, so `PageIsUnique`.
- `PolicyGraph.Meaning` is the reference for the assembler: aliases and references inlined, overrides applied. It is computed
  with fuel because references can be cyclic; `PolicyMeaning.StandsFor` says the same as a relation on the positions of pairs
  and elements, and `MeansIsStandsFor` that both agree. `PolicyAssembler.PolicyLoader.Load` gives that tree, with exact accounting, or an
  error: a semantic error only when there is no such tree, and any error only when the tree is not affordable, in the sense of
  `PolicyBudgets.Affordable`. The cache can only help: a cached node charges its node count, which never exceeds what
  assembling it charges, and the recorded height never exceeds the levels its meaning needs.
- `QueryLimits`: revalidation equals validation under the stricter limits if and only if the new limits are ones that
  `Revalidate` accepts at all, or validation rejects as well (`WhenTheyDiffer`). `NegativeLimitDiffers` is a concrete case: a
  query without a filter under a negative predicate limit, which validation never looks at.
- Where a specification function is also what the code computes, a second description of it is proved equal: exponents and
  signs by the pieces of a text (`DecimalText.SpelledTextDenotes`), mapping lookups by positions (`PolicyGraph.FieldIsPair`),
  filter normal forms, shape matching and overlap by permutations (`NormalForms`, `ShapeMatching`, `ShapeOverlap`), partition
  rows by the server's texts, and the service's verdict by positions (`PartitionRules`).
- `SessionCleanup`: the restoring branch of Aggregate's deferred function is unreachable, because the flag it looks at has been
  cleared whenever the call succeeds; the model keeps the branch as the code has it.

## Model

| member | source | states |
|---|---|---|
| `KeysetPredicate.CompileClause` | internal/adapters/mysql8/keyset.go:954-990 | fails exactly when one of the values up to this column does not bind; otherwise the clause is "equal before, beyond here" with one parameter for each of its placeholders |
| `KeysetPredicate.CompileCursor` | internal/adapters/mysql8/keyset.go:954-990 | fails exactly when some cursor value does not bind; otherwise one prefix clause for each key and the bounds in textual order |
| `KeysetPredicate.ClauseMeans` | internal/adapters/mysql8/keyset.go:954-990 | a clause evaluated with its positional parameters holds exactly for rows that are the same before its column and strictly beyond on it |
| `KeysetPredicate.PredicateIsAfter` | internal/adapters/mysql8/keyset.go:954-990 | the whole OR of ANDs, evaluated with its parameters wherever they stand in the statement, is strict lexicographic "after" with mixed directions: on the first column that differs, greater for an ascending key and less for a descending one |
| `KeysetPredicate.OperatorGoesBeyond` | internal/adapters/mysql8/keyset.go:970-976 | the operator chosen for a column goes to greater values for an ascending key and to smaller ones for a descending key, whatever the total order of the column |
| `KeysetPredicate.AfterIrreflexive` | internal/adapters/mysql8/keyset.go:954-990 | no key comes after itself, so the row a cursor names is never returned again |
| `KeysetPredicate.AfterTransitive` | internal/adapters/mysql8/keyset.go:954-990 | "after" is transitive |
| `KeysetPredicate.AfterTotal` | internal/adapters/mysql8/keyset.go:954-990 | keys that differ somewhere are comparable, so no row is skipped |
| `KeysetPredicate.BindsMatchCount` | internal/queryspec/keyset.go:404-406 | a cursor of n keys takes n(n+1)/2 parameters |
| `KeysetCursor.CursorRoundTrip` | internal/adapters/mysql8/keyset.go:1358-1398 | materializing the cursor of a stored, valid cell gives an acceptable cursor value that binds to exactly that cell's key value, for every kind of column |
| `KeysetCursor.IntegerRoundTrip` | internal/adapters/mysql8/keyset.go:1079-1097 | the same for integers of every width and sign |
| `KeysetCursor.IntegerIsBound` | internal/adapters/mysql8/keyset.go:1079-1097 | a cursor that is the decimal text of an integer in the column's range binds to that integer |
| `KeysetCursor.KeysNameCells` | internal/adapters/mysql8/keyset.go:1358-1398 | two cells that the collector accepts in one column and that stand for one key value are the same cell |
| `KeysetCursor.TimestampRoundTrip` | internal/adapters/mysql8/keyset.go:1042-1070 | the same for timestamps, whose cursor text has another separator and a zone suffix |
| `KeysetCursor.Base64RoundTrip` | internal/adapters/mysql8/keyset.go:1358-1375 | strict base64 decoding inverts encoding for every byte string |
| `KeysetCollector.EncodedCursorSize` | internal/adapters/mysql8/keyset.go:1317-1351 | the exact size of the cursor's items, or nothing when a key has no cursor text or the maximum is exceeded |
| `KeysetCollector.MaterializeCursor` | internal/adapters/mysql8/keyset.go:1358-1375 | the cursor of a row, exactly when every key has one |
| `KeysetCollector.FinalSizeGrows` | internal/adapters/mysql8/keyset.go:1099-1189 | what the collector adds for one more row (separator, digits of row_count, row) is the difference of the real response sizes |
| `KeysetCollector.MoreSizeFromFinal` | internal/adapters/mysql8/keyset.go:1099-1189 | the continuation's size computed from the final envelope's is the real size of the response with its cursor |
| `KeysetCollector.KeepRow` | internal/adapters/mysql8/keyset.go:1099-1189 | one row is kept exactly when the final envelope holds it, and is provisional exactly when the continuation does not |
| `KeysetCollector.StopsAtPage` | internal/adapters/mysql8/keyset.go:1099-1189 | when a further row is seen, dropping a provisional last row gives the longest continuable page with the cursor of its last row, or there is no page at all |
| `KeysetCollector.CollectKeysetRows` | internal/adapters/mysql8/keyset.go:1099-1189 | success returns the stream's page: a prefix of at most limit rows, has_more exactly when a row was omitted, the last row's cursor, and the exact size of the chosen envelope within the maximum; with readable rows it fails exactly when no page exists |
| `KeysetCollector.PageIsUnique` | internal/adapters/mysql8/keyset.go:1099-1189 | the page is a function of the stream, the limit and the maximum |
| `KeysetCollector.PageMeansExists` | internal/adapters/mysql8/keyset.go:1099-1189 | a page exists only when everything fits or the first row can be continued |
| `KeysetStatement.CompileKeyset` | internal/adapters/mysql8/keyset.go:521-589 | fails exactly when the filter does not compile or the cursor does not bind; parameters are the filter's, the cursor's and then limit + 1 |
| `KeysetStatement.StatementFilled` | internal/adapters/mysql8/keyset.go:521-589 | at every position of the statement, in the filter, in the cursor predicate and for LIMIT, the parameter is the one that the placeholder stands for |
| `KeysetStatement.CountParameters` | internal/queryspec/keyset.go:197-225 | the filter's values, n(n+1)/2 for a cursor of n keys and one for LIMIT, unless they exceed the maximum |
| `KeysetStatement.PlaceholdersAreAuthorized` | internal/queryspec/keyset.go:197-225 | the compiled statement has exactly as many placeholders and parameters as validation has counted |
| `KeysetStatement.StatementMeaning` | internal/adapters/mysql8/keyset.go:521-589 | the statement, evaluated with its own parameters, selects exactly the rows for which the query's filter means true and which ORDER BY's own terms put strictly after the cursor's position |
| `KeysetStatement.PrecedesIsAfter` | internal/adapters/mysql8/keyset.go:578-589 | the order that the ORDER BY terms give, read term by term, and the cursor predicate's "after" are converse relations |
| `KeysetPaging.OrderingUnique` | internal/adapters/mysql8/keyset.go:521-589 | with unique tuples, ORDER BY leaves only one order of the rows |
| `KeysetPaging.OrderingExists` | internal/adapters/mysql8/keyset.go:521-589 | every set of table rows has such an order |
| `KeysetPaging.SelectedIsTail` | internal/adapters/mysql8/keyset.go:521-589 | behind a cursor that names row k the statement selects exactly the rows after k, in order |
| `KeysetPaging.AnswerIsOrdered` | internal/adapters/mysql8/keyset.go:521-589 | what the server answers to the compiled statement is the beginning of the selected rows in order, as many as LIMIT allows |
| `KeysetPaging.SelectPage` | internal/adapters/mysql8/keyset.go:46-196 | from compilation on, success is one turn of a run over what the server answers to the compiled statement; it rejects a request exactly when its filter does not compile or its cursor does not bind, and otherwise fails only for a failing stream, an unreadable row or a stream without a page |
| `KeysetPaging.TurnAdvances` | internal/adapters/mysql8/keyset.go:1099-1189 | a page adds the next rows in order, and ends the run or leaves a cursor that names its last row |
| `KeysetPaging.RunDelivers` | internal/adapters/mysql8/keyset.go:1099-1189 | after any number of pages the client holds a prefix of the ordered rows, without gaps or repetitions |
| `KeysetPaging.RunReturnsEveryRowOnce` | internal/adapters/mysql8/keyset.go:1099-1189 | a run followed until has_more is false returns exactly the rows for which the filter means true, each once, in the order of ORDER BY's terms, in at most one page a row |
| `KeysetPaging.RunMakesProgress` | internal/adapters/mysql8/keyset.go:1099-1189 | an unfinished run has received at least a row a page, rows are left, and its cursor is acceptable, binds and compiles again |
| `JsonText.EncodedJsonStringSize` | internal/adapters/mysql8/mysql8.go:901-941 | the exact size of the JSON string for any bytes, including invalid UTF-8 and HTML escapes, or nothing beyond the maximum |
| `JsonText.RuneOfCharacter` | internal/adapters/mysql8/mysql8.go:901-941 | in front of the UTF-8 encoding of a Unicode scalar value, written out from section 3 of RFC 3629, the rune is as wide as the encoding |
| `JsonText.RuneIsCharacter` | internal/adapters/mysql8/mysql8.go:901-941 | a rune of more than one byte is the encoding of some scalar value |
| `JsonText.EncodedRowSize` | internal/adapters/mysql8/mysql8.go:867-899 | the exact size of the materialized row's JSON, or nothing when the widths differ or the maximum is exceeded |
| `JsonText.DecimalDigits` | internal/adapters/mysql8/aggregate.go:853-863 | the number of characters of the decimal text |
| `AggregateCollector.SizeGrows` | internal/adapters/mysql8/aggregate.go:656-796 | the increment for one more row is the difference of real response sizes, and the truncated response is one byte shorter |
| `AggregateCollector.NextRow` | internal/adapters/mysql8/aggregate.go:656-796 | how the next row's size decides between keeping it, keeping it provisionally and truncating before it |
| `AggregateCollector.ProvisionalDropped` | internal/adapters/mysql8/aggregate.go:656-796 | a provisional row without a successor is dropped, and what remains is still the largest legal prefix |
| `AggregateCollector.AggregateResult.constructor` | internal/adapters/mysql8/aggregate.go:137-139 | a new result has no rows, is not truncated and has the size it is given, which its caller has measured |
| `AggregateCollector.DecideRow` | internal/adapters/mysql8/aggregate.go:656-796 | one readable row is taken as the sizes decide |
| `AggregateCollector.CollectAggregateRows` | internal/adapters/mysql8/aggregate.go:656-796 | a grouped query returns the largest prefix that is legal under the limit and the maximum with the right flag, truncated exactly when a row was omitted, with its exact size; it fails only for an unreadable row or a failing stream; a scalar query succeeds exactly on one readable row that fits |
| `ExactDecimal.ParseBoundedExponent` | internal/adapters/mysql8/keyset.go:914-944 | accepts exactly signed digit strings and returns the exponent, or the bound on its side; for a sign and digits the exponent is the digits' number, negated exactly behind a minus |
| `DecimalText.SpelledTextDenotes` | internal/adapters/mysql8/keyset.go:790-944 | a text put together from a sign, integral and fraction digits and a power denotes the number of its pieces |
| `DecimalText.NumbersAreSpelled` | internal/adapters/mysql8/keyset.go:790-944 | each text that denotes a number is put together from such pieces |
| `DecimalText.PowersOfTen` | internal/adapters/mysql8/keyset.go:914-944 | with either mark, "e" and "e+" multiply the number of the text before them by ten to the digits behind them, and "e-" divides it by that |
| `ExactDecimal.ReducedRepresentable` | internal/adapters/mysql8/keyset.go:869-884 | for digits without surrounding zeros, the two counts of the code decide whether the column holds the number exactly |
| `ExactDecimal.ScanMantissa` | internal/adapters/mysql8/keyset.go:820-861 | the digit loop separates leading zeros, significant digits and trailing zeros, and fails only for malformed or overlong digits |
| `ExactDecimal.TooManyDigits` | internal/adapters/mysql8/keyset.go:845-858 | more significant digits than the precision are never representable, whatever follows them |
| `ExactDecimal.SaturationIsHarmless` | internal/adapters/mysql8/keyset.go:914-944 | saturating the exponent changes no verdict, and an accepted exponent is exact |
| `ExactDecimal.SpelledReads` | internal/adapters/mysql8/keyset.go:886-911 | the written text has no exponent and denotes the same number |
| `ExactDecimal.WriteFixed` | internal/adapters/mysql8/keyset.go:886-911 | writes the fixed-point spelling of the digits at their scale |
| `ExactDecimal.NormalizeExactDecimal` | internal/adapters/mysql8/keyset.go:790-912 | succeeds exactly on well-formed text whose value is zero or which the column's precision, scale and sign hold exactly, for any exponent; the output denotes the same value, has no exponent and at most precision + 3 characters; the same is stated on the pieces of the text |
| `JsonInteger.ParseSaturatedExponent` | internal/queryspec/types.go:678-696 | the exponent, or the bound on its side; for a sign and digits the exponent is the digits' number, negated exactly behind a minus |
| `JsonInteger.LastDigitsDecide` | internal/queryspec/types.go:628-641 | with k fraction digits the number is an integer exactly when its last k digits are zeros |
| `JsonInteger.SaturationIsHarmless` | internal/queryspec/types.go:678-696 | a saturated exponent is rejected, and so is the real one |
| `JsonInteger.Accumulate` | internal/queryspec/types.go:643-668 | the magnitude of digits and zeros, unless it exceeds the limit of its sign |
| `JsonInteger.Int64NumberMeans` | internal/queryspec/types.go:589-676 | the acceptance condition is that some signed 64-bit integer is the number's exact value |
| `JsonInteger.ParseJsonInteger` | internal/queryspec/types.go:589-676 | accepts a number of section 6 of RFC 8259 exactly when its value is a signed 64-bit integer, and returns that value; the same is stated on the pieces of the text, and the decimal text of each such integer gives that integer |
| `NumericBuckets.CanonicalKeepsValue` | internal/queryspec/numeric_bucket.go:16-40 | the canonical text of a boundary has the same exact value and is its own canonical text |
| `NumericBuckets.OneSpelling` | internal/queryspec/numeric_bucket.go:16-40 | boundaries of one exact value have one canonical text |
| `NumericBuckets.ValueIsSpelled` | internal/queryspec/numeric_bucket.go:16-40 | the value of a boundary put together from a sign, integral and fraction digits is the number of its digits with as many places, below zero exactly behind a minus |
| `NumericBuckets.NormalizeBoundaries` | internal/queryspec/numeric_bucket.go:16-40 | accepts exactly 1 to 64 bounded decimals with strictly increasing values, and returns their canonical texts |
| `NumericBuckets.NormalBoundariesAreFixed` | internal/queryspec/numeric_bucket.go:16-40 | normalizing again changes nothing, and values stay the same |
| `NumericBuckets.CastKeepsValue` | internal/adapters/mysql8/numeric_bucket.go:25-38 | casting a boundary to the DECIMAL chosen for it neither rounds nor clips it |
| `NumericBuckets.CastDecided` | internal/adapters/mysql8/numeric_bucket.go:25-38 | a canonical boundary put together from its pieces has a cast exactly when it has at most 30 digits behind the point and 65 in all, and then the cast has exactly those |
| `NumericBuckets.CastIsExact` | internal/adapters/mysql8/numeric_bucket.go:25-38 | the DECIMAL cast of a boundary has room for every digit and stays within 65 and 30 |
| `IndexMerge.CountKeyLengths` | internal/adapters/mysql8/plan_indexes.go:29-43 | succeeds exactly on comma lists of positive 64-bit lengths without leading zeros, and counts them |
| `IndexMerge.ScanSound` | internal/adapters/mysql8/plan_indexes.go:44-107 | what the stack machine accepts is a plan of the grammar, and the key is that plan's text |
| `IndexMerge.ScanMerge` | internal/adapters/mysql8/plan_indexes.go:44-107 | reading the text of a well-formed merge pushes exactly that merge |
| `IndexMerge.ScanList` | internal/adapters/mysql8/plan_indexes.go:44-107 | reading a comma list of well-formed merges pushes them in order |
| `IndexMerge.ScanDecidesGrammar` | internal/adapters/mysql8/plan_indexes.go:44-107 | started on an empty root, the machine accepts exactly the plans' texts and returns the plan |
| `IndexMerge.PlanTextIsUnambiguous` | internal/adapters/mysql8/plan_indexes.go:11-16 | no key is the text of two different plans |
| `IndexMerge.LeavesAreCommas` | internal/adapters/mysql8/plan_indexes.go:29-107 | a plan has as many leaves as there are key lengths exactly when the key and the key lengths have equally many commas |
| `IndexMerge.NamesAreLeaves` | internal/adapters/mysql8/plan_indexes.go:44-107 | the collected names are exactly those that stand at some leaf of the plan |
| `IndexMerge.ScanKey` | internal/adapters/mysql8/plan_indexes.go:44-107 | the loop over argument counters refines the machine: the same verdict, the leaf count, and whether some leaf folds to the required index |
| `IndexMerge.IndexMergeUsesIndex` | internal/adapters/mysql8/plan_indexes.go:17-108 | succeeds exactly when some plan over the possible keys has this text and as many leaves as there are key lengths, and then says whether some leaf of the tree folds to the required index |
| `PolicyAliases.HeightIsLongestPath` | internal/config/load.go:386-426 | a remembered height is the number of nodes on the longest path from its node |
| `PolicyAliases.PathsAreSequences` | internal/config/load.go:388-426 | a path is a sequence of nodes in which each one holds or aliases the next |
| `PolicyAliases.AliasCheck.Visit` | internal/config/load.go:388-426 | one visit gives the exact height within the budget, or there is a path that is too long, and an alias-cycle error names a reachable cycle |
| `PolicyAliases.AliasCheck.CheckAliases` | internal/config/load.go:388-426 | the memoized walk accepts exactly the documents in which no path from the root is longer than the depth budget |
| `PolicyAliases.AcceptedIsAcyclic` | internal/config/load.go:386-426 | nothing that an accepted root leads to is on a cycle |
| `PolicyAliases.AcceptedIsBelow` | internal/config/load.go:386-426 | everything an accepted root leads to has a height, and edges lead to lower nodes: what the assembler relies on |
| `PolicyAliases.AcceptedDocumentsAreScanned` | internal/config/load.go:248-258 | documents that scan and the alias check have accepted one by one make up a graph in which every edge goes to a lower node of its own document, with the heights that the checks computed |
| `PolicyGraph.SkipAliases` | internal/config/load.go:470-496 | following an alias chain ends at its first node that is no alias |
| `PolicyGraph.FieldIsPair` | internal/config/load.go:371-384 | with distinct key texts, a lookup finds a value exactly when it stands behind a key of that text at some even position |
| `PolicyGraph.TargetIsPath` | internal/config/load.go:470-496 | a pointer's target is the end of the path that its tokens select step by step: the value behind the key, the element at the decimal index, aliases skipped |
| `PolicyGraph.FindTarget` | internal/config/load.go:470-496 | walks a JSON pointer through mappings, sequences and aliases, and finds a node exactly when the tokens select a path of positions to it |
| `PolicyGraph.MeaningGrows` | internal/config/load.go:506-650 | more fuel finds the same tree |
| `PolicyGraph.MeaningUnique` | internal/config/load.go:506-650 | a node stands for at most one tree |
| `PolicyMeaning.MeansIsStandsFor` | internal/config/load.go:506-650 | the reference tree is the one that a relation on positions gives: scalars as they are, elements and pairs in order, a reference by the path of its pointer and an override pair by pair |
| `PolicyGraph.CyclesAreMeaningless` | internal/config/load.go:510-512 | a node that needs itself stands for no tree, so the cycle error is never a false alarm |
| `PolicyGraph.MeansAssembled` | internal/config/load.go:506-650 | every tree a scanned graph stands for has string keys, no key twice and a text for every scalar, also below overrides |
| `PolicyOverride.OverriddenKeys` | internal/config/load.go:579-594 | an overridden mapping has the base's keys in base order, then the new ones, and no key twice |
| `PolicyOverride.OverriddenLookup` | internal/config/load.go:579-594 | looking a key up gives the override's pair if it has one, and the base's otherwise |
| `PolicyMeaning.OverriddenIsOverridden` | internal/config/load.go:579-594 | an overridden mapping, position by position: the base's pairs in place with the override's value where it has the key, and then the override's other pairs in order |
| `PolicyOverride.MapOverridden` | internal/config/load.go:579-594 | overriding cached results and overriding their values agree |
| `PolicyJson.JsonStringSize` | internal/config/load.go:692-709 | the counted size is the number of bytes that the quoted string is written in |
| `PolicyJson.ContainerSize` | internal/config/load.go:652-688 | braces, separators and children add up to the size of the container's text |
| `PolicyJson.EscapedBytes` | internal/config/load.go:800-831 | the bytes written for one character |
| `PolicyJson.Buffer.WriteJsonString` | internal/config/load.go:800-831 | appends exactly the quoted string |
| `PolicyJson.Buffer.WriteMembers` | internal/config/load.go:741-753 | appends exactly the mapping's text |
| `PolicyJson.Buffer.WriteElements` | internal/config/load.go:754-762 | appends exactly the sequence's text |
| `PolicyJson.Buffer.WriteAssembled` | internal/config/load.go:741-773 | appends exactly the tree's text |
| `PolicyAccounting.TotalledExact` | internal/config/load.go:652-688 | the totals over the children are the container's exact nodes and bytes and bound its height |
| `PolicyAccounting.StoredIsValid` | internal/config/load.go:644-649 | storing a result keeps every cached entry valid |
| `PolicyAccounting.OverriddenCount` | internal/config/load.go:570-599 | an overridden mapping has no more nodes than its base and its override together |
| `PolicyAccounting.OverriddenReady` | internal/config/load.go:546-600 | the mapping rebuilt from cached children is what the reference stands for, within what was charged |
| `PolicyBudgets.NodesAreCharged` | internal/config/load.go:498-504 | a tree has no more nodes than assembling it without a cache charges |
| `PolicyBudgets.CachedCharge` | internal/config/load.go:513-518 | a cache hit charges no more than assembling the node, and its expansion error is justified |
| `PolicyBudgets.HeightExcuse` | internal/config/load.go:513-518 | a height that is too much for the depth means that the node needs more levels than are left |
| `PolicyBudgets.StoredIsTight` | internal/config/load.go:644-649 | storing a result keeps the recorded heights low and growing from children to parents |
| `PolicyBudgets.BoxSettled` | internal/config/load.go:652-688 | a container settles its owner: low height, paid nodes, or a justified budget error |
| `PolicyBudgets.OverrideOwnable` | internal/config/load.go:546-600 | an override's children are low enough and paid for, although the base's own height is dropped |
| `PolicyBudgets.ExcusedIsUnaffordable` | internal/config/load.go:711-715 | a justified error means that the root is not affordable |
| `PolicyAssembler.PolicyLoader.Charge` | internal/config/load.go:498-504 | charges exactly when the budget allows |
| `PolicyAssembler.PolicyLoader.MakeContainer` | internal/config/load.go:652-688 | a new node over the children with exact accounting, or the budget that the totals exceed |
| `PolicyAssembler.PolicyLoader.ResolveScalar` | internal/config/load.go:615-640 | a scalar's leaf with its exact size, or a justified error |
| `PolicyAssembler.PolicyLoader.ResolveOverrides` | internal/config/load.go:551-567 | the override's keys and values by text, each pair charged value before key |
| `PolicyAssembler.PolicyLoader.Merge` | internal/config/load.go:579-594 | the children of the overridden mapping, in base order and then the new pairs |
| `PolicyAssembler.PolicyLoader.ApplyOverride` | internal/config/load.go:546-600 | the overridden mapping is what the reference stands for; only a mapping can be overridden |
| `PolicyAssembler.PolicyLoader.ResolveReference` | internal/config/load.go:529-600 | the target's tree, overridden if asked for, or the reference stands for nothing or exceeds a budget |
| `PolicyAssembler.PolicyLoader.Resolve` | internal/config/load.go:506-650 | whatever was cached before, success gives the node's tree with exact nodes and bytes and a height between its levels and what its meaning needs, and charges between the node count and the uncached cost; a semantic error means that there is no tree; a budget error means that the budget at hand is exceeded |
| `PolicyAssembler.PolicyLoader.Load` | internal/config/load.go:711-732 | the assembled tree is fit for the strict decoder, within every budget and written in exactly the announced number of bytes; it fails only when the root has no affordable tree |
| `FilterNormalForm.SortedUnique` | internal/queryspec/aggregate.go:502-507 | without equal value keys, sorting by both keys has only one result |
| `FilterNormalForm.NormalFormIgnoresOrder` | internal/queryspec/aggregate.go:470-528 | permuting children at any depth changes neither the verdict nor the normal form nor its keys |
| `FilterNormalForm.NormalFormIsFixed` | internal/queryspec/aggregate.go:470-528 | a normal form is its own normal form with the same keys |
| `FilterNormalForm.NormalFormMeansTheSame` | internal/queryspec/aggregate.go:470-528 | the normal form has the same three-valued meaning in every row |
| `NormalForms.NormalizationDecided` | internal/queryspec/aggregate.go:470-528 | a filter is normalized to exactly the filter with canonical fields whose members are, in some order, normal forms of its own, in the order of their digests and no two asking for the same thing, with every value binding; it is rejected when there is none |
| `FilterNormalForm.NormalKeysFit` | internal/queryspec/aggregate.go:530-584 | the computed keys are the digests of the normal form |
| `FilterNormalForm.EqualKeysMeanEqualForms` | internal/queryspec/aggregate.go:530-584 | value keys are equal exactly when the filters ask for the same thing once their values are bound, and then the shape keys are equal too |
| `FilterNormalForm.NeighboursDecide` | internal/queryspec/aggregate.go:512-522 | comparing neighbours after the sort finds every pair of children with equal value keys |
| `FilterNormalForm.SortFunc` | internal/queryspec/aggregate.go:502-507 | a sorted permutation |
| `FilterNormalForm.NormalizeNode` | internal/queryspec/aggregate.go:470-528 | computes the normal form, or rejects exactly unbound values and groups with duplicates |
| `AggregateShapes.SameSignatureOverlaps` | internal/config/config.go:1104-1189 | two shapes that have one signature under some case semantics have one overlap signature |
| `AggregateShapes.CheckOverlap` | internal/config/config.go:1006-1013 | accepts exactly shape lists without equal overlap signatures |
| `ShapeOverlap.OverlapDecided` | internal/config/config.go:1104-1189 | two overlap signatures are equal exactly when all parts are the same up to letter case and the filters are the same predicates and groups in some order at each level |
| `ShapeOverlap.AcceptedListsDoNotOverlap` | internal/config/config.go:1006-1013 | the check accepts exactly the lists in which no two shapes overlap in that sense |
| `AggregateShapes.AtMostOneShape` | internal/policy/policy.go:812-846 | behind the overlap check at most one shape admits a query, whatever the case semantics |
| `AggregateShapes.NeverAmbiguous` | internal/policy/policy.go:812-846 | the ambiguous branch is unreachable |
| `AggregateShapes.MatchShape` | internal/policy/policy.go:812-846 | returns the only shape that admits the query, part by part: mode, schema, object, outputs, filter, order and limit under the case semantics; or tells none from several |
| `AggregateShapes.SignaturesDecide` | internal/policy/policy.go:812-891 | comparing signatures is comparing all parts |
| `ShapeMatching.ConfiguredDecides` | internal/policy/policy.go:932-984 | a configured filter becomes a normalized query's exactly when the query's has the same predicates and groups in some order at each level and no group has two members of one shape |
| `ShapeMatching.AdmittedFilter` | internal/policy/policy.go:812-891 | the policy's filter test is that resemblance, and it is equality of the two shape keys |
| `AggregateShapes.NormalShapeFits` | internal/policy/policy.go:872-891 | a normalized query's shape is in order and has the key that normalization computed |
| `AggregateShapes.KeyNamesShape` | internal/policy/policy.go:986-1013 | ordered shapes with one key are the same shape |
| `AggregateShapes.ConfiguredInOrder` | internal/policy/policy.go:932-984 | a configured filter is in order at every level |
| `AggregateShapes.FilterMatchesByKey` | internal/policy/policy.go:932-984 | a configured filter equals the query's exactly when the policy's key for it is the query's shape key |
| `SessionCleanup.Connection.Exec` | internal/adapters/mysql8/aggregate.go:393-439 | a failing statement may or may not have taken effect |
| `SessionCleanup.Connection.Abort` | internal/adapters/mysql8/keyset.go:198-208 | closing the socket drops the connection, or leaves everything as it was |
| `SessionCleanup.Connection.SetUtcSession` | internal/adapters/mysql8/aggregate.go:368-391 | gives the session's own zone to restore, which is 1 to 64 bytes of UTF-8 without NUL and line breaks, or leaves the session dropped or untouched |
| `SessionCleanup.Connection.RestoreTimezone` | internal/adapters/mysql8/aggregate.go:393-414 | the original zone is verified, or the connection is dropped |
| `SessionCleanup.Connection.Start` | internal/adapters/mysql8/aggregate.go:416-425 | a failing start leaves no transaction or a dropped connection |
| `SessionCleanup.Connection.Finalize` | internal/adapters/mysql8/aggregate.go:427-439 | the transaction is over, or the connection is dropped |
| `SessionCleanup.RunDeferred` | internal/adapters/mysql8/aggregate.go:100-136 | whatever the main path left behind, the deferred functions make the connection returnable |
| `SessionCleanup.Aggregate` | internal/adapters/mysql8/aggregate.go:91-163 | after any failure the connection is dropped or as it was; after success it is as it was |
| `SessionCleanup.SelectKeyset` | internal/adapters/mysql8/keyset.go:116-196 | the same, and a page that left rows unread gives its connection up |
| `SessionCleanup.ServeAll` | internal/adapters/mysql8/aggregate.go:91-163 | in every run of any number of requests with any step failing, every pooled connection is dropped or has its own zone, no open transaction and no unread rows |
| `AuditSink.InvStep` | internal/audit/audit.go:89-148 | every action of any caller or the writer keeps the sink's invariant |
| `AuditSink.RunHolds` | internal/audit/audit.go:89-148 | the invariant holds in every state of every interleaving |
| `AuditSink.SuccessMeansWritten` | internal/audit/audit.go:89-121 | Write returns nil only if its whole payload reached the writer, once |
| `AuditSink.WrittenMeansSuccess` | internal/audit/audit.go:89-140 | a call whose whole payload is in the log gets no error from the writer: its reply, once there is one, is nil, and taking it makes Write return nil |
| `AuditSink.QuietCallSucceeds` | internal/audit/audit.go:89-140 | an idle ready sink can serve any new call: the payload goes whole to the end of the log and Write returns nil |
| `AuditSink.LogIsInOrder` | internal/audit/audit.go:125-140 | the log is whole payloads in channel order, then at most one failed or torn one |
| `AuditSink.OneWay` | internal/audit/audit.go:125-148 | ready never goes back to true, what is written stays, and nothing follows a failed write |
| `AuditSink.OneWayRun` | internal/audit/audit.go:125-148 | the same between any two states of a run |
| `CapacityGate.InvStep` | internal/queryservice/service.go:419-440 | every acquire and release step keeps tokens equal to the requests that hold them, within both capacities |
| `CapacityGate.RunHolds` | internal/queryservice/service.go:419-440 | the same in every interleaving |
| `CapacityGate.ReturningNeverBlocks` | internal/queryservice/service.go:426-437 | a request that must give a token back always finds one |
| `CapacityGate.NothingLeaks` | internal/queryservice/service.go:419-440 | a refused request holds nothing, and when all requests have ended both counts are zero |
| `CapacityGate.RefusedOnlyWhenFull` | internal/queryservice/service.go:419-440 | a request is refused only when a channel is full or its binding is unknown |
| `QueryLimits.CheckPredicate` | internal/queryspec/types.go:397-479 | a predicate is accepted exactly when it is well-formed and its counts still fit, and then added to the statistics |
| `QueryLimits.ValidateFilter` | internal/queryspec/types.go:397-479 | accepts exactly the well-formed trees whose measure fits the limits, and adds that measure to the shared statistics |
| `QueryLimits.ValidByNode` | internal/queryspec/types.go:397-479 | a tree is valid exactly when each node in it is: a predicate with an identifier and as many binding values as its operator takes, or a group of 2 to 200 members |
| `QueryLimits.DepthIsLongestPath` | internal/queryspec/types.go:397-479 | the measured depth is the length of the longest path through the tree |
| `QueryLimits.Validate` | internal/queryspec/types.go:138-255 | accepts exactly well-formed queries within the limits, with their measured statistics; the accepted limit is the requested or default one, cut to the row limit, and nothing is beyond any limit |
| `QueryLimits.Revalidate` | internal/queryspec/types.go:257-293 | what a validated query becomes under new limits |
| `QueryLimits.RevalidationIsValidation` | internal/queryspec/types.go:257-293 | under usable limits it is what validating the original under the stricter of both limits gives, so the statistics stand for the whole tree |
| `QueryLimits.StricterIsBoth` | internal/queryspec/types.go:257-293 | the stricter limits accept a query exactly when both limits do, with the result of one of them |
| `QueryLimits.NegativeLimitDiffers` | internal/queryspec/types.go:257-293 | a concrete query and limits for which the two ways differ: no filter and a negative predicate limit |
| `QueryLimits.WhenTheyDiffer` | internal/queryspec/types.go:257-293 | the two ways agree if and only if the new limits are usable or validation rejects too |
| `CompiledFilter.CompileFilter` | internal/adapters/mysql8/aggregate.go:1012-1055 | compiles exactly known operators over known columns with binding operands, and with valid arities every placeholder is filled by its own operand |
| `CompiledFilter.CompilesByPredicate` | internal/adapters/mysql8/aggregate.go:1012-1055 | a filter compiles exactly when each predicate in it is a null test, or has a known operator, a known column unless it compares source text, and values that bind |
| `CompiledFilter.CompiledFilterMeans` | internal/adapters/mysql8/aggregate.go:1012-1055 | the written condition, evaluated with one positional parameter for each placeholder, means what the filter means |
| `CompiledFilter.FilterFills` | internal/adapters/mysql8/keyset.go:591-643 | whatever a filter compiles to, every one of its placeholders has a parameter |
| `CompiledFilter.FilterHolesCount` | internal/queryspec/types.go:397-479 | a filter is written with as many placeholders as validation has counted values |
| `AggregateStatement.CompileBucket` | internal/adapters/mysql8/numeric_bucket.go:66-84 | one placeholder and one parameter for each boundary, in order |
| `AggregateStatement.CompiledBucketCounts` | internal/adapters/mysql8/numeric_bucket.go:66-84 | the compiled CASE, evaluated with its casts and with the parameters at its own positions, gives the number of boundaries that are not above the value, and NULL for a NULL field |
| `AggregateStatement.BucketColumnCounts` | internal/adapters/mysql8/aggregate.go:865-991 | in every group the projected MIN over the CASE is the group's key and the bucket of each of its rows, although projection and GROUP BY carry copies with parameters of their own |
| `AggregateStatement.CompileProjection` | internal/adapters/mysql8/aggregate.go:879-942 | projection and GROUP BY with their parameters, and the maps by alias |
| `AggregateStatement.CompileOrder` | internal/adapters/mysql8/aggregate.go:967-985 | ORDER BY repeats a bucket's expression together with its parameters |
| `AggregateStatement.CompileAggregate` | internal/adapters/mysql8/aggregate.go:865-991 | succeeds exactly when filter, buckets and order compile; at every position the parameter is the one that the placeholder in the text stands for |
| `AggregateMeaning.CompilingDecided` | internal/adapters/mysql8/aggregate.go:865-991 | a query compiles exactly when its numeric buckets have 1 to 64 configured boundaries with casts, its time buckets a known unit of UTC, its bucket orders a bucket output of that name, and its filter compiles |
| `AggregateMeaning.StatementSays` | internal/adapters/mysql8/aggregate.go:865-991 | the statement shows every output in its column, groups by exactly the dimensions and buckets, and orders by them term by term in the requested directions |
| `AggregateMeaning.WhereMeansFilter` | internal/adapters/mysql8/aggregate.go:865-991 | in each row the compiled WHERE clause with the parameters at its own positions evaluates to the three-valued meaning of the query's filter |
| `AggregateMeaning.WhereMeansRequestedFilter` | internal/queryspec/aggregate.go:470-528 | and so it does for the filter as it was requested, before normalization |
| `AggregateStatement.CountParameters` | internal/queryspec/numeric_bucket.go:53-78 | the base plus every boundary twice and once for each ORDER BY term, unless a bucket lacks boundaries or that exceeds the maximum |
| `AggregateStatement.PlaceholdersAreAuthorized` | internal/policy/policy.go:394-406 | the compiled statement has exactly the authorized number of placeholders |
| `PartitionStatistics.PartitioningSize` | internal/adapters/mysql8/table_statistics.go:658-706 | the batch size is the size of the result's JSON, or nothing beyond the maximum |
| `PartitionStatistics.CheckPartitions` | internal/queryservice/table_statistics.go:201-254 | accepts exactly consecutive ordinals, valid names and metrics, and distinct folded names |
| `PartitionStatistics.CheckGroups` | internal/queryservice/table_statistics.go:201-254 | the same for groups, whose subpartition names share one set |
| `PartitionStatistics.ValidateResult` | internal/queryservice/table_statistics.go:201-254 | decides the service's conditions and counts partitions and subpartitions |
| `PartitionRules.VerdictDecided` | internal/queryservice/table_statistics.go:201-254 | the verdict by positions: ordinals that count from one, names of legal length, metrics that are texts of unsigned 64-bit numbers, and no two partitions, and no two subpartitions anywhere, whose names fold alike; with both counts |
| `PartitionStatistics.LeavesDetermine` | internal/adapters/mysql8/table_statistics.go:350-455 | valid groups are determined by their subpartitions in order |
| `PartitionStatistics.ReadingIsUnique` | internal/adapters/mysql8/table_statistics.go:241-474 | rows read as at most one result |
| `PartitionStatistics.OrdinalIsParsed` | internal/adapters/mysql8/table_statistics.go:476-495 | an ordinal is read from exactly its decimal text, from 1 to 8192 |
| `PartitionStatistics.MethodIsMapped` | internal/adapters/mysql8/table_statistics.go:585-606 | a method is read from exactly the server's name for it |
| `PartitionStatistics.RawValuesTotal` | internal/adapters/mysql8/table_statistics.go:621-630 | the raw bytes of a row are those of its eleven columns |
| `PartitionStatistics.TakePartition` | internal/adapters/mysql8/table_statistics.go:314-349 | a row is added exactly when it is the next partition and still fits |
| `PartitionStatistics.TakeSubpartition` | internal/adapters/mysql8/table_statistics.go:350-455 | a row is added exactly when it continues the last group or starts the next one and still fits |
| `PartitionStatistics.ExtendedSize` | internal/adapters/mysql8/table_statistics.go:414-446 | what the reader adds for a subpartition is the difference of the real sizes |
| `PartitionStatistics.BoundedRawTotal` | internal/adapters/mysql8/table_statistics.go:621-630 | the raw bytes read so far and those of the row, unless they exceed the bound |
| `PartitionStatistics.IdentifierMatches` | internal/adapters/mysql8/mysql8.go:396-418 | identifiers are the same, up to the case of ASCII letters where the server folds them |
| `PartitionStatistics.ReadPartitions` | internal/adapters/mysql8/table_statistics.go:241-474 | fails when a row does not scan, names another table or brings the raw bytes over their bound, or the stream fails; otherwise succeeds exactly when the rows say something that the service accepts and that fits, and returns just that, with the service's counts and with a byte total that is the exact size of the whole |

## Left out

- database/sql, the MySQL driver, network and SQL text: a statement is its expressions, placeholders and parameters; a table is a finite set of rows with an abstract total order for each key column.
- The typed binding of keyset filter values and their placeholders' casts: how an operand binds to its column is a parameter of the filter compiler.
- KeysetStatement.CompileKeyset: the projection and its hidden character markers are not part of the statement; they hold no placeholders.
- validateKeysetSource, validateAggregateSource, validateAggregatePlan and the result columns: metadata checks with many branches and no deep property.
- KeysetPaging.SelectPage: starts at compilation; metadata, result columns, keysetContinuationRequestFits, character bindings and the plan are checked around it and can fail too, and the session is `SessionCleanup.SelectKeyset`.
- AggregateCollector.AggregateResult.constructor: the size is a parameter as in the source; that it is the empty response's is what `CollectAggregateRows` demands of its caller.
- time.Parse and calendars: a timestamp's digits are an abstract instant with its number of fraction digits.
- SHA-256, encoding/json of bound values and identifier case folding: injective keys in a total order, and abstract functions.
- strings.EqualFold and the rune checks of metadata names: abstract functions; invalid UTF-8 and lengths are modelled.
- The YAML parser, document loading with its file, read and node budgets, URI parsing and pointer unescaping: the assembler starts from scanned documents, and a reference is already split into a document and tokens.
- scan's own walk: what it demands of a graph is `PolicyAliases.Shaped`; together with the alias checks it is proved to give `Scanned` for the graph of all documents.
- Locations, reference chains and the index that `lookup` memoizes: a lookup is a search of the mapping's pairs.
- The strict decoder, policy semantics after decoding and configuration defaults.
- JsonInteger.ParseJsonInteger: starts from the text without surrounding white space, which the source trims first.
- KeysetCollector.CollectKeysetRows: errors are told apart only as far as the model needs; messages and error kinds of the source are merged.
- PolicyAssembler.PolicyLoader.Load: ends where the strict decoder and the semantic validation of the decoded policy begin, and does not say that success needs `Affordable`, because a cache hit can charge less and record a lower height than assembling without a cache, so some unaffordable roots load.
- PolicyAssembler.PolicyLoader.Resolve: the height is an upper bound of the tree's levels and not their number, because the base's own height is dropped when an override is applied.
- The keyset path of shape matching, whose signature does not carry the representation; only the aggregate path is modelled.
- Name normalization of outputs, aliases and orders beyond identifier case: aliases are compared after normalization.
- The table statistics row; it is read before the partitions and contributes the raw total and the size that their reader starts from.
- QueryLimits.Validate: the checks of single fields are one abstract predicate, because no limit takes part in them.
- SessionCleanup.ServeAll: requests run one after the other on exclusively owned connections, as the pool hands them out; deadlines are steps that can fail and do not outlive a request.
- AuditSink.SuccessMeansWritten: a payload is an abstract byte string; encoding an event and its timestamp are left out.
- collectSelectRows: the same size accounting as the aggregate collector with neither a provisional row nor a continuation.
- Revalidation of aggregate and keyset queries, resource patterns and feature checks of the policy: easy members.
- HTTP routing, flags, signals, authentication, secret resolution, audit event fields and error-kind mapping.
