# LiteQuery in Dafny

LiteQuery is a small columnar SQL engine. This project models the parts of it that compute something with an exact
intended answer, and proves what they are for:

- a SELECT runs on one of two executors, a typed fast path for simple aggregates or a tree of pull-model operators, and
  both give the same answer;
- aggregate queries are rewritten into column references over the output of a hash aggregation, and mean the same;
- text becomes tokens and tokens become expression trees, and a printer, which writes no
  parenthesis in vain, is undone by them;
- expressions evaluate in three-valued logic, LIKE with a loop that remembers one star;
- columns, tables, a binary file and CSV files store values and give them back;
- INSERT, UPDATE and DELETE change tables, and a run of them keeps every table rectangular and its counts exact.

`dafny verify dfyconfig.toml` checks everything.

## How it is laid out

Each method with a loop or a mutable object is proved equal to a specification function, and the lemmas are about those
functions. Exceptions of the engine are `Err`; their messages are not kept.

| files | what they hold |
|---|---|
| Results, Seqs, Types, Doubles, Ast | results, sequence facts, values and schemas, the cast from integer to double, syntax trees |
| Eval, Like | expression evaluation, the LIKE loop |
| Bits, Tables, Storage, Inserts | validity words, columns and tables as values and as objects, where an INSERT stops |
| Ordering, RowOrder, RowKeys, Aggregation, Joins | the order of key vectors and stable sorting, the comparator on rows that may throw, row keys and DISTINCT, grouping and aggregate functions, joins |
| Plans, Operators, Widths | what a plan means as a row sequence, the operators that stream it in batches, row widths |
| Names, Rewrite, RewriteMeaning, Planner, QueryMeaning | names as the lexer leaves them, from a SELECT to a plan, and what an aggregate query's plan means |
| FastPredicate, FastAggregate, FastGrouping, FastAgreement, FastPath, FastSchemas | the fast path, and when its rows and its schema agree with the plan's |
| FastExceptions, GroupExceptions | whole statements on which the two paths part, with the exact conditions |
| Statements, Connections | CREATE, DROP, INSERT, UPDATE, DELETE, runs of them, and the handlers |
| Parser, ExpressionParser, Printer, Grammar, Shortest | what the parser reads, the parser with its cursor, the printer, what the grammar produces, why no print is longer than it must be |
| Lexer, Tokenizer, SqlText | pieces and tokens of a text, the scanner, and the way from tree to text and back |
| Bytes, Persistence, DatabaseFile, TableFiles | byte encodings, the file format, the writer and the reader, tables through a file |
| Csv, CsvInference | the CSV reader's state machine and the shell's writer, type inference and loading |

## Laws that hold on part of the inputs only

Each of these has the exact condition as an if-and-only-if, or a concrete input that shows the failure beside the
condition under which the law is proved.

- LIKE compares a pattern character literally before it looks for `%`, so a `%` in the text is consumed and the star is
  not remembered. For a given text the loop answers all patterns correctly if and only if the text holds no `%`
  (`Like.LikeExactIffNoPercent`); an answer of true is always right (`Like.LikeSound`).
- The comment above runSelect (src/api/connection.cpp:690-693) says that both paths must agree. They do, rows and order,
  under the conditions of `FastPath.Agreeable`, each of which can be read off the statement, the schema and the stored
  cells. For each there is a statement the fast path answers differently, and a condition that is exact:
  - a reference `a.b` means the column `b` to the fast path and a column `a.b`, if there is one, to the evaluator
    (`FastExceptions.DottedColumnParts`; exact: `FastPredicate.LookupsAgreeIff`);
  - the evaluator refuses to compare a BOOLEAN with a number and a number with a string, where the fast path answers
    (exact over whole queries: `FastExceptions.NumberQueriesAgreeIff`, `FastExceptions.StringQueriesAgreeIff`);
  - a stored integer that does not fit its column's subtype is shown cut off by the evaluator (exact over whole queries:
    `FastExceptions.EqualityQueriesAgreeIff`), and past 2^53 the fast path takes neighbours for equal
    (`FastExceptions.LargeIntegerParts`);
  - a group column named like the first internal slot hides the first aggregate (exact:
    `GroupExceptions.SlotNameAgreesIff`);
  - NULLS FIRST and NULLS LAST are ignored by the fast comparator (exact over key vectors:
    `FastPath.DirectionsSufficeIff`, over whole queries: `GroupExceptions.NullPlacementAgreesIff`);
  - a sort name that is an alias in another case is found by the fast path only (exact:
    `GroupExceptions.AliasCaseAgreesIff`; for any statement: `FastAgreement.SortNameIff`);
  - fast columns stand where the general path puts them, as many of them, named and typed alike, exactly as
    `FastPath.LayoutsAgreeIffKeyLeads`, `FastSchemas.WidthsAgreeIff` and `FastSchemas.ColumnAgreesIff` say.
- ORDER BY compares rows with a comparator that may throw, and reads a key only on rows tied by the earlier ones. It fails
  if and only if no arrangement of the rows can be confirmed by comparing neighbours (`RowOrder.SortFailsIff`): one row is
  never compared, whatever its keys.
- Two integers compare through double as they compare exactly for all magnitudes up to a bound if and only if the bound
  is at most 2^53 (`Doubles.CompareThroughDouble`).
- Row keys tell rows apart without the byte 0x01 in strings and without doubles; `RowKeys.CloseDoublesCollide` and
  `RowKeys.SeparatorsCollide` are the exceptions.
- No token list that parses to an expression is shorter than its print, if it does not use the short form NOT LIKE
  (`Shortest.PrintIsShortest`); with it, one can be (`Shortest.NotLikeIsShorter`).
- `x BETWEEN a AND b` and `x >= a AND x <= b` give the same value unless one bound decides False while the other is
  NULL (`Eval.BetweenIsConjunction`, exact).
- An INSERT is not undone when it fails (`Statements.FailedInsertIsUndoneIff`, exact), and leaves the table rectangular
  unless the failing row's first cell went in (`Inserts.PreparedRowsGoIn`, exact).
- The CSV round trip fails exactly when the printed text starts with a byte order mark (`Csv.CsvRoundTrip`).

Where the code and its documentation disagree, the model follows the code: IS NULL, BETWEEN and IN bind tighter than
every binary operator (the table in docs/sql-reference.md puts them at the level of the comparisons); short and long CSV
records are padded and cut (src/storage/csv_reader.h:48 promises an error); a load replaces tables of the same name only
(src/storage/persistence.h:28 speaks of replacing the contents of the catalog).

## Model

| member | source | states |
|---|---|---|
| Doubles.CompareThroughDouble | src/execution/fast_aggregate.cpp:125-134 | integers compared through double as the fast path does compare exactly up to a bound if and only if the bound is at most 2^53 |
| Doubles.FirstInexact | include/litequery/types.h:280-287 | 2^53 + 1 has no double of its own |
| Eval.DeMorgan | src/execution/eval.cpp:140-170 | De Morgan's laws for AND, OR, NOT, errors and short circuits included |
| Eval.TernaryPartition | src/execution/eval.cpp:366-372 | a boolean-convertible condition accepts a row in exactly one of the forms p, NOT p, p IS NULL |
| Eval.BetweenIsConjunction | src/execution/eval.cpp:140-364 | exactly when BETWEEN has the value of the conjunction of the two comparisons |
| Eval.EvaluateSameLookups | src/execution/eval.cpp:140-364 | an expression's value depends on the row only through its column lookups |
| Like.LikeMatchLoop | src/execution/eval.cpp:110-134 | the loop computes its specification in at most (n+1)(m+1) iterations |
| Like.ForgetStar | src/execution/eval.cpp:110-134 | forgetting the earlier star at a new star loses no match |
| Like.LikeSound | src/execution/eval.cpp:110-134 | an answer of true is a match of the declarative wildcard relation, for every text |
| Like.LikeExact | src/execution/eval.cpp:110-134 | for a text without percent signs the answer is the wildcard relation, for every pattern |
| Like.LikeExactIffNoPercent | src/execution/eval.cpp:119-122 | for a text, all patterns are answered correctly if and only if the text has no percent sign |
| Ordering.StrictWeakOrder | src/execution/physical_plan.cpp:140-166 | the ORDER BY comparator is a strict weak order on rows with comparable keys, whatever directions and null placements |
| Ordering.StableSortIsStable | src/execution/physical_plan.cpp:140-166 | the sort used is a sorted permutation that keeps tied rows in order |
| Ordering.StableSortUnique | src/execution/physical_plan.cpp:140-166 | two sorted stable permutations of the same rows are equal |
| Ordering.LibrarySortAgrees | src/execution/physical_plan.cpp:140-166 | whatever a stable library sort returns is the sequence computed here |
| Ordering.SortStably | src/execution/physical_plan.cpp:140-166 | the loop sorts as the specification does |
| RowOrder.ConfirmedNoThrow | src/execution/physical_plan.cpp:140-166 | if comparing neighbours confirms an arrangement of rows, no two of the rows make the comparator throw |
| RowOrder.SortByKeys | src/execution/physical_plan.cpp:132-168 | the sort with the comparator that may throw returns the stable order of the key values, or fails exactly when two rows make the comparator throw |
| RowOrder.SortFailsIff | src/execution/physical_plan.cpp:140-166 | ORDER BY fails if and only if no arrangement of the rows can be confirmed by comparing neighbours |
| RowKeys.RowKeyExact | src/execution/physical_plan.cpp:190-198 | rows of one arity without the separator byte have one key if and only if they agree value by value, doubles to six decimals |
| RowKeys.RowKeyInjective | src/execution/physical_plan.cpp:190-198 | without doubles the key is injective |
| RowKeys.CloseDoublesCollide | src/execution/physical_plan.cpp:190-198 | two doubles with one key |
| RowKeys.SeparatorsCollide | src/execution/physical_plan.cpp:190-198 | two rows of strings with one key, when strings hold the separator |
| RowKeys.DistinctKeys | src/execution/physical_plan.cpp:200-223 | for any rows, DISTINCT keeps every key once and invents no row |
| RowKeys.DistinctIsFirstOccurrences | src/execution/physical_plan.cpp:200-223 | DISTINCT outputs exactly the first occurrence of each row, in order |
| RowKeys.DistinctIdempotent | src/execution/physical_plan.cpp:200-223 | DISTINCT twice is DISTINCT once |
| RowKeys.UnionIsSetUnion | src/api/connection.cpp:503-513 | UNION has the rows of either side, none of them twice |
| Storage.PushBitFlags | src/storage/column.h:39-45 | setting a bit in 64-bit words appends one flag and leaves the others |
| Storage.ValidityBitmap.Push | src/storage/column.h:39-45 | appends one flag, with exactly ceil(n/64) words and a truthful NULL flag |
| Storage.ValidityBitmap.IsValid | src/storage/column.h:47-50 | reads the i-th flag |
| Storage.ValidityBitmap.AssignRaw | src/storage/column.h:60-66 | rebuilds flags and NULL flag from raw words and a count |
| Storage.ValidityBitmap.CopyRaw | src/storage/column.h:57-66 | assignRaw of words() and size() restores the same bitmap |
| Storage.Column.AppendValue | src/storage/column.h:106-119 | appends the value as the specification does, or rejects it and changes nothing |
| Storage.Column.PushNullCell | src/storage/column.h:124-131 | appends a NULL |
| Storage.Column.Get | src/storage/column.h:136-144 | reads the i-th value of the column as a value |
| Storage.Column.RestoreInt64 | src/storage/column.h:156-159 | moves an integer buffer and any validity words that are enough into place, and touches no other buffer |
| Storage.Column.RestoreDouble | src/storage/column.h:160-163 | the same for doubles |
| Storage.Column.RestoreString | src/storage/column.h:164-167 | the same for strings |
| Storage.Column.RestoreFrom | src/storage/column.h:153-168 | a new column restored from the raw parts of another one shows what the other shows |
| Storage.Table.Insert | src/storage/table.h:60-64 | appends cell by cell in place and stops at the first rejecting column, exactly as the specification |
| Storage.Table.GetRow | src/storage/table.h:79-85 | reads one row across the columns |
| Tables.AppendRefines | src/storage/column.h:106-144 | appending is pushing the type-coerced value on the observed contents, and is rejected exactly when the value cannot be coerced |
| Tables.CoerceIdempotent | src/storage/column.h:177-185 | storing an observed value again shows the same value |
| Tables.ValuesAreCoerced | src/storage/column.h:136-144 | every observed value is its own coercion |
| Tables.InsertRowRefines | src/storage/table.h:60-64 | a row is accepted exactly when every column takes its cell; the table then has one coerced row more and is rectangular |
| Tables.RejectedRowBreaksTable | src/storage/table.h:60-64 | a rejected row can leave columns of different lengths |
| Inserts.AssignedCell | src/api/connection.cpp:583-586 | after a list of assignments each cell is the last value assigned to it, or what it was |
| Inserts.RejectedRow | src/storage/table.h:60-64 | a rejected row either leaves the table as it was or tears it, and when which |
| Inserts.PreparedRowsGoIn | src/api/connection.cpp:648-684 | rows go in up to the first rejected one; the table stays rectangular exactly when that row is not torn, and holds the old rows and the accepted ones as stored |
| Aggregation.GroupsPartition | src/execution/physical_plan.cpp:244-316 | groups split the input by key, none is empty, and their sizes sum to the number of input rows |
| Aggregation.GroupsGrow | src/execution/physical_plan.cpp:262-306 | one more input extends the group of its key or opens a new last group |
| Aggregation.AccumulatorIsAggregate | src/execution/physical_plan.cpp:276-343 | every accumulator ends with the meaning of its function: counts, left-folded sums and averages, extremes, NULL on no input, DISTINCT deduplicated |
| Aggregation.AddInput | src/execution/physical_plan.cpp:262-306 | one input row through the hash table keeps the table equal to the grouping of all rows so far; fails exactly when its group's fold fails |
| Aggregation.EmittedRows | src/execution/physical_plan.cpp:319-349 | the rows emitted in key order are the rows of the groups |
| Joins.ComputeJoin | src/execution/physical_plan.cpp:386-437 | the nested loop with its match flags yields the specified rows in the specified order, for every join type |
| Joins.InnerMembers | src/execution/physical_plan.cpp:405-428 | INNER and CROSS hold exactly the matching pairs |
| Joins.LeftAddsUnmatched | src/execution/physical_plan.cpp:405-428 | keeping the left side adds exactly the unmatched left rows, NULL-extended |
| Joins.FullIsInnerPlusUnmatched | src/execution/physical_plan.cpp:405-437 | FULL is INNER plus the unmatched rows of both sides, as multisets and in number |
| Joins.RightIsFlippedLeft | src/execution/physical_plan.cpp:405-437 | RIGHT JOIN is a permutation of the LEFT JOIN of the exchanged inputs with the columns swapped back |
| Joins.ConditionExchanged | src/execution/physical_plan.cpp:397-403 | with distinct column names a join condition has the same value on the exchanged pair |
| Plans.StepRowsConcat | src/execution/physical_plan.cpp:52-95 | Filter and Project over two batches are Filter and Project over their concatenation, up to the first error |
| Plans.LimitRestIsSlice | src/execution/physical_plan.cpp:104-123 | counting rows one by one, LIMIT and OFFSET cut out one slice |
| Operators.Operator.Next | src/execution/physical_plan.cpp:24-123 | one call removes a prefix of the remaining stream; an empty batch comes only at its end; no error is invented, and none is lost except behind a LIMIT |
| Operators.Operator.PullAll | src/execution/physical_plan.cpp:372-384 | pulling to the end gives all that was still to come |
| Operators.ReadSorted | src/execution/physical_plan.cpp:132-168 | Sort's build yields the sorted input, and fails exactly when its input does or two rows make the comparator throw |
| Operators.ReadDistinct | src/execution/physical_plan.cpp:200-213 | Distinct's build yields the rows with new keys |
| Operators.ReadGroups | src/execution/physical_plan.cpp:244-316 | HashAggregate's build, over all batches, yields the aggregation of the whole input |
| Operators.ReadJoined | src/execution/physical_plan.cpp:372-437 | HashJoin's build yields the join of both inputs |
| Operators.Execute | src/execution/physical_plan.cpp:583-592 | for every plan and batch size, draining the tree gives exactly the row sequence of the plan; without LIMIT it fails if and only if an expression that is evaluated or a comparison of two rows fails |
| Widths.RowsFitSchema | src/execution/physical_plan.cpp:24-489 | every row of a plan has as many cells as its schema has columns |
| Widths.SelectRowsFit | src/api/connection.cpp:499-515 | so has every row of a SELECT built for the operator tree |
| Widths.FastRowsFit | src/execution/fast_aggregate.cpp:303-372 | and every row of the fast path |
| Rewrite.CollectionCovers | src/api/connection.cpp:131-160 | collection creates a slot for every aggregate call of the collected expressions |
| Rewrite.AddedSlotsServe | src/api/connection.cpp:183-222 | each collected call finds a slot that serves it |
| Rewrite.SubstEvaluatesAlike | src/api/connection.cpp:197-291 | two substitutions for aggregate calls that agree on the calls and the column references agree on the whole expression |
| RewriteMeaning.SlotValue | src/execution/physical_plan.cpp:276-343 | slot j of a group holds the j-th call computed over the rows of the group |
| Names.IdentifierIsLexedName | src/parser/lexer.cpp:541-719 | every identifier token is a word without dots and double quotes, or a text closed in double quotes |
| Names.SplitName | src/api/connection.cpp:183-195 | a dotted list of such names can be taken apart in one way only |
| Names.NameIsNotQualified | src/execution/eval.cpp:150-158 | no such name is a qualified name, whatever the case of its letters |
| RewriteMeaning.RefStringInjective | src/api/connection.cpp:183-195 | the display form tells the parser's column references apart, quoted names that hold dots included |
| RewriteMeaning.SharedSlotSharedValue | src/api/connection.cpp:183-195 | calls that share a slot have one value |
| RewriteMeaning.SlotNamesDistinct | src/api/connection.cpp:197-222 | internal slot names differ, in any case |
| RewriteMeaning.RewritePreservesMeaning | src/api/connection.cpp:197-291 | for column keys with distinct names, a rewritten expression on an aggregate output row equals the original with each call computed over that row's group |
| Planner.SelectPlanOk | src/api/connection.cpp:313-515 | a plan built over a well-formed catalog scans well-formed tables only |
| QueryMeaning.AnsweredAreCovered | src/api/connection.cpp:337-440 | rewriting SELECT, HAVING and ORDER BY never needs a slot that collection did not create |
| QueryMeaning.RewrittenExpressionMeans | src/api/connection.cpp:337-440 | each of them has, on output row i, its value on group i |
| QueryMeaning.SortKeysMean | src/api/connection.cpp:415-438 | the values ORDER BY sorts an output row by are those of the original keys, aliases resolved, on that row's group |
| QueryMeaning.AggregateQueryMeaning | src/api/connection.cpp:337-450 | the plan of a grouped query answers, errors included, the groups whose HAVING holds, stably sorted by the original ORDER BY keys read over each group, each as its item values over the group |
| QueryMeaning.WholeQueryMeaning | src/api/connection.cpp:313-515 | the same with DISTINCT, OFFSET and LIMIT on top |
| FastPredicate.RowPasses | src/execution/fast_aggregate.cpp:125-140 | the loop over typed atoms decides their conjunction |
| FastPredicate.ShownIffFits | src/storage/column.h:177-185 | the general path sees the stored integer itself if and only if it fits the declared subtype |
| FastPredicate.RowPassesIffTrue | src/execution/fast_aggregate.cpp:48-140 | a flattened AND tree of comparisons in either operand order passes a row exactly when the evaluator finds it true, without error |
| FastPredicate.EqualityAgreesIffFits | src/execution/fast_aggregate.cpp:125-140 | both paths select a stored integer alike for every constant if and only if it fits its subtype |
| FastPredicate.LargeIntegersCollide | src/execution/fast_aggregate.cpp:130-133 | past 2^53 the fast path takes two neighbours for equal |
| FastPredicate.LookupsAgreeIff | src/execution/eval.cpp:150-158 | the bare name finds the column that a reference finds in every row if and only if no other column is named table.column |
| FastPredicate.NumbersDecidedIff | src/execution/fast_aggregate.cpp:125-140 | both paths decide alike all comparisons of a non-NULL exact cell with numbers if and only if the column is no BOOLEAN |
| FastPredicate.StringsDecidedIff | src/execution/fast_aggregate.cpp:125-140 | both paths decide alike all comparisons of a non-NULL cell with strings if and only if the column holds strings |
| FastAggregate.GateIsOk | src/execution/fast_aggregate.cpp:169-243 | what the gate accepts names existing columns of fitting kinds |
| FastAggregate.AccumulateRows | src/execution/fast_aggregate.cpp:245-301 | the loop over the rows builds the groups of the passing rows, in first-appearance order, with their folded states; one group if there is no GROUP BY and no row |
| FastAggregate.AssembleRows | src/execution/fast_aggregate.cpp:303-322 | one result row a group, the key first |
| FastAggregate.SortAndTrim | src/execution/fast_aggregate.cpp:324-372 | ORDER BY, OFFSET and LIMIT in place are a stable sort and a slice; other shapes go to the general path |
| FastAggregate.TryFastAggregate | src/execution/fast_aggregate.cpp:169-372 | the whole fast path: declines, throws or answers as specified |
| FastGrouping.KeysTellAlike | src/execution/fast_aggregate.cpp:276-296 | the keys of both paths tell the values of one column apart in the same cases |
| FastGrouping.GroupsAgree | src/execution/fast_aggregate.cpp:276-296 | paired inputs fall into paired groups in the same order |
| FastGrouping.AggregationsAgree | src/execution/fast_aggregate.cpp:245-322 | hash aggregation over the passing rows succeeds and pairs off with the fast groups: keys, counts, sums, averages, numerically equal extremes |
| FastAgreement.ItemValue | src/execution/fast_aggregate.cpp:197-238 | a SELECT item over an aggregate output row has the value of its fast column |
| FastAgreement.SortNameIff | src/execution/fast_aggregate.cpp:324-336 | both paths resolve a sort name to one column if and only if it is the alias of a call, letter by letter, that no earlier output column has in any case, or no such alias and the name of the selected key |
| FastAgreement.SortsAgree | src/execution/fast_aggregate.cpp:324-351 | ORDER BY permutes both results alike |
| FastPath.FastPathAgrees | src/api/connection.cpp:689-709 | for every accepted statement that meets the listed conditions the operator tree returns, without error, the same rows in the same order; where the fast path throws, building the tree throws |
| FastPath.LayoutsAgreeIffKeyLeads | src/execution/fast_aggregate.cpp:303-322 | fast columns stand where the general path puts them if and only if the key comes first |
| FastPath.DirectionsSufficeIff | src/execution/fast_aggregate.cpp:337-351 | ignoring NULLS FIRST and NULLS LAST changes no comparison if and only if every key puts NULLs where its direction does |
| FastSchemas.ColumnAgreesIff | src/execution/fast_aggregate.cpp:303-322 | a fast column has the name and type of its item's general column, for a call always, for the key if and only if it has no other alias and is a nullable double |
| FastSchemas.WidthsAgreeIff | src/execution/fast_aggregate.cpp:303-322 | both results have as many columns if and only if the key is selected at most once |
| FastSchemas.SchemasAgreeIff | src/execution/fast_aggregate.cpp:303-322 | with the key first or absent, the schemas are equal if and only if the key's column agrees |
| FastExceptions.CountAgreesIff | src/api/connection.cpp:689-709 | on one row, SELECT COUNT(*) with a WHERE clause agrees if and only if the evaluator decides the clause as the typed atoms do |
| FastExceptions.NumberQueriesAgreeIff | src/execution/eval.cpp:30-59 | such queries agree for all numeric constants if and only if the column is no BOOLEAN |
| FastExceptions.StringQueriesAgreeIff | src/execution/eval.cpp:30-59 | and for all string constants if and only if the column holds strings |
| FastExceptions.EqualityQueriesAgreeIff | src/execution/fast_aggregate.cpp:125-140 | they agree for all constants up to 2^53 if and only if the stored integer fits its subtype |
| FastExceptions.LargeIntegerParts | src/execution/fast_aggregate.cpp:130-133 | a query past 2^53 on which the paths part |
| FastExceptions.DottedColumnParts | src/execution/eval.cpp:150-158 | a query on columns b and a.b on which the paths part |
| GroupExceptions.SlotNameAgreesIff | src/api/connection.cpp:197-222 | grouping one row by a column named like the first slot parts the paths unless the key is the count |
| GroupExceptions.NullPlacementAgreesIff | src/execution/fast_aggregate.cpp:337-351 | grouping and sorting a NULL and a number agrees if and only if the key puts NULLs where its direction does |
| GroupExceptions.AliasCaseAgreesIff | src/api/connection.cpp:415-438 | sorting by an alias in some case agrees if and only if it is the alias letter by letter, or the name of the slot; otherwise the operator tree fails |
| FastPath.RunSelect | src/api/connection.cpp:689-709 | the fast path if it takes the statement, the rows of the plan otherwise |
| Statements.SplitInterleaves | src/api/connection.cpp:598-615 | a WHERE clause splits the rows into two parts that make them up, each in order |
| Statements.SelectedAsQueried | src/api/connection.cpp:598-615 | the rows DELETE removes and UPDATE changes are those SELECT returns for the same WHERE clause |
| Statements.DeleteMeaning | src/api/connection.cpp:598-615 | DELETE removes exactly the selected rows and keeps the others, in order and as they were; it fails only if there is no such table or the clause fails, and then changes nothing |
| Statements.UpdateSucceedsIff | src/api/connection.cpp:559-596 | exactly when an UPDATE of known columns succeeds |
| Statements.UpdateMeaning | src/api/connection.cpp:559-596 | all assignments take effect at once from the old values in the selected rows, every other cell shows what it showed, other tables stay, and a failing UPDATE changes nothing |
| Statements.InsertMeaning | src/api/connection.cpp:619-687 | INSERT appends the rows up to the first that cannot be prepared or stored, and succeeds when there is none |
| Statements.FailedInsertIsUndoneIff | src/api/connection.cpp:619-687 | a failed INSERT leaves no trace exactly when its first row failed and was not torn |
| Statements.SelfInsertAppendsSnapshot | src/api/connection.cpp:636-662 | INSERT INTO t SELECT * FROM t appends exactly the prior rows, once |
| Statements.DatabaseKeptIff | src/api/connection.cpp:527-687 | a statement keeps all tables rectangular and rightly named if and only if it is not an INSERT that tears a row |
| Statements.RunAll | src/api/connection.cpp:527-687 | so does every run of statements in which no INSERT tears a row |
| Statements.RunsAreCounted | src/api/connection.cpp:527-687 | after any such run a table has the rows of before plus those reported inserted minus those reported deleted |
| Connections.RebuiltTable | src/api/connection.cpp:552-557 | a new table with all rows inserted, or an error |
| Connections.Connection.RunCreate | src/api/connection.cpp:527-538 | registers an empty table, NOT NULL on the column types |
| Connections.Connection.RunDrop | src/api/connection.cpp:540-546 | removes a table; an error if there is none and IF EXISTS is absent |
| Connections.Connection.RunUpdate | src/api/connection.cpp:559-596 | the loops of UPDATE do what the specification says |
| Connections.Connection.RunDelete | src/api/connection.cpp:598-615 | the loop of DELETE does what the specification says |
| Connections.Connection.RunInsert | src/api/connection.cpp:619-687 | both forms of INSERT do what the specification says, the query finished before the first row goes in |
| Connections.Connection.Execute | src/api/connection.cpp:713-743 | each statement is one step of a run, or fails and changes nothing |
| ExpressionParser.ExprParser.ParseExpression | src/parser/parser.cpp:364-364 | the parser with its cursor reads what the specification reads, and terminates |
| ExpressionParser.ExprParser.Expression | src/parser/parser.cpp:366-392 | the precedence-climbing loop |
| ExpressionParser.ExprParser.UnaryForm | src/parser/parser.cpp:394-413 | prefix forms |
| ExpressionParser.ExprParser.PostfixForms | src/parser/parser.cpp:415-484 | IS NULL, BETWEEN, IN, NOT LIKE |
| ExpressionParser.ExprParser.Primary | src/parser/parser.cpp:486-561 | literals, names, parentheses |
| ExpressionParser.ExprParser.FunctionForm | src/parser/parser.cpp:563-584 | function calls with DISTINCT and star |
| ExpressionParser.ExprParser.CaseForm | src/parser/parser.cpp:586-613 | CASE with and without a subject |
| Printer.ReadsBack | src/parser/parser.cpp:366-484 | printed at any level, in front of any tokens that end it, an expression is read back and the parser goes on behind it |
| Printer.RoundTrip | src/parser/parser.cpp:364-613 | printing any expression the grammar can produce and parsing it gives back the same tree |
| Grammar.ParsePrintParse | src/parser/parser.cpp:364-613 | everything the parser accepts can be printed and reads back as the same tree |
| Grammar.ExprReadsAll | src/parser/parser.cpp:366-392 | an expression ends only before a token that is no operator of its level and starts no postfix form |
| Grammar.RecheckFindsNothing | src/parser/parser.cpp:386-390 | the look for a postfix form after an infix operator never finds one |
| Grammar.PostfixBindsTightest | src/parser/parser.cpp:367-368 | for every infix operator, a op b IS NULL is a op (b IS NULL) |
| Shortest.PrintIsShortest | src/parser/parser.cpp:364-613 | of the token lists without NOT LIKE that parse to an expression none is shorter than its print: no parenthesis is written in vain |
| Shortest.NotLikeIsShorter | src/parser/parser.cpp:466-482 | a token list with NOT LIKE that is shorter than the print of its tree |
| SqlText.SqlRoundTrip | src/parser/lexer.cpp:541-719 | writing an expression as text, tokenizing and parsing gives back the same tree, float literals included if their texts read back |
| SqlText.AcceptedTextIsPrintable | src/parser/parser.cpp:364-613 | the tree of any accepted text is printable and reads back from its print, however floats are read |
| Lexer.PiecesTile | src/parser/lexer.cpp:541-719 | the pieces put end to end are the source, the tokens are the token pieces in order, every other piece is a blank or a comment |
| Lexer.CommentBalances | src/parser/lexer.cpp:356-371 | a closed block comment has balanced nesting |
| Lexer.ReadStringValue | src/parser/lexer.cpp:146-165 | the loop over a literal undoubles its quotes |
| Lexer.StringRoundTrip | src/parser/lexer.cpp:418-447 | quoting any string with doubled quotes, lexing it and taking its value gives the string back |
| Tokenizer.TokenIsLocal | src/parser/lexer.cpp:541-719 | a token is recognised by its own characters wherever it stands before a space or the end |
| Tokenizer.RelexIsIdentity | src/parser/lexer.cpp:541-719 | the tokens of a source without errors, written with spaces between them, lex to themselves |
| Tokenizer.Scanner.ScanPiece | src/parser/lexer.cpp:339-535 | the scanner finds the piece at its position |
| Tokenizer.Scanner.Tokenize | src/parser/lexer.cpp:541-719 | the scanner collects the tokens of the source, and counts an error if and only if there is one |
| Bytes.NumberBack | src/storage/persistence.cpp:27-79 | little-endian numbers are read back, whatever follows |
| Bytes.ListBack | src/storage/persistence.cpp:110-161 | counted lists are read back if their elements are |
| Persistence.DatabaseRoundTrip | src/storage/persistence.cpp:110-228 | decoding an encoded database gives its tables exactly: names, column types, typed buffers, validity words |
| Persistence.OnlyWholeFileLoads | src/storage/persistence.cpp:165-228 | of the prefixes of a saved file only the whole file is accepted |
| Persistence.NewerVersionRejected | src/storage/persistence.cpp:165-180 | a file of a newer version is rejected |
| Persistence.LoadRestores | src/storage/persistence.cpp:165-228 | loading a saved catalog restores it, whatever the order in which its tables were written; into another catalog it is map override |
| DatabaseFile.Writer.Save | src/storage/persistence.cpp:110-161 | the loops over tables, columns and words write the encoding |
| DatabaseFile.FileReader.Load | src/storage/persistence.cpp:165-228 | the loops read and register the tables of the file; a load that fails midway leaves those it could read |
| DatabaseFile.SaveAndLoad | src/storage/persistence.cpp:110-228 | saving and loading is map override |
| TableFiles.TableKept | src/storage/persistence.cpp:110-228 | loading the saved form of a table gives the table: names, types, flags and cells |
| TableFiles.DatabaseKept | src/storage/persistence.cpp:110-228 | every table of a loaded database is as it was saved, whatever the order of writing and whatever was in memory before |
| TableFiles.RestoreObject | src/storage/persistence.cpp:185-228 | the loops over columns rebuild a table object from its saved form |
| TableFiles.SaveAndReopen | src/storage/persistence.cpp:110-228 | a table object written to a file and loaded into a new one shows the same |
| Csv.ReadGrid | src/storage/csv_reader.cpp:21-86 | the character loop runs the quoting state machine |
| Csv.WriteField | tools/lq_shell.cpp:92-99 | the loop quotes a field when it must |
| Csv.WriteGrid | tools/lq_shell.cpp:179-189 | the loops print header and body |
| Csv.LineRead | src/storage/csv_reader.cpp:21-86 | a printed line is read back as one record, whatever its fields hold |
| Csv.CsvRoundTrip | src/storage/csv_reader.cpp:21-86 | parsing printed text gives the grid less its trailing blank records if and only if the text does not start with a byte order mark |
| CsvInference.InferIsLeastUpperBound | src/storage/csv_reader.cpp:121-144 | with all rows scanned the inferred type is the least upper bound of the non-blank cells |
| CsvInference.InferIgnoresOrder | src/storage/csv_reader.cpp:121-144 | the order and multiplicity of the cells do not matter |
| CsvInference.CellsParse | src/storage/csv_reader.cpp:121-153 | every non-blank cell parses at its column's type |
| CsvInference.InferColumn | src/storage/csv_reader.cpp:121-144 | the scan, which stops at text, computes the inferred type |
| CsvInference.LoadRecords | src/storage/csv_reader.cpp:187-213 | every column has its inferred type and one value a record, short records padded and long ones cut |
| CsvInference.ReadCsvString | src/storage/csv_reader.cpp:160-213 | loads the records of the parsed grid under their header, or fails on a grid without a first record |

## Left out

- FastPath.FastPathAgrees: under the conditions of `FastPath.Agreeable` only, since the paths differ outside it; the statements on which they do, and the exact conditions, are listed above.
- SqlText.SqlRoundTrip: reading a float from its text and writing it are parameters; it covers every float whose text reads back.
- SqlText.AcceptedTextIsPrintable: asks of the reader of floats that a text without a sign is no negative number.
- QueryMeaning.AggregateQueryMeaning: for GROUP BY on columns, and expressions that mention, outside aggregate calls, group columns only.
- Shortest.PrintIsShortest: not for token lists with NOT LIKE, where it is false, nor for a bare star used as an operand.
- Operators.Execute: behind a LIMIT it does not say whether an error past the limit is met, because that depends on the batch size.
- FastAggregate.TryFastAggregate: not for MIN(*) and MAX(*), whose answer is infinite, nor for a numeric constant compared with a string column, where the source reads outside a buffer.
- FastAggregate.AccumulateRows: not for a numeric constant compared with a string column, for the same reason.
- Widths.FastRowsFit: the same two exclusions.
- FastPath.RunSelect: the same two exclusions.
- Connections.Connection.RunInsert: the same two exclusions, for the query of INSERT ... SELECT.
- Connections.Connection.Execute: the same two exclusions, for the queries it runs.
- Storage.Column.RestoreInt64: asks for as many words as the rows need; with fewer the source reads outside a buffer.
- Storage.Column.RestoreDouble: the same.
- Storage.Column.RestoreString: the same.
- Storage.Column.AppendValue: after a restore from words that no sequence of pushes leaves, appending is not modelled: a stale bit would make a NULL valid.
- TableFiles.SaveAndReopen: doubles are kept as far as their bit patterns keep them, a parameter; strings are bytes.
- Operator classes: one class with a plan node stands for all of them; batches are lists of rows, not of columns, and reset is not modelled.
- Doubles are reals: no rounding, NaN or infinity.
- Integer overflow of arithmetic on 64-bit values, and the power function, which is a parameter of `Evaluate`.
- CAST, scalar subqueries, EXISTS, IN with a subquery, window functions: a SELECT inside an expression is an error of the model's parser.
- The parser's statements (SELECT, INSERT, UPDATE, DELETE, CREATE, DROP) are syntax trees of the model, not parsed.
- std::stable_sort is an insertion sort here; `Ordering.LibrarySortAgrees` says that the choice does not matter.
- Hash maps are Dafny maps; the iteration order of the catalog is a parameter of saving.
- Rewriting compares calls by their structure where the source compares addresses; equal calls share a slot either way.
- Handlers of statements work on table values; `Storage.Table.Insert` ties the in-place insertion to the same specification.
- CSV files are scanned to the end for types; a limit on the scanned rows, under which a later cell may not parse, is left out. Reading a double from text is a parameter that accepts all digit strings.
- Type promotion, EXPLAIN, timing, locking, node ids, source locations and error messages.
- File streams: a file is a byte sequence, and opening or writing it does not fail.
- Aliases around subqueries and joins are ignored, as in the source.
- The C interface, the language bindings and the shell outside its CSV output.
