# A verified model of the SQL to MongoDB compiler

The program takes a parsed SQL statement and emits either a filter document (a Find) or an aggregation pipeline.
This project models it as a compiler between two languages and proves that it preserves meaning.

**Source language.** `Sql` is the SQL subset with its values and three-valued logic (truth tables of
ISO/IEC 9075:1992, 8.12), `SetFunctions` the set functions (6.5), `JoinTheorem` the joined table (7.5),
`GroupTheorem` grouping (7.7) and HAVING's environment (7.8), `Like` the pattern language (8.5) with MySQL's
backslash escape and case folding. ORDER BY is a stable sort by the value ordered by, NULL lowest.

**Target language.** `Mongo` gives a meaning to the expressions, filters and stages that are emitted:
`$match`, `$lookup`, `$unwind`, `$group`, `$facet`, `$project`, `$replaceRoot`, `$sort`, `$skip`, `$limit`.

**Translation.** `Compiler`, `Where`, `Source`, `Select`, `Render`, `InsertSelect` and `ConstFold` are the translation
functions, branch for branch. What the Go code does in loops and by changing maps is a method or a class
(`Builder.AggregateBuilder`, `Compiler.ColumnFinder`, `Render.BuildProjection`, `Source.AppendJoins`, ...), proved
against the function that specifies it. `Listing` says how a select list as parsed is planned and its columns named,
`Accepted` and `Translatable` which inputs are translated at all. `Comments` and `Split` are the two scanners. `Tables`
holds defaults and AUTO_INCREMENT ids, `Statements` the statements that touch schemas as functions on values, `Schema`
the same on the schema cache with its shared objects, and `Effects` what each statement does to the store, table by table.

## How the theorems fit together

- A joined row is a map from alias to record; `JoinTheorem.DocOf` is how the pipeline represents it as a document.
  `JoinTheorem.JoinCorrect` shows that the `$lookup`/`$unwind` stages compute `SqlFrom`, represented so.
- `ValueTheorem.ValueCorrect` is the theorem about value expressions, `WhereTheorem.WhereExact` and `NegateExact` the
  theorem about predicates. Both speak of any document that represents a row.
- `Facet`, `GroupTheorem` and `Aggregates` show that the grouping stages compute SQL's groups and set functions.
  `HavingTheorem.RewriteMeans` shows that replacing aggregates by output fields is a correct substitution, and
  `GroupedQuery.HavingCorrect` that HAVING's stages then keep the right groups.
- `QueryTheorem.QueryCorrect` puts these together for FROM, WHERE, GROUP BY and HAVING.
  `RenderTheorem.GroupedStatementCorrect` and `PlainStatementCorrect` add ORDER BY, LIMIT and the final projection, and
  so are about whole aggregate statements. `Builder.BuildStatement` is the imperative form of the same translation.
  `AnyOrder` drops the assumption that `$group` keeps the order of first appearance.
- These steps speak of the planned items. The results proper speak of the statement as parsed and the tables it names:
  `GroupedResults.GroupedResult`, `RowResults.PlainResult` and `FindResults.FindResult` say that each kind of SELECT shows,
  under names read off the list, the values of the listed expressions for SQL's rows, in SQL's order.
- `FindTheorem` routes a SELECT to a Find or a pipeline, and shows that the Finds choose SQL's rows. `Inserts` and
  `FindResults` do so for both branches of INSERT ... SELECT.
- `Translatable.TranslatesExactly` says exactly which statements get that far.
- `Schema.ExecuteAll` refines runs on shared objects to `Statements.Run`; `Effects` says what each step of those keeps and
  changes, and `Runs` what holds over all of them: ids increase, and exactly when the cache stays in agreement with the
  store.

Where the code is right on some inputs only, a lemma named `...Exactly` says on which, in both directions:

- values: NULL operands of every comparison, of AND, OR, NOT and BETWEEN, NULL in a simple CASE, IS NULL of an absent
  field, IS TRUE of a number, strings folded to a leading `$`, integer overflow in folding, ROUND evaluated statically;
- filters: NULL columns under NOT LIKE, NULL in an IN or NOT IN list, comparisons with a NULL literal or in `$expr`,
  IS TRUE of a number, newlines under LIKE;
- statements: DISTINCT, which pipelines and Finds of * ignore, DISTINCT of one column with absent fields or LIMIT, HAVING
  without grouping, absent grouping columns, columns named with their table in a Find, in HAVING or in ORDER BY of groups,
  a joined table's `_id`, a number in the select list of a pipeline, `$sum` over no values, keys that are both NULL in an
  equi-join, an ON between two joined tables written either way, a dropped sort key, DISTINCT or LIMIT 0 in
  INSERT ... SELECT;
- schemas: dots in database names, an ALTER whose rename is refused.

The conditions of these theorems are predicates a caller could evaluate (`GroupsFit`, `FromFits`, `PlainFits`, ...).
`GroupedExample` and `JoinExample` discharge all of them for concrete statements, over every database whose columns have
the types expected.

## Conventions

- A column is NULL when its field is null or absent. `$group` tells these apart, so grouping columns are required to be
  present (`GroupTheorem.KeyPresent`). So do IS NULL and IS NOT NULL inside value expressions and `<=>` in `$expr`, so
  their operands are required not to come out absent (`ValueTheorem.Settled`); as filters they treat both alike.
- In the code a field reference is a string beginning with `$`. `Mongo.Const` models this, and `ValueTheorem.Plain` asks
  that no string literal begins so; `ConstFold.DollarLiteralReads` shows why.
- Numbers are exact reals. Division and remainder that truncate toward zero are written out (`Bson.Trunc`,
  `Compiler.TruncDiv`), and so is int64 wrap-around (`ConstFold.Wrap64`) and truncation (`Rounding.ToInt64`).
- Expressions are compared as trees where the code compares their printed text; printing itself is a parameter.
- A `--` opens a comment even when no space follows it (mysql/handler.go:122), unlike in MySQL; the model follows the code.

## Model

| member | source | states |
|---|---|---|
| `ValueTheorem.ValueCorrect` | translator/internal/expr/agg_expr.go:94-388 | Compiled expressions keep their meaning: for every expression of columns, literals, arithmetic, comparison, LIKE, IN, AND/OR/NOT, IS, BETWEEN, both kinds of CASE, IF, IFNULL, COALESCE, NULLIF, ROUND and MOD, the emitted expression evaluates to the SQL value on every document that represents the row, provided that (`Safe`) no evaluated comparison has a NULL operand (but see the next rows), no AND, OR, NOT or BETWEEN comes out NULL, no operand of IS [NOT] NULL is an absent field, IN is not left open by a NULL, IS TRUE and its kind are not asked of the wrong numbers, COALESCE has two arguments or more, no LIKE subject holds a newline, and no divisor is zero |
| `ValueTheorem.TestCorrect` | translator/internal/expr/agg_expr.go:255-342 | a condition of CASE or IF is met exactly when SQL has it TRUE, under weaker provisos: its comparisons may have NULL operands wherever the operator still tests rightly (`OperandsFit`) |
| `ValueTheorem.ComparedExactly` | translator/internal/expr/agg_expr.go:344-388 | as a value, an emitted comparison is SQL's exactly (`ComparesRightly`): for =, !=, <, <=, >, >= if neither operand is NULL, for LIKE and NOT LIKE if the subject is not, for <=> unless one operand is absent and the other NULL, for IN and NOT IN if SQL's answer is not left open by a NULL |
| `ValueTheorem.ConnectiveExactly` | translator/internal/expr/agg_expr.go:171-192 | emitted AND and OR are SQL's exactly if SQL's value is not NULL |
| `ValueTheorem.NotExactly` | translator/internal/expr/agg_expr.go:193-199 | emitted NOT is SQL's exactly if its operand is not NULL |
| `ValueTheorem.WhenExactly` | translator/internal/expr/agg_expr.go:255-293 | a WHEN of a simple CASE chooses as SQL does exactly unless it compares NULL with NULL, or absent with absent |
| `ValueTheorem.TruthTestExactly` | translator/internal/expr/agg_expr.go:210-218 | IS [NOT] TRUE and IS [NOT] FALSE are SQL's exactly for booleans, NULL, and numbers that are zero, or not zero for FALSE |
| `ValueTheorem.CoalesceOfOneFails` | translator/internal/expr/agg_expr.go:536-537 | COALESCE of one argument, which SQL allows, becomes an expression the server rejects |
| `ValueTheorem.RangeOnExactly` | translator/internal/expr/agg_expr.go:221-238 | an emitted BETWEEN or NOT BETWEEN is SQL's exactly if SQL's value is not NULL |
| `ValueTheorem.IsNullExactly` | translator/internal/expr/agg_expr.go:200-209 | IS NULL and IS NOT NULL are SQL's exactly if the operand does not come out as an absent field |
| `ValueTheorem.ColumnIsNullExactly` | translator/internal/expr/agg_expr.go:200-209 | for a column: exactly if the document has the field |
| `ValueTheorem.AbsentIsNotNull` | translator/internal/expr/agg_expr.go:206-207 | the input: on the empty document `a IS NULL` comes out false |
| `ValueTheorem.CondIsSwitch` | translator/internal/expr/agg_expr.go:255-342 | the $cond emitted for a one-branch searched CASE with ELSE evaluates to what the $switch would |
| `ValueTheorem.StaticCorrect` | translator/internal/expr/expr.go:45-91 | constant evaluation gives the SQL value for literals, signs, and calls of IF, IFNULL, COALESCE, NULLIF, ROUND and MOD; the other functions, SUBSTRING, CAST, the clock and stand-alone comparisons are left out |
| `ValueTheorem.StaticRoundCorrect` | translator/internal/expr/expr.go:458-474 | a ROUND evaluated at translation time is the SQL ROUND where `Rounding.StaticRight` holds |
| `ValueTheorem.RoundCorrect` | translator/internal/expr/agg_expr.go:491-503 | the $pow/$floor/$cond form of ROUND evaluates to the SQL ROUND, for every whole number of digits, negative ones too |
| `ValueTheorem.ModInts` | translator/internal/expr/agg_expr.go:722-726 | Go's integer remainder is the remainder of the division truncated toward zero |
| `ValueTheorem.TruncDivIsTrunc` | translator/internal/expr/agg_expr.go:717-721 | Go's integer division is the real quotient truncated toward zero |
| `ValueTheorem.StaticUndollared` | translator/internal/expr/expr.go:458-541 | of the six functions modelled, none turns arguments that do not begin with $ into a string that does |
| `ConstFold.StringConstantExactly` | translator/internal/expr/agg_expr.go:392-397 | whatever string a constant call folds to, it stands for itself in every document exactly if it does not begin with $ |
| `Compiler.HasColumnRef` | translator/internal/expr/agg_expr.go:15-79 | the walk with its captured flag finds a column exactly when the expression mentions one |
| `Compiler.ColumnFinder.Walk` | translator/internal/expr/agg_expr.go:20-76 | the flag is set afterwards iff it was set before or the subtree mentions a column |
| `Accepted.CompilesExactly` | translator/internal/expr/agg_expr.go:94-397 | an expression compiles exactly if it holds no aggregate, REGEXP, unknown operator, pattern that is no string literal, or call with too few arguments; a call without columns exactly if it can be evaluated as it stands |
| `Accepted.StaticExactly` | translator/internal/expr/expr.go:45-91 | which expressions are constants |
| `Accepted.FiltersExactly` | translator/internal/expr/expr.go:752-831 | a predicate becomes a filter exactly if it is made by AND, OR and NOT of comparisons whose sides compile, of IN, LIKE and REGEXP of a column and a constant, and of IS and BETWEEN of a column |
| `Accepted.PlansExactly` | translator/internal/sel/source.go:13-104 | FROM is planned exactly if it joins tables one by one ON a condition, a RIGHT JOIN only of two |
| `Accepted.LookupExactly` | translator/internal/sel/render_aggregate.go:227-391 | a planned join is rendered exactly if it equates two columns or its ON uses only columns, literals, the six comparisons, AND, OR, +, -, *, / |
| `Translatable.RewritesExactly` | translator/internal/sel/render_aggregate.go:583-614 | HAVING is rewritten exactly if the arguments of its aggregates compile; nothing but aggregates changes, and none is left |
| `Translatable.TranslatesExactly` | translator/internal/sel/plan.go:17-87 | the whole translation succeeds exactly if FROM is planned, WHERE is a filter, ORDER BY names columns, and the statement reads one table, has LIMIT 0, or can be rendered: its joins, and, if it groups, columns under GROUP BY, aggregates that compile and a HAVING that is a filter with columns for its aggregates, or otherwise * or expressions that compile |
| `Rounding.HalfAwayExactly` | translator/internal/expr/expr.go:458-474 | r is ROUND(x, d) iff r times 10^d is an integer no further than a half from x times 10^d, ties away from zero |
| `Rounding.HalfAwayOdd` | translator/internal/expr/expr.go:465-473 | ROUND(-x, d) = -ROUND(x, d) |
| `Rounding.HalfAwayMonotone` | translator/internal/expr/expr.go:465-473 | ROUND is monotone in x |
| `Rounding.HalfAwayIdempotent` | translator/internal/expr/expr.go:465-473 | rounding twice to the same number of digits is rounding once |
| `Rounding.FormulaAgrees` | translator/internal/expr/agg_expr.go:491-503 | sign(x)·floor(\|x\|·10^d + 0.5)/10^d is ROUND(x, d) for every real x and every whole d |
| `Rounding.StaticRound` | translator/internal/expr/expr.go:463-474 | the multiplying loop and the truncating conversion compute the static form of ROUND |
| `Rounding.StaticExactly` | translator/internal/expr/expr.go:458-474 | the static form is ROUND(x, d) exactly if, for d >= 0, x·10^d rounds to an int64, and for d < 0, x rounds to an int64 that is a multiple of 10^-d |
| `Rounding.StaticAgrees` | translator/internal/expr/expr.go:458-474 | the static and the compiled form of ROUND are equal exactly then |
| `Rounding.NegativeDigitsIgnored` | translator/internal/expr/expr.go:464-467 | with a negative number of digits the loop does not run: ROUND(25, -1) is 30, the static form gives 25 |
| `WhereTheorem.WhereExact` | translator/internal/expr/expr.go:752-831 | the filter of a predicate matches a document iff the predicate is TRUE of its row, for every tree over AND, OR, NOT and the leaves of the fragment |
| `WhereTheorem.NegateExact` | translator/internal/expr/expr.go:834-880 | the filter of NOT e matches iff e is FALSE, so UNKNOWN rows match neither e nor NOT e |
| `WhereTheorem.ComparisonLeaf` | translator/internal/expr/expr.go:953-1071 | the filter of one comparison, whether a field test or an $expr, matches iff it is TRUE |
| `WhereTheorem.NegatedComparison` | translator/internal/expr/expr.go:883-911 | the flipped operator is TRUE exactly where the operator is FALSE |
| `WhereTheorem.RangeExactly` | translator/internal/expr/expr.go:785-805 | the BETWEEN and NOT BETWEEN filters match iff the range test is TRUE, exactly but for BETWEEN over a NULL column between two NULLs |
| `WhereTheorem.IsLeaf` | translator/internal/expr/expr.go:807-826 | the six IS tests match iff TRUE, and the flipped test is TRUE where the test is FALSE |
| `WhereTheorem.TruthFilterExactly` | translator/internal/expr/expr.go:807-826 | as filters IS [NOT] TRUE and IS [NOT] FALSE are right exactly for booleans, NULL, and numbers that are zero, or not zero for FALSE |
| `WhereTheorem.MemberExactly` | translator/internal/expr/expr.go:1033-1044 | $in is right exactly but for a NULL column with a NULL listed; $nin with a NULL listed exactly for values in the list, without one exactly for columns that are not NULL (or an empty list) |
| `WhereTheorem.NotLikeExactlyOnValues` | translator/internal/expr/expr.go:1052-1058 | $not with a regex is right for NOT LIKE exactly when the column is not NULL |
| `WhereTheorem.RegexpExactly` | translator/internal/expr/expr.go:1059-1071 | whatever the server's regular expressions and SQL's match: REGEXP passes the pattern as it is, letter case kept, and is right exactly where both match alike; NOT REGEXP exactly there too, except on NULL, which it passes |
| `WhereTheorem.NullLiteralExactly` | translator/internal/expr/expr.go:989-1032 | against a NULL literal, operator by operator, exactly which columns are compared rightly: `=`, `<=`, `>=` where the column is not NULL, `!=` where it is, the others always |
| `WhereTheorem.ExprNullExactly` | translator/internal/expr/expr.go:957-978 | in $expr, operator by operator and `<=>` too, exactly which NULL or absent operands make the comparison wrong |
| `WhereTheorem.UnqualifyEval` | translator/internal/sel/render_aggregate.go:432-444 | dropping the main table's qualifier changes no value |
| `Where.NegationSucceeds` | translator/internal/expr/expr.go:834-880 | NOT e translates iff e translates; both functions terminate, by tree size and then function rank |
| `Like.LikeToRegex` | translator/internal/expr/expr.go:724-749 | the index loop writes the regex specified |
| `Like.EscapesMeta` | translator/internal/expr/expr.go:724-749 | exactly the characters with a meaning in regular expressions are escaped |
| `Like.PrintedRegexParses` | translator/internal/expr/expr.go:724-749 | the regex written parses back to one token per pattern token: no escaping is ambiguous |
| `Like.LikeAgrees` | translator/internal/expr/expr.go:1045-1051 | the anchored case-insensitive regex matches a newline-free subject iff LIKE does |
| `Like.LikeExactlyOnNewlineFree` | translator/internal/expr/expr.go:724-749 | a subject is matched rightly by the regex of every pattern iff it contains no newline |
| `JoinTheorem.JoinCorrect` | translator/internal/sel/render_aggregate.go:30-41 | for every chain of INNER, LEFT and two-table RIGHT JOINs whose equi-joins name the main table or no table, running the $lookup/$unwind stages on the main collection gives SQL's joined rows, in order |
| `JoinTheorem.DocReads` | translator/internal/sel/render_aggregate.go:405-422 | a rendered column path reads from a joined document the value SQL binds to alias.column |
| `JoinTheorem.UnwindFound` | translator/internal/sel/render_aggregate.go:35-41 | $unwind of the records found gives the joined rows; with preserveNullAndEmptyArrays an unmatched row stays |
| `JoinTheorem.EquiKeeps` | translator/internal/sel/render_aggregate.go:227-236 | the localField/foreignField $lookup finds exactly the records ON holds for, its main column qualified or not, when no two keys are both NULL |
| `JoinTheorem.EquiPairExactly` | translator/internal/sel/render_aggregate.go:227-236 | for one pair of keys $lookup and SQL agree iff the keys are not both NULL |
| `JoinTheorem.OtherAliasExactly` | translator/internal/sel/source.go:150-160 | ON b.x = c.y, with b joined before c, is planned as a $lookup of c.y by the main table's field x: right on every collection exactly if that field holds b's value, which is not NULL |
| `JoinTheorem.MirroredExactly` | translator/internal/sel/source.go:150-160 | ON c.y = b.x is planned the other way round, as a $lookup of c.x by the main table's field y: right on every collection exactly if x and y are one name and that field holds b's value, which is not NULL |
| `JoinTheorem.VariablesBound` | translator/internal/sel/render_aggregate.go:238-281 | every $$left_v that the ON expression mentions is bound in let, to its own column |
| `JoinTheorem.JoinOnCorrect` | translator/internal/sel/render_aggregate.go:305-391 | the ON expression evaluates to the SQL value for the pair of rows |
| `JoinTheorem.JoinOnTests` | translator/internal/sel/render_aggregate.go:283-391 | as a condition it holds exactly when ON is TRUE, with NULL operands wherever the operator still tests rightly |
| `JoinTheorem.OnKeeps` | translator/internal/sel/render_aggregate.go:283-298 | the inner $match keeps exactly the right rows that satisfy ON for the given left row |
| `RightJoin.RightIsSwappedLeft` | translator/internal/sel/source.go:50-72 | a RIGHT JOIN by its own definition (matches, then unmatched right rows) has the rows of the swapped LEFT JOIN that is planned, as a multiset |
| `Source.AppendJoins` | translator/internal/sel/render_aggregate.go:30-41 | the loop over the joins appends each $lookup and its $unwind, or fails as the specification does |
| `SetFunctions.AccumulatorAgrees` | translator/internal/sel/render_aggregate.go:513-533 | SUM, AVG, MIN and MAX accumulators over values that may be absent give SQL's set functions, NULLs eliminated |
| `SetFunctions.SumExactly` | translator/internal/sel/render_aggregate.go:526-527 | $sum is SQL's SUM iff some value is not NULL; over only NULLs it is 0 where SQL has NULL |
| `SetFunctions.CountAgrees` | translator/internal/sel/render_aggregate.go:515-525 | summing the $cond of COUNT(col) counts the values that are not NULL |
| `SetFunctions.DistinctAgrees` | translator/internal/sel/render_aggregate.go:539-557 | reducing the filtered $addToSet gives the DISTINCT aggregate |
| `SetFunctions.ReduceOrderFree` | translator/internal/sel/render_aggregate.go:539-557 | the reduction does not depend on the order in which $addToSet lists its set |
| `Aggregates.OutputField` | translator/internal/sel/render_aggregate.go:92-105 | the projected output field of an aggregate, DISTINCT or not, holds its SQL value over the group |
| `Aggregates.DefaultField` | translator/internal/sel/render_aggregate.go:560-565 | the default of an aggregate is its value over no rows: COUNT 0, the others NULL |
| `HavingTheorem.HiddenNameInjective` | translator/internal/sel/render_aggregate.go:594-595 | different counters give different __hv_ names |
| `HavingTheorem.RewriteAdvances` | translator/internal/sel/render_aggregate.go:582-614 | rewriting HAVING only adds fields, exactly the ones it reports, under fresh names; existing accumulators stay |
| `HavingTheorem.RewriteMeans` | translator/internal/sel/render_aggregate.go:571-626 | the rewritten predicate over the output fields has the value of the original over the group's aggregates |
| `HavingTheorem.SelectedConsistent` | translator/internal/sel/render_aggregate.go:571-580 | with distinct names none of which starts with __hv_, each selected aggregate has its own output field |
| `GroupTheorem.GroupKey` | translator/internal/sel/render_aggregate.go:450-469 | the _id computed by $group is the row's grouping key, NULLs alike, where the columns are present |
| `GroupTheorem.AbsentKeyExactly` | translator/internal/sel/render_aggregate.go:450-469 | GROUP BY one column makes SQL's groups exactly if no row lacks the field while another holds an explicit NULL there |
| `GroupTheorem.KeyValueInjective` | translator/internal/sel/render_aggregate.go:450-469 | different keys get different _id values |
| `GroupTheorem.GroupRow` | translator/internal/sel/render_aggregate.go:80-105 | $project after $group turns a group's document into its output row: key columns and aggregates, nothing else |
| `GroupTheorem.AllGroups` | translator/internal/sel/render_aggregate.go:107-119 | $group and $project give the output row of each SQL group |
| `Facet.FacetRows` | translator/internal/sel/render_aggregate.go:107-115 | without GROUP BY the $facet stages give exactly one row, the aggregates of all rows, even of none |
| `Facet.FacetRun` | translator/internal/sel/render_aggregate.go:108-115 | $facet, $cond and $replaceRoot pick the one inner row or else the defaults, whatever the inner pipeline |
| `GroupedQuery.HavingExact` | translator/internal/sel/render_aggregate.go:121-123 | the $match of HAVING passes a group's output row iff HAVING is TRUE of the group, its columns read off that row |
| `GroupedQuery.HavingAsRead` | translator/internal/sel/render_aggregate.go:121-123 | for columns named without their table that is what SQL's HAVING sees |
| `Qualifiers.QualifiedHavingReadsNull` | translator/internal/sel/render_aggregate.go:571-626 | a column named with its table, main or joined, is read as NULL |
| `Qualifiers.QualifiedHavingKeepsNone` | translator/internal/sel/render_aggregate.go:571-626 | so HAVING t.a compared with a value keeps no group |
| `Qualifiers.QualifiedHavingExactly` | translator/internal/sel/render_aggregate.go:58-131 | the pipeline gives the output rows of SQL's groups exactly if HAVING, with NULL for such columns, keeps the same groups |
| `GroupedQuery.HavingCorrect` | translator/internal/sel/render_aggregate.go:121-130 | HAVING's stages keep the groups its filter passes and drop exactly the fields it added |
| `QueryTheorem.WhereCorrect` | translator/internal/sel/render_aggregate.go:43-50 | the $match keeps exactly the joined rows that WHERE is TRUE of |
| `QueryTheorem.GroupedCorrect` | translator/internal/sel/render_aggregate.go:58-131 | grouping, HAVING of columns named without their table, and the drop of its fields give SQL's result rows |
| `QueryTheorem.GroupedAnyOrder` | translator/internal/sel/render_aggregate.go:117-130 | as a multiset the result does not depend on the order in which $group emits its groups |
| `QueryTheorem.CountsAddUp` | translator/internal/sel/render_aggregate.go:76-119 | the sizes of all groups add up to the number of rows; without GROUP BY there is one group |
| `QueryTheorem.CountsConserved` | translator/internal/sel/render_aggregate.go:76-119 | in the documents, the COUNT(*) fields before HAVING add up to the number of joined rows passing WHERE, and without GROUP BY exactly one document comes out |
| `QueryTheorem.QueryCorrect` | translator/internal/sel/render_aggregate.go:17-131 | FROM, WHERE, GROUP BY and HAVING together: without DISTINCT and * and with unqualified columns in HAVING the pipeline run on the main collection gives the rows of the planned items, which `GroupedResults.GroupedResult` turns into those of the statement as parsed |
| `Builder.AggregateBuilder.Rewrite` | translator/internal/sel/render_aggregate.go:583-614 | the walk that mutates group, project, defaults, selName, havingOnly and counter keeps them in step with one grouping state, rewrites as specified, and fails iff the specification fails |
| `Builder.AggregateBuilder.NameAggregate` | translator/internal/sel/render_aggregate.go:584-613 | one aggregate of HAVING gets its selected field or a fresh hidden one |
| `Builder.AggregateBuilder.SelectItems` | translator/internal/sel/render_aggregate.go:471-481 | the loops over the select list build the maps of the selected aggregates |
| `Builder.AggregateBuilder.constructor` | translator/internal/sel/render_aggregate.go:58-75 | the projection starts with _id hidden and a field for each grouping column |
| `Builder.GroupColumns` | translator/internal/sel/render_aggregate.go:447-470 | _id of the $group: null, or a document of the grouping columns |
| `Builder.BuildGrouped` | translator/internal/sel/render_aggregate.go:58-131 | the stages appended are those of the specification, or both fail |
| `Builder.BuildRows` | translator/internal/sel/render_aggregate.go:28-131 | the pipeline up to the end of HAVING is the one specified |
| `Builder.BuildStatement` | translator/internal/sel/render_aggregate.go:17-221 | the whole statement built, with ORDER BY, LIMIT, the empty mark and the final projection, is the one specified |
| `Select.PlanSelectItems` | translator/internal/sel/items.go:12-45 | the loop builds the plan that `Listing.PlansListed` is about |
| `RenderTheorem.GroupedStatementCorrect` | translator/internal/sel/render_aggregate.go:133-165 | the step to it: in terms of the planned items, which `Listing.PlansListed` ties to the statement, a grouped statement without DISTINCT returns SQL's rows ordered by at most one select item, offset and limited; LIMIT 0 returns none |
| `GroupedResults.GroupedResult` | translator/internal/sel/render_aggregate.go:17-221 | a grouped SELECT as parsed: under the names of the result's columns, its documents show, in order, the values of the listed expressions themselves (a column of the group, an aggregate with its DISTINCT over the group's rows) for the groups of FROM and WHERE that HAVING keeps, ordered by a column of the result or a repeated expression, and limited; nothing on SQL's side mentions the plan |
| `GroupedResults.GroupsAreResult` | translator/internal/sel/render_aggregate.go:58-131 | the groups kept are those for which HAVING is TRUE where names stand for the result's columns first, then for grouping columns, and aggregates for themselves |
| `GroupedResults.GroupedFields` | translator/internal/sel/render_aggregate.go:76-105 | the documents have exactly the fields of the grouping columns, selected or not, and of the listed aggregates |
| `GroupedResults.AnyOrderResult` | translator/internal/sel/render_aggregate.go:117-157 | and in whatever order $group emits its groups, without LIMIT the same values come out as a multiset, sorted by the key |
| `Listing.PlansListed` | translator/internal/sel/items.go:12-107 | the plan of a select list: its items are the listed expressions in order, each with its alias, an aggregate with its own function, DISTINCT and argument, a column with its table and name, anything else as it is; the three flags say exactly whether *, an aggregate or another expression is listed |
| `Listing.NameIsResult` | translator/internal/sel/render_aggregate.go:628-655 | the field of a listed column or aggregate: its alias, else the column's name, else a name made of the aggregate's function and argument |
| `Qualifiers.JoinedOrderIgnored` | translator/internal/sel/render_aggregate.go:133-157 | ORDER BY a joined table's column leaves the groups as they come |
| `Qualifiers.JoinedOrderExactly` | translator/internal/sel/render_aggregate.go:133-157 | which without LIMIT is SQL's order exactly if they come sorted by it |
| `AnyOrder.SortedAnyOrder` | translator/internal/sel/render_aggregate.go:117-157 | whatever order $group emits its groups in, HAVING and ORDER BY without LIMIT give SQL's rows as a multiset, sorted by the key |
| `RenderTheorem.PlainStatementCorrect` | translator/internal/sel/render_aggregate.go:17-221 | the step to it: in terms of the planned items and the projection's own names, a statement without grouping returns SQL's joined rows that pass WHERE, ordered by at most one column, limited and projected |
| `RowResults.PlainResult` | translator/internal/sel/render_aggregate.go:17-221 | a SELECT of columns and expressions as parsed: under `Listing.OutputNames` its documents show, in order, SQL's values of the listed expressions for the joined rows that pass WHERE, ordered by at most one column, and limited |
| `RowResults.PlainFields` | translator/internal/sel/render_aggregate.go:168-217 | its documents have no field but those names |
| `Listing.ProjectionNames` | translator/internal/sel/render_aggregate.go:168-217 | the names the projection chooses, from the list as parsed: an expression's alias or else its text; a column's alias or else its name, or table_name where an earlier column has taken that, _id excepted; no other field is projected |
| `RenderTheorem.ProjectedRow` | translator/internal/sel/render_aggregate.go:168-217 | the final $project holds SQL's value of each select item under its output name |
| `Departures.GroupedDistinctExactly` | translator/internal/sel/render_aggregate.go:17-221 | a grouped SELECT DISTINCT, with ORDER BY and LIMIT, returns SQL's rows in order exactly if those selected hold no duplicate as far as LIMIT and OFFSET reach, or those leave no row |
| `Departures.PlainDistinctExactly` | translator/internal/sel/render_aggregate.go:17-221 | and so does a SELECT DISTINCT without grouping |
| `Ordering.DistinctSliceExactly` | translator/internal/sel/render_aggregate.go:159-165 | slicing rows without removing their duplicates first is right exactly if there are none up to the end of the slice, or nothing is left |
| `DistinctExample.DuplicateReturned` | translator/internal/sel/render_aggregate.go:17-221 | the input: SELECT DISTINCT COUNT(*) ... GROUP BY a over two groups of one row returns the row twice |
| `Departures.HavingDroppedExactly` | translator/internal/sel/render_aggregate.go:58-131 | HAVING without grouping or selected aggregates is dropped: without an aggregate in it SQL's rows come out exactly if every row passes; with one, when all rows are one group, exactly if there is one row and HAVING is TRUE, or none and it is not |
| `Departures.JoinedIdExactly` | translator/internal/sel/render_aggregate.go:190-217 | a joined table's _id comes out as the main document's: right exactly if the two are the same |
| `Departures.FlagExactly` | translator/internal/sel/render_aggregate.go:201-210 | a constant number or boolean in the select list is taken as a flag: right exactly if it is not 0 or false and the document holds it under that name |
| `Departures.CollidesExactly` | translator/internal/sel/render_aggregate.go:187-200 | adding a joined column keeps the output names distinct exactly if its leaf or else its underscored path is free |
| `Departures.BothSurvive` | translator/internal/sel/render_aggregate.go:187-197 | SELECT a.x, b.x: both values come out, the second under its underscored path |
| `GroupedExample.StatementCorrect` | translator/internal/sel/render_aggregate.go:17-221 | the conditions of GroupedResult are met: for every database whose rows have the column, a concrete GROUP BY with a hidden HAVING aggregate and ORDER BY shows SQL's rows under `dept` and `c` |
| `JoinExample.StatementCorrect` | translator/internal/sel/render_aggregate.go:17-221 | the conditions of PlainResult are met: for every pair of tables with scalar columns and non-NULL ids, a concrete LEFT JOIN with ORDER BY shows SQL's rows under `name` and `title` |
| `RenderTheorem.TailCorrect` | translator/internal/sel/render_aggregate.go:133-164 | $sort, $skip and $limit order stably, skip and take |
| `Render.BuildProjection` | translator/internal/sel/render_aggregate.go:168-217 | the loop that names, disambiguates and projects the select list builds the projection specified, whose names `Listing.ProjectionNames` and whose values `RenderTheorem.ProjectedRow` fix |
| `Render.FindExprAlias` | translator/internal/sel/render_aggregate.go:394-402 | the alias of the first select item that is the expression ordered by |
| `Stages.TailRun` | translator/internal/sel/render_aggregate.go:160-164 | the optional stages run in turn sort and slice |
| `ConstFold.FoldAgrees` | translator/internal/expr/agg_expr.go:641-729 | for numeric expressions without overflow, folding gives the number that the compiled form gives on every document; a folded NULL is a run-time error there |
| `Translatable.FoldsExactly` | translator/internal/expr/agg_expr.go:641-729 | a numeric expression folds exactly if its operators are known, DIV combines no floats, and no division by zero has something done to its NULL |
| `ConstFold.OverflowExactly` | translator/internal/expr/agg_expr.go:711-721 | folding two integers is right iff the exact result is in int64 |
| `ConstFold.FoldCompiles` | translator/internal/expr/agg_expr.go:641-667 | a numeric expression that folds also compiles |
| `ConstFold.NoColumnsSame` | translator/internal/expr/agg_expr.go:15-79 | without a column reference the compiled expression has one value, the same on all documents |
| `ConstFold.DollarLiteralReads` | translator/internal/expr/agg_expr.go:94-103 | except for string literals beginning with $: such a literal reads a field |
| `Comments.StripSQLComments` | mysql/handler.go:102-161 | the index loop with its builder writes the stripped text specified |
| `Comments.CopyQuote` | mysql/handler.go:138-154 | the inner loop copies a quoted segment to its end |
| `Comments.LexKeepsAll` | mysql/handler.go:102-161 | the token view of a statement loses nothing |
| `Comments.LexOfStripped` | mysql/handler.go:102-161 | the output lexes to the input's tokens without its comments, closed block comments being spaces: nothing else changes and no new comment or quote arises |
| `Comments.OrdinaryStays` | mysql/handler.go:102-161 | text without quotes, /, - and # stays in front of whatever follows |
| `Comments.LoneMarkStays` | mysql/handler.go:106-131 | and so does a / or - that opens no comment |
| `Comments.LineDropped` | mysql/handler.go:121-129 | after such text, `--` or `#` and what follows up to the newline are dropped, the newline kept |
| `Comments.LastLineDropped` | mysql/handler.go:121-129 | or to the end, without a newline |
| `Comments.BlockBlanked` | mysql/handler.go:106-120 | a block comment becomes one space |
| `Comments.OpenBlockDropped` | mysql/handler.go:106-120 | one never closed is dropped to the end |
| `Comments.QuoteStays` | mysql/handler.go:138-154 | a segment in quotes of any of the three kinds stays whatever looks like a comment in it, a backslashed quote not ending it, and stripping goes on after it |
| `Comments.OpenQuoteStays` | mysql/handler.go:138-154 | one never closed stays to the end |
| `Comments.UnchangedExactly` | mysql/handler.go:102-161 | exactly the statements without comments come back unchanged |
| `Comments.StrippedIsClean` | mysql/handler.go:102-161 | the output has no comment outside quotes |
| `Comments.StripIdempotent` | mysql/handler.go:102-161 | stripping twice is stripping once |
| `Comments.QuotesSurvive` | mysql/handler.go:138-154 | quoted segments outside comments survive verbatim and in order |
| `Split.SplitTopLevel` | mysql/meta.go:612-637 | the loop over depth, quote and start returns the pieces specified |
| `Split.TextIsPiece` | mysql/meta.go:612-637 | well-formed text whose separators all lie inside parentheses, nested to any depth, or quotes is one piece, and a separator after it cuts there |
| `Split.JoinOfSplit` | mysql/meta.go:612-637 | joining the pieces with the separator gives the string back, for every string and separator |
| `Split.PiecesSplitAlone` | mysql/meta.go:612-637 | each piece splits into itself alone |
| `Split.SurvivesExactly` | mysql/meta.go:612-637 | a list survives joining and splitting iff its pieces split alone and all but the last end at depth 0 outside quotes |
| `Tables.CacheKeyInjective` | driver/schema.go:52 | cacheKey is injective for database names without a dot |
| `Tables.KeysMeetExactly` | driver/schema.go:52 | with dots, exactly which db.table pairs share a key |
| `Tables.FillKeepsAndCompletes` | driver/schema.go:118-143 | explicit fields stay, and exactly the missing columns with AUTO_INCREMENT or a default are added |
| `Effects.FillValues` | driver/schema.go:118-199 | and with what: an id just issued, or the value its DEFAULT stands for |
| `Tables.FillIssues` | driver/schema.go:118-143 | for one document the counter advances by the number of ids issued, each filled field getting an id of its own |
| `Tables.FillDocsIssue` | driver/schema.go:118-143 | over all documents the counter advances by exactly the number of ids issued |
| `Tables.WrittenAllAre` | driver/schema.go:118-144 | the ids read back from the filled documents, in document and column order, are exactly the whole numbers after the old counter up to the new one |
| `Runs.IdsIncrease` | driver/schema.go:102-144 | over every run of CREATE, INSERT, ALTER, RENAME and DROP, the ids read from the documents inserted into a table, followed through renames, strictly increase and never exceed its counter |
| `Effects.InsertAdds` | driver/driver.go:214-233 | what an INSERT does to the store: the table's documents stay and come first, as many follow as were inserted, each with its own fields and just the columns it lacks that the schema supplies, holding a new id or the DEFAULT's value; no other table is touched, in documents, schema, cache or counter |
| `Effects.CreateMakes` | mysql/ddl.go:22-85 | CREATE makes an empty table with its schema, or changes nothing if there is one |
| `Effects.DropRemoves` | mysql/ddl.go:341-372 | DROP takes away a table's documents, schema, counter and cached schema, and touches no other |
| `Effects.RenameMoves` | mysql/alter.go:286-322 | RENAME moves all of them to the new name and touches no third table; or changes nothing, if the table is missing or the name taken |
| `Effects.DescribeChangesNothing` | driver/schema.go:70-89 | looking a schema up changes nothing stored |
| `Effects.AlterEdits` | mysql/alter.go:45-185 | an ALTER that is not refused edits every document of the table by all its options in turn, ends under the last name given, stores the schema edited so, and touches no table but those named |
| `Effects.DropColumnRemoves` | mysql/alter.go:72-82 | DROP COLUMN takes the field out of each document, and nothing else |
| `Effects.ChangeColumnMoves` | mysql/alter.go:92-116 | CHANGE COLUMN moves the field's value to the new name, and changes nothing else |
| `Effects.AddColumnFills` | mysql/alter.go:50-70 | ADD COLUMN gives documents without the field its literal default or the current time, and leaves all others |
| `Effects.AddColumnKeeps` | mysql/alter.go:50-70 | of several columns: the fields there are stay, and what is added is some added column with its value |
| `Effects.OtherOptionsKeep` | mysql/alter.go:84-178 | MODIFY, index options and RENAME change no document |
| `Effects.SeenIsStored` | driver/schema.go:70-89 | while cache and store agree, the schema an INSERT or ALTER works with is the one stored |
| `Effects.OptionEdits` | mysql/alter.go:48-178 | what each option makes of the schema's columns and indexes |
| `Effects.CaseIgnored` | mysql/alter.go:325-365 | the names of columns and indexes are compared regardless of case |
| `Like.SameLetterExactly` | translator/internal/expr/expr.go:1045-1058 | letters compare alike if equal or the two cases of one of the 26 |
| `Effects.ReplaceColumnIs` | mysql/alter.go:336-344 | MODIFY and CHANGE put the column where the first of its name, regardless of case, was |
| `Effects.RenamedInIndexes` | mysql/alter.go:95-131 | CHANGE renames the column in every index, regardless of case, and nothing else there |
| `Runs.AlterAgreesExactly` | mysql/alter.go:45-185 | after an ALTER every cached schema is the stored one exactly if no refused rename comes after options that, since the last rename carried out, have changed the shared object |
| `Runs.RunAgreesExactly` | mysql/alter.go:45-185 | the cache agrees with the store after every statement of a run exactly if no ALTER in it does that |
| `Runs.RefusedRenameBreaks` | mysql/alter.go:162-170 | the failing family: where tables t and u exist, ALTER TABLE t ADD COLUMN ..., RENAME TO u leaves the columns in the cache and not in the store |
| `Schema.ApplyDefaults` | driver/schema.go:118-144 | the nested loops over the shared documents fill them as specified and advance the counter accordingly |
| `Schema.Database.NextAutoIncrement` | driver/schema.go:102-115 | the next id is one more than the last, and is recorded |
| `Schema.SchemaStore.Save` | driver/schema.go:55-67 | stores the schema and caches the very object, other entries kept |
| `Schema.SchemaStore.Get` | driver/schema.go:70-89 | returns the cached object or a new one read from the store, nil iff neither has the table, and caches it |
| `Schema.SchemaStore.Delete` | driver/schema.go:92-98 | removes the entry from cache and store |
| `Schema.SchemaStore.Rekey` | mysql/alter.go:303-307 | renaming the shared object in place, saving it and deleting the old entry moves its entry and no other |
| `Schema.SchemaStore.RenameCollection` | mysql/alter.go:286-322 | rename moves documents, schema and counter, or does nothing when the server refuses |
| `Schema.SchemaStore.CarryOut` | mysql/alter.go:48-178 | one option of an ALTER, on the documents and on the shared object or as a rename, does what it does on values; the object stays the one cached under the table's present name |
| `Schema.SchemaStore.CarryOutAll` | mysql/alter.go:48-178 | the loop over the options, up to a rename that is refused, leaves store and cache as the run on values does |
| `Schema.SchemaStore.AlterTable` | mysql/alter.go:45-185 | ALTER TABLE: get the shared object, carry the options out, return early when a rename is refused and else save once; store and cache end as on values, other databases untouched |
| `Schema.PutColumn` | mysql/alter.go:336-344 | the loop replaces the first column of that name, regardless of case, or appends |
| `Schema.DropNamed` | mysql/alter.go:325-333 | the loop drops the columns of that name, regardless of case |
| `Schema.SchemaStore.CreateTable` | mysql/ddl.go:22-85 | creates the collection and, if there are columns, the schema |
| `Schema.SchemaStore.DropTable` | mysql/ddl.go:341-372 | drops documents, schema and counter together |
| `Schema.InsertDocs` | driver/driver.go:214-233 | on the shared objects an INSERT does what `Statements.Step` does on values, which `Effects.InsertAdds` is about |
| `Schema.ExecuteAll` | driver/schema.go:43-98 | a sequential run on the shared objects leaves database and cache as the same run on values, which `Effects` describes step by step and `Runs` as a whole |
| `Schema.OtherDatabase` | driver/schema.go:52 | and another database's part of the cache as it was |
| `FindTheorem.FindCorrect` | translator/internal/sel/render_find.go:13-61 | on any collection, the Find of a SELECT returns the rows SQL chooses by WHERE, ORDER BY (any number of columns) and LIMIT, projected to the planned items, as far as its documents hold the columns it reads |
| `FindTheorem.FindIsSql` | translator/internal/sel/render_find.go:13-61 | so with unqualified scalar columns it returns SQL's rows, in order; `FindResults.FindResult` says of which table and which columns |
| `FindResults.FoundExactly` | translator/internal/sel/plan.go:39-42 | a translated SELECT becomes a Find exactly if it reads one table and lists columns or *, without grouping or HAVING, and with DISTINCT of at most one of them |
| `FindResults.ReadsItsTable` | translator/internal/sel/render_find.go:12-37 | and the Find reads the table named, whatever its alias |
| `FindResults.FindResult` | translator/internal/sel/render_find.go:13-61 | run on the collection it names, it shows under the columns' names SQL's rows of the statement as parsed: the values of the listed columns for the rows of the table that pass WHERE, ordered by any number of columns, and limited |
| `FindResults.FindFields` | translator/internal/sel/render_find.go:39-61 | its documents have no other field |
| `FindResults.FindStarResult` | translator/internal/sel/render_find.go:40-45 | SELECT * returns the records of the table named that pass WHERE, without their _id, in SQL's order |
| `FindResults.DistinctResultExactly` | driver/driver.go:146-168 | SELECT DISTINCT of a column from the table named: SQL's values exactly if LIMIT and OFFSET cut off nothing but a NULL that absent fields lose |
| `FindTheorem.FindStarCorrect` | translator/internal/sel/render_find.go:40-45 | SELECT * returns the rows chosen without their _id |
| `FindTheorem.StarDistinctExactly` | translator/internal/sel/render_find.go:31-45 | SELECT DISTINCT * keeps its duplicates: right exactly if there are none as far as LIMIT reaches |
| `FindTheorem.QualifiedReadNull` | translator/internal/sel/render_find.go:13-61 | with qualified columns it returns what SQL would if every qualified column were NULL |
| `FindTheorem.QualifiedExactly` | translator/plan/plan.go:28-37 | the path t.a reads the column a of table t exactly if that is NULL |
| `FindTheorem.QualifiedComparisonExactly` | translator/internal/expr/expr.go:953-1032 | WHERE t.a compared with a value is right on every collection exactly if no value compares so: < the empty string or FALSE, > TRUE |
| `FindTheorem.FindDistinctExactly` | driver/driver.go:146-168 | SELECT DISTINCT of one column loses the NULL of absent fields and ignores OFFSET and LIMIT: SQL's values, as a multiset, exactly if those cut off nothing but a NULL that is lost |
| `FindTheorem.QualifiedDistinctExactly` | driver/driver.go:146-168 | SELECT DISTINCT t.a finds nothing: right exactly if no row passes, or LIMIT and OFFSET leave none |
| `FindTheorem.FindSortExactly` | translator/internal/sel/limits.go:13-30 | ORDER BY is accepted exactly if it names columns only, and then gives their keys in order |
| `FindTheorem.AliasesUnused` | translator/internal/sel/plan.go:17-87 | hence no statement that is translated orders by anything but columns, and the lookup of aliases in buildAggregate never runs |
| `FindTheorem.FindsReadOneTable` | translator/internal/sel/plan.go:39-42 | what becomes a Find reads one table, without grouping, HAVING, aggregates or expressions |
| `InsertSelect.ConversionCorrect` | translator/internal/write/write.go:181-207 | the pipeline made from a Find returns the Find's rows in the Find's order, when the sort keys keep their order and are kept by the projection, and LIMIT is not an explicit 0 |
| `InsertSelect.ConversionExactly` | translator/internal/write/write.go:181-207 | with one sort key the conversion is right on every collection iff the projection keeps the key, or no two passing documents are both put in order by the key and told apart by the projection; for every filter, skip and limit |
| `InsertSelect.UnfilteredTellsApart` | translator/internal/write/write.go:181-207 | without WHERE there are two such documents as soon as the projection keeps some other field |
| `InsertSelect.LimitZeroExactly` | translator/internal/write/write.go:181-207 | from a Find, an explicit LIMIT 0 is lost: no row exactly if no more pass the filter than are skipped |
| `InsertSelect.InsertSelectCorrect` | translator/internal/write/write.go:181-207 | INSERT ... SELECT of a Find, ordered by at most one selected column, yields the Find's rows |
| `Inserts.TranslateInsert` | translator/internal/write/write.go:160-212 | both branches: the statement's own pipeline, or the one made from its Find |
| `Inserts.AggregateInsertExactly` | translator/internal/write/write.go:171-180 | an aggregated SELECT with LIMIT 0 inserts its whole main collection, which is right exactly if that is empty; any other its own rows |
| `FindResults.GroupedInsertResult` | translator/internal/write/write.go:171-180 | INSERT ... SELECT of a grouping query yields SQL's rows of the statement as parsed, in order |
| `FindResults.PlainInsertResult` | translator/internal/write/write.go:171-180 | and of a join or of expressions |
| `FindResults.FindInsertResult` | translator/internal/write/write.go:181-207 | and of a Find, from the table it names |
| `FindResults.InsertColumns` | translator/internal/write/write.go:160-212 | into the columns written, and with no other error than its SELECT |
| `Inserts.InsertSelectIsSql` | translator/internal/write/write.go:181-207 | of a Find, for unqualified columns, SQL's rows of the SELECT, in order, with their duplicates |
| `Inserts.InsertDistinctExactly` | translator/internal/write/write.go:181-207 | of a SELECT DISTINCT, SQL's rows exactly if those selected hold no duplicate as far as LIMIT reaches |
| `Inserts.InsertStarIsSql` | translator/internal/write/write.go:181-207 | of SELECT *, the records chosen without their _id |
| `InsertSelect.ListedExactly` | translator/internal/sel/render_find.go:39-61 | the projection of a select list keeps exactly the fields listed |
| `InsertSelect.BuildFindProjection` | translator/internal/sel/render_find.go:39-61 | the loop with its askedForID flag builds the projection specified |
| `InsertSelect.ConvertFind` | translator/internal/write/write.go:181-205 | the appends build the pipeline specified |

## Left out

- QueryCorrect: output names must be distinct, dot-free and not `_id` (unaliased aggregates of joined columns have dots), and the select list of a grouping query holds unaliased grouping columns and aggregates. Other select lists are not given their SQL meaning by the code.
- GroupedResult: takes the groups in the order of first appearance, so with ties under ORDER BY, or LIMIT without ORDER BY, it speaks of one of the possible results. `GroupedResults.AnyOrderResult` is the statement for any order, without LIMIT. ORDER BY names a select item, and columns qualified by their table in HAVING or by a joined one in ORDER BY are the subject of `Qualifiers`.
- PlainResult: asks for no DISTINCT and no HAVING; `Departures` says exactly when statements with them are right.
- DistinctResultExactly: compares the values as a multiset, since the order of the distinct command is the server's.
- AbsentKeyExactly: is about one grouping column; with several, grouping columns are asked to be present.
- FindResult: an alias in a plain SELECT is not passed on; each column is observed under its own path.
- ConversionCorrect: the keys of a `$sort` come out of a Go map; with two or more keys their order is a parameter.
- StaticCorrect: covers numbers, NULL and booleans in IF, IFNULL, COALESCE, NULLIF, ROUND and MOD; conversions between numbers and text (ParseFloat, ParseInt, printing) are not modelled and fail.
- TranslatesExactly: counts as failures the functions and conversions that the model leaves out (see below).
- WhereExact: leaves REGEXP out, as its pattern language has no semantics here; `RegexpExactly` is about it, for whatever the patterns match.
- FoldAgrees: floats are reals, so rounding of IEEE arithmetic is not modelled.
- IdsIncrease: counters are unbounded, and store writes succeed; failing writes and concurrent statements are not modelled.
- AlterTable: index names are taken to be unique, as the server requires, and the indexes themselves are not modelled; neither are writes that fail.
- Functions on strings, dates, and trigonometry, SUBSTRING, CAST, and DEFAULT functions beyond their result for given clock readings.
- A run-time error in a `$match` or in a stage's expression aborts MongoDB's query; the model counts it as not matching or as an absent field. The theorems' conditions rule such errors out.
- String comparison is by code unit; collations other than ASCII case folding in LIKE are not modelled, nor is UTF-8.
- In a pipeline, ORDER BY more than one key.
- The fields of an INSERT ... SELECT's documents that go into which column, and its positional fallback (driver/driver.go:312-325), which depends on map iteration order.
- Parsing, the wire protocol, cursors, authentication, SHOW and metadata queries, UPDATE and DELETE.
- CREATE and DROP DATABASE; the schema keeps only the column attributes that inserts and ALTER use.
- Array fields, which filters, sorts and the distinct command would look into; columns hold scalars.
