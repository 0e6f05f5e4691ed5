# QueryBuilder: a Dafny model of the API query compiler

`QueryBuilder` (src/QueryBuilder.php) turns the parameters of an HTTP request
into calls on an Eloquent query. Where parameters become filter clauses.
Each clause is checked against the model's table and against the per-key
custom filters (`filterBy<Key>` methods). The constant parameters
(`includes`, `page`, `columns`, `order_by`, `group_by`, `limit`, `appends`)
are dispatched to setters that update the builder's fields. `prepare` then
rewrites a relation requested with listed columns (`relation.column`) into an
eager load that selects only those columns. `build` makes the calls on the
query in a fixed order:

1. the filters;
2. `groupBy`;
3. `take`;
4. `skip`;
5. the orders, with `RAND()` for the `random` marker;
6. `with`;
7. `select`.

`paginate` refuses a builder without a limit.

The model has these parts:

- `php_strings.dfy`: the PHP built-ins the builder relies on, namely
  `explode` with a one-character separator, `array_filter` without a
  callback, and the `(int)` cast.
- `plan.dfy`: the values the builder works with, namely where clauses,
  orders, includes, and the log of calls made on the query (`Op`).
- `wheres.dfy`: `addWhereToQuery` for one clause, and the `array_map` over all
  clauses that the first unknown column stops.
- `columns.dfy`: how `setColumns` splits plain and relation columns.
- `includes.dfy`: the `$includes` array with its integer keys, and the
  `fixRelationColumns` rewrite.
- `orders.dfy`: the order directive and `addOrderByToQuery`.
- `directives.dfy`: the builder's settings, each setter as a function,
  `prepareConstant` and `prepare`.
- `assembly.dfy`: the order of `build` and the guard of `paginate`.
- `query_builder.dfy`: the `QueryBuilder` class. Its setters update its
  fields in place, and its query methods append to the query it owns. Each
  method is proved against the functions above.

Some things the builder uses are not part of this model, and appear here as
parameters:

- The request comes in already parsed, as the where clauses, the constant
  parameters in order, and their raw values. The URI parser is not part of
  this model.
- The table schema is a set of column names.
- The custom filters are a set of keys.
- The configured default order, default limit and excluded parameters are
  constructor arguments.

Two details of the code are worth stating:

- `isRelationColumn` counts the `.`-separated pieces of a column. So
  `a.b.c` is column `b` of relation `a`, and its third piece is ignored
  (`Columns.RelationColumnHasDot`, `Columns.AddColumn`).
- `hasLimit` tests whether the limit is truthy. So a limit of `0` makes no
  `take` call, just like no limit (`Directives.Settings.HasLimit`).

## Model

| member | source | states |
|---|---|---|
| `PhpStrings.Explode` | src/QueryBuilder.php:152 | `explode` always yields at least one piece, and no piece contains the separator |
| `PhpStrings.ExplodeJoin` | src/QueryBuilder.php:152 | exploding the separator-joined list of separator-free pieces gives back exactly those pieces (round trip) |
| `PhpStrings.JoinExplode` | src/QueryBuilder.php:152 | joining the pieces of `explode` with the separator gives back the original string (round trip) |
| `PhpStrings.ExplodeSplits` | src/QueryBuilder.php:324 | `explode` yields more than one piece exactly when the separator occurs in the string |
| `PhpStrings.Kept` | src/QueryBuilder.php:152 | `array_filter` keeps exactly the pieces that are neither '' nor '0': every kept piece is non-falsy and from the input, and every non-falsy piece of the input is kept |
| `PhpStrings.KeptConcat` | src/QueryBuilder.php:152 | `array_filter` keeps the order of the pieces: filtering a concatenation gives the filtered parts in order |
| `PhpStrings.KeptAll` | src/QueryBuilder.php:152 | `array_filter` drops nothing from a list without falsy pieces |
| `PhpStrings.ToIntRoundTrip` | src/QueryBuilder.php:157 | the `(int)` cast of the decimal text of any integer is that integer |
| `Columns.RelationColumnHasDot` | src/QueryBuilder.php:322-325 | a column is a relation column exactly when it contains a '.' |
| `Columns.AppendRelationMeaning` | src/QueryBuilder.php:180-185 | `$relationColumns[$key][] = $column` extends that relation's list by exactly the column and leaves every other list alone; it adds the relation when new, keeps each relation listed once, and adds one column in all |
| `Columns.SplitColumnsMeaning` | src/QueryBuilder.php:162-178 | setColumns partitions the kept pieces: the plain columns are the dotless pieces in order, each relation lists exactly the second pieces given for it in order, relations are distinct, every piece lands in exactly one place, and `$relationColumns` has a key exactly for each relation named by a dotted piece, never with an empty list |
| `Columns.NoDottedPieceNoRelations` | src/QueryBuilder.php:162-185 | a column list without a dotted piece leaves `$relationColumns` empty, so `prepare`'s `hasRelationColumns` guard skips the rewrite |
| `Includes.Indexed` | src/QueryBuilder.php:152 | `array_filter` keeps each surviving include as a bare entry whose key lies within the pieces' positions, with keys strictly increasing |
| `Includes.IndexedKeys` | src/QueryBuilder.php:152 | the entry under key `k` carries the piece at position `k`: `array_filter` keeps each piece's original key |
| `Includes.IndexedKeepsAll` | src/QueryBuilder.php:152 | every non-falsy piece at position `k` is kept as a bare entry under key `k` |
| `Includes.ParseIncludesMeaning` | src/QueryBuilder.php:150-153 | setIncludes keeps the names of the non-falsy comma-separated pieces, in order, as bare entries under distinct increasing keys |
| `Includes.FixStep` | src/QueryBuilder.php:196-203 | one fixRelationColumn on a relation requested once removes exactly its bare entry and appends one entry restricted to its columns; other relations may be requested any number of times |
| `Includes.FixRelationColumnsRewrites` | src/QueryBuilder.php:187-203 | when each relation with listed columns was requested exactly once, the rewrite keeps every other include in order, duplicates included, and appends one column-restricted include per relation, in relation order |
| `Includes.MissingRelationDropsKeyZero` | src/QueryBuilder.php:196-203 | a relation with listed columns that was not requested makes `array_search` return false: the include under key 0 (the first requested one) is dropped and the unrequested relation is appended |
| `Orders.ParseOrders` | src/QueryBuilder.php:212-234 | setOrderBy makes one order per kept entry, in the same position, each read by appendOrderBy: the random marker for 'random', otherwise the column and the optional direction split at ',' |
| `Orders.OrderOps` | src/QueryBuilder.php:302-313 | one orderBy call per order in the same position; a raw expression is used exactly for the random marker and is always `RAND()`; any other order passes its column and direction through |
| `Orders.OrderTextRoundTrip` | src/QueryBuilder.php:221-234 | appendOrderBy reads back any expressible order from its `column,direction` text; a missing direction reads as null |
| `Orders.OrderDirectiveRoundTrip` | src/QueryBuilder.php:212-234 | parsing the '\|'-joined texts of expressible orders gives back the same orders in the same sequence |
| `Wheres.ClauseDispatch` | src/QueryBuilder.php:258-282 | an excluded key emits nothing; a custom-filtered key emits only the custom filter call; the unknown-column exception is raised exactly for a key that is neither excluded, custom-filtered nor a table column, and names that key |
| `Wheres.GenericTranslation` | src/QueryBuilder.php:284-299 | on a table column, In and NotIn become whereIn and whereNotIn over the given list; '[null]' becomes whereNull for '=' and whereNotNull otherwise; any other value becomes `where(key, operator, value)`, with '' for a missing operator |
| `Wheres.CustomFilterSkipsSchema` | src/QueryBuilder.php:275-278 | clauses whose keys are excluded or custom-filtered never fail, and their calls do not depend on the table's columns |
| `Wheres.FailureIgnoresRest` | src/QueryBuilder.php:66-68 | after the exception no further clause is applied |
| `Wheres.StopsAtFirstUnknownColumn` | src/QueryBuilder.php:66-68 | the first clause on an unknown column stops the run with that key's exception; the calls of the clauses before it stay |
| `Wheres.SucceedsIffAllEmit` | src/QueryBuilder.php:66-68 | the where clauses are applied without exception exactly when no clause is rejected |
| `Wheres.EarlierCallsStay` | src/QueryBuilder.php:66-68 | applying more clauses never takes back a call already made |
| `Wheres.ExcludedClauseIsInert` | src/QueryBuilder.php:271-273 | a clause on an excluded key changes nothing, wherever it stands |
| `Wheres.CallsAccountedFor` | src/QueryBuilder.php:258-300 | every call is a filter on some clause's key; none names an excluded key; custom calls only for custom-filtered keys, generic calls only for table columns without one |
| `Directives.LimitDirective` | src/QueryBuilder.php:241-246 | setLimit clears the limit exactly for 'unlimited' and sets the integer of any decimal text |
| `Directives.LaterParameterWins` | src/QueryBuilder.php:137-148 | applying a setter twice leaves what the second value sets |
| `Directives.PageOffset` | src/QueryBuilder.php:155-160 | setPage sets the page and the offset `(page - 1) * limit` from the limit current at that moment; without a limit the offset is 0 |
| `Directives.PageUsesLimitAtThatMoment` | src/QueryBuilder.php:122-160 | the offset depends on the order of the constant parameters: a page read before the limit uses the previous limit, one read after it the new limit |
| `Directives.ConstantsLimit` | src/QueryBuilder.php:122-148 | after prepareConstant over the constants, the limit is the parsed limit parameter when requested, else the earlier limit |
| `Directives.ColumnsDefault` | src/QueryBuilder.php:122-135 | without a columns parameter, prepare leaves the selected and relation columns as they were (`['*']` and none after construction) |
| `Directives.PrepareRewritesIncludes` | src/QueryBuilder.php:122-135 | after prepare, with every relation with listed columns requested exactly once, the includes are the other requested ones followed by one column-restricted include per relation |
| `Directives.PrepareWithoutRelationColumns` | src/QueryBuilder.php:130-132 | without relation columns, prepare leaves the includes as the parameters set them |
| `Assembly.ShapingMembers` | src/QueryBuilder.php:70-80 | groupBy, take and skip are called exactly when there are groups, a truthy limit and a non-zero offset, with those values |
| `Assembly.BuildStageOrder` | src/QueryBuilder.php:62-89 | without exception, the where calls come first and unchanged, no call returns to an earlier stage, the last two calls are with(includes) then select(columns), and groupBy/take/skip appear exactly when due |
| `Assembly.BuildFailsBeforeShaping` | src/QueryBuilder.php:62-68 | build fails exactly when some clause is rejected, and then only filter calls were made |
| `Assembly.RandomIsAlwaysRand` | src/QueryBuilder.php:302-306 | the only raw ordering expression build ever passes is `RAND()` |
| `Assembly.UnlimitedCannotPaginate` | src/QueryBuilder.php:102-106 | paginate refuses exactly a builder without a truthy limit, otherwise pages by the limit; a request whose limit parameter is 'unlimited' always makes it refuse |
| `Builder.QueryBuilder.constructor` | src/QueryBuilder.php:47-60 | a new builder has the configured order and limit, page 1, offset 0, columns `['*']`, everything else empty, and no calls on its query |
| `Builder.QueryBuilder.SetIncludes` | src/QueryBuilder.php:150-153 | only the includes change, to the parsed include list |
| `Builder.QueryBuilder.SetPage` | src/QueryBuilder.php:155-160 | only page and offset change, to the cast page and the offset from the current limit |
| `Builder.QueryBuilder.SetColumns` | src/QueryBuilder.php:162-169 | both column lists are reset and rebuilt by setColumn over the kept pieces, giving the partition of `Columns.SplitColumnsMeaning` |
| `Builder.QueryBuilder.SetColumn` | src/QueryBuilder.php:171-178 | a relation column extends its relation's list, any other column is appended to the plain list |
| `Builder.QueryBuilder.AppendRelationColumn` | src/QueryBuilder.php:180-185 | the relation's list gains the column, as `Columns.AppendRelationMeaning` describes |
| `Builder.QueryBuilder.FixRelationColumns` | src/QueryBuilder.php:187-194 | the includes become the rewrite of `Includes.FixRelationColumnsRewrites`, one relation at a time in order |
| `Builder.QueryBuilder.FixRelationColumn` | src/QueryBuilder.php:196-203 | the found entry (or key 0 on a miss) is unset and the restricted entry is assigned under the relation's name |
| `Builder.QueryBuilder.SetOrderBy` | src/QueryBuilder.php:212-219 | the orders are reset and rebuilt by appendOrderBy, giving the orders `Orders.OrderDirectiveRoundTrip` reads back |
| `Builder.QueryBuilder.AppendOrderBy` | src/QueryBuilder.php:221-234 | exactly one order is appended: random for 'random', else column and optional direction |
| `Builder.QueryBuilder.SetGroupBy` | src/QueryBuilder.php:236-239 | only the groups change, to the kept comma-separated pieces |
| `Builder.QueryBuilder.SetLimit` | src/QueryBuilder.php:241-246 | only the limit changes, as `Directives.LimitDirective` describes |
| `Builder.QueryBuilder.SetWheres` | src/QueryBuilder.php:248-251 | only the where clauses change |
| `Builder.QueryBuilder.SetAppends` | src/QueryBuilder.php:253-256 | only the appends change, to all comma-separated pieces |
| `Builder.QueryBuilder.PrepareConstant` | src/QueryBuilder.php:137-148 | a parameter absent from the request changes nothing; a present one changes what its setter changes |
| `Builder.QueryBuilder.Prepare` | src/QueryBuilder.php:122-135 | the fields become the prepared settings that `Directives.PrepareRewritesIncludes`, `Directives.PrepareWithoutRelationColumns` and `Directives.ColumnsDefault` describe; the query is untouched |
| `Builder.QueryBuilder.AddWhereToQuery` | src/QueryBuilder.php:258-300 | the query gains exactly the calls of `Wheres.ClauseDispatch` and `Wheres.GenericTranslation`, or nothing and the unknown-column failure |
| `Builder.QueryBuilder.AddOrderByToQuery` | src/QueryBuilder.php:302-313 | the query gains one ordering call: `RAND()` for random, else column and direction |
| `Builder.QueryBuilder.ApplyCustomFilter` | src/QueryBuilder.php:315-320 | the query gains one custom-filter call carrying key, value, operator and type |
| `Builder.QueryBuilder.AddWheresToQuery` | src/QueryBuilder.php:66-68 | the query gains the calls of the clauses up to the first rejected one, and the failure is that rejection, if any |
| `Builder.QueryBuilder.AddOrdersToQuery` | src/QueryBuilder.php:82 | the query gains one ordering call per order, in order |
| `Builder.QueryBuilder.AddShapingToQuery` | src/QueryBuilder.php:70-86 | the query gains the grouping, limit, offset, order, include and column calls in the order of `Assembly.BuildStageOrder` |
| `Builder.QueryBuilder.AssembleQuery` | src/QueryBuilder.php:64-86 | the query gains the where calls and, unless one was rejected, the shaping calls |
| `Builder.QueryBuilder.Build` | src/QueryBuilder.php:62-89 | the query gains exactly the calls of `Assembly.Build` on the settings before the call (prepare, then the calls whose order `Assembly.BuildStageOrder` and `Assembly.BuildFailsBeforeShaping` describe); the failure is the first unknown column |
| `Builder.QueryBuilder.Paginate` | src/QueryBuilder.php:102-106 | refuses exactly when there is no truthy limit, else gives the limit as page size; the builder is unchanged |

## Left out

- The URI parser, `setterMethodName` and `customFilterName` are not part of this model. Their `studly_case` normalisation of keys is not modelled: parameters come in as an enumeration, and custom filters as a set of the keys used in the request.
- The `Schema::hasColumn` lookup and `method_exists` are reduced to set membership.
- Eloquent, `DB::raw` and the custom filter handlers are not modelled. The query is a log of the calls made on it, and a custom filter is recorded as one call with its arguments, not as whatever the handler does.
- `get`, `lists`, `addAppendsToModel` and the body of `basePaginate` are not modelled. Their behaviour is executing the query, not compiling it. This covers the page resolution, the total count, the short-circuit on a zero total and the paginator. Only `paginate`'s limit guard and page size are modelled.
- PHP loose comparison is not modelled. This affects `in_array` in `isExcludedParameter`, `array_search` in `fixRelationColumn`, and `==` against 'random', 'unlimited' and '[null]'. Strings compare exactly, so numeric strings such as '1' and '01' are distinct here.
- PHP's conversion of numeric-string array keys to integers is not modelled. A relation named '0' would be stored under the integer key 0 and could overwrite a bare include.
- `PhpStrings.ToInt`: covers an optional sign followed by decimal digits. Leading whitespace, exponents, fractions and integer overflow are not modelled.
- `Directives.Apply`: for setPage, uses the cast page in `($page - 1) * $this->limit`. PHP uses the raw string there, which gives the same value for integer text but a float for text such as '1.5'.
- `Builder.QueryBuilder.AppendRelationColumn`: requires a relation column, which is the only way `setColumn` calls it. A call with a dotless column would append a null column, and that case is not modelled.
- The closure that `closureRelationColumns` builds is represented by the restricted include value `Restricted(relation, columns)`.
