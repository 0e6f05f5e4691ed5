/**
 * The values the query builder works on: filter clauses as the URI parser
 * hands them over, order entries, the PHP `$includes` array, the relation
 * columns, and the log of calls made on the Eloquent query.
 */
module Plan {

  datatype Option<+T> = None | Some(value: T)

  datatype Result<+T> = Ok(value: T) | Err(failure: Failure)

  /** The exceptions the query builder throws. */
  datatype Failure =
    | UnknownColumn(column: string)  // UnknownColumnException("Unknown column '<key>'")
    | UnlimitedPagination            // Exception("You can't use unlimited option for pagination")

  /** The `type` entry of a where record. */
  datatype Kind = Basic | In | NotIn

  /**
   * The value a where record carries once `extract` has run: its `values`
   * list when one is set, its scalar `value` otherwise.
   */
  datatype Value = Scalar(text: string) | List(items: seq<string>)

  /** One record of `whereParameters()`; `operator` is absent when the record has none. */
  datatype WhereClause = WhereClause(key: string, operator: Option<string>, value: Value, kind: Kind)

  /** One entry of `$orderBy`: the marker 'random' or a column with its direction. */
  datatype Order = Random | ByColumn(column: string, direction: Option<string>)

  /**
   * One entry of the `$includes` array. `Plain` is an entry left by
   * `array_filter(explode(...))` under its integer key; `Restricted` is the
   * entry `$includes[relation] = closure` that selects only `columns`.
   */
  datatype Include = Plain(index: nat, relation: string) | Restricted(relation: string, columns: seq<string>)

  /** One entry of `$relationColumns`: the relation and the columns listed for it, in order. */
  datatype RelationColumns = RelationColumns(relation: string, columns: seq<string>)

  /** One call made on the Eloquent query. */
  datatype Op =
    | Where(column: string, operator: string, value: Value)
    | WhereIn(column: string, value: Value)
    | WhereNotIn(column: string, value: Value)
    | WhereNull(column: string)
    | WhereNotNull(column: string)
    | CustomFilter(column: string, value: Value, operator: string, kind: Kind)  // filterBy<Key>($query, $value, $operator, $type)
    | GroupBy(columns: seq<string>)
    | Take(count: int)
    | Skip(count: int)
    | OrderBy(column: string, direction: Option<string>)
    | OrderByRaw(expression: string)  // orderBy(DB::raw(...))
    | With(includes: seq<Include>)
    | Select(columns: seq<string>)
  {
    /** The calls made while applying the where clauses. */
    predicate IsFilter()
    {
      Where? || WhereIn? || WhereNotIn? || WhereNull? || WhereNotNull? || CustomFilter?
    }

    /**
     * The stage of `build` a call belongs to: filters, group-by, take,
     * skip, orders, with, select.
     */
    function Stage(): nat
    {
      if IsFilter() then 0
      else if GroupBy? then 1
      else if Take? then 2
      else if Skip? then 3
      else if OrderBy? || OrderByRaw? then 4
      else if With? then 5
      else 6
    }
  }
}
