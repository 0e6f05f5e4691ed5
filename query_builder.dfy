/**
 * The `QueryBuilder` object: its setters update its fields in place and
 * `build` appends calls to the query it owns. Each method is proved against
 * the functions of the other modules that specify it.
 */
module Builder {
  import opened Plan
  import opened PhpStrings
  import opened Columns
  import Includes
  import opened Orders
  import opened Wheres
  import opened Directives
  import opened Assembly

  /** The calls of the shaping stages, appended one stage at a time, add up to Shaping. */
  lemma ShapingSteps(q0: seq<Op>, s: Settings, grouped: seq<Op>, taken: seq<Op>, skipped: seq<Op>, ordered: seq<Op>)
    requires grouped == q0 + GroupStage(s) && taken == grouped + TakeStage(s)
    requires skipped == taken + SkipStage(s) && ordered == skipped + OrderOps(s.orderBy)
    ensures ordered + [With(s.includes), Select(s.columns)] == q0 + Shaping(s)
  {
    Regroup(q0, GroupStage(s), TakeStage(s), SkipStage(s), OrderOps(s.orderBy), [With(s.includes), Select(s.columns)]);
  }

  lemma Append3<T>(a: seq<T>, b: seq<T>, c: seq<T>)
    ensures a + b + c == a + (b + c)
  {
  }

  lemma Regroup<T>(q0: seq<T>, g: seq<T>, t: seq<T>, k: seq<T>, o: seq<T>, tail: seq<T>)
    ensures q0 + g + t + k + o + tail == q0 + (g + t + k + o + tail)
  {
    assert q0 + g + t == q0 + (g + t);
    assert q0 + (g + t) + k == q0 + (g + t + k);
    assert q0 + (g + t + k) + o == q0 + (g + t + k + o);
  }

  class QueryBuilder {
    /** The configured excluded parameters. */
    const excludedParameters: seq<string>
    /** The columns of the model's table. */
    const tableColumns: set<string>
    /** The keys that have a `filterBy<Key>` method. */
    const customFilters: set<string>
    /** What the URI parser yields: the where parameters, the constant parameters in order, and their raw values. */
    const whereParameters: seq<WhereClause>
    const constantParameters: seq<Parameter>
    const queryParameters: map<Parameter, string>

    var wheres: seq<WhereClause>
    var orderBy: seq<Order>
    var limit: Option<int>
    var page: int
    var offset: int
    var columns: seq<string>
    var relationColumns: seq<RelationColumns>
    var includes: seq<Include>
    var groupBy: seq<string>
    var appends: seq<string>
    /** The calls made on the Eloquent query, in order. */
    var query: seq<Op>

    /** The settings fields; the query is not among them. */
    function State(): Settings
      reads this`wheres, this`orderBy, this`limit, this`page, this`offset, this`columns,
            this`relationColumns, this`includes, this`groupBy, this`appends
    {
      Settings(wheres, orderBy, limit, page, offset, columns, relationColumns, includes, groupBy, appends)
    }

    function Lookups(): Catalog
    {
      Catalog(excludedParameters, tableColumns, customFilters)
    }

    constructor(defaultOrder: seq<Order>, defaultLimit: Option<int>, excluded: seq<string>,
                table: set<string>, filters: set<string>,
                whereParams: seq<WhereClause>, constants: seq<Parameter>, request: map<Parameter, string>)
      ensures State() == Initial(defaultOrder, defaultLimit) && query == []
      ensures excludedParameters == excluded && tableColumns == table && customFilters == filters
      ensures whereParameters == whereParams && constantParameters == constants && queryParameters == request
    {
      excludedParameters := excluded;
      tableColumns := table;
      customFilters := filters;
      whereParameters := whereParams;
      constantParameters := constants;
      queryParameters := request;
      wheres := [];
      orderBy := defaultOrder;
      limit := defaultLimit;
      page := 1;
      offset := 0;
      columns := ["*"];
      relationColumns := [];
      includes := [];
      groupBy := [];
      appends := [];
      query := [];
    }

    method SetIncludes(raw: string)
      modifies this`includes
      ensures State() == Apply(old(State()), IncludesParam, raw)
    {
      includes := Includes.ParseIncludes(raw);
    }

    method SetPage(raw: string)
      modifies this`page, this`offset
      ensures State() == Apply(old(State()), PageParam, raw)
    {
      page := ToInt(raw);
      offset := (ToInt(raw) - 1) * LimitAsNumber(limit);
    }

    /** setColumns: both lists reset, then setColumn for each kept piece. */
    method SetColumns(raw: string)
      modifies this`columns, this`relationColumns
      ensures State() == Apply(old(State()), ColumnsParam, raw)
    {
      var pieces := Kept(Explode(',', raw));
      columns := [];
      relationColumns := [];
      var i := 0;
      while i < |pieces|
        invariant 0 <= i <= |pieces|
        invariant ColumnSplit(columns, relationColumns) == SplitColumns(pieces[..i])
      {
        SetColumn(pieces[i]);
        SplitColumnsSnoc(pieces, i);
        i := i + 1;
      }
      assert pieces[..i] == pieces;
    }

    method SetColumn(column: string)
      modifies this`columns, this`relationColumns
      ensures ColumnSplit(columns, relationColumns) == AddColumn(ColumnSplit(old(columns), old(relationColumns)), column)
    {
      if IsRelationColumn(column) {
        AppendRelationColumn(column);
        return;
      }
      columns := columns + [column];
    }

    /** Only called for a relation column, whose first two pieces are the relation and the column. */
    method AppendRelationColumn(keyAndColumn: string)
      requires IsRelationColumn(keyAndColumn)
      modifies this`relationColumns
      ensures relationColumns == AppendRelation(old(relationColumns), RelationOf(keyAndColumn), ColumnOf(keyAndColumn))
    {
      var parts := Explode('.', keyAndColumn);
      relationColumns := AppendRelation(relationColumns, parts[0], parts[1]);
    }

    /** fixRelationColumns: fixRelationColumn for each relation with listed columns, in order. */
    method FixRelationColumns()
      modifies this`includes
      ensures includes == Includes.FixRelationColumns(old(includes), relationColumns)
    {
      var i := 0;
      while i < |relationColumns|
        invariant 0 <= i <= |relationColumns|
        invariant Includes.FixRelationColumns(includes, relationColumns[i..]) ==
                  Includes.FixRelationColumns(old(includes), relationColumns)
      {
        assert relationColumns[i..][1..] == relationColumns[i + 1..];
        FixRelationColumn(relationColumns[i].relation, relationColumns[i].columns);
        i := i + 1;
      }
    }

    method FixRelationColumn(key: string, cols: seq<string>)
      modifies this`includes
      ensures includes == Includes.FixRelationColumn(old(includes), key, cols)
    {
      var index := match Includes.ArraySearch(includes, key) case Some(i) => i case None => 0;
      includes := Includes.Unset(includes, index);
      includes := Includes.AssignRestricted(includes, key, cols);
    }

    /** setOrderBy: the orders reset, then appendOrderBy for each kept entry. */
    method SetOrderBy(raw: string)
      modifies this`orderBy
      ensures State() == Apply(old(State()), OrderByParam, raw)
    {
      orderBy := [];
      var entries := Kept(Explode('|', raw));
      var i := 0;
      while i < |entries|
        invariant 0 <= i <= |entries|
        invariant orderBy == ParseOrders(entries[..i])
      {
        AppendOrderBy(entries[i]);
        ParseOrdersSnoc(entries, i);
        i := i + 1;
      }
      assert entries[..i] == entries;
    }

    method AppendOrderBy(entry: string)
      modifies this`orderBy
      ensures orderBy == old(orderBy) + [ParseOrder(entry)]
    {
      if entry == "random" {
        orderBy := orderBy + [Random];
        return;
      }
      var parts := Explode(',', entry);
      orderBy := orderBy + [ByColumn(parts[0], if |parts| > 1 then Some(parts[1]) else None)];
    }

    method SetGroupBy(raw: string)
      modifies this`groupBy
      ensures State() == Apply(old(State()), GroupByParam, raw)
    {
      groupBy := Kept(Explode(',', raw));
    }

    method SetLimit(raw: string)
      modifies this`limit
      ensures State() == Apply(old(State()), LimitParam, raw)
    {
      limit := if raw == "unlimited" then None else Some(ToInt(raw));
    }

    method SetWheres(parameters: seq<WhereClause>)
      modifies this`wheres
      ensures State() == Directives.SetWheres(old(State()), parameters)
    {
      wheres := parameters;
    }

    method SetAppends(raw: string)
      modifies this`appends
      ensures State() == Apply(old(State()), AppendsParam, raw)
    {
      appends := Explode(',', raw);
    }

    /** prepareConstant: a parameter present in the request is handed to its setter. */
    method PrepareConstant(p: Parameter)
      modifies this`wheres, this`orderBy, this`limit, this`page, this`offset, this`columns,
               this`relationColumns, this`includes, this`groupBy, this`appends
      ensures State() == Directives.PrepareConstant(old(State()), p, queryParameters)
    {
      if p !in queryParameters {
        return;
      }
      var raw := queryParameters[p];
      match p
      case IncludesParam => SetIncludes(raw);
      case PageParam => SetPage(raw);
      case ColumnsParam => SetColumns(raw);
      case OrderByParam => SetOrderBy(raw);
      case GroupByParam => SetGroupBy(raw);
      case LimitParam => SetLimit(raw);
      case AppendsParam => SetAppends(raw);
    }

    method Prepare()
      modifies this`wheres, this`orderBy, this`limit, this`page, this`offset, this`columns,
               this`relationColumns, this`includes, this`groupBy, this`appends
      ensures State() == Directives.Prepare(old(State()), whereParameters, constantParameters, queryParameters)
    {
      SetWheres(whereParameters);
      var start := State();
      var i := 0;
      while i < |constantParameters|
        invariant 0 <= i <= |constantParameters|
        invariant PrepareConstants(State(), constantParameters[i..], queryParameters) ==
                  PrepareConstants(start, constantParameters, queryParameters)
      {
        assert constantParameters[i..][1..] == constantParameters[i + 1..];
        PrepareConstant(constantParameters[i]);
        i := i + 1;
      }
      if State().HasIncludes() && State().HasRelationColumns() {
        FixRelationColumns();
      }
    }

    /** addWhereToQuery: the calls for one clause, or the unknown-column exception. */
    method AddWhereToQuery(w: WhereClause) returns (failure: Option<Failure>)
      modifies this`query
      ensures Emit(Lookups(), w).Ok? ==> failure == None && query == old(query) + Emit(Lookups(), w).value
      ensures Emit(Lookups(), w).Err? ==> failure == Some(Emit(Lookups(), w).failure) && query == old(query)
    {
      var operator := match w.operator case None => "" case Some(op) => op;
      if w.key in excludedParameters {
        return None;
      }
      if w.key in customFilters {
        ApplyCustomFilter(w.key, operator, w.value, w.kind);
        return None;
      }
      if w.key !in tableColumns {
        return Some(UnknownColumn(w.key));
      }
      if w.kind == In {
        query := query + [WhereIn(w.key, w.value)];
      } else if w.kind == NotIn {
        query := query + [WhereNotIn(w.key, w.value)];
      } else if w.value == Scalar("[null]") {
        if operator == "=" {
          query := query + [WhereNull(w.key)];
        } else {
          query := query + [WhereNotNull(w.key)];
        }
      } else {
        query := query + [Where(w.key, operator, w.value)];
      }
      failure := None;
    }

    method AddOrderByToQuery(order: Order)
      modifies this`query
      ensures query == old(query) + [OrderOp(order)]
    {
      if order == Random {
        query := query + [OrderByRaw("RAND()")];
        return;
      }
      query := query + [OrderBy(order.column, order.direction)];
    }

    /** applyCustomFilter: the handler's effect is recorded as one call carrying its arguments. */
    method ApplyCustomFilter(key: string, operator: string, value: Value, kind: Kind)
      modifies this`query
      ensures query == old(query) + [CustomFilter(key, value, operator, kind)]
    {
      query := query + [CustomFilter(key, value, operator, kind)];
    }

    /** The `array_map` of addWhereToQuery over the where clauses, stopped by the first exception. */
    method AddWheresToQuery() returns (failure: Option<Failure>)
      modifies this`query
      ensures query == old(query) + RunWheres(Lookups(), wheres).ops
      ensures failure == RunWheres(Lookups(), wheres).failure
    {
      var cat := Lookups();
      var i := 0;
      while i < |wheres|
        invariant 0 <= i <= |wheres|
        invariant RunWheres(cat, wheres[..i]).failure == None
        invariant query == old(query) + RunWheres(cat, wheres[..i]).ops
      {
        var f := AddWhereToQuery(wheres[i]);
        assert wheres[..i + 1][..i] == wheres[..i];
        if f.Some? {
          FailureIgnoresRest(cat, wheres[..i + 1], wheres[i + 1..]);
          assert wheres[..i + 1] + wheres[i + 1..] == wheres;
          return f;
        }
        i := i + 1;
      }
      assert wheres[..i] == wheres;
      failure := None;
    }

    /** The `array_map` of addOrderByToQuery over the orders. */
    method AddOrdersToQuery()
      modifies this`query
      ensures query == old(query) + OrderOps(orderBy)
    {
      var j := 0;
      while j < |orderBy|
        invariant 0 <= j <= |orderBy|
        invariant query == old(query) + OrderOps(orderBy[..j])
      {
        AddOrderByToQuery(orderBy[j]);
        assert orderBy[..j + 1][..j] == orderBy[..j];
        j := j + 1;
      }
      assert orderBy[..j] == orderBy;
    }

    /** The calls build makes after the where clauses: groupBy, take, skip, the orders, with and select. */
    method AddShapingToQuery()
      modifies this`query
      ensures query == old(query) + Shaping(State())
    {
      var s := State();
      if s.HasGroupBy() {
        query := query + [GroupBy(groupBy)];
      }
      var grouped := query;
      assert grouped == old(query) + GroupStage(s);
      if s.HasLimit() {
        query := query + [Take(limit.value)];
      }
      var taken := query;
      assert taken == grouped + TakeStage(s);
      if s.HasOffset() {
        query := query + [Skip(offset)];
      }
      var skipped := query;
      assert skipped == taken + SkipStage(s);
      AddOrdersToQuery();
      var ordered := query;
      assert ordered == skipped + OrderOps(s.orderBy);
      query := query + [With(includes), Select(columns)];
      ShapingSteps(old(query), s, grouped, taken, skipped, ordered);
    }

    /** The calls build makes on the prepared fields: the where clauses, then, unless one was rejected, the shaping calls. */
    method AssembleQuery() returns (failure: Option<Failure>)
      modifies this`query
      ensures query == old(query) + Assemble(Lookups(), State()).ops
      ensures failure == Assemble(Lookups(), State()).failure
    {
      var s := State();
      var run := RunWheres(Lookups(), wheres);
      failure := None;
      if s.HasWheres() {
        failure := AddWheresToQuery();
        if failure.Some? {
          return;
        }
      } else {
        assert run == Run([], None);
      }
      var filtered := query;
      assert filtered == old(query) + run.ops;
      AddShapingToQuery();
      assert Assemble(Lookups(), s) == Run(run.ops + Shaping(s), None);
      Append3(old(query), run.ops, Shaping(s));
    }

    /**
     * build: prepare, then the calls for the where clauses; after an
     * exception nothing else is called; otherwise grouping, limit, offset,
     * orders, includes and columns, in that order.
     */
    method Build() returns (failure: Option<Failure>)
      modifies this
      ensures State() == Directives.Prepare(old(State()), whereParameters, constantParameters, queryParameters)
      ensures query == old(query) + Assemble(Lookups(), State()).ops
      ensures failure == Assemble(Lookups(), State()).failure
      ensures var run := Assembly.Build(Lookups(), old(State()), whereParameters, constantParameters, queryParameters);
              query == old(query) + run.ops && failure == run.failure
    {
      Prepare();
      failure := AssembleQuery();
    }

    /** paginate's guard: an unlimited builder throws; otherwise the page size is the limit. */
    method Paginate() returns (r: Result<int>)
      ensures r == PageSize(State())
      ensures r.Err? <==> !State().HasLimit()
    {
      if !State().HasLimit() {
        return Err(UnlimitedPagination);
      }
      return Ok(limit.value);
    }
  }
}
