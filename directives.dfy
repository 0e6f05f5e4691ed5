/**
 * The builder's settings and the constant parameters that set them:
 * `prepareConstant` dispatches each parameter present in the request to its
 * setter, and `prepare` then rewrites the relation includes.
 */
module Directives {
  import opened Plan
  import opened PhpStrings
  import opened Columns
  import opened Includes
  import opened Orders

  /** The constant parameters, each with its setter (`set` + the studly-cased name). */
  datatype Parameter =
    | IncludesParam  // setIncludes
    | PageParam      // setPage
    | ColumnsParam   // setColumns
    | OrderByParam   // setOrderBy
    | GroupByParam   // setGroupBy
    | LimitParam     // setLimit
    | AppendsParam   // setAppends

  /** The builder's fields that the setters and `prepare` write. */
  datatype Settings = Settings(
    wheres: seq<WhereClause>,
    orderBy: seq<Order>,
    limit: Option<int>,
    page: int,
    offset: int,
    columns: seq<string>,
    relationColumns: seq<RelationColumns>,
    includes: seq<Include>,
    groupBy: seq<string>,
    appends: seq<string>)
  {
    predicate HasWheres()
    {
      |wheres| > 0
    }

    predicate HasIncludes()
    {
      |includes| > 0
    }

    predicate HasAppends()
    {
      |appends| > 0
    }

    predicate HasGroupBy()
    {
      |groupBy| > 0
    }

    /** hasLimit: the limit is truthy, so neither null nor 0. */
    predicate HasLimit()
    {
      limit.Some? && limit.value != 0
    }

    predicate HasOffset()
    {
      offset != 0
    }

    predicate HasRelationColumns()
    {
      |relationColumns| > 0
    }

    /** Every relation with listed columns is also requested as an include. */
    predicate RelationsIncluded()
    {
      forall k :: 0 <= k < |relationColumns| ==> IsIncluded(includes, relationColumns[k].relation)
    }

    /**
     * The includes are bare under distinct keys, and every relation with
     * listed columns is requested exactly once among them.
     */
    predicate RelationsRequestedOnce()
    {
      RelationsIncluded() && BareOnce(includes, Relations(relationColumns))
    }
  }

  /** The fields as the constructor leaves them, with the configured default order and limit. */
  function Initial(defaultOrder: seq<Order>, defaultLimit: Option<int>): Settings
  {
    Settings([], defaultOrder, defaultLimit, 1, 0, ["*"], [], [], [], [])
  }

  /** setLimit: 'unlimited' is null, anything else is cast to an integer. */
  function ParseLimit(raw: string): Option<int>
  {
    if raw == "unlimited" then None else Some(ToInt(raw))
  }

  /** The limit as a number in arithmetic: null counts as 0. */
  function LimitAsNumber(limit: Option<int>): int
  {
    match limit
    case None => 0
    case Some(n) => n
  }

  /** The setter a constant parameter is dispatched to, applied to the parameter's raw value. */
  function Apply(s: Settings, p: Parameter, raw: string): Settings
  {
    match p
    case IncludesParam => s.(includes := ParseIncludes(raw))
    case PageParam => s.(page := ToInt(raw), offset := (ToInt(raw) - 1) * LimitAsNumber(s.limit))
    case ColumnsParam =>
      var split := SplitColumns(Kept(Explode(',', raw)));
      s.(columns := split.plain, relationColumns := split.relations)
    case OrderByParam => s.(orderBy := ParseOrderDirective(raw))
    case GroupByParam => s.(groupBy := Kept(Explode(',', raw)))
    case LimitParam => s.(limit := ParseLimit(raw))
    case AppendsParam => s.(appends := Explode(',', raw))
  }

  /** prepareConstant: a parameter absent from the request changes nothing. */
  function PrepareConstant(s: Settings, p: Parameter, request: map<Parameter, string>): Settings
  {
    if p in request then Apply(s, p, request[p]) else s
  }

  /** The `array_map` of prepareConstant over the constant parameters, in order. */
  function PrepareConstants(s: Settings, constants: seq<Parameter>, request: map<Parameter, string>): Settings
    decreases |constants|
  {
    if constants == [] then s
    else PrepareConstants(PrepareConstant(s, constants[0], request), constants[1..], request)
  }

  /** setWheres. */
  function SetWheres(s: Settings, wheres: seq<WhereClause>): Settings
  {
    s.(wheres := wheres)
  }

  /** prepare: the where parameters, then the constants, then the relation rewrite when both lists are non-empty. */
  function Prepare(s: Settings, wheres: seq<WhereClause>, constants: seq<Parameter>, request: map<Parameter, string>): Settings
  {
    var s1 := PrepareConstants(SetWheres(s, wheres), constants, request);
    if s1.HasIncludes() && s1.HasRelationColumns() then
      s1.(includes := FixRelationColumns(s1.includes, s1.relationColumns))
    else s1
  }

  /** 'unlimited' is the only value that clears the limit; a decimal integer sets exactly that limit. */
  lemma LimitDirective(raw: string, n: int)
    ensures ParseLimit(raw) == None <==> raw == "unlimited"
    ensures ParseLimit(IntToString(n)) == Some(n)
  {
    ToIntRoundTrip(n);
    var text := IntToString(n);
    if n >= 0 {
      assert IsDigit(Decimal(n)[0]);
    }
    assert text[0] != "unlimited"[0];
  }

  /** A setter overwrites what an earlier occurrence of the same parameter set. */
  lemma LaterParameterWins(s: Settings, p: Parameter, first: string, second: string)
    ensures Apply(Apply(s, p, first), p, second) == Apply(s, p, second)
  {
  }

  /**
   * setPage sets the page and the offset `(page - 1) * limit` from the
   * limit current at that moment; without a limit the offset is 0.
   */
  lemma PageOffset(s: Settings, page: int)
    ensures Apply(s, PageParam, IntToString(page)).page == page
    ensures Apply(s, PageParam, IntToString(page)).offset == (page - 1) * LimitAsNumber(s.limit)
    ensures !s.HasLimit() ==> !Apply(s, PageParam, IntToString(page)).HasOffset()
  {
    ToIntRoundTrip(page);
  }

  /**
   * The offset depends on the order of the constant parameters: a page read
   * before the limit is multiplied by the previous (configured) limit, a
   * page read after it by the new one.
   */
  lemma PageUsesLimitAtThatMoment(s: Settings, pageRaw: string, limitRaw: string)
    ensures var request := map[PageParam := pageRaw, LimitParam := limitRaw];
            && PrepareConstants(s, [PageParam, LimitParam], request).offset ==
                 (ToInt(pageRaw) - 1) * LimitAsNumber(s.limit)
            && PrepareConstants(s, [LimitParam, PageParam], request).offset ==
                 (ToInt(pageRaw) - 1) * LimitAsNumber(ParseLimit(limitRaw))
  {
    var request := map[PageParam := pageRaw, LimitParam := limitRaw];
    assert request[PageParam] == pageRaw && request[LimitParam] == limitRaw;
    TwoConstants(s, PageParam, LimitParam, request);
    var paged := Apply(s, PageParam, pageRaw);
    assert paged.offset == (ToInt(pageRaw) - 1) * LimitAsNumber(s.limit);
    assert Apply(paged, LimitParam, limitRaw).offset == paged.offset;
    TwoConstants(s, LimitParam, PageParam, request);
    var limited := Apply(s, LimitParam, limitRaw);
    assert limited.limit == ParseLimit(limitRaw);
    assert Apply(limited, PageParam, pageRaw).offset == (ToInt(pageRaw) - 1) * LimitAsNumber(limited.limit);
  }

  lemma TwoConstants(s: Settings, first: Parameter, second: Parameter, request: map<Parameter, string>)
    requires first in request && second in request
    ensures PrepareConstants(s, [first, second], request) ==
            Apply(Apply(s, first, request[first]), second, request[second])
  {
    var once := PrepareConstant(s, first, request);
    var twice := PrepareConstant(once, second, request);
    assert [first, second][1..] == [second];
    assert PrepareConstants(s, [first, second], request) == PrepareConstants(once, [second], request);
    assert [second][1..] == [];
    assert PrepareConstants(once, [second], request) == PrepareConstants(twice, [], request);
  }

  lemma {:induction false} ConstantsKeepColumns(s: Settings, constants: seq<Parameter>, request: map<Parameter, string>)
    requires ColumnsParam !in request
    ensures PrepareConstants(s, constants, request).columns == s.columns
    ensures PrepareConstants(s, constants, request).relationColumns == s.relationColumns
    decreases |constants|
  {
    if constants != [] {
      ConstantsKeepColumns(PrepareConstant(s, constants[0], request), constants[1..], request);
    }
  }

  /** Without a columns parameter, the selected columns stay what they were (`['*']` after the constructor). */
  lemma ColumnsDefault(s: Settings, wheres: seq<WhereClause>, constants: seq<Parameter>, request: map<Parameter, string>)
    requires ColumnsParam !in request
    ensures Prepare(s, wheres, constants, request).columns == s.columns
    ensures Prepare(s, wheres, constants, request).relationColumns == s.relationColumns
  {
    ConstantsKeepColumns(SetWheres(s, wheres), constants, request);
  }

  /**
   * The limit after the constant parameters: the parsed limit parameter when
   * it is requested and among the constants, else the limit from before.
   */
  lemma {:induction false} ConstantsLimit(s: Settings, constants: seq<Parameter>, request: map<Parameter, string>)
    ensures PrepareConstants(s, constants, request).limit ==
            if LimitParam in constants && LimitParam in request then ParseLimit(request[LimitParam]) else s.limit
    decreases |constants|
  {
    if constants != [] {
      var next := PrepareConstant(s, constants[0], request);
      ConstantsLimit(next, constants[1..], request);
      assert constants == [constants[0]] + constants[1..];
    }
  }

  lemma {:induction false} ConstantsKeepDistinct(s: Settings, constants: seq<Parameter>, request: map<Parameter, string>)
    requires DistinctRelations(s.relationColumns)
    ensures DistinctRelations(PrepareConstants(s, constants, request).relationColumns)
    decreases |constants|
  {
    if constants != [] {
      var p := constants[0];
      if p == ColumnsParam && p in request {
        SplitColumnsMeaning(Kept(Explode(',', request[p])));
      }
      ConstantsKeepDistinct(PrepareConstant(s, p, request), constants[1..], request);
    }
  }

  /**
   * After prepare, when every relation with listed columns was requested
   * once as an include, the includes are the other requested includes in
   * order followed by one column-restricted include per relation; with no
   * relation columns the includes are left as the parameters set them.
   */
  lemma PrepareRewritesIncludes(s: Settings, wheres: seq<WhereClause>, constants: seq<Parameter>, request: map<Parameter, string>)
    requires DistinctRelations(s.relationColumns)
    requires PrepareConstants(SetWheres(s, wheres), constants, request).RelationsRequestedOnce()
    ensures var s1 := PrepareConstants(SetWheres(s, wheres), constants, request);
            Prepare(s, wheres, constants, request).includes ==
              Keep(s1.includes, Relations(s1.relationColumns)) + RestrictionsOf(s1.relationColumns)
  {
    var s1 := PrepareConstants(SetWheres(s, wheres), constants, request);
    ConstantsKeepDistinct(SetWheres(s, wheres), constants, request);
    FixRelationColumnsRewrites(s1.includes, s1.relationColumns);
    KeepNothing(s1.includes);
    assert Relations([]) == {};
  }

  /** Without relation columns, prepare leaves the includes as the parameters set them. */
  lemma PrepareWithoutRelationColumns(s: Settings, wheres: seq<WhereClause>, constants: seq<Parameter>, request: map<Parameter, string>)
    requires !PrepareConstants(SetWheres(s, wheres), constants, request).HasRelationColumns()
    ensures Prepare(s, wheres, constants, request).includes ==
            PrepareConstants(SetWheres(s, wheres), constants, request).includes
  {
  }
}
