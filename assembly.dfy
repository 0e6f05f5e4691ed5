/**
 * `build` and the `hasLimit` guard of `paginate`: the calls made on the
 * query, in their fixed order, from the prepared settings.
 */
module Assembly {
  import opened Plan
  import opened Wheres
  import opened Orders
  import opened Directives

  /** `groupBy` is called only when there is something to group by. */
  function GroupStage(s: Settings): seq<Op>
  {
    if s.HasGroupBy() then [GroupBy(s.groupBy)] else []
  }

  /** `take` is called only when the limit is truthy. */
  function TakeStage(s: Settings): seq<Op>
  {
    if s.HasLimit() then [Take(s.limit.value)] else []
  }

  /** `skip` is called only when the offset is not 0. */
  function SkipStage(s: Settings): seq<Op>
  {
    if s.HasOffset() then [Skip(s.offset)] else []
  }

  /** The calls `build` makes after the where clauses. */
  function Shaping(s: Settings): seq<Op>
  {
    GroupStage(s) + TakeStage(s) + SkipStage(s) + OrderOps(s.orderBy) + [With(s.includes), Select(s.columns)]
  }

  /**
   * build on prepared settings: the where clauses, and only when none was
   * rejected, the grouping, limit, offset, orders, includes and columns.
   */
  function Assemble(cat: Catalog, s: Settings): Run
  {
    var run := RunWheres(cat, s.wheres);
    if run.failure.Some? then run else Run(run.ops + Shaping(s), None)
  }

  /** build: prepare, then assemble the query. */
  function Build(cat: Catalog, s: Settings, wheres: seq<WhereClause>, constants: seq<Parameter>, request: map<Parameter, string>): Run
  {
    Assemble(cat, Prepare(s, wheres, constants, request))
  }

  /** paginate's guard: the page size is the limit, and an unlimited builder cannot paginate. */
  function PageSize(s: Settings): Result<int>
  {
    if !s.HasLimit() then Err(UnlimitedPagination) else Ok(s.limit.value)
  }

  /** The calls never go back to an earlier stage. */
  predicate Staged(ops: seq<Op>)
  {
    forall i, j :: 0 <= i < j < |ops| ==> ops[i].Stage() <= ops[j].Stage()
  }

  lemma StagedConcat(a: seq<Op>, b: seq<Op>, k: nat)
    requires Staged(a) && Staged(b)
    requires forall x :: x in a ==> x.Stage() <= k
    requires forall y :: y in b ==> k <= y.Stage()
    ensures Staged(a + b)
  {
    var ab := a + b;
    forall i, j | 0 <= i < j < |ab| ensures ab[i].Stage() <= ab[j].Stage() {
      if j < |a| {
        assert ab[i] == a[i] && ab[j] == a[j];
      } else if i >= |a| {
        assert ab[i] == b[i - |a|] && ab[j] == b[j - |a|];
      } else {
        assert ab[i] in a && ab[j] in b;
      }
    }
  }

  lemma UniformStaged(ops: seq<Op>, k: nat)
    requires forall x :: x in ops ==> x.Stage() == k
    ensures Staged(ops)
  {
    forall i, j | 0 <= i < j < |ops| ensures ops[i].Stage() <= ops[j].Stage() {
      assert ops[i] in ops && ops[j] in ops;
    }
  }

  lemma OrderOpsAreOrders(orders: seq<Order>)
    ensures forall op :: op in OrderOps(orders) ==> op.OrderBy? || op.OrderByRaw?
  {
    var ops := OrderOps(orders);
    forall op | op in ops ensures op.OrderBy? || op.OrderByRaw? {
      var i :| 0 <= i < |ops| && ops[i] == op;
    }
  }

  lemma WheresAreFilters(cat: Catalog, ws: seq<WhereClause>)
    ensures forall op :: op in RunWheres(cat, ws).ops ==> op.IsFilter() && op.Stage() == 0
  {
    CallsAccountedFor(cat, ws);
  }

  /** Appending calls of one later stage keeps a staged list staged. */
  lemma StagedAppend(a: seq<Op>, b: seq<Op>, k: nat)
    requires Staged(a) && forall x :: x in a ==> x.Stage() <= k
    requires forall y :: y in b ==> y.Stage() == k
    ensures Staged(a + b) && forall z :: z in a + b ==> z.Stage() <= k
  {
    UniformStaged(b, k);
    StagedConcat(a, b, k);
  }

  lemma ShapingStaged(s: Settings)
    ensures Staged(Shaping(s))
    ensures forall op :: op in Shaping(s) ==> 1 <= op.Stage()
  {
    var head := GroupStage(s) + TakeStage(s) + SkipStage(s);
    var rest := OrderOps(s.orderBy) + [With(s.includes), Select(s.columns)];
    HeadStaged(s);
    RestStaged(s);
    StagedConcat(head, rest, 4);
    assert Shaping(s) == head + rest;
  }

  /** groupBy, take and skip come in that order, before any order. */
  lemma HeadStaged(s: Settings)
    ensures Staged(GroupStage(s) + TakeStage(s) + SkipStage(s))
    ensures forall op :: op in GroupStage(s) + TakeStage(s) + SkipStage(s) ==> 1 <= op.Stage() <= 3
  {
    var g, t, k := GroupStage(s), TakeStage(s), SkipStage(s);
    UniformStaged(g, 1);
    StagedAppend(g, t, 2);
    StagedAppend(g + t, k, 3);
  }

  /** The orders come before with, which comes before select. */
  lemma RestStaged(s: Settings)
    ensures Staged(OrderOps(s.orderBy) + [With(s.includes), Select(s.columns)])
    ensures forall op: Op :: op in OrderOps(s.orderBy) + [With(s.includes), Select(s.columns)] ==> 4 <= op.Stage()
  {
    var o := OrderOps(s.orderBy);
    OrderOpsAreOrders(s.orderBy);
    UniformStaged(o, 4);
    var tail := [With(s.includes), Select(s.columns)];
    assert Staged(tail);
    StagedConcat(o, tail, 4);
  }

  lemma ShapingMembers(s: Settings)
    ensures forall op :: op in Shaping(s) && op.GroupBy? ==> s.HasGroupBy() && op == GroupBy(s.groupBy)
    ensures s.HasGroupBy() ==> GroupBy(s.groupBy) in Shaping(s)
    ensures forall op :: op in Shaping(s) && op.Take? ==> s.HasLimit() && op == Take(s.limit.value)
    ensures s.HasLimit() ==> Take(s.limit.value) in Shaping(s)
    ensures forall op :: op in Shaping(s) && op.Skip? ==> s.HasOffset() && op == Skip(s.offset)
    ensures s.HasOffset() ==> Skip(s.offset) in Shaping(s)
  {
    HeadOnly(s);
  }

  /** Grouping, limit and offset calls come only from their own stages. */
  lemma HeadOnly(s: Settings)
    ensures forall op :: op in Shaping(s) && (op.GroupBy? || op.Take? || op.Skip?) ==>
              op in GroupStage(s) || op in TakeStage(s) || op in SkipStage(s)
  {
    var head := GroupStage(s) + TakeStage(s) + SkipStage(s);
    var rest := OrderOps(s.orderBy) + [With(s.includes), Select(s.columns)];
    RestNotHead(s);
    assert Shaping(s) == head + rest;
    forall op: Op | op in head + rest && (op.GroupBy? || op.Take? || op.Skip?)
      ensures op in GroupStage(s) || op in TakeStage(s) || op in SkipStage(s)
    {
      assert op in head;
    }
  }

  lemma RestNotHead(s: Settings)
    ensures forall op: Op :: op in OrderOps(s.orderBy) + [With(s.includes), Select(s.columns)] ==>
              !op.GroupBy? && !op.Take? && !op.Skip?
  {
    OrderOpsAreOrders(s.orderBy);
  }

  /**
   * The order of build: when no clause is rejected, the where calls come
   * first and unchanged, no call returns to an earlier stage, the last two
   * calls load the includes and select the columns, and `groupBy`, `take`
   * and `skip` are called exactly when there are groups, a truthy limit and
   * a non-zero offset, with those values.
   */
  lemma BuildStageOrder(cat: Catalog, s: Settings)
    requires Assemble(cat, s).failure == None
    ensures var ops := Assemble(cat, s).ops;
            && Staged(ops)
            && ops[..|RunWheres(cat, s.wheres).ops|] == RunWheres(cat, s.wheres).ops
            && |ops| >= 2 && ops[|ops| - 2] == With(s.includes) && ops[|ops| - 1] == Select(s.columns)
            && (forall op :: op in ops && op.GroupBy? ==> s.HasGroupBy() && op == GroupBy(s.groupBy))
            && (s.HasGroupBy() ==> GroupBy(s.groupBy) in ops)
            && (forall op :: op in ops && op.Take? ==> s.HasLimit() && op == Take(s.limit.value))
            && (s.HasLimit() ==> Take(s.limit.value) in ops)
            && (forall op :: op in ops && op.Skip? ==> s.HasOffset() && op == Skip(s.offset))
            && (s.HasOffset() ==> Skip(s.offset) in ops)
  {
    var w := RunWheres(cat, s.wheres).ops;
    var sh := Shaping(s);
    var ops := w + sh;
    assert Assemble(cat, s).ops == ops;
    WheresAreFilters(cat, s.wheres);
    UniformStaged(w, 0);
    ShapingStaged(s);
    StagedConcat(w, sh, 0);
    assert ops[..|w|] == w;
    ShapingMembers(s);
    forall op | op in ops && (op.GroupBy? || op.Take? || op.Skip?) ensures op in sh {
      assert !op.IsFilter();
    }
  }

  /** A rejected clause stops build before any grouping, limit, order, include or column selection. */
  lemma BuildFailsBeforeShaping(cat: Catalog, s: Settings)
    ensures Assemble(cat, s).failure.Some? <==> exists i :: 0 <= i < |s.wheres| && Emit(cat, s.wheres[i]).Err?
    ensures Assemble(cat, s).failure.Some? ==> forall op :: op in Assemble(cat, s).ops ==> op.IsFilter()
  {
    SucceedsIffAllEmit(cat, s.wheres);
    CallsAccountedFor(cat, s.wheres);
  }

  /** The only raw ordering expression build ever uses is `RAND()`, once per random marker. */
  lemma RandomIsAlwaysRand(cat: Catalog, s: Settings)
    ensures forall op :: op in Assemble(cat, s).ops && op.OrderByRaw? ==> op.expression == "RAND()"
  {
    var w := RunWheres(cat, s.wheres).ops;
    WheresAreFilters(cat, s.wheres);
    ShapingRaw(s);
    forall op | op in Assemble(cat, s).ops && op.OrderByRaw? ensures op.expression == "RAND()" {
      assert !op.IsFilter();
      assert op !in w;
      assert op in Shaping(s);
    }
  }

  lemma ShapingRaw(s: Settings)
    ensures forall op :: op in Shaping(s) && op.OrderByRaw? ==> op.expression == "RAND()"
  {
    var o := OrderOps(s.orderBy);
    var head := GroupStage(s) + TakeStage(s) + SkipStage(s);
    var tail := [With(s.includes), Select(s.columns)];
    assert Shaping(s) == head + o + tail;
    forall op | op in Shaping(s) && op.OrderByRaw? ensures op.expression == "RAND()" {
      assert op !in head && op !in tail;
      var i :| 0 <= i < |o| && o[i] == op;
    }
  }

  /**
   * paginate refuses exactly an unlimited builder, and a request whose
   * limit parameter is 'unlimited' always makes it refuse.
   */
  lemma UnlimitedCannotPaginate(s: Settings, wheres: seq<WhereClause>, constants: seq<Parameter>, request: map<Parameter, string>)
    ensures PageSize(s).Err? <==> !s.HasLimit()
    ensures PageSize(s).Ok? ==> PageSize(s).value == s.limit.value && PageSize(s).value != 0
    ensures LimitParam in constants && LimitParam in request && request[LimitParam] == "unlimited" ==>
              PageSize(Prepare(s, wheres, constants, request)) == Err(UnlimitedPagination)
  {
    ConstantsLimit(SetWheres(s, wheres), constants, request);
  }
}
