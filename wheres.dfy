/**
 * Where-clause compilation: `addWhereToQuery` for one clause (`Emit`) and the
 * `array_map` over `$this->wheres` in `build`, which stops at the first
 * exception (`RunWheres`).
 */
module Wheres {
  import opened Plan

  /**
   * What `addWhereToQuery` consults besides the clause itself: the excluded
   * parameters from the configuration, the columns of the model's table
   * (`Schema::hasColumn`) and the keys that have a `filterBy<Key>` method.
   */
  datatype Catalog = Catalog(excludedParameters: seq<string>, columns: set<string>, customFilters: set<string>)
  {
    predicate IsExcludedParameter(key: string)
    {
      key in excludedParameters
    }

    predicate HasCustomFilter(key: string)
    {
      key in customFilters
    }

    predicate HasTableColumn(key: string)
    {
      key in columns
    }
  }

  /** A missing operator becomes the empty string. */
  function OperatorOf(w: WhereClause): string
  {
    match w.operator
    case None => ""
    case Some(op) => op
  }

  /** The generic translation of a clause on a known column. */
  function Generic(w: WhereClause): Op
  {
    match w.kind
    case In => WhereIn(w.key, w.value)
    case NotIn => WhereNotIn(w.key, w.value)
    case Basic =>
      if w.value == Scalar("[null]") then
        if OperatorOf(w) == "=" then WhereNull(w.key) else WhereNotNull(w.key)
      else
        Where(w.key, OperatorOf(w), w.value)
  }

  /** The calls `addWhereToQuery` makes on the query for one clause, or the exception it throws. */
  function Emit(cat: Catalog, w: WhereClause): Result<seq<Op>>
  {
    if cat.IsExcludedParameter(w.key) then Ok([])
    else if cat.HasCustomFilter(w.key) then Ok([CustomFilter(w.key, w.value, OperatorOf(w), w.kind)])
    else if !cat.HasTableColumn(w.key) then Err(UnknownColumn(w.key))
    else Ok([Generic(w)])
  }

  /** The calls made so far and the exception that stopped the run, if any. */
  datatype Run = Run(ops: seq<Op>, failure: Option<Failure>)

  /** `array_map([$this, 'addWhereToQuery'], $wheres)`: clause by clause, stopping at the first exception. */
  function RunWheres(cat: Catalog, ws: seq<WhereClause>): Run
    decreases |ws|
  {
    if ws == [] then Run([], None)
    else
      var prior := RunWheres(cat, ws[..|ws| - 1]);
      if prior.failure.Some? then prior
      else
        match Emit(cat, ws[|ws| - 1])
        case Ok(ops) => Run(prior.ops + ops, None)
        case Err(f) => Run(prior.ops, Some(f))
  }

  /**
   * The decision order of `addWhereToQuery`: an excluded key emits nothing,
   * a custom filter is the only call made for its key, and only a key that
   * is neither excluded, custom-filtered nor a column is rejected.
   */
  lemma ClauseDispatch(cat: Catalog, w: WhereClause)
    ensures cat.IsExcludedParameter(w.key) ==> Emit(cat, w) == Ok([])
    ensures !cat.IsExcludedParameter(w.key) && cat.HasCustomFilter(w.key) ==>
              Emit(cat, w) == Ok([CustomFilter(w.key, w.value, OperatorOf(w), w.kind)])
    ensures Emit(cat, w).Err? <==>
              !cat.IsExcludedParameter(w.key) && !cat.HasCustomFilter(w.key) && !cat.HasTableColumn(w.key)
    ensures Emit(cat, w).Err? ==> Emit(cat, w).failure == UnknownColumn(w.key)
  {
  }

  /**
   * The generic translation of a clause on a known column: a membership test
   * over exactly the supplied list, the '[null]' sentinel as a null test
   * chosen by the operator, and otherwise a comparison whose missing
   * operator is the empty string.
   */
  lemma GenericTranslation(cat: Catalog, w: WhereClause)
    requires !cat.IsExcludedParameter(w.key) && !cat.HasCustomFilter(w.key) && cat.HasTableColumn(w.key)
    ensures w.kind == In ==> Emit(cat, w) == Ok([WhereIn(w.key, w.value)])
    ensures w.kind == NotIn ==> Emit(cat, w) == Ok([WhereNotIn(w.key, w.value)])
    ensures w.kind == Basic && w.value == Scalar("[null]") ==>
              Emit(cat, w) == Ok([if w.operator == Some("=") then WhereNull(w.key) else WhereNotNull(w.key)])
    ensures w.kind == Basic && w.value != Scalar("[null]") ==>
              Emit(cat, w) == Ok([Where(w.key, OperatorOf(w), w.value)])
    ensures w.kind == Basic && w.value != Scalar("[null]") && w.operator == None ==>
              Emit(cat, w) == Ok([Where(w.key, "", w.value)])
  {
  }

  /** Whether a clause is applied or rejected does not depend on the schema when its key has a custom filter. */
  lemma {:induction false} CustomFilterSkipsSchema(cat: Catalog, ws: seq<WhereClause>, columns: set<string>)
    requires forall i :: 0 <= i < |ws| ==> cat.IsExcludedParameter(ws[i].key) || cat.HasCustomFilter(ws[i].key)
    ensures RunWheres(cat, ws).failure == None
    ensures RunWheres(cat.(columns := columns), ws) == RunWheres(cat, ws)
    decreases |ws|
  {
    if ws != [] {
      CustomFilterSkipsSchema(cat, ws[..|ws| - 1], columns);
    }
  }

  /** Once a run has failed, the clauses after it are not applied. */
  lemma {:induction false} FailureIgnoresRest(cat: Catalog, a: seq<WhereClause>, b: seq<WhereClause>)
    requires RunWheres(cat, a).failure.Some?
    ensures RunWheres(cat, a + b) == RunWheres(cat, a)
    decreases |b|
  {
    if b != [] {
      var ab := a + b;
      assert ab[..|ab| - 1] == a + b[..|b| - 1];
      FailureIgnoresRest(cat, a, b[..|b| - 1]);
    } else {
      assert a + b == a;
    }
  }

  /**
   * Fail fast: the first clause on an unknown column stops the run with
   * `UnknownColumn(key)`; the clauses before it stay applied, those after
   * it are not.
   */
  lemma StopsAtFirstUnknownColumn(cat: Catalog, ws: seq<WhereClause>, i: nat)
    requires i < |ws| && Emit(cat, ws[i]).Err?
    requires forall j :: 0 <= j < i ==> Emit(cat, ws[j]).Ok?
    ensures RunWheres(cat, ws[..i]).failure == None
    ensures RunWheres(cat, ws) == Run(RunWheres(cat, ws[..i]).ops, Some(UnknownColumn(ws[i].key)))
  {
    SucceedsIffAllEmit(cat, ws[..i]);
    var p := ws[..i + 1];
    assert p[..|p| - 1] == ws[..i];
    FailureIgnoresRest(cat, p, ws[i + 1..]);
    assert p + ws[i + 1..] == ws;
  }

  /** A run completes exactly when no clause is rejected. */
  lemma {:induction false} SucceedsIffAllEmit(cat: Catalog, ws: seq<WhereClause>)
    ensures RunWheres(cat, ws).failure == None <==> forall i :: 0 <= i < |ws| ==> Emit(cat, ws[i]).Ok?
    decreases |ws|
  {
    if ws != [] {
      var init := ws[..|ws| - 1];
      SucceedsIffAllEmit(cat, init);
      assert forall i :: 0 <= i < |init| ==> init[i] == ws[i];
    }
  }

  /** Applying more clauses never takes back a call already made. */
  lemma {:induction false} EarlierCallsStay(cat: Catalog, a: seq<WhereClause>, b: seq<WhereClause>)
    ensures RunWheres(cat, a).ops <= RunWheres(cat, a + b).ops
    decreases |b|
  {
    if b == [] {
      assert a + b == a;
    } else {
      var ab := a + b;
      assert ab[..|ab| - 1] == a + b[..|b| - 1];
      EarlierCallsStay(cat, a, b[..|b| - 1]);
    }
  }

  /** A clause whose key is excluded changes nothing, wherever it stands and whatever its operator or value. */
  lemma {:induction false} ExcludedClauseIsInert(cat: Catalog, a: seq<WhereClause>, w: WhereClause, b: seq<WhereClause>)
    requires cat.IsExcludedParameter(w.key)
    ensures RunWheres(cat, a + [w] + b) == RunWheres(cat, a + b)
    decreases |b|
  {
    if b == [] {
      var aw := a + [w];
      assert aw[..|aw| - 1] == a;
      assert a + [w] + b == aw && a + b == a;
    } else {
      var l := a + [w] + b;
      var r := a + b;
      assert l[..|l| - 1] == a + [w] + b[..|b| - 1];
      assert r[..|r| - 1] == a + b[..|b| - 1];
      assert l[|l| - 1] == r[|r| - 1];
      ExcludedClauseIsInert(cat, a, w, b[..|b| - 1]);
    }
  }

  /**
   * Every call a run makes is a filter on the key of one of its clauses;
   * no call names an excluded key; a custom-filter call is made only for a
   * key with a custom filter, and any other filter only for a table column
   * without one.
   */
  lemma {:induction false} CallsAccountedFor(cat: Catalog, ws: seq<WhereClause>)
    ensures forall op :: op in RunWheres(cat, ws).ops ==>
              && op.IsFilter()
              && !cat.IsExcludedParameter(op.column)
              && (op.CustomFilter? ==> cat.HasCustomFilter(op.column))
              && (!op.CustomFilter? ==> !cat.HasCustomFilter(op.column) && cat.HasTableColumn(op.column))
              && exists i :: 0 <= i < |ws| && ws[i].key == op.column
    decreases |ws|
  {
    if ws != [] {
      var init := ws[..|ws| - 1];
      CallsAccountedFor(cat, init);
      forall op | op in RunWheres(cat, ws).ops
        ensures exists i :: 0 <= i < |ws| && ws[i].key == op.column
      {
        if op in RunWheres(cat, init).ops {
          var i :| 0 <= i < |init| && init[i].key == op.column;
          assert ws[i] == init[i];
        } else {
          assert ws[|ws| - 1].key == op.column;
        }
      }
    }
  }
}
