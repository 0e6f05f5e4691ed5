/**
 * Column splitting: `setColumns`, `setColumn` and `appendRelationColumn`
 * divide a comma-separated column list into plain columns and columns
 * listed per relation (`relation.column`).
 */
module Columns {
  import opened Plan
  import opened PhpStrings

  /** isRelationColumn: the column has more than one `.`-separated piece. */
  predicate IsRelationColumn(column: string)
  {
    |Explode('.', column)| > 1
  }

  /** A column is a relation column exactly when it contains a dot. */
  lemma RelationColumnHasDot(column: string)
    ensures IsRelationColumn(column) <==> '.' in column
  {
    ExplodeSplits('.', column);
  }

  /** `list($key, $column) = explode('.', ...)`: the first two pieces; any further piece is ignored. */
  function RelationOf(column: string): string
    requires IsRelationColumn(column)
  {
    Explode('.', column)[0]
  }

  function ColumnOf(column: string): string
    requires IsRelationColumn(column)
  {
    Explode('.', column)[1]
  }

  /** The relations that have an entry, as a set. */
  function Relations(rels: seq<RelationColumns>): set<string>
  {
    set e | e in rels :: e.relation
  }

  predicate DistinctRelations(rels: seq<RelationColumns>)
  {
    forall i, j :: 0 <= i < j < |rels| ==> rels[i].relation != rels[j].relation
  }

  /** The columns listed for a relation, or none. */
  function Lookup(rels: seq<RelationColumns>, relation: string): seq<string>
    decreases |rels|
  {
    if rels == [] then []
    else if rels[0].relation == relation then rels[0].columns
    else Lookup(rels[1..], relation)
  }

  function TotalColumns(rels: seq<RelationColumns>): nat
    decreases |rels|
  {
    if rels == [] then 0 else |rels[0].columns| + TotalColumns(rels[1..])
  }

  /** `$relationColumns[$key][] = $column`: append to the relation's list, adding the relation at the end when new. */
  function AppendRelation(rels: seq<RelationColumns>, relation: string, column: string): seq<RelationColumns>
    decreases |rels|
  {
    if rels == [] then [RelationColumns(relation, [column])]
    else if rels[0].relation == relation then [rels[0].(columns := rels[0].columns + [column])] + rels[1..]
    else [rels[0]] + AppendRelation(rels[1..], relation, column)
  }

  lemma RelationsCons(e: RelationColumns, rels: seq<RelationColumns>)
    ensures Relations([e] + rels) == {e.relation} + Relations(rels)
  {
    var l := [e] + rels;
    forall r | r in Relations(l) ensures r in {e.relation} + Relations(rels) {
      var x :| x in l && x.relation == r;
      if x != e {
        assert x in rels;
      }
    }
    forall r | r in Relations(rels) ensures r in Relations(l) {
      var x :| x in rels && x.relation == r;
      assert x in l;
    }
    assert e in l;
  }

  lemma {:induction false} AppendRelationNames(rels: seq<RelationColumns>, relation: string, column: string)
    ensures Relations(AppendRelation(rels, relation, column)) == Relations(rels) + {relation}
    decreases |rels|
  {
    var out := AppendRelation(rels, relation, column);
    if rels == [] {
      assert out == [RelationColumns(relation, [column])] + [];
      RelationsCons(out[0], []);
    } else {
      var tail := rels[1..];
      assert rels == [rels[0]] + tail;
      RelationsCons(rels[0], tail);
      if rels[0].relation == relation {
        assert out == [out[0]] + tail;
        RelationsCons(out[0], tail);
      } else {
        AppendRelationNames(tail, relation, column);
        assert out == [rels[0]] + AppendRelation(tail, relation, column);
        RelationsCons(rels[0], AppendRelation(tail, relation, column));
      }
    }
  }

  lemma DistinctUncons(rels: seq<RelationColumns>)
    requires rels != [] && DistinctRelations(rels)
    ensures DistinctRelations(rels[1..])
    ensures rels[0].relation !in Relations(rels[1..])
  {
    var tail := rels[1..];
    forall i, j | 0 <= i < j < |tail| ensures tail[i].relation != tail[j].relation {
      assert tail[i] == rels[i + 1] && tail[j] == rels[j + 1];
    }
    forall y | y in tail ensures y.relation != rels[0].relation {
      var k :| 0 <= k < |tail| && tail[k] == y;
      assert y == rels[k + 1];
    }
  }

  lemma DistinctCons(e: RelationColumns, rels: seq<RelationColumns>)
    requires DistinctRelations(rels) && e.relation !in Relations(rels)
    ensures DistinctRelations([e] + rels)
  {
    var l := [e] + rels;
    forall i, j | 0 <= i < j < |l| ensures l[i].relation != l[j].relation {
      assert l[j] == rels[j - 1];
      if i > 0 {
        assert l[i] == rels[i - 1];
      } else {
        assert rels[j - 1] in rels;
      }
    }
  }

  lemma {:induction false} AppendRelationKeepsDistinct(rels: seq<RelationColumns>, relation: string, column: string)
    requires DistinctRelations(rels)
    ensures DistinctRelations(AppendRelation(rels, relation, column))
    decreases |rels|
  {
    if rels != [] {
      var tail := rels[1..];
      DistinctUncons(rels);
      if rels[0].relation == relation {
        DistinctCons(rels[0].(columns := rels[0].columns + [column]), tail);
      } else {
        AppendRelationKeepsDistinct(tail, relation, column);
        AppendRelationNames(tail, relation, column);
        DistinctCons(rels[0], AppendRelation(tail, relation, column));
      }
    }
  }

  lemma {:induction false} AppendRelationLookup(rels: seq<RelationColumns>, relation: string, column: string, r: string)
    requires DistinctRelations(rels)
    ensures Lookup(AppendRelation(rels, relation, column), r) ==
            if r == relation then Lookup(rels, r) + [column] else Lookup(rels, r)
    decreases |rels|
  {
    if rels != [] && rels[0].relation != relation {
      AppendRelationLookup(rels[1..], relation, column, r);
    }
  }

  lemma {:induction false} AppendRelationTotal(rels: seq<RelationColumns>, relation: string, column: string)
    ensures TotalColumns(AppendRelation(rels, relation, column)) == TotalColumns(rels) + 1
    decreases |rels|
  {
    if rels != [] {
      var out := AppendRelation(rels, relation, column);
      if rels[0].relation == relation {
        assert out[1..] == rels[1..];
      } else {
        AppendRelationTotal(rels[1..], relation, column);
        assert out[1..] == AppendRelation(rels[1..], relation, column);
      }
    }
  }

  /** Appending a relation column never leaves a relation with an empty list. */
  lemma {:induction false} AppendRelationNonEmpty(rels: seq<RelationColumns>, relation: string, column: string)
    requires forall e :: e in rels ==> e.columns != []
    ensures forall e :: e in AppendRelation(rels, relation, column) ==> e.columns != []
    decreases |rels|
  {
    var out := AppendRelation(rels, relation, column);
    if rels != [] {
      var tail := rels[1..];
      if rels[0].relation == relation {
        assert out == [out[0]] + tail;
      } else {
        AppendRelationNonEmpty(tail, relation, column);
        assert out == [rels[0]] + AppendRelation(tail, relation, column);
      }
    }
  }

  /** Appending a relation column extends exactly that relation's list by one column and keeps the relations distinct. */
  lemma AppendRelationMeaning(rels: seq<RelationColumns>, relation: string, column: string)
    requires DistinctRelations(rels)
    ensures DistinctRelations(AppendRelation(rels, relation, column))
    ensures Relations(AppendRelation(rels, relation, column)) == Relations(rels) + {relation}
    ensures forall r :: Lookup(AppendRelation(rels, relation, column), r) ==
                        if r == relation then Lookup(rels, r) + [column] else Lookup(rels, r)
    ensures TotalColumns(AppendRelation(rels, relation, column)) == TotalColumns(rels) + 1
  {
    AppendRelationKeepsDistinct(rels, relation, column);
    AppendRelationNames(rels, relation, column);
    AppendRelationTotal(rels, relation, column);
    forall r ensures Lookup(AppendRelation(rels, relation, column), r) ==
                     if r == relation then Lookup(rels, r) + [column] else Lookup(rels, r) {
      AppendRelationLookup(rels, relation, column, r);
    }
  }

  /** Where the columns of the list end up: `$columns` and `$relationColumns`. */
  datatype ColumnSplit = ColumnSplit(plain: seq<string>, relations: seq<RelationColumns>)

  /** setColumn: a relation column goes to its relation's list, any other column to the plain list. */
  function AddColumn(split: ColumnSplit, column: string): ColumnSplit
  {
    if IsRelationColumn(column) then
      split.(relations := AppendRelation(split.relations, RelationOf(column), ColumnOf(column)))
    else
      split.(plain := split.plain + [column])
  }

  /** The columns and relation columns that `setColumns` builds from the kept pieces, one piece at a time. */
  function SplitColumns(pieces: seq<string>): ColumnSplit
    decreases |pieces|
  {
    if pieces == [] then ColumnSplit([], [])
    else AddColumn(SplitColumns(pieces[..|pieces| - 1]), pieces[|pieces| - 1])
  }

  /** Splitting one more piece adds it to the split of the earlier ones. */
  lemma SplitColumnsSnoc(pieces: seq<string>, i: nat)
    requires i < |pieces|
    ensures SplitColumns(pieces[..i + 1]) == AddColumn(SplitColumns(pieces[..i]), pieces[i])
  {
    assert pieces[..i + 1][..i] == pieces[..i];
  }

  /** Reference definition: the pieces without a dot, in order. */
  function PlainPieces(pieces: seq<string>): seq<string>
    decreases |pieces|
  {
    if pieces == [] then []
    else
      var last := pieces[|pieces| - 1];
      PlainPieces(pieces[..|pieces| - 1]) + (if '.' in last then [] else [last])
  }

  /** Reference definition: the second piece of every dotted piece whose first piece is `relation`, in order. */
  function PiecesOf(pieces: seq<string>, relation: string): seq<string>
    decreases |pieces|
  {
    if pieces == [] then []
    else
      var last := pieces[|pieces| - 1];
      var parts := Explode('.', last);
      ExplodeSplits('.', last);
      PiecesOf(pieces[..|pieces| - 1], relation) +
        (if '.' in last && parts[0] == relation then [parts[1]] else [])
  }

  /** Reference definition: the first pieces of the dotted pieces, as a set. */
  function NamedRelations(pieces: seq<string>): set<string>
    decreases |pieces|
  {
    if pieces == [] then {}
    else
      var last := pieces[|pieces| - 1];
      NamedRelations(pieces[..|pieces| - 1]) + (if '.' in last then {Explode('.', last)[0]} else {})
  }

  /**
   * The split is a partition of the pieces: the plain list is the dotless
   * pieces in order, each relation lists exactly the columns given for it in
   * order, no relation appears twice, every piece lands in exactly one
   * place, and the relations with an entry are exactly those named by a
   * dotted piece, none of them with an empty list.
   */
  lemma {:induction false} SplitColumnsMeaning(pieces: seq<string>)
    ensures SplitColumns(pieces).plain == PlainPieces(pieces)
    ensures forall c :: c in SplitColumns(pieces).plain ==> '.' !in c
    ensures forall r :: Lookup(SplitColumns(pieces).relations, r) == PiecesOf(pieces, r)
    ensures DistinctRelations(SplitColumns(pieces).relations)
    ensures |SplitColumns(pieces).plain| + TotalColumns(SplitColumns(pieces).relations) == |pieces|
    ensures Relations(SplitColumns(pieces).relations) == NamedRelations(pieces)
    ensures forall e :: e in SplitColumns(pieces).relations ==> e.columns != []
    decreases |pieces|
  {
    if pieces != [] {
      var init := pieces[..|pieces| - 1];
      var last := pieces[|pieces| - 1];
      SplitColumnsMeaning(init);
      RelationColumnHasDot(last);
      var prior := SplitColumns(init);
      if IsRelationColumn(last) {
        AppendRelationMeaning(prior.relations, RelationOf(last), ColumnOf(last));
        AppendRelationNonEmpty(prior.relations, RelationOf(last), ColumnOf(last));
      }
    }
  }

  /** A column list without a dotted piece lists no relation columns, so `prepare` does not rewrite the includes. */
  lemma NoDottedPieceNoRelations(pieces: seq<string>)
    requires forall p :: p in pieces ==> '.' !in p
    ensures SplitColumns(pieces).relations == []
  {
    NoDottedPieceNamesNothing(pieces);
    SplitColumnsMeaning(pieces);
    var rels := SplitColumns(pieces).relations;
    assert forall e :: e in rels ==> e.relation in Relations(rels);
  }

  lemma {:induction false} NoDottedPieceNamesNothing(pieces: seq<string>)
    requires forall p :: p in pieces ==> '.' !in p
    ensures NamedRelations(pieces) == {}
    decreases |pieces|
  {
    if pieces != [] {
      var init := pieces[..|pieces| - 1];
      assert forall p :: p in init ==> p in pieces;
      assert pieces[|pieces| - 1] in pieces;
      NoDottedPieceNamesNothing(init);
    }
  }
}
