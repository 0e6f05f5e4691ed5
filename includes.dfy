/**
 * The `$includes` array: `setIncludes` builds it with
 * `array_filter(explode(',', ...))`, which keeps each surviving piece under
 * its original integer key, and `fixRelationColumns` rewrites it so that a
 * relation with listed columns is loaded through a closure selecting only
 * those columns.
 */
module Includes {
  import opened Plan
  import opened PhpStrings
  import opened Columns

  /** `array_filter` over the pieces numbered from `start`, keeping each piece's key. */
  function Indexed(pieces: seq<string>, start: nat): (r: seq<Include>)
    ensures forall e :: e in r ==> e.Plain? && start <= e.index < start + |pieces|
    ensures forall i, j :: 0 <= i < j < |r| ==> r[i].index < r[j].index
    decreases |pieces|
  {
    if pieces == [] then []
    else (if IsFalsy(pieces[0]) then [] else [Plain(start, pieces[0])]) + Indexed(pieces[1..], start + 1)
  }

  /** The key of each entry is its piece's position: an entry under key `start + k` carries piece `k`. */
  lemma {:induction false} IndexedKeys(pieces: seq<string>, start: nat)
    ensures forall e :: e in Indexed(pieces, start) ==> e.relation == pieces[e.index - start]
    decreases |pieces|
  {
    if pieces != [] {
      var rest := Indexed(pieces[1..], start + 1);
      IndexedKeys(pieces[1..], start + 1);
      forall e | e in rest ensures e.relation == pieces[e.index - start] {
        assert pieces[1..][e.index - (start + 1)] == pieces[e.index - start];
      }
      var head: seq<Include> := if IsFalsy(pieces[0]) then [] else [Plain(start, pieces[0])];
      assert Indexed(pieces, start) == head + rest;
    }
  }

  /** Every non-falsy piece `k` is kept, under the key `start + k`. */
  lemma {:induction false} IndexedKeepsAll(pieces: seq<string>, start: nat)
    ensures forall k :: 0 <= k < |pieces| && !IsFalsy(pieces[k]) ==> Plain(start + k, pieces[k]) in Indexed(pieces, start)
    decreases |pieces|
  {
    if pieces != [] {
      var rest := Indexed(pieces[1..], start + 1);
      IndexedKeepsAll(pieces[1..], start + 1);
      var head: seq<Include> := if IsFalsy(pieces[0]) then [] else [Plain(start, pieces[0])];
      assert Indexed(pieces, start) == head + rest;
      forall k | 1 <= k < |pieces| && !IsFalsy(pieces[k]) ensures Plain(start + k, pieces[k]) in rest {
        assert pieces[1..][k - 1] == pieces[k];
      }
    }
  }

  /** setIncludes. */
  function ParseIncludes(raw: string): seq<Include>
  {
    Indexed(Explode(',', raw), 0)
  }

  /** The relation names of a list of includes, in order. */
  function Names(incs: seq<Include>): seq<string>
  {
    seq(|incs|, i requires 0 <= i < |incs| => incs[i].relation)
  }

  lemma NamesConcat(a: seq<Include>, b: seq<Include>)
    ensures Names(a + b) == Names(a) + Names(b)
  {
  }

  lemma {:induction false} IndexedNames(pieces: seq<string>, start: nat)
    ensures Names(Indexed(pieces, start)) == Kept(pieces)
    decreases |pieces|
  {
    if pieces != [] {
      IndexedNames(pieces[1..], start + 1);
      var head: seq<Include> := if IsFalsy(pieces[0]) then [] else [Plain(start, pieces[0])];
      NamesConcat(head, Indexed(pieces[1..], start + 1));
    }
  }

  /**
   * setIncludes keeps the non-falsy pieces of the comma-separated list, in
   * order, each under a distinct integer key that increases along the list.
   */
  lemma ParseIncludesMeaning(raw: string)
    ensures Names(ParseIncludes(raw)) == Kept(Explode(',', raw))
    ensures forall e :: e in ParseIncludes(raw) ==> e.Plain?
    ensures forall i, j :: 0 <= i < j < |ParseIncludes(raw)| ==>
              ParseIncludes(raw)[i].index < ParseIncludes(raw)[j].index
  {
    IndexedNames(Explode(',', raw), 0);
  }

  /** array_search($key, $includes): the key of the first bare include equal to `name`; `None` stands for `false`. */
  function ArraySearch(incs: seq<Include>, name: string): Option<nat>
    decreases |incs|
  {
    if incs == [] then None
    else if incs[0].Plain? && incs[0].relation == name then Some(incs[0].index)
    else ArraySearch(incs[1..], name)
  }

  /** unset($includes[$index]): drop the entry under that integer key. */
  function Unset(incs: seq<Include>, index: nat): seq<Include>
    decreases |incs|
  {
    if incs == [] then []
    else (if incs[0].Plain? && incs[0].index == index then [] else [incs[0]]) + Unset(incs[1..], index)
  }

  /** $includes[$key] = closure: overwrite the entry under that key in place, or append it. */
  function AssignRestricted(incs: seq<Include>, name: string, columns: seq<string>): seq<Include>
    decreases |incs|
  {
    if incs == [] then [Restricted(name, columns)]
    else if incs[0].Restricted? && incs[0].relation == name then [Restricted(name, columns)] + incs[1..]
    else [incs[0]] + AssignRestricted(incs[1..], name, columns)
  }

  /**
   * fixRelationColumn. When `name` is not a bare include, `array_search`
   * returns false, which PHP turns into the key 0, so the entry under key 0
   * is the one removed.
   */
  function FixRelationColumn(incs: seq<Include>, name: string, columns: seq<string>): seq<Include>
  {
    var index := match ArraySearch(incs, name) case Some(i) => i case None => 0;
    AssignRestricted(Unset(incs, index), name, columns)
  }

  /** fixRelationColumns: fixRelationColumn for each relation, in the order of `$relationColumns`. */
  function FixRelationColumns(incs: seq<Include>, rels: seq<RelationColumns>): seq<Include>
    decreases |rels|
  {
    if rels == [] then incs
    else FixRelationColumns(FixRelationColumn(incs, rels[0].relation, rels[0].columns), rels[1..])
  }

  /** Reference definition: the includes whose relation is not in `names`, in order. */
  function Keep(incs: seq<Include>, names: set<string>): (r: seq<Include>)
    ensures forall e :: e in r <==> e in incs && e.relation !in names
    decreases |incs|
  {
    if incs == [] then []
    else (if incs[0].relation in names then [] else [incs[0]]) + Keep(incs[1..], names)
  }

  /** Reference definition: one column-restricted include per relation, in order. */
  function RestrictionsOf(rels: seq<RelationColumns>): seq<Include>
  {
    seq(|rels|, i requires 0 <= i < |rels| => Restricted(rels[i].relation, rels[i].columns))
  }

  predicate IsIncluded(incs: seq<Include>, name: string)
  {
    exists e :: e in incs && e.Plain? && e.relation == name
  }

  /**
   * Bare includes under distinct keys, as `setIncludes` produces them, in
   * which each relation of `names` is requested at most once; other
   * relations may be requested any number of times.
   */
  predicate BareOnce(incs: seq<Include>, names: set<string>)
  {
    && (forall e :: e in incs ==> e.Plain?)
    && (forall i, j :: 0 <= i < j < |incs| ==> incs[i].index != incs[j].index)
    && (forall i, j :: 0 <= i < j < |incs| && incs[i].relation in names ==> incs[i].relation != incs[j].relation)
  }

  lemma {:induction false} KeepNothing(incs: seq<Include>)
    ensures Keep(incs, {}) == incs
    decreases |incs|
  {
    if incs != [] {
      KeepNothing(incs[1..]);
      assert incs == [incs[0]] + incs[1..];
    }
  }

  lemma {:induction false} SearchFinds(xs: seq<Include>, name: string, index: nat)
    requires Plain(index, name) in xs
    requires forall e :: e in xs && e.Plain? && e.relation == name ==> e.index == index
    ensures ArraySearch(xs, name) == Some(index)
    decreases |xs|
  {
    if !(xs[0].Plain? && xs[0].relation == name) {
      assert Plain(index, name) in xs[1..];
      SearchFinds(xs[1..], name, index);
    }
  }

  lemma {:induction false} UnsetConcat(a: seq<Include>, b: seq<Include>, index: nat)
    ensures Unset(a + b, index) == Unset(a, index) + Unset(b, index)
    decreases |a|
  {
    if a == [] {
      assert a + b == b;
    } else {
      var ab := a + b;
      var head: seq<Include> := if a[0].Plain? && a[0].index == index then [] else [a[0]];
      assert ab[0] == a[0] && ab[1..] == a[1..] + b;
      assert Unset(ab, index) == head + Unset(a[1..] + b, index);
      assert Unset(a, index) == head + Unset(a[1..], index);
      UnsetConcat(a[1..], b, index);
    }
  }

  lemma {:induction false} UnsetNoPlain(xs: seq<Include>, index: nat)
    requires forall e :: e in xs ==> e.Restricted?
    ensures Unset(xs, index) == xs
    decreases |xs|
  {
    if xs != [] {
      assert forall e :: e in xs[1..] ==> e in xs;
      UnsetNoPlain(xs[1..], index);
      assert xs[0].Restricted?;
      assert xs == [xs[0]] + xs[1..];
    }
  }

  lemma {:induction false} UnsetKeep(incs: seq<Include>, names: set<string>, index: nat, name: string)
    requires forall e :: e in incs ==> e.Plain? && (e.index == index <==> e.relation == name)
    ensures Unset(Keep(incs, names), index) == Keep(incs, names + {name})
    decreases |incs|
  {
    if incs != [] {
      var head: seq<Include> := if incs[0].relation in names then [] else [incs[0]];
      UnsetConcat(head, Keep(incs[1..], names), index);
      UnsetKeep(incs[1..], names, index, name);
    }
  }

  lemma {:induction false} AssignAppends(xs: seq<Include>, name: string, columns: seq<string>)
    requires forall e :: e in xs ==> !(e.Restricted? && e.relation == name)
    ensures AssignRestricted(xs, name, columns) == xs + [Restricted(name, columns)]
    decreases |xs|
  {
    if xs != [] {
      AssignAppends(xs[1..], name, columns);
      assert xs == [xs[0]] + xs[1..];
    }
  }

  lemma RelationsSnoc(done: seq<RelationColumns>, x: RelationColumns)
    ensures Relations(done + [x]) == Relations(done) + {x.relation}
  {
    var d := done + [x];
    forall r | r in Relations(d) ensures r in Relations(done) + {x.relation} {
      var y :| y in d && y.relation == r;
      if y != x {
        assert y in done;
      }
    }
    forall r | r in Relations(done) ensures r in Relations(d) {
      var y :| y in done && y.relation == r;
      assert y in d;
    }
    assert x in d;
  }

  /** An included relation has exactly one bare include, and its key belongs to no other include. */
  lemma IncludedEntry(incs: seq<Include>, names: set<string>, name: string) returns (index: nat)
    requires BareOnce(incs, names) && name in names
    requires IsIncluded(incs, name)
    ensures Plain(index, name) in incs
    ensures forall f :: f in incs ==> f.Plain? && (f.index == index <==> f.relation == name)
  {
    var e :| e in incs && e.Plain? && e.relation == name;
    index := e.index;
    var p :| 0 <= p < |incs| && incs[p] == e;
    forall f | f in incs ensures f.Plain? && (f.index == index <==> f.relation == name) {
      var q :| 0 <= q < |incs| && incs[q] == f;
      if q < p {
        assert incs[q].index != incs[p].index && incs[q].relation != incs[p].relation;
      } else if q > p {
        assert incs[p].index != incs[q].index && incs[p].relation != incs[q].relation;
      }
    }
  }

  lemma RestrictionsAvoid(done: seq<RelationColumns>, name: string)
    requires name !in Relations(done)
    ensures forall f :: f in RestrictionsOf(done) ==> f.Restricted? && f.relation != name
  {
    forall f | f in RestrictionsOf(done) ensures f.Restricted? && f.relation != name {
      var k :| 0 <= k < |done| && RestrictionsOf(done)[k] == f;
      assert done[k] in done;
    }
  }

  /** The search and the unset of one step: the relation's bare include is found and is the only entry removed. */
  lemma UnsetStep(incs: seq<Include>, names: set<string>, restricted: seq<Include>, name: string, index: nat)
    requires name !in names
    requires Plain(index, name) in incs
    requires forall f :: f in incs ==> f.Plain? && (f.index == index <==> f.relation == name)
    requires forall f :: f in restricted ==> f.Restricted?
    ensures ArraySearch(Keep(incs, names) + restricted, name) == Some(index)
    ensures Unset(Keep(incs, names) + restricted, index) == Keep(incs, names + {name}) + restricted
  {
    var kept := Keep(incs, names);
    assert Plain(index, name) in kept;
    SearchFinds(kept + restricted, name, index);
    UnsetConcat(kept, restricted, index);
    UnsetNoPlain(restricted, index);
    UnsetKeep(incs, names, index, name);
  }

  /** One step of fixRelationColumns on an included relation not yet rewritten. */
  lemma FixStep(incs: seq<Include>, names: set<string>, done: seq<RelationColumns>, x: RelationColumns)
    requires BareOnce(incs, names) && x.relation in names
    requires x.relation !in Relations(done)
    requires IsIncluded(incs, x.relation)
    ensures FixRelationColumn(Keep(incs, Relations(done)) + RestrictionsOf(done), x.relation, x.columns) ==
            Keep(incs, Relations(done + [x])) + RestrictionsOf(done + [x])
  {
    var name := x.relation;
    var restricted := RestrictionsOf(done);
    var index := IncludedEntry(incs, names, name);
    RestrictionsAvoid(done, name);
    UnsetStep(incs, Relations(done), restricted, name, index);
    var unset := Keep(incs, Relations(done) + {name}) + restricted;
    AssignAppends(unset, name, x.columns);
    RestrictionsSnoc(done, x);
    RelationsSnoc(done, x);
  }

  lemma RestrictionsSnoc(done: seq<RelationColumns>, x: RelationColumns)
    ensures RestrictionsOf(done + [x]) == RestrictionsOf(done) + [Restricted(x.relation, x.columns)]
  {
  }

  lemma {:induction false} FixRelationColumnsFrom(
    incs: seq<Include>, names: set<string>, done: seq<RelationColumns>, rels: seq<RelationColumns>)
    requires BareOnce(incs, names)
    requires forall k :: 0 <= k < |rels| ==> rels[k].relation in names
    requires DistinctRelations(done + rels)
    requires forall k :: 0 <= k < |rels| ==> IsIncluded(incs, rels[k].relation)
    ensures FixRelationColumns(Keep(incs, Relations(done)) + RestrictionsOf(done), rels) ==
            Keep(incs, Relations(done + rels)) + RestrictionsOf(done + rels)
    decreases |rels|
  {
    if rels == [] {
      assert done + rels == done;
    } else {
      FixAdvance(incs, names, done, rels);
      FixRelationColumnsFrom(incs, names, done + [rels[0]], rels[1..]);
    }
  }

  /** Rewriting the next relation moves it from `rels` to `done`, and what remains still meets the requirements. */
  lemma {:induction false} FixAdvance(incs: seq<Include>, names: set<string>, done: seq<RelationColumns>, rels: seq<RelationColumns>)
    requires rels != []
    requires BareOnce(incs, names)
    requires forall k :: 0 <= k < |rels| ==> rels[k].relation in names
    requires DistinctRelations(done + rels)
    requires forall k :: 0 <= k < |rels| ==> IsIncluded(incs, rels[k].relation)
    ensures FixRelationColumns(Keep(incs, Relations(done)) + RestrictionsOf(done), rels) ==
            FixRelationColumns(Keep(incs, Relations(done + [rels[0]])) + RestrictionsOf(done + [rels[0]]), rels[1..])
    ensures done + [rels[0]] + rels[1..] == done + rels
    ensures forall k :: 0 <= k < |rels[1..]| ==> rels[1..][k].relation in names && IsIncluded(incs, rels[1..][k].relation)
  {
    var x := rels[0];
    var current := Keep(incs, Relations(done)) + RestrictionsOf(done);
    assert FixRelationColumns(current, rels) ==
           FixRelationColumns(FixRelationColumn(current, x.relation, x.columns), rels[1..]);
    assert IsIncluded(incs, x.relation) && x.relation in names;
    NextNotDone(done, rels);
    FixStep(incs, names, done, x);
    assert forall k :: 0 <= k < |rels[1..]| ==> rels[1..][k] == rels[k + 1];
    MoveFirst(done, rels);
  }

  lemma MoveFirst<T>(done: seq<T>, rest: seq<T>)
    requires rest != []
    ensures done + [rest[0]] + rest[1..] == done + rest
  {
    assert rest == [rest[0]] + rest[1..];
  }

  lemma NextNotDone(done: seq<RelationColumns>, rels: seq<RelationColumns>)
    requires rels != [] && DistinctRelations(done + rels)
    ensures rels[0].relation !in Relations(done)
  {
    forall y | y in done ensures y.relation != rels[0].relation {
      var k :| 0 <= k < |done| && done[k] == y;
      assert (done + rels)[k] == y && (done + rels)[|done|] == rels[0];
    }
  }

  /**
   * When every relation with listed columns is requested once as an include,
   * fixRelationColumns removes exactly those bare includes, keeps every other
   * include in order, and adds one include per relation restricted to exactly
   * its listed columns, in the order of the relations.
   */
  lemma FixRelationColumnsRewrites(incs: seq<Include>, rels: seq<RelationColumns>)
    requires BareOnce(incs, Relations(rels))
    requires DistinctRelations(rels)
    requires forall k :: 0 <= k < |rels| ==> IsIncluded(incs, rels[k].relation)
    ensures FixRelationColumns(incs, rels) == Keep(incs, Relations(rels)) + RestrictionsOf(rels)
  {
    RewriteStart(incs);
    assert [] + rels == rels;
    forall k | 0 <= k < |rels| ensures rels[k].relation in Relations(rels) {
      assert rels[k] in rels;
    }
    FixRelationColumnsFrom(incs, Relations(rels), [], rels);
  }

  /** Before the first relation is rewritten, the includes are as given. */
  lemma RewriteStart(incs: seq<Include>)
    ensures Keep(incs, Relations([])) + RestrictionsOf([]) == incs
  {
    KeepNothing(incs);
    assert Relations([]) == {};
  }

  lemma {:induction false} SearchMisses(xs: seq<Include>, name: string)
    requires forall e :: e in xs ==> e.relation != name
    ensures ArraySearch(xs, name) == None
    decreases |xs|
  {
    if xs != [] {
      SearchMisses(xs[1..], name);
    }
  }

  lemma {:induction false} UnsetAbsent(xs: seq<Include>, index: nat)
    requires forall e :: e in xs ==> !(e.Plain? && e.index == index)
    ensures Unset(xs, index) == xs
    decreases |xs|
  {
    if xs != [] {
      UnsetAbsent(xs[1..], index);
      assert xs == [xs[0]] + xs[1..];
    }
  }

  lemma {:induction false} IndexedAvoids(pieces: seq<string>, start: nat, relation: string)
    requires relation !in Kept(pieces)
    ensures forall e :: e in Indexed(pieces, start) ==> e.relation != relation
    decreases |pieces|
  {
    if pieces != [] {
      var head := if IsFalsy(pieces[0]) then [] else [pieces[0]];
      assert Kept(pieces) == head + Kept(pieces[1..]);
      IndexedAvoids(pieces[1..], start + 1, relation);
    }
  }

  /** The search for an unrequested relation misses, and the unset of key 0 drops the first piece's include. */
  lemma MissSearchUnset(pieces: seq<string>, relation: string)
    requires |pieces| >= 1
    requires relation !in Kept(pieces)
    ensures ArraySearch(Indexed(pieces, 0), relation) == None
    ensures Unset(Indexed(pieces, 0), 0) == Indexed(pieces[1..], 1)
    ensures forall e :: e in Indexed(pieces[1..], 1) ==> e.Plain?
  {
    var incs := Indexed(pieces, 0);
    var rest := Indexed(pieces[1..], 1);
    IndexedAvoids(pieces, 0, relation);
    SearchMisses(incs, relation);
    UnsetAbsent(rest, 0);
    var head: seq<Include> := if IsFalsy(pieces[0]) then [] else [Plain(0, pieces[0])];
    assert incs == head + rest;
    UnsetConcat(head, rest, 0);
  }

  lemma FixMissingRelation(pieces: seq<string>, relation: string, columns: seq<string>)
    requires |pieces| >= 1
    requires relation !in Kept(pieces)
    ensures FixRelationColumns(Indexed(pieces, 0), [RelationColumns(relation, columns)]) ==
            Indexed(pieces[1..], 1) + [Restricted(relation, columns)]
  {
    var incs := Indexed(pieces, 0);
    var rest := Indexed(pieces[1..], 1);
    MissSearchUnset(pieces, relation);
    AssignAppends(rest, relation, columns);
    var fixed := FixRelationColumn(incs, relation, columns);
    assert fixed == rest + [Restricted(relation, columns)];
    var rels := [RelationColumns(relation, columns)];
    assert rels[1..] == [];
    assert FixRelationColumns(incs, rels) == FixRelationColumns(fixed, []);
  }

  /**
   * A relation with listed columns that was not requested as an include
   * makes `array_search` return false, and the include under key 0 is
   * dropped in its place: the first requested include is lost and the
   * unrequested relation is loaded instead.
   */
  lemma MissingRelationDropsKeyZero(pieces: seq<string>, relation: string, columns: seq<string>)
    requires |pieces| >= 1
    requires forall i :: 0 <= i < |pieces| ==> ',' !in pieces[i] && !IsFalsy(pieces[i])
    requires relation !in pieces
    ensures Names(FixRelationColumns(ParseIncludes(Join(',', pieces)), [RelationColumns(relation, columns)])) ==
            pieces[1..] + [relation]
  {
    ParseJoined(pieces);
    FixMissingRelation(pieces, relation, columns);
    NamesAfterMissing(pieces, relation, columns);
  }

  lemma ParseJoined(pieces: seq<string>)
    requires |pieces| >= 1
    requires forall i :: 0 <= i < |pieces| ==> ',' !in pieces[i] && !IsFalsy(pieces[i])
    ensures ParseIncludes(Join(',', pieces)) == Indexed(pieces, 0)
  {
    ExplodeJoin(',', pieces);
  }

  lemma NamesAfterMissing(pieces: seq<string>, relation: string, columns: seq<string>)
    requires |pieces| >= 1
    requires forall i :: 0 <= i < |pieces| ==> !IsFalsy(pieces[i])
    ensures Names(Indexed(pieces[1..], 1) + [Restricted(relation, columns)]) == pieces[1..] + [relation]
  {
    var rest := pieces[1..];
    var indexed := Indexed(rest, 1);
    assert Names(indexed) == rest by {
      IndexedNames(rest, 1);
      assert forall i :: 0 <= i < |rest| ==> rest[i] == pieces[i + 1];
      KeptAll(rest);
    }
    NamesConcat(indexed, [Restricted(relation, columns)]);
    assert Names([Restricted(relation, columns)]) == [relation];
  }
}
