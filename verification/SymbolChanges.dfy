/** When a delete, an update, or a delete under `ON DELETE SET NULL` keeps the full-text tables exact. */
module SymbolChanges {
  import opened Options
  import opened SymbolIndex
  import opened SymbolExactness

  /** A delete keeps the tables exact iff no other row is local by the deleted one. */
  lemma DeleteKeepsExactIff(t: Tables, r: RowId)
    requires Exact(t) && UniqueIds(t.rows) && r in t.rows
    ensures Exact(AfterDelete(t, r)) <==> forall c :: !LocalBy(t.rows, c, r)
  {
    hide IsLocal, LocalBy;
    OperationKeepsConsistent(t, Delete(r));
    var rest := t.rows - {r};
    forall c | c in rest ensures (c in AfterDelete(t, r).words <==> c in NonLocal(rest)) <==> !LocalBy(t.rows, c, r) {
      LocalThrough(t.rows, c, r);
      NonLocalMember(t.rows, c);
      NonLocalMember(rest, c);
    }
    forall c | LocalBy(t.rows, c, r) ensures c in rest { LocalByMember(t.rows, c, r); }
  }

  lemma LocalByMember(rows: Rows, c: RowId, r: RowId)
    requires LocalBy(rows, c, r)
    ensures c in rows && r in rows && c != r
  {}

  /** An update keeps the tables exact iff the same other rows are local by the updated one before and after. */
  lemma UpdateKeepsExactIff(t: Tables, r: RowId, s: Symbol)
    requires Exact(t) && UniqueIds(t.rows) && Possible(t, Update(r, s))
    ensures Exact(AfterUpdate(t, r, s)) <==> forall c :: LocalBy(t.rows, c, r) <==> LocalBy(t.rows[r := s], c, r)
  {
    hide IsLocal, LocalBy, AfterUpdate, Consistent, RightAt;
    var after := AfterUpdate(t, r, s);
    OperationKeepsConsistent(t, Update(r, s));
    UpdatedRow(t, r, s);
    ExactByRow(after);
    forall c | c in t.rows && c != r
      ensures RightAt(after, c) <==> (LocalBy(t.rows, c, r) <==> LocalBy(after.rows, c, r))
    {
      OtherRowRight(t, r, s, c);
    }
    forall c | c !in t.rows || c == r ensures !LocalBy(t.rows, c, r) && !LocalBy(after.rows, c, r) {
      if LocalBy(t.rows, c, r) { LocalByMember(t.rows, c, r); }
      if LocalBy(after.rows, c, r) { LocalByMember(after.rows, c, r); }
    }
  }

  lemma UpdatedRow(t: Tables, r: RowId, s: Symbol)
    requires r in t.rows
    ensures var after := AfterUpdate(t, r, s);
            && after.rows == t.rows[r := s]
            && RightAt(after, r)
            && forall c :: c != r ==> (c in after.words <==> c in t.words)
  {
    hide IsLocal;
  }

  lemma OtherRowRight(t: Tables, r: RowId, s: Symbol, c: RowId)
    requires Exact(t) && UniqueIds(t.rows) && Possible(t, Update(r, s)) && c in t.rows && c != r
    ensures RightAt(AfterUpdate(t, r, s), c) <==> (LocalBy(t.rows, c, r) <==> LocalBy(t.rows[r := s], c, r))
  {
    hide IsLocal, LocalBy, AfterUpdate, NonLocal;
    UpdatedRow(t, r, s);
    OtherRowOfUpdate(t.rows, r, s, c);
    NonLocalMember(t.rows, c);
    NonLocalMember(t.rows[r := s], c);
  }

  lemma OtherRowOfUpdate(rows: Rows, r: RowId, s: Symbol, c: RowId)
    requires UniqueIds(rows) && UniqueIds(rows[r := s]) && r in rows && c in rows && c != r
    ensures (IsLocal(rows, rows[c]) <==> IsLocal(rows[r := s], rows[c]))
       <==> (LocalBy(rows, c, r) <==> LocalBy(rows[r := s], c, r))
  {
    hide IsLocal, LocalBy;
    assert rows - {r} == rows[r := s] - {r};
    LocalThrough(rows, c, r);
    LocalThrough(rows[r := s], c, r);
  }

  // Deletes that clear the links of the children.

  lemma LinksWithout(rows: Rows, r: RowId, parent: Option<string>)
    requires UniqueIds(rows) && r in rows
    ensures Anchors(Orphaned(rows, r), parent) == Anchors(rows - {r}, parent)
    ensures forall a, b :: Encloses(Orphaned(rows, r), a, b) <==> Encloses(rows - {r}, a, b)
  {}

  /** Clearing links that name nothing changes no chain. */
  lemma {:induction false} ChainWithoutLinks(rows: Rows, r: RowId, parent: Option<string>, chain: seq<RowId>)
    requires UniqueIds(rows) && r in rows
    ensures Chain(Orphaned(rows, r), parent, chain) <==> Chain(rows - {r}, parent, chain)
  {
    hide Encloses, Anchors, Orphaned, UniqueIds;
    LinksWithout(rows, r, parent);
    if |chain| > 1 { ChainWithoutLinks(rows, r, parent, chain[..|chain| - 1]); }
  }

  lemma LocalWithoutLinks(rows: Rows, r: RowId, s: Symbol)
    requires UniqueIds(rows) && r in rows
    ensures IsLocal(Orphaned(rows, r), s) <==> IsLocal(rows - {r}, s)
  {
    var cleared, rest := Orphaned(rows, r), rows - {r};
    LocalMeans(cleared, s);
    LocalMeans(rest, s);
    forall q ensures Reaches(cleared, s.parent, q) <==> Reaches(rest, s.parent, q) {
      forall chain ensures Chain(cleared, s.parent, chain) <==> Chain(rest, s.parent, chain) {
        ChainWithoutLinks(rows, r, s.parent, chain);
      }
    }
  }

  lemma NoParentIsNotLocal(rows: Rows, s: Symbol)
    requires s.parent.None?
    ensures !IsLocal(rows, s)
  {
    NoParentNotLocal(rows, s);
  }

  /** A child is not local afterwards; any other row is what it was, unless it was local by the deleted one. */
  lemma OtherRowOfRemove(rows: Rows, r: RowId, c: RowId)
    requires UniqueIds(rows) && r in rows && c in rows && c != r
    ensures c in Children(rows, r) ==> !IsLocal(Orphaned(rows, r), Orphaned(rows, r)[c])
    ensures c !in Children(rows, r) ==>
              ((IsLocal(rows, rows[c]) <==> IsLocal(Orphaned(rows, r), Orphaned(rows, r)[c])) <==> !LocalBy(rows, c, r))
  {
    hide IsLocal, LocalBy;
    if c in Children(rows, r) {
      NoParentIsNotLocal(Orphaned(rows, r), Orphaned(rows, r)[c]);
    } else {
      LocalThrough(rows, c, r);
      LocalWithoutLinks(rows, r, rows[c]);
    }
  }

  /** Such a delete keeps the tables exact iff only children of the deleted row were local by it. */
  lemma RemoveKeepsExactIff(t: Tables, r: RowId)
    requires Exact(t) && UniqueIds(t.rows) && r in t.rows
    ensures Exact(AfterRemove(t, r)) <==> forall c :: LocalBy(t.rows, c, r) ==> c in Children(t.rows, r)
  {
    hide IsLocal, LocalBy, Orphaned;
    var after := AfterRemove(t, r);
    OperationKeepsConsistent(t, Remove(r));
    RemovedRows(t, r);
    forall c | c in after.rows
      ensures (c in after.words <==> c in NonLocal(after.rows)) <==>
          (LocalBy(t.rows, c, r) ==> c in Children(t.rows, r))
    {
      OtherRowOfRemove(t.rows, r, c);
      NonLocalMember(t.rows, c);
      NonLocalMember(after.rows, c);
    }
    forall c | LocalBy(t.rows, c, r) ensures c in after.rows { LocalByMember(t.rows, c, r); }
  }

  lemma RemovedRows(t: Tables, r: RowId)
    requires r in t.rows && t.words.Keys <= t.rows.Keys
    ensures var after := AfterRemove(t, r);
            && after.rows == Orphaned(t.rows, r)
            && (forall c :: c in after.rows <==> c in t.rows && c != r)
            && forall c :: c in after.words <==> (c in t.words && c != r) || c in Children(t.rows, r)
  {}

  // What goes wrong. A function, a closure in it, and a variable in the closure.

  const FUNCTION := Symbol("f", "a.rs", "f", Function, None, "", "", "rust", NO_FACTS)
  const CLOSURE := Symbol("c", "a.rs", "c", Variable, Some("f"), "", "", "rust", NO_FACTS)
  const INNER := Symbol("x", "a.rs", "x", Variable, Some("c"), "", "", "rust", NO_FACTS)

  function Nested(closure: Symbol): Rows {
    map[RowId(1) := FUNCTION, RowId(2) := closure, RowId(3) := INNER]
  }

  lemma InnerIsLocalBy()
    ensures LocalBy(Nested(CLOSURE), RowId(3), RowId(1)) && LocalBy(Nested(CLOSURE), RowId(3), RowId(2))
  {
    hide IsLocal;
    var rows := Nested(CLOSURE);
    assert rows[RowId(3)] == INNER && rows[RowId(2)] == CLOSURE && rows[RowId(1)] == FUNCTION;
    assert Chain(rows, INNER.parent, [RowId(2)]);
    assert [RowId(2), RowId(1)][..1] == [RowId(2)];
    assert Chain(rows, INNER.parent, [RowId(2), RowId(1)]);
    assert Reaches(rows, INNER.parent, RowId(2)) && Reaches(rows, INNER.parent, RowId(1));
    assert Chain(rows, CLOSURE.parent, [RowId(1)]);
    assert Reaches(rows, CLOSURE.parent, RowId(1));
    NestedInCallableIsLocal(rows, RowId(1), CLOSURE);
  }

  /** The delete of the function clears the link of the closure; the variable is local no longer, and not indexed. */
  lemma RemovedFunctionLosesASymbol()
    ensures var t := Rebuilt(Nested(CLOSURE));
            && Exact(t) && UniqueIds(t.rows) && Possible(t, Remove(RowId(1)))
            && !Exact(After(t, Remove(RowId(1))))
  {
    hide IsLocal, AfterRemove, UniqueIds, LocalBy;
    var rows := Nested(CLOSURE);
    NestedUnique(CLOSURE);
    RebuiltIsExact(rows);
    RemoveKeepsExactIff(Rebuilt(rows), RowId(1));
    InnerIsLocalBy();
    assert rows[RowId(3)] == INNER && INNER.parent != Some(rows[RowId(1)].id);
  }

  lemma InnerIsNotLocalBy()
    ensures !LocalBy(Nested(CLOSURE.(parent := None)), RowId(3), RowId(2))
  {
    hide IsLocal, Reaches;
    NoParentIsNotLocal(Nested(CLOSURE.(parent := None)), CLOSURE.(parent := None));
  }

  lemma NestedUnique(closure: Symbol)
    requires closure.id == "c"
    ensures UniqueIds(Nested(closure))
  {
    assert "f"[0] == 'f' && "c"[0] == 'c' && "x"[0] == 'x';
    var rows := Nested(closure);
    assert rows[RowId(1)].id == "f" && rows[RowId(2)].id == "c" && rows[RowId(3)].id == "x";
  }

  lemma NestedReplaced(a: Symbol, b: Symbol)
    ensures RowId(2) in Nested(a) && Nested(a)[RowId(2)] == a && Nested(a)[RowId(2) := b] == Nested(b)
  {}

  lemma PossibleUpdate(t: Tables, r: RowId, s: Symbol)
    requires UniqueIds(t.rows) && r in t.rows && s.id == t.rows[r].id
    ensures Possible(t, Update(r, s))
  {}

  /** An update moves the closure into the function; the variable in it is local now, and stays indexed. */
  lemma MovedClosureLeavesALocal()
    ensures var t := Rebuilt(Nested(CLOSURE.(parent := None)));
            && Exact(t) && UniqueIds(t.rows) && Possible(t, Update(RowId(2), CLOSURE))
            && !Exact(After(t, Update(RowId(2), CLOSURE)))
  {
    hide AfterUpdate, LocalBy, Exact, Rebuilt, Possible, UniqueIds, Nested;
    var t := Rebuilt(Nested(CLOSURE.(parent := None)));
    RebuiltIsExact(Nested(CLOSURE.(parent := None)));
    RebuiltRows(Nested(CLOSURE.(parent := None)));
    NestedUnique(CLOSURE.(parent := None));
    NestedReplaced(CLOSURE.(parent := None), CLOSURE);
    PossibleUpdate(t, RowId(2), CLOSURE);
    UpdateKeepsExactIff(t, RowId(2), CLOSURE);
    InnerIsLocalBy();
    InnerIsNotLocalBy();
  }

  lemma RebuiltRows(rows: Rows)
    ensures Rebuilt(rows).rows == rows
  {}
}
