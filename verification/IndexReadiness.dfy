/**
  When the full-text tables count as ready, over every history of trigger operations: which operation can
  make them lose their content, and why none does when a delete clears the links of the children.
 */
module IndexReadiness {
  import opened Options
  import opened SymbolIndex
  import opened SymbolExactness
  import opened SymbolChanges

  /** The tables are consistent, and leave out variables only. */
  ghost predicate Kept(t: Tables) {
    Consistent(t) && forall r :: r in t.rows && !t.rows[r].kind.Variable? ==> r in t.words
  }

  /** What the readiness test asks of the content. */
  predicate HasContent(t: Tables) {
    t.rows == map[] || (t.words.Keys != {} && t.names.Keys != {})
  }

  lemma ExactIsKept(t: Tables)
    requires Exact(t)
    ensures Kept(t)
  {
    hide IsLocal;
    forall r | r in t.rows && !t.rows[r].kind.Variable? ensures r in t.words {
      NonLocalMember(t.rows, r);
      if IsLocal(t.rows, t.rows[r]) { LocalIsVariable(t.rows, t.rows[r]); }
    }
  }

  /** Every operation keeps the tables consistent and leaves out variables only. */
  lemma OperationKeepsKept(t: Tables, op: Operation)
    requires Kept(t) && Possible(t, op)
    ensures Kept(After(t, op))
  {
    hide IsLocal;
    OperationKeepsConsistent(t, op);
    if op.Insert? || op.Update? {
      var rows := t.rows[op.r := op.s];
      if IsLocal(rows, op.s) { LocalIsVariable(rows, op.s); }
    }
  }

  lemma {:induction false} HistoryKeepsKept(t: Tables, ops: seq<Operation>)
    requires Kept(t) && History(t, ops)
    ensures Kept(Outcome(t, ops))
  {
    if ops != [] {
      HistoryKeepsKept(t, ops[..|ops| - 1]);
      OperationKeepsKept(Outcome(t, ops[..|ops| - 1]), ops[|ops| - 1]);
    }
  }

  /** A local variable has a callable around it, which is another row, and is indexed. */
  lemma CallableAround(t: Tables, r: RowId) returns (q: RowId)
    requires Kept(t) && r in t.rows && IsLocal(t.rows, t.rows[r])
    ensures q != r && q in t.words && Reaches(t.rows, t.rows[r].parent, q)
  {
    LocalMeans(t.rows, t.rows[r]);
    q :| Reaches(t.rows, t.rows[r].parent, q) && q in t.rows && Callable(t.rows[q].kind);
  }

  /** The delete that takes the only indexed row and leaves others, none of them updated by it. */
  ghost predicate Empties(t: Tables, op: Operation) {
    && (op.Delete? || (op.Remove? && op.r in t.rows && Children(t.rows, op.r) == {}))
    && t.words.Keys == {op.r} && t.rows.Keys != {op.r}
  }

  lemma InsertHasContent(t: Tables, r: RowId, s: Symbol)
    requires Kept(t) && Possible(t, Insert(r, s))
    ensures HasContent(AfterInsert(t, r, s))
  {
    hide IsLocal, MadeLocal;
    var after := AfterInsert(t, r, s);
    OperationKeepsKept(t, Insert(r, s));
    if IsLocal(after.rows, s) {
      var q := CallableAround(after, r);
      assert q in after.words;
    } else if s.kind.Variable? {
      NothingMadeLocal(after.rows, s);
      assert r in after.words;
    } else {
      assert r in after.words;
    }
  }

  lemma NothingMadeLocal(rows: Rows, s: Symbol)
    requires s.kind.Variable?
    ensures MadeLocal(rows, s) == {}
  {
    MadeLocalByCallable(rows, s);
  }

  lemma UpdateHasContent(t: Tables, r: RowId, s: Symbol)
    requires Kept(t) && Possible(t, Update(r, s))
    ensures HasContent(AfterUpdate(t, r, s))
  {
    hide IsLocal;
    var after := AfterUpdate(t, r, s);
    OperationKeepsKept(t, Update(r, s));
    if IsLocal(after.rows, s) {
      var q := CallableAround(after, r);
      assert q in after.words;
    } else {
      assert r in after.words;
    }
  }

  lemma DeleteHasContentIff(t: Tables, r: RowId)
    requires Kept(t) && HasContent(t) && r in t.rows
    ensures HasContent(AfterDelete(t, r)) <==> !Empties(t, Delete(r))
  {
    var after := AfterDelete(t, r);
    assert after.rows == map[] <==> t.rows.Keys == {r} by {
      assert after.rows.Keys == t.rows.Keys - {r};
      assert after.rows == map[] <==> after.rows.Keys == {};
    }
    assert after.words.Keys == t.words.Keys - {r} && after.names.Keys == after.words.Keys;
    assert t.words.Keys - {r} == {} <==> t.words.Keys == {r};
  }

  lemma ChildlessRemove(t: Tables, r: RowId)
    requires r in t.rows && Children(t.rows, r) == {}
    ensures AfterRemove(t, r) == AfterDelete(t, r)
  {
    var after := AfterRemove(t, r);
    assert after.words == t.words - {r} && after.names == t.names - {r} && after.rows == t.rows - {r};
  }

  lemma RemoveHasContentIff(t: Tables, r: RowId)
    requires Kept(t) && HasContent(t) && r in t.rows
    ensures HasContent(AfterRemove(t, r)) <==> !Empties(t, Remove(r))
  {
    var after := AfterRemove(t, r);
    if Children(t.rows, r) != {} {
      var c :| c in Children(t.rows, r);
      assert c in after.words && c in after.names;
    } else {
      ChildlessRemove(t, r);
      DeleteHasContentIff(t, r);
    }
  }

  /** Ready tables lose their content by one operation only: the delete that empties them. */
  lemma LosesContentIff(t: Tables, op: Operation)
    requires Kept(t) && HasContent(t) && Possible(t, op)
    ensures HasContent(After(t, op)) <==> !Empties(t, op)
  {
    match op
    case Insert(r, s) => InsertHasContent(t, r, s);
    case Update(r, s) => UpdateHasContent(t, r, s);
    case Delete(r) => DeleteHasContentIff(t, r);
    case Remove(r) => RemoveHasContentIff(t, r);
  }

  /** An operation that brings lost content back. */
  ghost predicate Regains(t: Tables, op: Operation) {
    op.Insert? || op.Update? || t.rows.Keys == {op.r} || (op.Remove? && op.r in t.rows && Children(t.rows, op.r) != {})
  }

  /** Once lost, content comes back by any insert or update, and by the delete of the last row or of a parent. */
  lemma RegainsContentIff(t: Tables, op: Operation)
    requires Kept(t) && !HasContent(t) && Possible(t, op)
    ensures HasContent(After(t, op)) <==> Regains(t, op)
  {
    match op
    case Insert(r, s) => InsertHasContent(t, r, s);
    case Update(r, s) => UpdateHasContent(t, r, s);
    case Delete(r) => EmptyAfterDelete(t, r);
    case Remove(r) =>
      var after := AfterRemove(t, r);
      if Children(t.rows, r) != {} {
        var c :| c in Children(t.rows, r);
        assert c in after.words && c in after.names;
        assert c in t.rows.Keys && c != r;
      } else {
        ChildlessRemove(t, r);
        EmptyAfterDelete(t, r);
      }
  }

  lemma EmptyAfterDelete(t: Tables, r: RowId)
    requires Kept(t) && !HasContent(t) && r in t.rows
    ensures HasContent(AfterDelete(t, r)) <==> t.rows.Keys == {r}
  {
    var after := AfterDelete(t, r);
    assert after.rows.Keys == t.rows.Keys - {r};
    assert after.rows == map[] <==> after.rows.Keys == {};
    assert after.words.Keys == {};
  }

  /** One operation of the list empties the tables, and none after it brings content back. */
  ghost predicate EmptiedBy(t: Tables, ops: seq<Operation>) {
    exists i :: EmptiedAt(t, ops, i)
  }

  ghost predicate EmptiedAt(t: Tables, ops: seq<Operation>, i: int) {
    && 0 <= i < |ops| && Empties(Outcome(t, ops[..i]), ops[i])
    && forall j :: i < j < |ops| ==> !Regains(Outcome(t, ops[..j]), ops[j])
  }

  lemma EmptiedBefore(t: Tables, ops: seq<Operation>, i: int)
    requires ops != [] && i < |ops| - 1
    ensures EmptiedAt(t, ops, i) <==>
              EmptiedAt(t, ops[..|ops| - 1], i) && !Regains(Outcome(t, ops[..|ops| - 1]), ops[|ops| - 1])
  {
    hide Empties, Regains, Outcome;
    var n := |ops| - 1;
    assert forall j :: 0 <= j <= n ==> ops[..n][..j] == ops[..j];
    assert forall j :: 0 <= j < n ==> ops[..n][j] == ops[j];
    if 0 <= i { EmptiedBeforeLast(t, ops, i); }
  }

  lemma EmptiedBeforeLast(t: Tables, ops: seq<Operation>, i: int)
    requires ops != [] && 0 <= i < |ops| - 1
    requires forall j :: 0 <= j < |ops| ==> ops[..|ops| - 1][..j] == ops[..j]
    ensures EmptiedAt(t, ops, i) <==>
              EmptiedAt(t, ops[..|ops| - 1], i) && !Regains(Outcome(t, ops[..|ops| - 1]), ops[|ops| - 1])
  {
    hide Empties, Regains, Outcome;
    var n := |ops| - 1;
    forall j | 0 <= j < n
      ensures Regains(Outcome(t, ops[..n][..j]), ops[..n][j]) <==> Regains(Outcome(t, ops[..j]), ops[j]) {}
    assert EmptiedAt(t, ops, i) ==> !Regains(Outcome(t, ops[..n]), ops[n]);
  }

  lemma EmptiedByLast(t: Tables, ops: seq<Operation>)
    requires ops != []
    ensures var front, op := ops[..|ops| - 1], ops[|ops| - 1];
            EmptiedBy(t, ops) <==>
                Empties(Outcome(t, front), op) || (EmptiedBy(t, front) && !Regains(Outcome(t, front), op))
  {
    hide Empties, Regains, Outcome;
    var n := |ops| - 1;
    forall i | i < n
      ensures EmptiedAt(t, ops, i) <==> EmptiedAt(t, ops[..n], i) && !Regains(Outcome(t, ops[..n]), ops[n])
    {
      EmptiedBefore(t, ops, i);
    }
    assert EmptiedAt(t, ops, n) <==> Empties(Outcome(t, ops[..n]), ops[n]);
    if EmptiedBy(t, ops[..n]) {
      var i :| EmptiedAt(t, ops[..n], i);
    }
  }

  /** Over a whole transaction: ready tables end without content iff it empties them and brings nothing back. */
  lemma {:induction false} HistoryLosesContentIff(t: Tables, ops: seq<Operation>)
    requires Kept(t) && HasContent(t) && History(t, ops)
    ensures HasContent(Outcome(t, ops)) <==> !EmptiedBy(t, ops)
  {
    hide Empties, Regains, HasContent, Kept, EmptiedBy, After, Possible;
    if ops == [] {
      NothingEmptied(t);
    } else {
      var front, op := ops[..|ops| - 1], ops[|ops| - 1];
      HistoryLosesContentIff(t, front);
      HistoryKeepsKept(t, front);
      EmptiedByLast(t, ops);
      if HasContent(Outcome(t, front)) {
        LosesContentIff(Outcome(t, front), op);
      } else {
        RegainsContentIff(Outcome(t, front), op);
        EmptyIsNotEmptied(Outcome(t, front), op);
      }
    }
  }

  lemma NothingEmptied(t: Tables)
    ensures !EmptiedBy(t, [])
  {}

  lemma EmptyIsNotEmptied(t: Tables, op: Operation)
    requires Kept(t) && !HasContent(t)
    ensures !Empties(t, op)
  {}

  /** A function, its local, and the delete of the function: what is left is not indexed, and not local. */
  lemma DeletedFunctionEmpties()
    ensures var f := Symbol("f", "a.rs", "f", Function, None, "", "", "rust", NO_FACTS);
            var x := Symbol("x", "a.rs", "x", Variable, Some("f"), "", "", "rust", NO_FACTS);
            var t := AfterInsert(AfterInsert(EMPTY, RowId(1), f), RowId(2), x);
            Exact(t) && Empties(t, Delete(RowId(1))) && !HasContent(After(t, Delete(RowId(1))))
  {
    hide IsLocal, MadeLocal;
    var f := Symbol("f", "a.rs", "f", Function, None, "", "", "rust", NO_FACTS);
    var x := Symbol("x", "a.rs", "x", Variable, Some("f"), "", "", "rust", NO_FACTS);
    var one := AfterInsert(EMPTY, RowId(1), f);
    NotLocalFunction(one.rows, f);
    FunctionMakesNothingLocal(one.rows, f);
    assert one == Tables(map[RowId(1) := f], map[RowId(1) := WordsOf(f)], map[RowId(1) := f.name]);
    var two := AfterInsert(one, RowId(2), x);
    LocalInFunction(two.rows, x, RowId(1));
    NothingMadeLocal(two.rows, x);
    NotLocalFunction(two.rows, f);
    forall r | r in two.rows ensures r in two.words <==> r in NonLocal(two.rows) { NonLocalMember(two.rows, r); }
    assert two.words.Keys == {RowId(1)};
    assert RowId(2) in two.rows.Keys;
    assert RowId(2) in AfterDelete(two, RowId(1)).rows && AfterDelete(two, RowId(1)).words.Keys == {};
  }

  lemma NotLocalFunction(rows: Rows, s: Symbol)
    requires s.kind.Function?
    ensures !IsLocal(rows, s)
  {}

  lemma FunctionMakesNothingLocal(rows: Rows, s: Symbol)
    requires forall r :: r in rows ==> !rows[r].kind.Variable?
    ensures MadeLocal(rows, s) == {}
  {}

  lemma LocalInFunction(rows: Rows, s: Symbol, f: RowId)
    requires s.kind.Variable? && f in Anchors(rows, s.parent) && Callable(rows[f].kind)
    ensures IsLocal(rows, s)
  {
    assert Chain(rows, s.parent, [f]);
    assert Reaches(rows, s.parent, f);
    LocalMeans(rows, s);
  }

  // With cleared links.

  /** From every row left out, the parents lead to an indexed row. */
  ghost predicate Grounded(t: Tables) {
    && Kept(t) && UniqueIds(t.rows)
    && forall r :: r in t.rows && r !in t.words ==> Leads(t, t.rows[r].parent)
  }

  ghost predicate Leads(t: Tables, parent: Option<string>) {
    exists q :: Reaches(t.rows, parent, q) && q in t.words
  }

  lemma {:induction false} ReachedIsRow(rows: Rows, parent: Option<string>, q: RowId)
    requires Reaches(rows, parent, q)
    ensures q in rows
  {
    var chain :| Chain(rows, parent, chain) && chain[|chain| - 1] == q;
    ChainMember(rows, parent, chain, |chain| - 1);
  }

  /** Grounded tables are never without content. */
  lemma GroundedHasContent(t: Tables)
    requires Grounded(t)
    ensures HasContent(t)
  {
    if t.rows != map[] {
      var r :| r in t.rows;
      if r !in t.words { assert Leads(t, t.rows[r].parent); }
      assert t.words.Keys != {};
    }
  }

  lemma LocalLeads(t: Tables, r: RowId)
    requires Kept(t) && r in t.rows && IsLocal(t.rows, t.rows[r])
    ensures Leads(t, t.rows[r].parent)
  {
    var q := CallableAround(t, r);
  }

  lemma ExactIsGrounded(t: Tables)
    requires Exact(t) && UniqueIds(t.rows)
    ensures Grounded(t)
  {
    hide IsLocal;
    ExactIsKept(t);
    forall r | r in t.rows && r !in t.words ensures Leads(t, t.rows[r].parent) {
      NonLocalMember(t.rows, r);
      LocalLeads(t, r);
    }
  }

  /** A variable reached leads on to wherever its own parents lead. */
  lemma LeadsThrough(t: Tables, parent: Option<string>, a: RowId)
    requires Reaches(t.rows, parent, a) && a in t.rows && t.rows[a].kind.Variable? && Leads(t, t.rows[a].parent)
    ensures Leads(t, parent)
  {
    var q :| Reaches(t.rows, t.rows[a].parent, q) && q in t.words;
    var chain :| Chain(t.rows, t.rows[a].parent, chain) && chain[|chain| - 1] == q;
    ReachesThrough(t.rows, parent, a, chain);
  }

  /** A row that is reached is indexed, or a local variable, and then leads on. */
  lemma ReachedLeads(t: Tables, parent: Option<string>, a: RowId)
    requires Kept(t) && Reaches(t.rows, parent, a) && a in t.rows && (a in t.words || IsLocal(t.rows, t.rows[a]))
    ensures Leads(t, parent)
  {
    hide IsLocal;
    if a !in t.words {
      LocalIsVariable(t.rows, t.rows[a]);
      LocalLeads(t, a);
      LeadsThrough(t, parent, a);
    }
  }

  lemma InsertKeepsGrounded(t: Tables, n: RowId, s: Symbol)
    requires Grounded(t) && Possible(t, Insert(n, s))
    ensures Grounded(AfterInsert(t, n, s))
  {
    hide IsLocal, MadeLocal;
    var after := AfterInsert(t, n, s);
    OperationKeepsKept(t, Insert(n, s));
    PossibleKeepsUnique(t, n, s);
    forall r | r in after.rows && r !in after.words ensures Leads(after, after.rows[r].parent) {
      if r == n || r in t.words {
        UnindexedByInsert(t, n, s, r);
        LocalLeads(after, r);
      } else {
        assert Leads(t, t.rows[r].parent);
        var q :| Reaches(t.rows, t.rows[r].parent, q) && q in t.words;
        var chain :| Chain(t.rows, t.rows[r].parent, chain) && chain[|chain| - 1] == q;
        ChainPersists(t.rows, n, s, t.rows[r].parent, chain);
        if q !in after.words { UnindexedByInsert(t, n, s, q); }
        ReachedLeads(after, t.rows[r].parent, q);
      }
    }
  }

  lemma UnindexedByInsert(t: Tables, n: RowId, s: Symbol, r: RowId)
    requires Consistent(t) && n !in t.rows && (r == n || r in t.words) && r !in AfterInsert(t, n, s).words
    ensures var rows := t.rows[n := s]; r in rows && IsLocal(rows, rows[r])
  {
    hide IsLocal;
  }

  /** A chain is kept by an update as far as it does not reach the updated row. */
  lemma {:induction false} ChainToUpdated(rows: Rows, r: RowId, s: Symbol, parent: Option<string>, chain: seq<RowId>)
    requires r in rows && s.id == rows[r].id && Chain(rows, parent, chain)
    ensures Chain(rows[r := s], parent, chain) || Reaches(rows[r := s], parent, r)
  {
    if |chain| > 1 {
      var front := chain[..|chain| - 1];
      ChainToUpdated(rows, r, s, parent, front);
      if front[|front| - 1] == r && Chain(rows[r := s], parent, front) { assert Reaches(rows[r := s], parent, r); }
    }
  }

  lemma OtherLeadsAfterUpdate(t: Tables, r: RowId, s: Symbol, c: RowId)
    requires Grounded(t) && Possible(t, Update(r, s)) && s.id == t.rows[r].id && Kept(AfterUpdate(t, r, s))
    requires c in t.rows && c != r && c !in t.words
    ensures Leads(AfterUpdate(t, r, s), t.rows[c].parent)
  {
    hide IsLocal, Kept;
    var after, parent := AfterUpdate(t, r, s), t.rows[c].parent;
    assert Leads(t, parent);
    var q :| Reaches(t.rows, parent, q) && q in t.words;
    var chain :| Chain(t.rows, parent, chain) && chain[|chain| - 1] == q;
    ChainToUpdated(t.rows, r, s, parent, chain);
    if Reaches(after.rows, parent, r) {
      ReachedLeads(after, parent, r);
    } else {
      assert Reaches(after.rows, parent, q);
      ReachedIsRow(after.rows, parent, q);
      ReachedLeads(after, parent, q);
    }
  }

  lemma UniqueAfterUpdate(t: Tables, r: RowId, s: Symbol)
    requires UniqueIds(t.rows) && Possible(t, Update(r, s))
    ensures UniqueIds(t.rows[r := s])
  {}

  lemma UpdateKeepsGrounded(t: Tables, r: RowId, s: Symbol)
    requires Grounded(t) && Possible(t, Update(r, s)) && s.id == t.rows[r].id
    ensures Grounded(AfterUpdate(t, r, s))
  {
    hide IsLocal, Leads, Kept, UniqueIds;
    var after := AfterUpdate(t, r, s);
    OperationKeepsKept(t, Update(r, s));
    UniqueAfterUpdate(t, r, s);
    forall c | c in after.rows && c !in after.words ensures Leads(after, after.rows[c].parent) {
      if c == r { LocalLeads(after, r); } else { OtherLeadsAfterUpdate(t, r, s, c); }
    }
  }

  ghost predicate ReachesChild(rows: Rows, r: RowId, parent: Option<string>)
    requires r in rows
  {
    exists c :: c in Children(rows, r) && Reaches(Orphaned(rows, r), parent, c)
  }

  lemma LinkKeptUnlessChild(rows: Rows, r: RowId, a: RowId, b: RowId)
    requires UniqueIds(rows) && r in rows && Encloses(rows, a, b) && a != r
    ensures a in Children(rows, r) || Encloses(Orphaned(rows, r), a, b)
  {}

  /** A chain is kept by a delete that clears links, up to the first child of the deleted row. */
  lemma {:induction false} ChainToChild(rows: Rows, r: RowId, parent: Option<string>, chain: seq<RowId>)
    requires UniqueIds(rows) && r in rows && Chain(rows, parent, chain) && parent != Some(rows[r].id)
    ensures Chain(Orphaned(rows, r), parent, chain) || ReachesChild(rows, r, parent)
  {
    hide Orphaned, Encloses;
    if |chain| > 1 {
      var front := chain[..|chain| - 1];
      var a := front[|front| - 1];
      ChainToChild(rows, r, parent, front);
      if Chain(Orphaned(rows, r), parent, front) {
        ChainMember(Orphaned(rows, r), parent, front, |front| - 1);
        OrphanedKeys(rows, r);
        assert Reaches(Orphaned(rows, r), parent, a);
        LinkKeptUnlessChild(rows, r, a, chain[|chain| - 1]);
      }
    } else {
      AnchorKept(rows, r, parent, chain[0]);
    }
  }

  lemma OrphanedKeys(rows: Rows, r: RowId)
    requires r in rows
    ensures r !in Orphaned(rows, r)
  {}

  lemma AnchorKept(rows: Rows, r: RowId, parent: Option<string>, a: RowId)
    requires r in rows && a in Anchors(rows, parent) && parent != Some(rows[r].id)
    ensures a in Anchors(Orphaned(rows, r), parent)
  {}

  lemma LeadsAfterRemove(t: Tables, r: RowId, c: RowId)
    requires Grounded(t) && r in t.rows && c in t.rows && c != r && c !in t.words && c !in Children(t.rows, r)
    ensures Leads(AfterRemove(t, r), t.rows[c].parent)
  {
    hide Orphaned, Kept, UniqueIds;
    var after, parent := AfterRemove(t, r), t.rows[c].parent;
    KeptIndexesRows(t);
    RemovedRows(t, r);
    assert Leads(t, parent);
    var q :| Reaches(t.rows, parent, q) && q in t.words;
    var chain :| Chain(t.rows, parent, chain) && chain[|chain| - 1] == q;
    ChainToChild(t.rows, r, parent, chain);
    if Chain(after.rows, parent, chain) {
      assert Reaches(after.rows, parent, q);
      ReachedIsRow(after.rows, parent, q);
    } else {
      assert ReachesChild(t.rows, r, parent);
      var child :| child in Children(t.rows, r) && Reaches(after.rows, parent, child);
    }
  }

  lemma RemoveKeepsGrounded(t: Tables, r: RowId)
    requires Grounded(t) && r in t.rows
    ensures Grounded(AfterRemove(t, r))
  {
    hide Leads, Kept, UniqueIds, AfterRemove;
    var after := AfterRemove(t, r);
    OperationKeepsKept(t, Remove(r));
    OrphanedKeepsUnique(t.rows, r);
    KeptIndexesRows(t);
    RemovedRows(t, r);
    forall c | c in after.rows && c !in after.words ensures Leads(after, after.rows[c].parent) {
      LeadsAfterRemove(t, r, c);
    }
  }

  lemma KeptIndexesRows(t: Tables)
    requires Kept(t)
    ensures t.words.Keys <= t.rows.Keys
  {}

  lemma OrphanedKeepsUnique(rows: Rows, r: RowId)
    requires UniqueIds(rows) && r in rows
    ensures UniqueIds(Orphaned(rows, r))
  {}

  /** No row is deleted with its children's links left standing, and no id is changed. */
  predicate ClearsLinks(t: Tables, op: Operation) {
    match op
    case Insert(_, _) => true
    case Delete(_) => false
    case Update(r, s) => r in t.rows && s.id == t.rows[r].id
    case Remove(_) => true
  }

  lemma ClearingKeepsGrounded(t: Tables, op: Operation)
    requires Grounded(t) && Possible(t, op) && ClearsLinks(t, op)
    ensures Grounded(After(t, op))
  {
    match op
    case Insert(r, s) => InsertKeepsGrounded(t, r, s);
    case Update(r, s) => UpdateKeepsGrounded(t, r, s);
    case Remove(r) => RemoveKeepsGrounded(t, r);
  }

  ghost predicate ClearsLinksThroughout(t: Tables, ops: seq<Operation>) {
    ops == [] || (ClearsLinksThroughout(t, ops[..|ops| - 1]) &&
        ClearsLinks(Outcome(t, ops[..|ops| - 1]), ops[|ops| - 1]))
  }

  /** Under `ON DELETE SET NULL` no history of operations ever takes the content away. */
  lemma {:induction false} ClearingHistoryHasContent(t: Tables, ops: seq<Operation>)
    requires Grounded(t) && History(t, ops) && ClearsLinksThroughout(t, ops)
    ensures Grounded(Outcome(t, ops)) && HasContent(Outcome(t, ops))
  {
    if ops != [] {
      ClearingHistoryHasContent(t, ops[..|ops| - 1]);
      ClearingKeepsGrounded(Outcome(t, ops[..|ops| - 1]), ops[|ops| - 1]);
    }
    GroundedHasContent(Outcome(t, ops));
  }
}
