/** The symbols table with its triggers, as a store whose methods change the tables in place. */
module SymbolStore {
  import opened Options
  import opened SymbolIndex
  import opened SymbolExactness
  import opened SymbolChanges

  /**
    A full-text table that keeps no copy of its content. Its delete command must be given the values
    that were indexed; with any others it would leave terms behind.
   */
  class FtsTable<V(==)> {
    var docs: map<RowId, V>

    constructor ()
      ensures docs == map[]
    {
      docs := map[];
    }

    method Add(r: RowId, value: V)
      requires r !in docs
      modifies this
      ensures docs == old(docs)[r := value]
    {
      docs := docs[r := value];
    }

    method DeleteCommand(r: RowId, value: V)
      requires r in docs && docs[r] == value
      modifies this
      ensures docs == old(docs) - {r}
    {
      docs := docs - {r};
    }
  }

  class Store {
    var rows: Rows
    const words: FtsTable<Words>
    const names: FtsTable<string>

    ghost function Content(): Tables
      reads this, words, names
    {
      Tables(rows, words.docs, names.docs)
    }

    ghost predicate Valid()
      reads this, words, names
    {
      words as object != names as object && Consistent(Content())
    }

    constructor ()
      ensures Valid() && Content() == EMPTY && fresh(words) && fresh(names)
    {
      rows := map[];
      words := new FtsTable();
      names := new FtsTable();
    }

    /** The insert trigger. */
    method Insert(r: RowId, s: Symbol)
      requires Valid() && Possible(Content(), Operation.Insert(r, s))
      modifies this, words, names
      ensures Valid() && Content() == After(old(Content()), Operation.Insert(r, s))
    {
      hide IsLocal, MadeLocal;
      ghost var before := Content();
      OperationKeepsConsistent(before, Operation.Insert(r, s));
      rows := rows[r := s];
      if !IsLocal(rows, s) {
        words.Add(r, WordsOf(s));
        names.Add(r, s.name);
      }
      MadeLocalAreOld(before.rows, r, s);
      var locals := MadeLocal(rows, s);
      DropWords(locals);
      DropNames(locals);
    }

    /** Takes rows out of the words table, where they are indexed. */
    method DropWords(locals: set<RowId>)
      requires words as object != names as object
      requires locals <= rows.Keys && forall c :: c in locals && c in words.docs ==> words.docs[c] == WordsOf(rows[c])
      modifies words
      ensures words.docs == old(words.docs) - locals
    {
      var rest := locals;
      while rest != {}
        invariant rest <= locals && words.docs == old(words.docs) - (locals - rest)
        decreases rest
      {
        var c :| c in rest;
        rest := rest - {c};
        if c in words.docs {
          words.DeleteCommand(c, WordsOf(rows[c]));
        }
      }
    }

    /** Takes rows out of the names table, where they are indexed. */
    method DropNames(locals: set<RowId>)
      requires words as object != names as object
      requires locals <= rows.Keys && forall c :: c in locals && c in names.docs ==> names.docs[c] == rows[c].name
      modifies names
      ensures names.docs == old(names.docs) - locals
    {
      var rest := locals;
      while rest != {}
        invariant rest <= locals && names.docs == old(names.docs) - (locals - rest)
        decreases rest
      {
        var c :| c in rest;
        rest := rest - {c};
        if c in names.docs {
          names.DeleteCommand(c, rows[c].name);
        }
      }
    }

    /** Takes one row out of both tables, where it is indexed, with the values it had. */
    method Unindex(r: RowId, was: Symbol)
      requires words as object != names as object
      requires (r in words.docs ==> words.docs[r] == WordsOf(was)) && (r in names.docs ==> names.docs[r] == was.name)
      modifies words, names
      ensures words.docs == old(words.docs) - {r} && names.docs == old(names.docs) - {r}
    {
      if r in words.docs {
        words.DeleteCommand(r, WordsOf(was));
      }
      if r in names.docs {
        names.DeleteCommand(r, was.name);
      }
    }

    /** The delete trigger. */
    method Delete(r: RowId)
      requires Valid() && r in rows
      modifies this, words, names
      ensures Valid() && Content() == After(old(Content()), Operation.Delete(r))
    {
      OperationKeepsConsistent(Content(), Operation.Delete(r));
      var was := rows[r];
      rows := rows - {r};
      Unindex(r, was);
    }

    /** The update trigger: the old values go, the new ones come when the symbol is not local now. */
    method Update(r: RowId, s: Symbol)
      requires Valid() && Possible(Content(), Operation.Update(r, s))
      modifies this, words, names
      ensures Valid() && Content() == After(old(Content()), Operation.Update(r, s))
    {
      hide IsLocal;
      OperationKeepsConsistent(Content(), Operation.Update(r, s));
      var was := rows[r];
      rows := rows[r := s];
      RemoveThenAdd(words.docs, r, WordsOf(s));
      RemoveThenAdd(names.docs, r, s.name);
      Unindex(r, was);
      if !IsLocal(rows, s) {
        words.Add(r, WordsOf(s));
        names.Add(r, s.name);
      }
    }

    /** A delete under `ON DELETE SET NULL`: the delete trigger, and the update trigger for each child. */
    method Remove(r: RowId)
      requires Valid() && UniqueIds(rows) && r in rows
      modifies this, words, names
      ensures Valid() && Content() == After(old(Content()), Operation.Remove(r))
    {
      hide IsLocal, Children, Consistent, Cleared, AfterDelete, AfterUpdate, AfterRemove;
      ghost var before := Content();
      var children := Children(rows, r);
      ChildrenAreRows(rows, r);
      NoneCleared(before, r);
      Delete(r);
      var rest := children;
      ghost var done: set<RowId> := {};
      while rest != {}
        invariant Valid() && rest !! done && rest + done == children && Content() == Cleared(before, r, done)
        decreases rest
      {
        var c :| c in rest;
        ClearOne(before, r, done, c);
        ChildStillThere(before, r, done, c);
        Update(c, rows[c].(parent := None));
        rest, done := rest - {c}, done + {c};
      }
      assert done == children;
      AllCleared(before, r);
    }

    method Do(op: Operation)
      requires Valid() && UniqueIds(rows) && Possible(Content(), op)
      modifies this, words, names
      ensures Valid() && Content() == After(old(Content()), op)
    {
      match op
      case Insert(r, s) => Insert(r, s);
      case Delete(r) => Delete(r);
      case Update(r, s) => Update(r, s);
      case Remove(r) => Remove(r);
    }

    /** A run of statements, each with its triggers. */
    method Perform(ops: seq<Operation>)
      requires Valid() && UniqueIds(rows) && History(Content(), ops)
      modifies this, words, names
      ensures Valid() && UniqueIds(rows) && Content() == Outcome(old(Content()), ops)
    {
      hide Consistent, UniqueIds, After, Possible;
      ghost var start := Content();
      for i := 0 to |ops|
        invariant Valid() && UniqueIds(rows) && Content() == Outcome(start, ops[..i])
      {
        HistoryAt(start, ops, i);
        OperationKeepsUnique(Content(), ops[i]);
        Do(ops[i]);
      }
      assert ops[..|ops|] == ops;
    }
  }

  lemma {:induction false} HistoryAt(start: Tables, ops: seq<Operation>, i: nat)
    requires History(start, ops) && i < |ops|
    ensures Possible(Outcome(start, ops[..i]), ops[i])
    ensures Outcome(start, ops[..i + 1]) == After(Outcome(start, ops[..i]), ops[i])
  {
    hide After, Possible;
    var n := |ops| - 1;
    assert ops[..i + 1][..i] == ops[..i] && ops[..i + 1][i] == ops[i];
    if i < n {
      HistoryAt(start, ops[..n], i);
      assert ops[..n][..i] == ops[..i];
    }
  }

  lemma ChildrenAreRows(rows: Rows, r: RowId)
    requires r in rows
    ensures Children(rows, r) <= rows.Keys && r !in Children(rows, r)
  {}

  function Parentless(rows: Rows, done: set<RowId>): Rows
    requires done <= rows.Keys
  {
    map c | c in done :: rows[c].(parent := None)
  }

  function WordsIn(rows: Rows, done: set<RowId>): map<RowId, Words>
    requires done <= rows.Keys
  {
    map c | c in done :: WordsOf(rows[c])
  }

  function NamesIn(rows: Rows, done: set<RowId>): map<RowId, string>
    requires done <= rows.Keys
  {
    map c | c in done :: rows[c].name
  }

  /** The tables once the row is deleted and the children in `done` have lost their parent. */
  ghost function Cleared(t: Tables, r: RowId, done: set<RowId>): Tables
    requires done <= t.rows.Keys
  {
    Tables((t.rows - {r}) + Parentless(t.rows, done),
           (t.words - {r}) + WordsIn(t.rows, done),
           (t.names - {r}) + NamesIn(t.rows, done))
  }

  lemma AddedLast<V>(base: map<RowId, V>, added: map<RowId, V>, c: RowId, value: V)
    ensures (base + added)[c := value] == base + added[c := value]
  {}

  lemma OneMoreChild(rows: Rows, done: set<RowId>, c: RowId)
    requires done <= rows.Keys && c in rows
    ensures Parentless(rows, done + {c}) == Parentless(rows, done)[c := rows[c].(parent := None)]
    ensures WordsIn(rows, done + {c}) == WordsIn(rows, done)[c := WordsOf(rows[c])]
    ensures NamesIn(rows, done + {c}) == NamesIn(rows, done)[c := rows[c].name]
  {}

  lemma ClearOne(t: Tables, r: RowId, done: set<RowId>, c: RowId)
    requires r in t.rows && c in Children(t.rows, r) && done <= Children(t.rows, r)
    ensures AfterUpdate(Cleared(t, r, done), c, t.rows[c].(parent := None)) == Cleared(t, r, done + {c})
  {
    hide IsLocal, Parentless, WordsIn, NamesIn;
    var s := t.rows[c].(parent := None);
    OneMoreChild(t.rows, done, c);
    AddedLast(t.rows - {r}, Parentless(t.rows, done), c, s);
    AddedLast(t.words - {r}, WordsIn(t.rows, done), c, WordsOf(s));
    AddedLast(t.names - {r}, NamesIn(t.rows, done), c, s.name);
    NoParentIsNotLocal(Cleared(t, r, done).rows[c := s], s);
  }

  lemma ChildStillThere(t: Tables, r: RowId, done: set<RowId>, c: RowId)
    requires r in t.rows && UniqueIds(t.rows) && c in Children(t.rows, r) && c !in done && done <= Children(t.rows, r)
    ensures c in Cleared(t, r, done).rows && Cleared(t, r, done).rows[c] == t.rows[c]
    ensures Possible(Cleared(t, r, done), Operation.Update(c, t.rows[c].(parent := None)))
  {}

  lemma NoneCleared(t: Tables, r: RowId)
    requires r in t.rows
    ensures Cleared(t, r, {}) == AfterDelete(t, r)
  {
    AddedNone(t.rows - {r}, Parentless(t.rows, {}));
    AddedNone(t.words - {r}, WordsIn(t.rows, {}));
    AddedNone(t.names - {r}, NamesIn(t.rows, {}));
  }

  lemma AddedNone<V>(base: map<RowId, V>, added: map<RowId, V>)
    requires added.Keys == {}
    ensures base + added == base
  {}

  lemma AllCleared(t: Tables, r: RowId)
    requires r in t.rows
    ensures Cleared(t, r, Children(t.rows, r)) == AfterRemove(t, r)
  {
    assert (t.rows - {r}) + Parentless(t.rows, Children(t.rows, r)) == Orphaned(t.rows, r);
  }

  lemma RemoveThenAdd<V>(docs: map<RowId, V>, r: RowId, value: V)
    ensures (docs - {r})[r := value] == docs[r := value]
  {}

  lemma MadeLocalAreOld(rows: Rows, r: RowId, s: Symbol)
    requires r !in rows
    ensures MadeLocal(rows[r := s], s) <= rows.Keys
  {}
}
