/** When the two full-text tables hold exactly the symbols that are not local. */
module SymbolExactness {
  import opened Options
  import opened SymbolIndex

  // What an insert does to chains of enclosing rows.

  lemma {:induction false} ChainPersists(rows: Rows, n: RowId, s: Symbol, parent: Option<string>, chain: seq<RowId>)
    requires n !in rows && Chain(rows, parent, chain)
    ensures Chain(rows[n := s], parent, chain)
  {
    if |chain| > 1 { ChainPersists(rows, n, s, parent, chain[..|chain| - 1]); }
  }

  lemma LocalPersists(rows: Rows, n: RowId, s: Symbol, c: Symbol)
    requires n !in rows && IsLocal(rows, c)
    ensures IsLocal(rows[n := s], c)
  {
    LocalMeans(rows, c);
    LocalMeans(rows[n := s], c);
    var r :| Reaches(rows, c.parent, r) && r in rows && Callable(rows[r].kind);
    var chain :| Chain(rows, c.parent, chain) && chain[|chain| - 1] == r;
    ChainPersists(rows, n, s, c.parent, chain);
  }

  /** A chain of the longer table is one of the shorter table, or meets the new row. */
  lemma {:induction false} ChainMeetsNew(rows: Rows, n: RowId, s: Symbol, parent: Option<string>, chain: seq<RowId>)
    requires n !in rows && Chain(rows[n := s], parent, chain)
    ensures Chain(rows, parent, chain) || Reaches(rows[n := s], parent, n)
  {
    if chain[|chain| - 1] != n && |chain| > 1 { ChainMeetsNew(rows, n, s, parent, chain[..|chain| - 1]); }
  }

  /** What a chain reaches beyond the new row is reached from the new row. */
  lemma {:induction false} ChainBeyondNew(rows: Rows, n: RowId, s: Symbol, parent: Option<string>, chain: seq<RowId>)
    requires n !in rows && Chain(rows[n := s], parent, chain)
    ensures var r := chain[|chain| - 1];
            Chain(rows, parent, chain) || r == n || (s.kind.Variable? && Reaches(rows[n := s], s.parent, r))
  {
    if |chain| > 1 {
      var front, r := chain[..|chain| - 1], chain[|chain| - 1];
      var a := front[|front| - 1];
      ChainBeyondNew(rows, n, s, parent, front);
      if a == n {
        assert Chain(rows[n := s], s.parent, [r]);
      } else if s.kind.Variable? && Reaches(rows[n := s], s.parent, a) {
        ReachesStep(rows[n := s], s.parent, a, r);
      }
    }
  }

  /** Reaching a variable and then going on from it is reaching. */
  lemma {:induction false} ReachesThrough(rows: Rows, parent: Option<string>, n: RowId, chain: seq<RowId>)
    requires Reaches(rows, parent, n) && n in rows && rows[n].kind.Variable? && Chain(rows, rows[n].parent, chain)
    ensures Reaches(rows, parent, chain[|chain| - 1])
    decreases |chain|
  {
    var r := chain[|chain| - 1];
    if |chain| == 1 {
      ReachesStep(rows, parent, n, r);
    } else {
      ReachesThrough(rows, parent, n, chain[..|chain| - 1]);
      ReachesStep(rows, parent, chain[|chain| - 2], r);
    }
  }

  ghost predicate UniqueIds(rows: Rows) {
    forall a, b :: a in rows && b in rows && rows[a].id == rows[b].id ==> a == b
  }

  /** With unique ids a row has at most one parent, so two chains agree as far as both go. */
  lemma {:induction false} ChainsAgree(rows: Rows, parent: Option<string>, one: seq<RowId>, two: seq<RowId>)
    requires UniqueIds(rows) && Chain(rows, parent, one) && Chain(rows, parent, two) && |one| <= |two|
    ensures one == two[..|one|]
    decreases |two|
  {
    if |one| < |two| {
      ChainsAgree(rows, parent, one, two[..|two| - 1]);
      assert two[..|two| - 1][..|one|] == two[..|one|];
    } else if |one| > 1 {
      var n := |one| - 1;
      ChainsAgree(rows, parent, one[..n], two[..n]);
      assert two[..n][..n] == two[..n];
      assert one == one[..n] + [one[n]] && two == two[..n] + [two[n]];
      assert one[n] == two[n];
    } else {
      assert one[0] == two[0];
    }
  }

  lemma {:induction false} ChainInner(rows: Rows, parent: Option<string>, chain: seq<RowId>, i: nat)
    requires Chain(rows, parent, chain) && i < |chain| - 1
    ensures chain[i] in rows && rows[chain[i]].kind.Variable?
  {
    if i < |chain| - 2 { ChainInner(rows, parent, chain[..|chain| - 1], i); }
  }

  /** A symbol that is nested in the new row was not local before. */
  lemma NestedWasNotLocal(rows: Rows, n: RowId, s: Symbol, c: Symbol)
    requires n !in rows && UniqueIds(rows[n := s]) && Reaches(rows[n := s], c.parent, n)
    ensures !IsLocal(rows, c)
  {
    LocalMeans(rows, c);
    var toNew :| Chain(rows[n := s], c.parent, toNew) && toNew[|toNew| - 1] == n;
    forall r | Reaches(rows, c.parent, r) && r in rows ensures !Callable(rows[r].kind) {
      var chain :| Chain(rows, c.parent, chain) && chain[|chain| - 1] == r;
      ChainPersists(rows, n, s, c.parent, chain);
      if |toNew| <= |chain| {
        ChainsAgree(rows[n := s], c.parent, toNew, chain);
        ChainMember(rows, c.parent, chain, |toNew| - 1);
      } else {
        ChainsAgree(rows[n := s], c.parent, chain, toNew);
        ChainInner(rows[n := s], c.parent, toNew, |chain| - 1);
      }
    }
  }

  lemma {:induction false} ChainMember(rows: Rows, parent: Option<string>, chain: seq<RowId>, i: nat)
    requires Chain(rows, parent, chain) && i < |chain|
    ensures chain[i] in rows
  {
    if i < |chain| - 1 { ChainMember(rows, parent, chain[..|chain| - 1], i); }
  }

  /** What can make an existing symbol local: a new callable, or a new local variable, around it. */
  lemma BecomesLocalBecause(rows: Rows, n: RowId, s: Symbol, c: Symbol)
    requires n !in rows && !IsLocal(rows, c) && IsLocal(rows[n := s], c)
    ensures Reaches(rows[n := s], c.parent, n)
    ensures Callable(s.kind) || IsLocal(rows[n := s], s)
  {
    var rows' := rows[n := s];
    LocalMeans(rows, c);
    LocalMeans(rows', c);
    LocalMeans(rows', s);
    var r :| Reaches(rows', c.parent, r) && r in rows' && Callable(rows'[r].kind);
    var chain :| Chain(rows', c.parent, chain) && chain[|chain| - 1] == r;
    ChainMeetsNew(rows, n, s, c.parent, chain);
    ChainBeyondNew(rows, n, s, c.parent, chain);
    if Chain(rows, c.parent, chain) { ChainMember(rows, c.parent, chain, |chain| - 1); }
  }

  lemma NestedInLocalIsLocal(rows: Rows, n: RowId, c: Symbol)
    requires n in rows && c.kind.Variable? && Reaches(rows, c.parent, n) && IsLocal(rows, rows[n])
    ensures IsLocal(rows, c)
  {
    LocalMeans(rows, rows[n]);
    LocalMeans(rows, c);
    var r :| Reaches(rows, rows[n].parent, r) && r in rows && Callable(rows[r].kind);
    var chain :| Chain(rows, rows[n].parent, chain) && chain[|chain| - 1] == r;
    ReachesThrough(rows, c.parent, n, chain);
  }

  lemma LocalIsVariable(rows: Rows, s: Symbol)
    requires IsLocal(rows, s)
    ensures s.kind.Variable?
  {}

  /** What is nested in the row is local. */
  ghost predicate Confers(rows: Rows, r: RowId) {
    r in rows && (Callable(rows[r].kind) || IsLocal(rows, rows[r]))
  }

  /** Another row, a variable, is local because it is nested in the row `r`. */
  ghost predicate LocalBy(rows: Rows, c: RowId, r: RowId) {
    c in rows && c != r && rows[c].kind.Variable? && Reaches(rows, rows[c].parent, r) && Confers(rows, r)
  }

  /** Each local variable is local either by the row `r` or without it, and never both. */
  lemma LocalThrough(rows: Rows, c: RowId, r: RowId)
    requires UniqueIds(rows) && c in rows && r in rows && c != r
    ensures IsLocal(rows, rows[c]) <==> IsLocal(rows - {r}, rows[c]) || LocalBy(rows, c, r)
    ensures LocalBy(rows, c, r) ==> !IsLocal(rows - {r}, rows[c])
  {
    hide IsLocal;
    var rest, s := rows - {r}, rows[c];
    assert rest[r := rows[r]] == rows;
    if IsLocal(rest, s) { LocalPersists(rest, r, rows[r], s); }
    if IsLocal(rows, s) {
      LocalIsVariable(rows, s);
      if !IsLocal(rest, s) { BecomesLocalBecause(rest, r, rows[r], s); }
    }
    if LocalBy(rows, c, r) {
      NestedWasNotLocal(rest, r, rows[r], s);
      if Callable(rows[r].kind) { NestedInCallableIsLocal(rows, r, s); } else { NestedInLocalIsLocal(rows, r, s); }
    }
  }

  lemma NestedInCallableIsLocal(rows: Rows, r: RowId, s: Symbol)
    requires r in rows && s.kind.Variable? && Reaches(rows, s.parent, r) && Callable(rows[r].kind)
    ensures IsLocal(rows, s)
  {
    LocalMeans(rows, s);
  }

  ghost predicate RightAt(t: Tables, c: RowId) {
    c in t.words <==> c in NonLocal(t.rows)
  }

  lemma ExactByRow(t: Tables)
    requires Consistent(t)
    ensures Exact(t) <==> forall c :: c in t.rows ==> RightAt(t, c)
  {
    hide IsLocal;
    if forall c :: c in t.rows ==> RightAt(t, c) {
      forall c ensures c in t.words <==> c in NonLocal(t.rows) { assert c in t.rows ==> RightAt(t, c); }
    }
  }

  /** Which rows the words table names after an insert. */
  lemma IndexedAfterInsert(t: Tables, n: RowId, s: Symbol)
    requires n !in t.rows && t.words.Keys == NonLocal(t.rows)
    ensures var rows' := t.rows[n := s];
            forall c :: c in AfterInsert(t, n, s).words <==>
              c in rows' && (if c == n then !IsLocal(rows', s)
                             else !IsLocal(t.rows, t.rows[c]) && c !in MadeLocal(rows', s))
  {}

  lemma PossibleKeepsUnique(t: Tables, n: RowId, s: Symbol)
    requires UniqueIds(t.rows) && Possible(t, Insert(n, s))
    ensures UniqueIds(t.rows[n := s])
  {}

  lemma NonLocalMember(rows: Rows, r: RowId)
    requires r in rows
    ensures r in NonLocal(rows) <==> !IsLocal(rows, rows[r])
  {}

  lemma NewRowRight(t: Tables, n: RowId, s: Symbol)
    requires Exact(t) && n !in t.rows
    ensures RightAt(AfterInsert(t, n, s), n)
  {
    hide IsLocal;
    if n in MadeLocal(t.rows[n := s], s) { LocalIsVariable(t.rows[n := s], s); }
  }

  /** A row that was there is right afterwards unless the new one has made it local and the trigger passes it over. */
  lemma OldRowRightIff(t: Tables, n: RowId, s: Symbol, c: RowId)
    requires Exact(t) && n !in t.rows && c in t.rows && UniqueIds(t.rows[n := s])
    ensures RightAt(AfterInsert(t, n, s), c) <==>
              (LocalBy(t.rows[n := s], c, n) ==> Callable(s.kind) && t.rows[c].path == s.path)
  {
    hide IsLocal, LocalBy;
    var rows' := t.rows[n := s];
    assert rows' - {n} == t.rows;
    IndexedAfterInsert(t, n, s);
    LocalThrough(rows', c, n);
    NonLocalMember(rows', c);
    if IsLocal(rows', t.rows[c]) { LocalIsVariable(rows', t.rows[c]); }
  }

  /** A variable that is already in the table is nested in the new row. */
  ghost predicate NestedAlready(rows: Rows, n: RowId, s: Symbol) {
    exists c :: c in rows && rows[c].kind.Variable? && Reaches(rows[n := s], rows[c].parent, n)
  }

  /** One of another file is. */
  ghost predicate NestedElsewhere(rows: Rows, n: RowId, s: Symbol) {
    exists c :: c in rows && rows[c].kind.Variable? && rows[c].path != s.path &&
        Reaches(rows[n := s], rows[c].parent, n)
  }

  /**
    One insert keeps the tables exact except in two cases. The new row is itself a local variable, and a
    variable nested in it was there first; or it is a callable, and one nested in it was there first in
    another file.
   */
  lemma InsertKeepsExactIff(t: Tables, n: RowId, s: Symbol)
    requires Exact(t) && UniqueIds(t.rows) && Possible(t, Insert(n, s))
    ensures var rows := t.rows[n := s];
            Exact(AfterInsert(t, n, s)) <==>
              && !(IsLocal(rows, s) && NestedAlready(t.rows, n, s))
              && !(Callable(s.kind) && NestedElsewhere(t.rows, n, s))
  {
    hide IsLocal, AfterInsert, Consistent, RightAt, Reaches;
    var rows, after := t.rows[n := s], AfterInsert(t, n, s);
    PossibleKeepsUnique(t, n, s);
    InsertKeepsConsistent(t, n, s);
    ExactByRow(after);
    NewRowRight(t, n, s);
    AfterInsertRows(t, n, s);
    forall c | c in t.rows
      ensures RightAt(after, c) <==> (LocalBy(rows, c, n) ==> Callable(s.kind) && t.rows[c].path == s.path)
    {
      OldRowRightIff(t, n, s, c);
    }
    if IsLocal(rows, s) { LocalIsVariable(rows, s); }
  }

  lemma AfterInsertRows(t: Tables, n: RowId, s: Symbol)
    ensures AfterInsert(t, n, s).rows == t.rows[n := s]
  {}

  // A series of inserts.

  /** The parent of a variable is in the variable's file. */
  ghost predicate SameFileVariables(rows: Rows) {
    forall a, b :: a in rows && b in rows && rows[a].kind.Variable? && rows[a].parent == Some(rows[b].id) ==>
      rows[a].path == rows[b].path
  }

  lemma {:induction false} ChainSameFile(rows: Rows, c: RowId, chain: seq<RowId>)
    requires SameFileVariables(rows) && c in rows && rows[c].kind.Variable? && Chain(rows, rows[c].parent, chain)
    ensures chain[|chain| - 1] in rows && rows[chain[|chain| - 1]].path == rows[c].path
    decreases |chain|
  {
    var last := chain[|chain| - 1];
    if |chain| > 1 {
      ChainSameFile(rows, c, chain[..|chain| - 1]);
      assert Encloses(rows, chain[|chain| - 2], last);
    } else {
      assert rows[c].parent == Some(rows[last].id);
    }
  }

  lemma NoneElsewhere(rows: Rows, n: RowId, s: Symbol)
    requires n !in rows && SameFileVariables(rows[n := s])
    ensures !NestedElsewhere(rows, n, s)
  {
    forall c | c in rows && rows[c].kind.Variable? && Reaches(rows[n := s], rows[c].parent, n)
      ensures rows[c].path == s.path
    {
      var chain :| Chain(rows[n := s], rows[c].parent, chain) && chain[|chain| - 1] == n;
      ChainSameFile(rows[n := s], c, chain);
    }
  }

  /** No row names the variable `s` as its parent before `s` is there. */
  ghost predicate EnclosingFirst(rows: Rows, s: Symbol) {
    s.kind.Variable? ==> forall a :: a in rows ==> rows[a].parent != Some(s.id)
  }

  lemma {:induction false} EnclosingFirstNotNested(rows: Rows, n: RowId, s: Symbol, c: RowId, chain: seq<RowId>)
    requires n !in rows && s.kind.Variable? && EnclosingFirst(rows, s) && c in rows
    requires Chain(rows[n := s], rows[c].parent, chain)
    ensures n !in chain
    decreases |chain|
  {
    if |chain| > 1 {
      EnclosingFirstNotNested(rows, n, s, c, chain[..|chain| - 1]);
      assert chain == chain[..|chain| - 1] + [chain[|chain| - 1]];
      assert chain[|chain| - 2] in chain[..|chain| - 1];
    }
  }

  const EMPTY := Tables(map[], map[], map[])

  lemma EmptyIsExact()
    ensures Exact(EMPTY) && UniqueIds(EMPTY.rows)
  {}

  lemma NotNestedYet(rows: Rows, n: RowId, s: Symbol)
    requires n !in rows && s.kind.Variable? && EnclosingFirst(rows, s)
    ensures !NestedAlready(rows, n, s)
  {
    if NestedAlready(rows, n, s) {
      var c :| c in rows && rows[c].kind.Variable? && Reaches(rows[n := s], rows[c].parent, n);
      var chain :| Chain(rows[n := s], rows[c].parent, chain) && chain[|chain| - 1] == n;
      EnclosingFirstNotNested(rows, n, s, c, chain);
    }
  }

  lemma SeriesBefore(ops: seq<Operation>)
    requires ops != [] && InsertSeries(ops) && History(EMPTY, ops) && EnclosingFirstThroughout(EMPTY, ops)
    ensures InsertSeries(ops[..|ops| - 1]) && EnclosingFirstThroughout(EMPTY, ops[..|ops| - 1])
    ensures Outcome(EMPTY, ops[..|ops| - 1]).rows.Items <= Outcome(EMPTY, ops).rows.Items
  {
    hide IsLocal, MadeLocal, EnclosingFirst;
    var n := |ops| - 1;
    forall i | 0 <= i < n ensures ops[..n][..i] == ops[..i] {}
  }

  ghost predicate InsertSeries(ops: seq<Operation>) {
    forall i :: 0 <= i < |ops| ==> ops[i].Insert?
  }

  /** Each variable is inserted before what is nested in it. */
  ghost predicate EnclosingFirstThroughout(start: Tables, ops: seq<Operation>) {
    forall i {:trigger ops[i]} :: 0 <= i < |ops| && ops[i].Insert? ==>
      EnclosingFirst(Outcome(start, ops[..i]).rows, ops[i].s)
  }

  lemma SubtableSameFile(part: Rows, whole: Rows)
    requires SameFileVariables(whole) && part.Items <= whole.Items
    ensures SameFileVariables(part)
  {
    forall a | a in part ensures a in whole && whole[a] == part[a] { assert (a, part[a]) in part.Items; }
  }

  /** Ids stay unique over every history. */
  lemma {:induction false} HistoryKeepsUnique(t: Tables, ops: seq<Operation>)
    requires UniqueIds(t.rows) && History(t, ops)
    ensures UniqueIds(Outcome(t, ops).rows)
  {
    if ops != [] {
      HistoryKeepsUnique(t, ops[..|ops| - 1]);
      OperationKeepsUnique(Outcome(t, ops[..|ops| - 1]), ops[|ops| - 1]);
    }
  }

  lemma OperationKeepsUnique(t: Tables, op: Operation)
    requires UniqueIds(t.rows) && Possible(t, op)
    ensures UniqueIds(After(t, op).rows)
  {
    hide IsLocal, MadeLocal;
  }

  /**
    After any series of inserts into empty tables, with the parents of variables in the same file and each
    variable before what is nested in it, both tables hold exactly the symbols that are not local.
    Functions may come before or after their locals, and the parents of methods may be in other files.
   */
  lemma {:induction false} SeriesIsExact(ops: seq<Operation>)
    requires InsertSeries(ops) && History(EMPTY, ops) && EnclosingFirstThroughout(EMPTY, ops)
    requires SameFileVariables(Outcome(EMPTY, ops).rows)
    ensures Exact(Outcome(EMPTY, ops)) && UniqueIds(Outcome(EMPTY, ops).rows)
  {
    hide Exact, NestedAlready, NestedElsewhere, SameFileVariables, UniqueIds, EnclosingFirst;
    EmptyIsExact();
    if ops != [] {
      var n := |ops| - 1;
      var t, op := Outcome(EMPTY, ops[..n]), ops[n];
      SeriesBefore(ops);
      SubtableSameFile(t.rows, Outcome(EMPTY, ops).rows);
      SeriesIsExact(ops[..n]);
      assert op.Insert? && EnclosingFirst(t.rows, op.s);
      PossibleKeepsUnique(t, op.r, op.s);
      InsertKeepsExactIff(t, op.r, op.s);
      NoneElsewhere(t.rows, op.r, op.s);
      if op.s.kind.Variable? { NotNestedYet(t.rows, op.r, op.s); }
    }
  }

  /** A rebuild is exact. */
  lemma RebuiltIsExact(rows: Rows)
    ensures Exact(Rebuilt(rows))
  {
    assert Rebuilt(rows).words.Keys == NonLocal(rows) <= rows.Keys;
  }

  /** A table with a symbol has one that is not local. */
  lemma SomeSymbolIsNotLocal(rows: Rows)
    requires rows != map[]
    ensures NonLocal(rows) != {}
  {
    var r :| r in rows;
    if IsLocal(rows, rows[r]) {
      var q :| q in AncestorRows(rows, rows[r].parent) && q in rows && Callable(rows[q].kind);
      assert q in NonLocal(rows);
    } else {
      assert r in NonLocal(rows);
    }
  }

  // Updates.

  /** An update that does not move a symbol: the owner links and the renames of the normalization. */
  predicate Harmless(was: Symbol, s: Symbol) {
    s.id == was.id && s.kind == was.kind && (s.parent == was.parent || !was.kind.Variable?)
  }

  lemma {:induction false} ChainAfterUpdate(rows: Rows, r: RowId, s: Symbol, parent: Option<string>, chain: seq<RowId>)
    requires r in rows && Harmless(rows[r], s)
    ensures Chain(rows, parent, chain) <==> Chain(rows[r := s], parent, chain)
  {
    if |chain| > 1 { ChainAfterUpdate(rows, r, s, parent, chain[..|chain| - 1]); }
  }

  lemma LocalAfterUpdate(rows: Rows, r: RowId, s: Symbol, c: Symbol)
    requires r in rows && Harmless(rows[r], s)
    ensures IsLocal(rows, c) <==> IsLocal(rows[r := s], c)
  {
    LocalMeans(rows, c);
    LocalMeans(rows[r := s], c);
    forall q ensures Reaches(rows, c.parent, q) <==> Reaches(rows[r := s], c.parent, q) {
      if Reaches(rows, c.parent, q) {
        var chain :| Chain(rows, c.parent, chain) && chain[|chain| - 1] == q;
        ChainAfterUpdate(rows, r, s, c.parent, chain);
      }
      if Reaches(rows[r := s], c.parent, q) {
        var chain :| Chain(rows[r := s], c.parent, chain) && chain[|chain| - 1] == q;
        ChainAfterUpdate(rows, r, s, c.parent, chain);
      }
    }
  }

  lemma NonLocalAfterUpdate(rows: Rows, r: RowId, s: Symbol)
    requires r in rows && Harmless(rows[r], s)
    ensures NonLocal(rows[r := s]) == NonLocal(rows)
  {
    hide IsLocal;
    forall c | c in rows ensures IsLocal(rows, rows[c]) <==> IsLocal(rows[r := s], rows[r := s][c]) {
      LocalAfterUpdate(rows, r, s, rows[r := s][c]);
      if c == r { SameLocality(rows, rows[r], s); }
    }
  }

  /** Such an update keeps the tables exact. */
  lemma UpdateKeepsExact(t: Tables, r: RowId, s: Symbol)
    requires Exact(t) && r in t.rows && Harmless(t.rows[r], s)
    ensures Exact(AfterUpdate(t, r, s))
  {
    hide IsLocal, NonLocal;
    NonLocalAfterUpdate(t.rows, r, s);
    NonLocalMember(t.rows[r := s], r);
    UpdateKeepsConsistent(t, r, s);
  }

  lemma SameLocality(rows: Rows, a: Symbol, b: Symbol)
    requires Harmless(a, b)
    ensures IsLocal(rows, a) <==> IsLocal(rows, b)
  {}

  /** A closure variable that comes after what is nested in it leaves a local in the tables. */
  lemma LateClosureLeavesALocal()
    ensures var f := Symbol("f", "a.rs", "f", Function, None, "", "", "rust", NO_FACTS);
            var inner := Symbol("x", "a.rs", "x", Variable, Some("c"), "", "", "rust", NO_FACTS);
            var closure := Symbol("c", "a.rs", "c", Variable, Some("f"), "", "", "rust", NO_FACTS);
            var t := AfterInsert(AfterInsert(AfterInsert(EMPTY, RowId(1), f), RowId(2), inner), RowId(3), closure);
            RowId(2) in t.words && IsLocal(t.rows, t.rows[RowId(2)])
  {
    hide IsLocal, MadeLocal;
    var f := Symbol("f", "a.rs", "f", Function, None, "", "", "rust", NO_FACTS);
    var inner := Symbol("x", "a.rs", "x", Variable, Some("c"), "", "", "rust", NO_FACTS);
    var closure := Symbol("c", "a.rs", "c", Variable, Some("f"), "", "", "rust", NO_FACTS);
    var one := AfterInsert(EMPTY, RowId(1), f);
    var two := AfterInsert(one, RowId(2), inner);
    var three := AfterInsert(two, RowId(3), closure);
    NoParentNotLocal(two.rows, inner);
    MadeLocalByCallable(two.rows, inner);
    MadeLocalByCallable(three.rows, closure);
    assert RowId(2) in two.words;
    NestedTwiceIsLocal(three.rows, inner, RowId(3), RowId(1));
  }

  /** A function that comes after its local, which is in another file, leaves the local in the tables. */
  lemma LateFunctionElsewhereLeavesALocal()
    ensures var x := Symbol("x", "b.rs", "x", Variable, Some("f"), "", "", "rust", NO_FACTS);
            var f := Symbol("f", "a.rs", "f", Function, None, "", "", "rust", NO_FACTS);
            var t := Rebuilt(map[RowId(1) := x]);
            && Exact(t) && UniqueIds(t.rows) && Possible(t, Insert(RowId(2), f))
            && !Exact(After(t, Insert(RowId(2), f)))
  {
    hide IsLocal, AfterInsert;
    var x := Symbol("x", "b.rs", "x", Variable, Some("f"), "", "", "rust", NO_FACTS);
    var f := Symbol("f", "a.rs", "f", Function, None, "", "", "rust", NO_FACTS);
    var rows := map[RowId(1) := x];
    RebuiltIsExact(rows);
    InsertKeepsExactIff(Rebuilt(rows), RowId(2), f);
    assert Chain(rows[RowId(2) := f], x.parent, [RowId(2)]);
    assert Reaches(rows[RowId(2) := f], rows[RowId(1)].parent, RowId(2));
    assert RowId(1) in rows && rows[RowId(1)].path != f.path;
  }

  lemma NoParentNotLocal(rows: Rows, s: Symbol)
    requires Anchors(rows, s.parent) == {}
    ensures !IsLocal(rows, s)
  {
    assert Next(rows, {}) == {};
  }

  lemma MadeLocalByCallable(rows: Rows, s: Symbol)
    requires !Callable(s.kind)
    ensures MadeLocal(rows, s) == {}
  {}

  lemma NestedTwiceIsLocal(rows: Rows, s: Symbol, a: RowId, b: RowId)
    requires s.kind.Variable? && a in Anchors(rows, s.parent) && Encloses(rows, a, b) && Callable(rows[b].kind)
    ensures IsLocal(rows, s)
  {
    assert Chain(rows, s.parent, [a]);
    assert [a, b][..1] == [a];
    assert Chain(rows, s.parent, [a, b]);
    assert Reaches(rows, s.parent, b);
    LocalMeans(rows, s);
  }
}
