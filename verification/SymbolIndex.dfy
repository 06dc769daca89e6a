/**
  The symbols table and its two full-text tables: which symbols are local, what the three triggers do
  to the tables, and when the tables hold exactly the symbols that are not local.
 */
module SymbolIndex {
  import opened Options

  datatype Kind =
    | Variable | Function | Method | Constructor
    | TypeKind(name: string) | ModuleKind | OtherKind(name: string)

  /**
    What a row's metadata says of a method's owner: the type its `impl` block names when that was not
    resolved, and the receiver of a Go method.
   */
  datatype Facts = Facts(implType: Option<string>, receiver: Option<string>)

  const NO_FACTS := Facts(None, None)

  datatype Symbol = Symbol(id: string, path: string, name: string, kind: Kind, parent: Option<string>,
                           signature: string, doc: string, language: string, facts: Facts)

  datatype RowId = RowId(value: int)

  type Rows = map<RowId, Symbol>

  predicate Callable(kind: Kind) {
    kind.Function? || kind.Method? || kind.Constructor?
  }

  // Which symbols are local.

  function Anchors(rows: Rows, parent: Option<string>): set<RowId> {
    set r | r in rows && parent == Some(rows[r].id)
  }

  /** One step of the recursive query: from a variable to the rows its parent names. */
  predicate Encloses(rows: Rows, a: RowId, b: RowId) {
    a in rows && b in rows && rows[a].kind.Variable? && rows[a].parent == Some(rows[b].id)
  }

  function Next(rows: Rows, seen: set<RowId>): set<RowId> {
    set b | b in rows && b !in seen && exists a :: a in seen && Encloses(rows, a, b)
  }

  /** The recursive query with duplicates dropped: rows are added until nothing new comes. */
  function Closure(rows: Rows, seen: set<RowId>): set<RowId>
    decreases |rows.Keys - seen|
  {
    var next := Next(rows, seen);
    if next == {} then seen
    else
      assert rows.Keys - (seen + next) < rows.Keys - seen by { var b :| b in next; assert b in rows.Keys - seen; }
      Smaller(rows.Keys - (seen + next), rows.Keys - seen);
      Closure(rows, seen + next)
  }

  lemma {:induction false} Smaller<T>(part: set<T>, whole: set<T>)
    requires part < whole
    ensures |part| < |whole|
  {
    var x :| x in whole && x !in part;
    if part != {} {
      var y :| y in part;
      Smaller(part - {y}, whole - {y});
    }
  }

  function AncestorRows(rows: Rows, parent: Option<string>): set<RowId> {
    Closure(rows, Anchors(rows, parent))
  }

  predicate IsLocal(rows: Rows, s: Symbol) {
    s.kind.Variable? && exists r :: r in AncestorRows(rows, s.parent) && r in rows && Callable(rows[r].kind)
  }

  /** A chain of enclosing rows, outwards from the row that `parent` names. */
  ghost predicate Chain(rows: Rows, parent: Option<string>, chain: seq<RowId>) {
    && chain != []
    && if |chain| == 1 then chain[0] in Anchors(rows, parent)
       else Chain(rows, parent, chain[..|chain| - 1]) && Encloses(rows, chain[|chain| - 2], chain[|chain| - 1])
  }

  ghost predicate Reaches(rows: Rows, parent: Option<string>, r: RowId) {
    exists chain :: Chain(rows, parent, chain) && chain[|chain| - 1] == r
  }

  lemma ReachesStep(rows: Rows, parent: Option<string>, a: RowId, b: RowId)
    requires Reaches(rows, parent, a) && Encloses(rows, a, b)
    ensures Reaches(rows, parent, b)
  {
    var chain :| Chain(rows, parent, chain) && chain[|chain| - 1] == a;
    var longer := chain + [b];
    assert longer[..|longer| - 1] == chain;
    assert Chain(rows, parent, longer);
  }

  lemma {:induction false} ClosureReaches(rows: Rows, parent: Option<string>, seen: set<RowId>)
    requires forall r :: r in seen ==> Reaches(rows, parent, r)
    ensures forall r :: r in Closure(rows, seen) ==> Reaches(rows, parent, r)
    decreases |rows.Keys - seen|
  {
    var next := Next(rows, seen);
    if next != {} {
      var b :| b in next;
      assert b in rows.Keys - seen;
      Smaller(rows.Keys - (seen + next), rows.Keys - seen);
      forall r | r in next ensures Reaches(rows, parent, r) {
        var a :| a in seen && Encloses(rows, a, r);
        ReachesStep(rows, parent, a, r);
      }
      ClosureReaches(rows, parent, seen + next);
    }
  }

  lemma {:induction false} ClosureClosed(rows: Rows, seen: set<RowId>)
    ensures seen <= Closure(rows, seen)
    ensures forall a, b :: a in Closure(rows, seen) && Encloses(rows, a, b) ==> b in Closure(rows, seen)
    decreases |rows.Keys - seen|
  {
    var next := Next(rows, seen);
    if next != {} {
      var b :| b in next;
      assert b in rows.Keys - seen;
      Smaller(rows.Keys - (seen + next), rows.Keys - seen);
      ClosureClosed(rows, seen + next);
    } else {
      forall a, b | a in seen && Encloses(rows, a, b) ensures b in seen || b in next {}
    }
  }

  lemma {:induction false} ChainInClosure(rows: Rows, parent: Option<string>, chain: seq<RowId>)
    requires Chain(rows, parent, chain)
    ensures chain[|chain| - 1] in AncestorRows(rows, parent)
    decreases |chain|
  {
    ClosureClosed(rows, Anchors(rows, parent));
    if |chain| > 1 { ChainInClosure(rows, parent, chain[..|chain| - 1]); }
  }

  /** The recursive query is reachability, also when parent links go round in a circle. */
  lemma AncestorQueryIsReachability(rows: Rows, parent: Option<string>, r: RowId)
    ensures r in AncestorRows(rows, parent) <==> Reaches(rows, parent, r)
  {
    var anchors := Anchors(rows, parent);
    forall a | a in anchors ensures Reaches(rows, parent, a) { assert Chain(rows, parent, [a]); }
    ClosureReaches(rows, parent, anchors);
    if Reaches(rows, parent, r) {
      var chain :| Chain(rows, parent, chain) && chain[|chain| - 1] == r;
      ChainInClosure(rows, parent, chain);
    }
  }

  ghost predicate LocalByReach(rows: Rows, s: Symbol) {
    s.kind.Variable? && exists r :: Reaches(rows, s.parent, r) && r in rows && Callable(rows[r].kind)
  }

  lemma LocalMeans(rows: Rows, s: Symbol)
    ensures IsLocal(rows, s) <==> LocalByReach(rows, s)
  {
    forall r ensures r in AncestorRows(rows, s.parent) <==> Reaches(rows, s.parent, r) {
      AncestorQueryIsReachability(rows, s.parent, r);
    }
  }

  // The tables.

  datatype Words = Words(name: string, signature: string, doc: string)

  datatype Tables = Tables(rows: Rows, words: map<RowId, Words>, names: map<RowId, string>)

  function WordsOf(s: Symbol): Words {
    Words(s.name, s.signature, s.doc)
  }

  function NonLocal(rows: Rows): set<RowId> {
    set r | r in rows && !IsLocal(rows, rows[r])
  }

  /** Rows of the file of `s` that the insert of `s` may have made local. */
  function MadeLocal(rows: Rows, s: Symbol): set<RowId> {
    set c | c in rows && Callable(s.kind) && rows[c].path == s.path && rows[c].kind.Variable? && IsLocal(rows, rows[c])
  }

  function AfterInsert(t: Tables, r: RowId, s: Symbol): Tables {
    var rows := t.rows[r := s];
    var words := if IsLocal(rows, s) then t.words else t.words[r := WordsOf(s)];
    var names := if IsLocal(rows, s) then t.names else t.names[r := s.name];
    Tables(rows, words - MadeLocal(rows, s), names - MadeLocal(rows, s))
  }

  function AfterDelete(t: Tables, r: RowId): Tables {
    Tables(t.rows - {r}, t.words - {r}, t.names - {r})
  }

  function AfterUpdate(t: Tables, r: RowId, s: Symbol): Tables {
    var rows := t.rows[r := s];
    if IsLocal(rows, s) then Tables(rows, t.words - {r}, t.names - {r})
    else Tables(rows, t.words[r := WordsOf(s)], t.names[r := s.name])
  }

  /** The rows whose parent is the row `r`. */
  function Children(rows: Rows, r: RowId): set<RowId>
    requires r in rows
  {
    set c | c in rows && c != r && rows[c].parent == Some(rows[r].id)
  }

  function Orphaned(rows: Rows, r: RowId): Rows
    requires r in rows
  {
    map c | c in rows && c != r :: if c in Children(rows, r) then rows[c].(parent := None) else rows[c]
  }

  /** A delete under `ON DELETE SET NULL`: the children lose their parent, which updates and so indexes them. */
  function AfterRemove(t: Tables, r: RowId): Tables
    requires r in t.rows
  {
    var children := Children(t.rows, r);
    Tables(Orphaned(t.rows, r),
           (t.words - {r}) + (map c | c in children :: WordsOf(t.rows[c])),
           (t.names - {r}) + (map c | c in children :: t.rows[c].name))
  }

  function Rebuilt(rows: Rows): Tables {
    Tables(rows, map r | r in NonLocal(rows) :: WordsOf(rows[r]), map r | r in NonLocal(rows) :: rows[r].name)
  }

  /** Both tables index the same rows, and each indexed value is the current value of its row. */
  ghost predicate Consistent(t: Tables) {
    && t.words.Keys == t.names.Keys <= t.rows.Keys
    && (forall r :: r in t.words ==> t.words[r] == WordsOf(t.rows[r]))
    && (forall r :: r in t.names ==> t.names[r] == t.rows[r].name)
  }

  /** Both tables hold exactly the symbols that are not local. */
  ghost predicate Exact(t: Tables) {
    Consistent(t) && t.words.Keys == NonLocal(t.rows)
  }

  datatype Operation =
    | Insert(r: RowId, s: Symbol)
    | Delete(r: RowId)
    | Update(r: RowId, s: Symbol)
    | Remove(r: RowId)

  /** What the database itself demands: row ids and symbol ids are unique. */
  ghost predicate Possible(t: Tables, op: Operation) {
    match op
    case Insert(r, s) => r !in t.rows && forall q :: q in t.rows ==> t.rows[q].id != s.id
    case Delete(r) => r in t.rows
    case Remove(r) => r in t.rows
    case Update(r, s) => r in t.rows && forall q :: q in t.rows && q != r ==> t.rows[q].id != s.id
  }

  function After(t: Tables, op: Operation): Tables {
    match op
    case Insert(r, s) => AfterInsert(t, r, s)
    case Delete(r) => AfterDelete(t, r)
    case Update(r, s) => AfterUpdate(t, r, s)
    case Remove(r) => if r in t.rows then AfterRemove(t, r) else t
  }

  ghost predicate History(start: Tables, ops: seq<Operation>) {
    ops == [] || (History(start, ops[..|ops| - 1]) && Possible(Outcome(start, ops[..|ops| - 1]), ops[|ops| - 1]))
  }

  function Outcome(start: Tables, ops: seq<Operation>): Tables {
    if ops == [] then start else After(Outcome(start, ops[..|ops| - 1]), ops[|ops| - 1])
  }

  lemma InsertKeepsConsistent(t: Tables, r: RowId, s: Symbol)
    requires Consistent(t) && r !in t.rows
    ensures Consistent(AfterInsert(t, r, s))
  {
    hide IsLocal, MadeLocal;
  }

  lemma UpdateKeepsConsistent(t: Tables, r: RowId, s: Symbol)
    requires Consistent(t) && r in t.rows
    ensures Consistent(AfterUpdate(t, r, s))
  {
    hide IsLocal;
  }

  lemma DeleteKeepsConsistent(t: Tables, r: RowId)
    requires Consistent(t) && r in t.rows
    ensures Consistent(AfterDelete(t, r))
  {}

  lemma RemoveKeepsConsistent(t: Tables, r: RowId)
    requires Consistent(t) && r in t.rows
    ensures Consistent(AfterRemove(t, r))
  {}

  lemma OperationKeepsConsistent(t: Tables, op: Operation)
    requires Consistent(t) && Possible(t, op)
    ensures Consistent(After(t, op))
  {
    hide Consistent, AfterInsert, AfterUpdate, AfterRemove;
    match op
    case Insert(r, s) => InsertKeepsConsistent(t, r, s);
    case Delete(r) => DeleteKeepsConsistent(t, r);
    case Update(r, s) => UpdateKeepsConsistent(t, r, s);
    case Remove(r) => RemoveKeepsConsistent(t, r);
  }

  /**
    Over every run of inserts, updates and deletes of either kind the two tables stay consistent: what
    they hold of a row is its name, signature and doc comment, and its name once more.
   */
  lemma {:induction false} RunKeepsConsistent(start: Tables, ops: seq<Operation>)
    requires Consistent(start) && History(start, ops)
    ensures Consistent(Outcome(start, ops))
    ensures var t := Outcome(start, ops);
            forall r :: r in t.words ==>
              && r in t.rows && r in t.names && t.names[r] == t.rows[r].name
              && t.words[r].name == t.rows[r].name && t.words[r].signature == t.rows[r].signature
              && t.words[r].doc == t.rows[r].doc
  {
    if ops != [] {
      RunKeepsConsistent(start, ops[..|ops| - 1]);
      OperationKeepsConsistent(Outcome(start, ops[..|ops| - 1]), ops[|ops| - 1]);
    }
  }
}
