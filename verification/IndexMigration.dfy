/**
  The migration of the full-text tables by several processes: a readiness test, the write lock, the
  same test again under the lock, and a rebuild that is committed as a whole.
 */
module IndexMigration {
  import opened Options
  import opened SymbolIndex
  import opened SymbolExactness
  import opened SymbolChanges
  import opened IndexReadiness

  const FTS_RULE := "exclude-locals-v1+names-trigram-v1"

  /** The database file. A table that was never made is `None`. */
  datatype Database = Database(
    rows: Rows,
    words: Option<map<RowId, Words>>,
    names: Option<map<RowId, string>>,
    rule: Option<string>)

  predicate ContentIsMissing<V>(rows: Rows, table: Option<map<RowId, V>>) {
    table.None? || (rows != map[] && table.value.Keys == {})
  }

  predicate IsReady(db: Database) {
    db.rule == Some(FTS_RULE) && !ContentIsMissing(db.rows, db.words) && !ContentIsMissing(db.rows, db.names)
  }

  /** The tables and triggers of the current rule are there. */
  predicate Installed(db: Database) {
    db.rule == Some(FTS_RULE) && db.words.Some? && db.names.Some?
  }

  function TablesOf(db: Database): Tables
    requires Installed(db)
  {
    Tables(db.rows, db.words.value, db.names.value)
  }

  function DatabaseOf(t: Tables): Database {
    Database(t.rows, Some(t.words), Some(t.names), Some(FTS_RULE))
  }

  function RebuiltDatabase(db: Database): Database {
    DatabaseOf(Rebuilt(db.rows))
  }

  /** Ready: the current rule is noted, and neither table is missing, or empty beside rows. */
  lemma ReadyMeans(db: Database)
    ensures IsReady(db) <==>
              && db.rule == Some("exclude-locals-v1+names-trigram-v1") && db.words.Some? && db.names.Some?
              && (db.rows == map[] || (db.words.value != map[] && db.names.value != map[]))
  {
    if db.words.Some? { assert db.words.value.Keys == {} <==> db.words.value == map[]; }
    if db.names.Some? { assert db.names.value.Keys == {} <==> db.names.value == map[]; }
  }

  lemma InstalledIsReadyIff(db: Database)
    requires Installed(db)
    ensures IsReady(db) <==> HasContent(TablesOf(db))
  {}

  /** With the current rule and exact tables the readiness test succeeds, for an empty table too. */
  lemma ExactIsReady(db: Database)
    requires Installed(db) && Exact(TablesOf(db))
    ensures IsReady(db)
  {
    hide IsLocal;
    if db.rows != map[] { SomeSymbolIsNotLocal(db.rows); }
  }

  lemma RebuiltIsReady(db: Database)
    ensures Installed(RebuiltDatabase(db)) && Exact(TablesOf(RebuiltDatabase(db))) && IsReady(RebuiltDatabase(db))
  {
    RebuiltIsExact(db.rows);
    ExactIsReady(RebuiltDatabase(db));
  }

  datatype Process = Process(name: nat)

  /** Where one call of the migration is. A rebuild is private to its transaction until it is committed. */
  datatype Phase = Idle | Wanting | Locked | Rebuilding(tables: Database) | Done | GaveUp

  datatype State = State(db: Database, lock: Option<Process>, phases: map<Process, Phase>, commits: nat)

  function PhaseOf(s: State, p: Process): Phase {
    if p in s.phases then s.phases[p] else Idle
  }

  function Move(s: State, p: Process, phase: Phase): State {
    s.(phases := s.phases[p := phase])
  }

  function Release(s: State, p: Process): State {
    if s.lock == Some(p) then s.(lock := None) else s
  }

  datatype Step =
    | Look(p: Process) | TakeLock(p: Process) | TimeOut(p: Process) | LookAgain(p: Process)
    | Commit(p: Process) | Crash(p: Process) | Write(ops: seq<Operation>) | Stray(db: Database)

  ghost predicate Enabled(s: State, step: Step) {
    match step
    case Look(p) => PhaseOf(s, p).Idle? || PhaseOf(s, p).Done? || PhaseOf(s, p).GaveUp?
    case TakeLock(p) => PhaseOf(s, p).Wanting? && s.lock.None?
    case TimeOut(p) => PhaseOf(s, p).Wanting?
    case LookAgain(p) => PhaseOf(s, p).Locked?
    case Commit(p) => PhaseOf(s, p).Rebuilding?
    case Crash(p) => true
    // A transaction of another writer, under the triggers.
    case Write(ops) => s.lock.None? && Installed(s.db) && History(TablesOf(s.db), ops)
    // A writer where the current triggers are not there: what becomes of the tables is anyone's guess.
    case Stray(db) => s.lock.None? && !Installed(s.db) && !Installed(db) && db.rule == s.db.rule && UniqueIds(db.rows)
  }

  ghost function Take(s: State, step: Step): State {
    match step
    case Look(p) => Move(s, p, if IsReady(s.db) then Done else Wanting)
    case TakeLock(p) => Move(s.(lock := Some(p)), p, Locked)
    case TimeOut(p) => Move(s, p, GaveUp)
    case LookAgain(p) =>
      if IsReady(s.db) then Release(Move(s, p, Done), p) else Move(s, p, Rebuilding(RebuiltDatabase(s.db)))
    case Commit(p) =>
      if PhaseOf(s, p).Rebuilding? then
        Release(Move(s, p, Done), p).(db := PhaseOf(s, p).tables, commits := s.commits + 1)
      else s
    case Crash(p) => Release(Move(s, p, Idle), p)
    case Write(ops) => if Installed(s.db) then s.(db := DatabaseOf(Outcome(TablesOf(s.db), ops))) else s
    case Stray(db) => s.(db := db)
  }

  ghost predicate Run(start: State, steps: seq<Step>) {
    steps == [] || (Run(start, steps[..|steps| - 1]) && Enabled(End(start, steps[..|steps| - 1]), steps[|steps| - 1]))
  }

  ghost function End(start: State, steps: seq<Step>): State {
    if steps == [] then start else Take(End(start, steps[..|steps| - 1]), steps[|steps| - 1])
  }

  ghost predicate Start(s: State) {
    s.lock.None? && s.phases == map[] && s.commits == 0 && UniqueIds(s.db.rows)
  }

  ghost predicate Holds(s: State, p: Process) {
    PhaseOf(s, p).Locked? || PhaseOf(s, p).Rebuilding?
  }

  /** What every step keeps, whatever the writers do. */
  ghost predicate Invariant(s: State) {
    && (forall p :: Holds(s, p) ==> s.lock == Some(p))
    && (forall p :: PhaseOf(s, p).Rebuilding? ==> !IsReady(s.db) && PhaseOf(s, p).tables == RebuiltDatabase(s.db))
    && UniqueIds(s.db.rows)
    && (s.commits > 0 ==> Installed(s.db) && Kept(TablesOf(s.db)))
  }

  lemma StepKeepsLock(s: State, step: Step)
    requires Invariant(s) && Enabled(s, step)
    ensures var s' := Take(s, step);
            && (forall p :: Holds(s', p) ==> s'.lock == Some(p))
            && forall p :: PhaseOf(s', p).Rebuilding? ==>
                 !IsReady(s'.db) && PhaseOf(s', p).tables == RebuiltDatabase(s'.db)
  {
    hide Installed, RebuiltDatabase, IsReady, Kept, DatabaseOf;
    if step.Commit? { assert Holds(s, step.p); }
    var s' := Take(s, step);
    forall p ensures Holds(s', p) ==> s'.lock == Some(p) { assert Holds(s, p) ==> s.lock == Some(p); }
    forall p | PhaseOf(s', p).Rebuilding?
      ensures !IsReady(s'.db) && PhaseOf(s', p).tables == RebuiltDatabase(s'.db)
    {
      if step != LookAgain(p) { assert Holds(s, p) && PhaseOf(s, p).Rebuilding?; }
    }
  }

  lemma RebuiltIsKept(db: Database)
    ensures RebuiltDatabase(db).rows == db.rows && Installed(RebuiltDatabase(db)) && Kept(TablesOf(RebuiltDatabase(db)))
  {
    RebuiltIsReady(db);
    ExactIsKept(TablesOf(RebuiltDatabase(db)));
  }

  lemma StepKeepsTables(s: State, step: Step)
    requires Invariant(s) && Enabled(s, step)
    ensures var s' := Take(s, step);
            UniqueIds(s'.db.rows) && (s'.commits > 0 ==> Installed(s'.db) && Kept(TablesOf(s'.db)))
  {
    hide IsReady, RebuiltDatabase, Outcome, History, Kept, UniqueIds;
    match step
    case Commit(p) => RebuiltIsKept(s.db);
    case Write(ops) =>
      HistoryKeepsUnique(TablesOf(s.db), ops);
      if s.commits > 0 { HistoryKeepsKept(TablesOf(s.db), ops); }
    case Look(_) =>
    case TakeLock(_) =>
    case TimeOut(_) =>
    case LookAgain(_) =>
    case Crash(_) =>
    case Stray(_) =>
  }

  lemma {:induction false} RunKeepsInvariant(start: State, steps: seq<Step>)
    requires Start(start) && Run(start, steps)
    ensures Invariant(End(start, steps))
  {
    if steps != [] {
      RunKeepsInvariant(start, steps[..|steps| - 1]);
      StepKeepsLock(End(start, steps[..|steps| - 1]), steps[|steps| - 1]);
      StepKeepsTables(End(start, steps[..|steps| - 1]), steps[|steps| - 1]);
    }
  }

  /** A commit is always a rebuild of the symbols as they then are, from tables that were not ready. */
  lemma CommitRebuildsStaleTables(start: State, steps: seq<Step>, p: Process)
    requires Start(start) && Run(start, steps) && Enabled(End(start, steps), Commit(p))
    ensures var s := End(start, steps);
            !IsReady(s.db) && Take(s, Commit(p)).db == RebuiltDatabase(s.db) && IsReady(Take(s, Commit(p)).db)
  {
    hide RebuiltDatabase, IsReady, Kept;
    RunKeepsInvariant(start, steps);
    RebuiltIsReady(End(start, steps).db);
  }

  // How many rebuilds there are.

  function One(b: bool): nat {
    if b then 1 else 0
  }

  /** How often a ready index has ceased to be ready. */
  ghost function Losses(start: State, steps: seq<Step>): nat {
    if steps == [] then 0
    else
      var front := steps[..|steps| - 1];
      Losses(start, front) + One(IsReady(End(start, front).db) && !IsReady(End(start, steps).db))
  }

  lemma StepCounts(s: State, step: Step)
    requires Invariant(s) && Enabled(s, step)
    ensures var s' := Take(s, step);
            s'.commits + One(!IsReady(s'.db)) <= s.commits + One(!IsReady(s.db)) + One(IsReady(s.db) && !IsReady(s'.db))
  {
    hide IsReady, RebuiltDatabase, Outcome, History, Kept;
    RebuiltIsReady(s.db);
  }

  /**
    With any number of processes, crashes and writers: a rebuild is committed only for an index that was
    not ready to begin with, or that a writer has made so since.
   */
  lemma {:induction false} RebuildsAreLosses(start: State, steps: seq<Step>)
    requires Start(start) && Run(start, steps)
    ensures End(start, steps).commits + One(!IsReady(End(start, steps).db))
            <= Losses(start, steps) + One(!IsReady(start.db))
  {
    hide IsReady, Take, Enabled, Invariant;
    if steps != [] {
      var front, step := steps[..|steps| - 1], steps[|steps| - 1];
      RebuildsAreLosses(start, front);
      RunKeepsInvariant(start, front);
      StepCounts(End(start, front), step);
    }
  }

  /** After a rebuild, readiness is lost exactly by the transactions that empty the tables. */
  lemma ReadinessIsLostIff(start: State, steps: seq<Step>, step: Step)
    requires Start(start) && Run(start, steps) && Enabled(End(start, steps), step)
    requires var s := End(start, steps); s.commits > 0 && IsReady(s.db)
    ensures var s := End(start, steps);
            && Installed(s.db)
            && (IsReady(Take(s, step).db) <==> !(step.Write? && EmptiedBy(TablesOf(s.db), step.ops)))
  {
    hide IsReady, RebuiltDatabase, Outcome, History, Kept, EmptiedBy;
    var s := End(start, steps);
    RunKeepsInvariant(start, steps);
    InstalledIsReadyIff(s.db);
    match step
    case Write(ops) =>
      HistoryLosesContentIff(TablesOf(s.db), ops);
      InstalledIsReadyIff(Take(s, step).db);
    case Commit(p) => RebuiltIsReady(s.db);
    case Look(_) =>
    case TakeLock(_) =>
    case TimeOut(_) =>
    case LookAgain(_) =>
    case Crash(_) =>
    case Stray(_) =>
  }

  /** The steps of one call that rebuilds. */
  function Call(p: Process): seq<Step> {
    [Look(p), TakeLock(p)] + [LookAgain(p), Commit(p)]
  }

  ghost predicate Quiet(s: State, p: Process) {
    s.lock.None? && !PhaseOf(s, p).Wanting? && !Holds(s, p)
  }

  lemma TwoSteps(s: State, a: Step, b: Step)
    requires Enabled(s, a) && Enabled(Take(s, a), b)
    ensures Run(s, [a, b]) && End(s, [a, b]) == Take(Take(s, a), b)
  {
    assert [a, b][..1] == [a] && [a][..0] == [];
    assert End(s, [a]) == Take(End(s, []), a) && Run(s, []);
    assert Run(s, [a]);
  }

  /** Every index that is not ready is rebuilt by the next call that gets the lock. */
  lemma CallRebuilds(s: State, p: Process)
    requires !IsReady(s.db) && Quiet(s, p)
    ensures Run(s, Call(p)) && End(s, Call(p)).db == RebuiltDatabase(s.db) && End(s, Call(p)).commits == s.commits + 1
    ensures Quiet(End(s, Call(p)), p)
  {
    hide IsReady, RebuiltDatabase;
    var one := Take(Take(s, Look(p)), TakeLock(p));
    TwoSteps(s, Look(p), TakeLock(p));
    TwoSteps(one, LookAgain(p), Commit(p));
    RunOn(s, [Look(p), TakeLock(p)], [LookAgain(p), Commit(p)]);
  }

  // Writers whose deletes clear links.

  /** Every transaction deletes as `ON DELETE SET NULL` does, and changes no id. */
  ghost predicate WritersClearLinks(start: State, steps: seq<Step>) {
    steps == [] ||
    (var s, step := End(start, steps[..|steps| - 1]), steps[|steps| - 1];
     && WritersClearLinks(start, steps[..|steps| - 1])
     && (step.Write? && Installed(s.db) ==> ClearsLinksThroughout(TablesOf(s.db), step.ops)))
  }

  lemma {:induction false} ClearingKeepsReady(start: State, steps: seq<Step>)
    requires Start(start) && Run(start, steps) && WritersClearLinks(start, steps)
    ensures var s := End(start, steps); s.commits > 0 ==> Installed(s.db) && Grounded(TablesOf(s.db)) && IsReady(s.db)
  {
    hide IsReady, RebuiltDatabase, Outcome, History, Kept, Grounded, ClearsLinksThroughout;
    if steps != [] {
      var s, step := End(start, steps[..|steps| - 1]), steps[|steps| - 1];
      ClearingKeepsReady(start, steps[..|steps| - 1]);
      RunKeepsInvariant(start, steps[..|steps| - 1]);
      ClearingStep(s, step);
    }
  }

  lemma ClearingStep(s: State, step: Step)
    requires Invariant(s) && Enabled(s, step)
    requires s.commits > 0 ==> Installed(s.db) && Grounded(TablesOf(s.db)) && IsReady(s.db)
    requires step.Write? && Installed(s.db) ==> ClearsLinksThroughout(TablesOf(s.db), step.ops)
    ensures var s' := Take(s, step); s'.commits > 0 ==> Installed(s'.db) && Grounded(TablesOf(s'.db)) && IsReady(s'.db)
  {
    hide IsReady, RebuiltDatabase, Outcome, History, Kept, Grounded, ClearsLinksThroughout, UniqueIds;
    match step
    case Commit(p) =>
      RebuiltIsReady(s.db);
      RebuiltIsKept(s.db);
      ExactIsGrounded(TablesOf(RebuiltDatabase(s.db)));
    case Write(ops) =>
      if s.commits > 0 {
        ClearingHistoryHasContent(TablesOf(s.db), ops);
        InstalledIsReadyIff(Take(s, step).db);
      }
    case Look(_) =>
    case TakeLock(_) =>
    case TimeOut(_) =>
    case LookAgain(_) =>
    case Crash(_) =>
    case Stray(_) =>
  }

  lemma {:induction false} ClearingCounts(start: State, steps: seq<Step>)
    requires Start(start) && Run(start, steps) && WritersClearLinks(start, steps)
    ensures End(start, steps).commits <= 1
  {
    hide IsReady, RebuiltDatabase, Outcome, History, Kept, Grounded, ClearsLinksThroughout, Installed, UniqueIds;
    if steps != [] {
      var front, step := steps[..|steps| - 1], steps[|steps| - 1];
      ClearingCounts(start, front);
      ClearingKeepsReady(start, front);
      RunKeepsInvariant(start, front);
    }
  }

  /**
    When deletes clear the links of the children, at most one rebuild is ever committed, whatever else the
    writers do. Once one has been, the index stays ready, and every later call leaves it alone.
   */
  lemma AtMostOneRebuild(start: State, steps: seq<Step>)
    requires Start(start) && Run(start, steps) && WritersClearLinks(start, steps)
    ensures End(start, steps).commits <= 1
    ensures var s := End(start, steps);
            s.commits == 1 ==>
              && IsReady(s.db)
              && (forall p :: !Enabled(s, Commit(p)))
              && (forall p :: Enabled(s, Look(p)) ==> PhaseOf(Take(s, Look(p)), p).Done? && Take(s, Look(p)).db == s.db)
              && (forall p :: Enabled(s, LookAgain(p)) ==>
                    PhaseOf(Take(s, LookAgain(p)), p).Done? && Take(s, LookAgain(p)).db == s.db)
  {
    hide IsReady, RebuiltDatabase, Grounded, Kept, UniqueIds;
    ClearingCounts(start, steps);
    ClearingKeepsReady(start, steps);
    RunKeepsInvariant(start, steps);
  }

  // Writers whose deletes leave links standing.

  const PARAMETER := Symbol("x", "a.rs", "x", Variable, Some("f"), "", "", "rust", NO_FACTS)

  /** A rebuild, a function with a parameter, the delete of the function alone, and another rebuild. */
  function DeletedFunctionRun(p: Process): seq<Step> {
    Call(p)
    + [Write([Insert(RowId(1), FUNCTION), Insert(RowId(2), PARAMETER)]), Write([Delete(RowId(1))])]
    + Call(p)
  }

  lemma OneOperation(t: Tables, op: Operation)
    requires Possible(t, op)
    ensures History(t, [op]) && Outcome(t, [op]) == After(t, op)
  {
    assert [op][..0] == [];
    assert Outcome(t, []) == t && History(t, []);
  }

  lemma TwoOperations(t: Tables, a: Operation, b: Operation)
    requires Possible(t, a) && Possible(After(t, a), b)
    ensures History(t, [a, b]) && Outcome(t, [a, b]) == After(After(t, a), b)
  {
    OneOperation(t, a);
    assert [a, b][..1] == [a];
  }

  ghost function Filled(): Tables {
    AfterInsert(AfterInsert(EMPTY, RowId(1), FUNCTION), RowId(2), PARAMETER)
  }

  lemma WritesOfRun(s: State)
    requires s.lock.None? && s.db == DatabaseOf(EMPTY)
    ensures var writes := [Write([Insert(RowId(1), FUNCTION), Insert(RowId(2), PARAMETER)]), Write([Delete(RowId(1))])];
            Run(s, writes) && End(s, writes) == s.(db := DatabaseOf(AfterDelete(Filled(), RowId(1))))
  {
    hide IsLocal, MadeLocal;
    var one, two := Write([Insert(RowId(1), FUNCTION), Insert(RowId(2), PARAMETER)]), Write([Delete(RowId(1))]);
    TwoOperations(EMPTY, Insert(RowId(1), FUNCTION), Insert(RowId(2), PARAMETER));
    OneOperation(Filled(), Delete(RowId(1)));
    assert TablesOf(s.db) == EMPTY;
    assert Take(s, one) == s.(db := DatabaseOf(Filled()));
    assert TablesOf(Take(s, one).db) == Filled();
    TwoSteps(s, one, two);
  }

  /** A writer that deletes a function and leaves its parameter makes a second rebuild necessary. */
  lemma DeletedFunctionRebuildsTwice(start: State, p: Process)
    requires Start(start) && start.db == Database(map[], None, None, None)
    ensures Run(start, DeletedFunctionRun(p)) && End(start, DeletedFunctionRun(p)).commits == 2
  {
    hide IsLocal, MadeLocal, IsReady, AfterInsert, AfterDelete, Run, End;
    var writes := [Write([Insert(RowId(1), FUNCTION), Insert(RowId(2), PARAMETER)]), Write([Delete(RowId(1))])];
    MissingTablesNotReady(start.db);
    CallRebuilds(start, p);
    var one := End(start, Call(p));
    NothingRebuilt(start.db);
    WritesOfRun(one);
    var two := End(one, writes);
    DeletedFunctionEmpties();
    InstalledIsReadyIff(two.db);
    CallRebuilds(two, p);
    RunOn(start, Call(p), writes);
    RunOn(start, Call(p) + writes, Call(p));
  }

  lemma MissingTablesNotReady(db: Database)
    requires db.words.None?
    ensures !IsReady(db)
  {}

  lemma NothingRebuilt(db: Database)
    requires db.rows == map[]
    ensures RebuiltDatabase(db) == DatabaseOf(EMPTY)
  {
    assert NonLocal(db.rows) == {};
  }

  // One call as it is written.

  /** The two tables filled from the symbols that are not local. */
  method Populate(rows: Rows) returns (words: map<RowId, Words>, names: map<RowId, string>)
    ensures Tables(rows, words, names) == Rebuilt(rows)
  {
    hide IsLocal;
    words, names := map[], map[];
    var rest := NonLocal(rows);
    while rest != {}
      invariant rest <= NonLocal(rows)
      invariant words.Keys == names.Keys == NonLocal(rows) - rest
      invariant forall r :: r in words ==> words[r] == WordsOf(rows[r])
      invariant forall r :: r in names ==> names[r] == rows[r].name
      decreases rest
    {
      var r :| r in rest;
      rest := rest - {r};
      words, names := words[r := WordsOf(rows[r])], names[r := rows[r].name];
    }
  }

  /** What a call finds when its wait is over: the database, and the lock, which may still be held. */
  datatype Met = Met(db: Database, lock: Option<Process>)

  /** The steps are those of other processes while `p` waits, and end with the two files as `met`. */
  ghost predicate Waits(s: State, p: Process, others: seq<Step>, met: Met) {
    && Run(s, others) && PhaseOf(End(s, others), p).Wanting?
    && met == Met(End(s, others).db, End(s, others).lock)
  }

  /** The database file with its write lock. The processes and the count of commits are kept for the proof. */
  class IndexFile {
    var db: Database
    var lock: Option<Process>
    ghost var phases: map<Process, Phase>
    ghost var commits: nat

    ghost function Now(): State
      reads this
    {
      State(db, lock, phases, commits)
    }

    constructor (db: Database)
      requires UniqueIds(db.rows)
      ensures Start(Now()) && this.db == db
    {
      this.db, lock := db, None;
      phases, commits := map[], 0;
    }

    /** Appends to the list the step whose writes have just been made. */
    ghost method Did(s: State, steps: seq<Step>, step: Step) returns (longer: seq<Step>)
      requires Run(s, steps) && Enabled(End(s, steps), step)
      requires db == Take(End(s, steps), step).db && lock == Take(End(s, steps), step).lock
      modifies this`phases, this`commits
      ensures longer == steps + [step] && Run(s, longer) && End(s, longer) == Now() == Take(End(s, steps), step)
    {
      longer := steps + [step];
      assert longer[..|longer| - 1] == steps;
      phases, commits := End(s, longer).phases, End(s, longer).commits;
    }

    /** Waiting for the lock: meanwhile other processes do what they do, and leave the two files as `met`. */
    method Wait(p: Process, met: Met, ghost others: seq<Step>, ghost s: State, ghost before: seq<Step>)
      returns (ghost steps: seq<Step>)
      requires Run(s, before) && End(s, before) == Now() && Waits(Now(), p, others, met)
      modifies this
      ensures Run(s, steps) && End(s, steps) == Now() == End(old(Now()), others)
    {
      RunOn(s, before, others);
      ghost var later := End(Now(), others);
      steps := before + others;
      db, lock := met.db, met.lock;
      phases, commits := later.phases, later.commits;
    }

    /**
      One call. A ready index is left alone; otherwise readiness is tested again on what the call finds
      under the lock, and only an index that is still not ready is rebuilt. Either way it is ready in the
      end. When the lock is still held after the wait the call fails and changes nothing. What the call
      did, and the others while it waited, is a list of protocol steps.
     */
    method EnsureFtsIndex(p: Process, met: Met, ghost others: seq<Step>) returns (ok: bool, ghost steps: seq<Step>)
      requires Enabled(Now(), Look(p))
      requires !IsReady(db) ==> Waits(Move(Now(), p, Wanting), p, others, met)
      modifies this
      ensures Run(old(Now()), steps) && End(old(Now()), steps) == Now()
      ensures ok <==> IsReady(old(db)) || met.lock.None?
      ensures ok ==> IsReady(db) && PhaseOf(Now(), p).Done?
      ensures ok ==> db.words.Some? && db.names.Some?
      ensures ok ==> db.rows == map[] || (db.words.value != map[] && db.names.value != map[])
      ensures ok ==>
                db == if IsReady(old(db)) then old(db) else if IsReady(met.db) then met.db else RebuiltDatabase(met.db)
      ensures !ok ==> db == met.db && lock == met.lock && PhaseOf(Now(), p).GaveUp?
    {
      hide Run, End, IsReady, RebuiltDatabase;
      ghost var s := Now();
      NothingDone(s);
      ReadyMeans(db);
      ReadyMeans(met.db);
      ReadyMeans(RebuiltDatabase(met.db));
      var ready := IsReady(db);
      steps := Did(s, [], Look(p));
      if ready {
        return true, steps;
      }
      steps := Wait(p, met, others, s, steps);
      if lock.Some? {
        steps := Did(s, steps, TimeOut(p));
        return false, steps;
      }
      lock := Some(p);
      steps := Did(s, steps, TakeLock(p));
      ready := IsReady(db);
      if ready {
        lock := None;
        steps := Did(s, steps, LookAgain(p));
        return true, steps;
      }
      steps := Did(s, steps, LookAgain(p));
      RebuiltIsReady(db);
      var words, names := Populate(db.rows);
      RebuiltIs(db, words, names);
      db := Database(db.rows, Some(words), Some(names), Some(FTS_RULE));
      lock := None;
      steps := Did(s, steps, Commit(p));
      ok := true;
    }
  }

  lemma {:induction false} RunOn(s: State, a: seq<Step>, b: seq<Step>)
    requires Run(s, a) && Run(End(s, a), b)
    ensures Run(s, a + b) && End(s, a + b) == End(End(s, a), b)
  {
    if b == [] {
      assert a + b == a;
    } else {
      RunOn(s, a, b[..|b| - 1]);
      assert (a + b)[..|a + b| - 1] == a + b[..|b| - 1];
    }
  }

  lemma NothingDone(s: State)
    ensures Run(s, []) && End(s, []) == s
  {}

  lemma RebuiltIs(db: Database, words: map<RowId, Words>, names: map<RowId, string>)
    requires Tables(db.rows, words, names) == Rebuilt(db.rows)
    ensures RebuiltDatabase(db) == Database(db.rows, Some(words), Some(names), Some(FTS_RULE))
  {}
}
