/**
  A comparison campaign that can be interrupted anywhere and run again, one runner at a time: the
  records of the jobs, and what a run does at each of them.
 */
module ComparisonRun {
  import opened Options
  import opened Text
  import opened Decimal

  datatype Job = Job(task: string, arm: string, repetition: nat, order: nat)

  function RunIdentifier(job: Job): string {
    job.task + "-" + job.arm + "-r" + Numeral(job.repetition)
  }

  // The identifiers.

  lemma NumeralNoDash(n: nat)
    ensures '-' !in Numeral(n)
  {}

  lemma IdentifierText(job: Job)
    ensures RunIdentifier(job) == job.task + ['-'] + (job.arm + ['-'] + ("r" + Numeral(job.repetition)))
  {
    hide Numeral;
    assert "-r" == ['-'] + "r";
  }

  /** The identifier gives back its job, as long as no arm has a dash in its name. */
  lemma IdentifierParts(job: Job)
    requires '-' !in job.arm
    ensures Split(RunIdentifier(job), '-') == Split(job.task, '-') + [job.arm, "r" + Numeral(job.repetition)]
  {
    hide Split, Numeral, RunIdentifier;
    var last := "r" + Numeral(job.repetition);
    NumeralNoDash(job.repetition);
    SplitWhole(last, '-');
    SplitWhole(job.arm, '-');
    SplitAppend(job.arm, last, '-');
    SplitAppend(job.task, job.arm + ['-'] + last, '-');
    IdentifierText(job);
    assert [job.arm] + [last] == [job.arm, last];
  }

  lemma IdentifierDetermines(a: Job, b: Job)
    requires '-' !in a.arm && '-' !in b.arm && RunIdentifier(a) == RunIdentifier(b)
    ensures a.task == b.task && a.arm == b.arm && a.repetition == b.repetition
  {
    IdentifierParts(a);
    IdentifierParts(b);
    var parts, n := Split(RunIdentifier(a), '-'), |Split(a.task, '-')|;
    assert parts[..|parts| - 2] == Split(a.task, '-') == Split(b.task, '-');
    JoinSplit(a.task, '-');
    JoinSplit(b.task, '-');
    assert parts[n] == a.arm && parts[n] == b.arm;
    assert parts[n + 1] == "r" + Numeral(a.repetition) == "r" + Numeral(b.repetition);
    assert Numeral(a.repetition) == ("r" + Numeral(a.repetition))[1..] == ("r" + Numeral(b.repetition))[1..]
      == Numeral(b.repetition);
    ValueOfNumeral(a.repetition);
    ValueOfNumeral(b.repetition);
  }

  /** The arm at each repetition and position: each repetition has every arm once. */
  function ArmAt(repetition: nat, position: nat): string
    requires 1 <= repetition <= 3 && 1 <= position <= 3
  {
    var orders := [["native", "current", "revised"], ["revised", "native", "current"],
      ["current", "revised", "native"]];
    orders[repetition - 1][position - 1]
  }

  function Schedule(tasks: seq<string>): seq<Job> {
    seq(9 * |tasks|, i requires 0 <= i < 9 * |tasks| =>
      Job(tasks[i / 9], ArmAt(i % 9 / 3 + 1, i % 9 % 3 + 1), i % 9 / 3 + 1, i % 9 % 3 + 1))
  }

  ghost predicate DistinctIdentifiers(jobs: seq<Job>) {
    forall i, j :: 0 <= i < j < |jobs| ==> RunIdentifier(jobs[i]) != RunIdentifier(jobs[j])
  }

  lemma ArmsDiffer(repetition: nat, p: nat, q: nat)
    requires 1 <= repetition <= 3 && 1 <= p <= 3 && 1 <= q <= 3
    ensures ArmAt(repetition, p) == ArmAt(repetition, q) ==> p == q
    ensures '-' !in ArmAt(repetition, p)
  {
    assert "native"[0] == 'n' && "current"[0] == 'c' && "revised"[0] == 'r';
  }

  lemma ScheduleHas(tasks: seq<string>, t: nat, repetition: nat, position: nat)
    requires t < |tasks| && 1 <= repetition <= 3 && 1 <= position <= 3
    ensures Job(tasks[t], ArmAt(repetition, position), repetition, position) in Schedule(tasks)
  {
    hide ArmAt;
    var inTask := 3 * (repetition - 1) + position - 1;
    var i := 9 * t + inTask;
    assert i / 9 == t && i % 9 == inTask;
    assert inTask / 3 == repetition - 1 && inTask % 3 == position - 1;
    assert Schedule(tasks)[i] == Job(tasks[t], ArmAt(repetition, position), repetition, position);
  }

  /** Every task meets every arm in each repetition, and at each position. */
  lemma ScheduleIsBalanced(tasks: seq<string>, task: string, arm: string, n: nat)
    requires task in tasks && (arm == "native" || arm == "current" || arm == "revised") && 1 <= n <= 3
    ensures exists position :: 1 <= position <= 3 && Job(task, arm, n, position) in Schedule(tasks)
    ensures exists repetition :: 1 <= repetition <= 3 && Job(task, arm, repetition, n) in Schedule(tasks)
  {
    hide Schedule;
    var t :| 0 <= t < |tasks| && tasks[t] == task;
    var position := if ArmAt(n, 1) == arm then 1 else if ArmAt(n, 2) == arm then 2 else 3;
    ScheduleHas(tasks, t, n, position);
    assert ArmAt(n, position) == arm;
    var repetition := if ArmAt(1, n) == arm then 1 else if ArmAt(2, n) == arm then 2 else 3;
    ScheduleHas(tasks, t, repetition, n);
    assert ArmAt(repetition, n) == arm;
  }

  lemma PlaceDetermined(i: nat, j: nat)
    requires i / 9 == j / 9 && i % 9 / 3 == j % 9 / 3 && i % 9 % 3 == j % 9 % 3
    ensures i == j
  {
    assert i % 9 == j % 9;
  }

  lemma SamePlace(tasks: seq<string>, i: nat, j: nat)
    requires forall a, b :: 0 <= a < b < |tasks| ==> tasks[a] != tasks[b]
    requires i <= j < 9 * |tasks| && tasks[i / 9] == tasks[j / 9]
    requires i % 9 / 3 == j % 9 / 3 && i % 9 % 3 == j % 9 % 3
    ensures i == j
  {
    assert i / 9 <= j / 9;
    PlaceDetermined(i, j);
  }

  lemma JobsDiffer(tasks: seq<string>, i: nat, j: nat)
    requires forall a, b :: 0 <= a < b < |tasks| ==> tasks[a] != tasks[b]
    requires i < j < 9 * |tasks|
    ensures RunIdentifier(Schedule(tasks)[i]) != RunIdentifier(Schedule(tasks)[j])
  {
    var a, b := Schedule(tasks)[i], Schedule(tasks)[j];
    ArmsDiffer(i % 9 / 3 + 1, i % 9 % 3 + 1, j % 9 % 3 + 1);
    ArmsDiffer(j % 9 / 3 + 1, j % 9 % 3 + 1, i % 9 % 3 + 1);
    if RunIdentifier(a) == RunIdentifier(b) {
      IdentifierDetermines(a, b);
      SamePlace(tasks, i, j);
    }
  }

  /** No two jobs of the generated schedule share a run directory. */
  lemma ScheduleDistinct(tasks: seq<string>)
    requires forall i, j :: 0 <= i < j < |tasks| ==> tasks[i] != tasks[j]
    ensures DistinctIdentifiers(Schedule(tasks)) && |Schedule(tasks)| == 9 * |tasks|
  {
    forall i, j | 0 <= i < j < |Schedule(tasks)|
      ensures RunIdentifier(Schedule(tasks)[i]) != RunIdentifier(Schedule(tasks)[j])
    {
      JobsDiffer(tasks, i, j);
    }
  }

  // The protocol. Jobs are named by their place in the schedule.

  datatype Verdict = Settled | Failed | Unreadable

  /** The progress file of a job, and its outcome file. */
  datatype Record = Record(progress: bool, outcome: Option<Verdict>)

  const NOTHING := Record(false, None)

  datatype Phase = Arriving | Dispatching | Recording(verdict: Verdict) | Clearing(verdict: Verdict)

  datatype Result = Complete | Incomplete | StoppedAt(job: nat) | Raised

  datatype Runner = Runner(at: nat, phase: Phase, priorFailures: nat)

  datatype State = State(records: seq<Record>, dispatched: seq<nat>, runner: Option<Runner>, results: seq<Result>)

  datatype Step =
    | Begin
    | Arrive
    | Dispatch(started: bool, verdict: Verdict)
    | WriteOutcome
    | WriteOutcomePartly
    | ClearProgress
    | Crash

  function Recorded(record: Record): bool {
    record != NOTHING
  }

  function End(s: State, result: Result): State {
    s.(runner := None, results := s.results + [result])
  }

  /** What a run does when it comes to the next job of the schedule, or to its end. */
  function ArriveAt(s: State, r: Runner): State {
    if r.at >= |s.records| then End(s, if r.priorFailures > 0 then Incomplete else Complete)
    else
      var record := s.records[r.at];
      match record.outcome
      case Some(Unreadable) => End(s, Raised)
      case Some(verdict) =>
        s.(runner := Some(Runner(r.at + 1, Arriving, r.priorFailures + (if verdict.Failed? then 1 else 0))))
      case None =>
        if record.progress then End(s.(records := s.records[r.at := Record(true, Some(Failed))]), StoppedAt(r.at))
        else s.(records := s.records[r.at := Record(true, None)], runner := Some(r.(phase := Dispatching)))
  }

  predicate Enabled(s: State, step: Step) {
    match step
    case Begin => s.runner.None?
    case Arrive => s.runner.Some? && s.runner.value.phase.Arriving?
    case Dispatch(_, verdict) => s.runner.Some? && s.runner.value.phase.Dispatching? && !verdict.Unreadable?
    case WriteOutcome => s.runner.Some? && s.runner.value.phase.Recording? && s.runner.value.at < |s.records|
    case WriteOutcomePartly => s.runner.Some? && s.runner.value.phase.Recording? && s.runner.value.at < |s.records|
    case ClearProgress => s.runner.Some? && s.runner.value.phase.Clearing? && s.runner.value.at < |s.records|
    case Crash => s.runner.Some?
  }

  function Take(s: State, step: Step): State {
    if !Enabled(s, step) then s
    else if step.Begin? then s.(runner := Some(Runner(0, Arriving, 0)))
    else if step.Crash? then s.(runner := None)
    else
      var r := s.runner.value;
      match step
      case Begin => s
      case Crash => s
      case Arrive => ArriveAt(s, r)
      case Dispatch(started, verdict) =>
        var s' := s.(runner := Some(r.(phase := Recording(verdict))));
        if started then s'.(dispatched := s.dispatched + [r.at]) else s'
      case WriteOutcome =>
        s.(records := s.records[r.at := s.records[r.at].(outcome := Some(r.phase.verdict))],
          runner := Some(r.(phase := Clearing(r.phase.verdict))))
      // The fallback record of a failed redaction is not written as a whole: a crash may cut it short.
      case WriteOutcomePartly =>
        s.(records := s.records[r.at := s.records[r.at].(outcome := Some(Unreadable))], runner := None)
      case ClearProgress =>
        var s' := s.(records := s.records[r.at := s.records[r.at].(progress := false)]);
        if r.phase.verdict.Failed? then End(s', StoppedAt(r.at))
        else s'.(runner := Some(Runner(r.at + 1, Arriving, r.priorFailures)))
  }

  function Run(start: State, steps: seq<Step>): State {
    if steps == [] then start else Take(Run(start, steps[..|steps| - 1]), steps[|steps| - 1])
  }

  ghost predicate Start(s: State) {
    && s.dispatched == [] && s.runner.None? && s.results == []
    && forall i :: 0 <= i < |s.records| ==> s.records[i] == NOTHING
  }

  /** The first `k` jobs have a record, each but perhaps the last an outcome; the others have nothing. */
  ghost predicate Prefix(records: seq<Record>, k: nat) {
    && k <= |records|
    && (forall i :: 0 <= i < k - 1 ==> records[i].outcome.Some?)
    && (k > 0 ==> Recorded(records[k - 1]))
    && (forall i :: k <= i < |records| ==> records[i] == NOTHING)
  }

  ghost predicate AllSettled(records: seq<Record>, n: nat) {
    n <= |records| && forall i :: 0 <= i < n ==> records[i].outcome == Some(Settled)
  }

  ghost predicate AllReadable(records: seq<Record>, n: nat) {
    n <= |records| && forall i :: 0 <= i < n ==> records[i].outcome.Some? && !records[i].outcome.value.Unreadable?
  }

  /** Where the runner may be. */
  ghost predicate RunnerRight(s: State, r: Runner) {
    && AllReadable(s.records, r.at)
    && (r.priorFailures == 0 ==> AllSettled(s.records, r.at))
    && match r.phase
       case Arriving => true
       case Dispatching => r.at < |s.records| && s.records[r.at] == Record(true, None) && r.at !in s.dispatched
       case Recording(verdict) => r.at < |s.records| && s.records[r.at] == Record(true, None) && !verdict.Unreadable?
       case Clearing(verdict) =>
         r.at < |s.records| && s.records[r.at] == Record(true, Some(verdict)) && !verdict.Unreadable?
  }

  ghost predicate NoRepeats(jobs: seq<nat>) {
    forall i, j :: 0 <= i < j < |jobs| ==> jobs[i] != jobs[j]
  }

  ghost predicate Invariant(s: State, k: nat) {
    && Prefix(s.records, k)
    && (s.runner.Some? ==> s.runner.value.at <= k && RunnerRight(s, s.runner.value))
    && NoRepeats(s.dispatched)
    && (forall job :: job in s.dispatched ==> job < |s.records| && Recorded(s.records[job]))
    && (forall i :: 0 <= i < |s.results| && s.results[i].Complete? ==> AllSettled(s.records, |s.records|))
  }

  /** How many jobs have a record after a step. */
  function RecordsAfter(s: State, step: Step, k: nat): nat {
    if step.Arrive? && Enabled(s, step) && s.runner.value.at == k < |s.records| then k + 1 else k
  }

  lemma ArriveKeepsInvariant(s: State, k: nat)
    requires Invariant(s, k) && Enabled(s, Arrive)
    ensures Invariant(ArriveAt(s, s.runner.value), RecordsAfter(s, Arrive, k))
  {}

  lemma StepKeepsInvariant(s: State, step: Step, k: nat)
    requires Invariant(s, k)
    ensures Invariant(Take(s, step), RecordsAfter(s, step, k))
  {
    hide ArriveAt;
    if step.Arrive? && Enabled(s, step) { ArriveKeepsInvariant(s, k); }
  }

  lemma {:induction false} RunKeepsInvariant(start: State, steps: seq<Step>) returns (k: nat)
    requires Start(start)
    ensures Invariant(Run(start, steps), k)
  {
    if steps == [] {
      k := 0;
    } else {
      var before := RunKeepsInvariant(start, steps[..|steps| - 1]);
      StepKeepsInvariant(Run(start, steps[..|steps| - 1]), steps[|steps| - 1], before);
      k := RecordsAfter(Run(start, steps[..|steps| - 1]), steps[|steps| - 1], before);
    }
  }

  /**
    Over every run with any number of crashes and restarts: the jobs with a record are a prefix of the
    schedule, only the last of them can lack an outcome, no job is dispatched twice, and "complete" is
    returned only when every job has an outcome that is no failure.
   */
  lemma CampaignIsResumable(start: State, steps: seq<Step>)
    requires Start(start)
    ensures exists k: nat :: Prefix(Run(start, steps).records, k)
    ensures NoRepeats(Run(start, steps).dispatched)
    ensures Complete in Run(start, steps).results ==> AllSettled(Run(start, steps).records, |Run(start, steps).records|)
  {
    var k := RunKeepsInvariant(start, steps);
  }

  // The run as it is written.

  /** The output folder of a campaign. Dispatches, runner and results are kept for the proof. */
  class Output {
    var records: seq<Record>
    ghost var dispatched: seq<nat>
    ghost var runner: Option<Runner>
    ghost var results: seq<Result>

    ghost function Now(): State
      reads this
    {
      State(records, dispatched, runner, results)
    }

    constructor (jobs: nat)
      ensures Start(Now()) && |records| == jobs
    {
      records, dispatched, runner, results := seq(jobs, _ => NOTHING), [], None, [];
    }

    /** Records that the step has just been taken whose writes are already on disk. */
    ghost method Took(before: State, step: Step, k: nat) returns (k': nat)
      requires Invariant(before, k) && Enabled(before, step) && Take(before, step).records == records
      modifies this`dispatched, this`runner, this`results
      ensures Now() == Take(before, step) && k' == RecordsAfter(before, step, k) && Invariant(Now(), k')
    {
      var s := Take(before, step);
      dispatched, runner, results := s.dispatched, s.runner, s.results;
      StepKeepsInvariant(before, step, k);
      k' := RecordsAfter(before, step, k);
    }

    ghost method Began(k: nat) returns (k': nat)
      requires Invariant(Now(), k) && runner.None?
      modifies this`dispatched, this`runner, this`results
      ensures Invariant(Now(), k') && runner == Some(Runner(0, Arriving, 0))
      ensures results == old(results) && dispatched == old(dispatched)
    {
      hide Invariant;
      k' := Took(Now(), Begin, k);
    }

    ghost method Finished(k: nat, priorFailures: nat) returns (k': nat)
      requires Invariant(Now(), k) && runner == Some(Runner(|records|, Arriving, priorFailures))
      modifies this`dispatched, this`runner, this`results
      ensures Invariant(Now(), k') && runner.None? && dispatched == old(dispatched)
      ensures results == old(results) + [if priorFailures > 0 then Incomplete else Complete]
    {
      hide Invariant;
      k' := Took(Now(), Arrive, k);
    }
  }

  /** How the trial of a job goes: whether the agent was started, and with what verdict it ends. */
  datatype Trial = Trial(started: bool, verdict: Verdict)

  /** A run comes no further than this job: its outcome cannot be read, or it was interrupted, or its trial fails. */
  predicate Stops(met: Record, trial: Trial) {
    match met.outcome
    case Some(verdict) => verdict.Unreadable?
    case None => met.progress || trial.verdict.Failed?
  }

  ghost predicate StopsFirst(met: seq<Record>, trials: seq<Trial>, i: nat)
    requires |trials| == |met|
  {
    i < |met| && Stops(met[i], trials[i]) && forall j :: 0 <= j < i ==> !Stops(met[j], trials[j])
  }

  /** What a run leaves of the record of a job it comes to. */
  function Leaves(met: Record, trial: Trial): Record {
    if met.outcome.Some? then met
    else if met.progress then Record(true, Some(Failed))
    else Record(false, Some(trial.verdict))
  }

  /** The jobs, of the first `n`, that had no record and whose agents were started. */
  function Started(met: seq<Record>, trials: seq<Trial>, n: nat): seq<nat>
    requires n <= |met| == |trials|
  {
    if n == 0 then []
    else Started(met, trials, n - 1) + (if met[n - 1] == NOTHING && trials[n - 1].started then [n - 1] else [])
  }

  /** What a run has done when it has come past the first `at` jobs. */
  ghost predicate Past(met: seq<Record>, trials: seq<Trial>, records: seq<Record>, at: nat, priorFailures: nat) {
    && at <= |records| == |met| == |trials|
    && (forall i :: 0 <= i < at ==> !Stops(met[i], trials[i]) && records[i] == Leaves(met[i], trials[i]))
    && (forall i :: at <= i < |met| ==> records[i] == met[i])
    && (priorFailures > 0 <==> exists i :: 0 <= i < at && met[i].outcome == Some(Failed))
  }

  /** The answer of a run, from the records it met and the trials it made. */
  ghost predicate Answers(met: seq<Record>, trials: seq<Trial>, records: seq<Record>, result: Result)
    requires |records| == |met| == |trials|
  {
    && (result == Raised <==> exists i: nat :: StopsFirst(met, trials, i) && met[i].outcome == Some(Unreadable))
    && (forall i: nat :: result == StoppedAt(i) <==> StopsFirst(met, trials, i) && met[i].outcome.None?)
    && (result == Incomplete <==>
          && (forall i :: 0 <= i < |met| ==> !Stops(met[i], trials[i]))
          && exists i :: 0 <= i < |met| && met[i].outcome == Some(Failed))
    && (result == Complete <==> forall i :: 0 <= i < |records| ==> records[i].outcome == Some(Settled))
  }

  /** A run has come to the first `reached` jobs: to all, or to the first that stops it. */
  ghost predicate ComesTo(met: seq<Record>, trials: seq<Trial>, records: seq<Record>, reached: nat)
    requires |records| == |met| == |trials|
  {
    && reached <= |met|
    && (forall i :: 0 <= i < reached ==> records[i] == Leaves(met[i], trials[i]))
    && (forall i :: reached <= i < |met| ==> records[i] == met[i])
    && (forall i :: 0 <= i < reached - 1 ==> !Stops(met[i], trials[i]))
    && (reached < |met| ==> reached > 0 && Stops(met[reached - 1], trials[reached - 1]))
  }

  lemma PastNext(met: seq<Record>, trials: seq<Trial>, records: seq<Record>, at: nat, priorFailures: nat,
      after: seq<Record>)
    requires Past(met, trials, records, at, priorFailures) && at < |met| && !Stops(met[at], trials[at])
    requires after == records[at := Leaves(met[at], trials[at])]
    ensures Past(met, trials, after, at + 1, priorFailures + if met[at].outcome == Some(Failed) then 1 else 0)
  {}

  lemma AnswerAtStop(met: seq<Record>, trials: seq<Trial>, records: seq<Record>, at: nat, priorFailures: nat,
      after: seq<Record>)
    requires Past(met, trials, records, at, priorFailures) && at < |met| && Stops(met[at], trials[at])
    requires after == records[at := Leaves(met[at], trials[at])]
    ensures Answers(met, trials, after, if met[at].outcome.Some? then Raised else StoppedAt(at))
    ensures ComesTo(met, trials, after, at + 1)
  {
    assert StopsFirst(met, trials, at);
    assert after[at].outcome != Some(Settled);
  }

  lemma AnswerAtEnd(met: seq<Record>, trials: seq<Trial>, records: seq<Record>, priorFailures: nat)
    requires Past(met, trials, records, |met|, priorFailures)
    requires forall i :: 0 <= i < |trials| ==> !trials[i].verdict.Unreadable?
    ensures Answers(met, trials, records, if priorFailures > 0 then Incomplete else Complete)
  {
    forall i | 0 <= i < |met| ensures records[i].outcome == Some(Settled) <==> met[i].outcome != Some(Failed) {}
  }

  lemma NothingPast(met: seq<Record>, trials: seq<Trial>)
    requires |met| == |trials|
    ensures Past(met, trials, met, 0, 0)
  {}

  lemma PastMeets(met: seq<Record>, trials: seq<Trial>, records: seq<Record>, at: nat, priorFailures: nat)
    requires Past(met, trials, records, at, priorFailures) && at < |met|
    ensures |records| == |met| == |trials| && records[at] == met[at]
  {}

  lemma AllPassed(met: seq<Record>, trials: seq<Trial>, records: seq<Record>, priorFailures: nat)
    requires Past(met, trials, records, |met|, priorFailures)
    ensures ComesTo(met, trials, records, |met|)
  {}

  /** A run whose trials all settle, over jobs without a record or settled already, is complete. */
  lemma SettlingRunIsComplete(met: seq<Record>, trials: seq<Trial>, records: seq<Record>, reached: nat, result: Result)
    requires |records| == |met| == |trials|
    requires Answers(met, trials, records, result) && ComesTo(met, trials, records, reached)
    requires forall i :: 0 <= i < |met| ==>
               met[i].outcome == Some(Settled) || (met[i] == NOTHING && trials[i].verdict.Settled?)
    ensures result == Complete && reached == |met|
  {}

  /** A run over jobs that are all settled dispatches nothing, changes nothing, and is complete. */
  lemma {:induction false} SettledRunDoesNothing(met: seq<Record>, trials: seq<Trial>, records: seq<Record>,
      reached: nat, result: Result)
    requires |records| == |met| == |trials|
    requires Answers(met, trials, records, result) && ComesTo(met, trials, records, reached)
    requires forall i :: 0 <= i < |met| ==> met[i].outcome == Some(Settled)
    ensures result == Complete && records == met && Started(met, trials, reached) == []
  {
    NothingStarted(met, trials, reached);
  }

  lemma {:induction false} NothingStarted(met: seq<Record>, trials: seq<Trial>, n: nat)
    requires n <= |met| == |trials| && forall i :: 0 <= i < |met| ==> met[i].outcome == Some(Settled)
    ensures Started(met, trials, n) == []
  {
    if n > 0 { NothingStarted(met, trials, n - 1); }
  }

  /**
    One run over the schedule, with no crash, from any state that crashes may have left behind. The answer
    says what the run met and did, "complete" in particular that every job is settled in the end. It
    dispatches exactly the jobs it comes to that had no record, in order, and leaves a state from which
    the next run may start.
   */
  method RunCampaign(out: Output, trials: seq<Trial>, ghost k: nat) returns (result: Result, ghost reached: nat,
      ghost after: nat)
    requires Invariant(out.Now(), k) && out.runner.None?
    requires |trials| == |out.records| && forall i :: 0 <= i < |trials| ==> !trials[i].verdict.Unreadable?
    modifies out
    ensures Invariant(out.Now(), after) && out.runner.None? && |out.records| == old(|out.records|)
    ensures out.results == old(out.results) + [result]
    ensures Answers(old(out.records), trials, out.records, result)
    ensures ComesTo(old(out.records), trials, out.records, reached)
    ensures out.dispatched == old(out.dispatched) + Started(old(out.records), trials, reached)
  {
    hide Prefix, NoRepeats, AllReadable, Answers, Past, Stops, Leaves, StopsFirst, ComesTo, Take, Invariant;
    ghost var met := out.records;
    NothingPast(met, trials);
    after := out.Began(k);
    var at, priorFailures := 0, 0;
    while at < |out.records|
      invariant at <= |out.records| == |trials| == |met| && priorFailures >= 0
      invariant Invariant(out.Now(), after) && out.runner == Some(Runner(at, Arriving, priorFailures))
      invariant out.results == old(out.results)
      invariant out.dispatched == old(out.dispatched) + Started(met, trials, at)
      invariant Past(met, trials, out.records, at, priorFailures)
      decreases |out.records| - at
    {
      ghost var were := out.records;
      PastMeets(met, trials, were, at, priorFailures);
      var answer, failed;
      answer, failed, after := MeetJob(out, at, trials[at], after, priorFailures);
      if answer.Some? {
        AnswerAtStop(met, trials, were, at, priorFailures, out.records);
        return answer.value, at + 1, after;
      }
      PastNext(met, trials, were, at, priorFailures, out.records);
      priorFailures := priorFailures + (if failed then 1 else 0);
      at := at + 1;
    }
    AnswerAtEnd(met, trials, out.records, priorFailures);
    AllPassed(met, trials, out.records, priorFailures);
    result, reached := if priorFailures > 0 then Incomplete else Complete, |trials|;
    after := out.Finished(after, priorFailures);
  }

  /** One round of the loop: what is met of the job decides whether it is run, and whether the run ends there. */
  method MeetJob(out: Output, at: nat, trial: Trial, ghost k: nat, ghost priorFailures: nat)
    returns (answer: Option<Result>, failed: bool, ghost after: nat)
    requires Invariant(out.Now(), k) && out.runner == Some(Runner(at, Arriving, priorFailures)) && at < |out.records|
    requires !trial.verdict.Unreadable?
    modifies out
    ensures Invariant(out.Now(), after)
    ensures out.records == old(out.records)[at := Leaves(old(out.records)[at], trial)]
    ensures out.dispatched
         == old(out.dispatched) + if old(out.records)[at] == NOTHING && trial.started then [at] else []
    ensures failed <==> old(out.records)[at].outcome == Some(Failed)
    ensures answer == if !Stops(old(out.records)[at], trial) then None
                      else if old(out.records)[at].outcome.Some? then Some(Raised) else Some(StoppedAt(at))
    ensures match answer
            case None =>
              && out.runner == Some(Runner(at + 1, Arriving, priorFailures + if failed then 1 else 0))
              && out.results == old(out.results)
            case Some(result) => out.runner.None? && out.results == old(out.results) + [result]
  {
    hide Prefix, NoRepeats, AllReadable, AllSettled, Invariant;
    ghost var before := out.Now();
    var record := out.records[at];
    match record.outcome {
      case Some(verdict) =>
        assert out.records[at := record] == out.records;
        after := out.Took(before, Arrive, k);
        answer, failed := if verdict.Unreadable? then Some(Raised) else None, verdict.Failed?;
      case None =>
        failed := false;
        if record.progress {
          out.records := out.records[at := Record(true, Some(Failed))];
          after := out.Took(before, Arrive, k);
          return Some(StoppedAt(at)), failed, after;
        }
        out.records := out.records[at := Record(true, None)];
        after := out.Took(before, Arrive, k);
        var stopped;
        stopped, after := RunJob(out, at, trial, after, priorFailures);
        answer := if stopped then Some(StoppedAt(at)) else None;
    }
  }

  /** The dispatch of one job, and the record of its outcome. */
  method RunJob(out: Output, at: nat, trial: Trial, ghost k: nat, ghost priorFailures: nat)
    returns (stopped: bool, ghost after: nat)
    requires Invariant(out.Now(), k) && out.runner == Some(Runner(at, Dispatching, priorFailures)) && at < |out.records|
    requires !trial.verdict.Unreadable?
    modifies out
    ensures Invariant(out.Now(), after) && |out.records| == old(|out.records|)
    ensures stopped <==> trial.verdict.Failed?
    ensures out.dispatched == old(out.dispatched) + if trial.started then [at] else []
    ensures if stopped then out.runner.None? && out.results == old(out.results) + [StoppedAt(at)]
            else out.runner == Some(Runner(at + 1, Arriving, priorFailures)) && out.results == old(out.results)
    ensures out.records == old(out.records)[at := Record(false, Some(trial.verdict))]
  {
    hide Prefix, NoRepeats, AllReadable, AllSettled;
    after := out.Took(out.Now(), Dispatch(trial.started, trial.verdict), k);
    ghost var before := out.Now();
    out.records := out.records[at := out.records[at].(outcome := Some(trial.verdict))];
    after := out.Took(before, WriteOutcome, after);
    before := out.Now();
    out.records := out.records[at := out.records[at].(progress := false)];
    stopped := trial.verdict.Failed?;
    after := out.Took(before, ClearProgress, after);
  }
}
