/**
  When neighbouring reports name different diffs: exactly as long as no report is lost or overtaken.
 */
module StopReports {
  import opened Options
  import opened StopHooks
  import opened HookSteps

  ghost predicate Reporting(s: State) {
    exists h :: h in s.phases && s.phases[h].Printing?
  }

  /**
    What goes wrong: a hook dies with its block stored and not reported, after another was reported; or a
    block is stored while the report of an earlier one is still to come.
   */
  ghost predicate Fault(s: State, step: Step) {
    match step
    case Die(h) => h in s.phases && s.phases[h].Printing? && s.printed != []
    case StoreVerdict(h, verdict) => Enabled(s, step) && verdict.Blocks? && Reporting(s)
    case _ => false
  }

  ghost predicate Faultless(start: State, steps: seq<Step>) {
    steps == [] || (Faultless(start, steps[..|steps| - 1]) &&
        !Fault(Run(start, steps[..|steps| - 1]), steps[|steps| - 1]))
  }

  /** Two reports one after the other name the same diff. */
  ghost predicate RepeatsAt(s: State, i: int) {
    && 0 <= i && i + 1 < |s.printed| && s.printed[i] < |s.blocks| && s.printed[i + 1] < |s.blocks|
    && s.blocks[s.printed[i]] == s.blocks[s.printed[i + 1]]
  }

  ghost predicate Repeats(s: State) {
    exists i :: RepeatsAt(s, i)
  }

  // Without a fault.

  /** Reports follow the blocks one by one, and at most the newest block is still to be reported. */
  ghost predicate Orderly(s: State) {
    && (forall h :: h in s.phases && s.phases[h].Printing? ==> s.phases[h].block == |s.blocks| - 1)
    && (forall i, j :: 0 <= i < |s.printed| && j == i + 1 && j < |s.printed| ==> s.printed[j] == s.printed[i] + 1)
    && (s.printed != [] ==> s.printed[|s.printed| - 1] == |s.blocks| - 1 - (if Reporting(s) then 1 else 0))
  }

  /** Only storing a block, reporting it, and dying begin or end a report. */
  lemma PrintingChanges(s: State, step: Step)
    requires Enabled(s, step) && !step.Print? && !step.Die? && !(step.StoreVerdict? && step.verdict.Blocks?)
    ensures var t := Take(s, step);
            && t.blocks == s.blocks && t.printed == s.printed
            && forall g :: g in t.phases && t.phases[g].Printing? <==> g in s.phases && s.phases[g].Printing?
    ensures forall g :: g in Take(s, step).phases && g in s.phases && s.phases[g].Printing? ==>
        Take(s, step).phases[g] == s.phases[g]
  {
    forall g | g != step.h
      ensures g in Take(s, step).phases <==> g in s.phases
      ensures g in s.phases ==> Take(s, step).phases[g] == s.phases[g]
    {
      OnlyOwnPhaseChanges(s, step);
    }
  }

  lemma QuietStepKeepsOrderly(s: State, step: Step)
    requires Orderly(s) && Enabled(s, step)
    requires !step.Print? && !step.Die? && !(step.StoreVerdict? && step.verdict.Blocks?)
    ensures Orderly(Take(s, step))
  {
    hide Take, Enabled;
    PrintingChanges(s, step);
    var t := Take(s, step);
    if Reporting(s) { var g :| g in s.phases && s.phases[g].Printing?; assert g in t.phases && t.phases[g].Printing?; }
    if Reporting(t) { var g :| g in t.phases && t.phases[g].Printing?; assert g in s.phases && s.phases[g].Printing?; }
  }

  lemma OnlyReporter(s: State, h: Hook)
    requires Orderly(s) && PrintersDiffer(s) && h in s.phases && s.phases[h].Printing?
    ensures forall g :: g in s.phases && s.phases[g].Printing? ==> g == h
  {}

  lemma PrintKeepsOrderly(s: State, h: Hook)
    requires Orderly(s) && PrintersDiffer(s) && Enabled(s, Print(h))
    ensures Orderly(Take(s, Print(h))) && !Reporting(Take(s, Print(h)))
  {
    OnlyReporter(s, h);
    assert Reporting(s);
    var t := Take(s, Print(h));
    assert t.phases == s.phases - {h} && t.printed == s.printed + [|s.blocks| - 1] && t.blocks == s.blocks;
  }

  lemma DieKeepsOrderly(s: State, h: Hook)
    requires Orderly(s) && PrintersDiffer(s) && Enabled(s, Die(h)) && !Fault(s, Die(h))
    ensures Orderly(Take(s, Die(h)))
  {
    var t := Take(s, Die(h));
    assert t.phases == s.phases - {h} && t.printed == s.printed && t.blocks == s.blocks;
    if !s.phases[h].Printing? {
      if Reporting(s) { var g :| g in s.phases && s.phases[g].Printing?; assert g in t.phases; }
    }
  }

  lemma StoreKeepsOrderly(s: State, h: Hook, sites: seq<Site>)
    requires Orderly(s) && Enabled(s, StoreVerdict(h, Blocks(sites))) && !Reporting(s)
    ensures Orderly(Take(s, StoreVerdict(h, Blocks(sites))))
  {
    var t := Take(s, StoreVerdict(h, Blocks(sites)));
    assert t.phases == s.phases[h := Printing(|s.blocks|)] && t.printed == s.printed && |t.blocks| == |s.blocks| + 1;
    assert h in t.phases && t.phases[h].Printing?;
    assert Reporting(t);
  }

  lemma StepKeepsOrderly(s: State, step: Step)
    requires Orderly(s) && PrintersDiffer(s) && !Fault(s, step)
    ensures Orderly(Take(s, step))
  {
    hide Orderly, PrintersDiffer;
    if Enabled(s, step) {
      if step.Print? {
        PrintKeepsOrderly(s, step.h);
      } else if step.Die? {
        DieKeepsOrderly(s, step.h);
      } else if step.StoreVerdict? && step.verdict.Blocks? {
        StoreKeepsOrderly(s, step.h, step.verdict.sites);
      } else {
        QuietStepKeepsOrderly(s, step);
      }
    }
  }

  lemma {:induction false} FaultlessIsOrderly(start: State, steps: seq<Step>)
    requires Start(start) && Faultless(start, steps)
    ensures Orderly(Run(start, steps))
  {
    if steps != [] {
      FaultlessIsOrderly(start, steps[..|steps| - 1]);
      RunKeepsInvariant(start, steps[..|steps| - 1]);
      StepKeepsOrderly(Run(start, steps[..|steps| - 1]), steps[|steps| - 1]);
    }
  }

  /** As long as no report is lost or overtaken, neighbouring reports name different diffs. */
  lemma FaultlessReportsDiffer(start: State, steps: seq<Step>)
    requires Start(start) && Faultless(start, steps)
    ensures !Repeats(Run(start, steps))
  {
    hide Run, Invariant;
    var s := Run(start, steps);
    FaultlessIsOrderly(start, steps);
    forall i ensures !RepeatsAt(s, i) {
      if 0 <= i && i + 1 < |s.printed| {
        assert s.printed[i + 1] == s.printed[i] + 1;
        NeighbouringReportsDiffer(start, steps, i);
      }
    }
  }

  // After a fault.

  /** The lock is held by a hook that needs it. */
  ghost predicate LockHeld(s: State) {
    s.lock.Some? ==> s.lock.value in s.phases && NeedsLock(s.phases[s.lock.value])
  }

  lemma StepKeepsLockHeld(s: State, step: Step)
    requires LockHeld(s) && LockRight(s)
    ensures LockHeld(Take(s, step))
  {}

  lemma {:induction false} RunKeepsLockHeld(start: State, steps: seq<Step>)
    requires Start(start)
    ensures LockHeld(Run(start, steps))
  {
    if steps != [] {
      RunKeepsLockHeld(start, steps[..|steps| - 1]);
      RunKeepsInvariant(start, steps[..|steps| - 1]);
      StepKeepsLockHeld(Run(start, steps[..|steps| - 1]), steps[|steps| - 1]);
    }
  }

  lemma FaultlessThen(s: State, steps: seq<Step>, step: Step)
    requires Faultless(s, steps) && !Fault(Run(s, steps), step)
    ensures Faultless(s, steps + [step]) && Run(s, steps + [step]) == Take(Run(s, steps), step)
  {
    ThenOne(s, steps, step);
    assert (steps + [step])[..|steps + [step]| - 1] == steps;
  }

  lemma {:induction false} FaultlessOn(s: State, a: seq<Step>, b: seq<Step>)
    ensures Faultless(s, a + b) <==> Faultless(s, a) && Faultless(Run(s, a), b)
    decreases |b|
  {
    if b == [] {
      assert a + b == a;
    } else {
      var n := |b| - 1;
      assert (a + b)[..|a + b| - 1] == a + b[..n];
      FaultlessOn(s, a, b[..n]);
      RunOn(s, a, b[..n]);
    }
  }

  /** A hook on its way to judging a diff, following given up if there is anything to follow. */
  function Approach(skip: bool, h: Hook, diff: Diff): seq<Step> {
    [Begin(h), Peek(h)] + (if skip then [SkipFollow(h)] else []) + [FindDiff(h, diff), LockToCheck(h), ReadToCheck(h)]
  }

  ghost predicate Calm(steps: seq<Step>) {
    forall i :: 0 <= i < |steps| ==> !steps[i].Die? && !steps[i].StoreVerdict?
  }

  lemma {:induction false} CalmIsFaultless(s: State, steps: seq<Step>)
    requires Calm(steps)
    ensures Faultless(s, steps)
  {
    if steps != [] { CalmIsFaultless(s, steps[..|steps| - 1]); }
  }

  lemma TwoSteps(s: State, a: Step, b: Step)
    ensures Run(s, [a, b]) == Take(Take(s, a), b)
  {
    RunNothing(s);
    ThenOne(s, [], a);
    ThenOne(s, [a], b);
    assert [] + [a] == [a] && [a] + [b] == [a, b];
  }

  lemma ThreeSteps(s: State, a: Step, b: Step, c: Step)
    ensures Run(s, [a, b, c]) == Take(Take(Take(s, a), b), c)
  {
    TwoSteps(s, a, b);
    ThenOne(s, [a, b], c);
    assert [a, b] + [c] == [a, b, c];
  }

  lemma ApproachLooks(s: State, h: Hook)
    requires h !in s.phases && s.lock.None?
    ensures Run(s, [Begin(h), Peek(h)] + (if s.session.sites != [] then [SkipFollow(h)] else [])) == At(s, h, Looking)
  {
    hide Run, Take;
    TakeBegin(s, h);
    TakePeek(s, h);
    TakeSkip(s, h);
    TwoSteps(s, Begin(h), Peek(h));
    if s.session.sites != [] {
      ThenOne(s, [Begin(h), Peek(h)], SkipFollow(h));
    } else {
      assert [Begin(h), Peek(h)] + [] == [Begin(h), Peek(h)];
    }
  }

  lemma ApproachRuns(s: State, h: Hook, diff: Diff)
    requires h !in s.phases && s.lock.None? && !HasSeen(s.session, diff)
    ensures Run(s, Approach(s.session.sites != [], h, diff)) == At(s.(lock := Some(h)), h, Judging(diff, s.session))
  {
    hide Run, Take;
    var front := [Begin(h), Peek(h)] + (if s.session.sites != [] then [SkipFollow(h)] else []);
    ApproachLooks(s, h);
    TakeFind(s, h, diff);
    TakeLock(s, h, diff);
    TakeRead(s, h, diff);
    ThreeSteps(At(s, h, Looking), FindDiff(h, diff), LockToCheck(h), ReadToCheck(h));
    RunOn(s, front, [FindDiff(h, diff), LockToCheck(h), ReadToCheck(h)]);
  }

  /** The state once a check of the diff has listed nothing. */
  ghost function Passed(s: State, diff: Diff): State {
    s.(session := Session(Some(diff), s.session.blocked, s.session.sites))
  }

  function Passing(skip: bool, h: Hook, diff: Diff): seq<Step> {
    Approach(skip, h, diff) + [StoreVerdict(h, Passes)]
  }

  function Blocking(skip: bool, h: Hook, diff: Diff): seq<Step> {
    Approach(skip, h, diff) + [StoreVerdict(h, Blocks([]))]
  }

  lemma PassingRuns(s: State, h: Hook, diff: Diff)
    requires h !in s.phases && s.lock.None? && !HasSeen(s.session, diff)
    ensures var steps := Passing(s.session.sites != [], h, diff);
            Faultless(s, steps) && Run(s, steps) == Passed(s, diff)
  {
    hide Run, Take;
    var front := Approach(s.session.sites != [], h, diff);
    ApproachRuns(s, h, diff);
    CalmIsFaultless(s, front);
    FaultlessThen(s, front, StoreVerdict(h, Passes));
    TakeStore(s, h, diff, Passes);
  }

  lemma BlockingRuns(s: State, h: Hook, diff: Diff)
    requires h !in s.phases && s.lock.None? && !HasSeen(s.session, diff)
    ensures Run(s, Blocking(s.session.sites != [], h, diff)) == At(Stored(s, diff, []), h, Printing(|s.blocks|))
  {
    hide Run, Take;
    ApproachRuns(s, h, diff);
    ThenOne(s, Approach(s.session.sites != [], h, diff), StoreVerdict(h, Blocks([])));
    TakeStore(s, h, diff, Blocks([]));
  }

  lemma BlockingIsFaultless(s: State, h: Hook, diff: Diff)
    requires h !in s.phases && s.lock.None? && !HasSeen(s.session, diff) && !Reporting(s)
    ensures Faultless(s, Blocking(s.session.sites != [], h, diff))
  {
    hide Run, Take;
    var front := Approach(s.session.sites != [], h, diff);
    ApproachRuns(s, h, diff);
    CalmIsFaultless(s, front);
    var judging := At(s.(lock := Some(h)), h, Judging(diff, s.session));
    assert forall g :: g in judging.phases && judging.phases[g].Printing? ==> g in s.phases && s.phases[g].Printing?;
    FaultlessThen(s, front, StoreVerdict(h, Blocks([])));
  }

  /** A diff unlike the three. */
  function Unlike(a: Diff, b: Diff, c: Diff): (d: Diff)
    ensures d != a && d != b && d != c
  {
    Diff(a.hash + b.hash + c.hash + 1)
  }

  function Known(d: Option<Diff>): Diff {
    if d.Some? then d.value else Diff(0)
  }

  /** With nothing left to report, a diff that is not the one blocked on last can be blocked on and reported. */
  lemma ReportAgain(s: State, h: Hook, diff: Diff) returns (steps: seq<Step>)
    requires h !in s.phases && s.lock.None? && !Reporting(s) && s.session.blocked != Some(diff)
    ensures Faultless(s, steps)
    ensures Run(s, steps).printed == s.printed + [|s.blocks|] && Run(s, steps).blocks == s.blocks + [diff]
  {
    hide Run, Take, Fault, Approach;
    var other := Unlike(Known(s.session.checked), Known(s.session.blocked), diff);
    var pass := Passing(s.session.sites != [], h, other);
    PassingRuns(s, h, other);
    var t := Passed(s, other);
    var block := Blocking(t.session.sites != [], h, diff);
    assert forall g :: g in t.phases <==> g in s.phases;
    BlockingRuns(t, h, diff);
    BlockingIsFaultless(t, h, diff);
    TakePrint(Stored(t, diff, []), h, |t.blocks|);
    PrintIsNoFault(Run(t, block), h);
    FaultlessThen(t, block, Print(h));
    steps := pass + (block + [Print(h)]);
    FaultlessOn(s, pass, block + [Print(h)]);
    RunOn(s, pass, block + [Print(h)]);
  }

  lemma PrintIsNoFault(s: State, h: Hook)
    ensures !Fault(s, Print(h))
  {}

  /** A hook that holds the lock can die of it. */
  lemma FreeLock(s: State) returns (steps: seq<Step>)
    requires LockHeld(s)
    ensures var t := Run(s, steps);
            && Faultless(s, steps) && t.lock.None?
            && t.phases.Keys <= s.phases.Keys && (Reporting(t) ==> Reporting(s))
            && t.session == s.session && t.blocks == s.blocks && t.printed == s.printed
  {
    RunNothing(s);
    steps := [];
    if s.lock.Some? {
      var g := s.lock.value;
      FaultlessThen(s, [], Die(g));
      steps := [] + [Die(g)];
      var t := Take(s, Die(g));
      assert t.phases == s.phases - {g} && t.lock.None?;
    }
  }

  /** Reports can come to repeat without a further fault. */
  ghost predicate CanRepeat(s: State) {
    exists more :: Faultless(s, more) && Repeats(Run(s, more))
  }

  lemma RepeatsAtEnd(s: State, printed: seq<nat>, b: nat, n: nat)
    requires s.printed == printed + [b, n] && b < |s.blocks| && n < |s.blocks| && s.blocks[b] == s.blocks[n]
    ensures Repeats(s)
  {
    assert s.printed[|printed|] == b && s.printed[|printed| + 1] == n;
    assert RepeatsAt(s, |printed|);
  }

  /** With nothing left to report, and not blocked on last, the diff reported last can be reported again. */
  lemma CanReportAgain(s: State, front: seq<Step>, h: Hook, printed: seq<nat>, b: nat)
    requires var t := Run(s, front);
             && Faultless(s, front) && h !in t.phases && t.lock.None? && !Reporting(t)
             && t.printed == printed + [b] && b < |t.blocks| && t.session.blocked != Some(t.blocks[b])
    ensures CanRepeat(s)
  {
    hide Run, Reporting, Repeats, RepeatsAt;
    var t := Run(s, front);
    var again := ReportAgain(t, h, t.blocks[b]);
    var end := Run(t, again);
    FaultlessOn(s, front, again);
    RunOn(s, front, again);
    assert end.printed == printed + [b, |t.blocks|];
    RepeatsAtEnd(end, printed, b, |t.blocks|);
    assert Faultless(s, front + again) && Repeats(Run(s, front + again));
  }

  /** A report is lost: the block before it can be blocked on and reported again. */
  lemma LostReport(s: State, h: Hook)
    requires Orderly(s) && Invariant(s) && LockHeld(s) && Fault(s, Die(h))
    ensures CanRepeat(Take(s, Die(h)))
  {
    hide Run, Take, Reporting, Orderly, CanRepeat;
    var t, n := Take(s, Die(h)), |s.printed| - 1;
    StepKeepsLockHeld(s, Die(h));
    LostState(s, h);
    var free := FreeLock(t);
    assert s.printed == s.printed[..n] + [s.printed[n]];
    CanReportAgain(t, free, h, s.printed[..n], s.printed[n]);
  }

  lemma LostState(s: State, h: Hook)
    requires Orderly(s) && Invariant(s) && h in s.phases && s.phases[h].Printing? && s.printed != []
    ensures var t, b := Take(s, Die(h)), s.printed[|s.printed| - 1];
            && h !in t.phases && !Reporting(t) && t.session == s.session && t.blocks == s.blocks &&
                 t.printed == s.printed
            && b == |s.blocks| - 2 && s.session.blocked == Some(s.blocks[b + 1]) && s.blocks[b] != s.blocks[b + 1]
  {
    OnlyReporter(s, h);
    assert Reporting(s);
    var t := Take(s, Die(h));
    assert t.phases == s.phases - {h};
  }

  /** A report is overtaken: once both are out, the one that came late can be blocked on and reported again. */
  lemma OvertakenReport(s: State, step: Step)
    requires Orderly(s) && Invariant(s) && step.StoreVerdict? && Fault(s, step)
    ensures CanRepeat(Take(s, step))
  {
    hide Run, Take, Orderly, Invariant, CanRepeat;
    var h :| h in s.phases && s.phases[h].Printing?;
    var t, prints := Take(s, step), [Print(step.h), Print(h)];
    OvertakenState(s, step, h);
    CalmIsFaultless(t, prints);
    TwoSteps(t, Print(step.h), Print(h));
    CanReportAgain(t, prints, h, s.printed + [|s.blocks|], |s.blocks| - 1);
  }

  lemma OvertakenState(s: State, step: Step, h: Hook)
    requires Orderly(s) && Invariant(s) && step.StoreVerdict? && Fault(s, step) && h in s.phases &&
        s.phases[h].Printing?
    ensures var t, b := Take(s, step), |s.blocks| - 1;
            var v := Take(Take(t, Print(step.h)), Print(h));
            && b >= 0 && h !in v.phases && v.lock.None? && !Reporting(v)
            && v.printed == s.printed + [b + 1] + [b] && v.blocks == s.blocks + [s.phases[step.h].diff]
            && v.session.blocked == Some(s.phases[step.h].diff) && s.phases[step.h].diff != s.blocks[b]
  {
    OnlyReporter(s, h);
    var g := step.h;
    assert PhaseRight(s, s.phases[g]) && PhaseRight(s, s.phases[h]);
    assert NeedsLock(s.phases[g]) && s.lock == Some(g);
    var t := Take(s, step);
    assert t.phases == s.phases[g := Printing(|s.blocks|)] && t.lock.None?;
    var u := Take(t, Print(g));
    assert u.phases == t.phases - {g} && u.lock.None?;
    var v := Take(u, Print(h));
    assert v.phases == u.phases - {h};
    forall q | q in v.phases ensures !v.phases[q].Printing? { assert q in s.phases && v.phases[q] == s.phases[q]; }
  }

  /**
    Exactly when neighbouring reports can name the same diff. Of any run without a fault, and any next
    step: it can go on, without a further fault, to reports that repeat iff the step is a fault.
   */
  lemma ReportsRepeatIff(start: State, steps: seq<Step>, step: Step)
    requires Start(start) && Faultless(start, steps) && Enabled(Run(start, steps), step)
    ensures Fault(Run(start, steps), step) <==> CanRepeat(Take(Run(start, steps), step))
  {
    hide Run, Take, Orderly, Invariant;
    if Fault(Run(start, steps), step) {
      FaultCanRepeat(start, steps, step);
    } else {
      NoFaultCannotRepeat(start, steps, step);
    }
  }

  lemma FaultCanRepeat(start: State, steps: seq<Step>, step: Step)
    requires Start(start) && Faultless(start, steps) && Fault(Run(start, steps), step)
    ensures CanRepeat(Take(Run(start, steps), step))
  {
    hide Run, Take, Orderly, Invariant, LockHeld, CanRepeat;
    FaultlessIsOrderly(start, steps);
    RunKeepsInvariant(start, steps);
    RunKeepsLockHeld(start, steps);
    match step
    case Die(h) => LostReport(Run(start, steps), h);
    case StoreVerdict(_, _) => OvertakenReport(Run(start, steps), step);
  }

  lemma NoFaultCannotRepeat(start: State, steps: seq<Step>, step: Step)
    requires Start(start) && Faultless(start, steps) && !Fault(Run(start, steps), step)
    ensures !CanRepeat(Take(Run(start, steps), step))
  {
    hide Run, Take;
    var next := Take(Run(start, steps), step);
    FaultlessThen(start, steps, step);
    forall more | Faultless(next, more) ensures !Repeats(Run(next, more)) {
      FaultlessOn(start, steps + [step], more);
      RunOn(start, steps + [step], more);
      FaultlessReportsDiffer(start, steps + [step] + more);
    }
  }

  // Two inputs.

  const FIRST := State(Session(None, None, []), None, map[], [], [], [])

  /** A block is reported, one is lost with its hook, and the first diff is blocked on again. */
  function LostRun(): seq<Step> {
    (Blocking(false, Hook(0), Diff(1)) + [Print(Hook(0))])
    + (Blocking(false, Hook(1), Diff(2)) + [Die(Hook(1))])
    + (Blocking(false, Hook(2), Diff(1)) + [Print(Hook(2))])
  }

  /** Nobody dies, but the third hook stores and reports its block before the second reports its own. */
  function OvertakenRun(): seq<Step> {
    (Blocking(false, Hook(0), Diff(1)) + [Print(Hook(0))])
    + Blocking(false, Hook(1), Diff(2))
    + (Blocking(false, Hook(2), Diff(1)) + [Print(Hook(2))])
    + [Print(Hook(1))]
  }

  lemma BlockAndPrint(s: State, h: Hook, diff: Diff)
    requires h !in s.phases && s.lock.None? && s.session.sites == [] && !HasSeen(s.session, diff)
    ensures var t := Stored(s, diff, []);
            Run(s, Blocking(false, h, diff) + [Print(h)]) == t.(printed := s.printed + [|s.blocks|])
  {
    hide Run, Take, Blocking;
    BlockingRuns(s, h, diff);
    ThenOne(s, Blocking(false, h, diff), Print(h));
    TakePrint(Stored(s, diff, []), h, |s.blocks|);
  }

  lemma BlockAndDie(s: State, h: Hook, diff: Diff)
    requires h !in s.phases && s.lock.None? && s.session.sites == [] && !HasSeen(s.session, diff)
    ensures Run(s, Blocking(false, h, diff) + [Die(h)]) == Stored(s, diff, [])
  {
    hide Run, Blocking;
    BlockingRuns(s, h, diff);
    ThenOne(s, Blocking(false, h, diff), Die(h));
    Returned(s.phases, h, Printing(|s.blocks|));
  }

  lemma LostReportsRepeat()
    ensures var s := Run(FIRST, LostRun());
            Start(FIRST) && s.printed == [0, 2] && s.blocks == [Diff(1), Diff(2), Diff(1)] && Repeats(s)
  {
    hide Run, Blocking;
    var one := Blocking(false, Hook(0), Diff(1)) + [Print(Hook(0))];
    var two := Blocking(false, Hook(1), Diff(2)) + [Die(Hook(1))];
    var three := Blocking(false, Hook(2), Diff(1)) + [Print(Hook(2))];
    BlockAndPrint(FIRST, Hook(0), Diff(1));
    BlockAndDie(Run(FIRST, one), Hook(1), Diff(2));
    RunOn(FIRST, one, two);
    BlockAndPrint(Run(FIRST, one + two), Hook(2), Diff(1));
    RunOn(FIRST, one + two, three);
    assert [] + [0, 2] == [0, 2];
    RepeatsAtEnd(Run(FIRST, LostRun()), [], 0, 2);
  }

  lemma OvertakenReportsRepeat()
    ensures var s := Run(FIRST, OvertakenRun());
            Start(FIRST) && s.printed == [0, 2, 1] && s.blocks == [Diff(1), Diff(2), Diff(1)] && Repeats(s)
    ensures forall h :: Die(h) !in OvertakenRun()
  {
    hide Run;
    var one := Blocking(false, Hook(0), Diff(1)) + [Print(Hook(0))];
    var two := Blocking(false, Hook(1), Diff(2));
    var three := Blocking(false, Hook(2), Diff(1)) + [Print(Hook(2))];
    BlockAndPrint(FIRST, Hook(0), Diff(1));
    var s := Run(FIRST, one);
    BlockingRuns(s, Hook(1), Diff(2));
    RunOn(FIRST, one, two);
    BlockAndPrint(Run(FIRST, one + two), Hook(2), Diff(1));
    RunOn(FIRST, one + two, three);
    ThenOne(FIRST, one + two + three, Print(Hook(1)));
    var t := Run(FIRST, one + two + three);
    TakePrint(t.(phases := map[]), Hook(1), 1);
    assert t == At(t.(phases := map[]), Hook(1), Printing(1));
    var last := Run(FIRST, OvertakenRun());
    assert last.printed == [0, 2, 1];
    assert RepeatsAt(last, 0);
  }
}
