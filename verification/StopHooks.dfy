/**
  Stop and SubagentStop hooks of one session, running at the same time and sharing one session record
  under a lock. Each may die after any step.
 */
module StopHooks {
  import opened Options

  datatype Hook = Hook(id: nat)

  /** A diff, told from others by its hash. */
  datatype Diff = Diff(hash: nat)

  datatype Site = Site(path: string, line: nat)

  /** What the hooks remember of the session. */
  datatype Session = Session(checked: Option<Diff>, blocked: Option<Diff>, sites: seq<Site>)

  predicate HasSeen(s: Session, diff: Diff) {
    s.checked == Some(diff) || s.blocked == Some(diff)
  }

  /** What a check finds: a reason to block with the sites it lists, or none. */
  datatype Verdict = Blocks(sites: seq<Site>) | Passes

  datatype Phase =
    | Peeking
    | WantingToFollow
    | Following
    | HavingRead(session: Session)
    | Noting
    | Looking
    | WantingToCheck(diff: Diff)
    | Checking(diff: Diff)
    | Judging(diff: Diff, session: Session)
    | Printing(block: nat)

  /**
    The session record, its lock, and where each hook is. `blocks` lists the diffs of the block records
    in the order they were stored, `printed` the blocks that were reported, `followed` the blocks for
    which it was recorded whether the agent edited a site.
   */
  datatype State = State(session: Session, lock: Option<Hook>, phases: map<Hook, Phase>, blocks: seq<Diff>,
                         printed: seq<nat>, followed: seq<nat>)

  datatype Step =
    | Begin(h: Hook)
    | Peek(h: Hook)
    | LockToFollow(h: Hook)
    | ReadToFollow(h: Hook)
    | ForgetSites(h: Hook)
    | NoteFollowed(h: Hook)
    | FindDiff(h: Hook, diff: Diff)
    | LockToCheck(h: Hook)
    | ReadToCheck(h: Hook)
    | StoreVerdict(h: Hook, verdict: Verdict)
    | Print(h: Hook)
    | SkipFollow(h: Hook)
    | Die(h: Hook)

  function PhaseIs(s: State, h: Hook): Option<Phase> {
    if h in s.phases then Some(s.phases[h]) else None
  }

  function Enter(s: State, h: Hook, phase: Phase): State {
    s.(phases := s.phases[h := phase])
  }

  function Release(s: State, h: Hook): State {
    if s.lock == Some(h) then s.(lock := None) else s
  }

  function Leave(s: State, h: Hook): State {
    Release(s, h).(phases := s.phases - {h})
  }

  function LastBlock(s: State): nat {
    if |s.blocks| > 0 then |s.blocks| - 1 else 0
  }

  predicate Enabled(s: State, step: Step) {
    match step
    case Begin(h) => h !in s.phases
    case Peek(h) => PhaseIs(s, h) == Some(Peeking)
    case LockToFollow(h) => PhaseIs(s, h) == Some(WantingToFollow) && s.lock.None?
    case ReadToFollow(h) => PhaseIs(s, h) == Some(Following)
    case ForgetSites(h) => PhaseIs(s, h).Some? && PhaseIs(s, h).value.HavingRead?
    case NoteFollowed(h) => PhaseIs(s, h) == Some(Noting)
    case FindDiff(h, _) => PhaseIs(s, h) == Some(Looking)
    case LockToCheck(h) => PhaseIs(s, h).Some? && PhaseIs(s, h).value.WantingToCheck? && s.lock.None?
    case ReadToCheck(h) => PhaseIs(s, h).Some? && PhaseIs(s, h).value.Checking?
    case StoreVerdict(h, _) => PhaseIs(s, h).Some? && PhaseIs(s, h).value.Judging?
    case Print(h) => PhaseIs(s, h).Some? && PhaseIs(s, h).value.Printing?
    // The lock stays held by another hook, or the session cannot be written: following is given up.
    case SkipFollow(h) =>
      PhaseIs(s, h).Some? && (PhaseIs(s, h).value.WantingToFollow? || PhaseIs(s, h).value.HavingRead?)
    case Die(h) => h in s.phases
  }

  function Take(s: State, step: Step): State {
    if !Enabled(s, step) then s
    else
      match step
      case Begin(h) => Enter(s, h, Peeking)
      case Peek(h) => Enter(s, h, if s.session.sites == [] then Looking else WantingToFollow)
      case LockToFollow(h) => Enter(s.(lock := Some(h)), h, Following)
      case ReadToFollow(h) =>
        if s.session.sites == [] then Enter(Release(s, h), h, Looking) else Enter(s, h, HavingRead(s.session))
      case ForgetSites(h) => Enter(s.(session := s.phases[h].session.(sites := [])), h, Noting)
      case NoteFollowed(h) =>
        var s' := Enter(Release(s, h), h, Looking);
        if s.session.blocked.Some? then s'.(followed := s.followed + [LastBlock(s)]) else s'
      case FindDiff(h, diff) => Enter(s, h, WantingToCheck(diff))
      case LockToCheck(h) => Enter(s.(lock := Some(h)), h, Checking(s.phases[h].diff))
      case ReadToCheck(h) =>
        if HasSeen(s.session, s.phases[h].diff) then Leave(s, h) else Enter(s, h, Judging(s.phases[h].diff, s.session))
      case StoreVerdict(h, verdict) => Judged(s, h, s.phases[h].diff, s.phases[h].session, verdict)
      case Print(h) => Leave(s, h).(printed := s.printed + [s.phases[h].block])
      case SkipFollow(h) => Enter(Release(s, h), h, Looking)
      case Die(h) => Leave(s, h)
  }

  /** The session is rewritten, the lock dropped, and only then is a block reported. */
  function Judged(s: State, h: Hook, diff: Diff, read: Session, verdict: Verdict): State {
    match verdict
    case Blocks(sites) =>
      Enter(Release(s, h), h, Printing(|s.blocks|))
        .(session := Session(Some(diff), Some(diff), sites), blocks := s.blocks + [diff])
    case Passes =>
      Leave(s, h).(session := Session(Some(diff), read.blocked, read.sites))
  }

  function Run(start: State, steps: seq<Step>): State {
    if steps == [] then start else Take(Run(start, steps[..|steps| - 1]), steps[|steps| - 1])
  }

  ghost predicate Start(s: State) {
    s.session == Session(None, None, []) && s.lock.None? && s.phases == map[] && s.blocks == [] && s.printed == [] &&
      s.followed == []
  }

  // What every step keeps.

  predicate NeedsLock(phase: Phase) {
    phase.Following? || phase.HavingRead? || phase.Noting? || phase.Checking? || phase.Judging?
  }

  ghost predicate LockRight(s: State) {
    forall h :: h in s.phases && NeedsLock(s.phases[h]) ==> s.lock == Some(h)
  }

  /** What a hook has read, or is about to report, is still right. */
  predicate PhaseRight(s: State, phase: Phase) {
    match phase
    case HavingRead(session) => session == s.session && session.sites != []
    case Noting => s.session.sites == [] && |s.blocks| > 0 && |s.blocks| - 1 !in s.followed
    case Judging(diff, session) => session == s.session && !HasSeen(session, diff)
    case Printing(block) => block < |s.blocks| && block !in s.printed
    case _ => true
  }

  ghost predicate CopiesRight(s: State) {
    forall h :: h in s.phases ==> PhaseRight(s, s.phases[h])
  }

  ghost predicate PrintersDiffer(s: State) {
    forall g, h :: g in s.phases && h in s.phases && s.phases[g].Printing? && s.phases[h].Printing? ==>
      s.phases[g].block == s.phases[h].block ==> g == h
  }

  ghost predicate NoRepeats(xs: seq<nat>) {
    forall i, j :: 0 <= i < j < |xs| ==> xs[i] != xs[j]
  }

  ghost predicate RecordsRight(s: State) {
    && s.session.blocked == (if s.blocks == [] then None else Some(s.blocks[|s.blocks| - 1]))
    && (s.session.sites != [] ==> |s.blocks| > 0 && |s.blocks| - 1 !in s.followed)
    && (forall i :: 0 <= i < |s.blocks| - 1 ==> s.blocks[i] != s.blocks[i + 1])
    && (forall b :: b in s.followed ==> b < |s.blocks|)
    && (forall b :: b in s.printed ==> b < |s.blocks|)
    && NoRepeats(s.followed) && NoRepeats(s.printed)
  }

  ghost predicate Invariant(s: State) {
    LockRight(s) && CopiesRight(s) && PrintersDiffer(s) && RecordsRight(s)
  }

  lemma StepKeepsLock(s: State, step: Step)
    requires LockRight(s)
    ensures LockRight(Take(s, step))
  {}

  lemma OwnPhaseRight(s: State, step: Step)
    requires Invariant(s) && Enabled(s, step) && step.h in Take(s, step).phases
    ensures PhaseRight(Take(s, step), Take(s, step).phases[step.h])
  {
    if step.StoreVerdict? { assert PhaseRight(s, s.phases[step.h]); }
    if step.ForgetSites? { assert PhaseRight(s, s.phases[step.h]); }
  }

  lemma OtherPhasesRight(s: State, step: Step, g: Hook)
    requires Invariant(s) && Enabled(s, step) && g != step.h && g in s.phases
    ensures g in Take(s, step).phases && Take(s, step).phases[g] == s.phases[g] &&
        PhaseRight(Take(s, step), s.phases[g])
  {
    assert PhaseRight(s, s.phases[g]) && (NeedsLock(s.phases[g]) ==> s.lock == Some(g));
    if step.h in s.phases { assert NeedsLock(s.phases[step.h]) ==> s.lock == Some(step.h); }
  }

  lemma StepKeepsCopies(s: State, step: Step)
    requires Invariant(s)
    ensures CopiesRight(Take(s, step))
  {
    hide PhaseRight;
    if Enabled(s, step) {
      if step.h in Take(s, step).phases { OwnPhaseRight(s, step); }
      forall g | g != step.h && g in s.phases
        ensures g in Take(s, step).phases && Take(s, step).phases[g] == s.phases[g] &&
            PhaseRight(Take(s, step), s.phases[g])
      {
        OtherPhasesRight(s, step, g);
      }
      OnlyOwnPhaseChanges(s, step);
    }
  }

  lemma OnlyOwnPhaseChanges(s: State, step: Step)
    ensures forall g :: g != step.h ==> (g in Take(s, step).phases <==> g in s.phases)
    ensures forall g :: g != step.h && g in s.phases ==> Take(s, step).phases[g] == s.phases[g]
  {}

  /** A hook that is to report either was before, or has just stored the newest block. */
  lemma OwnPrinting(s: State, step: Step)
    requires step.h in Take(s, step).phases && Take(s, step).phases[step.h].Printing?
    ensures var phase := Take(s, step).phases[step.h];
            phase.block == |s.blocks| || (step.h in s.phases && s.phases[step.h] == phase)
  {}

  lemma StepKeepsPrinters(s: State, step: Step)
    requires Invariant(s)
    ensures PrintersDiffer(Take(s, step))
  {
    hide Take, LockRight, RecordsRight;
    OnlyOwnPhaseChanges(s, step);
    if step.h in Take(s, step).phases && Take(s, step).phases[step.h].Printing? { OwnPrinting(s, step); }
    forall g | g in s.phases && s.phases[g].Printing? ensures s.phases[g].block < |s.blocks| {
      assert PhaseRight(s, s.phases[g]);
    }
  }

  lemma StepKeepsRecords(s: State, step: Step)
    requires Invariant(s)
    ensures RecordsRight(Take(s, step))
  {
    if Enabled(s, step) && step.h in s.phases {
      assert PhaseRight(s, s.phases[step.h]);
      if step.StoreVerdict? {
        StoredRecordsRight(s, step.h, s.phases[step.h].diff, s.phases[step.h].session, step.verdict);
      } else {
        OtherRecordsRight(s, step);
      }
    }
  }

  /** What the invariant says of the records says nothing of locks and phases. */
  lemma SameRecordsRight(s: State, t: State)
    requires RecordsRight(s) && s.session == t.session && s.blocks == t.blocks && s.printed == t.printed &&
        s.followed == t.followed
    ensures RecordsRight(t)
  {}

  lemma OtherRecordsRight(s: State, step: Step)
    requires RecordsRight(s) && Enabled(s, step) && step.h in s.phases && PhaseRight(s, s.phases[step.h]) &&
        !step.StoreVerdict?
    ensures RecordsRight(Take(s, step))
  {
    if step.ForgetSites? {
      ForgottenRecordsRight(s, s.(session := s.session.(sites := [])));
      SameRecordsRight(s.(session := s.session.(sites := [])), Take(s, step));
    } else if step.NoteFollowed? || step.Print? {
      CountedRecordsRight(s, step);
    } else {
      hide RecordsRight;
      SameRecordsRight(s, Take(s, step));
    }
  }

  lemma ForgottenRecordsRight(s: State, t: State)
    requires RecordsRight(s) && t == s.(session := s.session.(sites := []))
    ensures RecordsRight(t)
  {}

  lemma CountedRecordsRight(s: State, step: Step)
    requires RecordsRight(s) && Enabled(s, step) && step.h in s.phases && PhaseRight(s, s.phases[step.h])
    requires step.NoteFollowed? || step.Print?
    ensures RecordsRight(Take(s, step))
  {}

  lemma StoredRecordsRight(s: State, h: Hook, diff: Diff, read: Session, verdict: Verdict)
    requires RecordsRight(s) && read == s.session && !HasSeen(read, diff)
    ensures RecordsRight(Judged(s, h, diff, read, verdict))
  {}

  lemma {:induction false} RunKeepsInvariant(start: State, steps: seq<Step>)
    requires Start(start)
    ensures Invariant(Run(start, steps))
  {
    if steps != [] {
      var s, step := Run(start, steps[..|steps| - 1]), steps[|steps| - 1];
      RunKeepsInvariant(start, steps[..|steps| - 1]);
      StepKeepsLock(s, step);
      StepKeepsCopies(s, step);
      StepKeepsPrinters(s, step);
      StepKeepsRecords(s, step);
    }
  }

  /**
    However the hooks interleave and wherever they die: block records that follow one another carry
    different diffs, a block is reported only after its record was stored and only once, and each block
    is recorded as followed or not at most once.
   */
  lemma BlocksAreNotRepeated(start: State, steps: seq<Step>)
    requires Start(start)
    ensures var s := Run(start, steps);
            && (forall i :: 0 <= i < |s.blocks| - 1 ==> s.blocks[i] != s.blocks[i + 1])
            && (forall b :: b in s.printed ==> b < |s.blocks|) && NoRepeats(s.printed)
            && (forall b :: b in s.followed ==> b < |s.blocks|) && NoRepeats(s.followed)
  {
    RunKeepsInvariant(start, steps);
  }

  /** Two reports one after the other name different diffs when their blocks were stored one after the other. */
  lemma NeighbouringReportsDiffer(start: State, steps: seq<Step>, i: nat)
    requires Start(start) && i + 1 < |Run(start, steps).printed|
    requires var first, second := Run(start, steps).printed[i], Run(start, steps).printed[i + 1];
             second == first + 1 || first == second + 1
    ensures var s := Run(start, steps);
            && s.printed[i] in s.printed && s.printed[i + 1] in s.printed
            && s.printed[i] < |s.blocks| && s.printed[i + 1] < |s.blocks|
            && s.blocks[s.printed[i]] != s.blocks[s.printed[i + 1]]
  {
    RunKeepsInvariant(start, steps);
  }

  lemma {:induction false} RunOn(start: State, a: seq<Step>, b: seq<Step>)
    ensures Run(start, a + b) == Run(Run(start, a), b)
  {
    if b == [] {
      assert a + b == a;
    } else {
      RunOn(start, a, b[..|b| - 1]);
      assert (a + b)[..|a + b| - 1] == a + b[..|b| - 1];
    }
  }

  lemma RunNothing(s: State)
    ensures Run(s, []) == s
  {}

  lemma ThenOne(s: State, steps: seq<Step>, step: Step)
    ensures Run(s, steps + [step]) == Take(Run(s, steps), step)
  {
    assert (steps + [step])[..|steps|] == steps;
  }
}
