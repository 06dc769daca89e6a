/** The stop hook as it is written, each of whose reads and writes is a step of the session protocol. */
module HookRunner {
  import opened Options
  import opened StopHooks
  import opened HookSteps

  /** What a hook finds in the two files after others have acted; they may not have acted at all. */
  datatype Met = Met(session: Session, lock: Option<Hook>)

  ghost predicate Meets(base: State, h: Hook, others: seq<Step>, met: Option<Met>) {
    && Others(base, h, others)
    && match met
       case Some(m) => m == Met(Run(base, others).session, Run(base, others).lock)
       case None => others == []
  }

  /** What is met before the report, when there is one. */
  ghost predicate MeetsLater(found: State, h: Hook, diff: Diff, verdict: Verdict, others: seq<Step>, met: Option<Met>) {
    found.lock.None? && !HasSeen(found.session, diff) && verdict.Blocks? ==>
      Meets(Stored(found, diff, verdict.sites), h, others, met)
  }

  /** The session file with its lock file. Phases, stored blocks and reports are kept for the proof. */
  class SessionFile {
    var session: Session
    var lock: Option<Hook>
    ghost var phases: map<Hook, Phase>
    ghost var blocks: seq<Diff>
    ghost var printed: seq<nat>
    ghost var followed: seq<nat>

    ghost function Now(): State
      reads this
    {
      State(session, lock, phases, blocks, printed, followed)
    }

    constructor ()
      ensures Start(Now())
    {
      session, lock := Session(None, None, []), None;
      phases, blocks, printed, followed := map[], [], [], [];
    }

    /** Appends to the list the step whose writes have just been made, from `base` with the hook in `phase`. */
    ghost method Did(s: State, steps: seq<Step>, base: State, phase: Phase, step: Step) returns (longer: seq<Step>)
      requires AllEnabled(s, steps) && Run(s, steps) == At(base, step.h, phase) &&
          Enabled(At(base, step.h, phase), step)
      requires session == Take(At(base, step.h, phase), step).session &&
          lock == Take(At(base, step.h, phase), step).lock
      modifies this`phases, this`blocks, this`printed, this`followed
      ensures longer == steps + [step] && AllEnabled(s, longer) &&
          Run(s, longer) == Now() == Take(At(base, step.h, phase), step)
    {
      StepAppended(s, steps, step);
      longer := steps + [step];
      var next := Run(s, longer);
      phases, blocks, printed, followed := next.phases, next.blocks, next.printed, next.followed;
    }

    /** What other hooks do to the file between two steps of this one. */
    method Meanwhile(h: Hook, met: Option<Met>, ghost others: seq<Step>, ghost s: State, ghost before: seq<Step>,
        ghost base: State, ghost phase: Phase)
      returns (ghost steps: seq<Step>, ghost after: State)
      requires AllEnabled(s, before) && Run(s, before) == Now() == At(base, h, phase)
      requires h !in base.phases && base.lock != Some(h) && Meets(base, h, others, met)
      modifies this
      ensures AllEnabled(s, steps) && Run(s, steps) == Now() == At(after, h, phase)
      ensures after == Run(base, others) && h !in after.phases && after.lock != Some(h)
    {
      hide Run, AllEnabled;
      NothingDone(base);
      OthersAppended(s, before, base, h, phase, others);
      steps, after := before + others, Run(base, others);
      if met.Some? {
        session, lock := met.value.session, met.value.lock;
      }
      phases, blocks, printed, followed := At(after, h, phase).phases, after.blocks, after.printed, after.followed;
    }

    /**
      The session is read before the lock is taken, and again under it, before the sites are forgotten.
      The lock may be held for too long, and the sites may be gone when it has been taken.
     */
    method RecordFollowed(h: Hook, met: Option<Met>, ghost others: seq<Step>, ghost s: State,
        ghost before: seq<Step>, ghost base: State)
      returns (ghost steps: seq<Step>, ghost after: State)
      requires AllEnabled(s, before) && Run(s, before) == Now() == At(base, h, Peeking)
      requires h !in base.phases && base.lock != Some(h) && Meets(base, h, others, met)
      modifies this
      ensures AllEnabled(s, steps) && Run(s, steps) == Now() == At(after, h, Looking)
      ensures after == FollowedAfter(base, others) && h !in after.phases && after.lock != Some(h)
    {
      hide Run, AllEnabled, Take;
      TakePeek(base, h);
      var listed := session.sites != [];
      ghost var phase := if listed then WantingToFollow else Looking;
      steps := Did(s, before, base, Peeking, Peek(h));
      steps, after := Meanwhile(h, met, others, s, steps, base, phase);
      if !listed {
        return;
      }
      if lock.Some? {
        TakeSkip(after, h);
        steps := Did(s, steps, after, WantingToFollow, SkipFollow(h));
        return;
      }
      TakeLockToFollow(after, h);
      lock := Some(h);
      steps := Did(s, steps, after, WantingToFollow, LockToFollow(h));
      var state := session;
      if state.sites == [] {
        lock := None;
        steps := Did(s, steps, after.(lock := Some(h)), Following, ReadToFollow(h));
        return;
      }
      steps := Forget(h, state, s, steps, after);
      after := Followed(after);
    }

    /** Under the lock: the sites are forgotten, and the block is counted as followed or not. */
    method Forget(h: Hook, state: Session, ghost s: State, ghost before: seq<Step>, ghost base: State)
      returns (ghost steps: seq<Step>)
      requires AllEnabled(s, before) && Run(s, before) == Now() == At(base.(lock := Some(h)), h, Following)
      requires h !in base.phases && base.lock.None? && state == session && state.sites != []
      modifies this
      ensures AllEnabled(s, steps) && Run(s, steps) == Now() == At(Followed(base), h, Looking)
    {
      hide Run, AllEnabled, Take;
      ghost var locked := base.(lock := Some(h));
      TakeFollow(base, h);
      steps := Did(s, before, locked, Following, ReadToFollow(h));
      session := state.(sites := []);
      steps := Did(s, steps, locked, HavingRead(state), ForgetSites(h));
      lock := None;
      steps := Did(s, steps, Forgotten(locked), Noting, NoteFollowed(h));
    }

    /**
      The check of a diff: the lock is waited for, the session read under it, and the block record stored
      before it is dropped. A lock that is held for too long lets the stop pass.
     */
    method CheckUnderLock(h: Hook, diff: Diff, verdict: Verdict, met: Option<Met>, ghost others: seq<Step>,
        later: Option<Met>, ghost more: seq<Step>, ghost s: State, ghost before: seq<Step>, ghost base: State)
      returns (block: bool, ghost steps: seq<Step>)
      requires AllEnabled(s, before) && Run(s, before) == Now() == At(base, h, Looking)
      requires h !in base.phases && base.lock != Some(h) && Meets(base, h, others, met)
      requires MeetsLater(Run(base, others), h, diff, verdict, more, later)
      modifies this
      ensures AllEnabled(s, steps) && Run(s, steps) == Now() == Decided(Run(base, others), diff, verdict, more)
      ensures var found := Run(base, others);
              block <==> found.lock.None? && !HasSeen(found.session, diff) && verdict.Blocks?
    {
      hide Run, AllEnabled, Take, Meets;
      TakeFind(base, h, diff);
      steps := Did(s, before, base, Looking, FindDiff(h, diff));
      ghost var found;
      steps, found := Meanwhile(h, met, others, s, steps, base, WantingToCheck(diff));
      if lock.Some? {
        TakeDie(found, h, WantingToCheck(diff));
        steps := Did(s, steps, found, WantingToCheck(diff), Die(h));
        return false, steps;
      }
      ghost var locked := found.(lock := Some(h));
      TakeLock(found, h, diff);
      TakeRead(found, h, diff);
      lock := Some(h);
      steps := Did(s, steps, found, WantingToCheck(diff), LockToCheck(h));
      var state := session;
      if HasSeen(state, diff) {
        lock := None;
        steps := Did(s, steps, locked, Checking(diff), ReadToCheck(h));
        return false, steps;
      }
      steps := Did(s, steps, locked, Checking(diff), ReadToCheck(h));
      block, steps := StoreAndReport(h, diff, verdict, later, more, s, steps, found);
    }

    /** The block record is stored, the lock dropped, and only then, others having acted, is the block reported. */
    method StoreAndReport(h: Hook, diff: Diff, verdict: Verdict, later: Option<Met>, ghost more: seq<Step>,
        ghost s: State, ghost before: seq<Step>, ghost base: State)
      returns (block: bool, ghost steps: seq<Step>)
      requires AllEnabled(s, before) && h !in base.phases && base.lock.None? && !HasSeen(base.session, diff)
      requires Run(s, before) == Now() == At(base.(lock := Some(h)), h, Judging(diff, base.session))
      requires MeetsLater(base, h, diff, verdict, more, later)
      modifies this
      ensures AllEnabled(s, steps) && Run(s, steps) == Now() == Decided(base, diff, verdict, more)
      ensures block <==> verdict.Blocks?
    {
      hide Run, AllEnabled, Take, Meets;
      TakeStore(base, h, diff, verdict);
      block := verdict.Blocks?;
      session := if block then Session(Some(diff), Some(diff), verdict.sites)
          else Session(Some(diff), session.blocked, session.sites);
      lock := None;
      steps := Did(s, before, base.(lock := Some(h)), Judging(diff, base.session), StoreVerdict(h, verdict));
      if block {
        ghost var stored := Stored(base, diff, verdict.sites);
        steps, stored := Meanwhile(h, later, more, s, steps, stored, Printing(|base.blocks|));
        TakePrint(stored, h, |base.blocks|);
        steps := Did(s, steps, stored, Printing(|base.blocks|), Print(h));
      }
    }

    /**
      One stop. Other hooks act while it waits for the lock to follow the last block, while it finds its
      diff and waits for the lock to check it, and before it reports: `one`, `two` and `three` are what it
      meets then. It blocks exactly when the stop is not the agent's answer to a block, the lock is had,
      the diff is not one seen last in the session met under it, and the check lists something. What the
      hooks did is a list of protocol steps, so what holds over all runs of the protocol holds of it.
     */
    method StopDecision(h: Hook, active: bool, diff: Diff, verdict: Verdict, one: Option<Met>, ghost first: seq<Step>,
        two: Option<Met>, ghost second: seq<Step>, three: Option<Met>, ghost third: seq<Step>)
      returns (block: bool, ghost steps: seq<Step>)
      requires h !in phases && lock != Some(h) && Meets(Now(), h, first, one)
      requires !active ==> Meets(FollowedAfter(Now(), first), h, second, two)
      requires !active ==> MeetsLater(Run(FollowedAfter(Now(), first), second), h, diff, verdict, third, three)
      modifies this
      ensures AllEnabled(old(Now()), steps) && Run(old(Now()), steps) == Now()
      ensures var found := Run(FollowedAfter(old(Now()), first), second);
              && (block <==> !active && found.lock.None? && !HasSeen(found.session, diff) && verdict.Blocks?)
              && Now() == if active then FollowedAfter(old(Now()), first) else Decided(found, diff, verdict, third)
    {
      hide Run, AllEnabled, Take, Meets, MeetsLater, FollowedAfter, Decided;
      ghost var s := Now();
      NothingDone(s);
      TakeBegin(s, h);
      steps := DidBegin(s, h);
      ghost var after;
      steps, after := RecordFollowed(h, one, first, s, steps, s);
      if active {
        TakeDie(after, h, Looking);
        steps := Did(s, steps, after, Looking, Die(h));
        return false, steps;
      }
      block, steps := CheckUnderLock(h, diff, verdict, two, second, three, third, s, steps, after);
    }

    ghost method DidBegin(s: State, h: Hook) returns (steps: seq<Step>)
      requires Now() == s && h !in s.phases
      modifies this`phases
      ensures AllEnabled(s, steps) && Run(s, steps) == Now() == At(s, h, Peeking)
    {
      StepAppended(s, [], Begin(h));
      steps := [] + [Begin(h)];
      phases := phases[h := Peeking];
    }
  }

  /** One stop with no other hook about. */
  method StopAlone(file: SessionFile, h: Hook, active: bool, diff: Diff, verdict: Verdict) returns (block: bool)
    requires h !in file.phases && file.lock.None?
    modifies file
    ensures block <==> !active && !HasSeen(old(file.session), diff) && verdict.Blocks?
    ensures file.Now() == if active then Followed(old(file.Now()))
        else Checked(Followed(old(file.Now())), diff, verdict)
  {
    hide Run, AllEnabled, Checked;
    ghost var s := file.Now();
    NothingDone(s);
    NothingDone(Followed(s));
    Undisturbed(s, diff, verdict);
    if verdict.Blocks? { NothingDone(Stored(Followed(s), diff, verdict.sites)); }
    var stopped, _ := file.StopDecision(h, active, diff, verdict, None, [], None, [], None, []);
    block := stopped;
  }

  /** A second stop on the same diff never blocks, whatever the check would say. */
  method StopTwice(file: SessionFile, h: Hook, diff: Diff, first: Verdict, second: Verdict)
    returns (one: bool, two: bool)
    requires h !in file.phases && file.lock.None?
    modifies file
    ensures !two
    ensures one <==> !HasSeen(old(file.session), diff) && first.Blocks?
  {
    one := StopAlone(file, h, false, diff, first);
    two := StopAlone(file, h, false, diff, second);
  }
}
