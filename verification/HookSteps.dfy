/** What each step of one hook does, said of the rest of the state. */
module HookSteps {
  import opened Options
  import opened StopHooks

  /** The state `s` with the hook, which is not in it, in a phase. */
  ghost function At(s: State, h: Hook, phase: Phase): State {
    s.(phases := s.phases[h := phase])
  }

  ghost function Forgotten(s: State): State {
    s.(session := s.session.(sites := []))
  }

  /** The sites of the last block are forgotten, and the block is counted as followed or not. */
  ghost function Followed(s: State): State {
    s.(session := s.session.(sites := []),
       followed := if s.session.sites != [] && s.session.blocked.Some? then s.followed + [LastBlock(s)] else s.followed)
  }

  /** A diff not seen is recorded as checked, and as blocked on when the check lists something. */
  ghost function Checked(s: State, diff: Diff, verdict: Verdict): State {
    if HasSeen(s.session, diff) then s
    else
      match verdict
      case Blocks(sites) =>
        s.(session := Session(Some(diff), Some(diff), sites), blocks := s.blocks + [diff],
           printed := s.printed + [|s.blocks|])
      case Passes => s.(session := Session(Some(diff), s.session.blocked, s.session.sites))
  }

  // What the steps of one hook do to the rest.

  lemma TakeBegin(s: State, h: Hook)
    requires h !in s.phases
    ensures Take(s, Begin(h)) == At(s, h, Peeking)
  {}

  lemma TakePeek(s: State, h: Hook)
    requires h !in s.phases
    ensures Take(At(s, h, Peeking), Peek(h)) == At(s, h, if s.session.sites == [] then Looking else WantingToFollow)
  {}

  lemma TakeSkip(s: State, h: Hook)
    requires h !in s.phases && s.lock != Some(h)
    ensures Take(At(s, h, WantingToFollow), SkipFollow(h)) == At(s, h, Looking)
  {}

  lemma TakeLockToFollow(s: State, h: Hook)
    requires h !in s.phases && s.lock.None?
    ensures var locked := s.(lock := Some(h));
            && Take(At(s, h, WantingToFollow), LockToFollow(h)) == At(locked, h, Following)
            && (s.session.sites == [] ==> Take(At(locked, h, Following), ReadToFollow(h)) == At(s, h, Looking))
  {}

  lemma TakeFollow(s: State, h: Hook)
    requires h !in s.phases && s.lock.None? && s.session.sites != []
    ensures var locked := s.(lock := Some(h));
            && Take(At(s, h, WantingToFollow), LockToFollow(h)) == At(locked, h, Following)
            && Take(At(locked, h, Following), ReadToFollow(h)) == At(locked, h, HavingRead(s.session))
            && Take(At(locked, h, HavingRead(s.session)), ForgetSites(h)) == At(Forgotten(locked), h, Noting)
            && Take(At(Forgotten(locked), h, Noting), NoteFollowed(h)) == At(Followed(s), h, Looking)
  {}

  lemma TakeDie(s: State, h: Hook, phase: Phase)
    requires h !in s.phases && s.lock != Some(h)
    ensures Take(At(s, h, phase), Die(h)) == s
  {
    Returned(s.phases, h, phase);
  }

  lemma Returned(phases: map<Hook, Phase>, h: Hook, phase: Phase)
    requires h !in phases
    ensures phases[h := phase] - {h} == phases
  {}

  lemma TakeFind(s: State, h: Hook, diff: Diff)
    requires h !in s.phases
    ensures Take(At(s, h, Looking), FindDiff(h, diff)) == At(s, h, WantingToCheck(diff))
  {}

  lemma TakeLock(s: State, h: Hook, diff: Diff)
    requires h !in s.phases && s.lock.None?
    ensures Take(At(s, h, WantingToCheck(diff)), LockToCheck(h)) == At(s.(lock := Some(h)), h, Checking(diff))
  {}

  lemma TakeRead(s: State, h: Hook, diff: Diff)
    requires h !in s.phases && s.lock.None?
    ensures var locked := s.(lock := Some(h));
            Take(At(locked, h, Checking(diff)), ReadToCheck(h))
            == if HasSeen(s.session, diff) then s else At(locked, h, Judging(diff, s.session))
  {
    Returned(s.phases, h, Checking(diff));
  }

  lemma TakeStore(s: State, h: Hook, diff: Diff, verdict: Verdict)
    requires h !in s.phases && s.lock.None?
    ensures Take(At(s.(lock := Some(h)), h, Judging(diff, s.session)), StoreVerdict(h, verdict))
            == match verdict
               case Blocks(sites) =>
                 At(s.(session := Session(Some(diff), Some(diff), sites), blocks := s.blocks + [diff]), h,
                     Printing(|s.blocks|))
               case Passes => s.(session := Session(Some(diff), s.session.blocked, s.session.sites))
  {
    Returned(s.phases, h, Judging(diff, s.session));
  }

  lemma TakePrint(s: State, h: Hook, block: nat)
    requires h !in s.phases && s.lock != Some(h)
    ensures Take(At(s, h, Printing(block)), Print(h)) == s.(printed := s.printed + [block])
  {
    Returned(s.phases, h, Printing(block));
  }

  /** Every step of a list is possible where it is taken. */
  ghost predicate AllEnabled(s: State, steps: seq<Step>) {
    steps == [] || (AllEnabled(s, steps[..|steps| - 1]) && Enabled(Run(s, steps[..|steps| - 1]), steps[|steps| - 1]))
  }

  lemma StepAppended(s: State, steps: seq<Step>, step: Step)
    requires AllEnabled(s, steps) && Enabled(Run(s, steps), step)
    ensures AllEnabled(s, steps + [step]) && Run(s, steps + [step]) == Take(Run(s, steps), step)
  {
    assert (steps + [step])[..|steps + [step]| - 1] == steps;
  }

  lemma NothingDone(s: State)
    ensures AllEnabled(s, []) && Run(s, []) == s
  {}

  // What the other hooks do meanwhile.

  /** The steps of other hooks, each possible where it is taken. */
  ghost predicate Others(s: State, h: Hook, others: seq<Step>) {
    AllEnabled(s, others) && forall k :: 0 <= k < |others| ==> others[k].h != h
  }

  /** A step of another hook does the same whether or not this hook is in a phase. */
  lemma OtherStep(s: State, h: Hook, phase: Phase, step: Step)
    requires h !in s.phases && s.lock != Some(h) && step.h != h && Enabled(s, step)
    ensures Enabled(At(s, h, phase), step) && Take(At(s, h, phase), step) == At(Take(s, step), h, phase)
    ensures h !in Take(s, step).phases && Take(s, step).lock != Some(h)
  {
    OtherPhases(s.phases, h, phase, step.h);
  }

  lemma OtherPhases(phases: map<Hook, Phase>, h: Hook, phase: Phase, other: Hook)
    requires h !in phases && other != h
    ensures phases[h := phase] - {other} == (phases - {other})[h := phase]
    ensures forall its: Phase {:trigger phases[other := its]} ::
              phases[h := phase][other := its] == phases[other := its][h := phase]
  {}

  lemma {:induction false} OthersAppended(s: State, steps: seq<Step>, base: State, h: Hook, phase: Phase,
      others: seq<Step>)
    requires AllEnabled(s, steps) && Run(s, steps) == At(base, h, phase) && h !in base.phases && base.lock != Some(h)
    requires Others(base, h, others)
    ensures AllEnabled(s, steps + others) && Run(s, steps + others) == At(Run(base, others), h, phase)
    ensures h !in Run(base, others).phases && Run(base, others).lock != Some(h)
    decreases |others|
  {
    hide Take, Enabled;
    if others == [] {
      assert steps + others == steps;
    } else {
      var n := |others| - 1;
      OthersAppended(s, steps, base, h, phase, others[..n]);
      OtherStep(Run(base, others[..n]), h, phase, others[n]);
      StepAppended(s, steps + others[..n], others[n]);
      assert steps + others == steps + others[..n] + [others[n]];
    }
  }

  /** What following comes to when the lock was waited for while `others` acted. */
  ghost function FollowedAfter(s: State, others: seq<Step>): State {
    var met := Run(s, others);
    if s.session.sites == [] || met.lock.Some? then met
    else if met.session.sites == [] then met
    else Followed(met)
  }

  ghost function Stored(s: State, diff: Diff, sites: seq<Site>): State {
    s.(session := Session(Some(diff), Some(diff), sites), blocks := s.blocks + [diff])
  }

  /** The check of a diff in the state met, and its report once `others` have acted. */
  ghost function Decided(met: State, diff: Diff, verdict: Verdict, others: seq<Step>): State {
    if met.lock.Some? || HasSeen(met.session, diff) then met
    else
      match verdict
      case Blocks(sites) =>
        var later := Run(Stored(met, diff, sites), others);
        later.(printed := later.printed + [|met.blocks|])
      case Passes => met.(session := Session(Some(diff), met.session.blocked, met.session.sites))
  }

  /** With nobody else about, the sites are forgotten and the diff is checked. */
  lemma Undisturbed(s: State, diff: Diff, verdict: Verdict)
    requires s.lock.None?
    ensures FollowedAfter(s, []) == Followed(s)
    ensures Decided(Followed(s), diff, verdict, []) == Checked(Followed(s), diff, verdict)
  {}
}
