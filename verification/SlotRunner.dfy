/** The control of one slot as it is written, each of whose writes is a step of the dispatch protocol. */
module SlotRunner {
  import opened Options
  import opened SlotDispatch

  /** The output folder of a campaign. The phases and the list of dispatches are kept for the proof. */
  class Output {
    var disk: map<Slot, Folder>
    ghost var phases: map<Runner, Phase>
    ghost var dispatched: seq<Slot>

    ghost function Now(): State
      reads this
    {
      State(disk, phases, dispatched)
    }

    constructor ()
      ensures Start(Now())
    {
      disk, phases, dispatched := map[], map[], [];
    }

    ghost method Became(s: State)
      requires s.disk == disk
      modifies this`phases, this`dispatched
      ensures Now() == s
    {
      phases, dispatched := s.phases, s.dispatched;
    }

    method MakeFolder(slot: Slot) returns (made: bool)
      modifies this`disk
      ensures made <==> slot !in old(disk)
      ensures disk == if made then old(disk)[slot := Folder(None, None)] else old(disk)
    {
      made := slot !in disk;
      if made {
        disk := disk[slot := Folder(None, None)];
      }
    }

    method WriteStatus(slot: Slot, status: Status)
      requires slot in disk
      modifies this`disk
      ensures disk == old(disk)[slot := Folder(Some(status), old(disk)[slot].outcome)]
    {
      disk := disk[slot := disk[slot].(status := Some(status))];
    }

    method WriteOutcome(slot: Slot, outcome: Terminal)
      requires slot in disk
      modifies this`disk
      ensures disk == old(disk)[slot := Folder(old(disk)[slot].status, Some(outcome))]
    {
      disk := disk[slot := disk[slot].(outcome := Some(outcome))];
    }
  }

  /** Every step of a list is possible where it is taken. */
  ghost predicate AllEnabled(s: State, steps: seq<Step>) {
    steps == [] || (AllEnabled(s, steps[..|steps| - 1]) && Enabled(Run(s, steps[..|steps| - 1]), steps[|steps| - 1]))
  }

  lemma OneMore(s: State, steps: seq<Step>, step: Step)
    requires AllEnabled(s, steps) && Enabled(Run(s, steps), step)
    ensures AllEnabled(s, steps + [step]) && Run(s, steps + [step]) == Take(Run(s, steps), step)
  {
    assert (steps + [step])[..|steps + [step]| - 1] == steps;
  }

  /** The output folder is where a list of possible steps has led. */
  ghost predicate Followed(out: Output, s: State, steps: seq<Step>)
    reads out
  {
    AllEnabled(s, steps) && out.Now() == Run(s, steps)
  }

  /** Appends to the list the step that a write has just been. */
  ghost method Did(out: Output, s: State, steps: seq<Step>, step: Step) returns (longer: seq<Step>)
    requires AllEnabled(s, steps) && Enabled(Run(s, steps), step) && Take(Run(s, steps), step).disk == out.disk
    modifies out`phases, out`dispatched
    ensures longer == steps + [step] && Followed(out, s, longer) && out.Now() == Take(Run(s, steps), step)
  {
    OneMore(s, steps, step);
    longer := steps + [step];
    out.Became(Run(s, longer));
  }

  /**
    How the preparation of a slot may go. It lets the dispatch begin; or an exception ends it, before the
    first record or after; or it fails, and an exception may come between the terminal record and the
    final status.
   */
  datatype Preparation = Prepared | BreaksUnrecorded | BreaksPreparing | Fails | FailsUnclosed

  /**
    How the dispatch may go: to its end, or to an exception before the terminal record or after it. Each
    time the agent may have started or not.
   */
  datatype Execution = Ends(started: bool) | BreaksRunning(started: bool) | BreaksClosing(started: bool)

  /** The state `s` once runner `r`, which was not in it, is in `phase` at a slot that has `folder`. */
  ghost function At(s: State, r: Runner, slot: Slot, folder: Folder, phase: Phase, dispatched: seq<Slot>): State {
    State(s.disk[slot := folder], s.phases[r := phase], dispatched)
  }

  /** The state `s` once the runner has left the slot with `folder`. */
  ghost function Left(s: State, slot: Slot, folder: Folder, dispatched: seq<Slot>): State {
    State(s.disk[slot := folder], s.phases, dispatched)
  }

  predicate InSlot(step: Step) {
    !step.Begin? && !step.Examine? && !step.Claim?
  }

  /** What the steps of a runner inside its slot do. */
  ghost function Next(s: State, r: Runner, slot: Slot, folder: Folder, phase: Phase, dispatched: seq<Slot>,
      step: Step): State {
    match step
    case Checkpoint(_, identity) =>
      At(s, r, slot, folder.(status := Some(Progress(identity, false))), Preflight(slot), dispatched)
    case FailPreflight(_, identity) =>
      At(s, r, slot, folder.(outcome := Some(Terminal(identity, false))), Closing(slot), dispatched)
    case Arm(_, identity) => At(s, r, slot, folder.(status := Some(Progress(identity, true))), Armed(slot), dispatched)
    case Dispatch(_, started) =>
      At(s, r, slot, folder, Phase.Running(slot), if started then dispatched + [slot] else dispatched)
    case Note(_, identity) => At(s, r, slot, folder.(status := Some(Progress(identity, true))), phase, dispatched)
    case Terminate(_, identity) =>
      At(s, r, slot, folder.(outcome := Some(Terminal(identity, true))), Closing(slot), dispatched)
    case Close(_, identity) => Left(s, slot, folder.(status := Some(Finished(identity))), dispatched)
    case _ => Left(s, slot, folder, dispatched)
  }

  lemma TakeStatus(s: State, r: Runner, slot: Slot, folder: Folder, phase: Phase, dispatched: seq<Slot>, step: Step)
    requires r !in s.phases && phase.slot == slot && step.r == r && (step.Checkpoint? || step.Arm? || step.Note?)
    requires Enabled(At(s, r, slot, folder, phase, dispatched), step)
    ensures Take(At(s, r, slot, folder, phase, dispatched), step) == Next(s, r, slot, folder, phase, dispatched, step)
  {}

  lemma TakeOutcome(s: State, r: Runner, slot: Slot, folder: Folder, phase: Phase, dispatched: seq<Slot>, step: Step)
    requires r !in s.phases && phase.slot == slot && step.r == r &&
        (step.FailPreflight? || step.Terminate? || step.Dispatch?)
    requires Enabled(At(s, r, slot, folder, phase, dispatched), step)
    ensures Take(At(s, r, slot, folder, phase, dispatched), step) == Next(s, r, slot, folder, phase, dispatched, step)
  {}

  lemma TakeLeave(s: State, r: Runner, slot: Slot, folder: Folder, phase: Phase, dispatched: seq<Slot>, step: Step)
    requires r !in s.phases && phase.slot == slot && step.r == r && (step.Close? || step.Crash?)
    requires Enabled(At(s, r, slot, folder, phase, dispatched), step)
    ensures Take(At(s, r, slot, folder, phase, dispatched), step) == Next(s, r, slot, folder, phase, dispatched, step)
  {
    assert s.phases[r := phase] - {r} == s.phases;
  }

  lemma TakeInSlot(s: State, r: Runner, slot: Slot, folder: Folder, phase: Phase, dispatched: seq<Slot>, step: Step)
    requires r !in s.phases && phase.slot == slot && step.r == r && InSlot(step)
    requires Enabled(At(s, r, slot, folder, phase, dispatched), step)
    ensures Take(At(s, r, slot, folder, phase, dispatched), step) == Next(s, r, slot, folder, phase, dispatched, step)
  {
    hide Take, Next, Enabled, At;
    if step.Checkpoint? || step.Arm? || step.Note? {
      TakeStatus(s, r, slot, folder, phase, dispatched, step);
    } else if step.Close? || step.Crash? {
      TakeLeave(s, r, slot, folder, phase, dispatched, step);
    } else {
      TakeOutcome(s, r, slot, folder, phase, dispatched, step);
    }
  }

  /** One step inside the slot: the write it makes, and its place in the list of steps. */
  method DoStep(out: Output, r: Runner, slot: Slot, step: Step, ghost s: State, ghost folder: Folder,
      ghost phase: Phase, ghost before: seq<Step>)
    returns (ghost steps: seq<Step>)
    requires r !in s.phases && phase.slot == slot && step.r == r && InSlot(step)
    requires Followed(out, s, before) && out.Now() == At(s, r, slot, folder, phase, out.dispatched) &&
        Enabled(out.Now(), step)
    modifies out
    ensures Followed(out, s, steps) && out.Now() == Next(s, r, slot, folder, phase, old(out.dispatched), step)
  {
    hide Run, AllEnabled, Take;
    TakeInSlot(s, r, slot, folder, phase, out.dispatched, step);
    match step {
      case Checkpoint(_, identity) => out.WriteStatus(slot, Progress(identity, false));
      case Arm(_, identity) => out.WriteStatus(slot, Progress(identity, true));
      case Note(_, identity) => out.WriteStatus(slot, Progress(identity, true));
      case Close(_, identity) => out.WriteStatus(slot, Finished(identity));
      case FailPreflight(_, identity) => out.WriteOutcome(slot, Terminal(identity, false));
      case Terminate(_, identity) => out.WriteOutcome(slot, Terminal(identity, true));
      case _ =>
    }
    steps := Did(out, s, before, step);
  }

  /** Comes to a slot, and makes its folder when there is none. */
  method ClaimSlot(out: Output, r: Runner, slot: Slot, identity: Identity)
    returns (found: Found, ghost steps: seq<Step>)
    requires r !in out.phases
    modifies out
    ensures Followed(out, old(out.Now()), steps)
    ensures found.Free? <==> slot !in old(out.disk)
    ensures found.Existing? <==> slot in old(out.disk) && old(out.disk)[slot].outcome.Some?
                                 && old(out.disk)[slot].outcome.value.identity == identity
    ensures found.InProgress? <==> slot in old(out.disk) && old(out.disk)[slot].outcome.None?
                                   && RecordsOwn(old(out.disk)[slot], identity)
    ensures found.Refused? <==> slot in old(out.disk) && !RecordsOwn(old(out.disk)[slot], identity)
    ensures !found.Free? ==> out.Now() == old(out.Now())
    ensures found.Free? ==>
        out.Now() == At(old(out.Now()), r, slot, Folder(None, None), Preparing(slot), old(out.dispatched))
  {
    hide Run, AllEnabled;
    ghost var s := out.Now();
    RunNothing(s);
    found := ExistingSlot(out.disk, slot, identity);
    FoundMeans(out.disk, slot, identity);
    steps := Did(out, s, [], Begin(r, slot));
    steps := Did(out, s, steps, Examine(r, identity));
    if found.Free? {
      var made := out.MakeFolder(slot);
      steps := Did(out, s, steps, Claim(r));
    }
  }

  lemma RunNothing(s: State)
    ensures AllEnabled(s, []) && Run(s, []) == s
  {}

  function Undispatched(identity: Identity): Folder {
    Folder(Some(Progress(identity, false)), None)
  }

  function Dispatchable(identity: Identity): Folder {
    Folder(Some(Progress(identity, true)), None)
  }

  /** The records a preparation leaves: none of them says that a dispatch may have occurred. */
  function RecordsPrepared(identity: Identity, preparation: Preparation): Folder {
    match preparation
    case Prepared => Undispatched(identity)
    case BreaksUnrecorded => Folder(None, None)
    case BreaksPreparing => Undispatched(identity)
    case Fails => Folder(Some(Finished(identity)), Some(Terminal(identity, false)))
    case FailsUnclosed => Undispatched(identity).(outcome := Some(Terminal(identity, false)))
  }

  /** The checkpoints before the dispatch, and a preflight failure or an exception among them. */
  method PrepareSlot(out: Output, r: Runner, slot: Slot, identity: Identity, checkpoints: nat,
      preparation: Preparation, ghost s: State, ghost before: seq<Step>)
    returns (ghost steps: seq<Step>)
    requires Followed(out, s, before) && r !in s.phases
    requires out.Now() == At(s, r, slot, Folder(None, None), Preparing(slot), s.dispatched)
    modifies out
    ensures Followed(out, s, steps)
    ensures out.Now() ==
            if preparation.Prepared? then At(s, r, slot, Undispatched(identity), Preflight(slot), s.dispatched)
            else Left(s, slot, RecordsPrepared(identity, preparation), s.dispatched)
    ensures preparation.BreaksUnrecorded? ==> forall later :: ExistingSlot(out.disk, slot, later).Refused?
  {
    hide Run, AllEnabled, Take;
    if preparation.BreaksUnrecorded? {
      steps := DoStep(out, r, slot, Crash(r), s, Folder(None, None), Preparing(slot), before);
      return;
    }
    ghost var folder := Undispatched(identity);
    steps := DoStep(out, r, slot, Checkpoint(r, identity), s, Folder(None, None), Preparing(slot), before);
    for i := 0 to checkpoints
      invariant Followed(out, s, steps) && out.Now() == At(s, r, slot, folder, Preflight(slot), s.dispatched)
    {
      steps := DoStep(out, r, slot, Checkpoint(r, identity), s, folder, Preflight(slot), steps);
    }
    if preparation.BreaksPreparing? {
      steps := DoStep(out, r, slot, Crash(r), s, folder, Preflight(slot), steps);
    } else if !preparation.Prepared? {
      steps := FailSlot(out, r, slot, identity, preparation, s, steps);
    }
  }

  /** The terminal record of a preflight failure, and then the final status, which may not be written. */
  method FailSlot(out: Output, r: Runner, slot: Slot, identity: Identity, preparation: Preparation, ghost s: State,
      ghost before: seq<Step>)
    returns (ghost steps: seq<Step>)
    requires Followed(out, s, before) && r !in s.phases && (preparation.Fails? || preparation.FailsUnclosed?)
    requires out.Now() == At(s, r, slot, Undispatched(identity), Preflight(slot), s.dispatched)
    modifies out
    ensures Followed(out, s, steps)
    ensures out.Now() == Left(s, slot, RecordsPrepared(identity, preparation), s.dispatched)
  {
    hide Run, AllEnabled, Take;
    ghost var folder := Undispatched(identity).(outcome := Some(Terminal(identity, false)));
    steps := DoStep(out, r, slot, FailPreflight(r, identity), s, Undispatched(identity), Preflight(slot), before);
    if preparation.FailsUnclosed? {
      steps := DoStep(out, r, slot, Crash(r), s, folder, Closing(slot), steps);
    } else {
      steps := DoStep(out, r, slot, Close(r, identity), s, folder, Closing(slot), steps);
    }
  }

  ghost function After(dispatched: seq<Slot>, slot: Slot, execution: Execution): seq<Slot> {
    if execution.started then dispatched + [slot] else dispatched
  }

  /** The records a dispatch leaves: none of its ends denies that it may have occurred. */
  function RecordsAfter(identity: Identity, execution: Execution): Folder {
    match execution
    case Ends(_) => Folder(Some(Finished(identity)), Some(Terminal(identity, true)))
    case BreaksRunning(_) => Dispatchable(identity)
    case BreaksClosing(_) => Dispatchable(identity).(outcome := Some(Terminal(identity, true)))
  }

  /** The status written while the agent runs says each time that a dispatch may have occurred. */
  method NoteProgress(out: Output, r: Runner, slot: Slot, identity: Identity, notes: nat, ghost s: State,
      ghost dispatched: seq<Slot>, ghost before: seq<Step>)
    returns (ghost steps: seq<Step>)
    requires Followed(out, s, before) && r !in s.phases
    requires out.Now() == At(s, r, slot, Dispatchable(identity), Phase.Running(slot), dispatched)
    modifies out
    ensures Followed(out, s, steps) && out.Now() == old(out.Now())
  {
    hide Run, AllEnabled, Take;
    steps := before;
    for i := 0 to notes
      invariant Followed(out, s, steps) && out.Now() == old(out.Now())
    {
      steps := DoStep(out, r, slot, Note(r, identity), s, Dispatchable(identity), Phase.Running(slot), steps);
    }
  }

  /** The record that a dispatch may occur, the dispatch, and what is written while the agent runs. */
  method StartSlot(out: Output, r: Runner, slot: Slot, identity: Identity, started: bool, notes: nat, ghost s: State,
      ghost dispatched: seq<Slot>, ghost before: seq<Step>)
    returns (ghost steps: seq<Step>)
    requires Followed(out, s, before) && r !in s.phases
    requires out.Now() == At(s, r, slot, Undispatched(identity), Preflight(slot), s.dispatched)
    requires dispatched == if started then s.dispatched + [slot] else s.dispatched
    modifies out
    ensures Followed(out, s, steps)
    ensures out.Now() == At(s, r, slot, Dispatchable(identity), Phase.Running(slot), dispatched)
  {
    hide Run, AllEnabled, Take;
    steps := DoStep(out, r, slot, Arm(r, identity), s, Undispatched(identity), Preflight(slot), before);
    steps := DoStep(out, r, slot, Dispatch(r, started), s, Dispatchable(identity), Armed(slot), steps);
    steps := NoteProgress(out, r, slot, identity, notes, s, dispatched, steps);
  }

  /** The terminal record, and then the final status, which may not be written. */
  method CloseSlot(out: Output, r: Runner, slot: Slot, identity: Identity, execution: Execution, ghost s: State,
      ghost dispatched: seq<Slot>, ghost before: seq<Step>)
    returns (ghost steps: seq<Step>)
    requires Followed(out, s, before) && r !in s.phases && !execution.BreaksRunning?
    requires out.Now() == At(s, r, slot, Dispatchable(identity), Phase.Running(slot), dispatched)
    modifies out
    ensures Followed(out, s, steps) && out.Now() == Left(s, slot, RecordsAfter(identity, execution), dispatched)
  {
    hide Run, AllEnabled, Take;
    ghost var folder := Dispatchable(identity).(outcome := Some(Terminal(identity, true)));
    steps := DoStep(out, r, slot, Terminate(r, identity), s, Dispatchable(identity), Phase.Running(slot), before);
    if execution.BreaksClosing? {
      steps := DoStep(out, r, slot, Crash(r), s, folder, Closing(slot), steps);
    } else {
      steps := DoStep(out, r, slot, Close(r, identity), s, folder, Closing(slot), steps);
    }
  }

  /** The dispatch between its write-ahead record and its terminal record, or an exception in between. */
  method DispatchSlot(out: Output, r: Runner, slot: Slot, identity: Identity, execution: Execution, notes: nat,
      ghost s: State, ghost before: seq<Step>)
    returns (ghost steps: seq<Step>)
    requires Followed(out, s, before) && r !in s.phases
    requires out.Now() == At(s, r, slot, Undispatched(identity), Preflight(slot), s.dispatched)
    modifies out
    ensures Followed(out, s, steps)
    ensures out.Now() == Left(s, slot, RecordsAfter(identity, execution), After(s.dispatched, slot, execution))
    ensures DispatchRecorded(out.disk[slot])
  {
    hide Run, AllEnabled, Take;
    ghost var dispatched := After(s.dispatched, slot, execution);
    steps := StartSlot(out, r, slot, identity, execution.started, notes, s, dispatched, before);
    if execution.BreaksRunning? {
      steps := DoStep(out, r, slot, Crash(r), s, Dispatchable(identity), Phase.Running(slot), steps);
    } else {
      steps := CloseSlot(out, r, slot, identity, execution, s, dispatched, steps);
    }
  }

  /**
    One slot, run by one runner to its end or to an exception. What it does is a list of protocol steps,
    each possible where it is taken; so what holds over all runs of the protocol holds of it.
   */
  method RunSlot(out: Output, r: Runner, slot: Slot, identity: Identity, checkpoints: nat, preparation: Preparation,
      execution: Execution, notes: nat)
    returns (found: Found, ghost steps: seq<Step>)
    requires r !in out.phases
    modifies out
    ensures Followed(out, old(out.Now()), steps)
    ensures found.Free? <==> slot !in old(out.disk)
    ensures found.Existing? <==> slot in old(out.disk) && old(out.disk)[slot].outcome.Some?
                                 && old(out.disk)[slot].outcome.value.identity == identity
    ensures found.InProgress? <==> slot in old(out.disk) && old(out.disk)[slot].outcome.None?
                                   && RecordsOwn(old(out.disk)[slot], identity)
    ensures found.Refused? <==> slot in old(out.disk) && !RecordsOwn(old(out.disk)[slot], identity)
    ensures !found.Free? ==> out.Now() == old(out.Now())
    ensures found.Free? && preparation.Prepared? ==>
              out.Now() == Left(old(out.Now()), slot, RecordsAfter(identity, execution),
                  After(old(out.dispatched), slot, execution))
    ensures found.Free? && !preparation.Prepared? ==>
              out.Now() == Left(old(out.Now()), slot, RecordsPrepared(identity, preparation), old(out.dispatched))
  {
    hide Run, AllEnabled, Take;
    ghost var s := out.Now();
    found, steps := ClaimSlot(out, r, slot, identity);
    if found.Free? {
      steps := PrepareSlot(out, r, slot, identity, checkpoints, preparation, s, steps);
      if preparation.Prepared? {
        steps := DispatchSlot(out, r, slot, identity, execution, notes, s, steps);
      }
    }
  }

  /** How the runner's turn at one slot may go, when the slot is free. */
  datatype Turn = Turn(slot: Slot, checkpoints: nat, preparation: Preparation, execution: Execution, notes: nat)

  predicate Raises(turn: Turn) {
    if turn.preparation.Prepared? then !turn.execution.Ends? else !turn.preparation.Fails?
  }

  /** No earlier turn is at the same slot. */
  ghost predicate FirstAt(turns: seq<Turn>, i: nat)
    requires i < |turns|
  {
    forall j :: 0 <= j < i ==> turns[j].slot != turns[i].slot
  }

  /** The records a turn leaves at a free slot. */
  function RecordsOf(identity: Identity, turn: Turn): Folder {
    if turn.preparation.Prepared? then RecordsAfter(identity, turn.execution)
    else RecordsPrepared(identity, turn.preparation)
  }

  lemma RaisesMeans(identity: Identity, turn: Turn)
    ensures Raises(turn) <==> RecordsOf(identity, turn).status != Some(Finished(identity))
  {}

  /**
    The turn ends the loop: its slot holds no record of this campaign, or is free and the turn leaves it
    without a final status, which is when an exception breaks it off.
   */
  ghost predicate StopsAt(disk: map<Slot, Folder>, turns: seq<Turn>, identity: Identity, i: nat)
    requires i < |turns|
  {
    if turns[i].slot in disk then !RecordsOwn(disk[turns[i].slot], identity)
    else FirstAt(turns, i) && RecordsOf(identity, turns[i]).status != Some(Finished(identity))
  }

  /** The turn is the first at a slot that was free. */
  ghost predicate Runs(disk: map<Slot, Folder>, turns: seq<Turn>, i: nat)
    requires i < |turns|
  {
    turns[i].slot !in disk && FirstAt(turns, i)
  }

  predicate Dispatches(turn: Turn) {
    turn.preparation.Prepared? && turn.execution.started
  }

  /** The slots that the first `n` turns dispatch, in order. */
  ghost function DispatchedBy(disk: map<Slot, Folder>, turns: seq<Turn>, n: nat): seq<Slot>
    requires n <= |turns|
  {
    if n == 0 then []
    else
      DispatchedBy(disk, turns, n - 1) +
      (if Runs(disk, turns, n - 1) && Dispatches(turns[n - 1]) then [turns[n - 1].slot] else [])
  }

  /** What the loop has done after `n` turns: the free slots have their records, and the rest is as it was. */
  ghost predicate TurnsDone(was: State, now: State, turns: seq<Turn>, identity: Identity, n: nat)
    requires n <= |turns|
  {
    && now.phases == was.phases
    && (forall slot :: slot in was.disk ==> slot in now.disk && now.disk[slot] == was.disk[slot])
    && (forall i: nat :: i < n && Runs(was.disk, turns, i) ==>
          turns[i].slot in now.disk && now.disk[turns[i].slot] == RecordsOf(identity, turns[i]))
    && (forall slot :: slot in now.disk ==> slot in was.disk || exists i: nat :: i < n && turns[i].slot == slot)
    && now.dispatched == was.dispatched + DispatchedBy(was.disk, turns, n)
  }

  lemma NoTurns(s: State, turns: seq<Turn>, identity: Identity)
    ensures TurnsDone(s, s, turns, identity, 0)
  {}

  lemma FirstOf(turns: seq<Turn>, j: nat) returns (i: nat)
    requires j < |turns|
    ensures i <= j && turns[i].slot == turns[j].slot && FirstAt(turns, i)
  {
    i := 0;
    while turns[i].slot != turns[j].slot
      invariant i <= j && forall k :: 0 <= k < i ==> turns[k].slot != turns[j].slot
      decreases j - i
    {
      i := i + 1;
    }
  }

  /** A turn that does not raise leaves a record of its campaign. */
  lemma RecordsOfTurn(identity: Identity, turn: Turn)
    ensures !Raises(turn) ==> RecordsOwn(RecordsOf(identity, turn), identity)
  {}

  /** A slot that an earlier turn has run holds a record of this campaign, unless that turn raised. */
  lemma RunBefore(was: State, now: State, turns: seq<Turn>, identity: Identity, n: nat)
    requires n < |turns| && TurnsDone(was, now, turns, identity, n)
    requires forall i: nat :: i < n ==> !StopsAt(was.disk, turns, identity, i)
    ensures turns[n].slot !in now.disk <==> Runs(was.disk, turns, n)
    ensures turns[n].slot in now.disk ==>
              (StopsAt(was.disk, turns, identity, n) <==> !RecordsOwn(now.disk[turns[n].slot], identity))
  {
    hide Raises, RecordsOf, RecordsOwn;
    var slot := turns[n].slot;
    if slot !in was.disk {
      if slot in now.disk || !FirstAt(turns, n) {
        var j: nat :| j < n && turns[j].slot == slot;
        var i := FirstOf(turns, j);
        assert Runs(was.disk, turns, i) && !StopsAt(was.disk, turns, identity, i);
        RecordsOfTurn(identity, turns[i]);
        RaisesMeans(identity, turns[i]);
      }
    }
  }

  /** One more turn, at a slot that is not free. */
  lemma TurnPassed(was: State, now: State, turns: seq<Turn>, identity: Identity, n: nat)
    requires n < |turns| && TurnsDone(was, now, turns, identity, n) && turns[n].slot in now.disk
    ensures TurnsDone(was, now, turns, identity, n + 1)
  {
    hide RecordsOf, Runs, Dispatches;
    RunsOnce(was, now, turns, identity, n);
  }

  lemma RunsOnce(was: State, now: State, turns: seq<Turn>, identity: Identity, n: nat)
    requires n < |turns| && TurnsDone(was, now, turns, identity, n) && turns[n].slot in now.disk
    ensures !Runs(was.disk, turns, n)
  {
    hide RecordsOf, Dispatches;
    assert turns[n].slot in was.disk || exists i: nat :: i < n && turns[i].slot == turns[n].slot;
  }

  /** One more turn, at a free slot. */
  lemma TurnRun(was: State, now: State, turns: seq<Turn>, identity: Identity, n: nat, dispatched: seq<Slot>)
    requires n < |turns| && TurnsDone(was, now, turns, identity, n)
    requires turns[n].slot !in now.disk && Runs(was.disk, turns, n)
    requires dispatched == if Dispatches(turns[n]) then now.dispatched + [turns[n].slot] else now.dispatched
    ensures TurnsDone(was, Left(now, turns[n].slot, RecordsOf(identity, turns[n]), dispatched), turns, identity, n + 1)
  {
    hide Runs, Dispatches, RecordsOf;
    OthersSlots(was, turns, n);
  }

  lemma OthersSlots(was: State, turns: seq<Turn>, n: nat)
    requires n < |turns| && Runs(was.disk, turns, n)
    ensures turns[n].slot !in was.disk && forall i :: 0 <= i < n ==> turns[i].slot != turns[n].slot
  {}

  /** The loop ends at a turn exactly when its slot is refused, or is free and the turn raises. */
  lemma StopsWhen(was: State, turns: seq<Turn>, identity: Identity, n: nat, found: Found)
    requires n < |turns|
    requires found.Free? <==> Runs(was.disk, turns, n)
    requires !found.Free? ==> (found.Refused? <==> StopsAt(was.disk, turns, identity, n))
    ensures found.Refused? || (found.Free? && Raises(turns[n])) <==> StopsAt(was.disk, turns, identity, n)
  {}

  lemma TurnLeft(before: State, after: State, turn: Turn, identity: Identity)
    requires if turn.preparation.Prepared? then
               after == Left(before, turn.slot, RecordsAfter(identity, turn.execution),
                             After(before.dispatched, turn.slot, turn.execution))
             else after == Left(before, turn.slot, RecordsPrepared(identity, turn.preparation), before.dispatched)
    ensures after.dispatched
         == if Dispatches(turn) then before.dispatched + [turn.slot] else before.dispatched
    ensures after == Left(before, turn.slot, RecordsOf(identity, turn), after.dispatched)
  {}

  /**
    The loop over the selected slots. It goes through all of them exactly when each is free with a turn that
    does not raise, or holds a record of this campaign; otherwise it ends at the first that is neither.
    Every free slot it has come to has the records of its turn, and nothing else has changed.
   */
  method RunSlots(out: Output, r: Runner, turns: seq<Turn>, identity: Identity) returns (completed: nat)
    requires r !in out.phases
    modifies out
    ensures completed <= |turns| && forall i: nat :: i < completed ==> !StopsAt(old(out.disk), turns, identity, i)
    ensures completed < |turns| ==> StopsAt(old(out.disk), turns, identity, completed)
    ensures TurnsDone(old(out.Now()), out.Now(), turns, identity,
                      if completed < |turns| then completed + 1 else completed)
  {
    hide AllEnabled, Run, TurnsDone, StopsAt, Runs, Raises, RecordsOf, RecordsOwn, RecordsAfter, RecordsPrepared;
    ghost var was := out.Now();
    completed := 0;
    NoTurns(was, turns, identity);
    while completed < |turns|
      invariant completed <= |turns| && r !in out.phases
      invariant TurnsDone(was, out.Now(), turns, identity, completed)
      invariant forall i: nat :: i < completed ==> !StopsAt(was.disk, turns, identity, i)
    {
      var turn := turns[completed];
      ghost var before := out.Now();
      RunBefore(was, before, turns, identity, completed);
      var found, _ := RunSlot(out, r, turn.slot, identity, turn.checkpoints, turn.preparation, turn.execution,
        turn.notes);
      StopsWhen(was, turns, identity, completed, found);
      if found.Free? {
        TurnLeft(before, out.Now(), turn, identity);
        TurnRun(was, before, turns, identity, completed, out.dispatched);
      } else {
        TurnPassed(was, before, turns, identity, completed);
      }
      if found.Refused? || (found.Free? && Raises(turn)) {
        return;
      }
      completed := completed + 1;
    }
  }
}
