/**
  The slots of an edit campaign on disk, and any number of runners that claim, prepare, dispatch and
  close them, each of which may crash after any step and start again.
 */
module SlotDispatch {
  import opened Options

  /** A slot is named by its schedule index. */
  datatype Slot = Slot(index: nat)

  datatype Runner = Runner(name: nat)

  /** The manifest, runner and bindings a record was written under. */
  datatype Identity = Identity(hash: string)

  datatype Status = Progress(identity: Identity, dispatchMayOccur: bool) | Finished(identity: Identity)

  datatype Terminal = Terminal(identity: Identity, dispatchStarted: bool)

  /** The folder of a slot: its status record and its terminal record. */
  datatype Folder = Folder(status: Option<Status>, outcome: Option<Terminal>)

  /** Where a runner is in its current slot. */
  datatype Phase =
    | Entering(slot: Slot)
    | Claiming(slot: Slot)
    | Preparing(slot: Slot)
    | Preflight(slot: Slot)
    | Armed(slot: Slot)
    | Running(slot: Slot)
    | Closing(slot: Slot)

  datatype State = State(disk: map<Slot, Folder>, phases: map<Runner, Phase>, dispatched: seq<Slot>)

  datatype Step =
    | Begin(r: Runner, slot: Slot)
    | Examine(r: Runner, identity: Identity)
    | Claim(r: Runner)
    | Checkpoint(r: Runner, identity: Identity)
    | FailPreflight(r: Runner, identity: Identity)
    | Arm(r: Runner, identity: Identity)
    | Dispatch(r: Runner, started: bool)
    | Note(r: Runner, identity: Identity)
    | Terminate(r: Runner, identity: Identity)
    | Close(r: Runner, identity: Identity)
    | Crash(r: Runner)

  /** What a runner makes of a slot it comes to. */
  datatype Found = Free | Existing | InProgress | Refused

  function ExistingSlot(disk: map<Slot, Folder>, slot: Slot, identity: Identity): Found {
    if slot !in disk then Free
    else if disk[slot].outcome.Some? then
      if disk[slot].outcome.value.identity == identity then Existing else Refused
    else if disk[slot].status.Some? then
      if disk[slot].status.value.identity == identity then InProgress else Refused
    else Refused
  }

  /** The terminal record of the folder, or else its status record, is one of this identity. */
  predicate RecordsOwn(folder: Folder, identity: Identity) {
    match folder.outcome
    case Some(terminal) => terminal.identity == identity
    case None => folder.status.Some? && folder.status.value.identity == identity
  }

  /** What is found, said of the records. */
  lemma FoundMeans(disk: map<Slot, Folder>, slot: Slot, identity: Identity)
    ensures var found := ExistingSlot(disk, slot, identity);
            && (found.Free? <==> slot !in disk)
            && (found.Existing? <==>
                 slot in disk && exists terminal :: disk[slot].outcome == Some(terminal)
                                                    && terminal.identity == identity)
            && (found.InProgress? <==>
                 slot in disk && disk[slot].outcome.None? && exists status :: disk[slot].status == Some(status)
                                                                              && status.identity == identity)
            && (found.Refused? <==> slot in disk && !RecordsOwn(disk[slot], identity))
  {}

  predicate In(s: State, r: Runner) {
    r in s.phases
  }

  function Leave(s: State, r: Runner): State {
    s.(phases := s.phases - {r})
  }

  function Enter(s: State, r: Runner, phase: Phase): State {
    s.(phases := s.phases[r := phase])
  }

  function Store(s: State, slot: Slot, folder: Folder): State {
    s.(disk := s.disk[slot := folder])
  }

  predicate Enabled(s: State, step: Step) {
    match step
    case Begin(r, _) => r !in s.phases
    case Examine(r, _) => In(s, r) && s.phases[r].Entering?
    case Claim(r) => In(s, r) && s.phases[r].Claiming?
    case Checkpoint(r, _) => In(s, r) && (s.phases[r].Preparing? || s.phases[r].Preflight?)
    case FailPreflight(r, _) => In(s, r) && s.phases[r].Preflight?
    case Arm(r, _) => In(s, r) && s.phases[r].Preflight?
    case Dispatch(r, _) => In(s, r) && s.phases[r].Armed?
    case Note(r, _) => In(s, r) && s.phases[r].Running?
    case Terminate(r, _) => In(s, r) && s.phases[r].Running?
    case Close(r, _) => In(s, r) && s.phases[r].Closing?
    case Crash(r) => In(s, r)
  }

  /** The effect of a step. The directory of a slot is made in one step that fails when it is there. */
  function Take(s: State, step: Step): State {
    if !Enabled(s, step) then s
    else if step.Begin? then Enter(s, step.r, Entering(step.slot))
    else
      var slot := s.phases[step.r].slot;
      match step
      case Begin(_, _) => s
      case Examine(r, identity) =>
        if ExistingSlot(s.disk, slot, identity).Free? then Enter(s, r, Claiming(slot)) else Leave(s, r)
      case Claim(r) =>
        if slot in s.disk then Leave(s, r)
        else Store(Enter(s, r, Preparing(slot)), slot, Folder(None, None))
      case Checkpoint(r, identity) => Write(Enter(s, r, Preflight(slot)), slot, Progress(identity, false))
      case FailPreflight(r, identity) => Settle(Enter(s, r, Closing(slot)), slot, Terminal(identity, false))
      case Arm(r, identity) => Write(Enter(s, r, Armed(slot)), slot, Progress(identity, true))
      case Dispatch(r, started) =>
        var s' := Enter(s, r, Running(slot));
        if started then s'.(dispatched := s.dispatched + [slot]) else s'
      case Note(r, identity) => Write(s, slot, Progress(identity, true))
      case Terminate(r, identity) => Settle(Enter(s, r, Closing(slot)), slot, Terminal(identity, true))
      case Close(r, identity) => Write(Leave(s, r), slot, Finished(identity))
      case Crash(r) => Leave(s, r)
  }

  /** Replaces the status record as a whole. */
  function Write(s: State, slot: Slot, status: Status): State {
    Store(s, slot, Folder(Some(status), if slot in s.disk then s.disk[slot].outcome else None))
  }

  /** Replaces the terminal record as a whole. */
  function Settle(s: State, slot: Slot, outcome: Terminal): State {
    Store(s, slot, Folder(if slot in s.disk then s.disk[slot].status else None, Some(outcome)))
  }

  // What every step keeps.

  predicate Owns(phase: Phase) {
    !phase.Entering? && !phase.Claiming?
  }

  /** The record on disk that must stand beside a dispatch. */
  predicate DispatchRecorded(folder: Folder) {
    match folder.outcome
    case Some(outcome) => outcome.dispatchStarted
    case None => folder.status.Some? && folder.status.value.Progress? && folder.status.value.dispatchMayOccur
  }

  /** The folder of a slot while a runner owns it. */
  predicate OwnerSees(phase: Phase, folder: Folder, wasDispatched: bool) {
    match phase
    case Entering(_) => true
    case Claiming(_) => true
    case Preparing(_) => folder == Folder(None, None) && !wasDispatched
    case Preflight(_) => folder.outcome.None? && folder.status.Some? && folder.status.value.Progress? && !wasDispatched
    case Armed(_) => folder.outcome.None? && DispatchRecorded(folder) && !wasDispatched
    case Running(_) => folder.outcome.None? && DispatchRecorded(folder)
    case Closing(_) => folder.outcome.Some?
  }

  ghost predicate OwnersRight(s: State) {
    forall r :: r in s.phases && Owns(s.phases[r]) ==>
      var slot := s.phases[r].slot;
      slot in s.disk && OwnerSees(s.phases[r], s.disk[slot], slot in s.dispatched)
  }

  ghost predicate OneOwner(s: State) {
    forall r, q :: r in s.phases && q in s.phases && Owns(s.phases[r]) && Owns(s.phases[q]) ==>
      s.phases[r].slot == s.phases[q].slot ==> r == q
  }

  ghost predicate DispatchesRecorded(s: State) {
    forall slot :: slot in s.dispatched ==> slot in s.disk && DispatchRecorded(s.disk[slot])
  }

  ghost predicate NoRepeats(slots: seq<Slot>) {
    forall i, j :: 0 <= i < j < |slots| ==> slots[i] != slots[j]
  }

  ghost predicate Invariant(s: State) {
    OwnersRight(s) && OneOwner(s) && DispatchesRecorded(s) && NoRepeats(s.dispatched)
  }

  /** A step is a step of one runner: the others stay where they are, and it owns at most the slot it owned. */
  lemma StepKeepsOneOwner(s: State, step: Step)
    requires OwnersRight(s) && OneOwner(s)
    ensures OneOwner(Take(s, step))
  {
    hide OwnerSees, DispatchRecorded;
  }

  lemma OwnFolderRight(s: State, step: Step)
    requires OwnersRight(s) && DispatchesRecorded(s) && step.r in Take(s, step).phases &&
        Owns(Take(s, step).phases[step.r])
    ensures var s' := Take(s, step);
            var slot := s'.phases[step.r].slot;
            slot in s'.disk && OwnerSees(s'.phases[step.r], s'.disk[slot], slot in s'.dispatched)
  {}

  lemma OtherFolderRight(s: State, step: Step, q: Runner)
    requires OwnersRight(s) && OneOwner(s) && q != step.r && q in s.phases && Owns(s.phases[q])
    ensures var s', slot := Take(s, step), s.phases[q].slot;
            slot in s'.disk && OwnerSees(s.phases[q], s'.disk[slot], slot in s'.dispatched)
  {}

  lemma OthersStay(s: State, step: Step, q: Runner)
    requires q != step.r
    ensures q in Take(s, step).phases <==> q in s.phases
    ensures q in s.phases ==> Take(s, step).phases[q] == s.phases[q]
  {}

  lemma StepKeepsOwners(s: State, step: Step)
    requires OwnersRight(s) && OneOwner(s) && DispatchesRecorded(s)
    ensures OwnersRight(Take(s, step)) && OneOwner(Take(s, step))
  {
    hide Take, OwnerSees;
    StepKeepsOneOwner(s, step);
    var s' := Take(s, step);
    forall q | q in s'.phases && Owns(s'.phases[q])
      ensures var slot := s'.phases[q].slot;
              slot in s'.disk && OwnerSees(s'.phases[q], s'.disk[slot], slot in s'.dispatched)
    {
      if q == step.r {
        OwnFolderRight(s, step);
      } else {
        OthersStay(s, step, q);
        OtherFolderRight(s, step, q);
      }
    }
  }

  lemma StepKeepsRecords(s: State, step: Step)
    requires OwnersRight(s) && DispatchesRecorded(s) && NoRepeats(s.dispatched)
    ensures DispatchesRecorded(Take(s, step)) && NoRepeats(Take(s, step).dispatched)
  {
    if Enabled(s, step) && step.Dispatch? { assert s.phases[step.r].slot !in s.dispatched; }
  }

  lemma StepKeepsInvariant(s: State, step: Step)
    requires Invariant(s)
    ensures Invariant(Take(s, step))
  {
    StepKeepsOwners(s, step);
    StepKeepsRecords(s, step);
  }

  ghost predicate Start(s: State) {
    s.disk == map[] && s.phases == map[] && s.dispatched == []
  }

  function Run(start: State, steps: seq<Step>): State {
    if steps == [] then start else Take(Run(start, steps[..|steps| - 1]), steps[|steps| - 1])
  }

  lemma {:induction false} RunKeepsInvariant(start: State, steps: seq<Step>)
    requires Start(start)
    ensures Invariant(Run(start, steps))
  {
    if steps != [] {
      RunKeepsInvariant(start, steps[..|steps| - 1]);
      StepKeepsInvariant(Run(start, steps[..|steps| - 1]), steps[|steps| - 1]);
    }
  }

  /**
    Over every interleaving of runners, crashes and reruns each slot is dispatched at most once. A
    dispatch always has its record on disk, and a terminal record denies a dispatch only when there was none.
   */
  lemma DispatchedAtMostOnce(start: State, steps: seq<Step>)
    requires Start(start)
    ensures var s := Run(start, steps);
            && (forall i, j :: 0 <= i < j < |s.dispatched| ==> s.dispatched[i] != s.dispatched[j])
            && (forall slot :: slot in s.dispatched ==>
                  && slot in s.disk
                  && if s.disk[slot].outcome.Some? then s.disk[slot].outcome.value.dispatchStarted
                     else exists identity :: s.disk[slot].status == Some(Progress(identity, true)))
  {
    RunKeepsInvariant(start, steps);
  }

  lemma StepKeepsTerminal(s: State, step: Step, slot: Slot)
    requires Invariant(s) && slot in s.disk && s.disk[slot].outcome.Some?
    ensures slot in Take(s, step).disk && Take(s, step).disk[slot].outcome == s.disk[slot].outcome
  {}

  /** A terminal record never changes. */
  lemma {:induction false} TerminalNeverChanges(start: State, steps: seq<Step>, more: seq<Step>, slot: Slot)
    requires Start(start)
    requires slot in Run(start, steps).disk && Run(start, steps).disk[slot].outcome.Some?
    ensures slot in Run(start, steps + more).disk
    ensures Run(start, steps + more).disk[slot].outcome == Run(start, steps).disk[slot].outcome
    decreases |more|
  {
    if more == [] {
      assert steps + more == steps;
    } else {
      var n := |more| - 1;
      TerminalNeverChanges(start, steps, more[..n], slot);
      RunKeepsInvariant(start, steps + more[..n]);
      assert (steps + more)[..|steps + more| - 1] == steps + more[..n];
      StepKeepsTerminal(Run(start, steps + more[..n]), more[n], slot);
    }
  }
}
