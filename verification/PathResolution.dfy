/**
  Pathname resolution as section 4.13 of the Base Definitions of POSIX.1-2017 describes it, in the tree
  of a manifest: as the plain walk over names goes, except that a name with more to follow must be that of
  a directory. Where the two agree, and where they part.
 */
module PathResolution {
  import opened Text
  import opened RelativePaths
  import opened TreeModel
  import opened LinkResolution

  /** A walk that goes on as the plain one does, or has met a name that is not a directory. */
  datatype Resolution = Going(walk: Walk) | NotADirectory

  /** The next name of the walk is a link, the last name, or a directory of the manifest. */
  predicate Firm(w: Walk, entries: Manifest) {
    w.Walking? && w.todo != [] && w.todo[0] !in ["", ".", ".."] && |w.todo| > 1 ==>
      var candidate := PathOf(w.stack + [w.todo[0]]);
      candidate in entries && (entries[candidate].SymlinkEntry? || entries[candidate].DirectoryEntry?)
  }

  function Resolve(r: Resolution, entries: Manifest): Resolution {
    match r
    case Going(w) => if Firm(w, entries) then Going(Step(w, entries)) else NotADirectory
    case NotADirectory => r
  }

  function Resolving(r: Resolution, n: nat, entries: Manifest): Resolution {
    if n == 0 then r else Resolve(Resolving(r, n - 1, entries), entries)
  }

  ghost predicate ResolvesTo(w: Walk, r: Resolution, entries: Manifest) {
    exists n: nat :: Resolving(Going(w), n, entries) == r
  }

  ghost predicate ResolvesForEver(w: Walk, entries: Manifest) {
    forall n: nat :: Resolving(Going(w), n, entries).Going? && Resolving(Going(w), n, entries).walk.Walking?
  }

  /** Every name that the plain walk goes through is a link or a directory. */
  ghost predicate Solid(w: Walk, entries: Manifest) {
    forall n: nat :: Firm(Run(w, n, entries), entries)
  }

  lemma {:induction false} RunLast(w: Walk, n: nat, entries: Manifest)
    requires n > 0
    ensures Run(w, n, entries) == Step(Run(w, n - 1, entries), entries)
  {
    RunAdd(w, n - 1, 1, entries);
    var v := Run(w, n - 1, entries);
    assert Run(v, 1, entries) == Run(Step(v, entries), 0, entries);
  }

  /** As long as the names are firm the two walks are one. */
  lemma {:induction false} FirmAgrees(w: Walk, n: nat, entries: Manifest)
    requires forall k: nat :: k < n ==> Firm(Run(w, k, entries), entries)
    ensures Resolving(Going(w), n, entries) == Going(Run(w, n, entries))
  {
    if n > 0 {
      FirmAgrees(w, n - 1, entries);
      RunLast(w, n, entries);
    }
  }

  lemma {:induction false} StopsAtFirst(w: Walk, n: nat, entries: Manifest) returns (k: nat)
    requires !Firm(Run(w, n, entries), entries)
    ensures k <= n && !Firm(Run(w, k, entries), entries) && forall j: nat :: j < k ==> Firm(Run(w, j, entries), entries)
  {
    if j: nat :| j < n && !Firm(Run(w, j, entries), entries) { k := StopsAtFirst(w, j, entries); } else { k := n; }
  }

  lemma {:induction false} StoppedStays(n: nat, entries: Manifest)
    ensures Resolving(NotADirectory, n, entries) == NotADirectory
  {
    if n > 0 { StoppedStays(n - 1, entries); }
  }

  lemma {:induction false} ResolvingAdd(r: Resolution, a: nat, b: nat, entries: Manifest)
    ensures Resolving(r, a + b, entries) == Resolving(Resolving(r, a, entries), b, entries)
  {
    if b > 0 { ResolvingAdd(r, a, b - 1, entries); }
  }

  lemma SolidAgrees(w: Walk, n: nat, entries: Manifest)
    requires Solid(w, entries)
    ensures Resolving(Going(w), n, entries) == Going(Run(w, n, entries))
  {
    FirmAgrees(w, n, entries);
  }

  lemma StoppedAfter(w: Walk, k: nat, n: nat, entries: Manifest)
    requires Resolving(Going(w), k, entries) == Going(Run(w, k, entries)) && !Firm(Run(w, k, entries), entries) && n > k
    ensures Resolving(Going(w), n, entries) == NotADirectory
  {
    hide Firm, Run;
    assert Resolving(Going(w), k + 1, entries) == NotADirectory;
    hide Resolving;
    ResolvingAdd(Going(w), k + 1, n - (k + 1), entries);
    StoppedStays(n - (k + 1), entries);
  }

  lemma NotSolidStops(w: Walk, entries: Manifest) returns (k: nat)
    requires !Solid(w, entries)
    ensures forall n: nat :: n > k ==> Resolving(Going(w), n, entries) == NotADirectory
    ensures forall n: nat :: n <= k ==> Resolving(Going(w), n, entries) == Going(Run(w, n, entries))
    ensures !Firm(Run(w, k, entries), entries)
  {
    hide Firm, Run, Resolving;
    var m: nat :| !Firm(Run(w, m, entries), entries);
    k := StopsAtFirst(w, m, entries);
    forall n: nat | n <= k ensures Resolving(Going(w), n, entries) == Going(Run(w, n, entries)) {
      FirmAgrees(w, n, entries);
    }
    forall n: nat | n > k ensures Resolving(Going(w), n, entries) == NotADirectory {
      StoppedAfter(w, k, n, entries);
    }
  }

  /** A walk that has ended is firm, and stays as it is. */
  lemma StopIffNotSolid(w: Walk, entries: Manifest)
    ensures ResolvesTo(w, NotADirectory, entries) <==> !Solid(w, entries)
  {
    if Solid(w, entries) {
      forall n: nat ensures Resolving(Going(w), n, entries) != NotADirectory { SolidAgrees(w, n, entries); }
    } else {
      var k := NotSolidStops(w, entries);
      assert Resolving(Going(w), k + 1, entries) == NotADirectory;
    }
  }

  /** An end of the plain walk is the end of pathname resolution iff every name on the way is firm. */
  lemma EndsIff(w: Walk, end: Walk, entries: Manifest)
    requires !end.Walking?
    ensures ResolvesTo(w, Going(end), entries) <==> Solid(w, entries) && Reaches(w, end, entries)
  {
    if Solid(w, entries) {
      forall n: nat ensures Resolving(Going(w), n, entries) == Going(Run(w, n, entries)) { SolidAgrees(w, n, entries); }
      if Reaches(w, end, entries) {
        var n: nat :| Run(w, n, entries) == end;
        assert Resolving(Going(w), n, entries) == Going(end);
      }
    } else {
      var k := NotSolidStops(w, entries);
      forall n: nat ensures Resolving(Going(w), n, entries) != Going(end) {
        if n <= k { StillWalking(w, n, k, entries); }
      }
    }
  }

  lemma ForEverIff(w: Walk, entries: Manifest)
    ensures ResolvesForEver(w, entries) <==> Solid(w, entries) && NeverEnds(w, entries)
  {
    if Solid(w, entries) {
      forall n: nat ensures Resolving(Going(w), n, entries) == Going(Run(w, n, entries)) { SolidAgrees(w, n, entries); }
    } else {
      var k := NotSolidStops(w, entries);
      assert Resolving(Going(w), k + 1, entries) == NotADirectory;
    }
  }

  // The same as a check along the resolver's own recursion.

  predicate IsDirectory(entries: Manifest, path: string) {
    path in entries && entries[path].DirectoryEntry?
  }

  /**
    Each name the resolver goes into is that of a directory, or the last: `followed` says whether anything
    is left to do after the components.
   */
  predicate Passable(stack: seq<string>, components: seq<string>, followed: bool, resolving: set<string>,
      entries: Manifest, limit: nat)
    decreases Budget(resolving, limit), |components|
  {
    components == [] ||
    var component, rest := components[0], components[1..];
    var candidate := PathOf(stack + [component]);
    if component in ["", "."] then Passable(stack, rest, followed, resolving, entries, limit)
    else if component == ".." then
      stack == [] || Passable(stack[..|stack| - 1], rest, followed, resolving, entries, limit)
    else if IsLink(entries, candidate) then
      candidate in resolving || |resolving| >= limit || !SafeTarget(entries[candidate].target) ||
      (var front, within := Components(entries[candidate].target), resolving + {candidate};
       var inner := Expand(stack, front, within, entries, limit);
       && Passable(stack, front, rest != [] || followed, within, entries, limit)
       && (inner.Failed? || Passable(inner.stack, rest, followed, resolving, entries, limit)))
    else
      && (IsDirectory(entries, candidate) || (rest == [] && !followed))
      && Passable(stack + [component], rest, followed, resolving, entries, limit)
  }

  predicate PassableLink(path: string, target: string, entries: Manifest, limit: nat) {
    var parts := Components(path);
    SafeTarget(target) ==>
      Passable(parts[..|parts| - 1], Components(target), false, {path}, entries, limit)
  }

  ghost predicate FirmTo(w: Walk, n: nat, entries: Manifest) {
    forall k: nat :: k < n ==> Firm(Run(w, k, entries), entries)
  }

  lemma FirmAdd(w: Walk, m: nat, v: Walk, n: nat, entries: Manifest)
    requires Run(w, m, entries) == v && FirmTo(w, m, entries) && FirmTo(v, n, entries)
    ensures FirmTo(w, m + n, entries) && Run(w, m + n, entries) == Run(v, n, entries)
  {
    hide Firm, Run;
    RunAdd(w, m, n, entries);
    forall k: nat | k < m + n ensures Firm(Run(w, k, entries), entries) {
      if k >= m { RunAdd(w, m, k - m, entries); }
    }
  }

  lemma FirmFirst(w: Walk, entries: Manifest)
    requires Firm(w, entries)
    ensures FirmTo(w, 1, entries) && Run(w, 1, entries) == Step(w, entries)
  {
    hide Firm, Step;
    assert Run(w, 0, entries) == w;
    assert Run(w, 1, entries) == Run(Step(w, entries), 0, entries);
  }

  lemma SolidFrom(w: Walk, m: nat, v: Walk, entries: Manifest)
    requires Run(w, m, entries) == v && FirmTo(w, m, entries) && Solid(v, entries)
    ensures Solid(w, entries)
  {
    hide Firm, Run;
    forall n: nat ensures Firm(Run(w, n, entries), entries) {
      if n >= m { RunAdd(w, m, n - m, entries); }
    }
  }

  // A way that is not passable is not solid.

  lemma {:induction false} NotPassableStops(stack: seq<string>, components: seq<string>, resolving: set<string>,
      entries: Manifest, limit: nat, more: seq<string>) returns (k: nat)
    requires !Passable(stack, components, more != [], resolving, entries, limit)
    ensures !Firm(Run(Walking(stack, components + more), k, entries), entries)
    decreases Budget(resolving, limit), |components|
  {
    var component, rest := components[0], components[1..];
    var candidate := PathOf(stack + [component]);
    var start := Walking(stack, components + more);
    assert (components + more)[1..] == rest + more && (components + more)[0] == component;
    if component in ["", "."] {
      k := NotPassableStops(stack, rest, resolving, entries, limit, more);
      k := k + 1;
    } else if component == ".." {
      k := NotPassableStops(stack[..|stack| - 1], rest, resolving, entries, limit, more);
      k := k + 1;
    } else if IsLink(entries, candidate) {
      k := NotPassableBelow(stack, components, resolving, entries, limit, more);
    } else if IsDirectory(entries, candidate) || rest + more == [] {
      k := NotPassableStops(stack + [component], rest, resolving, entries, limit, more);
      k := k + 1;
    } else {
      k := 0;
    }
  }

  lemma {:induction false} NotPassableBelow(stack: seq<string>, components: seq<string>, resolving: set<string>,
      entries: Manifest, limit: nat, more: seq<string>) returns (k: nat)
    requires components != [] && !Passable(stack, components, more != [], resolving, entries, limit)
    requires components[0] !in ["", ".", ".."] && IsLink(entries, PathOf(stack + [components[0]]))
    ensures !Firm(Run(Walking(stack, components + more), k, entries), entries)
    decreases Budget(resolving, limit), |components|, 0
  {
    hide PathOf, Firm;
    var rest, candidate := components[1..], PathOf(stack + [components[0]]);
    var front, within := Components(entries[candidate].target), resolving + {candidate};
    var start, next := Walking(stack, components + more), Walking(stack, front + (rest + more));
    assert (components + more)[1..] == rest + more && (components + more)[0] == components[0];
    assert Step(start, entries) == next;
    if !Passable(stack, front, rest != [] || more != [], within, entries, limit) {
      k := NotPassableStops(stack, front, within, entries, limit, rest + more);
      k := k + 1;
    } else {
      var inner := Expand(stack, front, within, entries, limit);
      ExpandFollowsWalk(stack, front, within, entries, rest + more, limit);
      var m: nat :| Run(next, m, entries) == Walking(inner.stack, rest + more);
      k := NotPassableStops(inner.stack, rest, resolving, entries, limit, more);
      RunAdd(next, m, k, entries);
      k := m + k + 1;
    }
  }

  // A way that is passable is solid as far as the resolver goes.

  /** Where the walk must be when the resolver has given its verdict, every name on the way having been firm. */
  ghost predicate FirmlyFollows(start: Walk, verdict: Expansion, more: seq<string>, entries: Manifest) {
    match verdict
    case Resolved(stack) => exists n: nat :: Run(start, n, entries) == Walking(stack, more) && FirmTo(start, n, entries)
    case Failed(EscapingLink) => exists n: nat :: Run(start, n, entries) == Escaped && FirmTo(start, n, entries)
    case Failed(UnsafeLink) => exists n: nat :: Refuses(Run(start, n, entries)) && FirmTo(start, n, entries)
    case Failed(_) => true
  }

  lemma FirmlyThrough(start: Walk, m: nat, next: Walk, verdict: Expansion, more: seq<string>, entries: Manifest)
    requires Run(start, m, entries) == next && FirmTo(start, m, entries)
    requires FirmlyFollows(next, verdict, more, entries)
    ensures FirmlyFollows(start, verdict, more, entries)
  {
    hide Run, FirmTo;
    match verdict
    case Resolved(stack) =>
      var n: nat :| Run(next, n, entries) == Walking(stack, more) && FirmTo(next, n, entries);
      FirmAdd(start, m, next, n, entries);
    case Failed(EscapingLink) =>
      var n: nat :| Run(next, n, entries) == Escaped && FirmTo(next, n, entries);
      FirmAdd(start, m, next, n, entries);
    case Failed(UnsafeLink) =>
      var n: nat :| Refuses(Run(next, n, entries)) && FirmTo(next, n, entries);
      FirmAdd(start, m, next, n, entries);
    case Failed(_) =>
  }

  lemma FirmlyByStep(start: Walk, verdict: Expansion, more: seq<string>, entries: Manifest)
    requires Firm(start, entries) && FirmlyFollows(Step(start, entries), verdict, more, entries)
    ensures FirmlyFollows(start, verdict, more, entries)
  {
    FirmFirst(start, entries);
    FirmlyThrough(start, 1, Step(start, entries), verdict, more, entries);
  }

  lemma FirmlyAt(w: Walk, entries: Manifest)
    ensures Run(w, 0, entries) == w && FirmTo(w, 0, entries)
  {}

  lemma {:induction false} PassableFollows(stack: seq<string>, components: seq<string>, followed: bool,
      resolving: set<string>, entries: Manifest, limit: nat, more: seq<string>)
    requires Passable(stack, components, followed, resolving, entries, limit) && (more != [] ==> followed)
    ensures FirmlyFollows(Walking(stack, components + more), Expand(stack, components, resolving, entries, limit), more,
                          entries)
    decreases Budget(resolving, limit), |components|
  {
    hide FirmTo, Run;
    var start := Walking(stack, components + more);
    var verdict := Expand(stack, components, resolving, entries, limit);
    if components == [] {
      assert components + more == more;
      FirmlyAt(start, entries);
    } else {
      var component, rest := components[0], components[1..];
      assert (components + more)[1..] == rest + more && (components + more)[0] == component;
      var next := Step(start, entries);
      if component in ["", "."] {
        PassableFollows(stack, rest, followed, resolving, entries, limit, more);
        FirmlyByStep(start, verdict, more, entries);
      } else if component == ".." {
        if stack == [] {
          FirmlyAt(next, entries);
        } else {
          PassableFollows(stack[..|stack| - 1], rest, followed, resolving, entries, limit, more);
        }
        FirmlyByStep(start, verdict, more, entries);
      } else if IsLink(entries, PathOf(stack + [component])) {
        PassableInto(stack, components, followed, resolving, entries, limit, more);
      } else {
        PassableFollows(stack + [component], rest, followed, resolving, entries, limit, more);
        FirmlyByStep(start, verdict, more, entries);
      }
    }
  }

  lemma {:induction false} PassableInto(stack: seq<string>, components: seq<string>, followed: bool,
      resolving: set<string>, entries: Manifest, limit: nat, more: seq<string>)
    requires Passable(stack, components, followed, resolving, entries, limit) && (more != [] ==> followed)
    requires components != [] && components[0] !in ["", ".", ".."] && IsLink(entries, PathOf(stack + [components[0]]))
    ensures FirmlyFollows(Walking(stack, components + more), Expand(stack, components, resolving, entries, limit), more,
                          entries)
    decreases Budget(resolving, limit), |components|, 0
  {
    hide FirmTo, Run, PathOf, Components;
    var rest, candidate := components[1..], PathOf(stack + [components[0]]);
    var start := Walking(stack, components + more);
    var verdict := Expand(stack, components, resolving, entries, limit);
    assert (components + more)[1..] == rest + more && (components + more)[0] == components[0];
    var next := Step(start, entries);
    assert Firm(start, entries);
    if candidate !in resolving && |resolving| < limit {
      if SafeTarget(entries[candidate].target) {
        var front, within := Components(entries[candidate].target), resolving + {candidate};
        var inner := Expand(stack, front, within, entries, limit);
        PassableFollows(stack, front, rest != [] || followed, within, entries, limit, rest + more);
        if inner.Resolved? {
          PassableFollows(inner.stack, rest, followed, resolving, entries, limit, more);
          var m: nat :| Run(next, m, entries) == Walking(inner.stack, rest + more) && FirmTo(next, m, entries);
          FirmlyThrough(next, m, Walking(inner.stack, rest + more), verdict, more, entries);
        }
      } else {
        FirmlyAt(next, entries);
      }
      FirmlyByStep(start, verdict, more, entries);
    }
  }

  // And on every lap of a cycle.

  /** Firm with something to follow is firm with more to follow, unless it was the last name. */
  lemma FirmWithMore(stack: seq<string>, todo: seq<string>, more: seq<string>, entries: Manifest)
    requires Firm(Walking(stack, todo), entries) && todo != []
    requires Step(Walking(stack, todo), entries).Walking? && Step(Walking(stack, todo), entries).todo != []
    ensures Firm(Walking(stack, todo + more), entries)
  {
    assert (todo + more)[0] == todo[0];
  }

  /** Something is left to do on every step of a walk that comes back to where it opened. */
  lemma StillToDo(w: Walk, n: nat, k: nat, entries: Manifest)
    requires k < n && Run(w, n, entries).Walking?
    ensures Run(w, k, entries).Walking? && Run(w, k, entries).todo != []
  {
    hide Run;
    StillWalking(w, k, n, entries);
    var v := Run(w, k, entries);
    if v.todo == [] {
      NothingToDo(v.stack, n - k, entries);
      RunAdd(w, k, n - k, entries);
    }
  }

  /** One lap: firm by itself, it is firm with anything left to do afterwards. */
  lemma LapIsFirm(stack: seq<string>, first: seq<string>, n: nat, more: seq<string>, k: nat, entries: Manifest)
    requires k < n && FirmTo(Walking(stack, first), n, entries)
    requires Run(Walking(stack, first), n, entries).Walking? && Run(Walking(stack, first), n, entries).todo != []
    ensures Firm(Run(Walking(stack, first + more), k, entries), entries)
  {
    hide Run, Firm, Step;
    var w := Walking(stack, first);
    StillToDo(w, n, k, entries);
    var v := Run(w, k, entries);
    RunLast(w, k + 1, entries);
    if k + 1 < n { StillToDo(w, n, k + 1, entries); }
    Frame(stack, first, more, k, entries);
    FirmWithMore(v.stack, v.todo, more, entries);
  }

  lemma {:induction false} LoopIsFirm(stack: seq<string>, first: seq<string>, n: nat, added: seq<string>,
      more: seq<string>, m: nat, entries: Manifest)
    requires n >= 1 && first != [] && Run(Walking(stack, first), n, entries) == Walking(stack, first + added)
    requires FirmTo(Walking(stack, first), n, entries)
    ensures Firm(Run(Walking(stack, first + more), m, entries), entries)
    decreases m
  {
    hide Firm, FirmTo, Step, Run;
    var w := Walking(stack, first + more);
    if m < n {
      LapIsFirm(stack, first, n, more, m, entries);
    } else {
      Frame(stack, first, more, n, entries);
      assert first + added + more == first + (added + more);
      LoopIsFirm(stack, first, n, added, added + more, m - n, entries);
      RunAdd(w, n, m - n, entries);
    }
  }

  /** The walk that opened `c` has come, by firm names, to the position, with no more to do than is followed. */
  ghost predicate OpenedFirmly(c: string, stack: seq<string>, components: seq<string>, followed: bool,
      entries: Manifest) {
    exists n: nat, added: seq<string> {:trigger Run(Opening(c), n, entries), components + added} ::
      && n >= 1 && Run(Opening(c), n, entries) == Walking(stack, components + added)
      && FirmTo(Opening(c), n, entries) && (added != [] ==> followed)
  }

  /** The front is done by firm names and leads to `after`, whatever is left to do then. */
  ghost predicate GoesFirmly(stack: seq<string>, front: seq<string>, after: seq<string>, followed: bool,
      entries: Manifest) {
    forall more: seq<string> :: (more != [] ==> followed) ==>
      FirmlyFollows(Walking(stack, front + more), Resolved(after), more, entries)
  }

  lemma PassableGoes(stack: seq<string>, front: seq<string>, followed: bool, resolving: set<string>, entries: Manifest,
      limit: nat)
    requires Passable(stack, front, followed, resolving, entries, limit)
    requires Expand(stack, front, resolving, entries, limit).Resolved?
    ensures GoesFirmly(stack, front, Expand(stack, front, resolving, entries, limit).stack, followed, entries)
  {
    hide FirmlyFollows, Passable, Expand;
    forall more: seq<string> | more != [] ==> followed
      ensures FirmlyFollows(Walking(stack, front + more), Expand(stack, front, resolving, entries, limit), more,
          entries)
    {
      PassableFollows(stack, front, followed, resolving, entries, limit, more);
    }
  }

  lemma OpenedFirmlyOn(c: string, stack: seq<string>, front: seq<string>, rest: seq<string>, followed: bool,
      after: seq<string>, entries: Manifest)
    requires OpenedFirmly(c, stack, front + rest, followed, entries)
    requires GoesFirmly(stack, front, after, rest != [] || followed, entries)
    ensures OpenedFirmly(c, after, rest, followed, entries)
  {
    hide FirmTo, Run;
    var n: nat, added: seq<string> :| n >= 1 && Run(Opening(c), n, entries) == Walking(stack, front + rest + added)
      && FirmTo(Opening(c), n, entries) && (added != [] ==> followed);
    assert front + rest + added == front + (rest + added);
    assert FirmlyFollows(Walking(stack, front + (rest + added)), Resolved(after), rest + added, entries);
    var m: nat :| Run(Walking(stack, front + (rest + added)), m, entries) == Walking(after, rest + added)
               && FirmTo(Walking(stack, front + (rest + added)), m, entries);
    FirmAdd(Opening(c), n, Walking(stack, front + rest + added), m, entries);
    assert Run(Opening(c), n + m, entries) == Walking(after, rest + added);
  }

  /** A passable name is firm where it stands. */
  lemma PassableIsFirm(stack: seq<string>, components: seq<string>, followed: bool, resolving: set<string>,
      entries: Manifest, limit: nat, more: seq<string>)
    requires Passable(stack, components, followed, resolving, entries, limit) && components != []
    requires more != [] ==> followed
    ensures Firm(Walking(stack, components + more), entries)
  {
    hide PathOf;
    assert (components + more)[0] == components[0];
  }

  lemma OpenedFirmlyStep(c: string, stack: seq<string>, components: seq<string>, followed: bool, stack': seq<string>,
      components': seq<string>, entries: Manifest)
    requires OpenedFirmly(c, stack, components, followed, entries) && components != []
    requires Step(Walking(stack, components), entries) == Walking(stack', components')
    requires forall added: seq<string> :: (added != [] ==> followed) ==>
        Firm(Walking(stack, components + added), entries)
    ensures OpenedFirmly(c, stack', components', followed, entries)
  {
    hide FirmTo, Run, Firm, Step;
    var n: nat, added: seq<string> :| n >= 1 && Run(Opening(c), n, entries) == Walking(stack, components + added)
      && FirmTo(Opening(c), n, entries) && (added != [] ==> followed);
    StepFrame(stack, components, added, entries);
    FirmFirst(Walking(stack, components + added), entries);
    FirmAdd(Opening(c), n, Walking(stack, components + added), 1, entries);
    assert Run(Opening(c), n + 1, entries) == Walking(stack', components' + added);
  }

  lemma OpenedFirmlyFront(c: string, stack: seq<string>, front: seq<string>, rest: seq<string>, followed: bool,
      entries: Manifest)
    requires OpenedFirmly(c, stack, front + rest, followed, entries)
    ensures OpenedFirmly(c, stack, front, rest != [] || followed, entries)
  {
    hide FirmTo, Run;
    var n: nat, added: seq<string> :| n >= 1 && Run(Opening(c), n, entries) == Walking(stack, front + rest + added)
      && FirmTo(Opening(c), n, entries) && (added != [] ==> followed);
    assert front + rest + added == front + (rest + added);
  }

  lemma OpensFirmly(c: string, stack: seq<string>, front: seq<string>, followed: bool, entries: Manifest)
    requires Firm(Opening(c), entries) && Step(Opening(c), entries) == Walking(stack, front + [])
    ensures OpenedFirmly(c, stack, front, followed, entries)
  {
    hide Step, Firm, FirmTo;
    FirmFirst(Opening(c), entries);
    assert Run(Opening(c), 1, entries) == Walking(stack, front + []);
  }

  /** A cycle that is passable the first time round is firm for ever. */
  lemma {:induction false} CycleStaysFirm(stack: seq<string>, components: seq<string>, followed: bool,
      resolving: set<string>, entries: Manifest, limit: nat, more: seq<string>)
    requires Plain(stack) && Plain(components) && (more != [] ==> followed)
    requires Passable(stack, components, followed, resolving, entries, limit)
    requires Expand(stack, components, resolving, entries, limit) == Failed(SymlinkCycle)
    requires forall c :: c in resolving ==> OpenedFirmly(c, stack, components, followed, entries)
    ensures Solid(Walking(stack, components + more), entries)
    decreases Budget(resolving, limit), |components|
  {
    hide OpenedFirmly, Firm, FirmTo, Solid, PathOf;
    var component, rest := components[0], components[1..];
    var candidate := PathOf(stack + [component]);
    var start, next := Walking(stack, components + more), Step(Walking(stack, components), entries);
    if component !in ["", ".", ".."] && IsLink(entries, candidate) {
      if candidate in resolving {
        CycleCloses(stack, components, followed, entries, more);
      } else {
        CycleBelowFirm(stack, components, followed, resolving, entries, limit, more);
      }
    } else {
      StepFrame(stack, components, more, entries);
      forall added: seq<string> | added != [] ==> followed ensures Firm(Walking(stack, components + added), entries) {
        PassableIsFirm(stack, components, followed, resolving, entries, limit, added);
      }
      forall c | c in resolving ensures OpenedFirmly(c, next.stack, next.todo, followed, entries) {
        OpenedFirmlyStep(c, stack, components, followed, next.stack, next.todo, entries);
      }
      CycleStaysFirm(next.stack, next.todo, followed, resolving, entries, limit, more);
      FirmFirst(start, entries);
      SolidFrom(start, 1, Walking(next.stack, next.todo + more), entries);
    }
  }

  /** The case of `CycleStaysFirm` in which the link is met again. */
  lemma CycleCloses(stack: seq<string>, components: seq<string>, followed: bool, entries: Manifest, more: seq<string>)
    requires Plain(stack) && Plain(components) && components != []
    requires OpenedFirmly(PathOf(stack + [components[0]]), stack, components, followed, entries)
    ensures Solid(Walking(stack, components + more), entries)
  {
    hide FirmTo, Firm, Run, PathOf;
    var component, rest := components[0], components[1..];
    var candidate := PathOf(stack + [component]);
    OpeningOfJoin(stack, component);
    var n: nat, added: seq<string> :| n >= 1 &&
      Run(Opening(candidate), n, entries) == Walking(stack, components + added)
      && FirmTo(Opening(candidate), n, entries) && (added != [] ==> followed);
    assert components + added == [component] + (rest + added) && components + more == [component] + (rest + more);
    forall m: nat ensures Firm(Run(Walking(stack, components + more), m, entries), entries) {
      LoopIsFirm(stack, [component], n, rest + added, rest + more, m, entries);
    }
  }

  /** The case of `CycleStaysFirm` in which the first component is a link that is not yet being resolved. */
  lemma {:induction false} CycleBelowFirm(stack: seq<string>, components: seq<string>, followed: bool,
      resolving: set<string>, entries: Manifest, limit: nat, more: seq<string>)
    requires Plain(stack) && Plain(components) && (more != [] ==> followed) && components != []
    requires Passable(stack, components, followed, resolving, entries, limit)
    requires Expand(stack, components, resolving, entries, limit) == Failed(SymlinkCycle)
    requires forall c :: c in resolving ==> OpenedFirmly(c, stack, components, followed, entries)
    requires var candidate := PathOf(stack + [components[0]]);
             components[0] !in ["", ".", ".."] && IsLink(entries, candidate) && candidate !in resolving
    ensures Solid(Walking(stack, components + more), entries)
    decreases Budget(resolving, limit), |components|, 0
  {
    hide OpenedFirmly, Firm, FirmTo, Solid, PathOf, Components, Run, Step, GoesFirmly;
    var rest, candidate := components[1..], PathOf(stack + [components[0]]);
    var front, within := Components(entries[candidate].target), resolving + {candidate};
    var start, next := Walking(stack, components + more), Walking(stack, front + (rest + more));
    TargetIsPlain(entries, candidate);
    IntoLink(stack, components, resolving, followed, entries, more);
    var inner := Expand(stack, front, within, entries, limit);
    if inner.Failed? {
      CycleStaysFirm(stack, front, rest != [] || followed, within, entries, limit, rest + more);
      SolidFrom(start, 1, next, entries);
    } else {
      ExpandKeepsPlain(stack, front, within, entries, limit);
      PassableGoes(stack, front, rest != [] || followed, within, entries, limit);
      forall c | c in resolving ensures OpenedFirmly(c, inner.stack, rest, followed, entries) {
        OpenedFirmlyOn(c, stack, front, rest, followed, inner.stack, entries);
      }
      CycleStaysFirm(inner.stack, rest, followed, resolving, entries, limit, more);
      PassableFollows(stack, front, rest != [] || followed, within, entries, limit, rest + more);
      var m: nat :| Run(next, m, entries) == Walking(inner.stack, rest + more) && FirmTo(next, m, entries);
      SolidFrom(next, m, Walking(inner.stack, rest + more), entries);
      SolidFrom(start, 1, next, entries);
    }
  }

  /** Going into a link is firm, and opens it too. */
  lemma IntoLink(stack: seq<string>, components: seq<string>, resolving: set<string>, followed: bool,
      entries: Manifest, more: seq<string>)
    requires Plain(stack) && Plain(components) && components != []
    requires forall c :: c in resolving ==> OpenedFirmly(c, stack, components, followed, entries)
    requires var candidate := PathOf(stack + [components[0]]);
             components[0] !in ["", ".", ".."] && IsLink(entries, candidate) && SafeTarget(entries[candidate].target)
    ensures var candidate, rest := PathOf(stack + [components[0]]), components[1..];
            var front, start := Components(entries[candidate].target), Walking(stack, components + more);
            && Run(start, 1, entries) == Walking(stack, front + (rest + more)) && FirmTo(start, 1, entries)
            && (forall c :: c in resolving ==> OpenedFirmly(c, stack, front + rest, followed, entries))
            && (forall c :: c in resolving + {candidate} ==>
                  OpenedFirmly(c, stack, front, rest != [] || followed, entries))
  {
    hide OpenedFirmly, FirmTo, Run, PathOf, Components;
    var rest, candidate := components[1..], PathOf(stack + [components[0]]);
    var front := Components(entries[candidate].target);
    forall added: seq<string> ensures Firm(Walking(stack, components + added), entries) {
      assert (components + added)[0] == components[0];
    }
    assert (components + more)[0] == components[0] && (components + more)[1..] == rest + more;
    FirmFirst(Walking(stack, components + more), entries);
    forall c | c in resolving
      ensures OpenedFirmly(c, stack, front + rest, followed, entries)
      ensures OpenedFirmly(c, stack, front, rest != [] || followed, entries)
    {
      OpenedFirmlyStep(c, stack, components, followed, stack, front + rest, entries);
      OpenedFirmlyFront(c, stack, front, rest, followed, entries);
    }
    OpeningOfJoin(stack, components[0]);
    OpensFirmly(candidate, stack, front, rest != [] || followed, entries);
  }

  lemma EndedIsSolid(w: Walk, n: nat, entries: Manifest)
    requires FirmTo(w, n, entries) && !Run(w, n, entries).Walking?
    ensures Solid(w, entries)
  {
    hide Run;
    forall k: nat ensures Firm(Run(w, k, entries), entries) {
      if k >= n {
        RunAdd(w, n, k - n, entries);
        EndedStays(Run(w, n, entries), k - n, entries);
      }
    }
  }

  /** An end that is firmly come to, is firm throughout. */
  lemma FollowedIsSolid(w: Walk, verdict: Expansion, entries: Manifest)
    requires FirmlyFollows(w, verdict, [], entries)
    requires verdict != Failed(SymlinkCycle) && verdict != Failed(SymlinkDepthLimit)
    ensures Solid(w, entries)
  {
    hide Run, FirmTo, Solid;
    match verdict
    case Resolved(stack) =>
      var n: nat :| Run(w, n, entries) == Walking(stack, []) && FirmTo(w, n, entries);
      FirmFirst(Walking(stack, []), entries);
      FirmAdd(w, n, Walking(stack, []), 1, entries);
      EndedIsSolid(w, n + 1, entries);
    case Failed(EscapingLink) =>
      var n: nat :| Run(w, n, entries) == Escaped && FirmTo(w, n, entries);
      EndedIsSolid(w, n, entries);
    case Failed(UnsafeLink) =>
      var n: nat :| Refuses(Run(w, n, entries)) && FirmTo(w, n, entries);
      EndedIsSolid(w, n, entries);
    case Failed(_) =>
  }

  /**
    The check along the resolver's recursion, which is done once and ends, decides whether every name of the
    walk is firm, for ever when the walk does not end.
   */
  lemma SolidIffPassable(path: string, target: string, entries: Manifest, limit: nat)
    requires LinkAt(path, target, entries)
    requires ResolveWithin(path, target, entries, limit) != Failed(SymlinkDepthLimit)
    ensures Solid(Opening(path), entries) <==> PassableLink(path, target, entries, limit)
  {
    hide Solid, Passable, Expand, Run, FirmTo, Firm;
    var w, parts := Opening(path), Components(path);
    var base, front := parts[..|parts| - 1], Components(target);
    OpeningIsFirm(path, target, entries);
    FirmFirst(w, entries);
    if !SafeTarget(target) {
      EndedIsSolid(w, 1, entries);
    } else {
      assert front + [] == front;
      if !Passable(base, front, false, {path}, entries, limit) {
        var k := NotPassableStops(base, front, {path}, entries, limit, []);
        SolidAfter(w, 1, k, entries);
      } else {
        PassableIsSolid(path, target, entries, limit);
        SolidFrom(w, 1, Walking(base, front), entries);
      }
    }
  }

  lemma SolidAfter(w: Walk, m: nat, k: nat, entries: Manifest)
    requires !Firm(Run(Run(w, m, entries), k, entries), entries)
    ensures !Solid(w, entries)
  {
    hide Firm, Run;
    RunAdd(w, m, k, entries);
  }

  lemma OpeningIsFirm(path: string, target: string, entries: Manifest)
    requires LinkAt(path, target, entries)
    ensures var parts := Components(path);
            && Firm(Opening(path), entries)
            && if SafeTarget(target) then
                 Step(Opening(path), entries) == Walking(parts[..|parts| - 1], Components(target) + [])
               else Refuses(Step(Opening(path), entries))
  {
    hide SafeTarget, Step;
    var parts := Components(path);
    JoinSplit(path, '/');
    assert parts[..|parts| - 1] + [LastName(path)] == parts;
    StepIntoLink(parts[..|parts| - 1], [LastName(path)], entries);
  }

  lemma PassableIsSolid(path: string, target: string, entries: Manifest, limit: nat)
    requires LinkAt(path, target, entries) && SafeTarget(target) && PassableLink(path, target, entries, limit)
    requires ResolveWithin(path, target, entries, limit) != Failed(SymlinkDepthLimit)
    ensures var parts := Components(path);
            Solid(Walking(parts[..|parts| - 1], Components(target)), entries)
  {
    hide Solid, Passable, Expand, Run, FirmTo, Firm, OpenedFirmly, FirmlyFollows, Step;
    var parts := Components(path);
    var base, front := parts[..|parts| - 1], Components(target);
    assert front + [] == front;
    var verdict := Expand(base, front, {path}, entries, limit);
    assert verdict == ResolveWithin(path, target, entries, limit);
    if verdict == Failed(SymlinkCycle) {
      OpeningIsFirm(path, target, entries);
      OpensFirmly(path, base, front, false, entries);
      PlainComponents(path);
      PlainComponents(target);
      CycleStaysFirm(base, front, false, {path}, entries, limit, []);
    } else {
      PassableFollows(base, front, false, {path}, entries, limit, []);
      FollowedIsSolid(Walking(base, front), verdict, entries);
    }
  }

  lemma PlainComponents(path: string)
    ensures Plain(Components(path)) && Plain(Components(path)[..|Components(path)| - 1])
  {
    SplitNoSeparator(path, '/');
  }

  /** Whether each name on the way of the link is that of a directory, as far as the resolver would go. */
  ghost predicate Sound(path: string, target: string, entries: Manifest) {
    PassableLink(path, target, entries, |LinkPaths(entries)|)
  }

  /**
    What pathname resolution of a link does, verdict by verdict and both ways, for every link. It stops iff
    the check along the resolver's recursion finds a name that is not a directory with more to follow;
    otherwise it arrives, escapes, meets a target it may not follow or goes on for ever exactly as the
    resolver says, the depth limit aside, which is the verdict exactly when more than 128 links nest.
   */
  lemma VerdictIsResolution(path: string, target: string, entries: Manifest)
    requires LinkAt(path, target, entries)
    ensures var w, whole, sound := Opening(path), WholeVerdict(path, target, entries), Sound(path, target, entries);
            && ResolveLink(path, target, entries)
               == (if TooDeep(path, target, entries) then Failed(SymlinkDepthLimit) else whole)
            && (ResolvesTo(w, NotADirectory, entries) <==> !sound)
            && (forall stack :: ResolvesTo(w, Going(Arrived(stack)), entries) <==> sound && whole == Resolved(stack))
            && (ResolvesTo(w, Going(Escaped), entries) <==> sound && whole == Failed(EscapingLink))
            && (ResolvesTo(w, Going(Outside), entries) || ResolvesTo(w, Going(Blocked), entries) <==>
                  sound && whole == Failed(UnsafeLink))
            && (ResolvesForEver(w, entries) <==> sound && whole == Failed(SymlinkCycle))
  {
    hide Solid, ResolvesTo, ResolvesForEver, Reaches, NeverEnds, ResolveLink, ResolveWithin, PassableLink, TooDeep,
      LinkPaths;
    var w := Opening(path);
    ResolverAgreesWithWalk(path, target, entries);
    DepthLimitIff(path, target, entries);
    SolidIffPassable(path, target, entries, |LinkPaths(entries)|);
    StopIffNotSolid(w, entries);
    ForEverIff(w, entries);
    forall stack
      ensures ResolvesTo(w, Going(Arrived(stack)), entries) <==>
              Solid(w, entries) && Reaches(w, Arrived(stack), entries)
    {
      EndsIff(w, Arrived(stack), entries);
    }
    EndsIff(w, Escaped, entries);
    EndsIff(w, Outside, entries);
    EndsIff(w, Blocked, entries);
  }

  // A name that is not there.

  /** The one entry: a link that goes through a name the manifest does not have. */
  function OneLink(target: string): Manifest {
    map["a" := SymlinkEntry(target)]
  }

  lemma PathOfOne(name: string)
    ensures PathOf([name]) == PathOf([] + [name]) == name
  {
    assert [] + [name] == [name];
  }

  lemma OpeningOfOneLink(target: string)
    requires SafeTarget(target)
    ensures Opening("a") == Walking([], ["a"])
    ensures Step(Walking([], ["a"]), OneLink(target)) == Walking([], Components(target))
  {
    hide SafeTarget, Step, PathOf;
    SplitWhole("a", '/');
    PathOfOne("a");
    assert "a" !in ["", ".", ".."] by { assert "a"[0] == 'a'; }
    StepIntoLink([], ["a"], OneLink(target));
    assert Components(target) + [] == Components(target);
  }

  /** The walk stops at a name that is not there, whatever is to follow it. */
  lemma MissingNameStops(target: string, rest: seq<string>)
    requires SafeTarget(target) && Components(target) == ["nowhere"] + rest && rest != []
    ensures ResolvesTo(Opening("a"), NotADirectory, OneLink(target))
  {
    var entries := OneLink(target);
    OpeningOfOneLink(target);
    var second := Walking([], Components(target));
    assert Run(Opening("a"), 1, entries) == Run(second, 0, entries) == second;
    assert PathOf([] + ["nowhere"]) == "nowhere" by { assert [] + ["nowhere"] == ["nowhere"]; }
    assert "nowhere" !in entries by { assert |"nowhere"| != |"a"|; }
    assert !Firm(second, entries);
    StopIffNotSolid(Opening("a"), entries);
  }

  lemma ComponentsOf(parts: seq<string>)
    requires parts != [] && forall part :: part in parts ==> '/' !in part
    ensures Components(PathOf(parts)) == parts
  {
    SplitJoin(parts, '/');
  }

  lemma JoinFront(name: string, rest: seq<string>)
    requires rest != []
    ensures PathOf([name] + rest) == name + "/" + PathOf(rest)
  {
    assert ([name] + rest)[1..] == rest;
  }

  /** The resolver goes into a name that is not that of a link, whatever it is. */
  lemma ExpandName(stack: seq<string>, name: string, rest: seq<string>, resolving: set<string>, entries: Manifest,
      limit: nat)
    requires name !in ["", ".", ".."] && !IsLink(entries, PathOf(stack + [name]))
    ensures Expand(stack, [name] + rest, resolving, entries, limit)
        == Expand(stack + [name], rest, resolving, entries, limit)
  {
    hide PathOf, IsLink;
    assert ([name] + rest)[1..] == rest;
  }

  lemma ExpandUp(stack: seq<string>, rest: seq<string>, resolving: set<string>, entries: Manifest, limit: nat)
    ensures Expand(stack, [".."] + rest, resolving, entries, limit) ==
            if stack == [] then Failed(EscapingLink) else Expand(stack[..|stack| - 1], rest, resolving, entries, limit)
  {
    hide PathOf, IsLink;
    assert ([".."] + rest)[1..] == rest;
  }

  lemma ExpandMetAgain(name: string, rest: seq<string>, resolving: set<string>, entries: Manifest, limit: nat)
    requires name !in ["", ".", ".."] && IsLink(entries, name) && name in resolving
    ensures Expand([], [name] + rest, resolving, entries, limit) == Failed(SymlinkCycle)
  {
    hide PathOf, IsLink;
    assert PathOf([] + [name]) == name by { PathOfOne(name); }
  }

  lemma NowhereIsNoLink(entries: Manifest)
    requires entries.Keys == {"a"}
    ensures "nowhere" !in entries && !IsLink(entries, PathOf([] + ["nowhere"]))
  {
    PathOfOne("nowhere");
    assert |"nowhere"| != |"a"|;
    assert "nowhere" !in entries.Keys;
  }

  /** The resolver enters the name that is not there, and leaves it again. */
  lemma ThroughNowhere(entries: Manifest, rest: seq<string>, resolving: set<string>, limit: nat)
    requires entries.Keys == {"a"}
    ensures Expand([], ["nowhere"] + ([".."] + rest), resolving, entries, limit)
        == Expand([], rest, resolving, entries, limit)
  {
    hide Expand, IsLink, PathOf;
    NowhereIsNoLink(entries);
    assert "nowhere" !in ["", ".", ".."] by { assert |"nowhere"| == 7; }
    ExpandName([], "nowhere", [".."] + rest, resolving, entries, limit);
    ExpandUp([] + ["nowhere"], rest, resolving, entries, limit);
    assert ([] + ["nowhere"])[..0] == [];
  }

  /** What the resolver says of the one link of a manifest. */
  lemma ResolveOnly(parts: seq<string>, entries: Manifest)
    requires parts != [] && (forall part :: part in parts ==> '/' !in part) && SafeTarget(PathOf(parts))
    ensures ResolveLink("a", PathOf(parts), entries) == Expand([], parts, {"a"}, entries, MAX_SYMLINK_DEPTH)
  {
    hide Expand;
    ComponentsOf(parts);
    SplitWhole("a", '/');
    assert Components("a")[..0] == [];
  }

  lemma EscapeTarget()
    ensures PathOf(["nowhere", "..", "..", "x"]) == "nowhere/../../x" && SafeTarget("nowhere/../../x")
  {
    hide PathOf;
    assert ["nowhere", "..", "..", "x"] == ["nowhere"] + ["..", "..", "x"];
    JoinFront("nowhere", ["..", "..", "x"]);
    assert ["..", "..", "x"] == [".."] + ["..", "x"] && ["..", "x"] == [".."] + ["x"];
    JoinFront("..", ["..", "x"]);
    JoinFront("..", ["x"]);
    PathOfOne("x");
  }

  lemma CycleTarget()
    ensures PathOf(["nowhere", "..", "a"]) == "nowhere/../a" && SafeTarget("nowhere/../a")
  {
    hide PathOf;
    assert ["nowhere", "..", "a"] == ["nowhere"] + ["..", "a"] && ["..", "a"] == [".."] + ["a"];
    JoinFront("nowhere", ["..", "a"]);
    JoinFront("..", ["a"]);
    PathOfOne("a");
  }

  /** The resolver reports an escape where pathname resolution finds a name missing. */
  lemma EscapeThroughMissingName()
    ensures var target := PathOf(["nowhere", "..", "..", "x"]);
            && target == "nowhere/../../x"
            && ResolveLink("a", target, OneLink(target)) == Failed(EscapingLink)
            && ResolvesTo(Opening("a"), NotADirectory, OneLink(target))
  {
    hide Expand, ResolvesTo, PathOf, ResolveLink, Components, SafeTarget;
    var rest := ["..", "x"];
    var parts := ["nowhere", "..", "..", "x"];
    assert parts == ["nowhere"] + ["..", "..", "x"] && ["..", "..", "x"] == [".."] + rest && rest == [".."] + ["x"];
    var target, entries := PathOf(parts), OneLink(PathOf(parts));
    EscapeTarget();
    ComponentsOf(parts);
    MissingNameStops(target, [".."] + rest);
    ResolveOnly(parts, entries);
    ThroughNowhere(entries, rest, {"a"}, MAX_SYMLINK_DEPTH);
    ExpandUp([], ["x"], {"a"}, entries, MAX_SYMLINK_DEPTH);
  }

  /** And a cycle likewise. */
  lemma CycleThroughMissingName()
    ensures var target := PathOf(["nowhere", "..", "a"]);
            && target == "nowhere/../a"
            && ResolveLink("a", target, OneLink(target)) == Failed(SymlinkCycle)
            && ResolvesTo(Opening("a"), NotADirectory, OneLink(target))
  {
    hide Expand, ResolvesTo, PathOf, ResolveLink, Components, SafeTarget;
    var rest := ["a"];
    var parts := ["nowhere", "..", "a"];
    assert parts == ["nowhere"] + ["..", "a"] && ["..", "a"] == [".."] + rest && rest == ["a"] + [];
    var target, entries := PathOf(parts), OneLink(PathOf(parts));
    CycleTarget();
    ComponentsOf(parts);
    MissingNameStops(target, [".."] + rest);
    ResolveOnly(parts, entries);
    ThroughNowhere(entries, rest, {"a"}, MAX_SYMLINK_DEPTH);
    ExpandMetAgain("a", [], {"a"}, entries, MAX_SYMLINK_DEPTH);
  }
}
