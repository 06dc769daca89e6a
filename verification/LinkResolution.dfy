/**
  Symbolic links inside a manifest: the recursive resolver, and the plain walk over names, one name at a
  time, which the resolver is proved to agree with. Like the resolver, the plain walk goes through a name
  whether or not it is that of a directory; `PathResolution` says what becomes of that on a file system.
 */
module LinkResolution {
  import opened Text
  import opened RelativePaths
  import opened TreeModel
  import opened Sets

  datatype LinkIssue = UnsafeLink | EscapingLink | SymlinkCycle | SymlinkDepthLimit

  datatype Expansion = Resolved(stack: seq<string>) | Failed(issue: LinkIssue)

  function Budget(resolving: set<string>, limit: nat): nat {
    if |resolving| <= limit then limit - |resolving| else 0
  }

  /** The resolver, with `limit` in the place of its constant. */
  function Expand(stack: seq<string>, components: seq<string>, resolving: set<string>, entries: Manifest, limit: nat)
    : Expansion
    decreases Budget(resolving, limit), |components|
  {
    if components == [] then Resolved(stack)
    else
      var component, rest := components[0], components[1..];
      var candidate := PathOf(stack + [component]);
      if component in ["", "."] then Expand(stack, rest, resolving, entries, limit)
      else if component == ".." then
        if stack == [] then Failed(EscapingLink) else Expand(stack[..|stack| - 1], rest, resolving, entries, limit)
      else if IsLink(entries, candidate) then
        if candidate in resolving then Failed(SymlinkCycle)
        else if |resolving| >= limit then Failed(SymlinkDepthLimit)
        else if !SafeTarget(entries[candidate].target) then Failed(UnsafeLink)
        else
          var inner := Expand(stack, Components(entries[candidate].target), resolving + {candidate}, entries, limit);
          if inner.Failed? then inner else Expand(inner.stack, rest, resolving, entries, limit)
      else Expand(stack + [component], rest, resolving, entries, limit)
  }

  function ResolveWithin(path: string, target: string, entries: Manifest, limit: nat): Expansion {
    if !SafeTarget(target) then Failed(UnsafeLink)
    else
      var parts := Components(path);
      Expand(parts[..|parts| - 1], Components(target), {path}, entries, limit)
  }

  function ResolveLink(path: string, target: string, entries: Manifest): Expansion {
    ResolveWithin(path, target, entries, MAX_SYMLINK_DEPTH)
  }

  /** The resolver as it is written: a loop over the components that updates a local stack. */
  method ExpandByLoop(base: seq<string>, components: seq<string>, resolving: set<string>, entries: Manifest)
    returns (r: Expansion)
    ensures r == Expand(base, components, resolving, entries, MAX_SYMLINK_DEPTH)
    decreases Budget(resolving, MAX_SYMLINK_DEPTH)
  {
    var stack := base;
    for i := 0 to |components|
      invariant Expand(base, components, resolving, entries, MAX_SYMLINK_DEPTH)
             == Expand(stack, components[i..], resolving, entries, MAX_SYMLINK_DEPTH)
    {
      var component := components[i];
      assert components[i..][1..] == components[i + 1..];
      if component in ["", "."] {
        continue;
      }
      if component == ".." {
        if stack == [] {
          return Failed(EscapingLink);
        }
        stack := stack[..|stack| - 1];
        continue;
      }
      var candidate := PathOf(stack + [component]);
      if IsLink(entries, candidate) {
        if candidate in resolving {
          return Failed(SymlinkCycle);
        }
        if |resolving| >= MAX_SYMLINK_DEPTH {
          return Failed(SymlinkDepthLimit);
        }
        if !SafeTarget(entries[candidate].target) {
          return Failed(UnsafeLink);
        }
        var inner := ExpandByLoop(stack, Components(entries[candidate].target), resolving + {candidate}, entries);
        if inner.Failed? {
          return inner;
        }
        stack := inner.stack;
      } else {
        stack := stack + [component];
      }
    }
    r := Resolved(stack);
  }

  // The plain walk: the target of a link is put in front of what is left to walk.

  /**
    A walk goes on, or has arrived, or has gone above the root. A target that begins with a slash takes it to
    the root of the file system, outside the project; an empty one, or one that means something else on
    another system, blocks it.
   */
  datatype Walk =
    | Walking(stack: seq<string>, todo: seq<string>)
    | Arrived(stack: seq<string>)
    | Escaped
    | Outside
    | Blocked

  /** The walk has met a target it does not follow. */
  predicate Refuses(w: Walk) {
    w.Outside? || w.Blocked?
  }

  function Step(w: Walk, entries: Manifest): Walk {
    match w
    case Walking(stack, todo) =>
      if todo == [] then Arrived(stack)
      else
        var component, rest := todo[0], todo[1..];
        var candidate := PathOf(stack + [component]);
        if component in ["", "."] then Walking(stack, rest)
        else if component == ".." then if stack == [] then Escaped else Walking(stack[..|stack| - 1], rest)
        else if IsLink(entries, candidate) then
          var target := entries[candidate].target;
          if target == "" then Blocked
          else if target[0] == '/' then Outside
          else if '\\' in target || '\0' in target || (|target| >= 2 && target[1] == ':') then Blocked
          else Walking(stack, Components(target) + rest)
        else Walking(stack + [component], rest)
    case _ => w
  }

  function Run(w: Walk, n: nat, entries: Manifest): Walk
    decreases n
  {
    if n == 0 then w else Run(Step(w, entries), n - 1, entries)
  }

  ghost predicate Reaches(w: Walk, w': Walk, entries: Manifest) {
    exists n: nat :: Run(w, n, entries) == w'
  }

  ghost predicate NeverEnds(w: Walk, entries: Manifest) {
    forall n: nat :: Run(w, n, entries).Walking?
  }

  /** The walk that opens a path from the directory that holds it. */
  function Opening(path: string): Walk {
    var parts := Components(path);
    Walking(parts[..|parts| - 1], [parts[|parts| - 1]])
  }

  lemma {:induction false} RunAdd(w: Walk, a: nat, b: nat, entries: Manifest)
    ensures Run(w, a + b, entries) == Run(Run(w, a, entries), b, entries)
    decreases a
  {
    if a > 0 { RunAdd(Step(w, entries), a - 1, b, entries); }
  }

  lemma {:induction false} EndedStays(w: Walk, n: nat, entries: Manifest)
    requires !w.Walking?
    ensures Run(w, n, entries) == w
  {
    if n > 0 { EndedStays(w, n - 1, entries); }
  }

  lemma StillWalking(w: Walk, m: nat, n: nat, entries: Manifest)
    requires m <= n && Run(w, n, entries).Walking?
    ensures Run(w, m, entries).Walking?
  {
    RunAdd(w, m, n - m, entries);
    if !Run(w, m, entries).Walking? { EndedStays(Run(w, m, entries), n - m, entries); }
  }

  lemma ReachesTransitive(a: Walk, b: Walk, c: Walk, entries: Manifest)
    requires Reaches(a, b, entries) && Reaches(b, c, entries)
    ensures Reaches(a, c, entries)
  {
    var m: nat :| Run(a, m, entries) == b;
    var n: nat :| Run(b, n, entries) == c;
    RunAdd(a, m, n, entries);
  }

  lemma ReachesByStep(a: Walk, c: Walk, entries: Manifest)
    requires Reaches(Step(a, entries), c, entries)
    ensures Reaches(a, c, entries)
  {
    var n: nat :| Run(Step(a, entries), n, entries) == c;
    assert Run(a, n + 1, entries) == c;
  }

  /** The step into a link: through a target the resolver follows, and through no other. */
  lemma StepIntoLink(stack: seq<string>, todo: seq<string>, entries: Manifest)
    requires todo != [] && todo[0] !in ["", ".", ".."] && IsLink(entries, PathOf(stack + [todo[0]]))
    ensures var target := entries[PathOf(stack + [todo[0]])].target;
            if SafeTarget(target) then
              Step(Walking(stack, todo), entries) == Walking(stack, Components(target) + todo[1..])
            else Refuses(Step(Walking(stack, todo), entries))
  {
    hide PathOf, Components;
  }

  /** A walk does the same step when more is left to do after it. */
  lemma StepFrame(stack: seq<string>, todo: seq<string>, more: seq<string>, entries: Manifest)
    requires todo != [] && Step(Walking(stack, todo), entries).Walking?
    ensures var next := Step(Walking(stack, todo), entries);
            Step(Walking(stack, todo + more), entries) == Walking(next.stack, next.todo + more)
  {
    assert (todo + more)[1..] == todo[1..] + more && (todo + more)[0] == todo[0];
    var candidate := PathOf(stack + [todo[0]]);
    if IsLink(entries, candidate) {
      var front := Components(entries[candidate].target);
      assert (front + todo[1..]) + more == front + (todo[1..] + more);
    }
  }

  lemma NothingToDo(stack: seq<string>, n: nat, entries: Manifest)
    requires n > 0
    ensures !Run(Walking(stack, []), n, entries).Walking?
  {
    EndedStays(Arrived(stack), n - 1, entries);
  }

  lemma RunFirst(w: Walk, n: nat, entries: Manifest)
    requires n > 0
    ensures Run(w, n, entries) == Run(Step(w, entries), n - 1, entries)
  {}

  lemma {:induction false} Frame(stack: seq<string>, todo: seq<string>, more: seq<string>, n: nat, entries: Manifest)
    requires Run(Walking(stack, todo), n, entries).Walking?
    ensures var w := Run(Walking(stack, todo), n, entries);
            Run(Walking(stack, todo + more), n, entries) == Walking(w.stack, w.todo + more)
    decreases n
  {
    hide Step;
    if n > 0 {
      if todo == [] { NothingToDo(stack, n, entries); }
      var next := Step(Walking(stack, todo), entries);
      RunFirst(Walking(stack, todo), n, entries);
      RunFirst(Walking(stack, todo + more), n, entries);
      if !next.Walking? { EndedStays(next, n - 1, entries); }
      StepFrame(stack, todo, more, entries);
      hide Run;
      Frame(next.stack, next.todo, more, n - 1, entries);
    }
  }

  /** Where the plain walk must be when the resolver has given its verdict. */
  ghost predicate Follows(start: Walk, verdict: Expansion, more: seq<string>, entries: Manifest) {
    match verdict
    case Resolved(stack) => Reaches(start, Walking(stack, more), entries)
    case Failed(EscapingLink) => Reaches(start, Escaped, entries)
    case Failed(UnsafeLink) => exists n: nat :: Refuses(Run(start, n, entries))
    case Failed(_) => true
  }

  lemma FollowsByStep(start: Walk, verdict: Expansion, more: seq<string>, entries: Manifest)
    requires Follows(Step(start, entries), verdict, more, entries)
    ensures Follows(start, verdict, more, entries)
  {
    match verdict
    case Resolved(stack) => ReachesByStep(start, Walking(stack, more), entries);
    case Failed(EscapingLink) => ReachesByStep(start, Escaped, entries);
    case Failed(UnsafeLink) =>
      var n: nat :| Refuses(Run(Step(start, entries), n, entries));
      assert Run(start, n + 1, entries) == Run(Step(start, entries), n, entries);
    case Failed(_) =>
  }

  lemma FollowsTransitive(start: Walk, middle: Walk, verdict: Expansion, more: seq<string>, entries: Manifest)
    requires Reaches(start, middle, entries) && Follows(middle, verdict, more, entries)
    ensures Follows(start, verdict, more, entries)
  {
    match verdict
    case Resolved(stack) => ReachesTransitive(start, middle, Walking(stack, more), entries);
    case Failed(EscapingLink) => ReachesTransitive(start, middle, Escaped, entries);
    case Failed(UnsafeLink) =>
      var m: nat :| Run(start, m, entries) == middle;
      var n: nat :| Refuses(Run(middle, n, entries));
      RunAdd(start, m, n, entries);
    case Failed(_) =>
  }

  lemma {:induction false} ExpandFollowsWalk(stack: seq<string>, components: seq<string>, resolving: set<string>,
      entries: Manifest, more: seq<string>, limit: nat)
    ensures Follows(Walking(stack, components + more), Expand(stack, components, resolving, entries, limit), more,
                    entries)
    decreases Budget(resolving, limit), |components|
  {
    var start := Walking(stack, components + more);
    var verdict := Expand(stack, components, resolving, entries, limit);
    assert Run(start, 0, entries) == start;
    if components == [] {
      assert components + more == more;
    } else {
      var component, rest := components[0], components[1..];
      var candidate := PathOf(stack + [component]);
      assert (components + more)[1..] == rest + more && (components + more)[0] == component;
      var next := Step(start, entries);
      assert Run(next, 0, entries) == next;
      if component in ["", "."] {
        ExpandFollowsWalk(stack, rest, resolving, entries, more, limit);
        FollowsByStep(start, verdict, more, entries);
      } else if component == ".." {
        if stack == [] {
          ReachesByStep(start, Escaped, entries);
        } else {
          ExpandFollowsWalk(stack[..|stack| - 1], rest, resolving, entries, more, limit);
          FollowsByStep(start, verdict, more, entries);
        }
      } else if IsLink(entries, candidate) {
        if candidate !in resolving && |resolving| < limit {
          if SafeTarget(entries[candidate].target) {
            var front := Components(entries[candidate].target);
            var inner := Expand(stack, front, resolving + {candidate}, entries, limit);
            ExpandFollowsWalk(stack, front, resolving + {candidate}, entries, rest + more, limit);
            if inner.Resolved? {
              ExpandFollowsWalk(inner.stack, rest, resolving, entries, more, limit);
              FollowsTransitive(next, Walking(inner.stack, rest + more), verdict, more, entries);
            }
            FollowsByStep(start, verdict, more, entries);
          } else {
            assert Refuses(next) && Run(start, 1, entries) == Run(next, 0, entries);
          }
        }
      } else {
        ExpandFollowsWalk(stack + [component], rest, resolving, entries, more, limit);
        FollowsByStep(start, verdict, more, entries);
      }
    }
  }

  // Cycles. While `c` is being resolved, the walk that opened `c` has come, in at least one step, to the
  // resolver's position, with something more to do afterwards. Meeting `c` again closes the loop.

  ghost predicate Opened(c: string, stack: seq<string>, components: seq<string>, entries: Manifest) {
    exists n: nat, more: seq<string> :: n >= 1 && Run(Opening(c), n, entries) == Walking(stack, components + more)
  }

  lemma OpenedAdvances(c: string, stack: seq<string>, components: seq<string>, stack': seq<string>,
      components': seq<string>, entries: Manifest)
    requires Opened(c, stack, components, entries)
    requires Reaches(Walking(stack, components), Walking(stack', components'), entries)
    ensures Opened(c, stack', components', entries)
  {
    var n: nat, more: seq<string> :| n >= 1 && Run(Opening(c), n, entries) == Walking(stack, components + more);
    var m: nat :| Run(Walking(stack, components), m, entries) == Walking(stack', components');
    Frame(stack, components, more, m, entries);
    RunAdd(Opening(c), n, m, entries);
    assert Run(Opening(c), n + m, entries) == Walking(stack', components' + more);
  }

  /** Doing only the front of the list is also a position: what stands behind it is done later. */
  lemma OpenedFront(c: string, stack: seq<string>, front: seq<string>, rest: seq<string>, entries: Manifest)
    requires Opened(c, stack, front + rest, entries)
    ensures Opened(c, stack, front, entries)
  {
    var n: nat, more: seq<string> :| n >= 1 && Run(Opening(c), n, entries) == Walking(stack, front + rest + more);
    assert front + rest + more == front + (rest + more);
  }

  /** A walk that comes back to where it opened, with no less to do, never ends. */
  lemma {:induction false} LoopNeverEnds(stack: seq<string>, first: seq<string>, n: nat, added: seq<string>,
      more: seq<string>, m: nat, entries: Manifest)
    requires n >= 1 && Run(Walking(stack, first), n, entries) == Walking(stack, first + added)
    ensures Run(Walking(stack, first + more), m, entries).Walking?
    decreases m
  {
    var w := Walking(stack, first + more);
    var again := Walking(stack, first + (added + more));
    assert Run(w, n, entries) == again by {
      Frame(stack, first, more, n, entries);
      assert first + added + more == first + (added + more);
    }
    if m < n {
      StillWalking(w, m, n, entries);
    } else {
      LoopNeverEnds(stack, first, n, added, added + more, m - n, entries);
      RunAdd(w, n, m - n, entries);
    }
  }

  lemma NeverEndsBefore(w: Walk, w': Walk, entries: Manifest)
    requires Reaches(w, w', entries) && NeverEnds(w', entries)
    ensures NeverEnds(w, entries)
  {
    var k: nat :| Run(w, k, entries) == w';
    forall n: nat ensures Run(w, n, entries).Walking? {
      assert Run(w', n, entries).Walking?;
      RunAdd(w, k, n, entries);
      StillWalking(w, n, k + n, entries);
    }
  }

  lemma NeverEndsWithMore(stack: seq<string>, todo: seq<string>, more: seq<string>, entries: Manifest)
    requires NeverEnds(Walking(stack, todo), entries)
    ensures NeverEnds(Walking(stack, todo + more), entries)
  {
    forall n: nat ensures Run(Walking(stack, todo + more), n, entries).Walking? {
      assert Run(Walking(stack, todo), n, entries).Walking?;
      Frame(stack, todo, more, n, entries);
    }
  }

  ghost predicate Plain(names: seq<string>) {
    forall name :: name in names ==> '/' !in name
  }

  lemma {:induction false} ExpandKeepsPlain(stack: seq<string>, components: seq<string>, resolving: set<string>,
      entries: Manifest, limit: nat)
    requires Plain(stack) && Plain(components)
    ensures Expand(stack, components, resolving, entries, limit).Resolved? ==>
        Plain(Expand(stack, components, resolving, entries, limit).stack)
    decreases Budget(resolving, limit), |components|
  {
    if components != [] {
      var component, rest := components[0], components[1..];
      var candidate := PathOf(stack + [component]);
      if component in ["", "."] {
        ExpandKeepsPlain(stack, rest, resolving, entries, limit);
      } else if component == ".." {
        if stack != [] { ExpandKeepsPlain(stack[..|stack| - 1], rest, resolving, entries, limit); }
      } else if IsLink(entries, candidate) {
        if candidate !in resolving && |resolving| < limit {
          var front := Components(entries[candidate].target);
          SplitNoSeparator(entries[candidate].target, '/');
          ExpandKeepsPlain(stack, front, resolving + {candidate}, entries, limit);
          var inner := Expand(stack, front, resolving + {candidate}, entries, limit);
          if inner.Resolved? { ExpandKeepsPlain(inner.stack, rest, resolving, entries, limit); }
        }
      } else {
        ExpandKeepsPlain(stack + [component], rest, resolving, entries, limit);
      }
    }
  }

  lemma OpeningOfJoin(stack: seq<string>, name: string)
    requires Plain(stack) && '/' !in name
    ensures Opening(PathOf(stack + [name])) == Walking(stack, [name])
  {
    SplitJoin(stack + [name], '/');
    assert (stack + [name])[..|stack|] == stack;
  }

  lemma {:induction false} CycleNeverEnds(stack: seq<string>, components: seq<string>, resolving: set<string>,
      entries: Manifest, limit: nat)
    requires Plain(stack) && Plain(components)
    requires forall c :: c in resolving ==> Opened(c, stack, components, entries)
    requires Expand(stack, components, resolving, entries, limit) == Failed(SymlinkCycle)
    ensures NeverEnds(Walking(stack, components), entries)
    decreases Budget(resolving, limit), |components|
  {
    var component, rest := components[0], components[1..];
    var candidate := PathOf(stack + [component]);
    var start := Walking(stack, components);
    var next := Step(start, entries);
    assert Run(start, 1, entries) == Run(next, 0, entries) == next;
    assert [component] + rest == components;
    if component !in ["", ".", ".."] && IsLink(entries, candidate) {
      OpeningOfJoin(stack, component);
      if candidate in resolving {
        var n: nat, added: seq<string> :| n >= 1 &&
          Run(Opening(candidate), n, entries) == Walking(stack, components + added);
        assert components + added == [component] + (rest + added);
        forall m: nat ensures Run(start, m, entries).Walking? {
          LoopNeverEnds(stack, [component], n, rest + added, rest, m, entries);
        }
      } else {
        CycleBelow(stack, components, resolving, entries, limit);
      }
    } else {
      forall c | c in resolving ensures Opened(c, next.stack, next.todo, entries) {
        OpenedAdvances(c, stack, components, next.stack, next.todo, entries);
      }
      CycleNeverEnds(next.stack, next.todo, resolving, entries, limit);
      NeverEndsBefore(start, next, entries);
    }
  }

  /** Going into a link opens it too. */
  lemma OpenedInside(stack: seq<string>, components: seq<string>, resolving: set<string>, entries: Manifest)
    requires Plain(stack) && Plain(components) && components != []
    requires forall c :: c in resolving ==> Opened(c, stack, components, entries)
    requires var candidate := PathOf(stack + [components[0]]);
             components[0] !in ["", ".", ".."] && IsLink(entries, candidate) && SafeTarget(entries[candidate].target)
    ensures var candidate := PathOf(stack + [components[0]]);
            var front := Components(entries[candidate].target);
            && Reaches(Walking(stack, components), Walking(stack, front + components[1..]), entries)
            && forall c :: c in resolving + {candidate} ==> Opened(c, stack, front, entries)
  {
    hide Opened;
    var component, rest := components[0], components[1..];
    var candidate := PathOf(stack + [component]);
    var front := Components(entries[candidate].target);
    var start, next := Walking(stack, components), Walking(stack, front + rest);
    OpeningOfJoin(stack, component);
    assert Step(start, entries) == next && Run(next, 0, entries) == next;
    ReachesByStep(start, next, entries);
    forall c | c in resolving ensures Opened(c, stack, front, entries) {
      OpenedAdvances(c, stack, components, stack, front + rest, entries);
      OpenedFront(c, stack, front, rest, entries);
    }
    assert Step(Opening(candidate), entries) == Walking(stack, front + []);
    OpenedByStep(candidate, stack, front, entries);
  }

  lemma OpenedByStep(c: string, stack: seq<string>, front: seq<string>, entries: Manifest)
    requires Step(Opening(c), entries) == Walking(stack, front + [])
    ensures Opened(c, stack, front, entries)
  {
    assert Run(Opening(c), 1, entries) == Run(Step(Opening(c), entries), 0, entries);
  }

  /** The case of `CycleNeverEnds` in which the first component is a link that is not yet being resolved. */
  lemma {:induction false} CycleBelow(stack: seq<string>, components: seq<string>, resolving: set<string>,
      entries: Manifest, limit: nat)
    requires Plain(stack) && Plain(components) && components != []
    requires forall c :: c in resolving ==> Opened(c, stack, components, entries)
    requires Expand(stack, components, resolving, entries, limit) == Failed(SymlinkCycle)
    requires var candidate := PathOf(stack + [components[0]]);
             components[0] !in ["", ".", ".."] && IsLink(entries, candidate) && candidate !in resolving
    ensures NeverEnds(Walking(stack, components), entries)
    decreases Budget(resolving, limit), |components|, 0
  {
    hide Opened, NeverEnds, Reaches, Step, PathOf, Components;
    var component, rest := components[0], components[1..];
    var candidate := PathOf(stack + [component]);
    var front := Components(entries[candidate].target);
    var resolving' := resolving + {candidate};
    var start, next := Walking(stack, components), Walking(stack, front + rest);
    TargetIsPlain(entries, candidate);
    OpenedInside(stack, components, resolving, entries);
    var inner := Expand(stack, front, resolving', entries, limit);
    if inner.Failed? {
      CycleNeverEnds(stack, front, resolving', entries, limit);
      NeverEndsWithMore(stack, front, rest, entries);
      NeverEndsBefore(start, next, entries);
    } else {
      ExpandKeepsPlain(stack, front, resolving', entries, limit);
      ExpandFollowsWalk(stack, front, resolving', entries, rest, limit);
      ReachesTransitive(start, next, Walking(inner.stack, rest), entries);
      forall c | c in resolving ensures Opened(c, inner.stack, rest, entries) {
        OpenedAdvances(c, stack, components, inner.stack, rest, entries);
      }
      CycleNeverEnds(inner.stack, rest, resolving, entries, limit);
      NeverEndsBefore(start, Walking(inner.stack, rest), entries);
    }
  }

  lemma TargetIsPlain(entries: Manifest, link: string)
    requires IsLink(entries, link)
    ensures Plain(Components(entries[link].target))
  {
    SplitNoSeparator(entries[link].target, '/');
  }

  /** A walk has one end. */
  lemma EndUnique(w: Walk, a: Walk, b: Walk, entries: Manifest)
    requires Reaches(w, a, entries) && Reaches(w, b, entries) && !a.Walking? && !b.Walking?
    ensures a == b
  {
    var m: nat :| Run(w, m, entries) == a;
    var n: nat :| Run(w, n, entries) == b;
    RunAdd(w, m, n, entries);
    RunAdd(w, n, m, entries);
    EndedStays(a, n, entries);
    EndedStays(b, m, entries);
  }

  ghost predicate LinkAt(path: string, target: string, entries: Manifest) {
    IsLink(entries, path) && entries[path].target == target && LastName(path) !in ["", ".", ".."]
  }

  lemma StepAtEnd(entries: Manifest)
    ensures forall stack :: Step(Walking(stack, []), entries) == Arrived(stack)
  {}

  /** Every verdict of the resolver but the depth limit, whatever that is, is what the plain walk does. */
  lemma VerdictHolds(path: string, target: string, entries: Manifest, limit: nat)
    requires LinkAt(path, target, entries)
    ensures var w, verdict := Opening(path), ResolveWithin(path, target, entries, limit);
            match verdict
            case Resolved(stack) => Reaches(w, Arrived(stack), entries)
            case Failed(EscapingLink) => Reaches(w, Escaped, entries)
            case Failed(UnsafeLink) => Reaches(w, Outside, entries) || Reaches(w, Blocked, entries)
            case Failed(SymlinkCycle) => NeverEnds(w, entries)
            case Failed(SymlinkDepthLimit) => true
  {
    hide SafeTarget, Step;
    var w, parts := Opening(path), Components(path);
    var base, front := parts[..|parts| - 1], Components(target);
    JoinSplit(path, '/');
    assert base + [LastName(path)] == parts;
    StepIntoLink(base, [LastName(path)], entries);
    StepAtEnd(entries);
    if !SafeTarget(target) {
      assert Run(w, 1, entries) == Run(Step(w, entries), 0, entries) && Refuses(Step(w, entries));
    } else {
      var next := Walking(base, front);
      assert front + [] == front;
      assert Step(w, entries) == next && Run(next, 0, entries) == next;
      assert Run(w, 1, entries) == Run(next, 0, entries);
      ExpandFollowsWalk(base, front, {path}, entries, [], limit);
      var verdict := ResolveWithin(path, target, entries, limit);
      FollowsByStep(w, verdict, [], entries);
      match verdict {
        case Resolved(stack) =>
          assert Run(Walking(stack, []), 1, entries) == Run(Arrived(stack), 0, entries);
          ReachesTransitive(w, Walking(stack, []), Arrived(stack), entries);
        case Failed(SymlinkCycle) =>
          SplitNoSeparator(path, '/');
          SplitNoSeparator(target, '/');
          assert Run(w, 1, entries) == Walking(base, front + []);
          CycleNeverEnds(base, front, {path}, entries, limit);
          NeverEndsBefore(w, next, entries);
        case Failed(_) =>
      }
    }
  }

  // The depth limit.

  /** The names of the entries that are links. */
  ghost function LinkPaths(entries: Manifest): set<string> {
    set p | p in entries && entries[p].SymlinkEntry?
  }

  lemma {:induction false} NoDepthLimitBelow(stack: seq<string>, components: seq<string>, resolving: set<string>,
      entries: Manifest, limit: nat)
    requires resolving <= LinkPaths(entries) && |LinkPaths(entries)| <= limit
    ensures Expand(stack, components, resolving, entries, limit) != Failed(SymlinkDepthLimit)
    decreases Budget(resolving, limit), |components|
  {
    if components != [] {
      var component, rest := components[0], components[1..];
      var candidate := PathOf(stack + [component]);
      if component in ["", "."] {
        NoDepthLimitBelow(stack, rest, resolving, entries, limit);
      } else if component == ".." {
        if stack != [] { NoDepthLimitBelow(stack[..|stack| - 1], rest, resolving, entries, limit); }
      } else if IsLink(entries, candidate) {
        if candidate !in resolving {
          MoreThan(resolving, candidate, LinkPaths(entries));
          var front := Components(entries[candidate].target);
          NoDepthLimitBelow(stack, front, resolving + {candidate}, entries, limit);
          var inner := Expand(stack, front, resolving + {candidate}, entries, limit);
          if inner.Resolved? { NoDepthLimitBelow(inner.stack, rest, resolving, entries, limit); }
        }
      } else {
        NoDepthLimitBelow(stack + [component], rest, resolving, entries, limit);
      }
    }
  }

  lemma MoreThan(part: set<string>, x: string, whole: set<string>)
    requires part <= whole && x in whole && x !in part
    ensures |part| < |whole|
  {
    SubsetSize(part + {x}, whole);
  }

  /** With at most 128 links in the tree the depth limit is never the verdict. */
  lemma DepthLimitNeedsManyLinks(path: string, target: string, entries: Manifest)
    requires IsLink(entries, path) && |LinkPaths(entries)| <= MAX_SYMLINK_DEPTH
    ensures ResolveLink(path, target, entries) != Failed(SymlinkDepthLimit)
  {
    if SafeTarget(target) {
      var parts := Components(path);
      NoDepthLimitBelow(parts[..|parts| - 1], Components(target), {path}, entries, MAX_SYMLINK_DEPTH);
    }
  }

  /** What the resolver would say if it had no depth limit: one that the links of the tree cannot reach. */
  ghost function WholeVerdict(path: string, target: string, entries: Manifest): Expansion {
    ResolveWithin(path, target, entries, |LinkPaths(entries)|)
  }

  function Larger(a: nat, b: nat): nat {
    if a < b then b else a
  }

  /** The largest number of links that are being resolved at once, until the verdict. */
  ghost function Nesting(stack: seq<string>, components: seq<string>, resolving: set<string>, entries: Manifest)
    : (depth: nat)
    requires resolving <= LinkPaths(entries)
    ensures depth >= |resolving|
    decreases |LinkPaths(entries)| - |resolving|, |components|
  {
    if components == [] then |resolving|
    else
      var component, rest := components[0], components[1..];
      var candidate := PathOf(stack + [component]);
      if component in ["", "."] then Nesting(stack, rest, resolving, entries)
      else if component == ".." then
        if stack == [] then |resolving| else Nesting(stack[..|stack| - 1], rest, resolving, entries)
      else if IsLink(entries, candidate) then
        if candidate in resolving then |resolving|
        else if !SafeTarget(entries[candidate].target) then |resolving| + 1
        else
          MoreThan(resolving, candidate, LinkPaths(entries));
          var front, within := Components(entries[candidate].target), resolving + {candidate};
          var inner := Expand(stack, front, within, entries, |LinkPaths(entries)|);
          Larger(Nesting(stack, front, within, entries),
                 if inner.Failed? then 0 else Nesting(inner.stack, rest, resolving, entries))
      else Nesting(stack + [component], rest, resolving, entries)
  }

  /** The limit is the verdict exactly when links nest deeper; otherwise it makes no difference. */
  lemma {:induction false} NestingDecides(stack: seq<string>, components: seq<string>, resolving: set<string>,
      entries: Manifest, limit: nat)
    requires resolving <= LinkPaths(entries) && |resolving| <= limit
    ensures Expand(stack, components, resolving, entries, limit)
         == if Nesting(stack, components, resolving, entries) > limit then Failed(SymlinkDepthLimit)
            else Expand(stack, components, resolving, entries, |LinkPaths(entries)|)
    decreases |LinkPaths(entries)| - |resolving|, |components|
  {
    hide PathOf, LinkPaths;
    if components != [] {
      var component, rest := components[0], components[1..];
      var candidate := PathOf(stack + [component]);
      if component in ["", "."] {
        NestingDecides(stack, rest, resolving, entries, limit);
      } else if component == ".." {
        if stack != [] { NestingDecides(stack[..|stack| - 1], rest, resolving, entries, limit); }
      } else if IsLink(entries, candidate) {
        LinkIsPath(entries, candidate);
        if candidate !in resolving {
          MoreThan(resolving, candidate, LinkPaths(entries));
          NestingBelow(stack, components, resolving, entries, limit);
        }
      } else {
        NestingDecides(stack + [component], rest, resolving, entries, limit);
      }
    }
  }

  lemma LinkIsPath(entries: Manifest, candidate: string)
    requires IsLink(entries, candidate)
    ensures candidate in LinkPaths(entries)
  {}

  /** The case of `NestingDecides` in which the first component is a link that is not yet being resolved. */
  lemma {:induction false} NestingBelow(stack: seq<string>, components: seq<string>, resolving: set<string>,
      entries: Manifest, limit: nat)
    requires resolving <= LinkPaths(entries) && |resolving| <= limit && components != []
    requires var candidate := PathOf(stack + [components[0]]);
             components[0] !in ["", ".", ".."] && IsLink(entries, candidate) && candidate !in resolving
    requires |resolving| < |LinkPaths(entries)|
    ensures Expand(stack, components, resolving, entries, limit)
         == if Nesting(stack, components, resolving, entries) > limit then Failed(SymlinkDepthLimit)
            else Expand(stack, components, resolving, entries, |LinkPaths(entries)|)
    decreases |LinkPaths(entries)| - |resolving|, |components|, 0
  {
    hide PathOf, LinkPaths, Components, SafeTarget;
    var candidate := PathOf(stack + [components[0]]);
    LinkIsPath(entries, candidate);
    if |resolving| < limit && SafeTarget(entries[candidate].target) {
      var front, within := Components(entries[candidate].target), resolving + {candidate};
      NestingDecides(stack, front, within, entries, limit);
      NoDepthLimitBelow(stack, front, within, entries, |LinkPaths(entries)|);
      var inner := Expand(stack, front, within, entries, |LinkPaths(entries)|);
      if inner.Resolved? { NestingDecides(inner.stack, components[1..], resolving, entries, limit); }
    }
  }

  /** More than 128 links nest on the way of the link. */
  ghost predicate TooDeep(path: string, target: string, entries: Manifest)
    requires IsLink(entries, path)
  {
    var parts := Components(path);
    SafeTarget(target) && Nesting(parts[..|parts| - 1], Components(target), {path}, entries) > MAX_SYMLINK_DEPTH
  }

  /** The depth limit is the verdict exactly when more than 128 links nest; otherwise it changes nothing. */
  lemma DepthLimitIff(path: string, target: string, entries: Manifest)
    requires IsLink(entries, path)
    ensures ResolveLink(path, target, entries)
         == if TooDeep(path, target, entries) then Failed(SymlinkDepthLimit) else WholeVerdict(path, target, entries)
    ensures WholeVerdict(path, target, entries) != Failed(SymlinkDepthLimit)
  {
    if SafeTarget(target) {
      var parts := Components(path);
      NestingDecides(parts[..|parts| - 1], Components(target), {path}, entries, MAX_SYMLINK_DEPTH);
      NoDepthLimitBelow(parts[..|parts| - 1], Components(target), {path}, entries, |LinkPaths(entries)|);
    }
  }

  /**
    The resolver agrees with the plain walk in both directions, on every link. Apart from the depth limit,
    which is the verdict exactly when more than 128 links nest, it resolves a link to a place exactly when
    the walk arrives there, reports an escape exactly when the walk pops above the root, an unsafe chain
    exactly when a target takes the walk outside the project or blocks it, and a cycle exactly when the walk
    never ends.
   */
  lemma ResolverAgreesWithWalk(path: string, target: string, entries: Manifest)
    requires LinkAt(path, target, entries)
    ensures var w, whole := Opening(path), WholeVerdict(path, target, entries);
            && ResolveLink(path, target, entries)
               == (if TooDeep(path, target, entries) then Failed(SymlinkDepthLimit) else whole)
            && (forall stack :: whole == Resolved(stack) <==> Reaches(w, Arrived(stack), entries))
            && (whole == Failed(EscapingLink) <==> Reaches(w, Escaped, entries))
            && (whole == Failed(UnsafeLink) <==> Reaches(w, Outside, entries) || Reaches(w, Blocked, entries))
            && (whole == Failed(SymlinkCycle) <==> NeverEnds(w, entries))
  {
    hide TooDeep, ResolveLink, ResolveWithin, LinkPaths;
    DepthLimitIff(path, target, entries);
    VerdictHolds(path, target, entries, |LinkPaths(entries)|);
    var w, verdict := Opening(path), WholeVerdict(path, target, entries);
    var end := match verdict
      case Resolved(stack) => Arrived(stack)
      case Failed(EscapingLink) => Escaped
      case Failed(_) => if Reaches(w, Outside, entries) then Outside else Blocked;
    forall a: Walk | !a.Walking? && Reaches(w, a, entries) ensures verdict != Failed(SymlinkCycle) && a == end {
      var n: nat :| Run(w, n, entries) == a;
      if verdict != Failed(SymlinkCycle) { EndUnique(w, a, end, entries); }
    }
    if verdict != Failed(SymlinkCycle) {
      var n: nat :| Run(w, n, entries) == end;
    }
  }

  /** No leading part of the stack names a link. */
  ghost predicate RealStack(stack: seq<string>, entries: Manifest) {
    forall k :: 0 < k <= |stack| ==> !IsLink(entries, PathOf(stack[..k]))
  }

  lemma {:induction false} ExpandKeepsRealStack(stack: seq<string>, components: seq<string>, resolving: set<string>,
      entries: Manifest, limit: nat)
    requires RealStack(stack, entries)
    ensures Expand(stack, components, resolving, entries, limit).Resolved? ==>
        RealStack(Expand(stack, components, resolving, entries, limit).stack, entries)
    decreases Budget(resolving, limit), |components|
  {
    if components != [] {
      var component, rest := components[0], components[1..];
      var candidate := PathOf(stack + [component]);
      if component in ["", "."] {
        ExpandKeepsRealStack(stack, rest, resolving, entries, limit);
      } else if component == ".." {
        if stack != [] {
          var shorter := stack[..|stack| - 1];
          assert forall k :: 0 < k <= |shorter| ==> shorter[..k] == stack[..k];
          ExpandKeepsRealStack(shorter, rest, resolving, entries, limit);
        }
      } else if IsLink(entries, candidate) {
        if candidate !in resolving && |resolving| < limit {
          var front := Components(entries[candidate].target);
          ExpandKeepsRealStack(stack, front, resolving + {candidate}, entries, limit);
          var inner := Expand(stack, front, resolving + {candidate}, entries, limit);
          if inner.Resolved? { ExpandKeepsRealStack(inner.stack, rest, resolving, entries, limit); }
        }
      } else {
        var longer := stack + [component];
        assert forall k :: 0 < k <= |stack| ==> longer[..k] == stack[..k];
        assert longer[..|longer|] == longer;
        ExpandKeepsRealStack(longer, rest, resolving, entries, limit);
      }
    }
  }

  /** When the ancestors of a link are directories, what it resolves to has no link on the way. */
  lemma ResolvedPlaceIsReal(path: string, target: string, entries: Manifest)
    requires forall q :: q in Ancestors(path) ==> q in entries && entries[q].DirectoryEntry?
    ensures match ResolveLink(path, target, entries)
            case Resolved(stack) => RealStack(stack, entries)
            case Failed(_) => true
  {
    var parts := Components(path);
    var base := parts[..|parts| - 1];
    forall k | 0 < k <= |base| ensures !IsLink(entries, PathOf(base[..k])) {
      assert base[..k] == parts[..(k - 1) + 1];
      assert Ancestors(path)[k - 1] == PathOf(parts[..(k - 1) + 1]);
    }
    if SafeTarget(target) { ExpandKeepsRealStack(base, Components(target), {path}, entries, MAX_SYMLINK_DEPTH); }
  }
}
