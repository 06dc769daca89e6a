/** The worklist scan of a tree, and the snapshot made from it. */
module TreeScan {
  import opened Options
  import opened RelativePaths
  import opened TreeModel
  import opened LinkResolution
  import opened Manifests
  import Totals

  /** The paths of the items of one directory. */
  function Items(nodes: Tree, prefix: string): set<string> {
    set p | p in nodes && ParentOf(p) == prefix
  }

  predicate ListableAt(project: Project, prefix: string) {
    if prefix == "" then project.root == RootDirectory(true)
    else prefix in project.nodes && project.nodes[prefix] == Directory(true)
  }

  /** What the scan makes of one item that is not excluded. */
  datatype Outcome = Recorded(entry: Entry) | Refused(code: ViolationCode) | Stopped(code: ViolationCode)

  function Inspect(path: string, node: Node, scannedBytes: int): Outcome {
    if !SafeRelative(path) then Refused(UnsafePath)
    else match node
      case Unavailable => Refused(EntryUnavailable)
      case Directory(_) => Recorded(DirectoryEntry)
      case RegularFile(content, executable, readable) =>
        if |content| > MAX_FILE_BYTES then Refused(FileSizeLimit)
        else if |content| > MAX_SCAN_BYTES - scannedBytes then Stopped(ScanSizeLimit)
        else if !readable then Refused(FileUnavailable)
        else Recorded(FileEntry(Sha256(content), |content|, executable))
      case SymbolicLink(target, readable) =>
        if readable then Recorded(SymlinkEntry(target)) else Refused(LinkUnavailable)
      case SpecialFile => Refused(SpecialFileFound)
  }

  /** The variables of the scan. */
  datatype Scan = Scan(pending: seq<string>, found: Manifest, seen: int, bytes: int,
                       violations: set<Violation>, overflow: bool)

  /** The scan after it has looked at one item that is not excluded. */
  function Look(s: Scan, path: string, node: Node): Scan {
    if s.seen + 1 > MAX_ENTRIES then
      s.(seen := s.seen + 1, violations := s.violations + {Violation(EntryLimit, path)}, overflow := true)
    else
      match Inspect(path, node, s.bytes)
      case Recorded(entry) =>
        s.(seen := s.seen + 1, found := s.found[path := entry], bytes := s.bytes + SizeOf(entry),
           pending := if entry.DirectoryEntry? then s.pending + [path] else s.pending)
      case Refused(code) => s.(seen := s.seen + 1, violations := s.violations + {Violation(code, path)})
      case Stopped(code) =>
        s.(seen := s.seen + 1, violations := s.violations + {Violation(code, path)}, overflow := true)
  }

  /** Directories are listed once: those pending have been visited and are still to be listed. */
  ghost predicate Worklist(nodes: Tree, pending: seq<string>, listed: set<string>, visited: set<string>) {
    && visited <= nodes.Keys
    && (forall d :: d in pending ==> d !in listed && (d == "" || (d in visited && nodes[d].Directory?)))
    && (forall d :: d in pending ==> multiset(pending)[d] == 1)
    && (forall d :: d in listed ==> d == "" || d in visited)
    && (forall p :: p in visited ==> ParentOf(p) in listed)
  }

  /** What has been recorded is right, and within the limits. */
  ghost predicate Accounts(nodes: Tree, excluded: set<string>, s: Scan, visited: set<string>) {
    && (forall p :: p in visited ==> p in nodes && !Excluded(p, excluded))
    && (!s.overflow ==> s.seen == |visited| <= MAX_ENTRIES)
    && s.found.Keys <= visited
    && (forall p :: p in s.found ==> Records(nodes, p, s.found[p]))
    && s.bytes == Totals.Total(SizesOf(s.found)) <= MAX_SCAN_BYTES
  }

  ghost predicate Records(nodes: Tree, path: string, entry: Entry) {
    path in nodes && EntryOf(nodes[path]) == Some(entry)
  }

  /** Nothing has been missed; `open` are the items of the current directory still to come. */
  ghost predicate Complete(project: Project, excluded: set<string>, s: Scan, listed: set<string>,
      visited: set<string>, open: set<string>) {
    && !s.overflow
    && s.found.Keys == visited
    && ("" in listed || "" in s.pending)
    && (forall d :: d in listed ==> ListableAt(project, d))
    && (forall p :: p in visited ==> VisitedRight(project.nodes, p))
    && (forall p :: p in visited && project.nodes[p].Directory? ==> p in listed || p in s.pending)
    && (forall p :: p in project.nodes && !Excluded(p, excluded) && ParentOf(p) in listed ==> p in visited || p in open)
  }

  predicate VisitedRight(nodes: Tree, path: string) {
    path in nodes && ((nodes[path].Directory? && SafeRelative(path)) || Scannable(path, nodes[path]))
  }

  ghost predicate Invariant(project: Project, excluded: set<string>, s: Scan, listed: set<string>,
      visited: set<string>, open: set<string>) {
    && Worklist(project.nodes, s.pending, listed, visited)
    && Accounts(project.nodes, excluded, s, visited)
    && (s.violations == {} ==> Complete(project, excluded, s, listed, visited, open))
    && (Clean(project, excluded) ==> s.violations == {})
  }

  lemma TopIsNotAnEntry(nodes: Tree)
    requires WellFormedTree(nodes)
    ensures "" !in nodes
  {
    assert "" in Components("");
  }

  lemma OnceEach(pending: seq<string>, rest: seq<string>, prefix: string)
    requires pending == rest + [prefix] && forall d :: d in pending ==> multiset(pending)[d] == 1
    ensures forall d :: d in rest ==> d in pending && d != prefix && multiset(rest)[d] == 1
  {
    assert multiset(pending) == multiset(rest) + multiset{prefix};
    forall d | d in rest ensures d in pending && d != prefix && multiset(rest)[d] == 1 {
      assert multiset(rest)[d] > 0;
    }
  }

  lemma WorklistTake(nodes: Tree, pending: seq<string>, listed: set<string>, visited: set<string>)
    requires Worklist(nodes, pending, listed, visited) && pending != []
    ensures var prefix := pending[|pending| - 1];
            Worklist(nodes, pending[..|pending| - 1], listed + {prefix}, visited) && prefix !in listed
  {
    hide ParentOf;
    var prefix, rest := pending[|pending| - 1], pending[..|pending| - 1];
    assert prefix in pending;
    OnceEach(pending, rest, prefix);
  }

  lemma WorklistVisit(nodes: Tree, pending: seq<string>, listed: set<string>, visited: set<string>, path: string)
    requires Worklist(nodes, pending, listed, visited)
    requires path in nodes && path !in visited && ParentOf(path) in listed && path != ""
    ensures Worklist(nodes, pending, listed, visited + {path})
    ensures nodes[path].Directory? ==> Worklist(nodes, pending + [path], listed, visited + {path})
  {
    var longer := pending + [path];
    assert path !in pending && path !in listed;
    assert multiset(longer) == multiset(pending) + multiset{path};
    assert forall d :: d in longer ==> d == path || d in pending;
  }

  lemma AccountsVisit(nodes: Tree, excluded: set<string>, s: Scan, visited: set<string>, path: string)
    requires Accounts(nodes, excluded, s, visited) && !s.overflow
    requires path in nodes && !Excluded(path, excluded) && path !in visited
    ensures Accounts(nodes, excluded, Look(s, path, nodes[path]), visited + {path})
  {
    var outcome := Inspect(path, nodes[path], s.bytes);
    if outcome.Recorded? {
      assert Records(nodes, path, outcome.entry);
      SizesOfUpdate(s.found, path, outcome.entry);
      Totals.TotalAdd(SizesOf(s.found), path, SizeOf(outcome.entry));
    }
  }

  lemma CompleteVisit(project: Project, excluded: set<string>, s: Scan, listed: set<string>, visited: set<string>,
      open: set<string>, path: string)
    requires Complete(project, excluded, s, listed, visited, open)
    requires path in project.nodes && s.seen < MAX_ENTRIES && Inspect(path, project.nodes[path], s.bytes).Recorded?
    ensures Complete(project, excluded, Look(s, path, project.nodes[path]), listed, visited + {path}, open - {path})
  {
    assert VisitedRight(project.nodes, path);
  }

  /** In a clean tree an item is never refused, and never passes a limit. */
  lemma CleanNeverComplains(project: Project, excluded: set<string>, s: Scan, visited: set<string>, path: string)
    requires Clean(project, excluded) && Accounts(project.nodes, excluded, s, visited) && !s.overflow
    requires path in project.nodes && !Excluded(path, excluded) && path !in visited
    ensures s.seen < MAX_ENTRIES && Inspect(path, project.nodes[path], s.bytes).Recorded?
  {
    var live, whole := Live(project.nodes, excluded), ManifestOf(project.nodes, excluded);
    assert path in live && visited <= live;
    MoreThan(visited, path, live);
    assert Scannable(path, project.nodes[path]) && path in whole;
    var more := s.found[path := whole[path]];
    SizesOfUpdate(s.found, path, whole[path]);
    Totals.TotalAdd(SizesOf(s.found), path, SizeOf(whole[path]));
    forall p | p in s.found
      ensures p in whole && s.found[p] == whole[p]
    {
      assert Records(project.nodes, p, s.found[p]);
    }
    Totals.TotalMonotone(SizesOf(more), SizesOf(whole));
  }

  lemma LookPending(s: Scan, path: string, node: Node)
    ensures var pending := Look(s, path, node).pending;
            pending == s.pending || (node.Directory? && pending == s.pending + [path])
  {}

  lemma InvariantVisit(project: Project, excluded: set<string>, s: Scan, listed: set<string>, visited: set<string>,
      open: set<string>, path: string)
    requires Invariant(project, excluded, s, listed, visited, open) && !s.overflow
    requires path in project.nodes && !Excluded(path, excluded) && path !in visited && ParentOf(path) in listed &&
        path != ""
    ensures Invariant(project, excluded, Look(s, path, project.nodes[path]), listed, visited + {path}, open - {path})
  {
    WorklistVisit(project.nodes, s.pending, listed, visited, path);
    AccountsVisit(project.nodes, excluded, s, visited, path);
    LookPending(s, path, project.nodes[path]);
    if Clean(project, excluded) { CleanNeverComplains(project, excluded, s, visited, path); }
    if s.seen < MAX_ENTRIES && Inspect(path, project.nodes[path], s.bytes).Recorded? && s.violations == {} {
      CompleteVisit(project, excluded, s, listed, visited, open, path);
    } else {
      assert Look(s, path, project.nodes[path]).violations != {};
    }
  }

  lemma InvariantSkip(project: Project, excluded: set<string>, s: Scan, listed: set<string>, visited: set<string>,
      open: set<string>, path: string)
    requires Invariant(project, excluded, s, listed, visited, open) && Excluded(path, excluded)
    ensures Invariant(project, excluded, s, listed, visited, open - {path})
  {
    if s.violations == {} {
      assert Complete(project, excluded, s, listed, visited, open - {path});
    }
  }

  lemma InvariantStart(project: Project, excluded: set<string>)
    requires project.root.RootDirectory? && WellFormedTree(project.nodes)
    ensures Invariant(project, excluded, Scan([""], map[], 0, 0, {}, false), {}, {}, {})
  {
    var s := Scan([""], map[], 0, 0, {}, false);
    assert SizesOf(map[]) == map[];
    assert Worklist(project.nodes, s.pending, {}, {});
    assert Accounts(project.nodes, excluded, s, {});
    assert Complete(project, excluded, s, {}, {}, {});
  }

  /** The scan when it turns to the directory it takes from the worklist. */
  function Turn(project: Project, s: Scan): Scan
    requires s.pending != []
  {
    var prefix := s.pending[|s.pending| - 1];
    var s' := s.(pending := s.pending[..|s.pending| - 1]);
    if ListableAt(project, prefix) then s'
    else s'.(violations := s.violations + {Violation(DirectoryUnavailable, if prefix == "" then "." else prefix)})
  }

  lemma InvariantTurn(project: Project, excluded: set<string>, s: Scan, listed: set<string>, visited: set<string>)
    requires Invariant(project, excluded, s, listed, visited, {}) && s.pending != [] && project.root.RootDirectory?
    ensures var prefix := s.pending[|s.pending| - 1];
            && Invariant(project, excluded, Turn(project, s), listed + {prefix}, visited, Items(project.nodes, prefix))
            && prefix !in listed && (prefix == "" || prefix in project.nodes)
  {
    WorklistTake(project.nodes, s.pending, listed, visited);
    var prefix, s' := s.pending[|s.pending| - 1], Turn(project, s);
    assert prefix in s.pending;
    if Clean(project, excluded) && prefix != "" { assert prefix in Live(project.nodes, excluded); }
    assert Accounts(project.nodes, excluded, s', visited);
    if s'.violations == {} { CompleteTurn(project, excluded, s, listed, visited); }
  }

  lemma ItemsNotVisited(nodes: Tree, pending: seq<string>, listed: set<string>, visited: set<string>, prefix: string)
    requires Worklist(nodes, pending, listed, visited) && prefix !in listed
    ensures forall p :: p in Items(nodes, prefix) ==> p !in visited
  {}

  lemma CompleteTurn(project: Project, excluded: set<string>, s: Scan, listed: set<string>, visited: set<string>)
    requires Complete(project, excluded, s, listed, visited, {}) && s.pending != []
    requires ListableAt(project, s.pending[|s.pending| - 1])
    ensures var prefix := s.pending[|s.pending| - 1];
            Complete(project, excluded, Turn(project, s), listed + {prefix}, visited, Items(project.nodes, prefix))
  {
    var prefix, rest := s.pending[|s.pending| - 1], s.pending[..|s.pending| - 1];
    assert s.pending == rest + [prefix];
    assert forall d :: d in s.pending ==> d in rest || d == prefix;
  }

  // What is reported.

  /** What each violation of a scan says is so. */
  ghost predicate Explained(project: Project, excluded: set<string>, v: Violation) {
    var nodes, path := project.nodes, v.path;
    match v.code
    case RootUnavailableFound => path == "." && project.root.RootUnavailable?
    case RootNotDirectoryFound => path == "." && project.root.RootNotDirectory?
    case DirectoryUnavailable =>
      (path == "." && project.root == RootDirectory(false)) || (path in nodes && nodes[path] == Directory(false))
    case EntryLimit => |Live(nodes, excluded)| > 100_000
    case ScanSizeLimit => Totals.Total(SizesOf(ManifestOf(nodes, excluded))) > 1_073_741_824
    case UnsafePath => path in nodes && !SafeRelative(path)
    case EntryUnavailable => path in nodes && nodes[path].Unavailable?
    case FileSizeLimit => path in nodes && nodes[path].RegularFile? && |nodes[path].content| > 134_217_728
    case FileUnavailable => path in nodes && nodes[path].RegularFile? && !nodes[path].readable
    case LinkUnavailable => path in nodes && nodes[path].SymbolicLink? && !nodes[path].readable
    case SpecialFileFound => path in nodes && nodes[path].SpecialFile?
    case _ => false
  }

  ghost predicate AllExplained(project: Project, excluded: set<string>, violations: set<Violation>) {
    forall v :: v in violations ==> Explained(project, excluded, v)
  }

  /** What has been found, with one more file, is part of the tree. */
  lemma FoundIsPart(project: Project, excluded: set<string>, s: Scan, visited: set<string>, path: string)
    requires Accounts(project.nodes, excluded, s, visited) && !s.overflow
    requires path in project.nodes && !Excluded(path, excluded) && path !in visited
    ensures |visited| < |Live(project.nodes, excluded)|
    ensures project.nodes[path].RegularFile? ==>
              s.bytes + |project.nodes[path].content| <= Totals.Total(SizesOf(ManifestOf(project.nodes, excluded)))
  {
    var live, whole := Live(project.nodes, excluded), ManifestOf(project.nodes, excluded);
    assert path in live && visited <= live;
    MoreThan(visited, path, live);
    if project.nodes[path].RegularFile? {
      var more := s.found[path := whole[path]];
      SizesOfUpdate(s.found, path, whole[path]);
      Totals.TotalAdd(SizesOf(s.found), path, SizeOf(whole[path]));
      forall p | p in s.found ensures p in whole && s.found[p] == whole[p] {
        assert Records(project.nodes, p, s.found[p]);
      }
      Totals.TotalMonotone(SizesOf(more), SizesOf(whole));
    }
  }

  lemma ExplainedLook(project: Project, excluded: set<string>, s: Scan, visited: set<string>, path: string)
    requires Accounts(project.nodes, excluded, s, visited) && !s.overflow &&
        AllExplained(project, excluded, s.violations)
    requires path in project.nodes && !Excluded(path, excluded) && path !in visited
    ensures AllExplained(project, excluded, Look(s, path, project.nodes[path]).violations)
  {
    hide Accounts, SafeRelative, Live, ManifestOf, SizesOf;
    FoundIsPart(project, excluded, s, visited, path);
    SeenIsVisited(project.nodes, excluded, s, visited);
  }

  lemma SeenIsVisited(nodes: Tree, excluded: set<string>, s: Scan, visited: set<string>)
    requires Accounts(nodes, excluded, s, visited) && !s.overflow
    ensures s.seen == |visited|
  {}

  lemma ExplainedTurn(project: Project, excluded: set<string>, s: Scan, listed: set<string>, visited: set<string>)
    requires Worklist(project.nodes, s.pending, listed, visited) && s.pending != [] && project.root.RootDirectory?
    requires AllExplained(project, excluded, s.violations)
    ensures AllExplained(project, excluded, Turn(project, s).violations)
  {
    assert s.pending[|s.pending| - 1] in s.pending;
  }

  /** With nothing pending, every live entry has been visited. */
  lemma {:induction false} AllVisited(project: Project, excluded: set<string>, s: Scan, listed: set<string>,
      visited: set<string>, path: string)
    requires WellFormedTree(project.nodes) && Complete(project, excluded, s, listed, visited, {}) && s.pending == []
    requires path in project.nodes && !Excluded(path, excluded)
    ensures path in visited
    decreases |path|
  {
    ParentAndName(path);
    if |Components(path)| > 1 {
      var parent := ParentOf(path);
      assert Above(parent, path);
      if Excluded(parent, excluded) { ExcludedBelow(path, parent, excluded); }
      AllVisited(project, excluded, s, listed, visited, parent);
    }
  }

  lemma FoundIsManifest(project: Project, excluded: set<string>, s: Scan, visited: set<string>)
    requires Accounts(project.nodes, excluded, s, visited) && s.found.Keys == visited == Live(project.nodes, excluded)
    ensures s.found == ManifestOf(project.nodes, excluded)
  {
    forall p | p in s.found ensures EntryOf(project.nodes[p]) == Some(s.found[p]) {
      assert Records(project.nodes, p, s.found[p]);
    }
  }

  /** A scan that ends without complaint has found the whole of a clean tree. */
  lemma CompleteIsClean(project: Project, excluded: set<string>, s: Scan, listed: set<string>, visited: set<string>)
    requires WellFormedTree(project.nodes) && s.pending == [] && project.root.RootDirectory?
    requires Invariant(project, excluded, s, listed, visited, {}) && s.violations == {}
    ensures Clean(project, excluded) && s.found == ManifestOf(project.nodes, excluded)
  {
    var nodes := project.nodes;
    forall p | p in Live(nodes, excluded) ensures p in visited && Scannable(p, nodes[p]) {
      AllVisited(project, excluded, s, listed, visited, p);
      assert VisitedRight(nodes, p);
    }
    assert visited == Live(nodes, excluded) by {
      assert forall p :: p in visited ==> p in nodes && !Excluded(p, excluded);
    }
    FoundIsManifest(project, excluded, s, visited);
    assert "" in listed && ListableAt(project, "");
  }

  /**
    The scan. Items of a directory arrive in any order, and a directory that cannot be listed may
    still yield some of its items. There is no violation exactly when the tree is clean, and then the
    entries are, in path order, those of the non-excluded paths, each once. Each violation is true of the
    tree.
   */
  method ScanTree(project: Project, excluded: set<string>) returns (entries: seq<Listed>, violations: set<Violation>)
    requires WellFormedTree(project.nodes)
    ensures violations == {} <==> Clean(project, excluded)
    ensures violations == {} ==> entries == Listing(ManifestOf(project.nodes, excluded))
    ensures AllExplained(project, excluded, violations)
    ensures entries == Listing(ToManifest(entries))
    ensures forall p :: p in ToManifest(entries) ==>
        Records(project.nodes, p, ToManifest(entries)[p]) && !Excluded(p, excluded)
  {
    if !project.root.RootDirectory? {
      ToManifestOfListing(map[]);
      return [], {Violation(if project.root.RootUnavailable? then RootUnavailableFound
        else RootNotDirectoryFound, ".")};
    }
    var nodes := project.nodes;
    var s := Scan([""], map[], 0, 0, {}, false);
    ghost var listed: set<string>, visited: set<string> := {}, {};
    TopIsNotAnEntry(nodes);
    InvariantStart(project, excluded);
    while s.pending != [] && !s.overflow
      invariant Invariant(project, excluded, s, listed, visited, {}) && AllExplained(project, excluded, s.violations)
      decreases nodes.Keys + {""} - listed
    {
      var prefix := s.pending[|s.pending| - 1];
      var items := Items(nodes, prefix);
      InvariantTurn(project, excluded, s, listed, visited);
      ExplainedTurn(project, excluded, s, listed, visited);
      ItemsNotVisited(nodes, s.pending, listed, visited, prefix);
      s := Turn(project, s);
      listed := listed + {prefix};
      if !ListableAt(project, prefix) {
        var arrived :| arrived <= items;
        items := arrived;
      }
      while items != {} && !s.overflow
        invariant items <= Items(nodes, prefix)
        invariant forall p :: p in items ==> p !in visited
        invariant Invariant(project, excluded, s, listed, visited, items)
        invariant AllExplained(project, excluded, s.violations)
        decreases items
      {
        var path :| path in items;
        if !Excluded(path, excluded) {
          InvariantVisit(project, excluded, s, listed, visited, items, path);
          ExplainedLook(project, excluded, s, visited, path);
          s := Look(s, path, nodes[path]);
          visited := visited + {path};
        } else {
          InvariantSkip(project, excluded, s, listed, visited, items, path);
        }
        items := items - {path};
      }
    }
    if s.violations == {} { CompleteIsClean(project, excluded, s, listed, visited); }
    entries, violations := Listing(s.found), s.violations;
    ToManifestOfListing(s.found);
  }

  /**
    What a violation of an entry says of the manifest: an ancestor is no directory of it, or the link does
    not resolve.
   */
  ghost predicate EntryFault(m: Manifest, path: string, code: ViolationCode)
    requires path in m
  {
    match code
    case InvalidParent => exists q :: Above(q, path) && !(q in m && m[q].DirectoryEntry?)
    case LinkProblem(issue) => m[path].SymlinkEntry? && ResolveLink(path, m[path].target, m) == Failed(issue)
    case _ => false
  }

  lemma IssuesAreFaults(m: Manifest)
    ensures forall v :: v in EntryViolations(m) ==> v.path in m && EntryFault(m, v.path, v.code)
  {
    forall p | p in m && HasBadParent(p, m) ensures EntryFault(m, p, InvalidParent) { BadParentMeans(p, m); }
  }

  /** The scan followed by the checks of the entries, as both a snapshot and a capture begin. */
  method CheckedScan(project: Project, excluded: set<string>) returns (m: Manifest, violations: set<Violation>)
    requires WellFormedTree(project.nodes)
    ensures violations == {} <==> Snapshotable(project, excluded)
    ensures violations == {} ==> m == ManifestOf(project.nodes, excluded)
    ensures forall v :: v in violations ==>
              Explained(project, excluded, v) || (v.path in m && EntryFault(m, v.path, v.code))
    ensures forall p :: p in m ==> Records(project.nodes, p, m[p]) && !Excluded(p, excluded)
  {
    var entries, found := ScanTree(project, excluded);
    m := ToManifest(entries);
    if found == {} { ToManifestOfListing(ManifestOf(project.nodes, excluded)); }
    var issues := EntryViolations(m);
    IssuesAreFaults(m);
    violations := found + issues;
    assert violations != {} <==> found != {} || issues != {};
  }

  /** No link of a snapshot is absolute, empty, or something else on another system. */
  lemma SnapshotLinks(project: Project, excluded: set<string>)
    requires Snapshotable(project, excluded)
    ensures forall p :: p in project.nodes && !Excluded(p, excluded) && project.nodes[p].SymbolicLink? ==>
              var target := project.nodes[p].target;
              && target != "" && target[0] != '/' && '\\' !in target && '\0' !in target
              && !(|target| >= 2 && target[1] == ':')
  {
    var m := ManifestOf(project.nodes, excluded);
    NoEntryViolations(m);
    forall p | p in project.nodes && !Excluded(p, excluded) && project.nodes[p].SymbolicLink?
      ensures SafeTarget(project.nodes[p].target)
    {
      assert p in m && m[p] == SymlinkEntry(project.nodes[p].target);
      assert ResolveLink(p, m[p].target, m).Resolved?;
    }
  }

  /** `snapshot_tree`: the manifest of a tree, or a refusal. */
  method SnapshotTree(project: Project, excluded: set<string>) returns (r: Result<Snapshot>)
    requires WellFormedTree(project.nodes)
    ensures r.Success? <==> Snapshotable(project, excluded)
    ensures r.Success? ==> r.value == MakeSnapshot(ManifestOf(project.nodes, excluded))
    ensures r.Success? ==>
        forall p :: p in project.nodes && !Excluded(p, excluded) && project.nodes[p].SymbolicLink? ==>
              var target := project.nodes[p].target;
              && target != "" && target[0] != '/' && '\\' !in target && '\0' !in target
              && !(|target| >= 2 && target[1] == ':')
  {
    if Snapshotable(project, excluded) { SnapshotLinks(project, excluded); }
    var m, violations := CheckedScan(project, excluded);
    r := if violations != {} then Failure(ViolationFound) else Success(MakeSnapshot(m));
  }
}
