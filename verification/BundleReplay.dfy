/** Replaying a bundle: its checks, and the construction of the tree it describes. */
module BundleReplay {
  import opened Options
  import opened RelativePaths
  import opened TreeModel
  import opened Ordering
  import opened Manifests
  import opened TreeScan
  import opened BundleCapture
  import Totals

  const CHUNK_SIZE := 1_048_576

  /** The path is free and each of its ancestors is a directory, so that no link is followed. */
  ghost predicate Free(nodes: Tree, path: string) {
    path !in nodes && forall q {:trigger Above(q, path)} :: Above(q, path) ==> q in nodes && nodes[q].Directory?
  }

  /** The tree a replay builds. Nothing is ever made below a path that is not a real directory. */
  class DestinationTree {
    var present: bool
    var nodes: Tree

    constructor ()
      ensures !present && nodes == map[]
    {
      present, nodes := false, map[];
    }

    method Create()
      modifies this
      ensures present && nodes == map[]
    {
      present, nodes := true, map[];
    }

    method Remove()
      modifies this
      ensures !present && nodes == map[]
    {
      present, nodes := false, map[];
    }

    method MakeDirectory(path: string)
      requires Free(nodes, path)
      modifies this`nodes
      ensures nodes == old(nodes)[path := Directory(true)]
    {
      nodes := nodes[path := Directory(true)];
    }

    /**
      Copies a file chunk by chunk, with the running size held against the size that was declared, and
      names what it has read. The copy is removed again when the content is not the one that was asked for.
     */
    method CopyVerified(source: Source, path: string, digest: string, size: int) returns (ok: bool)
      requires Free(nodes, path)
      modifies this`nodes
      ensures ok <==> Copies(source.nodes, source.path, digest, size)
      ensures ok ==> nodes == old(nodes)[path := RegularFile(source.nodes[source.path].content, false, true)]
      ensures !ok ==> nodes == old(nodes)
    {
      if size > MAX_FILE_BYTES || source.path !in source.nodes {
        return false;
      }
      var node := source.nodes[source.path];
      if !node.RegularFile? || !node.readable || |node.content| > MAX_FILE_BYTES {
        return false;
      }
      nodes := nodes[path := RegularFile([], false, true)];
      var read, named: seq<byte> := 0, [];
      while read < |node.content|
        invariant 0 <= read <= |node.content| && named == node.content[..read]
        invariant nodes == old(nodes)[path := RegularFile(node.content[..read], false, true)]
      {
        var end := if read + CHUNK_SIZE < |node.content| then read + CHUNK_SIZE else |node.content|;
        var chunk := node.content[read..end];
        if read + |chunk| > size || read + |chunk| > MAX_FILE_BYTES {
          nodes := nodes - {path};
          return false;
        }
        assert node.content[..read] + chunk == node.content[..read + |chunk|];
        nodes := nodes[path := RegularFile(nodes[path].content + chunk, false, true)];
        named := named + chunk;
        read := read + |chunk|;
      }
      assert node.content[..read] == node.content;
      if Sha256(named) != digest || read != size {
        nodes := nodes - {path};
        return false;
      }
      ok := true;
    }

    method SetExecutable(path: string, executable: bool)
      requires path in nodes && nodes[path].RegularFile?
      modifies this`nodes
      ensures nodes == old(nodes)[path := RegularFile(old(nodes)[path].content, executable, old(nodes)[path].readable)]
    {
      nodes := nodes[path := nodes[path].(executable := executable)];
    }

    method MakeLink(path: string, target: string)
      requires Free(nodes, path)
      modifies this`nodes
      ensures nodes == old(nodes)[path := SymbolicLink(target, true)]
    {
      nodes := nodes[path := SymbolicLink(target, true)];
    }
  }

  // The checks of a bundle.

  predicate ValidChange(c: Change) {
    && SafeRelative(c.path)
    && (c.before.Some? || c.after.Some?)
    && (c.before.Some? ==> ValidFileSizes(c.before.value))
    && (c.after.Some? ==> ValidFileSizes(c.after.value))
    && c.before != c.after
  }

  predicate SameBlobSize(c: Change, d: Change) {
    NeedsBlob(c) && NeedsBlob(d) && c.after.value.sha256 == d.after.value.sha256 ==>
        c.after.value.size == d.after.value.size
  }

  ghost predicate SizesAgree(changes: seq<Change>) {
    forall c, d :: c in changes && d in changes ==> SameBlobSize(c, d)
  }

  /** A bundle that is accepted, with the limits in numbers. */
  ghost predicate ValidBundle(b: Bundle) {
    && |b.changes| <= 200_000
    && (forall c :: c in b.changes ==> ValidChange(c))
    && SizesAgree(b.changes)
    && Totals.Total(PayloadSizes(Payloads(b.changes))) <= 33_554_432
    && ChangesAscend(b.changes)
    && |b.violations| <= 200_000
  }

  method SumSizes(sizes: map<string, int>) returns (total: int)
    ensures total == Totals.Total(sizes)
  {
    total := 0;
    var rest := sizes;
    while rest != map[]
      invariant total + Totals.Total(rest) == Totals.Total(sizes)
      decreases |rest|
    {
      var d :| d in rest;
      Totals.TotalRemove(rest, d);
      total := total + rest[d];
      rest := rest - {d};
    }
  }

  /** The sizes seen so far, with that of a further change when its content has not been met: `setdefault`. */
  function WithSize(sizes: map<string, int>, c: Change): map<string, int> {
    if NeedsBlob(c) && c.after.value.sha256 !in sizes then sizes[c.after.value.sha256 := c.after.value.size] else sizes
  }

  lemma WithSizeStep(changes: seq<Change>, c: Change)
    ensures PayloadSizes(Payloads(changes + [c])) == WithSize(PayloadSizes(Payloads(changes)), c)
  {
    assert (changes + [c])[..|changes|] == changes;
  }

  /** In a list whose sizes agree, the first size met for a content is that of every change that brings it. */
  lemma FirstSizeIsEach(changes: seq<Change>, c: Change)
    requires SizesAgree(changes) && c in changes && NeedsBlob(c)
    ensures c.after.value.sha256 in Payloads(changes)
    ensures PayloadSizes(Payloads(changes))[c.after.value.sha256] == c.after.value.size
  {
    NeededHasPayload(changes, c);
    var d := PayloadSource(changes, c.after.value.sha256);
    assert SameBlobSize(c, d);
  }

  /** Comparing with the first size met is comparing with every change before. */
  lemma FirstSizeSuffices(changes: seq<Change>, c: Change)
    requires SizesAgree(changes)
    ensures SizesAgree(changes + [c]) <==>
            (NeedsBlob(c) ==> WithSize(PayloadSizes(Payloads(changes)), c)[c.after.value.sha256] == c.after.value.size)
  {
    if NeedsBlob(c) {
      var digest := c.after.value.sha256;
      if digest in Payloads(changes) {
        var first := PayloadSource(changes, digest);
        assert first in changes + [c] && c in changes + [c];
        assert SizesAgree(changes + [c]) ==> SameBlobSize(first, c);
      }
      forall d | d in changes && NeedsBlob(d) ensures d.after.value.sha256 in Payloads(changes)
          && PayloadSizes(Payloads(changes))[d.after.value.sha256] == d.after.value.size {
        FirstSizeIsEach(changes, d);
      }
    }
  }

  function ChangePaths(changes: seq<Change>): seq<string> {
    seq(|changes|, i requires 0 <= i < |changes| => changes[i].path)
  }

  lemma ChangePathsSorted(changes: seq<Change>)
    ensures ChangesAscend(changes) <==> StrictlySorted(ChangePaths(changes), ByText)
  {
    var paths := ChangePaths(changes);
    if ChangesAscend(changes) {
      forall i, j | 0 <= i < j < |paths| ensures Leq(ByText, paths[i], paths[j]) && paths[i] != paths[j] {
        assert ChangePrecedes(changes[i], changes[j]);
      }
    }
    if StrictlySorted(paths, ByText) {
      forall i, j | 0 <= i < j < |changes| ensures ChangePrecedes(changes[i], changes[j]) {
        assert Leq(ByText, paths[i], paths[j]);
      }
    }
  }

  /** A list is its own sorted listing without repeats exactly when it ascends. */
  lemma SortedListing(paths: seq<string>)
    ensures StrictlySorted(paths, ByText) <==> paths == Sorted((set p | p in paths), ByText)
  {
    var s := set p | p in paths;
    SortedAscends(s, ByText);
    if StrictlySorted(paths, ByText) { SortedUnique(paths, Sorted(s, ByText), ByText); }
  }

  /** What the loop over the changes knows of those it has passed. */
  ghost predicate Passed(changes: seq<Change>, paths: seq<string>, sizes: map<string, int>) {
    && (forall c :: c in changes ==> ValidChange(c)) && SizesAgree(changes)
    && paths == ChangePaths(changes) && sizes == PayloadSizes(Payloads(changes))
  }

  lemma PassedNothing()
    ensures Passed([], [], map[])
  {}

  lemma PassOne(changes: seq<Change>, paths: seq<string>, sizes: map<string, int>, c: Change)
    requires Passed(changes, paths, sizes)
    ensures ValidChange(c) && (NeedsBlob(c) ==> WithSize(sizes, c)[c.after.value.sha256] == c.after.value.size)
            <==> Passed(changes + [c], paths + [c.path], WithSize(sizes, c))
  {
    hide Payloads, ValidChange;
    WithSizeStep(changes, c);
    FirstSizeSuffices(changes, c);
    assert ChangePaths(changes + [c]) == ChangePaths(changes) + [c.path];
    assert c in changes + [c];
  }

  /** A change the loop refuses is in no valid bundle. */
  lemma RefusedIsInvalid(b: Bundle, i: nat, paths: seq<string>, sizes: map<string, int>)
    requires i < |b.changes| && Passed(b.changes[..i], paths, sizes)
    requires !Passed(b.changes[..i] + [b.changes[i]], paths + [b.changes[i].path], WithSize(sizes, b.changes[i]))
    ensures !ValidBundle(b)
  {
    hide ValidChange, Payloads;
    var front := b.changes[..i] + [b.changes[i]];
    WithSizeStep(b.changes[..i], b.changes[i]);
    assert ChangePaths(front) == paths + [b.changes[i].path];
    assert forall c :: c in front ==> c in b.changes;
  }

  /**
    The checks, with the variables of the loop over the changes: the paths met, and the first size met for
    each content that is needed. Comparing with the first size only, and sorting the paths afterwards,
    accepts exactly the bundles whose changes are valid, ascend and agree pair by pair on the sizes.
   */
  method ValidateBundle(b: Bundle) returns (ok: bool)
    ensures ok <==> ValidBundle(b)
  {
    hide ValidChange, Sorted, Payloads, PayloadSizes, ChangePaths, SizesAgree;
    if |b.changes| > MAX_CHANGES {
      return false;
    }
    var paths: seq<string>, blobSizes: map<string, int> := [], map[];
    PassedNothing();
    for i := 0 to |b.changes|
      invariant Passed(b.changes[..i], paths, blobSizes)
    {
      var c := b.changes[i];
      PassOne(b.changes[..i], paths, blobSizes, c);
      ghost var was := blobSizes;
      if !ValidChange(c) {
        RefusedIsInvalid(b, i, paths, was);
        return false;
      }
      blobSizes := WithSize(blobSizes, c);
      if NeedsBlob(c) && blobSizes[c.after.value.sha256] != c.after.value.size {
        RefusedIsInvalid(b, i, paths, was);
        return false;
      }
      paths := paths + [c.path];
      assert b.changes[..i + 1] == b.changes[..i] + [c];
    }
    assert b.changes[..|b.changes|] == b.changes;
    var total := SumSizes(blobSizes);
    ChangePathsSorted(b.changes);
    SortedListing(paths);
    ok := total <= DEFAULT_MAX_BYTES && paths == Sorted((set p | p in paths), ByText) && |b.violations| <= MAX_CHANGES;
  }

  /** The stored files are exactly the contents that are needed. */
  ghost predicate StorageHolds(storage: Tree, payloads: map<string, Payload>) {
    storage.Keys == payloads.Keys && forall d :: d in payloads ==> Copies(storage, d, d, payloads[d].size)
  }

  /** A sum of stored sizes cannot pass the limit when the storage is right. */
  lemma StorageWithinLimit(storage: Tree, payloads: map<string, Payload>, part: map<string, int>, d: string)
    requires StorageHolds(storage, payloads) && Totals.Total(PayloadSizes(payloads)) <= DEFAULT_MAX_BYTES
    requires part.Keys <= payloads.Keys && d in payloads && d !in part
    requires forall e :: e in part ==> storage[e].RegularFile? && part[e] == |storage[e].content|
    ensures |storage[d].content| <= DEFAULT_MAX_BYTES && Totals.Total(part) + |storage[d].content| <= DEFAULT_MAX_BYTES
  {
    var n := |storage[d].content|;
    Totals.TotalAdd(part, d, n);
    Totals.TotalMonotone(part[d := n], PayloadSizes(payloads));
    Totals.TotalMonotone(map[], part);
  }

  method CheckStorage(storage: Tree, payloads: map<string, Payload>) returns (ok: bool)
    requires Totals.Total(PayloadSizes(payloads)) <= DEFAULT_MAX_BYTES
    ensures ok <==> StorageHolds(storage, payloads)
  {
    var items, totalSize := storage.Keys, 0;
    ghost var sizes: map<string, int> := map[];
    while items != {}
      invariant items <= storage.Keys && sizes.Keys == storage.Keys - items
      invariant forall d :: d in sizes ==> d in payloads && storage[d].RegularFile? && sizes[d] == |storage[d].content|
      invariant totalSize == Totals.Total(sizes)
      decreases items
    {
      var name :| name in items;
      items := items - {name};
      if name !in payloads || !storage[name].RegularFile? {
        return false;
      }
      if StorageHolds(storage, payloads) { StorageWithinLimit(storage, payloads, sizes, name); }
      var size := |storage[name].content|;
      if size > DEFAULT_MAX_BYTES || totalSize + size > DEFAULT_MAX_BYTES {
        return false;
      }
      Totals.TotalAdd(sizes, name, size);
      totalSize := totalSize + size;
      sizes := sizes[name := size];
    }
    if storage.Keys != payloads.Keys {
      return false;
    }
    ok := forall d :: d in payloads ==> Copies(storage, d, d, payloads[d].size);
  }

  // The manifest a bundle leads to.

  function Override(m: Manifest, c: Change): Manifest {
    if c.after.None? then m - {c.path} else m[c.path := c.after.value]
  }

  function Overridden(m: Manifest, changes: seq<Change>): Manifest {
    if changes == [] then m
    else Override(Overridden(m, changes[..|changes| - 1]), changes[|changes| - 1])
  }

  lemma OverrideLookup(m: Manifest, c: Change, path: string)
    ensures Lookup(Override(m, c), path) == if path == c.path then c.after else Lookup(m, path)
  {}

  lemma AscendingLast(changes: seq<Change>, c: Change)
    requires ChangesAscend(changes) && changes != [] && c in changes[..|changes| - 1]
    ensures c.path != changes[|changes| - 1].path
  {
    var n := |changes| - 1;
    var k :| 0 <= k < n && changes[k] == c;
    assert ChangePrecedes(changes[k], changes[n]);
  }

  /** A listed path has its entry after the change. */
  lemma {:induction false} OverriddenAt(m: Manifest, changes: seq<Change>, c: Change)
    requires ChangesAscend(changes) && c in changes
    ensures Lookup(Overridden(m, changes), c.path) == c.after
  {
    var n := |changes| - 1;
    OverrideLookup(Overridden(m, changes[..n]), changes[n], c.path);
    if c != changes[n] {
      assert changes == changes[..n] + [changes[n]];
      AscendingLast(changes, c);
      OverriddenAt(m, changes[..n], c);
    }
  }

  /** Any other path keeps its entry. */
  lemma {:induction false} OverriddenElsewhere(m: Manifest, changes: seq<Change>, path: string)
    requires forall c :: c in changes ==> c.path != path
    ensures Lookup(Overridden(m, changes), path) == Lookup(m, path)
  {
    if changes != [] {
      var n := |changes| - 1;
      OverrideLookup(Overridden(m, changes[..n]), changes[n], path);
      assert changes[n] in changes;
      OverriddenElsewhere(m, changes[..n], path);
    }
  }

  // The construction.

  datatype Source = Source(nodes: Tree, path: string)

  /** Where the content of a file comes from: the stored contents for a changed path, else the seed. */
  function SourceOf(path: string, digest: string, changed: set<string>, storage: Tree, seedNow: Tree): Source {
    if path in changed && digest in storage then Source(storage, digest) else Source(seedNow, path)
  }

  predicate Replayable(path: string, entry: Entry, seedEntries: Manifest, changed: set<string>, storage: Tree,
      seedNow: Tree)
    requires entry.FileEntry?
  {
    var source := SourceOf(path, entry.sha256, changed, storage, seedNow);
    && Copies(source.nodes, source.path, entry.sha256, entry.size)
    && (path in seedEntries && seedEntries[path].FileEntry? ==> path in seedNow && seedNow[path].RegularFile?)
  }

  ghost predicate AllReplayable(final: Manifest, seedEntries: Manifest, changed: set<string>, storage: Tree,
      seedNow: Tree) {
    forall p :: p in final && final[p].FileEntry? ==> Replayable(p, final[p], seedEntries, changed, storage, seedNow)
  }

  predicate Usable(node: Node) {
    match node
    case Directory(listable) => listable
    case RegularFile(_, _, readable) => readable
    case SymbolicLink(_, readable) => readable
    case _ => false
  }

  /** The nodes are those of the manifest on `done`, and nothing else. */
  ghost predicate Built(nodes: Tree, m: Manifest, done: set<string>) {
    nodes.Keys == done <= m.Keys && forall p :: p in done ==> BuiltAt(nodes[p], m[p])
  }

  predicate BuiltAt(node: Node, entry: Entry) {
    EntryOf(node) == Some(entry) && Usable(node)
  }

  function Directories(m: Manifest): set<string> {
    set p | p in m && m[p].DirectoryEntry?
  }

  function Files(m: Manifest): set<string> {
    set p | p in m && m[p].FileEntry?
  }

  function Links(m: Manifest): set<string> {
    set p | p in m && m[p].SymlinkEntry?
  }

  ghost predicate Parented(m: Manifest) {
    forall p, q {:trigger Above(q, p)} :: p in m && Above(q, p) ==> q in m && m[q].DirectoryEntry?
  }

  lemma {:induction false} DepthAppend(a: string, b: string)
    ensures Depth(a + b) == Depth(a) + Depth(b)
  {
    if a == [] {
      assert a + b == b;
    } else {
      DepthAppend(a[1..], b);
      assert (a + b)[1..] == a[1..] + b;
    }
  }

  /** The depth of a path is the number of names above its last. */
  lemma {:induction false} DepthMeans(path: string)
    ensures |Components(path)| == Depth(path) + 1
  {
    if path != "" { DepthMeans(path[1..]); }
  }

  /** Sorted by depth, a directory comes after each of its ancestors. */
  lemma ParentsMadeFirst(m: Manifest, i: nat, q: string)
    requires Parented(m) && i < |Directories(m)|
    requires Above(q, Sorted(Directories(m), ByDepth)[i])
    ensures q in Taken(Directories(m), ByDepth, i)
  {
    var path := Sorted(Directories(m), ByDepth)[i];
    assert path in Directories(m) by { TakenStep(Directories(m), ByDepth, i); }
    var rest := path[|q| + 1..];
    assert path == (q + "/") + rest;
    DepthAppend(q + "/", rest);
    DepthAppend(q, "/");
    SortedBefore(Directories(m), ByDepth, i, q);
  }

  lemma BuiltMore(nodes: Tree, m: Manifest, done: set<string>, path: string, node: Node)
    requires Built(nodes, m, done) && path in m && path !in done && BuiltAt(node, m[path])
    ensures Built(nodes[path := node], m, done + {path})
  {}

  lemma BuiltFree(nodes: Tree, m: Manifest, done: set<string>, path: string)
    requires Built(nodes, m, done) && Parented(m) && path in m && path !in done
    requires forall q {:trigger Above(q, path)} :: Above(q, path) ==> q in done
    ensures Free(nodes, path)
  {
    forall q | Above(q, path) ensures q in nodes && nodes[q].Directory? { assert BuiltAt(nodes[q], m[q]); }
  }

  /** What has been built when a loop over a sorted listing has done `i` rounds on top of `base`. */
  ghost predicate Stage(nodes: Tree, m: Manifest, base: set<string>, s: set<string>, o: Order, i: nat)
    requires i <= |s|
  {
    Built(nodes, m, base + Taken(s, o, i))
  }

  lemma StageStart(nodes: Tree, m: Manifest, base: set<string>, s: set<string>, o: Order)
    requires Built(nodes, m, base)
    ensures Stage(nodes, m, base, s, o, 0)
  {
    TakenEnds(s, o);
    assert base + {} == base;
  }

  lemma StageEnd(nodes: Tree, m: Manifest, base: set<string>, s: set<string>, o: Order, whole: set<string>)
    requires Stage(nodes, m, base, s, o, |s|) && whole == base + s
    ensures Built(nodes, m, whole)
  {
    TakenEnds(s, o);
  }

  /** What a loop of the construction may rely on: files and links come after all directories. */
  ghost predicate Plan(m: Manifest, base: set<string>, s: set<string>, o: Order) {
    && Parented(m) && s <= m.Keys && base !! s
    && ((base == {} && s == Directories(m) && o == ByDepth) || Directories(m) <= base)
  }

  lemma PlansOf(m: Manifest)
    requires Parented(m)
    ensures Plan(m, {}, Directories(m), ByDepth)
    ensures Plan(m, Directories(m), Files(m), ByText)
    ensures Plan(m, Directories(m) + Files(m), Links(m), ByText)
  {}

  lemma BuiltNothing(m: Manifest)
    ensures Built(map[], m, {})
  {}

  /** The path whose turn it is stands in a directory that is there. */
  lemma StageFree(nodes: Tree, m: Manifest, base: set<string>, s: set<string>, o: Order, i: nat)
    requires i < |s| && Plan(m, base, s, o) && Stage(nodes, m, base, s, o, i)
    ensures Sorted(s, o)[i] in s && Free(nodes, Sorted(s, o)[i])
  {
    var path, done := Sorted(s, o)[i], base + Taken(s, o, i);
    TakenStep(s, o, i);
    forall q | Above(q, path) ensures q in done {
      assert q in Directories(m);
      if !(Directories(m) <= base) { ParentsMadeFirst(m, i, q); }
    }
    BuiltFree(nodes, m, done, path);
  }

  /** Building it is the next stage. */
  lemma StageTurn(nodes: Tree, m: Manifest, base: set<string>, s: set<string>, o: Order, i: nat, node: Node)
    requires i < |s| && Plan(m, base, s, o) && Stage(nodes, m, base, s, o, i)
    requires Sorted(s, o)[i] in m && BuiltAt(node, m[Sorted(s, o)[i]])
    ensures Stage(nodes[Sorted(s, o)[i] := node], m, base, s, o, i + 1)
  {
    hide Sorted, Built;
    var path, done := Sorted(s, o)[i], base + Taken(s, o, i);
    TakenStep(s, o, i);
    assert base + Taken(s, o, i + 1) == done + {path};
    BuiltMore(nodes, m, done, path, node);
  }

  lemma UpdateTwice(nodes: Tree, path: string, a: Node, b: Node)
    ensures nodes[path := a][path := b] == nodes[path := b]
  {}

  method MakeDirectories(dest: DestinationTree, final: Manifest)
    requires dest.nodes == map[] && Parented(final)
    modifies dest`nodes
    ensures Built(dest.nodes, final, Directories(final))
  {
    hide Plan, Stage, Built, Sorted;
    PlansOf(final);
    var dirs := Directories(final);
    var order := Sorted(dirs, ByDepth);
    BuiltNothing(final);
    StageStart(dest.nodes, final, {}, dirs, ByDepth);
    for i := 0 to |order|
      invariant Stage(dest.nodes, final, {}, dirs, ByDepth, i)
    {
      StageFree(dest.nodes, final, {}, dirs, ByDepth, i);
      StageTurn(dest.nodes, final, {}, dirs, ByDepth, i, Directory(true));
      dest.MakeDirectory(order[i]);
    }
    StageEnd(dest.nodes, final, {}, dirs, ByDepth, dirs);
  }

  /** One file: its content from where it is kept, and its mode. */
  method CopyFile(dest: DestinationTree, path: string, entry: Entry, seedEntries: Manifest, changed: set<string>,
      storage: Tree, seedNow: Tree)
    returns (ok: bool, ghost node: Node)
    requires entry.FileEntry? && Free(dest.nodes, path)
    modifies dest`nodes
    ensures ok <==> Replayable(path, entry, seedEntries, changed, storage, seedNow)
    ensures ok ==> BuiltAt(node, entry) && dest.nodes == old(dest.nodes)[path := node]
  {
    node := Unavailable;
    var source := SourceOf(path, entry.sha256, changed, storage, seedNow);
    var copied := dest.CopyVerified(source, path, entry.sha256, entry.size);
    if !copied {
      return false, node;
    }
    if path in seedEntries && seedEntries[path].FileEntry? && !(path in seedNow && seedNow[path].RegularFile?) {
      return false, node;
    }
    node := RegularFile(source.nodes[source.path].content, entry.executable, true);
    UpdateTwice(old(dest.nodes), path, RegularFile(node.content, false, true), node);
    dest.SetExecutable(path, entry.executable);
    ok := true;
  }

  method CopyFiles(dest: DestinationTree, final: Manifest, seedEntries: Manifest, changed: set<string>, storage: Tree,
      seedNow: Tree)
    returns (ok: bool)
    requires Built(dest.nodes, final, Directories(final)) && Parented(final)
    modifies dest`nodes
    ensures ok <==> AllReplayable(final, seedEntries, changed, storage, seedNow)
    ensures ok ==> Built(dest.nodes, final, Directories(final) + Files(final))
  {
    hide Plan, Stage, Built, Sorted, Replayable;
    PlansOf(final);
    var files := Files(final);
    var order := Sorted(files, ByText);
    ghost var dirs := Directories(final);
    StageStart(dest.nodes, final, dirs, files, ByText);
    TakenEnds(files, ByText);
    for i := 0 to |order|
      invariant Stage(dest.nodes, final, dirs, files, ByText, i)
      invariant forall p :: p in Taken(files, ByText, i) ==>
          Replayable(p, final[p], seedEntries, changed, storage, seedNow)
    {
      var path := order[i];
      StageFree(dest.nodes, final, dirs, files, ByText, i);
      TakenStep(files, ByText, i);
      ghost var was := dest.nodes;
      ghost var node;
      ok, node := CopyFile(dest, path, final[path], seedEntries, changed, storage, seedNow);
      if !ok {
        return;
      }
      StageTurn(was, final, dirs, files, ByText, i, node);
    }
    StageEnd(dest.nodes, final, dirs, files, ByText, dirs + files);
    ok := true;
  }

  method MakeLinks(dest: DestinationTree, final: Manifest)
    requires Built(dest.nodes, final, Directories(final) + Files(final)) && Parented(final)
    modifies dest`nodes
    ensures Built(dest.nodes, final, final.Keys)
  {
    hide Plan, Stage, Built, Sorted;
    PlansOf(final);
    var links := Links(final);
    var order := Sorted(links, ByText);
    ghost var base := Directories(final) + Files(final);
    StageStart(dest.nodes, final, base, links, ByText);
    for i := 0 to |order|
      invariant Stage(dest.nodes, final, base, links, ByText, i)
    {
      StageFree(dest.nodes, final, base, links, ByText, i);
      StageTurn(dest.nodes, final, base, links, ByText, i, SymbolicLink(final[order[i]].target, true));
      dest.MakeLink(order[i], final[order[i]].target);
    }
    StageEnd(dest.nodes, final, base, links, ByText, final.Keys);
  }

  /** The construction: directories by depth, then files, then links. */
  method MaterializeTree(dest: DestinationTree, final: Manifest, seedEntries: Manifest, changed: set<string>,
      storage: Tree, seedNow: Tree)
    returns (ok: bool)
    requires dest.nodes == map[] && Parented(final)
    modifies dest`nodes
    ensures ok <==> AllReplayable(final, seedEntries, changed, storage, seedNow)
    ensures ok ==> Built(dest.nodes, final, final.Keys)
  {
    MakeDirectories(dest, final);
    ok := CopyFiles(dest, final, seedEntries, changed, storage, seedNow);
    if ok {
      MakeLinks(dest, final);
    }
  }

  function PathsOf(changes: seq<Change>): set<string> {
    set c | c in changes :: c.path
  }

  ghost predicate NoneExcluded(m: Manifest, excluded: set<string>) {
    forall p :: p in m ==> !Excluded(p, excluded)
  }

  ghost predicate ValidManifest(m: Manifest) {
    && |m| <= MAX_ENTRIES
    && (forall p :: p in m ==> SafeRelative(p) && ValidFileSizes(m[p]))
    && Totals.Total(SizesOf(m)) <= MAX_SCAN_BYTES
    && EntryViolations(m) == {}
  }

  lemma ValidSnapshotIff(m: Manifest)
    ensures ValidSnapshot(MakeSnapshot(m)) <==> ValidManifest(m)
  {
    ValidSnapshotOf(m);
    forall p | p in m ensures SafeRelative(p) <==> PlainPath(p) { SafeRelativeMeans(p); }
  }

  lemma ValidIsParented(m: Manifest)
    requires EntryViolations(m) == {}
    ensures Parented(m)
  {
    NoEntryViolations(m);
    forall p, q | p in m && Above(q, p) ensures q in m && m[q].DirectoryEntry? { BadParentMeans(p, m); }
  }

  /** What has been built is the tree of the manifest. */
  lemma BuiltManifest(nodes: Tree, m: Manifest, excluded: set<string>)
    requires Built(nodes, m, m.Keys) && NoneExcluded(m, excluded)
    ensures ManifestOf(nodes, excluded) == m && Live(nodes, excluded) == m.Keys
  {
    forall p | p in m ensures EntryOf(nodes[p]) == Some(m[p]) { assert BuiltAt(nodes[p], m[p]); }
  }

  lemma BuiltWellFormed(nodes: Tree, m: Manifest)
    requires Built(nodes, m, m.Keys) && Parented(m) && forall p :: p in m ==> SafeRelative(p)
    ensures WellFormedTree(nodes)
  {
    forall p, q | p in nodes && Above(q, p) ensures q in nodes && nodes[q].Directory? {
      assert BuiltAt(nodes[q], m[q]);
    }
    forall p | p in nodes ensures forall part :: part in Components(p) ==> part !in ["", ".", ".."] {
      assert SafeRelative(p);
    }
  }

  /** Its snapshot is accepted and is that of the manifest. */
  lemma BuiltSnapshotable(nodes: Tree, m: Manifest, excluded: set<string>)
    requires Built(nodes, m, m.Keys) && NoneExcluded(m, excluded) && ValidManifest(m)
    ensures Snapshotable(Project(RootDirectory(true), nodes), excluded)
  {
    BuiltManifest(nodes, m, excluded);
    forall p | p in m ensures Scannable(p, nodes[p]) { assert BuiltAt(nodes[p], m[p]); }
  }

  ghost predicate MatchesSeed(changes: seq<Change>, seedEntries: Manifest, protected: set<string>) {
    forall c :: c in changes ==> ChangeAllowed(c, seedEntries, protected)
  }

  predicate ChangeAllowed(c: Change, seedEntries: Manifest, protected: set<string>) {
    c.before == Lookup(seedEntries, c.path) && !AffectsProtected(c.path, protected)
  }

  /** Exactly when a replay comes to its destination. */
  ghost predicate Acceptable(seed: Project, bundle: Bundle, storage: Tree, protected: set<string>,
      excluded: set<string>)
  {
    var seedEntries := ManifestOf(seed.nodes, excluded);
    var final := Overridden(seedEntries, bundle.changes);
    && TrustedPaths(protected, excluded)
    && ValidBundle(bundle) && bundle.violations == {}
    && Snapshotable(seed, excluded)
    && (forall p :: p in PathsOf(bundle.changes) ==> !Excluded(p, excluded))
    && bundle.seedDigest == DigestOf(Listing(seedEntries))
    && MatchesSeed(bundle.changes, seedEntries, protected)
    && ValidSnapshot(MakeSnapshot(final))
    && bundle.finalDigest == DigestOf(Listing(final))
    && StorageHolds(storage, Payloads(bundle.changes))
  }

  /** Exactly when a replay goes through. `seedNow` is the seed tree at the time of copying. */
  ghost predicate Accepts(seed: Project, seedNow: Tree, bundle: Bundle, storage: Tree, protected: set<string>,
      excluded: set<string>) {
    var seedEntries := ManifestOf(seed.nodes, excluded);
    && Acceptable(seed, bundle, storage, protected, excluded)
    && AllReplayable(Overridden(seedEntries, bundle.changes), seedEntries, PathsOf(bundle.changes), storage, seedNow)
  }

  lemma OverriddenNotExcluded(m: Manifest, changes: seq<Change>, excluded: set<string>)
    requires NoneExcluded(m, excluded) && ChangesAscend(changes)
    requires forall p :: p in PathsOf(changes) ==> !Excluded(p, excluded)
    ensures NoneExcluded(Overridden(m, changes), excluded)
  {
    forall p | p in Overridden(m, changes) ensures !Excluded(p, excluded) {
      if p !in PathsOf(changes) { OverriddenElsewhere(m, changes, p); }
    }
  }

  /** The loop over the changes: refuses one the seed does not match or that touches a protected path. */
  method ApplyChanges(seedEntries: Manifest, changes: seq<Change>, protected: set<string>) returns (r: Result<Manifest>)
    ensures r.Success? <==> MatchesSeed(changes, seedEntries, protected)
    ensures r.Success? ==> r.value == Overridden(seedEntries, changes)
  {
    var final := seedEntries;
    for i := 0 to |changes|
      invariant final == Overridden(seedEntries, changes[..i])
      invariant MatchesSeed(changes[..i], seedEntries, protected)
    {
      var c := changes[i];
      assert changes[..i + 1] == changes[..i] + [c];
      assert MatchesSeed(changes, seedEntries, protected) ==> ChangeAllowed(c, seedEntries, protected) by {
        assert c in changes;
      }
      if c.before != Lookup(seedEntries, c.path) {
        return Failure(WrongBefore);
      }
      if AffectsProtected(c.path, protected) {
        return Failure(ProtectedChange);
      }
      final := Override(final, c);
    }
    assert changes[..|changes|] == changes;
    r := Success(final);
  }

  /** The checks that come before the destination is touched. */
  method PlanReplay(seed: Project, bundle: Bundle, storage: Tree, protected: set<string>, excluded: set<string>)
    returns (r: Result<(Manifest, Manifest)>)
    requires WellFormedTree(seed.nodes)
    ensures var seedEntries := ManifestOf(seed.nodes, excluded);
            r.Success? ==>
              && r.value == (seedEntries, Overridden(seedEntries, bundle.changes))
              && ValidManifest(r.value.1) && NoneExcluded(r.value.1, excluded)
    ensures r.Success? <==> Acceptable(seed, bundle, storage, protected, excluded)
  {
    hide TrustedPaths, Snapshotable, MatchesSeed, ValidSnapshot, ValidManifest, StorageHolds, Excluded;
    if !TrustedPaths(protected, excluded) {
      return Failure(UnsafeTrustedPath);
    }
    var valid := ValidateBundle(bundle);
    if !valid {
      return Failure(InvalidBundle);
    }
    if bundle.violations != {} {
      return Failure(ViolationFound);
    }
    var snapshot := SnapshotTree(seed, excluded);
    if snapshot.Failure? {
      return Failure(snapshot.error);
    }
    if exists p :: p in PathsOf(bundle.changes) && Excluded(p, excluded) {
      return Failure(ExcludedEntry);
    }
    if bundle.seedDigest != snapshot.value.digest {
      return Failure(WrongSeed);
    }
    var seedEntries := ToManifest(snapshot.value.entries);
    ToManifestOfListing(ManifestOf(seed.nodes, excluded));
    var changed := ApplyChanges(seedEntries, bundle.changes, protected);
    if changed.Failure? {
      return Failure(changed.error);
    }
    var final := changed.value;
    if !ValidSnapshot(MakeSnapshot(final)) {
      return Failure(InvalidSnapshot);
    }
    if bundle.finalDigest != DigestOf(Listing(final)) {
      return Failure(WrongFinal);
    }
    var stored := CheckStorage(storage, Payloads(bundle.changes));
    if !stored {
      return Failure(BadBlobStorage);
    }
    ValidSnapshotIff(final);
    OverriddenNotExcluded(seedEntries, bundle.changes, excluded);
    r := Success((seedEntries, final));
  }

  /**
    Replays a bundle. It goes through exactly when the bundle is acceptable, and then the destination
    is the seed with exactly the listed changes; when it does not, no destination is left behind.
   */
  method ApplyBundle(dest: DestinationTree, seed: Project, seedNow: Tree, bundle: Bundle, storage: Tree,
      protected: set<string>, excluded: set<string>)
    returns (r: Result<Snapshot>)
    requires WellFormedTree(seed.nodes)
    modifies dest
    ensures r.Success? <==> !old(dest.present) && Accepts(seed, seedNow, bundle, storage, protected, excluded)
    ensures r.Success? ==>
              var final := Overridden(ManifestOf(seed.nodes, excluded), bundle.changes);
              && dest.present && WellFormedTree(dest.nodes) && Built(dest.nodes, final, final.Keys)
              && ManifestOf(dest.nodes, excluded) == final && r.value == MakeSnapshot(final)
    ensures r.Failure? ==> if old(dest.present) then unchanged(dest) else !dest.present
  {
    hide Acceptable, AllReplayable, Built, WellFormedTree, ManifestOf, Overridden, MakeSnapshot, Snapshotable;
    if dest.present {
      return Failure(DestinationExists);
    }
    var plan := PlanReplay(seed, bundle, storage, protected, excluded);
    if plan.Failure? {
      return Failure(plan.error);
    }
    var (seedEntries, final) := plan.value;
    ValidIsParented(final);
    dest.Create();
    var made := MaterializeTree(dest, final, seedEntries, PathsOf(bundle.changes), storage, seedNow);
    if !made {
      dest.Remove();
      return Failure(CopyFailed);
    }
    BuiltManifest(dest.nodes, final, excluded);
    BuiltWellFormed(dest.nodes, final);
    BuiltSnapshotable(dest.nodes, final, excluded);
    r := SnapshotTree(Project(RootDirectory(true), dest.nodes), excluded);
  }
}
