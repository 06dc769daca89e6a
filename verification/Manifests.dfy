/** Manifests of a tree: what a scan must find, how entries are listed, and which manifests are valid. */
module Manifests {
  import opened RelativePaths
  import opened TreeModel
  import opened LinkResolution
  import opened Ordering
  import Totals

  datatype ViolationCode =
    | RootUnavailableFound | RootNotDirectoryFound | DirectoryUnavailable | EntryLimit | UnsafePath
    | EntryUnavailable | FileSizeLimit | ScanSizeLimit | FileUnavailable | LinkUnavailable | SpecialFileFound
    | InvalidParent | LinkProblem(issue: LinkIssue) | ProtectedPath | PayloadLimit | BlobCaptureFailed

  datatype Violation = Violation(code: ViolationCode, path: string)

  datatype Listed = Listed(path: string, entry: Entry)

  /** The digest of a list of entries. Two lists have one digest only when they are equal. */
  datatype Digest = DigestOf(entries: seq<Listed>) | OtherDigest(hex: string)

  datatype Snapshot = Snapshot(entries: seq<Listed>, digest: Digest)

  datatype SnapshotError =
    | BadMaxBytes | UnsafeTrustedPath | ExcludedOverlapsProtected | InvalidSnapshot | ExcludedEntry
    | DestinationExists | InvalidBundle | ViolationFound | WrongSeed | WrongBefore | ProtectedChange
    | WrongFinal | BadBlobStorage | CopyFailed

  datatype Result<+T> = Success(value: T) | Failure(error: SnapshotError)

  /** The entries of a manifest in path order. */
  function Listing(m: Manifest): (r: seq<Listed>)
    ensures |r| == |m|
  {
    var paths := Sorted(m.Keys, ByText);
    assert |m.Keys| == |m|;
    assert forall i :: 0 <= i < |paths| ==> paths[i] in paths;
    seq(|paths|, i requires 0 <= i < |paths| => Listed(paths[i], m[paths[i]]))
  }

  /** The dictionary of a list of entries, keyed by path. */
  function ToManifest(entries: seq<Listed>): Manifest {
    if entries == [] then map[]
    else
      var last := entries[|entries| - 1];
      ToManifest(entries[..|entries| - 1])[last.path := last.entry]
  }

  function MakeSnapshot(m: Manifest): Snapshot {
    Snapshot(Listing(m), DigestOf(Listing(m)))
  }

  function TotalBytes(entries: seq<Listed>): int {
    if entries == [] then 0
    else TotalBytes(entries[..|entries| - 1]) + SizeOf(entries[|entries| - 1].entry)
  }

  function SizesOf(m: Manifest): map<string, int> {
    map p | p in m :: SizeOf(m[p])
  }

  function Paths(entries: seq<Listed>): seq<string> {
    seq(|entries|, i requires 0 <= i < |entries| => entries[i].path)
  }

  predicate HasBadParent(path: string, m: Manifest) {
    exists q :: q in Ancestors(path) && !(q in m && m[q].DirectoryEntry?)
  }

  function EntryViolations(m: Manifest): set<Violation> {
    (set p | p in m && HasBadParent(p, m) :: Violation(InvalidParent, p)) +
    (set p | p in m && m[p].SymlinkEntry? && ResolveLink(p, m[p].target, m).Failed? ::
       Violation(LinkProblem(ResolveLink(p, m[p].target, m).issue), p))
  }

  predicate ValidFileSizes(entry: Entry) {
    entry.FileEntry? ==> 0 <= entry.size <= MAX_FILE_BYTES
  }

  predicate ValidEntries(entries: seq<Listed>) {
    forall listed :: listed in entries ==> SafeRelative(listed.path) && ValidFileSizes(listed.entry)
  }

  /** Paths are in order and none is repeated. */
  predicate Ascending(entries: seq<Listed>) {
    forall i, j :: 0 <= i < j < |entries| ==> Precedes(entries[i], entries[j])
  }

  predicate Precedes(a: Listed, b: Listed) {
    TextLeq(a.path, b.path) && a.path != b.path
  }

  /** The checks of a manifest that comes from outside, or that a replay is about to build. */
  predicate ValidSnapshot(s: Snapshot) {
    && |s.entries| <= MAX_ENTRIES
    && ValidEntries(s.entries)
    && TotalBytes(s.entries) <= MAX_SCAN_BYTES
    && Ascending(s.entries)
    && EntryViolations(ToManifest(s.entries)) == {}
    && s.digest == DigestOf(s.entries)
  }

  // What a scan of a tree must find.

  ghost function Live(nodes: Tree, excluded: set<string>): set<string> {
    set p | p in nodes && !Excluded(p, excluded)
  }

  ghost function ManifestOf(nodes: Tree, excluded: set<string>): Manifest {
    map p | p in nodes && !Excluded(p, excluded) && EntryOf(nodes[p]).Some? :: EntryOf(nodes[p]).value
  }

  predicate Scannable(path: string, node: Node) {
    && SafeRelative(path)
    && match node
       case Directory(listable) => listable
       case RegularFile(content, _, readable) => readable && |content| <= MAX_FILE_BYTES
       case SymbolicLink(_, readable) => readable
       case SpecialFile => false
       case Unavailable => false
  }

  /** A tree whose scan has nothing to complain about. */
  ghost predicate Clean(project: Project, excluded: set<string>) {
    && project.root == RootDirectory(true)
    && (forall p :: p in Live(project.nodes, excluded) ==> Scannable(p, project.nodes[p]))
    && |Live(project.nodes, excluded)| <= MAX_ENTRIES
    && Totals.Total(SizesOf(ManifestOf(project.nodes, excluded))) <= MAX_SCAN_BYTES
  }

  /** A tree that `snapshot_tree` accepts. */
  ghost predicate Snapshotable(project: Project, excluded: set<string>) {
    Clean(project, excluded) && EntryViolations(ManifestOf(project.nodes, excluded)) == {}
  }

  // Listings and dictionaries.

  lemma {:induction false} ToManifestMember(entries: seq<Listed>)
    ensures forall p :: p in ToManifest(entries) <==> p in Paths(entries)
    ensures forall p :: p in ToManifest(entries) ==> Listed(p, ToManifest(entries)[p]) in entries
  {
    if entries != [] {
      var n := |entries| - 1;
      ToManifestMember(entries[..n]);
      assert Paths(entries) == Paths(entries[..n]) + [entries[n].path];
    }
  }

  lemma ListingAt(m: Manifest)
    ensures var paths := Sorted(m.Keys, ByText);
            && |Listing(m)| == |paths|
            && forall i {:trigger paths[i]} {:trigger Listing(m)[i]} :: 0 <= i < |paths| ==>
                 paths[i] in m && Listing(m)[i] == Listed(paths[i], m[paths[i]])
  {
    hide Sorted;
    var paths := Sorted(m.Keys, ByText);
    forall i | 0 <= i < |paths| ensures paths[i] in m { assert paths[i] in paths; }
  }

  lemma ListingElements(m: Manifest)
    ensures Paths(Listing(m)) == Sorted(m.Keys, ByText)
    ensures forall l :: l in Listing(m) <==> l.path in m && m[l.path] == l.entry
  {
    hide Sorted, Listing;
    var paths := Sorted(m.Keys, ByText);
    ListingAt(m);
    forall l: Listed | l.path in m && m[l.path] == l.entry ensures l in Listing(m) {
      assert l.path in paths;
      var i :| 0 <= i < |paths| && paths[i] == l.path;
      assert Listing(m)[i] == l;
    }
  }

  lemma ToManifestOfListing(m: Manifest)
    ensures ToManifest(Listing(m)) == m
  {
    hide Sorted, Listing, ToManifest, Paths;
    ListingElements(m);
    ToManifestMember(Listing(m));
    var back := ToManifest(Listing(m));
    forall p ensures p in back <==> p in m {
      assert p in Paths(Listing(m)) <==> p in Sorted(m.Keys, ByText);
    }
    forall p | p in m ensures back[p] == m[p] {
      assert Listed(p, back[p]) in Listing(m);
    }
  }

  lemma AscendingPaths(entries: seq<Listed>)
    requires Ascending(entries)
    ensures StrictlySorted(Paths(entries), ByText)
  {
    forall i, j | 0 <= i < j < |entries|
      ensures Leq(ByText, Paths(entries)[i], Paths(entries)[j]) && Paths(entries)[i] != Paths(entries)[j]
    {
      assert Precedes(entries[i], entries[j]);
    }
  }

  lemma ListingOfToManifest(entries: seq<Listed>)
    requires Ascending(entries)
    ensures Listing(ToManifest(entries)) == entries
  {
    hide ToManifest, Sorted, Listing, Ascending;
    var m := ToManifest(entries);
    ToManifestMember(entries);
    ListingElements(m);
    AscendingPaths(entries);
    SortedAscends(m.Keys, ByText);
    SortedUnique(Paths(entries), Sorted(m.Keys, ByText), ByText);
    var r := Listing(m);
    assert |r| == |Paths(r)| == |entries|;
    forall i | 0 <= i < |entries| ensures r[i] == entries[i] {
      assert Paths(r)[i] == Paths(entries)[i];
      assert r[i] in r;
      EntryOfPath(entries, i);
    }
  }

  lemma AscendingDistinct(entries: seq<Listed>, i: nat, k: nat)
    requires Ascending(entries) && i < |entries| && k < |entries|
    ensures i != k ==> entries[i].path != entries[k].path
  {
    if i < k {
      assert Precedes(entries[i], entries[k]);
    } else if k < i {
      assert Precedes(entries[k], entries[i]);
    }
  }

  lemma EntryOfPath(entries: seq<Listed>, i: nat)
    requires Ascending(entries) && i < |entries|
    ensures entries[i].path in ToManifest(entries) && ToManifest(entries)[entries[i].path] == entries[i].entry
  {
    var p := entries[i].path;
    ToManifestMember(entries);
    assert Paths(entries)[i] == p;
    var l := Listed(p, ToManifest(entries)[p]);
    var k :| 0 <= k < |entries| && entries[k] == l;
    AscendingDistinct(entries, i, k);
  }

  lemma {:induction false} TotalOfDistinct(entries: seq<Listed>)
    requires forall i, j :: 0 <= i < j < |entries| ==> entries[i].path != entries[j].path
    ensures TotalBytes(entries) == Totals.Total(SizesOf(ToManifest(entries)))
  {
    if entries == [] {
      assert SizesOf(map[]) == map[];
    } else {
      var n := |entries| - 1;
      var front, last := entries[..n], entries[n];
      var before := ToManifest(front);
      TotalOfDistinct(front);
      ToManifestMember(front);
      assert last.path !in Paths(front);
      SizesOfUpdate(before, last.path, last.entry);
      Totals.TotalAdd(SizesOf(before), last.path, SizeOf(last.entry));
    }
  }

  lemma SizesOfUpdate(m: Manifest, p: string, e: Entry)
    ensures SizesOf(m[p := e]) == SizesOf(m)[p := SizeOf(e)]
  {}

  lemma ListingAscending(m: Manifest)
    ensures Ascending(Listing(m))
    ensures TotalBytes(Listing(m)) == Totals.Total(SizesOf(m))
  {
    var r, paths := Listing(m), Sorted(m.Keys, ByText);
    SortedAscends(m.Keys, ByText);
    forall i, j | 0 <= i < j < |r| ensures Precedes(r[i], r[j]) {
      assert Leq(ByText, paths[i], paths[j]);
    }
    TotalOfDistinct(r);
    ToManifestOfListing(m);
  }

  lemma ListingValidEntries(m: Manifest)
    ensures ValidEntries(Listing(m)) <==> forall p :: p in m ==> SafeRelative(p) && ValidFileSizes(m[p])
  {
    ListingElements(m);
    if ValidEntries(Listing(m)) {
      forall p | p in m ensures SafeRelative(p) && ValidFileSizes(m[p]) { assert Listed(p, m[p]) in Listing(m); }
    }
  }

  /** Which manifests give a valid snapshot, said of the manifest, with the limits in numbers. */
  lemma ValidSnapshotOf(m: Manifest)
    ensures ValidSnapshot(MakeSnapshot(m)) <==>
            && |m| <= 100_000
            && (forall p :: p in m ==> PlainPath(p) && (m[p].FileEntry? ==> 0 <= m[p].size <= 134_217_728))
            && Totals.Total(SizesOf(m)) <= 1_073_741_824
            && EntryViolations(m) == {}
  {
    forall p ensures SafeRelative(p) <==> PlainPath(p) { SafeRelativeMeans(p); }
    ListingAscending(m);
    ListingValidEntries(m);
    ToManifestOfListing(m);
  }

  // What the entry checks mean.

  /** The parent check is the condition that every proper ancestor is a directory. */
  lemma BadParentMeans(path: string, m: Manifest)
    ensures !HasBadParent(path, m) <==> forall q {:trigger Above(q, path)} :: Above(q, path) ==>
        q in m && m[q].DirectoryEntry?
  {
    forall q: string ensures q in Ancestors(path) <==> Above(q, path) {
      AncestorsAreSlashPrefixes(path, q);
    }
    if forall q {:trigger Above(q, path)} :: Above(q, path) ==> q in m && m[q].DirectoryEntry? {
      forall q | q in Ancestors(path) ensures q in m && m[q].DirectoryEntry? { assert Above(q, path); }
    }
  }

  lemma NoEntryViolations(m: Manifest)
    ensures EntryViolations(m) == {} <==>
            forall p :: p in m ==>
              !HasBadParent(p, m) && (m[p].SymlinkEntry? ==> ResolveLink(p, m[p].target, m).Resolved?)
  {
    forall p | p in m
      ensures HasBadParent(p, m) ==> EntryViolations(m) != {}
      ensures m[p].SymlinkEntry? && ResolveLink(p, m[p].target, m).Failed? ==> EntryViolations(m) != {}
    {
      if HasBadParent(p, m) {
        assert Violation(InvalidParent, p) in EntryViolations(m);
      } else if m[p].SymlinkEntry? && ResolveLink(p, m[p].target, m).Failed? {
        assert Violation(LinkProblem(ResolveLink(p, m[p].target, m).issue), p) in EntryViolations(m);
      }
    }
  }

  /** In a clean tree no entry lacks its parent: only links can be at fault. */
  lemma CleanTreeHasParents(project: Project, excluded: set<string>, path: string)
    requires WellFormedTree(project.nodes) && path in ManifestOf(project.nodes, excluded)
    ensures !HasBadParent(path, ManifestOf(project.nodes, excluded))
  {
    var m := ManifestOf(project.nodes, excluded);
    BadParentMeans(path, m);
    forall q | Above(q, path) ensures q in m && m[q].DirectoryEntry? {
      if Excluded(q, excluded) { ExcludedBelow(path, q, excluded); }
    }
  }
}
