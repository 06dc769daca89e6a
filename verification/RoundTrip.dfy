/** What a capture and a replay promise together, and what a replay keeps. */
module RoundTrip {
  import opened Options
  import opened RelativePaths
  import opened TreeModel
  import opened Sets
  import opened Ordering
  import opened Manifests
  import opened TreeScan
  import opened BundleCapture
  import opened BundleReplay

  /** The storage directory a capture leaves behind. */
  function StorageOf(blobs: Blobs): Tree {
    map d | d in blobs :: RegularFile(blobs[d], false, true)
  }

  /** A path at, under or above a protected path keeps its seed entry in an accepted replay. */
  lemma ProtectedKept(seedEntries: Manifest, changes: seq<Change>, protected: set<string>, path: string)
    requires MatchesSeed(changes, seedEntries, protected) && AffectsProtected(path, protected)
    ensures Lookup(Overridden(seedEntries, changes), path) == Lookup(seedEntries, path)
  {
    forall c | c in changes ensures c.path != path { assert ChangeAllowed(c, seedEntries, protected); }
    OverriddenElsewhere(seedEntries, changes, path);
  }

  /** Two usable nodes with one entry are the same file, link or directory. */
  lemma SameEntrySameNode(a: Node, b: Node)
    requires EntryOf(a) == EntryOf(b) && EntryOf(a).Some? && Usable(a) && Usable(b)
    ensures a == b
  {
    if a.RegularFile? { Sha256Injective(a.content, b.content); }
  }

  /** The changes between two manifests lead from the one to the other. */
  lemma ChangesLeadToFinal(seed: Manifest, final: Manifest)
    ensures Overridden(seed, Changes(seed, final)) == final
  {
    var changes := Changes(seed, final);
    var result := Overridden(seed, changes);
    ChangesAreExact(seed, final);
    forall p ensures Lookup(result, p) == Lookup(final, p) {
      if Lookup(seed, p) != Lookup(final, p) {
        assert ChangeAt(seed, final, p) in changes;
        OverriddenAt(seed, changes, ChangeAt(seed, final, p));
      } else {
        OverriddenElsewhere(seed, changes, p);
      }
    }
    LookupDetermines(result, final);
  }

  lemma LookupDetermines(a: Manifest, b: Manifest)
    requires forall p :: Lookup(a, p) == Lookup(b, p)
    ensures a == b
  {
    forall p ensures p in a <==> p in b { assert Lookup(a, p) == Lookup(b, p); }
    forall p | p in a ensures a[p] == b[p] { assert Lookup(a, p) == Lookup(b, p); }
  }

  lemma PathOfMember(changes: seq<Change>, path: string)
    ensures path in ChangePaths(changes) <==> exists c :: c in changes && c.path == path
  {
    forall i | 0 <= i < |changes| ensures changes[i] in changes && ChangePaths(changes)[i] == changes[i].path {}
    if c :| c in changes && c.path == path {
      var i :| 0 <= i < |changes| && changes[i] == c;
      assert ChangePaths(changes)[i] == path;
    }
  }

  /** A list of changes in order is determined by the changes in it. */
  lemma AscendingChangesUnique(a: seq<Change>, b: seq<Change>)
    requires ChangesAscend(a) && ChangesAscend(b) && forall c :: c in a <==> c in b
    ensures a == b
  {
    ChangePathsSorted(a);
    ChangePathsSorted(b);
    forall path ensures path in ChangePaths(a) <==> path in ChangePaths(b) {
      PathOfMember(a, path);
      PathOfMember(b, path);
    }
    SortedUnique(ChangePaths(a), ChangePaths(b), ByText);
    assert |a| == |ChangePaths(a)| == |b|;
    forall i | 0 <= i < |a| ensures a[i] == b[i] {
      assert a[i] in b;
      var j :| 0 <= j < |b| && b[j] == a[i];
      assert ChangePaths(a)[i] == ChangePaths(b)[i];
      assert i < j ==> ChangePrecedes(b[i], b[j]);
      assert j < i ==> ChangePrecedes(b[j], b[i]);
    }
  }

  /**
    The other way round: comparing the seed with what an accepted bundle leads to gives back the very
    changes of the bundle.
   */
  lemma AppliedChangesComeBack(seed: Manifest, changes: seq<Change>, protected: set<string>)
    requires MatchesSeed(changes, seed, protected) && ChangesAscend(changes)
    requires forall c :: c in changes ==> ValidChange(c)
    ensures Changes(seed, Overridden(seed, changes)) == changes
  {
    hide Changes, SafeRelative, ValidFileSizes;
    var final := Overridden(seed, changes);
    ChangesAreExact(seed, final);
    forall c ensures c in Changes(seed, final) <==> c in changes {
      if c in changes {
        assert ChangeAllowed(c, seed, protected) && ValidChange(c);
        OverriddenAt(seed, changes, c);
      }
      if c in Changes(seed, final) { DifferenceIsListed(seed, changes, protected, c); }
    }
    AscendingChangesUnique(Changes(seed, final), changes);
  }

  lemma DifferenceIsListed(seed: Manifest, changes: seq<Change>, protected: set<string>, c: Change)
    requires MatchesSeed(changes, seed, protected) && ChangesAscend(changes)
    requires c == ChangeAt(seed, Overridden(seed, changes), c.path) && c.before != c.after
    ensures c in changes
  {
    if d :| d in changes && d.path == c.path {
      assert ChangeAllowed(d, seed, protected);
      OverriddenAt(seed, changes, d);
    } else {
      OverriddenElsewhere(seed, changes, c.path);
    }
  }

  /** A tree has one bundle: two bundles accepted on one seed that lead to the same tree are the same. */
  lemma OneBundlePerTree(seed: Project, seedNow: Tree, a: Bundle, b: Bundle, inA: Tree, inB: Tree,
      protected: set<string>, excluded: set<string>)
    requires Accepts(seed, seedNow, a, inA, protected, excluded) && Accepts(seed, seedNow, b, inB, protected, excluded)
    requires Overridden(ManifestOf(seed.nodes, excluded), a.changes)
        == Overridden(ManifestOf(seed.nodes, excluded), b.changes)
    ensures a == b
  {
    hide Changes, Overridden, ManifestOf, AllReplayable;
    AppliedChangesComeBack(ManifestOf(seed.nodes, excluded), a.changes, protected);
    AppliedChangesComeBack(ManifestOf(seed.nodes, excluded), b.changes, protected);
  }

  ghost predicate CleanEntry(project: Project, path: string, entry: Entry) {
    path in project.nodes && Scannable(path, project.nodes[path]) && EntryOf(project.nodes[path]) == Some(entry)
  }

  /** A clean tree has a valid manifest, each entry of which is that of a readable node. */
  lemma CleanManifest(project: Project, excluded: set<string>)
    requires Snapshotable(project, excluded)
    ensures ValidManifest(ManifestOf(project.nodes, excluded)) &&
        NoneExcluded(ManifestOf(project.nodes, excluded), excluded)
    ensures forall p :: p in ManifestOf(project.nodes, excluded) ==>
        CleanEntry(project, p, ManifestOf(project.nodes, excluded)[p])
  {
    var m := ManifestOf(project.nodes, excluded);
    SubsetSize(m.Keys, Live(project.nodes, excluded));
    assert |m| == |m.Keys|;
    forall p | p in m ensures CleanEntry(project, p, m[p]) && SafeRelative(p) && ValidFileSizes(m[p]) {
      assert p in Live(project.nodes, excluded);
    }
  }

  lemma SameDigestSameSize(a: Project, p: string, e: Entry, b: Project, q: string, f: Entry)
    requires CleanEntry(a, p, e) && CleanEntry(b, q, f) && e.FileEntry? && f.FileEntry? && e.sha256 == f.sha256
    ensures e.size == f.size && a.nodes[p].content == b.nodes[q].content
  {
    Sha256Injective(a.nodes[p].content, b.nodes[q].content);
  }

  /** The changes of a capture pass the checks of a replay. */
  lemma CapturedChangesValid(seed: Project, project: Project, excluded: set<string>, c: Change)
    requires Snapshotable(seed, excluded) && Snapshotable(project, excluded)
    requires c in Changes(ManifestOf(seed.nodes, excluded), ManifestOf(project.nodes, excluded))
    ensures ValidChange(c) && !Excluded(c.path, excluded)
  {
    CleanManifest(seed, excluded);
    CleanManifest(project, excluded);
    ChangesAreExact(ManifestOf(seed.nodes, excluded), ManifestOf(project.nodes, excluded));
  }

  lemma CapturedSizesAgree(project: Project, excluded: set<string>, seed: Manifest, c: Change, d: Change)
    requires Snapshotable(project, excluded)
    requires c in Changes(seed, ManifestOf(project.nodes, excluded)) &&
        d in Changes(seed, ManifestOf(project.nodes, excluded))
    ensures SameBlobSize(c, d)
  {
    CleanManifest(project, excluded);
    ChangesAreExact(seed, ManifestOf(project.nodes, excluded));
    if NeedsBlob(c) && NeedsBlob(d) && c.after.value.sha256 == d.after.value.sha256 {
      SameDigestSameSize(project, c.path, c.after.value, project, d.path, d.after.value);
    }
  }

  ghost predicate Captured(bundle: Bundle, blobs: Blobs, seed: Manifest, final: Manifest) {
    && bundle == Bundle(DigestOf(Listing(seed)), DigestOf(Listing(final)), Changes(seed, final), {})
    && blobs.Keys == Payloads(bundle.changes).Keys
    && BlobsHold(blobs, Payloads(bundle.changes))
  }

  lemma CapturedBundleValid(seed: Project, project: Project, current: Tree, bundle: Bundle, blobs: Blobs,
      protected: set<string>, excluded: set<string>, maxBytes: int)
    requires Snapshotable(seed, excluded) && maxBytes <= DEFAULT_MAX_BYTES
    requires Faultless(ManifestOf(seed.nodes, excluded), project, current, protected, excluded, maxBytes)
    requires Captured(bundle, blobs, ManifestOf(seed.nodes, excluded), ManifestOf(project.nodes, excluded))
    ensures ValidBundle(bundle)
  {
    var s, f := ManifestOf(seed.nodes, excluded), ManifestOf(project.nodes, excluded);
    CleanManifest(seed, excluded);
    CleanManifest(project, excluded);
    ChangesAreExact(s, f);
    forall c | c in bundle.changes ensures ValidChange(c) { CapturedChangesValid(seed, project, excluded, c); }
    forall c, d | c in bundle.changes && d in bundle.changes ensures SameBlobSize(c, d) {
      CapturedSizesAgree(project, excluded, s, c, d);
    }
  }

  lemma CapturedStorage(blobs: Blobs, payloads: map<string, Payload>, current: Tree, maxBytes: int)
    requires blobs.Keys == payloads.Keys && BlobsHold(blobs, payloads) && Storable(payloads, current, maxBytes)
    ensures StorageHolds(StorageOf(blobs), payloads)
  {
    forall d | d in payloads ensures Copies(StorageOf(blobs), d, d, payloads[d].size) {
      assert Copies(current, payloads[d].path, d, payloads[d].size);
    }
  }

  /** Each file of the captured tree can be had: from the stored contents, or from the same path of the seed. */
  lemma CapturedFileReplayable(seed: Project, project: Project, bundle: Bundle, blobs: Blobs, excluded: set<string>,
      path: string)
    requires Snapshotable(seed, excluded) && Snapshotable(project, excluded)
    requires Captured(bundle, blobs, ManifestOf(seed.nodes, excluded), ManifestOf(project.nodes, excluded))
    requires path in ManifestOf(project.nodes, excluded) && ManifestOf(project.nodes, excluded)[path].FileEntry?
    ensures Replayable(path, ManifestOf(project.nodes, excluded)[path], ManifestOf(seed.nodes, excluded),
        PathsOf(bundle.changes), StorageOf(blobs), seed.nodes)
  {
    hide Changes, Payloads, ManifestOf, Snapshotable, Sha256, ValidManifest, NoneExcluded, BlobsHold, Replayable,
      Listing;
    var s, f := ManifestOf(seed.nodes, excluded), ManifestOf(project.nodes, excluded);
    var entry := f[path];
    CleanManifest(seed, excluded);
    CleanManifest(project, excluded);
    if path in PathsOf(bundle.changes) && entry.sha256 in blobs {
      StoredIsFinals(project, excluded, s, blobs, entry.sha256, path);
      ReplayableFromStorage(path, entry, s, PathsOf(bundle.changes), StorageOf(blobs), seed.nodes);
    } else {
      UnstoredIsSeeds(s, f, path);
      SameDigestSameSize(seed, path, s[path], project, path, entry);
      ReplayableFromSeed(path, entry, s, PathsOf(bundle.changes), StorageOf(blobs), seed.nodes);
    }
  }

  lemma ReplayableFromStorage(path: string, entry: Entry, s: Manifest, changed: set<string>, storage: Tree,
      seedNow: Tree)
    requires entry.FileEntry? && path in changed && Copies(storage, entry.sha256, entry.sha256, entry.size)
    requires path in s && s[path].FileEntry? ==> path in seedNow && seedNow[path].RegularFile?
    ensures Replayable(path, entry, s, changed, storage, seedNow)
  {}

  lemma ReplayableFromSeed(path: string, entry: Entry, s: Manifest, changed: set<string>, storage: Tree, seedNow: Tree)
    requires entry.FileEntry? && !(path in changed && entry.sha256 in storage) &&
        Copies(seedNow, path, entry.sha256, entry.size)
    ensures Replayable(path, entry, s, changed, storage, seedNow)
  {}

  /** A stored content is a verified copy for every file of that digest. */
  lemma StoredIsFinals(project: Project, excluded: set<string>, s: Manifest, blobs: Blobs, digest: string, path: string)
    requires Snapshotable(project, excluded) && path in ManifestOf(project.nodes, excluded)
    requires var f := ManifestOf(project.nodes, excluded);
             f[path].FileEntry? && f[path].sha256 == digest && BlobsHold(blobs, Payloads(Changes(s, f))) &&
                 digest in blobs
    ensures Copies(StorageOf(blobs), digest, digest, ManifestOf(project.nodes, excluded)[path].size)
  {
    var f := ManifestOf(project.nodes, excluded);
    CleanManifest(project, excluded);
    ChangesAreExact(s, f);
    var c := PayloadSource(Changes(s, f), digest);
    SameDigestSameSize(project, path, f[path], project, c.path, c.after.value);
  }

  /** A file whose content is not stored for it has the same content in the seed. */
  lemma UnstoredIsSeeds(s: Manifest, f: Manifest, path: string)
    requires path in f && f[path].FileEntry?
    requires path in PathsOf(Changes(s, f)) ==> f[path].sha256 !in Payloads(Changes(s, f))
    ensures path in s && s[path].FileEntry? && s[path].sha256 == f[path].sha256
  {
    var c := ChangeAt(s, f, path);
    ChangesAreExact(s, f);
    if Lookup(s, path) != Lookup(f, path) {
      assert c in Changes(s, f) && c.path in PathsOf(Changes(s, f));
      if NeedsBlob(c) { NeededHasPayload(Changes(s, f), c); }
    }
  }

  /**
    The round trip: the bundle of a faultless capture is accepted by a replay on the same seed with
    the same protected and excluded paths, and it leads to the manifest of the captured tree.
   */
  lemma CapturedBundleReplays(seed: Project, project: Project, current: Tree, bundle: Bundle, blobs: Blobs,
      protected: set<string>, excluded: set<string>, maxBytes: int)
    requires Snapshotable(seed, excluded) && TrustedPaths(protected, excluded) && maxBytes <= DEFAULT_MAX_BYTES
    requires Faultless(ManifestOf(seed.nodes, excluded), project, current, protected, excluded, maxBytes)
    requires Captured(bundle, blobs, ManifestOf(seed.nodes, excluded), ManifestOf(project.nodes, excluded))
    ensures Overridden(ManifestOf(seed.nodes, excluded), bundle.changes) == ManifestOf(project.nodes, excluded)
    ensures Accepts(seed, seed.nodes, bundle, StorageOf(blobs), protected, excluded)
  {
    hide Changes, Payloads, ManifestOf, Snapshotable, Replayable, ValidBundle, StorageHolds, Listing, Overridden;
    hide ValidSnapshot, ValidManifest, MakeSnapshot, Excluded, Storable, BlobsHold, StorageOf, Copies;
    var s, f := ManifestOf(seed.nodes, excluded), ManifestOf(project.nodes, excluded);
    ChangesLeadToFinal(s, f);
    CapturedBundleValid(seed, project, current, bundle, blobs, protected, excluded, maxBytes);
    CapturedStorage(blobs, Payloads(bundle.changes), current, maxBytes);
    CleanManifest(project, excluded);
    ValidSnapshotIff(f);
    ChangesAreExact(s, f);
    forall p | p in PathsOf(bundle.changes) ensures !Excluded(p, excluded) {
      var c :| c in bundle.changes && c.path == p;
      CapturedChangesValid(seed, project, excluded, c);
    }
    forall c | c in bundle.changes ensures ChangeAllowed(c, s, protected) {}
    forall p | p in f && f[p].FileEntry?
      ensures Replayable(p, f[p], s, PathsOf(bundle.changes), StorageOf(blobs), seed.nodes)
    {
      CapturedFileReplayable(seed, project, bundle, blobs, excluded, p);
    }
  }

  lemma CleanKeys(project: Project, excluded: set<string>)
    requires Snapshotable(project, excluded)
    ensures ManifestOf(project.nodes, excluded).Keys == Live(project.nodes, excluded)
  {
    assert forall p :: p in Live(project.nodes, excluded) ==> Scannable(p, project.nodes[p]);
  }

  lemma BuiltNodeAsCaptured(node: Node, project: Project, p: string, entry: Entry)
    requires BuiltAt(node, entry) && CleanEntry(project, p, entry)
    ensures node == project.nodes[p]
  {
    SameEntrySameNode(node, project.nodes[p]);
  }

  /** A tree built from the manifest of a clean tree is that tree without its excluded paths. */
  lemma BuiltAsCaptured(nodes: Tree, project: Project, excluded: set<string>)
    requires Snapshotable(project, excluded)
    requires Built(nodes, ManifestOf(project.nodes, excluded), ManifestOf(project.nodes, excluded).Keys)
    ensures nodes.Keys == Live(project.nodes, excluded)
    ensures forall p :: p in nodes ==> nodes[p] == project.nodes[p]
  {
    hide Snapshotable, ManifestOf, CleanEntry, BuiltAt, ValidManifest, NoneExcluded;
    CleanManifest(project, excluded);
    CleanKeys(project, excluded);
    forall p | p in nodes ensures nodes[p] == project.nodes[p] {
      BuiltNodeAsCaptured(nodes[p], project, p, ManifestOf(project.nodes, excluded)[p]);
    }
  }

  /**
    Capturing a tree against the snapshot of a seed and replaying the bundle on that seed. Whenever the
    bundle carries no violation the replay succeeds, its snapshot is that of the captured tree, and
    every file, link and directory is the captured one.
   */
  method CaptureAndReplay(seed: Project, project: Project, current: Tree, dest: DestinationTree,
      protected: set<string>, excluded: set<string>, maxBytes: int)
    returns (captured: Result<(Bundle, Blobs)>, replayed: Result<Snapshot>)
    requires WellFormedTree(seed.nodes) && WellFormedTree(project.nodes) && !dest.present
    modifies dest
    ensures captured.Success? && captured.value.0.violations == {} ==>
              && replayed == Success(MakeSnapshot(ManifestOf(project.nodes, excluded)))
              && dest.nodes.Keys == Live(project.nodes, excluded)
              && forall p :: p in dest.nodes ==> dest.nodes[p] == project.nodes[p]
  {
    captured, replayed := Failure(InvalidSnapshot), Failure(InvalidSnapshot);
    var snapshot := SnapshotTree(seed, excluded);
    if snapshot.Success? {
      ToManifestOfListing(ManifestOf(seed.nodes, excluded));
      ghost var final;
      captured, final := CaptureBundle(snapshot.value, project, current, protected, excluded, maxBytes);
      if captured.Success? {
        var (bundle, blobs) := captured.value;
        if bundle.violations == {} {
          CapturedBundleReplays(seed, project, current, bundle, blobs, protected, excluded, maxBytes);
        }
        replayed := ApplyBundle(dest, seed, seed.nodes, bundle, StorageOf(blobs), protected, excluded);
        if bundle.violations == {} {
          BuiltAsCaptured(dest.nodes, project, excluded);
        }
      }
    }
  }
}
