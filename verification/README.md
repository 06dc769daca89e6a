# Verification of the code-kb evaluation and indexing cores

This project models the parts of code-kb whose correctness rests on loops, recursion and the order of
steps, and proves what they promise. Run `dafny verify dfyconfig.toml` to check the whole project.

**Tree snapshots and replay** (`scripts/edit_snapshot.py`). A tree is a map from paths to nodes, where a
node also says whether the operating system lets it be read. `TreeScan` is the worklist scan, `Manifests`
the manifest and its checks, `LinkResolution` the resolver of symbolic links against a plain walk over
names, `PathResolution` that walk against pathname resolution (section 4.13 of the Base Definitions of
POSIX.1-2017), `LinkChains` a row of links of any length, `BundleCapture` the diff of two manifests and the
store of changed contents, `BundleReplay` the checks of a bundle and the construction of a tree, and
`RoundTrip` what capture and replay promise together. A content is named by an injective function in the
place of SHA-256, and the digest of a manifest tells manifests apart.

**The search index** (`crates/code-kb-core/src/db.rs`). `SymbolIndex` says which symbols are local and what
the triggers do to the two full-text tables, `SymbolExactness` and `SymbolChanges` when inserts, updates
and deletes keep the tables exact, and `IndexReadiness` when they keep them ready. `SymbolStore` is the
table with its triggers as methods; `IndexMigration` is the migration by several processes, the writers
acting through the triggers; `OwnerPaths` and `OwnerLinks` are the pass that links methods to types
declared elsewhere.

**Crash-tolerant protocols.** `SlotDispatch` and `SlotRunner` (`scripts/completed_edit_campaign.py`),
`ComparisonRun` (`scripts/comparison_campaign.py`), and `StopHooks`, `HookSteps` and `HookRunner`
(`crates/code-kb-cli/src/hooks.rs`) are each a transition system with crash steps, and beside it the code as
it is written, every read and write of which is proved to be a step of the system. `StopReports` says in
which runs of the hooks reports repeat.

**Algorithms.** `PatchHunks` applies unified diffs by content, `MarkerMatching` matches test-count markers,
`ScipDecode` and `ScipSymbols` read SCIP indexes, `Utf8Slices` snaps byte ranges to characters, and
`StratifiedSample` draws a balanced sample.

`Options`, `Text`, `Decimal`, `Ordering`, `Sets` and `Totals` hold what several of these share.

## What turned out not to hold

- The full-text tables do not always hold exactly the non-local symbols. One more insert keeps them exact if
  and only if neither of two things is so (`SymbolExactness.InsertKeepsExactIff`): the new row is local and
  already the parent, directly or through other variables, of a variable in the table
  (`LateClosureLeavesALocal` is an input); or the new row is a callable and already such a parent of a
  variable of another file, which the trigger passes over (`LateFunctionElsewhereLeavesALocal`). A delete
  keeps them exact if and only if no other row is local by the deleted one
  (`IndexReadiness.DeletedFunctionEmpties`), an update if and only if the same rows are local by the updated
  one before and after (`MovedClosureLeavesALocal`), and a delete under `ON DELETE SET NULL` if and only if
  only children of the deleted row were local by it (`RemovedFunctionLosesASymbol`); see `SymbolChanges`.
- A full-text index that has been rebuilt can cease to be ready, so that it is rebuilt again. Of single
  statements only the delete of the one indexed row, which leaves rows that are not, does this
  (`IndexReadiness.LosesContentIff`), and of transactions exactly those that have such a delete and nothing
  after it that brings content back (`HistoryLosesContentIff`, `IndexMigration.ReadinessIsLostIff`;
  `DeletedFunctionRebuildsTwice` is a run). When deletes clear the links of the children it never happens,
  and at most one rebuild commits (`IndexMigration.AtMostOneRebuild`).
- Consecutive *stored* block records of a session always name different diffs; consecutive *reported* blocks
  may name the same one. They cannot as long as no hook dies with its block stored and unreported once
  something has been reported, and no block is stored while another is still to be reported
  (`StopReports.FaultlessReportsDiffer`). After the first step that breaks this rule, and only then, the run
  can go on without breaking it again to reports that repeat (`ReportsRepeatIff`). `LostReportsRepeat` is a
  run with a death, `OvertakenReportsRepeat` one without.
- The resolver of links goes through names that are missing or are regular files, which a file system does
  not. Its verdict, the depth limit aside, is that of pathname resolution if and only if every name it goes
  into with more to follow is that of a directory, which is a check along its own recursion
  (`PathResolution.VerdictIsResolution`, `SolidIffPassable`); `EscapeThroughMissingName` and
  `CycleThroughMissingName` are inputs.
- The resolver gives up on links that a walk resolves: the depth limit is its verdict if and only if more than
  128 links nest on the way, and otherwise makes no difference (`LinkResolution.DepthLimitIff`). Of a row of
  links, each to the next, the first is followed if and only if there are at most 128
  (`LinkChains.RowIsFollowedIff`).
- The reader of SCIP symbols finds the descriptors if and only if no field of the header holds a space and
  the scheme is not `local` (`ScipSymbols.HeaderReadIff`). The grammar in `scip.proto` writes a space
  inside a field as two, which the reader does not undo; `SpacedPackageIsRefused` is an input.
- A name without a suffix, quoted or not, is returned with the suffix `?` if and only if something follows
  it, the next name included; at the very end of a symbol the empty string passes the membership test, and the table lookup then
  fails (`ScipSymbols.BareName`).
- A buffer that is cut short is reported if and only if the cut falls inside the key, the number or the
  length of a field. A chunk of any wire type that is cut short is yielded short, without an error
  (`ScipDecode.CutStream`).

## Model

| member | source | states |
|---|---|---|
| RelativePaths.AtOrUnderIsComponentPrefix | scripts/edit_snapshot.py:230-239 | the string test "equal, or starts with parent and a slash" is the prefix relation on component lists |
| RelativePaths.AncestorsAreSlashPrefixes | scripts/edit_snapshot.py:353-361 | the joins of leading components are exactly the strings that stand before a slash of the path |
| RelativePaths.ChildOfParent | scripts/edit_snapshot.py:290 | the path given to an item of a directory has that directory as parent and that item as name |
| RelativePaths.SafeRelativeMeans | scripts/edit_snapshot.py:171-181 | a path is accepted iff it is not empty, holds no backslash and no NUL, has no drive, and none of the names between its slashes is empty, `.` or `..` |
| RelativePaths.SafeTargetMeans | scripts/edit_snapshot.py:371-376 | a link target is accepted iff it is not empty, does not begin with a slash or a drive, and holds no backslash and no NUL |
| LinkResolution.ExpandByLoop | scripts/edit_snapshot.py:378-404 | the loop over components with its local stack computes the recursive definition, and ends: 128 minus the links being resolved, then the components left, get smaller |
| LinkResolution.ExpandFollowsWalk | scripts/edit_snapshot.py:378-404 | from any stack and any links being resolved, the plain walk, which takes one name at a time and puts a link's target in front of what is left, comes to where the verdict says, with everything else still to do |
| LinkResolution.CycleNeverEnds | scripts/edit_snapshot.py:391-392 | a cycle verdict means that the plain walk goes on for ever |
| LinkResolution.VerdictHolds | scripts/edit_snapshot.py:371-409 | every verdict but the depth limit, whatever that limit is, is what the plain walk does, names being entered whether or not they are there |
| LinkResolution.ResolverAgreesWithWalk | scripts/edit_snapshot.py:371-409 | both directions, on every link: the depth limit is the verdict iff more than 128 links nest; that aside, resolved to a place iff the plain walk arrives there, escaping iff it pops above the root, cycle iff it never ends, and unsafe iff it meets a target that begins with a slash, which takes it out of the project, or one that is empty, has a drive, or holds a backslash or NUL |
| LinkResolution.DepthLimitNeedsManyLinks | scripts/edit_snapshot.py:393-394 | with at most 128 links in the tree the depth limit is never the verdict |
| LinkResolution.DepthLimitIff | scripts/edit_snapshot.py:393-394 | the depth limit is the verdict iff more than 128 links are resolved at once on the way; otherwise the verdict is that without a limit |
| LinkResolution.ExpandKeepsRealStack | scripts/edit_snapshot.py:378-404 | no leading part of the resolver's stack ever names a link |
| LinkResolution.ResolvedPlaceIsReal | scripts/edit_snapshot.py:350-368 | when the ancestors of a link are directories, no link is left on the way to what it resolves to |
| LinkChains.RowIsFollowedIff | scripts/edit_snapshot.py:371-409 | the first of a row of links, each to the next, is resolved to the end of the row iff there are at most 128, while the plain walk arrives there however many there are |
| PathResolution.VerdictIsResolution | scripts/edit_snapshot.py:371-409 | for every link, pathname resolution stops at a missing name or a non-directory iff the check along the resolver's recursion finds one; otherwise it arrives, escapes, or goes on for ever iff the resolver, its depth limit aside, says so, and the verdict is unsafe iff it meets an absolute target, which leaves the project, or an empty or foreign one |
| PathResolution.SolidIffPassable | scripts/edit_snapshot.py:378-404 | a check along the resolver's recursion, that each name it goes into is that of a directory or the last, decides whether every name of the walk with more to follow is that of a link or a directory, also when the walk never ends |
| PathResolution.EscapeThroughMissingName | scripts/edit_snapshot.py:387-404 | an input: an escape is reported where pathname resolution finds a name missing |
| PathResolution.CycleThroughMissingName | scripts/edit_snapshot.py:387-404 | an input: a cycle is reported where pathname resolution finds a name missing |
| Manifests.ToManifestOfListing | scripts/edit_snapshot.py:412-414 | sorting the entries of a dictionary and keying the list by path gives the dictionary back |
| Ordering.TextLeqMeans | scripts/edit_snapshot.py:412-414 | paths are in the order of their first difference, a path before those it begins |
| Manifests.ListingOfToManifest | scripts/edit_snapshot.py:463-464 | a list that is sorted by path without repeats is the listing of its own dictionary |
| Manifests.TotalOfDistinct | scripts/edit_snapshot.py:454-456 | the running total of file sizes is the total over the dictionary, when no path is repeated |
| Manifests.ValidSnapshotOf | scripts/edit_snapshot.py:422-472 | which manifests make a snapshot that passes validation, said of the manifest: iff |
| Manifests.BadParentMeans | scripts/edit_snapshot.py:353-361 | the parent check passes iff every proper ancestor is a directory of the manifest |
| Manifests.NoEntryViolations | scripts/edit_snapshot.py:350-368 | no entry violation iff every entry has directory ancestors and every link resolves |
| Manifests.CleanTreeHasParents | scripts/edit_snapshot.py:29-31 | in the manifest of a real tree no entry lacks a parent, excluded paths or not |
| TreeScan.CleanNeverComplains | scripts/edit_snapshot.py:291-342 | in a clean tree no item is refused and no limit is passed, whatever has been visited before |
| TreeScan.AllVisited | scripts/edit_snapshot.py:274-346 | when nothing is pending, every path that is not excluded has been visited |
| TreeScan.CompleteIsClean | scripts/edit_snapshot.py:253-347 | a scan that ends without complaint has found exactly the manifest of a clean tree |
| TreeScan.ScanTree | scripts/edit_snapshot.py:253-347 | the worklist ends; there is no violation iff the tree is clean, and then the entries are the non-excluded ones in path order, each once, within every limit; in any case each entry is that of its node, and each violation is true of the tree: its code says what is wrong with the node at its path, or which limit the tree passes |
| TreeScan.SnapshotTree | scripts/edit_snapshot.py:28-35 | a snapshot is made iff the tree is clean, has no bad parent and every link resolves, and is that of its manifest; then no link has a target that is empty, begins with a slash or a drive, or holds a backslash or NUL |
| BundleCapture.ChangesAreExact | scripts/edit_snapshot.py:62-68 | the changes are exactly the paths whose entries differ, with the entries before and after, in order |
| BundleCapture.TrustedPathsMeans | scripts/edit_snapshot.py:150-168 | the paths given are accepted iff each is a plain relative path and no protected path is, contains or lies below an excluded one, name by name |
| BundleCapture.CompareManifests | scripts/edit_snapshot.py:59-71 | the loop lists the changes and reports each one that touches a protected path, and nothing else; no report iff none does |
| BundleCapture.PayloadSource | scripts/edit_snapshot.py:476-484 | each content to store is brought by a change, with that change's path and size |
| BundleCapture.NeededHasPayload | scripts/edit_snapshot.py:476-484 | each change that brings a content not in the seed has it among the contents to store |
| BundleCapture.StoreBlobs | scripts/edit_snapshot.py:486-508 | no violation iff everything fits the budget and can be copied; contents are taken in the order of their names, and each is stored iff there is room beside those stored before it and its file can be copied; each that is not has a violation, whose code says which of the two it was |
| BundleCapture.CaptureBundle | scripts/edit_snapshot.py:38-80 | a bundle is made iff the arguments pass; it carries no violation iff the tree is clean, no change touches a protected path and all contents were stored; violations or not, it says what the scan found, and each violation is true of the tree, of the manifest, of a change or of a content |
| BundleReplay.DestinationTree.MakeDirectory | scripts/edit_snapshot.py:782-784 | a directory is made only at a free path all of whose ancestors are directories already |
| BundleReplay.DestinationTree.CopyVerified | scripts/edit_snapshot.py:557-602 | the chunk loop, with its running size check and the digest of what was read, leaves a file iff the source is readable and has the content asked for, and otherwise nothing; a file is written only below real directories, never through a link |
| BundleReplay.ValidateBundle | scripts/edit_snapshot.py:605-665 | the loop, which compares each size with the first one seen for that content and sorts the paths afterwards, accepts iff every change is valid, the changes ascend and every two agree on the sizes of their contents, within the limits |
| BundleReplay.CheckStorage | scripts/edit_snapshot.py:749-778 | the storage passes iff it holds exactly the needed contents, the running byte limits never refusing a right one |
| BundleReplay.OverriddenAt | scripts/edit_snapshot.py:113-124 | after the loop a listed path has the entry the change lists |
| BundleReplay.OverriddenElsewhere | scripts/edit_snapshot.py:113-124 | any other path keeps its seed entry |
| BundleReplay.ApplyChanges | scripts/edit_snapshot.py:111-124 | accepted iff every change starts from the seed's entry and touches no protected path, and then gives the seed with the changes |
| BundleReplay.ParentsMadeFirst | scripts/edit_snapshot.py:782-784 | sorted by number of slashes, each directory comes after every ancestor |
| BundleReplay.MaterializeTree | scripts/edit_snapshot.py:781-816 | succeeds iff every file can be copied from its source, and then the tree has exactly the manifest's nodes |
| BundleReplay.PlanReplay | scripts/edit_snapshot.py:83-134 | the checks before the destination is touched: with the copies, they are exactly what decides |
| BundleReplay.ApplyBundle | scripts/edit_snapshot.py:83-145 | for any bundle: succeeds iff the destination is free and the bundle acceptable; the result is the seed with exactly the listed changes; on failure nothing is left behind |
| RoundTrip.ProtectedKept | scripts/edit_snapshot.py:230-239 | in an accepted replay a path at, under or above a protected path has its seed entry |
| RoundTrip.ChangesLeadToFinal | scripts/edit_snapshot.py:59-71 | the changes between two manifests lead from the one to the other |
| RoundTrip.AppliedChangesComeBack | scripts/edit_snapshot.py:111-124 | comparing the seed with what accepted changes lead to gives back those changes |
| RoundTrip.OneBundlePerTree | scripts/edit_snapshot.py:83-145 | two bundles accepted on one seed that lead to the same tree are the same bundle |
| RoundTrip.CapturedFileReplayable | scripts/edit_snapshot.py:786-797 | every file of the captured tree can be had at replay: from the stored contents, or from the same path of the seed |
| RoundTrip.CapturedBundleReplays | scripts/edit_snapshot.py:38-145 | the bundle of a capture without violations is accepted on the same seed and leads to the captured manifest |
| RoundTrip.BuiltAsCaptured | scripts/edit_snapshot.py:781-816 | a tree built from that manifest is the captured tree without its excluded paths, node by node |
| RoundTrip.CaptureAndReplay | scripts/edit_snapshot.py:38-145 | running snapshot, capture and replay: whenever the capture carries no violation the replay succeeds with the captured tree and its snapshot |
| SymbolIndex.AncestorQueryIsReachability | crates/code-kb-core/src/db.rs:133-146 | the recursive query finds exactly the reachable rows, also when parent links go round in a circle |
| SymbolIndex.LocalMeans | crates/code-kb-core/src/db.rs:130-146 | local iff a variable from which a callable is reached through enclosing variables |
| SymbolIndex.OperationKeepsConsistent | crates/code-kb-core/src/db.rs:291-338 | each insert, update and delete, with or without clearing links, leaves both tables indexing the same existing rows with their current values |
| SymbolIndex.RunKeepsConsistent | crates/code-kb-core/src/db.rs:291-338 | so does every run of them: what the tables hold of a row is its name, its signature and its doc comment, each in its column, and its name once more |
| SymbolExactness.InsertKeepsExactIff | crates/code-kb-core/src/db.rs:291-314 | one insert keeps both tables at exactly the non-local symbols iff the new row is not a local variable with a variable nested in it already, and not a callable with a variable of another file nested in it already |
| SymbolExactness.SeriesIsExact | crates/code-kb-core/src/db.rs:291-314 | after any series of inserts with the parents of variables in the same file and enclosing variables first, both tables hold exactly the non-local symbols, functions coming before or after their locals and methods having their parents in any file |
| SymbolExactness.LateClosureLeavesALocal | crates/code-kb-core/src/db.rs:291-314 | an input on which a closure that comes late leaves a local in the tables |
| SymbolExactness.LateFunctionElsewhereLeavesALocal | crates/code-kb-core/src/db.rs:291-314 | an input on which a function that comes after its local, which is in another file, leaves the tables not exact |
| SymbolExactness.RebuiltIsExact | crates/code-kb-core/src/db.rs:340-350 | a rebuild holds exactly the non-local symbols |
| SymbolExactness.SomeSymbolIsNotLocal | crates/code-kb-core/src/db.rs:170-185 | a table with a symbol has one that is not local, so an exact index is never taken for one without content |
| SymbolExactness.UpdateKeepsExact | crates/code-kb-core/src/db.rs:325-338 | an update that keeps id and kind, and the parent if the symbol is a variable, keeps the tables exact |
| SymbolChanges.DeleteKeepsExactIff | crates/code-kb-core/src/db.rs:316-323 | a delete keeps exact tables exact iff no other row is local by the deleted one |
| SymbolChanges.UpdateKeepsExactIff | crates/code-kb-core/src/db.rs:325-338 | an update keeps exact tables exact iff the same other rows are local by the updated one before and after |
| SymbolChanges.RemoveKeepsExactIff | crates/code-kb-core/src/db.rs:316-338 | a delete that clears the links of the children keeps exact tables exact iff only children of the row were local by it |
| SymbolChanges.MovedClosureLeavesALocal | crates/code-kb-core/src/db.rs:325-338 | an input: an update moves a closure into a function, and the variable in the closure stays indexed |
| SymbolChanges.RemovedFunctionLosesASymbol | crates/code-kb-core/src/db.rs:316-338 | an input: the delete of a function clears the link of a closure in it, and the variable in the closure, local no longer, is not indexed |
| IndexReadiness.OperationKeepsKept | crates/code-kb-core/src/db.rs:291-338 | every operation leaves both tables consistent and leaves out variables only |
| IndexReadiness.LosesContentIff | crates/code-kb-core/src/db.rs:170-185 | ready tables cease to be ready by one operation only: the delete of the one indexed row, when other rows stay and none of them is updated by it |
| IndexReadiness.RegainsContentIff | crates/code-kb-core/src/db.rs:170-185 | what makes them ready again: any insert or update, and the delete of the last row or of a parent whose links are cleared |
| IndexReadiness.HistoryLosesContentIff | crates/code-kb-core/src/db.rs:170-185 | over a whole transaction: ready tables end without content iff some operation empties them and none after it brings content back |
| IndexReadiness.DeletedFunctionEmpties | crates/code-kb-core/src/db.rs:316-323 | an input: a function, its local, and the delete of the function without clearing the link |
| IndexReadiness.ClearingHistoryHasContent | crates/code-kb-core/src/db.rs:316-338 | when deletes clear links no history of operations makes ready tables lose their content |
| SymbolStore.FtsTable.DeleteCommand | crates/code-kb-core/src/db.rs:299-314 | the command is only ever given the values that are indexed |
| SymbolStore.Store.Insert | crates/code-kb-core/src/db.rs:291-314 | the trigger's commands, in place, have the effect of the insert on rows and both tables |
| SymbolStore.Store.Delete | crates/code-kb-core/src/db.rs:316-323 | the row leaves all three tables, with the values it had |
| SymbolStore.Store.Update | crates/code-kb-core/src/db.rs:325-338 | the old values leave, the new ones come iff the symbol is not local now |
| SymbolStore.Store.Remove | crates/code-kb-core/src/db.rs:316-338 | the delete trigger, and the update trigger for each child in any order, have the effect of a delete under `ON DELETE SET NULL` |
| SymbolStore.Store.Perform | crates/code-kb-core/src/db.rs:291-338 | a run of statements, each with its triggers in place, has the outcome of the operations one after the other |
| IndexMigration.ExactIsReady | crates/code-kb-core/src/db.rs:187-191 | an exact index under the current rule passes the readiness test, with symbols or without |
| IndexMigration.ReadyMeans | crates/code-kb-core/src/db.rs:187-191 | ready iff the current rule is noted and neither table is missing, or empty beside rows |
| IndexMigration.RebuildsAreLosses | crates/code-kb-core/src/db.rs:254-261 | with any number of processes, crashes and writers there are no more rebuilds than times the index was not ready or has ceased to be |
| IndexMigration.ReadinessIsLostIff | crates/code-kb-core/src/db.rs:170-191 | after a rebuild, a step makes the index not ready iff it is a transaction that empties the tables |
| IndexMigration.CallRebuilds | crates/code-kb-core/src/db.rs:254-359 | and then the next call that gets the lock rebuilds it |
| IndexMigration.DeletedFunctionRebuildsTwice | crates/code-kb-core/src/db.rs:254-261 | a run with two rebuilds: a function with a parameter is written, and the function deleted alone |
| IndexMigration.AtMostOneRebuild | crates/code-kb-core/src/db.rs:254-261 | with any number of processes, crashes and writers whose deletes clear links, at most one rebuild commits; after it the index stays ready and every later call leaves it alone |
| IndexMigration.CommitRebuildsStaleTables | crates/code-kb-core/src/db.rs:258-359 | a commit replaces an index that was not ready, by the rebuild of the symbols as they are then |
| IndexMigration.Populate | crates/code-kb-core/src/db.rs:343-350 | the two tables are filled with exactly the symbols that are not local |
| IndexMigration.IndexFile.EnsureFtsIndex | crates/code-kb-core/src/db.rs:254-361 | the call, with whatever other processes do while it waits for the lock: its steps are protocol steps; it fails iff the index was not ready and the lock is still held, and changes nothing then; otherwise it rebuilds only what is still not ready under the lock, and in the end both tables are there, neither empty beside rows |
| OwnerPaths.SharedIsLongest | crates/code-kb-core/src/db.rs:607-610 | the score is the length of the longest list of folders that both paths begin with |
| OwnerPaths.ScoreOfPaths | crates/code-kb-core/src/db.rs:600-610 | the score of two paths is the number of folders they are written with alike from the start, whichever separators stand behind them |
| OwnerPaths.FoldersOfPath | crates/code-kb-core/src/db.rs:600-604 | the folders of a path are those it is written with, whichever of the two separators stands behind each |
| OwnerPaths.FolderOfFile | crates/code-kb-core/src/db.rs:593-595 | the folder of a folder, a separator of either kind and a file name is that folder |
| OwnerPaths.FolderIsWhereItStands | crates/code-kb-core/src/db.rs:593-595 | a path has exactly one folder: the text before a separator and a name, or none before a bare name |
| OwnerPaths.NearestOwner | crates/code-kb-core/src/db.rs:598-621 | an owner is returned iff exactly one candidate is strictly nearer than all others, and it is that one |
| OwnerPaths.PlainReceiver | crates/code-kb-core/src/db.rs:587-591 | the type of a receiver with any of `*`, parentheses, blanks, tabs and line ends around it is its bare name |
| OwnerPaths.GenericReceiver | crates/code-kb-core/src/db.rs:587-591 | so is that of a receiver with type parameters, with blanks before the bracket or not |
| OwnerLinks.GoPackages.Of | crates/code-kb-core/src/db.rs:556-583 | the cache answers the package clause of a file, the same as the table |
| OwnerLinks.OneOwner | crates/code-kb-core/src/db.rs:373-434 | a symbol has at most one owner, the Go rule going before the other |
| OwnerLinks.GoOwnerOf | crates/code-kb-core/src/db.rs:526-551 | an owner is found iff folder, then package, then file leave exactly one type with the receiver's name; the method and the type then stand in one folder |
| OwnerLinks.GoOwnerMeans | crates/code-kb-core/src/db.rs:526-551 | an owner by the Go rule is a Go type with the receiver's name in the folder where the method stands |
| OwnerLinks.GoOwnsIff | crates/code-kb-core/src/db.rs:526-551 | a Go type owns a method iff it has the receiver's name, stands in the method's folder, and is the only such type there, or the only one there with the method's package clause, or the only one there in the method's file |
| OwnerLinks.GoReceiverLinks | crates/code-kb-core/src/db.rs:494-553 | the links are exactly those of the symbols that have a Go owner, each to that owner |
| OwnerLinks.ImplOwnerOf | crates/code-kb-core/src/db.rs:407-416 | in whatever order the query lists the types, the owner is the one strictly nearest, if there is one |
| OwnerLinks.ImplOwnsIff | crates/code-kb-core/src/db.rs:401-416 | a type owns a method by its metadata iff it has the name given there and the method's language, and is strictly nearest to it among such types |
| OwnerLinks.LinksAreSafe | crates/code-kb-core/src/db.rs:421-432 | whatever the links are, only symbols without a parent change, nothing but the parent changes, and it names an existing symbol from the list |
| OwnerLinks.SecondRunChangesNothing | crates/code-kb-core/src/db.rs:373-434 | a second run changes nothing |
| OwnerLinks.LinksAreWritten | crates/code-kb-core/src/db.rs:421-432 | the links collected from some rows, written to whatever rows are met later, link exactly the symbols that still have no parent and whose owner is still there, and change nothing else |
| OwnerLinks.UndisturbedIsLinked | crates/code-kb-core/src/db.rs:373-434 | when nothing comes between, that is exactly the symbols that have an owner |
| OwnerLinks.LinkKeepsExact | crates/code-kb-core/src/db.rs:325-338 | giving a symbol without a parent a type as its parent keeps both full-text tables exact |
| OwnerLinks.ApplyLinks | crates/code-kb-core/src/db.rs:421-433 | the updates, each firing the update trigger, write the links, and keep exact tables exact when every owner that is there is a type |
| OwnerLinks.LinkImplOwners | crates/code-kb-core/src/db.rs:373-434 | whatever other writers commit between collecting and writing: exactly the symbols that still have no parent and whose owner is still there are linked, each to that owner, nothing else changes, and exact tables stay exact when owners stay types; undisturbed, exactly the symbols that have an owner are linked |
| SlotDispatch.RunKeepsInvariant | scripts/completed_edit_campaign.py:944-951 | over every interleaving and crash a slot has one owner, and its records are those of the owner's phase |
| SlotDispatch.DispatchedAtMostOnce | scripts/completed_edit_campaign.py:837-865 | each slot is dispatched at most once; a dispatch has a durable status or a terminal record that says so; a terminal record denies a dispatch only if there was none |
| SlotDispatch.TerminalNeverChanges | scripts/completed_edit_campaign.py:857-865 | a terminal record never changes |
| SlotDispatch.FoundMeans | scripts/completed_edit_campaign.py:837-855 | what is found at a slot, said of its records: free, existing, in progress or refused, each iff |
| SlotRunner.ClaimSlot | scripts/completed_edit_campaign.py:837-855 | coming to a slot: existing iff it holds a terminal record of this identity, in progress iff no terminal record and a status of this identity, refused iff a folder with neither or with a first record of another identity; only a free slot is entered |
| SlotRunner.PrepareSlot | scripts/completed_edit_campaign.py:951-1123 | on every course, an exception before the first record or after any other one included, the records deny a dispatch or say nothing of one; a slot broken off before its first record is refused later |
| SlotRunner.DispatchSlot | scripts/completed_edit_campaign.py:1124-1337 | the record that a dispatch may occur is there before the agent starts; whether the dispatch comes to its end or an exception breaks it off, before the terminal record or after, the records never deny it |
| SlotRunner.RunSlot | scripts/completed_edit_campaign.py:923-1340 | one slot as written, on every course and with an exception between any two of its records, is a list of protocol steps, each possible where it is taken, and leaves the records its course calls for; a slot that is not free is left alone, with the answer its records call for |
| SlotRunner.RunSlots | scripts/completed_edit_campaign.py:1450-1481 | the loop ends at the first slot that is refused or whose turn raises, and otherwise comes to the end; every free slot before has the records of its first turn, those dispatched are exactly the ones whose turn says so, in order, and nothing else changes |
| ComparisonRun.IdentifierDetermines | scripts/comparison_campaign.py:532-533 | a run identifier gives back task, arm and repetition, as long as no arm has a dash |
| ComparisonRun.ScheduleDistinct | scripts/agent_comparison.py:99-110 | no two jobs of a generated schedule share a run directory |
| ComparisonRun.ScheduleIsBalanced | scripts/agent_comparison.py:99-110 | every task meets each of the three arms once in every repetition and once at every position |
| ComparisonRun.RunKeepsInvariant | scripts/comparison_campaign.py:596-688 | what every step and crash of a campaign keeps |
| ComparisonRun.CampaignIsResumable | scripts/comparison_campaign.py:596-688 | jobs with a record are a prefix of the schedule, only the last of them can lack an outcome, no job is dispatched twice, and "complete" means an outcome that is no failure for every job |
| ComparisonRun.RunCampaign | scripts/comparison_campaign.py:579-688 | a run started from any state that crashes may leave keeps the invariant and leaves a state to start from; from the records it meets and the trials it makes: it stops at the first job that was interrupted or whose trial fails, raises at an outcome it cannot read, and otherwise is incomplete iff a failure was on disk and complete iff every job is settled; it leaves each job it comes to with its record, and dispatches exactly those without one, in order |
| ComparisonRun.SettlingRunIsComplete | scripts/comparison_campaign.py:684-688 | when every job has no record or is settled and every trial settles, the run comes to all jobs and answers complete |
| ComparisonRun.SettledRunDoesNothing | scripts/comparison_campaign.py:596-688 | a run over jobs that are all settled dispatches nothing, changes nothing and answers complete |
| ComparisonRun.RunJob | scripts/comparison_campaign.py:365-378 | the outcome is on disk before the progress file goes, and the run stops at a failure |
| StopHooks.RunKeepsInvariant | crates/code-kb-cli/src/hooks.rs:101-176 | what every step of any number of hooks, and every death, keeps of the session record and its lock |
| StopHooks.BlocksAreNotRepeated | crates/code-kb-cli/src/hooks.rs:139-175 | neighbouring block records carry different diffs, a block is reported only after its record was stored and only once, and counted as followed or not at most once |
| StopHooks.NeighbouringReportsDiffer | crates/code-kb-cli/src/hooks.rs:139-175 | neighbouring reports name different diffs when their blocks were stored one after the other |
| StopReports.FaultlessReportsDiffer | crates/code-kb-cli/src/hooks.rs:139-175 | in every run in which no report is lost and none overtaken, neighbouring reports name different diffs |
| StopReports.ReportsRepeatIff | crates/code-kb-cli/src/hooks.rs:171-175 | a next step from such a run loses or overtakes a report iff the run can then go on, without another such step, to reports that repeat |
| StopReports.LostReportsRepeat | crates/code-kb-cli/src/hooks.rs:171-175 | a run: a hook dies between its record and its report, and the reports on either side name the same diff |
| StopReports.OvertakenReportsRepeat | crates/code-kb-cli/src/hooks.rs:171-175 | a run without a death: a hook is overtaken between its record and its report, and the reports before it name the same diff |
| HookRunner.SessionFile.RecordFollowed | crates/code-kb-cli/src/hooks.rs:103-123 | whatever other hooks do while the lock is waited for: the sites of the last block are forgotten, and the block counted, iff they were listed, the lock is had and they are still there under it; its reads and writes are protocol steps |
| HookRunner.SessionFile.StopDecision | crates/code-kb-cli/src/hooks.rs:125-176 | whatever other hooks do while it waits for either lock and before it reports: a stop blocks iff it is not the answer to a block, the lock is had, the diff is not one seen last in the session met under it and the check lists something; its reads and writes are protocol steps |
| HookRunner.StopTwice | crates/code-kb-core/src/edit_check/session.rs:43-50 | with no other hook about, a second stop on the same diff never blocks, whatever the check would say |
| PatchHunks.NearestMeans | scripts/edit_replay.py:1430-1434 | a place is chosen iff there is a match; it is nearest to the stated line and the first of the nearest |
| PatchHunks.FindNearest | scripts/edit_replay.py:1430-1434 | the search over the lines finds that place |
| PatchHunks.HeaderWithoutNumber | scripts/edit_replay.py:1411-1413 | a header row without a number begins a hunk at line 1 |
| PatchHunks.FittingHunksApply | scripts/edit_replay.py:1422-1437 | hunks that match in order and apart at their stated lines give the described text: rewritten lines, then the untouched rest, the offset being the difference in length |
| PatchHunks.ReadPrintedScript | scripts/edit_replay.py:1408-1421 | reading a printed diff gives back its hunks, blank kept lines without their space included |
| PatchHunks.ApplyHunks | scripts/edit_replay.py:1406-1437 | the loops compute the result on text and diff rows, or none when some hunk has no match |
| PatchHunks.EarlyHunkTakesFirst | scripts/edit_replay.py:1430-1436 | a hunk expected before the first line is applied at the first place it matches |
| PatchHunks.InsertionIsClamped | scripts/edit_replay.py:1425-1429 | a hunk that replaces nothing is put at its line moved by the offset, or at the end of the text that line lies beyond |
| PatchHunks.DriftIsCarried | scripts/edit_replay.py:1427-1436 | a hunk is applied where it is found; if that is k lines from its stated line, a following hunk that matches k lines from its own is applied there, whatever other matches there are |
| PatchHunks.PatchFindsItsPlace | scripts/edit_replay.py:1406-1437 | with any lines in the place of some, all or none of those before the first change, when what the first change replaces occurs once, the result is the new text with the same lines in front |
| PatchHunks.PatchUndoesDiff | scripts/edit_replay.py:1406-1437 | for every edit script, and any rows before the first hunk, applying its printed diff to its old text gives its new text |
| MarkerMatching.InOrderIsOrdered | scripts/edit_evaluation.py:688 | the markers are taken by falling minimum, equal ones by place, each once |
| MarkerMatching.OneMore | scripts/edit_evaluation.py:688-697 | one more marker adds at most one match, and never more than the summaries that report enough for it |
| MarkerMatching.MatchCountMarkers | scripts/edit_evaluation.py:686-697 | the greedy assignment is valid and as large as any valid one; its size after each marker is the least of one more and the summaries that report enough; all are matched iff some assignment serves all |
| ScipDecode.DecodeVarint | scripts/scip_decode.py:18-26 | the loop over seven-bit groups reads the base-128 number at any offset, or runs out of bytes |
| ScipDecode.VarintRoundTrip | scripts/scip_decode.py:18-26 | every natural number is read back from its printed form, whatever follows |
| ScipDecode.CutVarint | scripts/scip_decode.py:18-26 | a number cut short is never read as another one |
| ScipDecode.DecodePacked | scripts/scip_decode.py:51-56 | the loop reads the packed list, or runs out of bytes |
| ScipDecode.PackedRoundTrip | scripts/scip_decode.py:51-56 | every list of numbers is read back from its packed form |
| ScipDecode.DecodeFields | scripts/scip_decode.py:29-48 | the generator yields these fields, and ends or raises so |
| ScipDecode.FieldsRoundTrip | scripts/scip_decode.py:29-48 | every list of fields of the four wire types is read back from its printed form |
| ScipDecode.CutStream | scripts/scip_decode.py:29-48 | every printed list of fields cut at every place: the reader raises iff the cut falls inside the key, the number or the length of a field; otherwise it yields the fields before the cut and, inside a chunk of any wire type, that chunk cut short |
| ScipSymbols.Descriptors | scripts/scip_decode.py:150-185 | the loop reads the descriptors, or raises what the reader raises |
| ScipSymbols.ClosingAhead | scripts/scip_decode.py:147 | an escaped name is closed at its closing backtick, however many backticks it holds |
| ScipSymbols.UnescapeEscaped | scripts/scip_decode.py:171 | replacing doubled backticks undoes the escaping |
| ScipSymbols.DescriptorsRoundTrip | scripts/scip_decode.py:155-185 | every list of descriptors, quoted or not, is read back from its printed form, names and suffixes |
| ScipSymbols.MethodWithoutDot | scripts/scip_decode.py:174-179 | a method without the dot behind its parentheses is read as one, and reading goes on behind them |
| ScipSymbols.BareName | scripts/scip_decode.py:173-184 | after any printed descriptors, a name without a suffix, quoted or not, raises iff nothing follows it, and is otherwise returned with `?`, reading going on behind it, also when what follows is the next name |
| ScipSymbols.HeaderReadIff | scripts/scip_decode.py:152-156 | the reader finds the printed descriptors iff no header field holds a space and the scheme is not `local` |
| ScipSymbols.SymbolRoundTrip | scripts/scip_decode.py:150-185 | under that condition every whole symbol is read back |
| ScipSymbols.LocalSymbol | scripts/scip_decode.py:152-153 | a symbol that begins with `local` and a space has one name, all that follows |
| ScipSymbols.SpacedPackageIsRefused | scripts/scip_decode.py:154-170 | a symbol the grammar allows, with a space in its package name, that the reader refuses |
| Utf8Slices.BoundaryMeans | crates/code-kb-core/src/slicer.rs:18-38 | in well-formed text the mask test holds at a place iff the text falls into two well-formed texts there |
| Utf8Slices.CharIsCodePoint | crates/code-kb-core/src/slicer.rs:53 | a character of well-formed text is one code point, in the fewest bytes that hold it, no surrogate and none above U+10FFFF (section 3 of RFC 3629) |
| Utf8Slices.BetweenBoundaries | crates/code-kb-core/src/slicer.rs:53 | what lies between two boundaries is well-formed |
| Utf8Slices.FloorIsGreatest | crates/code-kb-core/src/slicer.rs:18-26 | snapping down gives the greatest boundary up to the index |
| Utf8Slices.CeilIsLeast | crates/code-kb-core/src/slicer.rs:29-37 | snapping up gives the least boundary from the index |
| Utf8Slices.SliceBytesSafe | crates/code-kb-core/src/slicer.rs:40-54 | on well-formed content every ordered request succeeds with the smallest range of whole characters that covers the clamped request; on any content only well-formed text is returned |
| StratifiedSample.Sample | scripts/reach_truth.py:321-359 | the nested loops, with their running totals, draw the rounds |
| StratifiedSample.LegalIsEven | scripts/reach_truth.py:315-318 | in every state, of the picks themselves: those for dev and for holdout differ by at most 1 in each stratum and at most 3 overall, as at most three strata lean each way |
| StratifiedSample.PickMeans | scripts/reach_truth.py:315-343 | in every state: each pick is the first row in order of its stratum that is left, and goes to the split behind in the stratum, failing that to the one behind overall, failing that to dev; so the first pick goes to dev |
| StratifiedSample.LegalPicks | scripts/reach_truth.py:334-343 | in every state no row is picked twice and every pick belongs to its stratum |
| StratifiedSample.RoundsFill | scripts/reach_truth.py:330-359 | the loop ends with as many rows as were asked for, or with all of them |
| StratifiedSample.StrataTakeTurns | scripts/reach_truth.py:330-359 | while a stratum has rows left, no stratum has been given more than one row more, and none that comes after it in the list more at all |
| StratifiedSample.SampleIsEven | scripts/reach_truth.py:321-359 | all of that of the result |

## Left out

- File descriptors, `fstat` identity checks, temporary files and permissions other than the executable bit: the file that is copied does not change while it is read.
- SHA-256 itself: contents have injective names, manifests have digests that tell them apart.
- The JSON shape checks of snapshots and bundles, the reading and the size limit of `bundle.json`, and the checks that input and output folders do not overlap: bundles and snapshots are values of the right shape here.
- The messages of violations and errors: a violation is its code and its path.
- SQLite: parsing, plans, tokenisers, ranking, and the checking of foreign keys. A `REPLACE` is taken to be a delete and an insert with their triggers, which in SQLite supposes recursive triggers to be on.
- Readiness read in pieces: the test of a process reads one state of the database.
- `name_anonymous_classes`: it is one of the updates that `UpdateKeepsExact` allows; the names it makes are not modelled.
- The check that the symbols table has a metadata column, and JSON itself: a row carries what its metadata says of its owner.
- GoPackages: where a file has several package clauses the query leaves the choice open; here it is the one with the least row id.
- The bodies of campaign steps (sandbox, redaction, indexing, grading): each step succeeds, fails or breaks off. Records are replaced as a whole, except the fallback record of a failed redaction, which a crash may cut short.
- The hooks' session pruning, base recording, taking over of stale locks, and the diff and the check themselves: a check is a verdict on a diff.
- HookRunner.SessionFile.StopDecision: other hooks act while it waits and before it reports, not between two of its steps under the lock; every interleaving is in `StopHooks`.
- OwnerLinks.LinkImplOwners: the queries that collect the links read one state of the symbols table.
- BundleReplay.ValidateBundle: `sorted(paths)` is the sorted listing of the set of paths, which the check for repeats beside it allows.
- `str.splitlines` (the rows of a diff are given), digits other than ASCII, and white space other than ASCII in Go receivers.
- The regular expressions that find markers and test summaries in logs: markers and summaries are numbers here.
- The messages of SCIP documents, decoding of UTF-8 in names, and symbol queries.
- Which rows are candidates of a sample, and their order by hash: the ordered rows are given.
- Easy members: percentiles, counts, reports, single-field validation, command lines.
