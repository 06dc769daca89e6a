/** Capturing a bundle: the changes from a seed manifest to a tree, and the contents they need. */
module BundleCapture {
  import opened Options
  import opened RelativePaths
  import opened TreeModel
  import opened Ordering
  import opened Manifests
  import opened TreeScan
  import Totals

  datatype Change = Change(path: string, before: Option<Entry>, after: Option<Entry>)

  datatype Bundle = Bundle(seedDigest: Digest, finalDigest: Digest, changes: seq<Change>, violations: set<Violation>)

  type Blobs = map<string, seq<byte>>

  predicate TrustedPaths(protected: set<string>, excluded: set<string>) {
    && (forall p :: p in protected + excluded ==> SafeRelative(p))
    && (forall p, q :: p in protected && q in excluded ==> !Intersects(p, q))
  }

  /**
    Protected and excluded paths are trusted exactly when each is a plain relative path and no protected
    path is, contains or lies below an excluded one, name by name.
   */
  lemma TrustedPathsMeans(protected: set<string>, excluded: set<string>)
    ensures TrustedPaths(protected, excluded) <==>
              && (forall p :: p in protected || p in excluded ==> PlainPath(p))
              && (forall p, q :: p in protected && q in excluded ==>
                   !(Components(p) <= Components(q)) && !(Components(q) <= Components(p)))
  {
    forall p ensures SafeRelative(p) <==> PlainPath(p) { SafeRelativeMeans(p); }
    forall p, q
      ensures Intersects(p, q) <==> Components(p) <= Components(q) || Components(q) <= Components(p)
    {
      AtOrUnderIsComponentPrefix(p, q);
      AtOrUnderIsComponentPrefix(q, p);
    }
  }

  function ChangeAt(seed: Manifest, final: Manifest, path: string): Change {
    Change(path, Lookup(seed, path), Lookup(final, path))
  }

  /** The changes met along a list of paths. */
  function ChangesAlong(seed: Manifest, final: Manifest, paths: seq<string>): seq<Change> {
    if paths == [] then []
    else
      var last := paths[|paths| - 1];
      ChangesAlong(seed, final, paths[..|paths| - 1]) +
      (if Lookup(seed, last) != Lookup(final, last) then [ChangeAt(seed, final, last)] else [])
  }

  /** The changed paths in order, each with its entry before and after. */
  function Changes(seed: Manifest, final: Manifest): seq<Change> {
    ChangesAlong(seed, final, Sorted(seed.Keys + final.Keys, ByText))
  }

  predicate ChangesAscend(changes: seq<Change>) {
    forall i, j :: 0 <= i < j < |changes| ==> ChangePrecedes(changes[i], changes[j])
  }

  predicate ChangePrecedes(a: Change, b: Change) {
    TextLeq(a.path, b.path) && a.path != b.path
  }

  lemma {:induction false} ChangesAlongMembers(seed: Manifest, final: Manifest, paths: seq<string>)
    ensures forall c :: c in ChangesAlong(seed, final, paths) <==>
              c.path in paths && c == ChangeAt(seed, final, c.path) && c.before != c.after
    ensures |ChangesAlong(seed, final, paths)| <= |paths|
  {
    if paths != [] {
      var n := |paths| - 1;
      ChangesAlongMembers(seed, final, paths[..n]);
      assert paths == paths[..n] + [paths[n]];
    }
  }

  lemma {:induction false} ChangesAlongAscend(seed: Manifest, final: Manifest, paths: seq<string>)
    requires StrictlySorted(paths, ByText)
    ensures ChangesAscend(ChangesAlong(seed, final, paths))
  {
    if paths != [] {
      var n := |paths| - 1;
      var front := ChangesAlong(seed, final, paths[..n]);
      ChangesAlongAscend(seed, final, paths[..n]);
      ChangesAlongMembers(seed, final, paths[..n]);
      forall c | c in front ensures ChangePrecedes(c, ChangeAt(seed, final, paths[n])) {
        var k :| 0 <= k < n && paths[k] == c.path;
        assert Leq(ByText, paths[k], paths[n]);
      }
    }
  }

  /** The changes list exactly the paths whose entries differ, in order. */
  lemma ChangesAreExact(seed: Manifest, final: Manifest)
    ensures ChangesAscend(Changes(seed, final)) && |Changes(seed, final)| <= |seed| + |final|
    ensures forall c :: c in Changes(seed, final) <==>
              (c.path in seed || c.path in final) && c == ChangeAt(seed, final, c.path) && c.before != c.after
  {
    var paths := Sorted(seed.Keys + final.Keys, ByText);
    SortedAscends(seed.Keys + final.Keys, ByText);
    ChangesAlongAscend(seed, final, paths);
    ChangesAlongMembers(seed, final, paths);
    assert seed.Keys + final.Keys == seed.Keys + (final.Keys - seed.Keys);
  }

  predicate IsFile(entry: Option<Entry>) {
    entry.Some? && entry.value.FileEntry?
  }

  /** The change brings a content that the seed does not have at the same path. */
  predicate NeedsBlob(change: Change) {
    IsFile(change.after) && !(IsFile(change.before) && change.before.value.sha256 == change.after.value.sha256)
  }

  datatype Payload = Payload(path: string, size: int)

  /** The contents to store, each with the first path that brings it. */
  function Payloads(changes: seq<Change>): map<string, Payload> {
    if changes == [] then map[]
    else
      var before, last := Payloads(changes[..|changes| - 1]), changes[|changes| - 1];
      if NeedsBlob(last) && last.after.value.sha256 !in before
      then before[last.after.value.sha256 := Payload(last.path, last.after.value.size)]
      else before
  }

  function PayloadSizes(payloads: map<string, Payload>): map<string, int> {
    map d | d in payloads :: payloads[d].size
  }

  /** A verified copy of the file at `path` gives the content that was asked for. */
  predicate Copies(nodes: Tree, path: string, digest: string, size: int) {
    && size <= MAX_FILE_BYTES
    && path in nodes && nodes[path].RegularFile? && nodes[path].readable
    && |nodes[path].content| == size && Sha256(nodes[path].content) == digest
  }

  /** Every content fits and can be copied. */
  ghost predicate Storable(payloads: map<string, Payload>, nodes: Tree, maxBytes: int) {
    && Totals.Total(PayloadSizes(payloads)) <= maxBytes
    && (forall d :: d in payloads ==> Copies(nodes, payloads[d].path, d, payloads[d].size))
  }

  ghost predicate BlobsHold(blobs: Blobs, payloads: map<string, Payload>) {
    forall d :: d in blobs ==> d in payloads && Sha256(blobs[d]) == d && |blobs[d]| == payloads[d].size
  }

  function BlobSizes(blobs: Blobs): map<string, int> {
    map d | d in blobs :: |blobs[d]|
  }

  lemma BlobSizesUpdate(blobs: Blobs, d: string, content: seq<byte>)
    requires d !in blobs
    ensures Totals.Total(BlobSizes(blobs[d := content])) == Totals.Total(BlobSizes(blobs)) + |content|
  {
    assert BlobSizes(blobs[d := content]) == BlobSizes(blobs)[d := |content|];
    Totals.TotalAdd(BlobSizes(blobs), d, |content|);
  }

  /** One more content of a set that fits still fits. */
  lemma StillFits(blobs: Blobs, payloads: map<string, Payload>, d: string)
    requires BlobsHold(blobs, payloads) && d in payloads && d !in blobs
    requires forall e :: e in payloads ==> payloads[e].size >= 0
    ensures 0 <= payloads[d].size
    ensures Totals.Total(BlobSizes(blobs)) + payloads[d].size <= Totals.Total(PayloadSizes(payloads))
    ensures payloads[d].size <= Totals.Total(PayloadSizes(payloads))
  {
    var more := BlobSizes(blobs)[d := payloads[d].size];
    Totals.TotalAdd(BlobSizes(blobs), d, payloads[d].size);
    Totals.TotalMonotone(more, PayloadSizes(payloads));
    Totals.TotalMonotone(map[], BlobSizes(blobs));
  }

  /** The variables of the loop that stores contents. */
  datatype Store = Store(blobs: Blobs, usedBytes: int, violations: set<Violation>)

  function StoreOne(s: Store, digest: string, payload: Payload, nodes: Tree, maxBytes: int): Store {
    if payload.size > maxBytes || s.usedBytes + payload.size > maxBytes then
      s.(violations := s.violations + {Violation(PayloadLimit, payload.path)})
    else if Copies(nodes, payload.path, digest, payload.size) then
      s.(blobs := s.blobs[digest := nodes[payload.path].content], usedBytes := s.usedBytes + payload.size)
    else
      s.(violations := s.violations + {Violation(BlobCaptureFailed, payload.path)})
  }

  /** What is stored of the contents of `done`. */
  ghost predicate Storing(payloads: map<string, Payload>, nodes: Tree, maxBytes: int, s: Store, done: set<string>) {
    && BlobsHold(s.blobs, payloads)
    && s.usedBytes == Totals.Total(BlobSizes(s.blobs)) <= maxBytes
    && (forall d :: d in s.blobs ==> Copies(nodes, payloads[d].path, d, payloads[d].size))
    && s.blobs.Keys <= done <= payloads.Keys
    && (s.violations == {} <==> s.blobs.Keys == done)
    && (Storable(payloads, nodes, maxBytes) ==> s.blobs.Keys == done)
  }

  /** The stored contents whose turn came before that of `d`: contents are taken in the order of their names. */
  ghost function StoredBefore(blobs: Blobs, d: string): Blobs {
    map e | e in blobs && TextLeq(e, d) && e != d :: blobs[e]
  }

  /** There is room for the content beside those stored before it. */
  ghost predicate Fits(d: string, payloads: map<string, Payload>, maxBytes: int, blobs: Blobs)
    requires d in payloads
  {
    Totals.Total(BlobSizes(StoredBefore(blobs, d))) + payloads[d].size <= maxBytes
  }

  /** The violation says why the content `d` is not stored: no room, or room but no copy to be had. */
  ghost predicate Blames(v: Violation, d: string, payloads: map<string, Payload>, nodes: Tree, maxBytes: int,
      blobs: Blobs) {
    && d in payloads && d !in blobs && v.path == payloads[d].path
    && match v.code
       case PayloadLimit => !Fits(d, payloads, maxBytes, blobs)
       case BlobCaptureFailed =>
         Fits(d, payloads, maxBytes, blobs) && !Copies(nodes, payloads[d].path, d, payloads[d].size)
       case _ => false
  }

  /** The violation says of some content of `done` why it is not stored. */
  ghost predicate IsTrue(v: Violation, payloads: map<string, Payload>, nodes: Tree, maxBytes: int, blobs: Blobs,
      done: set<string>) {
    exists d :: d in done && Blames(v, d, payloads, nodes, maxBytes, blobs)
  }

  /** The content is stored and had room, or some violation says why it is not. */
  ghost predicate IsSettled(d: string, payloads: map<string, Payload>, nodes: Tree, maxBytes: int, blobs: Blobs,
      violations: set<Violation>) {
    if d in blobs then d in payloads && Fits(d, payloads, maxBytes, blobs)
    else exists v :: v in violations && Blames(v, d, payloads, nodes, maxBytes, blobs)
  }

  /** Every violation is true of the end, and every content of `done` is stored or reported. */
  ghost predicate Accounted(payloads: map<string, Payload>, nodes: Tree, maxBytes: int, blobs: Blobs,
      violations: set<Violation>, done: set<string>) {
    && (forall v :: v in violations ==> IsTrue(v, payloads, nodes, maxBytes, blobs, done))
    && (forall d :: d in done ==> IsSettled(d, payloads, nodes, maxBytes, blobs, violations))
  }

  /** What is stored later makes no difference to those before. */
  lemma StoredLater(blobs: Blobs, d: string, e: string, content: seq<byte>)
    requires TextLeq(d, e) && d != e
    ensures StoredBefore(blobs[e := content], d) == StoredBefore(blobs, d)
  {
    TextTotal(d, e);
  }

  lemma NotBeforeItself(blobs: Blobs, e: string, content: seq<byte>)
    ensures StoredBefore(blobs[e := content], e) == StoredBefore(blobs, e)
  {}

  lemma StillBlames(v: Violation, d: string, payloads: map<string, Payload>, nodes: Tree, maxBytes: int, blobs: Blobs,
      e: string, content: seq<byte>)
    requires Blames(v, d, payloads, nodes, maxBytes, blobs) && TextLeq(d, e) && d != e
    ensures Blames(v, d, payloads, nodes, maxBytes, blobs[e := content])
  {
    hide StoredBefore, BlobSizes, Copies, TextLeq;
    StoredLater(blobs, d, e, content);
  }

  lemma StillFitted(d: string, payloads: map<string, Payload>, maxBytes: int, blobs: Blobs, e: string,
      content: seq<byte>)
    requires d in payloads && Fits(d, payloads, maxBytes, blobs) && TextLeq(d, e)
    ensures Fits(d, payloads, maxBytes, blobs[e := content])
  {
    hide StoredBefore, BlobSizes;
    if d == e { NotBeforeItself(blobs, e, content); } else { StoredLater(blobs, d, e, content); }
  }

  lemma StillTrue(v: Violation, payloads: map<string, Payload>, nodes: Tree, maxBytes: int, blobs: Blobs,
      done: set<string>, e: string, content: seq<byte>)
    requires IsTrue(v, payloads, nodes, maxBytes, blobs, done)
    requires e !in done && forall d :: d in done ==> TextLeq(d, e)
    ensures IsTrue(v, payloads, nodes, maxBytes, blobs[e := content], done + {e})
  {
    hide Blames, TextLeq;
    var d :| d in done && Blames(v, d, payloads, nodes, maxBytes, blobs);
    StillBlames(v, d, payloads, nodes, maxBytes, blobs, e, content);
    assert d in done + {e};
  }

  lemma StillSettled(d: string, payloads: map<string, Payload>, nodes: Tree, maxBytes: int, blobs: Blobs,
      violations: set<Violation>, e: string, content: seq<byte>)
    requires IsSettled(d, payloads, nodes, maxBytes, blobs, violations) && TextLeq(d, e) && d != e
    ensures IsSettled(d, payloads, nodes, maxBytes, blobs[e := content], violations)
  {
    hide Blames, Fits, TextLeq;
    if d in blobs {
      StillFitted(d, payloads, maxBytes, blobs, e, content);
    } else {
      var v :| v in violations && Blames(v, d, payloads, nodes, maxBytes, blobs);
      StillBlames(v, d, payloads, nodes, maxBytes, blobs, e, content);
    }
  }

  lemma StoredAccounts(payloads: map<string, Payload>, nodes: Tree, maxBytes: int, blobs: Blobs,
      violations: set<Violation>, done: set<string>, e: string, content: seq<byte>)
    requires Accounted(payloads, nodes, maxBytes, blobs, violations, done) && e !in done && e !in blobs
    requires forall d :: d in done ==> TextLeq(d, e)
    requires e in payloads && Fits(e, payloads, maxBytes, blobs)
    ensures Accounted(payloads, nodes, maxBytes, blobs[e := content], violations, done + {e})
  {
    hide IsTrue, IsSettled, Fits, TextLeq;
    var more := blobs[e := content];
    forall v | v in violations ensures IsTrue(v, payloads, nodes, maxBytes, more, done + {e}) {
      StillTrue(v, payloads, nodes, maxBytes, blobs, done, e, content);
    }
    forall d | d in done + {e} ensures IsSettled(d, payloads, nodes, maxBytes, more, violations) {
      if d == e {
        JustStored(payloads, nodes, maxBytes, blobs, violations, e, content);
      } else {
        StillSettled(d, payloads, nodes, maxBytes, blobs, violations, e, content);
      }
    }
  }

  lemma JustStored(payloads: map<string, Payload>, nodes: Tree, maxBytes: int, blobs: Blobs, violations: set<Violation>,
      e: string, content: seq<byte>)
    requires e in payloads && Fits(e, payloads, maxBytes, blobs)
    ensures IsSettled(e, payloads, nodes, maxBytes, blobs[e := content], violations)
  {
    hide Fits;
    TextTotal(e, e);
    StillFitted(e, payloads, maxBytes, blobs, e, content);
  }

  lemma UnstoredAccounts(payloads: map<string, Payload>, nodes: Tree, maxBytes: int, blobs: Blobs,
      violations: set<Violation>, done: set<string>, e: string, v: Violation)
    requires Accounted(payloads, nodes, maxBytes, blobs, violations, done)
    requires Blames(v, e, payloads, nodes, maxBytes, blobs)
    ensures Accounted(payloads, nodes, maxBytes, blobs, violations + {v}, done + {e})
  {
    hide Blames, Fits;
    forall w | w in violations + {v} ensures IsTrue(w, payloads, nodes, maxBytes, blobs, done + {e}) {
      if w in violations {
        var d :| d in done && Blames(w, d, payloads, nodes, maxBytes, blobs);
        assert d in done + {e};
      } else {
        assert e in done + {e};
      }
    }
    forall d | d in done + {e} ensures IsSettled(d, payloads, nodes, maxBytes, blobs, violations + {v}) {
      if d == e {
        assert v in violations + {v};
        BlamedIsNotStored(v, e, payloads, nodes, maxBytes, blobs);
      } else {
        assert IsSettled(d, payloads, nodes, maxBytes, blobs, violations);
      }
    }
  }

  lemma BlamedIsNotStored(v: Violation, e: string, payloads: map<string, Payload>, nodes: Tree, maxBytes: int,
      blobs: Blobs)
    requires Blames(v, e, payloads, nodes, maxBytes, blobs)
    ensures e !in blobs
  {}

  lemma UsedIsNatural(blobs: Blobs)
    ensures Totals.Total(BlobSizes(blobs)) >= 0
  {
    Totals.TotalMonotone(map[], BlobSizes(blobs));
  }

  /** What the loop knows when the contents of `done` have had their turn. */
  ghost predicate TurnsDone(payloads: map<string, Payload>, nodes: Tree, maxBytes: int, s: Store, done: set<string>) {
    && Storing(payloads, nodes, maxBytes, s, done)
    && Accounted(payloads, nodes, maxBytes, s.blobs, s.violations, done)
  }

  lemma StoreOneAccounts(payloads: map<string, Payload>, nodes: Tree, maxBytes: int, s: Store, done: set<string>,
      d: string)
    requires Storing(payloads, nodes, maxBytes, s, done)
    requires Accounted(payloads, nodes, maxBytes, s.blobs, s.violations, done)
    requires forall e :: e in done ==> TextLeq(e, d)
    requires d in payloads && d !in done && forall e :: e in payloads ==> payloads[e].size >= 0
    ensures var next := StoreOne(s, d, payloads[d], nodes, maxBytes);
            Accounted(payloads, nodes, maxBytes, next.blobs, next.violations, done + {d})
  {
    hide Accounted, BlobsHold, BlobSizes, TextLeq;
    assert StoredBefore(s.blobs, d) == s.blobs;
    StillFits(s.blobs, payloads, d);
    var Payload(path, size) := payloads[d];
    UsedIsNatural(s.blobs);
    if size > maxBytes || s.usedBytes + size > maxBytes {
      UnstoredAccounts(payloads, nodes, maxBytes, s.blobs, s.violations, done, d, Violation(PayloadLimit, path));
    } else if Copies(nodes, path, d, size) {
      StoredAccounts(payloads, nodes, maxBytes, s.blobs, s.violations, done, d, nodes[path].content);
    } else {
      UnstoredAccounts(payloads, nodes, maxBytes, s.blobs, s.violations, done, d, Violation(BlobCaptureFailed, path));
    }
  }

  lemma StoreOneKeeps(payloads: map<string, Payload>, nodes: Tree, maxBytes: int, s: Store, done: set<string>,
      d: string)
    requires Storing(payloads, nodes, maxBytes, s, done)
    requires d in payloads && d !in done && forall e :: e in payloads ==> payloads[e].size >= 0
    ensures Storing(payloads, nodes, maxBytes, StoreOne(s, d, payloads[d], nodes, maxBytes), done + {d})
  {
    StillFits(s.blobs, payloads, d);
    var Payload(path, size) := payloads[d];
    if size <= maxBytes && s.usedBytes + size <= maxBytes && Copies(nodes, path, d, size) {
      StoredKeeps(payloads, nodes, maxBytes, s, done, d);
    } else {
      assert StoreOne(s, d, payloads[d], nodes, maxBytes).violations != {};
    }
  }

  lemma StoredKeeps(payloads: map<string, Payload>, nodes: Tree, maxBytes: int, s: Store, done: set<string>, d: string)
    requires Storing(payloads, nodes, maxBytes, s, done) && d in payloads && d !in done
    requires Copies(nodes, payloads[d].path, d, payloads[d].size) && s.usedBytes + payloads[d].size <= maxBytes
    ensures var blobs := s.blobs[d := nodes[payloads[d].path].content];
            Storing(payloads, nodes, maxBytes, s.(blobs := blobs, usedBytes := s.usedBytes + payloads[d].size),
                    done + {d})
  {
    BlobSizesUpdate(s.blobs, d, nodes[payloads[d].path].content);
  }

  lemma TurnDone(payloads: map<string, Payload>, nodes: Tree, maxBytes: int, s: Store, done: set<string>, d: string)
    requires TurnsDone(payloads, nodes, maxBytes, s, done) && forall e :: e in done ==> TextLeq(e, d)
    requires d in payloads && d !in done && forall e :: e in payloads ==> payloads[e].size >= 0
    ensures TurnsDone(payloads, nodes, maxBytes, StoreOne(s, d, payloads[d], nodes, maxBytes), done + {d})
  {
    hide Storing, StoreOne, Accounted;
    StoreOneKeeps(payloads, nodes, maxBytes, s, done, d);
    StoreOneAccounts(payloads, nodes, maxBytes, s, done, d);
  }

  lemma AllStored(payloads: map<string, Payload>, nodes: Tree, maxBytes: int, s: Store)
    requires TurnsDone(payloads, nodes, maxBytes, s, payloads.Keys)
    ensures s.violations == {} <==> Storable(payloads, nodes, maxBytes)
    ensures BlobsHold(s.blobs, payloads) && Totals.Total(BlobSizes(s.blobs)) <= maxBytes
    ensures s.violations == {} <==> s.blobs.Keys == payloads.Keys
    ensures Accounted(payloads, nodes, maxBytes, s.blobs, s.violations, payloads.Keys)
    ensures forall d :: d in s.blobs ==> d in payloads && Copies(nodes, payloads[d].path, d, payloads[d].size)
  {
    hide Accounted;
    if s.violations == {} { assert BlobSizes(s.blobs) == PayloadSizes(payloads); }
  }

  lemma StoreStart(payloads: map<string, Payload>, nodes: Tree, maxBytes: int)
    requires maxBytes >= 0
    ensures TurnsDone(payloads, nodes, maxBytes, Store(map[], 0, {}), {})
  {
    assert BlobSizes(map[]) == map[];
  }

  /** Stores contents in digest order within the budget; what does not fit or does not copy is reported. */
  method StoreBlobs(payloads: map<string, Payload>, nodes: Tree, maxBytes: int)
    returns (blobs: Blobs, violations: set<Violation>)
    requires forall d :: d in payloads ==> payloads[d].size >= 0
    requires maxBytes >= 0
    ensures violations == {} <==> Storable(payloads, nodes, maxBytes)
    ensures BlobsHold(blobs, payloads) && Totals.Total(BlobSizes(blobs)) <= maxBytes
    ensures violations == {} <==> blobs.Keys == payloads.Keys
    ensures Accounted(payloads, nodes, maxBytes, blobs, violations, payloads.Keys)
    ensures forall d :: d in blobs ==> d in payloads && Copies(nodes, payloads[d].path, d, payloads[d].size)
  {
    hide TurnsDone, StoreOne, Storable, BlobsHold, BlobSizes, Accounted, Sorted, Taken;
    var s := Store(map[], 0, {});
    var order := Sorted(payloads.Keys, ByText);
    StoreStart(payloads, nodes, maxBytes);
    TakenEnds(payloads.Keys, ByText);
    for i := 0 to |order|
      invariant TurnsDone(payloads, nodes, maxBytes, s, Taken(payloads.Keys, ByText, i))
    {
      var digest := order[i];
      TakenStep(payloads.Keys, ByText, i);
      TakenIsBefore(payloads.Keys, ByText, i);
      TurnDone(payloads, nodes, maxBytes, s, Taken(payloads.Keys, ByText, i), digest);
      s := StoreOne(s, digest, payloads[digest], nodes, maxBytes);
    }
    AllStored(payloads, nodes, maxBytes, s);
    blobs, violations := s.blobs, s.violations;
  }

  predicate Brings(change: Change, digest: string, payload: Payload) {
    NeedsBlob(change) && change.after.value.sha256 == digest && payload == Payload(change.path, change.after.value.size)
  }

  /** Each payload is brought by a change, and each content that is needed has a payload. */
  lemma {:induction false} PayloadSource(changes: seq<Change>, digest: string) returns (c: Change)
    requires digest in Payloads(changes)
    ensures c in changes && Brings(c, digest, Payloads(changes)[digest])
  {
    var n := |changes| - 1;
    if digest in Payloads(changes[..n]) {
      c := PayloadSource(changes[..n], digest);
    } else {
      c := changes[n];
    }
  }

  lemma {:induction false} NeededHasPayload(changes: seq<Change>, c: Change)
    requires c in changes && NeedsBlob(c)
    ensures c.after.value.sha256 in Payloads(changes)
  {
    var n := |changes| - 1;
    assert changes == changes[..n] + [changes[n]];
    if c in changes[..n] { NeededHasPayload(changes[..n], c); }
  }

  /** The conditions on the arguments of a capture. */
  predicate CaptureArguments(seed: Snapshot, protected: set<string>, excluded: set<string>, maxBytes: int) {
    && 0 <= maxBytes <= DEFAULT_MAX_BYTES
    && TrustedPaths(protected, excluded)
    && ValidSnapshot(seed)
    && forall listed :: listed in seed.entries ==> !Excluded(listed.path, excluded)
  }

  /** A capture with nothing to report. */
  ghost predicate Faultless(seed: Manifest, project: Project, current: Tree, protected: set<string>,
      excluded: set<string>, maxBytes: int) {
    var final := ManifestOf(project.nodes, excluded);
    && Snapshotable(project, excluded)
    && (forall c :: c in Changes(seed, final) ==> !AffectsProtected(c.path, protected))
    && Storable(Payloads(Changes(seed, final)), current, maxBytes)
  }

  ghost predicate Recorded(project: Project, excluded: set<string>, m: Manifest) {
    forall p :: p in m ==> Records(project.nodes, p, m[p]) && !Excluded(p, excluded)
  }

  /** The bundle says what the scan found, and each protected path that differs is reported. */
  ghost predicate Evidence(bundle: Bundle, seed: Snapshot, final: Manifest, protected: set<string>) {
    && bundle.seedDigest == seed.digest
    && bundle.finalDigest == DigestOf(Listing(final))
    && bundle.changes == Changes(ToManifest(seed.entries), final)
    && (forall c :: c in bundle.changes && AffectsProtected(c.path, protected) ==>
         Violation(ProtectedPath, c.path) in bundle.violations)
  }

  lemma RecordedPayloadSizes(project: Project, excluded: set<string>, seed: Manifest, final: Manifest)
    requires Recorded(project, excluded, final)
    ensures forall d :: d in Payloads(Changes(seed, final)) ==> Payloads(Changes(seed, final))[d].size >= 0
  {
    var changes := Changes(seed, final);
    ChangesAreExact(seed, final);
    forall d | d in Payloads(changes) ensures Payloads(changes)[d].size >= 0 {
      var c := PayloadSource(changes, d);
      assert Records(project.nodes, c.path, final[c.path]);
    }
  }

  lemma ChangesAlongStep(seed: Manifest, final: Manifest, paths: seq<string>, i: nat)
    requires i < |paths|
    ensures ChangesAlong(seed, final, paths[..i + 1]) == ChangesAlong(seed, final, paths[..i]) +
              (if Lookup(seed, paths[i]) != Lookup(final, paths[i]) then [ChangeAt(seed, final, paths[i])] else [])
  {
    assert paths[..i + 1][..i] == paths[..i];
  }

  /** The violation reports one of the changes, at or around a protected path. */
  ghost predicate Touches(v: Violation, changes: seq<Change>, protected: set<string>) {
    v.code == ProtectedPath && AffectsProtected(v.path, protected) && exists c :: c in changes && c.path == v.path
  }

  lemma StillTouches(changes: seq<Change>, change: Change, violations: set<Violation>, protected: set<string>)
    requires forall v :: v in violations ==> Touches(v, changes, protected)
    ensures forall v :: v in violations ==> Touches(v, changes + [change], protected)
    ensures AffectsProtected(change.path, protected) ==>
              Touches(Violation(ProtectedPath, change.path), changes + [change], protected)
  {
    assert change in changes + [change];
    forall v | v in violations ensures Touches(v, changes + [change], protected) {
      var c :| c in changes && c.path == v.path;
      assert c in changes + [change];
    }
  }

  /** What a violation of a bundle says: of the tree, of the manifest, of a change, or of a content. */
  ghost predicate Grounded(v: Violation, project: Project, excluded: set<string>, final: Manifest, changes: seq<Change>,
      protected: set<string>, current: Tree, maxBytes: int, blobs: Blobs) {
    || Explained(project, excluded, v)
    || (v.path in final && EntryFault(final, v.path, v.code))
    || Touches(v, changes, protected)
    || exists d :: d in Payloads(changes) && Blames(v, d, Payloads(changes), current, maxBytes, blobs)
  }

  /** The changes between two manifests, and a violation for each change that touches a protected path. */
  method CompareManifests(seed: Manifest, final: Manifest, protected: set<string>)
    returns (changes: seq<Change>, violations: set<Violation>)
    ensures changes == Changes(seed, final)
    ensures violations == {} <==> forall c :: c in changes ==> !AffectsProtected(c.path, protected)
    ensures forall c :: c in changes && AffectsProtected(c.path, protected) ==>
        Violation(ProtectedPath, c.path) in violations
    ensures forall v :: v in violations ==> Touches(v, changes, protected)
  {
    changes, violations := [], {};
    var order := Sorted(seed.Keys + final.Keys, ByText);
    for i := 0 to |order|
      invariant changes == ChangesAlong(seed, final, order[..i])
      invariant forall c :: c in changes && AffectsProtected(c.path, protected) ==>
          Violation(ProtectedPath, c.path) in violations
      invariant violations == {} <==> forall c :: c in changes ==> !AffectsProtected(c.path, protected)
      invariant forall v :: v in violations ==> Touches(v, changes, protected)
    {
      var path := order[i];
      ChangesAlongStep(seed, final, order, i);
      var before, after := Lookup(seed, path), Lookup(final, path);
      if before != after {
        ghost var fewer := changes;
        changes := changes + [Change(path, before, after)];
        StillTouches(fewer, Change(path, before, after), violations, protected);
        if AffectsProtected(path, protected) {
          violations := violations + {Violation(ProtectedPath, path)};
        }
      }
    }
    assert order[..|order|] == order;
  }

  lemma AllGrounded(violations: set<Violation>, touched: set<Violation>, unstored: set<Violation>, project: Project,
      excluded: set<string>, final: Manifest, changes: seq<Change>, protected: set<string>, current: Tree,
      maxBytes: int, blobs: Blobs)
    requires forall v :: v in violations ==>
               Explained(project, excluded, v) || (v.path in final && EntryFault(final, v.path, v.code))
    requires forall v :: v in touched ==> Touches(v, changes, protected)
    requires Accounted(Payloads(changes), current, maxBytes, blobs, unstored, Payloads(changes).Keys)
    ensures forall v :: v in violations + touched + unstored ==>
              Grounded(v, project, excluded, final, changes, protected, current, maxBytes, blobs)
  {
    hide Explained, EntryFault, Touches, Blames;
  }

  lemma NothingToReport(seed: Manifest, project: Project, current: Tree, protected: set<string>, excluded: set<string>,
      maxBytes: int, final: Manifest, violations: set<Violation>, touched: set<Violation>, unstored: set<Violation>)
    requires violations == {} <==> Snapshotable(project, excluded)
    requires violations == {} ==> final == ManifestOf(project.nodes, excluded)
    requires touched == {} <==> forall c :: c in Changes(seed, final) ==> !AffectsProtected(c.path, protected)
    requires unstored == {} <==> Storable(Payloads(Changes(seed, final)), current, maxBytes)
    ensures violations + touched + unstored == {} <==>
              Faultless(seed, project, current, protected, excluded, maxBytes)
    ensures violations + touched + unstored == {} ==> violations == {} && unstored == {}
  {
    hide Snapshotable, Storable, AffectsProtected;
    assert violations + touched + unstored == {} <==> violations == {} && touched == {} && unstored == {};
  }

  /** The parts of a bundle: the scanned manifest, the changes it makes, the stored contents and all violations. */
  method Gather(seed: Manifest, project: Project, current: Tree, protected: set<string>, excluded: set<string>,
      maxBytes: int)
    returns (final: Manifest, changes: seq<Change>, blobs: Blobs, violations: set<Violation>)
    requires WellFormedTree(project.nodes) && 0 <= maxBytes
    ensures Recorded(project, excluded, final) && changes == Changes(seed, final)
    ensures forall c :: c in changes && AffectsProtected(c.path, protected) ==>
              Violation(ProtectedPath, c.path) in violations
    ensures BlobsHold(blobs, Payloads(changes)) && Totals.Total(BlobSizes(blobs)) <= maxBytes
    ensures violations == {} <==> Faultless(seed, project, current, protected, excluded, maxBytes)
    ensures violations == {} ==> final == ManifestOf(project.nodes, excluded) && blobs.Keys == Payloads(changes).Keys
    ensures forall v :: v in violations ==>
              Grounded(v, project, excluded, final, changes, protected, current, maxBytes, blobs)
  {
    hide Grounded, Accounted, Touches, Explained, EntryFault, Faultless, Snapshotable, Storable, BlobsHold, BlobSizes,
         AffectsProtected, Records, Excluded;
    var found, touched, unstored;
    final, found := CheckedScan(project, excluded);
    changes, touched := CompareManifests(seed, final, protected);
    RecordedPayloadSizes(project, excluded, seed, final);
    blobs, unstored := StoreBlobs(Payloads(changes), current, maxBytes);
    AllGrounded(found, touched, unstored, project, excluded, final, changes, protected, current, maxBytes, blobs);
    NothingToReport(seed, project, current, protected, excluded, maxBytes, final, found, touched, unstored);
    violations := found + touched + unstored;
  }

  /**
    Captures the tree of `project`. The contents are copied from `current`, the tree at the time of
    copying, which need not be the tree that was scanned. The bundle carries no violation exactly when
    the capture is faultless, and every content it stores is the one its name stands for.
   */
  method CaptureBundle(seed: Snapshot, project: Project, current: Tree, protected: set<string>, excluded: set<string>,
      maxBytes: int)
    returns (r: Result<(Bundle, Blobs)>, ghost final: Manifest)
    requires WellFormedTree(project.nodes)
    ensures r.Success? <==> CaptureArguments(seed, protected, excluded, maxBytes)
    ensures r == Failure(BadMaxBytes) <==> !(0 <= maxBytes <= 33_554_432)
    ensures r.Success? ==> Recorded(project, excluded, final) && Evidence(r.value.0, seed, final, protected)
    ensures r.Success? ==>
        BlobsHold(r.value.1, Payloads(r.value.0.changes)) && Totals.Total(BlobSizes(r.value.1)) <= maxBytes
    ensures r.Success? ==>
        (r.value.0.violations == {} <==>
            Faultless(ToManifest(seed.entries), project, current, protected, excluded, maxBytes))
    ensures r.Success? ==> forall v :: v in r.value.0.violations ==>
        Grounded(v, project, excluded, final, r.value.0.changes, protected, current, maxBytes, r.value.1)
    ensures r.Success? && r.value.0.violations == {} ==>
              final == ManifestOf(project.nodes, excluded) && r.value.1.Keys == Payloads(r.value.0.changes).Keys
  {
    hide Grounded, Faultless, TrustedPaths, ValidSnapshot, BlobsHold, BlobSizes, AffectsProtected, Recorded, Excluded,
         Listing, ToManifest;
    final := map[];
    if !(0 <= maxBytes <= DEFAULT_MAX_BYTES) {
      return Failure(BadMaxBytes), final;
    }
    if !TrustedPaths(protected, excluded) {
      return Failure(UnsafeTrustedPath), final;
    }
    if !ValidSnapshot(seed) {
      return Failure(InvalidSnapshot), final;
    }
    if exists listed :: listed in seed.entries && Excluded(listed.path, excluded) {
      return Failure(ExcludedEntry), final;
    }
    var m, changes, blobs, violations :=
      Gather(ToManifest(seed.entries), project, current, protected, excluded, maxBytes);
    final := m;
    r := Success((Bundle(seed.digest, DigestOf(Listing(m)), changes, violations), blobs));
  }
}
