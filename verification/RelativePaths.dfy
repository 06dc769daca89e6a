/** Relative paths with "/" between the components, and the path predicates of the snapshot code. */
module RelativePaths {
  import opened Text

  function Components(path: string): seq<string> {
    Split(path, '/')
  }

  function PathOf(components: seq<string>): string {
    Join(components, '/')
  }

  /** A drive or share prefix, as `ntpath.splitdrive` sees it. */
  predicate HasDrive(value: string) {
    |value| >= 2 &&
    if value[0] in "/\\" then value[1] in "/\\" else value[1] == ':'
  }

  predicate SafeRelative(value: string) {
    && value != ""
    && !HasDrive(value)
    && value[0] != '/'
    && '\\' !in value
    && '\0' !in value
    && forall part :: part in Components(value) ==> part !in ["", ".", ".."]
  }

  /** A link target the resolver is willing to follow. */
  predicate SafeTarget(target: string) {
    && target != ""
    && '\0' !in target
    && '\\' !in target
    && !HasDrive(target)
    && target[0] != '/'
  }

  /** A path that is accepted, said of its characters and of the names between its slashes. */
  ghost predicate PlainPath(value: string) {
    && value != "" && '\\' !in value && '\0' !in value && !(|value| >= 2 && value[1] == ':')
    && forall part :: part in Components(value) ==> part != "" && part != "." && part != ".."
  }

  lemma SafeRelativeMeans(value: string)
    ensures SafeRelative(value) <==> PlainPath(value)
  {
    if value != "" && value[0] == '/' { assert Components(value)[0] == "" && "" in Components(value); }
    forall part ensures part in ["", ".", ".."] <==> part == "" || part == "." || part == ".." {
      assert ["", ".", ".."] == [""] + ["."] + [".."];
    }
    if value != "" { assert value[0] in "/\\" <==> value[0] == '/' || value[0] == '\\'; }
  }

  lemma SafeTargetMeans(target: string)
    ensures SafeTarget(target) <==>
              && target != "" && target[0] != '/' && '\\' !in target && '\0' !in target
              && !(|target| >= 2 && target[1] == ':')
  {}

  /** `q` is a proper ancestor of `path`. */
  predicate Above(q: string, path: string) {
    q + "/" <= path
  }

  predicate AtOrUnder(path: string, parent: string) {
    path == parent || Above(parent, path)
  }

  predicate Intersects(first: string, second: string) {
    AtOrUnder(first, second) || AtOrUnder(second, first)
  }

  predicate AffectsProtected(path: string, protected: set<string>) {
    exists item :: item in protected && Intersects(path, item)
  }

  predicate Excluded(path: string, excluded: set<string>) {
    exists item :: item in excluded && AtOrUnder(path, item)
  }

  /** The proper ancestors of a path, shortest first: the joins of its leading components. */
  function Ancestors(path: string): seq<string> {
    seq(|Components(path)| - 1, i requires 0 <= i < |Components(path)| - 1 => PathOf(Components(path)[..i + 1]))
  }

  /** The path of the containing directory, "" for an entry at the top. */
  function ParentOf(path: string): string {
    PathOf(Components(path)[..|Components(path)| - 1])
  }

  function LastName(path: string): string {
    var parts := Components(path);
    parts[|parts| - 1]
  }

  /** The path the scan gives to the item `name` of the directory `prefix`. */
  function ChildPath(prefix: string, name: string): string {
    if prefix == "" then name else prefix + "/" + name
  }

  lemma ChildOfParent(prefix: string, name: string)
    requires '/' !in name
    ensures ParentOf(ChildPath(prefix, name)) == prefix && LastName(ChildPath(prefix, name)) == name
  {
    SplitWhole(name, '/');
    if prefix != "" {
      SplitAppend(prefix, name, '/');
      JoinSplit(prefix, '/');
      assert Components(ChildPath(prefix, name))[..|Components(prefix)|] == Components(prefix);
    }
  }

  lemma ParentAndName(path: string)
    ensures |Components(path)| == 1 ==> ParentOf(path) == "" && LastName(path) == path
    ensures |Components(path)| > 1 ==> path == ParentOf(path) + "/" + LastName(path) && |ParentOf(path)| < |path|
    ensures |Components(path)| > 1 ==> ParentOf(path) in Ancestors(path)
  {
    var parts := Components(path);
    var n := |parts|;
    JoinSplit(path, '/');
    if n > 1 {
      JoinAppend(parts[..n - 1], parts[n - 1..], '/');
      assert parts[..n - 1] + parts[n - 1..] == parts;
      assert Ancestors(path)[n - 2] == ParentOf(path);
    }
  }

  /** At or under, on strings, is the prefix relation on component lists. */
  lemma AtOrUnderIsComponentPrefix(path: string, parent: string)
    ensures AtOrUnder(path, parent) <==> Components(parent) <= Components(path)
  {
    JoinSplit(path, '/');
    JoinSplit(parent, '/');
    if Above(parent, path) {
      var rest := path[|parent| + 1..];
      SplitAppend(parent, rest, '/');
      assert path == parent + ['/'] + rest;
    }
    if Components(parent) <= Components(path) {
      var rest := Components(path)[|Components(parent)|..];
      assert Components(path) == Components(parent) + rest;
      if rest == [] {
        assert Components(path) == Components(parent);
      } else {
        JoinAppend(Components(parent), rest, '/');
      }
    }
  }

  /** The ancestors found by joining leading components are the strings that stand before a slash. */
  lemma AncestorsAreSlashPrefixes(path: string, q: string)
    ensures q in Ancestors(path) <==> Above(q, path)
  {
    var parts := Components(path);
    AtOrUnderIsComponentPrefix(path, q);
    SplitNoSeparator(path, '/');
    if Above(q, path) {
      var k := |Components(q)|;
      var rest := path[|q| + 1..];
      assert path == q + ['/'] + rest;
      SplitAppend(q, rest, '/');
      JoinSplit(q, '/');
      assert parts == Components(q) + Components(rest);
      assert parts[..k] == Components(q) && k < |parts|;
      assert Ancestors(path)[k - 1] == PathOf(parts[..k]);
    }
    if q in Ancestors(path) {
      var i :| 0 <= i < |Ancestors(path)| && Ancestors(path)[i] == q;
      assert q == PathOf(parts[..i + 1]);
      assert parts == parts[..i + 1] + parts[i + 1..];
      JoinAppend(parts[..i + 1], parts[i + 1..], '/');
      JoinSplit(path, '/');
    }
  }

  lemma AtOrUnderTransitive(a: string, b: string, c: string)
    requires AtOrUnder(a, b) && AtOrUnder(b, c)
    ensures AtOrUnder(a, c)
  {}

  /** What is excluded stays excluded below. */
  lemma ExcludedBelow(path: string, q: string, excluded: set<string>)
    requires Above(q, path) && Excluded(q, excluded)
    ensures Excluded(path, excluded)
  {
    var item :| item in excluded && AtOrUnder(q, item);
    AtOrUnderTransitive(path, q, item);
  }
}
