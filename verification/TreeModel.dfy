/** The entities of a tree snapshot: file-system nodes, manifest entries, and the content naming. */
module TreeModel {
  import opened Options
  import opened RelativePaths

  const MAX_ENTRIES := 100_000
  const MAX_CHANGES := MAX_ENTRIES * 2
  const DEFAULT_MAX_BYTES := 33_554_432
  const MAX_FILE_BYTES := 134_217_728
  const MAX_SCAN_BYTES := 1_073_741_824
  const MAX_SYMLINK_DEPTH := 128

  newtype byte = x: int | 0 <= x < 256

  /** What stands at a path of a real tree. The flags say whether the operating system lets it be read. */
  datatype Node =
    | Directory(listable: bool)
    | RegularFile(content: seq<byte>, executable: bool, readable: bool)
    | SymbolicLink(target: string, readable: bool)
    | SpecialFile
    | Unavailable

  type Tree = map<string, Node>

  datatype Root = RootUnavailable | RootNotDirectory | RootDirectory(listable: bool)

  datatype Project = Project(root: Root, nodes: Tree)

  /** What a manifest records of a path. The path itself is the key of the manifest. */
  datatype Entry =
    | DirectoryEntry
    | FileEntry(sha256: string, size: int, executable: bool)
    | SymlinkEntry(target: string)

  type Manifest = map<string, Entry>

  function Lookup<V>(m: map<string, V>, path: string): Option<V> {
    if path in m then Some(m[path]) else None
  }

  /** A file-system path: every proper ancestor of an existing path is a directory. */
  ghost predicate WellFormedTree(nodes: Tree) {
    && (forall p :: p in nodes ==> forall part :: part in Components(p) ==> part !in ["", ".", ".."])
    && (forall p, q {:trigger Above(q, p)} :: p in nodes && Above(q, p) ==> q in nodes && nodes[q].Directory?)
  }

  /** The name of a content: a string from which the content can be told, as SHA-256 is taken to be. */
  function Sha256(content: seq<byte>): string {
    seq(|content|, i requires 0 <= i < |content| => content[i] as char)
  }

  lemma Sha256Injective(a: seq<byte>, b: seq<byte>)
    requires Sha256(a) == Sha256(b)
    ensures a == b
  {
    assert |a| == |Sha256(a)| == |Sha256(b)| == |b|;
    forall i | 0 <= i < |a| ensures a[i] == b[i] {
      assert Sha256(a)[i] == Sha256(b)[i];
    }
  }

  function EntryOf(node: Node): Option<Entry> {
    match node
    case Directory(_) => Some(DirectoryEntry)
    case RegularFile(content, executable, _) => Some(FileEntry(Sha256(content), |content|, executable))
    case SymbolicLink(target, _) => Some(SymlinkEntry(target))
    case SpecialFile => None
    case Unavailable => None
  }

  predicate IsLink(entries: Manifest, path: string) {
    path in entries && entries[path].SymlinkEntry?
  }

  function SizeOf(entry: Entry): int {
    if entry.FileEntry? then entry.size else 0
  }
}
