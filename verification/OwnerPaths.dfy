/** Folders, receivers, and the candidate whose folder is nearest to a path. */
module OwnerPaths {
  import opened Text

  predicate IsSeparator(c: char) {
    c == '/' || c == '\\'
  }

  function Slashed(path: string): string {
    if path == "" then "" else [if path[0] == '\\' then '/' else path[0]] + Slashed(path[1..])
  }

  /** The segments before the last, whichever separator is between them. */
  function Folders(path: string): seq<string> {
    var segments := Split(Slashed(path), '/');
    segments[..|segments| - 1]
  }

  /** What precedes the last separator; nothing when there is none. */
  function ParentFolder(path: string): string {
    if path == "" then ""
    else if IsSeparator(path[|path| - 1]) then path[..|path| - 1]
    else ParentFolder(path[..|path| - 1])
  }

  // What they are of a path as it is written.

  /** A name of a folder or a file. */
  predicate IsName(name: string) {
    '/' !in name && '\\' !in name
  }

  lemma {:induction false} NameHasNoFolder(file: string)
    requires IsName(file)
    ensures ParentFolder(file) == ""
  {
    if file != "" {
      assert file[|file| - 1] in file;
      NameHasNoFolder(file[..|file| - 1]);
    }
  }

  /** The folder of a file is what is written before its name and the separator, whichever that is. */
  lemma {:induction false} FolderOfFile(folder: string, separator: char, file: string)
    requires (separator == '/' || separator == '\\') && IsName(file)
    ensures ParentFolder(folder + [separator] + file) == folder
    decreases |file|
  {
    var path := folder + [separator] + file;
    if file == "" {
      assert path[..|path| - 1] == folder;
    } else {
      assert file[|file| - 1] in file;
      assert path[..|path| - 1] == folder + [separator] + file[..|file| - 1];
      FolderOfFile(folder, separator, file[..|file| - 1]);
    }
  }

  predicate FallsInto(path: string, folder: string, separator: char, file: string) {
    (separator == '/' || separator == '\\') && IsName(file) && path == folder + [separator] + file
  }

  /** The path is that of a file in the folder: the folder's text, a separator, a name; or a name alone. */
  ghost predicate StandsIn(path: string, folder: string) {
    (folder == "" && IsName(path)) || exists separator, file :: FallsInto(path, folder, separator, file)
  }

  /** Every path stands in the folder the function gives, and in no other. */
  lemma {:induction false} FolderIsWhereItStands(path: string, folder: string)
    ensures ParentFolder(path) == folder <==> StandsIn(path, folder)
  {
    if StandsIn(path, folder) {
      if folder == "" && IsName(path) {
        NameHasNoFolder(path);
      } else {
        var separator, file :| FallsInto(path, folder, separator, file);
        FolderOfFile(folder, separator, file);
      }
    }
    if ParentFolder(path) == folder { StandsInItsFolder(path); }
  }

  lemma {:induction false} StandsInItsFolder(path: string)
    ensures StandsIn(path, ParentFolder(path))
  {
    if path != "" {
      var n := |path| - 1;
      if IsSeparator(path[n]) {
        assert FallsInto(path, path[..n], path[n], "");
      } else {
        StandsInItsFolder(path[..n]);
        StandsInWithMore(path[..n], ParentFolder(path[..n]), path[n]);
        assert path == path[..n] + [path[n]];
      }
    }
  }

  lemma StandsInWithMore(path: string, folder: string, c: char)
    requires StandsIn(path, folder) && !IsSeparator(c)
    ensures StandsIn(path + [c], folder)
  {
    if !(folder == "" && IsName(path)) {
      var separator, file :| FallsInto(path, folder, separator, file);
      assert FallsInto(path + [c], folder, separator, file + [c]);
    }
  }

  /** A path: folders, each with the separator behind it, and a file. */
  function Written(folders: seq<string>, separators: string, file: string): string
    requires |folders| == |separators|
  {
    if folders == [] then file
    else folders[0] + [separators[0]] + Written(folders[1..], separators[1..], file)
  }

  lemma {:induction false} SlashedAppend(a: string, b: string)
    ensures Slashed(a + b) == Slashed(a) + Slashed(b)
  {
    if a == "" {
      assert a + b == b;
    } else {
      SlashedAppend(a[1..], b);
      assert (a + b)[1..] == a[1..] + b;
    }
  }

  lemma {:induction false} SlashedName(name: string)
    requires IsName(name)
    ensures Slashed(name) == name
  {
    if name != "" {
      assert name[0] in name;
      SlashedName(name[1..]);
    }
  }

  lemma {:induction false} SlashedPath(folders: seq<string>, separators: string, file: string)
    requires |folders| == |separators| && (forall c :: c in separators ==> c == '/' || c == '\\')
    requires (forall name :: name in folders ==> IsName(name)) && IsName(file)
    ensures Slashed(Written(folders, separators, file)) == Join(folders + [file], '/')
    decreases |folders|
  {
    if folders == [] {
      SlashedName(file);
    } else {
      var rest := Written(folders[1..], separators[1..], file);
      assert separators[0] in separators && folders[0] in folders;
      assert forall name :: name in folders[1..] ==> name in folders;
      assert forall c :: c in separators[1..] ==> c in separators;
      SlashedPath(folders[1..], separators[1..], file);
      SlashedAppend(folders[0] + [separators[0]], rest);
      SlashedAppend(folders[0], [separators[0]]);
      SlashedName(folders[0]);
      assert Slashed([separators[0]]) == "/";
      assert (folders + [file])[1..] == folders[1..] + [file];
    }
  }

  /** The folders of a path are those it is written with, whichever separators stand between them. */
  lemma FoldersOfPath(folders: seq<string>, separators: string, file: string)
    requires |folders| == |separators| && (forall c :: c in separators ==> c == '/' || c == '\\')
    requires (forall name :: name in folders ==> IsName(name)) && IsName(file)
    ensures Folders(Written(folders, separators, file)) == folders
  {
    SlashedPath(folders, separators, file);
    SplitJoin(folders + [file], '/');
  }

  // Shared leading folders.

  function Shared(a: seq<string>, b: seq<string>): (n: nat)
    ensures n <= |a| && n <= |b|
  {
    if a == [] || b == [] || a[0] != b[0] then 0 else 1 + Shared(a[1..], b[1..])
  }

  /** The score is the length of the longest list of folders that both paths begin with. */
  lemma {:induction false} SharedIsLongest(a: seq<string>, b: seq<string>)
    ensures a[..Shared(a, b)] == b[..Shared(a, b)]
    ensures forall n :: 0 <= n <= |a| && n <= |b| && a[..n] == b[..n] ==> n <= Shared(a, b)
  {
    if a != [] && b != [] && a[0] == b[0] {
      SharedIsLongest(a[1..], b[1..]);
      var n := Shared(a[1..], b[1..]);
      assert a[..n + 1] == [a[0]] + a[1..][..n] && b[..n + 1] == [b[0]] + b[1..][..n];
      forall k | 0 < k <= |a| && k <= |b| && a[..k] == b[..k] ensures a[1..][..k - 1] == b[1..][..k - 1] {
        assert a[1..][..k - 1] == a[..k][1..] && b[1..][..k - 1] == b[..k][1..];
      }
    } else if a != [] && b != [] {
      forall k | 0 < k <= |a| && k <= |b| ensures a[..k] != b[..k] {
        assert a[..k][0] == a[0] && b[..k][0] == b[0];
      }
    }
  }

  lemma SharedStops(a: seq<string>, b: seq<string>)
    ensures var n := Shared(a, b); a[..n] == b[..n] && (n == |a| || n == |b| || a[n] != b[n])
  {
    SharedIsLongest(a, b);
    AlikeOneMore(a, b, Shared(a, b));
  }

  lemma AlikeOneMore(a: seq<string>, b: seq<string>, n: nat)
    requires n <= |a| && n <= |b| && a[..n] == b[..n]
    ensures n < |a| && n < |b| && a[n] == b[n] ==> a[..n + 1] == b[..n + 1]
  {
    if n < |a| && n < |b| && a[n] == b[n] {
      assert a[..n + 1] == a[..n] + [a[n]] && b[..n + 1] == b[..n] + [b[n]];
    }
  }

  function Score(path: string, candidate: string): nat {
    Shared(Folders(path), Folders(candidate))
  }

  /**
    The score of two paths, said of what they are written with: so many folders they begin with alike, and
    no more.
   */
  lemma ScoreOfPaths(a: seq<string>, separatorsA: string, fileA: string, b: seq<string>, separatorsB: string,
      fileB: string)
    requires |a| == |separatorsA| && (forall c :: c in separatorsA ==> c == '/' || c == '\\')
    requires (forall name :: name in a ==> IsName(name)) && IsName(fileA)
    requires |b| == |separatorsB| && (forall c :: c in separatorsB ==> c == '/' || c == '\\')
    requires (forall name :: name in b ==> IsName(name)) && IsName(fileB)
    ensures var n := Score(Written(a, separatorsA, fileA), Written(b, separatorsB, fileB));
            n <= |a| && n <= |b| && a[..n] == b[..n] && (n == |a| || n == |b| || a[n] != b[n])
  {
    hide Folders, Written, IsName;
    FoldersOfPath(a, separatorsA, fileA);
    FoldersOfPath(b, separatorsB, fileB);
    SharedStops(a, b);
  }

  datatype Candidate = Candidate(id: string, path: string)

  datatype Found = Nothing | Found(index: nat)

  /** Strictly nearer than every other candidate. */
  predicate Nearest(path: string, candidates: seq<Candidate>, k: nat) {
    k < |candidates|
    && forall j :: 0 <= j < |candidates| && j != k ==> Score(path, candidates[j].path) < Score(path, candidates[k].path)
  }

  /** The pass keeps the best score and whether it was met twice. */
  method NearestOwner(path: string, candidates: seq<Candidate>) returns (found: Found)
    ensures found.Found? <==> exists k :: Nearest(path, candidates, k)
    ensures found.Found? ==> Nearest(path, candidates, found.index)
  {
    hide Score;
    var best, top := Nothing, 0;
    var tied := false;
    for i := 0 to |candidates|
      invariant best.Nothing? <==> i == 0
      invariant i == 0 ==> !tied
      invariant best.Found? ==> best.index < i && top == Score(path, candidates[best.index].path)
      invariant best.Found? ==> forall j :: 0 <= j < i ==> Score(path, candidates[j].path) <= top
      invariant best.Found? ==>
          (tied <==> exists j :: 0 <= j < i && j != best.index && Score(path, candidates[j].path) == top)
    {
      var score := Score(path, candidates[i].path);
      if best.Found? && score < top {
      } else if best.Found? && score == top {
        tied := true;
      } else {
        best, top := Found(i), score;
        tied := false;
      }
    }
    if best.Found? && !tied {
      assert Nearest(path, candidates, best.index);
      return best;
    }
    forall k | 0 <= k < |candidates| ensures !Nearest(path, candidates, k) {
      NotNearest(path, candidates, k, best.index, top);
    }
    found := Nothing;
  }

  lemma NotNearest(path: string, candidates: seq<Candidate>, k: nat, best: nat, top: nat)
    requires k < |candidates| && best < |candidates| && Score(path, candidates[best].path) == top
    requires forall j :: 0 <= j < |candidates| ==> Score(path, candidates[j].path) <= top
    requires exists j :: 0 <= j < |candidates| && j != best && Score(path, candidates[j].path) == top
    ensures !Nearest(path, candidates, k)
  {
    var j :| 0 <= j < |candidates| && j != best && Score(path, candidates[j].path) == top;
    var other := if k == best then j else best;
    assert Score(path, candidates[other].path) == top;
  }

  // Go receivers.

  predicate IsTrimmed(c: char) {
    c == '*' || c == '(' || c == ')' || IsSpace(c)
  }

  predicate IsSpace(c: char) {
    c == ' ' || '\t' <= c <= '\r'
  }

  /** What may stand around the name: pointer, parentheses, blanks, tabs and line ends. */
  const AROUND := "*() \t\n\U{B}\U{C}\r"

  predicate AllTrimmed(s: string) {
    forall c :: c in s ==> c in AROUND
  }

  lemma TrimmedIsAround()
    ensures forall c :: IsTrimmed(c) <==> c in AROUND
  {
    forall c ensures IsTrimmed(c) <==> c in AROUND {
      assert '\t' <= c <= '\r' <==> c == '\t' || c == '\n' || c == '\U{B}' || c == '\U{C}' || c == '\r';
    }
  }

  function TrimStart(s: string, drop: char -> bool): string {
    if s != "" && drop(s[0]) then TrimStart(s[1..], drop) else s
  }

  function TrimEnd(s: string, drop: char -> bool): string {
    if s != "" && drop(s[|s| - 1]) then TrimEnd(s[..|s| - 1], drop) else s
  }

  function Trim(s: string, drop: char -> bool): string {
    TrimEnd(TrimStart(s, drop), drop)
  }

  /** The type a receiver names, without pointer, parentheses or type parameters. */
  function ReceiverType(receiver: string): string {
    Trim(Split(Trim(receiver, IsTrimmed), '[')[0], IsSpace)
  }

  lemma {:induction false} TrimStartStops(pre: string, rest: string, drop: char -> bool)
    requires (forall c :: c in pre ==> drop(c)) && (rest == "" || !drop(rest[0]))
    ensures TrimStart(pre + rest, drop) == rest
  {
    if pre == "" {
      assert pre + rest == rest;
    } else {
      assert pre[0] in pre && (pre + rest)[1..] == pre[1..] + rest;
      TrimStartStops(pre[1..], rest, drop);
    }
  }

  lemma {:induction false} TrimEndStops(rest: string, post: string, drop: char -> bool)
    requires (forall c :: c in post ==> drop(c)) && (rest == "" || !drop(rest[|rest| - 1]))
    ensures TrimEnd(rest + post, drop) == rest
  {
    if post == "" {
      assert rest + post == rest;
    } else {
      var n := |post| - 1;
      assert post[n] in post && (rest + post)[..|rest + post| - 1] == rest + post[..n];
      TrimEndStops(rest, post[..n], drop);
    }
  }

  /** A type name, as Go writes one. */
  predicate IsTypeName(name: string) {
    name != "" && forall c :: c in name ==> c !in AROUND && c != '['
  }

  /** A receiver such as `*List` or `(List )`. */
  lemma PlainReceiver(pre: string, name: string, post: string)
    requires IsTypeName(name) && AllTrimmed(pre) && AllTrimmed(post)
    ensures ReceiverType(pre + name + post) == name
  {
    TrimmedIsAround();
    assert pre + name + post == pre + (name + post);
    assert name[0] in name && name[|name| - 1] in name;
    TrimStartStops(pre, name + post, IsTrimmed);
    TrimEndStops(name, post, IsTrimmed);
    SplitWhole(name, '[');
    NothingToTrim(name);
  }

  /** A receiver with type parameters, such as `*List[T]`, blanks before the bracket or not. */
  lemma GenericReceiver(pre: string, name: string, gap: string, parameters: string, post: string)
    requires IsTypeName(name) && AllTrimmed(pre) && AllTrimmed(post) && forall c :: c in gap ==> c == ' ' || c == '\t'
    ensures ReceiverType(pre + name + gap + "[" + parameters + "]" + post) == name
  {
    TrimmedIsAround();
    var bare := name + gap;
    var inner := bare + "[" + parameters + "]";
    assert pre + name + gap + "[" + parameters + "]" + post == pre + (inner + post);
    assert name[0] in name && name[|name| - 1] in name;
    TrimStartStops(pre, inner + post, IsTrimmed);
    TrimEndStops(inner, post, IsTrimmed);
    assert inner == bare + ['['] + (parameters + "]");
    SplitAppend(bare, parameters + "]", '[');
    SplitWhole(bare, '[');
    TrimStartStops("", bare, IsSpace);
    assert "" + bare == bare;
    TrimEndStops(name, gap, IsSpace);
  }

  lemma NothingToTrim(name: string)
    requires IsTypeName(name)
    ensures Trim(name, IsSpace) == name
  {
    assert name[0] in name && name[|name| - 1] in name;
  }
}
