/** Linking methods to types declared elsewhere: which owner each gets, and what writing the links changes. */
module OwnerLinks {
  import opened Options
  import opened SymbolIndex
  import opened SymbolExactness
  import opened SymbolStore
  import opened OwnerPaths

  /** The kinds of type that can own a method. */
  predicate CanOwn(kind: Kind) {
    kind.TypeKind?
  }

  function TypesNamed(rows: Rows, name: string, language: string): set<RowId> {
    set c | c in rows && rows[c].name == name && rows[c].language == language && CanOwn(rows[c].kind)
  }

  // Go packages.

  function PackageRows(rows: Rows, path: string): set<RowId> {
    set c | c in rows && rows[c].path == path && rows[c].language == "go" && rows[c].kind.ModuleKind?
  }

  predicate IsFirst(s: set<RowId>, r: RowId) {
    r in s && forall q :: q in s ==> r.value <= q.value
  }

  /** The package clause of a file: the first, where a file has several. */
  ghost predicate PackageIs(rows: Rows, path: string, package: Option<string>) {
    match package
    case None => PackageRows(rows, path) == {}
    case Some(name) => exists r :: IsFirst(PackageRows(rows, path), r) && rows[r].name == name
  }

  lemma OnePackage(rows: Rows, path: string, a: Option<string>, b: Option<string>)
    requires PackageIs(rows, path, a) && PackageIs(rows, path, b)
    ensures a == b
  {}

  ghost predicate SamePackage(rows: Rows, a: string, b: string) {
    exists package :: PackageIs(rows, a, package) && PackageIs(rows, b, package)
  }

  class GoPackages {
    const rows: Rows
    var names: map<string, Option<string>>

    ghost predicate Valid()
      reads this
    {
      forall path :: path in names ==> PackageIs(rows, path, names[path])
    }

    constructor (rows: Rows)
      ensures Valid() && this.rows == rows
    {
      this.rows := rows;
      names := map[];
    }

    /** The package clause of a file, read once per file. */
    method Of(path: string) returns (name: Option<string>)
      requires Valid()
      modifies this
      ensures Valid() && PackageIs(rows, path, name)
    {
      if path in names { return names[path]; }
      var rest, first := PackageRows(rows, path), None;
      while rest != {}
        invariant rest <= PackageRows(rows, path)
        invariant first.None? ==> rest == PackageRows(rows, path)
        invariant first.Some? ==> IsFirst(PackageRows(rows, path) - rest, first.value)
        decreases rest
      {
        var r :| r in rest;
        rest := rest - {r};
        if first.None? || r.value < first.value.value { first := Some(r); }
      }
      name := if first.Some? then Some(rows[first.value].name) else None;
      assert first.Some? ==> IsFirst(PackageRows(rows, path), first.value);
      names := names[path := name];
    }
  }

  // The owner of a Go method.

  function InFolder(rows: Rows, s: Symbol, typeName: string): set<RowId> {
    set c | c in TypesNamed(rows, typeName, "go") && ParentFolder(rows[c].path) == ParentFolder(s.path)
  }

  ghost function InPackage(rows: Rows, s: Symbol, candidates: set<RowId>): set<RowId>
    requires candidates <= rows.Keys
  {
    set c | c in candidates && SamePackage(rows, rows[c].path, s.path)
  }

  function InFile(rows: Rows, s: Symbol, candidates: set<RowId>): set<RowId>
    requires candidates <= rows.Keys
  {
    set c | c in candidates && rows[c].path == s.path
  }

  /** The types of the folder; of several, those of the package; of several, those of the file. */
  ghost function Narrowed(rows: Rows, s: Symbol, typeName: string): (r: set<RowId>)
    ensures r <= TypesNamed(rows, typeName, "go")
  {
    var folder := InFolder(rows, s, typeName);
    var package := if |folder| > 1 then InPackage(rows, s, folder) else folder;
    if |package| > 1 then InFile(rows, s, package) else package
  }

  predicate GoUnlinked(s: Symbol) {
    s.parent.None? && s.language == "go" && s.kind.Method? && s.facts.receiver.Some? &&
      ReceiverType(s.facts.receiver.value) != ""
  }

  ghost predicate GoOwns(rows: Rows, s: Symbol, owner: RowId) {
    GoUnlinked(s) && Narrowed(rows, s, ReceiverType(s.facts.receiver.value)) == {owner}
  }

  /** A Go owner is a Go type with the receiver's name, and its file stands in the folder of the method's. */
  lemma GoOwnerMeans(rows: Rows, s: Symbol, owner: RowId)
    requires GoOwns(rows, s, owner)
    ensures s.parent.None? && s.language == "go" && s.kind.Method? && s.facts.receiver.Some?
    ensures owner in rows && rows[owner].language == "go" && rows[owner].kind.TypeKind?
    ensures rows[owner].name == ReceiverType(s.facts.receiver.value) != ""
    ensures exists folder :: StandsIn(s.path, folder) && StandsIn(rows[owner].path, folder)
  {
    hide StandsIn, ReceiverType;
    assert owner in {owner};
    FolderIsWhereItStands(s.path, ParentFolder(s.path));
    FolderIsWhereItStands(rows[owner].path, ParentFolder(s.path));
  }

  /** The row is the package clause of the file: a Go module row of the file, the first of them. */
  ghost predicate FirstClause(rows: Rows, path: string, r: RowId) {
    && r in rows && rows[r].path == path && rows[r].language == "go" && rows[r].kind.ModuleKind?
    && forall q :: q in rows && rows[q].path == path && rows[q].language == "go" && rows[q].kind.ModuleKind? ==>
         r.value <= q.value
  }

  ghost predicate HasClause(rows: Rows, path: string) {
    exists r :: r in rows && rows[r].path == path && rows[r].language == "go" && rows[r].kind.ModuleKind?
  }

  /** Both files have package clauses of one name, or neither has any. */
  ghost predicate ClausesAgree(rows: Rows, a: string, b: string) {
    if HasClause(rows, a) && HasClause(rows, b)
    then exists r, q :: FirstClause(rows, a, r) && FirstClause(rows, b, q) && rows[r].name == rows[q].name
    else !HasClause(rows, a) && !HasClause(rows, b)
  }

  lemma PackageMeans(rows: Rows, path: string, package: Option<string>)
    ensures PackageIs(rows, path, package) <==>
              if package.None? then !HasClause(rows, path)
              else exists r :: FirstClause(rows, path, r) && rows[r].name == package.value
  {
    if r :| r in rows && rows[r].path == path && rows[r].language == "go" && rows[r].kind.ModuleKind? {
      assert r in PackageRows(rows, path);
    }
    forall r ensures IsFirst(PackageRows(rows, path), r) <==> FirstClause(rows, path, r) {}
  }

  lemma SamePackageMeans(rows: Rows, a: string, b: string)
    ensures SamePackage(rows, a, b) <==> ClausesAgree(rows, a, b)
  {
    hide PackageIs;
    forall path, package
      ensures PackageIs(rows, path, package) <==>
                if package.None? then !HasClause(rows, path)
                else exists r :: FirstClause(rows, path, r) && rows[r].name == package.value
    {
      PackageMeans(rows, path, package);
    }
    if !HasClause(rows, a) && !HasClause(rows, b) { assert PackageIs(rows, a, None) && PackageIs(rows, b, None); }
    if HasClause(rows, a) && HasClause(rows, b) && ClausesAgree(rows, a, b) {
      var r, q :| FirstClause(rows, a, r) && FirstClause(rows, b, q) && rows[r].name == rows[q].name;
      assert PackageIs(rows, a, Some(rows[r].name)) && PackageIs(rows, b, Some(rows[r].name));
    }
  }

  /** The Go types of the name in files that stand in the folder. */
  ghost function GoTypesIn(rows: Rows, name: string, folder: string): set<RowId> {
    set c | c in rows && rows[c].language == "go" && rows[c].kind.TypeKind? && rows[c].name == name
            && StandsIn(rows[c].path, folder)
  }

  /**
    The type owns the method: it is the only one of the name in the method's folder, or the only one there
    with the method's package clause, or the only one there in the method's file.
   */
  lemma GoOwnsIff(rows: Rows, s: Symbol, owner: RowId, folder: string)
    requires s.parent.None? && s.language == "go" && s.kind.Method? && s.facts.receiver.Some?
    requires ReceiverType(s.facts.receiver.value) != "" && StandsIn(s.path, folder)
    ensures var types := GoTypesIn(rows, ReceiverType(s.facts.receiver.value), folder);
            GoOwns(rows, s, owner) <==>
              || types == {owner}
              || (set c | c in types && ClausesAgree(rows, rows[c].path, s.path)) == {owner}
              || (set c | c in types && rows[c].path == s.path) == {owner}
  {
    hide StandsIn, ReceiverType, PackageIs, SamePackage, ClausesAgree, ParentFolder, TypesNamed, InFolder, GoTypesIn;
    var name := ReceiverType(s.facts.receiver.value);
    var types := InFolder(rows, s, name);
    FolderIsWhereItStands(s.path, folder);
    TypesOfFolder(rows, s, name, folder);
    forall c | c in types
      ensures SamePackage(rows, rows[c].path, s.path) <==> ClausesAgree(rows, rows[c].path, s.path)
    {
      SamePackageMeans(rows, rows[c].path, s.path);
    }
    ClausesAgreeAlone(rows, s.path);
    var package := InPackage(rows, s, types);
    var file := InFile(rows, s, package);
    assert package == set c | c in types && ClausesAgree(rows, rows[c].path, s.path);
    assert file == set c | c in types && rows[c].path == s.path;
    NarrowedToOne(types, package, file, owner);
  }

  lemma NarrowedToOne(types: set<RowId>, package: set<RowId>, file: set<RowId>, owner: RowId)
    requires file <= package <= types
    ensures var left := if |types| > 1 then package else types;
            (if |left| > 1 then file else left) == {owner} <==>
              types == {owner} || package == {owner} || file == {owner}
  {
    JustOne(types, owner);
    JustOne(package, owner);
    JustOne(file, owner);
  }

  lemma ClausesAgreeAlone(rows: Rows, path: string)
    ensures ClausesAgree(rows, path, path)
  {
    if HasClause(rows, path) {
      var some :| some in rows && rows[some].path == path && rows[some].language == "go" && rows[some].kind.ModuleKind?;
      assert some in PackageRows(rows, path);
      var r := LeastRow(PackageRows(rows, path));
      assert FirstClause(rows, path, r);
    }
  }

  lemma {:induction false} LeastRow(s: set<RowId>) returns (r: RowId)
    requires s != {}
    ensures r in s && forall q :: q in s ==> r.value <= q.value
  {
    r :| r in s;
    if s != {r} {
      var q := LeastRow(s - {r});
      if q.value < r.value { r := q; }
    }
  }

  lemma JustOne(s: set<RowId>, r: RowId)
    ensures s == {r} <==> r in s && forall c :: c in s ==> c == r
    ensures s == {r} ==> |s| == 1
    ensures r in s && |s| <= 1 ==> s == {r}
  {
    if r in s && |s| <= 1 && s != {r} { Smaller({r}, s); }
  }

  lemma TypesOfFolder(rows: Rows, s: Symbol, name: string, folder: string)
    requires ParentFolder(s.path) == folder
    ensures InFolder(rows, s, name) == GoTypesIn(rows, name, folder) <= rows.Keys
  {
    hide StandsIn, ParentFolder;
    forall c | c in rows ensures ParentFolder(rows[c].path) == folder <==> StandsIn(rows[c].path, folder) {
      FolderIsWhereItStands(rows[c].path, folder);
    }
  }

  // The owner of a method in an `impl` block away from its type.

  predicate ImplUnlinked(s: Symbol) {
    s.parent.None? && s.facts.implType.Some?
  }

  predicate Closest(rows: Rows, path: string, candidates: set<RowId>, c: RowId)
    requires candidates <= rows.Keys
  {
    c in candidates && forall d :: d in candidates && d != c ==> Score(path, rows[d].path) < Score(path, rows[c].path)
  }

  ghost predicate ImplOwns(rows: Rows, s: Symbol, owner: RowId) {
    ImplUnlinked(s) && Closest(rows, s.path, TypesNamed(rows, s.facts.implType.value, s.language), owner)
  }

  /** A type of another file owns a method: of the types with the name its metadata gives, the strictly nearest. */
  lemma ImplOwnsIff(rows: Rows, s: Symbol, owner: RowId)
    requires s.parent.None? && s.facts.implType.Some?
    ensures ImplOwns(rows, s, owner) <==>
              && OfType(rows, owner, s.facts.implType.value, s.language)
              && forall d :: OfType(rows, d, s.facts.implType.value, s.language) && d != owner ==>
                   Score(s.path, rows[d].path) < Score(s.path, rows[owner].path)
  {
    hide Score;
    forall d ensures d in TypesNamed(rows, s.facts.implType.value, s.language) <==>
        OfType(rows, d, s.facts.implType.value, s.language) {}
  }

  ghost predicate OfType(rows: Rows, c: RowId, name: string, language: string) {
    c in rows && rows[c].language == language && rows[c].kind.TypeKind? && rows[c].name == name
  }

  // The owner of a symbol.

  ghost predicate Owns(rows: Rows, s: Symbol, owner: RowId) {
    GoOwns(rows, s, owner) || (ImplOwns(rows, s, owner) && forall other :: !GoOwns(rows, s, other))
  }

  lemma OneOwner(rows: Rows, s: Symbol, a: RowId, b: RowId)
    requires Owns(rows, s, a) && Owns(rows, s, b)
    ensures a == b
  {
    if GoOwns(rows, s, a) { assert a in {b}; }
  }

  lemma OwnerIsType(rows: Rows, s: Symbol, owner: RowId)
    requires Owns(rows, s, owner)
    ensures s.parent.None? && owner in rows && CanOwn(rows[owner].kind)
  {
    if GoOwns(rows, s, owner) { assert owner in {owner}; }
  }

  // Nothing about owners depends on parent links.

  ghost predicate SameButParents(a: Rows, b: Rows) {
    a.Keys == b.Keys && forall r :: r in a ==> b[r] == a[r].(parent := b[r].parent)
  }

  lemma PackagesUnmoved(a: Rows, b: Rows, path: string, package: Option<string>)
    requires SameButParents(a, b)
    ensures PackageIs(a, path, package) <==> PackageIs(b, path, package)
  {
    assert PackageRows(a, path) == PackageRows(b, path);
  }

  lemma OwnersUnmoved(a: Rows, b: Rows, s: Symbol, owner: RowId)
    requires SameButParents(a, b)
    ensures Owns(a, s, owner) <==> Owns(b, s, owner)
  {
    forall other ensures GoOwns(a, s, other) <==> GoOwns(b, s, other) { GoOwnersUnmoved(a, b, s, other); }
    if ImplUnlinked(s) {
      assert TypesNamed(a, s.facts.implType.value, s.language) == TypesNamed(b, s.facts.implType.value, s.language);
    }
  }

  lemma GoOwnersUnmoved(a: Rows, b: Rows, s: Symbol, owner: RowId)
    requires SameButParents(a, b)
    ensures GoOwns(a, s, owner) <==> GoOwns(b, s, owner)
  {
    hide PackageIs, ParentFolder, ReceiverType;
    if GoUnlinked(s) {
      var typeName := ReceiverType(s.facts.receiver.value);
      assert TypesNamed(a, typeName, "go") == TypesNamed(b, typeName, "go");
      var folder := InFolder(a, s, typeName);
      assert folder == InFolder(b, s, typeName);
      forall c | c in folder ensures SamePackage(a, a[c].path, s.path) <==> SamePackage(b, b[c].path, s.path) {
        forall path, package
          ensures PackageIs(a, path, package) <==> PackageIs(b, path, package)
        {
          PackagesUnmoved(a, b, path, package);
        }
      }
      assert InPackage(a, s, folder) == InPackage(b, s, folder);
      assert InFile(a, s, folder) == InFile(b, s, folder);
      assert InFile(a, s, InPackage(a, s, folder)) == InFile(b, s, InPackage(b, s, folder));
    }
  }

  /** Every symbol that has an owner is linked to it, and nothing else is touched. */
  ghost predicate LinkedTo(rows: Rows, after: Rows) {
    && after.Keys == rows.Keys
    && (forall r, o :: r in rows && Owns(rows, rows[r], o) ==>
         o in rows && after[r] == rows[r].(parent := Some(rows[o].id)))
    && (forall r :: r in rows && (forall o :: !Owns(rows, rows[r], o)) ==> after[r] == rows[r])
  }

  lemma LinkedChangesParentsOnly(rows: Rows, after: Rows)
    requires LinkedTo(rows, after)
    ensures SameButParents(rows, after)
    ensures forall r :: r in rows && rows[r].parent.Some? ==> after[r] == rows[r]
  {
    hide Owns;
    forall r | r in rows
      ensures after[r] == rows[r].(parent := after[r].parent) && (rows[r].parent.Some? ==> after[r] == rows[r])
    {
      if o :| Owns(rows, rows[r], o) { OwnerIsType(rows, rows[r], o); }
    }
  }

  /** A second run changes nothing. */
  lemma SecondRunChangesNothing(rows: Rows, after: Rows, again: Rows)
    requires LinkedTo(rows, after) && LinkedTo(after, again)
    ensures again == after
  {
    hide Owns;
    LinkedChangesParentsOnly(rows, after);
    forall r | r in after ensures again[r] == after[r] {
      forall o ensures !Owns(after, after[r], o) {
        OwnersUnmoved(rows, after, after[r], o);
        if Owns(after, after[r], o) {
          OwnerIsType(after, after[r], o);
          StillUnlinked(rows, after, r);
        }
      }
    }
  }

  /** What is left without a parent has no owner. */
  lemma StillUnlinked(rows: Rows, after: Rows, r: RowId)
    requires LinkedTo(rows, after) && r in rows && after[r].parent.None?
    ensures forall o :: !Owns(rows, after[r], o)
  {
    hide Owns;
    forall o ensures !Owns(rows, rows[r], o) {
      assert Owns(rows, rows[r], o) ==> after[r] == rows[r].(parent := Some(rows[o].id));
    }
  }

  // Writing links.

  /** A link to write: the owner's id and the id of what it owns. */
  datatype Link = Link(owner: string, owned: string)

  predicate Exists(rows: Rows, id: string) {
    exists r :: r in rows && rows[r].id == id
  }

  /** The update statement: only where there is no parent, and only if the owner is there. */
  predicate Takes(rows: Rows, r: RowId, link: Link)
    requires r in rows
  {
    rows[r].id == link.owned && rows[r].parent.None? && Exists(rows, link.owner)
  }

  function AfterLink(rows: Rows, link: Link): Rows {
    map r | r in rows :: if Takes(rows, r, link) then rows[r].(parent := Some(link.owner)) else rows[r]
  }

  function AfterLinks(rows: Rows, links: seq<Link>): Rows {
    if links == [] then rows else AfterLinks(AfterLink(rows, links[0]), links[1..])
  }

  /** Whatever the links are, only symbols without a parent change, and what they get names an existing symbol. */
  lemma {:induction false} LinksAreSafe(rows: Rows, links: seq<Link>)
    ensures var after := AfterLinks(rows, links);
            && SameButParents(rows, after)
            && forall r :: r in rows && after[r].parent != rows[r].parent ==>
                 && rows[r].parent.None? && after[r].parent.Some?
                 && (exists q :: q in rows && rows[q].id == after[r].parent.value)
                 && Link(after[r].parent.value, rows[r].id) in links
    decreases links
  {
    if links != [] {
      var next := AfterLink(rows, links[0]);
      assert SameButParents(rows, next);
      LinksAreSafe(next, links[1..]);
      var after := AfterLinks(next, links[1..]);
      assert links == [links[0]] + links[1..];
      forall r | r in rows && after[r].parent != next[r].parent ensures Exists(rows, after[r].parent.value) {
        ExistsUnmoved(rows, next, after[r].parent.value);
      }
    }
  }

  lemma ExistsUnmoved(a: Rows, b: Rows, id: string)
    requires SameButParents(a, b)
    ensures Exists(a, id) <==> Exists(b, id)
  {
    assert forall r :: r in a ==> a[r].id == b[r].id;
  }

  /** The owner in the first link for an id whose owner is there. */
  function FirstLiving(rows: Rows, links: seq<Link>, id: string): Option<string> {
    if links == [] then None
    else if links[0].owned == id && Exists(rows, links[0].owner) then Some(links[0].owner)
    else FirstLiving(rows, links[1..], id)
  }

  lemma {:induction false} FirstLivingAppend(rows: Rows, a: seq<Link>, b: seq<Link>, id: string)
    ensures FirstLiving(rows, a + b, id)
            == if FirstLiving(rows, a, id).Some? then FirstLiving(rows, a, id) else FirstLiving(rows, b, id)
  {
    if a == [] {
      assert a + b == b;
    } else {
      assert (a + b)[1..] == a[1..] + b;
      FirstLivingAppend(rows, a[1..], b, id);
    }
  }

  lemma {:induction false} FirstLivingMeans(rows: Rows, links: seq<Link>, id: string)
    ensures match FirstLiving(rows, links, id)
            case Some(owner) => Link(owner, id) in links && Exists(rows, owner)
            case None => forall owner :: Link(owner, id) in links ==> !Exists(rows, owner)
  {
    if links != [] {
      assert links == [links[0]] + links[1..];
      FirstLivingMeans(rows, links[1..], id);
    }
  }

  lemma {:induction false} FirstLivingUnmoved(a: Rows, b: Rows, links: seq<Link>, id: string)
    requires SameButParents(a, b)
    ensures FirstLiving(a, links, id) == FirstLiving(b, links, id)
  {
    if links != [] {
      ExistsUnmoved(a, b, links[0].owner);
      FirstLivingUnmoved(a, b, links[1..], id);
    }
  }

  predicate TypeExists(rows: Rows, id: string) {
    exists r :: r in rows && rows[r].id == id && CanOwn(rows[r].kind)
  }

  /** Each owner that is there is a type. */
  ghost predicate OwnersAreTypes(rows: Rows, links: seq<Link>) {
    forall k :: 0 <= k < |links| && Exists(rows, links[k].owner) ==> TypeExists(rows, links[k].owner)
  }

  lemma TypesUnmoved(a: Rows, b: Rows, links: seq<Link>, from: nat)
    requires SameButParents(a, b) && OwnersAreTypes(a, links) && from <= |links|
    ensures OwnersAreTypes(b, links[from..])
  {
    forall k | 0 <= k < |links| - from && Exists(b, links[from..][k].owner)
      ensures TypeExists(b, links[from..][k].owner)
    {
      ExistsUnmoved(a, b, links[from + k].owner);
      assert TypeExists(a, links[from + k].owner);
      var r :| r in a && a[r].id == links[from + k].owner && CanOwn(a[r].kind);
      assert b[r].id == a[r].id && b[r].kind == a[r].kind;
    }
  }

  lemma AfterLinkMovesParents(rows: Rows, link: Link)
    ensures SameButParents(rows, AfterLink(rows, link))
  {}

  /** Of the links for a symbol without a parent, the first whose owner is there decides. */
  lemma {:induction false} FirstLivingDecides(rows: Rows, links: seq<Link>, r: RowId)
    requires r in rows
    ensures var after := AfterLinks(rows, links);
            && r in after
            && after[r] == rows[r].(parent := if rows[r].parent.None? then FirstLiving(rows, links, rows[r].id)
                                              else rows[r].parent)
    decreases links
  {
    if links != [] {
      var next := AfterLink(rows, links[0]);
      AfterLinkMovesParents(rows, links[0]);
      FirstLivingUnmoved(rows, next, links[1..], rows[r].id);
      FirstLivingDecides(next, links[1..], r);
    }
  }

  // The links that a pass collects, and what writing them later makes of the rows met then.

  datatype Rule = GoRule | ImplRule

  ghost predicate OwnsBy(rule: Rule, rows: Rows, s: Symbol, owner: RowId) {
    match rule
    case GoRule => GoOwns(rows, s, owner)
    case ImplRule => ImplOwns(rows, s, owner)
  }

  ghost predicate LinkOf(rule: Rule, rows: Rows, q: RowId, owner: RowId, link: Link) {
    && q in rows && owner in rows && OwnsBy(rule, rows, rows[q], owner)
    && link == Link(rows[owner].id, rows[q].id)
  }

  ghost predicate LinkAmong(rule: Rule, rows: Rows, done: set<RowId>, link: Link) {
    exists q, owner :: q in done && LinkOf(rule, rows, q, owner, link)
  }

  /** The link is that of a symbol to the owner the rule gives it. */
  ghost predicate LinkBy(rule: Rule, rows: Rows, link: Link) {
    exists q, owner :: LinkOf(rule, rows, q, owner, link)
  }

  lemma OwnerByRule(rule: Rule, rows: Rows, s: Symbol, a: RowId)
    requires OwnsBy(rule, rows, s, a)
    ensures s.parent.None? && a in rows && CanOwn(rows[a].kind)
    ensures forall b :: OwnsBy(rule, rows, s, b) ==> a == b
  {
    if rule.GoRule? {
      assert a in {a};
      forall b | GoOwns(rows, s, b) ensures a == b { assert a in {b}; }
    }
  }

  lemma OneLinkEach(rule: Rule, rows: Rows, id: string, a: string, b: string)
    requires UniqueIds(rows) && LinkBy(rule, rows, Link(a, id)) && LinkBy(rule, rows, Link(b, id))
    ensures a == b
  {
    hide OwnsBy;
    var q, o :| LinkOf(rule, rows, q, o, Link(a, id));
    var r, p :| LinkOf(rule, rows, r, p, Link(b, id));
    assert q == r;
    OwnerByRule(rule, rows, rows[q], o);
  }

  ghost predicate OwnerAnswer(rule: Rule, rows: Rows, s: Symbol, owner: Option<RowId>) {
    match owner
    case Some(o) => OwnsBy(rule, rows, s, o)
    case None => forall o :: !OwnsBy(rule, rows, s, o)
  }

  function WithOwner(rows: Rows, links: seq<Link>, r: RowId, owner: Option<RowId>): seq<Link>
    requires r in rows && (owner.Some? ==> owner.value in rows)
  {
    if owner.Some? then links + [Link(rows[owner.value].id, rows[r].id)] else links
  }

  /** The links are those of the rows that have had their turn. */
  ghost predicate Collected(rule: Rule, rows: Rows, done: set<RowId>, links: seq<Link>) {
    forall link :: link in links <==> LinkAmong(rule, rows, done, link)
  }

  lemma CollectOne(rule: Rule, rows: Rows, done: set<RowId>, links: seq<Link>, r: RowId, owner: Option<RowId>)
    requires Collected(rule, rows, done, links) && r in rows && OwnerAnswer(rule, rows, rows[r], owner)
    ensures owner.Some? ==> owner.value in rows
    ensures Collected(rule, rows, done + {r}, WithOwner(rows, links, r, owner))
  {
    hide OwnsBy;
    if owner.Some? { OwnerByRule(rule, rows, rows[r], owner.value); }
    var links' := WithOwner(rows, links, r, owner);
    forall link ensures link in links' <==> LinkAmong(rule, rows, done + {r}, link) {
      if owner.Some? && link == Link(rows[owner.value].id, rows[r].id) {
        assert LinkOf(rule, rows, r, owner.value, link);
      } else if LinkAmong(rule, rows, done + {r}, link) {
        var q, o :| q in done + {r} && LinkOf(rule, rows, q, o, link);
        assert q in done;
      }
    }
  }

  /** The link is written to the rows met: its owner is there, and so is no owner by the rule that goes before. */
  ghost predicate Chosen(rows: Rows, met: Rows, link: Link) {
    && Exists(met, link.owner)
    && (LinkBy(GoRule, rows, link) ||
        (LinkBy(ImplRule, rows, link)
         && forall other :: LinkBy(GoRule, rows, Link(other, link.owned)) ==> !Exists(met, other)))
  }

  /**
    Links collected from `rows` and written to the rows met later: exactly the symbols that still have no
    parent and whose owner is still there are linked, each to the owner it had, and nothing else changes.
   */
  ghost predicate WrittenLater(rows: Rows, met: Rows, after: Rows) {
    && after.Keys == met.Keys
    && forall r :: r in met ==>
         && after[r] == met[r].(parent := after[r].parent)
         && (met[r].parent.Some? ==> after[r] == met[r])
         && (met[r].parent.None? ==>
               forall owner :: after[r].parent == Some(owner) <==> Chosen(rows, met, Link(owner, met[r].id)))
  }

  lemma LivingIsChosen(rows: Rows, met: Rows, go: seq<Link>, impl: seq<Link>, id: string, owner: string)
    requires UniqueIds(rows)
    requires Collected(GoRule, rows, rows.Keys, go) && Collected(ImplRule, rows, rows.Keys, impl)
    ensures FirstLiving(met, go + impl, id) == Some(owner) <==> Chosen(rows, met, Link(owner, id))
  {
    hide OwnsBy, Exists, FirstLiving, UniqueIds;
    FirstLivingAppend(met, go, impl, id);
    FirstLivingMeans(met, go, id);
    FirstLivingMeans(met, impl, id);
    forall rule: Rule, link ensures LinkAmong(rule, rows, rows.Keys, link) <==> LinkBy(rule, rows, link) {}
    forall rule: Rule, a, b | LinkBy(rule, rows, Link(a, id)) && LinkBy(rule, rows, Link(b, id)) ensures a == b {
      OneLinkEach(rule, rows, id, a, b);
    }
    hide LinkAmong, LinkBy;
  }

  lemma LinksAreWritten(rows: Rows, met: Rows, go: seq<Link>, impl: seq<Link>)
    requires UniqueIds(rows)
    requires Collected(GoRule, rows, rows.Keys, go) && Collected(ImplRule, rows, rows.Keys, impl)
    ensures WrittenLater(rows, met, AfterLinks(met, go + impl))
  {
    hide Collected, Chosen, FirstLiving, AfterLinks;
    LinksAreSafe(met, go + impl);
    forall r | r in met ensures FirstLiving(met, go + impl, met[r].id) == AfterLinks(met, go + impl)[r].parent
        || met[r].parent.Some? {
      FirstLivingDecides(met, go + impl, r);
    }
    forall r | r in met && met[r].parent.Some? ensures AfterLinks(met, go + impl)[r] == met[r] {
      FirstLivingDecides(met, go + impl, r);
    }
    forall r, owner | r in met && met[r].parent.None?
      ensures AfterLinks(met, go + impl)[r].parent == Some(owner) <==> Chosen(rows, met, Link(owner, met[r].id))
    {
      LivingIsChosen(rows, met, go, impl, met[r].id, owner);
    }
  }

  lemma GoLinkHasOwner(rows: Rows, r: RowId, owner: string)
    requires UniqueIds(rows) && r in rows && LinkBy(GoRule, rows, Link(owner, rows[r].id))
    ensures exists p :: GoOwns(rows, rows[r], p)
  {
    var q, p :| LinkOf(GoRule, rows, q, p, Link(owner, rows[r].id));
    assert q == r && GoOwns(rows, rows[r], p);
  }

  lemma ChosenIsOwner(rows: Rows, r: RowId, owner: string)
    requires UniqueIds(rows) && r in rows
    ensures Chosen(rows, rows, Link(owner, rows[r].id)) <==>
            exists o :: Owns(rows, rows[r], o) && o in rows && rows[o].id == owner
  {
    hide GoOwns, ImplOwns;
    var link := Link(owner, rows[r].id);
    if Chosen(rows, rows, link) {
      var rule := if LinkBy(GoRule, rows, link) then GoRule else ImplRule;
      var q, o :| LinkOf(rule, rows, q, o, link);
      assert q == r;
      if rule.ImplRule? {
        forall other ensures !GoOwns(rows, rows[r], other) {
          if GoOwns(rows, rows[r], other) { GoOwnerLinks(rows, r, other); }
        }
      }
      assert Owns(rows, rows[r], o);
    }
    if o :| Owns(rows, rows[r], o) && o in rows && rows[o].id == owner {
      if GoOwns(rows, rows[r], o) {
        assert LinkOf(GoRule, rows, r, o, link);
      } else {
        assert LinkOf(ImplRule, rows, r, o, link);
        forall other ensures !LinkBy(GoRule, rows, Link(other, rows[r].id)) {
          if LinkBy(GoRule, rows, Link(other, rows[r].id)) { GoLinkHasOwner(rows, r, other); }
        }
      }
    }
  }

  lemma GoOwnerLinks(rows: Rows, r: RowId, owner: RowId)
    requires r in rows && GoOwns(rows, rows[r], owner)
    ensures owner in rows && LinkBy(GoRule, rows, Link(rows[owner].id, rows[r].id)) && Exists(rows, rows[owner].id)
  {
    OwnerByRule(GoRule, rows, rows[r], owner);
    assert LinkOf(GoRule, rows, r, owner, Link(rows[owner].id, rows[r].id));
  }

  /** When nothing comes between, exactly the symbols that have an owner are linked, each to it. */
  lemma UndisturbedIsLinked(rows: Rows, after: Rows)
    requires UniqueIds(rows) && WrittenLater(rows, rows, after)
    ensures LinkedTo(rows, after)
  {
    hide Owns, Chosen;
    forall r, o | r in rows && Owns(rows, rows[r], o)
      ensures o in rows && after[r] == rows[r].(parent := Some(rows[o].id))
    {
      OwnerIsType(rows, rows[r], o);
      ChosenIsOwner(rows, r, rows[o].id);
    }
    forall r | r in rows && forall o :: !Owns(rows, rows[r], o) ensures after[r] == rows[r] {
      if rows[r].parent.None? && after[r].parent.Some? { ChosenIsOwner(rows, r, after[r].parent.value); }
    }
  }

  // Collecting the links.

  method InPackageOnly(rows: Rows, s: Symbol, candidates: set<RowId>, packages: GoPackages) returns (same: set<RowId>)
    requires candidates <= rows.Keys && packages.rows == rows && packages.Valid()
    modifies packages
    ensures packages.Valid() && same == InPackage(rows, s, candidates)
  {
    hide PackageIs;
    var package := packages.Of(s.path);
    same := {};
    var rest := candidates;
    while rest != {}
      invariant rest <= candidates && packages.Valid()
      invariant same == InPackage(rows, s, candidates - rest)
      decreases rest
    {
      var c :| c in rest;
      rest := rest - {c};
      var its := packages.Of(rows[c].path);
      SamePackageIff(rows, rows[c].path, s.path, its, package);
      if its == package { same := same + {c}; }
    }
  }

  lemma SamePackageIff(rows: Rows, a: string, b: string, ofA: Option<string>, ofB: Option<string>)
    requires PackageIs(rows, a, ofA) && PackageIs(rows, b, ofB)
    ensures SamePackage(rows, a, b) <==> ofA == ofB
  {
    if SamePackage(rows, a, b) {
      var package :| PackageIs(rows, a, package) && PackageIs(rows, b, package);
      OnePackage(rows, a, package, ofA);
      OnePackage(rows, b, package, ofB);
    }
  }

  /** The types declared once in the folder, the package or the file of the method. */
  method GoOwnerOf(rows: Rows, s: Symbol, types: set<RowId>, packages: GoPackages) returns (owner: Option<RowId>)
    requires GoUnlinked(s) && types == TypesNamed(rows, ReceiverType(s.facts.receiver.value), "go")
    requires packages.rows == rows && packages.Valid()
    modifies packages
    ensures packages.Valid() && OwnerAnswer(GoRule, rows, s, owner)
  {
    hide ParentFolder, ReceiverType, SamePackage;
    var candidates := set c | c in types && ParentFolder(rows[c].path) == ParentFolder(s.path);
    assert candidates == InFolder(rows, s, ReceiverType(s.facts.receiver.value));
    if |candidates| > 1 {
      candidates := InPackageOnly(rows, s, candidates, packages);
    }
    if |candidates| > 1 {
      candidates := InFile(rows, s, candidates);
    }
    assert candidates == Narrowed(rows, s, ReceiverType(s.facts.receiver.value));
    if |candidates| == 1 {
      var c :| c in candidates;
      OnlyMember(candidates, c);
      return Some(c);
    }
    owner := None;
  }

  lemma OnlyMember(s: set<RowId>, c: RowId)
    requires |s| == 1 && c in s
    ensures s == {c}
  {
    assert |s - {c}| == 0;
  }

  method GoReceiverLinks(rows: Rows) returns (links: seq<Link>)
    ensures Collected(GoRule, rows, rows.Keys, links)
  {
    hide GoUnlinked, Narrowed, ReceiverType, TypesNamed, GoOwns, Collected;
    links := [];
    var types: map<string, set<RowId>> := map[];
    var packages := new GoPackages(rows);
    var unlinked := set r | r in rows && GoUnlinked(rows[r]);
    CollectNothing(GoRule, rows, unlinked);
    var rest := unlinked;
    while rest != {}
      invariant rest <= unlinked && packages.Valid() && packages.rows == rows && fresh(packages)
      invariant forall name :: name in types ==> types[name] == TypesNamed(rows, name, "go")
      invariant Collected(GoRule, rows, rows.Keys - rest, links)
      decreases rest
    {
      var r :| r in rest;
      var s := rows[r];
      ReceiverOfUnlinked(s);
      var typeName := ReceiverType(s.facts.receiver.value);
      if typeName !in types {
        types := types[typeName := TypesNamed(rows, typeName, "go")];
      }
      var owner := GoOwnerOf(rows, s, types[typeName], packages);
      CollectOne(GoRule, rows, rows.Keys - rest, links, r, owner);
      OneLess(rows.Keys, rest, r);
      rest := rest - {r};
      if owner.Some? {
        links := links + [Link(rows[owner.value].id, s.id)];
      }
    }
    assert rows.Keys - {} == rows.Keys;
  }

  lemma OneLess(whole: set<RowId>, rest: set<RowId>, r: RowId)
    requires r in rest && rest <= whole
    ensures whole - (rest - {r}) == whole - rest + {r}
  {}

  /** The rows that the query does not list have no owner by the rule. */
  lemma CollectNothing(rule: Rule, rows: Rows, unlinked: set<RowId>)
    requires forall r :: r in rows && (if rule.GoRule? then GoUnlinked(rows[r]) else ImplUnlinked(rows[r])) ==>
        r in unlinked
    ensures Collected(rule, rows, rows.Keys - unlinked, [])
  {}

  lemma ReceiverOfUnlinked(s: Symbol)
    requires GoUnlinked(s)
    ensures s.facts.receiver.Some?
  {}

  method InSomeOrder(s: set<RowId>) returns (order: seq<RowId>)
    ensures forall r :: r in order <==> r in s
    ensures forall i, j :: 0 <= i < j < |order| ==> order[i] != order[j]
  {
    order := [];
    var rest := s;
    while rest != {}
      invariant rest <= s && forall r :: r in order <==> r in s - rest
      invariant forall i, j :: 0 <= i < j < |order| ==> order[i] != order[j]
      decreases rest
    {
      var r :| r in rest;
      assert forall i :: 0 <= i < |order| ==> order[i] in order;
      rest := rest - {r};
      order := order + [r];
    }
  }

  /** The nearest of the types with the name, in whatever order the query lists them. */
  method ImplOwnerOf(rows: Rows, s: Symbol) returns (owner: Option<RowId>)
    requires ImplUnlinked(s)
    ensures OwnerAnswer(ImplRule, rows, s, owner)
  {
    hide Score;
    var types := TypesNamed(rows, s.facts.implType.value, s.language);
    var order := InSomeOrder(types);
    var candidates := seq(|order|, i requires 0 <= i < |order| =>
      assert order[i] in order; Candidate(rows[order[i]].id, rows[order[i]].path));
    var found := NearestOwner(s.path, candidates);
    ClosestInList(rows, s.path, types, order, candidates);
    owner := if found.Found? then Some(order[found.index]) else None;
  }

  lemma ClosestInList(rows: Rows, path: string, types: set<RowId>, order: seq<RowId>, candidates: seq<Candidate>)
    requires types <= rows.Keys && (forall r :: r in order <==> r in types)
    requires forall i, j :: 0 <= i < j < |order| ==> order[i] != order[j]
    requires |candidates| == |order| && forall i :: 0 <= i < |order| ==>
        order[i] in rows && candidates[i].path == rows[order[i]].path
    ensures forall k :: 0 <= k < |order| ==> (Nearest(path, candidates, k) <==> Closest(rows, path, types, order[k]))
    ensures forall c :: Closest(rows, path, types, c) ==> exists k :: Nearest(path, candidates, k)
  {
    hide Score;
    forall k | 0 <= k < |order| ensures Nearest(path, candidates, k) <==> Closest(rows, path, types, order[k]) {
      if Nearest(path, candidates, k) {
        forall d | d in types && d != order[k] ensures Score(path, rows[d].path) < Score(path, rows[order[k]].path) {
          var j :| 0 <= j < |order| && order[j] == d;
          assert Score(path, candidates[j].path) < Score(path, candidates[k].path);
        }
      }
      if Closest(rows, path, types, order[k]) {
        forall j | 0 <= j < |order| && j != k
          ensures Score(path, candidates[j].path) < Score(path, candidates[k].path)
        {
          assert order[j] in types && order[j] != order[k];
        }
      }
    }
    forall c | Closest(rows, path, types, c) ensures exists k :: Nearest(path, candidates, k) {
      var k :| 0 <= k < |order| && order[k] == c;
      assert Nearest(path, candidates, k);
    }
  }

  method ImplLinks(rows: Rows) returns (links: seq<Link>)
    ensures Collected(ImplRule, rows, rows.Keys, links)
  {
    hide ImplUnlinked, TypesNamed, Closest, ImplOwns, Collected;
    links := [];
    var unlinked := set r | r in rows && ImplUnlinked(rows[r]);
    CollectNothing(ImplRule, rows, unlinked);
    var rest := unlinked;
    while rest != {}
      invariant rest <= unlinked && Collected(ImplRule, rows, rows.Keys - rest, links)
      decreases rest
    {
      var r :| r in rest;
      var owner := ImplOwnerOf(rows, rows[r]);
      CollectOne(ImplRule, rows, rows.Keys - rest, links, r, owner);
      OneLess(rows.Keys, rest, r);
      rest := rest - {r};
      if owner.Some? {
        links := links + [Link(rows[owner.value].id, rows[r].id)];
      }
    }
    assert rows.Keys - {} == rows.Keys;
  }

  // Writing them, through the update trigger.

  /** A parent that is a type, for a symbol that had none, makes no symbol local and none not local. */
  lemma {:induction false} ChainKept(rows: Rows, r: RowId, s: Symbol, parent: Option<string>, chain: seq<RowId>)
    requires r in rows && rows[r].parent.None? && s == rows[r].(parent := s.parent) && Chain(rows, parent, chain)
    ensures Chain(rows[r := s], parent, chain)
  {
    if |chain| > 1 { ChainKept(rows, r, s, parent, chain[..|chain| - 1]); }
  }

  ghost predicate LinksToType(rows: Rows, r: RowId, s: Symbol) {
    && r in rows && rows[r].parent.None? && s.parent.Some? && s == rows[r].(parent := s.parent)
    && UniqueIds(rows) && TypeExists(rows, s.parent.value)
  }

  lemma {:induction false} ChainEndsAtType(rows: Rows, r: RowId, s: Symbol, parent: Option<string>, chain: seq<RowId>)
    requires LinksToType(rows, r, s) && Chain(rows[r := s], parent, chain)
    ensures Chain(rows, parent, chain) || CanOwn(rows[r := s][chain[|chain| - 1]].kind)
  {
    if |chain| > 1 { ChainEndsAtType(rows, r, s, parent, chain[..|chain| - 1]); }
  }

  lemma ChainFromLink(rows: Rows, r: RowId, s: Symbol, chain: seq<RowId>)
    requires LinksToType(rows, r, s) && Chain(rows[r := s], s.parent, chain)
    ensures CanOwn(rows[r := s][chain[|chain| - 1]].kind)
  {
    if |chain| > 1 {
      ChainStartsAtAnchor(rows[r := s], s.parent, chain);
      ChainInner(rows[r := s], s.parent, chain, 0);
    }
  }

  lemma {:induction false} ChainStartsAtAnchor(rows: Rows, parent: Option<string>, chain: seq<RowId>)
    requires Chain(rows, parent, chain)
    ensures chain[0] in Anchors(rows, parent)
  {
    if |chain| > 1 { ChainStartsAtAnchor(rows, parent, chain[..|chain| - 1]); }
  }

  lemma LocalKept(rows: Rows, r: RowId, s: Symbol, c: Symbol)
    requires LinksToType(rows, r, s)
    ensures IsLocal(rows, c) <==> IsLocal(rows[r := s], c)
  {
    var rows' := rows[r := s];
    LocalMeans(rows, c);
    LocalMeans(rows', c);
    if LocalByReach(rows, c) {
      var q :| Reaches(rows, c.parent, q) && q in rows && Callable(rows[q].kind);
      var chain :| Chain(rows, c.parent, chain) && chain[|chain| - 1] == q;
      ChainKept(rows, r, s, c.parent, chain);
      assert Reaches(rows', c.parent, q);
    }
    if LocalByReach(rows', c) {
      var q :| Reaches(rows', c.parent, q) && q in rows' && Callable(rows'[q].kind);
      var chain :| Chain(rows', c.parent, chain) && chain[|chain| - 1] == q;
      ChainEndsAtType(rows, r, s, c.parent, chain);
      assert Reaches(rows, c.parent, q);
    }
  }

  lemma LinkedIsNotLocal(rows: Rows, r: RowId, s: Symbol)
    requires LinksToType(rows, r, s)
    ensures !IsLocal(rows, rows[r]) && !IsLocal(rows[r := s], s)
  {
    LocalMeans(rows, rows[r]);
    LocalMeans(rows[r := s], s);
    forall chain ensures !Chain(rows, None, chain) {
      if Chain(rows, None, chain) { ChainStartsAtAnchor(rows, None, chain); }
    }
    forall q | Reaches(rows[r := s], s.parent, q) && q in rows ensures !Callable(rows[r := s][q].kind) {
      var chain :| Chain(rows[r := s], s.parent, chain) && chain[|chain| - 1] == q;
      ChainFromLink(rows, r, s, chain);
    }
  }

  lemma NonLocalKept(rows: Rows, r: RowId, s: Symbol)
    requires LinksToType(rows, r, s)
    ensures NonLocal(rows[r := s]) == NonLocal(rows) && r in NonLocal(rows) && !IsLocal(rows[r := s], s)
  {
    hide IsLocal;
    LinkedIsNotLocal(rows, r, s);
    forall c | c in rows ensures IsLocal(rows, rows[c]) <==> IsLocal(rows[r := s], rows[r := s][c]) {
      LocalKept(rows, r, s, rows[c]);
    }
  }

  /** A link to a type keeps the two full-text tables exact. */
  lemma LinkKeepsExact(t: Tables, r: RowId, s: Symbol)
    requires Exact(t) && LinksToType(t.rows, r, s)
    ensures Exact(AfterUpdate(t, r, s))
  {
    hide IsLocal, NonLocal, Consistent;
    NonLocalKept(t.rows, r, s);
    UpdateKeepsConsistent(t, r, s);
    assert t.words[r := WordsOf(s)].Keys == t.words.Keys + {r};
  }

  method ApplyLinks(store: Store, links: seq<Link>)
    requires store.Valid() && UniqueIds(store.rows)
    modifies store, store.words, store.names
    ensures store.Valid() && store.rows == AfterLinks(old(store.rows), links)
    ensures old(Exact(store.Content())) && OwnersAreTypes(old(store.rows), links) ==> Exact(store.Content())
  {
    hide AfterLink, TypeExists;
    ghost var typed := Exact(store.Content()) && OwnersAreTypes(store.rows, links);
    assert links[0..] == links;
    for k := 0 to |links|
      invariant store.Valid() && UniqueIds(store.rows)
      invariant AfterLinks(store.rows, links[k..]) == AfterLinks(old(store.rows), links)
      invariant typed ==> Exact(store.Content()) && OwnersAreTypes(store.rows, links[k..])
    {
      assert links[k..][0] == links[k] && links[k..][1..] == links[k + 1..];
      AfterLinkMovesParents(store.rows, links[k]);
      if typed { TypesUnmoved(store.rows, AfterLink(store.rows, links[k]), links[k..], 1); }
      ApplyLink(store, links[k]);
    }
  }

  /** The update statement, run on the one row it can match. */
  method ApplyLink(store: Store, link: Link)
    requires store.Valid() && UniqueIds(store.rows)
    modifies store, store.words, store.names
    ensures store.Valid() && UniqueIds(store.rows) && store.rows == AfterLink(old(store.rows), link)
    ensures old(Exact(store.Content())) && OwnersAreTypes(old(store.rows), [link]) ==> Exact(store.Content())
  {
    hide TypeExists;
    ghost var before := store.Content();
    assert [link][0] == link;
    if r :| r in store.rows && Takes(store.rows, r, link) {
      var s := store.rows[r].(parent := Some(link.owner));
      OnlyRowTaken(store.rows, r, link);
      if Exact(before) && TypeExists(store.rows, link.owner) { LinkKeepsExact(before, r, s); }
      store.Update(r, s);
    } else {
      assert AfterLink(before.rows, link) == before.rows;
    }
  }

  /** Every owner the pass has found is, where it still exists, still a type. */
  ghost predicate OwnersStayTypes(rows: Rows, met: Rows) {
    forall rule: Rule, link :: LinkBy(rule, rows, link) && Exists(met, link.owner) ==> TypeExists(met, link.owner)
  }

  lemma CollectedOwners(rows: Rows, met: Rows, go: seq<Link>, impl: seq<Link>)
    requires Collected(GoRule, rows, rows.Keys, go) && Collected(ImplRule, rows, rows.Keys, impl)
    requires OwnersStayTypes(rows, met)
    ensures OwnersAreTypes(met, go + impl)
  {
    hide OwnsBy, Exists, TypeExists;
    forall k | 0 <= k < |go + impl| && Exists(met, (go + impl)[k].owner) ensures TypeExists(met, (go + impl)[k].owner) {
      var link := (go + impl)[k];
      var rule := if link in go then GoRule else ImplRule;
      assert link in if rule.GoRule? then go else impl;
      assert LinkBy(rule, rows, link);
    }
  }

  /** An owner found in rows that nothing has changed is a type. */
  lemma UndisturbedOwnersAreTypes(rows: Rows)
    ensures OwnersStayTypes(rows, rows)
  {
    hide OwnsBy;
    forall rule: Rule, link | LinkBy(rule, rows, link) ensures TypeExists(rows, link.owner) {
      var q, o :| LinkOf(rule, rows, q, o, link);
      OwnerByRule(rule, rows, rows[q], o);
    }
  }

  /**
    The whole pass: collect the links, then write them in one transaction. Between the two other writers
    may have committed anything: `others` is what they did, in order.
   */
  method LinkImplOwners(store: Store, others: seq<Operation>)
    requires store.Valid() && UniqueIds(store.rows) && History(store.Content(), others)
    modifies store, store.words, store.names
    ensures store.Valid()
    ensures var rows, met := old(store.rows), Outcome(old(store.Content()), others);
            && WrittenLater(rows, met.rows, store.rows)
            && (others == [] ==> LinkedTo(rows, store.rows))
            && (Exact(met) && OwnersStayTypes(rows, met.rows) ==> Exact(store.Content()))
            && (others == [] && Exact(met) ==> Exact(store.Content()))
  {
    hide AfterLinks, Collected, WrittenLater, LinkedTo, OwnersStayTypes, OwnersAreTypes;
    var rows := store.rows;
    var links := GoReceiverLinks(rows);
    var more := ImplLinks(rows);
    store.Perform(others);
    ghost var met := store.Content();
    LinksAreWritten(rows, met.rows, links, more);
    if OwnersStayTypes(rows, met.rows) { CollectedOwners(rows, met.rows, links, more); }
    UndisturbedOwnersAreTypes(rows);
    links := links + more;
    if links == [] {
      NothingToWrite(store.rows);
    } else {
      ApplyLinks(store, links);
    }
    if others == [] { UndisturbedIsLinked(rows, store.rows); }
  }

  lemma NothingToWrite(rows: Rows)
    ensures AfterLinks(rows, []) == rows
  {}

  lemma OnlyRowTaken(rows: Rows, r: RowId, link: Link)
    requires UniqueIds(rows) && r in rows && Takes(rows, r, link)
    ensures var s := rows[r].(parent := Some(link.owner));
            && AfterLink(rows, link) == rows[r := s] && UniqueIds(rows[r := s])
            && forall q :: q in rows && q != r ==> rows[q].id != s.id
  {}
}
