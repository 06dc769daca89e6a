/** Links that name one another in a row: how long a row the resolver follows to its end. */
module LinkChains {
  import opened Text
  import opened RelativePaths
  import opened TreeModel
  import opened LinkResolution

  /** The names of the row: "a", "aa", "aaa" and so on. */
  function LinkName(i: nat): (name: string)
    ensures |name| == i + 1 && forall c :: c in name ==> c == 'a'
  {
    if i == 0 then "a" else LinkName(i - 1) + "a"
  }

  /** `n` links, each to the next; the last names something that is not there. */
  function Row(n: nat): (row: Manifest)
    ensures forall i: nat :: i < n ==> LinkName(i) in row && row[LinkName(i)] == SymlinkEntry(LinkName(i + 1))
    ensures forall p :: p in row ==> |p| <= n
  {
    if n == 0 then map[]
    else
      assert forall i: nat :: i < n - 1 ==> |LinkName(i)| != |LinkName(n - 1)|;
      Row(n - 1)[LinkName(n - 1) := SymlinkEntry(LinkName(n))]
  }

  lemma NameIsPlain(i: nat)
    ensures LinkName(i) !in ["", ".", ".."] && SafeTarget(LinkName(i)) && Components(LinkName(i)) == [LinkName(i)]
    ensures PathOf([] + [LinkName(i)]) == LinkName(i)
  {
    var name := LinkName(i);
    assert name[0] in name && (i > 0 ==> name[1] in name);
    SplitWhole(name, '/');
    assert [] + [name] == [name];
  }

  /** The first `i` links. */
  ghost function FirstLinks(i: nat): (names: set<string>)
    ensures |names| == i && forall p :: p in names ==> |p| <= i
  {
    if i == 0 then {} else FirstLinks(i - 1) + {LinkName(i - 1)}
  }

  lemma {:induction false} FirstLinksAreLinks(i: nat, n: nat)
    requires i <= n
    ensures FirstLinks(i) <= LinkPaths(Row(n))
  {
    hide LinkName;
    if i > 0 {
      FirstLinksAreLinks(i - 1, n);
      assert Row(n)[LinkName(i - 1)] == SymlinkEntry(LinkName(i));
    }
  }

  lemma LastIsNoLink(n: nat)
    ensures !IsLink(Row(n), LinkName(n))
  {}

  lemma LinkAtPlace(i: nat, n: nat)
    requires i < n
    ensures IsLink(Row(n), LinkName(i)) && Row(n)[LinkName(i)].target == LinkName(i + 1)
    ensures LinkName(i) !in FirstLinks(i) && LinkName(i) in LinkPaths(Row(n))
  {
    assert Row(n)[LinkName(i)] == SymlinkEntry(LinkName(i + 1));
  }

  /** A link alone, to a name alone. */
  lemma OneLinkOn(name: string, target: string, resolving: set<string>, entries: Manifest)
    requires name !in ["", ".", ".."] && PathOf([] + [name]) == name && SafeTarget(target) &&
        Components(target) == [target]
    requires IsLink(entries, name) && entries[name].target == target && name !in resolving
    requires resolving <= LinkPaths(entries) && resolving + {name} <= LinkPaths(entries)
    requires |resolving| < |LinkPaths(entries)|
    ensures var limit := |LinkPaths(entries)|;
            var inner := Expand([], [target], resolving + {name}, entries, limit);
            && Expand([], [name], resolving, entries, limit) == inner
            && Nesting([], [name], resolving, entries)
               == Larger(Nesting([], [target], resolving + {name}, entries), if inner.Failed? then 0 else |resolving|)
  {
    hide PathOf, Components, SafeTarget, LinkPaths;
    assert [name][1..] == [];
  }

  lemma NoLinkOn(name: string, resolving: set<string>, entries: Manifest)
    requires name !in ["", ".", ".."] && PathOf([] + [name]) == name && !IsLink(entries, name)
    requires resolving <= LinkPaths(entries)
    ensures Expand([], [name], resolving, entries, |LinkPaths(entries)|) == Resolved([name])
    ensures Nesting([], [name], resolving, entries) == |resolving|
  {
    hide PathOf, Components, SafeTarget, LinkPaths;
    assert [name][1..] == [] && [] + [name] == [name];
  }

  /** From the link at `i` on, with those before it being resolved, all `n` come to be resolved at once. */
  lemma {:induction false} RowNests(i: nat, n: nat)
    requires i <= n && FirstLinks(i) <= LinkPaths(Row(n))
    ensures Nesting([], [LinkName(i)], FirstLinks(i), Row(n)) == n
    ensures Expand([], [LinkName(i)], FirstLinks(i), Row(n), |LinkPaths(Row(n))|) == Resolved([LinkName(n)])
    decreases n - i
  {
    hide PathOf, Components, SafeTarget, LinkName, Row, LinkPaths, Expand, Nesting, IsLink;
    NameIsPlain(i);
    if i < n {
      NameIsPlain(i + 1);
      LinkAtPlace(i, n);
      FirstLinksAreLinks(i + 1, n);
      RowNests(i + 1, n);
      MoreThan(FirstLinks(i), LinkName(i), LinkPaths(Row(n)));
      OneLinkOn(LinkName(i), LinkName(i + 1), FirstLinks(i), Row(n));
    } else {
      LastIsNoLink(n);
      NoLinkOn(LinkName(n), FirstLinks(n), Row(n));
    }
  }

  /** The first of `n` links is followed to the end of the row exactly when there are at most 128. */
  lemma RowIsFollowedIff(n: nat)
    requires n > 0
    ensures ResolveLink(LinkName(0), LinkName(1), Row(n))
         == if n > 128 then Failed(SymlinkDepthLimit) else Resolved([LinkName(n)])
    ensures Reaches(Opening(LinkName(0)), Arrived([LinkName(n)]), Row(n))
  {
    hide Expand, Nesting, Reaches, Opening, LinkPaths;
    NameIsPlain(0);
    NameIsPlain(1);
    LinkAtPlace(0, n);
    FirstLinksAreLinks(1, n);
    assert FirstLinks(1) == {LinkName(0)};
    RowNests(1, n);
    DepthLimitIff(LinkName(0), LinkName(1), Row(n));
    assert Components(LinkName(0))[..0] == [];
    ResolverAgreesWithWalk(LinkName(0), LinkName(1), Row(n));
  }
}
