/** The two orders the snapshot code sorts paths by, and the sorted listing of a finite set. */
module Ordering {

  /** `ByText` is Python's order of `str`; `ByDepth` sorts by number of slashes first. */
  datatype Order = ByText | ByDepth

  predicate TextLeq(a: string, b: string) {
    a == [] || (b != [] && (a[0] < b[0] || (a[0] == b[0] && TextLeq(a[1..], b[1..]))))
  }

  function Depth(path: string): nat {
    if path == [] then 0 else (if path[0] == '/' then 1 else 0) + Depth(path[1..])
  }

  predicate Leq(o: Order, a: string, b: string) {
    match o
    case ByText => TextLeq(a, b)
    case ByDepth => Depth(a) < Depth(b) || (Depth(a) == Depth(b) && TextLeq(a, b))
  }

  lemma SameStart(a: string, b: string, k: nat)
    requires k <= |a| && k <= |b| && a[..k] == b[..k]
    ensures k > 0 ==> a[0] == b[0]
  {
    if k > 0 { assert a[..k][0] == b[..k][0]; }
  }

  /** At `k` the texts differ for the first time, and `a` has the smaller character. */
  predicate SmallerAt(a: string, b: string, k: nat) {
    k < |a| && k < |b| && a[..k] == b[..k] && a[k] < b[k]
  }

  lemma SmallerLater(a: string, b: string, k: nat)
    requires a != [] && b != [] && a[0] == b[0]
    ensures SmallerAt(a[1..], b[1..], k) <==> SmallerAt(a, b, k + 1)
  {
    if k < |a| - 1 && k < |b| - 1 {
      assert a[..k + 1] == [a[0]] + a[1..][..k] && b[..k + 1] == [b[0]] + b[1..][..k];
      assert a[..k + 1][1..] == a[1..][..k] && b[..k + 1][1..] == b[1..][..k];
    }
  }

  /** The order is that of the first difference; a text comes after those it begins with. */
  lemma {:induction false} TextLeqMeans(a: string, b: string)
    ensures TextLeq(a, b) <==> a <= b || exists k: nat :: SmallerAt(a, b, k)
  {
    if a != [] && b != [] {
      if a[0] == b[0] {
        TextLeqMeans(a[1..], b[1..]);
        assert a == [a[0]] + a[1..] && b == [b[0]] + b[1..];
        SameFirst(a, b);
      } else {
        OtherFirst(a, b);
      }
    }
  }

  lemma SameFirst(a: string, b: string)
    requires a != [] && b != [] && a[0] == b[0]
    ensures (exists k: nat :: SmallerAt(a, b, k)) <==> exists k: nat :: SmallerAt(a[1..], b[1..], k)
  {
    hide SmallerAt;
    if k: nat :| SmallerAt(a[1..], b[1..], k) { SmallerLater(a, b, k); }
    if k: nat :| SmallerAt(a, b, k) {
      NotAtFirst(a, b, k);
      SmallerLater(a, b, k - 1);
    }
  }

  lemma NotAtFirst(a: string, b: string, k: nat)
    requires a != [] && b != [] && a[0] == b[0] && SmallerAt(a, b, k)
    ensures k > 0
  {}

  lemma OtherFirst(a: string, b: string)
    requires a != [] && b != [] && a[0] != b[0]
    ensures (exists k: nat :: SmallerAt(a, b, k)) <==> a[0] < b[0]
  {
    if a[0] < b[0] { assert SmallerAt(a, b, 0); }
    forall k: nat | SmallerAt(a, b, k) ensures k == 0 { SameStart(a, b, k); }
  }

  lemma TextTotal(a: string, b: string)
    ensures TextLeq(a, a)
    ensures TextLeq(a, b) || TextLeq(b, a)
    ensures TextLeq(a, b) && TextLeq(b, a) ==> a == b
  {
    if a != [] && b != [] && a[0] == b[0] {
      TextTotal(a[1..], b[1..]);
      assert a == [a[0]] + a[1..] && b == [b[0]] + b[1..];
    }
  }

  lemma TextTransitive(a: string, b: string, c: string)
    requires TextLeq(a, b) && TextLeq(b, c)
    ensures TextLeq(a, c)
  {}

  lemma Total(o: Order, a: string, b: string)
    ensures Leq(o, a, a)
    ensures Leq(o, a, b) || Leq(o, b, a)
    ensures Leq(o, a, b) && Leq(o, b, a) ==> a == b
  {
    TextTotal(a, b);
  }

  lemma Transitive(o: Order, a: string, b: string, c: string)
    requires Leq(o, a, b) && Leq(o, b, c)
    ensures Leq(o, a, c)
  {
    if TextLeq(a, b) && TextLeq(b, c) { TextTransitive(a, b, c); }
  }

  ghost predicate StrictlySorted(xs: seq<string>, o: Order) {
    forall i, j :: 0 <= i < j < |xs| ==> Leq(o, xs[i], xs[j]) && xs[i] != xs[j]
  }

  predicate Least(x: string, s: set<string>, o: Order) {
    x in s && forall y :: y in s ==> Leq(o, x, y)
  }

  lemma {:induction false} LeastExists(s: set<string>, o: Order) returns (least: string)
    requires s != {}
    ensures Least(least, s, o)
  {
    var x :| x in s;
    Total(o, x, x);
    least := x;
    if s != {x} {
      var z := LeastExists(s - {x}, o);
      Total(o, x, z);
      if Leq(o, x, z) {
        forall y | y in s ensures Leq(o, x, y) {
          if y != x { Transitive(o, x, z, y); }
        }
      } else {
        least := z;
      }
    }
  }

  lemma LeastUnique(s: set<string>, o: Order)
    requires s != {}
    ensures exists x :: Least(x, s, o)
    ensures forall x, y :: Least(x, s, o) && Least(y, s, o) ==> x == y
  {
    var _ := LeastExists(s, o);
    forall x, y | Least(x, s, o) && Least(y, s, o) ensures x == y { Total(o, x, y); }
  }

  /** The elements of `s`, each once, in ascending order: Python's `sorted` on a set. */
  function Sorted(s: set<string>, o: Order): (r: seq<string>)
    ensures |r| == |s|
    ensures forall x :: x in r <==> x in s
  {
    if s == {} then []
    else
      LeastUnique(s, o);
      var x :| Least(x, s, o);
      [x] + Sorted(s - {x}, o)
  }

  lemma SortedUnfold(s: set<string>, o: Order) returns (x: string)
    requires s != {}
    ensures Least(x, s, o) && Sorted(s, o) == [x] + Sorted(s - {x}, o)
  {
    LeastUnique(s, o);
    x :| Least(x, s, o);
  }

  lemma ConsAscends(x: string, rest: seq<string>, o: Order)
    requires StrictlySorted(rest, o) && forall y :: y in rest ==> Leq(o, x, y) && x != y
    ensures StrictlySorted([x] + rest, o)
  {
    forall i, j | 0 <= i < j < |[x] + rest|
      ensures Leq(o, ([x] + rest)[i], ([x] + rest)[j]) && ([x] + rest)[i] != ([x] + rest)[j]
    {
      assert ([x] + rest)[j] == rest[j - 1];
      if i == 0 { assert rest[j - 1] in rest; }
    }
  }

  lemma {:induction false} SortedAscends(s: set<string>, o: Order)
    ensures StrictlySorted(Sorted(s, o), o)
    decreases |s|
  {
    if s != {} {
      var x := SortedUnfold(s, o);
      SortedAscends(s - {x}, o);
      ConsAscends(x, Sorted(s - {x}, o), o);
    }
  }

  lemma SomeMember(xs: seq<string>)
    ensures xs == [] || exists x :: x in xs
  {
    if xs != [] { assert xs[0] in xs; }
  }

  /** A strictly sorted list is determined by the set of its elements. */
  lemma {:induction false} SortedUnique(xs: seq<string>, ys: seq<string>, o: Order)
    requires StrictlySorted(xs, o) && StrictlySorted(ys, o)
    requires forall x :: x in xs <==> x in ys
    ensures xs == ys
  {
    if xs == [] {
      SomeMember(ys);
    } else {
      assert xs[0] in ys;
      assert ys[0] in xs;
      Total(o, xs[0], ys[0]);
      forall x ensures x in xs[1..] <==> x in ys[1..] {
        if x in xs[1..] { assert x in xs && x != xs[0]; }
        if x in ys[1..] { assert x in ys && x != ys[0]; }
      }
      SortedUnique(xs[1..], ys[1..], o);
    }
  }

  /** In the sorted listing everything strictly below the element at `i` stands before it. */
  lemma SortedBefore(s: set<string>, o: Order, i: nat, x: string)
    requires i < |s| && x in s && Leq(o, x, Sorted(s, o)[i]) && x != Sorted(s, o)[i]
    ensures x in Sorted(s, o)[..i]
  {
    var r := Sorted(s, o);
    SortedAscends(s, o);
    var k :| 0 <= k < |r| && r[k] == x;
    Total(o, x, r[i]);
  }

  /** The elements a loop over the sorted listing has met after `i` rounds. */
  ghost function Taken(s: set<string>, o: Order, i: nat): set<string>
    requires i <= |s|
  {
    Front(Sorted(s, o), i)
  }

  ghost function Front(r: seq<string>, i: nat): set<string>
    requires i <= |r|
  {
    set x | x in r[..i]
  }

  lemma TakenEnds(s: set<string>, o: Order)
    ensures Taken(s, o, 0) == {} && Taken(s, o, |s|) == s
  {
    assert Sorted(s, o)[..|s|] == Sorted(s, o);
  }

  lemma TakenStep(s: set<string>, o: Order, i: nat)
    requires i < |s|
    ensures var x := Sorted(s, o)[i];
            x in s && x !in Taken(s, o, i) && Taken(s, o, i + 1) == Taken(s, o, i) + {x}
  {
    SortedAscends(s, o);
    FrontStep(Sorted(s, o), o, i);
    assert Sorted(s, o)[i] in Sorted(s, o);
  }

  lemma TakenIsBefore(s: set<string>, o: Order, i: nat)
    requires i < |s|
    ensures forall x :: x in Taken(s, o, i) ==> Leq(o, x, Sorted(s, o)[i])
  {
    SortedAscends(s, o);
  }

  lemma FrontStep(r: seq<string>, o: Order, i: nat)
    requires i < |r| && StrictlySorted(r, o)
    ensures r[i] !in Front(r, i) && Front(r, i + 1) == Front(r, i) + {r[i]}
  {
    assert r[..i + 1] == r[..i] + [r[i]];
  }
}
