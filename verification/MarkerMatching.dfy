/** Matching expected test-count markers with test summaries: a greedy pass that matches as many as possible. */
module MarkerMatching {
  import opened Sets

  /** A marker, by its place in the list of markers, and the least number of tests it asks for. */
  datatype Expectation = Expectation(marker: nat, minimum: nat)

  /** Which summary stands for which marker. */
  type Assignment = map<nat, nat>

  predicate Distinct(order: seq<Expectation>) {
    forall i, j :: 0 <= i < j < |order| ==> order[i].marker != order[j].marker
  }

  // The order of the pass: largest minimum first.

  predicate Before(a: Expectation, b: Expectation) {
    a.minimum > b.minimum || (a.minimum == b.minimum && a.marker <= b.marker)
  }

  predicate Ordered(order: seq<Expectation>) {
    forall i, j :: 0 <= i < j < |order| ==> Before(order[i], order[j])
  }

  function Inserted(e: Expectation, order: seq<Expectation>): (r: seq<Expectation>)
    ensures multiset(r) == multiset{e} + multiset(order)
  {
    if order == [] || Before(e, order[0]) then [e] + order
    else
      assert order == [order[0]] + order[1..];
      [order[0]] + Inserted(e, order[1..])
  }

  lemma {:induction false} InsertedInOrder(e: Expectation, order: seq<Expectation>)
    requires Ordered(order)
    ensures Ordered(Inserted(e, order))
  {
    if order != [] && !Before(e, order[0]) {
      var first, rest := order[0], order[1..];
      InsertedInOrder(e, rest);
      var tail := Inserted(e, rest);
      forall k | 0 <= k < |tail| ensures Before(first, tail[k]) {
        assert tail[k] in multiset(tail);
        if tail[k] != e {
          assert tail[k] in multiset(rest);
          var j :| 0 <= j < |rest| && rest[j] == tail[k];
          assert Before(order[0], order[j + 1]);
        }
      }
    }
  }

  function InOrder(expectations: seq<Expectation>): (r: seq<Expectation>)
    ensures multiset(r) == multiset(expectations)
  {
    if expectations == [] then []
    else
      assert expectations == [expectations[0]] + expectations[1..];
      Inserted(expectations[0], InOrder(expectations[1..]))
  }

  /** The sorted list is a permutation of the markers, the most demanding first and ties by place. */
  lemma {:induction false} InOrderIsOrdered(expectations: seq<Expectation>)
    ensures Ordered(InOrder(expectations)) && multiset(InOrder(expectations)) == multiset(expectations)
    ensures var order := InOrder(expectations);
            forall i, j :: 0 <= i < j < |order| ==>
              order[i].minimum > order[j].minimum
              || (order[i].minimum == order[j].minimum && order[i].marker <= order[j].marker)
  {
    if expectations != [] {
      InOrderIsOrdered(expectations[1..]);
      InsertedInOrder(expectations[0], InOrder(expectations[1..]));
    }
  }

  // Assignments.

  function Markers(order: seq<Expectation>): set<nat> {
    set k | 0 <= k < |order| :: order[k].marker
  }

  lemma MarkersAppend(order: seq<Expectation>, e: Expectation)
    ensures Markers(order + [e]) == Markers(order) + {e.marker}
  {
    var more := order + [e];
    assert more[|order|] == e;
    forall m | m in Markers(order) ensures m in Markers(more) {
      var k :| 0 <= k < |order| && order[k].marker == m;
      assert more[k].marker == m;
    }
  }

  /** The summaries that report at least `minimum` tests. */
  function Enough(summaries: seq<nat>, minimum: nat): (r: set<nat>)
    ensures forall s: nat :: s in r <==> s < |summaries| && summaries[s] >= minimum
  {
    set s: nat | s < |summaries| && summaries[s] >= minimum
  }

  predicate OneToOne(a: Assignment) {
    forall m, n :: m in a && n in a && a[m] == a[n] ==> m == n
  }

  /** Different markers get different summaries, and each summary reports what its marker asks for. */
  predicate ValidAssignment(a: Assignment, order: seq<Expectation>, summaries: seq<nat>) {
    && OneToOne(a)
    && a.Keys <= Markers(order)
    && forall k :: 0 <= k < |order| && order[k].marker in a ==>
         a[order[k].marker] in Enough(summaries, order[k].minimum)
  }

  /** Nobody can match more of `order` than `n`. */
  ghost predicate NoBetter(n: nat, order: seq<Expectation>, summaries: seq<nat>) {
    forall a: Assignment :: ValidAssignment(a, order, summaries) ==> |a| <= n
  }

  lemma WithoutOne(a: Assignment, m: nat)
    requires OneToOne(a) && m in a
    ensures OneToOne(a - {m}) && a.Values == (a - {m}).Values + {a[m]} && a[m] !in (a - {m}).Values
    ensures a.Keys == (a - {m}).Keys + {m}
  {
    var rest := a - {m};
    forall v | v in a.Values ensures v in rest.Values + {a[m]} {
      var n :| n in a && a[n] == v;
      assert n != m ==> n in rest && rest[n] == v;
    }
    forall v | v in rest.Values ensures v in a.Values && v != a[m] {
      var n :| n in rest && rest[n] == v;
      assert n in a && a[n] == v;
    }
  }

  lemma {:induction false} OneToOneSize(a: Assignment)
    requires OneToOne(a)
    ensures |a.Values| == |a|
  {
    hide OneToOne;
    if a != map[] {
      var m :| m in a;
      WithoutOne(a, m);
      OneToOneSize(a - {m});
      assert |a| == |a.Keys| && |a - {m}| == |(a - {m}).Keys|;
    }
  }

  /** If every marker asks for at least `minimum`, every summary in use reports that. */
  lemma UsedAreEnough(a: Assignment, order: seq<Expectation>, summaries: seq<nat>, minimum: nat)
    requires ValidAssignment(a, order, summaries) && forall k :: 0 <= k < |order| ==> order[k].minimum >= minimum
    ensures OneToOne(a) && a.Values <= Enough(summaries, minimum) && |a| <= |Enough(summaries, minimum)|
  {
    forall s | s in a.Values ensures s in Enough(summaries, minimum) {
      var m :| m in a && a[m] == s;
      assert m in Markers(order);
      var k :| 0 <= k < |order| && order[k].marker == m;
    }
    OneToOneSize(a);
    SubsetSize(a.Values, Enough(summaries, minimum));
  }

  lemma WithoutLast(a: Assignment, order: seq<Expectation>, e: Expectation, summaries: seq<nat>)
    requires ValidAssignment(a, order + [e], summaries)
    ensures ValidAssignment(a - {e.marker}, order, summaries)
  {
    var more, rest := order + [e], a - {e.marker};
    forall k | 0 <= k < |order| && order[k].marker in rest
      ensures rest[order[k].marker] in Enough(summaries, order[k].minimum)
    {
      assert more[k] == order[k];
    }
    MarkersAppend(order, e);
  }

  /** What any assignment can reach with one more marker, the least demanding so far. */
  lemma OneMore(n: nat, order: seq<Expectation>, e: Expectation, summaries: seq<nat>)
    requires NoBetter(n, order, summaries) && Ordered(order + [e])
    ensures NoBetter(n + 1, order + [e], summaries)
    ensures NoBetter(|Enough(summaries, e.minimum)|, order + [e], summaries)
  {
    var more := order + [e];
    LeastDemanding(order, e);
    forall a: Assignment | ValidAssignment(a, more, summaries)
      ensures |a| <= n + 1 && |a| <= |Enough(summaries, e.minimum)|
    {
      hide ValidAssignment, Enough;
      WithoutLast(a, order, e, summaries);
      SubsetSize(a.Keys, (a - {e.marker}).Keys + {e.marker});
      UsedAreEnough(a, more, summaries, e.minimum);
    }
  }

  lemma LeastDemanding(order: seq<Expectation>, e: Expectation)
    requires Ordered(order + [e])
    ensures forall k :: 0 <= k < |order + [e]| ==> (order + [e])[k].minimum >= e.minimum
    ensures forall k :: 0 <= k < |order| ==> order[k].minimum >= e.minimum
  {
    var more := order + [e];
    assert more[|order|] == e;
    forall k | 0 <= k < |order| ensures order[k].minimum >= e.minimum {
      assert more[k] == order[k] && Before(more[k], more[|order|]);
    }
  }

  /** Giving the marker an unused summary keeps the assignment valid. */
  lemma Extended(a: Assignment, order: seq<Expectation>, e: Expectation, summaries: seq<nat>, s: nat)
    requires ValidAssignment(a, order, summaries) && Distinct(order + [e])
    requires s in Enough(summaries, e.minimum) && s !in a.Values
    ensures e.marker !in a && ValidAssignment(a[e.marker := s], order + [e], summaries)
  {
    var more, b := order + [e], a[e.marker := s];
    assert more[|order|] == e;
    forall m | m in Markers(order) ensures m in Markers(more) && m != e.marker {
      var k :| 0 <= k < |order| && order[k].marker == m;
      assert more[k].marker == m && Distinct(more);
    }
    forall k | 0 <= k < |more| && more[k].marker in b ensures b[more[k].marker] in Enough(summaries, more[k].minimum) {
      if k < |order| { assert more[k] == order[k] && order[k].marker in Markers(order); }
    }
    forall m, n | m in b && n in b && b[m] == b[n] ensures m == n {
      assert m in a ==> a[m] in a.Values;
      assert n in a ==> a[n] in a.Values;
    }
  }

  lemma StillValid(a: Assignment, order: seq<Expectation>, e: Expectation, summaries: seq<nat>)
    requires ValidAssignment(a, order, summaries) && Distinct(order + [e])
    ensures e.marker !in a && ValidAssignment(a, order + [e], summaries)
  {
    var more := order + [e];
    assert more[|order|] == e;
    forall m | m in Markers(order) ensures m in Markers(more) && m != e.marker {
      var k :| 0 <= k < |order| && order[k].marker == m;
      assert more[k].marker == m && Distinct(more);
    }
    forall k | 0 <= k < |more| && more[k].marker in a ensures a[more[k].marker] in Enough(summaries, more[k].minimum) {
      if k < |order| { assert more[k] == order[k]; }
    }
  }

  // How many markers the pass matches.

  function Min(a: nat, b: nat): nat {
    if a < b then a else b
  }

  function Matched(order: seq<Expectation>, summaries: seq<nat>): nat {
    if order == [] then 0
    else
      var last := |order| - 1;
      Min(Matched(order[..last], summaries) + 1, |Enough(summaries, order[last].minimum)|)
  }

  lemma MatchedMore(order: seq<Expectation>, e: Expectation, summaries: seq<nat>)
    ensures Matched(order + [e], summaries) == Min(Matched(order, summaries) + 1, |Enough(summaries, e.minimum)|)
  {
    assert (order + [e])[..|order|] == order;
  }

  /** The first index not yet used that reports enough. */
  method FirstAvailable(available: set<nat>, summaries: seq<nat>, minimum: nat) returns (found: bool, index: nat)
    requires forall s :: s in available ==> s < |summaries|
    ensures found <==> available * Enough(summaries, minimum) != {}
    ensures found ==> index in available && index in Enough(summaries, minimum)
    ensures found ==> forall s :: s in available && s in Enough(summaries, minimum) ==> index <= s
  {
    index := 0;
    while index < |summaries|
      invariant index <= |summaries|
      invariant forall s :: s in available && s in Enough(summaries, minimum) ==> index <= s
    {
      if index in available && summaries[index] >= minimum {
        assert index in available * Enough(summaries, minimum);
        return true, index;
      }
      index := index + 1;
    }
    found := false;
  }

  /** The pass so far: a valid assignment, as large as any, and as large as the count says. */
  ghost predicate BestSoFar(chosen: Assignment, order: seq<Expectation>, summaries: seq<nat>) {
    && ValidAssignment(chosen, order, summaries)
    && NoBetter(|chosen|, order, summaries)
    && |chosen| == Matched(order, summaries)
  }

  lemma RoomLeft(a: Assignment, s: nat, enough: set<nat>)
    requires OneToOne(a) && a.Values <= enough && s in enough && s !in a.Values
    ensures |a| + 1 <= |enough|
  {
    OneToOneSize(a);
    SubsetSize(a.Values + {s}, enough);
  }

  lemma OneKeyMore(a: Assignment, m: nat, s: nat)
    requires m !in a
    ensures |a[m := s]| == |a| + 1
  {
    assert a[m := s].Keys == a.Keys + {m};
  }

  /** A marker that finds an unused summary. */
  lemma Take(chosen: Assignment, order: seq<Expectation>, e: Expectation, summaries: seq<nat>, s: nat)
    requires BestSoFar(chosen, order, summaries) && Distinct(order + [e]) && Ordered(order + [e])
    requires s in Enough(summaries, e.minimum) && s !in chosen.Values
    ensures e.marker !in chosen && BestSoFar(chosen[e.marker := s], order + [e], summaries)
  {
    hide NoBetter, ValidAssignment, OneToOne, Enough, Distinct, Ordered, Matched;
    LeastDemanding(order, e);
    UsedAreEnough(chosen, order, summaries, e.minimum);
    OneMore(|chosen|, order, e, summaries);
    Extended(chosen, order, e, summaries, s);
    RoomLeft(chosen, s, Enough(summaries, e.minimum));
    MatchedMore(order, e, summaries);
    OneKeyMore(chosen, e.marker, s);
  }

  /** A marker that finds every summary that reports enough already used. */
  lemma Skip(chosen: Assignment, order: seq<Expectation>, e: Expectation, summaries: seq<nat>)
    requires BestSoFar(chosen, order, summaries) && Distinct(order + [e]) && Ordered(order + [e])
    requires Enough(summaries, e.minimum) <= chosen.Values
    ensures e.marker !in chosen && BestSoFar(chosen, order + [e], summaries)
  {
    hide NoBetter, ValidAssignment, OneToOne, Enough, Distinct, Ordered, Matched;
    LeastDemanding(order, e);
    UsedAreEnough(chosen, order, summaries, e.minimum);
    OneMore(|chosen|, order, e, summaries);
    StillValid(chosen, order, e, summaries);
    OneToOneSize(chosen);
    SubsetSize(Enough(summaries, e.minimum), chosen.Values);
    MatchedMore(order, e, summaries);
  }

  predicate Answers(matches: map<nat, bool>, order: seq<Expectation>, chosen: Assignment) {
    && matches.Keys == Markers(order)
    && chosen.Keys <= matches.Keys
    && forall m :: m in matches ==> (matches[m] <==> m in chosen)
  }

  lemma AnswerAdded(matches: map<nat, bool>, order: seq<Expectation>, chosen: Assignment, e: Expectation, s: nat)
    requires Answers(matches, order, chosen) && e.marker !in chosen
    ensures Answers(matches[e.marker := true], order + [e], chosen[e.marker := s])
    ensures Answers(matches[e.marker := false], order + [e], chosen)
  {
    hide Markers;
    MarkersAppend(order, e);
  }

  // Sorting changes neither the markers nor what assignments are valid.

  lemma SameElements(a: seq<Expectation>, b: seq<Expectation>, e: Expectation)
    requires multiset(a) == multiset(b)
    ensures e in a <==> e in b
  {
    assert e in multiset(a) <==> e in multiset(b);
  }

  lemma MarkerMembers(order: seq<Expectation>, m: nat)
    ensures m in Markers(order) <==> exists e :: e in order && e.marker == m
  {
    if m in Markers(order) {
      var k :| 0 <= k < |order| && order[k].marker == m;
      assert order[k] in order;
    }
  }

  lemma {:induction false} InsertedDistinct(e: Expectation, order: seq<Expectation>)
    requires Distinct(order) && forall d :: d in order ==> d.marker != e.marker
    ensures Distinct(Inserted(e, order))
  {
    if order != [] && !Before(e, order[0]) {
      var first, rest := order[0], order[1..];
      InsertedDistinct(e, rest);
      var tail := Inserted(e, rest);
      forall k | 0 <= k < |tail| ensures first.marker != tail[k].marker {
        assert tail[k] in multiset(tail);
        if tail[k] != e {
          assert tail[k] in multiset(rest);
          var j :| 0 <= j < |rest| && rest[j] == tail[k];
          assert order[j + 1] == tail[k];
        }
      }
    }
  }

  lemma {:induction false} InOrderDistinct(expectations: seq<Expectation>)
    requires Distinct(expectations)
    ensures Distinct(InOrder(expectations))
  {
    if expectations != [] {
      var e, rest := expectations[0], expectations[1..];
      InOrderDistinct(rest);
      forall d | d in InOrder(rest) ensures d.marker != e.marker {
        SameElements(InOrder(rest), rest, d);
        var k :| 0 <= k < |rest| && rest[k] == d;
        assert expectations[k + 1] == d;
      }
      InsertedDistinct(e, InOrder(rest));
    }
  }

  lemma SameMarkers(expectations: seq<Expectation>)
    requires Distinct(expectations)
    ensures Ordered(InOrder(expectations))
    ensures Markers(InOrder(expectations)) == Markers(expectations)
    ensures Distinct(InOrder(expectations))
  {
    var order := InOrder(expectations);
    InOrderIsOrdered(expectations);
    forall m ensures m in Markers(order) <==> m in Markers(expectations) {
      MarkerMembers(order, m);
      MarkerMembers(expectations, m);
      forall e: Expectation ensures e in order <==> e in expectations { SameElements(order, expectations, e); }
    }
    InOrderDistinct(expectations);
  }

  lemma SameAssignments(expectations: seq<Expectation>, a: Assignment, summaries: seq<nat>)
    requires Distinct(expectations)
    ensures ValidAssignment(a, InOrder(expectations), summaries) <==> ValidAssignment(a, expectations, summaries)
  {
    var order := InOrder(expectations);
    SameMarkers(expectations);
    forall e: Expectation ensures e in order <==> e in expectations { SameElements(order, expectations, e); }
    assert forall k :: 0 <= k < |order| ==> order[k] in order;
    assert forall k :: 0 <= k < |expectations| ==> expectations[k] in expectations;
  }

  lemma NoBetterInOrder(n: nat, expectations: seq<Expectation>, summaries: seq<nat>)
    requires Distinct(expectations) && NoBetter(n, InOrder(expectations), summaries)
    ensures NoBetter(n, expectations, summaries)
  {
    forall a: Assignment | ValidAssignment(a, expectations, summaries) ensures |a| <= n {
      SameAssignments(expectations, a, summaries);
    }
  }

  ghost predicate FullAssignmentExists(expectations: seq<Expectation>, summaries: seq<nat>) {
    exists a: Assignment :: ValidAssignment(a, expectations, summaries) && a.Keys == Markers(expectations)
  }

  /** Every marker is reported as matched exactly when some assignment serves them all. */
  lemma AllMatchedIffPossible(expectations: seq<Expectation>, summaries: seq<nat>, matches: map<nat, bool>,
      chosen: Assignment)
    requires Answers(matches, expectations, chosen)
    requires ValidAssignment(chosen, expectations, summaries) && NoBetter(|chosen|, expectations, summaries)
    ensures (forall m :: m in matches ==> matches[m]) <==> FullAssignmentExists(expectations, summaries)
  {
    hide Enough, OneToOne;
    if forall m :: m in matches ==> matches[m] {
      assert chosen.Keys == Markers(expectations);
    }
    if FullAssignmentExists(expectations, summaries) {
      var a: Assignment :| ValidAssignment(a, expectations, summaries) && a.Keys == Markers(expectations);
      SubsetSize(chosen.Keys, Markers(expectations));
      assert |chosen.Keys| == |chosen| && |a.Keys| == |a|;
    }
  }

  // The pass.

  lemma AddedValue(a: Assignment, m: nat, s: nat)
    requires m !in a
    ensures a[m := s].Values == a.Values + {s}
  {
    var b := a[m := s];
    assert b[m] == s && s in b.Values;
    forall v | v in a.Values ensures v in b.Values {
      var k :| k in a && a[k] == v;
      assert b[k] == v;
    }
  }

  lemma AllUsed(available: set<nat>, used: set<nat>, summaries: seq<nat>, minimum: nat)
    requires available == Enough(summaries, 0) - used
    requires available * Enough(summaries, minimum) == {}
    ensures Enough(summaries, minimum) <= used
  {
    forall s | s in Enough(summaries, minimum) ensures s in used {
      assert s in available ==> s in available * Enough(summaries, minimum);
    }
  }

  /** The variables of the pass when the markers of `order` have had their turn. */
  ghost predicate Passed(matches: map<nat, bool>, chosen: Assignment, available: set<nat>, order: seq<Expectation>,
      summaries: seq<nat>) {
    && Answers(matches, order, chosen)
    && BestSoFar(chosen, order, summaries)
    && available == Enough(summaries, 0) - chosen.Values
  }

  lemma PassFound(matches: map<nat, bool>, chosen: Assignment, available: set<nat>, order: seq<Expectation>,
      e: Expectation, summaries: seq<nat>, s: nat)
    requires Passed(matches, chosen, available, order, summaries) && Distinct(order + [e]) && Ordered(order + [e])
    requires s in available && s in Enough(summaries, e.minimum)
    ensures Passed(matches[e.marker := true], chosen[e.marker := s], available - {s}, order + [e], summaries)
  {
    hide Answers, BestSoFar, Distinct, Ordered, Enough;
    Take(chosen, order, e, summaries, s);
    AddedValue(chosen, e.marker, s);
    AnswerAdded(matches, order, chosen, e, s);
  }

  lemma PassMissed(matches: map<nat, bool>, chosen: Assignment, available: set<nat>, order: seq<Expectation>,
      e: Expectation, summaries: seq<nat>)
    requires Passed(matches, chosen, available, order, summaries) && Distinct(order + [e]) && Ordered(order + [e])
    requires available * Enough(summaries, e.minimum) == {}
    ensures Passed(matches[e.marker := false], chosen, available, order + [e], summaries)
  {
    hide Answers, BestSoFar, Distinct, Ordered, Enough;
    AllUsed(available, chosen.Values, summaries, e.minimum);
    Skip(chosen, order, e, summaries);
    AnswerAdded(matches, order, chosen, e, 0);
  }

  lemma PrefixInOrder(order: seq<Expectation>, n: nat)
    requires Distinct(order) && Ordered(order) && n <= |order|
    ensures Distinct(order[..n]) && Ordered(order[..n])
  {}

  lemma NothingYet(summaries: seq<nat>)
    ensures Passed(map[], map[], Enough(summaries, 0), [], summaries)
  {
    forall a: Assignment | ValidAssignment(a, [], summaries) ensures |a| <= 0 {
      assert a.Keys == {};
      assert |a| == |a.Keys|;
    }
  }

  lemma AvailableAreSummaries(matches: map<nat, bool>, chosen: Assignment, available: set<nat>, order: seq<Expectation>,
      summaries: seq<nat>)
    requires Passed(matches, chosen, available, order, summaries)
    ensures forall s :: s in available ==> s < |summaries|
  {}

  lemma Finish(expectations: seq<Expectation>, summaries: seq<nat>, matches: map<nat, bool>, chosen: Assignment,
      available: set<nat>)
    requires Distinct(expectations) && Passed(matches, chosen, available, InOrder(expectations), summaries)
    ensures Answers(matches, expectations, chosen)
    ensures ValidAssignment(chosen, expectations, summaries)
    ensures NoBetter(|chosen|, expectations, summaries)
    ensures |chosen| == Matched(InOrder(expectations), summaries)
    ensures (forall m :: m in matches ==> matches[m]) <==> FullAssignmentExists(expectations, summaries)
  {
    SameMarkers(expectations);
    SameAssignments(expectations, chosen, summaries);
    NoBetterInOrder(|chosen|, expectations, summaries);
    AllMatchedIffPossible(expectations, summaries, matches, chosen);
  }

  /**
   * The greedy pass. `chosen` is the assignment it made: valid, covering exactly the markers reported
   * as matched, and as large as any valid assignment.
   */
  method MatchCountMarkers(expectations: seq<Expectation>, summaries: seq<nat>)
    returns (matches: map<nat, bool>, ghost chosen: Assignment)
    requires Distinct(expectations)
    ensures Answers(matches, expectations, chosen)
    ensures ValidAssignment(chosen, expectations, summaries)
    ensures NoBetter(|chosen|, expectations, summaries)
    ensures |chosen| == Matched(InOrder(expectations), summaries)
    ensures (forall m :: m in matches ==> matches[m]) <==> FullAssignmentExists(expectations, summaries)
  {
    hide NoBetter, Matched, ValidAssignment, Enough, Markers, Answers, BestSoFar, Distinct, Ordered, Passed;
    hide InOrder, FullAssignmentExists;
    var order := InOrder(expectations);
    SameMarkers(expectations);
    matches, chosen := map[], map[];
    var available := Enough(summaries, 0);
    NothingYet(summaries);
    assert order[..0] == [];
    for i := 0 to |order|
      invariant Passed(matches, chosen, available, order[..i], summaries)
    {
      var e := order[i];
      assert order[..i + 1] == order[..i] + [e];
      PrefixInOrder(order, i + 1);
      AvailableAreSummaries(matches, chosen, available, order[..i], summaries);
      var found, index := FirstAvailable(available, summaries, e.minimum);
      if found {
        PassFound(matches, chosen, available, order[..i], e, summaries, index);
        matches := matches[e.marker := true];
        chosen := chosen[e.marker := index];
        available := available - {index};
      } else {
        PassMissed(matches, chosen, available, order[..i], e, summaries);
        matches := matches[e.marker := false];
      }
    }
    assert order[..|order|] == order;
    Finish(expectations, summaries, matches, chosen, available);
  }
}
