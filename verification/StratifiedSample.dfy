/** A sample drawn round-robin over the strata, each pick going to the split that keeps things even. */
module StratifiedSample {
  import opened Sets

  datatype Stratum = CommonName | Overridden | ManyRefs | ValueRef | Decorator | Plain

  const STRATA := [CommonName, Overridden, ManyRefs, ValueRef, Decorator, Plain]

  function Place(s: Stratum): nat {
    match s
    case CommonName => 0
    case Overridden => 1
    case ManyRefs => 2
    case ValueRef => 3
    case Decorator => 4
    case Plain => 5
  }

  datatype Split = Dev | Holdout

  datatype Row = Row(id: string, tags: set<Stratum>)

  /** A chosen row, the stratum it was drawn for, and the split it went to. */
  datatype Pick = Pick(row: Row, stratum: Stratum, split: Split)

  datatype Counts = Counts(dev: nat, holdout: nat)

  datatype Found = Nothing | Found(row: Row)

  /** An untagged row belongs to the plain stratum. */
  function StrataOf(row: Row): set<Stratum> {
    if row.tags == {} then {Plain} else row.tags
  }

  function ChooseSplit(inStratum: Counts, overall: Counts): Split {
    if inStratum.dev != inStratum.holdout then
      if inStratum.dev < inStratum.holdout then Dev else Holdout
    else if overall.dev <= overall.holdout then Dev
    else Holdout
  }

  function Added(counts: Counts, split: Split): Counts {
    if split.Dev? then counts.(dev := counts.dev + 1) else counts.(holdout := counts.holdout + 1)
  }

  // What a list of picks stands for.

  function Overall(picks: seq<Pick>): Counts {
    if picks == [] then Counts(0, 0)
    else Added(Overall(picks[..|picks| - 1]), picks[|picks| - 1].split)
  }

  function InStratum(picks: seq<Pick>, stratum: Stratum): Counts {
    if picks == [] then Counts(0, 0)
    else
      var before, last := InStratum(picks[..|picks| - 1], stratum), picks[|picks| - 1];
      if last.stratum == stratum then Added(before, last.split) else before
  }

  function Chosen(picks: seq<Pick>): set<string> {
    set k | 0 <= k < |picks| :: picks[k].row.id
  }

  function Ids(rows: seq<Row>): set<string> {
    set k | 0 <= k < |rows| :: rows[k].id
  }

  /** The first row of the stratum that is not chosen. */
  function FirstFree(order: seq<Row>, chosen: set<string>, stratum: Stratum): Found {
    if order == [] then Nothing
    else if order[0].id !in chosen && stratum in StrataOf(order[0]) then Found(order[0])
    else FirstFree(order[1..], chosen, stratum)
  }

  // The rounds.

  function Turn(order: seq<Row>, count: nat, picks: seq<Pick>, stratum: Stratum): seq<Pick> {
    if |picks| >= count then picks
    else
      match FirstFree(order, Chosen(picks), stratum)
      case Nothing => picks
      case Found(row) => picks + [Pick(row, stratum, ChooseSplit(InStratum(picks, stratum), Overall(picks)))]
  }

  /** The turns of the strata from the `s`-th on. */
  function Round(order: seq<Row>, count: nat, picks: seq<Pick>, s: nat): (r: seq<Pick>)
    requires s <= |STRATA|
    ensures picks <= r
    decreases |STRATA| - s
  {
    if s == |STRATA| then picks else Round(order, count, Turn(order, count, picks, STRATA[s]), s + 1)
  }

  /** Rounds until there are enough picks or a round adds none. */
  function Rounds(order: seq<Row>, count: nat, picks: seq<Pick>): seq<Pick>
    decreases count - |picks|
  {
    var next := Round(order, count, picks, 0);
    if |picks| >= count || |next| == |picks| then picks else Rounds(order, count, next)
  }

  method NextFree(order: seq<Row>, chosen: set<string>, stratum: Stratum) returns (found: Found)
    ensures found == FirstFree(order, chosen, stratum)
  {
    for i := 0 to |order|
      invariant FirstFree(order, chosen, stratum) == FirstFree(order[i..], chosen, stratum)
    {
      if order[i].id !in chosen && stratum in StrataOf(order[i]) { return Found(order[i]); }
      assert order[i..][1..] == order[i + 1..];
    }
    found := Nothing;
  }

  lemma OneMorePick(picks: seq<Pick>, pick: Pick, s: Stratum)
    ensures Overall(picks + [pick]) == Added(Overall(picks), pick.split)
    ensures InStratum(picks + [pick], s)
         == if s == pick.stratum then Added(InStratum(picks, s), pick.split) else InStratum(picks, s)
    ensures Chosen(picks + [pick]) == Chosen(picks) + {pick.row.id}
  {
    var more := picks + [pick];
    assert more[..|more| - 1] == picks;
    assert more[|picks|] == pick;
    forall id | id in Chosen(picks) ensures id in Chosen(more) {
      var k :| 0 <= k < |picks| && picks[k].row.id == id;
      assert more[k].row.id == id;
    }
  }

  /** The running totals agree with the picks. */
  predicate Counted(picks: seq<Pick>, chosen: set<string>, overall: Counts, perStratum: map<Stratum, Counts>) {
    && chosen == Chosen(picks) && overall == Overall(picks)
    && forall s: Stratum :: s in perStratum && perStratum[s] == InStratum(picks, s)
  }

  lemma CountedAfter(picks: seq<Pick>, chosen: set<string>, overall: Counts, perStratum: map<Stratum, Counts>,
      pick: Pick)
    requires Counted(picks, chosen, overall, perStratum)
    ensures Counted(picks + [pick], chosen + {pick.row.id}, Added(overall, pick.split),
                    perStratum[pick.stratum := Added(perStratum[pick.stratum], pick.split)])
  {
    hide Overall, InStratum, Chosen;
    forall s
      ensures InStratum(picks + [pick], s) == if s == pick.stratum then Added(perStratum[s], pick.split)
          else perStratum[s]
    {
      OneMorePick(picks, pick, s);
    }
    OneMorePick(picks, pick, pick.stratum);
  }

  lemma NothingCounted(perStratum: map<Stratum, Counts>)
    requires perStratum == map s | s in STRATA :: Counts(0, 0)
    ensures Counted([], {}, Counts(0, 0), perStratum)
  {
    NoPicks();
    forall s: Stratum ensures s in perStratum { assert STRATA[Place(s)] == s; }
  }

  lemma CountsOf(picks: seq<Pick>, chosen: set<string>, overall: Counts, perStratum: map<Stratum, Counts>, s: Stratum)
    requires Counted(picks, chosen, overall, perStratum)
    ensures chosen == Chosen(picks) && overall == Overall(picks) && s in perStratum &&
        perStratum[s] == InStratum(picks, s)
  {}

  method Sample(order: seq<Row>, count: nat) returns (picks: seq<Pick>)
    ensures picks == Rounds(order, count, [])
  {
    hide Overall, InStratum, Chosen, FirstFree, Counted, ChooseSplit, Added, Round, Rounds;
    picks := [];
    var chosen: set<string> := {};
    var overall := Counts(0, 0);
    var perStratum := map s | s in STRATA :: Counts(0, 0);
    NothingCounted(perStratum);
    while |picks| < count
      invariant Rounds(order, count, picks) == Rounds(order, count, [])
      invariant Counted(picks, chosen, overall, perStratum)
    {
      ghost var before := picks;
      var progressed := false;
      var i := 0;
      while i < |STRATA|
        invariant i <= |STRATA|
        invariant |before| <= |picks| && (progressed <==> |before| < |picks|)
        invariant !progressed ==> picks == before
        invariant Round(order, count, before, 0) == Round(order, count, picks, i)
        invariant Counted(picks, chosen, overall, perStratum)
      {
        if |picks| >= count {
          break;
        }
        var stratum := STRATA[i];
        NextTurn(order, count, picks, i);
        CountsOf(picks, chosen, overall, perStratum, stratum);
        var found := NextFree(order, chosen, stratum);
        if found.Found? {
          var split := ChooseSplit(perStratum[stratum], overall);
          CountedAfter(picks, chosen, overall, perStratum, Pick(found.row, stratum, split));
          perStratum := perStratum[stratum := Added(perStratum[stratum], split)];
          overall := Added(overall, split);
          chosen := chosen + {found.row.id};
          picks := picks + [Pick(found.row, stratum, split)];
          progressed := true;
        }
        i := i + 1;
      }
      NoMoreTurns(order, count, picks, i);
      NextRound(order, count, before);
      if !progressed {
        break;
      }
    }
    LastRound(order, count, picks);
  }

  lemma NextTurn(order: seq<Row>, count: nat, picks: seq<Pick>, s: nat)
    requires s < |STRATA|
    ensures Round(order, count, picks, s) == Round(order, count, Turn(order, count, picks, STRATA[s]), s + 1)
  {}

  /** A round is over after the last stratum, or once there are enough picks. */
  lemma {:induction false} NoMoreTurns(order: seq<Row>, count: nat, picks: seq<Pick>, s: nat)
    requires s <= |STRATA| && (s == |STRATA| || |picks| >= count)
    ensures Round(order, count, picks, s) == picks
    decreases |STRATA| - s
  {
    if s < |STRATA| { NoMoreTurns(order, count, picks, s + 1); }
  }

  lemma NextRound(order: seq<Row>, count: nat, picks: seq<Pick>)
    requires |picks| < count
    ensures var next := Round(order, count, picks, 0);
            Rounds(order, count, picks) == if |next| == |picks| then picks else Rounds(order, count, next)
  {}

  lemma LastRound(order: seq<Row>, count: nat, picks: seq<Pick>)
    requires |picks| >= count || |Round(order, count, picks, 0)| == |picks|
    ensures Rounds(order, count, picks) == picks
  {}

  lemma NoPicks()
    ensures Chosen([]) == {} && Overall([]) == Counts(0, 0) && forall s :: InStratum([], s) == Counts(0, 0)
  {}

  // Every list of picks the rounds pass through.

  /** Each pick, in the state it was made in, is the first free row of its stratum and goes where the rule says. */
  predicate Legal(order: seq<Row>, picks: seq<Pick>) {
    picks == [] ||
    (var before, last := picks[..|picks| - 1], picks[|picks| - 1];
     && Legal(order, before)
     && FirstFree(order, Chosen(before), last.stratum) == Found(last.row)
     && last.split == ChooseSplit(InStratum(before, last.stratum), Overall(before)))
  }

  lemma TurnIsLegal(order: seq<Row>, count: nat, picks: seq<Pick>, stratum: Stratum)
    requires Legal(order, picks) && |picks| <= count
    ensures Legal(order, Turn(order, count, picks, stratum)) && |Turn(order, count, picks, stratum)| <= count
  {
    var next := Turn(order, count, picks, stratum);
    if next != picks { assert next[..|next| - 1] == picks; }
  }

  lemma {:induction false} RoundIsLegal(order: seq<Row>, count: nat, picks: seq<Pick>, s: nat)
    requires s <= |STRATA| && Legal(order, picks) && |picks| <= count
    ensures Legal(order, Round(order, count, picks, s)) && |Round(order, count, picks, s)| <= count
    decreases |STRATA| - s
  {
    hide Turn, Legal;
    if s < |STRATA| {
      TurnIsLegal(order, count, picks, STRATA[s]);
      RoundIsLegal(order, count, Turn(order, count, picks, STRATA[s]), s + 1);
    }
  }

  lemma {:induction false} RoundsAreLegal(order: seq<Row>, count: nat, picks: seq<Pick>)
    requires Legal(order, picks) && |picks| <= count
    ensures Legal(order, Rounds(order, count, picks)) && |Rounds(order, count, picks)| <= count
    decreases count - |picks|
  {
    RoundIsLegal(order, count, picks, 0);
    var next := Round(order, count, picks, 0);
    if |picks| < count && |next| > |picks| { RoundsAreLegal(order, count, next); }
  }

  // The counts are those of the picks.

  ghost function InSplit(picks: seq<Pick>, split: Split): set<nat> {
    set k: nat | k < |picks| && picks[k].split == split
  }

  ghost function DrawnFor(picks: seq<Pick>, stratum: Stratum, split: Split): set<nat> {
    set k: nat | k < |picks| && picks[k].stratum == stratum && picks[k].split == split
  }

  lemma {:induction false} CountsOfPicks(picks: seq<Pick>, s: Stratum)
    ensures Overall(picks) == Counts(|InSplit(picks, Dev)|, |InSplit(picks, Holdout)|)
    ensures InStratum(picks, s) == Counts(|DrawnFor(picks, s, Dev)|, |DrawnFor(picks, s, Holdout)|)
  {
    hide InSplit, DrawnFor;
    if picks == [] {
      NoneIn(s);
    } else {
      var n := |picks| - 1;
      var before, last := picks[..n], picks[n];
      assert picks == before + [last];
      CountsOfPicks(before, s);
      OneMoreIn(before, last, s, Dev);
      OneMoreIn(before, last, s, Holdout);
    }
  }

  lemma NoneIn(s: Stratum)
    ensures forall split :: InSplit([], split) == {} && DrawnFor([], s, split) == {}
  {}

  lemma OneMoreInSplit(picks: seq<Pick>, pick: Pick, split: Split)
    ensures |InSplit(picks + [pick], split)| == |InSplit(picks, split)| + One(pick.split == split)
  {
    var n := |picks|;
    assert InSplit(picks + [pick], split)
        == if pick.split == split then InSplit(picks, split) + {n} else InSplit(picks, split);
  }

  lemma OneMoreIn(picks: seq<Pick>, pick: Pick, s: Stratum, split: Split)
    ensures var more := picks + [pick];
            && |InSplit(more, split)| == |InSplit(picks, split)| + One(pick.split == split)
            && |DrawnFor(more, s, split)| == |DrawnFor(picks, s, split)| + One(pick.split == split && pick.stratum == s)
  {
    OneMoreInSplit(picks, pick, split);
    var more, n := picks + [pick], |picks|;
    assert DrawnFor(more, s, split)
        == if pick.split == split && pick.stratum == s then DrawnFor(picks, s, split) + {n}
           else DrawnFor(picks, s, split);
  }

  /** In each stratum the splits differ by one pick at most, and by three over all strata. */
  ghost predicate SplitsEven(picks: seq<Pick>) {
    && (forall s :: -1 <= |DrawnFor(picks, s, Dev)| - |DrawnFor(picks, s, Holdout)| <= 1)
    && -3 <= |InSplit(picks, Dev)| - |InSplit(picks, Holdout)| <= 3
  }

  // Balance.

  function Lead(picks: seq<Pick>, stratum: Stratum): int {
    InStratum(picks, stratum).dev - InStratum(picks, stratum).holdout
  }

  function OverallLead(picks: seq<Pick>): int {
    Overall(picks).dev - Overall(picks).holdout
  }

  function One(b: bool): nat {
    if b then 1 else 0
  }

  /** How many of the first `n` strata have more development rows than held-out ones. */
  function DevHeavy(picks: seq<Pick>, n: nat): nat
    requires n <= |STRATA|
  {
    if n == 0 then 0 else DevHeavy(picks, n - 1) + One(Lead(picks, STRATA[n - 1]) > 0)
  }

  function HoldoutHeavy(picks: seq<Pick>, n: nat): nat
    requires n <= |STRATA|
  {
    if n == 0 then 0 else HoldoutHeavy(picks, n - 1) + One(Lead(picks, STRATA[n - 1]) < 0)
  }

  /** A pick moves the counts of its own stratum only. */
  lemma {:induction false} OnlyOwnStratum(picks: seq<Pick>, pick: Pick, n: nat)
    requires n <= |STRATA|
    ensures var more, own := picks + [pick], Place(pick.stratum) < n;
            && DevHeavy(more, n) == DevHeavy(picks, n)
                 + (if own then One(Lead(more, pick.stratum) > 0) - One(Lead(picks, pick.stratum) > 0) else 0)
            && HoldoutHeavy(more, n) == HoldoutHeavy(picks, n)
                 + (if own then One(Lead(more, pick.stratum) < 0) - One(Lead(picks, pick.stratum) < 0) else 0)
  {
    hide InStratum, Overall;
    if n > 0 {
      OnlyOwnStratum(picks, pick, n - 1);
      OneMorePick(picks, pick, STRATA[n - 1]);
      PlaceOf(n - 1);
    }
  }

  lemma PlaceOf(n: nat)
    requires n < |STRATA|
    ensures Place(STRATA[n]) == n
    ensures forall s :: Place(s) == n ==> STRATA[n] == s
  {}

  /** A stratum leans at most one way, and the one that is about to move may be even. */
  lemma {:induction false} HeavyStrata(picks: seq<Pick>, n: nat, s: Stratum)
    requires n <= |STRATA|
    ensures DevHeavy(picks, n) + HoldoutHeavy(picks, n) + One(Place(s) < n && Lead(picks, s) == 0) <= n
  {
    hide InStratum;
    if n > 0 {
      HeavyStrata(picks, n - 1, s);
      PlaceOf(n - 1);
    }
  }

  predicate Even(picks: seq<Pick>) {
    && (forall s :: -1 <= Lead(picks, s) <= 1)
    && OverallLead(picks) == DevHeavy(picks, |STRATA|) - HoldoutHeavy(picks, |STRATA|)
    && DevHeavy(picks, |STRATA|) <= 3 && HoldoutHeavy(picks, |STRATA|) <= 3
  }

  lemma NothingPicked(n: nat)
    requires n <= |STRATA|
    ensures DevHeavy([], n) == 0 && HoldoutHeavy([], n) == 0
  {}

  lemma EvenAfter(picks: seq<Pick>, pick: Pick)
    requires Even(picks) && pick.split == ChooseSplit(InStratum(picks, pick.stratum), Overall(picks))
    ensures Even(picks + [pick])
  {
    hide InStratum, Overall, DevHeavy, HoldoutHeavy;
    forall s ensures -1 <= Lead(picks + [pick], s) <= 1 {
      OneMorePick(picks, pick, s);
      assert -1 <= Lead(picks, s) <= 1;
    }
    OneMorePick(picks, pick, pick.stratum);
    OnlyOwnStratum(picks, pick, |STRATA|);
    HeavyStrata(picks, |STRATA|, pick.stratum);
  }

  /** Every legal list of picks, and so every state of a run, is even: the six strata lean three ways at most. */
  lemma {:induction false} LegalIsEven(order: seq<Row>, picks: seq<Pick>)
    requires Legal(order, picks)
    ensures Even(picks) && SplitsEven(picks)
  {
    hide InStratum, Overall, SplitsEven;
    if picks == [] {
      NoPicks();
      NothingPicked(|STRATA|);
    } else {
      var before, last := picks[..|picks| - 1], picks[|picks| - 1];
      LegalIsEven(order, before);
      EvenAfter(before, last);
      assert picks == before + [last];
    }
    EvenSplits(picks);
  }

  lemma EvenSplits(picks: seq<Pick>)
    requires Even(picks)
    ensures SplitsEven(picks)
  {
    hide InStratum, Overall, InSplit, DrawnFor, DevHeavy, HoldoutHeavy;
    forall s ensures -1 <= |DrawnFor(picks, s, Dev)| - |DrawnFor(picks, s, Holdout)| <= 1 {
      CountsOfPicks(picks, s);
      assert -1 <= Lead(picks, s) <= 1;
    }
    CountsOfPicks(picks, Plain);
  }

  // Which rows are picked.

  lemma {:induction false} FirstFreeMeans(order: seq<Row>, chosen: set<string>, stratum: Stratum)
    ensures match FirstFree(order, chosen, stratum)
            case Nothing => forall row :: row in order && row.id !in chosen ==> stratum !in StrataOf(row)
            case Found(row) => row in order && row.id !in chosen && stratum in StrataOf(row)
  {
    if order != [] {
      FirstFreeMeans(order[1..], chosen, stratum);
      assert order == [order[0]] + order[1..];
    }
  }

  predicate Free(row: Row, chosen: set<string>, stratum: Stratum) {
    row.id !in chosen && if row.tags == {} then stratum == Plain else stratum in row.tags
  }

  lemma {:induction false} FirstFreeIsFirst(order: seq<Row>, chosen: set<string>, stratum: Stratum) returns (k: nat)
    ensures k <= |order| && forall j :: 0 <= j < k ==> !Free(order[j], chosen, stratum)
    ensures FirstFree(order, chosen, stratum).Found? <==> k < |order|
    ensures k < |order| ==>
              Free(order[k], chosen, stratum) && FirstFree(order, chosen, stratum) == Found(order[k])
  {
    if order == [] || Free(order[0], chosen, stratum) {
      k := 0;
    } else {
      var rest := FirstFreeIsFirst(order[1..], chosen, stratum);
      k := rest + 1;
      assert forall j :: 0 < j < k ==> order[j] == order[1..][j - 1];
    }
  }

  /** Every row of the stratum that comes before the row at `k` has been picked already. */
  predicate TakesFirst(order: seq<Row>, before: seq<Pick>, pick: Pick, k: nat) {
    && k < |order| && order[k] == pick.row && Free(order[k], Chosen(before), pick.stratum)
    && forall j :: 0 <= j < k ==> !Free(order[j], Chosen(before), pick.stratum)
  }

  /**
    Every pick is the first row left of its stratum, and it goes to the split that is behind in the
    stratum, failing that to the one behind overall, failing that to development.
   */
  lemma {:induction false} PickMeans(order: seq<Row>, picks: seq<Pick>, i: nat)
    requires Legal(order, picks) && i < |picks|
    ensures exists k :: TakesFirst(order, picks[..i], picks[i], k)
    ensures var before, s := picks[..i], picks[i].stratum;
            var lead := |DrawnFor(before, s, Dev)| - |DrawnFor(before, s, Holdout)|;
            picks[i].split.Dev? <==>
              lead < 0 || (lead == 0 && |InSplit(before, Dev)| <= |InSplit(before, Holdout)|)
    ensures picks[0].split.Dev?
    decreases |picks|
  {
    hide Chosen, InStratum, Overall, DrawnFor, InSplit;
    var before, last := picks[..|picks| - 1], picks[|picks| - 1];
    if i < |before| {
      PickMeans(order, before, i);
      assert before[..i] == picks[..i];
    } else {
      var k := FirstFreeIsFirst(order, Chosen(before), last.stratum);
      assert TakesFirst(order, picks[..i], picks[i], k);
      CountsOfPicks(before, last.stratum);
      if i > 0 { PickMeans(order, before, 0); }
      NoPicks();
    }
  }

  predicate NoneTwice(picks: seq<Pick>) {
    forall i, j :: 0 <= i < j < |picks| ==> picks[i].row.id != picks[j].row.id
  }

  predicate FromStrata(order: seq<Row>, picks: seq<Pick>) {
    forall i :: 0 <= i < |picks| ==> picks[i].row in order && picks[i].stratum in StrataOf(picks[i].row)
  }

  lemma NoneTwiceAfter(picks: seq<Pick>, pick: Pick)
    requires NoneTwice(picks) && pick.row.id !in Chosen(picks)
    ensures NoneTwice(picks + [pick])
  {
    forall i | 0 <= i < |picks| ensures picks[i].row.id != pick.row.id {
      assert picks[i].row.id in Chosen(picks);
    }
  }

  /** No row is picked twice, and every pick is a row of its stratum. */
  lemma {:induction false} LegalPicks(order: seq<Row>, picks: seq<Pick>)
    requires Legal(order, picks)
    ensures NoneTwice(picks) && FromStrata(order, picks)
    ensures |Chosen(picks)| == |picks| && Chosen(picks) <= Ids(order)
  {
    hide Chosen, InStratum, Overall, NoneTwice, FirstFree;
    if picks == [] {
      NoPicks();
      NonePickedTwice();
    } else {
      var before, last := picks[..|picks| - 1], picks[|picks| - 1];
      LegalPicks(order, before);
      FirstFreeMeans(order, Chosen(before), last.stratum);
      OneMorePick(before, last, last.stratum);
      NoneTwiceAfter(before, last);
      assert picks == before + [last];
      var k :| 0 <= k < |order| && order[k] == last.row;
      assert last.row.id in Ids(order);
    }
  }

  lemma NonePickedTwice()
    ensures NoneTwice([])
  {}

  lemma {:induction false} IdleRound(order: seq<Row>, count: nat, picks: seq<Pick>, s: nat)
    requires s <= |STRATA| && |picks| < count && |Round(order, count, picks, s)| == |picks|
    ensures forall i :: s <= i < |STRATA| ==> FirstFree(order, Chosen(picks), STRATA[i]) == Nothing
    decreases |STRATA| - s
  {
    hide FirstFree, Chosen;
    if s < |STRATA| {
      var next := Turn(order, count, picks, STRATA[s]);
      assert next <= Round(order, count, next, s + 1);
      assert next == picks;
      IdleRound(order, count, picks, s + 1);
    }
  }

  lemma EveryRowHasStratum(row: Row)
    ensures exists i :: 0 <= i < |STRATA| && STRATA[i] in StrataOf(row)
  {
    var s :| s in StrataOf(row);
    assert STRATA[Place(s)] == s;
  }

  /** A round that adds nothing leaves no row to pick. */
  lemma IdleMeansAllChosen(order: seq<Row>, count: nat, picks: seq<Pick>)
    requires |picks| < count && |Round(order, count, picks, 0)| == |picks|
    ensures Ids(order) <= Chosen(picks)
  {
    IdleRound(order, count, picks, 0);
    forall id | id in Ids(order) ensures id in Chosen(picks) {
      var k :| 0 <= k < |order| && order[k].id == id;
      EveryRowHasStratum(order[k]);
      var i :| 0 <= i < |STRATA| && STRATA[i] in StrataOf(order[k]);
      FirstFreeMeans(order, Chosen(picks), STRATA[i]);
      assert order[k] in order;
    }
  }

  /** The rounds end with as many picks as were asked for, or with every row. */
  lemma {:induction false} RoundsFill(order: seq<Row>, count: nat, picks: seq<Pick>)
    requires Legal(order, picks) && |picks| <= count
    ensures var result := Rounds(order, count, picks);
            |result| == if count <= |Ids(order)| then count else |Ids(order)|
    decreases count - |picks|
  {
    hide Chosen, Ids, Legal;
    RoundIsLegal(order, count, picks, 0);
    LegalPicks(order, picks);
    SubsetSize(Chosen(picks), Ids(order));
    var next := Round(order, count, picks, 0);
    if |picks| < count {
      if |next| == |picks| {
        IdleMeansAllChosen(order, count, picks);
        assert Chosen(picks) == Ids(order);
      } else {
        RoundsFill(order, count, next);
      }
    }
  }

  // Turns.

  ghost function Drawn(picks: seq<Pick>, s: Stratum): set<nat> {
    set k: nat | k < |picks| && picks[k].stratum == s
  }

  lemma OneMoreDrawn(picks: seq<Pick>, pick: Pick, s: Stratum)
    ensures |Drawn(picks + [pick], s)| == |Drawn(picks, s)| + One(pick.stratum == s)
  {
    var n := |picks|;
    assert Drawn(picks + [pick], s) == if pick.stratum == s then Drawn(picks, s) + {n} else Drawn(picks, s);
  }

  /** Some row of the stratum is left. */
  ghost predicate Left(order: seq<Row>, picks: seq<Pick>, s: Stratum) {
    exists row :: row in order && Free(row, Chosen(picks), s)
  }

  lemma LeftIsFound(order: seq<Row>, picks: seq<Pick>, s: Stratum)
    ensures Left(order, picks, s) <==> FirstFree(order, Chosen(picks), s).Found?
  {
    hide Chosen;
    FirstFreeMeans(order, Chosen(picks), s);
  }

  lemma LeftBefore(order: seq<Row>, picks: seq<Pick>, pick: Pick, s: Stratum)
    requires Left(order, picks + [pick], s)
    ensures Left(order, picks, s)
  {
    OneMorePick(picks, pick, s);
    var row :| row in order && Free(row, Chosen(picks + [pick]), s);
    assert Free(row, Chosen(picks), s);
  }

  /** When the first `p` strata have had their turn in a round, none is behind that still has rows. */
  ghost predicate Fair(order: seq<Row>, picks: seq<Pick>, p: nat) {
    forall s, t :: Left(order, picks, t) ==>
      |Drawn(picks, s)| - One(Place(s) < p) <= |Drawn(picks, t)| - One(Place(t) < p)
  }

  lemma TurnIsFair(order: seq<Row>, count: nat, picks: seq<Pick>, p: nat)
    requires p < |STRATA| && |picks| < count && Fair(order, picks, p)
    ensures Fair(order, Turn(order, count, picks, STRATA[p]), p + 1)
  {
    hide Left, FirstFree, Chosen, Drawn, Overall, InStratum;
    var u, next := STRATA[p], Turn(order, count, picks, STRATA[p]);
    PlaceOf(p);
    LeftIsFound(order, picks, u);
    forall s, t | Left(order, next, t)
      ensures |Drawn(next, s)| - One(Place(s) < p + 1) <= |Drawn(next, t)| - One(Place(t) < p + 1)
    {
      if next != picks {
        var pick := next[|picks|];
        assert next == picks + [pick] && pick.stratum == u;
        LeftBefore(order, picks, pick, t);
        OneMoreDrawn(picks, pick, s);
        OneMoreDrawn(picks, pick, t);
      }
      assert |Drawn(picks, s)| - One(Place(s) < p) <= |Drawn(picks, t)| - One(Place(t) < p);
      assert Place(s) == p <==> s == u;
      assert Place(t) == p <==> t == u;
    }
  }

  ghost predicate FairSomewhere(order: seq<Row>, picks: seq<Pick>) {
    exists p: nat :: p <= |STRATA| && Fair(order, picks, p)
  }

  lemma {:induction false} RoundIsFair(order: seq<Row>, count: nat, picks: seq<Pick>, p: nat)
    requires p <= |STRATA| && Fair(order, picks, p)
    ensures var next := Round(order, count, picks, p);
            FairSomewhere(order, next) && (|next| < count ==> Fair(order, next, |STRATA|))
    decreases |STRATA| - p
  {
    hide Fair, Turn;
    if |picks| >= count {
      NoMoreTurns(order, count, picks, p);
    } else if p < |STRATA| {
      TurnIsFair(order, count, picks, p);
      RoundIsFair(order, count, Turn(order, count, picks, STRATA[p]), p + 1);
    }
  }

  /** A new round begins where the last has ended: every stratum has had as many turns. */
  lemma FairAgain(order: seq<Row>, picks: seq<Pick>)
    requires Fair(order, picks, |STRATA|)
    ensures Fair(order, picks, 0)
  {
    hide Left, Drawn;
    forall s, t | Left(order, picks, t) ensures |Drawn(picks, s)| <= |Drawn(picks, t)| {
      assert Place(s) < |STRATA| && Place(t) < |STRATA|;
    }
  }

  lemma {:induction false} RoundsAreFair(order: seq<Row>, count: nat, picks: seq<Pick>)
    requires Fair(order, picks, 0)
    ensures FairSomewhere(order, Rounds(order, count, picks))
    decreases count - |picks|
  {
    hide Fair, Round;
    var next := Round(order, count, picks, 0);
    if |picks| < count && |next| > |picks| {
      RoundIsFair(order, count, picks, 0);
      if |next| < count {
        FairAgain(order, next);
        RoundsAreFair(order, count, next);
      } else {
        LastRound(order, count, next);
      }
    }
  }

  /**
    The strata take turns: as long as a stratum has rows left, no other has been given more than one row more,
    and none that comes after it has been given more.
   */
  lemma StrataTakeTurns(order: seq<Row>, count: nat, s: Stratum, t: Stratum)
    requires Left(order, Rounds(order, count, []), t)
    ensures var picks := Rounds(order, count, []);
            |Drawn(picks, s)| <= |Drawn(picks, t)| + if Place(s) < Place(t) then 1 else 0
  {
    hide Left, Drawn, Rounds;
    NothingIsFair(order);
    RoundsAreFair(order, count, []);
    var picks := Rounds(order, count, []);
    var p: nat :| p <= |STRATA| && Fair(order, picks, p);
    assert |Drawn(picks, s)| - One(Place(s) < p) <= |Drawn(picks, t)| - One(Place(t) < p);
    if Place(s) == Place(t) { PlaceOf(Place(t)); }
  }

  lemma NothingIsFair(order: seq<Row>)
    ensures Fair(order, [], 0)
  {
    forall s ensures Drawn([], s) == {} {}
  }

  /** The sample: exactly as many rows as there can be, none twice, and even. */
  lemma SampleIsEven(order: seq<Row>, count: nat)
    ensures var picks := Rounds(order, count, []);
            && |picks| == (if count <= |Ids(order)| then count else |Ids(order)|)
            && NoneTwice(picks) && FromStrata(order, picks)
            && SplitsEven(picks)
  {
    RoundsAreLegal(order, count, []);
    RoundsFill(order, count, []);
    LegalPicks(order, Rounds(order, count, []));
    LegalIsEven(order, Rounds(order, count, []));
  }
}
