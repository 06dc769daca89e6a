/** Unified diffs, applied by content: each hunk at the match nearest to its stated line. */
module PatchHunks {
  import opened Options
  import opened Text
  import opened Decimal

  /** A hunk: its stated line, the lines it replaces, and the lines it puts there. */
  datatype Hunk = Hunk(start: int, before: seq<string>, after: seq<string>)

  // Reading the rows of a diff.

  function DigitsOf(s: string): (digits: string)
    ensures digits <= s && forall c :: c in digits ==> IsDigit(c)
  {
    if s == "" || !IsDigit(s[0]) then "" else [s[0]] + DigitsOf(s[1..])
  }

  function StatedLine(row: string): int {
    if "@@ -" <= row && DigitsOf(row[4..]) != "" then ValueOf(DigitsOf(row[4..])) else 1
  }

  function ReadRow(hunks: seq<Hunk>, row: string): seq<Hunk> {
    if "@@" <= row then hunks + [Hunk(StatedLine(row), [], [])]
    else if hunks == [] then hunks
    else
      var others, last := hunks[..|hunks| - 1], hunks[|hunks| - 1];
      if row == "" then others + [Hunk(last.start, last.before + [""], last.after + [""])]
      else if row[0] == ' ' then others + [Hunk(last.start, last.before + [row[1..]], last.after + [row[1..]])]
      else if row[0] == '-' then others + [last.(before := last.before + [row[1..]])]
      else if row[0] == '+' then others + [last.(after := last.after + [row[1..]])]
      else hunks
  }

  function ReadRows(hunks: seq<Hunk>, rows: seq<string>): seq<Hunk>
    decreases rows
  {
    if rows == [] then hunks else ReadRows(ReadRow(hunks, rows[0]), rows[1..])
  }

  // Applying hunks.

  predicate MatchesAt(lines: seq<string>, before: seq<string>, i: int) {
    0 <= i && i + |before| <= |lines| && lines[i..i + |before|] == before
  }

  function Distance(a: int, b: int): nat {
    if a < b then b - a else a - b
  }

  /** The best of the first `n` places: the nearest match, and of equally near ones the first. */
  function NearestBelow(lines: seq<string>, before: seq<string>, expected: int, n: nat): Option<nat> {
    if n == 0 then None
    else
      var best := NearestBelow(lines, before, expected, n - 1);
      if MatchesAt(lines, before, n - 1) && (best.None? || Distance(n - 1, expected) < Distance(best.value, expected))
      then Some(n - 1) else best
  }

  function Places(lines: seq<string>, before: seq<string>): nat {
    if |before| <= |lines| then |lines| - |before| + 1 else 0
  }

  function Nearest(lines: seq<string>, before: seq<string>, expected: int): Option<nat> {
    NearestBelow(lines, before, expected, Places(lines, before))
  }

  lemma {:induction false} NearestBelowIsNearest(lines: seq<string>, before: seq<string>, expected: int, n: nat)
    ensures var best := NearestBelow(lines, before, expected, n);
            match best
            case None => forall i :: 0 <= i < n ==> !MatchesAt(lines, before, i)
            case Some(spot) =>
              && spot < n && MatchesAt(lines, before, spot)
              && forall i :: 0 <= i < n && MatchesAt(lines, before, i) ==>
                   Distance(spot, expected) <= Distance(i, expected) &&
                       (Distance(spot, expected) == Distance(i, expected) ==> spot <= i)
  {
    if n > 0 { NearestBelowIsNearest(lines, before, expected, n - 1); }
  }

  /** A place is chosen exactly when there is a match; it is the nearest, and the first of the nearest. */
  lemma NearestMeans(lines: seq<string>, before: seq<string>, expected: int)
    ensures var best := Nearest(lines, before, expected);
            match best
            case None => forall i :: !MatchesAt(lines, before, i)
            case Some(spot) =>
              && MatchesAt(lines, before, spot)
              && forall i :: MatchesAt(lines, before, i) ==>
                   Distance(spot, expected) <= Distance(i, expected) &&
                       (Distance(spot, expected) == Distance(i, expected) ==> spot <= i)
  {
    NearestBelowIsNearest(lines, before, expected, Places(lines, before));
    forall i | MatchesAt(lines, before, i) ensures 0 <= i < Places(lines, before) {}
  }

  datatype Progress = Progress(lines: seq<string>, offset: int)

  function AtLeastZero(x: int): nat {
    if x < 0 then 0 else x
  }

  function InsertionPlace(lines: seq<string>, line: int): nat {
    if line < 0 then 0 else if line > |lines| then |lines| else line
  }

  function ApplyHunk(p: Progress, hunk: Hunk): Option<Progress> {
    if hunk.before == [] then
      var at := InsertionPlace(p.lines, hunk.start + p.offset);
      Some(Progress(p.lines[..at] + hunk.after + p.lines[at..], p.offset + |hunk.after|))
    else
      var expected := AtLeastZero(hunk.start - 1 + p.offset);
      match Nearest(p.lines, hunk.before, expected)
      case None => None
      case Some(spot) =>
        NearestMeans(p.lines, hunk.before, expected);
        Some(Progress(p.lines[..spot] + hunk.after + p.lines[spot + |hunk.before|..],
                      spot + |hunk.after| - (hunk.start - 1 + |hunk.before|)))
  }

  function ApplyAll(p: Progress, hunks: seq<Hunk>): Option<Progress>
    decreases hunks
  {
    if hunks == [] then Some(p)
    else
      match ApplyHunk(p, hunks[0])
      case None => None
      case Some(next) => ApplyAll(next, hunks[1..])
  }

  function Patched(text: string, rows: seq<string>): Option<string> {
    match ApplyAll(Progress(Split(text, '\n'), 0), ReadRows([], rows))
    case None => None
    case Some(done) => Some(Join(done.lines, '\n'))
  }

  // The loops.

  method FindNearest(lines: seq<string>, before: seq<string>, expected: int) returns (spot: Option<nat>)
    ensures spot == Nearest(lines, before, expected)
    ensures spot.None? <==> forall i :: !MatchesAt(lines, before, i)
    ensures spot.Some? ==> MatchesAt(lines, before, spot.value)
    ensures spot.Some? ==> forall i :: MatchesAt(lines, before, i) ==>
        Distance(spot.value, expected) <= Distance(i, expected)
  {
    spot := None;
    var i := 0;
    while i + |before| <= |lines|
      invariant 0 <= i <= Places(lines, before)
      invariant spot == NearestBelow(lines, before, expected, i)
    {
      if lines[i..i + |before|] == before && (spot.None? || Distance(i, expected) < Distance(spot.value, expected)) {
        spot := Some(i);
      }
      i := i + 1;
    }
    NearestMeans(lines, before, expected);
  }

  method ReadHunks(rows: seq<string>) returns (hunks: seq<Hunk>)
    ensures hunks == ReadRows([], rows)
  {
    hunks := [];
    for i := 0 to |rows|
      invariant ReadRows(hunks, rows[i..]) == ReadRows([], rows)
    {
      assert rows[i..][1..] == rows[i + 1..];
      hunks := ReadRow(hunks, rows[i]);
    }
  }

  method ApplyHunks(text: string, rows: seq<string>) returns (result: Option<string>)
    ensures result == Patched(text, rows)
  {
    hide Split, Join, ReadRows, Nearest, MatchesAt;
    var lines := Split(text, '\n');
    var hunks := ReadHunks(rows);
    var offset := 0;
    ghost var whole := ApplyAll(Progress(lines, 0), hunks);
    for i := 0 to |hunks|
      invariant ApplyAll(Progress(lines, offset), hunks[i..]) == whole
    {
      assert hunks[i..][1..] == hunks[i + 1..];
      var hunk := hunks[i];
      if hunk.before == [] {
        var at := InsertionPlace(lines, hunk.start + offset);
        lines := lines[..at] + hunk.after + lines[at..];
        offset := offset + |hunk.after|;
      } else {
        var spot := FindNearest(lines, hunk.before, AtLeastZero(hunk.start - 1 + offset));
        if spot.None? { return None; }
        lines := lines[..spot.value] + hunk.after + lines[spot.value + |hunk.before|..];
        offset := spot.value + |hunk.after| - (hunk.start - 1 + |hunk.before|);
      }
    }
    result := Some(Join(lines, '\n'));
  }

  // What a list of ordered, disjoint hunks describes.

  /** The lines before the hunk's own: a hunk that replaces nothing states the line it follows. */
  function LinesBefore(hunk: Hunk): int {
    if hunk.before == [] then hunk.start else hunk.start - 1
  }

  /** Hunks that match `lines` at their stated lines, in order and without overlap, from line `from` on. */
  predicate Fits(lines: seq<string>, hunks: seq<Hunk>, from: nat)
    decreases hunks
  {
    hunks == [] ||
    (var at := LinesBefore(hunks[0]);
     from <= at && MatchesAt(lines, hunks[0].before, at) && Fits(lines, hunks[1..], at + |hunks[0].before|))
  }

  /** The lines from `from` on, with every hunk's lines replaced. */
  function Described(lines: seq<string>, hunks: seq<Hunk>, from: nat): seq<string>
    requires from <= |lines| && Fits(lines, hunks, from)
    decreases hunks
  {
    if hunks == [] then lines[from..]
    else
      var at := LinesBefore(hunks[0]);
      lines[from..at] + hunks[0].after + Described(lines, hunks[1..], at + |hunks[0].before|)
  }

  /** A match at the expected line is chosen, whatever other matches there are. */
  lemma ExpectedMatchIsChosen(lines: seq<string>, before: seq<string>, expected: nat)
    requires MatchesAt(lines, before, expected)
    ensures Nearest(lines, before, expected) == Some(expected)
  {
    NearestMeans(lines, before, expected);
  }

  /** One hunk at its stated line, when `done` stands for what preceded line `from`. */
  lemma HunkAtItsLine(lines: seq<string>, done: seq<string>, from: nat, hunk: Hunk)
    requires from <= LinesBefore(hunk) && from <= |lines| && MatchesAt(lines, hunk.before, LinesBefore(hunk))
    ensures var at := LinesBefore(hunk);
            ApplyHunk(Progress(done + lines[from..], |done| - from), hunk)
            == Some(Progress(done + lines[from..at] + hunk.after + lines[at + |hunk.before|..],
                             |done| + (at - from) + |hunk.after| - (at + |hunk.before|)))
  {
    var at := LinesBefore(hunk);
    var now := done + lines[from..];
    var spot := |done| + (at - from);
    assert now[..spot] == done + lines[from..at];
    assert now[spot..spot + |hunk.before|] == lines[at..at + |hunk.before|];
    assert now[spot + |hunk.before|..] == lines[at + |hunk.before|..];
    if hunk.before != [] { ExpectedMatchIsChosen(now, hunk.before, spot); }
  }

  lemma Regroup(a: seq<string>, b: seq<string>, c: seq<string>, d: seq<string>)
    ensures a + b + c + d == a + (b + c + d)
  {}

  /** What fitting means of the first hunk. */
  lemma FirstFits(lines: seq<string>, hunks: seq<Hunk>, from: nat)
    requires from <= |lines| && hunks != [] && Fits(lines, hunks, from)
    ensures var at := LinesBefore(hunks[0]);
            var next := at + |hunks[0].before|;
            && from <= at <= next <= |lines| && MatchesAt(lines, hunks[0].before, at)
            && Fits(lines, hunks[1..], next)
            && Described(lines, hunks, from) == lines[from..at] + hunks[0].after + Described(lines, hunks[1..], next)
  {}

  lemma ApplyFirst(p: Progress, hunks: seq<Hunk>)
    requires hunks != []
    ensures ApplyHunk(p, hunks[0]).Some? ==> ApplyAll(p, hunks) == ApplyAll(ApplyHunk(p, hunks[0]).value, hunks[1..])
  {}

  /** The loop's invariant: rewritten lines, then the untouched rest, `offset` being the difference in length. */
  lemma {:induction false} FittingHunksApply(lines: seq<string>, hunks: seq<Hunk>, from: nat, done: seq<string>)
    requires from <= |lines| && Fits(lines, hunks, from)
    ensures var result := ApplyAll(Progress(done + lines[from..], |done| - from), hunks);
            result.Some? && result.value.lines == done + Described(lines, hunks, from)
    decreases hunks
  {
    hide ApplyHunk, Fits, MatchesAt;
    if hunks != [] {
      hide ApplyAll, Described;
      FirstFits(lines, hunks, from);
      var at := LinesBefore(hunks[0]);
      var next := at + |hunks[0].before|;
      HunkAtItsLine(lines, done, from, hunks[0]);
      ApplyFirst(Progress(done + lines[from..], |done| - from), hunks);
      var made := done + lines[from..at] + hunks[0].after;
      FittingHunksApply(lines, hunks[1..], next, made);
      Regroup(done, lines[from..at], hunks[0].after, Described(lines, hunks[1..], next));
    }
  }

  // A text that is not the one the diff was made on.

  /** The lines occur at one place. */
  ghost predicate OnlyAt(lines: seq<string>, before: seq<string>, spot: int) {
    MatchesAt(lines, before, spot) && forall i :: MatchesAt(lines, before, i) ==> i == spot
  }

  /** A hunk expected before the first line is put at the first place it matches. */
  lemma EarlyHunkTakesFirst(p: Progress, h: Hunk, spot: nat)
    requires h.before != [] && h.start - 1 + p.offset < 0
    requires MatchesAt(p.lines, h.before, spot) && forall i :: 0 <= i < spot ==> !MatchesAt(p.lines, h.before, i)
    ensures ApplyHunk(p, h).Some?
    ensures ApplyHunk(p, h).value.lines == p.lines[..spot] + h.after + p.lines[spot + |h.before|..]
  {
    NearestMeans(p.lines, h.before, 0);
  }

  /** A hunk that replaces nothing is put at its line, or at the end of the text that line lies beyond. */
  lemma InsertionIsClamped(p: Progress, h: Hunk, at: nat)
    requires h.before == [] && at <= |p.lines|
    requires at == h.start + p.offset || (at == 0 && h.start + p.offset < 0)
             || (at == |p.lines| && h.start + p.offset > |p.lines|)
    ensures ApplyHunk(p, h) == Some(Progress(p.lines[..at] + h.after + p.lines[at..], p.offset + |h.after|))
  {}

  /** The hunk `g` after `h`, of the same text: what it replaces comes behind what `h` replaces. */
  predicate Behind(h: Hunk, g: Hunk) {
    LinesBefore(g) >= LinesBefore(h) + |h.before|
  }

  /** A hunk that is found at `spot`. */
  lemma FoundHunkApplies(p: Progress, h: Hunk, spot: nat)
    requires h.before != [] && Nearest(p.lines, h.before, AtLeastZero(h.start - 1 + p.offset)) == Some(spot)
    ensures MatchesAt(p.lines, h.before, spot)
    ensures ApplyHunk(p, h) == Some(Progress(p.lines[..spot] + h.after + p.lines[spot + |h.before|..],
                                             spot - (h.start - 1) + |h.after| - |h.before|))
  {
    NearestMeans(p.lines, h.before, AtLeastZero(h.start - 1 + p.offset));
  }

  /** Replacing lines moves what stands behind them. */
  lemma MovedMatch(lines: seq<string>, spot: nat, count: nat, after: seq<string>, before: seq<string>, there: nat)
    requires spot + count <= there && MatchesAt(lines, before, there)
    ensures var now, to := lines[..spot] + after + lines[spot + count..], there + |after| - count;
            MatchesAt(now, before, to) && now[to + |before|..] == lines[there + |before|..]
  {
    var now, to := lines[..spot] + after + lines[spot + count..], there + |after| - count;
    assert now[to..to + |before|] == lines[there..there + |before|];
  }

  /**
    The drift is carried on. When `h` was applied `k` lines from where it is stated, a hunk behind it that
    matches as many lines from where it is stated is applied there, whatever other matches there are, and
    leaves the same drift.
   */
  lemma DriftIsCarried(p: Progress, h: Hunk, g: Hunk, k: int)
    requires h.before != [] && g.before != [] && Behind(h, g) && h.start - 1 + k >= 0
    requires Nearest(p.lines, h.before, AtLeastZero(h.start - 1 + p.offset)) == Some(h.start - 1 + k)
    requires MatchesAt(p.lines, g.before, g.start - 1 + k)
    ensures MatchesAt(p.lines, h.before, h.start - 1 + k)
    ensures var spot, there, grown := h.start - 1 + k, g.start - 1 + k, |h.after| - |h.before|;
            var now := p.lines[..spot] + h.after + p.lines[spot + |h.before|..];
            && ApplyHunk(p, h) == Some(Progress(now, k + grown))
            && ApplyHunk(Progress(now, k + grown), g)
               == Some(Progress(now[..there + grown] + g.after + p.lines[there + |g.before|..],
                                k + grown + |g.after| - |g.before|))
  {
    hide MatchesAt, Nearest;
    var spot, there, grown := h.start - 1 + k, g.start - 1 + k, |h.after| - |h.before|;
    FoundHunkApplies(p, h, spot);
    MovedMatch(p.lines, spot, |h.before|, h.after, g.before, there);
    var now := p.lines[..spot] + h.after + p.lines[spot + |h.before|..];
    ExpectedMatchIsChosen(now, g.before, there + grown);
    FoundHunkApplies(Progress(now, k + grown), g, there + grown);
  }

  /**
    When the first hunk is found at its place in the old text, which `done` now stands before in the place of
    the lines up to `from`, all hunks are, and the result is what the hunks describe.
   */
  lemma DriftedHunksApply(lines: seq<string>, hunks: seq<Hunk>, from: nat, done: seq<string>, offset: int)
    requires from <= |lines| && Fits(lines, hunks, from) && hunks != [] && hunks[0].before != []
    requires var now, spot := done + lines[from..], |done| - from + LinesBefore(hunks[0]);
             Nearest(now, hunks[0].before, AtLeastZero(hunks[0].start - 1 + offset)) == Some(spot)
    ensures var result := ApplyAll(Progress(done + lines[from..], offset), hunks);
            result.Some? && result.value.lines == done + Described(lines, hunks, from)
  {
    hide Fits, MatchesAt, Nearest, ApplyHunk, ApplyAll, Described;
    FirstFits(lines, hunks, from);
    FoundHunkApplies(Progress(done + lines[from..], offset), hunks[0], |done| - from + LinesBefore(hunks[0]));
    var h, at := hunks[0], LinesBefore(hunks[0]);
    var next := at + |h.before|;
    var now := done + lines[from..];
    var made := done + lines[from..at] + h.after;
    assert now[..|done| + (at - from)] == done + lines[from..at];
    assert now[|done| + (at - from) + |h.before|..] == lines[next..];
    assert ApplyHunk(Progress(now, offset), h) == Some(Progress(made + lines[next..], |made| - next));
    ApplyFirst(Progress(now, offset), hunks);
    FittingHunksApply(lines, hunks[1..], next, made);
    Regroup(done, lines[from..at], h.after, Described(lines, hunks[1..], next));
  }

  lemma OnlyPlaceIsNearest(lines: seq<string>, before: seq<string>, spot: nat, expected: int)
    requires OnlyAt(lines, before, spot)
    ensures Nearest(lines, before, expected) == Some(spot)
  {
    NearestMeans(lines, before, expected);
  }

  // Edit scripts: what a diff program reads and writes.

  /** A row of a hunk; `Blank` is a kept empty line whose leading space was lost. */
  datatype Row = Keep(text: string) | Blank | Drop(text: string) | Add(text: string)

  /** A script: lines left alone, and hunks with whatever their header says after the line number. */
  datatype Part = Alone(lines: seq<string>) | Change(rows: seq<Row>, heading: string)

  function BeforeRow(row: Row): seq<string> {
    match row case Keep(t) => [t] case Blank => [""] case Drop(t) => [t] case Add(_) => []
  }

  function AfterRow(row: Row): seq<string> {
    match row case Keep(t) => [t] case Blank => [""] case Drop(_) => [] case Add(t) => [t]
  }

  function BeforeRows(rows: seq<Row>): seq<string> {
    if rows == [] then [] else BeforeRow(rows[0]) + BeforeRows(rows[1..])
  }

  function AfterRows(rows: seq<Row>): seq<string> {
    if rows == [] then [] else AfterRow(rows[0]) + AfterRows(rows[1..])
  }

  function OldLines(script: seq<Part>): seq<string> {
    if script == [] then []
    else (match script[0] case Alone(lines) => lines case Change(rows, _) => BeforeRows(rows)) + OldLines(script[1..])
  }

  function NewLines(script: seq<Part>): seq<string> {
    if script == [] then []
    else (match script[0] case Alone(lines) => lines case Change(rows, _) => AfterRows(rows)) + NewLines(script[1..])
  }

  function PrintRow(row: Row): string {
    match row
    case Keep(t) => " " + t
    case Blank => ""
    case Drop(t) => "-" + t
    case Add(t) => "+" + t
  }

  function PrintRows(rows: seq<Row>): seq<string> {
    if rows == [] then [] else [PrintRow(rows[0])] + PrintRows(rows[1..])
  }

  /** The hunk of a change that `n` old lines precede. */
  function HunkOf(rows: seq<Row>, n: nat): (hunk: Hunk) {
    Hunk(if BeforeRows(rows) == [] then n else n + 1, BeforeRows(rows), AfterRows(rows))
  }

  function HunksOf(script: seq<Part>, n: nat): seq<Hunk>
    decreases script
  {
    if script == [] then []
    else
      match script[0]
      case Alone(lines) => HunksOf(script[1..], n + |lines|)
      case Change(rows, _) => [HunkOf(rows, n)] + HunksOf(script[1..], n + |BeforeRows(rows)|)
  }

  function PrintHeader(start: int, heading: string): string
    requires start >= 0
  {
    "@@ -" + Numeral(start) + heading
  }

  function PrintScript(script: seq<Part>, n: nat): seq<string>
    decreases script
  {
    if script == [] then []
    else
      match script[0]
      case Alone(lines) => PrintScript(script[1..], n + |lines|)
      case Change(rows, heading) =>
        [PrintHeader(HunkOf(rows, n).start, heading)] + PrintRows(rows) +
          PrintScript(script[1..], n + |BeforeRows(rows)|)
  }

  /** Headings follow the line number, so they do not start with a digit. */
  predicate Printable(script: seq<Part>) {
    forall k :: 0 <= k < |script| && script[k].Change? ==> script[k].heading == "" || !IsDigit(script[k].heading[0])
  }

  lemma {:induction false} DigitsThenRest(digits: string, rest: string)
    requires forall c :: c in digits ==> IsDigit(c)
    requires rest == "" || !IsDigit(rest[0])
    ensures DigitsOf(digits + rest) == digits
  {
    if digits == "" {
      assert digits + rest == rest;
    } else {
      DigitsThenRest(digits[1..], rest);
      assert digits[0] in digits;
      assert (digits + rest)[1..] == digits[1..] + rest;
    }
  }

  /** A header without a number states the first line. */
  lemma HeaderWithoutNumber(hunks: seq<Hunk>, row: string)
    requires "@@" <= row && (|row| <= 4 || row[..4] != "@@ -" || !('0' <= row[4] <= '9'))
    ensures ReadRow(hunks, row) == hunks + [Hunk(1, [], [])]
  {
    if "@@ -" <= row && |row| > 4 { assert row[4..][0] == row[4]; }
  }

  lemma StatedLineOfHeader(start: nat, heading: string)
    requires heading == "" || !IsDigit(heading[0])
    ensures "@@" <= PrintHeader(start, heading) && StatedLine(PrintHeader(start, heading)) == start
  {
    var row := PrintHeader(start, heading);
    DigitsThenRest(Numeral(start), heading);
    assert row[4..] == Numeral(start) + heading;
    ValueOfNumeral(start);
  }

  function Longer(hunk: Hunk, before: seq<string>, after: seq<string>): Hunk {
    Hunk(hunk.start, hunk.before + before, hunk.after + after)
  }

  lemma ReadPrintedRow(hunks: seq<Hunk>, last: Hunk, row: Row)
    ensures ReadRow(hunks + [last], PrintRow(row)) == hunks + [Longer(last, BeforeRow(row), AfterRow(row))]
  {
    assert (hunks + [last])[..|hunks|] == hunks;
    assert last.before + [] == last.before && last.after + [] == last.after;
    if !row.Blank? {
      assert PrintRow(row)[1..] == row.text;
      assert "@@"[0] != PrintRow(row)[0];
    }
  }

  lemma ReadFirst(hunks: seq<Hunk>, row: string, more: seq<string>)
    ensures ReadRows(hunks, [row] + more) == ReadRows(ReadRow(hunks, row), more)
  {
    assert ([row] + more)[1..] == more;
  }

  lemma {:induction false} ReadPrintedRows(hunks: seq<Hunk>, last: Hunk, rows: seq<Row>, more: seq<string>)
    ensures ReadRows(hunks + [last], PrintRows(rows) + more)
         == ReadRows(hunks + [Longer(last, BeforeRows(rows), AfterRows(rows))], more)
    decreases rows
  {
    hide ReadRow, ReadRows, BeforeRow, AfterRow, PrintRow;
    if rows == [] {
      assert PrintRows(rows) + more == more;
      assert last.before + [] == last.before && last.after + [] == last.after;
    } else {
      var row, next := PrintRow(rows[0]), Longer(last, BeforeRow(rows[0]), AfterRow(rows[0]));
      assert PrintRows(rows) + more == [row] + (PrintRows(rows[1..]) + more);
      ReadFirst(hunks + [last], row, PrintRows(rows[1..]) + more);
      ReadPrintedRow(hunks, last, rows[0]);
      ReadPrintedRows(hunks, next, rows[1..], more);
      RegroupThree(last.before, BeforeRow(rows[0]), BeforeRows(rows[1..]));
      RegroupThree(last.after, AfterRow(rows[0]), AfterRows(rows[1..]));
    }
  }

  /** Reading back a printed change adds the hunk it was printed from. */
  lemma ReadPrintedChange(hunks: seq<Hunk>, rows: seq<Row>, heading: string, n: nat, more: seq<string>)
    requires heading == "" || !IsDigit(heading[0])
    ensures ReadRows(hunks, [PrintHeader(HunkOf(rows, n).start, heading)] + (PrintRows(rows) + more))
         == ReadRows(hunks + [HunkOf(rows, n)], more)
  {
    hide ReadRows, BeforeRows, AfterRows, PrintRows, PrintHeader, StatedLine;
    var hunk := HunkOf(rows, n);
    StatedLineOfHeader(hunk.start, heading);
    ReadFirst(hunks, PrintHeader(hunk.start, heading), PrintRows(rows) + more);
    ReadPrintedRows(hunks, Hunk(hunk.start, [], []), rows, more);
    assert [] + hunk.before == hunk.before && [] + hunk.after == hunk.after;
  }

  lemma PrintFirstChange(script: seq<Part>, n: nat)
    requires script != [] && script[0].Change?
    ensures var rows, more := script[0].rows, PrintScript(script[1..], n + |BeforeRows(script[0].rows)|);
            PrintScript(script, n) == [PrintHeader(HunkOf(rows, n).start, script[0].heading)] + (PrintRows(rows) + more)
  {}

  /** Reading back what was printed: the very hunks, in order. */
  lemma {:induction false} ReadPrintedScript(hunks: seq<Hunk>, script: seq<Part>, n: nat)
    requires Printable(script)
    ensures ReadRows(hunks, PrintScript(script, n)) == hunks + HunksOf(script, n)
    decreases script
  {
    hide BeforeRows, AfterRows, PrintRows, PrintHeader, ReadRow;
    if script == [] {
    } else {
      hide ReadRows;
      match script[0]
      case Alone(lines) =>
        ReadPrintedScript(hunks, script[1..], n + |lines|);
      case Change(rows, heading) =>
        var hunk, next := HunkOf(rows, n), n + |BeforeRows(rows)|;
        var more := PrintScript(script[1..], next);
        PrintFirstChange(script, n);
        ReadPrintedChange(hunks, rows, heading, n, more);
        ReadPrintedScript(hunks + [hunk], script[1..], next);
        RegroupThree(hunks, [hunk], HunksOf(script[1..], next));
    }
  }

  /** A script's hunks fit its old lines, and describe its new ones. */
  lemma {:induction false} ScriptFits(done: seq<string>, script: seq<Part>, from: nat)
    requires from <= |done|
    ensures var lines := done + OldLines(script);
            && Fits(lines, HunksOf(script, |done|), from)
            && Described(lines, HunksOf(script, |done|), from) == done[from..] + NewLines(script)
    decreases script, 0
  {
    hide BeforeRows, AfterRows, MatchesAt, HunkOf;
    if script == [] {
    } else {
      var rest := script[1..];
      match script[0]
      case Alone(same) =>
        ScriptFits(done + same, rest, from);
        RegroupThree(done, same, OldLines(rest));
        RegroupThree(done[from..], same, NewLines(rest));
        assert (done + same)[from..] == done[from..] + same;
      case Change(rows, _) =>
        ChangeFits(done, rows, rest, from);
    }
  }

  lemma RegroupThree<T>(a: seq<T>, b: seq<T>, c: seq<T>)
    ensures a + b + c == a + (b + c)
  {}

  lemma FirstHunk(lines: seq<string>, hunk: Hunk, more: seq<Hunk>, from: nat)
    requires from <= LinesBefore(hunk) && MatchesAt(lines, hunk.before, LinesBefore(hunk))
    requires Fits(lines, more, LinesBefore(hunk) + |hunk.before|)
    ensures var at := LinesBefore(hunk);
            && Fits(lines, [hunk] + more, from)
            && Described(lines, [hunk] + more, from) == lines[from..at] + hunk.after +
                 Described(lines, more, at + |hunk.before|)
  {
    assert ([hunk] + more)[1..] == more;
  }

  lemma {:induction false} ChangeFits(done: seq<string>, rows: seq<Row>, rest: seq<Part>, from: nat)
    requires from <= |done|
    ensures var lines := done + (BeforeRows(rows) + OldLines(rest));
            var hunks := [HunkOf(rows, |done|)] + HunksOf(rest, |done| + |BeforeRows(rows)|);
            && Fits(lines, hunks, from)
            && Described(lines, hunks, from) == done[from..] + (AfterRows(rows) + NewLines(rest))
    decreases rest, 1
  {
    hide BeforeRows, AfterRows, OldLines, NewLines, HunksOf, Fits, Described;
    var before, after := BeforeRows(rows), AfterRows(rows);
    var lines, at := done + (before + OldLines(rest)), |done| + |before|;
    ScriptFits(done + before, rest, at);
    RegroupThree(done, before, OldLines(rest));
    assert lines[|done|..at] == before;
    assert lines[from..|done|] == done[from..];
    assert (done + before)[at..] + NewLines(rest) == NewLines(rest);
    FirstHunk(lines, HunkOf(rows, |done|), HunksOf(rest, at), from);
    RegroupThree(done[from..], after, NewLines(rest));
  }

  /** Rows before the first hunk, such as those that name the two files. */
  predicate Preamble(rows: seq<string>) {
    forall row :: row in rows ==> !("@@" <= row)
  }

  lemma {:induction false} PreambleIsSkipped(preamble: seq<string>, rows: seq<string>)
    requires Preamble(preamble)
    ensures ReadRows([], preamble + rows) == ReadRows([], rows)
    decreases preamble
  {
    if preamble == [] {
      assert preamble + rows == rows;
    } else {
      assert preamble + rows == [preamble[0]] + (preamble[1..] + rows);
      assert preamble[0] in preamble && forall row :: row in preamble[1..] ==> row in preamble;
      ReadFirst([], preamble[0], preamble[1..] + rows);
      PreambleIsSkipped(preamble[1..], rows);
    }
  }

  /** What a printed script does to a text is what its hunks do to its lines. */
  lemma PatchedByScript(preamble: seq<string>, script: seq<Part>, lines: seq<string>)
    requires Preamble(preamble) && Printable(script) && lines != [] && forall line :: line in lines ==> '\n' !in line
    ensures Patched(Join(lines, '\n'), preamble + PrintScript(script, 0))
         == match ApplyAll(Progress(lines, 0), HunksOf(script, 0))
            case None => None
            case Some(done) => Some(Join(done.lines, '\n'))
  {
    hide ReadRows, Split, Join, HunksOf, PrintScript, ApplyAll;
    SplitJoin(lines, '\n');
    PreambleIsSkipped(preamble, PrintScript(script, 0));
    ReadPrintedScript([], script, 0);
    assert [] + HunksOf(script, 0) == HunksOf(script, 0);
  }

  /**
    Printing a script, with any rows before its first hunk, and applying the diff to its old text gives its
    new text.
   */
  lemma PatchUndoesDiff(preamble: seq<string>, script: seq<Part>)
    requires Preamble(preamble) && Printable(script)
    requires OldLines(script) != [] && forall line :: line in OldLines(script) ==> '\n' !in line
    ensures Patched(Join(OldLines(script), '\n'), preamble + PrintScript(script, 0))
        == Some(Join(NewLines(script), '\n'))
  {
    hide Join, OldLines, NewLines, HunksOf, PrintScript, Fits, Described, ApplyAll, Patched, Printable;
    var lines := OldLines(script);
    PatchedByScript(preamble, script, lines);
    ScriptFits([], script, 0);
    assert [] + lines == lines && [] + NewLines(script) == NewLines(script);
    FittingHunksApply(lines, HunksOf(script, 0), 0, []);
    assert [] + lines[0..] == lines;
    assert [] + NewLines(script) == Described(lines, HunksOf(script, 0), 0);
  }

  /** The first change of a script, and how many old lines come before it. */
  function FirstChange(script: seq<Part>): (change: Option<(seq<string>, nat)>)
    ensures change.Some? ==> change.value.1 + |change.value.0| <= |OldLines(script)|
  {
    if script == [] then None
    else
      match script[0]
      case Change(rows, _) => Some((BeforeRows(rows), 0))
      case Alone(lines) =>
        match FirstChange(script[1..])
        case None => None
        case Some(change) => Some((change.0, |lines| + change.1))
  }

  lemma {:induction false} FirstChangeIsFirstHunk(script: seq<Part>, n: nat)
    ensures match FirstChange(script)
            case None => HunksOf(script, n) == []
            case Some(change) =>
              && HunksOf(script, n) != [] && HunksOf(script, n)[0].before == change.0
              && LinesBefore(HunksOf(script, n)[0]) == n + change.1
    decreases script
  {
    hide BeforeRows, AfterRows;
    if script != [] && script[0].Alone? { FirstChangeIsFirstHunk(script[1..], n + |script[0].lines|); }
  }

  /** Hunks that fit, fit from any line that is not past the first. */
  lemma FitsFrom(lines: seq<string>, hunks: seq<Hunk>, from: nat)
    requires Fits(lines, hunks, 0) && hunks != [] && from <= LinesBefore(hunks[0])
    ensures from <= |lines| && Fits(lines, hunks, from)
    ensures Described(lines, hunks, 0) == lines[..from] + Described(lines, hunks, from)
  {
    hide Fits, Described, MatchesAt;
    FirstFits(lines, hunks, 0);
    var at := LinesBefore(hunks[0]);
    var more := Described(lines, hunks[1..], at + |hunks[0].before|);
    assert hunks == [hunks[0]] + hunks[1..];
    FirstHunk(lines, hunks[0], hunks[1..], from);
    assert lines[0..at] == lines[..from] + lines[from..at];
    Regroup(lines[..from], lines[from..at], hunks[0].after, more);
  }

  /** The old lines of a script, with `front` in the place of the first `cut`. */
  function Beginning(front: seq<string>, lines: seq<string>, cut: nat): seq<string>
    requires cut <= |lines|
  {
    front + lines[cut..]
  }

  lemma CutNew(lines: seq<string>, more: seq<string>, cut: nat, new': seq<string>)
    requires cut <= |lines| && new' == lines[..cut] + more
    ensures |new'| >= cut && new'[cut..] == more
  {}

  lemma ScriptHunksApply(script: seq<Part>, front: seq<string>, cut: nat)
    requires FirstChange(script).Some? && FirstChange(script).value.0 != [] && cut <= FirstChange(script).value.1
    requires OnlyAt(Beginning(front, OldLines(script), cut), FirstChange(script).value.0,
                    |front| + FirstChange(script).value.1 - cut)
    ensures var result := ApplyAll(Progress(Beginning(front, OldLines(script), cut), 0), HunksOf(script, 0));
            && |NewLines(script)| >= cut
            && result.Some? && result.value.lines == Beginning(front, NewLines(script), cut)
  {
    hide OldLines, NewLines, HunksOf, Fits, Described, ApplyAll, OnlyAt, Nearest, FirstChange;
    var lines, hunks := OldLines(script), HunksOf(script, 0);
    ScriptFits([], script, 0);
    assert [] + lines == lines && [] + NewLines(script) == NewLines(script);
    FirstChangeIsFirstHunk(script, 0);
    FitsFrom(lines, hunks, cut);
    OnlyPlaceIsNearest(front + lines[cut..], hunks[0].before, |front| + LinesBefore(hunks[0]) - cut,
      AtLeastZero(hunks[0].start - 1 + 0));
    DriftedHunksApply(lines, hunks, cut, front, 0);
    CutNew(lines, Described(lines, hunks, cut), cut, NewLines(script));
  }

  /**
    The diff of a script, applied to a text that begins otherwise: `front` stands in the place of the first
    `cut` lines, all of them before the first change. When the old lines of the first change are in that
    text once, the result is the new text beginning in the same way.
   */
  lemma PatchFindsItsPlace(preamble: seq<string>, script: seq<Part>, front: seq<string>, cut: nat)
    requires Preamble(preamble) && Printable(script)
    requires FirstChange(script).Some? && FirstChange(script).value.0 != [] && cut <= FirstChange(script).value.1
    requires var now, first := Beginning(front, OldLines(script), cut), FirstChange(script).value;
             OnlyAt(now, first.0, |front| + first.1 - cut) && forall line :: line in now ==> '\n' !in line
    ensures |NewLines(script)| >= cut
    ensures Patched(Join(Beginning(front, OldLines(script), cut), '\n'), preamble + PrintScript(script, 0))
         == Some(Join(Beginning(front, NewLines(script), cut), '\n'))
  {
    hide OldLines, NewLines, HunksOf, ApplyAll, Patched, Join, FirstChange, Printable, PrintScript, Beginning;
    assert Beginning(front, OldLines(script), cut) != [];
    var now := Beginning(front, OldLines(script), cut);
    ScriptHunksApply(script, front, cut);
    PatchedByScript(preamble, script, now);
  }
}
