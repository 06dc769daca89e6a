/** The symbol grammar of `scip.proto`: the reader of descriptor lists, the printer it inverts, and the header. */
module ScipSymbols {
  import opened Options
  import opened Text

  datatype Suffix = Namespace | Type | Term | Meta | Macro | Method | Parameter | TypeParameter | Local | Unknown

  /** What the reader returns for a descriptor. */
  datatype Name = Name(text: string, suffix: Suffix)

  /** The exceptions the reader can raise. */
  datatype Error = CannotParse | NoClosingParenthesis | IndexOutOfRange | NoSuffix

  datatype Names = Names(names: seq<Name>) | Raised(error: Error)

  // The name pattern.

  predicate IsSimple(c: char) {
    'a' <= c <= 'z' || 'A' <= c <= 'Z' || '0' <= c <= '9' || c == '_' || c == '+' || c == '-' || c == '$'
  }

  /** The first place at or after `i` that does not hold a simple character. */
  function SimpleEnd(s: string, i: nat): (end: nat)
    requires i <= |s|
    ensures i <= end <= |s|
    decreases |s| - i
  {
    if i < |s| && IsSimple(s[i]) then SimpleEnd(s, i + 1) else i
  }

  datatype Place = Nowhere | At(index: nat)

  /**
   * The closing backtick of a quoted name whose rest starts at `i`. The pattern takes all it can, a
   * character or a doubled backtick at a time, and gives back only when no closing backtick follows.
   */
  function Closing(s: string, i: nat): (close: Place)
    requires i <= |s|
    ensures close.At? ==> i <= close.index < |s| && s[close.index] == '`'
    decreases |s| - i
  {
    var longer :=
      if i < |s| && s[i] != '`' then Closing(s, i + 1)
      else if i + 1 < |s| && s[i] == '`' && s[i + 1] == '`' then Closing(s, i + 2)
      else Nowhere;
    if longer.At? then longer
    else if i < |s| && s[i] == '`' then At(i)
    else Nowhere
  }

  /** A doubled backtick stands for one. */
  function Unescaped(s: string): string {
    if s == "" then ""
    else if |s| > 1 && s[0] == '`' && s[1] == '`' then "`" + Unescaped(s[2..])
    else [s[0]] + Unescaped(s[1..])
  }

  datatype Match = NoMatch | Match(name: string, end: nat)

  function MatchName(s: string, i: nat): (m: Match)
    requires i <= |s|
    ensures m.Match? ==> i < m.end <= |s|
  {
    if i < |s| && s[i] == '`' then
      match Closing(s, i + 1)
      case Nowhere => NoMatch
      case At(close) => Match(Unescaped(s[i + 1..close]), close + 1)
    else if SimpleEnd(s, i) > i then Match(s[i..SimpleEnd(s, i)], SimpleEnd(s, i))
    else NoMatch
  }

  function IndexOf(s: string, c: char, i: nat): (p: Place)
    requires i <= |s|
    ensures p.At? ==> i <= p.index < |s| && s[p.index] == c
    decreases |s| - i
  {
    if i == |s| then Nowhere else if s[i] == c then At(i) else IndexOf(s, c, i + 1)
  }

  // One descriptor.

  datatype Item = Failed(error: Error) | Item(name: Name, end: nat)

  function Parenthesized(s: string, i: nat): (item: Item)
    requires i < |s|
    ensures item.Item? ==> i < item.end <= |s|
  {
    if s[i] != '(' && s[i] != '[' then Failed(CannotParse)
    else
      var close, suffix := if s[i] == '(' then ')' else ']', if s[i] == '(' then Parameter else TypeParameter;
      match MatchName(s, i + 1)
      case NoMatch => Failed(CannotParse)
      case Match(name, end) =>
        if end == |s| then Failed(IndexOutOfRange)
        else if s[end] != close then Failed(CannotParse)
        else Item(Name(name, suffix), end + 1)
  }

  function MethodItem(s: string, name: string, i: nat): (item: Item)
    requires i < |s|
    ensures item.Item? ==> i < item.end <= |s|
  {
    match IndexOf(s, ')', i)
    case Nowhere => Failed(NoClosingParenthesis)
    case At(j) => Item(Name(name, Method), if j + 1 < |s| && s[j + 1] == '.' then j + 2 else j + 1)
  }

  /** A name at the very end has no suffix: the empty string passes the membership test and is not in the table. */
  function Suffixed(s: string, name: string, i: nat): (item: Item)
    requires i <= |s|
    ensures item.Item? ==> i <= item.end <= |s|
  {
    if i == |s| then Failed(NoSuffix)
    else
      match s[i]
      case '(' => MethodItem(s, name, i)
      case '/' => Item(Name(name, Namespace), i + 1)
      case '#' => Item(Name(name, Type), i + 1)
      case '.' => Item(Name(name, Term), i + 1)
      case ':' => Item(Name(name, Meta), i + 1)
      case '!' => Item(Name(name, Macro), i + 1)
      case _ => Item(Name(name, Unknown), i)
  }

  function ReadItem(s: string, i: nat): (item: Item)
    requires i < |s|
    ensures item.Item? ==> i < item.end <= |s|
  {
    match MatchName(s, i)
    case NoMatch => Parenthesized(s, i)
    case Match(name, end) => Suffixed(s, name, end)
  }

  function PutFirst(name: Name, more: Names): Names {
    match more
    case Raised(error) => Raised(error)
    case Names(names) => Names([name] + names)
  }

  function ReadItems(s: string, i: nat): Names
    requires i <= |s|
    decreases |s| - i
  {
    if i == |s| then Names([])
    else
      match ReadItem(s, i)
      case Failed(error) => Raised(error)
      case Item(name, end) => PutFirst(name, ReadItems(s, end))
  }

  /** What follows the fourth space. */
  function DescriptorText(symbol: string): Option<string> {
    var parts := Split(symbol, ' ');
    if |parts| < 5 then None else Some(Join(parts[4..], ' '))
  }

  predicate IsLocal(symbol: string) {
    "local " <= symbol
  }

  function ReadSymbol(symbol: string): Names {
    if IsLocal(symbol) then Names([Name(symbol[6..], Local)])
    else
      match DescriptorText(symbol)
      case None => Names([])
      case Some(text) => ReadItems(text, 0)
  }

  // The loop.

  function PutBefore(names: seq<Name>, more: Names): Names {
    match more
    case Raised(error) => Raised(error)
    case Names(others) => Names(names + others)
  }

  lemma PutTwice(names: seq<Name>, name: Name, more: Names)
    ensures PutBefore(names, PutFirst(name, more)) == PutBefore(names + [name], more)
  {
    if more.Names? { assert names + ([name] + more.names) == names + [name] + more.names; }
  }

  method Descriptors(symbol: string) returns (r: Names)
    ensures r == ReadSymbol(symbol)
  {
    hide Split, Join, MatchName, Parenthesized;
    if "local " <= symbol { return Names([Name(symbol[6..], Local)]); }
    var parts := Split(symbol, ' ');
    if |parts| < 5 { return Names([]); }
    var s, i: nat, out: seq<Name> := Join(parts[4..], ' '), 0, [];
    if ReadItems(s, 0).Names? { assert [] + ReadItems(s, 0).names == ReadItems(s, 0).names; }
    while i < |s|
      invariant i <= |s|
      invariant ReadItems(s, 0) == PutBefore(out, ReadItems(s, i))
    {
      var name, suffix, end: nat;
      var m := MatchName(s, i);
      if m.NoMatch? {
        var item := Parenthesized(s, i);
        if item.Failed? { return Raised(item.error); }
        name, suffix, end := item.name.text, item.name.suffix, item.end;
      } else {
        name, end := m.name, m.end;
        if end == |s| { return Raised(NoSuffix); }
        var c := s[end];
        if c == '(' {
          var j := IndexOf(s, ')', end);
          if j.Nowhere? { return Raised(NoClosingParenthesis); }
          suffix, end := Method, j.index + 1;
          if end < |s| && s[end] == '.' { end := end + 1; }
        } else if c == '/' { suffix, end := Namespace, end + 1; }
        else if c == '#' { suffix, end := Type, end + 1; }
        else if c == '.' { suffix, end := Term, end + 1; }
        else if c == ':' { suffix, end := Meta, end + 1; }
        else if c == '!' { suffix, end := Macro, end + 1; }
        else { suffix := Unknown; }
      }
      assert ReadItem(s, i) == Item(Name(name, suffix), end);
      PutTwice(out, Name(name, suffix), ReadItems(s, end));
      out := out + [Name(name, suffix)];
      i := end;
    }
    assert out + [] == out;
    r := Names(out);
  }

  // The printer.

  /** A descriptor: its name, quoted or not, its suffix, and a method's disambiguator. */
  datatype Descriptor = Descriptor(name: string, suffix: Suffix, quoted: bool, disambiguator: string)

  /** The identifier characters of the grammar, by their ASCII codes: digits, letters, and four signs. */
  predicate IdentifierCharacter(c: char) {
    var code := c as int;
    48 <= code <= 57 || 65 <= code <= 90 || 97 <= code <= 122 || code == 95 || code == 43 || code == 45 || code == 36
  }

  lemma SimpleIsIdentifier()
    ensures forall c :: IsSimple(c) <==> IdentifierCharacter(c)
  {}

  /** A name may be left unquoted when it is made of identifier characters. */
  predicate Printable(d: Descriptor) {
    && (d.quoted || (d.name != "" && forall c :: c in d.name ==> IdentifierCharacter(c)))
    && !d.suffix.Local? && !d.suffix.Unknown?
    && ')' !in d.disambiguator
  }

  function Escaped(name: string): string {
    if name == "" then "" else (if name[0] == '`' then "``" else [name[0]]) + Escaped(name[1..])
  }

  function PrintName(d: Descriptor): string {
    if d.quoted then "`" + Escaped(d.name) + "`" else d.name
  }

  function PrintDescriptor(d: Descriptor): string {
    match d.suffix
    case Parameter => "(" + PrintName(d) + ")"
    case TypeParameter => "[" + PrintName(d) + "]"
    case Method => PrintName(d) + "(" + d.disambiguator + ")."
    case Namespace => PrintName(d) + "/"
    case Type => PrintName(d) + "#"
    case Term => PrintName(d) + "."
    case Meta => PrintName(d) + ":"
    case Macro => PrintName(d) + "!"
    case Local => PrintName(d)
    case Unknown => PrintName(d)
  }

  function PrintDescriptors(ds: seq<Descriptor>): string {
    if ds == [] then "" else PrintDescriptor(ds[0]) + PrintDescriptors(ds[1..])
  }

  function NamesOf(ds: seq<Descriptor>): seq<Name> {
    if ds == [] then [] else [Name(ds[0].name, ds[0].suffix)] + NamesOf(ds[1..])
  }

  // Reading depends only on what is ahead.

  lemma {:induction false} SimpleAhead(s: string, name: string, i: nat)
    requires i + |name| <= |s| && s[i..i + |name|] == name
    requires (forall c :: c in name ==> IsSimple(c)) && (i + |name| < |s| ==> !IsSimple(s[i + |name|]))
    ensures SimpleEnd(s, i) == i + |name|
    decreases |name|
  {
    if name != "" {
      assert s[i] == name[0] && name[0] in name;
      assert s[i + 1..i + 1 + |name[1..]|] == name[1..];
      SimpleAhead(s, name[1..], i + 1);
    }
  }

  /** An escaped name, a backtick, and no second one: the name is closed there and nowhere else. */
  lemma {:induction false} ClosingAhead(s: string, name: string, i: nat)
    requires i + |Escaped(name)| < |s| && s[i..i + |Escaped(name)|] == Escaped(name)
    requires s[i + |Escaped(name)|] == '`'
    requires i + |Escaped(name)| + 1 < |s| ==> s[i + |Escaped(name)| + 1] != '`'
    ensures Closing(s, i) == At(i + |Escaped(name)|)
    decreases |name|
  {
    if name != "" {
      var first := if name[0] == '`' then "``" else [name[0]];
      TwoParts(s, i, first, Escaped(name[1..]));
      FirstChars(s, i, first);
      assert s[i + 0] == first[0] && (name[0] == '`' ==> s[i + 1] == '`');
      ClosingAhead(s, name[1..], i + |first|);
    }
  }

  lemma TwoParts(s: string, i: nat, a: string, b: string)
    requires i + |a + b| <= |s| && s[i..i + |a + b|] == a + b
    ensures s[i..i + |a|] == a && s[i + |a|..i + |a| + |b|] == b
  {
    assert s[i..i + |a|] == s[i..i + |a + b|][..|a|];
    assert s[i + |a|..i + |a| + |b|] == s[i..i + |a + b|][|a|..];
  }

  lemma FirstChars(s: string, i: nat, first: string)
    requires i + |first| <= |s| && s[i..i + |first|] == first
    ensures forall k :: 0 <= k < |first| ==> s[i + k] == first[k]
  {
    forall k | 0 <= k < |first| ensures s[i + k] == first[k] { assert s[i..i + |first|][k] == s[i + k]; }
  }

  lemma {:induction false} UnescapeEscaped(name: string)
    ensures Unescaped(Escaped(name)) == name
  {
    if name != "" {
      UnescapeEscaped(name[1..]);
      var first := if name[0] == '`' then "``" else [name[0]];
      assert Escaped(name)[|first|..] == Escaped(name[1..]);
      assert name == [name[0]] + name[1..];
    }
  }

  /** The character does not go on with the printed name. */
  predicate EndsName(d: Descriptor, c: char) {
    if d.quoted then c != '`' else !IdentifierCharacter(c)
  }

  lemma QuotedAhead(s: string, name: string, i: nat)
    requires var printed := "`" + Escaped(name) + "`";
             && i + |printed| <= |s| && s[i..i + |printed|] == printed
             && (i + |printed| < |s| ==> s[i + |printed|] != '`')
    ensures MatchName(s, i) == Match(name, i + |Escaped(name)| + 2)
  {
    hide Closing, Unescaped, SimpleEnd;
    var text := Escaped(name);
    var printed := "`" + text + "`";
    FirstChars(s, i, printed);
    assert printed[0] == '`' && printed[1 + |text|] == '`';
    assert s[i] == '`' && s[i + (1 + |text|)] == '`';
    assert s[i + 1..i + 1 + |text|] == text by { assert printed[1..1 + |text|] == text; }
    ClosingAhead(s, name, i + 1);
    UnescapeEscaped(name);
  }

  lemma SimpleNameAhead(s: string, name: string, i: nat)
    requires name != "" && forall c :: c in name ==> IsSimple(c)
    requires i + |name| <= |s| && s[i..i + |name|] == name && (i + |name| < |s| ==> !IsSimple(s[i + |name|]))
    ensures MatchName(s, i) == Match(name, i + |name|)
  {
    FirstChars(s, i, name);
    assert s[i + 0] == name[0] && name[0] in name;
    SimpleAhead(s, name, i);
  }

  lemma NameAhead(s: string, d: Descriptor, i: nat)
    requires Printable(d) && i + |PrintName(d)| <= |s| && s[i..i + |PrintName(d)|] == PrintName(d)
    requires i + |PrintName(d)| < |s| ==> EndsName(d, s[i + |PrintName(d)|])
    ensures MatchName(s, i) == Match(d.name, i + |PrintName(d)|)
  {
    hide MatchName, Escaped;
    SimpleIsIdentifier();
    if d.quoted { QuotedAhead(s, d.name, i); } else { SimpleNameAhead(s, d.name, i); }
  }

  lemma {:induction false} IndexAhead(s: string, c: char, i: nat, j: nat)
    requires i <= j < |s| && s[j] == c && forall k :: i <= k < j ==> s[k] != c
    ensures IndexOf(s, c, i) == At(j)
    decreases j - i
  {
    if i < j { IndexAhead(s, c, i + 1, j); }
  }

  /** The dot behind a method's parentheses is read over when it is there. */
  lemma MethodAhead(s: string, d: Descriptor, i: nat)
    requires Printable(d)
    requires var tail := "(" + d.disambiguator + ")"; i + |tail| <= |s| && s[i..i + |tail|] == tail
    ensures var end := i + |d.disambiguator| + 2;
            MethodItem(s, d.name, i) == Item(Name(d.name, Method), if end < |s| && s[end] == '.' then end + 1 else end)
  {
    var tail := "(" + d.disambiguator + ")";
    FirstChars(s, i, tail);
    var j := i + |d.disambiguator| + 1;
    assert s[j] == tail[j - i] == ')';
    forall k | i <= k < j ensures s[k] != ')' {
      assert s[i + (k - i)] == tail[k - i];
      if k > i { assert tail[k - i] == d.disambiguator[k - i - 1]; }
    }
    IndexAhead(s, ')', i, j);
  }

  lemma DottedAhead(s: string, d: Descriptor, i: nat)
    requires Printable(d)
    requires var tail := "(" + d.disambiguator + ")."; i + |tail| <= |s| && s[i..i + |tail|] == tail
    ensures MethodItem(s, d.name, i) == Item(Name(d.name, Method), i + |d.disambiguator| + 3)
  {
    hide MethodItem, Printable;
    var tail := "(" + d.disambiguator + ").";
    FirstChars(s, i, tail);
    assert s[i + (|tail| - 1)] == tail[|tail| - 1];
    assert s[i..i + |tail| - 1] == tail[..|tail| - 1] == "(" + d.disambiguator + ")";
    MethodAhead(s, d, i);
  }

  lemma NoNameAt(s: string, i: nat)
    requires i < |s| && (s[i] == '(' || s[i] == '[')
    ensures MatchName(s, i) == NoMatch
  {}

  lemma ParenthesizedAhead(s: string, d: Descriptor, i: nat)
    requires Printable(d) && (d.suffix.Parameter? || d.suffix.TypeParameter?)
    requires i + |PrintDescriptor(d)| <= |s| && s[i..i + |PrintDescriptor(d)|] == PrintDescriptor(d)
    ensures ReadItem(s, i) == Item(Name(d.name, d.suffix), i + |PrintDescriptor(d)|)
  {
    hide PrintName, MatchName;
    var whole, n := PrintDescriptor(d), |PrintName(d)|;
    FirstChars(s, i, whole);
    assert s[i + 0] == whole[0];
    assert s[i + (1 + n)] == whole[1 + n];
    assert s[i + 1..i + 1 + n] == PrintName(d) by { assert whole[1..1 + n] == PrintName(d); }
    NameAhead(s, d, i + 1);
    NoNameAt(s, i);
  }

  lemma SuffixedAhead(s: string, d: Descriptor, i: nat)
    requires Printable(d) && !d.suffix.Parameter? && !d.suffix.TypeParameter?
    requires i + |PrintDescriptor(d)| <= |s| && s[i..i + |PrintDescriptor(d)|] == PrintDescriptor(d)
    ensures ReadItem(s, i) == Item(Name(d.name, d.suffix), i + |PrintDescriptor(d)|)
  {
    hide PrintName, MatchName, IndexOf;
    var whole, n := PrintDescriptor(d), |PrintName(d)|;
    FirstChars(s, i, whole);
    assert s[i + n] == whole[n];
    assert s[i..i + n] == PrintName(d) by { assert whole[..n] == PrintName(d); }
    NameAhead(s, d, i);
    if d.suffix.Method? {
      var tail := "(" + d.disambiguator + ").";
      assert whole == PrintName(d) + tail;
      assert s[i + n..i + n + |tail|] == tail by { assert whole[n..] == tail; }
      DottedAhead(s, d, i + n);
    }
  }

  lemma PutFirstBefore(name: Name, names: seq<Name>, more: Names)
    ensures PutFirst(name, PutBefore(names, more)) == PutBefore([name] + names, more)
  {
    if more.Names? { assert [name] + (names + more.names) == [name] + names + more.names; }
  }

  /** A printed list is read, names and suffixes in order, and then what follows it. */
  lemma {:induction false} PrintedAhead(s: string, ds: seq<Descriptor>, i: nat, tail: string)
    requires i <= |s| && s[i..] == PrintDescriptors(ds) + tail
    requires forall d :: d in ds ==> Printable(d)
    ensures ReadItems(s, i) == PutBefore(NamesOf(ds), ReadItems(s, |s| - |tail|))
    decreases ds
  {
    hide ReadItem, PrintDescriptor;
    if ds == [] {
      PutNothing(ReadItems(s, i));
    } else {
      var first, rest := PrintDescriptor(ds[0]), PrintDescriptors(ds[1..]);
      assert first + rest + tail == first + (rest + tail);
      FirstPart(s, i, first, rest + tail);
      ItemAhead(s, ds[0], i);
      PrintedAhead(s, ds[1..], i + |first|, tail);
      PutFirstBefore(Name(ds[0].name, ds[0].suffix), NamesOf(ds[1..]), ReadItems(s, |s| - |tail|));
    }
  }

  lemma FirstPart(s: string, i: nat, a: string, b: string)
    requires i <= |s| && s[i..] == a + b
    ensures i + |a| <= |s| && s[i..i + |a|] == a && s[i + |a|..] == b
  {
    assert s[i..i + |a|] == s[i..][..|a|] && s[i + |a|..] == s[i..][|a|..];
  }

  lemma ItemAhead(s: string, d: Descriptor, i: nat)
    requires Printable(d) && i + |PrintDescriptor(d)| <= |s| && s[i..i + |PrintDescriptor(d)|] == PrintDescriptor(d)
    ensures i < |s| && ReadItem(s, i) == Item(Name(d.name, d.suffix), i + |PrintDescriptor(d)|)
  {
    hide ReadItem, PrintDescriptor;
    PrintedNotEmpty(d);
    if d.suffix.Parameter? || d.suffix.TypeParameter? { ParenthesizedAhead(s, d, i); } else { SuffixedAhead(s, d, i); }
  }

  lemma PutNothing(more: Names)
    ensures PutBefore([], more) == more
  {
    if more.Names? { assert [] + more.names == more.names; }
  }

  lemma PrintedNotEmpty(d: Descriptor)
    requires Printable(d)
    ensures PrintDescriptor(d) != ""
  {}

  /** `descriptors` inverts the printer of descriptor lists. */
  lemma DescriptorsRoundTrip(ds: seq<Descriptor>)
    requires forall d :: d in ds ==> Printable(d)
    ensures ReadItems(PrintDescriptors(ds), 0) == Names(NamesOf(ds))
  {
    var s := PrintDescriptors(ds);
    assert s[0..] == s + "";
    PrintedAhead(s, ds, 0, "");
    assert NamesOf(ds) + [] == NamesOf(ds);
  }

  /** A text that neither goes on with the name nor begins with a suffix: the name has none. */
  predicate NoSuffixAt(d: Descriptor, rest: string) {
    rest == "" || (EndsName(d, rest[0]) && rest[0] !in "(/#.:!")
  }

  lemma BareItem(s: string, d: Descriptor, i: nat, rest: string)
    requires Printable(d) && i <= |s| && s[i..] == PrintName(d) + rest && NoSuffixAt(d, rest)
    ensures i < |s|
    ensures ReadItem(s, i) == if rest == "" then Failed(NoSuffix) else Item(Name(d.name, Unknown), |s| - |rest|)
  {
    hide PrintName, MatchName;
    FirstPart(s, i, PrintName(d), rest);
    assert |s| - i == |PrintName(d)| + |rest|;
    if rest != "" { assert s[|s| - |rest|..][0] == rest[0]; }
    NameAhead(s, d, i);
    assert MatchName(s, i).end == |s| - |rest|;
  }

  /**
    A name without a suffix, quoted or not, after any printed descriptors: it is returned as unknown, and
    reading goes on, exactly when something follows it, which may be the next name. At the very end it
    makes the reader raise.
   */
  lemma BareName(ds: seq<Descriptor>, d: Descriptor, rest: string)
    requires (forall e :: e in ds ==> Printable(e)) && Printable(d) && NoSuffixAt(d, rest)
    ensures var s := PrintDescriptors(ds) + PrintName(d) + rest;
            var i := |PrintDescriptors(ds)|;
            && i < |s|
            && (ReadItem(s, i) == Failed(NoSuffix) <==> rest == "")
            && (ReadItem(s, i) == Item(Name(d.name, Unknown), |s| - |rest|) <==> rest != "")
            && ReadItems(s, 0) ==
                 if rest == "" then Raised(NoSuffix)
                 else PutBefore(NamesOf(ds), PutFirst(Name(d.name, Unknown), ReadItems(s, |s| - |rest|)))
  {
    hide PrintDescriptors, PrintName, ReadItem;
    var s, i, tail := PrintDescriptors(ds) + PrintName(d) + rest, |PrintDescriptors(ds)|, PrintName(d) + rest;
    assert s[0..] == PrintDescriptors(ds) + tail;
    assert s[i..] == tail;
    PrintedAhead(s, ds, 0, tail);
    BareItem(s, d, i, rest);
  }

  // The header.

  /** The scheme, the manager, the package and its version. The grammar doubles a space inside a field. */
  datatype Header = Header(scheme: string, manager: string, package: string, version: string)

  function Doubled(field: string): string {
    if field == "" then "" else (if field[0] == ' ' then "  " else [field[0]]) + Doubled(field[1..])
  }

  function PrintSymbol(h: Header, descriptors: string): string {
    Join([Doubled(h.scheme), Doubled(h.manager), Doubled(h.package), Doubled(h.version), descriptors], ' ')
  }

  predicate NoSpaces(h: Header) {
    ' ' !in h.scheme && ' ' !in h.manager && ' ' !in h.package && ' ' !in h.version
  }

  lemma {:induction false} DoubledSpaces(field: string)
    ensures ' ' in Doubled(field) <==> ' ' in field
    ensures ' ' !in field ==> Doubled(field) == field
  {
    if field != "" {
      DoubledSpaces(field[1..]);
      assert field == [field[0]] + field[1..];
    }
  }

  lemma {:induction false} PartCount(field: string)
    ensures |Split(field, ' ')| == 1 <==> ' ' !in field
    ensures ' ' !in field ==> Split(field, ' ') == [field]
  {
    if ' ' in field {
      SplitNoSeparator(field, ' ');
      JoinSplit(field, ' ');
    } else {
      SplitWhole(field, ' ');
    }
  }

  function HeaderParts(h: Header): seq<string> {
    Split(Doubled(h.scheme), ' ') + Split(Doubled(h.manager), ' ') + Split(Doubled(h.package), ' ') +
      Split(Doubled(h.version), ' ')
  }

  lemma SymbolParts(h: Header, descriptors: string)
    ensures Split(PrintSymbol(h, descriptors), ' ') == HeaderParts(h) + Split(descriptors, ' ')
  {
    hide Doubled, Split;
    var a, b, c, d := Doubled(h.scheme), Doubled(h.manager), Doubled(h.package), Doubled(h.version);
    var fromVersion := d + " " + descriptors;
    var fromPackage := c + " " + fromVersion;
    var fromManager := b + " " + fromPackage;
    assert PrintSymbol(h, descriptors) == a + " " + fromManager by { JoinFive(a, b, c, d, descriptors); }
    SplitAppend(a, fromManager, ' ');
    SplitAppend(b, fromPackage, ' ');
    SplitAppend(c, fromVersion, ' ');
    SplitAppend(d, descriptors, ' ');
  }

  lemma JoinStep(part: string, more: seq<string>)
    requires more != []
    ensures Join([part] + more, ' ') == part + " " + Join(more, ' ')
  {
    assert ([part] + more)[1..] == more;
  }

  lemma JoinFive(a: string, b: string, c: string, d: string, e: string)
    ensures Join([a, b, c, d, e], ' ') == a + " " + (b + " " + (c + " " + (d + " " + e)))
  {
    JoinStep(d, [e]);
    JoinStep(c, [d, e]);
    JoinStep(b, [c, d, e]);
    JoinStep(a, [b, c, d, e]);
    assert [d] + [e] == [d, e] && [c] + [d, e] == [c, d, e];
    assert [b] + [c, d, e] == [b, c, d, e] && [a] + [b, c, d, e] == [a, b, c, d, e];
  }

  lemma HeaderPartCount(h: Header)
    ensures |HeaderParts(h)| >= 4 && (|HeaderParts(h)| == 4 <==> NoSpaces(h))
  {
    hide Doubled, Split;
    DoubledSpaces(h.scheme);
    DoubledSpaces(h.manager);
    DoubledSpaces(h.package);
    DoubledSpaces(h.version);
    PartCount(Doubled(h.scheme));
    PartCount(Doubled(h.manager));
    PartCount(Doubled(h.package));
    PartCount(Doubled(h.version));
  }

  /** The text after the fourth space is the descriptors exactly when no header field holds a space. */
  lemma DescriptorTextIff(h: Header, descriptors: string)
    ensures DescriptorText(PrintSymbol(h, descriptors)) == Some(descriptors) <==> NoSpaces(h)
  {
    hide Split, Join, PrintSymbol, HeaderParts;
    var parts, last := HeaderParts(h), Split(descriptors, ' ');
    SymbolParts(h, descriptors);
    HeaderPartCount(h);
    JoinSplit(descriptors, ' ');
    if NoSpaces(h) {
      assert (parts + last)[4..] == last;
    } else {
      assert (parts + last)[4..] == parts[4..] + last;
      JoinAppend(parts[4..], last, ' ');
      assert |Join(parts[4..] + last, ' ')| > |descriptors|;
    }
  }

  /** Without spaces, only the scheme `local` makes a symbol look like a local one. */
  lemma LooksLocalIff(h: Header, descriptors: string)
    requires NoSpaces(h)
    ensures IsLocal(PrintSymbol(h, descriptors)) <==> h.scheme == "local"
  {
    DoubledSpaces(h.scheme);
    var symbol, n := PrintSymbol(h, descriptors), |h.scheme|;
    assert h.scheme + " " <= symbol;
    assert symbol[n] == ' ' && symbol[..n] == h.scheme;
    if IsLocal(symbol) {
      FirstSpaceOfLocal(symbol, n);
    }
  }

  lemma FirstSpaceOfLocal(symbol: string, n: nat)
    requires IsLocal(symbol) && n < |symbol| && symbol[n] == ' ' && ' ' !in symbol[..n]
    ensures symbol[..n] == "local"
  {
    assert symbol[..6] == "local ";
    assert forall k :: 0 <= k < 6 ==> symbol[k] == "local "[k];
    assert forall k :: 0 <= k < n ==> symbol[k] in symbol[..n];
    assert symbol[5] == ' ' && forall k :: 0 <= k < 5 ==> symbol[k] != ' ';
    assert n == 5;
    assert symbol[..5] == symbol[..6][..5];
  }

  /** The reader takes the printed descriptors for what they are exactly when this holds of the header. */
  lemma HeaderReadIff(h: Header, descriptors: string)
    ensures !IsLocal(PrintSymbol(h, descriptors)) && DescriptorText(PrintSymbol(h, descriptors)) == Some(descriptors)
       <==> NoSpaces(h) && h.scheme != "local"
  {
    hide PrintSymbol, DescriptorText, IsLocal;
    DescriptorTextIff(h, descriptors);
    if NoSpaces(h) { LooksLocalIff(h, descriptors); }
  }

  /** `descriptors` inverts the printer of whole symbols. */
  lemma SymbolRoundTrip(h: Header, ds: seq<Descriptor>)
    requires NoSpaces(h) && h.scheme != "local" && forall d :: d in ds ==> Printable(d)
    ensures ReadSymbol(PrintSymbol(h, PrintDescriptors(ds))) == Names(NamesOf(ds))
  {
    hide DescriptorText, IsLocal, PrintSymbol;
    HeaderReadIff(h, PrintDescriptors(ds));
    DescriptorsRoundTrip(ds);
  }

  /** A method without its dot, with anything but a dot behind it, is read as one all the same. */
  lemma MethodWithoutDot(d: Descriptor, rest: string)
    requires Printable(d) && d.suffix.Method? && (rest == "" || rest[0] != '.')
    ensures var printed := PrintName(d) + "(" + d.disambiguator + ")";
            printed != "" && ReadItem(printed + rest, 0) == Item(Name(d.name, Method), |printed|)
  {
    hide PrintName, MatchName, IndexOf, MethodItem;
    var printed, tail, n := PrintName(d) + "(" + d.disambiguator + ")", "(" + d.disambiguator + ")", |PrintName(d)|;
    var s := printed + rest;
    assert s == PrintName(d) + (tail + rest);
    assert s[0..n] == PrintName(d) && s[n] == '(';
    NameAhead(s, d, 0);
    assert s[n..n + |tail|] == tail;
    MethodAhead(s, d, n);
  }

  /** A local symbol has one name: what follows `local` and the space. */
  lemma LocalSymbol(id: string)
    ensures ReadSymbol("local " + id) == Names([Name(id, Local)])
  {
    assert ("local " + id)[6..] == id;
  }

  /** A package whose name holds a space: the grammar allows it, and the reader refuses the symbol. */
  lemma SpacedPackageIsRefused()
    ensures ReadSymbol(PrintSymbol(Header("s", "m", "p q", "v"), "T#")) == Raised(CannotParse)
  {
    hide Split, Join, Doubled;
    var h := Header("s", "m", "p q", "v");
    var symbol, parts := PrintSymbol(h, "T#"), ["s", "m", "p", "", "q", "v", "T#"];
    DoubledFields();
    JoinFive("s", "m", "p  q", "v", "T#");
    assert symbol == "s m p  q v T#";
    JoinSeven("s", "m", "p", "", "q", "v", "T#");
    JoinThree("q", "v", "T#");
    SplitJoin(parts, ' ');
    assert parts[4..] == ["q", "v", "T#"];
    assert Join(parts, ' ') == symbol;
    assert Join(parts[4..], ' ') == "q v T#";
    assert symbol[0] != "local "[0];
    UnsuffixedWord();
  }

  lemma DoubledFields()
    ensures Doubled("s") == "s" && Doubled("m") == "m" && Doubled("v") == "v" && Doubled("p q") == "p  q"
  {
    DoubledSpaces("s");
    DoubledSpaces("m");
    DoubledSpaces("v");
    DoubledSpaces("q");
    assert Doubled(" q") == "  q";
  }

  lemma JoinThree(a: string, b: string, c: string)
    ensures Join([a, b, c], ' ') == a + " " + (b + " " + c)
  {
    JoinStep(b, [c]);
    JoinStep(a, [b, c]);
    assert [b] + [c] == [b, c] && [a] + [b, c] == [a, b, c];
  }

  lemma JoinSeven(a: string, b: string, c: string, d: string, e: string, f: string, g: string)
    ensures Join([a, b, c, d, e, f, g], ' ') == a + " " + (b + " " + (c + " " + (d + " " + (e + " " + (f + " " + g)))))
  {
    JoinFive(c, d, e, f, g);
    JoinStep(b, [c, d, e, f, g]);
    JoinStep(a, [b, c, d, e, f, g]);
    assert [b] + [c, d, e, f, g] == [b, c, d, e, f, g] && [a] + [b, c, d, e, f, g] == [a, b, c, d, e, f, g];
  }

  lemma UnsuffixedWord()
    ensures ReadItems("q v T#", 0) == Raised(CannotParse)
  {
    var s := "q v T#";
    assert SimpleEnd(s, 1) == 1 && SimpleEnd(s, 0) == 1;
    assert ReadItem(s, 0) == Item(Name("q", Unknown), 1);
    assert MatchName(s, 1) == NoMatch;
    assert ReadItems(s, 1) == Raised(CannotParse);
  }
}
