/** Byte ranges snapped outwards to UTF-8 character boundaries. */
module Utf8Slices {

  type Octet = bv8

  datatype Slice = Ok(text: seq<Octet>) | InvalidRange(start: nat, end: nat)

  // UTF-8 (section 4 of RFC 3629).

  predicate Tail(b: Octet) {
    0x80 <= b <= 0xBF
  }

  predicate TailsAt(s: seq<Octet>, i: nat, n: nat) {
    i <= n <= |s| && forall k :: i <= k < n ==> Tail(s[k])
  }

  /** The length of the character `s` begins with; 0 when it begins with none. */
  function CharLength(s: seq<Octet>): (n: nat)
    ensures n <= |s| && n <= 4
  {
    if s == [] then 0
    else if s[0] <= 0x7F then 1
    else if 0xC2 <= s[0] <= 0xDF then if TailsAt(s, 1, 2) then 2 else 0
    else if s[0] == 0xE0 then if TailsAt(s, 1, 3) && 0xA0 <= s[1] then 3 else 0
    else if s[0] == 0xED then if TailsAt(s, 1, 3) && s[1] <= 0x9F then 3 else 0
    else if 0xE1 <= s[0] <= 0xEF then if TailsAt(s, 1, 3) then 3 else 0
    else if s[0] == 0xF0 then if TailsAt(s, 1, 4) && 0x90 <= s[1] then 4 else 0
    else if s[0] == 0xF4 then if TailsAt(s, 1, 4) && s[1] <= 0x8F then 4 else 0
    else if 0xF1 <= s[0] <= 0xF3 then if TailsAt(s, 1, 4) then 4 else 0
    else 0
  }

  /** The bits of a character of `n` bytes that make up its code point (section 3 of RFC 3629). */
  function CodePoint(s: seq<Octet>, n: nat): bv32
    requires 1 <= n <= 4 && n <= |s|
  {
    if n == 1 then s[0] as bv32
    else if n == 2 then ((s[0] & 0x1F) as bv32 << 6) | (s[1] & 0x3F) as bv32
    else if n == 3 then
      ((s[0] & 0x0F) as bv32 << 12) | ((s[1] & 0x3F) as bv32 << 6) | (s[2] & 0x3F) as bv32
    else
      ((s[0] & 0x07) as bv32 << 18) | ((s[1] & 0x3F) as bv32 << 12) | ((s[2] & 0x3F) as bv32 << 6)
      | (s[3] & 0x3F) as bv32
  }

  /** The first byte announces `n` bytes, and the others are marked as following it. */
  predicate Announced(s: seq<Octet>, n: nat)
    requires 1 <= n <= 4 && n <= |s|
  {
    && (forall k :: 1 <= k < n ==> s[k] & 0xC0 == 0x80)
    && if n == 1 then s[0] & 0x80 == 0
       else if n == 2 then s[0] & 0xE0 == 0xC0
       else if n == 3 then s[0] & 0xF0 == 0xE0
       else s[0] & 0xF8 == 0xF0
  }

  /** The code points that are written in `n` bytes: none shorter, no surrogate, none above U+10FFFF. */
  predicate WrittenIn(c: bv32, n: nat) {
    match n
    case 1 => c <= 0x7F
    case 2 => 0x80 <= c <= 0x7FF
    case 3 => 0x800 <= c <= 0xFFFF && !(0xD800 <= c <= 0xDFFF)
    case 4 => 0x1_0000 <= c <= 0x10_FFFF
    case _ => false
  }

  /** The table of byte ranges is the encoding of code points: each in its shortest form, and no surrogate. */
  lemma CharIsCodePoint(s: seq<Octet>, n: nat)
    requires 1 <= n <= 4
    ensures CharLength(s) == n <==> n <= |s| && Announced(s, n) && WrittenIn(CodePoint(s, n), n)
  {
  }

  predicate WellFormed(s: seq<Octet>) {
    s == [] || (CharLength(s) > 0 && WellFormed(s[CharLength(s)..]))
  }

  /** A place where `s` falls into two texts. */
  predicate Boundary(s: seq<Octet>, i: int) {
    0 <= i <= |s| && WellFormed(s[..i]) && WellFormed(s[i..])
  }

  /** The mask test of the two snap functions. */
  predicate Continuation(b: Octet) {
    b & 0xC0 == 0x80
  }

  lemma ContinuationIsTail(b: Octet)
    ensures Continuation(b) <==> Tail(b)
  {}

  /** A character is its first byte, which is no tail, and tails; cut short it is no character. */
  lemma CharBytes(s: seq<Octet>)
    requires CharLength(s) > 0
    ensures !Tail(s[0]) && forall k :: 1 <= k < CharLength(s) ==> Tail(s[k])
  {}

  lemma CutChar(s: seq<Octet>, i: nat)
    requires CharLength(s) > 0 && i <= |s|
    ensures 0 < i < CharLength(s) ==> CharLength(s[..i]) == 0
    ensures CharLength(s) <= i ==> CharLength(s[..i]) == CharLength(s)
  {
    if i > 0 {
      assert s[..i][0] == s[0];
      assert forall k :: 0 <= k < i ==> s[..i][k] == s[k];
      assert forall n :: CharLength(s) <= n <= i && TailsAt(s, 1, n) ==> TailsAt(s[..i], 1, n);
    }
  }

  lemma WellFormedStep(s: seq<Octet>)
    requires s != []
    ensures WellFormed(s) <==> CharLength(s) > 0 && WellFormed(s[CharLength(s)..])
  {}

  lemma StartsWithTail(s: seq<Octet>)
    requires s != [] && Tail(s[0])
    ensures !WellFormed(s)
  {
    assert CharLength(s) == 0;
  }

  /** A place inside the first character. */
  lemma InsideChar(s: seq<Octet>, i: nat)
    requires 0 < i < CharLength(s)
    ensures Tail(s[i]) && !WellFormed(s[..i]) && !WellFormed(s[i..])
  {
    hide WellFormed;
    CharBytes(s);
    CutChar(s, i);
    WellFormedStep(s[..i]);
    StartsWithTail(s[i..]);
  }

  /** A place behind the first character divides the text where it divides what follows that character. */
  lemma BehindChar(s: seq<Octet>, i: nat)
    requires 0 < CharLength(s) <= i <= |s|
    ensures var n := CharLength(s);
            s[i..] == s[n..][i - n..] && (WellFormed(s[..i]) <==> WellFormed(s[n..][..i - n]))
  {
    hide CharLength;
    var n := CharLength(s);
    CutChar(s, i);
    WellFormedStep(s[..i]);
    assert s[..i][n..] == s[n..][..i - n];
  }

  /** In well-formed text, what starts at a place that holds no tail byte is well-formed, and so is what ends there. */
  lemma {:induction false} BoundaryMeans(s: seq<Octet>, i: nat)
    requires WellFormed(s) && i <= |s|
    ensures i == |s| || !Continuation(s[i]) <==> Boundary(s, i)
    ensures WellFormed(s[..i]) <==> Boundary(s, i)
    decreases |s|
  {
    hide WellFormed, CharLength, Tail, Continuation;
    if i == |s| {
      assert s[..i] == s && s[i..] == [];
      EmptyIsWellFormed();
    } else {
      WellFormedStep(s);
      CharBytes(s);
      var n := CharLength(s);
      ContinuationIsTail(s[i]);
      if i == 0 {
        assert s[i..] == s && s[..i] == [];
        EmptyIsWellFormed();
      } else if i < n {
        InsideChar(s, i);
      } else {
        BehindChar(s, i);
        BoundaryMeans(s[n..], i - n);
      }
    }
  }

  lemma EmptyIsWellFormed()
    ensures WellFormed([])
  {}

  /** A range between two boundaries is text. */
  lemma BetweenBoundaries(s: seq<Octet>, i: nat, j: nat)
    requires WellFormed(s) && i <= j <= |s| && Boundary(s, i) && Boundary(s, j)
    ensures WellFormed(s[i..j])
  {
    hide WellFormed, Continuation;
    var rest := s[i..];
    BoundaryMeans(s, j);
    BoundaryMeans(rest, j - i);
    assert rest[..j - i] == s[i..j];
    assert j < |s| ==> rest[j - i] == s[j];
  }

  // Snapping.

  method SnapFloor(bytes: seq<Octet>, index: nat) returns (r: nat)
    ensures index >= |bytes| ==> r == |bytes|
    ensures index < |bytes| ==> r <= index && (r == 0 || !Continuation(bytes[r]))
    ensures index < |bytes| ==> forall k :: r < k <= index ==> Continuation(bytes[k])
  {
    if index >= |bytes| { return |bytes|; }
    r := index;
    while r > 0 && bytes[r] & 0xC0 == 0x80
      invariant r <= index
      invariant forall k :: r < k <= index ==> Continuation(bytes[k])
    {
      r := r - 1;
    }
  }

  method SnapCeil(bytes: seq<Octet>, index: nat) returns (r: nat)
    ensures index >= |bytes| ==> r == |bytes|
    ensures index < |bytes| ==> index <= r <= |bytes| && (r == |bytes| || !Continuation(bytes[r]))
    ensures index < |bytes| ==> forall k :: index <= k < r ==> Continuation(bytes[k])
  {
    if index >= |bytes| { return |bytes|; }
    r := index;
    while r < |bytes| && bytes[r] & 0xC0 == 0x80
      invariant index <= r <= |bytes|
      invariant forall k :: index <= k < r ==> Continuation(bytes[k])
    {
      r := r + 1;
    }
  }

  function Clamped(i: nat, bytes: seq<Octet>): nat {
    if i < |bytes| then i else |bytes|
  }

  /** `from..to` covers `start..end` with both ends at boundaries, and every such range covers `from..to`. */
  ghost predicate SmallestCover(content: seq<Octet>, start: nat, end: nat, from: nat, to: nat) {
    && from <= start && end <= to <= |content|
    && Boundary(content, from) && Boundary(content, to)
    && forall a, b :: Boundary(content, a) && Boundary(content, b) && a <= start && end <= b ==> a <= from && to <= b
  }

  /** The greatest boundary up to `index`, by the bytes passed on the way down. */
  lemma FloorIsGreatest(s: seq<Octet>, index: nat, r: nat)
    requires WellFormed(s) && index <= |s|
    requires index == |s| ==> r == |s|
    requires index < |s| ==> r <= index && (r == 0 || !Continuation(s[r]))
    requires index < |s| ==> forall k :: r < k <= index ==> Continuation(s[k])
    ensures Boundary(s, r) && r <= index
    ensures forall a :: Boundary(s, a) && a <= index ==> a <= r
  {
    BoundaryMeans(s, r);
    if r == 0 { assert s[..0] == [] && s[0..] == s; }
    forall a | Boundary(s, a) && a <= index ensures a <= r { BoundaryMeans(s, a); }
  }

  lemma CeilIsLeast(s: seq<Octet>, index: nat, r: nat)
    requires WellFormed(s) && index <= |s|
    requires index == |s| ==> r == |s|
    requires index < |s| ==> index <= r <= |s| && (r == |s| || !Continuation(s[r]))
    requires index < |s| ==> forall k :: index <= k < r ==> Continuation(s[k])
    ensures Boundary(s, r) && index <= r
    ensures forall b :: Boundary(s, b) && index <= b ==> r <= b
  {
    BoundaryMeans(s, r);
    forall b | Boundary(s, b) && index <= b ensures r <= b { BoundaryMeans(s, b); }
  }

  /**
   * On well-formed content every ordered request succeeds, with the smallest range of whole characters
   * that covers the clamped request. On any content, what is returned is well-formed.
   */
  method SliceBytesSafe(content: seq<Octet>, startByte: nat, endByte: nat) returns (r: Slice, from: nat, to: nat)
    ensures startByte > endByte ==> r == InvalidRange(startByte, endByte)
    ensures startByte <= endByte ==>
              && from <= startByte && from <= |content| && (to == |content| || endByte <= to < |content|)
              && r == if WellFormed(content[from..to]) then Ok(content[from..to]) else InvalidRange(from, to)
    ensures startByte <= endByte && WellFormed(content) ==>
              && SmallestCover(content, if startByte < |content| then startByte else |content|,
                               if endByte < |content| then endByte else |content|, from, to)
              && r == Ok(content[from..to])
  {
    if startByte > endByte { return InvalidRange(startByte, endByte), 0, 0; }
    from := SnapFloor(content, Clamped(startByte, content));
    to := SnapCeil(content, Clamped(endByte, content));
    if WellFormed(content) {
      FloorIsGreatest(content, Clamped(startByte, content), from);
      CeilIsLeast(content, Clamped(endByte, content), to);
      BetweenBoundaries(content, from, to);
    }
    r := if WellFormed(content[from..to]) then Ok(content[from..to]) else InvalidRange(from, to);
  }
}
