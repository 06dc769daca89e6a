/**
 * The protobuf wire reader: variable-length integers, packed lists and fields, with the errors they
 * raise. The reader works at an offset in a buffer; its meaning is given on the bytes from there on.
 */
module ScipDecode {

  type Byte = b: int | 0 <= b < 256

  // Base 128 varints ("Base 128 Varints" in the Protocol Buffers encoding specification).

  datatype Varint = OutOfBytes | Varint(value: nat, used: nat)

  function ReadVarint(s: seq<Byte>): (r: Varint)
    ensures r.Varint? ==> 0 < r.used <= |s|
  {
    if s == [] then OutOfBytes
    else if s[0] < 128 then Varint(s[0], 1)
    else
      match ReadVarint(s[1..])
      case OutOfBytes => OutOfBytes
      case Varint(value, used) => Varint(s[0] - 128 + 128 * value, used + 1)
  }

  function PrintVarint(value: nat): (s: seq<Byte>)
    ensures s != []
  {
    if value < 128 then [value] else [128 + value % 128] + PrintVarint(value / 128)
  }

  function Pow2(n: nat): (r: nat)
    ensures r > 0
  {
    if n == 0 then 1 else 2 * Pow2(n - 1)
  }

  lemma Pow2Shift(n: nat)
    ensures Pow2(n + 7) == 128 * Pow2(n)
  {
    assert Pow2(n + 7) == 2 * Pow2(n + 6) == 4 * Pow2(n + 5) == 8 * Pow2(n + 4);
    assert Pow2(n + 4) == 2 * Pow2(n + 3) == 4 * Pow2(n + 2) == 8 * Pow2(n + 1);
  }

  lemma ScaledSum(p: nat, low: nat, high: nat)
    ensures low * p + high * (128 * p) == (low + 128 * high) * p
    ensures low < 128 ==> low * p <= 127 * p
  {
    assert high * (128 * p) == (128 * high) * p;
  }

  /** What has been read, `result` in `count` bytes, put together with what the rest reads as. */
  function Shifted(result: nat, shift: nat, count: nat, rest: Varint): Varint {
    match rest
    case OutOfBytes => OutOfBytes
    case Varint(value, used) => Varint(result + value * Pow2(shift), count + used)
  }

  /** One more byte of a number that starts in `s`. */
  lemma NextByte(result: nat, shift: nat, count: nat, s: seq<Byte>)
    requires s != [] && result < Pow2(shift)
    ensures var next := result + s[0] % 128 * Pow2(shift);
            && next < Pow2(shift + 7)
            && Shifted(result, shift, count, ReadVarint(s))
               == if s[0] < 128 then Varint(next, count + 1)
                   else Shifted(next, shift + 7, count + 1, ReadVarint(s[1..]))
  {
    Pow2Shift(shift);
    var rest := ReadVarint(s[1..]);
    ScaledSum(Pow2(shift), s[0] % 128, if rest.Varint? then rest.value else 0);
  }

  /**
   * The loop reads seven bits at a time. The bits it puts in lie above those already there, `result`
   * being below `2^shift`, so putting them in adds them.
   */
  method DecodeVarint(buf: seq<Byte>, i: nat) returns (r: Varint)
    requires i <= |buf|
    ensures r == ReadVarint(buf[i..])
  {
    hide Shifted, ReadVarint, Pow2;
    var at: nat, shift: nat, result: nat := i, 0, 0;
    NothingRead(ReadVarint(buf[i..]));
    while at < |buf|
      invariant i <= at <= |buf|
      invariant result < Pow2(shift)
      invariant ReadVarint(buf[i..]) == Shifted(result, shift, at - i, ReadVarint(buf[at..]))
    {
      var b := buf[at];
      NextByte(result, shift, at - i, buf[at..]);
      assert buf[at..][1..] == buf[at + 1..];
      at := at + 1;
      result := result + b % 128 * Pow2(shift);
      if b < 128 { return Varint(result, at - i); }
      shift := shift + 7;
    }
    NothingLeft(result, shift, at - i);
    r := OutOfBytes;
  }

  lemma NothingRead(rest: Varint)
    ensures Shifted(0, 0, 0, rest) == rest && Pow2(0) == 1
  {}

  lemma NothingLeft(result: nat, shift: nat, count: nat)
    ensures Shifted(result, shift, count, ReadVarint([])) == OutOfBytes
  {}

  /** A printed number is read back, whatever follows it; with `DecodeVarint`, at any offset. */
  lemma {:induction false} VarintRoundTrip(value: nat, more: seq<Byte>)
    ensures ReadVarint(PrintVarint(value) + more) == Varint(value, |PrintVarint(value)|)
  {
    var s := PrintVarint(value) + more;
    if value < 128 {
      assert s[0] == value;
    } else {
      VarintRoundTrip(value / 128, more);
      assert s[0] == 128 + value % 128;
      assert s[1..] == PrintVarint(value / 128) + more;
    }
  }

  /** A printed number cut short is reported as such. */
  lemma {:induction false} CutVarint(value: nat, n: nat)
    requires n < |PrintVarint(value)|
    ensures ReadVarint(PrintVarint(value)[..n]) == OutOfBytes
  {
    if n > 0 {
      CutVarint(value / 128, n - 1);
      assert PrintVarint(value)[..n][1..] == PrintVarint(value / 128)[..n - 1];
    }
  }

  // Packed lists.

  datatype Numbers = Short | Numbers(values: seq<nat>)

  function ReadPacked(s: seq<Byte>): Numbers {
    if s == [] then Numbers([])
    else
      match ReadVarint(s)
      case OutOfBytes => Short
      case Varint(value, used) =>
        match ReadPacked(s[used..])
        case Short => Short
        case Numbers(values) => Numbers([value] + values)
  }

  function PrintPacked(values: seq<nat>): seq<Byte> {
    if values == [] then [] else PrintVarint(values[0]) + PrintPacked(values[1..])
  }

  function Prepended(values: seq<nat>, more: Numbers): Numbers {
    match more
    case Short => Short
    case Numbers(others) => Numbers(values + others)
  }

  method DecodePacked(buf: seq<Byte>) returns (r: Numbers)
    ensures r == ReadPacked(buf)
  {
    var out: seq<nat>, i := [], 0;
    assert buf[0..] == buf && Prepended([], ReadPacked(buf)) == ReadPacked(buf) by { PrependNothing(ReadPacked(buf)); }
    while i < |buf|
      invariant i <= |buf|
      invariant ReadPacked(buf) == Prepended(out, ReadPacked(buf[i..]))
    {
      var v := DecodeVarint(buf, i);
      if v.OutOfBytes? { return Short; }
      assert buf[i..][v.used..] == buf[i + v.used..];
      PrependTwice(out, v.value, ReadPacked(buf[i + v.used..]));
      out := out + [v.value];
      i := i + v.used;
    }
    PrependNone(out);
    r := Numbers(out);
  }

  lemma PrependNothing(more: Numbers)
    ensures Prepended([], more) == more
  {
    if more.Numbers? { assert [] + more.values == more.values; }
  }

  lemma PrependNone(values: seq<nat>)
    ensures Prepended(values, Numbers([])) == Numbers(values)
  {
    assert values + [] == values;
  }

  lemma PrependTwice(values: seq<nat>, value: nat, more: Numbers)
    ensures Prepended(values, Prepended([value], more)) == Prepended(values + [value], more)
  {
    if more.Numbers? { assert values + ([value] + more.values) == values + [value] + more.values; }
  }

  lemma {:induction false} PackedRoundTrip(values: seq<nat>)
    ensures ReadPacked(PrintPacked(values)) == Numbers(values)
  {
    if values != [] {
      PackedRoundTrip(values[1..]);
      var s := PrintPacked(values);
      VarintRoundTrip(values[0], PrintPacked(values[1..]));
      assert s[|PrintVarint(values[0])|..] == PrintPacked(values[1..]);
      assert values == [values[0]] + values[1..];
    }
  }

  // Fields.

  datatype Value = Number(number: nat) | Chunk(bytes: seq<Byte>)

  datatype Field = Field(num: nat, wire: nat, value: Value)

  datatype Error = EndOfBytes | WireType(wire: nat)

  /** What the generator yields, and how it ends: by itself, or by raising an error. */
  datatype Fields = Finished(fields: seq<Field>) | Raised(fields: seq<Field>, error: Error)

  datatype FieldRead = Bad(error: Error) | Good(field: Field, used: nat)

  /** A slice, which ends where the bytes end. */
  function Sliced(s: seq<Byte>, from: nat, n: nat): seq<Byte>
    requires from <= |s|
  {
    if from + n <= |s| then s[from..from + n] else s[from..]
  }

  function ReadField(s: seq<Byte>): (r: FieldRead)
    ensures r.Good? ==> r.used > 0
  {
    match ReadVarint(s)
    case OutOfBytes => Bad(EndOfBytes)
    case Varint(key, k) =>
      var num, wire := key / 8, key % 8;
      if wire == 0 then
        match ReadVarint(s[k..])
        case OutOfBytes => Bad(EndOfBytes)
        case Varint(value, n) => Good(Field(num, wire, Number(value)), k + n)
      else if wire == 2 then
        match ReadVarint(s[k..])
        case OutOfBytes => Bad(EndOfBytes)
        case Varint(length, n) => Good(Field(num, wire, Chunk(Sliced(s, k + n, length))), k + n + length)
      else if wire == 1 then Good(Field(num, wire, Chunk(Sliced(s, k, 8))), k + 8)
      else if wire == 5 then Good(Field(num, wire, Chunk(Sliced(s, k, 4))), k + 4)
      else Bad(WireType(wire))
  }

  /** The bytes after the first `n`; none when there are fewer. */
  function After(s: seq<Byte>, n: nat): (r: seq<Byte>)
    ensures n > 0 && s != [] ==> |r| < |s|
  {
    if n <= |s| then s[n..] else []
  }

  function PutFirst(field: Field, more: Fields): Fields {
    more.(fields := [field] + more.fields)
  }

  function ReadFields(s: seq<Byte>): Fields
    decreases |s|
  {
    if s == [] then Finished([])
    else
      match ReadField(s)
      case Bad(error) => Raised([], error)
      case Good(field, used) => PutFirst(field, ReadFields(After(s, used)))
  }

  function PutBefore(fields: seq<Field>, more: Fields): Fields {
    more.(fields := fields + more.fields)
  }

  lemma PutTwice(fields: seq<Field>, field: Field, more: Fields)
    ensures PutBefore(fields, PutFirst(field, more)) == PutBefore(fields + [field], more)
  {
    assert fields + ([field] + more.fields) == fields + [field] + more.fields;
  }

  /** One turn of the loop: the key, then what its wire type says. */
  method DecodeField(buf: seq<Byte>, i: nat) returns (r: FieldRead)
    requires i <= |buf|
    ensures r == ReadField(buf[i..])
  {
    hide ReadVarint;
    var at := i;
    var key := DecodeVarint(buf, at);
    if key.OutOfBytes? { return Bad(EndOfBytes); }
    var num, wire := key.value / 8, key.value % 8;
    at := at + key.used;
    assert buf[at..] == buf[i..][key.used..];
    if wire == 0 {
      var v := DecodeVarint(buf, at);
      if v.OutOfBytes? { return Bad(EndOfBytes); }
      r := Good(Field(num, wire, Number(v.value)), at + v.used - i);
    } else if wire == 2 {
      var length := DecodeVarint(buf, at);
      if length.OutOfBytes? { return Bad(EndOfBytes); }
      at := at + length.used;
      SlicedRest(buf, i, at - i, length.value);
      r := Good(Field(num, wire, Chunk(Sliced(buf, at, length.value))), at + length.value - i);
    } else if wire == 1 {
      SlicedRest(buf, i, at - i, 8);
      r := Good(Field(num, wire, Chunk(Sliced(buf, at, 8))), at + 8 - i);
    } else if wire == 5 {
      SlicedRest(buf, i, at - i, 4);
      r := Good(Field(num, wire, Chunk(Sliced(buf, at, 4))), at + 4 - i);
    } else {
      r := Bad(WireType(wire));
    }
  }

  method DecodeFields(buf: seq<Byte>) returns (r: Fields)
    ensures r == ReadFields(buf)
  {
    hide ReadField;
    var yielded: seq<Field>, i: nat := [], 0;
    assert After(buf, 0) == buf;
    PutNothing(ReadFields(buf));
    while i < |buf|
      invariant ReadFields(buf) == PutBefore(yielded, ReadFields(After(buf, i)))
      decreases |buf| - i
    {
      var read := DecodeField(buf, i);
      if read.Bad? {
        assert yielded + [] == yielded;
        return Raised(yielded, read.error);
      }
      assert After(After(buf, i), read.used) == After(buf, i + read.used);
      PutTwice(yielded, read.field, ReadFields(After(buf, i + read.used)));
      yielded := yielded + [read.field];
      i := i + read.used;
    }
    assert yielded + [] == yielded;
    r := Finished(yielded);
  }

  lemma PutNothing(more: Fields)
    ensures PutBefore([], more) == more
  {
    assert [] + more.fields == more.fields;
  }

  lemma SlicedRest(buf: seq<Byte>, start: nat, k: nat, n: nat)
    requires start + k <= |buf|
    ensures Sliced(buf[start..], k, n) == Sliced(buf, start + k, n)
  {}

  // The printer.

  /** What the four wire types carry. */
  predicate Printable(field: Field) {
    match field.wire
    case 0 => field.value.Number?
    case 2 => field.value.Chunk?
    case 1 => field.value.Chunk? && |field.value.bytes| == 8
    case 5 => field.value.Chunk? && |field.value.bytes| == 4
    case _ => false
  }

  function PrintValue(field: Field): seq<Byte>
    requires Printable(field)
  {
    if field.wire == 0 then PrintVarint(field.value.number)
    else if field.wire == 2 then PrintVarint(|field.value.bytes|) + field.value.bytes
    else field.value.bytes
  }

  function PrintField(field: Field): (s: seq<Byte>)
    requires Printable(field)
    ensures s != []
  {
    PrintVarint(8 * field.num + field.wire) + PrintValue(field)
  }

  function PrintFields(fields: seq<Field>): seq<Byte>
    requires forall field :: field in fields ==> Printable(field)
  {
    if fields == [] then [] else PrintField(fields[0]) + PrintFields(fields[1..])
  }

  lemma FieldRoundTrip(field: Field, more: seq<Byte>)
    requires Printable(field)
    ensures ReadField(PrintField(field) + more) == Good(field, |PrintField(field)|)
  {
    hide ReadVarint, PrintVarint;
    var key := 8 * field.num + field.wire;
    var k, s := |PrintVarint(key)|, PrintField(field) + more;
    VarintRoundTrip(key, PrintValue(field) + more);
    assert s == PrintVarint(key) + (PrintValue(field) + more);
    assert s[k..] == PrintValue(field) + more;
    if field.wire == 0 {
      VarintRoundTrip(field.value.number, more);
    } else if field.wire == 2 {
      var bytes := field.value.bytes;
      VarintRoundTrip(|bytes|, bytes + more);
      assert s[k..] == PrintVarint(|bytes|) + (bytes + more);
      assert Sliced(s, k + |PrintVarint(|bytes|)|, |bytes|) == bytes;
    } else {
      assert Sliced(s, k, |field.value.bytes|) == field.value.bytes;
    }
  }

  /** Any list of fields is read back from its printed form. */
  lemma {:induction false} FieldsRoundTrip(fields: seq<Field>)
    requires forall field :: field in fields ==> Printable(field)
    ensures ReadFields(PrintFields(fields)) == Finished(fields)
  {
    hide ReadField, PrintField;
    if fields != [] {
      var s := PrintFields(fields);
      FieldRoundTrip(fields[0], PrintFields(fields[1..]));
      FieldsRoundTrip(fields[1..]);
      assert After(s, |PrintField(fields[0])|) == PrintFields(fields[1..]);
      assert fields == [fields[0]] + fields[1..];
    }
  }

  // What becomes of a list of fields that is cut short.

  /** What comes before the data of a field: its key, and the length of a chunk; of a number, all of it. */
  function Head(field: Field): (s: seq<Byte>)
    requires Printable(field)
    ensures s != []
  {
    PrintVarint(8 * field.num + field.wire) +
    (if field.wire == 0 then PrintVarint(field.value.number)
     else if field.wire == 2 then PrintVarint(|field.value.bytes|)
     else [])
  }

  function Data(field: Field): seq<Byte>
    requires Printable(field)
  {
    if field.wire == 0 then [] else field.value.bytes
  }

  lemma HeadThenData(field: Field)
    requires Printable(field)
    ensures PrintField(field) == Head(field) + Data(field)
  {}

  /** The field with only the first `n` bytes of its chunk. */
  function Shortened(field: Field, n: nat): Field
    requires Printable(field)
  {
    if field.wire == 0 || n > |field.value.bytes| then field else field.(value := Chunk(field.value.bytes[..n]))
  }

  /** A number cut short, at whatever place, has no end. */
  lemma CutVarintAt(s: seq<Byte>, value: nat, n: nat)
    requires n < |PrintVarint(value)| && s == PrintVarint(value)[..n]
    ensures ReadVarint(s) == OutOfBytes
  {
    CutVarint(value, n);
  }

  /** Cut within its head, a field is an error. */
  lemma CutHead(field: Field, n: nat)
    requires Printable(field) && 0 < n < |Head(field)|
    ensures ReadField(Head(field)[..n]) == Bad(EndOfBytes)
  {
    hide ReadVarint, PrintVarint;
    var key := PrintVarint(8 * field.num + field.wire);
    var s := Head(field)[..n];
    if n < |key| {
      assert s == key[..n];
      CutVarintAt(s, 8 * field.num + field.wire, n);
    } else {
      var second := if field.wire == 0 then field.value.number else |field.value.bytes|;
      assert s == key + PrintVarint(second)[..n - |key|];
      VarintRoundTrip(8 * field.num + field.wire, PrintVarint(second)[..n - |key|]);
      assert s[|key|..] == PrintVarint(second)[..n - |key|];
      CutVarintAt(s[|key|..], second, n - |key|);
    }
  }

  /** Cut within its data, a field is read with what is left of it, as though it were whole. */
  lemma CutData(field: Field, n: nat)
    requires Printable(field) && n < |Data(field)|
    ensures ReadField(Head(field) + Data(field)[..n]) == Good(Shortened(field, n), |PrintField(field)|)
  {
    hide ReadVarint, PrintVarint;
    var key, left := PrintVarint(8 * field.num + field.wire), Data(field)[..n];
    var s := Head(field) + left;
    if field.wire == 2 {
      var length := PrintVarint(|field.value.bytes|);
      assert s == key + (length + left);
      VarintRoundTrip(8 * field.num + 2, length + left);
      assert s[|key|..] == length + left;
      VarintRoundTrip(|field.value.bytes|, left);
      assert Sliced(s, |key| + |length|, |field.value.bytes|) == left;
    } else {
      assert s == key + left;
      VarintRoundTrip(8 * field.num + field.wire, left);
      assert Sliced(s, |key|, |field.value.bytes|) == left;
    }
  }

  /** What is read of a list of fields cut after `n` bytes. */
  function CutReading(fields: seq<Field>, n: nat): Fields
    requires forall field :: field in fields ==> Printable(field)
    requires n <= |PrintFields(fields)|
  {
    if n == 0 then Finished([])
    else
      var first, rest := fields[0], fields[1..];
      if n < |Head(first)| then Raised([], EndOfBytes)
      else if n < |PrintField(first)| then Finished([Shortened(first, n - |Head(first)|)])
      else PutFirst(first, CutReading(rest, n - |PrintField(first)|))
  }

  lemma ReadLast(s: seq<Byte>, field: Field, used: nat)
    requires s != [] && ReadField(s) == Good(field, used) && used >= |s|
    ensures ReadFields(s) == Finished([field])
  {
    assert After(s, used) == [];
    assert ReadFields([]) == Finished([]) && [field] + [] == [field];
  }

  lemma {:induction false} CutFieldsRead(fields: seq<Field>, n: nat)
    requires forall field :: field in fields ==> Printable(field)
    requires n <= |PrintFields(fields)|
    ensures ReadFields(PrintFields(fields)[..n]) == CutReading(fields, n)
  {
    hide ReadField, PrintField, Head, Data;
    var s := PrintFields(fields)[..n];
    if n > 0 {
      var first, rest := fields[0], fields[1..];
      var whole := PrintField(first);
      HeadThenData(first);
      if n < |Head(first)| {
        assert s == Head(first)[..n];
        CutHead(first, n);
      } else if n < |whole| {
        assert s == Head(first) + Data(first)[..n - |Head(first)|];
        CutData(first, n - |Head(first)|);
        ReadLast(s, Shortened(first, n - |Head(first)|), |whole|);
      } else {
        var left := PrintFields(rest)[..n - |whole|];
        assert s == whole + left;
        FieldRoundTrip(first, left);
        CutFieldsRead(rest, n - |whole|);
        assert After(s, |whole|) == left;
      }
    }
  }

  /** The field a cut after `n` bytes falls into, and the bytes before that field. */
  predicate FallsInto(fields: seq<Field>, n: nat, i: nat)
    requires forall field :: field in fields ==> Printable(field)
  {
    && i < |fields| && fields[i] in fields && (forall field :: field in fields[..i] ==> field in fields)
    && |PrintFields(fields[..i])| <= n < |PrintFields(fields[..i])| + |PrintField(fields[i])|
  }

  lemma {:induction false} CutReadingMeans(fields: seq<Field>, n: nat, i: nat)
    requires forall field :: field in fields ==> Printable(field)
    requires n <= |PrintFields(fields)| && FallsInto(fields, n, i)
    ensures var m := n - |PrintFields(fields[..i])|;
            CutReading(fields, n) ==
              if m == 0 then Finished(fields[..i])
              else if m < |Head(fields[i])| then Raised(fields[..i], EndOfBytes)
              else Finished(fields[..i] + [Shortened(fields[i], m - |Head(fields[i])|)])
    decreases fields
  {
    hide PrintField, Head, Data;
    HeadThenData(fields[i]);
    if i == 0 {
      assert fields[..0] == [] && PrintFields([]) == [];
    } else {
      var first, rest := fields[0], fields[1..];
      assert fields[..i] == [first] + rest[..i - 1];
      assert fields[..i][1..] == rest[..i - 1];
      assert PrintFields(fields[..i]) == PrintField(first) + PrintFields(rest[..i - 1]);
      HeadThenData(first);
      CutReadingMeans(rest, n - |PrintField(first)|, i - 1);
    }
  }

  lemma {:induction false} CutPlace(fields: seq<Field>, n: nat) returns (i: nat)
    requires forall field :: field in fields ==> Printable(field)
    requires n < |PrintFields(fields)|
    ensures FallsInto(fields, n, i)
    decreases fields
  {
    hide PrintField;
    var first, rest := fields[0], fields[1..];
    if n < |PrintField(first)| {
      i := 0;
      assert fields[..0] == [] && PrintFields([]) == [];
    } else {
      var k := CutPlace(rest, n - |PrintField(first)|);
      i := k + 1;
      assert fields[..i] == [first] + rest[..k] && fields[..i][1..] == rest[..k];
      assert PrintFields(fields[..i]) == PrintField(first) + PrintFields(rest[..k]);
    }
  }

  /** The cut falls inside the head of a field: not at its start, and before its data. */
  ghost predicate InsideHead(fields: seq<Field>, n: nat)
    requires forall field :: field in fields ==> Printable(field)
  {
    exists i: nat :: FallsInto(fields, n, i) && 0 < n - |PrintFields(fields[..i])| < |Head(fields[i])|
  }

  /**
    Any list of fields cut at any place: the reader raises iff the cut falls inside the key, the number or
    the length of a field. Otherwise it ends as though nothing were missing, with the fields before the
    cut and, when the cut falls inside a chunk, that chunk cut short.
   */
  lemma CutStream(fields: seq<Field>, n: nat) returns (i: nat)
    requires forall field :: field in fields ==> Printable(field)
    requires n < |PrintFields(fields)|
    ensures FallsInto(fields, n, i)
    ensures var m, result := n - |PrintFields(fields[..i])|, ReadFields(PrintFields(fields)[..n]);
            && (result.Raised? <==> 0 < m < |Head(fields[i])|)
            && (result.Raised? ==> result == Raised(fields[..i], EndOfBytes))
            && (m == 0 ==> result == Finished(fields[..i]))
            && (m >= |Head(fields[i])| ==>
                  && |Data(fields[i])| > m - |Head(fields[i])|
                  && result == Finished(fields[..i] + [Shortened(fields[i], m - |Head(fields[i])|)]))
    ensures ReadFields(PrintFields(fields)[..n]).Raised? <==> InsideHead(fields, n)
  {
    hide PrintField, Head, Data, ReadFields, PrintFields, CutReading;
    i := CutPlace(fields, n);
    HeadThenData(fields[i]);
    CutFieldsRead(fields, n);
    CutReadingMeans(fields, n, i);
    forall j: nat | FallsInto(fields, n, j) ensures j == i { OnePlace(fields, n, i, j); }
  }

  lemma {:induction false} OnePlace(fields: seq<Field>, n: nat, i: nat, j: nat)
    requires forall field :: field in fields ==> Printable(field)
    requires FallsInto(fields, n, i) && FallsInto(fields, n, j)
    ensures i == j
  {
    if i < j { PrefixLength(fields, i, j); }
    if j < i { PrefixLength(fields, j, i); }
  }

  lemma {:induction false} PrefixLength(fields: seq<Field>, i: nat, j: nat)
    requires forall field :: field in fields ==> Printable(field)
    requires i < j <= |fields|
    ensures |PrintFields(fields[..i])| + |PrintField(fields[i])| <= |PrintFields(fields[..j])|
    decreases fields
  {
    hide PrintField;
    var first, rest := fields[0], fields[1..];
    assert fields[..j] == [first] + rest[..j - 1] && fields[..j][1..] == rest[..j - 1];
    if i == 0 {
      assert fields[..0] == [];
    } else {
      assert fields[..i] == [first] + rest[..i - 1] && fields[..i][1..] == rest[..i - 1];
      PrefixLength(rest, i - 1, j - 1);
    }
  }
}
