/** The two failure-compatible result types the other modules share. */
module Results {

  datatype Option<+T> = None | Some(value: T) {
    predicate IsFailure() {
      None?
    }

    function PropagateFailure<U>(): Option<U>
      requires None?
    {
      None
    }

    function Extract(): T
      requires Some?
    {
      value
    }
  }

  datatype Result<+T, +E> = Ok(value: T) | Err(error: E) {
    predicate IsFailure() {
      Err?
    }

    function PropagateFailure<U>(): Result<U, E>
      requires Err?
    {
      Err(error)
    }

    function Extract(): T
      requires Ok?
    {
      value
    }
  }
}

/** Sizes of sets. */
module Sets {

  lemma {:induction false} SubsetSize<T>(small: set<T>, large: set<T>)
    requires small <= large
    ensures |small| <= |large|
  {
    if small != {} {
      var x :| x in small;
      SubsetSize(small - {x}, large - {x});
    }
  }
}

/** Byte strings and fixed-width big-endian integers. */
module ByteStrings {

  type Byte = b: int | 0 <= b < 256
  type Bytes = seq<Byte>

  const UINT16_MAX: nat := 0xFFFF
  const UINT32_MAX: nat := 0xFFFF_FFFF
  const UINT64_MAX: nat := 0xFFFF_FFFF_FFFF_FFFF

  function Pow256(width: nat): (p: nat)
    ensures p > 0
  {
    if width == 0 then 1 else 256 * Pow256(width - 1)
  }

  /** The numbers a byte string of each used width can hold. */
  lemma WidthLimits()
    ensures Pow256(1) == 256
    ensures Pow256(2) == UINT16_MAX + 1
    ensures Pow256(4) == UINT32_MAX + 1
    ensures Pow256(8) == UINT64_MAX + 1
  {
    assert Pow256(2) == 256 * Pow256(1);
    assert Pow256(3) == 256 * Pow256(2);
    assert Pow256(4) == 256 * Pow256(3);
    assert Pow256(5) == 256 * Pow256(4);
    assert Pow256(6) == 256 * Pow256(5);
    assert Pow256(7) == 256 * Pow256(6);
  }

  function FromBigEndian(bytes: Bytes): (value: nat)
    ensures value < Pow256(|bytes|)
  {
    if bytes == [] then 0
    else 256 * FromBigEndian(bytes[..|bytes| - 1]) + bytes[|bytes| - 1]
  }

  function BigEndian(value: nat, width: nat): (bytes: Bytes)
    requires value < Pow256(width)
    ensures |bytes| == width && FromBigEndian(bytes) == value
  {
    if width == 0 then []
    else
      var high := BigEndian(value / 256, width - 1);
      var bytes := high + [value % 256];
      assert bytes[..|bytes| - 1] == high;
      bytes
  }

  /** Reading a fixed-width field and writing it back gives the same bytes. */
  lemma {:induction false} BigEndianOfFromBigEndian(bytes: Bytes)
    ensures BigEndian(FromBigEndian(bytes), |bytes|) == bytes
  {
    if bytes != [] {
      BigEndianOfFromBigEndian(bytes[..|bytes| - 1]);
    }
  }

  function UInt16(value: nat): (bytes: Bytes)
    requires value <= UINT16_MAX
    ensures |bytes| == 2 && 256 * (bytes[0] as int) + bytes[1] as int == value
  {
    [value / 256, value % 256]
  }

  function ReadUInt16(bytes: Bytes, at: nat): (value: nat)
    requires at + 2 <= |bytes|
    ensures value <= UINT16_MAX && UInt16(value) == [bytes[at], bytes[at + 1]]
  {
    var high: int := bytes[at];
    high * 256 + bytes[at + 1]
  }

  function UInt64(value: nat): (bytes: Bytes)
    requires value <= UINT64_MAX
    ensures |bytes| == 8 && FromBigEndian(bytes) == value
  {
    WidthLimits();
    BigEndian(value, 8)
  }

  predicate IsAscii(text: string) {
    forall i | 0 <= i < |text| :: text[i] as int < 128
  }

  /** One byte a character, as an "ascii" buffer is written: wider characters lose their high bits. */
  function AsciiBytes(text: string): (bytes: Bytes)
    ensures |bytes| == |text|
  {
    seq(|text|, i requires 0 <= i < |text| => text[i] as int % 256)
  }

  lemma AsciiBytesInjective(a: string, b: string)
    requires IsAscii(a) && IsAscii(b)
    requires AsciiBytes(a) == AsciiBytes(b)
    ensures a == b
  {
    forall i | 0 <= i < |a| ensures a[i] == b[i] {
      assert AsciiBytes(a)[i] == AsciiBytes(b)[i];
    }
  }
}

/** Tuples of byte strings, each written behind its own four-byte big-endian length. */
module LengthPrefixed {
  import opened Results
  import opened ByteStrings

  predicate MinorAccepted(minor: int, expected: Option<int>) {
    expected.None? || minor == expected.value
  }

  predicate Encodable(fields: seq<Bytes>) {
    forall i | 0 <= i < |fields| :: |fields[i]| <= UINT32_MAX
  }

  function LengthPrefix(field: Bytes): (bytes: Bytes)
    requires |field| <= UINT32_MAX
    ensures |bytes| == 4 + |field|
  {
    WidthLimits();
    BigEndian(|field|, 4) + field
  }

  function Concat(fields: seq<Bytes>): Bytes
    requires Encodable(fields)
  {
    if fields == [] then []
    else LengthPrefix(fields[0]) + Concat(fields[1..])
  }

  /** The length says where a field ends, so nothing after it can change what was read. */
  lemma PrefixSelfDelimiting(a: Bytes, b: Bytes, restA: Bytes, restB: Bytes)
    requires |a| <= UINT32_MAX && |b| <= UINT32_MAX
    requires LengthPrefix(a) + restA == LengthPrefix(b) + restB
    ensures a == b && restA == restB
  {
    WidthLimits();
    var left, right := LengthPrefix(a) + restA, LengthPrefix(b) + restB;
    assert left[..4] == BigEndian(|a|, 4) && right[..4] == BigEndian(|b|, 4);
    assert |a| == |b|;
    assert left[4..4 + |a|] == a && right[4..4 + |b|] == b;
    assert left[4 + |a|..] == restA && right[4 + |b|..] == restB;
  }

  lemma ConcatAssociative(a: Bytes, b: Bytes, c: Bytes)
    ensures a + (b + c) == (a + b) + c
  {
  }

  lemma {:induction false} ConcatAppend(fields: seq<Bytes>, last: Bytes)
    requires Encodable(fields) && |last| <= UINT32_MAX
    ensures Encodable(fields + [last])
    ensures Concat(fields + [last]) == Concat(fields) + LengthPrefix(last)
  {
    if fields == [] {
      assert fields + [last] == [last];
      assert Concat([last]) == LengthPrefix(last) + Concat([]);
    } else {
      ConcatAppend(fields[1..], last);
      var all := fields + [last];
      assert all[0] == fields[0] && all[1..] == fields[1..] + [last];
      ConcatAssociative(LengthPrefix(fields[0]), Concat(fields[1..]), LengthPrefix(last));
    }
  }

  /** Fields read from the front of an encoding are the fields that were encoded. */
  lemma {:induction false} ConcatPrefix(done: seq<Bytes>, fields: seq<Bytes>, rest: Bytes)
    requires Encodable(done) && Encodable(fields) && |done| <= |fields|
    requires Concat(fields) == Concat(done) + rest
    ensures fields[..|done|] == done
    ensures rest == Concat(fields[|done|..])
  {
    if done == [] {
      assert fields[0..] == fields;
    } else {
      ConcatAssociative(LengthPrefix(done[0]), Concat(done[1..]), rest);
      PrefixSelfDelimiting(fields[0], done[0], Concat(fields[1..]), Concat(done[1..]) + rest);
      ConcatPrefix(done[1..], fields[1..], rest);
      SlicesOfTail(fields, |done|);
      assert done == [done[0]] + done[1..];
    }
  }

  lemma SlicesOfTail(fields: seq<Bytes>, n: nat)
    requires 0 < n <= |fields|
    ensures fields[..n] == [fields[0]] + fields[1..][..n - 1]
    ensures fields[n..] == fields[1..][n - 1..]
  {
  }

  /** Two field lists with the same encoding are the same list: same count, same fields, same order. */
  lemma {:induction false} ConcatInjective(a: seq<Bytes>, b: seq<Bytes>)
    requires Encodable(a) && Encodable(b)
    requires Concat(a) == Concat(b)
    ensures a == b
    decreases if |a| <= |b| then 0 else 1
  {
    if |a| <= |b| {
      ConcatPrefix(a, b, []);
      assert b == b[..|a|];
    } else {
      ConcatInjective(b, a);
    }
  }

  /** Reads length-prefixed fields one after another from a fixed payload. */
  class FieldReader {
    const payload: Bytes
    var offset: nat

    ghost predicate Valid()
      reads this
    {
      offset <= |payload|
    }

    ghost function Rest(): Bytes
      requires Valid()
      reads this
    {
      payload[offset..]
    }

    /** `done` is exactly what has been read so far. */
    ghost predicate HasRead(done: seq<Bytes>)
      requires Valid()
      reads this
    {
      Encodable(done) && payload == Concat(done) + Rest()
    }

    constructor (payload: Bytes)
      ensures Valid() && this.payload == payload && offset == 0 && HasRead([])
    {
      this.payload := payload;
      this.offset := 0;
    }

    method Read(length: nat) returns (r: Option<Bytes>)
      requires Valid()
      modifies this
      ensures Valid()
      ensures r.Some? <==> old(offset) + length <= |payload|
      ensures r.Some? ==> |r.value| == length && old(Rest()) == r.value + Rest()
      ensures r.None? ==> offset == old(offset)
    {
      if offset + length > |payload| {
        return None;
      }
      r := Some(payload[offset..offset + length]);
      offset := offset + length;
    }

    /**
     * Reads one field of an exact width. When it fails, no list that continues `done` with a field
     * of that width is what the payload encodes.
     */
    method ReadField(width: nat, ghost done: seq<Bytes>) returns (r: Option<Bytes>)
      requires Valid() && HasRead(done) && width <= UINT32_MAX
      modifies this
      ensures Valid()
      ensures r.Some? ==> |r.value| == width && HasRead(done + [r.value])
      ensures r.None? ==> Excludes(payload, |done|, width)
    {
      WidthLimits();
      var start := Rest();
      var length := Read(4);
      if length.None? || FromBigEndian(length.value) != width {
        FieldMissing(payload, done, start, width);
        return None;
      }
      BigEndianOfFromBigEndian(length.value);
      r := Read(width);
      if r.None? {
        FieldMissing(payload, done, start, width);
      } else {
        ConcatAppend(done, r.value);
        ConcatAssociative(length.value, r.value, Rest());
        assert start == LengthPrefix(r.value) + Rest();
        ConcatAssociative(Concat(done), LengthPrefix(r.value), Rest());
      }
    }

    /**
     * Reads the fields still missing from `fields`, in order of their widths. A decoder of the source
     * writes these reads out one by one; the order and the checks are the same.
     */
    method ReadFields(widths: seq<nat>, fields: seq<Bytes>) returns (r: Option<seq<Bytes>>)
      requires Valid() && HasRead(fields) && HaveWidths(fields, widths)
      requires forall i | 0 <= i < |widths| :: widths[i] <= UINT32_MAX
      modifies this
      ensures Valid()
      ensures r.Some? ==> |r.value| == |widths| && HaveWidths(r.value, widths) && HasRead(r.value)
      ensures r.Some? ==> fields <= r.value
      ensures r.None? ==> exists i :: |fields| <= i < |widths| && Excludes(payload, i, widths[i])
    {
      var read := fields;
      while |read| < |widths|
        invariant Valid() && HasRead(read) && HaveWidths(read, widths) && fields <= read
      {
        var field :- ReadField(widths[|read|], read);
        read := read + [field];
      }
      return Some(read);
    }

    method AtEnd() returns (end: bool)
      requires Valid()
      ensures end <==> Rest() == []
    {
      end := offset == |payload|;
    }
  }

  /**
   * A strict tuple decoder: the domain field, then one field of each width, then the end of the
   * input. It finds the only field list the payload can encode, or there is none.
   */
  method DecodeTuple(payload: Bytes, domain: Bytes, widths: seq<nat>) returns (r: Option<seq<Bytes>>)
    requires |widths| > 0 && widths[0] == |domain|
    requires forall i | 0 <= i < |widths| :: widths[i] <= UINT32_MAX
    ensures r.Some? ==> IsTuple(r.value, domain, widths) && Concat(r.value) == payload
    ensures r.None? ==> forall fields | IsTuple(fields, domain, widths) :: Concat(fields) != payload
  {
    var reader := new FieldReader(payload);
    var first :- reader.ReadField(widths[0], []);
    ghost var rest := reader.Rest();
    assert [] + [first] == [first];
    if first != domain {
      OtherDomain(payload, first, rest, domain, widths);
      return None;
    }
    var fields :- reader.ReadFields(widths, [first]);
    rest := reader.Rest();
    var atEnd := reader.AtEnd();
    if !atEnd {
      LeftOver(payload, fields, rest, domain, widths);
      return None;
    }
    assert payload == Concat(fields);
    return Some(fields);
  }

  lemma OtherDomain(payload: Bytes, first: Bytes, rest: Bytes, domain: Bytes, widths: seq<nat>)
    requires Encodable([first]) && payload == Concat([first]) + rest && first != domain
    ensures forall fields | IsTuple(fields, domain, widths) :: Concat(fields) != payload
  {
    forall fields | IsTuple(fields, domain, widths) ensures Concat(fields) != payload {
      if Concat(fields) == payload {
        ConcatPrefix([first], fields, rest);
      }
    }
  }

  lemma LeftOver(payload: Bytes, read: seq<Bytes>, rest: Bytes, domain: Bytes, widths: seq<nat>)
    requires Encodable(read) && payload == Concat(read) + rest && |read| == |widths| && rest != []
    ensures forall fields | IsTuple(fields, domain, widths) :: Concat(fields) != payload
  {
    forall fields | IsTuple(fields, domain, widths) ensures Concat(fields) != payload {
      if Concat(fields) == payload {
        ConcatPrefix(read, fields, rest);
      }
    }
  }

  predicate IsTuple(fields: seq<Bytes>, domain: Bytes, widths: seq<nat>) {
    && |fields| == |widths| > 0
    && fields[0] == domain
    && Encodable(fields)
    && forall i | 0 <= i < |fields| :: |fields[i]| == widths[i]
  }

  ghost predicate HaveWidths(fields: seq<Bytes>, widths: seq<nat>) {
    |fields| <= |widths| && forall i | 0 <= i < |fields| :: |fields[i]| == widths[i]
  }

  /** No field list whose field at `index` has that width encodes to `payload`. */
  ghost predicate Excludes(payload: Bytes, index: nat, width: nat) {
    forall fields: seq<Bytes> | Encodable(fields) && index < |fields| && |fields[index]| == width ::
      Concat(fields) != payload
  }

  /** What is left after `done` does not start with a field of that width, so nothing fits. */
  lemma FieldMissing(payload: Bytes, done: seq<Bytes>, rest: Bytes, width: nat)
    requires Encodable(done) && payload == Concat(done) + rest && width <= UINT32_MAX
    requires |rest| < 4 + width || rest[..4] != BigEndianOfWidth(width)
    ensures Excludes(payload, |done|, width)
  {
    forall fields: seq<Bytes> | Encodable(fields) && |done| < |fields| && |fields[|done|]| == width
      ensures Concat(fields) != payload
    {
      if Concat(fields) == payload {
        FieldPresent(fields, done, rest, width);
      }
    }
  }

  lemma FieldPresent(fields: seq<Bytes>, done: seq<Bytes>, rest: Bytes, width: nat)
    requires Encodable(done) && Encodable(fields) && Concat(fields) == Concat(done) + rest && width <= UINT32_MAX
    requires |done| < |fields| && |fields[|done|]| == width
    ensures |rest| >= 4 + width && rest[..4] == BigEndianOfWidth(width)
  {
    ConcatPrefix(done, fields, rest);
    var last := fields[|done|..];
    assert rest == LengthPrefix(last[0]) + Concat(last[1..]);
  }

  ghost function BigEndianOfWidth(width: nat): Bytes
    requires width <= UINT32_MAX
  {
    WidthLimits();
    BigEndian(width, 4)
  }
}
