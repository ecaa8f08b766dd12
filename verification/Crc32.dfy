/** Iterating a step function, for any kind of register. */
module Iteration {

  function Iterate<T>(f: T -> T, x: T, n: nat): T
    decreases n
  {
    if n == 0 then x else Iterate(f, f(x), n - 1)
  }

  lemma IterateEight<T>(f: T -> T, x: T)
    ensures Iterate(f, x, 8) == f(f(f(f(f(f(f(f(x))))))))
  {
    var y := f(f(f(f(x))));
    assert Iterate(f, x, 8) == Iterate(f, y, 4) by {
      assert Iterate(f, f(f(x)), 6) == Iterate(f, y, 4);
    }
    assert Iterate(f, y, 4) == Iterate(f, f(f(y)), 2);
  }

  /** Iterating distributes over an operation the step distributes over. */
  lemma {:induction false} IterateDistributes<T(!new)>(f: T -> T, op: (T, T) -> T, a: T, b: T, n: nat)
    requires forall x, y :: f(op(x, y)) == op(f(x), f(y))
    ensures Iterate(f, op(a, b), n) == op(Iterate(f, a, n), Iterate(f, b, n))
    decreases n
  {
    if n > 0 {
      IterateDistributes(f, op, f(a), f(b), n - 1);
    }
  }

  lemma {:induction false} IterateInjective<T(!new)>(f: T -> T, a: T, b: T, n: nat)
    requires forall x, y :: f(x) == f(y) ==> x == y
    ensures Iterate(f, a, n) == Iterate(f, b, n) ==> a == b
    decreases n
  {
    if n > 0 {
      IterateInjective(f, f(a), f(b), n - 1);
    }
  }

  /** A register taking in a message, from its first piece to its last. */
  function Fold<T, B>(take: (T, B) -> T, c: T, data: seq<B>): T
    decreases |data|
  {
    if data == [] then c else take(Fold(take, c, data[..|data| - 1]), data[|data| - 1])
  }

  lemma FoldOneMore<T, B>(take: (T, B) -> T, c: T, data: seq<B>, b: B)
    ensures Fold(take, c, data + [b]) == take(Fold(take, c, data), b)
  {
    assert (data + [b])[..|data|] == data;
  }

  /** Registers once apart stay apart, when every piece keeps them apart. */
  lemma {:induction false} FoldKeepsApart<T(!new), B(!new)>(
    take: (T, B) -> T, c: T, front: seq<B>, other: seq<B>, back: seq<B>)
    requires forall x, y, b :: take(x, b) == take(y, b) ==> x == y
    requires Fold(take, c, front) != Fold(take, c, other)
    ensures Fold(take, c, front + back) != Fold(take, c, other + back)
    decreases |back|
  {
    if back == [] {
      assert front + back == front && other + back == other;
    } else {
      var n := |back| - 1;
      FoldKeepsApart(take, c, front, other, back[..n]);
      assert front + back == front + back[..n] + [back[n]] && other + back == other + back[..n] + [back[n]];
      FoldOneMore(take, c, front + back[..n], back[n]);
      FoldOneMore(take, c, other + back[..n], back[n]);
    }
  }

  /** A register fed `n` pieces of an input: the next piece, then the rest of the input. */
  function Feed<T>(take: (T, T) -> T, rest: T -> T, c: T, input: T, n: nat): T
    decreases n
  {
    if n == 0 then c else Feed(take, rest, take(c, input), rest(input), n - 1)
  }

  /** When one step on the mixed-in input is a feed with the rest mixed in, so are `n` steps. */
  lemma {:induction false} FeedIsIterate<T(!new)>(
    f: T -> T, op: (T, T) -> T, take: (T, T) -> T, rest: T -> T, c: T, input: T, n: nat)
    requires forall x, y :: f(op(x, y)) == op(take(x, y), rest(y))
    ensures Iterate(f, op(c, input), n) == op(Feed(take, rest, c, input, n), Iterate(rest, input, n))
    decreases n
  {
    if n > 0 {
      FeedIsIterate(f, op, take, rest, take(c, input), rest(input), n - 1);
    }
  }

  /** A constant that moves through an operation, here between two given values. */
  predicate MovesThrough<T(==)>(op: (T, T) -> T, p: T, x: T, y: T) {
    && op(op(p, x), op(p, y)) == op(x, y)
    && op(op(p, x), y) == op(p, op(x, y))
    && op(x, op(p, y)) == op(p, op(x, y))
  }

  function Reduced<T>(op: (T, T) -> T, p: T, odd: bool, half: T): T {
    if odd then op(p, half) else half
  }

  /** Reducing two halves and combining them is reducing the combination, when exactly one was odd. */
  lemma ReducedMixed<T>(op: (T, T) -> T, p: T, oddX: bool, x: T, oddY: bool, y: T)
    requires MovesThrough(op, p, x, y)
    ensures op(Reduced(op, p, oddX, x), Reduced(op, p, oddY, y)) == Reduced(op, p, oddX != oddY, op(x, y))
    ensures op(Reduced(op, p, oddX, x), y) == Reduced(op, p, oddX, op(x, y))
  {
  }
}

/** The table-driven CRC of the fake attachments against the bit-at-a-time register of section 3.4 of RFC 2083. */
module Crc32 {
  import opened Iteration

  type Byte = b: bv32 | b < 256

  const POLYNOMIAL: bv32 := 0xedb88320
  const ONES: bv32 := 0xffffffff

  function Xor(a: bv32, b: bv32): bv32 {
    a ^ b
  }

  function Half(b: bv32): bv32 {
    b >> 1
  }

  /** One step of the reflected shift register. */
  function Shift(c: bv32): bv32 {
    if c & 1 == 1 then POLYNOMIAL ^ (c >> 1) else c >> 1
  }

  /** The register takes one message bit in: the polynomial comes into play when it differs from the bit shifted out. */
  function TakeBit(c: bv32, bits: bv32): bv32 {
    if c & 1 != bits & 1 then POLYNOMIAL ^ (c >> 1) else c >> 1
  }

  /** The reference takes a byte in bit by bit, the least significant first. */
  function TakeByte(c: bv32, b: Byte): bv32 {
    Feed(TakeBit, Half, c, b, 8)
  }

  /** The register starts with all ones and is complemented at the end. */
  function Crc(data: seq<Byte>): bv32 {
    Xor(Fold(TakeByte, ONES, data), ONES)
  }

  // ---- facts about single words ------------------------------------------------------------------------

  predicate Odd(c: bv32) {
    c & 1 == 1
  }

  lemma XorMovesRight(a: bv32, b: bv32)
    ensures Half(Xor(a, b)) == Xor(Half(a), Half(b))
  {
  }

  lemma LowBitOfXor(a: bv32, b: bv32)
    ensures Odd(Xor(a, b)) == (Odd(a) != Odd(b))
  {
  }

  lemma PolynomialCancels(x: bv32, y: bv32)
    ensures Xor(Xor(POLYNOMIAL, x), Xor(POLYNOMIAL, y)) == Xor(x, y)
  {
  }

  lemma PolynomialMovesOut(x: bv32, y: bv32)
    ensures Xor(Xor(POLYNOMIAL, x), y) == Xor(POLYNOMIAL, Xor(x, y))
    ensures Xor(x, Xor(POLYNOMIAL, y)) == Xor(POLYNOMIAL, Xor(x, y))
  {
  }

  lemma PolynomialMovesThrough(x: bv32, y: bv32)
    ensures MovesThrough(Xor, POLYNOMIAL, x, y)
  {
    PolynomialCancels(x, y);
    PolynomialMovesOut(x, y);
  }

  lemma ShiftIs(c: bv32, odd: bool, half: bv32)
    requires odd == Odd(c) && half == Half(c)
    ensures Shift(c) == Reduced(Xor, POLYNOMIAL, odd, half)
  {
  }

  lemma TakeBitIs(c: bv32, bits: bv32)
    ensures TakeBit(c, bits) == Reduced(Xor, POLYNOMIAL, Odd(c) != Odd(bits), Half(c))
  {
  }

  lemma ShiftOfXor(a: bv32, b: bv32)
    ensures Shift(Xor(a, b)) == Xor(Shift(a), Shift(b))
  {
    LowBitOfXor(a, b);
    XorMovesRight(a, b);
    ShiftIs(a, Odd(a), Half(a));
    ShiftIs(b, Odd(b), Half(b));
    ShiftIs(Xor(a, b), Odd(a) != Odd(b), Xor(Half(a), Half(b)));
    PolynomialMovesThrough(Half(a), Half(b));
    ReducedMixed(Xor, POLYNOMIAL, Odd(a), Half(a), Odd(b), Half(b));
  }

  lemma TakeOneBit(c: bv32, bits: bv32)
    ensures Shift(Xor(c, bits)) == Xor(TakeBit(c, bits), Half(bits))
  {
    LowBitOfXor(c, bits);
    XorMovesRight(c, bits);
    TakeBitIs(c, bits);
    ShiftIs(Xor(c, bits), Odd(c) != Odd(bits), Xor(Half(c), Half(bits)));
    PolynomialMovesThrough(Half(c), Half(bits));
    ReducedMixed(Xor, POLYNOMIAL, Odd(c) != Odd(bits), Half(c), false, Half(bits));
  }

  lemma ShiftDistributes()
    ensures forall a, b :: Shift(Xor(a, b)) == Xor(Shift(a), Shift(b))
  {
    forall a, b ensures Shift(Xor(a, b)) == Xor(Shift(a), Shift(b)) {
      ShiftOfXor(a, b);
    }
  }

  lemma TakeIsShift()
    ensures forall c, bits :: Shift(Xor(c, bits)) == Xor(TakeBit(c, bits), Half(bits))
  {
    forall c, bits ensures Shift(Xor(c, bits)) == Xor(TakeBit(c, bits), Half(bits)) {
      TakeOneBit(c, bits);
    }
  }

  lemma XorZero(c: bv32)
    ensures Xor(c, 0) == c
  {
  }

  lemma HalvesOfByte(b: Byte)
    ensures Iterate(Half, b, 8) == 0
  {
    IterateEight(Half, b);
    HalfEightTimes(b);
  }

  lemma HalfEightTimes(b: bv32)
    ensures Half(Half(Half(Half(Half(Half(Half(Half(b)))))))) == b >> 8
  {
  }

  lemma ShiftEven(c: bv32)
    requires c & 1 == 0
    ensures Shift(c) == c >> 1
  {
  }

  lemma ShiftTwice(c: bv32)
    requires c & 3 == 0
    ensures Shift(Shift(c)) == c >> 2
  {
    ShiftEven(c);
    ShiftEven(c >> 1);
  }

  lemma ShiftFourTimes(c: bv32)
    requires c & 15 == 0
    ensures Shift(Shift(Shift(Shift(c)))) == c >> 4
  {
    ShiftTwice(c);
    ShiftTwice(c >> 2);
  }

  /** A word whose low byte is zero is only moved right. */
  lemma ShiftsOfHighPart(high: bv32)
    requires high & 0xff == 0
    ensures Iterate(Shift, high, 8) == high >> 8
  {
    IterateEight(Shift, high);
    ShiftFourTimes(high);
    ShiftFourTimes(high >> 4);
  }

  /** Taking a byte in bit by bit is eight shifts of the register with the byte mixed in. */
  lemma ByteIsEightShifts(c: bv32, b: Byte)
    ensures TakeByte(c, b) == Iterate(Shift, Xor(c, b), 8)
  {
    TakeIsShift();
    FeedIsIterate(Shift, Xor, TakeBit, Half, c, b, 8);
    HalvesOfByte(b);
    XorZero(Feed(TakeBit, Half, c, b, 8));
  }

  lemma SplitWord(c: bv32, b: Byte, low: bv32, high: bv32)
    requires low == (c ^ b) & 0xff && high == (c ^ b) & 0xffffff00
    ensures Xor(low, high) == Xor(c, b)
    ensures high & 0xff == 0 && high >> 8 == c >> 8 && low < 256
  {
  }

  /** The table's step: look the low byte up, move the rest right. */
  lemma TableStep(c: bv32, b: Byte, low: bv32)
    requires low == (c ^ b) & 0xff
    ensures Xor(Iterate(Shift, low, 8), c >> 8) == TakeByte(c, b)
  {
    var high := (c ^ b) & 0xffffff00;
    SplitWord(c, b, low, high);
    LookUpAndMove(c, b, low, high);
  }

  lemma LookUpAndMove(c: bv32, b: Byte, low: bv32, high: bv32)
    requires Xor(low, high) == Xor(c, b) && high & 0xff == 0 && high >> 8 == c >> 8
    ensures Xor(Iterate(Shift, low, 8), c >> 8) == TakeByte(c, b)
  {
    ShiftDistributes();
    IterateDistributes(Shift, Xor, low, high, 8);
    ShiftsOfHighPart(high);
    ByteIsEightShifts(c, b);
  }

  // ---- the table and the loop over it --------------------------------------------------------------------

  method TableEntry(n: bv32) returns (c: bv32)
    ensures c == Iterate(Shift, n, 8)
  {
    c := n;
    for k := 0 to 8
      invariant Iterate(Shift, c, 8 - k) == Iterate(Shift, n, 8)
    {
      c := if c & 1 == 1 then POLYNOMIAL ^ (c >> 1) else c >> 1;
    }
  }

  /** The entries of the bytes below `n`. */
  ghost predicate Tabulates(table: seq<bv32>, n: int) {
    |table| == n && forall m: Byte | m as int < n :: table[m as int] == Iterate(Shift, m, 8)
  }

  lemma SameByte(m: Byte, n: int)
    requires 0 <= n < 256 && m as int == n
    ensures m == n as bv32
  {
  }

  lemma OneMoreEntry(table: seq<bv32>, n: int, c: bv32)
    requires 0 <= n < 256 && Tabulates(table, n) && c == Iterate(Shift, n as bv32, 8)
    ensures Tabulates(table + [c], n + 1)
  {
    forall m: Byte | m as int < n + 1 ensures (table + [c])[m as int] == Iterate(Shift, m, 8) {
      if m as int == n {
        SameByte(m, n);
      }
    }
  }

  method CrcTable() returns (table: seq<bv32>)
    ensures Tabulates(table, 256)
  {
    table := [];
    for n := 0 to 256
      invariant Tabulates(table, n)
    {
      var c := TableEntry(n as bv32);
      OneMoreEntry(table, n, c);
      table := table + [c];
    }
  }

  /** One byte through the table. */
  method LookUp(table: seq<bv32>, c: bv32, b: Byte) returns (next: bv32)
    requires Tabulates(table, 256)
    ensures next == TakeByte(c, b)
  {
    var low := (c ^ b) & 0xff;
    var entry := Entry(table, low);
    EntryIs(table, low);
    TableStep(c, b, low);
    next := Xor(entry, c >> 8);
  }

  function Entry(table: seq<bv32>, n: Byte): bv32
    requires |table| == 256
  {
    table[n as int]
  }

  lemma EntryIs(table: seq<bv32>, n: Byte)
    requires Tabulates(table, 256)
    ensures Entry(table, n) == Iterate(Shift, n, 8)
  {
    assert n as int < 256;
  }

  /** The table-driven loop computes the bit-at-a-time CRC. */
  method TableCrc(data: seq<Byte>) returns (crc: bv32)
    ensures crc == Crc(data)
  {
    var table := CrcTable();
    var c := ONES;
    for i := 0 to |data|
      invariant c == Fold(TakeByte, ONES, data[..i])
    {
      FoldOneMore(TakeByte, ONES, data[..i], data[i]);
      assert data[..i + 1] == data[..i] + [data[i]];
      c := LookUp(table, c, data[i]);
    }
    assert data[..|data|] == data;
    crc := Xor(c, ONES);
  }

  // ---- what the CRC is for -------------------------------------------------------------------------------

  lemma ShiftKeepsApart(x: bv32, y: bv32)
    ensures Shift(x) == Shift(y) ==> x == y
  {
  }

  lemma XorKeepsApart(c: bv32, d: bv32, b: bv32)
    ensures Xor(c, b) == Xor(d, b) ==> c == d
    ensures Xor(b, c) == Xor(b, d) ==> c == d
  {
  }

  /** A byte tells apart what came before it, and a register tells apart the byte that comes next. */
  lemma ByteKeepsApart(c: bv32, x: Byte, d: bv32, y: Byte)
    requires c == d || x == y
    ensures TakeByte(c, x) == TakeByte(d, y) ==> c == d && x == y
  {
    ByteIsEightShifts(c, x);
    ByteIsEightShifts(d, y);
    forall v, w ensures Shift(v) == Shift(w) ==> v == w {
      ShiftKeepsApart(v, w);
    }
    IterateInjective(Shift, Xor(c, x), Xor(d, y), 8);
    XorKeepsApart(c, d, x);
    XorKeepsApart(x, y, c);
  }

  /** Changing one byte anywhere always changes the CRC. */
  lemma ChangedByteIsDetected(front: seq<Byte>, x: Byte, y: Byte, back: seq<Byte>)
    requires x != y
    ensures Crc(front + [x] + back) != Crc(front + [y] + back)
  {
    var c := Fold(TakeByte, ONES, front);
    FoldOneMore(TakeByte, ONES, front, x);
    FoldOneMore(TakeByte, ONES, front, y);
    ByteKeepsApart(c, x, c, y);
    forall v, w, b ensures TakeByte(v, b) == TakeByte(w, b) ==> v == w {
      ByteKeepsApart(v, b, w, b);
    }
    FoldKeepsApart(TakeByte, ONES, front + [x], front + [y], back);
    XorKeepsApart(Fold(TakeByte, ONES, front + [x] + back), Fold(TakeByte, ONES, front + [y] + back), ONES);
  }
}
