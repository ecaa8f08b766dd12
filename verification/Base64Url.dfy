/** Unpadded base64url (section 5 of RFC 4648) with its strict, canonical decoder. */
module Base64Url {
  import opened Results
  import opened ByteStrings

  function Digit(value: int): (c: char)
    requires 0 <= value < 64
    ensures Value(c) == Some(value)
  {
    if value < 26 then ('A' as int + value) as char
    else if value < 52 then ('a' as int + value - 26) as char
    else if value < 62 then ('0' as int + value - 52) as char
    else if value == 62 then '-'
    else '_'
  }

  function Value(c: char): (value: Option<int>)
    ensures value.Some? ==> 0 <= value.value < 64
  {
    if 'A' <= c <= 'Z' then Some(c as int - 'A' as int)
    else if 'a' <= c <= 'z' then Some(c as int - 'a' as int + 26)
    else if '0' <= c <= '9' then Some(c as int - '0' as int + 52)
    else if c == '-' then Some(62)
    else if c == '_' then Some(63)
    else None
  }

  lemma DigitOfValue(c: char)
    requires Value(c).Some?
    ensures Digit(Value(c).value) == c
  {
  }

  type Sextet = v: int | 0 <= v < 64

  /** Three bytes as four six-bit digits. */
  function Split(x: Byte, y: Byte, z: Byte): (Sextet, Sextet, Sextet, Sextet) {
    (x / 4, x % 4 * 16 + y / 16, y % 16 * 4 + z / 64, z % 64)
  }

  function Join(a: Sextet, b: Sextet, c: Sextet, d: Sextet): (Byte, Byte, Byte) {
    (a * 4 + b / 16, b % 16 * 16 + c / 4, c % 4 * 64 + d)
  }

  lemma JoinOfSplit(x: Byte, y: Byte, z: Byte)
    ensures var (a, b, c, d) := Split(x, y, z); Join(a, b, c, d) == (x, y, z)
  {
    var b, c := x % 4 * 16 + y / 16, y % 16 * 4 + z / 64;
    assert b / 16 == x % 4 && b % 16 == y / 16;
    assert c / 4 == y % 16 && c % 4 == z / 64;
  }

  lemma SplitOfJoin(a: Sextet, b: Sextet, c: Sextet, d: Sextet)
    ensures var (x, y, z) := Join(a, b, c, d); Split(x, y, z) == (a, b, c, d)
  {
    var x, y, z := a * 4 + b / 16, b % 16 * 16 + c / 4, c % 4 * 64 + d;
    assert x / 4 == a && x % 4 == b / 16;
    assert y / 16 == b % 16 && y % 16 == c / 4;
    assert z / 64 == c % 4 && z % 64 == d;
  }

  /** The four digits hold the 24 bits of the three bytes, most significant first. */
  lemma SplitKeepsValue(x: Byte, y: Byte, z: Byte)
    ensures var (a, b, c, d) := Split(x, y, z); ((a * 64 + b) * 64 + c) * 64 + d == (x * 256 + y) * 256 + z
  {
    var (a, b, c, d) := Split(x, y, z);
    assert a * 4 + b / 16 == x && b % 16 * 16 + c / 4 == y && c % 4 * 64 + d == z by { JoinOfSplit(x, y, z); }
    assert b == 16 * (b / 16) + b % 16 && c == 4 * (c / 4) + c % 4;
  }

  function Digits(a: Sextet, b: Sextet, c: Sextet, d: Sextet): (text: string)
    ensures |text| == 4
  {
    [Digit(a), Digit(b), Digit(c), Digit(d)]
  }

  function Encode(bytes: Bytes): string {
    if |bytes| == 0 then []
    else if |bytes| == 1 then
      var (a, b, _, _) := Split(bytes[0], 0, 0);
      [Digit(a), Digit(b)]
    else if |bytes| == 2 then
      var (a, b, c, _) := Split(bytes[0], bytes[1], 0);
      [Digit(a), Digit(b), Digit(c)]
    else
      var (a, b, c, d) := Split(bytes[0], bytes[1], bytes[2]);
      Digits(a, b, c, d) + Encode(bytes[3..])
  }

  /** None for anything `Encode` does not write: stray characters, padding, wrong lengths, spare bits. */
  function Decode(text: string): (r: Option<Bytes>)
    decreases |text|
  {
    if |text| == 0 then Some([])
    else if |text| == 1 then None
    else if |text| == 2 then
      var a :- Value(text[0]);
      var b :- Value(text[1]);
      var (x, y, _) := Join(a, b, 0, 0);
      if y == 0 then Some([x]) else None
    else if |text| == 3 then
      var a :- Value(text[0]);
      var b :- Value(text[1]);
      var c :- Value(text[2]);
      var (x, y, z) := Join(a, b, c, 0);
      if z == 0 then Some([x, y]) else None
    else
      var a :- Value(text[0]);
      var b :- Value(text[1]);
      var c :- Value(text[2]);
      var d :- Value(text[3]);
      var rest :- Decode(text[4..]);
      var (x, y, z) := Join(a, b, c, d);
      Some([x, y, z] + rest)
  }

  lemma DecodeGroup(a: Sextet, b: Sextet, c: Sextet, d: Sextet, more: string)
    requires Decode(more).Some?
    ensures var (x, y, z) := Join(a, b, c, d); Decode(Digits(a, b, c, d) + more) == Some([x, y, z] + Decode(more).value)
  {
    var text := Digits(a, b, c, d) + more;
    assert text[0] == Digit(a) && text[1] == Digit(b) && text[2] == Digit(c) && text[3] == Digit(d);
    assert text[4..] == more;
  }

  lemma DecodeTwo(a: Sextet, b: Sextet)
    ensures var (x, y, _) := Join(a, b, 0, 0); Decode([Digit(a), Digit(b)]) == if y == 0 then Some([x]) else None
  {
    var text := [Digit(a), Digit(b)];
    assert Value(text[0]) == Some(a) && Value(text[1]) == Some(b);
  }

  lemma DecodeThree(a: Sextet, b: Sextet, c: Sextet)
    ensures var (x, y, z) := Join(a, b, c, 0);
      Decode([Digit(a), Digit(b), Digit(c)]) == if z == 0 then Some([x, y]) else None
  {
    var text := [Digit(a), Digit(b), Digit(c)];
    assert Value(text[0]) == Some(a) && Value(text[1]) == Some(b) && Value(text[2]) == Some(c);
  }

  lemma DecodeOfOne(x: Byte)
    ensures Decode(Encode([x])) == Some([x])
  {
    var (a, b, c, d) := Split(x, 0, 0);
    JoinOfSplit(x, 0, 0);
    assert c == 0 && d == 0;
    DecodeTwo(a, b);
  }

  lemma DecodeOfTwo(x: Byte, y: Byte)
    ensures Decode(Encode([x, y])) == Some([x, y])
  {
    var (a, b, c, d) := Split(x, y, 0);
    JoinOfSplit(x, y, 0);
    assert d == 0;
    DecodeThree(a, b, c);
  }

  lemma DecodeOfMore(bytes: Bytes)
    requires |bytes| > 2 && Decode(Encode(bytes[3..])) == Some(bytes[3..])
    ensures Decode(Encode(bytes)) == Some(bytes)
  {
    var (a, b, c, d) := Split(bytes[0], bytes[1], bytes[2]);
    JoinOfSplit(bytes[0], bytes[1], bytes[2]);
    DecodeGroup(a, b, c, d, Encode(bytes[3..]));
    assert Encode(bytes) == Digits(a, b, c, d) + Encode(bytes[3..]);
    assert bytes == [bytes[0], bytes[1], bytes[2]] + bytes[3..];
  }

  lemma {:induction false} DecodeOfEncode(bytes: Bytes)
    ensures Decode(Encode(bytes)) == Some(bytes)
    decreases |bytes|
  {
    if |bytes| == 1 {
      assert bytes == [bytes[0]];
      DecodeOfOne(bytes[0]);
    } else if |bytes| == 2 {
      assert bytes == [bytes[0], bytes[1]];
      DecodeOfTwo(bytes[0], bytes[1]);
    } else if |bytes| > 2 {
      DecodeOfEncode(bytes[3..]);
      DecodeOfMore(bytes);
    }
  }

  lemma {:induction false} EncodeOfDecode(text: string)
    requires Decode(text).Some?
    ensures Encode(Decode(text).value) == text
    decreases |text|
  {
    if |text| == 2 {
      var a, b := Value(text[0]).value, Value(text[1]).value;
      SplitOfJoin(a, b, 0, 0);
      DigitOfValue(text[0]);
      DigitOfValue(text[1]);
    } else if |text| == 3 {
      var a, b, c := Value(text[0]).value, Value(text[1]).value, Value(text[2]).value;
      SplitOfJoin(a, b, c, 0);
      DigitOfValue(text[0]);
      DigitOfValue(text[1]);
      DigitOfValue(text[2]);
    } else if |text| >= 4 {
      EncodeOfDecode(text[4..]);
      var a, b, c, d := Value(text[0]).value, Value(text[1]).value, Value(text[2]).value, Value(text[3]).value;
      SplitOfJoin(a, b, c, d);
      var bytes, rest := Decode(text).value, Decode(text[4..]).value;
      assert bytes[3..] == rest;
      DigitOfValue(text[0]);
      DigitOfValue(text[1]);
      DigitOfValue(text[2]);
      DigitOfValue(text[3]);
      assert Encode(bytes) == Digits(a, b, c, d) + Encode(rest);
      assert text == text[..4] + text[4..];
      assert Digits(a, b, c, d) == text[..4];
    }
  }

  lemma {:induction false} EncodeHasNoColon(bytes: Bytes)
    ensures ':' !in Encode(bytes)
    decreases |bytes|
  {
    if |bytes| > 2 {
      EncodeHasNoColon(bytes[3..]);
    }
  }

  /** The canonical text of exactly `length` bytes. */
  predicate IsText(text: string, length: nat) {
    Decode(text).Some? && |Decode(text).value| == length
  }
}
