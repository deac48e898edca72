/** Bytes, fixed-width unsigned integers and the two byte orders used on the wire. */
module Bytes {

  type Byte = b: int | 0 <= b < 0x100
  type U16 = x: int | 0 <= x < 0x1_0000
  type U32 = x: int | 0 <= x < 0x1_0000_0000

  // The little-endian word a packed C struct holds at offset `at`.
  function Le32At(s: seq<Byte>, at: nat): (r: U32)
    requires at + 4 <= |s|
  {
    s[at] as int + 0x100 * s[at + 1] as int + 0x1_0000 * s[at + 2] as int + 0x100_0000 * s[at + 3] as int
  }

  function PutLe32(x: U32): (r: seq<Byte>)
    ensures |r| == 4 && Le32At(r, 0) == x
  {
    var q1 := x / 0x100;
    var q2 := q1 / 0x100;
    [x % 0x100, q1 % 0x100, q2 % 0x100, q2 / 0x100]
  }

  function PutLe16(x: U16): (r: seq<Byte>)
    ensures |r| == 2 && r[0] as int + 0x100 * r[1] as int == x
  {
    [x % 0x100, x / 0x100]
  }

  function Le16At(s: seq<Byte>, at: nat): (r: U16)
    requires at + 2 <= |s|
  {
    s[at] as int + 0x100 * s[at + 1] as int
  }

  // A word inside a longer sequence.
  lemma WordWithin(before: seq<Byte>, s: seq<Byte>, behind: seq<Byte>, at: nat)
    requires at + 4 <= |s|
    ensures Le32At(before + s + behind, |before| + at) == Le32At(s, at)
  {
  }

  lemma HalfWithin(before: seq<Byte>, s: seq<Byte>, behind: seq<Byte>, at: nat)
    requires at + 2 <= |s|
    ensures Le16At(before + s + behind, |before| + at) == Le16At(s, at)
  {
  }

  /** The bytes, lowest first. */
  lemma LowestFirst(x: U32)
    ensures PutLe32(x)[0] == x % 0x100 && PutLe32(x)[3] == x / 0x100_0000
    ensures Le32At([1, 2, 3, 4], 0) == 0x0403_0201 && Le16At([1, 2], 0) == 0x0201 && Be16At([1, 2], 0) == 0x0102
  {
  }

  function Be16At(s: seq<Byte>, at: nat): (r: U16)
    requires at + 2 <= |s|
  {
    0x100 * s[at] as int + s[at + 1] as int
  }

  function PutBe16(x: U16): (r: seq<Byte>)
    ensures |r| == 2 && Be16At(r, 0) == x
  {
    [x / 0x100, x % 0x100]
  }

  function Concat<T>(parts: seq<seq<T>>): (r: seq<T>)
  {
    if parts == [] then [] else parts[0] + Concat(parts[1..])
  }

  lemma {:induction false} ConcatSnoc<T>(parts: seq<seq<T>>, last: seq<T>)
    ensures Concat(parts + [last]) == Concat(parts) + last
  {
    if parts == [] {
      assert Concat([last]) == last + Concat<T>([]);
    } else {
      assert (parts + [last])[1..] == parts[1..] + [last];
      ConcatSnoc(parts[1..], last);
    }
  }
}
