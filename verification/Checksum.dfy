/** The 16-bit one's-complement checksums of the Helios and Mems protocols,
    and how they relate to the Internet checksum of RFC 1071. */
module Checksum {
  import opened Bytes

  // ---------------------------------------------------------------- RFC 1071

  // One's-complement addition: a carry out of bit 15 is added back in.
  function OnesAdd(x: U16, y: U16): (r: U16)
  {
    if x + y < 0x1_0000 then x + y else x + y - 0xFFFF
  }

  // The first 16-bit word of `s`; an odd last byte is padded with zero.
  function FirstWord(s: seq<Byte>): (r: U16)
    requires s != []
  {
    if |s| == 1 then s[0] else s[0] as int + 0x100 * s[1] as int
  }

  function AfterFirstWord(s: seq<Byte>): (r: seq<Byte>)
    requires s != []
    ensures |r| < |s|
  {
    if |s| == 1 then [] else s[2..]
  }

  // RFC 1071, section 1: the one's-complement sum of all the 16-bit words.
  function OnesSum(s: seq<Byte>): (r: U16)
    decreases |s|
  {
    if s == [] then 0 else OnesAdd(FirstWord(s), OnesSum(AfterFirstWord(s)))
  }

  function Rfc1071(s: seq<Byte>): (r: U16)
  {
    0xFFFF - OnesSum(s)
  }

  // ------------------------------------------- What the two C++ forms compute

  // The words of `s` added as integers, with no carry handling at all.
  function WordSum(s: seq<Byte>): (r: nat)
    decreases |s|
  {
    if s == [] then 0 else FirstWord(s) + WordSum(AfterFirstWord(s))
  }

  function FoldOnce(n: nat): (r: nat)
    ensures n >= 0x1_0000 ==> 0 < r < n
  {
    n / 0x1_0000 + n % 0x1_0000
  }

  // Deferred carries: fold until the sum fits in 16 bits.
  function Fold(n: nat): (r: U16)
  {
    if n < 0x1_0000 then n else Fold(FoldOnce(n))
  }

  // Array form: the accumulator is a 32-bit unsigned integer.
  function Accumulated(s: seq<Byte>): (r: U32)
  {
    WordSum(s) % 0x1_0000_0000
  }

  // How often that accumulator overflowed.
  function Wraps(s: seq<Byte>): (r: nat)
  {
    WordSum(s) / 0x1_0000_0000
  }

  function ArrayCheckSum(s: seq<Byte>): (r: U16)
  {
    0xFFFF - Fold(Accumulated(s))
  }

  function HeaderSum(flag: U32, length: U32, cmd: U32): (r: nat)
  {
    flag % 0x1_0000 + flag / 0x1_0000 +
    length % 0x1_0000 + length / 0x1_0000 +
    cmd % 0x1_0000 + cmd / 0x1_0000
  }

  // Header form: one fold only, then truncation of the complement to 16 bits.
  function HeaderCheckSum(flag: U32, length: U32, cmd: U32): (r: U16)
  {
    SingleFold(HeaderSum(flag, length, cmd))
  }

  function SingleFold(n: nat): (r: U16)
  {
    0xFFFF - FoldOnce(n) % 0x1_0000
  }

  function HeaderBytes(flag: U32, length: U32, cmd: U32): (r: seq<Byte>)
    ensures |r| == 12
  {
    PutLe32(flag) + PutLe32(length) + PutLe32(cmd)
  }

  method FoldLoop(start: U32) returns (sum: U32)
    ensures sum == Fold(start)
  {
    sum := start;
    while sum / 0x1_0000 != 0
      invariant Fold(sum) == Fold(start)
      decreases sum
    {
      assert Fold(sum) == Fold(FoldOnce(sum));
      sum := sum / 0x1_0000 + sum % 0x1_0000;
    }
  }

  method WordLoop(data: array<Byte>) returns (sum: U32)
    ensures sum == Accumulated(data[..])
  {
    sum := 0;
    var i := 0;
    var length: nat := data.Length;
    ghost var s := data[..];
    ghost var total: nat := 0;
    while 1 < length
      invariant i + length == |s|
      invariant total + WordSum(s[i..]) == WordSum(s)
      invariant sum == total % 0x1_0000_0000
    {
      var word: U16 := data[i] as int + 0x100 * data[i + 1] as int;
      assert FirstWord(s[i..]) == word && AfterFirstWord(s[i..]) == s[i + 2..];
      WrapAdd(total, word);
      total := total + word;
      sum := (sum + word) % 0x1_0000_0000;
      length := length - 2;
      i := i + 2;
    }
    if length != 0 {
      assert FirstWord(s[i..]) == data[i] && AfterFirstWord(s[i..]) == [];
      WrapAdd(total, data[i]);
      sum := (sum + data[i]) % 0x1_0000_0000;
    }
  }

  lemma WrapAdd(total: nat, word: U16)
    ensures (total % 0x1_0000_0000 + word) % 0x1_0000_0000 == (total + word) % 0x1_0000_0000
  {
  }

  /** The array checksum as the source computes it: words added into a 32-bit accumulator, then folded. */
  method ComputeArrayCheckSum(data: array<Byte>) returns (r: U16)
    ensures r == ArrayCheckSum(data[..])
  {
    var sum := WordLoop(data);
    var folded := FoldLoop(sum);
    r := 0xFFFF - folded;
  }

  // ------------------------------------------------------------------ Results

  // A 16-bit value is fixed by its residue mod 65535 and by whether it is zero.
  lemma ResidueUnique(x: U16, y: U16)
    requires x % 0xFFFF == y % 0xFFFF
    requires x == 0 <==> y == 0
    ensures x == y
  {
  }

  lemma ResidueShift(x: int, k: int)
    ensures (x + k * 0xFFFF) % 0xFFFF == x % 0xFFFF
  {
  }

  lemma {:induction false} FoldResidue(n: nat)
    ensures Fold(n) % 0xFFFF == n % 0xFFFF
    ensures Fold(n) == 0 <==> n == 0
  {
    if n >= 0x1_0000 {
      FoldResidue(FoldOnce(n));
      ResidueShift(FoldOnce(n), n / 0x1_0000);
      assert FoldOnce(n) + n / 0x1_0000 * 0xFFFF == n;
    }
  }

  lemma {:induction false} OnesSumResidue(s: seq<Byte>)
    ensures OnesSum(s) % 0xFFFF == WordSum(s) % 0xFFFF
    ensures OnesSum(s) == 0 <==> WordSum(s) == 0
    decreases |s|
  {
    if s != [] {
      OnesSumResidue(AfterFirstWord(s));
      OnesAddResidue(FirstWord(s), OnesSum(AfterFirstWord(s)), WordSum(AfterFirstWord(s)));
    }
  }

  lemma OnesAddResidue(word: U16, sum: U16, total: nat)
    requires sum % 0xFFFF == total % 0xFFFF
    ensures OnesAdd(word, sum) % 0xFFFF == (word + total) % 0xFFFF
  {
  }

  /** Deferred carries are sound: folding the integer sum gives the RFC 1071 sum. */
  lemma FoldIsOnesSum(s: seq<Byte>)
    ensures Fold(WordSum(s)) == OnesSum(s)
  {
    OnesSumResidue(s);
    FoldResidue(WordSum(s));
    ResidueUnique(Fold(WordSum(s)), OnesSum(s));
  }

  lemma {:induction false} WordSumBound(s: seq<Byte>)
    ensures WordSum(s) <= (|s| + 1) / 2 * 0xFFFF
    ensures |s| % 2 == 1 ==> WordSum(s) <= |s| / 2 * 0xFFFF + 0xFF
    decreases |s|
  {
    if s != [] {
      WordSumBound(AfterFirstWord(s));
    }
  }

  /** 2^32 is 1 mod 65535, so dropping `wraps` carries out of 32 bits lowers the
      folded value by exactly `wraps`, counted mod 65535. */
  lemma DroppedCarries(w: nat, low: nat, wraps: nat)
    requires w == wraps * 0x1_0000_0000 + low
    ensures Fold(low) % 0xFFFF == (w - wraps) % 0xFFFF
  {
    FoldResidue(low);
    ResidueShift(low, wraps * 0x1_0001);
    assert low + wraps * 0x1_0001 * 0xFFFF == w - wraps;
  }

  // Between one and 65534 lost carries always show in the residue.
  lemma DriftShows(w: int, wraps: int, f: int, g: int)
    requires 0 < wraps < 0xFFFF
    requires f % 0xFFFF == (w - wraps) % 0xFFFF
    requires g % 0xFFFF == w % 0xFFFF
    ensures f != g
  {
  }

  lemma FewWraps(s: seq<Byte>)
    requires |s| < 0x8000_0000
    ensures WordSum(s) < 0xFFFF * 0x1_0000_0000
  {
    WordSumBound(s);
  }

  lemma ArrayCheckSumDrift(s: seq<Byte>)
    ensures (0xFFFF - ArrayCheckSum(s)) % 0xFFFF == (WordSum(s) - Wraps(s)) % 0xFFFF
  {
    DroppedCarries(WordSum(s), Accumulated(s), Wraps(s));
  }

  /** For every array a C int can measure, the checksum is that of RFC 1071
      if and only if the 32-bit accumulator did not wrap. */
  lemma ArrayCheckSumExact(s: seq<Byte>)
    requires |s| < 0x8000_0000
    ensures ArrayCheckSum(s) == Rfc1071(s) <==> WordSum(s) < 0x1_0000_0000
  {
    FoldIsOnesSum(s);
    FewWraps(s);
    LostCarriesShow(WordSum(s), Accumulated(s), Wraps(s));
  }

  lemma LostCarriesShow(w: nat, low: U32, wraps: nat)
    requires w == wraps * 0x1_0000_0000 + low
    requires wraps < 0xFFFF
    ensures Fold(low) == Fold(w) <==> wraps == 0
  {
    if wraps > 0 {
      DroppedCarries(w, low, wraps);
      FoldResidue(w);
      DriftShows(w, wraps, Fold(low), Fold(w));
    }
  }

  /** Up to 131,074 bytes the sum never wraps. */
  lemma NoWrapUpTo131074(s: seq<Byte>)
    requires |s| <= 131074
    ensures ArrayCheckSum(s) == Rfc1071(s)
  {
    WordSumBound(s);
    ArrayCheckSumExact(s);
  }

  function AllOnes(n: nat): (s: seq<Byte>)
    ensures |s| == n
  {
    seq(n, _ => 0xFF)
  }

  lemma {:induction false} AllOnesWordSum(n: nat)
    ensures WordSum(AllOnes(n)) == n / 2 * 0xFFFF + n % 2 * 0xFF
  {
    AllOnesStep(n);
    hide WordSum, AllOnes;
    if n >= 2 {
      AllOnesWordSum(n - 2);
    }
  }

  lemma AllOnesStep(n: nat)
    ensures n >= 2 ==> WordSum(AllOnes(n)) == 0xFFFF + WordSum(AllOnes(n - 2))
    ensures WordSum(AllOnes(0)) == 0 && WordSum(AllOnes(1)) == 0xFF
  {
    assert AfterFirstWord(AllOnes(1)) == [];
    if n >= 2 {
      assert FirstWord(AllOnes(n)) == 0xFFFF && AfterFirstWord(AllOnes(n)) == AllOnes(n - 2);
    }
  }

  /** From 131,075 bytes on, for every size, there is an array with a wrong checksum. */
  lemma WrapFrom131075(n: nat)
    requires 131075 <= n < 0x8000_0000
    ensures ArrayCheckSum(AllOnes(n)) != Rfc1071(AllOnes(n))
  {
    AllOnesWordSum(n);
    ArrayCheckSumExact(AllOnes(n));
  }

  ghost predicate AlwaysExact(n: nat)
  {
    forall s: seq<Byte> :: |s| == n ==> ArrayCheckSum(s) == Rfc1071(s)
  }

  /** 131,074 bytes is the largest size at which the checksum is always that of RFC 1071. */
  lemma SafeSizes(n: nat)
    requires n < 0x8000_0000
    ensures AlwaysExact(n) <==> n <= 131074
  {
    hide ArrayCheckSum, Rfc1071;
    if n <= 131074 {
      forall s: seq<Byte> | |s| == n
        ensures ArrayCheckSum(s) == Rfc1071(s)
      {
        NoWrapUpTo131074(s);
      }
    } else {
      WrapFrom131075(n);
    }
  }

  /** Words are little-endian, and an odd last byte counts for itself. */
  lemma {:induction false} OddTail(s: seq<Byte>, b: Byte)
    requires |s| % 2 == 0
    ensures WordSum(s + [b]) == WordSum(s) + b
    ensures ArrayCheckSum(s + [b]) == 0xFFFF - Fold((WordSum(s) + b) % 0x1_0000_0000)
    decreases |s|
  {
    if s == [] {
      assert AfterFirstWord([b]) == [] && s + [b] == [b];
    } else {
      assert AfterFirstWord(s + [b]) == s[2..] + [b] && AfterFirstWord(s) == s[2..];
      OddTail(s[2..], b);
    }
  }

  lemma WordSumOfPair(x: Byte, y: Byte, s: seq<Byte>)
    ensures WordSum([x, y] + s) == x + 0x100 * y + WordSum(s)
  {
    assert AfterFirstWord([x, y] + s) == s;
  }

  /** The numerical example of RFC 1071, section 3, in swapped byte order: the sum of 00 01 F2 03
      F4 F5 F6 F7 is F2DD, so the checksum is 0D22. */
  lemma Rfc1071Example()
    ensures OnesSum([0x00, 0x01, 0xF2, 0x03, 0xF4, 0xF5, 0xF6, 0xF7]) == 0xF2DD
    ensures ArrayCheckSum([0x00, 0x01, 0xF2, 0x03, 0xF4, 0xF5, 0xF6, 0xF7]) == 0x0D22
  {
    var s: seq<Byte> := [0x00, 0x01, 0xF2, 0x03, 0xF4, 0xF5, 0xF6, 0xF7];
    assert s == [0x00, 0x01] + ([0xF2, 0x03] + ([0xF4, 0xF5] + ([0xF6, 0xF7] + [])));
    WordSumOfPair(0x00, 0x01, [0xF2, 0x03] + ([0xF4, 0xF5] + ([0xF6, 0xF7] + [])));
    WordSumOfPair(0xF2, 0x03, [0xF4, 0xF5] + ([0xF6, 0xF7] + []));
    WordSumOfPair(0xF4, 0xF5, [0xF6, 0xF7] + []);
    WordSumOfPair(0xF6, 0xF7, []);
    assert WordSum(s) == 0x1_F2DC;
    FoldIsOnesSum(s);
    NoWrapUpTo131074(s);
    assert FoldOnce(0x1_F2DC) == 0xF2DD && Fold(0x1_F2DC) == Fold(0xF2DD);
  }

  lemma HeaderWordSum(flag: U32, length: U32, cmd: U32)
    ensures WordSum(HeaderBytes(flag, length, cmd)) == HeaderSum(flag, length, cmd)
  {
    var h := HeaderBytes(flag, length, cmd);
    WordSumOfWord(flag, PutLe32(length) + PutLe32(cmd));
    WordSumOfWord(length, PutLe32(cmd));
    WordSumOfWord(cmd, []);
    assert PutLe32(cmd) + [] == PutLe32(cmd);
    assert h == PutLe32(flag) + (PutLe32(length) + PutLe32(cmd));
  }

  lemma WordSumOfWord(x: U32, rest: seq<Byte>)
    ensures WordSum(PutLe32(x) + rest) == x % 0x1_0000 + x / 0x1_0000 + WordSum(rest)
  {
    var s := PutLe32(x) + rest;
    assert AfterFirstWord(s) == s[2..];
    assert AfterFirstWord(s[2..]) == rest;
  }

  /** The header form is the array form on the twelve header bytes, except exactly
      when one fold still leaves a carry: then it is larger by one. */
  lemma HeaderFormVersusArrayForm(flag: U32, length: U32, cmd: U32)
    ensures HeaderCheckSum(flag, length, cmd) == ArrayCheckSum(HeaderBytes(flag, length, cmd)) +
            if FoldOnce(HeaderSum(flag, length, cmd)) >= 0x1_0000 then 1 else 0
  {
    HeaderWordSum(flag, length, cmd);
    HeaderSumBound(flag, length, cmd);
    FormsCompared(HeaderBytes(flag, length, cmd), HeaderSum(flag, length, cmd));
  }

  lemma FormsCompared(s: seq<Byte>, n: nat)
    requires WordSum(s) == n <= 6 * 0xFFFF
    ensures SingleFold(n) == ArrayCheckSum(s) + if FoldOnce(n) >= 0x1_0000 then 1 else 0
  {
    hide WordSum, FoldOnce, Fold;
    assert Accumulated(s) == n;
    FoldTwice(n);
    LowHalf(FoldOnce(n));
  }

  lemma LowHalf(n: nat)
    requires n < 0x2_0000
    ensures n % 0x1_0000 == if n < 0x1_0000 then n else n - 0x1_0000
  {
  }

  lemma HeaderSumBound(flag: U32, length: U32, cmd: U32)
    ensures HeaderSum(flag, length, cmd) <= 6 * 0xFFFF
  {
  }

  lemma FoldOnceSplit(hi: nat, lo: U16)
    ensures FoldOnce(hi * 0x1_0000 + lo) == hi + lo
  {
  }

  lemma FoldTwice(n: nat)
    requires n <= 6 * 0xFFFF
    ensures Fold(n) == if FoldOnce(n) < 0x1_0000 then FoldOnce(n) else FoldOnce(n) - 0xFFFF
    ensures FoldOnce(n) < 0x1_0005
  {
    var hi, lo := n / 0x1_0000, n % 0x1_0000;
    FoldOnceSplit(hi, lo);
    if n < 0x1_0000 {
    } else if hi + lo < 0x1_0000 {
    } else {
      FoldOnceSplit(1, hi + lo - 0x1_0000);
    }
  }

  /** A frame whose command is an acknowledgement or a request (at most 0x150) and whose
      length is below 2^31 always carries the checksum of RFC 1071 in its header. */
  lemma HeaderFormIsRfc1071(flag: U32, length: U32, cmd: U32)
    requires flag == 0x55AA_2552 || flag == 0x1234_5678
    requires cmd <= 0x150 && length < 0x8000_0000
    ensures HeaderCheckSum(flag, length, cmd) == Rfc1071(HeaderBytes(flag, length, cmd))
  {
    SmallHeaderSum(flag, length, cmd);
    NoSecondCarry(HeaderSum(flag, length, cmd));
    HeaderFormVersusArrayForm(flag, length, cmd);
    NoWrapUpTo131074(HeaderBytes(flag, length, cmd));
  }

  lemma NoSecondCarry(n: nat)
    requires n <= 0x1_FFFE
    ensures FoldOnce(n) < 0x1_0000
  {
  }

  lemma SmallHeaderSum(flag: U32, length: U32, cmd: U32)
    requires flag == 0x55AA_2552 || flag == 0x1234_5678
    requires cmd <= 0x150 && length < 0x8000_0000
    ensures HeaderSum(flag, length, cmd) <= 0x1_FFFE
  {
    assert flag % 0x1_0000 + flag / 0x1_0000 <= 0x7AFC;
    assert length / 0x1_0000 < 0x8000;
    assert cmd / 0x1_0000 == 0 && cmd % 0x1_0000 == cmd;
  }
}
