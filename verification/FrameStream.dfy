/** The framing that Helios and Mems lidars share: a 16-byte header (flag, length, command,
    header checksum, all little-endian) followed by `length` payload bytes, and the
    resynchronising decoder that `ParseRecvTcpData` runs over a TCP byte stream. */
module FrameStream {
  import opened Bytes
  import opened Checksum

  const HELIOS_FRAME_FLAG: U32 := 0x55AA_2552
  const MEMS_FRAME_FLAG: U32 := 0x1234_5678
  const HEAD_SIZE := 16

  type FrameFlag = f: U32 | f == HELIOS_FRAME_FLAG || f == MEMS_FRAME_FLAG witness HELIOS_FRAME_FLAG

  datatype Frame = Frame(cmd: U32, payload: seq<Byte>)

  // A frame whose payload length fits the 32-bit length field.
  type WireFrame = f: Frame | |f.payload| < 0x1_0000_0000 witness Frame(0, [])

  // ----------------------------------------------------------------- Encoding

  function FrameHeadPack(flag: U32, cmd: U32, length: U32): (r: seq<Byte>)
    ensures |r| == HEAD_SIZE
  {
    PutLe32(flag) + PutLe32(length) + PutLe32(cmd) + PutLe32(HeaderCheckSum(flag, length, cmd))
  }

  function Encode(flag: U32, f: WireFrame): (r: seq<Byte>)
    ensures |r| == HEAD_SIZE + |f.payload|
  {
    FrameHeadPack(flag, f.cmd, |f.payload|) + f.payload
  }

  function EncodeAll(flag: U32, frames: seq<WireFrame>): (r: seq<Byte>)
  {
    if frames == [] then [] else Encode(flag, frames[0]) + EncodeAll(flag, frames[1..])
  }

  // ----------------------------------------------------------------- Decoding

  predicate FlagAt(flag: U32, s: seq<Byte>, at: nat)
  {
    at + HEAD_SIZE <= |s| && Le32At(s, at) == flag
  }

  // A header starts at `at`: the flag is there and the header checksum matches.
  predicate HeaderAt(flag: U32, s: seq<Byte>, at: nat)
  {
    FlagAt(flag, s, at) &&
    Le32At(s, at + 12) == HeaderCheckSum(flag, Le32At(s, at + 4), Le32At(s, at + 8))
  }

  datatype Step =
    | Wait                           // more bytes are needed
    | Skip(count: nat)               // drop bytes and look again
    | Take(frame: Frame, size: nat)  // a complete frame leads the buffer

  // What the parser does with the front of its buffer.
  function Next(flag: U32, s: seq<Byte>): (r: Step)
    ensures r.Skip? ==> 0 < r.count <= |s|
    ensures r.Take? ==> 0 < r.size <= |s|
  {
    if |s| < HEAD_SIZE then Wait
    else if !FlagAt(flag, s, 0) then Skip(1)
    else if !HeaderAt(flag, s, 0) then Skip(4)
    else
      var size := HEAD_SIZE + Le32At(s, 4);
      if size > |s| then Wait else Take(Frame(Le32At(s, 8), s[HEAD_SIZE..size]), size)
  }

  datatype Decoded = Decoded(frames: seq<Frame>, rest: seq<Byte>)

  // One call of the parser: the frames it dispatches and the bytes it keeps.
  function Decode(flag: U32, s: seq<Byte>): (r: Decoded)
    decreases |s|
  {
    match Next(flag, s)
    case Wait => Decoded([], s)
    case Skip(n) => Decode(flag, s[n..])
    case Take(f, n) => var d := Decode(flag, s[n..]); Decoded([f] + d.frames, d.rest)
  }

  // Successive reads: every chunk is appended to the kept bytes, then the parser runs.
  function Feed(flag: U32, rest: seq<Byte>, chunks: seq<seq<Byte>>): (r: Decoded)
    decreases |chunks|
  {
    if chunks == [] then Decoded([], rest)
    else
      var d := Decode(flag, rest + chunks[0]);
      var e := Feed(flag, d.rest, chunks[1..]);
      Decoded(d.frames + e.frames, e.rest)
  }

  // ------------------------------------------------------- Chunk independence

  lemma NextStable(flag: U32, s: seq<Byte>, more: seq<Byte>)
    requires !Next(flag, s).Wait?
    ensures Next(flag, s + more) == Next(flag, s)
  {
    if Next(flag, s).Take? {
      var n := Next(flag, s).size;
      assert (s + more)[HEAD_SIZE..n] == s[HEAD_SIZE..n];
    }
  }

  lemma {:induction false} DecodeAppend(flag: U32, s: seq<Byte>, more: seq<Byte>)
    ensures var d := Decode(flag, s);
            var e := Decode(flag, d.rest + more);
            Decode(flag, s + more) == Decoded(d.frames + e.frames, e.rest)
    decreases |s|
  {
    hide Next;
    if !Next(flag, s).Wait? {
      NextStable(flag, s, more);
      var n := if Next(flag, s).Skip? then Next(flag, s).count else Next(flag, s).size;
      assert (s + more)[n..] == s[n..] + more;
      DecodeAppend(flag, s[n..], more);
    }
  }

  lemma {:induction false} FeedFrom(flag: U32, s: seq<Byte>, chunks: seq<seq<Byte>>)
    ensures var d := Decode(flag, s);
            var e := Feed(flag, d.rest, chunks);
            Decode(flag, s + Concat(chunks)) == Decoded(d.frames + e.frames, e.rest)
    decreases |chunks|
  {
    hide Decode;
    if chunks == [] {
      assert s + [] == s;
    } else {
      DecodeAppend(flag, s, chunks[0]);
      FeedFrom(flag, s + chunks[0], chunks[1..]);
      assert s + Concat(chunks) == s + chunks[0] + Concat(chunks[1..]);
    }
  }

  /** However TCP splits the stream into reads, the parser dispatches the same frames
      and keeps the same bytes as one call on the whole stream. */
  lemma ChunkIndependence(flag: U32, chunks: seq<seq<Byte>>)
    ensures Feed(flag, [], chunks) == Decode(flag, Concat(chunks))
  {
    assert Decode(flag, []) == Decoded([], []);
    hide Decode, Feed, Concat;
    FeedFrom(flag, [], chunks);
    assert [] + Concat(chunks) == Concat(chunks);
  }

  // ------------------------------------------------------------------- Resync

  // The exhaustive reference: without a header, move on by a single byte.
  function ScanDecode(flag: U32, s: seq<Byte>): (r: seq<Frame>)
    decreases |s|
  {
    if |s| < HEAD_SIZE then []
    else if !HeaderAt(flag, s, 0) then ScanDecode(flag, s[1..])
    else
      var size := HEAD_SIZE + Le32At(s, 4);
      if size > |s| then []
      else [Frame(Le32At(s, 8), s[HEAD_SIZE..size])] + ScanDecode(flag, s[size..])
  }

  // The flag bytes have no proper border: the first one does not occur again.
  lemma FlagHasNoBorder(flag: FrameFlag, s: seq<Byte>, at: nat, j: nat)
    requires FlagAt(flag, s, at)
    requires at < j < at + 4
    ensures !FlagAt(flag, s, j)
  {
    FlagFirstByte(flag, s, at);
    if FlagAt(flag, s, j) {
      FlagFirstByte(flag, s, j);
    }
  }

  lemma FlagFirstByte(flag: FrameFlag, s: seq<Byte>, at: nat)
    requires FlagAt(flag, s, at)
    ensures s[at] == flag % 0x100
    ensures s[at + 1] != s[at] && s[at + 2] != s[at] && s[at + 3] != s[at]
  {
    PutBack(s, at);
    var bytes := PutLe32(flag);
    assert bytes == s[at..at + 4];
    assert bytes == if flag == HELIOS_FRAME_FLAG then [0x52, 0x25, 0xAA, 0x55] else [0x78, 0x56, 0x34, 0x12];
  }

  lemma {:induction false} ScanSkips(flag: FrameFlag, s: seq<Byte>, at: nat)
    requires FlagAt(flag, s, 0) && 0 < at <= 4
    ensures ScanDecode(flag, s[at..]) == ScanDecode(flag, s[4..])
    decreases 4 - at
  {
    if at < 4 {
      if |s[at..]| >= HEAD_SIZE {
        FlagHasNoBorder(flag, s, 0, at);
        assert s[at..][1..] == s[at + 1..];
      }
      ScanSkips(flag, s, at + 1);
    }
  }

  /** Dropping four bytes at a bad header checksum loses nothing: the parser dispatches
      exactly the frames of the byte-by-byte scan, on every byte stream. */
  lemma {:induction false} ResyncRefinesScan(flag: FrameFlag, s: seq<Byte>)
    ensures Decode(flag, s).frames == ScanDecode(flag, s)
    decreases |s|
  {
    match Next(flag, s)
    case Wait =>
    case Skip(n) =>
      if n == 4 {
        ScanSkips(flag, s, 1);
      }
      ResyncRefinesScan(flag, s[n..]);
    case Take(_, n) =>
      ResyncRefinesScan(flag, s[n..]);
  }

  // How many bytes the parser drops before it dispatches a frame or waits.
  function Dropped(flag: U32, s: seq<Byte>): (r: nat)
    ensures r <= |s|
    decreases |s|
  {
    match Next(flag, s)
    case Skip(n) => n + Dropped(flag, s[n..])
    case _ => 0
  }

  /** The parser stops at the first header of the stream: no header starts at a dropped
      offset, whatever bytes follow, and if 16 bytes are left they are a header. */
  lemma {:induction false} StopsAtFirstHeader(flag: FrameFlag, s: seq<Byte>, more: seq<Byte>)
    ensures forall j: nat :: j < Dropped(flag, s) ==> !HeaderAt(flag, s + more, j)
    ensures |s| - Dropped(flag, s) >= HEAD_SIZE ==> HeaderAt(flag, s, Dropped(flag, s))
    decreases |s|
  {
    hide HeaderCheckSum, Le32At;
    if Next(flag, s).Skip? {
      var n := Next(flag, s).count;
      StopsAtFirstHeader(flag, s[n..], more);
      NextStable(flag, s, more);
      forall j: nat | j < Dropped(flag, s)
        ensures !HeaderAt(flag, s + more, j)
      {
        if j >= n {
          HeaderShift(flag, s + more, n, j - n);
          assert (s + more)[n..] == s[n..] + more;
        } else if j > 0 {
          FlagHasNoBorder(flag, s + more, 0, j);
        }
      }
      if |s| - Dropped(flag, s) >= HEAD_SIZE {
        HeaderShift(flag, s, n, Dropped(flag, s[n..]));
      }
    }
  }

  lemma HeaderShift(flag: U32, s: seq<Byte>, n: nat, j: nat)
    requires n <= |s|
    ensures HeaderAt(flag, s[n..], j) == HeaderAt(flag, s, n + j)
  {
    hide HeaderCheckSum;
  }

  // --------------------------------------------------------------- Round trip

  lemma EncodedHeader(flag: U32, f: WireFrame, tail: seq<Byte>)
    ensures var s := Encode(flag, f) + tail;
            HeaderAt(flag, s, 0) && Le32At(s, 4) == |f.payload| && Le32At(s, 8) == f.cmd
  {
    hide HeaderCheckSum, FrameHeadPack, Le32At;
    HeadWords(flag, f.cmd, |f.payload|);
    var head := FrameHeadPack(flag, f.cmd, |f.payload|);
    WordInFront(head, f.payload, tail, 0);
    WordInFront(head, f.payload, tail, 4);
    WordInFront(head, f.payload, tail, 8);
    WordInFront(head, f.payload, tail, 12);
  }

  lemma WordInFront(head: seq<Byte>, payload: seq<Byte>, tail: seq<Byte>, at: nat)
    requires at + 4 <= |head|
    ensures Le32At(head + payload + tail, at) == Le32At(head, at)
  {
  }

  lemma HeadWords(flag: U32, cmd: U32, length: U32)
    ensures var head := FrameHeadPack(flag, cmd, length);
            && Le32At(head, 0) == flag && Le32At(head, 4) == length && Le32At(head, 8) == cmd
            && Le32At(head, 12) == HeaderCheckSum(flag, length, cmd)
  {
    hide HeaderCheckSum, PutLe32;
    var a, b, c, d := PutLe32(flag), PutLe32(length), PutLe32(cmd), PutLe32(HeaderCheckSum(flag, length, cmd));
    FourWords(a, b, c, d);
  }

  lemma FourWords(a: seq<Byte>, b: seq<Byte>, c: seq<Byte>, d: seq<Byte>)
    requires |a| == |b| == |c| == |d| == 4
    ensures var s := a + b + c + d;
            Le32At(s, 0) == Le32At(a, 0) && Le32At(s, 4) == Le32At(b, 0) &&
            Le32At(s, 8) == Le32At(c, 0) && Le32At(s, 12) == Le32At(d, 0)
  {
  }

  /** A whole frame, byte by byte: a Helios register read with no payload. */
  lemma ReadRegisterFrame()
    ensures Encode(HELIOS_FRAME_FLAG, Frame(0x001, [])) ==
            [0x52, 0x25, 0xAA, 0x55, 0, 0, 0, 0, 1, 0, 0, 0, 0x02, 0x85, 0, 0]
  {
    HeadOfRead();
    hide FrameHeadPack;
    assert FrameHeadPack(HELIOS_FRAME_FLAG, 0x001, 0) + [] == FrameHeadPack(HELIOS_FRAME_FLAG, 0x001, 0);
  }

  lemma HeadOfRead()
    ensures FrameHeadPack(HELIOS_FRAME_FLAG, 0x001, 0) ==
            [0x52, 0x25, 0xAA, 0x55, 0, 0, 0, 0, 1, 0, 0, 0, 0x02, 0x85, 0, 0]
  {
    hide HeaderCheckSum, PutLe32, Le32At;
    SumOfRead();
    WordsOfRead();
    Sixteen(PutLe32(HELIOS_FRAME_FLAG), PutLe32(0), PutLe32(1), PutLe32(0x8502));
  }

  lemma SumOfRead()
    ensures HeaderCheckSum(HELIOS_FRAME_FLAG, 0, 1) == 0x8502
  {
    SumOfFlag();
    hide HeaderSum;
    assert FoldOnce(0x7AFD) == 0x7AFD && SingleFold(0x7AFD) == 0x8502;
  }

  lemma SumOfFlag()
    ensures HeaderSum(HELIOS_FRAME_FLAG, 0, 1) == 0x7AFD
  {
    assert 0x55AA_2552 == 0x55AA * 0x1_0000 + 0x2552;
    assert HELIOS_FRAME_FLAG / 0x1_0000 == 0x55AA && HELIOS_FRAME_FLAG % 0x1_0000 == 0x2552;
  }

  lemma Sixteen(a: seq<Byte>, b: seq<Byte>, c: seq<Byte>, d: seq<Byte>)
    requires |a| == |b| == |c| == |d| == 4
    ensures a + b + c + d ==
            [a[0], a[1], a[2], a[3], b[0], b[1], b[2], b[3], c[0], c[1], c[2], c[3], d[0], d[1], d[2], d[3]]
  {
  }

  lemma WordsOfRead()
    ensures PutLe32(HELIOS_FRAME_FLAG) == [0x52, 0x25, 0xAA, 0x55]
    ensures PutLe32(0) == [0, 0, 0, 0] && PutLe32(1) == [1, 0, 0, 0] && PutLe32(0x8502) == [0x02, 0x85, 0, 0]
  {
  }

  lemma NextOfEncoded(flag: U32, f: WireFrame, tail: seq<Byte>)
    ensures Next(flag, Encode(flag, f) + tail) == Take(f, |Encode(flag, f)|)
  {
    EncodedHeader(flag, f, tail);
    var s := Encode(flag, f) + tail;
    assert s[HEAD_SIZE..HEAD_SIZE + |f.payload|] == f.payload;
  }

  lemma NextOfIncomplete(flag: U32, f: WireFrame, cut: nat)
    requires cut < HEAD_SIZE + |f.payload|
    ensures Next(flag, Encode(flag, f)[..cut]) == Wait
  {
    if cut >= HEAD_SIZE {
      EncodedHeader(flag, f, []);
      var s := Encode(flag, f) + [];
      assert s == Encode(flag, f);
      assert forall at | at in {0, 4, 8, 12} :: Le32At(s[..cut], at) == Le32At(s, at);
    }
  }

  /** Encoding any frames and decoding the stream gives them back; the incomplete front
      of one more frame is kept untouched for the next read. */
  lemma {:induction false} RoundTrip(flag: U32, frames: seq<WireFrame>, next: WireFrame, cut: nat)
    requires cut < HEAD_SIZE + |next.payload|
    ensures var tail := Encode(flag, next)[..cut];
            Decode(flag, EncodeAll(flag, frames) + tail) == Decoded(frames, tail)
    decreases |frames|
  {
    hide Next, Encode;
    var tail := Encode(flag, next)[..cut];
    if frames == [] {
      assert EncodeAll(flag, frames) + tail == tail;
      NextOfIncomplete(flag, next, cut);
    } else {
      var rest := EncodeAll(flag, frames[1..]) + tail;
      var s := EncodeAll(flag, frames) + tail;
      assert s == Encode(flag, frames[0]) + rest;
      NextOfEncoded(flag, frames[0], rest);
      assert s[|Encode(flag, frames[0])|..] == rest;
      RoundTrip(flag, frames[1..], next, cut);
    }
  }

  /** The same over the network: any way of cutting the encoded stream into reads. */
  lemma RoundTripOverReads(flag: U32, frames: seq<WireFrame>, next: WireFrame, cut: nat,
                           chunks: seq<seq<Byte>>)
    requires cut < HEAD_SIZE + |next.payload|
    ensures var tail := Encode(flag, next)[..cut];
            Concat(chunks) == EncodeAll(flag, frames) + tail ==>
            Feed(flag, [], chunks) == Decoded(frames, tail)
  {
    hide Encode, EncodeAll, Decode, Feed;
    ChunkIndependence(flag, chunks);
    RoundTrip(flag, frames, next, cut);
  }

  // `f` lies in the stream as a whole encoded frame.
  ghost predicate Occurs(flag: U32, f: Frame, s: seq<Byte>)
  {
    |f.payload| < 0x1_0000_0000 &&
    exists at: nat :: EncodedAt(flag, f, s, at)
  }

  predicate EncodedAt(flag: U32, f: WireFrame, s: seq<Byte>, at: nat)
  {
    at + |Encode(flag, f)| <= |s| && s[at..at + |Encode(flag, f)|] == Encode(flag, f)
  }

  lemma PutBack(s: seq<Byte>, at: nat)
    requires at + 4 <= |s|
    ensures PutLe32(Le32At(s, at)) == s[at..at + 4]
  {
    var b0, b1, b2, b3 := s[at], s[at + 1], s[at + 2], s[at + 3];
    var x := Le32At(s, at);
    assert x == b0 + 0x100 * (b1 + 0x100 * (b2 + 0x100 * b3 as int) as int) as int;
    assert x / 0x100 == b1 + 0x100 * (b2 + 0x100 * b3 as int) as int;
    assert x / 0x100 / 0x100 == b2 + 0x100 * b3 as int;
  }

  lemma TakenFrameIsEncoded(flag: U32, s: seq<Byte>)
    requires Next(flag, s).Take?
    ensures Occurs(flag, Next(flag, s).frame, s)
  {
    hide HeaderCheckSum, Le32At, PutLe32;
    PutBack(s, 0);
    PutBack(s, 4);
    PutBack(s, 8);
    PutBack(s, 12);
    var f := Next(flag, s).frame;
    var n := Next(flag, s).size;
    assert s[..n] == s[0..4] + s[4..8] + s[8..12] + s[12..16] + s[16..n];
    assert s[..n] == Encode(flag, f);
    assert EncodedAt(flag, f, s, 0);
  }

  /** Nothing is made up: every dispatched frame is a complete frame of the stream,
      checksummed header included. */
  lemma {:induction false} DispatchedFramesOccur(flag: U32, s: seq<Byte>, f: Frame)
    requires f in Decode(flag, s).frames
    ensures Occurs(flag, f, s)
    decreases |s|
  {
    hide Next, Encode;
    var step := Next(flag, s);
    if step.Take? && step.frame == f {
      TakenFrameIsEncoded(flag, s);
    } else {
      var n := if step.Skip? then step.count else step.size;
      DispatchedFramesOccur(flag, s[n..], f);
      var at: nat :| EncodedAt(flag, f, s[n..], at);
      assert s[n..][at..at + |Encode(flag, f)|] == s[n + at..n + at + |Encode(flag, f)|];
      assert EncodedAt(flag, f, s, n + at);
    }
  }
}
