/** The framing that Airy and Ruby4 lidars share: FF FF, a direction byte (01 from the lidar,
    00 from the host), a big-endian length, the body, FE and a 16-bit byte sum; and the parser
    that `ParseRecvTcpData` runs over a TCP byte stream. */
module AiryStream {
  import opened Bytes

  const MIN_PACK_BYTES := 11
  const MAX_LEN := 2000
  const OVERHEAD := 8

  predicate StartsFrame(s: seq<Byte>)
  {
    |s| >= 3 && s[0] == 0xFF && s[1] == 0xFF && s[2] == 0x01
  }

  function DeclaredLen(s: seq<Byte>): (r: U16)
    requires |s| >= 5
  {
    Be16At(s, 3)
  }

  function ByteSum(s: seq<Byte>): (r: nat)
  {
    if s == [] then 0 else ByteSum(s[..|s| - 1]) + s[|s| - 1]
  }

  lemma {:induction false} ByteSumMore(a: seq<Byte>, b: seq<Byte>)
    ensures ByteSum(a + b) == ByteSum(a) + ByteSum(b)
    decreases |b|
  {
    if b == [] {
      assert a + b == a;
    } else {
      assert (a + b)[..|a + b| - 1] == a + b[..|b| - 1];
      ByteSumMore(a, b[..|b| - 1]);
    }
  }

  /** The byte sum: nothing, one byte, and two parts. */
  lemma ByteSumLaws(a: seq<Byte>, b: seq<Byte>, x: Byte)
    ensures ByteSum([]) == 0 && ByteSum([x]) == x && ByteSum(a + b) == ByteSum(a) + ByteSum(b)
  {
    ByteSumMore(a, b);
    assert [x][..0] == [];
  }

  // One byte more in a 16-bit sum.
  lemma SumMore(s: seq<Byte>, from: nat, k: nat)
    requires from <= k < |s|
    ensures ByteSum(s[from..k + 1]) % 0x1_0000 == (ByteSum(s[from..k]) % 0x1_0000 + s[k]) % 0x1_0000
  {
    assert s[from..k + 1][..k - from] == s[from..k];
  }

  // `judeRecvPackCrc`: the big-endian word behind the end byte is the 16-bit sum of
  // everything from the direction byte to the end byte.
  predicate CrcOk(s: seq<Byte>)
    requires |s| >= 5
  {
    var len := DeclaredLen(s);
    len + OVERHEAD <= |s| && Be16At(s, len + 6) == ByteSum(s[2..len + 6]) % 0x1_0000
  }

  method JudeRecvPackCrc(recvData: seq<Byte>) returns (ok: bool)
    requires |recvData| >= 5
    ensures ok == CrcOk(recvData)
  {
    var size := |recvData|;
    var len := DeclaredLen(recvData);
    if len + 8 > size {
      return false;
    }
    var sum: U16 := 0;
    var k := 2;
    assert ByteSum(recvData[2..2]) == 0;
    hide ByteSum;
    while k < 5 + len + 1 && k < size
      invariant 2 <= k <= len + 6
      invariant sum == ByteSum(recvData[2..k]) % 0x1_0000
    {
      SumMore(recvData, 2, k);
      sum := (sum + recvData[k]) % 0x1_0000;
      k := k + 1;
    }
    return Be16At(recvData, len + 6) == sum;
  }

  // ----------------------------------------------------------------- Decoding

  datatype Step =
    | Stop                      // leave the buffer as it is
    | Skip                      // drop one byte
    | Reject(size: nat)         // a whole frame with a wrong sum
    | Accept(frame: seq<Byte>)

  // The front of the buffer, judged with `size` as the number of bytes it holds.
  function Look(s: seq<Byte>, size: nat): (r: Step)
    requires size <= |s|
    ensures r.Skip? ==> s != []
    ensures r.Reject? ==> 0 < r.size <= |s|
    ensures r.Accept? ==> 0 < |r.frame| <= |s|
  {
    if |s| < MIN_PACK_BYTES then Stop
    else if !StartsFrame(s) then Skip
    else
      var len := DeclaredLen(s);
      if size < len + OVERHEAD || len < 3 || len > MAX_LEN then Stop
      else if CrcOk(s) then Accept(s[..len + OVERHEAD])
      else Reject(len + OVERHEAD)
  }

  datatype Decoded = Decoded(frames: seq<seq<Byte>>, rest: seq<Byte>)

  function Consumed(step: Step): (r: nat)
  {
    match step
    case Stop => 0
    case Skip => 1
    case Reject(n) => n
    case Accept(f) => |f|
  }

  function Emitted(step: Step): (r: seq<seq<Byte>>)
  {
    if step.Accept? then [step.frame] else []
  }

  // One call of the parser. The size is held in 16 bits, and a rejected frame ends the call.
  function Parse(s: seq<Byte>): (r: Decoded)
    decreases |s|
  {
    var step := Look(s, |s| % 0x1_0000);
    if step.Stop? then Decoded([], s)
    else if step.Reject? then Decoded([], s[step.size..])
    else
      var d := Parse(s[Consumed(step)..]);
      Decoded(Emitted(step) + d.frames, d.rest)
  }

  // The eager reference: the same accept and skip rules, but the true size,
  // and decoding goes on behind a rejected frame.
  function Eager(s: seq<Byte>): (r: Decoded)
    decreases |s|
  {
    var step := Look(s, |s|);
    if step.Stop? then Decoded([], s)
    else
      var d := Eager(s[Consumed(step)..]);
      Decoded(Emitted(step) + d.frames, d.rest)
  }

  // Successive reads into the same buffer, one call each.
  function Feed(rest: seq<Byte>, chunks: seq<seq<Byte>>): (r: Decoded)
    decreases |chunks|
  {
    if chunks == [] then Decoded([], rest)
    else
      var d := Parse(rest + chunks[0]);
      var e := Feed(d.rest, chunks[1..]);
      Decoded(d.frames + e.frames, e.rest)
  }

  // ------------------------------------------------------------ Prefix safety

  lemma LookStable(s: seq<Byte>, more: seq<Byte>)
    requires !Look(s, |s|).Stop?
    ensures Look(s + more, |s + more|) == Look(s, |s|)
  {
    if StartsFrame(s) {
      var len := DeclaredLen(s);
      assert (s + more)[2..len + 6] == s[2..len + 6];
      assert (s + more)[..len + OVERHEAD] == s[..len + OVERHEAD];
    }
  }

  lemma LookTruncated(s: seq<Byte>)
    requires !Look(s, |s| % 0x1_0000).Stop?
    ensures Look(s, |s|) == Look(s, |s| % 0x1_0000)
  {
  }

  lemma {:induction false} EagerAppend(s: seq<Byte>, more: seq<Byte>)
    ensures var d := Eager(s);
            var e := Eager(d.rest + more);
            Eager(s + more) == Decoded(d.frames + e.frames, e.rest)
    decreases |s|
  {
    hide Look, Emitted;
    var step := Look(s, |s|);
    if step.Stop? {
      assert Eager(s) == Decoded([], s);
    } else {
      LookStable(s, more);
      var n := Consumed(step);
      assert (s + more)[n..] == s[n..] + more;
      EagerAppend(s[n..], more);
      Assoc(Emitted(step), Eager(s[n..]).frames, Eager(Eager(s).rest + more).frames);
    }
  }

  lemma Assoc<T>(a: seq<T>, b: seq<T>, c: seq<T>)
    ensures a + (b + c) == a + b + c
  {
  }

  lemma {:induction false} ParseThenEager(s: seq<Byte>)
    ensures var d := Parse(s);
            var e := Eager(d.rest);
            Eager(s) == Decoded(d.frames + e.frames, e.rest)
    decreases |s|
  {
    hide Look;
    var step := Look(s, |s| % 0x1_0000);
    if !step.Stop? {
      LookTruncated(s);
      var n := Consumed(step);
      if step.Reject? {
        assert Emitted(step) == [];
      } else {
        ParseThenEager(s[n..]);
        Assoc(Emitted(step), Parse(s[n..]).frames, Eager(Parse(s).rest).frames);
      }
    }
  }

  /** Nothing is lost or invented, at worst delayed: whatever the bytes and the reads, the
      frames dispatched so far, followed by what the eager reference finds in the bytes kept,
      are the frames of the eager reference on the whole stream. */
  lemma {:induction false} DispatchedThenPending(rest: seq<Byte>, chunks: seq<seq<Byte>>)
    ensures var d := Feed(rest, chunks);
            var e := Eager(d.rest);
            Eager(rest + Concat(chunks)) == Decoded(d.frames + e.frames, e.rest)
    decreases |chunks|
  {
    hide Eager, Parse;
    if chunks == [] {
      assert rest + Concat(chunks) == rest;
    } else {
      var s := rest + chunks[0];
      var tail := Concat(chunks[1..]);
      assert rest + Concat(chunks) == s + tail;
      CallThenEager(s, tail);
      DispatchedThenPending(Parse(s).rest, chunks[1..]);
      var e := Feed(Parse(s).rest, chunks[1..]);
      Assoc(Parse(s).frames, e.frames, Eager(e.rest).frames);
    }
  }

  lemma CallThenEager(s: seq<Byte>, tail: seq<Byte>)
    ensures var d := Parse(s);
            var e := Eager(d.rest + tail);
            Eager(s + tail) == Decoded(d.frames + e.frames, e.rest)
  {
    hide Eager, Parse;
    ParseThenEager(s);
    EagerAppend(s, tail);
    EagerAppend(Parse(s).rest, tail);
    Assoc(Parse(s).frames, Eager(Parse(s).rest).frames, Eager(Eager(s).rest + tail).frames);
  }

  lemma PrefixSafety(chunks: seq<seq<Byte>>)
    ensures Feed([], chunks).frames <= Eager(Concat(chunks)).frames
  {
    hide Eager, Feed;
    DispatchedThenPending([], chunks);
    assert [] + Concat(chunks) == Concat(chunks);
  }

  // ----------------------------------------------------------- Blocked channel

  // Kept bytes that settle a frame start whose length is below 3 or above 2000.
  predicate Blocked(s: seq<Byte>)
  {
    && |s| >= 4 && StartsFrame(s)
    && if |s| == 4 then s[3] >= 8 else DeclaredLen(s) < 3 || DeclaredLen(s) > MAX_LEN
  }

  lemma BlockedStops(s: seq<Byte>, more: seq<Byte>)
    requires Blocked(s)
    ensures Blocked(s + more) && Parse(s + more) == Decoded([], s + more)
  {
  }

  lemma {:induction false} BlockedKeeps(rest: seq<Byte>, chunks: seq<seq<Byte>>)
    requires Blocked(rest)
    ensures Feed(rest, chunks) == Decoded([], rest + Concat(chunks))
    decreases |chunks|
  {
    hide Parse, Blocked;
    if chunks == [] {
      assert rest + Concat(chunks) == rest;
    } else {
      BlockedStops(rest, chunks[0]);
      BlockedKeeps(rest + chunks[0], chunks[1..]);
      assert rest + Concat(chunks) == rest + chunks[0] + Concat(chunks[1..]);
    }
  }

  // The call drops at least one byte.
  predicate Consumes(s: seq<Byte>)
  {
    |Parse(s).rest| < |s|
  }

  lemma {:induction false} ParseShrinks(s: seq<Byte>)
    ensures |Parse(s).rest| <= |s|
    ensures Consumes(s) <==> !Look(s, |s| % 0x1_0000).Stop?
    ensures !Consumes(s) ==> Parse(s) == Decoded([], s)
    decreases |s|
  {
    hide Look;
    var step := Look(s, |s| % 0x1_0000);
    if step.Skip? || step.Accept? {
      ParseShrinks(s[Consumed(step)..]);
    }
  }

  lemma {:induction false} FeedShrinks(rest: seq<Byte>, chunks: seq<seq<Byte>>)
    ensures |Feed(rest, chunks).rest| <= |rest| + |Concat(chunks)|
    decreases |chunks|
  {
    hide Parse;
    if chunks != [] {
      ParseShrinks(rest + chunks[0]);
      FeedShrinks(Parse(rest + chunks[0]).rest, chunks[1..]);
    }
  }

  // What one call on everything would drop, is dropped by some call however the bytes come.
  lemma {:induction false} ReadsConsume(rest: seq<Byte>, chunks: seq<seq<Byte>>)
    requires chunks != [] && Consumes(rest + Concat(chunks))
    ensures |Feed(rest, chunks).rest| < |rest| + |Concat(chunks)|
    decreases |chunks|
  {
    hide Parse;
    var s := rest + chunks[0];
    ParseShrinks(s);
    FeedShrinks(Parse(s).rest, chunks[1..]);
    assert rest + Concat(chunks) == s + Concat(chunks[1..]);
    assert s + [] == s;
    if !Consumes(s) && chunks[1..] != [] {
      ReadsConsume(s, chunks[1..]);
    }
  }

  // A continuation of bytes that are not blocked: first two length bytes if they are missing,
  // then zeros until the 16-bit size admits any frame.
  function Unblocking(s: seq<Byte>): (more: seq<Byte>)
    ensures more != []
  {
    var start: seq<Byte> := if |s| < 3 then [0, 0, 0] else if |s| == 3 then [0, 3] else if |s| == 4 then [3] else [0];
    start + Zeros(ToSize(|s| + |start|))
  }

  function Zeros(n: nat): (r: seq<Byte>)
    ensures |r| == n
  {
    seq(n, _ => 0)
  }

  // How far it is to a size that is at least 2008 in 16 bits.
  function ToSize(n: nat): (k: nat)
    ensures (n + k) % 0x1_0000 >= MAX_LEN + OVERHEAD
  {
    if n % 0x1_0000 >= MAX_LEN + OVERHEAD then 0 else MAX_LEN + OVERHEAD - n % 0x1_0000
  }

  lemma NotBlockedConsumes(s: seq<Byte>)
    requires !Blocked(s)
    ensures Consumes(s + Unblocking(s))
  {
    var t := s + Unblocking(s);
    ParseShrinks(t);
    hide Parse, CrcOk, ToSize;
    assert |t| % 0x1_0000 >= MAX_LEN + OVERHEAD;
    if StartsFrame(t) {
      StartContinues(s, Unblocking(s));
      if |s| <= 4 {
        assert DeclaredLen(t) == Be16At(t, 3) <= MAX_LEN;
      }
      assert 3 <= DeclaredLen(t) <= MAX_LEN;
    }
  }

  lemma StartContinues(s: seq<Byte>, more: seq<Byte>)
    requires StartsFrame(s + more)
    ensures |s| >= 3 ==> StartsFrame(s)
    ensures |s| >= 5 ==> DeclaredLen(s + more) == DeclaredLen(s)
  {
  }

  // `more` in reads of one byte each, the shortest there are.
  function Singles(more: seq<Byte>): (chunks: seq<seq<Byte>>)
    ensures |chunks| == |more| && forall k :: 0 <= k < |more| ==> chunks[k] == [more[k]]
  {
    seq(|more|, k requires 0 <= k < |more| => [more[k]])
  }

  lemma {:induction false} ConcatSingles(more: seq<Byte>)
    ensures Concat(Singles(more)) == more
    decreases |more|
  {
    if more != [] {
      ConcatSingles(more[1..]);
      assert Singles(more)[1..] == Singles(more[1..]);
    }
  }

  // Nothing is ever dispatched or dropped again, whatever is read.
  ghost predicate Dead(rest: seq<Byte>, chunks: seq<seq<Byte>>)
  {
    (forall c :: c in chunks ==> 0 < |c| <= MAX_READ_BUFFER) ==>
      Feed(rest, chunks) == Decoded([], rest + Concat(chunks))
  }

  /** A channel is blocked for good, over all later reads, exactly from those kept bytes: every
      other residue can be continued so that bytes are dropped again. */
  lemma BlockedExactly(rest: seq<Byte>)
    ensures Blocked(rest) <==> forall chunks :: Dead(rest, chunks)
  {
    hide Blocked, Feed, Concat, Unblocking;
    if Blocked(rest) {
      forall chunks
        ensures Dead(rest, chunks)
      {
        BlockedKeeps(rest, chunks);
      }
    } else {
      var more := Unblocking(rest);
      var chunks := Singles(more);
      NotBlockedConsumes(rest);
      ConcatSingles(more);
      ReadsConsume(rest, chunks);
      assert !Dead(rest, chunks);
    }
  }

  /** The shortest header that blocks with certainty, and a whole one. */
  lemma BlockingHeaders()
    ensures Blocked([0xFF, 0xFF, 0x01, 0x08]) && Blocked([0xFF, 0xFF, 0x01, 0x00, 0x02])
  {
  }

  const MAX_READ_BUFFER := 1248

  // ------------------------------------------------------------- Single frames

  // A lidar's frame around a body, with some sum.
  function FrameWith(body: seq<Byte>, sum: U16): (f: seq<Byte>)
    requires |body| < 0x1_0000
    ensures |f| == |body| + 8
  {
    [0xFF, 0xFF, 0x01, |body| / 0x100, |body| % 0x100] + body + [0xFE, sum / 0x100, sum % 0x100]
  }

  // The sum it should have.
  function RightSum(body: seq<Byte>): (sum: U16)
    requires |body| < 0x1_0000
  {
    (0x01 + |body| / 0x100 + |body| % 0x100 + ByteSum(body) + 0xFE) % 0x1_0000
  }

  lemma FrameCrc(body: seq<Byte>, sum: U16)
    requires |body| < 0x1_0000
    ensures var f := FrameWith(body, sum);
            DeclaredLen(f) == |body| && StartsFrame(f) && (CrcOk(f) <==> sum == RightSum(body))
  {
    var f := FrameWith(body, sum);
    var head: seq<Byte> := [0x01, |body| / 0x100, |body| % 0x100];
    assert f[2..|body| + 6] == head + body + [0xFE];
    ByteSumMore(head + body, [0xFE]);
    ByteSumMore(head, body);
    ByteSumLaws([], [], 0xFE);
    ThreeBytes(0x01, |body| / 0x100, |body| % 0x100);
  }

  lemma ThreeBytes(x: Byte, y: Byte, z: Byte)
    ensures ByteSum([x, y, z]) == x + y + z
  {
    ByteSumLaws([x], [y], x);
    ByteSumLaws([x, y], [z], y);
    ByteSumLaws([], [], z);
    assert [x] + [y] == [x, y] && [x, y] + [z] == [x, y, z];
  }

  /** A frame by itself, for every body and sum: it is dispatched if and only if the body has 3 to
      2000 bytes and the sum is right; with a wrong sum it is dropped, and otherwise kept. */
  lemma SingleFrame(body: seq<Byte>, sum: U16)
    requires |body| < 0x1_0000 - 8
    ensures var f := FrameWith(body, sum);
            Parse(f) == if |body| < 3 || |body| > 2000 then Decoded([], f)
                        else if sum == RightSum(body) then Decoded([f], [])
                        else Decoded([], [])
  {
    var f := FrameWith(body, sum);
    FrameCrc(body, sum);
    hide CrcOk, StartsFrame, DeclaredLen, RightSum, FrameWith;
    assert f[..|f|] == f && f[|f|..] == [];
    ParseEmpty([]);
  }

  // ------------------------------------------------------------ Clean streams

  predicate ValidFrame(f: seq<Byte>)
  {
    |f| >= MIN_PACK_BYTES && StartsFrame(f) && DeclaredLen(f) <= MAX_LEN &&
    |f| == DeclaredLen(f) + OVERHEAD && CrcOk(f)
  }

  ghost predicate AllValid(frames: seq<seq<Byte>>)
  {
    forall f :: f in frames ==> ValidFrame(f)
  }

  lemma LookAtValid(f: seq<Byte>, more: seq<Byte>, size: nat)
    requires ValidFrame(f) && |f| <= size <= |f + more|
    ensures Look(f + more, size) == Accept(f)
  {
    var len := DeclaredLen(f);
    assert (f + more)[2..len + 6] == f[2..len + 6];
    assert (f + more)[..|f|] == f;
  }

  lemma LookAtPart(f: seq<Byte>, n: nat)
    requires ValidFrame(f) && n < |f|
    ensures Look(f[..n], n) == Stop
  {
  }

  // How many of the frames fit whole into the first n bytes of their concatenation,
  function Completed(frames: seq<seq<Byte>>, n: nat): (r: nat)
    ensures r <= |frames|
    decreases |frames|
  {
    if frames == [] || n < |frames[0]| then 0
    else 1 + Completed(frames[1..], n - |frames[0]|)
  }

  // and how many bytes they take.
  function CompletedBytes(frames: seq<seq<Byte>>, n: nat): (r: nat)
    ensures r <= n
    decreases |frames|
  {
    if frames == [] || n < |frames[0]| then 0
    else |frames[0]| + CompletedBytes(frames[1..], n - |frames[0]|)
  }

  /** What a receiver of the first n bytes should have: the completed frames and the rest. */
  function Expected(frames: seq<seq<Byte>>, n: nat): (r: Decoded)
    requires n <= |Concat(frames)|
  {
    Decoded(frames[..Completed(frames, n)], Concat(frames)[CompletedBytes(frames, n)..n])
  }

  // The completed frames are the longest list of leading frames within the first n bytes,
  // and with the rest they make up those bytes.
  lemma {:induction false} ExpectedIsMaximal(frames: seq<seq<Byte>>, n: nat)
    requires n <= |Concat(frames)|
    ensures var e := Expected(frames, n);
            && Concat(e.frames) + e.rest == Concat(frames)[..n]
            && (|e.frames| < |frames| ==> |e.rest| < |frames[|e.frames|]|)
            && (|e.frames| == |frames| ==> e.rest == [])
    decreases |frames|
  {
    hide Expected, Concat;
    if Completed(frames, n) == 0 {
      NothingCompleted(frames, n, n);
      EmptyConcat(Expected(frames, n).frames);
      EmptyConcat(frames);
    } else {
      var f, m := frames[0], n - |frames[0]|;
      ConcatHead(frames);
      ExpectedIsMaximal(frames[1..], m);
      ExpectedTail(frames, n);
      ConcatHead(Expected(frames, n).frames);
      var e := Expected(frames[1..], m);
      assert ([f] + e.frames)[1..] == e.frames;
      Assoc(f, Concat(e.frames), e.rest);
      assert Concat(frames)[..n] == f + Concat(frames[1..])[..m];
    }
  }

  lemma EmptyConcat<T>(parts: seq<seq<T>>)
    ensures parts == [] ==> Concat(parts) == []
  {
  }

  lemma ExpectedTail(frames: seq<seq<Byte>>, n: nat)
    requires frames != [] && |frames[0]| <= n <= |Concat(frames)|
    ensures Expected(frames, n) ==
            var e := Expected(frames[1..], n - |frames[0]|); Decoded([frames[0]] + e.frames, e.rest)
  {
    hide Concat;
    assert Concat(frames) == frames[0] + Concat(frames[1..]) by {
      ConcatHead(frames);
    }
    var m := n - |frames[0]|;
    var k := Completed(frames[1..], m);
    assert frames[..k + 1] == [frames[0]] + frames[1..][..k];
    SliceBehind(Concat(frames), |frames[0]|, CompletedBytes(frames[1..], m), n);
  }

  lemma ConcatHead<T>(parts: seq<seq<T>>)
    requires parts != []
    ensures Concat(parts) == parts[0] + Concat(parts[1..])
  {
  }

  lemma SliceBehind<T>(s: seq<T>, cut: nat, from: nat, n: nat)
    requires cut + from <= n <= |s|
    ensures s[cut + from..n] == s[cut..][from..n - cut]
  {
  }

  /** One call on the front of a stream of valid frames dispatches exactly the frames that
      are complete and keeps exactly the rest, while the size fits 16 bits. */
  lemma {:induction false} ParseClean(frames: seq<seq<Byte>>, n: nat)
    requires AllValid(frames) && n <= |Concat(frames)| && n < 0x1_0000
    ensures Parse(Concat(frames)[..n]) == Expected(frames, n)
    decreases |frames|
  {
    hide Look, ValidFrame, AllValid, Expected, Concat;
    var s := Concat(frames)[..n];
    EmptyConcat(frames);
    if frames == [] {
      ParseEmpty(s);
      NothingCompleted(frames, n, n);
    } else {
      FirstIsValid(frames);
      ConcatHead(frames);
      var f := frames[0];
      if n < |f| {
        assert s == f[..n];
        LookAtPart(f, n);
        NothingCompleted(frames, n, n);
      } else {
        var more := Concat(frames[1..])[..n - |f|];
        assert s == f + more && s[|f|..] == more;
        LookAtValid(f, more, n);
        ParseClean(frames[1..], n - |f|);
        ExpectedTail(frames, n);
      }
    }
  }

  lemma FirstIsValid(frames: seq<seq<Byte>>)
    requires AllValid(frames) && frames != []
    ensures ValidFrame(frames[0]) && AllValid(frames[1..])
  {
  }

  lemma ParseEmpty(s: seq<Byte>)
    requires s == []
    ensures Parse(s) == Decoded([], s)
  {
  }

  /** Decoding may go on behind the frames completed at m as if they had never been there. */
  lemma {:induction false} Resume(frames: seq<seq<Byte>>, m: nat, n: nat)
    requires m <= n <= |Concat(frames)|
    ensures var j := Completed(frames, m);
            var cut := CompletedBytes(frames, m);
            && cut + |Concat(frames[j..])| == |Concat(frames)|
            && Concat(frames)[cut..] == Concat(frames[j..])
            && Completed(frames[j..], m - cut) == 0
            && Expected(frames, m).rest == Concat(frames[j..])[..m - cut]
            && var e := Expected(frames[j..], n - cut);
            Expected(frames, n) == Decoded(Expected(frames, m).frames + e.frames, e.rest)
    decreases |frames|
  {
    hide Expected, Concat;
    var j := Completed(frames, m);
    if j == 0 {
      NothingCompleted(frames, m, n);
    } else {
      ConcatHead(frames);
      Resume(frames[1..], m - |frames[0]|, n - |frames[0]|);
      assert frames[j..] == frames[1..][j - 1..];
      ExpectedTail(frames, m);
      ExpectedTail(frames, n);
      Assoc([frames[0]], Expected(frames[1..], m - |frames[0]|).frames,
            Expected(frames[j..], n - CompletedBytes(frames, m)).frames);
    }
  }

  lemma NothingCompleted(frames: seq<seq<Byte>>, m: nat, n: nat)
    requires m <= n <= |Concat(frames)| && Completed(frames, m) == 0
    ensures CompletedBytes(frames, m) == 0 && frames[0..] == frames
    ensures Expected(frames, m) == Decoded([], Concat(frames)[..m])
    ensures Expected(frames, n) == Decoded([] + Expected(frames, n).frames, Expected(frames, n).rest)
  {
    hide Concat;
    assert frames[..0] == [];
  }

  lemma {:induction false} RestIsShort(frames: seq<seq<Byte>>, n: nat)
    requires AllValid(frames) && n <= |Concat(frames)|
    ensures |Expected(frames, n).rest| < 2008
    decreases |frames|
  {
    hide Expected;
    if frames == [] {
      NothingCompleted(frames, n, n);
    } else if n < |frames[0]| {
      NothingCompleted(frames, n, n);
      FirstIsValid(frames);
    } else {
      RestIsShort(frames[1..], n - |frames[0]|);
      ExpectedTail(frames, n);
    }
  }

  // Every buffer that a call of the parser sees stays within the bound.
  ghost predicate BuffersWithin(rest: seq<Byte>, chunks: seq<seq<Byte>>, bound: nat)
    decreases |chunks|
  {
    chunks == [] ||
    (|rest + chunks[0]| <= bound && BuffersWithin(Parse(rest + chunks[0]).rest, chunks[1..], bound))
  }

  // The front of `tail` completes what was kept: one read of a clean stream.
  lemma NextCall(frames: seq<seq<Byte>>, start: nat, chunk: seq<Byte>, tail: seq<Byte>)
    requires AllValid(frames) && start <= |Concat(frames)| && start + |chunk| < 0x1_0000
    requires chunk + tail <= Concat(frames)[start..]
    ensures var rest := Concat(frames)[..start];
            var m := start + |chunk|;
            var cut := CompletedBytes(frames, m);
            var later := frames[Completed(frames, m)..];
            && m <= |Concat(frames)|
            && Parse(rest + chunk) == Expected(frames, m)
            && AllValid(later)
            && cut + |Concat(later)| == |Concat(frames)|
            && Completed(later, m - cut) == 0
            && Expected(frames, m).rest == Concat(later)[..m - cut]
            && tail <= Concat(later)[m - cut..]
            && var n := m + |tail|;
            var e := Expected(later, n - cut);
            Expected(frames, n) == Decoded(Expected(frames, m).frames + e.frames, e.rest)
  {
    hide Parse, Completed, CompletedBytes, Expected, Concat, ValidFrame, AllValid;
    var whole := Concat(frames);
    var m := start + |chunk|;
    CutBehind(whole, start, chunk, tail);
    ParseClean(frames, m);
    Resume(frames, m, m + |tail|);
    LaterValid(frames, Completed(frames, m));
    var cut := CompletedBytes(frames, m);
    assert whole[cut..][m - cut..] == whole[m..];
  }

  lemma CutBehind<T>(whole: seq<T>, start: nat, chunk: seq<T>, tail: seq<T>)
    requires start <= |whole| && chunk + tail <= whole[start..]
    ensures start + |chunk| + |tail| <= |whole|
    ensures whole[..start] + chunk == whole[..start + |chunk|]
    ensures tail <= whole[start + |chunk|..]
  {
    assert chunk == whole[start..][..|chunk|];
    assert tail == whole[start..][|chunk|..|chunk| + |tail|];
  }

  lemma LaterValid(frames: seq<seq<Byte>>, j: nat)
    requires AllValid(frames) && j <= |frames|
    ensures AllValid(frames[j..])
  {
    hide ValidFrame;
  }

  // The same from any point at which part of the next frame has been kept.
  lemma {:induction false} CleanStreamFrom(frames: seq<seq<Byte>>, start: nat, chunks: seq<seq<Byte>>)
    requires AllValid(frames) && start <= |Concat(frames)| && Completed(frames, start) == 0
    requires Concat(chunks) <= Concat(frames)[start..]
    requires forall c :: c in chunks ==> |c| <= MAX_READ_BUFFER
    ensures var rest := Concat(frames)[..start];
            Feed(rest, chunks) == Expected(frames, start + |Concat(chunks)|) &&
            BuffersWithin(rest, chunks, 3255)
    decreases |chunks|
  {
    hide Parse, Completed, CompletedBytes, Expected, AllValid, Concat;
    NothingCompleted(frames, start, start);
    RestIsShort(frames, start);
    if chunks == [] {
      EmptyConcat(chunks);
    } else {
      ConcatHead(chunks);
      NextCall(frames, start, chunks[0], Concat(chunks[1..]));
      var m := start + |chunks[0]|;
      CleanStreamFrom(frames[Completed(frames, m)..], m - CompletedBytes(frames, m), chunks[1..]);
    }
  }

  // What a read does to buffer and frames is the same in one piece and in two.
  lemma ParseMayBeCut(frames: seq<seq<Byte>>, start: nat, front: seq<Byte>, back: seq<Byte>)
    requires AllValid(frames) && start <= |Concat(frames)| && Completed(frames, start) == 0
    requires front + back <= Concat(frames)[start..] && |front| + |back| <= MAX_READ_BUFFER
    ensures var rest := Concat(frames)[..start];
            var d := Parse(rest + front);
            var e := Parse(d.rest + back);
            Parse(rest + (front + back)) == Decoded(d.frames + e.frames, e.rest)
  {
    hide Parse, Completed, Expected, AllValid, Feed, BuffersWithin;
    var rest := Concat(frames)[..start];
    TwoReads(rest, front, back);
    OneRead(rest, front + back);
    CleanStreamFrom(frames, start, [front, back]);
    CleanStreamFrom(frames, start, [front + back]);
  }

  lemma OneRead(rest: seq<Byte>, chunk: seq<Byte>)
    ensures Concat([chunk]) == chunk && Feed(rest, [chunk]) == Parse(rest + chunk)
  {
    hide Parse;
    assert [chunk][1..] == [];
    var d := Parse(rest + chunk);
    assert d.frames + [] == d.frames && chunk + [] == chunk;
  }

  lemma TwoReads(rest: seq<Byte>, front: seq<Byte>, back: seq<Byte>)
    ensures Concat([front, back]) == front + back
    ensures var d := Parse(rest + front);
            var e := Parse(d.rest + back);
            Feed(rest, [front, back]) == Decoded(d.frames + e.frames, e.rest)
  {
    hide Parse;
    assert [front, back][1..] == [back];
    OneRead(Parse(rest + front).rest, back);
  }

  /** Clean-stream exactness. Let valid frames arrive in reads of at most 1248 bytes. After any
      number of calls exactly the frames completed so far have been dispatched, fewer than 2008
      bytes are kept, and no buffer ever exceeds 3255 bytes, so the 16-bit size is exact. */
  lemma CleanStreamExact(frames: seq<seq<Byte>>, chunks: seq<seq<Byte>>)
    requires AllValid(frames) && Concat(chunks) <= Concat(frames)
    requires forall c :: c in chunks ==> |c| <= MAX_READ_BUFFER
    ensures Feed([], chunks) == Expected(frames, |Concat(chunks)|)
    ensures |Feed([], chunks).rest| < 2008
    ensures BuffersWithin([], chunks, 3255)
  {
    hide Parse, Expected, Feed, BuffersWithin, Concat, ValidFrame;
    assert frames != [] ==> |frames[0]| > 0 by {
      if frames != [] {
        FirstIsValid(frames);
        ValidNotEmpty(frames[0]);
      }
    }
    assert Concat(frames)[0..] == Concat(frames) && Concat(frames)[..0] == [];
    CleanStreamFrom(frames, 0, chunks);
    RestIsShort(frames, |Concat(chunks)|);
  }

  lemma ValidNotEmpty(f: seq<Byte>)
    requires ValidFrame(f)
    ensures |f| >= MIN_PACK_BYTES
  {
  }
}
