/** The Airy and Ruby4 command channel: the in-place parser with the update flags its
    firmware handler raises, and the builders of host frames. */
module AiryComm {
  import opened Bytes
  import opened AiryStream
  import opened ReadBuffers
  import opened Wrappers

  const FIRMWARE_UPDATE_CLASS: Byte := 0x30
  const TOP_CONTORL_CLASS: Byte := 0x50
  const BOT_CONTORL_CLASS: Byte := 0x60
  const OTHER_CTRL_CLASS: Byte := 0xE0

  // ------------------------------------------------------- Dispatch and parse

  // The flags of the stop-and-wait firmware update.
  datatype UpdateFlag = UPDATE_REQUEST | UPDATE_SEND_DATA | UPDATE_CHECKSUM

  // `handleFirmwareUpdateCmd`: a firmware frame for one of the three update command indices,
  // with response code 0, raises the flag that its tag byte names.
  function UpdateFlagOf(f: seq<Byte>): (r: Option<UpdateFlag>)
    requires |f| >= MIN_PACK_BYTES
  {
    if f[5] != FIRMWARE_UPDATE_CLASS || f[6] !in {1, 3, 4} || f[7] != 0 then None
    else if f[8] == 0xC1 then Some(UPDATE_REQUEST)
    else if f[8] == 0xC2 then Some(UPDATE_SEND_DATA)
    else if f[8] == 0xC3 then Some(UPDATE_CHECKSUM)
    else None
  }

  function Raise(flags: set<UpdateFlag>, f: seq<Byte>): (r: set<UpdateFlag>)
  {
    if |f| >= MIN_PACK_BYTES && UpdateFlagOf(f).Some? then flags + {UpdateFlagOf(f).value} else flags
  }

  function RaiseAll(flags: set<UpdateFlag>, frames: seq<seq<Byte>>): (r: set<UpdateFlag>)
    decreases |frames|
  {
    if frames == [] then flags else RaiseAll(Raise(flags, frames[0]), frames[1..])
  }

  lemma {:induction false} RaiseSnoc(flags: set<UpdateFlag>, frames: seq<seq<Byte>>, f: seq<Byte>)
    ensures RaiseAll(flags, frames + [f]) == Raise(RaiseAll(flags, frames), f)
    decreases |frames|
  {
    hide Raise;
    if frames == [] {
      assert ([] + [f])[1..] == [];
      assert RaiseAll(Raise(flags, f), []) == Raise(flags, f);
      assert [] + [f] == [f];
    } else {
      assert (frames + [f])[1..] == frames[1..] + [f];
      RaiseSnoc(Raise(flags, frames[0]), frames[1..], f);
    }
  }

  /** A positive reply to an update packet: a firmware frame for one of the command indices 1, 3
      and 4 with response code 0 and the tag of the packet. */
  predicate Accepts(f: seq<Byte>, flag: UpdateFlag)
  {
    && |f| >= 11 && f[5] == 0x30 && (f[6] == 1 || f[6] == 3 || f[6] == 4) && f[7] == 0
    && match flag
       case UPDATE_REQUEST => f[8] == 0xC1
       case UPDATE_SEND_DATA => f[8] == 0xC2
       case UPDATE_CHECKSUM => f[8] == 0xC3
  }

  lemma RaiseExactly(flags: set<UpdateFlag>, f: seq<Byte>, flag: UpdateFlag)
    ensures flag in Raise(flags, f) <==> flag in flags || Accepts(f, flag)
  {
  }

  /** Whatever is dispatched, a flag is up afterwards if and only if it was up or a positive reply
      for it was among the frames; refusals raise nothing. */
  lemma {:induction false} RaiseAllExactly(flags: set<UpdateFlag>, frames: seq<seq<Byte>>, flag: UpdateFlag)
    ensures flag in RaiseAll(flags, frames) <==> flag in flags || exists f :: f in frames && Accepts(f, flag)
    decreases |frames|
  {
    hide Raise, Accepts;
    if frames != [] {
      RaiseExactly(flags, frames[0], flag);
      RaiseAllExactly(Raise(flags, frames[0]), frames[1..], flag);
    }
  }

  /** A refusal (response code 1) of an update request. */
  lemma RefusalRaisesNothing(flags: set<UpdateFlag>)
    ensures RaiseAll(flags, [[0xFF, 0xFF, 0x01, 0x00, 0x04, 0x30, 0x01, 0x01, 0xC1, 0xFE, 0x01, 0xF6]]) == flags
  {
    var refusal: seq<Byte> := [0xFF, 0xFF, 0x01, 0x00, 0x04, 0x30, 0x01, 0x01, 0xC1, 0xFE, 0x01, 0xF6];
    forall flag: UpdateFlag
      ensures flag in RaiseAll(flags, [refusal]) <==> flag in flags
    {
      RaiseAllExactly(flags, [refusal], flag);
    }
  }

  // With `done` dispatched and `rest` in the buffer, the call goes on to `whole`.
  ghost predicate Pending(whole: Decoded, done: seq<seq<Byte>>, rest: seq<Byte>)
  {
    var d := Parse(rest);
    whole == Decoded(done + d.frames, d.rest)
  }

  lemma PendingStep(whole: Decoded, done: seq<seq<Byte>>, rest: seq<Byte>)
    requires Pending(whole, done, rest)
    ensures var step := Look(rest, |rest| % 0x1_0000);
            && (step.Stop? ==> whole == Decoded(done, rest))
            && (step.Skip? ==> Pending(whole, done, rest[1..]))
            && (step.Reject? ==> whole == Decoded(done, rest[step.size..]))
            && (step.Accept? ==> Pending(whole, done + [step.frame], rest[|step.frame|..]))
  {
    hide Look;
    var step := Look(rest, |rest| % 0x1_0000);
    assert done + [] == done;
    if step.Accept? {
      Assoc(done, [step.frame], Parse(rest[|step.frame|..]).frames);
    } else if step.Skip? {
      assert Emitted(step) + Parse(rest[1..]).frames == Parse(rest[1..]).frames;
    }
  }

  lemma ShortStep(whole: Decoded, done: seq<seq<Byte>>, rest: seq<Byte>)
    requires Pending(whole, done, rest) && |rest| < MIN_PACK_BYTES
    ensures whole == Decoded(done, rest)
  {
    hide Parse, Pending;
    PendingStep(whole, done, rest);
  }

  lemma SkipStep(whole: Decoded, done: seq<seq<Byte>>, rest: seq<Byte>)
    requires Pending(whole, done, rest) && |rest| >= MIN_PACK_BYTES && !StartsFrame(rest)
    ensures Pending(whole, done, rest[1..])
  {
    hide Parse, Pending;
    PendingStep(whole, done, rest);
  }

  // What the length and sum tests decide for a buffer that starts a frame.
  lemma FrameStep(whole: Decoded, done: seq<seq<Byte>>, rest: seq<Byte>)
    requires Pending(whole, done, rest) && |rest| >= MIN_PACK_BYTES && StartsFrame(rest)
    ensures var len: int := DeclaredLen(rest);
            if |rest| % 0x1_0000 < len + OVERHEAD || len < 3 || len > MAX_LEN then
              whole == Decoded(done, rest)
            else if CrcOk(rest) then
              Pending(whole, done + [rest[..len + OVERHEAD]], rest[len + OVERHEAD..])
            else
              whole == Decoded(done, rest[len + OVERHEAD..])
  {
    hide Look, Parse, Pending, CrcOk, StartsFrame, DeclaredLen;
    PendingStep(whole, done, rest);
    LookAtStart(rest);
  }

  lemma LookAtStart(s: seq<Byte>)
    requires |s| >= MIN_PACK_BYTES && StartsFrame(s)
    ensures var len: int := DeclaredLen(s);
            Look(s, |s| % 0x1_0000) ==
            if |s| % 0x1_0000 < len + OVERHEAD || len < 3 || len > MAX_LEN then Stop
            else if CrcOk(s) then Accept(s[..len + OVERHEAD])
            else Reject(len + OVERHEAD)
  {
    hide CrcOk, StartsFrame, DeclaredLen;
  }

  class AiryCom {
    var flags: set<UpdateFlag>
    ghost var log: seq<seq<Byte>>  // every frame dispatched so far

    constructor ()
      ensures flags == {} && log == []
    {
      flags, log := {}, [];
    }

    /** The parser: search the start bytes, judge length and sum, dispatch and erase in place.
        An incomplete or badly sized frame and a wrong sum both end the call. */
    method ParseRecvTcpData(buffer: ReadBuffer) returns (ok: bool)
      modifies this, buffer
      ensures var d := Parse(old(buffer.data));
              && buffer.data == d.rest
              && log == old(log) + d.frames
              && flags == RaiseAll(old(flags), d.frames)
      ensures ok ==> |buffer.data| < MIN_PACK_BYTES
    {
      hide Parse, RaiseAll, Raise, CrcOk, Pending, StartsFrame, DeclaredLen;
      ghost var whole, flags0 := Parse(buffer.data), flags;
      ghost var done: seq<seq<Byte>> := [];
      NothingDone(flags, whole, buffer.data);
      while |buffer.data| >= MIN_PACK_BYTES
        invariant log == old(log) + done && flags == RaiseAll(flags0, done)
        invariant Pending(whole, done, buffer.data)
        decreases |buffer.data|
      {
        while !StartsFrame(buffer.data)
          invariant |buffer.data| >= MIN_PACK_BYTES
          invariant log == old(log) + done && flags == RaiseAll(flags0, done)
          invariant Pending(whole, done, buffer.data)
          decreases |buffer.data|
        {
          SkipStep(whole, done, buffer.data);
          buffer.data := buffer.data[1..];
          if |buffer.data| < MIN_PACK_BYTES {
            ShortStep(whole, done, buffer.data);
            return false;
          }
        }
        FrameStep(whole, done, buffer.data);
        var len: int := DeclaredLen(buffer.data);
        var size := |buffer.data| % 0x1_0000;
        if size < len + 8 || len < 3 || len > 2000 {
          return false;
        }
        var crc := JudeRecvPackCrc(buffer.data);
        if !crc {
          buffer.data := buffer.data[len + 8..];
          return false;
        }
        var frame := buffer.data[..len + 8];
        flags := Raise(flags, frame);
        log := log + [frame];
        RaiseSnoc(flags0, done, frame);
        done := done + [frame];
        buffer.data := buffer.data[len + 8..];
      }
      ShortStep(whole, done, buffer.data);
      return true;
    }
  }

  lemma NothingDone(flags: set<UpdateFlag>, whole: Decoded, rest: seq<Byte>)
    requires whole == Parse(rest)
    ensures RaiseAll(flags, []) == flags && Pending(whole, [], rest)
  {
    hide Parse;
    assert [] + Parse(rest).frames == Parse(rest).frames;
  }

  // ----------------------------------------------------------------- Builders

  function FrameHeadPack(cmdClass: Byte, cmdIdx: Byte, length: U16): (r: seq<Byte>)
    ensures |r| == 7
  {
    [0xFF, 0xFF, 0x00] + PutBe16(length) + [cmdClass, cmdIdx]
  }

  function WithTail(body: seq<Byte>): (r: seq<Byte>)
    requires |body| >= 2
    ensures |r| == |body| + 3
  {
    var b := body + [0xFE];
    b + PutBe16(ByteSum(b[2..]) % 0x1_0000)
  }

  method FrameTailPack(body: seq<Byte>) returns (r: seq<Byte>)
    requires |body| >= 2
    ensures r == WithTail(body)
  {
    var sendData := body + [0xFE];
    var size := |sendData|;
    var sum: U16 := 0;
    assert ByteSum(sendData[2..2]) == 0;
    hide ByteSum;
    for k := 2 to size
      invariant sum == ByteSum(sendData[2..k]) % 0x1_0000
    {
      SumMore(sendData, 2, k);
      sum := (sum + sendData[k]) % 0x1_0000;
    }
    assert sendData[2..size] == sendData[2..];
    r := sendData + PutBe16(sum);
  }

  // The frame around a payload whose length fits the length field.
  function Packed(cmdClass: Byte, cmdIdx: Byte, payload: seq<Byte>): (r: seq<Byte>)
    requires 2 + |payload| < 0x1_0000
  {
    WithTail(FrameHeadPack(cmdClass, cmdIdx, 2 + |payload|) + payload)
  }

  // The receiver's view of a frame: its size is the declared length plus eight.
  predicate LengthContract(frame: seq<Byte>)
  {
    |frame| >= 5 && |frame| == DeclaredLen(frame) + OVERHEAD
  }

  /** Whatever the class, index and payload, a packed frame has the size it declares and its
      sum is accepted, also with other bytes behind it. */
  lemma PackedAccepted(cmdClass: Byte, cmdIdx: Byte, payload: seq<Byte>, more: seq<Byte>)
    requires 2 + |payload| < 0x1_0000
    ensures var f := Packed(cmdClass, cmdIdx, payload);
            LengthContract(f) && CrcOk(f + more)
  {
    var head := FrameHeadPack(cmdClass, cmdIdx, 2 + |payload|);
    var b := head + payload + [0xFE];
    var f := Packed(cmdClass, cmdIdx, payload);
    var len := 2 + |payload|;
    hide ByteSum;
    assert head[3..5] == PutBe16(len);
    assert f[3] == head[3] && f[4] == head[4];
    assert DeclaredLen(f) == len;
    assert (f + more)[2..len + 6] == b[2..];
    var crc := PutBe16(ByteSum(b[2..]) % 0x1_0000);
    assert (f + more)[len + 6] == crc[0] && (f + more)[len + 7] == crc[1];
  }

  lemma PackedSize(cmdClass: Byte, cmdIdx: Byte, payload: seq<Byte>)
    requires 2 + |payload| < 0x1_0000
    ensures var f := Packed(cmdClass, cmdIdx, payload);
            LengthContract(f) && CrcOk(f) && |f| == |payload| + 10
  {
    var f := Packed(cmdClass, cmdIdx, payload);
    PackedAccepted(cmdClass, cmdIdx, payload, []);
    assert f + [] == f;
  }

  /** What a receiver reads off a host frame: start bytes, direction, length, class, index, then
      the payload, and the end byte, with the 16-bit sum of all from the direction byte on. */
  lemma PackedLayout(cmdClass: Byte, cmdIdx: Byte, declared: U16, payload: seq<Byte>)
    ensures var f := WithTail(FrameHeadPack(cmdClass, cmdIdx, declared) + payload);
            && |f| == |payload| + 10
            && f[0] == 0xFF && f[1] == 0xFF && f[2] == 0x00
            && 0x100 * f[3] as int + f[4] as int == declared
            && f[5] == cmdClass && f[6] == cmdIdx
            && f[7..|f| - 3] == payload && f[|f| - 3] == 0xFE
            && 0x100 * f[|f| - 2] as int + f[|f| - 1] as int == ByteSum(f[2..|f| - 2]) % 0x1_0000
  {
    hide ByteSum;
    var head := FrameHeadPack(cmdClass, cmdIdx, declared);
    var f := WithTail(head + payload);
    var b := head + payload + [0xFE];
    var crc := PutBe16(ByteSum(b[2..]) % 0x1_0000);
    assert f == b + crc;
    assert head[3..5] == PutBe16(declared);
    assert f[2..|f| - 2] == b[2..];
    assert f[|f| - 2] == crc[0] && f[|f| - 1] == crc[1];
    assert f[7..|f| - 3] == payload;
  }

  const WRITE_REG_CMD: Byte := 0x02
  const READ_REG_CMD: Byte := 0x01
  const TOP_GET_INTENSITY_CMD: Byte := 0x08
  const SET_CHANNEL_ANGLE_CMD: Byte := 0x01
  const MAX_REGS := 60

  // `judeRegAddr`: which board the address range belongs to, if any.
  function RegClass(start: U32, count: nat): (r: Option<Byte>)
  {
    if count > MAX_REGS then None
    else if 0x83c0_0000 <= start <= 0x83c3_0000 && start + 4 * count < 0x83c3_0000 then Some(BOT_CONTORL_CLASS)
    else if 0x1000 <= start <= 0x4000 && start + count < 0x4000 then Some(TOP_CONTORL_CLASS)
    else None
  }

  // Alternating little-endian words of two lists, up to the n-th.
  function Pairs(a: seq<U32>, b: seq<U32>, n: nat): (r: seq<Byte>)
    requires n <= |a| && n <= |b|
    ensures |r| == 8 * n
  {
    if n == 0 then [] else Pairs(a, b, n - 1) + PutLe32(a[n - 1]) + PutLe32(b[n - 1])
  }

  /** Write a register list: of any accepted list only the first register is sent. */
  method WriteRegList(addrs: seq<U32>, vals: seq<U32>) returns (r: Option<seq<Byte>>)
    ensures r.Some? <==> |addrs| == |vals| && 0 < |addrs| && RegClass(addrs[0], |addrs|).Some?
    ensures r.Some? ==>
              r.value == Packed(RegClass(addrs[0], |addrs|).value, WRITE_REG_CMD,
                                PutLe32(addrs[0]) + PutLe16(1) + PutLe32(vals[0]))
    ensures r.Some? ==> LengthContract(r.value) && CrcOk(r.value)
  {
    if |addrs| != |vals| || |addrs| > MAX_REGS || |addrs| == 0 {
      return None;
    }
    var cmdClass := RegClass(addrs[0], |addrs|);
    if cmdClass.None? {
      return None;
    }
    var head := FrameHeadPack(cmdClass.value, WRITE_REG_CMD, 2 + 8 * 1 + 2);
    var payload := PutLe32(addrs[0]) + PutLe16(1) + PutLe32(vals[0]);
    PackedSize(cmdClass.value, WRITE_REG_CMD, payload);
    var frame := FrameTailPack(head + payload);
    r := Some(frame);
  }

  method ReadRegList(addrs: seq<U32>) returns (r: Option<seq<Byte>>)
    ensures r.Some? <==> 0 < |addrs| && RegClass(addrs[0], |addrs|).Some?
    ensures r.Some? ==>
              r.value == Packed(RegClass(addrs[0], |addrs|).value, READ_REG_CMD,
                                PutLe32(addrs[0]) + PutLe16(1))
    ensures r.Some? ==> LengthContract(r.value) && CrcOk(r.value)
  {
    if |addrs| > MAX_REGS || |addrs| == 0 {
      return None;
    }
    var cmdClass := RegClass(addrs[0], |addrs|);
    if cmdClass.None? {
      return None;
    }
    var head := FrameHeadPack(cmdClass.value, READ_REG_CMD, 2 + 4 + 2);
    var payload := PutLe32(addrs[0]) + PutLe16(1);
    PackedSize(cmdClass.value, READ_REG_CMD, payload);
    var frame := FrameTailPack(head + payload);
    r := Some(frame);
  }

  // Little-endian words, up to the n-th.
  function Words(vals: seq<U32>, n: nat): (r: seq<Byte>)
    requires n <= |vals|
    ensures |r| == 4 * n
  {
    if n == 0 then [] else Words(vals, n - 1) + PutLe32(vals[n - 1])
  }

  /** Write consecutive registers: the header declares eight bytes a register but four are
      sent, so the frame never has the size it declares. */
  method WriteRegFrom(start: U32, vals: seq<U32>) returns (r: Option<seq<Byte>>)
    ensures r.Some? <==> 0 < |vals| && RegClass(start, |vals|).Some?
    ensures r.Some? ==>
              r.value == WithTail(FrameHeadPack(RegClass(start, |vals|).value, WRITE_REG_CMD, 2 + 8 * |vals|) +
                                  (PutLe32(start) + PutBe16(|vals|) + Words(vals, |vals|)))
    ensures r.Some? ==> |r.value| == 16 + 4 * |vals| && DeclaredLen(r.value) == 2 + 8 * |vals|
    ensures r.Some? ==> !LengthContract(r.value)
    ensures r.Some? && |vals| >= 2 ==> !CrcOk(r.value)
  {
    hide ByteSum, PutLe32, WithTail;
    var n := |vals|;
    if n > MAX_REGS || n == 0 {
      return None;
    }
    var cmdClass := RegClass(start, n);
    if cmdClass.None? {
      return None;
    }
    var head := FrameHeadPack(cmdClass.value, WRITE_REG_CMD, 2 + 8 * n);
    var payload: seq<Byte> := PutLe32(start) + [n / 0x100, n % 0x100];
    for i := 0 to n
      invariant payload == PutLe32(start) + PutBe16(n) + Words(vals, i)
    {
      payload := payload + PutLe32(vals[i]);
    }
    var frame := FrameTailPack(head + payload);
    HeadDeclares(cmdClass.value, WRITE_REG_CMD, 2 + 8 * n, payload);
    r := Some(frame);
  }

  /** Reflectivity calibration: up to 224 address-value pairs in one frame. */
  method WriteCalibrateReflectData(addrs: seq<U32>, vals: seq<U32>) returns (r: Option<seq<Byte>>)
    requires |addrs| <= |vals|
    ensures r.Some? <==> 0 < |addrs| <= 224
    ensures r.Some? ==>
              r.value == Packed(TOP_CONTORL_CLASS, TOP_GET_INTENSITY_CMD,
                                PutLe16(|addrs|) + Pairs(addrs, vals, |addrs|))
    ensures r.Some? ==> LengthContract(r.value) && CrcOk(r.value)
  {
    var n := |addrs|;
    if n > 224 || n == 0 {
      return None;
    }
    var head := FrameHeadPack(TOP_CONTORL_CLASS, TOP_GET_INTENSITY_CMD, 2 + 2 + 8 * n);
    var payload := PutLe16(n);
    for i := 0 to n
      invariant payload == PutLe16(n) + Pairs(addrs, vals, i)
    {
      payload := payload + PutLe32(addrs[i]) + PutLe32(vals[i]);
    }
    PackedSize(TOP_CONTORL_CLASS, TOP_GET_INTENSITY_CMD, payload);
    var frame := FrameTailPack(head + payload);
    r := Some(frame);
  }

  function Channels(angles: seq<U32>, n: nat): (r: seq<Byte>)
    requires 2 * n <= |angles| && n < 0x1_0000
    ensures |r| == 10 * n
  {
    if n == 0 then []
    else Channels(angles, n - 1) + (PutLe16(n) + PutLe32(angles[2 * n - 2]) + PutLe32(angles[2 * n - 1]))
  }

  /** Channel angles: vertical and horizontal angle of every channel, as float bit patterns.
      The declared length is computed in 16 bits, so the frame has the size it declares
      exactly for up to 6553 channels. (The 16-bit loop counter of the source ends only
      for at most 65535 channels.) */
  method SetChannelAngle(angles: seq<U32>) returns (frame: seq<Byte>)
    requires |angles| / 2 < 0x1_0000
    ensures LengthContract(frame) <==> |angles| / 2 <= 6553
    ensures |angles| / 2 <= 6553 ==>
              CrcOk(frame) &&
              frame == Packed(OTHER_CTRL_CLASS, SET_CHANNEL_ANGLE_CMD,
                              PutLe16(|angles| / 2) + Channels(angles, |angles| / 2))
  {
    var count := |angles| / 2;
    var len: U16 := (count * 10 + 2) % 0x1_0000;
    var payload := AppendChannels(angles, count);
    var declared: U16 := (2 + len) % 0x1_0000;
    DeclaredWraps(count, declared);
    frame := FrameTailPack(FrameHeadPack(OTHER_CTRL_CLASS, SET_CHANNEL_ANGLE_CMD, declared) + payload);
    HeadDeclares(OTHER_CTRL_CLASS, SET_CHANNEL_ANGLE_CMD, declared, payload);
    if count <= 6553 {
      PackedSize(OTHER_CTRL_CLASS, SET_CHANNEL_ANGLE_CMD, payload);
    }
  }

  method AppendChannels(angles: seq<U32>, count: nat) returns (payload: seq<Byte>)
    requires 2 * count <= |angles| && count < 0x1_0000
    ensures payload == PutLe16(count) + Channels(angles, count)
  {
    payload := PutLe16(count);
    for x := 0 to count
      invariant payload == PutLe16(count) + Channels(angles, x)
    {
      payload := payload + (PutLe16(x + 1) + PutLe32(angles[2 * x]) + PutLe32(angles[2 * x + 1]));
    }
  }

  // ---------------------------------------------------- What a receiver reads

  /** Which register ranges are accepted, and the class that is sent: every register of the range
      and the address behind it must lie on the same board. */
  lemma RegClassExactly(start: U32, count: nat)
    ensures RegClass(start, count) == Some(0x60) <==>
            count <= 60 && forall i: nat :: i <= count ==> OnBottom(start, i)
    ensures RegClass(start, count) == Some(0x50) <==>
            count <= 60 && forall i: nat :: i <= count ==> OnTop(start, i)
    ensures RegClass(start, count).Some? ==> RegClass(start, count).value in {0x50, 0x60}
  {
    assert OnBottom(start, 0) && OnBottom(start, count) ==> forall i: nat :: i <= count ==> OnBottom(start, i);
    assert OnTop(start, 0) && OnTop(start, count) ==> forall i: nat :: i <= count ==> OnTop(start, i);
  }

  // Register i of a range on the bottom board takes four addresses, on the top board one.
  predicate OnBottom(start: U32, i: nat)
  {
    0x83c0_0000 <= start + 4 * i < 0x83c3_0000
  }

  predicate OnTop(start: U32, i: nat)
  {
    0x1000 <= start + i < 0x4000
  }

  lemma PackedParts(cmdClass: Byte, cmdIdx: Byte, payload: seq<Byte>)
    requires 2 + |payload| < 0x1_0000
    ensures var f := Packed(cmdClass, cmdIdx, payload);
            |f| == |payload| + 10 && f[5] == cmdClass && f[6] == cmdIdx && f[7..|f| - 3] == payload
  {
    PackedLayout(cmdClass, cmdIdx, 2 + |payload|, payload);
  }

  lemma PayloadWord(f: seq<Byte>, payload: seq<Byte>, at: nat)
    requires |f| == |payload| + 10 && f[7..|f| - 3] == payload && at + 4 <= |payload|
    ensures Le32At(f, 7 + at) == Le32At(payload, at)
  {
    var p := f[7..|f| - 3];
    assert p[at] == f[7 + at] && p[at + 1] == f[8 + at] && p[at + 2] == f[9 + at] && p[at + 3] == f[10 + at];
  }

  lemma PayloadHalf(f: seq<Byte>, payload: seq<Byte>, at: nat)
    requires |f| == |payload| + 10 && f[7..|f| - 3] == payload && at + 2 <= |payload|
    ensures Le16At(f, 7 + at) == Le16At(payload, at)
  {
    var p := f[7..|f| - 3];
    assert p[at] == f[7 + at] && p[at + 1] == f[8 + at];
  }

  /** A register write: class of the board, index 2, address, a count of 1, value. */
  lemma WriteLayout(cmdClass: Byte, addr: U32, val: U32)
    ensures var f := Packed(cmdClass, WRITE_REG_CMD, PutLe32(addr) + PutLe16(1) + PutLe32(val));
            && |f| == 20 && f[5] == cmdClass && f[6] == 0x02
            && Le32At(f, 7) == addr && Le16At(f, 11) == 1 && Le32At(f, 13) == val
  {
    hide PutLe32, PutLe16, WithTail, FrameHeadPack, Le16At, Le32At;
    var a, n, v := PutLe32(addr), PutLe16(1), PutLe32(val);
    var payload := a + n + v;
    var f := Packed(cmdClass, WRITE_REG_CMD, payload);
    PackedLayout(cmdClass, WRITE_REG_CMD, 2 + |payload|, payload);
    Triple(a, n, v);
    LowHalf16(1);
    LowWord32(addr);
    LowWord32(val);
    PayloadWord(f, payload, 0);
    PayloadHalf(f, payload, 4);
    PayloadWord(f, payload, 6);
  }

  lemma Triple(a: seq<Byte>, n: seq<Byte>, v: seq<Byte>)
    requires |a| == 4 && |n| == 2 && |v| == 4
    ensures Le32At(a + n + v, 0) == Le32At(a, 0) && Le16At(a + n + v, 4) == Le16At(n, 0)
    ensures Le32At(a + n + v, 6) == Le32At(v, 0)
    ensures Le32At(a + n, 0) == Le32At(a, 0) && Le16At(a + n, 4) == Le16At(n, 0)
  {
  }

  /** A register read: class of the board, index 1, address, a count of 1. */
  lemma ReadLayout(cmdClass: Byte, addr: U32)
    ensures var f := Packed(cmdClass, READ_REG_CMD, PutLe32(addr) + PutLe16(1));
            && |f| == 16 && f[5] == cmdClass && f[6] == 0x01 && Le32At(f, 7) == addr && Le16At(f, 11) == 1
  {
    hide PutLe32, PutLe16, WithTail, FrameHeadPack, Le16At, Le32At;
    var a, n := PutLe32(addr), PutLe16(1);
    var payload := a + n;
    var f := Packed(cmdClass, READ_REG_CMD, payload);
    PackedLayout(cmdClass, READ_REG_CMD, 2 + |payload|, payload);
    Triple(a, n, a);
    LowHalf16(1);
    LowWord32(addr);
    PayloadWord(f, payload, 0);
    PayloadHalf(f, payload, 4);
  }

  lemma {:induction false} PairsAt(a: seq<U32>, b: seq<U32>, n: nat, i: nat)
    requires i < n <= |a| && n <= |b|
    ensures Le32At(Pairs(a, b, n), 8 * i) == a[i] && Le32At(Pairs(a, b, n), 8 * i + 4) == b[i]
    decreases n
  {
    hide Le32At, PutLe32;
    var before, x, y := Pairs(a, b, n - 1), PutLe32(a[n - 1]), PutLe32(b[n - 1]);
    assert Pairs(a, b, n) == before + x + y;
    if i < n - 1 {
      PairsAt(a, b, n - 1, i);
      WordWithin([], before, x + y, 8 * i);
      WordWithin([], before, x + y, 8 * i + 4);
      assert [] + before + (x + y) == before + x + y;
    } else {
      WordWithin(before, x, y, 0);
      WordWithin(before + x, y, [], 0);
      assert before + x + y + [] == before + x + y;
    }
  }

  /** A reflectivity calibration: class 0x50, index 8, count, then address and value of pair i at
      offset 9 + 8i. */
  lemma CalibrationLayout(addrs: seq<U32>, vals: seq<U32>, i: nat)
    requires i < |addrs| <= 224 && |addrs| <= |vals|
    ensures var f := Packed(TOP_CONTORL_CLASS, TOP_GET_INTENSITY_CMD,
                            PutLe16(|addrs|) + Pairs(addrs, vals, |addrs|));
            && |f| == 12 + 8 * |addrs| && f[5] == 0x50 && f[6] == 0x08 && Le16At(f, 7) == |addrs|
            && Le32At(f, 9 + 8 * i) == addrs[i] && Le32At(f, 13 + 8 * i) == vals[i]
  {
    hide PutLe16, WithTail, FrameHeadPack, Pairs, Le16At, Le32At;
    var n, pairs := PutLe16(|addrs|), Pairs(addrs, vals, |addrs|);
    var payload := n + pairs;
    var f := Packed(TOP_CONTORL_CLASS, TOP_GET_INTENSITY_CMD, payload);
    PackedLayout(TOP_CONTORL_CLASS, TOP_GET_INTENSITY_CMD, 2 + |payload|, payload);
    PairsAt(addrs, vals, |addrs|, i);
    LowHalf16(|addrs|);
    HalfWithin([], n, pairs, 0);
    WordWithin(n, pairs, [], 8 * i);
    WordWithin(n, pairs, [], 8 * i + 4);
    assert [] + n + pairs == payload == n + pairs + [];
    PayloadHalf(f, payload, 0);
    PayloadWord(f, payload, 2 + 8 * i);
    PayloadWord(f, payload, 6 + 8 * i);
  }

  lemma {:induction false} ChannelsAt(angles: seq<U32>, n: nat, i: nat)
    requires i < n && 2 * n <= |angles| && n < 0x1_0000
    ensures var c := Channels(angles, n);
            Le16At(c, 10 * i) == i + 1 &&
            Le32At(c, 10 * i + 2) == angles[2 * i] && Le32At(c, 10 * i + 6) == angles[2 * i + 1]
    decreases n
  {
    hide Le32At, Le16At, PutLe32, PutLe16;
    var before := Channels(angles, n - 1);
    var k, x, y := PutLe16(n), PutLe32(angles[2 * n - 2]), PutLe32(angles[2 * n - 1]);
    var last := k + x + y;
    assert Channels(angles, n) == before + last;
    if i < n - 1 {
      ChannelsAt(angles, n - 1, i);
      HalfWithin([], before, last, 10 * i);
      WordWithin([], before, last, 10 * i + 2);
      WordWithin([], before, last, 10 * i + 6);
      assert [] + before + last == before + last;
    } else {
      Channel(k, x, y);
      HalfWithin(before, last, [], 0);
      WordWithin(before, last, [], 2);
      WordWithin(before, last, [], 6);
      LowHalf16(n);
      assert before + last + [] == before + last;
    }
  }

  lemma LowHalf16(n: U16)
    ensures Le16At(PutLe16(n), 0) == n
  {
  }

  lemma LowWord32(x: U32)
    ensures Le32At(PutLe32(x), 0) == x
  {
  }

  lemma Channel(k: seq<Byte>, x: seq<Byte>, y: seq<Byte>)
    requires |k| == 2 && |x| == 4 && |y| == 4
    ensures Le16At(k + x + y, 0) == Le16At(k, 0)
    ensures Le32At(k + x + y, 2) == Le32At(x, 0) && Le32At(k + x + y, 6) == Le32At(y, 0)
  {
  }

  /** Channel angles: class 0xE0, index 1, count, then number, vertical and horizontal angle of
      channel i + 1 at offset 9 + 10i. */
  lemma ChannelLayout(angles: seq<U32>, i: nat)
    requires i < |angles| / 2 <= 6553
    ensures var n := |angles| / 2;
            var f := Packed(OTHER_CTRL_CLASS, SET_CHANNEL_ANGLE_CMD, PutLe16(n) + Channels(angles, n));
            && |f| == 12 + 10 * n && f[5] == 0xE0 && f[6] == 0x01 && Le16At(f, 7) == n
            && Le16At(f, 9 + 10 * i) == i + 1
            && Le32At(f, 11 + 10 * i) == angles[2 * i] && Le32At(f, 15 + 10 * i) == angles[2 * i + 1]
  {
    hide PutLe16, Packed, Channels, Le16At, Le32At;
    var n := |angles| / 2;
    var payload := PutLe16(n) + Channels(angles, n);
    var f := Packed(OTHER_CTRL_CLASS, SET_CHANNEL_ANGLE_CMD, payload);
    PackedParts(OTHER_CTRL_CLASS, SET_CHANNEL_ANGLE_CMD, payload);
    ChannelPayload(angles, n, i);
    PayloadHalf(f, payload, 0);
    PayloadHalf(f, payload, 2 + 10 * i);
    PayloadWord(f, payload, 4 + 10 * i);
    PayloadWord(f, payload, 8 + 10 * i);
  }

  lemma ChannelPayload(angles: seq<U32>, n: nat, i: nat)
    requires i < n && 2 * n <= |angles| && n < 0x1_0000
    ensures var payload := PutLe16(n) + Channels(angles, n);
            && Le16At(payload, 0) == n && Le16At(payload, 2 + 10 * i) == i + 1
            && Le32At(payload, 4 + 10 * i) == angles[2 * i] && Le32At(payload, 8 + 10 * i) == angles[2 * i + 1]
  {
    hide PutLe16, Channels, Le16At, Le32At;
    var k, channels := PutLe16(n), Channels(angles, n);
    ChannelsAt(angles, n, i);
    LowHalf16(n);
    HalfWithin([], k, channels, 0);
    HalfWithin(k, channels, [], 10 * i);
    WordWithin(k, channels, [], 10 * i + 2);
    WordWithin(k, channels, [], 10 * i + 6);
    assert [] + k + channels == k + channels == k + channels + [];
  }

  lemma {:induction false} WordsAt(vals: seq<U32>, n: nat, i: nat)
    requires i < n <= |vals|
    ensures Le32At(Words(vals, n), 4 * i) == vals[i]
    decreases n
  {
    hide Le32At, PutLe32;
    var before, x := Words(vals, n - 1), PutLe32(vals[n - 1]);
    assert Words(vals, n) == before + x;
    if i < n - 1 {
      WordsAt(vals, n - 1, i);
      WordWithin([], before, x, 4 * i);
      assert [] + before + x == before + x;
    } else {
      WordWithin(before, x, [], 0);
      assert before + x + [] == before + x;
    }
  }

  /** A write of consecutive registers, as it is built: class, index 2, start address, a big-endian
      count, and value i at offset 13 + 4i. */
  lemma WriteFromLayout(cmdClass: Byte, start: U32, vals: seq<U32>, i: nat)
    requires i < |vals| <= 60
    ensures var f := WithTail(FrameHeadPack(cmdClass, WRITE_REG_CMD, 2 + 8 * |vals|) +
                              (PutLe32(start) + PutBe16(|vals|) + Words(vals, |vals|)));
            && |f| == 16 + 4 * |vals| && f[5] == cmdClass && f[6] == 0x02
            && Le32At(f, 7) == start && f[11] == 0 && f[12] == |vals| && Le32At(f, 13 + 4 * i) == vals[i]
  {
    hide PutLe32, WithTail, FrameHeadPack, Words, Le32At;
    var a, n, words := PutLe32(start), PutBe16(|vals|), Words(vals, |vals|);
    var payload := a + n + words;
    var f := WithTail(FrameHeadPack(cmdClass, WRITE_REG_CMD, 2 + 8 * |vals|) + payload);
    PackedLayout(cmdClass, WRITE_REG_CMD, 2 + 8 * |vals|, payload);
    WordsAt(vals, |vals|, i);
    WordWithin([], a, n + words, 0);
    WordWithin(a + n, words, [], 4 * i);
    assert [] + a + (n + words) == payload == a + n + words + [];
    PayloadWord(f, payload, 0);
    PayloadWord(f, payload, 6 + 4 * i);
    assert f[11] == payload[4] && f[12] == payload[5];
  }

  lemma DeclaredWraps(count: nat, declared: U16)
    requires count < 0x1_0000 && declared == (2 + (count * 10 + 2) % 0x1_0000) % 0x1_0000
    ensures declared == 4 + 10 * count <==> count <= 6553
  {
  }

  // The declared length of a packed frame is the one its head was given.
  lemma HeadDeclares(cmdClass: Byte, cmdIdx: Byte, declared: U16, payload: seq<Byte>)
    ensures var f := WithTail(FrameHeadPack(cmdClass, cmdIdx, declared) + payload);
            |f| == |payload| + 10 && DeclaredLen(f) == declared
  {
    hide ByteSum;
    var head := FrameHeadPack(cmdClass, cmdIdx, declared);
    var f := WithTail(head + payload);
    assert head[3..5] == PutBe16(declared);
    assert f[3] == head[3] && f[4] == head[4];
  }
}
