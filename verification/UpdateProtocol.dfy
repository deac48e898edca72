/** The Airy and Ruby4 firmware update: `TcpCom::update` sends a request, the file in numbered
    blocks and a byte sum, and waits for the acknowledgement of each packet before the next.
    The host thread, the reader thread, the link and the lidar are steps of one state machine,
    with acknowledgements travelling as bytes through the parser of `AiryStream`. */
module UpdateProtocol {
  import opened Bytes
  import opened AiryStream
  import opened AiryComm
  import opened Wrappers

  const BLOCK := 1024

  datatype Packet =
    | Request(len: U32)
    | Data(index: U32, body: seq<Byte>)
    | CheckSum(sum: U32)

  // The flag whose builder clears it and whose acknowledgement raises it.
  function Flag(p: Packet): (r: UpdateFlag)
  {
    match p
    case Request(_) => UPDATE_REQUEST
    case Data(_, _) => UPDATE_SEND_DATA
    case CheckSum(_) => UPDATE_CHECKSUM
  }

  function Tag(p: Packet): (r: Byte)
  {
    match p
    case Request(_) => 0xC1
    case Data(_, _) => 0xC2
    case CheckSum(_) => 0xC3
  }

  function Payload(p: Packet): (r: seq<Byte>)
  {
    [Tag(p)] + match p
               case Request(len) => PutLe32(len)
               case Data(index, body) => PutLe32(index) + body
               case CheckSum(sum) => PutLe32(sum)
  }

  // ------------------------------------------------------ What update() sends

  // The length is taken into 32 bits.
  function FileLen(file: seq<Byte>): (r: U32)
  {
    |file| % 0x1_0000_0000
  }

  function BlockCount(file: seq<Byte>): (r: nat)
  {
    FileLen(file) / BLOCK + if FileLen(file) % BLOCK != 0 then 1 else 0
  }

  // Block k; the one behind the full blocks runs to the end of the file.
  function Block(file: seq<Byte>, k: nat): (r: seq<Byte>)
    requires k < BlockCount(file)
  {
    if k < FileLen(file) / BLOCK then file[k * BLOCK..(k + 1) * BLOCK] else file[k * BLOCK..]
  }

  function Plan(file: seq<Byte>): (r: seq<Packet>)
    ensures |r| == BlockCount(file) + 2
  {
    [Request(FileLen(file))] +
    seq(BlockCount(file), k requires 0 <= k < BlockCount(file) => Data(k + 1, Block(file, k))) +
    [CheckSum(ByteSum(file[..FileLen(file)]) % 0x1_0000_0000)]
  }

  lemma PlanShape(file: seq<Byte>)
    ensures var plan, n := Plan(file), BlockCount(file);
            && plan[0] == Request(FileLen(file))
            && (forall k :: 0 <= k < n ==> plan[k + 1] == Data(k + 1, Block(file, k)))
            && plan[n + 1] == CheckSum(ByteSum(file[..FileLen(file)]) % 0x1_0000_0000)
  {
    hide Block, ByteSum;
  }

  // The plan in the terms of the loop: full blocks, then what is left.
  lemma PlanBlocks(file: seq<Byte>)
    ensures var plan, len := Plan(file), FileLen(file);
            var count, left := len / BLOCK, len % BLOCK;
            && len <= |file| && count * BLOCK <= len
            && |plan| == count + (if left != 0 then 1 else 0) + 2
            && plan[0] == Request(len)
            && (forall k {:trigger plan[k + 1]} :: 0 <= k < count ==>
                 (k + 1) * BLOCK <= |file| && plan[k + 1] == Data(k + 1, file[k * BLOCK..(k + 1) * BLOCK]))
            && (left != 0 ==> plan[count + 1] == Data(count + 1, file[count * BLOCK..]))
            && plan[|plan| - 1] == CheckSum(ByteSum(file[..len]) % 0x1_0000_0000)
  {
    hide ByteSum, Plan;
    PlanShape(file);
    var count := FileLen(file) / BLOCK;
    assert forall k {:trigger Plan(file)[k + 1]} :: 0 <= k < count ==>
      Plan(file)[k + 1] == Data(k + 1, Block(file, k));
    if FileLen(file) % BLOCK != 0 {
      assert Plan(file)[count + 1] == Data(count + 1, Block(file, count));
    }
  }

  /** `update`, with the outcome of every `sendData` given: the packets go out in the order of
      the plan until the first one that is not acknowledged in time. */
  method Update(file: seq<Byte>, acks: seq<bool>) returns (ok: bool, sent: seq<Packet>)
    requires |acks| == |Plan(file)|
    ensures 0 < |sent| && sent <= Plan(file)
    ensures ok <==> forall i :: 0 <= i < |acks| ==> acks[i]
    ensures ok ==> sent == Plan(file)
    ensures !ok ==> !acks[|sent| - 1] && forall i :: 0 <= i < |sent| - 1 ==> acks[i]
  {
    hide Plan, ByteSum, FileLen;
    PlanBlocks(file);
    ghost var plan := Plan(file);
    var len := FileLen(file);
    var count, left := len / BLOCK, len % BLOCK;
    sent := [Request(len)];
    if !acks[0] {
      return false, sent;
    }
    for k := 0 to count
      invariant sent == plan[..k + 1]
      invariant forall i :: 0 <= i <= k ==> acks[i]
    {
      var idx := k + 1;
      assert plan[k + 1] == Data(k + 1, file[k * BLOCK..(k + 1) * BLOCK]);
      sent := sent + [Data(idx, file[k * BLOCK..(k + 1) * BLOCK])];
      if !acks[idx] {
        return false, sent;
      }
    }
    if left != 0 {
      sent := sent + [Data(count + 1, file[count * BLOCK..])];
      if !acks[count + 1] {
        return false, sent;
      }
    }
    var sum := SumBytes(file, len);
    sent := sent + [CheckSum(sum)];
    assert sent == plan;
    return acks[|sent| - 1], sent;
  }

  // What an attempt to send some packets comes to, given the outcome for each.
  datatype Attempt = Attempt(ok: bool, sent: seq<Packet>)

  function Attempted(plan: seq<Packet>, acks: seq<bool>): (r: Attempt)
    requires |acks| == |plan|
  {
    if plan == [] then Attempt(true, [])
    else if !acks[0] then Attempt(false, [plan[0]])
    else
      var later := Attempted(plan[1..], acks[1..]);
      Attempt(later.ok, [plan[0]] + later.sent)
  }

  // With n successes first, n packets are through, and a failure behind them is the end.
  lemma {:induction false} AttemptedAt(plan: seq<Packet>, acks: seq<bool>, n: nat)
    requires |acks| == |plan| && n <= |plan|
    requires forall i :: 0 <= i < n ==> acks[i]
    ensures n == |plan| ==> Attempted(plan, acks) == Attempt(true, plan)
    ensures n < |plan| && !acks[n] ==> Attempted(plan, acks) == Attempt(false, plan[..n + 1])
    ensures n < |plan| ==> plan[..n + 1] <= Attempted(plan, acks).sent
    decreases n
  {
    if n > 0 {
      AttemptedAt(plan[1..], acks[1..], n - 1);
      HeadOfFront(plan, n);
    }
  }

  lemma HeadOfFront(plan: seq<Packet>, n: nat)
    requires 0 < n <= |plan|
    ensures plan == [plan[0]] + plan[1..]
    ensures n < |plan| ==> plan[..n + 1] == [plan[0]] + plan[1..][..n]
  {
  }

  /** What `Update` promises fixes its results: they are the attempt's. */
  lemma UpdateIsAttempt(plan: seq<Packet>, acks: seq<bool>, ok: bool, sent: seq<Packet>)
    requires |acks| == |plan| && 0 < |sent| && sent <= plan
    requires ok <==> forall i :: 0 <= i < |acks| ==> acks[i]
    requires ok ==> sent == plan
    requires !ok ==> !acks[|sent| - 1] && forall i :: 0 <= i < |sent| - 1 ==> acks[i]
    ensures Attempt(ok, sent) == Attempted(plan, acks)
  {
    AttemptedAt(plan, acks, if ok then |sent| else |sent| - 1);
  }

  method SumBytes(file: seq<Byte>, len: nat) returns (sum: U32)
    requires len <= |file|
    ensures sum == ByteSum(file[..len]) % 0x1_0000_0000
  {
    sum := 0;
    for k := 0 to len
      invariant sum == ByteSum(file[..k]) % 0x1_0000_0000
    {
      assert file[..k + 1][..k] == file[..k];
      sum := (sum + file[k]) % 0x1_0000_0000;
    }
  }

  // The file bytes that the data packets of a packet list carry.
  function Bodies(packets: seq<Packet>): (r: seq<Byte>)
  {
    if packets == [] then []
    else (if packets[0].Data? then packets[0].body else []) + Bodies(packets[1..])
  }

  lemma {:induction false} BodiesSnoc(packets: seq<Packet>, p: Packet)
    ensures Bodies(packets + [p]) == Bodies(packets) + if p.Data? then p.body else []
    decreases |packets|
  {
    if packets == [] {
      assert [p][1..] == [] && packets + [p] == [p];
    } else {
      assert (packets + [p])[1..] == packets[1..] + [p];
      BodiesSnoc(packets[1..], p);
      Assoc(if packets[0].Data? then packets[0].body else [], Bodies(packets[1..]), if p.Data? then p.body else []);
    }
  }

  // The file up to block k.
  function Front(file: seq<Byte>, k: nat): (r: seq<Byte>)
    requires k <= BlockCount(file)
  {
    if k <= FileLen(file) / BLOCK then file[..k * BLOCK] else file
  }

  lemma FrontGrows(file: seq<Byte>, k: nat)
    requires k < BlockCount(file)
    ensures Front(file, k) + Block(file, k) == Front(file, k + 1)
  {
  }

  lemma {:induction false} BodiesOfPlan(file: seq<Byte>, k: nat)
    requires k <= BlockCount(file)
    ensures Bodies(Plan(file)[..k + 1]) == Front(file, k)
    decreases k
  {
    hide Plan, Block, FileLen, BlockCount;
    PlanShape(file);
    var plan := Plan(file);
    if k == 0 {
      assert plan[..1] == [plan[0]] && plan[..1][1..] == [];
    } else {
      BodiesOfPlan(file, k - 1);
      assert plan[..k + 1] == plan[..k] + [plan[k]];
      BodiesSnoc(plan[..k], plan[k]);
      FrontGrows(file, k - 1);
    }
  }

  /** The data bodies, in order, are the file: exactly unless the file is a multiple of the
      block size and too long for the 32-bit length. */
  lemma PlanCarriesFile(file: seq<Byte>)
    ensures Bodies(Plan(file)) == file <==> |file| < 0x1_0000_0000 || |file| % BLOCK != 0
  {
    hide Plan, Bodies;
    PlanShape(file);
    var n := BlockCount(file);
    var plan := Plan(file);
    BodiesOfPlan(file, n);
    assert plan == plan[..n + 1] + [plan[n + 1]];
    BodiesSnoc(plan[..n + 1], plan[n + 1]);
    SameRemainder(|file|);
    if |file| % BLOCK == 0 {
      assert n * BLOCK == FileLen(file);
      if |file| < 0x1_0000_0000 {
        assert file[..|file|] == file;
      }
    }
  }

  lemma SameRemainder(n: nat)
    ensures n % 0x1_0000_0000 % BLOCK == n % BLOCK
  {
  }

  // The frame of a packet. The length goes through a 16-bit parameter.
  function PacketFrame(index: Byte, p: Packet): (f: seq<Byte>)
  {
    WithTail(FrameHeadPack(FIRMWARE_UPDATE_CLASS, index, (2 + |Payload(p)|) % 0x1_0000) + Payload(p))
  }

  /** A packet's frame has the size it declares if and only if the payload fits the length field;
      it is then accepted by the byte-sum check, whatever follows it. */
  lemma PacketAccepted(index: Byte, p: Packet, more: seq<Byte>)
    ensures LengthContract(PacketFrame(index, p)) <==> 2 + |Payload(p)| < 0x1_0000
    ensures 2 + |Payload(p)| < 0x1_0000 ==> CrcOk(PacketFrame(index, p) + more)
  {
    hide WithTail, CrcOk, Payload, FrameHeadPack, DeclaredLen;
    HeadDeclares(FIRMWARE_UPDATE_CLASS, index, (2 + |Payload(p)|) % 0x1_0000, Payload(p));
    FitsWord(2 + |Payload(p)|);
    if 2 + |Payload(p)| < 0x1_0000 {
      PackedAccepted(FIRMWARE_UPDATE_CLASS, index, Payload(p), more);
    }
  }

  lemma FitsWord(n: nat)
    ensures n % 0x1_0000 == n <==> n < 0x1_0000
  {
  }

  // The length, block number or sum that a packet carries.
  function Number(p: Packet): (n: U32)
  {
    match p
    case Request(len) => len
    case Data(index, _) => index
    case CheckSum(sum) => sum
  }

  /** What a receiver reads off an update frame: class 0x30, the command index, a tag, the packet's
      number in four bytes, lowest first, and behind it the file bytes and nothing else. */
  lemma FrameLayout(index: Byte, p: Packet)
    ensures var f := PacketFrame(index, p);
            && |f| >= 15 && f[0] == 0xFF && f[1] == 0xFF && f[2] == 0x00
            && f[5] == 0x30 && f[6] == index
            && f[7] == (if p.Request? then 0xC1 else if p.Data? then 0xC2 else 0xC3)
            && Le32At(f, 8) == Number(p)
            && f[12..|f| - 3] == (if p.Data? then p.body else [])
            && f[|f| - 3] == 0xFE
            && (|f| < 0x1_0008 ==> 0x100 * f[3] as int + f[4] as int == |f| - 8)
  {
    var payload := Payload(p);
    var number, body := PutLe32(Number(p)), if p.Data? then p.body else [];
    hide WithTail, FrameHeadPack, PutLe32, ByteSum;
    assert payload == [Tag(p)] + number + body;
    hide Payload;
    PackedLayout(FIRMWARE_UPDATE_CLASS, index, (2 + |payload|) % 0x1_0000, payload);
    FitsWord(2 + |payload|);
    var f := PacketFrame(index, p);
    hide PacketFrame;
    WordWithin([Tag(p)], number, body, 0);
    PayloadWord(f, payload, 1);
    BodyBehind([Tag(p)] + number, body, f);
  }

  lemma BodyBehind(head: seq<Byte>, body: seq<Byte>, f: seq<Byte>)
    requires |head| == 5 && |f| >= 10 && f[7..|f| - 3] == head + body
    ensures |f| == 15 + |body| && f[12..|f| - 3] == body && f[7] == head[0]
  {
    assert f[12..|f| - 3] == f[7..|f| - 3][5..];
  }

  // The file bytes that a receiver takes out of a frame.
  function Carried(f: seq<Byte>): (r: seq<Byte>)
    requires |f| >= 15
  {
    f[12..|f| - 3]
  }

  // Frame k of an update.
  function UpdateFrame(index: Byte, file: seq<Byte>, k: nat): (f: seq<Byte>)
    requires k < |Plan(file)|
  {
    PacketFrame(index, Plan(file)[k])
  }

  /** The whole update on the wire, below 4 GiB: a request with the length, then one data frame for
      each started 1024 bytes, numbered from 1, with bytes 1024k up to 1024(k+1) or the end, then
      the byte sum of the file. */
  lemma PlanOnWire(file: seq<Byte>, index: Byte)
    requires |file| < 0x1_0000_0000
    ensures var n := (|file| + 1023) / 1024;
            && |Plan(file)| == n + 2
            && (forall k :: 0 <= k < n + 2 ==> |UpdateFrame(index, file, k)| >= 15)
            && UpdateFrame(index, file, 0)[7] == 0xC1
            && Le32At(UpdateFrame(index, file, 0), 8) == |file|
            && (forall k :: 0 < k <= n ==> DataFrame(UpdateFrame(index, file, k), file, k))
            && UpdateFrame(index, file, n + 1)[7] == 0xC3
            && Le32At(UpdateFrame(index, file, n + 1), 8) == ByteSum(file) % 0x1_0000_0000
  {
    hide Plan, PacketFrame, ByteSum;
    PlanShape(file);
    Blocks1024(file);
    var n := BlockCount(file);
    assert file[..|file|] == file;
    forall k | 0 <= k < n + 2
      ensures |UpdateFrame(index, file, k)| >= 15
    {
      FrameLayout(index, Plan(file)[k]);
    }
    FrameLayout(index, Plan(file)[0]);
    FrameLayout(index, Plan(file)[n + 1]);
    forall k | 0 < k <= n
      ensures DataFrame(UpdateFrame(index, file, k), file, k)
    {
      assert Plan(file)[k - 1 + 1] == Data(k - 1 + 1, Block(file, k - 1));
      FrameLayout(index, Plan(file)[k]);
      BlockAt(file, k - 1);
    }
  }

  // Data frame k of a file.
  predicate DataFrame(f: seq<Byte>, file: seq<Byte>, k: nat)
  {
    && |f| >= 15 && f[7] == 0xC2 && 0 < k && 1024 * (k - 1) < |file| && Le32At(f, 8) == k
    && Carried(f) == file[1024 * (k - 1)..if 1024 * k < |file| then 1024 * k else |file|]
  }

  lemma Blocks1024(file: seq<Byte>)
    requires |file| < 0x1_0000_0000
    ensures BlockCount(file) == (|file| + 1023) / 1024 && FileLen(file) == |file|
  {
  }

  lemma BlockAt(file: seq<Byte>, k: nat)
    requires |file| < 0x1_0000_0000 && k < BlockCount(file)
    ensures 1024 * k < |file|
    ensures Block(file, k) == file[1024 * k..if 1024 * (k + 1) < |file| then 1024 * (k + 1) else |file|]
  {
  }

  // What the frames from k on carry.
  function CarriedFrom(index: Byte, file: seq<Byte>, k: nat): (r: seq<Byte>)
    requires |file| < 0x1_0000_0000 && 0 < k <= |Plan(file)| - 1
    decreases |Plan(file)| - k
  {
    PlanOnWire(file, index);
    if k == |Plan(file)| - 1 then []
    else Carried(UpdateFrame(index, file, k)) + CarriedFrom(index, file, k + 1)
  }

  /** The bytes that a receiver takes out of the data frames, one after the other, are the file. */
  lemma {:induction false} FramesCarryFile(index: Byte, file: seq<Byte>, k: nat)
    requires |file| < 0x1_0000_0000 && 0 < k <= |Plan(file)| - 1
    ensures CarriedFrom(index, file, k) == (if 1024 * (k - 1) < |file| then file[1024 * (k - 1)..] else [])
    decreases |Plan(file)| - k
  {
    hide UpdateFrame, Plan, Carried;
    PlanOnWire(file, index);
    if k < |Plan(file)| - 1 {
      assert DataFrame(UpdateFrame(index, file, k), file, k);
      FramesCarryFile(index, file, k + 1);
    }
  }

  // Every packet of the list makes a frame of the size it declares.
  ghost predicate AllFramed(index: Byte, packets: seq<Packet>)
  {
    forall p :: p in packets ==> LengthContract(PacketFrame(index, p))
  }

  // The packet behind the full blocks takes all bytes from there on.
  lemma TooLong(file: seq<Byte>, index: Byte)
    requires |file| >= 0x1_0000_0000 && |file| % BLOCK != 0
    ensures !AllFramed(index, Plan(file))
  {
    hide Plan, PacketFrame, LengthContract, ByteSum;
    PlanBlocks(file);
    SameRemainder(|file|);
    var count := FileLen(file) / BLOCK;
    var p := Data(count + 1, file[count * BLOCK..]);
    assert Plan(file)[count + 1] == p;
    assert |p.body| >= 0x1_0000_0000;
    PacketAccepted(index, p, []);
  }

  lemma ShortPackets(file: seq<Byte>, index: Byte)
    requires |file| < 0x1_0000_0000
    ensures AllFramed(index, Plan(file))
  {
    hide Plan, PacketFrame, LengthContract, Payload;
    var plan := Plan(file);
    forall k | 0 <= k < |plan|
      ensures LengthContract(PacketFrame(index, plan[k]))
    {
      ShortPacket(file, k);
      PacketAccepted(index, plan[k], []);
    }
  }

  lemma ShortPacket(file: seq<Byte>, k: nat)
    requires |file| < 0x1_0000_0000 && k < |Plan(file)|
    ensures |Payload(Plan(file)[k])| <= 5 + BLOCK
  {
    hide Plan, ByteSum, Block;
    PlanShape(file);
    if 0 < k < |Plan(file)| - 1 {
      assert Plan(file)[k - 1 + 1] == Data(k - 1 + 1, Block(file, k - 1));
      BlockSize(file, k - 1);
    }
  }

  lemma BlockSize(file: seq<Byte>, k: nat)
    requires |file| < 0x1_0000_0000 && k < BlockCount(file)
    ensures |Block(file, k)| <= BLOCK
  {
  }

  /** The plan transfers the file, in frames of the sizes they declare, if and only if the
      length of the file fits 32 bits. */
  lemma PlanTransfersFile(file: seq<Byte>, index: Byte)
    ensures Bodies(Plan(file)) == file && AllFramed(index, Plan(file)) <==> |file| < 0x1_0000_0000
  {
    hide Plan, Bodies, AllFramed;
    PlanCarriesFile(file);
    if |file| < 0x1_0000_0000 {
      ShortPackets(file, index);
    } else if |file| % BLOCK != 0 {
      TooLong(file, index);
    }
  }

  // ------------------------------------------------------------ State machine

  datatype Pc = Build | Write | Wait | Succeeded | Failed

  // A frame on its way to the host, and the packet it acknowledges, if any.
  datatype InFlight = InFlight(frame: seq<Byte>, ack: Option<nat>)

  datatype State = State(
    pc: Pc, next: nat,                 // host thread
    flags: set<UpdateFlag>,            // read_write_state_
    buffer: seq<Byte>,                 // read_data_buffer_
    toLidar: seq<Packet>,              // link, host to lidar
    received: seq<Packet>, acked: set<nat>,  // lidar
    wire: seq<Byte>,                   // link, lidar to host
    inFlight: seq<InFlight>,           // the frames that buffer and wire consist of
    heard: seq<seq<Byte>>,             // all frames the host has dispatched
    asked: seq<nat>)                   // how many of them when each packet was built

  datatype Action =
    | HostBuild                        // builder: clear the flag
    | HostWrite                        // sendData: hand the packet to the link
    | HostPoll                         // sendData: the flag is up
    | HostTimeout                      // sendData: the time is over
    | LidarReceive
    | LidarEmit(f: seq<Byte>, ack: Option<nat>)
    | HostRead(n: nat)                 // reader thread: one read of n bytes

  ghost predicate Enabled(plan: seq<Packet>, s: State, a: Action)
  {
    match a
    case HostBuild => s.pc == Build && s.next < |plan|
    case HostWrite => s.pc == Write && s.next < |plan|
    case HostPoll => s.pc == Wait && s.next < |plan| && Flag(plan[s.next]) in s.flags
    case HostTimeout => s.pc == Wait
    case LidarReceive => s.toLidar != []
    case LidarEmit(f, ack) =>
      && ValidFrame(f)
      && (ack.None? ==> UpdateFlagOf(f).None?)
      && (ack.Some? ==>
           ack.value < |s.received| && ack.value !in s.acked &&
           UpdateFlagOf(f) == Some(Flag(s.received[ack.value])))
    case HostRead(n) => 0 < n <= |s.wire| && n <= MAX_READ_BUFFER
  }

  ghost function Do(plan: seq<Packet>, s: State, a: Action): State
    requires Enabled(plan, s, a)
  {
    match a
    case HostBuild => s.(flags := s.flags - {Flag(plan[s.next])}, pc := Write, asked := s.asked + [|s.heard|])
    case HostWrite => s.(toLidar := s.toLidar + [plan[s.next]], pc := Wait)
    case HostPoll => s.(next := s.next + 1, pc := if s.next + 1 == |plan| then Succeeded else Build)
    case HostTimeout => s.(pc := Failed)
    case LidarReceive => s.(received := s.received + [s.toLidar[0]], toLidar := s.toLidar[1..])
    case LidarEmit(f, ack) =>
      s.(acked := if ack.Some? then s.acked + {ack.value} else s.acked,
         wire := s.wire + f, inFlight := s.inFlight + [InFlight(f, ack)])
    case HostRead(n) =>
      var d := Parse(s.buffer + s.wire[..n]);
      s.(buffer := d.rest, wire := s.wire[n..], flags := RaiseAll(s.flags, d.frames), heard := s.heard + d.frames,
         inFlight := if |d.frames| <= |s.inFlight| then s.inFlight[|d.frames|..] else [])
  }

  /** What surrounds the host is free: it may give up whenever it waits, read any bytes that have
      come, and the lidar may send any valid frame at any time, and a positive reply for any
      packet it has received and not yet acknowledged. */
  lemma Unconstrained(plan: seq<Packet>, s: State, n: nat, f: seq<Byte>, i: nat)
    ensures s.pc == Wait ==> Enabled(plan, s, HostTimeout)
    ensures 0 < n <= |s.wire| && n <= 1248 ==> Enabled(plan, s, HostRead(n))
    ensures ValidFrame(f) && (forall flag: UpdateFlag :: !Accepts(f, flag)) ==> Enabled(plan, s, LidarEmit(f, None))
    ensures ValidFrame(f) && i < |s.received| && i !in s.acked && Accepts(f, Flag(s.received[i])) ==>
              Enabled(plan, s, LidarEmit(f, Some(i)))
  {
    hide CrcOk, StartsFrame, DeclaredLen;
    if |f| >= 11 && UpdateFlagOf(f).Some? {
      assert Accepts(f, UpdateFlagOf(f).value);
    }
  }

  // Nothing in flight; the flags may hold anything from earlier commands.
  ghost predicate Initial(s: State)
  {
    s.pc == Build && s.next == 0 && s.buffer == [] && s.toLidar == [] &&
    s.received == [] && s.acked == {} && s.wire == [] && s.inFlight == [] && s.heard == [] && s.asked == []
  }

  ghost predicate Possible(plan: seq<Packet>, s: State, actions: seq<Action>)
    decreases |actions|
  {
    actions == [] || (Enabled(plan, s, actions[0]) && Possible(plan, Do(plan, s, actions[0]), actions[1..]))
  }

  ghost function After(plan: seq<Packet>, s: State, actions: seq<Action>): State
    requires Possible(plan, s, actions)
    decreases |actions|
  {
    if actions == [] then s else After(plan, Do(plan, s, actions[0]), actions[1..])
  }

  // ---------------------------------------------------------------- Invariant

  // How many packets of the plan have been handed to the link.
  function Sent(s: State): (r: nat)
  {
    if s.pc.Wait? || s.pc.Failed? then s.next + 1 else s.next
  }

  function Frames(items: seq<InFlight>): (r: seq<seq<Byte>>)
    ensures |r| == |items|
  {
    seq(|items|, k requires 0 <= k < |items| => items[k].frame)
  }

  ghost predicate HasAck(items: seq<InFlight>)
  {
    exists k :: 0 <= k < |items| && items[k].ack.Some?
  }

  // Buffer and wire are the frames in flight, the buffer less than one of them.
  ghost predicate WireInv(s: State)
  {
    && AllValid(Frames(s.inFlight))
    && s.buffer + s.wire == Concat(Frames(s.inFlight))
    && Completed(Frames(s.inFlight), |s.buffer|) == 0
  }

  ghost predicate HostInv(plan: seq<Packet>, s: State)
  {
    && s.next <= |plan| && Sent(s) <= |plan|
    && s.received + s.toLidar == plan[..Sent(s)]
    && (s.pc.Succeeded? ==> s.next == |plan|)
    && (s.pc.Build? || s.pc.Write? ==> s.next < |plan|)
  }

  // Frames in flight raise the current packet's flag or none, and at most one raises it.
  ghost predicate AckInv(plan: seq<Packet>, s: State)
  {
    && (forall i :: 0 <= i < s.next ==> i in s.acked)
    && (forall i :: i in s.acked ==> i < |s.received|)
    && (forall k :: 0 <= k < |s.inFlight| ==> InFlightOk(plan, s, s.inFlight[k]))
    && (forall j, k :: 0 <= j < k < |s.inFlight| ==> s.inFlight[j].ack.None? || s.inFlight[k].ack.None?)
  }

  ghost predicate InFlightOk(plan: seq<Packet>, s: State, x: InFlight)
  {
    && |x.frame| >= MIN_PACK_BYTES
    && (x.ack.None? ==> UpdateFlagOf(x.frame).None?)
    && (x.ack.Some? ==> x.ack.value == s.next < |plan| && s.next in s.acked &&
                        UpdateFlagOf(x.frame) == Some(Flag(plan[s.next])))
  }

  // Since the builder cleared it, the flag can only be up because the acknowledgement
  // of this very packet has come through.
  ghost predicate FlagInv(plan: seq<Packet>, s: State)
  {
    (s.pc.Write? || s.pc.Wait?) && s.next < |plan| && Flag(plan[s.next]) in s.flags ==>
      s.next in s.acked && !HasAck(s.inFlight)
  }

  ghost predicate Inv(plan: seq<Packet>, s: State)
  {
    WireInv(s) && HostInv(plan, s) && AckInv(plan, s) && FlagInv(plan, s)
  }

  lemma InitialInv(plan: seq<Packet>, s: State)
    requires Initial(s) && plan != []
    ensures Inv(plan, s)
  {
    assert Frames([]) == [];
  }

  lemma WirePreserved(plan: seq<Packet>, s: State, a: Action)
    requires WireInv(s) && Enabled(plan, s, a) && !a.HostRead?
    ensures WireInv(Do(plan, s, a))
  {
    hide Frames, Concat, Completed, ValidFrame, UpdateFlagOf, Flag;
    if a.LidarEmit? {
      EmittedFrames(s.inFlight, InFlight(a.f, a.ack));
      WireGrows(Frames(s.inFlight), s.buffer, s.wire, a.f);
    }
  }

  lemma WireGrows(frames: seq<seq<Byte>>, buffer: seq<Byte>, wire: seq<Byte>, f: seq<Byte>)
    requires AllValid(frames) && ValidFrame(f)
    requires buffer + wire == Concat(frames) && Completed(frames, |buffer|) == 0
    ensures AllValid(frames + [f])
    ensures buffer + (wire + f) == Concat(frames + [f]) && Completed(frames + [f], |buffer|) == 0
  {
    hide Concat, Completed, ValidFrame;
    ConcatSnoc(frames, f);
    assert buffer + (wire + f) == buffer + wire + f;
    ValidNotEmpty(f);
    CompletedExtends(frames, f, |buffer|);
  }

  lemma EmittedFrames(items: seq<InFlight>, x: InFlight)
    ensures Frames(items + [x]) == Frames(items) + [x.frame]
  {
  }

  // With less than one frame in the buffer, a frame more behind the others changes nothing.
  lemma CompletedExtends(frames: seq<seq<Byte>>, f: seq<Byte>, n: nat)
    requires Completed(frames, n) == 0 && n <= |Concat(frames)| && f != []
    ensures Completed(frames + [f], n) == 0
  {
    if frames != [] {
      assert (frames + [f])[0] == frames[0];
    }
  }

  // One read: the parser dispatches the frames in flight that it completes.
  lemma ReadDispatches(plan: seq<Packet>, s: State, n: nat)
    requires WireInv(s) && Enabled(plan, s, HostRead(n))
    ensures var d := Parse(s.buffer + s.wire[..n]);
            && |d.frames| <= |s.inFlight|
            && d.frames == Frames(s.inFlight[..|d.frames|])
            && WireInv(Do(plan, s, HostRead(n)))
  {
    hide Parse, Concat, Completed, CompletedBytes, Expected, ValidFrame, AllValid, Frames, RaiseAll, UpdateFlagOf;
    var frames := Frames(s.inFlight);
    var start := |s.buffer|;
    var m := start + n;
    var chunk, tail := s.wire[..n], s.wire[n..];
    SplitAt(s.buffer, s.wire);
    RestIsShort(frames, start);
    NothingCompleted(frames, start, start);
    assert s.wire == chunk + tail;
    NextCall(frames, start, chunk, tail);
    ExpectedFrames(frames, m);
    FramesSplit(s.inFlight, Completed(frames, m));
    Rejoin(Concat(frames[Completed(frames, m)..]), m - CompletedBytes(frames, m), tail);
  }

  lemma SplitAt<T>(front: seq<T>, back: seq<T>)
    ensures (front + back)[..|front|] == front && (front + back)[|front|..] == back
  {
  }

  lemma Rejoin<T>(whole: seq<T>, k: nat, tail: seq<T>)
    requires k <= |whole| && tail <= whole[k..] && |tail| == |whole| - k
    ensures whole[..k] + tail == whole
  {
  }

  lemma ExpectedFrames(frames: seq<seq<Byte>>, n: nat)
    requires n <= |Concat(frames)|
    ensures Expected(frames, n).frames == frames[..Completed(frames, n)]
    ensures |Expected(frames, n).frames| == Completed(frames, n)
    ensures |Expected(frames, n).rest| == n - CompletedBytes(frames, n)
  {
    hide Concat, Completed, CompletedBytes;
    RestBounds(frames, n);
  }

  lemma RestBounds(frames: seq<seq<Byte>>, n: nat)
    requires n <= |Concat(frames)|
    ensures CompletedBytes(frames, n) <= n && Completed(frames, n) <= |frames|
  {
  }

  lemma FramesSplit(items: seq<InFlight>, j: nat)
    requires j <= |items|
    ensures Frames(items)[..j] == Frames(items[..j]) && Frames(items)[j..] == Frames(items[j..])
  {
  }

  lemma {:induction false} RaiseMore(flags: set<UpdateFlag>, first: seq<seq<Byte>>, second: seq<seq<Byte>>)
    ensures RaiseAll(flags, first + second) == RaiseAll(RaiseAll(flags, first), second)
    decreases |first|
  {
    hide Raise;
    if first == [] {
      assert first + second == second;
    } else {
      assert (first + second)[1..] == first[1..] + second;
      RaiseMore(Raise(flags, first[0]), first[1..], second);
    }
  }

  /** Cutting a read in two changes nothing, so whatever the host could see between two frames of
      one read, it can also see between two reads. */
  lemma ReadMayBeCut(plan: seq<Packet>, s: State, m: nat, n: nat)
    requires WireInv(s) && 0 < m && 0 < n && Enabled(plan, s, HostRead(m + n))
    ensures Enabled(plan, s, HostRead(m)) && Enabled(plan, Do(plan, s, HostRead(m)), HostRead(n))
    ensures Do(plan, Do(plan, s, HostRead(m)), HostRead(n)) == Do(plan, s, HostRead(m + n))
  {
    hide WireInv, Parse, Do, Enabled, RaiseAll;
    MayRead(plan, s, m, n);
    BytesMayBeCut(s, m, n);
    ReadDispatches(plan, s, m);
    ReadDispatches(plan, s, m + n);
    ReadIs(plan, s, m);
    ReadIs(plan, s, m + n);
    var t := Do(plan, s, HostRead(m));
    MayReadRest(plan, s, t, m, n);
    ReadDispatches(plan, t, n);
    ReadIs(plan, t, n);
    CutTwice(s.wire, m, n);
    var d := Parse(s.buffer + s.wire[..m]);
    var e := Parse(t.buffer + t.wire[..n]);
    RaiseMore(s.flags, d.frames, e.frames);
    CutTwice(s.inFlight, |d.frames|, |e.frames|);
    Assoc(s.heard, d.frames, e.frames);
  }

  lemma MayRead(plan: seq<Packet>, s: State, m: nat, n: nat)
    requires 0 < m && 0 < n && Enabled(plan, s, HostRead(m + n))
    ensures Enabled(plan, s, HostRead(m)) && m + n <= |s.wire| && m + n <= MAX_READ_BUFFER
  {
  }

  lemma MayReadRest(plan: seq<Packet>, s: State, t: State, m: nat, n: nat)
    requires 0 < n && m + n <= |s.wire| && m + n <= MAX_READ_BUFFER && t.wire == s.wire[m..]
    ensures Enabled(plan, t, HostRead(n))
  {
  }

  lemma ReadIs(plan: seq<Packet>, s: State, n: nat)
    requires Enabled(plan, s, HostRead(n)) && |Parse(s.buffer + s.wire[..n]).frames| <= |s.inFlight|
    ensures var d := Parse(s.buffer + s.wire[..n]);
            Do(plan, s, HostRead(n)) ==
            s.(buffer := d.rest, wire := s.wire[n..], flags := RaiseAll(s.flags, d.frames),
               heard := s.heard + d.frames, inFlight := s.inFlight[|d.frames|..])
  {
    hide Parse, RaiseAll;
  }

  lemma BytesMayBeCut(s: State, m: nat, n: nat)
    requires WireInv(s) && m + n <= |s.wire| && m + n <= MAX_READ_BUFFER
    ensures var d := Parse(s.buffer + s.wire[..m]);
            var e := Parse(d.rest + s.wire[m..][..n]);
            Parse(s.buffer + s.wire[..m + n]) == Decoded(d.frames + e.frames, e.rest)
  {
    hide Parse, Concat, Completed, ValidFrame, AllValid, Frames;
    var frames := Frames(s.inFlight);
    CutTwice(s.wire, m, n);
    SplitAt(s.buffer, s.wire);
    ParseMayBeCut(frames, |s.buffer|, s.wire[..m], s.wire[m..][..n]);
  }

  lemma CutTwice<T>(s: seq<T>, m: nat, n: nat)
    requires m + n <= |s|
    ensures s[..m + n] == s[..m] + s[m..][..n] && s[m + n..] == s[m..][n..]
  {
  }

  // Dispatching them raises the current flag exactly when its acknowledgement is among them.
  lemma {:induction false} RaiseInFlight(plan: seq<Packet>, s: State, flags: set<UpdateFlag>, items: seq<InFlight>)
    requires forall k :: 0 <= k < |items| ==> InFlightOk(plan, s, items[k])
    ensures HasAck(items) ==> s.next < |plan| && s.next in s.acked
    ensures RaiseAll(flags, Frames(items)) ==
            if HasAck(items) then flags + {Flag(plan[s.next])} else flags
    decreases |items|
  {
    hide UpdateFlagOf;
    if items == [] {
      assert Frames(items) == [];
    } else {
      var x, rest := items[0], items[1..];
      assert Frames(items)[1..] == Frames(rest);
      RaiseInFlight(plan, s, Raise(flags, x.frame), rest);
      assert InFlightOk(plan, s, x);
      assert HasAck(items) <==> x.ack.Some? || HasAck(rest) by {
        if HasAck(rest) {
          var k :| 0 <= k < |rest| && rest[k].ack.Some?;
          assert items[k + 1].ack.Some?;
        }
        if HasAck(items) && x.ack.None? {
          var k :| 0 <= k < |items| && items[k].ack.Some?;
          assert rest[k - 1].ack.Some?;
        }
      }
    }
  }

  lemma ReadPreserves(plan: seq<Packet>, s: State, n: nat)
    requires Inv(plan, s) && Enabled(plan, s, HostRead(n))
    ensures Inv(plan, Do(plan, s, HostRead(n)))
  {
    hide Parse, Concat, Completed, AllValid, Frames, RaiseAll, UpdateFlagOf, WireInv;
    ReadDispatches(plan, s, n);
    var j := |Parse(s.buffer + s.wire[..n]).frames|;
    RaiseInFlight(plan, s, s.flags, s.inFlight[..j]);
    var t := Do(plan, s, HostRead(n));
    assert t.inFlight == s.inFlight[j..];
    forall k | 0 <= k < |t.inFlight|
      ensures InFlightOk(plan, t, t.inFlight[k])
    {
      assert InFlightOk(plan, s, s.inFlight[j + k]);
    }
    AcksSplit(s.inFlight, j);
  }

  // At most one acknowledgement is in flight: dispatched or still on its way, not both.
  lemma AcksSplit(items: seq<InFlight>, j: nat)
    requires j <= |items|
    requires forall i, k :: 0 <= i < k < |items| ==> items[i].ack.None? || items[k].ack.None?
    ensures HasAck(items[..j]) ==> !HasAck(items[j..])
    ensures HasAck(items[j..]) ==> HasAck(items)
  {
    if HasAck(items[j..]) {
      var b :| 0 <= b < |items[j..]| && items[j..][b].ack.Some?;
      assert items[j + b].ack.Some?;
    }
  }

  lemma EmitPreserves(plan: seq<Packet>, s: State, f: seq<Byte>, ack: Option<nat>)
    requires Inv(plan, s) && Enabled(plan, s, LidarEmit(f, ack))
    ensures Inv(plan, Do(plan, s, LidarEmit(f, ack)))
  {
    hide Concat, Completed, AllValid, Frames, UpdateFlagOf, WireInv;
    WirePreserved(plan, s, LidarEmit(f, ack));
    ValidNotEmpty(f);
    var t := Do(plan, s, LidarEmit(f, ack));
    if ack.Some? {
      assert ack.value == s.next && s.received[s.next] == plan[s.next];
      assert !HasAck(s.inFlight);
    }
    forall k | 0 <= k < |t.inFlight|
      ensures InFlightOk(plan, t, t.inFlight[k])
    {
      if k < |s.inFlight| {
        assert InFlightOk(plan, s, s.inFlight[k]);
      }
    }
  }

  lemma HostPreserves(plan: seq<Packet>, s: State, a: Action)
    requires Inv(plan, s) && Enabled(plan, s, a)
    requires !a.HostRead? && !a.LidarEmit?
    ensures Inv(plan, Do(plan, s, a))
  {
    hide Concat, Completed, AllValid, Frames, UpdateFlagOf, WireInv;
    WirePreserved(plan, s, a);
    var t := Do(plan, s, a);
    forall k | 0 <= k < |t.inFlight|
      ensures InFlightOk(plan, t, t.inFlight[k])
    {
      assert InFlightOk(plan, s, s.inFlight[k]);
    }
  }

  lemma {:induction false} InvHolds(plan: seq<Packet>, s: State, actions: seq<Action>)
    requires Inv(plan, s) && Possible(plan, s, actions)
    ensures Inv(plan, After(plan, s, actions))
    decreases |actions|
  {
    hide Inv, Enabled, Do;
    if actions != [] {
      var a := actions[0];
      if a.HostRead? {
        ReadPreserves(plan, s, a.n);
      } else if a.LidarEmit? {
        EmitPreserves(plan, s, a.f, a.ack);
      } else {
        HostPreserves(plan, s, a);
      }
      InvHolds(plan, Do(plan, s, a), actions[1..]);
    }
  }

  // ------------------------------------------------------------------ Results

  // The first n packets have been received and acknowledged.
  ghost predicate AckedUpTo(t: State, n: int)
  {
    n <= |t.received| && forall i :: 0 <= i < n ==> i in t.acked
  }

  /** Stop-and-wait. In every interleaving of host, reader thread, link and lidar: what the
      lidar has received is the front of the plan in order; no packet is handed to the link
      before all earlier ones have been received and acknowledged; and when the host reports
      success, the lidar has received and acknowledged the whole plan. */
  lemma StopAndWait(plan: seq<Packet>, s: State, actions: seq<Action>)
    requires plan != [] && Initial(s) && Possible(plan, s, actions)
    ensures var t := After(plan, s, actions);
            && t.received <= plan
            && AckedUpTo(t, Sent(t) - 1)
            && (t.pc.Succeeded? ==> t.received == plan && AckedUpTo(t, |plan|))
  {
    hide Inv, Do, Enabled;
    InitialInv(plan, s);
    InvHolds(plan, s, actions);
    InvConsequences(plan, After(plan, s, actions));
  }

  lemma InvConsequences(plan: seq<Packet>, t: State)
    requires Inv(plan, t)
    ensures t.received <= plan
    ensures AckedUpTo(t, Sent(t) - 1)
    ensures t.pc.Succeeded? ==> t.received == plan && AckedUpTo(t, |plan|)
  {
    hide WireInv, FlagInv, InFlightOk;
    assert t.received == plan[..Sent(t)][..|t.received|];
    if t.next > 0 {
      assert t.next - 1 in t.acked;
    }
  }

  // ------------------------------------------------------- What answered

  // A positive reply is among the frames heard from `from` up to `to`.
  ghost predicate Heard(heard: seq<seq<Byte>>, from: nat, to: nat, flag: UpdateFlag)
  {
    exists k :: from <= k < to && k < |heard| && Accepts(heard[k], flag)
  }

  // Where the answer to packet i can be: behind its building and before that of the next one.
  function Until(s: State, i: nat): (k: nat)
  {
    if i + 1 < |s.asked| then s.asked[i + 1] else |s.heard|
  }

  ghost predicate HeardInv(plan: seq<Packet>, s: State)
  {
    && s.next <= |plan| && |s.asked| == s.next + (if s.pc.Build? || s.pc.Succeeded? then 0 else 1)
    && (forall i :: 0 <= i < |s.asked| ==> s.asked[i] <= |s.heard|)
    && (forall i :: 0 <= i < s.next ==> Heard(s.heard, s.asked[i], Until(s, i), Flag(plan[i])))
    && ((s.pc.Write? || s.pc.Wait?) && s.next < |plan| && Flag(plan[s.next]) in s.flags ==>
         Heard(s.heard, s.asked[s.next], |s.heard|, Flag(plan[s.next])))
  }

  lemma HeardMore(heard: seq<seq<Byte>>, more: seq<seq<Byte>>, from: nat, to: nat, flag: UpdateFlag)
    requires to <= |heard|
    ensures Heard(heard, from, to, flag) ==> Heard(heard + more, from, to, flag)
    ensures Heard(heard, from, |heard|, flag) ==> Heard(heard + more, from, |heard + more|, flag)
  {
    hide Accepts;
    if Heard(heard, from, to, flag) {
      var k :| from <= k < to && k < |heard| && Accepts(heard[k], flag);
      assert (heard + more)[k] == heard[k];
    }
    if Heard(heard, from, |heard|, flag) {
      var k :| from <= k < |heard| && k < |heard| && Accepts(heard[k], flag);
      assert (heard + more)[k] == heard[k];
    }
  }

  lemma HeardNow(heard: seq<seq<Byte>>, more: seq<seq<Byte>>, from: nat, flags: set<UpdateFlag>, flag: UpdateFlag)
    requires from <= |heard| && (flag in flags ==> Heard(heard, from, |heard|, flag))
    ensures flag in RaiseAll(flags, more) ==> Heard(heard + more, from, |heard + more|, flag)
  {
    hide Accepts;
    RaiseAllExactly(flags, more, flag);
    HeardMore(heard, more, from, |heard|, flag);
    if flag !in flags && flag in RaiseAll(flags, more) {
      var f :| f in more && Accepts(f, flag);
      var j :| 0 <= j < |more| && more[j] == f;
      assert (heard + more)[|heard| + j] == f;
    }
  }

  lemma HeardByRead(plan: seq<Packet>, s: State, n: nat)
    requires HeardInv(plan, s) && Enabled(plan, s, HostRead(n))
    ensures HeardInv(plan, Do(plan, s, HostRead(n)))
  {
    hide Parse, RaiseAll, Accepts, Heard, Flag;
    var more := Parse(s.buffer + s.wire[..n]).frames;
    var t := Do(plan, s, HostRead(n));
    forall i | 0 <= i < t.next
      ensures Heard(t.heard, t.asked[i], Until(t, i), Flag(plan[i]))
    {
      HeardMore(s.heard, more, s.asked[i], Until(s, i), Flag(plan[i]));
    }
    if (s.pc.Write? || s.pc.Wait?) && s.next < |plan| {
      HeardNow(s.heard, more, s.asked[s.next], s.flags, Flag(plan[s.next]));
    }
  }

  lemma HeardByHost(plan: seq<Packet>, s: State, a: Action)
    requires HeardInv(plan, s) && Enabled(plan, s, a) && !a.HostRead?
    ensures HeardInv(plan, Do(plan, s, a))
  {
    hide Parse, RaiseAll, Accepts, Heard, Flag, UpdateFlagOf, ValidFrame;
    var t := Do(plan, s, a);
    forall i | 0 <= i < t.next
      ensures Heard(t.heard, t.asked[i], Until(t, i), Flag(plan[i]))
    {
      if i < s.next {
        assert Heard(s.heard, s.asked[i], Until(s, i), Flag(plan[i]));
      }
    }
  }

  lemma {:induction false} HeardHolds(plan: seq<Packet>, s: State, actions: seq<Action>)
    requires HeardInv(plan, s) && Possible(plan, s, actions)
    ensures HeardInv(plan, After(plan, s, actions))
    decreases |actions|
  {
    hide HeardInv, Enabled, Do;
    if actions != [] {
      if actions[0].HostRead? {
        HeardByRead(plan, s, actions[0].n);
      } else {
        HeardByHost(plan, s, actions[0]);
      }
      HeardHolds(plan, Do(plan, s, actions[0]), actions[1..]);
    }
  }

  /** No packet is passed without a positive reply: in every run, for each packet the host has
      polled through, a frame was dispatched between its building and the building of the next that
      is a firmware reply with response code 0 and the packet's tag. Success means that for all. */
  lemma EveryPacketAnswered(plan: seq<Packet>, s: State, actions: seq<Action>, i: nat)
    requires plan != [] && Initial(s) && Possible(plan, s, actions)
    ensures var t := After(plan, s, actions);
            && (t.pc.Succeeded? ==> t.next == |plan|)
            && (i < t.next <= |plan| ==>
                 i < |t.asked| && exists k ::
                   && t.asked[i] <= k < |t.heard| && (i + 1 < |t.asked| ==> k < t.asked[i + 1])
                   && Positive(t.heard[k], plan[i]))
  {
    hide Accepts, Inv, Do, Enabled, Possible, After;
    HeardHolds(plan, s, actions);
    InitialInv(plan, s);
    InvHolds(plan, s, actions);
    var t := After(plan, s, actions);
    HandedOver(plan, t);
    if i < t.next {
      assert Heard(t.heard, t.asked[i], Until(t, i), Flag(plan[i]));
      var k :| t.asked[i] <= k < Until(t, i) && k < |t.heard| && Accepts(t.heard[k], Flag(plan[i]));
      AcceptsIsPositive(t.heard[k], plan[i]);
    }
  }

  // A reply to a packet, byte by byte.
  predicate Positive(f: seq<Byte>, p: Packet)
  {
    && |f| >= 11 && f[5] == 0x30 && f[6] in {1, 3, 4} && f[7] == 0
    && f[8] == (if p.Request? then 0xC1 else if p.Data? then 0xC2 else 0xC3)
  }

  lemma AcceptsIsPositive(f: seq<Byte>, p: Packet)
    ensures Accepts(f, Flag(p)) <==> Positive(f, p)
  {
  }

  /** So a successful update has delivered the length, the data and the byte sum of the plan;
      and the data is the file, in frames of the sizes they declare, exactly for files whose
      length fits 32 bits. */
  lemma UpdateDelivers(file: seq<Byte>, index: Byte, s: State, actions: seq<Action>)
    requires Initial(s) && Possible(Plan(file), s, actions)
    requires After(Plan(file), s, actions).pc.Succeeded?
    ensures var got := After(Plan(file), s, actions).received;
            && |got| >= 2
            && got[0] == Request(|file| % 0x1_0000_0000)
            && got[|got| - 1] == CheckSum(ByteSum(file[..FileLen(file)]) % 0x1_0000_0000)
            && (Bodies(got) == file && AllFramed(index, got) <==> |file| < 0x1_0000_0000)
  {
    hide Plan, Possible, After, Bodies, AllFramed, ByteSum, BlockCount;
    StopAndWait(Plan(file), s, actions);
    PlanTransfersFile(file, index);
    PlanShape(file);
  }

  // What the host's polls came to in a run.
  function Outcomes(actions: seq<Action>): (r: seq<bool>)
  {
    if actions == [] then []
    else OutcomeOf(actions[0]) + Outcomes(actions[1..])
  }

  function Trues(n: nat): (r: seq<bool>)
    ensures |r| == n && forall i :: 0 <= i < n ==> r[i]
  {
    seq(n, _ => true)
  }

  // n successes, and a failure perhaps.
  function Report(n: nat, failed: bool): (r: seq<bool>)
    ensures |r| == n + (if failed then 1 else 0)
    ensures forall i :: 0 <= i < n ==> r[i]
    ensures failed ==> !r[n]
  {
    Trues(n) + if failed then [false] else []
  }

  lemma ReportMore(n: nat, failed: bool)
    ensures [true] + Report(n, failed) == Report(n + 1, failed)
    ensures [] + Report(n, failed) == Report(n, failed)
    ensures [false] + Report(0, false) == Report(0, true)
    ensures Report(0, false) == []
  {
  }

  lemma ReportFront(n: nat, failed: bool, acks: seq<bool>)
    requires Report(n, failed) <= acks
    ensures n <= |acks| && (forall i :: 0 <= i < n ==> acks[i])
    ensures failed ==> n < |acks| && !acks[n]
  {
    var report := Report(n, failed);
    assert forall i :: 0 <= i < |report| ==> report[i] == acks[i];
  }

  // What the polls between two states came to.
  predicate Reports(outcomes: seq<bool>, s: State, t: State)
  {
    && s.next <= t.next
    && (s.pc.Failed? ==> t.pc.Failed? && t.next == s.next)
    && outcomes == Report(t.next - s.next, t.pc.Failed? && !s.pc.Failed?)
  }

  function OutcomeOf(a: Action): (r: seq<bool>)
  {
    match a
    case HostPoll => [true]
    case HostTimeout => [false]
    case _ => []
  }

  lemma ReportsMore(plan: seq<Packet>, s: State, a: Action, t: State, outcomes: seq<bool>)
    requires Enabled(plan, s, a) && Reports(outcomes, Do(plan, s, a), t)
    ensures Reports(OutcomeOf(a) + outcomes, s, t)
  {
    StepOutcome(plan, s, a);
    var next := Do(plan, s, a);
    ReportMore(t.next - next.next, t.pc.Failed? && !next.pc.Failed?);
    hide Do, Enabled, Report;
  }

  lemma {:induction false} RunOutcomes(plan: seq<Packet>, s: State, actions: seq<Action>)
    requires Possible(plan, s, actions)
    ensures Reports(Outcomes(actions), s, After(plan, s, actions))
    decreases |actions|
  {
    hide Do, Enabled, OutcomeOf, Report;
    if actions == [] {
      ReportMore(0, false);
    } else {
      hide Reports;
      RunOutcomes(plan, Do(plan, s, actions[0]), actions[1..]);
      ReportsMore(plan, s, actions[0], After(plan, s, actions), Outcomes(actions[1..]));
    }
  }

  lemma StepOutcome(plan: seq<Packet>, s: State, a: Action)
    requires Enabled(plan, s, a)
    ensures var t := Do(plan, s, a);
            && t.next == s.next + (if a.HostPoll? then 1 else 0)
            && (t.pc.Failed? <==> s.pc.Failed? || a.HostTimeout?)
            && (s.pc.Failed? ==> !a.HostPoll? && !a.HostTimeout?)
  {
    hide Parse, UpdateFlagOf, ValidFrame;
  }

  /** The loop and the machine agree: with the outcomes that a run's polls came to, the host has
      handed over a front of what `Update` sends, and when it is done, exactly that, with the
      answer of `Update`. */
  lemma RunIsUpdate(plan: seq<Packet>, s: State, actions: seq<Action>, acks: seq<bool>)
    requires plan != [] && Initial(s) && Possible(plan, s, actions)
    requires |acks| == |plan| && Outcomes(actions) <= acks
    ensures var t := After(plan, s, actions);
            && t.received + t.toLidar <= Attempted(plan, acks).sent
            && (t.pc.Succeeded? || t.pc.Failed? ==>
                 Attempted(plan, acks) == Attempt(t.pc.Succeeded?, t.received + t.toLidar))
  {
    hide Inv, Do, Enabled, After, Possible, Attempted, Outcomes, Report;
    InitialInv(plan, s);
    InvHolds(plan, s, actions);
    RunOutcomes(plan, s, actions);
    var t := After(plan, s, actions);
    HandedOver(plan, t);
    ReportFront(t.next, t.pc.Failed?, acks);
    AttemptedAt(plan, acks, t.next);
  }

  lemma HandedOver(plan: seq<Packet>, t: State)
    requires Inv(plan, t)
    ensures t.next <= |plan| && Sent(t) <= |plan| && t.received + t.toLidar == plan[..Sent(t)]
    ensures t.pc.Succeeded? <==> t.next == |plan|
  {
    hide WireInv, AckInv, FlagInv;
  }

  // ------------------------------------------------- A lidar that answers

  function AckTag(flag: UpdateFlag): (r: Byte)
  {
    match flag
    case UPDATE_REQUEST => 0xC1
    case UPDATE_SEND_DATA => 0xC2
    case UPDATE_CHECKSUM => 0xC3
  }

  // A shortest acknowledgement: index 1, response code 0 and the tag.
  function AckFrame(flag: UpdateFlag): (f: seq<Byte>)
    ensures |f| == 12
  {
    WithTail([0xFF, 0xFF, 0x01, 0x00, 0x04, FIRMWARE_UPDATE_CLASS, 0x01, 0x00, AckTag(flag)])
  }

  lemma AckFrameValid(flag: UpdateFlag)
    ensures ValidFrame(AckFrame(flag)) && UpdateFlagOf(AckFrame(flag)) == Some(flag)
    ensures Parse(AckFrame(flag)) == Decoded([AckFrame(flag)], [])
  {
    var body: seq<Byte> := [0xFF, 0xFF, 0x01, 0x00, 0x04, FIRMWARE_UPDATE_CLASS, 0x01, 0x00, AckTag(flag)];
    var f := AckFrame(flag);
    var b := body + [0xFE];
    hide ByteSum;
    var crc := PutBe16(ByteSum(b[2..]) % 0x1_0000);
    assert f == b + crc && f[10] == crc[0] && f[11] == crc[1];
    assert DeclaredLen(f) == 4 && f[2..10] == b[2..];
    assert CrcOk(f);
    assert f[..12] == f && f[12..] == [];
    ParseEmpty([]);
  }

  // Nothing is under way and every packet before `next` has been dealt with.
  ghost predicate Quiet(plan: seq<Packet>, s: State)
  {
    && s.buffer == [] && s.wire == [] && s.inFlight == [] && s.toLidar == []
    && s.next <= |plan| && |s.received| == s.next
    && (forall i :: i in s.acked ==> i < s.next)
    && s.pc == if s.next < |plan| then Build else Succeeded
  }

  // One packet and its acknowledgement.
  function Exchange(p: Packet, n: nat): (r: seq<Action>)
  {
    [HostBuild, HostWrite, LidarReceive, LidarEmit(AckFrame(Flag(p)), Some(n)), HostRead(12), HostPoll]
  }

  lemma FirstAction(plan: seq<Packet>, s: State, a: Action, rest: seq<Action>)
    requires Enabled(plan, s, a)
    ensures Possible(plan, s, [a] + rest) <==> Possible(plan, Do(plan, s, a), rest)
    ensures Possible(plan, s, [a] + rest) ==>
              After(plan, s, [a] + rest) == After(plan, Do(plan, s, a), rest)
  {
    assert ([a] + rest)[1..] == rest;
  }

  lemma {:induction false} AfterMore(plan: seq<Packet>, s: State, first: seq<Action>, second: seq<Action>)
    requires Possible(plan, s, first)
    ensures Possible(plan, s, first + second) <==> Possible(plan, After(plan, s, first), second)
    ensures Possible(plan, s, first + second) ==>
              After(plan, s, first + second) == After(plan, After(plan, s, first), second)
    decreases |first|
  {
    hide Do, Enabled;
    if first == [] {
      assert first + second == second;
    } else {
      assert (first + second)[1..] == first[1..] + second;
      AfterMore(plan, Do(plan, s, first[0]), first[1..], second);
    }
  }

  // The state after the host's and the lidar's part of an exchange.
  lemma PacketAnswered(plan: seq<Packet>, s: State)
    requires Quiet(plan, s) && s.next < |plan|
    ensures var p := plan[s.next];
            var f := AckFrame(Flag(p));
            var t := s.(pc := Wait, flags := s.flags - {Flag(p)}, received := s.received + [p],
                        asked := s.asked + [|s.heard|],
                        acked := s.acked + {s.next}, wire := f, inFlight := [InFlight(f, Some(s.next))]);
            var actions := [HostBuild, HostWrite, LidarReceive, LidarEmit(f, Some(s.next))];
            Possible(plan, s, actions) && After(plan, s, actions) == t
  {
    hide Do, Enabled, AckFrame, Flag, Possible, After;
    PacketSent(plan, s);
    var s3 := Do(plan, Do(plan, Do(plan, s, HostBuild), HostWrite), LidarReceive);
    AckEmitted(plan, s3);
    FourActions(plan, s, HostBuild, HostWrite, LidarReceive,
                LidarEmit(AckFrame(Flag(plan[s.next])), Some(s.next)));
  }

  lemma PacketSent(plan: seq<Packet>, s: State)
    requires Quiet(plan, s) && s.next < |plan|
    ensures Enabled(plan, s, HostBuild) && Enabled(plan, Do(plan, s, HostBuild), HostWrite)
    ensures Enabled(plan, Do(plan, Do(plan, s, HostBuild), HostWrite), LidarReceive)
    ensures Do(plan, Do(plan, Do(plan, s, HostBuild), HostWrite), LidarReceive) ==
            s.(pc := Wait, flags := s.flags - {Flag(plan[s.next])}, received := s.received + [plan[s.next]],
               asked := s.asked + [|s.heard|])
  {
    hide Flag;
    var p := plan[s.next];
    assert [p][0] == p && [p][1..] == [] && [] + [p] == [p];
  }

  lemma AckEmitted(plan: seq<Packet>, s: State)
    requires s.next < |plan| && |s.received| == s.next + 1 && s.received[s.next] == plan[s.next]
    requires s.next !in s.acked && s.wire == [] && s.inFlight == []
    ensures var f := AckFrame(Flag(plan[s.next]));
            var emit := LidarEmit(f, Some(s.next));
            && Enabled(plan, s, emit)
            && Do(plan, s, emit) ==
               s.(acked := s.acked + {s.next}, wire := f, inFlight := [InFlight(f, Some(s.next))])
  {
    hide AckFrame, Flag, Enabled, Do;
    AckFrameValid(Flag(plan[s.next]));
    MayEmit(plan, s, AckFrame(Flag(plan[s.next])));
  }

  lemma MayEmit(plan: seq<Packet>, s: State, f: seq<Byte>)
    requires s.next < |plan| && |s.received| == s.next + 1 && s.received[s.next] == plan[s.next]
    requires s.next !in s.acked && s.wire == [] && s.inFlight == []
    requires ValidFrame(f) && |f| >= MIN_PACK_BYTES && UpdateFlagOf(f) == Some(Flag(plan[s.next]))
    ensures var emit := LidarEmit(f, Some(s.next));
            && Enabled(plan, s, emit)
            && Do(plan, s, emit) ==
               s.(acked := s.acked + {s.next}, wire := f, inFlight := [InFlight(f, Some(s.next))])
  {
    hide ValidFrame, UpdateFlagOf, Flag, Parse, RaiseAll;
    NothingBefore(s.wire, f);
    NothingBefore(s.inFlight, [InFlight(f, Some(s.next))]);
  }

  lemma NothingBefore<T>(s: seq<T>, t: seq<T>)
    ensures s == [] ==> s + t == t
  {
  }

  lemma FourActions(plan: seq<Packet>, s: State, a: Action, b: Action, c: Action, d: Action)
    requires Enabled(plan, s, a)
    requires Enabled(plan, Do(plan, s, a), b)
    requires Enabled(plan, Do(plan, Do(plan, s, a), b), c)
    requires Enabled(plan, Do(plan, Do(plan, Do(plan, s, a), b), c), d)
    ensures Possible(plan, s, [a, b, c, d])
    ensures After(plan, s, [a, b, c, d]) == Do(plan, Do(plan, Do(plan, Do(plan, s, a), b), c), d)
  {
    var s1 := Do(plan, s, a);
    var s2 := Do(plan, s1, b);
    var s3 := Do(plan, s2, c);
    hide Do, Enabled;
    FirstAction(plan, s, a, [b, c, d]);
    FirstAction(plan, s1, b, [c, d]);
    FirstAction(plan, s2, c, [d]);
    FirstAction(plan, s3, d, []);
    assert [a] + [b, c, d] == [a, b, c, d] && [b] + [c, d] == [b, c, d];
    assert [c] + [d] == [c, d] && [d] + [] == [d];
  }

  lemma AnswerRead(plan: seq<Packet>, t: State)
    requires t.next < |plan| && t.pc == Wait && t.buffer == [] && t.wire == AckFrame(Flag(plan[t.next]))
    requires |t.inFlight| == 1
    ensures var u := t.(pc := if t.next + 1 == |plan| then Succeeded else Build, next := t.next + 1,
                        flags := t.flags + {Flag(plan[t.next])}, wire := [], inFlight := [],
                        heard := t.heard + [AckFrame(Flag(plan[t.next]))]);
            var actions := [HostRead(12), HostPoll];
            Possible(plan, t, actions) && After(plan, t, actions) == u
  {
    hide Parse, UpdateFlagOf, AckFrame, Flag, Possible, After;
    var flag := Flag(plan[t.next]);
    var f := AckFrame(flag);
    AckFrameValid(flag);
    assert t.buffer + t.wire[..12] == f;
    var frames: seq<seq<Byte>> := [f];
    assert frames[1..] == [] && RaiseAll(t.flags, frames) == t.flags + {flag};
    TwoActions(plan, t, HostRead(12), HostPoll);
  }

  lemma TwoActions(plan: seq<Packet>, s: State, a: Action, b: Action)
    requires Enabled(plan, s, a) && Enabled(plan, Do(plan, s, a), b)
    ensures Possible(plan, s, [a, b])
    ensures After(plan, s, [a, b]) == Do(plan, Do(plan, s, a), b)
  {
    hide Do, Enabled;
    FirstAction(plan, s, a, [b]);
    FirstAction(plan, Do(plan, s, a), b, []);
    assert [a] + [b] == [a, b] && [b] + [] == [b];
  }

  lemma ExchangeAdvances(plan: seq<Packet>, s: State)
    requires Quiet(plan, s) && s.next < |plan|
    ensures var actions := Exchange(plan[s.next], s.next);
            && Possible(plan, s, actions)
            && Quiet(plan, After(plan, s, actions)) && After(plan, s, actions).next == s.next + 1
  {
    hide Do, Enabled, AckFrame, Possible, After;
    PacketAnswered(plan, s);
    var f := AckFrame(Flag(plan[s.next]));
    var first := [HostBuild, HostWrite, LidarReceive, LidarEmit(f, Some(s.next))];
    var t := After(plan, s, first);
    AnswerRead(plan, t);
    AfterMore(plan, s, first, [HostRead(12), HostPoll]);
    assert first + [HostRead(12), HostPoll] == Exchange(plan[s.next], s.next);
  }

  // The exchanges of packets n and later.
  function Exchanges(plan: seq<Packet>, n: nat): (r: seq<Action>)
    requires n <= |plan|
    decreases |plan| - n
  {
    if n == |plan| then [] else Exchange(plan[n], n) + Exchanges(plan, n + 1)
  }

  lemma {:induction false} AnsweredSucceeds(plan: seq<Packet>, s: State)
    requires Quiet(plan, s)
    ensures Possible(plan, s, Exchanges(plan, s.next))
    ensures After(plan, s, Exchanges(plan, s.next)).pc == Succeeded
    decreases |plan| - s.next
  {
    hide Do, Enabled, Exchange;
    if s.next < |plan| {
      ExchangeAdvances(plan, s);
      var t := After(plan, s, Exchange(plan[s.next], s.next));
      AnsweredSucceeds(plan, t);
      AfterMore(plan, s, Exchange(plan[s.next], s.next), Exchanges(plan, s.next + 1));
    }
  }

  /** A lidar that answers every packet brings any update to success, from any flags left
      over by earlier commands. */
  lemma UpdateCanSucceed(file: seq<Byte>, s: State)
    requires Initial(s)
    ensures var actions := Exchanges(Plan(file), 0);
            Possible(Plan(file), s, actions) && After(Plan(file), s, actions).pc == Succeeded
  {
    hide Plan, Possible, After;
    AnsweredSucceeds(Plan(file), s);
  }

  // The exchanges of packet n and later, up to the first outcome that is a failure.
  function Schedule(plan: seq<Packet>, acks: seq<bool>, n: nat): (r: seq<Action>)
    requires |acks| == |plan| && n <= |plan|
    decreases |plan| - n
  {
    if n == |plan| then []
    else if acks[n] then Exchange(plan[n], n) + Schedule(plan, acks, n + 1)
    else [HostBuild, HostWrite, HostTimeout]
  }

  lemma {:induction false} OutcomesMore(first: seq<Action>, second: seq<Action>)
    ensures Outcomes(first + second) == Outcomes(first) + Outcomes(second)
    decreases |first|
  {
    hide OutcomeOf;
    if first == [] {
      assert first + second == second;
    } else {
      assert (first + second)[1..] == first[1..] + second;
      OutcomesMore(first[1..], second);
    }
  }

  lemma ExchangeOutcome(p: Packet, n: nat)
    ensures Outcomes(Exchange(p, n)) == [true]
    ensures Outcomes([HostBuild, HostWrite, HostTimeout]) == [false]
  {
    hide AckFrame, Outcomes;
    var emit := LidarEmit(AckFrame(Flag(p)), Some(n));
    PairOutcome(HostBuild, HostWrite);
    PairOutcome(LidarReceive, emit);
    PairOutcome(HostRead(12), HostPoll);
    ThreePairs(HostBuild, HostWrite, LidarReceive, emit, HostRead(12), HostPoll);
    PairOutcome(HostTimeout, HostTimeout);
    OutcomesMore([HostBuild, HostWrite], [HostTimeout]);
    assert [HostBuild, HostWrite] + [HostTimeout] == [HostBuild, HostWrite, HostTimeout];
  }

  lemma ThreePairs(a: Action, b: Action, c: Action, d: Action, e: Action, f: Action)
    ensures Outcomes([a, b, c, d, e, f]) == Outcomes([a, b]) + Outcomes([c, d]) + Outcomes([e, f])
  {
    hide Outcomes;
    OutcomesMore([a, b], [c, d]);
    OutcomesMore([a, b] + [c, d], [e, f]);
    assert [a, b] + [c, d] + [e, f] == [a, b, c, d, e, f];
  }

  lemma PairOutcome(a: Action, b: Action)
    ensures Outcomes([a, b]) == OutcomeOf(a) + OutcomeOf(b) && Outcomes([b]) == OutcomeOf(b)
  {
    hide OutcomeOf;
    assert [a, b][1..] == [b] && [b][1..] == [];
    assert OutcomeOf(b) + Outcomes([]) == OutcomeOf(b);
  }

  lemma GivesUp(plan: seq<Packet>, s: State)
    requires Quiet(plan, s) && s.next < |plan|
    ensures Possible(plan, s, [HostBuild, HostWrite, HostTimeout])
    ensures After(plan, s, [HostBuild, HostWrite, HostTimeout]).pc == Failed
  {
    PacketSent(plan, s);
    var s1 := Do(plan, s, HostBuild);
    var s2 := Do(plan, s1, HostWrite);
    assert Enabled(plan, s2, HostTimeout) && Do(plan, s2, HostTimeout).pc == Failed;
    hide Do, Enabled;
    FirstAction(plan, s2, HostTimeout, []);
    FirstAction(plan, s1, HostWrite, [HostTimeout]);
    FirstAction(plan, s, HostBuild, [HostWrite, HostTimeout]);
    assert [HostTimeout] + [] == [HostTimeout] && [HostWrite] + [HostTimeout] == [HostWrite, HostTimeout];
    assert [HostBuild] + [HostWrite, HostTimeout] == [HostBuild, HostWrite, HostTimeout];
  }

  lemma {:induction false} ScheduleRuns(plan: seq<Packet>, s: State, acks: seq<bool>)
    requires Quiet(plan, s) && |acks| == |plan|
    ensures var actions := Schedule(plan, acks, s.next);
            && Possible(plan, s, actions)
            && (After(plan, s, actions).pc == Succeeded || After(plan, s, actions).pc == Failed)
            && Outcomes(actions) <= acks[s.next..]
    decreases |plan| - s.next
  {
    hide Do, Enabled, Exchange, Outcomes;
    if s.next == |plan| {
      NoOutcomes();
    } else {
      ExchangeOutcome(plan[s.next], s.next);
      if acks[s.next] {
        ExchangeAdvances(plan, s);
        var first, rest := Exchange(plan[s.next], s.next), Schedule(plan, acks, s.next + 1);
        var t := After(plan, s, first);
        ScheduleRuns(plan, t, acks);
        AfterMore(plan, s, first, rest);
        OutcomesMore(first, rest);
        assert acks[s.next..] == [true] + acks[s.next + 1..];
      } else {
        GivesUp(plan, s);
        assert [false] == acks[s.next..][..1];
      }
    }
  }

  lemma NoOutcomes()
    ensures Outcomes([]) == []
  {
  }

  /** And the other way round: whatever the outcomes of the polls, there is a run with them, and it
      ends with the packets and the answer of `Update`. */
  lemma EveryUpdateIsRun(plan: seq<Packet>, s: State, acks: seq<bool>)
    requires plan != [] && Initial(s) && |acks| == |plan|
    ensures var actions := Schedule(plan, acks, 0);
            && Possible(plan, s, actions)
            && var t := After(plan, s, actions);
               Attempted(plan, acks) == Attempt(t.pc.Succeeded?, t.received + t.toLidar)
  {
    hide Possible, After, Outcomes, Schedule, Attempted;
    ScheduleRuns(plan, s, acks);
    assert acks[0..] == acks;
    RunIsUpdate(plan, s, Schedule(plan, acks, 0), acks);
  }

  // ------------------------------------------------------- Command indices

  const NET_CMD_TOP_BIN_UPDATE: Byte := 0x03
  const NET_CMD_BOT_BIN_UPDATE: Byte := 0x05
  const NET_CMD_LINUX_APP_UPDATE: Byte := 0x07
  const NET_CMD_PATCH_UPDATE: Byte := 0x24
  const NET_CMD_CONFIG_UPDATE: Byte := 0x33

  function AiryIndex(updateType: Byte): (r: Byte)
  {
    if updateType == NET_CMD_LINUX_APP_UPDATE then 0x05
    else if updateType == NET_CMD_TOP_BIN_UPDATE then 0x08
    else if updateType == NET_CMD_BOT_BIN_UPDATE then 0x07
    else 0x09
  }

  // Ruby4 distinguishes a configuration update in its data packets only.
  function Ruby4Index(updateType: Byte, p: Packet): (r: Byte)
  {
    if updateType == NET_CMD_PATCH_UPDATE then 0x03
    else if updateType == NET_CMD_CONFIG_UPDATE && p.Data? then 0x04
    else 0x01
  }

  /** The command index that is sent, for each update type. */
  lemma IndexOnWire(updateType: Byte, p: Packet)
    ensures PacketFrame(AiryIndex(updateType), p)[6] ==
            match updateType { case 3 => 8 case 5 => 7 case 7 => 5 case _ => 9 }
    ensures PacketFrame(Ruby4Index(updateType, p), p)[6] ==
            if updateType == 0x24 then 3 else if updateType == 0x33 && p.Data? then 4 else 1
  {
    FrameLayout(AiryIndex(updateType), p);
    FrameLayout(Ruby4Index(updateType, p), p);
    hide PacketFrame;
  }

  // A reply that repeats class, index and tag of the request, with response code 0.
  predicate Echoes(f: seq<Byte>, index: Byte, p: Packet)
  {
    |f| >= MIN_PACK_BYTES && f[5] == FIRMWARE_UPDATE_CLASS && f[6] == index && f[7] == 0 && f[8] == Tag(p)
  }

  /** A Ruby4 lidar may answer with the index of the request. An Airy lidar may not: no reply
      that repeats the index of an Airy update packet raises a flag, so its acknowledgements
      must use one of the indices 1, 3 and 4. */
  lemma EchoedAcks(updateType: Byte, p: Packet, f: seq<Byte>)
    ensures Echoes(f, Ruby4Index(updateType, p), p) ==> UpdateFlagOf(f) == Some(Flag(p))
    ensures Echoes(f, AiryIndex(updateType), p) ==> UpdateFlagOf(f) == None
  {
  }
}
