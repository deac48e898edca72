/** The Helios command channel: dispatch of acknowledgement frames into the state flags,
    the in-place parser, and the poll that `TcpCom::sendData` runs against those flags. */
module HeliosComm {
  import opened Bytes
  import opened FrameStream
  import opened ReadBuffers
  import opened Wrappers

  // The flags of `read_write_state_` that Helios uses.
  datatype StateIndex =
    | READ_REG | WRITE_REG | GET_ALL_CONFIG | SET_ALL_CONFIG | GET_CONFIG_VER
    | EYE_SAFE_MODE | READ_INTENSITY | GET_ZERO_ANGLE | GET_CHANNEL_ANGLE
    | REBOOT_LIDAR | SET_MODE | GET_MODE | SET_MOTOR_DIR | GET_MOTOR_DIR
    | DELETE_EVENT_LOG | RESTART_MONITOR_LOG | READ_CONFIG_FILE
    | READ_EVENT_LOG | READ_MONITOR_LOG
    | UPDATE_TOP | UPDATE_TOP_BAK | UPDATE_BOT | UPDATE_BOT_BAK
    | UPDATE_APP | UPDATE_APP_BAK | UPDATE_MOTOR | UPDATE_CGI
    | OtherState(index: nat)

  // Which part of a frame is copied into `reg_back_data_`.
  datatype Copy = Nothing | OneByte | Payload | WholeFrame

  // What the dispatch switch does for one acknowledgement command.
  datatype Effect = Effect(state: Option<StateIndex>, copy: Copy, setsLen: bool)

  const ACK_BASE_CFG_UPDATE: U32 := 0x133

  // `config` is the flag that the entry of m_updateIdx for a configuration update happens
  // to select: the constructor never fills that entry in.
  function EffectOf(cmd: U32, config: Option<StateIndex>): (r: Effect)
  {
    match cmd
    case 0x101 => Effect(Some(READ_REG), Payload, false)
    case 0x102 => Effect(Some(WRITE_REG), Nothing, false)
    case 0x103 => Effect(Some(UPDATE_TOP), Nothing, false)
    case 0x104 => Effect(Some(UPDATE_TOP_BAK), Nothing, false)
    case 0x105 => Effect(Some(UPDATE_BOT), Nothing, false)
    case 0x106 => Effect(Some(UPDATE_BOT_BAK), Nothing, false)
    case 0x107 => Effect(Some(UPDATE_APP), Nothing, false)
    case 0x108 => Effect(Some(UPDATE_APP_BAK), Nothing, false)
    case 0x109 => Effect(Some(GET_ALL_CONFIG), Payload, false)
    case 0x10A => Effect(Some(SET_ALL_CONFIG), Nothing, false)
    case 0x10C => Effect(Some(UPDATE_CGI), Nothing, false)
    case 0x111 => Effect(Some(READ_INTENSITY), WholeFrame, false)
    case 0x112 => Effect(Some(GET_ZERO_ANGLE), Payload, false)
    case 0x114 => Effect(Some(GET_CHANNEL_ANGLE), Payload, true)
    case 0x116 => Effect(Some(UPDATE_MOTOR), Nothing, false)
    case 0x122 => Effect(Some(EYE_SAFE_MODE), Payload, false)
    case 0x127 => Effect(Some(SET_MODE), Nothing, false)
    case 0x128 => Effect(Some(GET_MODE), OneByte, false)
    case 0x129 => Effect(Some(REBOOT_LIDAR), Nothing, false)
    case 0x132 => Effect(Some(READ_CONFIG_FILE), Payload, true)
    case 0x133 => Effect(config, Nothing, false)
    case 0x134 => Effect(Some(GET_CONFIG_VER), Payload, false)
    case 0x135 => Effect(Some(SET_MOTOR_DIR), Nothing, false)
    case 0x136 => Effect(Some(GET_MOTOR_DIR), OneByte, false)
    case 0x137 => Effect(Some(READ_EVENT_LOG), Payload, true)
    case 0x138 => Effect(Some(READ_MONITOR_LOG), Payload, true)
    case 0x139 => Effect(Some(DELETE_EVENT_LOG), Nothing, false)
    case 0x13A => Effect(Some(RESTART_MONITOR_LOG), Nothing, false)
    case _ => Effect(None, Nothing, false)
  }

  // The flag each request builder clears before its frame is sent. A reboot request
  // has no entry: its builder sets the flag instead.
  function ClearedBy(request: U32): (r: Option<StateIndex>)
  {
    match request
    case 0x001 => Some(READ_REG)
    case 0x002 => Some(WRITE_REG)
    case 0x003 => Some(UPDATE_TOP)
    case 0x004 => Some(UPDATE_TOP_BAK)
    case 0x005 => Some(UPDATE_BOT)
    case 0x006 => Some(UPDATE_BOT_BAK)
    case 0x007 => Some(UPDATE_APP)
    case 0x008 => Some(UPDATE_APP_BAK)
    case 0x009 => Some(GET_ALL_CONFIG)
    case 0x00A => Some(SET_ALL_CONFIG)
    case 0x00C => Some(UPDATE_CGI)
    case 0x011 => Some(READ_INTENSITY)
    case 0x012 => Some(GET_ZERO_ANGLE)
    case 0x014 => Some(GET_CHANNEL_ANGLE)
    case 0x016 => Some(UPDATE_MOTOR)
    case 0x022 => Some(EYE_SAFE_MODE)
    case 0x027 => Some(SET_MODE)
    case 0x028 => Some(GET_MODE)
    case 0x032 => Some(READ_CONFIG_FILE)
    case 0x034 => Some(GET_CONFIG_VER)
    case 0x035 => Some(SET_MOTOR_DIR)
    case 0x036 => Some(GET_MOTOR_DIR)
    case 0x037 => Some(READ_EVENT_LOG)
    case 0x038 => Some(READ_MONITOR_LOG)
    case 0x039 => Some(DELETE_EVENT_LOG)
    case 0x03A => Some(RESTART_MONITOR_LOG)
    case _ => None
  }

  // `reg_back_data_` holds 4096 bytes and is never given back.
  const REPLY_BUFFER := 4096

  type ReplyBuffer = s: seq<Byte> | |s| >= REPLY_BUFFER witness seq(REPLY_BUFFER, _ => 0)

  // The state the dispatch switch writes: raised flags, reply buffer, m_len.
  datatype Replies = Replies(raised: set<StateIndex>, back: ReplyBuffer, len: U32)

  function Overlay(back: ReplyBuffer, bytes: seq<Byte>): (r: ReplyBuffer)
  {
    if |bytes| <= |back| then bytes + back[|bytes|..] else bytes
  }

  function Copied(f: Frame, copy: Copy): (r: seq<Byte>)
  {
    match copy
    case Nothing => []
    case OneByte => if f.payload == [] then [] else f.payload[..1]
    case Payload => f.payload
    case WholeFrame =>
      FrameHeadPack(HELIOS_FRAME_FLAG, f.cmd, |f.payload| % 0x1_0000_0000) + f.payload
  }

  function Dispatch(config: Option<StateIndex>, st: Replies, f: Frame): (r: Replies)
  {
    var e := EffectOf(f.cmd, config);
    Replies(
      if e.state.Some? then st.raised + {e.state.value} else st.raised,
      Overlay(st.back, Copied(f, e.copy)),
      if e.setsLen then |f.payload| % 0x1_0000_0000 else st.len)
  }

  function DispatchAll(config: Option<StateIndex>, st: Replies, frames: seq<Frame>): (r: Replies)
    decreases |frames|
  {
    if frames == [] then st
    else DispatchAll(config, Dispatch(config, st, frames[0]), frames[1..])
  }

  lemma {:induction false} DispatchMore(config: Option<StateIndex>, st: Replies,
                                        first: seq<Frame>, second: seq<Frame>)
    ensures DispatchAll(config, st, first + second) ==
            DispatchAll(config, DispatchAll(config, st, first), second)
    decreases |first|
  {
    hide Dispatch;
    if first == [] {
      assert first + second == second;
    } else {
      assert (first + second)[1..] == first[1..] + second;
      DispatchMore(config, Dispatch(config, st, first[0]), first[1..], second);
    }
  }

  lemma DispatchNone(config: Option<StateIndex>, st: Replies)
    ensures DispatchAll(config, st, []) == st
  {
  }

  lemma DispatchSnoc(config: Option<StateIndex>, st: Replies, done: seq<Frame>, f: Frame)
    ensures DispatchAll(config, st, done + [f]) == Dispatch(config, DispatchAll(config, st, done), f)
  {
    hide Dispatch;
    DispatchMore(config, st, done, [f]);
    DispatchNone(config, Dispatch(config, DispatchAll(config, st, done), f));
    assert [f][1..] == [];
  }

  // m_len never points behind the reply buffer.
  predicate Fits(st: Replies)
  {
    st.len <= |st.back|
  }

  lemma LengthComesWithCopy(cmd: U32, config: Option<StateIndex>)
    ensures EffectOf(cmd, config).setsLen ==> EffectOf(cmd, config).copy == Payload
  {
  }

  lemma DispatchFits(config: Option<StateIndex>, st: Replies, f: Frame)
    requires Fits(st)
    ensures Fits(Dispatch(config, st, f))
  {
    hide EffectOf;
    LengthComesWithCopy(f.cmd, config);
  }

  lemma {:induction false} DispatchAllFits(config: Option<StateIndex>, st: Replies, frames: seq<Frame>)
    requires Fits(st)
    ensures Fits(DispatchAll(config, st, frames))
    decreases |frames|
  {
    hide Fits, Dispatch;
    if frames != [] {
      DispatchFits(config, st, frames[0]);
      DispatchAllFits(config, Dispatch(config, st, frames[0]), frames[1..]);
    }
  }

  // The commands whose acknowledgement writes into the reply buffer.
  predicate Copies(cmd: U32)
  {
    cmd in {0x101, 0x109, 0x111, 0x112, 0x114, 0x122, 0x128, 0x132, 0x134, 0x136, 0x137, 0x138}
  }

  /** What one acknowledgement leaves behind: nine commands the payload, two its first byte, one
      the whole frame, all others nothing; every byte behind the copy is kept. The length is
      noted for exactly four commands. */
  lemma ReplyLeft(config: Option<StateIndex>, st: Replies, frames: seq<Frame>, cmd: U32, p: seq<Byte>)
    requires |p| <= 4096
    ensures var was := DispatchAll(config, st, frames);
            var now := DispatchAll(config, st, frames + [Frame(cmd, p)]);
            var e := Encode(HELIOS_FRAME_FLAG, Frame(cmd, p));
            && (cmd in {0x101, 0x109, 0x112, 0x114, 0x122, 0x132, 0x134, 0x137, 0x138} ==>
                 now.back == p + was.back[|p|..])
            && (cmd in {0x128, 0x136} ==> now.back == if p == [] then was.back else [p[0]] + was.back[1..])
            && (cmd == 0x111 ==> now.back == if |e| <= |was.back| then e + was.back[|e|..] else e)
            && (!Copies(cmd) ==> now.back == was.back)
            && now.len == if cmd in {0x114, 0x132, 0x137, 0x138} then |p| else was.len
  {
    CopyTable(cmd, config);
    DispatchSnoc(config, st, frames, Frame(cmd, p));
    hide DispatchAll, FrameHeadPack, EffectOf, Copies;
    var was := DispatchAll(config, st, frames);
    assert [] + was.back[0..] == was.back;
    assert p != [] ==> p[..1] == [p[0]];
  }

  // The acknowledgement that raises a flag.
  function AckOf(i: StateIndex): (cmd: Option<U32>)
  {
    match i
    case READ_REG => Some(0x101)
    case WRITE_REG => Some(0x102)
    case UPDATE_TOP => Some(0x103)
    case UPDATE_TOP_BAK => Some(0x104)
    case UPDATE_BOT => Some(0x105)
    case UPDATE_BOT_BAK => Some(0x106)
    case UPDATE_APP => Some(0x107)
    case UPDATE_APP_BAK => Some(0x108)
    case GET_ALL_CONFIG => Some(0x109)
    case SET_ALL_CONFIG => Some(0x10A)
    case UPDATE_CGI => Some(0x10C)
    case READ_INTENSITY => Some(0x111)
    case GET_ZERO_ANGLE => Some(0x112)
    case GET_CHANNEL_ANGLE => Some(0x114)
    case UPDATE_MOTOR => Some(0x116)
    case EYE_SAFE_MODE => Some(0x122)
    case SET_MODE => Some(0x127)
    case GET_MODE => Some(0x128)
    case REBOOT_LIDAR => Some(0x129)
    case READ_CONFIG_FILE => Some(0x132)
    case GET_CONFIG_VER => Some(0x134)
    case SET_MOTOR_DIR => Some(0x135)
    case GET_MOTOR_DIR => Some(0x136)
    case READ_EVENT_LOG => Some(0x137)
    case READ_MONITOR_LOG => Some(0x138)
    case DELETE_EVENT_LOG => Some(0x139)
    case RESTART_MONITOR_LOG => Some(0x13A)
    case OtherState(_) => None
  }

  predicate Raises(config: Option<StateIndex>, f: Frame, i: StateIndex)
  {
    AckOf(i) == Some(f.cmd) || (f.cmd == 0x133 && config == Some(i))
  }

  lemma StateTable(cmd: U32, config: Option<StateIndex>, i: StateIndex)
    ensures EffectOf(cmd, config).state == Some(i) <==> AckOf(i) == Some(cmd) || (cmd == 0x133 && config == Some(i))
  {
  }

  /** Whatever is dispatched, a flag is up afterwards if and only if it was up or its own
      acknowledgement was among the frames (or a configuration acknowledgement that selects it). */
  lemma {:induction false} RaisedExactly(config: Option<StateIndex>, st: Replies, frames: seq<Frame>, i: StateIndex)
    ensures i in DispatchAll(config, st, frames).raised <==>
            i in st.raised || exists f :: f in frames && Raises(config, f, i)
    decreases |frames|
  {
    hide EffectOf, Raises;
    if frames != [] {
      RaisedByOne(config, st, frames[0], i);
      hide Dispatch;
      RaisedExactly(config, Dispatch(config, st, frames[0]), frames[1..], i);
    }
  }

  lemma RaisedByOne(config: Option<StateIndex>, st: Replies, f: Frame, i: StateIndex)
    ensures i in Dispatch(config, st, f).raised <==> i in st.raised || Raises(config, f, i)
  {
    StateTable(f.cmd, config, i);
    hide EffectOf, AckOf;
  }

  lemma CopyTable(cmd: U32, config: Option<StateIndex>)
    ensures cmd in {0x101, 0x109, 0x112, 0x114, 0x122, 0x132, 0x134, 0x137, 0x138} <==>
            EffectOf(cmd, config).copy == Payload
    ensures cmd in {0x128, 0x136} <==> EffectOf(cmd, config).copy == OneByte
    ensures cmd == 0x111 <==> EffectOf(cmd, config).copy == WholeFrame
    ensures !Copies(cmd) <==> EffectOf(cmd, config).copy == Nothing
    ensures cmd in {0x114, 0x132, 0x137, 0x138} <==> EffectOf(cmd, config).setsLen
  {
  }

  lemma {:induction false} NothingCopied(config: Option<StateIndex>, st: Replies, frames: seq<Frame>)
    requires forall f :: f in frames ==> !Copies(f.cmd)
    ensures DispatchAll(config, st, frames).back == st.back
    decreases |frames|
  {
    if frames != [] {
      NoCopy(config, st, frames[0]);
      hide Dispatch, Copies;
      NothingCopied(config, Dispatch(config, st, frames[0]), frames[1..]);
    }
  }

  lemma NoCopy(config: Option<StateIndex>, st: Replies, f: Frame)
    requires !Copies(f.cmd)
    ensures Dispatch(config, st, f).back == st.back
  {
    assert [] + st.back[0..] == st.back;
  }

  // Frame k is an acknowledgement with a payload, and none behind it writes into the buffer.
  ghost predicate LastCopy(frames: seq<Frame>, k: nat, cmd: U32)
  {
    && k < |frames| && frames[k].cmd == cmd && |frames[k].payload| <= 4096
    && forall j :: k < j < |frames| ==> !Copies(frames[j].cmd)
  }

  /** The payload of the last copying acknowledgement is what the reply buffer begins with. */
  lemma PayloadStays(config: Option<StateIndex>, st: Replies, frames: seq<Frame>, k: nat, cmd: U32)
    requires LastCopy(frames, k, cmd)
    requires cmd in {0x101, 0x109, 0x112, 0x114, 0x122, 0x132, 0x134, 0x137, 0x138}
    ensures frames[k].payload <= DispatchAll(config, st, frames).back
  {
    hide Dispatch, DispatchAll, Copies;
    var before, behind := frames[..k] + [frames[k]], frames[k + 1..];
    assert frames == before + behind;
    DispatchMore(config, st, before, behind);
    ReplyLeft(config, st, frames[..k], cmd, frames[k].payload);
    assert frames[k] == Frame(cmd, frames[k].payload);
    NothingCopied(config, DispatchAll(config, st, before), behind);
  }

  // ------------------------------------------------------------------- Parser

  // With `done` dispatched and `rest` still in the buffer, the call goes on to `whole`.
  ghost predicate Pending(whole: Decoded, done: seq<Frame>, rest: seq<Byte>)
  {
    var d := Decode(HELIOS_FRAME_FLAG, rest);
    whole == Decoded(done + d.frames, d.rest)
  }

  lemma PendingDone(whole: Decoded, done: seq<Frame>, rest: seq<Byte>)
    requires Pending(whole, done, rest) && Next(HELIOS_FRAME_FLAG, rest).Wait?
    ensures whole == Decoded(done, rest)
  {
    hide Next;
    assert done + [] == done;
  }

  class HeliosCom {
    var raised: set<StateIndex>
    var back: ReplyBuffer
    var len: U32
    const config: Option<StateIndex>
    ghost var log: seq<Frame>  // every frame dispatched so far

    constructor (config: Option<StateIndex>)
      ensures raised == {} && log == [] && this.config == config && |back| == REPLY_BUFFER && len == 0
    {
      raised, back, len, log := {}, seq(REPLY_BUFFER, _ => 0), 0, [];
      this.config := config;
    }

    function View(): (r: Replies)
      reads this
    {
      Replies(raised, back, len)
    }

    /** The parser: resynchronise, check, dispatch and erase in place until the buffer
        runs out or an incomplete frame leads it. */
    method ParseRecvTcpData(buffer: ReadBuffer) returns (ok: bool)
      modifies this, buffer
      ensures var d := Decode(HELIOS_FRAME_FLAG, old(buffer.data));
              && buffer.data == d.rest
              && log == old(log) + d.frames
              && View() == DispatchAll(config, old(View()), d.frames)
      ensures ok ==> |buffer.data| < HEAD_SIZE
    {
      hide DispatchAll, Dispatch, FlagAt, HeaderAt, Le32At, EffectOf;
      ghost var st, whole := View(), Decode(HELIOS_FRAME_FLAG, buffer.data);
      ghost var done: seq<Frame> := [];
      DispatchNone(config, st);
      while |buffer.data| >= HEAD_SIZE
        invariant log == old(log) + done && View() == DispatchAll(config, st, done)
        invariant Pending(whole, done, buffer.data)
        decreases |buffer.data|
      {
        while !FlagAt(HELIOS_FRAME_FLAG, buffer.data, 0)
          invariant |buffer.data| >= HEAD_SIZE
          invariant log == old(log) + done && View() == DispatchAll(config, st, done)
          invariant Pending(whole, done, buffer.data)
          decreases |buffer.data|
        {
          buffer.data := buffer.data[1..];
          if |buffer.data| < HEAD_SIZE {
            PendingDone(whole, done, buffer.data);
            return false;
          }
        }
        if !HeaderAt(HELIOS_FRAME_FLAG, buffer.data, 0) {
          buffer.data := buffer.data[4..];
        } else {
          var length := Le32At(buffer.data, 4);
          if HEAD_SIZE + length > |buffer.data| {
            PendingDone(whole, done, buffer.data);
            return false;
          }
          var frame := Frame(Le32At(buffer.data, 8), buffer.data[HEAD_SIZE..HEAD_SIZE + length]);
          var next := Dispatch(config, View(), frame);
          raised, back, len := next.raised, next.back, next.len;
          log := log + [frame];
          DispatchSnoc(config, st, done, frame);
          done := done + [frame];
          buffer.data := buffer.data[HEAD_SIZE + length..];
        }
      }
      PendingDone(whole, done, buffer.data);
      return true;
    }
  }

  // ----------------------------------------------------- Runs of the host side

  // The builders, which clear one flag each, run on the calling thread;
  // reads happen on the reader thread. Any interleaving is a list of events.
  datatype Event = Clear(index: StateIndex) | Arrive(chunk: seq<Byte>)

  datatype Host = Host(st: Replies, rest: seq<Byte>, log: seq<Frame>)

  function Apply(config: Option<StateIndex>, h: Host, e: Event): (r: Host)
  {
    match e
    case Clear(i) => h.(st := h.st.(raised := h.st.raised - {i}))
    case Arrive(chunk) =>
      var d := Decode(HELIOS_FRAME_FLAG, h.rest + chunk);
      Host(DispatchAll(config, h.st, d.frames), d.rest, h.log + d.frames)
  }

  function Run(config: Option<StateIndex>, h: Host, events: seq<Event>): (r: Host)
    decreases |events|
  {
    if events == [] then h else Run(config, Apply(config, h, events[0]), events[1..])
  }

  // All the bytes the run has received.
  function Received(events: seq<Event>): (r: seq<Byte>)
  {
    if events == [] then []
    else (if events[0].Arrive? then events[0].chunk else []) + Received(events[1..])
  }

  lemma {:induction false} RunMore(config: Option<StateIndex>, h: Host, first: seq<Event>, second: seq<Event>)
    ensures Run(config, h, first + second) == Run(config, Run(config, h, first), second)
    decreases |first|
  {
    hide Apply;
    if first == [] {
      assert first + second == second;
    } else {
      assert (first + second)[1..] == first[1..] + second;
      RunMore(config, Apply(config, h, first[0]), first[1..], second);
    }
  }

  // The frames of a run are those of its bytes: flags do not disturb the parser.
  lemma {:induction false} RunDecodes(config: Option<StateIndex>, h: Host, events: seq<Event>)
    requires Next(HELIOS_FRAME_FLAG, h.rest).Wait?
    ensures var d := Decode(HELIOS_FRAME_FLAG, h.rest + Received(events));
            var after := Run(config, h, events);
            after.log == h.log + d.frames && after.rest == d.rest
    ensures Next(HELIOS_FRAME_FLAG, Run(config, h, events).rest).Wait?
    decreases |events|
  {
    hide Next, DispatchAll, EffectOf, Decode;
    if events == [] {
      assert h.rest + Received(events) == h.rest;
      WaitDecodes(h.rest);
    } else {
      var next := Apply(config, h, events[0]);
      if events[0].Arrive? {
        var chunk := events[0].chunk;
        RestWaits(h.rest + chunk);
        RunDecodes(config, next, events[1..]);
        DecodeAppend(HELIOS_FRAME_FLAG, h.rest + chunk, Received(events[1..]));
        assert h.rest + Received(events) == h.rest + chunk + Received(events[1..]);
      } else {
        RunDecodes(config, next, events[1..]);
        assert Received(events) == Received(events[1..]);
      }
    }
  }

  lemma WaitDecodes(s: seq<Byte>)
    requires Next(HELIOS_FRAME_FLAG, s).Wait?
    ensures Decode(HELIOS_FRAME_FLAG, s) == Decoded([], s)
  {
    hide Next;
  }

  lemma {:induction false} RestWaits(s: seq<Byte>)
    ensures Next(HELIOS_FRAME_FLAG, Decode(HELIOS_FRAME_FLAG, s).rest).Wait?
    decreases |s|
  {
    hide FlagAt, HeaderAt;
    match Next(HELIOS_FRAME_FLAG, s)
    case Wait =>
    case Skip(n) => RestWaits(s[n..]);
    case Take(_, n) => RestWaits(s[n..]);
  }

  // ------------------------------------------------------------ Ack soundness

  // Some dispatched frame is what raised the flag.
  ghost predicate Acknowledged(config: Option<StateIndex>, frames: seq<Frame>, i: StateIndex)
  {
    exists f :: f in frames && EffectOf(f.cmd, config).state == Some(i)
  }

  lemma {:induction false} RaisedByFrame(config: Option<StateIndex>, st: Replies, frames: seq<Frame>, i: StateIndex)
    requires i !in st.raised && i in DispatchAll(config, st, frames).raised
    ensures Acknowledged(config, frames, i)
    decreases |frames|
  {
    hide EffectOf;
    if EffectOf(frames[0].cmd, config).state == Some(i) {
      assert frames[0] in frames;
    } else {
      RaisedByFrame(config, Dispatch(config, st, frames[0]), frames[1..], i);
    }
  }

  lemma {:induction false} RaisedInRun(config: Option<StateIndex>, h: Host, events: seq<Event>, i: StateIndex)
    requires i !in h.st.raised && i in Run(config, h, events).st.raised
    ensures h.log <= Run(config, h, events).log
    ensures Acknowledged(config, Run(config, h, events).log[|h.log|..], i)
    decreases |events|
  {
    hide EffectOf, DispatchAll, Decode;
    var next := Apply(config, h, events[0]);
    LogGrows(config, next, events[1..]);
    var all := Run(config, h, events).log;
    if i in next.st.raised {
      var frames := Decode(HELIOS_FRAME_FLAG, h.rest + events[0].chunk).frames;
      RaisedByFrame(config, h.st, frames, i);
      FrontOfTail(h.log, frames, all);
    } else {
      RaisedInRun(config, next, events[1..], i);
      TailOfTail(h.log, next.log, all);
    }
  }

  lemma FrontOfTail(before: seq<Frame>, frames: seq<Frame>, all: seq<Frame>)
    requires before + frames <= all
    ensures before <= all && forall f :: f in frames ==> f in all[|before|..]
  {
    assert all[|before|..][..|frames|] == frames;
  }

  lemma TailOfTail(before: seq<Frame>, next: seq<Frame>, all: seq<Frame>)
    requires before <= next <= all
    ensures before <= all && forall f :: f in all[|next|..] ==> f in all[|before|..]
  {
    assert all[|next|..] == all[|before|..][|next| - |before|..];
  }

  lemma {:induction false} LogGrows(config: Option<StateIndex>, h: Host, events: seq<Event>)
    ensures h.log <= Run(config, h, events).log
    decreases |events|
  {
    hide DispatchAll, Decode;
    if events != [] {
      LogGrows(config, Apply(config, h, events[0]), events[1..]);
    }
  }

  /** Requests and acknowledgements pair up: the frame that raises the flag a request
      cleared carries that request's command plus 0x100, and no other command does
      (the configuration-update acknowledgement apart). */
  lemma AckCommand(request: U32, cmd: U32, config: Option<StateIndex>)
    requires ClearedBy(request).Some? && cmd != ACK_BASE_CFG_UPDATE
    ensures EffectOf(cmd, config).state == ClearedBy(request) <==> cmd == request + 0x100
  {
    assert request < 0x40;
    AckStates(cmd, config);
  }

  lemma AckStates(cmd: U32, config: Option<StateIndex>)
    requires cmd != ACK_BASE_CFG_UPDATE
    ensures EffectOf(cmd, config).state.Some? <==>
            cmd == 0x129 || (cmd >= 0x100 && ClearedBy(cmd - 0x100).Some?)
    ensures cmd >= 0x100 && ClearedBy(cmd - 0x100).Some? ==>
            EffectOf(cmd, config).state == ClearedBy(cmd - 0x100)
  {
  }

  /** Ack soundness. Let a builder have cleared its flag, and let any reads and any other
      builders follow in any order. If the flag is then seen raised, a complete frame with a
      matching header checksum and the acknowledgement command of that very request has been
      dispatched since, and it lies in the bytes received (or a configuration-update
      acknowledgement hit the flag through the entry that is never filled in). */
  lemma AckSoundness(config: Option<StateIndex>, h: Host, request: U32, events: seq<Event>)
    requires ClearedBy(request).Some? && ClearedBy(request).value !in h.st.raised
    requires Next(HELIOS_FRAME_FLAG, h.rest).Wait?
    requires ClearedBy(request).value in Run(config, h, events).st.raised
    ensures h.log <= Run(config, h, events).log
    ensures exists f ::
              && f in Run(config, h, events).log[|h.log|..]
              && Occurs(HELIOS_FRAME_FLAG, f, h.rest + Received(events))
              && (f.cmd == request + 0x100 || (f.cmd == ACK_BASE_CFG_UPDATE && config == ClearedBy(request)))
  {
    hide EffectOf, Run, Decode, Occurs, Next, ClearedBy;
    var i := ClearedBy(request).value;
    RaisedInRun(config, h, events, i);
    var added := Run(config, h, events).log[|h.log|..];
    var f :| f in added && EffectOf(f.cmd, config).state == Some(i);
    RunDecodes(config, h, events);
    assert f in Decode(HELIOS_FRAME_FLAG, h.rest + Received(events)).frames;
    DispatchedFramesOccur(HELIOS_FRAME_FLAG, h.rest + Received(events), f);
    if f.cmd != ACK_BASE_CFG_UPDATE {
      AckCommand(request, f.cmd, config);
    } else {
      ConfigAck(config);
    }
  }

  lemma ConfigAck(config: Option<StateIndex>)
    ensures EffectOf(ACK_BASE_CFG_UPDATE, config).state == config
  {
  }

  // Some frame of `frames` acknowledges this very request and lies in the bytes received.
  ghost predicate Genuine(frames: seq<Frame>, request: U32, bytes: seq<Byte>)
  {
    exists f :: f in frames && f.cmd == request + 0x100 && Occurs(HELIOS_FRAME_FLAG, f, bytes)
  }

  // The builder runs on host h, then the events: a raised flag rests on a genuine acknowledgement.
  ghost predicate Sound(config: Option<StateIndex>, request: U32, h: Host, events: seq<Event>)
    requires ClearedBy(request).Some?
  {
    var i := ClearedBy(request).value;
    var after := Run(config, Apply(config, h, Clear(i)), events);
    Next(HELIOS_FRAME_FLAG, h.rest).Wait? && i in after.st.raised ==>
      h.log <= after.log && Genuine(after.log[|h.log|..], request, h.rest + Received(events))
  }

  /** Acknowledgements are sound in all runs, from all hosts, if and only if the entry that is
      never filled in does not select the request's flag. */
  lemma SoundExactly(config: Option<StateIndex>, request: U32)
    requires ClearedBy(request).Some?
    ensures (forall h, events :: Sound(config, request, h, events)) <==> config != ClearedBy(request)
  {
    hide Sound, EffectOf, ClearedBy;
    if config == ClearedBy(request) {
      var h := Host(Replies({}, seq(REPLY_BUFFER, _ => 0), 0), [], []);
      ConfigAckDeceives(config, request, h);
      assert !Sound(config, request, h, [ConfigAckArrives()]);
    } else {
      forall h, events
        ensures Sound(config, request, h, events)
      {
        SoundOtherwise(config, request, h, events);
      }
    }
  }

  lemma SoundOtherwise(config: Option<StateIndex>, request: U32, h: Host, events: seq<Event>)
    requires ClearedBy(request).Some? && config != ClearedBy(request)
    ensures Sound(config, request, h, events)
  {
    hide EffectOf, ClearedBy, Run, Occurs, Next;
    var i := ClearedBy(request).value;
    var g := Apply(config, h, Clear(i));
    if Next(HELIOS_FRAME_FLAG, h.rest).Wait? && i in Run(config, g, events).st.raised {
      AckSoundness(config, g, request, events);
    }
  }

  // One read that brings a configuration-update acknowledgement and nothing else.
  function ConfigAckArrives(): (e: Event)
  {
    Arrive(Encode(HELIOS_FRAME_FLAG, Frame(ACK_BASE_CFG_UPDATE, [])))
  }

  /** The failing input: a host that waits for nothing builds the request, and the configuration
      acknowledgement raises its flag although no frame of that request has arrived. */
  lemma ConfigAckDeceives(config: Option<StateIndex>, request: U32, h: Host)
    requires ClearedBy(request).Some? && config == ClearedBy(request) && h.rest == []
    ensures !Sound(config, request, h, [ConfigAckArrives()])
  {
    hide EffectOf, ClearedBy, Next, Encode, Run, Occurs;
    ConfigAckRaises(config, request, h);
    WaitsEmpty();
    var after := Run(config, Apply(config, h, Clear(config.value)), [ConfigAckArrives()]);
    assert after.log[|h.log|..] == [Frame(ACK_BASE_CFG_UPDATE, [])];
  }

  lemma ConfigAckRaises(config: Option<StateIndex>, request: U32, h: Host)
    requires ClearedBy(request).Some? && config == ClearedBy(request) && h.rest == []
    ensures var after := Run(config, Apply(config, h, Clear(config.value)), [ConfigAckArrives()]);
            && config.value in after.st.raised
            && after.log == h.log + [Frame(ACK_BASE_CFG_UPDATE, [])]
            && request + 0x100 != ACK_BASE_CFG_UPDATE
  {
    hide EffectOf, ClearedBy, Next, Encode, Decode, Dispatch, DispatchAll, Run;
    NotConfigUpdate(request);
    var f := Frame(ACK_BASE_CFG_UPDATE, []);
    var bytes := Encode(HELIOS_FRAME_FLAG, f);
    var g := Apply(config, h, Clear(config.value));
    DecodesOne(f);
    assert g.rest + bytes == bytes;
    RunOne(config, g, ConfigAckArrives());
    DispatchOne(config, g.st, f);
    ConfigAckDispatch(config, g.st, f);
  }

  lemma NotConfigUpdate(request: U32)
    requires ClearedBy(request).Some?
    ensures request + 0x100 != ACK_BASE_CFG_UPDATE
  {
  }

  lemma ConfigAckDispatch(config: Option<StateIndex>, st: Replies, f: Frame)
    requires config.Some? && f.cmd == ACK_BASE_CFG_UPDATE
    ensures config.value in Dispatch(config, st, f).raised
  {
    hide EffectOf;
    ConfigAck(config);
  }

  lemma DispatchOne(config: Option<StateIndex>, st: Replies, f: Frame)
    ensures DispatchAll(config, st, [f]) == Dispatch(config, st, f)
  {
    hide Dispatch;
    DispatchNone(config, Dispatch(config, st, f));
    assert [f][1..] == [];
  }

  lemma WaitsEmpty()
    ensures Next(HELIOS_FRAME_FLAG, []).Wait?
  {
  }

  lemma DecodesOne(f: WireFrame)
    ensures Decode(HELIOS_FRAME_FLAG, Encode(HELIOS_FRAME_FLAG, f)) == Decoded([f], [])
  {
    hide Encode, Next;
    var bytes := Encode(HELIOS_FRAME_FLAG, f);
    NextOfEncoded(HELIOS_FRAME_FLAG, f, []);
    assert bytes + [] == bytes && bytes[|bytes|..] == [];
    WaitsEmpty();
  }

  /** Cutting a read in two changes nothing, so whatever the other thread sees between two
      frames of one read, it also sees between two reads. */
  lemma ReadMayBeCut(config: Option<StateIndex>, h: Host, front: seq<Byte>, back: seq<Byte>)
    ensures Run(config, h, [Arrive(front), Arrive(back)]) == Run(config, h, [Arrive(front + back)])
  {
    hide Decode, DispatchAll;
    DecodeAppend(HELIOS_FRAME_FLAG, h.rest + front, back);
    assert h.rest + (front + back) == h.rest + front + back;
    var d := Decode(HELIOS_FRAME_FLAG, h.rest + front);
    DispatchMore(config, h.st, d.frames, Decode(HELIOS_FRAME_FLAG, d.rest + back).frames);
    assert [Arrive(front), Arrive(back)] == [Arrive(front)] + [Arrive(back)];
    RunMore(config, h, [Arrive(front)], [Arrive(back)]);
    RunOne(config, h, Arrive(front));
    RunOne(config, Apply(config, h, Arrive(front)), Arrive(back));
    RunOne(config, h, Arrive(front + back));
  }

  // ------------------------------------------------------------ Send and wait

  ghost predicate Answered(config: Option<StateIndex>, frames: seq<Frame>, request: U32)
  {
    exists f ::
      && f in frames
      && (f.cmd == request + 0x100 || (f.cmd == ACK_BASE_CFG_UPDATE && config == ClearedBy(request)))
  }

  class TcpCom {
    const com: HeliosCom
    const buffer: ReadBuffer
    var running: bool  // flag_thread_run_

    constructor (com: HeliosCom, buffer: ReadBuffer)
      ensures this.com == com && this.buffer == buffer && running
    {
      this.com, this.buffer := com, buffer;
      running := true;
    }

    ghost function View(): (r: Host)
      reads com, buffer
    {
      Host(com.View(), buffer.data, com.log)
    }

    // The body of the reader thread's loop, for the bytes of one read.
    method OnRead(chunk: seq<Byte>)
      modifies com, buffer
      ensures View() == Apply(com.config, old(View()), Arrive(chunk))
    {
      hide DispatchAll, Decode;
      buffer.data := buffer.data + chunk;
      var _ := com.ParseRecvTcpData(buffer);
    }

    /** Poll the flag every 10 ms until it is up or the time is over. `arrivals[k]` are the
        reads that happen during sleep k. Returns true exactly when a poll saw the flag. */
    method SendData(index: StateIndex, msec: nat, arrivals: seq<seq<seq<Byte>>>)
      returns (ok: bool, ghost polls: nat)
      requires |arrivals| == msec / 10 + 1
      modifies com, buffer
      ensures polls <= |arrivals|
      ensures View() == AfterWaits(com.config, old(View()), arrivals, polls)
      ensures forall k: nat :: k < polls ==>
                index !in AfterWaits(com.config, old(View()), arrivals, k).st.raised
      ensures ok ==> running && index in View().st.raised
      ensures !ok ==> !running || polls == |arrivals|
    {
      hide AfterWaits, Reads, Run, DispatchAll, Concat, Decode;
      polls := 0;
      ghost var h := View();
      NoWaits(com.config, h, arrivals);
      if !running {
        return false, 0;
      }
      for k := 0 to msec / 10 + 1
        invariant polls == k && running
        invariant View() == AfterWaits(com.config, h, arrivals, k)
        invariant forall j: nat :: j < k ==> index !in AfterWaits(com.config, h, arrivals, j).st.raised
      {
        if index in com.raised {
          return true, k;
        }
        Sleep(arrivals[k]);
        PollStep(com.config, h, arrivals, k);
        polls := k + 1;
      }
      return false, polls;
    }

    /** A command: its builder clears the flag, then the request is sent and polled for. A true
        answer always rests on an acknowledgement of this request dispatched since. */
    method Command(request: U32, msec: nat, arrivals: seq<seq<seq<Byte>>>) returns (ok: bool)
      requires ClearedBy(request).Some?
      requires |arrivals| == msec / 10 + 1
      requires Next(HELIOS_FRAME_FLAG, buffer.data).Wait?
      modifies com, buffer
      ensures Next(HELIOS_FRAME_FLAG, buffer.data).Wait?
      ensures old(com.log) <= com.log
      ensures ok ==> Answered(com.config, com.log[|old(com.log)|..], request)
      ensures request in {0x001, 0x009, 0x012, 0x014, 0x022, 0x032, 0x034, 0x037, 0x038} ==>
                forall k: nat :: LastCopy(com.log[|old(com.log)|..], k, request + 0x100) ==>
                  com.log[|old(com.log)|..][k].payload <= com.back
    {
      hide Decode, Run, EffectOf, ClearedBy, Next, Occurs, Reads, DispatchAll, Copies;
      var index := ClearedBy(request).value;
      com.raised := com.raised - {index};
      ghost var h := View();
      ghost var polls: nat;
      ok, polls := SendData(index, msec, arrivals);
      ghost var events := Reads(Concat(arrivals[..polls]));
      RunDecodes(com.config, h, events);
      LogGrows(com.config, h, events);
      if ok {
        AckSoundness(com.config, h, request, events);
      }
      ReadsDispatch(com.config, h, Concat(arrivals[..polls]));
      ReplyStays(com.config, h.st, com.log[|h.log|..], request);
    }

    /** Reboot is the exception: its builder raises the flag, so the answer is true at the
        first poll, before any byte is read. */
    method RebootLidar(msec: nat, arrivals: seq<seq<seq<Byte>>>) returns (ok: bool)
      requires |arrivals| == msec / 10 + 1
      modifies com, buffer
      ensures ok <==> running
      ensures com.log == old(com.log) && buffer.data == old(buffer.data)
    {
      hide Run, Reads, DispatchAll;
      com.raised := com.raised + {REBOOT_LIDAR};
      ghost var h := View();
      ghost var polls: nat;
      ok, polls := SendData(REBOOT_LIDAR, msec, arrivals);
      NoWaits(com.config, h, arrivals);
      assert polls == 0 by {
        assert REBOOT_LIDAR in AfterWaits(com.config, h, arrivals, 0).st.raised;
      }
    }

    // The reader thread gets its turn while the sender sleeps.
    method Sleep(chunks: seq<seq<Byte>>)
      modifies com, buffer
      ensures View() == Run(com.config, old(View()), Reads(chunks))
    {
      hide Apply, DispatchAll;
      for k := 0 to |chunks|
        invariant View() == Run(com.config, old(View()), Reads(chunks[..k]))
      {
        ghost var before := View();
        OnRead(chunks[k]);
        assert Reads(chunks[..k + 1]) == Reads(chunks[..k]) + [Arrive(chunks[k])];
        RunMore(com.config, old(View()), Reads(chunks[..k]), [Arrive(chunks[k])]);
        RunOne(com.config, before, Arrive(chunks[k]));
      }
      assert chunks[..|chunks|] == chunks;
    }
  }

  lemma ReplyStays(config: Option<StateIndex>, st: Replies, frames: seq<Frame>, request: U32)
    ensures request in {0x001, 0x009, 0x012, 0x014, 0x022, 0x032, 0x034, 0x037, 0x038} ==>
              forall k: nat :: LastCopy(frames, k, request + 0x100) ==>
                frames[k].payload <= DispatchAll(config, st, frames).back
  {
    hide LastCopy, DispatchAll;
    if request in {0x001, 0x009, 0x012, 0x014, 0x022, 0x032, 0x034, 0x037, 0x038} {
      forall k: nat | LastCopy(frames, k, request + 0x100)
        ensures k < |frames| && frames[k].payload <= DispatchAll(config, st, frames).back
      {
        LastCopyAt(frames, k, request + 0x100);
        PayloadStays(config, st, frames, k, request + 0x100);
      }
    }
  }

  lemma LastCopyAt(frames: seq<Frame>, k: nat, cmd: U32)
    requires LastCopy(frames, k, cmd)
    ensures k < |frames|
  {
  }

  // Reads alone change flags, buffer and length as the frames they dispatch say.
  lemma {:induction false} ReadsDispatch(config: Option<StateIndex>, h: Host, chunks: seq<seq<Byte>>)
    ensures var after := Run(config, h, Reads(chunks));
            h.log <= after.log && after.st == DispatchAll(config, h.st, after.log[|h.log|..])
    decreases |chunks|
  {
    hide DispatchAll, Decode;
    if chunks == [] {
      DispatchNone(config, h.st);
    } else {
      assert Reads(chunks)[1..] == Reads(chunks[1..]);
      var next := Apply(config, h, Arrive(chunks[0]));
      ReadsDispatch(config, next, chunks[1..]);
      var frames := Decode(HELIOS_FRAME_FLAG, h.rest + chunks[0]).frames;
      var all := Run(config, h, Reads(chunks)).log;
      DispatchMore(config, h.st, frames, all[|next.log|..]);
      assert all[|h.log|..] == frames + all[|next.log|..];
    }
  }

  // The host after the reads of the first k sleeps.
  ghost function AfterWaits(config: Option<StateIndex>, h: Host, arrivals: seq<seq<seq<Byte>>>, k: nat): Host
    requires k <= |arrivals|
  {
    Run(config, h, Reads(Concat(arrivals[..k])))
  }

  lemma NoWaits(config: Option<StateIndex>, h: Host, arrivals: seq<seq<seq<Byte>>>)
    ensures AfterWaits(config, h, arrivals, 0) == h
  {
    assert arrivals[..0] == [] && Reads(Concat<seq<Byte>>([])) == [];
  }

  lemma PollStep(config: Option<StateIndex>, h: Host, arrivals: seq<seq<seq<Byte>>>, k: nat)
    requires k < |arrivals|
    ensures Run(config, AfterWaits(config, h, arrivals, k), Reads(arrivals[k])) ==
            AfterWaits(config, h, arrivals, k + 1)
  {
    hide Run, Concat;
    var before := Concat(arrivals[..k]);
    assert arrivals[..k + 1] == arrivals[..k] + [arrivals[k]];
    ConcatSnoc(arrivals[..k], arrivals[k]);
    assert Reads(before + arrivals[k]) == Reads(before) + Reads(arrivals[k]);
    RunMore(config, h, Reads(before), Reads(arrivals[k]));
  }

  lemma RunOne(config: Option<StateIndex>, h: Host, e: Event)
    ensures Run(config, h, [e]) == Apply(config, h, e)
  {
    hide Apply;
    assert [e][1..] == [];
  }

  function Reads(chunks: seq<seq<Byte>>): (r: seq<Event>)
    ensures |r| == |chunks|
  {
    seq(|chunks|, k requires 0 <= k < |chunks| => Arrive(chunks[k]))
  }
}
