/** Reading the Helios event log: the lidar sends numbered packets, the reader thread keeps the
    latest one in the reply buffer that all acknowledgements share, and `TcpCom::readEventLog`
    polls for them. */
module EventLog {
  import opened Bytes
  import opened FrameStream
  import opened HeliosComm
  import opened Wrappers

  const ACK_READ_EVENT_LOG: U32 := 0x137
  const SEND_POLLS := 501   // sendData: one poll every 10 ms for 5 s, and one more
  const LOG_POLLS := 100    // readEventLog: one poll every 2 ms

  // What is dispatched around one poll: before it tests the flag, between the test and the copy,
  // and between the copy and the clearing of the flag. A list of slots that has run out stands
  // for a lidar that sends nothing more.
  datatype Slot<T> = Slot(before: seq<T>, tested: seq<T>, copied: seq<T>)

  function Now<T>(slots: seq<Slot<T>>): (r: Slot<T>)
  {
    if slots == [] then Slot([], [], []) else slots[0]
  }

  function Later<T>(slots: seq<Slot<T>>): (r: seq<Slot<T>>)
  {
    if slots == [] then [] else slots[1..]
  }

  // `Short`: a packet without its four header bytes, behind whose end the source would read.
  datatype Result = TimedOut | Short | Log(data: seq<Byte>)

  function Prepend(data: seq<Byte>, r: Result): (q: Result)
  {
    if r.Log? then Log(data + r.data) else r
  }

  // Two bytes packet count, two bytes packet number, then the text.
  predicate IsLast(p: seq<Byte>)
    requires |p| >= 4
  {
    p[0] == p[2] && p[1] == p[3]
  }

  // ------------------------------------------------------------ Specification

  predicate Up(st: Replies)
  {
    READ_EVENT_LOG in st.raised
  }

  function Cleared(st: Replies): (r: Replies)
    ensures !Up(r) && (Fits(st) ==> Fits(r))
  {
    st.(raised := st.raised - {READ_EVENT_LOG})
  }

  function After(config: Option<StateIndex>, st: Replies, frames: seq<Frame>): (r: Replies)
    requires Fits(st)
    ensures Fits(r)
    ensures frames == [] ==> r == st
  {
    DispatchAllFits(config, st, frames);
    DispatchAll(config, st, frames)
  }

  // The read from state `st` on, with `left` polls before it gives up: first the polls of
  // sendData, which only look, then those of the collecting loop.
  function Read(config: Option<StateIndex>, st: Replies, slots: seq<Slot<Frame>>, waiting: bool, left: nat)
    : (r: Result)
    requires Fits(st)
    decreases |slots|, if waiting then 1 else 0, if Up(st) then 1 else 0, left
  {
    var slot, rest := Now(slots), Later(slots);
    var seen := After(config, st, slot.before);
    if left == 0 then TimedOut
    else if !Up(seen) then Read(config, After(config, seen, slot.tested + slot.copied), rest, waiting, left - 1)
    else if waiting then Read(config, After(config, seen, slot.tested + slot.copied), rest, false, LOG_POLLS)
    else
      var copy := After(config, seen, slot.tested);
      Take(config, copy.back[..copy.len], Cleared(After(config, copy, slot.copied)), rest)
  }

  // A packet has been taken out: stop at the last one, otherwise go on.
  function Take(config: Option<StateIndex>, packet: seq<Byte>, st: Replies, slots: seq<Slot<Frame>>): (r: Result)
    requires Fits(st)
    decreases |slots|, 0, if Up(st) then 1 else 0, LOG_POLLS + 1
  {
    if |packet| < 4 then Short
    else if IsLast(packet) then Log(packet[4..])
    else Prepend(packet[4..], Read(config, st, slots, false, LOG_POLLS))
  }

  // ------------------------------------------------------------------ Methods

  // The reader thread dispatches some frames.
  method Dispatched(com: HeliosCom, frames: seq<Frame>)
    requires Fits(com.View())
    modifies com
    ensures com.View() == After(com.config, old(com.View()), frames)
  {
    hide Dispatch, DispatchAll;
    DispatchNone(com.config, com.View());
    for k := 0 to |frames|
      invariant com.View() == DispatchAll(com.config, old(com.View()), frames[..k])
    {
      var next := Dispatch(com.config, com.View(), frames[k]);
      DispatchSnoc(com.config, old(com.View()), frames[..k], frames[k]);
      assert frames[..k + 1] == frames[..k] + [frames[k]];
      com.raised, com.back, com.len := next.raised, next.back, next.len;
    }
    assert frames[..|frames|] == frames;
  }

  /** `getEventLogData`: test the flag, copy m_len bytes of the reply buffer, clear the flag; with
      what the reader thread dispatches before and in between. */
  method GetEventLogData(com: HeliosCom, slot: Slot<Frame>) returns (ok: bool, data: seq<Byte>)
    requires Fits(com.View())
    modifies com
    ensures Fits(com.View())
    ensures var seen := After(com.config, old(com.View()), slot.before);
            && ok == Up(seen)
            && (!ok ==> com.View() == After(com.config, seen, slot.tested + slot.copied))
            && (ok ==>
                 var copy := After(com.config, seen, slot.tested);
                 && data == copy.back[..copy.len]
                 && com.View() == Cleared(After(com.config, copy, slot.copied)))
  {
    hide After;
    Dispatched(com, slot.before);
    if READ_EVENT_LOG !in com.raised {
      Dispatched(com, slot.tested + slot.copied);
      return false, [];
    }
    Dispatched(com, slot.tested);
    data := com.back[..com.len];
    Dispatched(com, slot.copied);
    com.raised := com.raised - {READ_EVENT_LOG};
    return true, data;
  }

  // The inner loop of readEventLog: up to 100 polls for the next packet.
  method NextPacket(com: HeliosCom, slots: seq<Slot<Frame>>)
    returns (got: bool, packet: seq<Byte>, rest: seq<Slot<Frame>>)
    requires Fits(com.View())
    modifies com
    ensures Fits(com.View())
    ensures var r := Read(com.config, old(com.View()), slots, false, LOG_POLLS);
            if got then r == Take(com.config, packet, com.View(), rest) else r == TimedOut
    ensures got ==> |rest| < |slots| || (slots == rest == [] && old(Up(com.View())) && !Up(com.View()))
  {
    hide After, Cleared;
    packet, rest := [], slots;
    for k := 0 to LOG_POLLS
      invariant Fits(com.View()) && |rest| <= |slots|
      invariant slots == [] ==> com.View() == old(com.View())
      invariant Read(com.config, old(com.View()), slots, false, LOG_POLLS) ==
                Read(com.config, com.View(), rest, false, LOG_POLLS - k)
    {
      got, packet := GetEventLogData(com, Now(rest));
      rest := Later(rest);
      if got {
        return;
      }
    }
    return false, [], rest;
  }

  // The polls of sendData: up to 501 looks at the flag.
  method AwaitFirst(com: HeliosCom, slots: seq<Slot<Frame>>) returns (ok: bool, rest: seq<Slot<Frame>>)
    requires Fits(com.View())
    modifies com
    ensures Fits(com.View())
    ensures var r := Read(com.config, old(com.View()), slots, true, SEND_POLLS);
            if ok then r == Read(com.config, com.View(), rest, false, LOG_POLLS) else r == TimedOut
  {
    hide After;
    rest := slots;
    for k := 0 to SEND_POLLS
      invariant Fits(com.View())
      invariant Read(com.config, old(com.View()), slots, true, SEND_POLLS) ==
                Read(com.config, com.View(), rest, true, SEND_POLLS - k)
    {
      var slot := Now(rest);
      rest := Later(rest);
      Dispatched(com, slot.before);
      ok := READ_EVENT_LOG in com.raised;
      Dispatched(com, slot.tested + slot.copied);
      if ok {
        return true, rest;
      }
    }
    return false, rest;
  }

  /** `readEventLog`: clear the flag, wait for the first packet, then collect until a packet
      carries its own count as its number or 100 polls fail in a row. Whatever frames are
      dispatched between its steps, it ends with the result of the specification. */
  method ReadEventLog(com: HeliosCom, slots: seq<Slot<Frame>>) returns (r: Result)
    requires Fits(com.View())
    modifies com
    ensures r == Read(com.config, Cleared(old(com.View())), slots, true, SEND_POLLS)
  {
    hide Read;
    var recvData: seq<Byte> := [];
    com.raised := com.raised - {READ_EVENT_LOG};
    ghost var result := Read(com.config, com.View(), slots, true, SEND_POLLS);
    var found, rest := AwaitFirst(com, slots);
    if !found {
      return TimedOut;
    }
    while true
      invariant Fits(com.View())
      invariant result == Prepend(recvData, Read(com.config, com.View(), rest, false, LOG_POLLS))
      decreases |rest|, if Up(com.View()) then 1 else 0
    {
      var got, packet;
      got, packet, rest := NextPacket(com, rest);
      if !got {
        return TimedOut;
      }
      if |packet| < 4 {
        return Short;
      }
      PrependTwice(recvData, packet[4..], Read(com.config, com.View(), rest, false, LOG_POLLS));
      recvData := recvData + packet[4..];
      if packet[0] == packet[2] && packet[1] == packet[3] {
        return Log(recvData);
      }
    }
  }

  lemma PrependTwice(a: seq<Byte>, b: seq<Byte>, r: Result)
    ensures Prepend(a, Prepend(b, r)) == Prepend(a + b, r)
  {
    if r.Log? {
      assert a + (b + r.data) == a + b + r.data;
    }
  }

  // ------------------------------------------------------------------ Packets

  type LogPacket = p: seq<Byte> | 4 <= |p| <= REPLY_BUFFER witness [0, 0, 0, 0]

  function Body(p: LogPacket): (r: seq<Byte>)
  {
    p[4..]
  }

  function Bodies(packets: seq<LogPacket>): (r: seq<Byte>)
  {
    if packets == [] then [] else Body(packets[0]) + Bodies(packets[1..])
  }

  // A command whose acknowledgement leaves the log's flag, length and bytes alone.
  predicate Harmless(config: Option<StateIndex>, cmd: U32)
  {
    var e := EffectOf(cmd, config);
    e.copy == Nothing && !e.setsLen && e.state != Some(READ_EVENT_LOG)
  }

  predicate IsPacket(f: Frame)
  {
    f.cmd == ACK_READ_EVENT_LOG && 4 <= |f.payload| <= REPLY_BUFFER
  }

  // Log packets of a good size, and harmless frames of other commands.
  ghost predicate Clean(config: Option<StateIndex>, frames: seq<Frame>)
  {
    forall f :: f in frames ==> IsPacket(f) || Harmless(config, f.cmd)
  }

  ghost predicate CleanSlot(config: Option<StateIndex>, slot: Slot<Frame>)
  {
    Clean(config, slot.before) && Clean(config, slot.tested) && Clean(config, slot.copied)
  }

  ghost predicate CleanSlots(config: Option<StateIndex>, slots: seq<Slot<Frame>>)
  {
    forall slot :: slot in slots ==> CleanSlot(config, slot)
  }

  // The log packets among some frames.
  function Packets(frames: seq<Frame>): (r: seq<LogPacket>)
  {
    if frames == [] then []
    else (if IsPacket(frames[0]) then [frames[0].payload] else []) + Packets(frames[1..])
  }

  function SlotPackets(slot: Slot<Frame>): (r: Slot<LogPacket>)
  {
    Slot(Packets(slot.before), Packets(slot.tested), Packets(slot.copied))
  }

  function AllSlotPackets(slots: seq<Slot<Frame>>): (r: seq<Slot<LogPacket>>)
    ensures |r| == |slots|
  {
    seq(|slots|, k requires 0 <= k < |slots| => SlotPackets(slots[k]))
  }

  // ------------------------------------------------------- Packet-level reading

  // The packet behind a raised flag: the latest one.
  function Opt(pending: Option<LogPacket>): (r: seq<LogPacket>)
  {
    if pending.Some? then [pending.value] else []
  }

  function Last(packets: seq<LogPacket>): (r: Option<LogPacket>)
  {
    if packets == [] then None else Some(packets[|packets| - 1])
  }

  function Latest(pending: Option<LogPacket>, packets: seq<LogPacket>): (r: Option<LogPacket>)
  {
    Last(Opt(pending) + packets)
  }

  // The same read, seen from the log packets alone.
  function ReadPackets(pending: Option<LogPacket>, slots: seq<Slot<LogPacket>>, waiting: bool, left: nat)
    : (r: Result)
    decreases |slots|, if waiting then 1 else 0, if pending.Some? then 1 else 0, left
  {
    var slot, rest := Now(slots), Later(slots);
    var seen := Latest(pending, slot.before);
    if left == 0 then TimedOut
    else if seen.None? then ReadPackets(Last(slot.tested + slot.copied), rest, waiting, left - 1)
    else if waiting then ReadPackets(Latest(seen, slot.tested + slot.copied), rest, false, LOG_POLLS)
    else
      var p := Latest(seen, slot.tested).value;
      if IsLast(p) then Log(Body(p)) else Prepend(Body(p), ReadPackets(None, rest, false, LOG_POLLS))
  }

  // What flag, length and reply buffer say about the packet waiting.
  predicate Holds(st: Replies, pending: Option<LogPacket>)
  {
    match pending
    case None => !Up(st)
    case Some(p) => Up(st) && st.len == |p| && |p| <= |st.back| && st.back[..|p|] == p
  }

  lemma LogEffect(config: Option<StateIndex>)
    ensures EffectOf(ACK_READ_EVENT_LOG, config) == Effect(Some(READ_EVENT_LOG), Payload, true)
  {
  }

  lemma FrameHolds(config: Option<StateIndex>, st: Replies, pending: Option<LogPacket>, f: Frame)
    requires Holds(st, pending) && (IsPacket(f) || Harmless(config, f.cmd))
    ensures Holds(Dispatch(config, st, f), Latest(pending, Packets([f])))
  {
    LogEffect(config);
    hide EffectOf;
    assert [f][1..] == [];
  }

  lemma LatestStep(pending: Option<LogPacket>, first: seq<LogPacket>, rest: seq<LogPacket>)
    ensures Latest(Latest(pending, first), rest) == Latest(pending, first + rest)
    ensures if pending.None? then Latest(pending, rest) == Last(rest) else Latest(pending, rest).Some?
  {
  }

  lemma {:induction false} FramesHold(config: Option<StateIndex>, st: Replies, pending: Option<LogPacket>,
                                      frames: seq<Frame>)
    requires Fits(st) && Holds(st, pending) && Clean(config, frames)
    ensures Holds(After(config, st, frames), Latest(pending, Packets(frames)))
    decreases |frames|
  {
    hide Holds, Dispatch, IsPacket, Harmless, Fits, Packets, Latest;
    FramesNone(pending);
    if frames != [] {
      var f := frames[0];
      FrameHolds(config, st, pending, f);
      DispatchFits(config, st, f);
      FramesHold(config, Dispatch(config, st, f), Latest(pending, Packets([f])), frames[1..]);
      LatestStep(pending, Packets([f]), Packets(frames[1..]));
      PacketsMore([f], frames[1..]);
      assert [f] + frames[1..] == frames;
    }
  }

  lemma FramesNone(pending: Option<LogPacket>)
    ensures Latest(pending, Packets([])) == pending
  {
  }

  lemma {:induction false} PacketsMore(a: seq<Frame>, b: seq<Frame>)
    ensures Packets(a + b) == Packets(a) + Packets(b)
    decreases |a|
  {
    if a == [] {
      assert a + b == b;
    } else {
      assert (a + b)[1..] == a[1..] + b;
      PacketsMore(a[1..], b);
    }
  }

  lemma NowPackets(config: Option<StateIndex>, slots: seq<Slot<Frame>>)
    requires CleanSlots(config, slots)
    ensures Now(AllSlotPackets(slots)) == SlotPackets(Now(slots)) && CleanSlot(config, Now(slots))
    ensures Later(AllSlotPackets(slots)) == AllSlotPackets(Later(slots)) && CleanSlots(config, Later(slots))
  {
    hide IsPacket, Harmless;
  }

  /** With clean arrivals, only the log packets matter. */
  lemma {:induction false} ReadIsReadPackets(config: Option<StateIndex>, st: Replies, pending: Option<LogPacket>,
                                             slots: seq<Slot<Frame>>, waiting: bool, left: nat)
    requires Fits(st) && Holds(st, pending) && CleanSlots(config, slots)
    ensures Read(config, st, slots, waiting, left) ==
            ReadPackets(pending, AllSlotPackets(slots), waiting, left)
    decreases |slots|, if waiting then 1 else 0, if Up(st) then 1 else 0, left
  {
    hide After, Latest, Last, AllSlotPackets, CleanSlots, IsPacket, Harmless, Holds, Cleared, Now, Later, IsLast;
    NowPackets(config, slots);
    LaterShorter(slots);
    var slot, rest := Now(slots), Later(slots);
    var now := SlotPackets(slot);
    var seen := After(config, st, slot.before);
    HoldsSays(st, pending);
    FramesHold(config, st, pending, slot.before);
    var p := Latest(pending, now.before);
    HoldsSays(seen, p);
    LatestStep(p, [], now.tested + now.copied);
    if left == 0 {
    } else if p.None? || waiting {
      FramesHold(config, seen, p, slot.tested + slot.copied);
      PacketsMore(slot.tested, slot.copied);
      var next := After(config, seen, slot.tested + slot.copied);
      ReadIsReadPackets(config, next, Latest(p, now.tested + now.copied), rest,
                        waiting && p.None?, if p.None? then left - 1 else LOG_POLLS);
    } else {
      var copy := After(config, seen, slot.tested);
      FramesHold(config, seen, p, slot.tested);
      LatestStep(p, [], now.tested);
      HoldsSays(copy, Latest(p, now.tested));
      var next := Cleared(After(config, copy, slot.copied));
      HoldsSays(next, None);
      ReadIsReadPackets(config, next, None, rest, false, LOG_POLLS);
    }
  }

  lemma HoldsSays(st: Replies, pending: Option<LogPacket>)
    ensures Holds(st, pending) ==> (Up(st) <==> pending.Some?)
    ensures Holds(st, pending) && pending.Some? ==> Fits(st) && st.back[..st.len] == pending.value
    ensures Holds(st, None) <==> !Up(st)
  {
  }

  lemma LaterShorter<T>(slots: seq<Slot<T>>)
    ensures slots == [] ==> Later(slots) == [] && Now(slots) == Slot([], [], [])
    ensures slots != [] ==> |Later(slots)| < |slots|
  {
  }

  // -------------------------------------------------------------- Fate of packets

  // All packets, in the order of arrival.
  function AllOf(slots: seq<Slot<LogPacket>>): (r: seq<LogPacket>)
  {
    if slots == [] then []
    else slots[0].before + slots[0].tested + slots[0].copied + AllOf(slots[1..])
  }

  // Copied out by a poll, overwritten in the buffer before the copy, or dispatched between copy
  // and clearing, so that the flag goes down without a copy.
  datatype Fate = Fate(kept: seq<LogPacket>, overwritten: seq<LogPacket>, cleared: seq<LogPacket>)

  function Front(packets: seq<LogPacket>): (r: seq<LogPacket>)
  {
    if packets == [] then [] else packets[..|packets| - 1]
  }

  // What one poll does to the packets around it: it only looks when none is there or sendData
  // still waits, otherwise it takes the latest. `next` is what the flag is up for afterwards.
  datatype Step = Step(fate: Fate, next: Option<LogPacket>, waits: bool)

  function Seen(pending: Option<LogPacket>, slot: Slot<LogPacket>): (r: seq<LogPacket>)
  {
    Opt(pending) + slot.before
  }

  function StepOf(pending: Option<LogPacket>, slot: Slot<LogPacket>, waiting: bool): (r: Step)
    ensures |r.fate.kept| <= 1
  {
    var seen := Seen(pending, slot);
    if seen == [] || waiting then
      var all := seen + (slot.tested + slot.copied);
      Step(Fate([], Front(all), []), Last(all), waiting && seen == [])
    else
      var mine := seen + slot.tested;
      Step(Fate(Opt(Last(mine)), Front(mine), slot.copied), None, false)
  }

  function FateOf(pending: Option<LogPacket>, slots: seq<Slot<LogPacket>>, waiting: bool): (r: Fate)
    decreases |slots|
  {
    if slots == [] then Fate(Opt(pending), [], [])
    else
      var step := StepOf(pending, slots[0], waiting);
      var later := FateOf(step.next, slots[1..], step.waits);
      Fate(step.fate.kept + later.kept, step.fate.overwritten + later.overwritten,
           step.fate.cleared + later.cleared)
  }

  // The polls left behind a poll: a packet gives the loop a hundred new ones.
  function PollsLeft(pending: Option<LogPacket>, slot: Slot<LogPacket>, left: nat): (n: nat)
    requires left > 0
  {
    if Seen(pending, slot) == [] then left - 1 else LOG_POLLS
  }

  // The polls do not run out while packets are still to be taken.
  predicate Prompt(pending: Option<LogPacket>, slots: seq<Slot<LogPacket>>, waiting: bool, left: nat)
    decreases |slots|
  {
    Opt(pending) + AllOf(slots) == [] ||
    (left > 0 &&
     (slots == [] ||
      var step := StepOf(pending, slots[0], waiting);
      Prompt(step.next, slots[1..], step.waits, PollsLeft(pending, slots[0], left))))
  }

  // A whole log: the last packet, and only that one, carries its count as its number.
  predicate WholeLog(packets: seq<LogPacket>)
  {
    packets != [] && IsLast(packets[|packets| - 1]) && NoneLast(packets[..|packets| - 1])
  }

  predicate NoneLast(packets: seq<LogPacket>)
  {
    forall i :: 0 <= i < |packets| ==> !IsLast(packets[i])
  }

  lemma WholeSuffix(a: seq<LogPacket>, b: seq<LogPacket>)
    requires WholeLog(a + b)
    ensures b != [] ==> WholeLog(b) && NoneLast(a)
    ensures b == [] ==> WholeLog(a) && !NoneLast(a)
  {
    hide IsLast;
    if b != [] {
      assert forall i :: 0 <= i < |a| ==> (a + b)[i] == a[i];
      assert forall i :: 0 <= i < |b| ==> (a + b)[|a| + i] == b[i];
    } else {
      assert a + b == a;
    }
  }

  lemma NoneLastMore(a: seq<LogPacket>, b: seq<LogPacket>)
    ensures NoneLast(a + b) <==> NoneLast(a) && NoneLast(b)
  {
    hide IsLast;
    assert forall i :: 0 <= i < |a| ==> (a + b)[i] == a[i];
    assert forall i :: 0 <= i < |b| ==> (a + b)[|a| + i] == b[i];
  }

  lemma FrontAndLast(packets: seq<LogPacket>)
    ensures packets == Front(packets) + Opt(Last(packets))
    ensures Last(packets).None? <==> packets == []
  {
  }

  lemma Assoc<T>(a: seq<T>, b: seq<T>, c: seq<T>)
    ensures a + b + c == a + (b + c)
  {
  }

  lemma Regroup<T>(a: seq<T>, b: seq<T>, c: seq<T>, d: seq<T>, e: seq<T>)
    ensures a + (b + c + d + e) == a + b + (c + d) + e
    ensures a + (b + c + d + e) == a + b + c + (d + e)
  {
    Assoc(a, b, c + d + e);
    Assoc(b, c, d + e);
    Assoc(c, d, e);
    Assoc(a + b, c + d, e);
    Assoc(b + c, d, e);
    Assoc(a, b + c, d + e);
    Assoc(a, b, c);
  }

  // The packets are those that one poll settles and those still to come.
  lemma StepSplits(pending: Option<LogPacket>, slot: Slot<LogPacket>, waiting: bool, rest: seq<LogPacket>)
    ensures var step := StepOf(pending, slot, waiting);
            var comes := Opt(step.next) + rest;
            && Opt(pending) + (slot.before + slot.tested + slot.copied + rest) ==
               step.fate.overwritten + step.fate.kept + (step.fate.cleared + comes)
            && (step.fate.kept == [] && comes == [] ==> step.fate.overwritten == [] && step.fate.cleared == [])
  {
    hide Front, Last, Opt;
    Regroup(Opt(pending), slot.before, slot.tested, slot.copied, rest);
    var seen := Seen(pending, slot);
    if seen == [] || waiting {
      LookSplits(seen + (slot.tested + slot.copied), rest);
    } else {
      TakeSplits(seen + slot.tested, slot.copied, rest);
    }
  }

  lemma LookSplits(all: seq<LogPacket>, rest: seq<LogPacket>)
    ensures all + rest == Front(all) + [] + ([] + (Opt(Last(all)) + rest))
    ensures Opt(Last(all)) + rest == [] ==> Front(all) == []
  {
    FrontAndLast(all);
    OptNone(Last(all), rest);
    hide Front, Last, Opt;
    Assoc(Front(all), Opt(Last(all)), rest);
    var comes := Opt(Last(all)) + rest;
    assert Front(all) + [] == Front(all) && [] + comes == comes;
    if comes == [] {
      assert |Front(all)| <= |all| == 0;
    }
  }

  lemma TakeSplits(mine: seq<LogPacket>, copied: seq<LogPacket>, rest: seq<LogPacket>)
    requires mine != []
    ensures mine + (copied + rest) == Front(mine) + Opt(Last(mine)) + (copied + (Opt(None) + rest))
    ensures Opt(Last(mine)) != []
  {
    FrontAndLast(mine);
    NothingPending(rest);
  }

  lemma AllFirst(pending: Option<LogPacket>, slots: seq<Slot<LogPacket>>, waiting: bool)
    requires slots != []
    ensures var step := StepOf(pending, slots[0], waiting);
            var comes := Opt(step.next) + AllOf(slots[1..]);
            && Opt(pending) + AllOf(slots) == step.fate.overwritten + step.fate.kept + (step.fate.cleared + comes)
            && (step.fate.kept == [] && comes == [] ==> step.fate.overwritten == [] && step.fate.cleared == [])
  {
    hide StepOf, Opt;
    StepSplits(pending, slots[0], waiting, AllOf(slots[1..]));
  }

  lemma {:induction false} NothingComes(slots: seq<Slot<LogPacket>>, waiting: bool, left: nat)
    requires AllOf(slots) == []
    ensures ReadPackets(None, slots, waiting, left) == TimedOut
    ensures FateOf(None, slots, waiting) == Fate([], [], [])
    decreases |slots| + left
  {
    if slots != [] {
      var slot := slots[0];
      assert |AllOf(slots)| == |slot.before| + |slot.tested| + |slot.copied| + |AllOf(slots[1..])|;
      NothingComes(slots[1..], waiting, if left > 0 then left - 1 else 0);
    } else if left > 0 {
      NothingComes(slots, waiting, left - 1);
    }
  }

  function Outcome(kept: seq<LogPacket>, complete: bool): (r: Result)
  {
    if complete then Log(Bodies(kept)) else TimedOut
  }

  // What a poll adds in front of the result of the later ones.
  function Taken(kept: seq<LogPacket>, later: Result): (r: Result)
  {
    if kept == [] then later
    else if IsLast(kept[0]) then Log(Body(kept[0]))
    else Prepend(Body(kept[0]), later)
  }

  /** The read gives the bodies of the kept packets if the polls do not run out and the last
      packet is not cleared away; otherwise it times out. */
  lemma {:induction false} ReadOutcome(pending: Option<LogPacket>, slots: seq<Slot<LogPacket>>,
                                       waiting: bool, left: nat)
    requires WholeLog(Opt(pending) + AllOf(slots))
    ensures var fate := FateOf(pending, slots, waiting);
            ReadPackets(pending, slots, waiting, left) ==
            Outcome(fate.kept, Prompt(pending, slots, waiting, left) && NoneLast(fate.cleared))
    decreases |slots|
  {
    if slots == [] {
      NoMoreSlots(pending, waiting, left);
    } else if left > 0 {
      hide IsLast, WholeLog, NoneLast, Bodies, StepOf, AllOf, ReadPackets, Opt, Taken, PollsLeft;
      var step, rest := StepOf(pending, slots[0], waiting), slots[1..];
      var polls := PollsLeft(pending, slots[0], left);
      ReadStep(pending, slots, waiting, left);
      AllFirst(pending, slots, waiting);
      var comes := Opt(step.next) + AllOf(rest);
      WholeParts(step.fate, comes);
      if comes == [] {
        OptNone(step.next, AllOf(rest));
        NothingComes(rest, step.waits, polls);
      } else {
        ReadOutcome(step.next, rest, step.waits, polls);
      }
      TakenOutcome(step.fate, comes, FateOf(step.next, rest, step.waits),
                   Prompt(step.next, rest, step.waits, polls),
                   ReadPackets(step.next, rest, step.waits, polls));
    }
  }

  lemma OptNone(pending: Option<LogPacket>, packets: seq<LogPacket>)
    ensures Opt(pending) + packets == [] ==> pending.None? && packets == []
  {
    assert |Opt(pending) + packets| == |Opt(pending)| + |packets|;
  }

  lemma NoMoreSlots(pending: Option<LogPacket>, waiting: bool, left: nat)
    requires WholeLog(Opt(pending) + AllOf([]))
    ensures ReadPackets(pending, [], waiting, left) == Outcome(Opt(pending), left > 0)
  {
    assert Opt(pending) + AllOf([]) == Opt(pending);
    OneBody(pending.value);
    assert ReadPackets(pending, [], false, LOG_POLLS) == Log(Body(pending.value));
  }

  lemma OneBody(p: LogPacket)
    ensures Bodies([p]) == Body(p)
  {
    assert [p][1..] == [] && Body(p) + [] == Body(p);
  }

  lemma ReadStep(pending: Option<LogPacket>, slots: seq<Slot<LogPacket>>, waiting: bool, left: nat)
    requires slots != [] && left > 0
    ensures var step := StepOf(pending, slots[0], waiting);
            ReadPackets(pending, slots, waiting, left) ==
            Taken(step.fate.kept,
                  ReadPackets(step.next, slots[1..], step.waits, PollsLeft(pending, slots[0], left)))
  {
    hide IsLast;
    var slot := slots[0];
    LatestStep(pending, slot.before, slot.tested + slot.copied);
    LatestStep(pending, slot.before, slot.tested);
    Assoc(Opt(pending), slot.before, slot.tested + slot.copied);
    Assoc(Opt(pending), slot.before, slot.tested);
    FrontAndLast(Seen(pending, slot));
    FrontAndLast(Seen(pending, slot) + slot.tested);
  }

  // Where the last packet of a whole log can be.
  lemma WholeParts(fate: Fate, comes: seq<LogPacket>)
    requires WholeLog(fate.overwritten + fate.kept + (fate.cleared + comes)) && |fate.kept| <= 1
    requires fate.kept == [] && comes == [] ==> fate.overwritten == [] && fate.cleared == []
    ensures comes != [] ==> WholeLog(comes) && NoneLast(fate.kept) && NoneLast(fate.cleared)
    ensures comes == [] && fate.cleared != [] ==> NoneLast(fate.kept) && !NoneLast(fate.cleared)
    ensures comes == [] && fate.cleared == [] ==> |fate.kept| == 1 && IsLast(fate.kept[0])
  {
    hide IsLast;
    WholeSuffix(fate.overwritten + fate.kept, fate.cleared + comes);
    if fate.cleared + comes != [] {
      WholeSuffix(fate.cleared, comes);
      NoneLastMore(fate.overwritten, fate.kept);
    } else {
      assert |fate.cleared + comes| == 0;
      WholeSuffix(fate.overwritten, fate.kept);
    }
  }

  lemma TakenOutcome(fate: Fate, comes: seq<LogPacket>, later: Fate, prompt: bool, r: Result)
    requires |fate.kept| <= 1
    requires if comes == [] then r == TimedOut && later == Fate([], [], [])
             else r == Outcome(later.kept, prompt && NoneLast(later.cleared))
    requires comes == [] ==> prompt
    requires comes != [] ==> NoneLast(fate.kept) && NoneLast(fate.cleared)
    requires comes == [] && fate.cleared != [] ==> NoneLast(fate.kept) && !NoneLast(fate.cleared)
    requires comes == [] && fate.cleared == [] ==> |fate.kept| == 1 && IsLast(fate.kept[0])
    ensures Taken(fate.kept, r) ==
            Outcome(fate.kept + later.kept, prompt && NoneLast(fate.cleared + later.cleared))
  {
    hide IsLast, Bodies;
    NoneLastMore(fate.cleared, later.cleared);
    BodiesMore(fate.kept, later.kept);
    assert [] + later.kept == later.kept;
    if fate.kept != [] {
      assert fate.kept == [fate.kept[0]];
      OneBody(fate.kept[0]);
      assert fate.kept + [] == fate.kept;
    }
  }

  lemma {:induction false} BodiesMore(a: seq<LogPacket>, b: seq<LogPacket>)
    ensures Bodies(a + b) == Bodies(a) + Bodies(b)
    decreases |a|
  {
    if a == [] {
      assert a + b == b;
    } else {
      assert (a + b)[1..] == a[1..] + b;
      BodiesMore(a[1..], b);
    }
  }

  function Times(p: LogPacket, packets: seq<LogPacket>): (n: nat)
  {
    multiset(packets)[p]
  }

  lemma TimesMore(p: LogPacket, a: seq<LogPacket>, b: seq<LogPacket>)
    ensures Times(p, a + b) == Times(p, a) + Times(p, b)
  {
  }

  /** Every packet has one fate. */
  lemma {:induction false} OneFate(p: LogPacket, pending: Option<LogPacket>, slots: seq<Slot<LogPacket>>, waiting: bool)
    ensures var fate := FateOf(pending, slots, waiting);
            Times(p, fate.kept) + Times(p, fate.overwritten) + Times(p, fate.cleared) ==
            Times(p, Opt(pending) + AllOf(slots))
    decreases |slots|
  {
    if slots == [] {
      assert Opt(pending) + AllOf(slots) == Opt(pending);
    } else {
      hide AllOf, StepOf, Opt, Times;
      var step := StepOf(pending, slots[0], waiting);
      var fate, comes := step.fate, Opt(step.next) + AllOf(slots[1..]);
      var later := FateOf(step.next, slots[1..], step.waits);
      AllFirst(pending, slots, waiting);
      OneFate(p, step.next, slots[1..], step.waits);
      TimesMore(p, fate.overwritten + fate.kept, fate.cleared + comes);
      TimesMore(p, fate.overwritten, fate.kept);
      TimesMore(p, fate.cleared, comes);
      TimesMore(p, fate.kept, later.kept);
      TimesMore(p, fate.overwritten, later.overwritten);
      TimesMore(p, fate.cleared, later.cleared);
    }
  }

  // The text of the log is that of the kept packets exactly if the others have none.
  lemma {:induction false} TextsByFate(pending: Option<LogPacket>, slots: seq<Slot<LogPacket>>, waiting: bool)
    ensures ByFate(FateOf(pending, slots, waiting), Opt(pending) + AllOf(slots))
    decreases |slots|
  {
    if slots == [] {
      assert Opt(pending) + AllOf(slots) == Opt(pending);
    } else {
      hide AllOf, StepOf, Opt, ByFate;
      var step := StepOf(pending, slots[0], waiting);
      AllFirst(pending, slots, waiting);
      TextsByFate(step.next, slots[1..], step.waits);
      ByFateMore(step.fate, FateOf(step.next, slots[1..], step.waits), Opt(step.next) + AllOf(slots[1..]));
    }
  }

  predicate ByFate(fate: Fate, packets: seq<LogPacket>)
  {
    && (Bodies(fate.kept) == Bodies(packets) <==> Bodies(fate.overwritten) == [] && Bodies(fate.cleared) == [])
    && |Bodies(packets)| == |Bodies(fate.kept)| + |Bodies(fate.overwritten)| + |Bodies(fate.cleared)|
  }

  lemma ByFateMore(fate: Fate, later: Fate, comes: seq<LogPacket>)
    requires ByFate(later, comes)
    ensures ByFate(Fate(fate.kept + later.kept, fate.overwritten + later.overwritten, fate.cleared + later.cleared),
                   fate.overwritten + fate.kept + (fate.cleared + comes))
  {
    hide Bodies;
    BodiesMore(fate.overwritten + fate.kept, fate.cleared + comes);
    BodiesMore(fate.overwritten, fate.kept);
    BodiesMore(fate.cleared, comes);
    BodiesMore(fate.kept, later.kept);
    BodiesMore(fate.overwritten, later.overwritten);
    BodiesMore(fate.cleared, later.cleared);
    Recombine(Bodies(fate.overwritten), Bodies(fate.kept), Bodies(fate.cleared), Bodies(comes),
              Bodies(later.kept), Bodies(later.overwritten), Bodies(later.cleared));
  }

  lemma Recombine(front: seq<Byte>, mine: seq<Byte>, copied: seq<Byte>, all: seq<Byte>,
                  kept: seq<Byte>, over: seq<Byte>, cleared: seq<Byte>)
    requires |all| == |kept| + |over| + |cleared|
    requires kept == all <==> over == [] && cleared == []
    ensures var whole := front + mine + (copied + all);
            && |whole| == |mine + kept| + |front + over| + |copied + cleared|
            && (mine + kept == whole <==> front + over == [] && copied + cleared == [])
  {
    var whole := front + mine + (copied + all);
    if front + over == [] && copied + cleared == [] {
      assert |front + over| == 0 && |copied + cleared| == 0;
      assert whole == mine + all;
    } else {
      assert |front + over| > 0 || |copied + cleared| > 0;
    }
  }

  lemma NothingPending(packets: seq<LogPacket>)
    ensures Opt(None) + packets == packets
  {
  }

  // ------------------------------------------------------------------ Results

  // The packets of a read, and what becomes of them.
  function Arrivals(slots: seq<Slot<Frame>>): (r: seq<LogPacket>)
  {
    AllOf(AllSlotPackets(slots))
  }

  function Fates(slots: seq<Slot<Frame>>): (r: Fate)
  {
    FateOf(None, AllSlotPackets(slots), true)
  }

  predicate InTime(slots: seq<Slot<Frame>>)
  {
    Prompt(None, AllSlotPackets(slots), true, SEND_POLLS)
  }

  /** For all clean arrivals of a whole log, at whatever points of the read: it succeeds if and
      only if the polls do not run out and the last packet is not cleared away; and it gives the
      whole log, in order and without packet headers, if and only if moreover every packet that is
      overwritten or cleared away has no text. Otherwise a success gives the kept texts. */
  lemma LogExact(config: Option<StateIndex>, st: Replies, slots: seq<Slot<Frame>>)
    requires Fits(st) && CleanSlots(config, slots) && WholeLog(Arrivals(slots))
    ensures var r := Read(config, Cleared(st), slots, true, SEND_POLLS);
            var fates := Fates(slots);
            && (r.Log? <==> InTime(slots) && NoneLast(fates.cleared))
            && (if r.Log? then r.data == Bodies(fates.kept) else r == TimedOut)
            && (r == Log(Bodies(Arrivals(slots))) <==>
                 InTime(slots) && NoneLast(fates.cleared) &&
                 Bodies(fates.overwritten) == [] && Bodies(fates.cleared) == [])
  {
    hide CleanSlots, WholeLog, AllOf, AllSlotPackets, FateOf, Prompt, NoneLast, Bodies, Read, ReadPackets;
    ReadIsReadPackets(config, Cleared(st), None, slots, true, SEND_POLLS);
    NothingPending(Arrivals(slots));
    ReadOutcome(None, AllSlotPackets(slots), true, SEND_POLLS);
    TextsByFate(None, AllSlotPackets(slots), true);
  }

  // ------------------------------------------------------ Sufficient schedules

  // At most one packet before a poll, none before the next, and none while a poll takes one.
  predicate Spaced(slots: seq<Slot<LogPacket>>)
  {
    forall k :: 0 <= k < |slots| ==>
      && |slots[k].before| <= 1 && slots[k].tested == [] && slots[k].copied == []
      && (slots[k].before != [] && k + 1 < |slots| ==> slots[k + 1].before == [])
  }

  lemma {:induction false} SpacedLosesNothing(pending: Option<LogPacket>, slots: seq<Slot<LogPacket>>, waiting: bool)
    requires Spaced(slots)
    requires pending.Some? ==> !waiting && (slots != [] ==> slots[0].before == [])
    ensures var fate := FateOf(pending, slots, waiting);
            fate.overwritten == [] && fate.cleared == []
    decreases |slots|
  {
    if slots != [] {
      SpacedTail(slots);
      hide Spaced;
      SpacedStep(pending, slots[0], waiting);
      var step := StepOf(pending, slots[0], waiting);
      SpacedLosesNothing(step.next, slots[1..], step.waits);
    }
  }

  lemma SpacedStep(pending: Option<LogPacket>, slot: Slot<LogPacket>, waiting: bool)
    requires |slot.before| <= 1 && slot.tested == [] && slot.copied == []
    requires pending.Some? ==> !waiting && slot.before == []
    ensures var step := StepOf(pending, slot, waiting);
            && step.fate.overwritten == [] && step.fate.cleared == []
            && (step.next.Some? ==> !step.waits && slot.before != [])
  {
  }

  lemma SpacedTail(slots: seq<Slot<LogPacket>>)
    requires Spaced(slots) && slots != []
    ensures |slots[0].before| <= 1 && slots[0].tested == [] && slots[0].copied == []
    ensures slots[0].before != [] && |slots| > 1 ==> slots[1].before == []
    ensures Spaced(slots[1..])
  {
    assert forall k :: 0 <= k < |slots| - 1 ==> slots[1..][k] == slots[k + 1];
  }

  /** What the lidar sends for a log of given texts: packets 1 to n of n. */
  function Numbered(texts: seq<seq<Byte>>): (r: seq<LogPacket>)
    requires 0 < |texts| < 0x1_0000
    requires forall t :: t in texts ==> |t| <= REPLY_BUFFER - 4
  {
    seq(|texts|, i requires 0 <= i < |texts| =>
      PutLe16(|texts|) + PutLe16(i + 1) + texts[i])
  }

  /** Log reassembly: if the lidar sends packets 1 to n, among harmless frames, and the polls keep
      up with them, the result is the texts in order. */
  lemma LogReassembly(texts: seq<seq<Byte>>, config: Option<StateIndex>, st: Replies, slots: seq<Slot<Frame>>)
    requires 0 < |texts| < 0x1_0000
    requires forall t :: t in texts ==> |t| <= REPLY_BUFFER - 4
    requires Fits(st) && CleanSlots(config, slots)
    requires Spaced(AllSlotPackets(slots)) && InTime(slots)
    ensures Arrivals(slots) == Numbered(texts) ==>
              Read(config, Cleared(st), slots, true, SEND_POLLS) == Log(Concat(texts))
  {
    hide CleanSlots, Read, Spaced, InTime, Cleared, Arrivals;
    if Arrivals(slots) == Numbered(texts) {
      NumberedIsWhole(texts);
      NumberedBodies(texts, Numbered(texts), 0);
      SpacedLosesNothing(None, AllSlotPackets(slots), true);
      LogExact(config, st, slots);
    }
  }

  lemma NumberedIsWhole(texts: seq<seq<Byte>>)
    requires 0 < |texts| < 0x1_0000
    requires forall t :: t in texts ==> |t| <= REPLY_BUFFER - 4
    ensures WholeLog(Numbered(texts))
  {
    hide PutLe16;
    forall i | 0 <= i < |texts|
      ensures IsLast(Numbered(texts)[i]) <==> i == |texts| - 1
    {
      Le16Injective(|texts|, i + 1);
      assert texts[i] in texts;
      var p := Numbered(texts)[i];
      assert p == PutLe16(|texts|) + PutLe16(i + 1) + texts[i];
      assert p[0] == PutLe16(|texts|)[0] && p[1] == PutLe16(|texts|)[1];
      assert p[2] == PutLe16(i + 1)[0] && p[3] == PutLe16(i + 1)[1];
    }
  }

  lemma Le16Injective(x: U16, y: U16)
    ensures PutLe16(x)[0] == PutLe16(y)[0] && PutLe16(x)[1] == PutLe16(y)[1] <==> x == y
  {
  }

  lemma {:induction false} NumberedBodies(texts: seq<seq<Byte>>, packets: seq<LogPacket>, from: nat)
    requires |packets| == |texts| && from <= |texts|
    requires forall i :: 0 <= i < |texts| ==> Body(packets[i]) == texts[i]
    ensures Bodies(packets[from..]) == Concat(texts[from..])
    ensures from == 0 ==> Bodies(packets) == Concat(texts)
    decreases |texts| - from
  {
    if from < |texts| {
      NumberedBodies(texts, packets, from + 1);
      assert packets[from..][1..] == packets[from + 1..] && texts[from..][1..] == texts[from + 1..];
    }
    assert packets[0..] == packets && texts[0..] == texts;
  }

  // --------------------------------------------------------------- Failing inputs

  // Packets 1 and 2 of 2, with the texts "A" and "B".
  const FIRST: LogPacket := [2, 0, 1, 0, 65]
  const SECOND: LogPacket := [2, 0, 2, 0, 66]

  function Sent(p: LogPacket): (f: Frame)
  {
    Frame(ACK_READ_EVENT_LOG, p)
  }

  function Before(frames: seq<Frame>): (slot: Slot<Frame>)
  {
    Slot(frames, [], [])
  }

  lemma PacketsOfSent(p: LogPacket, q: LogPacket)
    ensures Packets([]) == [] && Packets([Sent(p)]) == [p] && Packets([Sent(p), Sent(q)]) == [p, q]
  {
    assert [Sent(p), Sent(q)][1..] == [Sent(q)] && [Sent(q)][1..] == [];
  }

  lemma SentIsClean(config: Option<StateIndex>, p: LogPacket, q: LogPacket)
    ensures Clean(config, []) && Clean(config, [Sent(p)]) && Clean(config, [Sent(p), Sent(q)])
  {
    hide Harmless;
  }

  /** Two packets between two polls: the first text is lost, and the read still succeeds. */
  lemma LostPacket(config: Option<StateIndex>, st: Replies)
    requires Fits(st)
    ensures var slots := [Before([Sent(FIRST), Sent(SECOND)])];
            && Arrivals(slots) == [FIRST, SECOND]
            && Read(config, Cleared(st), slots, true, SEND_POLLS) == Log([66])
  {
    hide Read, Clean, Packets, AllOf, FateOf, Prompt, Cleared, Fits, WholeLog, NoneLast;
    var slots := [Before([Sent(FIRST), Sent(SECOND)])];
    PacketsOfSent(FIRST, SECOND);
    SentIsClean(config, FIRST, SECOND);
    assert AllSlotPackets(slots) == [Slot([FIRST, SECOND], [], [])];
    TwoAtOnce();
    TwoIsWhole();
    OneBody(SECOND);
    LogExact(config, st, slots);
  }

  lemma TwoIsWhole()
    ensures WholeLog([FIRST, SECOND]) && NoneLast([]) && !NoneLast([SECOND])
  {
    var packets: seq<LogPacket> := [FIRST, SECOND];
    assert packets[..|packets| - 1] == [FIRST] && !IsLast(FIRST) && IsLast(SECOND);
    var second: seq<LogPacket> := [SECOND];
    assert IsLast(second[0]);
  }

  lemma TwoAtOnce()
    ensures var slots: seq<Slot<LogPacket>> := [Slot([FIRST, SECOND], [], [])];
            && AllOf(slots) == [FIRST, SECOND]
            && FateOf(None, slots, true) == Fate([SECOND], [FIRST], [])
            && Prompt(None, slots, true, SEND_POLLS)
  {
    var slots: seq<Slot<LogPacket>> := [Slot([FIRST, SECOND], [], [])];
    assert slots[1..] == [];
    assert [FIRST, SECOND] + [] + [] + [] == [FIRST, SECOND] == [] + [FIRST, SECOND] + ([] + []);
    assert Front([FIRST, SECOND]) == [FIRST];
  }

  /** The last packet dispatched between copy and clearing: nothing is overwritten, all packets
      have arrived in time, and the read times out. */
  lemma ClearedPacket(config: Option<StateIndex>, st: Replies)
    requires Fits(st)
    ensures var slots := [Before([Sent(FIRST)]), Slot([], [], [Sent(SECOND)])];
            && Arrivals(slots) == [FIRST, SECOND] && Fates(slots) == Fate([FIRST], [], [SECOND]) && InTime(slots)
            && Read(config, Cleared(st), slots, true, SEND_POLLS) == TimedOut
  {
    hide Read, Clean, Packets, AllOf, FateOf, Prompt, Cleared, Fits, WholeLog, NoneLast;
    var slots := [Before([Sent(FIRST)]), Slot([], [], [Sent(SECOND)])];
    PacketsOfSent(FIRST, FIRST);
    PacketsOfSent(SECOND, SECOND);
    SentIsClean(config, FIRST, FIRST);
    SentIsClean(config, SECOND, SECOND);
    assert AllSlotPackets(slots) == [Slot([FIRST], [], []), Slot([], [], [SECOND])];
    OneThenCleared();
    TwoIsWhole();
    LogExact(config, st, slots);
  }

  lemma OneThenCleared()
    ensures var slots: seq<Slot<LogPacket>> := [Slot([FIRST], [], []), Slot([], [], [SECOND])];
            && AllOf(slots) == [FIRST, SECOND]
            && FateOf(None, slots, true) == Fate([FIRST], [], [SECOND])
            && Prompt(None, slots, true, SEND_POLLS)
  {
    var rest: seq<Slot<LogPacket>> := [Slot([], [], [SECOND])];
    var slots: seq<Slot<LogPacket>> := [Slot([FIRST], [], [])] + rest;
    assert slots == [Slot([FIRST], [], []), Slot([], [], [SECOND])];
    assert rest[1..] == [] && slots[1..] == rest;
    SingleSteps();
    AllOne(slots, [FIRST]);
    assert AllOf(rest) == [SECOND];
    hide StepOf, AllOf;
    assert FateOf(Some(FIRST), rest, false) == Fate([FIRST], [], [SECOND]);
    PromptAtEnd(LOG_POLLS);
    PromptOn(Some(FIRST), rest, false, LOG_POLLS);
    PromptOn(None, slots, true, SEND_POLLS);
  }

  // ----------------------------------------------------------- How long it waits

  // Polls around which nothing is dispatched.
  function Idle<T>(n: nat): (slots: seq<Slot<T>>)
    ensures |slots| == n
  {
    seq(n, _ => Slot([], [], []))
  }

  lemma {:induction false} IdlePolls(n: nat, rest: seq<Slot<LogPacket>>, waiting: bool, left: nat)
    ensures ReadPackets(None, Idle(n) + rest, waiting, left) ==
            if n < left then ReadPackets(None, rest, waiting, left - n) else TimedOut
    decreases n
  {
    var slots := Idle<LogPacket>(n) + rest;
    if n == 0 {
      assert slots == rest;
    } else if left > 0 {
      assert slots[0] == Slot([], [], []) && slots[1..] == Idle(n - 1) + rest;
      IdlePolls(n - 1, rest, waiting, left - 1);
    }
  }

  // The only packet of a log of one.
  const ONLY: LogPacket := [1, 0, 1, 0, 65]

  /** The first packet is waited for through 500 idle polls, and not through 501. */
  lemma FirstWait(config: Option<StateIndex>, st: Replies, n: nat)
    requires Fits(st)
    ensures Read(config, Cleared(st), Idle(n) + [Before([Sent(ONLY)])], true, SEND_POLLS) ==
            if n <= 500 then Log([65]) else TimedOut
  {
    hide Read, Cleared, Fits, ReadPackets, CleanSlots, AllSlotPackets, Packets;
    var last := [Before([Sent(ONLY)])];
    SentSlot(config, ONLY);
    IdleSlots(config, n, last);
    NothingPending([]);
    ReadIsReadPackets(config, Cleared(st), None, Idle(n) + last, true, SEND_POLLS);
    IdlePolls(n, [Slot([ONLY], [], [])], true, SEND_POLLS);
    if n < SEND_POLLS {
      OnlyRead(SEND_POLLS - n);
    }
  }

  lemma OnlyRead(left: nat)
    requires left > 0
    ensures ReadPackets(None, [Slot([ONLY], [], [])], true, left) == Log([65])
  {
    var slots: seq<Slot<LogPacket>> := [Slot([ONLY], [], [])];
    assert slots[1..] == [];
    assert Latest(None, [ONLY]) == Some(ONLY) && Latest(Some(ONLY), [] + []) == Some(ONLY);
    assert ReadPackets(Some(ONLY), [], false, LOG_POLLS) == Log([65]);
  }

  lemma SentSlot(config: Option<StateIndex>, p: LogPacket)
    ensures CleanSlots(config, [Before([Sent(p)])]) && AllSlotPackets([Before([Sent(p)])]) == [Slot([p], [], [])]
  {
    PacketsOfSent(p, p);
    SentIsClean(config, p, p);
    hide Clean, Packets;
  }

  lemma IdleSlots(config: Option<StateIndex>, n: nat, rest: seq<Slot<Frame>>)
    requires CleanSlots(config, rest)
    ensures CleanSlots(config, Idle(n) + rest)
    ensures AllSlotPackets(Idle(n) + rest) == Idle(n) + AllSlotPackets(rest)
  {
    PacketsOfSent(ONLY, ONLY);
    hide Packets, IsPacket, Harmless;
  }

  /** The next packet is waited for through 99 idle polls, and not through 100. */
  lemma NextWait(config: Option<StateIndex>, st: Replies, n: nat)
    requires Fits(st)
    ensures var slots := [Before([Sent(FIRST)])] + (Idle(1) + (Idle(n) + [Before([Sent(SECOND)])]));
            Read(config, Cleared(st), slots, true, SEND_POLLS) == if n <= 99 then Log([65, 66]) else TimedOut
  {
    hide Read, Cleared, Fits, ReadPackets, CleanSlots, AllSlotPackets;
    var last := [Before([Sent(SECOND)])];
    SentSlot(config, SECOND);
    IdleSlots(config, n, last);
    IdleSlots(config, 1, Idle(n) + last);
    FirstThen(config, Idle(1) + (Idle(n) + last));
    ReadIsReadPackets(config, Cleared(st), None, [Before([Sent(FIRST)])] + (Idle(1) + (Idle(n) + last)),
                      true, SEND_POLLS);
    FirstTaken(Idle(n) + [Slot([SECOND], [], [])]);
    IdlePolls(n, [Slot([SECOND], [], [])], false, LOG_POLLS);
    if n < LOG_POLLS {
      SecondRead(LOG_POLLS - n);
    }
  }

  lemma FirstThen(config: Option<StateIndex>, rest: seq<Slot<Frame>>)
    requires CleanSlots(config, rest)
    ensures CleanSlots(config, [Before([Sent(FIRST)])] + rest)
    ensures AllSlotPackets([Before([Sent(FIRST)])] + rest) == [Slot([FIRST], [], [])] + AllSlotPackets(rest)
  {
    SentSlot(config, FIRST);
    hide CleanSlot, SlotPackets;
    assert [Before([Sent(FIRST)])][0] in [Before([Sent(FIRST)])];
    assert AllSlotPackets([Before([Sent(FIRST)])])[0] == Slot([FIRST], [], []);
  }

  lemma FirstTaken(rest: seq<Slot<LogPacket>>)
    ensures ReadPackets(None, [Slot([FIRST], [], [])] + (Idle(1) + rest), true, SEND_POLLS) ==
            Prepend([65], ReadPackets(None, rest, false, LOG_POLLS))
  {
    var later := Idle<LogPacket>(1) + rest;
    var slots := [Slot([FIRST], [], [])] + later;
    assert slots[1..] == later && later[0] == Slot([], [], []) && later[1..] == rest;
    assert Latest(None, [FIRST]) == Some(FIRST) && Latest(Some(FIRST), []) == Some(FIRST);
    assert ReadPackets(None, slots, true, SEND_POLLS) == ReadPackets(Some(FIRST), later, false, LOG_POLLS);
  }

  lemma SecondRead(left: nat)
    requires left > 0
    ensures ReadPackets(None, [Slot([SECOND], [], [])], false, left) == Log([66])
  {
    var slots: seq<Slot<LogPacket>> := [Slot([SECOND], [], [])];
    assert slots[1..] == [];
    assert Latest(None, [SECOND]) == Some(SECOND) && Latest(Some(SECOND), []) == Some(SECOND);
  }

  // ------------------------------------------------------- Which frames disturb

  // Log packets of a good size, and frames of one other command.
  ghost predicate Mixed(cmd: U32, frames: seq<Frame>)
  {
    forall f :: f in frames ==> IsPacket(f) || f.cmd == cmd
  }

  ghost predicate MixedSlots(cmd: U32, slots: seq<Slot<Frame>>)
  {
    forall slot :: slot in slots ==> Mixed(cmd, slot.before) && Mixed(cmd, slot.tested) && Mixed(cmd, slot.copied)
  }

  // A whole log that arrives in time, with no packet overwritten or cleared away, is read whole.
  ghost predicate Undisturbed(config: Option<StateIndex>, cmd: U32, st: Replies, slots: seq<Slot<Frame>>)
  {
    Fits(st) && MixedSlots(cmd, slots) && WholeLog(Arrivals(slots)) && InTime(slots) &&
    Fates(slots).overwritten == [] && Fates(slots).cleared == [] ==>
      Read(config, Cleared(st), slots, true, SEND_POLLS) == Log(Bodies(Arrivals(slots)))
  }

  /** The condition on the other frames is exact: the acknowledgements of a command leave the
      reading of every log undisturbed, whenever they come, if and only if the command is harmless. */
  lemma HarmlessExactly(config: Option<StateIndex>, cmd: U32)
    requires cmd != ACK_READ_EVENT_LOG
    ensures Harmless(config, cmd) <==> forall st, slots :: Undisturbed(config, cmd, st, slots)
  {
    hide Harmless, Undisturbed;
    if Harmless(config, cmd) {
      forall st, slots
        ensures Undisturbed(config, cmd, st, slots)
      {
        HarmlessUndisturbed(config, cmd, st, slots);
      }
    } else {
      var st := Replies({}, seq(REPLY_BUFFER, _ => 0), 0);
      Disturbs(config, cmd, st);
      assert !Undisturbed(config, cmd, st, Disturbance(cmd));
    }
  }

  lemma HarmlessUndisturbed(config: Option<StateIndex>, cmd: U32, st: Replies, slots: seq<Slot<Frame>>)
    requires Harmless(config, cmd)
    ensures Undisturbed(config, cmd, st, slots)
  {
    hide IsPacket, Harmless, Fits, WholeLog, InTime, Fates, Arrivals, Read, Cleared;
    if Fits(st) && MixedSlots(cmd, slots) && WholeLog(Arrivals(slots)) && InTime(slots) {
      assert CleanSlots(config, slots);
      LogExact(config, st, slots);
      NoneOfNone();
    }
  }

  lemma NoneOfNone()
    ensures NoneLast([]) && Bodies([]) == []
  {
  }

  // A frame whose payload looks like a last packet's header.
  function Foreign(cmd: U32): (f: Frame)
  {
    Frame(cmd, [1, 0, 1, 0])
  }

  // Two packets, and the frame twice between them.
  function Disturbance(cmd: U32): (slots: seq<Slot<Frame>>)
  {
    [Before([Sent(FIRST)]), Before([Foreign(cmd)]), Before([Foreign(cmd)]), Before([Sent(SECOND)])]
  }

  // It meets all the conditions on the log packets.
  lemma DisturbanceIsGood(cmd: U32)
    requires cmd != ACK_READ_EVENT_LOG
    ensures var slots := Disturbance(cmd);
            && MixedSlots(cmd, slots) && Arrivals(slots) == [FIRST, SECOND] && WholeLog(Arrivals(slots))
            && InTime(slots) && Fates(slots).overwritten == [] && Fates(slots).cleared == []
  {
    hide IsLast, WholeLog, FateOf, Prompt, AllOf;
    var slots := Disturbance(cmd);
    PacketsOfSent(FIRST, FIRST);
    PacketsOfSent(SECOND, SECOND);
    assert Packets([Foreign(cmd)]) == [] by {
      assert [Foreign(cmd)][1..] == [];
    }
    assert AllSlotPackets(slots) == Quiet();
    QuietLog();
    TwoIsWhole();
  }

  function Quiet(): (slots: seq<Slot<LogPacket>>)
  {
    [Slot([FIRST], [], []), Slot([], [], []), Slot([], [], []), Slot([SECOND], [], [])]
  }

  lemma QuietLog()
    ensures AllOf(Quiet()) == [FIRST, SECOND] && Prompt(None, Quiet(), true, SEND_POLLS)
    ensures var fate := FateOf(None, Quiet(), true); fate.overwritten == [] && fate.cleared == []
  {
    QuietIsSpaced();
    hide StepOf, Spaced, FateOf, AllOf, Prompt, Quiet;
    SpacedLosesNothing(None, Quiet(), true);
    var s3: seq<Slot<LogPacket>> := [Slot([SECOND], [], [])];
    var s2: seq<Slot<LogPacket>> := [Slot([], [], [])] + s3;
    var s1: seq<Slot<LogPacket>> := [Slot([], [], [])] + s2;
    assert s1[1..] == s2 && s2[1..] == s3 && s3[1..] == [];
    SingleSteps();
    AllOne(Quiet(), [FIRST]);
    AllOne(s1, []);
    AllOne(s2, []);
    AllOne(s3, [SECOND]);
    PromptAtEnd(LOG_POLLS);
    PromptOn(None, s3, false, LOG_POLLS - 1);
    PromptOn(None, s2, false, LOG_POLLS);
    PromptOn(Some(FIRST), s1, false, LOG_POLLS);
    PromptOn(None, Quiet(), true, SEND_POLLS);
  }

  lemma QuietIsSpaced()
    ensures Spaced(Quiet())
    ensures |Quiet()| == 4 && Quiet()[0] == Slot([FIRST], [], [])
    ensures Quiet()[1..] == [Slot([], [], [])] + ([Slot([], [], [])] + [Slot([SECOND], [], [])])
  {
  }

  lemma PromptAtEnd(left: nat)
    ensures Prompt(None, [], false, left)
  {
    NothingPending(AllOf([]));
  }

  lemma PromptOn(pending: Option<LogPacket>, slots: seq<Slot<LogPacket>>, waiting: bool, left: nat)
    requires slots != [] && left > 0
    requires var step := StepOf(pending, slots[0], waiting);
             Prompt(step.next, slots[1..], step.waits, PollsLeft(pending, slots[0], left))
    ensures Prompt(pending, slots, waiting, left)
  {
    hide StepOf, AllOf, PollsLeft;
  }

  lemma AllOne(slots: seq<Slot<LogPacket>>, before: seq<LogPacket>)
    requires slots != [] && slots[0] == Slot(before, [], [])
    ensures AllOf(slots) == before + AllOf(slots[1..])
    ensures AllOf([]) == []
  {
    assert before + [] + [] == before;
  }

  lemma SingleSteps()
    ensures StepOf(None, Slot([FIRST], [], []), true) == Step(Fate([], [], []), Some(FIRST), false)
    ensures StepOf(Some(FIRST), Slot([], [], []), false) == Step(Fate([FIRST], [], []), None, false)
    ensures StepOf(Some(FIRST), Slot([], [], [SECOND]), false) == Step(Fate([FIRST], [], [SECOND]), None, false)
    ensures StepOf(None, Slot([], [], []), false) == Step(Fate([], [], []), None, false)
    ensures StepOf(None, Slot([SECOND], [], []), false) == Step(Fate([SECOND], [], []), None, false)
  {
    assert [] + [FIRST] + ([] + []) == [FIRST] && [FIRST] + [] + [] == [FIRST] && [] + [SECOND] + [] == [SECOND];
  }

  // One poll that finds the flag up.
  lemma PollFinds(config: Option<StateIndex>, st: Replies, f: Frame, rest: seq<Slot<Frame>>, left: nat)
    requires Fits(st) && left > 0 && Up(Dispatch(config, st, f))
    ensures Fits(Dispatch(config, st, f))
    ensures var next := Dispatch(config, st, f);
            && Read(config, st, [Before([f])] + rest, true, left) == Read(config, next, rest, false, LOG_POLLS)
            && Read(config, st, [Before([f])] + rest, false, left) ==
               Take(config, next.back[..next.len], Cleared(next), rest)
  {
    hide Dispatch, DispatchAll, Cleared, Take;
    DispatchFits(config, st, f);
    DispatchOne(config, st, f);
    var slots := [Before([f])] + rest;
    assert slots[0] == Before([f]) && slots[1..] == rest;
    assert slots[0].tested + slots[0].copied == [];
  }

  lemma Disturbs(config: Option<StateIndex>, cmd: U32, st: Replies)
    requires cmd != ACK_READ_EVENT_LOG && !Harmless(config, cmd) && Fits(st)
    ensures !Undisturbed(config, cmd, st, Disturbance(cmd))
  {
    DisturbanceIsGood(cmd);
    DisturbedRead(config, cmd, Cleared(st));
    TwoBodies();
    hide Harmless, Read, MixedSlots, InTime, Fates, Arrivals, WholeLog, Disturbance, Cleared, Fits;
  }

  lemma DisturbedRead(config: Option<StateIndex>, cmd: U32, st: Replies)
    requires !Harmless(config, cmd) && Fits(st)
    ensures Read(config, st, Disturbance(cmd), true, SEND_POLLS) != Log([65, 66])
  {
    hide Harmless, Dispatch, Read, Take, IsLast, Holds, Cleared;
    var rest3 := [Before([Sent(SECOND)])];
    var rest2 := [Before([Foreign(cmd)])] + rest3;
    var s1 := Dispatch(config, st, Sent(FIRST));
    FirstSent(config, st);
    ForeignPacket(config, cmd, s1);
    var s2 := Dispatch(config, s1, Foreign(cmd));
    var packet := s2.back[..s2.len];
    DisturbedStart(config, Foreign(cmd), st, rest2);
    assert Disturbance(cmd) == [Before([Sent(FIRST)])] + ([Before([Foreign(cmd)])] + rest2);
    TakeBegins(config, packet, Cleared(s2), rest2);
    if packet == FIRST {
      ForeignAgain(config, cmd, s1);
      PollFinds(config, Cleared(s2), Foreign(cmd), rest3, LOG_POLLS);
      TakeBegins(config, FIRST, Cleared(Dispatch(config, Cleared(s2), Foreign(cmd))), rest3);
    }
    NotTheLog(packet, Take(config, packet, Cleared(s2), rest2), Read(config, Cleared(s2), rest2, false, LOG_POLLS));
  }

  lemma DisturbedStart(config: Option<StateIndex>, f: Frame, st: Replies, rest: seq<Slot<Frame>>)
    requires Fits(st)
    requires var s1 := Dispatch(config, st, Sent(FIRST)); Fits(s1) && Up(s1) && Up(Dispatch(config, s1, f))
    ensures var s2 := Dispatch(config, Dispatch(config, st, Sent(FIRST)), f);
            Fits(s2) &&
            Read(config, st, [Before([Sent(FIRST)])] + ([Before([f])] + rest), true, SEND_POLLS) ==
            Take(config, s2.back[..s2.len], Cleared(s2), rest)
  {
    hide Dispatch, Read, Take, Cleared;
    PollFinds(config, st, Sent(FIRST), [Before([f])] + rest, SEND_POLLS);
    PollFinds(config, Dispatch(config, st, Sent(FIRST)), f, rest, LOG_POLLS);
  }

  /** Another command's reply at its worst: nothing is overwritten or cleared away, but the reply
      turns the first packet into a last one, and the second text is lost by a successful read. */
  lemma ZeroAngleReply(config: Option<StateIndex>, st: Replies)
    requires Fits(st)
    ensures var reply := Frame(0x112, [9, 9, 9, 9]);
            var slots := [Before([Sent(FIRST)])] + ([Before([reply])] + [Before([Sent(SECOND)])]);
            Read(config, Cleared(st), slots, true, SEND_POLLS) == Log([65])
  {
    var reply := Frame(0x112, [9, 9, 9, 9]);
    var s0 := Cleared(st);
    var s1 := Dispatch(config, s0, Sent(FIRST));
    FirstSent(config, s0);
    ReplyCopied(config, s1);
    hide Dispatch, Read, Take, Cleared, Holds;
    DisturbedStart(config, reply, s0, [Before([Sent(SECOND)])]);
    var s2 := Dispatch(config, s1, reply);
    TakeBegins(config, s2.back[..s2.len], Cleared(s2), [Before([Sent(SECOND)])]);
  }

  lemma ReplyCopied(config: Option<StateIndex>, st: Replies)
    requires Fits(st) && Holds(st, Some(FIRST))
    ensures var next := Dispatch(config, st, Frame(0x112, [9, 9, 9, 9]));
            Fits(next) && Up(next) && next.back[..next.len] == [9, 9, 9, 9, 65]
  {
    assert EffectOf(0x112, config) == Effect(Some(GET_ZERO_ANGLE), Payload, false);
    hide EffectOf, Overlay;
    var reply: seq<Byte> := [9, 9, 9, 9];
    assert st.back[4] == st.back[..5][4] == 65;
    OverlaidAt(st.back, reply, 0);
    OverlaidAt(st.back, reply, 1);
    OverlaidAt(st.back, reply, 2);
    OverlaidAt(st.back, reply, 3);
    OverlaidAt(st.back, reply, 4);
  }

  // A first packet that is a last one, or has another text, or comes twice, spoils the log.
  lemma NotTheLog(packet: seq<Byte>, r: Result, later: Result)
    requires 4 <= |packet| <= 5
    requires r == if IsLast(packet) then Log(packet[4..]) else Prepend(packet[4..], later)
    requires packet != FIRST ==> IsLast(packet) || (|packet| == 5 && packet[4] != 65)
    requires packet == FIRST && later.Log? ==> [65] <= later.data
    ensures r.Log? && |r.data| == 2 && r.data[0] == 65 ==> r.data[1] != 66
  {
    if r.Log? && !IsLast(packet) && |packet| == 5 {
      assert r.data == [packet[4]] + later.data;
    }
  }

  lemma TwoBodies()
    ensures Bodies([FIRST, SECOND]) == [65, 66]
  {
    assert [FIRST, SECOND][1..] == [SECOND];
    OneBody(SECOND);
  }

  lemma FirstSent(config: Option<StateIndex>, st: Replies)
    requires Fits(st)
    ensures var next := Dispatch(config, st, Sent(FIRST)); Fits(next) && Up(next) && Holds(next, Some(FIRST))
  {
    LogEffect(config);
    hide EffectOf;
  }

  lemma OverlaidAt(back: ReplyBuffer, bytes: seq<Byte>, k: nat)
    requires |bytes| <= |back| && k < |back|
    ensures |Overlay(back, bytes)| == |back|
    ensures Overlay(back, bytes)[k] == if k < |bytes| then bytes[k] else back[k]
  {
  }

  // The first packet's bytes once the frame has been copied over them.
  lemma ForeignCopied(cmd: U32, copy: Copy, back: ReplyBuffer)
    requires back[1] == 0 && back[2] == 1 && back[3] == 0
    ensures var b := Overlay(back, Copied(Foreign(cmd), copy));
            && |b| == |back|
            && (copy == Nothing ==> b == back)
            && (copy == OneByte || copy == Payload ==> b[0] == 1 && b[1] == 0 && b[2] == 1 && b[3] == 0)
            && (copy == WholeFrame ==> b[4] == 4)
  {
    match copy
    case Nothing =>
      assert [] + back[0..] == back;
    case WholeFrame =>
      HeaderCopied(cmd, back);
    case _ =>
      var bytes := Copied(Foreign(cmd), copy);
      hide Overlay;
      OverlaidAt(back, bytes, 0);
      OverlaidAt(back, bytes, 1);
      OverlaidAt(back, bytes, 2);
      OverlaidAt(back, bytes, 3);
  }

  lemma HeaderCopied(cmd: U32, back: ReplyBuffer)
    ensures var b := Overlay(back, Copied(Foreign(cmd), WholeFrame)); |b| == |back| && b[4] == 4
  {
    hide Overlay, FrameHeadPack, Le32At;
    var head, bytes := FrameHeadPack(HELIOS_FRAME_FLAG, cmd, 4), Copied(Foreign(cmd), WholeFrame);
    assert bytes == head + Foreign(cmd).payload;
    hide Copied;
    HeadWords(HELIOS_FRAME_FLAG, cmd, 4);
    LowByte(head);
    OverlaidAt(back, bytes, 4);
  }

  lemma LowByte(s: seq<Byte>)
    requires |s| >= 8 && Le32At(s, 4) == 4
    ensures s[4] == 4
  {
  }

  lemma FirstBytes(back: ReplyBuffer)
    requires back[..5] == FIRST
    ensures back[1] == 0 && back[2] == 1 && back[3] == 0
  {
    assert back[..5][1] == back[1] && back[..5][2] == back[2] && back[..5][3] == back[3];
  }

  // What the frame makes of the first packet: a last packet, another text, or, if it only raises
  // the flag, the packet itself.
  lemma ForeignPacket(config: Option<StateIndex>, cmd: U32, st: Replies)
    requires Fits(st) && Holds(st, Some(FIRST)) && !Harmless(config, cmd)
    ensures var next := Dispatch(config, st, Foreign(cmd));
            Fits(next) && Up(next) &&
            var packet := next.back[..next.len];
            && 4 <= |packet| <= 5
            && (packet == FIRST ==> EffectOf(cmd, config) == Effect(Some(READ_EVENT_LOG), Nothing, false))
            && (packet != FIRST ==> IsLast(packet) || (|packet| == 5 && packet[4] != 65))
  {
    LengthComesWithCopy(cmd, config);
    DispatchFits(config, st, Foreign(cmd));
    assert st.back[..5] == FIRST;
    FirstBytes(st.back);
    ForeignCopied(cmd, EffectOf(cmd, config).copy, st.back);
    hide EffectOf, Overlay, Copied;
    var next := Dispatch(config, st, Foreign(cmd));
    assert next.len == 5 || (next.len == 4 && EffectOf(cmd, config).copy == Payload);
    hide Dispatch;
    BytesOfPacket(next.back, next.len);
  }

  lemma BytesOfPacket(back: ReplyBuffer, len: nat)
    requires 4 <= len <= 5
    ensures var packet := back[..len];
            && packet[0] == back[0] && packet[1] == back[1] && packet[2] == back[2] && packet[3] == back[3]
            && (len == 5 ==> packet[4] == back[4])
  {
  }

  lemma ForeignAgain(config: Option<StateIndex>, cmd: U32, st: Replies)
    requires Fits(st) && Holds(st, Some(FIRST))
    requires EffectOf(cmd, config) == Effect(Some(READ_EVENT_LOG), Nothing, false)
    ensures var s2 := Dispatch(config, st, Foreign(cmd));
            var s3 := Dispatch(config, Cleared(s2), Foreign(cmd));
            Fits(Cleared(s2)) && Fits(s3) && Up(s3) && s3.back[..s3.len] == FIRST
  {
    hide EffectOf;
  }

  // Taking a packet fixes how the result begins.
  lemma TakeBegins(config: Option<StateIndex>, packet: seq<Byte>, st: Replies, slots: seq<Slot<Frame>>)
    requires Fits(st) && |packet| >= 4
    ensures var r := Take(config, packet, st, slots);
            && r == (if IsLast(packet) then Log(packet[4..])
                     else Prepend(packet[4..], Read(config, st, slots, false, LOG_POLLS)))
            && (r.Log? ==> packet[4..] <= r.data)
  {
    hide Read;
  }
}
