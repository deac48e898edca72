/** `TcpCom::fixRegsCfg`: a register file of three sections is sent to an Airy lidar in packets
    of up to 100 registers, collected line by line in one shared 2048-byte buffer. */
module RegisterConfig {
  import opened Bytes

  const BUFFER := 2048
  const BATCH := 100

  datatype Kind = Bottom | Top | Reg459

  function Code(kind: Kind): (r: Byte)
  {
    match kind
    case Bottom => 0x16
    case Top => 0x15
    case Reg459 => 0x13
  }

  // One 16-bit counter of each kind.
  datatype PerKind = PerKind(bottom: U16, top: U16, reg459: U16) {
    function At(kind: Kind): (r: U16)
    {
      match kind
      case Bottom => bottom
      case Top => top
      case Reg459 => reg459
    }

    function With(kind: Kind, x: U16): (r: PerKind)
      ensures forall k :: r.At(k) == if k == kind then x else At(k)
    {
      match kind
      case Bottom => this.(bottom := x)
      case Top => this.(top := x)
      case Reg459 => this.(reg459 := x)
    }
  }

  datatype Register = Register(addr: U32, val: U32)

  // A line of the file that means something: a section head with its count, or a register.
  datatype Line = Head(kind: Kind, count: U16) | Item(kind: Kind, reg: Register)

  datatype Section = Section(kind: Kind, regs: seq<Register>)

  // Each kind at most once, and every count fits its 16-bit variable.
  ghost predicate GoodFile(sections: seq<Section>)
  {
    && (forall s :: s in sections ==> |s.regs| < 0x1_0000)
    && (forall i, j :: 0 <= i < j < |sections| ==> sections[i].kind != sections[j].kind)
  }

  function Items(kind: Kind, regs: seq<Register>): (r: seq<Line>)
  {
    if regs == [] then [] else [Item(kind, regs[0])] + Items(kind, regs[1..])
  }

  // The lines of a file: contiguous sections whose heads give the true counts.
  function Lines(sections: seq<Section>): (r: seq<Line>)
    requires forall s :: s in sections ==> |s.regs| < 0x1_0000
  {
    if sections == [] then []
    else
      [Head(sections[0].kind, |sections[0].regs|)] +
      Items(sections[0].kind, sections[0].regs) + Lines(sections[1..])
  }

  // ------------------------------------------------------------------ Packets

  datatype Packet = Packet(kind: Kind, total: U16, index: U16, regs: seq<Register>)

  function EncodeRegs(regs: seq<Register>): (r: seq<Byte>)
    ensures |r| == 8 * |regs|
  {
    if regs == [] then []
    else
      var last := regs[|regs| - 1];
      EncodeRegs(regs[..|regs| - 1]) + PutLe32(last.addr) + PutLe32(last.val)
  }

  function EncodeHead(kind: Kind, total: U16, index: U16, count: U16): (r: seq<Byte>)
    ensures |r| == 8
  {
    [0xE0, Code(kind)] + PutLe16(total) + PutLe16(index) + PutLe16(count)
  }

  function Encode(p: Packet): (r: seq<Byte>)
    requires |p.regs| < 0x1_0000
    ensures |r| == 8 + 8 * |p.regs|
  {
    EncodeHead(p.kind, p.total, p.index, |p.regs|) + EncodeRegs(p.regs)
  }

  function Batches(kind: Kind, total: U16, index: nat, regs: seq<Register>): (r: seq<Packet>)
    ensures forall p :: p in r ==> |p.regs| <= BATCH
    decreases |regs|
  {
    if regs == [] then []
    else
      var n := if |regs| < BATCH then |regs| else BATCH;
      [Packet(kind, total, index % 0x1_0000, regs[..n])] + Batches(kind, total, index + 1, regs[n..])
  }

  // The packets of one section; an empty one is announced by an empty packet.
  function SectionPackets(s: Section): (r: seq<Packet>)
    requires |s.regs| < 0x1_0000
    ensures forall p :: p in r ==> |p.regs| <= BATCH
  {
    if s.regs == [] then [Packet(s.kind, 0, 0, [])] else Batches(s.kind, |s.regs|, 0, s.regs)
  }

  function Plan(sections: seq<Section>): (r: seq<Packet>)
    requires forall s :: s in sections ==> |s.regs| < 0x1_0000
    ensures forall p :: p in r ==> |p.regs| <= BATCH
  {
    if sections == [] then [] else SectionPackets(sections[0]) + Plan(sections[1..])
  }

  function Wire(packets: seq<Packet>): (r: seq<seq<Byte>>)
    requires forall p :: p in packets ==> |p.regs| <= BATCH
    ensures |r| == |packets|
  {
    seq(|packets|, i requires 0 <= i < |packets| => Encode(packets[i]))
  }

  // Packet i as the protocol wants it.
  predicate WellBatched(p: Packet, kind: Kind, total: U16, index: nat, regs: seq<Register>, i: nat)
  {
    && BATCH * i < |regs|
    && index + i < 0x1_0000
    && p == Packet(kind, total, index + i, Slice(regs, i))
    && (BATCH * (i + 1) < |regs| ==> |p.regs| == BATCH)
  }

  /** Batching is a partition in order: there are ceil(n/100) packets, packet i announces the
      total, its number and its size, and holds registers 100i up to 100(i+1) or the end. */
  lemma {:induction false} BatchShape(kind: Kind, total: U16, index: nat, regs: seq<Register>)
    requires index + |regs| < 0x1_0000
    ensures var b := Batches(kind, total, index, regs);
            && |b| == (|regs| + BATCH - 1) / BATCH
            && forall i :: 0 <= i < |b| ==> WellBatched(b[i], kind, total, index, regs, i)
    decreases |regs|
  {
    hide WellBatched;
    if regs != [] {
      var n := if |regs| < BATCH then |regs| else BATCH;
      var rest := regs[n..];
      BatchShape(kind, total, index + 1, rest);
      var b := Batches(kind, total, index, regs);
      FirstBatch(kind, total, index, regs);
      forall i | 0 < i < |b|
        ensures WellBatched(b[i], kind, total, index, regs, i)
      {
        assert b[i] == Batches(kind, total, index + 1, rest)[i - 1];
        LaterBatch(b[i], kind, total, index, regs, i);
      }
    }
  }

  lemma FirstBatch(kind: Kind, total: U16, index: nat, regs: seq<Register>)
    requires regs != [] && index < 0x1_0000
    ensures WellBatched(Batches(kind, total, index, regs)[0], kind, total, index, regs, 0)
  {
  }

  lemma LaterBatch(p: Packet, kind: Kind, total: U16, index: nat, regs: seq<Register>, i: nat)
    requires |regs| >= BATCH && i > 0
    requires WellBatched(p, kind, total, index + 1, regs[BATCH..], i - 1)
    ensures WellBatched(p, kind, total, index, regs, i)
  {
    SliceShift(regs, i);
  }

  lemma SliceShift(regs: seq<Register>, i: nat)
    requires |regs| >= BATCH && i > 0 && BATCH * i < |regs|
    ensures Slice(regs[BATCH..], i - 1) == Slice(regs, i)
  {
    var from := BATCH * (i - 1);
    assert BATCH * i == BATCH + from && BATCH * (i + 1) == BATCH + (from + BATCH);
    DropThenSlice(regs, BATCH, from, if from + BATCH < |regs| - BATCH then from + BATCH else |regs| - BATCH);
  }

  lemma DropThenSlice<T>(s: seq<T>, cut: nat, from: nat, to: nat)
    requires cut <= |s| && from <= to <= |s| - cut
    ensures s[cut..][from..to] == s[cut + from..cut + to]
  {
  }

  function Slice(regs: seq<Register>, i: nat): (r: seq<Register>)
    requires BATCH * i < |regs|
  {
    regs[BATCH * i..if BATCH * (i + 1) < |regs| then BATCH * (i + 1) else |regs|]
  }

  function AllRegs(packets: seq<Packet>): (r: seq<Register>)
  {
    if packets == [] then [] else packets[0].regs + AllRegs(packets[1..])
  }

  /** No register is lost, repeated or reordered. */
  lemma {:induction false} BatchesCarryAll(kind: Kind, total: U16, index: nat, regs: seq<Register>)
    ensures AllRegs(Batches(kind, total, index, regs)) == regs
    decreases |regs|
  {
    if regs != [] {
      var n := if |regs| < BATCH then |regs| else BATCH;
      BatchesCarryAll(kind, total, index + 1, regs[n..]);
      var b := Batches(kind, total, index, regs);
      assert b[1..] == Batches(kind, total, index + 1, regs[n..]);
      assert regs == regs[..n] + regs[n..];
    }
  }

  /** One section: its packets announce the total, count from 0 and hold its registers in
      order; ceil(total/100) of them, or one empty packet for an empty section. */
  lemma SectionBatched(s: Section)
    requires |s.regs| < 0x1_0000
    ensures var p := SectionPackets(s);
            && AllRegs(p) == s.regs
            && |p| == (if s.regs == [] then 1 else (|s.regs| + 99) / 100)
            && (forall i :: 0 <= i < |p| - 1 ==> |p[i].regs| == 100) && |p[|p| - 1].regs| <= 100
            && (s.regs == [] ==> p[0] == Packet(s.kind, 0, 0, []))
            && (s.regs != [] ==>
                 forall i :: 0 <= i < |p| ==> WellBatched(p[i], s.kind, |s.regs|, 0, s.regs, i))
  {
    hide WellBatched;
    if s.regs != [] {
      BatchShape(s.kind, |s.regs|, 0, s.regs);
      BatchesCarryAll(s.kind, |s.regs|, 0, s.regs);
      var p := SectionPackets(s);
      forall i | 0 <= i < |p|
        ensures if i < |p| - 1 then |p[i].regs| == 100 else |p[i].regs| <= 100
      {
        BatchSize(p[i], s.kind, |s.regs|, s.regs, i, |p|);
      }
    } else {
      assert AllRegs([]) == [] && SectionPackets(s)[1..] == [];
    }
  }

  lemma BatchSize(p: Packet, kind: Kind, total: U16, regs: seq<Register>, i: nat, n: nat)
    requires WellBatched(p, kind, total, 0, regs, i) && i < n == (|regs| + 99) / 100
    ensures if i < n - 1 then |p.regs| == 100 else |p.regs| <= 100
  {
  }

  lemma {:induction false} RegsLayout(regs: seq<Register>, i: nat)
    requires i < |regs|
    ensures Le32At(EncodeRegs(regs), 8 * i) == regs[i].addr
    ensures Le32At(EncodeRegs(regs), 8 * i + 4) == regs[i].val
    decreases |regs|
  {
    hide Le32At, PutLe32;
    var front, last := regs[..|regs| - 1], regs[|regs| - 1];
    var before, addr, val := EncodeRegs(front), PutLe32(last.addr), PutLe32(last.val);
    assert EncodeRegs(regs) == before + addr + val;
    if i < |front| {
      RegsLayout(front, i);
      WordWithin([], before, addr + val, 8 * i);
      WordWithin([], before, addr + val, 8 * i + 4);
      assert [] + before + (addr + val) == before + addr + val;
    } else {
      WordWithin(before, addr, val, 0);
      WordWithin(before + addr, val, [], 0);
      assert before + addr + val + [] == before + addr + val;
    }
  }

  /** What a receiver reads off a packet: kind, total, number and count, then address and value
      of register i at offset 8 + 8i. */
  lemma PacketLayout(p: Packet, i: nat)
    requires |p.regs| < 0x1_0000
    ensures var s := Encode(p);
            && s[0] == 0xE0 && s[1] == (match p.kind { case Bottom => 0x16 case Top => 0x15 case Reg459 => 0x13 })
            && Le16At(s, 2) == p.total && Le16At(s, 4) == p.index && Le16At(s, 6) == |p.regs|
            && (i < |p.regs| ==>
                 Le32At(s, 8 + 8 * i) == p.regs[i].addr && Le32At(s, 12 + 8 * i) == p.regs[i].val)
  {
    hide EncodeRegs, Le32At;
    var s := Encode(p);
    var head := EncodeHead(p.kind, p.total, p.index, |p.regs|);
    assert forall k :: 0 <= k < 8 ==> s[k] == head[k];
    if i < |p.regs| {
      RegsLayout(p.regs, i);
      WordWithin(head, EncodeRegs(p.regs), [], 8 * i);
      WordWithin(head, EncodeRegs(p.regs), [], 8 * i + 4);
      assert head + EncodeRegs(p.regs) + [] == s;
    }
  }

  // ------------------------------------------------------------------- Sender

  // `buf[at..at+4]` gets the little-endian bytes of x, as memcpy does.
  method Put32(buf: array<Byte>, at: nat, x: U32)
    requires at + 4 <= buf.Length
    modifies buf
    ensures buf[..at] == old(buf[..at]) && buf[at..at + 4] == PutLe32(x)
  {
    hide PutLe32;
    var b := PutLe32(x);
    buf[at], buf[at + 1], buf[at + 2], buf[at + 3] := b[0], b[1], b[2], b[3];
    assert buf[at..at + 4] == b;
  }

  method PutHead(buf: array<Byte>, kind: Kind, total: U16, index: U16, count: U16)
    requires 8 <= buf.Length
    modifies buf
    ensures buf[..8] == EncodeHead(kind, total, index, count)
    ensures buf[8..] == old(buf[8..])
  {
    hide PutLe16;
    var t, i, c := PutLe16(total), PutLe16(index), PutLe16(count);
    buf[0], buf[1] := 0xE0, Code(kind);
    buf[2], buf[3] := t[0], t[1];
    buf[4], buf[5] := i[0], i[1];
    buf[6], buf[7] := c[0], c[1];
    assert buf[..8] == [0xE0, Code(kind)] + t + i + c;
  }

  // The current section's registers still to come, and the sections behind it.
  datatype Progress = Progress(kind: Kind, rest: seq<Register>, later: seq<Section>)

  // The sender's counters, and the registers that its buffer holds behind the head.
  datatype Counters = Counters(len: nat, total: PerKind, count: PerKind, pkg: PerKind, pending: seq<Register>) {

    // The next register of this kind completes a packet.
    predicate Sends(kind: Kind)
    {
      count.At(kind) + 1 >= BATCH || BATCH * pkg.At(kind) + count.At(kind) + 1 >= total.At(kind)
    }

    function AfterHead(kind: Kind, n: U16): (c: Counters)
    {
      this.(len := 8, total := total.With(kind, n), pending := [])
    }

    function AfterItem(kind: Kind, reg: Register): (c: Counters)
      requires count.At(kind) < BATCH && pkg.At(kind) < 0xFFFF
    {
      if Sends(kind) then
        this.(len := 8, count := count.With(kind, 0), pkg := pkg.With(kind, pkg.At(kind) + 1), pending := [])
      else
        this.(len := len + 8, count := count.With(kind, count.At(kind) + 1), pending := pending + [reg])
    }
  }

  class Sender {
    const buf: array<Byte>
    var len: nat
    var total: PerKind
    var count: PerKind
    var pkg: PerKind
    ghost var pending: seq<Register>  // what buf holds behind the head

    ghost predicate Valid()
      reads this, buf
    {
      && buf.Length == BUFFER
      && (len == 0 ==> pending == [])
      && (len != 0 ==> len == 8 + 8 * |pending| <= BUFFER && buf[8..len] == EncodeRegs(pending))
    }

    ghost function View(): (c: Counters)
      reads this
    {
      Counters(len, total, count, pkg, pending)
    }

    constructor ()
      ensures Valid() && fresh(buf)
      ensures View() == Counters(0, PerKind(0, 0, 0), PerKind(0, 0, 0), PerKind(0, 0, 0), [])
    {
      buf := new Byte[BUFFER](_ => 0);
      len, pending := 0, [];
      total := PerKind(0, 0, 0);
      count := PerKind(0, 0, 0);
      pkg := PerKind(0, 0, 0);
    }

    /** A section head: note the total and start collecting; an empty section is announced. */
    method OnHead(kind: Kind, n: U16) returns (packet: seq<seq<Byte>>)
      requires Valid()
      modifies this`len, this`total, this`pending, buf
      ensures Valid() && View() == old(View()).AfterHead(kind, n)
      ensures packet == if n == 0 then [Encode(Packet(kind, 0, 0, []))] else []
    {
      total := total.With(kind, n);
      len, pending := 8, [];
      buf[0], buf[1] := 0xE0, Code(kind);
      packet := [];
      if n == 0 {
        PutHead(buf, kind, 0, 0, 0);
        EncodeEmpty(kind);
        packet := [buf[..8]];
      }
    }

    /** A register line: append it; at 100 registers or at the announced total, send. */
    method OnItem(kind: Kind, reg: Register) returns (packet: seq<seq<Byte>>)
      requires Valid() && 8 <= len && len + 8 <= BUFFER
      requires count.At(kind) == |pending| < BATCH && pkg.At(kind) < 0xFFFF
      modifies this`len, this`count, this`pkg, this`pending, buf
      ensures Valid() && View() == old(View()).AfterItem(kind, reg)
      ensures old(View()).Sends(kind) ==>
                && packet == [Encode(Packet(kind, total.At(kind), old(pkg.At(kind)), old(pending) + [reg]))]
                && pending == []
                && count == old(count).With(kind, 0)
                && pkg == old(pkg).With(kind, old(pkg.At(kind)) + 1)
      ensures !old(View()).Sends(kind) ==>
                && packet == []
                && pending == old(pending) + [reg]
                && count == old(count).With(kind, |pending|)
                && pkg == old(pkg)
    {
      hide EncodeRegs, Encode, EncodeHead;
      Append(reg);
      var n := count.At(kind) + 1;
      count := count.With(kind, n);
      packet := [];
      if n >= BATCH || BATCH * pkg.At(kind) + n >= total.At(kind) {
        packet := Flush(kind);
        pkg := pkg.With(kind, pkg.At(kind) + 1);
        count := count.With(kind, 0);
      }
    }

    method HeadLine(ghost g: Progress, lines: seq<Line>)
      returns (packet: seq<seq<Byte>>, ghost h: Progress)
      requires Valid() && Expects(View(), g, lines) && lines != [] && lines[0].Head?
      modifies this`len, this`total, this`pending, buf
      ensures Valid() && len == 8 && Expects(View(), h, lines[1..])
      ensures Takes(old(Todo(View(), g)), Todo(View(), h), packet, lines[0])
    {
      hide Encode, Expects, Todo;
      h := HeadExpected(View(), g, lines);
      packet := OnHead(lines[0].kind, lines[0].count);
    }

    method ItemLine(ghost g: Progress, lines: seq<Line>)
      returns (packet: seq<seq<Byte>>, ghost h: Progress)
      requires Valid() && len <= 808 && Expects(View(), g, lines) && lines != [] && lines[0].Item?
      modifies this`len, this`count, this`pkg, this`pending, buf
      ensures Valid() && len <= 808 && Expects(View(), h, lines[1..])
      ensures Takes(old(Todo(View(), g)), Todo(View(), h), packet, lines[0])
    {
      hide Encode, EncodeRegs, Expects, Todo;
      ItemExpected(View(), g, lines);
      h := g.(rest := g.rest[1..]);
      packet := OnItem(lines[0].kind, lines[0].reg);
    }

    // One line, seen from the plan with n packets sent.
    method OnLine(ghost g: Progress, ghost plan: seq<Packet>, ghost n: nat, lines: seq<Line>)
      returns (packet: seq<seq<Byte>>, ghost h: Progress)
      requires Valid() && len <= 808 && Expects(View(), g, lines) && lines != []
      requires (forall p :: p in plan ==> |p.regs| <= BATCH) && n <= |plan|
      requires Todo(View(), g) == plan[n..]
      modifies this`len, this`total, this`count, this`pkg, this`pending, buf
      ensures Valid() && len <= 808 && Expects(View(), h, lines[1..])
      ensures packet == [] ==> Todo(View(), h) == plan[n..]
      ensures packet != [] ==>
                && n < |plan| && Todo(View(), h) == plan[n + 1..]
                && Wire(plan)[..n] + packet == Wire(plan)[..n + 1]
                && plan[n].kind == lines[0].kind && (plan[n].regs == [] <==> lines[0].Head?)
    {
      hide Valid, Expects, Todo, Wire, Takes, Encode;
      if lines[0].Head? {
        packet, h := HeadLine(g, lines);
      } else {
        packet, h := ItemLine(g, lines);
      }
      TakesNext(plan, n, Todo(View(), h), packet, lines[0]);
    }

    method Append(reg: Register)
      requires Valid() && 8 <= len && len + 8 <= BUFFER
      modifies this`len, this`pending, buf
      ensures Valid() && len == old(len) + 8 && pending == old(pending) + [reg]
    {
      hide PutLe32, EncodeRegs;
      ghost var s0 := buf[..];
      Put32(buf, len, reg.addr);
      ghost var s1 := buf[..];
      Extends(s0, s1, 8, len, len + 4, PutLe32(reg.addr));
      Put32(buf, len + 4, reg.val);
      Extends(s1, buf[..], 8, len + 4, len + 8, PutLe32(reg.val));
      AppendReg(pending, reg);
      len := len + 8;
      pending := pending + [reg];
    }

    // Fill in the head, hand out the packet, and start the next one in a cleared buffer.
    method Flush(kind: Kind) returns (packet: seq<seq<Byte>>)
      requires Valid() && 8 <= len && count.At(kind) == |pending|
      modifies this`len, this`pending, buf
      ensures Valid() && len == 8 && pending == []
      ensures packet == [Encode(Packet(kind, total.At(kind), pkg.At(kind), old(pending)))]
    {
      hide EncodeHead;
      ghost var body := buf[8..len];
      PutHead(buf, kind, total.At(kind), pkg.At(kind), count.At(kind));
      assert buf[..len] == buf[..8] + buf[8..][..len - 8];
      assert buf[8..][..len - 8] == body;
      packet := [buf[..len]];
      forall i | 0 <= i < buf.Length {
        buf[i] := 0;
      }
      len, pending := 8, [];
    }
  }

  // What the rest of the file is: registers of the current section, then more sections.
  ghost predicate Expects(c: Counters, g: Progress, lines: seq<Line>)
  {
    && GoodFile(g.later)
    && lines == Items(g.kind, g.rest) + Lines(g.later)
    && (forall x :: x in g.later ==> c.count.At(x.kind) == 0 && c.pkg.At(x.kind) == 0)
    && (g.rest == [] ==> c.pending == [])
    && (g.rest != [] ==>
         && c.len == 8 + 8 * |c.pending| && c.count.At(g.kind) == |c.pending| < BATCH
         && c.total.At(g.kind) == BATCH * c.pkg.At(g.kind) + |c.pending| + |g.rest|
         && forall x :: x in g.later ==> x.kind != g.kind)
  }

  // The packets still to come.
  ghost function Todo(c: Counters, g: Progress): (r: seq<Packet>)
    ensures forall p :: p in r ==> |p.regs| <= BATCH
  {
    (if g.rest == [] then [] else Batches(g.kind, c.total.At(g.kind), c.pkg.At(g.kind), c.pending + g.rest)) +
    if GoodFile(g.later) then Plan(g.later) else []
  }

  // A new sender expects the whole file,
  lemma Start(c: Counters, sections: seq<Section>, lines: seq<Line>)
    requires c.pending == [] && c.count == c.pkg == PerKind(0, 0, 0)
    requires GoodFile(sections) && lines == Lines(sections)
    ensures Expects(c, Progress(Bottom, [], sections), lines[0..])
    ensures Todo(c, Progress(Bottom, [], sections)) == Plan(sections)
  {
    hide Lines, Plan;
    NoItems(Bottom, Lines(sections));
    assert [] + Plan(sections) == Plan(sections);
  }

  // and behind the last line nothing is left.
  lemma Finish(c: Counters, g: Progress)
    requires Expects(c, g, [])
    ensures Todo(c, g) == []
  {
    hide Plan;
    assert |Items(g.kind, g.rest) + Lines(g.later)| == 0;
    NoPlan();
  }

  lemma NoPlan()
    ensures Plan([]) == []
  {
  }

  // A section head: its registers come next.
  lemma HeadExpected(c: Counters, g: Progress, lines: seq<Line>)
    returns (h: Progress)
    requires Expects(c, g, lines) && lines != [] && lines[0].Head?
    ensures var d := c.AfterHead(lines[0].kind, lines[0].count);
            && Expects(d, h, lines[1..])
            && var sent := if lines[0].count == 0 then [Encode(Packet(lines[0].kind, 0, 0, []))] else [];
               Takes(Todo(c, g), Todo(d, h), sent, lines[0])
  {
    HeadNext(g, lines);
    var x := g.later[0];
    h := Progress(x.kind, x.regs, g.later[1..]);
    assert x in g.later;
    PlanHead(g.later, x);
    hide Encode, Batches, Items, Lines, GoodFile, Plan;
    assert [] + Plan(g.later) == Plan(g.later) && [] + Plan(h.later) == Plan(h.later);
    assert [] + x.regs == x.regs;
  }

  lemma PlanHead(sections: seq<Section>, x: Section)
    requires sections != [] && x == sections[0] && GoodFile(sections)
    ensures GoodFile(sections[1..])
    ensures Plan(sections) ==
            (if x.regs == [] then [Packet(x.kind, 0, 0, [])] else Batches(x.kind, |x.regs|, 0, x.regs)) +
            Plan(sections[1..])
  {
    hide Batches;
  }

  // A register line: it completes a packet or waits in the buffer.
  lemma ItemExpected(c: Counters, g: Progress, lines: seq<Line>)
    requires Expects(c, g, lines) && lines != [] && lines[0].Item?
    ensures g.rest != [] && lines[0].kind == g.kind
    ensures c.count.At(g.kind) == |c.pending| < BATCH && c.pkg.At(g.kind) < 0xFFFF && 8 <= c.len
    ensures var h := g.(rest := g.rest[1..]);
            var d := c.AfterItem(g.kind, lines[0].reg);
            && d.len <= 808
            && Expects(d, h, lines[1..])
            && var sent :=
                 if c.Sends(g.kind) then
                   [Encode(Packet(g.kind, c.total.At(g.kind), c.pkg.At(g.kind), c.pending + [lines[0].reg]))]
                 else [];
               Takes(Todo(c, g), Todo(d, h), sent, lines[0])
  {
    hide Encode, Batches, Items, Lines, GoodFile, Plan;
    ItemNext(g, lines);
    IndexFits(c.total.At(g.kind), c.pkg.At(g.kind), |c.pending|, |g.rest|);
    BatchStep(g.kind, c.total.At(g.kind), c.pkg.At(g.kind), c.pending, g.rest);
    var p := Packet(g.kind, c.total.At(g.kind), c.pkg.At(g.kind), c.pending + [g.rest[0]]);
    var h := g.(rest := g.rest[1..]);
    var d := c.AfterItem(g.kind, g.rest[0]);
    assert c.Sends(g.kind) <==> |p.regs| == BATCH || |g.rest| == 1;
    if c.Sends(g.kind) {
      assert [] + h.rest == h.rest;
      NoBatches(g.kind, c.total.At(g.kind), d.pkg.At(g.kind));
      assert Todo(c, g) == [p] + Todo(d, h);
    } else {
      assert Todo(c, g) == Todo(d, h);
    }
  }

  // Bytes written behind a part of the buffer extend it.
  lemma Extends(s: seq<Byte>, t: seq<Byte>, from: nat, mid: nat, to: nat, bytes: seq<Byte>)
    requires |s| == |t| && from <= mid <= to <= |s|
    requires t[..mid] == s[..mid] && t[mid..to] == bytes
    ensures t[from..to] == s[from..mid] + bytes
  {
    assert t[from..mid] == t[..mid][from..] == s[..mid][from..] == s[from..mid];
    assert t[from..to] == t[from..mid] + t[mid..to];
  }

  lemma EncodeEmpty(kind: Kind)
    ensures Encode(Packet(kind, 0, 0, [])) == EncodeHead(kind, 0, 0, 0)
  {
    hide EncodeHead;
    assert EncodeRegs([]) == [];
  }

  lemma AppendReg(regs: seq<Register>, reg: Register)
    ensures EncodeRegs(regs + [reg]) == EncodeRegs(regs) + PutLe32(reg.addr) + PutLe32(reg.val)
  {
    assert (regs + [reg])[..|regs|] == regs;
  }

  // The next register either completes the first batch or waits in the buffer.
  lemma BatchStep(kind: Kind, total: U16, index: nat, pending: seq<Register>, rest: seq<Register>)
    requires |pending| < BATCH && rest != []
    ensures var regs := pending + [rest[0]];
            if |regs| == BATCH || |rest| == 1 then
              Batches(kind, total, index, pending + rest) ==
              [Packet(kind, total, index % 0x1_0000, regs)] + Batches(kind, total, index + 1, rest[1..])
            else
              pending + rest == regs + rest[1..]
  {
    var all, regs := pending + rest, pending + [rest[0]];
    if |regs| == BATCH || |rest| == 1 {
      assert all[..|regs|] == regs && all[|regs|..] == rest[1..];
    }
  }

  // A line of the file sends nothing, or the next packet, which is of the line's kind.
  ghost predicate Takes(before: seq<Packet>, after: seq<Packet>, sent: seq<seq<Byte>>, line: Line)
    requires forall p :: p in before ==> |p.regs| <= BATCH
  {
    if sent == [] then before == after
    else
      && before != [] && after == before[1..] && sent == [Encode(before[0])]
      && before[0].kind == line.kind && (before[0].regs == [] <==> line.Head?)
  }

  // Packet n of the plan is the next one.
  lemma TakesNext(plan: seq<Packet>, n: nat, after: seq<Packet>, sent: seq<seq<Byte>>, line: Line)
    requires (forall p :: p in plan ==> |p.regs| <= BATCH) && n <= |plan|
    requires Takes(plan[n..], after, sent, line)
    ensures sent == [] ==> after == plan[n..]
    ensures sent != [] ==>
              && n < |plan| && after == plan[n + 1..]
              && Wire(plan)[..n] + sent == Wire(plan)[..n + 1]
              && plan[n].kind == line.kind && (plan[n].regs == [] <==> line.Head?)
  {
    hide Encode;
    if sent != [] {
      assert plan[n..][1..] == plan[n + 1..];
    }
  }

  /** Whether a failed send of this packet ends the transfer: the failure of a packet with
      459 registers is not looked at. */
  predicate Stops(p: Packet, ack: bool)
  {
    !ack && (p.kind != Reg459 || p.regs == [])
  }

  // A count below 65536 never brings the 16-bit packet number near its end.
  lemma IndexFits(total: U16, index: nat, pending: nat, rest: nat)
    requires total == BATCH * index + pending + rest
    ensures index < 0xFFFF
  {
  }

  /** Read off the packet's bytes: a failure is overlooked exactly for kind 0x13 with registers. */
  lemma OverlookedKind(p: Packet, ack: bool)
    requires |p.regs| < 0x1_0000
    ensures Stops(p, ack) <==> !ack && (Encode(p)[1] != 0x13 || Le16At(Encode(p), 6) == 0)
  {
    PacketLayout(p, 0);
    hide Encode;
  }

  lemma StopsAt(p: Packet, ack: bool, line: Line)
    requires p.kind == line.kind && (p.regs == [] <==> line.Head?)
    ensures Stops(p, ack) <==> !ack && !(line.Item? && line.kind == Reg459)
  {
  }

  /** `fixRegsCfg` on a well-formed file, with the outcome of the `sendData` call of each packet
      given: the packets go out in the order of the plan, up to the first one whose failure is
      noticed, and the answer says whether there was one. The buffer never holds more than
      808 bytes. */
  method FixRegsCfg(ghost sections: seq<Section>, lines: seq<Line>, acks: seq<bool>)
    returns (ok: bool, sent: seq<seq<Byte>>)
    requires GoodFile(sections) && lines == Lines(sections) && |acks| == |Plan(sections)|
    ensures |sent| <= |acks| && sent == Wire(Plan(sections))[..|sent|]
    ensures ok ==> |sent| == |acks| && forall i :: 0 <= i < |acks| ==> !Stops(Plan(sections)[i], acks[i])
    ensures !ok ==>
              && |sent| > 0 && Stops(Plan(sections)[|sent| - 1], acks[|sent| - 1])
              && forall i :: 0 <= i < |sent| - 1 ==> !Stops(Plan(sections)[i], acks[i])
  {
    hide Encode, Batches, Lines, Plan, Wire, Sender.Valid, Expects, Todo, Stops;
    var s := new Sender();
    sent := [];
    ghost var plan := Plan(sections);
    hide GoodFile;
    ghost var g := Progress(Bottom, [], sections);
    Start(s.View(), sections, lines);
    for j := 0 to |lines|
      invariant s.Valid() && fresh(s) && fresh(s.buf) && s.len <= 808
      invariant Expects(s.View(), g, lines[j..])
      invariant |sent| <= |plan| && Todo(s.View(), g) == plan[|sent|..] && sent == Wire(plan)[..|sent|]
      invariant forall i :: 0 <= i < |sent| ==> !Stops(plan[i], acks[i])
    {
      var packet;
      packet, g := s.OnLine(g, plan, |sent|, lines[j..]);
      assert lines[j..][1..] == lines[j + 1..];
      if packet != [] {
        StopsAt(plan[|sent|], acks[|sent|], lines[j]);
        sent := sent + packet;
        if !acks[|sent| - 1] && !(lines[j].Item? && lines[j].kind == Reg459) {
          return false, sent;
        }
      }
    }
    Finish(s.View(), g);
    return true, sent;
  }

  lemma HeadNext(g: Progress, lines: seq<Line>)
    requires GoodFile(g.later) && lines == Items(g.kind, g.rest) + Lines(g.later)
    requires lines != [] && lines[0].Head?
    ensures g.rest == [] && g.later != []
    ensures lines[0] == Head(g.later[0].kind, |g.later[0].regs|)
    ensures lines[1..] == Items(g.later[0].kind, g.later[0].regs) + Lines(g.later[1..])
    ensures GoodFile(g.later[1..])
    ensures forall x :: x in g.later[1..] ==> x.kind != g.later[0].kind
  {
    FirstLines(g);
    NoItems(g.kind, Lines(g.later));
    hide Items, GoodFile;
    FirstSection(g.later);
    GoodTail(g.later);
  }

  lemma FirstSection(sections: seq<Section>)
    requires GoodFile(sections) && sections != []
    ensures Lines(sections)[0] == Head(sections[0].kind, |sections[0].regs|)
    ensures Lines(sections)[1..] == Items(sections[0].kind, sections[0].regs) + Lines(sections[1..])
  {
    ConsAppend(Head(sections[0].kind, |sections[0].regs|),
               Items(sections[0].kind, sections[0].regs), Lines(sections[1..]));
  }

  lemma ConsAppend<T>(x: T, s: seq<T>, t: seq<T>)
    ensures ([x] + s + t)[0] == x && ([x] + s + t)[1..] == s + t
  {
  }

  lemma GoodTail(sections: seq<Section>)
    requires GoodFile(sections) && sections != []
    ensures GoodFile(sections[1..])
    ensures forall x :: x in sections[1..] ==> x.kind != sections[0].kind
  {
  }

  lemma NoItems(kind: Kind, lines: seq<Line>)
    ensures Items(kind, []) + lines == lines
  {
  }

  lemma ItemNext(g: Progress, lines: seq<Line>)
    requires GoodFile(g.later) && lines == Items(g.kind, g.rest) + Lines(g.later)
    requires lines != [] && lines[0].Item?
    ensures g.rest != [] && lines[0] == Item(g.kind, g.rest[0])
    ensures lines[1..] == Items(g.kind, g.rest[1..]) + Lines(g.later)
  {
    FirstLines(g);
  }

  // What the first line says about where in the file it stands.
  lemma FirstLines(g: Progress)
    requires GoodFile(g.later)
    ensures var lines := Items(g.kind, g.rest) + Lines(g.later);
            lines != [] ==> (lines[0].Item? <==> g.rest != [])
  {
    assert Items(g.kind, []) + Lines(g.later) == Lines(g.later);
  }

  lemma NoBatches(kind: Kind, total: U16, index: nat)
    ensures Batches(kind, total, index, []) == []
  {
  }
}
