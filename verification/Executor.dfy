/** The driver's software PM4 executor: register writes, the fence, DMA_DATA and indirect
    buffers, as the driver executes them when no ring is available. */
module Executor {
  import opened Common
  import opened Masks
  import opened PhysMem
  import opened Pm4

  /** Memory the driver has mapped: physical base, kernel address, length.  A kernel
      address of zero is NULL. */
  datatype Window = Window(pa: nat, va: nat, size: nat) {
    predicate Usable() { va != 0 && size != 0 && pa != 0 }

    predicate Holds(a: nat, n: nat) {
      pa <= a < pa + size && a + n <= pa + size
    }
  }

  const PAGE_SIZE: nat := 4096
  const DMA_MAX_BYTES: nat := 0x10_0000
  const DMA_LENGTHS: nat := 0x20_0000
  const GC_BASE: nat := 0x1260
  const COMPUTE_DISPATCH_INITIATOR: nat := 0x80E0
  const COMPUTE_DIM_X: nat := 0x80E4
  const COMPUTE_DIM_Y: nat := 0x80E8
  const COMPUTE_DIM_Z: nat := 0x80EC
  const GRBM_KIQ: Word := 0x10000
  const GRBM_BROADCAST: Word := 0x1500_0000

  /** `mmioSize` is `None` while BAR5 is not mapped; `ioMap` says which ranges
      MmMapIoSpace succeeds for. */
  datatype Device = Device(mmioSize: Option<nat>, grbmOffset: nat,
                           gfx: Window, sdma: Window, ih: Window, fencePa: nat, fenceVa: nat,
                           ioMap: (nat, nat) -> bool)
  {
    /** In the order the operand resolver tries them. */
    function Windows(): seq<Window> {
      [gfx, sdma, ih, Window(fencePa, fenceVa, PAGE_SIZE)]
    }
  }

  datatype RegWrite = RegWrite(offset: nat, value: Word)

  /** What execution changes: memory, the trace of MMIO writes, the last fence. */
  datatype Machine = Machine(mem: Mem, writes: seq<RegWrite>, lastFence: nat)

  datatype Status = Success | Alerted | InvalidParameter | BufferTooSmall

  /** A stream the caller passed in, or an indirect buffer read where it lies: a copy
      executed earlier in the same run may have changed it. */
  datatype Source = Host(words: seq<Word>) | Mapped(pa: nat, n: nat)

  function Length(src: Source): nat {
    match src case Host(words) => |words| case Mapped(_, n) => n
  }

  function Words(src: Source, mem: Mem): (ws: seq<Word>)
    ensures |ws| == Length(src)
  {
    match src
    case Host(words) => words
    case Mapped(pa, n) => seq(n, k requires 0 <= k < n => LoadWord(mem, pa + 4 * k))
  }

  // ---- one packet ----------------------------------------------------------------

  predicate RegRangeValid(dev: Device, offset: nat, n: nat) {
    dev.mmioSize.Some? && dev.mmioSize.value >= 4 && offset + n * 4 <= dev.mmioSize.value
  }

  /** A run of writes, `stride` bytes apart. */
  function RegRun(offset: nat, stride: nat, values: seq<Word>): seq<RegWrite>
    decreases |values|
  {
    if values == [] then [] else [RegWrite(offset, values[0])] + RegRun(offset + stride, stride, values[1..])
  }

  /** DreamV3SwDmaRangeResolve: the kernel address of a range lying in one owned window. */
  function ResolveIn(windows: seq<Window>, a: nat, n: nat): Option<nat> {
    if windows == [] then None
    else if windows[0].Usable() && windows[0].Holds(a, n) then Some(windows[0].va + (a - windows[0].pa))
    else ResolveIn(windows[1..], a, n)
  }

  function Resolve(dev: Device, a: nat, n: nat): Option<nat> {
    if n == 0 || n > DMA_MAX_BYTES then None else ResolveIn(dev.Windows(), a, n)
  }

  /** The kernel-address overlap test. */
  predicate Overlaps(src: nat, dst: nat, n: nat) {
    dst < src + n && src < dst + n
  }

  predicate Accepted(dev: Device, src: nat, dst: nat, n: nat) {
    && Resolve(dev, src, n).Some?
    && Resolve(dev, dst, n).Some?
    && !Overlaps(Resolve(dev, src, n).value, Resolve(dev, dst, n).value, n)
  }

  function Dma(dev: Device, mem: Mem, src: nat, dst: nat, n: nat): Mem {
    if Accepted(dev, src, dst, n) then Copy(mem, dst, src, n) else mem
  }

  datatype Outcome = Go(m: Machine) | Stop(status: Status) | Call(pa: nat, n: nat)

  function Wide(lo: nat, hi: nat): nat {
    lo + hi * 0x1_0000_0000
  }

  function WriteRegs(dev: Device, m: Machine, offset: nat, stride: nat, values: seq<Word>): Outcome {
    if !RegRangeValid(dev, offset, |values|) then Stop(InvalidParameter)
    else Go(m.(writes := m.writes + RegRun(offset, stride, values)))
  }

  /** Bit 25 of the WRITE_DATA control word: write every value to the same register. */
  function Stride(control: nat): nat {
    if control / 0x200_0000 % 2 != 0 then 0 else 4
  }

  /** Bit 28: the address is a register. */
  predicate IsReg(control: nat) {
    control / 0x1000_0000 % 2 != 0
  }

  /** GC_BASE + (hwOff << 2), in 32 bits. */
  function RegOffset(hwOff: nat): Word {
    ToU32(GC_BASE + 4 * hwOff)
  }

  function Execute3(dev: Device, m: Machine, op: nat, p: seq<Word>, fence: nat): Outcome {
    if op == IT_WRITE_DATA then
      if |p| < 3 then Go(m)
      else if IsReg(p[0]) || p[1] < 0x20_0000
      then WriteRegs(dev, m, p[1], Stride(p[0]), p[3..])
      else Go(m)
    else if op == IT_EVENT_WRITE_EOP || op == IT_RELEASE_MEM then
      if |p| >= 5 && fence > 0 && dev.fenceVa != 0
      then Go(m.(mem := Store(m.mem, dev.fencePa, fence, 8), lastFence := fence))
      else Go(m)
    else if op in {IT_SET_CONFIG_REG, IT_SET_CONTEXT_REG, IT_SET_SH_REG} then
      if |p| >= 1 then WriteRegs(dev, m, RegOffset(p[0]), 4, p[1..]) else Go(m)
    else if op == IT_DISPATCH_DIRECT then
      if |p| >= 4 then
        Go(m.(writes := m.writes + [
          RegWrite(dev.grbmOffset, GRBM_KIQ), RegWrite(COMPUTE_DIM_X, p[0]), RegWrite(COMPUTE_DIM_Y, p[1]),
          RegWrite(COMPUTE_DIM_Z, p[2]), RegWrite(COMPUTE_DISPATCH_INITIATOR, p[3]),
          RegWrite(dev.grbmOffset, GRBM_BROADCAST)]))
      else Go(m)
    else if op == IT_DMA_DATA then
      if |p| < 6 then Go(m)
      else Go(m.(mem := Dma(dev, m.mem, Wide(p[1], p[2]), Wide(p[3], p[4]), p[5] % DMA_LENGTHS)))
    else if op == IT_INDIRECT_BUFFER then
      if |p| >= 3 && 0 < p[2] <= 4096 && dev.ioMap(Wide(p[0] / 4 * 4, p[1]), p[2] * 4)
      then Call(Wide(p[0] / 4 * 4, p[1]), p[2])
      else Go(m)
    else Go(m)
  }

  function Execute(dev: Device, m: Machine, p: Packet, fence: nat): Outcome {
    match p
    case Type0(base, count, values) =>
      if !RegRangeValid(dev, base, count) then Stop(InvalidParameter)
      else Go(m.(writes := m.writes + RegRun(base, 4, values)))
    case Type3(op, _, payload) => Execute3(dev, m, op, payload, fence)
    case _ => Go(m)
  }

  // ---- a stream ------------------------------------------------------------------

  /** DreamV3SwPm4Process from position `i`: total on every stream, memory and depth. */
  function Exec(dev: Device, src: Source, i: nat, m: Machine, fence: nat, depth: nat): (Machine, Status)
    decreases depth, Length(src) - i
  {
    if depth == 0 then (m, Alerted)
    else if i >= Length(src) then (m, Success)
    else
      match DecodeAt(Words(src, m.mem), i, EXECUTOR)
      case Truncated => (m, BufferTooSmall)
      case Packet(p, next) =>
        match Execute(dev, m, p, fence)
        case Stop(status) => (m, status)
        case Go(m') => Exec(dev, src, next, m', fence, depth)
        case Call(pa, n) =>
          var called := Exec(dev, Mapped(pa, n), 0, m, fence, depth - 1);
          Exec(dev, src, next, called.0, fence, depth)
  }

  // ---- streams as packets --------------------------------------------------------

  /** The packets themselves, one after the other. */
  function RunPackets(dev: Device, ps: seq<Packet>, m: Machine, fence: nat, depth: nat): (Machine, Status)
    requires depth > 0
    decreases |ps|
  {
    if ps == [] then (m, Success)
    else
      match Execute(dev, m, ps[0], fence)
      case Stop(status) => (m, status)
      case Go(m') => RunPackets(dev, ps[1..], m', fence, depth)
      case Call(pa, n) => RunPackets(dev, ps[1..], Exec(dev, Mapped(pa, n), 0, m, fence, depth - 1).0, fence, depth)
  }

  /** Executing a built stream is executing its packets in order, as long as the counts fit
      the executor; the routing bits and whatever precedes the stream play no part. */
  lemma {:induction false} EncodedStreamRuns(dev: Device, before: seq<Word>, ps: seq<Packet>, routing: seq<bool>,
                                             m: Machine, fence: nat, depth: nat)
    requires depth > 0 && |ps| == |routing| && (forall i :: 0 <= i < |ps| ==> WellFormed(ps[i])) && AllFit(ps, EXECUTOR)
    ensures Exec(dev, Host(before + EncodeAll(ps, routing)), |before|, m, fence, depth)
         == RunPackets(dev, ps, m, fence, depth)
    decreases |ps|
  {
    hide Execute, DecodeAt, Encode, WellFormed, Fits;
    var words := before + EncodeAll(ps, routing);
    if ps == [] {
      assert words == before;
    } else {
      var p, code, rest := ps[0], Encode(ps[0], routing[0]), EncodeAll(ps[1..], routing[1..]);
      assert words == before + code + rest;
      DecodeEncoded(before, p, routing[0], rest, EXECUTOR);
      EncodeIsNotEmpty(p, routing[0]);
      assert DecodeAt(words, |before|, EXECUTOR) == Decoded.Packet(p, |before + code|);
      match Execute(dev, m, p, fence)
      case Stop(status) =>
      case Go(m') => EncodedStreamRuns(dev, before + code, ps[1..], routing[1..], m', fence, depth);
      case Call(pa, n) =>
        var m' := Exec(dev, Mapped(pa, n), 0, m, fence, depth - 1).0;
        EncodedStreamRuns(dev, before + code, ps[1..], routing[1..], m', fence, depth);
    }
  }

  /** A run of register writes, position by position. */
  lemma {:induction false} RegRunAt(offset: nat, stride: nat, values: seq<Word>, k: nat)
    requires k < |values|
    ensures |RegRun(offset, stride, values)| == |values|
    ensures RegRun(offset, stride, values)[k] == RegWrite(offset + k * stride, values[k])
    decreases |values|
  {
    var rest := RegRun(offset + stride, stride, values[1..]);
    assert RegRun(offset, stride, values) == [RegWrite(offset, values[0])] + rest;
    if |values| == 1 {
      assert rest == [];
    } else if k == 0 {
      RegRunAt(offset + stride, stride, values[1..], 0);
    } else {
      RegRunAt(offset + stride, stride, values[1..], k - 1);
      assert offset + stride + (k - 1) * stride == offset + k * stride;
    }
  }

  /** The ways of writing consecutive registers agree: a type 0 run, WRITE_DATA with its
      register bit set and any SET register packet have the same effect and the same error. */
  lemma RegisterPacketsAgree(dev: Device, m: Machine, op: nat, hwOff: Word, hi: Word, values: seq<Word>, fence: nat)
    requires op in {IT_SET_CONFIG_REG, IT_SET_CONTEXT_REG, IT_SET_SH_REG}
    ensures var base, n := RegOffset(hwOff), |values|;
      var run := Execute(dev, m, Type0(base, n, values), fence);
      && Execute(dev, m, Type3(op, 1 + n, [hwOff] + values), fence) == run
      && Execute(dev, m, Type3(IT_WRITE_DATA, 3 + n, [0x1000_0000, base, hi] + values), fence) == run
  {
    hide RegRun;
    assert ([hwOff] + values)[1..] == values;
    var data: seq<Word> := [0x1000_0000, RegOffset(hwOff), hi] + values;
    assert data[3..] == values && data[0] == 0x1000_0000 && data[1] == RegOffset(hwOff);
    assert IsReg(0x1000_0000) && Stride(0x1000_0000) == 4;
  }

  // ---- what no stream can do -----------------------------------------------------

  /** In a window the resolver accepts, or in the fence value the end-of-pipe packet
      writes. */
  ghost predicate Owned(dev: Device, a: nat) {
    || (exists w :: w in dev.Windows() && w.Usable() && w.Holds(a, 1))
    || (dev.fenceVa != 0 && dev.fencePa <= a < dev.fencePa + 8)
  }

  ghost predicate SameOutside(dev: Device, before: Mem, after: Mem) {
    forall a :: !Owned(dev, a) ==> Load(after, a) == Load(before, a)
  }

  lemma {:induction false} ResolvedIn(windows: seq<Window>, a: nat, n: nat)
    ensures ResolveIn(windows, a, n).Some? ==>
      exists w :: w in windows && w.Usable() && w.Holds(a, n) && ResolveIn(windows, a, n).value == w.va + (a - w.pa)
    ensures ResolveIn(windows, a, n).None? ==>
      forall w :: w in windows ==> !(w.Usable() && w.Holds(a, n))
    decreases |windows|
  {
    if windows != [] {
      ResolvedIn(windows[1..], a, n);
    }
  }

  lemma DmaFrame(dev: Device, mem: Mem, src: nat, dst: nat, n: nat)
    ensures SameOutside(dev, mem, Dma(dev, mem, src, dst, n))
  {
    if Accepted(dev, src, dst, n) {
      ResolvedIn(dev.Windows(), dst, n);
      var w :| w in dev.Windows() && w.Usable() && w.Holds(dst, n);
      forall a | !Owned(dev, a) ensures Load(Dma(dev, mem, src, dst, n), a) == Load(mem, a) {
        CopyLoad(mem, dst, src, n, a);
        assert !w.Holds(a, 1);
      }
    }
  }

  lemma PacketFrame(dev: Device, m: Machine, p: Packet, fence: nat)
    ensures var out := Execute(dev, m, p, fence);
      out.Go? ==> SameOutside(dev, m.mem, out.m.mem) && m.writes <= out.m.writes
  {
    if p.Type3? {
      if p.op == IT_DMA_DATA && |p.payload| >= 6 {
        var ws := p.payload;
        DmaFrame(dev, m.mem, Wide(ws[1], ws[2]), Wide(ws[3], ws[4]), ws[5] % DMA_LENGTHS);
      } else if dev.fenceVa != 0 {
        forall a | !Owned(dev, a) ensures Load(Store(m.mem, dev.fencePa, fence, 8), a) == Load(m.mem, a) {
          StoreFrame(m.mem, dev.fencePa, fence, 8, a);
        }
      }
    }
  }

  /** Whatever the stream, the memory contents, the fence value and the nesting: no byte
      outside the owned memory changes, and register writes are only ever added. */
  lemma {:induction false} StreamFrame(dev: Device, src: Source, i: nat, m: Machine, fence: nat, depth: nat)
    ensures SameOutside(dev, m.mem, Exec(dev, src, i, m, fence, depth).0.mem)
    ensures m.writes <= Exec(dev, src, i, m, fence, depth).0.writes
    decreases depth, Length(src) - i
  {
    hide Execute;
    if depth != 0 && i < Length(src) {
      match DecodeAt(Words(src, m.mem), i, EXECUTOR)
      case Truncated =>
      case Packet(p, next) =>
        PacketFrame(dev, m, p, fence);
        match Execute(dev, m, p, fence)
        case Stop(status) =>
        case Go(m') => StreamFrame(dev, src, next, m', fence, depth);
        case Call(pa, n) =>
          StreamFrame(dev, Mapped(pa, n), 0, m, fence, depth - 1);
          StreamFrame(dev, src, next, Exec(dev, Mapped(pa, n), 0, m, fence, depth - 1).0, fence, depth);
    }
  }

  // ---- register writes -----------------------------------------------------------

  /** Every write from position `from` of the trace lies in the mapped BAR5. */
  ghost predicate Inside(dev: Device, writes: seq<RegWrite>) {
    forall k :: 0 <= k < |writes| ==> dev.mmioSize.Some? && writes[k].offset + 4 <= dev.mmioSize.value
  }

  /** The registers a dispatch touches without a range check are mapped. */
  predicate CoversDispatch(dev: Device) {
    dev.mmioSize.Some? && COMPUTE_DIM_Z + 4 <= dev.mmioSize.value && dev.grbmOffset + 4 <= dev.mmioSize.value
  }

  lemma {:induction false} RunInside(dev: Device, offset: nat, stride: nat, values: seq<Word>)
    requires stride <= 4 && RegRangeValid(dev, offset, |values|)
    ensures Inside(dev, RegRun(offset, stride, values))
    decreases |values|
  {
    if values != [] {
      RunInside(dev, offset + stride, stride, values[1..]);
    }
  }

  lemma Packet3Inside(dev: Device, m: Machine, op: nat, ws: seq<Word>, fence: nat)
    requires CoversDispatch(dev) && Inside(dev, m.writes)
    ensures var out := Execute3(dev, m, op, ws, fence);
      out.Go? ==> Inside(dev, out.m.writes)
  {
    hide Dma, Store, Stride, RegOffset;
    if op == IT_WRITE_DATA && |ws| >= 3 && RegRangeValid(dev, ws[1], |ws[3..]|) {
      StrideBound(ws[0]);
      RunInside(dev, ws[1], Stride(ws[0]), ws[3..]);
    } else if op in {IT_SET_CONFIG_REG, IT_SET_CONTEXT_REG, IT_SET_SH_REG} && |ws| >= 1
              && RegRangeValid(dev, RegOffset(ws[0]), |ws[1..]|) {
      RunInside(dev, RegOffset(ws[0]), 4, ws[1..]);
    }
  }

  lemma StrideBound(control: nat)
    ensures Stride(control) <= 4
  {
  }

  lemma PacketInside(dev: Device, m: Machine, p: Packet, fence: nat)
    requires CoversDispatch(dev) && Inside(dev, m.writes)
    requires p.Type0? ==> |p.values| <= p.count
    ensures var out := Execute(dev, m, p, fence);
      out.Go? ==> Inside(dev, out.m.writes)
  {
    hide Execute3;
    match p
    case Type0(base, count, values) =>
      if RegRangeValid(dev, base, count) {
        RunInside(dev, base, 4, values);
      }
    case Type3(op, _, ws) => Packet3Inside(dev, m, op, ws, fence);
    case _ =>
  }

  lemma {:induction false} StreamInside(dev: Device, src: Source, i: nat, m: Machine, fence: nat, depth: nat)
    requires CoversDispatch(dev) && Inside(dev, m.writes)
    ensures Inside(dev, Exec(dev, src, i, m, fence, depth).0.writes)
    decreases depth, Length(src) - i
  {
    hide Execute;
    if depth != 0 && i < Length(src) {
      match DecodeAt(Words(src, m.mem), i, EXECUTOR)
      case Truncated =>
      case Packet(p, next) =>
        PacketInside(dev, m, p, fence);
        match Execute(dev, m, p, fence)
        case Stop(status) =>
        case Go(m') => StreamInside(dev, src, next, m', fence, depth);
        case Call(pa, n) =>
          StreamInside(dev, Mapped(pa, n), 0, m, fence, depth - 1);
          StreamInside(dev, src, next, Exec(dev, Mapped(pa, n), 0, m, fence, depth - 1).0, fence, depth);
    }
  }

  /** A dispatch packet as the builders make it. */
  const DISPATCH := Type3(IT_DISPATCH_DIRECT, 4, [0, 0, 0, 0])

  lemma DispatchRuns(dev: Device, m: Machine)
    ensures var out := Exec(dev, Host(Encode(DISPATCH, false)), 0, m, 0, 1).0;
      out.writes == m.writes + [
        RegWrite(dev.grbmOffset, GRBM_KIQ), RegWrite(COMPUTE_DIM_X, 0), RegWrite(COMPUTE_DIM_Y, 0),
        RegWrite(COMPUTE_DIM_Z, 0), RegWrite(COMPUTE_DISPATCH_INITIATOR, 0), RegWrite(dev.grbmOffset, GRBM_BROADCAST)]
  {
    hide Header3, Fields, TypeOf, OpOf, CountOf;
    var words := Encode(DISPATCH, false);
    assert [] + words + [] == words;
    DecodeEncoded([], DISPATCH, false, [], EXECUTOR);
    assert DecodeAt(words, 0, EXECUTOR) == Decoded.Packet(DISPATCH, 5);
  }

  ghost predicate AlwaysInside(dev: Device) {
    forall src: Source, m: Machine, fence: nat, depth: nat ::
      Inside(dev, m.writes) ==> Inside(dev, Exec(dev, src, 0, m, fence, depth).0.writes)
  }

  /** All register writes of all streams stay in the mapped BAR5 exactly when the dispatch
      registers, which alone are written without a range check, are mapped. */
  lemma AlwaysInsideIff(dev: Device)
    ensures AlwaysInside(dev) <==> CoversDispatch(dev)
  {
    hide Exec, Encode;
    if CoversDispatch(dev) {
      forall src: Source, m: Machine, fence: nat, depth: nat | Inside(dev, m.writes)
        ensures Inside(dev, Exec(dev, src, 0, m, fence, depth).0.writes)
      {
        StreamInside(dev, src, 0, m, fence, depth);
      }
    } else {
      var m := Machine(map[], [], 0);
      var src := Host(Encode(DISPATCH, false));
      DispatchRuns(dev, m);
      var writes := Exec(dev, src, 0, m, 0, 1).0.writes;
      assert writes[0].offset == dev.grbmOffset && writes[3].offset == COMPUTE_DIM_Z;
      assert Inside(dev, m.writes) && !Inside(dev, writes);
    }
  }

  // ---- DMA_DATA ------------------------------------------------------------------

  predicate Apart(a: nat, n: nat, b: nat, k: nat) {
    a + n <= b || b + k <= a
  }

  /** The usable windows are separate allocations, physically and in kernel space. */
  ghost predicate WellPlaced(dev: Device) {
    forall v, w :: v in dev.Windows() && w in dev.Windows() && v.Usable() && w.Usable() && v != w ==>
      Apart(v.pa, v.size, w.pa, w.size) && Apart(v.va, v.size, w.va, w.size)
  }

  ghost predicate InOneWindow(dev: Device, a: nat, n: nat) {
    exists w :: w in dev.Windows() && w.Usable() && w.Holds(a, n)
  }

  /** With separate windows the kernel-address overlap test is the physical one: a packet
      is executed exactly when its length is within the cap, both ranges lie in owned
      memory and they do not overlap. */
  lemma AcceptedIff(dev: Device, src: nat, dst: nat, n: nat)
    requires WellPlaced(dev)
    ensures Accepted(dev, src, dst, n) <==>
      0 < n <= DMA_MAX_BYTES && InOneWindow(dev, src, n) && InOneWindow(dev, dst, n) && Apart(src, n, dst, n)
  {
    hide ResolveIn;
    ResolvedIn(dev.Windows(), src, n);
    ResolvedIn(dev.Windows(), dst, n);
    if 0 < n <= DMA_MAX_BYTES && InOneWindow(dev, src, n) && InOneWindow(dev, dst, n) {
      var v :| v in dev.Windows() && v.Usable() && v.Holds(src, n)
        && ResolveIn(dev.Windows(), src, n).value == v.va + (src - v.pa);
      var w :| w in dev.Windows() && w.Usable() && w.Holds(dst, n)
        && ResolveIn(dev.Windows(), dst, n).value == w.va + (dst - w.pa);
      assert v != w ==> Apart(v.pa, v.size, w.pa, w.size) && Apart(v.va, v.size, w.va, w.size);
    }
  }

  /** An accepted packet copies exactly its range; any other changes nothing. */
  lemma DmaExact(dev: Device, mem: Mem, src: nat, dst: nat, n: nat, a: nat)
    ensures Load(Dma(dev, mem, src, dst, n), a)
         == if Accepted(dev, src, dst, n) && dst <= a < dst + n then Load(mem, a - dst + src) else Load(mem, a)
  {
    CopyLoad(mem, dst, src, n, a);
  }

  /** PS5_PM4_DMA_HEADER, which the executor ignores. */
  const DMA_FLAGS: Word := 0x8C00_C000

  datatype DmaRequest = DmaRequest(dst: nat, src: nat, length: Word, compute: bool) {
    predicate Valid() { dst < 0x1_0000_0000_0000_0000 && src < 0x1_0000_0000_0000_0000 }

    /** The packet of pm4_build_dma_data, build_dma and dma_copy. */
    function Packet(): Packet
      requires Valid()
    {
      Type3(IT_DMA_DATA, 6, [DMA_FLAGS, ToU32(src), src / 0x1_0000_0000, ToU32(dst), dst / 0x1_0000_0000, length])
    }
  }

  /** The seven words of one request, written field by field. */
  method BuildDmaData(dst: nat, src: nat, length: Word) returns (cmd: array<Word>)
    requires DmaRequest(dst, src, length % DMA_LENGTHS, true).Valid()
    ensures fresh(cmd) && cmd[..] == Encode(DmaRequest(dst, src, length % DMA_LENGTHS, true).Packet(), true)
  {
    hide Header3, Fields;
    cmd := new Word[7](_ => 0);
    Header3Value(IT_DMA_DATA, 6, true);
    cmd[0] := Header3(IT_DMA_DATA, 6, true);
    cmd[1] := DMA_FLAGS;
    cmd[2] := src % 0x1_0000_0000;
    cmd[3] := src / 0x1_0000_0000;
    cmd[4] := dst % 0x1_0000_0000;
    cmd[5] := dst / 0x1_0000_0000;
    cmd[6] := length % DMA_LENGTHS;
  }

  function DmaStream(reqs: seq<DmaRequest>): seq<Word>
    requires forall i :: 0 <= i < |reqs| ==> reqs[i].Valid()
    decreases |reqs|
  {
    if reqs == [] then [] else Encode(reqs[0].Packet(), reqs[0].compute) + DmaStream(reqs[1..])
  }

  /** The same requests, carried out one after the other. */
  function DmaAll(dev: Device, mem: Mem, reqs: seq<DmaRequest>): Mem
    decreases |reqs|
  {
    if reqs == [] then mem
    else DmaAll(dev, Dma(dev, mem, reqs[0].src, reqs[0].dst, reqs[0].length % DMA_LENGTHS), reqs[1..])
  }

  lemma DmaPacketRuns(dev: Device, m: Machine, req: DmaRequest, fence: nat)
    requires req.Valid()
    ensures Execute(dev, m, req.Packet(), fence)
         == Go(m.(mem := Dma(dev, m.mem, req.src, req.dst, req.length % DMA_LENGTHS)))
  {
    assert Wide(ToU32(req.src), req.src / 0x1_0000_0000) == req.src;
    assert Wide(ToU32(req.dst), req.dst / 0x1_0000_0000) == req.dst;
  }

  /** Executing a stream of DMA packets is carrying out its requests in order, whichever of
      them set the routing bit: nothing else happens and nothing stops the stream. */
  lemma {:induction false} DmaStreamRuns(dev: Device, before: seq<Word>, reqs: seq<DmaRequest>,
                                         m: Machine, fence: nat, depth: nat)
    requires depth > 0 && forall i :: 0 <= i < |reqs| ==> reqs[i].Valid()
    ensures Exec(dev, Host(before + DmaStream(reqs)), |before|, m, fence, depth)
         == (m.(mem := DmaAll(dev, m.mem, reqs)), Success)
    decreases |reqs|
  {
    hide Execute, Dma, DecodeAt, Encode;
    var words := before + DmaStream(reqs);
    if reqs == [] {
      assert words == before;
    } else {
      var p, code, rest := reqs[0].Packet(), Encode(reqs[0].Packet(), reqs[0].compute), DmaStream(reqs[1..]);
      assert words == before + code + rest;
      DecodeEncoded(before, p, reqs[0].compute, rest, EXECUTOR);
      EncodeIsNotEmpty(p, reqs[0].compute);
      DmaPacketRuns(dev, m, reqs[0], fence);
      var m' := m.(mem := Dma(dev, m.mem, reqs[0].src, reqs[0].dst, reqs[0].length % DMA_LENGTHS));
      DmaStreamRuns(dev, before + code, reqs[1..], m', fence, depth);
    }
  }
}
