/** The two DMA test tools: what their expectations amount to against the executor. */
module DmaTests {
  import opened Common
  import opened Masks
  import opened PhysMem
  import opened Pm4
  import opened Executor
  import opened Driver

  /** The fence page exists, as dma-move-verify insists before it starts. */
  ghost predicate FenceReady(dev: Device) {
    && dev.fenceVa != 0 && 0 < dev.fencePa && dev.fencePa + PAGE_SIZE <= 0x1_0000_0000_0000_0000
    && WellPlaced(dev)
  }

  /** FenceValue as GET_HW_STATUS reports it. */
  function FenceValue(dev: Device, m: Machine): nat {
    if dev.fenceVa != 0 then Value(m.mem, dev.fencePa, 8) else 0
  }

  function High(v: nat): nat { v / 0x1_0000_0000 }
  function Low(v: nat): nat { v % 0x1_0000_0000 }

  /** The 64-word command array of a request, zero after the packet. */
  function Padded(words: seq<Word>): (cmds: seq<Word>)
    requires |words| <= MAX_COMMANDS
    ensures |cmds| == MAX_COMMANDS && cmds[..|words|] == words
  {
    words + seq(MAX_COMMANDS - |words|, _ => 0)
  }

  /** write_fence */
  function WriteFence(dev: Device, m: Machine, v: nat): (Machine, Status)
    requires v < 0x1_0000_0000_0000_0000
  {
    Submit(dev, m, Padded(Encode(EopPacket(v), false)), 6, v)
  }

  function EopPacket(v: nat): Packet
    requires v < 0x1_0000_0000_0000_0000
  {
    Type3(IT_EVENT_WRITE_EOP, 5, [0, 0, 0, Low(v), High(v)])
  }

  /** One request with a single DMA_DATA packet and no fence. */
  function SubmitDma(dev: Device, m: Machine, req: DmaRequest): (Machine, Status)
    requires req.Valid()
  {
    Submit(dev, m, Padded(Encode(req.Packet(), req.compute)), 7, 0)
  }

  lemma SubmitDmaRuns(dev: Device, m: Machine, req: DmaRequest)
    requires req.Valid()
    ensures SubmitDma(dev, m, req)
         == (m.(mem := Dma(dev, m.mem, req.src, req.dst, req.length % DMA_LENGTHS), lastFence := 0), Success)
  {
    hide Dma, Exec;
    var code := Encode(req.Packet(), req.compute);
    assert [] + DmaStream([req]) == code;
    assert Padded(code)[..7] == code;
    DmaStreamRuns(dev, [], [req], m, 0, SW_DEPTH);
    var after := Dma(dev, m.mem, req.src, req.dst, req.length % DMA_LENGTHS);
    assert DmaAll(dev, m.mem, [req]) == DmaAll(dev, after, []);
  }

  /** Step 1: whatever value is written, the readback is that value. */
  lemma SentinelLands(dev: Device, m: Machine, v: nat)
    requires FenceReady(dev) && 0 < v < 0x1_0000_0000_0000_0000
    ensures var (m', status) := WriteFence(dev, m, v);
      status == Success && FenceValue(dev, m') == v && m'.lastFence == v && m'.writes == m.writes
  {
    hide Store;
    var p := EopPacket(v);
    var words := Encode(p, false);
    assert Padded(words)[..6] == words && [] + words + [] == words;
    DecodeEncoded([], p, false, [], EXECUTOR);
    assert DecodeAt(words, 0, EXECUTOR) == Decoded.Packet(p, 6);
    var m1 := m.(mem := Store(m.mem, dev.fencePa, v, 8), lastFence := v);
    assert Execute(dev, m, p, v) == Go(m1);
    assert Exec(dev, Host(words), 6, m1, v, SW_DEPTH) == (m1, Success);
    WordBounds();
    StoreValue(m.mem, dev.fencePa, v, 8);
  }

  lemma SplitHalves(low: nat, high: nat)
    requires low < 0x1_0000_0000
    ensures Low(low + 0x1_0000_0000 * high) == low && High(low + 0x1_0000_0000 * high) == high
  {
  }

  lemma FenceHalves(dev: Device, m: Machine)
    requires dev.fenceVa != 0
    ensures FenceValue(dev, m) == Value(m.mem, dev.fencePa, 4) + 0x1_0000_0000 * Value(m.mem, dev.fencePa + 4, 4)
    ensures Value(m.mem, dev.fencePa, 4) == Low(FenceValue(dev, m))
    ensures Value(m.mem, dev.fencePa + 4, 4) == High(FenceValue(dev, m))
  {
    hide Value, Pow256;
    WordBounds();
    ValueSplit(m.mem, dev.fencePa, 8, 4);
    ValueBound(m.mem, dev.fencePa, 4);
    SplitHalves(Value(m.mem, dev.fencePa, 4), Value(m.mem, dev.fencePa + 4, 4));
  }

  /** dma_copy(fence, 4, 0, 4) */
  function MoveDown(dev: Device): DmaRequest {
    DmaRequest(dev.fencePa, dev.fencePa + 4, 4, false)
  }

  lemma MoveAccepted(dev: Device)
    requires FenceReady(dev)
    ensures Accepted(dev, dev.fencePa + 4, dev.fencePa, 4)
  {
    var w := Window(dev.fencePa, dev.fenceVa, PAGE_SIZE);
    assert w == dev.Windows()[3] && w.Usable() && w.Holds(dev.fencePa + 4, 4) && w.Holds(dev.fencePa, 4);
    AcceptedIff(dev, dev.fencePa + 4, dev.fencePa, 4);
  }

  /** Step 2, for every fence value: the readback becomes the high half twice.  It differs
      from "parsed and discarded" exactly when the two halves of the value differ. */
  lemma MoveShows(dev: Device, m: Machine)
    requires FenceReady(dev)
    ensures var v, (m', status) := FenceValue(dev, m), SubmitDma(dev, m, MoveDown(dev));
      && status == Success
      && FenceValue(dev, m') == High(v) * 0x1_0000_0000 + High(v)
      && (FenceValue(dev, m') != v <==> High(v) != Low(v))
  {
    var pa := dev.fencePa;
    var m' := SubmitDma(dev, m, MoveDown(dev)).0;
    SubmitDmaRuns(dev, m, MoveDown(dev));
    MoveAccepted(dev);
    assert m'.mem == Copy(m.mem, pa, pa + 4, 4);
    CopyValue(m.mem, pa, pa + 4, 4);
    forall k | pa + 4 <= k < pa + 8 ensures Load(m'.mem, k) == Load(m.mem, k) {
      CopyLoad(m.mem, pa, pa + 4, 4, k);
    }
    ValueSame(m'.mem, pa + 4, m.mem, pa + 4, 4);
    FenceHalves(dev, m);
    FenceHalves(dev, m');
  }

  const SENTINEL_FULL: nat := 0x1122_3344_5566_7788
  const EXPECT_AFTER: nat := 0x1122_3344_1122_3344

  /** The tool as shipped: both of its comparisons hold. */
  lemma MoveVerifyPasses(dev: Device, m: Machine)
    requires FenceReady(dev)
    ensures var (m1, s1) := WriteFence(dev, m, SENTINEL_FULL);
      var (m2, s2) := SubmitDma(dev, m1, MoveDown(dev));
      s1 == Success && FenceValue(dev, m1) == SENTINEL_FULL && s2 == Success && FenceValue(dev, m2) == EXPECT_AFTER
  {
    hide WriteFence, SubmitDma, FenceValue;
    SentinelLands(dev, m, SENTINEL_FULL);
    MoveShows(dev, WriteFence(dev, m, SENTINEL_FULL).0);
  }

  // ---- dma-data-test -------------------------------------------------------------

  /** A foreign operand, an overlap, a zero length (2^21 included, which the 21-bit mask
      turns into zero) or a length over the cap: consumed, reported as success, no effect. */
  lemma RefusedIsNoOp(dev: Device, m: Machine, req: DmaRequest)
    requires WellPlaced(dev) && req.Valid()
    requires var n := req.length % DMA_LENGTHS;
      || n == 0 || n > DMA_MAX_BYTES
      || !InOneWindow(dev, req.src, n) || !InOneWindow(dev, req.dst, n)
      || !Apart(req.src, n, req.dst, n)
    ensures SubmitDma(dev, m, req) == (m.(lastFence := 0), Success)
  {
    SubmitDmaRuns(dev, m, req);
    AcceptedIff(dev, req.src, req.dst, req.length % DMA_LENGTHS);
  }

  /** dma(fence + 0x100, fence, 8): source and destination both in the fence page. */
  function MoveUp(dev: Device): DmaRequest {
    DmaRequest(dev.fencePa + 0x100, dev.fencePa, 8, false)
  }

  lemma UpAccepted(dev: Device)
    requires FenceReady(dev)
    ensures MoveUp(dev).Valid() && Accepted(dev, dev.fencePa, dev.fencePa + 0x100, 8)
  {
    var w := Window(dev.fencePa, dev.fenceVa, PAGE_SIZE);
    assert w == dev.Windows()[3] && w.Usable() && w.Holds(dev.fencePa, 8) && w.Holds(dev.fencePa + 0x100, 8);
    AcceptedIff(dev, dev.fencePa, dev.fencePa + 0x100, 8);
  }

  /** Test 3: a move inside the fence page, 0x100 apart, lands and leaves the fence alone. */
  lemma OwnedPairMoves(dev: Device, m: Machine)
    requires FenceReady(dev) && MoveUp(dev).Valid()
    ensures var (m', status) := SubmitDma(dev, m, MoveUp(dev));
      && status == Success
      && FenceValue(dev, m') == FenceValue(dev, m)
      && Value(m'.mem, dev.fencePa + 0x100, 8) == FenceValue(dev, m)
  {
    hide SubmitDma, Accepted, Copy, Value;
    var pa := dev.fencePa;
    var m' := SubmitDma(dev, m, MoveUp(dev)).0;
    UpAccepted(dev);
    SubmitDmaRuns(dev, m, MoveUp(dev));
    assert m'.mem == Copy(m.mem, pa + 0x100, pa, 8);
    CopyValue(m.mem, pa + 0x100, pa, 8);
    forall k | pa <= k < pa + 8 ensures Load(m'.mem, k) == Load(m.mem, k) {
      CopyLoad(m.mem, pa + 0x100, pa, 8, k);
    }
    ValueSame(m'.mem, pa, m.mem, pa, 8);
  }

  // ---- case 5: a truncated packet ------------------------------------------------

  /** A DMA_DATA packet that declares fewer than 6 payload words is skipped: wherever it lies
      in a stream, execution goes on right behind the declared words as if nothing had been
      there.  The routing bit plays no part. */
  lemma ShortDmaSkipped(dev: Device, before: seq<Word>, payload: seq<Word>, compute: bool, rest: seq<Word>,
                        m: Machine, fence: nat, depth: nat)
    requires 1 <= |payload| < 6
    ensures WellFormed(Type3(IT_DMA_DATA, |payload|, payload))
    ensures var words := before + Encode(Type3(IT_DMA_DATA, |payload|, payload), compute) + rest;
      Exec(dev, Host(words), |before|, m, fence, depth)
      == Exec(dev, Host(words), |before| + 1 + |payload|, m, fence, depth)
  {
    hide DecodeAt, Header3;
    var p := Type3(IT_DMA_DATA, |payload|, payload);
    DecodeEncoded(before, p, compute, rest, EXECUTOR);
    assert Execute(dev, m, p, fence) == Go(m);
  }

  predicate IsSet(op: nat) {
    op in {IT_SET_CONFIG_REG, IT_SET_CONTEXT_REG, IT_SET_SH_REG}
  }

  /** A SET packet without values writes nothing, but its register is range-checked. */
  predicate SetAllowed(dev: Device, op: nat, hwOff: Word) {
    IsSet(op) ==> RegRangeValid(dev, RegOffset(hwOff), 0)
  }

  /** The last word of a stream, taken as a header, has no effect and no error. */
  predicate LastIsQuiet(dev: Device, h: Word) {
    match TypeOf(h)
    case 0 => RegRangeValid(dev, BaseOf(h), CountOf(h, EXECUTOR.counts0))
    case 3 => OpOf(h) == IT_NOP
    case _ => true
  }

  /** The last two words have no effect and no error. */
  predicate LastTwoAreQuiet(dev: Device, h: Word, last: Word) {
    match TypeOf(h)
    case 0 => false
    case 3 => OpOf(h) == IT_NOP || (CountOf(h, EXECUTOR.counts3) == 1 && SetAllowed(dev, OpOf(h), last))
    case _ => LastIsQuiet(dev, last)
  }

  /** The last three words have no effect and no error. */
  predicate LastThreeAreQuiet(dev: Device, h: Word, second: Word, last: Word) {
    match TypeOf(h)
    case 0 => false
    case 3 =>
      var op, count := OpOf(h), CountOf(h, EXECUTOR.counts3);
      if count == 1 then SetAllowed(dev, op, second) && LastIsQuiet(dev, last)
      else if count == 2 then !IsSet(op)
      else op == IT_NOP
    case _ => LastTwoAreQuiet(dev, second, last)
  }

  // ---- one packet of any stream --------------------------------------------------

  lemma HeaderRanges(h: Word, counts: nat)
    requires counts > 0
    ensures TypeOf(h) in {0, 1, 2, 3} && CountOf(h, counts) >= 1
  {
  }

  /** A filler or a reserved header is passed over. */
  lemma StepOver(dev: Device, words: seq<Word>, i: nat, m: Machine, fence: nat, depth: nat)
    requires depth > 0 && i < |words| && TypeOf(words[i]) in {1, 2}
    ensures Exec(dev, Host(words), i, m, fence, depth) == Exec(dev, Host(words), i + 1, m, fence, depth)
  {
    hide TypeOf;
  }

  /** A register run, of which only the values still in the stream are written. */
  lemma StepRegisters(dev: Device, words: seq<Word>, i: nat, m: Machine, fence: nat, depth: nat)
    requires depth > 0 && i < |words| && TypeOf(words[i]) == 0
    ensures var base, count := BaseOf(words[i]), CountOf(words[i], EXECUTOR.counts0);
      var end := Min(|words|, i + 1 + count);
      Exec(dev, Host(words), i, m, fence, depth)
      == if !RegRangeValid(dev, base, count) then (m, InvalidParameter)
         else Exec(dev, Host(words), end, m.(writes := m.writes + RegRun(base, 4, words[i + 1..end])), fence, depth)
  {
    hide TypeOf, BaseOf, CountOf;
    HeaderRanges(words[i], EXECUTOR.counts0);
  }

  lemma StepNop(dev: Device, words: seq<Word>, i: nat, m: Machine, fence: nat, depth: nat)
    requires depth > 0 && i < |words| && TypeOf(words[i]) == 3 && OpOf(words[i]) == IT_NOP
    ensures Exec(dev, Host(words), i, m, fence, depth)
         == Exec(dev, Host(words), i + 1 + CountOf(words[i], EXECUTOR.counts3), m, fence, depth)
  {
    hide TypeOf, OpOf, CountOf;
  }

  lemma StepTooLong(dev: Device, words: seq<Word>, i: nat, m: Machine, fence: nat, depth: nat)
    requires depth > 0 && i < |words| && TypeOf(words[i]) == 3 && OpOf(words[i]) != IT_NOP
    requires i + 1 + CountOf(words[i], EXECUTOR.counts3) > |words|
    ensures Exec(dev, Host(words), i, m, fence, depth) == (m, BufferTooSmall)
  {
    hide TypeOf, OpOf, CountOf, Execute;
  }

  /** One or two payload words are too few for every packet but the SET ones. */
  lemma TinyPacket(dev: Device, m: Machine, op: nat, payload: seq<Word>, fence: nat)
    requires |payload| in {1, 2}
    ensures !IsSet(op) ==> Execute3(dev, m, op, payload, fence) == Go(m)
    ensures IsSet(op) ==>
      Execute3(dev, m, op, payload, fence) == WriteRegs(dev, m, RegOffset(payload[0]), 4, payload[1..])
  {
  }

  lemma StepTiny(dev: Device, words: seq<Word>, i: nat, m: Machine, fence: nat, depth: nat)
    requires depth > 0 && i < |words| && TypeOf(words[i]) == 3 && OpOf(words[i]) != IT_NOP
    requires CountOf(words[i], EXECUTOR.counts3) in {1, 2} && i + 1 + CountOf(words[i], EXECUTOR.counts3) <= |words|
    ensures var op, next := OpOf(words[i]), i + 1 + CountOf(words[i], EXECUTOR.counts3);
      Exec(dev, Host(words), i, m, fence, depth)
      == if !IsSet(op) then Exec(dev, Host(words), next, m, fence, depth)
         else if !RegRangeValid(dev, RegOffset(words[i + 1]), next - i - 2) then (m, InvalidParameter)
         else Exec(dev, Host(words), next,
                   m.(writes := m.writes + RegRun(RegOffset(words[i + 1]), 4, words[i + 2..next])), fence, depth)
  {
    hide TypeOf, OpOf, CountOf, Execute3, RegRun, RegOffset, RegRangeValid;
    var next := i + 1 + CountOf(words[i], EXECUTOR.counts3);
    var payload := words[i + 1..next];
    TinyPacket(dev, m, OpOf(words[i]), payload, fence);
    assert payload[0] == words[i + 1] && payload[1..] == words[i + 2..next];
  }

  // ---- the end of any stream -----------------------------------------------------

  ghost predicate EndsQuietly(dev: Device, words: seq<Word>, i: nat, m: Machine, fence: nat, depth: nat) {
    Exec(dev, Host(words), i, m, fence, depth) == (m, Success)
  }

  lemma EndIsQuiet(dev: Device, words: seq<Word>, i: nat, m: Machine, fence: nat, depth: nat)
    requires depth > 0 && i >= |words|
    ensures EndsQuietly(dev, words, i, m, fence, depth)
  {
  }

  lemma NoWrites(m: Machine, base: nat)
    ensures m.(writes := m.writes + RegRun(base, 4, [])) == m
  {
    assert m.writes + [] == m.writes;
  }

  /** A register write is there to stay. */
  lemma WritesStay(dev: Device, words: seq<Word>, i: nat, m: Machine, base: nat, values: seq<Word>,
                   fence: nat, depth: nat)
    requires values != []
    ensures var m' := m.(writes := m.writes + RegRun(base, 4, values));
      && m.writes + [RegWrite(base, values[0])] <= Exec(dev, Host(words), i, m', fence, depth).0.writes
      && !EndsWith(dev, words, i, m', m, fence, depth)
  {
    hide Exec;
    var m' := m.(writes := m.writes + RegRun(base, 4, values));
    RegRunAt(base, 4, values, 0);
    assert m.writes + [RegWrite(base, values[0])] <= m'.writes;
    StreamFrame(dev, Host(words), i, m', fence, depth);
  }

  ghost predicate EndsWith(dev: Device, words: seq<Word>, i: nat, m: Machine, end: Machine, fence: nat, depth: nat) {
    Exec(dev, Host(words), i, m, fence, depth) == (end, Success)
  }

  lemma LastQuietIff(dev: Device, words: seq<Word>, i: nat, m: Machine, fence: nat, depth: nat)
    requires depth > 0 && i + 1 == |words|
    ensures EndsQuietly(dev, words, i, m, fence, depth) <==> LastIsQuiet(dev, words[i])
  {
    hide Exec, TypeOf, BaseOf, OpOf, CountOf;
    var h := words[i];
    HeaderRanges(h, EXECUTOR.counts0);
    HeaderRanges(h, EXECUTOR.counts3);
    assert words[i + 1..i + 1] == [];
    EndIsQuiet(dev, words, i + 1, m, fence, depth);
    EndIsQuiet(dev, words, i + 1 + CountOf(h, EXECUTOR.counts3), m, fence, depth);
    if TypeOf(h) == 0 {
      StepRegisters(dev, words, i, m, fence, depth);
      NoWrites(m, BaseOf(h));
    } else if TypeOf(h) != 3 {
      StepOver(dev, words, i, m, fence, depth);
    } else if OpOf(h) == IT_NOP {
      StepNop(dev, words, i, m, fence, depth);
    } else {
      StepTooLong(dev, words, i, m, fence, depth);
    }
  }

  /** With at least one value behind it a register run writes its first register, or fails
      without any effect: the range check decides. */
  lemma RegisterRunActs(dev: Device, words: seq<Word>, i: nat, m: Machine, fence: nat, depth: nat)
    requires depth > 0 && i + 1 < |words| && TypeOf(words[i]) == 0
    ensures var h, end := words[i], Exec(dev, Host(words), i, m, fence, depth);
      if RegRangeValid(dev, BaseOf(h), CountOf(h, EXECUTOR.counts0))
      then m.writes + [RegWrite(BaseOf(h), words[i + 1])] <= end.0.writes
      else end == (m, InvalidParameter)
    ensures !EndsQuietly(dev, words, i, m, fence, depth)
  {
    hide Exec, TypeOf, BaseOf, CountOf, RegRangeValid, RegRun;
    var h := words[i];
    HeaderRanges(h, EXECUTOR.counts0);
    var end := Min(|words|, i + 1 + CountOf(h, EXECUTOR.counts0));
    StepRegisters(dev, words, i, m, fence, depth);
    assert words[i + 1..end][0] == words[i + 1];
    WritesStay(dev, words, end, m, BaseOf(h), words[i + 1..end], fence, depth);
  }

  lemma LastTwoQuietIff(dev: Device, words: seq<Word>, i: nat, m: Machine, fence: nat, depth: nat)
    requires depth > 0 && i + 2 == |words|
    ensures EndsQuietly(dev, words, i, m, fence, depth) <==> LastTwoAreQuiet(dev, words[i], words[i + 1])
  {
    hide Exec, TypeOf, BaseOf, OpOf, CountOf, RegOffset, RegRangeValid, LastIsQuiet;
    var h := words[i];
    HeaderRanges(h, EXECUTOR.counts3);
    var count := CountOf(h, EXECUTOR.counts3);
    if TypeOf(h) == 0 {
      RegisterRunActs(dev, words, i, m, fence, depth);
    } else if TypeOf(h) != 3 {
      StepOver(dev, words, i, m, fence, depth);
      LastQuietIff(dev, words, i + 1, m, fence, depth);
    } else if OpOf(h) == IT_NOP {
      StepNop(dev, words, i, m, fence, depth);
      EndIsQuiet(dev, words, i + 1 + count, m, fence, depth);
    } else if count == 1 {
      StepTiny(dev, words, i, m, fence, depth);
      EndIsQuiet(dev, words, i + 2, m, fence, depth);
      assert words[i + 2..i + 2] == [];
      NoWrites(m, RegOffset(words[i + 1]));
    } else {
      StepTooLong(dev, words, i, m, fence, depth);
    }
  }

  lemma LastThreeQuietIff(dev: Device, words: seq<Word>, i: nat, m: Machine, fence: nat, depth: nat)
    requires depth > 0 && i + 3 == |words|
    ensures EndsQuietly(dev, words, i, m, fence, depth)
            <==> LastThreeAreQuiet(dev, words[i], words[i + 1], words[i + 2])
  {
    hide Exec, TypeOf, BaseOf, OpOf, CountOf, RegOffset, RegRangeValid, LastIsQuiet, LastTwoAreQuiet, IsSet;
    var h := words[i];
    HeaderRanges(h, EXECUTOR.counts3);
    var count := CountOf(h, EXECUTOR.counts3);
    if TypeOf(h) == 0 {
      RegisterRunActs(dev, words, i, m, fence, depth);
    } else if TypeOf(h) != 3 {
      StepOver(dev, words, i, m, fence, depth);
      LastTwoQuietIff(dev, words, i + 1, m, fence, depth);
    } else if OpOf(h) == IT_NOP {
      LastThreeNop(dev, words, i, m, fence, depth);
    } else if count <= 2 {
      LastThreeTiny(dev, words, i, m, fence, depth);
    } else {
      StepTooLong(dev, words, i, m, fence, depth);
    }
  }

  lemma NopIsNoSet()
    ensures !IsSet(IT_NOP)
  {
  }

  lemma LastThreeNop(dev: Device, words: seq<Word>, i: nat, m: Machine, fence: nat, depth: nat)
    requires depth > 0 && i + 3 == |words| && TypeOf(words[i]) == 3 && OpOf(words[i]) == IT_NOP
    ensures EndsQuietly(dev, words, i, m, fence, depth)
            <==> LastThreeAreQuiet(dev, words[i], words[i + 1], words[i + 2])
  {
    hide Exec, TypeOf, OpOf, CountOf, RegOffset, RegRangeValid, LastIsQuiet, IsSet;
    NopIsNoSet();
    HeaderRanges(words[i], EXECUTOR.counts3);
    var next := i + 1 + CountOf(words[i], EXECUTOR.counts3);
    StepNop(dev, words, i, m, fence, depth);
    if next >= |words| {
      EndIsQuiet(dev, words, next, m, fence, depth);
    } else {
      LastQuietIff(dev, words, next, m, fence, depth);
    }
  }

  lemma LastThreeTiny(dev: Device, words: seq<Word>, i: nat, m: Machine, fence: nat, depth: nat)
    requires depth > 0 && i + 3 == |words| && TypeOf(words[i]) == 3 && OpOf(words[i]) != IT_NOP
    requires CountOf(words[i], EXECUTOR.counts3) in {1, 2}
    ensures EndsQuietly(dev, words, i, m, fence, depth)
            <==> LastThreeAreQuiet(dev, words[i], words[i + 1], words[i + 2])
  {
    hide Exec, TypeOf, OpOf, CountOf, RegOffset, RegRangeValid, LastIsQuiet, IsSet, RegRun;
    var base := RegOffset(words[i + 1]);
    StepTiny(dev, words, i, m, fence, depth);
    if CountOf(words[i], EXECUTOR.counts3) == 1 {
      assert words[i + 2..i + 2] == [];
      NoWrites(m, base);
      LastQuietIff(dev, words, i + 2, m, fence, depth);
    } else {
      EndIsQuiet(dev, words, i + 3, m, fence, depth);
      assert words[i + 2..i + 3] == [words[i + 2]];
      WritesStay(dev, words, i + 3, m, base, [words[i + 2]], fence, depth);
    }
  }

  // ---- the request of case 5 -----------------------------------------------------

  /** build_dma with a declared count below 6: the header, then all six payload words. */
  function ShortRequest(count: nat, payload: seq<Word>): seq<Word>
    requires 1 <= count < 6 && |payload| == 6
  {
    Encode(Type3(IT_DMA_DATA, count, payload[..count]), false) + payload[count..]
  }

  lemma ShortRequestShape(count: nat, payload: seq<Word>)
    requires 1 <= count < 6 && |payload| == 6
    ensures |ShortRequest(count, payload)| == 7 && ShortRequest(count, payload)[1..] == payload
  {
    hide Header3;
    assert payload[..count] + payload[count..] == payload;
  }

  lemma ShortRequestSkips(dev: Device, m: Machine, count: nat, payload: seq<Word>, fence: nat, depth: nat)
    requires 1 <= count < 6 && |payload| == 6
    ensures var words := ShortRequest(count, payload);
      && |words| == 7 && words[1..] == payload
      && Exec(dev, Host(words), 0, m, fence, depth) == Exec(dev, Host(words), 1 + count, m, fence, depth)
  {
    hide Exec, Encode;
    var words := ShortRequest(count, payload);
    ShortRequestShape(count, payload);
    ShortDmaSkipped(dev, [], payload[..count], false, payload[count..], m, fence, depth);
    assert [] + Encode(Type3(IT_DMA_DATA, count, payload[..count]), false) + payload[count..] == words;
  }

  /** What is left of the payload has no effect and no error. */
  predicate RestIsQuiet(dev: Device, count: nat, payload: seq<Word>)
    requires 3 <= count < 6 && |payload| == 6
  {
    if count == 3 then LastThreeAreQuiet(dev, payload[3], payload[4], payload[5])
    else if count == 4 then LastTwoAreQuiet(dev, payload[4], payload[5])
    else LastIsQuiet(dev, payload[5])
  }

  /** The truncated request is the skipped no-op the test expects exactly when its undeclared
      words happen to be quiet: for every device, source, destination and length. */
  lemma ShortRequestIsNoOpIff(dev: Device, m: Machine, count: nat, payload: seq<Word>, fence: nat, depth: nat)
    requires 3 <= count < 6 && |payload| == 6 && depth > 0
    ensures Exec(dev, Host(ShortRequest(count, payload)), 0, m, fence, depth) == (m, Success)
            <==> RestIsQuiet(dev, count, payload)
  {
    hide Exec, LastThreeAreQuiet, LastTwoAreQuiet, LastIsQuiet, ShortRequest;
    var words := ShortRequest(count, payload);
    ShortRequestSkips(dev, m, count, payload, fence, depth);
    assert forall k :: 0 <= k < 6 ==> words[1 + k] == words[1..][k];
    if count == 3 {
      LastThreeQuietIff(dev, words, 4, m, fence, depth);
    } else if count == 4 {
      LastTwoQuietIff(dev, words, 5, m, fence, depth);
    } else {
      LastQuietIff(dev, words, 6, m, fence, depth);
    }
  }

  /** Case 5 itself, by destination.  With a low word below 2^30 (type 0) a register is written
      or the request is rejected; below 3 * 2^30 (types 1 and 2) it is never the no-op as long
      as the high word is below 2^30; above, the low word's own count and opcode decide. */
  lemma CaseFiveByDestination(dev: Device, m: Machine, flags: Word, src: seq<Word>, dlo: Word, dhi: Word, bytes: Word,
                              depth: nat)
    requires depth > 0 && |src| == 2
    ensures var payload := [flags] + src + [dlo, dhi, bytes];
      var end := Exec(dev, Host(ShortRequest(3, payload)), 0, m, 0, depth);
      && (TypeOf(dlo) == 0 ==>
            if RegRangeValid(dev, BaseOf(dlo), CountOf(dlo, EXECUTOR.counts0))
            then m.writes + [RegWrite(BaseOf(dlo), dhi)] <= end.0.writes
            else end == (m, InvalidParameter))
      && (TypeOf(dlo) in {1, 2} && TypeOf(dhi) == 0 ==> end != (m, Success))
      && (TypeOf(dlo) == 3 ==>
            (end == (m, Success) <==> LastThreeAreQuiet(dev, dlo, dhi, bytes)))
  {
    hide Exec, TypeOf, BaseOf, OpOf, CountOf, RegRangeValid, ShortRequest, LastIsQuiet, IsSet, SetAllowed;
    var payload := [flags] + src + [dlo, dhi, bytes];
    var words := ShortRequest(3, payload);
    ShortRequestSkips(dev, m, 3, payload, 0, depth);
    assert payload[3] == dlo && payload[4] == dhi && payload[5] == bytes;
    assert words[4] == words[1..][3] && words[5] == words[1..][4] && words[6] == words[1..][5];
    if TypeOf(dlo) == 0 {
      RegisterRunActs(dev, words, 4, m, 0, depth);
    } else {
      LastThreeQuietIff(dev, words, 4, m, 0, depth);
    }
  }

  /** The tool without a ring: destination 0, length 8.  The two zero words are a register run,
      register 0 is written, and the length is taken for a header without values. */
  lemma TruncatedTailIsDecoded(dev: Device, m: Machine, lo: Word, hi: Word, depth: nat)
    requires dev.mmioSize.Some? && dev.mmioSize.value >= 0x24 && depth > 0
    ensures Exec(dev, Host(ShortRequest(3, [DMA_FLAGS, lo, hi, 0, 0, 8])), 0, m, 0, depth)
         == (m.(writes := m.writes + [RegWrite(0, 0)]), Success)
  {
    hide Exec, ShortRequest;
    var payload: seq<Word> := [DMA_FLAGS, lo, hi, 0, 0, 8];
    var words := ShortRequest(3, payload);
    ShortRequestSkips(dev, m, 3, payload, 0, depth);
    assert words[4] == words[1..][3] && words[5] == words[1..][4] && words[6] == words[1..][5];
    StepRegisters(dev, words, 4, m, 0, depth);
    assert words[5..6] == [0] && RegRun(0, 4, [0]) == [RegWrite(0, 0)];
    LastQuietIff(dev, words, 6, m.(writes := m.writes + [RegWrite(0, 0)]), 0, depth);
  }
}
