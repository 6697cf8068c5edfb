/** What each packet does in the software executor, with opcodes, registers and limits written
    out as numbers, and how deep indirect buffers go. */
module Opcodes {
  import opened Common
  import opened Masks
  import opened PhysMem
  import opened Pm4
  import opened Executor
  import opened Driver

  // ---- register writes -----------------------------------------------------------

  /** Write k of a run. */
  function Run(offset: nat, stride: nat, values: seq<Word>): seq<RegWrite> {
    seq(|values|, k requires 0 <= k < |values| => RegWrite(offset + k * stride, values[k]))
  }

  lemma RunIs(offset: nat, stride: nat, values: seq<Word>)
    ensures RegRun(offset, stride, values) == Run(offset, stride, values)
  {
    if values != [] {
      RegRunAt(offset, stride, values, 0);
    }
    forall k | 0 <= k < |values|
      ensures RegRun(offset, stride, values)[k] == RegWrite(offset + k * stride, values[k])
    {
      RegRunAt(offset, stride, values, k);
    }
  }

  /** The range check: `n` registers from `offset` on lie in the mapped BAR5. */
  predicate Mapped4(dev: Device, offset: nat, n: nat) {
    dev.mmioSize.Some? && 4 <= dev.mmioSize.value && offset + 4 * n <= dev.mmioSize.value
  }

  function Checked(dev: Device, m: Machine, offset: nat, stride: nat, values: seq<Word>): Outcome {
    if Mapped4(dev, offset, |values|) then Go(m.(writes := m.writes + Run(offset, stride, values)))
    else Stop(InvalidParameter)
  }

  lemma CheckedIs(dev: Device, m: Machine, offset: nat, stride: nat, values: seq<Word>)
    ensures WriteRegs(dev, m, offset, stride, values) == Checked(dev, m, offset, stride, values)
  {
    hide RegRun, Run;
    RunIs(offset, stride, values);
  }

  // ---- packet by packet ----------------------------------------------------------

  /** Type 0: a checked run of consecutive registers. */
  lemma Type0Writes(dev: Device, m: Machine, base: nat, values: seq<Word>, fence: nat)
    ensures Execute(dev, m, Type0(base, |values|, values), fence) == Checked(dev, m, base, 4, values)
  {
    CheckedIs(dev, m, base, 4, values);
  }

  /** WRITE_DATA: control word, address, an ignored word, values.  Bit 28 or an address below
      2 MB makes it a checked register write, bit 25 keeps every value on the same register. */
  lemma WriteData(dev: Device, m: Machine, p: seq<Word>, fence: nat)
    ensures |p| < 3 ==> Execute3(dev, m, 0x37, p, fence) == Go(m)
    ensures |p| >= 3 ==>
      var isReg, stride := p[0] / 0x1000_0000 % 2 == 1, if p[0] / 0x200_0000 % 2 == 1 then 0 else 4;
      Execute3(dev, m, 0x37, p, fence) ==
        if isReg || p[1] < 0x20_0000 then Checked(dev, m, p[1], stride, p[3..]) else Go(m)
  {
    hide Checked, WriteRegs;
    if |p| >= 3 {
      CheckedIs(dev, m, p[1], Stride(p[0]), p[3..]);
    }
  }

  function Register(hwOff: nat): nat {
    (0x1260 + 4 * hwOff) % 0x1_0000_0000
  }

  /** The three SET packets: consecutive registers from 0x1260 + 4 * hwOff on, in 32 bits. */
  lemma SetRegisters(dev: Device, m: Machine, op: nat, p: seq<Word>, fence: nat)
    requires op in {0x68, 0x69, 0x76}
    ensures Execute3(dev, m, op, p, fence) ==
      if |p| >= 1 then Checked(dev, m, Register(p[0]), 4, p[1..]) else Go(m)
  {
    hide Checked, WriteRegs;
    if |p| >= 1 {
      CheckedIs(dev, m, RegOffset(p[0]), 4, p[1..]);
    }
  }

  /** What a dispatch writes: select the compute engine, the three dimensions, the initiator,
      and back to broadcast. */
  function DispatchWrites(dev: Device, p: seq<Word>): seq<RegWrite>
    requires |p| >= 4
  {
    [RegWrite(dev.grbmOffset, 0x10000), RegWrite(0x80E4, p[0]), RegWrite(0x80E8, p[1]), RegWrite(0x80EC, p[2]),
     RegWrite(0x80E0, p[3]), RegWrite(dev.grbmOffset, 0x1500_0000)]
  }

  lemma Dispatch(dev: Device, m: Machine, p: seq<Word>, fence: nat)
    ensures Execute3(dev, m, 0x15, p, fence) ==
      if |p| >= 4 then Go(m.(writes := m.writes + DispatchWrites(dev, p))) else Go(m)
  {
  }

  /** EVENT_WRITE_EOP and RELEASE_MEM ignore their payload: with a fence value to signal the
      fence page reads that value, and no other byte and no register changes. */
  lemma EndOfPipe(dev: Device, m: Machine, op: nat, p: seq<Word>, fence: nat)
    requires op in {0x47, 0x49}
    ensures var out := Execute3(dev, m, op, p, fence);
      if |p| >= 5 && fence > 0 && dev.fenceVa != 0
      then out.Go? && out.m.lastFence == fence && out.m.writes == m.writes
           && (fence < 0x1_0000_0000_0000_0000 ==> Value(out.m.mem, dev.fencePa, 8) == fence)
           && forall a: nat :: a < dev.fencePa || dev.fencePa + 8 <= a ==> Load(out.m.mem, a) == Load(m.mem, a)
      else out == Go(m)
  {
    hide Store, Value, Load;
    WordBounds();
    if |p| >= 5 && fence > 0 && dev.fenceVa != 0 {
      if fence < 0x1_0000_0000_0000_0000 {
        StoreValue(m.mem, dev.fencePa, fence, 8);
      }
      forall a: nat | a < dev.fencePa || dev.fencePa + 8 <= a
        ensures Load(Store(m.mem, dev.fencePa, fence, 8), a) == Load(m.mem, a)
      {
        StoreFrame(m.mem, dev.fencePa, fence, 8, a);
      }
    }
  }

  function Address(lo: nat, hi: nat): nat {
    lo + hi * 0x1_0000_0000
  }

  /** DMA_DATA: flags (ignored), source, destination, and a length of 21 bits. */
  lemma DmaDataOperands(dev: Device, m: Machine, p: seq<Word>, fence: nat)
    ensures Execute3(dev, m, 0x50, p, fence) ==
      if |p| >= 6
      then Go(m.(mem := Dma(dev, m.mem, Address(p[1], p[2]), Address(p[3], p[4]), p[5] % 0x20_0000)))
      else Go(m)
  {
    hide Dma;
  }

  /** INDIRECT_BUFFER: an address of 4-byte granularity and 1 to 4096 words, if they can be mapped. */
  lemma IndirectBuffer(dev: Device, m: Machine, p: seq<Word>, fence: nat)
    ensures Execute3(dev, m, 0x3F, p, fence) ==
      if |p| >= 3 && 1 <= p[2] <= 4096 && dev.ioMap(Address(p[0] / 4 * 4, p[1]), p[2] * 4)
      then Call(Address(p[0] / 4 * 4, p[1]), p[2]) else Go(m)
  {
  }

  /** Every other opcode is skipped. */
  lemma OthersSkipped(dev: Device, m: Machine, op: nat, p: seq<Word>, fence: nat)
    requires op !in {0x15, 0x37, 0x3F, 0x47, 0x49, 0x50, 0x68, 0x69, 0x76}
    ensures Execute3(dev, m, op, p, fence) == Go(m)
  {
  }

  // ---- in a stream ---------------------------------------------------------------

  /** One encoded packet, whatever surrounds it. */
  lemma OnePacket(dev: Device, before: seq<Word>, p: Packet, compute: bool, rest: seq<Word>,
                  m: Machine, fence: nat, depth: nat)
    requires depth > 0 && WellFormed(p) && Fits(p, EXECUTOR)
    ensures var words, next := before + Encode(p, compute) + rest, |before| + |Encode(p, compute)|;
      Exec(dev, Host(words), |before|, m, fence, depth)
      == match Execute(dev, m, p, fence)
         case Stop(status) => (m, status)
         case Go(m') => Exec(dev, Host(words), next, m', fence, depth)
         case Call(pa, n) =>
           Exec(dev, Host(words), next, Exec(dev, Mapped(pa, n), 0, m, fence, depth - 1).0, fence, depth)
  {
    hide Execute, DecodeAt, Encode, WellFormed, Fits;
    DecodeEncoded(before, p, compute, rest, EXECUTOR);
    EncodeIsNotEmpty(p, compute);
  }

  /** A dispatch anywhere in a stream, with any payload: its dimensions and initiator reach their
      registers, and execution goes on behind it. */
  lemma DispatchInStream(dev: Device, before: seq<Word>, payload: seq<Word>, compute: bool, rest: seq<Word>,
                         m: Machine, fence: nat, depth: nat)
    requires depth > 0 && 4 <= |payload| <= 0x1000
    ensures WellFormed(Type3(0x15, |payload|, payload))
    ensures var code := Encode(Type3(0x15, |payload|, payload), compute);
      Exec(dev, Host(before + code + rest), |before|, m, fence, depth)
      == Exec(dev, Host(before + code + rest), |before| + |code|,
              m.(writes := m.writes + DispatchWrites(dev, payload)), fence, depth)
  {
    hide Exec, Encode, Execute3, DispatchWrites;
    OnePacket(dev, before, Type3(0x15, |payload|, payload), compute, rest, m, fence, depth);
    Dispatch(dev, m, payload, fence);
  }

  /** Type 1 and type 2 words are skipped one at a time. */
  lemma OtherTypesSkipped(dev: Device, words: seq<Word>, i: nat, m: Machine, fence: nat, depth: nat)
    requires depth > 0 && i < |words| && words[i] / 0x4000_0000 in {1, 2}
    ensures Exec(dev, Host(words), i, m, fence, depth) == Exec(dev, Host(words), i + 1, m, fence, depth)
  {
  }

  /** A type 3 packet that declares more words than are left is an error without effect, and
      ends the stream; a NOP may. */
  lemma PayloadCutShort(dev: Device, before: seq<Word>, op: nat, count: nat, compute: bool, payload: seq<Word>,
                        m: Machine, fence: nat, depth: nat)
    requires depth > 0 && op < 0x100 && |payload| < count <= 0x1000
    ensures Header3(op, count, compute) < 0x1_0000_0000
    ensures Exec(dev, Host(before + [Header3(op, count, compute)] + payload), |before|, m, fence, depth)
         == (m, if op == 0x10 then Success else BufferTooSmall)
  {
    hide Header3, Fields, TypeOf, OpOf, CountOf, Exec;
    Header3Value(op, count, compute);
    FieldsOfSum(count - 1, op, if compute then 2 else 0, 0x1000);
    var words := before + [Header3(op, count, compute)] + payload;
    assert words[|before|] == Header3(op, count, compute);
    CutShort(dev, words, |before|, count, m, fence, depth);
  }

  lemma CutShort(dev: Device, words: seq<Word>, i: nat, count: nat, m: Machine, fence: nat, depth: nat)
    requires depth > 0 && i < |words| < i + 1 + count
    requires TypeOf(words[i]) == 3 && CountOf(words[i], 0x1000) == count
    ensures Exec(dev, Host(words), i, m, fence, depth)
         == (m, if OpOf(words[i]) == 0x10 then Success else BufferTooSmall)
  {
    hide TypeOf, OpOf, CountOf, Execute3;
    if OpOf(words[i]) == 0x10 {
      var p := Type3(0x10, count, words[i + 1..]);
      assert words[i + 1..Min(|words|, i + 1 + count)] == words[i + 1..];
      assert DecodeAt(words, i, EXECUTOR) == Decoded.Packet(p, i + 1 + count);
      OthersSkipped(dev, m, 0x10, words[i + 1..], fence);
      assert Exec(dev, Host(words), i + 1 + count, m, fence, depth) == (m, Success);
    } else {
      assert DecodeAt(words, i, EXECUTOR) == Truncated;
    }
  }

  /** A register run that hits the end of the stream is range-checked as declared and cut short. */
  lemma RunCutShort(dev: Device, before: seq<Word>, base: nat, count: nat, values: seq<Word>,
                    m: Machine, fence: nat, depth: nat)
    requires depth > 0 && base % 4 == 0 && base / 4 < 0x10000 && |values| < count <= 0x800
    ensures Header0(base, count) < 0x1_0000_0000
    ensures Exec(dev, Host(before + [Header0(base, count)] + values), |before|, m, fence, depth)
         == if Mapped4(dev, base, count) then (m.(writes := m.writes + Run(base, 4, values)), Success)
            else (m, InvalidParameter)
  {
    hide Header0, RegRun, Run;
    Header0Value(base, count);
    RunIs(base, 4, values);
    var words, h: Word := before + [Header0(base, count)] + values, Header0(base, count);
    assert words[|before|] == h && words[|before| + 1..] == values;
    assert h / 0x10000 == count - 1 && h % 0x10000 == base / 4 && TypeOf(h) == 0;
    assert CountOf(h, 0x800) == count && BaseOf(h) == base;
    assert words[|before| + 1..|words|] == values;
    var p := Type0(base, count, values);
    assert DecodeAt(words, |before|, EXECUTOR) == Decoded.Packet(p, |words|);
    match Execute(dev, m, p, fence)
    case Stop(_) =>
    case Go(m') => assert Exec(dev, Host(words), |words|, m', fence, depth) == (m', Success);
  }

  // ---- memory --------------------------------------------------------------------

  predicate Holds(w: Window, a: nat, n: nat) {
    && w.pa != 0 && w.va != 0 && w.size != 0
    && w.pa <= a < w.pa + w.size && a + n <= w.pa + w.size
  }

  /** The owned windows: the three rings and one page of fence, each when it is mapped. */
  lemma OwnedWindows(dev: Device, a: nat, n: nat)
    ensures InOneWindow(dev, a, n) <==> (
      || Holds(dev.gfx, a, n) || Holds(dev.sdma, a, n) || Holds(dev.ih, a, n)
      || (dev.fenceVa != 0 && dev.fencePa != 0 && dev.fencePa <= a < dev.fencePa + 4096 && a + n <= dev.fencePa + 4096))
  {
    var ws := dev.Windows();
    var fence := Window(dev.fencePa, dev.fenceVa, 4096);
    assert ws[0] == dev.gfx && ws[1] == dev.sdma && ws[2] == dev.ih && ws[3] == fence;
    if InOneWindow(dev, a, n) {
      var w :| w in ws && w.Usable() && w.Holds(a, n);
      assert w == dev.gfx || w == dev.sdma || w == dev.ih || w == fence;
    }
    forall k | 0 <= k < 4 && ws[k].Usable() && ws[k].Holds(a, n) ensures InOneWindow(dev, a, n) {
      assert ws[k] in ws;
    }
  }

  /** The cap on one move is 1 MiB. */
  lemma MoveCap(dev: Device, src: nat, dst: nat, n: nat)
    ensures n > 1_048_576 ==> !Accepted(dev, src, dst, n)
    ensures WellPlaced(dev) && 0 < n <= 1_048_576 ==> (
      Accepted(dev, src, dst, n) <==>
        InOneWindow(dev, src, n) && InOneWindow(dev, dst, n) && (src + n <= dst || dst + n <= src))
  {
    if WellPlaced(dev) {
      AcceptedIff(dev, src, dst, n);
    }
  }

  /** An indirect buffer is read as little-endian words, from wherever it lies now. */
  lemma BufferWords(mem: Mem, pa: nat, n: nat, k: nat)
    requires k < n
    ensures |Words(Mapped(pa, n), mem)| == n
    ensures Words(Mapped(pa, n), mem)[k] ==
      Load(mem, pa + 4 * k) + 0x100 * Load(mem, pa + 4 * k + 1)
      + 0x1_0000 * Load(mem, pa + 4 * k + 2) + 0x100_0000 * Load(mem, pa + 4 * k + 3)
  {
    FourBytes(mem, pa + 4 * k);
  }

  lemma FourBytes(mem: Mem, a: nat)
    ensures LoadWord(mem, a) == Load(mem, a) + 0x100 * Load(mem, a + 1) + 0x1_0000 * Load(mem, a + 2)
                                + 0x100_0000 * Load(mem, a + 3)
  {
    hide Load;
    var d: nat, c: nat, b: nat := Load(mem, a + 3), Load(mem, a + 2), Load(mem, a + 1);
    assert Value(mem, a + 4, 0) == 0;
    assert Value(mem, a + 3, 1) == d;
    assert Value(mem, a + 2, 2) == c + 256 * d;
    assert Value(mem, a + 1, 3) == b + 256 * Value(mem, a + 2, 2);
  }

  // ---- the request and the depth of nesting --------------------------------------

  /** SEND_PM4 takes 1 to 64 words and starts at depth 32. */
  lemma SubmitLimits(dev: Device, m: Machine, commands: seq<Word>, count: nat, fence: nat)
    requires |commands| == 64
    ensures count == 0 || count > 64 ==> Submit(dev, m, commands, count, fence) == (m, InvalidParameter)
    ensures 1 <= count <= 64 ==>
      var (end, status) := Exec(dev, Host(commands[..count]), 0, m, fence, 32);
      Submit(dev, m, commands, count, fence) == (if status == Success then end.(lastFence := fence) else end, status)
  {
    hide Exec;
  }

  /** An indirect buffer that writes one register and then calls itself. */
  function SelfCalling(base: nat, v: Word, lo: Word, hi: Word): seq<Word>
    requires base % 4 == 0 && base / 4 < 0x10000
  {
    Encode(Type0(base, 1, [v]), false) + Encode(Type3(0x3F, 3, [lo, hi, 6]), false)
  }

  lemma SelfCallingDecodes(base: nat, v: Word, lo: Word, hi: Word)
    requires base % 4 == 0 && base / 4 < 0x10000
    ensures var code := SelfCalling(base, v, lo, hi);
      && |code| == 6
      && DecodeAt(code, 0, EXECUTOR) == Decoded.Packet(Type0(base, 1, [v]), 2)
      && DecodeAt(code, 2, EXECUTOR) == Decoded.Packet(Type3(0x3F, 3, [lo, hi, 6]), 6)
  {
    hide Header0, Header3, DecodeAt;
    var p, q := Type0(base, 1, [v]), Type3(0x3F, 3, [lo, hi, 6]);
    var a, b := Encode(p, false), Encode(q, false);
    assert |a| == 2 && |b| == 4;
    assert [] + a + b == a + b && a + b + [] == a + b;
    DecodeEncoded([], p, false, b, EXECUTOR);
    DecodeEncoded(a, q, false, [], EXECUTOR);
  }

  function Times(n: nat, w: RegWrite): seq<RegWrite> {
    seq(n, _ => w)
  }

  ghost predicate LiesAt(mem: Mem, pa: nat, code: seq<Word>) {
    Words(Mapped(pa, |code|), mem) == code
  }

  /** Byte k of a word, the lowest first. */
  function ByteOf(w: Word, k: nat): Byte {
    (if k == 0 then w else if k == 1 then w / 0x100 else if k == 2 then w / 0x1_0000 else w / 0x100_0000) % 0x100
  }

  function Laid(pa: nat, code: seq<Word>): Mem {
    map a: nat | pa <= a < pa + 4 * |code| :: ByteAt(pa, code, a)
  }

  function ByteAt(pa: nat, code: seq<Word>, a: nat): Byte
    requires pa <= a < pa + 4 * |code|
  {
    ByteOf(code[(a - pa) / 4], (a - pa) % 4)
  }

  /** Every stream lies somewhere in some memory. */
  lemma LaidLies(pa: nat, code: seq<Word>)
    ensures LiesAt(Laid(pa, code), pa, code)
  {
    hide ByteOf, LoadWord;
    forall k | 0 <= k < |code| ensures LoadWord(Laid(pa, code), pa + 4 * k) == code[k] {
      LaidWord(pa, code, k);
    }
  }

  lemma LaidWord(pa: nat, code: seq<Word>, k: nat)
    requires k < |code|
    ensures LoadWord(Laid(pa, code), pa + 4 * k) == code[k]
  {
    hide ByteOf, LoadWord;
    var mem, a := Laid(pa, code), pa + 4 * k;
    FourBytes(mem, a);
    forall j: nat | j < 4 ensures Load(mem, a + j) == ByteOf(code[k], j) {
      assert (a + j - pa) / 4 == k && (a + j - pa) % 4 == j;
    }
    BytesOfWord(code[k]);
  }

  lemma BytesOfWord(w: Word)
    ensures ByteOf(w, 0) + 0x100 * ByteOf(w, 1) + 0x1_0000 * ByteOf(w, 2) + 0x100_0000 * ByteOf(w, 3) == w
  {
    var a: nat, b: nat, c: nat := w / 0x100, w / 0x1_0000, w / 0x100_0000;
    assert ByteOf(w, 0) == w - 0x100 * a;
    assert ByteOf(w, 1) == a - 0x100 * b by { assert b == a / 0x100; }
    assert ByteOf(w, 2) == b - 0x100 * c by { assert c == b / 0x100; }
    assert ByteOf(w, 3) == c;
  }

  /** Nesting ends: the buffer runs once for every level of depth, and the whole is a success. */
  lemma {:induction false} SelfCallEnds(dev: Device, m: Machine, base: nat, v: Word, lo: Word, hi: Word,
                                              fence: nat, depth: nat)
    requires base % 4 == 0 && base / 4 < 0x10000 && RegRangeValid(dev, base, 1)
    requires var pa := Address(lo / 4 * 4, hi);
      dev.ioMap(pa, 24) && LiesAt(m.mem, pa, SelfCalling(base, v, lo, hi))
    ensures var pa := Address(lo / 4 * 4, hi);
      Exec(dev, Mapped(pa, 6), 0, m, fence, depth)
      == (m.(writes := m.writes + Times(depth, RegWrite(base, v))), if depth == 0 then Alerted else Success)
    decreases depth
  {
    hide DecodeAt, Encode, Execute, SelfCalling;
    var pa := Address(lo / 4 * 4, hi);
    SelfCallingDecodes(base, v, lo, hi);
    if depth == 0 {
      assert m.writes + Times(0, RegWrite(base, v)) == m.writes;
    } else {
      var m1 := m.(writes := m.writes + [RegWrite(base, v)]);
      OneWrite(dev, m, base, v, fence);
      OneCall(dev, m1, lo, hi, fence);
      SelfCallEnds(dev, m1, base, v, lo, hi, fence, depth - 1);
      var m2 := m1.(writes := m1.writes + Times(depth - 1, RegWrite(base, v)));
      assert m2.writes == m.writes + Times(depth, RegWrite(base, v));
      EndOfBuffer(dev, pa, m2, fence, depth);
      assert Exec(dev, Mapped(pa, 6), 2, m1, fence, depth) == (m2, Success);
    }
  }

  lemma EndOfBuffer(dev: Device, pa: nat, m: Machine, fence: nat, depth: nat)
    requires depth > 0
    ensures Exec(dev, Mapped(pa, 6), 6, m, fence, depth) == (m, Success)
  {
  }

  lemma OneWrite(dev: Device, m: Machine, base: nat, v: Word, fence: nat)
    requires RegRangeValid(dev, base, 1)
    ensures Execute(dev, m, Type0(base, 1, [v]), fence) == Go(m.(writes := m.writes + [RegWrite(base, v)]))
  {
    assert RegRun(base, 4, [v]) == [RegWrite(base, v)];
  }

  lemma OneCall(dev: Device, m: Machine, lo: Word, hi: Word, fence: nat)
    requires dev.ioMap(Address(lo / 4 * 4, hi), 24)
    ensures Execute(dev, m, Type3(0x3F, 3, [lo, hi, 6]), fence) == Call(Address(lo / 4 * 4, hi), 6)
  {
    hide Execute3;
    IndirectBuffer(dev, m, [lo, hi, 6], fence);
  }

  /** Sent by SEND_PM4 such a buffer runs exactly 31 times. */
  lemma SelfCallSubmitted(dev: Device, m: Machine, base: nat, v: Word, lo: Word, hi: Word, commands: seq<Word>)
    requires base % 4 == 0 && base / 4 < 0x10000 && RegRangeValid(dev, base, 1)
    requires var pa := Address(lo / 4 * 4, hi);
      dev.ioMap(pa, 24) && LiesAt(m.mem, pa, SelfCalling(base, v, lo, hi))
    requires |commands| == 64 && commands[..4] == Encode(Type3(0x3F, 3, [lo, hi, 6]), false)
    ensures Submit(dev, m, commands, 4, 0)
         == (m.(writes := m.writes + Times(31, RegWrite(base, v)), lastFence := 0), Success)
  {
    hide Exec, Encode, Execute, SelfCalling, LiesAt;
    var p, code := Type3(0x3F, 3, [lo, hi, 6]), commands[..4];
    assert [] + code + [] == code;
    OnePacket(dev, [], p, false, [], m, 0, 32);
    OneCall(dev, m, lo, hi, 0);
    SelfCallEnds(dev, m, base, v, lo, hi, 0, 31);
    EndOfStream(dev, code, m.(writes := m.writes + Times(31, RegWrite(base, v))));
    SubmitLimits(dev, m, commands, 4, 0);
  }

  lemma EndOfStream(dev: Device, words: seq<Word>, m: Machine)
    ensures Exec(dev, Host(words), |words|, m, 0, 32) == (m, Success)
  {
  }
}
