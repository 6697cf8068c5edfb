/** The executor as the driver runs it, updating its memory and registers in place, and
    the SEND_PM4 request that reaches it when no ring is available. */
module Driver {
  import opened Common
  import opened PhysMem
  import opened Pm4
  import opened Executor

  const SW_DEPTH: nat := 32
  const MAX_COMMANDS: nat := 64

  /** What one packet asks the main loop to do next. */
  datatype Verdict = Proceed | Fail(status: Status) | Descend(pa: nat, n: nat)

  class SwExecutor {
    const dev: Device
    var mem: Mem
    var writes: seq<RegWrite>
    var lastFence: nat

    constructor (dev: Device, mem: Mem)
      ensures this.dev == dev && State() == Machine(mem, [], 0)
    {
      this.dev := dev;
      this.mem := mem;
      this.writes := [];
      this.lastFence := 0;
    }

    ghost function State(): Machine
      reads this
    {
      Machine(mem, writes, lastFence)
    }

    method WriteRun(offset: nat, stride: nat, values: seq<Word>)
      modifies this`writes
      ensures writes == old(writes) + RegRun(offset, stride, values)
    {
      var j := 0;
      assert values[0..] == values;
      while j < |values|
        invariant 0 <= j <= |values|
        invariant writes + RegRun(offset + j * stride, stride, values[j..])
               == old(writes) + RegRun(offset, stride, values)
      {
        assert values[j..][1..] == values[j + 1..];
        assert offset + j * stride + stride == offset + (j + 1) * stride;
        writes := writes + [RegWrite(offset + j * stride, values[j])];
        j := j + 1;
      }
    }

    method CheckedRun(offset: nat, stride: nat, values: seq<Word>) returns (v: Verdict)
      modifies this`writes
      ensures match WriteRegs(dev, old(State()), offset, stride, values)
              case Go(m) => v == Proceed && State() == m
              case Stop(s) => v == Fail(s) && State() == old(State())
              case Call(_, _) => false
    {
      if !RegRangeValid(dev, offset, |values|) { return Fail(InvalidParameter); }
      WriteRun(offset, stride, values);
      v := Proceed;
    }

    method DmaData(p: seq<Word>)
      requires |p| >= 6
      modifies this`mem
      ensures mem == Dma(dev, old(mem), Wide(p[1], p[2]), Wide(p[3], p[4]), p[5] % DMA_LENGTHS)
    {
      var srcPa, dstPa, bytes := Wide(p[1], p[2]), Wide(p[3], p[4]), p[5] % DMA_LENGTHS;
      if bytes == 0 { return; }
      var src := Resolve(dev, srcPa, bytes);
      if src.None? { return; }
      var dst := Resolve(dev, dstPa, bytes);
      if dst.None? { return; }
      if dst.value < src.value + bytes && src.value < dst.value + bytes { return; }
      mem := Copy(mem, dstPa, srcPa, bytes);
    }

    /** The switch over opcodes. */
    method Type3(op: nat, p: seq<Word>, fence: nat) returns (v: Verdict)
      modifies this`mem, this`writes, this`lastFence
      ensures match Execute3(dev, old(State()), op, p, fence)
              case Go(m) => v == Proceed && State() == m
              case Stop(s) => v == Fail(s) && State() == old(State())
              case Call(pa, n) => v == Descend(pa, n) && State() == old(State())
    {
      v := Proceed;
      if op == IT_WRITE_DATA {
        if |p| < 3 { return; }
        if IsReg(p[0]) || p[1] < 0x20_0000 {
          v := CheckedRun(p[1], Stride(p[0]), p[3..]);
        }
      } else if op == IT_EVENT_WRITE_EOP || op == IT_RELEASE_MEM {
        if |p| >= 5 && fence > 0 && dev.fenceVa != 0 {
          mem := Store(mem, dev.fencePa, fence, 8);
          lastFence := fence;
        }
      } else if op == IT_SET_CONFIG_REG || op == IT_SET_CONTEXT_REG || op == IT_SET_SH_REG {
        if |p| >= 1 {
          v := CheckedRun(RegOffset(p[0]), 4, p[1..]);
        }
      } else if op == IT_DISPATCH_DIRECT {
        if |p| >= 4 {
          writes := writes + [RegWrite(dev.grbmOffset, GRBM_KIQ), RegWrite(COMPUTE_DIM_X, p[0]),
                              RegWrite(COMPUTE_DIM_Y, p[1]), RegWrite(COMPUTE_DIM_Z, p[2]),
                              RegWrite(COMPUTE_DISPATCH_INITIATOR, p[3]), RegWrite(dev.grbmOffset, GRBM_BROADCAST)];
        }
      } else if op == IT_DMA_DATA {
        if |p| < 6 { return; }
        DmaData(p);
      } else if op == IT_INDIRECT_BUFFER {
        if |p| >= 3 {
          var pa, n := Wide(p[0] / 4 * 4, p[1]), p[2];
          if 0 < n <= 4096 && dev.ioMap(pa, n * 4) { return Descend(pa, n); }
        }
      }
    }

    method Run(p: Packet, fence: nat) returns (v: Verdict)
      modifies this`mem, this`writes, this`lastFence
      ensures match Execute(dev, old(State()), p, fence)
              case Go(m) => v == Proceed && State() == m
              case Stop(s) => v == Fail(s) && State() == old(State())
              case Call(pa, n) => v == Descend(pa, n) && State() == old(State())
    {
      hide Execute3;
      v := Proceed;
      match p
      case Type0(base, count, values) =>
        if !RegRangeValid(dev, base, count) { return Fail(InvalidParameter); }
        WriteRun(base, 4, values);
      case Type3(op, _, payload) => v := Type3(op, payload, fence);
      case _ =>
    }

    /** DreamV3SwPm4Process.  The status of a nested buffer is dropped, its effects stay. */
    method Process(src: Source, fence: nat, depth: nat) returns (status: Status)
      modifies this`mem, this`writes, this`lastFence
      ensures (State(), status) == Exec(dev, src, 0, old(State()), fence, depth)
      decreases depth
    {
      hide Execute, DecodeAt;
      if depth == 0 { return Alerted; }
      var i := 0;
      while i < Length(src)
        invariant Exec(dev, src, i, State(), fence, depth) == Exec(dev, src, 0, old(State()), fence, depth)
        decreases Length(src) - i
      {
        var d := DecodeAt(Words(src, mem), i, EXECUTOR);
        if d.Truncated? { return BufferTooSmall; }
        var v := Run(d.packet, fence);
        match v {
          case Proceed =>
          case Fail(s) => return s;
          case Descend(pa, n) => var dropped := Process(Mapped(pa, n), fence, depth - 1);
        }
        i := d.next;
      }
      return Success;
    }

    /** SEND_PM4 on the path without a ring. */
    method SendPm4(commands: seq<Word>, count: nat, fence: nat) returns (status: Status)
      requires |commands| == MAX_COMMANDS
      modifies this`mem, this`writes, this`lastFence
      ensures (State(), status) == Submit(dev, old(State()), commands, count, fence)
    {
      if count == 0 || count > MAX_COMMANDS { return InvalidParameter; }
      status := Process(Host(commands[..count]), fence, SW_DEPTH);
      if status == Success {
        lastFence := fence;
      }
    }
  }

  function Submit(dev: Device, m: Machine, commands: seq<Word>, count: nat, fence: nat): (Machine, Status)
    requires |commands| == MAX_COMMANDS
  {
    if count == 0 || count > MAX_COMMANDS then (m, InvalidParameter)
    else
      var (m', status) := Exec(dev, Host(commands[..count]), 0, m, fence, SW_DEPTH);
      (if status == Success then m'.(lastFence := fence) else m', status)
  }
}
