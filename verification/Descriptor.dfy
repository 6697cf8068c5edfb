/** The 16-byte command descriptor of the PS5 loader.  Read as four little-endian words it is
    an INDIRECT_BUFFER packet, so the software executor can run it. */
module Descriptor {
  import opened Common
  import opened Masks
  import opened Pm4
  import opened Executor

  const TWO_32: nat := 0x1_0000_0000
  const DESC_OPCODE: nat := 0xC002_3F00

  /** The packet a descriptor for `bytes` bytes at `addr` amounts to: 48 address bits and 20
      size bits survive. */
  function AsPacket(addr: nat, bytes: Word): Packet {
    Type3(IT_INDIRECT_BUFFER, 3, [ToU32(addr), addr / TWO_32 % 0x10000, bytes / 4 % 0x10_0000])
  }

  function Dwords(word0: nat, word1: nat): seq<nat> {
    [word0 % TWO_32, word0 / TWO_32, word1 % TWO_32, word1 / TWO_32]
  }

  lemma OrHighLow(high: nat, low: Word)
    ensures OrBits(high * TWO_32, low) == high * TWO_32 + low
  {
    WordIs32Bits();
    OrIntoClear(high, low, 32);
  }

  lemma OpcodeIsHeader()
    ensures Header3(IT_INDIRECT_BUFFER, 3, false) == DESC_OPCODE
  {
    Header3Value(IT_INDIRECT_BUFFER, 3, false);
  }

  lemma HighLow(high: nat, low: Word)
    ensures (high * TWO_32 + low) % TWO_32 == low && (high * TWO_32 + low) / TWO_32 == high
  {
  }

  /** gpu_build_cmd_descriptor: the two 64-bit words are the four words of the packet. */
  method BuildCmdDescriptor(addr: nat, bytes: Word) returns (word0: nat, word1: nat)
    requires addr < TWO_32 * TWO_32
    ensures Dwords(word0, word1) == Encode(AsPacket(addr, bytes), false)
  {
    hide OrBits, Header3;
    var sizeDwords := bytes / 4;
    word0 := OrBits(addr % TWO_32 * TWO_32, DESC_OPCODE);
    word1 := OrBits(sizeDwords % 0x10_0000 * TWO_32, addr / TWO_32 % 0x10000);
    OrHighLow(addr % TWO_32, DESC_OPCODE);
    OrHighLow(sizeDwords % 0x10_0000, addr / TWO_32 % 0x10000);
    HighLow(addr % TWO_32, DESC_OPCODE);
    HighLow(sizeDwords % 0x10_0000, addr / TWO_32 % 0x10000);
    OpcodeIsHeader();
  }

  const TWO_48: nat := 0x1_0000_0000_0000

  lemma RoundDown(k: nat, lo: nat)
    ensures (4 * k + lo) / 4 * 4 == 4 * k + lo / 4 * 4
  {
  }

  lemma Below48(q: nat, r: nat)
    requires r < TWO_48
    ensures (q * TWO_48 + r) % TWO_48 == r
  {
  }

  lemma AddressParts(addr: nat)
    requires addr < TWO_32 * TWO_32
    ensures Wide(ToU32(addr) / 4 * 4, addr / TWO_32 % 0x10000) == addr / 4 * 4 % TWO_48
  {
    var lo, hi := addr % TWO_32, addr / TWO_32;
    var q, h := hi / 0x10000, hi % 0x10000;
    assert hi == q * 0x10000 + h;
    assert addr == q * TWO_48 + h * TWO_32 + lo;
    RoundDown(q * 0x4000_0000_0000 + h * 0x4000_0000, lo);
    Below48(q, h * TWO_32 + lo / 4 * 4);
  }

  /** The executor descends into exactly the buffer the descriptor was built for if and only
      if its address has 48 bits, it has between 1 and 4096 words and it can be mapped. */
  lemma DescriptorRunsIff(dev: Device, m: Machine, addr: nat, bytes: Word, fence: nat)
    requires addr < TWO_32 * TWO_32
    ensures Execute(dev, m, AsPacket(addr, bytes), fence) == Call(addr / 4 * 4, bytes / 4)
            <==> addr < TWO_48 && 0 < bytes / 4 <= 4096 && dev.ioMap(addr / 4 * 4, bytes / 4 * 4)
  {
    hide Wide;
    AddressParts(addr);
    var n := bytes / 4 % 0x10_0000;
    var pa := addr / 4 * 4 % TWO_48;
    assert Execute(dev, m, AsPacket(addr, bytes), fence) ==
      if 0 < n <= 4096 && dev.ioMap(pa, n * 4) then Call(pa, n) else Go(m);
  }
}
