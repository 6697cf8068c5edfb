/** PM4 packets: the builders of the headers and the decoder of the software executor. */
module Pm4 {
  import opened Common
  import opened Masks

  datatype Packet =
    | Type0(base: nat, count: nat, values: seq<Word>)
    | Filler
    | Reserved(header: Word)
    | Type3(op: nat, count: nat, payload: seq<Word>)

  const IT_NOP := 0x10
  const IT_WRITE_DATA := 0x37
  const IT_INDIRECT_BUFFER := 0x3F
  const IT_EVENT_WRITE_EOP := 0x47
  const IT_RELEASE_MEM := 0x49
  const IT_DMA_DATA := 0x50
  const IT_SET_CONFIG_REG := 0x68
  const IT_SET_CONTEXT_REG := 0x69
  const IT_SET_SH_REG := 0x76
  const IT_DISPATCH_DIRECT := 0x15

  // ---- building ------------------------------------------------------------------

  /** PM4_TYPE0_HDR: ((count - 1) << 16) | (base >> 2) */
  function Header0(base: nat, count: nat): nat
    requires count >= 1
  {
    OrBits((count - 1) * 0x10000, base / 4)
  }

  /** PM4_TYPE3_HEADER, and PM4_TYPE3_HDR when the routing bit is left clear. */
  function Header3(op: nat, count: nat, compute: bool): nat
    requires count >= 1
  {
    var typed := OrBits(3 * 0x4000_0000, (count - 1) % 0x4000 * 0x10000);
    OrBits(OrBits(typed, op % 0x100 * 0x100), if compute then 2 else 0)
  }

  const TYPE2_NOP: Word := 0x8000_0000

  /** Or-ing a field into clear bits adds it. */
  lemma {:induction false} OrIntoClear(high: nat, low: nat, n: nat)
    requires low < Pow2(n)
    ensures OrBits(high * Pow2(n), low) == high * Pow2(n) + low
    decreases n
  {
    if n == 0 {
      assert low == 0;
      assert OrBits(high, 0) == high;
    } else {
      var m := high * Pow2(n - 1);
      assert high * Pow2(n) == 2 * m;
      OrHalves(2 * m, low);
      OrIntoClear(high, low / 2, n - 1);
    }
  }

  lemma PowersUsed()
    ensures Pow2(2) == 4 && Pow2(8) == 0x100 && Pow2(16) == 0x10000 && Pow2(30) == 0x4000_0000
  {
    assert Pow2(12) == 0x1000;
    assert Pow2(20) == 0x10_0000;
    assert Pow2(26) == 0x400_0000;
  }

  lemma Header0Value(base: nat, count: nat)
    requires 1 <= count && base / 4 < 0x10000
    ensures Header0(base, count) == (count - 1) * 0x10000 + base / 4
  {
    PowersUsed();
    OrIntoClear(count - 1, base / 4, 16);
  }

  lemma OrCount(c: nat)
    requires c < 0x4000
    ensures OrBits(3 * 0x4000_0000, c * 0x10000) == (0xC000 + c) * 0x10000
  {
    PowersUsed();
    OrIntoClear(3, c * 0x10000, 30);
  }

  lemma OrOpcode(high: nat, op: nat)
    requires op < 0x100
    ensures OrBits(high * 0x10000, op * 0x100) == (high * 0x100 + op) * 0x100
  {
    PowersUsed();
    OrIntoClear(high, op * 0x100, 16);
  }

  lemma OrRouting(high: nat, bit: nat)
    requires bit < 0x100
    ensures OrBits(high * 0x100, bit) == high * 0x100 + bit
  {
    PowersUsed();
    OrIntoClear(high, bit, 8);
  }

  /** The header as a number: type, count, opcode and routing bit in their fields. */
  function Fields(c: nat, op: nat, bit: nat): nat {
    ((0xC000 + c) * 0x100 + op) * 0x100 + bit
  }

  lemma Header3Value(op: nat, count: nat, compute: bool)
    requires 1 <= count <= 0x4000 && op < 0x100
    ensures Header3(op, count, compute) == Fields(count - 1, op, if compute then 2 else 0)
    ensures Header3(op, count, compute) < 0x1_0000_0000
  {
    var c := count - 1;
    assert c % 0x4000 == c && op % 0x100 == op;
    OrCount(c);
    OrOpcode(0xC000 + c, op);
    OrRouting((0xC000 + c) * 0x100 + op, if compute then 2 else 0);
  }

  /** What the builders are used for: aligned register bases, 8-bit opcodes, 14-bit counts. */
  predicate WellFormed(p: Packet) {
    match p
    case Type0(base, count, values) => base % 4 == 0 && base / 4 < 0x10000 && 1 <= count == |values| <= 0x4000
    case Filler => true
    case Reserved(_) => false
    case Type3(op, count, payload) => op < 0x100 && 1 <= count == |payload| <= 0x4000
  }

  function Encode(p: Packet, compute: bool): seq<Word>
    requires WellFormed(p)
  {
    match p
    case Type0(base, count, values) =>
      Header0Value(base, count);
      [Header0(base, count)] + values
    case Filler => [TYPE2_NOP]
    case Type3(op, count, payload) =>
      Header3Value(op, count, compute);
      [Header3(op, count, compute)] + payload
  }

  /** A stream; `routing` says which type 3 headers carry the SHADER_COMPUTE bit. */
  function EncodeAll(ps: seq<Packet>, routing: seq<bool>): seq<Word>
    requires |ps| == |routing| && forall i :: 0 <= i < |ps| ==> WellFormed(ps[i])
    decreases |ps|
  {
    if ps == [] then [] else Encode(ps[0], routing[0]) + EncodeAll(ps[1..], routing[1..])
  }

  // ---- decoding ------------------------------------------------------------------

  /** How many values the count fields take: 2^11 and 2^12 in the executor, while the
      format has 14-bit counts. */
  datatype Widths = Widths(counts0: nat, counts3: nat) {
    predicate Valid() { counts0 > 0 && counts3 > 0 }
  }

  const EXECUTOR := Widths(0x800, 0x1000)
  const FORMAT := Widths(0x4000, 0x4000)

  function TypeOf(h: Word): nat { h / 0x4000_0000 }
  function BaseOf(h: Word): nat { h % 0x10000 * 4 }
  function OpOf(h: Word): nat { h / 0x100 % 0x100 }
  function CountOf(h: Word, counts: nat): nat
    requires counts > 0
  {
    h / 0x10000 % counts + 1
  }

  datatype Decoded = Truncated | Packet(packet: Packet, next: nat)

  function Min(a: nat, b: nat): nat { if a < b then a else b }

  /** One turn of the executor's switch.  A register run that hits the end of the stream
      is cut short, a NOP may claim more than is left, any other type 3 may not. */
  function DecodeAt(words: seq<Word>, i: nat, w: Widths): (d: Decoded)
    requires i < |words| && w.Valid()
    ensures d.Packet? ==> d.next > i
  {
    var h := words[i];
    if TypeOf(h) == 0 then
      var end := Min(|words|, i + 1 + CountOf(h, w.counts0));
      Packet(Type0(BaseOf(h), CountOf(h, w.counts0), words[i + 1..end]), end)
    else if TypeOf(h) == 2 then Packet(Filler, i + 1)
    else if TypeOf(h) == 3 then
      var next := i + 1 + CountOf(h, w.counts3);
      if OpOf(h) != IT_NOP && next > |words| then Truncated
      else Packet(Type3(OpOf(h), CountOf(h, w.counts3), words[i + 1..Min(|words|, next)]), next)
    else Packet(Reserved(h), i + 1)
  }

  /** All packets from `i` on, or `None` when one is truncated. */
  function Walk(words: seq<Word>, i: nat, w: Widths): Option<seq<Packet>>
    requires w.Valid()
    decreases |words| - i
  {
    if i >= |words| then Some([]) else
    match DecodeAt(words, i, w)
    case Truncated => None
    case Packet(p, next) =>
      match Walk(words, next, w)
      case None => None
      case Some(rest) => Some([p] + rest)
  }

  // ---- round trip ----------------------------------------------------------------

  predicate Fits(p: Packet, w: Widths) {
    match p
    case Type0(_, count, _) => count <= w.counts0
    case Type3(_, count, _) => count <= w.counts3
    case _ => true
  }

  lemma FieldsOfSum(c: nat, op: nat, bit: nat, counts: nat)
    requires c < 0x4000 && op < 0x100 && bit < 0x100 && counts in {0x1000, 0x4000}
    ensures var h := Fields(c, op, bit);
      h < 0x1_0000_0000 && TypeOf(h) == 3 && OpOf(h) == op && CountOf(h, counts) == c % counts + 1
  {
    var h := Fields(c, op, bit);
    assert h < 0x1_0000_0000;
    assert h / 0x100 == (0xC000 + c) * 0x100 + op;
    assert h / 0x10000 == 0xC000 + c;
    if counts == 0x1000 {
      assert (0xC000 + c) % 0x1000 == c % 0x1000;
    } else {
      assert (0xC000 + c) % 0x4000 == c % 0x4000;
    }
  }

  ghost predicate DecodesAs(words: seq<Word>, i: nat, w: Widths, p: Packet, size: nat)
    requires i < |words| && w.Valid()
  {
    var d := DecodeAt(words, i, w);
    && (Fits(p, w) ==> d == Decoded.Packet(p, i + size))
    && (!Fits(p, w) ==> d.Truncated? || d.packet != p)
  }

  lemma DecodeType0(before: seq<Word>, base: nat, values: seq<Word>, h: Word, after: seq<Word>, w: Widths)
    requires WellFormed(Type0(base, |values|, values)) && w in {EXECUTOR, FORMAT}
    requires h == (|values| - 1) * 0x10000 + base / 4
    ensures DecodesAs(before + ([h] + values) + after, |before|, w, Type0(base, |values|, values), 1 + |values|)
  {
    var words, i := before + ([h] + values) + after, |before|;
    assert words[i] == h && words[i + 1..i + 1 + |values|] == values;
    assert TypeOf(h) == 0 && BaseOf(h) == base && h / 0x10000 == |values| - 1;
  }

  /** A payload in the middle of a stream. */
  lemma PayloadLies(before: seq<Word>, h: Word, payload: seq<Word>, after: seq<Word>)
    ensures var words, i := before + ([h] + payload) + after, |before|;
      && i < |words| && words[i] == h
      && i + 1 + |payload| <= |words| && words[i + 1..i + 1 + |payload|] == payload
  {
  }

  lemma Remainder(c: nat, counts: nat)
    requires counts > 0
    ensures c < counts ==> c % counts == c
    ensures counts <= c ==> c % counts < c
  {
  }

  lemma DecodeType3(before: seq<Word>, op: nat, payload: seq<Word>, bit: nat, h: Word, after: seq<Word>, w: Widths)
    requires WellFormed(Type3(op, |payload|, payload)) && w in {EXECUTOR, FORMAT}
    requires bit < 0x100 && h == Fields(|payload| - 1, op, bit)
    ensures DecodesAs(before + ([h] + payload) + after, |before|, w, Type3(op, |payload|, payload), 1 + |payload|)
  {
    hide TypeOf, OpOf, CountOf, Fields;
    PayloadLies(before, h, payload, after);
    FieldsOfSum(|payload| - 1, op, bit, w.counts3);
    Remainder(|payload| - 1, w.counts3);
    DecodesType3(before + ([h] + payload) + after, |before|, op, payload, w);
  }

  lemma DecodesType3(words: seq<Word>, i: nat, op: nat, payload: seq<Word>, w: Widths)
    requires w.Valid() && i < |words| && TypeOf(words[i]) == 3 && OpOf(words[i]) == op
    requires i + 1 + |payload| <= |words| && words[i + 1..i + 1 + |payload|] == payload
    requires |payload| <= w.counts3 ==> CountOf(words[i], w.counts3) == |payload|
    requires |payload| > w.counts3 ==> CountOf(words[i], w.counts3) < |payload|
    ensures DecodesAs(words, i, w, Type3(op, |payload|, payload), 1 + |payload|)
  {
    hide TypeOf, OpOf, CountOf;
  }

  lemma DecodeFiller(before: seq<Word>, after: seq<Word>, w: Widths)
    requires w.Valid()
    ensures DecodesAs(before + [TYPE2_NOP] + after, |before|, w, Filler, 1)
  {
    assert (before + [TYPE2_NOP] + after)[|before|] == TYPE2_NOP;
  }

  /** Decoding at the start of an encoded packet gives that packet back exactly when its
      count fits; the routing bit plays no part. */
  lemma DecodeEncoded(before: seq<Word>, p: Packet, compute: bool, after: seq<Word>, w: Widths)
    requires WellFormed(p) && w in {EXECUTOR, FORMAT}
    ensures DecodesAs(before + Encode(p, compute) + after, |before|, w, p, |Encode(p, compute)|)
  {
    hide DecodesAs, Header0, Header3, Fields;
    match p
    case Type0(base, count, values) =>
      Header0Value(base, count);
      DecodeType0(before, base, values, Header0(base, count), after, w);
    case Filler =>
      DecodeFiller(before, after, w);
    case Type3(op, count, payload) =>
      Header3Value(op, count, compute);
      DecodeType3(before, op, payload, if compute then 2 else 0, Header3(op, count, compute), after, w);
  }

  lemma WalkOne(words: seq<Word>, i: nat, w: Widths, p: Packet, size: nat, rest: seq<Packet>)
    requires i < |words| && w.Valid() && DecodesAs(words, i, w, p, size)
    ensures Walk(words, i, w) == Some([p] + rest) <==> Fits(p, w) && Walk(words, i + size, w) == Some(rest)
  {
    hide TypeOf, OpOf, CountOf, BaseOf;
    match DecodeAt(words, i, w)
    case Truncated =>
    case Packet(q, next) =>
      if Walk(words, next, w).Some? {
        var tail := Walk(words, next, w).value;
        assert ([q] + tail)[0] == q && ([q] + tail)[1..] == tail;
        assert ([p] + rest)[0] == p && ([p] + rest)[1..] == rest;
      }
  }

  ghost predicate AllFit(ps: seq<Packet>, w: Widths) {
    forall i :: 0 <= i < |ps| ==> Fits(ps[i], w)
  }

  lemma AllFitCons(p: Packet, tail: seq<Packet>, w: Widths)
    ensures AllFit([p] + tail, w) <==> Fits(p, w) && AllFit(tail, w)
  {
    var ps := [p] + tail;
    assert forall i :: 0 < i < |ps| ==> ps[i] == tail[i - 1];
    if AllFit(ps, w) {
      assert ps[0] == p && forall i :: 0 <= i < |tail| ==> tail[i] == ps[i + 1];
    }
  }

  lemma WalkCons(words: seq<Word>, i: nat, w: Widths, p: Packet, size: nat, tail: seq<Packet>)
    requires i < |words| && w.Valid() && DecodesAs(words, i, w, p, size)
    requires Walk(words, i + size, w) == Some(tail) <==> AllFit(tail, w)
    ensures Walk(words, i, w) == Some([p] + tail) <==> AllFit([p] + tail, w)
  {
    WalkOne(words, i, w, p, size, tail);
    AllFitCons(p, tail, w);
  }

  lemma WalkEnd(words: seq<Word>, w: Widths)
    requires w.Valid()
    ensures Walk(words, |words|, w) == Some([])
  {
  }

  lemma EncodeIsNotEmpty(p: Packet, compute: bool)
    requires WellFormed(p)
    ensures |Encode(p, compute)| >= 1
  {
  }

  lemma EncodeAllUnfolds(ps: seq<Packet>, routing: seq<bool>)
    requires |ps| == |routing| && ps != [] && forall i :: 0 <= i < |ps| ==> WellFormed(ps[i])
    ensures EncodeAll(ps, routing) == Encode(ps[0], routing[0]) + EncodeAll(ps[1..], routing[1..])
  {
  }

  lemma NothingEncoded()
    ensures EncodeAll([], []) == []
  {
  }

  lemma {:induction false} WalkEncoded(before: seq<Word>, ps: seq<Packet>, routing: seq<bool>, w: Widths)
    requires |ps| == |routing| && (forall i :: 0 <= i < |ps| ==> WellFormed(ps[i])) && w in {EXECUTOR, FORMAT}
    ensures Walk(before + EncodeAll(ps, routing), |before|, w) == Some(ps) <==> AllFit(ps, w)
    decreases |ps|
  {
    hide Walk, DecodeAt, DecodesAs, Fits, WellFormed, Encode, EncodeAll;
    if ps == [] {
      WalkEnd(before, w);
      NothingEncoded();
      assert before + [] == before;
    } else {
      EncodeAllUnfolds(ps, routing);
      EncodeIsNotEmpty(ps[0], routing[0]);
      var p, code, tail := ps[0], Encode(ps[0], routing[0]), ps[1..];
      var rest := EncodeAll(tail, routing[1..]);
      var words := before + EncodeAll(ps, routing);
      assert words == before + code + rest;
      assert ps == [p] + tail;
      DecodeEncoded(before, p, routing[0], rest, w);
      WalkEncoded(before + code, tail, routing[1..], w);
      WalkCons(words, |before|, w, p, |code|, tail);
    }
  }

  /** The executor gets back the packets of a built stream exactly when no register run
      has more than 2048 values and no type 3 payload more than 4096. */
  lemma ExecutorRoundTripIff(ps: seq<Packet>, routing: seq<bool>)
    requires |ps| == |routing| && forall i :: 0 <= i < |ps| ==> WellFormed(ps[i])
    ensures Walk(EncodeAll(ps, routing), 0, EXECUTOR) == Some(ps)
            <==> AllFit(ps, EXECUTOR)
  {
    WalkEncoded([], ps, routing, EXECUTOR);
    assert [] + EncodeAll(ps, routing) == EncodeAll(ps, routing);
  }

  /** With the format's own 14-bit counts every well-formed stream comes back. */
  lemma FormatRoundTrip(ps: seq<Packet>, routing: seq<bool>)
    requires |ps| == |routing| && forall i :: 0 <= i < |ps| ==> WellFormed(ps[i])
    ensures Walk(EncodeAll(ps, routing), 0, FORMAT) == Some(ps)
  {
    WalkEncoded([], ps, routing, FORMAT);
    assert [] + EncodeAll(ps, routing) == EncodeAll(ps, routing);
  }
}
