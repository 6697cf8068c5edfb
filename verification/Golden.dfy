/** Golden register programming (bar5-golden-test --write). */
module Golden {
  import opened Common
  import opened Masks

  /** Present registers only: a read elsewhere fails and reads all-ones, a write is lost. */
  type Regs = map<nat, Word>

  function Read(regs: Regs, a: nat): Word {
    if a in regs then regs[a] else ALL_ONES
  }

  function Write(regs: Regs, a: nat, v: Word): Regs {
    if a in regs then regs[a := v] else regs
  }

  const GC_BASE := 0x1260
  const GC_BASE_SEG1 := 0xA000
  const GRBM_GFX_INDEX_LIVE := 0x34D0
  const GRBM_GFX_INDEX_BRDCST: Word := 0xE0000000
  const GB_ADDR_CONFIG_HW := 0x9800
  const GB_ADDR_CONFIG_MM := 0x61D8

  /** The names of the table; the tool singles out two of them. */
  datatype RegName =
    | GRBM_GFX_INDEX | GE_FAST_CLKS | CGTT_CPF_CLK_CTRL | CGTT_SPI_CLK_CTRL | CB_HW_CONTROL_3
    | CB_HW_CONTROL_4 | CH_DRAM_BURST_CTRL | CH_PIPE_STEER | CH_VC5_ENABLE | CP_SD_CNTL | DB_DEBUG
    | DB_DEBUG3 | DB_DEBUG4 | DB_LAST_OF_BURST_CONFIG | GB_ADDR_CONFIG | GCR_GENERAL_CNTL
    | GCMC_VM_CACHEABLE_DRAM_ADDRESS_END | GL1_DRAM_BURST_CTRL | GL1_PIPE_STEER | GL2_PIPE_STEER_0
    | GL2_PIPE_STEER_1 | GL2A_ADDR_MATCH_MASK | GL2C_ADDR_MATCH_MASK | GL2C_CGTT_SCLK_CTRL | GL2C_CTRL2
    | GL2C_CTRL3 | PA_SC_ENHANCE | PA_SC_BINNER_EVENT_CNTL_0 | PA_SC_LINE_STIPPLE_STATE | RMI_SPARE
    | SQ_ARB_CONFIG | SQ_LDS_CLK_CTRL | TA_CNTL_AUX | UTCL1_CTRL

  datatype GoldenReg = GoldenReg(name: RegName, mm: nat, baseIdx: nat, andMask: Word, orVal: Word) {

    function Addr0(): nat { GC_BASE + mm * 4 }
    function Addr1(): nat { GC_BASE_SEG1 + mm * 4 }

    predicate IsGrbm() { name == GRBM_GFX_INDEX }
    predicate IsGbAddrConfig() { name == GB_ADDR_CONFIG }

    /** The alias that is used if it reads alive, and the one used otherwise. */
    function Preferred(): nat {
      if IsGbAddrConfig() then GB_ADDR_CONFIG_HW else if baseIdx == 1 then Addr1() else Addr0()
    }
    function Fallback(): nat {
      if IsGbAddrConfig() then GB_ADDR_CONFIG_MM else Addr0()
    }

    /** The value programmed over `v`. */
    function Target(v: Word): Word {
      Merge(andMask, orVal, v)
    }
  }

  function Choose(regs: Regs, g: GoldenReg): nat {
    if Read(regs, g.Preferred()) != ALL_ONES then g.Preferred() else g.Fallback()
  }

  // ---- specification of a pass ---------------------------------------------------

  /** One entry.  The GRBM entry is skipped: its register is written before the table. */
  function ApplyOne(regs: Regs, g: GoldenReg): Regs {
    if g.IsGrbm() then regs
    else Write(regs, Choose(regs, g), g.Target(Read(regs, Choose(regs, g))))
  }

  function ApplyTable(regs: Regs, table: seq<GoldenReg>): Regs {
    if table == [] then regs else ApplyTable(ApplyOne(regs, table[0]), table[1..])
  }

  function Broadcast(regs: Regs): Regs {
    Write(regs, GRBM_GFX_INDEX_LIVE, GRBM_GFX_INDEX_BRDCST)
  }

  /** The addresses a pass picks, entry by entry, each from the state it meets. */
  function Choices(regs: Regs, table: seq<GoldenReg>): seq<nat> {
    if table == [] then []
    else if table[0].IsGrbm() then Choices(regs, table[1..])
    else [Choose(regs, table[0])] + Choices(ApplyOne(regs, table[0]), table[1..])
  }

  ghost predicate Distinct(addrs: seq<nat>) {
    forall i, j :: 0 <= i < j < |addrs| ==> addrs[i] != addrs[j]
  }

  /** Entries that take part. */
  function Live(table: seq<GoldenReg>): seq<GoldenReg> {
    if table == [] then []
    else if table[0].IsGrbm() then Live(table[1..])
    else [table[0]] + Live(table[1..])
  }

  lemma {:induction false} PassKeepsKeys(regs: Regs, table: seq<GoldenReg>)
    ensures ApplyTable(regs, table).Keys == regs.Keys
    ensures |Choices(regs, table)| == |Live(table)|
    decreases |table|
  {
    if table != [] {
      PassKeepsKeys(ApplyOne(regs, table[0]), table[1..]);
    }
  }

  lemma {:induction false} PassFrame(regs: Regs, table: seq<GoldenReg>, a: nat)
    requires a !in Choices(regs, table)
    ensures Read(ApplyTable(regs, table), a) == Read(regs, a)
    decreases |table|
  {
    if table != [] {
      PassFrame(ApplyOne(regs, table[0]), table[1..], a);
    }
  }

  lemma PassUnfolds(regs: Regs, table: seq<GoldenReg>)
    requires table != []
    ensures var g, rest := table[0], table[1..];
      && ApplyTable(regs, table) == ApplyTable(ApplyOne(regs, g), rest)
      && Choices(regs, table) == (if g.IsGrbm() then [] else [Choose(regs, g)]) + Choices(ApplyOne(regs, g), rest)
      && Live(table) == (if g.IsGrbm() then [] else [g]) + Live(rest)
  {
    PassStep(regs, table, 0);
    assert table[0..] == table;
  }

  lemma ApplyOneValue(regs: Regs, g: GoldenReg)
    requires !g.IsGrbm() && Choose(regs, g) in regs
    ensures Read(ApplyOne(regs, g), Choose(regs, g)) == g.Target(Read(regs, Choose(regs, g)))
  {
    hide Choose;
  }

  lemma DistinctCons(c: nat, tail: seq<nat>)
    requires Distinct([c] + tail)
    ensures Distinct(tail) && c !in tail
  {
    var cs := [c] + tail;
    assert forall k :: 0 <= k < |tail| ==> tail[k] == cs[k + 1];
    assert cs[0] == c;
  }

  lemma {:induction false} PassValue(regs: Regs, table: seq<GoldenReg>, i: nat)
    requires Distinct(Choices(regs, table))
    requires |Choices(regs, table)| == |Live(table)| && i < |Live(table)|
    ensures var a := Choices(regs, table)[i];
      a in regs ==> Read(ApplyTable(regs, table), a) == Live(table)[i].Target(Read(regs, a))
    decreases |table|
  {
    if table == [] {
      assert false;
    } else {
      PassUnfolds(regs, table);
      hide ApplyTable, Choices, Live, ApplyOne, Choose, Distinct, Read;
      var g, rest := table[0], table[1..];
      var regs1 := ApplyOne(regs, g);
      var tail := Choices(regs1, rest);
      PassKeepsKeys(regs1, rest);
      if g.IsGrbm() {
        GrbmSkipped(regs, g);
        assert [] + tail == tail && [] + Live(rest) == Live(rest);
        PassValue(regs, rest, i);
      } else {
        var c := Choose(regs, g);
        DistinctCons(c, tail);
        if i == 0 {
          PassFrame(regs1, rest, c);
          if c in regs {
            ApplyOneValue(regs, g);
          }
        } else {
          PassValue(regs1, rest, i - 1);
          ElsewhereSame(regs, g, tail[i - 1]);
        }
      }
    }
  }

  lemma GrbmSkipped(regs: Regs, g: GoldenReg)
    requires g.IsGrbm()
    ensures ApplyOne(regs, g) == regs
  {
  }

  lemma ElsewhereSame(regs: Regs, g: GoldenReg, a: nat)
    requires a != Choose(regs, g)
    ensures Read(ApplyOne(regs, g), a) == Read(regs, a)
    ensures a in ApplyOne(regs, g) <==> a in regs
  {
    hide Choose;
  }

  /** For every register file and every table whose chosen addresses are distinct: each
      present chosen register ends with its masked bits equal to orVal & andMask and its
      other bits as they were, and no other register changes. */
  lemma PassCorrect(regs: Regs, table: seq<GoldenReg>)
    requires Distinct(Choices(regs, table))
    ensures |Choices(regs, table)| == |Live(table)|
    ensures forall i :: 0 <= i < |Live(table)| && Choices(regs, table)[i] in regs ==>
      Merged(Live(table)[i].andMask, Live(table)[i].orVal, Read(regs, Choices(regs, table)[i]),
             Read(ApplyTable(regs, table), Choices(regs, table)[i]))
    ensures forall a :: a !in Choices(regs, table) ==> Read(ApplyTable(regs, table), a) == Read(regs, a)
    ensures ApplyTable(regs, table).Keys == regs.Keys
  {
    PassKeepsKeys(regs, table);
    forall a | a !in Choices(regs, table) ensures Read(ApplyTable(regs, table), a) == Read(regs, a) {
      PassFrame(regs, table, a);
    }
    forall i | 0 <= i < |Live(table)| && Choices(regs, table)[i] in regs
      ensures Merged(Live(table)[i].andMask, Live(table)[i].orVal, Read(regs, Choices(regs, table)[i]),
                     Read(ApplyTable(regs, table), Choices(regs, table)[i]))
    {
      PassValue(regs, table, i);
      var g, v := Live(table)[i], Read(regs, Choices(regs, table)[i]);
      MergedIff(g.andMask, g.orVal, v, g.Target(v));
    }
  }

  // ---- tables whose entries cannot meet ------------------------------------------

  predicate Touches(g: GoldenReg, a: nat) {
    !g.IsGrbm() && (a == g.Preferred() || a == g.Fallback())
  }

  /** No two entries share an alias. */
  ghost predicate Separate(table: seq<GoldenReg>) {
    forall i, j, a :: 0 <= i < j < |table| && Touches(table[i], a) ==> !Touches(table[j], a)
  }

  /** Reference definition: what one address holds after the pass, straight from the
      initial state. */
  ghost predicate EndsAs(regs: Regs, table: seq<GoldenReg>, a: nat, v: Word) {
    if exists g :: g in table && !g.IsGrbm() && Choose(regs, g) == a && a in regs
    then exists g :: g in table && !g.IsGrbm() && Choose(regs, g) == a && v == g.Target(Read(regs, a))
    else v == Read(regs, a)
  }

  lemma ApplyOneFrame(regs: Regs, g: GoldenReg, a: nat)
    ensures !Touches(g, a) ==> Read(ApplyOne(regs, g), a) == Read(regs, a)
    ensures ApplyOne(regs, g).Keys == regs.Keys
  {
  }

  /** With separate entries each choice is the one the initial state dictates, so a pass
      computes the reference definition. */
  lemma {:induction false} PassIsPointwise(regs: Regs, table: seq<GoldenReg>, a: nat)
    requires Separate(table)
    ensures EndsAs(regs, table, a, Read(ApplyTable(regs, table), a))
    decreases |table|
  {
    if table != [] {
      var g, rest := table[0], table[1..];
      var regs1 := ApplyOne(regs, g);
      assert Separate(rest) by {
        forall i, j, b | 0 <= i < j < |rest| && Touches(rest[i], b) ensures !Touches(rest[j], b) {
          assert rest[i] == table[i + 1] && rest[j] == table[j + 1];
        }
      }
      PassIsPointwise(regs1, rest, a);
      forall h | h in rest && !h.IsGrbm()
        ensures Choose(regs1, h) == Choose(regs, h)
        ensures !g.IsGrbm() ==> Choose(regs, h) != Choose(regs, g)
        ensures Read(regs1, Choose(regs, h)) == Read(regs, Choose(regs, h))
      {
        var k :| 0 <= k < |rest| && rest[k] == h;
        assert table[k + 1] == h;
        assert Touches(h, h.Preferred()) && Touches(h, h.Fallback());
        assert !Touches(g, h.Preferred()) && !Touches(g, h.Fallback());
        ApplyOneFrame(regs, g, h.Preferred());
        ApplyOneFrame(regs, g, h.Fallback());
        if !g.IsGrbm() { assert Touches(g, Choose(regs, g)); }
      }
      ApplyOneFrame(regs, g, a);
      PointwiseStep(regs, g, rest, a, Read(ApplyTable(regs, table), a));
    }
  }

  lemma PointwiseStep(regs: Regs, g: GoldenReg, rest: seq<GoldenReg>, a: nat, v: Word)
    requires EndsAs(ApplyOne(regs, g), rest, a, v)
    requires forall h :: h in rest && !h.IsGrbm() ==>
      Choose(ApplyOne(regs, g), h) == Choose(regs, h)
      && (!g.IsGrbm() ==> Choose(regs, h) != Choose(regs, g))
      && Read(ApplyOne(regs, g), Choose(regs, h)) == Read(regs, Choose(regs, h))
    ensures EndsAs(regs, [g] + rest, a, v)
  {
    var regs1, table := ApplyOne(regs, g), [g] + rest;
    assert forall h :: h in table <==> h == g || h in rest;
    if h :| h in rest && !h.IsGrbm() && Choose(regs, h) == a && a in regs {
      assert Choose(regs1, h) == a && a in regs1;
      var h' :| h' in rest && !h'.IsGrbm() && Choose(regs1, h') == a && v == h'.Target(Read(regs1, a));
      assert h' in table && Choose(regs, h') == a && v == h'.Target(Read(regs, a));
    } else {
      assert !exists h :: h in rest && !h.IsGrbm() && Choose(regs1, h) == a && a in regs1;
      assert v == Read(regs1, a);
      if !g.IsGrbm() && Choose(regs, g) == a && a in regs {
        assert g in table && v == g.Target(Read(regs, a));
      }
    }
  }

  lemma SeparateChoice(regs: Regs, table: seq<GoldenReg>, g: GoldenReg, h: GoldenReg, a: nat)
    requires Separate(table) && g in table && h in table && Touches(g, a) && Touches(h, a)
    ensures g == h
  {
    var i :| 0 <= i < |table| && table[i] == g;
    var j :| 0 <= j < |table| && table[j] == h;
  }

  /** Separate entries: the order of the table does not matter. */
  lemma OrderIndependent(regs: Regs, table: seq<GoldenReg>, other: seq<GoldenReg>)
    requires Separate(table) && multiset(table) == multiset(other)
    ensures ApplyTable(regs, other) == ApplyTable(regs, table)
  {
    SeparatePermutes(table, other);
    var r, r' := ApplyTable(regs, table), ApplyTable(regs, other);
    PassKeepsKeys(regs, table);
    PassKeepsKeys(regs, other);
    forall a | a in r ensures r[a] == r'[a] {
      PassIsPointwise(regs, table, a);
      PassIsPointwise(regs, other, a);
      assert forall g :: g in table <==> g in other by {
        assert forall g :: g in table <==> g in multiset(table);
        assert forall g :: g in other <==> g in multiset(other);
      }
      forall g, h | g in table && h in table && !g.IsGrbm() && !h.IsGrbm()
                    && Choose(regs, g) == a && Choose(regs, h) == a
        ensures g == h
      {
        SeparateChoice(regs, table, g, h, a);
      }
    }
  }

  lemma SeparatePermutes(table: seq<GoldenReg>, other: seq<GoldenReg>)
    requires Separate(table) && multiset(table) == multiset(other)
    ensures Separate(other)
  {
    forall i, j, a | 0 <= i < j < |other| && Touches(other[i], a) ensures !Touches(other[j], a) {
      if Touches(other[j], a) {
        var g, h := other[i], other[j];
        assert g in multiset(other) && h in multiset(other);
        assert g in table && h in table;
        SeparateChoice(map[], table, g, h, a);
        TwiceMeansTwo(other, i, j);
        TwoMeansTwice(table, g);
      }
    }
  }

  lemma TwiceMeansTwo(s: seq<GoldenReg>, i: nat, j: nat)
    requires i < j < |s| && s[i] == s[j]
    ensures multiset(s)[s[i]] >= 2
  {
    assert s == s[..j] + s[j..];
    assert s[i] in s[..j] && s[j] in s[j..];
  }

  lemma {:induction false} TwoMeansTwice(s: seq<GoldenReg>, g: GoldenReg)
    requires multiset(s)[g] >= 2
    ensures exists i, j :: 0 <= i < j < |s| && s[i] == g && s[j] == g
    decreases |s|
  {
    var rest := s[1..];
    assert s == [s[0]] + rest;
    if s[0] == g {
      assert g in multiset(rest);
      var k :| 0 <= k < |rest| && rest[k] == g;
      assert s[k + 1] == g;
    } else {
      TwoMeansTwice(rest, g);
      var i, j :| 0 <= i < j < |rest| && rest[i] == g && rest[j] == g;
      assert s[i + 1] == g && s[j + 1] == g;
    }
  }

  /** Separate entries choose distinct addresses, whatever reads alive. */
  lemma {:induction false} SeparateChoosesDistinct(regs: Regs, table: seq<GoldenReg>)
    requires Separate(table)
    ensures Distinct(Choices(regs, table))
    ensures forall a :: a in Choices(regs, table) ==> exists g :: g in table && Touches(g, a)
    decreases |table|
  {
    if table != [] {
      var g, rest := table[0], table[1..];
      assert Separate(rest) by {
        forall i, j, b | 0 <= i < j < |rest| && Touches(rest[i], b) ensures !Touches(rest[j], b) {
          assert rest[i] == table[i + 1] && rest[j] == table[j + 1];
        }
      }
      SeparateChoosesDistinct(ApplyOne(regs, g), rest);
      var tail := Choices(ApplyOne(regs, g), rest);
      if !g.IsGrbm() {
        assert Touches(g, Choose(regs, g));
        forall a | a in tail ensures a != Choose(regs, g) {
          var h :| h in rest && Touches(h, a);
          var k :| 0 <= k < |rest| && rest[k] == h;
          assert table[k + 1] == h;
        }
        assert Choices(regs, table) == [Choose(regs, g)] + tail;
        assert forall k :: 0 <= k < |tail| ==> tail[k] in tail;
      } else {
        assert Choices(regs, table) == tail;
      }
    }
  }

  // ---- running the tool twice ----------------------------------------------------

  /** The first pass turns the preferred alias into all-ones, so the second takes it for
      dead and programs the other alias, which does not hold the golden value yet. */
  predicate Retargets(regs: Regs, g: GoldenReg) {
    && !g.IsGrbm()
    && g.Preferred() != g.Fallback()
    && Read(regs, g.Preferred()) != ALL_ONES
    && g.Target(Read(regs, g.Preferred())) == ALL_ONES
    && g.Fallback() in regs
    && g.Target(Read(regs, g.Fallback())) != Read(regs, g.Fallback())
  }

  /** What a pass does to an entry's own aliases. */
  lemma OwnAliases(regs: Regs, table: seq<GoldenReg>, g: GoldenReg, a: nat)
    requires Separate(table) && g in table && Touches(g, a)
    ensures Read(ApplyTable(regs, table), a)
         == if a == Choose(regs, g) && a in regs then g.Target(Read(regs, a)) else Read(regs, a)
  {
    PassIsPointwise(regs, table, a);
    forall h | h in table && !h.IsGrbm() && Choose(regs, h) == a ensures h == g {
      SeparateChoice(regs, table, g, h, a);
    }
  }

  lemma SecondVisit(regs: Regs, table: seq<GoldenReg>, g: GoldenReg)
    requires Separate(table) && g in table && !g.IsGrbm()
    ensures var r1 := ApplyTable(regs, table);
      var c := Choose(r1, g);
      c in regs && g.Target(Read(r1, c)) != Read(r1, c) <==> Retargets(regs, g)
  {
    assert Touches(g, g.Preferred()) && Touches(g, g.Fallback());
    OwnAliases(regs, table, g, g.Preferred());
    OwnAliases(regs, table, g, g.Fallback());
    MergeTwice(g.andMask, g.orVal, Read(regs, Choose(regs, g)));
  }

  /** Running the tool again changes nothing exactly when no entry retargets. */
  lemma RerunIff(regs: Regs, table: seq<GoldenReg>)
    requires Separate(table)
    ensures ApplyTable(ApplyTable(regs, table), table) == ApplyTable(regs, table)
            <==> forall g :: g in table ==> !Retargets(regs, g)
  {
    var r1 := ApplyTable(regs, table);
    var r2 := ApplyTable(r1, table);
    PassKeepsKeys(regs, table);
    PassKeepsKeys(r1, table);
    if g :| g in table && Retargets(regs, g) {
      SecondVisit(regs, table, g);
      var c := Choose(r1, g);
      assert Touches(g, c);
      OwnAliases(r1, table, g, c);
      assert Read(r2, c) != Read(r1, c);
    } else {
      forall a | a in r1 ensures r2[a] == r1[a] {
        PassIsPointwise(r1, table, a);
        forall h | h in table && !h.IsGrbm() && Choose(r1, h) == a ensures h.Target(Read(r1, a)) == Read(r1, a) {
          SecondVisit(regs, table, h);
        }
      }
    }
  }

  /** One whole run of the tool. */
  function Tool(regs: Regs, table: seq<GoldenReg>): Regs {
    ApplyTable(Broadcast(regs), table)
  }

  /** The same for whole runs, broadcast write included. */
  lemma ToolTwiceIff(regs: Regs, table: seq<GoldenReg>)
    requires Separate(table) && forall g :: g in table ==> !Touches(g, GRBM_GFX_INDEX_LIVE)
    ensures Tool(Tool(regs, table), table) == Tool(regs, table)
            <==> forall g :: g in table ==> !Retargets(Broadcast(regs), g)
  {
    var start := Broadcast(regs);
    SeparateChoosesDistinct(start, table);
    PassFrame(start, table, GRBM_GFX_INDEX_LIVE);
    PassKeepsKeys(start, table);
    assert Broadcast(ApplyTable(start, table)) == ApplyTable(start, table);
    RerunIff(start, table);
  }

  /** The choice by addresses: for GB_ADDR_CONFIG 0x9800 while it reads alive, for an entry of
      segment 1 its address there while that reads alive, else the address in segment 0. */
  lemma ChooseByAddress(regs: Regs, g: GoldenReg)
    ensures Choose(regs, g) ==
      if g.name == GB_ADDR_CONFIG then (if Read(regs, 0x9800) != 0xFFFF_FFFF then 0x9800 else 0x61D8)
      else if g.baseIdx == 1 && Read(regs, 0xA000 + 4 * g.mm) != 0xFFFF_FFFF then 0xA000 + 4 * g.mm
      else 0x1260 + 4 * g.mm
  {
    hide Read;
  }

  ghost predicate LeavesSelect(table: seq<GoldenReg>) {
    Separate(table) && forall g :: g in table ==> !Touches(g, 0x34D0)
  }

  /** A run of the tool leaves the broadcast select in place and every other register as the pass
      over the table alone would. */
  lemma ToolSelects(regs: Regs, table: seq<GoldenReg>, a: nat)
    requires LeavesSelect(table)
    ensures Read(Tool(regs, table), 0x34D0) == if 0x34D0 in regs then 0xE000_0000 else 0xFFFF_FFFF
    ensures a != 0x34D0 ==> Read(Tool(regs, table), a) == Read(ApplyTable(regs, table), a)
    ensures Tool(regs, table).Keys == regs.Keys
  {
    var start := Broadcast(regs);
    SeparateChoosesDistinct(start, table);
    assert 0x34D0 !in Choices(start, table);
    PassFrame(start, table, 0x34D0);
    PassKeepsKeys(start, table);
    if a != 0x34D0 {
      SameElsewhere(regs, start, table, a);
    }
  }

  /** A pass looks at, and changes, its own aliases only. */
  lemma {:induction false} SameElsewhere(r: Regs, s: Regs, table: seq<GoldenReg>, a: nat)
    requires forall g :: g in table ==> !Touches(g, 0x34D0)
    requires a != 0x34D0 && r.Keys == s.Keys && forall b :: b != 0x34D0 ==> Read(r, b) == Read(s, b)
    ensures Read(ApplyTable(r, table), a) == Read(ApplyTable(s, table), a)
    decreases |table|
  {
    if table != [] {
      var g := table[0];
      SameOne(r, s, g);
      SameElsewhere(ApplyOne(r, g), ApplyOne(s, g), table[1..], a);
    }
  }

  lemma SameOne(r: Regs, s: Regs, g: GoldenReg)
    requires !Touches(g, 0x34D0) && r.Keys == s.Keys && forall b :: b != 0x34D0 ==> Read(r, b) == Read(s, b)
    ensures ApplyOne(r, g).Keys == ApplyOne(s, g).Keys
    ensures forall b :: b != 0x34D0 ==> Read(ApplyOne(r, g), b) == Read(ApplyOne(s, g), b)
  {
    if !g.IsGrbm() {
      assert g.Preferred() != 0x34D0 && g.Fallback() != 0x34D0;
      var c := Choose(r, g);
      assert Choose(s, g) == c && c != 0x34D0;
      hide Choose;
      forall b | b != 0x34D0 ensures Read(ApplyOne(r, g), b) == Read(ApplyOne(s, g), b) {
        if b != c {
          ElsewhereSame(r, g, b);
          ElsewhereSame(s, g, b);
        } else if c in r {
          ApplyOneValue(r, g);
          ApplyOneValue(s, g);
        }
      }
    }
  }

  // ---- the shipped table ---------------------------------------------------------

  const COUNT: nat := 34

  function Entry(i: nat): GoldenReg {
    match i
    case 0 => GoldenReg(GRBM_GFX_INDEX, 0x2200, 1, 0xffffffff, 0xe0000000)
    case 1 => GoldenReg(GE_FAST_CLKS, 0x0fe8, 0, 0x3fffffff, 0x0000493e)
    case 2 => GoldenReg(CGTT_CPF_CLK_CTRL, 0x50b1, 1, 0xfcff8fff, 0xf8000100)
    case 3 => GoldenReg(CGTT_SPI_CLK_CTRL, 0x5080, 1, 0xff7f0fff, 0x3c000100)
    case 4 => GoldenReg(CB_HW_CONTROL_3, 0x1423, 0, 0xa0000000, 0xa0000000)
    case 5 => GoldenReg(CB_HW_CONTROL_4, 0x1422, 0, 0x00008000, 0x003c8014)
    case 6 => GoldenReg(CH_DRAM_BURST_CTRL, 0x2d84, 1, 0x00000010, 0x00000017)
    case 7 => GoldenReg(CH_PIPE_STEER, 0x2d90, 1, 0xffffffff, 0xd8d8d8d8)
    case 8 => GoldenReg(CH_VC5_ENABLE, 0x2d94, 1, 0x00000003, 0x00000003)
    case 9 => GoldenReg(CP_SD_CNTL, 0x1f57, 0, 0x800007ff, 0x000005ff)
    case 10 => GoldenReg(DB_DEBUG, 0x13ac, 0, 0xffffffff, 0x20000000)
    case 11 => GoldenReg(DB_DEBUG3, 0x13ae, 0, 0xffffffff, 0x00000200)
    case 12 => GoldenReg(DB_DEBUG4, 0x13af, 0, 0xffffffff, 0x04800000)
    case 13 => GoldenReg(DB_LAST_OF_BURST_CONFIG, 0x13ba, 0, 0xffffffff, 0x03860210)
    case 14 => GoldenReg(GB_ADDR_CONFIG, 0x13de, 0, 0x0c1800ff, 0x00000044)
    case 15 => GoldenReg(GCR_GENERAL_CNTL, 0x1583, 0, 0x00009d00, 0x00008500)
    case 16 => GoldenReg(GCMC_VM_CACHEABLE_DRAM_ADDRESS_END, 0x1712, 0, 0xffffffff, 0x000fffff)
    case 17 => GoldenReg(GL1_DRAM_BURST_CTRL, 0x2d04, 1, 0x00000010, 0x00000017)
    case 18 => GoldenReg(GL1_PIPE_STEER, 0x2d10, 1, 0xfcfcfcfc, 0xd8d8d8d8)
    case 19 => GoldenReg(GL2_PIPE_STEER_0, 0x2e25, 1, 0x77707770, 0x21302130)
    case 20 => GoldenReg(GL2_PIPE_STEER_1, 0x2e26, 1, 0x77707770, 0x21302130)
    case 21 => GoldenReg(GL2A_ADDR_MATCH_MASK, 0x2e21, 1, 0xffffffff, 0xffffffcf)
    case 22 => GoldenReg(GL2C_ADDR_MATCH_MASK, 0x2e03, 1, 0xffffffff, 0xffffffcf)
    case 23 => GoldenReg(GL2C_CGTT_SCLK_CTRL, 0x50ac, 1, 0x10000000, 0x10000100)
    case 24 => GoldenReg(GL2C_CTRL2, 0x2e01, 1, 0xfc02002f, 0x9402002f)
    case 25 => GoldenReg(GL2C_CTRL3, 0x2e0c, 1, 0x00002188, 0x00000188)
    case 26 => GoldenReg(PA_SC_ENHANCE, 0x109c, 0, 0x08000009, 0x08000009)
    case 27 => GoldenReg(PA_SC_BINNER_EVENT_CNTL_0, 0x106c, 0, 0xcc3fcc03, 0x842a4c02)
    case 28 => GoldenReg(PA_SC_LINE_STIPPLE_STATE, 0x2281, 1, 0x0000000f, 0x00000000)
    case 29 => GoldenReg(RMI_SPARE, 0x153f, 0, 0xffff3109, 0xffff3101)
    case 30 => GoldenReg(SQ_ARB_CONFIG, 0x10ac, 0, 0x00000100, 0x00000130)
    case 31 => GoldenReg(SQ_LDS_CLK_CTRL, 0x5090, 1, 0xffffffff, 0xffffffff)
    case 32 => GoldenReg(TA_CNTL_AUX, 0x12e2, 0, 0x00030008, 0x01030000)
    case _ => GoldenReg(UTCL1_CTRL, 0x1588, 0, 0x00800000, 0x00800000)
  }

  const TABLE: seq<GoldenReg> := seq(COUNT, i requires 0 <= i < COUNT => Entry(i))

  /** Position of the entry with this mm value. */
  function OwnerOfMm(mm: int): int {
    if mm == 0x0fe8 then 1 else if mm == 0x50b1 then 2 else if mm == 0x5080 then 3 else if mm == 0x1423 then 4 else
    if mm == 0x1422 then 5 else if mm == 0x2d84 then 6 else if mm == 0x2d90 then 7 else if mm == 0x2d94 then 8 else
    if mm == 0x1f57 then 9 else if mm == 0x13ac then 10 else if mm == 0x13ae then 11 else if mm == 0x13af then 12 else
    if mm == 0x13ba then 13 else if mm == 0x13de then 14 else if mm == 0x1583 then 15 else if mm == 0x1712 then 16 else
    if mm == 0x2d04 then 17 else if mm == 0x2d10 then 18 else if mm == 0x2e25 then 19 else if mm == 0x2e26 then 20 else
    if mm == 0x2e21 then 21 else if mm == 0x2e03 then 22 else if mm == 0x50ac then 23 else if mm == 0x2e01 then 24 else
    if mm == 0x2e0c then 25 else if mm == 0x109c then 26 else if mm == 0x106c then 27 else if mm == 0x2281 then 28 else
    if mm == 0x153f then 29 else if mm == 0x10ac then 30 else if mm == 0x5090 then 31 else if mm == 0x12e2 then 32 else
    if mm == 0x1588 then 33 else -1
  }

  /** The one entry an address can belong to. */
  function Owner(a: nat): int {
    if a == GB_ADDR_CONFIG_HW then 14
    else if OwnerOfMm((a - GC_BASE) / 4) >= 0 then OwnerOfMm((a - GC_BASE) / 4)
    else OwnerOfMm((a - GC_BASE_SEG1) / 4)
  }

  predicate OwnsAliases(i: nat)
    requires i < COUNT
  {
    Entry(i).IsGrbm() || (Owner(Entry(i).Preferred()) == i && Owner(Entry(i).Fallback()) == i)
  }

  /** Distance of the two segments, in registers. */
  const SEG_DISTANCE := 0x2368

  /** The mm values of the table are distinct ... */
  lemma MmIsOwned(i: nat)
    requires i < COUNT && !Entry(i).IsGrbm()
    ensures OwnerOfMm(Entry(i).mm) == i
    ensures Entry(i).IsGbAddrConfig() ==> i == 14
  {
  }

  /** ... and none is another one seen from the other segment. */
  lemma MmIsElsewhere(i: nat)
    requires i < COUNT && !Entry(i).IsGrbm()
    ensures OwnerOfMm(Entry(i).mm + SEG_DISTANCE) == -1
  {
  }

  lemma ConfigAliases()
    ensures OwnerOfMm((GB_ADDR_CONFIG_MM - GC_BASE) / 4) == 14
    ensures OwnerOfMm((GB_ADDR_CONFIG_HW - GC_BASE) / 4) == -1
  {
  }

  lemma Owns(i: nat)
    requires i < COUNT
    ensures OwnsAliases(i)
  {
    hide OwnerOfMm, Entry;
    var g := Entry(i);
    if !g.IsGrbm() {
      MmIsOwned(i);
      MmIsElsewhere(i);
      ConfigAliases();
      assert (g.Addr0() - GC_BASE) / 4 == g.mm && (g.Addr1() - GC_BASE_SEG1) / 4 == g.mm;
      assert (g.Addr1() - GC_BASE) / 4 == g.mm + SEG_DISTANCE;
    }
  }

  /** Entries whose aliases can be told apart by an owner function are separate. */
  lemma SeparateByOwner(table: seq<GoldenReg>, owner: nat -> int)
    requires forall k :: 0 <= k < |table| && !table[k].IsGrbm() ==>
      owner(table[k].Preferred()) == k && owner(table[k].Fallback()) == k
    ensures Separate(table)
    ensures forall g, a :: g in table && Touches(g, a) ==> owner(a) >= 0
  {
  }

  /** No two shipped entries share an alias, and none is the live GRBM_GFX_INDEX. */
  lemma ShippedSeparate()
    ensures Separate(TABLE)
    ensures forall g :: g in TABLE ==> !Touches(g, GRBM_GFX_INDEX_LIVE)
  {
    forall i | 0 <= i < COUNT ensures OwnsAliases(i) {
      Owns(i);
    }
    ShippedByOwner();
    assert Owner(GRBM_GFX_INDEX_LIVE) == -1;
  }

  lemma ShippedByOwner()
    requires forall i :: 0 <= i < COUNT ==> OwnsAliases(i)
    ensures Separate(TABLE)
    ensures forall g, a :: g in TABLE && Touches(g, a) ==> Owner(a) >= 0
  {
    var owner := (a: nat) => Owner(a);
    forall k | 0 <= k < |TABLE| && !TABLE[k].IsGrbm()
      ensures owner(TABLE[k].Preferred()) == k && owner(TABLE[k].Fallback()) == k
    {
      assert OwnsAliases(k) && TABLE[k] == Entry(k);
    }
    SeparateByOwner(TABLE, owner);
  }

  /** The shipped table: whatever reads alive, the chosen addresses are distinct and any order
      of the entries programs the same registers. */
  lemma ShippedPass(regs: Regs, table: seq<GoldenReg>, other: seq<GoldenReg>)
    requires table == TABLE && multiset(table) == multiset(other)
    ensures Distinct(Choices(regs, table))
    ensures ApplyTable(regs, other) == ApplyTable(regs, table)
  {
    assert Separate(table) by { ShippedSeparate(); }
    SeparateChoosesDistinct(regs, table);
    OrderIndependent(regs, table, other);
  }

  /** The tool as shipped, on any register file. */
  lemma ShippedSelects(regs: Regs, table: seq<GoldenReg>, a: nat)
    requires table == TABLE
    ensures Read(Tool(regs, table), 0x34D0) == if 0x34D0 in regs then 0xE000_0000 else 0xFFFF_FFFF
    ensures a != 0x34D0 ==> Read(Tool(regs, table), a) == Read(ApplyTable(regs, table), a)
  {
    assert LeavesSelect(table) by { ShippedSeparate(); }
    ToolSelects(regs, table, a);
  }

  const SQ_LDS := GoldenReg(SQ_LDS_CLK_CTRL, 0x5090, 1, ALL_ONES, ALL_ONES)

  lemma SqLdsInTable()
    ensures SQ_LDS in TABLE
  {
    assert TABLE[31] == SQ_LDS;
  }

  /** SQ_LDS_CLK_CTRL is programmed to all-ones: once its SEG1 alias was alive, a second
      run programs the other alias too, unless that one is absent or all-ones already. */
  lemma SqLdsRetargetsIff(regs: Regs)
    ensures Retargets(regs, SQ_LDS) <==>
      Read(regs, 0x1E240) != ALL_ONES && 0x154A0 in regs && Read(regs, 0x154A0) != ALL_ONES
  {
    MergeAllOnes(ALL_ONES, Read(regs, 0x1E240));
    MergeAllOnes(ALL_ONES, Read(regs, 0x154A0));
  }

  lemma SecondRunDiffers(regs: Regs, table: seq<GoldenReg>)
    requires table == TABLE
    requires Read(regs, 0x1E240) != ALL_ONES && 0x154A0 in regs && Read(regs, 0x154A0) != ALL_ONES
    ensures ApplyTable(ApplyTable(regs, table), table) != ApplyTable(regs, table)
  {
    assert Separate(table) by { ShippedSeparate(); }
    assert SQ_LDS in table by { SqLdsInTable(); }
    SqLdsRetargetsIff(regs);
    RerunIff(regs, table);
  }

  // ---- the tool ------------------------------------------------------------------

  /** The [OK] of an entry: the register is there, or its masked value is all-ones. */
  predicate Verdict(regs: Regs, g: GoldenReg) {
    Choose(regs, g) in regs || AndBits(g.orVal, g.andMask) == g.andMask
  }

  function Verdicts(regs: Regs, table: seq<GoldenReg>): seq<bool> {
    if table == [] then []
    else if table[0].IsGrbm() then Verdicts(regs, table[1..])
    else [Verdict(regs, table[0])] + Verdicts(ApplyOne(regs, table[0]), table[1..])
  }

  /** How the three functions of a pass unfold at entry `i`. */
  lemma PassStep(regs: Regs, table: seq<GoldenReg>, i: nat)
    requires i < |table|
    ensures var g, rest := table[i], table[i + 1..];
      && ApplyTable(regs, table[i..]) == ApplyTable(ApplyOne(regs, g), rest)
      && Choices(regs, table[i..]) == (if g.IsGrbm() then [] else [Choose(regs, g)]) + Choices(ApplyOne(regs, g), rest)
      && Verdicts(regs, table[i..])
         == (if g.IsGrbm() then [] else [Verdict(regs, g)]) + Verdicts(ApplyOne(regs, g), rest)
  {
    assert table[i..][1..] == table[i + 1..];
  }

  lemma PassEnd(regs: Regs)
    ensures ApplyTable(regs, []) == regs && Choices(regs, []) == [] && Verdicts(regs, []) == []
  {
  }

  /** The first `i` entries done: the rest of the pass, from here, gives what the whole gives. */
  ghost predicate DoneUpTo(start: Regs, table: seq<GoldenReg>, i: nat, regs: Regs, chosen: seq<nat>, oks: seq<bool>)
    requires i <= |table|
  {
    && ApplyTable(regs, table[i..]) == ApplyTable(start, table)
    && chosen + Choices(regs, table[i..]) == Choices(start, table)
    && oks + Verdicts(regs, table[i..]) == Verdicts(start, table)
  }

  lemma NoneDone(start: Regs, table: seq<GoldenReg>)
    ensures DoneUpTo(start, table, 0, start, [], [])
  {
    assert table[0..] == table;
    assert [] + Choices(start, table) == Choices(start, table);
    assert [] + Verdicts(start, table) == Verdicts(start, table);
  }

  lemma OneMoreDone(start: Regs, table: seq<GoldenReg>, i: nat, regs: Regs, chosen: seq<nat>, oks: seq<bool>)
    requires i < |table| && DoneUpTo(start, table, i, regs, chosen, oks)
    ensures var g := table[i];
      DoneUpTo(start, table, i + 1, ApplyOne(regs, g),
               if g.IsGrbm() then chosen else chosen + [Choose(regs, g)],
               if g.IsGrbm() then oks else oks + [Verdict(regs, g)])
  {
    hide ApplyTable, Choices, Verdicts, ApplyOne, Choose, Verdict;
    PassStep(regs, table, i);
    var g, tail, rest := table[i], Choices(ApplyOne(regs, table[i]), table[i + 1..]),
                         Verdicts(ApplyOne(regs, table[i]), table[i + 1..]);
    if g.IsGrbm() {
      assert [] + tail == tail && [] + rest == rest;
    } else {
      assert chosen + ([Choose(regs, g)] + tail) == chosen + [Choose(regs, g)] + tail;
      assert oks + ([Verdict(regs, g)] + rest) == oks + [Verdict(regs, g)] + rest;
    }
  }

  lemma AllDone(start: Regs, table: seq<GoldenReg>, regs: Regs, chosen: seq<nat>, oks: seq<bool>)
    requires DoneUpTo(start, table, |table|, regs, chosen, oks)
    ensures regs == ApplyTable(start, table) && chosen == Choices(start, table) && oks == Verdicts(start, table)
  {
    assert table[|table|..] == [];
    PassEnd(regs);
  }

  class Bar5 {
    var regs: Regs

    constructor (regs: Regs)
      ensures this.regs == regs
    {
      this.regs := regs;
    }

    method ReadReg(a: nat) returns (v: Word)
      ensures v == Read(regs, a)
    {
      v := if a in regs then regs[a] else ALL_ONES;
    }

    method WriteReg(a: nat, v: Word)
      modifies this
      ensures regs == Write(old(regs), a, v)
    {
      if a in regs {
        regs := regs[a := v];
      }
    }

    /** The full-mask entry is written without reading; it agrees with the general case. */
    method ApplyGolden(addr: nat, g: GoldenReg) returns (tmp: Word)
      modifies this
      ensures tmp == g.Target(Read(old(regs), addr))
      ensures regs == Write(old(regs), addr, tmp)
    {
      if g.andMask == 0xffffffff {
        tmp := g.orVal;
        MergeAllOnes(g.orVal, Read(regs, addr));
      } else {
        var cur := ReadReg(addr);
        MergeIsOr(g.andMask, g.orVal, cur);
        assert OrBits(ClearBits(cur, g.andMask), AndBits(g.orVal, g.andMask)) == Merge(g.andMask, g.orVal, cur);
        tmp := OrBits(ClearBits(cur, g.andMask), AndBits(g.orVal, g.andMask));
      }
      WriteReg(addr, tmp);
    }

    method ChooseAddr(g: GoldenReg) returns (addr: nat)
      ensures addr == Choose(regs, g)
    {
      if g.IsGbAddrConfig() {
        var v0 := ReadReg(GB_ADDR_CONFIG_HW);
        addr := if v0 != ALL_ONES then GB_ADDR_CONFIG_HW else GB_ADDR_CONFIG_MM;
      } else {
        var a0 := g.Addr0();
        var a1 := if g.baseIdx == 1 then g.Addr1() else a0;
        var v0 := ReadReg(a0);
        var v1 := v0;
        if a1 != a0 { v1 := ReadReg(a1); }
        addr := if v1 != ALL_ONES then a1 else a0;
        if g.baseIdx == 0 && v0 == ALL_ONES { addr := a0; }
      }
    }

    /** One entry: pick the address, program it, read it back. */
    method Program(g: GoldenReg) returns (addr: nat, ok: bool)
      requires !g.IsGrbm()
      modifies this
      ensures addr == Choose(old(regs), g)
      ensures regs == ApplyOne(old(regs), g)
      ensures ok <==> Verdict(old(regs), g)
    {
      addr := ChooseAddr(g);
      var cur := ReadReg(addr);
      var want := ApplyGolden(addr, g);
      var rb := ReadReg(addr);
      ok := AndBits(rb, g.andMask) == AndBits(want, g.andMask);
      OnesReadback(g.andMask, g.orVal, cur);
    }

    method WriteAll(table: seq<GoldenReg>) returns (chosen: seq<nat>, oks: seq<bool>)
      modifies this
      ensures regs == ApplyTable(Broadcast(old(regs)), table) && regs == Tool(old(regs), table)
      ensures chosen == Choices(Broadcast(old(regs)), table)
      ensures oks == Verdicts(Broadcast(old(regs)), table)
    {
      hide ApplyTable, Choices, Verdicts, ApplyOne, Choose, Verdict, Write, DoneUpTo;
      WriteReg(GRBM_GFX_INDEX_LIVE, GRBM_GFX_INDEX_BRDCST);
      ghost var start := regs;
      chosen, oks := [], [];
      NoneDone(start, table);
      var i := 0;
      while i < |table|
        invariant 0 <= i <= |table| && DoneUpTo(start, table, i, regs, chosen, oks)
      {
        OneMoreDone(start, table, i, regs, chosen, oks);
        if table[i].IsGrbm() {
          GrbmSkipped(regs, table[i]);
        } else {
          var addr, ok := Program(table[i]);
          chosen, oks := chosen + [addr], oks + [ok];
        }
        i := i + 1;
      }
      AllDone(start, table, regs, chosen, oks);
    }
  }
}
