/** bc250ctl: the control suite's freq and unforce commands.  Unlike the service it ignores
    every reply, so what it leaves behind depends on the whole pattern of verdicts. */
module Bc250Ctl {
  import opened Common
  import opened Vid
  import opened SafePoints
  import opened Smu
  import opened Regulator
  import G = Governor
  import B = SmnBus

  /** The clock the command forces: the request itself unless it lies above the table. */
  function ForcedMhz(mhz: int): int {
    if mhz > Pick(SUITE, mhz).freq then Pick(SUITE, mhz).freq else mhz
  }

  function Script(p: SafePoint, mhz: int): seq<B.Sent> {
    [B.Sent(Q3, 0x8C, 80), B.Sent(Q0, 0x3A, 0), B.Sent(Q0, 0x3C, 0), B.Sent(Q3, 0x1E, ToU32(p.profile)),
     B.Sent(Q0, 0x3B, VidFor(p)), B.Sent(Q0, 0x39, ToU32(mhz)), B.Sent(Q0, 0x37, 0)]
  }

  /** The entries of a whole command. */
  predicate Ran(log: seq<Served>, p: SafePoint, mhz: int) {
    |log| == 7 && G.Serves(log, Script(p, mhz))
  }

  /** Entry `k` was accepted with this result. */
  predicate Gave(log: seq<Served>, k: nat, v: Word) {
    k < |log| && log[k].status == 1 && log[k].result == v
  }

  /** Sends message `k` of a script whose entries since `log0` it continues. */
  method QueryNext(bus: B.SmnBus, q: Queue, msg: Word, arg: Word, ghost script: seq<B.Sent>, ghost k: nat,
                   ghost log0: seq<Served>, ghost sent0: seq<B.Sent>)
    returns (v: Word)
    requires bus.Tracked() && k < |script| && script[k] == B.Sent(q, msg, arg)
    requires bus.sent == sent0 + script[..k]
    requires log0 <= bus.known && G.Serves(G.Since(log0, bus.known), script)
    requires |G.Since(log0, bus.known)| <= k && (!bus.lost ==> |G.Since(log0, bus.known)| == k)
    modifies bus
    ensures bus.Tracked() && (old(bus.lost) ==> bus.lost)
    ensures bus.sent == sent0 + script[..k + 1]
    ensures log0 <= bus.known && old(bus.known) <= bus.known && G.Serves(G.Since(log0, bus.known), script)
    ensures |G.Since(log0, bus.known)| <= k + 1 && (!bus.lost ==> |G.Since(log0, bus.known)| == k + 1)
    ensures !bus.lost && v != ALL_ONES ==> Gave(G.Since(log0, bus.known), k, v)
  {
    v := bus.SmuQueryEx(q, msg, arg);
  }

  method CmdFreq(bus: B.SmnBus, mhz0: int) returns (rc: int, f: Word)
    requires bus.Tracked()
    modifies bus
    ensures bus.Tracked() && (old(bus.lost) ==> bus.lost) && old(bus.known) <= bus.known
    ensures rc == if mhz0 <= 0 then 1 else 0
    ensures mhz0 <= 0 ==> bus.sent == old(bus.sent) && bus.known == old(bus.known)
    ensures mhz0 > 0 ==> bus.sent == old(bus.sent) + Script(Pick(SUITE, mhz0), ForcedMhz(mhz0))
    ensures mhz0 > 0 ==>
      bus.sent
      == old(bus.sent) + [
        B.Sent(Q3, 0x8C, 80), B.Sent(Q0, 0x3A, 0), B.Sent(Q0, 0x3C, 0), B.Sent(Q3, 0x1E, if mhz0 <= 1000 then 1 else 3),
        B.Sent(Q0, 0x3B, ToU32(MvToVid(Pick(SUITE, mhz0).mv))), B.Sent(Q0, 0x39, if mhz0 < 2000 then mhz0 else 2000),
        B.Sent(Q0, 0x37, 0)]
    ensures mhz0 > 0 ==> G.Serves(G.Since(old(bus.known), bus.known), Script(Pick(SUITE, mhz0), ForcedMhz(mhz0)))
    ensures mhz0 > 0 && !bus.lost ==>
      Ran(G.Since(old(bus.known), bus.known), Pick(SUITE, mhz0), ForcedMhz(mhz0))
    ensures mhz0 > 0 && !bus.lost && f != ALL_ONES ==> Gave(G.Since(old(bus.known), bus.known), 6, f)
  {
    hide Script, G.Serves, G.Since, First;
    if mhz0 <= 0 { return 1, 0; }
    var mhz := mhz0;
    var target, mv, prof := SafePointOf(mhz);
    if mhz > target { mhz := target; }
    f := ForcePoint(bus, SafePoint(target, mv, prof), mhz);
    rc := 0;
    ScriptInNumbers(mhz0);
  }

  lemma ScriptInNumbers(mhz0: int)
    requires mhz0 > 0
    ensures Script(Pick(SUITE, mhz0), ForcedMhz(mhz0)) == [
      B.Sent(Q3, 0x8C, 80), B.Sent(Q0, 0x3A, 0), B.Sent(Q0, 0x3C, 0), B.Sent(Q3, 0x1E, if mhz0 <= 1000 then 1 else 3),
      B.Sent(Q0, 0x3B, ToU32(MvToVid(Pick(SUITE, mhz0).mv))), B.Sent(Q0, 0x39, if mhz0 < 2000 then mhz0 else 2000),
      B.Sent(Q0, 0x37, 0)]
  {
    hide Pick, ForcedMhz, MvToVid;
    SelectionLaws(mhz0, mhz0);
    SuiteChoice(mhz0);
  }

  method ForcePoint(bus: B.SmnBus, p: SafePoint, mhz: int) returns (f: Word)
    requires bus.Tracked()
    modifies bus
    ensures bus.Tracked() && (old(bus.lost) ==> bus.lost) && old(bus.known) <= bus.known
    ensures bus.sent == old(bus.sent) + Script(p, mhz)
    ensures G.Serves(G.Since(old(bus.known), bus.known), Script(p, mhz))
    ensures !bus.lost ==> Ran(G.Since(old(bus.known), bus.known), p, mhz)
    ensures !bus.lost && f != ALL_ONES ==> Gave(G.Since(old(bus.known), bus.known), 6, f)
  {
    hide G.Serves, G.Since, MvToVid, ToU32;
    ghost var log0, sent0, script := bus.known, bus.sent, Script(p, mhz);
    G.NothingSince(log0, script);
    assert sent0 + script[..0] == sent0;
    var vid := MvToVid(p.mv);
    var r := QueryNext(bus, Q3, 0x8C, 80, script, 0, log0, sent0);
    r := QueryNext(bus, Q0, 0x3A, 0, script, 1, log0, sent0);
    r := QueryNext(bus, Q0, 0x3C, 0, script, 2, log0, sent0);
    r := QueryNext(bus, Q3, 0x1E, ToU32(p.profile), script, 3, log0, sent0);
    r := QueryNext(bus, Q0, 0x3B, ToU32(vid), script, 4, log0, sent0);
    r := QueryNext(bus, Q0, 0x39, ToU32(mhz), script, 5, log0, sent0);
    bus.Sleep();
    f := QueryNext(bus, Q0, 0x37, 0, script, 6, log0, sent0);
    assert script[..7] == script;
  }

  const UNFORCE_SCRIPT := [B.Sent(Q0, 0x3A, 0), B.Sent(Q0, 0x3C, 0), B.Sent(Q0, 0x37, 0)]

  method CmdUnforce(bus: B.SmnBus) returns (f: Word)
    requires bus.Tracked()
    modifies bus
    ensures bus.Tracked() && (old(bus.lost) ==> bus.lost) && old(bus.known) <= bus.known
    ensures bus.sent == old(bus.sent) + [B.Sent(Q0, 0x3A, 0), B.Sent(Q0, 0x3C, 0), B.Sent(Q0, 0x37, 0)]
    ensures G.Serves(G.Since(old(bus.known), bus.known), UNFORCE_SCRIPT)
    ensures !bus.lost ==> |G.Since(old(bus.known), bus.known)| == 3
    ensures !bus.lost && f != ALL_ONES ==> Gave(G.Since(old(bus.known), bus.known), 2, f)
  {
    hide G.Serves, G.Since;
    ghost var log0, sent0, script := bus.known, bus.sent, UNFORCE_SCRIPT;
    G.NothingSince(log0, script);
    assert sent0 + script[..0] == sent0;
    var r := QueryNext(bus, Q0, 0x3A, 0, script, 0, log0, sent0);
    r := QueryNext(bus, Q0, 0x3C, 0, script, 1, log0, sent0);
    bus.Sleep();
    f := QueryNext(bus, Q0, 0x37, 0, script, 2, log0, sent0);
    assert script[..3] == script;
  }

  /** What is left after it, whole or broken off and from any state: the clock goes when 0x3A is
      accepted, the voltage when 0x3C is; and a clock keeps enough voltage exactly unless the
      first is refused and the second accepted. */
  lemma UnforceLeaves(g: Gpu, log: seq<Served>)
    requires G.Serves(log, UNFORCE_SCRIPT)
    ensures After(g, log) == Gpu(
      if |log| > 0 && log[0].status == 1 then None else g.freq,
      if |log| > 1 && log[1].status == 1 then None else g.vid,
      g.profile)
    ensures Covered(g) ==>
      (Covered(After(g, log)) <==> g.freq.None? || |log| < 2 || log[0].status == 1 || log[1].status != 1)
  {
    hide Enough;
    RoundStates(g, log);
    assert |log| > 0 ==> After(g, log[..1]) == Effect(g, log[0]);
    assert |log| > 1 ==> After(g, log[..2]) == Effect(After(g, log[..1]), log[1]);
    assert |log| > 2 ==> After(g, log[..3]) == After(g, log[..2]);
  }

  /** The command forces min(request, 2000) with at least the voltage the suite's own table
      gives that clock, and more clock never gets less voltage. */
  lemma SelectionLaws(mhz: int, more: int)
    requires 0 < mhz <= more
    ensures Pick(SUITE, ForcedMhz(mhz)).mv <= Pick(SUITE, mhz).mv
    ensures ForcedMhz(mhz) == if mhz < 2000 then mhz else 2000
    ensures ForcedMhz(mhz) <= Pick(SUITE, mhz).freq
    ensures ForcedMhz(mhz) <= ForcedMhz(more) && Pick(SUITE, mhz).mv <= Pick(SUITE, more).mv
  {
    var table := SUITE;
    assert Rising(table) by { TablesRise(); }
    PickSelects(table, mhz);
    PickSelects(table, more);
    SelectsMonotone(table, mhz, more, Pick(table, mhz), Pick(table, more));
    SuiteTop(mhz, Pick(table, mhz));
    SuiteTop(more, Pick(table, more));
    PickSelects(table, ForcedMhz(mhz));
    SelectsMonotone(table, ForcedMhz(mhz), mhz, Pick(table, ForcedMhz(mhz)), Pick(table, mhz));
  }

  lemma SuiteTop(mhz: int, p: SafePoint)
    requires Selects(SUITE, mhz, p)
    ensures p.freq <= 2000 && (mhz <= 2000 ==> mhz <= p.freq) && (mhz > 2000 ==> p.freq == 2000)
  {
    assert SUITE[7] in SUITE;
  }

  /** The suite's voltage meets the service's table for the clock it forces, except for
      requests above 500 and up to 800 MHz: there it sets 750 mV where the service's next
      point asks for 800. */
  lemma SuiteCoversServiceIff(mhz: int)
    requires mhz > 0
    ensures Pick(SERVICE, ForcedMhz(mhz)).mv as real <= RailMv(MvToVid(Pick(SUITE, mhz).mv))
            <==> !(500 < mhz <= 800)
  {
    SelectionLaws(mhz, mhz);
    var p := Pick(SUITE, mhz);
    SuiteSteps(mhz);
    ServiceSteps(ForcedMhz(mhz));
    MvToVidInteger(p.mv);
  }

  /** The state the command leaves, from any state and for any pattern of verdicts. */
  lemma FreqLeaves(p: SafePoint, mhz: int, g: Gpu, log: seq<Served>)
    requires Ran(log, p, mhz)
    ensures After(g, log) == Gpu(
      if log[5].status == 1 then Some(ToU32(mhz)) else if log[1].status == 1 then None else g.freq,
      if log[4].status == 1 then Some(VidFor(p)) else if log[2].status == 1 then None else g.vid,
      if log[3].status == 1 then Some(ToU32(p.profile)) else g.profile)
  {
    RoundStates(g, log);
    var s4 := After(g, log[..4]);
    assert After(g, log[..1]) == g;
    assert s4 == Gpu(if log[1].status == 1 then None else g.freq,
                     if log[2].status == 1 then None else g.vid,
                     if log[3].status == 1 then Some(ToU32(p.profile)) else g.profile);
    assert After(g, log[..6]) == Effect(Effect(s4, log[4]), log[5]);
  }

  /** Because it ignores replies, the command leaves a clock without any forced voltage, from
      any state, exactly when a clock is accepted or not let go, the new voltage is refused
      and there is no old one or it is let go. */
  lemma UnbackedIff(p: SafePoint, mhz: int, g: Gpu, log: seq<Served>)
    requires Ran(log, p, mhz)
    ensures After(g, log).freq.Some? && After(g, log).vid.None? <==>
      && (log[5].status == 1 || (g.freq.Some? && log[1].status != 1))
      && log[4].status != 1
      && (g.vid.None? || log[2].status == 1)
  {
    FreqLeaves(p, mhz, g, log);
  }

  /** When a run of the command leaves enough voltage behind, by the service's table and from
      any state: what counts is which clock and which voltage the verdicts let through. */
  predicate LeavesEnough(mhz0: int, g: Gpu, log: seq<Served>)
    requires |log| == 7
  {
    if log[5].status == 1 then
      // the new clock, with the new voltage, none, or the one already there
      if log[4].status == 1 then !(500 < mhz0 <= 800)
      else log[2].status != 1 && g.vid.Some? && Enough(ForcedMhz(mhz0), g.vid.value)
    else if log[1].status == 1 || g.freq.None? then true
    else
      // the clock already there
      if log[4].status == 1 then Enough(g.freq.value, VidFor(Pick(SUITE, mhz0)))
      else log[2].status != 1 && g.vid.Some? && Enough(g.freq.value, g.vid.value)
  }

  lemma CoveredIff(mhz0: int, g: Gpu, log: seq<Served>)
    requires mhz0 > 0 && Ran(log, Pick(SUITE, mhz0), ForcedMhz(mhz0))
    ensures Covered(After(g, log)) <==> LeavesEnough(mhz0, g, log)
  {
    hide Pick, RailMv, MvToVid;
    FreqLeaves(Pick(SUITE, mhz0), ForcedMhz(mhz0), g, log);
    NewPointEnoughIff(mhz0);
  }

  lemma NewPointEnoughIff(mhz0: int)
    requires mhz0 > 0
    ensures ToU32(ForcedMhz(mhz0)) == ForcedMhz(mhz0)
    ensures Enough(ForcedMhz(mhz0), VidFor(Pick(SUITE, mhz0))) <==> !(500 < mhz0 <= 800)
  {
    hide Pick, ForcedMhz, RailMv, MvToVid;
    SelectionLaws(mhz0, mhz0);
    SuiteCoversServiceIff(mhz0);
    RailCoversPoint(Pick(SUITE, mhz0));
  }

  /** The stale voltage: 500 MHz is held at 700 mV, 2000 MHz is asked for, both "unforce vid"
      and "force vid" are refused and the clock is accepted. */
  lemma StaleVoltage(g: Gpu, log: seq<Served>)
    requires g.vid == Some(136) && Ran(log, Pick(SUITE, 2000), ForcedMhz(2000))
    requires log[2].status != 1 && log[4].status != 1 && log[5].status == 1
    ensures !Covered(After(g, log))
  {
    hide Pick, ForcedMhz, Covered, After, RailMv, Enough;
    CoveredIff(2000, g, log);
    TooLow();
  }

  lemma TooLow()
    ensures ForcedMhz(2000) == 2000 && RailMv(136) == 700.0 && !Enough(2000, 136)
  {
    SelectionLaws(2000, 2000);
    ServiceSteps(2000);
  }
}
