/** The two one-shot tools: force a point (or a lower fallback clock), report, restore. */
module Sequences {
  import opened Common
  import opened Vid
  import opened SafePoints
  import opened Smu
  import opened Regulator
  import G = Governor
  import B = SmnBus

  /** What a one-shot tool forces: a clock and voltage, and a clock to try if that is refused. */
  datatype Target = Target(freq: Word, mv: int, fallback: Word)

  const SEQUENCE := Target(1175, 850, 1000)
  const OC2000 := Target(2000, 1000, 1500)

  function VidOf(t: Target): Word {
    ToU32(MvToVid(t.mv))
  }

  /** The voltage of the target is enough for both clocks, by the service's table. */
  predicate CoversBoth(t: Target) {
    && Pick(SERVICE, t.freq).mv as real <= RailMv(VidOf(t))
    && Pick(SERVICE, t.fallback).mv as real <= RailMv(VidOf(t))
  }

  lemma ShippedTargetsCover()
    ensures CoversBoth(SEQUENCE) && CoversBoth(OC2000)
  {
    MvToVidInteger(850);
    MvToVidInteger(1000);
    ServiceSteps(1000);
    ServiceSteps(1175);
    ServiceSteps(1500);
    ServiceSteps(2000);
  }

  /** The messages of init and change_freq, the fallback clock last. */
  function ForceScript(t: Target): (script: seq<B.Sent>)
    ensures |script| == 7
  {
    [B.Sent(Q3, 0x8C, 80), B.Sent(Q0, 0x3A, 0), B.Sent(Q0, 0x3C, 0), B.Sent(Q3, 0x1E, 3),
     B.Sent(Q0, 0x3B, VidOf(t)), B.Sent(Q0, 0x39, t.freq), B.Sent(Q0, 0x39, t.fallback)]
  }

  /** Their entries, possibly broken off: profile and voltage must be accepted to go on. */
  predicate IsForcingPart(t: Target, log: seq<Served>) {
    && G.Serves(log, ForceScript(t))
    && (|log| > 4 ==> log[3].status == 1)
    && (|log| > 5 ==> log[4].status == 1)
  }

  /** A whole forcing stops at the first refusal from the profile on, except that a refused
      clock is followed by the fallback, and after an accepted clock. */
  predicate IsForcing(t: Target, log: seq<Served>) {
    && IsForcingPart(t, log)
    && |log| >= 4
    && (|log| == 4 ==> log[3].status != 1)
    && (|log| == 5 ==> log[4].status != 1)
    && (|log| == 6 ==> log[5].status == 1)
    && (|log| == 7 ==> log[5].status != 1)
  }

  /** How far a whole forcing gets: up to the profile, the voltage, the clock or the fallback. */
  lemma ForcingLength(t: Target, log: seq<Served>)
    requires IsForcing(t, log)
    ensures 4 <= |log| <= 7
    ensures |log| > 4 <==> log[3].status == 1
    ensures |log| > 4 ==> (|log| > 5 <==> log[4].status == 1)
    ensures |log| > 5 ==> (|log| > 6 <==> log[5].status != 1)
  {
    ForcingAsks(t, log);
  }

  predicate Forced(log: seq<Served>) {
    |log| >= 6 && log[|log| - 1].status == 1
  }

  lemma ForcingAsks(t: Target, log: seq<Served>)
    requires IsForcingPart(t, log)
    ensures |log| <= 7
    ensures |log| > 0 ==> Asks(log[0], Q3, 0x8C, 80)
    ensures |log| > 1 ==> Asks(log[1], Q0, 0x3A, 0)
    ensures |log| > 2 ==> Asks(log[2], Q0, 0x3C, 0)
    ensures |log| > 3 ==> Asks(log[3], Q3, 0x1E, 3)
    ensures |log| > 4 ==> Asks(log[4], Q0, 0x3B, VidOf(t))
    ensures |log| > 5 ==> Asks(log[5], Q0, 0x39, t.freq)
    ensures |log| > 6 ==> Asks(log[6], Q0, 0x39, t.fallback)
  {
  }

  /** Clock and voltage up to the first "force freq", message by message. */
  lemma ForcingClock(t: Target, g: Gpu, log: seq<Served>, k: nat)
    requires IsForcingPart(t, log) && k <= |log| && k <= 5
    ensures After(g, log[..k]).freq == if k > 1 && log[1].status == 1 then None else g.freq
    ensures k == 5 && log[4].status == 1 ==> After(g, log[..k]).vid == Some(VidOf(t))
  {
    hide IsForcingPart, VidOf;
    ForcingAsks(t, log);
    if k > 0 {
      ForcingClock(t, g, log, k - 1);
      AfterStep(g, log, k - 1);
    }
  }

  /** ... and from there on. */
  lemma ForcingEnd(t: Target, g: Gpu, log: seq<Served>, k: nat)
    requires IsForcingPart(t, log) && 6 <= k <= |log|
    ensures After(g, log[..k]).vid == Some(VidOf(t))
    ensures After(g, log[..k]).freq ==
      if k > 6 && log[6].status == 1 then Some(t.fallback) else if log[5].status == 1 then Some(t.freq)
      else if log[1].status == 1 then None else g.freq
    decreases k
  {
    ForcingVoltage(t, log);
    hide IsForcingPart, VidOf;
    ForcingAsks(t, log);
    AfterStep(g, log, k - 1);
    if k == 6 {
      ForcingClock(t, g, log, 5);
    } else {
      ForcingEnd(t, g, log, 6);
    }
  }

  lemma ForcingVoltage(t: Target, log: seq<Served>)
    requires IsForcingPart(t, log) && |log| > 5
    ensures log[4].status == 1
  {
  }

  /** The clock a forcing leaves. */
  lemma ForcingLeaves(t: Target, g: Gpu, log: seq<Served>)
    requires IsForcingPart(t, log)
    ensures After(g, log).freq ==
      if |log| > 6 && log[6].status == 1 then Some(t.fallback)
      else if |log| > 5 && log[5].status == 1 then Some(t.freq)
      else if |log| > 1 && log[1].status == 1 then None else g.freq
  {
    hide IsForcingPart, After;
    ForcingAsks(t, log);
    assert log[..|log|] == log;
    if |log| <= 5 {
      ForcingClock(t, g, log, |log|);
    } else {
      ForcingEnd(t, g, log, |log|);
    }
  }

  /** Whatever state it meets, a forcing never forces a clock ahead of its voltage. */
  lemma ForcingSupplied(t: Target, g: Gpu, log: seq<Served>)
    requires CoversBoth(t) && IsForcingPart(t, log)
    ensures Supplied(g, log)
  {
    ForcingOutrunsNever(t, g, log);
    if Honored(log) {
      ForcingStarvesNot(t, g, log);
    }
  }

  lemma ForcingOutrunsNever(t: Target, g: Gpu, log: seq<Served>)
    requires CoversBoth(t) && IsForcingPart(t, log)
    ensures !Somewhere(Outruns, g, log)
  {
    ForcingAsks(t, log);
    if |log| > 5 {
      ForcingVoltage(t, log);
    }
    assert Enough(t.freq, VidOf(t)) && Enough(t.fallback, VidOf(t));
    hide IsForcingPart, VidOf, Enough, After, CoversBoth;
    if |log| > 5 {
      ForcingClock(t, g, log, 5);
    }
    if |log| > 6 {
      ForcingEnd(t, g, log, 6);
    }
  }

  lemma ForcingStarvesNot(t: Target, g: Gpu, log: seq<Served>)
    requires IsForcingPart(t, log) && Honored(log)
    ensures !Starved(g, log)
  {
    ForcingAsks(t, log);
    hide IsForcingPart, VidOf, Enough, After;
    if |log| > 1 {
      assert Is(log[1], Q0, 0x3A);
    }
    if |log| > 2 {
      ForcingClock(t, g, log, 2);
    }
    if |log| > 4 {
      ForcingClock(t, g, log, 4);
    }
  }

  // ---- whole runs ----------------------------------------------------------------

  /** Exit path after a success: read back, unforce, read back. */
  ghost predicate IsRestore(log: seq<Served>) {
    |log| == 6 && AllInert(log[..3]) && IsUnforce(log[3..5]) && AllInert(log[5..])
  }

  /** The same, possibly broken off. */
  ghost predicate IsRestorePart(log: seq<Served>) {
    exists i, j :: 0 <= i <= j <= |log| && AllInert(log[..i]) && IsUnforcePart(log[i..j]) && AllInert(log[j..])
  }

  /** A whole run: reports, the forcing, and the restore exactly when something was forced. */
  ghost predicate IsRun(t: Target, log: seq<Served>) {
    || AllInert(log)
    || exists i, j :: 0 <= i <= j <= |log| && AllInert(log[..i]) && IsForcing(t, log[i..j])
         && if Forced(log[i..j]) then IsRestore(log[j..]) else j == |log|
  }

  /** A run to its end, in which calls may have given up: the restore is gone through exactly
      when the tool was told that something is forced. */
  ghost predicate IsEnded(t: Target, log: seq<Served>, restored: bool) {
    exists i, j :: 0 <= i <= j <= |log| && AllInert(log[..i]) && IsForcingPart(t, log[i..j])
      && if restored then Forced(log[i..j]) && IsRestore(log[j..]) else j == |log|
  }

  /** A run broken off anywhere. */
  ghost predicate IsRunPart(t: Target, log: seq<Served>) {
    exists i, j :: 0 <= i <= j <= |log|
      && AllInert(log[..i]) && IsForcingPart(t, log[i..j]) && IsRestorePart(log[j..])
  }

  lemma RestoreIsPart(log: seq<Served>)
    requires IsRestore(log)
    ensures IsRestorePart(log)
  {
    assert log[..3] == log[..3] && IsUnforcePart(log[3..5]);
  }

  lemma InertIsRestorePart(log: seq<Served>)
    requires AllInert(log)
    ensures IsRestorePart(log)
  {
    assert log[..0] == [] && log[0..0] == [] && log[0..] == log;
  }

  lemma RunIsEnded(t: Target, log: seq<Served>)
    requires IsRun(t, log)
    ensures IsEnded(t, log, false) || IsEnded(t, log, true)
  {
    hide AllInert, IsForcingPart, IsRestore, Forced;
    if AllInert(log) {
      InertIsEnded(t, log);
    } else {
      var i, j :| 0 <= i <= j <= |log| && AllInert(log[..i]) && IsForcing(t, log[i..j])
        && if Forced(log[i..j]) then IsRestore(log[j..]) else j == |log|;
      if Forced(log[i..j]) {
        assert IsEnded(t, log, true);
      } else {
        assert IsEnded(t, log, false);
      }
    }
  }

  lemma InertIsEnded(t: Target, log: seq<Served>)
    requires AllInert(log)
    ensures IsEnded(t, log, false)
  {
    var n := |log|;
    assert log[..n] == log && log[n..n] == [] && IsForcingPart(t, log[n..n]);
  }

  lemma EndedIsPart(t: Target, log: seq<Served>, restored: bool)
    requires IsEnded(t, log, restored)
    ensures IsRunPart(t, log)
  {
    hide AllInert, IsForcingPart, Forced, IsRestore, IsRestorePart;
    var i, j :| 0 <= i <= j <= |log| && AllInert(log[..i]) && IsForcingPart(t, log[i..j])
      && if restored then Forced(log[i..j]) && IsRestore(log[j..]) else j == |log|;
    if restored {
      RestoreIsPart(log[j..]);
    } else {
      assert log[j..] == [];
      NothingIsRestorePart();
    }
    assert IsRestorePart(log[j..]);
  }

  lemma NothingIsRestorePart()
    ensures IsRestorePart([])
  {
    InertIsRestorePart([]);
  }

  // ---- enough voltage ------------------------------------------------------------

  lemma RestoreSupplied(g: Gpu, log: seq<Served>)
    requires IsRestorePart(log)
    ensures Supplied(g, log)
  {
    hide Supplied, AllInert, IsUnforcePart;
    var i, j :| 0 <= i <= j <= |log| && AllInert(log[..i]) && IsUnforcePart(log[i..j]) && AllInert(log[j..]);
    var a, b, c := log[..i], log[i..j], log[j..];
    assert log == a + (b + c);
    InertSupplied(g, a);
    UnforceSupplied(After(g, a), b);
    InertSupplied(After(After(g, a), b), c);
    SuppliedConcat(After(g, a), b, c);
    SuppliedConcat(g, a, b + c);
  }

  lemma PartSupplied(t: Target, g: Gpu, log: seq<Served>)
    requires CoversBoth(t) && IsRunPart(t, log)
    ensures Supplied(g, log)
  {
    hide Supplied, AllInert, IsForcingPart, IsRestorePart, CoversBoth;
    var i, j :| 0 <= i <= j <= |log|
      && AllInert(log[..i]) && IsForcingPart(t, log[i..j]) && IsRestorePart(log[j..]);
    var a, b, c := log[..i], log[i..j], log[j..];
    assert log == a + (b + c);
    InertSupplied(g, a);
    ForcingSupplied(t, After(g, a), b);
    RestoreSupplied(After(After(g, a), b), c);
    SuppliedConcat(After(g, a), b, c);
    SuppliedConcat(g, a, b + c);
  }

  /** A run broken off anywhere, with any refusals and from any covered state: exactly when a
      forced clock has enough voltage at every instant.  Accepting every "unforce freq" is enough. */
  lemma RunPartCovered(t: Target, g: Gpu, log: seq<Served>)
    requires CoversBoth(t) && IsRunPart(t, log) && Covered(g)
    ensures Always(Covered, g, log) <==> !Starved(g, log)
    ensures Honored(log) ==> Always(Covered, g, log)
  {
    hide Supplied, Always, Covered, Starved, Honored, CoversBoth, IsRunPart;
    PartSupplied(t, g, log);
    SuppliedIff(g, log);
  }

  // ---- what stays forced ---------------------------------------------------------

  /** Some "unforce freq" (0x3A) or "force freq" (0x39) was accepted. */
  ghost predicate Said(log: seq<Served>, msg: Word) {
    exists k :: 0 <= k < |log| && Accepted(log[k], Q0, msg)
  }

  lemma SaidByForcing(t: Target, log: seq<Served>)
    requires IsForcingPart(t, log)
    ensures Said(log, 0x39) <==> (|log| > 5 && log[5].status == 1) || (|log| > 6 && log[6].status == 1)
    ensures Said(log, 0x3A) <==> |log| > 1 && log[1].status == 1
  {
    ForcingAsks(t, log);
    hide IsForcingPart;
  }

  lemma SaidBehindInert(a: seq<Served>, b: seq<Served>, msg: Word)
    requires AllInert(a) && msg in {0x39, 0x3A}
    ensures Said(a + b, msg) <==> Said(b, msg)
  {
    if Said(b, msg) {
      var k :| 0 <= k < |b| && Accepted(b[k], Q0, msg);
      assert (a + b)[|a| + k] == b[k];
    }
    if Said(a + b, msg) {
      var k :| 0 <= k < |a + b| && Accepted((a + b)[k], Q0, msg);
      if k < |a| {
        assert IsInert(a[k]);
      } else {
        assert (a + b)[k] == b[k - |a|];
      }
    }
  }

  lemma RestoreLeaves(g: Gpu, log: seq<Served>)
    requires IsRestore(log) && g.freq.Some?
    ensures After(g, log).freq.None? <==> log[3].status == 1
  {
    hide AllInert, After;
    var a, b, c := log[..3], log[3..5], log[5..];
    assert log == a + (b + c) && b[0] == log[3];
    InertLeaves(g, a);
    UnforceSupplied(g, b);
    InertLeaves(After(g, b), c);
    AfterConcat(g, b, c);
    AfterConcat(g, a, b + c);
  }

  /** What a run leaves forced, from any state, with any refusals and even when calls gave up.
      After a restore it is the restore's own "unforce freq" that decides.  Without one, nothing
      is forced exactly when no clock was accepted and an old one, if any, was let go. */
  lemma RunLeaves(t: Target, g: Gpu, log: seq<Served>, restored: bool)
    requires IsEnded(t, log, restored)
    ensures restored ==> |log| >= 6 && (After(g, log).freq.None? <==> log[|log| - 3].status == 1)
    ensures !restored ==> (After(g, log).freq.None? <==> !Said(log, 0x39) && (g.freq.None? || Said(log, 0x3A)))
  {
    hide AllInert, IsForcingPart, IsRestore, After, Said, Forced;
    var i, j :| 0 <= i <= j <= |log| && AllInert(log[..i]) && IsForcingPart(t, log[i..j])
      && if restored then Forced(log[i..j]) && IsRestore(log[j..]) else j == |log|;
    var a, b, c := log[..i], log[i..j], log[j..];
    assert log == a + (b + c);
    InertLeaves(g, a);
    AfterConcat(g, a, b + c);
    ForcingLeaves(t, g, b);
    if restored {
      AfterConcat(g, b, c);
      ForcedStays(t, g, b);
      RestoreLeaves(After(g, b), c);
      RestoreLength(c);
      assert log[|log| - 3] == c[3];
    } else {
      assert b + c == b;
      SaidByForcing(t, b);
      SaidBehindInert(a, b, 0x39);
      SaidBehindInert(a, b, 0x3A);
    }
  }

  lemma RestoreLength(log: seq<Served>)
    requires IsRestore(log)
    ensures |log| == 6
  {
  }

  lemma ForcedStays(t: Target, g: Gpu, log: seq<Served>)
    requires IsForcingPart(t, log) && Forced(log)
    ensures After(g, log).freq.Some?
  {
    ForcingAsks(t, log);
    ForcingLeaves(t, g, log);
  }

  /** In particular, on every exit path of a run in which nothing timed out and "unforce freq"
      was not refused, a forced clock is covered at every instant and none remains forced. */
  lemma RunCovered(t: Target, g: Gpu, log: seq<Served>)
    requires CoversBoth(t) && IsRun(t, log) && Covered(g) && Honored(log)
    ensures Always(Covered, g, log)
    ensures g.freq.None? ==> After(g, log).freq.None?
  {
    hide CoversBoth, Covered, Always, After, Honored, IsRunPart, IsEnded, Starved, Said, IsRun;
    RunIsEnded(t, log);
    if IsEnded(t, log, true) {
      EndedIsPart(t, log, true);
      RunLeaves(t, g, log, true);
      RestoredHonestly(t, log);
    } else {
      EndedIsPart(t, log, false);
      RunLeaves(t, g, log, false);
      NothingForced(t, log);
    }
    RunPartCovered(t, g, log);
  }

  lemma RestoredHonestly(t: Target, log: seq<Served>)
    requires IsEnded(t, log, true) && Honored(log)
    ensures |log| >= 6 && log[|log| - 3].status == 1
  {
    hide AllInert, IsForcingPart, Forced;
    var i, j :| 0 <= i <= j <= |log| && AllInert(log[..i]) && IsForcingPart(t, log[i..j])
      && Forced(log[i..j]) && IsRestore(log[j..]);
    assert log[j..][3..5][0] == log[j + 3] && Is(log[j + 3], Q0, 0x3A);
  }

  lemma EndsAt(t: Target, log: seq<Served>, i: nat, j: nat)
    requires i <= j <= |log| && AllInert(log[..i]) && IsForcing(t, log[i..j])
    requires Forced(log[i..j]) ==> IsRestore(log[j..])
    ensures Forced(log[i..j]) ==> IsEnded(t, log, true)
  {
    hide AllInert, Forced, IsRestore;
  }

  /** A run without a restore in which nothing timed out forced no clock. */
  lemma NothingForced(t: Target, log: seq<Served>)
    requires IsRun(t, log) && !IsEnded(t, log, true)
    ensures !Said(log, 0x39)
  {
    hide AllInert, IsForcingPart, IsRestore, Said, IsEnded, Forced;
    if AllInert(log) {
      InertSaysNothing(log);
    } else {
      var i, j :| 0 <= i <= j <= |log| && AllInert(log[..i]) && IsForcing(t, log[i..j])
        && if Forced(log[i..j]) then IsRestore(log[j..]) else j == |log|;
      EndsAt(t, log, i, j);
      NotForced(t, log[i..j]);
      assert log[..i] + log[i..j] == log;
      SaidBehindInert(log[..i], log[i..j], 0x39);
    }
  }

  lemma InertSaysNothing(log: seq<Served>)
    requires AllInert(log)
    ensures !Said(log, 0x39)
  {
  }

  lemma NotForced(t: Target, log: seq<Served>)
    requires IsForcing(t, log) && !Forced(log)
    ensures !Said(log, 0x39)
  {
    SaidByForcing(t, log);
    ForcingAsks(t, log);
  }

  // ---- the tools -----------------------------------------------------------------

  lemma ForcingServed(t: Target, log: seq<Served>)
    requires G.Serves(log, ForceScript(t))
    requires (|log| > 4 ==> log[3].status == 1) && (|log| > 5 ==> log[4].status == 1)
    ensures IsForcingPart(t, log)
  {
  }

  method Force(bus: B.SmnBus, t: Target) returns (ok: bool)
    requires bus.Tracked()
    modifies bus
    ensures bus.Progressed()
    ensures exists n :: 4 <= n <= 7 && (ok ==> n >= 6) && bus.sent == old(bus.sent) + ForceScript(t)[..n]
    ensures IsForcingPart(t, G.Since(old(bus.known), bus.known))
    ensures !bus.lost && ok ==> Forced(G.Since(old(bus.known), bus.known))
    ensures !bus.lost && !bus.gaveUp ==>
      && IsForcing(t, G.Since(old(bus.known), bus.known))
      && (ok <==> Forced(G.Since(old(bus.known), bus.known)))
  {
    hide G.Serves, G.Since, CodeOf, MvToVid, IsForcingPart;
    G.AcceptedIsOne();
    ghost var log0, sent0, script := bus.known, bus.sent, ForceScript(t);
    assert sent0 + script[..0] == sent0;
    G.NothingSince(log0, script);
    var r := G.SendNext(bus, Q3, 0x8C, 80, script, 0, log0, sent0);
    r := G.SendNext(bus, Q0, 0x3A, 0, script, 1, log0, sent0);
    r := G.SendNext(bus, Q0, 0x3C, 0, script, 2, log0, sent0);
    var vid := MvToVid(t.mv);
    r := G.SendNext(bus, Q3, 0x1E, 3, script, 3, log0, sent0);
    ForcingServed(t, G.Since(log0, bus.known));
    if r != 1 { return false; }
    bus.Sleep();
    r := G.SendNext(bus, Q0, 0x3B, ToU32(vid), script, 4, log0, sent0);
    ForcingServed(t, G.Since(log0, bus.known));
    if r != 1 { return false; }
    bus.Sleep();
    ok := ForceClock(bus, t, log0, sent0);
  }

  /** The clock, and the fallback clock when it is not accepted. */
  method ForceClock(bus: B.SmnBus, t: Target, ghost log0: seq<Served>, ghost sent0: seq<B.Sent>) returns (ok: bool)
    requires bus.Tracked() && bus.sent == sent0 + ForceScript(t)[..5]
    requires log0 <= bus.known && IsForcingPart(t, G.Since(log0, bus.known)) && |G.Since(log0, bus.known)| <= 5
    requires !bus.lost ==> |G.Since(log0, bus.known)| == 5 && G.Since(log0, bus.known)[4].status == 1
    modifies bus
    ensures bus.Progressed() && log0 <= bus.known && IsForcingPart(t, G.Since(log0, bus.known))
    ensures bus.sent == sent0 + ForceScript(t)[..6] || bus.sent == sent0 + ForceScript(t)[..7]
    ensures !bus.lost && ok ==> Forced(G.Since(log0, bus.known))
    ensures !bus.lost && !bus.gaveUp ==>
      && IsForcing(t, G.Since(log0, bus.known))
      && (ok <==> Forced(G.Since(log0, bus.known)))
  {
    hide G.Serves, G.Since, CodeOf, MvToVid;
    G.AcceptedIsOne();
    ghost var script := ForceScript(t);
    var r := G.SendNext(bus, Q0, 0x39, t.freq, script, 5, log0, sent0);
    if r != 1 {
      r := G.SendNext(bus, Q0, 0x39, t.fallback, script, 6, log0, sent0);
      if r != 1 { return false; }
    }
    bus.Sleep();
    return true;
  }

  lemma InertConcat(log0: seq<Served>, log1: seq<Served>, log2: seq<Served>)
    requires log0 <= log1 <= log2 && AllInert(G.Since(log0, log1)) && AllInert(G.Since(log1, log2))
    ensures AllInert(G.Since(log0, log2))
  {
    assert G.Since(log0, log2) == G.Since(log0, log1) + G.Since(log1, log2);
  }

  const CHECK := [B.Sent(Q3, 1, 123)]
  const RETRY := [B.Sent(Q3, 1, 123), B.Sent(Q0, 1, 123)]
  const REPORT := [B.Sent(Q0, 0x37, 0), B.Sent(Q0, 0x1E, 0), B.Sent(Q0, 0x3D, 0), B.Sent(Q0, 0x38, 0)]
  const RESTORE := [B.Sent(Q0, 0x37, 0), B.Sent(Q0, 0x1E, 0), B.Sent(Q0, 0x3D, 0),
                    B.Sent(Q0, 0x3A, 0), B.Sent(Q0, 0x3C, 0), B.Sent(Q0, 0x37, 0)]

  predicate Good(e: Served) {
    e.status == 1 && e.result == 124
  }

  /** The SMU is taken for alive: the test message was answered with 124 on Q3, or accepted,
      with whatever answer, when it was sent again on Q0. */
  predicate IsAlive(log: seq<Served>) {
    |log| > 0 && (Good(log[0]) || (|log| > 1 && log[1].status == 1))
  }

  /** Entries of the alive check. */
  function CheckLength(log: seq<Served>): nat {
    if |log| > 0 && Good(log[0]) then 1 else 2
  }

  /** The alive check on Q3, then Q0, and the report of the state before. */
  method Probe(bus: B.SmnBus) returns (alive: bool)
    requires bus.Tracked()
    modifies bus
    ensures bus.Progressed()
    ensures AllInert(G.Since(old(bus.known), bus.known))
    ensures if alive
            then bus.sent == old(bus.sent) + CHECK + REPORT || bus.sent == old(bus.sent) + RETRY + REPORT
            else bus.sent == old(bus.sent) + RETRY
    ensures !bus.lost && alive ==> IsAlive(G.Since(old(bus.known), bus.known))
    ensures !bus.lost && !bus.gaveUp ==>
      var log := G.Since(old(bus.known), bus.known);
      && (alive <==> IsAlive(log))
      && |log| == CheckLength(log) + if alive then |REPORT| else 0
  {
    hide AllInert, CodeOf;
    G.AcceptedIsOne();
    ghost var log0 := bus.known;
    var r, tst := G.Ask(bus, Q3, 1, 123);
    ghost var log1 := bus.known;
    if r != 1 || tst != 124 {
      var q0tst;
      r, q0tst := G.Ask(bus, Q0, 1, 123);
      InertConcat(log0, log1, bus.known);
    }
    if r != 1 { return false; }
    ghost var log2 := bus.known;
    var freq, wgp, feat := G.PrintStatus(bus);
    ghost var log3 := bus.known;
    var code, vidCur := G.Ask(bus, Q0, 0x38, 0);
    InertConcat(log0, log2, log3);
    InertConcat(log0, log3, bus.known);
    return true;
  }

  method Restore(bus: B.SmnBus)
    requires bus.Tracked()
    modifies bus
    ensures bus.Progressed()
    ensures bus.sent == old(bus.sent) + RESTORE
    ensures IsRestorePart(G.Since(old(bus.known), bus.known))
    ensures !bus.lost ==> IsRestore(G.Since(old(bus.known), bus.known))
  {
    hide AllInert, IsUnforce, IsUnforcePart, IsRestore, IsRestorePart, G.Serves, G.Since, CodeOf;
    ghost var log0, sent0 := bus.known, bus.sent;
    var freq2, wgp2, feat2 := G.PrintStatus(bus);
    ghost var log1 := bus.known;
    G.GovernorUnforce(bus);
    ghost var log2 := bus.known;
    var code, freq3 := G.Ask(bus, Q0, 0x37, 0);
    RestoreLogged(log0, log1, log2, bus.known);
    RestoreSent(sent0, bus.sent);
  }

  lemma RestoreLogged(log0: seq<Served>, log1: seq<Served>, log2: seq<Served>, log: seq<Served>)
    requires log0 <= log1 <= log2 <= log
    requires AllInert(G.Since(log0, log1)) && IsUnforcePart(G.Since(log1, log2)) && AllInert(G.Since(log2, log))
    ensures IsRestorePart(G.Since(log0, log))
    ensures |G.Since(log0, log1)| == 3 && IsUnforce(G.Since(log1, log2)) && |G.Since(log2, log)| == 1 ==>
      IsRestore(G.Since(log0, log))
  {
    hide AllInert, IsUnforce, IsUnforcePart, IsRestore, IsRestorePart, G.Since;
    Parts(log0, log1, log2, log);
    SinceLength(log0, log1);
    SinceLength(log0, log);
    RestoreParts(G.Since(log0, log), |log1| - |log0|, |log2| - |log0|);
  }

  lemma SinceLength(log0: seq<Served>, log: seq<Served>)
    requires log0 <= log
    ensures |G.Since(log0, log)| == |log| - |log0|
  {
  }

  lemma RestoreSent(sent0: seq<B.Sent>, sent: seq<B.Sent>)
    requires sent == sent0 + G.STATUS_SCRIPT + G.UNFORCE_SCRIPT + [B.Sent(Q0, 0x37, 0)]
    ensures sent == sent0 + RESTORE
  {
    assert G.STATUS_SCRIPT + G.UNFORCE_SCRIPT + [B.Sent(Q0, 0x37, 0)] == RESTORE;
  }

  lemma RestoreParts(log: seq<Served>, i: nat, j: nat)
    requires i <= j <= |log| && AllInert(log[..i]) && IsUnforcePart(log[i..j]) && AllInert(log[j..])
    ensures IsRestorePart(log)
    ensures i == 3 && IsUnforce(log[i..j]) && |log[j..]| == 1 ==> IsRestore(log)
  {
    hide AllInert, IsUnforcePart;
    if i == 3 && IsUnforce(log[i..j]) {
      UnforceLength(log[i..j]);
    }
  }

  lemma UnforceLength(log: seq<Served>)
    requires IsUnforce(log)
    ensures |log| == 2
  {
  }

  /** A log cut at two later points of the run. */
  lemma Parts(log0: seq<Served>, log1: seq<Served>, log2: seq<Served>, log: seq<Served>)
    requires log0 <= log1 <= log2 <= log
    ensures var s, i, j := G.Since(log0, log), |log1| - |log0|, |log2| - |log0|;
      s[..i] == G.Since(log0, log1) && s[i..j] == G.Since(log1, log2) && s[j..] == G.Since(log2, log)
  {
  }

  /** governor-sequence (SEQUENCE) and governor-sequence-oc2000 (OC2000). */
  method RunSequence(bus: B.SmnBus, t: Target, ghost g: Gpu) returns (exit: int)
    requires bus.Tracked()
    modifies bus
    ensures bus.Progressed()
    ensures exit == 0 || exit == 1
    ensures SequenceSent(t, old(bus.sent), bus.sent, exit == 0)
    ensures !bus.lost && !bus.gaveUp ==> GoesAsTold(t, G.Since(old(bus.known), bus.known), exit == 0)
    ensures IsRunPart(t, G.Since(old(bus.known), bus.known))
    ensures CoversBoth(t) && Covered(g) ==>
      && (Always(Covered, g, G.Since(old(bus.known), bus.known)) <==> !Starved(g, G.Since(old(bus.known), bus.known)))
      && (Honored(G.Since(old(bus.known), bus.known)) ==> Always(Covered, g, G.Since(old(bus.known), bus.known)))
    ensures !bus.lost ==>
      && IsEnded(t, G.Since(old(bus.known), bus.known), exit == 0)
      && StaysForcedIff(g, G.Since(old(bus.known), bus.known), exit == 0)
    ensures !bus.lost && !bus.gaveUp ==> IsRun(t, G.Since(old(bus.known), bus.known))
    ensures !bus.lost && !bus.gaveUp && CoversBoth(t) && Covered(g)
            && Honored(G.Since(old(bus.known), bus.known)) && g.freq.None? ==>
      After(g, G.Since(old(bus.known), bus.known)).freq.None?
  {
    hide AllInert, IsForcing, IsForcingPart, IsRestore, IsRestorePart, Always, Covered, CoversBoth, Honored, After,
         Starved, StaysForcedIff, Forced, SequenceSent, IsAlive, Good, CheckLength, ForceScript, GoesAsTold, IsRun,
         IsRunPart, IsEnded, G.Since, CodeOf;
    ghost var log0, sent0 := bus.known, bus.sent;
    var alive := Probe(bus);
    ghost var log1 := bus.known;
    ghost var sent1 := bus.sent;
    if !alive {
      DeadSent(t, sent0, bus.sent);
      DeadFinishes(t, G.Since(log0, bus.known), !bus.lost && !bus.gaveUp);
      InertIsRunPart(t, G.Since(log0, bus.known));
      InertIsEnded(t, G.Since(log0, bus.known));
      RunEnds(t, g, G.Since(log0, bus.known), false);
      return 1;
    }
    var ok := Force(bus, t);
    ghost var log2, sent2 := bus.known, bus.sent;
    NothingRestored(log2);
    if ok {
      Restore(bus);
    }
    AliveSent(t, sent0, sent1, sent2, bus.sent, ok);
    NothingLeft(log2);
    Finishes(t, log0, log1, log2, bus.known, ok, !bus.lost, !bus.lost && !bus.gaveUp);
    RunEnds(t, g, G.Since(log0, bus.known), ok);
    return if ok then 0 else 1;
  }

  /** The whole trace: a dead SMU gets the two test messages; a live one the report, the forcing,
      broken off after a refusal, and, when told that a clock is forced, the restore. */
  ghost predicate SequenceSent(t: Target, sent0: seq<B.Sent>, sent: seq<B.Sent>, restored: bool) {
    || (!restored && sent == sent0 + RETRY)
    || exists check, n :: check in {CHECK, RETRY} && 4 <= n <= 7 && (restored ==> n >= 6)
         && sent == sent0 + check + REPORT + ForceScript(t)[..n] + if restored then RESTORE else []
  }

  /** Every message of a run that restores. */
  function Trace(t: Target, again: bool, fell: bool): seq<B.Sent> {
    var force := [B.Sent(Q3, 0x8C, 80), B.Sent(Q0, 0x3A, 0), B.Sent(Q0, 0x3C, 0), B.Sent(Q3, 0x1E, 3),
                  B.Sent(Q0, 0x3B, ToU32(MvToVid(t.mv))), B.Sent(Q0, 0x39, t.freq)];
    (if again then [B.Sent(Q3, 1, 123), B.Sent(Q0, 1, 123)] else [B.Sent(Q3, 1, 123)])
    + [B.Sent(Q0, 0x37, 0), B.Sent(Q0, 0x1E, 0), B.Sent(Q0, 0x3D, 0), B.Sent(Q0, 0x38, 0)]
    + (if fell then force + [B.Sent(Q0, 0x39, t.fallback)] else force)
    + [B.Sent(Q0, 0x37, 0), B.Sent(Q0, 0x1E, 0), B.Sent(Q0, 0x3D, 0),
       B.Sent(Q0, 0x3A, 0), B.Sent(Q0, 0x3C, 0), B.Sent(Q0, 0x37, 0)]
  }

  lemma TraceParts(t: Target, check: seq<B.Sent>, n: nat)
    requires check in {CHECK, RETRY} && 6 <= n <= 7
    ensures check + REPORT + ForceScript(t)[..n] + RESTORE == Trace(t, check == RETRY, n == 7)
  {
    hide MvToVid, ToU32;
    assert |CHECK| == 1 && |RETRY| == 2;
  }

  /** With exit code 0 only the second test message and the fallback clock are left to the
      firmware's answers. */
  lemma SuccessfulTrace(t: Target, sent0: seq<B.Sent>, sent: seq<B.Sent>)
    requires SequenceSent(t, sent0, sent, true)
    ensures exists again, fell :: sent == sent0 + Trace(t, again, fell)
  {
    hide ForceScript, Trace;
    var check, n :| check in {CHECK, RETRY} && 4 <= n <= 7 && n >= 6
      && sent == sent0 + check + REPORT + ForceScript(t)[..n] + RESTORE;
    TraceParts(t, check, n);
    Reassociate(sent0, check, REPORT, ForceScript(t)[..n], RESTORE);
  }

  lemma Reassociate(a: seq<B.Sent>, b: seq<B.Sent>, c: seq<B.Sent>, d: seq<B.Sent>, e: seq<B.Sent>)
    ensures a + b + c + d + e == a + (b + c + d + e)
  {
  }

  lemma DeadSent(t: Target, sent0: seq<B.Sent>, sent: seq<B.Sent>)
    requires sent == sent0 + RETRY
    ensures SequenceSent(t, sent0, sent, false)
  {
  }

  lemma DeadFinishes(t: Target, log: seq<Served>, prompt: bool)
    requires AllInert(log) && (prompt ==> !IsAlive(log) && |log| == CheckLength(log))
    ensures IsRun(t, log) && (prompt ==> GoesAsTold(t, log, false))
  {
    hide AllInert;
  }

  lemma NothingLeft(log: seq<Served>)
    ensures G.Since(log, log) == []
  {
  }

  lemma Finishes(t: Target, log0: seq<Served>, log1: seq<Served>, log2: seq<Served>, log: seq<Served>,
                 restored: bool, told: bool, prompt: bool)
    requires log0 <= log1 <= log2 <= log
    requires AllInert(G.Since(log0, log1)) && IsForcingPart(t, G.Since(log1, log2)) && IsRestorePart(G.Since(log2, log))
    requires told && restored ==> Forced(G.Since(log1, log2)) && IsRestore(G.Since(log2, log))
    requires told && !restored ==> G.Since(log2, log) == []
    requires prompt ==> told && IsForcing(t, G.Since(log1, log2)) && (restored <==> Forced(G.Since(log1, log2)))
    requires prompt ==> IsAlive(G.Since(log0, log1))
                        && |G.Since(log0, log1)| == CheckLength(G.Since(log0, log1)) + |REPORT|
    ensures IsRunPart(t, G.Since(log0, log))
    ensures told ==> IsEnded(t, G.Since(log0, log), restored)
    ensures prompt ==> IsRun(t, G.Since(log0, log)) && GoesAsTold(t, G.Since(log0, log), restored)
  {
    hide AllInert, IsForcingPart, IsForcing, Forced, IsRestorePart, IsAlive, CheckLength, IsRestore, IsRunPart, IsEnded,
         IsRun, GoesAsTold, G.Since;
    Parts(log0, log1, log2, log);
    SinceLength(log0, log1);
    SinceLength(log0, log);
    FinishesAt(t, G.Since(log0, log), |log1| - |log0|, |log2| - |log0|, restored, told, prompt);
  }

  lemma FinishesAt(t: Target, log: seq<Served>, i: nat, j: nat, restored: bool, told: bool, prompt: bool)
    requires i <= j <= |log| && AllInert(log[..i]) && IsForcingPart(t, log[i..j]) && IsRestorePart(log[j..])
    requires told && restored ==> Forced(log[i..j]) && IsRestore(log[j..])
    requires told && !restored ==> log[j..] == []
    requires prompt ==> told && IsForcing(t, log[i..j]) && (restored <==> Forced(log[i..j]))
    requires prompt ==> IsAlive(log[..i]) && i == CheckLength(log[..i]) + |REPORT|
    ensures IsRunPart(t, log)
    ensures told ==> IsEnded(t, log, restored)
    ensures prompt ==> IsRun(t, log) && GoesAsTold(t, log, restored)
  {
    hide AllInert, IsForcingPart, IsForcing, Forced, IsRestorePart, IsAlive, CheckLength, IsRestore, IsRun, GoesAsTold;
    if told && !restored {
      assert j == |log|;
    }
    if prompt {
      PromptlyAt(t, log, i, j, restored);
    }
  }

  lemma PromptlyAt(t: Target, log: seq<Served>, i: nat, j: nat, restored: bool)
    requires i <= j <= |log| && AllInert(log[..i]) && IsForcing(t, log[i..j]) && (restored <==> Forced(log[i..j]))
    requires if restored then IsRestore(log[j..]) else j == |log|
    requires IsAlive(log[..i]) && i == CheckLength(log[..i]) + |REPORT|
    ensures IsRun(t, log) && GoesAsTold(t, log, restored)
  {
    hide AllInert, IsForcing, Forced, IsAlive, CheckLength, IsRestore;
    AliveGoesOn(log, i);
    if restored {
      RestoreLength(log[j..]);
      assert j == |log| - |RESTORE|;
    } else {
      assert log[i..j] == log[i..];
    }
  }

  lemma AliveSent(t: Target, sent0: seq<B.Sent>, sent1: seq<B.Sent>, sent2: seq<B.Sent>, sent: seq<B.Sent>,
                  restored: bool)
    requires sent1 == sent0 + CHECK + REPORT || sent1 == sent0 + RETRY + REPORT
    requires exists n :: 4 <= n <= 7 && (restored ==> n >= 6) && sent2 == sent1 + ForceScript(t)[..n]
    requires sent == sent2 + if restored then RESTORE else []
    ensures SequenceSent(t, sent0, sent, restored)
  {
    hide ForceScript;
    var n :| 4 <= n <= 7 && (restored ==> n >= 6) && sent2 == sent1 + ForceScript(t)[..n];
    var check := if sent1 == sent0 + CHECK + REPORT then CHECK else RETRY;
    assert check in {CHECK, RETRY};
    assert sent == sent0 + check + REPORT + ForceScript(t)[..n] + if restored then RESTORE else [];
  }

  /** A run in which nothing timed out, by the firmware's own verdicts: it gives up on a dead SMU
      after two messages; otherwise the forcing follows the report, and the restore follows and
      the exit code is 0 exactly when profile, voltage and one of the clocks were accepted. */
  ghost predicate GoesAsTold(t: Target, log: seq<Served>, restored: bool) {
    if !IsAlive(log) then !restored && |log| == 2
    else
      var i := CheckLength(log) + |REPORT|;
      if restored
      then |log| >= i + |RESTORE| && IsForcing(t, log[i..|log| - |RESTORE|])
           && Forced(log[i..|log| - |RESTORE|]) && IsRestore(log[|log| - |RESTORE|..])
      else |log| >= i && IsForcing(t, log[i..]) && !Forced(log[i..])
  }

  /** Where a run in which nothing timed out ends, entry by entry: behind one or two test messages
      and four queries, the profile, the voltage and at least one of the two clocks have to be
      accepted, else it stops there; then come the six messages of the restore. */
  lemma EndsWhere(t: Target, log: seq<Served>, restored: bool)
    requires GoesAsTold(t, log, restored)
    ensures |log| >= 1
    ensures var i := if log[0].status == 1 && log[0].result == 124 then 5 else 6;
      if i == 6 && (|log| == 1 || log[1].status != 1) then |log| == 2 && !restored
      else
        && |log| >= i + 4
        && (log[i + 3].status != 1 ==> |log| == i + 4 && !restored)
        && (log[i + 3].status == 1 ==> |log| >= i + 5)
        && (log[i + 3].status == 1 && log[i + 4].status != 1 ==> |log| == i + 5 && !restored)
        && (log[i + 3].status == 1 && log[i + 4].status == 1 ==>
              && |log| >= i + 6
              && (log[i + 5].status == 1 ==> |log| == i + 12 && restored)
              && (log[i + 5].status != 1 ==>
                    && |log| >= i + 7
                    && (restored <==> log[i + 6].status == 1)
                    && |log| == if restored then i + 13 else i + 7))
  {
    hide AllInert, IsUnforce, IsForcing;
    if IsAlive(log) {
      var i := CheckLength(log) + |REPORT|;
      var force := if restored then log[i..|log| - |RESTORE|] else log[i..];
      assert IsForcing(t, force);
      assert forall k :: 0 <= k < |force| ==> force[k] == log[i + k];
      ForcingLength(t, force);
    }
  }

  /** The alive check is decided by its own entries, whatever follows. */
  lemma AliveGoesOn(log: seq<Served>, i: nat)
    requires |REPORT| <= i <= |log|
    ensures IsAlive(log[..i]) == IsAlive(log) && CheckLength(log[..i]) == CheckLength(log)
  {
  }

  /** When a run that came to its end leaves a clock forced. */
  ghost predicate StaysForcedIff(g: Gpu, log: seq<Served>, restored: bool) {
    After(g, log).freq.Some? <==>
      if restored then |log| < 6 || log[|log| - 3].status != 1
      else Said(log, 0x39) || (g.freq.Some? && !Said(log, 0x3A))
  }

  lemma InertIsRunPart(t: Target, log: seq<Served>)
    requires AllInert(log)
    ensures IsRunPart(t, log)
  {
    InertIsEnded(t, log);
    EndedIsPart(t, log, false);
  }

  lemma NothingRestored(log: seq<Served>)
    ensures IsRestorePart(G.Since(log, log))
  {
    InertIsRestorePart(G.Since(log, log));
  }

  lemma RunEnds(t: Target, g: Gpu, log: seq<Served>, restored: bool)
    requires IsRunPart(t, log)
    ensures CoversBoth(t) && Covered(g) ==>
      (Always(Covered, g, log) <==> !Starved(g, log)) && (Honored(log) ==> Always(Covered, g, log))
    ensures IsEnded(t, log, restored) ==> StaysForcedIff(g, log, restored)
    ensures CoversBoth(t) && Covered(g) && Honored(log) && IsRun(t, log) && g.freq.None? ==> After(g, log).freq.None?
  {
    hide IsRunPart, IsEnded, IsRun, CoversBoth, Covered, Always, Starved, Honored, After, Said;
    if CoversBoth(t) && Covered(g) {
      RunPartCovered(t, g, log);
      if Honored(log) && IsRun(t, log) {
        RunCovered(t, g, log);
      }
    }
    if IsEnded(t, log, restored) {
      RunLeaves(t, g, log, restored);
    }
  }
}
