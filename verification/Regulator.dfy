/** What the served messages do to the GPU's clock and voltage, and what it means for a
    whole run of them to be safe. */
module Regulator {
  import opened Common
  import opened Vid
  import opened SafePoints
  import opened Smu

  /** `None` means not forced (for `profile`: never set). */
  datatype Gpu = Gpu(freq: Option<int>, vid: Option<int>, profile: Option<int>)

  /** Only accepted messages act. */
  function Effect(g: Gpu, e: Served): Gpu {
    if e.status != 1 then g
    else if e.queue == Q0 then
      if e.msg == 0x3A then g.(freq := None)
      else if e.msg == 0x3C then g.(vid := None)
      else if e.msg == 0x3B then g.(vid := Some(e.arg))
      else if e.msg == 0x39 then g.(freq := Some(e.arg))
      else g
    else if e.msg == 0x1E then g.(profile := Some(e.arg))
    else g
  }

  function After(g: Gpu, log: seq<Served>): Gpu
    decreases |log|
  {
    if log == [] then g else Effect(After(g, log[..|log| - 1]), log[|log| - 1])
  }

  lemma AfterStep(g: Gpu, log: seq<Served>, k: nat)
    requires k < |log|
    ensures After(g, log[..k + 1]) == Effect(After(g, log[..k]), log[k])
  {
    assert log[..k + 1][..k] == log[..k];
  }

  lemma {:induction false} AfterConcat(g: Gpu, a: seq<Served>, b: seq<Served>)
    ensures After(g, a + b) == After(After(g, a), b)
    decreases |b|
  {
    if b == [] {
      assert a + b == a;
    } else {
      assert (a + b)[..|a + b| - 1] == a + b[..|b| - 1];
      AfterConcat(g, a, b[..|b| - 1]);
    }
  }

  // ---- predicates over every instant of a run ------------------------------------

  /** `p` holds before the run, between any two messages and after the run. */
  ghost predicate Always(p: Gpu -> bool, g: Gpu, log: seq<Served>) {
    forall k :: 0 <= k <= |log| ==> p(After(g, log[..k]))
  }

  lemma AlwaysConcat(p: Gpu -> bool, g: Gpu, a: seq<Served>, b: seq<Served>)
    ensures Always(p, g, a + b) <==> Always(p, g, a) && Always(p, After(g, a), b)
  {
    forall k | 0 <= k <= |a| ensures (a + b)[..k] == a[..k] {
    }
    forall k | 0 <= k <= |b|
      ensures After(g, (a + b)[..|a| + k]) == After(After(g, a), b[..k])
    {
      assert (a + b)[..|a| + k] == a + b[..k];
      AfterConcat(g, a, b[..k]);
    }
    if Always(p, g, a) && Always(p, After(g, a), b) {
      forall k | 0 <= k <= |a + b| ensures p(After(g, (a + b)[..k])) {
        if k <= |a| {
          assert p(After(g, a[..k]));
        } else {
          assert p(After(After(g, a), b[..k - |a|]));
          assert (a + b)[..|a| + (k - |a|)] == (a + b)[..k];
        }
      }
    }
    if Always(p, g, a + b) {
      forall k | 0 <= k <= |a| ensures p(After(g, a[..k])) {
        assert p(After(g, (a + b)[..k]));
      }
      forall k | 0 <= k <= |b| ensures p(After(After(g, a), b[..k])) {
        assert p(After(g, (a + b)[..|a| + k]));
      }
    }
  }

  // ---- safety --------------------------------------------------------------------

  function VidFor(p: SafePoint): Word {
    ToU32(MvToVid(p.mv))
  }

  /** The GPU is forced to exactly this point. */
  predicate Backs(p: SafePoint, g: Gpu) {
    g == Gpu(Some(p.freq), Some(VidFor(p)), Some(p.profile))
  }

  /** Nothing is forced, or exactly `p` is. */
  predicate AtMost(p: SafePoint, g: Gpu) {
    g.freq.None? || Backs(p, g)
  }

  /** A forced frequency comes with the voltage and profile of its safe point. */
  predicate Safe(g: Gpu) {
    g.freq.None? || exists p :: p in SERVICE && Backs(p, g)
  }

  /** A forced frequency comes with a forced voltage whose rail reaches what the service's
      table asks for that frequency. */
  predicate Covered(g: Gpu) {
    g.freq.Some? ==> g.vid.Some? && Enough(g.freq.value, g.vid.value)
  }

  /** The rail of a VID reaches what the service's table asks for a frequency. */
  predicate Enough(freq: int, vid: int) {
    Pick(SERVICE, freq).mv as real <= RailMv(vid)
  }

  lemma AtMostIsSafe(p: SafePoint, g: Gpu)
    requires p in SERVICE && AtMost(p, g)
    ensures Safe(g)
  {
  }

  lemma BackedIsCovered(p: SafePoint, g: Gpu)
    requires p in SERVICE && Backs(p, g)
    ensures Covered(g)
  {
    RailCoversPoint(p);
    TablesRise();
    PickOfPoint(SERVICE, p);
  }

  /** Membership of a safe point is enough voltage. */
  lemma SafeIsCovered(g: Gpu)
    requires Safe(g)
    ensures Covered(g)
  {
    if g.freq.Some? {
      var p :| p in SERVICE && Backs(p, g);
      BackedIsCovered(p, g);
    }
  }

  predicate Is(e: Served, q: Queue, msg: Word) {
    e.queue == q && e.msg == msg
  }

  predicate Accepted(e: Served, q: Queue, msg: Word) {
    Is(e, q, msg) && e.status == 1
  }

  /** Accepted "unforce vid" while a frequency is still forced. */
  predicate Drops(g: Gpu, e: Served) {
    Accepted(e, Q0, 0x3C) && g.freq.Some?
  }

  /** Accepted "force vid" of too low a voltage for a frequency still forced. */
  predicate Lowers(g: Gpu, e: Served) {
    Accepted(e, Q0, 0x3B) && g.freq.Some? && !Enough(g.freq.value, e.arg)
  }

  /** Accepted "force freq" without the voltage for it. */
  predicate Outruns(g: Gpu, e: Served) {
    Accepted(e, Q0, 0x39) && !(g.vid.Some? && Enough(e.arg, g.vid.value))
  }

  /** Some message of the run meets the state in which it is bad. */
  ghost predicate Somewhere(bad: (Gpu, Served) -> bool, g: Gpu, log: seq<Served>) {
    exists k :: 0 <= k < |log| && bad(After(g, log[..k]), log[k])
  }

  /** A forced frequency loses its voltage. */
  ghost predicate Hazard(g: Gpu, log: seq<Served>) {
    Somewhere(Drops, g, log)
  }

  /** A forced frequency loses its voltage or gets too little. */
  ghost predicate Starved(g: Gpu, log: seq<Served>) {
    Somewhere(Drops, g, log) || Somewhere(Lowers, g, log)
  }

  /** Every "unforce freq" was accepted. */
  ghost predicate Honored(log: seq<Served>) {
    forall k :: 0 <= k < |log| && Is(log[k], Q0, 0x3A) ==> log[k].status == 1
  }

  lemma StateInPrefix(g: Gpu, a: seq<Served>, b: seq<Served>, k: nat)
    requires k < |a|
    ensures (a + b)[..k] == a[..k] && (a + b)[k] == a[k]
  {
  }

  lemma StateInSuffix(g: Gpu, a: seq<Served>, b: seq<Served>, k: nat)
    requires k < |b|
    ensures After(g, (a + b)[..|a| + k]) == After(After(g, a), b[..k]) && (a + b)[|a| + k] == b[k]
  {
    assert (a + b)[..|a| + k] == a + b[..k];
    AfterConcat(g, a, b[..k]);
  }

  lemma SomewhereSplits(bad: (Gpu, Served) -> bool, g: Gpu, a: seq<Served>, b: seq<Served>)
    requires Somewhere(bad, g, a + b)
    ensures Somewhere(bad, g, a) || Somewhere(bad, After(g, a), b)
  {
    hide After;
    var k :| 0 <= k < |a + b| && bad(After(g, (a + b)[..k]), (a + b)[k]);
    if k < |a| {
      StateInPrefix(g, a, b, k);
    } else {
      StateInSuffix(g, a, b, k - |a|);
      assert bad(After(After(g, a), b[..k - |a|]), b[k - |a|]);
    }
  }

  lemma SomewhereInPrefix(bad: (Gpu, Served) -> bool, g: Gpu, a: seq<Served>, b: seq<Served>)
    requires Somewhere(bad, g, a)
    ensures Somewhere(bad, g, a + b)
  {
    hide After;
    var k :| 0 <= k < |a| && bad(After(g, a[..k]), a[k]);
    StateInPrefix(g, a, b, k);
    assert k < |a + b| && bad(After(g, (a + b)[..k]), (a + b)[k]);
  }

  lemma SomewhereInSuffix(bad: (Gpu, Served) -> bool, g: Gpu, a: seq<Served>, b: seq<Served>)
    requires Somewhere(bad, After(g, a), b)
    ensures Somewhere(bad, g, a + b)
  {
    hide After;
    var k :| 0 <= k < |b| && bad(After(After(g, a), b[..k]), b[k]);
    StateInSuffix(g, a, b, k);
    assert |a| + k < |a + b| && bad(After(g, (a + b)[..|a| + k]), (a + b)[|a| + k]);
  }

  lemma SomewhereConcat(bad: (Gpu, Served) -> bool, g: Gpu, a: seq<Served>, b: seq<Served>)
    ensures Somewhere(bad, g, a + b) <==> Somewhere(bad, g, a) || Somewhere(bad, After(g, a), b)
  {
    hide Somewhere, After;
    if Somewhere(bad, g, a + b) { SomewhereSplits(bad, g, a, b); }
    if Somewhere(bad, g, a) { SomewhereInPrefix(bad, g, a, b); }
    if Somewhere(bad, After(g, a), b) { SomewhereInSuffix(bad, g, a, b); }
  }

  lemma HonoredConcat(a: seq<Served>, b: seq<Served>)
    ensures Honored(a + b) ==> Honored(a) && Honored(b)
  {
    if Honored(a + b) {
      assert forall k :: 0 <= k < |a| ==> (a + b)[k] == a[k];
      assert forall k :: 0 <= k < |b| ==> (a + b)[|a| + k] == b[k];
    }
  }

  /** A run of the service holding point `p`: it is safe at every instant exactly when no
      forced frequency ever lost its voltage, and honouring every "unforce freq" is enough. */
  ghost predicate Guarded(p: SafePoint, g: Gpu, log: seq<Served>) {
    && (Always(Safe, g, log) <==> !Hazard(g, log))
    && (Honored(log) ==> !Hazard(g, log))
    && (!Hazard(g, log) ==> AtMost(p, After(g, log)))
  }

  lemma GuardedConcat(p: SafePoint, g: Gpu, a: seq<Served>, b: seq<Served>)
    requires Guarded(p, g, a)
    requires AtMost(p, After(g, a)) ==> Guarded(p, After(g, a), b)
    ensures Guarded(p, g, a + b)
  {
    hide Always, After, Honored, Somewhere;
    AlwaysConcat(Safe, g, a, b);
    SomewhereConcat(Drops, g, a, b);
    AfterConcat(g, a, b);
    HonoredConcat(a, b);
  }

  // ---- enough voltage ------------------------------------------------------------

  /** One message keeps a covered state covered unless it is bad in one of the three ways. */
  lemma CoveredStep(g: Gpu, e: Served)
    requires Covered(g)
    ensures Covered(Effect(g, e)) <==> !Drops(g, e) && !Lowers(g, e) && !Outruns(g, e)
  {
    hide Enough;
  }

  /** For any run whatever: from a covered state it stays covered exactly when no message is bad. */
  lemma {:induction false} CoveredIffNoneBad(g: Gpu, log: seq<Served>)
    requires Covered(g)
    ensures Always(Covered, g, log) <==>
      !Somewhere(Drops, g, log) && !Somewhere(Lowers, g, log) && !Somewhere(Outruns, g, log)
    decreases |log|
  {
    hide Covered, Effect, Drops, Lowers, Outruns, Always, Somewhere;
    if log == [] {
      NothingHappens(g);
    } else {
      var front, last := log[..|log| - 1], log[|log| - 1];
      assert log == front + [last];
      CoveredIffNoneBad(g, front);
      AlwaysConcat(Covered, g, front, [last]);
      SomewhereConcat(Drops, g, front, [last]);
      SomewhereConcat(Lowers, g, front, [last]);
      SomewhereConcat(Outruns, g, front, [last]);
      if Always(Covered, g, front) {
        AlwaysEnds(Covered, g, front);
        CoveredStep(After(g, front), last);
        OneHappens(After(g, front), last);
      }
    }
  }

  lemma AlwaysEnds(p: Gpu -> bool, g: Gpu, log: seq<Served>)
    requires Always(p, g, log)
    ensures p(After(g, log))
  {
    assert log[..|log|] == log;
  }

  lemma NothingHappens(g: Gpu)
    requires Covered(g)
    ensures Always(Covered, g, [])
    ensures !Somewhere(Drops, g, []) && !Somewhere(Lowers, g, []) && !Somewhere(Outruns, g, [])
  {
  }

  lemma OneHappens(g: Gpu, e: Served)
    requires Covered(g)
    ensures Always(Covered, g, [e]) <==> Covered(Effect(g, e))
    ensures Somewhere(Drops, g, [e]) <==> Drops(g, e)
    ensures Somewhere(Lowers, g, [e]) <==> Lowers(g, e)
    ensures Somewhere(Outruns, g, [e]) <==> Outruns(g, e)
  {
    hide Covered, Effect, Drops, Lowers, Outruns;
    assert [e][..0] == [] && [e][..1] == [e];
    assert After(g, []) == g && After(g, [e]) == Effect(After(g, []), e);
  }

  /** A run that never forces a frequency ahead of its voltage, and loses none while every
      "unforce freq" is accepted. */
  ghost predicate Supplied(g: Gpu, log: seq<Served>) {
    && !Somewhere(Outruns, g, log)
    && (Honored(log) ==> !Starved(g, log))
  }

  lemma SuppliedConcat(g: Gpu, a: seq<Served>, b: seq<Served>)
    requires Supplied(g, a) && Supplied(After(g, a), b)
    ensures Supplied(g, a + b)
  {
    hide Honored, Somewhere, After;
    SomewhereConcat(Drops, g, a, b);
    SomewhereConcat(Lowers, g, a, b);
    SomewhereConcat(Outruns, g, a, b);
    HonoredConcat(a, b);
  }

  /** Of such a run, from a covered state: a forced frequency has enough voltage at every
      instant exactly when it never loses its voltage nor gets too little. */
  lemma SuppliedIff(g: Gpu, log: seq<Served>)
    requires Covered(g) && Supplied(g, log)
    ensures Always(Covered, g, log) <==> !Starved(g, log)
    ensures Honored(log) ==> Always(Covered, g, log)
  {
    hide Covered, Always, Somewhere, Honored;
    CoveredIffNoneBad(g, log);
  }

  // ---- the message groups the tools send -----------------------------------------

  predicate Asks(e: Served, q: Queue, msg: Word, arg: Word) {
    e.queue == q && e.msg == msg && e.arg == arg
  }

  /** The entries of one change_freq, possibly broken off: what follows the profile is sent
      only while nothing is refused. */
  predicate IsRoundPart(p: SafePoint, log: seq<Served>) {
    && |log| <= 6
    && (|log| > 0 ==> Asks(log[0], Q3, 0x8C, 80))
    && (|log| > 1 ==> Asks(log[1], Q0, 0x3A, 0))
    && (|log| > 2 ==> Asks(log[2], Q0, 0x3C, 0))
    && (|log| > 3 ==> Asks(log[3], Q3, 0x1E, ToU32(p.profile)))
    && (|log| > 4 ==> log[3].status == 1 && Asks(log[4], Q0, 0x3B, VidFor(p)))
    && (|log| > 5 ==> log[4].status == 1 && Asks(log[5], Q0, 0x39, ToU32(p.freq)))
  }

  /** A whole one stops at the first refusal from the profile on, and nowhere else. */
  predicate IsRound(p: SafePoint, log: seq<Served>) {
    && IsRoundPart(p, log)
    && |log| >= 4
    && (|log| == 4 ==> log[3].status != 1)
    && (|log| == 5 ==> log[4].status != 1)
  }

  /** How far a whole round gets: up to the profile, the voltage or the clock. */
  lemma RoundLength(p: SafePoint, log: seq<Served>)
    requires IsRound(p, log)
    ensures |log| >= 4
    ensures |log| == if log[3].status != 1 then 4 else if log[4].status != 1 then 5 else 6
  {
  }

  predicate IsUnforcePart(log: seq<Served>) {
    && |log| <= 2
    && (|log| > 0 ==> Asks(log[0], Q0, 0x3A, 0))
    && (|log| > 1 ==> Asks(log[1], Q0, 0x3C, 0))
  }

  predicate IsUnforce(log: seq<Served>) {
    IsUnforcePart(log) && |log| == 2
  }

  /** A message that changes neither clock nor voltage nor profile. */
  predicate IsInert(e: Served) {
    if e.queue == Q0 then e.msg !in {0x39, 0x3A, 0x3B, 0x3C} else e.msg != 0x1E
  }

  ghost predicate AllInert(log: seq<Served>) {
    forall k :: 0 <= k < |log| ==> IsInert(log[k])
  }

  lemma {:induction false} InertLeaves(g: Gpu, log: seq<Served>)
    requires AllInert(log)
    ensures After(g, log) == g
    decreases |log|
  {
    if log != [] {
      InertLeaves(g, log[..|log| - 1]);
    }
  }

  lemma InertGuarded(p: SafePoint, g: Gpu, log: seq<Served>)
    requires p in SERVICE && AtMost(p, g) && AllInert(log)
    ensures Guarded(p, g, log)
  {
    forall k | 0 <= k <= |log| ensures After(g, log[..k]) == g {
      InertLeaves(g, log[..k]);
    }
    assert log[..|log|] == log;
    assert Safe(g);
  }

  /** The states between the messages of a round. */
  lemma RoundStates(g: Gpu, log: seq<Served>)
    ensures forall k :: 0 <= k < |log| ==> After(g, log[..k + 1]) == Effect(After(g, log[..k]), log[k])
    ensures After(g, log[..0]) == g && log[..|log|] == log
  {
    forall k | 0 <= k < |log| ensures After(g, log[..k + 1]) == Effect(After(g, log[..k]), log[k]) {
      AfterStep(g, log, k);
    }
  }

  /** Exactly "unforce vid" accepted after "unforce freq" was refused on a forced clock. */
  predicate LosesVoltage(g: Gpu, log: seq<Served>) {
    |log| > 2 && g.freq.Some? && log[1].status != 1 && log[2].status == 1
  }

  /** One re-apply round of the point already held, whole or broken off anywhere. */
  lemma RoundGuarded(p: SafePoint, g: Gpu, log: seq<Served>)
    requires p in SERVICE && AtMost(p, g) && IsRoundPart(p, log)
    ensures Guarded(p, g, log)
    ensures Always(Safe, g, log) <==> !LosesVoltage(g, log)
  {
    RoundStates(g, log);
    if LosesVoltage(g, log) {
      assert After(g, log[..1]) == g && After(g, log[..2]) == g;
      var s3 := After(g, log[..3]);
      assert Drops(After(g, log[..2]), log[2]);
      assert s3.freq.Some? && s3.vid.None? && !Safe(s3);
    } else {
      RoundHeld(p, g, log);
      assert log[..|log|] == log;
      forall k | 0 <= k <= |log| ensures Safe(After(g, log[..k])) {
        AtMostIsSafe(p, After(g, log[..k]));
      }
      assert !Hazard(g, log) by {
        assert |log| > 2 ==> !Drops(After(g, log[..2]), log[2]);
      }
    }
  }

  /** Otherwise every state of the round is the point or unforced. */
  lemma RoundHeld(p: SafePoint, g: Gpu, log: seq<Served>)
    requires p in SERVICE && AtMost(p, g) && IsRoundPart(p, log) && !LosesVoltage(g, log)
    ensures forall k :: 0 <= k <= |log| ==> AtMost(p, After(g, log[..k]))
    ensures |log| > 2 && log[2].status == 1 ==> After(g, log[..2]).freq.None?
  {
    RoundStates(g, log);
    ServiceBounds(p);
    if |log| > 1 && (g.freq.None? || log[1].status == 1) {
      RoundStatesOnceUnforced(p, g, log);
    } else if |log| > 1 {
      RoundKept(p, g, log);
    }
  }

  /** With both unforces refused the point held is set again. */
  lemma RoundKept(p: SafePoint, g: Gpu, log: seq<Served>)
    requires 0 <= p.freq < 0x1_0000_0000 && 0 <= p.profile < 0x1_0000_0000
    requires Backs(p, g) && IsRoundPart(p, log)
    requires |log| > 1 && log[1].status != 1 && (|log| > 2 ==> log[2].status != 1)
    ensures forall k :: 0 <= k <= |log| ==> After(g, log[..k]) == g
  {
    RoundStates(g, log);
    forall k | 0 <= k < |log| ensures Effect(g, log[k]) == g {
    }
    RepeatsState(g, log, |log|);
  }

  lemma {:induction false} RepeatsState(g: Gpu, log: seq<Served>, n: nat)
    requires n <= |log| && forall k :: 0 <= k < |log| ==> Effect(g, log[k]) == g
    ensures forall k :: 0 <= k <= n ==> After(g, log[..k]) == g
    decreases n
  {
    if n > 0 {
      RepeatsState(g, log, n - 1);
      AfterStep(g, log, n - 1);
    }
  }

  /** Once the clock is unforced, the round passes through unforced states only, until it has
      put the whole point in place. */
  lemma RoundStatesOnceUnforced(p: SafePoint, g: Gpu, log: seq<Served>)
    requires 0 <= p.freq < 0x1_0000_0000 && 0 <= p.profile < 0x1_0000_0000
    requires IsRoundPart(p, log) && |log| > 1 && (g.freq.None? || log[1].status == 1)
    ensures After(g, log[..1]) == g
    ensures forall k :: 2 <= k <= |log| ==> AtMost(p, After(g, log[..k]))
    ensures After(g, log[..2]).freq.None?
  {
    RoundStates(g, log);
    assert After(g, log[..1]) == g && After(g, log[..2]).freq.None?;
    assert |log| > 2 ==> After(g, log[..3]).freq.None?;
    assert |log| > 3 ==> After(g, log[..4]).freq.None?;
    if |log| > 4 {
      var s5 := After(g, log[..5]);
      assert s5 == Effect(After(g, log[..4]), log[4]) && s5.freq.None? && s5.profile == Some(p.profile);
    }
  }

  /** A round onto a new point, from any safe state, whole or broken off anywhere. */
  lemma RoundSafe(p: SafePoint, g: Gpu, log: seq<Served>)
    requires p in SERVICE && Safe(g) && IsRoundPart(p, log) && (|log| > 1 ==> log[1].status == 1)
    ensures Always(Safe, g, log)
    ensures |log| > 1 ==> AtMost(p, After(g, log))
  {
    ServiceBounds(p);
    RoundStates(g, log);
    if |log| > 1 {
      RoundStatesOnceUnforced(p, g, log);
    }
    forall k | 0 <= k <= |log| ensures Safe(After(g, log[..k])) {
      if k >= 2 {
        AtMostIsSafe(p, After(g, log[..k]));
      }
    }
  }

  lemma UnforceGuarded(p: SafePoint, g: Gpu, log: seq<Served>)
    requires p in SERVICE && AtMost(p, g) && IsUnforcePart(log)
    ensures Guarded(p, g, log)
    ensures |log| == 2 && log[0].status == 1 && log[1].status == 1 ==>
      After(g, log).freq.None? && After(g, log).vid.None?
  {
    RoundStates(g, log);
    if |log| == 2 && g.freq.Some? && log[0].status != 1 && log[1].status == 1 {
      assert After(g, log[..1]) == g;
      assert Drops(After(g, log[..1]), log[1]);
      assert !Safe(After(g, log[..2]));
    } else {
      forall k | 0 <= k <= |log| ensures AtMost(p, After(g, log[..k])) && Safe(After(g, log[..k])) {
        AtMostIsSafe(p, g);
      }
      assert !Hazard(g, log) by {
        assert |log| == 2 ==> !Drops(After(g, log[..1]), log[1]);
      }
    }
  }

  // ---- from any state ------------------------------------------------------------

  lemma InertSupplied(g: Gpu, log: seq<Served>)
    requires AllInert(log)
    ensures Supplied(g, log)
  {
    hide Enough, After;
  }

  lemma UnforceSupplied(g: Gpu, log: seq<Served>)
    requires IsUnforcePart(log)
    ensures Supplied(g, log)
    ensures Starved(g, log) <==> |log| == 2 && g.freq.Some? && log[0].status != 1 && log[1].status == 1
    ensures After(g, log).freq == if |log| > 0 && log[0].status == 1 then None else g.freq
  {
    hide Enough;
    RoundStates(g, log);
    if |log| == 2 {
      assert Is(log[0], Q0, 0x3A);
      assert Drops(After(g, log[..1]), log[1]) <==> g.freq.Some? && log[0].status != 1 && log[1].status == 1;
    }
  }

  /** The clock through a round, up to "force freq". */
  lemma RoundClock(p: SafePoint, g: Gpu, log: seq<Served>, k: nat)
    requires IsRoundPart(p, log) && k <= |log| && k <= 5
    ensures After(g, log[..k]).freq == if k > 1 && log[1].status == 1 then None else g.freq
    ensures k == 5 && log[4].status == 1 ==> After(g, log[..k]).vid == Some(VidFor(p))
  {
    if k > 0 {
      RoundClock(p, g, log, k - 1);
      AfterStep(g, log, k - 1);
    }
  }

  /** When a round over a forced clock of any kind takes its voltage away. */
  predicate RoundStarves(p: SafePoint, g: Gpu, log: seq<Served>) {
    && |log| > 2 && g.freq.Some? && log[1].status != 1
    && (log[2].status == 1
        || (|log| > 4 && log[4].status == 1 && p.mv < Pick(SERVICE, g.freq.value).mv))
  }

  lemma PointIsEnough(p: SafePoint)
    requires p in SERVICE
    ensures Enough(p.freq, VidFor(p)) && ToU32(p.freq) == p.freq
  {
    var g := Gpu(Some(p.freq), Some(VidFor(p)), Some(p.profile));
    BackedIsCovered(p, g);
    ServiceBounds(p);
  }

  lemma PointVid(p: SafePoint)
    requires p in SERVICE
    ensures p.mv as real <= RailMv(VidFor(p)) < p.mv as real + 5.0
  {
    MvToVidInteger(p.mv);
  }

  /** Points of the table lie further apart than rounding reaches. */
  lemma PointGap(p: SafePoint, q: SafePoint)
    requires p in SERVICE && q in SERVICE
    ensures p.mv <= q.mv || q.mv + 5 <= p.mv
  {
  }

  /** Whether a point's VID is enough for a clock is decided by the table's own voltages. */
  lemma EnoughIff(p: SafePoint, freq: int)
    requires p in SERVICE
    ensures Enough(freq, VidFor(p)) <==> Pick(SERVICE, freq).mv <= p.mv
  {
    hide Pick, RailMv, VidFor;
    PointVid(p);
    PointGap(Pick(SERVICE, freq), p);
  }

  lemma RoundSupplied(p: SafePoint, g: Gpu, log: seq<Served>)
    requires p in SERVICE && IsRoundPart(p, log)
    ensures Supplied(g, log)
    ensures Starved(g, log) <==> RoundStarves(p, g, log)
  {
    RoundOutrunsNever(p, g, log);
    RoundStarvesIff(p, g, log);
    if Honored(log) && |log| > 1 {
      assert Is(log[1], Q0, 0x3A);
    }
  }

  lemma RoundOutrunsNever(p: SafePoint, g: Gpu, log: seq<Served>)
    requires p in SERVICE && IsRoundPart(p, log)
    ensures !Somewhere(Outruns, g, log)
  {
    hide Enough, After, VidFor;
    PointIsEnough(p);
    if |log| == 6 {
      RoundClock(p, g, log, 5);
    }
  }

  lemma RoundStarvesIff(p: SafePoint, g: Gpu, log: seq<Served>)
    requires p in SERVICE && IsRoundPart(p, log)
    ensures Starved(g, log) <==> RoundStarves(p, g, log)
  {
    hide Enough, After, VidFor, Pick;
    if |log| > 2 {
      RoundClock(p, g, log, 2);
      assert Drops(After(g, log[..2]), log[2]) <==> g.freq.Some? && log[1].status != 1 && log[2].status == 1;
    }
    if |log| > 4 {
      RoundClock(p, g, log, 4);
      if g.freq.Some? {
        EnoughIff(p, g.freq.value);
      }
      assert Lowers(After(g, log[..4]), log[4]) <==>
        g.freq.Some? && log[1].status != 1 && log[4].status == 1 && p.mv < Pick(SERVICE, g.freq.value).mv;
    }
  }

  /** One round onto any point, whole or broken off, from any covered state: exactly when a
      forced clock has enough voltage at every instant. */
  lemma RoundCoveredIff(p: SafePoint, g: Gpu, log: seq<Served>)
    requires p in SERVICE && Covered(g) && IsRoundPart(p, log)
    ensures Always(Covered, g, log) <==> !RoundStarves(p, g, log)
  {
    hide Covered, Always, Starved, Supplied;
    RoundSupplied(p, g, log);
    SuppliedIff(g, log);
  }

  /** A service started for another point: 2000 MHz is held, both unforces are refused, profile
      and voltage of 500 MHz are accepted.  No voltage is let go, and 2000 MHz runs at 700 mV. */
  lemma OtherPointStarves(g: Gpu, log: seq<Served>)
    requires Backs(SafePoint(2000, 1000, 3), g) && IsRound(SafePoint(500, 700, 1), log)
    requires log[1].status != 1 && log[2].status != 1 && log[3].status == 1 && log[4].status == 1
    ensures !Hazard(g, log) && !Always(Covered, g, log)
  {
    hide Covered, Always, Backs;
    var p, q := SafePoint(500, 700, 1), SafePoint(2000, 1000, 3);
    PointsUsed();
    OtherPointHeld(g);
    BackedIsCovered(q, g);
    RoundCoveredIff(p, g, log);
    ServiceSteps(2000);
    NoHazard(p, g, log);
  }

  lemma PointsUsed()
    ensures SafePoint(500, 700, 1) in SERVICE && SafePoint(2000, 1000, 3) in SERVICE
  {
    assert SERVICE[0] == SafePoint(500, 700, 1) && SERVICE[6] == SafePoint(2000, 1000, 3);
  }

  lemma OtherPointHeld(g: Gpu)
    requires Backs(SafePoint(2000, 1000, 3), g)
    ensures g.freq == Some(2000)
  {
  }

  lemma NoHazard(p: SafePoint, g: Gpu, log: seq<Served>)
    requires IsRoundPart(p, log) && |log| > 2 && log[2].status != 1
    ensures !Hazard(g, log)
  {
    hide After;
  }

  // ---- mixed runs ----------------------------------------------------------------

  function Flatten(groups: seq<seq<Served>>): seq<Served> {
    if groups == [] then [] else groups[0] + Flatten(groups[1..])
  }

  ghost predicate IsGroup(log: seq<Served>) {
    (exists p :: p in SERVICE && IsRoundPart(p, log)) || IsUnforcePart(log) || AllInert(log)
  }

  lemma GroupSafe(g: Gpu, log: seq<Served>)
    requires Safe(g) && IsGroup(log) && Honored(log)
    ensures Always(Safe, g, log)
  {
    if IsUnforcePart(log) {
      RoundStates(g, log);
    } else if AllInert(log) {
      forall k | 0 <= k <= |log| ensures After(g, log[..k]) == g {
        InertLeaves(g, log[..k]);
      }
    } else {
      var p :| p in SERVICE && IsRoundPart(p, log);
      RoundSafe(p, g, log);
    }
  }

  /** Any number of rounds onto any safe points, unforces and queries, whole or broken off, in
      any order and with any pattern of refusals other than of "unforce freq", is safe at every
      instant. */
  lemma {:induction false} RunSafe(g: Gpu, groups: seq<seq<Served>>)
    requires Safe(g) && (forall i :: 0 <= i < |groups| ==> IsGroup(groups[i]))
    requires Honored(Flatten(groups))
    ensures Always(Safe, g, Flatten(groups))
    decreases |groups|
  {
    if groups != [] {
      var a, b := groups[0], Flatten(groups[1..]);
      assert forall k :: 0 <= k < |a| ==> (a + b)[k] == a[k];
      assert forall k :: 0 <= k < |b| ==> (a + b)[|a| + k] == b[k];
      GroupSafe(g, a);
      assert Safe(After(g, a[..|a|])) && a[..|a|] == a;
      RunSafe(After(g, a), groups[1..]);
      AlwaysConcat(Safe, g, a, b);
    }
  }

  lemma GroupSupplied(g: Gpu, log: seq<Served>)
    requires IsGroup(log)
    ensures Supplied(g, log)
  {
    hide Supplied, AllInert, IsRoundPart, IsUnforcePart;
    if IsUnforcePart(log) {
      UnforceSupplied(g, log);
    } else if AllInert(log) {
      InertSupplied(g, log);
    } else {
      var p :| p in SERVICE && IsRoundPart(p, log);
      RoundSupplied(p, g, log);
    }
  }

  lemma {:induction false} RunSupplied(g: Gpu, groups: seq<seq<Served>>)
    requires forall i :: 0 <= i < |groups| ==> IsGroup(groups[i])
    ensures Supplied(g, Flatten(groups))
    decreases |groups|
  {
    hide Supplied, IsGroup;
    if groups == [] {
      InertSupplied(g, []);
    } else {
      GroupSupplied(g, groups[0]);
      RunSupplied(After(g, groups[0]), groups[1..]);
      SuppliedConcat(g, groups[0], Flatten(groups[1..]));
    }
  }

  /** The same mixture of groups with any refusals at all, from any covered state: exactly when
      a forced frequency has enough voltage at every instant. */
  lemma RunCoveredIff(g: Gpu, groups: seq<seq<Served>>)
    requires Covered(g) && forall i :: 0 <= i < |groups| ==> IsGroup(groups[i])
    ensures Always(Covered, g, Flatten(groups)) <==> !Starved(g, Flatten(groups))
  {
    hide Covered, Always, Supplied, Starved, IsGroup;
    RunSupplied(g, groups);
    SuppliedIff(g, Flatten(groups));
  }

  /** A run that does go wrong: 2000 MHz is held, "unforce freq" is refused (a warning
      only) and "unforce vid" accepted, which leaves 2000 MHz without a forced voltage. */
  lemma RefusedUnforceBreaksSafety(p: SafePoint, g: Gpu, log: seq<Served>)
    requires p == SafePoint(2000, 1000, 3) && Backs(p, g) && IsRound(p, log)
    requires log[1].status == 0xFD && log[2].status == 1
    ensures After(g, log[..3]).freq == Some(2000) && After(g, log[..3]).vid == None
    ensures !Always(Safe, g, log)
  {
    RoundStates(g, log);
    assert After(g, log[..1]) == g && After(g, log[..2]) == g;
    assert !Safe(After(g, log[..3]));
  }
}
