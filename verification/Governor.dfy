/** governor-service: hold a safe point by re-applying it until Ctrl-C. */
module Governor {
  import opened Common
  import opened Vid
  import opened SafePoints
  import opened Smu
  import opened Regulator
  import B = SmnBus

  /** The entries the firmware served since the log was `log0`.  Runs are described by the log
      as far as it is known: to the end, unless some call ends with its command in flight. */
  ghost function Since(log0: seq<Served>, log: seq<Served>): seq<Served>
    requires log0 <= log
  {
    log[|log0|..]
  }

  const SEND_TICKS: nat := 2006
  const ROUND_TICKS: nat := 6 * SEND_TICKS + 3
  const READ_TICKS: nat := SEND_TICKS + 3

  /** Longest time from the stop request to the end of the loop, and from there to exit. */
  const LOOP_TICKS: nat := ROUND_TICKS + READ_TICKS
  const EXIT_TICKS: nat := 2 * SEND_TICKS + 3 * READ_TICKS

  /** The messages of a round: four always, two more while nothing is refused. */
  function RoundScript(p: SafePoint): seq<B.Sent> {
    [B.Sent(Q3, 0x8C, 80), B.Sent(Q0, 0x3A, 0), B.Sent(Q0, 0x3C, 0), B.Sent(Q3, 0x1E, ToU32(p.profile)),
     B.Sent(Q0, 0x3B, VidFor(p)), B.Sent(Q0, 0x39, ToU32(p.freq))]
  }

  const UNFORCE_SCRIPT := [B.Sent(Q0, 0x3A, 0), B.Sent(Q0, 0x3C, 0)]
  const STATUS_SCRIPT := [B.Sent(Q0, 0x37, 0), B.Sent(Q0, 0x1E, 0), B.Sent(Q0, 0x3D, 0)]

  /** A query and the read of its answer. */
  method Ask(bus: B.SmnBus, q: Queue, msg: Word, arg: Word) returns (code: int, v: Word)
    requires bus.Tracked()
    requires IsInert(Served(q, msg, arg, 0, 0))
    modifies bus
    ensures bus.Progressed()
    ensures bus.sent == old(bus.sent) + [B.Sent(q, msg, arg)]
    ensures old(bus.tick) < bus.tick <= old(bus.tick) + READ_TICKS
    ensures bus.gaveUp <==> old(bus.gaveUp) || code == TIMEOUT
    ensures bus.lost ==> bus.known == old(bus.known) && (old(bus.lost) || code == TIMEOUT)
    ensures AllInert(Since(old(bus.known), bus.known)) && |Since(old(bus.known), bus.known)| <= 1
    ensures !bus.lost ==>
      && |Since(old(bus.known), bus.known)| == 1
      && Asks(Since(old(bus.known), bus.known)[0], q, msg, arg)
      && v == bus.known[|old(bus.known)|].result
      && (code != TIMEOUT ==> code == CodeOf(bus.known[|old(bus.known)|].status))
  {
    code := bus.Send(q, msg, arg);
    v := bus.Arg(q);
  }

  /** One entry for each of the first |log| messages of the script. */
  predicate Serves(log: seq<Served>, script: seq<B.Sent>) {
    |log| <= |script| && forall k :: 0 <= k < |log| ==> Asks(log[k], script[k].queue, script[k].msg, script[k].arg)
  }

  /** Sends message `k` of a script whose entries since `log0` it continues. */
  method SendNext(bus: B.SmnBus, q: Queue, msg: Word, arg: Word, ghost script: seq<B.Sent>, ghost k: nat,
                  ghost log0: seq<Served>, ghost sent0: seq<B.Sent>)
    returns (code: int)
    requires bus.Tracked() && k < |script| && script[k] == B.Sent(q, msg, arg)
    requires bus.sent == sent0 + script[..k]
    requires log0 <= bus.known && Serves(Since(log0, bus.known), script)
    requires |Since(log0, bus.known)| <= k && (!bus.lost ==> |Since(log0, bus.known)| == k)
    modifies bus
    ensures bus.Progressed() && log0 <= bus.known
    ensures bus.sent == sent0 + script[..k + 1]
    ensures old(bus.tick) < bus.tick <= old(bus.tick) + SEND_TICKS
    ensures bus.gaveUp <==> old(bus.gaveUp) || code == TIMEOUT
    ensures Since(log0, old(bus.known)) <= Since(log0, bus.known) && Serves(Since(log0, bus.known), script)
    ensures bus.lost ==> bus.known == old(bus.known) && (old(bus.lost) || code == TIMEOUT)
    ensures !bus.lost ==> |Since(log0, bus.known)| == k + 1
    ensures !bus.lost && code != TIMEOUT ==> code == CodeOf(Since(log0, bus.known)[k].status)
  {
    code := bus.Send(q, msg, arg);
  }

  lemma RoundServed(p: SafePoint, log: seq<Served>)
    requires Serves(log, RoundScript(p))
    requires (|log| > 4 ==> log[3].status == 1) && (|log| > 5 ==> log[4].status == 1)
    ensures IsRoundPart(p, log)
  {
  }

  lemma NothingSince(log: seq<Served>, script: seq<B.Sent>)
    ensures Since(log, log) == [] && Serves([], script)
  {
  }

  lemma AcceptedIsOne()
    ensures forall status: Word :: CodeOf(status) == 1 <==> status == 1
  {
  }

  /** All six messages were sent and the last one accepted. */
  predicate Completed(log: seq<Served>) {
    |log| == 6 && log[5].status == 1
  }

  method GovernorChangeFreq(bus: B.SmnBus, freq: int, mv: int, profile: int) returns (r: int)
    requires bus.Tracked()
    modifies bus
    ensures bus.Progressed()
    ensures old(bus.tick) < bus.tick <= old(bus.tick) + ROUND_TICKS
    ensures exists n :: 4 <= n <= 6 && bus.sent == old(bus.sent) + RoundScript(SafePoint(freq, mv, profile))[..n]
    ensures r == 0 ==> bus.sent == old(bus.sent) + RoundScript(SafePoint(freq, mv, profile))
    ensures IsRoundPart(SafePoint(freq, mv, profile), Since(old(bus.known), bus.known))
    ensures !bus.lost && r == 0 ==> Completed(Since(old(bus.known), bus.known))
    ensures !bus.lost && !bus.gaveUp ==>
      && IsRound(SafePoint(freq, mv, profile), Since(old(bus.known), bus.known))
      && (r == 0 <==> Completed(Since(old(bus.known), bus.known)))
  {
    hide Serves, Since, Asks, IsRoundPart, CodeOf, MvToVid, ToU32;
    AcceptedIsOne();
    var p := SafePoint(freq, mv, profile);
    ghost var log0, sent0, script := bus.known, bus.sent, RoundScript(p);
    assert sent0 + script[..0] == sent0;
    NothingSince(log0, script);
    r := SendNext(bus, Q3, 0x8C, 80, script, 0, log0, sent0);
    r := SendNext(bus, Q0, 0x3A, 0, script, 1, log0, sent0);
    r := SendNext(bus, Q0, 0x3C, 0, script, 2, log0, sent0);
    r := SendNext(bus, Q3, 0x1E, ToU32(profile), script, 3, log0, sent0);
    RoundServed(p, Since(log0, bus.known));
    if r != 1 { return -1; }
    bus.Sleep();

    r := ForceRound(bus, p.freq, p.mv, p, log0, sent0);
  }

  /** ... and from the voltage on. */
  method ForceRound(bus: B.SmnBus, freq: int, mv: int, ghost p: SafePoint, ghost log0: seq<Served>,
                    ghost sent0: seq<B.Sent>)
    returns (r: int)
    requires bus.Tracked() && freq == p.freq && mv == p.mv && bus.sent == sent0 + RoundScript(p)[..4]
    requires log0 <= bus.known && IsRoundPart(p, Since(log0, bus.known))
    requires Serves(Since(log0, bus.known), RoundScript(p))
    requires |Since(log0, bus.known)| <= 4
    requires !bus.lost ==> |Since(log0, bus.known)| == 4 && Since(log0, bus.known)[3].status == 1
    modifies bus
    ensures bus.Progressed() && log0 <= bus.known
    ensures old(bus.tick) < bus.tick <= old(bus.tick) + 2 * SEND_TICKS + 2
    ensures exists n :: 5 <= n <= 6 && bus.sent == sent0 + RoundScript(p)[..n]
    ensures r == 0 ==> bus.sent == sent0 + RoundScript(p)
    ensures IsRoundPart(p, Since(log0, bus.known))
    ensures !bus.lost && r == 0 ==> Completed(Since(log0, bus.known))
    ensures !bus.lost && !bus.gaveUp ==>
      IsRound(p, Since(log0, bus.known)) && (r == 0 <==> Completed(Since(log0, bus.known)))
  {
    hide Serves, Since, Asks, IsRoundPart, CodeOf, MvToVid, ToU32;
    AcceptedIsOne();
    ghost var script := RoundScript(p);
    var vid := MvToVid(mv);
    r := SendNext(bus, Q0, 0x3B, ToU32(vid), script, 4, log0, sent0);
    RoundServed(p, Since(log0, bus.known));
    if r != 1 { return -1; }
    bus.Sleep();

    r := SendNext(bus, Q0, 0x39, ToU32(freq), script, 5, log0, sent0);
    RoundServed(p, Since(log0, bus.known));
    if r != 1 { return -1; }
    bus.Sleep();
    return 0;
  }

  method GovernorUnforce(bus: B.SmnBus)
    requires bus.Tracked()
    modifies bus
    ensures bus.Progressed()
    ensures bus.sent == old(bus.sent) + UNFORCE_SCRIPT
    ensures old(bus.tick) <= bus.tick <= old(bus.tick) + 2 * SEND_TICKS
    ensures IsUnforcePart(Since(old(bus.known), bus.known))
    ensures !bus.lost ==> IsUnforce(Since(old(bus.known), bus.known))
  {
    var r := bus.Send(Q0, 0x3A, 0);
    r := bus.Send(Q0, 0x3C, 0);
  }

  method PrintStatus(bus: B.SmnBus) returns (freq: Word, wgp: Word, feat: Word)
    requires bus.Tracked()
    modifies bus
    ensures bus.Progressed()
    ensures bus.sent == old(bus.sent) + STATUS_SCRIPT
    ensures old(bus.tick) <= bus.tick <= old(bus.tick) + 3 * READ_TICKS
    ensures AllInert(Since(old(bus.known), bus.known))
    ensures !bus.lost ==>
      var log := Since(old(bus.known), bus.known);
      && |log| == 3 && freq == log[0].result && wgp == log[1].result && feat == log[2].result
      && Serves(log, STATUS_SCRIPT)
  {
    var r;
    r, freq := Ask(bus, Q0, 0x37, 0);
    r, wgp := Ask(bus, Q0, 0x1E, 0);
    r, feat := Ask(bus, Q0, 0x3D, 0);
  }

  lemma SinceConcat(log0: seq<Served>, log1: seq<Served>, log2: seq<Served>)
    requires log0 <= log1 <= log2
    ensures Since(log0, log2) == Since(log0, log1) + Since(log1, log2)
  {
  }

  /** One more group of messages, whatever the state it meets. */
  lemma ExtendSupplied(g: Gpu, log0: seq<Served>, log1: seq<Served>, log2: seq<Served>)
    requires log0 <= log1 <= log2
    requires Supplied(g, Since(log0, log1)) && Supplied(After(g, Since(log0, log1)), Since(log1, log2))
    ensures Supplied(g, Since(log0, log2))
  {
    hide Supplied, Since;
    SinceConcat(log0, log1, log2);
    SuppliedConcat(g, Since(log0, log1), Since(log1, log2));
  }

  /** One more group of messages keeps the whole run guarded. */
  lemma Extend(p: SafePoint, g: Gpu, log0: seq<Served>, log1: seq<Served>, log2: seq<Served>)
    requires log0 <= log1 <= log2
    requires Guarded(p, g, Since(log0, log1))
    requires AtMost(p, After(g, Since(log0, log1))) ==> Guarded(p, After(g, Since(log0, log1)), Since(log1, log2))
    ensures Guarded(p, g, Since(log0, log2))
    ensures After(g, Since(log0, log2)) == After(After(g, Since(log0, log1)), Since(log1, log2))
  {
    hide Guarded, After, Since;
    SinceConcat(log0, log1, log2);
    GuardedConcat(p, g, Since(log0, log1), Since(log1, log2));
    AfterConcat(g, Since(log0, log1), Since(log1, log2));
  }

  /** A round and at most one query. */
  ghost predicate IsPass(p: SafePoint, log0: seq<Served>, log: seq<Served>) {
    exists log1 :: log0 <= log1 <= log
      && IsRoundPart(p, Since(log0, log1)) && AllInert(Since(log1, log)) && |Since(log1, log)| <= 1
  }

  /** With nothing timed out: a whole round, and the query exactly when it went through. */
  ghost predicate IsWholePass(p: SafePoint, log: seq<Served>) {
    exists k :: 0 <= k <= |log| && IsRound(p, log[..k])
      && AllInert(log[k..]) && |log[k..]| == if Completed(log[..k]) then 1 else 0
  }

  lemma WholePass(p: SafePoint, log0: seq<Served>, log1: seq<Served>, log: seq<Served>)
    requires log0 <= log1 <= log && IsRound(p, Since(log0, log1))
    requires AllInert(Since(log1, log)) && |Since(log1, log)| == if Completed(Since(log0, log1)) then 1 else 0
    ensures IsWholePass(p, Since(log0, log))
  {
    hide IsRound, AllInert, Completed;
    var pass, k := Since(log0, log), |Since(log0, log1)|;
    assert pass[..k] == Since(log0, log1) && pass[k..] == Since(log1, log);
  }

  /** The entries of `n` whole passes. */
  ghost predicate PassesServed(p: SafePoint, log: seq<Served>, n: nat)
    decreases n
  {
    if n == 0 then log == []
    else exists k :: 0 <= k <= |log| && PassesServed(p, log[..k], n - 1) && IsWholePass(p, log[k..])
  }

  lemma OneMoreServed(p: SafePoint, log0: seq<Served>, log1: seq<Served>, log: seq<Served>, n: nat)
    requires log0 <= log1 <= log && PassesServed(p, Since(log0, log1), n) && IsWholePass(p, Since(log1, log))
    ensures PassesServed(p, Since(log0, log), n + 1)
  {
    hide IsWholePass;
    var passes, k := Since(log0, log), |Since(log0, log1)|;
    assert passes[..k] == Since(log0, log1) && passes[k..] == Since(log1, log);
  }

  /** The messages of one pass: a round, broken off after a refusal, or all of it and the query. */
  predicate PassSent(p: SafePoint, s: seq<B.Sent>) {
    || (4 <= |s| <= 6 && s == RoundScript(p)[..|s|])
    || s == RoundScript(p) + [B.Sent(Q0, 0x37, 0)]
  }

  /** Message by message: a pass sends at least the first four of these seven, in this order. */
  lemma PassInOrder(p: SafePoint, s: seq<B.Sent>)
    ensures PassSent(p, s) <==>
      && |s| >= 4
      && s <= [B.Sent(Q3, 0x8C, 80), B.Sent(Q0, 0x3A, 0), B.Sent(Q0, 0x3C, 0), B.Sent(Q3, 0x1E, ToU32(p.profile)),
               B.Sent(Q0, 0x3B, ToU32(MvToVid(p.mv))), B.Sent(Q0, 0x39, ToU32(p.freq)), B.Sent(Q0, 0x37, 0)]
  {
    hide ToU32, MvToVid;
  }

  /** The messages of `n` passes. */
  ghost predicate PassesSent(p: SafePoint, s: seq<B.Sent>, n: nat)
    decreases n
  {
    if n == 0 then s == []
    else exists k :: 0 <= k <= |s| && PassesSent(p, s[..k], n - 1) && PassSent(p, s[k..])
  }

  lemma OneMorePass(p: SafePoint, a: seq<B.Sent>, b: seq<B.Sent>, n: nat)
    requires PassesSent(p, a, n) && PassSent(p, b)
    ensures PassesSent(p, a + b, n + 1)
  {
    hide PassSent;
    assert (a + b)[..|a|] == a && (a + b)[|a|..] == b;
  }

  /** Whatever comes later, the first pass starts with its four messages. */
  lemma {:induction false} FirstPass(p: SafePoint, s: seq<B.Sent>, n: nat)
    requires n > 0 && PassesSent(p, s, n)
    ensures RoundScript(p)[..4] <= s
    decreases n
  {
    var k :| 0 <= k <= |s| && PassesSent(p, s[..k], n - 1) && PassSent(p, s[k..]);
    if n == 1 {
      assert s[k..] == s;
      PassStarts(p, s);
    } else {
      FirstPass(p, s[..k], n - 1);
    }
  }

  lemma PassStarts(p: SafePoint, s: seq<B.Sent>)
    requires PassSent(p, s)
    ensures RoundScript(p)[..4] <= s
  {
  }

  /** The sleeps of 250 ms that one full wait takes. */
  function Waits(interval: int): nat {
    if interval <= 0 then 0 else (interval + 249) / 250
  }

  /** One pass of the main loop: apply the point, read the clock back, wait. */
  method Pass(bus: B.SmnBus, freq: int, mv: int, profile: int, interval: int, stopAt: nat)
    requires bus.Tracked() && bus.tick < stopAt
    modifies bus
    ensures bus.Progressed()
    ensures old(bus.sent) <= bus.sent && PassSent(SafePoint(freq, mv, profile), bus.sent[|old(bus.sent)|..])
    ensures old(bus.tick) < bus.tick <= stopAt + LOOP_TICKS
    ensures bus.tick <= old(bus.tick) + LOOP_TICKS + Waits(interval)
    ensures stopAt <= bus.tick || old(bus.tick) + Waits(interval) <= bus.tick
    ensures IsPass(SafePoint(freq, mv, profile), old(bus.known), bus.known)
    ensures !bus.lost && !bus.gaveUp ==> IsWholePass(SafePoint(freq, mv, profile), Since(old(bus.known), bus.known))
  {
    hide IsRound, IsRoundPart, AllInert, RoundScript, IsWholePass, Completed;
    ghost var p, log0, sent0 := SafePoint(freq, mv, profile), bus.known, bus.sent;
    var r := GovernorChangeFreq(bus, freq, mv, profile);
    ghost var log1 := bus.known;
    RoundWasSent(p, sent0, bus.sent);
    if r == 0 {
      var code, f := Ask(bus, Q0, 0x37, 0);
      assert bus.sent[|sent0|..] == RoundScript(p) + [B.Sent(Q0, 0x37, 0)];
    } else {
      NothingInert(log1);
    }
    if !bus.lost && !bus.gaveUp {
      WholePass(p, log0, log1, bus.known);
    }
    var waited := 0;
    label waiting:
    while waited < interval && !(stopAt <= bus.tick)
      invariant bus.Tracked() && (old@waiting(bus.lost) <==> bus.lost) && (old@waiting(bus.gaveUp) <==> bus.gaveUp)
      invariant bus.known == old@waiting(bus.known) && bus.sent == old@waiting(bus.sent)
      invariant 0 <= waited && bus.tick == old@waiting(bus.tick) + waited / 250 && waited % 250 == 0
      invariant waited / 250 <= Waits(interval)
      invariant bus.tick <= stopAt || bus.tick == old@waiting(bus.tick)
      decreases interval - waited
    {
      bus.Sleep();
      waited := waited + 250;
    }
    assert old(bus.known) <= log1 <= bus.known;
  }

  lemma RoundWasSent(p: SafePoint, sent0: seq<B.Sent>, sent: seq<B.Sent>)
    requires exists n :: 4 <= n <= 6 && sent == sent0 + RoundScript(p)[..n]
    ensures sent0 <= sent && PassSent(p, sent[|sent0|..])
  {
    var n :| 4 <= n <= 6 && sent == sent0 + RoundScript(p)[..n];
    assert sent[|sent0|..] == RoundScript(p)[..n];
  }

  lemma NothingInert(log: seq<Served>)
    ensures AllInert(Since(log, log)) && |Since(log, log)| == 0
  {
  }

  /** The main loop and the exit path, once the firmware has answered.  `stopAt` is the
      tick at which Ctrl-C sets g_Stop. */
  method Hold(bus: B.SmnBus, p: SafePoint, interval: int, stopAt: nat, ghost g: Gpu) returns (ghost turns: nat)
    requires bus.Tracked() && p in SERVICE
    modifies bus
    ensures bus.Progressed()
    ensures bus.tick <= old(bus.tick) || bus.tick <= stopAt + LOOP_TICKS
    ensures stopAt <= bus.tick && (old(bus.tick) < stopAt ==> turns > 0)
    ensures Paced(old(bus.tick), bus.tick, turns, interval)
    ensures old(bus.sent) <= bus.sent && PassesSent(p, bus.sent[|old(bus.sent)|..], turns)
    ensures !bus.lost && !bus.gaveUp ==> PassesServed(p, Since(old(bus.known), bus.known), turns)
    ensures AtMost(p, g) ==> Guarded(p, g, Since(old(bus.known), bus.known))
    ensures Supplied(g, Since(old(bus.known), bus.known))
  {
    hide Guarded, Supplied, AtMost, IsPass, IsWholePass, Since, PassSent, PassesSent, PassesServed, Waits, Paced;
    ghost var log0, sent0, tick0 := bus.known, bus.sent, bus.tick;
    NothingServed(p, g, log0);
    turns := 0;
    NoPassYet(p, log0, sent0, tick0, interval);
    while !(stopAt <= bus.tick)
      invariant bus.Progressed()
      invariant bus.tick <= old(bus.tick) || bus.tick <= stopAt + LOOP_TICKS
      invariant AtMost(p, g) ==> Guarded(p, g, Since(log0, bus.known))
      invariant Supplied(g, Since(log0, bus.known))
      invariant sent0 <= bus.sent && PassesSent(p, bus.sent[|sent0|..], turns)
      invariant !bus.lost && !bus.gaveUp ==> PassesServed(p, Since(log0, bus.known), turns)
      invariant tick0 <= bus.tick && (turns == 0 ==> bus.tick == tick0)
      invariant if stopAt <= bus.tick then Paced(tick0, bus.tick, turns, interval)
                else KeepsPace(tick0, bus.tick, turns, interval)
      decreases stopAt - bus.tick
    {
      ghost var log1, sent1, tick1 := bus.known, bus.sent, bus.tick;
      Pass(bus, p.freq, p.mv, p.profile, interval, stopAt);
      if AtMost(p, g) {
        PassGuarded(p, g, log0, log1, bus.known);
      }
      PassSupplied(p, g, log0, log1, bus.known);
      if !bus.lost && !bus.gaveUp {
        OneMoreServed(p, log0, log1, bus.known, turns);
      }
      OneMorePass(p, sent1[|sent0|..], bus.sent[|sent1|..], turns);
      assert bus.sent[|sent0|..] == sent1[|sent0|..] + bus.sent[|sent1|..];
      OneMoreTurn(tick0, tick1, bus.tick, turns, interval, stopAt);
      turns := turns + 1;
    }
  }

  /** `n` turns, of which only the last may have been cut short: re-applying is never later than
      a pass and a full wait, and every full wait is kept. */
  predicate Paced(start: nat, end: nat, n: nat, interval: int) {
    && end <= start + n * (LOOP_TICKS + Waits(interval))
    && (n > 0 ==> start + (n - 1) * Waits(interval) <= end)
  }

  predicate KeepsPace(start: nat, end: nat, n: nat, interval: int) {
    && end <= start + n * (LOOP_TICKS + Waits(interval))
    && start + n * Waits(interval) <= end
  }

  lemma NoPassYet(p: SafePoint, log: seq<Served>, sent: seq<B.Sent>, tick: nat, interval: int)
    ensures PassesSent(p, sent[|sent|..], 0) && PassesServed(p, Since(log, log), 0)
    ensures Paced(tick, tick, 0, interval) && KeepsPace(tick, tick, 0, interval)
  {
  }

  lemma OneMoreTurn(start: nat, tick: nat, end: nat, n: nat, interval: int, stopAt: nat)
    requires KeepsPace(start, tick, n, interval)
    requires tick <= end <= tick + LOOP_TICKS + Waits(interval)
    requires stopAt <= end || tick + Waits(interval) <= end
    ensures if stopAt <= end then Paced(start, end, n + 1, interval) else KeepsPace(start, end, n + 1, interval)
  {
    hide Waits;
    TimesNext(n, LOOP_TICKS + Waits(interval));
    TimesNext(n, Waits(interval));
  }

  lemma TimesNext(n: nat, x: nat)
    ensures (n + 1) * x == n * x + x
  {
  }

  /** The entries of the exit path: two unforces, then queries only. */
  ghost predicate IsExit(log: seq<Served>) {
    |log| == 5 && IsUnforce(log[..2]) && AllInert(log[2..])
  }

  /** The same, possibly broken off. */
  ghost predicate IsExitPart(log0: seq<Served>, log: seq<Served>) {
    exists log1 :: log0 <= log1 <= log && IsUnforcePart(Since(log0, log1)) && AllInert(Since(log1, log))
  }

  method Leave(bus: B.SmnBus)
    requires bus.Tracked()
    modifies bus
    ensures bus.Progressed()
    ensures old(bus.tick) <= bus.tick <= old(bus.tick) + EXIT_TICKS
    ensures bus.sent == old(bus.sent) + UNFORCE_SCRIPT + STATUS_SCRIPT
    ensures IsExitPart(old(bus.known), bus.known)
    ensures !bus.lost ==> IsExit(Since(old(bus.known), bus.known))
  {
    ghost var log0 := bus.known;
    GovernorUnforce(bus);
    ghost var log1 := bus.known;
    var f, w, feat := PrintStatus(bus);
    if !bus.lost {
      assert Since(log0, bus.known)[..2] == Since(log0, log1);
      assert Since(log0, bus.known)[2..] == Since(log1, bus.known);
    }
  }

  /** From the alive check to the exit, holding `p`. */
  method Serve(bus: B.SmnBus, p: SafePoint, interval: int, stopAt: nat, ghost g: Gpu)
    returns (exit: int, ghost turns: nat)
    requires bus.Tracked() && p in SERVICE
    modifies bus
    ensures bus.Progressed()
    ensures bus.tick <= old(bus.tick) + READ_TICKS + EXIT_TICKS || bus.tick <= stopAt + LOOP_TICKS + EXIT_TICKS
    ensures exit == 0 || exit == 1
    ensures exit == 1 ==> bus.sent == old(bus.sent) + [B.Sent(Q3, 1, 123)]
    ensures exit == 0 ==> ServiceSent(p, old(bus.sent), bus.sent, turns)
    ensures exit == 0 && !bus.lost && !bus.gaveUp ==> ServiceServed(p, Since(old(bus.known), bus.known), turns)
    ensures exit == 0 && old(bus.tick) + READ_TICKS < stopAt ==> turns > 0
    ensures exit == 0 ==> KeepsTime(old(bus.tick), bus.tick, turns, interval)
    ensures AliveDecides(exit, old(bus.known), bus.known, !bus.lost && !bus.gaveUp)
    ensures AtMost(p, g) ==> Guarded(p, g, Since(old(bus.known), bus.known))
    ensures Supplied(g, Since(old(bus.known), bus.known))
    ensures !bus.lost && exit == 0 ==>
      |bus.known| >= 5 && IsExit(bus.known[|bus.known| - 5..]) && Released(g, Since(old(bus.known), bus.known))
  {
    hide Guarded, Supplied, IsExit, Released, AtMost, PassesSent, ServiceSent, PassesServed, ServiceServed, Paced,
         KeepsTime, CodeOf, AliveDecides;
    AcceptedIsOne();
    ghost var log0, sent0 := bus.known, bus.sent;
    var tr, tst := Ask(bus, Q3, 1, 123);
    ghost var log1 := bus.known;
    AliveEnds(p, g, log0, log1);
    turns := 0;
    ghost var prompt := !bus.lost && !bus.gaveUp;
    AliveTold(log0, log1, tr, tst, !bus.lost, prompt);
    if tr != 1 || tst != 124 { return 1, 0; }

    ghost var sent1, tick1 := bus.sent, bus.tick;
    turns := Hold(bus, p, interval, stopAt, g);
    ghost var sent2, tick2 := bus.sent, bus.tick;
    ghost var log2 := bus.known;
    Leave(bus);
    ServeEnds(p, g, log0, log1, log2, bus.known);
    ServiceWasSent(p, sent0, sent1, sent2, bus.sent, turns);
    if !bus.lost && !bus.gaveUp {
      ServiceWasServed(p, log0, log1, log2, bus.known, turns);
    }
    TimeKept(old(bus.tick), tick1, tick2, bus.tick, turns, interval);
    AliveStays(log0, log1, bus.known, prompt, !bus.lost && !bus.gaveUp);
    return 0, turns;
  }

  /** The whole trace of a run that got past the alive check. */
  ghost predicate ServiceSent(p: SafePoint, sent0: seq<B.Sent>, sent: seq<B.Sent>, turns: nat) {
    exists passes :: PassesSent(p, passes, turns)
      && sent == sent0 + [B.Sent(Q3, 1, 123)] + passes + UNFORCE_SCRIPT + STATUS_SCRIPT
  }

  lemma ServiceWasSent(p: SafePoint, sent0: seq<B.Sent>, sent1: seq<B.Sent>, sent2: seq<B.Sent>, sent: seq<B.Sent>,
                       turns: nat)
    requires sent1 == sent0 + [B.Sent(Q3, 1, 123)]
    requires sent1 <= sent2 && PassesSent(p, sent2[|sent1|..], turns)
    requires sent == sent2 + UNFORCE_SCRIPT + STATUS_SCRIPT
    ensures ServiceSent(p, sent0, sent, turns)
  {
    hide PassesSent;
    var passes := sent2[|sent1|..];
    assert sent2 == sent1 + passes;
    assert sent == sent0 + [B.Sent(Q3, 1, 123)] + passes + UNFORCE_SCRIPT + STATUS_SCRIPT;
  }

  /** The trace of a service with at least one turn starts by applying the point. */
  lemma ServiceApplies(p: SafePoint, sent0: seq<B.Sent>, sent: seq<B.Sent>, turns: nat)
    requires turns > 0 && ServiceSent(p, sent0, sent, turns)
    ensures sent0 + [B.Sent(Q3, 1, 123), B.Sent(Q3, 0x8C, 80), B.Sent(Q0, 0x3A, 0), B.Sent(Q0, 0x3C, 0),
                     B.Sent(Q3, 0x1E, ToU32(p.profile))] <= sent
  {
    hide PassesSent;
    var passes :| PassesSent(p, passes, turns)
      && sent == sent0 + [B.Sent(Q3, 1, 123)] + passes + UNFORCE_SCRIPT + STATUS_SCRIPT;
    FirstPass(p, passes, turns);
    assert RoundScript(p)[..4]
        == [B.Sent(Q3, 0x8C, 80), B.Sent(Q0, 0x3A, 0), B.Sent(Q0, 0x3C, 0), B.Sent(Q3, 0x1E, ToU32(p.profile))];
  }

  /** All entries of a run in which nothing timed out: the test message, the passes, the exit. */
  ghost predicate ServiceServed(p: SafePoint, log: seq<Served>, turns: nat) {
    && |log| >= 6 && Asks(log[0], Q3, 1, 123)
    && PassesServed(p, log[1..|log| - 5], turns)
    && IsExit(log[|log| - 5..])
  }

  lemma ServiceWasServed(p: SafePoint, log0: seq<Served>, log1: seq<Served>, log2: seq<Served>, log: seq<Served>,
                         turns: nat)
    requires log0 <= log1 <= log2 <= log && |Since(log0, log1)| == 1 && Asks(Since(log0, log1)[0], Q3, 1, 123)
    requires PassesServed(p, Since(log1, log2), turns) && IsExit(Since(log2, log))
    ensures ServiceServed(p, Since(log0, log), turns)
  {
    hide PassesServed;
    var s := Since(log0, log);
    assert s[1..|s| - 5] == Since(log1, log2) && s[|s| - 5..] == Since(log2, log);
  }

  lemma VidIsWord(p: SafePoint)
    requires p in SERVICE
    ensures VidFor(p) == MvToVid(p.mv)
  {
    MvToVidInteger(p.mv);
  }

  /** A round that went through leaves the GPU at its point, from any state. */
  lemma RoundApplies(p: SafePoint, g: Gpu, log: seq<Served>)
    requires p in SERVICE && IsRound(p, log) && Completed(log)
    ensures After(g, log) == Gpu(Some(p.freq), Some(MvToVid(p.mv)), Some(p.profile))
  {
    hide MvToVid;
    ServiceBounds(p);
    VidIsWord(p);
    RoundStates(g, log);
    assert After(g, log[..4]).profile == Some(p.profile);
    assert After(g, log[..5]).vid == Some(VidFor(p)) && After(g, log[..5]).profile == Some(p.profile);
    assert After(g, log[..6]) == Effect(After(g, log[..5]), log[5]) && log[..6] == log;
  }

  ghost predicate AllAccepted(log: seq<Served>) {
    forall k :: 0 <= k < |log| ==> log[k].status == 1
  }

  /** A pass in which nothing is refused: seven messages, and the GPU is at the point. */
  lemma PassApplies(p: SafePoint, g: Gpu, log: seq<Served>)
    requires p in SERVICE && IsWholePass(p, log) && AllAccepted(log)
    ensures |log| == 7 && After(g, log) == Gpu(Some(p.freq), Some(MvToVid(p.mv)), Some(p.profile))
  {
    hide MvToVid, After;
    var k :| 0 <= k <= |log| && IsRound(p, log[..k])
      && AllInert(log[k..]) && |log[k..]| == if Completed(log[..k]) then 1 else 0;
    assert forall j :: 0 <= j < k ==> log[..k][j].status == 1;
    RoundApplies(p, g, log[..k]);
    AfterConcat(g, log[..k], log[k..]);
    assert log[..k] + log[k..] == log;
    InertLeaves(After(g, log[..k]), log[k..]);
  }

  /** While nothing is refused every turn has seven messages and brings the GPU to the point. */
  lemma {:induction false} PassesHold(p: SafePoint, g: Gpu, log: seq<Served>, n: nat, turn: nat)
    requires p in SERVICE && PassesServed(p, log, n) && AllAccepted(log) && 0 < turn <= n
    ensures |log| == 7 * n
    ensures After(g, log[..7 * turn]) == Gpu(Some(p.freq), Some(MvToVid(p.mv)), Some(p.profile))
    decreases n
  {
    hide MvToVid, After, IsWholePass;
    var k :| 0 <= k <= |log| && PassesServed(p, log[..k], n - 1) && IsWholePass(p, log[k..]);
    PassApplies(p, After(g, log[..k]), log[k..]);
    if n > 1 {
      PassesHold(p, g, log[..k], n - 1, if turn < n then turn else 1);
    }
    if turn < n {
      assert log[..k][..7 * turn] == log[..7 * turn];
    } else {
      AfterConcat(g, log[..k], log[k..]);
      assert log[..k] + log[k..] == log && log[..7 * turn] == log;
    }
  }

  /** The service over an SMU that accepts everything: after the test message every seven
      messages bring the GPU to the point, whatever its state was. */
  lemma ServiceHolds(p: SafePoint, g: Gpu, log: seq<Served>, turns: nat, turn: nat)
    requires p in SERVICE && ServiceServed(p, log, turns) && AllAccepted(log) && 0 < turn <= turns
    ensures |log| == 1 + 7 * turns + 5
    ensures After(g, log[..1 + 7 * turn]) == Gpu(Some(p.freq), Some(MvToVid(p.mv)), Some(p.profile))
  {
    hide MvToVid, After, PassesServed, IsExit;
    var passes := log[1..|log| - 5];
    var g1 := After(g, log[..1]);
    PassesHold(p, g1, passes, turns, turn);
    AfterConcat(g, log[..1], passes[..7 * turn]);
    assert log[..1] + passes[..7 * turn] == log[..1 + 7 * turn];
  }

  lemma {:induction false} FirstServed(p: SafePoint, log: seq<Served>, n: nat)
    requires n > 0 && PassesServed(p, log, n)
    ensures exists j :: 0 <= j <= |log| && IsRound(p, log[..j])
    decreases n
  {
    hide IsRound;
    var k :| 0 <= k <= |log| && PassesServed(p, log[..k], n - 1) && IsWholePass(p, log[k..]);
    if n == 1 {
      assert log[k..] == log;
    } else {
      FirstServed(p, log[..k], n - 1);
      var j :| 0 <= j <= k && IsRound(p, log[..k][..j]);
      assert log[..k][..j] == log[..j];
    }
  }

  /** What an answering SMU gets first, message by message: voltage and clock follow while
      nothing from the profile on is refused. */
  lemma ServiceStarts(p: SafePoint, log: seq<Served>, turns: nat)
    requires turns > 0 && ServiceServed(p, log, turns)
    ensures |log| >= 10
    ensures Asks(log[0], Q3, 1, 123) && Asks(log[1], Q3, 0x8C, 80) && Asks(log[2], Q0, 0x3A, 0)
    ensures Asks(log[3], Q0, 0x3C, 0) && Asks(log[4], Q3, 0x1E, ToU32(p.profile))
    ensures log[4].status == 1 ==> Asks(log[5], Q0, 0x3B, ToU32(MvToVid(p.mv)))
    ensures log[4].status == 1 && log[5].status == 1 ==> Asks(log[6], Q0, 0x39, ToU32(p.freq))
  {
    hide PassesServed, IsExit, MvToVid, ToU32;
    var passes := log[1..|log| - 5];
    FirstServed(p, passes, turns);
    var j :| 0 <= j <= |passes| && IsRound(p, passes[..j]);
    assert forall i :: 0 <= i < j ==> passes[..j][i] == log[1 + i];
  }

  /** A service of `turns` turns: it lasts no longer than so many passes and full waits, and at
      least all of its full waits. */
  predicate KeepsTime(start: nat, end: nat, turns: nat, interval: int) {
    && end <= start + READ_TICKS + turns * (LOOP_TICKS + Waits(interval)) + EXIT_TICKS
    && (turns > 0 ==> start + (turns - 1) * Waits(interval) <= end)
  }

  lemma TimeKept(start: nat, t1: nat, t2: nat, end: nat, turns: nat, interval: int)
    requires start <= t1 <= start + READ_TICKS && t2 <= end <= t2 + EXIT_TICKS && Paced(t1, t2, turns, interval)
    ensures KeepsTime(start, end, turns, interval)
  {
    hide Waits;
  }

  /** The service goes on only if the SMU answered the test message with 124, and, while nothing
      times out, whenever it did. */
  ghost predicate AliveDecides(exit: int, log0: seq<Served>, log: seq<Served>, prompt: bool) {
    var alive := |log| > |log0| && log[|log0|].status == 1 && log[|log0|].result == 124;
    && (exit == 0 && |log| > |log0| ==> alive)
    && (prompt ==> (exit == 0 <==> alive))
  }

  lemma AliveTold(log0: seq<Served>, log1: seq<Served>, code: int, v: Word, told: bool, prompt: bool)
    requires log0 <= log1 && (prompt ==> told) && (told <==> |log1| == |log0| + 1) && |log1| <= |log0| + 1
    requires told ==> v == log1[|log0|].result && (code != TIMEOUT ==> code == CodeOf(log1[|log0|].status))
    requires prompt ==> code != TIMEOUT
    ensures AliveDecides(if code != 1 || v != 124 then 1 else 0, log0, log1, prompt)
  {
    hide CodeOf;
    AcceptedIsOne();
  }

  lemma AliveStays(log0: seq<Served>, log1: seq<Served>, log: seq<Served>, before: bool, after: bool)
    requires log0 <= log1 <= log && AliveDecides(0, log0, log1, before) && (after ==> before)
    requires |log1| == |log0| ==> log == log1
    ensures AliveDecides(0, log0, log, after)
  {
  }

  lemma AliveEnds(p: SafePoint, g: Gpu, log0: seq<Served>, log1: seq<Served>)
    requires p in SERVICE && log0 <= log1 && AllInert(Since(log0, log1))
    ensures AtMost(p, g) ==> Guarded(p, g, Since(log0, log1))
    ensures Supplied(g, Since(log0, log1))
    ensures After(g, Since(log0, log1)) == g
  {
    InertSupplied(g, Since(log0, log1));
    InertLeaves(g, Since(log0, log1));
    if AtMost(p, g) {
      InertGuarded(p, g, Since(log0, log1));
    }
  }

  lemma ServeEnds(p: SafePoint, g: Gpu, log0: seq<Served>, log1: seq<Served>, log2: seq<Served>, log: seq<Served>)
    requires p in SERVICE && log0 <= log1 <= log2 <= log && AllInert(Since(log0, log1))
    requires AtMost(p, g) ==> Guarded(p, g, Since(log1, log2))
    requires Supplied(g, Since(log1, log2))
    requires IsExitPart(log2, log)
    ensures AtMost(p, g) ==> Guarded(p, g, Since(log0, log))
    ensures Supplied(g, Since(log0, log))
    ensures IsExit(Since(log2, log)) ==> |log| >= 5 && IsExit(log[|log| - 5..]) && Released(g, Since(log0, log))
  {
    hide Guarded, Supplied, AtMost, Since, IsExit, IsExitPart, Released, After, AllInert;
    AliveEnds(p, g, log0, log1);
    if AtMost(p, g) {
      Extend(p, g, log0, log1, log2);
    }
    ExtendSupplied(g, log0, log1, log2);
    ExitSupplied(g, log0, log2, log);
    ExitGuarded(p, g, log0, log2, log);
    if IsExit(Since(log2, log)) {
      ExitEnds(p, g, log0, log2, log);
    }
  }

  /** The trace of a service that served, by number: the test message and the first messages of
      the round if there was a turn, and the exit. */
  predicate StartsAndEnds(freq0: int, sent0: seq<B.Sent>, sent: seq<B.Sent>, turns: nat) {
    && sent0 + [B.Sent(Q3, 1, 123)] <= sent
    && (turns > 0 ==>
          sent0 + [B.Sent(Q3, 1, 123), B.Sent(Q3, 0x8C, 80), B.Sent(Q0, 0x3A, 0), B.Sent(Q0, 0x3C, 0),
                   B.Sent(Q3, 0x1E, if freq0 <= 1000 then 1 else 3)] <= sent)
    && |sent| >= 5
    && sent[|sent| - 5..]
       == [B.Sent(Q0, 0x3A, 0), B.Sent(Q0, 0x3C, 0), B.Sent(Q0, 0x37, 0), B.Sent(Q0, 0x1E, 0), B.Sent(Q0, 0x3D, 0)]
  }

  lemma TraceEnds(freq0: int, sent0: seq<B.Sent>, sent: seq<B.Sent>, turns: nat)
    requires ServiceSent(Pick(SERVICE, freq0), sent0, sent, turns)
    ensures StartsAndEnds(freq0, sent0, sent, turns)
  {
    hide Pick, PassesSent;
    var passes :| PassesSent(Pick(SERVICE, freq0), passes, turns)
      && sent == sent0 + [B.Sent(Q3, 1, 123)] + passes + UNFORCE_SCRIPT + STATUS_SCRIPT;
    ServiceChoice(freq0);
    if turns > 0 {
      ServiceApplies(Pick(SERVICE, freq0), sent0, sent, turns);
    }
  }

  /** The interval the service waits, at least a second. */
  function Interval(interval0: int): int {
    if interval0 < 1000 then 1000 else interval0
  }

  predicate InRange(freq: int, mv: int) {
    300 <= freq <= 2400 && 700 <= mv <= 1200
  }

  /** The service, for every request, every schedule and every moment of Ctrl-C; `g` is
      the state of the GPU at the start. */
  method RunService(bus: B.SmnBus, freq0: int, mv0: int, profile0: int, interval0: int, stopAt: nat, ghost g: Gpu)
    returns (exit: int, ghost turns: nat)
    requires bus.Tracked()
    modifies bus
    ensures bus.Progressed()
    ensures bus.tick <= old(bus.tick) + READ_TICKS + EXIT_TICKS || bus.tick <= stopAt + LOOP_TICKS + EXIT_TICKS
    ensures exit == 0 || exit == 1
    ensures InRange(freq0, mv0) ==> AliveDecides(exit, old(bus.known), bus.known, !bus.lost && !bus.gaveUp)
    ensures exit == 0 ==> ServiceSent(Pick(SERVICE, freq0), old(bus.sent), bus.sent, turns)
    ensures exit == 0 && !bus.lost && !bus.gaveUp ==>
      ServiceServed(Pick(SERVICE, freq0), Since(old(bus.known), bus.known), turns)
    ensures exit == 0 && old(bus.tick) + READ_TICKS < stopAt ==> turns > 0
    ensures exit == 0 ==> StartsAndEnds(freq0, old(bus.sent), bus.sent, turns)
    ensures exit == 0 ==> KeepsTime(old(bus.tick), bus.tick, turns, Interval(interval0))
    ensures !InRange(freq0, mv0) ==> exit == 1 && bus.sent == old(bus.sent)
    ensures InRange(freq0, mv0) && exit == 1 ==> bus.sent == old(bus.sent) + [B.Sent(Q3, 1, 123)]
    ensures AtMost(Pick(SERVICE, freq0), g) ==> Guarded(Pick(SERVICE, freq0), g, Since(old(bus.known), bus.known))
    ensures Covered(g) ==>
      && (Always(Covered, g, Since(old(bus.known), bus.known)) <==> !Starved(g, Since(old(bus.known), bus.known)))
      && (Honored(Since(old(bus.known), bus.known)) ==> Always(Covered, g, Since(old(bus.known), bus.known)))
    ensures !bus.lost && exit == 0 ==>
      |bus.known| >= 5 && IsExit(bus.known[|bus.known| - 5..]) && Released(g, Since(old(bus.known), bus.known))
  {
    hide Guarded, Supplied, Starved, Always, Covered, Honored, IsExit, Released, AtMost, First, Pick, ServiceSent,
         ServiceServed, AliveDecides, StartsAndEnds, KeepsTime, Since;
    var freq, mv, profile, interval := freq0, mv0, profile0, interval0;
    if freq < 300 || freq > 2400 || mv < 700 || mv > 1200 {
      NothingServed(Pick(SERVICE, freq0), g, bus.known);
      RunEnds(g, Since(bus.known, bus.known));
      return 1, 0;
    }
    if profile < 0 || profile > 3 { profile := 3; }
    if interval < 1000 { interval := 1000; }
    freq, mv, profile := ClampToSafe(freq);
    ghost var log0 := bus.known;
    ghost var sent0 := bus.sent;
    exit, turns := Serve(bus, SafePoint(freq, mv, profile), interval, stopAt, g);
    if exit == 0 {
      TraceEnds(freq0, sent0, bus.sent, turns);
    }
    RunEnds(g, Since(log0, bus.known));
  }

  lemma RunEnds(g: Gpu, log: seq<Served>)
    requires Supplied(g, log)
    ensures Covered(g) ==>
      (Always(Covered, g, log) <==> !Starved(g, log)) && (Honored(log) ==> Always(Covered, g, log))
  {
    hide Supplied, Starved, Always, Covered, Honored;
    if Covered(g) {
      SuppliedIff(g, log);
    }
  }

  lemma NothingServed(p: SafePoint, g: Gpu, log: seq<Served>)
    requires p in SERVICE
    ensures AtMost(p, g) ==> Guarded(p, g, Since(log, log))
    ensures Supplied(g, Since(log, log))
  {
    InertSupplied(g, Since(log, log));
    if AtMost(p, g) {
      InertGuarded(p, g, Since(log, log));
    }
  }

  /** If the last two unforces of the run were accepted, nothing is forced at its end. */
  ghost predicate Released(g: Gpu, log: seq<Served>) {
    && |log| >= 5
    && (log[|log| - 5].status == 1 && log[|log| - 4].status == 1 ==>
          After(g, log).freq.None? && After(g, log).vid.None?)
  }

  /** The exit path keeps a guarded run guarded, whole or broken off. */
  lemma ExitGuarded(p: SafePoint, g: Gpu, log0: seq<Served>, log2: seq<Served>, log: seq<Served>)
    requires p in SERVICE && log0 <= log2 <= log && IsExitPart(log2, log)
    ensures Guarded(p, g, Since(log0, log2)) ==> Guarded(p, g, Since(log0, log))
  {
    var log3 :| log2 <= log3 <= log && IsUnforcePart(Since(log2, log3)) && AllInert(Since(log3, log));
    UnforceEnd(p, g, log0, log2, log3);
    StatusEnd(p, g, log0, log3, log);
  }

  /** A whole exit path releases clock and voltage if its two unforces are accepted. */
  lemma ExitEnds(p: SafePoint, g: Gpu, log0: seq<Served>, log2: seq<Served>, log: seq<Served>)
    requires p in SERVICE && log0 <= log2 <= log && IsExit(Since(log2, log))
    ensures Guarded(p, g, Since(log0, log2)) ==> Guarded(p, g, Since(log0, log))
    ensures |log| >= 5 && log[|log| - 5..] == Since(log2, log)
    ensures Released(g, Since(log0, log))
  {
    var a, b := Since(log2, log)[..2], Since(log2, log)[2..];
    var log3 := log2 + a;
    assert log3 <= log && Since(log2, log3) == a && Since(log3, log) == b;
    UnforceEnd(p, g, log0, log2, log3);
    StatusEnd(p, g, log0, log3, log);
  }

  lemma PassGuarded(p: SafePoint, g: Gpu, log0: seq<Served>, log1: seq<Served>, log: seq<Served>)
    requires p in SERVICE && log0 <= log1 <= log && Guarded(p, g, Since(log0, log1)) && IsPass(p, log1, log)
    ensures Guarded(p, g, Since(log0, log))
  {
    var log2 :| log1 <= log2 <= log && IsRoundPart(p, Since(log1, log2)) && AllInert(Since(log2, log));
    var g1 := After(g, Since(log0, log1));
    if AtMost(p, g1) {
      RoundGuarded(p, g1, Since(log1, log2));
    }
    Extend(p, g, log0, log1, log2);
    var g2 := After(g, Since(log0, log2));
    if AtMost(p, g2) {
      InertGuarded(p, g2, Since(log2, log));
    }
    Extend(p, g, log0, log2, log);
  }

  lemma PassSupplied(p: SafePoint, g: Gpu, log0: seq<Served>, log1: seq<Served>, log: seq<Served>)
    requires p in SERVICE && log0 <= log1 <= log && Supplied(g, Since(log0, log1)) && IsPass(p, log1, log)
    ensures Supplied(g, Since(log0, log))
  {
    hide Supplied, Since, IsRoundPart, AllInert;
    var log2 :| log1 <= log2 <= log && IsRoundPart(p, Since(log1, log2)) && AllInert(Since(log2, log));
    RoundSupplied(p, After(g, Since(log0, log1)), Since(log1, log2));
    ExtendSupplied(g, log0, log1, log2);
    InertSupplied(After(g, Since(log0, log2)), Since(log2, log));
    ExtendSupplied(g, log0, log2, log);
  }

  lemma ExitSupplied(g: Gpu, log0: seq<Served>, log1: seq<Served>, log: seq<Served>)
    requires log0 <= log1 <= log && Supplied(g, Since(log0, log1)) && IsExitPart(log1, log)
    ensures Supplied(g, Since(log0, log))
  {
    hide Supplied, Since, IsUnforcePart, AllInert;
    var log2 :| log1 <= log2 <= log && IsUnforcePart(Since(log1, log2)) && AllInert(Since(log2, log));
    UnforceSupplied(After(g, Since(log0, log1)), Since(log1, log2));
    ExtendSupplied(g, log0, log1, log2);
    InertSupplied(After(g, Since(log0, log2)), Since(log2, log));
    ExtendSupplied(g, log0, log2, log);
  }

  lemma UnforceEnd(p: SafePoint, g: Gpu, log0: seq<Served>, log1: seq<Served>, log2: seq<Served>)
    requires p in SERVICE && log0 <= log1 <= log2 && IsUnforcePart(Since(log1, log2))
    ensures Guarded(p, g, Since(log0, log1)) ==> Guarded(p, g, Since(log0, log2))
    ensures IsUnforce(Since(log1, log2)) && log2[|log1|].status == 1 && log2[|log1| + 1].status == 1 ==>
      After(g, Since(log0, log2)).freq.None? && After(g, Since(log0, log2)).vid.None?
  {
    hide Guarded, After;
    var g1, log := After(g, Since(log0, log1)), Since(log1, log2);
    if AtMost(p, g1) {
      UnforceGuarded(p, g1, log);
    }
    if Guarded(p, g, Since(log0, log1)) {
      Extend(p, g, log0, log1, log2);
    }
    assert Since(log0, log2) == Since(log0, log1) + log;
    AfterConcat(g, Since(log0, log1), log);
    if |log| == 2 && log[0].status == 1 && log[1].status == 1 {
      BothUnforced(g1, log);
    }
  }

  lemma BothUnforced(g: Gpu, log: seq<Served>)
    requires IsUnforce(log) && log[0].status == 1 && log[1].status == 1
    ensures After(g, log).freq.None? && After(g, log).vid.None?
  {
    RoundStates(g, log);
    assert After(g, log[..2]) == Effect(After(g, log[..1]), log[1]);
  }

  lemma StatusEnd(p: SafePoint, g: Gpu, log0: seq<Served>, log2: seq<Served>, log3: seq<Served>)
    requires p in SERVICE && log0 <= log2 <= log3 && AllInert(Since(log2, log3))
    ensures Guarded(p, g, Since(log0, log2)) ==> Guarded(p, g, Since(log0, log3))
    ensures After(g, Since(log0, log3)) == After(g, Since(log0, log2))
  {
    var g2 := After(g, Since(log0, log2));
    if AtMost(p, g2) {
      InertGuarded(p, g2, Since(log2, log3));
    }
    if Guarded(p, g, Since(log0, log2)) {
      Extend(p, g, log0, log2, log3);
    }
    assert Since(log0, log3) == Since(log0, log2) + Since(log2, log3);
    AfterConcat(g, Since(log0, log2), Since(log2, log3));
    InertLeaves(g2, Since(log2, log3));
  }
}
