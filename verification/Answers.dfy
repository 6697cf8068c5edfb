/** When the two query routines return, and with what: the firmware is silent up to a chosen
    poll and then answers.  Registers, offsets and codes are written out as numbers here. */
module Answers {
  import opened Common
  import opened Smu

  /** The firmware picks up its command, writes a result and a status, all at tick `t`. */
  function AnswerAt(t: nat, q: Queue, result: Word, status: Word): Schedule {
    SilentFor(t) + [[Latch(q), PutResult(q, result), PutStatus(q, status)]]
  }

  lemma AnswerBatches(t: nat, q: Queue, result: Word, status: Word)
    ensures var env := AnswerAt(t, q, result, status);
      && Silent(env, 0, t)
      && BatchAt(env, t) == [Latch(q), PutResult(q, result), PutStatus(q, status)]
      && forall k :: t < k ==> BatchAt(env, k) == []
  {
  }

  lemma AnswerLands(w: World, q: Queue, msg: Word, result: Word, status: Word)
    requires w.EngineOf(q) == Engine(Some(msg), None) && w.EngineOf(Other(q)) == RESTING
    ensures var w' := RunSteps(w, [Latch(q), PutResult(q, result), PutStatus(q, status)]);
      && w'.Idle() && w'.Cell(RspReg(q)) == status && w'.Cell(ArgReg(q)) == result
      && w'.log == w.log + [Served(q, msg, w.Cell(ArgReg(q)), status, result)]
  {
    var steps := [Latch(q), PutResult(q, result), PutStatus(q, status)];
    assert steps[1..] == [PutResult(q, result), PutStatus(q, status)];
    RunTwo(Apply(w, Latch(q)), PutResult(q, result), PutStatus(q, status));
  }

  /** A read whose first tick brings the answer. */
  lemma AnswerRead(w: World, t: nat, env: Schedule, a: Word)
    requires forall k :: t < k ==> BatchAt(env, k) == []
    ensures var w' := RunSteps(w, BatchAt(env, t));
      AtomicRead(Sys(w, t), env, a) == (Sys(w', t + 3), w'.Cell(a))
  {
    var s := Sys(w, t);
    LastTick(s, env);
    SilentTick(Elapse(s, env), env);
    SilentTick(Elapse(Elapse(s, env), env), env);
  }

  // ---- q0 and q3 -----------------------------------------------------------------

  /** While the response register shows no verdict the loop goes on. */
  lemma {:induction false} PollWaits(w: World, t: nat, env: Schedule, q: Queue, tries: nat, k: nat)
    requires k <= tries && CodeOf(w.Cell(RspReg(q))) == TIMEOUT && Silent(env, t, t + 4 * k)
    ensures Poll(Sys(w, t), env, q, tries) == Poll(Sys(w, t + 4 * k), env, q, tries - k)
    decreases k
  {
    hide AtomicRead, Elapse;
    if k > 0 {
      SilentRead(Sys(w, t), env, RspReg(q));
      SilentTick(Sys(w, t + 3), env);
      PollWaits(w, t + 4, env, q, tries - 1, k - 1);
    }
  }

  /** The status a q0 or q3 caller gets back as its code. */
  function CodeTold(status: Word): int {
    match status
    case 1 => 1
    case 0xFF => -1
    case 0xFE => -2
    case 0xFD => -3
    case 0xFC => -4
    case _ => -100
  }

  lemma CodesAre(status: Word)
    ensures CodeOf(status) == CodeTold(status)
  {
  }

  /** Answered before poll k of 500 with a status of the protocol: that very poll returns its
      code, the argument register holds the result, and nothing is in flight. */
  lemma QueryAnswered(w: World, q: Queue, msg: Word, arg: Word, k: nat, result: Word, status: Word)
    requires w.Idle() && k < 500 && status in {1, 0xFF, 0xFE, 0xFD, 0xFC}
    ensures var env := AnswerAt(6 + 4 * k, q, result, status);
      var (s, code) := Query(Sys(w, 0), env, q, msg, arg);
      && code == CodeTold(status) && s.tick == 9 + 4 * k
      && s.world.Idle() && s.world.Cell(ArgReg(q)) == result
      && s.world.log == w.log + [Served(q, msg, arg, status, result)]
  {
    hide Poll, Unserved, Post, AtomicWrite, AtomicRead, RunSteps, CodeOf;
    var env, u := AnswerAt(6 + 4 * k, q, result, status), Unserved(w, q, msg, arg);
    AnswerBatches(6 + 4 * k, q, result, status);
    UnservedPosted(Sys(w, 0), env, q, msg, arg);
    UnservedPends(w, q, msg, arg);
    PollWaits(u, 6, env, q, 500, k);
    AnswerLands(u, q, msg, result, status);
    AnswerRead(u, 6 + 4 * k, env, RspReg(q));
    CodesAre(status);
    PollAnswered(Sys(u, 6 + 4 * k), env, q, 500 - k);
  }

  /** Any other status is never taken for an answer, although the command is done. */
  lemma UnknownStatus(w: World, q: Queue, msg: Word, arg: Word, k: nat, result: Word, status: Word)
    requires w.Idle() && k < 500 && status !in {1, 0xFF, 0xFE, 0xFD, 0xFC}
    ensures var env := AnswerAt(6 + 4 * k, q, result, status);
      var (s, code) := Query(Sys(w, 0), env, q, msg, arg);
      && code == -100 && s.tick == 2006
      && s.world.Idle() && s.world.log == w.log + [Served(q, msg, arg, status, result)]
  {
    hide Poll, Unserved, Post, AtomicWrite, AtomicRead, Elapse, RunSteps, CodeOf;
    var env, u := AnswerAt(6 + 4 * k, q, result, status), Unserved(w, q, msg, arg);
    AnswerBatches(6 + 4 * k, q, result, status);
    UnservedPosted(Sys(w, 0), env, q, msg, arg);
    UnservedPends(w, q, msg, arg);
    PollWaits(u, 6, env, q, 500, k);
    AnswerLands(u, q, msg, result, status);
    var w' := RunSteps(u, BatchAt(env, 6 + 4 * k));
    AnswerRead(u, 6 + 4 * k, env, RspReg(q));
    CodesAre(status);
    PollGoesOn(Sys(u, 6 + 4 * k), env, q, 500 - k);
    SilentTick(Sys(w', 9 + 4 * k), env);
    PollTimesOut(Sys(w', 10 + 4 * k), env, q, 499 - k);
  }

  lemma PollGoesOn(s: Sys, env: Schedule, q: Queue, tries: nat)
    requires tries > 0 && CodeOf(AtomicRead(s, env, RspReg(q)).1) == TIMEOUT
    ensures Poll(s, env, q, tries) == Poll(Elapse(AtomicRead(s, env, RspReg(q)).0, env), env, q, tries - 1)
  {
  }

  // ---- SmuQueryEx ----------------------------------------------------------------

  lemma {:induction false} AwaitWaits(w: World, t: nat, env: Schedule, reg: Word, tries: nat, k: nat)
    requires k <= tries && w.Cell(reg) != 1 && Silent(env, t, t + 4 * k)
    ensures Await(Sys(w, t), env, reg, 1, tries) == Await(Sys(w, t + 4 * k), env, reg, 1, tries - k)
    decreases k
  {
    hide AtomicRead, Elapse;
    if k > 0 {
      SilentRead(Sys(w, t), env, reg);
      SilentTick(Sys(w, t + 3), env);
      AwaitWaits(w, t + 4, env, reg, tries - 1, k - 1);
    }
  }

  lemma AwaitGivesUp(s: Sys, env: Schedule, reg: Word)
    ensures Await(s, env, reg, 1, 0) == (s, false)
  {
  }

  lemma AwaitGoesOn(s: Sys, env: Schedule, reg: Word, tries: nat)
    requires tries > 0 && AtomicRead(s, env, reg).1 != 1
    ensures Await(s, env, reg, 1, tries) == Await(Elapse(AtomicRead(s, env, reg).0, env), env, reg, 1, tries - 1)
  {
  }

  /** What SmuQueryEx has posted when it starts to poll, the firmware being silent. */
  function Posted(w: World, q: Queue, msg: Word, arg: Word): World {
    var cleared := if w.Cell(RspReg(q)) == 1 then HostStore(w, RspReg(q), 0) else w;
    HostStore(HostStore(cleared, ArgReg(q), arg), CmdReg(q), msg)
  }

  lemma PostedPends(w: World, q: Queue, msg: Word, arg: Word)
    requires w.Idle()
    ensures var u := Posted(w, q, msg, arg);
      && u.EngineOf(q) == Engine(Some(msg), None) && u.EngineOf(Other(q)) == RESTING
      && u.log == w.log && u.Cell(ArgReg(q)) == arg && u.Cell(RspReg(q)) != 1
  {
  }

  lemma PostSilent(s: Sys, env: Schedule, q: Queue, msg: Word, arg: Word)
    requires Silent(env, s.tick, s.tick + 4)
    ensures Post(s, env, q, msg, arg) == Sys(HostStore(HostStore(s.world, ArgReg(q), arg), CmdReg(q), msg), s.tick + 4)
  {
  }

  /** The first tick of SmuQueryEx's polling loop. */
  function PollStart(w: World, q: Queue): nat {
    ClearTicks(w, q) + 4
  }

  lemma ExPosted(w: World, env: Schedule, q: Queue, msg: Word, arg: Word)
    requires Silent(env, 0, PollStart(w, q))
    ensures Post(ClearLeftover(Sys(w, 0), env, q), env, q, msg, arg)
         == Sys(Posted(w, q, msg, arg), PollStart(w, q))
  {
    hide Post, ClearLeftover;
    ClearedSilently(w, env, q);
    PostSilent(ClearLeftover(Sys(w, 0), env, q), env, q, msg, arg);
  }

  /** Accepted before poll k of 1000: that very poll ends the wait and the result comes back. */
  lemma QueryExAnswered(w: World, q: Queue, msg: Word, arg: Word, k: nat, result: Word)
    requires w.Idle() && k < 1000
    ensures var t := PollStart(w, q) + 4 * k;
      var (s, v) := QueryEx(Sys(w, 0), AnswerAt(t, q, result, 1), q, msg, arg);
      && v == result && s.tick == t + 6 && s.world.Idle()
      && s.world.log == w.log + [Served(q, msg, arg, 1, result)]
  {
    hide Await, Posted, Post, ClearLeftover, AtomicRead, RunSteps;
    var t, u := PollStart(w, q) + 4 * k, Posted(w, q, msg, arg);
    var env := AnswerAt(t, q, result, 1);
    AnswerBatches(t, q, result, 1);
    ExPosted(w, env, q, msg, arg);
    PostedPends(w, q, msg, arg);
    AwaitWaits(u, PollStart(w, q), env, RspReg(q), 1000, k);
    AnswerLands(u, q, msg, result, 1);
    var w' := RunSteps(u, BatchAt(env, t));
    AnswerRead(u, t, env, RspReg(q));
    AwaitAnswered(Sys(u, t), env, RspReg(q), 1000 - k);
    SilentRead(Sys(w', t + 3), env, ArgReg(q));
  }

  /** Refused before poll k, with whatever status: the caller waits for all 1000 polls and gets
      all-ones, although the command is done. */
  lemma QueryExRefused(w: World, q: Queue, msg: Word, arg: Word, k: nat, result: Word, status: Word)
    requires w.Idle() && k < 1000 && status != 1
    ensures var start := PollStart(w, q);
      var (s, v) := QueryEx(Sys(w, 0), AnswerAt(start + 4 * k, q, result, status), q, msg, arg);
      && v == 0xFFFF_FFFF && s.tick == start + 4000 && s.world.Idle()
      && s.world.log == w.log + [Served(q, msg, arg, status, result)]
  {
    hide Await, Posted, Post, ClearLeftover, AtomicRead, Elapse, RunSteps;
    var t, u := PollStart(w, q) + 4 * k, Posted(w, q, msg, arg);
    var env := AnswerAt(t, q, result, status);
    AnswerBatches(t, q, result, status);
    ExPosted(w, env, q, msg, arg);
    PostedPends(w, q, msg, arg);
    AwaitWaits(u, PollStart(w, q), env, RspReg(q), 1000, k);
    AnswerLands(u, q, msg, result, status);
    var w' := RunSteps(u, BatchAt(env, t));
    AnswerRead(u, t, env, RspReg(q));
    AwaitGoesOn(Sys(u, t), env, RspReg(q), 1000 - k);
    SilentTick(Sys(w', t + 3), env);
    AwaitWaits(w', t + 4, env, RspReg(q), 999 - k, 999 - k);
    AwaitGivesUp(Sys(w', t + 4 + 4 * (999 - k)), env, RspReg(q));
  }

  /** A firmware that stays silent costs exactly 1000 polls and leaves the command in flight. */
  lemma QueryExSilent(w: World, q: Queue, msg: Word, arg: Word)
    requires w.Idle()
    ensures QueryEx(Sys(w, 0), [], q, msg, arg)
         == (Sys(Posted(w, q, msg, arg), PollStart(w, q) + 4000), 0xFFFF_FFFF)
    ensures !Posted(w, q, msg, arg).Idle()
  {
    hide Await, Posted, Post, ClearLeftover;
    ExPosted(w, [], q, msg, arg);
    PostedPends(w, q, msg, arg);
    AwaitWaits(Posted(w, q, msg, arg), PollStart(w, q), [], RspReg(q), 1000, 1000);
    AwaitGivesUp(Sys(Posted(w, q, msg, arg), PollStart(w, q) + 4000), [], RspReg(q));
  }

  // ---- where the accesses go -----------------------------------------------------

  /** The cells a query of each queue writes, by address. */
  lemma CellsWritten(w: World, msg: Word, arg: Word)
    ensures Unserved(w, Q0, msg, arg).cells == w.cells[0x03B10A68 := 0][0x03B10A48 := arg][0x03B10A08 := msg]
    ensures Unserved(w, Q3, msg, arg).cells == w.cells[0x03B10A80 := 0][0x03B10A88 := arg][0x03B10A20 := msg]
    ensures w.Idle() ==>
      Unserved(w, Q0, msg, arg).q0.doorbell == Some(msg) && Unserved(w, Q3, msg, arg).q3.doorbell == Some(msg)
  {
  }

  /** Through BAR5 offset 0x38 a cell is picked, through 0x3C it is written or read; the values
      are those of the instant of the 0x3C access. */
  lemma WindowByOffset(b: Bus, env: Schedule, a: Word, v: Word)
    ensures BusWrite(BusWrite(b, env, 0x38, a), env, 0x3C, v)
         == Bus(a, AtomicWrite(b.sys, env, a, v))
    ensures BusRead(BusRead(BusWrite(b, env, 0x38, a), env, 0x38).0, env, 0x3C)
         == (Bus(a, AtomicRead(b.sys, env, a).0), AtomicRead(b.sys, env, a).1)
  {
  }
}
