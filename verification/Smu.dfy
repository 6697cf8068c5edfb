/** The SMU mailboxes behind the SMN index/data window.

    The firmware is a second agent.  What it does between two bus accesses of the host is
    a batch of `Step`s, and a schedule is a sequence of batches, one per tick.  Quantifying
    over schedules quantifies over every interleaving. */
module Smu {
  import opened Common

  datatype Queue = Q0 | Q3

  function CmdReg(q: Queue): Word { if q == Q0 then 0x03B10A08 else 0x03B10A20 }
  function RspReg(q: Queue): Word { if q == Q0 then 0x03B10A68 else 0x03B10A80 }
  function ArgReg(q: Queue): Word { if q == Q0 then 0x03B10A48 else 0x03B10A88 }

  predicate IsMailbox(a: Word) {
    a in {CmdReg(Q0), RspReg(Q0), ArgReg(Q0), CmdReg(Q3), RspReg(Q3), ArgReg(Q3)}
  }

  datatype Request = Request(msg: Word, arg: Word)

  /** `doorbell` holds a command the host wrote and the firmware has not picked up. */
  datatype Engine = Engine(doorbell: Option<Word>, serving: Option<Request>)

  const RESTING := Engine(None, None)

  /** One completed command: what was asked and what the two registers then held. */
  datatype Served = Served(queue: Queue, msg: Word, arg: Word, status: Word, result: Word)

  datatype World = World(cells: map<Word, Word>, q0: Engine, q3: Engine, log: seq<Served>) {

    /** An address nothing answers at reads all-ones. */
    function Cell(a: Word): Word {
      if a in cells then cells[a] else ALL_ONES
    }

    function EngineOf(q: Queue): Engine {
      if q == Q0 then q0 else q3
    }

    function WithEngine(q: Queue, e: Engine): World {
      if q == Q0 then this.(q0 := e) else this.(q3 := e)
    }

    /** No command in flight. */
    predicate Idle() {
      q0 == RESTING && q3 == RESTING
    }
  }

  function Other(q: Queue): Queue { if q == Q0 then Q3 else Q0 }

  /** What the firmware can do: pick up a command, write its result, write its status
      (which completes it), or touch a cell that is no mailbox register. */
  datatype Step =
    | Latch(queue: Queue)
    | PutResult(queue: Queue, value: Word)
    | PutStatus(queue: Queue, value: Word)
    | Background(addr: Word, value: Word)

  function Apply(w: World, s: Step): World {
    match s
    case Latch(q) =>
      var e := w.EngineOf(q);
      if e.serving.None? && e.doorbell.Some?
      then w.WithEngine(q, Engine(None, Some(Request(e.doorbell.value, w.Cell(ArgReg(q))))))
      else w
    case PutResult(q, v) =>
      if w.EngineOf(q).serving.Some? then w.(cells := w.cells[ArgReg(q) := v]) else w
    case PutStatus(q, v) =>
      var e := w.EngineOf(q);
      if e.serving.Some?
      then w.(cells := w.cells[RspReg(q) := v],
              log := w.log + [Served(q, e.serving.value.msg, e.serving.value.arg, v, w.Cell(ArgReg(q)))])
           .WithEngine(q, e.(serving := None))
      else w
    case Background(a, v) =>
      if IsMailbox(a) then w else w.(cells := w.cells[a := v])
  }

  function RunSteps(w: World, steps: seq<Step>): World
    decreases |steps|
  {
    if steps == [] then w else RunSteps(Apply(w, steps[0]), steps[1..])
  }

  type Schedule = seq<seq<Step>>

  function BatchAt(env: Schedule, tick: nat): seq<Step> {
    if tick < |env| then env[tick] else []
  }

  datatype Sys = Sys(world: World, tick: nat)

  /** One tick: the firmware runs its next batch. */
  function Elapse(s: Sys, env: Schedule): Sys {
    Sys(RunSteps(s.world, BatchAt(env, s.tick)), s.tick + 1)
  }

  /** A host store into an SMN cell; storing into a command register rings the doorbell. */
  function HostStore(w: World, a: Word, v: Word): World {
    var w' := w.(cells := w.cells[a := v]);
    if a == CmdReg(Q0) then w'.WithEngine(Q0, w.q0.(doorbell := Some(v)))
    else if a == CmdReg(Q3) then w'.WithEngine(Q3, w.q3.(doorbell := Some(v)))
    else w'
  }

  // ---- the three-access window ---------------------------------------------------

  const INDEX := 0x38
  const DATA := 0x3C

  /** BAR5 as the host sees it: the index latch in front of the SMN cells. */
  datatype Bus = Bus(index: Word, sys: Sys)

  function BusWrite(b: Bus, env: Schedule, off: Word, v: Word): Bus {
    var s := Elapse(b.sys, env);
    if off == INDEX then Bus(v, s)
    else if off == DATA then Bus(b.index, s.(world := HostStore(s.world, b.index, v)))
    else Bus(b.index, s)
  }

  function BusRead(b: Bus, env: Schedule, off: Word): (Bus, Word) {
    var s := Elapse(b.sys, env);
    (Bus(b.index, s),
     if off == INDEX then b.index else if off == DATA then s.world.Cell(b.index) else ALL_ONES)
  }

  function SmnWrite(b: Bus, env: Schedule, a: Word, v: Word): Bus {
    BusWrite(BusWrite(b, env, INDEX, a), env, DATA, v)
  }

  function SmnRead(b: Bus, env: Schedule, a: Word): (Bus, Word) {
    BusRead(BusRead(BusWrite(b, env, INDEX, a), env, INDEX).0, env, DATA)
  }

  /** The same two operations on a machine whose SMN accesses are atomic. */
  function AtomicWrite(s: Sys, env: Schedule, a: Word, v: Word): Sys {
    var s' := Elapse(Elapse(s, env), env);
    s'.(world := HostStore(s'.world, a, v))
  }

  function AtomicRead(s: Sys, env: Schedule, a: Word): (Sys, Word) {
    var s' := Elapse(Elapse(Elapse(s, env), env), env);
    (s', s'.world.Cell(a))
  }

  datatype HostOp = ReadOp(addr: Word) | WriteOp(addr: Word, value: Word) | IdleOp

  /** A host program picks its next operation from everything it has read so far. */
  type Host = seq<Word> -> HostOp

  function WindowRun(host: Host, b: Bus, env: Schedule, seen: seq<Word>, n: nat): (Bus, seq<Word>)
    decreases n
  {
    if n == 0 then (b, seen) else
    match host(seen)
    case ReadOp(a) =>
      var (b', v) := SmnRead(b, env, a);
      WindowRun(host, b', env, seen + [v], n - 1)
    case WriteOp(a, v) => WindowRun(host, SmnWrite(b, env, a, v), env, seen, n - 1)
    case IdleOp => WindowRun(host, Bus(b.index, Elapse(b.sys, env)), env, seen, n - 1)
  }

  function AtomicRun(host: Host, s: Sys, env: Schedule, seen: seq<Word>, n: nat): (Sys, seq<Word>)
    decreases n
  {
    if n == 0 then (s, seen) else
    match host(seen)
    case ReadOp(a) =>
      var (s', v) := AtomicRead(s, env, a);
      AtomicRun(host, s', env, seen + [v], n - 1)
    case WriteOp(a, v) => AtomicRun(host, AtomicWrite(s, env, a, v), env, seen, n - 1)
    case IdleOp => AtomicRun(host, Elapse(s, env), env, seen, n - 1)
  }

  /** Every adaptive host program, under every schedule and for every number of
      operations, sees the same values and leaves the same SMN cells, engines and log
      through the window as on the atomic machine. */
  lemma {:induction false} WindowRefinesAtomic(host: Host, b: Bus, env: Schedule, seen: seq<Word>, n: nat)
    ensures WindowRun(host, b, env, seen, n).0.sys == AtomicRun(host, b.sys, env, seen, n).0
    ensures WindowRun(host, b, env, seen, n).1 == AtomicRun(host, b.sys, env, seen, n).1
    decreases n
  {
    if n > 0 {
      match host(seen)
      case ReadOp(a) =>
        var (b', v) := SmnRead(b, env, a);
        WindowRefinesAtomic(host, b', env, seen + [v], n - 1);
      case WriteOp(a, v) =>
        WindowRefinesAtomic(host, SmnWrite(b, env, a, v), env, seen, n - 1);
      case IdleOp =>
        WindowRefinesAtomic(host, Bus(b.index, Elapse(b.sys, env)), env, seen, n - 1);
    }
  }

  // ---- the polling protocol ------------------------------------------------------

  const TIMEOUT := -100

  function CodeOf(status: Word): int {
    if status == 1 then 1
    else if status == 0xFF then -1
    else if status == 0xFE then -2
    else if status == 0xFD then -3
    else if status == 0xFC then -4
    else TIMEOUT
  }

  function Poll(s: Sys, env: Schedule, q: Queue, tries: nat): (Sys, int)
    decreases tries, q
  {
    if tries == 0 then (s, TIMEOUT) else
    var (s', status) := AtomicRead(s, env, RspReg(q));
    if CodeOf(status) != TIMEOUT then (s', CodeOf(status))
    else Poll(Elapse(s', env), env, q, tries - 1)
  }

  function Post(s: Sys, env: Schedule, q: Queue, msg: Word, arg: Word): Sys {
    AtomicWrite(AtomicWrite(s, env, ArgReg(q), arg), env, CmdReg(q), msg)
  }

  /** q0 and q3: clear the response, post, poll up to 500 times for any verdict. */
  function Query(s: Sys, env: Schedule, q: Queue, msg: Word, arg: Word): (Sys, int) {
    Poll(Post(AtomicWrite(s, env, RspReg(q), 0), env, q, msg, arg), env, q, 500)
  }

  /** WaitRsp: poll for one given value. */
  function Await(s: Sys, env: Schedule, reg: Word, wanted: Word, tries: nat): (Sys, bool)
    decreases tries, reg
  {
    if tries == 0 then (s, false) else
    var (s', v) := AtomicRead(s, env, reg);
    if v == wanted then (s', true) else Await(Elapse(s', env), env, reg, wanted, tries - 1)
  }

  /** First part of SmuQueryEx: the response is cleared only when it holds a leftover 1. */
  function ClearLeftover(s: Sys, env: Schedule, q: Queue): Sys {
    var (s', v) := AtomicRead(s, env, RspReg(q));
    if v == 1 then AtomicWrite(s', env, RspReg(q), 0) else s'
  }

  function QueryEx(s: Sys, env: Schedule, q: Queue, msg: Word, arg: Word): (Sys, Word) {
    var (s', ok) := Await(Post(ClearLeftover(s, env, q), env, q, msg, arg), env, RspReg(q), 1, 1000);
    if ok then AtomicRead(s', env, ArgReg(q)) else (s', ALL_ONES)
  }

  lemma ReadTicks(s: Sys, env: Schedule, a: Word)
    ensures AtomicRead(s, env, a).0.tick == s.tick + 3 && Elapse(AtomicRead(s, env, a).0, env).tick == s.tick + 4
  {
    hide RunSteps;
  }

  lemma {:induction false} PollTicks(s: Sys, env: Schedule, q: Queue, tries: nat)
    ensures s.tick <= Poll(s, env, q, tries).0.tick <= s.tick + 4 * tries
    decreases tries
  {
    hide AtomicRead, Elapse;
    if tries > 0 {
      ReadTicks(s, env, RspReg(q));
      PollTicks(Elapse(AtomicRead(s, env, RspReg(q)).0, env), env, q, tries - 1);
    }
  }

  /** A query costs a bounded number of ticks, answered or not. */
  lemma QueryTicks(s: Sys, env: Schedule, q: Queue, msg: Word, arg: Word)
    ensures s.tick + 6 <= Query(s, env, q, msg, arg).0.tick <= s.tick + 2006
  {
    PollTicks(Post(AtomicWrite(s, env, RspReg(q), 0), env, q, msg, arg), env, q, 500);
  }

  // ---- freshness -----------------------------------------------------------------

  ghost predicate Answered(log0: seq<Served>, q: Queue, msg: Word, arg: Word, w: World) {
    && w.EngineOf(q) == RESTING
    && w.log == log0 + [Served(q, msg, arg, w.Cell(RspReg(q)), w.Cell(ArgReg(q)))]
  }

  /** The command (msg, arg) is the only one in flight since the log was `log0`, and until
      it completes the response register still holds `clear`. */
  ghost predicate InFlight(log0: seq<Served>, q: Queue, msg: Word, arg: Word, clear: Word, w: World) {
    && w.EngineOf(Other(q)) == RESTING
    && (|| (w.EngineOf(q) == Engine(Some(msg), None) && w.log == log0
            && w.Cell(RspReg(q)) == clear && w.Cell(ArgReg(q)) == arg)
        || (w.EngineOf(q) == Engine(None, Some(Request(msg, arg))) && w.log == log0
            && w.Cell(RspReg(q)) == clear)
        || Answered(log0, q, msg, arg, w))
  }

  /** Exactly one more entry, for this message. */
  ghost predicate OwnAnswer(log0: seq<Served>, q: Queue, msg: Word, arg: Word, log: seq<Served>) {
    && |log| == |log0| + 1
    && log == log0 + [log[|log0|]]
    && log[|log0|].queue == q && log[|log0|].msg == msg && log[|log0|].arg == arg
  }

  lemma {:induction false} IdleSteps(w: World, steps: seq<Step>)
    requires w.Idle()
    ensures var w' := RunSteps(w, steps);
      w'.Idle() && w'.log == w.log && forall a :: IsMailbox(a) ==> w'.Cell(a) == w.Cell(a)
    decreases |steps|
  {
    if steps != [] {
      IdleSteps(Apply(w, steps[0]), steps[1..]);
    }
  }

  lemma {:induction false} InFlightSteps(log0: seq<Served>, q: Queue, msg: Word, arg: Word, clear: Word,
                                         w: World, steps: seq<Step>)
    requires InFlight(log0, q, msg, arg, clear, w)
    ensures InFlight(log0, q, msg, arg, clear, RunSteps(w, steps))
    decreases |steps|
  {
    if steps != [] {
      InFlightSteps(log0, q, msg, arg, clear, Apply(w, steps[0]), steps[1..]);
    }
  }

  /** An idle world keeps its mailboxes across a read. */
  lemma IdleRead(s: Sys, env: Schedule, a: Word)
    requires s.world.Idle() && IsMailbox(a)
    ensures var (s', v) := AtomicRead(s, env, a);
      v == s.world.Cell(a) && s'.world.Idle() && s'.world.log == s.world.log
      && s'.tick == s.tick + 3 && forall b :: IsMailbox(b) ==> s'.world.Cell(b) == s.world.Cell(b)
  {
    var s1 := Elapse(s, env);
    var s2 := Elapse(s1, env);
    IdleSteps(s.world, BatchAt(env, s.tick));
    IdleSteps(s1.world, BatchAt(env, s1.tick));
    IdleSteps(s2.world, BatchAt(env, s2.tick));
  }

  /** ... and a write into a mailbox register other than a doorbell changes only that one. */
  lemma IdleWrite(s: Sys, env: Schedule, a: Word, v: Word)
    requires s.world.Idle() && IsMailbox(a) && a != CmdReg(Q0) && a != CmdReg(Q3)
    ensures var s' := AtomicWrite(s, env, a, v);
      s'.world.Idle() && s'.world.log == s.world.log && s'.tick == s.tick + 2
      && s'.world.Cell(a) == v
      && forall b :: IsMailbox(b) && b != a ==> s'.world.Cell(b) == s.world.Cell(b)
  {
    var s1 := Elapse(s, env);
    IdleSteps(s.world, BatchAt(env, s.tick));
    IdleSteps(s1.world, BatchAt(env, s1.tick));
  }

  lemma PostStarts(s: Sys, env: Schedule, q: Queue, msg: Word, arg: Word)
    requires s.world.Idle()
    ensures InFlight(s.world.log, q, msg, arg, s.world.Cell(RspReg(q)), Post(s, env, q, msg, arg).world)
    ensures Post(s, env, q, msg, arg).tick == s.tick + 4
  {
    IdleWrite(s, env, ArgReg(q), arg);
    var s1 := AtomicWrite(s, env, ArgReg(q), arg);
    var s2 := Elapse(s1, env);
    IdleSteps(s1.world, BatchAt(env, s1.tick));
    IdleSteps(s2.world, BatchAt(env, s2.tick));
  }

  lemma InFlightRead(log0: seq<Served>, q: Queue, msg: Word, arg: Word, clear: Word, s: Sys, env: Schedule, a: Word)
    requires InFlight(log0, q, msg, arg, clear, s.world)
    ensures InFlight(log0, q, msg, arg, clear, AtomicRead(s, env, a).0.world)
  {
    var s1 := Elapse(s, env);
    var s2 := Elapse(s1, env);
    InFlightSteps(log0, q, msg, arg, clear, s.world, BatchAt(env, s.tick));
    InFlightSteps(log0, q, msg, arg, clear, s1.world, BatchAt(env, s1.tick));
    InFlightSteps(log0, q, msg, arg, clear, s2.world, BatchAt(env, s2.tick));
  }

  lemma {:induction false} PollFresh(log0: seq<Served>, q: Queue, msg: Word, arg: Word, clear: Word,
                                     s: Sys, env: Schedule, tries: nat)
    requires InFlight(log0, q, msg, arg, clear, s.world) && CodeOf(clear) == TIMEOUT
    ensures var (s', code) := Poll(s, env, q, tries);
      InFlight(log0, q, msg, arg, clear, s'.world)
      && (code != TIMEOUT ==> Answered(log0, q, msg, arg, s'.world) && code == CodeOf(s'.world.Cell(RspReg(q))))
    decreases tries
  {
    if tries > 0 {
      var (s', status) := AtomicRead(s, env, RspReg(q));
      InFlightRead(log0, q, msg, arg, clear, s, env, RspReg(q));
      if CodeOf(status) == TIMEOUT {
        InFlightSteps(log0, q, msg, arg, clear, s'.world, BatchAt(env, s'.tick));
        PollFresh(log0, q, msg, arg, clear, Elapse(s', env), env, tries - 1);
      }
    }
  }

  /** Started with no command in flight, q0/q3 can only report the firmware's verdict on
      this very message, under every schedule; the argument register then holds the
      firmware's answer to it, and nothing is in flight again. */
  lemma QueryFresh(s: Sys, env: Schedule, q: Queue, msg: Word, arg: Word)
    requires s.world.Idle()
    ensures var (s', code) := Query(s, env, q, msg, arg);
      InFlight(s.world.log, q, msg, arg, 0, s'.world)
      && (code != TIMEOUT ==>
            s'.world.Idle() && OwnAnswer(s.world.log, q, msg, arg, s'.world.log)
            && code == CodeOf(s'.world.log[|s.world.log|].status)
            && s'.world.log[|s.world.log|].result == s'.world.Cell(ArgReg(q)))
  {
    IdleWrite(s, env, RspReg(q), 0);
    var s1 := AtomicWrite(s, env, RspReg(q), 0);
    PostStarts(s1, env, q, msg, arg);
    PollFresh(s.world.log, q, msg, arg, 0, Post(s1, env, q, msg, arg), env, 500);
  }

  lemma {:induction false} AwaitFresh(log0: seq<Served>, q: Queue, msg: Word, arg: Word, clear: Word,
                                      s: Sys, env: Schedule, tries: nat)
    requires InFlight(log0, q, msg, arg, clear, s.world) && clear != 1
    ensures var (s', ok) := Await(s, env, RspReg(q), 1, tries);
      InFlight(log0, q, msg, arg, clear, s'.world)
      && (ok ==> Answered(log0, q, msg, arg, s'.world) && s'.world.Cell(RspReg(q)) == 1)
    decreases tries
  {
    if tries > 0 {
      var (s', v) := AtomicRead(s, env, RspReg(q));
      InFlightRead(log0, q, msg, arg, clear, s, env, RspReg(q));
      if v != 1 {
        InFlightSteps(log0, q, msg, arg, clear, s'.world, BatchAt(env, s'.tick));
        AwaitFresh(log0, q, msg, arg, clear, Elapse(s', env), env, tries - 1);
      }
    }
  }

  /** What the conditional clear leaves in the response register. */
  function Leftover(w: World, q: Queue): Word {
    if w.Cell(RspReg(q)) == 1 then 0 else w.Cell(RspReg(q))
  }

  /** SmuQueryEx is equally fresh although it leaves any leftover but 1 in place: a value
      other than all-ones is the answer to this message, accepted with status 1. */
  lemma QueryExFresh(s: Sys, env: Schedule, q: Queue, msg: Word, arg: Word)
    requires s.world.Idle()
    ensures var (s', v) := QueryEx(s, env, q, msg, arg);
      InFlight(s.world.log, q, msg, arg, Leftover(s.world, q), s'.world)
      && (v != ALL_ONES ==>
            s'.world.Idle() && s'.world.log == s.world.log + [Served(q, msg, arg, 1, v)])
  {
    var s1 := ClearLeftover(s, env, q);
    IdleRead(s, env, RspReg(q));
    var (s0, old1) := AtomicRead(s, env, RspReg(q));
    IdleWrite(s0, env, RspReg(q), 0);
    var clear := s1.world.Cell(RspReg(q));
    PostStarts(s1, env, q, msg, arg);
    var s2 := Post(s1, env, q, msg, arg);
    AwaitFresh(s.world.log, q, msg, arg, clear, s2, env, 1000);
    var (s3, ok) := Await(s2, env, RspReg(q), 1, 1000);
    if ok {
      IdleRead(s3, env, ArgReg(q));
      InFlightRead(s.world.log, q, msg, arg, clear, s3, env, ArgReg(q));
    }
  }

  // ---- without freshness ---------------------------------------------------------

  /** Every query from `w`, on either queue and under every schedule, that reports success
      reports on its own message. */
  ghost predicate FreshFrom(w: World) {
    forall env: Schedule, q: Queue, msg: Word, arg: Word ::
      var (s', code) := Query(Sys(w, 0), env, q, msg, arg);
      code == 1 ==> OwnAnswer(w.log, q, msg, arg, s'.world.log)
  }

  /** The command an engine that is not at rest has yet to complete. */
  function Pending(e: Engine): Word
    requires e != RESTING
  {
    if e.serving.Some? then e.serving.value.msg else e.doorbell.value
  }

  /** How the firmware completes it, accepting. */
  function Completion(e: Engine, q: Queue): seq<Step> {
    if e.serving.Some? then [PutStatus(q, 1)] else [Latch(q), PutStatus(q, 1)]
  }

  lemma RunOne(w: World, s: Step)
    ensures RunSteps(w, [s]) == Apply(w, s)
  {
  }

  lemma RunTwo(w: World, s: Step, t: Step)
    ensures RunSteps(w, [s, t]) == Apply(Apply(w, s), t)
  {
    assert [s, t][1..] == [t];
    RunOne(Apply(w, s), t);
  }

  /** What completing the old command adds to the log: an argument register overwritten in the
      meantime counts only for a command that was picked up before. */
  function StaleEntry(w: World, q: Queue): Served
    requires w.EngineOf(q) != RESTING
  {
    var e := w.EngineOf(q);
    Served(q, Pending(e), if e.serving.Some? then e.serving.value.arg else w.Cell(ArgReg(q)), 1, w.Cell(ArgReg(q)))
  }

  lemma Completed(w: World, q: Queue)
    requires w.EngineOf(q) != RESTING
    ensures var w' := RunSteps(w, Completion(w.EngineOf(q), q));
      && w'.Cell(RspReg(q)) == 1
      && w'.log == w.log + [StaleEntry(w, q)]
      && w'.EngineOf(Other(q)) == w.EngineOf(Other(q))
  {
    if w.EngineOf(q).serving.Some? {
      RunOne(w, PutStatus(q, 1));
    } else {
      RunTwo(w, Latch(q), PutStatus(q, 1));
    }
  }

  /** The firmware completes its old command between the clear and the first poll, and is
      otherwise silent. */
  ghost predicate CompletesLate(s: Sys, env: Schedule, q: Queue) {
    && BatchAt(env, s.tick) == [] && BatchAt(env, s.tick + 1) == []
    && BatchAt(env, s.tick + 2) == Completion(s.world.EngineOf(q), q)
    && forall k :: s.tick + 3 <= k < s.tick + 9 ==> BatchAt(env, k) == []
  }

  /** A query sent while an older command is in flight: whatever is asked, the late completion
      of the old command is reported as its success. */
  lemma StaleAnswer(s: Sys, env: Schedule, q: Queue, msg: Word, arg: Word)
    requires s.world.EngineOf(q) != RESTING && CompletesLate(s, env, q)
    ensures var (s', code) := Query(s, env, q, msg, arg);
      code == 1 && s'.world.log == s.world.log + [StaleEntry(s.world, q)]
  {
    hide Poll;
    var w := HostStore(s.world, RspReg(q), 0);
    var s1 := AtomicWrite(s, env, RspReg(q), 0);
    assert s1 == Sys(w, s.tick + 2);
    Completed(w, q);
    var late := RunSteps(w, BatchAt(env, s.tick + 2));
    assert StaleEntry(w, q) == StaleEntry(s.world, q);
    var s2 := Post(s1, env, q, msg, arg);
    assert s2 == Sys(HostStore(HostStore(late, ArgReg(q), arg), CmdReg(q), msg), s.tick + 6);
    assert AtomicRead(s2, env, RspReg(q)) == (Sys(s2.world, s.tick + 9), 1);
    PollAnswered(s2, env, q, 500);
  }

  lemma PollAnswered(s: Sys, env: Schedule, q: Queue, tries: nat)
    requires tries > 0 && CodeOf(AtomicRead(s, env, RspReg(q)).1) != TIMEOUT
    ensures var (s', status) := AtomicRead(s, env, RspReg(q));
      Poll(s, env, q, tries) == (s', CodeOf(status))
  {
  }

  /** The schedule that completes the old command two ticks into the next query. */
  function LateCompletion(w: World, q: Queue): Schedule {
    [[], [], Completion(w.EngineOf(q), q)]
  }

  /** With a command in flight, every message can be answered by that command's completion. */
  lemma StaleRun(w: World, q: Queue, msg: Word, arg: Word)
    requires w.EngineOf(q) != RESTING
    ensures var (s', code) := Query(Sys(w, 0), LateCompletion(w, q), q, msg, arg);
      code == 1 && s'.world.log == w.log + [StaleEntry(w, q)]
    ensures !FreshFrom(w)
  {
    var s, env := Sys(w, 0), LateCompletion(w, q);
    StaleAnswer(s, env, q, msg, arg);
    var different: Word := if Pending(w.EngineOf(q)) == 0 then 1 else 0;
    StaleAnswer(s, env, q, different, 0);
    var (s', code) := Query(s, env, q, different, 0);
    assert code == 1 && s'.world.log[|w.log|].msg != different;
  }

  /** Freshness holds exactly when no command is in flight. */
  lemma FreshIffIdle(w: World)
    ensures FreshFrom(w) <==> w.Idle()
  {
    if w.Idle() {
      forall env: Schedule, q: Queue, msg: Word, arg: Word
        ensures var (s', code) := Query(Sys(w, 0), env, q, msg, arg);
          code == 1 ==> OwnAnswer(w.log, q, msg, arg, s'.world.log)
      {
        QueryFresh(Sys(w, 0), env, q, msg, arg);
      }
    } else {
      StaleRun(w, if w.q0 != RESTING then Q0 else Q3, 0, 0);
    }
  }

  function SilentFor(n: nat): (env: Schedule)
    ensures |env| == n && forall k :: 0 <= k < n ==> env[k] == []
  {
    seq(n, _ => [])
  }

  /** The same for SmuQueryEx: every result it returns is the accepted answer to its own message. */
  ghost predicate FreshExFrom(w: World) {
    forall env: Schedule, q: Queue, msg: Word, arg: Word ::
      var (s', v) := QueryEx(Sys(w, 0), env, q, msg, arg);
      v != ALL_ONES ==> s'.world.log == w.log + [Served(q, msg, arg, 1, v)]
  }

  /** The ticks SmuQueryEx spends on the response register before it posts. */
  function ClearTicks(w: World, q: Queue): nat {
    if w.Cell(RspReg(q)) == 1 then 5 else 3
  }

  /** The schedule that completes the old command just after that. */
  function LateCompletionEx(w: World, q: Queue): Schedule {
    SilentFor(ClearTicks(w, q)) + [Completion(w.EngineOf(q), q)]
  }

  lemma ClearedSilently(w: World, env: Schedule, q: Queue)
    requires forall k :: 0 <= k < ClearTicks(w, q) ==> BatchAt(env, k) == []
    ensures var s := ClearLeftover(Sys(w, 0), env, q);
      && s.tick == ClearTicks(w, q)
      && s.world == if w.Cell(RspReg(q)) == 1 then HostStore(w, RspReg(q), 0) else w
  {
    assert AtomicRead(Sys(w, 0), env, RspReg(q)) == (Sys(w, 3), w.Cell(RspReg(q)));
  }

  lemma AwaitAnswered(s: Sys, env: Schedule, reg: Word, tries: nat)
    requires tries > 0 && AtomicRead(s, env, reg).1 == 1
    ensures Await(s, env, reg, 1, tries) == (AtomicRead(s, env, reg).0, true)
  {
  }

  /** A command posted while an older one is completed: the poll sees its 1, and the argument
      register holds what the host has just written there. */
  lemma StaleExchange(s: Sys, env: Schedule, q: Queue, msg: Word, arg: Word)
    requires s.world.EngineOf(q) != RESTING && BatchAt(env, s.tick) == Completion(s.world.EngineOf(q), q)
    requires forall k :: s.tick < k ==> BatchAt(env, k) == []
    ensures var (s1, ok) := Await(Post(s, env, q, msg, arg), env, RspReg(q), 1, 1000);
      var (s2, v) := AtomicRead(s1, env, ArgReg(q));
      && ok && v == arg
      && s2.world.log == s.world.log + [StaleEntry(s.world, q)]
  {
    hide Await;
    Completed(s.world, q);
    var late := RunSteps(s.world, BatchAt(env, s.tick));
    var w := HostStore(HostStore(late, ArgReg(q), arg), CmdReg(q), msg);
    var s1 := Post(s, env, q, msg, arg);
    assert s1 == Sys(w, s.tick + 4);
    assert AtomicRead(s1, env, RspReg(q)) == (Sys(w, s.tick + 7), 1);
    AwaitAnswered(s1, env, RspReg(q), 1000);
    assert AtomicRead(Sys(w, s.tick + 7), env, ArgReg(q)) == (Sys(w, s.tick + 10), arg);
  }

  /** With a command in flight every message gets its own argument back as its answer, while
      the log shows the old command's completion only. */
  lemma StaleRunEx(w: World, q: Queue, msg: Word, arg: Word)
    requires w.EngineOf(q) != RESTING
    ensures var (s', v) := QueryEx(Sys(w, 0), LateCompletionEx(w, q), q, msg, arg);
      v == arg && s'.world.log == w.log + [StaleEntry(w, q)]
  {
    hide Await, Post, AtomicRead;
    var env := LateCompletionEx(w, q);
    ClearedSilently(w, env, q);
    var s := ClearLeftover(Sys(w, 0), env, q);
    assert s.world.EngineOf(q) == w.EngineOf(q) && StaleEntry(s.world, q) == StaleEntry(w, q);
    StaleExchange(s, env, q, msg, arg);
  }

  /** SmuQueryEx is fresh exactly when no command is in flight, too. */
  lemma FreshExIffIdle(w: World)
    ensures FreshExFrom(w) <==> w.Idle()
  {
    hide QueryEx;
    if w.Idle() {
      forall env: Schedule, q: Queue, msg: Word, arg: Word
        ensures var (s', v) := QueryEx(Sys(w, 0), env, q, msg, arg);
          v != ALL_ONES ==> s'.world.log == w.log + [Served(q, msg, arg, 1, v)]
      {
        QueryExFresh(Sys(w, 0), env, q, msg, arg);
      }
    } else {
      var q := if w.q0 != RESTING then Q0 else Q3;
      var different: Word := if Pending(w.EngineOf(q)) == 0 then 1 else 0;
      StaleRunEx(w, q, different, 0);
      var (s', v) := QueryEx(Sys(w, 0), LateCompletionEx(w, q), q, different, 0);
      assert v != ALL_ONES && s'.world.log[|w.log|].msg != different;
    }
  }

  // ---- timeouts ------------------------------------------------------------------

  /** The firmware does nothing from tick `t` to just before tick `u`. */
  ghost predicate Silent(env: Schedule, t: nat, u: nat) {
    forall k :: t <= k < u ==> BatchAt(env, k) == []
  }

  lemma SilentRead(s: Sys, env: Schedule, a: Word)
    requires Silent(env, s.tick, s.tick + 3)
    ensures AtomicRead(s, env, a) == (Sys(s.world, s.tick + 3), s.world.Cell(a))
  {
  }

  lemma SilentTick(s: Sys, env: Schedule)
    requires BatchAt(env, s.tick) == []
    ensures Elapse(s, env) == Sys(s.world, s.tick + 1)
  {
  }

  lemma {:induction false} PollTimesOut(s: Sys, env: Schedule, q: Queue, tries: nat)
    requires CodeOf(s.world.Cell(RspReg(q))) == TIMEOUT && Silent(env, s.tick, s.tick + 4 * tries)
    ensures Poll(s, env, q, tries) == (Sys(s.world, s.tick + 4 * tries), TIMEOUT)
    decreases tries
  {
    hide AtomicRead, Elapse;
    if tries > 0 {
      SilentRead(s, env, RspReg(q));
      SilentTick(Sys(s.world, s.tick + 3), env);
      PollTimesOut(Sys(s.world, s.tick + 4), env, q, tries - 1);
    }
  }

  /** What a query leaves behind while the firmware is silent. */
  function Unserved(w: World, q: Queue, msg: Word, arg: Word): World {
    HostStore(HostStore(HostStore(w, RspReg(q), 0), ArgReg(q), arg), CmdReg(q), msg)
  }

  lemma QueryTimesOut(s: Sys, env: Schedule, q: Queue, msg: Word, arg: Word)
    requires Silent(env, s.tick, s.tick + 2006)
    ensures Query(s, env, q, msg, arg) == (Sys(Unserved(s.world, q, msg, arg), s.tick + 2006), TIMEOUT)
  {
    hide Poll, Unserved, Post, AtomicWrite;
    UnservedPosted(s, env, q, msg, arg);
    PollTimesOut(Sys(Unserved(s.world, q, msg, arg), s.tick + 6), env, q, 500);
  }

  /** Any query, from any world, can time out, and then leaves its command in flight and
      freshness lost. */
  lemma TimeoutLosesFreshness(w: World, q: Queue, msg: Word, arg: Word)
    ensures var (s', code) := Query(Sys(w, 0), [], q, msg, arg);
      code == TIMEOUT && !s'.world.Idle() && !FreshFrom(s'.world)
  {
    hide Query;
    QueryTimesOut(Sys(w, 0), [], q, msg, arg);
    FreshIffIdle(Unserved(w, q, msg, arg));
  }

  /** The whole story, for any two messages sent one after the other: the first times out, and
      its completion is then reported as the success of the second. */
  lemma TimeoutThenStale(w: World, q: Queue, msg: Word, arg: Word, next: Word, nextArg: Word)
    requires w.Idle()
    ensures var env := SilentFor(2008) + [[Latch(q), PutStatus(q, 1)]];
      var (s1, code1) := Query(Sys(w, 0), env, q, msg, arg);
      var (s2, code2) := Query(s1, env, q, next, nextArg);
      && code1 == TIMEOUT && code2 == 1
      && s2.world.log == w.log + [Served(q, msg, arg, 1, arg)]
  {
    hide Query, Unserved;
    var env := SilentFor(2008) + [[Latch(q), PutStatus(q, 1)]];
    QueryTimesOut(Sys(w, 0), env, q, msg, arg);
    UnservedPends(w, q, msg, arg);
    StaleAnswer(Sys(Unserved(w, q, msg, arg), 2006), env, q, next, nextArg);
  }

  /** A query can also give up on a command that is completed after its last poll: nothing is
      then in flight, and the command has taken effect although the caller was told otherwise. */
  lemma AnsweredTooLate(w: World, q: Queue, msg: Word, arg: Word)
    requires w.Idle()
    ensures var env := SilentFor(2005) + [[Latch(q), PutStatus(q, 1)]];
      var (s', code) := Query(Sys(w, 0), env, q, msg, arg);
      code == TIMEOUT && s'.world.Idle() && s'.world.log == w.log + [Served(q, msg, arg, 1, arg)]
  {
    hide Poll, Unserved;
    var env := SilentFor(2005) + [[Latch(q), PutStatus(q, 1)]];
    UnservedPosted(Sys(w, 0), env, q, msg, arg);
    UnservedPends(w, q, msg, arg);
    var u := Unserved(w, q, msg, arg);
    PollMissesLast(Sys(u, 6), env, q, 500);
    Completed(u, q);
    RestsAfter(u, q, msg);
  }

  lemma UnservedPosted(s: Sys, env: Schedule, q: Queue, msg: Word, arg: Word)
    requires Silent(env, s.tick, s.tick + 6)
    ensures Post(AtomicWrite(s, env, RspReg(q), 0), env, q, msg, arg) == Sys(Unserved(s.world, q, msg, arg), s.tick + 6)
    ensures CodeOf(Unserved(s.world, q, msg, arg).Cell(RspReg(q))) == TIMEOUT
  {
    var s1 := AtomicWrite(s, env, RspReg(q), 0);
    assert s1 == Sys(HostStore(s.world, RspReg(q), 0), s.tick + 2);
  }

  lemma RestsAfter(w: World, q: Queue, msg: Word)
    requires w.EngineOf(q) == Engine(Some(msg), None) && w.EngineOf(Other(q)) == RESTING
    ensures RunSteps(w, [Latch(q), PutStatus(q, 1)]).Idle()
  {
    RunTwo(w, Latch(q), PutStatus(q, 1));
  }

  /** Silence up to the last tick of the polling loop. */
  lemma {:induction false} PollMissesLast(s: Sys, env: Schedule, q: Queue, tries: nat)
    requires tries > 0 && CodeOf(s.world.Cell(RspReg(q))) == TIMEOUT
    requires Silent(env, s.tick, s.tick + 4 * tries - 1)
    ensures Poll(s, env, q, tries)
         == (Sys(RunSteps(s.world, BatchAt(env, s.tick + 4 * tries - 1)), s.tick + 4 * tries), TIMEOUT)
    decreases tries
  {
    hide AtomicRead, Elapse, RunSteps;
    SilentRead(s, env, RspReg(q));
    if tries > 1 {
      SilentTick(Sys(s.world, s.tick + 3), env);
      PollMissesLast(Sys(s.world, s.tick + 4), env, q, tries - 1);
    } else {
      PollsOut(Elapse(Sys(s.world, s.tick + 3), env), env, q);
      LastTick(Sys(s.world, s.tick + 3), env);
    }
  }

  lemma LastTick(s: Sys, env: Schedule)
    ensures Elapse(s, env) == Sys(RunSteps(s.world, BatchAt(env, s.tick)), s.tick + 1)
  {
  }

  lemma PollsOut(s: Sys, env: Schedule, q: Queue)
    ensures Poll(s, env, q, 0) == (s, TIMEOUT)
  {
  }

  lemma UnservedPends(w: World, q: Queue, msg: Word, arg: Word)
    requires w.Idle()
    ensures var w' := Unserved(w, q, msg, arg);
      && w'.EngineOf(q) == Engine(Some(msg), None) && w'.EngineOf(Other(q)) == RESTING
      && w'.log == w.log && w'.Cell(ArgReg(q)) == arg
  {
  }
}
