/** The tools' register and mailbox routines, over one mapped BAR5.  The class is the state
    the routines change; each method is tied to the value-level function of `Smu`. */
module SmnBus {
  import opened Common
  import opened Smu

  datatype Sent = Sent(queue: Queue, msg: Word, arg: Word)

  class SmnBus {
    const env: Schedule
    var index: Word
    var world: World
    var tick: nat

    /** Messages the host has posted, in order. */
    ghost var sent: seq<Sent>
    /** Some query ended with its command still in flight, so that what later queries see may
        be the completion of an older one. */
    ghost var lost: bool
    /** The firmware's log up to that query. */
    ghost var known: seq<Served>
    /** Some q0 or q3 call returned TIMEOUT.  The command may have been completed all the same,
        after the last poll or with a status outside the protocol. */
    ghost var gaveUp: bool

    constructor (env: Schedule, world: World)
      ensures this.env == env && this.world == world && tick == 0
      ensures sent == [] && (lost <==> !world.Idle()) && known == world.log && !gaveUp && Tracked()
    {
      this.env := env;
      this.world := world;
      this.index := 0;
      this.tick := 0;
      this.sent := [];
      this.lost := !world.Idle();
      this.known := world.log;
      this.gaveUp := false;
    }

    ghost predicate Tracked()
      reads this
    {
      !lost ==> world.Idle() && known == world.log
    }

    /** Every routine keeps the bookkeeping, only ever extends the known log, loses track only
        by a call that gave up, and knows of nothing more from then on. */
    twostate predicate Progressed()
      reads this
    {
      && Tracked()
      && (old(lost) ==> lost)
      && (old(gaveUp) ==> gaveUp)
      && (lost ==> old(lost) || gaveUp)
      && old(known) <= known
      && (old(lost) ==> known == old(known))
    }

    ghost function State(): Sys
      reads this
    {
      Sys(world, tick)
    }

    ghost function Pins(): Bus
      reads this
    {
      Bus(index, State())
    }

    method Elapsed()
      modifies this`world, this`tick
      ensures State() == Elapse(old(State()), env)
    {
      world := RunSteps(world, BatchAt(env, tick));
      tick := tick + 1;
    }

    method W32(off: Word, v: Word)
      modifies this`index, this`world, this`tick
      ensures Pins() == BusWrite(old(Pins()), env, off, v)
    {
      Elapsed();
      if off == INDEX {
        index := v;
      } else if off == DATA {
        world := HostStore(world, index, v);
      }
    }

    method R32(off: Word) returns (v: Word)
      modifies this`world, this`tick
      ensures (Pins(), v) == BusRead(old(Pins()), env, off)
    {
      Elapsed();
      v := if off == INDEX then index else if off == DATA then world.Cell(index) else ALL_ONES;
    }

    method SmnW(a: Word, v: Word)
      modifies this`index, this`world, this`tick
      ensures State() == AtomicWrite(old(State()), env, a, v)
    {
      W32(INDEX, a);
      W32(DATA, v);
    }

    method SmnR(a: Word) returns (v: Word)
      modifies this`index, this`world, this`tick
      ensures (State(), v) == AtomicRead(old(State()), env, a)
    {
      W32(INDEX, a);
      var echo := R32(INDEX);
      v := R32(DATA);
    }

    /** Sleep(ms): one tick in which the firmware may do anything. */
    method Sleep()
      requires Tracked()
      modifies this`world, this`tick
      ensures Tracked() && tick == old(tick) + 1
    {
      if !lost {
        IdleSteps(world, BatchAt(env, tick));
      }
      Elapsed();
    }

    /** The polling loop of q0 and q3. */
    method PollVerdict(q: Queue) returns (code: int)
      modifies this`index, this`world, this`tick
      ensures (State(), code) == Poll(old(State()), env, q, 500)
    {
      hide AtomicRead, Elapse;
      var i := 0;
      while i < 500
        invariant 0 <= i <= 500
        invariant Poll(State(), env, q, 500 - i) == Poll(old(State()), env, q, 500)
      {
        var st := SmnR(RspReg(q));
        if st == 1 { return 1; }
        if st == 0xFF { return -1; }
        if st == 0xFE { return -2; }
        if st == 0xFD { return -3; }
        if st == 0xFC { return -4; }
        Elapsed();
        i := i + 1;
      }
      return -100;
    }

    /** q0 and q3, access by access. */
    method Exchange(q: Queue, msg: Word, arg: Word) returns (code: int)
      modifies this`index, this`world, this`tick
      ensures (State(), code) == Query(old(State()), env, q, msg, arg)
    {
      SmnW(RspReg(q), 0);
      SmnW(ArgReg(q), arg);
      SmnW(CmdReg(q), msg);
      code := PollVerdict(q);
    }

    /** q0 and q3 as their callers see them. */
    method Send(q: Queue, msg: Word, arg: Word) returns (code: int)
      requires Tracked()
      modifies this
      ensures sent == old(sent) + [Sent(q, msg, arg)]
      ensures gaveUp <==> old(gaveUp) || code == TIMEOUT
      ensures old(lost) ==> lost
      ensures lost ==> known == old(known) && (old(lost) || code == TIMEOUT)
      ensures Tracked()
      ensures !lost ==> OwnAnswer(old(known), q, msg, arg, known)
                        && known[|old(known)|].result == world.Cell(ArgReg(q))
                        && (code != TIMEOUT ==> code == CodeOf(known[|old(known)|].status))
      ensures old(tick) + 6 <= tick <= old(tick) + 2006
    {
      hide Query, RunSteps;
      QueryTicks(State(), env, q, msg, arg);
      if !lost {
        QueryFresh(State(), env, q, msg, arg);
      }
      code := Exchange(q, msg, arg);
      sent := sent + [Sent(q, msg, arg)];
      gaveUp := gaveUp || code == TIMEOUT;
      lost := lost || !world.Idle();
      known := if lost then known else world.log;
    }

    /** q0_arg and q3_arg. */
    method Arg(q: Queue) returns (v: Word)
      requires Tracked()
      modifies this`index, this`world, this`tick
      ensures Tracked() && tick == old(tick) + 3
      ensures !lost ==> v == old(world).Cell(ArgReg(q))
    {
      if !lost {
        IdleRead(State(), env, ArgReg(q));
      }
      v := SmnR(ArgReg(q));
    }

    method WaitRsp(reg: Word, wanted: Word, ms: nat) returns (ok: bool)
      modifies this`index, this`world, this`tick
      ensures (State(), ok) == Await(old(State()), env, reg, wanted, ms)
    {
      hide AtomicRead, Elapse;
      var i := 0;
      while i < ms
        invariant 0 <= i <= ms
        invariant Await(State(), env, reg, wanted, ms - i) == Await(old(State()), env, reg, wanted, ms)
      {
        var v := SmnR(reg);
        if v == wanted { return true; }
        Elapsed();
        i := i + 1;
      }
      return false;
    }

    /** SmuQueryEx, access by access. */
    method ExchangeEx(q: Queue, msg: Word, param: Word) returns (v: Word)
      modifies this`index, this`world, this`tick
      ensures (State(), v) == QueryEx(old(State()), env, q, msg, param)
    {
      var st := SmnR(RspReg(q));
      if st == 1 {
        SmnW(RspReg(q), 0);
      }
      SmnW(ArgReg(q), param);
      SmnW(CmdReg(q), msg);
      var ok := WaitRsp(RspReg(q), 1, 1000);
      if !ok { return ALL_ONES; }
      v := SmnR(ArgReg(q));
    }

    /** SmuQueryEx as its callers see it, to whom a verdict other than 1 looks like a timeout. */
    method SmuQueryEx(q: Queue, msg: Word, param: Word) returns (v: Word)
      requires Tracked()
      modifies this
      ensures sent == old(sent) + [Sent(q, msg, param)]
      ensures old(lost) ==> lost
      ensures lost ==> known == old(known) && (old(lost) || v == ALL_ONES)
      ensures Tracked()
      ensures !lost ==> OwnAnswer(old(known), q, msg, param, known)
      ensures !lost && v != ALL_ONES ==> known[|old(known)|].status == 1 && known[|old(known)|].result == v
    {
      if !lost {
        QueryExFresh(State(), env, q, msg, param);
      }
      v := ExchangeEx(q, msg, param);
      sent := sent + [Sent(q, msg, param)];
      lost := lost || !world.Idle();
      known := if lost then known else world.log;
    }
  }
}
