# BC-250 driver tools: verified model

This project models the logic of the BC-250 (Cyan Skillfish) Windows driver package that has
state, arithmetic or a protocol in it, and proves what that logic guarantees. Dafny 4.11 checks
it with `dafny verify dfyconfig.toml`.

| files | what they model |
|---|---|
| `Smu`, `SmnBus`, `Answers` | the SMU mailboxes behind the SMN index/data window, with the firmware as a second agent |
| `Regulator`, `Governor`, `Sequences`, `Bc250Ctl` | the GPU governor service, the two one-shot sequences and the control suite's freq/unforce commands |
| `SafePoints`, `Vid` | the safe-point tables and the voltage identifiers |
| `Golden`, `Masks` | golden register programming and masked words |
| `Pm4`, `PhysMem`, `Executor`, `Driver`, `Opcodes`, `Descriptor`, `DmaTests` | PM4 packets, the driver's software executor, SEND_PM4, the command descriptor and the two DMA tools |
| `RegScan`, `Counters`, `Vitals` | the write-probe scan, the frame-counter meters and the bounded feature string |

## How the code is modelled

**Firmware.** Between two register accesses of the host the SMU runs an arbitrary batch of
steps: pick up a command, write its result, write its status, or change any other SMN cell. A
schedule lists the batches, and every statement quantifies over all schedules, so it covers
every interleaving. The firmware writes its result before its status. `Smu` gives the routines
as functions on values; class `SmnBus` runs the same routines access by access and each of its
methods is proved equal to the function. Its ghost field `lost` says that some query ended with
its command still in flight, and `known` is the firmware's log up to that query. What the tools
do to the GPU is stated about `known`, so it covers every run up to the first such query, and
the whole run when there is none. A call that times out although the firmware finishes (`gaveUp`)
does not end it. `TimeoutLosesFreshness` and `TimeoutThenStale` exhibit the timeout and the late
completion that the next query takes for its own. `FreshIffIdle` shows that queries are fresh
exactly while no command is in flight: once the firmware has caught up they are fresh again, but
the tool has by then acted on a verdict that was not its own, so `lost` stays set.

**GPU.** The log of completed messages determines the forced clock, voltage and profile
(`Regulator.After`), and safety is a statement about every instant of that log. Which messages
are accepted is left open: every pattern of verdicts is covered.

**Executor.** `Executor.Exec` is a total function over any command stream, memory and nesting
depth; class `Driver.SwExecutor` updates memory and registers in place with the source's loops
and is proved equal to it. An indirect buffer is read live, so a copy executed earlier in the
same run can change the commands still to come. Register writes form a trace.

**Arithmetic.** Machine words wrap where the C wraps. Voltages are exact rationals: the value
that is truncated to a VID stays at least 1/50 away from every integer (`NoRoundingTie`), far
more than double precision can be off.

## Where the code differs from its documentation

- A DMA length of 2^21 is documented as refused by the 1 MiB cap; the 21-bit mask is applied
  first and turns it into the legal length 0. Both have no effect (`RefusedIsNoOp`).
- The packet format has 14-bit counts; the executor reads 11 bits of a type 0 and 12 bits of a
  type 3 count. `ExecutorRoundTripIff` gives the exact streams it reads back.
- "Truncated packet skipped" (case 5 of dma-data-test): the declared words are skipped
  (`ShortDmaSkipped`), but the remaining words of the request are decoded as packets.
  `ShortRequestIsNoOpIff` gives the exact condition on them for the request to be the expected
  no-op, `CaseFiveByDestination` what it means for the destination. With no ring (destination 0)
  register 0 is written (`TruncatedTailIsDecoded`).
- The executor range-checks every register write except those of a dispatch
  (`AlwaysInsideIff`).
- The governor only warns when "unforce freq" is refused. If "unforce vid" is then accepted, a
  clock stays forced without its voltage (`RefusedUnforceBreaksSafety`). If the service was
  started over a clock forced to another point, accepting the new, lower voltage is enough
  (`OtherPointStarves`). `RoundCoveredIff` gives the exact condition from any state.
- The one-shot tools skip the restore when the last "force freq" was refused or timed out. A
  clock accepted after its last poll (`AnsweredTooLate`) then stays forced; `RunLeaves` says
  exactly when.
- The control suite's table gives 750 mV up to 800 MHz, where the service's table asks for 800
  mV above 500 MHz (`SuiteCoversServiceIff`). It also ignores every reply, so a refused voltage
  can leave the new clock with none or with an old, lower one (`UnbackedIff`, `CoveredIff`,
  `StaleVoltage`).
- Running the golden tool twice is not idempotent when a register is programmed to all-ones,
  as SQ_LDS_CLK_CTRL is (`RerunIff`, `SqLdsRetargetsIff`).
- The scan's DEAD label is never given to a register that reads all-ones to begin with
  (`AllOnesIsNeverDead`).
- The 32-bit frame meter reports a live counter as static when it comes back to its first
  reading (`VerdictsDifferIff`).

## Model

| member | source | states |
|---|---|---|
| `Smu.WindowRefinesAtomic` | test-tools/governor-service.c:44-45 | every adaptive host program, under every schedule, sees the same values and leaves the same SMN cells through the three-access window as on a machine with atomic SMN accesses |
| `Smu.QueryFresh` | test-tools/governor-service.c:49-82 | started with no command in flight, a verdict of q0/q3 is the firmware's verdict on this very message, the argument register holds its answer, and nothing is in flight again |
| `Smu.QueryExFresh` | test-tools/bc250ctl.c:65-72 | SmuQueryEx is as fresh although it clears only a leftover 1: any result but all-ones is the accepted answer to this message |
| `Smu.FreshIffIdle` | test-tools/governor-service.c:49-65 | freshness of every query under every schedule holds exactly when no command is in flight |
| `Smu.FreshExIffIdle` | test-tools/bc250ctl.c:65-72 | SmuQueryEx, too: every result it returns is its own message's accepted answer exactly when no command is in flight |
| `Smu.StaleRunEx` | test-tools/bc250ctl.c:65-72 | with a command in flight there is a run in which any message gets its own argument back as its answer while only the old command was completed |
| `Smu.StaleRun` | test-tools/governor-service.c:49-65 | from any world with a command in flight there is a run in which any query at all returns 1 and the only new log entry is the old command's; so freshness is lost |
| `Smu.StaleAnswer` | test-tools/governor-service.c:49-65 | the same at any moment of a run: a completion between the clear and the first poll is reported as the success of whatever was asked |
| `Smu.TimeoutLosesFreshness` | test-tools/governor-service.c:54-63 | from any world, any query can time out, and then its command is still in flight and freshness is lost |
| `Smu.TimeoutThenStale` | test-tools/governor-service.c:49-65 | for any two messages sent one after the other from rest there is a run in which the first times out and the second returns 1 for the first one's completion |
| `Smu.AnsweredTooLate` | test-tools/governor-service.c:54-63 | from rest, any query can also time out although its command is accepted after the last poll, with nothing left in flight |
| `Smu.PollFresh` | test-tools/governor-service.c:54-63 | at every poll the command stays the only one in flight, and a verdict read is its own |
| `Smu.QueryTicks` | test-tools/governor-service.c:49-64 | a query takes between 6 and 2006 bus accesses and sleeps, answered or not |
| `Answers.QueryAnswered` | test-tools/governor-service.c:49-82 | liveness: for every poll k < 500, an answer 1, 0xFF, 0xFE, 0xFD or 0xFC given just before it is returned by that very poll as 1, -1, -2, -3 or -4, with its result in the argument register and nothing in flight |
| `Answers.UnknownStatus` | test-tools/governor-service.c:54-63 | any other status is never taken for an answer: after 500 polls the code is -100 although the command is done |
| `Answers.QueryExAnswered` | test-tools/bc250ctl.c:60-72 | liveness of SmuQueryEx: for every poll k < 1000, an acceptance just before it ends the wait at once and its result is returned |
| `Answers.QueryExRefused` | test-tools/bc250ctl.c:60-72 | a refusal with whatever status costs all 1000 polls and returns all-ones, the command done |
| `Answers.QueryExSilent` | test-tools/bc250ctl.c:60-72 | a silent firmware costs exactly 1000 polls and leaves the command in flight |
| `Answers.CellsWritten` | test-tools/governor-service.c:47-69 | which SMN cells a query of either queue writes, by address, and whose command it becomes |
| `Answers.WindowByOffset` | test-tools/governor-service.c:44-45 | the window by BAR5 offset: 0x38 picks the cell, 0x3C writes or reads it at that instant |
| `SmnBus.SmnBus.SmnW` | test-tools/governor-service.c:44 | the two writes change exactly one SMN cell, at the instant of the data write |
| `SmnBus.SmnBus.SmnR` | test-tools/governor-service.c:45 | the value is that of the cell at the instant of the data read |
| `SmnBus.SmnBus.Exchange` | test-tools/governor-service.c:49-64 | clear, argument, command and the polling loop compute the query function |
| `SmnBus.SmnBus.Send` | test-tools/governor-service.c:49-82 | unless a query ended with its command in flight, exactly one log entry is added, for this message; the argument register holds its result and a code other than the timeout is its verdict |
| `SmnBus.SmnBus.WaitRsp` | test-tools/bc250ctl.c:60-63 | the polling loop for one value |
| `SmnBus.SmnBus.SmuQueryEx` | test-tools/bc250ctl.c:65-72 | the conditional clear, the exchange and its freshness as its callers see them |
| `Regulator.SafeIsCovered` | test-tools/governor-service.c:84-94 | a clock forced with the VID and profile of a safe point has a rail voltage of at least what the table asks for that clock |
| `Regulator.RoundGuarded` | test-tools/governor-service.c:112-138 | a change_freq round over a clock that is unforced or at the round's own point, whole or broken off anywhere: every instant is unforced or exactly at a safe point unless "unforce freq" is refused on a forced clock and "unforce vid" accepted, and then it is not |
| `Regulator.RoundLength` | test-tools/governor-service.c:121-137 | a whole round has four, five or six entries, as the verdicts on profile and voltage decide |
| `Regulator.CoveredIffNoneBad` | test-tools/governor-service.c:112-144 | for any log whatever, from a covered state: a forced clock has enough voltage at every instant exactly when no accepted message takes the voltage away, sets one too low, or forces a clock ahead of it |
| `Regulator.RoundCoveredIff` | test-tools/governor-service.c:112-138 | one round onto any point, whole or broken off, from any covered state: a forced clock has enough voltage at every instant exactly unless 0x3A is refused on it and then 0x3C, or 0x3B for a point whose voltage is too low for it, is accepted |
| `Regulator.OtherPointStarves` | test-tools/governor-service.c:112-131 | an instance: 2000 MHz held, a round for 500 MHz with both unforces refused runs 2000 MHz at 700 mV, though no voltage was let go |
| `Regulator.EnoughIff` | test-tools/governor-service.c:84-94 | whether the VID of a table point is enough for a clock is decided by the table's nominal voltages |
| `Regulator.RoundSafe` | test-tools/governor-service.c:112-138 | with "unforce freq" not refused, a round onto any safe point, whole or broken off, is safe at every instant from any safe state, whatever else is refused |
| `Regulator.UnforceGuarded` | test-tools/governor-service.c:140-144 | the unforce order keeps safety, whole or broken off, and releases clock and voltage when both are accepted |
| `Regulator.RunSafe` | test-tools/governor-service.c:112-153 | any number of rounds, unforces and queries, whole or broken off, in any order and with any refusals other than of 0x3A, is safe at every instant |
| `Regulator.RunCoveredIff` | test-tools/governor-service.c:112-153 | any number of rounds onto any points, unforces and queries, whole or broken off, with any refusals, from any covered state: a forced clock has enough voltage at every instant exactly when it never loses its voltage nor gets too little |
| `Regulator.RefusedUnforceBreaksSafety` | test-tools/governor-service.c:117-120 | a run with 0x3A refused and 0x3C accepted leaves 2000 MHz forced without a voltage |
| `Governor.GovernorChangeFreq` | test-tools/governor-service.c:112-138 | what is sent (all six messages whenever it returns 0), what the firmware logs (part of a round in any case, a whole one with the stated early exits when nothing timed out) and what the return code says about it |
| `Governor.ForceRound` | test-tools/governor-service.c:126-137 | its second half, from the voltage on, carries the same statement to the end |
| `Governor.SendNext` | test-tools/governor-service.c:112-138 | sending the next message of a script extends the known log by at most its entry |
| `Governor.GovernorUnforce` | test-tools/governor-service.c:140-144 | sends 0x3A then 0x3C and nothing else |
| `Governor.PrintStatus` | test-tools/governor-service.c:146-153 | three queries that change neither clock nor voltage nor profile; the three values are their results |
| `Governor.Pass` | test-tools/governor-service.c:233-249 | one pass sends a round, broken off only after a refusal, or all of it and the query; when nothing timed out it logs a whole round, and the query exactly when that went through; it keeps the full wait unless stopped, and ends within a bound of the stop request |
| `Governor.PassInOrder` | test-tools/governor-service.c:233-240 | what a pass sends is exactly a prefix of at least four of seven listed messages |
| `Governor.Hold` | test-tools/governor-service.c:228-249 | the loop runs until the stop request and at least once when that is still to come; its trace is that many passes, its log that many whole passes when nothing timed out; no turn is later than one pass and one full wait, and every full wait is kept |
| `Governor.RoundApplies` | test-tools/governor-service.c:121-137 | a round that went through leaves clock, voltage and profile of its point forced, from any state |
| `Governor.ServiceStarts` | test-tools/governor-service.c:207-237 | the first entries of a service, message by message: voltage and clock are asked for while nothing from the profile on is refused |
| `Governor.ServiceHolds` | test-tools/governor-service.c:207-253 | over an SMU that refuses nothing every turn takes seven messages and brings the GPU to the point, whatever state it was in |
| `Governor.ServiceApplies` | test-tools/governor-service.c:207-237 | the trace of a service with a turn starts with the test message and the first four messages of the round |
| `Governor.RunService` | test-tools/governor-service.c:164-256 | for every request, schedule, moment of Ctrl-C and starting state of the GPU: an out-of-range request is refused and sends nothing; exit code 0 only on an alive answer of 124, and on every such answer while nothing times out; a dead SMU gets only the test message; a served run has at least one turn when the stop request comes later than the test, its trace is the test message, the passes, 0x3A, 0x3C and three queries, its log is the whole passes when nothing timed out, its turns keep the interval, and it exits in bounded time. As far as the log is known: from a covered state a forced clock has enough voltage at every instant exactly when it never loses its voltage nor gets too little, for which accepting every 0x3A is enough; from a clock unforced or already at the requested point every instant is unforced or exactly at that point, exactly when no forced clock loses its voltage. If no query ended with its command in flight, nothing stays forced when the last two unforces are accepted |
| `Governor.ExitGuarded` | test-tools/governor-service.c:251-253 | the exit path keeps a guarded run guarded, whole or broken off |
| `Governor.ExitEnds` | test-tools/governor-service.c:251-253 | the exit path keeps a guarded run guarded, and releases clock and voltage when its unforces are accepted |
| `Sequences.ShippedTargetsCover` | test-tools/governor-sequence.c:80-95 | the voltage of both one-shot tools is enough, by the service's table, for the target and the fallback clock |
| `Sequences.Probe` | test-tools/governor-sequence.c:60-71 | the run goes on exactly when the test message was answered with 124 on Q3, or accepted when sent again on Q0 (while nothing timed out); what is sent in either case |
| `Sequences.Force` | test-tools/governor-sequence.c:73-97 | init and change_freq with the fallback: the logged messages, part of them in any case and exactly those of each exit when nothing timed out |
| `Sequences.RunPartCovered` | test-tools/governor-sequence.c:60-121 | a run broken off anywhere, with any refusals and from any covered state: a forced clock has enough voltage at every instant exactly when it never loses its voltage nor gets too little; accepting every 0x3A is enough |
| `Sequences.RunLeaves` | test-tools/governor-sequence.c:60-121 | what an ended run leaves forced, from any state, with any refusals and even when calls gave up: after a restore the restore's own 0x3A decides; without one, nothing is forced exactly when no 0x39 was accepted and an old clock, if any, was let go |
| `Sequences.RunCovered` | test-tools/governor-sequence.c:60-121 | in particular, when nothing timed out and every 0x3A is accepted, on every exit path a forced clock has enough voltage at every instant and none remains forced |
| `Sequences.RunSequence` | test-tools/governor-sequence-oc2000.c:63-124 | both tools: the whole message trace; when nothing timed out the run goes as the firmware's own verdicts say and the exit code tells it. As far as the log is known: the equivalence of RunPartCovered for every run; if no query ended with its command in flight the run came to its end, with the restore exactly when the exit code is 0, and a clock stays forced exactly as RunLeaves says |
| `Sequences.EndsWhere` | test-tools/governor-sequence.c:60-121 | by the verdicts entry by entry: a dead SMU gets two messages; else the run stops at a refused profile, a refused voltage or two refused clocks, and otherwise restores |
| `Sequences.SuccessfulTrace` | test-tools/governor-sequence.c:60-118 | every message of a run with exit code 0, in order; only the second test message and the fallback clock are optional |
| `Sequences.Restore` | test-tools/governor-sequence.c:99-118 | the report, 0x3A, 0x3C and a last query, and their entries |
| `Bc250Ctl.CmdFreq` | test-tools/bc250ctl.c:184-204 | refuses non-positive requests without sending anything, otherwise sends exactly seven listed messages for the selected point and clock; the clock shown is the last one's accepted answer unless all-ones |
| `Bc250Ctl.QueryNext` | test-tools/bc250ctl.c:194-201 | sending the next message of a script extends the known log by at most its entry |
| `Bc250Ctl.CmdUnforce` | test-tools/bc250ctl.c:237-243 | sends 0x3A, 0x3C and 0x37 and logs their entries; the clock shown is the last one's accepted answer unless all-ones |
| `Bc250Ctl.UnforceLeaves` | test-tools/bc250ctl.c:237-243 | the state it leaves, and exactly when a covered clock keeps enough voltage |
| `Bc250Ctl.SelectionLaws` | test-tools/bc250ctl.c:176-190 | the clock forced is min(mhz, 2000), at or below the selected point, with at least the voltage the suite's own table gives that clock, and voltage is monotone in the request |
| `Bc250Ctl.SuiteCoversServiceIff` | test-tools/bc250ctl.c:176-191 | the suite's voltage meets the service's table exactly outside 500 < mhz <= 800 |
| `Bc250Ctl.FreqLeaves` | test-tools/bc250ctl.c:194-199 | the forced state left behind, from any state and for all 2^6 patterns of verdicts |
| `Bc250Ctl.UnbackedIff` | test-tools/bc250ctl.c:194-199 | because replies are ignored: from any state and for every pattern of verdicts, exactly when a clock is left forced without any forced voltage |
| `Bc250Ctl.CoveredIff` | test-tools/bc250ctl.c:184-199 | from any state and for every pattern of verdicts, exactly when the clock left forced has the voltage the service's table asks for, an old voltage kept by two refusals included |
| `Bc250Ctl.StaleVoltage` | test-tools/bc250ctl.c:194-199 | an instance: 700 mV is kept under a newly forced 2000 MHz |
| `SafePoints.ClampToSafe` | test-tools/governor-service.c:97-110 | the least table point at or above the request, else the top one |
| `SafePoints.SafePointOf` | test-tools/bc250ctl.c:176-182 | the same for the control suite's table |
| `SafePoints.ClampLaws` | test-tools/governor-service.c:90-110 | for every integer request the choice is bounded by 2230 MHz and 1085 mV, idempotent and monotone |
| `SafePoints.ServiceChoice` | test-tools/governor-service.c:90-110 | the chosen clock and profile for every request, in numbers |
| `SafePoints.SuiteChoice` | test-tools/bc250ctl.c:176-182 | the same for the control suite's table |
| `SafePoints.RailCoversPoint` | test-tools/governor-service.c:84-94 | the rail decoded from a point's VID is never below its nominal voltage |
| `Vid.NoRoundingTie` | test-tools/governor-service.c:84-87 | no integer mV is a rounding tie |
| `Vid.MvToVidAntitone` | test-tools/governor-service.c:84-87 | more voltage never gets a larger VID |
| `Vid.MvToVidInteger` | test-tools/governor-service.c:84-87 | the expression in integer arithmetic, truncation of negative values included |
| `Vid.VidRoundTrip` | test-tools/bc250-vitals.c:98-105 | every VID up to 248 survives the trip through millivolts |
| `Vid.MvRoundTrip` | test-tools/bc250-vitals.c:98-105 | a request from 0 to 1550 mV comes back within 3 mV |
| `Vid.VidEnds` | test-tools/bc250-vitals.c:99-105 | VIDs above one byte decode to 0; the ends of the range |
| `Masks.MergedIff` | test-tools/bar5-golden-test.c:85-97 | a masked replacement has the new bits under the mask and the old ones elsewhere, and nothing else does |
| `Masks.MergeIsOr` | test-tools/bar5-golden-test.c:91-93 | the and/or sequence computes that replacement |
| `Golden.PassCorrect` | test-tools/bar5-golden-test.c:156-179 | for any register file and any table whose chosen addresses are distinct: masked bits end as orVal & andMask, unmasked bits and all other registers as they were |
| `Golden.PassIsPointwise` | test-tools/bar5-golden-test.c:156-179 | with no alias shared, each address ends as the initial state alone dictates |
| `Golden.OrderIndependent` | test-tools/bar5-golden-test.c:156-179 | the order of the entries does not matter |
| `Golden.SeparateChoosesDistinct` | test-tools/bar5-golden-test.c:160-172 | such a table chooses distinct addresses whatever reads alive |
| `Golden.ShippedSeparate` | test-tools/bar5-golden-test.c:44-80 | no two entries of the shipped table share an alias, and none is the live GRBM_GFX_INDEX |
| `Golden.ShippedPass` | test-tools/bar5-golden-test.c:44-80 | the shipped table chooses distinct addresses for every aliveness outcome and is order independent |
| `Golden.ChooseByAddress` | test-tools/bar5-golden-test.c:159-172 | the chosen address of every entry by segment base and aliveness, in numbers |
| `Golden.ToolSelects` | test-tools/bar5-golden-test.c:142-182 | for every table of separate entries away from 0x34D0: a run leaves 0xE0000000 there, and every other register as the pass alone would |
| `Golden.ShippedSelects` | test-tools/bar5-golden-test.c:142-182 | the same for the shipped table on every register file |
| `Golden.RerunIff` | test-tools/bar5-golden-test.c:156-179 | a second pass changes nothing exactly when no entry was programmed to all-ones at its preferred alias with another alias left to program |
| `Golden.ToolTwiceIff` | test-tools/bar5-golden-test.c:142-182 | the same for two whole runs, broadcast write included |
| `Golden.SqLdsRetargetsIff` | test-tools/bar5-golden-test.c:76 | exactly when the all-ones value of SQ_LDS_CLK_CTRL makes the second run program the other alias |
| `Golden.SecondRunDiffers` | test-tools/bar5-golden-test.c:166-174 | with both aliases alive a second run does change a register |
| `Golden.Bar5.ApplyGolden` | test-tools/bar5-golden-test.c:85-97 | both branches write the same masked replacement |
| `Golden.Bar5.ChooseAddr` | test-tools/bar5-golden-test.c:159-172 | the alias decision of an entry |
| `Golden.Bar5.WriteAll` | test-tools/bar5-golden-test.c:142-182 | the broadcast write and the loop over the table compute the tool's run, the addresses and the [OK] verdicts |
| `Pm4.Header0Value` | inc/amdbc250_dream_hw.h:756-757 | the type 0 header's fields do not overlap |
| `Pm4.Header3Value` | inc/ps5_gpu_patterns.h:70-74 | the type 3 header's fields do not overlap, for both builders |
| `Pm4.DecodeEncoded` | src/kmd/amdbc250_dream_kmd.c:1900-1935 | decoding where an encoded packet starts gives that packet and its length exactly when its count fits; the routing bit plays no part |
| `Pm4.ExecutorRoundTripIff` | src/kmd/amdbc250_dream_kmd.c:1900-1935 | the executor gets the packets of a built stream back exactly when no register run exceeds 2048 values and no type 3 payload 4096 |
| `Pm4.FormatRoundTrip` | inc/amdbc250_dream_hw.h:750-764 | with the format's 14-bit counts every well-formed stream comes back |
| `PhysMem.CopyValue` | src/kmd/amdbc250_dream_kmd.c:2122 | a copy reproduces a little-endian value of any width |
| `Executor.StreamFrame` | src/kmd/amdbc250_dream_kmd.c:1884-2165 | no stream, nested or not, changes a byte outside the owned windows and the fence value |
| `Executor.StreamInside` | src/kmd/amdbc250_dream_kmd.c:1786-1801 | with the dispatch registers mapped, every register write of every stream lies in the mapped BAR5 |
| `Executor.AlwaysInsideIff` | src/kmd/amdbc250_dream_kmd.c:2036-2063 | all register writes of all streams stay inside exactly when the dispatch registers are mapped |
| `Executor.AcceptedIff` | src/kmd/amdbc250_dream_kmd.c:1834-1882 | a copy is executed exactly when 0 < length <= 1 MiB, both ranges lie in owned windows and they do not overlap physically |
| `Executor.DmaExact` | src/kmd/amdbc250_dream_kmd.c:2065-2127 | an accepted packet copies exactly its range, any other changes nothing |
| `Executor.DmaStreamRuns` | src/kmd/amdbc250_dream_kmd.c:2065-2127 | executing any stream of DMA_DATA packets is carrying out its requests in order, and nothing stops it |
| `Executor.EncodedStreamRuns` | src/kmd/amdbc250_dream_kmd.c:1900-2165 | executing any built stream whose counts fit is executing its packets in order, whatever the routing bits and whatever precedes it |
| `Executor.RegisterPacketsAgree` | src/kmd/amdbc250_dream_kmd.c:1905-2034 | a type 0 run, WRITE_DATA with its register bit and the three SET register packets have the same effect and the same error for the same registers |
| `Executor.RegRunAt` | src/kmd/amdbc250_dream_kmd.c:1914-1916 | write k of a run goes to its own register with value k |
| `Executor.BuildDmaData` | inc/ps5_gpu_patterns.h:290-299 | the seven words are the encoding of the request with its masked length |
| `Driver.SwExecutor.WriteRun` | src/kmd/amdbc250_dream_kmd.c:1914-1916 | the loop appends exactly the register run |
| `Driver.SwExecutor.DmaData` | src/kmd/amdbc250_dream_kmd.c:2077-2124 | the sequence of early exits is the acceptance condition |
| `Driver.SwExecutor.Type3` | src/kmd/amdbc250_dream_kmd.c:1937-2155 | the switch over opcodes |
| `Driver.SwExecutor.Process` | src/kmd/amdbc250_dream_kmd.c:1884-2165 | the recursive in-place loop computes the executor function: same final memory, register trace, fence and status |
| `Driver.SwExecutor.SendPm4` | src/kmd/amdbc250_dream_kmd.c:5521-5647 | count check, execution at depth 32 and fence bookkeeping of the path without a ring |
| `Opcodes.Type0Writes` | src/kmd/amdbc250_dream_kmd.c:1905-1918 | a type 0 run: range check of 4 bytes a register against BAR5, then write k goes to offset + 4k |
| `Opcodes.WriteData` | src/kmd/amdbc250_dream_kmd.c:1942-1967 | for every payload: bit 28 or an address below 2 MiB makes it a checked register run, bit 25 keeps it on one register, anything else is a no-op |
| `Opcodes.EndOfPipe` | src/kmd/amdbc250_dream_kmd.c:1969-1978 | both fence packets: the fence value is read back from the fence page, no other byte and no register changes; no-op without five words, a value or a page |
| `Opcodes.SetRegisters` | src/kmd/amdbc250_dream_kmd.c:1980-2034 | the three SET packets write consecutive registers from 0x1260 + 4 * offset on, in 32 bits |
| `Opcodes.Dispatch` | src/kmd/amdbc250_dream_kmd.c:2036-2063 | for every payload of four or more words: X, Y, Z and the initiator reach 0x80E4, 0x80E8, 0x80EC and 0x80E0, between the two GRBM selects |
| `Opcodes.DispatchInStream` | src/kmd/amdbc250_dream_kmd.c:2036-2063 | the same for an encoded dispatch with any payload anywhere in a stream, which goes on behind it |
| `Opcodes.DmaDataOperands` | src/kmd/amdbc250_dream_kmd.c:2065-2127 | source, destination and the 21-bit length of a DMA_DATA packet, by payload word |
| `Opcodes.IndirectBuffer` | src/kmd/amdbc250_dream_kmd.c:2129-2149 | exactly when a buffer is entered, at which address and with how many words |
| `Opcodes.OthersSkipped` | src/kmd/amdbc250_dream_kmd.c:2151-2153 | every other opcode has no effect |
| `Opcodes.OtherTypesSkipped` | src/kmd/amdbc250_dream_kmd.c:1920-2160 | type 1 and 2 words are skipped one at a time |
| `Opcodes.PayloadCutShort` | src/kmd/amdbc250_dream_kmd.c:1925-1940 | a type 3 packet declaring more words than are left ends the stream with an error and no effect, a NOP with success |
| `Opcodes.RunCutShort` | src/kmd/amdbc250_dream_kmd.c:1905-1918 | a register run that hits the end of the stream is range-checked as declared and writes what is there |
| `Opcodes.OwnedWindows` | src/kmd/amdbc250_dream_kmd.c:1848-1879 | the four windows an operand may lie in, each when it is mapped |
| `Opcodes.MoveCap` | src/kmd/amdbc250_dream_kmd.c:1803-1806 | the cap on one copy is 1 MiB, and it is the only bound on the length |
| `Opcodes.BufferWords` | src/kmd/amdbc250_dream_kmd.c:2138-2142 | an indirect buffer is read as little-endian words where it lies |
| `Opcodes.LaidLies` | src/kmd/amdbc250_dream_kmd.c:2138-2142 | for every address and every stream there is a memory in which it is read there as an indirect buffer |
| `Opcodes.SelfCallEnds` | src/kmd/amdbc250_dream_kmd.c:1896-1898 | a buffer that calls itself runs once for every level of depth left, and then the whole is a success |
| `Opcodes.SelfCallSubmitted` | src/kmd/amdbc250_dream_kmd.c:5521-5647 | sent by SEND_PM4 it runs exactly 31 times |
| `Opcodes.SubmitLimits` | src/kmd/amdbc250_dream_kmd.c:5521-5647 | 1 to 64 words, depth 32, and the fence is recorded on success only |
| `Descriptor.BuildCmdDescriptor` | inc/ps5_gpu_patterns.h:282-287 | the two 64-bit words, read as four words, are an INDIRECT_BUFFER packet |
| `Descriptor.DescriptorRunsIff` | inc/ps5_gpu_patterns.h:282-287 | the executor descends into exactly the described buffer if and only if the address has 48 bits, the buffer has 1 to 4096 words and it can be mapped |
| `DmaTests.SentinelLands` | test-tools/dma-move-verify.c:99-116 | any non-zero fence value written is read back |
| `DmaTests.MoveShows` | test-tools/dma-move-verify.c:119-135 | for every fence value the copy makes both halves of the readback the old high half, which differs from "discarded" exactly when the halves differ |
| `DmaTests.MoveVerifyPasses` | test-tools/dma-move-verify.c:169-213 | the sentinel and expected constants are an instance, so the tool passes |
| `DmaTests.RefusedIsNoOp` | test-tools/dma-data-test.c:160-197 | foreign operand, overlap, zero length, over-long length: success and no effect, fence included |
| `DmaTests.OwnedPairMoves` | test-tools/dma-data-test.c:171-175 | the owned pair is copied and the fence keeps its value |
| `DmaTests.ShortDmaSkipped` | src/kmd/amdbc250_dream_kmd.c:2071-2076 | wherever it lies in a stream, a DMA_DATA packet declaring 1 to 5 payload words is skipped: execution goes on right behind its declared words, memory, registers and status unchanged |
| `DmaTests.LastThreeQuietIff` | src/kmd/amdbc250_dream_kmd.c:1900-2165 | exactly when the last three words of any stream, executed as packets, have no effect and no error |
| `DmaTests.RegisterRunActs` | src/kmd/amdbc250_dream_kmd.c:1905-1918 | a type 0 header with a value behind it writes its first register or is rejected without effect, as the range check decides |
| `DmaTests.ShortRequestIsNoOpIff` | test-tools/dma-data-test.c:79-93 | for declared counts 3 to 5 and every device, source, destination and length: the truncated request is the expected skipped no-op exactly when its undeclared words are quiet |
| `DmaTests.CaseFiveByDestination` | test-tools/dma-data-test.c:182-186 | case 5 by destination: with a low word below 2^30 a register is written or the request rejected, as the range check decides; below 3 * 2^30 (and a high word below 2^30) it is never a no-op; above, the low word's count and opcode decide |
| `DmaTests.TruncatedTailIsDecoded` | test-tools/dma-data-test.c:182-186 | the instance without a ring: the declared words are skipped and register 0 is written |
| `RegScan.KindIff` | test-tools/bar5-write-test.c:22-27 | what RW, RO and DEAD each say about the hardware mask of a register, as equivalences |
| `RegScan.AllOnesIsNeverDead` | test-tools/bar5-write-test.c:22-27 | a register reading all-ones is never labelled DEAD; one that always does is RO |
| `RegScan.Restored` | test-tools/bar5-write-test.c:55-61 | writing the value read back restores the whole register file, for every mask |
| `RegScan.ProbeDiffers` | test-tools/bar5-write-test.c:52-64 | the probe value always differs from the old one, so a register that takes it is RW and one that keeps its value RO |
| `RegScan.SampleAt` | test-tools/bar5-write-test.c:52-64 | label k is that of the page at 0x20000 + 0x1000 * k |
| `RegScan.RunsAreDetermined` | test-tools/bar5-write-test.c:66-79 | homogeneous runs with differing neighbours are the only such list for given labels: each is maximal |
| `RegScan.CountsAreRunLengths` | test-tools/bar5-write-test.c:81-84 | the count of a label is the number of pages of its runs |
| `RegScan.Bar5.Probe` | test-tools/bar5-write-test.c:55-64 | one probe leaves the registers as found and returns the label |
| `RegScan.Bar5.Scan` | test-tools/bar5-write-test.c:50-101 | the whole scan leaves the registers as found; the runs partition the 96 pages in order and are homogeneous and maximal; the counts are theirs and sum to 96 |
| `Counters.CounterDelta` | test-tools/dcn-live-counter.c:30-43 | the 64-bit total never wraps for an int number of samples and is the sum of the wrap-tolerant steps |
| `Counters.FrameDelta` | test-tools/dcn-targeted-probe.c:47-58 | the 32-bit total is the last reading minus the first, modulo 2^32 |
| `Counters.TotalIsTicksIff` | test-tools/dcn-live-counter.c:30-43 | the 64-bit total is the true tick count exactly when every gap is below 2^32 |
| `Counters.LiveIff` | test-tools/dcn-live-counter.c:31-32 | it is zero exactly when no sample changed |
| `Counters.FrameTotalIsResidue` | test-tools/dcn-targeted-probe.c:47-58 | the 32-bit total is the 64-bit one modulo 2^32 |
| `Counters.VerdictsDifferIff` | test-tools/dcn-targeted-probe.c:48 | the two tools disagree on liveness exactly when the counter changed and came back to its first reading |
| `Vitals.SetStr` | test-tools/bc250-vitals.c:178-185 | bounded, terminated, cut at n - 1, nothing written from n on |
| `Vitals.WriteNames` | test-tools/bc250-vitals.c:213-225 | the loop leaves the joined longest fitting prefix of the set names |
| `Vitals.DecodeFeatures` | test-tools/bc250-vitals.c:202-227 | nothing from n on is written; for n >= 1 the buffer is the terminated text of the word, for n = 0 untouched |
| `Vitals.NamesOf` | test-tools/bc250-vitals.c:204-210 | which bit shows which name, for every word |
| `Vitals.GreedyIsLongest` | test-tools/bc250-vitals.c:215-220 | stopping at the first name that does not fit finds the longest prefix that fits |
| `Vitals.PlaceholderIff` | test-tools/bc250-vitals.c:219-226 | "(none set)" means that no known bit is set exactly for buffers of 15 bytes or more |
| `Vitals.SplitJoin` | test-tools/bc250-vitals.c:220-224 | the names can be read back from the joined string |
| `Vitals.TellsBitsIff` | test-tools/bc250-vitals.c:202-227 | two words with the same text have the same known bits, exactly for buffers of 59 bytes or more |

## Left out

- Smu.QueryFresh: it and everything built on it assume that the firmware writes its result before its status and that only one host program uses 0x38/0x3C.
- Governor.RunService: after a query that ends with its command in flight nothing more is said about the GPU, for the reason `TimeoutThenStale` gives; a restart on a fresh world is a new run.
- Governor.Serve: failures of the driver calls themselves, process termination on a console close, real time (a sleep is one tick) and the one-shot `unforce` and `status` modes, whose two routines are modelled.
- Bc250Ctl.CmdFreq: argument parsing and the `vid`, `profile`, `psp` and register commands; `vid` forces any voltage on its own and does not keep the governor's invariant.
- Vid.VidRoundTrip: double rounding, as explained above, and VIDs 249 to 255, for which the C converts a negative number to unsigned.
- Golden.Bar5.WriteAll: the probing report of the read-only mode, and hardware that does not store what is written, in which the [OK] check would be decided by the device.
- Executor.StreamFrame: register writes are a trace and have no effect on memory; whether mapping an indirect buffer succeeds is a parameter; addresses are unbounded where the C has 64 bits, which differs only for windows ending past 2^64.
- Driver.SwExecutor.SendPm4: the first two paths of SEND_PM4, which write hardware rings, and the check that hardware is initialised.
- DmaTests.ShortRequestIsNoOpIff: for declared counts 1 and 2 the four or five words left can hold a whole packet of any effect; `ShortDmaSkipped` says that they are what is executed.
- RegScan.Bar5.Scan: the values printed beside a flushed range belong to the next page and are not modelled; registers whose writes are not a masked replacement; the seven named registers and the GRBM_GFX_INDEX test after the scan, which is left at 0.
- Counters.CounterDelta: a read that fails counts as the reading all-ones, as in the C.
- Vitals.DecodeFeatures: the rest of the vitals table and its number formatting.
- The kernel driver outside the executor: command whitelist, PSP ring, memory manager, interrupts, display.
- Direct3D prototypes, register maps, dumps of configuration space and read-only tools: no logic to prove.
- `governor-full-test.c`, `c2pmsg-probe.c`, `gpu-compute-test.c` and `comprehensive-pm4-test.c`, whose register addresses or packet headers disagree with the ones modelled.
- What hardware does with a packet, a ring or a locked work-group processor.
