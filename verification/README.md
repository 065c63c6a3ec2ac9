# Rowhammer tester: verified model

A model of the rowhammer tester's payload tool chain and of its memory checks, with proofs of how the
pieces agree.

* **Payloads.** The playbook compiles "activate these rows `read_count` times, refreshing every tREFI" to
  a small instruction set (`Compiler`, `Lcm`), the encoder packs it (`Isa`), and a clocked machine with a
  synchronous fetch port, an idle counter and one shared loop counter executes it (`Executor`). `Loops` holds
  the theory of programs with backward jumps and one counter; `CompilerCorrect`, `EndToEnd`, `RefreshSpacing`,
  `RefreshTight`, `RefreshBus`, `RunTiming`, `CycleCount` and `TimingSafe` prove what a generated payload does,
  from the row list to the pins. `Handover` composes the executor with the switch that takes the bus from the
  memory controller, and `Session` proves what the DRAM gets in every run from power-on.
* **Timing checkers.** The DDR3 and DDR4 checkers keep incremental next-tick dictionaries and a deque of
  activations (`Dram`, `Ddr3`, `Ddr4`). They are proved against rules over the full command history, for the
  commands of JESD79-3F and JESD79-4B (section 4, command description and operation, in each). The REF rule
  is the one coded: it looks at the last activate or precharge of the rank. `PayloadInstr`, `VerifyPayload` and
  `NestedJumps` are the interpreter that drives the DDR3 checker.
* **Memory checks.** The BIST writer and the three concurrent machines of the BIST reader (`Bist`,
  `BistWriter`, `BistReader`, `BistAgreement`, `BistProgress`).
* **Analysis.** The half-double search (`HalfDouble`, `HalfDoubleSearch`), flip histograms (`Histograms`,
  `HammerStats`) and the DRAM address converter (`AddressMap`).

Main hypotheses, all explicit in the lemmas: a payload reaches the bus unchanged when tRAS, tRP and (with refresh
on) tRFC are in 1..31 and rank, bank, rows and column bit 10 fit their fields (`EndToEnd.FieldsFit`); a BIST start
strobe finds both reader machines ready or both busy.

Where the code does not do what its comments, its documentation or its own names say, the model follows the code,
states the exact condition and names inputs that fail:

* The bound of tREFI between refreshes fails across a LOOP, since the cycle for the jump is charged to the first
  segment of a body (`RefreshTight.TrefiBoundIff`, `RefreshTight.TightExample`).
* `get_expected_execution_cycles` counts each LOOP once, the executor spends a cycle per visit: the estimate is short
  by the sum of the counts (`CycleCount.ExpectedExecutionCycles`).
* A tRFC of 0 without refresh turns a wait into STOP (`CompilerCorrect.StopsEarlyIff`, for every such payload).
* The DDR4 bank groups overwrite instead of taking a maximum (`Ddr4.DecidesRulesIff`, `Ddr4.ActivateEscape`,
  `Ddr4.ReadEscape`).
* The payload verifier does not return on nested jumps unless a command is rejected (`VerifyPayload.ReturnsIff`,
  `NestedJumps.NestedForever`, `NestedJumps.NestedReturns`).
* A wait in the last word of the payload memory loses the DFI (`Handover.StepSafe`, `Handover.LastWordExample`), and
  the program counter does not reach that word if the depth is one above a power of two
  (`Executor.PcRangeCoversMemory`).
* In modulo mode the reader compares everything with pattern word 0 (`BistProgress.UntouchedCheck`,
  `BistProgress.ModuloExample`), and a start while only its pattern machine is busy misaligns it
  (`BistReader.InStepIff`, `BistProgress.EarlyStartReachable`).
* After a row that flips in the second phase of the half-double search, `distance_one` stays off, and the first phase
  of the next row hammers neither distance (`HalfDoubleSearch.BaselinesIff`, `HalfDoubleSearch.SkippedBaseline`).
* Chips that do not divide 64 leave bits of a beat uncounted (`Histograms.NothingLostIff`, `Histograms.LastBitLost`).

## Model

| member | source | states |
|---|---|---|
| `Isa.EncodeParts` | rowhammer_tester/gateware/payload_executor.py:176-184 | The OR-and-shift loop over the fields gives the mixed-radix number of the fields, each taken modulo its width. |
| `Isa.FieldOfPack` | rowhammer_tester/gateware/payload_executor.py:176-184 | Any field can be sliced back out of a packed word, modulo its width, whatever the other fields hold. |
| `Isa.DecodeEncode` | rowhammer_tester/gateware/payload_executor.py:105-126 | For every instruction the decoder recovers opcode, timeslice, address, loop count and jump modulo their widths, and the stop flag of the masked instruction. |
| `Isa.DecodeEncodeExact` | rowhammer_tester/gateware/payload_executor.py:105-126 | Decoding gives back the instruction itself exactly when all its fields fit. |
| `Isa.WordValues` | rowhammer_tester/gateware/payload_executor.py:134-184 | The words as numbers: op code in the low three bits (NOOP 0, LOOP 7, ACT 4, PRE 5, REF 6, ZQC 1, READ 2), then timeslice and address or count and jump; the word 0 is STOP. |
| `Isa.CommandPins` | rowhammer_tester/gateware/payload_executor.py:117-119 | The three opcode bits drive CAS, RAS and WE with the JEDEC encoding of the command. |
| `Isa.AddressValue` | rowhammer_tester/gateware/payload_executor.py:189-202 | The packed address is the mixed-radix number of rank, bank and row or column. |
| `Isa.AddressRoundTrip` | rowhammer_tester/gateware/payload_executor.py:120-126 | Rank, bank and row or column unpack unchanged when they are in range, and the address then fits its field. |
| `Loops.RunsUnrolled` | rowhammer_tester/gateware/payload_executor.py:432-446 | With the one shared loop counter, every program without nested loops executes its unrolling, each body count + 1 times, and leaves the counter at 0. |
| `Loops.HaltsIffNonNested` | rowhammer_tester/payload/verify_payload.py:69-93 | With positive counts, a program halts if and only if no loop lies inside the body of another. |
| `Loops.NestedNeverLeaves` | rowhammer_tester/payload/verify_payload.py:84-93 | Once inside a loop around a loop, control never gets past the outer one, because the inner one resets the counter. |
| `Loops.SumUnroll` | rowhammer_tester/payload/verify_payload.py:69-93 | Any total over an executed run equals its closed form: each loop body counted count + 1 times. |
| `Executor.PcRangeCoversMemory` | rowhammer_tester/gateware/payload_executor.py:378-378 | The program counter, declared with one value too few, reaches every word if and only if the depth is not one above a power of two. |
| `Executor.PayloadExecutor.RunCycle` | rowhammer_tester/gateware/payload_executor.py:424-465 | The RUN state: registers, fetch address and exec strobe for a decoded word, with the wait overriding the return to READY. |
| `Executor.PayloadExecutor.Tick` | rowhammer_tester/gateware/payload_executor.py:409-475 | One clock of the registered machine with its synchronous fetch port equals the clock function on which the lemmas are stated. |
| `Executor.ClockFetches` | rowhammer_tester/gateware/payload_executor.py:385-475 | For any memory contents and any inputs, every clock keeps: in RUN the fetched word is the memory at the program counter. |
| `Executor.PlainRefines` | rowhammer_tester/gateware/payload_executor.py:446-475 | From a RUN state whose fetched word is memory at the program counter, a command takes exactly max(1, timeslice) cycles, a DFI word with timeslice 0 included, is sent once, in the first, and ends in such a state again. |
| `Executor.LoopRefines` | rowhammer_tester/gateware/payload_executor.py:432-445 | A LOOP takes one cycle, sends nothing and follows the loop interpreter. |
| `Executor.Refines` | rowhammer_tester/gateware/payload_executor.py:424-475 | The clocked machine refines the loop interpreter over any run of instructions: same control, same commands, at the right cycles. |
| `Executor.RunsToStop` | rowhammer_tester/gateware/payload_executor.py:409-475 | Granted the DFI, the executor sends exactly the commands of the unrolled payload and the STOP word and is back in READY with the DFI released and the loop counter at 0. |
| `Executor.RunsToMemoryEnd` | rowhammer_tester/gateware/payload_executor.py:426-430 | A payload that fills the memory and ends in a one-cycle word needs no STOP: everything is sent and READY is reached after the last word. |
| `Executor.LoopLeftIff` | rowhammer_tester/gateware/payload_executor.py:432-445 | In any state a LOOP is left exactly when the counter equals its count; a counter beyond the count goes on and wraps at 4096. |
| `Executor.BusyMeans` | rowhammer_tester/gateware/payload_executor.py:424-475 | Between the grant and STOP the executor is in RUN or IDLE in every cycle and asks for the DFI. |
| `CycleCount.ExpectedExecutionCycles` | rowhammer_tester/scripts/utils.py:501-514 | The estimate plus the sum of COUNT over the LOOPs before the STOP is the number of cycles in which an executor with this payload is in RUN or IDLE, for any memory that holds it. |
| `Lcm.LeastCommonMultiple` | rowhammer_tester/scripts/playbook/lib/__init__.py:65-71 | The loop returns the least positive common multiple of two positive numbers, 0 if the second is 0, nothing positive otherwise, and divides by zero exactly on two zeros. |
| `Compiler.PayloadBuilder.EncodeOneLoop` | rowhammer_tester/scripts/playbook/lib/__init__.py:8-41 | Appends one body and its LOOP, returns refreshes per pass times passes, and fails exactly when an instruction has an empty timeslice or the jump does not fit. |
| `Compiler.PayloadBuilder.EncodeLongLoop` | rowhammer_tester/scripts/playbook/lib/__init__.py:44-62 | Appends LOOPs of at most 4096 passes that together make the passes asked for; the refresh count covers them all. |
| `Compiler.PayloadBuilder.ChooseRepetitions` | rowhammer_tester/scripts/playbook/lib/__init__.py:98-103 | How many copies of the rows form a body: the least common multiple with the interval, capped by the jump field; which inputs end in a division by zero or an assertion, exactly. |
| `Compiler.PayloadBuilder.Generate` | rowhammer_tester/scripts/playbook/lib/__init__.py:74-167 | The whole compiler: which inputs end in a division by zero, an assertion or a memory overflow, exactly; otherwise the payload, its words and the refresh count. |
| `CompilerCorrect.CountsTotal` | rowhammer_tester/scripts/playbook/lib/__init__.py:47-60 | The LOOP counts are below 4096 and their passes add up to the number asked for. |
| `CompilerCorrect.BodyIsStraight` | rowhammer_tester/scripts/playbook/lib/__init__.py:14-39 | A body has no loop and no STOP and is as long as the jump of its LOOP. |
| `CompilerCorrect.ProgramRuns` | rowhammer_tester/scripts/playbook/lib/__init__.py:113-138 | A generated payload is well formed and executes the wait, all full passes, the remaining passes and the last refresh. |
| `CompilerCorrect.HammersEveryRow` | rowhammer_tester/scripts/playbook/lib/__init__.py:8-167 | The ACT and PRE instructions executed are the row sequence, read_count times over, each ACT followed by its PRE. |
| `CompilerCorrect.StopsEarlyIff` | rowhammer_tester/scripts/playbook/lib/__init__.py:109-137 | A payload with passes contains a STOP before its end if and only if refresh is off and tRFC is 0. |
| `EndToEnd.ProgramFits` | rowhammer_tester/gateware/payload_executor.py:180-183 | Under the stated hypotheses no field of a generated payload is changed by the masks of the encoder. |
| `EndToEnd.PayloadHammersRows` | rowhammer_tester/scripts/playbook/lib/__init__.py:74-167 | Compiler correctness down to the bus pins: encoded, loaded and run, the payload reaches STOP, and the activations and precharges on the bus are the row sequence read_count times over, in the right bank and rank. |
| `RunTiming.RefreshesAreWaits` | rowhammer_tester/scripts/playbook/lib/__init__.py:15-39 | With refresh off and on, a job executes runs of equal length with equal durations at every index: each REF of tRFC cycles, 1 for the last, is a wait of as many cycles, and everything else is the same instruction. |
| `RunTiming.RunCycles` | rowhammer_tester/scripts/playbook/lib/__init__.py:74-138 | The exact length of a run: initial wait, tRAS + tRP per row, tRFC per counted refresh, one cycle per LOOP visit, one for the last refresh. |
| `RunTiming.SameStamps` | rowhammer_tester/scripts/playbook/lib/__init__.py:15-39 | With refresh off and on, the activations and precharges are on the bus in the same cycles. |
| `RunTiming.FirstCommands` | rowhammer_tester/scripts/playbook/lib/__init__.py:111-113 | The initial wait goes out first and the next command exactly max(1, tRFC - 2, tREFI - 2) cycles later. |
| `RefreshSpacing.RefreshCount` | rowhammer_tester/scripts/playbook/lib/__init__.py:115-138 | The refreshes executed are the counts that the compiler returns plus the final one. |
| `RefreshSpacing.RefreshesInTime` | rowhammer_tester/scripts/playbook/lib/__init__.py:14-39 | Consecutive refreshes start at most tREFI cycles apart, and at most tREFI + 1 if a LOOP lies between them. |
| `RefreshTight.TightIff` | rowhammer_tester/scripts/playbook/lib/__init__.py:16-26 | Which bodies end exactly at tREFI, from the timings and the number of rows alone. |
| `RefreshTight.TrefiBoundIff` | rowhammer_tester/scripts/playbook/lib/__init__.py:22-23 | The bound of tREFI that the comments claim holds for all pairs of refreshes if and only if no body of the payload fills its last interval to the cycle. |
| `RefreshTight.WholeIntervalsAreSafe` | rowhammer_tester/scripts/playbook/lib/__init__.py:98-103 | Bodies made of whole refresh intervals, which the LCM aims for, never do so when an interval holds at least two activations. |
| `RefreshTight.WholeUnitsMeetBound` | rowhammer_tester/scripts/playbook/lib/__init__.py:98-107 | Payloads whose body is the whole LCM, without remainder and with at least two activations per interval, keep all refreshes within tREFI. |
| `RefreshTight.TightExample` | rowhammer_tester/scripts/playbook/lib/__init__.py:16-26 | A concrete payload with two refreshes more than tREFI apart. |
| `RefreshBus.BusRefreshes` | rowhammer_tester/scripts/playbook/lib/__init__.py:14-138 | On the bus: the REF commands sent are the returned counts plus the final one, neighbouring ones start at most tREFI + 1 cycles apart, and at most tREFI if and only if no body fills its last interval. |
| `TimingSafe.BusPassesChecker` | rowhammer_tester/scripts/playbook/lib/__init__.py:15-39 | The commands that the executor puts on the bus for a generated payload are accepted by the DDR3 checker with the same tRAS, tRP and tRFC if tRRD is at most one row cycle and tFAW at most four. |
| `TimingSafe.GapsGiveFaw` | rowhammer_tester/payload/ddr3lib.py:86-94 | Activations one row cycle apart keep every window of four row cycles at four activations. |
| `Dram.UpdateTable` | rowhammer_tester/payload/ddr3lib.py:133-137 | The dictionary update loop equals the table update that the lemmas use, with infinity overwritten and everything else raised. |
| `Dram.Bank.Execute` | rowhammer_tester/payload/ddr3lib.py:126-138 | A bank rejects a command before its next tick and keeps its dictionary; otherwise it updates it. |
| `Dram.BankDecides` | rowhammer_tester/payload/ddr3lib.py:107-138 | Looking the tick up in the dictionary decides the bank rules (rcd, ras, rtp, rp, open or closed) over the whole history. |
| `Dram.BankFollows` | rowhammer_tester/payload/ddr3lib.py:126-138 | An accepted command turns the dictionary of its bank into that of the longer history. |
| `Dram.FawRule` | rowhammer_tester/payload/ddr3lib.py:86-94 | Comparing each activation with the fourth-previous one alone is equivalent to at most four activations in every window. |
| `Dram.DequeDecides` | rowhammer_tester/payload/ddr3lib.py:86-94 | The test on the four-deep deque decides whether one more activation keeps the window rule. |
| `Ddr3.Rank.Execute` | rowhammer_tester/payload/ddr3lib.py:79-104 | The rank, its deque and its banks, updated in place, take the step on which the lemmas are stated. |
| `Ddr3.AcceptsIffLegal` | rowhammer_tester/payload/ddr3lib.py:52-138 | The incremental checker accepts a strictly increasing trace if and only if every command is legal over the full history; its state is then a function of that history. |
| `Ddr3.OneOfReadAndActivate` | rowhammer_tester/payload/ddr3lib.py:107-138 | In every accepted trace exactly one of the RD and ACT entries of a bank is infinite. |
| `Ddr3.AtMostFourActivates` | rowhammer_tester/payload/ddr3lib.py:86-94 | In every accepted trace any window shorter than tFAW holds at most four activations. |
| `Ddr4.BankGroup.Execute` | rowhammer_tester/payload/ddr4lib.py:126-138 | A bank group rejects on its own or its bank's next tick, otherwise it updates both with the long delays. |
| `Ddr4.BankGroup.UpdateOther` | rowhammer_tester/payload/ddr4lib.py:140-142 | A command to another group overwrites the next ticks with the short delays. |
| `Ddr4.Rank.ExecuteGroups` | rowhammer_tester/payload/ddr4lib.py:95-101 | The addressed group executes; the loop updates all other groups and only those. |
| `Ddr4.Rank.Execute` | rowhammer_tester/payload/ddr4lib.py:78-108 | The rank, updated in place, takes the step on which the lemmas are stated. |
| `Ddr4.AcceptsIffCoded` | rowhammer_tester/payload/ddr4lib.py:78-176 | For all timings: the checker accepts a trace if and only if each command meets the bank and rank rules over the full history and the delay after the last RD or ACT of the rank. |
| `Ddr4.CodedIffLegal` | rowhammer_tester/payload/ddr4lib.py:126-142 | When the long delays are at most twice the short ones, this equals the full rules: long spacing for all same-group pairs, short for all cross-group pairs. |
| `Ddr4.DecidesRulesIff` | rowhammer_tester/payload/ddr4lib.py:111-142 | The checker agrees with the full rules on all traces if and only if ccd_l <= 2 ccd_s and rrd_l <= 2 rrd_s. |
| `Ddr4.ActivateEscape` | rowhammer_tester/payload/ddr4lib.py:140-142 | Otherwise three activations are accepted that break the long spacing. |
| `Ddr4.ReadEscape` | rowhammer_tester/payload/ddr4lib.py:136-142 | The same for reads. |
| `Ddr4.AtMostFourActivates` | rowhammer_tester/payload/ddr4lib.py:85-93 | In every accepted trace any window shorter than tFAW holds at most four activations. |
| `PayloadInstr.LegalIff` | rowhammer_tester/payload/ddr3lib.py:12-47 | An instruction is legal if and only if it survives packing into the 32-bit word of the message definition, takes time, addresses rank 0 in whole bursts and, if a jump, goes back inside the payload with a positive count. |
| `VerifyPayload.TicksOnFields` | rowhammer_tester/payload/verify_payload.py:77-93 | The tick after a run is the sum of the timeslice fields plus one for every visit to a jump. |
| `VerifyPayload.CountsOnFields` | rowhammer_tester/payload/verify_payload.py:79-93 | The executed counts by the numbers of the protocol: NOP 0, RD 2, ACT 4, PRE 5, REF 6, JMP 7, and 0 elsewhere. |
| `VerifyPayload.CommandAt` | rowhammer_tester/payload/verify_payload.py:71-79 | Every memory instruction of a run is a command, in order, at the tick given by the slices and jump visits before it. |
| `VerifyPayload.ReturnsIff` | rowhammer_tester/payload/verify_payload.py:69-98 | The interpreter returns on a legal payload if and only if no JMP is inside the body of another or some command of its run is rejected. |
| `VerifyPayload.RunningMeans` | rowhammer_tester/payload/verify_payload.py:69-93 | While it runs, ip, loop, tick, executed counts and the rank are those of the instructions executed so far, all accepted. |
| `NestedJumps.NestedReturns` | rowhammer_tester/payload/verify_payload.py:71-76 | A nested payload on which it returns for every timing: an activate of an open bank. |
| `NestedJumps.SilentNestedRunsForever` | rowhammer_tester/payload/verify_payload.py:84-93 | On a nested payload without memory instructions it never returns. |
| `NestedJumps.NestedForever` | rowhammer_tester/payload/verify_payload.py:84-93 | A concrete payload of three instructions on which it runs forever. |
| `VerifyPayload.State.Move` | rowhammer_tester/payload/verify_payload.py:77-93 | The register updates of one instruction. |
| `VerifyPayload.Interpret` | rowhammer_tester/payload/verify_payload.py:66-98 | For every payload on which it returns: a rejection names the first rejected command of the run, its ip and tick, everything before it being accepted; it passes if and only if no jump is nested and the rank accepts the whole run, with the tick (slices plus jump visits) and the counts of that run. |
| `VerifyPayload.Verify` | rowhammer_tester/payload/verify_payload.py:53-102 | Which of the verdicts an input gets: bad timing, first illegal instruction, first rejected command or passed. |
| `VerifyPayload.PassedMeans` | rowhammer_tester/payload/verify_payload.py:66-98 | A passing verdict means legality over the full history; tick and executed counts equal their closed forms with each body counted count + 1 times. |
| `Handover.RefreshIsRef` | rowhammer_tester/gateware/payload_executor.py:281-292 | The refresh detector on the command pins fires for the REF opcode of the executor and for no other. |
| `Handover.DfiSwitch.Tick` | rowhammer_tester/gateware/payload_executor.py:315-338 | One clock of the switch: ownership, dfi_ready, refresher reset and the 32-bit refresh counter. |
| `Handover.StepSafe` | rowhammer_tester/gateware/payload_executor.py:427-456 | A clock keeps handover safety if and only if the executor is not about to wait on the last word of its memory. |
| `Handover.RunsSafe` | rowhammer_tester/gateware/payload_executor.py:409-475 | In every run from power-on that never does so, a busy executor wants the DFI, RUN and IDLE own it, and a command sits in the output registers only while they are connected. |
| `Handover.AlwaysFetched` | rowhammer_tester/gateware/payload_executor.py:385-475 | In every state reachable from power-on, for any memory and any inputs, the word that RUN executes is the memory at the program counter. |
| `Handover.ShortLastWordIsSafe` | rowhammer_tester/gateware/payload_executor.py:427-456 | Handover safety from the memory contents: if the last word is a LOOP or does not wait, or the program counter cannot reach it, every run is safe. |
| `Handover.CommandsReachTheBus` | rowhammer_tester/gateware/payload_executor.py:235-270 | Each command issued is on the bus in the next cycle, with ext_dfi_sel set. |
| `Handover.HandsOverOnRefresh` | rowhammer_tester/gateware/payload_executor.py:312-327 | With refresh on, the bus changes hands only in a cycle with a refresh, and with at_refresh set only on the one that brings the counter to it. |
| `Handover.HandsOverIff` | rowhammer_tester/gateware/payload_executor.py:312-327 | Over runs, both ways: the controller loses the bus in a cycle if and only if the executor wants it and refresh is off, or the controller sends a refresh and at_refresh is 0 or the number of refreshes seen. |
| `Handover.GivesBackIff` | rowhammer_tester/gateware/payload_executor.py:330-337 | The executor gives the bus back in exactly the cycles in which it no longer wants it. |
| `Handover.DrivePins` | rowhammer_tester/gateware/payload_executor.py:249-269 | The pins on phase 0 for every instruction, with no chip selected for NOOP and all for REF. |
| `Handover.CounterCounts` | rowhammer_tester/gateware/payload_executor.py:294-294 | In every run the counter is the number of refreshes seen, whoever sent them, modulo 2^32. |
| `Handover.TakesOverAtRefreshNumber` | rowhammer_tester/gateware/payload_executor.py:312-327 | In every run, at a handover exactly at_refresh refreshes have been seen, modulo 2^32. |
| `Handover.LastWordExample` | rowhammer_tester/gateware/payload_executor.py:427-456 | A two-word memory that ends in a wait: the executor goes on waiting without the DFI. |
| `Session.AlwaysInSession` | rowhammer_tester/gateware/payload_executor.py:235-475 | With a well-formed payload in memory, from power-on and under any inputs: handover is safe, even if the payload fills the memory, and every run begins with the loop counter at 0. |
| `Session.SessionOnBus` | rowhammer_tester/gateware/payload_executor.py:235-475 | Each time the bus is granted, the DRAM gets exactly the commands of the unrolled payload, each in its cycle, then STOP; the executor owns the bus throughout and ends in READY. |
| `Session.StartRunsPayload` | rowhammer_tester/gateware/payload_executor.py:315-475 | Liveness: from READY, a start strobe waits through every cycle that does not grant the bus, has it after the first that does, is in RUN one cycle later, and then the DRAM gets the whole payload. |
| `Session.FirstRefreshGrants` | rowhammer_tester/gateware/payload_executor.py:312-327 | In the default setting, refresh on and at_refresh 0, the first refresh of the controller grants the bus. |
| `Session.BusGoesBack` | rowhammer_tester/gateware/payload_executor.py:330-337 | After every run the bus goes back to the controller. |
| `Session.EveryGrantHammersRows` | rowhammer_tester/scripts/playbook/lib/__init__.py:74-167 | The same for a generated payload: at every grant, the activations and precharges on the bus are the row sequence read_count times over. |
| `Bist.PipeSettles` | rowhammer_tester/gateware/bist.py:45-77 | With stable inputs the inversion pipeline settles stage by stage, one per clock. |
| `Bist.InvertedMeans` | rowhammer_tester/gateware/bist.py:45-77 | The inverter gives the bitwise complement of the word if the bit of the selection mask numbered by the row bits under the divisor mask is 1, and the word itself otherwise. |
| `BistWriter.Writer.Tick` | rowhammer_tester/gateware/bist.py:197-242 | One clock of the writer FSM, its memory ports and its inverter. |
| `BistWriter.WritesPattern` | rowhammer_tester/gateware/bist.py:197-242 | In every run, whatever the DMA does, the writes accepted since the last start are the first ones of the configured pattern, in order, with settled data; a ready writer has made all of them. |
| `BistWriter.WritesMean` | rowhammer_tester/gateware/bist.py:197-242 | In plain terms: address, pattern index and word of the k-th write of every run; with selection mask 0 the pattern is written unchanged. |
| `BistReader.Reader.TickAddr` | rowhammer_tester/gateware/bist.py:317-359 | One clock of the address FSM. |
| `BistReader.Reader.TickPattern` | rowhammer_tester/gateware/bist.py:381-440 | One clock of the pattern FSM and its inverter. |
| `BistReader.Reader.TickError` | rowhammer_tester/gateware/bist.py:447-474 | One clock of the error FSM. |
| `BistReader.Reader.Tick` | rowhammer_tester/gateware/bist.py:300-474 | All three machines and the queues between them on one clock edge. |
| `BistReader.FlowKeeps` | rowhammer_tester/gateware/bist.py:300-434 | Every clock keeps the address FIFO aligned with the outstanding reads, the pipeline settled in RD_DATA and the machines in step, for every behaviour of DMA and user. |
| `BistReader.InStepIff` | rowhammer_tester/gateware/bist.py:317-389 | A clock keeps that invariant if and only if a start strobe finds both FSMs ready or both busy. |
| `BistReader.EarlyStartMisaligns` | rowhammer_tester/gateware/bist.py:317-323 | A start that finds only the pattern FSM busy restarts the address FSM alone and misaligns the FIFO. |
| `BistReader.TransitKeeps` | rowhammer_tester/gateware/bist.py:435-474 | No error is lost, duplicated or reordered between comparison and delivery. |
| `BistReader.RunInv` | rowhammer_tester/gateware/bist.py:300-474 | All reader invariants in every reachable state. |
| `BistReader.ErrorsConserved` | rowhammer_tester/gateware/bist.py:300-474 | With skip_fifo 0, delivered errors, error register, FIFO and pending entry are in order the mismatches so far; at ready nothing is outstanding and error_count is the number of mismatches among all count transfers. |
| `BistReader.ExpectedMeans` | rowhammer_tester/gateware/bist.py:371-393 | In plain terms: address and expected word of transfer k. |
| `BistReader.HeldBackIff` | rowhammer_tester/gateware/bist.py:342-359 | The address FSM is held back exactly by four waiting addresses or by the DMA. |
| `BistReader.AtMostFourOutstanding` | rowhammer_tester/gateware/bist.py:300-359 | At most four reads are ever outstanding. |
| `BistReader.SkippedErrorsOnlyCounted` | rowhammer_tester/gateware/bist.py:412-474 | With skip_fifo 1 errors are counted and none ever enters the FIFO or reaches the user. |
| `BistAgreement.StoredWords` | rowhammer_tester/gateware/bist.py:219-242 | After a complete fill with distinct addresses, memory holds the pattern word at each of them. |
| `BistAgreement.ReadsMemory` | rowhammer_tester/gateware/bist.py:342-434 | When the DMA serves reads from a memory, the words compared are those of the configured addresses in order. |
| `BistAgreement.AgreeIff` | rowhammer_tester/gateware/bist.py:390-393 | Writer and reader agree on every expected word if and only if modulo mode is off or all pattern words used are equal: in modulo mode the pattern FSM never steps its address. |
| `BistAgreement.WriteThenCheck` | rowhammer_tester/gateware/bist.py:197-474 | After a writer run and a reader run that agree, with distinct addresses, the errors are exactly the transfers whose word changed in between, with the changed and the written word. |
| `BistAgreement.UnchangedIsCleanIff` | rowhammer_tester/gateware/bist.py:390-434 | A memory that nobody touched reads clean if and only if modulo mode is off or all pattern words used are equal. |
| `BistProgress.WriterRuns` | rowhammer_tester/gateware/bist.py:197-242 | With a DMA that is always ready, a fill takes exactly 7 count + 2 clocks from its start to ready, for every configuration. |
| `BistProgress.NoDeadlock` | rowhammer_tester/gateware/bist.py:342-412 | When the pattern FSM waits for an address or for data, the address FSM is neither ready nor stalled. |
| `BistProgress.ReaderFinishes` | rowhammer_tester/gateware/bist.py:317-440 | With a DMA and a user that are always ready, every check ends, for every configuration and every memory. |
| `BistProgress.EarlyStartReachable` | rowhammer_tester/gateware/bist.py:317-323 | In every configuration with transfers, a disciplined run from power-on reaches a state where a start strobe misaligns the FIFO. |
| `BistProgress.UntouchedCheck` | rowhammer_tester/gateware/bist.py:197-474 | For every configuration with distinct addresses there are a fill and a check of the untouched memory that both end, and the check is clean if and only if modulo mode is off or all pattern words used are equal. |
| `BistProgress.ModuloExample` | rowhammer_tester/gateware/bist.py:390-393 | A configuration with two pattern words, a fill and a check that end with errors on a memory that nobody touched. |
| `HalfDouble.NextInv` | rowhammer_tester/scripts/playbook/payload_generators/half_double_analysis.py:120-174 | Every reachable state keeps read_count = total // dilution, nr_rows = dilution, 0 < total <= max, distance_two exactly outside the first phase, total > step in MAX_DILUTION, and totals and dilutions on their grids. |
| `HalfDouble.TotalNeverRunsOut` | rowhammer_tester/scripts/playbook/payload_generators/half_double_analysis.py:150-163 | The branch that would start a new row from MAX_DILUTION is never taken. |
| `HalfDouble.NextSmaller` | rowhammer_tester/scripts/playbook/payload_generators/half_double_analysis.py:120-174 | Every call decreases a lexicographic measure, whatever the victim does. |
| `HalfDoubleSearch.SmallerDilutionsFlipped` | rowhammer_tester/scripts/playbook/payload_generators/half_double_analysis.py:120-163 | The dilution is raised only while the victim flips: at any call, every smaller dilution initial * multiplier^i was tried before with the same row and total, and flipped. |
| `HalfDoubleSearch.LowerTotalAfterSearch` | rowhammer_tester/scripts/playbook/payload_generators/half_double_analysis.py:150-157 | A total below the maximum is used only after a call in MAX_DILUTION at the total one step higher that did not flip or had no room for a larger dilution. |
| `HalfDoubleSearch.RowLeftIff` | rowhammer_tester/scripts/playbook/payload_generators/half_double_analysis.py:120-163 | Exactly when each phase leaves the row: HAMMER_TOLERANCE if it did not flip or the total is at most one step; and when MAX_DILUTION goes on to a larger dilution. |
| `HalfDoubleSearch.DistanceOneIff` | rowhammer_tester/scripts/playbook/payload_generators/half_double_analysis.py:120-174 | In every state, distance_one is on if and only if it is not the second phase and the last call made in the second phase did not flip. |
| `HalfDoubleSearch.BaselinesIff` | rowhammer_tester/scripts/playbook/payload_generators/half_double_analysis.py:120-174 | Before a row is hammered at both distances it showed no flip at distance two alone; it was found clean at distance one alone if and only if the last earlier row that reached the second phase did not flip there. |
| `HalfDoubleSearch.SkippedBaseline` | rowhammer_tester/scripts/playbook/payload_generators/half_double_analysis.py:167-174 | A run in which a row is hammered at both distances without ever having been hammered at distance one alone. |
| `HalfDouble.Generator.StartNextRow` | rowhammer_tester/scripts/playbook/payload_generators/half_double_analysis.py:167-174 | The reset of the search for the next row, which leaves distance_one as it was. |
| `HalfDouble.Generator.Advance` | rowhammer_tester/scripts/playbook/payload_generators/half_double_analysis.py:120-163 | The four state functions. |
| `HalfDouble.Generator.ProcessErrors` | rowhammer_tester/scripts/playbook/payload_generators/half_double_analysis.py:176-211 | One call counts the victim's row, flips and number outside the first phase and advances; the three dictionaries stay the summary of all hits so far. |
| `HalfDouble.Analyse` | rowhammer_tester/scripts/playbook/playbook.py:76-92 | The loop of the playbook ends for every sequence of outcomes, at the first call that reaches the last row, in the state that those outcomes determine; the dictionaries then summarise exactly the flips found, each under its dilution (infinite in the second phase), total and row. |
| `AddressMap.ExtractIsSlice` | rowhammer_tester/scripts/utils.py:321-323 | Masking and shifting extracts the field at an offset. |
| `AddressMap.EncodeIsPack` | rowhammer_tester/scripts/utils.py:283-298 | The packed address is column, then bank, then row. |
| `AddressMap.DecodeEncode` | rowhammer_tester/scripts/utils.py:283-329 | _decode undoes _encode for all locations in range. |
| `AddressMap.BusRoundTrip` | rowhammer_tester/scripts/utils.py:300-338 | decode_bus undoes encode_bus, up to the low column bits that a negative shift clears. |
| `AddressMap.DmaRoundTrip` | rowhammer_tester/scripts/utils.py:315-341 | decode_dma undoes encode_dma, up to the column bits below a burst. |
| `AddressMap.DmaIsBus` | rowhammer_tester/scripts/utils.py:331-341 | A DMA offset addresses the same location as the bus address that many port words above the base. |
| `AddressMap.RangeIsRows` | rowhammer_tester/scripts/playbook/lib/__init__.py:170-180 | When main RAM spans the geometry, the range holds exactly the bytes whose decoded row lies between the smallest and the largest row. |
| `Histograms.BitStringCounts` | rowhammer_tester/scripts/playbook/payload_generators/hammer_tolerance.py:131-133 | The ones in the 512-digit string are the set bits of the difference. |
| `Histograms.BitStringBits` | rowhammer_tester/scripts/playbook/payload_generators/hammer_tolerance.py:131-133 | Digit i of the string is bit i of the difference. |
| `Histograms.FullBeatIff` | rowhammer_tester/scripts/playbook/payload_generators/hammer_tolerance.py:136-138 | The assertion on a beat fails exactly when each of its 64 bits is flipped. |
| `Histograms.SumsAgree` | rowhammer_tester/scripts/playbook/payload_generators/hammer_tolerance.py:144-157 | Counting flips by chip over all beats and by beat over all chips gives the same total. |
| `Histograms.ExtractBits` | rowhammer_tester/scripts/playbook/payload_generators/hammer_tolerance.py:80-87 | The loop joins the groups of bits at the given stride, clipped at the end of the string. |
| `Histograms.ExtractedCounts` | rowhammer_tester/scripts/playbook/payload_generators/hammer_tolerance.py:153-155 | The bits extracted for a chip are its bits of all beats. |
| `HammerStats.Stats.CountBeat` | rowhammer_tester/scripts/playbook/payload_generators/hammer_tolerance.py:136-148 | A beat counts its number of flips in the beat histogram and the number of each chip in that chip's own histogram, nothing else; the weights grow by the flips. |
| `HammerStats.Stats.CountChips` | rowhammer_tester/scripts/playbook/payload_generators/hammer_tolerance.py:153-157 | A read counts the number of flips of each chip in that chip's own histogram. |
| `HammerStats.Stats.CountError` | rowhammer_tester/scripts/playbook/payload_generators/hammer_tolerance.py:130-158 | One error adds its flips to all four counts, less those in bits of no chip for the per-chip ones; it fails exactly on a beat with all bits flipped. |
| `HammerStats.Stats.GatherFullStats` | rowhammer_tester/scripts/playbook/payload_generators/hammer_tolerance.py:128-158 | Key by key: each entry n grows by the number of beats with n flips, for each chip by the pairs of an error and a beat in which it has n flips, per read by the errors in which it has n. Conservation: over any list of errors, bit count and weighted beat histogram grow by the total popcount of value xor expected, the per-chip histograms by the same less the flips in bits of no chip; it fails exactly on a difference over 512 bits or a full beat. |
| `Histograms.NoFlipsLost` | rowhammer_tester/scripts/playbook/payload_generators/hammer_tolerance.py:129-157 | No flips are lost when the number of chips divides 64, so that all four totals are equal. |
| `Histograms.LastBitLost` | rowhammer_tester/scripts/playbook/payload_generators/hammer_tolerance.py:129-157 | For every other number of chips, a read whose only flip is bit 63 passes the assertions and loses exactly that flip. |
| `Histograms.NothingLostIff` | rowhammer_tester/scripts/playbook/payload_generators/hammer_tolerance.py:129-157 | No list of errors loses a flip if and only if the number of chips divides 64. |

## Left out

- LiteX, LiteDRAM and migen internals: the DMA is an in-order queue with arbitrary handshakes, the address FIFO a
  bounded sequence, the error FIFO a sequence with arbitrary handshakes, a memory read out of range gives 0; the
  scratchpad, the read data path, DDR5 refresh detection, ZQC after refresh and the refresher itself are not modelled.
- DFI phases: only the phase that carries ACT, PRE and REF is modelled, not the separate read phase.
- Targets, clocking, build scripts, firmware, plotting, logs, SPD decoding and host I/O (`execute_payload`,
  `hw_memset`, `hw_memtest`), with all console output.
- The `get_payload` wrappers of the playbook generators, which omit the rank arguments; bank, rank and geometry are
  parameters of the compiler model.
- `generate_idle_payload`: its count of 8191 does not fit the loop field and a zero remainder is a STOP, so it would
  add side conditions only.
- `ceil` on floating point in the loop split is integer ceiling division.
- `chips_with_errors_per_beat`: its counter is incremented for every chip, so no conservation law holds of it.
- VerifyPayload.Verify: inputs on which the original never returns are excluded; `VerifyPayload.ReturnsIff` says which
  those are. Only the DDR3 instance is modelled; the DDR4 one has the same loop.
- VerifyPayload.Interpret: likewise for payloads on which it never returns.
- TimingSafe.BusPassesChecker: reads precharge-all as a precharge of the hammered bank, since the checker has no
  precharge-all.
- Ddr4.BankGroup.Execute: the group holds the dictionaries of its banks as values, not as separate objects.
- BistReader.ErrorsConserved: the 32-bit counters are unbounded here, which is the same as long as `count` itself fits
  32 bits.
- BistReader.SkippedErrorsOnlyCounted: `skip_fifo` is fixed during a session, as are all configuration registers.
- BistProgress.ReaderFinishes: with a DMA and a user that are always ready; slower ones are covered by the safety
  results only.
- HalfDouble.Generator.ProcessErrors: gets the victim's entry among the row errors; the mapping of physical to logical
  rows that selects it is not modelled.
- HalfDouble.Analyse: for a multiplier of at least 2, an initial dilution and a read-count step of at least 1; for other
  parameters termination is not claimed.
- HammerStats.Stats.GatherFullStats: the statistics of one step; what partial counts remain after a failed assertion is
  not stated.
