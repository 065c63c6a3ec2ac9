/** Whole sessions of the tester: the executor, the switch and the refresh counter from
    power-on, under any start strobes and any memory controller, with a payload in memory. */
module Session {
  import opened Isa
  import opened Loops
  import opened Executor
  import opened CycleCount
  import opened Handover
  import opened Compiler
  import opened EndToEnd

  // ---------------------------------------------------------------- one run

  /** One more clock. */
  lemma NextCycle(mem: seq<nat>, r: Regs, k: nat)
    requires |mem| >= 2
    ensures Cycles(mem, r, k + 1) == Clock(mem, Cycles(mem, r, k), false, true)
    ensures Issued(mem, r, 0, k + 1)
         == Issued(mem, r, 0, k) + if Issues(Cycles(mem, r, k)) then [Event(k, Cycles(mem, r, k).instr)] else []
  {
    hide Clock, Issues;
    CyclesPlus(mem, r, 0, k, 1);
    var r1 := Cycles(mem, r, k);
    assert Cycles(mem, r1, 1) == Cycles(mem, Clock(mem, r1, false, true), 0);
    assert Issued(mem, r1, k, 1)
        == (if Issues(r1) then [Event(k, r1.instr)] else []) + Issued(mem, Clock(mem, r1, false, true), k + 1, 0);
  }

  /** In RUN and IDLE the inputs do not matter; in WAIT-DFI the grant does. */
  lemma InputsIgnored(mem: seq<nat>, r: Regs, start: bool, dfiReady: bool)
    requires |mem| >= 2 && (r.fsm == RUN || r.fsm == IDLE || (r.fsm == WAIT_DFI && dfiReady))
    ensures Clock(mem, r, start, dfiReady) == Clock(mem, r, false, true)
  {
    hide RunNext, PcRange, Fetch;
  }

  lemma WaitLosesDfi(c: Config, r: Regs)
    requires |c.mem| >= 2 && WaitsOnLastWord(c, r)
    ensures var next := Clock(c.mem, r, false, true); next.fsm == IDLE && !next.wantsDfi
  {
    hide Decode, PcRange, Fetch;
  }

  /** The payload never waits on the last word, even if it fills the memory. */
  lemma NoLastWordWait(c: Config, prog: seq<Spec>, r: Regs, k: nat)
    requires Stored(c.mem, prog) && Waiting(r) && 1 <= k < Busy(prog)
    ensures !WaitsOnLastWord(c, Cycles(c.mem, r, k))
  {
    hide Clock, Loaded, Executed, Length, Shapes, NonNested, Encode, WaitsOnLastWord, Cycles;
    RunsToStop(c.mem, prog, r);
    NextCycle(c.mem, r, k);
    if WaitsOnLastWord(c, Cycles(c.mem, r, k)) {
      WaitLosesDfi(c, Cycles(c.mem, r, k));
      if k + 1 < Busy(prog) { BusyMeans(c.mem, prog, r, k + 1); }
    }
  }

  // ---------------------------------------------------------------- all runs

  /** The executor between runs, waiting for the bus, or somewhere in a run of the payload. */
  ghost predicate InSession(mem: seq<nat>, prog: seq<Spec>, r: Regs)
    requires Stored(mem, prog)
  {
    || (r.fsm == READY && r.loop == 0 && !r.wantsDfi)
    || Waiting(r)
    || exists r0, k: nat :: Waiting(r0) && 1 <= k < Busy(prog) && r == Cycles(mem, r0, k)
  }

  lemma BetweenRuns(c: Config, prog: seq<Spec>, s: System, i: Input)
    requires Stored(c.mem, prog) && Safe(s)
    requires (s.exec.fsm == READY && s.exec.loop == 0) || Waiting(s.exec)
    ensures InSession(c.mem, prog, Step(c, s, i).exec) && !WaitsOnLastWord(c, s.exec)
  {
    hide RunNext, PcRange, Loaded, NonNested, Shapes, Cycles, Drive;
    var r := s.exec;
    if r.fsm == WAIT_DFI && s.owner == PAYLOAD_EXECUTION {
      InputsIgnored(c.mem, r, i.start, true);
      NextCycle(c.mem, r, 0);
      CyclesZero(c.mem, r, 0);
      assert Step(c, s, i).exec == Cycles(c.mem, r, 1);
    }
  }

  lemma DuringRun(c: Config, prog: seq<Spec>, s: System, i: Input, r0: Regs, k: nat)
    requires Stored(c.mem, prog) && Waiting(r0) && 1 <= k < Busy(prog) && s.exec == Cycles(c.mem, r0, k)
    ensures Step(c, s, i).exec == Cycles(c.mem, r0, k + 1)
    ensures InSession(c.mem, prog, Step(c, s, i).exec) && !WaitsOnLastWord(c, s.exec)
  {
    hide Clock, Cycles, Loaded, Executed, Length, Shapes, NonNested, Encode, Drive, WaitsOnLastWord, Issues;
    BusyMeans(c.mem, prog, r0, k);
    NoLastWordWait(c, prog, r0, k);
    InputsIgnored(c.mem, s.exec, i.start, s.owner == PAYLOAD_EXECUTION);
    NextCycle(c.mem, r0, k);
    if k + 1 == Busy(prog) { RunsToStop(c.mem, prog, r0); }
  }

  /** From power-on, whatever is strobed and whatever the memory controller does: handover is safe, and
      the executor is always at a defined point of a run, begun with the loop counter at 0. */
  lemma {:induction false} AlwaysInSession(c: Config, prog: seq<Spec>, inputs: seq<Input>)
    requires Stored(c.mem, prog)
    ensures Safe(Run(c, inputs)) && InSession(c.mem, prog, Run(c, inputs).exec)
    decreases |inputs|
  {
    hide Loaded, NonNested, Shapes, Step, Safe, InSession, WaitsOnLastWord;
    if inputs == [] {
      PowerOnSafe();
      PowerOnInSession(c.mem, prog);
    } else {
      var front, i := inputs[..|inputs| - 1], inputs[|inputs| - 1];
      AlwaysInSession(c, prog, front);
      SessionStep(c, prog, Run(c, front), i);
      StepSafe(c, Run(c, front), i);
    }
  }

  lemma PowerOnInSession(mem: seq<nat>, prog: seq<Spec>)
    requires Stored(mem, prog)
    ensures InSession(mem, prog, PowerOn.exec)
  {
  }

  lemma SessionStep(c: Config, prog: seq<Spec>, s: System, i: Input)
    requires Stored(c.mem, prog) && Safe(s) && InSession(c.mem, prog, s.exec)
    ensures InSession(c.mem, prog, Step(c, s, i).exec) && !WaitsOnLastWord(c, s.exec)
  {
    hide Loaded, NonNested, Shapes, Step, Safe, WaitsOnLastWord, Cycles, Busy;
    if s.exec.fsm == READY || Waiting(s.exec) {
      if s.exec.fsm == READY { NotReadyInRun(c.mem, prog, s.exec); }
      BetweenRuns(c, prog, s, i);
    } else {
      var r0, k: nat :| Waiting(r0) && 1 <= k < Busy(prog) && s.exec == Cycles(c.mem, r0, k);
      DuringRun(c, prog, s, i, r0, k);
    }
  }

  lemma NotReadyInRun(mem: seq<nat>, prog: seq<Spec>, r: Regs)
    requires Stored(mem, prog) && InSession(mem, prog, r) && r.fsm == READY
    ensures r.loop == 0
  {
    hide Loaded, NonNested, Shapes, Cycles, Busy;
    if !(r.loop == 0 && !r.wantsDfi) {
      var r0, k: nat :| Waiting(r0) && 1 <= k < Busy(prog) && r == Cycles(mem, r0, k);
      BusyMeans(mem, prog, r0, k);
    }
  }

  // ---------------------------------------------------------------- on the bus

  /** The words that the DRAM gets from the executor after input number `since`, stamped from there. */
  function Bus(c: Config, inputs: seq<Input>, since: nat): seq<Event>
    requires |c.mem| >= 2
    decreases |inputs|
  {
    if |inputs| <= since then []
    else
      var s := Run(c, inputs);
      Bus(c, inputs[..|inputs| - 1], since)
      + if s.owner == PAYLOAD_EXECUTION && s.sent != [] then [Event(|inputs| - 1 - since, s.sent[0])] else []
  }

  /** The state of the system `k` clocks after the grant. */
  ghost predicate AfterGrant(c: Config, inputs: seq<Input>, more: seq<Input>, k: nat)
    requires |c.mem| >= 2 && k <= |more|
  {
    var r, s := Run(c, inputs).exec, Run(c, inputs + more[..k]);
    && s.exec == Cycles(c.mem, r, k) && s.owner == PAYLOAD_EXECUTION
    && Bus(c, inputs + more[..k], |inputs|) == Issued(c.mem, r, 0, k)
    && (k > 0 ==> forall i :: Master(s, i) == Drive(c.nranks, Cycles(c.mem, r, k - 1)))
  }

  lemma {:induction false} GrantKeeps(c: Config, prog: seq<Spec>, inputs: seq<Input>, more: seq<Input>, k: nat)
    requires Stored(c.mem, prog) && k <= |more| == Busy(prog)
    requires Waiting(Run(c, inputs).exec) && Run(c, inputs).owner == PAYLOAD_EXECUTION
    ensures AfterGrant(c, inputs, more, k)
    decreases k
  {
    hide Clock, Cycles, Loaded, NonNested, Shapes, Drive, Run, Issues, Busy, Issued, Step;
    var r := Run(c, inputs).exec;
    if k == 0 {
      assert inputs + more[..0] == inputs;
      CyclesZero(c.mem, r, 0);
    } else {
      GrantKeeps(c, prog, inputs, more, k - 1);
      var before, i := inputs + more[..k - 1], more[k - 1];
      assert inputs + more[..k] == before + [i] && (before + [i])[..|before|] == before;
      RunSnoc(c, before, i);
      NextCycle(c.mem, r, k - 1);
      StillGranted(c, prog, Run(c, before), i, r, k - 1);
    }
  }

  lemma StillGranted(c: Config, prog: seq<Spec>, s: System, i: Input, r: Regs, k: nat)
    requires Stored(c.mem, prog) && Waiting(r) && k < Busy(prog)
    requires s.exec == Cycles(c.mem, r, k) && s.owner == PAYLOAD_EXECUTION
    ensures var s' := Step(c, s, i);
            && s'.exec == Cycles(c.mem, r, k + 1) && s'.owner == PAYLOAD_EXECUTION
            && s'.sent == (if Issues(s.exec) then [s.exec.instr] else [])
            && forall i' :: Master(s', i') == Drive(c.nranks, s.exec)
  {
    hide Clock, Cycles, Loaded, NonNested, Shapes, Drive, Issues, Busy;
    NextCycle(c.mem, r, k);
    if k == 0 {
      CyclesZero(c.mem, r, 0);
    } else {
      BusyMeans(c.mem, prog, r, k);
    }
    InputsIgnored(c.mem, s.exec, i.start, true);
  }

  /** A whole run, from power-on, under any inputs: each time the bus is granted, the DRAM gets exactly
      the commands of the unrolled payload, each in its cycle, and then STOP; the executor owns the bus
      throughout and is back in READY. */
  lemma SessionOnBus(c: Config, prog: seq<Spec>, inputs: seq<Input>, more: seq<Input>)
    requires Stored(c.mem, prog) && |more| == Busy(prog)
    requires Run(c, inputs).exec.fsm == WAIT_DFI && Run(c, inputs).owner == PAYLOAD_EXECUTION
    ensures Bus(c, inputs + more, |inputs|)
         == Executor.Commands(Executed(prog), 1) + [Event(Busy(prog) - 1, Encode(Noop(0)))]
    ensures Run(c, inputs + more).exec.fsm == READY
    ensures forall k :: 0 <= k <= |more| ==> AfterGrant(c, inputs, more, k)
  {
    hide Cycles, Run, Bus, Executed, Length, Encode, Issued, Executor.Commands, AfterGrant, Loaded, NonNested, Shapes;
    var r := Run(c, inputs).exec;
    assert Waiting(r) by { WaitsClean(c, prog, inputs); }
    RunsToStop(c.mem, prog, r);
    forall k | 0 <= k <= |more| ensures AfterGrant(c, inputs, more, k) { GrantKeeps(c, prog, inputs, more, k); }
    assert more[..|more|] == more;
    AtEnd(c, inputs, more);
  }

  lemma AtEnd(c: Config, inputs: seq<Input>, more: seq<Input>)
    requires |c.mem| >= 2 && AfterGrant(c, inputs, more, |more|)
    ensures Run(c, inputs + more).exec == Cycles(c.mem, Run(c, inputs).exec, |more|)
    ensures Bus(c, inputs + more, |inputs|) == Issued(c.mem, Run(c, inputs).exec, 0, |more|)
  {
    hide Run, Bus, Cycles, Issued;
    assert more[..|more|] == more;
  }

  /** Every run begins with the loop counter at 0. */
  lemma WaitsClean(c: Config, prog: seq<Spec>, inputs: seq<Input>)
    requires Stored(c.mem, prog) && Run(c, inputs).exec.fsm == WAIT_DFI
    ensures Waiting(Run(c, inputs).exec)
  {
    hide Loaded, NonNested, Shapes, Run, Cycles, Busy, Safe;
    AlwaysInSession(c, prog, inputs);
    var r := Run(c, inputs).exec;
    if !Waiting(r) {
      var r0, k: nat :| Waiting(r0) && 1 <= k < Busy(prog) && r == Cycles(c.mem, r0, k);
      BusyMeans(c.mem, prog, r0, k);
    }
  }

  /** After its run the executor gives the bus back. */
  lemma BusGoesBack(c: Config, prog: seq<Spec>, inputs: seq<Input>, i: Input)
    requires Stored(c.mem, prog) && Run(c, inputs).exec.fsm == READY
    ensures Run(c, inputs + [i]).owner == MEMORY_CONTROLLER
  {
    hide Loaded, NonNested, Shapes, Run, InSession, Step;
    AlwaysInSession(c, prog, inputs);
    RunSnoc(c, inputs, i);
    ReadyReleases(c, Run(c, inputs), i);
  }

  lemma ReadyReleases(c: Config, s: System, i: Input)
    requires |c.mem| >= 2 && Safe(s) && s.exec.fsm == READY
    ensures Step(c, s, i).owner == MEMORY_CONTROLLER
    ensures i.start ==> Step(c, s, i).exec.fsm == WAIT_DFI
  {
    hide Drive, Fetch;
  }

  // ---------------------------------------------------------------- from start to grant

  lemma StillWaiting(c: Config, s: System, i: Input)
    requires |c.mem| >= 2 && s.exec.fsm == WAIT_DFI && s.owner == MEMORY_CONTROLLER
    ensures Step(c, s, i).exec.fsm == WAIT_DFI
  {
    hide Drive, Fetch;
  }

  /** Waiting for the bus, through cycles that do not grant it. */
  ghost predicate NotGranted(c: Config, inputs: seq<Input>, quiet: seq<Input>)
    requires |c.mem| >= 2
  {
    forall k :: 0 <= k < |quiet| ==> !Grants(c, inputs + quiet[..k], quiet[k])
  }

  lemma {:induction false} WaitsQuietly(c: Config, prog: seq<Spec>, inputs: seq<Input>, quiet: seq<Input>, k: nat)
    requires Stored(c.mem, prog) && c.atRefresh < 0x1_0000_0000 && NotGranted(c, inputs, quiet) && k <= |quiet|
    requires Run(c, inputs).exec.fsm == WAIT_DFI && Run(c, inputs).owner == MEMORY_CONTROLLER
    ensures var s := Run(c, inputs + quiet[..k]); s.exec.fsm == WAIT_DFI && s.owner == MEMORY_CONTROLLER
    decreases k
  {
    hide Loaded, NonNested, Shapes, Run, Step, Grants;
    if k == 0 {
      assert inputs + quiet[..0] == inputs;
    } else {
      WaitsQuietly(c, prog, inputs, quiet, k - 1);
      var before, i := inputs + quiet[..k - 1], quiet[k - 1];
      assert inputs + quiet[..k] == before + [i];
      HandsOverIff(c, before, i);
      RunSnoc(c, before, i);
      StillWaiting(c, Run(c, before), i);
    }
  }

  /** A start strobe runs the payload: from READY the executor waits through every cycle that does not grant
      the bus, has it after the first one that does, is in RUN one cycle later, and then the DRAM gets the
      whole payload. */
  lemma StartRunsPayload(c: Config, prog: seq<Spec>, inputs: seq<Input>, start: Input, quiet: seq<Input>, grant: Input,
                         more: seq<Input>)
    requires Stored(c.mem, prog) && c.atRefresh < 0x1_0000_0000
    requires Run(c, inputs).exec.fsm == READY && start.start && |more| == Busy(prog)
    requires NotGranted(c, inputs + [start], quiet) && Grants(c, inputs + [start] + quiet, grant)
    ensures var waiting := Run(c, inputs + [start] + quiet);
            waiting.exec.fsm == WAIT_DFI && waiting.owner == MEMORY_CONTROLLER
    ensures var granted := inputs + [start] + quiet + [grant];
            && Run(c, granted).exec.fsm == WAIT_DFI && Run(c, granted).owner == PAYLOAD_EXECUTION
            && Run(c, granted + more[..1]).exec.fsm == RUN
            && Bus(c, granted + more, |granted|)
               == Executor.Commands(Executed(prog), 1) + [Event(Busy(prog) - 1, Encode(Noop(0)))]
            && Run(c, granted + more).exec.fsm == READY
  {
    hide Loaded, NonNested, Shapes, Run, Step, Grants, Bus, Executed, Length, Encode, Executor.Commands, Safe,
         InSession, NotGranted, Cycles, Issued;
    AlwaysInSession(c, prog, inputs);
    RunSnoc(c, inputs, start);
    ReadyReleases(c, Run(c, inputs), start);
    var begun := inputs + [start];
    WaitsQuietly(c, prog, begun, quiet, |quiet|);
    assert quiet[..|quiet|] == quiet;
    var waited := begun + quiet;
    WaitsClean(c, prog, waited);
    HandsOverIff(c, waited, grant);
    RunSnoc(c, waited, grant);
    StillWaiting(c, Run(c, waited), grant);
    SessionOnBus(c, prog, waited + [grant], more);
    WaitsClean(c, prog, waited + [grant]);
    assert AfterGrant(c, waited + [grant], more, 1);
    GrantedRuns(c.mem, Run(c, waited + [grant]).exec);
  }

  lemma GrantedRuns(mem: seq<nat>, r: Regs)
    requires |mem| >= 2 && r.fsm == WAIT_DFI
    ensures Cycles(mem, r, 1).fsm == RUN
  {
    hide PcRange, Fetch;
    assert Cycles(mem, r, 1) == Cycles(mem, Clock(mem, r, false, true), 0);
  }

  /** The default setting: with refresh on and no refresh number, the first refresh of the controller after the
      start grants the bus. */
  lemma FirstRefreshGrants(c: Config, inputs: seq<Input>, quiet: seq<Input>, grant: Input)
    requires |c.mem| >= 2 && c.withRefresh && c.atRefresh == 0
    requires (forall k :: 0 <= k < |quiet| ==> quiet[k].controller != REFRESH) && grant.controller == REFRESH
    ensures NotGranted(c, inputs, quiet) && Grants(c, inputs + quiet, grant)
  {
    hide Refreshes;
  }

  /** From the row list to the DRAM: with a generated payload in memory, each time the bus is granted the
      activations and precharges on it are the row sequence, `readCount` times over. */
  lemma EveryGrantHammersRows(j: Job, rows: seq<nat>, readCount: nat, repetitions: nat, c: Config,
                              inputs: seq<Input>, more: seq<Input>)
    requires FieldsFit(j, rows) && JumpsFit(j, rows, readCount, repetitions)
    requires InMemory(c.mem, Program(j, rows, readCount, repetitions) + [Noop(0)])
    requires Run(c, inputs).exec.fsm == WAIT_DFI && Run(c, inputs).owner == PAYLOAD_EXECUTION
    ensures WellFormed(Program(j, rows, readCount, repetitions))
    ensures |more| == Busy(Program(j, rows, readCount, repetitions)) ==>
              BusHammers(j.g, Bus(c, inputs + more, |inputs|)) == RowPins(j, Repeat(rows, readCount))
  {
    hide Encode, Program, JumpFits, Executed, Cycles, Issued, Length, BusHammers, RowPins, Repeat, Loaded, FieldsFit,
         NonNested, Run, Bus, Executor.Commands, AfterGrant;
    var prog := Program(j, rows, readCount, repetitions);
    Timed(j, rows);
    ProgramWellFormed(j, rows, readCount, repetitions);
    if |more| == Busy(prog) {
      PayloadIsLoaded(j, rows, readCount, repetitions, c.mem);
      SessionOnBus(c, prog, inputs, more);
      BusOfRun(j, rows, readCount, repetitions, Busy(prog) - 1);
    }
  }
}
