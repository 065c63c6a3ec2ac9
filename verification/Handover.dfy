/** The executor together with the DFI switch, the DFI output registers and the refresh
    counter: who drives the DRAM bus, and when it changes hands. */
module Handover {
  import opened Bits
  import opened Isa
  import opened Executor

  datatype Owner = MEMORY_CONTROLLER | PAYLOAD_EXECUTION

  /** Phase 0 of a DFI interface; `selected` when cs_n is 0 for all ranks. Signals are active low. */
  datatype Phase = Phase(selected: bool, casN: bool, rasN: bool, weN: bool)

  const INACTIVE := Phase(false, true, true, true)

  /** `RefreshCounter.refresh` for every memory type but DDR5. */
  predicate IsRefresh(p: Phase) {
    p.selected && !p.casN && !p.rasN && p.weN
  }

  /** What `DFIExecutor` registers for phase 0: the command of the decoder while `exec` is high, on
      phase 0 unless it is a READ. */
  function Drive(nranks: nat, r: Regs): Phase {
    var d := Decode(r.instr);
    if !Issues(r) || (d.cas && !d.ras && !d.we) then INACTIVE
    else Phase(if d.opCode == Code(NOOP) then false else d.opCode == Code(REF) || nranks == 1, !d.cas, !d.ras, !d.we)
  }

  /** The refresh counter recognises exactly the REF instructions of the executor. */
  lemma RefreshIsRef(nranks: nat, r: Regs)
    ensures IsRefresh(Drive(nranks, r)) <==> r.fsm == RUN && Decode(r.instr).opCode == Code(REF)
  {
    hide Decode;
    OpCodePins(Decode(r.instr).opCode);
  }

  /** Only the op code of REF has ras and cas without we. */
  lemma OpCodePins(op: nat)
    requires op < 8
    ensures op / 2 % 2 == 1 && op / 4 % 2 == 1 && op % 2 == 0 <==> op == Code(REF)
  {
  }

  /** All registers; `sent` remembers the word behind the DFI output registers. */
  datatype System = System(exec: Regs, owner: Owner, counter: nat, dfi: Phase, sent: seq<nat>)

  /** Inputs of a cycle: the start strobe and what the memory controller drives on phase 0. */
  datatype Input = Input(start: bool, controller: Phase)

  /** Configuration that does not change during a run. */
  datatype Config = Config(mem: seq<nat>, nranks: nat, withRefresh: bool, atRefresh: nat)

  /** The phase the DRAM sees: the executor's while `ext_dfi_sel` is high. */
  function Master(s: System, i: Input): Phase {
    if s.owner == PAYLOAD_EXECUTION then s.dfi else i.controller
  }

  predicate RefreshMatches(c: Config, counter: nat) {
    c.atRefresh == 0 || c.atRefresh == counter + 1
  }

  function NextOwner(c: Config, owner: Owner, wantsDfi: bool, refresh: bool, counter: nat): Owner {
    match owner
    case MEMORY_CONTROLLER =>
      if wantsDfi && (c.withRefresh ==> refresh && RefreshMatches(c, counter)) then PAYLOAD_EXECUTION else owner
    case PAYLOAD_EXECUTION => if wantsDfi then owner else MEMORY_CONTROLLER
  }

  /** One clock of everything. */
  function Step(c: Config, s: System, i: Input): System
    requires |c.mem| >= 2
  {
    var refresh := IsRefresh(Master(s, i));
    System(Clock(c.mem, s.exec, i.start, s.owner == PAYLOAD_EXECUTION),
           NextOwner(c, s.owner, s.exec.wantsDfi, refresh, s.counter),
           if refresh then (s.counter + 1) % 0x1_0000_0000 else s.counter,
           Drive(c.nranks, s.exec),
           if Issues(s.exec) then [s.exec.instr] else [])
  }

  /** `DFISwitch` and its `RefreshCounter` as registers. */
  class DfiSwitch {
    const config: Config
    var owner: Owner
    var counter: nat

    constructor (config: Config)
      ensures this.config == config && owner == MEMORY_CONTROLLER && counter == 0
    {
      this.config, owner, counter := config, MEMORY_CONTROLLER, 0;
    }

    /** One cycle: grants, selects and resets as the two states describe. */
    method Tick(wantsDfi: bool, master: Phase) returns (dfiReady: bool, refresherReset: bool)
      modifies this
      ensures dfiReady == (old(owner) == PAYLOAD_EXECUTION)
      ensures refresherReset == (old(owner) == PAYLOAD_EXECUTION && !wantsDfi)
      ensures owner == NextOwner(config, old(owner), wantsDfi, IsRefresh(master), old(counter))
      ensures counter == if IsRefresh(master) then (old(counter) + 1) % 0x1_0000_0000 else old(counter)
    {
      dfiReady, refresherReset := false, false;
      var refresh := IsRefresh(master);
      var matches := config.atRefresh == 0 || config.atRefresh == counter + 1;
      if owner == MEMORY_CONTROLLER {
        if wantsDfi {
          if config.withRefresh {
            if refresh && matches {
              owner := PAYLOAD_EXECUTION;
            }
          } else {
            owner := PAYLOAD_EXECUTION;
          }
        }
      } else {
        dfiReady := true;
        if !wantsDfi {
          refresherReset := true;
          owner := MEMORY_CONTROLLER;
        }
      }
      if refresh {
        counter := (counter + 1) % 0x1_0000_0000;
      }
    }
  }

  // ---------------------------------------------------------------- safety

  /** The executor asks for the DFI while it is busy, runs only while it owns it, and a command sits in
      the output registers only while they are connected to the DRAM. */
  ghost predicate Safe(s: System) {
    && (s.exec.fsm == READY <==> !s.exec.wantsDfi)
    && (s.exec.fsm == RUN || s.exec.fsm == IDLE ==> s.owner == PAYLOAD_EXECUTION)
    && (s.sent != [] ==> s.owner == PAYLOAD_EXECUTION)
    && (s.dfi != INACTIVE ==> s.sent != [])
    && s.counter < 0x1_0000_0000
  }

  const PowerOn := System(Regs(READY, 0, 0, 0, 0, false), MEMORY_CONTROLLER, 0, INACTIVE, [])

  /** The executor is about to wait on the last word of its memory: it gives the DFI back and stays busy. */
  predicate WaitsOnLastWord(c: Config, r: Regs) {
    r.fsm == RUN && r.pc == |c.mem| - 1 && Decode(r.instr).opCode != Code(LOOP) && Decode(r.instr).timeslice >= 2
  }

  lemma StepSafe(c: Config, s: System, i: Input)
    requires |c.mem| >= 2 && Safe(s)
    ensures Safe(Step(c, s, i)) <==> !WaitsOnLastWord(c, s.exec)
  {
    hide Decode, PcRange, Fetch;
    var d := Decode(s.exec.instr);
    var range := PcRange(|c.mem|);
    if s.exec.fsm == RUN {
      RunNextFsm(|c.mem|, range, s.exec, d);
      StopIsShort(s.exec.instr);
    }
  }

  lemma RunNextFsm(depth: nat, range: nat, r: Regs, d: Decoded)
    requires range > 0 && r.fsm == RUN
    ensures var next := RunNext(depth, range, r, d).0;
            var done := r.pc == depth - 1 || d.stop;
            && next.wantsDfi == (r.wantsDfi && !done)
            && next.fsm == if d.opCode != Code(LOOP) && d.timeslice >= 2 then IDLE else if done then READY else RUN
  {
  }

  lemma StopIsShort(word: nat)
    ensures Decode(word).stop ==> Decode(word).timeslice == 0
  {
  }

  // ---------------------------------------------------------------- runs

  function Run(c: Config, inputs: seq<Input>): System
    requires |c.mem| >= 2
  {
    if inputs == [] then PowerOn else Step(c, Run(c, inputs[..|inputs| - 1]), inputs[|inputs| - 1])
  }

  /** Handover safety: from power-on, for every start strobe and everything the memory controller does,
      the system is safe until the executor waits on the last word of its memory. */
  lemma {:induction false} RunsSafe(c: Config, inputs: seq<Input>)
    requires |c.mem| >= 2
    requires forall n :: 0 <= n < |inputs| ==> !WaitsOnLastWord(c, Run(c, inputs[..n]).exec)
    ensures Safe(Run(c, inputs))
    decreases |inputs|
  {
    hide Step, WaitsOnLastWord;
    if inputs == [] {
      PowerOnSafe();
    } else {
      var front := inputs[..|inputs| - 1];
      forall n | 0 <= n < |front| ensures !WaitsOnLastWord(c, Run(c, front[..n]).exec) {
        assert front[..n] == inputs[..n];
      }
      RunsSafe(c, front);
      StepSafe(c, Run(c, front), inputs[|inputs| - 1]);
    }
  }

  lemma PowerOnSafe()
    ensures Safe(PowerOn)
  {
  }

  /** In every reachable state, whatever the memory holds and whoever strobes start, the word that RUN
      executes is the memory at the program counter. */
  lemma {:induction false} AlwaysFetched(c: Config, inputs: seq<Input>)
    requires |c.mem| >= 2
    ensures Fetched(c.mem, Run(c, inputs).exec)
    decreases |inputs|
  {
    hide Fetched, Clock;
    if inputs == [] {
      PowerOnFetched(c.mem);
    } else {
      var s, i := Run(c, inputs[..|inputs| - 1]), inputs[|inputs| - 1];
      AlwaysFetched(c, inputs[..|inputs| - 1]);
      ClockFetches(c.mem, s.exec, i.start, s.owner == PAYLOAD_EXECUTION);
    }
  }

  lemma PowerOnFetched(mem: seq<nat>)
    requires |mem| >= 2
    ensures Fetched(mem, PowerOn.exec)
  {
  }

  /** The last word of the memory does not wait, or the program counter is too narrow to get there. */
  predicate LastWordShort(mem: seq<nat>)
    requires |mem| >= 2
  {
    var d := Decode(mem[|mem| - 1]);
    PcRange(|mem|) < |mem| || d.opCode == Code(LOOP) || d.timeslice <= 1
  }

  /** Handover safety from the memory contents alone: a last word that does not wait makes every run safe. */
  lemma ShortLastWordIsSafe(c: Config, inputs: seq<Input>)
    requires |c.mem| >= 2 && LastWordShort(c.mem)
    ensures Safe(Run(c, inputs))
  {
    hide Run, LastWordShort, WaitsOnLastWord, Safe, Fetched;
    forall n | 0 <= n < |inputs| ensures !WaitsOnLastWord(c, Run(c, inputs[..n]).exec) {
      AlwaysFetched(c, inputs[..n]);
      ShortDoesNotWait(c, Run(c, inputs[..n]).exec);
    }
    RunsSafe(c, inputs);
  }

  lemma ShortDoesNotWait(c: Config, r: Regs)
    requires |c.mem| >= 2 && LastWordShort(c.mem) && Fetched(c.mem, r)
    ensures !WaitsOnLastWord(c, r)
  {
    hide Decode, PcRange, Pow2;
  }

  /** Every command the executor sends is in the output registers one cycle later, and connected. */
  lemma CommandsReachTheBus(c: Config, s: System, i: Input)
    requires |c.mem| >= 2 && Safe(s) && Issues(s.exec)
    ensures var s' := Step(c, s, i);
            && s'.sent == [s.exec.instr] && s'.owner == PAYLOAD_EXECUTION
            && forall i' :: Master(s', i') == Drive(c.nranks, s.exec)
  {
    hide Clock, Drive;
  }

  /** With refresh on, the bus changes hands only in a cycle with a refresh; if a refresh number is
      configured, that refresh brings the counter to it. */
  lemma HandsOverOnRefresh(c: Config, s: System, i: Input)
    requires |c.mem| >= 2 && c.withRefresh && c.atRefresh < 0x1_0000_0000
    requires s.owner == MEMORY_CONTROLLER && Step(c, s, i).owner == PAYLOAD_EXECUTION
    ensures s.exec.wantsDfi && IsRefresh(i.controller)
    ensures c.atRefresh != 0 ==> Step(c, s, i).counter == c.atRefresh
  {
    hide Clock, Drive;
  }

  /** Refreshes the DRAM has seen, whoever sent them. */
  function Refreshes(c: Config, inputs: seq<Input>): nat
    requires |c.mem| >= 2
  {
    if inputs == [] then 0
    else
      var front := inputs[..|inputs| - 1];
      Refreshes(c, front) + if IsRefresh(Master(Run(c, front), inputs[|inputs| - 1])) then 1 else 0
  }

  lemma {:induction false} CounterCounts(c: Config, inputs: seq<Input>)
    requires |c.mem| >= 2
    ensures Run(c, inputs).counter == Refreshes(c, inputs) % 0x1_0000_0000
    decreases |inputs|
  {
    hide Clock, Drive, NextOwner, IsRefresh, Master;
    if inputs != [] {
      CounterCounts(c, inputs[..|inputs| - 1]);
      ModPlusOne(Refreshes(c, inputs[..|inputs| - 1]));
    }
  }

  lemma ModPlusOne(n: nat)
    ensures (n % 0x1_0000_0000 + 1) % 0x1_0000_0000 == (n + 1) % 0x1_0000_0000
  {
  }

  /** In every safe run that reaches the handover cycle with a refresh number configured, exactly that
      many refreshes (modulo the counter's 32 bits) have been seen when the executor takes over. */
  lemma TakesOverAtRefreshNumber(c: Config, inputs: seq<Input>, i: Input)
    requires |c.mem| >= 2 && c.withRefresh && 0 < c.atRefresh < 0x1_0000_0000
    requires Run(c, inputs).owner == MEMORY_CONTROLLER && Run(c, inputs + [i]).owner == PAYLOAD_EXECUTION
    ensures Refreshes(c, inputs + [i]) % 0x1_0000_0000 == c.atRefresh
  {
    hide Step, Refreshes;
    assert (inputs + [i])[..|inputs|] == inputs;
    HandsOverOnRefresh(c, Run(c, inputs), i);
    CounterCounts(c, inputs + [i]);
  }

  /** The pins of a refresh: all ranks selected, CAS and RAS low, WE high. */
  const REFRESH := Phase(true, false, false, true)

  /** What the switch waits for: with refresh off nothing; with refresh on a refresh of the controller, and if
      a refresh number is configured the one of that number. */
  ghost predicate Grants(c: Config, inputs: seq<Input>, i: Input)
    requires |c.mem| >= 2
  {
    c.withRefresh ==>
      i.controller == REFRESH && (c.atRefresh == 0 || Refreshes(c, inputs + [i]) % 0x1_0000_0000 == c.atRefresh)
  }

  /** Over runs, both ways: the controller loses the bus in exactly the cycles in which the executor wants it
      and the switch gets what it waits for. */
  lemma HandsOverIff(c: Config, inputs: seq<Input>, i: Input)
    requires |c.mem| >= 2 && c.atRefresh < 0x1_0000_0000 && Run(c, inputs).owner == MEMORY_CONTROLLER
    ensures Run(c, inputs + [i]).owner == PAYLOAD_EXECUTION
       <==> Run(c, inputs).exec.wantsDfi && Grants(c, inputs, i)
  {
    hide Step, Refreshes, Run;
    RunSnoc(c, inputs, i);
    CounterCounts(c, inputs + [i]);
    CounterBound(c, inputs);
    StepHandsOver(c, Run(c, inputs), i);
  }

  lemma StepHandsOver(c: Config, s: System, i: Input)
    requires |c.mem| >= 2 && c.atRefresh < 0x1_0000_0000 && s.counter < 0x1_0000_0000 && s.owner == MEMORY_CONTROLLER
    ensures Step(c, s, i).owner == PAYLOAD_EXECUTION
       <==> s.exec.wantsDfi && (c.withRefresh ==>
              i.controller == REFRESH && (c.atRefresh == 0 || Step(c, s, i).counter == c.atRefresh))
  {
    hide Clock, Drive;
  }

  lemma CounterBound(c: Config, inputs: seq<Input>)
    requires |c.mem| >= 2
    ensures Run(c, inputs).counter < 0x1_0000_0000
  {
    hide Run, Refreshes;
    CounterCounts(c, inputs);
  }

  /** The executor gives the bus back in exactly the cycles in which it no longer wants it. */
  lemma GivesBackIff(c: Config, inputs: seq<Input>, i: Input)
    requires |c.mem| >= 2 && Run(c, inputs).owner == PAYLOAD_EXECUTION
    ensures Run(c, inputs + [i]).owner == MEMORY_CONTROLLER <==> !Run(c, inputs).exec.wantsDfi
  {
    hide Clock, Drive;
    assert (inputs + [i])[..|inputs|] == inputs;
  }

  /** The pins on phase 0 for every instruction: RAS for ACT, RAS and WE for PRE, RAS and CAS for REF, WE for
      ZQC, all active low; a NOOP selects no chip, a REF selects all, and a READ goes out on another phase. */
  lemma DrivePins(nranks: nat, r: Regs, s: Spec)
    requires r.fsm == RUN && s.Named() && s.Fits() && !s.Loop? && r.instr == Encode(s)
    ensures Drive(nranks, r) == match s
                                case Noop(_) => INACTIVE
                                case Loop(_, _) => INACTIVE
                                case Dfi(op, _, _) =>
                                  match op
                                  case ACT => Phase(nranks == 1, true, false, true)
                                  case PRE => Phase(nranks == 1, true, false, false)
                                  case REF => REFRESH
                                  case ZQC => Phase(nranks == 1, true, true, false)
                                  case _ => INACTIVE
  {
    hide Encode, Decode, Spec.Fits, Pow2;
    DecodeEncode(s);
    MaskedIffFits(s);
  }

  /** A memory that ends in a wait: the executor gives the DFI back and goes on waiting without it. */
  lemma LastWordExample()
    ensures var c := Config([Encode(Noop(1)), Encode(Noop(2))], 1, false, 0);
            var go, on := Input(true, INACTIVE), Input(false, INACTIVE);
            var s := Run(c, [go, on, on, on, on]);
            s.exec.fsm == IDLE && !s.exec.wantsDfi && !Safe(s)
  {
    hide Encode, Run, Step, Safe;
    var w0, w1 := Encode(Noop(1)), Encode(Noop(2));
    var c := Config([w0, w1], 1, false, 0);
    var go, on := Input(true, INACTIVE), Input(false, INACTIVE);
    ExampleStart(c, w0, w1);
    RunSnoc(c, [], go);
    RunSnoc(c, [go], on);
    RunSnoc(c, [go, on], on);
    RunSnoc(c, [go, on, on], on);
    RunSnoc(c, [go, on, on, on], on);
    assert [] + [go] == [go] && [go] + [on] == [go, on] && [go, on] + [on] == [go, on, on]
        && [go, on, on] + [on] == [go, on, on, on] && [go, on, on, on] + [on] == [go, on, on, on, on];
    var s := ExampleEnd(c, w0, w1);
  }

  lemma ExampleStart(c: Config, w0: nat, w1: nat)
    requires c == Config([w0, w1], 1, false, 0) && w0 == Encode(Noop(1)) && w1 == Encode(Noop(2))
    ensures var on := Input(false, INACTIVE);
            && Run(c, []) == PowerOn
            && Step(c, PowerOn, Input(true, INACTIVE))
               == System(Regs(WAIT_DFI, 0, 0, 0, w0, true), MEMORY_CONTROLLER, 0, INACTIVE, [])
            && Step(c, System(Regs(WAIT_DFI, 0, 0, 0, w0, true), MEMORY_CONTROLLER, 0, INACTIVE, []), on)
               == System(Regs(WAIT_DFI, 0, 0, 0, w0, true), PAYLOAD_EXECUTION, 0, INACTIVE, [])
            && Step(c, System(Regs(WAIT_DFI, 0, 0, 0, w0, true), PAYLOAD_EXECUTION, 0, INACTIVE, []), on)
               == System(Regs(RUN, 0, 0, 0, w0, true), PAYLOAD_EXECUTION, 0, INACTIVE, [])
  {
    hide Encode, Decode;
  }

  lemma ExampleEnd(c: Config, w0: nat, w1: nat) returns (s: System)
    requires c == Config([w0, w1], 1, false, 0) && w0 == Encode(Noop(1)) && w1 == Encode(Noop(2))
    ensures var on := Input(false, INACTIVE);
            && Step(c, System(Regs(RUN, 0, 0, 0, w0, true), PAYLOAD_EXECUTION, 0, INACTIVE, []), on)
               == System(Regs(RUN, 1, 0, 0, w1, true), PAYLOAD_EXECUTION, 0, INACTIVE, [w0])
            && s == Step(c, System(Regs(RUN, 1, 0, 0, w1, true), PAYLOAD_EXECUTION, 0, INACTIVE, [w0]), on)
            && s.exec.fsm == IDLE && !s.exec.wantsDfi && !Safe(s)
  {
    hide Encode, Decode, PcRange;
    PowersOfInterest();
    MaskedIffFits(Noop(1));
    MaskedIffFits(Noop(2));
    DecodeEncode(Noop(1));
    DecodeEncode(Noop(2));
    TwoWords();
    s := Step(c, System(Regs(RUN, 1, 0, 0, w1, true), PAYLOAD_EXECUTION, 0, INACTIVE, [w0]), Input(false, INACTIVE));
  }

  lemma TwoWords()
    ensures PcRange(2) == 2
  {
  }

  lemma RunSnoc(c: Config, inputs: seq<Input>, i: Input)
    requires |c.mem| >= 2
    ensures Run(c, inputs + [i]) == Step(c, Run(c, inputs), i)
  {
    assert (inputs + [i])[..|inputs|] == inputs;
  }
}
