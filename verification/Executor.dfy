/** The payload executor: a four-state machine that fetches through a synchronous
    memory port, and the proof that it runs a payload as the loop program it encodes. */
module Executor {
  import opened Bits
  import opened Isa
  import opened Loops

  datatype Fsm = READY | WAIT_DFI | RUN | IDLE

  /** The registers. `instr` is the output register of the synchronous fetch port. */
  datatype Regs = Regs(fsm: Fsm, pc: nat, loop: nat, idle: nat, instr: nat, wantsDfi: bool)

  /** Number of values of the program counter, declared as `Signal(max=depth - 1)`. */
  function PcRange(depth: nat): (m: nat)
    requires depth >= 2
    ensures m >= depth - 1 && m > 0
  {
    Pow2(BitsFor(depth - 2))
  }

  /** The program counter reaches every word unless the depth is one above a power of two. */
  lemma PcRangeCoversMemory(depth: nat)
    requires depth >= 2
    ensures PcRange(depth) >= depth <==> forall k: nat :: k >= 1 ==> depth != Pow2(k) + 1
  {
    var w := BitsFor(depth - 2);
    if PcRange(depth) < depth {
      assert depth == Pow2(w) + 1;
      assert w >= 1;
    } else if exists k: nat :: k >= 1 && depth == Pow2(k) + 1 {
      var k: nat :| k >= 1 && depth == Pow2(k) + 1;
      assert Pow2(k) >= 2;
      if k < w { Pow2Monotone(k, w - 1); } else { Pow2Monotone(w, k); }
    }
  }

  function Fetch(mem: seq<nat>, address: nat): nat {
    if address < |mem| then mem[address] else 0
  }

  /** `dfi_executor.exec`: a command is sent in this cycle. */
  predicate Issues(r: Regs) {
    r.fsm == RUN && Decode(r.instr).opCode != Code(LOOP)
  }

  /** The RUN state: registers and fetch address for the decoded word `d`. A wait (`IDLE`)
      overrides the transition to READY, because the last assignment to the next state wins. */
  function RunNext(depth: nat, range: nat, r: Regs, d: Decoded): (Regs, nat)
    requires range > 0
  {
    var done := r.pc == depth - 1 || d.stop;
    var plusOne := (r.pc + 1) % range;
    var r0 := r.(fsm := if done then READY else RUN, wantsDfi := r.wantsDfi && !done);
    if d.opCode == Code(LOOP) then
      if r.loop != d.loopCount then
        var target := (r.pc - d.loopJump) % range;
        (r0.(pc := target, loop := (r.loop + 1) % 4096), target)
      else
        (r0.(pc := plusOne, loop := 0), plusOne)
    else if d.timeslice <= 1 then
      (r0.(pc := plusOne), plusOne)
    else
      (r0.(fsm := IDLE, idle := d.timeslice - 2), 0)
  }

  /** All registers after one clock; a fetch address that no state drives is 0. */
  function Clock(mem: seq<nat>, r: Regs, start: bool, dfiReady: bool): (r': Regs)
    requires |mem| >= 2
  {
    var range := PcRange(|mem|);
    match r.fsm
    case READY =>
      var r0 := r.(instr := Fetch(mem, 0));
      if start then r0.(fsm := WAIT_DFI, wantsDfi := true) else r0
    case WAIT_DFI =>
      var r0 := r.(instr := Fetch(mem, 0));
      if dfiReady then r0.(fsm := RUN, pc := 0) else r0
    case RUN =>
      var (r0, address) := RunNext(|mem|, range, r, Decode(r.instr));
      r0.(instr := Fetch(mem, address))
    case IDLE =>
      var plusOne := (r.pc + 1) % range;
      if r.idle == 0 then r.(fsm := RUN, pc := plusOne, instr := Fetch(mem, plusOne))
      else r.(idle := r.idle - 1, instr := Fetch(mem, 0))
  }

  /** The fetched word is the memory at the program counter, wherever RUN finds it. */
  ghost predicate Fetched(mem: seq<nat>, r: Regs)
    requires |mem| >= 2
  {
    r.pc < PcRange(|mem|) && (r.fsm == RUN ==> r.instr == Fetch(mem, r.pc))
  }

  /** Every clock keeps it, for any memory contents and any inputs. */
  lemma ClockFetches(mem: seq<nat>, r: Regs, start: bool, dfiReady: bool)
    requires |mem| >= 2 && Fetched(mem, r)
    ensures Fetched(mem, Clock(mem, r, start, dfiReady))
  {
    hide Decode, PcRange;
  }

  /** The machine as hardware: registers updated at each clock edge. */
  class PayloadExecutor {
    const mem: seq<nat>
    var fsm: Fsm
    var programCounter: nat
    var loopCounter: nat
    var idleCounter: nat
    var instruction: nat
    var wantsDfi: bool

    function State(): Regs
      reads this
    {
      Regs(fsm, programCounter, loopCounter, idleCounter, instruction, wantsDfi)
    }

    constructor (mem: seq<nat>)
      ensures this.mem == mem && State() == Regs(READY, 0, 0, 0, 0, false)
    {
      this.mem := mem;
      fsm, programCounter, loopCounter, idleCounter, instruction, wantsDfi := READY, 0, 0, 0, 0, false;
    }

    /** The body of RUN in the order of the FSM description. */
    method RunCycle(d: Decoded, range: nat) returns (fetchAddress: nat, exec: bool)
      requires range > 0 && fsm == RUN
      modifies this
      ensures (State(), fetchAddress) == RunNext(|mem|, range, old(State()), d)
      ensures exec == (d.opCode != Code(LOOP))
    {
      fetchAddress, exec := 0, false;
      if programCounter == |mem| - 1 || d.stop {
        wantsDfi := false;
        fsm := READY;
      }
      if d.opCode == Code(LOOP) {
        if loopCounter != d.loopCount {
          fetchAddress := (programCounter - d.loopJump) % range;
          loopCounter := (loopCounter + 1) % 4096;
        } else {
          fetchAddress := (programCounter + 1) % range;
          loopCounter := 0;
        }
        programCounter := fetchAddress;
      } else {
        if d.timeslice == 0 || d.timeslice == 1 {
          fetchAddress := (programCounter + 1) % range;
          programCounter := fetchAddress;
        } else {
          idleCounter := d.timeslice - 2;
          fsm := IDLE;
        }
        exec := true;
      }
    }

    /** One cycle of the executor. */
    method Tick(start: bool, dfiReady: bool) returns (exec: bool)
      requires |mem| >= 2
      modifies this
      ensures State() == Clock(mem, old(State()), start, dfiReady)
      ensures exec == Issues(old(State()))
    {
      var range := PcRange(|mem|);
      var fetchAddress := 0;
      exec := false;
      match fsm {
        case READY =>
          if start {
            wantsDfi := true;
            fsm := WAIT_DFI;
          }
        case WAIT_DFI =>
          if dfiReady {
            programCounter := 0;
            fsm := RUN;
          }
        case RUN =>
          fetchAddress, exec := RunCycle(Decode(instruction), range);
        case IDLE =>
          if idleCounter == 0 {
            fetchAddress := (programCounter + 1) % range;
            programCounter := fetchAddress;
            fsm := RUN;
          } else {
            idleCounter := idleCounter - 1;
          }
      }
      instruction := Fetch(mem, fetchAddress);
    }
  }

  // ---------------------------------------------------------------- runs

  /** Registers after `n` clocks while the DFI is granted and `start` is low. */
  function Cycles(mem: seq<nat>, r: Regs, n: nat): Regs
    requires |mem| >= 2
    decreases n
  {
    if n == 0 then r else Cycles(mem, Clock(mem, r, false, true), n - 1)
  }

  datatype Event = Event(at: nat, word: nat)

  /** The commands sent during these clocks, stamped with their cycle. */
  function Issued(mem: seq<nat>, r: Regs, t: nat, n: nat): seq<Event>
    requires |mem| >= 2
    decreases n
  {
    if n == 0 then []
    else (if Issues(r) then [Event(t, r.instr)] else []) + Issued(mem, Clock(mem, r, false, true), t + 1, n - 1)
  }

  lemma CyclesZero(mem: seq<nat>, r: Regs, t: nat)
    requires |mem| >= 2
    ensures Cycles(mem, r, 0) == r && Issued(mem, r, t, 0) == []
  {
  }

  lemma FirstCycle(mem: seq<nat>, r: Regs, t: nat, k: nat)
    requires |mem| >= 2 && k > 0
    ensures var r1 := Clock(mem, r, false, true);
            && Cycles(mem, r, k) == Cycles(mem, r1, k - 1)
            && Issued(mem, r, t, k) == (if Issues(r) then [Event(t, r.instr)] else []) + Issued(mem, r1, t + 1, k - 1)
  {
    hide Clock, Issues;
  }

  lemma {:induction false} CyclesPlus(mem: seq<nat>, r: Regs, t: nat, a: nat, b: nat)
    requires |mem| >= 2
    ensures Cycles(mem, r, a + b) == Cycles(mem, Cycles(mem, r, a), b)
    ensures Issued(mem, r, t, a + b) == Issued(mem, r, t, a) + Issued(mem, Cycles(mem, r, a), t + a, b)
    decreases a
  {
    hide Clock, Issues;
    if a > 0 {
      CyclesPlus(mem, Clock(mem, r, false, true), t + 1, a - 1, b);
    }
  }

  // ---------------------------------------------------------------- refinement

  function ShapeOf(s: Spec): Shape {
    if s.Loop? then Back(s.count, s.jump) else Plain
  }

  function Shapes(prog: seq<Spec>): (s: seq<Shape>)
    ensures |s| == |prog|
    ensures forall i :: 0 <= i < |prog| ==> s[i] == ShapeOf(prog[i])
  {
    seq(|prog|, i requires 0 <= i < |prog| => ShapeOf(prog[i]))
  }

  /** The payload `prog` is stored at the start of the memory and nothing was lost to masks. */
  ghost predicate Loaded(mem: seq<nat>, prog: seq<Spec>) {
    && 2 <= |mem| && |prog| <= |mem| && |prog| <= PcRange(|mem|)
    && forall i :: 0 <= i < |prog| ==> prog[i].Named() && prog[i].Fits() && mem[i] == Encode(prog[i])
  }

  /** RUN at control point `c`, with the word of that point already fetched. */
  ghost predicate At(mem: seq<nat>, r: Regs, c: Control) {
    && r.fsm == RUN && r.wantsDfi
    && r.pc == c.pc && r.loop == c.loop
    && c.pc < |mem| && r.instr == mem[c.pc]
  }

  function Length(tr: seq<Spec>): nat {
    if tr == [] then 0 else tr[0].Duration() + Length(tr[1..])
  }

  /** The commands that executing `tr` from cycle `t` on sends: everything but LOOP. */
  function Commands(tr: seq<Spec>, t: nat): seq<Event> {
    if tr == [] then []
    else (if tr[0].Loop? then [] else [Event(t, Encode(tr[0]))]) + Commands(tr[1..], t + tr[0].Duration())
  }

  lemma {:induction false} IdleRuns(mem: seq<nat>, r: Regs, t: nat)
    requires |mem| >= 2 && r.fsm == IDLE && r.pc + 1 < |mem| && r.pc + 1 < PcRange(|mem|)
    ensures Cycles(mem, r, r.idle + 1) == r.(fsm := RUN, pc := r.pc + 1, idle := 0, instr := mem[r.pc + 1])
    ensures Issued(mem, r, t, r.idle + 1) == []
    decreases r.idle
  {
    hide Decode, RunNext, PcRange;
    var r1 := Clock(mem, r, false, true);
    ModSmall(r.pc + 1, PcRange(|mem|));
    if r.idle == 0 {
      assert Cycles(mem, r, 1) == Cycles(mem, r1, 0);
      assert Issued(mem, r, t, 1) == [] + Issued(mem, r1, t + 1, 0);
    } else {
      IdleRuns(mem, r1, t + 1);
    }
  }

  /** The first cycle of a visit to a DRAM command or NOOP: send it, then move on or wait. */
  lemma ClockPlain(mem: seq<nat>, r: Regs, d: Decoded)
    requires |mem| >= 2 && r.fsm == RUN && r.pc + 1 < PcRange(|mem|) && r.pc + 1 < |mem|
    requires d == Decode(r.instr) && d.opCode != Code(LOOP) && !d.stop
    ensures Clock(mem, r, false, true)
         == if d.timeslice <= 1 then r.(pc := r.pc + 1, instr := mem[r.pc + 1])
            else r.(fsm := IDLE, idle := d.timeslice - 2, instr := mem[0])
    ensures Issues(r)
  {
    hide Decode, PcRange;
    ModSmall(r.pc + 1, PcRange(|mem|));
  }

  lemma FitsDecodes(mem: seq<nat>, prog: seq<Spec>, i: nat)
    requires Loaded(mem, prog) && i < |prog|
    ensures Means(Decode(mem[i]), prog[i])
  {
    DecodeEncode(prog[i]);
    MaskedIffFits(prog[i]);
  }

  /** A visit to such a word takes max(1, timeslice) cycles and sends it in the first. */
  lemma PlainWord(mem: seq<nat>, r: Regs, d: Decoded, k: nat, t: nat)
    requires |mem| >= 2 && r.fsm == RUN && r.pc + 1 < PcRange(|mem|) && r.pc + 1 < |mem|
    requires d == Decode(r.instr) && d.opCode != Code(LOOP) && !d.stop
    requires k == if d.timeslice <= 1 then 1 else d.timeslice
    ensures var next := Cycles(mem, r, k);
            && next.fsm == RUN && next.pc == r.pc + 1 && next.loop == r.loop && next.wantsDfi == r.wantsDfi
            && next.instr == mem[r.pc + 1]
    ensures Issued(mem, r, t, k) == [Event(t, r.instr)]
  {
    hide Decode, Clock, Issues, PcRange, Cycles, Issued, Pow2;
    ClockPlain(mem, r, d);
    var r1 := Clock(mem, r, false, true);
    FirstCycle(mem, r, t, k);
    if k == 1 {
      CyclesZero(mem, r1, t + 1);
    } else {
      assert r1.idle + 1 == k - 1;
      IdleRuns(mem, r1, t + 1);
    }
  }

  /** One visit to a DRAM command or NOOP takes max(1, timeslice) cycles and sends it in the first. */
  lemma PlainRefines(mem: seq<nat>, prog: seq<Spec>, r: Regs, c: Control, t: nat)
    requires Loaded(mem, prog) && c.pc + 1 < |prog| && At(mem, r, c)
    requires !prog[c.pc].Loop? && !prog[c.pc].IsStop()
    ensures var k := prog[c.pc].Duration();
            && At(mem, Cycles(mem, r, k), Control(c.pc + 1, c.loop))
            && Issued(mem, r, t, k) == [Event(t, Encode(prog[c.pc]))]
  {
    hide Decode, Encode, Cycles, Issued, PcRange, Spec.Fits;
    FitsDecodes(mem, prog, c.pc);
    PlainWord(mem, r, Decode(r.instr), prog[c.pc].Duration(), t);
  }

  /** RUN on a LOOP whose counter has not run past its count follows the loop interpreter. */
  lemma LoopRunNext(depth: nat, range: nat, r: Regs, d: Decoded, s: seq<Shape>)
    requires JumpsInRange(s) && r.pc < |s| && r.pc + 1 < range && r.pc + 1 < depth
    requires s[r.pc].Back? && s[r.pc].count == d.loopCount < 4096 && s[r.pc].jump == d.loopJump
    requires d.opCode == Code(LOOP) && !d.stop && r.fsm == RUN && r.loop <= d.loopCount
    ensures var c := Next(s, Control(r.pc, r.loop));
            RunNext(depth, range, r, d) == (r.(pc := c.pc, loop := c.loop), c.pc)
  {
    ModSmall(r.pc + 1, range);
    ModSmall(r.pc - d.loopJump, range);
  }

  /** One visit to a LOOP takes one cycle and sends nothing. */
  lemma LoopRefines(mem: seq<nat>, prog: seq<Spec>, r: Regs, c: Control, t: nat)
    requires Loaded(mem, prog) && c.pc + 1 < |prog| && At(mem, r, c)
    requires prog[c.pc].Loop? && c.loop <= prog[c.pc].count && JumpsInRange(Shapes(prog))
    ensures At(mem, Cycles(mem, r, 1), Next(Shapes(prog), c))
    ensures Issued(mem, r, t, 1) == []
  {
    hide Encode, Decode;
    PowersOfInterest();
    FitsDecodes(mem, prog, c.pc);
    LoopRunNext(|mem|, PcRange(|mem|), r, Decode(r.instr), Shapes(prog));
    var r1 := Clock(mem, r, false, true);
    assert Cycles(mem, r, 1) == Cycles(mem, r1, 0);
    assert Issued(mem, r, t, 1) == [] + Issued(mem, r1, t + 1, 0);
  }

  /** The clocked machine refines the loop interpreter, instruction by instruction. */
  lemma {:induction false} Refines(mem: seq<nat>, prog: seq<Spec>, last: Spec, r: Regs, c: Control, tr: seq<Spec>,
                                   c': Control, t: nat)
    requires Loaded(mem, prog + [last]) && JumpsInRange(Shapes(prog)) && At(mem, r, c)
    requires forall i :: 0 <= i < |prog| ==> !prog[i].IsStop()
    requires |mem| >= 2 && !last.Loop? && Follows(Shapes(prog), prog, c, tr, c')
    ensures At(mem, Cycles(mem, r, Length(tr)), c')
    ensures Issued(mem, r, t, Length(tr)) == Commands(tr, t)
    decreases |tr|
  {
    hide Clock, Encode, Decode, Loaded, At, JumpsInRange, Next, Shapes, Cycles, Issued;
    if tr == [] {
      CyclesZero(mem, r, t);
    } else {
      var k := tr[0].Duration();
      var next := Next(Shapes(prog), c);
      InstructionRefines(mem, prog, last, r, c, t);
      Refines(mem, prog, last, Cycles(mem, r, k), next, tr[1..], c', t + k);
      CyclesPlus(mem, r, t, k, Length(tr[1..]));
    }
  }

  lemma InstructionRefines(mem: seq<nat>, prog: seq<Spec>, last: Spec, r: Regs, c: Control, t: nat)
    requires Loaded(mem, prog + [last]) && JumpsInRange(Shapes(prog)) && At(mem, r, c)
    requires !last.Loop? && c.pc < |prog| && !prog[c.pc].IsStop() && (prog[c.pc].Loop? ==> c.loop <= prog[c.pc].count)
    ensures At(mem, Cycles(mem, r, prog[c.pc].Duration()), Next(Shapes(prog), c))
    ensures Issued(mem, r, t, prog[c.pc].Duration())
         == if prog[c.pc].Loop? then [] else [Event(t, Encode(prog[c.pc]))]
  {
    hide Decode, Encode, Cycles, Issued, Loaded;
    var whole := prog + [last];
    assert whole[c.pc] == prog[c.pc] && Shapes(whole)[c.pc] == Shapes(prog)[c.pc];
    if prog[c.pc].Loop? {
      assert JumpsInRange(Shapes(whole)) by {
        forall i | 0 <= i < |whole| && Shapes(whole)[i].Back? ensures Shapes(whole)[i].jump <= i {
          assert Shapes(prog)[i].Back?;
        }
      }
      LoopRefines(mem, whole, r, c, t);
    } else {
      PlainRefines(mem, whole, r, c, t);
    }
  }

  /** The instructions that a payload executes, in order, before its STOP. */
  function Executed(prog: seq<Spec>): seq<Spec>
    requires NonNested(Shapes(prog))
  {
    Unroll(Shapes(prog), prog, |prog|)
  }

  /** The whole run: granted the DFI, the executor sends exactly the commands of the unrolled
      payload, one instruction every max(1, timeslice) cycles, then the STOP word, and is back in
      READY with the loop counter at 0 and the DFI released. */
  lemma RunsToStop(mem: seq<nat>, prog: seq<Spec>, r: Regs)
    requires |mem| >= 2 && Loaded(mem, prog + [Noop(0)]) && NonNested(Shapes(prog))
    requires forall i :: 0 <= i < |prog| ==> !prog[i].IsStop()
    requires r.fsm == WAIT_DFI && r.loop == 0 && r.wantsDfi
    ensures var n := Length(Executed(prog));
            var end := Cycles(mem, r, n + 2);
            && At(mem, Cycles(mem, r, n + 1), Control(|prog|, 0))
            && end.fsm == READY && !end.wantsDfi && end.loop == 0
            && Issued(mem, r, 0, n + 2) == Commands(Executed(prog), 1) + [Event(n + 1, Encode(Noop(0)))]
  {
    hide Encode, Decode, Cycles, Issued, Commands, Length, Shapes, Executed, PcRange, NonNested, At, Loaded;
    var whole, n := prog + [Noop(0)], Length(Executed(prog));
    assert whole[|whole| - 1] == Noop(0);
    WaitRefines(mem, whole, r);
    var first := Cycles(mem, r, 1);
    BodyRefines(mem, prog, Noop(0), first);
    StopRefines(mem, whole, Cycles(mem, first, n), n + 1);
    CyclesPlus(mem, first, 1, n, 1);
    CyclesPlus(mem, r, 0, 1, n + 1);
    CyclesPlus(mem, r, 0, 1, n);
  }

  lemma BodyRefines(mem: seq<nat>, prog: seq<Spec>, last: Spec, r: Regs)
    requires |mem| >= 2 && Loaded(mem, prog + [last]) && !last.Loop? && NonNested(Shapes(prog))
    requires At(mem, r, Control(0, 0))
    requires forall i :: 0 <= i < |prog| ==> !prog[i].IsStop()
    ensures At(mem, Cycles(mem, r, Length(Executed(prog))), Control(|prog|, 0))
    ensures Issued(mem, r, 1, Length(Executed(prog))) == Commands(Executed(prog), 1)
  {
    hide Encode, Decode, Cycles, Issued, Commands, Length, Shapes, PcRange, At, Loaded, Unroll, Follows;
    RunsUnrolled(Shapes(prog), prog, |prog|);
    Refines(mem, prog, last, r, Control(0, 0), Executed(prog), Control(|prog|, 0), 1);
  }

  /** A payload that fills the memory needs no STOP: it ends after its last word, if that takes one cycle. */
  lemma RunsToMemoryEnd(mem: seq<nat>, prog: seq<Spec>, last: Spec, r: Regs)
    requires |mem| == |prog| + 1 >= 2 && Loaded(mem, prog + [last]) && NonNested(Shapes(prog))
    requires !last.Loop? && !last.IsStop() && last.Duration() == 1 && forall i :: 0 <= i < |prog| ==> !prog[i].IsStop()
    requires r.fsm == WAIT_DFI && r.loop == 0 && r.wantsDfi
    ensures var n := Length(Executed(prog));
            var end := Cycles(mem, r, n + 2);
            && end.fsm == READY && !end.wantsDfi && end.loop == 0
            && Issued(mem, r, 0, n + 2) == Commands(Executed(prog) + [last], 1)
  {
    hide Encode, Decode, Cycles, Issued, Commands, Length, Shapes, Executed, PcRange, NonNested, At, Loaded;
    var whole, n := prog + [last], Length(Executed(prog));
    assert whole[|whole| - 1] == last;
    WaitRefines(mem, whole, r);
    var first := Cycles(mem, r, 1);
    BodyRefines(mem, prog, last, first);
    LastRefines(mem, whole, Cycles(mem, first, n), n + 1);
    CyclesPlus(mem, first, 1, n, 1);
    CyclesPlus(mem, r, 0, 1, n + 1);
    CommandsSnoc(Executed(prog), last, 1);
  }

  lemma LastRefines(mem: seq<nat>, prog: seq<Spec>, r: Regs, t: nat)
    requires Loaded(mem, prog) && |prog| == |mem| && At(mem, r, Control(|prog| - 1, 0))
    requires var last := prog[|prog| - 1]; !last.Loop? && last.Duration() == 1
    ensures var end := Cycles(mem, r, 1);
            end.fsm == READY && !end.wantsDfi && end.loop == 0
    ensures Issued(mem, r, t, 1) == [Event(t, Encode(prog[|prog| - 1]))]
  {
    hide Encode, Decode, Pow2;
    FitsDecodes(mem, prog, |prog| - 1);
    var r1 := Clock(mem, r, false, true);
    assert Issues(r);
    assert Cycles(mem, r, 1) == Cycles(mem, r1, 0);
    assert Issued(mem, r, t, 1) == [Event(t, r.instr)] + Issued(mem, r1, t + 1, 0);
  }

  lemma {:induction false} CommandsSnoc(tr: seq<Spec>, s: Spec, t: nat)
    requires !s.Loop?
    ensures Commands(tr + [s], t) == Commands(tr, t) + [Event(t + Length(tr), Encode(s))]
    decreases |tr|
  {
    hide Encode, Spec.Duration;
    if tr == [] {
      assert tr + [s] == [s] && [s][1..] == [];
    } else {
      var next := t + tr[0].Duration();
      CommandsSnoc(tr[1..], s, next);
      assert (tr + [s])[1..] == tr[1..] + [s];
      JoinEvents(if tr[0].Loop? then [] else [Event(t, Encode(tr[0]))], Commands(tr[1..], next),
                 [Event(next + Length(tr[1..]), Encode(s))]);
    }
  }

  lemma JoinEvents(a: seq<Event>, b: seq<Event>, c: seq<Event>)
    ensures a + (b + c) == a + b + c
  {
  }

  lemma WaitRefines(mem: seq<nat>, prog: seq<Spec>, r: Regs)
    requires Loaded(mem, prog) && prog != [] && r.fsm == WAIT_DFI && r.loop == 0 && r.wantsDfi
    ensures At(mem, Cycles(mem, r, 1), Control(0, 0)) && Issued(mem, r, 0, 1) == []
  {
    hide Encode, Decode;
    var r1 := Clock(mem, r, false, true);
    assert Cycles(mem, r, 1) == Cycles(mem, r1, 0);
    assert Issued(mem, r, 0, 1) == [] + Issued(mem, r1, 1, 0);
  }

  /** STOP releases the DFI and returns to READY in one cycle; its word has no chip selected. */
  lemma StopRefines(mem: seq<nat>, prog: seq<Spec>, r: Regs, t: nat)
    requires Loaded(mem, prog) && prog != [] && prog[|prog| - 1] == Noop(0)
    requires At(mem, r, Control(|prog| - 1, 0))
    ensures var end := Cycles(mem, r, 1);
            end.fsm == READY && !end.wantsDfi && end.loop == 0
    ensures Issued(mem, r, t, 1) == [Event(t, Encode(Noop(0)))]
  {
    hide Encode, Decode;
    FitsDecodes(mem, prog, |prog| - 1);
    var r1 := Clock(mem, r, false, true);
    assert Issues(r);
    assert Cycles(mem, r, 1) == Cycles(mem, r1, 0);
    assert Issued(mem, r, t, 1) == [Event(t, r.instr)] + Issued(mem, r1, t + 1, 0);
  }

  /** Beyond well-formed payloads: in any state a LOOP is left exactly when the counter equals its count. A
      counter that has passed the count, as an outer loop leaves it for an inner one of count 0, goes on and
      wraps around at 4096. */
  lemma LoopLeftIff(mem: seq<nat>, r: Regs)
    requires |mem| >= 2 && r.fsm == RUN && r.pc < PcRange(|mem|) && r.loop < 4096
    requires Decode(r.instr).opCode == Code(LOOP)
    ensures var d, next := Decode(r.instr), Clock(mem, r, false, true);
            && (r.loop == d.loopCount ==> next.loop == 0 && next.pc == (r.pc + 1) % PcRange(|mem|))
            && (r.loop != d.loopCount ==>
                  next.loop == (if r.loop == 4095 then 0 else r.loop + 1)
                  && next.pc == (r.pc - d.loopJump) % PcRange(|mem|))
            && next.instr == Fetch(mem, next.pc)
  {
    hide Decode, PcRange, Fetch, Pow2;
  }

  // ---------------------------------------------------------------- between grant and STOP

  /** The memory holds a payload that ends in STOP and nests no loops. */
  ghost predicate Stored(mem: seq<nat>, prog: seq<Spec>) {
    && |mem| >= 2 && Loaded(mem, prog + [Noop(0)]) && NonNested(Shapes(prog))
    && forall i :: 0 <= i < |prog| ==> !prog[i].IsStop()
  }

  /** Cycles from the grant of the DFI to READY. */
  ghost function Busy(prog: seq<Spec>): nat
    requires NonNested(Shapes(prog))
  {
    Length(Executed(prog)) + 2
  }

  ghost predicate Waiting(r: Regs) {
    r.fsm == WAIT_DFI && r.loop == 0 && r.wantsDfi
  }

  /** Without a start strobe READY is not left, the DFI not asked for and WAIT-DFI not entered. */
  lemma QuietClock(mem: seq<nat>, r: Regs)
    requires |mem| >= 2
    ensures var next := Clock(mem, r, false, true);
            && (r.fsm == READY ==> next.fsm == READY) && (!r.wantsDfi ==> !next.wantsDfi)
            && next.fsm != WAIT_DFI
  {
    hide Decode, PcRange, Fetch;
  }

  lemma {:induction false} QuietCycles(mem: seq<nat>, r: Regs, n: nat)
    requires |mem| >= 2
    ensures var end := Cycles(mem, r, n);
            && (r.fsm == READY ==> end.fsm == READY) && (!r.wantsDfi ==> !end.wantsDfi)
            && (n > 0 ==> end.fsm != WAIT_DFI)
    decreases n
  {
    hide Clock;
    if n > 0 {
      QuietClock(mem, r);
      QuietCycles(mem, Clock(mem, r, false, true), n - 1);
    }
  }

  /** Between grant and STOP the executor is in RUN or IDLE and asks for the DFI. */
  lemma BusyMeans(mem: seq<nat>, prog: seq<Spec>, r: Regs, k: nat)
    requires Stored(mem, prog) && Waiting(r) && 1 <= k < Busy(prog)
    ensures var now := Cycles(mem, r, k); (now.fsm == RUN || now.fsm == IDLE) && now.wantsDfi
  {
    hide Clock, Loaded, Executed, Length, Shapes, NonNested, Encode, Cycles, Issued, Commands;
    RunsToStop(mem, prog, r);
    var last := Busy(prog) - 1;
    CyclesPlus(mem, r, 0, k, last - k);
    QuietCycles(mem, Cycles(mem, r, k), last - k);
    QuietCycles(mem, r, k);
  }
}
