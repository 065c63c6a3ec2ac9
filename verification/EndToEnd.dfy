/** From row list to bus: a generated payload, encoded, loaded and run by the executor,
    hammers exactly the requested rows. */
module EndToEnd {
  import opened Bits
  import opened Isa
  import opened Loops
  import opened Executor
  import opened CycleCount
  import opened Compiler
  import opened CompilerCorrect

  // ---------------------------------------------------------------- nothing is lost to masks

  /** The hypotheses under which `encode_spec` masks nothing away: the timings fit their timeslices,
      and rank, bank, rows and column bit 10 fit the address. */
  ghost predicate FieldsFit(j: Job, rows: seq<nat>) {
    && j.g.Valid() && j.rank < Pow2(j.g.rankbits) && j.bank < Pow2(j.g.bankbits)
    && 1024 < Pow2(j.g.AddressBits())
    && Below(rows, Pow2(j.g.AddressBits()))
    && 0 < j.t.tRAS < 32 && 0 < j.t.tRP < 32 && 0 < j.t.tRFC
    && j.t.tRFC < (if j.refresh then 32 else 0x20000000)
    && j.t.tREFI <= 0x20000000
  }

  ghost predicate Below(rows: seq<nat>, bound: nat) {
    forall i :: 0 <= i < |rows| ==> rows[i] < bound
  }

  ghost predicate AllFit(code: seq<Spec>) {
    forall i :: 0 <= i < |code| ==> code[i].Legal() && code[i].Fits()
  }

  lemma InstructionsFit(j: Job, rows: seq<nat>, row: nat)
    requires FieldsFit(j, rows) && row < Pow2(j.g.AddressBits())
    ensures AllFit([j.RefreshOp(j.t.tRFC)]) && AllFit([j.RefreshOp(1)]) && AllFit([j.Activate(row), j.Precharge()])
    ensures AllFit([Noop(Max(1, Max(j.t.tRFC - 2, j.t.tREFI - 2)))])
  {
    hide Address;
    PowersOfInterest();
    AddressRoundTrip(j.g, j.rank, j.bank, row);
    AddressRoundTrip(j.g, j.rank, 0, 1024);
  }

  lemma AllFitPlus(a: seq<Spec>, b: seq<Spec>)
    requires AllFit(a) && AllFit(b)
    ensures AllFit(a + b)
  {
  }

  lemma {:induction false} BodyFits(j: Job, rows: seq<nat>)
    requires FieldsFit(j, rows)
    ensures AllFit(Body(j, rows).code)
  {
    hide AllFit;
    if rows == [] {
      InstructionsFit(j, rows, 0);
    } else {
      var front, row := rows[..|rows| - 1], rows[|rows| - 1];
      assert FieldsFit(j, front);
      BodyFits(j, front);
      InstructionsFit(j, rows, row);
      var e := Body(j, front);
      AllFitPlus(e.code, [j.RefreshOp(j.t.tRFC)]);
      AllFitPlus(e.code + [j.RefreshOp(j.t.tRFC)], [j.Activate(row), j.Precharge()]);
      AllFitPlus(e.code, [j.Activate(row), j.Precharge()]);
    }
  }

  lemma {:induction false} BlocksFit(j: Job, rows: seq<nat>, counts: seq<nat>)
    requires FieldsFit(j, rows) && (counts != [] ==> JumpFits(j, rows))
    requires forall i :: 0 <= i < |counts| ==> counts[i] < 4096
    ensures AllFit(Blocks(j, rows, counts))
    decreases |counts|
  {
    hide AllFit, FieldsFit, Body;
    if counts == [] {
      NothingFits();
    } else {
      var front, last := counts[..|counts| - 1], counts[|counts| - 1];
      BlocksFit(j, rows, front);
      BodyFits(j, rows);
      LoopFits(last, 2 * |rows| + Body(j, rows).refreshes);
      AllFitPlus(Body(j, rows).code, [Loop(last, 2 * |rows| + Body(j, rows).refreshes)]);
      AllFitPlus(Blocks(j, rows, front), Block(j, rows, last));
    }
  }

  lemma NothingFits()
    ensures AllFit([])
  {
  }

  lemma LoopFits(count: nat, jump: nat)
    requires count < 4096 && jump < Pow2(LOOP_JUMP)
    ensures AllFit([Loop(count, jump)])
  {
    PowersOfInterest();
  }

  lemma {:induction false} RepeatMembers(rows: seq<nat>, n: nat, bound: nat)
    requires Below(rows, bound)
    ensures Below(Repeat(rows, n), bound)
    decreases n
  {
    if n > 0 { RepeatMembers(rows, n - 1, bound); }
  }

  lemma ProgramFits(j: Job, rows: seq<nat>, readCount: nat, repetitions: nat)
    requires FieldsFit(j, rows) && JumpsFit(j, rows, readCount, repetitions)
    ensures AllFit(Program(j, rows, readCount, repetitions) + [Noop(0)])
  {
    hide AllFit, Blocks, Counts, Repeat, JumpFits, FieldsFit;
    var q, r := readCount / repetitions, readCount % repetitions;
    var many := Repeat(rows, repetitions);
    FieldsFitMany(j, rows, repetitions);
    LongFits(j, many, q);
    LongFits(j, rows, r);
    EndsFit(j, rows);
    var head, last := Noop(Max(1, Max(j.t.tRFC - 2, j.t.tREFI - 2))), j.RefreshOp(1);
    AllFitPlus([head], Blocks(j, many, Counts(q)));
    AllFitPlus([head] + Blocks(j, many, Counts(q)), Blocks(j, rows, Counts(r)));
    AllFitPlus([head] + Blocks(j, many, Counts(q)) + Blocks(j, rows, Counts(r)), [last]);
    AllFitPlus(Program(j, rows, readCount, repetitions), [Noop(0)]);
  }

  lemma FieldsFitMany(j: Job, rows: seq<nat>, n: nat)
    requires FieldsFit(j, rows)
    ensures FieldsFit(j, Repeat(rows, n))
  {
    hide Repeat, Pow2, Below;
    RepeatMembers(rows, n, Pow2(j.g.AddressBits()));
  }

  lemma LongFits(j: Job, rows: seq<nat>, rolled: nat)
    requires FieldsFit(j, rows) && (rolled > 0 ==> JumpFits(j, rows))
    ensures AllFit(Blocks(j, rows, Counts(rolled)))
  {
    hide AllFit, Blocks, Counts, JumpFits, FieldsFit;
    CountsTotal(rolled);
    NoLoops();
    BlocksFit(j, rows, Counts(rolled));
  }

  lemma EndsFit(j: Job, rows: seq<nat>)
    requires FieldsFit(j, rows)
    ensures AllFit([Noop(Max(1, Max(j.t.tRFC - 2, j.t.tREFI - 2)))]) && AllFit([j.RefreshOp(1)]) && AllFit([Noop(0)])
  {
    hide AllFit;
    InstructionsFit(j, rows, 0);
    StopFits();
  }

  lemma NoLoops()
    ensures Counts(0) == []
  {
  }

  lemma StopFits()
    ensures AllFit([Noop(0)])
  {
  }

  // ---------------------------------------------------------------- what is on the bus

  /** A DRAM command as its pins: op code (ras, cas, we), rank, bank and address. */
  datatype Pins = Pins(opCode: nat, rank: nat, bank: nat, address: nat)

  function PinsOf(g: Geometry, word: nat): Pins {
    var d := Decode(word);
    Pins(d.opCode, DfiRank(g, d.address), DfiBank(g, d.address), DfiAddress(g, d.address))
  }

  /** The ACT and PRE commands among the words sent. */
  function BusHammers(g: Geometry, events: seq<Event>): seq<Pins> {
    if events == [] then [] else PickPins(PinsOf(g, events[0].word)) + BusHammers(g, events[1..])
  }

  function PickPins(p: Pins): seq<Pins> {
    if p.opCode == Code(ACT) || p.opCode == Code(PRE) then [p] else []
  }

  /** Activate each row of the bank and precharge all banks after it. */
  function RowPins(j: Job, rows: seq<nat>): seq<Pins> {
    if rows == [] then []
    else [Pins(Code(ACT), j.rank, j.bank, rows[0]), Pins(Code(PRE), j.rank, 0, 1024)] + RowPins(j, rows[1..])
  }

  lemma {:induction false} BusHammersPlus(g: Geometry, a: seq<Event>, b: seq<Event>)
    ensures BusHammers(g, a + b) == BusHammers(g, a) + BusHammers(g, b)
    decreases |a|
  {
    hide PinsOf, PickPins;
    if a == [] {
      assert a + b == b;
    } else {
      BusHammersPlus(g, a[1..], b);
      assert (a + b)[1..] == a[1..] + b;
    }
  }

  function PinsAll(g: Geometry, code: seq<Spec>): seq<Pins> {
    if code == [] then [] else [PinsOf(g, Encode(code[0]))] + PinsAll(g, code[1..])
  }

  lemma OpSurvives(g: Geometry, s: Spec)
    requires s.Legal() && s.Fits()
    ensures PinsOf(g, Encode(s)).opCode == match s
                                           case Loop(_, _) => Code(LOOP)
                                           case Noop(_) => Code(NOOP)
                                           case Dfi(op, _, _) => Code(op)
  {
    hide Encode, Decode, Slice, DfiRank, DfiBank, DfiAddress;
    DecodeEncode(s);
  }

  /** Of the words sent, the ACT and PRE ones are those of the executed ACT and PRE instructions. */
  lemma {:induction false} BusIsHammers(g: Geometry, tr: seq<Spec>, t: nat)
    requires AllFit(tr)
    ensures BusHammers(g, Executor.Commands(tr, t)) == PinsAll(g, Hammers(tr))
    decreases |tr|
  {
    hide PinsOf, Encode, BusHammers, PinsAll, Spec.Fits, Spec.Legal;
    if tr == [] {
      BusNothing(g);
    } else {
      var s := tr[0];
      BusIsHammers(g, tr[1..], t + s.Duration());
      var first := if s.Loop? then [] else [Event(t, Encode(s))];
      BusHammersPlus(g, first, Executor.Commands(tr[1..], t + s.Duration()));
      BusPick(g, s, t);
      PinsAllFirst(g, Pick(s), Hammers(tr[1..]));
    }
  }

  lemma BusNothing(g: Geometry)
    ensures BusHammers(g, []) == [] && PinsAll(g, []) == []
  {
  }

  lemma BusPick(g: Geometry, s: Spec, t: nat)
    requires s.Legal() && s.Fits()
    ensures BusHammers(g, if s.Loop? then [] else [Event(t, Encode(s))])
         == if Pick(s) == [] then [] else [PinsOf(g, Encode(s))]
  {
    hide PinsOf, Encode;
    OpSurvives(g, s);
    BusOne(g, Event(t, Encode(s)));
  }

  lemma BusOne(g: Geometry, e: Event)
    ensures BusHammers(g, [e]) == PickPins(PinsOf(g, e.word)) && BusHammers(g, []) == []
  {
    hide PinsOf, PickPins;
    assert [e][1..] == [];
  }

  lemma PinsAllFirst(g: Geometry, a: seq<Spec>, b: seq<Spec>)
    requires |a| <= 1
    ensures PinsAll(g, a + b) == (if a == [] then [] else [PinsOf(g, Encode(a[0]))]) + PinsAll(g, b)
  {
    hide PinsOf, Encode;
    if a == [] { assert a + b == b; } else { assert (a + b)[1..] == b; }
  }

  lemma {:induction false} PairsOnPins(j: Job, rows: seq<nat>)
    requires FieldsFit(j, rows)
    ensures PinsAll(j.g, Pairs(j, rows)) == RowPins(j, rows)
  {
    hide PinsOf, Encode, Address;
    if rows != [] {
      PairsOnPins(j, rows[1..]);
      var a, p, more := j.Activate(rows[0]), j.Precharge(), Pairs(j, rows[1..]);
      assert [a, p] + more == [a] + ([p] + more);
      PinsAllFirst(j.g, [a], [p] + more);
      PinsAllFirst(j.g, [p], more);
      PinsOfAddress(j, rows, rows[0], j.bank, ACT, j.t.tRAS);
      PinsOfAddress(j, rows, 1024, 0, PRE, j.t.tRP);
    }
  }

  lemma PinsOfAddress(j: Job, rows: seq<nat>, rowcol: nat, bank: nat, op: OpCode, slice: nat)
    requires FieldsFit(j, rows) && rowcol < Pow2(j.g.AddressBits()) && bank < Pow2(j.g.bankbits)
    requires op != NOOP && op != LOOP && 0 < slice < 32
    ensures PinsOf(j.g, Encode(Dfi(op, slice, Address(j.g, j.rank, bank, rowcol))))
         == Pins(Code(op), j.rank, bank, rowcol)
  {
    hide Encode, Decode, Address, DfiRank, DfiBank, DfiAddress;
    AddressRoundTrip(j.g, j.rank, bank, rowcol);
    ModSmall(bank, Pow2(j.g.bankbits));
    var s := Dfi(op, slice, Address(j.g, j.rank, bank, rowcol));
    PowersOfInterest();
    MaskedIffFits(s);
    DecodeEncode(s);
  }

  /** Executed instructions come from the program. */
  lemma {:induction false} ExecutedFit(s: seq<Shape>, prog: seq<Spec>, n: nat)
    requires NonNested(s) && |prog| == |s| && n <= |s| && AllFit(prog)
    ensures AllFit(Unroll(s, prog, n))
    decreases n
  {
    hide AllFit, Visit, NonNested;
    if n == 0 {
      NothingFits();
    } else {
      ExecutedFit(s, prog, n - 1);
      VisitFit(s, prog, n - 1);
      AllFitPlus(Unroll(s, prog, n - 1), Visit(s, prog, n - 1));
    }
  }

  lemma VisitFit(s: seq<Shape>, prog: seq<Spec>, i: nat)
    requires NonNested(s) && |prog| == |s| && i < |s| && AllFit(prog)
    ensures AllFit(Visit(s, prog, i))
  {
    hide Repeat, Spec.Fits, Spec.Legal;
    if s[i].Back? {
      RepeatFit(prog[i - s[i].jump..i] + [prog[i]], s[i].count);
    }
  }

  lemma {:induction false} RepeatFit(code: seq<Spec>, n: nat)
    requires AllFit(code)
    ensures AllFit(Repeat(code, n))
    decreases n
  {
    if n > 0 { RepeatFit(code, n - 1); }
  }

  /** The words of a generated payload are in the memory of the executor. */
  ghost predicate InMemory(mem: seq<nat>, payload: seq<Spec>) {
    2 <= |mem| && |payload| <= |mem| && |payload| <= PcRange(|mem|) && mem[..|payload|] == EncodeAll(payload)
  }

  lemma PayloadIsLoaded(j: Job, rows: seq<nat>, readCount: nat, repetitions: nat, mem: seq<nat>)
    requires FieldsFit(j, rows) && JumpsFit(j, rows, readCount, repetitions)
    requires InMemory(mem, Program(j, rows, readCount, repetitions) + [Noop(0)])
    ensures Loaded(mem, Program(j, rows, readCount, repetitions) + [Noop(0)])
  {
    hide Encode, Program, JumpFits, FieldsFit, PcRange, Repeat;
    var payload := Program(j, rows, readCount, repetitions) + [Noop(0)];
    ProgramFits(j, rows, readCount, repetitions);
    forall i | 0 <= i < |payload| ensures mem[i] == Encode(payload[i]) { assert mem[i] == mem[..|payload|][i]; }
  }

  /** Cycles from the first instruction up to, not including, STOP. */
  function RunLength(prog: seq<Spec>): nat
    requires WellFormed(prog)
  {
    Length(Executed(prog))
  }

  /** Compiler correctness down to the bus. From the moment the DFI is requested with the loop counter
      at 0, the executor reaches STOP and READY, and the ACT and PRE commands it sends are exactly the
      row sequence, `readCount` times over, each row activated in its bank and then precharged. */
  lemma PayloadHammersRows(j: Job, rows: seq<nat>, readCount: nat, repetitions: nat, mem: seq<nat>, r: Regs)
    requires FieldsFit(j, rows) && JumpsFit(j, rows, readCount, repetitions)
    requires InMemory(mem, Program(j, rows, readCount, repetitions) + [Noop(0)])
    requires r.fsm == WAIT_DFI && r.loop == 0 && r.wantsDfi
    ensures WellFormed(Program(j, rows, readCount, repetitions))
    ensures var n := RunLength(Program(j, rows, readCount, repetitions)) + 2;
            var end := Cycles(mem, r, n);
            && end.fsm == READY && !end.wantsDfi && end.loop == 0
            && BusHammers(j.g, Issued(mem, r, 0, n)) == RowPins(j, Repeat(rows, readCount))
  {
    hide Encode, Program, JumpFits, Executed, Cycles, Issued, Length, BusHammers, RowPins, Repeat, Loaded, FieldsFit,
         NonNested;
    var prog := Program(j, rows, readCount, repetitions);
    assert j.Positive() by { Timed(j, rows); }
    ProgramWellFormed(j, rows, readCount, repetitions);
    PayloadIsLoaded(j, rows, readCount, repetitions, mem);
    RunsToStop(mem, prog, r);
    BusOfRun(j, rows, readCount, repetitions, Length(Executed(prog)) + 1);
  }

  lemma Timed(j: Job, rows: seq<nat>)
    requires FieldsFit(j, rows)
    ensures j.Positive()
  {
  }

  lemma ProgramWellFormed(j: Job, rows: seq<nat>, readCount: nat, repetitions: nat)
    requires j.Positive() && repetitions > 0
    ensures var prog := Program(j, rows, readCount, repetitions);
            WellFormed(prog) && NonNested(Shapes(prog)) && forall i :: 0 <= i < |prog| ==> !prog[i].IsStop()
  {
    hide Program, Run, Unroll, NonNested;
    ProgramRuns(j, rows, readCount, repetitions);
  }

  /** The ACT and PRE words among everything sent up to STOP. */
  lemma BusOfRun(j: Job, rows: seq<nat>, readCount: nat, repetitions: nat, stop: nat)
    requires FieldsFit(j, rows) && JumpsFit(j, rows, readCount, repetitions)
    requires NonNested(Shapes(Program(j, rows, readCount, repetitions)))
    ensures BusHammers(j.g, Executor.Commands(Executed(Program(j, rows, readCount, repetitions)), 1)
                            + [Event(stop, Encode(Noop(0)))])
         == RowPins(j, Repeat(rows, readCount))
  {
    hide Encode, Program, JumpFits, Executed, BusHammers, Hammers, Pairs, RowPins, Repeat, PinsAll, NonNested,
         Executor.Commands;
    var tr := Executed(Program(j, rows, readCount, repetitions));
    HammersEveryRow(j, rows, readCount, repetitions);
    ExecutedAllFit(j, rows, readCount, repetitions);
    BusIsHammers(j.g, tr, 1);
    StopIsSilent(j.g, stop);
    BusHammersPlus(j.g, Executor.Commands(tr, 1), [Event(stop, Encode(Noop(0)))]);
    RepeatMembers(rows, readCount, Pow2(j.g.AddressBits()));
    PairsOnPins(j, Repeat(rows, readCount));
    assert RowPins(j, Repeat(rows, readCount)) + [] == RowPins(j, Repeat(rows, readCount));
  }

  lemma StopIsSilent(g: Geometry, t: nat)
    ensures BusHammers(g, [Event(t, Encode(Noop(0)))]) == []
  {
    hide PinsOf, Encode;
    StopFits();
    OpSurvives(g, Noop(0));
    BusOne(g, Event(t, Encode(Noop(0))));
  }

  lemma ExecutedAllFit(j: Job, rows: seq<nat>, readCount: nat, repetitions: nat)
    requires FieldsFit(j, rows) && JumpsFit(j, rows, readCount, repetitions)
    requires WellFormed(Program(j, rows, readCount, repetitions))
    ensures AllFit(Executed(Program(j, rows, readCount, repetitions)))
  {
    hide Program, JumpFits, FieldsFit, Unroll, Repeat;
    var prog := Program(j, rows, readCount, repetitions);
    ProgramFits(j, rows, readCount, repetitions);
    assert AllFit(prog) by {
      forall i | 0 <= i < |prog| ensures prog[i].Legal() && prog[i].Fits() { assert prog[i] == (prog + [Noop(0)])[i]; }
    }
    ExecutedFit(Shapes(prog), prog, |prog|);
  }
}
