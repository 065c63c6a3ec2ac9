/** How long a generated payload takes, instruction by instruction, with refresh on and off. */
module RunTiming {
  import opened Bits
  import opened Isa
  import opened Loops
  import opened Executor
  import opened CycleCount
  import opened Compiler
  import opened CompilerCorrect
  import opened EndToEnd
  import opened RefreshSpacing

  /** A refresh replaced by a wait of the same length. */
  function AsWait(s: Spec): Spec {
    if IsRef(s) then Noop(s.slice) else s
  }

  function Waits(tr: seq<Spec>): (r: seq<Spec>)
    ensures |r| == |tr| && forall i :: 0 <= i < |tr| ==> r[i] == AsWait(tr[i])
  {
    seq(|tr|, i requires 0 <= i < |tr| => AsWait(tr[i]))
  }

  /** All refreshes of a trace take `slice` cycles. */
  ghost predicate RefsTake(tr: seq<Spec>, slice: nat) {
    forall i :: 0 <= i < |tr| && IsRef(tr[i]) ==> tr[i].slice == slice
  }

  ghost predicate Twins(on: Job, off: Job) {
    on.refresh && off == on.(refresh := false)
  }

  // ---------------------------------------------------------------- refresh on and off

  lemma WaitsPlus(a: seq<Spec>, b: seq<Spec>)
    ensures Waits(a + b) == Waits(a) + Waits(b)
  {
    hide AsWait;
  }

  lemma WaitsOne(s: Spec)
    ensures Waits([s]) == [AsWait(s)]
  {
    hide AsWait;
  }

  lemma {:induction false} WaitsRepeat(a: seq<Spec>, n: nat)
    ensures Waits(Repeat(a, n)) == Repeat(Waits(a), n)
    decreases n
  {
    hide AsWait;
    if n > 0 {
      WaitsRepeat(a, n - 1);
      WaitsPlus(a, Repeat(a, n - 1));
    }
  }

  lemma {:induction false} BodyWaits(on: Job, off: Job, rows: seq<nat>)
    requires Twins(on, off)
    ensures Body(off, rows) == Body(on, rows).(code := Waits(Body(on, rows).code))
    ensures RefsTake(Body(on, rows).code, on.t.tRFC)
    decreases |rows|
  {
    hide Address;
    if rows == [] {
      assert Body(off, rows).code == Waits(Body(on, rows).code);
    } else {
      BodyWaits(on, off, rows[..|rows| - 1]);
      assert Body(off, rows).code == Waits(Body(on, rows).code);
    }
  }

  lemma {:induction false} RefsRepeat(a: seq<Spec>, slice: nat, n: nat)
    requires RefsTake(a, slice)
    ensures RefsTake(Repeat(a, n), slice)
    decreases n
  {
    if n > 0 { RefsRepeat(a, slice, n - 1); }
  }

  lemma {:induction false} PassesWaits(on: Job, off: Job, rows: seq<nat>, counts: seq<nat>)
    requires Twins(on, off)
    ensures Passes(off, rows, counts) == Waits(Passes(on, rows, counts))
    ensures RefsTake(Passes(on, rows, counts), on.t.tRFC)
    decreases |counts|
  {
    hide Body, Repeat, AsWait, RefsTake;
    if counts == [] {
      NoRefs(on.t.tRFC);
    } else {
      var front, last := counts[..|counts| - 1], counts[|counts| - 1];
      PassesWaits(on, off, rows, front);
      BlockWaits(on, off, rows, last);
      WaitsRepeat(Block(on, rows, last), last + 1);
      RefsRepeat(Block(on, rows, last), on.t.tRFC, last + 1);
      WaitsPlus(Passes(on, rows, front), Repeat(Block(on, rows, last), last + 1));
      RefsPlus(Passes(on, rows, front), Repeat(Block(on, rows, last), last + 1), on.t.tRFC);
    }
  }

  lemma NoRefs(slice: nat)
    ensures RefsTake([], slice)
  {
  }

  lemma RefsPlus(a: seq<Spec>, b: seq<Spec>, slice: nat)
    requires RefsTake(a, slice) && RefsTake(b, slice)
    ensures RefsTake(a + b, slice)
  {
    hide IsRef;
  }

  lemma BlockWaits(on: Job, off: Job, rows: seq<nat>, count: nat)
    requires Twins(on, off)
    ensures Block(off, rows, count) == Waits(Block(on, rows, count)) && RefsTake(Block(on, rows, count), on.t.tRFC)
  {
    hide Body;
    BodyWaits(on, off, rows);
    var loop := Loop(count, 2 * |rows| + Body(on, rows).refreshes);
    WaitsPlus(Body(on, rows).code, [loop]);
    WaitsOne(loop);
    assert RefsTake([loop], on.t.tRFC);
    RefsPlus(Body(on, rows).code, [loop], on.t.tRFC);
  }

  lemma RunWaits(on: Job, off: Job, rows: seq<nat>, readCount: nat, repetitions: nat)
    requires Twins(on, off) && repetitions > 0
    ensures Run(off, rows, readCount, repetitions) == Waits(Run(on, rows, readCount, repetitions))
    ensures var tr := Run(on, rows, readCount, repetitions);
            |tr| >= 2 && IsRef(tr[|tr| - 1]) && tr[|tr| - 1].slice == 1 && RefsTake(tr[..|tr| - 1], on.t.tRFC)
  {
    hide Passes, Repeat, Counts;
    var full, one := Repeat(rows, repetitions), rows;
    var c1, c2 := Counts(readCount / repetitions), Counts(readCount % repetitions);
    PassesWaits(on, off, full, c1);
    PassesWaits(on, off, one, c2);
    var head := [Noop(Max(1, Max(on.t.tRFC - 2, on.t.tREFI - 2)))];
    var a, b := Passes(on, full, c1), Passes(on, one, c2);
    var last := Dfi(REF, 1, 0);
    assert Run(on, rows, readCount, repetitions) == head + a + b + [last];
    WaitsPlus(head, a);
    WaitsPlus(head + a, b);
    WaitsPlus(head + a + b, [last]);
    RefsPlus(head, a, on.t.tRFC);
    RefsPlus(head + a, b, on.t.tRFC);
    assert (head + a + b + [last])[..|head + a + b|] == head + a + b;
  }

  /** The same job with refresh on and off executes runs of equal length, and every instruction takes
      equally long: a refresh of tRFC cycles (the last one of 1) with refresh on is a wait of as many
      cycles with refresh off, and everything else is the same instruction. */
  lemma RefreshesAreWaits(on: Job, off: Job, rows: seq<nat>, readCount: nat, repetitions: nat)
    requires Twins(on, off) && on.Positive() && repetitions > 0
    ensures WellFormed(Program(on, rows, readCount, repetitions))
    ensures WellFormed(Program(off, rows, readCount, repetitions))
    ensures var a, b := Executed(Program(on, rows, readCount, repetitions)),
                        Executed(Program(off, rows, readCount, repetitions));
            && |a| == |b| > 0
            && forall i :: 0 <= i < |a| ==>
                 && a[i].Duration() == b[i].Duration()
                 && (if a[i].Dfi? && a[i].op == REF
                     then a[i].slice == (if i == |a| - 1 then 1 else on.t.tRFC) && b[i] == Noop(a[i].slice)
                     else b[i] == a[i])
  {
    hide Program, Run, Executed, WellFormed;
    ProgramRuns(on, rows, readCount, repetitions);
    ProgramRuns(off, rows, readCount, repetitions);
    RunWaits(on, off, rows, readCount, repetitions);
    var a := Run(on, rows, readCount, repetitions);
    forall i | 0 <= i < |a| ensures IsRef(a[i]) ==> a[i].slice == if i == |a| - 1 then 1 else on.t.tRFC {
      if i < |a| - 1 { assert a[..|a| - 1][i] == a[i]; }
    }
  }

  // ---------------------------------------------------------------- how long

  /** Cycles of a body over `n` rows with this many refreshes or waits. */
  function BodyCycles(t: Timings, n: nat, refreshes: nat): nat {
    n * (t.tRAS + t.tRP) + refreshes * t.tRFC
  }

  lemma {:induction false} BodyLength(j: Job, rows: seq<nat>)
    requires j.Positive()
    ensures Length(Body(j, rows).code) == BodyCycles(j.t, |rows|, Body(j, rows).refreshes)
    decreases |rows|
  {
    hide Address, Length, BodyCycles;
    var refresh := j.RefreshOp(j.t.tRFC);
    LengthOne(refresh);
    if rows == [] {
      CyclesGrow(j.t, 0, 0);
    } else {
      var front, row := Body(j, rows[..|rows| - 1]), rows[|rows| - 1];
      BodyLength(j, rows[..|rows| - 1]);
      PairLength(j, row);
      LengthPlus(front.code, [refresh]);
      LengthPlus(front.code + [refresh], Pair(j, row));
      LengthPlus(front.code, Pair(j, row));
      CyclesGrow(j.t, |rows| - 1, front.refreshes);
      CyclesGrow(j.t, |rows| - 1, front.refreshes + 1);
    }
  }

  lemma PairLength(j: Job, row: nat)
    requires j.Positive()
    ensures Length(Pair(j, row)) == j.t.tRAS + j.t.tRP
  {
    hide Address, Length;
    var a, p := j.Activate(row), j.Precharge();
    LengthOne(a);
    LengthOne(p);
    LengthPlus([a], [p]);
    assert [a] + [p] == Pair(j, row);
  }

  lemma CyclesGrow(t: Timings, n: nat, refreshes: nat)
    ensures BodyCycles(t, n + 1, refreshes) == BodyCycles(t, n, refreshes) + t.tRAS + t.tRP
    ensures BodyCycles(t, n, refreshes + 1) == BodyCycles(t, n, refreshes) + t.tRFC
    ensures BodyCycles(t, 0, 0) == 0
  {
    assert (n + 1) * (t.tRAS + t.tRP) == n * (t.tRAS + t.tRP) + (t.tRAS + t.tRP);
    assert (refreshes + 1) * t.tRFC == refreshes * t.tRFC + t.tRFC;
  }

  lemma {:induction false} PassesLength(j: Job, rows: seq<nat>, counts: seq<nat>)
    requires j.Positive()
    ensures Length(Passes(j, rows, counts))
         == Times(Total(counts), BodyCycles(j.t, |rows|, Body(j, rows).refreshes) + 1)
    decreases |counts|
  {
    hide Body, Repeat, Length, BodyCycles, Times;
    var each := BodyCycles(j.t, |rows|, Body(j, rows).refreshes) + 1;
    if counts == [] {
      NoTime(each);
    } else {
      var front, last := counts[..|counts| - 1], counts[|counts| - 1];
      PassesLength(j, rows, front);
      var code, loop := Body(j, rows).code, Loop(last, 2 * |rows| + Body(j, rows).refreshes);
      BodyLength(j, rows);
      LengthOne(loop);
      LengthPlus(code, [loop]);
      LengthRepeat(Block(j, rows, last), last + 1);
      LengthPlus(Passes(j, rows, front), Repeat(Block(j, rows, last), last + 1));
      TimesPlus(Total(front), last + 1, each);
    }
  }

  lemma NoTime(each: nat)
    ensures Length([]) == 0 && Times(0, each) == 0
  {
  }

  lemma TimesPlus(a: nat, b: nat, each: nat)
    ensures Times(a + b, each) == Times(a, each) + b * each
  {
  }

  /** The whole run: the initial wait, tRAS + tRP for every row, tRFC for every refresh or wait that the
      compiler counts, one cycle for every visit to a LOOP and one for the last refresh. */
  lemma RunCycles(j: Job, rows: seq<nat>, readCount: nat, repetitions: nat)
    requires j.Positive() && repetitions > 0
    ensures WellFormed(Program(j, rows, readCount, repetitions))
    ensures var q, r := readCount / repetitions, readCount % repetitions;
            var refreshes := Body(j, Repeat(rows, repetitions)).refreshes * q + Body(j, rows).refreshes * r;
            RunLength(Program(j, rows, readCount, repetitions))
            == Max(1, Max(j.t.tRFC - 2, j.t.tREFI - 2)) + readCount * |rows| * (j.t.tRAS + j.t.tRP)
               + refreshes * j.t.tRFC + (q + r) + 1
  {
    hide Body, Repeat, Length, BodyCycles, Times, Passes, Counts, WellFormed, Total, Program, Unroll;
    ProgramRuns(j, rows, readCount, repetitions);
    var q, r := readCount / repetitions, readCount % repetitions;
    var full := Repeat(rows, repetitions);
    var head, last := Noop(Max(1, Max(j.t.tRFC - 2, j.t.tREFI - 2))), j.RefreshOp(1);
    var a, b := Passes(j, full, Counts(q)), Passes(j, rows, Counts(r));
    PassesLength(j, full, Counts(q));
    PassesLength(j, rows, Counts(r));
    CountsTotal(q);
    CountsTotal(r);
    LengthOne(head);
    LengthOne(last);
    LengthPlus([head], a);
    LengthPlus([head] + a, b);
    LengthPlus([head] + a + b, [last]);
    RepeatLength(rows, repetitions);
    QuotientRemainder(readCount, repetitions);
    SumCycles(j.t, q, r, repetitions, |rows|, Body(j, full).refreshes, Body(j, rows).refreshes, |full|, readCount);
  }

  /** Adding up the passes. */
  lemma SumCycles(t: Timings, q: nat, r: nat, reps: nat, n: nat, first: nat, second: nat, nf: nat, readCount: nat)
    requires readCount == reps * q + r && nf == reps * n
    ensures Times(q, BodyCycles(t, nf, first) + 1) + Times(r, BodyCycles(t, n, second) + 1)
         == readCount * n * (t.tRAS + t.tRP) + (first * q + second * r) * t.tRFC + (q + r)
  {
    var p := t.tRAS + t.tRP;
    Spread(q, nf, p, first, t.tRFC);
    Spread(r, n, p, second, t.tRFC);
    Rows(q, r, reps, n, p, readCount);
    Split(first * q, second * r, t.tRFC);
  }

  lemma Spread(q: nat, n: nat, p: nat, refs: nat, c: nat)
    ensures q * (n * p + refs * c + 1) == (q * n) * p + (refs * q) * c + q
  {
    assert q * (n * p + refs * c + 1) == q * (n * p) + q * (refs * c) + q;
    assert q * (n * p) == (q * n) * p;
    assert q * (refs * c) == (refs * q) * c;
  }

  lemma Rows(q: nat, r: nat, reps: nat, n: nat, p: nat, readCount: nat)
    requires readCount == reps * q + r
    ensures (q * (reps * n)) * p + (r * n) * p == readCount * n * p
  {
    assert readCount * n == (reps * q) * n + r * n;
    assert (reps * q) * n == q * (reps * n);
    Split(q * (reps * n), r * n, p);
  }

  lemma Split(a: nat, b: nat, c: nat)
    ensures (a + b) * c == a * c + b * c
  {
  }

  // ---------------------------------------------------------------- on the bus

  /** An ACT or PRE on the bus, with its cycle. */
  datatype Stamped = Stamped(at: nat, pins: Pins)

  function Stamps(g: Geometry, events: seq<Event>): seq<Stamped> {
    if events == [] then [] else Stamp(g, events[0]) + Stamps(g, events[1..])
  }

  function Stamp(g: Geometry, e: Event): seq<Stamped> {
    var pins := PinsOf(g, e.word);
    if pins.opCode == Code(ACT) || pins.opCode == Code(PRE) then [Stamped(e.at, pins)] else []
  }

  /** The same of executed instructions. */
  function SpecStamps(g: Geometry, tr: seq<Spec>, t: nat): seq<Stamped> {
    if tr == [] then []
    else (if Pick(tr[0]) == [] then [] else [Stamped(t, PinsOf(g, Encode(tr[0])))])
         + SpecStamps(g, tr[1..], t + tr[0].Duration())
  }

  lemma {:induction false} StampsPlus(g: Geometry, a: seq<Event>, b: seq<Event>)
    ensures Stamps(g, a + b) == Stamps(g, a) + Stamps(g, b)
    decreases |a|
  {
    hide Stamp;
    if a == [] {
      assert a + b == b;
    } else {
      StampsPlus(g, a[1..], b);
      assert (a + b)[1..] == a[1..] + b;
      Associate(Stamp(g, a[0]), Stamps(g, a[1..]), Stamps(g, b));
    }
  }

  lemma WordStamp(g: Geometry, s: Spec, t: nat)
    requires s.Legal() && s.Fits()
    ensures Stamps(g, [Event(t, Encode(s))]) == if Pick(s) == [] then [] else [Stamped(t, PinsOf(g, Encode(s)))]
    ensures Stamps(g, []) == []
  {
    hide PinsOf, Encode;
    OpSurvives(g, s);
    assert [Event(t, Encode(s))][1..] == [];
  }

  lemma {:induction false} WordsAreStamps(g: Geometry, tr: seq<Spec>, t: nat)
    requires AllFit(tr)
    ensures Stamps(g, Executor.Commands(tr, t)) == SpecStamps(g, tr, t)
    decreases |tr|
  {
    hide Encode, Stamps, PinsOf, Spec.Fits, Spec.Legal;
    if tr == [] {
      NoStamps(g);
    } else {
      var s := tr[0];
      var rest := Executor.Commands(tr[1..], t + s.Duration());
      WordsAreStamps(g, tr[1..], t + s.Duration());
      if s.Loop? {
        assert [] + rest == rest && [] + Stamps(g, rest) == Stamps(g, rest);
      } else {
        WordStamp(g, s, t);
        StampsPlus(g, [Event(t, Encode(s))], rest);
      }
    }
  }

  lemma NoStamps(g: Geometry)
    ensures Stamps(g, []) == []
  {
  }

  lemma {:induction false} WaitsKeepStamps(g: Geometry, tr: seq<Spec>, t: nat)
    ensures SpecStamps(g, Waits(tr), t) == SpecStamps(g, tr, t)
    decreases |tr|
  {
    hide Encode, PinsOf;
    if tr != [] {
      WaitsKeepStamps(g, tr[1..], t + tr[0].Duration());
      assert Waits(tr)[1..] == Waits(tr[1..]);
    }
  }

  /** The payload of a job, in memory, waiting for the grant. */
  ghost predicate Runnable(j: Job, rows: seq<nat>, readCount: nat, repetitions: nat, mem: seq<nat>, r: Regs) {
    && FieldsFit(j, rows) && JumpsFit(j, rows, readCount, repetitions) && Waiting(r)
    && InMemory(mem, Program(j, rows, readCount, repetitions) + [Noop(0)])
  }

  lemma BusStamps(j: Job, rows: seq<nat>, readCount: nat, repetitions: nat, mem: seq<nat>, r: Regs)
    requires Runnable(j, rows, readCount, repetitions, mem, r)
    ensures WellFormed(Program(j, rows, readCount, repetitions))
    ensures var prog := Program(j, rows, readCount, repetitions);
            var events := Issued(mem, r, 0, RunLength(prog) + 2);
            && events == Executor.Commands(Executed(prog), 1) + [Event(RunLength(prog) + 1, Encode(Noop(0)))]
            && Stamps(j.g, events) == SpecStamps(j.g, Executed(prog), 1)
  {
    hide Encode, Program, JumpFits, Executed, Cycles, Issued, Length, Repeat, Loaded, FieldsFit, NonNested,
         Executor.Commands, Stamps, SpecStamps, PinsOf, At, EncodeAll, PcRange, Shapes;
    var prog := Program(j, rows, readCount, repetitions);
    Timed(j, rows);
    ProgramWellFormed(j, rows, readCount, repetitions);
    PayloadIsLoaded(j, rows, readCount, repetitions, mem);
    RunsToStop(mem, prog, r);
    PayloadStamps(j, rows, readCount, repetitions, Length(Executed(prog)) + 1);
  }

  lemma PayloadStamps(j: Job, rows: seq<nat>, readCount: nat, repetitions: nat, stop: nat)
    requires FieldsFit(j, rows) && JumpsFit(j, rows, readCount, repetitions)
    requires WellFormed(Program(j, rows, readCount, repetitions))
    ensures var tr := Executed(Program(j, rows, readCount, repetitions));
            Stamps(j.g, Executor.Commands(tr, 1) + [Event(stop, Encode(Noop(0)))]) == SpecStamps(j.g, tr, 1)
  {
    hide Encode, Program, JumpFits, Executed, Repeat, FieldsFit, NonNested, Executor.Commands, Stamps, SpecStamps,
         PinsOf;
    var tr := Executed(Program(j, rows, readCount, repetitions));
    ExecutedAllFit(j, rows, readCount, repetitions);
    WordsAreStamps(j.g, tr, 1);
    StopFits();
    WordStamp(j.g, Noop(0), stop);
    StampsPlus(j.g, Executor.Commands(tr, 1), [Event(stop, Encode(Noop(0)))]);
    assert SpecStamps(j.g, tr, 1) + [] == SpecStamps(j.g, tr, 1);
  }

  /** With refresh on or off, the activations and precharges are on the bus in the same cycles. */
  lemma SameStamps(on: Job, off: Job, rows: seq<nat>, readCount: nat, repetitions: nat, memOn: seq<nat>,
                   memOff: seq<nat>, r: Regs)
    requires Twins(on, off) && Runnable(on, rows, readCount, repetitions, memOn, r)
    requires Runnable(off, rows, readCount, repetitions, memOff, r)
    ensures WellFormed(Program(on, rows, readCount, repetitions))
    ensures WellFormed(Program(off, rows, readCount, repetitions))
    ensures Stamps(on.g, Issued(memOn, r, 0, RunLength(Program(on, rows, readCount, repetitions)) + 2))
         == Stamps(on.g, Issued(memOff, r, 0, RunLength(Program(off, rows, readCount, repetitions)) + 2))
  {
    hide Encode, Program, JumpFits, Executed, Cycles, Issued, Length, Repeat, Loaded, FieldsFit, NonNested,
         Executor.Commands, Stamps, SpecStamps, PinsOf, Run, WellFormed, InMemory;
    Timed(on, rows);
    BusStamps(on, rows, readCount, repetitions, memOn, r);
    BusStamps(off, rows, readCount, repetitions, memOff, r);
    ProgramRuns(on, rows, readCount, repetitions);
    ProgramRuns(off, rows, readCount, repetitions);
    RunWaits(on, off, rows, readCount, repetitions);
    WaitsKeepStamps(on.g, Run(on, rows, readCount, repetitions), 1);
  }

  /** The initial wait goes out in the first cycle of RUN, and the next command exactly
      max(1, tRFC - 2, tREFI - 2) cycles later. */
  lemma FirstCommands(j: Job, rows: seq<nat>, readCount: nat, repetitions: nat, mem: seq<nat>, r: Regs)
    requires Runnable(j, rows, readCount, repetitions, mem, r)
    ensures WellFormed(Program(j, rows, readCount, repetitions))
    ensures var events := Issued(mem, r, 0, RunLength(Program(j, rows, readCount, repetitions)) + 2);
            var wait := Max(1, Max(j.t.tRFC - 2, j.t.tREFI - 2));
            |events| >= 2 && events[0] == Event(1, Encode(Noop(wait))) && events[1].at == 1 + wait
  {
    hide Encode, Program, JumpFits, Executed, Cycles, Issued, Length, Repeat, Loaded, FieldsFit, NonNested,
         Stamps, SpecStamps, PinsOf, InMemory, Run, WellFormed;
    BusStamps(j, rows, readCount, repetitions, mem, r);
    Timed(j, rows);
    ProgramRuns(j, rows, readCount, repetitions);
    StartOfRun(j, rows, readCount, repetitions);
    var tr := Run(j, rows, readCount, repetitions);
    assert tr[1..][0] == tr[1];
  }

  lemma StartOfRun(j: Job, rows: seq<nat>, readCount: nat, repetitions: nat)
    requires j.Positive() && repetitions > 0
    ensures var tr := Run(j, rows, readCount, repetitions);
            |tr| >= 2 && tr[0] == Noop(Max(1, Max(j.t.tRFC - 2, j.t.tREFI - 2))) && !tr[1].Loop?
  {
    hide Repeat, Counts, Body;
    var full, c1, c2 := Repeat(rows, repetitions), Counts(readCount / repetitions), Counts(readCount % repetitions);
    PassesStart(j, full, c1);
    PassesStart(j, rows, c2);
    var a, b := Passes(j, full, c1), Passes(j, rows, c2);
    var tr := Run(j, rows, readCount, repetitions);
    assert tr[1] == if a != [] then a[0] else if b != [] then b[0] else j.RefreshOp(1);
  }

  lemma {:induction false} PassesStart(j: Job, rows: seq<nat>, counts: seq<nat>)
    requires j.Positive()
    ensures Passes(j, rows, counts) != [] ==> !Passes(j, rows, counts)[0].Loop?
    decreases |counts|
  {
    hide Body;
    if counts != [] {
      PassesStart(j, rows, counts[..|counts| - 1]);
      BodyIsStraight(j, rows);
      BodyNotEmpty(j, rows);
    }
  }

  lemma {:induction false} BodyNotEmpty(j: Job, rows: seq<nat>)
    ensures Body(j, rows).code != []
  {
    hide Address;
    if rows != [] { BodyNotEmpty(j, rows[..|rows| - 1]); }
  }
}
