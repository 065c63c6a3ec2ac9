/** `get_expected_execution_cycles` against the executor's true cycle count. */
module CycleCount {
  import opened Isa
  import opened Loops
  import opened Executor

  lemma {:induction false} LengthPlus(a: seq<Spec>, b: seq<Spec>)
    ensures Length(a + b) == Length(a) + Length(b)
  {
    if a == [] {
      assert a + b == b;
    } else {
      LengthPlus(a[1..], b);
      assert (a + b)[1..] == a[1..] + b;
    }
  }

  lemma {:induction false} LengthRepeat(a: seq<Spec>, n: nat)
    ensures Length(Repeat(a, n)) == n * Length(a)
    decreases n
  {
    if n > 0 {
      LengthRepeat(a, n - 1);
      LengthPlus(a, Repeat(a, n - 1));
      assert n * Length(a) == Length(a) + (n - 1) * Length(a);
    }
  }

  lemma LengthOne(s: Spec)
    ensures Length([s]) == s.Duration()
  {
    assert [s][1..] == [];
  }

  /** The field `timeslice` of an instruction that has one. */
  function Timeslice(s: Spec): nat
    requires !s.Loop?
  {
    if s.Noop? then s.timeslice else s.slice
  }

  function SumTimeslices(body: seq<Spec>): nat
    requires forall i :: 0 <= i < |body| ==> !body[i].Loop?
  {
    if body == [] then 0 else SumTimeslices(body[..|body| - 1]) + Timeslice(body[|body| - 1])
  }

  /** A legal instruction that is not STOP occupies exactly its timeslice. */
  lemma {:induction false} TimeslicesAreLength(body: seq<Spec>)
    requires forall i :: 0 <= i < |body| ==> !body[i].Loop? && body[i].Legal() && !body[i].IsStop()
    ensures SumTimeslices(body) == Length(body)
  {
    if body != [] {
      var front, last := body[..|body| - 1], body[|body| - 1];
      TimeslicesAreLength(front);
      LengthPlus(front, [last]);
      LengthOne(last);
      assert body == front + [last];
    }
  }

  /** What `get_expected_execution_cycles` adds for a LOOP over `body`. */
  function LoopCycles(count: nat, body: seq<Spec>): nat
    requires forall i :: 0 <= i < |body| ==> !body[i].Loop?
  {
    count * SumTimeslices(body)
  }

  /** Sum of the COUNT fields of the LOOPs of `prog`. */
  function SumCounts(prog: seq<Spec>): nat {
    if prog == [] then 0
    else SumCounts(prog[..|prog| - 1]) + if prog[|prog| - 1].Loop? then prog[|prog| - 1].count else 0
  }

  /** Well-formed payload: jumps stay inside, no loop in a loop, legal instructions. */
  ghost predicate WellFormed(prog: seq<Spec>) {
    && NonNested(Shapes(prog))
    && forall i :: 0 <= i < |prog| ==> prog[i].Legal() && !prog[i].IsStop()
  }

  /** The cycles that one instruction of the payload accounts for, over all its visits. */
  lemma VisitLength(prog: seq<Spec>, i: nat)
    requires WellFormed(prog) && i < |prog|
    ensures prog[i].Loop? ==> var Loop(count, jump) := prog[i];
              && jump <= i && (forall k :: i - jump <= k < i ==> !prog[k].Loop?)
              && Length(Visit(Shapes(prog), prog, i)) == 1 + count * SumTimeslices(prog[i - jump..i]) + count
    ensures !prog[i].Loop? ==> Length(Visit(Shapes(prog), prog, i)) == Timeslice(prog[i])
  {
    hide Length;
    var s := Shapes(prog);
    LengthOne(prog[i]);
    if prog[i].Loop? {
      var Loop(count, jump) := prog[i];
      assert s[i] == Back(count, jump);
      var body := prog[i - jump..i];
      forall k | i - jump <= k < i ensures !prog[k].Loop? { assert s[k].Plain?; }
      TimeslicesAreLength(body);
      LengthPlus(body, [prog[i]]);
      LengthRepeat(body + [prog[i]], count);
      LengthPlus([prog[i]], Repeat(body + [prog[i]], count));
      assert count * (Length(body) + 1) == count * Length(body) + count;
    }
  }

  /** From the grant on, the executor is in RUN or IDLE for exactly `n` cycles. */
  ghost predicate BusyFor(mem: seq<nat>, r: Regs, n: nat) {
    && |mem| >= 2
    && (forall k :: 1 <= k <= n ==> Cycles(mem, r, k).fsm == RUN || Cycles(mem, r, k).fsm == IDLE)
    && Cycles(mem, r, n + 1).fsm == READY
  }

  lemma TrueCycles(mem: seq<nat>, prog: seq<Spec>, r: Regs)
    requires Stored(mem, prog) && Waiting(r)
    ensures BusyFor(mem, r, Length(Executed(prog)) + 1)
  {
    hide Cycles, Issued, Commands, Loaded, Executed, Length, Encode, Shapes, NonNested;
    RunsToStop(mem, prog, r);
    forall k | 1 <= k <= Length(Executed(prog)) + 1
      ensures Cycles(mem, r, k).fsm == RUN || Cycles(mem, r, k).fsm == IDLE
    {
      BusyMeans(mem, prog, r, k);
    }
  }

  lemma AlwaysTrueCycles(prog: seq<Spec>)
    requires NonNested(Shapes(prog))
    ensures forall mem, r :: Stored(mem, prog) && Waiting(r) ==> BusyFor(mem, r, Length(Executed(prog)) + 1)
  {
    hide *;
    forall mem, r | Stored(mem, prog) && Waiting(r) ensures BusyFor(mem, r, Length(Executed(prog)) + 1) {
      TrueCycles(mem, prog, r);
    }
  }

  /** `get_expected_execution_cycles`: the loop over the payload ends at the first STOP. `stop` is where
      that is, or the length of a payload without one. On every well-formed payload the result is the
      true number of cycles spent, STOP included, less one cycle for every jump that a LOOP takes: an
      executor that is granted the DFI with this payload in memory is busy for exactly that long. */
  method ExpectedExecutionCycles(payload: seq<Spec>, ghost stop: nat) returns (cycles: nat)
    requires stop <= |payload| && WellFormed(payload[..stop])
    requires stop < |payload| ==> payload[stop].IsStop()
    ensures cycles + SumCounts(payload[..stop])
         == Length(Executed(payload[..stop])) + if stop < |payload| then 1 else 0
    ensures stop < |payload| ==> forall mem, r :: Stored(mem, payload[..stop]) && Waiting(r) ==>
              BusyFor(mem, r, cycles + SumCounts(payload[..stop]))
  {
    hide Length, Unroll, NonNested, LoopCycles, Stored, Waiting, BusyFor, SumCounts;
    ghost var prog := payload[..stop];
    NothingYet(prog);
    cycles := 0;
    for i := 0 to |payload|
      invariant i <= stop
      invariant Length(Unroll(Shapes(prog), prog, i)) == cycles + SumCounts(prog[..i])
    {
      cycles := cycles + 1;
      var instr := payload[i];
      if i < stop {
        VisitStep(prog, i);
        SamePrefix(payload, stop, i, if instr.Loop? then instr.jump else 0);
      }
      if instr == Noop(0) {
        assert prog[..stop] == prog;
        break;
      } else if instr.Loop? {
        cycles := cycles + LoopCycles(instr.count, payload[i - instr.jump..i]);
      } else {
        cycles := cycles + Timeslice(instr) - 1;
      }
    }
    assert prog[..stop] == prog;
    AlwaysTrueCycles(prog);
  }

  lemma SamePrefix(payload: seq<Spec>, stop: nat, i: nat, jump: nat)
    requires i < stop <= |payload|
    ensures payload[..stop][i] == payload[i]
    ensures jump <= i ==> payload[..stop][i - jump..i] == payload[i - jump..i]
  {
  }

  lemma NothingYet(prog: seq<Spec>)
    requires WellFormed(prog)
    ensures Length(Unroll(Shapes(prog), prog, 0)) == 0 && SumCounts(prog[..0]) == 0
  {
  }

  lemma VisitStep(prog: seq<Spec>, i: nat)
    requires WellFormed(prog) && i < |prog|
    ensures prog[i] != Noop(0) && (!prog[i].Loop? ==> Timeslice(prog[i]) >= 1)
    ensures prog[i].Loop? ==> prog[i].jump <= i && forall k :: i - prog[i].jump <= k < i ==> !prog[k].Loop?
    ensures Length(Unroll(Shapes(prog), prog, i + 1))
         == Length(Unroll(Shapes(prog), prog, i))
            + if prog[i].Loop? then 1 + LoopCycles(prog[i].count, prog[i - prog[i].jump..i]) + prog[i].count
              else Timeslice(prog[i])
    ensures SumCounts(prog[..i + 1]) == SumCounts(prog[..i]) + if prog[i].Loop? then prog[i].count else 0
  {
    hide Length, Visit;
    VisitLength(prog, i);
    LengthPlus(Unroll(Shapes(prog), prog, i), Visit(Shapes(prog), prog, i));
    assert prog[..i + 1][..i] == prog[..i];
  }
}
