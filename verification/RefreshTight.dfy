/** When the refreshes of a generated payload are more than tREFI apart. */
module RefreshTight {
  import opened Bits
  import opened Isa
  import opened Loops
  import opened Executor
  import opened CycleCount
  import opened Compiler
  import opened CompilerCorrect
  import opened RefreshSpacing
  import Lcm

  /** `n` rows fill their last refresh interval: the activations of one interval use up tREFI to the
      cycle, and the rows after the first segment, which is one short, fill whole intervals. */
  predicate FillsInterval(t: Timings, n: nat)
    requires t.tRP + t.tRAS > 0 && t.ActsPerInterval() > 0
  {
    var acts := t.ActsPerInterval();
    (t.tREFI - t.tRFC) % (t.tRP + t.tRAS) == 0 && n >= acts && (n + 1) % acts == 0
  }

  /** Some body of the payload does so. */
  predicate RunFills(t: Timings, n: nat, readCount: nat, repetitions: nat)
    requires t.tRP + t.tRAS > 0 && t.ActsPerInterval() > 0 && repetitions > 0
  {
    (readCount / repetitions > 0 && FillsInterval(t, Times(repetitions, n)))
    || (readCount % repetitions > 0 && FillsInterval(t, n))
  }

  lemma ModAdd(a: int, p: int)
    requires p > 0
    ensures (a + p) % p == a % p
  {
    var q, r := a / p, a % p;
    assert a == q * p + r;
    assert a + p == (q + 1) * p + r;
    var q', r' := (a + p) / p, (a + p) % p;
    assert a + p == q' * p + r';
    assert (q + 1 - q') * p == (q + 1) * p - q' * p;
    SmallMultiple(q + 1 - q', p);
  }

  /** After its first segment a body has spent tRFC and a whole number of row cycles. */
  lemma {:induction false} WholeCycles(j: Job, rows: seq<nat>)
    requires j.Positive() && Body(j, rows).refreshes > 1
    ensures (Body(j, rows).accum - j.t.tRFC) % (j.t.tRP + j.t.tRAS) == 0
    decreases |rows|
  {
    hide Address;
    var p, front := j.t.tRP + j.t.tRAS, Body(j, rows[..|rows| - 1]);
    ModAdd(0, p);
    if front.refreshes > 1 && front.accum + p <= j.t.tREFI {
      WholeCycles(j, rows[..|rows| - 1]);
      ModAdd(front.accum - j.t.tRFC, p);
    }
  }

  /** What `n` rows of a body have spent, when `acts` row cycles use up an interval to the cycle. */
  function Spent(t: Timings, acts: nat, n: nat): nat
    requires acts > 0
  {
    var p := t.tRP + t.tRAS;
    if n < acts then t.tRFC + 1 + Times(n, p) else t.tRFC + Times(1 + (n - acts) % acts, p)
  }

  lemma {:induction false} ExactBody(j: Job, rows: seq<nat>, acts: nat)
    requires j.Positive() && acts > 0 && j.t.tREFI == j.t.tRFC + Times(acts, j.t.tRP + j.t.tRAS)
    ensures Body(j, rows).accum == Spent(j.t, acts, |rows|)
    ensures Body(j, rows).refreshes > 1 <==> |rows| >= acts
    ensures Body(j, rows).refreshes >= 1
    decreases |rows|
  {
    hide Address, Spent;
    SpentStep(j.t, acts, |rows|);
    if rows != [] { ExactBody(j, rows[..|rows| - 1], acts); }
  }

  /** The first segment ends one row short of a full interval, all others when the interval is full. */
  lemma SpentStep(t: Timings, acts: nat, n: nat)
    requires t.tRP + t.tRAS > 0 && acts > 0 && t.tREFI == t.tRFC + Times(acts, t.tRP + t.tRAS)
    ensures n == 0 ==> Spent(t, acts, n) == t.tRFC + 1
    ensures n > 0 ==> var p, before := t.tRP + t.tRAS, Spent(t, acts, n - 1);
                      && Spent(t, acts, n) == (if before + p > t.tREFI then t.tRFC else before) + p
                      && (n < acts ==> before + p <= t.tREFI) && (n == acts ==> before + p > t.tREFI)
  {
    hide Times;
    var p := t.tRP + t.tRAS;
    if n == 0 {
      RowCycles(0, acts, p);
    } else if n <= acts {
      RowCycles(n - 1, acts, p);
      RowCycles(n, acts, p);
      ModuloStep(0, acts - 1);
    } else {
      var done := (n - 1 - acts) % acts;
      ModuloStep(n - 1 - acts, acts - 1);
      RowCycles(1 + done, acts, p);
    }
  }

  lemma RowCycles(n: nat, acts: nat, p: nat)
    requires p > 0
    ensures Times(0, p) == 0 && Times(1, p) == p && Times(n + 1, p) == Times(n, p) + p
    ensures n < acts ==> Times(n, p) + p <= Times(acts, p)
    ensures n == acts ==> Times(n, p) == Times(acts, p)
  {
    assert (n + 1) * p == n * p + p;
    if n < acts {
      var more := acts - n - 1;
      assert more * p >= 0;
      assert (n + 1 + more) * p == (n + 1) * p + more * p;
    }
  }

  /** A body ends with a tight segment exactly if its rows fill their last interval. */
  lemma TightIff(j: Job, rows: seq<nat>)
    requires j.Positive() && j.t.ActsPerInterval() > 0
    ensures Tight(j, rows) <==> FillsInterval(j.t, |rows|)
  {
    hide Body;
    var p, acts := j.t.tRP + j.t.tRAS, j.t.ActsPerInterval();
    assert j.t.tREFI - j.t.tRFC == acts * p + (j.t.tREFI - j.t.tRFC) % p;
    if (j.t.tREFI - j.t.tRFC) % p == 0 {
      ExactBody(j, rows, acts);
      if |rows| >= acts {
        LastOfInterval(|rows|, acts);
        RowCycles(1 + (|rows| - acts) % acts, acts, p);
      }
    } else if Body(j, rows).refreshes > 1 {
      WholeCycles(j, rows);
    }
  }

  lemma LastOfInterval(n: nat, acts: nat)
    requires n >= acts > 0
    ensures (n - acts) % acts == acts - 1 <==> (n + 1) % acts == 0
  {
    ModAdd(n - acts, acts);
    ModuloStep(n, acts - 1);
  }

  /** A body of a whole number of refresh intervals, which is what the compiler aims for, is safe unless
      an interval holds a single activation. */
  lemma WholeIntervalsAreSafe(t: Timings, n: nat)
    requires t.tRP + t.tRAS > 0 && t.ActsPerInterval() > 1 && n % t.ActsPerInterval() == 0
    ensures !FillsInterval(t, n)
  {
    ModuloStep(n, t.ActsPerInterval() - 1);
  }

  /** The cycle charged in advance does not cover the jump: the documented bound of tREFI between any
      two refreshes holds exactly when no body of the payload fills its last interval to the cycle. */
  lemma TrefiBoundIff(j: Job, rows: seq<nat>, readCount: nat, repetitions: nat)
    requires j.Positive() && j.refresh && j.t.ActsPerInterval() > 0 && rows != [] && repetitions > 0
    ensures WellFormed(Program(j, rows, readCount, repetitions))
    ensures var tr := Executed(Program(j, rows, readCount, repetitions));
            (forall i, k :: Consecutive(tr, i, k) ==> Close(j.t, 0, tr, i, k))
            <==> !RunFills(j.t, |rows|, readCount, repetitions)
  {
    hide Spaced, Run, Program, Executed, WellFormed, Close, Consecutive, Tight, FillsInterval, Repeat;
    NotEnoughTime(j.t);
    TightIff(j, rows);
    TightIff(j, Repeat(rows, repetitions));
    RepeatLength(rows, repetitions);
    ProgramRuns(j, rows, readCount, repetitions);
    RunSpaced(j, 0, rows, readCount, repetitions);
    SpacedIffClose(j.t, 0, Run(j, rows, readCount, repetitions));
  }

  /** Payloads without a remainder whose loop body is the whole least common multiple, of at least two
      activations per interval, meet the bound of tREFI. */
  lemma WholeUnitsMeetBound(j: Job, rows: seq<nat>, readCount: nat, repetitions: nat, unit: int)
    requires j.Positive() && j.refresh && j.t.ActsPerInterval() > 1 && rows != [] && repetitions > 0
    requires Lcm.IsLcm(j.t.ActsPerInterval(), |rows|, unit) && unit <= 65535
    requires RepetitionsOf(j.t, |rows|, repetitions) && readCount % repetitions == 0
    ensures WellFormed(Program(j, rows, readCount, repetitions))
    ensures var tr := Executed(Program(j, rows, readCount, repetitions));
            forall i, k :: Consecutive(tr, i, k) ==> Close(j.t, 0, tr, i, k)
  {
    hide Program, Executed, Close, Consecutive, NonNested, FillsInterval;
    UnitIsWhole(j.t, |rows|, repetitions, unit);
    WholeIntervalsAreSafe(j.t, Times(repetitions, |rows|));
    TrefiBoundIff(j, rows, readCount, repetitions);
  }

  lemma UnitIsWhole(t: Timings, n: nat, repetitions: nat, unit: int)
    requires t.tRP + t.tRAS > 0 && n > 0 && RepetitionsOf(t, n, repetitions)
    requires Lcm.IsLcm(t.ActsPerInterval(), n, unit) && unit <= 65535
    ensures Times(repetitions, n) == unit
  {
    var m :| Lcm.IsLcm(t.ActsPerInterval(), n, m) && repetitions == Min(m, MaxActs()) / n;
    assert m == unit;
    QuotientRemainder(unit, n);
  }

  /** A payload that breaks the bound: two rows, each filling the interval. */
  lemma TightExample() returns (j: Job, rows: seq<nat>, i: int, k: int)
    ensures j == Job(Timings(2, 2, 5, 1), Geometry(0, 3, 14, 10), 0, 0, true) && rows == [7, 8]
    ensures WellFormed(Program(j, rows, 1, 1))
    ensures var tr := Executed(Program(j, rows, 1, 1)); Consecutive(tr, i, k) && !Close(j.t, 0, tr, i, k)
  {
    hide Program, Executed, Close, NonNested;
    j, rows := Job(Timings(2, 2, 5, 1), Geometry(0, 3, 14, 10), 0, 0, true), [7, 8];
    TrefiBoundIff(j, rows, 1, 1);
    assert j.t.ActsPerInterval() == 1;
    assert RunFills(j.t, |rows|, 1, 1);
    var tr := Executed(Program(j, rows, 1, 1));
    i, k :| Consecutive(tr, i, k) && !Close(j.t, 0, tr, i, k);
  }
}
