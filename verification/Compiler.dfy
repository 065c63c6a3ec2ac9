/** The payload compiler of the playbook: "activate these rows `read_count` times,
    refreshing every tREFI", compiled to payload instructions. */
module Compiler {
  import opened Bits
  import opened Isa
  import opened Loops
  import Lcm

  /** The timings the compiler reads, in clock cycles. */
  datatype Timings = Timings(tRAS: nat, tRP: nat, tREFI: nat, tRFC: nat) {
    /** At least one activation fits between two refreshes. */
    predicate EnoughTime() {
      tRFC + tRAS + tRP <= tREFI
    }

    /** Activations that fit between two refreshes, with Python's floor division. */
    function ActsPerInterval(): int
      requires tRP + tRAS > 0
    {
      (tREFI - tRFC) / (tRP + tRAS)
    }
  }

  /** How many activations a loop body may hold: two instructions each, and the jump field counts them. */
  function MaxActs(): (n: nat)
    ensures n == 65535
  {
    PowersOfInterest();
    (Pow2(LOOP_JUMP) - 1) / 2
  }

  /** The number of copies of the row sequence in one loop body: a multiple of the refresh interval
      and of the sequence where that fits the jump field, as much as fits otherwise. */
  ghost predicate RepetitionsOf(t: Timings, n: nat, repetitions: nat)
    requires t.tRP + t.tRAS > 0 && n > 0
  {
    repetitions > 0 && exists m :: Lcm.IsLcm(t.ActsPerInterval(), n, m) && repetitions == Min(m, MaxActs()) / n
  }

  predicate JumpFits(j: Job, rows: seq<nat>) {
    2 * |rows| + Body(j, rows).refreshes < Pow2(LOOP_JUMP)
  }

  /** The assertions of `encode_one_loop` for the LOOPs that are emitted. */
  predicate JumpsFit(j: Job, rows: seq<nat>, readCount: nat, repetitions: nat) {
    repetitions > 0 && (readCount / repetitions > 0 ==> JumpFits(j, Repeat(rows, repetitions)))
    && (readCount % repetitions > 0 ==> JumpFits(j, rows))
  }

  /** What stays fixed while one payload is generated. */
  datatype Job = Job(t: Timings, g: Geometry, bank: nat, rank: nat, refresh: bool) {
    /** What the constructors of the emitted instructions assert about their timeslices. */
    predicate Encodable() {
      t.tRAS > 0 && t.tRP > 0 && (refresh ==> t.tRFC > 0)
    }

    /** The same for a body over `rows`; one without rows holds no ACT and no PRE. */
    predicate Encodes(rows: seq<nat>) {
      (rows != [] ==> t.tRAS > 0 && t.tRP > 0) && (refresh ==> t.tRFC > 0)
    }

    /** No timeslice is 0. Without refresh the source accepts a tRFC of 0, but emits STOP for it. */
    predicate Positive() {
      t.tRAS > 0 && t.tRP > 0 && t.tRFC > 0
    }

    function RefreshOp(timeslice: nat): Spec {
      if refresh then Dfi(REF, timeslice, 0) else Noop(timeslice)
    }

    function Activate(row: nat): Spec {
      Dfi(ACT, t.tRAS, Address(g, rank, bank, row))
    }

    /** Precharge of all banks: column bit 10 is set. */
    function Precharge(): Spec {
      Dfi(PRE, t.tRP, Address(g, rank, 0, 1024))
    }
  }

  // ---------------------------------------------------------------- what is emitted

  /** A loop body under construction. */
  datatype Emitted = Emitted(code: seq<Spec>, accum: nat, refreshes: nat)

  /** One row: refresh first if the row would end after tREFI, then activate and precharge. */
  function AddRow(j: Job, e: Emitted, row: nat): Emitted {
    var pair := j.t.tRAS + j.t.tRP;
    var e' := if e.accum + pair > j.t.tREFI
              then Emitted(e.code + [j.RefreshOp(j.t.tRFC)], j.t.tRFC, e.refreshes + 1) else e;
    Emitted(e'.code + [j.Activate(row), j.Precharge()], e'.accum + pair, e'.refreshes)
  }

  function Body(j: Job, rows: seq<nat>): Emitted {
    if rows == [] then Emitted([j.RefreshOp(j.t.tRFC)], j.t.tRFC + 1, 1)
    else AddRow(j, Body(j, rows[..|rows| - 1]), rows[|rows| - 1])
  }

  /** A body and the LOOP over it. */
  function Block(j: Job, rows: seq<nat>, count: nat): seq<Spec> {
    var body := Body(j, rows);
    body.code + [Loop(count, 2 * |rows| + body.refreshes)]
  }

  /** The LOOP counts that make up `rolled` passes: each LOOP gives count + 1 passes, at most 4096. */
  function Counts(rolled: nat): seq<nat> {
    if rolled == 0 then []
    else if rolled <= 4096 then [rolled - 1]
    else Counts(rolled - 4096) + [4095]
  }

  function Blocks(j: Job, rows: seq<nat>, counts: seq<nat>): seq<Spec> {
    if counts == [] then []
    else Blocks(j, rows, counts[..|counts| - 1]) + Block(j, rows, counts[|counts| - 1])
  }

  /** The whole payload before its STOP: wait, full passes, remaining passes, last refresh. */
  function Program(j: Job, rows: seq<nat>, readCount: nat, repetitions: nat): seq<Spec>
    requires repetitions > 0
  {
    [Noop(Max(1, Max(j.t.tRFC - 2, j.t.tREFI - 2)))]
    + Blocks(j, Repeat(rows, repetitions), Counts(readCount / repetitions))
    + Blocks(j, rows, Counts(readCount % repetitions))
    + [j.RefreshOp(1)]
  }

  function Max(a: int, b: int): (m: int)
    ensures m >= a && m >= b && (m == a || m == b)
  {
    if a >= b then a else b
  }

  function Min(a: int, b: int): (m: int)
    ensures m <= a && m <= b && (m == a || m == b)
  {
    if a <= b then a else b
  }

  // ---------------------------------------------------------------- the compiler

  /** What a call of `generate_payload_from_row_list` ends with. */
  datatype Outcome = Words(words: seq<nat>) | AssertionFailed | DivisionByZero | ExceedsMemory

  /** The compiler with its shared, growing `payload` list. */
  class PayloadBuilder {
    const job: Job
    var payload: seq<Spec>

    constructor (job: Job)
      ensures this.job == job && payload == []
    {
      this.job, payload := job, [];
    }

    /** `encode_one_loop` */
    method EncodeOneLoop(unrolled: nat, rolled: nat, rowSequence: seq<nat>) returns (ok: bool, refreshes: nat)
      modifies this
      ensures var rows := Repeat(rowSequence, unrolled);
              && ok == (job.Encodes(rows) && JumpFits(job, rows))
              && (ok ==> payload == old(payload) + Block(job, rows, rolled))
              && (ok ==> refreshes == Body(job, rows).refreshes * (rolled + 1))
    {
      hide Address, Pow2, Body, Repeat, Job.Activate, Job.Precharge, Job.RefreshOp;
      BodyEmpty(job, rowSequence);
      var tras, trp, trefi, trfc := job.t.tRAS, job.t.tRP, job.t.tREFI, job.t.tRFC;
      var localRefreshes := 1;
      if job.refresh && trfc == 0 {
        return false, 0;
      }
      payload := payload + [job.RefreshOp(trfc)];
      var accum := trfc + 1;
      for idx := 0 to unrolled
        invariant job.Encodes(Repeat(rowSequence, idx))
        invariant payload == old(payload) + Body(job, Repeat(rowSequence, idx)).code
        invariant accum == Body(job, Repeat(rowSequence, idx)).accum
        invariant localRefreshes == Body(job, Repeat(rowSequence, idx)).refreshes
      {
        ghost var full := Repeat(rowSequence, idx);
        assert full + rowSequence[..0] == full;
        for k := 0 to |rowSequence|
          invariant job.Encodes(full + rowSequence[..k])
          invariant payload == old(payload) + Body(job, full + rowSequence[..k]).code
          invariant accum == Body(job, full + rowSequence[..k]).accum
          invariant localRefreshes == Body(job, full + rowSequence[..k]).refreshes
        {
          var row := rowSequence[k];
          BodySnoc(job, full + rowSequence[..k], row);
          assert full + rowSequence[..k] + [row] == full + rowSequence[..k + 1];
          if accum + tras + trp > trefi {
            payload := payload + [job.RefreshOp(trfc)];
            accum := trfc;
            localRefreshes := localRefreshes + 1;
          }
          accum := accum + tras + trp;
          if tras == 0 || trp == 0 {
            RepeatSome(rowSequence, unrolled);
            return false, 0;
          }
          payload := payload + [job.Activate(row), job.Precharge()];
        }
        RepeatSnoc(rowSequence, idx);
        assert rowSequence[..|rowSequence|] == rowSequence;
      }
      var jumpTarget := 2 * unrolled * |rowSequence| + localRefreshes;
      RepeatLength(rowSequence, unrolled);
      assert jumpTarget == 2 * |Repeat(rowSequence, unrolled)| + localRefreshes;
      ok := jumpTarget < Pow2(LOOP_JUMP);
      refreshes := localRefreshes * (rolled + 1);
      if ok {
        payload := payload + [Loop(rolled, jumpTarget)];
      }
    }

    /** `encode_long_loop`: enough LOOPs of at most 4096 passes for `rolled` passes. */
    method EncodeLongLoop(unrolled: nat, rolled: nat, rowSequence: seq<nat>) returns (ok: bool, refreshes: nat)
      modifies this
      ensures var rows := Repeat(rowSequence, unrolled);
              && ok == (rolled == 0 || (job.Encodes(rows) && JumpFits(job, rows)))
              && (ok ==> payload == old(payload) + Blocks(job, rows, Counts(rolled)))
              && (ok ==> refreshes == Body(job, rows).refreshes * rolled)
    {
      hide Body, Block, Blocks, Counts, Pow2, Repeat;
      BlocksNone(job, Repeat(rowSequence, unrolled));
      ghost var rows := Repeat(rowSequence, unrolled);
      ok, refreshes := true, 0;
      var countMax := 4095;
      var nLoops := (rolled + countMax) / (countMax + 1);
      for outer := 0 to nLoops
        invariant ok
        invariant outer > 0 ==> job.Encodes(rows) && JumpFits(job, rows)
        invariant payload == old(payload) + Blocks(job, rows, Counts(PassesDone(rolled, nLoops, outer)))
        invariant refreshes == Body(job, rows).refreshes * PassesDone(rolled, nLoops, outer)
      {
        var loopCount := countMax;
        if outer == 0 {
          loopCount := rolled % (countMax + 1);
          if loopCount == 0 {
            loopCount := countMax;
          } else {
            loopCount := loopCount - 1;
          }
        }
        CountsStep(rolled, nLoops, outer);
        ghost var done := PassesDone(rolled, nLoops, outer);
        var more;
        ok, more := EncodeOneLoop(unrolled, loopCount, rowSequence);
        if !ok {
          return;
        }
        refreshes := refreshes + more;
        Factor(Body(job, rows).refreshes, done, loopCount + 1);
        BlocksSnoc(job, rows, Counts(done), loopCount);
      }
    }

    /** The first part of `generate_payload_from_row_list`: copies of the `n` rows in one loop body. */
    method ChooseRepetitions(n: nat) returns (status: Outcome, reps: nat)
      ensures !status.ExceedsMemory? && (status.Words? ==> reps > 0)
      ensures status.DivisionByZero? <==> n == 0 || job.t.tRP + job.t.tRAS == 0
      ensures status.AssertionFailed? <==> !status.DivisionByZero? && !(job.t.EnoughTime() && n <= 65535)
      ensures status.Words? ==> RepetitionsOf(job.t, n, reps)
    {
      hide Lcm.IsLcm, RepetitionsOf;
      if job.t.tRP + job.t.tRAS == 0 {
        return DivisionByZero, 0;
      }
      var acts := job.t.ActsPerInterval();
      NotEnoughTime(job.t);
      var maxActs := MaxActs();
      var divides, lcm := Lcm.LeastCommonMultiple(acts, n);
      if !divides {
        return DivisionByZero, 0;
      }
      var unit := Min(lcm, maxActs);
      if acts > 0 && n > 0 { LcmAtLeast(acts, n, lcm); }
      if unit < n {
        return AssertionFailed, 0;
      }
      if n == 0 {
        return DivisionByZero, 0;
      }
      status, reps := Words([]), unit / n;
      QuotientBounds(unit, n);
      AreRepetitions(job.t, n, lcm, reps);
    }

    /** `generate_payload_from_row_list` without the console output. */
    method Generate(readCount: nat, rowSequence: seq<nat>, payloadMemSize: nat)
      returns (outcome: Outcome, refreshes: nat, ghost repetitions: nat)
      modifies this
      ensures outcome.DivisionByZero? <==> rowSequence == [] || job.t.tRP + job.t.tRAS == 0
      ensures !outcome.DivisionByZero? && job.t.EnoughTime() && |rowSequence| <= 65535 ==>
                RepetitionsOf(job.t, |rowSequence|, repetitions)
      ensures outcome.AssertionFailed? <==>
                !outcome.DivisionByZero? && !(job.t.EnoughTime() && |rowSequence| <= 65535
                                              && (readCount > 0 ==> job.Encodable())
                                              && JumpsFit(job, rowSequence, readCount, repetitions))
      ensures outcome.Words? || outcome.ExceedsMemory? ==>
                && repetitions > 0
                && payload == Program(job, rowSequence, readCount, repetitions) + [Noop(0)]
                && (outcome.Words? <==> 4 * |payload| <= payloadMemSize)
                && (outcome.Words? ==> outcome.words == EncodeAll(payload))
                && refreshes == Body(job, Repeat(rowSequence, repetitions)).refreshes * (readCount / repetitions)
                                + Body(job, rowSequence).refreshes * (readCount % repetitions)
    {
      hide Body, Block, Blocks, Counts, Encode, Pow2, Repeat, Lcm.IsLcm, RepetitionsOf, Program, JumpFits, Max,
           EncodeAll;
      refreshes, repetitions := 0, 0;
      var status, reps := ChooseRepetitions(|rowSequence|);
      if !status.Words? {
        return status, 0, 0;
      }
      repetitions := reps;
      QuotientRemainder(readCount, reps);
      RepeatSome(rowSequence, reps);
      payload := [Noop(Max(1, Max(job.t.tRFC - 2, job.t.tREFI - 2)))];
      ghost var head := payload;
      var ok, first := EncodeLongLoop(reps, readCount / reps, rowSequence);
      if !ok {
        return AssertionFailed, 0, reps;
      }
      ghost var full := Blocks(job, Repeat(rowSequence, reps), Counts(readCount / reps));
      assert payload == head + full;
      var ok', second := EncodeLongLoop(1, readCount % reps, rowSequence);
      RepeatOnce(rowSequence);
      if !ok' {
        return AssertionFailed, 0, reps;
      }
      refreshes := first + second;
      payload := payload + [job.RefreshOp(1)] + [Noop(0)];
      ProgramParts(job, rowSequence, readCount, reps);
      if |payload| > payloadMemSize / 4 {
        return ExceedsMemory, refreshes, repetitions;
      }
      outcome := Words(EncodeAll(payload));
    }
  }

  lemma AreRepetitions(t: Timings, n: nat, lcm: int, repetitions: nat)
    requires t.tRP + t.tRAS > 0 && n > 0 && Lcm.IsLcm(t.ActsPerInterval(), n, lcm)
    requires repetitions > 0 && repetitions == Min(lcm, MaxActs()) / n
    ensures RepetitionsOf(t, n, repetitions)
  {
    hide Lcm.IsLcm;
  }

  lemma ProgramParts(j: Job, rows: seq<nat>, readCount: nat, repetitions: nat)
    requires repetitions > 0
    ensures Program(j, rows, readCount, repetitions) + [Noop(0)]
         == [Noop(Max(1, Max(j.t.tRFC - 2, j.t.tREFI - 2)))]
            + Blocks(j, Repeat(rows, repetitions), Counts(readCount / repetitions))
            + Blocks(j, rows, Counts(readCount % repetitions)) + [j.RefreshOp(1)] + [Noop(0)]
  {
    hide Blocks, Counts, Repeat, Max;
  }

  lemma Factor(each: nat, a: nat, b: nat)
    ensures each * a + each * b == each * (a + b)
  {
  }

  lemma BlocksNone(j: Job, rows: seq<nat>)
    ensures Counts(0) == [] && Blocks(j, rows, []) == []
  {
  }

  lemma BlocksSnoc(j: Job, rows: seq<nat>, counts: seq<nat>, count: nat)
    ensures Blocks(j, rows, counts + [count]) == Blocks(j, rows, counts) + Block(j, rows, count)
  {
    assert (counts + [count])[..|counts|] == counts;
  }

  lemma RepeatOnce(rows: seq<nat>)
    ensures Repeat(rows, 1) == rows
  {
    assert Repeat(rows, 1) == rows + Repeat(rows, 0);
  }

  lemma RepeatSome(rows: seq<nat>, n: nat)
    requires n > 0 && rows != []
    ensures Repeat(rows, n) != []
  {
  }

  lemma QuotientRemainder(n: nat, d: nat)
    requires d > 0
    ensures d * (n / d) + n % d == n
  {
  }

  lemma LcmAtLeast(x: int, y: int, m: int)
    requires Lcm.IsLcm(x, y, m)
    ensures m >= y
  {
    var q := Lcm.MultipleOf(m, y);
    Lcm.Product(q, y);
  }

  lemma NotEnoughTime(t: Timings)
    requires t.tRP + t.tRAS > 0
    ensures t.ActsPerInterval() > 0 <==> t.EnoughTime()
  {
    var p := t.tRP + t.tRAS;
    var q := (t.tREFI - t.tRFC) / p;
    assert t.tREFI - t.tRFC == q * p + (t.tREFI - t.tRFC) % p;
    Lcm.Product(q, p);
  }

  lemma QuotientBounds(a: nat, b: nat)
    requires 0 < b <= a
    ensures a / b > 0 && a / b * b <= a
  {
    assert a == b * (a / b) + a % b;
  }

  lemma BodyEmpty(j: Job, rows: seq<nat>)
    ensures Repeat(rows, 0) == [] && Body(j, []) == Emitted([j.RefreshOp(j.t.tRFC)], j.t.tRFC + 1, 1)
  {
  }

  lemma BodySnoc(j: Job, rows: seq<nat>, row: nat)
    ensures Body(j, rows + [row]) == AddRow(j, Body(j, rows), row)
  {
    assert (rows + [row])[..|rows|] == rows;
  }

  /** Passes encoded by the first `outer` of `n` LOOPs. */
  ghost function PassesDone(rolled: nat, n: nat, outer: nat): nat
    requires outer <= n && n == (rolled + 4095) / 4096
  {
    if outer == 0 then 0 else rolled - 4096 * (n - outer)
  }

  lemma CountsStep(rolled: nat, n: nat, outer: nat)
    requires outer < n && n == (rolled + 4095) / 4096
    ensures var first := if rolled % 4096 == 0 then 4095 else rolled % 4096 - 1;
            var count := if outer == 0 then first else 4095;
            && PassesDone(rolled, n, outer + 1) == PassesDone(rolled, n, outer) + count + 1
            && Counts(PassesDone(rolled, n, outer + 1)) == Counts(PassesDone(rolled, n, outer)) + [count]
  {
  }
}
