/** What a generated payload executes: the rows, in order, the right number of times. */
module CompilerCorrect {
  import opened Bits
  import opened Isa
  import opened Loops
  import opened Executor
  import opened CycleCount
  import opened Compiler

  // ---------------------------------------------------------------- running concatenated code

  /** `p` is well formed and executes exactly `tr`. */
  ghost predicate Runs(p: seq<Spec>, tr: seq<Spec>) {
    WellFormed(p) && Executed(p) == tr
  }

  ghost predicate Straight(s: Spec) {
    !s.Loop? && s.Legal() && !s.IsStop()
  }

  lemma RunsPlain(p: seq<Spec>, tr: seq<Spec>, s: Spec)
    requires Runs(p, tr) && Straight(s)
    ensures Runs(p + [s], tr + [s])
  {
    hide Unroll, Repeat;
    var q := p + [s];
    ExtendNonNested(Shapes(p), Plain);
    assert Shapes(q) == Shapes(p) + [Plain];
    UnrollLast(q, p);
  }

  lemma ExtendNonNested(s: seq<Shape>, x: Shape)
    requires NonNested(s)
    requires x.Back? ==> x.jump <= |s| && forall k :: |s| - x.jump <= k < |s| ==> s[k].Plain?
    ensures NonNested(s + [x])
  {
  }

  /** The last instruction adds its own visits to what the rest executes. */
  lemma UnrollLast(q: seq<Spec>, p: seq<Spec>)
    requires q != [] && p == q[..|q| - 1] && NonNested(Shapes(q)) && NonNested(Shapes(p))
    ensures Executed(q) == Executed(p) + Visit(Shapes(q), q, |p|)
  {
    assert Shapes(p) <= Shapes(q);
    UnrollPrefix(Shapes(p), p, Shapes(q), q, |p|);
  }

  lemma {:induction false} RunsStraight(p: seq<Spec>, tr: seq<Spec>, code: seq<Spec>)
    requires Runs(p, tr) && forall i :: 0 <= i < |code| ==> Straight(code[i])
    ensures Runs(p + code, tr + code)
    decreases |code|
  {
    hide Runs, Straight;
    if code == [] {
      assert p + code == p && tr + code == tr;
    } else {
      var front, last := code[..|code| - 1], code[|code| - 1];
      RunsStraight(p, tr, front);
      RunsPlain(p + front, tr + front, last);
      assert p + front + [last] == p + code && tr + front + [last] == tr + code;
    }
  }

  /** A block of straight code closed by a LOOP over all of it runs count + 1 times. */
  lemma RunsBlock(p: seq<Spec>, tr: seq<Spec>, code: seq<Spec>, count: nat)
    requires Runs(p, tr) && forall i :: 0 <= i < |code| ==> Straight(code[i])
    ensures var block := code + [Loop(count, |code|)];
            Runs(p + block, tr + Repeat(block, count + 1))
  {
    hide Unroll, Repeat, NonNested, Straight;
    var last, block := Loop(count, |code|), code + [Loop(count, |code|)];
    RunsStraight(p, tr, code);
    var pc, q := p + code, p + block;
    assert q == pc + [last];
    BlockShape(pc, p, code, count);
    UnrollLast(q, pc);
    RepeatFirst(block, count);
    assert tr + code + ([last] + Repeat(block, count)) == tr + (block + Repeat(block, count));
  }

  lemma BlockShape(pc: seq<Spec>, p: seq<Spec>, code: seq<Spec>, count: nat)
    requires pc == p + code && NonNested(Shapes(pc)) && forall i :: 0 <= i < |code| ==> Straight(code[i])
    ensures var last := Loop(count, |code|);
            var q := pc + [last];
            NonNested(Shapes(q)) && Visit(Shapes(q), q, |pc|) == [last] + Repeat(code + [last], count)
  {
    hide Repeat;
    var last := Loop(count, |code|);
    var q := pc + [last];
    assert Shapes(q) == Shapes(pc) + [Back(count, |code|)];
    ExtendNonNested(Shapes(pc), Back(count, |code|));
    assert q[|pc| - |code|..|pc|] == code;
  }

  lemma RepeatFirst<T>(xs: seq<T>, n: nat)
    ensures Repeat(xs, n + 1) == xs + Repeat(xs, n)
  {
  }

  // ---------------------------------------------------------------- what the blocks execute

  /** Bodies are straight code and the LOOP jumps over exactly the body. */
  lemma {:induction false} BodyIsStraight(j: Job, rows: seq<nat>)
    requires j.Positive()
    ensures |Body(j, rows).code| == 2 * |rows| + Body(j, rows).refreshes
    ensures forall i :: 0 <= i < |Body(j, rows).code| ==> Straight(Body(j, rows).code[i])
  {
    hide Address;
    if rows != [] { BodyIsStraight(j, rows[..|rows| - 1]); }
  }

  /** Everything the LOOPs with these counts execute. */
  function Passes(j: Job, rows: seq<nat>, counts: seq<nat>): seq<Spec> {
    if counts == [] then []
    else Passes(j, rows, counts[..|counts| - 1])
         + Repeat(Block(j, rows, counts[|counts| - 1]), counts[|counts| - 1] + 1)
  }

  lemma {:induction false} RunsBlocks(p: seq<Spec>, tr: seq<Spec>, j: Job, rows: seq<nat>, counts: seq<nat>)
    requires Runs(p, tr) && j.Positive()
    ensures Runs(p + Blocks(j, rows, counts), tr + Passes(j, rows, counts))
    decreases |counts|
  {
    hide Runs, Repeat, Body, Straight;
    if counts == [] {
      assert p + [] == p && tr + [] == tr;
    } else {
      var front, last := counts[..|counts| - 1], counts[|counts| - 1];
      RunsBlocks(p, tr, j, rows, front);
      var before, done := Blocks(j, rows, front), Passes(j, rows, front);
      BodyIsStraight(j, rows);
      RunsBlock(p + before, tr + done, Body(j, rows).code, last);
      var block := Block(j, rows, last);
      assert p + before + block == p + (before + block);
      assert tr + done + Repeat(block, last + 1) == tr + (done + Repeat(block, last + 1));
    }
  }

  /** Everything a generated payload executes before its STOP. */
  function Run(j: Job, rows: seq<nat>, readCount: nat, repetitions: nat): seq<Spec>
    requires repetitions > 0
  {
    [Noop(Max(1, Max(j.t.tRFC - 2, j.t.tREFI - 2)))]
    + Passes(j, Repeat(rows, repetitions), Counts(readCount / repetitions))
    + Passes(j, rows, Counts(readCount % repetitions))
    + [j.RefreshOp(1)]
  }

  lemma ProgramRuns(j: Job, rows: seq<nat>, readCount: nat, repetitions: nat)
    requires j.Positive() && repetitions > 0
    ensures Runs(Program(j, rows, readCount, repetitions), Run(j, rows, readCount, repetitions))
  {
    hide Blocks, Passes, Counts, Repeat, Runs;
    var head, last := Noop(Max(1, Max(j.t.tRFC - 2, j.t.tREFI - 2))), j.RefreshOp(1);
    var rows1, c1, c2 := Repeat(rows, repetitions), Counts(readCount / repetitions), Counts(readCount % repetitions);
    RunsNothing();
    RunsPlain([], [], head);
    assert [] + [head] == [head];
    RunsBlocks([head], [head], j, rows1, c1);
    RunsBlocks([head] + Blocks(j, rows1, c1), [head] + Passes(j, rows1, c1), j, rows, c2);
    RunsPlain([head] + Blocks(j, rows1, c1) + Blocks(j, rows, c2),
              [head] + Passes(j, rows1, c1) + Passes(j, rows, c2), last);
  }

  lemma RunsNothing()
    ensures Runs([], [])
  {
    assert Shapes([]) == [];
  }

  // ---------------------------------------------------------------- rows

  /** The ACT and PRE commands of a trace. */
  function Hammers(tr: seq<Spec>): seq<Spec> {
    if tr == [] then [] else Pick(tr[0]) + Hammers(tr[1..])
  }

  function Pick(s: Spec): seq<Spec> {
    if s.Dfi? && (s.op == ACT || s.op == PRE) then [s] else []
  }

  /** Activate and precharge each row in turn. */
  function Pairs(j: Job, rows: seq<nat>): seq<Spec> {
    if rows == [] then [] else Pair(j, rows[0]) + Pairs(j, rows[1..])
  }

  function Pair(j: Job, row: nat): seq<Spec> {
    [j.Activate(row), j.Precharge()]
  }

  lemma Associate<T>(a: seq<T>, b: seq<T>, c: seq<T>)
    ensures a + (b + c) == a + b + c
  {
  }

  lemma {:induction false} HammersPlus(a: seq<Spec>, b: seq<Spec>)
    ensures Hammers(a + b) == Hammers(a) + Hammers(b)
  {
    hide Pick;
    if a == [] {
      assert a + b == b;
    } else {
      HammersPlus(a[1..], b);
      assert (a + b)[1..] == a[1..] + b;
      Associate(Pick(a[0]), Hammers(a[1..]), Hammers(b));
    }
  }

  lemma {:induction false} PairsPlus(j: Job, a: seq<nat>, b: seq<nat>)
    ensures Pairs(j, a + b) == Pairs(j, a) + Pairs(j, b)
  {
    hide Pair;
    if a == [] {
      assert a + b == b;
    } else {
      PairsPlus(j, a[1..], b);
      assert (a + b)[1..] == a[1..] + b;
      Associate(Pair(j, a[0]), Pairs(j, a[1..]), Pairs(j, b));
    }
  }

  lemma HammersOne(s: Spec)
    ensures Hammers([s]) == if s.Dfi? && (s.op == ACT || s.op == PRE) then [s] else []
  {
    assert [s][1..] == [];
  }

  lemma PairsOne(j: Job, row: nat)
    ensures Pairs(j, [row]) == [j.Activate(row), j.Precharge()]
    ensures Hammers(Pairs(j, [row])) == Pairs(j, [row])
  {
    hide Address;
    assert [row][1..] == [];
    var a, p := j.Activate(row), j.Precharge();
    assert Pairs(j, [row]) == [a, p] + Pairs(j, []) == [a] + [p];
    HammersOne(a);
    HammersOne(p);
    HammersPlus([a], [p]);
  }

  lemma {:induction false} BodyHammers(j: Job, rows: seq<nat>)
    ensures Hammers(Body(j, rows).code) == Pairs(j, rows)
  {
    hide Address, Hammers, Pairs;
    var refresh := j.RefreshOp(j.t.tRFC);
    HammersOne(refresh);
    if rows == [] {
      PairsNone(j);
    } else {
      var front, row := rows[..|rows| - 1], rows[|rows| - 1];
      BodyHammers(j, front);
      assert rows == front + [row];
      PairsPlus(j, front, [row]);
      PairsOne(j, row);
      var e := Body(j, front);
      HammersPlus(e.code, [refresh]);
      HammersPlus(e.code + [refresh], Pairs(j, [row]));
      HammersPlus(e.code, Pairs(j, [row]));
      assert Pairs(j, front) + [] == Pairs(j, front);
    }
  }

  lemma PairsNone(j: Job)
    ensures Pairs(j, []) == []
  {
  }

  lemma {:induction false} RepeatHammers(j: Job, rows: seq<nat>, code: seq<Spec>, n: nat)
    requires Hammers(code) == Pairs(j, rows)
    ensures Hammers(Repeat(code, n)) == Pairs(j, Repeat(rows, n))
    decreases n
  {
    hide Address;
    if n > 0 {
      RepeatHammers(j, rows, code, n - 1);
      HammersPlus(code, Repeat(code, n - 1));
      PairsPlus(j, rows, Repeat(rows, n - 1));
    }
  }

  /** Passes made by LOOPs with these counts. */
  function Total(counts: seq<nat>): nat {
    if counts == [] then 0 else Total(counts[..|counts| - 1]) + counts[|counts| - 1] + 1
  }

  /** The split into LOOPs of at most 4096 passes loses and adds none, and every count fits 12 bits. */
  lemma {:induction false} CountsTotal(rolled: nat)
    ensures Total(Counts(rolled)) == rolled
    ensures forall i :: 0 <= i < |Counts(rolled)| ==> Counts(rolled)[i] < 4096
  {
    if rolled > 4096 {
      CountsTotal(rolled - 4096);
      var c := Counts(rolled - 4096);
      assert (c + [4095])[..|c|] == c;
    } else if rolled > 0 {
      assert [rolled - 1][..0] == [];
    }
  }

  lemma {:induction false} PassesHammers(j: Job, rows: seq<nat>, counts: seq<nat>)
    ensures Hammers(Passes(j, rows, counts)) == Pairs(j, Repeat(rows, Total(counts)))
  {
    hide Address, Hammers, Pairs, Repeat, Body;
    if counts == [] {
      HammersNone(j, rows);
    } else {
      var front, last := counts[..|counts| - 1], counts[|counts| - 1];
      PassesHammers(j, rows, front);
      var block := Block(j, rows, last);
      BlockHammers(j, rows, last);
      RepeatHammers(j, rows, block, last + 1);
      HammersPlus(Passes(j, rows, front), Repeat(block, last + 1));
      RepeatPlus(rows, Total(front), last + 1);
      PairsPlus(j, Repeat(rows, Total(front)), Repeat(rows, last + 1));
    }
  }

  lemma HammersNone(j: Job, rows: seq<nat>)
    ensures Hammers([]) == [] && Pairs(j, Repeat(rows, 0)) == []
  {
  }

  lemma BlockHammers(j: Job, rows: seq<nat>, count: nat)
    ensures Hammers(Block(j, rows, count)) == Pairs(j, rows)
  {
    hide Address, Hammers, Pairs, Body;
    var e := Body(j, rows);
    var loop := Loop(count, 2 * |rows| + e.refreshes);
    BodyHammers(j, rows);
    HammersOne(loop);
    HammersPlus(e.code, [loop]);
    assert Pairs(j, rows) + [] == Pairs(j, rows);
  }

  lemma PassesTwice(j: Job, rows: seq<nat>, readCount: nat, repetitions: nat)
    requires repetitions > 0
    ensures Hammers(Passes(j, Repeat(rows, repetitions), Counts(readCount / repetitions))
                    + Passes(j, rows, Counts(readCount % repetitions)))
         == Pairs(j, Repeat(rows, readCount))
  {
    hide Address, Hammers, Pairs, Repeat, Body, Passes, Counts, Total;
    var q, r := readCount / repetitions, readCount % repetitions;
    PassesHammers(j, Repeat(rows, repetitions), Counts(q));
    PassesHammers(j, rows, Counts(r));
    CountsTotal(q);
    CountsTotal(r);
    RepeatTwice(rows, repetitions, q);
    RepeatPlus(rows, repetitions * q, r);
    QuotientRemainder(readCount, repetitions);
    PairsPlus(j, Repeat(rows, repetitions * q), Repeat(rows, r));
    HammersPlus(Passes(j, Repeat(rows, repetitions), Counts(q)), Passes(j, rows, Counts(r)));
  }

  lemma RunHammers(j: Job, rows: seq<nat>, readCount: nat, repetitions: nat)
    requires repetitions > 0
    ensures Hammers(Run(j, rows, readCount, repetitions)) == Pairs(j, Repeat(rows, readCount))
  {
    hide Address, Hammers, Pairs, Repeat, Body, Passes, Counts;
    var head, last := Noop(Max(1, Max(j.t.tRFC - 2, j.t.tREFI - 2))), j.RefreshOp(1);
    var full := Passes(j, Repeat(rows, repetitions), Counts(readCount / repetitions));
    var one := Passes(j, rows, Counts(readCount % repetitions));
    PassesTwice(j, rows, readCount, repetitions);
    HammersOne(head);
    HammersOne(last);
    HammersPlus([head], full + one);
    HammersPlus([head] + (full + one), [last]);
    assert [head] + full + one + [last] == [head] + (full + one) + [last];
    assert [] + Pairs(j, Repeat(rows, readCount)) + [] == Pairs(j, Repeat(rows, readCount));
  }

  /** Compiler correctness: running the payload activates and precharges the row sequence
      `readCount` times, in order, and sends no other ACT or PRE. */
  lemma HammersEveryRow(j: Job, rows: seq<nat>, readCount: nat, repetitions: nat)
    requires j.Positive() && repetitions > 0
    ensures WellFormed(Program(j, rows, readCount, repetitions))
    ensures Hammers(Executed(Program(j, rows, readCount, repetitions))) == Pairs(j, Repeat(rows, readCount))
  {
    hide Hammers, Pairs, Repeat, Program, Run, WellFormed, Executed;
    ProgramRuns(j, rows, readCount, repetitions);
    RunHammers(j, rows, readCount, repetitions);
  }

  // ---------------------------------------------------------------- payloads that stop at once

  lemma {:induction false} BodyFirst(j: Job, rows: seq<nat>)
    ensures |Body(j, rows).code| > 0 && Body(j, rows).code[0] == j.RefreshOp(j.t.tRFC)
  {
    hide Address;
    if rows != [] { BodyFirst(j, rows[..|rows| - 1]); }
  }

  lemma {:induction false} BlocksFirst(j: Job, rows: seq<nat>, counts: seq<nat>)
    requires counts != []
    ensures |Blocks(j, rows, counts)| > 0 && Blocks(j, rows, counts)[0] == j.RefreshOp(j.t.tRFC)
    decreases |counts|
  {
    hide Body;
    BodyFirst(j, rows);
    var front := counts[..|counts| - 1];
    if front == [] {
      assert Blocks(j, rows, front) == [];
    } else {
      BlocksFirst(j, rows, front);
    }
  }

  lemma SomeLoops(rolled: nat)
    ensures Counts(rolled) == [] <==> rolled == 0
  {
  }

  /** With refresh off, a tRFC of 0 turns the wait at the head of the first body into STOP: the payload
      hammers nothing. That is the only way to get a STOP before the end. */
  lemma StopsEarlyIff(j: Job, rows: seq<nat>, readCount: nat, repetitions: nat)
    requires j.Encodable() && repetitions > 0 && readCount > 0
    ensures (exists i :: 0 <= i < |Program(j, rows, readCount, repetitions)|
                         && Program(j, rows, readCount, repetitions)[i].IsStop())
       <==> !j.refresh && j.t.tRFC == 0
  {
    hide Blocks, Counts, Repeat, Runs, Run;
    var prog := Program(j, rows, readCount, repetitions);
    if j.Positive() {
      ProgramRuns(j, rows, readCount, repetitions);
      RunsHasNoStop(prog, Run(j, rows, readCount, repetitions));
    } else {
      var q, r := readCount / repetitions, readCount % repetitions;
      SomeLoops(q);
      SomeLoops(r);
      QuotientRemainder(readCount, repetitions);
      var full, one := Blocks(j, Repeat(rows, repetitions), Counts(q)), Blocks(j, rows, Counts(r));
      if q > 0 {
        BlocksFirst(j, Repeat(rows, repetitions), Counts(q));
      } else {
        NoBlocks(j, Repeat(rows, repetitions));
        BlocksFirst(j, rows, Counts(r));
      }
      assert prog[1].IsStop();
    }
  }

  lemma NoBlocks(j: Job, rows: seq<nat>)
    ensures Blocks(j, rows, []) == []
  {
  }

  lemma RunsHasNoStop(p: seq<Spec>, tr: seq<Spec>)
    requires Runs(p, tr)
    ensures forall i :: 0 <= i < |p| ==> !p[i].IsStop()
  {
  }
}
