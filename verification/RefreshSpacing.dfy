/** How far apart the refreshes of a generated payload are, and how many there are. */
module RefreshSpacing {
  import opened Isa
  import opened Loops
  import opened Executor
  import opened CycleCount
  import opened Compiler
  import opened CompilerCorrect

  predicate IsRef(s: Spec) {
    s.Dfi? && s.op == REF
  }

  // ---------------------------------------------------------------- how many

  function CountRefs(tr: seq<Spec>): nat {
    if tr == [] then 0 else (if IsRef(tr[0]) then 1 else 0) + CountRefs(tr[1..])
  }

  lemma {:induction false} CountPlus(a: seq<Spec>, b: seq<Spec>)
    ensures CountRefs(a + b) == CountRefs(a) + CountRefs(b)
  {
    if a == [] {
      assert a + b == b;
    } else {
      CountPlus(a[1..], b);
      assert (a + b)[1..] == a[1..] + b;
    }
  }

  lemma CountNone()
    ensures CountRefs([]) == 0
  {
  }

  lemma CountOne(s: Spec)
    ensures CountRefs([s]) == if IsRef(s) then 1 else 0
  {
    assert [s][1..] == [];
  }

  lemma {:induction false} CountRepeat(a: seq<Spec>, n: nat)
    ensures CountRefs(Repeat(a, n)) == n * CountRefs(a)
    decreases n
  {
    if n > 0 {
      CountRepeat(a, n - 1);
      CountPlus(a, Repeat(a, n - 1));
      assert n * CountRefs(a) == CountRefs(a) + (n - 1) * CountRefs(a);
    }
  }

  lemma {:induction false} CountBody(j: Job, rows: seq<nat>)
    requires j.refresh
    ensures CountRefs(Body(j, rows).code) == Body(j, rows).refreshes
  {
    hide Address, CountRefs;
    var refresh := j.RefreshOp(j.t.tRFC);
    CountOne(refresh);
    if rows != [] {
      var front, row := rows[..|rows| - 1], rows[|rows| - 1];
      CountBody(j, front);
      var code, pair := Body(j, front).code, [j.Activate(row)] + [j.Precharge()];
      CountOne(j.Activate(row));
      CountOne(j.Precharge());
      CountPlus([j.Activate(row)], [j.Precharge()]);
      CountPlus(code, [refresh]);
      CountPlus(code + [refresh], pair);
      CountPlus(code, pair);
      assert pair == [j.Activate(row), j.Precharge()];
    }
  }

  lemma {:induction false} CountPasses(j: Job, rows: seq<nat>, counts: seq<nat>)
    requires j.refresh
    ensures CountRefs(Passes(j, rows, counts)) == Body(j, rows).refreshes * Total(counts)
    decreases |counts|
  {
    hide CountRefs, Body, Repeat;
    if counts == [] {
      CountNone();
    } else {
      var front, last := counts[..|counts| - 1], counts[|counts| - 1];
      CountPasses(j, rows, front);
      var body, block := Body(j, rows), Block(j, rows, last);
      CountBody(j, rows);
      CountOne(Loop(last, 2 * |rows| + body.refreshes));
      CountPlus(body.code, [Loop(last, 2 * |rows| + body.refreshes)]);
      CountRepeat(block, last + 1);
      CountPlus(Passes(j, rows, front), Repeat(block, last + 1));
      Factor(body.refreshes, Total(front), last + 1);
    }
  }

  /** The refreshes executed are the count that the compiler returns, plus the final one. */
  lemma RefreshCount(j: Job, rows: seq<nat>, readCount: nat, repetitions: nat)
    requires j.Positive() && j.refresh && repetitions > 0
    ensures WellFormed(Program(j, rows, readCount, repetitions))
    ensures CountRefs(Executed(Program(j, rows, readCount, repetitions)))
         == Body(j, Repeat(rows, repetitions)).refreshes * (readCount / repetitions)
            + Body(j, rows).refreshes * (readCount % repetitions) + 1
  {
    hide CountRefs, Body, Repeat, Passes, Counts, Blocks, Unroll, WellFormed, Total;
    ProgramRuns(j, rows, readCount, repetitions);
    var q, r := readCount / repetitions, readCount % repetitions;
    var head, last := Noop(Max(1, Max(j.t.tRFC - 2, j.t.tREFI - 2))), j.RefreshOp(1);
    var full, one := Passes(j, Repeat(rows, repetitions), Counts(q)), Passes(j, rows, Counts(r));
    CountPasses(j, Repeat(rows, repetitions), Counts(q));
    CountPasses(j, rows, Counts(r));
    CountsTotal(q);
    CountsTotal(r);
    CountOne(head);
    CountOne(last);
    CountPlus([head], full);
    CountPlus([head] + full, one);
    CountPlus([head] + full + one, [last]);
  }

  // ---------------------------------------------------------------- how far apart

  /** Time since the last refresh began, and whether a LOOP was executed since. */
  datatype Watch = Fresh | Since(cycles: nat, crossed: bool)

  function Track(tr: seq<Spec>, w: Watch): Watch
    decreases |tr|
  {
    if tr == [] then w
    else Track(tr[1..], After(tr[0], w))
  }

  function After(s: Spec, w: Watch): Watch {
    if IsRef(s) then Since(s.Duration(), false)
    else if w.Fresh? then Fresh
    else Since(w.cycles + s.Duration(), w.crossed || s.Loop?)
  }

  /** A refresh may begin now: at most tREFI after the last one, `slack` more across a LOOP. */
  predicate InTime(t: Timings, slack: nat, w: Watch) {
    w.Since? ==> w.cycles <= t.tREFI + if w.crossed then slack else 0
  }

  predicate Spaced(t: Timings, slack: nat, tr: seq<Spec>, w: Watch)
    decreases |tr|
  {
    tr == [] || ((IsRef(tr[0]) ==> InTime(t, slack, w)) && Spaced(t, slack, tr[1..], After(tr[0], w)))
  }

  lemma {:induction false} SpacedPlus(t: Timings, slack: nat, a: seq<Spec>, b: seq<Spec>, w: Watch)
    ensures Track(a + b, w) == Track(b, Track(a, w))
    ensures Spaced(t, slack, a + b, w) <==> Spaced(t, slack, a, w) && Spaced(t, slack, b, Track(a, w))
    decreases |a|
  {
    hide After, InTime;
    if a == [] {
      assert a + b == b;
    } else {
      SpacedPlus(t, slack, a[1..], b, After(a[0], w));
      assert (a + b)[1..] == a[1..] + b;
    }
  }

  lemma SpacedOne(t: Timings, slack: nat, s: Spec, w: Watch)
    ensures Track([s], w) == After(s, w)
    ensures Spaced(t, slack, [s], w) <==> (IsRef(s) ==> InTime(t, slack, w))
  {
    assert [s][1..] == [];
  }

  lemma LateRefresh(t: Timings, slack: nat, tr: seq<Spec>, w: Watch)
    requires tr != [] && IsRef(tr[0]) && !InTime(t, slack, w)
    ensures !Spaced(t, slack, tr, w)
  {
  }

  /** Inside a body the compiler's `accum` is the time since the last refresh, one more than that
      until the second refresh because of the cycle charged in advance for the jump. */
  lemma {:induction false} BodySpaced(j: Job, slack: nat, rows: seq<nat>, w: Watch)
    requires j.Positive() && j.refresh && j.t.EnoughTime() && InTime(j.t, slack, w)
    ensures var e := Body(j, rows);
            var early := if e.refreshes == 1 then 1 else 0;
            && e.refreshes >= 1 && e.accum >= early
            && Spaced(j.t, slack, e.code, w)
            && Track(e.code, w) == Since(e.accum - early, false)
            && e.accum - early <= j.t.tREFI
            && (e.refreshes == 1 ==> e.accum <= j.t.tREFI || rows == [])
    decreases |rows|
  {
    hide Address, Spaced, Track;
    var refresh := j.RefreshOp(j.t.tRFC);
    if rows == [] {
      SpacedOne(j.t, slack, refresh, w);
    } else {
      var front, row := rows[..|rows| - 1], rows[|rows| - 1];
      BodySpaced(j, slack, front, w);
      var e := Body(j, front);
      var w1 := Track(e.code, w);
      SpacedOne(j.t, slack, refresh, w1);
      SpacedPlus(j.t, slack, e.code, [refresh], w);
      PairSpaced(j, slack, row, w1);
      PairSpaced(j, slack, row, Since(j.t.tRFC, false));
      SpacedPlus(j.t, slack, e.code, [j.Activate(row), j.Precharge()], w);
      SpacedPlus(j.t, slack, e.code + [refresh], [j.Activate(row), j.Precharge()], w);
    }
  }

  lemma PairSpaced(j: Job, slack: nat, row: nat, w: Watch)
    requires j.Positive() && w.Since?
    ensures var pair := [j.Activate(row), j.Precharge()];
            && Spaced(j.t, slack, pair, w)
            && Track(pair, w) == Since(w.cycles + j.t.tRAS + j.t.tRP, w.crossed)
  {
    hide Address, Spaced, Track;
    var a, p := j.Activate(row), j.Precharge();
    SpacedOne(j.t, slack, a, w);
    SpacedOne(j.t, slack, p, After(a, w));
    SpacedPlus(j.t, slack, [a], [p], w);
    assert [a] + [p] == [a, p];
  }

  /** The last segment of the body uses all of tREFI and is not the one charged for the jump. */
  predicate Tight(j: Job, rows: seq<nat>) {
    Body(j, rows).refreshes > 1 && Body(j, rows).accum == j.t.tREFI
  }

  /** After its LOOP a block is in time for the next refresh unless its last segment is tight. */
  lemma BlockSpaced(j: Job, slack: nat, rows: seq<nat>, count: nat, w: Watch)
    requires j.Positive() && j.refresh && j.t.EnoughTime() && rows != [] && InTime(j.t, slack, w)
    ensures var block := Block(j, rows, count);
            && Spaced(j.t, slack, block, w) && IsRef(block[0])
            && (InTime(j.t, slack, Track(block, w)) <==> slack > 0 || !Tight(j, rows))
  {
    hide Spaced, Track, Body;
    BodySpaced(j, slack, rows, w);
    BodyStarts(j, rows);
    var body := Body(j, rows);
    var loop := Loop(count, 2 * |rows| + body.refreshes);
    SpacedOne(j.t, slack, loop, Track(body.code, w));
    SpacedPlus(j.t, slack, body.code, [loop], w);
  }

  lemma {:induction false} BodyStarts(j: Job, rows: seq<nat>)
    requires j.refresh
    ensures |Body(j, rows).code| > 0 && IsRef(Body(j, rows).code[0])
  {
    hide Address;
    if rows != [] { BodyStarts(j, rows[..|rows| - 1]); }
  }

  lemma {:induction false} RepeatSpaced(j: Job, slack: nat, rows: seq<nat>, count: nat, n: nat, w: Watch)
    requires j.Positive() && j.refresh && j.t.EnoughTime() && rows != [] && InTime(j.t, slack, w)
    requires slack > 0 || !Tight(j, rows)
    ensures var tr := Repeat(Block(j, rows, count), n);
            Spaced(j.t, slack, tr, w) && InTime(j.t, slack, Track(tr, w))
    decreases n
  {
    hide Body, Block, InTime, After;
    if n > 0 {
      var block := Block(j, rows, count);
      BlockSpaced(j, slack, rows, count, w);
      RepeatSpaced(j, slack, rows, count, n - 1, Track(block, w));
      SpacedPlus(j.t, slack, block, Repeat(block, n - 1), w);
    }
  }

  lemma {:induction false} PassesSpaced(j: Job, slack: nat, rows: seq<nat>, counts: seq<nat>, w: Watch)
    requires j.Positive() && j.refresh && j.t.EnoughTime() && rows != [] && InTime(j.t, slack, w)
    requires slack > 0 || !Tight(j, rows) || counts == []
    ensures var tr := Passes(j, rows, counts);
            Spaced(j.t, slack, tr, w) && InTime(j.t, slack, Track(tr, w))
    decreases |counts|
  {
    hide Block, InTime, After, Repeat, Tight;
    if counts != [] {
      var front, last := counts[..|counts| - 1], counts[|counts| - 1];
      var before := Passes(j, rows, front);
      PassesSpaced(j, slack, rows, front, w);
      RepeatSpaced(j, slack, rows, last, last + 1, Track(before, w));
      SpacedPlus(j.t, slack, before, Repeat(Block(j, rows, last), last + 1), w);
    }
  }

  /** Passes begin with a block, and after that with a refresh or not at all. */
  lemma {:induction false} PassesFirst(j: Job, rows: seq<nat>, counts: seq<nat>) returns (rest: seq<Spec>)
    requires j.refresh && counts != []
    ensures Passes(j, rows, counts) == Block(j, rows, counts[0]) + rest
    ensures rest == [] || IsRef(rest[0])
    decreases |counts|
  {
    hide Body;
    BodyStarts(j, rows);
    var front, last := counts[..|counts| - 1], counts[|counts| - 1];
    var block := Block(j, rows, last);
    var more := Repeat(block, last);
    assert Repeat(block, last + 1) == block + more;
    assert more == [] || more[0] == block[0];
    if front == [] {
      rest := more;
      assert Passes(j, rows, counts) == [] + Repeat(block, last + 1);
    } else {
      var r := PassesFirst(j, rows, front);
      rest := r + (block + more);
      assert Block(j, rows, counts[0]) + r + (block + more) == Block(j, rows, counts[0]) + rest;
    }
  }

  /** A tight body breaks the tREFI bound as soon as it is executed. */
  lemma TightIsLate(j: Job, rows: seq<nat>, counts: seq<nat>, tail: seq<Spec>, w: Watch)
    requires j.Positive() && j.refresh && j.t.EnoughTime() && rows != [] && InTime(j.t, 0, w)
    requires counts != [] && Tight(j, rows) && tail != [] && IsRef(tail[0])
    ensures !Spaced(j.t, 0, Passes(j, rows, counts) + tail, w)
  {
    hide Spaced, Track, Block, InTime, After, Passes, Tight;
    var rest := PassesFirst(j, rows, counts);
    var block := Block(j, rows, counts[0]);
    BlockSpaced(j, 0, rows, counts[0], w);
    assert Passes(j, rows, counts) + tail == block + (rest + tail);
    SpacedPlus(j.t, 0, block, rest + tail, w);
    LateRefresh(j.t, 0, rest + tail, Track(block, w));
  }

  /** Some executed body is tight. */
  predicate RunIsTight(j: Job, rows: seq<nat>, readCount: nat, repetitions: nat)
    requires repetitions > 0
  {
    (readCount / repetitions > 0 && Tight(j, Repeat(rows, repetitions)))
    || (readCount % repetitions > 0 && Tight(j, rows))
  }

  lemma CountsNone(rolled: nat)
    ensures Counts(rolled) == [] <==> rolled == 0
  {
  }

  lemma RunSpaced(j: Job, slack: nat, rows: seq<nat>, readCount: nat, repetitions: nat)
    requires j.Positive() && j.refresh && j.t.EnoughTime() && rows != [] && repetitions > 0
    ensures Spaced(j.t, slack, Run(j, rows, readCount, repetitions), Fresh)
       <==> slack > 0 || !RunIsTight(j, rows, readCount, repetitions)
  {
    hide Spaced, Track, Passes, Counts, Repeat, Tight, InTime;
    RepeatSome(rows, repetitions);
    var q, r := readCount / repetitions, readCount % repetitions;
    CountsNone(q);
    CountsNone(r);
    var head, last := Noop(Max(1, Max(j.t.tRFC - 2, j.t.tREFI - 2))), j.RefreshOp(1);
    var many, c1, c2 := Repeat(rows, repetitions), Counts(q), Counts(r);
    var full, one := Passes(j, many, c1), Passes(j, rows, c2);
    SpacedOne(j.t, slack, head, Fresh);
    FreshInTime(j.t, slack);
    SpacedPlus(j.t, slack, [head], full + one + [last], Fresh);
    assert [head] + full + one + [last] == [head] + (full + one + [last]);
    if slack > 0 || !Tight(j, many) || q == 0 {
      PassesSpaced(j, slack, many, c1, Fresh);
      var w := Track(full, Fresh);
      SpacedPlus(j.t, slack, full, one + [last], Fresh);
      assert full + one + [last] == full + (one + [last]);
      if slack > 0 || !Tight(j, rows) || r == 0 {
        PassesSpaced(j, slack, rows, c2, w);
        SpacedPlus(j.t, slack, one, [last], w);
        SpacedOne(j.t, slack, last, Track(one, w));
      } else {
        TightIsLate(j, rows, c2, [last], w);
      }
    } else {
      SecondStarts(j, rows, c2, last);
      TightIsLate(j, many, c1, one + [last], Fresh);
      assert full + one + [last] == full + (one + [last]);
    }
  }

  lemma FreshInTime(t: Timings, slack: nat)
    ensures InTime(t, slack, Fresh)
  {
  }

  lemma SecondStarts(j: Job, rows: seq<nat>, counts: seq<nat>, last: Spec)
    requires j.refresh && IsRef(last)
    ensures IsRef((Passes(j, rows, counts) + [last])[0])
  {
    hide Body;
    if counts == [] {
      assert Passes(j, rows, []) + [last] == [last];
    } else {
      BodyStarts(j, rows);
      var rest := PassesFirst(j, rows, counts);
    }
  }

  // ---------------------------------------------------------------- in terms of pairs of refreshes

  ghost predicate HasLoop(tr: seq<Spec>) {
    exists i :: 0 <= i < |tr| && tr[i].Loop?
  }

  /** tr[i] and tr[k] are refreshes with none in between. */
  ghost predicate Consecutive(tr: seq<Spec>, i: int, k: int) {
    0 <= i < k < |tr| && IsRef(tr[i]) && IsRef(tr[k]) && forall m :: i < m < k ==> !IsRef(tr[m])
  }

  ghost predicate Close(t: Timings, slack: nat, tr: seq<Spec>, i: nat, k: nat)
    requires i <= k <= |tr|
  {
    Length(tr[i..k]) <= t.tREFI + if HasLoop(tr[i..k]) then slack else 0
  }

  lemma HasLoopSnoc(tr: seq<Spec>, s: Spec)
    ensures HasLoop(tr + [s]) <==> HasLoop(tr) || s.Loop?
  {
    if HasLoop(tr) {
      var i :| 0 <= i < |tr| && tr[i].Loop?;
      assert (tr + [s])[i].Loop?;
    }
    if s.Loop? { assert (tr + [s])[|tr|].Loop?; }
  }

  /** The watch reads the time since the last refresh. */
  lemma {:induction false} TrackIsLength(t: Timings, tr: seq<Spec>, i: nat)
    requires i < |tr| && IsRef(tr[i]) && forall m :: i < m < |tr| ==> !IsRef(tr[m])
    ensures Track(tr, Fresh) == Since(Length(tr[i..]), HasLoop(tr[i..]))
    decreases |tr|
  {
    hide Track, HasLoop, Length;
    var front, last := tr[..|tr| - 1], tr[|tr| - 1];
    assert tr == front + [last];
    SpacedPlus(t, 0, front, [last], Fresh);
    SpacedOne(t, 0, last, Track(front, Fresh));
    LengthOne(last);
    HasLoopSnoc([], last);
    assert [] + [last] == [last];
    NoLoop();
    if i == |front| {
      assert tr[i..] == [last];
    } else {
      TrackIsLength(t, front, i);
      assert tr[i..] == front[i..] + [last];
      LengthPlus(front[i..], [last]);
      HasLoopSnoc(front[i..], last);
    }
  }

  lemma NoLoop()
    ensures !HasLoop([])
  {
  }

  lemma {:induction false} TrackFresh(t: Timings, tr: seq<Spec>)
    requires forall m :: 0 <= m < |tr| ==> !IsRef(tr[m])
    ensures Track(tr, Fresh) == Fresh
    decreases |tr|
  {
    if tr != [] { TrackFresh(t, tr[1..]); }
  }

  lemma LastRefresh(tr: seq<Spec>) returns (i: int)
    ensures -1 <= i < |tr| && (i >= 0 ==> IsRef(tr[i])) && forall m :: i < m < |tr| ==> !IsRef(tr[m])
  {
    i := |tr| - 1;
    while i >= 0 && !IsRef(tr[i])
      invariant -1 <= i < |tr| && forall m :: i < m < |tr| ==> !IsRef(tr[m])
    {
      i := i - 1;
    }
  }

  /** The scan with a watch says the same as the statement about all pairs of consecutive refreshes. */
  lemma {:induction false} SpacedIffClose(t: Timings, slack: nat, tr: seq<Spec>)
    ensures Spaced(t, slack, tr, Fresh) <==> forall i, k :: Consecutive(tr, i, k) ==> Close(t, slack, tr, i, k)
    decreases |tr|
  {
    hide Spaced, Track, HasLoop, Length;
    if tr == [] {
      SpacedNothing(t, slack);
    } else {
      var front, last := tr[..|tr| - 1], tr[|tr| - 1];
      assert tr == front + [last];
      SpacedIffClose(t, slack, front);
      SpacedPlus(t, slack, front, [last], Fresh);
      SpacedOne(t, slack, last, Track(front, Fresh));
      forall i, k | 0 <= i < k < |front| ensures Consecutive(front, i, k) <==> Consecutive(tr, i, k)
      {
        assert forall m :: 0 <= m < |front| ==> front[m] == tr[m];
      }
      forall i, k | 0 <= i < k < |front| ensures Close(t, slack, front, i, k) <==> Close(t, slack, tr, i, k) {
        assert front[i..k] == tr[i..k];
      }
      var i := LastRefresh(front);
      if i >= 0 {
        TrackIsLength(t, front, i);
        assert tr[i..|front|] == front[i..];
        assert IsRef(last) ==> Consecutive(tr, i, |front|);
        assert forall i' :: Consecutive(tr, i', |front|) ==> i' == i;
        assert IsRef(last) ==> (InTime(t, slack, Track(front, Fresh)) <==> Close(t, slack, tr, i, |front|));
      } else {
        TrackFresh(t, front);
        assert forall i' :: !Consecutive(tr, i', |front|);
      }
    }
  }

  lemma SpacedNothing(t: Timings, slack: nat)
    ensures Spaced(t, slack, [], Fresh)
  {
  }

  /** In every run of a generated payload two consecutive refreshes begin at most tREFI cycles apart,
      and at most tREFI + 1 if a LOOP lies between them. */
  lemma RefreshesInTime(j: Job, rows: seq<nat>, readCount: nat, repetitions: nat)
    requires j.Positive() && j.refresh && j.t.EnoughTime() && rows != [] && repetitions > 0
    ensures WellFormed(Program(j, rows, readCount, repetitions))
    ensures var tr := Executed(Program(j, rows, readCount, repetitions));
            forall i, k :: Consecutive(tr, i, k) ==> Close(j.t, 1, tr, i, k)
  {
    hide Spaced, Run, Program, Executed, WellFormed, Close, Consecutive;
    ProgramRuns(j, rows, readCount, repetitions);
    RunSpaced(j, 1, rows, readCount, repetitions);
    SpacedIffClose(j.t, 1, Run(j, rows, readCount, repetitions));
  }
}
