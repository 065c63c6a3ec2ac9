/** The refreshes of a generated payload as the DRAM sees them: how many, and how far apart. */
module RefreshBus {
  import opened Bits
  import opened Isa
  import opened Loops
  import opened Executor
  import opened CycleCount
  import opened Compiler
  import opened CompilerCorrect
  import opened EndToEnd
  import opened RefreshSpacing
  import opened RefreshTight

  /** The cycles in which a REF command is on the bus. */
  function RefTimes(events: seq<Event>): seq<nat> {
    if events == [] then [] else RefTime(events[0]) + RefTimes(events[1..])
  }

  function RefTime(e: Event): seq<nat> {
    if Decode(e.word).opCode == Code(REF) then [e.at] else []
  }

  /** The cycles in which an executed REF begins, from cycle `t` on. */
  function Starts(tr: seq<Spec>, t: nat): seq<nat> {
    if tr == [] then [] else (if IsRef(tr[0]) then [t] else []) + Starts(tr[1..], t + tr[0].Duration())
  }

  ghost predicate Within(times: seq<nat>, gap: nat) {
    forall i :: 1 <= i < |times| ==> times[i] - times[i - 1] <= gap
  }

  // ---------------------------------------------------------------- from words to instructions

  lemma {:induction false} RefTimesPlus(a: seq<Event>, b: seq<Event>)
    ensures RefTimes(a + b) == RefTimes(a) + RefTimes(b)
    decreases |a|
  {
    hide RefTime;
    if a == [] {
      assert a + b == b;
    } else {
      RefTimesPlus(a[1..], b);
      assert (a + b)[1..] == a[1..] + b;
      Associate(RefTime(a[0]), RefTimes(a[1..]), RefTimes(b));
    }
  }

  lemma WordIsRef(s: Spec, t: nat)
    requires s.Legal() && s.Fits() && !s.Loop?
    ensures RefTimes([Event(t, Encode(s))]) == if IsRef(s) then [t] else []
  {
    hide Encode, Decode;
    DecodeEncode(s);
    assert [Event(t, Encode(s))][1..] == [];
  }

  lemma {:induction false} WordsAreStarts(tr: seq<Spec>, t: nat)
    requires AllFit(tr)
    ensures RefTimes(Executor.Commands(tr, t)) == Starts(tr, t)
    decreases |tr|
  {
    hide Encode, RefTimes, Spec.Fits, Spec.Legal;
    if tr == [] {
      NoWords();
    } else {
      var s := tr[0];
      var rest := Executor.Commands(tr[1..], t + s.Duration());
      WordsAreStarts(tr[1..], t + s.Duration());
      if s.Loop? {
        assert [] + rest == rest && [] + RefTimes(rest) == RefTimes(rest);
      } else {
        WordIsRef(s, t);
        RefTimesPlus([Event(t, Encode(s))], rest);
      }
    }
  }

  lemma NoWords()
    ensures RefTimes([]) == []
  {
  }

  // ---------------------------------------------------------------- from pairs to neighbours

  lemma {:induction false} StartsSnoc(tr: seq<Spec>, s: Spec, t: nat)
    ensures Starts(tr + [s], t) == Starts(tr, t) + if IsRef(s) then [t + Length(tr)] else []
    decreases |tr|
  {
    hide IsRef, Spec.Duration;
    if tr == [] {
      assert tr + [s] == [s] && [s][1..] == [];
    } else {
      var next := t + tr[0].Duration();
      StartsSnoc(tr[1..], s, next);
      assert (tr + [s])[1..] == tr[1..] + [s];
      Associate(if IsRef(tr[0]) then [t] else [], Starts(tr[1..], next),
                if IsRef(s) then [next + Length(tr[1..])] else []);
    }
  }

  /** The last start is that of the last refresh. */
  lemma {:induction false} LastStart(tr: seq<Spec>, t: nat, i: int)
    requires -1 <= i < |tr| && (i >= 0 ==> IsRef(tr[i])) && forall m :: i < m < |tr| ==> !IsRef(tr[m])
    ensures i < 0 ==> Starts(tr, t) == []
    ensures i >= 0 ==> var starts := Starts(tr, t);
                       starts != [] && starts[|starts| - 1] + Length(tr[i..]) == t + Length(tr)
    decreases |tr|
  {
    hide Length, Starts;
    if tr == [] {
      NoStarts(t);
    } else {
      var front, last := tr[..|tr| - 1], tr[|tr| - 1];
      assert tr == front + [last];
      StartsSnoc(front, last, t);
      LengthPlus(front, [last]);
      if i == |front| {
        assert tr[i..] == [last];
      } else {
        LastStart(front, t, i);
        if i >= 0 {
          assert tr[i..] == front[i..] + [last];
          LengthPlus(front[i..], [last]);
        }
      }
    }
  }

  lemma NoStarts(t: nat)
    ensures Starts([], t) == [] && Length([]) == 0
  {
  }

  ghost predicate PairsWithin(tr: seq<Spec>, gap: nat) {
    forall i, k :: Consecutive(tr, i, k) ==> Length(tr[i..k]) <= gap
  }

  /** Neighbouring starts are close if and only if consecutive refreshes are. */
  lemma {:induction false} WithinIff(tr: seq<Spec>, t: nat, gap: nat)
    ensures Within(Starts(tr, t), gap) <==> PairsWithin(tr, gap)
    decreases |tr|
  {
    hide Length, Starts, Within, PairsWithin;
    if tr == [] {
      NoStarts(t);
      NoPairs(gap);
    } else {
      var front, last := tr[..|tr| - 1], tr[|tr| - 1];
      assert tr == front + [last];
      WithinIff(front, t, gap);
      StartsSnoc(front, last, t);
      var i := LastRefresh(front);
      LastStart(front, t, i);
      PairsSnoc(front, last, i, gap);
      WithinSnoc(Starts(front, t), t + Length(front), gap);
      assert Starts(front, t) + [] == Starts(front, t);
    }
  }

  lemma NoPairs(gap: nat)
    ensures Within([], gap) && PairsWithin([], gap)
  {
  }

  lemma WithinSnoc(times: seq<nat>, x: nat, gap: nat)
    ensures Within(times + [x], gap) <==> Within(times, gap) && (times != [] ==> x - times[|times| - 1] <= gap)
  {
    var more := times + [x];
    forall m | 0 <= m < |times| ensures more[m] == times[m] { }
    if Within(more, gap) {
      forall m | 1 <= m < |times| ensures times[m] - times[m - 1] <= gap { assert more[m] - more[m - 1] <= gap; }
      if times != [] { assert more[|times|] - more[|times| - 1] <= gap; }
    }
  }

  lemma PairsSnoc(front: seq<Spec>, last: Spec, i: int, gap: nat)
    requires -1 <= i < |front| && (i >= 0 ==> IsRef(front[i])) && forall m :: i < m < |front| ==> !IsRef(front[m])
    ensures PairsWithin(front + [last], gap)
       <==> PairsWithin(front, gap) && (i >= 0 && IsRef(last) ==> Length(front[i..]) <= gap)
  {
    hide Length;
    var tr := front + [last];
    forall a, k | 0 <= a < k < |front|
      ensures (Consecutive(front, a, k) <==> Consecutive(tr, a, k)) && front[a..k] == tr[a..k]
    {
      assert forall m :: 0 <= m < |front| ==> front[m] == tr[m];
    }
    if i >= 0 && IsRef(last) {
      assert tr[i..|front|] == front[i..];
      assert Consecutive(tr, i, |front|);
    }
    assert forall a :: Consecutive(tr, a, |front|) ==> a == i && IsRef(last);
  }

  lemma ClosePairs(t: Timings, tr: seq<Spec>)
    ensures (forall i, k :: Consecutive(tr, i, k) ==> Close(t, 1, tr, i, k)) ==> PairsWithin(tr, t.tREFI + 1)
    ensures (forall i, k :: Consecutive(tr, i, k) ==> Close(t, 0, tr, i, k)) <==> PairsWithin(tr, t.tREFI)
  {
    hide Length, HasLoop;
  }

  // ---------------------------------------------------------------- the theorem

  /** What the DRAM sees of a generated payload with refresh on, from the grant to READY: the refreshes the
      compiler counted and the final one, neighbouring ones at most tREFI + 1 cycles apart, and at most
      tREFI if and only if no body fills its last interval to the cycle. */
  lemma BusRefreshes(j: Job, rows: seq<nat>, readCount: nat, repetitions: nat, mem: seq<nat>, r: Regs)
    requires FieldsFit(j, rows) && JumpsFit(j, rows, readCount, repetitions) && j.refresh && rows != []
    requires j.t.ActsPerInterval() > 0 && Waiting(r)
    requires InMemory(mem, Program(j, rows, readCount, repetitions) + [Noop(0)])
    ensures WellFormed(Program(j, rows, readCount, repetitions))
    ensures var times := RefTimes(Issued(mem, r, 0, RunLength(Program(j, rows, readCount, repetitions)) + 2));
            && Within(times, j.t.tREFI + 1)
            && (Within(times, j.t.tREFI) <==> !RunFills(j.t, |rows|, readCount, repetitions))
            && |times| == Body(j, Repeat(rows, repetitions)).refreshes * (readCount / repetitions)
                          + Body(j, rows).refreshes * (readCount % repetitions) + 1
  {
    hide Encode, Program, JumpFits, Executed, Cycles, Issued, Length, Repeat, Loaded, FieldsFit, NonNested, Body,
         RunFills, Executor.Commands, RefTimes, Starts, Within, Close, Consecutive, PairsWithin, CountRefs;
    var prog := Program(j, rows, readCount, repetitions);
    Timed(j, rows);
    NotEnoughTime(j.t);
    ProgramWellFormed(j, rows, readCount, repetitions);
    PayloadIsLoaded(j, rows, readCount, repetitions, mem);
    RunsToStop(mem, prog, r);
    var tr := Executed(prog);
    StampsAreStarts(j, rows, readCount, repetitions, Length(tr) + 1);
    WithinIff(tr, 1, j.t.tREFI);
    WithinIff(tr, 1, j.t.tREFI + 1);
    RefreshesInTime(j, rows, readCount, repetitions);
    TrefiBoundIff(j, rows, readCount, repetitions);
    ClosePairs(j.t, tr);
    RefreshCount(j, rows, readCount, repetitions);
    StartsCount(tr, 1);
  }

  lemma StampsAreStarts(j: Job, rows: seq<nat>, readCount: nat, repetitions: nat, stop: nat)
    requires FieldsFit(j, rows) && JumpsFit(j, rows, readCount, repetitions)
    requires WellFormed(Program(j, rows, readCount, repetitions))
    ensures var tr := Executed(Program(j, rows, readCount, repetitions));
            RefTimes(Executor.Commands(tr, 1) + [Event(stop, Encode(Noop(0)))]) == Starts(tr, 1)
  {
    hide Encode, Program, JumpFits, Executed, Repeat, FieldsFit, NonNested, Executor.Commands, RefTimes, Starts;
    var tr := Executed(Program(j, rows, readCount, repetitions));
    ExecutedAllFit(j, rows, readCount, repetitions);
    WordsAreStarts(tr, 1);
    StopFits();
    WordIsRef(Noop(0), stop);
    RefTimesPlus(Executor.Commands(tr, 1), [Event(stop, Encode(Noop(0)))]);
    assert Starts(tr, 1) + [] == Starts(tr, 1);
  }

  lemma {:induction false} StartsCount(tr: seq<Spec>, t: nat)
    ensures |Starts(tr, t)| == CountRefs(tr)
    decreases |tr|
  {
    if tr != [] { StartsCount(tr[1..], t + tr[0].Duration()); }
  }
}
