/** The BIST engines come to an end: with a DMA and a user that are always ready, every configuration has
    a finished fill and a finished check. What is proved of finished runs is therefore about real runs. */
module BistProgress {
  import opened Bits
  import opened Bist
  import opened BistAgreement
  import W = BistWriter
  import R = BistReader

  // ---------------------------------------------------------------- the writer

  /** A start strobe, then a DMA that is always ready. */
  function Fill(n: nat): seq<W.Input> {
    seq(n, k => W.Input(k == 0, true))
  }

  /** Clocks until the writer is ready again: seven for every transfer. */
  function WriterLeft(c: Cfg, s: W.State): int {
    7 * (c.count - s.cmd)
    + match s.fsm
      case READY => 0
      case COMPUTE_MEM_ADDR => 1
      case WAIT_FOR_DRAM_ADDR => 0
      case COMPUTE_DRAM_ADDR => -1
      case INVERT_COMPUTE => -2 - s.wait
      case SEND => -5
  }

  lemma WriterSteps(c: Cfg, s: W.State)
    requires W.Inv(c, s) && s.fsm != W.READY
    ensures var s' := W.Step(c, s, false, true);
            && s'.started && WriterLeft(c, s') == WriterLeft(c, s) - 1
            && (s'.fsm == W.READY ==> s'.cmd == c.count)
  {
    hide And, Pow2, Read, PipeNext, Settled, Index, Addr;
  }

  lemma {:induction false} WriterRuns(c: Cfg, n: nat)
    requires 1 <= n <= 7 * c.count + 2
    ensures var s := W.Run(c, Fill(n));
            && s.started && (s.fsm == W.READY <==> n == 7 * c.count + 2)
            && (s.fsm != W.READY ==> WriterLeft(c, s) == 7 * c.count + 2 - n)
    decreases n
  {
    hide W.Step, W.Inv, WriterLeft;
    FillSnoc(c, n);
    if n == 1 {
      WriterStarts(c);
    } else {
      WriterRuns(c, n - 1);
      var s := W.Run(c, Fill(n - 1));
      W.WritesPattern(c, Fill(n - 1));
      W.StepKeeps(c, s, false, true);
      WriterSteps(c, s);
      WriterLeftMeans(c, W.Step(c, s, false, true));
    }
  }

  lemma FillSnoc(c: Cfg, n: nat)
    requires n > 0
    ensures W.Run(c, Fill(n)) == W.Step(c, W.Run(c, Fill(n - 1)), n == 1, true)
    ensures Fill(0) == []
  {
    hide W.Step;
    assert Fill(n)[..n - 1] == Fill(n - 1);
  }

  lemma WriterStarts(c: Cfg)
    ensures W.Run(c, []) == W.PowerOn
    ensures var s := W.Step(c, W.PowerOn, true, true);
            s.started && s.fsm == W.COMPUTE_MEM_ADDR && WriterLeft(c, s) == 7 * c.count + 1
  {
    hide And, Pow2, Read, PipeNext;
  }

  /** Nothing is left exactly when the writer is ready. */
  lemma WriterLeftMeans(c: Cfg, s: W.State)
    requires W.Inv(c, s) && s.started
    ensures s.fsm != W.READY ==> WriterLeft(c, s) > 0
    ensures s.fsm == W.READY && s.cmd == c.count ==> WriterLeft(c, s) == 0
  {
    hide And, Pow2, Read, Settled, Index, Addr;
  }

  // ---------------------------------------------------------------- the reader

  /** A memory of words. */
  ghost predicate Words(m: Memory) {
    forall a :: a in m ==> m[a] >= 0
  }

  /** A cycle with everybody ready, and the DMA answering from `m`. */
  function Serve(m: Memory, s: R.State, start: bool): R.Input {
    var word := if s.q.dma != [] then Load(m, s.q.dma[0]) else 0;
    R.Input(start, true, s.q.dma != [], if word >= 0 then word else 0, true, s.q.errs != [], true, 0)
  }

  /** A start strobe, then such cycles. */
  function Check(c: Cfg, skip: bool, m: Memory, n: nat): (inputs: seq<R.Input>)
    ensures |inputs| == n
  {
    if n == 0 then [] else Check(c, skip, m, n - 1) + [Serve(m, R.Run(c, skip, Check(c, skip, m, n - 1)), n == 1)]
  }

  lemma {:induction false} CheckPrefix(c: Cfg, skip: bool, m: Memory, n: nat, k: nat)
    requires k < n
    ensures Check(c, skip, m, n)[..k] == Check(c, skip, m, k)
    ensures Check(c, skip, m, n)[k] == Serve(m, R.Run(c, skip, Check(c, skip, m, k)), k == 0)
    decreases n
  {
    hide R.Run, Serve;
    if k < n - 1 {
      CheckPrefix(c, skip, m, n - 1, k);
    }
  }

  lemma CheckIsFair(c: Cfg, skip: bool, m: Memory, n: nat)
    requires Words(m)
    ensures R.Disciplined(c, skip, Check(c, skip, m, n)) && ServedFrom(c, skip, Check(c, skip, m, n), m)
  {
    hide R.Step, Check;
    var inputs := Check(c, skip, m, n);
    forall k | 0 <= k < n
      ensures R.StartsInStep(R.Run(c, skip, inputs[..k]), inputs[k])
      ensures var s := R.Run(c, skip, inputs[..k]);
              R.Take(s, inputs[k]) ==> inputs[k].data == Load(m, s.q.dma[0])
    {
      CheckPrefix(c, skip, m, n, k);
      if k == 0 { assert inputs[..0] == []; }
    }
  }

  /** Work left for the address FSM, in clocks that are not stalled. */
  function AddrLeft(c: Cfg, a: R.AddrSide): int {
    5 * (c.count - a.counter)
    + match a.fsm
      case A_READY => 0
      case A_COMPUTE_MEM => 1
      case A_WAIT => 0
      case A_COMPUTE_DRAM => -1
      case A_PUSH_FIFO => -2
      case A_PUSH_DMA => -3
  }

  /** The same for the pattern FSM. */
  function PatLeft(c: Cfg, p: R.PatSide): int {
    7 * (c.count - p.counter)
    + match p.fsm
      case P_READY => 0
      case P_COMPUTE_MEM => 2
      case P_WAIT => 1
      case P_INVERT => 0 - p.wait
      case P_RD_DATA => -3
      case P_WR_ERR => 3
  }

  function Left(c: Cfg, s: R.State): int {
    AddrLeft(c, s.a) + PatLeft(c, s.p)
  }

  lemma AddrProgress(c: Cfg, s: R.State, i: R.Input)
    requires R.FlowInv(c, s) && s.p.fsm != R.P_READY && !i.start && i.dmaReady
    ensures var left := AddrLeft(c, R.StepAddr(c, s, i));
            if s.a.fsm == R.A_READY || (s.a.fsm == R.A_PUSH_FIFO && |s.q.fifo| >= R.FIFO_DEPTH)
            then left == AddrLeft(c, s.a) else left == AddrLeft(c, s.a) - 1
  {
    hide And, Pow2, Read, R.PatInv, R.Aligned, Addr, Index;
  }

  lemma PatProgress(c: Cfg, skip: bool, s: R.State, i: R.Input)
    requires R.FlowInv(c, s) && s.p.fsm != R.P_READY && i.errReady && (s.q.dma != [] ==> i.dmaValid)
    ensures var left := PatLeft(c, R.StepPat(c, skip, s, i));
            if (s.p.fsm == R.P_WAIT && s.q.fifo == []) || (s.p.fsm == R.P_RD_DATA && s.q.dma == [])
            then left == PatLeft(c, s.p) else left < PatLeft(c, s.p)
  {
    hide And, Pow2, Read, PipeNext, R.AddrInv, R.Aligned, Addr, Index, Settled;
  }

  /** The address FSM works while the pattern FSM waits for it: some work is done in every clock. */
  lemma NoDeadlock(c: Cfg, s: R.State)
    requires R.FlowInv(c, s) && s.p.fsm != R.P_READY
    requires (s.p.fsm == R.P_WAIT && s.q.fifo == []) || (s.p.fsm == R.P_RD_DATA && s.q.dma == [])
    ensures s.a.fsm != R.A_READY && !(s.a.fsm == R.A_PUSH_FIFO && |s.q.fifo| >= R.FIFO_DEPTH)
  {
    hide And, Pow2, Read, R.AddrInv, Addr, Index, Settled;
  }

  lemma LeftDecreases(c: Cfg, skip: bool, s: R.State, i: R.Input)
    requires R.FlowInv(c, s) && s.p.fsm != R.P_READY
    requires !i.start && i.dmaReady && i.errReady && (s.q.dma != [] ==> i.dmaValid)
    ensures Left(c, R.Step(c, skip, s, i)) < Left(c, s)
  {
    hide R.FlowInv, AddrLeft, PatLeft, R.StepAddr, R.StepPat;
    AddrProgress(c, s, i);
    PatProgress(c, skip, s, i);
    if (s.p.fsm == R.P_WAIT && s.q.fifo == []) || (s.p.fsm == R.P_RD_DATA && s.q.dma == []) { NoDeadlock(c, s); }
  }

  lemma LeftPositive(c: Cfg, s: R.State)
    requires R.FlowInv(c, s) && s.p.fsm != R.P_READY
    ensures Left(c, s) >= 0
  {
    hide And, Pow2, Read, R.Aligned, Addr, Index, Settled;
  }

  /** One clock before the reader is ready again. */
  ghost predicate LastClock(c: Cfg, s: R.State) {
    s.p.fsm == R.P_COMPUTE_MEM && s.p.counter == c.count
  }

  lemma BusyGoesOn(c: Cfg, skip: bool, s: R.State, i: R.Input)
    requires R.FlowInv(c, s) && s.p.fsm != R.P_READY
    ensures R.Step(c, skip, s, i).p.fsm == R.P_READY <==> LastClock(c, s)
  {
    hide And, Pow2, Read, PipeNext, R.AddrInv, R.Aligned, Addr, Index, Settled;
  }

  lemma {:induction false} ReaderGoesOn(c: Cfg, skip: bool, m: Memory, n: nat) returns (k: nat)
    requires Words(m) && n >= 1 && R.Run(c, skip, Check(c, skip, m, n)).p.fsm != R.P_READY
    ensures k >= 1 && LastClock(c, R.Run(c, skip, Check(c, skip, m, k)))
    decreases LeftNow(c, skip, m, n)
  {
    hide R.Step, Check, LastClock, R.FlowInv, R.Disciplined, ServedFrom, Left;
    var s := R.Run(c, skip, Check(c, skip, m, n));
    CheckIsFair(c, skip, m, n);
    R.RunInv(c, skip, Check(c, skip, m, n));
    if LastClock(c, s) {
      k := n;
    } else {
      CheckIsFair(c, skip, m, n + 1);
      R.RunInv(c, skip, Check(c, skip, m, n + 1));
      CheckSnoc(c, skip, m, n);
      var i := Serve(m, s, false);
      BusyGoesOn(c, skip, s, i);
      LeftDecreases(c, skip, s, i);
      LeftPositive(c, s);
      LeftPositive(c, R.Step(c, skip, s, i));
      k := ReaderGoesOn(c, skip, m, n + 1);
    }
  }

  /** The measure of the check after `n` clocks. */
  ghost function LeftNow(c: Cfg, skip: bool, m: Memory, n: nat): nat {
    var left := Left(c, R.Run(c, skip, Check(c, skip, m, n)));
    if left >= 0 then left else 0
  }

  lemma CheckSnoc(c: Cfg, skip: bool, m: Memory, n: nat)
    ensures var s := R.Run(c, skip, Check(c, skip, m, n));
            R.Run(c, skip, Check(c, skip, m, n + 1)) == R.Step(c, skip, s, Serve(m, s, n == 0))
  {
    hide R.Step, Serve;
    var inputs := Check(c, skip, m, n);
    assert Check(c, skip, m, n + 1)[..n] == inputs;
  }

  lemma ReaderStarts(c: Cfg, skip: bool, m: Memory)
    ensures R.Run(c, skip, Check(c, skip, m, 1)).p.fsm == R.P_COMPUTE_MEM
  {
    hide And, Pow2, Read, PipeNext;
    CheckSnoc(c, skip, m, 0);
    assert Check(c, skip, m, 0) == [];
  }

  /** Every check ends. */
  lemma ReaderFinishes(c: Cfg, skip: bool, m: Memory) returns (k: nat)
    requires Words(m)
    ensures k >= 1 && LastClock(c, R.Run(c, skip, Check(c, skip, m, k)))
    ensures var s := R.Run(c, skip, Check(c, skip, m, k + 1)); s.past.started && s.p.fsm == R.P_READY
  {
    hide R.Step, Check, R.FlowInv, R.Disciplined, ServedFrom;
    ReaderStarts(c, skip, m);
    k := ReaderGoesOn(c, skip, m, 1);
    CheckIsFair(c, skip, m, k);
    R.RunInv(c, skip, Check(c, skip, m, k));
    CheckSnoc(c, skip, m, k);
    var s := R.Run(c, skip, Check(c, skip, m, k));
    BusyGoesOn(c, skip, s, Serve(m, s, false));
    StaysStarted(c, skip, s, Serve(m, s, false));
  }

  lemma StaysStarted(c: Cfg, skip: bool, s: R.State, i: R.Input)
    requires R.LogInv(c, s) && s.p.fsm != R.P_READY
    ensures R.Step(c, skip, s, i).past.started
  {
    hide R.StepAddr, R.StepPat, R.StepErr, R.StepQueues, R.Mismatches;
  }

  // ---------------------------------------------------------------- consequences

  /** The early start is reachable in every configuration with transfers: a disciplined run leads to a
      state with only the pattern FSM busy, where one more start strobe breaks the alignment. */
  lemma EarlyStartReachable(c: Cfg, skip: bool) returns (inputs: seq<R.Input>, i: R.Input)
    requires c.count > 0
    ensures R.Disciplined(c, skip, inputs) && i.start
    ensures var s := R.Run(c, skip, inputs); s.p.fsm != R.P_READY && s.a.fsm == R.A_READY
    ensures var s' := R.Run(c, skip, inputs + [i]); !R.Aligned(c, s') && !R.FlowInv(c, s')
  {
    hide R.Step, Check, R.Disciplined, ServedFrom, R.AddrInv, R.PatInv, R.Aligned, R.LogInv;
    var m: Memory := map[];
    var k := ReaderFinishes(c, skip, m);
    inputs := Check(c, skip, m, k);
    CheckIsFair(c, skip, m, k);
    R.RunInv(c, skip, inputs);
    var s := R.Run(c, skip, inputs);
    i := Serve(m, s, true);
    assert (inputs + [i])[..|inputs|] == inputs;
    R.EarlyStartMisaligns(c, skip, s, i);
    R.InStepIff(c, skip, s, i);
  }

  lemma {:induction false} StoredIsWords(c: Cfg, m: Memory, n: nat)
    requires PatternFits(c) && Words(m)
    ensures Words(Store(m, W.Writes(c, n)))
    decreases n
  {
    hide Addr, Index, And, IsSelected, RowIndex, Pow2;
    if n > 0 {
      StoredIsWords(c, m, n - 1);
      W.WritesSnoc(c, n - 1);
      assert W.Writes(c, n)[..n - 1] == W.Writes(c, n - 1);
      WordFits(c, n - 1);
    }
  }

  lemma WordFits(c: Cfg, k: nat)
    requires PatternFits(c)
    ensures Word(c, k) >= 0
  {
    hide Addr, Index, IsSelected, RowIndex, Pow2;
  }

  /** For every configuration with distinct addresses there is a fill and a check of the untouched memory
      that both end; the check is clean if and only if modulo mode is off or all pattern words used are
      equal. */
  lemma UntouchedCheck(c: Cfg, before: Memory) returns (fill: seq<W.Input>, check: seq<R.Input>)
    requires Distinct(c) && PatternFits(c) && Words(before)
    ensures W.Run(c, fill).started && W.Run(c, fill).fsm == W.READY
    ensures R.Disciplined(c, false, check) && ServedFrom(c, false, check, Store(before, W.Run(c, fill).sent))
    ensures R.Run(c, false, check).past.started && R.Run(c, false, check).p.fsm == R.P_READY
    ensures R.Run(c, false, check).p.errors == 0 <==> !c.modulo || OneWord(c)
  {
    hide W.Run, R.Run, R.Disciplined, ServedFrom, Store, Distinct, OneWord, PatternFits, Words, Check, Fill, W.Inv;
    fill := Fill(7 * c.count + 2);
    WriterRuns(c, 7 * c.count + 2);
    W.WritesPattern(c, fill);
    StoredIsWords(c, before, c.count);
    var m := Store(before, W.Run(c, fill).sent);
    var k := ReaderFinishes(c, false, m);
    check := Check(c, false, m, k + 1);
    CheckIsFair(c, false, m, k + 1);
    UnchangedIsCleanIff(c, fill, check, before);
  }

  /** Two pattern words in modulo mode, written to addresses 0 and 1. */
  function TwoWords(): Cfg {
    Cfg(2, true, 0, 0, 1, [0, 1], [0, 1], 8, 8, 0, 0, 0, 0)
  }

  /** A fill and a check that report errors on a memory that nobody touched. */
  lemma ModuloExample() returns (fill: seq<W.Input>, check: seq<R.Input>)
    ensures var c := TwoWords();
            && W.Run(c, fill).started && W.Run(c, fill).fsm == W.READY
            && R.Disciplined(c, false, check) && ServedFrom(c, false, check, Store(map[], W.Run(c, fill).sent))
            && R.Run(c, false, check).past.started && R.Run(c, false, check).p.fsm == R.P_READY
            && R.Run(c, false, check).p.errors > 0
  {
    hide W.Run, R.Run, R.Disciplined, ServedFrom, Store;
    var c := TwoWords();
    TwoAddresses(c);
    fill, check := UntouchedCheck(c, map[]);
  }

  lemma TwoAddresses(c: Cfg)
    requires c == TwoWords()
    ensures Distinct(c) && PatternFits(c) && !OneWord(c)
  {
    hide Pow2, And;
    PowersOfInterest();
    AndZero(0);
    AndZero(1);
    assert Pow2(8) == 256 by { EightBits(); }
    assert Addr(c, 0) == 0 && Addr(c, 1) == 1;
    assert Read(c.datas, Index(c, 1)) == 1;
  }

  lemma EightBits()
    ensures Pow2(8) == 256
  {
  }
}
