/** The compiler, the executor and the timing checker together: what a generated payload
    puts on the bus is accepted by the DDR3 checker with the same timings. */
module TimingSafe {
  import opened Bits
  import opened Isa
  import opened Loops
  import opened Executor
  import opened CycleCount
  import opened Compiler
  import opened CompilerCorrect
  import opened EndToEnd
  import Dram
  import Ddr3

  // ---------------------------------------------------------------- from words to DRAM commands

  /** A word on the bus as the checker sees it; precharge-all is a precharge of the hammered bank. */
  function DramCmd(g: Geometry, bank: nat, e: Event): seq<Dram.Cmd> {
    var p := PinsOf(g, e.word);
    if p.opCode == Code(ACT) then [Dram.Cmd(e.at, Dram.ACT, 0, p.bank)]
    else if p.opCode == Code(PRE) then [Dram.Cmd(e.at, Dram.PRE, 0, bank)]
    else if p.opCode == Code(REF) then [Dram.Cmd(e.at, Dram.REF, 0, 0)]
    else []
  }

  function DramOf(g: Geometry, bank: nat, events: seq<Event>): seq<Dram.Cmd> {
    if events == [] then [] else DramCmd(g, bank, events[0]) + DramOf(g, bank, events[1..])
  }

  function SpecCmd(g: Geometry, bank: nat, s: Spec, t: nat): seq<Dram.Cmd> {
    if !s.Dfi? then []
    else match s.op
         case ACT => [Dram.Cmd(t, Dram.ACT, 0, DfiBank(g, s.address))]
         case PRE => [Dram.Cmd(t, Dram.PRE, 0, bank)]
         case REF => [Dram.Cmd(t, Dram.REF, 0, 0)]
         case _ => []
  }

  /** The same from the executed instructions. */
  function DramTrace(g: Geometry, bank: nat, tr: seq<Spec>, t: nat): seq<Dram.Cmd> {
    if tr == [] then [] else SpecCmd(g, bank, tr[0], t) + DramTrace(g, bank, tr[1..], t + tr[0].Duration())
  }

  lemma {:induction false} DramOfPlus(g: Geometry, bank: nat, a: seq<Event>, b: seq<Event>)
    ensures DramOf(g, bank, a + b) == DramOf(g, bank, a) + DramOf(g, bank, b)
    decreases |a|
  {
    hide DramCmd;
    if a == [] {
      assert a + b == b;
    } else {
      DramOfPlus(g, bank, a[1..], b);
      assert (a + b)[1..] == a[1..] + b;
    }
  }

  lemma WordIsSpec(g: Geometry, bank: nat, s: Spec, t: nat)
    requires s.Legal() && s.Fits() && !s.Loop?
    ensures DramOf(g, bank, [Event(t, Encode(s))]) == SpecCmd(g, bank, s, t)
  {
    hide Encode, Decode, DfiRank, DfiBank, DfiAddress;
    DecodeEncode(s);
    MaskedIffFits(s);
    assert [Event(t, Encode(s))][1..] == [];
  }

  lemma {:induction false} WordsAreSpecs(g: Geometry, bank: nat, tr: seq<Spec>, t: nat)
    requires AllFit(tr)
    ensures DramOf(g, bank, Executor.Commands(tr, t)) == DramTrace(g, bank, tr, t)
    decreases |tr|
  {
    hide Encode, DramCmd, SpecCmd, DramOf, Spec.Fits, Spec.Legal;
    if tr == [] {
      NothingOnBus(g, bank);
    } else {
      var s := tr[0];
      var rest := Executor.Commands(tr[1..], t + s.Duration());
      WordsAreSpecs(g, bank, tr[1..], t + s.Duration());
      if s.Loop? {
        LoopIsSilent(g, bank, s, t);
        assert [] + rest == rest;
        assert [] + DramOf(g, bank, rest) == DramOf(g, bank, rest);
      } else {
        WordIsSpec(g, bank, s, t);
        DramOfPlus(g, bank, [Event(t, Encode(s))], rest);
      }
    }
  }

  lemma NothingOnBus(g: Geometry, bank: nat)
    ensures DramOf(g, bank, []) == []
  {
  }

  lemma LoopIsSilent(g: Geometry, bank: nat, s: Spec, t: nat)
    requires s.Loop?
    ensures SpecCmd(g, bank, s, t) == []
  {
  }

  // ---------------------------------------------------------------- quiet states

  /** The checker's timing is no stricter than what the payload waits for. */
  ghost predicate Agrees(T: Ddr3.Timing, j: Job) {
    && T.bank.ras <= j.t.tRAS && T.bank.rp <= j.t.tRP && T.rfc <= j.t.tRFC
    && T.rrd <= j.t.tRAS + j.t.tRP && T.faw <= 4 * (j.t.tRAS + j.t.tRP) && j.bank < Ddr3.BANKS
  }

  ghost predicate Gaps(s: seq<int>, gap: int) {
    forall i :: 1 <= i < |s| ==> s[i] - s[i - 1] >= gap
  }

  /** Commands of a payload: no reads, activates and precharges in one bank. */
  ghost predicate OneBank(h: seq<Dram.Cmd>, bank: nat) {
    forall i :: 0 <= i < |h| ==>
      && h[i].group == 0 && h[i].op != Dram.RD && (h[i].op == Dram.REF || h[i].bank == bank) && h[i].bank < Ddr3.BANKS
  }

  /** All banks are closed and every delay has passed at tick `t`. */
  ghost predicate Quiet(T: Ddr3.Timing, j: Job, h: seq<Dram.Cmd>, t: int) {
    && Dram.Ordered(h) && OneBank(h, j.bank) && Ddr3.Legal(T, h)
    && t >= 0 && (forall i :: 0 <= i < |h| ==> h[i].tick < t)
    && !Dram.Open(h, Dram.Any(Dram.ACT), Dram.Any(Dram.PRE))
    && !Dram.Open(h, Dram.InBank(Dram.ACT, 0, j.bank), Dram.InBank(Dram.PRE, 0, j.bank))
    && Dram.Spaced(h, Dram.Any(Dram.PRE), t, T.bank.rp)
    && Dram.Spaced(h, Dram.Any(Dram.REF), t, T.rfc)
    && Dram.Spaced(h, Dram.Any(Dram.ACT), t, j.t.tRAS + j.t.tRP)
    && Gaps(Dram.Acts(h), j.t.tRAS + j.t.tRP)
  }

  lemma SpacedSnoc(h: seq<Dram.Cmd>, c: Dram.Cmd, s: Dram.Sel, t: int, gap: nat)
    ensures Dram.Spaced(h + [c], s, t, gap) <==> Dram.Spaced(h, s, t, gap) && (Dram.Match(s, c) ==> t >= c.tick + gap)
  {
    var h' := h + [c];
    assert forall i :: 0 <= i < |h| ==> h'[i] == h[i];
    assert h'[|h|] == c;
  }

  lemma OrderedAppend(h: seq<Dram.Cmd>, c: Dram.Cmd)
    requires Dram.Ordered(h) && c.tick >= 0 && forall i :: 0 <= i < |h| ==> h[i].tick < c.tick
    ensures Dram.Ordered(h + [c])
  {
  }

  /** Activations at least one row cycle apart keep every four-activate window of four row cycles. */
  lemma GapsGiveFaw(s: seq<int>, gap: nat, faw: nat)
    requires Gaps(s, gap) && gap > 0 && faw <= 4 * gap
    ensures Dram.FourActivates(s, faw)
  {
    hide Dram.FourActivates;
    GapsIncrease(s, gap);
    assert Dram.FourthBefore(s, faw) by {
      forall i | 4 <= i < |s| ensures s[i] - s[i - 4] >= faw {
        assert s[i] - s[i - 1] >= gap && s[i - 1] - s[i - 2] >= gap && s[i - 2] - s[i - 3] >= gap
            && s[i - 3] - s[i - 4] >= gap;
      }
    }
    Dram.FawRule(s, faw);
  }

  lemma {:induction false} GapsIncrease(s: seq<int>, gap: nat)
    requires Gaps(s, gap) && gap > 0
    ensures Dram.Increasing(s)
    decreases |s|
  {
    if s != [] {
      var front := s[..|s| - 1];
      GapsIncrease(front, gap);
      forall i, k | 0 <= i < k < |s| ensures s[i] < s[k] {
        if k < |s| - 1 {
          assert front[i] < front[k];
        } else {
          assert s[k] - s[k - 1] >= gap;
          if i < k - 1 { assert front[i] < front[k - 1]; }
        }
      }
    }
  }

  /** Activations so far, followed by one at `t`, keep their gaps. */
  lemma GapsSnoc(h: seq<Dram.Cmd>, t: int, gap: nat)
    requires Gaps(Dram.Acts(h), gap) && Dram.Spaced(h, Dram.Any(Dram.ACT), t, gap)
    ensures Gaps(Dram.Acts(h) + [t], gap)
  {
    var acts := Dram.Acts(h);
    if acts != [] {
      var i := ActIndex(h);
      assert Dram.Match(Dram.Any(Dram.ACT), h[i]);
    }
  }

  lemma {:induction false} ActIndex(h: seq<Dram.Cmd>) returns (i: int)
    requires Dram.Acts(h) != []
    ensures 0 <= i < |h| && h[i].op == Dram.ACT && h[i].tick == Dram.Acts(h)[|Dram.Acts(h)| - 1]
    decreases |h|
  {
    if h[|h| - 1].op == Dram.ACT {
      i := |h| - 1;
    } else {
      i := ActIndex(h[..|h| - 1]);
      assert Dram.Acts(h) == Dram.Acts(h[..|h| - 1]);
    }
  }

  lemma AnyCoversBank(h: seq<Dram.Cmd>, op: Dram.Op, g: nat, b: nat, t: int, gap: nat)
    requires Dram.Spaced(h, Dram.Any(op), t, gap)
    ensures Dram.Spaced(h, Dram.InBank(op, g, b), t, gap)
  {
    forall i | 0 <= i < |h| && Dram.Match(Dram.InBank(op, g, b), h[i]) ensures t >= h[i].tick + gap {
      assert Dram.Match(Dram.Any(op), h[i]);
    }
  }

  /** From a quiet state a refresh is legal. */
  lemma RefreshLegal(T: Ddr3.Timing, j: Job, h: seq<Dram.Cmd>, t: int)
    requires Quiet(T, j, h, t)
    ensures Ddr3.Legal(T, h + [Dram.Cmd(t, Dram.REF, 0, 0)])
    ensures Dram.Ordered(h + [Dram.Cmd(t, Dram.REF, 0, 0)]) && OneBank(h + [Dram.Cmd(t, Dram.REF, 0, 0)], j.bank)
  {
    hide Dram.Open, Dram.Spaced, Dram.Acts, Ddr3.Legal, Gaps;
    var c := Dram.Cmd(t, Dram.REF, 0, 0);
    Ddr3.LegalSnoc(T, h, c);
    OrderedAppend(h, c);
  }

  lemma RefreshQuiet(T: Ddr3.Timing, j: Job, h: seq<Dram.Cmd>, t: int)
    requires Quiet(T, j, h, t) && Agrees(T, j) && j.Positive()
    ensures Quiet(T, j, h + [Dram.Cmd(t, Dram.REF, 0, 0)], t + j.t.tRFC)
  {
    hide Dram.Open, Dram.Spaced, Dram.Acts, Ddr3.Legal, Gaps, Dram.Ordered, OneBank;
    var c, t' := Dram.Cmd(t, Dram.REF, 0, 0), t + j.t.tRFC;
    RefreshLegal(T, j, h, t);
    Dram.OpenSnoc(h, c, Dram.Any(Dram.ACT), Dram.Any(Dram.PRE));
    Dram.OpenSnoc(h, c, Dram.InBank(Dram.ACT, 0, j.bank), Dram.InBank(Dram.PRE, 0, j.bank));
    LaterSpaced(T, j, h, t, t');
    SpacedSnoc(h, c, Dram.Any(Dram.PRE), t', T.bank.rp);
    SpacedSnoc(h, c, Dram.Any(Dram.REF), t', T.rfc);
    SpacedSnoc(h, c, Dram.Any(Dram.ACT), t', j.t.tRAS + j.t.tRP);
    Dram.ActsSnoc(h, c);
    assert Dram.Acts(h) + [] == Dram.Acts(h);
  }

  lemma LaterSpaced(T: Ddr3.Timing, j: Job, h: seq<Dram.Cmd>, t: int, t': int)
    requires Quiet(T, j, h, t) && t <= t'
    ensures Quiet(T, j, h, t')
    ensures Dram.Spaced(h, Dram.Any(Dram.PRE), t', T.bank.rp) && Dram.Spaced(h, Dram.Any(Dram.REF), t', T.rfc)
    ensures Dram.Spaced(h, Dram.Any(Dram.ACT), t', j.t.tRAS + j.t.tRP)
  {
    hide Dram.Open, Dram.Acts, Ddr3.Legal, Gaps, Dram.Ordered, OneBank;
  }

  /** From a quiet state an activate is legal. */
  lemma ActivateLegal(T: Ddr3.Timing, j: Job, h: seq<Dram.Cmd>, t: int)
    requires Quiet(T, j, h, t) && Agrees(T, j) && j.Positive()
    ensures var c := Dram.Cmd(t, Dram.ACT, 0, j.bank);
            && Ddr3.Legal(T, h + [c]) && Dram.Ordered(h + [c]) && OneBank(h + [c], j.bank)
            && Gaps(Dram.Acts(h + [c]), j.t.tRAS + j.t.tRP)
  {
    hide Dram.Open, Dram.Acts, Ddr3.Legal, Gaps, Dram.FourActivates;
    var c := Dram.Cmd(t, Dram.ACT, 0, j.bank);
    var pair := j.t.tRAS + j.t.tRP;
    GapsSnoc(h, t, pair);
    GapsGiveFaw(Dram.Acts(h) + [t], pair, T.faw);
    AnyCoversBank(h, Dram.PRE, 0, j.bank, t, T.bank.rp);
    Dram.ActsSnoc(h, c);
    Ddr3.LegalSnoc(T, h, c);
    OrderedAppend(h, c);
  }

  /** After the activate, the precharge at the end of its timeslice is legal and quiet returns. */
  lemma PairQuiet(T: Ddr3.Timing, j: Job, h: seq<Dram.Cmd>, t: int)
    requires Quiet(T, j, h, t) && Agrees(T, j) && j.Positive()
    ensures Quiet(T, j, h + [Dram.Cmd(t, Dram.ACT, 0, j.bank)] + [Dram.Cmd(t + j.t.tRAS, Dram.PRE, 0, j.bank)],
                  t + j.t.tRAS + j.t.tRP)
  {
    hide Dram.Open, Dram.Acts, Ddr3.Legal, Gaps, Dram.Spaced, Dram.Ordered, Ddr3.LegalNext;
    var a, p := Dram.Cmd(t, Dram.ACT, 0, j.bank), Dram.Cmd(t + j.t.tRAS, Dram.PRE, 0, j.bank);
    var h1, t' := h + [a], t + j.t.tRAS + j.t.tRP;
    ActivateLegal(T, j, h, t);
    PrechargeLegal(T, j, h, t);
    Ddr3.LegalSnoc(T, h1, p);
    OrderedAppend(h1, p);
    Dram.ActsSnoc(h1, p);
    assert Dram.Acts(h1) + [] == Dram.Acts(h1);
    Dram.OpenSnoc(h1, p, Dram.Any(Dram.ACT), Dram.Any(Dram.PRE));
    Dram.OpenSnoc(h1, p, Dram.InBank(Dram.ACT, 0, j.bank), Dram.InBank(Dram.PRE, 0, j.bank));
    LaterSpaced(T, j, h, t, t');
    TwoSpaced(h, a, p, Dram.Any(Dram.PRE), t', T.bank.rp);
    TwoSpaced(h, a, p, Dram.Any(Dram.REF), t', T.rfc);
    TwoSpaced(h, a, p, Dram.Any(Dram.ACT), t', j.t.tRAS + j.t.tRP);
  }

  lemma TwoSpaced(h: seq<Dram.Cmd>, a: Dram.Cmd, p: Dram.Cmd, s: Dram.Sel, t: int, gap: nat)
    requires Dram.Spaced(h, s, t, gap)
    requires (Dram.Match(s, a) ==> t >= a.tick + gap) && (Dram.Match(s, p) ==> t >= p.tick + gap)
    ensures Dram.Spaced(h + [a] + [p], s, t, gap)
  {
    hide Dram.Spaced;
    SpacedSnoc(h, a, s, t, gap);
    SpacedSnoc(h + [a], p, s, t, gap);
  }

  lemma PrechargeLegal(T: Ddr3.Timing, j: Job, h: seq<Dram.Cmd>, t: int)
    requires Quiet(T, j, h, t) && Agrees(T, j) && j.Positive()
    ensures Ddr3.LegalNext(T, h + [Dram.Cmd(t, Dram.ACT, 0, j.bank)], Dram.Cmd(t + j.t.tRAS, Dram.PRE, 0, j.bank))
  {
    hide Dram.Open, Dram.Acts, Ddr3.Legal, Gaps, Dram.Ordered, Dram.Spaced;
    var a, t' := Dram.Cmd(t, Dram.ACT, 0, j.bank), t + j.t.tRAS;
    LaterSpaced(T, j, h, t, t');
    SpacedSnoc(h, a, Dram.Any(Dram.REF), t', T.rfc);
    NoReads(h, j.bank, t', T.bank.rtp);
    SpacedSnoc(h, a, Dram.InBank(Dram.RD, 0, j.bank), t', T.bank.rtp);
    AnyCoversBank(h, Dram.ACT, 0, j.bank, t', j.t.tRAS + j.t.tRP);
    Looser(h, Dram.InBank(Dram.ACT, 0, j.bank), t', j.t.tRAS + j.t.tRP, T.bank.ras);
    SpacedSnoc(h, a, Dram.InBank(Dram.ACT, 0, j.bank), t', T.bank.ras);
  }

  lemma NoReads(h: seq<Dram.Cmd>, bank: nat, t: int, gap: nat)
    requires OneBank(h, bank)
    ensures Dram.Spaced(h, Dram.InBank(Dram.RD, 0, bank), t, gap)
  {
  }

  lemma Looser(h: seq<Dram.Cmd>, s: Dram.Sel, t: int, gap: nat, less: nat)
    requires Dram.Spaced(h, s, t, gap) && less <= gap
    ensures Dram.Spaced(h, s, t, less)
  {
  }

  // ---------------------------------------------------------------- traces made of quiet steps

  predicate Still(j: Job, s: Spec) {
    s.Loop? || s.Noop? || s == Dfi(REF, j.t.tRFC, 0)
  }

  predicate IsPair(j: Job, a: Spec, p: Spec) {
    && a.Dfi? && a.op == ACT && a.slice == j.t.tRAS && DfiBank(j.g, a.address) == j.bank
    && p.Dfi? && p.op == PRE && p.slice == j.t.tRP
  }

  /** A trace of waits, refreshes, jumps and activate-precharge pairs. */
  predicate Chunked(j: Job, tr: seq<Spec>) {
    tr == []
    || (|tr| >= 2 && IsPair(j, tr[0], tr[1]) && Chunked(j, tr[2..]))
    || (Still(j, tr[0]) && Chunked(j, tr[1..]))
  }

  lemma {:induction false} ChunkedPlus(j: Job, a: seq<Spec>, b: seq<Spec>)
    requires Chunked(j, a) && Chunked(j, b)
    ensures Chunked(j, a + b)
    decreases |a|
  {
    hide IsPair, Still;
    if a == [] {
      assert a + b == b;
    } else if |a| >= 2 && IsPair(j, a[0], a[1]) && Chunked(j, a[2..]) {
      ChunkedPlus(j, a[2..], b);
      assert (a + b)[2..] == a[2..] + b;
    } else {
      ChunkedPlus(j, a[1..], b);
      assert (a + b)[1..] == a[1..] + b;
    }
  }

  lemma ChunkedOne(j: Job, s: Spec)
    requires Still(j, s)
    ensures Chunked(j, [s])
  {
    assert [s][1..] == [];
  }

  lemma ChunkedPair(j: Job, rows: seq<nat>, row: nat)
    requires FieldsFit(j, rows) && row < Pow2(j.g.AddressBits())
    ensures Chunked(j, [j.Activate(row), j.Precharge()])
  {
    hide Address, DfiBank;
    AddressRoundTrip(j.g, j.rank, j.bank, row);
    ModSmall(j.bank, Pow2(j.g.bankbits));
    assert [j.Activate(row), j.Precharge()][2..] == [];
  }

  lemma {:induction false} ChunkedBody(j: Job, rows: seq<nat>)
    requires FieldsFit(j, rows)
    ensures Chunked(j, Body(j, rows).code)
  {
    hide Chunked, Address;
    var refresh := j.RefreshOp(j.t.tRFC);
    ChunkedOne(j, refresh);
    if rows != [] {
      var front, row := rows[..|rows| - 1], rows[|rows| - 1];
      assert FieldsFit(j, front);
      ChunkedBody(j, front);
      ChunkedPair(j, rows, row);
      var code := Body(j, front).code;
      ChunkedPlus(j, code, [refresh]);
      ChunkedPlus(j, code + [refresh], [j.Activate(row), j.Precharge()]);
      ChunkedPlus(j, code, [j.Activate(row), j.Precharge()]);
    }
  }

  lemma {:induction false} ChunkedRepeat(j: Job, code: seq<Spec>, n: nat)
    requires Chunked(j, code)
    ensures Chunked(j, Repeat(code, n))
    decreases n
  {
    hide IsPair, Still;
    if n > 0 {
      ChunkedRepeat(j, code, n - 1);
      ChunkedPlus(j, code, Repeat(code, n - 1));
    }
  }

  lemma {:induction false} ChunkedPasses(j: Job, rows: seq<nat>, counts: seq<nat>)
    requires FieldsFit(j, rows)
    ensures Chunked(j, Passes(j, rows, counts))
    decreases |counts|
  {
    hide FieldsFit, Body, Repeat, IsPair;
    if counts != [] {
      var front, last := counts[..|counts| - 1], counts[|counts| - 1];
      ChunkedPasses(j, rows, front);
      ChunkedBody(j, rows);
      var loop := Loop(last, 2 * |rows| + Body(j, rows).refreshes);
      ChunkedOne(j, loop);
      ChunkedPlus(j, Body(j, rows).code, [loop]);
      ChunkedRepeat(j, Block(j, rows, last), last + 1);
      ChunkedPlus(j, Passes(j, rows, front), Repeat(Block(j, rows, last), last + 1));
    }
  }

  /** A trace of quiet steps takes a quiet state to a quiet state. */
  lemma {:induction false} QuietRuns(T: Ddr3.Timing, j: Job, tr: seq<Spec>, h: seq<Dram.Cmd>, t: nat)
    requires Chunked(j, tr) && Quiet(T, j, h, t) && Agrees(T, j) && j.Positive()
    ensures Quiet(T, j, h + DramTrace(j.g, j.bank, tr, t), t + Length(tr))
    decreases |tr|
  {
    hide Quiet, Agrees, DfiBank, SpecCmd, IsPair, Still, Spec.Duration;
    if tr == [] {
      assert h + [] == h;
    } else if |tr| >= 2 && IsPair(j, tr[0], tr[1]) && Chunked(j, tr[2..]) {
      var a, p := Dram.Cmd(t, Dram.ACT, 0, j.bank), Dram.Cmd(t + j.t.tRAS, Dram.PRE, 0, j.bank);
      var t' := t + j.t.tRAS + j.t.tRP;
      PairQuiet(T, j, h, t);
      QuietRuns(T, j, tr[2..], h + [a] + [p], t');
      PairTrace(j, tr, t);
      var more := DramTrace(j.g, j.bank, tr[2..], t');
      assert h + [a] + [p] + more == h + ([a] + [p] + more);
    } else {
      StillQuiet(T, j, tr[0], h, t);
      var c := SpecCmd(j.g, j.bank, tr[0], t);
      QuietRuns(T, j, tr[1..], h + c, t + tr[0].Duration());
      Associate(h, c, DramTrace(j.g, j.bank, tr[1..], t + tr[0].Duration()));
    }
  }

  lemma PairTrace(j: Job, tr: seq<Spec>, t: nat)
    requires |tr| >= 2 && IsPair(j, tr[0], tr[1]) && j.Positive()
    ensures var a, p := Dram.Cmd(t, Dram.ACT, 0, j.bank), Dram.Cmd(t + j.t.tRAS, Dram.PRE, 0, j.bank);
            DramTrace(j.g, j.bank, tr, t) == [a] + [p] + DramTrace(j.g, j.bank, tr[2..], t + j.t.tRAS + j.t.tRP)
    ensures Length(tr) == j.t.tRAS + j.t.tRP + Length(tr[2..])
  {
    hide DfiBank;
    assert tr[1..][1..] == tr[2..] && tr[1..][0] == tr[1];
  }

  lemma StillQuiet(T: Ddr3.Timing, j: Job, s: Spec, h: seq<Dram.Cmd>, t: nat)
    requires Still(j, s) && Quiet(T, j, h, t) && Agrees(T, j) && j.Positive()
    ensures Quiet(T, j, h + SpecCmd(j.g, j.bank, s, t), t + s.Duration())
  {
    hide Quiet, Agrees, DfiBank;
    if s.Dfi? {
      RefreshQuiet(T, j, h, t);
    } else {
      LaterSpaced(T, j, h, t, t + s.Duration());
      assert h + [] == h;
    }
  }

  lemma QuietAtStart(T: Ddr3.Timing, j: Job, t: nat)
    ensures Quiet(T, j, [], t)
  {
  }

  lemma {:induction false} DramTracePlus(g: Geometry, bank: nat, a: seq<Spec>, b: seq<Spec>, t: nat)
    ensures DramTrace(g, bank, a + b, t) == DramTrace(g, bank, a, t) + DramTrace(g, bank, b, t + Length(a))
    decreases |a|
  {
    hide SpecCmd;
    if a == [] {
      assert a + b == b;
    } else {
      DramTracePlus(g, bank, a[1..], b, t + a[0].Duration());
      assert (a + b)[1..] == a[1..] + b;
    }
  }

  /** Everything before the last refresh. */
  function Middle(j: Job, rows: seq<nat>, readCount: nat, repetitions: nat): seq<Spec>
    requires repetitions > 0
  {
    [Noop(Max(1, Max(j.t.tRFC - 2, j.t.tREFI - 2)))]
    + Passes(j, Repeat(rows, repetitions), Counts(readCount / repetitions))
    + Passes(j, rows, Counts(readCount % repetitions))
  }

  lemma ChunkedMiddle(j: Job, rows: seq<nat>, readCount: nat, repetitions: nat)
    requires FieldsFit(j, rows) && repetitions > 0
    ensures Chunked(j, Middle(j, rows, readCount, repetitions))
  {
    hide FieldsFit, Chunked, Passes, Counts, Repeat;
    var head := Noop(Max(1, Max(j.t.tRFC - 2, j.t.tREFI - 2)));
    var full := Passes(j, Repeat(rows, repetitions), Counts(readCount / repetitions));
    var one := Passes(j, rows, Counts(readCount % repetitions));
    FieldsFitMany(j, rows, repetitions);
    ChunkedOne(j, head);
    ChunkedPasses(j, Repeat(rows, repetitions), Counts(readCount / repetitions));
    ChunkedPasses(j, rows, Counts(readCount % repetitions));
    ChunkedPlus(j, [head], full);
    ChunkedPlus(j, [head] + full, one);
  }

  /** The executed instructions of every generated payload are legal over the whole history. */
  lemma RunLegal(T: Ddr3.Timing, j: Job, rows: seq<nat>, readCount: nat, repetitions: nat, t: nat)
    requires FieldsFit(j, rows) && repetitions > 0 && Agrees(T, j)
    ensures var h := DramTrace(j.g, j.bank, Run(j, rows, readCount, repetitions), t);
            Dram.Ordered(h) && OneBank(h, j.bank) && Ddr3.Legal(T, h)
  {
    hide Chunked, Middle, DramTrace, Agrees, Length, Passes, Counts, Repeat, Dram.Ordered, OneBank, Ddr3.Legal,
         Dram.Open, Dram.Spaced, Dram.Acts, Gaps;
    Timed(j, rows);
    var middle, last := Middle(j, rows, readCount, repetitions), j.RefreshOp(1);
    SplitRun(j, rows, readCount, repetitions);
    ChunkedMiddle(j, rows, readCount, repetitions);
    QuietAtStart(T, j, t);
    QuietRuns(T, j, middle, [], t);
    var h, t' := DramTrace(j.g, j.bank, middle, t), t + Length(middle);
    assert [] + h == h;
    DramTracePlus(j.g, j.bank, middle, [last], t);
    LastCmd(j, t');
    RefreshLegal(T, j, h, t');
    assert h + [] == h;
  }

  lemma SplitRun(j: Job, rows: seq<nat>, readCount: nat, repetitions: nat)
    requires repetitions > 0
    ensures Run(j, rows, readCount, repetitions) == Middle(j, rows, readCount, repetitions) + [j.RefreshOp(1)]
  {
  }

  lemma LastCmd(j: Job, t: nat)
    ensures DramTrace(j.g, j.bank, [j.RefreshOp(1)], t) == if j.refresh then [Dram.Cmd(t, Dram.REF, 0, 0)] else []
  {
    assert [j.RefreshOp(1)][1..] == [];
  }

  lemma OneBankAddressed(h: seq<Dram.Cmd>, bank: nat)
    requires OneBank(h, bank)
    ensures Ddr3.Addressed(h)
  {
  }

  ghost predicate Accepted(T: Ddr3.Timing, h: seq<Dram.Cmd>) {
    Ddr3.Addressed(h) && Ddr3.Accepts(T, h)
  }

  /** Whatever rows and read count are asked for: the commands that the executor puts on the bus are
      accepted by the DDR3 checker whose tRAS, tRP and tRFC the payload was generated with, provided
      tRRD is at most one row cycle and tFAW at most four. */
  lemma BusPassesChecker(T: Ddr3.Timing, j: Job, rows: seq<nat>, readCount: nat, repetitions: nat, mem: seq<nat>,
                         r: Regs)
    requires FieldsFit(j, rows) && JumpsFit(j, rows, readCount, repetitions) && Agrees(T, j)
    requires InMemory(mem, Program(j, rows, readCount, repetitions) + [Noop(0)])
    requires r.fsm == WAIT_DFI && r.loop == 0 && r.wantsDfi
    ensures WellFormed(Program(j, rows, readCount, repetitions))
    ensures Accepted(T, DramOf(j.g, j.bank, Issued(mem, r, 0, RunLength(Program(j, rows, readCount, repetitions)) + 2)))
  {
    hide Encode, Program, JumpFits, Executed, Cycles, Issued, Length, Repeat, Loaded, FieldsFit, NonNested, Agrees,
         DramOf, Accepted;
    var prog := Program(j, rows, readCount, repetitions);
    Timed(j, rows);
    ProgramWellFormed(j, rows, readCount, repetitions);
    PayloadIsLoaded(j, rows, readCount, repetitions, mem);
    RunsToStop(mem, prog, r);
    TracePasses(T, j, rows, readCount, repetitions, Length(Executed(prog)) + 1);
  }

  lemma TracePasses(T: Ddr3.Timing, j: Job, rows: seq<nat>, readCount: nat, repetitions: nat, stop: nat)
    requires FieldsFit(j, rows) && JumpsFit(j, rows, readCount, repetitions) && Agrees(T, j) && j.Positive()
    requires NonNested(Shapes(Program(j, rows, readCount, repetitions)))
    ensures var tr := Executed(Program(j, rows, readCount, repetitions));
            Accepted(T, DramOf(j.g, j.bank, Executor.Commands(tr, 1) + [Event(stop, Encode(Noop(0)))]))
  {
    hide Encode, Program, JumpFits, Executed, Repeat, FieldsFit, NonNested, Agrees, DramOf, DramTrace, Run,
         Executor.Commands, Ddr3.Accepts, Ddr3.Addressed, Ddr3.Legal, Dram.Ordered, OneBank;
    var tr := Executed(Program(j, rows, readCount, repetitions));
    ProgramRuns(j, rows, readCount, repetitions);
    ExecutedAllFit(j, rows, readCount, repetitions);
    WordsAreSpecs(j.g, j.bank, tr, 1);
    StopFits();
    WordIsSpec(j.g, j.bank, Noop(0), stop);
    DramOfPlus(j.g, j.bank, Executor.Commands(tr, 1), [Event(stop, Encode(Noop(0)))]);
    var h := DramTrace(j.g, j.bank, tr, 1);
    assert h + [] == h;
    RunLegal(T, j, rows, readCount, repetitions, 1);
    OneBankAddressed(h, j.bank);
    Ddr3.AcceptsIffLegal(T, h);
  }
}
