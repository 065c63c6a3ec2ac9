/** The BIST reader: three state machines on one clock, joined by an address FIFO, an
    in-order DMA and an error FIFO, that compare DRAM against the configured pattern. */
module BistReader {
  import opened Bits
  import opened Bist

  datatype AddrFsm = A_READY | A_COMPUTE_MEM | A_WAIT | A_COMPUTE_DRAM | A_PUSH_FIFO | A_PUSH_DMA
  datatype PatFsm = P_READY | P_COMPUTE_MEM | P_WAIT | P_INVERT | P_RD_DATA | P_WR_ERR

  /** An entry of the error stream. */
  datatype Err = Err(offset: nat, data: nat, expected: int)

  /** Registers of the address FSM; `adr` is the output of the address memory port. */
  datatype AddrSide = AddrSide(fsm: AddrFsm, counter: nat, memAddr: nat, dramAddr: nat, adr: nat)

  /** Registers of the pattern FSM; `sink` is the registered input of the error FIFO. */
  datatype PatSide = PatSide(fsm: PatFsm, counter: nat, memAddr: nat, wait: nat, pipe: Pipe, errors: nat, sink: Err)

  /** Registers of the error FSM. */
  datatype ErrSide = ErrSide(valid: bool, reg: Err)

  /** `fifo` holds addresses on their way to the pattern FSM, `dma` the reads whose data is outstanding. */
  datatype Queues = Queues(fifo: seq<nat>, dma: seq<nat>, errs: seq<Err>)

  /** History: words consumed since the last start, all mismatches and all errors handed to the user
      since power-on, and the number of mismatches at the last start. */
  datatype Past = Past(started: bool, words: seq<nat>, log: seq<Err>, delivered: seq<Err>, base: nat)

  datatype State = State(a: AddrSide, p: PatSide, e: ErrSide, q: Queues, past: Past)

  /** The environment in one cycle: start strobe, DMA handshakes and data, error FIFO handshakes, the
      user's `error_continue`, and what an empty address FIFO shows. */
  datatype Input = Input(start: bool, dmaReady: bool, dmaValid: bool, data: nat,
                         errReady: bool, errValid: bool, userReady: bool, junk: nat)

  const FIFO_DEPTH: nat := 4

  // ---------------------------------------------------------------- handshakes

  predicate PushFifo(s: State) {
    s.a.fsm == A_PUSH_FIFO && |s.q.fifo| < FIFO_DEPTH
  }

  predicate PushDma(s: State, i: Input) {
    s.a.fsm == A_PUSH_DMA && i.dmaReady
  }

  /** Data arrives only for an outstanding read. */
  predicate Take(s: State, i: Input) {
    s.p.fsm == P_RD_DATA && i.dmaValid && s.q.dma != []
  }

  function Head(s: State, i: Input): nat {
    if s.q.fifo != [] then s.q.fifo[0] else i.junk
  }

  predicate Mismatch(s: State, i: Input) {
    Take(s, i) && i.data != s.p.pipe.out
  }

  predicate PushErr(s: State, i: Input) {
    s.p.fsm == P_WR_ERR && i.errReady
  }

  predicate PopErr(s: State, i: Input) {
    i.errValid && s.q.errs != [] && (s.e.valid ==> i.userReady)
  }

  // ---------------------------------------------------------------- one clock

  function StepAddr(c: Cfg, s: State, i: Input): AddrSide {
    var a := s.a.(adr := Read(c.addrs, s.a.memAddr));
    match s.a.fsm
    case A_READY => if i.start then a.(counter := 0, memAddr := 0, fsm := A_COMPUTE_MEM) else a
    case A_COMPUTE_MEM =>
      a.(memAddr := if c.modulo then s.a.memAddr else And(s.a.counter, c.dataMask),
         fsm := if s.a.counter >= c.count then A_READY else A_WAIT)
    case A_WAIT => a.(fsm := A_COMPUTE_DRAM)
    case A_COMPUTE_DRAM =>
      a.(dramAddr := (s.a.adr + And(s.a.counter, c.memMask)) % Pow2(c.addrBits), fsm := A_PUSH_FIFO)
    case A_PUSH_FIFO => if PushFifo(s) then a.(fsm := A_PUSH_DMA) else a
    case A_PUSH_DMA =>
      if i.dmaReady then a.(counter := s.a.counter + 1, memAddr := NextMemAddr(c, s.a.memAddr), fsm := A_COMPUTE_MEM)
      else a
  }

  /** The pattern FSM does not step its pattern address in modulo mode. */
  function StepPat(c: Cfg, skip: bool, s: State, i: Input): PatSide {
    var p := s.p.(pipe := PipeNext(c, s.p.pipe, Head(s, i), s.p.memAddr));
    match s.p.fsm
    case P_READY => if i.start then p.(counter := 0, memAddr := 0, errors := 0, fsm := P_COMPUTE_MEM) else p
    case P_COMPUTE_MEM =>
      p.(memAddr := if c.modulo then s.p.memAddr else And(s.p.counter, c.dataMask),
         fsm := if s.p.counter >= c.count then P_READY else P_WAIT)
    case P_WAIT => if s.q.fifo != [] then p.(wait := 0, fsm := P_INVERT) else p
    case P_INVERT => p.(wait := s.p.wait + 1, fsm := if s.p.wait == 2 then P_RD_DATA else P_INVERT)
    case P_RD_DATA =>
      if !Take(s, i) then p
      else if Mismatch(s, i) then
        p.(counter := s.p.counter + 1, errors := s.p.errors + 1, sink := Err(Head(s, i), i.data, s.p.pipe.out),
           fsm := if skip then P_COMPUTE_MEM else P_WR_ERR)
      else p.(counter := s.p.counter + 1, fsm := P_COMPUTE_MEM)
    case P_WR_ERR => if i.errReady || skip then p.(fsm := P_COMPUTE_MEM) else p
  }

  function StepErr(skip: bool, s: State, i: Input): ErrSide {
    if PopErr(s, i) then (if skip then s.e.(valid := false) else ErrSide(true, s.q.errs[0]))
    else if s.e.valid && i.userReady then s.e.(valid := false)
    else s.e
  }

  function StepQueues(s: State, i: Input): Queues {
    Queues((if Take(s, i) && s.q.fifo != [] then s.q.fifo[1..] else s.q.fifo)
           + (if PushFifo(s) then [s.a.dramAddr] else []),
           (if Take(s, i) then s.q.dma[1..] else s.q.dma) + (if PushDma(s, i) then [s.a.dramAddr] else []),
           (if PopErr(s, i) then s.q.errs[1..] else s.q.errs) + (if PushErr(s, i) then [s.p.sink] else []))
  }

  function StepPast(s: State, i: Input): Past {
    var past := if s.p.fsm == P_READY && i.start then s.past.(started := true, words := [], base := |s.past.log|)
                else s.past;
    past.(words := past.words + (if Take(s, i) then [i.data] else []),
          log := past.log + (if Mismatch(s, i) then [Err(Head(s, i), i.data, s.p.pipe.out)] else []),
          delivered := past.delivered + (if s.e.valid && i.userReady then [s.e.reg] else []))
  }

  /** All machines and queues on one clock edge, everything computed from the old state. */
  function Step(c: Cfg, skip: bool, s: State, i: Input): State {
    State(StepAddr(c, s, i), StepPat(c, skip, s, i), StepErr(skip, s, i), StepQueues(s, i), StepPast(s, i))
  }

  function PowerOn(): State {
    State(AddrSide(A_READY, 0, 0, 0, 0), PatSide(P_READY, 0, 0, 0, Pipe(0, 0, false, 0), 0, Err(0, 0, 0)),
          ErrSide(false, Err(0, 0, 0)), Queues([], [], []), NoPast())
  }

  /** The reader as clocked registers. */
  class Reader {
    const cfg: Cfg
    const skipFifo: bool
    var addr: AddrSide
    var pat: PatSide
    var err: ErrSide
    var queues: Queues
    ghost var past: Past

    ghost function View(): State
      reads this
    {
      State(addr, pat, err, queues, past)
    }

    constructor (cfg: Cfg, skipFifo: bool)
      ensures this.cfg == cfg && this.skipFifo == skipFifo && View() == PowerOn()
    {
      this.cfg, this.skipFifo := cfg, skipFifo;
      var s := PowerOn();
      addr, pat, err, queues, past := s.a, s.p, s.e, s.q, s.past;
    }

    /** The address FSM. */
    method TickAddr(i: Input) returns (a: AddrSide)
      ensures a == StepAddr(cfg, View(), i)
    {
      hide And, Pow2, Read;
      a := addr.(adr := Read(cfg.addrs, addr.memAddr));
      match addr.fsm {
        case A_READY =>
          if i.start {
            a := a.(counter := 0, memAddr := 0, fsm := A_COMPUTE_MEM);
          }
        case A_COMPUTE_MEM =>
          if !cfg.modulo {
            a := a.(memAddr := And(addr.counter, cfg.dataMask));
          }
          if addr.counter >= cfg.count {
            a := a.(fsm := A_READY);
          } else {
            a := a.(fsm := A_WAIT);
          }
        case A_WAIT => a := a.(fsm := A_COMPUTE_DRAM);
        case A_COMPUTE_DRAM =>
          a := a.(dramAddr := (addr.adr + And(addr.counter, cfg.memMask)) % Pow2(cfg.addrBits));
          a := a.(fsm := A_PUSH_FIFO);
        case A_PUSH_FIFO =>
          if |queues.fifo| < FIFO_DEPTH {
            a := a.(fsm := A_PUSH_DMA);
          }
        case A_PUSH_DMA =>
          if i.dmaReady {
            a := a.(counter := addr.counter + 1);
            if cfg.modulo && addr.memAddr == cfg.dataDiv {
              a := a.(memAddr := 0);
            } else if cfg.modulo {
              a := a.(memAddr := addr.memAddr + 1);
            }
            a := a.(fsm := A_COMPUTE_MEM);
          }
      }
    }

    /** The pattern FSM; `taken` when a word and its address leave their queues. */
    method TickPattern(i: Input) returns (p: PatSide, taken: bool)
      ensures p == StepPat(cfg, skipFifo, View(), i) && taken == Take(View(), i)
    {
      hide And, PipeNext;
      var head := if queues.fifo != [] then queues.fifo[0] else i.junk;
      p, taken := pat.(pipe := PipeNext(cfg, pat.pipe, head, pat.memAddr)), false;
      match pat.fsm {
        case P_READY =>
          if i.start {
            p := p.(counter := 0, memAddr := 0, errors := 0, fsm := P_COMPUTE_MEM);
          }
        case P_COMPUTE_MEM =>
          if !cfg.modulo {
            p := p.(memAddr := And(pat.counter, cfg.dataMask));
          }
          if pat.counter >= cfg.count {
            p := p.(fsm := P_READY);
          } else {
            p := p.(fsm := P_WAIT);
          }
        case P_WAIT =>
          if queues.fifo != [] {
            p := p.(wait := 0, fsm := P_INVERT);
          }
        case P_INVERT =>
          if pat.wait == 2 {
            p := p.(fsm := P_RD_DATA);
          }
          p := p.(wait := pat.wait + 1);
        case P_RD_DATA =>
          if i.dmaValid && queues.dma != [] {
            taken := true;
            p := p.(counter := pat.counter + 1);
            if i.data != pat.pipe.out {
              p := p.(errors := pat.errors + 1, sink := Err(head, i.data, pat.pipe.out));
              p := p.(fsm := if skipFifo then P_COMPUTE_MEM else P_WR_ERR);
            } else {
              p := p.(fsm := P_COMPUTE_MEM);
            }
          }
        case P_WR_ERR =>
          if i.errReady || skipFifo {
            p := p.(fsm := P_COMPUTE_MEM);
          }
      }
    }

    /** The error FSM; `popped` when an entry leaves the error FIFO. */
    method TickError(i: Input) returns (e: ErrSide, popped: bool)
      ensures e == StepErr(skipFifo, View(), i) && popped == PopErr(View(), i)
    {
      e, popped := err, false;
      var sourceValid := i.errValid && queues.errs != [];
      if !err.valid {
        if sourceValid {
          popped := true;
          if !skipFifo {
            e := ErrSide(true, queues.errs[0]);
          }
        }
      } else if i.userReady && sourceValid {
        popped := true;
        if !skipFifo {
          e := ErrSide(true, queues.errs[0]);
        } else {
          e := e.(valid := false);
        }
      } else if i.userReady {
        e := e.(valid := false);
      }
    }

    /** One clock of the whole reader: every machine sees the old registers and queues. */
    method Tick(i: Input) returns (ready: bool)
      modifies this
      ensures View() == Step(cfg, skipFifo, old(View()), i)
      ensures ready == (old(pat).fsm == P_READY)
    {
      hide StepAddr, StepPat, StepErr, StepPast;
      ready := pat.fsm == P_READY;
      var a := TickAddr(i);
      var p, taken := TickPattern(i);
      var e, popped := TickError(i);
      var fifo := if taken && queues.fifo != [] then queues.fifo[1..] else queues.fifo;
      var dma := if taken then queues.dma[1..] else queues.dma;
      var errs := if popped then queues.errs[1..] else queues.errs;
      var q := Queues(fifo + (if addr.fsm == A_PUSH_FIFO && |queues.fifo| < FIFO_DEPTH then [addr.dramAddr] else []),
                      dma + (if addr.fsm == A_PUSH_DMA && i.dmaReady then [addr.dramAddr] else []),
                      errs + (if pat.fsm == P_WR_ERR && i.errReady then [pat.sink] else []));
      past := StepPast(View(), i);
      addr, pat, err, queues := a, p, e, q;
    }
  }

  function NoPast(): Past {
    Past(false, [], [], [], 0)
  }

  // ---------------------------------------------------------------- what is expected

  /** Pattern index the reader compares transfer `k` with. */
  function ReadIndex(c: Cfg, k: nat): nat {
    if c.modulo then 0 else And(k, c.dataMask)
  }

  /** The word the reader expects at transfer `k`. */
  function ReadWord(c: Cfg, k: nat): int {
    Inverted(c, Addr(c, k), Read(c.datas, ReadIndex(c, k)))
  }

  /** Addresses of the transfers lo .. hi - 1. */
  function Addrs(c: Cfg, lo: nat, hi: nat): (r: seq<nat>)
    requires lo <= hi
    ensures |r| == hi - lo && forall k :: 0 <= k < hi - lo ==> r[k] == Addr(c, lo + k)
  {
    seq<nat>(hi - lo, k requires 0 <= k < hi - lo => Addr(c, lo + k))
  }

  /** The errors among the first |words| transfers, if these words were read. */
  function Mismatches(c: Cfg, words: seq<nat>): seq<Err> {
    if words == [] then []
    else
      var k := |words| - 1;
      Mismatches(c, words[..k]) +
      if words[k] != ReadWord(c, k) then [Err(Addr(c, k), words[k], ReadWord(c, k))] else []
  }

  lemma MismatchesSnoc(c: Cfg, words: seq<nat>, w: nat)
    ensures Mismatches(c, words + [w])
         == Mismatches(c, words)
            + if w != ReadWord(c, |words|) then [Err(Addr(c, |words|), w, ReadWord(c, |words|))] else []
  {
    hide ReadWord, Addr;
    assert (words + [w])[..|words|] == words;
  }

  // ---------------------------------------------------------------- invariants

  /** The address FSM works on transfer `counter`. */
  ghost predicate AddrInv(c: Cfg, a: AddrSide) {
    a.fsm != A_READY ==>
      && a.counter <= c.count && (a.fsm != A_COMPUTE_MEM ==> a.counter < c.count)
      && (c.modulo || a.fsm != A_COMPUTE_MEM ==> a.memAddr == Index(c, a.counter))
      && (a.fsm == A_COMPUTE_DRAM ==> a.adr == Read(c.addrs, Index(c, a.counter)))
      && (a.fsm == A_PUSH_FIFO || a.fsm == A_PUSH_DMA ==> a.dramAddr == Addr(c, a.counter))
  }

  /** Transfers asked for so far, counting one that is in the FIFO but not yet at the DMA. */
  ghost function Queued(a: AddrSide): nat {
    a.counter + if a.fsm == A_PUSH_DMA then 1 else 0
  }

  /** The address FIFO stays aligned with the outstanding reads. */
  ghost predicate Aligned(c: Cfg, s: State) {
    && s.p.counter <= s.a.counter
    && s.q.dma == Addrs(c, s.p.counter, s.a.counter)
    && s.q.fifo == Addrs(c, s.p.counter, Queued(s.a))
  }

  /** The pattern FSM works on transfer `counter`; its pipeline settles on the head of the FIFO. */
  ghost predicate PatInv(c: Cfg, s: State) {
    var p := s.p;
    p.fsm != P_READY ==>
      && p.counter <= c.count && (p.fsm == P_COMPUTE_MEM || p.fsm == P_WR_ERR || p.counter < c.count)
      && (p.fsm == P_WR_ERR ==> p.counter > 0)
      && (c.modulo || (p.fsm != P_COMPUTE_MEM && p.fsm != P_WR_ERR) ==> p.memAddr == ReadIndex(c, p.counter))
      && (p.fsm == P_INVERT ==>
            p.wait <= 2 && s.q.fifo != [] && Settled(c, p.pipe, Addr(c, p.counter), p.memAddr, p.wait))
      && (p.fsm == P_RD_DATA ==> s.q.fifo != [] && Settled(c, p.pipe, Addr(c, p.counter), p.memAddr, 3))
  }

  /** The machines stop together: nothing is outstanding when the pattern FSM is ready. */
  ghost predicate Together(c: Cfg, s: State) {
    && (s.p.fsm == P_READY ==> s.a.fsm == A_READY && s.q.dma == [] && s.q.fifo == [])
    && (s.p.fsm != P_READY && s.a.fsm == A_READY ==> s.a.counter == c.count)
    && ((s.p.fsm == P_COMPUTE_MEM || s.p.fsm == P_WR_ERR) && s.p.counter == c.count ==>
          s.a.fsm == A_READY || (c.count == 0 && s.a.fsm == A_COMPUTE_MEM && s.p.fsm == P_COMPUTE_MEM))
  }

  ghost predicate FlowInv(c: Cfg, s: State) {
    AddrInv(c, s.a) && Together(c, s) && PatInv(c, s) && (s.p.fsm != P_READY ==> Aligned(c, s))
  }

  /** A start strobe finds both FSMs ready or both busy. A user who waits for `ready`, as the
      documentation asks, starts only then. */
  predicate StartsInStep(s: State, i: Input) {
    i.start ==> s.p.fsm == P_READY || s.a.fsm != A_READY
  }

  lemma AddrKeeps(c: Cfg, s: State, i: Input)
    requires AddrInv(c, s.a)
    ensures AddrInv(c, StepAddr(c, s, i))
  {
    hide And, Pow2, Read;
    ModuloZero(c.dataDiv);
    ModuloStep(s.a.counter, c.dataDiv);
  }

  /** What a clock does to the counters of a run in progress. */
  lemma CountersStep(c: Cfg, skip: bool, s: State, i: Input)
    requires s.p.fsm != P_READY && StartsInStep(s, i)
    ensures var s' := Step(c, skip, s, i);
            && s'.p.counter == s.p.counter + (if Take(s, i) then 1 else 0)
            && s'.a.counter == s.a.counter + (if PushDma(s, i) then 1 else 0)
            && Queued(s'.a) == Queued(s.a) + (if PushFifo(s) then 1 else 0)
            && (PushDma(s, i) || PushFifo(s) ==> s.a.fsm == A_PUSH_DMA || s.a.fsm == A_PUSH_FIFO)
  {
    hide And, Pow2, Read, PipeNext, StepErr, StepQueues, StepPast;
  }

  lemma AlignedKeeps(c: Cfg, skip: bool, s: State, i: Input)
    requires FlowInv(c, s) && s.p.fsm != P_READY && StartsInStep(s, i)
    ensures var s' := Step(c, skip, s, i);
            s'.p.counter <= s'.a.counter && Aligned(c, s')
  {
    hide Addr, Addrs, StepAddr, StepPat, StepErr, StepPast, Index, Read, Settled, Together, PatInv;
    CountersStep(c, skip, s, i);
    AddrsMove(c, s.p.counter, s.a.counter, Take(s, i), PushDma(s, i));
    AddrsMove(c, s.p.counter, Queued(s.a), Take(s, i), PushFifo(s));
  }

  /** Addresses leave at the front and enter at the back. */
  lemma AddrsMove(c: Cfg, lo: nat, hi: nat, take: bool, push: bool)
    requires lo <= hi && (take ==> lo < hi)
    ensures (if take then Addrs(c, lo, hi)[1..] else Addrs(c, lo, hi)) + (if push then [Addr(c, hi)] else [])
         == Addrs(c, if take then lo + 1 else lo, if push then hi + 1 else hi)
  {
    hide Addr;
  }

  lemma HeadIsAddr(c: Cfg, s: State, i: Input)
    requires Aligned(c, s) && s.q.fifo != []
    ensures Head(s, i) == Addr(c, s.p.counter)
  {
    hide Addr;
  }

  lemma PatKeeps(c: Cfg, skip: bool, s: State, i: Input)
    requires FlowInv(c, s) && StartsInStep(s, i)
    ensures PatInv(c, Step(c, skip, s, i))
  {
    hide And, Pow2, Read, Addr, IsSelected, RowIndex, MaybeInvert, Inverted, Addrs, StepPast, StepErr, AddrInv,
         Together;
    AndZeroLeft(c.dataMask);
    if s.p.fsm != P_READY && s.q.fifo != [] {
      HeadIsAddr(c, s, i);
      if s.p.fsm == P_INVERT { PipeSettles(c, s.p.pipe, Addr(c, s.p.counter), s.p.memAddr, s.p.wait); }
      if s.p.fsm == P_RD_DATA { PipeSettles(c, s.p.pipe, Addr(c, s.p.counter), s.p.memAddr, 3); }
    }
  }

  lemma TogetherKeeps(c: Cfg, skip: bool, s: State, i: Input)
    requires FlowInv(c, s) && StartsInStep(s, i)
    ensures Together(c, Step(c, skip, s, i))
  {
    hide And, Pow2, Read, Addr, PipeNext, Index, ReadIndex, Settled;
    if s.p.fsm != P_READY { AlignedKeeps(c, skip, s, i); }
  }

  /** Every clock keeps the address FIFO aligned and the machines in step, for every behaviour of the
      DMA and of the user. */
  lemma FlowKeeps(c: Cfg, skip: bool, s: State, i: Input)
    requires FlowInv(c, s) && StartsInStep(s, i)
    ensures FlowInv(c, Step(c, skip, s, i))
  {
    hide AddrInv, PatInv, Together, Aligned, StepAddr, StepPat, StepErr, StepQueues, StepPast;
    AddrKeeps(c, s, i);
    PatKeeps(c, skip, s, i);
    TogetherKeeps(c, skip, s, i);
    if s.p.fsm == P_READY {
      StartAligned(c, skip, s, i);
    } else {
      AlignedKeeps(c, skip, s, i);
    }
  }

  lemma StartAligned(c: Cfg, skip: bool, s: State, i: Input)
    requires FlowInv(c, s) && s.p.fsm == P_READY
    ensures Step(c, skip, s, i).p.fsm != P_READY ==> Aligned(c, Step(c, skip, s, i))
  {
    hide And, Pow2, Read, Addr, PipeNext, PatInv;
  }

  // ---------------------------------------------------------------- conservation of errors

  /** The words consumed since the start are as many as the pattern FSM has counted, and the log since
      the start is the list of their mismatches. */
  ghost predicate LogInv(c: Cfg, s: State) {
    && s.past.base <= |s.past.log|
    && (s.past.started ==> s.past.log[s.past.base..] == Mismatches(c, s.past.words)
                           && s.p.errors == |Mismatches(c, s.past.words)| && |s.past.words| == s.p.counter)
    && (s.p.fsm != P_READY ==> s.past.started)
    && (s.p.fsm == P_READY && s.past.started ==> s.p.counter == c.count)
  }

  /** Delivered errors, then the error register, then the FIFO, then the entry waiting to enter it. */
  ghost function InTransit(s: State): seq<Err> {
    Popped(s) + (if s.p.fsm == P_WR_ERR then [s.p.sink] else [])
  }

  lemma LogKeeps(c: Cfg, skip: bool, s: State, i: Input)
    requires FlowInv(c, s) && StartsInStep(s, i) && LogInv(c, s)
    ensures LogInv(c, Step(c, skip, s, i))
  {
    hide And, Pow2, Read, Addr, PipeNext, Addrs, Index, Mismatches, AddrInv, Together, StepAddr, StepErr, StepQueues;
    if Take(s, i) {
      TakeLogs(c, skip, s, i);
    } else if s.p.fsm == P_READY && i.start {
      NoMismatches(c);
      var none: seq<nat> := [];
      assert none + [] == [] && (s.past.log + [])[|s.past.log|..] == [];
    } else {
      assert s.past.log + [] == s.past.log && s.past.words + [] == s.past.words;
    }
  }

  lemma TakeLogs(c: Cfg, skip: bool, s: State, i: Input)
    requires FlowInv(c, s) && LogInv(c, s) && Take(s, i)
    ensures LogInv(c, Step(c, skip, s, i))
  {
    hide And, Pow2, Read, Addr, PipeNext, Addrs, Index, Mismatches, AddrInv, Together, StepAddr, StepErr, StepQueues;
    HeadIsAddr(c, s, i);
    MismatchesSnoc(c, s.past.words, i.data);
    assert s.p.pipe.out == ReadWord(c, s.p.counter);
    var e := Err(Head(s, i), i.data, s.p.pipe.out);
    assert (s.past.log + [e])[s.past.base..] == s.past.log[s.past.base..] + [e];
    assert (s.past.log + [])[s.past.base..] == s.past.log[s.past.base..] + [];
  }

  lemma NoMismatches(c: Cfg)
    ensures Mismatches(c, []) == []
  {
  }

  /** No error is lost, duplicated or reordered on its way to the user. */
  lemma TransitKeeps(c: Cfg, s: State, i: Input)
    requires InTransit(s) == s.past.log
    ensures InTransit(Step(c, false, s, i)) == Step(c, false, s, i).past.log
  {
    hide StepAddr, StepPat, StepErr, StepQueues, Popped;
    PatErr(c, s, i);
    PoppedKeeps(c, s, i);
    assert Popped(s) + [] == Popped(s);
  }

  /** Errors that have left the pattern FSM. */
  ghost function Popped(s: State): seq<Err> {
    s.past.delivered + (if s.e.valid then [s.e.reg] else []) + s.q.errs
  }

  lemma PoppedKeeps(c: Cfg, s: State, i: Input)
    ensures Popped(Step(c, false, s, i)) == Popped(s) + if PushErr(s, i) then [s.p.sink] else []
  {
    hide StepAddr, StepPat, Mismatch, Take;
    var out := if s.e.valid && i.userReady then [s.e.reg] else [];
    var kept := if s.e.valid && !i.userReady then [s.e.reg] else [];
    var more := if PushErr(s, i) then [s.p.sink] else [];
    if PopErr(s, i) {
      assert s.q.errs == [s.q.errs[0]] + s.q.errs[1..];
      Regroup(s.past.delivered, out, [], [s.q.errs[0]], s.q.errs[1..], more);
    } else {
      Regroup(s.past.delivered, out, kept, [], s.q.errs, more);
    }
  }

  lemma Regroup(a: seq<Err>, out: seq<Err>, kept: seq<Err>, head: seq<Err>, rest: seq<Err>, more: seq<Err>)
    requires kept == [] || head == []
    ensures a + out + (kept + head) + (rest + more) == a + (out + kept) + (head + rest) + more
    ensures kept + [] == kept && [] + head == head && [] + rest == rest && out + [] == out && [] + kept == kept
  {
  }

  /** What a clock does to the pending error entry. */
  lemma PatErr(c: Cfg, s: State, i: Input)
    ensures var p := StepPat(c, false, s, i);
            && (p.fsm == P_WR_ERR <==> Mismatch(s, i) || (s.p.fsm == P_WR_ERR && !i.errReady))
            && p.sink == if Mismatch(s, i) then Err(Head(s, i), i.data, s.p.pipe.out) else s.p.sink
  {
    hide And, PipeNext;
  }

  // ---------------------------------------------------------------- runs

  function Run(c: Cfg, skip: bool, inputs: seq<Input>): State {
    if inputs == [] then PowerOn() else Step(c, skip, Run(c, skip, inputs[..|inputs| - 1]), inputs[|inputs| - 1])
  }

  ghost predicate Disciplined(c: Cfg, skip: bool, inputs: seq<Input>) {
    forall n :: 0 <= n < |inputs| ==> StartsInStep(Run(c, skip, inputs[..n]), inputs[n])
  }

  lemma {:induction false} RunInv(c: Cfg, skip: bool, inputs: seq<Input>)
    requires Disciplined(c, skip, inputs)
    ensures FlowInv(c, Run(c, skip, inputs)) && LogInv(c, Run(c, skip, inputs))
    ensures !skip ==> InTransit(Run(c, skip, inputs)) == Run(c, skip, inputs).past.log
    decreases |inputs|
  {
    hide FlowInv, LogInv, InTransit, Step, StartsInStep;
    if inputs == [] {
      PowerOnInv(c);
    } else {
      var front, i := inputs[..|inputs| - 1], inputs[|inputs| - 1];
      DisciplinedPrefix(c, skip, inputs);
      RunInv(c, skip, front);
      var s := Run(c, skip, front);
      FlowKeeps(c, skip, s, i);
      LogKeeps(c, skip, s, i);
      if !skip { TransitKeeps(c, s, i); }
    }
  }

  lemma DisciplinedPrefix(c: Cfg, skip: bool, inputs: seq<Input>)
    requires Disciplined(c, skip, inputs) && inputs != []
    ensures Disciplined(c, skip, inputs[..|inputs| - 1])
    ensures StartsInStep(Run(c, skip, inputs[..|inputs| - 1]), inputs[|inputs| - 1])
  {
    hide StartsInStep, Step;
    var front := inputs[..|inputs| - 1];
    forall n | 0 <= n < |front| ensures StartsInStep(Run(c, skip, front[..n]), front[n]) {
      assert front[..n] == inputs[..n] && front[n] == inputs[n];
    }
  }

  lemma PowerOnInv(c: Cfg)
    ensures FlowInv(c, PowerOn()) && LogInv(c, PowerOn()) && InTransit(PowerOn()) == PowerOn().past.log
  {
  }

  /** Conservation, for every interleaving: with `skip_fifo` 0 the errors delivered, in the register, in
      the FIFO and waiting to enter it are, in this order, all mismatches so far; the mismatches since
      the last start are those of the transfers consumed; and when the reader is ready again nothing is
      outstanding, all `count` transfers were compared and `error_count` is their number of mismatches. */
  lemma ErrorsConserved(c: Cfg, inputs: seq<Input>)
    requires Disciplined(c, false, inputs)
    ensures var s := Run(c, false, inputs);
            && InTransit(s) == s.past.log
            && (s.past.started ==> s.past.base <= |s.past.log|
                                   && s.past.log[s.past.base..] == Mismatches(c, s.past.words)
                                   && s.p.errors == |Mismatches(c, s.past.words)|)
            && (s.p.fsm == P_READY ==> s.q.dma == [] && s.q.fifo == [] && s.a.fsm == A_READY)
            && (s.p.fsm == P_READY && s.past.started ==> |s.past.words| == c.count)
  {
    hide InTransit, Run, Disciplined, AddrInv, PatInv, Aligned, Mismatches;
    RunInv(c, false, inputs);
  }

  /** What the reader expects at transfer `k`, in plain terms; in modulo mode it looks at pattern word 0. */
  lemma ExpectedMeans(c: Cfg, k: nat)
    requires PatternFits(c)
    ensures var index := if c.modulo then k % (c.dataDiv + 1) else And(k, c.dataMask);
            var address := (Read(c.addrs, index) + And(k, c.memMask)) % Pow2(c.addrBits);
            var word := Read(c.datas, if c.modulo then 0 else And(k, c.dataMask));
            var bit := And(address / Pow2(c.rowShift) % Pow2(c.rowBits), c.divisorMask);
            && Addr(c, k) == address
            && ReadWord(c, k) == if Bit(c.selectionMask, bit) then Xor(word, Pow2(c.dataBits) - 1) else word
  {
    hide And, Xor, Pow2, Inverted, Bit;
    var word := Read(c.datas, ReadIndex(c, k));
    assert word < Pow2(c.dataBits);
    InvertedMeans(c, Addr(c, k), word);
  }

  /** The address FSM is held back exactly while four addresses wait for the pattern FSM, or by the DMA. */
  lemma HeldBackIff(c: Cfg, s: State, i: Input)
    requires s.a.fsm == A_PUSH_FIFO || s.a.fsm == A_PUSH_DMA
    ensures StepAddr(c, s, i).fsm == s.a.fsm <==> if s.a.fsm == A_PUSH_FIFO then |s.q.fifo| >= 4 else !i.dmaReady
  {
    hide Read;
  }

  /** At most four reads are ever outstanding. */
  lemma {:induction false} AtMostFourOutstanding(c: Cfg, skip: bool, inputs: seq<Input>)
    requires Disciplined(c, skip, inputs)
    ensures var q := Run(c, skip, inputs).q; |q.dma| <= |q.fifo| <= 4
    decreases |inputs|
  {
    hide Disciplined, AddrInv, PatInv, LogInv, Addr, StepAddr, StepPat, StepErr, StepPast, InTransit;
    RunInv(c, skip, inputs);
    if inputs != [] {
      DisciplinedPrefix(c, skip, inputs);
      AtMostFourOutstanding(c, skip, inputs[..|inputs| - 1]);
    }
  }

  /** With `skip_fifo` 1 errors are counted and nothing else: none ever enters the FIFO or reaches the user. */
  lemma {:induction false} SkippedErrorsOnlyCounted(c: Cfg, inputs: seq<Input>)
    requires Disciplined(c, true, inputs)
    ensures var s := Run(c, true, inputs);
            && s.q.errs == [] && !s.e.valid && s.past.delivered == [] && s.p.fsm != P_WR_ERR
            && (s.past.started ==> s.p.errors == |Mismatches(c, s.past.words)|)
            && (s.p.fsm == P_READY && s.past.started ==> |s.past.words| == c.count)
    decreases |inputs|
  {
    hide Disciplined, AddrInv, PatInv, Aligned, Together, Addr, StepAddr, PipeNext, And, Mismatches, InTransit;
    RunInv(c, true, inputs);
    if inputs != [] {
      DisciplinedPrefix(c, true, inputs);
      SkippedErrorsOnlyCounted(c, inputs[..|inputs| - 1]);
    }
  }

  /** A start strobe while only the pattern FSM is busy restarts the address FSM alone and breaks the
      alignment, although a start is documented to take effect only when the reader is ready. */
  lemma EarlyStartMisaligns(c: Cfg, skip: bool, s: State, i: Input)
    requires FlowInv(c, s) && c.count > 0 && s.p.fsm != P_READY && s.a.fsm == A_READY && i.start
    ensures !Aligned(c, Step(c, skip, s, i)) && Step(c, skip, s, i).a.fsm != A_READY
  {
    hide And, Pow2, Read, Addr, PipeNext;
  }

  /** The exact condition on start strobes: a clock keeps the machines in step if and only if a strobe
      finds both FSMs ready or both busy. */
  lemma InStepIff(c: Cfg, skip: bool, s: State, i: Input)
    requires FlowInv(c, s)
    ensures FlowInv(c, Step(c, skip, s, i)) <==> StartsInStep(s, i)
  {
    hide AddrInv, PatInv, Aligned, Step;
    if StartsInStep(s, i) {
      FlowKeeps(c, skip, s, i);
    } else if c.count > 0 {
      EarlyStartMisaligns(c, skip, s, i);
    } else {
      EmptyRunStart(c, skip, s, i);
    }
  }

  lemma EmptyRunStart(c: Cfg, skip: bool, s: State, i: Input)
    requires FlowInv(c, s) && c.count == 0 && !StartsInStep(s, i)
    ensures !Together(c, Step(c, skip, s, i))
  {
    hide And, Pow2, Read, Addr, PipeNext;
  }
}
