/** The BIST writer: fills DRAM with the configured pattern. */
module BistWriter {
  import opened Bits
  import opened Bist

  datatype Fsm = READY | COMPUTE_MEM_ADDR | WAIT_FOR_DRAM_ADDR | COMPUTE_DRAM_ADDR | INVERT_COMPUTE | SEND

  datatype Write = Write(address: nat, data: int)

  /** Registers. `adr` is the output of the address memory port. `sent` records the writes that the DMA
      has accepted since the last start. */
  datatype State = State(fsm: Fsm, cmd: nat, memAddr: nat, dramAddr: nat, wait: nat, adr: nat, pipe: Pipe,
                         started: bool, sent: seq<Write>)

  /** One clock, for any start strobe and any readiness of the DMA. */
  function Step(c: Cfg, s: State, start: bool, dmaReady: bool): State {
    var s0 := s.(adr := Read(c.addrs, s.memAddr), pipe := PipeNext(c, s.pipe, s.dramAddr, s.memAddr));
    match s.fsm
    case READY =>
      if start then s0.(fsm := COMPUTE_MEM_ADDR, cmd := 0, memAddr := 0, started := true, sent := []) else s0
    case COMPUTE_MEM_ADDR =>
      s0.(memAddr := if c.modulo then s.memAddr else And(s.cmd, c.dataMask),
          fsm := if s.cmd >= c.count then READY else WAIT_FOR_DRAM_ADDR)
    case WAIT_FOR_DRAM_ADDR => s0.(fsm := COMPUTE_DRAM_ADDR)
    case COMPUTE_DRAM_ADDR =>
      s0.(wait := 0, dramAddr := (s.adr + And(s.cmd, c.memMask)) % Pow2(c.addrBits), fsm := INVERT_COMPUTE)
    case INVERT_COMPUTE => s0.(wait := s.wait + 1, fsm := if s.wait == 2 then SEND else INVERT_COMPUTE)
    case SEND =>
      if dmaReady then
        s0.(cmd := s.cmd + 1, memAddr := NextMemAddr(c, s.memAddr), fsm := COMPUTE_MEM_ADDR,
            sent := s.sent + [Write(s.dramAddr, s.pipe.out)])
      else s0
  }

  /** The writer as clocked registers. */
  class Writer {
    const cfg: Cfg
    var state: State

    constructor (cfg: Cfg)
      ensures this.cfg == cfg && state == PowerOn
    {
      this.cfg, state := cfg, PowerOn;
    }

    /** One cycle; the DMA takes the offered write when both are ready. */
    method Tick(start: bool, dmaReady: bool) returns (ready: bool, valid: bool)
      modifies this
      ensures state == Step(cfg, old(state), start, dmaReady)
      ensures ready == (old(state).fsm == READY) && valid == (old(state).fsm == SEND)
    {
      ready, valid := state.fsm == READY, state.fsm == SEND;
      var before := state;
      state := state.(adr := Read(cfg.addrs, before.memAddr),
                      pipe := PipeNext(cfg, before.pipe, before.dramAddr, before.memAddr));
      match before.fsm {
        case READY =>
          if start {
            state := state.(cmd := 0, memAddr := 0, started := true, sent := []);
            state := state.(fsm := COMPUTE_MEM_ADDR);
          }
        case COMPUTE_MEM_ADDR =>
          if !cfg.modulo {
            state := state.(memAddr := And(before.cmd, cfg.dataMask));
          }
          if before.cmd >= cfg.count {
            state := state.(fsm := READY);
          } else {
            state := state.(fsm := WAIT_FOR_DRAM_ADDR);
          }
        case WAIT_FOR_DRAM_ADDR =>
          state := state.(fsm := COMPUTE_DRAM_ADDR);
        case COMPUTE_DRAM_ADDR =>
          state := state.(wait := 0, dramAddr := (before.adr + And(before.cmd, cfg.memMask)) % Pow2(cfg.addrBits));
          state := state.(fsm := INVERT_COMPUTE);
        case INVERT_COMPUTE =>
          if before.wait == 2 {
            state := state.(fsm := SEND);
          }
          state := state.(wait := before.wait + 1);
        case SEND =>
          if dmaReady {
            state := state.(cmd := before.cmd + 1, sent := before.sent + [Write(before.dramAddr, before.pipe.out)]);
            if cfg.modulo && before.memAddr == cfg.dataDiv {
              state := state.(memAddr := 0);
            } else if cfg.modulo {
              state := state.(memAddr := before.memAddr + 1);
            }
            state := state.(fsm := COMPUTE_MEM_ADDR);
          }
      }
    }
  }

  const PowerOn := State(READY, 0, 0, 0, 0, 0, Pipe(0, 0, false, 0), false, [])

  // ---------------------------------------------------------------- what is written

  /** The first `n` writes of the configured pattern. */
  function Writes(c: Cfg, n: nat): (w: seq<Write>)
    ensures |w| == n && forall k :: 0 <= k < n ==> w[k] == Write(Addr(c, k), Word(c, k))
  {
    seq(n, k requires 0 <= k < n => Write(Addr(c, k), Word(c, k)))
  }

  ghost predicate Inv(c: Cfg, s: State) {
    && s.sent == Writes(c, |s.sent|)
    && (s.fsm == READY ==> (s.started ==> |s.sent| == c.count))
    && (s.fsm != READY ==>
          && s.started && s.cmd == |s.sent| <= c.count
          && (c.modulo || s.fsm != COMPUTE_MEM_ADDR ==> s.memAddr == Index(c, s.cmd))
          && (s.fsm != COMPUTE_MEM_ADDR ==> s.cmd < c.count))
    && (s.fsm == COMPUTE_DRAM_ADDR ==>
          s.adr == Read(c.addrs, Index(c, s.cmd)) && Settled(c, s.pipe, s.dramAddr, s.memAddr, 0))
    && (s.fsm == INVERT_COMPUTE ==>
          s.wait <= 2 && s.dramAddr == Addr(c, s.cmd) && Settled(c, s.pipe, s.dramAddr, s.memAddr, s.wait))
    && (s.fsm == SEND ==> s.dramAddr == Addr(c, s.cmd) && Settled(c, s.pipe, s.dramAddr, s.memAddr, 3))
  }

  lemma StepKeeps(c: Cfg, s: State, start: bool, dmaReady: bool)
    requires Inv(c, s)
    ensures Inv(c, Step(c, s, start, dmaReady))
  {
    hide And, Pow2, IsSelected, RowIndex, MaybeInvert, Read;
    match s.fsm {
      case READY => ModuloZero(c.dataDiv); AndZeroLeft(c.dataMask);
      case COMPUTE_MEM_ADDR =>
      case WAIT_FOR_DRAM_ADDR =>
      case COMPUTE_DRAM_ADDR =>
      case INVERT_COMPUTE => PipeSettles(c, s.pipe, s.dramAddr, s.memAddr, s.wait);
      case SEND =>
        PipeSettles(c, s.pipe, s.dramAddr, s.memAddr, 3);
        ModuloStep(s.cmd, c.dataDiv);
        if dmaReady { WritesSnoc(c, s.cmd); }
    }
  }

  lemma WritesSnoc(c: Cfg, n: nat)
    ensures Writes(c, n + 1) == Writes(c, n) + [Write(Addr(c, n), Word(c, n))]
  {
    hide Addr, Word;
  }

  datatype Input = Input(start: bool, dmaReady: bool)

  function Run(c: Cfg, inputs: seq<Input>): State {
    if inputs == [] then PowerOn
    else Step(c, Run(c, inputs[..|inputs| - 1]), inputs[|inputs| - 1].start, inputs[|inputs| - 1].dmaReady)
  }

  /** In every run, whatever the DMA does: the writes accepted since the last start are the first ones of
      the pattern, in order, with settled data; a writer that is ready again has made all `count`. */
  lemma {:induction false} WritesPattern(c: Cfg, inputs: seq<Input>)
    ensures var s := Run(c, inputs);
            && Inv(c, s)
            && s.sent == Writes(c, |s.sent|)
            && (s.started && s.fsm == READY ==> s.sent == Writes(c, c.count))
    decreases |inputs|
  {
    hide Step, Writes;
    if inputs == [] {
      NoWrites(c);
    } else {
      WritesPattern(c, inputs[..|inputs| - 1]);
      StepKeeps(c, Run(c, inputs[..|inputs| - 1]), inputs[|inputs| - 1].start, inputs[|inputs| - 1].dmaReady);
    }
  }

  /** The same in plain terms: where the k-th write goes and what it carries. */
  lemma WritesMean(c: Cfg, inputs: seq<Input>, k: nat)
    requires PatternFits(c) && k < |Run(c, inputs).sent|
    ensures var index := if c.modulo then k % (c.dataDiv + 1) else And(k, c.dataMask);
            var address := (Read(c.addrs, index) + And(k, c.memMask)) % Pow2(c.addrBits);
            var word := Read(c.datas, index);
            var bit := And(address / Pow2(c.rowShift) % Pow2(c.rowBits), c.divisorMask);
            var write := Run(c, inputs).sent[k];
            && write.address == address
            && write.data == (if Bit(c.selectionMask, bit) then Xor(word, Pow2(c.dataBits) - 1) else word)
            && (c.selectionMask == 0 ==> write.data == word)
  {
    hide And, Xor, Pow2, Run, Inv, Inverted, Bit;
    WritesPattern(c, inputs);
    var word := Read(c.datas, Index(c, k));
    assert word < Pow2(c.dataBits);
    InvertedMeans(c, Addr(c, k), word);
    if c.selectionMask == 0 { NothingSelected(c, Addr(c, k), word); }
  }

  lemma NoWrites(c: Cfg)
    ensures Inv(c, PowerOn)
  {
  }
}
