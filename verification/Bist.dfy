/** What the BIST writer and reader share: the configured access pattern and the
    three-register inversion pipeline. */
module Bist {
  import opened Bits

  /** Configuration registers and pattern memories, constant during a run. */
  datatype Cfg = Cfg(count: nat, modulo: bool, memMask: nat, dataMask: nat, dataDiv: nat,
                     addrs: seq<nat>, datas: seq<nat>, addrBits: nat, dataBits: nat,
                     rowShift: nat, rowBits: nat, divisorMask: nat, selectionMask: nat)

  /** A read port of a pattern memory. */
  function Read(mem: seq<nat>, address: nat): nat {
    if address < |mem| then mem[address] else 0
  }

  /** First stage of the inverter: the one-hot decoder input for an address. */
  function RowIndex(c: Cfg, address: nat): nat {
    And(Slice(address, c.rowShift, c.rowBits), c.divisorMask)
  }

  /** Second stage: is the bit of that index set in the selection mask? */
  predicate IsSelected(c: Cfg, index: nat) {
    Slice(c.selectionMask, index, 1) == 1
  }

  /** Third stage: the data word, complemented if selected. */
  function MaybeInvert(c: Cfg, selected: bool, data: nat): int {
    if selected then Pow2(c.dataBits) - 1 - data else data
  }

  /** `RowDataInverter` as a function: what the pipeline settles to. */
  function Inverted(c: Cfg, address: nat, data: nat): int {
    MaybeInvert(c, IsSelected(c, RowIndex(c, address)), data)
  }

  /** Pattern memory index of transfer `k`: wrapped by division or by masking. */
  function Index(c: Cfg, k: nat): nat {
    if c.modulo then k % (c.dataDiv + 1) else And(k, c.dataMask)
  }

  /** Pattern address after a transfer. */
  function NextMemAddr(c: Cfg, memAddr: nat): nat {
    if !c.modulo then memAddr else if memAddr == c.dataDiv then 0 else memAddr + 1
  }

  /** DRAM address of transfer `k`. */
  function Addr(c: Cfg, k: nat): nat {
    (Read(c.addrs, Index(c, k)) + And(k, c.memMask)) % Pow2(c.addrBits)
  }

  /** The word that the writer puts there. */
  function Word(c: Cfg, k: nat): int {
    Inverted(c, Addr(c, k), Read(c.datas, Index(c, k)))
  }

  /** Pattern words as wide as the data port. */
  ghost predicate PatternFits(c: Cfg) {
    forall k :: 0 <= k < |c.datas| ==> c.datas[k] < Pow2(c.dataBits)
  }

  /** What the inverter makes of a pattern word: the bit of the selection mask whose number is the row bits of
      the address under the divisor mask decides between the word itself and its bitwise complement. */
  lemma InvertedMeans(c: Cfg, address: nat, data: nat)
    requires data < Pow2(c.dataBits)
    ensures var bit := And(address / Pow2(c.rowShift) % Pow2(c.rowBits), c.divisorMask);
            Inverted(c, address, data) == if Bit(c.selectionMask, bit) then Xor(data, Pow2(c.dataBits) - 1) else data
  {
    hide Pow2, And, Xor;
    OneBit();
    XorOnes(data, c.dataBits);
  }

  lemma OneBit()
    ensures Pow2(1) == 2
  {
  }

  /** With nothing selected the pattern is left alone. */
  lemma NothingSelected(c: Cfg, address: nat, data: nat)
    requires c.selectionMask == 0
    ensures Inverted(c, address, data) == data
  {
    hide Pow2, And;
    OneBit();
    assert forall n: nat :: 0 / Pow2(n) % 2 == 0;
  }

  /** The pipeline registers of a `RowDataInverter` and the memory port that feeds it. */
  datatype Pipe = Pipe(dat: nat, index: nat, selected: bool, out: int)

  /** One clock of the pipeline, with `address` and pattern address `adr` on its inputs. */
  function PipeNext(c: Cfg, p: Pipe, address: nat, adr: nat): Pipe {
    Pipe(Read(c.datas, adr), RowIndex(c, address), IsSelected(c, p.index), MaybeInvert(c, p.selected, p.dat))
  }

  /** With stable inputs the stages settle one after the other: `n` of them after `n` clocks. */
  ghost predicate Settled(c: Cfg, p: Pipe, address: nat, adr: nat, n: nat) {
    && p.dat == Read(c.datas, adr)
    && (n >= 1 ==> p.index == RowIndex(c, address))
    && (n >= 2 ==> p.selected == IsSelected(c, RowIndex(c, address)))
    && (n >= 3 ==> p.out == Inverted(c, address, Read(c.datas, adr)))
  }

  lemma PipeSettles(c: Cfg, p: Pipe, address: nat, adr: nat, n: nat)
    requires Settled(c, p, address, adr, n)
    ensures Settled(c, PipeNext(c, p, address, adr), address, adr, n + 1)
  {
  }

  lemma ModuloZero(d: nat)
    ensures 0 % (d + 1) == 0
  {
  }
}
