/** The instructions of the payload verifier and which of them are legal. */
module PayloadInstr {
  import opened Bits
  import opened Dram
  import Isa

  /** The op codes of the protocol buffer; NOP is 0, JMP 7 and MAX 8. */
  datatype Opcode = NOP | MEM(op: Op) | JMP

  function Value(o: Opcode): (v: nat)
    ensures v < 8
  {
    match o
    case NOP => 0
    case MEM(RD) => 2
    case MEM(ACT) => 4
    case MEM(PRE) => 5
    case MEM(REF) => 6
    case JMP => 7
  }

  /** The oneof of the message `Instr`; `Unset` has no field. */
  datatype Instr =
    | Mem(memOp: Opcode, memSlice: nat, rank: nat, bank: nat, addr: nat)
    | Nop(nopOp: Opcode, nopSlice: nat)
    | Jmp(jmpOp: Opcode, offset: nat, count: nat)
    | Unset

  /** `VerifyInstr` with the field widths of the DDR3 message. */
  predicate VerifyInstr(ip: nat, i: Instr) {
    match i
    case Mem(op, slice, rank, bank, addr) =>
      op.MEM? && 0 < slice < 256 && rank == 0 && bank < 8 && addr < 65536 && (op.op == RD ==> addr % 8 == 0)
    case Nop(op, slice) => op == NOP && 0 < slice < 0x20000000
    case Jmp(op, offset, count) => op == JMP && 0 < offset < 512 && offset <= ip && 0 < count < 0x100000
    case Unset => false
  }

  /** The fields of an instruction word with the widths of the message definition. */
  function Fields(i: Instr): seq<Isa.Part> {
    match i
    case Mem(op, slice, rank, bank, addr) =>
      [Isa.Part(3, Value(op)), Isa.Part(8, slice), Isa.Part(2, rank), Isa.Part(3, bank), Isa.Part(16, addr)]
    case Nop(op, slice) => [Isa.Part(3, Value(op)), Isa.Part(29, slice)]
    case Jmp(op, offset, count) => [Isa.Part(3, Value(op)), Isa.Part(9, offset), Isa.Part(20, count)]
    case Unset => []
  }

  /** Every field can be read back from the packed word. */
  ghost predicate Lossless(parts: seq<Isa.Part>) {
    forall k :: 0 <= k < |parts| ==>
      Slice(Isa.Pack(parts), Isa.Width(parts[..k]), parts[k].width) == parts[k].value
  }

  /** What legality amounts to: the instruction fits its 32-bit word without loss, takes time, addresses
      rank 0 in whole bursts, and jumps backwards inside the payload at least once. */
  lemma LegalIff(ip: nat, i: Instr)
    ensures !i.Unset? ==> Isa.Width(Fields(i)) == 32
    ensures VerifyInstr(ip, i)
       <==> && !i.Unset? && Lossless(Fields(i))
            && (i.Mem? ==> i.memOp.MEM? && i.memSlice > 0 && i.rank == 0 && (i.memOp.op == RD ==> i.addr % 8 == 0))
            && (i.Nop? ==> i.nopOp == NOP && i.nopSlice > 0)
            && (i.Jmp? ==> i.jmpOp == JMP && i.count > 0 && 0 < i.offset <= ip)
  {
    hide Pow2, Isa.Pack, Isa.Width;
    FieldWidths(i);
    LosslessIff(Fields(i));
    FieldsFitIff(i);
  }

  lemma WidthFirst(p: Isa.Part, rest: seq<Isa.Part>)
    ensures Isa.Width([p] + rest) == p.width + Isa.Width(rest) && Isa.Width([]) == 0
  {
    assert ([p] + rest)[1..] == rest;
  }

  lemma FieldWidths(i: Instr)
    ensures !i.Unset? ==> Isa.Width(Fields(i)) == 32
  {
    hide Isa.Width;
    var parts := Fields(i);
    if !i.Unset? {
      assert parts == [parts[0]] + parts[1..] && parts[1..] == [parts[1]] + parts[2..];
      WidthFirst(parts[0], parts[1..]);
      WidthFirst(parts[1], parts[2..]);
      if !i.Nop? {
        assert parts[2..] == [parts[2]] + parts[3..];
        WidthFirst(parts[2], parts[3..]);
      }
      if i.Mem? {
        assert parts[3..] == [parts[3]] + parts[4..] && parts[4..] == [parts[4]] + [];
        WidthFirst(parts[3], parts[4..]);
        WidthFirst(parts[4], []);
      }
    }
  }

  lemma LosslessIff(parts: seq<Isa.Part>)
    ensures Lossless(parts) <==> Small(parts)
  {
    hide Pow2, Isa.Pack, Isa.Width;
    forall k | 0 <= k < |parts|
      ensures Slice(Isa.Pack(parts), Isa.Width(parts[..k]), parts[k].width) == parts[k].value
         <==> parts[k].value < Pow2(parts[k].width)
    {
      Isa.FieldOfPack(parts, k);
      var p := Pow2(parts[k].width);
      if parts[k].value < p { ModSmall(parts[k].value, p); }
    }
  }

  ghost predicate Small(parts: seq<Isa.Part>) {
    forall k :: 0 <= k < |parts| ==> parts[k].value < Pow2(parts[k].width)
  }

  lemma SmallFirst(p: Isa.Part, rest: seq<Isa.Part>)
    ensures Small([p] + rest) <==> p.value < Pow2(p.width) && Small(rest)
    ensures Small([])
  {
    hide Pow2;
    var all := [p] + rest;
    assert all[0] == p;
    if Small(all) {
      forall k | 0 <= k < |rest| ensures rest[k].value < Pow2(rest[k].width) { assert all[k + 1] == rest[k]; }
    }
  }

  lemma FieldsFitIff(i: Instr)
    ensures Small(Fields(i))
       <==> match i
            case Mem(_, slice, rank, bank, addr) => slice < 256 && rank < 4 && bank < 8 && addr < 65536
            case Nop(_, slice) => slice < 0x20000000
            case Jmp(_, offset, count) => offset < 512 && count < 0x100000
            case Unset => true
  {
    hide Pow2, Small;
    FieldBounds();
    var parts := Fields(i);
    if i.Unset? {
      SmallFirst(Isa.Part(0, 0), []);
    } else {
      assert parts == [parts[0]] + parts[1..] && parts[1..] == [parts[1]] + parts[2..];
      SmallFirst(parts[0], parts[1..]);
      SmallFirst(parts[1], parts[2..]);
      if !i.Nop? {
        assert parts[2..] == [parts[2]] + parts[3..];
        SmallFirst(parts[2], parts[3..]);
      }
      if i.Mem? {
        assert parts[3..] == [parts[3]] + parts[4..] && parts[4..] == [parts[4]] + [];
        SmallFirst(parts[3], parts[4..]);
        SmallFirst(parts[4], []);
      }
    }
  }

  lemma FieldBounds()
    ensures Pow2(2) == 4 && Pow2(3) == 8 && Pow2(8) == 256 && Pow2(9) == 512
    ensures Pow2(16) == 65536 && Pow2(20) == 0x100000 && Pow2(29) == 0x20000000
  {
    hide Pow2;
    PowersOfInterest();
    SmallPowers();
    Pow2Add(3, 5);
    Pow2Add(8, 1);
    Pow2Add(8, 8);
    Pow2Add(17, 3);
  }

  lemma SmallPowers()
    ensures Pow2(2) == 4
  {
  }
}
