/** The 32-bit payload instruction set: what `Encoder` packs and what the
    `Decoder` of the payload executor unpacks. */
module Isa {
  import opened Bits

  const OP_CODE := 3
  const TIMESLICE := 5
  const ADDRESS := 24
  const TIMESLICE_NOOP := 29
  const LOOP_COUNT := 12
  const LOOP_JUMP := 17

  datatype OpCode = NOOP | LOOP | ACT | PRE | REF | ZQC | READ

  /** The values of the OpCode enumeration, (ras, cas, we) for DRAM commands. */
  function Code(op: OpCode): (c: nat)
    ensures c < 8
  {
    match op
    case NOOP => 0
    case LOOP => 7
    case ACT => 4
    case PRE => 5
    case REF => 6
    case ZQC => 1
    case READ => 2
  }

  /** `Encoder.I`: an instruction before its fields are packed. */
  datatype Spec =
    | Loop(count: nat, jump: nat)
    | Noop(timeslice: nat)
    | Dfi(op: OpCode, slice: nat, address: nat)
  {
    /** What the constructor of `Encoder.I` asserts. */
    predicate Legal() {
      Named() && (Dfi? ==> slice != 0)
    }

    /** A DFI instruction carries the op code of a DRAM command. */
    predicate Named() {
      Dfi? ==> op != NOOP && op != LOOP
    }

    /** Every field is narrower than its slot, so the mask changes nothing. */
    predicate Fits() {
      match this
      case Loop(count, jump) => count < Pow2(LOOP_COUNT) && jump < Pow2(LOOP_JUMP)
      case Noop(timeslice) => timeslice < Pow2(TIMESLICE_NOOP)
      case Dfi(_, slice, address) => slice < Pow2(TIMESLICE) && address < Pow2(ADDRESS)
    }

    /** The same instruction after the masks of `encode_spec`. */
    function Masked(): Spec {
      match this
      case Loop(count, jump) => Loop(count % Pow2(LOOP_COUNT), jump % Pow2(LOOP_JUMP))
      case Noop(timeslice) => Noop(timeslice % Pow2(TIMESLICE_NOOP))
      case Dfi(op, slice, address) => Dfi(op, slice % Pow2(TIMESLICE), address % Pow2(ADDRESS))
    }

    predicate IsStop() {
      this == Noop(0)
    }

    /** Cycles that one visit of the executor to this instruction takes. */
    function Duration(): (n: nat)
      ensures n >= 1
    {
      match this
      case Loop(_, _) => 1
      case Noop(timeslice) => if timeslice <= 1 then 1 else timeslice
      case Dfi(_, slice, _) => if slice <= 1 then 1 else slice
    }

    /** `_parts`: field widths and values, least significant first. */
    function Parts(): seq<Part> {
      match this
      case Loop(count, jump) =>
        [Part(OP_CODE, Code(LOOP)), Part(LOOP_COUNT, count), Part(LOOP_JUMP, jump)]
      case Noop(timeslice) =>
        [Part(OP_CODE, Code(NOOP)), Part(TIMESLICE_NOOP, timeslice)]
      case Dfi(op, slice, address) =>
        [Part(OP_CODE, Code(op)), Part(TIMESLICE, slice), Part(ADDRESS, address)]
    }
  }

  datatype Part = Part(width: nat, value: nat)

  // ---------------------------------------------------------------- packing

  function Width(parts: seq<Part>): nat {
    if parts == [] then 0 else parts[0].width + Width(parts[1..])
  }

  /** Mathematical value of packed fields: a mixed-radix number, low field first. */
  function Pack(parts: seq<Part>): nat {
    if parts == [] then 0
    else parts[0].value % Pow2(parts[0].width) + Pow2(parts[0].width) * Pack(parts[1..])
  }

  lemma Distribute(w: nat, a: nat, v: nat, r: nat)
    ensures w * (a + v * r) == w * a + v * (w * r)
  {
    assert w * (a + v * r) == w * a + w * (v * r);
    assert w * (v * r) == v * (w * r);
  }

  lemma {:induction false} PackSnoc(parts: seq<Part>, p: Part)
    ensures Width(parts + [p]) == Width(parts) + p.width
    ensures Pack(parts + [p]) == Pack(parts) + p.value % Pow2(p.width) * Pow2(Width(parts))
  {
    if parts == [] {
      assert parts + [p] == [p];
      assert Pack([p][1..]) == 0;
    } else {
      assert (parts + [p])[1..] == parts[1..] + [p];
      PackSnoc(parts[1..], p);
      var w, v, rest := Pow2(parts[0].width), p.value % Pow2(p.width), Width(parts[1..]);
      Pow2Add(parts[0].width, rest);
      Distribute(w, Pack(parts[1..]), v, Pow2(rest));
    }
  }

  lemma {:induction false} PackBound(parts: seq<Part>)
    ensures Pack(parts) < Pow2(Width(parts))
  {
    if parts != [] {
      var w, rest := Pow2(parts[0].width), Pow2(Width(parts[1..]));
      PackBound(parts[1..]);
      Pow2Add(parts[0].width, Width(parts[1..]));
      MulMonotone(w, Pack(parts[1..]) + 1, rest);
    }
  }

  lemma MulMonotone(w: nat, a: nat, b: nat)
    requires a <= b
    ensures w * a <= w * b
  {
    assert w * b == w * a + w * (b - a);
  }

  /** Any field can be sliced back out of the packed word, modulo its width. */
  lemma {:induction false} FieldOfPack(parts: seq<Part>, i: nat)
    requires i < |parts|
    ensures Slice(Pack(parts), Width(parts[..i]), parts[i].width) == parts[i].value % Pow2(parts[i].width)
  {
    var p := Pow2(parts[0].width);
    var low, high := parts[0].value % p, Pack(parts[1..]);
    assert high * p + low == Pack(parts);
    MulCancel(high, low, p);
    if i == 0 {
      assert parts[..0] == [];
      assert Pack(parts) / Pow2(0) == Pack(parts);
    } else {
      FieldOfPack(parts[1..], i - 1);
      assert parts[..i][1..] == parts[1..][..i - 1];
      var w := Width(parts[1..][..i - 1]);
      Pow2Add(parts[0].width, w);
      DivDiv(Pack(parts), p, Pow2(w));
    }
  }

  /** One iteration of `encode_spec`: mask, shift and OR append one more field. */
  lemma PackStep(parts: seq<Part>, i: nat)
    requires i < |parts|
    ensures Width(parts[..i + 1]) == Width(parts[..i]) + parts[i].width
    ensures Or(Pack(parts[..i]), And(parts[i].value, Pow2(parts[i].width) - 1) * Pow2(Width(parts[..i])))
         == Pack(parts[..i + 1])
  {
    var done, p := parts[..i], parts[i];
    assert parts[..i + 1] == done + [p];
    PackSnoc(done, p);
    PackBound(done);
    AndMask(p.value, p.width);
    OrIsSum(Pack(done), p.value % Pow2(p.width), Width(done));
  }

  /** `Encoder.encode_spec`: the loop of masks, shifts and ORs computes the packed number. */
  method EncodeParts(parts: seq<Part>) returns (instr: nat)
    ensures instr == Pack(parts)
  {
    instr := 0;
    var n := 0;
    for i := 0 to |parts|
      invariant n == Width(parts[..i])
      invariant instr == Pack(parts[..i])
    {
      PackStep(parts, i);
      var mask := Pow2(parts[i].width) - 1;
      instr := Or(instr, And(parts[i].value, mask) * Pow2(n));
      n := n + parts[i].width;
    }
    assert parts[..|parts|] == parts;
  }

  function Encode(spec: Spec): (w: nat) {
    Pack(spec.Parts())
  }

  /** `Encoder.encode_payload` */
  function EncodeAll(payload: seq<Spec>): (words: seq<nat>)
    ensures |words| == |payload|
    ensures forall i :: 0 <= i < |payload| ==> words[i] == Encode(payload[i])
  {
    seq(|payload|, i requires 0 <= i < |payload| => Encode(payload[i]))
  }

  // ---------------------------------------------------------------- decoding

  /** The words themselves: op code in the low three bits, then timeslice and address, or count and jump.
      The word 0 is STOP. */
  lemma WordValues(s: Spec)
    requires s.Fits()
    ensures match s
            case Noop(timeslice) => Encode(s) == 8 * timeslice
            case Loop(count, jump) => Encode(s) == 7 + 8 * count + 32768 * jump
            case Dfi(op, slice, address) => Encode(s) == Code(op) + 8 * slice + 256 * address
    ensures Encode(Noop(0)) == 0
    ensures Code(NOOP) == 0 && Code(LOOP) == 7
    ensures Code(ACT) == 4 && Code(PRE) == 5 && Code(REF) == 6 && Code(ZQC) == 1 && Code(READ) == 2
  {
    hide Pow2, Pack, Encode;
    NoopValue(0);
    match s {
      case Noop(timeslice) => NoopValue(timeslice);
      case Loop(count, jump) => LoopValue(count, jump);
      case Dfi(op, slice, address) => DfiValue(op, slice, address);
    }
  }

  lemma LoopValue(count: nat, jump: nat)
    requires count < Pow2(LOOP_COUNT) && jump < Pow2(LOOP_JUMP)
    ensures Encode(Loop(count, jump)) == 7 + 8 * count + 32768 * jump
  {
    hide Pow2, Pack;
    PowersOfInterest();
    PackThree(Part(OP_CODE, Code(LOOP)), Part(LOOP_COUNT, count), Part(LOOP_JUMP, jump));
    ModSmall(count, Pow2(LOOP_COUNT));
    ModSmall(jump, Pow2(LOOP_JUMP));
  }

  lemma DfiValue(op: OpCode, slice: nat, address: nat)
    requires slice < Pow2(TIMESLICE) && address < Pow2(ADDRESS)
    ensures Encode(Dfi(op, slice, address)) == Code(op) + 8 * slice + 256 * address
  {
    hide Pow2, Pack;
    PowersOfInterest();
    PackThree(Part(OP_CODE, Code(op)), Part(TIMESLICE, slice), Part(ADDRESS, address));
    ModSmall(slice, Pow2(TIMESLICE));
    ModSmall(address, Pow2(ADDRESS));
    ModSmall(Code(op), 8);
  }

  lemma NoopValue(timeslice: nat)
    requires timeslice < Pow2(TIMESLICE_NOOP)
    ensures Encode(Noop(timeslice)) == 8 * timeslice
  {
    hide Pow2;
    PowersOfInterest();
    var parts := Noop(timeslice).Parts();
    assert parts[1..] == [parts[1]] && [parts[1]][1..] == [];
    assert Pack([parts[1]]) == timeslice;
  }

  /** The combinational outputs of the `Decoder`. */
  datatype Decoded = Decoded(opCode: nat, timeslice: nat, address: nat, loopCount: nat, loopJump: nat, stop: bool,
                             cas: bool, ras: bool, we: bool)

  function Decode(instruction: nat): (d: Decoded)
    ensures d.opCode < 8 && d.timeslice < Pow2(TIMESLICE_NOOP)
    ensures d.loopCount < Pow2(LOOP_COUNT) && d.loopJump < Pow2(LOOP_JUMP)
    ensures d.cas == (d.opCode / 2 % 2 == 1) && d.ras == (d.opCode / 4 % 2 == 1) && d.we == (d.opCode % 2 == 1)
  {
    PowersOfInterest();
    var opCode := Slice(instruction, 0, OP_CODE);
    var timeslice := if opCode == Code(NOOP) then Slice(instruction, OP_CODE, TIMESLICE_NOOP)
                     else Slice(instruction, OP_CODE, TIMESLICE);
    Decoded(opCode, timeslice,
            Slice(instruction, OP_CODE + TIMESLICE, ADDRESS),
            Slice(instruction, OP_CODE, LOOP_COUNT),
            Slice(instruction, OP_CODE + LOOP_COUNT, LOOP_JUMP),
            opCode == Code(NOOP) && timeslice == 0,
            opCode / 2 % 2 == 1, opCode / 4 % 2 == 1, opCode % 2 == 1)
  }

  /** What a decoded word means as an instruction, for any of the seven op codes. */
  ghost predicate Means(d: Decoded, s: Spec) {
    match s
    case Loop(count, jump) => d.opCode == Code(LOOP) && d.loopCount == count && d.loopJump == jump && !d.stop
    case Noop(timeslice) => d.opCode == Code(NOOP) && d.timeslice == timeslice && (d.stop <==> timeslice == 0)
    case Dfi(op, slice, address) =>
      d.opCode == Code(op) && d.timeslice == slice && d.address == address && !d.stop
  }

  /** The fields of an instruction, sliced back out of its word at their offsets. */
  lemma SlicesOfParts(s: Spec)
    ensures var parts, w := s.Parts(), Encode(s);
            && Slice(w, 0, OP_CODE) == parts[0].value % Pow2(OP_CODE)
            && Slice(w, OP_CODE, parts[1].width) == parts[1].value % Pow2(parts[1].width)
            && (|parts| == 3 ==> Slice(w, OP_CODE + parts[1].width, parts[2].width)
                                 == parts[2].value % Pow2(parts[2].width))
  {
    hide Slice, Pow2, Pack;
    var parts := s.Parts();
    FieldOfPack(parts, 0);
    FieldOfPack(parts, 1);
    assert parts[..0] == [] && parts[..1] == [parts[0]];
    assert Width([parts[0]]) == OP_CODE by { assert [parts[0]][1..] == []; }
    if !s.Noop? {
      FieldOfPack(parts, 2);
      assert parts[..2] == [parts[0], parts[1]];
      assert Width(parts[..2]) == parts[0].width + parts[1].width by {
        assert parts[..2][1..] == [parts[1]];
        assert [parts[1]][1..] == [];
      }
    }
  }

  /** Round trip: every field of every instruction comes back modulo its width. */
  lemma DecodeEncode(s: Spec)
    requires s.Named()
    ensures Means(Decode(Encode(s)), s.Masked())
  {
    hide Slice, Encode, Pow2;
    PowersOfInterest();
    SlicesOfParts(s);
  }

  lemma MaskedIffFits(s: Spec)
    ensures s.Masked() == s <==> s.Fits()
  {
    PowersOfInterest();
  }

  /** The decoder recovers the instruction itself exactly when all of its fields fit. */
  lemma DecodeEncodeExact(s: Spec)
    requires s.Named()
    ensures Means(Decode(Encode(s)), s) <==> s.Fits()
  {
    DecodeEncode(s);
    MaskedIffFits(s);
  }

  /** DRAM commands leave the decoder as the (ras, cas, we) pins of their op code. */
  lemma CommandPins(s: Spec)
    requires s.Named() && s.Dfi?
    ensures var d := Decode(Encode(s));
            && (s.op == ACT <==> d.ras && !d.cas && !d.we)
            && (s.op == PRE <==> d.ras && !d.cas && d.we)
            && (s.op == REF <==> d.ras && d.cas && !d.we)
            && (s.op == READ <==> !d.ras && d.cas && !d.we)
            && (s.op == ZQC <==> !d.ras && !d.cas && d.we)
  {
    hide Decode, Encode, Pow2;
    DecodeEncode(s);
  }

  // ---------------------------------------------------------------- addresses

  /** Widths of the rank, bank and row/column parts of ADDRESS; `nranks` is `2**rankbits`. */
  datatype Geometry = Geometry(rankbits: nat, bankbits: nat, rowbits: nat, colbits: nat) {
    function AddressBits(): nat {
      if rowbits > colbits then rowbits else colbits
    }

    /** What the constructor of `Decoder` asserts. */
    predicate Valid() {
      rankbits + bankbits + AddressBits() <= ADDRESS
    }
  }

  /** `Encoder.address`: only the bank is masked; the row or column and the rank are not. */
  function Address(g: Geometry, rank: nat, bank: nat, rowcol: nat): nat {
    var address := Or(And(bank, Pow2(g.bankbits) - 1), rowcol * Pow2(g.bankbits));
    if g.rankbits > 0 then Or(address * Pow2(g.rankbits), rank) else address
  }

  function DfiRank(g: Geometry, address: nat): nat { Slice(address, 0, g.rankbits) }
  function DfiBank(g: Geometry, address: nat): nat { Slice(address, g.rankbits, g.bankbits) }
  function DfiAddress(g: Geometry, address: nat): nat {
    address / Pow2(g.rankbits + g.bankbits) % Pow2(g.AddressBits())
  }

  /** The address is the mixed-radix number rank + bank + row. */
  lemma AddressValue(g: Geometry, rank: nat, bank: nat, rowcol: nat)
    requires rank < Pow2(g.rankbits)
    ensures Address(g, rank, bank, rowcol)
         == rank + Pow2(g.rankbits) * (bank % Pow2(g.bankbits) + Pow2(g.bankbits) * rowcol)
  {
    hide And, Or, Pow2;
    var b, r := Pow2(g.bankbits), Pow2(g.rankbits);
    AndMask(bank, g.bankbits);
    OrIsSum(bank % b, rowcol, g.bankbits);
    var high := Or(And(bank, b - 1), rowcol * b);
    assert high == bank % b + b * rowcol;
    OrCommutes(high * r, rank);
    OrIsSum(rank, high, g.rankbits);
    if g.rankbits == 0 { PowZero(); }
  }

  lemma PowZero()
    ensures Pow2(0) == 1
  {
  }

  /** Slicing three consecutive fields back out of a word. */
  lemma ThreeFields(parts: seq<Part>)
    requires |parts| == 3
    ensures Pack(parts) < Pow2(parts[0].width + parts[1].width + parts[2].width)
    ensures Slice(Pack(parts), 0, parts[0].width) == parts[0].value % Pow2(parts[0].width)
    ensures Slice(Pack(parts), parts[0].width, parts[1].width) == parts[1].value % Pow2(parts[1].width)
    ensures Slice(Pack(parts), parts[0].width + parts[1].width, parts[2].width) == parts[2].value % Pow2(parts[2].width)
  {
    WidthThree(parts);
    FieldOfPack(parts, 0);
    FieldOfPack(parts, 1);
    FieldOfPack(parts, 2);
    PackBound(parts);
  }

  lemma WidthThree(parts: seq<Part>)
    requires |parts| == 3
    ensures Width(parts[..0]) == 0 && Width(parts[..1]) == parts[0].width
    ensures Width(parts[..2]) == parts[0].width + parts[1].width
    ensures Width(parts) == parts[0].width + parts[1].width + parts[2].width
  {
    assert parts[..1] == parts[..0] + [parts[0]];
    assert parts[..2] == parts[..1] + [parts[1]];
    assert parts == parts[..2] + [parts[2]];
    PackSnoc(parts[..0], parts[0]);
    PackSnoc(parts[..1], parts[1]);
    PackSnoc(parts[..2], parts[2]);
  }

  lemma PackThree(p: Part, q: Part, r: Part)
    ensures Pack([p, q, r]) == p.value % Pow2(p.width)
                               + Pow2(p.width) * (q.value % Pow2(q.width)
                                                  + Pow2(q.width) * (r.value % Pow2(r.width)))
  {
    assert [p, q, r][1..] == [q, r] && [q, r][1..] == [r] && [r][1..] == [];
    var x := r.value % Pow2(r.width);
    assert Pack([r]) == x by { assert Pack([]) == 0; assert Pow2(r.width) * 0 == 0; }
    assert Pack([q, r]) == q.value % Pow2(q.width) + Pow2(q.width) * x;
  }

  /** Rank, bank and row or column survive packing, encoding and decoding when they are in range. */
  lemma AddressRoundTrip(g: Geometry, rank: nat, bank: nat, rowcol: nat)
    requires g.Valid()
    requires rank < Pow2(g.rankbits)
    requires rowcol < Pow2(g.AddressBits())
    ensures var a := Address(g, rank, bank, rowcol);
            && a < Pow2(ADDRESS)
            && DfiRank(g, a) == rank
            && DfiBank(g, a) == bank % Pow2(g.bankbits)
            && DfiAddress(g, a) == rowcol
  {
    hide Pow2, Pack, Width, Address, And, Or;
    AddressValue(g, rank, bank, rowcol);
    var b := bank % Pow2(g.bankbits);
    var parts := [Part(g.rankbits, rank), Part(g.bankbits, b), Part(g.AddressBits(), rowcol)];
    PackThree(parts[0], parts[1], parts[2]);
    ThreeFields(parts);
    ModSmall(rank, Pow2(g.rankbits));
    ModSmall(b, Pow2(g.bankbits));
    ModSmall(rowcol, Pow2(g.AddressBits()));
    Pow2Monotone(g.rankbits + g.bankbits + g.AddressBits(), ADDRESS);
  }
}
