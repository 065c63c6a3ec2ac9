/** The DRAM address converter: row, bank and column against bus and DMA addresses. */
module AddressMap {
  import opened Bits
  import opened Isa

  /** Widths of the ROW_BANK_COL mapping; `portBits` and `busBits` are the logarithms of the DRAM port
      width and the bus width in bits, both powers of two. */
  datatype Converter = Converter(colbits: nat, rowbits: nat, bankbits: nat, align: nat, portBits: nat, busBits: nat) {
    predicate Valid() {
      3 <= busBits <= portBits
    }

    /** `_get_bus_shift` */
    function BusShift(): int {
      (portBits - busBits) + (busBits - 3) - align
    }
  }

  datatype Location = Location(bank: nat, row: nat, col: nat)

  /** The assertions of `_encode`. */
  predicate InRange(v: Converter, l: Location) {
    l.bank < Pow2(v.bankbits) && l.row < Pow2(v.rowbits) && l.col < Pow2(v.colbits)
  }

  /** `_encode`: masked fields, shifted and ORed. */
  function Encode(v: Converter, l: Location): nat
    requires InRange(v, l)
  {
    Or(Or(And(l.row, Pow2(v.rowbits) - 1) * Pow2(v.bankbits + v.colbits),
          And(l.bank, Pow2(v.bankbits) - 1) * Pow2(v.colbits)),
       And(l.col, Pow2(v.colbits) - 1))
  }

  /** `extract` inside `_decode` */
  function Extract(value: nat, width: nat, offset: nat): nat {
    Quotient(And(value, Times(Pow2(width) - 1, Pow2(offset))), Pow2(offset))
  }

  /** `_decode` */
  function Decode(v: Converter, address: nat): Location {
    Location(Extract(address, v.bankbits, v.colbits), Extract(address, v.rowbits, v.bankbits + v.colbits),
             Extract(address, v.colbits, 0))
  }

  /** Shift left by a positive amount, right by a negative one. */
  function Shift(a: nat, s: int): nat {
    if s > 0 then Times(a, Pow2(s)) else Quotient(a, Pow2(-s))
  }

  const BASE: nat := 0x40000000

  function EncodeBus(v: Converter, l: Location): nat
    requires InRange(v, l)
  {
    BASE + Shift(Encode(v, l), v.BusShift())
  }

  function DecodeBus(v: Converter, address: nat): Location
    requires address >= BASE
  {
    Decode(v, Shift(address - BASE, -v.BusShift()))
  }

  /** `encode_dma` */
  function EncodeDma(v: Converter, l: Location): nat
    requires InRange(v, l)
  {
    Quotient(Encode(v, l), Pow2(v.align))
  }

  /** `decode_dma` */
  function DecodeDma(v: Converter, address: nat): Location {
    Decode(v, address * Pow2(v.align))
  }

  // ---------------------------------------------------------------- fields

  lemma {:induction false} AndShifted(value: nat, mask: nat, n: nat)
    ensures And(value, Times(mask, Pow2(n))) == Times(And(Quotient(value, Pow2(n)), mask), Pow2(n))
    decreases n
  {
    hide And, Pow2, Times, Quotient;
    if n == 0 {
      PowZero();
      TimesOne(mask);
      TimesOne(And(value, mask));
      TimesOne(value);
    } else {
      AndShifted(value / 2, mask, n - 1);
      HalfQuotient(value, n);
      AndEven(value, Times(mask, Pow2(n - 1)));
      TimesDouble(mask, n);
      TimesDouble(And(Quotient(value, Pow2(n)), mask), n);
    }
  }

  lemma TimesOne(a: nat)
    ensures Times(a, 1) == a && Quotient(a, 1) == a
  {
  }

  lemma TimesDouble(a: nat, n: nat)
    requires n > 0
    ensures Times(a, Pow2(n)) == 2 * Times(a, Pow2(n - 1))
  {
    var p := Pow2(n - 1);
    assert a * (2 * p) == 2 * (a * p);
  }

  lemma HalfQuotient(value: nat, n: nat)
    requires n > 0
    ensures Quotient(value, Pow2(n)) == Quotient(value / 2, Pow2(n - 1))
  {
    DivDiv(value, 2, Pow2(n - 1));
  }

  lemma AndEven(a: nat, b: nat)
    ensures And(a, 2 * b) == 2 * And(a / 2, b)
  {
  }

  /** Extraction is slicing. */
  lemma ExtractIsSlice(value: nat, width: nat, offset: nat)
    ensures Extract(value, width, offset) == Slice(value, offset, width)
  {
    hide And, Pow2;
    AndShifted(value, Pow2(width) - 1, offset);
    AndMask(value / Pow2(offset), width);
    MulCancel(value / Pow2(offset) % Pow2(width), 0, Pow2(offset));
  }

  function Parts(v: Converter, l: Location): seq<Part> {
    [Part(v.colbits, l.col), Part(v.bankbits, l.bank), Part(v.rowbits, l.row)]
  }

  lemma EncodeIsPack(v: Converter, l: Location)
    requires InRange(v, l)
    ensures Encode(v, l) == l.col + Pow2(v.colbits) * (l.bank + Pow2(v.bankbits) * l.row)
  {
    hide And, Or, Pow2;
    AndMask(l.row, v.rowbits);
    AndMask(l.bank, v.bankbits);
    AndMask(l.col, v.colbits);
    ModSmall(l.row, Pow2(v.rowbits));
    ModSmall(l.bank, Pow2(v.bankbits));
    ModSmall(l.col, Pow2(v.colbits));
    OrFields(v.colbits, v.bankbits, l.col, l.bank, l.row);
  }

  lemma OrFields(colbits: nat, bankbits: nat, col: nat, bank: nat, row: nat)
    requires col < Pow2(colbits) && bank < Pow2(bankbits)
    ensures Or(Or(row * Pow2(bankbits + colbits), bank * Pow2(colbits)), col)
         == col + Pow2(colbits) * (bank + Pow2(bankbits) * row)
  {
    hide Or, Pow2;
    var c, b := Pow2(colbits), Pow2(bankbits);
    Pow2Add(bankbits, colbits);
    MidBound(bank, b, c);
    OrCommutes(row * Pow2(bankbits + colbits), bank * c);
    OrIsSum(bank * c, row, bankbits + colbits);
    Regroup(bank, row, b, c);
    OrCommutes((bank + b * row) * c, col);
    OrIsSum(col, bank + b * row, colbits);
  }

  lemma MidBound(bank: nat, b: nat, c: nat)
    requires bank < b && c > 0
    ensures bank * c < b * c
  {
    MulAtLeast(b - bank, c);
    assert (b - bank) * c == b * c - bank * c;
  }

  lemma Regroup(bank: nat, row: nat, b: nat, c: nat)
    ensures bank * c + row * (b * c) == (bank + b * row) * c
    ensures (bank + b * row) * c == c * (bank + b * row)
  {
    assert (bank + b * row) * c == bank * c + (b * row) * c;
    assert (b * row) * c == row * (b * c);
  }

  /** `_decode` undoes `_encode`. */
  lemma DecodeEncode(v: Converter, l: Location)
    requires InRange(v, l)
    ensures Decode(v, Encode(v, l)) == l
  {
    hide Pow2, Encode, Pack, Extract;
    EncodeIsPack(v, l);
    var parts := Parts(v, l);
    PackThree(parts[0], parts[1], parts[2]);
    ThreeFields(parts);
    ModSmall(l.col, Pow2(v.colbits));
    ModSmall(l.bank, Pow2(v.bankbits));
    ModSmall(l.row, Pow2(v.rowbits));
    ExtractIsSlice(Encode(v, l), v.bankbits, v.colbits);
    ExtractIsSlice(Encode(v, l), v.rowbits, v.bankbits + v.colbits);
    ExtractIsSlice(Encode(v, l), v.colbits, 0);
  }

  // ---------------------------------------------------------------- the bus

  /** A negative shift drops low column bits. */
  function Aligned(v: Converter, l: Location): Location {
    if v.BusShift() >= 0 then l else Cleared(l, -v.BusShift())
  }

  lemma ShiftBack(a: nat, s: int)
    ensures Shift(Shift(a, s), -s) == if s >= 0 then a else a / Pow2(-s) * Pow2(-s)
  {
    hide Pow2;
    PowZero();
    if s > 0 { MulCancel(a, 0, Pow2(s)); }
  }

  lemma LowBits(col: nat, c: nat, high: nat, p: nat, q: nat)
    requires p > 0 && c == p * q
    ensures (col + c * high) / p * p == col / p * p + c * high
  {
    assert c * high == (q * high) * p by { assert (p * q) * high == (q * high) * p; }
    var x, r := col / p, col % p;
    assert col == x * p + r;
    assert col + c * high == (x + q * high) * p + r by { assert (x + q * high) * p == x * p + (q * high) * p; }
    MulCancel(x + q * high, r, p);
    assert (x + q * high) * p == x * p + (q * high) * p;
  }

  /** The column with its low `n` bits cleared. */
  function Cleared(l: Location, n: nat): Location {
    l.(col := Times(Quotient(l.col, Pow2(n)), Pow2(n)))
  }

  lemma ClearInRange(v: Converter, l: Location, n: nat)
    requires InRange(v, l)
    ensures InRange(v, Cleared(l, n))
  {
    hide Pow2;
    assert l.col == Pow2(n) * (l.col / Pow2(n)) + l.col % Pow2(n);
  }

  /** What an address holds above the column. */
  function High(v: Converter, l: Location): nat {
    l.bank + Times(Pow2(v.bankbits), l.row)
  }

  lemma EncodeIsColumn(v: Converter, l: Location)
    requires InRange(v, l)
    ensures Encode(v, l) == l.col + Times(Pow2(v.colbits), High(v, l))
  {
    hide Pow2, Encode;
    EncodeIsPack(v, l);
  }

  lemma LowColumn(col: nat, c: nat, high: nat, p: nat, q: nat)
    requires p > 0 && c == Times(p, q)
    ensures Times(Quotient(col + Times(c, high), p), p) == Times(Quotient(col, p), p) + Times(c, high)
  {
    LowBits(col, c, high, p, q);
  }

  /** Clearing low bits of the address clears those of the column. */
  lemma ClearAddress(v: Converter, l: Location, n: nat)
    requires InRange(v, l) && n <= v.colbits
    ensures InRange(v, Cleared(l, n))
    ensures Encode(v, Cleared(l, n)) == Times(Quotient(Encode(v, l), Pow2(n)), Pow2(n))
  {
    hide Pow2, Encode, Times, Quotient;
    ClearInRange(v, l, n);
    EncodeIsColumn(v, l);
    EncodeIsColumn(v, Cleared(l, n));
    PowProduct(n, v.colbits - n);
    LowColumn(l.col, Pow2(v.colbits), High(v, l), Pow2(n), Pow2(v.colbits - n));
  }

  lemma PowProduct(a: nat, b: nat)
    ensures Pow2(a + b) == Times(Pow2(a), Pow2(b))
  {
    hide Pow2;
    Pow2Add(a, b);
  }

  /** `decode_bus` undoes `encode_bus`, up to the column bits that a negative shift drops. */
  lemma BusRoundTrip(v: Converter, l: Location)
    requires InRange(v, l) && -v.BusShift() <= v.colbits
    ensures DecodeBus(v, EncodeBus(v, l)) == Aligned(v, l)
  {
    hide Pow2, Encode, Decode, Shift;
    var s := v.BusShift();
    ShiftBack(Encode(v, l), s);
    if s < 0 { ClearAddress(v, l, -s); }
    DecodeEncode(v, Aligned(v, l));
  }

  /** `decode_dma` undoes `encode_dma`, up to the column bits below a burst. */
  lemma DmaRoundTrip(v: Converter, l: Location)
    requires InRange(v, l) && v.align <= v.colbits
    ensures DecodeDma(v, EncodeDma(v, l)) == Cleared(l, v.align)
  {
    hide Pow2, Encode, Decode;
    ClearAddress(v, l, v.align);
    DecodeEncode(v, Cleared(l, v.align));
  }

  /** A DMA offset addresses the same location as the bus address that many port words above the base. */
  lemma DmaIsBus(v: Converter, offset: nat)
    requires v.Valid()
    ensures DecodeBus(v, BASE + offset * Pow2(v.portBits - 3)) == DecodeDma(v, offset)
  {
    hide Pow2, Decode;
    var n, s := v.portBits - 3, v.BusShift();
    PowZero();
    if s >= 0 {
      Pow2Add(v.align, s);
      var x := offset * Pow2(v.align);
      assert offset * Pow2(n) == x * Pow2(s) by { MulAssoc(offset, Pow2(v.align), Pow2(s)); }
      MulCancel(x, 0, Pow2(s));
    } else {
      Pow2Add(n, -s);
      MulAssoc(offset, Pow2(n), Pow2(-s));
    }
  }

  lemma MulAssoc(a: nat, b: nat, c: nat)
    ensures a * (b * c) == (a * b) * c
  {
  }

  // ---------------------------------------------------------------- rows

  /** Bytes of one row across all banks. */
  function RowBytes(v: Converter): nat
    requires v.bankbits + v.colbits + v.BusShift() >= 0
  {
    Pow2(v.bankbits + v.colbits + v.BusShift())
  }

  lemma RowStart(v: Converter, row: nat)
    requires v.bankbits + v.colbits + v.BusShift() >= 0 && row < Pow2(v.rowbits)
    ensures EncodeBus(v, Location(0, row, 0)) == 0x40000000 + row * RowBytes(v)
  {
    hide Pow2, Encode;
    var s, w := v.BusShift(), v.bankbits + v.colbits;
    PowZero();
    EncodeIsPack(v, Location(0, row, 0));
    Pow2Add(v.bankbits, v.colbits);
    Pow2Add(v.colbits, v.bankbits);
    var a := Pow2(v.colbits) * (Pow2(v.bankbits) * row);
    assert a == row * Pow2(w) by { MulAssoc(Pow2(v.colbits), Pow2(v.bankbits), row); }
    if s > 0 {
      Pow2Add(w, s);
      MulAssoc(row, Pow2(w), Pow2(s));
    } else {
      Pow2Add(w + s, -s);
      MulAssoc(row, Pow2(w + s), Pow2(-s));
      MulCancel(row * Pow2(w + s), 0, Pow2(-s));
    }
  }

  lemma RowOfByte(v: Converter, o: nat)
    requires v.bankbits + v.colbits + v.BusShift() >= 0
    ensures DecodeBus(v, BASE + o).row == o / RowBytes(v) % Pow2(v.rowbits)
  {
    hide Pow2, Extract;
    var s, w := v.BusShift(), v.bankbits + v.colbits;
    PowZero();
    var a := Shift(o, -s);
    ExtractIsSlice(a, v.rowbits, w);
    if s >= 0 {
      Pow2Add(s, w);
      DivDiv(o, Pow2(s), Pow2(w));
    } else {
      Pow2Add(-s, w + s);
      DivDiv(o * Pow2(-s), Pow2(-s), Pow2(w + s));
      MulCancel(o, 0, Pow2(-s));
    }
  }

  function MinOf(rows: seq<nat>): (m: nat)
    requires rows != []
    ensures m in rows && forall r :: r in rows ==> m <= r
  {
    if |rows| == 1 then rows[0]
    else
      var m := MinOf(rows[1..]);
      assert rows == [rows[0]] + rows[1..];
      if rows[0] < m then rows[0] else m
  }

  function MaxOf(rows: seq<nat>): (m: nat)
    requires rows != []
    ensures m in rows && forall r :: r in rows ==> r <= m
  {
    if |rows| == 1 then rows[0]
    else
      var m := MaxOf(rows[1..]);
      assert rows == [rows[0]] + rows[1..];
      if rows[0] > m then rows[0] else m
  }

  /** `get_range_from_rows`: offset into main RAM and size. */
  function RangeFromRows(v: Converter, rows: seq<nat>, ramBase: nat, ramSize: nat): (int, int)
    requires rows != [] && forall r :: r in rows ==> r < Pow2(v.rowbits)
  {
    PowPositive(v);
    var start := EncodeBus(v, Location(0, MinOf(rows), 0));
    var end := if MaxOf(rows) + 1 < Pow2(v.rowbits) then EncodeBus(v, Location(0, MaxOf(rows) + 1, 0))
               else ramBase + ramSize;
    (start - ramBase, end - start)
  }

  lemma PowPositive(v: Converter)
    ensures Pow2(v.bankbits) > 0 && Pow2(v.colbits) > 0
  {
  }

  lemma DivBounds(o: nat, b: nat, lo: nat, hi: nat)
    requires b > 0
    ensures lo * b <= o < (hi + 1) * b <==> lo <= o / b <= hi
  {
    var q, r := o / b, o % b;
    assert o == q * b + r;
    DivLow(q, lo, b, r);
    DivLow(q, hi + 1, b, r);
  }

  lemma DivLow(q: nat, lo: nat, b: nat, r: nat)
    requires r < b
    ensures lo * b <= q * b + r <==> lo <= q
  {
    if lo <= q {
      assert (q - lo) * b == q * b - lo * b;
      assert (q - lo) * b >= 0;
    } else {
      MulAtLeast(lo - q, b);
      assert (lo - q) * b == lo * b - q * b;
    }
  }

  /** When main RAM spans the geometry, the range holds exactly the bytes whose decoded row lies between
      the smallest and the largest row asked for. */
  lemma RangeIsRows(v: Converter, rows: seq<nat>, ramSize: nat, o: nat)
    requires rows != [] && forall r :: r in rows ==> r < Pow2(v.rowbits)
    requires v.bankbits + v.colbits + v.BusShift() >= 0 && ramSize == Pow2(v.rowbits) * RowBytes(v) && o < ramSize
    ensures var (start, size) := RangeFromRows(v, rows, BASE, ramSize);
            start <= o < start + size <==> MinOf(rows) <= DecodeBus(v, BASE + o).row <= MaxOf(rows)
  {
    hide Pow2, EncodeBus, DecodeBus;
    PowPositive(v);
    var b, top := RowBytes(v), Pow2(v.rowbits);
    RowStart(v, MinOf(rows));
    if MaxOf(rows) + 1 < top { RowStart(v, MaxOf(rows) + 1); }
    RowOfByte(v, o);
    DivBounds(o, b, 0, top - 1);
    ModSmall(o / b, top);
    DivBounds(o, b, MinOf(rows), MaxOf(rows));
  }
}
