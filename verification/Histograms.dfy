/** The flip histograms of the hammer tolerance generator: every flipped bit is counted
    once in each of them. */
module Histograms {
  import opened Bits

  // ---------------------------------------------------------------- flipped bits

  /** `bin(x).count('1')` */
  function Popcount(x: nat): nat {
    if x == 0 then 0 else x % 2 + Popcount(x / 2)
  }

  /** `format(x, "512b")[::-1]` as bits, least significant first, for n digits. */
  function BitString(x: nat, n: nat): (r: seq<bool>)
    ensures |r| == n
  {
    if n == 0 then [] else [x % 2 == 1] + BitString(x / 2, n - 1)
  }

  /** `.count('1')` */
  function Count(f: seq<bool>): nat {
    if f == [] then 0 else (if f[0] then 1 else 0) + Count(f[1..])
  }

  lemma {:induction false} BitStringCounts(x: nat, n: nat)
    requires x < Pow2(n)
    ensures Count(BitString(x, n)) == Popcount(x)
    decreases n
  {
    if n > 0 {
      BitStringCounts(x / 2, n - 1);
      assert BitString(x, n)[1..] == BitString(x / 2, n - 1);
    }
  }

  /** Digit `i` is bit `i`. */
  lemma {:induction false} BitStringBits(x: nat, n: nat, i: nat)
    requires i < n
    ensures BitString(x, n)[i] <==> Bit(x, i)
    decreases n
  {
    hide Bit;
    BitShift(x, i);
    if i > 0 { BitStringBits(x / 2, n - 1, i - 1); }
  }

  lemma {:induction false} CountPlus(a: seq<bool>, b: seq<bool>)
    ensures Count(a + b) == Count(a) + Count(b)
  {
    if a == [] {
      assert a + b == b;
    } else {
      CountPlus(a[1..], b);
      assert (a + b)[1..] == a[1..] + b;
    }
  }

  lemma {:induction false} CountBound(a: seq<bool>)
    ensures Count(a) <= |a|
  {
    if a != [] { CountBound(a[1..]); }
  }

  lemma CountNothing()
    ensures Count([]) == 0
  {
  }

  lemma CountSplit(f: seq<bool>, lo: nat, mid: nat, hi: nat)
    requires lo <= mid <= hi <= |f|
    ensures Count(f[lo..hi]) == Count(f[lo..mid]) + Count(f[mid..hi])
  {
    assert f[lo..hi] == f[lo..mid] + f[mid..hi];
    CountPlus(f[lo..mid], f[mid..hi]);
  }

  // ---------------------------------------------------------------- beats and chips

  /** Flips of chip `chip` in beat `beat`: `dq` of the 64 bits. */
  function ChipBeat(f: seq<bool>, dq: nat, beat: nat, chip: nat): nat
    requires |f| == 512 && beat < 8 && (chip + 1) * dq <= 64
  {
    SliceBounds(dq, chip);
    Count(f[beat * 64 + chip * dq..beat * 64 + (chip + 1) * dq])
  }

  lemma SliceBounds(dq: nat, chip: nat)
    requires (chip + 1) * dq <= 64
    ensures 0 <= chip * dq <= (chip + 1) * dq
  {
    assert (chip + 1) * dq == chip * dq + dq;
  }

  lemma ChipFits(dq: nat, chip: nat, chips: nat)
    requires chip < chips && chips * dq <= 64
    ensures (chip + 1) * dq <= 64
  {
    assert chips * dq == (chip + 1) * dq + (chips - chip - 1) * dq;
    assert (chips - chip - 1) * dq >= 0;
  }

  /** Flips of the first n chips in one beat. */
  ghost function ChipsOfBeat(f: seq<bool>, dq: nat, beat: nat, n: nat): nat
    requires |f| == 512 && beat < 8 && n * dq <= 64
  {
    if n == 0 then 0 else SmallerFits(dq, n); ChipsOfBeat(f, dq, beat, n - 1) + ChipBeat(f, dq, beat, n - 1)
  }

  lemma SmallerFits(dq: nat, n: nat)
    requires n > 0 && n * dq <= 64
    ensures (n - 1) * dq <= 64
  {
    assert n * dq == (n - 1) * dq + dq;
  }

  /** Flips of one chip in the first m beats. */
  function BeatsOfChip(f: seq<bool>, dq: nat, chip: nat, m: nat): nat
    requires |f| == 512 && m <= 8 && (chip + 1) * dq <= 64
  {
    if m == 0 then 0 else BeatsOfChip(f, dq, chip, m - 1) + ChipBeat(f, dq, m - 1, chip)
  }

  lemma {:induction false} ChipsCover(f: seq<bool>, dq: nat, beat: nat, n: nat)
    requires |f| == 512 && beat < 8 && n * dq <= 64
    ensures 0 <= n * dq && ChipsOfBeat(f, dq, beat, n) == Count(f[beat * 64..beat * 64 + n * dq])
    decreases n
  {
    hide Count;
    if n == 0 {
      CountNothing();
      assert f[beat * 64..beat * 64 + 0 * dq] == [];
    } else {
      SmallerFits(dq, n);
      ChipsCover(f, dq, beat, n - 1);
      SliceBounds(dq, n - 1);
      CountSplit(f, beat * 64, beat * 64 + (n - 1) * dq, beat * 64 + n * dq);
    }
  }

  /** Total flips of the first n chips in the first m beats, summed either way. */
  ghost function ByBeat(f: seq<bool>, dq: nat, n: nat, m: nat): nat
    requires |f| == 512 && m <= 8 && n * dq <= 64
  {
    if m == 0 then 0 else ByBeat(f, dq, n, m - 1) + ChipsOfBeat(f, dq, m - 1, n)
  }

  ghost function ByChip(f: seq<bool>, dq: nat, n: nat, m: nat): nat
    requires |f| == 512 && m <= 8 && n * dq <= 64
  {
    if n == 0 then 0 else SmallerFits(dq, n); ByChip(f, dq, n - 1, m) + BeatsOfChip(f, dq, n - 1, m)
  }

  lemma {:induction false} ByChipGrows(f: seq<bool>, dq: nat, n: nat, m: nat)
    requires |f| == 512 && m < 8 && n * dq <= 64
    ensures ByChip(f, dq, n, m + 1) == ByChip(f, dq, n, m) + ChipsOfBeat(f, dq, m, n)
    decreases n
  {
    hide ChipBeat;
    if n > 0 {
      SmallerFits(dq, n);
      ByChipGrows(f, dq, n - 1, m);
    }
  }

  lemma {:induction false} NoBeats(f: seq<bool>, dq: nat, n: nat)
    requires |f| == 512 && n * dq <= 64
    ensures ByChip(f, dq, n, 0) == 0
    decreases n
  {
    if n > 0 {
      SmallerFits(dq, n);
      NoBeats(f, dq, n - 1);
    }
  }

  /** Counting by chip and counting by beat give the same total. */
  lemma {:induction false} SumsAgree(f: seq<bool>, dq: nat, n: nat, m: nat)
    requires |f| == 512 && m <= 8 && n * dq <= 64
    ensures ByChip(f, dq, n, m) == ByBeat(f, dq, n, m)
    decreases m
  {
    hide ChipsOfBeat, BeatsOfChip;
    if m == 0 {
      NoBeats(f, dq, n);
    } else {
      SumsAgree(f, dq, n, m - 1);
      ByChipGrows(f, dq, n, m - 1);
    }
  }

  /** Flips in the bits of the first m beats that belong to no chip. */
  ghost function Lost(f: seq<bool>, used: nat, m: nat): nat
    requires |f| == 512 && m <= 8 && used <= 64
  {
    if m == 0 then 0 else Lost(f, used, m - 1) + Count(f[(m - 1) * 64 + used..m * 64])
  }

  lemma {:induction false} BeatsCover(f: seq<bool>, dq: nat, n: nat, m: nat)
    requires |f| == 512 && m <= 8 && 0 <= n * dq <= 64
    ensures ByBeat(f, dq, n, m) + Lost(f, n * dq, m) == Count(f[..m * 64])
    decreases m
  {
    hide ChipsOfBeat, Count;
    if m == 0 {
      CountNothing();
      assert f[..0] == [];
    } else {
      BeatsCover(f, dq, n, m - 1);
      ChipsCover(f, dq, m - 1, n);
      CountSplit(f, (m - 1) * 64, (m - 1) * 64 + n * dq, m * 64);
      CountSplit(f, 0, (m - 1) * 64, m * 64);
      assert f[0..m * 64] == f[..m * 64] && f[0..(m - 1) * 64] == f[..(m - 1) * 64];
    }
  }

  lemma {:induction false} NothingLost(f: seq<bool>, m: nat)
    requires |f| == 512 && m <= 8
    ensures Lost(f, 64, m) == 0
    decreases m
  {
    if m > 0 {
      NothingLost(f, m - 1);
      assert f[(m - 1) * 64 + 64..m * 64] == [];
    }
  }

  // ---------------------------------------------------------------- histograms

  type Histogram = map<nat, nat>

  function Get(h: Histogram, k: nat): nat {
    if k in h then h[k] else 0
  }

  /** Count-weighted sum over the keys below n. */
  function Weight(h: Histogram, n: nat): nat {
    if n == 0 then 0 else Weight(h, n - 1) + (n - 1) * Get(h, n - 1)
  }

  function Bump(h: Histogram, k: nat): Histogram {
    h[k := Get(h, k) + 1]
  }

  lemma {:induction false} BumpWeight(h: Histogram, k: nat, n: nat)
    ensures Weight(Bump(h, k), n) == Weight(h, n) + if k < n then k else 0
    decreases n
  {
    if n > 0 {
      BumpWeight(h, k, n - 1);
      if k == n - 1 { assert k * (Get(h, k) + 1) == k * Get(h, k) + k; }
    }
  }

  /** Keys are flip counts of up to 512 bits. */
  const KEYS: nat := 513

  /** Total weight of the histograms of the first n chips. */
  function ChipWeight(hs: seq<Histogram>, n: nat): nat
    requires n <= |hs|
  {
    if n == 0 then 0 else ChipWeight(hs, n - 1) + Weight(hs[n - 1], KEYS)
  }

  lemma {:induction false} NoWeight(n: nat)
    ensures Weight(map[], n) == 0
    decreases n
  {
    if n > 0 { NoWeight(n - 1); }
  }

  lemma {:induction false} NoChipWeight(hs: seq<Histogram>, n: nat)
    requires n <= |hs| && forall i :: 0 <= i < |hs| ==> hs[i] == map[]
    ensures ChipWeight(hs, n) == 0
    decreases n
  {
    hide Weight;
    if n > 0 {
      NoChipWeight(hs, n - 1);
      NoWeight(KEYS);
    }
  }

  // ---------------------------------------------------------------- the generator

  datatype Error = Error(value: nat, expected: nat)

  /** Total flipped bits of a list of errors. */
  function Flips(errors: seq<Error>): nat {
    if errors == [] then 0
    else Flips(errors[..|errors| - 1]) + Popcount(Xor(errors[|errors| - 1].value, errors[|errors| - 1].expected))
  }

  /** Python's slice of a string: what lies beyond the end is left out. */
  function Clip(f: seq<bool>, lo: nat, size: nat): seq<bool> {
    if lo >= |f| then [] else if lo + size >= |f| then f[lo..] else f[lo..lo + size]
  }

  /** `extract_bits`: the groups of bits that belong to one chip, joined. */
  method ExtractBits(f: seq<bool>, first: nat, stride: nat, size: nat, groups: nat) returns (bits: seq<bool>)
    ensures bits == Extracted(f, first, stride, size, groups)
  {
    var idx := first;
    bits := [];
    for g := 0 to groups
      invariant idx == first + stride * g
      invariant bits == Extracted(f, first, stride, size, g)
    {
      bits := bits + Clip(f, idx, size);
      idx := idx + stride;
    }
  }

  function Extracted(f: seq<bool>, first: nat, stride: nat, size: nat, groups: nat): seq<bool> {
    if groups == 0 then []
    else Extracted(f, first, stride, size, groups - 1) + Clip(f, first + Times(stride, groups - 1), size)
  }

  /** The bits extracted for a chip are its bits of all beats. */
  lemma {:induction false} ExtractedCounts(f: seq<bool>, dq: nat, chip: nat, m: nat)
    requires |f| == 512 && m <= 8 && (chip + 1) * dq <= 64
    ensures 0 <= chip * dq && Count(Extracted(f, chip * dq, 64, dq, m)) == BeatsOfChip(f, dq, chip, m)
    decreases m
  {
    hide Count, Clip;
    SliceBounds(dq, chip);
    if m == 0 {
      CountNothing();
    } else {
      ExtractedCounts(f, dq, chip, m - 1);
      ClipIsChip(f, dq, m - 1, chip);
      CountPlus(Extracted(f, chip * dq, 64, dq, m - 1), Clip(f, chip * dq + 64 * (m - 1), dq));
    }
  }

  lemma ClipIsChip(f: seq<bool>, dq: nat, beat: nat, chip: nat)
    requires |f| == 512 && beat < 8 && (chip + 1) * dq <= 64
    ensures 0 <= chip * dq && Count(Clip(f, chip * dq + 64 * beat, dq)) == ChipBeat(f, dq, beat, chip)
  {
    hide Count;
    SliceBounds(dq, chip);
    assert (chip + 1) * dq == chip * dq + dq;
    assert Clip(f, chip * dq + 64 * beat, dq) == f[beat * 64 + chip * dq..beat * 64 + (chip + 1) * dq];
  }

  /** `64 // nr_chips`, and how many bits of a beat the chips cover. */
  function DqBits(chips: nat): nat
    requires chips > 0
  {
    64 / chips
  }

  lemma Covered(chips: nat)
    requires chips > 0
    ensures 0 <= chips * DqBits(chips) <= 64 && (64 % chips == 0 ==> chips * DqBits(chips) == 64)
  {
    assert 64 == chips * (64 / chips) + 64 % chips;
  }

  function FlipBits(e: Error): (f: seq<bool>)
    ensures |f| == 512
  {
    BitString(Xor(e.value, e.expected), 512)
  }

  /** Flips that no chip of the errors accounts for. */
  ghost function LostFlips(errors: seq<Error>, chips: nat): nat
    requires chips > 0
  {
    Covered(chips);
    if errors == [] then 0
    else LostFlips(errors[..|errors| - 1], chips) + Lost(FlipBits(errors[|errors| - 1]), chips * DqBits(chips), 8)
  }

  /** Nothing is lost when the chips divide a beat. */
  lemma {:induction false} NoFlipsLost(errors: seq<Error>, chips: nat)
    requires chips > 0 && 64 % chips == 0
    ensures LostFlips(errors, chips) == 0
    decreases |errors|
  {
    hide FlipBits, Lost;
    if errors != [] {
      Covered(chips);
      NoFlipsLost(errors[..|errors| - 1], chips);
      NothingLost(FlipBits(errors[|errors| - 1]), 8);
    }
  }

  /** No beat of the error has all 64 bits flipped. */
  ghost predicate NoFullBeat(f: seq<bool>)
    requires |f| == 512
  {
    forall b :: 0 <= b < 8 ==> Count(f[b * 64..(b + 1) * 64]) < 64
  }

  lemma {:induction false} CountFull(f: seq<bool>)
    ensures Count(f) == |f| <==> forall i :: 0 <= i < |f| ==> f[i]
  {
    if f != [] {
      CountFull(f[1..]);
      CountBound(f[1..]);
      if forall i :: 0 <= i < |f| ==> f[i] { assert forall i :: 0 <= i < |f[1..]| ==> f[1..][i] == f[i + 1]; }
      if Count(f) == |f| { forall i | 0 <= i < |f| ensures f[i] { if i > 0 { assert f[1..][i - 1]; } } }
    }
  }

  /** Some bit of the range is not flipped. */
  ghost predicate Intact(f: seq<bool>, lo: nat, hi: nat)
    requires hi <= |f|
  {
    exists i :: lo <= i < hi && !f[i]
  }

  /** A beat is full exactly when each of its 64 bits is flipped. */
  lemma FullBeatIff(f: seq<bool>)
    requires |f| == 512
    ensures NoFullBeat(f) <==> forall b :: 0 <= b < 8 ==> Intact(f, b * 64, (b + 1) * 64)
  {
    hide Count, Intact;
    forall b | 0 <= b < 8 ensures Count(f[b * 64..(b + 1) * 64]) < 64 <==> Intact(f, b * 64, (b + 1) * 64) {
      IntactIff(f, b * 64, (b + 1) * 64);
    }
  }

  lemma IntactIff(f: seq<bool>, lo: nat, hi: nat)
    requires lo <= hi <= |f|
    ensures Intact(f, lo, hi) <==> Count(f[lo..hi]) < hi - lo
  {
    hide Count;
    var part := f[lo..hi];
    CountFull(part);
    CountBound(part);
    if Intact(f, lo, hi) {
      var i :| lo <= i < hi && !f[i];
      assert !part[i - lo];
    } else {
      forall k | 0 <= k < |part| ensures part[k] { assert f[lo + k]; }
    }
  }

  /** The assertions of `gather_full_stats`: the difference fits 512 bits and no beat is full. */
  ghost predicate Countable(e: Error) {
    Xor(e.value, e.expected) < Pow2(512) && NoFullBeat(FlipBits(e))
  }

  // ---------------------------------------------------------------- when flips are lost

  ghost predicate AllFalse(f: seq<bool>) {
    forall i :: 0 <= i < |f| ==> !f[i]
  }

  lemma {:induction false} NoneSet(f: seq<bool>)
    requires AllFalse(f)
    ensures Count(f) == 0
  {
    if f != [] { NoneSet(f[1..]); }
  }

  lemma {:induction false} ZeroString(n: nat)
    ensures AllFalse(BitString(0, n))
    decreases n
  {
    if n > 0 { ZeroString(n - 1); }
  }

  /** The digits of a power of two. */
  lemma {:induction false} PowerString(k: nat, n: nat)
    requires k < n
    ensures forall i :: 0 <= i < n ==> (BitString(Pow2(k), n)[i] <==> i == k)
    decreases n
  {
    if k == 0 {
      ZeroString(n - 1);
    } else {
      PowerString(k - 1, n - 1);
    }
  }

  /** One set bit in a slice counts once. */
  lemma OneSet(f: seq<bool>, k: nat, lo: nat, hi: nat)
    requires lo <= hi <= |f| && forall i :: 0 <= i < |f| ==> (f[i] <==> i == k)
    ensures Count(f[lo..hi]) == if lo <= k < hi then 1 else 0
  {
    hide Count;
    if lo <= k < hi {
      CountSplit(f, lo, k, hi);
      CountSplit(f, k, k + 1, hi);
      NoneSet(f[lo..k]);
      NoneSet(f[k + 1..hi]);
      assert f[k..k + 1] == [true];
      CountTrue();
    } else {
      NoneSet(f[lo..hi]);
    }
  }

  lemma CountTrue()
    ensures Count([true]) == 1
  {
    assert [true][1..] == [];
  }

  lemma {:induction false} XorZero(a: nat)
    ensures Xor(a, 0) == a
  {
    if a > 0 { XorZero(a / 2); }
  }

  /** A read whose only flip is in the last bit of the first beat. */
  function LastBitFlip(): Error {
    Error(Pow2(63), 0)
  }

  /** Chips that do not divide a beat leave its last bit to nobody: the flip is counted in the bit count and
      the beat histogram and lost in the per-chip ones. */
  lemma LastBitLost(chips: nat)
    requires chips > 0 && 64 % chips != 0
    ensures Countable(LastBitFlip()) && LostFlips([LastBitFlip()], chips) == 1
  {
    hide Count, BitString, Pow2, Xor;
    var e := LastBitFlip();
    XorZero(Pow2(63));
    PowerString(63, 512);
    var f := FlipBits(e);
    forall b | 0 <= b < 8 ensures Count(f[b * 64..(b + 1) * 64]) < 64 { OneSet(f, 63, b * 64, (b + 1) * 64); }
    PowerLess();
    Covered(chips);
    LostOnce(f, chips * DqBits(chips), 8);
    assert [e][..0] == [] && LostFlips([], chips) == 0;
  }

  lemma PowerLess()
    ensures Pow2(63) < Pow2(512)
  {
    hide Pow2;
    Pow2Monotone(64, 512);
    Doubling(63);
  }

  lemma Doubling(n: nat)
    ensures Pow2(n + 1) == 2 * Pow2(n)
  {
  }

  lemma {:induction false} LostOnce(f: seq<bool>, used: nat, m: nat)
    requires |f| == 512 && used < 64 && 1 <= m <= 8 && forall i :: 0 <= i < |f| ==> (f[i] <==> i == 63)
    ensures Lost(f, used, m) == 1
    decreases m
  {
    hide Count;
    OneSet(f, 63, (m - 1) * 64 + used, m * 64);
    if m > 1 { LostOnce(f, used, m - 1); }
  }

  /** The exact condition: no flip of any list of errors is lost if and only if the chips divide a beat. */
  lemma NothingLostIff(chips: nat)
    requires chips > 0
    ensures (forall errors :: LostFlips(errors, chips) == 0) <==> 64 % chips == 0
  {
    hide LostFlips;
    if 64 % chips == 0 {
      forall errors ensures LostFlips(errors, chips) == 0 { NoFlipsLost(errors, chips); }
    } else {
      LastBitLost(chips);
      assert LostFlips([LastBitFlip()], chips) != 0;
    }
  }

  lemma ChipBeatBound(f: seq<bool>, dq: nat, beat: nat, chip: nat)
    requires |f| == 512 && beat < 8 && (chip + 1) * dq <= 64
    ensures ChipBeat(f, dq, beat, chip) <= 64
  {
    SliceBounds(dq, chip);
    CountBound(f[beat * 64 + chip * dq..beat * 64 + (chip + 1) * dq]);
  }

  lemma {:induction false} ChipTotalBound(f: seq<bool>, dq: nat, chip: nat, m: nat := 8)
    requires |f| == 512 && m <= 8 && (chip + 1) * dq <= 64
    ensures BeatsOfChip(f, dq, chip, m) <= 64 * m
    decreases m
  {
    hide ChipBeat;
    if m > 0 {
      ChipTotalBound(f, dq, chip, m - 1);
      ChipBeatBound(f, dq, m - 1, chip);
    }
  }
}
