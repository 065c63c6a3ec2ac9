/** The statistics that the hammer tolerance generator gathers for one step: which histogram entry counts
    which flips. */
module HammerStats {
  import opened Bits
  import opened Histograms

  // ---------------------------------------------------------------- histograms, key by key

  /** `if k != 0: histogram[k] += 1` */
  function BumpIf(h: Histogram, k: nat): Histogram {
    if k == 0 then h else Bump(h, k)
  }

  lemma BumpIfGet(h: Histogram, k: nat)
    ensures forall n :: n > 0 ==> Get(BumpIf(h, k), n) == Get(h, n) + if k == n then 1 else 0
  {
  }

  /** Flips of a chip in a beat and in a whole read; 0 for a chip outside the beat. */
  function ChipValue(f: seq<bool>, dq: nat, beat: nat, chip: nat): nat {
    if |f| == 512 && beat < 8 && (chip + 1) * dq <= 64 then ChipBeat(f, dq, beat, chip) else 0
  }

  function ReadValue(f: seq<bool>, dq: nat, chip: nat): nat {
    if |f| == 512 && (chip + 1) * dq <= 64 then BeatsOfChip(f, dq, chip, 8) else 0
  }

  function BeatColumn(f: seq<bool>, dq: nat, beat: nat, chips: nat): (vs: seq<nat>)
    ensures |vs| == chips && forall c :: 0 <= c < chips ==> vs[c] == ChipValue(f, dq, beat, c)
  {
    seq(chips, c requires 0 <= c < chips => ChipValue(f, dq, beat, c))
  }

  function ReadColumn(f: seq<bool>, dq: nat, chips: nat): (vs: seq<nat>)
    ensures |vs| == chips && forall c :: 0 <= c < chips ==> vs[c] == ReadValue(f, dq, c)
  {
    seq(chips, c requires 0 <= c < chips => ReadValue(f, dq, c))
  }

  /** Each of the first `n` chips counts its own value in its own histogram; the others are left alone. */
  function Counted(hs: seq<Histogram>, vs: seq<nat>, n: nat): (r: seq<Histogram>)
    requires n <= |hs| == |vs|
    ensures |r| == |hs| && forall c :: 0 <= c < |hs| ==> r[c] == if c < n then BumpIf(hs[c], vs[c]) else hs[c]
  {
    seq(|hs|, c requires 0 <= c < |hs| => if c < n then BumpIf(hs[c], vs[c]) else hs[c])
  }

  lemma CountedStep(hs: seq<Histogram>, vs: seq<nat>, n: nat)
    requires n < |hs| == |vs|
    ensures Counted(hs, vs, n + 1) == Counted(hs, vs, n)[n := BumpIf(hs[n], vs[n])]
    ensures Counted(hs, vs, n)[n] == hs[n]
  {
    hide BumpIf;
  }

  lemma CountedNone(hs: seq<Histogram>, vs: seq<nat>, n: nat)
    requires n <= |hs| == |vs| && (n == 0 || forall c :: 0 <= c < |vs| ==> vs[c] == 0)
    ensures Counted(hs, vs, n) == hs
  {
  }

  function SumFirst(vs: seq<nat>, n: nat): nat
    requires n <= |vs|
  {
    if n == 0 then 0 else SumFirst(vs, n - 1) + vs[n - 1]
  }

  lemma {:induction false} CountedWeight(hs: seq<Histogram>, vs: seq<nat>, n: nat)
    requires n <= |hs| == |vs| && forall c :: 0 <= c < |vs| ==> vs[c] < KEYS
    ensures ChipWeight(Counted(hs, vs, |hs|), n) == ChipWeight(hs, n) + SumFirst(vs, n)
    decreases n
  {
    hide Weight, Bump;
    if n > 0 {
      CountedWeight(hs, vs, n - 1);
      BumpWeight(hs[n - 1], vs[n - 1], KEYS);
    }
  }

  lemma {:induction false} BeatColumnSum(f: seq<bool>, dq: nat, beat: nat, chips: nat, n: nat)
    requires |f| == 512 && beat < 8 && n <= chips && chips * dq <= 64
    ensures n * dq <= 64 && SumFirst(BeatColumn(f, dq, beat, chips), n) == ChipsOfBeat(f, dq, beat, n)
    ensures forall c :: 0 <= c < n ==> BeatColumn(f, dq, beat, chips)[c] <= ChipsOfBeat(f, dq, beat, n)
    ensures forall c :: 0 <= c < n ==> BeatColumn(f, dq, beat, chips)[c] < KEYS
    decreases n
  {
    hide ChipBeat;
    ChipFitsAll(dq, n, chips);
    if n > 0 {
      BeatColumnSum(f, dq, beat, chips, n - 1);
      ChipBeatBound(f, dq, beat, n - 1);
    }
  }

  lemma ChipFitsAll(dq: nat, n: nat, chips: nat)
    requires n <= chips && chips * dq <= 64
    ensures n * dq <= 64 && (n > 0 ==> (n - 1) * dq <= 64)
  {
    assert chips * dq == n * dq + (chips - n) * dq;
    if n > 0 { assert n * dq == (n - 1) * dq + dq; }
  }

  lemma {:induction false} ReadColumnSum(f: seq<bool>, dq: nat, chips: nat, n: nat)
    requires |f| == 512 && n <= chips && chips * dq <= 64
    ensures n * dq <= 64 && SumFirst(ReadColumn(f, dq, chips), n) == ByChip(f, dq, n, 8)
    ensures forall c :: 0 <= c < n ==> ReadColumn(f, dq, chips)[c] < KEYS
    decreases n
  {
    hide BeatsOfChip;
    ChipFitsAll(dq, n, chips);
    if n > 0 {
      ReadColumnSum(f, dq, chips, n - 1);
      ChipTotalBound(f, dq, n - 1);
    }
  }

  /** Every chip's histogram has grown, at every key, by what `ChipBeatsWith` counts. */
  ghost predicate BeatsCounted(now: seq<Histogram>, before: seq<Histogram>, f: seq<bool>, dq: nat, m: nat) {
    |now| == |before| && forall c, n :: 0 <= c < |now| && n > 0 ==>
                           Get(now[c], n) == Get(before[c], n) + ChipBeatsWith(f, dq, c, n, m)
  }

  lemma BeatsCountedStep(now: seq<Histogram>, before: seq<Histogram>, next: seq<Histogram>, f: seq<bool>, dq: nat,
                         m: nat)
    requires BeatsCounted(now, before, f, dq, m)
    requires next == Counted(now, BeatColumn(f, dq, m, |now|), |now|)
    ensures BeatsCounted(next, before, f, dq, m + 1)
  {
    hide ChipValue;
    var column := BeatColumn(f, dq, m, |now|);
    forall c, n | 0 <= c < |next| && n > 0
      ensures Get(next[c], n) == Get(before[c], n) + ChipBeatsWith(f, dq, c, n, m + 1)
    {
      BumpIfGet(now[c], column[c]);
    }
  }

  ghost predicate ReadCounted(now: seq<Histogram>, before: seq<Histogram>, f: seq<bool>, dq: nat) {
    |now| == |before| && forall c, n :: 0 <= c < |now| && n > 0 ==>
                           Get(now[c], n) == Get(before[c], n) + if ReadValue(f, dq, c) == n then 1 else 0
  }

  lemma ReadCountedNow(before: seq<Histogram>, next: seq<Histogram>, f: seq<bool>, dq: nat)
    requires next == Counted(before, ReadColumn(f, dq, |before|), |before|)
    ensures ReadCounted(next, before, f, dq)
  {
    hide ReadValue;
    var column := ReadColumn(f, dq, |before|);
    forall c, n | 0 <= c < |next| && n > 0
      ensures Get(next[c], n) == Get(before[c], n) + if ReadValue(f, dq, c) == n then 1 else 0
    {
      BumpIfGet(before[c], column[c]);
    }
  }

  /** Beats among the first `m` with exactly `n` flips, and with exactly `n` flips of one chip. */
  function BeatsWith(f: seq<bool>, n: nat, m: nat): nat
    requires |f| == 512 && m <= 8
  {
    if m == 0 then 0 else BeatsWith(f, n, m - 1) + if Count(f[(m - 1) * 64..m * 64]) == n then 1 else 0
  }

  function ChipBeatsWith(f: seq<bool>, dq: nat, chip: nat, n: nat, m: nat): nat {
    if m == 0 then 0
    else ChipBeatsWith(f, dq, chip, n, m - 1) + if ChipValue(f, dq, m - 1, chip) == n then 1 else 0
  }

  /** Pairs of an error and a beat with exactly `n` flips, in the beat or in one chip of the beat, and errors
      with exactly `n` flips in one chip. */
  function BeatPairs(errors: seq<Error>, n: nat): nat {
    if errors == [] then 0
    else BeatPairs(errors[..|errors| - 1], n) + BeatsWith(FlipBits(errors[|errors| - 1]), n, 8)
  }

  function ChipBeatPairs(errors: seq<Error>, dq: nat, chip: nat, n: nat): nat {
    if errors == [] then 0
    else ChipBeatPairs(errors[..|errors| - 1], dq, chip, n)
         + ChipBeatsWith(FlipBits(errors[|errors| - 1]), dq, chip, n, 8)
  }

  function ChipReads(errors: seq<Error>, dq: nat, chip: nat, n: nat): nat {
    if errors == [] then 0
    else ChipReads(errors[..|errors| - 1], dq, chip, n)
         + if ReadValue(FlipBits(errors[|errors| - 1]), dq, chip) == n then 1 else 0
  }

  lemma FlipCount(e: Error)
    requires Xor(e.value, e.expected) < Pow2(512)
    ensures Count(FlipBits(e)) == Popcount(Xor(e.value, e.expected))
  {
    hide Count, Popcount, BitString, Xor, Pow2;
    BitStringCounts(Xor(e.value, e.expected), 512);
  }

  lemma NoBeatsCounted(hs: seq<Histogram>, f: seq<bool>, dq: nat)
    ensures BeatsCounted(hs, hs, f, dq, 0)
  {
  }

  /** Every chip's histogram has grown, at every key n, by the number of pairs of an error and a beat in which
      that chip has exactly n flips. */
  ghost predicate PairsCounted(now: seq<Histogram>, before: seq<Histogram>, errors: seq<Error>, dq: nat) {
    |now| == |before| && forall c, n :: 0 <= c < |now| && n > 0 ==>
                           Get(now[c], n) == Get(before[c], n) + ChipBeatPairs(errors, dq, c, n)
  }

  /** The same for errors in which that chip has exactly n flips in all. */
  ghost predicate ReadsCounted(now: seq<Histogram>, before: seq<Histogram>, errors: seq<Error>, dq: nat) {
    |now| == |before| && forall c, n :: 0 <= c < |now| && n > 0 ==>
                           Get(now[c], n) == Get(before[c], n) + ChipReads(errors, dq, c, n)
  }

  lemma NoPairsCounted(perBeat: seq<Histogram>, perRead: seq<Histogram>, dq: nat)
    ensures PairsCounted(perBeat, perBeat, [], dq) && ReadsCounted(perRead, perRead, [], dq)
  {
  }

  lemma PairsStep(now: seq<Histogram>, last: seq<Histogram>, before: seq<Histogram>, errors: seq<Error>, dq: nat)
    requires errors != [] && PairsCounted(last, before, errors[..|errors| - 1], dq)
    requires BeatsCounted(now, last, FlipBits(errors[|errors| - 1]), dq, 8)
    ensures PairsCounted(now, before, errors, dq)
  {
    hide ChipBeatsWith, FlipBits;
  }

  lemma ReadsStep(now: seq<Histogram>, last: seq<Histogram>, before: seq<Histogram>, errors: seq<Error>, dq: nat)
    requires errors != [] && ReadsCounted(last, before, errors[..|errors| - 1], dq)
    requires ReadCounted(now, last, FlipBits(errors[|errors| - 1]), dq)
    ensures ReadsCounted(now, before, errors, dq)
  {
    hide ReadValue, FlipBits;
  }

  /** The statistics kept for one step. */
  class Stats {
    const chips: nat
    var beatErrors: Histogram
    var chipErrorsPerBeat: seq<Histogram>
    var chipErrorsPerRead: seq<Histogram>
    var bitErrors: nat

    ghost predicate Valid()
      reads this
    {
      chips > 0 && |chipErrorsPerBeat| == chips && |chipErrorsPerRead| == chips
    }

    ghost function BeatWeight(): nat
      reads this
    {
      Weight(beatErrors, KEYS)
    }

    ghost function PerBeatWeight(): nat
      requires Valid()
      reads this
    {
      ChipWeight(chipErrorsPerBeat, chips)
    }

    ghost function PerReadWeight(): nat
      requires Valid()
      reads this
    {
      ChipWeight(chipErrorsPerRead, chips)
    }

    constructor (chips: nat)
      requires chips > 0
      ensures Valid() && this.chips == chips && bitErrors == 0 && beatErrors == map[]
      ensures forall c :: 0 <= c < chips ==> chipErrorsPerBeat[c] == map[] && chipErrorsPerRead[c] == map[]
      ensures BeatWeight() == 0 && PerBeatWeight() == 0 && PerReadWeight() == 0
    {
      this.chips, bitErrors, beatErrors := chips, 0, map[];
      chipErrorsPerBeat, chipErrorsPerRead := seq(chips, _ => map[]), seq(chips, _ => map[]);
      new;
      NoWeight(KEYS);
      NoChipWeight(chipErrorsPerBeat, chips);
      NoChipWeight(chipErrorsPerRead, chips);
    }

    /** One beat: its flips enter the beat histogram and, chip by chip, the per-chip one. */
    method CountBeat(f: seq<bool>, dq: nat, beat: nat) returns (flipCount: nat)
      requires Valid() && |f| == 512 && beat < 8 && 0 <= chips * dq <= 64
      modifies this`beatErrors, this`chipErrorsPerBeat
      ensures Valid() && flipCount == Count(f[beat * 64..(beat + 1) * 64])
      ensures beatErrors == BumpIf(old(beatErrors), flipCount)
      ensures chipErrorsPerBeat == Counted(old(chipErrorsPerBeat), BeatColumn(f, dq, beat, chips), chips)
      ensures BeatWeight() == old(BeatWeight()) + flipCount
      ensures PerBeatWeight() == old(PerBeatWeight()) + ChipsOfBeat(f, dq, beat, chips)
    {
      hide Weight, ChipWeight, Bump, Count, ChipBeat, BeatColumn, Counted;
      flipCount := Count(f[beat * 64..(beat + 1) * 64]);
      CountBound(f[beat * 64..(beat + 1) * 64]);
      ChipsCover(f, dq, beat, chips);
      CountSplit(f, beat * 64, beat * 64 + chips * dq, (beat + 1) * 64);
      ghost var column := BeatColumn(f, dq, beat, chips);
      BeatColumnSum(f, dq, beat, chips, chips);
      CountedWeight(chipErrorsPerBeat, column, chips);
      if flipCount == 0 {
        CountedNone(chipErrorsPerBeat, column, chips);
        return;
      }
      BumpWeight(beatErrors, flipCount, KEYS);
      beatErrors := Bump(beatErrors, flipCount);
      CountedNone(chipErrorsPerBeat, column, 0);
      for chip := 0 to chips
        invariant beatErrors == BumpIf(old(beatErrors), flipCount)
        invariant |chipErrorsPerBeat| == chips && chipErrorsPerBeat == Counted(old(chipErrorsPerBeat), column, chip)
      {
        ChipFits(dq, chip, chips);
        CountedStep(old(chipErrorsPerBeat), column, chip);
        var n := ChipBeat(f, dq, beat, chip);
        if n != 0 {
          chipErrorsPerBeat := chipErrorsPerBeat[chip := Bump(chipErrorsPerBeat[chip], n)];
        }
      }
    }

    /** All chips of one read. */
    method CountChips(f: seq<bool>, dq: nat)
      requires Valid() && |f| == 512 && 0 <= chips * dq <= 64
      modifies this`chipErrorsPerRead
      ensures Valid()
      ensures chipErrorsPerRead == Counted(old(chipErrorsPerRead), ReadColumn(f, dq, chips), chips)
      ensures PerReadWeight() == old(PerReadWeight()) + ByChip(f, dq, chips, 8)
    {
      hide Weight, ChipWeight, Bump, Count, BeatsOfChip, Extracted, ReadColumn, Counted;
      ghost var column := ReadColumn(f, dq, chips);
      ReadColumnSum(f, dq, chips, chips);
      CountedWeight(chipErrorsPerRead, column, chips);
      CountedNone(chipErrorsPerRead, column, 0);
      for chip := 0 to chips
        invariant |chipErrorsPerRead| == chips && chipErrorsPerRead == Counted(old(chipErrorsPerRead), column, chip)
      {
        ChipFits(dq, chip, chips);
        SliceBounds(dq, chip);
        ExtractedCounts(f, dq, chip, 8);
        CountedStep(old(chipErrorsPerRead), column, chip);
        var bits := ExtractBits(f, chip * dq, 64, dq, 8);
        var n := Count(bits);
        if n != 0 {
          chipErrorsPerRead := chipErrorsPerRead[chip := Bump(chipErrorsPerRead[chip], n)];
        }
      }
    }

    /** One error: all eight beats, then all chips. Fails like the source on a beat with all bits flipped. */
    method CountError(f: seq<bool>) returns (ok: bool)
      requires Valid() && |f| == 512 && 0 <= chips * DqBits(chips) <= 64
      modifies this
      ensures Valid()
      ensures ok == NoFullBeat(f)
      ensures ok ==> forall n :: n > 0 ==> Get(beatErrors, n) == old(Get(beatErrors, n)) + BeatsWith(f, n, 8)
      ensures ok ==> BeatsCounted(chipErrorsPerBeat, old(chipErrorsPerBeat), f, DqBits(chips), 8)
      ensures ok ==> ReadCounted(chipErrorsPerRead, old(chipErrorsPerRead), f, DqBits(chips))
      ensures ok ==> bitErrors == old(bitErrors) + Count(f) && BeatWeight() == old(BeatWeight()) + Count(f)
      ensures ok ==> PerBeatWeight() + Lost(f, chips * DqBits(chips), 8) == old(PerBeatWeight()) + Count(f)
      ensures ok ==> PerReadWeight() + Lost(f, chips * DqBits(chips), 8) == old(PerReadWeight()) + Count(f)
    {
      hide Weight, ChipWeight, Count, ByChip, ChipsOfBeat, Lost, Counted, BeatColumn, ReadColumn, BumpIf, BeatsCounted,
           ReadCounted;
      var dq := DqBits(chips);
      CountNothing();
      NoBeatsCounted(chipErrorsPerBeat, f, dq);
      assert f[..0 * 64] == [];
      var total := 0;
      for b := 0 to 8
        invariant Valid() && bitErrors == old(bitErrors) && chipErrorsPerRead == old(chipErrorsPerRead)
        invariant forall k :: 0 <= k < b ==> Count(f[k * 64..(k + 1) * 64]) < 64
        invariant forall n :: n > 0 ==> Get(beatErrors, n) == old(Get(beatErrors, n)) + BeatsWith(f, n, b)
        invariant BeatsCounted(chipErrorsPerBeat, old(chipErrorsPerBeat), f, dq, b)
        invariant total == Count(f[..b * 64]) && BeatWeight() == old(BeatWeight()) + total
        invariant PerBeatWeight() == old(PerBeatWeight()) + ByBeat(f, dq, chips, b)
      {
        if Count(f[b * 64..(b + 1) * 64]) >= 64 {
          return false;
        }
        ghost var beats, perBeat := beatErrors, chipErrorsPerBeat;
        var flipCount := CountBeat(f, dq, b);
        BumpIfGet(beats, flipCount);
        BeatsCountedStep(perBeat, old(chipErrorsPerBeat), chipErrorsPerBeat, f, dq, b);
        CountSplit(f, 0, b * 64, (b + 1) * 64);
        assert f[0..(b + 1) * 64] == f[..(b + 1) * 64] && f[0..b * 64] == f[..b * 64];
        total := total + flipCount;
      }
      assert f[..512] == f;
      SumsAgree(f, dq, chips, 8);
      BeatsCover(f, dq, chips, 8);
      CountChips(f, dq);
      ReadCountedNow(old(chipErrorsPerRead), chipErrorsPerRead, f, dq);
      bitErrors := bitErrors + total;
      ok := true;
    }

    /** `gather_full_stats`: every flipped bit of every error is counted once in the bit count and once,
        weighted by its key, in the beat histogram; the per-chip histograms count the same flips less
        those in bits that no chip covers. */
    method GatherFullStats(errors: seq<Error>) returns (ok: bool)
      requires Valid()
      modifies this
      ensures Valid()
      ensures ok <==> forall i :: 0 <= i < |errors| ==> Countable(errors[i])
      ensures ok ==> bitErrors == old(bitErrors) + Flips(errors) && BeatWeight() == old(BeatWeight()) + Flips(errors)
      ensures ok ==> PerBeatWeight() + LostFlips(errors, chips) == old(PerBeatWeight()) + Flips(errors)
      ensures ok ==> PerReadWeight() + LostFlips(errors, chips) == old(PerReadWeight()) + Flips(errors)
      ensures ok ==> forall n :: n > 0 ==> Get(beatErrors, n) == old(Get(beatErrors, n)) + BeatPairs(errors, n)
      ensures ok ==> PairsCounted(chipErrorsPerBeat, old(chipErrorsPerBeat), errors, DqBits(chips))
      ensures ok ==> ReadsCounted(chipErrorsPerRead, old(chipErrorsPerRead), errors, DqBits(chips))
    {
      hide Popcount, BitString, Count, Xor, Pow2, Weight, ChipWeight, Lost, NoFullBeat, BeatsCounted, ReadCounted,
           PairsCounted, ReadsCounted, BeatsWith, FlipBits;
      NoPairsCounted(chipErrorsPerBeat, chipErrorsPerRead, DqBits(chips));
      Covered(chips);
      for i := 0 to |errors|
        invariant Valid()
        invariant bitErrors == old(bitErrors) + Flips(errors[..i])
        invariant BeatWeight() == old(BeatWeight()) + Flips(errors[..i])
        invariant PerBeatWeight() + LostFlips(errors[..i], chips) == old(PerBeatWeight()) + Flips(errors[..i])
        invariant PerReadWeight() + LostFlips(errors[..i], chips) == old(PerReadWeight()) + Flips(errors[..i])
        invariant forall n :: n > 0 ==> Get(beatErrors, n) == old(Get(beatErrors, n)) + BeatPairs(errors[..i], n)
        invariant PairsCounted(chipErrorsPerBeat, old(chipErrorsPerBeat), errors[..i], DqBits(chips))
        invariant ReadsCounted(chipErrorsPerRead, old(chipErrorsPerRead), errors[..i], DqBits(chips))
        invariant forall k :: 0 <= k < i ==> Countable(errors[k])
      {
        if Xor(errors[i].value, errors[i].expected) >= Pow2(512) {
          return false;
        }
        assert errors[..i + 1][..i] == errors[..i];
        FlipCount(errors[i]);
        ghost var perBeat, perRead := chipErrorsPerBeat, chipErrorsPerRead;
        var fine := CountError(FlipBits(errors[i]));
        if !fine {
          return false;
        }
        PairsStep(chipErrorsPerBeat, perBeat, old(chipErrorsPerBeat), errors[..i + 1], DqBits(chips));
        ReadsStep(chipErrorsPerRead, perRead, old(chipErrorsPerRead), errors[..i + 1], DqBits(chips));
      }
      assert errors[..|errors|] == errors;
      ok := true;
    }
  }
}
