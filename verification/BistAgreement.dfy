/** Fill with the writer, check with the reader: which transfers are reported. */
module BistAgreement {
  import opened Bits
  import opened Bist
  import W = BistWriter
  import R = BistReader

  /** DRAM contents; an address never written reads as 0. */
  type Memory = map<nat, int>

  function Load(m: Memory, a: nat): int {
    if a in m then m[a] else 0
  }

  /** The memory after these writes, in order. */
  function Store(m: Memory, writes: seq<W.Write>): Memory {
    if writes == [] then m
    else Store(m, writes[..|writes| - 1])[writes[|writes| - 1].address := writes[|writes| - 1].data]
  }

  ghost predicate Distinct(c: Cfg) {
    forall j, k :: 0 <= j < k < c.count ==> Addr(c, j) != Addr(c, k)
  }

  /** With pairwise distinct addresses every transfer's word is in memory after the writer is done. */
  lemma {:induction false} StoredWords(c: Cfg, m: Memory, n: nat)
    requires Distinct(c) && n <= c.count
    ensures forall k :: 0 <= k < n ==> Load(Store(m, W.Writes(c, n)), Addr(c, k)) == Word(c, k)
    decreases n
  {
    hide Addr, Word;
    if n > 0 {
      StoredWords(c, m, n - 1);
      W.WritesSnoc(c, n - 1);
      var writes := W.Writes(c, n);
      assert writes[..n - 1] == W.Writes(c, n - 1);
    }
  }

  /** Every word the reader is given comes from `m`, at the address of the oldest outstanding read. */
  ghost predicate ServedFrom(c: Cfg, skip: bool, inputs: seq<R.Input>, m: Memory) {
    forall n :: 0 <= n < |inputs| ==>
      var s := R.Run(c, skip, inputs[..n]);
      R.Take(s, inputs[n]) ==> inputs[n].data == Load(m, s.q.dma[0])
  }

  ghost predicate WordsFrom(c: Cfg, words: seq<nat>, m: Memory) {
    forall k :: 0 <= k < |words| ==> words[k] == Load(m, Addr(c, k))
  }

  lemma {:induction false} ReadsMemory(c: Cfg, skip: bool, inputs: seq<R.Input>, m: Memory)
    requires R.Disciplined(c, skip, inputs) && ServedFrom(c, skip, inputs, m)
    ensures WordsFrom(c, R.Run(c, skip, inputs).past.words, m)
    decreases |inputs|
  {
    hide Addr, R.Disciplined, R.Step;
    if inputs != [] {
      var front, i := inputs[..|inputs| - 1], inputs[|inputs| - 1];
      R.DisciplinedPrefix(c, skip, inputs);
      ServedPrefix(c, skip, inputs, m);
      ReadsMemory(c, skip, front, m);
      R.RunInv(c, skip, front);
      StepReads(c, skip, R.Run(c, skip, front), i, m);
    }
  }

  lemma ServedPrefix(c: Cfg, skip: bool, inputs: seq<R.Input>, m: Memory)
    requires ServedFrom(c, skip, inputs, m) && inputs != []
    ensures ServedFrom(c, skip, inputs[..|inputs| - 1], m)
    ensures var s := R.Run(c, skip, inputs[..|inputs| - 1]);
            R.Take(s, inputs[|inputs| - 1]) ==> inputs[|inputs| - 1].data == Load(m, s.q.dma[0])
  {
    hide R.Step;
    var front := inputs[..|inputs| - 1];
    forall n | 0 <= n < |front|
      ensures var s := R.Run(c, skip, front[..n]);
              R.Take(s, front[n]) ==> front[n].data == Load(m, s.q.dma[0])
    {
      assert front[..n] == inputs[..n] && front[n] == inputs[n];
    }
  }

  lemma StepReads(c: Cfg, skip: bool, s: R.State, i: R.Input, m: Memory)
    requires R.FlowInv(c, s) && R.LogInv(c, s) && WordsFrom(c, s.past.words, m)
    requires R.Take(s, i) ==> i.data == Load(m, s.q.dma[0])
    ensures WordsFrom(c, R.Step(c, skip, s, i).past.words, m)
  {
    hide Addr, R.StepAddr, R.StepPat, R.StepErr, R.StepQueues, R.Mismatches, R.AddrInv, R.PatInv;
    if R.Take(s, i) { assert s.q.dma[0] == Addr(c, s.p.counter); }
  }

  // ---------------------------------------------------------------- agreement

  /** The reader expects what the writer writes, for every transfer of the run. */
  ghost predicate Agree(c: Cfg) {
    forall k :: 0 <= k < c.count ==> R.ReadWord(c, k) == Word(c, k)
  }

  /** All pattern words that the run uses are the same as the first. */
  ghost predicate OneWord(c: Cfg) {
    forall k :: 0 <= k < c.count ==> Read(c.datas, Index(c, k)) == Read(c.datas, 0)
  }

  /** The exact condition: in modulo mode the reader compares everything with pattern word 0. */
  lemma AgreeIff(c: Cfg)
    ensures Agree(c) <==> !c.modulo || OneWord(c)
  {
    hide Addr, IsSelected, RowIndex, Pow2, Read, And;
    if c.modulo {
      assert forall k :: 0 <= k < c.count ==>
               (R.ReadWord(c, k) == Word(c, k) <==> Read(c.datas, Index(c, k)) == Read(c.datas, 0));
    } else {
      assert forall k :: 0 <= k < c.count ==> R.ReadWord(c, k) == Word(c, k);
    }
  }

  /** The transfers whose word is no longer the one stored, in order, as error entries. */
  function Changed(c: Cfg, stored: Memory, now: Memory, n: nat): seq<R.Err>
    requires forall k :: 0 <= k < n ==> Load(now, Addr(c, k)) >= 0
  {
    if n == 0 then []
    else
      var a := Addr(c, n - 1);
      Changed(c, stored, now, n - 1)
      + if Load(now, a) != Load(stored, a) then [R.Err(a, Load(now, a), Load(stored, a))] else []
  }

  lemma {:induction false} MismatchesAreChanges(c: Cfg, words: seq<nat>, stored: Memory, now: Memory)
    requires WordsFrom(c, words, now) && |words| <= c.count && Agree(c)
    requires forall k :: 0 <= k < |words| ==> Load(stored, Addr(c, k)) == Word(c, k)
    ensures forall k :: 0 <= k < |words| ==> Load(now, Addr(c, k)) >= 0
    ensures R.Mismatches(c, words) == Changed(c, stored, now, |words|)
    decreases |words|
  {
    hide Addr, Word, R.ReadWord, Load;
    if words != [] {
      var k := |words| - 1;
      MismatchesAreChanges(c, words[..k], stored, now);
      assert R.ReadWord(c, k) == Word(c, k);
      assert words[k] == Load(now, Addr(c, k));
    }
  }

  /** A finished writer run followed by a finished reader run of the same configuration with pairwise
      distinct addresses: when the two agree on the pattern, the reader's errors are exactly the
      transfers whose word changed in between, in order, with the changed and the written word. */
  lemma WriteThenCheck(c: Cfg, fill: seq<W.Input>, check: seq<R.Input>, before: Memory, now: Memory)
    requires W.Run(c, fill).started && W.Run(c, fill).fsm == W.READY
    requires R.Disciplined(c, false, check) && ServedFrom(c, false, check, now)
    requires R.Run(c, false, check).past.started && R.Run(c, false, check).p.fsm == R.P_READY
    requires Distinct(c) && (c.modulo ==> OneWord(c))
    ensures forall k :: 0 <= k < c.count ==> Load(now, Addr(c, k)) >= 0
    ensures var s := R.Run(c, false, check);
            var stored := Store(before, W.Run(c, fill).sent);
            && s.past.base <= |s.past.log|
            && s.past.log[s.past.base..] == Changed(c, stored, now, c.count)
            && s.p.errors == |Changed(c, stored, now, c.count)|
  {
    hide Addr, Word, R.ReadWord, Load, R.Mismatches, Changed, W.Run, R.Run, R.Disciplined, ServedFrom, Store, Agree,
         Distinct, OneWord, R.InTransit;
    var s := R.Run(c, false, check);
    var stored := Store(before, W.Run(c, fill).sent);
    W.WritesPattern(c, fill);
    StoredWords(c, before, c.count);
    R.ErrorsConserved(c, check);
    ReadsMemory(c, false, check, now);
    AgreeIff(c);
    MismatchesAreChanges(c, s.past.words, stored, now);
  }

  /** Without agreement the check fails on memory that nobody touched: after a fill, an unchanged memory
      reads clean if and only if the reader is not in modulo mode or all used pattern words are equal. */
  lemma UnchangedIsCleanIff(c: Cfg, fill: seq<W.Input>, check: seq<R.Input>, before: Memory)
    requires W.Run(c, fill).started && W.Run(c, fill).fsm == W.READY
    requires R.Disciplined(c, false, check) && ServedFrom(c, false, check, Store(before, W.Run(c, fill).sent))
    requires R.Run(c, false, check).past.started && R.Run(c, false, check).p.fsm == R.P_READY
    requires Distinct(c)
    ensures R.Run(c, false, check).p.errors == 0 <==> !c.modulo || OneWord(c)
  {
    hide Addr, Word, R.ReadWord, Load, R.Mismatches, W.Run, R.Run, R.Disciplined, ServedFrom, Store, Agree,
         Distinct, OneWord, R.InTransit;
    var s := R.Run(c, false, check);
    var stored := Store(before, W.Run(c, fill).sent);
    W.WritesPattern(c, fill);
    StoredWords(c, before, c.count);
    R.ErrorsConserved(c, check);
    ReadsMemory(c, false, check, stored);
    AgreeIff(c);
    CleanIff(c, s.past.words, stored);
  }

  lemma CleanIff(c: Cfg, words: seq<nat>, stored: Memory)
    requires WordsFrom(c, words, stored) && |words| == c.count
    requires forall k :: 0 <= k < c.count ==> Load(stored, Addr(c, k)) == Word(c, k)
    ensures R.Mismatches(c, words) == [] <==> Agree(c)
  {
    hide Addr, Word, R.ReadWord, Load;
    NoneIff(c, words);
    assert forall k :: 0 <= k < |words| ==> words[k] == Word(c, k);
  }

  lemma {:induction false} NoneIff(c: Cfg, words: seq<nat>)
    ensures R.Mismatches(c, words) == [] <==> forall k :: 0 <= k < |words| ==> words[k] == R.ReadWord(c, k)
    decreases |words|
  {
    hide Addr, R.ReadWord;
    if words != [] { NoneIff(c, words[..|words| - 1]); }
  }
}
