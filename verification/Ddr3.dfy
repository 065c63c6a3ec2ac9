/** The DDR3 timing checker: incremental tables against rules over the whole history. */
module Ddr3 {
  import opened Dram

  datatype Timing = Timing(bank: BankTiming, rfc: nat, ccd: nat, rrd: nat, faw: nat)

  const BANKS: nat := 8

  function RankParameters(t: Timing, op: Op): seq<Parameter> {
    match op
    case RD => [Parameter(RD, Fin(t.ccd))]
    case ACT => [Parameter(ACT, Fin(t.rrd)), Parameter(REF, Inf)]
    case PRE => [Parameter(REF, Fin(t.bank.rp))]
    case REF => [Parameter(ACT, Fin(t.rfc)), Parameter(PRE, Fin(t.rfc)), Parameter(REF, Fin(t.rfc))]
  }

  // ---------------------------------------------------------------- the checker

  datatype RankState = RankState(next: Table, prevActs: seq<int>, banks: seq<Table>)

  function NewRank(): RankState {
    RankState(Table(Fin(0), Fin(0), Fin(0), Fin(0)), [], seq(BANKS, i => NewBank))
  }

  /** One call of `Rank.Execute`. A command that its bank rejects has already entered the deque. */
  function Step(t: Timing, st: RankState, c: Cmd): (r: (bool, RankState))
    requires c.bank < |st.banks|
    ensures |r.1.banks| == |st.banks|
  {
    if Before(c.tick, st.next.Get(c.op)) then (false, st)
    else if c.op == ACT && |st.prevActs| == 4 && c.tick - st.prevActs[0] < t.faw then (false, st)
    else
      var st1 := if c.op == ACT then st.(prevActs := Push(st.prevActs, c.tick)) else st;
      var bank := st.banks[c.bank];
      if Before(c.tick, bank.Get(c.op)) then (false, st1)
      else (true, st1.(next := Update(st.next, RankParameters(t, c.op), c.tick),
                       banks := st.banks[c.bank := Update(bank, BankParameters(t.bank, c.op), c.tick)]))
  }

  /** `Rank` with its dictionary, deque and banks updated in place. */
  class Rank {
    const timing: Timing
    const banks: seq<Bank>
    var nextTick: Table
    var prevActs: seq<int>

    ghost predicate Valid()
      reads this
    {
      && |banks| == BANKS
      && (forall i, k :: 0 <= i < k < |banks| ==> banks[i] != banks[k])
      && forall i :: 0 <= i < |banks| ==> banks[i].timing == timing.bank
    }

    ghost function State(): RankState
      reads this, banks
    {
      RankState(nextTick, prevActs, Tables(banks))
    }

    constructor (timing: Timing)
      ensures Valid() && this.timing == timing && State() == NewRank()
      ensures fresh(banks)
    {
      this.timing := timing;
      nextTick := Table(Fin(0), Fin(0), Fin(0), Fin(0));
      prevActs := [];
      var bs: seq<Bank> := [];
      for n := 0 to BANKS
        invariant |bs| == n && fresh(bs)
        invariant forall i, k :: 0 <= i < k < |bs| ==> bs[i] != bs[k]
        invariant forall i :: 0 <= i < |bs| ==> bs[i].timing == timing.bank && bs[i].nextTick == NewBank
      {
        var b := new Bank(timing.bank);
        bs := bs + [b];
      }
      banks := bs;
    }

    /** `Rank.Execute` */
    method Execute(c: Cmd) returns (ok: bool)
      requires Valid() && c.bank < BANKS
      modifies this, banks
      ensures Valid()
      ensures (ok, State()) == Step(timing, old(State()), c)
    {
      hide Update, Before;
      if Before(c.tick, nextTick.Get(c.op)) {
        return false;
      }
      if c.op == ACT {
        if |prevActs| == 4 && c.tick - prevActs[0] < timing.faw {
          return false;
        }
        prevActs := Push(prevActs, c.tick);
      }
      ghost var before := State().banks;
      ok := banks[c.bank].Execute(c.tick, c.op);
      assert State().banks == before[c.bank := banks[c.bank].nextTick];
      if !ok {
        assert State().banks == before;
        return;
      }
      nextTick := UpdateTable(nextTick, RankParameters(timing, c.op), c.tick);
      assert State().banks == before[c.bank := banks[c.bank].nextTick];
    }
  }

  /** Commands that address a bank of the rank. */
  ghost predicate Addressed(h: seq<Cmd>) {
    forall i :: 0 <= i < |h| ==> h[i].group == 0 && h[i].bank < BANKS
  }

  /** Checking a whole trace; the first rejected command ends it. */
  function Check(t: Timing, h: seq<Cmd>): (r: (bool, RankState))
    requires Addressed(h)
    ensures |r.1.banks| == BANKS
  {
    if h == [] then (true, NewRank())
    else
      var front := Check(t, h[..|h| - 1]);
      if front.0 then Step(t, front.1, h[|h| - 1]) else front
  }

  predicate Accepts(t: Timing, h: seq<Cmd>)
    requires Addressed(h)
  {
    Check(t, h).0
  }

  // ---------------------------------------------------------------- the rules

  /** The rank rules for command `c` after history `h`. REF asks only that the most recent activate or
      precharge of the rank was no activate, whatever its bank. */
  ghost predicate RankLegal(t: Timing, h: seq<Cmd>, c: Cmd) {
    match c.op
    case RD => Spaced(h, Any(RD), c.tick, t.ccd)
    case ACT =>
      && Spaced(h, Any(ACT), c.tick, t.rrd) && Spaced(h, Any(REF), c.tick, t.rfc)
      && FourActivates(Acts(h) + [c.tick], t.faw)
    case PRE => Spaced(h, Any(REF), c.tick, t.rfc)
    case REF =>
      && !Open(h, Any(ACT), Any(PRE))
      && Spaced(h, Any(PRE), c.tick, t.bank.rp) && Spaced(h, Any(REF), c.tick, t.rfc)
  }

  ghost predicate LegalNext(t: Timing, h: seq<Cmd>, c: Cmd) {
    RankLegal(t, h, c) && BankLegal(t.bank, h, c.tick, c.op, c.group, c.bank)
  }

  /** Every command is legal after all commands before it. */
  ghost predicate Legal(t: Timing, h: seq<Cmd>) {
    forall i :: 0 <= i < |h| ==> LegalNext(t, h[..i], h[i])
  }

  // ---------------------------------------------------------------- the checker decides the rules

  ghost function RankTable(t: Timing, h: seq<Cmd>): Table {
    Table(Fin(After(Last(h, Any(RD)), t.ccd)),
          Fin(Max(After(Last(h, Any(ACT)), t.rrd), After(Last(h, Any(REF)), t.rfc))),
          Fin(After(Last(h, Any(REF)), t.rfc)),
          if Open(h, Any(ACT), Any(PRE)) then Inf
          else Fin(Max(After(Last(h, Any(PRE)), t.bank.rp), After(Last(h, Any(REF)), t.rfc))))
  }

  /** The checker's whole state as a function of the accepted history. */
  ghost function StateOf(t: Timing, h: seq<Cmd>): (st: RankState)
    ensures |st.banks| == BANKS && forall b :: 0 <= b < BANKS ==> st.banks[b].rd.Inf? != st.banks[b].act.Inf?
  {
    RankState(RankTable(t, h), LastFour(Acts(h)), seq(BANKS, b requires 0 <= b < BANKS => BankTable(t.bank, h, 0, b)))
  }

  /** The rank's tables and deque decide the rank rules. */
  lemma RankDecides(t: Timing, h: seq<Cmd>, c: Cmd)
    requires Ordered(h + [c]) && FourActivates(Acts(h), t.faw)
    ensures RankLegal(t, h, c)
       <==> !Before(c.tick, RankTable(t, h).Get(c.op))
            && !(c.op == ACT && |LastFour(Acts(h))| == 4 && c.tick - LastFour(Acts(h))[0] < t.faw)
  {
    hide Last, Open, Spaced, Acts, FourActivates, LastFour, Ordered;
    OrderedSnoc(h, c);
    SpacedByLast(h, Any(RD), c.tick, t.ccd);
    SpacedByLast(h, Any(ACT), c.tick, t.rrd);
    SpacedByLast(h, Any(REF), c.tick, t.rfc);
    SpacedByLast(h, Any(PRE), c.tick, t.bank.rp);
    if c.op == ACT {
      ActsIncreasing(h + [c]);
      ActsSnoc(h, c);
      DequeDecides(Acts(h), c.tick, t.faw);
    }
  }

  lemma RankFollows(t: Timing, h: seq<Cmd>, c: Cmd)
    requires Ordered(h + [c]) && RankLegal(t, h, c)
    ensures Update(RankTable(t, h), RankParameters(t, c.op), c.tick) == RankTable(t, h + [c])
  {
    hide Last, Open, Update, Ordered, FourActivates, Acts, Spaced;
    OrderedSnoc(h, c);
    RankHistory(h, c);
    SpacedByLast(h, Any(REF), c.tick, t.rfc);
    var table, ps := RankTable(t, h), RankParameters(t, c.op);
    match c.op {
      case RD => UpdateOne(table, ps[0], c.tick);
      case ACT =>
        UpdateTwo(table, ps[0], ps[1], c.tick);
        UpdateOne(table, ps[0], c.tick);
        UpdateOne(Update(table, [ps[0]], c.tick), ps[1], c.tick);
      case PRE => UpdateOne(table, ps[0], c.tick);
      case REF =>
        UpdateThree(table, ps[0], ps[1], ps[2], c.tick);
        UpdateTwo(table, ps[0], ps[1], c.tick);
        UpdateOne(table, ps[0], c.tick);
        UpdateOne(Update(table, [ps[0]], c.tick), ps[1], c.tick);
        UpdateOne(Update(table, [ps[0], ps[1]], c.tick), ps[2], c.tick);
    }
  }

  lemma StepDecides(t: Timing, h: seq<Cmd>, c: Cmd)
    requires Ordered(h + [c]) && c.group == 0 && c.bank < BANKS && FourActivates(Acts(h), t.faw)
    ensures Step(t, StateOf(t, h), c).0 <==> LegalNext(t, h, c)
    ensures LegalNext(t, h, c) ==> Step(t, StateOf(t, h), c).1 == StateOf(t, h + [c])
    ensures LegalNext(t, h, c) ==> FourActivates(Acts(h + [c]), t.faw)
  {
    hide RankTable, BankTable, Before, Update, Ordered, RankLegal, BankLegal, Acts, LastFour, FourActivates;
    OrderedSnoc(h, c);
    RankDecides(t, h, c);
    BankDecides(t.bank, h, c.tick, c.op, 0, c.bank);
    if LegalNext(t, h, c) {
      RankFollows(t, h, c);
      BankFollows(t.bank, h, c);
      forall b | 0 <= b < BANKS && b != c.bank
        ensures BankTable(t.bank, h + [c], 0, b) == BankTable(t.bank, h, 0, b)
      {
        BankUntouched(t.bank, h, c, 0, b);
      }
      assert Step(t, StateOf(t, h), c).1.banks == StateOf(t, h + [c]).banks;
      ActsSnoc(h, c);
      PushLastFour(Acts(h), c.tick);
      assert Acts(h) + [] == Acts(h);
      WindowKept(t, h, c);
    }
  }

  lemma WindowKept(t: Timing, h: seq<Cmd>, c: Cmd)
    requires RankLegal(t, h, c) && FourActivates(Acts(h), t.faw)
    ensures FourActivates(Acts(h) + if c.op == ACT then [c.tick] else [], t.faw)
  {
    hide Acts, FourActivates, Spaced, Open;
    assert Acts(h) + [] == Acts(h);
  }

  lemma StateOfNothing(t: Timing)
    ensures StateOf(t, []) == NewRank() && FourActivates(Acts([]), t.faw)
  {
    forall b | 0 <= b < BANKS ensures BankTable(t.bank, [], 0, b) == NewBank { BankEmpty(t.bank, 0, b); }
    assert StateOf(t, []).banks == NewRank().banks;
  }

  /** The incremental checker accepts an ordered trace exactly when every command is legal over the
      full history; its state is then the one the history determines. */
  lemma {:induction false} AcceptsIffLegal(t: Timing, h: seq<Cmd>)
    requires Ordered(h) && Addressed(h)
    ensures Accepts(t, h) <==> Legal(t, h)
    ensures Accepts(t, h) ==> Check(t, h).1 == StateOf(t, h)
    ensures Accepts(t, h) ==> FourActivates(Acts(h), t.faw)
    decreases |h|
  {
    hide Step, StateOf, LegalNext, Acts, FourActivates, Ordered;
    if h == [] {
      StateOfNothing(t);
    } else {
      var front, c := h[..|h| - 1], h[|h| - 1];
      assert h == front + [c];
      OrderedSnoc(front, c);
      AcceptsIffLegal(t, front);
      LegalSnoc(t, front, c);
      if Accepts(t, front) {
        StepDecides(t, front, c);
      }
    }
  }

  lemma LegalSnoc(t: Timing, h: seq<Cmd>, c: Cmd)
    ensures Legal(t, h + [c]) <==> Legal(t, h) && LegalNext(t, h, c)
  {
    hide LegalNext;
    var h' := h + [c];
    assert h'[..|h|] == h && h'[|h|] == c;
    forall i | 0 <= i < |h| ensures h'[..i] == h[..i] && h'[i] == h[i] { }
    if Legal(t, h') {
      forall i | 0 <= i < |h| ensures LegalNext(t, h[..i], h[i]) { assert LegalNext(t, h'[..i], h'[i]); }
      assert LegalNext(t, h'[..|h|], h'[|h|]);
    }
  }

  /** In every accepted trace each bank has exactly one of RD and ACT blocked forever. */
  lemma OneOfReadAndActivate(t: Timing, h: seq<Cmd>, b: nat)
    requires Ordered(h) && Addressed(h) && Accepts(t, h) && b < BANKS
    ensures Check(t, h).1.banks[b].rd.Inf? != Check(t, h).1.banks[b].act.Inf?
  {
    hide Accepts, Check;
    AcceptsIffLegal(t, h);
  }

  /** In every accepted trace any window shorter than tFAW holds at most four activations. */
  lemma AtMostFourActivates(t: Timing, h: seq<Cmd>, lo: int)
    requires Ordered(h) && Addressed(h) && Accepts(t, h)
    ensures WindowCount(Acts(h), lo, t.faw) <= 4
  {
    hide Accepts, Acts, WindowCount;
    AcceptsIffLegal(t, h);
  }
}
