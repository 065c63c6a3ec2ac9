/** The DDR4 timing checker. Bank groups overwrite their next ticks, so the
    checker decides the spacing rules only when the long delays are at most twice
    the short ones. */
module Ddr4 {
  import opened Dram

  datatype Timing = Timing(bank: BankTiming, rfc: nat, ccdL: nat, ccdS: nat, rrdL: nat, rrdS: nat, faw: nat)

  const GROUPS: nat := 4
  const BANKS: nat := 4

  function RankParameters(t: Timing, op: Op): seq<Parameter> {
    match op
    case RD => []
    case ACT => [Parameter(REF, Inf)]
    case PRE => [Parameter(REF, Fin(t.bank.rp))]
    case REF => [Parameter(ACT, Fin(t.rfc)), Parameter(PRE, Fin(t.rfc)), Parameter(REF, Fin(t.rfc))]
  }

  // ---------------------------------------------------------------- the checker

  /** The `next_tick` dictionary of a bank group; other op codes default to 0. */
  datatype GroupTable = GroupTable(rd: int, act: int) {
    function Get(op: Op): int {
      if op == RD then rd else if op == ACT then act else 0
    }

    /** Overwrite, without taking a maximum. */
    function Put(op: Op, tick: int, forRd: nat, forAct: nat): GroupTable {
      if op == RD then this.(rd := tick + forRd)
      else if op == ACT then this.(act := tick + forAct)
      else this
    }
  }

  datatype GroupState = GroupState(next: GroupTable, banks: seq<Table>)

  datatype RankState = RankState(next: Table, prevActs: seq<int>, groups: seq<GroupState>)

  ghost predicate Shaped(st: RankState) {
    |st.groups| == GROUPS && forall g :: 0 <= g < GROUPS ==> |st.groups[g].banks| == BANKS
  }

  function NewRank(): RankState {
    RankState(Table(Fin(0), Fin(0), Fin(0), Fin(0)), [],
              seq(GROUPS, g => GroupState(GroupTable(0, 0), seq(BANKS, b => NewBank))))
  }

  /** The bank groups after an accepted command. */
  function NextGroup(t: Timing, st: GroupState, c: Cmd, g: nat): (r: GroupState)
    requires c.bank < |st.banks|
    ensures |r.banks| == |st.banks|
  {
    if g == c.group then
      GroupState(st.next.Put(c.op, c.tick, t.ccdL, t.rrdL),
                 st.banks[c.bank := Update(st.banks[c.bank], BankParameters(t.bank, c.op), c.tick)])
    else st.(next := st.next.Put(c.op, c.tick, t.ccdS, t.rrdS))
  }

  function NextGroups(t: Timing, groups: seq<GroupState>, c: Cmd): (r: seq<GroupState>)
    requires forall g :: 0 <= g < |groups| ==> c.bank < |groups[g].banks|
    ensures |r| == |groups| && forall g :: 0 <= g < |groups| ==> r[g] == NextGroup(t, groups[g], c, g)
  {
    seq(|groups|, g requires 0 <= g < |groups| => NextGroup(t, groups[g], c, g))
  }

  predicate GroupBlocks(st: GroupState, c: Cmd)
    requires c.bank < |st.banks|
  {
    c.tick < st.next.Get(c.op) || Before(c.tick, st.banks[c.bank].Get(c.op))
  }

  /** One call of `Rank.Execute`. */
  ghost function Step(t: Timing, st: RankState, c: Cmd): (r: (bool, RankState))
    requires Shaped(st) && c.group < GROUPS && c.bank < BANKS
    ensures Shaped(r.1)
  {
    if Before(c.tick, st.next.Get(c.op)) then (false, st)
    else if c.op == ACT && |st.prevActs| == 4 && c.tick - st.prevActs[0] < t.faw then (false, st)
    else
      var st1 := if c.op == ACT then st.(prevActs := Push(st.prevActs, c.tick)) else st;
      if GroupBlocks(st.groups[c.group], c) then (false, st1)
      else (true, st1.(next := Update(st.next, RankParameters(t, c.op), c.tick),
                       groups := NextGroups(t, st.groups, c)))
  }

  /** `BankGroup` updated in place; it owns the dictionaries of its banks. */
  class BankGroup {
    const timing: Timing
    var nextTick: GroupTable
    var banks: seq<Table>

    function State(): GroupState
      reads this
    {
      GroupState(nextTick, banks)
    }

    constructor (timing: Timing)
      ensures this.timing == timing && State() == GroupState(GroupTable(0, 0), seq(BANKS, b => NewBank))
    {
      this.timing := timing;
      nextTick, banks := GroupTable(0, 0), seq(BANKS, b => NewBank);
    }

    /** `BankGroup.Execute` */
    method Execute(c: Cmd) returns (ok: bool)
      requires c.bank < |banks|
      modifies this
      ensures ok == !GroupBlocks(old(State()), c)
      ensures State() == if ok then NextGroup(timing, old(State()), c, c.group) else old(State())
    {
      hide Update, Before;
      if c.tick < nextTick.Get(c.op) {
        return false;
      }
      var bank := new Bank(timing.bank);
      bank.nextTick := banks[c.bank];
      ok := bank.Execute(c.tick, c.op);
      if ok {
        banks := banks[c.bank := bank.nextTick];
        nextTick := nextTick.Put(c.op, c.tick, timing.ccdL, timing.rrdL);
      }
    }

    /** `BankGroup.Update`: a command went to another group. */
    method UpdateOther(c: Cmd)
      modifies this
      ensures State() == old(State()).(next := old(nextTick).Put(c.op, c.tick, timing.ccdS, timing.rrdS))
    {
      nextTick := nextTick.Put(c.op, c.tick, timing.ccdS, timing.rrdS);
    }
  }

  lemma OtherGroup(t: Timing, st: GroupState, c: Cmd, g: nat)
    requires c.bank < |st.banks| && g != c.group
    ensures NextGroup(t, st, c, g) == st.(next := st.next.Put(c.op, c.tick, t.ccdS, t.rrdS))
  {
  }

  /** The states of a list of bank groups. */
  function GroupStates(groups: seq<BankGroup>): (r: seq<GroupState>)
    reads groups
    ensures |r| == |groups| && forall i :: 0 <= i < |groups| ==> r[i] == groups[i].State()
  {
    if groups == [] then [] else GroupStates(groups[..|groups| - 1]) + [groups[|groups| - 1].State()]
  }

  /** `Rank` updated in place. */
  class Rank {
    const timing: Timing
    const groups: seq<BankGroup>
    var nextTick: Table
    var prevActs: seq<int>

    ghost predicate Valid()
      reads this
    {
      && |groups| == GROUPS
      && (forall i, k :: 0 <= i < k < |groups| ==> groups[i] != groups[k])
      && forall i :: 0 <= i < |groups| ==> groups[i].timing == timing
    }

    ghost function State(): RankState
      reads this, groups
    {
      RankState(nextTick, prevActs, GroupStates(groups))
    }

    constructor (timing: Timing)
      ensures Valid() && this.timing == timing && State() == NewRank()
    {
      this.timing := timing;
      nextTick := Table(Fin(0), Fin(0), Fin(0), Fin(0));
      prevActs := [];
      var gs: seq<BankGroup> := [];
      for n := 0 to GROUPS
        invariant |gs| == n && fresh(gs)
        invariant forall i, k :: 0 <= i < k < |gs| ==> gs[i] != gs[k]
        invariant forall i :: 0 <= i < |gs| ==> gs[i].timing == timing
        invariant forall i :: 0 <= i < |gs| ==> gs[i].State() == GroupState(GroupTable(0, 0), seq(BANKS, b => NewBank))
      {
        var g := new BankGroup(timing);
        gs := gs + [g];
      }
      groups := gs;
      new;
      assert GroupStates(groups) == NewRank().groups;
    }

    /** The part of `Rank.Execute` that concerns the bank groups. */
    method ExecuteGroups(c: Cmd) returns (ok: bool)
      requires Valid() && c.group < GROUPS && forall g :: 0 <= g < GROUPS ==> c.bank < |groups[g].banks|
      modifies groups
      ensures Valid()
      ensures ok == !GroupBlocks(old(GroupStates(groups))[c.group], c)
      ensures GroupStates(groups)
           == if ok then NextGroups(timing, old(GroupStates(groups)), c) else old(GroupStates(groups))
    {
      hide Update, Before, NextGroup, GroupBlocks, GroupTable.Put;
      ghost var before := GroupStates(groups);
      ok := groups[c.group].Execute(c);
      if ok {
        for i := 0 to GROUPS
          invariant forall g :: 0 <= g < GROUPS ==>
                      groups[g].State()
                      == if g == c.group || g < i then NextGroup(timing, before[g], c, g) else before[g]
        {
          if i != c.group {
            OtherGroup(timing, before[i], c, i);
            groups[i].UpdateOther(c);
          }
        }
        assert GroupStates(groups) == NextGroups(timing, before, c);
      } else {
        assert GroupStates(groups) == before;
      }
    }

    /** `Rank.Execute` */
    method Execute(c: Cmd) returns (ok: bool)
      requires Valid() && c.group < GROUPS && c.bank < BANKS && Shaped(State())
      modifies this, groups
      ensures Valid()
      ensures (ok, State()) == Step(timing, old(State()), c)
    {
      hide Update, Before, NextGroup, NextGroups, GroupBlocks, GroupStates;
      if Before(c.tick, nextTick.Get(c.op)) {
        return false;
      }
      if c.op == ACT {
        if |prevActs| == 4 && c.tick - prevActs[0] < timing.faw {
          return false;
        }
        prevActs := Push(prevActs, c.tick);
      }
      ok := ExecuteGroups(c);
      if ok {
        nextTick := UpdateTable(nextTick, RankParameters(timing, c.op), c.tick);
      }
    }
  }

  // ---------------------------------------------------------------- traces

  ghost predicate Addressed(h: seq<Cmd>) {
    forall i :: 0 <= i < |h| ==> h[i].group < GROUPS && h[i].bank < BANKS
  }

  ghost function Check(t: Timing, h: seq<Cmd>): (r: (bool, RankState))
    requires Addressed(h)
    ensures Shaped(r.1)
  {
    if h == [] then (true, NewRank())
    else
      var front := Check(t, h[..|h| - 1]);
      if front.0 then Step(t, front.1, h[|h| - 1]) else front
  }

  ghost predicate Accepts(t: Timing, h: seq<Cmd>)
    requires Addressed(h)
  {
    Check(t, h).0
  }

  // ---------------------------------------------------------------- the rules

  /** The rank rules: refresh and the four-activate window. */
  ghost predicate RankLegal(t: Timing, h: seq<Cmd>, c: Cmd) {
    match c.op
    case RD => true
    case ACT => Spaced(h, Any(REF), c.tick, t.rfc) && FourActivates(Acts(h) + [c.tick], t.faw)
    case PRE => Spaced(h, Any(REF), c.tick, t.rfc)
    case REF =>
      && !Open(h, Any(ACT), Any(PRE))
      && Spaced(h, Any(PRE), c.tick, t.bank.rp) && Spaced(h, Any(REF), c.tick, t.rfc)
  }

  /** The spacing rule for commands `op`: long within a group, short between groups. */
  ghost predicate LongShort(h: seq<Cmd>, op: Op, g: nat, t: int, long: nat, short: nat) {
    Spaced(h, InGroup(op, g), t, long) && Spaced(h, OutGroup(op, g), t, short)
  }

  ghost predicate GroupLegal(t: Timing, h: seq<Cmd>, c: Cmd) {
    match c.op
    case RD => LongShort(h, RD, c.group, c.tick, t.ccdL, t.ccdS)
    case ACT => LongShort(h, ACT, c.group, c.tick, t.rrdL, t.rrdS)
    case _ => true
  }

  ghost predicate LegalNext(t: Timing, h: seq<Cmd>, c: Cmd) {
    RankLegal(t, h, c) && GroupLegal(t, h, c) && BankLegal(t.bank, h, c.tick, c.op, c.group, c.bank)
  }

  ghost predicate Legal(t: Timing, h: seq<Cmd>) {
    forall i :: 0 <= i < |h| ==> LegalNext(t, h[..i], h[i])
  }

  // ---------------------------------------------------------------- what the code checks

  /** What overwriting leaves in a group: the delay after the last command of its kind in the rank. */
  ghost function GroupNext(h: seq<Cmd>, op: Op, g: nat, long: nat, short: nat): int {
    var any := Last(h, Any(op));
    After(any, if any == Last(h, InGroup(op, g)) then long else short)
  }

  /** The group rule as coded: only the last command of the kind counts. */
  ghost predicate GroupCoded(t: Timing, h: seq<Cmd>, c: Cmd) {
    match c.op
    case RD => c.tick >= GroupNext(h, RD, c.group, t.ccdL, t.ccdS)
    case ACT => c.tick >= GroupNext(h, ACT, c.group, t.rrdL, t.rrdS)
    case _ => true
  }

  ghost predicate CodedNext(t: Timing, h: seq<Cmd>, c: Cmd) {
    RankLegal(t, h, c) && GroupCoded(t, h, c) && BankLegal(t.bank, h, c.tick, c.op, c.group, c.bank)
  }

  ghost predicate Coded(t: Timing, h: seq<Cmd>) {
    forall i :: 0 <= i < |h| ==> CodedNext(t, h[..i], h[i])
  }

  ghost function RankTable(t: Timing, h: seq<Cmd>): Table {
    Table(Fin(0), Fin(After(Last(h, Any(REF)), t.rfc)), Fin(After(Last(h, Any(REF)), t.rfc)),
          if Open(h, Any(ACT), Any(PRE)) then Inf
          else Fin(Max(After(Last(h, Any(PRE)), t.bank.rp), After(Last(h, Any(REF)), t.rfc))))
  }

  ghost function GroupOf(t: Timing, h: seq<Cmd>, g: nat): GroupState {
    GroupState(GroupTable(GroupNext(h, RD, g, t.ccdL, t.ccdS), GroupNext(h, ACT, g, t.rrdL, t.rrdS)),
               seq(BANKS, b requires 0 <= b < BANKS => BankTable(t.bank, h, g, b)))
  }

  ghost function StateOf(t: Timing, h: seq<Cmd>): (st: RankState)
    ensures Shaped(st)
  {
    RankState(RankTable(t, h), LastFour(Acts(h)), seq(GROUPS, g requires 0 <= g < GROUPS => GroupOf(t, h, g)))
  }

  lemma RankDecides(t: Timing, h: seq<Cmd>, c: Cmd)
    requires Ordered(h + [c]) && FourActivates(Acts(h), t.faw)
    ensures RankLegal(t, h, c)
       <==> !Before(c.tick, RankTable(t, h).Get(c.op))
            && !(c.op == ACT && |LastFour(Acts(h))| == 4 && c.tick - LastFour(Acts(h))[0] < t.faw)
  {
    hide Last, Open, Spaced, Acts, FourActivates, LastFour, Ordered;
    OrderedSnoc(h, c);
    SpacedByLast(h, Any(REF), c.tick, t.rfc);
    SpacedByLast(h, Any(PRE), c.tick, t.bank.rp);
    if c.op == ACT {
      ActsIncreasing(h + [c]);
      ActsSnoc(h, c);
      DequeDecides(Acts(h), c.tick, t.faw);
    }
  }

  lemma RankFollows(t: Timing, h: seq<Cmd>, c: Cmd)
    requires Ordered(h + [c]) && RankLegal(t, h, c)
    ensures Update(RankTable(t, h), RankParameters(t, c.op), c.tick) == RankTable(t, h + [c])
  {
    hide Last, Open, Update, Ordered, FourActivates, Acts, Spaced;
    OrderedSnoc(h, c);
    RankHistory(h, c);
    SpacedByLast(h, Any(REF), c.tick, t.rfc);
    var table, ps := RankTable(t, h), RankParameters(t, c.op);
    match c.op {
      case RD => UpdateNone(table, c.tick);
      case ACT => UpdateOne(table, ps[0], c.tick);
      case PRE => UpdateOne(table, ps[0], c.tick);
      case REF =>
        UpdateThree(table, ps[0], ps[1], ps[2], c.tick);
        UpdateTwo(table, ps[0], ps[1], c.tick);
        UpdateOne(table, ps[0], c.tick);
        UpdateOne(Update(table, [ps[0]], c.tick), ps[1], c.tick);
        UpdateOne(Update(table, [ps[0], ps[1]], c.tick), ps[2], c.tick);
    }
  }

  /** Overwriting keeps exactly the delay after the last command of the kind. */
  lemma GroupNextSnoc(h: seq<Cmd>, c: Cmd, op: Op, g: nat, long: nat, short: nat)
    requires Ordered(h + [c])
    ensures GroupNext(h + [c], op, g, long, short)
         == if c.op != op then GroupNext(h, op, g, long, short)
            else c.tick + if c.group == g then long else short
  {
    hide Last, Ordered;
    OrderedSnoc(h, c);
    LastSnoc(h, c, Any(op));
    LastSnoc(h, c, InGroup(op, g));
    LastBound(h, InGroup(op, g), c.tick);
  }

  lemma GroupFollows(t: Timing, h: seq<Cmd>, c: Cmd, g: nat)
    requires Ordered(h + [c]) && c.group < GROUPS && c.bank < BANKS && g < GROUPS
    requires BankLegal(t.bank, h, c.tick, c.op, c.group, c.bank)
    ensures NextGroup(t, GroupOf(t, h, g), c, g) == GroupOf(t, h + [c], g)
  {
    hide Last, Ordered, GroupNext, BankTable, Update, BankLegal;
    GroupNextSnoc(h, c, RD, g, t.ccdL, t.ccdS);
    GroupNextSnoc(h, c, ACT, g, t.rrdL, t.rrdS);
    forall b | 0 <= b < BANKS && !(g == c.group && b == c.bank)
      ensures BankTable(t.bank, h + [c], g, b) == BankTable(t.bank, h, g, b)
    {
      BankUntouched(t.bank, h, c, g, b);
    }
    if g == c.group { BankFollows(t.bank, h, c); }
    assert NextGroup(t, GroupOf(t, h, g), c, g).banks == GroupOf(t, h + [c], g).banks;
  }

  lemma StepDecides(t: Timing, h: seq<Cmd>, c: Cmd)
    requires Ordered(h + [c]) && c.group < GROUPS && c.bank < BANKS && FourActivates(Acts(h), t.faw)
    ensures Step(t, StateOf(t, h), c).0 <==> CodedNext(t, h, c)
    ensures CodedNext(t, h, c) ==> Step(t, StateOf(t, h), c).1 == StateOf(t, h + [c])
    ensures CodedNext(t, h, c) ==> FourActivates(Acts(h + [c]), t.faw)
  {
    hide RankTable, BankTable, Before, Update, Ordered, RankLegal, BankLegal, Acts, LastFour, FourActivates,
         GroupNext, NextGroup;
    OrderedSnoc(h, c);
    RankDecides(t, h, c);
    BankDecides(t.bank, h, c.tick, c.op, c.group, c.bank);
    if CodedNext(t, h, c) {
      RankFollows(t, h, c);
      forall g | 0 <= g < GROUPS ensures NextGroup(t, GroupOf(t, h, g), c, g) == GroupOf(t, h + [c], g) {
        GroupFollows(t, h, c, g);
      }
      assert Step(t, StateOf(t, h), c).1.groups == StateOf(t, h + [c]).groups;
      ActsSnoc(h, c);
      PushLastFour(Acts(h), c.tick);
      assert Acts(h) + [] == Acts(h);
      WindowKept(t, h, c);
    }
  }

  lemma WindowKept(t: Timing, h: seq<Cmd>, c: Cmd)
    requires RankLegal(t, h, c) && FourActivates(Acts(h), t.faw)
    ensures FourActivates(Acts(h) + if c.op == ACT then [c.tick] else [], t.faw)
  {
    hide Acts, FourActivates, Spaced, Open;
    assert Acts(h) + [] == Acts(h);
  }

  lemma StateOfNothing(t: Timing)
    ensures StateOf(t, []) == NewRank() && FourActivates(Acts([]), t.faw)
  {
    forall g | 0 <= g < GROUPS ensures GroupOf(t, [], g) == NewRank().groups[g] {
      forall b | 0 <= b < BANKS ensures BankTable(t.bank, [], g, b) == NewBank { BankEmpty(t.bank, g, b); }
      assert GroupOf(t, [], g).banks == NewRank().groups[g].banks;
    }
    assert StateOf(t, []).groups == NewRank().groups;
  }

  /** For all timings: the checker accepts a trace exactly when every command meets the coded rules. */
  lemma {:induction false} AcceptsIffCoded(t: Timing, h: seq<Cmd>)
    requires Ordered(h) && Addressed(h)
    ensures Accepts(t, h) <==> Coded(t, h)
    ensures Accepts(t, h) ==> Check(t, h).1 == StateOf(t, h)
    ensures Accepts(t, h) ==> FourActivates(Acts(h), t.faw)
    decreases |h|
  {
    hide Step, StateOf, CodedNext, Acts, FourActivates, Ordered;
    if h == [] {
      StateOfNothing(t);
    } else {
      var front, c := h[..|h| - 1], h[|h| - 1];
      assert h == front + [c];
      OrderedSnoc(front, c);
      AcceptsIffCoded(t, front);
      CodedSnoc(t, front, c);
      if Accepts(t, front) {
        StepDecides(t, front, c);
      }
    }
  }

  lemma CodedSnoc(t: Timing, h: seq<Cmd>, c: Cmd)
    ensures Coded(t, h + [c]) <==> Coded(t, h) && CodedNext(t, h, c)
  {
    hide CodedNext;
    var h' := h + [c];
    assert h'[..|h|] == h && h'[|h|] == c;
    forall i | 0 <= i < |h| ensures h'[..i] == h[..i] && h'[i] == h[i] { }
    if Coded(t, h') {
      forall i | 0 <= i < |h| ensures CodedNext(t, h[..i], h[i]) { assert CodedNext(t, h'[..i], h'[i]); }
      assert CodedNext(t, h'[..|h|], h'[|h|]);
    }
  }

  lemma LegalSnoc(t: Timing, h: seq<Cmd>, c: Cmd)
    ensures Legal(t, h + [c]) <==> Legal(t, h) && LegalNext(t, h, c)
  {
    hide LegalNext;
    var h' := h + [c];
    assert h'[..|h|] == h && h'[|h|] == c;
    forall i | 0 <= i < |h| ensures h'[..i] == h[..i] && h'[i] == h[i] { }
    if Legal(t, h') {
      forall i | 0 <= i < |h| ensures LegalNext(t, h[..i], h[i]) { assert LegalNext(t, h'[..i], h'[i]); }
      assert LegalNext(t, h'[..|h|], h'[|h|]);
    }
  }

  /** In every accepted trace any window shorter than tFAW holds at most four activations. */
  lemma AtMostFourActivates(t: Timing, h: seq<Cmd>, lo: int)
    requires Ordered(h) && Addressed(h) && Accepts(t, h)
    ensures WindowCount(Acts(h), lo, t.faw) <= 4
  {
    hide Accepts, Acts, WindowCount;
    AcceptsIffCoded(t, h);
  }

  // ---------------------------------------------------------------- when the code meets the rules

  /** Commands `op` to different groups are at least `gap` apart, whatever lies between them. */
  ghost predicate Cross(h: seq<Cmd>, op: Op, gap: nat) {
    forall i, k :: 0 <= i < k < |h| && h[i].op == op && h[k].op == op && h[i].group != h[k].group
                   ==> h[k].tick >= h[i].tick + gap
  }

  lemma LegalCross(t: Timing, h: seq<Cmd>)
    requires Legal(t, h)
    ensures Cross(h, RD, t.ccdS) && Cross(h, ACT, t.rrdS)
  {
    hide RankLegal, BankLegal;
    forall i, k | 0 <= i < k < |h| && h[i].op == h[k].op && h[i].group != h[k].group
                  && (h[k].op == RD || h[k].op == ACT)
      ensures h[k].tick >= h[i].tick + if h[k].op == RD then t.ccdS else t.rrdS
    {
      assert LegalNext(t, h[..k], h[k]);
      assert Match(OutGroup(h[k].op, h[k].group), h[..k][i]);
    }
  }

  lemma {:induction false} LastWitness(h: seq<Cmd>, s: Sel) returns (i: int)
    requires Last(h, s).At?
    ensures 0 <= i < |h| && Match(s, h[i]) && h[i].tick == Last(h, s).tick
    decreases |h|
  {
    if Match(s, h[|h| - 1]) {
      i := |h| - 1;
    } else {
      i := LastWitness(h[..|h| - 1], s);
    }
  }

  /** The last command of a kind is the later of the last inside and the last outside a group. */
  lemma {:induction false} LastSplit(h: seq<Cmd>, op: Op, g: nat)
    requires Ordered(h)
    ensures var any, inside, outside := Last(h, Any(op)), Last(h, InGroup(op, g)), Last(h, OutGroup(op, g));
            && (any.Never? <==> inside.Never? && outside.Never?)
            && (any.At? ==> any == inside || any == outside)
            && (inside.At? ==> inside.tick <= any.tick)
            && (outside.At? ==> outside.tick <= any.tick)
            && (inside.At? && outside.At? ==> inside.tick != outside.tick)
    decreases |h|
  {
    if h != [] {
      var front, c := h[..|h| - 1], h[|h| - 1];
      LastSplit(front, op, g);
      LastBound(front, Any(op), c.tick);
      LastBound(front, InGroup(op, g), c.tick);
      LastBound(front, OutGroup(op, g), c.tick);
    }
  }

  /** Looking only at the last command of the kind is enough if the long delay is at most twice the short. */
  lemma LastIsEnough(h: seq<Cmd>, op: Op, g: nat, t: int, long: nat, short: nat)
    requires Ordered(h) && t >= 0 && (forall i :: 0 <= i < |h| ==> h[i].tick < t)
    requires Cross(h, op, short) && long <= 2 * short
    ensures LongShort(h, op, g, t, long, short) <==> t >= GroupNext(h, op, g, long, short)
  {
    hide Last, Spaced, Ordered;
    var inside, outside := Last(h, InGroup(op, g)), Last(h, OutGroup(op, g));
    LastSplit(h, op, g);
    LastBound(h, Any(op), t);
    SpacedByLast(h, InGroup(op, g), t, long);
    SpacedByLast(h, OutGroup(op, g), t, short);
    if inside.At? && outside.At? {
      var i := LastWitness(h, InGroup(op, g));
      var k := LastWitness(h, OutGroup(op, g));
      assert inside.tick < outside.tick ==> outside.tick >= inside.tick + short by { TickOrder(h, i, k); }
      assert outside.tick < inside.tick ==> inside.tick >= outside.tick + short by { TickOrder(h, k, i); }
    }
  }

  lemma TickOrder(h: seq<Cmd>, i: int, k: int)
    requires Ordered(h) && 0 <= i < |h| && 0 <= k < |h|
    ensures h[i].tick < h[k].tick ==> i < k
  {
  }

  /** Where the long delays are at most twice the short ones, the checker decides the rules: same-group
      pairs of reads and of activates meet the long spacing, cross-group pairs the short one. */
  lemma {:induction false} CodedIffLegal(t: Timing, h: seq<Cmd>)
    requires Ordered(h) && t.ccdL <= 2 * t.ccdS && t.rrdL <= 2 * t.rrdS
    ensures Coded(t, h) <==> Legal(t, h)
    decreases |h|
  {
    hide RankLegal, BankLegal, Ordered, Coded, Legal, GroupNext, LongShort, Cross;
    if h == [] {
      BothEmpty(t);
    } else {
      var front, c := h[..|h| - 1], h[|h| - 1];
      assert h == front + [c];
      OrderedSnoc(front, c);
      CodedIffLegal(t, front);
      CodedSnoc(t, front, c);
      LegalSnoc(t, front, c);
      if Legal(t, front) {
        LegalCross(t, front);
        if c.op == RD { LastIsEnough(front, RD, c.group, c.tick, t.ccdL, t.ccdS); }
        if c.op == ACT { LastIsEnough(front, ACT, c.group, c.tick, t.rrdL, t.rrdS); }
      }
    }
  }

  lemma BothEmpty(t: Timing)
    ensures Coded(t, []) && Legal(t, [])
  {
  }

  // ---------------------------------------------------------------- and when it does not

  lemma FewActivates(acts: seq<int>, faw: nat)
    requires |acts| <= 4
    ensures FourActivates(acts, faw)
  {
    forall lo ensures WindowCount(acts, lo, faw) <= 4 { WindowExtremes(acts, lo, faw); }
  }

  /** Activate group 0, group 1, group 0 again: the overwritten entry forgets the first. */
  lemma ActivateEscape(t: Timing) returns (h: seq<Cmd>)
    requires t.rrdS > 0 && t.rrdL > 2 * t.rrdS
    ensures Ordered(h) && Addressed(h) && Coded(t, h) && !Legal(t, h)
  {
    hide CodedNext, GroupNext, Coded, Legal;
    var s := t.rrdS;
    var a, b, c := Cmd(0, ACT, 0, 0), Cmd(s, ACT, 1, 0), Cmd(2 * s, ACT, 0, 1);
    h := [a, b, c];
    NextAfter([], a, ACT, t.rrdL, s);
    NextAfter([a], b, ACT, t.rrdL, s);
    assert [] + [a] == [a] && [a] + [b] == [a, b];
    FreshActivate(t, [], a);
    FreshActivate(t, [a], b);
    FreshActivate(t, [a, b], c);
    CodedThree(t, a, b, c);
    assert h[..2] == [a, b] && h[2] == c;
    TooClose(t, h, 2, 0);
  }

  /** Two commands of the same kind and group closer than the long delay make a trace illegal. */
  lemma TooClose(t: Timing, h: seq<Cmd>, k: nat, i: nat)
    requires i < k < |h| && h[i].op == h[k].op && h[i].group == h[k].group && (h[k].op == RD || h[k].op == ACT)
    requires h[k].tick < h[i].tick + if h[k].op == RD then t.ccdL else t.rrdL
    ensures !Legal(t, h)
  {
    hide RankLegal, BankLegal;
    assert Match(InGroup(h[k].op, h[k].group), h[..k][i]);
    assert !LegalNext(t, h[..k], h[k]);
  }

  /** `GroupNext` of every group after one more command. */
  lemma NextAfter(h: seq<Cmd>, c: Cmd, op: Op, long: nat, short: nat)
    requires Ordered(h + [c])
    ensures GroupNext([], op, 0, long, short) == 0 && GroupNext([], op, 1, long, short) == 0
    ensures c.op != op ==> GroupNext(h + [c], op, 0, long, short) == GroupNext(h, op, 0, long, short)
    ensures c.op != op ==> GroupNext(h + [c], op, 1, long, short) == GroupNext(h, op, 1, long, short)
    ensures c.op == op ==> GroupNext(h + [c], op, 0, long, short) == c.tick + if c.group == 0 then long else short
    ensures c.op == op ==> GroupNext(h + [c], op, 1, long, short) == c.tick + if c.group == 1 then long else short
  {
    GroupNextSnoc(h, c, op, 0, long, short);
    GroupNextSnoc(h, c, op, 1, long, short);
  }

  lemma CodedThree(t: Timing, a: Cmd, b: Cmd, c: Cmd)
    requires CodedNext(t, [], a) && CodedNext(t, [a], b) && CodedNext(t, [a, b], c)
    ensures Coded(t, [a, b, c])
  {
    hide CodedNext;
    BothEmpty(t);
    CodedSnoc(t, [], a);
    CodedSnoc(t, [a], b);
    CodedSnoc(t, [a, b], c);
    assert [] + [a] == [a] && [a] + [b] == [a, b] && [a, b] + [c] == [a, b, c];
  }

  /** An activate of a bank not used before, after at most three activates of other banks. */
  lemma FreshActivate(t: Timing, h: seq<Cmd>, c: Cmd)
    requires |h| <= 2 && c.op == ACT && GroupCoded(t, h, c)
    requires forall i :: 0 <= i < |h| ==> h[i].op == ACT && (h[i].group != c.group || h[i].bank != c.bank)
    ensures CodedNext(t, h, c)
  {
    hide GroupCoded, FourActivates;
    ActsShort(h);
    FewActivates(Acts(h) + [c.tick], t.faw);
  }

  lemma {:induction false} ActsShort(h: seq<Cmd>)
    ensures |Acts(h)| <= |h|
  {
    if h != [] { ActsShort(h[..|h| - 1]); }
  }

  /** Read group 0, group 1, group 0 again. */
  lemma ReadEscape(t: Timing) returns (h: seq<Cmd>)
    requires t.rrdS > 0 && t.ccdS > 0 && t.ccdL > 2 * t.ccdS
    ensures Ordered(h) && Addressed(h) && Coded(t, h) && !Legal(t, h)
  {
    hide CodedNext, GroupNext, Coded, Legal, Last;
    var s, r := t.ccdS, t.rrdS + t.bank.rcd + 1;
    var a, b := Cmd(0, ACT, 0, 0), Cmd(t.rrdS, ACT, 1, 0);
    var c, d, e := Cmd(r, RD, 0, 0), Cmd(r + s, RD, 1, 0), Cmd(r + 2 * s, RD, 0, 0);
    TwoOpen(t, a, b);
    ThreeReads(t, a, b, c, d, e);
    h := [a, b, c, d, e];
    TooClose(t, h, 4, 2);
  }

  lemma OrderedPair(a: Cmd, b: Cmd)
    requires 0 <= a.tick < b.tick
    ensures Ordered([a]) && Ordered([a, b])
  {
  }

  lemma TwoOpen(t: Timing, a: Cmd, b: Cmd)
    requires a == Cmd(0, ACT, 0, 0) && b == Cmd(t.rrdS, ACT, 1, 0) && t.rrdS > 0
    ensures Coded(t, [a, b]) && GroupNext([a, b], RD, 0, t.ccdL, t.ccdS) == 0
  {
    hide CodedNext, GroupNext, Coded, Match, Last, RankLegal, BankLegal, Acts, FourActivates, Ordered;
    assert [] + [a] == [a] && [a] + [b] == [a, b];
    OrderedPair(a, b);
    NextAfter([], a, ACT, t.rrdL, t.rrdS);
    NextAfter([], a, RD, t.ccdL, t.ccdS);
    NextAfter([a], b, RD, t.ccdL, t.ccdS);
    FreshActivate(t, [], a);
    FreshActivate(t, [a], b);
    BothEmpty(t);
    CodedSnoc(t, [], a);
    CodedSnoc(t, [a], b);
  }

  lemma ThreeReads(t: Timing, a: Cmd, b: Cmd, c: Cmd, d: Cmd, e: Cmd)
    requires Coded(t, [a, b]) && GroupNext([a, b], RD, 0, t.ccdL, t.ccdS) == 0
    requires a == Cmd(0, ACT, 0, 0) && b == Cmd(t.rrdS, ACT, 1, 0) && Ordered([a, b, c, d, e])
    requires c.op == RD && c.group == 0 && c.bank == 0 && c.tick >= t.rrdS + t.bank.rcd
    requires d == Cmd(c.tick + t.ccdS, RD, 1, 0) && e == Cmd(d.tick + t.ccdS, RD, 0, 0)
    ensures Coded(t, [a, b, c, d, e])
  {
    hide CodedNext, GroupNext, Coded, Ordered;
    assert [a, b] + [c] == [a, b, c] && [a, b, c] + [d] == [a, b, c, d] && [a, b, c, d] + [e] == [a, b, c, d, e];
    OrderedSnoc([a, b, c, d], e);
    OrderedSnoc([a, b, c], d);
    NextAfter([a, b], c, RD, t.ccdL, t.ccdS);
    NextAfter([a, b, c], d, RD, t.ccdL, t.ccdS);
    OpenRead(t, [a, b], c, 0);
    OpenRead(t, [a, b, c], d, 1);
    OpenRead(t, [a, b, c, d], e, 0);
    CodedSnoc(t, [a, b], c);
    CodedSnoc(t, [a, b, c], d);
    CodedSnoc(t, [a, b, c, d], e);
  }

  /** A read of a bank that was activated long enough ago and never precharged. */
  lemma OpenRead(t: Timing, h: seq<Cmd>, c: Cmd, i: nat)
    requires c.op == RD && GroupCoded(t, h, c) && i < |h| && Match(InBank(ACT, c.group, c.bank), h[i])
    requires forall k :: 0 <= k < |h| ==> h[k].op != PRE
    requires forall k :: 0 <= k < |h| && h[k].op == ACT ==> c.tick >= h[k].tick + t.bank.rcd
    ensures CodedNext(t, h, c)
  {
    hide GroupCoded;
    assert forall k :: i < k < |h| ==> !Match(InBank(PRE, c.group, c.bank), h[k]);
  }

  /** The exact condition: the checker agrees with the spacing rules on all traces if and only if
      both long delays are at most twice their short ones. */
  lemma DecidesRulesIff(t: Timing)
    requires t.ccdS > 0 && t.rrdS > 0
    ensures (forall h :: Ordered(h) && Addressed(h) ==> (Accepts(t, h) <==> Legal(t, h)))
       <==> t.ccdL <= 2 * t.ccdS && t.rrdL <= 2 * t.rrdS
  {
    hide Ordered, Addressed, Accepts, Legal, Coded;
    if t.ccdL <= 2 * t.ccdS && t.rrdL <= 2 * t.rrdS {
      forall h | Ordered(h) && Addressed(h) ensures Accepts(t, h) <==> Legal(t, h) {
        AcceptsIffCoded(t, h);
        CodedIffLegal(t, h);
      }
    } else {
      var h;
      if t.rrdL > 2 * t.rrdS {
        h := ActivateEscape(t);
      } else {
        h := ReadEscape(t);
      }
      AcceptsIffCoded(t, h);
    }
  }
}
