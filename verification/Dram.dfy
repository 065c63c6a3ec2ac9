/** What the DDR3 and DDR4 timing checkers share: command histories, tables of next
    permitted ticks, the per-bank rules and the four-activate window. */
module Dram {

  datatype Op = RD | ACT | PRE | REF

  /** A command on the bus; DDR3 uses bank group 0 throughout. */
  datatype Cmd = Cmd(tick: int, op: Op, group: nat, bank: nat)

  // ---------------------------------------------------------------- histories

  /** Commands in order of strictly increasing, non-negative ticks. */
  ghost predicate Ordered(h: seq<Cmd>) {
    && (forall i :: 0 <= i < |h| ==> h[i].tick >= 0)
    && forall i, k :: 0 <= i < k < |h| ==> h[i].tick < h[k].tick
  }

  /** Which earlier commands a rule looks back at. */
  datatype Sel = Any(op: Op) | InGroup(op: Op, group: nat) | OutGroup(op: Op, group: nat)
               | InBank(op: Op, group: nat, bank: nat)

  predicate Match(s: Sel, c: Cmd) {
    c.op == s.op &&
    match s
    case Any(_) => true
    case InGroup(_, group) => c.group == group
    case OutGroup(_, group) => c.group != group
    case InBank(_, group, bank) => c.group == group && c.bank == bank
  }

  /** The rule of a minimum distance: `t` is at least `gap` ticks after every selected command. */
  ghost predicate Spaced(h: seq<Cmd>, s: Sel, t: int, gap: nat) {
    forall i :: 0 <= i < |h| && Match(s, h[i]) ==> t >= h[i].tick + gap
  }

  /** The last selected activation has not been followed by a selected precharge. */
  ghost predicate Open(h: seq<Cmd>, act: Sel, pre: Sel) {
    exists i :: 0 <= i < |h| && Match(act, h[i]) && forall k :: i < k < |h| ==> !Match(pre, h[k])
  }

  datatype Maybe = Never | At(tick: int)

  function Last(h: seq<Cmd>, s: Sel): Maybe {
    if h == [] then Never
    else if Match(s, h[|h| - 1]) then At(h[|h| - 1].tick)
    else Last(h[..|h| - 1], s)
  }

  /** Earliest tick that is `gap` after the last selected command. */
  function After(m: Maybe, gap: nat): int {
    if m.Never? then 0 else m.tick + gap
  }

  function Max(a: int, b: int): int {
    if a >= b then a else b
  }

  lemma LastSnoc(h: seq<Cmd>, c: Cmd, s: Sel)
    ensures Last(h + [c], s) == if Match(s, c) then At(c.tick) else Last(h, s)
  {
    assert (h + [c])[..|h|] == h;
  }

  lemma {:induction false} LastBound(h: seq<Cmd>, s: Sel, t: int)
    requires Ordered(h) && forall i :: 0 <= i < |h| ==> h[i].tick < t
    ensures Last(h, s).At? ==> 0 <= Last(h, s).tick < t
    decreases |h|
  {
    if h != [] { LastBound(h[..|h| - 1], s, t); }
  }

  /** In an ordered history only the last selected command matters for a minimum distance. */
  lemma {:induction false} SpacedByLast(h: seq<Cmd>, s: Sel, t: int, gap: nat)
    requires Ordered(h) && t >= 0
    ensures Spaced(h, s, t, gap) <==> t >= After(Last(h, s), gap)
    decreases |h|
  {
    if h != [] {
      var front, last := h[..|h| - 1], h[|h| - 1];
      SpacedByLast(front, s, t, gap);
      assert Spaced(h, s, t, gap) <==> Spaced(front, s, t, gap) && (Match(s, last) ==> t >= last.tick + gap) by {
        assert forall i :: 0 <= i < |front| ==> front[i] == h[i];
      }
      if Match(s, last) {
        assert t >= last.tick + gap ==> Spaced(front, s, t, gap);
      }
    }
  }

  lemma OpenSnoc(h: seq<Cmd>, c: Cmd, act: Sel, pre: Sel)
    requires act.op == ACT && pre.op == PRE
    ensures Open(h + [c], act, pre)
       <==> if Match(act, c) then true else if Match(pre, c) then false else Open(h, act, pre)
  {
    if Match(act, c) {
      assert Match(act, (h + [c])[|h|]);
    } else if Match(pre, c) {
      OpenClosed(h, c, act, pre);
    } else {
      if Open(h, act, pre) { OpenStays(h, c, act, pre); }
      if Open(h + [c], act, pre) { OpenWas(h, c, act, pre); }
    }
  }

  lemma OpenClosed(h: seq<Cmd>, c: Cmd, act: Sel, pre: Sel)
    requires !Match(act, c) && Match(pre, c)
    ensures !Open(h + [c], act, pre)
  {
    assert Match(pre, (h + [c])[|h|]);
  }

  lemma OpenStays(h: seq<Cmd>, c: Cmd, act: Sel, pre: Sel)
    requires !Match(pre, c) && Open(h, act, pre)
    ensures Open(h + [c], act, pre)
  {
    var i :| 0 <= i < |h| && Match(act, h[i]) && forall k :: i < k < |h| ==> !Match(pre, h[k]);
    assert Match(act, (h + [c])[i]);
  }

  lemma OpenWas(h: seq<Cmd>, c: Cmd, act: Sel, pre: Sel)
    requires !Match(act, c) && Open(h + [c], act, pre)
    ensures Open(h, act, pre)
  {
    var h' := h + [c];
    var i :| 0 <= i < |h'| && Match(act, h'[i]) && forall k :: i < k < |h'| ==> !Match(pre, h'[k]);
    assert Match(act, h[i]);
    forall k | i < k < |h| ensures !Match(pre, h[k]) { assert h'[k] == h[k]; }
  }

  // ---------------------------------------------------------------- tables

  /** A tick or `math.inf`. */
  datatype Tick = Fin(v: int) | Inf

  predicate Before(t: int, n: Tick) {
    n.Inf? || t < n.v
  }

  /** A `next_tick` dictionary. */
  datatype Table = Table(rd: Tick, act: Tick, pre: Tick, ref: Tick) {
    function Get(op: Op): Tick {
      match op
      case RD => rd
      case ACT => act
      case PRE => pre
      case REF => ref
    }

    function Set(op: Op, n: Tick): Table {
      match op
      case RD => this.(rd := n)
      case ACT => this.(act := n)
      case PRE => this.(pre := n)
      case REF => this.(ref := n)
    }
  }

  /** One entry of a `parameters` dictionary. */
  datatype Parameter = Parameter(op: Op, delay: Tick)

  /** An infinite entry is replaced, a finite one only grows. */
  function Raise(old_: Tick, tick: int, delay: Tick): Tick {
    var n := if delay.Inf? then Inf else Fin(tick + delay.v);
    if old_.Inf? then n else if Before(old_.v, n) then n else old_
  }

  function Update(table: Table, ps: seq<Parameter>, tick: int): Table {
    if ps == [] then table
    else var t := Update(table, ps[..|ps| - 1], tick);
         var p := ps[|ps| - 1];
         t.Set(p.op, Raise(t.Get(p.op), tick, p.delay))
  }

  /** The update loop at the end of `Execute`. */
  method UpdateTable(table: Table, ps: seq<Parameter>, tick: int) returns (r: Table)
    ensures r == Update(table, ps, tick)
  {
    r := table;
    for i := 0 to |ps|
      invariant r == Update(table, ps[..i], tick)
    {
      var Parameter(op, delay) := ps[i];
      assert ps[..i + 1][..i] == ps[..i];
      var n := if delay.Inf? then Inf else Fin(tick + delay.v);
      if r.Get(op).Inf? {
        r := r.Set(op, n);
      } else if Before(r.Get(op).v, n) {
        r := r.Set(op, n);
      } else {
        assert r == r.Set(op, r.Get(op));
      }
    }
    assert ps[..|ps|] == ps;
  }

  lemma UpdateOne(table: Table, p: Parameter, tick: int)
    ensures Update(table, [p], tick) == table.Set(p.op, Raise(table.Get(p.op), tick, p.delay))
  {
    assert [p][..0] == [];
    assert Update(table, [], tick) == table;
  }

  lemma UpdateTwo(table: Table, p: Parameter, q: Parameter, tick: int)
    ensures Update(table, [p, q], tick) == Update(Update(table, [p], tick), [q], tick)
  {
    assert [p, q][..1] == [p];
    UpdateOne(Update(table, [p], tick), q, tick);
  }

  lemma UpdateThree(table: Table, p: Parameter, q: Parameter, r: Parameter, tick: int)
    ensures Update(table, [p, q, r], tick) == Update(Update(table, [p, q], tick), [r], tick)
  {
    assert [p, q, r][..2] == [p, q];
    UpdateOne(Update(table, [p, q], tick), r, tick);
  }

  // ---------------------------------------------------------------- banks

  /** The timing parameters of one bank; the same in DDR3 and DDR4. */
  datatype BankTiming = BankTiming(rcd: nat, ras: nat, rtp: nat, rp: nat)

  function BankParameters(t: BankTiming, op: Op): seq<Parameter> {
    match op
    case RD => [Parameter(PRE, Fin(t.rtp))]
    case ACT => [Parameter(RD, Fin(t.rcd)), Parameter(ACT, Inf), Parameter(PRE, Fin(t.ras))]
    case PRE => [Parameter(RD, Inf), Parameter(ACT, Fin(t.rp))]
    case REF => []
  }

  const NewBank := Table(Inf, Fin(0), Fin(0), Fin(0))

  /** `Bank` with its dictionary updated in place. */
  class Bank {
    const timing: BankTiming
    var nextTick: Table

    constructor (timing: BankTiming)
      ensures this.timing == timing && nextTick == NewBank
    {
      this.timing, nextTick := timing, NewBank;
    }

    /** `Bank.Execute` */
    method Execute(tick: int, op: Op) returns (ok: bool)
      modifies this
      ensures ok == !Before(tick, old(nextTick).Get(op))
      ensures nextTick == if ok then Update(old(nextTick), BankParameters(timing, op), tick) else old(nextTick)
    {
      ok := !Before(tick, nextTick.Get(op));
      if ok {
        nextTick := UpdateTable(nextTick, BankParameters(timing, op), tick);
      }
    }
  }

  /** The dictionaries of a list of banks. */
  function Tables(banks: seq<Bank>): (r: seq<Table>)
    reads banks
    ensures |r| == |banks| && forall i :: 0 <= i < |banks| ==> r[i] == banks[i].nextTick
  {
    if banks == [] then [] else Tables(banks[..|banks| - 1]) + [banks[|banks| - 1].nextTick]
  }

  /** The bank rules over the whole history, for a command at tick `t`. */
  ghost predicate BankLegal(bt: BankTiming, h: seq<Cmd>, t: int, op: Op, g: nat, b: nat) {
    var open := Open(h, InBank(ACT, g, b), InBank(PRE, g, b));
    match op
    case RD => open && Spaced(h, InBank(ACT, g, b), t, bt.rcd)
    case ACT => !open && Spaced(h, InBank(PRE, g, b), t, bt.rp)
    case PRE => Spaced(h, InBank(RD, g, b), t, bt.rtp) && Spaced(h, InBank(ACT, g, b), t, bt.ras)
    case REF => true
  }

  /** The dictionary of a bank as a function of the history. */
  ghost function BankTable(bt: BankTiming, h: seq<Cmd>, g: nat, b: nat): (r: Table)
    ensures r.rd.Inf? <==> !r.act.Inf?
  {
    var open := Open(h, InBank(ACT, g, b), InBank(PRE, g, b));
    Table(if open then Fin(After(Last(h, InBank(ACT, g, b)), bt.rcd)) else Inf,
          if open then Inf else Fin(After(Last(h, InBank(PRE, g, b)), bt.rp)),
          Fin(Max(After(Last(h, InBank(RD, g, b)), bt.rtp), After(Last(h, InBank(ACT, g, b)), bt.ras))),
          Fin(0))
  }

  /** Looking the tick up in the dictionary decides the bank rules. */
  lemma BankDecides(bt: BankTiming, h: seq<Cmd>, t: int, op: Op, g: nat, b: nat)
    requires Ordered(h) && t >= 0
    ensures !Before(t, BankTable(bt, h, g, b).Get(op)) <==> BankLegal(bt, h, t, op, g, b)
  {
    hide Last, Open, Spaced;
    SpacedByLast(h, InBank(ACT, g, b), t, bt.rcd);
    SpacedByLast(h, InBank(PRE, g, b), t, bt.rp);
    SpacedByLast(h, InBank(RD, g, b), t, bt.rtp);
    SpacedByLast(h, InBank(ACT, g, b), t, bt.ras);
  }

  /** An accepted command updates the dictionary of its bank to that of the longer history. */
  lemma BankFollows(bt: BankTiming, h: seq<Cmd>, c: Cmd)
    requires Ordered(h + [c]) && BankLegal(bt, h, c.tick, c.op, c.group, c.bank)
    ensures Update(BankTable(bt, h, c.group, c.bank), BankParameters(bt, c.op), c.tick)
         == BankTable(bt, h + [c], c.group, c.bank)
  {
    hide Last, Open, Spaced, Update, Ordered;
    var g, b, t := c.group, c.bank, c.tick;
    BankHistory(h, c, g, b);
    var table, ps := BankTable(bt, h, g, b), BankParameters(bt, c.op);
    match c.op {
      case RD => UpdateOne(table, ps[0], t);
      case ACT =>
        UpdateThree(table, ps[0], ps[1], ps[2], t);
        UpdateTwo(table, ps[0], ps[1], t);
        UpdateOne(table, ps[0], t);
        UpdateOne(Update(table, [ps[0]], t), ps[1], t);
        UpdateOne(Update(table, [ps[0], ps[1]], t), ps[2], t);
      case PRE =>
        UpdateTwo(table, ps[0], ps[1], t);
        UpdateOne(table, ps[0], t);
        UpdateOne(Update(table, [ps[0]], t), ps[1], t);
      case REF => UpdateNone(table, t);
    }
  }

  lemma UpdateNone(table: Table, tick: int)
    ensures Update(table, [], tick) == table
  {
  }

  /** What one more command does to everything the bank dictionary is made of. */
  lemma BankHistory(h: seq<Cmd>, c: Cmd, g: nat, b: nat)
    requires Ordered(h + [c])
    ensures forall op ::
              && Last(h + [c], InBank(op, g, b))
                 == (if Match(InBank(op, g, b), c) then At(c.tick) else Last(h, InBank(op, g, b)))
              && (Last(h, InBank(op, g, b)).At? ==> 0 <= Last(h, InBank(op, g, b)).tick < c.tick)
    ensures Open(h + [c], InBank(ACT, g, b), InBank(PRE, g, b))
       <==> if Match(InBank(ACT, g, b), c) then true else if Match(InBank(PRE, g, b), c) then false
            else Open(h, InBank(ACT, g, b), InBank(PRE, g, b))
    ensures c.tick >= 0
  {
    hide Last, Open;
    OrderedSnoc(h, c);
    forall op ensures Last(h + [c], InBank(op, g, b))
                      == (if Match(InBank(op, g, b), c) then At(c.tick) else Last(h, InBank(op, g, b)))
                   && (Last(h, InBank(op, g, b)).At? ==> 0 <= Last(h, InBank(op, g, b)).tick < c.tick)
    {
      LastSnoc(h, c, InBank(op, g, b));
      LastBound(h, InBank(op, g, b), c.tick);
    }
    OpenSnoc(h, c, InBank(ACT, g, b), InBank(PRE, g, b));
  }

  /** The same for the history of the whole rank. */
  lemma RankHistory(h: seq<Cmd>, c: Cmd)
    requires Ordered(h + [c])
    ensures forall op ::
              && Last(h + [c], Any(op)) == (if c.op == op then At(c.tick) else Last(h, Any(op)))
              && (Last(h, Any(op)).At? ==> 0 <= Last(h, Any(op)).tick < c.tick)
    ensures Open(h + [c], Any(ACT), Any(PRE))
       <==> if c.op == ACT then true else if c.op == PRE then false else Open(h, Any(ACT), Any(PRE))
  {
    hide Last, Open;
    OrderedSnoc(h, c);
    forall op ensures Last(h + [c], Any(op)) == (if c.op == op then At(c.tick) else Last(h, Any(op)))
                   && (Last(h, Any(op)).At? ==> 0 <= Last(h, Any(op)).tick < c.tick)
    {
      LastSnoc(h, c, Any(op));
      LastBound(h, Any(op), c.tick);
    }
    OpenSnoc(h, c, Any(ACT), Any(PRE));
  }

  lemma OrderedSnoc(h: seq<Cmd>, c: Cmd)
    requires Ordered(h + [c])
    ensures Ordered(h) && c.tick >= 0 && forall i :: 0 <= i < |h| ==> h[i].tick < c.tick
  {
    var h' := h + [c];
    assert forall i :: 0 <= i < |h| ==> h'[i] == h[i];
    assert h'[|h|] == c;
  }

  /** A command to another bank leaves the dictionary alone. */
  lemma BankUntouched(bt: BankTiming, h: seq<Cmd>, c: Cmd, g: nat, b: nat)
    requires Ordered(h + [c]) && (c.group != g || c.bank != b)
    ensures BankTable(bt, h + [c], g, b) == BankTable(bt, h, g, b)
  {
    hide Last, Open;
    BankHistory(h, c, g, b);
  }

  lemma BankEmpty(bt: BankTiming, g: nat, b: nat)
    ensures BankTable(bt, [], g, b) == NewBank
  {
  }

  // ---------------------------------------------------------------- four-activate window

  /** Ticks of the activations. */
  function Acts(h: seq<Cmd>): seq<int> {
    if h == [] then []
    else Acts(h[..|h| - 1]) + if h[|h| - 1].op == ACT then [h[|h| - 1].tick] else []
  }

  lemma ActsSnoc(h: seq<Cmd>, c: Cmd)
    ensures Acts(h + [c]) == Acts(h) + if c.op == ACT then [c.tick] else []
  {
    assert (h + [c])[..|h|] == h;
  }

  ghost predicate Increasing(s: seq<int>) {
    forall i, k :: 0 <= i < k < |s| ==> s[i] < s[k]
  }

  lemma {:induction false} ActsIncreasing(h: seq<Cmd>)
    requires Ordered(h)
    ensures Increasing(Acts(h))
    ensures forall i :: 0 <= i < |Acts(h)| ==> h != [] && Acts(h)[i] <= h[|h| - 1].tick
    decreases |h|
  {
    if h != [] { ActsIncreasing(h[..|h| - 1]); }
  }

  /** Number of entries in the window [lo, lo + width). */
  function WindowCount(s: seq<int>, lo: int, width: int): nat {
    if s == [] then 0 else (if lo <= s[0] < lo + width then 1 else 0) + WindowCount(s[1..], lo, width)
  }

  /** At most four activations in any window shorter than tFAW. */
  ghost predicate FourActivates(acts: seq<int>, faw: nat) {
    forall lo :: WindowCount(acts, lo, faw) <= 4
  }

  /** What the code compares: each activation with the fourth before it. */
  ghost predicate FourthBefore(acts: seq<int>, faw: nat) {
    forall i :: 4 <= i < |acts| ==> acts[i] - acts[i - 4] >= faw
  }

  lemma {:induction false} WindowPlus(a: seq<int>, b: seq<int>, lo: int, width: int)
    ensures WindowCount(a + b, lo, width) == WindowCount(a, lo, width) + WindowCount(b, lo, width)
    decreases |a|
  {
    if a == [] {
      assert a + b == b;
    } else {
      WindowPlus(a[1..], b, lo, width);
      assert (a + b)[1..] == a[1..] + b;
    }
  }

  lemma {:induction false} WindowExtremes(s: seq<int>, lo: int, width: int)
    ensures WindowCount(s, lo, width) <= |s|
    ensures (forall i :: 0 <= i < |s| ==> s[i] >= lo + width) ==> WindowCount(s, lo, width) == 0
    ensures (forall i :: 0 <= i < |s| ==> lo <= s[i] < lo + width) ==> WindowCount(s, lo, width) == |s|
    decreases |s|
  {
    if s != [] { WindowExtremes(s[1..], lo, width); }
  }

  lemma {:induction false} FourthBeforeSuffices(s: seq<int>, faw: nat, lo: int)
    requires Increasing(s) && FourthBefore(s, faw)
    ensures WindowCount(s, lo, faw) <= 4
    decreases |s|
  {
    if |s| <= 4 {
      WindowExtremes(s, lo, faw);
    } else if s[0] < lo {
      FourthBeforeSuffices(s[1..], faw, lo);
    } else {
      assert s[4] - s[0] >= faw;
      assert s == s[..4] + s[4..];
      WindowPlus(s[..4], s[4..], lo, faw);
      WindowExtremes(s[..4], lo, faw);
      WindowExtremes(s[4..], lo, faw);
    }
  }

  lemma FiveInWindow(s: seq<int>, i: nat, faw: nat)
    requires Increasing(s) && 4 <= i < |s| && s[i] - s[i - 4] < faw
    ensures WindowCount(s, s[i - 4], faw) >= 5
  {
    hide WindowCount;
    var lo, five := s[i - 4], s[i - 4..i + 1];
    assert s == s[..i - 4] + (five + s[i + 1..]);
    WindowPlus(s[..i - 4], five + s[i + 1..], lo, faw);
    WindowPlus(five, s[i + 1..], lo, faw);
    WindowExtremes(five, lo, faw);
  }

  /** Comparing with the fourth-previous activation alone is the whole tFAW rule. */
  lemma FawRule(s: seq<int>, faw: nat)
    requires Increasing(s)
    ensures FourActivates(s, faw) <==> FourthBefore(s, faw)
  {
    hide WindowCount, Increasing;
    if FourthBefore(s, faw) {
      forall lo ensures WindowCount(s, lo, faw) <= 4 { FourthBeforeSuffices(s, faw, lo); }
    } else {
      var i :| 4 <= i < |s| && s[i] - s[i - 4] < faw;
      FiveInWindow(s, i, faw);
    }
  }

  /** `collections.deque(maxlen=4)` after appending every activation. */
  function LastFour(acts: seq<int>): seq<int> {
    if |acts| <= 4 then acts else acts[|acts| - 4..]
  }

  function Push(deque: seq<int>, tick: int): seq<int> {
    LastFour(deque + [tick])
  }

  lemma PushLastFour(acts: seq<int>, tick: int)
    ensures Push(LastFour(acts), tick) == LastFour(acts + [tick])
  {
  }

  /** The test on the deque decides whether one more activation keeps the window rule. */
  lemma DequeDecides(acts: seq<int>, tick: int, faw: nat)
    requires Increasing(acts + [tick]) && FourActivates(acts, faw)
    ensures FourActivates(acts + [tick], faw)
       <==> (|LastFour(acts)| == 4 ==> tick - LastFour(acts)[0] >= faw)
  {
    hide FourActivates;
    var s := acts + [tick];
    assert Increasing(acts) by {
      forall i, k | 0 <= i < k < |acts| ensures acts[i] < acts[k] { assert s[i] < s[k]; }
    }
    FawRule(acts, faw);
    FawRule(s, faw);
    FourthBeforeSnoc(acts, tick, faw);
  }

  lemma FourthBeforeSnoc(acts: seq<int>, tick: int, faw: nat)
    ensures FourthBefore(acts + [tick], faw)
       <==> FourthBefore(acts, faw) && (|acts| >= 4 ==> tick - acts[|acts| - 4] >= faw)
  {
    var s := acts + [tick];
    assert forall i :: 0 <= i < |acts| ==> s[i] == acts[i];
    if FourthBefore(s, faw) && |acts| >= 4 { assert s[|acts|] == tick; }
    if FourthBefore(s, faw) {
      forall i | 4 <= i < |acts| ensures acts[i] - acts[i - 4] >= faw { assert s[i] - s[i - 4] >= faw; }
    }
  }
}
