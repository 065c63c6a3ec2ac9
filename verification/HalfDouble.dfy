/** The half-double analysis: a search over rows, total read counts and dilutions that is
    driven by whether the victim row flipped. */
module HalfDouble {
  import Lcm

  datatype Phase = NOFLIP_DISTANCE_ONE | NOFLIP_DISTANCE_TWO | HAMMER_TOLERANCE | MAX_DILUTION

  datatype Params = Params(maxTotal: int, steps: int, initialDilution: int, multiplier: int, maxDilution: int,
                             maxRowIdx: int, rowsStart: int) {
    /** `max_total_read_count // read_count_steps` */
    function Step(): int
      requires steps > 0
    {
      maxTotal / steps
    }

    /** `get_logical_victim` of the row generator */
    function LogicalVictim(iteration: nat): int
      requires maxRowIdx > 2
    {
      rowsStart + (iteration + 2) % (maxRowIdx - 2)
    }

    predicate Sensible() {
      steps > 0 && Step() >= 1 && multiplier >= 2 && initialDilution >= 1
    }
  }

  /** The fields the state functions update; the last three belong to the row generator. */
  datatype Fields = Fields(phase: Phase, iteration: nat, total: int, dilution: int, readCount: int,
                           nrRows: int, distanceOne: bool, distanceTwo: bool)

  function Initial(p: Params): Fields
    requires p.initialDilution != 0
  {
    Fields(NOFLIP_DISTANCE_ONE, 0, p.maxTotal, p.initialDilution, p.maxTotal / p.initialDilution,
           p.initialDilution, true, false)
  }

  /** `next_row` leaves `distance_one` as it was. */
  function NextRow(p: Params, f: Fields): Fields
    requires p.initialDilution != 0
  {
    f.(phase := NOFLIP_DISTANCE_ONE, dilution := p.initialDilution, total := p.maxTotal,
       readCount := p.maxTotal / p.initialDilution, distanceTwo := false, nrRows := p.initialDilution,
       iteration := f.iteration + 1)
  }

  function Dilute(p: Params, f: Fields, dilution: int): Fields
    requires dilution != 0
  {
    f.(dilution := dilution, nrRows := dilution, readCount := f.total / dilution)
  }

  /** One call of `process_errors`, for a victim that flipped or not. */
  function Next(p: Params, f: Fields, flipped: bool): Fields
    requires p.Sensible() && f.dilution >= 1
  {
    PositiveProduct(f.dilution, p.multiplier);
    var more := f.dilution * p.multiplier;
    match f.phase
    case NOFLIP_DISTANCE_ONE =>
      if !flipped then f.(phase := NOFLIP_DISTANCE_TWO, distanceTwo := true, distanceOne := false)
      else if more > p.maxDilution then NextRow(p, f)
      else Dilute(p, f, more)
    case NOFLIP_DISTANCE_TWO =>
      if !flipped then f.(phase := HAMMER_TOLERANCE, distanceOne := true) else NextRow(p, f)
    case HAMMER_TOLERANCE =>
      if !flipped || f.total <= p.Step() then NextRow(p, f)
      else Dilute(p, f, more).(phase := MAX_DILUTION)
    case MAX_DILUTION =>
      if !flipped || more > p.maxDilution then
        var g := f.(dilution := p.initialDilution, total := f.total - p.Step());
        if g.total > 0 then Dilute(p, g, p.initialDilution).(phase := HAMMER_TOLERANCE) else NextRow(p, g)
      else Dilute(p, f, more)
  }

  lemma PositiveProduct(a: int, b: int)
    requires a >= 1 && b >= 2
    ensures a * b >= 2 * a
  {
    assert a * b == 2 * a + a * (b - 2);
  }

  // ---------------------------------------------------------------- invariants

  function Power(b: int, n: nat): int {
    if n == 0 then 1 else Power(b, n - 1) * b
  }

  /** The dilutions tried: the initial one, multiplied again and again. */
  ghost predicate Diluted(p: Params, dilution: int) {
    exists n: nat :: dilution == p.initialDilution * Power(p.multiplier, n)
  }

  /** The totals tried: the maximum, lowered step by step. */
  ghost predicate Lowered(p: Params, total: int)
    requires p.steps > 0
  {
    exists n: nat :: total == p.maxTotal - n * p.Step()
  }

  lemma DilutedMore(p: Params, dilution: int)
    requires Diluted(p, dilution)
    ensures Diluted(p, dilution * p.multiplier)
  {
    var n: nat :| dilution == p.initialDilution * Power(p.multiplier, n);
    var a, b := p.initialDilution, Power(p.multiplier, n);
    assert (a * b) * p.multiplier == a * (b * p.multiplier);
    assert dilution * p.multiplier == a * Power(p.multiplier, n + 1);
  }

  lemma LoweredMore(p: Params, total: int)
    requires p.steps > 0 && Lowered(p, total)
    ensures Lowered(p, total - p.Step())
  {
    var n: nat :| total == p.maxTotal - n * p.Step();
    assert (n + 1) * p.Step() == n * p.Step() + p.Step();
    assert total - p.Step() == p.maxTotal - (n + 1) * p.Step();
  }

  lemma Fresh(p: Params)
    requires p.steps > 0
    ensures Diluted(p, p.initialDilution) && Lowered(p, p.maxTotal)
  {
    assert p.initialDilution == p.initialDilution * Power(p.multiplier, 0);
    assert p.maxTotal == p.maxTotal - 0 * p.Step();
  }

  ghost predicate Inv(p: Params, f: Fields) {
    && p.steps > 0 && f.dilution >= 1 && 0 < f.total <= p.maxTotal
    && f.readCount == f.total / f.dilution && f.nrRows == f.dilution
    && (f.distanceTwo <==> f.phase != NOFLIP_DISTANCE_ONE)
    && (f.phase == MAX_DILUTION ==> f.total > p.Step())
    && Diluted(p, f.dilution) && Lowered(p, f.total)
    && (f.phase != HAMMER_TOLERANCE && f.phase != MAX_DILUTION ==> f.total == p.maxTotal)
    && (f.phase == HAMMER_TOLERANCE && f.total < p.maxTotal ==> f.dilution == p.initialDilution)
  }

  lemma InitialInv(p: Params)
    requires p.Sensible()
    ensures Inv(p, Initial(p))
  {
    if p.maxTotal <= 0 {
      NonPositive(p.maxTotal, p.steps);
      assert false;
    }
    Fresh(p);
  }

  lemma NonPositive(a: int, b: int)
    requires a <= 0 && b > 0
    ensures a / b <= 0
  {
    var q := a / b;
    assert a == q * b + a % b;
    Lcm.Product(q, b);
  }

  lemma NextInv(p: Params, f: Fields, flipped: bool)
    requires p.Sensible() && Inv(p, f)
    ensures Inv(p, Next(p, f, flipped))
  {
    hide Diluted, Lowered;
    InitialInv(p);
    PositiveProduct(f.dilution, p.multiplier);
    DilutedMore(p, f.dilution);
    LoweredMore(p, f.total);
  }

  /** The total never runs out in MAX_DILUTION: the branch that would start a new row there is dead. */
  lemma TotalNeverRunsOut(p: Params, f: Fields, flipped: bool)
    requires p.Sensible() && Inv(p, f) && f.phase == MAX_DILUTION
    ensures f.total - p.Step() > 0
    ensures Next(p, f, flipped).iteration == f.iteration
  {
    PositiveProduct(f.dilution, p.multiplier);
  }

  /** The victim's entry in `row_errors`: absent, or the number of its flipped bits. */
  datatype Victim = Unseen | Seen(bits: nat)

  /** The fields after the first `n` calls, for a given sequence of outcomes. */
  ghost function After(p: Params, outcome: nat -> Victim, n: nat): (f: Fields)
    requires p.Sensible()
    ensures Inv(p, f)
  {
    if n == 0 then InitialInv(p); Initial(p)
    else
      var f := After(p, outcome, n - 1);
      NextInv(p, f, outcome(n - 1).Seen?);
      Next(p, f, outcome(n - 1).Seen?)
  }

  lemma AfterStep(p: Params, outcome: nat -> Victim, n: nat)
    requires p.Sensible()
    ensures n == 0 ==> After(p, outcome, n) == Initial(p)
    ensures n > 0 ==> var f := After(p, outcome, n - 1);
                      f.dilution >= 1 && After(p, outcome, n) == Next(p, f, outcome(n - 1).Seen?)
  {
    hide Next;
  }

  // ---------------------------------------------------------------- termination

  function PhaseRank(phase: Phase): nat {
    match phase
    case NOFLIP_DISTANCE_ONE => 2
    case NOFLIP_DISTANCE_TWO => 1
    case HAMMER_TOLERANCE => 0
    case MAX_DILUTION => 0
  }

  function Slack(p: Params, f: Fields): nat {
    if f.dilution <= p.maxDilution then p.maxDilution - f.dilution + 1 else 0
  }

  /** Lexicographic measure: rows left, phase, total, tolerance before dilution, room for dilution. */
  ghost predicate Smaller(p: Params, g: Fields, f: Fields) {
    || g.iteration > f.iteration
    || (g.iteration == f.iteration && PhaseRank(g.phase) < PhaseRank(f.phase))
    || (g.iteration == f.iteration && PhaseRank(g.phase) == PhaseRank(f.phase) && g.total < f.total)
    || (g.iteration == f.iteration && PhaseRank(g.phase) == PhaseRank(f.phase) && g.total == f.total
        && f.phase == HAMMER_TOLERANCE && g.phase == MAX_DILUTION)
    || (g.iteration == f.iteration && g.phase == f.phase && g.total == f.total && Slack(p, g) < Slack(p, f))
  }

  /** Whatever the victim does, every call makes progress. */
  lemma NextSmaller(p: Params, f: Fields, flipped: bool)
    requires p.Sensible() && Inv(p, f)
    ensures Smaller(p, Next(p, f, flipped), f)
  {
    PositiveProduct(f.dilution, p.multiplier);
  }

  // ---------------------------------------------------------------- the generator

  /** Key of the counting dictionaries; the second phase counts under infinite dilution. */
  datatype Key = Key(dilution: Dilution, total: int)
  datatype Dilution = Infinite | Finite(value: int)

  /** What is counted when the victim shows up among the errors: one row and its flipped bits. */
  datatype Hit = Hit(key: Key, bits: nat, row: int)

  function KeyOf(f: Fields): Key {
    Key(if f.phase == NOFLIP_DISTANCE_TWO then Infinite else Finite(f.dilution), f.total)
  }

  function Rows(log: seq<Hit>, k: Key): nat {
    if log == [] then 0 else Rows(log[..|log| - 1], k) + if log[|log| - 1].key == k then 1 else 0
  }

  function BitsOf(log: seq<Hit>, k: Key): nat {
    if log == [] then 0 else BitsOf(log[..|log| - 1], k) + if log[|log| - 1].key == k then log[|log| - 1].bits else 0
  }

  function Victims(log: seq<Hit>, k: Key): seq<int> {
    if log == [] then []
    else Victims(log[..|log| - 1], k) + if log[|log| - 1].key == k then [log[|log| - 1].row] else []
  }

  /** Reading a `defaultdict` */
  function Get<V>(m: map<Key, V>, k: Key, default: V): V {
    if k in m then m[k] else default
  }

  lemma HitSnoc(log: seq<Hit>, h: Hit, k: Key)
    ensures Rows(log + [h], k) == Rows(log, k) + if h.key == k then 1 else 0
    ensures BitsOf(log + [h], k) == BitsOf(log, k) + if h.key == k then h.bits else 0
    ensures Victims(log + [h], k) == Victims(log, k) + if h.key == k then [h.row] else []
  {
    assert (log + [h])[..|log|] == log;
  }

  class Generator {
    const params: Params
    var phase: Phase
    var iteration: nat
    var total: int
    var dilution: int
    var readCount: int
    var nrRows: int
    var distanceOne: bool
    var distanceTwo: bool
    var rowCount: map<Key, nat>
    var bitCount: map<Key, nat>
    var victimList: map<Key, seq<int>>
    ghost var log: seq<Hit>

    function State(): Fields
      reads this
    {
      Fields(phase, iteration, total, dilution, readCount, nrRows, distanceOne, distanceTwo)
    }

    /** The dictionaries summarise the hits logged so far. */
    ghost predicate Counted()
      reads this
    {
      forall k :: Get(rowCount, k, 0) == Rows(log, k) && Get(bitCount, k, 0) == BitsOf(log, k)
                  && Get(victimList, k, []) == Victims(log, k)
    }

    ghost predicate Valid()
      reads this
    {
      params.Sensible() && Inv(params, State()) && Counted()
    }

    /** `initialize` */
    constructor (params: Params)
      requires params.Sensible()
      ensures this.params == params && State() == Initial(params) && Valid() && log == []
    {
      this.params := params;
      phase, iteration := NOFLIP_DISTANCE_ONE, 0;
      total, dilution := params.maxTotal, params.initialDilution;
      readCount, nrRows := params.maxTotal / params.initialDilution, params.initialDilution;
      distanceOne, distanceTwo := true, false;
      rowCount, bitCount, victimList, log := map[], map[], map[], [];
      new;
      InitialInv(params);
    }

    /** `next_row` */
    method StartNextRow()
      requires params.initialDilution != 0
      modifies this`phase, this`dilution, this`total, this`readCount, this`distanceTwo, this`nrRows, this`iteration
      ensures State() == NextRow(params, old(State()))
    {
      phase := NOFLIP_DISTANCE_ONE;
      dilution := params.initialDilution;
      total := params.maxTotal;
      readCount := total / dilution;
      distanceTwo := false;
      nrRows := dilution;
      iteration := iteration + 1;
    }

    /** The four state functions. */
    method Advance(flipped: bool)
      requires params.Sensible() && dilution >= 1
      modifies this`phase, this`dilution, this`total, this`readCount, this`distanceOne, this`distanceTwo, this`nrRows,
               this`iteration
      ensures State() == Next(params, old(State()), flipped)
    {
      PositiveProduct(dilution, params.multiplier);
      match phase {
        case NOFLIP_DISTANCE_ONE =>
          if !flipped {
            phase := NOFLIP_DISTANCE_TWO;
            distanceTwo, distanceOne := true, false;
          } else {
            dilution := dilution * params.multiplier;
            if dilution > params.maxDilution {
              StartNextRow();
            } else {
              nrRows := dilution;
              readCount := total / dilution;
            }
          }
        case NOFLIP_DISTANCE_TWO =>
          if !flipped {
            phase := HAMMER_TOLERANCE;
            distanceOne := true;
          } else {
            StartNextRow();
          }
        case HAMMER_TOLERANCE =>
          if !flipped || total <= params.Step() {
            StartNextRow();
          } else {
            dilution := dilution * params.multiplier;
            nrRows := dilution;
            readCount := total / dilution;
            phase := MAX_DILUTION;
          }
        case MAX_DILUTION =>
          if !flipped || dilution * params.multiplier > params.maxDilution {
            dilution := params.initialDilution;
            total := total - params.Step();
            if total > 0 {
              nrRows := dilution;
              readCount := total / dilution;
              phase := HAMMER_TOLERANCE;
            } else {
              StartNextRow();
            }
          } else {
            dilution := dilution * params.multiplier;
            nrRows := dilution;
            readCount := total / dilution;
          }
      }
    }

    /** `process_errors`: count the victim's flips outside the first phase, then advance. */
    method ProcessErrors(victim: Victim)
      requires Valid() && params.maxRowIdx > 2
      modifies this
      ensures Valid()
      ensures State() == Next(params, old(State()), victim.Seen?)
      ensures log == old(log) + if victim.Seen? && old(phase) != NOFLIP_DISTANCE_ONE
                                then [Hit(KeyOf(old(State())), victim.bits, params.LogicalVictim(old(iteration)))]
                                else []
    {
      hide Next, KeyOf, Rows, BitsOf, Victims, Diluted, Lowered;
      var logicalVictim := params.LogicalVictim(iteration);
      if victim.Seen? && phase != NOFLIP_DISTANCE_ONE {
        var key := KeyOf(State());
        ghost var before := log;
        rowCount := rowCount[key := Get(rowCount, key, 0) + 1];
        bitCount := bitCount[key := Get(bitCount, key, 0) + victim.bits];
        victimList := victimList[key := Get(victimList, key, []) + [logicalVictim]];
        log := log + [Hit(key, victim.bits, logicalVictim)];
        forall k ensures Get(rowCount, k, 0) == Rows(log, k) && Get(bitCount, k, 0) == BitsOf(log, k)
                         && Get(victimList, k, []) == Victims(log, k)
        {
          HitSnoc(before, Hit(key, victim.bits, logicalVictim), k);
        }
      }
      NextInv(params, State(), victim.Seen?);
      Advance(victim.Seen?);
    }

    predicate Done()
      reads this
    {
      iteration >= params.maxRowIdx - 4
    }
  }

  /** Every flip found outside the first phase, in order: in the second phase under infinite dilution, later
      under the dilution of the call; always with the total and the row of the call. */
  ghost function Hits(p: Params, outcome: nat -> Victim, n: nat): seq<Hit>
    requires p.Sensible()
  {
    if n == 0 then []
    else
      var f := After(p, outcome, n - 1);
      Hits(p, outcome, n - 1)
      + if outcome(n - 1).Seen? && f.phase != NOFLIP_DISTANCE_ONE && p.maxRowIdx > 2 then
          [Hit(Key(if f.phase == NOFLIP_DISTANCE_TWO then Infinite else Finite(f.dilution), f.total),
               outcome(n - 1).bits, p.rowsStart + (f.iteration + 2) % (p.maxRowIdx - 2))]
        else []
  }

  /** The playbook's loop ends for every sequence of outcomes, at the first call that brings the row index to
      its limit, and the dictionaries then summarise exactly the flips found. */
  method Analyse(params: Params, outcome: nat -> Victim) returns (g: Generator, calls: nat)
    requires params.Sensible()
    ensures g.params == params && g.Valid() && g.Done() && fresh(g)
    ensures g.State() == After(params, outcome, calls) && g.log == Hits(params, outcome, calls)
    ensures After(params, outcome, calls).iteration >= params.maxRowIdx - 4
    ensures forall k :: 0 <= k < calls ==> After(params, outcome, k).iteration < params.maxRowIdx - 4
  {
    hide After, Next, Hits, KeyOf, Inv, Diluted, Lowered, Initial;
    g := new Generator(params);
    calls := 0;
    AfterStep(params, outcome, 0);
    NoHits(params, outcome);
    while !g.Done()
      invariant g.Valid() && fresh(g) && g.params == params
      invariant g.State() == After(params, outcome, calls) && g.log == Hits(params, outcome, calls)
      invariant forall k :: 0 <= k < calls ==> After(params, outcome, k).iteration < params.maxRowIdx - 4
      decreases params.maxRowIdx - 4 - g.iteration, PhaseRank(g.phase), g.total,
                if g.phase == HAMMER_TOLERANCE then 1 else 0, Slack(params, g.State())
    {
      var victim := outcome(calls);
      Progress(params, g.State(), victim.Seen?);
      HitsStep(params, outcome, calls);
      g.ProcessErrors(victim);
      calls := calls + 1;
      AfterStep(params, outcome, calls);
    }
  }

  lemma NoHits(p: Params, outcome: nat -> Victim)
    requires p.Sensible()
    ensures Hits(p, outcome, 0) == []
  {
  }

  lemma HitsStep(p: Params, outcome: nat -> Victim, n: nat)
    requires p.Sensible() && p.maxRowIdx > 2
    ensures var f := After(p, outcome, n);
            Hits(p, outcome, n + 1)
            == Hits(p, outcome, n) + if outcome(n).Seen? && f.phase != NOFLIP_DISTANCE_ONE
                                     then [Hit(KeyOf(f), outcome(n).bits, p.LogicalVictim(f.iteration))] else []
  {
    hide After, Inv;
  }

  lemma Progress(p: Params, f: Fields, flipped: bool)
    requires p.Sensible() && Inv(p, f) && f.iteration < p.maxRowIdx - 4
    ensures f.total >= 0 && f.dilution >= 1
    ensures Next(p, f, flipped).total >= 0 && Smaller(p, Next(p, f, flipped), f)
  {
    hide Next, Diluted, Lowered;
    NextSmaller(p, f, flipped);
    NextInv(p, f, flipped);
  }
}
