/** The payload verifier: an interpreter that runs a payload of legal instructions against the
    DDR3 checker. */
module VerifyPayload {
  import opened Loops
  import opened Dram
  import opened Ddr3
  import opened PayloadInstr

  ghost predicate AllLegal(payload: seq<Instr>) {
    forall ip :: 0 <= ip < |payload| ==> VerifyInstr(ip, payload[ip])
  }

  function ShapeOf(i: Instr): Shape {
    if i.Jmp? then Back(i.count, i.offset) else Plain
  }

  function Shapes(payload: seq<Instr>): (s: seq<Shape>)
    ensures |s| == |payload| && forall i :: 0 <= i < |payload| ==> s[i] == ShapeOf(payload[i])
  {
    seq(|payload|, i requires 0 <= i < |payload| => ShapeOf(payload[i]))
  }

  // ---------------------------------------------------------------- meaning of a run

  /** Ticks that one visit takes. */
  function Ticks(i: Instr): nat {
    match i
    case Mem(_, slice, _, _, _) => slice
    case Nop(_, slice) => slice
    case Jmp(_, _, _) => 1
    case Unset => 0
  }

  function OpcodeOf(i: Instr): Opcode {
    match i
    case Mem(op, _, _, _, _) => op
    case Nop(op, _) => op
    case Jmp(op, _, _) => op
    case Unset => NOP
  }

  /** 1 for instructions with op code `v`. */
  function IsOp(v: nat): Instr -> nat {
    (i: Instr) => if Value(OpcodeOf(i)) == v then 1 else 0
  }

  /** Executed instructions per op code. */
  function Tally(tr: seq<Instr>): (r: seq<nat>)
    ensures |r| == 8
  {
    seq(8, v requires 0 <= v < 8 => Sum(IsOp(v), tr))
  }

  /** The command that a memory instruction puts on the bus. */
  function Command(t: int, i: Instr): seq<Cmd> {
    if i.Mem? && i.memOp.MEM? then [Cmd(t, i.memOp.op, 0, i.bank)] else []
  }

  /** The timed commands of a run that starts at tick 0. */
  function Commands(tr: seq<Instr>): seq<Cmd> {
    if tr == [] then []
    else Commands(tr[..|tr| - 1]) + Command(Sum(Ticks, tr[..|tr| - 1]), tr[|tr| - 1])
  }

  lemma CommandsSnoc(tr: seq<Instr>, i: Instr)
    ensures Commands(tr + [i]) == Commands(tr) + Command(Sum(Ticks, tr), i)
    ensures Sum(Ticks, tr + [i]) == Sum(Ticks, tr) + Ticks(i)
  {
    assert (tr + [i])[..|tr|] == tr;
    SumPlus(Ticks, tr, [i]);
    SumOne(Ticks, i);
  }

  lemma TallySnoc(tr: seq<Instr>, i: Instr)
    ensures var v := Value(OpcodeOf(i));
            Tally(tr + [i]) == Tally(tr)[v := Tally(tr)[v] + 1]
  {
    hide Sum;
    forall v | 0 <= v < 8 ensures Tally(tr + [i])[v] == Tally(tr)[v] + IsOp(v)(i) {
      SumPlus(IsOp(v), tr, [i]);
      SumOne(IsOp(v), i);
    }
  }

  /** Legal where its jump, if it is one, stays inside the payload. */
  predicate Sound(i: Instr) {
    VerifyInstr(if i.Jmp? then i.offset else 0, i)
  }

  ghost predicate Executable(tr: seq<Instr>) {
    forall k :: 0 <= k < |tr| ==> Sound(tr[k])
  }

  lemma ExecutableSnoc(tr: seq<Instr>, i: Instr, ip: nat)
    requires Executable(tr) && VerifyInstr(ip, i)
    ensures Executable(tr + [i])
  {
  }

  /** The commands of a run address the rank and have strictly increasing ticks. */
  lemma {:induction false} CommandsOrdered(tr: seq<Instr>)
    requires Executable(tr)
    ensures Ordered(Commands(tr)) && Addressed(Commands(tr))
    ensures forall k :: 0 <= k < |Commands(tr)| ==> Commands(tr)[k].tick < Sum(Ticks, tr)
    decreases |tr|
  {
    hide Sum;
    if tr != [] {
      var front, i := tr[..|tr| - 1], tr[|tr| - 1];
      assert tr == front + [i];
      assert Sound(tr[|tr| - 1]);
      CommandsOrdered(front);
      CommandsSnoc(front, i);
    }
  }

  // ---------------------------------------------------------------- in terms of the fields

  /** The timeslice field; a jump has none. */
  function SliceField(i: Instr): nat {
    match i
    case Mem(_, slice, _, _, _) => slice
    case Nop(_, slice) => slice
    case Jmp(_, _, _) => 0
    case Unset => 0
  }

  function IsJmp(i: Instr): nat {
    if i.Jmp? then 1 else 0
  }

  function IsNop(i: Instr): nat {
    if i.Nop? then 1 else 0
  }

  function IsMem(i: Instr): nat {
    if i.Mem? then 1 else 0
  }

  /** 1 for memory instructions with this op code. */
  function IsMemOp(op: Op): Instr -> nat {
    (i: Instr) => if i.Mem? && i.memOp == MEM(op) then 1 else 0
  }

  /** The tick after a run: all its timeslices, and one for every visit to a jump. */
  ghost function TickAfter(tr: seq<Instr>): nat {
    Sum(SliceField, tr) + Sum(IsJmp, tr)
  }

  lemma TicksOnFields(tr: seq<Instr>)
    ensures Sum(Ticks, tr) == TickAfter(tr)
  {
    SumSplit(Ticks, SliceField, IsJmp, tr);
  }

  /** The executed counts by the numbers of the protocol: NOP 0, RD 2, ACT 4, PRE 5, REF 6, JMP 7. */
  ghost function CountsOf(tr: seq<Instr>): seq<nat> {
    [Sum(IsNop, tr), 0, Sum(IsMemOp(RD), tr), 0, Sum(IsMemOp(ACT), tr), Sum(IsMemOp(PRE), tr), Sum(IsMemOp(REF), tr),
     Sum(IsJmp, tr)]
  }

  lemma CountsOnFields(tr: seq<Instr>)
    requires Executable(tr)
    ensures Tally(tr) == CountsOf(tr)
  {
    hide Sum;
    forall k | 0 <= k < |tr| ensures Sound(tr[k]) { }
    SumSame(IsOp(0), IsNop, tr);
    SumZero(IsOp(1), tr);
    SumSame(IsOp(2), IsMemOp(RD), tr);
    SumZero(IsOp(3), tr);
    SumSame(IsOp(4), IsMemOp(ACT), tr);
    SumSame(IsOp(5), IsMemOp(PRE), tr);
    SumSame(IsOp(6), IsMemOp(REF), tr);
    SumSame(IsOp(7), IsJmp, tr);
  }

  /** Every memory instruction of a run is a command, at the tick of everything before it. */
  lemma {:induction false} CommandAt(tr: seq<Instr>, m: nat)
    requires Executable(tr) && m < |tr| && tr[m].Mem?
    ensures |Commands(tr)| == Sum(IsMem, tr) && Sum(IsMem, tr[..m]) < |Commands(tr)| && tr[m].memOp.MEM?
    ensures Commands(tr)[Sum(IsMem, tr[..m])] == Cmd(TickAfter(tr[..m]), tr[m].memOp.op, 0, tr[m].bank)
    decreases |tr|
  {
    hide Sum, TickAfter, VerifyInstr;
    var front, i := tr[..|tr| - 1], tr[|tr| - 1];
    assert tr == front + [i];
    assert Sound(i) && Sound(tr[m]);
    SoundIsCommand(i);
    SoundIsCommand(tr[m]);
    CommandsSnoc(front, i);
    CommandsCount(front);
    CommandsCount(tr);
    if m < |front| {
      assert front[m] == tr[m] && front[..m] == tr[..m];
      CommandAt(front, m);
    } else {
      assert tr[..m] == front;
      TicksOnFields(front);
    }
  }

  lemma SoundIsCommand(i: Instr)
    requires Sound(i)
    ensures i.Mem? ==> i.memOp.MEM?
  {
  }

  lemma {:induction false} CommandsCount(tr: seq<Instr>)
    requires Executable(tr)
    ensures |Commands(tr)| == Sum(IsMem, tr)
    decreases |tr|
  {
    hide Sum, VerifyInstr;
    if tr == [] {
      NoVisits();
    } else {
      var front, i := tr[..|tr| - 1], tr[|tr| - 1];
      assert tr == front + [i];
      assert Sound(i);
      SoundIsCommand(i);
      CommandsCount(front);
      CommandsSnoc(front, i);
      SumPlus(IsMem, front, [i]);
      SumOne(IsMem, i);
    }
  }

  lemma NoVisits()
    ensures Sum(IsMem, []) == 0
  {
  }

  // ---------------------------------------------------------------- the interpreter

  datatype Verdict =
    | TimingNotPositive
    | Illegal(at: nat)
    | Rejected(ip: nat, when: nat)
    | Passed(tick: nat, executed: seq<nat>)

  /** The fields of `State`. */
  datatype Registers = Registers(ip: nat, tick: nat, loop: nat, executed: seq<nat>)

  /** The registers after one instruction that is not rejected. */
  function Advance(v: Registers, i: Instr): Registers
    requires |v.executed| == 8 && (i.Jmp? ==> i.offset <= v.ip)
  {
    var o := Value(OpcodeOf(i));
    var v1 := v.(tick := v.tick + Ticks(i), executed := v.executed[o := v.executed[o] + 1]);
    if !i.Jmp? then v1.(ip := v.ip + 1)
    else if v.loop < i.count then v1.(ip := v.ip - i.offset, loop := v.loop + 1)
    else v1.(ip := v.ip + 1, loop := 0)
  }

  /** `State`, updated in place by the interpreter loop. */
  class State {
    var ip: nat
    var tick: nat
    var loop: nat
    var executed: seq<nat>

    function Regs(): Registers
      reads this
    {
      Registers(ip, tick, loop, executed)
    }

    constructor ()
      ensures Regs() == Registers(0, 0, 0, seq(8, _ => 0))
    {
      ip, tick, loop, executed := 0, 0, 0, seq(8, _ => 0);
    }

    /** The updates that the loop makes for one instruction. */
    method Move(instr: Instr)
      requires |executed| == 8 && !instr.Unset? && (instr.Jmp? ==> instr.offset <= ip)
      modifies this
      ensures Regs() == Advance(old(Regs()), instr)
    {
      var o := Value(OpcodeOf(instr));
      if instr.Mem? {
        tick := tick + instr.memSlice;
        ip := ip + 1;
        executed := executed[o := executed[o] + 1];
      } else if instr.Nop? {
        tick := tick + instr.nopSlice;
        ip := ip + 1;
        executed := executed[o := executed[o] + 1];
      } else {
        tick := tick + 1;
        if loop < instr.count {
          ip := ip - instr.offset;
          loop := loop + 1;
          executed := executed[o := executed[o] + 1];
          return;
        }
        ip := ip + 1;
        loop := 0;
        executed := executed[o := executed[o] + 1];
      }
    }
  }

  /** The interpreter between two iterations of its loop: still running, or returned. */
  datatype Machine = Running(v: Registers, rank: RankState) | Ended(verdict: Verdict)

  ghost predicate Shaped(m: Machine) {
    m.Running? ==> |m.v.executed| == 8 && |m.rank.banks| == BANKS
  }

  /** One iteration: the end of the payload and a rejected command return. */
  ghost function Turn(t: Timing, payload: seq<Instr>, m: Machine): (m': Machine)
    requires AllLegal(payload) && Shaped(m)
    ensures Shaped(m')
  {
    match m
    case Ended(_) => m
    case Running(v, rank) =>
      if v.ip >= |payload| then Ended(Passed(v.tick, v.executed))
      else
        var i := payload[v.ip];
        assert VerifyInstr(v.ip, i);
        if i.Mem? then
          var r := Step(t, rank, Cmd(v.tick, i.memOp.op, 0, i.bank));
          if r.0 then Running(Advance(v, i), r.1) else Ended(Rejected(v.ip, v.tick))
        else Running(Advance(v, i), rank)
  }

  ghost function Turns(t: Timing, payload: seq<Instr>, n: nat): (m: Machine)
    requires AllLegal(payload)
    ensures Shaped(m)
  {
    if n == 0 then Running(Registers(0, 0, 0, seq(8, _ => 0)), NewRank())
    else Turn(t, payload, Turns(t, payload, n - 1))
  }

  /** The interpreter returns on this payload. */
  ghost predicate Returns(t: Timing, payload: seq<Instr>)
    requires AllLegal(payload)
  {
    exists n :: Turns(t, payload, n).Ended?
  }

  lemma {:induction false} EndedStays(t: Timing, payload: seq<Instr>, n: nat, m: nat)
    requires AllLegal(payload) && n <= m && Turns(t, payload, n).Ended?
    ensures Turns(t, payload, m) == Turns(t, payload, n)
    decreases m
  {
    hide AllLegal;
    if n < m { EndedStays(t, payload, n, m - 1); }
  }

  // ---------------------------------------------------------------- what it has executed

  lemma JumpsLegal(payload: seq<Instr>)
    requires AllLegal(payload)
    ensures JumpsInRange(Shapes(payload))
    ensures forall i :: 0 <= i < |payload| && Shapes(payload)[i].Back? ==> Shapes(payload)[i].count > 0
  {
    var s := Shapes(payload);
    forall i | 0 <= i < |s| && s[i].Back? ensures s[i].jump <= i && s[i].count > 0 {
      assert VerifyInstr(i, payload[i]);
    }
  }

  /** Where the control flow stands after `n` instructions, if none is rejected. */
  ghost function Point(payload: seq<Instr>, n: nat): Control
    requires AllLegal(payload)
  {
    JumpsLegal(payload);
    Steps(Shapes(payload), Control(0, 0), n)
  }

  /** These instructions. */
  ghost function Done(payload: seq<Instr>, n: nat): seq<Instr>
    requires AllLegal(payload)
  {
    JumpsLegal(payload);
    Trace(Shapes(payload), payload, Control(0, 0), n)
  }

  lemma DoneSnoc(payload: seq<Instr>, n: nat)
    requires AllLegal(payload)
    ensures Point(payload, 0) == Control(0, 0) && Done(payload, 0) == []
    ensures Point(payload, n).pc >= |payload| ==> Done(payload, n + 1) == Done(payload, n)
    ensures var Control(ip, loop) := Point(payload, n);
            ip < |payload| ==>
              && Done(payload, n + 1) == Done(payload, n) + [payload[ip]]
              && VerifyInstr(ip, payload[ip])
              && Point(payload, n + 1)
                 == if !payload[ip].Jmp? then Control(ip + 1, loop)
                    else if loop < payload[ip].count then Control(ip - payload[ip].offset, loop + 1)
                    else Control(ip + 1, 0)
  {
    hide JumpsInRange, VerifyInstr;
    JumpsLegal(payload);
    TraceSnoc(Shapes(payload), payload, Control(0, 0), n);
  }

  lemma {:induction false} DoneExecutable(payload: seq<Instr>, n: nat)
    requires AllLegal(payload)
    ensures Executable(Done(payload, n))
    ensures Addressed(Commands(Done(payload, n))) && Ordered(Commands(Done(payload, n)))
    decreases n
  {
    hide Done, Point, AllLegal, Commands, Addressed, Ordered, Executable, VerifyInstr;
    DoneSnoc(payload, n);
    if n == 0 {
      NothingExecutable();
    } else {
      DoneExecutable(payload, n - 1);
      DoneSnoc(payload, n - 1);
      var ip := Point(payload, n - 1).pc;
      if ip < |payload| { ExecutableSnoc(Done(payload, n - 1), payload[ip], ip); }
    }
    CommandsOrdered(Done(payload, n));
  }

  lemma NothingExecutable()
    ensures Executable([])
  {
  }

  // ---------------------------------------------------------------- meaning of the registers

  /** While the interpreter runs, its registers and the rank are those of everything executed so far. */
  ghost predicate Agrees(t: Timing, payload: seq<Instr>, n: nat, v: Registers, rank: RankState)
    requires AllLegal(payload)
  {
    var done := Done(payload, n);
    && Control(v.ip, v.loop) == Point(payload, n)
    && v.tick == Sum(Ticks, done) && v.executed == Tally(done)
    && Addressed(Commands(done)) && Check(t, Commands(done)) == (true, rank)
  }

  lemma {:induction false} RunningMeans(t: Timing, payload: seq<Instr>, n: nat)
    requires AllLegal(payload)
    ensures var m := Turns(t, payload, n); m.Running? ==> Agrees(t, payload, n, m.v, m.rank)
    decreases n
  {
    hide Turn, Agrees, AllLegal;
    if n == 0 {
      AgreesAtStart(t, payload);
    } else {
      RunningMeans(t, payload, n - 1);
      TurnAgrees(t, payload, n - 1, Turns(t, payload, n - 1));
    }
  }

  lemma AgreesAtStart(t: Timing, payload: seq<Instr>)
    requires AllLegal(payload)
    ensures Agrees(t, payload, 0, Registers(0, 0, 0, seq(8, _ => 0)), NewRank())
  {
    hide AllLegal, Point, Done;
    DoneSnoc(payload, 0);
    TallyNothing();
  }

  lemma TurnAgrees(t: Timing, payload: seq<Instr>, n: nat, m: Machine)
    requires AllLegal(payload) && Shaped(m) && (m.Running? ==> Agrees(t, payload, n, m.v, m.rank))
    ensures var m' := Turn(t, payload, m); m'.Running? ==> Agrees(t, payload, n + 1, m'.v, m'.rank)
  {
    hide AllLegal, Point, Done, Step, Check, Sum, Tally, Commands, Addressed;
    if m.Running? && m.v.ip < |payload| {
      var i := payload[m.v.ip];
      var done := Done(payload, n);
      DoneSnoc(payload, n);
      DoneExecutable(payload, n + 1);
      CommandsSnoc(done, i);
      TallySnoc(done, i);
      if i.Mem? {
        CheckSnoc(t, Commands(done), Cmd(m.v.tick, i.memOp.op, 0, i.bank));
      } else {
        assert Commands(done) + [] == Commands(done);
      }
    }
  }

  /** Instruction number `k` of the run, at `ip` and tick `when`, is the first command that is rejected. */
  ghost predicate FirstRejected(t: Timing, payload: seq<Instr>, k: nat, ip: nat, when: nat)
    requires AllLegal(payload)
  {
    && Point(payload, k).pc == ip < |payload| && payload[ip].Mem? && when == TickAfter(Done(payload, k))
    && Addressed(Commands(Done(payload, k))) && Accepts(t, Commands(Done(payload, k)))
    && Addressed(Commands(Done(payload, k + 1))) && !Accepts(t, Commands(Done(payload, k + 1)))
  }

  /** Everything was executed and nothing was rejected. */
  ghost predicate AllAccepted(t: Timing, payload: seq<Instr>, k: nat, tick: nat, executed: seq<nat>)
    requires AllLegal(payload)
  {
    && Point(payload, k).pc >= |payload| && tick == Sum(Ticks, Done(payload, k)) && executed == Tally(Done(payload, k))
    && Addressed(Commands(Done(payload, k))) && Accepts(t, Commands(Done(payload, k)))
  }

  ghost predicate Explained(t: Timing, payload: seq<Instr>, k: nat, r: Verdict)
    requires AllLegal(payload)
  {
    (r.Rejected? && FirstRejected(t, payload, k, r.ip, r.when))
    || (r.Passed? && AllAccepted(t, payload, k, r.tick, r.executed))
  }

  lemma TurnEnds(t: Timing, payload: seq<Instr>, n: nat, m: Machine)
    requires AllLegal(payload) && Shaped(m) && m.Running? && Agrees(t, payload, n, m.v, m.rank)
    requires Turn(t, payload, m).Ended?
    ensures Explained(t, payload, n, Turn(t, payload, m).verdict)
  {
    hide AllLegal, Point, Done, Step, Check, Sum, Tally, Commands, Addressed, TickAfter;
    TicksOnFields(Done(payload, n));
    if m.v.ip < |payload| {
      var i := payload[m.v.ip];
      var done := Done(payload, n);
      DoneSnoc(payload, n);
      DoneExecutable(payload, n + 1);
      CommandsSnoc(done, i);
      CheckSnoc(t, Commands(done), Cmd(m.v.tick, i.memOp.op, 0, i.bank));
    }
  }

  /** A verdict is explained by the run up to it. */
  lemma {:induction false} EndedMeans(t: Timing, payload: seq<Instr>, n: nat) returns (k: nat)
    requires AllLegal(payload) && Turns(t, payload, n).Ended?
    ensures Explained(t, payload, k, Turns(t, payload, n).verdict)
    decreases n
  {
    hide AllLegal, Turn, Explained, Agrees;
    k := n - 1;
    if Turns(t, payload, k).Ended? {
      EndedStays(t, payload, k, n);
      k := EndedMeans(t, payload, k);
    } else {
      RunningMeans(t, payload, k);
      var m := Turns(t, payload, k);
      TurnEnds(t, payload, k, m);
    }
  }

  // ---------------------------------------------------------------- when it returns

  ghost predicate RejectedAt(t: Timing, payload: seq<Instr>, n: nat)
    requires AllLegal(payload)
  {
    Addressed(Commands(Done(payload, n))) && !Accepts(t, Commands(Done(payload, n)))
  }

  /** The interpreter returns on a legal payload if and only if no JMP is inside the body of another, which
      is what the message definition prohibits, or some command of its run is rejected. */
  lemma ReturnsIff(t: Timing, payload: seq<Instr>)
    requires AllLegal(payload)
    ensures Returns(t, payload) <==> NonNested(Shapes(payload)) || exists n :: RejectedAt(t, payload, n)
  {
    hide AllLegal, Turns, NonNested, Point, Done, Accepts, Addressed, Commands, Halts;
    JumpsLegal(payload);
    HaltsIffNonNested(Shapes(payload));
    if Returns(t, payload) {
      var n :| Turns(t, payload, n).Ended?;
      var k := EndedMeans(t, payload, n);
      if Turns(t, payload, n).verdict.Passed? {
        PassedHalts(payload, k);
      } else {
        assert RejectedAt(t, payload, k + 1);
      }
    } else {
      forall n ensures !RejectedAt(t, payload, n) {
        assert Turns(t, payload, n).Running?;
        RunningMeans(t, payload, n);
        RunningAccepts(t, payload, n);
      }
      if NonNested(Shapes(payload)) { RunsOut(t, payload); }
    }
  }

  lemma PassedHalts(payload: seq<Instr>, k: nat)
    requires AllLegal(payload) && JumpsInRange(Shapes(payload)) && Point(payload, k).pc >= |payload|
    ensures Halts(Shapes(payload))
  {
  }

  lemma RunningAccepts(t: Timing, payload: seq<Instr>, n: nat)
    requires AllLegal(payload) && Turns(t, payload, n).Running?
    requires Agrees(t, payload, n, Turns(t, payload, n).v, Turns(t, payload, n).rank)
    ensures !RejectedAt(t, payload, n)
  {
    hide AllLegal, Turns, Check, Done, Point, Commands;
  }

  /** Control flow that leaves the payload ends the interpreter. */
  lemma RunsOut(t: Timing, payload: seq<Instr>)
    requires AllLegal(payload) && JumpsInRange(Shapes(payload)) && Halts(Shapes(payload))
    ensures Returns(t, payload)
  {
    hide AllLegal, Turns, Check, Done, Commands, Sum, Tally, Turn;
    var n: nat :| Steps(Shapes(payload), Control(0, 0), n).pc >= |payload|;
    if Turns(t, payload, n).Running? {
      RunningMeans(t, payload, n);
      var m := Turns(t, payload, n);
      LastTurn(t, payload, n);
    }
  }

  lemma LastTurn(t: Timing, payload: seq<Instr>, n: nat)
    requires AllLegal(payload)
    ensures var m := Turns(t, payload, n); m.Running? && m.v.ip >= |payload| ==> Turns(t, payload, n + 1).Ended?
  {
    hide AllLegal;
  }

  // ---------------------------------------------------------------- payloads without nested jumps

  ghost function RunOf(payload: seq<Instr>): seq<Instr>
    requires NonNested(Shapes(payload))
  {
    Unroll(Shapes(payload), payload, |payload|)
  }

  /** What the steps of such a payload execute is its unrolling. */
  lemma DoneIsRun(payload: seq<Instr>, n: nat)
    requires AllLegal(payload) && NonNested(Shapes(payload))
    ensures Done(payload, n) == if n <= |RunOf(payload)| then RunOf(payload)[..n] else RunOf(payload)
    ensures Point(payload, n).pc < |payload| <==> n < |RunOf(payload)|
  {
    hide AllLegal, Unroll, Follows, Trace, Steps, Next;
    RunsUnrolled(Shapes(payload), payload, |payload|);
    FollowsTrace(Shapes(payload), payload, Control(0, 0), RunOf(payload), Control(|payload|, 0), n);
  }

  lemma RunAddressed(payload: seq<Instr>)
    requires AllLegal(payload) && NonNested(Shapes(payload))
    ensures Addressed(Commands(RunOf(payload))) && Ordered(Commands(RunOf(payload))) && Executable(RunOf(payload))
  {
    hide AllLegal, Unroll, Done, Point, Commands;
    DoneIsRun(payload, |RunOf(payload)|);
    DoneExecutable(payload, |RunOf(payload)|);
    assert RunOf(payload)[..|RunOf(payload)|] == RunOf(payload);
  }

  /** The verdict on such a payload: it passes if and only if its whole run is accepted. */
  lemma VerdictMeans(t: Timing, payload: seq<Instr>, k: nat, r: Verdict)
    requires AllLegal(payload) && NonNested(Shapes(payload)) && Explained(t, payload, k, r)
    ensures Addressed(Commands(RunOf(payload)))
    ensures r.Passed? <==> Accepts(t, Commands(RunOf(payload)))
    ensures r.Passed? ==> r.tick == Sum(Ticks, RunOf(payload)) && r.executed == Tally(RunOf(payload))
  {
    hide AllLegal, RunOf, Done, Point, Commands, Sum, Tally, Addressed, Accepts;
    var run := RunOf(payload);
    RunAddressed(payload);
    DoneIsRun(payload, k);
    DoneIsRun(payload, k + 1);
    assert run[..|run|] == run;
    if r.Rejected? {
      assert run == run[..k + 1] + run[k + 1..];
      CommandsPlus(run[..k + 1], run[k + 1..]);
      PrefixRejects(t, Commands(run[..k + 1]), Commands(run));
    }
  }

  lemma PrefixRejects(t: Timing, some: seq<Cmd>, all: seq<Cmd>)
    requires some <= all && Addressed(all) && Addressed(some) && !Accepts(t, some)
    ensures !Accepts(t, all)
  {
    hide Addressed, Accepts;
    assert all == some + all[|some|..];
    if Accepts(t, all) { AcceptsPrefix(t, some, all[|some|..]); }
  }

  /** A prefix of an accepted trace is accepted. */
  lemma {:induction false} AcceptsPrefix(t: Timing, h: seq<Cmd>, more: seq<Cmd>)
    requires Addressed(h + more) && Accepts(t, h + more)
    ensures Addressed(h) && Accepts(t, h)
    decreases |more|
  {
    hide Step;
    assert Addressed(h) by {
      forall i | 0 <= i < |h| ensures h[i].group == 0 && h[i].bank < BANKS { assert (h + more)[i] == h[i]; }
    }
    if more == [] {
      assert h + more == h;
    } else {
      var front := more[..|more| - 1];
      assert (h + more)[..|h + more| - 1] == h + front;
      AcceptsPrefix(t, h, front);
    }
  }

  lemma {:induction false} CommandsPlus(a: seq<Instr>, b: seq<Instr>)
    ensures Commands(a) <= Commands(a + b)
    decreases |b|
  {
    hide Sum;
    if b == [] {
      assert a + b == a;
    } else {
      var front, last := b[..|b| - 1], b[|b| - 1];
      CommandsPlus(a, front);
      CommandsSnoc(a + front, last);
      assert a + b == a + front + [last];
    }
  }

  // ---------------------------------------------------------------- the program

  /** The fields of the message `Timing` in the order of their numbers. */
  function TimingFields(t: Timing, tickPs: nat): seq<nat> {
    [tickPs, t.bank.ras, t.bank.rp, t.rfc, t.bank.rcd, t.ccd, t.bank.rtp, t.rrd, t.faw]
  }

  predicate Positive(t: Timing, tickPs: nat) {
    tickPs > 0 && t.bank.ras > 0 && t.bank.rp > 0 && t.rfc > 0 && t.bank.rcd > 0 && t.ccd > 0 && t.bank.rtp > 0
    && t.rrd > 0 && t.faw > 0
  }

  /** A verdict of the interpreter: a rejection names the first rejected command of the run; a payload
      without nested jumps passes if and only if its whole run is accepted, with the totals of that run; one
      with nested jumps does not pass. */
  ghost predicate Justified(t: Timing, payload: seq<Instr>, r: Verdict)
    requires AllLegal(payload)
  {
    && (r.Rejected? || r.Passed?)
    && (r.Rejected? ==> exists k :: FirstRejected(t, payload, k, r.ip, r.when))
    && (r.Passed? ==> NonNested(Shapes(payload)))
    && (NonNested(Shapes(payload)) ==>
          && Addressed(Commands(RunOf(payload)))
          && (r.Passed? <==> Accepts(t, Commands(RunOf(payload))))
          && (r.Passed? ==> r.tick == TickAfter(RunOf(payload)) && r.executed == CountsOf(RunOf(payload))))
  }

  lemma ExplainedJustifies(t: Timing, payload: seq<Instr>, k: nat, r: Verdict)
    requires AllLegal(payload) && Explained(t, payload, k, r)
    ensures Justified(t, payload, r)
  {
    hide AllLegal, RunOf, Done, Point, Commands, Sum, Tally, Addressed, Accepts, NonNested, Halts, TickAfter, CountsOf;
    if r.Passed? {
      JumpsLegal(payload);
      PassedHalts(payload, k);
      HaltsIffNonNested(Shapes(payload));
    }
    if NonNested(Shapes(payload)) {
      VerdictMeans(t, payload, k, r);
      RunAddressed(payload);
      TicksOnFields(RunOf(payload));
      CountsOnFields(RunOf(payload));
    }
  }

  /** The interpreter loop, for every payload on which it returns. */
  method Interpret(timing: Timing, payload: seq<Instr>) returns (r: Verdict)
    requires AllLegal(payload) && Returns(timing, payload)
    ensures Justified(timing, payload, r)
  {
    hide AllLegal, Step, Turns, Justified, Explained, VerifyInstr, Advance, Tables, FirstRejected, AllAccepted;
    var state := new State();
    var rank := new Rank(timing);
    ghost var n, end: nat := 0, EndOf(timing, payload);
    FirstTurn(timing, payload);
    while state.ip < |payload|
      invariant fresh(state) && rank.Valid() && fresh(rank) && fresh(rank.banks) && rank.timing == timing
      invariant |state.executed| == 8 && Turns(timing, payload, n) == Running(state.Regs(), rank.State())
      decreases end - n
    {
      var instr := payload[state.ip];
      NextTurn(timing, payload, n, end);
      n := n + 1;
      if instr.Mem? {
        var ok := rank.Execute(Cmd(state.tick, instr.memOp.op, 0, instr.bank));
        if !ok {
          ghost var k := EndedMeans(timing, payload, n);
          r := Rejected(state.ip, state.tick);
          ExplainedJustifies(timing, payload, k, r);
          return;
        }
      }
      state.Move(instr);
    }
    NextTurn(timing, payload, n, end);
    ghost var k := EndedMeans(timing, payload, n + 1);
    r := Passed(state.tick, state.executed);
    ExplainedJustifies(timing, payload, k, r);
  }

  ghost function EndOf(t: Timing, payload: seq<Instr>): (n: nat)
    requires AllLegal(payload) && Returns(t, payload)
    ensures Turns(t, payload, n).Ended?
  {
    var n :| Turns(t, payload, n).Ended?;
    n
  }

  lemma FirstTurn(t: Timing, payload: seq<Instr>)
    requires AllLegal(payload)
    ensures Turns(t, payload, 0) == Running(Registers(0, 0, 0, seq(8, _ => 0)), NewRank())
  {
  }

  /** One iteration of the loop, spelled out. */
  lemma NextTurn(t: Timing, payload: seq<Instr>, n: nat, end: nat)
    requires AllLegal(payload) && Turns(t, payload, n).Running? && Turns(t, payload, end).Ended?
    ensures n < end
    ensures var Running(v, rank) := Turns(t, payload, n);
            var next := Turns(t, payload, n + 1);
            if v.ip >= |payload| then next == Ended(Passed(v.tick, v.executed))
            else
              var i := payload[v.ip];
              && !i.Unset? && (i.Jmp? ==> i.offset <= v.ip)
              && (i.Mem? ==> i.memOp.MEM? && i.bank < BANKS)
              && next == if i.Mem? then
                           var r := Step(t, rank, Cmd(v.tick, i.memOp.op, 0, i.bank));
                           if r.0 then Running(Advance(v, i), r.1) else Ended(Rejected(v.ip, v.tick))
                         else Running(Advance(v, i), rank)
  {
    hide Step, Advance;
    if n >= end { EndedStays(t, payload, end, n); }
    var v := Turns(t, payload, n).v;
    if v.ip < |payload| { assert VerifyInstr(v.ip, payload[v.ip]); }
  }

  /** `main` without its command line and its console output, for every input on which it returns. */
  method Verify(timing: Timing, tickPs: nat, payload: seq<Instr>) returns (r: Verdict)
    requires Positive(timing, tickPs) && AllLegal(payload) ==> Returns(timing, payload)
    ensures r.TimingNotPositive?
       <==> || tickPs == 0 || timing.bank.ras == 0 || timing.bank.rp == 0 || timing.rfc == 0 || timing.bank.rcd == 0
            || timing.ccd == 0 || timing.bank.rtp == 0 || timing.rrd == 0 || timing.faw == 0
    ensures r.Illegal? <==> !r.TimingNotPositive? && !AllLegal(payload)
    ensures r.Illegal? ==> r.at < |payload| && !VerifyInstr(r.at, payload[r.at]) && AllLegal(payload[..r.at])
    ensures r.Passed? || r.Rejected? ==> AllLegal(payload) && Justified(timing, payload, r)
  {
    hide VerifyInstr, Justified, Returns;
    var fields := TimingFields(timing, tickPs);
    for k := 0 to |fields|
      invariant forall j :: 0 <= j < k ==> fields[j] > 0
    {
      if fields[k] <= 0 {
        NotPositive(timing, tickPs, k);
        return TimingNotPositive;
      }
    }
    AllPositive(timing, tickPs);
    for i := 0 to |payload|
      invariant forall k :: 0 <= k < i ==> VerifyInstr(k, payload[k])
    {
      if !VerifyInstr(i, payload[i]) {
        return Illegal(i);
      }
    }
    r := Interpret(timing, payload);
    JustifiedKind(timing, payload, r);
  }

  lemma NotPositive(t: Timing, tickPs: nat, k: nat)
    requires k < |TimingFields(t, tickPs)| && TimingFields(t, tickPs)[k] <= 0
    ensures !Positive(t, tickPs)
  {
  }

  lemma AllPositive(t: Timing, tickPs: nat)
    requires forall k :: 0 <= k < |TimingFields(t, tickPs)| ==> TimingFields(t, tickPs)[k] > 0
    ensures Positive(t, tickPs)
  {
    var fields := TimingFields(t, tickPs);
    assert fields[0] > 0 && fields[1] > 0 && fields[2] > 0 && fields[3] > 0 && fields[4] > 0;
    assert fields[5] > 0 && fields[6] > 0 && fields[7] > 0 && fields[8] > 0;
  }

  lemma JustifiedKind(t: Timing, payload: seq<Instr>, r: Verdict)
    requires AllLegal(payload) && Justified(t, payload, r)
    ensures r.Passed? || r.Rejected?
  {
    hide AllLegal;
  }

  lemma TallyNothing()
    ensures Tally([]) == seq(8, _ => 0) && Sum(Ticks, []) == 0 && Commands([]) == []
  {
  }

  lemma CheckSnoc(t: Timing, h: seq<Cmd>, c: Cmd)
    requires Addressed(h + [c]) && Addressed(h) && c.bank < BANKS
    ensures Check(t, h + [c]) == if Check(t, h).0 then Step(t, Check(t, h).1, c) else Check(t, h)
  {
    hide Step;
    assert (h + [c])[..|h|] == h;
  }

  /** A passing verdict means: every command is legal over the whole history, the final tick and the
      executed counts are their closed forms, with each loop body run count + 1 times. */
  lemma PassedMeans(timing: Timing, payload: seq<Instr>)
    requires AllLegal(payload) && NonNested(Shapes(payload))
    ensures Addressed(Commands(RunOf(payload))) && Ordered(Commands(RunOf(payload)))
    ensures Accepts(timing, Commands(RunOf(payload))) <==> Legal(timing, Commands(RunOf(payload)))
    ensures Sum(Ticks, RunOf(payload)) == ClosedForm(Ticks, Shapes(payload), payload, |payload|)
    ensures forall v :: 0 <= v < 8 ==>
              Tally(RunOf(payload))[v] == ClosedForm(IsOp(v), Shapes(payload), payload, |payload|)
  {
    hide AllLegal, NonNested, Unroll, Sum, ClosedForm, Legal, Accepts, Ordered, Addressed;
    RunAddressed(payload);
    AcceptsIffLegal(timing, Commands(RunOf(payload)));
    SumUnroll(Ticks, Shapes(payload), payload, |payload|);
    forall v | 0 <= v < 8 ensures Tally(RunOf(payload))[v] == ClosedForm(IsOp(v), Shapes(payload), payload, |payload|) {
      SumUnroll(IsOp(v), Shapes(payload), payload, |payload|);
    }
  }
}
