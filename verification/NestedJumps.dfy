/** Payloads with jumps inside the body of another: when the interpreter returns on them. */
module NestedJumps {
  import opened Loops
  import opened Dram
  import opened Ddr3
  import opened PayloadInstr
  import opened VerifyPayload

  /** A nested payload on which the interpreter returns, whatever the timing: its second command activates a
      bank that is open. */
  lemma NestedReturns(t: Timing) returns (payload: seq<Instr>)
    ensures var act := Mem(MEM(ACT), 1, 0, 0, 0);
            payload == [act, act, Jmp(JMP, 1, 1), Jmp(JMP, 2, 1)]
    ensures AllLegal(payload) && !NonNested(Shapes(payload)) && Returns(t, payload)
  {
    hide Returns, Commands, Check, Accepts, Done, Point;
    var act := Mem(MEM(ACT), 1, 0, 0, 0);
    payload := [act, act, Jmp(JMP, 1, 1), Jmp(JMP, 2, 1)];
    assert Shapes(payload)[2] == Back(1, 1) && Shapes(payload)[3] == Back(1, 2);
    DoneSnoc(payload, 0);
    DoneSnoc(payload, 1);
    assert Done(payload, 2) == [act] + [act];
    TwoActivates(t, act);
    assert RejectedAt(t, payload, 2);
    ReturnsIff(t, payload);
  }

  lemma TwoActivates(t: Timing, act: Instr)
    requires act == Mem(MEM(ACT), 1, 0, 0, 0)
    ensures Addressed(Commands([act] + [act])) && !Accepts(t, Commands([act] + [act]))
  {
    hide Accepts, Check, Addressed, Commands;
    TwoCommands(act);
    OpenBankRejects(t);
  }

  lemma TwoCommands(act: Instr)
    requires act == Mem(MEM(ACT), 1, 0, 0, 0)
    ensures Commands([act] + [act]) == [Cmd(0, ACT, 0, 0), Cmd(1, ACT, 0, 0)]
  {
    CommandsSnoc([], act);
    CommandsSnoc([act], act);
    assert [] + [act] == [act];
    SumOne(Ticks, act);
  }

  lemma OpenBankRejects(t: Timing)
    ensures var h := [Cmd(0, ACT, 0, 0), Cmd(1, ACT, 0, 0)]; Addressed(h) && !Accepts(t, h)
  {
    hide Accepts, Check, RankLegal, FourActivates, Acts;
    var first := Cmd(0, ACT, 0, 0);
    var h := [first, Cmd(1, ACT, 0, 0)];
    AcceptsIffLegal(t, h);
    assert h[..1] == [first];
    assert Open([first], InBank(ACT, 0, 0), InBank(PRE, 0, 0)) by { assert Match(InBank(ACT, 0, 0), [first][0]); }
    assert !LegalNext(t, h[..1], h[1]);
  }

  /** Nested jumps without any command to reject: the interpreter runs forever, whatever the timing. */
  lemma SilentNestedRunsForever(t: Timing, payload: seq<Instr>)
    requires AllLegal(payload) && !NonNested(Shapes(payload))
    requires forall i :: 0 <= i < |payload| ==> !payload[i].Mem?
    ensures !Returns(t, payload)
  {
    hide AllLegal, NonNested, Returns;
    ReturnsIff(t, payload);
    forall n ensures !RejectedAt(t, payload, n) {
      SilentRun(payload, n);
    }
  }

  lemma {:induction false} SilentRun(payload: seq<Instr>, n: nat)
    requires AllLegal(payload) && forall i :: 0 <= i < |payload| ==> !payload[i].Mem?
    ensures Commands(Done(payload, n)) == []
    decreases n
  {
    hide AllLegal, Done, Point, Commands;
    DoneSnoc(payload, 0);
    TallyNothing();
    if n > 0 {
      SilentRun(payload, n - 1);
      DoneSnoc(payload, n - 1);
      var ip := Point(payload, n - 1).pc;
      if ip < |payload| { CommandsSnoc(Done(payload, n - 1), payload[ip]); }
    }
  }

  /** One that does. */
  lemma NestedForever(t: Timing) returns (payload: seq<Instr>)
    ensures payload == [Nop(NOP, 1), Jmp(JMP, 1, 1), Jmp(JMP, 2, 1)]
    ensures AllLegal(payload) && !Returns(t, payload)
  {
    hide Returns;
    payload := [Nop(NOP, 1), Jmp(JMP, 1, 1), Jmp(JMP, 2, 1)];
    assert Shapes(payload)[1] == Back(1, 1) && Shapes(payload)[2] == Back(1, 2);
    SilentNestedRunsForever(t, payload);
  }
}
