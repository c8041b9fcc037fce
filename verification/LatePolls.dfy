/** A poll that is already due when the loop gets to wait makes it wait a full interval more. */
module LatePolls {
  import opened Tables
  import opened Clock
  import opened Pressure
  import opened EventLoop
  import opened LateReports

  const SECOND := Timespec(1, 0)

  /** A low-level event on a quiet device starts polling. */
  function StartTurn(): Turn {
    Turn(START, START, false, Client, START, [Called(PressureAct(LEVEL_LOW, 1, Restful(START, 0)), START)])
  }

  /** The loop gets to wait again a second later, and waits for the whole interval. */
  function OverdueTurn(after: Timespec): Turn {
    Turn(SECOND, after, false, PressureAct(LEVEL_LOW, 0, Restful(after, 0)), after, [])
  }

  lemma Started(cfg: Cfg, l: Loop)
    requires Idle(l)
    ensures LegalRun(cfg, l, [StartTurn()])
    ensures var t := Run(cfg, l, [StartTurn()]);
            && t.poll == Some(PsiHandler(LEVEL_LOW)) && t.sys.update == Start && Paced(t.sys.intervalMs)
            && t.lastPollTm == START && t.clock == START
  {
    var act := PressureAct(LEVEL_LOW, 1, Restful(START, 0));
    Rests(cfg, l.sys.(update := Unchanged), START, 0, 1, LEVEL_LOW);
    OneCall(cfg, l, act, START);
    EmptyRun(cfg, l);
    hide PsiEvent, Deliver, Timely, Run, LegalRun;
    assert l.(clock := START) == l;
    OneMoreTurn(cfg, l, [], StartTurn());
    assert [] + [StartTurn()] == [StartTurn()];
  }

  /**
   From an idle daemon: polling starts, the loop is kept busy for a second, and
   then, with a poll overdue by at least nine tenths of it, waits for another
   interval before it polls.
   */
  lemma OverduePollWaits(cfg: Cfg, l: Loop, after: Timespec)
    requires Idle(l) && Later(SECOND, after)
    ensures var t := Run(cfg, l, [StartTurn()]);
            && LegalRun(cfg, l, [StartTurn(), OverdueTurn(after)])
            && PollsNow(t, SECOND) && DiffMs(t.lastPollTm, SECOND) >= t.sys.intervalMs + 900
            && SleepOf(cfg, t, SECOND) == For(t.sys.intervalMs)
  {
    Started(cfg, l);
    var t := Run(cfg, l, [StartTurn()]);
    EmptyRun(cfg, t.(clock := after));
    DiffIsMonotone(START, SECOND, after);
    hide Run, LegalRun, Timely;
    OneMoreTurn(cfg, l, [StartTurn()], OverdueTurn(after));
    assert [StartTurn()] + [OverdueTurn(after)] == [StartTurn(), OverdueTurn(after)];
  }
}
