/**
 What happens when the reaper reports a failed kill after the wait for it has
 timed out. The handler reads the pid of the report and ignores it, so the
 report ends whatever wait is in progress, or the polling if there is none.
 */
module LateReports {
  import opened Tables
  import opened Clock
  import opened Watermarks
  import opened Pressure
  import Properties = PressureProperties
  import opened EventLoop

  // ---------------------------------------------------------------- whose wait a report ends

  /** A memory event that leaves the wait alone. */
  predicate HeldEvent(cfg: Cfg, s: Sys, e: MemEvent) {
    e.VendorRequest? ==> !Properties.Stops(cfg, VendorKill(e.code, e.minScore), 0, s, e.smp)
  }

  predicate HeldEvents(cfg: Cfg, s: Sys, es: seq<MemEvent>, now: Timespec) {
    es == [] ||
    (var k := |es| - 1; HeldEvents(cfg, s, es[..k], now) && HeldEvent(cfg, OnMemEvents(cfg, s, es[..k], now), es[k]))
  }

  /** A handler call that leaves the wait alone: no report, and no pressure event that goes on to stop it. */
  predicate Held(cfg: Cfg, s: Sys, a: Act) {
    match a
    case PressureAct(level, events, smp) => !Properties.Stops(cfg, Psi(level), events, s, smp)
    case MemeventAct(now, fetched) => now.Some? && fetched.Some? ==> HeldEvents(cfg, s, fetched.value, now.value)
    case KillDone => false
    case KillFail(_) => false
    case Client => true
  }

  lemma {:induction false} MemEventsWait(cfg: Cfg, s: Sys, es: seq<MemEvent>, now: Timespec)
    ensures var t := OnMemEvents(cfg, s, es, now);
            && (HeldEvents(cfg, s, es, now) ==> Properties.SameWait(s, t))
            && (!HeldEvents(cfg, s, es, now) || s.wait < 0 ==> Properties.LaterWait(s, t))
  {
    hide PsiEvent, Properties.Stops;
    if es != [] {
      var k := |es| - 1;
      var u := OnMemEvents(cfg, s, es[..k], now);
      MemEventsWait(cfg, s, es[..k], now);
      if es[k].VendorRequest? {
        Properties.EventWait(cfg, VendorKill(es[k].code, es[k].minScore), 0, u, es[k].smp);
      }
    }
  }

  /** A call that leaves the wait alone keeps it; after any other, and when there was none, any wait is a later one. */
  lemma HandleWait(cfg: Cfg, s: Sys, a: Act)
    ensures var t := Handle(cfg, s, a);
            && (Held(cfg, s, a) ==> Properties.SameWait(s, t))
            && (!Held(cfg, s, a) || s.wait < 0 ==> Properties.LaterWait(s, t))
  {
    hide PsiEvent, OnMemEvents, Properties.Stops, HeldEvents;
    match a {
      case PressureAct(level, events, smp) => Properties.EventWait(cfg, Psi(level), events, s, smp);
      case MemeventAct(now, fetched) =>
        if now.Some? && fetched.Some? {
          MemEventsWait(cfg, s, fetched.value, now.value);
        }
      case KillDone =>
      case KillFail(_) =>
      case Client =>
    }
  }

  predicate HeldCall(cfg: Cfg, l: Loop, a: Act) {
    Held(cfg, l.sys.(update := Unchanged), a)
  }

  lemma CallWait(cfg: Cfg, l: Loop, a: Act, now: Timespec)
    ensures var t := CallHandler(cfg, l, a, now);
            && (HeldCall(cfg, l, a) ==> Properties.SameWait(l.sys, t.sys))
            && (!HeldCall(cfg, l, a) || l.sys.wait < 0 ==> Properties.LaterWait(l.sys, t.sys))
  {
    hide Handle, Held, DiffMs;
    HandleWait(cfg, l.sys.(update := Unchanged), a);
  }

  predicate HeldDeliveries(cfg: Cfg, l: Loop, events: seq<Delivery>) {
    events == [] ||
    (var k := |events| - 1;
     && HeldDeliveries(cfg, l, events[..k])
     && (events[k].Called? ==> HeldCall(cfg, Deliver(cfg, l, events[..k]), events[k].act)))
  }

  lemma {:induction false} DeliverWait(cfg: Cfg, l: Loop, events: seq<Delivery>)
    ensures var t := Deliver(cfg, l, events);
            && (HeldDeliveries(cfg, l, events) ==> Properties.SameWait(l.sys, t.sys))
            && (!HeldDeliveries(cfg, l, events) || l.sys.wait < 0 ==> Properties.LaterWait(l.sys, t.sys))
  {
    hide CallHandler, HeldCall;
    if events != [] {
      var k := |events| - 1;
      DeliverWait(cfg, l, events[..k]);
      if events[k].Called? {
        CallWait(cfg, Deliver(cfg, l, events[..k]), events[k].act, events[k].done);
      }
    }
  }

  /** A turn that leaves the wait alone: it does not time out, and every call in it is held back. */
  predicate HeldTurn(cfg: Cfg, l: Loop, turn: Turn) {
    !TimesOut(cfg, l, turn) && HeldDeliveries(cfg, l.(clock := turn.after), turn.events)
  }

  lemma TurnWait(cfg: Cfg, l: Loop, turn: Turn)
    requires Inv(cfg, l) && cfg.pidfds
    ensures var t := OneTurn(cfg, l, turn);
            && (Waiting(cfg, l) && HeldTurn(cfg, l, turn) ==> Properties.SameWait(l.sys, t.sys))
            && (!HeldTurn(cfg, l, turn) || l.sys.wait < 0 ==> Properties.LaterWait(l.sys, t.sys))
  {
    hide CallHandler, Deliver, HeldDeliveries, DiffMs;
    CallWait(cfg, l.(clock := turn.after), turn.polled, turn.polledTm);
    DeliverWait(cfg, AfterPoll(cfg, l, turn), turn.events);
  }

  predicate HeldRun(cfg: Cfg, l: Loop, turns: seq<Turn>) {
    turns == [] ||
    (HeldRun(cfg, l, turns[..|turns| - 1]) && HeldTurn(cfg, Run(cfg, l, turns[..|turns| - 1]), turns[|turns| - 1]))
  }

  /**
   From a state that waits for a victim, over every run: the wait in progress at
   its end is still that one, for that victim, exactly when no report and no
   timeout came in between and every pressure event was held back.
   */
  lemma {:induction false} OwnWaitIff(cfg: Cfg, l: Loop, turns: seq<Turn>)
    requires Inv(cfg, l) && Waiting(cfg, l)
    ensures var t := Run(cfg, l, turns);
            && (Waiting(cfg, t) && t.sys.waits == l.sys.waits <==> HeldRun(cfg, l, turns))
            && (HeldRun(cfg, l, turns) ==> Properties.SameWait(l.sys, t.sys))
            && (!HeldRun(cfg, l, turns) ==> Properties.LaterWait(l.sys, t.sys))
            && Inv(cfg, t)
  {
    hide OneTurn, HeldTurn;
    if turns != [] {
      var k := |turns| - 1;
      OwnWaitIff(cfg, l, turns[..k]);
      TurnWait(cfg, Run(cfg, l, turns[..k]), turns[k]);
      TurnKeepsInv(cfg, Run(cfg, l, turns[..k]), turns[k]);
    }
  }

  /**
   So a failure report on the victim of l that finds a wait in progress ends the
   wait it is about exactly when nothing ended that wait before; any other wait
   it ends is a later one.
   */
  lemma ReportEndsOwnWaitIff(cfg: Cfg, l: Loop, turns: seq<Turn>, now: Timespec)
    requires Inv(cfg, l) && Waiting(cfg, l) && Waiting(cfg, Run(cfg, l, turns))
    ensures var t := Run(cfg, l, turns);
            && CallHandler(cfg, t, KillFail(l.sys.victim), now).sys.wait < 0
            && (if HeldRun(cfg, l, turns) then Properties.SameWait(l.sys, t.sys) else t.sys.waits > l.sys.waits)
  {
    hide Run, HeldRun;
    OwnWaitIff(cfg, l, turns);
    ReportEnds(cfg, Run(cfg, l, turns), l.sys.victim, now);
  }

  // ---------------------------------------------------------------- two runs

  const START := Timespec(0, 0)
  const TIMEOUT := Timespec(0, 100_000_000)
  const LIMITS := Marks(30, 20, 10)

  /** Low memory and a search that kills `pid` and waits on `fd`. */
  function Pressed(now: Timespec, refault: int, pid: int, fd: int): Sample {
    Sample(Some(now), false, Some(Vmstat(refault, 0, 0, 0, 0, 0, 0)), Some(Meminfo(5, 0, 0, 0, 0, 0, 0, 0)),
           Look(Some(LIMITS), None), Look(None, None), min => Found(10, fd, Some(pid)), 0)
  }

  /** Nothing refaults, nothing is reclaimed, and there is plenty of memory. */
  function Restful(now: Timespec, refault: int): Sample {
    Sample(Some(now), false, Some(Vmstat(refault, 0, 0, 0, 0, 0, 0)), Some(Meminfo(50, 0, 0, 0, 0, 0, 0, 0)),
           Look(Some(LIMITS), None), Look(None, None), min => Found(0, -1, None), 0)
  }

  predicate NoReclaim(m: Monitor) {
    Zero(m.directStart) && Zero(m.kswapdStart) && m.initDirect == 0 && m.initKswapd == 0 && m.initRefill == 0
  }

  predicate Idle(l: Loop) {
    && Initial(l) && !l.sys.m.firstKill && l.sys.m.marks == LIMITS && l.sys.m.prevRefault == 0
    && l.sys.m.prevLevel == LEVEL_LOW && l.clock == START && NoReclaim(l.sys.m)
  }

  predicate Settings(cfg: Cfg) {
    cfg.pidfds && Clamped(cfg) && 1 <= cfg.killTimeoutMs <= 100
  }

  /** A critical event at the start kills process 77. */
  function KillTurn(): Turn {
    Turn(START, START, false, Client, START,
         [Called(PressureAct(LEVEL_CRITICAL, 1, Pressed(START, 1, 77, 5)), START)])
  }

  /** Nothing is heard of it within the timeout. */
  function TimeoutTurn(): Turn {
    Turn(START, TIMEOUT, false, Client, TIMEOUT, [])
  }

  /** The poll that follows at once. */
  function PollTurn(smp: Sample): Turn {
    Turn(TIMEOUT, TIMEOUT, false, PressureAct(LEVEL_CRITICAL, 0, smp), TIMEOUT, [])
  }

  /** Then the reaper reports that 77 could not be killed. */
  function ReportTurn(): Turn {
    Turn(TIMEOUT, TIMEOUT, false, Client, TIMEOUT, [Called(KillFail(77), TIMEOUT)])
  }

  lemma EventKeeps(cfg: Cfg, source: Source, events: nat, s: Sys, smp: Sample)
    requires !s.m.firstKill && smp.vmstat.Some? && smp.first.zones == Some(s.m.marks)
    requires NoReclaim(s.m) && smp.vmstat.value == Vmstat(smp.vmstat.value.refault, 0, 0, 0, 0, 0, 0)
    ensures var o := PsiEvent(cfg, source, events, s, smp);
            && !o.sys.m.firstKill && o.sys.m.marks == s.m.marks && NoReclaim(o.sys.m)
            && (o.call.Some? ==> o.sys.m.prevRefault == Refault(smp.vmstat.value))
  {
    hide Judge, Measure, Brief, Quiet, SwapLow, DiffMs;
    if smp.now.Some? && smp.meminfo.Some? {
      var now, v, mi := smp.now.value, smp.vmstat.value, smp.meminfo.value;
      var u := StopWaiting(NoteLevel(source, events, s));
      Properties.MeasureKeeps(cfg, u.m, v, now, smp.overshift);
      ResetNotes(s.m, u.m, v, now);
      MeasureNotes(cfg, AfterKill(u.m, v, now), v, now, smp.overshift);
      JudgeKeeps(cfg, u.(m := Measure(cfg, AfterKill(u.m, v, now), v, now, smp.overshift).0), now, mi, smp,
                 Brief(cfg, source, events, u, now, v, mi, smp.overshift));
    }
  }

  lemma ResetNotes(m: Monitor, n: Monitor, v: Vmstat, now: Timespec)
    requires NoReclaim(m) && n == m.(prevLevel := n.prevLevel)
    ensures NoReclaim(AfterKill(n, v, now))
  {
  }

  lemma MeasureNotes(cfg: Cfg, m: Monitor, v: Vmstat, now: Timespec, overshift: int)
    requires NoReclaim(m) && v == Vmstat(v.refault, 0, 0, 0, 0, 0, 0)
    ensures Measure(cfg, m, v, now, overshift).0.prevRefault == Refault(v)
    ensures NoReclaim(Measure(cfg, m, v, now, overshift).0)
  {
    hide Carried, Refaulted, DiffMs;
  }

  lemma JudgeKeeps(cfg: Cfg, s: Sys, now: Timespec, mi: Meminfo, smp: Sample, f: Facts)
    requires !s.m.firstKill && smp.first.zones == Some(s.m.marks)
    ensures var t := Judge(cfg, s, now, mi, smp, f).sys;
            && !t.m.firstKill && t.m.marks == s.m.marks && t.m.prevRefault == s.m.prevRefault
            && (NoReclaim(s.m) ==> NoReclaim(t.m))
  {
    hide Choose, DiffMs, Marked, Stalled, Strike;
    forall u: Sys, g, c, stall ensures Kept(u.m, Strike(cfg, u, now, smp.search, g, c, stall).sys.m) {
      StrikeKeeps(cfg, u, now, smp.search, g, c, stall);
    }
  }

  predicate Kept(m: Monitor, n: Monitor) {
    && n.firstKill == m.firstKill && n.marks == m.marks && n.prevRefault == m.prevRefault
    && (NoReclaim(m) ==> NoReclaim(n))
  }

  lemma StrikeKeeps(cfg: Cfg, s: Sys, now: Timespec, search: int -> Found, f: Facts, c: Choice, stall: bool)
    ensures Kept(s.m, Strike(cfg, s, now, search, f, c, stall).sys.m)
  {
  }

  /** Under such pressure the search is made, and polling pauses for the wait it leaves. */
  lemma Kills(cfg: Cfg, l: Loop, events: nat, now: Timespec, refault: int, pid: int, fd: nat)
    requires Settings(cfg) && l.sys.wait < 0 && !l.sys.m.firstKill && l.sys.m.marks == LIMITS && NoReclaim(l.sys.m)
    requires refault != 0 && refault != l.sys.m.prevRefault
    requires events == 0 || l.sys.m.prevLevel <= LEVEL_CRITICAL
    ensures var t := CallHandler(cfg, l, PressureAct(LEVEL_CRITICAL, events, Pressed(now, refault, pid, fd)), now);
            && t.poll.None? && t.paused == Some(PsiHandler(LEVEL_CRITICAL))
            && t.sys.wait == fd && t.sys.victim == pid && t.sys.killTm == now && t.clock == now
            && !t.sys.m.firstKill && t.sys.m.marks == LIMITS && NoReclaim(t.sys.m) && t.sys.m.prevRefault == refault
  {
    var s, smp := l.sys.(update := Unchanged), Pressed(now, refault, pid, fd);
    var source := Psi(LEVEL_CRITICAL);
    Presses(cfg, s, events, now, refault, pid, fd);
    EventKeeps(cfg, source, events, s, smp);
    Properties.SearchResult(cfg, source, events, s, smp);
    Properties.WaitPauses(cfg, source, events, s, smp);
    Properties.CallShape(cfg, source, events, s, smp);
    hide PsiEvent, Properties.FactsOf, Choose, DiffMs, Properties.Reads, Properties.CriticalStall;
    hide NoReclaim;
  }

  lemma Presses(cfg: Cfg, s: Sys, events: nat, now: Timespec, refault: int, pid: int, fd: nat)
    requires Settings(cfg) && s.wait < 0 && !s.m.firstKill && s.m.marks == LIMITS
    requires refault != 0 && refault != s.m.prevRefault
    requires events == 0 || s.m.prevLevel <= LEVEL_CRITICAL
    ensures PsiEvent(cfg, Psi(LEVEL_CRITICAL), events, s, Pressed(now, refault, pid, fd)).call.Some?
  {
    hide PsiEvent, Brief, DiffMs;
    Properties.EventKillsIff(cfg, Psi(LEVEL_CRITICAL), events, s, Pressed(now, refault, pid, fd));
  }

  /** The first two turns: a kill, and a wait that times out. */
  lemma TimedOut(cfg: Cfg, l: Loop)
    requires Settings(cfg) && Idle(l)
    ensures LegalRun(cfg, l, [KillTurn(), TimeoutTurn()])
    ensures var t := Run(cfg, l, [KillTurn(), TimeoutTurn()]);
            && t.poll == Some(PsiHandler(LEVEL_CRITICAL)) && t.paused.None? && t.sys.wait < 0
            && t.sys.update == Resume && t.startTm == TIMEOUT && t.clock == TIMEOUT
            && t.sys.intervalMs == POLL_SHORT_MS
            && !t.sys.m.firstKill && t.sys.m.marks == LIMITS && NoReclaim(t.sys.m) && t.sys.m.prevRefault == 1
  {
    Kills(cfg, l, 1, START, 1, 77, 5);
    var act := PressureAct(LEVEL_CRITICAL, 1, Pressed(START, 1, 77, 5));
    OneCall(cfg, l, act, START);
    hide CallHandler, Deliver, Timely, Run, LegalRun;
    assert l.(clock := START) == l;
    EmptyRun(cfg, l);
    OneMoreTurn(cfg, l, [], KillTurn());
    var t1 := Run(cfg, l, [KillTurn()]);
    assert [] + [KillTurn()] == [KillTurn()];
    assert t1 == CallHandler(cfg, l, act, START);
    OneMoreTurn(cfg, l, [KillTurn()], TimeoutTurn());
    assert [KillTurn()] + [TimeoutTurn()] == [KillTurn(), TimeoutTurn()];
  }

  /** On a quiet device an event ends early: it starts polling if it is one, and a poll asks for nothing. */
  lemma Rests(cfg: Cfg, s: Sys, now: Timespec, refault: int, events: nat, level: int)
    requires s.wait < 0 && s.update == Unchanged && NoReclaim(s.m) && s.m.prevRefault == refault
    requires events == 0 || s.m.prevLevel <= level
    ensures var t := PsiEvent(cfg, Psi(level), events, s, Restful(now, refault)).sys;
            && t.wait < 0 && Paced(t.intervalMs) && t.update == if events > 0 then Start else Unchanged
  {
    var smp := Restful(now, refault);
    assert Quiet(cfg, AfterKill(s.m, smp.vmstat.value, now), smp.vmstat.value);
    Properties.QuietEvent(cfg, level, events, s, smp);
    hide PsiEvent, SwapLow, DiffMs;
  }

  /** A poll that asks for nothing leaves the window open. */
  lemma PolledQuiet(cfg: Cfg, l: Loop)
    requires Settings(cfg) && Idle(l)
    ensures LegalRun(cfg, l, [KillTurn(), TimeoutTurn(), PollTurn(Restful(TIMEOUT, 1))])
    ensures var t := Run(cfg, l, [KillTurn(), TimeoutTurn(), PollTurn(Restful(TIMEOUT, 1))]);
            && t.poll == Some(PsiHandler(LEVEL_CRITICAL)) && t.paused.None? && t.sys.wait < 0
            && t.sys.update == Unchanged && t.lastPollTm == TIMEOUT && t.clock == TIMEOUT && Paced(t.sys.intervalMs)
  {
    hide Run, LegalRun, Deliver, Timely, NoReclaim;
    TimedOut(cfg, l);
    var t := Run(cfg, l, [KillTurn(), TimeoutTurn()]);
    Rests(cfg, t.sys.(update := Unchanged), TIMEOUT, 1, 0, LEVEL_CRITICAL);
    EmptyRun(cfg, CallHandler(cfg, t, PollTurn(Restful(TIMEOUT, 1)).polled, TIMEOUT));
    hide PsiEvent;
    OneMoreTurn(cfg, l, [KillTurn(), TimeoutTurn()], PollTurn(Restful(TIMEOUT, 1)));
    assert [KillTurn(), TimeoutTurn()] + [PollTurn(Restful(TIMEOUT, 1))]
        == [KillTurn(), TimeoutTurn(), PollTurn(Restful(TIMEOUT, 1))];
  }

  /** A poll that kills process 88 pauses polling for it. */
  lemma PolledKill(cfg: Cfg, l: Loop)
    requires Settings(cfg) && Idle(l)
    ensures LegalRun(cfg, l, [KillTurn(), TimeoutTurn(), PollTurn(Pressed(TIMEOUT, 2, 88, 6))])
    ensures var t := Run(cfg, l, [KillTurn(), TimeoutTurn(), PollTurn(Pressed(TIMEOUT, 2, 88, 6))]);
            && t.poll.None? && Waiting(cfg, t) && t.sys.victim == 88 && t.sys.killTm == TIMEOUT && t.clock == TIMEOUT
  {
    hide Run, LegalRun, Deliver, Timely, CallHandler;
    TimedOut(cfg, l);
    var turn := PollTurn(Pressed(TIMEOUT, 2, 88, 6));
    var t := Run(cfg, l, [KillTurn(), TimeoutTurn()]);
    assert t.(clock := TIMEOUT) == t;
    Kills(cfg, t, 0, TIMEOUT, 2, 88, 6);
    EmptyRun(cfg, CallHandler(cfg, t, turn.polled, TIMEOUT));
    OneMoreTurn(cfg, l, [KillTurn(), TimeoutTurn()], turn);
    assert [KillTurn(), TimeoutTurn()] + [turn] == [KillTurn(), TimeoutTurn(), turn];
  }

  /**
   From an idle daemon: a kill times out, the poll that follows asks for
   nothing, and the late report of the first kill's failure stops the polling
   that the timeout had resumed.
   */
  lemma LateReportStopsPolling(cfg: Cfg, l: Loop)
    requires Settings(cfg) && Idle(l)
    ensures var turns := [KillTurn(), TimeoutTurn(), PollTurn(Restful(TIMEOUT, 1))];
            && LegalRun(cfg, l, turns + [ReportTurn()])
            && Run(cfg, l, turns).poll.Some? && Run(cfg, l, turns + [ReportTurn()]).poll.None?
  {
    PolledQuiet(cfg, l);
    var turns := [KillTurn(), TimeoutTurn(), PollTurn(Restful(TIMEOUT, 1))];
    var t := Run(cfg, l, turns);
    OneCall(cfg, t, KillFail(77), TIMEOUT);
    ResumeNeedsPause(cfg, t, KillFail(77), TIMEOUT);
    hide Run, LegalRun, Deliver, Timely, CallHandler;
    OneMoreTurn(cfg, l, turns, ReportTurn());
    assert t.(clock := TIMEOUT) == t;
  }

  /** Or the poll kills 88, and the report on 77 ends the wait for 88. */
  lemma LateReportEndsOtherWait(cfg: Cfg, l: Loop)
    requires Settings(cfg) && Idle(l)
    ensures var turns := [KillTurn(), TimeoutTurn(), PollTurn(Pressed(TIMEOUT, 2, 88, 6))];
            && LegalRun(cfg, l, turns + [ReportTurn()])
            && Waiting(cfg, Run(cfg, l, turns)) && Run(cfg, l, turns).sys.victim == 88
            && Run(cfg, l, turns + [ReportTurn()]).sys.wait < 0
  {
    PolledKill(cfg, l);
    var turns := [KillTurn(), TimeoutTurn(), PollTurn(Pressed(TIMEOUT, 2, 88, 6))];
    var t := Run(cfg, l, turns);
    OneCall(cfg, t, KillFail(77), TIMEOUT);
    ReportEnds(cfg, t, 77, TIMEOUT);
    hide Run, LegalRun, Deliver, Timely, CallHandler;
    OneMoreTurn(cfg, l, turns, ReportTurn());
    assert t.(clock := TIMEOUT) == t;
  }

  lemma ReportEnds(cfg: Cfg, l: Loop, pid: int, now: Timespec)
    ensures CallHandler(cfg, l, KillFail(pid), now).sys.wait < 0
  {
  }
}
