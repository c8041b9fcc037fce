/** The main loop in place: polling_params as fields beside the pressure handler's. */
module Mainloops {
  import opened Tables
  import opened Clock
  import opened Pressure
  import opened Handlers
  import opened EventLoop

  class Mainloop {
    const psi: PressureHandler
    var poll: Option<Handler>
    var paused: Option<Handler>
    var startTm: Timespec
    var lastPollTm: Timespec
    /** The latest time read. */
    var clock: Timespec

    function View(): Loop
      reads this, psi
    {
      Loop(psi.View(), poll, paused, startTm, lastPollTm, clock)
    }

    /** Waiting for a kill excludes polling and remembers whom to poll afterwards; what is polled has an interval. */
    ghost predicate Valid(cfg: Cfg)
      reads this, psi
    {
      Clamped(cfg) && psi.Valid(cfg) && Inv(cfg, View()) && (poll.Some? ==> Paced(psi.intervalMs))
    }

    constructor (ghost cfg: Cfg, psi: PressureHandler, start: Timespec)
      requires Clamped(cfg) && psi.Valid(cfg) && psi.wait < 0
      ensures this.psi == psi && Valid(cfg) && Initial(View())
    {
      this.psi := psi;
      poll, paused := None, None;
      startTm, lastPollTm, clock := start, start, start;
    }

    method MemeventNotification(cfg: Cfg, now: Option<Timespec>, fetched: Option<seq<MemEvent>>)
      requires Clamped(cfg) && psi.Valid(cfg)
      modifies psi
      ensures psi.Valid(cfg)
      ensures psi.View() == Handle(cfg, old(psi.View()), MemeventAct(now, fetched))
    {
      hide OnMemEvent;
      if now.None? || fetched.None? {
        psi.m := psi.m.(directStart := NEVER);
        return;
      }
      var es := fetched.value;
      for k := 0 to |es|
        invariant psi.Valid(cfg) && psi.View() == OnMemEvents(cfg, old(psi.View()), es[..k], now.value)
      {
        assert es[..k + 1][..k] == es[..k];
        TakeMemEvent(cfg, es[k], now.value);
      }
      assert es[..|es|] == es;
    }

    method TakeMemEvent(cfg: Cfg, e: MemEvent, now: Timespec)
      requires Clamped(cfg) && psi.Valid(cfg)
      modifies psi
      ensures psi.Valid(cfg)
      ensures psi.View() == OnMemEvent(cfg, old(psi.View()), e, now)
    {
      hide PsiEvent;
      match e {
        case DirectBegin => psi.m := psi.m.(directStart := now);
        case DirectEnd => psi.m := psi.m.(directStart := NEVER);
        case KswapdWake => psi.m := psi.m.(kswapdStart := now);
        case KswapdSleep => psi.m := psi.m.(kswapdStart := NEVER);
        case VendorRequest(code, minScore, smp) => var _ := psi.MpEventPsi(cfg, VendorKill(code, minScore), 0, smp);
        case UpdateZoneinfo(zones) =>
          if zones.Some? {
            psi.m := psi.m.(marks := zones.value);
          }
      }
    }

    method StopWaitForProcKill()
      modifies psi`wait
      ensures psi.View() == StopWaiting(old(psi.View())) && psi.wait < 0
    {
      if psi.wait >= 0 {
        psi.wait := -1;
      }
    }

    /** The handler itself. */
    method Dispatch(cfg: Cfg, a: Act)
      requires Clamped(cfg) && psi.Valid(cfg)
      modifies psi
      ensures psi.Valid(cfg)
      ensures psi.View() == Handle(cfg, old(psi.View()), a)
    {
      hide PsiEvent, OnMemEvents;
      match a {
        case PressureAct(level, events, smp) => var _ := psi.MpEventPsi(cfg, Psi(level), events, smp);
        case MemeventAct(now, fetched) => MemeventNotification(cfg, now, fetched);
        case KillDone =>
          StopWaitForProcKill();
          psi.update := Resume;
        case KillFail(_) =>
          StopWaitForProcKill();
          psi.update := Resume;
        case Client =>
      }
    }

    method ResumePoll(now: Timespec)
      modifies this, psi`intervalMs
      ensures View() == ResumePolling(old(View()), now)
    {
      startTm := now;
      poll := paused;
      psi.intervalMs := POLL_SHORT_MS;
      paused := None;
    }

    /** call_handler; a report that a wait is over reinstates the paused handler. */
    method Call(cfg: Cfg, a: Act, now: Timespec)
      requires Valid(cfg)
      modifies this, psi
      ensures Valid(cfg)
      ensures old(Waiting(cfg, View())) && (a.KillDone? || a.KillFail?) ==> Reinstated(old(View()), View(), now)
      ensures View() == CallHandler(cfg, old(View()), a, now)
    {
      CallKeepsInv(cfg, View(), a, now);
      CallPaced(cfg, View(), a, now);
      if Waiting(cfg, View()) && (a.KillDone? || a.KillFail?) {
        ReportReinstates(cfg, View(), a, now);
      }
      hide Handle, DiffMs, Reinstated;
      psi.update := Unchanged;
      Dispatch(cfg, a);
      clock := now;
      if poll == Some(HandlerOf(a)) {
        lastPollTm := now;
      }
      match psi.update {
        case Start =>
          startTm := now;
          poll := Some(HandlerOf(a));
          lastPollTm := now;
        case Pause =>
          paused := Some(HandlerOf(a));
          poll := None;
        case Resume =>
          ResumePoll(now);
        case Unchanged =>
          if poll.Some? && DiffMs(startTm, now) > PSI_WINDOW_SIZE_MS {
            poll := None;
          }
      }
    }

    /** One turn of the loop. */
    method Iterate(cfg: Cfg, turn: Turn)
      requires Valid(cfg)
      modifies this, psi
      ensures Valid(cfg)
      ensures old(TimesOut(cfg, View(), turn)) ==> Reinstated(old(View()), View(), turn.after)
      ensures old(poll.Some?) ==>
                var l := old(View()).(clock := turn.after);
                var due := old(psi.update) == Resume || DiffMs(old(lastPollTm), turn.after) >= old(psi.intervalMs);
                View() == Deliver(cfg, if due then CallHandler(cfg, l, turn.polled, turn.polledTm) else l, turn.events)
      ensures View() == OneTurn(cfg, old(View()), turn)
    {
      if poll.Some? {
        DuePollMade(cfg, View(), turn);
      }
      hide CallHandler, DiffMs;
      if poll.Some? {
        var pollNow := psi.update == Resume || DiffMs(lastPollTm, turn.after) >= psi.intervalMs;
        clock := turn.after;
        if pollNow {
          Call(cfg, turn.polled, turn.polledTm);
        }
      } else {
        clock := turn.after;
        if cfg.killTimeoutMs != 0 && cfg.pidfds && psi.wait >= 0 && turn.events == [] && !turn.failed {
          StopWaitForProcKill();
          if paused.Some? {
            psi.update := Resume;
            ResumePoll(turn.after);
          }
          return;
        }
      }
      ghost var polled := View();
      assert polled == AfterPoll(cfg, old(View()), turn);
      for k := 0 to |turn.events|
        invariant Valid(cfg) && View() == Deliver(cfg, polled, turn.events[..k])
      {
        assert turn.events[..k + 1][..k] == turn.events[..k];
        match turn.events[k] {
          case Called(act, done) => Call(cfg, act, done);
          case Dropped =>
        }
      }
      assert turn.events[..|turn.events|] == turn.events;
    }
  }
}
