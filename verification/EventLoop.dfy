/**
 The main loop: handlers ask for polling to start, pause or resume, and the
 loop polls, waits and times out accordingly. A run is a sequence of turns of
 the loop under the new strategy; clocks, events and handler inputs are arbitrary.
 */
module EventLoop {
  import opened Tables
  import opened Clock
  import opened Watermarks
  import opened Pressure
  import opened PressureProperties

  const PSI_WINDOW_SIZE_MS: int := 1000

  datatype Handler = PsiHandler(level: int) | MemeventHandler | KillDoneHandler | KillFailHandler | ClientHandler

  /** A memory event; a vendor kill comes with what the decision then reads. */
  datatype MemEvent =
    | DirectBegin | DirectEnd | KswapdWake | KswapdSleep
    | VendorRequest(code: int, minScore: int, smp: Sample) | UpdateZoneinfo(zones: Option<Marks>)

  /** One handler call and what the handler is told. */
  datatype Act =
    | PressureAct(level: int, events: nat, smp: Sample)
    | MemeventAct(now: Option<Timespec>, fetched: Option<seq<MemEvent>>)
    | KillDone | KillFail(pid: int) | Client

  function HandlerOf(a: Act): Handler {
    match a
    case PressureAct(level, _, _) => PsiHandler(level)
    case MemeventAct(_, _) => MemeventHandler
    case KillDone => KillDoneHandler
    case KillFail(_) => KillFailHandler
    case Client => ClientHandler
  }

  /** The polling parameters with the handlers' state; `clock` is the latest time read. */
  datatype Loop = Loop(
    sys: Sys, poll: Option<Handler>, paused: Option<Handler>, startTm: Timespec, lastPollTm: Timespec, clock: Timespec)

  // ---------------------------------------------------------------- handlers

  const NEVER := Timespec(0, 0)

  function OnMemEvent(cfg: Cfg, s: Sys, e: MemEvent, now: Timespec): Sys {
    match e
    case DirectBegin => s.(m := s.m.(directStart := now))
    case DirectEnd => s.(m := s.m.(directStart := NEVER))
    case KswapdWake => s.(m := s.m.(kswapdStart := now))
    case KswapdSleep => s.(m := s.m.(kswapdStart := NEVER))
    case VendorRequest(code, minScore, smp) => PsiEvent(cfg, VendorKill(code, minScore), 0, s, smp).sys
    case UpdateZoneinfo(zones) => if zones.None? then s else s.(m := s.m.(marks := zones.value))
  }

  /**
   With a listener an event that a direct reclaim began or kswapd woke marks that
   reclaim as going on, and one that it ended or sleeps marks it as over; neither
   touches the other kind, and a change of the zones replaces the watermarks.
   */
  lemma ReclaimNoted(cfg: Cfg, s: Sys, now: Timespec, v: Vmstat, zones: Marks)
    requires cfg.listener && now != Timespec(0, 0)
    ensures InDirect(cfg, OnMemEvent(cfg, s, DirectBegin, now).m, v)
    ensures !InDirect(cfg, OnMemEvent(cfg, s, DirectEnd, now).m, v)
    ensures InKswapd(cfg, OnMemEvent(cfg, s, KswapdWake, now).m, v)
    ensures !InKswapd(cfg, OnMemEvent(cfg, s, KswapdSleep, now).m, v)
    ensures forall e | e in {DirectBegin, DirectEnd} ::
              InKswapd(cfg, OnMemEvent(cfg, s, e, now).m, v) == InKswapd(cfg, s.m, v)
    ensures forall e | e in {KswapdWake, KswapdSleep} ::
              InDirect(cfg, OnMemEvent(cfg, s, e, now).m, v) == InDirect(cfg, s.m, v)
    ensures OnMemEvent(cfg, s, UpdateZoneinfo(Some(zones)), now).m.marks == zones
  {
    hide PsiEvent;
  }

  function OnMemEvents(cfg: Cfg, s: Sys, es: seq<MemEvent>, now: Timespec): Sys {
    if es == [] then s else OnMemEvent(cfg, OnMemEvents(cfg, s, es[..|es| - 1], now), es[|es| - 1], now)
  }

  function Handle(cfg: Cfg, s: Sys, a: Act): Sys {
    match a
    case PressureAct(level, events, smp) => PsiEvent(cfg, Psi(level), events, s, smp).sys
    case MemeventAct(now, fetched) =>
      if now.None? || fetched.None? then s.(m := s.m.(directStart := NEVER))
      else OnMemEvents(cfg, s, fetched.value, now.value)
    case KillDone => StopWaiting(s).(update := Resume)
    case KillFail(_) => StopWaiting(s).(update := Resume)
    case Client => s
  }

  // ---------------------------------------------------------------- call_handler

  function ResumePolling(l: Loop, now: Timespec): Loop {
    l.(startTm := now, poll := l.paused, sys := l.sys.(intervalMs := POLL_SHORT_MS), paused := None)
  }

  /** What call_handler does after the handler has returned. */
  function Settle(l: Loop, h: Handler, now: Timespec): Loop {
    var l1 := l.(clock := now, lastPollTm := if l.poll == Some(h) then now else l.lastPollTm);
    match l.sys.update
    case Start => l1.(startTm := now, poll := Some(h), lastPollTm := now)
    case Pause => l1.(paused := Some(h), poll := None)
    case Resume => ResumePolling(l1, now)
    case Unchanged =>
      if l1.poll.Some? && DiffMs(l1.startTm, now) > PSI_WINDOW_SIZE_MS then l1.(poll := None) else l1
  }

  function Handled(cfg: Cfg, l: Loop, a: Act): Loop {
    l.(sys := Handle(cfg, l.sys.(update := Unchanged), a))
  }

  function CallHandler(cfg: Cfg, l: Loop, a: Act, now: Timespec): Loop {
    Settle(Handled(cfg, l, a), HandlerOf(a), now)
  }

  // ---------------------------------------------------------------- one turn of the loop

  /** An event delivered: a handler call and when it is done, or a dropped connection, which is closed without one. */
  datatype Delivery = Called(act: Act, done: Timespec) | Dropped

  /**
   * The times read before and after waiting, the call made if it is time to poll, and the events delivered (those of
   * dropped connections first). A failed wait delivers none.
   */
  datatype Turn = Turn(
    before: Timespec, after: Timespec, failed: bool, polled: Act, polledTm: Timespec, events: seq<Delivery>)

  /** How long the loop waits for events. */
  datatype Sleep = NoSleep | For(ms: int) | Forever

  predicate Waiting(cfg: Cfg, l: Loop) {
    cfg.pidfds && l.sys.wait >= 0
  }

  function SleepOf(cfg: Cfg, l: Loop, now: Timespec): Sleep {
    if l.poll.Some? then
      if l.sys.update == Resume then NoSleep
      else
        var since := DiffMs(l.lastPollTm, now);
        For(if since < l.sys.intervalMs then l.sys.intervalMs - since else l.sys.intervalMs)
    else if cfg.killTimeoutMs != 0 && Waiting(cfg, l) then
      var left := cfg.killTimeoutMs - DiffMs(l.sys.killTm, now);
      if left > 0 then For(left) else NoSleep
    else Forever
  }

  predicate PollsNow(l: Loop, now: Timespec) {
    l.poll.Some? && (l.sys.update == Resume || DiffMs(l.lastPollTm, now) >= l.sys.intervalMs)
  }

  function Deliver(cfg: Cfg, l: Loop, events: seq<Delivery>): Loop {
    if events == [] then l else
      var l1 := Deliver(cfg, l, events[..|events| - 1]);
      match events[|events| - 1]
      case Called(act, done) => CallHandler(cfg, l1, act, done)
      case Dropped => l1
  }

  /** No event arrived while a kill was waited for. */
  predicate TimesOut(cfg: Cfg, l: Loop, turn: Turn) {
    l.poll.None? && cfg.killTimeoutMs != 0 && Waiting(cfg, l) && turn.events == [] && !turn.failed
  }

  function TimeOut(l: Loop, now: Timespec): Loop {
    var l1 := l.(sys := StopWaiting(l.sys), clock := now);
    if l1.paused.None? then l1 else ResumePolling(l1.(sys := l1.sys.(update := Resume)), now)
  }

  /** The poll, if it is time. */
  function AfterPoll(cfg: Cfg, l: Loop, turn: Turn): Loop {
    var l1 := l.(clock := turn.after);
    if PollsNow(l, turn.after) then CallHandler(cfg, l1, turn.polled, turn.polledTm) else l1
  }

  function OneTurn(cfg: Cfg, l: Loop, turn: Turn): Loop {
    if TimesOut(cfg, l, turn) then TimeOut(l, turn.after)
    else Deliver(cfg, AfterPoll(cfg, l, turn), turn.events)
  }

  predicate Later(t: Timespec, u: Timespec) {
    Normal(t) && Normal(u) && Ns(t) <= Ns(u)
  }

  /** The latest time read after the deliveries, from `t` on. */
  function Latest(t: Timespec, events: seq<Delivery>): Timespec {
    if events == [] then t
    else if events[|events| - 1].Called? then events[|events| - 1].done
    else Latest(t, events[..|events| - 1])
  }

  /** Time goes on from `t` through the deliveries. */
  predicate Timely(t: Timespec, events: seq<Delivery>) {
    events == [] ||
    (var k := |events| - 1;
     Timely(t, events[..k]) && (events[k].Called? ==> Later(Latest(t, events[..k]), events[k].done)))
  }

  /** What the system may do in a turn: time goes on, a poll is a call without events of the handler polled, and
      where the loop does not wait no events arrive. */
  predicate LegalTurn(cfg: Cfg, l: Loop, turn: Turn) {
    && Later(l.clock, turn.before) && Later(turn.before, turn.after)
    && (PollsNow(l, turn.after) ==>
          && l.poll == Some(HandlerOf(turn.polled)) && Later(turn.after, turn.polledTm)
          && (turn.polled.PressureAct? ==> turn.polled.events == 0))
    && Timely(if PollsNow(l, turn.after) then turn.polledTm else turn.after, turn.events)
    && (SleepOf(cfg, l, turn.before).NoSleep? ==> turn.events == [] && !turn.failed)
    && (turn.failed ==> turn.events == [])
  }

  function Run(cfg: Cfg, l: Loop, turns: seq<Turn>): Loop {
    if turns == [] then l else OneTurn(cfg, Run(cfg, l, turns[..|turns| - 1]), turns[|turns| - 1])
  }

  predicate LegalRun(cfg: Cfg, l: Loop, turns: seq<Turn>) {
    turns == [] ||
    (LegalRun(cfg, l, turns[..|turns| - 1]) && LegalTurn(cfg, Run(cfg, l, turns[..|turns| - 1]), turns[|turns| - 1]))
  }

  lemma EmptyRun(cfg: Cfg, l: Loop)
    ensures LegalRun(cfg, l, []) && Run(cfg, l, []) == l && Deliver(cfg, l, []) == l && Timely(l.clock, [])
  {
  }

  lemma OneMoreTurn(cfg: Cfg, l: Loop, turns: seq<Turn>, turn: Turn)
    requires LegalRun(cfg, l, turns) && LegalTurn(cfg, Run(cfg, l, turns), turn)
    ensures LegalRun(cfg, l, turns + [turn]) && Run(cfg, l, turns + [turn]) == OneTurn(cfg, Run(cfg, l, turns), turn)
  {
    hide LegalTurn, OneTurn;
    assert (turns + [turn])[..|turns|] == turns;
  }

  lemma OneCall(cfg: Cfg, l: Loop, act: Act, done: Timespec)
    ensures Deliver(cfg, l, [Called(act, done)]) == CallHandler(cfg, l, act, done)
    ensures Timely(l.clock, [Called(act, done)]) == Later(l.clock, done)
  {
    hide CallHandler;
    assert [Called(act, done)][..0] == [];
  }

  predicate Initial(l: Loop) {
    l.poll.None? && l.paused.None? && l.sys.wait < 0
  }

  // ---------------------------------------------------------------- waiting and polling exclude each other

  /** Waiting for a kill means that nothing is polled and that a paused handler is on record. */
  predicate Inv(cfg: Cfg, l: Loop) {
    Waiting(cfg, l) ==> l.poll.None? && l.paused.Some?
  }

  /** In the middle of a handler: a wait has asked for the pause, or is an old one nobody touched. */
  predicate MidHandler(cfg: Cfg, l: Loop, s: Sys) {
    cfg.pidfds && s.wait >= 0 ==>
      s.update == Pause || (s.update == Unchanged && l.poll.None? && l.paused.Some?)
  }

  lemma MemEventMid(cfg: Cfg, l: Loop, s: Sys, e: MemEvent, now: Timespec)
    requires MidHandler(cfg, l, s)
    ensures MidHandler(cfg, l, OnMemEvent(cfg, s, e, now))
  {
    hide PsiEvent;
    if e.VendorRequest? && cfg.pidfds {
      WaitPauses(cfg, VendorKill(e.code, e.minScore), 0, s, e.smp);
    }
  }

  lemma {:induction false} MemEventsMid(cfg: Cfg, l: Loop, s: Sys, es: seq<MemEvent>, now: Timespec)
    requires MidHandler(cfg, l, s)
    ensures MidHandler(cfg, l, OnMemEvents(cfg, s, es, now))
  {
    hide OnMemEvent;
    if es != [] {
      MemEventsMid(cfg, l, s, es[..|es| - 1], now);
      MemEventMid(cfg, l, OnMemEvents(cfg, s, es[..|es| - 1], now), es[|es| - 1], now);
    }
  }

  lemma HandleMid(cfg: Cfg, l: Loop, a: Act)
    requires Inv(cfg, l)
    ensures MidHandler(cfg, l, Handled(cfg, l, a).sys)
  {
    hide PsiEvent, OnMemEvents;
    var s := l.sys.(update := Unchanged);
    match a {
      case PressureAct(level, events, smp) =>
        if cfg.pidfds {
          WaitPauses(cfg, Psi(level), events, s, smp);
        }
      case MemeventAct(now, fetched) =>
        if now.Some? && fetched.Some? {
          MemEventsMid(cfg, l, s, fetched.value, now.value);
        }
      case KillDone =>
      case KillFail(_) =>
      case Client =>
    }
  }

  /** Every handler call keeps it. */
  lemma CallKeepsInv(cfg: Cfg, l: Loop, a: Act, now: Timespec)
    requires Inv(cfg, l)
    ensures Inv(cfg, CallHandler(cfg, l, a, now))
  {
    hide Handle;
    HandleMid(cfg, l, a);
  }

  lemma {:induction false} DeliverKeepsInv(cfg: Cfg, l: Loop, events: seq<Delivery>)
    requires Inv(cfg, l)
    ensures Inv(cfg, Deliver(cfg, l, events))
  {
    hide CallHandler;
    if events != [] {
      DeliverKeepsInv(cfg, l, events[..|events| - 1]);
      match events[|events| - 1] {
        case Called(act, done) => CallKeepsInv(cfg, Deliver(cfg, l, events[..|events| - 1]), act, done);
        case Dropped =>
      }
    }
  }

  lemma TurnKeepsInv(cfg: Cfg, l: Loop, turn: Turn)
    requires Inv(cfg, l)
    ensures Inv(cfg, OneTurn(cfg, l, turn))
  {
    hide CallHandler, Deliver, PollsNow;
    var l1 := l.(clock := turn.after);
    CallKeepsInv(cfg, l1, turn.polled, turn.polledTm);
    DeliverKeepsInv(cfg, AfterPoll(cfg, l, turn), turn.events);
  }

  /** In every reachable state waiting for a kill excludes polling and remembers whom to poll afterwards. */
  lemma {:induction false} RunKeepsInv(cfg: Cfg, l: Loop, turns: seq<Turn>)
    requires Initial(l)
    ensures var t := Run(cfg, l, turns);
            Inv(cfg, t) && (cfg.pidfds && t.sys.wait >= 0 ==> t.poll.None? && t.paused.Some?)
  {
    hide OneTurn;
    if turns != [] {
      RunKeepsInv(cfg, l, turns[..|turns| - 1]);
      TurnKeepsInv(cfg, Run(cfg, l, turns[..|turns| - 1]), turns[|turns| - 1]);
    }
  }

  /** So with a kill timeout the loop never waits without limit while a kill is waited for. */
  lemma BoundedSleep(cfg: Cfg, l: Loop, turns: seq<Turn>, now: Timespec)
    requires Initial(l) && cfg.killTimeoutMs != 0
    ensures var t := Run(cfg, l, turns);
            cfg.pidfds && t.sys.wait >= 0 ==>
              match SleepOf(cfg, t, now)
              case Forever => false
              case NoSleep => DiffMs(t.sys.killTm, now) >= cfg.killTimeoutMs
              case For(ms) => DiffMs(t.sys.killTm, now) + ms == cfg.killTimeoutMs
  {
    hide Run, DiffMs;
    RunKeepsInv(cfg, l, turns);
  }

  /**
   While polling the loop waits until the next poll is due; but one that is due
   already makes it wait a full interval more, and nothing else does.
   */
  lemma PollDelay(cfg: Cfg, l: Loop, turns: seq<Turn>, now: Timespec)
    requires Initial(l)
    ensures var t := Run(cfg, l, turns);
            var since, interval := DiffMs(t.lastPollTm, now), t.sys.intervalMs;
            t.poll.Some? && Later(t.lastPollTm, now) ==>
              match SleepOf(cfg, t, now)
              case Forever => false
              case NoSleep => t.sys.update == Resume
              case For(ms) =>
                && t.sys.update != Resume && 1 <= ms <= interval
                && (since + ms > interval <==> since >= interval)
                && ms == (if since < interval then interval - since else interval)
  {
    hide Run, DiffMs;
    RunPaced(cfg, l, turns);
    var t := Run(cfg, l, turns);
    if Later(t.lastPollTm, now) {
      DiffIsMonotone(t.lastPollTm, t.lastPollTm, now);
      NoTime(t.lastPollTm);
    }
  }

  /**
   While a handler is polled, a turn calls it, before any event is delivered,
   exactly when polling was resumed or its interval is over; a poll that is due
   when the turn begins is due when it is looked for.
   */
  lemma DuePollMade(cfg: Cfg, l: Loop, turn: Turn)
    requires l.poll.Some?
    ensures var due := l.sys.update == Resume || DiffMs(l.lastPollTm, turn.after) >= l.sys.intervalMs;
            var l1 := l.(clock := turn.after);
            && OneTurn(cfg, l, turn)
            == Deliver(cfg, if due then CallHandler(cfg, l1, turn.polled, turn.polledTm) else l1, turn.events)
            && (due && LegalTurn(cfg, l, turn) ==> l.poll == Some(HandlerOf(turn.polled)))
    ensures LegalTurn(cfg, l, turn) && Normal(l.lastPollTm) && DiffMs(l.lastPollTm, turn.before) >= l.sys.intervalMs ==>
              DiffMs(l.lastPollTm, turn.after) >= l.sys.intervalMs
  {
    hide DiffMs, Deliver, CallHandler, Timely;
    if LegalTurn(cfg, l, turn) && Normal(l.lastPollTm) {
      DiffIsMonotone(l.lastPollTm, turn.before, turn.after);
    }
  }

  /**
   While nothing is polled, a turn ends the wait exactly when there is one, on a
   pidfd and with a timeout, and nothing arrived; it then resumes the paused
   handler, if any. Every other turn only delivers its events.
   */
  lemma IdleTurn(cfg: Cfg, l: Loop, turn: Turn)
    requires l.poll.None?
    ensures var t, l1 := OneTurn(cfg, l, turn), l.(clock := turn.after);
            if cfg.killTimeoutMs != 0 && cfg.pidfds && l.sys.wait >= 0 && turn.events == [] && !turn.failed then
              t.sys.wait < 0 && if l.paused.Some? then Reinstated(l, t, turn.after) else t == l1.(sys := t.sys)
            else t == Deliver(cfg, l1, turn.events)
  {
    hide Deliver, CallHandler;
  }

  lemma NoTime(t: Timespec)
    ensures DiffMs(t, t) == 0
  {
  }

  /** The paused handler is polled again, at the short interval, and the wait is over. */
  predicate Reinstated(l: Loop, t: Loop, now: Timespec) {
    && t.poll == l.paused && t.poll.Some? && t.paused.None? && t.sys.wait < 0
    && t.startTm == now && t.sys.intervalMs == POLL_SHORT_MS && t.sys.update == Resume
  }

  lemma ReportReinstates(cfg: Cfg, l: Loop, a: Act, now: Timespec)
    requires Inv(cfg, l) && Waiting(cfg, l) && (a.KillDone? || a.KillFail?)
    ensures Reinstated(l, CallHandler(cfg, l, a, now), now)
  {
  }

  /** Completion, failure or timeout of a wait, wherever in a run it happens, reinstates the paused handler. */
  lemma WaitEnds(cfg: Cfg, l: Loop, turns: seq<Turn>, now: Timespec)
    requires Initial(l) && cfg.pidfds && Run(cfg, l, turns).sys.wait >= 0
    ensures var t := Run(cfg, l, turns);
            && Reinstated(t, CallHandler(cfg, t, KillDone, now), now)
            && (forall pid :: Reinstated(t, CallHandler(cfg, t, KillFail(pid), now), now))
            && Reinstated(t, TimeOut(t, now), now)
  {
    hide Run, DiffMs;
    RunKeepsInv(cfg, l, turns);
  }

  /** The turn after a reinstatement polls that handler without waiting, whatever the time. */
  lemma PollsAtOnce(cfg: Cfg, l: Loop, t: Loop, now: Timespec, turn: Turn)
    requires Reinstated(l, t, now) && LegalTurn(cfg, t, turn)
    ensures SleepOf(cfg, t, turn.before).NoSleep?
    ensures HandlerOf(turn.polled) == l.paused.value
    ensures OneTurn(cfg, t, turn) == CallHandler(cfg, t.(clock := turn.after), turn.polled, turn.polledTm)
  {
    hide CallHandler;
  }

  /** A notification with nothing paused ends polling instead: exactly then no handler is polled after it. */
  lemma ResumeNeedsPause(cfg: Cfg, l: Loop, a: Act, now: Timespec)
    requires a.KillDone? || a.KillFail?
    ensures CallHandler(cfg, l, a, now).poll.None? <==> l.paused.None?
  {
  }

  // ---------------------------------------------------------------- how long a window lasts

  /** No handler asks for polling to start, pause or resume. */
  predicate Silent(cfg: Cfg, l: Loop, a: Act) {
    Handled(cfg, l, a).sys.update == Unchanged
  }

  /** A call that asks for nothing ends the window exactly when it finishes more than a second after its start. */
  lemma WindowEnds(cfg: Cfg, l: Loop, a: Act, now: Timespec)
    requires Silent(cfg, l, a) && l.poll.Some?
    ensures var t := CallHandler(cfg, l, a, now);
            && (t.poll.None? <==> DiffMs(l.startTm, now) > PSI_WINDOW_SIZE_MS)
            && (t.poll.Some? ==> t.poll == l.poll) && t.startTm == l.startTm
  {
    hide Handle, DiffMs;
  }

  /** A start request comes with an interval, and an interval is the short or the long one. */
  predicate MidPace(l: Loop, s: Sys) {
    (l.poll.Some? || s.update == Start) ==> Paced(s.intervalMs)
  }

  lemma EventPace(cfg: Cfg, source: Source, events: nat, s: Sys, smp: Sample)
    ensures var t := PsiEvent(cfg, source, events, s, smp).sys;
            && (Paced(t.intervalMs) || t.intervalMs == s.intervalMs)
            && (t.update == Start ==> s.update == Start || Paced(t.intervalMs))
  {
    hide Measure, Brief, AfterKill, Quiet, Choose, SwapLow, DiffMs, Marked, Stalled, CutLimit;
  }

  lemma MemEventPace(cfg: Cfg, l: Loop, s: Sys, e: MemEvent, now: Timespec)
    requires MidPace(l, s)
    ensures MidPace(l, OnMemEvent(cfg, s, e, now))
  {
    hide PsiEvent;
    if e.VendorRequest? {
      EventPace(cfg, VendorKill(e.code, e.minScore), 0, s, e.smp);
    }
  }

  lemma {:induction false} MemEventsPace(cfg: Cfg, l: Loop, s: Sys, es: seq<MemEvent>, now: Timespec)
    requires MidPace(l, s)
    ensures MidPace(l, OnMemEvents(cfg, s, es, now))
  {
    hide OnMemEvent;
    if es != [] {
      MemEventsPace(cfg, l, s, es[..|es| - 1], now);
      MemEventPace(cfg, l, OnMemEvents(cfg, s, es[..|es| - 1], now), es[|es| - 1], now);
    }
  }

  lemma HandlePace(cfg: Cfg, l: Loop, a: Act)
    requires l.poll.Some? ==> Paced(l.sys.intervalMs)
    ensures MidPace(l, Handled(cfg, l, a).sys)
  {
    hide PsiEvent, OnMemEvents;
    var s := l.sys.(update := Unchanged);
    match a {
      case PressureAct(level, events, smp) => EventPace(cfg, Psi(level), events, s, smp);
      case MemeventAct(now, fetched) =>
        if now.Some? && fetched.Some? {
          MemEventsPace(cfg, l, s, fetched.value, now.value);
        }
      case KillDone =>
      case KillFail(_) =>
      case Client =>
    }
  }

  lemma CallPaced(cfg: Cfg, l: Loop, a: Act, now: Timespec)
    requires l.poll.Some? ==> Paced(l.sys.intervalMs)
    ensures var t := CallHandler(cfg, l, a, now); t.poll.Some? ==> Paced(t.sys.intervalMs)
  {
    hide Handle;
    HandlePace(cfg, l, a);
  }

  lemma {:induction false} DeliverPaced(cfg: Cfg, l: Loop, events: seq<Delivery>)
    requires l.poll.Some? ==> Paced(l.sys.intervalMs)
    ensures var t := Deliver(cfg, l, events); t.poll.Some? ==> Paced(t.sys.intervalMs)
  {
    hide CallHandler;
    if events != [] {
      DeliverPaced(cfg, l, events[..|events| - 1]);
      match events[|events| - 1] {
        case Called(act, done) => CallPaced(cfg, Deliver(cfg, l, events[..|events| - 1]), act, done);
        case Dropped =>
      }
    }
  }

  /** Over every run, whatever is polled is polled at the short or the long interval. */
  lemma {:induction false} RunPaced(cfg: Cfg, l: Loop, turns: seq<Turn>)
    requires Initial(l)
    ensures var t := Run(cfg, l, turns); t.poll.Some? ==> Paced(t.sys.intervalMs)
  {
    hide CallHandler, Deliver, PollsNow;
    if turns != [] {
      var t, turn := Run(cfg, l, turns[..|turns| - 1]), turns[|turns| - 1];
      RunPaced(cfg, l, turns[..|turns| - 1]);
      CallPaced(cfg, t.(clock := turn.after), turn.polled, turn.polledTm);
      DeliverPaced(cfg, AfterPoll(cfg, t, turn), turn.events);
    }
  }

  /**
   A window that began at `start` and has seen n polls. Rounding lets a poll come
   just over 9 ms after the last one.
   */
  predicate WindowSoFar(l: Loop, start: Timespec, n: nat) {
    && l.sys.update != Resume && Later(start, l.lastPollTm) && Later(l.lastPollTm, l.clock)
    && if l.poll.Some? then
         && l.startTm == start && Paced(l.sys.intervalMs) && DiffMs(start, l.lastPollTm) <= PSI_WINDOW_SIZE_MS
         && n * (POLL_SHORT_MS - 1) * NS_PER_MS <= Ns(l.lastPollTm) - Ns(start)
       else n <= MAX_POLLS
  }

  const MAX_POLLS: nat := 112

  /** An open window has room for one more poll. */
  lemma RoomForOne(l: Loop, start: Timespec, n: nat)
    requires WindowSoFar(l, start, n) && l.poll.Some?
    ensures n < MAX_POLLS
  {
    DiffIsClose(start, l.lastPollTm);
  }

  lemma SilentCall(cfg: Cfg, l: Loop, a: Act, now: Timespec, start: Timespec, n: nat)
    requires WindowSoFar(l, start, n) && Silent(cfg, l, a) && Later(l.clock, now)
    ensures WindowSoFar(CallHandler(cfg, l, a, now), start, n)
  {
    hide Handle, DiffMs;
    HandlePace(cfg, l, a);
    if l.poll.Some? {
      RoomForOne(l, start, n);
    }
  }

  lemma SilentPoll(cfg: Cfg, l: Loop, a: Act, now: Timespec, start: Timespec, n: nat)
    requires WindowSoFar(l, start, n) && Silent(cfg, l, a) && Later(l.clock, now)
    requires PollsNow(l, l.clock) && l.poll == Some(HandlerOf(a))
    ensures WindowSoFar(CallHandler(cfg, l, a, now), start, n + 1)
  {
    hide Handle;
    HandlePace(cfg, l, a);
    RoomForOne(l, start, n);
    DiffIsClose(l.lastPollTm, l.clock);
  }

  predicate SilentEvents(cfg: Cfg, l: Loop, events: seq<Delivery>) {
    events == [] ||
    (var k := |events| - 1;
     && SilentEvents(cfg, l, events[..k])
     && (events[k].Called? ==> Silent(cfg, Deliver(cfg, l, events[..k]), events[k].act)))
  }

  predicate SilentTurn(cfg: Cfg, l: Loop, turn: Turn) {
    && !TimesOut(cfg, l, turn)
    && (PollsNow(l, turn.after) ==> Silent(cfg, l.(clock := turn.after), turn.polled))
    && SilentEvents(cfg, AfterPoll(cfg, l, turn), turn.events)
  }

  predicate SilentRun(cfg: Cfg, l: Loop, turns: seq<Turn>) {
    turns == [] ||
    (SilentRun(cfg, l, turns[..|turns| - 1])
     && SilentTurn(cfg, Run(cfg, l, turns[..|turns| - 1]), turns[|turns| - 1]))
  }

  /** How many times the loop polled in a run. */
  function Polls(cfg: Cfg, l: Loop, turns: seq<Turn>): nat {
    if turns == [] then 0 else
      Polls(cfg, l, turns[..|turns| - 1])
      + if PollsNow(Run(cfg, l, turns[..|turns| - 1]), turns[|turns| - 1].after) then 1 else 0
  }

  lemma {:induction false} SilentDeliver(cfg: Cfg, l: Loop, events: seq<Delivery>, start: Timespec, n: nat)
    requires WindowSoFar(l, start, n) && SilentEvents(cfg, l, events) && Timely(l.clock, events)
    ensures WindowSoFar(Deliver(cfg, l, events), start, n)
    ensures Deliver(cfg, l, events).clock == Latest(l.clock, events)
  {
    hide Handle, WindowSoFar, DiffMs;
    if events != [] {
      var k := |events| - 1;
      SilentDeliver(cfg, l, events[..k], start, n);
      if events[k].Called? {
        SilentCall(cfg, Deliver(cfg, l, events[..k]), events[k].act, events[k].done, start, n);
      }
    }
  }

  lemma SilentTurnKeeps(cfg: Cfg, l: Loop, turn: Turn, start: Timespec, n: nat)
    requires WindowSoFar(l, start, n) && LegalTurn(cfg, l, turn) && SilentTurn(cfg, l, turn)
    ensures WindowSoFar(OneTurn(cfg, l, turn), start, n + if PollsNow(l, turn.after) then 1 else 0)
  {
    hide Handle, Deliver, DiffMs;
    var l1 := l.(clock := turn.after);
    assert PollsNow(l1, turn.after) == PollsNow(l, turn.after);
    if PollsNow(l, turn.after) {
      SilentPoll(cfg, l1, turn.polled, turn.polledTm, start, n);
      SilentDeliver(cfg, AfterPoll(cfg, l, turn), turn.events, start, n + 1);
    } else {
      SilentDeliver(cfg, l1, turn.events, start, n);
    }
  }

  /**
   * Once polling is started, and as long as no handler asks for start, pause or resume, the loop polls at most 112
   * times; while it still polls, the last poll was within a second of the start.
   */
  lemma {:induction false} PollsBounded(cfg: Cfg, l: Loop, turns: seq<Turn>, start: Timespec)
    requires WindowSoFar(l, start, 0) && LegalRun(cfg, l, turns) && SilentRun(cfg, l, turns)
    ensures WindowSoFar(Run(cfg, l, turns), start, Polls(cfg, l, turns))
    ensures Polls(cfg, l, turns) <= MAX_POLLS
  {
    hide OneTurn, SilentTurn, LegalTurn, PollsNow, DiffMs, WindowSoFar;
    if turns != [] {
      var k := |turns| - 1;
      PollsBounded(cfg, l, turns[..k], start);
      SilentTurnKeeps(cfg, Run(cfg, l, turns[..k]), turns[k], start, Polls(cfg, l, turns[..k]));
    }
    AtMost(Run(cfg, l, turns), start, Polls(cfg, l, turns));
  }

  lemma AtMost(l: Loop, start: Timespec, n: nat)
    requires WindowSoFar(l, start, n)
    ensures n <= MAX_POLLS
  {
    if l.poll.Some? {
      RoomForOne(l, start, n);
    }
  }

  /** A start request opens such a window. */
  lemma StartOpens(cfg: Cfg, l: Loop, a: Act, now: Timespec)
    requires (l.poll.Some? ==> Paced(l.sys.intervalMs)) && Normal(now)
    requires Handled(cfg, l, a).sys.update == Start
    ensures var t := CallHandler(cfg, l, a, now); t.poll == Some(HandlerOf(a)) && WindowSoFar(t, now, 0)
  {
    hide Handle;
    HandlePace(cfg, l, a);
  }
}
