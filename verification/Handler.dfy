/** The pressure handler in place: its static variables as fields, updated step by step. */
module Handlers {
  import opened Tables
  import opened Clock
  import opened Watermarks
  import opened Pressure
  import Properties = PressureProperties
  import Search

  class PressureHandler {
    /** The static variables of the handler. */
    var m: Monitor
    var wait: int
    var killTm: Timespec
    var victim: int
    var waits: nat
    var update: Update
    var intervalMs: int

    function View(): Sys
      reads this
    {
      Sys(m, wait, killTm, victim, waits, update, intervalMs)
    }

    /** The thrashing limit stays between 0 and its configured value. */
    ghost predicate Valid(cfg: Cfg)
      reads this
    {
      0 <= m.limit <= cfg.limitPct
    }

    /** The daemon's initial values. */
    constructor (cfg: Cfg)
      ensures Valid(cfg)
      ensures m.firstKill && m.limit == cfg.limitPct && !m.killing && m.prevLevel == LEVEL_LOW && m.marks.high == 0
      ensures wait < 0 && update == Unchanged
    {
      var zero := Timespec(0, 0);
      m := Monitor(0, 0, 0, 0, 0, 0, false, cfg.limitPct, zero, zero, 0, false, 0, true, LEVEL_LOW,
                   Marks(0, 0, 0), zero, zero);
      wait, killTm, victim, waits, update, intervalMs := -1, zero, 0, 0, Unchanged, 0;
    }

    /** A wait for a pidfd pauses polling; otherwise there is an interval, and polling starts if there is cause to. */
    method Finish(cfg: Cfg, events: nat, swapLow: bool, direct: bool)
      modifies `update, `intervalMs
      ensures if cfg.pidfds && wait >= 0 then update == Pause && intervalMs == old(intervalMs)
              else && Paced(intervalMs) && (intervalMs == POLL_SHORT_MS <==> swapLow || m.killing)
                   && (update == old(update) || update == Start)
      ensures !(cfg.pidfds && wait >= 0) && (events > 0 || m.killing || direct) ==> update == Start
      ensures View() == NoKill(cfg, old(View()), events, swapLow, direct)
    {
      if cfg.pidfds && wait >= 0 {
        update := Pause;
        return;
      }
      if events > 0 || m.killing || direct {
        update := Start;
      }
      if swapLow || m.killing {
        intervalMs := POLL_SHORT_MS;
      } else {
        intervalMs := POLL_LONG_MS;
      }
    }

    /** After a kill the thrashing window starts anew: nothing has refaulted in it and nothing is carried into it. */
    method ResetAfterKill(v: Vmstat, now: Timespec) returns (cycleAfterKill: bool)
      modifies `m
      ensures cycleAfterKill == old(m.killing) && !m.killing && m.limit == old(m.limit)
      ensures cycleAfterKill ==> Refaulted(m, v) + m.growth == 0 && !Crosses(m, now)
      ensures !cycleAfterKill ==> m == old(m)
      ensures m == AfterKill(old(m), v, now)
    {
      cycleAfterKill := false;
      if m.killing {
        m := m.(killing := false);
        cycleAfterKill := true;
        m := m.(baseFileLru := v.nrInactiveFile + v.nrActiveFile, initRefault := Refault(v),
                resetTm := now, growth := 0);
      }
    }

    /** Without a listener, reclaim once seen in the statistics is not seen in the same statistics again. */
    method IdentifyReclaim(cfg: Cfg, v: Vmstat) returns (direct: bool, kswapd: bool)
      modifies `m
      ensures !cfg.listener ==> !InDirect(cfg, m, v) && !InKswapd(cfg, m, v)
      ensures direct == InDirect(cfg, old(m), v)
      ensures direct || kswapd == InKswapd(cfg, old(m), v)
      ensures m == NoteReclaim(cfg, old(m), v)
    {
      if cfg.listener {
        direct := m.directStart.sec != 0 || m.directStart.nsec != 0;
        kswapd := m.kswapdStart.sec != 0 || m.kswapdStart.nsec != 0;
      } else {
        direct := v.pgscanDirect != m.initDirect;
        kswapd := v.pgscanKswapd != m.initKswapd || v.pgrefill != m.initRefill;
      }
      if direct {
        m := m.(initDirect := v.pgscanDirect, initKswapd := v.pgscanKswapd, initRefill := v.pgrefill);
      } else if kswapd {
        m := m.(initKswapd := v.pgscanKswapd, initRefill := v.pgrefill);
      }
    }

    /** The arithmetic right shift, bit by bit. */
    static method ShiftRight(v: int, n: nat) returns (r: int)
      ensures r == Shr(v, n)
    {
      r := v;
      for k := 0 to n
        invariant Shr(r, n - k) == Shr(v, n)
      {
        r := r / 2;
      }
    }

    method ThrashingWindow(cfg: Cfg, v: Vmstat, now: Timespec, overshift: int) returns (thrashing: int)
      modifies `m
      ensures var (next, t) := Window(cfg, old(m), v, now, overshift); thrashing == t && m == Peak(next, t)
    {
      thrashing := 0;
      var since := DiffMs(m.resetTm, now);
      if since > THRASHING_RESET_INTERVAL_MS {
        m := m.(growth := Trunc((Refault(v) - m.initRefault) * 100, m.baseFileLru + 1));
        var windows := since / THRASHING_RESET_INTERVAL_MS;
        if windows > 1 || m.growth < m.limit {
          if windows < SHIFT_BITS {
            var halved := ShiftRight(m.growth, windows);
            m := m.(growth := halved);
          } else {
            m := m.(growth := overshift);
          }
        }
        m := m.(baseFileLru := v.nrInactiveFile + v.nrActiveFile, initRefault := Refault(v),
                resetTm := now, limit := cfg.limitPct);
      } else {
        thrashing := Trunc((Refault(v) - m.initRefault) * 100, m.baseFileLru + 1);
      }
      thrashing := thrashing + m.growth;
      if m.maxThrashing < thrashing {
        m := m.(maxThrashing := thrashing);
      }
    }

    /** After success nothing needs to be read again at that time, unless the limits that were read are 0. */
    method UpdateWatermarks(cfg: Cfg, now: Timespec, zones: Option<Marks>) returns (ok: bool)
      modifies `m
      ensures ok && m.marks.high != 0 ==> forall again :: Refresh(cfg, m, now, again) == Some(m)
      ensures var next := Refresh(cfg, old(m), now, zones); ok == next.Some? && m == if ok then next.value else old(m)
    {
      if m.marks.high == 0 || (!cfg.zoneinfoEvents && DiffMs(m.wmarkTm, now) > WMARK_UPDATE_MS) {
        if zones.None? {
          return false;
        }
        m := m.(marks := zones.value, wmarkTm := now);
      }
      return true;
    }

    /** The if-else chain; it writes over what an earlier pass decided. */
    static method Decide(cfg: Cfg, f: Facts, c: Choice) returns (reason: Reason, min: int, cut: bool, check: bool)
      ensures Choice(reason, min, cut, check) == Choose(cfg, f, c)
      ensures Clamped(cfg) && c == Properties.Fresh(c.check) ==>
                && (reason.NoReason? <==> !Properties.Justified(cfg, f, c.check))
                && (!reason.NoReason? ==>
                      && Properties.Grounds(cfg, f, reason)
                      && (min <= Search.PERCEPTIBLE_APP_ADJ <==> Properties.MayKillPerceptible(cfg, f, reason, false)))
    {
      Properties.FreshChoice(cfg, f, c);
      hide Properties.Justified, Properties.Grounds, Properties.MayKillPerceptible;
      reason, min, cut, check := c.reason, c.min, c.cut, c.check;
      if f.source.VendorKill? {
        reason := Vendor(f.source.code + VENDOR_KILL_REASON_BASE);
        min := f.source.minScore;
      } else if f.afterKill && f.wmark.Rank() < LowMark.Rank() {
        min := cfg.afterKillMin;
        reason := PressureAfterKill;
      } else if f.source.level == LEVEL_CRITICAL && f.events != 0 {
        reason := NotResponding;
      } else if f.swapLow && f.thrashing > cfg.limitPct {
        reason := LowSwapAndThrashing;
        if f.wmark.Rank() > MinMark.Rank() && f.thrashing < cfg.criticalPct {
          min := SPARE;
        }
        check := true;
      } else if f.swapLow && f.wmark.Rank() < HighMark.Rank() {
        reason := LowMemAndSwap;
        if f.wmark.Rank() > MinMark.Rank() && f.thrashing < cfg.criticalPct {
          min := SPARE;
        }
      } else if f.wmark.Rank() < HighMark.Rank() && cfg.swapUtilMax < 100 && f.swapUtil > cfg.swapUtilMax {
        reason := LowMemAndSwapUtil;
      } else if f.wmark.Rank() < HighMark.Rank() && f.thrashing > f.limit {
        reason := LowMemAndThrashing;
        cut := true;
        if f.thrashing < cfg.criticalPct {
          min := SPARE;
        }
        check := true;
      } else if f.direct && f.thrashing > f.limit {
        reason := DirectReclAndThrashing;
        cut := true;
        if f.thrashing < cfg.criticalPct {
          min := SPARE;
        }
        check := true;
      } else if f.direct && cfg.directThresholdMs > 0 && f.directMs > cfg.directThresholdMs {
        reason := DirectReclStuck;
      } else if check {
        if f.fileLruKb < cfg.filecacheMinKb {
          reason := LowFilecacheAfterThrashing;
          min := SPARE;
        } else {
          check := false;
        }
      }
      if reason.NoReason? && f.wmark.Rank() < HighMark.Rank() {
        reason := LowMem;
        min := cfg.lowmemMin;
      }
    }

    method Kill(cfg: Cfg, now: Timespec, search: int -> Found, f: Facts, c: Choice, stall: bool)
      returns (call: Option<Call>)
      modifies this
      ensures call.Some? && call.value.wait == old(wait) && wait == call.value.found.wait
      ensures m.firstKill == old(m.firstKill)
      ensures var paid := call.value.found.pages > 0;
              && m.killing == (old(m.killing) || paid)
              && m.limit == (if paid && c.cut then CutLimit(old(m.limit), cfg.decayPct) else old(m.limit))
      ensures var o := Strike(cfg, old(View()), now, search, f, c, stall); View() == o.sys && call == o.call
    {
      hide NoKill;
      var min := c.min;
      if stall {
        min := 0;
      }
      var found := search(min);
      call := Some(Call(wait, min, c, stall, f, found));
      wait := found.wait;
      if found.killed.Some? {
        killTm, victim := now, found.killed.value;
      }
      if found.wait >= 0 {
        waits := waits + 1;
      }
      if found.pages > 0 {
        m := m.(killing := true, maxThrashing := 0);
        if c.cut {
          m := m.(limit := m.limit * (100 - cfg.decayPct) / 100);
        }
      }
      Finish(cfg, f.events, f.swapLow, f.direct);
    }

    /** One pass over watermarks and decision, on top of what an earlier one decided. */
    method Pass(cfg: Cfg, now: Timespec, mi: Meminfo, look: Look, f: Facts, c: Choice, stalled: bool)
      returns (ok: bool, facts: Facts, d: Choice, stall: bool)
      requires c.check == m.checkFilecache
      modifies `m
      ensures var next := Refresh(cfg, old(m), now, look.zones);
              && ok == (next.Some? && !Rejected(cfg, f.source))
              && (!ok ==> m == if next.Some? then next.value else old(m))
              && (ok ==> && facts == Marked(f, next.value, mi) && stall == Stalled(cfg, look.stall, stalled)
                         && d == Choose(cfg, facts, c) && m == next.value.(checkFilecache := d.check))
    {
      hide Choose, LowestBreached, DiffMs, Refresh;
      hide Properties.Justified, Properties.Grounds, Properties.MayKillPerceptible, Properties.Fresh;
      facts, d, stall := f, c, stalled;
      RefreshKeeps(cfg, m, now, look.zones);
      ok := UpdateWatermarks(cfg, now, look.zones);
      if !ok {
        return;
      }
      facts := f.(wmark := LowestBreached(mi.nrFree - mi.cmaFree, m.marks));
      if look.stall.Some? {
        stall := look.stall.value > cfg.stallLimit;
      }
      if Rejected(cfg, f.source) {
        ok := false;
        return;
      }
      var reason, min, cut, check := Decide(cfg, facts, c);
      d := Choice(reason, min, cut, check);
      m := m.(checkFilecache := check);
    }

    /** The watermarks, the decision and the kill; before the first kill ever all of it is gone through again. */
    method JudgeAndKill(cfg: Cfg, now: Timespec, mi: Meminfo, smp: Sample, f: Facts) returns (call: Option<Call>)
      modifies this
      ensures call.Some? ==> !m.firstKill
      ensures !old(m.firstKill) ==> !m.firstKill
      ensures var o := Judge(cfg, old(View()), now, mi, smp, f); View() == o.sys && call == o.call
    {
      hide NoKill, Choose, Strike, LowestBreached, DiffMs, Refresh, Marked, Stalled;
      call := None;
      var c, stall, again := Choice(NoReason, 0, false, m.checkFilecache), false, false;
      while true
        invariant unchanged(`wait, `killTm, `victim, `waits, `update, `intervalMs) && c.check == m.checkFilecache
        invariant !again ==> m == old(m) && c == Choice(NoReason, 0, false, m.checkFilecache) && !stall
        invariant again ==> !m.firstKill && !c.reason.NoReason? && !Rejected(cfg, f.source)
        invariant again ==>
                    Judge(cfg, old(View()), now, mi, smp, f) == SecondPass(cfg, View(), now, mi, smp, f, c, stall)
        decreases !again
      {
        ghost var before := m;
        var ok, facts, d;
        ok, facts, d, stall := Pass(cfg, now, mi, if again then smp.again else smp.first, f, c, stall);
        RefreshKeeps(cfg, before, now, if again then smp.again.zones else smp.first.zones);
        if !ok {
          return;
        }
        ReasonKept(cfg, facts, c);
        c := d;
        if c.reason.NoReason? {
          break;
        }
        if m.firstKill {
          m := m.(firstKill := false, marks := m.marks.(high := 0));
          again := true;
          continue;
        }
        call := Kill(cfg, now, smp.search, facts, c, stall);
        return;
      }
      Finish(cfg, f.events, f.swapLow, f.direct);
    }

    /** Its first step: a lower event within the polling window of a higher one is ignored, any other sets the level. */
    method NoteEventLevel(source: Source, events: nat) returns (outranked: bool)
      modifies `m
      ensures outranked == (source.Psi? && events > 0 && source.level < old(m.prevLevel))
      ensures outranked == Ignored(source, events, old(View()))
      ensures View() == if outranked then old(View()) else NoteLevel(source, events, old(View()))
    {
      if source.Psi? {
        if events > 0 {
          if source.level < m.prevLevel {
            return true;
          }
          m := m.(prevLevel := source.level);
        } else {
          m := m.(prevLevel := LEVEL_LOW);
        }
      }
      return false;
    }

    /** __mp_event_psi on the fields. */
    method MpEventPsi(cfg: Cfg, source: Source, events: nat, smp: Sample) returns (call: Option<Call>)
      requires Valid(cfg) && Clamped(cfg)
      modifies this
      ensures Valid(cfg)
      ensures call.Some? ==> call.value.wait < 0
      ensures call.Some? && old(wait) >= 0 && (cfg.pidfds || smp.alive) ==>
                cfg.killTimeoutMs != 0 && smp.now.Some? && DiffMs(old(killTm), smp.now.value) >= cfg.killTimeoutMs
      ensures cfg.pidfds && wait >= 0 ==> update == Pause || View() == old(View())
      ensures var o := PsiEvent(cfg, source, events, old(View()), smp); View() == o.sys && call == o.call
    {
      Properties.EventSafe(cfg, source, events, View(), smp);
      hide NoKill, Assess, DiffMs;
      call := None;
      if smp.now.None? {
        return;
      }
      var now := smp.now.value;
      var outranked := NoteEventLevel(source, events);
      if outranked {
        return;
      }
      hide Ignored, NoteLevel;
      var pending := wait >= 0 && (cfg.pidfds || smp.alive);
      if pending && (cfg.killTimeoutMs == 0 || DiffMs(killTm, now) < cfg.killTimeoutMs) {
        Finish(cfg, events, false, false);
        return;
      }
      if wait >= 0 {
        wait := -1;
      }
      if smp.vmstat.None? {
        return;
      }
      if smp.meminfo.None? {
        return;
      }
      call := Evaluate(cfg, source, events, now, smp.vmstat.value, smp.meminfo.value, smp);
    }

    method Evaluate(cfg: Cfg, source: Source, events: nat, now: Timespec, v: Vmstat, mi: Meminfo, smp: Sample)
      returns (call: Option<Call>)
      modifies this
      ensures var o := Assess(cfg, source, events, old(View()), now, v, mi, smp); View() == o.sys && call == o.call
    {
      hide NoKill, Judge, DiffMs, Window, NoteReclaim, AfterKill, InDirect, InKswapd, SwapUtil;
      ghost var start := m;
      var cycleAfterKill := ResetAfterKill(v, now);
      ghost var settled := m;
      var swapLow := false;
      if cfg.swapFreeLowPct != 0 {
        swapLow := FreeSwap(cfg, mi) < mi.totalSwap * cfg.swapFreeLowPct / 100;
      }
      var direct, kswapd := IdentifyReclaim(cfg, v);
      ReclaimKeeps(cfg, settled, v);
      if !direct && !kswapd && Refault(v) == m.prevRefault && source.Psi? {
        Finish(cfg, events, swapLow, false);
        return None;
      }
      m := m.(prevRefault := Refault(v));
      WindowKeeps(cfg, m, v, now, smp.overshift);
      var thrashing := ThrashingWindow(cfg, v, now, smp.overshift);
      var f := Facts(source, events, cycleAfterKill, NoMark, swapLow, SwapUtil(cfg, mi), thrashing, m.limit,
                     direct, DiffMs(m.directStart, now), FileLru(v) * cfg.pageKb);
      call := JudgeAndKill(cfg, now, mi, smp, f);
    }
  }

  lemma ReasonKept(cfg: Cfg, f: Facts, c: Choice)
    ensures !c.reason.NoReason? ==> !Choose(cfg, f, c).reason.NoReason?
  {
  }

  lemma RefreshKeeps(cfg: Cfg, m: Monitor, now: Timespec, zones: Option<Marks>)
    ensures var next := Refresh(cfg, m, now, zones);
            next.Some? ==> next.value.firstKill == m.firstKill && next.value.checkFilecache == m.checkFilecache
  {
    hide DiffMs;
  }

  lemma ReclaimKeeps(cfg: Cfg, m: Monitor, v: Vmstat)
    ensures NoteReclaim(cfg, m, v).prevRefault == m.prevRefault && NoteReclaim(cfg, m, v).directStart == m.directStart
    ensures Quiet(cfg, m, v) ==> NoteReclaim(cfg, m, v) == m
  {
  }

  lemma WindowKeeps(cfg: Cfg, m: Monitor, v: Vmstat, now: Timespec, overshift: int)
    ensures Window(cfg, m, v, now, overshift).0.directStart == m.directStart
  {
    hide DiffMs, Carried, Refaulted;
  }
}
