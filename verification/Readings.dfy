/**
 What the gates, the facts and the choice of the pressure decision come to on
 the readings themselves, with no step of the event in between.
 */
module Readings {
  import opened Tables
  import opened Clock
  import opened Watermarks
  import opened Pressure
  import opened PressureProperties

  // ---------------------------------------------------------------- measurements

  /** q is a / b with what is left over dropped, towards zero. */
  predicate Quotient(a: int, b: int, q: int) {
    if a >= 0 then q * b <= a < q * b + b else q * b - b < a <= q * b
  }

  /**
   Swap is low when there is a limit and less is free than that share of it in
   whole pages; utilisation is the share of what could be swapped that is, and
   thrashing that of the file cache, plus one page, that refaulted.
   */
  lemma MeasuresMean(cfg: Cfg, m: Monitor, v: Vmstat, mi: Meminfo)
    ensures SwapLow(cfg, mi) <==>
              cfg.swapFreeLowPct != 0 && 100 * (FreeSwap(cfg, mi) + 1) <= mi.totalSwap * cfg.swapFreeLowPct
    ensures var used := mi.totalSwap - FreeSwap(cfg, mi);
            var swappable := mi.activeAnon + mi.inactiveAnon + mi.shmem + used;
            if swappable > 0 then Quotient(used * 100, swappable, SwapUtil(cfg, mi)) else SwapUtil(cfg, mi) == 0
    ensures var refault := if v.refault != 0 then v.refault else v.refaultFile;
            Quotient((refault - m.initRefault) * 100, m.baseFileLru + 1, Refaulted(m, v))
  {
    Below100(FreeSwap(cfg, mi), mi.totalSwap * cfg.swapFreeLowPct);
    hide FreeSwap;
  }

  lemma Below100(free: int, share: int)
    ensures free < share / 100 <==> 100 * (free + 1) <= share
  {
  }

  /** A cut leaves the share of the limit that does not decay, rounded down. */
  lemma CutFloor(limit: int, decayPct: int)
    ensures var cut := CutLimit(limit, decayPct); cut * 100 <= limit * (100 - decayPct) < cut * 100 + 100
  {
  }

  // ---------------------------------------------------------------- gates

  /** The watermarks are looked up again: there are none, or they are a minute old and nobody announces changes. */
  predicate Rereads(cfg: Cfg, s: Sys, now: Timespec) {
    s.m.marks.high == 0 || (!cfg.zoneinfoEvents && DiffMs(s.m.wmarkTm, now) > 60000)
  }

  /** The kernel reclaims memory: the listener says so or, without one, the scan counters have moved. */
  predicate Reclaims(cfg: Cfg, s: Sys, v: Vmstat) {
    if cfg.listener then s.m.directStart != Timespec(0, 0) || s.m.kswapdStart != Timespec(0, 0)
    else v.pgscanDirect != s.m.initDirect || v.pgscanKswapd != s.m.initKswapd || v.pgrefill != s.m.initRefill
  }

  /**
   An event searches for a victim exactly when: the clock and the statistics are
   readable, and so are the watermarks if they are looked up; it is not outranked
   by the level that opened the window; no victim is still dying within the kill
   timeout; the device reclaims or refaults, or the request comes from a vendor
   hook, in range; and its facts give a reason.
   */
  lemma SearchesIff(cfg: Cfg, source: Source, events: nat, s: Sys, smp: Sample)
    requires Clamped(cfg)
    ensures PsiEvent(cfg, source, events, s, smp).call.Some? <==>
              && smp.now.Some? && smp.vmstat.Some? && smp.meminfo.Some?
              && (Rereads(cfg, s, smp.now.value) ==> smp.first.zones.Some?)
              && !(source.Psi? && events > 0 && source.level < s.m.prevLevel)
              && !(s.wait >= 0 && (cfg.pidfds || smp.alive)
                   && (cfg.killTimeoutMs == 0 || DiffMs(s.killTm, smp.now.value) < cfg.killTimeoutMs))
              && (match source
                  case Psi(_) =>
                    var v := smp.vmstat.value;
                    Reclaims(cfg, s, v) || (if v.refault != 0 then v.refault else v.refaultFile) != s.m.prevRefault
                  case VendorKill(code, minScore) => 0 <= code < 1000 + cfg.vendorReasons && minScore >= 0)
              && Reads(cfg, s, smp)
              && Justified(cfg, FactsOf(cfg, source, events, s, smp), s.m.checkFilecache)
              && (s.m.firstKill ==> smp.again.zones.Some?)
  {
    hide PsiEvent, FactsOf, Justified, DiffMs;
    EventKillsIff(cfg, source, events, s, smp);
  }

  // ---------------------------------------------------------------- facts

  /** The facts on the readings, but for thrashing. */
  lemma FactsMean(cfg: Cfg, source: Source, events: nat, s: Sys, smp: Sample)
    requires smp.now.Some? && smp.vmstat.Some? && smp.meminfo.Some?
    requires Rereads(cfg, s, smp.now.value) ==> smp.first.zones.Some?
    ensures Reads(cfg, s, smp)
    ensures var f := FactsOf(cfg, source, events, s, smp);
            var now, v, mi := smp.now.value, smp.vmstat.value, smp.meminfo.value;
            var marks := if Rereads(cfg, s, now) then smp.first.zones.value else s.m.marks;
            && f.source == source && f.events == events && f.afterKill == s.m.killing
            && f.wmark == LowestBreached(mi.nrFree - mi.cmaFree, marks)
            && f.swapLow == SwapLow(cfg, mi) && f.swapUtil == SwapUtil(cfg, mi)
            && f.limit == (if !s.m.killing && DiffMs(s.m.resetTm, now) > 1000 then cfg.limitPct else s.m.limit)
            && (f.direct <==> if cfg.listener then s.m.directStart != Timespec(0, 0)
                              else v.pgscanDirect != s.m.initDirect)
            && f.directMs == DiffMs(s.m.directStart, now)
            && f.fileLruKb == (v.nrInactiveFile + v.nrActiveFile) * cfg.pageKb
  {
    var now, v := smp.now.value, smp.vmstat.value;
    NoTimePassed(now);
    MeasureLimit(cfg, AfterKill(s.m, v, now), v, now, smp.overshift);
    hide DiffMs, Measure, SwapLow, SwapUtil, LowestBreached;
  }

  lemma NoTimePassed(t: Timespec)
    ensures DiffMs(t, t) == 0
  {
  }

  /**
   The thrashing an event sees. Right after a kill it is none. Within a window it
   is what refaulted since its start and what earlier windows left. At the end of
   windows, fewer than 64, it is what refaulted in them, halved for each unless
   there is one only and it reached the limit.
   */
  lemma ThrashingMeans(cfg: Cfg, source: Source, events: nat, s: Sys, smp: Sample)
    requires Reads(cfg, s, smp)
    ensures var thrashing := FactsOf(cfg, source, events, s, smp).thrashing;
            var g, ms := Refaulted(s.m, smp.vmstat.value), DiffMs(s.m.resetTm, smp.now.value);
            if s.m.killing then thrashing == 0
            else if ms <= 1000 then thrashing == g + s.m.growth
            else if ms < 2000 && g >= s.m.limit then thrashing == g
            else ms < 64000 ==> thrashing * Pow2(ms / 1000) <= g < (thrashing + 1) * Pow2(ms / 1000)
  {
    var now, v := smp.now.value, smp.vmstat.value;
    NoTimePassed(now);
    var m := AfterKill(s.m, v, now);
    if s.m.killing {
      FreshWindow(m, v);
    }
    if DiffMs(m.resetTm, now) > 1000 {
      WindowCarries(cfg, m, v, now, smp.overshift);
    } else {
      WindowGoesOn(cfg, m, v, now, smp.overshift);
    }
    hide DiffMs, Refaulted, Measure, SwapLow, SwapUtil, LowestBreached;
  }

  lemma FreshWindow(m: Monitor, v: Vmstat)
    requires m.initRefault == Refault(v)
    ensures Refaulted(m, v) == 0
  {
    TruncZero(m.baseFileLru + 1);
  }

  lemma WindowGoesOn(cfg: Cfg, m: Monitor, v: Vmstat, now: Timespec, overshift: int)
    requires DiffMs(m.resetTm, now) <= 1000
    ensures Measure(cfg, m, v, now, overshift).1 == Refaulted(m, v) + m.growth
  {
    hide DiffMs, Refaulted, InDirect, InKswapd;
    SameRefaulted(m, NoteReclaim(cfg, m, v).(prevRefault := Refault(v)), v);
  }

  /** The window step carries the growth, whatever the event has noted before it. */
  lemma WindowCarries(cfg: Cfg, m: Monitor, v: Vmstat, now: Timespec, overshift: int)
    requires DiffMs(m.resetTm, now) > 1000
    ensures var thrashing := Measure(cfg, m, v, now, overshift).1;
            var g, ms := Refaulted(m, v), DiffMs(m.resetTm, now);
            if ms < 2000 && g >= m.limit then thrashing == g
            else ms < 64000 ==> thrashing * Pow2(ms / 1000) <= g < (thrashing + 1) * Pow2(ms / 1000)
  {
    hide DiffMs, Refaulted, Shr, InDirect, InKswapd;
    var n := NoteReclaim(cfg, m, v).(prevRefault := Refault(v));
    SameRefaulted(m, n, v);
    if DiffMs(m.resetTm, now) < 64000 {
      GrowthCarried(cfg, n, v, now, overshift);
    }
  }

  lemma SameRefaulted(m: Monitor, n: Monitor, v: Vmstat)
    requires n.initRefault == m.initRefault && n.baseFileLru == m.baseFileLru
    ensures Refaulted(n, v) == Refaulted(m, v)
  {
  }

  // ---------------------------------------------------------------- choice

  /**
   What goes with each reason: the lowest score that may be killed, whether a
   kill cuts the thrashing limit, and whether the file cache is watched afterwards.
   */
  lemma ChoiceMeans(cfg: Cfg, f: Facts, check: bool)
    ensures var c := Choose(cfg, f, Fresh(check));
            var critical := f.thrashing >= cfg.criticalPct;
            && c.min == (match c.reason
                         case Vendor(_) => if f.source.VendorKill? then f.source.minScore else 0
                         case PressureAfterKill => cfg.afterKillMin
                         case LowSwapAndThrashing => if critical || f.wmark.MinMark? then 0 else 201
                         case LowMemAndSwap => if critical || f.wmark.MinMark? then 0 else 201
                         case LowMemAndThrashing => if critical then 0 else 201
                         case DirectReclAndThrashing => if critical then 0 else 201
                         case LowFilecacheAfterThrashing => 201
                         case LowMem => cfg.lowmemMin
                         case _ => 0)
            && (c.cut <==> c.reason.LowMemAndThrashing? || c.reason.DirectReclAndThrashing?)
            && (c.check <==>
                || c.reason.LowSwapAndThrashing? || c.reason.LowMemAndThrashing? || c.reason.DirectReclAndThrashing?
                || (check && !c.reason.NoReason? && !c.reason.LowMem?))
  {
  }

  // ---------------------------------------------------------------- after the search

  /**
   An event that searched remembers whether anything was freed, and asks for
   polling to pause while the victim dies, or else to go on: at the short
   interval if swap is low or something was freed.
   */
  lemma AfterSearch(cfg: Cfg, source: Source, events: nat, s: Sys, smp: Sample)
    ensures var o := PsiEvent(cfg, source, events, s, smp);
            o.call.Some? ==>
              var found, t := o.call.value.found, o.sys;
              && t.m.killing == (found.pages > 0)
              && (if cfg.pidfds && found.wait >= 0 then t.update == Pause && t.intervalMs == s.intervalMs
                  else
                    && t.intervalMs == (if o.call.value.facts.swapLow || found.pages > 0 then 10 else 100)
                    && t.update == (if events > 0 || found.pages > 0 || o.call.value.facts.direct then Start
                                    else s.update))
  {
    hide Choose, Brief, Quiet, SwapLow, DiffMs, Marked, Stalled, CutLimit;
    if smp.now.Some? && smp.vmstat.Some? && smp.meminfo.Some? {
      var now, v, mi := smp.now.value, smp.vmstat.value, smp.meminfo.value;
      var u := StopWaiting(NoteLevel(source, events, s));
      var t := u.(m := Measure(cfg, AfterKill(u.m, v, now), v, now, smp.overshift).0);
      NotKilling(cfg, u.m, v, now, smp.overshift);
      JudgeEnds(cfg, t, now, mi, smp, Brief(cfg, source, events, u, now, v, mi, smp.overshift));
      BriefEvents(cfg, source, events, u, now, v, mi, smp.overshift);
    }
    hide Judge, Measure, AfterKill;
  }

  lemma NotKilling(cfg: Cfg, m: Monitor, v: Vmstat, now: Timespec, overshift: int)
    ensures !Measure(cfg, AfterKill(m, v, now), v, now, overshift).0.killing
  {
    hide Carried, Refaulted, DiffMs;
  }

  lemma BriefEvents(cfg: Cfg, source: Source, events: nat, s: Sys, now: Timespec, v: Vmstat, mi: Meminfo,
                    overshift: int)
    ensures Brief(cfg, source, events, s, now, v, mi, overshift).events == events
  {
    hide Measure, SwapLow, SwapUtil, DiffMs;
  }

  /** What a search leaves of the state it started in. */
  predicate Ends(cfg: Cfg, s: Sys, f: Facts, o: Outcome) {
    o.call.Some? ==>
      var found, t := o.call.value.found, o.sys;
      && o.call.value.facts == f.(wmark := o.call.value.facts.wmark) && t.m.killing == (found.pages > 0)
      && (if cfg.pidfds && found.wait >= 0 then t.update == Pause && t.intervalMs == s.intervalMs
          else
            && t.intervalMs == (if f.swapLow || found.pages > 0 then 10 else 100)
            && t.update == (if f.events > 0 || found.pages > 0 || f.direct then Start else s.update))
  }

  lemma StrikeEnds(cfg: Cfg, s: Sys, now: Timespec, search: int -> Found, f: Facts, c: Choice, stall: bool)
    requires !s.m.killing
    ensures Ends(cfg, s, f, Strike(cfg, s, now, search, f, c, stall))
  {
    hide CutLimit;
  }

  lemma JudgeEnds(cfg: Cfg, s: Sys, now: Timespec, mi: Meminfo, smp: Sample, f: Facts)
    requires !s.m.killing
    ensures Ends(cfg, s, f, Judge(cfg, s, now, mi, smp, f))
  {
    hide Choose, DiffMs, LowestBreached, Stalled, Strike, NoKill;
    forall t: Sys, g: Facts, c, stall | !t.m.killing
      ensures Ends(cfg, t, g, Strike(cfg, t, now, smp.search, g, c, stall))
    {
      StrikeEnds(cfg, t, now, smp.search, g, c, stall);
    }
  }

  // ---------------------------------------------------------------- what an event remembers

  /** The event reads the clock, is not outranked and not held back by a dying victim. */
  predicate GoesOn(cfg: Cfg, source: Source, events: nat, s: Sys, smp: Sample) {
    && smp.now.Some? && !(source.Psi? && events > 0 && source.level < s.m.prevLevel)
    && !(s.wait >= 0 && (cfg.pidfds || smp.alive)
         && (cfg.killTimeoutMs == 0 || DiffMs(s.killTm, smp.now.value) < cfg.killTimeoutMs))
  }

  /** A PSI event that is not outranked sets the level to outrank, its own or, for a poll, the lowest. */
  lemma LevelNoted(cfg: Cfg, source: Source, events: nat, s: Sys, smp: Sample)
    ensures PsiEvent(cfg, source, events, s, smp).sys.m.prevLevel ==
            if source.VendorKill? || smp.now.None? || (events > 0 && source.level < s.m.prevLevel) then s.m.prevLevel
            else if events > 0 then source.level else 0
  {
    hide Judge, Measure, AfterKill, Brief, Quiet, SwapLow, DiffMs;
    if smp.now.Some? && smp.vmstat.Some? && smp.meminfo.Some? {
      var now, v, mi := smp.now.value, smp.vmstat.value, smp.meminfo.value;
      var u := StopWaiting(NoteLevel(source, events, s));
      MeasureRemembers(cfg, u.m, v, now, smp.overshift);
      JudgeRemembers(cfg, u.(m := Measure(cfg, AfterKill(u.m, v, now), v, now, smp.overshift).0), now, mi, smp,
                     Brief(cfg, source, events, u, now, v, mi, smp.overshift));
    }
  }

  /**
   An event that gets to the statistics takes note of them: read again unchanged,
   they show no refault and, without a listener, no reclaim.
   */
  lemma Noticed(cfg: Cfg, source: Source, events: nat, s: Sys, smp: Sample)
    requires GoesOn(cfg, source, events, s, smp) && smp.vmstat.Some? && smp.meminfo.Some?
    ensures var t, v := PsiEvent(cfg, source, events, s, smp).sys, smp.vmstat.value;
            && t.m.prevRefault == (if v.refault != 0 then v.refault else v.refaultFile)
            && (!cfg.listener ==> !Reclaims(cfg, t, v))
  {
    hide Judge, Measure, AfterKill, Brief, SwapLow, DiffMs;
    var now, v, mi := smp.now.value, smp.vmstat.value, smp.meminfo.value;
    var u := StopWaiting(NoteLevel(source, events, s));
    MeasureRemembers(cfg, u.m, v, now, smp.overshift);
    JudgeRemembers(cfg, u.(m := Measure(cfg, AfterKill(u.m, v, now), v, now, smp.overshift).0), now, mi, smp,
                   Brief(cfg, source, events, u, now, v, mi, smp.overshift));
  }

  /** The part of the state that a judgement leaves alone. */
  predicate SameMemory(m: Monitor, n: Monitor) {
    && n.prevLevel == m.prevLevel && n.prevRefault == m.prevRefault
    && n.initDirect == m.initDirect && n.initKswapd == m.initKswapd && n.initRefill == m.initRefill
  }

  lemma MeasureRemembers(cfg: Cfg, m: Monitor, v: Vmstat, now: Timespec, overshift: int)
    ensures var n := Measure(cfg, AfterKill(m, v, now), v, now, overshift).0;
            && n.prevLevel == m.prevLevel && n.prevRefault == Refault(v)
            && (!cfg.listener ==>
                  n.initDirect == v.pgscanDirect && n.initKswapd == v.pgscanKswapd && n.initRefill == v.pgrefill)
    ensures SameMemory(m, AfterKill(m, v, now))
  {
    hide Carried, Refaulted, DiffMs;
  }

  lemma JudgeRemembers(cfg: Cfg, s: Sys, now: Timespec, mi: Meminfo, smp: Sample, f: Facts)
    ensures SameMemory(s.m, Judge(cfg, s, now, mi, smp, f).sys.m)
  {
    hide Choose, DiffMs, LowestBreached, Stalled, Strike;
    forall t: Sys, g, c, stall ensures SameMemory(t.m, Strike(cfg, t, now, smp.search, g, c, stall).sys.m) {
      StrikeRemembers(cfg, t, now, smp.search, g, c, stall);
    }
  }

  lemma StrikeRemembers(cfg: Cfg, s: Sys, now: Timespec, search: int -> Found, f: Facts, c: Choice, stall: bool)
    ensures SameMemory(s.m, Strike(cfg, s, now, search, f, c, stall).sys.m)
  {
    hide CutLimit;
  }
}
