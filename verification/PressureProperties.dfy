/** What the pressure decision guarantees, event by event and over runs of events. */
module PressureProperties {
  import opened Tables
  import opened Clock
  import opened Watermarks
  import opened Pressure
  import Search
  import SearchProperties
  import SearchWaits

  // ---------------------------------------------------------------- measurements

  lemma RatioBounds(used: int, rest: int)
    requires used >= 0 && rest >= 0 && used + rest > 0
    ensures 0 <= Trunc(used * 100, used + rest) <= 100
  {
  }

  /** Swap utilisation is a percentage of what could be swapped. */
  lemma SwapUtilIsPercentage(cfg: Cfg, mi: Meminfo)
    requires 0 <= FreeSwap(cfg, mi) <= mi.totalSwap && mi.activeAnon + mi.inactiveAnon + mi.shmem >= 0
    ensures 0 <= SwapUtil(cfg, mi) <= 100
    ensures FreeSwap(cfg, mi) == mi.totalSwap ==> SwapUtil(cfg, mi) == 0
    ensures mi.activeAnon + mi.inactiveAnon + mi.shmem == 0 && FreeSwap(cfg, mi) < mi.totalSwap ==>
            SwapUtil(cfg, mi) == 100
  {
    hide Trunc;
    var used, rest := mi.totalSwap - FreeSwap(cfg, mi), mi.activeAnon + mi.inactiveAnon + mi.shmem;
    if used + rest > 0 {
      RatioBounds(used, rest);
      TruncZero(used + rest);
      if rest == 0 {
        TruncSame(used);
      }
    }
  }

  lemma TruncZero(b: int)
    requires b > 0
    ensures Trunc(0, b) == 0
  {
  }

  lemma TruncSame(b: int)
    requires b > 0
    ensures Trunc(b * 100, b) == 100
  {
  }

  // ---------------------------------------------------------------- entering a search

  /**
   * A search starts with no kill wait in progress, and with the last victim waited for and not known to be gone only
   * if there is a kill timeout and it is over.
   */
  lemma SearchEntry(cfg: Cfg, source: Source, events: nat, s: Sys, smp: Sample)
    requires PsiEvent(cfg, source, events, s, smp).call.Some?
    ensures PsiEvent(cfg, source, events, s, smp).call.value.wait < 0
    ensures s.wait >= 0 && (cfg.pidfds || smp.alive) ==>
              cfg.killTimeoutMs != 0 && smp.now.Some? && DiffMs(s.killTm, smp.now.value) >= cfg.killTimeoutMs
  {
    hide Measure, Brief, Choose, SwapLow, DiffMs;
  }

  /**
   * Hence, when every successful kill frees a page, the search an event makes on the registry kills at most once and
   * never starts a wait while another is in progress.
   */
  lemma OneKillPerEvent(cfg: Cfg, source: Source, events: nat, s: Sys, smp: Sample,
                        search: Search.Cfg, env: Search.Env, w: Search.World)
    requires PsiEvent(cfg, source, events, s, smp).call.Some?
    requires var call := PsiEvent(cfg, source, events, s, smp).call.value;
             call.min >= ADJ_MIN && w.table.wait == call.wait
    requires WellFormed(w.table) && search.pageKb > 0 && SearchWaits.Productive(search, env)
    ensures var u := Search.FindAndKill(search, env, w, PsiEvent(cfg, source, events, s, smp).call.value.min).0;
            && u.overlaps == w.overlaps
            && (forall k | |w.log| <= k < |u.log| - 1 :: !u.log[k].delivered)
            && (u.table.wait >= 0 <==> |u.log| > |w.log| && u.log[|u.log| - 1].waits)
  {
    hide PsiEvent, WellFormed, Search.FindAndKill, SearchWaits.Productive;
    SearchEntry(cfg, source, events, s, smp);
    var min := PsiEvent(cfg, source, events, s, smp).call.value.min;
    SearchWaits.ProductiveSearch(search, env, w, min);
    SearchWaits.SearchOverlaps(search, env, w, min);
  }

  /** The old strategy's way to its search: none when the event ends before it. */
  function OldEntry(cfg: Cfg, s: Sys, smp: Sample): Option<Sys> {
    if smp.now.None? then None
    else if && cfg.killTimeoutMs != 0 && DiffMs(s.killTm, smp.now.value) < cfg.killTimeoutMs
            && Pending(cfg, s, smp) then None
    else Some(StopWaiting(s))
  }

  /**
   * The old strategy, too, searches only with no wait in progress, and it is held back exactly when a victim is waited
   * for, not known to be gone, and within a kill timeout. Of the new one's restraint it lacks one case: with no
   * timeout set it does not let a pending kill hold it back.
   */
  lemma OldSearchEntry(cfg: Cfg, s: Sys, smp: Sample)
    ensures OldEntry(cfg, s, smp).Some? ==> OldEntry(cfg, s, smp).value.wait < 0
    ensures OldEntry(cfg, s, smp).None? <==>
              smp.now.None? ||
              (s.wait >= 0 && (cfg.pidfds || smp.alive)
               && cfg.killTimeoutMs != 0 && DiffMs(s.killTm, smp.now.value) < cfg.killTimeoutMs)
    ensures smp.now.Some? && s.wait >= 0 && (cfg.pidfds || smp.alive) ==>
              ((OldEntry(cfg, s, smp).Some? <==> !Holds(cfg, s, smp.now.value, smp)) <==> cfg.killTimeoutMs != 0)
  {
  }

  /** After an event a wait on a pidfd has either paused polling or was there before and nothing changed. */
  lemma WaitPauses(cfg: Cfg, source: Source, events: nat, s: Sys, smp: Sample)
    requires cfg.pidfds
    ensures var t := PsiEvent(cfg, source, events, s, smp).sys;
            t.wait >= 0 ==> t.update == Pause || t == s
  {
    hide Judge, Measure, AfterKill, Brief, SwapLow, DiffMs;
    if smp.now.Some? && smp.vmstat.Some? && smp.meminfo.Some? {
      var now, v, mi := smp.now.value, smp.vmstat.value, smp.meminfo.value;
      var u := StopWaiting(NoteLevel(source, events, s));
      JudgePauses(cfg, u.(m := Measure(cfg, AfterKill(u.m, v, now), v, now, smp.overshift).0), now, mi, smp,
                  Brief(cfg, source, events, u, now, v, mi, smp.overshift));
    }
  }

  predicate Paused(t: Sys) {
    t.wait >= 0 ==> t.update == Pause
  }

  lemma JudgePauses(cfg: Cfg, s: Sys, now: Timespec, mi: Meminfo, smp: Sample, f: Facts)
    requires cfg.pidfds && s.wait < 0
    ensures Paused(Judge(cfg, s, now, mi, smp, f).sys)
  {
    hide Choose, DiffMs, Marked, Stalled, CutLimit;
  }

  // ---------------------------------------------------------------- why a search is made

  /** The low or the min watermark is breached. */
  predicate BelowLow(w: Wmark) {
    w.MinMark? || w.LowMark?
  }

  /** The device gives a reason to kill. */
  predicate Justified(cfg: Cfg, f: Facts, check: bool) {
    || f.source.VendorKill?
    || BelowLow(f.wmark)
    || (f.source.level == LEVEL_CRITICAL && f.events != 0)
    || (f.swapLow && f.thrashing > cfg.limitPct)
    || (f.direct && f.thrashing > f.limit)
    || (f.direct && cfg.directThresholdMs > 0 && f.directMs > cfg.directThresholdMs)
    || (check && f.fileLruKb < cfg.filecacheMinKb)
  }

  /** What each reason says about the device. */
  predicate Grounds(cfg: Cfg, f: Facts, r: Reason) {
    match r
    case NoReason => false
    case Vendor(code) => f.source.VendorKill? && code == f.source.code + VENDOR_KILL_REASON_BASE
    case PressureAfterKill => f.afterKill && f.wmark.MinMark?
    case NotResponding => f.source.Psi? && f.source.level == LEVEL_CRITICAL && f.events != 0
    case LowSwapAndThrashing => f.swapLow && f.thrashing > cfg.limitPct
    case LowMemAndSwap => f.swapLow && BelowLow(f.wmark)
    case LowMemAndSwapUtil => BelowLow(f.wmark) && cfg.swapUtilMax < f.swapUtil
    case LowMemAndThrashing => BelowLow(f.wmark) && f.thrashing > f.limit
    case DirectReclAndThrashing => f.direct && f.thrashing > f.limit
    case DirectReclStuck => f.direct && f.directMs > cfg.directThresholdMs > 0
    case LowFilecacheAfterThrashing => f.fileLruKb < cfg.filecacheMinKb
    case LowMem => BelowLow(f.wmark)
  }

  /** Which of the reasons outranks which. */
  function Priority(r: Reason): int {
    match r
    case Vendor(_) => 0 case PressureAfterKill => 1 case NotResponding => 2 case LowSwapAndThrashing => 3
    case LowMemAndSwap => 4 case LowMemAndSwapUtil => 5 case LowMemAndThrashing => 6
    case DirectReclAndThrashing => 7 case DirectReclStuck => 8 case LowFilecacheAfterThrashing => 9
    case LowMem => 10 case NoReason => 11
  }

  function Fresh(check: bool): Choice {
    Choice(NoReason, 0, false, check)
  }

  /**
   * A pass that starts afresh finds a reason exactly when the device gives one; the reason it names is true of the
   * device, and none that outranks it and could be named is.
   */
  lemma ReasonIff(cfg: Cfg, f: Facts, check: bool)
    requires Clamped(cfg)
    ensures var r := Choose(cfg, f, Fresh(check)).reason;
            && (r.NoReason? <==> !Justified(cfg, f, check))
            && (!r.NoReason? ==> Grounds(cfg, f, r))
            && forall q: Reason | Priority(q) < Priority(r) && Nameable(cfg, f, check, q) :: !Grounds(cfg, f, q)
  {
  }

  /** Swap utilisation is not looked at when its limit is 100, nor the file cache unless thrashing asked for it. */
  predicate Nameable(cfg: Cfg, f: Facts, check: bool, r: Reason) {
    match r
    case LowMemAndSwapUtil => f.source.Psi? && cfg.swapUtilMax < 100
    case LowFilecacheAfterThrashing => f.source.Psi? && check
    case Vendor(_) => f.source.VendorKill?
    case _ => f.source.Psi?
  }

  /**
   A judgement calls the search exactly when the watermarks could be read, the
   request is valid and there is a reason.
   */
  lemma JudgeKillsIff(cfg: Cfg, s: Sys, now: Timespec, mi: Meminfo, smp: Sample, f: Facts)
    requires Clamped(cfg)
    ensures var m := Refresh(cfg, s.m, now, smp.first.zones);
            Judge(cfg, s, now, mi, smp, f).call.Some? <==>
              && m.Some? && !Rejected(cfg, f.source) && Justified(cfg, Marked(f, m.value, mi), m.value.checkFilecache)
              && (s.m.firstKill ==> smp.again.zones.Some?)
  {
    hide Choose, Justified, Strike, NoKill;
    var m := Refresh(cfg, s.m, now, smp.first.zones);
    if m.Some? {
      ReasonIff(cfg, Marked(f, m.value, mi), m.value.checkFilecache);
      StrikeCalls(cfg, s, now, mi, smp, f);
    }
  }

  lemma StrikeCalls(cfg: Cfg, s: Sys, now: Timespec, mi: Meminfo, smp: Sample, f: Facts)
    ensures forall t, g, c, b :: Strike(cfg, t, now, smp.search, g, c, b).call.Some?
  {
  }

  // ---------------------------------------------------------------- who may be killed

  /** The cases in which processes of score 200 and below are fair game. */
  predicate MayKillPerceptible(cfg: Cfg, f: Facts, r: Reason, stall: bool) {
    || stall
    || (r.Vendor? && f.source.VendorKill? && f.source.minScore <= Search.PERCEPTIBLE_APP_ADJ)
    || (r.PressureAfterKill? && cfg.afterKillMin <= Search.PERCEPTIBLE_APP_ADJ)
    || r.NotResponding? || r.LowMemAndSwapUtil? || r.DirectReclStuck?
    || ((r.LowSwapAndThrashing? || r.LowMemAndSwap?) && (f.wmark.MinMark? || f.thrashing >= cfg.criticalPct))
    || ((r.LowMemAndThrashing? || r.DirectReclAndThrashing?) && f.thrashing >= cfg.criticalPct)
  }

  lemma ChooseMin(cfg: Cfg, f: Facts, check: bool)
    requires Clamped(cfg)
    ensures var c := Choose(cfg, f, Fresh(check));
            !c.reason.NoReason? ==>
              && (c.min <= Search.PERCEPTIBLE_APP_ADJ <==> MayKillPerceptible(cfg, f, c.reason, false))
              && Grounds(cfg, f, c.reason)
  {
  }

  /** What a decision afresh comes to. */
  lemma FreshChoice(cfg: Cfg, f: Facts, c: Choice)
    ensures var d := Choose(cfg, f, c);
            Clamped(cfg) && c == Fresh(c.check) ==>
              && (d.reason.NoReason? <==> !Justified(cfg, f, c.check))
              && (!d.reason.NoReason? ==>
                    && Grounds(cfg, f, d.reason)
                    && (d.min <= Search.PERCEPTIBLE_APP_ADJ <==> MayKillPerceptible(cfg, f, d.reason, false)))
  {
    hide Choose, Justified, Grounds, MayKillPerceptible;
    if Clamped(cfg) && c == Fresh(c.check) {
      ReasonIff(cfg, f, c.check);
      ChooseMin(cfg, f, c.check);
    }
  }

  /** The event got its time, its statistics and its watermarks. */
  predicate Reads(cfg: Cfg, s: Sys, smp: Sample) {
    && smp.now.Some? && smp.vmstat.Some? && smp.meminfo.Some?
    && Refresh(cfg, s.m, smp.now.value, smp.first.zones).Some?
  }

  /** What the decision looks at, from the state before the event and what the event reads. */
  function FactsOf(cfg: Cfg, source: Source, events: nat, s: Sys, smp: Sample): Facts
    requires Reads(cfg, s, smp)
  {
    var mi := smp.meminfo.value;
    Brief(cfg, source, events, s, smp.now.value, smp.vmstat.value, mi, smp.overshift)
    .(wmark := LowestBreached(mi.nrFree - mi.cmaFree, Refresh(cfg, s.m, smp.now.value, smp.first.zones).value.marks))
  }

  /** The reason a decision afresh finds in them. */
  function ReasonOf(cfg: Cfg, source: Source, events: nat, s: Sys, smp: Sample): Reason
    requires Reads(cfg, s, smp)
  {
    Choose(cfg, FactsOf(cfg, source, events, s, smp), Fresh(s.m.checkFilecache)).reason
  }

  /** The system is stalled, as far as the event can tell. */
  predicate CriticalStall(cfg: Cfg, smp: Sample) {
    smp.first.stall.Some? && smp.first.stall.value > cfg.stallLimit
  }

  /** The event goes as far as the decision: it is not ignored, not held back, and not on a quiet device. */
  predicate Decides(cfg: Cfg, source: Source, events: nat, s: Sys, smp: Sample)
    requires Reads(cfg, s, smp)
  {
    && !Ignored(source, events, s) && !Holds(cfg, s, smp.now.value, smp)
    && (source.VendorKill? || !Quiet(cfg, AfterKill(s.m, smp.vmstat.value, smp.now.value), smp.vmstat.value))
  }

  /** What reaches the judgement: the state after the window step, with the watermarks it had. */
  lemma Reached(cfg: Cfg, source: Source, events: nat, s: Sys, smp: Sample) returns (t: Sys)
    requires smp.now.Some? && smp.vmstat.Some? && smp.meminfo.Some?
    requires !Ignored(source, events, s) && !Holds(cfg, s, smp.now.value, smp)
    requires source.VendorKill? || !Quiet(cfg, AfterKill(s.m, smp.vmstat.value, smp.now.value), smp.vmstat.value)
    ensures PsiEvent(cfg, source, events, s, smp)
         == Judge(cfg, t, smp.now.value, smp.meminfo.value, smp,
                  Brief(cfg, source, events, s, smp.now.value, smp.vmstat.value, smp.meminfo.value, smp.overshift))
    ensures && t.m.marks == s.m.marks && t.m.wmarkTm == s.m.wmarkTm && t.m.firstKill == s.m.firstKill
            && t.m.checkFilecache == s.m.checkFilecache && t.wait < 0
  {
    var now, v, mi := smp.now.value, smp.vmstat.value, smp.meminfo.value;
    var u := StopWaiting(NoteLevel(source, events, s));
    t := u.(m := Measure(cfg, AfterKill(u.m, v, now), v, now, smp.overshift).0);
    MeasureKeeps(cfg, u.m, v, now, smp.overshift);
    BriefOf(cfg, source, events, s, u, now, v, mi, smp.overshift);
    QuietOf(cfg, s, u, now, v);
    hide Judge, Measure, AfterKill, Brief, Quiet, DiffMs, SwapLow;
  }

  /** An event on a quiet device ends there. */
  lemma QuietEvent(cfg: Cfg, level: int, events: nat, s: Sys, smp: Sample)
    requires smp.now.Some? && smp.vmstat.Some? && smp.meminfo.Some?
    requires !Ignored(Psi(level), events, s) && !Holds(cfg, s, smp.now.value, smp)
    requires Quiet(cfg, AfterKill(s.m, smp.vmstat.value, smp.now.value), smp.vmstat.value)
    ensures var u := StopWaiting(NoteLevel(Psi(level), events, s));
            var t := u.(m := AfterKill(u.m, smp.vmstat.value, smp.now.value));
            PsiEvent(cfg, Psi(level), events, s, smp)
            == Outcome(NoKill(cfg, t, events, SwapLow(cfg, smp.meminfo.value), false), None)
  {
    QuietOf(cfg, s, StopWaiting(NoteLevel(Psi(level), events, s)), smp.now.value, smp.vmstat.value);
    hide Judge, Measure, AfterKill, Brief, Quiet, DiffMs, SwapLow;
  }

  lemma MeasureKeeps(cfg: Cfg, m: Monitor, v: Vmstat, now: Timespec, overshift: int)
    ensures var u := Measure(cfg, AfterKill(m, v, now), v, now, overshift).0;
            && u.marks == m.marks && u.wmarkTm == m.wmarkTm && u.firstKill == m.firstKill
            && u.checkFilecache == m.checkFilecache
  {
    hide Carried, Refaulted, DiffMs;
  }

  lemma QuietOf(cfg: Cfg, s: Sys, u: Sys, now: Timespec, v: Vmstat)
    requires u.m == s.m.(prevLevel := u.m.prevLevel)
    ensures Quiet(cfg, AfterKill(u.m, v, now), v) == Quiet(cfg, AfterKill(s.m, v, now), v)
  {
  }

  /** The level an event notes is not among its facts. */
  lemma BriefOf(cfg: Cfg, source: Source, events: nat, s: Sys, u: Sys, now: Timespec, v: Vmstat, mi: Meminfo,
                overshift: int)
    requires u.m == s.m.(prevLevel := u.m.prevLevel)
    ensures Brief(cfg, source, events, u, now, v, mi, overshift) == Brief(cfg, source, events, s, now, v, mi, overshift)
  {
    hide DiffMs, SwapLow, SwapUtil, Measure;
    MeasureOf(cfg, AfterKill(s.m, v, now), AfterKill(u.m, v, now), v, now, overshift);
  }

  lemma MeasureOf(cfg: Cfg, a: Monitor, b: Monitor, v: Vmstat, now: Timespec, overshift: int)
    requires b == a.(prevLevel := b.prevLevel)
    ensures var (m, x) := Measure(cfg, a, v, now, overshift);
            var (n, y) := Measure(cfg, b, v, now, overshift);
            x == y && n == m.(prevLevel := b.prevLevel)
  {
    hide DiffMs, Window, InDirect, InKswapd;
    SameReclaim(cfg, a, b, v);
    WindowOf(cfg, NoteReclaim(cfg, a, v).(prevRefault := Refault(v)),
             NoteReclaim(cfg, b, v).(prevRefault := Refault(v)), v, now, overshift);
  }

  lemma SameReclaim(cfg: Cfg, a: Monitor, b: Monitor, v: Vmstat)
    requires b == a.(prevLevel := b.prevLevel)
    ensures InDirect(cfg, a, v) == InDirect(cfg, b, v) && InKswapd(cfg, a, v) == InKswapd(cfg, b, v)
  {
  }

  lemma WindowOf(cfg: Cfg, a: Monitor, b: Monitor, v: Vmstat, now: Timespec, overshift: int)
    requires b == a.(prevLevel := b.prevLevel)
    ensures var (m, x) := Window(cfg, a, v, now, overshift);
            var (n, y) := Window(cfg, b, v, now, overshift);
            x == y && n == m.(prevLevel := b.prevLevel)
  {
    hide Trunc, DiffMs, Shr;
  }

  /**
   An event searches for a victim exactly when it gets to decide, its request is
   valid and its facts give a reason; the recheck before the first kill only
   asks that the watermarks can be read again.
   */
  lemma EventKillsIff(cfg: Cfg, source: Source, events: nat, s: Sys, smp: Sample)
    requires Clamped(cfg)
    ensures PsiEvent(cfg, source, events, s, smp).call.Some? <==>
              && Reads(cfg, s, smp) && Decides(cfg, source, events, s, smp) && !Rejected(cfg, source)
              && Justified(cfg, FactsOf(cfg, source, events, s, smp), s.m.checkFilecache)
              && (s.m.firstKill ==> smp.again.zones.Some?)
  {
    hide PsiEvent, Judge, Justified, Holds, Quiet, AfterKill, LowestBreached, DiffMs, Measure;
    Gates(cfg, source, events, s, smp);
    if && smp.now.Some? && smp.vmstat.Some? && smp.meminfo.Some?
       && !Ignored(source, events, s) && !Holds(cfg, s, smp.now.value, smp)
       && (source.VendorKill? || !Quiet(cfg, AfterKill(s.m, smp.vmstat.value, smp.now.value), smp.vmstat.value)) {
      var now, v, mi := smp.now.value, smp.vmstat.value, smp.meminfo.value;
      var t := Reached(cfg, source, events, s, smp);
      JudgeKillsIff(cfg, t, now, mi, smp, Brief(cfg, source, events, s, now, v, mi, smp.overshift));
    }
  }

  /** What an event that searches has got past. */
  lemma Gates(cfg: Cfg, source: Source, events: nat, s: Sys, smp: Sample)
    ensures PsiEvent(cfg, source, events, s, smp).call.Some? ==>
              && smp.now.Some? && smp.vmstat.Some? && smp.meminfo.Some?
              && !Ignored(source, events, s) && !Holds(cfg, s, smp.now.value, smp)
              && (source.VendorKill? || !Quiet(cfg, AfterKill(s.m, smp.vmstat.value, smp.now.value), smp.vmstat.value))
  {
    hide Judge, Measure, Brief, Quiet, DiffMs, SwapLow;
    if smp.now.Some? && smp.vmstat.Some? {
      QuietOf(cfg, s, StopWaiting(NoteLevel(source, events, s)), smp.now.value, smp.vmstat.value);
    }
  }

  lemma JudgeShape(cfg: Cfg, s: Sys, now: Timespec, mi: Meminfo, smp: Sample, f: Facts)
    requires !s.m.firstKill && Judge(cfg, s, now, mi, smp, f).call.Some?
    ensures var call := Judge(cfg, s, now, mi, smp, f).call.value;
            var m := Refresh(cfg, s.m, now, smp.first.zones);
            && m.Some? && call.facts == Marked(f, m.value, mi) && call.stall == CriticalStall(cfg, smp)
            && call.choice == Choose(cfg, call.facts, Fresh(s.m.checkFilecache)) && !call.choice.reason.NoReason?
            && call.min == (if call.stall then 0 else call.choice.min) && call.found == smp.search(call.min)
  {
    hide Choose, DiffMs, NoKill, LowestBreached, CutLimit;
  }

  /** What a search leaves behind: the wait it answered and, if it killed, its victim and the time. */
  lemma SearchResult(cfg: Cfg, source: Source, events: nat, s: Sys, smp: Sample)
    ensures var o := PsiEvent(cfg, source, events, s, smp);
            o.call.Some? ==>
              && smp.now.Some? && o.sys.wait == o.call.value.found.wait
              && (o.call.value.found.killed.Some? ==>
                    o.sys.killTm == smp.now.value && o.sys.victim == o.call.value.found.killed.value)
  {
    hide Choose, Measure, Brief, AfterKill, Quiet, SwapLow, DiffMs, Marked, Stalled, CutLimit;
  }

  /** The event goes on to stop the kill wait there is: it reads the clock, is not ignored and not held back. */
  predicate Stops(cfg: Cfg, source: Source, events: nat, s: Sys, smp: Sample) {
    smp.now.Some? && !Ignored(source, events, s) && !Holds(cfg, s, smp.now.value, smp)
  }

  /** What is waited on, and which of the waits begun it is. */
  predicate SameWait(s: Sys, t: Sys) {
    t.wait == s.wait && t.waits == s.waits && t.victim == s.victim && t.killTm == s.killTm
  }

  /** An event that does not stop the wait leaves it as it is; after one that does, any wait is a later one. */
  lemma EventWait(cfg: Cfg, source: Source, events: nat, s: Sys, smp: Sample)
    ensures var t := PsiEvent(cfg, source, events, s, smp).sys;
            if Stops(cfg, source, events, s, smp) then LaterWait(s, t) else SameWait(s, t)
  {
    hide Judge, Measure, AfterKill, Brief, Quiet, SwapLow, DiffMs;
    if smp.now.Some? && smp.vmstat.Some? && smp.meminfo.Some? {
      var now, v, mi := smp.now.value, smp.vmstat.value, smp.meminfo.value;
      var u := StopWaiting(NoteLevel(source, events, s));
      var t := u.(m := Measure(cfg, AfterKill(u.m, v, now), v, now, smp.overshift).0);
      JudgeWait(cfg, t, now, mi, smp, Brief(cfg, source, events, u, now, v, mi, smp.overshift));
    }
  }

  /** There is no wait, or a later one. */
  predicate LaterWait(s: Sys, t: Sys) {
    t.waits >= s.waits && (t.wait < 0 || t.waits > s.waits)
  }

  lemma JudgeWait(cfg: Cfg, s: Sys, now: Timespec, mi: Meminfo, smp: Sample, f: Facts)
    requires s.wait < 0
    ensures LaterWait(s, Judge(cfg, s, now, mi, smp, f).sys)
  {
    hide Choose, DiffMs, Marked, Stalled, CutLimit;
  }

  /**
   The search is called with what a decision afresh finds in the event's own
   facts, or with 0 under a critical stall.
   */
  lemma CallShape(cfg: Cfg, source: Source, events: nat, s: Sys, smp: Sample)
    requires !s.m.firstKill && PsiEvent(cfg, source, events, s, smp).call.Some?
    ensures Reads(cfg, s, smp)
    ensures var call := PsiEvent(cfg, source, events, s, smp).call.value;
            && call.facts == FactsOf(cfg, source, events, s, smp) && call.stall == CriticalStall(cfg, smp)
            && call.choice == Choose(cfg, call.facts, Fresh(s.m.checkFilecache)) && !call.choice.reason.NoReason?
            && call.min == (if call.stall then 0 else call.choice.min) && call.found == smp.search(call.min)
  {
    hide PsiEvent, Judge, Choose, Holds, Quiet, AfterKill, LowestBreached, DiffMs, Measure;
    Gates(cfg, source, events, s, smp);
    var now, v, mi := smp.now.value, smp.vmstat.value, smp.meminfo.value;
    var t := Reached(cfg, source, events, s, smp);
    JudgeShape(cfg, t, now, mi, smp, Brief(cfg, source, events, s, now, v, mi, smp.overshift));
  }

  /**
   Once the first-kill recheck is used up, the search an event makes may go down
   to score 200 exactly in those cases, for the reason the event's own facts give.
   */
  lemma PerceptibleIff(cfg: Cfg, source: Source, events: nat, s: Sys, smp: Sample)
    requires Clamped(cfg) && !s.m.firstKill && PsiEvent(cfg, source, events, s, smp).call.Some?
    ensures Reads(cfg, s, smp)
    ensures var f, r := FactsOf(cfg, source, events, s, smp), ReasonOf(cfg, source, events, s, smp);
            && (PsiEvent(cfg, source, events, s, smp).call.value.min <= Search.PERCEPTIBLE_APP_ADJ <==>
                MayKillPerceptible(cfg, f, r, CriticalStall(cfg, smp)))
            && Grounds(cfg, f, r)
  {
    hide PsiEvent, Choose, Grounds, FactsOf, Reads, CriticalStall;
    CallShape(cfg, source, events, s, smp);
    ChooseMin(cfg, FactsOf(cfg, source, events, s, smp), s.m.checkFilecache);
  }

  /** Hence every process of score 200 or lower that is signalled is signalled in one of those cases. */
  lemma PerceptibleSpared(cfg: Cfg, source: Source, events: nat, s: Sys, smp: Sample,
                          search: Search.Cfg, env: Search.Env, w: Search.World)
    requires Clamped(cfg) && !s.m.firstKill && PsiEvent(cfg, source, events, s, smp).call.Some?
    requires WellFormed(w.table) && search.pageKb > 0
    requires PsiEvent(cfg, source, events, s, smp).call.value.min >= ADJ_MIN
    ensures Reads(cfg, s, smp)
    ensures var u := Search.FindAndKill(search, env, w, PsiEvent(cfg, source, events, s, smp).call.value.min).0;
            var f, r := FactsOf(cfg, source, events, s, smp), ReasonOf(cfg, source, events, s, smp);
            forall k | |w.log| <= k < |u.log| && u.log[k].score <= Search.PERCEPTIBLE_APP_ADJ ::
              MayKillPerceptible(cfg, f, r, CriticalStall(cfg, smp)) && Grounds(cfg, f, r)
  {
    hide PsiEvent, FactsOf, ReasonOf, Reads, CriticalStall, Grounds, MayKillPerceptible, Search.Find, WellFormed;
    var min := PsiEvent(cfg, source, events, s, smp).call.value.min;
    PerceptibleIff(cfg, source, events, s, smp);
    var stop := SearchProperties.FindStops(search, env, w, ADJ_MAX, min, search.heaviest);
  }

  /** The device is calm in every way the settings watch. */
  predicate Calm(cfg: Cfg, source: Source, events: nat, f: Facts) {
    && source.Psi? && (source.level != LEVEL_CRITICAL || events == 0)
    && !f.wmark.MinMark? && f.thrashing < cfg.criticalPct && f.swapUtil <= cfg.swapUtilMax
    && (cfg.directThresholdMs <= 0 || f.directMs <= cfg.directThresholdMs)
  }

  /** Then, and without a critical stall, processes of score 200 and below are spared. */
  lemma CalmSpares(cfg: Cfg, source: Source, events: nat, s: Sys, smp: Sample)
    requires Clamped(cfg) && !s.m.firstKill && PsiEvent(cfg, source, events, s, smp).call.Some?
    requires Reads(cfg, s, smp) && !CriticalStall(cfg, smp)
    requires Calm(cfg, source, events, FactsOf(cfg, source, events, s, smp))
    ensures PsiEvent(cfg, source, events, s, smp).call.value.min > Search.PERCEPTIBLE_APP_ADJ
  {
    hide PsiEvent, Choose, Reads, Measure, AfterKill, DiffMs, LowestBreached, SwapLow, SwapUtil;
    PerceptibleIff(cfg, source, events, s, smp);
  }

  // ---------------------------------------------------------------- vendor requests

  /**
   The range check is made before the base is added: a request passes it with a
   reason outside the vendor range, too.
   */
  lemma VendorRange(cfg: Cfg, source: Source)
    requires source.VendorKill? && !Rejected(cfg, source)
    ensures var code := source.code + VENDOR_KILL_REASON_BASE;
            VENDOR_KILL_REASON_BASE <= code <= VendorEnd(cfg) <==> source.code < cfg.vendorReasons
  {
  }

  // ---------------------------------------------------------------- the recheck before the first kill

  /**
   * The re-read watermarks never call the first kill off: whatever they say, a reason found on the old ones leads
   * to a search as soon as they can be read.
   */
  lemma RecheckNeverSpares(cfg: Cfg, source: Source, events: nat, s: Sys, smp: Sample)
    requires Clamped(cfg) && s.m.firstKill && Reads(cfg, s, smp)
    requires Decides(cfg, source, events, s, smp) && !Rejected(cfg, source)
    requires Justified(cfg, FactsOf(cfg, source, events, s, smp), s.m.checkFilecache)
    ensures PsiEvent(cfg, source, events, s, smp).call.Some? <==> smp.again.zones.Some?
  {
    hide PsiEvent, FactsOf, Justified, Decides, Reads;
    EventKillsIff(cfg, source, events, s, smp);
  }

  /** What the decision looks at in the second pass: the same with the watermarks as read again. */
  function FactsAgain(cfg: Cfg, source: Source, events: nat, s: Sys, smp: Sample): Facts
    requires Reads(cfg, s, smp) && smp.again.zones.Some?
  {
    var mi := smp.meminfo.value;
    FactsOf(cfg, source, events, s, smp).(wmark := LowestBreached(mi.nrFree - mi.cmaFree, smp.again.zones.value))
  }

  /** The device gives a reason other than that a watermark is breached. */
  predicate OutrightReason(cfg: Cfg, f: Facts, check: bool) {
    || f.source.VendorKill?
    || (f.afterKill && f.wmark.MinMark?)
    || (f.source.level == LEVEL_CRITICAL && f.events != 0)
    || (f.swapLow && (f.thrashing > cfg.limitPct || BelowLow(f.wmark)))
    || (BelowLow(f.wmark) && ((cfg.swapUtilMax < 100 && f.swapUtil > cfg.swapUtilMax) || f.thrashing > f.limit))
    || (f.direct && f.thrashing > f.limit)
    || (f.direct && cfg.directThresholdMs > 0 && f.directMs > cfg.directThresholdMs)
    || (check && f.fileLruKb < cfg.filecacheMinKb)
  }

  /** A second pass on facts that differ in the watermark only: when the reason it ends with is true of them. */
  lemma SecondReason(cfg: Cfg, f: Facts, again: Facts, check: bool)
    requires Clamped(cfg) && again == f.(wmark := again.wmark) && Justified(cfg, f, check)
    ensures var c := Choose(cfg, f, Fresh(check));
            Grounds(cfg, again, Choose(cfg, again, c).reason) <==>
            OutrightReason(cfg, again, c.check) || (c.reason.LowMem? && BelowLow(again.wmark))
  {
  }

  /** The system is stalled at the second look or, where that tells nothing, at the first. */
  predicate StallAgain(cfg: Cfg, smp: Sample) {
    if smp.again.stall.Some? then smp.again.stall.value > cfg.stallLimit else CriticalStall(cfg, smp)
  }

  lemma JudgeAgain(cfg: Cfg, s: Sys, now: Timespec, mi: Meminfo, smp: Sample, f: Facts)
    requires s.m.firstKill && Judge(cfg, s, now, mi, smp, f).call.Some?
    ensures var call := Judge(cfg, s, now, mi, smp, f).call.value;
            var m := Refresh(cfg, s.m, now, smp.first.zones);
            && m.Some? && smp.again.zones.Some?
            && call.facts == f.(wmark := LowestBreached(mi.nrFree - mi.cmaFree, smp.again.zones.value))
            && call.stall == StallAgain(cfg, smp) && call.min == (if call.stall then 0 else call.choice.min)
            && (var c := Choose(cfg, Marked(f, m.value, mi), Fresh(s.m.checkFilecache));
                !c.reason.NoReason? && call.choice == Choose(cfg, call.facts, c))
  {
    hide Choose, DiffMs, NoKill, LowestBreached, CutLimit;
  }

  /**
   When the first kill is made for a reason that is true of the watermarks read
   for it: there is another reason than a breached watermark, or a breach was
   the reason found on the old ones and is found on the new ones, too.
   */
  lemma FirstKillTrueIff(cfg: Cfg, source: Source, events: nat, s: Sys, smp: Sample)
    requires Clamped(cfg) && s.m.firstKill && PsiEvent(cfg, source, events, s, smp).call.Some?
    ensures Reads(cfg, s, smp) && smp.again.zones.Some?
    ensures var call := PsiEvent(cfg, source, events, s, smp).call.value;
            var again := FactsAgain(cfg, source, events, s, smp);
            var c := Choose(cfg, FactsOf(cfg, source, events, s, smp), Fresh(s.m.checkFilecache));
            && call.facts == again && call.min == (if StallAgain(cfg, smp) then 0 else call.choice.min)
            && (Grounds(cfg, again, call.choice.reason) <==>
                OutrightReason(cfg, again, c.check) || (c.reason.LowMem? && BelowLow(again.wmark)))
  {
    hide PsiEvent, Judge, Choose, Holds, Quiet, AfterKill, LowestBreached, DiffMs, Measure, Grounds, OutrightReason;
    Gates(cfg, source, events, s, smp);
    var now, v, mi := smp.now.value, smp.vmstat.value, smp.meminfo.value;
    var t := Reached(cfg, source, events, s, smp);
    var brief := Brief(cfg, source, events, s, now, v, mi, smp.overshift);
    JudgeAgain(cfg, t, now, mi, smp, brief);
    var f, again := FactsOf(cfg, source, events, s, smp), FactsAgain(cfg, source, events, s, smp);
    ReasonIff(cfg, f, s.m.checkFilecache);
    SecondReason(cfg, f, again, s.m.checkFilecache);
  }

  /** A device that has just started, with watermarks that are too high. */
  function Roomy(stale: Marks): Sys {
    var zero := Timespec(0, 0);
    Sys(Monitor(0, 5, 0, 0, 0, 0, false, 0, zero, zero, 0, false, 0, true, LEVEL_LOW, stale, zero, zero),
        -1, zero, 0, 0, Unchanged, 0)
  }

  /** Plenty of free memory and no swap; the watermarks are right when they are read again. */
  function Plenty(search: int -> Found): Sample {
    Sample(Some(Timespec(0, 0)), false, Some(Vmstat(0, 0, 0, 0, 0, 0, 0)), Some(Meminfo(50, 0, 0, 0, 0, 0, 0, 0)),
           Look(None, None), Look(Some(Marks(30, 20, 10)), None), search, 0)
  }

  /** So the first kill can be made for a reason that the watermarks re-read for it refute. */
  lemma FirstKillStale(cfg: Cfg, search: int -> Found)
    requires Clamped(cfg)
    ensures var call := PsiEvent(cfg, Psi(LEVEL_LOW), 1, Roomy(Marks(300, 200, 10)), Plenty(search)).call;
            && call.Some? && call.value.choice.reason.LowMem? && call.value.facts.wmark.NoMark?
            && !Justified(cfg, call.value.facts, false)
  {
    RoomyFacts(cfg, search);
    hide PsiEvent, Judge, Brief, Quiet, Holds, AfterKill, Justified;
    var smp := Plenty(search);
    var t := Reached(cfg, Psi(LEVEL_LOW), 1, Roomy(Marks(300, 200, 10)), smp);
    RoomyJudged(cfg, t, search);
  }

  /** What the decision sees there. */
  const SEEN := Facts(Psi(LEVEL_LOW), 1, false, NoMark, false, 0, 0, 0, false, 0, 0)

  lemma RoomyFacts(cfg: Cfg, search: int -> Found)
    ensures var s, smp := Roomy(Marks(300, 200, 10)), Plenty(search);
            var now, v, mi := smp.now.value, smp.vmstat.value, smp.meminfo.value;
            && Brief(cfg, Psi(LEVEL_LOW), 1, s, now, v, mi, smp.overshift) == SEEN
            && !Holds(cfg, s, now, smp) && !Quiet(cfg, AfterKill(s.m, v, now), v)
  {
    NoSwap(cfg, Plenty(search).meminfo.value);
    hide SwapLow, SwapUtil, FreeSwap, Shr;
  }

  lemma NoSwap(cfg: Cfg, mi: Meminfo)
    requires mi == Meminfo(mi.nrFree, mi.cmaFree, 0, 0, 0, 0, 0, 0)
    ensures !SwapLow(cfg, mi) && SwapUtil(cfg, mi) == 0
  {
    hide Trunc;
    assert mi.easyAvailable * cfg.compressionRatio == 0 && mi.totalSwap * cfg.swapFreeLowPct == 0;
  }

  lemma RoomyJudged(cfg: Cfg, t: Sys, search: int -> Found)
    requires Clamped(cfg) && t.m.firstKill && !t.m.checkFilecache
    requires t.m.marks == Marks(300, 200, 10) && t.m.wmarkTm == Timespec(0, 0)
    ensures var smp := Plenty(search);
            var call := Judge(cfg, t, smp.now.value, smp.meminfo.value, smp, SEEN).call;
            && call.Some? && call.value.choice.reason.LowMem? && call.value.facts.wmark.NoMark?
            && !Justified(cfg, call.value.facts, false)
  {
  }

  // ---------------------------------------------------------------- the thrashing limit over runs

  /** The statistics get as far as the thrashing window and find it over. */
  predicate WindowOver(cfg: Cfg, source: Source, s: Sys, v: Vmstat, now: Timespec) {
    var m := AfterKill(s.m, v, now);
    (!Quiet(cfg, m, v) || source.VendorKill?) && Crosses(m, now)
  }

  /** So does the event. */
  predicate Restores(cfg: Cfg, source: Source, events: nat, s: Sys, smp: Sample) {
    && smp.now.Some? && !Ignored(source, events, s) && !Holds(cfg, s, smp.now.value, smp)
    && smp.vmstat.Some? && smp.meminfo.Some? && WindowOver(cfg, source, s, smp.vmstat.value, smp.now.value)
  }

  /** The event ends in a kill for thrashing. */
  predicate Cuts(o: Outcome) {
    o.call.Some? && o.call.value.choice.cut && o.call.value.found.pages > 0
  }

  lemma StrikeLimit(cfg: Cfg, s: Sys, now: Timespec, search: int -> Found, f: Facts, c: Choice, stall: bool)
    ensures var o := Strike(cfg, s, now, search, f, c, stall);
            o.sys.m.limit == if Cuts(o) then CutLimit(s.m.limit, cfg.decayPct) else s.m.limit
  {
  }

  lemma JudgeLimit(cfg: Cfg, s: Sys, now: Timespec, mi: Meminfo, smp: Sample, f: Facts)
    ensures var o := Judge(cfg, s, now, mi, smp, f);
            o.sys.m.limit == if Cuts(o) then CutLimit(s.m.limit, cfg.decayPct) else s.m.limit
  {
    hide Choose, DiffMs, CutLimit, Strike, Marked, Stalled;
    forall t: Sys, g, c, stall
      ensures var o := Strike(cfg, t, now, smp.search, g, c, stall);
              o.sys.m.limit == if Cuts(o) then CutLimit(t.m.limit, cfg.decayPct) else t.m.limit
    {
      StrikeLimit(cfg, t, now, smp.search, g, c, stall);
    }
  }

  /** What one event does to the limit: restore it when a window is over, then cut it after a kill for thrashing. */
  lemma LimitStep(cfg: Cfg, source: Source, events: nat, s: Sys, smp: Sample)
    ensures var o := PsiEvent(cfg, source, events, s, smp);
            var base := if Restores(cfg, source, events, s, smp) then cfg.limitPct else s.m.limit;
            o.sys.m.limit == if Cuts(o) then CutLimit(base, cfg.decayPct) else base
  {
    hide Assess, DiffMs, CutLimit, WindowOver;
    if smp.now.Some? && smp.vmstat.Some? && smp.meminfo.Some? {
      var u := StopWaiting(NoteLevel(source, events, s));
      AssessLimit(cfg, source, events, u, smp.now.value, smp.vmstat.value, smp.meminfo.value, smp);
      LevelIrrelevant(cfg, source, s, u, smp.vmstat.value, smp.now.value);
    }
  }

  lemma LevelIrrelevant(cfg: Cfg, source: Source, s: Sys, u: Sys, v: Vmstat, now: Timespec)
    requires u.m == s.m.(prevLevel := u.m.prevLevel)
    ensures WindowOver(cfg, source, u, v, now) == WindowOver(cfg, source, s, v, now)
  {
    hide DiffMs;
  }

  lemma MeasureLimit(cfg: Cfg, m: Monitor, v: Vmstat, now: Timespec, overshift: int)
    ensures Measure(cfg, m, v, now, overshift).0.limit == if Crosses(m, now) then cfg.limitPct else m.limit
  {
    hide Carried, Refaulted, DiffMs;
  }

  lemma AssessLimit(cfg: Cfg, source: Source, events: nat, s: Sys, now: Timespec, v: Vmstat, mi: Meminfo, smp: Sample)
    ensures var o := Assess(cfg, source, events, s, now, v, mi, smp);
            var base := if WindowOver(cfg, source, s, v, now) then cfg.limitPct else s.m.limit;
            o.sys.m.limit == if Cuts(o) then CutLimit(base, cfg.decayPct) else base
  {
    hide Judge, DiffMs, CutLimit, SwapLow, Brief, Measure, Quiet;
    var m := AfterKill(s.m, v, now);
    MeasureLimit(cfg, m, v, now, smp.overshift);
    JudgeLimit(cfg, s.(m := Measure(cfg, m, v, now, smp.overshift).0), now, mi, smp,
               Brief(cfg, source, events, s, now, v, mi, smp.overshift));
  }

  /** What every event keeps, and what it does before it searches and after. */
  lemma EventSafe(cfg: Cfg, source: Source, events: nat, s: Sys, smp: Sample)
    requires Clamped(cfg) && 0 <= s.m.limit <= cfg.limitPct
    ensures var o := PsiEvent(cfg, source, events, s, smp);
            && 0 <= o.sys.m.limit <= cfg.limitPct && (o.call.Some? ==> o.call.value.wait < 0)
            && (o.call.Some? && s.wait >= 0 && (cfg.pidfds || smp.alive) ==>
                  cfg.killTimeoutMs != 0 && smp.now.Some? && DiffMs(s.killTm, smp.now.value) >= cfg.killTimeoutMs)
            && (cfg.pidfds && o.sys.wait >= 0 ==> o.sys.update == Pause || o.sys == s)
  {
    hide PsiEvent, Restores, CutLimit;
    LimitStep(cfg, source, events, s, smp);
    CutBelow(s.m.limit, cfg.decayPct);
    CutBelow(cfg.limitPct, cfg.decayPct);
    if PsiEvent(cfg, source, events, s, smp).call.Some? {
      SearchEntry(cfg, source, events, s, smp);
    }
    if cfg.pidfds {
      WaitPauses(cfg, source, events, s, smp);
    }
  }

  /** k cuts of the configured limit, one on top of the other. */
  function IterCut(pct: nat, decayPct: nat, k: nat): (l: nat)
    requires decayPct <= 100
    ensures l <= pct
  {
    if k == 0 then pct else
      var before := IterCut(pct, decayPct, k - 1);
      CutBelow(before, decayPct);
      CutLimit(before, decayPct)
  }

  lemma CutBelow(limit: nat, decayPct: nat)
    requires decayPct <= 100
    ensures 0 <= CutLimit(limit, decayPct) <= limit
    ensures limit > 0 && decayPct > 0 ==> CutLimit(limit, decayPct) < limit
  {
    assert limit * (100 - decayPct) == 100 * limit - limit * decayPct;
    assert limit * decayPct >= 0;
    if limit > 0 && decayPct > 0 {
      assert limit * decayPct >= 1;
    }
  }

  /** With a decay every cut lowers the limit until, after at most pct of them, it is 0. */
  lemma {:induction false} CutsExhaust(pct: nat, decayPct: nat, k: nat)
    requires 0 < decayPct <= 100
    ensures IterCut(pct, decayPct, k) <= if k <= pct then pct - k else 0
    ensures IterCut(pct, decayPct, k) > 0 ==> IterCut(pct, decayPct, k + 1) < IterCut(pct, decayPct, k)
  {
    CutBelow(IterCut(pct, decayPct, k), decayPct);
    if k > 0 {
      CutsExhaust(pct, decayPct, k - 1);
      CutBelow(IterCut(pct, decayPct, k - 1), decayPct);
    }
  }

  /** One step of a run: a pressure event, or any other handler, which leaves the limit alone. */
  datatype Step = Event(source: Source, events: nat, smp: Sample) | Other(after: Sys)

  predicate Legal(s: Sys, step: Step) {
    step.Other? ==> step.after.m.limit == s.m.limit
  }

  function Next(cfg: Cfg, s: Sys, step: Step): Sys {
    match step
    case Event(source, events, smp) => PsiEvent(cfg, source, events, s, smp).sys
    case Other(after) => after
  }

  /** The cuts since the last window that was over, given those before the step. */
  function CutsAfter(cfg: Cfg, s: Sys, step: Step, cuts: nat): nat {
    match step
    case Event(source, events, smp) =>
      (if Restores(cfg, source, events, s, smp) then 0 else cuts)
      + if Cuts(PsiEvent(cfg, source, events, s, smp)) then 1 else 0
    case Other(_) => cuts
  }

  /** The state and the cuts since the last reset after a run. */
  function Run(cfg: Cfg, s: Sys, steps: seq<Step>): (Sys, nat) {
    if steps == [] then (s, 0) else
      var (t, cuts) := Run(cfg, s, steps[..|steps| - 1]);
      var step := steps[|steps| - 1];
      (Next(cfg, t, step), CutsAfter(cfg, t, step, cuts))
  }

  predicate LegalRun(cfg: Cfg, s: Sys, steps: seq<Step>) {
    steps == [] ||
    (LegalRun(cfg, s, steps[..|steps| - 1]) && Legal(Run(cfg, s, steps[..|steps| - 1]).0, steps[|steps| - 1]))
  }

  /** Over every run the limit is the configured one cut once for each thrashing kill since the last window ended. */
  lemma {:induction false} LimitOverRuns(cfg: Cfg, s: Sys, steps: seq<Step>)
    requires Clamped(cfg) && s.m.limit == cfg.limitPct && LegalRun(cfg, s, steps)
    ensures var (t, cuts) := Run(cfg, s, steps); t.m.limit == IterCut(cfg.limitPct, cfg.decayPct, cuts)
  {
    hide PsiEvent, Restores, Cuts, CutLimit;
    if steps != [] {
      LimitOverRuns(cfg, s, steps[..|steps| - 1]);
      var t := Run(cfg, s, steps[..|steps| - 1]).0;
      match steps[|steps| - 1] {
        case Event(source, events, smp) => LimitStep(cfg, source, events, t, smp);
        case Other(_) =>
      }
    }
  }

  // ---------------------------------------------------------------- carried growth

  function Pow2(n: nat): (p: nat)
    ensures p > 0
  {
    if n == 0 then 1 else 2 * Pow2(n - 1)
  }

  /** A shift is an exact division rounded down. */
  lemma {:induction false} ShrDivides(v: int, n: nat)
    ensures Shr(v, n) * Pow2(n) <= v < (Shr(v, n) + 1) * Pow2(n)
    decreases n
  {
    if n > 0 {
      ShrDivides(v / 2, n - 1);
      var q, p := Shr(v / 2, n - 1), Pow2(n - 1);
      assert q * p <= v / 2 <= (q + 1) * p - 1;
      assert q * (2 * p) == 2 * (q * p);
      assert (q + 1) * (2 * p) == 2 * ((q + 1) * p);
    }
  }

  /**
   When fewer than 64 windows are over, the carried growth is halved for each,
   unless one is and it reached the limit.
   */
  lemma GrowthCarried(cfg: Cfg, m: Monitor, v: Vmstat, now: Timespec, overshift: int)
    requires Crosses(m, now) && Windows(m, now) < SHIFT_BITS
    ensures var (u, thrashing) := Window(cfg, m, v, now, overshift);
            var g, n := Refaulted(m, v), Windows(m, now);
            && thrashing == u.growth
            && (if n == 1 && g >= m.limit then u.growth == g
                else u.growth * Pow2(n) <= g < (u.growth + 1) * Pow2(n))
  {
    hide Refaulted, DiffMs;
    ShrDivides(Refaulted(m, v), Windows(m, now));
  }
}
