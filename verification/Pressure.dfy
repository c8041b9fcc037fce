/**
 The pressure decision of the new strategy, __mp_event_psi: what one event does
 to the daemon's static state, and when it calls the victim search. Everything
 read from the system is a Sample; the search is any function of the minimum
 score, so the statements hold for every registry and every system behaviour.
 */
module Pressure {
  import opened Tables
  import opened Clock
  import opened Watermarks
  import Search

  const THRASHING_RESET_INTERVAL_MS: int := 1000
  const WMARK_UPDATE_MS: int := 60000
  const POLL_SHORT_MS: int := 10
  const POLL_LONG_MS: int := 100
  const SHIFT_BITS: int := 64
  const LEVEL_LOW: int := 0
  const LEVEL_CRITICAL: int := 2
  const VENDOR_KILL_REASON_BASE: int := 1000

  datatype Cfg = Cfg(
    pidfds: bool, killTimeoutMs: nat, swapFreeLowPct: nat, limitPct: nat, decayPct: nat, criticalPct: nat,
    swapUtilMax: nat, filecacheMinKb: int, stallLimit: real, afterKillMin: int, lowmemMin: int,
    directThresholdMs: int, compressionRatio: int, pageKb: nat, listener: bool, zoneinfoEvents: bool,
    vendorReasons: nat)

  /** The ranges update_props forces its settings into. */
  predicate Clamped(cfg: Cfg) {
    cfg.swapFreeLowPct <= 100 && cfg.decayPct <= 100 && cfg.swapUtilMax <= 100
    && cfg.lowmemMin > Search.PERCEPTIBLE_APP_ADJ
  }

  datatype Source = Psi(level: int) | VendorKill(code: int, minScore: int)

  datatype Reason =
    | NoReason | PressureAfterKill | NotResponding | LowSwapAndThrashing | LowMemAndSwap | LowMemAndThrashing
    | DirectReclAndThrashing | LowMemAndSwapUtil | LowFilecacheAfterThrashing | LowMem | DirectReclStuck
    | Vendor(code: int)

  datatype Vmstat = Vmstat(
    refault: int, refaultFile: int, nrInactiveFile: nat, nrActiveFile: nat,
    pgscanKswapd: int, pgscanDirect: int, pgrefill: int)

  datatype Meminfo = Meminfo(
    nrFree: int, cmaFree: int, totalSwap: nat, freeSwap: int, easyAvailable: int,
    activeAnon: int, inactiveAnon: int, shmem: int)

  /** What one pass over the watermarks reads: the zones if they are re-read, and the full-stall average. */
  datatype Look = Look(zones: Option<Marks>, stall: Option<real>)

  /** What a victim search answers: pages freed, the kill wait it leaves, and the last process it killed, if any. */
  datatype Found = Found(pages: int, wait: int, killed: Option<int>)

  /** Everything an event reads. `overshift` is what an undefined shift happens to give. */
  datatype Sample = Sample(
    now: Option<Timespec>, alive: bool, vmstat: Option<Vmstat>, meminfo: Option<Meminfo>,
    first: Look, again: Look, search: int -> Found, overshift: int)

  datatype Update = Unchanged | Start | Pause | Resume

  /** The static state of the handler. */
  datatype Monitor = Monitor(
    initRefault: int, prevRefault: int, baseFileLru: nat,
    initKswapd: int, initDirect: int, initRefill: int,
    killing: bool, limit: int, wmarkTm: Timespec, resetTm: Timespec, growth: int,
    checkFilecache: bool, maxThrashing: int, firstKill: bool, prevLevel: int, marks: Marks,
    directStart: Timespec, kswapdStart: Timespec)

  /**
   With the kill wait and the polling parameters a handler may set. `victim` is
   the process last killed and `waits` counts the waits begun; the daemon itself
   keeps only what it waits on.
   */
  datatype Sys = Sys(
    m: Monitor, wait: int, killTm: Timespec, victim: int, waits: nat, update: Update, intervalMs: int)

  /** What the decision looks at. */
  datatype Facts = Facts(
    source: Source, events: nat, afterKill: bool, wmark: Wmark, swapLow: bool, swapUtil: int, thrashing: int,
    limit: int, direct: bool, directMs: int, fileLruKb: int)

  /** What the decision sets. */
  datatype Choice = Choice(reason: Reason, min: int, cut: bool, check: bool)

  /** One call of the victim search: the kill wait at entry, the minimum score, and why. */
  datatype Call = Call(wait: int, min: int, choice: Choice, stall: bool, facts: Facts, found: Found)

  datatype Outcome = Outcome(sys: Sys, call: Option<Call>)

  // ---------------------------------------------------------------- measurements

  function Refault(v: Vmstat): int {
    if v.refault != 0 then v.refault else v.refaultFile
  }

  function FileLru(v: Vmstat): nat {
    v.nrInactiveFile + v.nrActiveFile
  }

  /** The lower of free swap and what compression could make of easily available memory. */
  function FreeSwap(cfg: Cfg, mi: Meminfo): (free: int)
    ensures free <= mi.freeSwap
    ensures if cfg.compressionRatio == 0 then free == mi.freeSwap
            else free <= mi.easyAvailable * cfg.compressionRatio
                 && free in {mi.freeSwap, mi.easyAvailable * cfg.compressionRatio}
  {
    var available := mi.easyAvailable * cfg.compressionRatio;
    if cfg.compressionRatio != 0 && available < mi.freeSwap then available else mi.freeSwap
  }

  predicate SwapLow(cfg: Cfg, mi: Meminfo) {
    cfg.swapFreeLowPct != 0 && FreeSwap(cfg, mi) < mi.totalSwap * cfg.swapFreeLowPct / 100
  }

  function SwapUtil(cfg: Cfg, mi: Meminfo): int {
    var used := mi.totalSwap - FreeSwap(cfg, mi);
    var swappable := mi.activeAnon + mi.inactiveAnon + mi.shmem + used;
    if swappable > 0 then Trunc(used * 100, swappable) else 0
  }

  /** The share of the file cache that refaulted since the window began, in percent. */
  function Refaulted(m: Monitor, v: Vmstat): int {
    Trunc((Refault(v) - m.initRefault) * 100, m.baseFileLru + 1)
  }

  /** n floor halvings: an arithmetic right shift. */
  function Shr(v: int, n: nat): int
    decreases n
  {
    if n == 0 then v else Shr(v / 2, n - 1)
  }

  // ---------------------------------------------------------------- the event, phase by phase

  predicate Pending(cfg: Cfg, s: Sys, smp: Sample) {
    s.wait >= 0 && (cfg.pidfds || smp.alive)
  }

  function StopWaiting(s: Sys): Sys {
    if s.wait < 0 then s else s.(wait := -1)
  }

  /** The short or the long interval. */
  predicate Paced(ms: int) {
    ms == POLL_SHORT_MS || ms == POLL_LONG_MS
  }

  /** The common end of an event. */
  function NoKill(cfg: Cfg, s: Sys, events: nat, swapLow: bool, direct: bool): Sys {
    if cfg.pidfds && s.wait >= 0 then s.(update := Pause)
    else s.(update := if events > 0 || s.m.killing || direct then Start else s.update,
            intervalMs := if swapLow || s.m.killing then POLL_SHORT_MS else POLL_LONG_MS)
  }

  function AfterKill(m: Monitor, v: Vmstat, now: Timespec): Monitor {
    if !m.killing then m
    else m.(killing := false, baseFileLru := FileLru(v), initRefault := Refault(v), resetTm := now, growth := 0)
  }

  predicate Zero(t: Timespec) {
    t == Timespec(0, 0)
  }

  predicate InDirect(cfg: Cfg, m: Monitor, v: Vmstat) {
    if cfg.listener then !Zero(m.directStart) else v.pgscanDirect != m.initDirect
  }

  predicate InKswapd(cfg: Cfg, m: Monitor, v: Vmstat) {
    if cfg.listener then !Zero(m.kswapdStart) else v.pgscanKswapd != m.initKswapd || v.pgrefill != m.initRefill
  }

  function NoteReclaim(cfg: Cfg, m: Monitor, v: Vmstat): Monitor {
    if InDirect(cfg, m, v) then
      m.(initDirect := v.pgscanDirect, initKswapd := v.pgscanKswapd, initRefill := v.pgrefill)
    else if InKswapd(cfg, m, v) then m.(initKswapd := v.pgscanKswapd, initRefill := v.pgrefill)
    else m
  }

  /** The thrashing window is over. */
  predicate Crosses(m: Monitor, now: Timespec) {
    DiffMs(m.resetTm, now) > THRASHING_RESET_INTERVAL_MS
  }

  function Windows(m: Monitor, now: Timespec): (n: int)
    requires Crosses(m, now)
    ensures n >= 1
  {
    DiffMs(m.resetTm, now) / THRASHING_RESET_INTERVAL_MS
  }

  /** The growth carried into the next window. */
  function Carried(m: Monitor, v: Vmstat, now: Timespec, overshift: int): int
    requires Crosses(m, now)
  {
    var g, n := Refaulted(m, v), Windows(m, now);
    if n == 1 && g >= m.limit then g else if n < SHIFT_BITS then Shr(g, n) else overshift
  }

  /** The window step, and the thrashing it measures. */
  function Window(cfg: Cfg, m: Monitor, v: Vmstat, now: Timespec, overshift: int): (Monitor, int) {
    if Crosses(m, now) then
      var g := Carried(m, v, now, overshift);
      (m.(growth := g, baseFileLru := FileLru(v), initRefault := Refault(v), resetTm := now, limit := cfg.limitPct), g)
    else (m, Refaulted(m, v) + m.growth)
  }

  function Peak(m: Monitor, thrashing: int): Monitor {
    if m.maxThrashing < thrashing then m.(maxThrashing := thrashing) else m
  }

  /** Re-reads the watermarks when they are unset or a minute old; none if that fails. */
  function Refresh(cfg: Cfg, m: Monitor, now: Timespec, zones: Option<Marks>): Option<Monitor> {
    if m.marks.high == 0 || (!cfg.zoneinfoEvents && DiffMs(m.wmarkTm, now) > WMARK_UPDATE_MS) then
      if zones.None? then None else Some(m.(marks := zones.value, wmarkTm := now))
    else Some(m)
  }

  function VendorEnd(cfg: Cfg): int {
    VENDOR_KILL_REASON_BASE + cfg.vendorReasons - 1
  }

  predicate Rejected(cfg: Cfg, source: Source) {
    source.VendorKill? && (source.code < 0 || source.code > VendorEnd(cfg) || source.minScore < 0)
  }

  predicate LowBreached(w: Wmark) {
    w.Rank() < HighMark.Rank()
  }

  const SPARE: int := Search.PERCEPTIBLE_APP_ADJ + 1

  /** The decision chain. It starts from what an earlier pass left in `c` and writes over it. */
  function Choose(cfg: Cfg, f: Facts, c: Choice): Choice {
    var d := Chain(cfg, f, c);
    if d.reason.NoReason? && LowBreached(f.wmark) then d.(reason := LowMem, min := cfg.lowmemMin) else d
  }

  function Chain(cfg: Cfg, f: Facts, c: Choice): Choice {
    var mild := f.thrashing < cfg.criticalPct;
    if f.source.VendorKill? then
      c.(reason := Vendor(f.source.code + VENDOR_KILL_REASON_BASE), min := f.source.minScore)
    else if f.afterKill && f.wmark.MinMark? then
      c.(reason := PressureAfterKill, min := cfg.afterKillMin)
    else if f.source.level == LEVEL_CRITICAL && f.events != 0 then
      c.(reason := NotResponding)
    else if f.swapLow && f.thrashing > cfg.limitPct then
      c.(reason := LowSwapAndThrashing, min := if !f.wmark.MinMark? && mild then SPARE else c.min, check := true)
    else if f.swapLow && LowBreached(f.wmark) then
      c.(reason := LowMemAndSwap, min := if !f.wmark.MinMark? && mild then SPARE else c.min)
    else if LowBreached(f.wmark) && cfg.swapUtilMax < 100 && f.swapUtil > cfg.swapUtilMax then
      c.(reason := LowMemAndSwapUtil)
    else if LowBreached(f.wmark) && f.thrashing > f.limit then
      c.(reason := LowMemAndThrashing, min := if mild then SPARE else c.min, cut := true, check := true)
    else if f.direct && f.thrashing > f.limit then
      c.(reason := DirectReclAndThrashing, min := if mild then SPARE else c.min, cut := true, check := true)
    else if f.direct && cfg.directThresholdMs > 0 && f.directMs > cfg.directThresholdMs then
      c.(reason := DirectReclStuck)
    else if c.check then
      if f.fileLruKb < cfg.filecacheMinKb then c.(reason := LowFilecacheAfterThrashing, min := SPARE)
      else c.(check := false)
    else c
  }

  predicate Stalled(cfg: Cfg, stall: Option<real>, before: bool) {
    if stall.Some? then stall.value > cfg.stallLimit else before
  }

  function Marked(f: Facts, m: Monitor, mi: Meminfo): Facts {
    f.(wmark := LowestBreached(mi.nrFree - mi.cmaFree, m.marks))
  }

  function CutLimit(limit: int, decayPct: int): int {
    limit * (100 - decayPct) / 100
  }

  /** The search and what follows from its answer. */
  function Strike(cfg: Cfg, s: Sys, now: Timespec, search: int -> Found, f: Facts, c: Choice, stall: bool): Outcome {
    var min := if stall then 0 else c.min;
    var found := search(min);
    var m := if found.pages <= 0 then s.m
             else s.m.(killing := true, maxThrashing := 0,
                       limit := if c.cut then CutLimit(s.m.limit, cfg.decayPct) else s.m.limit);
    var t := s.(m := m, wait := found.wait,
                killTm := if found.killed.Some? then now else s.killTm,
                victim := if found.killed.Some? then found.killed.value else s.victim,
                waits := if found.wait >= 0 then s.waits + 1 else s.waits);
    Outcome(NoKill(cfg, t, f.events, f.swapLow, f.direct), Some(Call(s.wait, min, c, stall, f, found)))
  }

  /** The decision: a first pass and, before the first kill ever, a second one on re-read watermarks. */
  function Judge(cfg: Cfg, s: Sys, now: Timespec, mi: Meminfo, smp: Sample, f: Facts): Outcome {
    var m1 := Refresh(cfg, s.m, now, smp.first.zones);
    if m1.None? then Outcome(s, None)
    else if Rejected(cfg, f.source) then Outcome(s.(m := m1.value), None)
    else
      var f1 := Marked(f, m1.value, mi);
      var stall1 := Stalled(cfg, smp.first.stall, false);
      var c1 := Choose(cfg, f1, Choice(NoReason, 0, false, m1.value.checkFilecache));
      var s1 := s.(m := m1.value.(checkFilecache := c1.check));
      if c1.reason.NoReason? then Outcome(NoKill(cfg, s1, f.events, f.swapLow, f.direct), None)
      else if !s1.m.firstKill then Strike(cfg, s1, now, smp.search, f1, c1, stall1)
      else
        SecondPass(cfg, s1.(m := Recheck(s1.m)), now, mi, smp, f, c1, stall1)
  }

  /** The second pass goes on from what the first one decided. */
  function SecondPass(cfg: Cfg, s: Sys, now: Timespec, mi: Meminfo, smp: Sample, f: Facts, c: Choice, stall: bool)
    : Outcome
  {
    var m := Refresh(cfg, s.m, now, smp.again.zones);
    if m.None? then Outcome(s, None)
    else
      var f1 := Marked(f, m.value, mi);
      var c1 := Choose(cfg, f1, c);
      Strike(cfg, s.(m := m.value.(checkFilecache := c1.check)), now, smp.search, f1, c1,
             Stalled(cfg, smp.again.stall, stall))
  }

  function Recheck(m: Monitor): Monitor {
    m.(firstKill := false, marks := m.marks.(high := 0))
  }

  /** The device is neither reclaiming nor refaulting. */
  predicate Quiet(cfg: Cfg, m: Monitor, v: Vmstat) {
    !InDirect(cfg, m, v) && !InKswapd(cfg, m, v) && Refault(v) == m.prevRefault
  }

  /** The window step on the settled statistics. */
  function Measure(cfg: Cfg, m: Monitor, v: Vmstat, now: Timespec, overshift: int): (Monitor, int) {
    var (m1, thrashing) := Window(cfg, NoteReclaim(cfg, m, v).(prevRefault := Refault(v)), v, now, overshift);
    (Peak(m1, thrashing), thrashing)
  }

  /** All the facts but the watermark. */
  function Brief(cfg: Cfg, source: Source, events: nat, s: Sys, now: Timespec, v: Vmstat, mi: Meminfo, overshift: int)
    : Facts
  {
    var m := AfterKill(s.m, v, now);
    var (m1, thrashing) := Measure(cfg, m, v, now, overshift);
    Facts(source, events, s.m.killing, NoMark, SwapLow(cfg, mi), SwapUtil(cfg, mi), thrashing, m1.limit,
          InDirect(cfg, m, v), DiffMs(m.directStart, now), FileLru(v) * cfg.pageKb)
  }

  /** From the statistics to the judgement. */
  function Assess(cfg: Cfg, source: Source, events: nat, s: Sys, now: Timespec, v: Vmstat, mi: Meminfo, smp: Sample)
    : Outcome
  {
    var m := AfterKill(s.m, v, now);
    if Quiet(cfg, m, v) && source.Psi? then
      Outcome(NoKill(cfg, s.(m := m), events, SwapLow(cfg, mi), false), None)
    else
      Judge(cfg, s.(m := Measure(cfg, m, v, now, smp.overshift).0), now, mi, smp,
            Brief(cfg, source, events, s, now, v, mi, smp.overshift))
  }

  /** A lower-level event within the polling window of a higher one. */
  predicate Ignored(source: Source, events: nat, s: Sys) {
    source.Psi? && events > 0 && source.level < s.m.prevLevel
  }

  function NoteLevel(source: Source, events: nat, s: Sys): Sys {
    if source.VendorKill? then s else s.(m := s.m.(prevLevel := if events > 0 then source.level else LEVEL_LOW))
  }

  /** The last victim is still dying and may take longer. */
  predicate Holds(cfg: Cfg, s: Sys, now: Timespec, smp: Sample) {
    Pending(cfg, s, smp) && (cfg.killTimeoutMs == 0 || DiffMs(s.killTm, now) < cfg.killTimeoutMs)
  }

  /** __mp_event_psi. */
  function PsiEvent(cfg: Cfg, source: Source, events: nat, s: Sys, smp: Sample): Outcome {
    if smp.now.None? || Ignored(source, events, s) then Outcome(s, None)
    else
      var s1 := NoteLevel(source, events, s);
      if Holds(cfg, s, smp.now.value, smp) then Outcome(NoKill(cfg, s1, events, false, false), None)
      else if smp.vmstat.None? || smp.meminfo.None? then Outcome(StopWaiting(s1), None)
      else Assess(cfg, source, events, StopWaiting(s1), smp.now.value, smp.vmstat.value, smp.meminfo.value, smp)
  }
}
