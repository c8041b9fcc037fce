/** kill_one_process and find_and_kill_process on the linked registry. */
module Killer {
  import opened Tables
  import opened Registries
  import opened Victims
  import opened Search
  import SearchProperties

  method StopWaitForProcKill(r: Registry)
    requires r.Valid()
    modifies r.waits
    ensures r.Valid() && r.Abs() == StopWait(r.waits.pidfds, old(r.Abs()))
  {
    hide Registry.Valid;
    if r.waits.lastKill >= 0 {
      if r.waits.pidfds {
        r.waits.Close(r.waits.lastKill);
      }
      r.waits.lastKill := -1;
    }
    r.OnlyWaits();
  }

  method StartWaitForProcKill(r: Registry, pidOrFd: int, registered: bool)
    requires r.Valid()
    modifies r.waits
    ensures r.Valid() && r.Abs() == StartWait(r.waits.pidfds, old(r.Abs()), pidOrFd, registered)
  {
    hide Registry.Valid;
    if r.waits.lastKill >= 0 {
      StopWaitForProcKill(r);
    }
    r.waits.lastKill := pidOrFd;
    if r.waits.pidfds && !registered {
      r.waits.Close(r.waits.lastKill);
      r.waits.lastKill := -1;
    }
    r.OnlyWaits();
  }

  /**
   What a search adds up besides the registry: time, the signals sent, the lists
   scanned, and waits that overlapped.
   */
  class Hunt {
    var tick: nat
    var log: seq<Signal>
    ghost var scans: seq<Scan>
    var overlaps: nat

    constructor ()
      ensures tick == 0 && log == [] && scans == [] && overlaps == 0
    {
      tick, log, scans, overlaps := 0, [], [], 0;
    }
  }

  ghost function View(r: Registry, h: Hunt): (w: World)
    requires r.Valid()
    reads r, r.repr, r.pidhash, r.waits, h
    ensures WellFormed(w.table)
  {
    World(r.Abs(), h.tick, h.log, h.scans, h.overlaps)
  }

  /** The part of kill_one_process that sends the signal. */
  method SignalProcess(r: Registry, p: Proc, pid: int, probe: Probe)
    requires r.Valid() && p in r.live && p.pid == pid && Attempts(p.RecOf(), probe)
    modifies r`procs, r`live, r`rings, r`lists, r`buckets, r.pidhash, r.waits
    modifies r.repr`next, r.repr`prev, r.repr`pidhashNext
    ensures r.Valid() && pid in old(r.Abs()).recs
    ensures r.Abs() == KillTable(r.waits.pidfds, old(r.Abs()), pid, probe)
  {
    hide Registry.Valid, Registry.Abs, WellFormed, Tables.PidRemove, StartWait, StopWait;
    r.Registered(p, pid);
    StartWaitForProcKill(r, WaitKey(p.RecOf()), probe.registered);
    if !probe.delivered {
      StopWaitForProcKill(r);
    }
    var _ := r.PidRemove(pid);
  }

  /** The same with its entry in the log. */
  method Attempt(r: Registry, h: Hunt, cfg: Cfg, p: Proc, pid: int, probe: Probe) returns (pages: int)
    requires r.Valid() && p in r.live && p.pid == pid && Attempts(p.RecOf(), probe)
    requires cfg.pageKb > 0 && cfg.pidfds == r.waits.pidfds
    modifies r`procs, r`live, r`rings, r`lists, r`buckets, r.pidhash, r.waits, h`log, h`overlaps
    modifies r.repr`next, r.repr`prev, r.repr`pidhashNext
    ensures r.Valid() && pid in old(r.Abs()).recs
    ensures r.Abs() == KillTable(cfg.pidfds, old(r.Abs()), pid, probe)
    ensures pages == Answer(cfg, old(p.RecOf()), probe)
    ensures if probe.delivered then pages * cfg.pageKb <= probe.status.value.rssKb.value < (pages + 1) * cfg.pageKb
            else pages == 0
    ensures h.log == old(h.log) + Logged(cfg, pid, old(p.RecOf()), probe)
    ensures h.overlaps == old(h.overlaps) + if old(r.Abs()).wait >= 0 then 1 else 0
  {
    hide Registry.Valid, Registry.Abs, WellFormed, KillTable;
    r.WaitOf();
    SearchProperties.WholePages(probe.status.value.rssKb.value, cfg.pageKb);
    pages := if probe.delivered then probe.status.value.rssKb.value / cfg.pageKb else 0;
    h.log := h.log + [Signal(pid, p.oomadj, probe.delivered, Waits(cfg.pidfds, p.RecOf(), probe), pages)];
    h.overlaps := h.overlaps + if r.waits.lastKill >= 0 then 1 else 0;
    SignalProcess(r, p, pid, probe);
  }

  /** The three ways out of kill_one_process. */
  lemma WaysOut(cfg: Cfg, t: Table, pid: int, p: Probe)
    requires WellFormed(t) && pid in t.recs && cfg.pageKb > 0
    ensures var r := t.recs[pid];
            var after := (KillTable(cfg.pidfds, t, pid, p), Answer(cfg, r, p), Logged(cfg, pid, r, p));
            if !Killable(r, p) then !Attempts(r, p) && after == (Tables.PidRemove(t, pid), -1, [])
            else if p.hook > 0 then !Attempts(r, p) && after == (t, p.hook, [])
            else Attempts(r, p)
  {
  }

  method KillOneProcess(r: Registry, h: Hunt, cfg: Cfg, env: Env, p: Proc, pid: int) returns (result: int)
    requires r.Valid() && p in r.live && p.pid == pid && cfg.pageKb > 0 && cfg.pidfds == r.waits.pidfds
    modifies r`procs, r`live, r`rings, r`lists, r`buckets, r.pidhash, r.waits, h
    modifies r.repr`next, r.repr`prev, r.repr`pidhashNext
    ensures r.Valid() && pid in old(r.Abs()).recs
    ensures View(r, h) == KillOne(cfg, env, old(View(r, h)), pid).0
    ensures result == KillOne(cfg, env, old(View(r, h)), pid).1
  {
    hide Registry.Valid, Registry.Abs, WellFormed, Tables.PidRemove, KillTable, Answer, Logged, Attempts;
    r.Registered(p, pid);
    var probe := env.probes(h.tick)(pid);
    WaysOut(cfg, r.Abs(), pid, probe);
    if !(p.valid && probe.status.Some? && probe.status.value.tgid == Some(pid)
         && probe.status.value.rssKb.Some? && probe.status.value.swapKb.Some? && probe.named) {
      var _ := r.PidRemove(pid);
      result := -1;
    } else if probe.hook > 0 {
      result := probe.hook;
    } else {
      result := Attempt(r, h, cfg, p, pid, probe);
    }
    h.tick := h.tick + 1;
  }

  /** proc_get_heaviest or proc_adj_tail. */
  method PickCandidate(r: Registry, h: Hunt, env: Env, i: int, heaviest: bool) returns (p: Proc?)
    requires r.Valid() && InRange(i)
    modifies r`procs, r`live, r`rings, r`lists, r`buckets, r.pidhash, r.waits`fds, r.waits`faults, h`tick, h`scans
    modifies r.repr`next, r.repr`prev, r.repr`pidhashNext
    ensures r.Valid() && View(r, h) == Pick(env, old(View(r, h)), i, heaviest).0
    ensures var c := Pick(env, old(View(r, h)), i, heaviest).1;
            if c.None? then p == null else p != null && p in r.live && p.pid == c.value
  {
    hide Registry.Valid, Registry.Abs, WellFormed, RemoveAll, Failed, Best;
    SlotCount(r.Abs());
    ghost var many := |r.Abs().slots[SlotOf(i)]| > 1;
    if heaviest {
      if many {
        h.scans := h.scans + [Scan(i, h.tick)];
      }
      p := ProcGetHeaviest(r, i, env.sizes(h.tick));
      h.tick := h.tick + 1;
    } else {
      p := ProcAdjTail(r, i);
    }
  }

  /** find_and_kill_process. */
  method FindAndKillProcess(r: Registry, h: Hunt, cfg: Cfg, env: Env, min: int) returns (killed: int)
    requires r.Valid() && ADJ_MIN <= min && cfg.pageKb > 0 && cfg.pidfds == r.waits.pidfds
    modifies r`procs, r`live, r`rings, r`lists, r`buckets, r.pidhash, r.waits, h
    modifies r.repr`next, r.repr`prev, r.repr`pidhashNext
    ensures r.Valid() && View(r, h) == FindAndKill(cfg, env, old(View(r, h)), min).0
    ensures killed == FindAndKill(cfg, env, old(View(r, h)), min).1
  {
    hide Registry.Valid, Registry.Abs, WellFormed, View, Pick, KillOne;
    killed := 0;
    var heaviest := cfg.heaviest;
    var i := ADJ_MAX;
    ghost var goal := FindAndKill(cfg, env, View(r, h), min);
    while i >= min
      invariant r.Valid() && i <= ADJ_MAX && killed == 0
      invariant Find(cfg, env, View(r, h), i, min, heaviest) == goal
      decreases i - min
    {
      if !heaviest && i <= PERCEPTIBLE_APP_ADJ {
        heaviest := true;
      }
      ghost var score := TryScore(cfg, env, View(r, h), i, heaviest, 0);
      while true
        invariant r.Valid() && TryScore(cfg, env, View(r, h), i, heaviest, killed) == score
        decreases |View(r, h).table.recs|
      {
        var p := PickCandidate(r, h, env, i, heaviest);
        if p == null { break; }
        var pid := p.pid;
        killed := KillOneProcess(r, h, cfg, env, p, pid);
        if killed >= 0 { break; }
      }
      assert (View(r, h), killed) == score;
      if killed != 0 { break; }
      i := i - 1;
    }
  }
}
