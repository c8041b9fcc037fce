/**
 The search for a victim, find_and_kill_process, over the abstract registry.
 Everything the system answers (sizes, /proc status, the hook, epoll, the
 signal) comes from an arbitrary environment indexed by a tick, so each
 statement holds for every behaviour of the system.
 */
module Search {
  import opened Tables
  import opened Victims

  const PERCEPTIBLE_APP_ADJ: int := 200

  datatype Status = Status(tgid: Option<int>, rssKb: Option<nat>, swapKb: Option<nat>)

  /**
   What one kill attempt is told: /proc/pid/status, whether the task name is
   readable, the hook, epoll_ctl and the signal.
   */
  datatype Probe = Probe(status: Option<Status>, named: bool, hook: nat, registered: bool, delivered: bool)

  /** The answers at each tick, by pid. */
  datatype Env = Env(sizes: nat -> int -> int, probes: nat -> int -> Probe)

  datatype Cfg = Cfg(pidfds: bool, pageKb: nat, heaviest: bool)

  /** One SIGKILL attempt; `waits` tells whether it leaves a wait in progress. */
  datatype Signal = Signal(pid: int, score: int, delivered: bool, waits: bool, pages: nat)

  /** One scan of the list of a score for its heaviest record, with the sizes read at that tick. */
  datatype Scan = Scan(score: int, tick: nat)

  /** The attempts and the scans made so far; `overlaps` counts the waits started while another one was in progress. */
  datatype World = World(table: Table, tick: nat, log: seq<Signal>, scans: seq<Scan>, overlaps: nat)

  predicate Killable(r: Rec, p: Probe) {
    r.valid && p.status.Some? && p.status.value.tgid == Some(r.pid)
    && p.status.value.rssKb.Some? && p.status.value.swapKb.Some? && p.named
  }

  function Pages(cfg: Cfg, p: Probe): nat
    requires cfg.pageKb > 0 && p.status.Some? && p.status.value.rssKb.Some?
  {
    p.status.value.rssKb.value / cfg.pageKb
  }

  /** A signal is attempted: the record is good and the hook freed nothing. */
  predicate Attempts(r: Rec, p: Probe) {
    Killable(r, p) && p.hook == 0
  }

  /** What is waited on: the process descriptor, or the pid where there is none. */
  function WaitKey(r: Rec): int {
    if r.pidfd < 0 then r.pid else r.pidfd
  }

  /** The attempt leaves a wait in progress. */
  predicate Waits(pidfds: bool, r: Rec, p: Probe) {
    p.delivered && (!pidfds || p.registered) && WaitKey(r) >= 0
  }

  /** The registry after kill_one_process on `pid`. */
  function KillTable(pidfds: bool, t: Table, pid: int, p: Probe): (u: Table)
    requires WellFormed(t) && pid in t.recs
    ensures WellFormed(u)
  {
    var r := t.recs[pid];
    if !Killable(r, p) then PidRemove(t, pid)
    else if p.hook > 0 then t
    else
      var t1 := StartWait(pidfds, t, WaitKey(r), p.registered);
      PidRemove(if p.delivered then t1 else StopWait(pidfds, t1), pid)
  }

  /** What kill_one_process answers: -1 for a stale record, what the hook freed, or the pages of a delivered kill. */
  function Answer(cfg: Cfg, r: Rec, p: Probe): int
    requires cfg.pageKb > 0
  {
    if !Killable(r, p) then -1 else if p.hook > 0 then p.hook else if p.delivered then Pages(cfg, p) else 0
  }

  /** Its entry in the log, if it attempts a kill. */
  function Logged(cfg: Cfg, pid: int, r: Rec, p: Probe): seq<Signal>
    requires cfg.pageKb > 0
  {
    if !Attempts(r, p) then []
    else [Signal(pid, r.oomadj, p.delivered, Waits(cfg.pidfds, r, p), Answer(cfg, r, p))]
  }

  /** kill_one_process: a negative answer means a stale record was dropped, 0 that no page was freed. */
  function KillOne(cfg: Cfg, env: Env, w: World, pid: int): (res: (World, int))
    requires WellFormed(w.table) && pid in w.table.recs && cfg.pageKb > 0
    ensures WellFormed(res.0.table)
    ensures res.1 < 0 ==> |res.0.table.recs| < |w.table.recs|
  {
    var p := env.probes(w.tick)(pid);
    var r := w.table.recs[pid];
    (World(KillTable(cfg.pidfds, w.table, pid, p), w.tick + 1, w.log + Logged(cfg, pid, r, p), w.scans,
           w.overlaps + if Attempts(r, p) && w.table.wait >= 0 then 1 else 0),
     Answer(cfg, r, p))
  }

  /** The scan of proc_get_heaviest drops unreadable records and answers the heaviest of the others. */
  lemma ScanFacts(t: Table, i: int, size: int -> int)
    requires WellFormed(t) && |t.slots| == SLOTS && InRange(i)
    ensures var l := t.slots[SlotOf(i)];
            var u := RemoveAll(t, Failed(l, size));
            && |u.recs| <= |t.recs|
            && (Best(l, size).Some? ==> Best(l, size).value in u.recs && u.recs[Best(l, size).value].oomadj == i)
  {
    hide WellFormed, RemoveAll;
    var l := t.slots[SlotOf(i)];
    var f := Failed(l, size);
    var k := BestIsFirstHeaviest(l, size);
    FailedMembers(l, size);
    RemoveAllRecs(t, f);
    SubsetSize(RemoveAll(t, f).recs.Keys, t.recs.Keys);
    if Best(l, size).Some? {
      SlotEntry(t, SlotOf(i), k, l[k]);
    }
  }

  /** The candidate at score i: the list tail, or the heaviest record after a scan; a one-record list is not scanned. */
  function Pick(env: Env, w: World, i: int, heaviest: bool): (res: (World, Option<int>))
    requires WellFormed(w.table) && InRange(i)
    ensures WellFormed(res.0.table) && |res.0.table.recs| <= |w.table.recs|
    ensures res.1.Some? ==> res.1.value in res.0.table.recs && res.0.table.recs[res.1.value].oomadj == i
  {
    hide WellFormed, RemoveAll, Best, Failed;
    var l := w.table.slots[SlotOf(i)];
    if |l| == 1 || (l != [] && !heaviest) then
      SlotEntry(w.table, SlotOf(i), |l| - 1, l[|l| - 1]);
      (if heaviest then w.(tick := w.tick + 1) else w, Some(l[|l| - 1]))
    else if !heaviest then (w, None)
    else
      var size := env.sizes(w.tick);
      ScanFacts(w.table, i, size);
      (w.(table := RemoveAll(w.table, Failed(l, size)), tick := w.tick + 1,
          scans := if l == [] then w.scans else w.scans + [Scan(i, w.tick)]), Best(l, size))
  }

  /** The inner loop: candidates are tried until one answers non-negatively or none is left. */
  function TryScore(cfg: Cfg, env: Env, w: World, i: int, heaviest: bool, last: int): (res: (World, int))
    requires WellFormed(w.table) && InRange(i) && cfg.pageKb > 0
    ensures WellFormed(res.0.table)
    decreases |w.table.recs|
  {
    var (w1, c) := Pick(env, w, i, heaviest);
    if c.None? then (w1, last) else
      var (w2, r) := KillOne(cfg, env, w1, c.value);
      if r >= 0 then (w2, r) else TryScore(cfg, env, w2, i, heaviest, r)
  }

  /** The outer loop, from score i down; at perceptible scores the heaviest process is chosen. */
  function Find(cfg: Cfg, env: Env, w: World, i: int, min: int, heaviest: bool): (res: (World, int))
    requires WellFormed(w.table) && ADJ_MIN <= min && i <= ADJ_MAX && cfg.pageKb > 0
    ensures WellFormed(res.0.table)
    decreases if i < min then 0 else i - min + 1
  {
    if i < min then (w, 0) else
      var h := heaviest || i <= PERCEPTIBLE_APP_ADJ;
      var (w1, r) := TryScore(cfg, env, w, i, h, 0);
      if r != 0 then (w1, r) else Find(cfg, env, w1, i - 1, min, h)
  }

  /** find_and_kill_process. */
  function FindAndKill(cfg: Cfg, env: Env, w: World, min: int): (res: (World, int))
    requires WellFormed(w.table) && ADJ_MIN <= min && cfg.pageKb > 0
    ensures WellFormed(res.0.table)
  {
    Find(cfg, env, w, ADJ_MAX, min, cfg.heaviest)
  }
}
