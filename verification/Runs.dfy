/**
 Runs: arbitrary sequences of client commands, disconnections, watchdog
 invalidations, kill attempts and finished waits, starting from an empty
 registry.
 */
module Runs {
  import opened Tables
  import opened Search

  datatype Op =
    | Prio(req: Request, client: int, env: RegEnv)
    | Remove(pid: int, client: int)
    | Purge(client: int, order: seq<int>)
    | Disconnect(client: int)
    | Invalidate(pid: int)
    | Kill(pid: int, probe: Probe)
    | Forget(pid: int)
    | StopWaiting

  /**
   A kill names a registered pid, a purge order fits the registry, and the kernel
   never hands out a descriptor that is open.
   */
  ghost predicate Legal(t: Table, op: Op) {
    match op
    case Prio(_, _, env) => env.pidfd.Some? ==> env.pidfd.value !in t.fds
    case Purge(client, order) => PurgeOrder(t, client, order)
    case Kill(pid, _) => pid in t.recs
    case _ => true
  }

  ghost function Step(cfg: Config, t: Table, op: Op): (u: Table)
    requires WellFormed(t) && Legal(t, op)
    ensures WellFormed(u)
  {
    match op
    case Prio(req, client, env) => ApplyProcPrio(cfg, t, req, client, env)
    case Remove(pid, client) => CmdProcRemove(t, pid, client)
    case Purge(_, order) => RemoveAll(t, order)
    case Disconnect(client) => RemoveClaims(t, client)
    case Invalidate(pid) => PidInvalidate(t, pid)
    case Kill(pid, probe) => KillTable(cfg.pidfds, t, pid, probe)
    case Forget(pid) => PidRemove(t, pid)
    case StopWaiting => StopWait(cfg.pidfds, t)
  }

  ghost predicate LegalRun(cfg: Config, t: Table, ops: seq<Op>)
    requires WellFormed(t)
    decreases |ops|
  {
    ops == [] || (Legal(t, ops[0]) && LegalRun(cfg, Step(cfg, t, ops[0]), ops[1..]))
  }

  ghost function Run(cfg: Config, t: Table, ops: seq<Op>): (u: Table)
    requires WellFormed(t) && LegalRun(cfg, t, ops)
    ensures WellFormed(u)
    decreases |ops|
  {
    if ops == [] then t else Run(cfg, Step(cfg, t, ops[0]), ops[1..])
  }

  function Empty(): (t: Table)
    ensures WellFormed(t)
  {
    Table(map[], seq(SLOTS, i => []), -1, {}, 0)
  }

  // ---------------------------------------------------------------- recency

  /**
   A priority request is taken: the score and the type are in range, the pid is
   not that of a mere thread, its files can be written, and the record is the
   client's, nobody's or can be made.
   */
  predicate Accepts(cfg: Config, t: Table, req: Request, client: int, env: RegEnv) {
    && -1000 <= req.oomadj <= 1000 && 0 <= req.ptype <= 1
    && (env.tgid.None? || env.tgid.value == req.pid) && env.adjWritten
    && (req.ptype == 0 && cfg.perAppMemcg ==> env.memcgPath)
    && (if req.pid in t.recs then t.recs[req.pid].regPid == client || t.recs[req.pid].regPid == 0
        else env.memory && (cfg.pidfds ==> env.pidfd.Some?))
  }

  /** The score it asks for; an app in the range of previous apps and launchers is kept at 200 under per-app cgroups. */
  function Asked(cfg: Config, req: Request): int {
    if req.ptype == 0 && cfg.perAppMemcg && 600 <= req.oomadj <= 699 then 200 else req.oomadj
  }

  /**
   Every priority request that is taken gives the process the score and the
   owner it asks for and puts it first on the list of that score; of the rest of
   the registry nothing changes, nor does anything for a request that is not taken.
   */
  lemma PrioEffect(cfg: Config, t: Table, req: Request, client: int, env: RegEnv)
    requires WellFormed(t)
    ensures var u, adj := ApplyProcPrio(cfg, t, req, client, env), Asked(cfg, req);
            if Accepts(cfg, t, req, client, env) then
              && u.recs == t.recs[req.pid :=
                   if req.pid in t.recs then t.recs[req.pid].(oomadj := adj, regPid := client)
                   else Rec(req.pid, if cfg.pidfds then env.pidfd.value else -1, req.uid, adj, client, true)]
              && (forall j | 0 <= j < SLOTS ::
                    u.slots[j] == (if j == adj + 1000 then [req.pid] else []) + Without(t.slots[j], req.pid))
            else u.recs == t.recs && u.slots == t.slots
  {
    var u, adj := ApplyProcPrio(cfg, t, req, client, env), Asked(cfg, req);
    if Accepts(cfg, t, req, client, env) {
      forall j | 0 <= j < SLOTS
        ensures u.slots[j] == (if j == adj + 1000 then [req.pid] else []) + Without(t.slots[j], req.pid)
      {
        WithoutMembers(t.slots[j], req.pid);
      }
    }
  }

  /** A removal by the owner, or of a record nobody owns, takes out that record alone; any other changes nothing. */
  lemma RemoveEffect(t: Table, pid: int, client: int)
    requires WellFormed(t)
    ensures var u := CmdProcRemove(t, pid, client);
            if pid in t.recs && (t.recs[pid].regPid == client || t.recs[pid].regPid == 0) then
              && u.recs == t.recs - {pid} && u.wait == t.wait
              && (forall j | 0 <= j < SLOTS :: u.slots[j] == Without(t.slots[j], pid))
              && u.fds == if 0 <= t.recs[pid].pidfd != t.wait then t.fds - {t.recs[pid].pidfd} else t.fds
            else u == t
  {
    var u := CmdProcRemove(t, pid, client);
    if u != t {
      forall j | 0 <= j < SLOTS ensures u.slots[j] == Without(t.slots[j], pid) {
        WithoutMembers(t.slots[j], pid);
      }
    }
  }

  /** The time of the last accepted registration or update of each pid. */
  ghost function Stamped(cfg: Config, t: Table, op: Op, stamps: map<int, int>, now: int): map<int, int> {
    if op.Prio? && Accepts(cfg, t, op.req, op.client, op.env) then stamps[op.req.pid := now] else stamps
  }

  ghost predicate Newest(l: seq<int>, stamps: map<int, int>) {
    forall a, b | 0 <= a < b < |l| :: l[a] in stamps && l[b] in stamps && stamps[l[a]] > stamps[l[b]]
  }

  ghost predicate Recent(t: Table, stamps: map<int, int>, now: int) {
    && |t.slots| == SLOTS
    && (forall pid | pid in t.recs :: pid in stamps && stamps[pid] < now)
    && (forall i | 0 <= i < SLOTS :: Newest(t.slots[i], stamps))
  }

  lemma {:induction false} NewestWithout(l: seq<int>, x: int, stamps: map<int, int>)
    requires NoDup(l) && Newest(l, stamps)
    ensures Newest(Without(l, x), stamps)
  {
    if k :| 0 <= k < |l| && l[k] == x {
      WithoutAt(l, x, k);
      var m := l[..k] + l[k + 1..];
      assert forall a | 0 <= a < |m| :: m[a] == l[if a < k then a else a + 1];
    } else {
      WithoutMembers(l, x);
    }
  }

  lemma RemoveRecent(t: Table, pid: int, stamps: map<int, int>, now: int)
    requires WellFormed(t) && Recent(t, stamps, now)
    ensures Recent(PidRemove(t, pid), stamps, now)
  {
    if pid in t.recs {
      NewestWithout(t.slots[SlotOf(t.recs[pid].oomadj)], pid, stamps);
    }
  }

  lemma {:induction false} RemoveAllRecent(t: Table, pids: seq<int>, stamps: map<int, int>, now: int)
    requires WellFormed(t) && Recent(t, stamps, now)
    ensures Recent(RemoveAll(t, pids), stamps, now)
  {
    if pids != [] {
      RemoveAllRecent(t, pids[..|pids| - 1], stamps, now);
      RemoveRecent(RemoveAll(t, pids[..|pids| - 1]), pids[|pids| - 1], stamps, now);
    }
  }

  /** A fresh stamp for a pid on no list keeps every list ordered, and it may stand at the head of any. */
  lemma FrontNewest(l: seq<int>, pid: int, stamps: map<int, int>, now: int)
    requires pid !in l && Newest(l, stamps) && forall k | 0 <= k < |l| :: l[k] in stamps && stamps[l[k]] < now
    ensures Newest(l, stamps[pid := now]) && Newest([pid] + l, stamps[pid := now])
  {
    assert forall k | 0 <= k < |l| :: l[k] in l;
  }

  /** Slotting a pid that is on no list, with a fresh stamp. */
  lemma SlotRecent(slots: seq<seq<int>>, pid: int, i: int, stamps: map<int, int>, now: int)
    requires |slots| == SLOTS && 0 <= i < SLOTS
    requires forall j | 0 <= j < SLOTS :: Newest(slots[j], stamps) && pid !in slots[j]
    requires forall j, k | 0 <= j < SLOTS && 0 <= k < |slots[j]| :: slots[j][k] in stamps && stamps[slots[j][k]] < now
    ensures forall j | 0 <= j < SLOTS :: Newest(Slot(slots, i, pid)[j], stamps[pid := now])
  {
    forall j | 0 <= j < SLOTS ensures Newest(Slot(slots, i, pid)[j], stamps[pid := now]) {
      FrontNewest(slots[j], pid, stamps, now);
    }
  }

  lemma SlotStamps(t: Table, stamps: map<int, int>, now: int)
    requires WellFormed(t) && Recent(t, stamps, now)
    ensures forall j, k | 0 <= j < SLOTS && 0 <= k < |t.slots[j]| ::
              t.slots[j][k] in stamps && stamps[t.slots[j][k]] < now
  {
    forall j, k | 0 <= j < SLOTS && 0 <= k < |t.slots[j]|
      ensures t.slots[j][k] in stamps && stamps[t.slots[j][k]] < now
    {
      var pid := t.slots[j][k];
      SlotEntry(t, j, k, pid);
    }
  }

  lemma InsertRecent(t: Table, r: Rec, stamps: map<int, int>, now: int)
    requires WellFormed(t) && Recent(t, stamps, now) && r.pid !in t.recs && InRange(r.oomadj)
    ensures Recent(ProcInsert(t, r), stamps[r.pid := now], now + 1)
  {
    SlotStamps(t, stamps, now);
    SlotRecent(t.slots, r.pid, SlotOf(r.oomadj), stamps, now);
  }

  lemma ReslotRecent(t: Table, pid: int, client: int, adj: int, stamps: map<int, int>, now: int)
    requires WellFormed(t) && Recent(t, stamps, now) && pid in t.recs && InRange(adj)
    ensures Recent(Reslot(t, pid, client, adj), stamps[pid := now], now + 1)
  {
    var u := PidRemove(t, pid);
    RemoveRecent(t, pid, stamps, now);
    SlotStamps(u, stamps, now);
    assert forall j | 0 <= j < SLOTS :: pid !in u.slots[j];
    SlotRecent(u.slots, pid, SlotOf(adj), stamps, now);
  }

  lemma SameRecent(t: Table, u: Table, stamps: map<int, int>, now: int)
    requires Recent(t, stamps, now) && u.slots == t.slots && u.recs.Keys <= t.recs.Keys
    ensures Recent(u, stamps, now + 1)
  {
  }

  lemma PrioRecent(cfg: Config, t: Table, req: Request, client: int, env: RegEnv, stamps: map<int, int>, now: int)
    requires WellFormed(t) && Recent(t, stamps, now)
    ensures Recent(ApplyProcPrio(cfg, t, req, client, env),
                   if Accepts(cfg, t, req, client, env) then stamps[req.pid := now] else stamps, now + 1)
  {
    hide WellFormed, Newest;
    var adj := EffectiveScore(cfg, req);
    if Accepts(cfg, t, req, client, env) {
      if req.pid in t.recs {
        ReslotRecent(t, req.pid, client, adj, stamps, now);
      } else {
        var u := if cfg.pidfds then t.(fds := t.fds + {env.pidfd.value}) else t;
        var fd := if cfg.pidfds then env.pidfd.value else -1;
        WellFormedFrame(t, u);
        InsertRecent(u, Rec(req.pid, fd, req.uid, adj, client, true), stamps, now);
      }
    } else {
      SameRecent(t, ApplyProcPrio(cfg, t, req, client, env), stamps, now);
    }
  }

  lemma KillRecent(pidfds: bool, t: Table, pid: int, p: Probe, stamps: map<int, int>, now: int)
    requires WellFormed(t) && Recent(t, stamps, now) && pid in t.recs
    ensures Recent(KillTable(pidfds, t, pid, p), stamps, now)
  {
    hide WellFormed, Newest;
    RemoveRecent(t, pid, stamps, now);
    var t1 := StartWait(pidfds, t, WaitKey(t.recs[pid]), p.registered);
    var t2 := if p.delivered then t1 else StopWait(pidfds, t1);
    WellFormedFrame(t, t2);
    RemoveRecent(t2, pid, stamps, now);
  }

  lemma StepRecent(cfg: Config, t: Table, op: Op, stamps: map<int, int>, now: int)
    requires WellFormed(t) && Legal(t, op) && Recent(t, stamps, now)
    ensures Recent(Step(cfg, t, op), Stamped(cfg, t, op, stamps, now), now + 1)
  {
    hide WellFormed, Newest, ApplyProcPrio, KillTable, PidRemove, RemoveAll;
    match op
    case Prio(req, client, env) => PrioRecent(cfg, t, req, client, env, stamps, now);
    case Remove(pid, _) => RemoveRecent(t, pid, stamps, now);
    case Purge(_, order) => RemoveAllRecent(t, order, stamps, now);
    case Kill(pid, probe) => KillRecent(cfg.pidfds, t, pid, probe, stamps, now);
    case Forget(pid) => RemoveRecent(t, pid, stamps, now);
    case Disconnect(_) =>
    case Invalidate(_) =>
    case StopWaiting =>
  }

  /** The stamps after a run that starts at time `now`. */
  ghost function Stamps(cfg: Config, t: Table, ops: seq<Op>, stamps: map<int, int>, now: int): map<int, int>
    requires WellFormed(t) && LegalRun(cfg, t, ops)
    decreases |ops|
  {
    if ops == [] then stamps
    else Stamps(cfg, Step(cfg, t, ops[0]), ops[1..], Stamped(cfg, t, ops[0], stamps, now), now + 1)
  }

  /** After every run each list is ordered by the last accepted registration or update, newest at the head. */
  lemma {:induction false} RunRecent(cfg: Config, t: Table, ops: seq<Op>, stamps: map<int, int>, now: int)
    requires WellFormed(t) && LegalRun(cfg, t, ops) && Recent(t, stamps, now)
    ensures Recent(Run(cfg, t, ops), Stamps(cfg, t, ops, stamps, now), now + |ops|)
    decreases |ops|
  {
    hide WellFormed, Step, Recent, Stamped, Legal;
    if ops != [] {
      StepRecent(cfg, t, ops[0], stamps, now);
      RunRecent(cfg, Step(cfg, t, ops[0]), ops[1..], Stamped(cfg, t, ops[0], stamps, now), now + 1);
    }
  }

  /** From an empty registry, newest first on every list, over every run. */
  lemma RecencyOrder(cfg: Config, ops: seq<Op>)
    requires LegalRun(cfg, Empty(), ops)
    ensures Recent(Run(cfg, Empty(), ops), Stamps(cfg, Empty(), ops, map[], 0), |ops|)
  {
    RunRecent(cfg, Empty(), ops, map[], 0);
  }

  // ---------------------------------------------------------------- ownership

  /** A step that is neither a command or disconnection of p nor a kill attempt on `pid` or its removal by a search. */
  predicate Foreign(op: Op, p: int, pid: int) {
    match op
    case Prio(_, client, _) => client != p
    case Remove(_, client) => client != p
    case Purge(client, _) => client != p
    case Disconnect(client) => client != p
    case Kill(victim, _) => victim != pid
    case Forget(gone) => gone != pid
    case Invalidate(_) => true
    case StopWaiting => true
  }

  /** r' is r, but for what the watchdog may have noted. */
  predicate SameBut(r: Rec, r': Rec) {
    r' == r.(valid := r'.valid)
  }

  lemma ForeignStep(cfg: Config, t: Table, op: Op, pid: int, p: int)
    requires WellFormed(t) && Legal(t, op) && Foreign(op, p, pid)
    requires p != 0 && pid in t.recs && t.recs[pid].regPid == p
    ensures pid in Step(cfg, t, op).recs && SameBut(t.recs[pid], Step(cfg, t, op).recs[pid])
  {
    if op.Purge? {
      RemoveAllRecs(t, op.order);
    }
  }

  /**
   Until p disconnects, a record p owns keeps its score, its owner and its
   descriptor over every run of other clients' commands, kill attempts on other
   processes, finished waits and watchdog sweeps.
   */
  lemma {:induction false} OwnedSurvives(cfg: Config, t: Table, ops: seq<Op>, pid: int, p: int)
    requires WellFormed(t) && LegalRun(cfg, t, ops) && forall k | 0 <= k < |ops| :: Foreign(ops[k], p, pid)
    requires p != 0 && pid in t.recs && t.recs[pid].regPid == p
    ensures pid in Run(cfg, t, ops).recs && SameBut(t.recs[pid], Run(cfg, t, ops).recs[pid])
    decreases |ops|
  {
    hide Step, WellFormed;
    if ops != [] {
      ForeignStep(cfg, t, ops[0], pid, p);
      OwnedSurvives(cfg, Step(cfg, t, ops[0]), ops[1..], pid, p);
    }
  }

  // ---------------------------------------------------------------- validity

  /** An invalidated record is not made valid again by any step: it stays so or goes. */
  lemma InvalidStep(cfg: Config, t: Table, op: Op, pid: int)
    requires WellFormed(t) && Legal(t, op) && pid in t.recs && !t.recs[pid].valid
    ensures pid in Step(cfg, t, op).recs ==> !Step(cfg, t, op).recs[pid].valid
  {
    if op.Purge? {
      RemoveAllRecs(t, op.order);
    }
  }

  /** The record of `pid` is there all through the run. */
  ghost predicate Stays(cfg: Config, t: Table, ops: seq<Op>, pid: int)
    requires WellFormed(t) && LegalRun(cfg, t, ops)
    decreases |ops|
  {
    pid in t.recs && (ops == [] || Stays(cfg, Step(cfg, t, ops[0]), ops[1..], pid))
  }

  lemma {:induction false} InvalidStays(cfg: Config, t: Table, ops: seq<Op>, pid: int)
    requires WellFormed(t) && LegalRun(cfg, t, ops) && Stays(cfg, t, ops, pid) && !t.recs[pid].valid
    ensures pid in Run(cfg, t, ops).recs && !Run(cfg, t, ops).recs[pid].valid
    decreases |ops|
  {
    hide Step, WellFormed, Legal;
    if ops != [] {
      InvalidStep(cfg, t, ops[0], pid);
      InvalidStays(cfg, Step(cfg, t, ops[0]), ops[1..], pid);
    }
  }

  /** Once p has disconnected, any client can take the record over. */
  lemma DisconnectReleases(cfg: Config, t: Table, pid: int, p: int, client: int)
    requires WellFormed(t) && pid in t.recs && t.recs[pid].regPid == p
    ensures pid !in CmdProcRemove(RemoveClaims(t, p), pid, client).recs
  {
  }

  /** cmd_procpurge by p leaves exactly the records owned by other clients, unchanged and in their order. */
  lemma PurgeLeavesOthers(t: Table, p: int, order: seq<int>)
    requires WellFormed(t) && PurgeOrder(t, p, order)
    ensures RemoveAll(t, order).recs
         == map pid | pid in t.recs && t.recs[pid].regPid != p && t.recs[pid].regPid != 0 :: t.recs[pid]
    ensures forall i | 0 <= i < SLOTS :: RemoveAll(t, order).slots[i] == Keep(t.slots[i], order)
  {
    hide WellFormed, RemoveAll;
    RemoveAllRecs(t, order);
    RemoveAllSlots(t, order);
    assert forall pid | pid in t.recs :: pid in order <==> Claimable(t.recs[pid], p);
  }
}
