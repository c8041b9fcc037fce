/** The client commands of lmkd, on the linked registry. */
module Commands {
  import opened Tables
  import opened Registries

  method ClaimRecord(r: Registry, p: Proc, client: int) returns (ok: bool)
    requires r.Valid() && p in r.live
    modifies p`regPid
    ensures r.Valid() && ok == (old(p.regPid) == client || old(p.regPid) == 0)
    ensures p.regPid == if ok then client else old(p.regPid)
    ensures r.Abs() == old(r.Abs()).(recs := old(r.Abs()).recs[p.pid := p.RecOf()])
  {
    if p.regPid == client {
      ok := true;
    } else if p.regPid == 0 {
      p.regPid := client;
      ok := true;
    } else {
      ok := false;
    }
    r.Undisturbed();
    r.Changed(p.pid);
  }

  method PidInvalidate(r: Registry, pid: int)
    requires r.Valid()
    modifies r.repr`valid
    ensures r.Valid() && r.Abs() == Tables.PidInvalidate(old(r.Abs()), pid)
  {
    var p := r.PidLookup(pid);
    if p != null {
      p.valid := false;
      r.Undisturbed();
      r.Changed(pid);
    }
  }

  method CmdProcRemove(r: Registry, pid: int, client: int)
    requires r.Valid()
    modifies r`procs, r`live, r`rings, r`lists, r`buckets, r.pidhash, r.waits`fds, r.waits`faults
    modifies r.repr`next, r.repr`prev, r.repr`pidhashNext, r.repr`regPid
    ensures r.Valid() && r.Abs() == Tables.CmdProcRemove(old(r.Abs()), pid, client)
  {
    hide Registry.Core, WellFormed, Without;
    var p := r.PidLookup(pid);
    if p != null {
      var ok := ClaimRecord(r, p, client);
      if ok {
        var _ := r.PidRemove(pid);
      }
    }
  }

  method RegisterNew(r: Registry, cfg: Config, req: Request, client: int, adj: int, env: RegEnv)
    requires r.Valid() && InRange(adj) && req.pid !in r.procs
    modifies r`procs, r`live, r`repr, r`rings, r`lists, r`buckets, r.pidhash, r.waits`fds
    modifies r.repr`next, r.repr`prev
    ensures r.Valid() && fresh(r.repr - old(r.repr))
    ensures r.Abs() == Tables.RegisterNew(cfg, old(r.Abs()), req, client, adj, env)
  {
    hide Registry.Valid, WellFormed, Tables.ProcInsert;
    if cfg.pidfds && env.pidfd.None? { return; }
    var pidfd: int := -1;
    if cfg.pidfds {
      pidfd := env.pidfd.value;
      r.waits.fds := r.waits.fds + {pidfd};
    }
    r.OnlyWaits();
    if env.memory {
      var p := new Proc.Record(Rec(req.pid, pidfd, req.uid, adj, client, true));
      r.ProcInsert(p);
    }
  }

  method UpdateOwned(r: Registry, p: Proc, client: int, adj: int)
    requires r.Valid() && InRange(adj) && p in r.live
    modifies r`rings, r`lists, r.repr`next, r.repr`prev, p`regPid, p`oomadj
    ensures r.Valid()
    ensures p.pid in old(r.Abs()).recs
    ensures r.Abs() == if Claimable(old(p.RecOf()), client) then Tables.Reslot(old(r.Abs()), p.pid, client, adj)
                       else old(r.Abs())
  {
    hide Registry.Core, WellFormed, Without;
    var ok := ClaimRecord(r, p, client);
    if ok {
      r.Reslot(p, adj);
    }
  }

  method RegisterOomAdjProc(r: Registry, cfg: Config, req: Request, client: int, env: RegEnv)
    requires r.Valid() && InRange(req.oomadj)
    modifies r`procs, r`live, r`repr, r`rings, r`lists, r`buckets, r.pidhash, r.waits`fds
    modifies r.repr`next, r.repr`prev, r.repr`regPid, r.repr`oomadj
    ensures r.Valid() && fresh(r.repr - old(r.repr))
    ensures r.Abs() == RegisterProc(cfg, old(r.Abs()), req, client, env)
  {
    hide Registry.Core, WellFormed, Without;
    var adj := req.oomadj;
    if req.ptype == PROC_TYPE_APP && cfg.perAppMemcg {
      if 600 <= req.oomadj < 700 { adj := 200; }
      if !env.memcgPath { return; }
    }
    var p := r.PidLookup(req.pid);
    if p == null {
      RegisterNew(r, cfg, req, client, adj, env);
    } else {
      UpdateOwned(r, p, client, adj);
    }
  }

  method ApplyProcPrio(r: Registry, cfg: Config, req: Request, client: int, env: RegEnv)
    requires r.Valid()
    modifies r`procs, r`live, r`repr, r`rings, r`lists, r`buckets, r.pidhash, r.waits`fds
    modifies r.repr`next, r.repr`prev, r.repr`regPid, r.repr`oomadj
    ensures r.Valid() && fresh(r.repr - old(r.repr))
    ensures r.Abs() == Tables.ApplyProcPrio(cfg, old(r.Abs()), req, client, env)
  {
    hide Registry.Valid, WellFormed, RegisterProc;
    if req.oomadj < ADJ_MIN || req.oomadj > ADJ_MAX { return; }
    if req.ptype < PROC_TYPE_APP || req.ptype >= PROC_TYPE_COUNT { return; }
    if env.tgid.Some? && env.tgid.value != req.pid { return; }
    if !env.adjWritten { return; }
    RegisterOomAdjProc(r, cfg, req, client, env);
  }

  /** remove_claims: one walk over every chain of the hash. */
  method RemoveClaims(r: Registry, client: int)
    requires r.Valid()
    modifies r.repr`regPid
    ensures r.Valid() && r.Abs() == Tables.RemoveClaims(old(r.Abs()), client)
  {
    hide Registry.SlotOk, WellFormed;
    ghost var done: set<Proc> := {};
    for i := 0 to BUCKETS
      invariant forall p | p in r.live :: p.regPid == if p in done && old(p.regPid) == client then 0 else old(p.regPid)
      invariant forall h, k | 0 <= h < i && 0 <= k < |r.buckets[h]| :: r.buckets[h][k] in done
    {
      assert old(r.BucketOk(i));
      var p := r.pidhash[i];
      ghost var k := 0;
      while p != null
        invariant k <= |r.buckets[i]| && p == Link(r.buckets[i], k)
        invariant forall p | p in r.live ::
                    p.regPid == if p in done && old(p.regPid) == client then 0 else old(p.regPid)
        invariant forall h, k | 0 <= h < i && 0 <= k < |r.buckets[h]| :: r.buckets[h][k] in done
        invariant forall j | 0 <= j < k :: r.buckets[i][j] in done
        decreases |r.buckets[i]| - k
      {
        if p.regPid == client {
          p.regPid := 0;
        }
        done := done + {p};
        p := p.pidhashNext;
        k := k + 1;
      }
    }
    forall p | p in r.live ensures p in done {
      assert p in r.buckets[r.HashOf(p.pid)];
    }
    r.Undisturbed();
    r.ClaimsRemoved(client);
  }

  /** The body of the purge loop: claim a record, and remove it if the claim held. */
  method PurgeOne(r: Registry, p: Proc, client: int) returns (removed: bool)
    requires r.Valid() && p in r.live
    modifies r`procs, r`live, r`rings, r`lists, r`buckets, r.pidhash, r.waits`fds, r.waits`faults
    modifies r.repr`next, r.repr`prev, r.repr`pidhashNext, r.repr`regPid
    ensures r.Valid() && removed == Claimable(old(p.RecOf()), client)
    ensures r.Abs() == if removed then Tables.PidRemove(old(r.Abs()), p.pid) else old(r.Abs())
    ensures r.buckets == if !removed then old(r.buckets) else
                         old(r.buckets)[r.HashOf(p.pid) := Without(old(r.buckets[r.HashOf(p.pid)]), p)]
    ensures forall q | q in old(r.live) && q != p :: q in r.live && q.regPid == old(q.regPid)
    ensures r.live == if removed then old(r.live) - {p} else old(r.live)
    ensures !removed ==> p.regPid == old(p.regPid)
  {
    hide Registry.Valid, Registry.Core, Registry.Abs, WellFormed, Without;
    var pid := p.pid;
    r.Registered(p, pid);
    removed := ClaimRecord(r, p, client);
    if removed {
      var _ := r.PidRemove(pid);
    }
  }

  lemma EmptyProgress(r: Registry, client: int)
    requires r.Valid()
    ensures PurgeProgress(r.Abs(), client, []) && r.Abs() == RemoveAll(r.Abs(), [])
  {
  }

  lemma InChains(r: Registry)
    requires r.Valid()
    ensures |r.buckets| == BUCKETS && forall h, q | 0 <= h < BUCKETS && q in r.buckets[h] :: q in r.live
  {
    forall h, q | 0 <= h < BUCKETS && q in r.buckets[h] ensures q in r.live {
      assert r.BucketOk(h);
    }
  }

  lemma ChainStart(r: Registry, i: int)
    requires r.Valid() && 0 <= i < BUCKETS
    ensures |r.buckets| == r.pidhash.Length == BUCKETS && r.pidhash[i] == Link(r.buckets[i], 0)
  {
    assert r.BucketOk(i);
  }

  /** The purged pids so far are distinct, and were all the client's to claim. */
  ghost predicate PurgeProgress(t: Table, client: int, order: seq<int>) {
    NoDup(order) && forall pid | pid in order :: pid in t.recs && Claimable(t.recs[pid], client)
  }

  lemma PurgeStep(t: Table, client: int, order: seq<int>, pid: int)
    requires WellFormed(t) && PurgeProgress(t, client, order)
    requires pid in RemoveAll(t, order).recs && Claimable(RemoveAll(t, order).recs[pid], client)
    ensures PurgeProgress(t, client, order + [pid])
    ensures RemoveAll(t, order + [pid]) == Tables.PidRemove(RemoveAll(t, order), pid)
  {
    hide WellFormed, Tables.PidRemove;
    RemoveAllRecs(t, order);
    assert (order + [pid])[..|order|] == order;
  }

  lemma PurgeJoin(t: Table, client: int, a: seq<int>, b: seq<int>)
    requires WellFormed(t) && PurgeProgress(t, client, a) && PurgeProgress(RemoveAll(t, a), client, b)
    ensures RemoveAll(RemoveAll(t, a), b) == RemoveAll(t, a + b) && PurgeProgress(t, client, a + b)
  {
    hide WellFormed, RemoveAll;
    RemoveAllRecs(t, a);
    RemoveAllConcat(t, a, b);
    assert forall pid | pid in b :: pid in t.recs && pid !in a && RemoveAll(t, a).recs[pid] == t.recs[pid];
    forall i, j | 0 <= i < j < |a + b| ensures (a + b)[i] != (a + b)[j] {
      if i < |a| <= j { assert a[i] in a && b[j - |a|] in b; }
    }
  }

  /** Walking a chain: the next node, and what the chain is without the current one. */
  lemma ChainStep(r: Registry, i: int, kept: seq<Proc>, rest: seq<Proc>)
    requires r.Valid() && 0 <= i < BUCKETS && r.buckets[i] == kept + rest && rest != []
    ensures rest[0] in r.live && r.HashOf(rest[0].pid) == i && rest[0].pidhashNext == Link(rest[1..], 0)
    ensures rest[0] !in kept && Without(kept + rest, rest[0]) == kept + rest[1..]
  {
    hide Registry.SlotOk;
    assert r.BucketOk(i);
    var n := |kept|;
    assert r.buckets[i][n] == rest[0];
    assert Link(r.buckets[i], n + 1) == Link(rest[1..], 0);
    WithoutAt(kept + rest, rest[0], n);
  }

  /** The inner loop of cmd_procpurge: records leave the chain while it is being walked. */
  method PurgeChain(r: Registry, i: int, client: int) returns (ghost order: seq<int>)
    requires r.Valid() && 0 <= i < BUCKETS
    modifies r`procs, r`live, r`rings, r`lists, r`buckets, r.pidhash, r.waits`fds, r.waits`faults
    modifies r.repr`next, r.repr`prev, r.repr`pidhashNext, r.repr`regPid
    ensures r.Valid() && r.Abs() == RemoveAll(old(r.Abs()), order)
    ensures r.buckets == old(r.buckets)[i := r.buckets[i]]
    ensures forall q | q in r.buckets[i] :: q.regPid != client && q.regPid != 0
    ensures r.live <= old(r.live) && forall q | q in r.live :: q.regPid == old(q.regPid)
    ensures PurgeProgress(old(r.Abs()), client, order)
  {
    hide Registry.Core, WellFormed, Without, Registry.Abs, PurgeProgress, RemoveAll;
    EmptyProgress(r, client);
    order := [];
    ChainStart(r, i);
    var p := r.pidhash[i];
    ghost var kept: seq<Proc>, rest: seq<Proc> := [], r.buckets[i];
    while p != null
      invariant r.Valid() && r.Abs() == RemoveAll(old(r.Abs()), order)
      invariant |r.buckets| == BUCKETS && r.buckets[i] == kept + rest && p == Link(rest, 0)
      invariant r.buckets == old(r.buckets)[i := r.buckets[i]]
      invariant forall q | q in kept :: q in r.live && q.regPid != client && q.regPid != 0
      invariant r.live <= old(r.live) && forall q | q in r.live :: q.regPid == old(q.regPid)
      invariant PurgeProgress(old(r.Abs()), client, order)
      decreases |rest|
    {
      ChainStep(r, i, kept, rest);
      var next := p.pidhashNext;
      ghost var pid := p.pid;
      r.Registered(p, pid);
      var removed := PurgeOne(r, p, client);
      if removed {
        PurgeStep(old(r.Abs()), client, order, pid);
        order := order + [pid];
      } else {
        kept := kept + [p];
      }
      rest := rest[1..];
      p := next;
    }
  }

  /** cmd_procpurge. */
  method CmdProcPurge(r: Registry, client: int) returns (ghost order: seq<int>)
    requires r.Valid()
    modifies r`procs, r`live, r`rings, r`lists, r`buckets, r.pidhash, r.waits`fds, r.waits`faults
    modifies r.repr`next, r.repr`prev, r.repr`pidhashNext, r.repr`regPid
    ensures r.Valid() && r.Abs() == RemoveAll(old(r.Abs()), order) && PurgeOrder(old(r.Abs()), client, order)
  {
    hide Registry.Core, WellFormed, Registry.Abs, PurgeProgress, RemoveAll;
    order := [];
    EmptyProgress(r, client);
    InChains(r);
    for i := 0 to BUCKETS
      invariant r.Valid() && r.Abs() == RemoveAll(old(r.Abs()), order)
      invariant PurgeProgress(old(r.Abs()), client, order) && |r.buckets| == BUCKETS
      invariant forall h, q | 0 <= h < i && q in r.buckets[h] :: q in r.live && q.regPid != client && q.regPid != 0
    {
      ghost var more := PurgeChain(r, i, client);
      InChains(r);
      PurgeJoin(old(r.Abs()), client, order, more);
      order := order + more;
    }
    NothingLeft(r, client);
    PurgeDone(old(r.Abs()), client, order);
  }

  lemma PurgeDone(t: Table, client: int, order: seq<int>)
    requires WellFormed(t) && PurgeProgress(t, client, order)
    requires forall pid | pid in RemoveAll(t, order).recs :: !Claimable(RemoveAll(t, order).recs[pid], client)
    ensures PurgeOrder(t, client, order)
  {
    hide WellFormed, RemoveAll;
    RemoveAllRecs(t, order);
    assert forall pid | pid in t.recs && pid !in order :: pid in RemoveAll(t, order).recs;
  }

  lemma NothingLeft(r: Registry, client: int)
    requires r.Valid()
    requires forall h, q | 0 <= h < BUCKETS && q in r.buckets[h] :: q.regPid != client && q.regPid != 0
    ensures forall pid | pid in r.Abs().recs :: !Claimable(r.Abs().recs[pid], client)
  {
    forall pid | pid in r.Abs().recs ensures !Claimable(r.Abs().recs[pid], client) {
      var q := r.procs[pid];
      assert q in r.buckets[r.HashOf(q.pid)];
    }
  }
}
