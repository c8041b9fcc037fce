/** Who owns each open pid descriptor, over every run of a daemon that uses pidfds. */
module Ledger {
  import opened Tables
  import opened Search
  import opened Runs

  ghost predicate HasOwner(t: Table, fd: int) {
    exists pid :: pid in t.recs && t.recs[pid].pidfd == fd
  }

  /** Every open descriptor belongs to exactly one record or to the kill-wait slot, and everything owned is open. */
  ghost predicate Owned(t: Table) {
    && (forall pid | pid in t.recs :: 0 <= t.recs[pid].pidfd != t.wait && t.recs[pid].pidfd in t.fds)
    && (forall a, b | a in t.recs && b in t.recs && a != b :: t.recs[a].pidfd != t.recs[b].pidfd)
    && (t.wait >= 0 ==> t.wait in t.fds)
    && (forall fd | fd in t.fds :: (fd >= 0 && fd == t.wait) || HasOwner(t, fd))
  }

  /** Removing a record closes its descriptor, which was open and is owned by nothing else. */
  lemma RemoveOwned(t: Table, pid: int)
    requires WellFormed(t) && Owned(t)
    ensures Owned(PidRemove(t, pid)) && PidRemove(t, pid).faults == t.faults
  {
    if pid in t.recs {
      var u := PidRemove(t, pid);
      forall fd | fd in u.fds ensures (fd >= 0 && fd == u.wait) || HasOwner(u, fd) {
        if !(fd >= 0 && fd == t.wait) {
          var x :| x in t.recs && t.recs[x].pidfd == fd;
          assert x in u.recs;
        }
      }
    }
  }

  lemma {:induction false} RemoveAllOwned(t: Table, pids: seq<int>)
    requires WellFormed(t) && Owned(t)
    ensures Owned(RemoveAll(t, pids)) && RemoveAll(t, pids).faults == t.faults
  {
    if pids != [] {
      RemoveAllOwned(t, pids[..|pids| - 1]);
      RemoveOwned(RemoveAll(t, pids[..|pids| - 1]), pids[|pids| - 1]);
    }
  }

  lemma StopOwned(t: Table)
    requires Owned(t)
    ensures Owned(StopWait(true, t)) && StopWait(true, t).faults == t.faults
  {
    var u := StopWait(true, t);
    forall fd | fd in u.fds ensures HasOwner(u, fd) {
      var x :| x in t.recs && t.recs[x].pidfd == fd;
      assert x in u.recs && u.recs[x].pidfd == fd;
    }
  }

  /** A delivered kill hands the descriptor from the record to the kill-wait slot. */
  lemma HandOver(t: Table, pid: int)
    requires WellFormed(t) && Owned(t) && t.wait < 0 && pid in t.recs
    requires WellFormed(t.(wait := t.recs[pid].pidfd))
    ensures var u := PidRemove(t.(wait := t.recs[pid].pidfd), pid);
            Owned(u) && u.faults == t.faults
  {
    var u := PidRemove(t.(wait := t.recs[pid].pidfd), pid);
    forall fd | fd in u.fds ensures (fd >= 0 && fd == u.wait) || HasOwner(u, fd) {
      if fd != u.wait {
        var x :| x in t.recs && t.recs[x].pidfd == fd;
        assert x in u.recs;
      }
    }
  }

  /**
   One kill attempt: exactly one close hits a closed descriptor if a signal was
   attempted and epoll or the signal failed, none otherwise.
   */
  lemma KillFaults(t: Table, pid: int, p: Probe)
    requires WellFormed(t) && Owned(t) && pid in t.recs
    ensures var u := KillTable(true, t, pid, p);
            if Attempts(t.recs[pid], p) && !(p.registered && p.delivered) then u.faults == t.faults + 1
            else u.faults == t.faults && Owned(u)
  {
    hide WellFormed, Owned;
    var r := t.recs[pid];
    RemoveOwned(t, pid);
    if Attempts(r, p) {
      StopOwned(t);
      var s := StopWait(true, t);
      WellFormedFrame(t, s);
      WellFormedFrame(t, s.(wait := r.pidfd));
      OwnedFd(t, pid);
      OwnedFd(s, pid);
      if p.registered && p.delivered {
        HandOver(s, pid);
      } else {
        ClosedTwice(s, pid);
      }
    }
  }

  lemma OwnedFd(t: Table, pid: int)
    requires Owned(t) && pid in t.recs
    ensures t.recs[pid].pidfd >= 0 && t.recs[pid].pidfd in t.fds
  {
  }

  /** The descriptor is closed when the wait is given up, and again when the record goes. */
  lemma ClosedTwice(s: Table, pid: int)
    requires WellFormed(s) && Owned(s) && pid in s.recs && s.wait < 0
    ensures var u := CloseFd(s, s.recs[pid].pidfd);
            WellFormed(u) && PidRemove(u, pid).faults == s.faults + 1
  {
  }

  /** Registration opened a descriptor and could store it; a kill attempt was accepted by epoll and delivered. */
  predicate Succeeds(t: Table, op: Op) {
    match op
    case Prio(_, _, env) => env.memory
    case Kill(pid, p) => pid in t.recs && Attempts(t.recs[pid], p) ==> p.registered && p.delivered
    case _ => true
  }

  lemma SameOwned(t: Table, u: Table)
    requires Owned(t) && u.fds == t.fds && u.wait == t.wait && u.recs.Keys == t.recs.Keys
    requires forall pid | pid in t.recs :: u.recs[pid].pidfd == t.recs[pid].pidfd
    ensures Owned(u)
  {
    forall fd | fd in u.fds && HasOwner(t, fd) ensures HasOwner(u, fd) {
      var x :| x in t.recs && t.recs[x].pidfd == fd;
      assert x in u.recs && u.recs[x].pidfd == fd;
    }
  }

  /**
   A registration that runs out of memory leaves its new descriptor open with no
   owner: ownership survives exactly when there was memory.
   */
  lemma RegisterLeaks(cfg: Config, t: Table, req: Request, client: int, adj: int, env: RegEnv)
    requires cfg.pidfds && WellFormed(t) && Owned(t) && InRange(adj) && req.pid !in t.recs
    requires env.pidfd.Some? && env.pidfd.value !in t.fds
    ensures Owned(RegisterNew(cfg, t, req, client, adj, env)) <==> env.memory
    ensures RegisterNew(cfg, t, req, client, adj, env).faults == t.faults
  {
    var u := RegisterNew(cfg, t, req, client, adj, env);
    var fd: int := env.pidfd.value;
    if env.memory {
      forall f | f in u.fds ensures (f >= 0 && f == u.wait) || HasOwner(u, f) {
        if f in t.fds && !(f >= 0 && f == t.wait) {
          var x :| x in t.recs && t.recs[x].pidfd == f;
          assert x in u.recs && u.recs[x].pidfd == f;
        } else if f !in t.fds {
          assert u.recs[req.pid].pidfd == f;
        }
      }
    } else {
      assert fd in u.fds;
    }
  }

  lemma RegisterOwned(cfg: Config, t: Table, req: Request, client: int, env: RegEnv)
    requires cfg.pidfds && WellFormed(t) && Owned(t) && env.memory && (env.pidfd.Some? ==> env.pidfd.value !in t.fds)
    ensures var u := ApplyProcPrio(cfg, t, req, client, env);
            u.faults == t.faults && Owned(u)
  {
    hide WellFormed, Owned, RegisterNew;
    var adj := EffectiveScore(cfg, req);
    if InRange(req.oomadj) {
      if req.pid in t.recs {
        SameOwned(t, Reslot(t, req.pid, client, adj));
      } else if env.pidfd.Some? {
        RegisterLeaks(cfg, t, req, client, adj, env);
      } else {
        NothingOpened(cfg, t, req, client, adj, env);
      }
    }
  }

  lemma NothingOpened(cfg: Config, t: Table, req: Request, client: int, adj: int, env: RegEnv)
    requires cfg.pidfds && WellFormed(t) && InRange(adj) && req.pid !in t.recs && env.pidfd.None?
    ensures RegisterNew(cfg, t, req, client, adj, env) == t
  {
  }

  lemma StepOwned(cfg: Config, t: Table, op: Op)
    requires cfg.pidfds && WellFormed(t) && Legal(t, op) && Owned(t) && Succeeds(t, op)
    ensures Owned(Step(cfg, t, op)) && Step(cfg, t, op).faults == t.faults
  {
    hide WellFormed, Owned, ApplyProcPrio, KillTable, PidRemove, RemoveAll, StopWait;
    match op
    case Prio(req, client, env) => RegisterOwned(cfg, t, req, client, env);
    case Remove(pid, _) => RemoveOwned(t, pid);
    case Purge(_, order) => RemoveAllOwned(t, order);
    case Kill(pid, probe) => KillFaults(t, pid, probe);
    case Forget(pid) => RemoveOwned(t, pid);
    case Disconnect(client) => SameOwned(t, RemoveClaims(t, client));
    case Invalidate(pid) => SameOwned(t, PidInvalidate(t, pid));
    case StopWaiting => StopOwned(t);
  }

  ghost predicate SucceedingRun(cfg: Config, t: Table, ops: seq<Op>)
    requires WellFormed(t) && LegalRun(cfg, t, ops)
    decreases |ops|
  {
    ops == [] || (Succeeds(t, ops[0]) && SucceedingRun(cfg, Step(cfg, t, ops[0]), ops[1..]))
  }

  /** In every succeeding run ownership holds throughout and no descriptor is ever closed twice. */
  lemma {:induction false} RunOwned(cfg: Config, t: Table, ops: seq<Op>)
    requires cfg.pidfds && WellFormed(t) && LegalRun(cfg, t, ops) && Owned(t) && SucceedingRun(cfg, t, ops)
    ensures Owned(Run(cfg, t, ops)) && Run(cfg, t, ops).faults == t.faults
    decreases |ops|
  {
    hide WellFormed, Step, Owned, Succeeds, Legal;
    if ops != [] {
      StepOwned(cfg, t, ops[0]);
      RunOwned(cfg, Step(cfg, t, ops[0]), ops[1..]);
    }
  }

  /**
   From an empty registry, over every succeeding run: each open descriptor has
   its one owner, and none was closed twice.
   */
  lemma OwnershipOverRuns(cfg: Config, ops: seq<Op>)
    requires cfg.pidfds && LegalRun(cfg, Empty(), ops) && SucceedingRun(cfg, Empty(), ops)
    ensures Owned(Run(cfg, Empty(), ops)) && Run(cfg, Empty(), ops).faults == 0
  {
    hide WellFormed, LegalRun, SucceedingRun;
    assert Owned(Empty());
    RunOwned(cfg, Empty(), ops);
  }
}
