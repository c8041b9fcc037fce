/** A victim search is itself a run of removals and kill attempts, so whatever holds over runs holds across searches. */
module SearchRuns {
  import opened Tables
  import opened Victims
  import opened Search
  import opened Runs
  import opened Ledger
  import SearchProperties

  /** A kill attempt answered by the environment, or the removal of an unreadable record. */
  ghost predicate FromSearch(env: Env, op: Op) {
    op.Forget? || (op.Kill? && exists n :: 0 <= n && op.probe == env.probes(n)(op.pid))
  }

  ghost predicate AllFromSearch(env: Env, ops: seq<Op>) {
    forall k | 0 <= k < |ops| :: FromSearch(env, ops[k])
  }

  lemma {:induction false} RunConcat(cfg: Config, t: Table, a: seq<Op>, b: seq<Op>)
    requires WellFormed(t) && LegalRun(cfg, t, a) && LegalRun(cfg, Run(cfg, t, a), b)
    ensures LegalRun(cfg, t, a + b) && Run(cfg, t, a + b) == Run(cfg, Run(cfg, t, a), b)
    decreases |a|
  {
    hide Step, WellFormed, Legal;
    if a == [] {
      assert a + b == b;
    } else {
      RunConcat(cfg, Step(cfg, t, a[0]), a[1..], b);
      assert (a + b)[1..] == a[1..] + b;
    }
  }

  lemma OneStep(cfg: Config, t: Table, op: Op)
    requires WellFormed(t) && Legal(t, op)
    ensures LegalRun(cfg, t, [op]) && Run(cfg, t, [op]) == Step(cfg, t, op)
  {
    hide Step, WellFormed, Legal;
    assert [op][1..] == [];
  }

  lemma {:induction false} ForgetRun(cfg: Config, env: Env, t: Table, pids: seq<int>) returns (ops: seq<Op>)
    requires WellFormed(t)
    ensures LegalRun(cfg, t, ops) && Run(cfg, t, ops) == RemoveAll(t, pids) && AllFromSearch(env, ops)
  {
    hide WellFormed, PidRemove;
    ops := [];
    if pids != [] {
      var n := |pids| - 1;
      ops := ForgetRun(cfg, env, t, pids[..n]);
      OneStep(cfg, RemoveAll(t, pids[..n]), Forget(pids[n]));
      RunConcat(cfg, t, ops, [Forget(pids[n])]);
      ops := ops + [Forget(pids[n])];
    }
  }

  lemma PickRun(c: Config, env: Env, w: World, i: int, heaviest: bool) returns (ops: seq<Op>)
    requires WellFormed(w.table) && InRange(i)
    ensures LegalRun(c, w.table, ops) && Run(c, w.table, ops) == Pick(env, w, i, heaviest).0.table
            && AllFromSearch(env, ops)
  {
    hide RemoveAll, LegalRun, Run;
    var l := w.table.slots[SlotOf(i)];
    ops := ForgetRun(c, env, w.table, if heaviest && |l| != 1 then Failed(l, env.sizes(w.tick)) else []);
    NoneRemoved(w.table);
  }

  lemma NoneRemoved(t: Table)
    requires WellFormed(t)
    ensures RemoveAll(t, []) == t
  {
  }

  lemma {:induction false} TryRun(c: Config, cfg: Cfg, env: Env, w: World, i: int, h: bool, last: int)
    returns (ops: seq<Op>)
    requires WellFormed(w.table) && InRange(i) && cfg.pageKb > 0 && c.pidfds == cfg.pidfds
    ensures LegalRun(c, w.table, ops) && Run(c, w.table, ops) == TryScore(cfg, env, w, i, h, last).0.table
            && AllFromSearch(env, ops)
    decreases |w.table.recs|
  {
    hide WellFormed, KillTable, Pick, LegalRun, Run;
    ops := PickRun(c, env, w, i, h);
    var (w1, p) := Pick(env, w, i, h);
    if p.Some? {
      var (w2, r) := KillOne(cfg, env, w1, p.value);
      var op := Kill(p.value, env.probes(w1.tick)(p.value));
      OneStep(c, w1.table, op);
      RunConcat(c, w.table, ops, [op]);
      assert FromSearch(env, op);
      ops := ops + [op];
      if r < 0 {
        var more := TryRun(c, cfg, env, w2, i, h, r);
        RunConcat(c, w.table, ops, more);
        ops := ops + more;
      }
    }
  }

  /** The registry after a search is the registry after a run of kill attempts and removals. */
  lemma {:induction false} FindRun(c: Config, cfg: Cfg, env: Env, w: World, i: int, min: int, h: bool)
    returns (ops: seq<Op>)
    requires WellFormed(w.table) && ADJ_MIN <= min && i <= ADJ_MAX && cfg.pageKb > 0 && c.pidfds == cfg.pidfds
    ensures LegalRun(c, w.table, ops) && Run(c, w.table, ops) == Find(cfg, env, w, i, min, h).0.table
            && AllFromSearch(env, ops)
    decreases if i < min then 0 else i - min + 1
  {
    hide WellFormed, TryScore;
    ops := [];
    if i >= min {
      var h' := h || i <= PERCEPTIBLE_APP_ADJ;
      ops := TryRun(c, cfg, env, w, i, h', 0);
      var (w1, r) := TryScore(cfg, env, w, i, h', 0);
      if r == 0 {
        var more := FindRun(c, cfg, env, w1, i - 1, min, h');
        RunConcat(c, w.table, ops, more);
        ops := ops + more;
      }
    }
  }

  /** epoll and the signal never fail. */
  ghost predicate NoFailure(env: Env) {
    forall n, pid :: env.probes(n)(pid).registered && env.probes(n)(pid).delivered
  }

  lemma {:induction false} SearchSucceeds(c: Config, env: Env, t: Table, ops: seq<Op>)
    requires WellFormed(t) && LegalRun(c, t, ops) && AllFromSearch(env, ops) && NoFailure(env)
    ensures SucceedingRun(c, t, ops)
    decreases |ops|
  {
    hide WellFormed, Step, Legal;
    if ops != [] {
      assert FromSearch(env, ops[0]);
      SearchSucceeds(c, env, Step(c, t, ops[0]), ops[1..]);
    }
  }

  /** A whole search keeps descriptor ownership and closes nothing twice, if epoll and the signals succeed. */
  lemma SearchOwned(cfg: Cfg, env: Env, w: World, min: int)
    requires cfg.pidfds && WellFormed(w.table) && ADJ_MIN <= min && cfg.pageKb > 0 && Owned(w.table) && NoFailure(env)
    ensures var u := FindAndKill(cfg, env, w, min).0;
            Owned(u.table) && u.table.faults == w.table.faults
  {
    hide WellFormed, Find, Run, LegalRun, SucceedingRun, Owned;
    var c := Config(false, true);
    var ops := FindRun(c, cfg, env, w, ADJ_MAX, min, cfg.heaviest);
    SearchSucceeds(c, env, w.table, ops);
    RunOwned(c, w.table, ops);
  }

  /**
   * After any run, in tail mode: of the records on the list of the one signalled, those registered or updated longer
   * ago were stale and are gone, so it was the oldest that could be killed.
   */
  lemma OldestFirst(c: Config, ops: seq<Op>, cfg: Cfg, env: Env, w: World, min: int)
    requires LegalRun(c, Empty(), ops) && w.table == Run(c, Empty(), ops)
    requires ADJ_MIN <= min && cfg.pageKb > 0
    ensures var u := FindAndKill(cfg, env, w, min).0;
            forall k, other | |w.log| <= k < |u.log| && other in u.table.recs ::
              InTailMode(cfg, w.table, u.log[k], other) ==>
                Older(Stamps(c, Empty(), ops, map[], 0), u.log[k].pid, other)
  {
    hide WellFormed, Find, Run, LegalRun, Stamps;
    var u := FindAndKill(cfg, env, w, min).0;
    var stamps := Stamps(c, Empty(), ops, map[], 0);
    RecencyOrder(c, ops);
    SearchProperties.FindTail(cfg, env, w, ADJ_MAX, min, cfg.heaviest);
    assert u == Find(cfg, env, w, ADJ_MAX, min, cfg.heaviest).0;
    forall k, other | |w.log| <= k < |u.log| && other in u.table.recs && InTailMode(cfg, w.table, u.log[k], other)
      ensures Older(stamps, u.log[k].pid, other)
    {
      var e := u.log[k];
      var l := w.table.slots[SlotOf(e.score)];
      assert SearchProperties.TailFirst(w, u, u.log[k]);
      var j :| 0 <= j < |l| && SearchProperties.EndsAt(w, u, e, j);
      var i :| 0 <= i < |l| && l[i] == other;
      assert Newest(l, stamps);
    }
  }

  /** The signal was sent in tail mode to a record of the list that `other` was on. */
  predicate InTailMode(cfg: Cfg, t: Table, e: Signal, other: int) {
    && |t.slots| == SLOTS && InRange(e.score) && !cfg.heaviest && e.score > 200
    && other in t.slots[SlotOf(e.score)]
  }

  predicate Older(stamps: map<int, int>, pid: int, other: int) {
    pid in stamps && other in stamps && stamps[pid] < stamps[other]
  }

  /**
   After a watchdog kill, and any run in which the record is not removed, no
   search signals that process again: one that tries its record drops it.
   */
  lemma InvalidatedNeverSignalled(c: Config, t: Table, ops: seq<Op>, cfg: Cfg, env: Env, w: World, min: int, pid: int)
    requires WellFormed(t) && pid in t.recs && ADJ_MIN <= min && cfg.pageKb > 0
    requires var v := PidInvalidate(t, pid);
             LegalRun(c, v, ops) && Stays(c, v, ops, pid) && w.table == Run(c, v, ops)
    ensures pid in w.table.recs
    ensures var u := FindAndKill(cfg, env, w, min).0; forall k | |w.log| <= k < |u.log| :: u.log[k].pid != pid
    ensures var (u, r) := KillOne(cfg, env, w, pid);
            u.table == PidRemove(w.table, pid) && u.log == w.log && r < 0
  {
    hide WellFormed, Find, PidRemove, Run, LegalRun, Stays;
    InvalidStays(c, PidInvalidate(t, pid), ops, pid);
    var stop := SearchProperties.FindStops(cfg, env, w, ADJ_MAX, min, cfg.heaviest);
  }
}
