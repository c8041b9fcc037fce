/** The kill wait across a search: when attempts overlap, and when they cannot. */
module SearchWaits {
  import opened Tables
  import opened Search
  import opened SearchProperties

  /** How many attempts after position `base` came while the wait of the one before them was in progress. */
  function Overtaken(log: seq<Signal>, base: nat): nat {
    var n := |log| - 1;
    if n <= base then 0 else Overtaken(log[..n], base) + if log[n - 1].waits then 1 else 0
  }

  /** A wait is in progress exactly when the last attempt since `base` left one. */
  ghost predicate WaitsOnLast(w: World, base: nat) {
    w.table.wait >= 0 <==> |w.log| > base && w.log[|w.log| - 1].waits
  }

  lemma RemoveKeepsWait(t: Table, pid: int)
    requires WellFormed(t)
    ensures PidRemove(t, pid).wait == t.wait
  {
  }

  lemma KillTableWait(pidfds: bool, t: Table, pid: int, p: Probe)
    requires WellFormed(t) && pid in t.recs
    ensures var u := KillTable(pidfds, t, pid, p);
            if Attempts(t.recs[pid], p) then u.wait >= 0 <==> Waits(pidfds, t.recs[pid], p) else u.wait == t.wait
  {
    hide PidRemove, WellFormed;
    RemoveKeepsWait(t, pid);
    var t1 := StartWait(pidfds, t, WaitKey(t.recs[pid]), p.registered);
    WellFormedFrame(t, t1);
    RemoveKeepsWait(t1, pid);
    var t2 := StopWait(pidfds, t1);
    WellFormedFrame(t, t2);
    RemoveKeepsWait(t2, pid);
  }

  lemma KillWaits(cfg: Cfg, env: Env, w: World, pid: int, base: nat)
    requires WellFormed(w.table) && pid in w.table.recs && cfg.pageKb > 0
    requires base <= |w.log| && WaitsOnLast(w, base)
    ensures var u := KillOne(cfg, env, w, pid).0;
            && WaitsOnLast(u, base) && w.log <= u.log
            && u.overlaps - Overtaken(u.log, base) == w.overlaps - Overtaken(w.log, base)
  {
    hide KillTable, WellFormed, Answer, Waits, Overtaken;
    var p := env.probes(w.tick)(pid);
    KillTableWait(cfg.pidfds, w.table, pid, p);
    var u := KillOne(cfg, env, w, pid).0;
    if Attempts(w.table.recs[pid], p) {
      OneMoreOvertaken(w.log, u.log[|w.log|], base);
      assert u.log == w.log + [u.log[|w.log|]];
    } else {
      assert u.log == w.log;
    }
  }

  lemma OneMoreOvertaken(log: seq<Signal>, e: Signal, base: nat)
    requires base <= |log|
    ensures Overtaken(log + [e], base) == Overtaken(log, base) + if |log| > base && log[|log| - 1].waits then 1 else 0
  {
    assert (log + [e])[..|log|] == log;
  }

  lemma {:induction false} TryWaits(cfg: Cfg, env: Env, w: World, i: int, h: bool, last: int, base: nat)
    requires WellFormed(w.table) && InRange(i) && cfg.pageKb > 0
    requires base <= |w.log| && WaitsOnLast(w, base)
    ensures var u := TryScore(cfg, env, w, i, h, last).0;
            && WaitsOnLast(u, base) && w.log <= u.log
            && u.overlaps - Overtaken(u.log, base) == w.overlaps - Overtaken(w.log, base)
    decreases |w.table.recs|
  {
    hide WellFormed, KillOne, Pick, Exhausted, Overtaken;
    PickOutcome(env, w, i, h);
    var (w1, c) := Pick(env, w, i, h);
    if c.Some? {
      KillWaits(cfg, env, w1, c.value, base);
      var (w2, r) := KillOne(cfg, env, w1, c.value);
      if r < 0 {
        TryWaits(cfg, env, w2, i, h, r, base);
      }
    }
  }

  lemma {:induction false} FindWaits(cfg: Cfg, env: Env, w: World, i: int, min: int, h: bool, base: nat)
    requires WellFormed(w.table) && ADJ_MIN <= min && i <= ADJ_MAX && cfg.pageKb > 0
    requires base <= |w.log| && WaitsOnLast(w, base)
    ensures var u := Find(cfg, env, w, i, min, h).0;
            && WaitsOnLast(u, base)
            && u.overlaps - Overtaken(u.log, base) == w.overlaps - Overtaken(w.log, base)
    decreases if i < min then 0 else i - min + 1
  {
    hide WellFormed, TryScore, Overtaken;
    if i >= min {
      var h' := h || i <= PERCEPTIBLE_APP_ADJ;
      TryWaits(cfg, env, w, i, h', 0, base);
      var (w1, r) := TryScore(cfg, env, w, i, h', 0);
      if r == 0 {
        FindWaits(cfg, env, w1, i - 1, min, h', base);
      }
    }
  }

  /**
   Starting with no wait in progress, a search reaches the branch that stops a
   previous wait once for every attempt that left a wait and is not the last
   one, and never otherwise; it leaves a wait behind exactly when its last
   attempt did. An attempt leaves one when it is delivered and epoll took it.
   */
  lemma SearchOverlaps(cfg: Cfg, env: Env, w: World, min: int)
    requires WellFormed(w.table) && ADJ_MIN <= min && cfg.pageKb > 0
    requires w.table.wait < 0
    ensures var u := FindAndKill(cfg, env, w, min).0;
            && u.overlaps == w.overlaps + Overtaken(u.log, |w.log|)
            && (u.table.wait >= 0 <==> |u.log| > |w.log| && u.log[|u.log| - 1].waits)
  {
    hide Find, WellFormed;
    FindWaits(cfg, env, w, ADJ_MAX, min, cfg.heaviest, |w.log|);
  }

  /** Every successful kill frees at least one page. */
  ghost predicate Productive(cfg: Cfg, env: Env)
    requires cfg.pageKb > 0
  {
    forall n, pid :: var p := env.probes(n)(pid);
      p.delivered && p.status.Some? && p.status.value.rssKb.Some? ==> p.status.value.rssKb.value >= cfg.pageKb
  }

  lemma SomePage(cfg: Cfg, p: Probe)
    requires cfg.pageKb > 0
    ensures p.status.Some? && p.status.value.rssKb.Some? && p.status.value.rssKb.value >= cfg.pageKb ==>
              Pages(cfg, p) >= 1
  {
    if p.status.Some? && p.status.value.rssKb.Some? {
      WholePages(p.status.value.rssKb.value, cfg.pageKb);
    }
  }

  /** From `base` on, only the last entry may have freed pages, a delivered signal did, and only such a one waits. */
  ghost predicate OnlyLastPays(log: seq<Signal>, base: nat) {
    forall k | base <= k < |log| ::
      && (k < |log| - 1 ==> log[k].pages == 0)
      && (log[k].waits ==> log[k].delivered) && (log[k].delivered ==> log[k].pages >= 1)
  }

  lemma {:induction false} TryPays(cfg: Cfg, env: Env, w: World, i: int, h: bool, last: int)
    requires WellFormed(w.table) && InRange(i) && cfg.pageKb > 0 && Productive(cfg, env) && last <= 0
    ensures var (u, r) := TryScore(cfg, env, w, i, h, last);
            OnlyLastPays(u.log, |w.log|) && (u.log != w.log ==> |u.log| == |w.log| + 1 && u.log[|w.log|].pages == r)
    decreases |w.table.recs|
  {
    hide WellFormed, KillTable, Pick, Exhausted;
    PickOutcome(env, w, i, h);
    var (w1, c) := Pick(env, w, i, h);
    if c.Some? {
      var (w2, r) := KillOne(cfg, env, w1, c.value);
      SomePage(cfg, env.probes(w1.tick)(c.value));
      if r < 0 {
        TryPays(cfg, env, w2, i, h, r);
      }
    }
  }

  lemma {:induction false} FindPays(cfg: Cfg, env: Env, w: World, i: int, min: int, h: bool)
    requires WellFormed(w.table) && ADJ_MIN <= min && i <= ADJ_MAX && cfg.pageKb > 0 && Productive(cfg, env)
    ensures var u := Find(cfg, env, w, i, min, h).0;
            w.log <= u.log && OnlyLastPays(u.log, |w.log|)
    decreases if i < min then 0 else i - min + 1
  {
    hide WellFormed, TryScore, Exhausted, OnlyAt, Productive;
    if i >= min {
      var h' := h || i <= PERCEPTIBLE_APP_ADJ;
      TryPays(cfg, env, w, i, h', 0);
      TryOutcome(cfg, env, w, i, h', 0);
      var (w1, r) := TryScore(cfg, env, w, i, h', 0);
      if r == 0 {
        FindPays(cfg, env, w1, i - 1, min, h');
        var u := Find(cfg, env, w1, i - 1, min, h').0;
        assert forall k | |w.log| <= k < |w1.log| :: u.log[k] == w1.log[k];
      }
    }
  }

  lemma {:induction false} NoneOvertaken(log: seq<Signal>, base: nat)
    requires forall k | base <= k < |log| - 1 :: !log[k].waits
    ensures Overtaken(log, base) == 0
  {
    if |log| - 1 > base {
      NoneOvertaken(log[..|log| - 1], base);
    }
  }

  /**
   If every successful kill frees a page, a search delivers at most one signal,
   its last, and never finds another wait in progress.
   */
  lemma ProductiveSearch(cfg: Cfg, env: Env, w: World, min: int)
    requires WellFormed(w.table) && ADJ_MIN <= min && cfg.pageKb > 0 && Productive(cfg, env)
    requires w.table.wait < 0
    ensures var u := FindAndKill(cfg, env, w, min).0;
            && u.overlaps == w.overlaps
            && forall k | |w.log| <= k < |u.log| - 1 :: !u.log[k].delivered
  {
    hide Find, WellFormed, Productive;
    SearchOverlaps(cfg, env, w, min);
    FindPays(cfg, env, w, ADJ_MAX, min, cfg.heaviest);
    NoneOvertaken(FindAndKill(cfg, env, w, min).0.log, |w.log|);
  }
}
