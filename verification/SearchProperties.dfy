/** What the victim search guarantees, over every registry and every environment. */
module SearchProperties {
  import opened Tables
  import opened Victims
  import opened Search

  /** u is t with some records of score i removed; lists of other scores are as they were. */
  ghost predicate OnlyAt(t: Table, u: Table, i: int) {
    && |t.slots| == |u.slots| == SLOTS
    && (forall j | 0 <= j < SLOTS && j != SlotOf(i) :: u.slots[j] == t.slots[j])
    && (forall pid | pid in u.recs :: pid in t.recs && u.recs[pid] == t.recs[pid])
  }

  lemma KillOnlyAt(pidfds: bool, t: Table, pid: int, p: Probe)
    requires WellFormed(t) && pid in t.recs
    ensures OnlyAt(t, KillTable(pidfds, t, pid, p), t.recs[pid].oomadj)
  {
  }

  lemma {:induction false} RemoveOnlyAt(t: Table, pids: seq<int>, i: int)
    requires WellFormed(t) && forall k | 0 <= k < |pids| :: pids[k] in t.recs ==> t.recs[pids[k]].oomadj == i
    ensures OnlyAt(t, RemoveAll(t, pids), i)
  {
    if pids != [] {
      var n := |pids| - 1;
      RemoveOnlyAt(t, pids[..n], i);
      var pid := pids[n];
      assert pid in t.recs ==> t.recs[pid].oomadj == i;
    }
  }

  /**
   No candidate is left at score i: the list is empty or, in heaviest mode, one
   of the scans made since there were `base` of them scanned this list and read
   size 0 for all that is left of it.
   */
  ghost predicate Exhausted(env: Env, base: nat, u: World, i: int, heaviest: bool)
    requires |u.table.slots| == SLOTS && InRange(i)
  {
    u.table.slots[SlotOf(i)] == [] ||
    (heaviest && exists k :: base <= k < |u.scans| && ReadZero(env, u, i, k))
  }

  /** The k-th scan was of score i and read size 0 for every record now on its list. */
  ghost predicate ReadZero(env: Env, u: World, i: int, k: int)
    requires |u.table.slots| == SLOTS && InRange(i) && 0 <= k < |u.scans|
  {
    u.scans[k].score == i && AllZero(u.table.slots[SlotOf(i)], env.sizes(u.scans[k].tick))
  }

  /** The scans of w are an initial part of those of u, and the later ones were made at ticks in between. */
  ghost predicate Scanned(w: World, u: World) {
    w.tick <= u.tick && w.scans <= u.scans
    && forall k | |w.scans| <= k < |u.scans| :: w.tick <= u.scans[k].tick < u.tick
  }

  ghost predicate AllZero(l: seq<int>, size: int -> int) {
    forall k | 0 <= k < |l| :: size(l[k]) == 0
  }

  /** Picking a candidate changes only its own list; with no candidate the score is exhausted. */
  lemma PickOutcome(env: Env, w: World, i: int, heaviest: bool)
    requires WellFormed(w.table) && InRange(i)
    ensures var (u, c) := Pick(env, w, i, heaviest);
            && OnlyAt(w.table, u.table, i) && u.log == w.log && u.overlaps == w.overlaps && Scanned(w, u)
            && u.table.wait == w.table.wait
            && (c.None? ==> Exhausted(env, |w.scans|, u, i, heaviest))
  {
    var l := w.table.slots[SlotOf(i)];
    if heaviest && |l| != 1 {
      var size := env.sizes(w.tick);
      var f := Failed(l, size);
      FailedMembers(l, size);
      forall k | 0 <= k < |f| ensures f[k] in w.table.recs ==> w.table.recs[f[k]].oomadj == i {
        var x := f[k];
        assert x in f;
      }
      RemoveOnlyAt(w.table, f, i);
      RemoveAllRecs(w.table, f);
      var u := RemoveAll(w.table, f);
      var k := BestIsFirstHeaviest(l, size);
      if Best(l, size).None? {
        forall j | 0 <= j < |u.slots[SlotOf(i)]| ensures size(u.slots[SlotOf(i)][j]) == 0 {
          var x := u.slots[SlotOf(i)][j];
          SlotEntry(u, SlotOf(i), j, x);
          assert x in l && x !in f;
          var m :| 0 <= m < |l| && l[m] == x;
        }
        if l != [] {
          assert ReadZero(env, Pick(env, w, i, heaviest).0, i, |w.scans|);
        }
      }
    }
  }

  lemma PickEmpty(env: Env, w: World, i: int, heaviest: bool)
    requires WellFormed(w.table) && InRange(i) && w.table.slots[SlotOf(i)] == []
    ensures Pick(env, w, i, heaviest).1.None?
  {
  }

  /** The log only grew, and every new entry is a valid record of t, at its own score, between lo and hi. */
  ghost predicate Grew(t: Table, log: seq<Signal>, log': seq<Signal>, lo: int, hi: int) {
    && log <= log'
    && (forall k | |log| <= k < |log'| :: lo <= log'[k].score <= hi
                                          && log'[k].pid in t.recs && t.recs[log'[k].pid].oomadj == log'[k].score
                                          && t.recs[log'[k].pid].valid)
  }

  /** One attempt on `pid`: what it changes, and how the answer and the log go together. */
  lemma KillStep(cfg: Cfg, env: Env, w: World, pid: int)
    requires WellFormed(w.table) && pid in w.table.recs && cfg.pageKb > 0
    ensures var (u, r) := KillOne(cfg, env, w, pid);
            var i := w.table.recs[pid].oomadj;
            && OnlyAt(w.table, u.table, i) && Grew(w.table, w.log, u.log, i, i)
            && u.scans == w.scans && u.tick == w.tick + 1
            && (r < 0 ==> u.log == w.log)
            && (u.log == w.log || (|u.log| == |w.log| + 1 && u.log[|w.log|].pages == r && u.log[|w.log|].pid == pid))
            && (r == 0 ==> u.log != w.log)
  {
    hide KillTable, WellFormed;
    KillOnlyAt(cfg.pidfds, w.table, pid, env.probes(w.tick)(pid));
  }

  /**
   What kill_one_process answers and leaves behind, on what it is told. A stale
   record is dropped with -1. What the hook freed is answered as it is. Else the
   record goes with one signal, and the answer is the resident memory in whole
   pages if the signal was delivered; what is then waited on is the record's
   descriptor or, where there is none, its pid.
   */
  lemma KillEffect(cfg: Cfg, env: Env, w: World, pid: int)
    requires WellFormed(w.table) && pid in w.table.recs && cfg.pageKb > 0
    ensures var (u, r) := KillOne(cfg, env, w, pid);
            var rec, p := w.table.recs[pid], env.probes(w.tick)(pid);
            if !(rec.valid && p.named && p.status.Some? && p.status.value.tgid == Some(pid)
                 && p.status.value.rssKb.Some? && p.status.value.swapKb.Some?) then
              r == -1 && u.log == w.log && u.table.recs == w.table.recs - {pid} && u.table.wait == w.table.wait
            else if p.hook > 0 then r == p.hook && u.log == w.log && u.table == w.table
            else
              && u.table.recs == w.table.recs - {pid}
              && u.log == w.log + [Signal(pid, rec.oomadj, p.delivered, u.table.wait >= 0, r)]
              && (if p.delivered then r * cfg.pageKb <= p.status.value.rssKb.value < (r + 1) * cfg.pageKb else r == 0)
              && (u.table.wait >= 0 <==>
                    p.delivered && (p.registered || !cfg.pidfds) && (rec.pidfd >= 0 || pid >= 0))
              && (u.table.wait >= 0 ==> u.table.wait == if rec.pidfd >= 0 then rec.pidfd else pid)
  {
    hide KillTable, WellFormed;
    var p := env.probes(w.tick)(pid);
    SlotCount(w.table);
    KillTableEffect(cfg.pidfds, w.table, pid, p);
    if p.status.Some? && p.status.value.rssKb.Some? {
      WholePages(p.status.value.rssKb.value, cfg.pageKb);
    }
  }

  lemma KillTableEffect(pidfds: bool, t: Table, pid: int, p: Probe)
    requires WellFormed(t) && pid in t.recs
    ensures var u, rec := KillTable(pidfds, t, pid, p), t.recs[pid];
            if Killable(rec, p) && p.hook > 0 then u == t
            else
              && u.recs == t.recs - {pid}
              && (if !Killable(rec, p) then u.wait == t.wait
                  else
                    && (u.wait >= 0 <==> p.delivered && (p.registered || !pidfds) && (rec.pidfd >= 0 || pid >= 0))
                    && (u.wait >= 0 ==> u.wait == if rec.pidfd >= 0 then rec.pidfd else pid))
  {
    hide Killable;
    RemovedOnly(t, pid);
    var t1 := StartWait(pidfds, t, WaitKey(t.recs[pid]), p.registered);
    WellFormedFrame(t, t1);
    RemovedOnly(t1, pid);
    var t2 := StopWait(pidfds, t1);
    WellFormedFrame(t, t2);
    RemovedOnly(t2, pid);
    SlotCount(t);
    hide WellFormed, PidRemove;
  }

  lemma RemovedOnly(t: Table, pid: int)
    requires WellFormed(t) && pid in t.recs
    ensures PidRemove(t, pid).recs == t.recs - {pid} && PidRemove(t, pid).wait == t.wait
  {
  }

  lemma WholePages(kb: nat, pageKb: nat)
    requires pageKb > 0
    ensures kb / pageKb * pageKb <= kb < (kb / pageKb + 1) * pageKb
  {
    assert kb == kb / pageKb * pageKb + kb % pageKb;
  }

  /**
   The inner loop ends in one of three ways: out of candidates with its last
   answer, with pages the hook freed, or with exactly one signal whose pages
   are the answer.
   */
  lemma {:induction false} TryOutcome(cfg: Cfg, env: Env, w: World, i: int, h: bool, last: int)
    requires WellFormed(w.table) && InRange(i) && cfg.pageKb > 0 && last <= 0
    ensures var (u, r) := TryScore(cfg, env, w, i, h, last);
            && OnlyAt(w.table, u.table, i) && Scanned(w, u) && Grew(w.table, w.log, u.log, i, i)
            && ((u.log == w.log && r <= 0 && (r == 0 ==> last == 0) && Exhausted(env, |w.scans|, u, i, h))
                || (u.log == w.log && r > 0)
                || (|u.log| == |w.log| + 1 && u.log[|w.log|].pages == r))
            && (w.table.slots[SlotOf(i)] == [] ==> r == last)
    decreases |w.table.recs|
  {
    hide WellFormed, KillOne, Pick, Exhausted;
    PickOutcome(env, w, i, h);
    if w.table.slots[SlotOf(i)] == [] { PickEmpty(env, w, i, h); }
    var (w1, c) := Pick(env, w, i, h);
    if c.Some? {
      KillStep(cfg, env, w1, c.value);
      var (w2, r) := KillOne(cfg, env, w1, c.value);
      if r < 0 {
        TryOutcome(cfg, env, w2, i, h, r);
        var u := TryScore(cfg, env, w2, i, h, r).0;
        if Exhausted(env, |w2.scans|, u, i, h) {
          ExhaustedBefore(env, |w.scans|, |w2.scans|, u, i, h);
        }
      }
    }
  }

  lemma ExhaustedBefore(env: Env, base: nat, later: nat, u: World, i: int, h: bool)
    requires |u.table.slots| == SLOTS && InRange(i) && base <= later && Exhausted(env, later, u, i, h)
    ensures Exhausted(env, base, u, i, h)
  {
  }

  /** Nothing more was to be had at score j since w: no candidate is left, or a signal there freed no page. */
  ghost predicate Spent(env: Env, w: World, u: World, j: int, heaviest: bool)
    requires |u.table.slots| == SLOTS && InRange(j)
  {
    || Exhausted(env, |w.scans|, u, j, heaviest)
    || exists k :: |w.log| <= k < |u.log| && u.log[k].score == j && u.log[k].pages == 0
  }

  /** Is the list of score j searched for its heaviest record, in a search that is in mode h above it? */
  predicate Mode(h: bool, j: int) {
    h || j <= PERCEPTIBLE_APP_ADJ
  }

  /**
   How the signals of a search follow one another: their scores fall, every one
   before the last freed no page, and one that freed pages, like one at the
   score where the search stopped, is the last and freed what the search answers.
   */
  ghost predicate Falls(log: seq<Signal>, log': seq<Signal>, r: int, stop: int) {
    forall k | |log| <= k < |log'| ::
      && log'[k].score >= stop
      && (forall j | |log| <= j < k :: log'[j].score > log'[k].score && log'[j].pages == 0)
      && (log'[k].pages > 0 || log'[k].score == stop ==>
            k == |log'| - 1 && r > 0 && log'[k].pages == r && log'[k].score == stop)
  }

  /**
   How a search from score i ends at `stop` with answer r. Above the stop every
   score is spent, below it nothing was touched, and every signal went to a
   record of score at least `min`. An answer of 0 means every score down to
   `min` is spent; a negative answer means the records tried at the stop were
   all stale and none is left there. A positive answer is what the last signal
   freed, at the stop, or what the hook did, with no signal there.
   */
  ghost predicate Stopped(env: Env, w: World, u: World, r: int, i: int, min: int, h: bool, stop: int)
    requires |w.table.slots| == |u.table.slots| == SLOTS && ADJ_MIN <= min && i <= ADJ_MAX
  {
    && (r == 0 ==> stop == min - 1) && (r != 0 ==> min <= stop <= i)
    && Scanned(w, u) && Grew(w.table, w.log, u.log, min, i)
    && (forall j | stop < j <= i && min <= j :: Spent(env, w, u, j, Mode(h, j)))
    && (forall j | InRange(j) && (j > i || j < stop || j < min) :: u.table.slots[SlotOf(j)] == w.table.slots[SlotOf(j)])
    && (forall pid | pid in u.table.recs :: pid in w.table.recs && u.table.recs[pid] == w.table.recs[pid])
    && (r < 0 ==> Exhausted(env, |w.scans|, u, stop, Mode(h, stop)) && w.table.slots[SlotOf(stop)] != [])
    && Falls(w.log, u.log, r, stop)
  }

  /** What one score means for the search: it stops there, or the score is spent. */
  lemma ScoreEnds(cfg: Cfg, env: Env, w: World, i: int, min: int, h: bool)
    requires WellFormed(w.table) && ADJ_MIN <= min <= i <= ADJ_MAX && cfg.pageKb > 0
    ensures var (w1, r) := TryScore(cfg, env, w, i, Mode(h, i), 0);
            && OnlyAt(w.table, w1.table, i) && Scanned(w, w1) && Grew(w.table, w.log, w1.log, i, i)
            && |w1.log| <= |w.log| + 1
            && (if r != 0 then Stopped(env, w, w1, r, i, min, h, i)
                else Spent(env, w, w1, i, Mode(h, i)) && (|w1.log| > |w.log| ==> w1.log[|w.log|].pages == 0))
  {
    hide TryScore, Exhausted;
    TryOutcome(cfg, env, w, i, Mode(h, i), 0);
  }

  lemma NoScore(env: Env, w: World, i: int, min: int, h: bool)
    requires |w.table.slots| == SLOTS && ADJ_MIN <= min && i <= ADJ_MAX && i < min
    ensures Stopped(env, w, w, 0, i, min, h, min - 1)
  {
  }

  lemma {:induction false} FindStops(cfg: Cfg, env: Env, w: World, i: int, min: int, h: bool) returns (stop: int)
    requires WellFormed(w.table) && ADJ_MIN <= min && i <= ADJ_MAX && cfg.pageKb > 0
    ensures var (u, r) := Find(cfg, env, w, i, min, h);
            Stopped(env, w, u, r, i, min, h, stop)
    decreases if i < min then 0 else i - min + 1
  {
    hide TryScore, Stopped, Spent, WellFormed;
    if i < min {
      stop := min - 1;
      SlotCount(w.table);
      NoScore(env, w, i, min, h);
    } else {
      var h' := Mode(h, i);
      var (w1, r) := TryScore(cfg, env, w, i, h', 0);
      ScoreEnds(cfg, env, w, i, min, h);
      if r != 0 {
        stop := i;
      } else {
        stop := FindStops(cfg, env, w1, i - 1, min, h');
        var (u, r') := Find(cfg, env, w1, i - 1, min, h');
        SlotCount(u.table);
        OneMore(env, w, w1, u, r', i, min, h, stop);
      }
    }
  }

  lemma FallsOn(log: seq<Signal>, log1: seq<Signal>, log2: seq<Signal>, r: int, i: int, stop: int)
    requires log <= log1 && |log1| <= |log| + 1 && log1 <= log2 && stop < i
    requires |log1| > |log| ==> log1[|log|].score == i && log1[|log|].pages == 0
    requires Falls(log1, log2, r, stop) && forall k | |log1| <= k < |log2| :: log2[k].score < i
    ensures Falls(log, log2, r, stop)
  {
    assert |log1| > |log| ==> log2[|log|] == log1[|log|];
  }

  /** A score that answered 0, followed by a search below it. */
  lemma OneMore(env: Env, w: World, w1: World, u: World, r: int, i: int, min: int, h: bool, stop: int)
    requires |w.table.slots| == |w1.table.slots| == |u.table.slots| == SLOTS && ADJ_MIN <= min <= i <= ADJ_MAX
    requires OnlyAt(w.table, w1.table, i) && Scanned(w, w1) && Grew(w.table, w.log, w1.log, i, i)
    requires |w1.log| <= |w.log| + 1 && (|w1.log| > |w.log| ==> w1.log[|w.log|].pages == 0)
    requires Spent(env, w, w1, i, Mode(h, i))
    requires Stopped(env, w1, u, r, i - 1, min, Mode(h, i), stop)
    ensures Stopped(env, w, u, r, i, min, h, stop)
  {
    hide Exhausted, Falls, Spent;
    SpentKept(env, w, w1, u, i, Mode(h, i));
    FallsOn(w.log, w1.log, u.log, r, i, stop);
    forall j | stop < j < i && min <= j ensures Spent(env, w, u, j, Mode(h, j)) {
      assert Mode(Mode(h, i), j) == Mode(h, j);
      SpentBefore(env, w, w1, u, j, Mode(h, j));
    }
    if r < 0 {
      ExhaustedBefore(env, |w.scans|, |w1.scans|, u, stop, Mode(h, stop));
    }
    forall k | |w.log| <= k < |u.log|
      ensures && min <= u.log[k].score <= i && u.log[k].pid in w.table.recs
              && w.table.recs[u.log[k].pid].oomadj == u.log[k].score && w.table.recs[u.log[k].pid].valid
    {
      if k < |w1.log| { assert u.log[k] == w1.log[k]; }
    }
  }

  lemma SpentBefore(env: Env, w: World, w1: World, u: World, j: int, h: bool)
    requires |u.table.slots| == SLOTS && InRange(j) && w.scans <= w1.scans && w.log <= w1.log
    requires Spent(env, w1, u, j, h)
    ensures Spent(env, w, u, j, h)
  {
  }

  lemma SpentKept(env: Env, w: World, w1: World, u: World, j: int, h: bool)
    requires |w1.table.slots| == |u.table.slots| == SLOTS && InRange(j)
    requires u.table.slots[SlotOf(j)] == w1.table.slots[SlotOf(j)] && w1.scans <= u.scans && w1.log <= u.log
    requires Spent(env, w, w1, j, h)
    ensures Spent(env, w, u, j, h)
  {
    if Exhausted(env, |w.scans|, w1, j, h) {
      if w1.table.slots[SlotOf(j)] != [] {
        var k :| |w.scans| <= k < |w1.scans| && ReadZero(env, w1, j, k);
        assert ReadZero(env, u, j, k);
      }
    } else {
      var k :| |w.log| <= k < |w1.log| && w1.log[k].score == j && w1.log[k].pages == 0;
      assert u.log[k] == w1.log[k];
    }
  }

  // ---------------------------------------------------------------- order of the attempts

  /** Removing the tail of a list shortens it by one. */
  lemma TailDropped(t: Table, i: int, pid: int)
    requires WellFormed(t) && InRange(i)
    requires var l := t.slots[SlotOf(i)]; l != [] && l[|l| - 1] == pid
    ensures var l := t.slots[SlotOf(i)]; PidRemove(t, pid).slots[SlotOf(i)] == l[..|l| - 1]
  {
    var l := t.slots[SlotOf(i)];
    SlotEntry(t, SlotOf(i), |l| - 1, pid);
    WithoutAt(l, pid, |l| - 1);
  }

  lemma TailPick(env: Env, w: World, i: int)
    requires WellFormed(w.table) && InRange(i)
    ensures |w.table.slots| == SLOTS
    ensures var l := w.table.slots[SlotOf(i)];
            Pick(env, w, i, false) == (w, if l == [] then None else Some(l[|l| - 1]))
            && (l != [] ==> l[|l| - 1] in w.table.recs)
  {
    var l := w.table.slots[SlotOf(i)];
    if l != [] { SlotEntry(w.table, SlotOf(i), |l| - 1, l[|l| - 1]); }
  }

  /**
   In tail mode the process signalled at a score is the one nearest to the tail
   that was not stale: those behind it are gone.
   */
  lemma {:induction false} TryTail(cfg: Cfg, env: Env, w: World, i: int, last: int) returns (k: int)
    requires WellFormed(w.table) && InRange(i) && cfg.pageKb > 0
    ensures var l := w.table.slots[SlotOf(i)];
            var u := TryScore(cfg, env, w, i, false, last).0;
            u.log != w.log ==>
              && |u.log| == |w.log| + 1 && 0 <= k < |l| && u.log[|w.log|].pid == l[k]
              && forall m | k <= m < |l| :: l[m] !in u.table.recs
    decreases |w.table.slots[SlotOf(i)]|
  {
    hide WellFormed, KillOne, Pick;
    TailPick(env, w, i);
    k := 0;
    var l := w.table.slots[SlotOf(i)];
    if l != [] {
      var n := |l| - 1;
      var pid := l[n];
      KillStep(cfg, env, w, pid);
      KillGone(cfg, env, w, pid);
      var (w1, r) := KillOne(cfg, env, w, pid);
      if r < 0 {
        TailDropped(w.table, i, pid);
        k := TryTail(cfg, env, w1, i, r);
        TryOutcomeKeys(cfg, env, w1, i, r);
      } else {
        k := n;
      }
    }
  }

  lemma KillGone(cfg: Cfg, env: Env, w: World, pid: int)
    requires WellFormed(w.table) && pid in w.table.recs && cfg.pageKb > 0
    ensures var (u, r) := KillOne(cfg, env, w, pid);
            && (u.log != w.log || r < 0 ==> pid !in u.table.recs)
            && (r < 0 ==> u.table == PidRemove(w.table, pid))
  {
  }

  lemma TryOutcomeKeys(cfg: Cfg, env: Env, w: World, i: int, last: int)
    requires WellFormed(w.table) && InRange(i) && cfg.pageKb > 0 && last <= 0
    ensures forall pid | pid in TryScore(cfg, env, w, i, false, last).0.table.recs :: pid in w.table.recs
  {
    TryOutcome(cfg, env, w, i, false, last);
  }

  /** The signalled record had, among the records of its list in w, only such behind it that are gone in u. */
  ghost predicate TailFirst(w: World, u: World, e: Signal)
    requires |w.table.slots| == SLOTS && InRange(e.score)
  {
    exists k :: 0 <= k < |w.table.slots[SlotOf(e.score)]| && EndsAt(w, u, e, k)
  }

  ghost predicate EndsAt(w: World, u: World, e: Signal, k: int)
    requires |w.table.slots| == SLOTS && InRange(e.score) && 0 <= k < |w.table.slots[SlotOf(e.score)]|
  {
    var l := w.table.slots[SlotOf(e.score)];
    l[k] == e.pid && forall m | k <= m < |l| :: l[m] !in u.table.recs
  }

  /** Over a whole search, every signal sent in tail mode went to the rearmost record of its list that was not stale. */
  lemma {:induction false} FindTail(cfg: Cfg, env: Env, w: World, i: int, min: int, h: bool)
    requires WellFormed(w.table) && ADJ_MIN <= min && i <= ADJ_MAX && cfg.pageKb > 0
    ensures var u := Find(cfg, env, w, i, min, h).0;
            forall k | |w.log| <= k < |u.log| && InRange(u.log[k].score) && !Mode(h, u.log[k].score) ::
              TailFirst(w, u, u.log[k])
    decreases if i < min then 0 else i - min + 1
  {
    hide WellFormed, TryScore, Exhausted, Spent;
    if i >= min {
      var h' := h || i <= PERCEPTIBLE_APP_ADJ;
      var (w1, r) := TryScore(cfg, env, w, i, h', 0);
      TryOutcome(cfg, env, w, i, h', 0);
      if !h' {
        var k := TryTail(cfg, env, w, i, 0);
        assert w1.log != w.log ==> EndsAt(w, w1, w1.log[|w.log|], k);
      }
      if r == 0 {
        var (u, _) := Find(cfg, env, w1, i - 1, min, h');
        var stop := FindStops(cfg, env, w1, i - 1, min, h');
        FindTail(cfg, env, w1, i - 1, min, h');
        TailKept(w, w1, u, i, min, h);
      }
    }
  }

  lemma TailKept(w: World, w1: World, u: World, i: int, min: int, h: bool)
    requires |w.table.slots| == SLOTS && OnlyAt(w.table, w1.table, i) && InRange(i)
    requires Grew(w.table, w.log, w1.log, i, i) && Grew(w1.table, w1.log, u.log, min, i - 1)
    requires forall pid | pid in u.table.recs :: pid in w1.table.recs
    requires forall k | |w.log| <= k < |w1.log| && !Mode(h, i) :: TailFirst(w, w1, w1.log[k])
    requires forall k | |w1.log| <= k < |u.log| && InRange(u.log[k].score) && !Mode(Mode(h, i), u.log[k].score) ::
               TailFirst(w1, u, u.log[k])
    ensures forall k | |w.log| <= k < |u.log| && InRange(u.log[k].score) && !Mode(h, u.log[k].score) ::
              TailFirst(w, u, u.log[k])
  {
    forall k | |w.log| <= k < |u.log| && InRange(u.log[k].score) && !Mode(h, u.log[k].score)
      ensures TailFirst(w, u, u.log[k])
    {
      var e := u.log[k];
      if k < |w1.log| {
        assert e == w1.log[k] && TailFirst(w, w1, e);
        var l := w.table.slots[SlotOf(e.score)];
        var m :| 0 <= m < |l| && EndsAt(w, w1, e, m);
        forall j | m <= j < |l| ensures l[j] !in u.table.recs {
          var x := l[j];
          assert x !in w1.table.recs;
        }
        assert EndsAt(w, u, e, m);
      } else {
        assert TailFirst(w1, u, e);
        var m :| 0 <= m < |w1.table.slots[SlotOf(e.score)]| && EndsAt(w1, u, e, m);
        assert EndsAt(w, u, e, m);
      }
    }
  }

  /** The n-th scan was of the signalled record's list and read no greater size of any record left there. */
  ghost predicate Outweighs(env: Env, u: World, e: Signal, n: int)
    requires |u.table.slots| == SLOTS && InRange(e.score) && 0 <= n < |u.scans|
  {
    var l, size := u.table.slots[SlotOf(e.score)], env.sizes(u.scans[n].tick);
    u.scans[n].score == e.score && size(e.pid) > 0 && forall k | 0 <= k < |l| :: size(l[k]) <= size(e.pid)
  }

  /** Nothing is left on the signalled record's list, or a scan since w found it to be the heaviest. */
  ghost predicate Heaviest(env: Env, w: World, u: World, e: Signal)
    requires |u.table.slots| == SLOTS && InRange(e.score)
  {
    u.table.slots[SlotOf(e.score)] == [] ||
    exists n :: |w.scans| <= n < |u.scans| && Outweighs(env, u, e, n)
  }

  /** The record a scan picks is at least as heavy as any it leaves; without a scan it was alone. */
  lemma PickHeaviest(env: Env, w: World, i: int)
    requires WellFormed(w.table) && InRange(i)
    ensures var (w1, c) := Pick(env, w, i, true);
            c.Some? ==>
              && |w1.table.slots| == SLOTS
              && (w1.table.slots[SlotOf(i)] == [c.value]
                  || (w1.scans == w.scans + [Scan(i, w.tick)] && env.sizes(w.tick)(c.value) > 0
                      && forall x | x in w1.table.slots[SlotOf(i)] ::
                           env.sizes(w.tick)(x) <= env.sizes(w.tick)(c.value)))
  {
    SlotCount(w.table);
    var l := w.table.slots[SlotOf(i)];
    if |l| != 1 {
      var size := env.sizes(w.tick);
      var k := BestIsFirstHeaviest(l, size);
      RemoveAllSlots(w.table, Failed(l, size));
      KeepMembers(l, Failed(l, size));
      SlotCount(Pick(env, w, i, true).0.table);
      hide WellFormed, RemoveAll, Failed, Best, Keep;
    }
  }

  lemma {:induction false} KeepMembers<T>(l: seq<T>, xs: seq<T>)
    ensures forall x | x in Keep(l, xs) :: x in l
  {
    if l != [] {
      KeepMembers(l[1..], xs);
    }
  }

  /** What is left of a list after one of its records was removed. */
  lemma KillLeaves(cfg: Cfg, env: Env, w: World, pid: int)
    requires WellFormed(w.table) && pid in w.table.recs && cfg.pageKb > 0
    ensures var u := KillOne(cfg, env, w, pid).0;
            var i := SlotOf(w.table.recs[pid].oomadj);
            && |u.table.slots| == |w.table.slots| == SLOTS
            && (u.log != w.log ==> u.table.slots[i] == Without(w.table.slots[i], pid))
  {
  }

  /** In heaviest mode the process signalled at a score is the heaviest found there. */
  lemma {:induction false} TryHeaviest(cfg: Cfg, env: Env, w: World, i: int, last: int)
    requires WellFormed(w.table) && InRange(i) && cfg.pageKb > 0
    ensures var u := TryScore(cfg, env, w, i, true, last).0;
            |u.table.slots| == SLOTS && w.scans <= u.scans
            && (|u.log| == |w.log| + 1 && u.log[|w.log|].score == i ==> Heaviest(env, w, u, u.log[|w.log|]))
    decreases |w.table.recs|
  {
    hide WellFormed, KillOne, Pick, Exhausted, Heaviest;
    PickOutcome(env, w, i, true);
    PickHeaviest(env, w, i);
    var (w1, c) := Pick(env, w, i, true);
    if c.Some? {
      KillStep(cfg, env, w1, c.value);
      KillLeaves(cfg, env, w1, c.value);
      var (w2, r) := KillOne(cfg, env, w1, c.value);
      if r < 0 {
        TryHeaviest(cfg, env, w2, i, r);
        var u := TryScore(cfg, env, w2, i, true, r).0;
        if |u.log| == |w.log| + 1 && u.log[|w.log|].score == i {
          HeaviestBefore(env, w, w2, u, u.log[|w.log|]);
        }
      } else if w2.log != w1.log {
        HeaviestHere(env, w, w1, w2, i, c.value);
      }
    }
  }

  lemma HeaviestBefore(env: Env, w: World, w1: World, u: World, e: Signal)
    requires |u.table.slots| == SLOTS && InRange(e.score) && w.scans <= w1.scans && Heaviest(env, w1, u, e)
    ensures Heaviest(env, w, u, e)
  {
  }

  lemma HeaviestHere(env: Env, w: World, w1: World, u: World, i: int, pid: int)
    requires |w1.table.slots| == |u.table.slots| == SLOTS && InRange(i) && u.scans == w1.scans && w.log < u.log
    requires u.table.slots[SlotOf(i)] == Without(w1.table.slots[SlotOf(i)], pid)
    requires u.log[|w.log|].pid == pid
    requires || w1.table.slots[SlotOf(i)] == [pid]
             || (w1.scans == w.scans + [Scan(i, w.tick)] && env.sizes(w.tick)(pid) > 0
                 && forall x | x in w1.table.slots[SlotOf(i)] :: env.sizes(w.tick)(x) <= env.sizes(w.tick)(pid))
    ensures u.log[|w.log|].score == i ==> Heaviest(env, w, u, u.log[|w.log|])
  {
    if u.log[|w.log|].score == i && w1.table.slots[SlotOf(i)] != [pid] {
      WithoutOnly(w1.table.slots[SlotOf(i)], pid);
      assert Outweighs(env, u, u.log[|w.log|], |w.scans|);
    }
  }

  lemma {:induction false} WithoutOnly<T>(l: seq<T>, x: T)
    ensures forall k | 0 <= k < |Without(l, x)| :: Without(l, x)[k] in l
  {
    if l != [] {
      WithoutOnly(l[1..], x);
    }
  }

  /**
   Over a whole search, every signal to a process of score 200 or lower, or to
   any in heaviest mode, went to the heaviest on its list: whatever is left there
   was read, in the scan that picked it, as no heavier.
   */
  lemma {:induction false} FindHeaviest(cfg: Cfg, env: Env, w: World, i: int, min: int, h: bool)
    requires WellFormed(w.table) && ADJ_MIN <= min && i <= ADJ_MAX && cfg.pageKb > 0
    ensures var u := Find(cfg, env, w, i, min, h).0;
            && |u.table.slots| == SLOTS
            && forall k | |w.log| <= k < |u.log| && InRange(u.log[k].score) && (h || u.log[k].score <= 200) ::
                 Heaviest(env, w, u, u.log[k])
    decreases if i < min then 0 else i - min + 1
  {
    hide WellFormed, TryScore, Exhausted, Spent, Heaviest;
    SlotCount(w.table);
    if i >= min {
      var h' := h || i <= PERCEPTIBLE_APP_ADJ;
      var (w1, r) := TryScore(cfg, env, w, i, h', 0);
      TryOutcome(cfg, env, w, i, h', 0);
      if h' {
        TryHeaviest(cfg, env, w, i, 0);
      }
      if r == 0 {
        var (u, _) := Find(cfg, env, w1, i - 1, min, h');
        var stop := FindStops(cfg, env, w1, i - 1, min, h');
        FindHeaviest(cfg, env, w1, i - 1, min, h');
        forall k | |w.log| <= k < |u.log| && InRange(u.log[k].score) && (h || u.log[k].score <= 200)
          ensures Heaviest(env, w, u, u.log[k])
        {
          if k < |w1.log| {
            assert u.log[k] == w1.log[k];
            HeaviestKept(env, w, w1, u, u.log[k]);
          } else {
            HeaviestBefore(env, w, w1, u, u.log[k]);
          }
        }
      }
    }
  }

  lemma HeaviestKept(env: Env, w: World, w1: World, u: World, e: Signal)
    requires |w1.table.slots| == |u.table.slots| == SLOTS && InRange(e.score) && Heaviest(env, w, w1, e)
    requires u.table.slots[SlotOf(e.score)] == w1.table.slots[SlotOf(e.score)] && w1.scans <= u.scans
    ensures Heaviest(env, w, u, e)
  {
    if u.table.slots[SlotOf(e.score)] != [] {
      var n :| |w.scans| <= n < |w1.scans| && Outweighs(env, w1, e, n);
      assert Outweighs(env, u, e, n);
    }
  }
}
