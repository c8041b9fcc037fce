/** The watchdog sweep over a registry that the stuck main thread is not changing. */
module Watchdog {
  import opened Tables
  import opened Registries
  import opened Victims
  import Commands

  /** Pids in tail-to-head order. */
  function Backwards(l: seq<int>): (b: seq<int>)
    ensures |b| == |l| && forall k | 0 <= k < |l| :: b[k] == l[|l| - 1 - k]
  {
    if l == [] then [] else [l[|l| - 1]] + Backwards(l[..|l| - 1])
  }

  /** Every record from score i down to 0, each list tail to head. */
  function Sweep(t: Table, i: int): seq<int>
    requires |t.slots| == SLOTS && i <= ADJ_MAX
    decreases if i < 0 then 0 else i + 1
  {
    if i < 0 then [] else Backwards(t.slots[SlotOf(i)]) + Sweep(t, i - 1)
  }

  /** The sweep meets exactly the records of non-negative score up to i, each once. */
  lemma {:induction false} SweepCovers(t: Table, i: int)
    requires WellFormed(t) && i <= ADJ_MAX
    ensures NoDup(Sweep(t, i))
    ensures forall pid :: pid in Sweep(t, i) <==> pid in t.recs && 0 <= t.recs[pid].oomadj <= i
    decreases if i < 0 then 0 else i + 1
  {
    if i >= 0 {
      var l := t.slots[SlotOf(i)];
      SweepCovers(t, i - 1);
      assert NoDup(l);
      forall pid ensures pid in Backwards(l) <==> pid in l {
        if pid in l { var k :| 0 <= k < |l| && l[k] == pid; assert Backwards(l)[|l| - 1 - k] == pid; }
      }
      assert forall pid | pid in l :: pid in t.recs && t.recs[pid].oomadj == i;
      var a, b := Backwards(l), Sweep(t, i - 1);
      forall j, k | 0 <= j < k < |a + b| ensures (a + b)[j] != (a + b)[k] {
        if j < |a| <= k { assert a[j] in a && b[k - |a|] in b; }
      }
    }
  }

  /** p stands nearer to the tail of l than q. */
  ghost predicate Behind(l: seq<int>, p: int, q: int) {
    exists j, k :: 0 <= j < k < |l| && l[j] == q && l[k] == p
  }

  /** The record of p has a higher score than that of q or, at the same score, is nearer to the tail. */
  ghost predicate Before(t: Table, p: int, q: int)
    requires WellFormed(t)
  {
    && p in t.recs && q in t.recs
    && (t.recs[p].oomadj > t.recs[q].oomadj
        || (t.recs[p].oomadj == t.recs[q].oomadj && Behind(t.slots[SlotOf(t.recs[p].oomadj)], p, q)))
  }

  lemma SweepAt(t: Table, i: int, a: int)
    requires WellFormed(t) && 0 <= i <= ADJ_MAX && 0 <= a < |Sweep(t, i)|
    ensures var l := t.slots[SlotOf(i)];
            var n := |l|;
            && |Sweep(t, i)| == n + |Sweep(t, i - 1)|
            && if a < n then Sweep(t, i)[a] == l[n - 1 - a] && l[n - 1 - a] in t.recs
                               && t.recs[l[n - 1 - a]].oomadj == i
               else Sweep(t, i)[a] == Sweep(t, i - 1)[a - n] && Sweep(t, i)[a] in t.recs
                    && t.recs[Sweep(t, i)[a]].oomadj < i
  {
    SlotCount(t);
    SweepCovers(t, i - 1);
    hide WellFormed;
    var l := t.slots[SlotOf(i)];
    var pid := Sweep(t, i)[a];
    if a < |l| {
      SlotEntry(t, SlotOf(i), |l| - 1 - a, pid);
    } else {
      assert Sweep(t, i - 1)[a - |l|] == pid;
    }
  }

  /** It goes from the highest score down and, within a list, from the tail to the head. */
  lemma {:induction false} SweepOrder(t: Table, i: int, a: int, b: int)
    requires WellFormed(t) && i <= ADJ_MAX && 0 <= a < b < |Sweep(t, i)|
    ensures Before(t, Sweep(t, i)[a], Sweep(t, i)[b])
    decreases if i < 0 then 0 else i + 1
  {
    if i >= 0 {
      SlotCount(t);
      SweepAt(t, i, a);
      SweepAt(t, i, b);
      hide WellFormed, Sweep, Behind;
      var l := t.slots[SlotOf(i)];
      var n := |l|;
      if b < n {
        StandsBehind(l, n - 1 - b, n - 1 - a);
      } else if a >= n {
        SweepOrder(t, i - 1, a - n, b - n);
      }
    }
  }

  lemma StandsBehind(l: seq<int>, j: int, k: int)
    requires 0 <= j < k < |l|
    ensures Behind(l, l[k], l[j])
  {
  }

  /** proc_adj_prev: the list neighbour, towards the head, of the record of `pid`; the anchor if there is none left. */
  method ProcAdjPrev(r: Registry, adj: int, pid: int) returns (p: Proc?)
    requires r.Valid() && InRange(adj) && r.lists[SlotOf(adj)] != []
    ensures forall k | 0 <= k < |r.lists[SlotOf(adj)]| && r.lists[SlotOf(adj)][k] == pid ::
              if k == 0 then p == r.heads[SlotOf(adj)]
              else p != null && p in r.live && p != r.heads[SlotOf(adj)] && p.pid == r.lists[SlotOf(adj)][k - 1]
    ensures pid !in r.lists[SlotOf(adj)] ==> p == null
  {
    ghost var s := SlotOf(adj);
    RingStart(r, s);
    assert r.SlotOk(s);
    var head := r.heads[SlotOf(adj)];
    ghost var k := |r.rings[s]| - 1;
    var curr := head.prev;
    while curr != head
      invariant -1 <= k < |r.rings[s]| && curr == Nth(head, r.rings[s], k)
      invariant forall j | k < j < |r.lists[s]| :: r.lists[s][j] != pid
      decreases k
    {
      assert Nth(head, r.rings[s], k - 1) == curr.prev;
      if curr.pid == pid {
        return curr.prev;
      }
      curr := curr.prev;
      k := k - 1;
    }
    return null;
  }

  function Copy(t: Table, pid: int): Option<Rec> {
    if pid in t.recs then Some(t.recs[pid]) else None
  }

  /** The record before that of `prev`, towards the head; the tail if `prev` is 0 or no longer listed. */
  ghost predicate Answers(t: Table, adj: int, prev: int, target: Option<Rec>)
    requires |t.slots| == SLOTS && InRange(adj)
  {
    var l := t.slots[SlotOf(adj)];
    && (prev == 0 || prev !in l ==> target == if l == [] then None else Copy(t, l[|l| - 1]))
    && (forall k | prev != 0 && 0 <= k < |l| && l[k] == prev :: target == if k == 0 then None else Copy(t, l[k - 1]))
  }

  /** A sweep that stands before entry k is answered entry k - 1. */
  lemma Resume(t: Table, adj: int, k: int, prev: int, target: Option<Rec>)
    requires WellFormed(t) && InRange(adj) && 0 !in t.recs && Answers(t, adj, prev, target)
    requires 0 <= k <= |t.slots[SlotOf(adj)]|
    requires prev == if k == |t.slots[SlotOf(adj)]| then 0 else t.slots[SlotOf(adj)][k]
    ensures target.None? <==> k == 0
    ensures k > 0 ==> var pid := t.slots[SlotOf(adj)][k - 1];
                      pid in t.recs && target == Some(t.recs[pid]) && target.value.pid == pid != 0
  {
    var l := t.slots[SlotOf(adj)];
    if k < |l| { assert l[k] in l; }
    if k > 0 { assert l[k - 1] in l; }
  }

  /** find_victim: a copy of the record to try next at this score, if any. */
  method FindVictim(r: Registry, adj: int, prev: int) returns (target: Option<Rec>)
    requires r.Valid() && InRange(adj) && (prev != 0 ==> r.Abs().slots[SlotOf(adj)] != [])
    ensures Answers(r.Abs(), adj, prev, target)
  {
    RingStart(r, SlotOf(adj));
    r.ListView();
    var p: Proc?;
    if prev == 0 {
      p := ProcAdjTail(r, adj);
    } else {
      p := ProcAdjPrev(r, adj, prev);
      if p == null {
        p := ProcAdjTail(r, adj);
      }
    }
    if p == null || p == r.heads[SlotOf(adj)] {
      target := None;
    } else {
      target := Some(Rec(p.pid, p.pidfd, p.uid, p.oomadj, p.regPid, p.valid));
    }
  }

  /** Signalling this record would kill it: the watchdog has not done so before. */
  predicate Killable(t: Table, ok: int -> bool, pid: int) {
    pid in t.recs && t.recs[pid].valid && ok(pid)
  }

  /**
   What a sweep reports: the entries looked at, in order, of which only the last
   one of a successful sweep could be killed.
   */
  ghost predicate Swept(t: Table, ok: int -> bool, killed: Option<int>, visited: seq<int>)
    requires |t.slots| == SLOTS
  {
    && visited <= Sweep(t, ADJ_MAX)
    && (forall k | 0 <= k < |visited| :: Killable(t, ok, visited[k]) <==> killed.Some? && k == |visited| - 1)
    && (killed.None? ==> visited == Sweep(t, ADJ_MAX))
    && (killed.Some? ==> visited != [] && killed.value == visited[|visited| - 1])
  }

  /** The first entry of `pids` that could be killed. */
  function FirstKillable(t: Table, ok: int -> bool, pids: seq<int>): Option<int> {
    if pids == [] then None else if Killable(t, ok, pids[0]) then Some(pids[0]) else FirstKillable(t, ok, pids[1..])
  }

  lemma {:induction false} FirstIs(t: Table, ok: int -> bool, pids: seq<int>, killed: Option<int>, visited: seq<int>)
    requires visited <= pids && (killed.None? ==> visited == pids)
    requires forall k | 0 <= k < |visited| :: Killable(t, ok, visited[k]) <==> killed.Some? && k == |visited| - 1
    requires killed.Some? ==> visited != [] && killed.value == visited[|visited| - 1]
    ensures killed == FirstKillable(t, ok, pids)
  {
    if |visited| > 0 && !(killed.Some? && |visited| == 1) {
      assert visited[1..] <= pids[1..];
      FirstIs(t, ok, pids[1..], killed, visited[1..]);
    }
  }

  lemma SweptFirst(t: Table, ok: int -> bool, killed: Option<int>, visited: seq<int>)
    requires |t.slots| == SLOTS && Swept(t, ok, killed, visited)
    ensures killed == FirstKillable(t, ok, Sweep(t, ADJ_MAX))
  {
    FirstIs(t, ok, Sweep(t, ADJ_MAX), killed, visited);
  }

  /** The rest of a sweep that stands before the k-th entry, from the head, of the list of `score`. */
  function Remaining(t: Table, score: int, k: int): seq<int>
    requires |t.slots| == SLOTS && score <= ADJ_MAX && (score >= 0 ==> 0 <= k <= |t.slots[SlotOf(score)]|)
  {
    if score < 0 then [] else Backwards(t.slots[SlotOf(score)][..k]) + Sweep(t, score - 1)
  }

  /** A sweep in progress: everything before the current place was looked at, and nothing of it could be killed. */
  ghost predicate Sweeping(t: Table, ok: int -> bool, visited: seq<int>, score: int, k: int)
    requires |t.slots| == SLOTS
  {
    && -1 <= score <= ADJ_MAX && (score >= 0 ==> 0 <= k <= |t.slots[SlotOf(score)]|)
    && Sweep(t, ADJ_MAX) == visited + Remaining(t, score, k)
    && (forall j | 0 <= j < |visited| :: !Killable(t, ok, visited[j]))
  }

  lemma Start(t: Table, ok: int -> bool)
    requires |t.slots| == SLOTS
    ensures Sweeping(t, ok, [], ADJ_MAX, |t.slots[SlotOf(ADJ_MAX)]|)
  {
    var l := t.slots[SlotOf(ADJ_MAX)];
    assert l[..|l|] == l;
  }

  lemma NextScore(t: Table, ok: int -> bool, visited: seq<int>, score: int)
    requires |t.slots| == SLOTS && score >= 0 && Sweeping(t, ok, visited, score, 0)
    ensures Sweeping(t, ok, visited, score - 1, if score == 0 then 0 else |t.slots[SlotOf(score - 1)]|)
  {
    if score > 0 {
      var l := t.slots[SlotOf(score - 1)];
      assert l[..|l|] == l;
    }
  }

  lemma NextEntry(t: Table, ok: int -> bool, visited: seq<int>, score: int, k: int)
    requires |t.slots| == SLOTS && score >= 0 && k > 0 && Sweeping(t, ok, visited, score, k)
    ensures var pid := t.slots[SlotOf(score)][k - 1];
            if Killable(t, ok, pid) then Swept(t, ok, Some(pid), visited + [pid])
            else Sweeping(t, ok, visited + [pid], score, k - 1)
  {
    hide Sweep;
    var l := t.slots[SlotOf(score)];
    assert l[..k][..k - 1] == l[..k - 1];
    assert Remaining(t, score, k) == [l[k - 1]] + Remaining(t, score, k - 1);
    hide Remaining, Backwards;
    assert Sweep(t, ADJ_MAX) == (visited + [l[k - 1]]) + Remaining(t, score, k - 1);
  }

  /** The loop of watchdog_callback; `ok` tells for which pids the signal succeeds. */
  method SweepOnce(r: Registry, ok: int -> bool) returns (killed: Option<int>, ghost visited: seq<int>)
    requires r.Valid() && 0 !in r.Abs().recs
    ensures Swept(r.Abs(), ok, killed, visited)
    ensures killed == FirstKillable(r.Abs(), ok, Sweep(r.Abs(), ADJ_MAX))
  {
    hide Registry.Valid, Registry.Abs, Sweeping, Swept, Answers, Sweep, FirstKillable;
    ghost var t := r.Abs();
    killed, visited := None, [];
    var prev := 0;
    var score := ADJ_MAX;
    ghost var k := |t.slots[SlotOf(score)]|;
    Start(t, ok);
    while score >= 0
      invariant -1 <= score <= ADJ_MAX
      invariant score >= 0 ==> 0 <= k <= |t.slots[SlotOf(score)]|
      invariant score >= 0 ==> prev == if k == |t.slots[SlotOf(score)]| then 0 else t.slots[SlotOf(score)][k]
      invariant Sweeping(t, ok, visited, score, k)
      decreases score, k
    {
      var target := FindVictim(r, score, prev);
      Resume(t, score, k, prev, target);
      if target.None? {
        NextScore(t, ok, visited, score);
        score := score - 1;
        prev := 0;
        k := if score < 0 then 0 else |t.slots[SlotOf(score)]|;
      } else {
        NextEntry(t, ok, visited, score, k);
        var pid := target.value.pid;
        k := k - 1;
        visited := visited + [pid];
        if target.value.valid && ok(pid) {
          SweptFirst(t, ok, Some(pid), visited);
          return Some(pid), visited;
        }
        prev := pid;
      }
    }
    Finished(t, ok, visited, score, k);
    SweptFirst(t, ok, None, visited);
  }

  lemma Finished(t: Table, ok: int -> bool, visited: seq<int>, score: int, k: int)
    requires |t.slots| == SLOTS && score < 0 && Sweeping(t, ok, visited, score, k)
    ensures Swept(t, ok, None, visited)
  {
  }

  /** Of the records looked at, an invalidated one is passed over. */
  lemma OnlyLastKilled(t: Table, ok: int -> bool, killed: Option<int>, visited: seq<int>)
    requires WellFormed(t) && Swept(t, ok, killed, visited)
    ensures forall k | 0 <= k < |visited| ::
              visited[k] in t.recs
              && (t.recs[visited[k]].valid && ok(visited[k]) <==> killed.Some? && k == |visited| - 1)
  {
    hide WellFormed, Sweep;
    SlotCount(t);
    SweepCovers(t, ADJ_MAX);
    forall k | 0 <= k < |visited| ensures visited[k] in t.recs {
      var pid := visited[k];
      assert Sweep(t, ADJ_MAX)[k] == pid;
    }
  }

  /** watchdog_callback: the killed record is only invalidated, since another thread may not unlink it. */
  method WatchdogCallback(r: Registry, ok: int -> bool) returns (killed: Option<int>, ghost visited: seq<int>)
    requires r.Valid() && 0 !in r.Abs().recs
    modifies r.repr`valid
    ensures r.Valid() && Swept(old(r.Abs()), ok, killed, visited)
    ensures killed == FirstKillable(old(r.Abs()), ok, Sweep(old(r.Abs()), ADJ_MAX))
    ensures forall k | 0 <= k < |visited| ::
              var t := old(r.Abs());
              visited[k] in t.recs
              && (t.recs[visited[k]].valid && ok(visited[k]) <==> killed.Some? && k == |visited| - 1)
    ensures r.Abs() == if killed.None? then old(r.Abs()) else PidInvalidate(old(r.Abs()), killed.value)
  {
    hide Registry.Valid, Swept;
    killed, visited := SweepOnce(r, ok);
    OnlyLastKilled(r.Abs(), ok, killed, visited);
    if killed.Some? {
      Commands.PidInvalidate(r, killed.value);
    }
  }
}
