/** Choosing a victim inside one score list: proc_adj_tail, proc_get_heaviest, find_victim. */
module Victims {
  import opened Tables
  import opened Registries

  /** Pids of `l` whose size read failed, in list order. */
  function Failed(l: seq<int>, size: int -> int): seq<int> {
    if l == [] then [] else
      var n := |l| - 1;
      Failed(l[..n], size) + if size(l[n]) < 0 then [l[n]] else []
  }

  /** The scan of proc_get_heaviest: a later entry replaces the best one only if it is strictly heavier. */
  function Best(l: seq<int>, size: int -> int): Option<int> {
    if l == [] then None else
      var n := |l| - 1;
      var b := Best(l[..n], size);
      if size(l[n]) > (if b.None? then 0 else size(b.value)) then Some(l[n]) else b
  }

  /** Position k holds the first entry of greatest size, and that size is positive. */
  ghost predicate FirstHeaviest(l: seq<int>, size: int -> int, k: int) {
    && 0 <= k < |l| && size(l[k]) > 0
    && (forall j | 0 <= j < |l| :: size(l[j]) <= size(l[k]))
    && (forall j | 0 <= j < k :: size(l[j]) < size(l[k]))
  }

  /** The scan answers the first record of greatest positive size, or none if no size is positive. */
  lemma {:induction false} BestIsFirstHeaviest(l: seq<int>, size: int -> int) returns (k: int)
    ensures Best(l, size).None? ==> forall j | 0 <= j < |l| :: size(l[j]) <= 0
    ensures Best(l, size).Some? ==> FirstHeaviest(l, size, k) && Best(l, size) == Some(l[k])
  {
    k := -1;
    if l != [] {
      var n := |l| - 1;
      k := BestIsFirstHeaviest(l[..n], size);
      assert forall j | 0 <= j < n :: l[..n][j] == l[j];
      if Best(l, size) != Best(l[..n], size) { k := n; }
    }
  }

  /** The records that failed are exactly those with a negative size. */
  lemma {:induction false} FailedMembers(l: seq<int>, size: int -> int)
    ensures forall x :: x in Failed(l, size) <==> x in l && size(x) < 0
  {
    if l != [] {
      var n := |l| - 1;
      FailedMembers(l[..n], size);
      assert l == l[..n] + [l[n]];
    }
  }

  lemma RingStart(r: Registry, s: int)
    requires r.Valid() && 0 <= s < SLOTS
    ensures |r.rings| == |r.lists| == |r.heads| == SLOTS
    ensures r.heads[s].next == Nth(r.heads[s], r.rings[s], 0)
    ensures r.heads[s].prev == Nth(r.heads[s], r.rings[s], |r.rings[s]| - 1)
    ensures r.heads[s] !in r.rings[s] && |r.rings[s]| == |r.lists[s]|
    ensures forall k | 0 <= k < |r.rings[s]| :: r.rings[s][k].pid == r.lists[s][k] && r.rings[s][k] in r.live
  {
    assert r.SlotOk(s);
    assert r.heads[s] == Nth(r.heads[s], r.rings[s], -1) && r.heads[s] == Nth(r.heads[s], r.rings[s], |r.rings[s]|);
  }

  lemma Middle<T>(kept: seq<T>, ns: seq<T>, n: int)
    requires 0 <= n < |ns|
    ensures var all, k := kept + ns[n..], |kept|;
            && all[k] == ns[n] && all[..k] == kept && all[k + 1..] == ns[n + 1..]
            && all == (kept + [ns[n]]) + ns[n + 1..]
  {
  }

  /** Where a walk over a ring that was `ns` stands. */
  lemma RingPlace(r: Registry, s: int, kept: seq<Proc>, ns: seq<Proc>, n: int)
    requires r.Valid() && 0 <= s < SLOTS && 0 <= n <= |ns| && r.rings[s] == kept + ns[n..]
    ensures |r.heads| == SLOTS && (Nth(r.heads[s], ns, n) == r.heads[s] <==> n == |ns|)
    ensures n < |ns| ==> Nth(r.heads[s], ns, n) == ns[n] && ns[n] in r.live && SlotOf(ns[n].oomadj) == s
  {
    hide Registry.BucketOk;
    assert r.SlotOk(s);
    if n < |ns| {
      Middle(kept, ns, n);
    }
  }

  /** Walking on: the next node, and what is left with or without the current one. */
  lemma RingStep(r: Registry, s: int, kept: seq<Proc>, ns: seq<Proc>, n: int)
    requires r.Valid() && 0 <= s < SLOTS && 0 <= n < |ns| && r.rings[s] == kept + ns[n..]
    ensures |r.heads| == SLOTS && ns[n] != r.heads[s] && ns[n].next == Nth(r.heads[s], ns, n + 1)
    ensures Without(r.rings[s], ns[n]) == kept + ns[n + 1..]
    ensures r.rings[s] == (kept + [ns[n]]) + ns[n + 1..]
  {
    hide Registry.BucketOk, Without;
    var k, head, ring := |kept|, r.heads[s], r.rings[s];
    Middle(kept, ns, n);
    assert r.SlotOk(s);
    assert ring[k] == Nth(head, ring, k);
    assert Nth(head, ring, k).next == Nth(head, ring, k + 1);
    assert Nth(head, ring, k + 1) == Nth(head, ns, n + 1);
    WithoutAt(ring, ns[n], k);
  }

  method ProcAdjTail(r: Registry, adj: int) returns (p: Proc?)
    requires r.Valid() && InRange(adj)
    ensures var l := r.Abs().slots[SlotOf(adj)];
            if l == [] then p == null else p != null && p in r.live && p.pid == l[|l| - 1]
  {
    RingStart(r, SlotOf(adj));
    var head := r.heads[SlotOf(adj)];
    p := if head.prev == head then null else head.prev;
  }

  /** An entry whose size could not be read leaves the list that is being walked. */
  method DropFailed(r: Registry, ghost s: int, curr: Proc, pid: int)
    requires r.Valid() && 0 <= s < SLOTS && curr in r.live && curr.pid == pid && SlotOf(curr.oomadj) == s
    modifies r`procs, r`live, r`rings, r`lists, r`buckets, r.pidhash, r.waits`fds, r.waits`faults
    modifies r.repr`next, r.repr`prev, r.repr`pidhashNext
    ensures r.Valid() && r.Abs() == PidRemove(old(r.Abs()), pid)
    ensures |r.rings| == SLOTS && r.rings[s] == Without(old(r.rings[s]), curr)
    ensures r.live == old(r.live) - {curr}
  {
    hide Registry.Core, WellFormed, Without;
    r.Registered(curr, pid);
    RingStart(r, s);
    var _ := r.PidRemove(pid);
  }

  /** What one more entry adds to the outcome of the scan. */
  lemma ScanStep(t: Table, l: seq<int>, n: int, size: int -> int)
    requires WellFormed(t) && 0 <= n < |l|
    ensures size(l[n]) < 0 ==>
              RemoveAll(t, Failed(l[..n + 1], size)) == PidRemove(RemoveAll(t, Failed(l[..n], size)), l[n])
    ensures size(l[n]) >= 0 ==> Failed(l[..n + 1], size) == Failed(l[..n], size)
    ensures Best(l[..n + 1], size) ==
            if size(l[n]) > (if Best(l[..n], size).None? then 0 else size(Best(l[..n], size).value)) then Some(l[n])
            else Best(l[..n], size)
  {
    hide WellFormed, PidRemove;
    assert l[..n + 1][..n] == l[..n];
    var f := Failed(l[..n], size);
    assert (f + [l[n]])[..|f|] == f;
  }

  /** The best entry so far is a live record of that pid and size. */
  ghost predicate Holds(r: Registry, best: Option<int>, p: Proc?, maxsize: int, size: int -> int)
    reads r, p
  {
    if best.None? then p == null && maxsize == 0
    else p != null && p in r.live && p.pid == best.value && maxsize == size(best.value) > 0
  }

  /** proc_get_heaviest; `size` is what the size reads of this scan answer. */
  method ProcGetHeaviest(r: Registry, adj: int, size: int -> int) returns (p: Proc?)
    requires r.Valid() && InRange(adj)
    modifies r`procs, r`live, r`rings, r`lists, r`buckets, r.pidhash, r.waits`fds, r.waits`faults
    modifies r.repr`next, r.repr`prev, r.repr`pidhashNext
    ensures r.Valid()
    ensures var l := old(r.Abs()).slots[SlotOf(adj)];
            if |l| == 1 then
              r.Abs() == old(r.Abs()) && p != null && p in r.live && p.pid == l[0]
            else
              && r.Abs() == RemoveAll(old(r.Abs()), Failed(l, size))
              && (Best(l, size).None? ==> p == null)
              && (Best(l, size).Some? ==> p != null && p in r.live && p.pid == Best(l, size).value)
  {
    hide Registry.Core, WellFormed, Without;
    ghost var s := SlotOf(adj);
    RingStart(r, s);
    var head := r.heads[SlotOf(adj)];
    var curr := head.next;
    if curr != head {
      RingPlace(r, s, [], r.rings[s], 0);
      RingStep(r, s, [], r.rings[s], 0);
      if curr.next == head {
        return curr;
      }
    }
    p := Scan(r, s, head, size);
  }

  /** One entry of the scan: dropped if its size could not be read, else the best so far if it is heavier. */
  method Weigh(r: Registry, ghost s: int, curr: Proc, p: Proc?, maxsize: int, size: int -> int, ghost best: Option<int>)
    returns (heaviest: Proc?, most: int)
    requires r.Valid() && 0 <= s < SLOTS && |r.rings| == SLOTS && curr in r.live && SlotOf(curr.oomadj) == s
    requires Holds(r, best, p, maxsize, size)
    modifies r`procs, r`live, r`rings, r`lists, r`buckets, r.pidhash, r.waits`fds, r.waits`faults
    modifies r.repr`next, r.repr`prev, r.repr`pidhashNext
    ensures r.Valid() && |r.rings| == SLOTS
    ensures size(curr.pid) < 0 ==>
              r.Abs() == PidRemove(old(r.Abs()), curr.pid) && r.rings[s] == Without(old(r.rings[s]), curr)
    ensures size(curr.pid) >= 0 ==> r.Abs() == old(r.Abs()) && r.rings == old(r.rings)
    ensures Holds(r, if size(curr.pid) > maxsize then Some(curr.pid) else best, heaviest, most, size)
  {
    hide Registry.Valid, Registry.Core, WellFormed, Without, Registry.Abs, PidRemove;
    heaviest, most := p, maxsize;
    var pid := curr.pid;
    var tasksize := size(pid);
    if tasksize < 0 {
      DropFailed(r, s, curr, pid);
    } else if tasksize > maxsize {
      most := tasksize;
      heaviest := curr;
    }
  }

  /** The loop of proc_get_heaviest. */
  method Scan(r: Registry, ghost s: int, head: Proc, size: int -> int) returns (p: Proc?)
    requires r.Valid() && 0 <= s < SLOTS && head == r.heads[s]
    modifies r`procs, r`live, r`rings, r`lists, r`buckets, r.pidhash, r.waits`fds, r.waits`faults
    modifies r.repr`next, r.repr`prev, r.repr`pidhashNext
    ensures r.Valid()
    ensures var l := old(r.lists[s]);
            && r.Abs() == RemoveAll(old(r.Abs()), Failed(l, size))
            && (Best(l, size).None? ==> p == null)
            && (Best(l, size).Some? ==> p != null && p in r.live && p.pid == Best(l, size).value)
  {
    hide Registry.Valid, Registry.Core, WellFormed, Without, Registry.Abs, Failed, Best, RemoveAll, PidRemove, Nth;
    RingStart(r, s);
    ghost var l := r.lists[s];
    ghost var ns := r.rings[s];
    ghost var kept: seq<Proc>, n := [], 0;
    var curr := head.next;
    var maxsize := 0;
    p := null;
    ScanNone(r.Abs(), l, size);
    while curr != head
      invariant r.Valid() && |r.rings| == |r.heads| == SLOTS && head == r.heads[s]
      invariant 0 <= n <= |ns| && r.rings[s] == kept + ns[n..] && curr == Nth(head, ns, n)
      invariant r.Abs() == RemoveAll(old(r.Abs()), Failed(l[..n], size))
      invariant Holds(r, Best(l[..n], size), p, maxsize, size)
      decreases |ns| - n
    {
      RingPlace(r, s, kept, ns, n);
      RingStep(r, s, kept, ns, n);
      ScanStep(old(r.Abs()), l, n, size);
      var next := curr.next;
      ghost var keeps := size(curr.pid) >= 0;
      p, maxsize := Weigh(r, s, curr, p, maxsize, size, Best(l[..n], size));
      kept := if keeps then kept + [curr] else kept;
      curr := next;
      n := n + 1;
    }
    RingPlace(r, s, kept, ns, n);
    assert l[..n] == l;
  }

  lemma ScanNone(t: Table, l: seq<int>, size: int -> int)
    requires WellFormed(t)
    ensures RemoveAll(t, Failed(l[..0], size)) == t && Best(l[..0], size).None?
  {
  }
}
