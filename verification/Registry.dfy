module Registries {
  import opened Tables

  const BUCKETS: nat := 1024

  class Proc {
    var next: Proc
    var prev: Proc
    var pid: int
    var pidfd: int
    var uid: int
    var oomadj: int
    var regPid: int
    var valid: bool
    var pidhashNext: Proc?
    ghost const anchor: int

    constructor Anchor(ghost slot: int)
      ensures next == this && prev == this && anchor == slot
    {
      next, prev, pidhashNext, anchor := this, this, null, slot;
      pid, pidfd, uid, oomadj, regPid, valid := 0, 0, 0, 0, 0, false;
    }

    constructor Record(r: Rec)
      ensures RecOf() == r && anchor == -1 && pidhashNext == null
    {
      next, prev, pidhashNext, anchor := this, this, null, -1;
      pid, pidfd, uid, oomadj, regPid, valid := r.pid, r.pidfd, r.uid, r.oomadj, r.regPid, r.valid;
    }

    function RecOf(): Rec
      reads this
    {
      Rec(pid, pidfd, uid, oomadj, regPid, valid)
    }
  }

  /** The k-th node of a ring; the anchor sits at both ends. */
  ghost function Nth(head: Proc, ns: seq<Proc>, k: int): Proc {
    if 0 <= k < |ns| then ns[k] else head
  }

  /** The circular doubly linked list anchored at `head` holds exactly `ns`, read along `next`. */
  ghost predicate RingOf(head: Proc, ns: seq<Proc>)
    reads head, ns
  {
    && head !in ns && NoDup(ns)
    && (forall j, k | -1 <= j < |ns| && k == j + 1 ::
          Nth(head, ns, j).next == Nth(head, ns, k) && Nth(head, ns, k).prev == Nth(head, ns, j))
  }

  ghost function Link(ns: seq<Proc>, k: int): Proc? {
    if 0 <= k < |ns| then ns[k] else null
  }

  /** The singly linked chain starting at `first` holds exactly `ns`. */
  ghost predicate ChainOf(first: Proc?, ns: seq<Proc>)
    reads ns
  {
    && NoDup(ns)
    && first == Link(ns, 0)
    && (forall j, k | 0 <= j < |ns| && k == j + 1 :: ns[j].pidhashNext == Link(ns, k))
  }

  method AdjslotInsert(head: Proc, e: Proc, ghost ns: seq<Proc>)
    requires RingOf(head, ns) && e !in ns && e != head
    modifies {head, e, head.next}`next, {head, e, head.next}`prev
    ensures RingOf(head, [e] + ns)
  {
    assert head.next == Nth(head, ns, 0) by { assert head == Nth(head, ns, -1); }
    var next := head.next;
    e.prev := head;
    e.next := next;
    next.prev := e;
    head.next := e;
    forall j, k | -1 <= j < |[e] + ns| && k == j + 1
      ensures Nth(head, [e] + ns, j).next == Nth(head, [e] + ns, k)
      ensures Nth(head, [e] + ns, k).prev == Nth(head, [e] + ns, j)
    {
      if j > 0 {
        assert Nth(head, [e] + ns, j) == Nth(head, ns, j - 1);
        assert Nth(head, [e] + ns, k) == Nth(head, ns, k - 1);
      }
    }
  }

  method AdjslotRemove(e: Proc, ghost head: Proc, ghost ns: seq<Proc>, ghost k: nat)
    requires RingOf(head, ns) && k < |ns| && ns[k] == e
    modifies {e.prev, e.next}`next, {e.prev, e.next}`prev
    ensures RingOf(head, ns[..k] + ns[k + 1..])
    ensures e.next == old(e.next)
  {
    assert Nth(head, ns, k) == e;
    assert e.next == Nth(head, ns, k + 1) && e.prev == Nth(head, ns, k - 1);
    var prev := e.prev;
    var next := e.next;
    next.prev := prev;
    prev.next := next;
    ghost var ns' := ns[..k] + ns[k + 1..];
    forall j, i | -1 <= j < |ns'| && i == j + 1
      ensures Nth(head, ns', j).next == Nth(head, ns', i) && Nth(head, ns', i).prev == Nth(head, ns', j)
    {
      if j < k {
        assert Nth(head, ns', j) == Nth(head, ns, j);
      } else {
        assert Nth(head, ns', j) == Nth(head, ns, j + 1);
      }
      assert Nth(head, ns', i) == Nth(head, ns, if i < k then i else i + 1);
    }
    assert head !in ns' && NoDup(ns');
  }

  lemma ChainTail(first: Proc?, ns: seq<Proc>)
    requires ChainOf(first, ns) && ns != []
    ensures ChainOf(ns[0].pidhashNext, ns[1..])
  {
    assert forall k :: Link(ns[1..], k) == if k < 0 then null else Link(ns, k + 1);
  }

  /** The two ways pid_remove takes the k-th node out of a chain, seen from the middle. */
  method ChainBypass(prevp: Proc, p: Proc, ghost first: Proc?, ghost ns: seq<Proc>, ghost k: nat)
    requires ChainOf(first, ns) && 0 < k < |ns| && ns[k] == p && ns[k - 1] == prevp
    modifies prevp`pidhashNext
    ensures ChainOf(first, ns[..k] + ns[k + 1..])
  {
    prevp.pidhashNext := p.pidhashNext;
    ghost var ns' := ns[..k] + ns[k + 1..];
    assert p.pidhashNext == Link(ns, k + 1);
    assert forall j :: Link(ns', j) == Link(ns, if j < k then j else j + 1);
  }

  /** The kill-wait slot, and the pid descriptors the daemon holds open. */
  class KillWait {
    const pidfds: bool
    var lastKill: int
    var fds: set<int>
    var faults: nat

    constructor (pidfds: bool)
      ensures this.pidfds == pidfds && lastKill == -1 && fds == {} && faults == 0
    {
      this.pidfds, lastKill, fds, faults := pidfds, -1, {}, 0;
    }

    method Close(fd: int)
      modifies this`fds, this`faults
      ensures fd in old(fds) ==> fds == old(fds) - {fd} && faults == old(faults)
      ensures fd !in old(fds) ==> fds == old(fds) && faults == old(faults) + 1
    {
      if fd in fds { fds := fds - {fd}; } else { faults := faults + 1; }
    }
  }

  class Registry {
    const heads: seq<Proc>
    const pidhash: array<Proc?>
    const mix: int -> int
    const waits: KillWait

    ghost var procs: map<int, Proc>
    ghost var live: set<Proc>
    ghost var rings: seq<seq<Proc>>
    ghost var lists: seq<seq<int>>
    ghost var buckets: seq<seq<Proc>>
    ghost var repr: set<Proc>

    /** init: every list is its own anchor, every bucket is empty. */
    constructor (mix: int -> int, waits: KillWait)
      ensures Valid() && fresh(repr) && fresh(pidhash) && this.mix == mix && this.waits == waits
      ensures procs == map[] && lists == seq(SLOTS, i => [])
    {
      var hs: seq<Proc> := [];
      while |hs| < SLOTS
        invariant |hs| <= SLOTS
        invariant forall i | 0 <= i < |hs| :: fresh(hs[i]) && hs[i].anchor == i && RingOf(hs[i], [])
      {
        var a := new Proc.Anchor(|hs|);
        hs := hs + [a];
      }
      this.mix, this.waits, heads, pidhash := mix, waits, hs, new Proc?[BUCKETS](_ => null);
      procs, live, repr := map[], {}, set i | 0 <= i < |hs| :: hs[i];
      rings, lists, buckets := seq(SLOTS, i => []), seq(SLOTS, i => []), seq(BUCKETS, i => []);
      new;
    }

    function HashOf(pid: int): (h: int)
      ensures 0 <= h < BUCKETS
    {
      mix(pid) % BUCKETS
    }

    ghost predicate Records()
      reads this, repr
    {
      && |heads| == |rings| == |lists| == SLOTS && pidhash.Length == |buckets| == BUCKETS
      && (forall i | 0 <= i < SLOTS :: heads[i] in repr && heads[i].anchor == i)
      && live <= repr
      && (forall p | p in live :: p.anchor == -1 && InRange(p.oomadj) && p.pid in procs && procs[p.pid] == p)
      && (forall pid | pid in procs :: procs[pid] in live && procs[pid].pid == pid)
    }

    ghost predicate SlotOk(i: int)
      requires Records() && 0 <= i < SLOTS
      reads this, repr
    {
      && |rings[i]| == |lists[i]|
      && (forall k | 0 <= k < |rings[i]| :: rings[i][k] in live && SlotOf(rings[i][k].oomadj) == i
                                            && rings[i][k].pid == lists[i][k])
      && RingOf(heads[i], rings[i])
    }

    ghost predicate BucketOk(h: int)
      requires Records() && 0 <= h < BUCKETS
      reads this, repr, pidhash
    {
      && (forall k | 0 <= k < |buckets[h]| :: buckets[h][k] in live && HashOf(buckets[h][k].pid) == h)
      && ChainOf(pidhash[h], buckets[h])
    }

    ghost predicate Core()
      reads this, repr, pidhash
    {
      && Records()
      && (forall i | 0 <= i < SLOTS :: SlotOk(i))
      && (forall h | 0 <= h < BUCKETS :: BucketOk(h))
    }

    ghost predicate Valid()
      reads this, repr, pidhash
    {
      && Core()
      && (forall p | p in live :: p in rings[SlotOf(p.oomadj)] && p in buckets[HashOf(p.pid)])
    }

    /** The pid view of the rings: every record is on the list of its score, once, and nothing else is. */
    lemma ListView()
      requires Valid()
      ensures forall i | 0 <= i < SLOTS :: NoDup(lists[i])
      ensures forall i, pid | 0 <= i < SLOTS && pid in lists[i] :: pid in procs && SlotOf(procs[pid].oomadj) == i
      ensures forall pid | pid in procs :: pid in lists[SlotOf(procs[pid].oomadj)]
    {
      forall i, pid | 0 <= i < SLOTS && pid in lists[i] ensures pid in procs && SlotOf(procs[pid].oomadj) == i {
        assert SlotOk(i);
        var k :| 0 <= k < |lists[i]| && lists[i][k] == pid;
        assert rings[i][k].pid == pid;
      }
      forall i | 0 <= i < SLOTS ensures NoDup(lists[i]) {
        assert SlotOk(i);
      }
      forall pid | pid in procs ensures pid in lists[SlotOf(procs[pid].oomadj)] {
        var p := procs[pid];
        var i := SlotOf(p.oomadj);
        assert SlotOk(i);
        var k :| 0 <= k < |rings[i]| && rings[i][k] == p;
        assert lists[i][k] == pid;
      }
    }

    /** The abstract value of the registry. */
    ghost function Abs(): (t: Table)
      requires Valid()
      reads this, repr, pidhash, waits
      ensures WellFormed(t)
    {
      ListView();
      Table(map pid | pid in procs :: procs[pid].RecOf(), lists, waits.lastKill, waits.fds, waits.faults)
    }

    lemma Registered(p: Proc, pid: int)
      requires Valid() && p in live && pid == p.pid
      ensures pid in procs && procs[pid] == p && p in repr && pid in Abs().recs && Abs().recs[pid] == p.RecOf()
    {
    }

    lemma WaitOf()
      requires Valid()
      ensures Abs().wait == waits.lastKill
    {
    }

    /** Fields that play no part in the links may change freely. */
    twostate lemma Undisturbed()
      requires old(Valid())
      requires procs == old(procs) && live == old(live) && repr == old(repr)
      requires rings == old(rings) && lists == old(lists) && buckets == old(buckets)
      requires forall h | 0 <= h < BUCKETS :: pidhash[h] == old(pidhash[h])
      requires forall p | p in repr ::
                 && p.pid == old(p.pid) && p.oomadj == old(p.oomadj)
                 && p.next == old(p.next) && p.prev == old(p.prev) && p.pidhashNext == old(p.pidhashNext)
      ensures Valid()
    {
      forall i | 0 <= i < SLOTS ensures SlotOk(i) {
        assert old(SlotOk(i));
      }
      forall h | 0 <= h < BUCKETS ensures BucketOk(h) {
        assert old(BucketOk(h));
      }
    }

    /** Relinking nodes of slot s leaves every other ring and every chain as it was. */
    twostate lemma Relinked(s: int)
      requires 0 <= s < SLOTS && old(Core())
      requires procs == old(procs) && live == old(live) && repr == old(repr) && buckets == old(buckets)
      requires |rings| == |lists| == SLOTS
      requires forall i | 0 <= i < SLOTS && i != s :: rings[i] == old(rings[i]) && lists[i] == old(lists[i])
      requires forall h | 0 <= h < BUCKETS :: pidhash[h] == old(pidhash[h])
      requires forall p | p in live ::
                 && p.pid == old(p.pid) && p.oomadj == old(p.oomadj) && p.pidhashNext == old(p.pidhashNext)
                 && (SlotOf(p.oomadj) != s ==> p.next == old(p.next) && p.prev == old(p.prev))
      requires forall i | 0 <= i < SLOTS && i != s ::
                 heads[i].next == old(heads[i].next) && heads[i].prev == old(heads[i].prev)
      requires Records() && SlotOk(s)
      ensures Core()
    {
      forall i | 0 <= i < SLOTS && i != s ensures SlotOk(i) {
        assert old(SlotOk(i));
      }
      forall h | 0 <= h < BUCKETS ensures BucketOk(h) {
        assert old(BucketOk(h));
      }
    }

    method ProcSlot(p: Proc)
      requires Core() && p in live && p !in rings[SlotOf(p.oomadj)]
      modifies this`rings, this`lists, repr`next, repr`prev
      ensures Core()
      ensures rings == old(rings)[SlotOf(p.oomadj) := [p] + old(rings[SlotOf(p.oomadj)])]
      ensures lists == Slot(old(lists), SlotOf(p.oomadj), p.pid)
    {
      hide BucketOk;
      var s := SlotOf(p.oomadj);
      assert SlotOk(s);
      assert heads[s].next == Nth(heads[s], rings[s], 0) by { assert heads[s] == Nth(heads[s], rings[s], -1); }
      AdjslotInsert(heads[s], p, rings[s]);
      rings := rings[s := [p] + rings[s]];
      lists := Slot(lists, s, p.pid);
      Relinked(s);
    }

    /** Where p sits in its ring, its neighbours, and what both views look like without it. */
    lemma Position(p: Proc) returns (k: nat)
      requires Core() && p in live && p in rings[SlotOf(p.oomadj)]
      ensures var s := SlotOf(p.oomadj);
              && k < |rings[s]| == |lists[s]| && rings[s][k] == p
              && p.prev == Nth(heads[s], rings[s], k - 1) && p.next == Nth(heads[s], rings[s], k + 1)
              && p.prev in repr && p.next in repr
              && Without(rings[s], p) == rings[s][..k] + rings[s][k + 1..]
              && Without(lists[s], p.pid) == lists[s][..k] + lists[s][k + 1..]
    {
      var s := SlotOf(p.oomadj);
      assert SlotOk(s);
      k :| 0 <= k < |rings[s]| && rings[s][k] == p;
      assert p == Nth(heads[s], rings[s], k);
      WithoutAt(rings[s], p, k);
      assert p.pid !in lists[s][..k];
      WithoutAt(lists[s], p.pid, k);
    }

    method ProcUnslot(p: Proc)
      requires Core() && p in live && p in rings[SlotOf(p.oomadj)]
      modifies this`rings, this`lists, repr`next, repr`prev
      ensures Core()
      ensures rings == old(rings)[SlotOf(p.oomadj) := Without(old(rings[SlotOf(p.oomadj)]), p)]
      ensures lists == Unslot(old(lists), SlotOf(p.oomadj), p.pid)
      ensures forall q :: q in rings[SlotOf(p.oomadj)] <==> q in old(rings[SlotOf(p.oomadj)]) && q != p
    {
      hide BucketOk, Without;
      ghost var s := SlotOf(p.oomadj);
      ghost var k := Position(p);
      assert SlotOk(s);
      WithoutMembers(rings[s], p);
      AdjslotRemove(p, heads[s], rings[s], k);
      rings := rings[s := Without(rings[s], p)];
      lists := Unslot(lists, s, p.pid);
      Relinked(s);
    }

    method PidLookup(pid: int) returns (p: Proc?)
      requires Valid()
      ensures p == if pid in procs then procs[pid] else null
      ensures p != null ==> p in live && p in repr && p.pid == pid
    {
      ghost var h := HashOf(pid);
      assert BucketOk(h);
      p := pidhash[HashOf(pid)];
      ghost var k := 0;
      while p != null && p.pid != pid
        invariant 0 <= k <= |buckets[h]| && p == Link(buckets[h], k)
        invariant forall j | 0 <= j < k :: buckets[h][j].pid != pid
        decreases |buckets[h]| - k
      {
        p := p.pidhashNext;
        k := k + 1;
      }
    }

    /** The search of pid_remove: the record of `pid` and its predecessor in the chain. */
    method FindLink(pid: int) returns (p: Proc?, prevp: Proc?, ghost k: nat)
      requires Valid()
      ensures p == if pid in procs then procs[pid] else null
      ensures p != null ==> p in live && p.pid == pid && k < |buckets[HashOf(pid)]| && p == buckets[HashOf(pid)][k]
                            && prevp == if k == 0 then null else buckets[HashOf(pid)][k - 1]
    {
      ghost var h := HashOf(pid);
      assert BucketOk(h);
      prevp := null;
      p := pidhash[HashOf(pid)];
      k := 0;
      while p != null && p.pid != pid
        invariant k <= |buckets[h]| && p == Link(buckets[h], k) && prevp == Link(buckets[h], k - 1)
        invariant forall j | 0 <= j < k :: buckets[h][j].pid != pid
        decreases |buckets[h]| - k
      {
        prevp := p;
        p := p.pidhashNext;
        k := k + 1;
      }
    }

    /** The unlinking of pid_remove. */
    method Unchain(p: Proc, prevp: Proc?, ghost k: nat)
      requires Core() && p in live
      requires k < |buckets[HashOf(p.pid)]| && p == buckets[HashOf(p.pid)][k]
      requires prevp == if k == 0 then null else buckets[HashOf(p.pid)][k - 1]
      modifies this`buckets, pidhash, repr`pidhashNext
      ensures Core()
      ensures buckets == old(buckets)[HashOf(p.pid) := Without(old(buckets[HashOf(p.pid)]), p)]
      ensures forall q :: q in buckets[HashOf(p.pid)] <==> q in old(buckets[HashOf(p.pid)]) && q != p
    {
      hide SlotOk, Without;
      var h := HashOf(p.pid);
      ghost var ns := buckets[h];
      assert BucketOk(h);
      WithoutAt(ns, p, k);
      WithoutMembers(ns, p);
      assert forall j | 0 <= j < |Without(ns, p)| :: Without(ns, p)[j] == ns[if j < k then j else j + 1];
      if prevp == null {
        ChainTail(p, ns);
        assert ns[..0] + ns[1..] == ns[1..];
        pidhash[h] := p.pidhashNext;
      } else {
        assert prevp in live && HashOf(prevp.pid) == h;
        ChainBypass(prevp, p, pidhash[h], ns, k);
      }
      assert ChainOf(pidhash[h], Without(ns, p));
      buckets := buckets[h := Without(ns, p)];
      Rechained(h);
    }

    /** Unlinks a record that was found in its chain, and releases it. */
    method Release(p: Proc, prevp: Proc?, ghost k: nat)
      requires Valid() && p in live
      requires k < |buckets[HashOf(p.pid)]| && p == buckets[HashOf(p.pid)][k]
      requires prevp == if k == 0 then null else buckets[HashOf(p.pid)][k - 1]
      modifies this`procs, this`live, this`rings, this`lists, this`buckets, pidhash
      modifies repr`next, repr`prev, repr`pidhashNext
      ensures Valid() && live == old(live) - {p} && procs == old(procs) - {p.pid}
      ensures rings == old(rings)[SlotOf(p.oomadj) := Without(old(rings[SlotOf(p.oomadj)]), p)]
      ensures buckets == old(buckets)[HashOf(p.pid) := Without(old(buckets[HashOf(p.pid)]), p)]
      ensures var t := old(Abs());
              Abs() == t.(recs := t.recs - {p.pid}, slots := Unslot(t.slots, SlotOf(p.oomadj), p.pid))
    {
      hide SlotOk, BucketOk, WellFormed, Without;
      Unchain(p, prevp, k);
      ProcUnslot(p);
      Drop(p);
      Removed(p.pid);
    }

    twostate lemma Removed(pid: int)
      requires old(Valid()) && Valid() && procs == old(procs) - {pid} && live <= old(live)
      requires forall p | p in live :: p.RecOf() == old(p.RecOf())
      ensures Abs().recs == old(Abs()).recs - {pid}
    {
      forall x | x in procs ensures Abs().recs[x] == old(Abs()).recs[x] {
        var p := procs[x];
        assert p in live;
      }
      assert Abs().recs.Keys == old(Abs()).recs.Keys - {pid};
    }

    method PidRemove(pid: int) returns (r: int)
      requires Valid()
      modifies this`procs, this`live, this`rings, this`lists, this`buckets, pidhash, waits`fds, waits`faults
      modifies repr`next, repr`prev, repr`pidhashNext
      ensures Valid()
      ensures Abs() == Tables.PidRemove(old(Abs()), pid)
      ensures r == if pid in old(procs) then 0 else -1
      ensures pid in old(procs) ==>
                var p := old(procs[pid]);
                && live == old(live) - {p} && procs == old(procs) - {pid}
                && rings == old(rings)[SlotOf(p.oomadj) := Without(old(rings[SlotOf(procs[pid].oomadj)]), p)]
                && buckets == old(buckets)[HashOf(pid) := Without(old(buckets[HashOf(pid)]), p)]
    {
      hide Core, WellFormed, Without;
      var p, prevp, k := FindLink(pid);
      if p == null {
        r := -1;
      } else {
        Release(p, prevp, k);
        if p.pidfd >= 0 && p.pidfd != waits.lastKill {
          waits.Close(p.pidfd);
        }
        r := 0;
      }
    }

    /** A record on no list and in no chain leaves the registry. */
    ghost method Drop(p: Proc)
      requires Core() && p in live && p !in rings[SlotOf(p.oomadj)] && p !in buckets[HashOf(p.pid)]
      requires forall q | q in live && q != p :: q in rings[SlotOf(q.oomadj)] && q in buckets[HashOf(q.pid)]
      modifies this`procs, this`live
      ensures Valid() && live == old(live) - {p} && procs == old(procs) - {p.pid}
    {
      procs, live := procs - {p.pid}, live - {p};
      forall i | 0 <= i < SLOTS ensures SlotOk(i) {
        assert old(SlotOk(i));
      }
      forall h | 0 <= h < BUCKETS ensures BucketOk(h) {
        assert old(BucketOk(h));
      }
    }

    /** A new record joins the registry, on no list and in no chain yet. */
    ghost method Adopt(p: Proc)
      requires Valid() && p !in repr && p.anchor == -1 && p.pid !in procs && InRange(p.oomadj)
      modifies this`procs, this`live, this`repr
      ensures Core() && procs == old(procs)[p.pid := p] && live == old(live) + {p} && repr == old(repr) + {p}
      ensures p !in rings[SlotOf(p.oomadj)] && p !in buckets[HashOf(p.pid)]
    {
      var pid := p.pid;
      procs, live, repr := procs[pid := p], live + {p}, repr + {p};
      assert old(SlotOk(SlotOf(p.oomadj))) && old(BucketOk(HashOf(p.pid)));
      forall i | 0 <= i < SLOTS ensures SlotOk(i) {
        assert old(SlotOk(i));
      }
      forall h | 0 <= h < BUCKETS ensures BucketOk(h) {
        assert old(BucketOk(h));
      }
    }

    /** The hash half of proc_insert. */
    method Enchain(p: Proc)
      requires Core() && p in live && p !in buckets[HashOf(p.pid)]
      modifies this`buckets, pidhash, p`pidhashNext
      ensures Core()
      ensures buckets == old(buckets)[HashOf(p.pid) := [p] + old(buckets[HashOf(p.pid)])]
    {
      hide SlotOk;
      var h := HashOf(p.pid);
      ghost var ns := buckets[h];
      assert BucketOk(h);
      p.pidhashNext := pidhash[h];
      pidhash[h] := p;
      buckets := buckets[h := [p] + ns];
      assert forall k :: Link([p] + ns, k) == if k == 0 then p else Link(ns, k - 1);
      assert ChainOf(p, [p] + ns);
      Rechained(h);
    }

    method ProcInsert(p: Proc)
      requires Valid() && p !in repr && p.anchor == -1 && p.pid !in procs && InRange(p.oomadj)
      modifies this`procs, this`live, this`repr, this`rings, this`lists, this`buckets, pidhash
      modifies repr`next, repr`prev, p`next, p`prev, p`pidhashNext
      ensures Valid() && repr == old(repr) + {p}
      ensures Abs() == Tables.ProcInsert(old(Abs()), p.RecOf())
    {
      hide SlotOk, BucketOk, WellFormed;
      Adopt(p);
      Enchain(p);
      ProcSlot(p);
      Inserted(p);
    }

    twostate lemma Inserted(p: Proc)
      requires old(Valid()) && Valid() && p.pid !in old(procs)
      requires procs == old(procs)[p.pid := p]
      requires forall q | q in old(live) :: q.RecOf() == old(q.RecOf())
      ensures Abs().recs == old(Abs()).recs[p.pid := p.RecOf()]
    {
      forall x | x in old(procs) ensures Abs().recs[x] == old(Abs()).recs[x] {
        var q := procs[x];
        assert q in old(live);
      }
      var pid := p.pid;
      assert procs.Keys == old(procs).Keys + {pid};
      assert Abs().recs.Keys == procs.Keys && old(Abs().recs.Keys) == old(procs.Keys);
    }

    /** The score of a record that is on no list may change. */
    method SetScore(p: Proc, adj: int)
      requires Core() && p in live && p !in rings[SlotOf(p.oomadj)] && InRange(adj)
      modifies p`oomadj
      ensures Core() && p.oomadj == adj && p !in rings[SlotOf(adj)]
    {
      assert SlotOk(SlotOf(adj));
      p.oomadj := adj;
      forall i | 0 <= i < SLOTS ensures SlotOk(i) {
        assert old(SlotOk(i));
      }
      forall h | 0 <= h < BUCKETS ensures BucketOk(h) {
        assert old(BucketOk(h));
      }
    }

    /** The update path of register_oom_adj_proc. */
    method Reslot(p: Proc, adj: int)
      requires Valid() && p in live && InRange(adj)
      modifies this`rings, this`lists, repr`next, repr`prev, p`oomadj
      ensures Valid() && p.oomadj == adj && lists[adj + 1000] != [] && lists[adj + 1000][0] == p.pid
      ensures Abs() == Tables.Reslot(old(Abs()), p.pid, p.regPid, adj)
    {
      hide SlotOk, BucketOk, WellFormed, Without;
      ProcUnslot(p);
      SetScore(p, adj);
      ProcSlot(p);
      Changed(p.pid);
    }

    /** Only the kill-wait slot and the descriptors changed. */
    twostate lemma OnlyWaits()
      requires old(Valid()) && Valid() && procs == old(procs) && live == old(live) && lists == old(lists)
      requires forall q | q in live :: q.RecOf() == old(q.RecOf())
      ensures Abs() == old(Abs()).(wait := waits.lastKill, fds := waits.fds, faults := waits.faults)
    {
      forall x | x in procs ensures Abs().recs[x] == old(Abs()).recs[x] {
        var q := procs[x];
        assert q in live;
      }
      assert Abs().recs.Keys == procs.Keys && old(Abs().recs.Keys) == procs.Keys;
    }

    /** Every record lost the claim of `client`, and nothing else changed. */
    twostate lemma ClaimsRemoved(client: int)
      requires old(Valid()) && Valid() && procs == old(procs) && live == old(live) && lists == old(lists)
      requires waits.lastKill == old(waits.lastKill) && waits.fds == old(waits.fds) && waits.faults == old(waits.faults)
      requires forall q | q in live ::
                 q.RecOf() == if old(q.regPid) == client then old(q.RecOf()).(regPid := 0) else old(q.RecOf())
      ensures Abs() == RemoveClaims(old(Abs()), client)
    {
      forall x | x in procs ensures Abs().recs[x] == RemoveClaims(old(Abs()), client).recs[x] {
        var q := procs[x];
        assert q in live;
      }
      assert Abs().recs.Keys == procs.Keys && old(Abs().recs.Keys) == procs.Keys;
    }

    /** Only the record of `pid` changed. */
    twostate lemma Changed(pid: int)
      requires old(Valid()) && Valid() && procs == old(procs) && live == old(live) && pid in procs
      requires forall q | q in live && q != procs[pid] :: q.RecOf() == old(q.RecOf())
      ensures Abs().recs == old(Abs()).recs[pid := procs[pid].RecOf()]
    {
      forall x | x in procs && x != pid ensures Abs().recs[x] == old(Abs()).recs[x] {
        var q := procs[x];
        assert q in live && q.pid == x;
      }
      assert Abs().recs.Keys == procs.Keys && old(Abs().recs.Keys) == procs.Keys;
    }

    /** Relinking nodes of chain h leaves every other chain and every ring as it was. */
    twostate lemma Rechained(h: int)
      requires 0 <= h < BUCKETS && old(Core())
      requires procs == old(procs) && live == old(live) && repr == old(repr)
      requires rings == old(rings) && lists == old(lists)
      requires |buckets| == BUCKETS
      requires forall i | 0 <= i < BUCKETS && i != h :: buckets[i] == old(buckets[i]) && pidhash[i] == old(pidhash[i])
      requires forall p | p in repr :: p.pid == old(p.pid) && p.oomadj == old(p.oomadj)
                                       && p.next == old(p.next) && p.prev == old(p.prev)
      requires forall p | p in live && HashOf(p.pid) != h :: p.pidhashNext == old(p.pidhashNext)
      requires Records() && BucketOk(h)
      ensures Core()
    {
      forall i | 0 <= i < SLOTS ensures SlotOk(i) {
        assert old(SlotOk(i));
      }
      forall i | 0 <= i < BUCKETS && i != h ensures BucketOk(i) {
        assert old(BucketOk(i));
      }
    }
  }
}
