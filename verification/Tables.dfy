/**
 The abstract registry of lmkd: a plain map from pid to record, one sequence of
 pids per oom score (newest first), the kill-wait slot and the open pid
 descriptors. Each function is the value-level meaning of one routine of
 lmkd.cpp; the class in Registry.dfy, built from hash chains and circular
 lists, is proved to refine it.
 */
module Tables {
  const ADJ_MIN: int := -1000
  const ADJ_MAX: int := 1000
  const SLOTS: nat := 2001

  datatype Option<T> = None | Some(value: T)

  datatype Rec = Rec(pid: int, pidfd: int, uid: int, oomadj: int, regPid: int, valid: bool)

  /**
   `wait` is last_kill_pid_or_fd, `fds` the open pid descriptors, and `faults`
   counts the closes that hit a descriptor which was not open.
   */
  datatype Table = Table(recs: map<int, Rec>, slots: seq<seq<int>>, wait: int, fds: set<int>, faults: nat)

  predicate InRange(adj: int) {
    ADJ_MIN <= adj <= ADJ_MAX
  }

  /** ADJTOSLOT. */
  function SlotOf(adj: int): int {
    adj - ADJ_MIN
  }

  ghost predicate NoDup<T>(s: seq<T>) {
    forall i, j | 0 <= i < j < |s| :: s[i] != s[j]
  }

  /** Removes the first occurrence of x. */
  function Without<T(==)>(s: seq<T>, x: T): seq<T> {
    if s == [] then [] else if s[0] == x then s[1..] else [s[0]] + Without(s[1..], x)
  }

  lemma {:induction false} WithoutAt<T>(s: seq<T>, x: T, k: nat)
    requires k < |s| && s[k] == x && x !in s[..k]
    ensures Without(s, x) == s[..k] + s[k + 1..]
  {
    if k > 0 {
      assert s[1..][..k - 1] == s[..k][1..];
      WithoutAt(s[1..], x, k - 1);
      assert s[..k] == [s[0]] + s[1..][..k - 1];
      assert s[1..][k..] == s[k + 1..];
    }
  }

  lemma {:induction false} WithoutMembers<T>(s: seq<T>, x: T)
    requires NoDup(s)
    ensures NoDup(Without(s, x))
    ensures forall y :: y in Without(s, x) <==> y in s && y != x
    ensures x !in s ==> Without(s, x) == s
  {
    hide Without;
    if x in s {
      var k :| 0 <= k < |s| && s[k] == x;
      WithoutAt(s, x, k);
      assert s == s[..k] + [x] + s[k + 1..];
    } else {
      WithoutAbsent(s, x);
    }
  }

  lemma {:induction false} WithoutAbsent<T>(s: seq<T>, x: T)
    requires x !in s
    ensures Without(s, x) == s
  {
    if s != [] { WithoutAbsent(s[1..], x); }
  }

  lemma {:induction false} SubsetSize<T>(a: set<T>, b: set<T>)
    requires a <= b
    ensures |a| <= |b|
  {
    if a != {} {
      var x :| x in a;
      SubsetSize(a - {x}, b - {x});
    }
  }

  /** The slot lists hold exactly the records, each once, in the list of its score. */
  ghost predicate WellFormed(t: Table) {
    && |t.slots| == SLOTS
    && (forall pid | pid in t.recs :: t.recs[pid].pid == pid && InRange(t.recs[pid].oomadj)
                                      && pid in t.slots[SlotOf(t.recs[pid].oomadj)])
    && (forall i, pid | 0 <= i < SLOTS && pid in t.slots[i] :: pid in t.recs && SlotOf(t.recs[pid].oomadj) == i)
    && (forall i | 0 <= i < SLOTS :: NoDup(t.slots[i]))
  }

  lemma SlotEntry(t: Table, i: int, k: int, pid: int)
    requires WellFormed(t) && 0 <= i < SLOTS && 0 <= k < |t.slots[i]| && t.slots[i][k] == pid
    ensures pid in t.recs && SlotOf(t.recs[pid].oomadj) == i
  {
    assert pid in t.slots[i];
  }

  lemma SlotCount(t: Table)
    requires WellFormed(t)
    ensures |t.slots| == SLOTS && forall pid | pid in t.recs :: t.recs[pid].pid == pid
  {
  }

  /** Well-formedness is about records and lists only. */
  lemma WellFormedFrame(t: Table, u: Table)
    requires WellFormed(t) && u.recs == t.recs && u.slots == t.slots
    ensures WellFormed(u)
  {
  }

  function CloseFd(t: Table, fd: int): Table {
    if fd in t.fds then t.(fds := t.fds - {fd}) else t.(faults := t.faults + 1)
  }

  /** adjslot_remove on the list of slot i. */
  function Unslot(slots: seq<seq<int>>, i: int, pid: int): seq<seq<int>>
    requires 0 <= i < |slots|
  {
    slots[i := Without(slots[i], pid)]
  }

  /** adjslot_insert at the head of slot i. */
  function Slot(slots: seq<seq<int>>, i: int, pid: int): seq<seq<int>>
    requires 0 <= i < |slots|
  {
    slots[i := [pid] + slots[i]]
  }

  /** pid_remove: forget the record, and close its descriptor unless its death is being waited for. */
  function PidRemove(t: Table, pid: int): (u: Table)
    requires WellFormed(t)
    ensures WellFormed(u)
  {
    if pid !in t.recs then t else
      var r := t.recs[pid];
      var u := t.(recs := t.recs - {pid}, slots := Unslot(t.slots, SlotOf(r.oomadj), pid));
      WithoutMembers(t.slots[SlotOf(r.oomadj)], pid);
      if r.pidfd >= 0 && r.pidfd != t.wait then CloseFd(u, r.pidfd) else u
  }

  /** proc_insert of a new record. */
  function ProcInsert(t: Table, r: Rec): (u: Table)
    requires WellFormed(t) && r.pid !in t.recs && InRange(r.oomadj)
    ensures WellFormed(u)
  {
    t.(recs := t.recs[r.pid := r], slots := Slot(t.slots, SlotOf(r.oomadj), r.pid))
  }

  /** proc_unslot, a new score and owner, proc_slot: the record moves to the head of the list of its new score. */
  function Reslot(t: Table, pid: int, client: int, adj: int): (u: Table)
    requires WellFormed(t) && pid in t.recs && InRange(adj)
    ensures WellFormed(u) && u.recs.Keys == t.recs.Keys
    ensures u.recs[pid].oomadj == adj && u.recs[pid].regPid == client
    ensures u.slots[adj + 1000] != [] && u.slots[adj + 1000][0] == pid
  {
    WithoutMembers(t.slots[SlotOf(t.recs[pid].oomadj)], pid);
    var slots := Unslot(t.slots, SlotOf(t.recs[pid].oomadj), pid);
    t.(recs := t.recs[pid := t.recs[pid].(oomadj := adj, regPid := client)], slots := Slot(slots, SlotOf(adj), pid))
  }

  /** Removes the records of `pids` one after another. */
  function RemoveAll(t: Table, pids: seq<int>): (u: Table)
    requires WellFormed(t)
    ensures WellFormed(u)
  {
    if pids == [] then t else PidRemove(RemoveAll(t, pids[..|pids| - 1]), pids[|pids| - 1])
  }

  /** claim_record succeeds: the record is the client's own, or nobody's. */
  predicate Claimable(r: Rec, client: int) {
    r.regPid == client || r.regPid == 0
  }

  /** remove_claims. */
  function RemoveClaims(t: Table, client: int): (u: Table)
    requires WellFormed(t)
    ensures WellFormed(u)
  {
    t.(recs := map pid | pid in t.recs ::
                 if t.recs[pid].regPid == client then t.recs[pid].(regPid := 0) else t.recs[pid])
  }

  /** pid_invalidate. */
  function PidInvalidate(t: Table, pid: int): (u: Table)
    requires WellFormed(t)
    ensures WellFormed(u)
  {
    if pid in t.recs then t.(recs := t.recs[pid := t.recs[pid].(valid := false)]) else t
  }

  /** stop_wait_for_proc_kill. */
  function StopWait(pidfds: bool, t: Table): (u: Table)
    ensures u.recs == t.recs && u.slots == t.slots && u.wait < 0
  {
    if t.wait < 0 then t else (if pidfds then CloseFd(t, t.wait) else t).(wait := -1)
  }

  /** start_wait_for_proc_kill; `registered` is the answer of epoll_ctl. */
  function StartWait(pidfds: bool, t: Table, pidOrFd: int, registered: bool): (u: Table)
    ensures u.recs == t.recs && u.slots == t.slots
  {
    var u := StopWait(pidfds, t).(wait := pidOrFd);
    if pidfds && !registered then CloseFd(u, pidOrFd).(wait := -1) else u
  }

  /** Settings and system answers of one registration. */
  datatype Config = Config(perAppMemcg: bool, pidfds: bool)

  datatype Request = Request(pid: int, uid: int, oomadj: int, ptype: int)

  const PROC_TYPE_APP: int := 0
  const PROC_TYPE_COUNT: int := 2

  /** `tgid` is what /proc/pid/status says, if readable; `adjWritten` that oom_score_adj could be written. */
  datatype RegEnv = RegEnv(tgid: Option<int>, adjWritten: bool, memcgPath: bool, pidfd: Option<nat>, memory: bool)

  /** The launcher range 600-699 is kept perceptible when per-app memory cgroups are in use. */
  function EffectiveScore(cfg: Config, req: Request): int {
    if req.ptype == PROC_TYPE_APP && cfg.perAppMemcg && 600 <= req.oomadj < 700 then 200 else req.oomadj
  }

  /** register_oom_adj_proc for a pid that is not registered: without memory the descriptor stays open and unowned. */
  function RegisterNew(cfg: Config, t: Table, req: Request, client: int, adj: int, env: RegEnv): (u: Table)
    requires WellFormed(t) && InRange(adj) && req.pid !in t.recs
    ensures WellFormed(u)
  {
    if cfg.pidfds && env.pidfd.None? then t
    else
      var u := if cfg.pidfds then t.(fds := t.fds + {env.pidfd.value}) else t;
      var fd := if cfg.pidfds then env.pidfd.value else -1;
      if env.memory then ProcInsert(u, Rec(req.pid, fd, req.uid, adj, client, true)) else u
  }

  /** register_oom_adj_proc. */
  function RegisterProc(cfg: Config, t: Table, req: Request, client: int, env: RegEnv): (u: Table)
    requires WellFormed(t) && InRange(req.oomadj)
    ensures WellFormed(u)
  {
    var adj := EffectiveScore(cfg, req);
    if req.ptype == PROC_TYPE_APP && cfg.perAppMemcg && !env.memcgPath then t
    else if req.pid !in t.recs then RegisterNew(cfg, t, req, client, adj, env)
    else if Claimable(t.recs[req.pid], client) then Reslot(t, req.pid, client, adj)
    else t
  }

  /** apply_proc_prio. */
  function ApplyProcPrio(cfg: Config, t: Table, req: Request, client: int, env: RegEnv): (u: Table)
    requires WellFormed(t)
    ensures WellFormed(u)
  {
    if !InRange(req.oomadj) || !(PROC_TYPE_APP <= req.ptype < PROC_TYPE_COUNT) then t
    else if env.tgid.Some? && env.tgid.value != req.pid then t
    else if !env.adjWritten then t
    else RegisterProc(cfg, t, req, client, env)
  }

  /** cmd_procremove. */
  function CmdProcRemove(t: Table, pid: int, client: int): (u: Table)
    requires WellFormed(t)
    ensures WellFormed(u)
  {
    if pid in t.recs && Claimable(t.recs[pid], client) then PidRemove(t, pid) else t
  }

  /** RemoveAll forgets exactly the listed pids and touches no other record. */
  lemma {:induction false} RemoveAllRecs(t: Table, pids: seq<int>)
    requires WellFormed(t)
    ensures RemoveAll(t, pids).recs == map pid | pid in t.recs && pid !in pids :: t.recs[pid]
    ensures RemoveAll(t, pids).wait == t.wait
  {
    if pids != [] {
      var n := |pids| - 1;
      RemoveAllRecs(t, pids[..n]);
      assert pids == pids[..n] + [pids[n]];
    }
  }

  lemma {:induction false} RemoveAllConcat(t: Table, a: seq<int>, b: seq<int>)
    requires WellFormed(t)
    ensures RemoveAll(RemoveAll(t, a), b) == RemoveAll(t, a + b)
  {
    hide WellFormed, PidRemove;
    if b == [] {
      assert a + b == a;
    } else {
      var n := |b| - 1;
      RemoveAllConcat(t, a, b[..n]);
      assert (a + b)[..|a| + n] == a + b[..n];
    }
  }

  /** `order` lists, once each, exactly the pids whose records `client` may claim. */
  ghost predicate PurgeOrder(t: Table, client: int, order: seq<int>) {
    && NoDup(order)
    && (forall pid :: pid in order <==> pid in t.recs && Claimable(t.recs[pid], client))
  }

  /** The entries of l that are not in xs, in order. */
  function Keep<T(==)>(l: seq<T>, xs: seq<T>): seq<T> {
    if l == [] then [] else if l[0] in xs then Keep(l[1..], xs) else [l[0]] + Keep(l[1..], xs)
  }

  lemma {:induction false} KeepOne<T>(l: seq<T>, xs: seq<T>, x: T)
    requires NoDup(l)
    ensures Keep(l, xs + [x]) == Without(Keep(l, xs), x)
  {
    if l != [] {
      KeepOne(l[1..], xs, x);
      if l[0] == x {
        KeepAbsent(l[1..], xs, x);
        assert ([x] + Keep(l[1..], xs))[1..] == Keep(l[1..], xs);
      } else {
        assert ([l[0]] + Keep(l[1..], xs))[1..] == Keep(l[1..], xs);
      }
    }
  }

  lemma {:induction false} KeepAbsent<T>(l: seq<T>, xs: seq<T>, x: T)
    requires x !in l
    ensures Keep(l, xs + [x]) == Keep(l, xs) && x !in Keep(l, xs) && Without(Keep(l, xs), x) == Keep(l, xs)
  {
    if l != [] {
      KeepAbsent(l[1..], xs, x);
    }
    WithoutAbsent(Keep(l, xs), x);
  }

  lemma {:induction false} KeepNone<T>(l: seq<T>)
    ensures Keep(l, []) == l
  {
    if l != [] { KeepNone(l[1..]); }
  }

  lemma {:induction false} RemoveAllSlots(t: Table, pids: seq<int>)
    requires WellFormed(t)
    ensures forall i | 0 <= i < SLOTS :: RemoveAll(t, pids).slots[i] == Keep(t.slots[i], pids)
  {
    if pids == [] {
      forall i | 0 <= i < SLOTS ensures t.slots[i] == Keep(t.slots[i], []) { KeepNone(t.slots[i]); }
    } else {
      var n := |pids| - 1;
      var u := RemoveAll(t, pids[..n]);
      var x := pids[n];
      RemoveAllSlots(t, pids[..n]);
      assert pids == pids[..n] + [x];
      forall i | 0 <= i < SLOTS ensures PidRemove(u, x).slots[i] == Keep(t.slots[i], pids) {
        KeepOne(t.slots[i], pids[..n], x);
        RemoveSlot(u, x, i);
      }
    }
  }

  /** On every list, pid_remove is Without. */
  lemma RemoveSlot(t: Table, x: int, i: int)
    requires WellFormed(t) && 0 <= i < SLOTS
    ensures PidRemove(t, x).slots[i] == Without(t.slots[i], x)
  {
    WithoutMembers(t.slots[i], x);
    if x in t.slots[i] { assert x in t.recs && SlotOf(t.recs[x].oomadj) == i; }
  }
}
