/**
 The reaper thread pool: a queue and a request counter guarded by a mutex, and
 a condition variable. Every critical section is one atomic step; between
 them the threads and the main thread interleave arbitrarily, and a sleeping
 thread may wake for no reason.
 */
module Reapers {
  datatype Target = Target(pidfd: int, pid: int, uid: int)

  /** A thread sleeps in cond_wait, is about to look at the queue, or works on a request. */
  datatype Phase = Asleep | Awake | Busy(target: Target)

  /** `accepted` and `completed` record the requests taken on and finished; `pipe` the pids reported as not killed. */
  datatype Pool = Pool(queue: seq<Target>, active: int, threads: seq<Phase>,
                       accepted: multiset<Target>, completed: multiset<Target>, pipe: seq<int>)

  datatype Action =
    | Submit(target: Target, dup: int, woken: int)
    | Wake(thread: nat)
    | Take(thread: nat)
    | Report(thread: nat, written: bool)
    | Complete(thread: nat)

  /** notify_one wakes a sleeping thread if there is one; woken is -1 if there is none. */
  predicate Notifies(threads: seq<Phase>, woken: int) {
    if woken == -1 then Asleep !in threads else 0 <= woken < |threads| && threads[woken].Asleep?
  }

  predicate Enabled(p: Pool, a: Action) {
    match a
    case Submit(_, _, woken) => Notifies(p.threads, woken)
    case Wake(t) => t < |p.threads| && p.threads[t].Asleep?
    case Take(t) => t < |p.threads| && p.threads[t].Awake?
    case Report(t, _) => t < |p.threads| && p.threads[t].Busy?
    case Complete(t) => t < |p.threads| && p.threads[t].Busy?
  }

  predicate Accepts(p: Pool, target: Target) {
    target.pidfd != -1 && p.active < |p.threads|
  }

  function Next(p: Pool, a: Action): Pool
    requires Enabled(p, a)
  {
    match a
    case Submit(target, dup, woken) =>
      if !Accepts(p, target) then p else
        var queued := target.(pidfd := dup);
        p.(queue := p.queue + [queued], active := p.active + 1, accepted := p.accepted + multiset{queued},
           threads := if woken == -1 then p.threads else p.threads[woken := Awake])
    case Wake(t) => p.(threads := p.threads[t := Awake])
    case Take(t) =>
      if p.queue == [] then p.(threads := p.threads[t := Asleep]) else
        var n := |p.queue| - 1;
        p.(queue := p.queue[..n], threads := p.threads[t := Busy(p.queue[n])])
    case Report(t, written) => if written then p.(pipe := p.pipe + [p.threads[t].target.pid]) else p
    case Complete(t) =>
      p.(threads := p.threads[t := Awake], active := p.active - 1,
         completed := p.completed + multiset{p.threads[t].target})
  }

  // ---------------------------------------------------------------- counting threads

  function Kind(f: Phase): nat {
    match f case Asleep => 0 case Awake => 1 case Busy(_) => 2
  }

  function Tally(threads: seq<Phase>, kind: nat): nat {
    if threads == [] then 0 else (if Kind(threads[0]) == kind then 1 else 0) + Tally(threads[1..], kind)
  }

  /** How many threads work on the request x. */
  function Carried(threads: seq<Phase>, x: Target): nat {
    if threads == [] then 0 else (if threads[0] == Busy(x) then 1 else 0) + Carried(threads[1..], x)
  }

  lemma {:induction false} TallyUpdate(threads: seq<Phase>, t: nat, f: Phase, kind: nat)
    requires t < |threads|
    ensures Tally(threads[t := f], kind) + (if Kind(threads[t]) == kind then 1 else 0)
            == Tally(threads, kind) + (if Kind(f) == kind then 1 else 0)
  {
    if t > 0 {
      assert threads[t := f][1..] == threads[1..][t - 1 := f];
      TallyUpdate(threads[1..], t - 1, f, kind);
    } else {
      assert threads[t := f][1..] == threads[1..];
    }
  }

  lemma {:induction false} CarriedUpdate(threads: seq<Phase>, t: nat, f: Phase, x: Target)
    requires t < |threads|
    ensures Carried(threads[t := f], x) + (if threads[t] == Busy(x) then 1 else 0)
            == Carried(threads, x) + (if f == Busy(x) then 1 else 0)
  {
    if t > 0 {
      assert threads[t := f][1..] == threads[1..][t - 1 := f];
      CarriedUpdate(threads[1..], t - 1, f, x);
    } else {
      assert threads[t := f][1..] == threads[1..];
    }
  }

  lemma {:induction false} TallySum(threads: seq<Phase>)
    ensures Tally(threads, 0) + Tally(threads, 1) + Tally(threads, 2) == |threads|
  {
    if threads != [] { TallySum(threads[1..]); }
  }

  lemma {:induction false} TallyNone(threads: seq<Phase>, kind: nat)
    requires forall t | 0 <= t < |threads| :: Kind(threads[t]) != kind
    ensures Tally(threads, kind) == 0
  {
    if threads != [] { TallyNone(threads[1..], kind); }
  }

  lemma {:induction false} TallySome(threads: seq<Phase>, kind: nat) returns (t: nat)
    requires Tally(threads, kind) > 0
    ensures t < |threads| && Kind(threads[t]) == kind
  {
    t := 0;
    if Kind(threads[0]) != kind {
      t := TallySome(threads[1..], kind);
      t := t + 1;
    }
  }

  // ---------------------------------------------------------------- the invariant

  /** Requests are counted right, never exceed the threads, and each queued one has an awake idle thread. */
  ghost predicate Counted(p: Pool) {
    && p.active == |p.queue| + Tally(p.threads, 2)
    && p.active <= |p.threads|
    && |p.queue| <= Tally(p.threads, 1)
  }

  /** Every accepted request is queued, being worked on, or completed, exactly once. */
  ghost predicate Conserved(p: Pool) {
    forall x :: p.accepted[x] == multiset(p.queue)[x] + Carried(p.threads, x) + p.completed[x]
  }

  ghost predicate Inv(p: Pool) {
    Counted(p) && Conserved(p)
  }

  lemma StepCounts(p: Pool, a: Action)
    requires Counted(p) && Enabled(p, a)
    ensures Counted(Next(p, a)) && |Next(p, a).threads| == |p.threads|
  {
    TallySum(p.threads);
    match a
    case Submit(_, _, woken) =>
      if woken == -1 {
        forall t | 0 <= t < |p.threads| ensures Kind(p.threads[t]) != 0 {
          assert p.threads[t] in p.threads;
        }
        TallyNone(p.threads, 0);
      } else {
        Recount(p.threads, woken, Awake);
      }
    case Wake(t) => Recount(p.threads, t, Awake);
    case Take(t) => Recount(p.threads, t, if p.queue == [] then Asleep else Busy(p.queue[|p.queue| - 1]));
    case Report(_, _) =>
    case Complete(t) => Recount(p.threads, t, Awake);
  }

  lemma Recount(threads: seq<Phase>, t: nat, f: Phase)
    requires t < |threads|
    ensures forall kind: nat | kind < 3 :: Tally(threads[t := f], kind) + (if Kind(threads[t]) == kind then 1 else 0)
                                           == Tally(threads, kind) + (if Kind(f) == kind then 1 else 0)
  {
    forall kind: nat | kind < 3 { TallyUpdate(threads, t, f, kind); }
  }

  lemma StepConserves(p: Pool, a: Action)
    requires Conserved(p) && Enabled(p, a)
    ensures Conserved(Next(p, a))
  {
    var q := Next(p, a);
    forall x ensures q.accepted[x] == multiset(q.queue)[x] + Carried(q.threads, x) + q.completed[x] {
      match a
      case Submit(_, _, woken) => if woken != -1 { CarriedUpdate(p.threads, woken, Awake, x); }
      case Wake(t) => CarriedUpdate(p.threads, t, Awake, x);
      case Take(t) =>
        if p.queue == [] {
          CarriedUpdate(p.threads, t, Asleep, x);
        } else {
          var n := |p.queue| - 1;
          CarriedUpdate(p.threads, t, Busy(p.queue[n]), x);
          assert p.queue == p.queue[..n] + [p.queue[n]];
        }
      case Report(_, _) =>
      case Complete(t) => CarriedUpdate(p.threads, t, Awake, x);
    }
  }

  /** Every step keeps the invariant: no interleaving, and no spurious wakeup, breaks it. */
  lemma StepKeepsInv(p: Pool, a: Action)
    requires Inv(p) && Enabled(p, a)
    ensures Inv(Next(p, a)) && |Next(p, a).threads| == |p.threads|
  {
    StepCounts(p, a);
    StepConserves(p, a);
  }

  ghost predicate Legal(p: Pool, run: seq<Action>)
    decreases |run|
  {
    run == [] || (Enabled(p, run[0]) && Legal(Next(p, run[0]), run[1..]))
  }

  ghost function Run(p: Pool, run: seq<Action>): Pool
    requires Legal(p, run)
    decreases |run|
  {
    if run == [] then p else Run(Next(p, run[0]), run[1..])
  }

  function Start(threadCnt: nat): Pool {
    Pool([], 0, seq(threadCnt, t => Awake), multiset{}, multiset{}, [])
  }

  lemma {:induction false} StartInv(threadCnt: nat)
    ensures Inv(Start(threadCnt))
  {
    var threads := Start(threadCnt).threads;
    TallyNone(threads, 2);
    forall x ensures Carried(threads, x) == 0 { NothingCarried(threads, x); }
  }

  lemma {:induction false} NothingCarried(threads: seq<Phase>, x: Target)
    requires forall t | 0 <= t < |threads| :: !threads[t].Busy?
    ensures Carried(threads, x) == 0
  {
    if threads != [] { NothingCarried(threads[1..], x); }
  }

  lemma {:induction false} RunKeepsInv(p: Pool, run: seq<Action>)
    requires Inv(p) && Legal(p, run)
    ensures Inv(Run(p, run))
    decreases |run|
  {
    if run != [] {
      StepKeepsInv(p, run[0]);
      RunKeepsInv(Next(p, run[0]), run[1..]);
    }
  }

  /** In every reachable state an accepted request that is still queued has an awake thread to take it. */
  lemma NoLostWakeup(threadCnt: nat, run: seq<Action>) returns (t: nat)
    requires Legal(Start(threadCnt), run) && Run(Start(threadCnt), run).queue != []
    ensures t < |Run(Start(threadCnt), run).threads| && Run(Start(threadCnt), run).threads[t].Awake?
  {
    StartInv(threadCnt);
    RunKeepsInv(Start(threadCnt), run);
    t := TallySome(Run(Start(threadCnt), run).threads, 1);
  }

  /** A request with a descriptor is queued exactly when those queued or worked on are fewer than the threads. */
  lemma SubmitEffect(p: Pool, target: Target, dup: int, woken: int)
    requires Inv(p) && Notifies(p.threads, woken)
    ensures var q, queued := Next(p, Submit(target, dup, woken)), Target(dup, target.pid, target.uid);
            if target.pidfd != -1 && |p.queue| + Tally(p.threads, 2) < |p.threads| then
              && q.queue == p.queue + [queued] && q.accepted == p.accepted + multiset{queued}
              && q.completed == p.completed && q.pipe == p.pipe
            else q == p
  {
  }

  /** So, in every reachable state, the pool turns such a request away only when every thread has one to work on. */
  lemma RefusesWhenFull(threadCnt: nat, run: seq<Action>, target: Target, dup: int, woken: int)
    requires Legal(Start(threadCnt), run) && Notifies(Run(Start(threadCnt), run).threads, woken)
    ensures var p := Run(Start(threadCnt), run);
            && |p.queue| + Tally(p.threads, 2) <= threadCnt
            && (Next(p, Submit(target, dup, woken)) == p <==>
                target.pidfd == -1 || |p.queue| + Tally(p.threads, 2) == threadCnt)
  {
    hide Run, Legal;
    StartInv(threadCnt);
    RunKeepsInv(Start(threadCnt), run);
    SameThreads(Start(threadCnt), run);
    var p := Run(Start(threadCnt), run);
    SubmitEffect(p, target, dup, woken);
  }

  lemma {:induction false} SameThreads(p: Pool, run: seq<Action>)
    requires Legal(p, run)
    ensures |Run(p, run).threads| == |p.threads|
    decreases |run|
  {
    if run != [] {
      SameThreads(Next(p, run[0]), run[1..]);
    }
  }

  function Turns(threads: seq<nat>): seq<Action> {
    if threads == [] then [] else [Take(threads[0])] + Turns(threads[1..])
  }

  /**
   Progress: as soon as as many awake threads as there are queued requests have
   each looked at the queue, it is empty.
   */
  lemma {:induction false} Drains(p: Pool, ts: seq<nat>)
    requires |ts| >= |p.queue| && forall j | 0 <= j < |ts| :: ts[j] < |p.threads| && p.threads[ts[j]].Awake?
    requires forall j, k | 0 <= j < k < |ts| :: ts[j] != ts[k]
    ensures Legal(p, Turns(ts)) && Run(p, Turns(ts)).queue == []
    decreases |ts|
  {
    if ts != [] {
      Drains(Next(p, Take(ts[0])), ts[1..]);
      assert Turns(ts)[1..] == Turns(ts[1..]);
    }
  }

  /**
   The state guarded by the mutex; the ghost fields are what the threads are
   doing and what has been asked of them.
   */
  class Reaper {
    var queue: seq<Target>
    var activeRequests: int
    var pipe: seq<int>
    const threadCnt: nat
    ghost var threads: seq<Phase>
    ghost var accepted: multiset<Target>
    ghost var completed: multiset<Target>

    ghost function View(): Pool
      reads this
    {
      Pool(queue, activeRequests, threads, accepted, completed, pipe)
    }

    ghost predicate Valid()
      reads this
    {
      |threads| == threadCnt && Inv(View())
    }

    constructor (threadCnt: nat)
      ensures Valid() && View() == Start(threadCnt)
    {
      this.threadCnt, queue, activeRequests, pipe := threadCnt, [], 0, [];
      threads, accepted, completed := seq(threadCnt, t => Awake), multiset{}, multiset{};
      new;
      StartInv(threadCnt);
    }

    /** async_kill, with the duplicate descriptor and the thread that notify_one picks. */
    method AsyncKill(target: Target, dup: int, ghost woken: int) returns (ok: bool)
      requires Valid() && Notifies(threads, woken)
      modifies this
      ensures Valid() && View() == Next(old(View()), Submit(target, dup, woken))
      ensures ok == (target.pidfd != -1 && |old(queue)| + Tally(old(threads), 2) < threadCnt)
      ensures queue == if ok then old(queue) + [Target(dup, target.pid, target.uid)] else old(queue)
    {
      SubmitEffect(View(), target, dup, woken);
      assert activeRequests >= 0;
      hide Inv;
      StepKeepsInv(View(), Submit(target, dup, woken));
      if target.pidfd == -1 || threadCnt == 0 || activeRequests >= threadCnt {
        return false;
      }
      activeRequests := activeRequests + 1;
      queue := queue + [Target(dup, target.pid, target.uid)];
      accepted := accepted + multiset{Target(dup, target.pid, target.uid)};
      if woken != -1 { threads := threads[woken := Awake]; }
      return true;
    }

    /** kill: `sent` is the answer of a signal sent from here; a queued request counts as success. */
    method Kill(target: Target, synchronous: bool, dup: int, sent: int, ghost woken: int)
      returns (result: int, direct: bool)
      requires Valid() && Notifies(threads, woken)
      modifies this
      ensures Valid()
      ensures !direct <==> !synchronous && target.pidfd >= 0 && |old(queue)| + Tally(old(threads), 2) < threadCnt
      ensures result == if direct then sent else 0
      ensures View() == if direct then old(View()) else Next(old(View()), Submit(target, dup, woken))
      ensures !direct ==> queue == old(queue) + [Target(dup, target.pid, target.uid)]
    {
      if target.pidfd < 0 {
        return sent, true;
      }
      if !synchronous {
        var ok := AsyncKill(target, dup, woken);
        if ok { return 0, false; }
      }
      return sent, true;
    }

    /** One turn of the loop of dequeue_request: either a request is taken or the thread goes to sleep. */
    method DequeueTurn(ghost t: nat) returns (target: Target, taken: bool)
      requires Valid() && t < |threads| && threads[t].Awake?
      modifies this
      ensures Valid() && View() == Next(old(View()), Take(t)) && taken == (old(queue) != [])
      ensures threads == old(threads)[t := if taken then Busy(target) else Asleep]
      ensures old(queue) == if taken then queue + [target] else queue
    {
      StepKeepsInv(View(), Take(t));
      target := Target(-1, 0, 0);
      taken := queue != [];
      if taken {
        target := queue[|queue| - 1];
        queue := queue[..|queue| - 1];
        threads := threads[t := Busy(target)];
      } else {
        threads := threads[t := Asleep];
      }
    }

    /** notify_kill_failure; `written` is whether the pipe took the pid. */
    method NotifyKillFailure(pid: int, written: bool, ghost t: nat)
      requires Valid() && t < |threads| && threads[t].Busy? && threads[t].target.pid == pid
      modifies this`pipe
      ensures Valid() && View() == Next(old(View()), Report(t, written))
    {
      StepKeepsInv(View(), Report(t, written));
      if written {
        pipe := pipe + [pid];
      }
    }

    method RequestComplete(ghost t: nat)
      requires Valid() && t < |threads| && threads[t].Busy?
      modifies this
      ensures Valid() && View() == Next(old(View()), Complete(t))
      ensures threads == old(threads)[t := Awake] && activeRequests == old(activeRequests) - 1 && queue == old(queue)
    {
      StepKeepsInv(View(), Complete(t));
      activeRequests := activeRequests - 1;
      completed := completed + multiset{threads[t].target};
      threads := threads[t := Awake];
    }
  }
}
