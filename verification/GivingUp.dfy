/**
 When a search gives up. Its comment promises one process at or above the
 minimum score; but a negative answer, which only says that the records tried
 at a score were stale, ends the search at all scores.
 */
module GivingUp {
  import opened Tables
  import opened Victims
  import opened Search
  import opened SearchProperties

  // ---------------------------------------------------------------- one score

  predicate Stale(env: Env, recs: map<int, Rec>, pid: int, tick: nat) {
    pid in recs ==> !Killable(recs[pid], env.probes(tick)(pid))
  }

  /** Where an attempt was made: on which pid, and when. */
  datatype Try = Try(pid: int, tick: nat)

  /** The record tried first on the list l: its tail or, of several in heaviest mode, the heaviest. */
  function Candidate(env: Env, l: seq<int>, tick: nat, heaviest: bool): Option<int> {
    if |l| == 1 || (l != [] && !heaviest) then Some(l[|l| - 1])
    else if !heaviest then None
    else Best(l, env.sizes(tick))
  }

  /** What choosing it leaves of the list: a scan drops the records it cannot read. */
  function Left(env: Env, l: seq<int>, tick: nat, heaviest: bool): seq<int> {
    if heaviest && |l| != 1 then Keep(l, Failed(l, env.sizes(tick))) else l
  }

  /** When it is tried. */
  function Chosen(tick: nat, heaviest: bool): nat {
    if heaviest then tick + 1 else tick
  }

  lemma {:induction false} KeepMembers<T>(l: seq<T>, xs: seq<T>)
    ensures |Keep(l, xs)| <= |l| && forall x :: x in Keep(l, xs) <==> x in l && x !in xs
  {
    if l != [] {
      KeepMembers(l[1..], xs);
      assert l == [l[0]] + l[1..];
    }
  }

  lemma {:induction false} WithoutLength<T>(l: seq<T>, x: T)
    requires x in l
    ensures |Without(l, x)| == |l| - 1 && forall y :: y in Without(l, x) ==> y in l
  {
    if l[0] != x {
      assert l == [l[0]] + l[1..];
      WithoutLength(l[1..], x);
    }
  }

  /** A candidate that is dropped shortens the list. */
  lemma CandidateLeft(env: Env, l: seq<int>, tick: nat, heaviest: bool)
    ensures forall x :: x in Left(env, l, tick, heaviest) ==> x in l
    ensures var c := Candidate(env, l, tick, heaviest);
            c.Some? ==> && c.value in l && c.value in Left(env, l, tick, heaviest)
                        && |Without(Left(env, l, tick, heaviest), c.value)| < |l|
                        && forall x :: x in Without(Left(env, l, tick, heaviest), c.value) ==> x in l
  {
    hide Keep, Failed, Best, Without;
    var c, left := Candidate(env, l, tick, heaviest), Left(env, l, tick, heaviest);
    if heaviest && |l| != 1 {
      var size := env.sizes(tick);
      var k := BestIsFirstHeaviest(l, size);
      FailedMembers(l, size);
      KeepMembers(l, Failed(l, size));
      if c.Some? {
        var x := l[k];
        assert x in l;
      }
    }
    if c.Some? {
      WithoutLength(left, c.value);
    }
  }

  /** How trying a list ends: with the first record that is not stale when tried, if any, and at what time. */
  datatype End = End(found: Option<Try>, after: nat)

  function Course(env: Env, recs: map<int, Rec>, l: seq<int>, tick: nat, heaviest: bool): (e: End)
    ensures e.found.Some? ==> e.found.value.pid in recs && e.found.value.pid in l
    decreases |l|
  {
    var c, at := Candidate(env, l, tick, heaviest), Chosen(tick, heaviest);
    CandidateLeft(env, l, tick, heaviest);
    if c.None? then End(None, at)
    else if !Stale(env, recs, c.value, at) then End(Some(Try(c.value, at)), at + 1)
    else Course(env, recs, Without(Left(env, l, tick, heaviest), c.value), at + 1, heaviest)
  }

  /** Only the records on the list matter. */
  lemma {:induction false} CourseFrame(
    env: Env, recs: map<int, Rec>, other: map<int, Rec>, l: seq<int>, tick: nat, heaviest: bool)
    requires forall x | x in l :: x in recs && x in other && recs[x] == other[x]
    ensures Course(env, recs, l, tick, heaviest) == Course(env, other, l, tick, heaviest)
    decreases |l|
  {
    hide Candidate, Left, Without;
    CandidateLeft(env, l, tick, heaviest);
    var c, at := Candidate(env, l, tick, heaviest), Chosen(tick, heaviest);
    if c.Some? {
      var x := c.value;
      assert x in recs && x in other && recs[x] == other[x];
      CourseFrame(env, recs, other, Without(Left(env, l, tick, heaviest), c.value), at + 1, heaviest);
    }
  }

  /** How choosing a candidate looks on its list. */
  lemma PickIs(env: Env, w: World, i: int, heaviest: bool)
    requires WellFormed(w.table) && InRange(i) && |w.table.slots| == SLOTS
    ensures var (u, c) := Pick(env, w, i, heaviest);
            var l := w.table.slots[SlotOf(i)];
            && c == Candidate(env, l, w.tick, heaviest) && u.tick == Chosen(w.tick, heaviest)
            && |u.table.slots| == SLOTS && u.table.slots[SlotOf(i)] == Left(env, l, w.tick, heaviest)
  {
    hide WellFormed, RemoveAll, Best, Failed, Keep;
    var l := w.table.slots[SlotOf(i)];
    if heaviest && |l| != 1 {
      RemoveAllSlots(w.table, Failed(l, env.sizes(w.tick)));
      SlotCount(Pick(env, w, i, heaviest).0.table);
    }
  }

  /** How a score ends, in terms of its list before. */
  ghost predicate EndsSo(cfg: Cfg, env: Env, t: Table, l: seq<int>, tick: nat, h: bool, last: int, u: World, r: int)
    requires cfg.pageKb > 0
  {
    var e := Course(env, t.recs, l, tick, h);
    && u.tick == e.after
    && r == match e.found
            case Some(a) => Answer(cfg, t.recs[a.pid], env.probes(a.tick)(a.pid))
            case None => if Candidate(env, l, tick, h).Some? then -1 else last
  }

  lemma {:induction false} TryCourse(cfg: Cfg, env: Env, w: World, i: int, h: bool, last: int)
    requires WellFormed(w.table) && InRange(i) && cfg.pageKb > 0 && |w.table.slots| == SLOTS
    requires last == 0 || last == -1
    ensures var (u, r) := TryScore(cfg, env, w, i, h, last);
            EndsSo(cfg, env, w.table, w.table.slots[SlotOf(i)], w.tick, h, last, u, r)
    decreases |w.table.recs|
  {
    hide WellFormed, Pick, KillOne, Candidate, Left, Without, Killable, Answer, OnlyAt;
    var l := w.table.slots[SlotOf(i)];
    PickIs(env, w, i, h);
    var (w1, c) := Pick(env, w, i, h);
    if c.Some? {
      var (w2, r) := KillOne(cfg, env, w1, c.value);
      Tried(cfg, env, w, w1, i, h, c.value);
      if r < 0 {
        var rest := Without(Left(env, l, w.tick, h), c.value);
        CourseFrame(env, w.table.recs, w2.table.recs, rest, w2.tick, h);
        TryCourse(cfg, env, w2, i, h, r);
      }
    }
  }

  /** Trying the candidate: its answer, and the list it leaves if it was stale. */
  lemma Tried(cfg: Cfg, env: Env, w: World, w1: World, i: int, h: bool, pid: int)
    requires WellFormed(w.table) && InRange(i) && cfg.pageKb > 0
    requires Pick(env, w, i, h) == (w1, Some(pid))
    ensures pid in w1.table.recs && pid in w.table.recs && |w1.table.slots| == SLOTS
    ensures var (w2, r) := KillOne(cfg, env, w1, pid);
            && w2.tick == w1.tick + 1 && |w2.table.slots| == SLOTS
            && r == Answer(cfg, w.table.recs[pid], env.probes(w1.tick)(pid))
            && (r < 0 <==> Stale(env, w.table.recs, pid, w1.tick)) && (r < 0 ==> r == -1)
            && (r < 0 ==> w2.table.slots[SlotOf(i)] == Without(w1.table.slots[SlotOf(i)], pid))
            && (r < 0 ==> forall x | x in w2.table.slots[SlotOf(i)] ::
                            x in w.table.recs && x in w2.table.recs && w.table.recs[x] == w2.table.recs[x])
  {
    hide WellFormed, Pick, Killable, KillTable, Pages, Exhausted, Without, PidRemove;
    PickOutcome(env, w, i, h);
    KillStep(cfg, env, w1, pid);
    KillGone(cfg, env, w1, pid);
    SlotCount(w1.table);
    var (w2, r) := KillOne(cfg, env, w1, pid);
    SlotCount(w2.table);
    NonNegative(cfg, w.table.recs[pid], env.probes(w1.tick)(pid));
    if r < 0 {
      RemoveSlot(w1.table, pid, SlotOf(i));
      forall x | x in w2.table.slots[SlotOf(i)]
        ensures x in w.table.recs && x in w2.table.recs && w.table.recs[x] == w2.table.recs[x]
      {
        var k :| 0 <= k < |w2.table.slots[SlotOf(i)]| && w2.table.slots[SlotOf(i)][k] == x;
        SlotEntry(w2.table, SlotOf(i), k, x);
      }
    }
  }

  lemma NonNegative(cfg: Cfg, r: Rec, p: Probe)
    requires cfg.pageKb > 0
    ensures Answer(cfg, r, p) >= -1 && (Answer(cfg, r, p) < 0 <==> !Killable(r, p))
  {
  }

  lemma {:induction false} CourseAnswers(cfg: Cfg, env: Env, recs: map<int, Rec>, l: seq<int>, tick: nat, h: bool)
    requires cfg.pageKb > 0
    ensures var e := Course(env, recs, l, tick, h);
            e.found.Some? ==>
              Answer(cfg, recs[e.found.value.pid], env.probes(e.found.value.tick)(e.found.value.pid)) >= 0
    decreases |l|
  {
    hide Pages, Candidate, Left, Without;
    CandidateLeft(env, l, tick, h);
    var c, at := Candidate(env, l, tick, h), Chosen(tick, h);
    if c.Some? && Stale(env, recs, c.value, at) {
      CourseAnswers(cfg, env, recs, Without(Left(env, l, tick, h), c.value), at + 1, h);
    }
  }

  /** The list is given up: there is something to try, and all of it that is tried is stale. */
  predicate GivenUp(env: Env, recs: map<int, Rec>, l: seq<int>, tick: nat, h: bool) {
    Candidate(env, l, tick, h).Some? && Course(env, recs, l, tick, h).found.None?
  }

  /** The search goes on below the list: nothing is there to try, or the first record that is not stale answers 0. */
  predicate Passed(cfg: Cfg, env: Env, recs: map<int, Rec>, l: seq<int>, tick: nat, h: bool)
    requires cfg.pageKb > 0
  {
    match Course(env, recs, l, tick, h).found
    case None => Candidate(env, l, tick, h).None?
    case Some(a) => Answer(cfg, recs[a.pid], env.probes(a.tick)(a.pid)) == 0
  }

  // ---------------------------------------------------------------- one score, in tail mode

  /** Every record of l is stale when its turn comes, tail first and one per tick. */
  predicate AllStale(env: Env, recs: map<int, Rec>, l: seq<int>, tick: nat) {
    forall k | 0 <= k < |l| :: Stale(env, recs, l[k], tick + (|l| - 1 - k))
  }

  lemma AllStaleStep(env: Env, recs: map<int, Rec>, l: seq<int>, tick: nat)
    requires l != []
    ensures var n := |l| - 1;
            AllStale(env, recs, l, tick) <==> Stale(env, recs, l[n], tick) && AllStale(env, recs, l[..n], tick + 1)
  {
    hide Stale;
    var n := |l| - 1;
    var rest := l[..n];
    if AllStale(env, recs, l, tick) {
      assert Stale(env, recs, l[n], tick + (|l| - 1 - n));
      forall k | 0 <= k < n ensures Stale(env, recs, rest[k], tick + 1 + (n - 1 - k)) {
        assert Stale(env, recs, l[k], tick + (|l| - 1 - k));
      }
    }
    if Stale(env, recs, l[n], tick) && AllStale(env, recs, rest, tick + 1) {
      forall k | 0 <= k < |l| ensures Stale(env, recs, l[k], tick + (|l| - 1 - k)) {
        if k < n {
          assert Stale(env, recs, rest[k], tick + 1 + (n - 1 - k));
        }
      }
    }
  }

  /**
   In tail mode a list is given up exactly when it is not empty and every record
   on it is stale when its turn comes.
   */
  lemma {:induction false} GivesUpTail(env: Env, recs: map<int, Rec>, l: seq<int>, tick: nat)
    requires NoDup(l)
    ensures GivenUp(env, recs, l, tick, false) <==> l != [] && AllStale(env, recs, l, tick)
    ensures Course(env, recs, l, tick, false).found.None? <==> AllStale(env, recs, l, tick)
  {
    if l != [] {
      var n := |l| - 1;
      assert l[n] !in l[..n];
      WithoutAt(l, l[n], n);
      assert Without(l, l[n]) == l[..n];
      hide Best, Failed, Keep, AllStale, Stale, Without;
      GivesUpTail(env, recs, l[..n], tick + 1);
      AllStaleStep(env, recs, l, tick);
    }
  }

  // ---------------------------------------------------------------- a whole search

  /** The tick at which a search that is at score `top` at `tick` gets to score j, by the registry it starts with. */
  function Arrival(env: Env, t: Table, top: int, tick: nat, h: bool, j: int): nat
    requires |t.slots| == SLOTS && InRange(j) && top <= ADJ_MAX
    decreases top - j
  {
    if j >= top then tick
    else Course(env, t.recs, t.slots[SlotOf(j + 1)], Arrival(env, t, top, tick, h, j + 1), Mode(h, j + 1)).after
  }

  /** By the registry it starts with, the search gives up at score j. */
  ghost predicate GivesUpAt(cfg: Cfg, env: Env, t: Table, top: int, tick: nat, h: bool, j: int)
    requires |t.slots| == SLOTS && cfg.pageKb > 0 && top <= ADJ_MAX && InRange(j)
  {
    && GivenUp(env, t.recs, t.slots[SlotOf(j)], Arrival(env, t, top, tick, h, j), Mode(h, j))
    && forall k | j < k <= top ::
         Passed(cfg, env, t.recs, t.slots[SlotOf(k)], Arrival(env, t, top, tick, h, k), Mode(h, k))
  }

  /** w1 is w after the score i. */
  ghost predicate Below(env: Env, w: World, w1: World, i: int, h: bool) {
    && WellFormed(w.table) && WellFormed(w1.table) && InRange(i) && OnlyAt(w.table, w1.table, i)
    && w1.tick == Course(env, w.table.recs, w.table.slots[SlotOf(i)], w.tick, Mode(h, i)).after
  }

  /** Below the score just searched the registry gives the same picture as before. */
  lemma SamePicture(env: Env, w: World, w1: World, i: int, h: bool, j: int, tick: nat)
    requires Below(env, w, w1, i, h) && InRange(j) && j < i
    ensures var l := w.table.slots[SlotOf(j)];
            && w1.table.slots[SlotOf(j)] == l && Mode(Mode(h, i), j) == Mode(h, j)
            && Course(env, w1.table.recs, l, tick, Mode(h, j)) == Course(env, w.table.recs, l, tick, Mode(h, j))
            && forall x | x in l :: x in w.table.recs && x in w1.table.recs && w.table.recs[x] == w1.table.recs[x]
  {
    hide WellFormed, Course;
    var l := w.table.slots[SlotOf(j)];
    forall x | x in l ensures x in w.table.recs && x in w1.table.recs && w.table.recs[x] == w1.table.recs[x] {
      var k :| 0 <= k < |l| && l[k] == x;
      SlotEntry(w1.table, SlotOf(j), k, x);
    }
    CourseFrame(env, w1.table.recs, w.table.recs, l, tick, Mode(h, j));
  }

  lemma {:induction false} ArrivalKept(env: Env, w: World, w1: World, i: int, h: bool, j: int)
    requires Below(env, w, w1, i, h) && InRange(j) && j < i
    ensures Arrival(env, w1.table, i - 1, w1.tick, Mode(h, i), j) == Arrival(env, w.table, i, w.tick, h, j)
    decreases i - j
  {
    hide WellFormed, Course;
    if j < i - 1 {
      ArrivalKept(env, w, w1, i, h, j + 1);
      SamePicture(env, w, w1, i, h, j + 1, Arrival(env, w.table, i, w.tick, h, j + 1));
    }
  }

  lemma PassedKept(cfg: Cfg, env: Env, w: World, w1: World, i: int, h: bool, j: int)
    requires Below(env, w, w1, i, h) && InRange(j) && j < i && cfg.pageKb > 0
    ensures var l, was := w.table.slots[SlotOf(j)], Arrival(env, w.table, i, w.tick, h, j);
            var now := Arrival(env, w1.table, i - 1, w1.tick, Mode(h, i), j);
            && w1.table.slots[SlotOf(j)] == l
            && (GivenUp(env, w1.table.recs, l, now, Mode(Mode(h, i), j)) <==>
                GivenUp(env, w.table.recs, l, was, Mode(h, j)))
            && (Passed(cfg, env, w1.table.recs, l, now, Mode(Mode(h, i), j)) <==>
                Passed(cfg, env, w.table.recs, l, was, Mode(h, j)))
  {
    hide WellFormed, Arrival, Answer, Candidate;
    ArrivalKept(env, w, w1, i, h, j);
    SamePicture(env, w, w1, i, h, j, Arrival(env, w.table, i, w.tick, h, j));
    hide Course;
  }

  /** So giving up at a lower score looks the same before and after the score just searched. */
  lemma GivesUpBelow(cfg: Cfg, env: Env, w: World, w1: World, i: int, h: bool, j: int)
    requires Below(env, w, w1, i, h) && InRange(j) && j < i && cfg.pageKb > 0
    requires Passed(cfg, env, w.table.recs, w.table.slots[SlotOf(i)], w.tick, Mode(h, i))
    ensures GivesUpAt(cfg, env, w1.table, i - 1, w1.tick, Mode(h, i), j) <==>
            GivesUpAt(cfg, env, w.table, i, w.tick, h, j)
  {
    hide WellFormed, GivenUp, Passed, Course;
    PassedKept(cfg, env, w, w1, i, h, j);
    forall k | j < k < i
      ensures w1.table.slots[SlotOf(k)] == w.table.slots[SlotOf(k)]
      ensures Passed(cfg, env, w1.table.recs, w1.table.slots[SlotOf(k)],
                     Arrival(env, w1.table, i - 1, w1.tick, Mode(h, i), k), Mode(Mode(h, i), k))
         <==> Passed(cfg, env, w.table.recs, w.table.slots[SlotOf(k)],
                     Arrival(env, w.table, i, w.tick, h, k), Mode(h, k))
    {
      PassedKept(cfg, env, w, w1, i, h, k);
    }
  }

  /** What the score a search is at does to it. */
  lemma TopScore(cfg: Cfg, env: Env, w: World, i: int, h: bool)
    requires WellFormed(w.table) && |w.table.slots| == SLOTS && InRange(i) && cfg.pageKb > 0
    ensures var (w1, r) := TryScore(cfg, env, w, i, Mode(h, i), 0);
            && (r < 0 <==> GivesUpAt(cfg, env, w.table, i, w.tick, h, i))
            && (r == 0 <==> Passed(cfg, env, w.table.recs, w.table.slots[SlotOf(i)], w.tick, Mode(h, i)))
            && Below(env, w, w1, i, h)
  {
    hide WellFormed, TryScore, Course, Exhausted, Answer, Candidate, OnlyAt;
    TryOutcome(cfg, env, w, i, Mode(h, i), 0);
    TryCourse(cfg, env, w, i, Mode(h, i), 0);
    CourseAnswers(cfg, env, w.table.recs, w.table.slots[SlotOf(i)], w.tick, Mode(h, i));
  }

  lemma NotBelow(cfg: Cfg, env: Env, w: World, i: int, h: bool, j: int)
    requires |w.table.slots| == SLOTS && InRange(i) && InRange(j) && j < i && cfg.pageKb > 0
    requires !Passed(cfg, env, w.table.recs, w.table.slots[SlotOf(i)], w.tick, Mode(h, i))
    ensures !GivesUpAt(cfg, env, w.table, i, w.tick, h, j)
  {
    hide Passed, GivenUp;
    assert Arrival(env, w.table, i, w.tick, h, i) == w.tick;
  }

  /**
   A whole search, by the registry it starts with and in every mode: it gives up
   exactly when, at some score, there is something to try and all that is tried
   is stale, while on every higher list there is nothing to try or the first
   record that is not stale answers 0.
   */
  lemma {:induction false} GivesUpIff(cfg: Cfg, env: Env, w: World, i: int, min: int, h: bool)
    requires WellFormed(w.table) && |w.table.slots| == SLOTS && ADJ_MIN <= min && i <= ADJ_MAX && cfg.pageKb > 0
    ensures Find(cfg, env, w, i, min, h).1 < 0 <==>
            exists j :: min <= j <= i && GivesUpAt(cfg, env, w.table, i, w.tick, h, j)
    decreases if i < min then 0 else i - min + 1
  {
    hide WellFormed, TryScore, GivesUpAt, Passed, Course, OnlyAt;
    if i >= min {
      var lower := Mode(h, i);
      var (w1, r) := TryScore(cfg, env, w, i, lower, 0);
      TopScore(cfg, env, w, i, h);
      if r == 0 {
        var below := i - 1;
        SlotCount(w1.table);
        GivesUpIff(cfg, env, w1, below, min, lower);
        forall j | min <= j < i
          ensures GivesUpAt(cfg, env, w1.table, below, w1.tick, lower, j) <==>
                  GivesUpAt(cfg, env, w.table, i, w.tick, h, j)
        {
          GivesUpBelow(cfg, env, w, w1, i, h, j);
        }
        if j :| min <= j <= i && GivesUpAt(cfg, env, w.table, i, w.tick, h, j) {
          assert GivesUpAt(cfg, env, w1.table, below, w1.tick, lower, j);
        }
        if j :| min <= j <= below && GivesUpAt(cfg, env, w1.table, below, w1.tick, lower, j) {
          assert GivesUpAt(cfg, env, w.table, i, w.tick, h, j);
        }
      } else if r > 0 {
        forall j | min <= j < i ensures !GivesUpAt(cfg, env, w.table, i, w.tick, h, j) {
          NotBelow(cfg, env, w, i, h, j);
        }
      }
    }
  }

  // ---------------------------------------------------------------- what it takes

  /** A record of score i was tried at a time between w and u, found stale and dropped. */
  ghost predicate TriedStale(env: Env, w: World, u: World, i: int, a: Try) {
    && a.pid in w.table.recs && w.table.recs[a.pid].oomadj == i && a.pid !in u.table.recs
    && w.tick <= a.tick < u.tick && !Killable(w.table.recs[a.pid], env.probes(a.tick)(a.pid))
  }

  lemma TryGivesUp(cfg: Cfg, env: Env, w: World, i: int, h: bool) returns (a: Try)
    requires WellFormed(w.table) && InRange(i) && cfg.pageKb > 0
    ensures |w.table.slots| == SLOTS
    ensures var (u, r) := TryScore(cfg, env, w, i, h, 0);
            r < 0 ==> && TriedStale(env, w, u, i, a) && a.tick == Chosen(w.tick, h)
                      && Candidate(env, w.table.slots[SlotOf(i)], w.tick, h) == Some(a.pid)
  {
    hide WellFormed, KillOne, Pick, Exhausted, Candidate;
    SlotCount(w.table);
    PickIs(env, w, i, h);
    PickOutcome(env, w, i, h);
    var (w1, c) := Pick(env, w, i, h);
    a := Try(if c.Some? then c.value else 0, w1.tick);
    if c.Some? {
      var (w2, r) := KillOne(cfg, env, w1, c.value);
      KillStep(cfg, env, w1, c.value);
      KillGone(cfg, env, w1, c.value);
      FirstStale(cfg, env, w1, c.value);
      if r < 0 {
        TryOutcome(cfg, env, w2, i, h, r);
      }
    }
  }

  lemma FirstStale(cfg: Cfg, env: Env, w: World, pid: int)
    requires WellFormed(w.table) && pid in w.table.recs && cfg.pageKb > 0
    ensures KillOne(cfg, env, w, pid).1 < 0 <==> !Killable(w.table.recs[pid], env.probes(w.tick)(pid))
  {
  }

  /** The first attempt the search makes at score j, by the registry it starts with. */
  predicate FirstAt(env: Env, t: Table, top: int, tick: nat, h: bool, j: int, a: Try)
    requires |t.slots| == SLOTS && InRange(j) && top <= ADJ_MAX
  {
    var arrival := Arrival(env, t, top, tick, h, j);
    && Candidate(env, t.slots[SlotOf(j)], arrival, Mode(h, j)) == Some(a.pid)
    && a.tick == Chosen(arrival, Mode(h, j))
  }

  lemma FirstBelow(env: Env, w: World, w1: World, i: int, h: bool, j: int, a: Try)
    requires Below(env, w, w1, i, h) && InRange(j) && j < i
    ensures FirstAt(env, w1.table, i - 1, w1.tick, Mode(h, i), j, a) <==> FirstAt(env, w.table, i, w.tick, h, j, a)
  {
    hide WellFormed, Arrival, Candidate, Course;
    ArrivalKept(env, w, w1, i, h, j);
    SamePicture(env, w, w1, i, h, j, 0);
  }

  /**
   In every mode a search that gives up stops at a score where its first attempt
   was on a record that it found stale and dropped.
   */
  lemma {:induction false} GivesUpOnStale(cfg: Cfg, env: Env, w: World, i: int, min: int, h: bool)
    returns (stop: int, a: Try)
    requires WellFormed(w.table) && |w.table.slots| == SLOTS && ADJ_MIN <= min && i <= ADJ_MAX && cfg.pageKb > 0
    ensures var (u, r) := Find(cfg, env, w, i, min, h);
            r < 0 ==>
              && min <= stop <= i && |u.table.slots| == SLOTS && Stopped(env, w, u, r, i, min, h, stop)
              && FirstAt(env, w.table, i, w.tick, h, stop, a) && TriedStale(env, w, u, stop, a)
    decreases if i < min then 0 else i - min + 1
  {
    hide WellFormed, TryScore, Stopped, Spent, Course, Candidate;
    stop, a := i, Try(0, 0);
    if i >= min {
      var h' := Mode(h, i);
      var (w1, r) := TryScore(cfg, env, w, i, h', 0);
      ScoreEnds(cfg, env, w, i, min, h);
      SlotCount(w1.table);
      if r != 0 {
        a := TryGivesUp(cfg, env, w, i, h');
      } else {
        TopScore(cfg, env, w, i, h);
        stop, a := GivesUpOnStale(cfg, env, w1, i - 1, min, h');
        var (u, r') := Find(cfg, env, w1, i - 1, min, h');
        if r' < 0 {
          OneMore(env, w, w1, u, r', i, min, h, stop);
          FirstBelow(env, w, w1, i, h, stop, a);
        }
      }
    }
  }

  /** No record of score at least `min` is ever found stale. */
  ghost predicate NoneStale(env: Env, t: Table, min: int) {
    forall n, pid | pid in t.recs && t.recs[pid].oomadj >= min :: Killable(t.recs[pid], env.probes(n)(pid))
  }

  /** Without stale records the search does not give up, in any mode. */
  lemma NeverGivesUp(cfg: Cfg, env: Env, w: World, min: int)
    requires WellFormed(w.table) && ADJ_MIN <= min && cfg.pageKb > 0 && NoneStale(env, w.table, min)
    ensures FindAndKill(cfg, env, w, min).1 >= 0
  {
    hide WellFormed, Find, Killable;
    SlotCount(w.table);
    var stop, a := GivesUpOnStale(cfg, env, w, ADJ_MAX, min, cfg.heaviest);
  }

  // ---------------------------------------------------------------- a search that fails its promise

  /** A registry with one record at 1000 that died meanwhile and a live one at 999. */
  function TwoRecords(): Table {
    Table(map[1 := Rec(1, -1, 0, 1000, 7, true), 2 := Rec(2, -1, 0, 999, 7, true)],
          seq(SLOTS, i => if i == 2000 then [1] else if i == 1999 then [2] else []), -1, {}, 0)
  }

  lemma TwoRecordsOk()
    ensures WellFormed(TwoRecords()) && TwoRecords().slots[2000] == [1] && TwoRecords().slots[1999] == [2]
  {
    var t := TwoRecords();
    assert t.slots[2000] == [1] && t.slots[1999] == [2];
  }

  /**
   The promise to find a process at or above the minimum score fails: one stale
   record at a higher score is enough.
   */
  lemma GivesUpEarly(cfg: Cfg, env: Env, w: World)
    requires cfg.pageKb > 0 && !cfg.heaviest && w.table == TwoRecords()
    requires forall n :: env.probes(n)(1).status == None
    ensures WellFormed(w.table)
    ensures var (u, r) := FindAndKill(cfg, env, w, 0);
            r < 0 && u.log == w.log && 2 in u.table.recs && u.table.recs[2].valid
  {
    hide WellFormed, TryScore, Exhausted;
    TwoRecordsOk();
    var u := TryScore(cfg, env, w, 1000, false, 0).0;
    TryCourse(cfg, env, w, 1000, false, 0);
    GivesUpTail(env, w.table.recs, [1], w.tick);
    TryOutcome(cfg, env, w, 1000, false, 0);
    SlotEntry(u.table, 1999, 0, 2);
  }
}
