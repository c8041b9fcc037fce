/** The two-level kill counter table. */
module Counters {
  import opened Tables

  const MAX_DISTINCT: nat := 32
  const INVALID_IDX: int := 0xFF

  ghost predicate Scores(h: seq<int>) {
    forall k | 0 <= k < |h| :: InRange(h[k])
  }

  /** Kills of score s in the history h. */
  function Count(h: seq<int>, s: int): nat {
    if h == [] then 0 else Count(h[..|h| - 1], s) + if h[|h| - 1] == s then 1 else 0
  }

  /** The first 32 distinct scores of the history, in order of their first kill. */
  function Firsts(h: seq<int>): (f: seq<int>)
    ensures |f| <= MAX_DISTINCT
    ensures NoDup(f)
    ensures forall s | s in f :: s in h
  {
    if h == [] then [] else
      var s := h[|h| - 1];
      var f := Firsts(h[..|h| - 1]);
      assert h == h[..|h| - 1] + [s];
      if s in f || |f| == MAX_DISTINCT then f else f + [s]
  }

  /**
   What the table can answer for scores a to b: counters wrap at 16 bits, scores
   beyond the first 32 are not counted.
   */
  function RangeSum(h: seq<int>, a: int, b: int): nat
    decreases b - a
  {
    if a > b then 0 else (if a in Firsts(h) then Count(h, a) % 0x10000 else 0) + RangeSum(h, a + 1, b)
  }

  /** A 32-bit value read as a signed int. */
  function ToInt32(x: int): int {
    if x >= 0x8000_0000 then x - 0x1_0000_0000 else x
  }

  class KillCounters {
    const idx: array<int>
    const cnt: array<int>
    var freeIdx: nat
    var total: int
    ghost var history: seq<int>

    ghost predicate Valid()
      reads this, idx, cnt
    {
      && idx.Length == SLOTS && cnt.Length == MAX_DISTINCT && idx != cnt
      && Scores(history)
      && var f := Firsts(history);
      && freeIdx == |f| && total == |history| % 0x1_0000_0000
      && (forall k | 0 <= k < |f| ::
            InRange(f[k]) && idx[SlotOf(f[k])] == k && cnt[k] == Count(history, f[k]) % 0x10000)
      && (forall s | InRange(s) && s !in f :: idx[SlotOf(s)] == INVALID_IDX)
    }

    constructor ()
      ensures Valid() && history == [] && fresh(idx) && fresh(cnt)
    {
      idx := new int[SLOTS](_ => INVALID_IDX);
      cnt := new int[MAX_DISTINCT](_ => 0);
      freeIdx, total, history := 0, 0, [];
    }

    /** inc_killcnt. */
    method Inc(adj: int)
      requires Valid() && InRange(adj)
      modifies this, idx, cnt
      ensures Valid() && history == old(history) + [adj]
    {
      hide Firsts, Count;
      ghost var f := Firsts(history);
      HistoryStep(history, adj);
      var slot := SlotOf(adj);
      var i := idx[slot];
      if i == INVALID_IDX {
        if freeIdx < MAX_DISTINCT {
          idx[slot] := freeIdx;
          cnt[freeIdx] := 1;
          freeIdx := freeIdx + 1;
        }
      } else {
        assert adj in f;
        cnt[i] := (cnt[i] + 1) % 0x10000;
      }
      total := (total + 1) % 0x1_0000_0000;
      history := history + [adj];
    }

    /** get_killcnt. */
    method Get(minAdj: int, maxAdj: int) returns (count: int)
      requires Valid() && minAdj >= ADJ_MIN
      ensures minAdj > maxAdj ==> count == 0
      ensures ADJ_MAX < minAdj <= maxAdj ==> count == ToInt32(|history| % 0x1_0000_0000)
      ensures minAdj <= maxAdj && minAdj <= ADJ_MAX ==>
                count == RangeSum(history, minAdj, if maxAdj < ADJ_MAX then maxAdj else ADJ_MAX)
    {
      if minAdj > maxAdj { return 0; }
      if minAdj > ADJ_MAX { return ToInt32(total); }
      count := 0;
      var s := minAdj;
      ghost var last := if maxAdj < ADJ_MAX then maxAdj else ADJ_MAX;
      while s <= maxAdj && SlotOf(s) < SLOTS
        invariant minAdj <= s <= last + 1
        invariant count + RangeSum(history, s, last) == RangeSum(history, minAdj, last)
      {
        var i := idx[SlotOf(s)];
        if i != INVALID_IDX {
          count := count + cnt[i];
        }
        s := s + 1;
      }
    }
  }

  lemma HistoryStep(h: seq<int>, adj: int)
    ensures var f := Firsts(h);
            Firsts(h + [adj]) == if adj in f || |f| == MAX_DISTINCT then f else f + [adj]
    ensures forall s :: Count(h + [adj], s) == Count(h, s) + if s == adj then 1 else 0
    ensures adj !in Firsts(h) && |Firsts(h)| < MAX_DISTINCT ==> Count(h, adj) == 0
  {
    assert (h + [adj])[..|h|] == h;
    if adj !in Firsts(h) && |Firsts(h)| < MAX_DISTINCT { CountAbsent(h, adj); }
  }

  lemma {:induction false} CountAbsent(h: seq<int>, s: int)
    requires s !in Firsts(h) && |Firsts(h)| < MAX_DISTINCT
    ensures Count(h, s) == 0 && s !in h
  {
    if h != [] {
      var g := h[..|h| - 1];
      assert h == g + [h[|h| - 1]];
      CountAbsent(g, s);
    }
  }

  // ---------------------------------------------------------------- when the answer is exact

  ghost function Elems<T>(s: seq<T>): set<T> {
    set x | x in s
  }

  lemma {:induction false} ElemsSize<T>(s: seq<T>)
    requires NoDup(s)
    ensures |Elems(s)| == |s|
  {
    if s != [] {
      var n := |s| - 1;
      ElemsSize(s[..n]);
      assert s == s[..n] + [s[n]];
      assert Elems(s) == Elems(s[..n]) + {s[n]} && s[n] !in s[..n];
    }
  }

  /** No score is lost exactly when the history has at most 32 distinct ones. */
  lemma {:induction false} AllCounted(h: seq<int>)
    ensures Elems(h) == Elems(Firsts(h)) <==> |Elems(h)| <= MAX_DISTINCT
  {
    ElemsSize(Firsts(h));
    if h != [] {
      var n := |h| - 1;
      var g := h[..n];
      var x := h[n];
      assert h == g + [x];
      assert Elems(h) == Elems(g) + {x};
      SubsetSize(Elems(g), Elems(h));
      AllCounted(g);
      ElemsSize(Firsts(g));
      assert Elems(Firsts(g) + [x]) == Elems(Firsts(g)) + {x};
    }
  }

  function PlainSum(h: seq<int>, a: int, b: int): nat
    decreases b - a
  {
    if a > b then 0 else Count(h, a) + PlainSum(h, a + 1, b)
  }

  lemma {:induction false} PlainSumStep(h: seq<int>, x: int, a: int, b: int)
    ensures PlainSum(h + [x], a, b) == PlainSum(h, a, b) + if a <= x <= b then 1 else 0
    decreases b - a
  {
    assert (h + [x])[..|h|] == h;
    if a <= b { PlainSumStep(h, x, a + 1, b); }
  }

  lemma {:induction false} PlainSumAll(h: seq<int>)
    requires Scores(h)
    ensures PlainSum(h, ADJ_MIN, ADJ_MAX) == |h|
  {
    hide PlainSum;
    if h == [] {
      PlainSumEmpty(ADJ_MIN);
    } else {
      var n := |h| - 1;
      PlainSumAll(h[..n]);
      PlainSumStep(h[..n], h[n], ADJ_MIN, ADJ_MAX);
      assert h[..n] + [h[n]] == h;
    }
  }

  lemma {:induction false} PlainSumEmpty(a: int)
    ensures PlainSum([], a, ADJ_MAX) == 0
    decreases ADJ_MAX - a
  {
    if a <= ADJ_MAX { PlainSumEmpty(a + 1); }
  }

  lemma {:induction false} CountBound(h: seq<int>, s: int)
    ensures Count(h, s) <= |h| && (s !in h ==> Count(h, s) == 0)
  {
    if h != [] {
      CountBound(h[..|h| - 1], s);
    }
  }

  lemma {:induction false} RangeIsPlain(h: seq<int>, a: int, b: int)
    requires |h| < 0x10000 && Elems(h) == Elems(Firsts(h))
    ensures RangeSum(h, a, b) == PlainSum(h, a, b)
    decreases b - a
  {
    if a <= b {
      RangeIsPlain(h, a + 1, b);
      CountBound(h, a);
      assert a in Firsts(h) <==> a in Elems(h);
    }
  }

  /** With at most 32 distinct scores and fewer than 65536 kills the full-range answer is the number of kills. */
  lemma FullRangeIsTotal(h: seq<int>)
    requires Scores(h) && |h| < 0x10000 && |Elems(h)| <= MAX_DISTINCT
    ensures RangeSum(h, ADJ_MIN, ADJ_MAX) == |h|
  {
    AllCounted(h);
    RangeIsPlain(h, ADJ_MIN, ADJ_MAX);
    PlainSumAll(h);
  }
}
