/** Times and their difference in milliseconds, as the daemon computes it. */
module Clock {
  const NS_PER_SEC: int := 1_000_000_000
  const NS_PER_MS: int := 1_000_000

  datatype Timespec = Timespec(sec: int, nsec: int)

  predicate Normal(t: Timespec) {
    0 <= t.nsec < NS_PER_SEC
  }

  /** Division that truncates towards zero. */
  function Trunc(a: int, b: int): (q: int)
    requires b > 0
    ensures a >= 0 ==> q * b <= a < q * b + b
    ensures a < 0 ==> q * b - b < a <= q * b
  {
    if a >= 0 then a / b else -((-a) / b)
  }

  function Ns(t: Timespec): int {
    t.sec * NS_PER_SEC + t.nsec
  }

  /** get_time_diff_ms. */
  function DiffMs(from: Timespec, to: Timespec): int {
    (to.sec - from.sec) * 1000 + Trunc(to.nsec - from.nsec, NS_PER_MS)
  }

  /** The answer is the exact difference rounded to a millisecond, down or, where the nanoseconds need a borrow, up. */
  lemma DiffIsClose(from: Timespec, to: Timespec)
    requires Normal(from) && Normal(to)
    ensures var over := DiffMs(from, to) * NS_PER_MS - (Ns(to) - Ns(from));
            if to.nsec >= from.nsec then -NS_PER_MS < over <= 0 else 0 <= over < NS_PER_MS
  {
  }

  /** A later end never makes the difference smaller. */
  lemma DiffIsMonotone(from: Timespec, to: Timespec, later: Timespec)
    requires Normal(from) && Normal(to) && Normal(later) && Ns(to) <= Ns(later)
    ensures DiffMs(from, to) <= DiffMs(from, later)
  {
    if to.sec == later.sec {
      TruncMonotone(to.nsec - from.nsec, later.nsec - from.nsec);
    } else {
      assert to.sec < later.sec;
      TruncMonotone(to.nsec - from.nsec, NS_PER_SEC + later.nsec - from.nsec);
      TruncBorrow(later.nsec - from.nsec);
      assert Trunc(to.nsec - from.nsec, NS_PER_MS) <= 1000 + Trunc(later.nsec - from.nsec, NS_PER_MS);
    }
  }

  lemma TruncMonotone(a: int, b: int)
    requires a <= b
    ensures Trunc(a, NS_PER_MS) <= Trunc(b, NS_PER_MS)
  {
  }

  lemma TruncBorrow(a: int)
    requires -NS_PER_SEC < a < NS_PER_SEC
    ensures Trunc(NS_PER_SEC + a, NS_PER_MS) <= 1000 + Trunc(a, NS_PER_MS)
  {
  }
}
