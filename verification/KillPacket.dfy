/** The kill-occurred report: big-endian integers and a length-prefixed task name, packed into 222 bytes. */
module KillPacket {
  import opened Tables

  const REPLY_MAX: nat := 222
  const NAME_MAX: nat := 128
  const LMK_STAT_KILL_OCCURRED: int := 8

  type byte = x: int | 0 <= x < 256

  function Pow256(n: nat): (p: nat)
    ensures p > 0
  {
    if n == 0 then 1 else 256 * Pow256(n - 1)
  }

  /** The n-byte big-endian form of v. */
  function BigEndian(n: nat, v: nat): (s: seq<byte>)
    ensures |s| == n
  {
    if n == 0 then [] else BigEndian(n - 1, v / 256) + [v % 256]
  }

  function FromBigEndian(s: seq<byte>): nat {
    if s == [] then 0 else 256 * FromBigEndian(s[..|s| - 1]) + s[|s| - 1]
  }

  lemma {:induction false} BigEndianRead(n: nat, v: nat)
    requires v < Pow256(n)
    ensures FromBigEndian(BigEndian(n, v)) == v
  {
    if n > 0 {
      BigEndianRead(n - 1, v / 256);
      var s := BigEndian(n, v);
      assert s[..n - 1] == BigEndian(n - 1, v / 256);
    }
  }

  /** The two integer widths of the packet. */
  datatype Width = Int32 | Int64 {
    function Bytes(): nat {
      match this case Int32 => 4 case Int64 => 8
    }

    /** Two's complement: what storing v keeps. */
    function Wrap(v: int): nat {
      match this case Int32 => v % 0x1_0000_0000 case Int64 => v % 0x1_0000_0000_0000_0000
    }

    /** What a signed reader makes of the stored value. */
    function Signed(u: nat): int {
      match this
      case Int32 => if u >= 0x8000_0000 then u - 0x1_0000_0000 else u
      case Int64 => if u >= 0x8000_0000_0000_0000 then u - 0x1_0000_0000_0000_0000 else u
    }

    predicate Fits(v: int) {
      match this
      case Int32 => -0x8000_0000 <= v < 0x8000_0000
      case Int64 => -0x8000_0000_0000_0000 <= v < 0x8000_0000_0000_0000
    }
  }

  lemma SignedWrap(w: Width, v: int)
    requires w.Fits(v)
    ensures w.Signed(w.Wrap(v)) == v
  {
  }

  lemma Powers()
    ensures Pow256(4) == 0x1_0000_0000 && Pow256(8) == 0x1_0000_0000_0000_0000
  {
    assert Pow256(2) == 65536;
    assert Pow256(3) == 256 * Pow256(2);
    assert Pow256(5) == 256 * Pow256(4);
    assert Pow256(6) == 256 * Pow256(5);
    assert Pow256(7) == 256 * Pow256(6);
  }

  function Ints(w: Width, values: seq<int>): (s: seq<byte>)
    ensures |s| == w.Bytes() * |values|
  {
    if values == [] then [] else
      Ints(w, values[..|values| - 1]) + BigEndian(w.Bytes(), w.Wrap(values[|values| - 1]))
  }

  /** The i-th integer of a packed row reads back at its offset, truncated to its width. */
  lemma {:induction false} IntsRead(w: Width, values: seq<int>, i: nat)
    requires i < |values|
    ensures var s := Ints(w, values);
            FromBigEndian(s[w.Bytes() * i..w.Bytes() * (i + 1)]) == w.Wrap(values[i])
  {
    var n := |values| - 1;
    var s, b := Ints(w, values), w.Bytes();
    if i < n {
      IntsRead(w, values[..n], i);
      assert s[b * i..b * (i + 1)] == Ints(w, values[..n])[b * i..b * (i + 1)];
    } else {
      assert s[b * i..b * (i + 1)] == BigEndian(b, w.Wrap(values[n]));
      Powers();
      BigEndianRead(b, w.Wrap(values[n]));
    }
  }

  /** Stores a run of bytes at `index`. */
  method Store(packet: array<byte>, index: nat, bytes: seq<byte>) returns (next: nat)
    requires index + |bytes| <= packet.Length
    modifies packet
    ensures next == index + |bytes|
    ensures packet[..next] == old(packet[..index]) + bytes && packet[next..] == old(packet[next..])
  {
    for k := 0 to |bytes|
      invariant packet[..index + k] == old(packet[..index]) + bytes[..k]
      invariant packet[index + k..] == old(packet[index + k..])
    {
      packet[index + k] := bytes[k];
    }
    return index + |bytes|;
  }

  /** pack_int32 and pack_int64, one after another for a row of values. */
  method PackInts(packet: array<byte>, index: nat, w: Width, values: seq<int>) returns (next: nat)
    requires index + w.Bytes() * |values| <= packet.Length
    modifies packet
    ensures next == index + w.Bytes() * |values|
    ensures packet[..next] == old(packet[..index]) + Ints(w, values) && packet[next..] == old(packet[next..])
  {
    next := index;
    for k := 0 to |values|
      invariant next == index + w.Bytes() * k <= packet.Length
      invariant packet[..next] == old(packet[..index]) + Ints(w, values[..k])
      invariant packet[next..] == old(packet[next..])
    {
      assert values[..k + 1][..k] == values[..k];
      ghost var tail := packet[next..];
      next := Store(packet, next, BigEndian(w.Bytes(), w.Wrap(values[k])));
      assert packet[next..] == tail[w.Bytes()..];
    }
    assert values[..|values|] == values;
  }

  /** A C string: no byte of it is NUL. */
  predicate CString(s: seq<byte>) {
    0 !in s
  }

  function Capped(name: seq<byte>): (s: seq<byte>)
    ensures |s| < NAME_MAX && s <= name
  {
    if |name| < NAME_MAX then name else name[..NAME_MAX - 1]
  }

  /** The 130 bytes of the name field: a two-byte length, the capped name and NULs up to 128 bytes. */
  function NameField(name: seq<byte>): (s: seq<byte>)
    ensures |s| == 2 + NAME_MAX
  {
    var n := Capped(name);
    BigEndian(2, |n|) + n + seq(NAME_MAX - |n|, _ => 0)
  }

  function Padded(value: seq<byte>, n: nat): (s: seq<byte>)
    ensures |s| == n
  {
    seq(n, i requires 0 <= i < n => if i < |value| then value[i] else 0)
  }

  /** strncpy of n bytes: what the value lacks is filled with NULs. */
  method CopyPadded(packet: array<byte>, index: nat, value: seq<byte>, n: nat)
    requires index + n <= packet.Length
    modifies packet
    ensures packet[..index + n] == old(packet[..index]) + Padded(value, n)
    ensures packet[index + n..] == old(packet[index + n..])
  {
    for k := 0 to n
      invariant packet[..index + k] == old(packet[..index]) + Padded(value, n)[..k]
      invariant packet[index + k..] == old(packet[index + k..])
    {
      packet[index + k] := if k < |value| then value[k] else 0;
    }
  }

  method PackString(packet: array<byte>, index: nat, value: seq<byte>) returns (next: nat)
    requires index + 2 + NAME_MAX <= packet.Length
    modifies packet
    ensures next == index + 2 + |Capped(value)| + 1
    ensures var end := index + 2 + NAME_MAX;
            packet[..end] == old(packet[..index]) + NameField(value) && packet[end..] == old(packet[end..])
  {
    hide BigEndian;
    var len := if |value| < NAME_MAX - 1 then |value| else NAME_MAX - 1;
    var start := Store(packet, index, BigEndian(2, len));
    ghost var tail := packet[start..];
    CopyPadded(packet, start, value, NAME_MAX - 1);
    var last := start + NAME_MAX - 1;
    assert packet[last..] == tail[NAME_MAX - 1..];
    ghost var copied := packet[..last];
    packet[last] := 0;
    assert packet[..last + 1] == copied + [0];
    assert packet[last + 1..] == tail[NAME_MAX..];
    assert BigEndian(2, len) + Padded(value, NAME_MAX - 1) + [0] == NameField(value);
    next := start + len + 1;
  }

  datatype MemStat = MemStat(
    pgfault: int, pgmajfault: int, rssInBytes: int, cacheInBytes: int, swapInBytes: int, processStartTimeNs: int)

  datatype KillStat = KillStat(
    uid: int, oomScore: int, minOomScore: int, freeMemKb: int, freeSwapKb: int,
    reason: int, thrashing: int, maxThrashing: int, name: seq<byte>)

  const NO_MEMORY := MemStat(-1, -1, -1, -1, -1, -1)

  function MemRow(m: MemStat): (r: seq<int>)
  {
    [m.pgfault, m.pgmajfault, m.rssInBytes, m.cacheInBytes, m.swapInBytes, m.processStartTimeNs]
  }

  function KillRow(k: KillStat): (r: seq<int>)
  {
    [k.uid, k.oomScore, k.minOomScore, k.freeMemKb, k.freeSwapKb, k.reason, k.thrashing, k.maxThrashing]
  }

  /** The first 214 bytes of the packet; the last eight of the 222 are never written. */
  function Encoded(m: MemStat, k: KillStat): (s: seq<byte>)
    ensures |s| == 84 + 2 + NAME_MAX
  {
    Ints(Int32, [LMK_STAT_KILL_OCCURRED]) + Ints(Int64, MemRow(m)) + Ints(Int32, KillRow(k)) + NameField(k.name)
  }

  /** How many of them are sent. */
  function SentLength(k: KillStat): (n: nat)
    ensures n <= 84 + 2 + NAME_MAX
  {
    84 + 2 + |Capped(k.name)| + 1
  }

  method PackSetKillOccurred(packet: array<byte>, enabled: bool, k: KillStat, m: Option<MemStat>)
    returns (n: nat)
    requires packet.Length == REPLY_MAX
    modifies packet
    ensures !enabled ==> n == 0 && packet[..] == old(packet[..])
    ensures enabled ==> n == SentLength(k)
    ensures enabled ==> packet[..214] == Encoded(if m.Some? then m.value else NO_MEMORY, k)
                        && packet[214..] == old(packet[214..])
  {
    hide Ints, NameField;
    if !enabled {
      return 0;
    }
    ghost var before := packet[..];
    var index := PackInts(packet, 0, Int32, [LMK_STAT_KILL_OCCURRED]);
    if m.Some? {
      index := PackInts(packet, index, Int64, MemRow(m.value));
    } else {
      index := PackInts(packet, index, Int64, MemRow(NO_MEMORY));
    }
    assert packet[index..] == before[index..];
    index := PackInts(packet, index, Int32, KillRow(k));
    assert packet[index..] == before[index..];
    ghost var rest := packet[index..];
    n := PackString(packet, index, k.name);
    assert packet[214..] == rest[130..] == before[214..];
  }

  datatype Report = Report(kind: int, memory: MemStat, kill: KillStat)

  function Read(w: Width, s: seq<byte>, at: nat): (v: int)
    requires at + w.Bytes() <= |s|
  {
    w.Signed(FromBigEndian(s[at..at + w.Bytes()]))
  }

  /** The reader on the other end of the socket, over the bytes that were sent. */
  function Decode(s: seq<byte>): (r: Option<Report>) {
    if |s| < 86 then None else
      var n := FromBigEndian(s[84..86]);
      if |s| < 86 + n then None else
        Some(Report(
               Read(Int32, s, 0),
               MemStat(Read(Int64, s, 4), Read(Int64, s, 12), Read(Int64, s, 20),
                       Read(Int64, s, 28), Read(Int64, s, 36), Read(Int64, s, 44)),
               KillStat(Read(Int32, s, 52), Read(Int32, s, 56), Read(Int32, s, 60), Read(Int32, s, 64),
                        Read(Int32, s, 68), Read(Int32, s, 72), Read(Int32, s, 76), Read(Int32, s, 80),
                        s[86..86 + n])))
  }

  /** The C types of the fields. */
  predicate Typed(m: MemStat, k: KillStat) {
    && (forall v <- MemRow(m) :: Int64.Fits(v))
    && Int32.Fits(k.uid) && Int32.Fits(k.oomScore) && Int32.Fits(k.minOomScore)
    && Int64.Fits(k.freeMemKb) && Int64.Fits(k.freeSwapKb)
    && Int32.Fits(k.reason) && Int32.Fits(k.thrashing) && Int32.Fits(k.maxThrashing)
    && CString(k.name)
  }

  function Truncated(v: int): (t: int)
    ensures Int32.Fits(t) && (Int32.Fits(v) ==> t == v)
  {
    Int32.Signed(Int32.Wrap(v))
  }

  lemma {:induction false} Slice<T>(s: seq<T>, base: nat, len: nat, from: nat, to: nat)
    requires base + len <= |s| && from <= to <= len
    ensures s[base..base + len][from..to] == s[base + from..base + to]
  {
    var t := s[base..base + len];
    assert forall j | from <= j < to :: t[j] == s[base + j];
  }

  lemma RowSlice(w: Width, row: seq<int>, i: nat, from: nat)
    requires i < |row| && from == w.Bytes() * i
    ensures from + w.Bytes() <= |Ints(w, row)|
    ensures FromBigEndian(Ints(w, row)[from..from + w.Bytes()]) == w.Wrap(row[i])
  {
    hide Ints, FromBigEndian, Width.Wrap;
    IntsRead(w, row, i);
    assert w.Bytes() * (i + 1) == from + w.Bytes();
  }

  lemma PartRead(s: seq<byte>, base: nat, end: nat, part: seq<byte>, w: Width, from: nat)
    requires base <= end <= |s| && s[base..end] == part && from + w.Bytes() <= |part|
    ensures base + from + w.Bytes() <= end
    ensures Read(w, s, base + from) == w.Signed(FromBigEndian(part[from..from + w.Bytes()]))
  {
    Slice(s, base, end - base, from, from + w.Bytes());
  }

  /** Field i of a row that starts at byte `base` of the packet and ends at `end`. */
  lemma FieldRead(s: seq<byte>, base: nat, end: nat, w: Width, row: seq<int>, i: nat, from: nat)
    requires i < |row| && from == w.Bytes() * i
    requires base <= end <= |s| && s[base..end] == Ints(w, row)
    ensures base + from + w.Bytes() <= end && Read(w, s, base + from) == w.Signed(w.Wrap(row[i]))
  {
    hide *;
    RowSlice(w, row, i, from);
    PartRead(s, base, end, Ints(w, row), w, from);
  }

  lemma Layout(m: MemStat, k: KillStat)
    ensures var s := Encoded(m, k)[..SentLength(k)];
            && s[0..4] == Ints(Int32, [LMK_STAT_KILL_OCCURRED])
            && s[4..52] == Ints(Int64, MemRow(m))
            && s[52..84] == Ints(Int32, KillRow(k))
            && s[84..86] == BigEndian(2, |Capped(k.name)|)
            && s[86..86 + |Capped(k.name)|] == Capped(k.name)
  {
    hide Ints, BigEndian, Capped;
  }

  lemma MemRead(s: seq<byte>, m: MemStat)
    requires |s| >= 86 && s[4..52] == Ints(Int64, MemRow(m))
    requires forall v <- MemRow(m) :: Int64.Fits(v)
    ensures MemStat(Read(Int64, s, 4), Read(Int64, s, 12), Read(Int64, s, 20),
                    Read(Int64, s, 28), Read(Int64, s, 36), Read(Int64, s, 44)) == m
  {
    hide Ints;
    hide Read;
    FieldRead(s, 4, 52, Int64, MemRow(m), 0, 0);
    SignedWrap(Int64, MemRow(m)[0]);
    FieldRead(s, 4, 52, Int64, MemRow(m), 1, 8);
    SignedWrap(Int64, MemRow(m)[1]);
    FieldRead(s, 4, 52, Int64, MemRow(m), 2, 16);
    SignedWrap(Int64, MemRow(m)[2]);
    FieldRead(s, 4, 52, Int64, MemRow(m), 3, 24);
    SignedWrap(Int64, MemRow(m)[3]);
    FieldRead(s, 4, 52, Int64, MemRow(m), 4, 32);
    SignedWrap(Int64, MemRow(m)[4]);
    FieldRead(s, 4, 52, Int64, MemRow(m), 5, 40);
    SignedWrap(Int64, MemRow(m)[5]);
  }

  lemma KillRead(s: seq<byte>, k: KillStat)
    requires |s| >= 86 && s[52..84] == Ints(Int32, KillRow(k))
    ensures [Read(Int32, s, 52), Read(Int32, s, 56), Read(Int32, s, 60), Read(Int32, s, 64),
             Read(Int32, s, 68), Read(Int32, s, 72), Read(Int32, s, 76), Read(Int32, s, 80)]
         == [Truncated(k.uid), Truncated(k.oomScore), Truncated(k.minOomScore), Truncated(k.freeMemKb),
             Truncated(k.freeSwapKb), Truncated(k.reason), Truncated(k.thrashing), Truncated(k.maxThrashing)]
  {
    hide Ints;
    hide Read;
    FieldRead(s, 52, 84, Int32, KillRow(k), 0, 0);
    FieldRead(s, 52, 84, Int32, KillRow(k), 1, 4);
    FieldRead(s, 52, 84, Int32, KillRow(k), 2, 8);
    FieldRead(s, 52, 84, Int32, KillRow(k), 3, 12);
    FieldRead(s, 52, 84, Int32, KillRow(k), 4, 16);
    FieldRead(s, 52, 84, Int32, KillRow(k), 5, 20);
    FieldRead(s, 52, 84, Int32, KillRow(k), 6, 24);
    FieldRead(s, 52, 84, Int32, KillRow(k), 7, 28);
  }

  /**
   * Everything reported is read back from the bytes sent: the memory counters whole, the free-memory and free-swap
   * figures cut to 32 bits, the name cut to 127 bytes, and every other field as it was.
   */
  lemma PacketRoundTrip(m: MemStat, k: KillStat)
    requires Typed(m, k)
    ensures Decode(Encoded(m, k)[..SentLength(k)])
         == Some(Report(LMK_STAT_KILL_OCCURRED, m,
                        k.(freeMemKb := Truncated(k.freeMemKb), freeSwapKb := Truncated(k.freeSwapKb),
                        name := Capped(k.name))))
  {
    hide Ints, Encoded, Truncated, Read;
    var s := Encoded(m, k)[..SentLength(k)];
    Layout(m, k);
    HeaderRead(s);
    MemRead(s, m);
    KillRead(s, k);
    LengthRead(|Capped(k.name)|);
  }

  lemma HeaderRead(s: seq<byte>)
    requires |s| >= 86 && s[0..4] == Ints(Int32, [LMK_STAT_KILL_OCCURRED])
    ensures Read(Int32, s, 0) == LMK_STAT_KILL_OCCURRED
  {
    FieldRead(s, 0, 4, Int32, [LMK_STAT_KILL_OCCURRED], 0, 0);
  }

  lemma LengthRead(n: nat)
    requires n < NAME_MAX
    ensures FromBigEndian(BigEndian(2, n)) == n
  {
    assert Pow256(2) == 256 * Pow256(1);
    BigEndianRead(2, n);
  }
}
