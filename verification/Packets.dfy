/** Control packets: arrays of 32-bit words in network order. */
module Packets {
  const PACKET_WORDS: nat := 13
  const MAX_TARGETS: nat := 6
  const MAX_PROCS: nat := 3
  const LMK_TARGET: bv32 := 0
  const LMK_PROCS_PRIO: bv32 := 11

  /** htonl and ntohl on a little-endian host: the four bytes in opposite order. */
  function Swap(x: bv32): bv32 {
    (x << 24) | ((x << 8) & 0x00FF_0000) | ((x >> 8) & 0x0000_FF00) | (x >> 24)
  }

  /** On the wire the most significant byte of a word comes first: where the host keeps the least significant one. */
  lemma NetworkOrder(x: bv32)
    ensures Swap(x) & 0xFF == x >> 24
    ensures (Swap(x) >> 8) & 0xFF == (x >> 16) & 0xFF
    ensures (Swap(x) >> 16) & 0xFF == (x >> 8) & 0xFF
    ensures Swap(x) >> 24 == x & 0xFF
  {
  }

  lemma SwapTwice(x: bv32)
    ensures Swap(Swap(x)) == x
  {
  }

  /** lmk_procprio: every field is a 32-bit pattern. */
  datatype ProcPrio = ProcPrio(pid: bv32, uid: bv32, oomadj: bv32, ptype: bv32)

  datatype Target = Target(minfree: bv32, oomAdjScore: bv32)

  /** The words from position 1 on hold the records, four words each. */
  ghost predicate HoldsProcs(w: seq<bv32>, procs: seq<ProcPrio>) {
    && |w| >= 1 + 4 * |procs|
    && (forall i | 0 <= i < |procs| :: HoldsProc(w, 1 + 4 * i, procs[i]))
  }

  ghost predicate HoldsProc(w: seq<bv32>, k: int, p: ProcPrio) {
    && 0 <= k && k + 4 <= |w|
    && w[k] == Swap(p.pid) && w[k + 1] == Swap(p.uid) && w[k + 2] == Swap(p.oomadj) && w[k + 3] == Swap(p.ptype)
  }

  /** lmkd_pack_set_procs_prio. */
  method SetProcsPrio(packet: array<bv32>, procs: seq<ProcPrio>) returns (size: nat)
    requires packet.Length == PACKET_WORDS && |procs| <= MAX_PROCS
    modifies packet
    ensures size == 4 * (1 + 4 * |procs|) && packet[0] == Swap(LMK_PROCS_PRIO) && HoldsProcs(packet[..], procs)
    ensures forall i | 0 <= i < |procs| ::
              && packet[1 + 4 * i] == Swap(procs[i].pid) && packet[2 + 4 * i] == Swap(procs[i].uid)
              && packet[3 + 4 * i] == Swap(procs[i].oomadj) && packet[4 + 4 * i] == Swap(procs[i].ptype)
    ensures forall k | 1 + 4 * |procs| <= k < packet.Length :: packet[k] == old(packet[k])
  {
    hide Swap;
    packet[0] := Swap(LMK_PROCS_PRIO);
    var idx := 1;
    for i := 0 to |procs|
      invariant idx == 1 + 4 * i && packet[0] == Swap(LMK_PROCS_PRIO)
      invariant forall j | 0 <= j < i :: HoldsProc(packet[..], 1 + 4 * j, procs[j])
      invariant forall k | idx <= k < packet.Length :: packet[k] == old(packet[k])
    {
      packet[idx], packet[idx + 1] := Swap(procs[i].pid), Swap(procs[i].uid);
      packet[idx + 2], packet[idx + 3] := Swap(procs[i].oomadj), Swap(procs[i].ptype);
      idx := idx + 4;
    }
    size := 4 * idx;
    assert forall i | 0 <= i < |procs| :: HoldsProc(packet[..], 1 + 4 * i, procs[i]);
  }

  /** The record whose words start at position k. */
  function ProcAt(w: seq<bv32>, k: nat): ProcPrio
    requires k + 4 <= |w|
  {
    ProcPrio(Swap(w[k]), Swap(w[k + 1]), Swap(w[k + 2]), Swap(w[k + 3]))
  }

  /** lmkd_pack_get_procs_prio: -1 for a field count that is not a positive multiple of 4. */
  method GetProcsPrio(packet: array<bv32>, fieldCount: int) returns (count: int, procs: seq<ProcPrio>)
    requires packet.Length == PACKET_WORDS && fieldCount < PACKET_WORDS
    ensures count == if fieldCount < 4 || fieldCount % 4 != 0 then -1 else fieldCount / 4
    ensures |procs| == if count < 0 then 0 else count
    ensures forall i | 0 <= i < |procs| :: procs[i] == ProcAt(packet[..], 1 + 4 * i)
  {
    procs := [];
    if fieldCount < 4 || fieldCount % 4 != 0 {
      return -1, procs;
    }
    count := fieldCount / 4;
    var idx := 1;
    for i := 0 to count
      invariant |procs| == i && idx == 1 + 4 * i
      invariant forall j | 0 <= j < i :: procs[j] == ProcAt(packet[..], 1 + 4 * j)
    {
      var p := ProcPrio(Swap(packet[idx]), Swap(packet[idx + 1]), Swap(packet[idx + 2]), Swap(packet[idx + 3]));
      procs := procs + [p];
      idx := idx + 4;
    }
  }

  lemma ProcRead(w: seq<bv32>, k: nat, p: ProcPrio)
    requires HoldsProc(w, k, p)
    ensures ProcAt(w, k) == p
  {
    SwapTwice(p.pid);
    SwapTwice(p.uid);
    SwapTwice(p.oomadj);
    SwapTwice(p.ptype);
  }

  /** Decoding undoes encoding for every batch of 1 to 3 records, whatever the other words of the packet hold. */
  method ProcsRoundTrip(packet: array<bv32>, procs: seq<ProcPrio>) returns (count: int, got: seq<ProcPrio>)
    requires packet.Length == PACKET_WORDS && 1 <= |procs| <= MAX_PROCS
    modifies packet
    ensures count == |procs| && got == procs
  {
    var size := SetProcsPrio(packet, procs);
    count, got := GetProcsPrio(packet, size / 4 - 1);
    forall i | 0 <= i < |procs| ensures got[i] == procs[i] {
      ProcRead(packet[..], 1 + 4 * i, procs[i]);
    }
  }

  ghost predicate HoldsTarget(w: seq<bv32>, i: int, t: Target) {
    && 0 <= i && 2 * i + 2 < |w| && w[2 * i + 1] == Swap(t.minfree) && w[2 * i + 2] == Swap(t.oomAdjScore)
  }

  /** lmkd_pack_set_target. */
  method SetTarget(packet: array<bv32>, targets: seq<Target>) returns (size: nat)
    requires packet.Length == PACKET_WORDS && |targets| <= MAX_TARGETS
    modifies packet
    ensures size == 4 * (1 + 2 * |targets|) && packet[0] == Swap(LMK_TARGET)
    ensures forall i | 0 <= i < |targets| :: HoldsTarget(packet[..], i, targets[i])
    ensures forall k | 1 + 2 * |targets| <= k < packet.Length :: packet[k] == old(packet[k])
  {
    hide Swap;
    packet[0] := Swap(LMK_TARGET);
    var idx, n := 1, 0;
    while n < |targets|
      invariant 0 <= n <= |targets| && idx == 1 + 2 * n && packet[0] == Swap(LMK_TARGET)
      invariant forall i | 0 <= i < n :: HoldsTarget(packet[..], i, targets[i])
      invariant forall k | idx <= k < packet.Length :: packet[k] == old(packet[k])
    {
      packet[idx] := Swap(targets[n].minfree);
      packet[idx + 1] := Swap(targets[n].oomAdjScore);
      idx, n := idx + 2, n + 1;
    }
    size := 4 * idx;
  }

  /** lmkd_pack_get_target. */
  method GetTarget(packet: array<bv32>, i: nat) returns (t: Target)
    requires packet.Length == PACKET_WORDS && i < MAX_TARGETS
    ensures t == Target(Swap(packet[2 * i + 1]), Swap(packet[2 * i + 2]))
  {
    t := Target(Swap(packet[i * 2 + 1]), Swap(packet[i * 2 + 2]));
  }

  /** Decoding undoes encoding for every list of up to 6 targets. */
  method TargetsRoundTrip(packet: array<bv32>, targets: seq<Target>) returns (got: seq<Target>)
    requires packet.Length == PACKET_WORDS && |targets| <= MAX_TARGETS
    modifies packet
    ensures got == targets
  {
    var size := SetTarget(packet, targets);
    got := [];
    for i := 0 to |targets|
      invariant got == targets[..i]
      invariant forall i | 0 <= i < |targets| :: HoldsTarget(packet[..], i, targets[i])
    {
      var t := GetTarget(packet, i);
      SwapTwice(targets[i].minfree);
      SwapTwice(targets[i].oomAdjScore);
      got := got + [t];
    }
  }
}
