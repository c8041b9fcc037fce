/** Zone watermarks and the minfree table: which limit is breached, and which score may be killed. */
module Watermarks {
  datatype Zone = Zone(present: int, min: int, low: int, high: int, maxProtection: int)

  datatype Marks = Marks(high: int, low: int, min: int)

  datatype Wmark = MinMark | LowMark | HighMark | NoMark {
    /** The enumeration order: smaller is more severe. */
    function Rank(): int {
      match this case MinMark => 0 case LowMark => 1 case HighMark => 2 case NoMark => 3
    }
  }

  function Plus(a: Marks, b: Marks): Marks {
    Marks(a.high + b.high, a.low + b.low, a.min + b.min)
  }

  function ZoneMarks(z: Zone): Marks {
    if z.present == 0 then Marks(0, 0, 0)
    else Marks(z.maxProtection + z.high, z.maxProtection + z.low, z.maxProtection + z.min)
  }

  function NodeMarks(zones: seq<Zone>): Marks {
    if zones == [] then Marks(0, 0, 0) else Plus(NodeMarks(zones[..|zones| - 1]), ZoneMarks(zones[|zones| - 1]))
  }

  function AllMarks(nodes: seq<seq<Zone>>): Marks {
    if nodes == [] then Marks(0, 0, 0) else Plus(AllMarks(nodes[..|nodes| - 1]), NodeMarks(nodes[|nodes| - 1]))
  }

  /** calc_zone_watermarks: the limits summed over the present zones of all nodes. */
  method CalcZoneWatermarks(nodes: seq<seq<Zone>>) returns (w: Marks)
    ensures w == AllMarks(nodes)
  {
    hide NodeMarks;
    w := Marks(0, 0, 0);
    for n := 0 to |nodes|
      invariant w == AllMarks(nodes[..n])
    {
      w := AddNode(w, nodes[n]);
      assert nodes[..n + 1][..n] == nodes[..n];
    }
    assert nodes[..|nodes|] == nodes;
  }

  /** Its inner loop, over the zones of a node. */
  method AddNode(start: Marks, zones: seq<Zone>) returns (w: Marks)
    ensures w == Plus(start, NodeMarks(zones))
  {
    hide NodeMarks;
    w := start;
    NoZones();
    for i := 0 to |zones|
      invariant w == Plus(start, NodeMarks(zones[..i]))
    {
      OneZone(zones, i);
      var zone := zones[i];
      if zone.present == 0 { continue; }
      w := w.(high := w.high + zone.maxProtection + zone.high);
      w := w.(low := w.low + zone.maxProtection + zone.low);
      w := w.(min := w.min + zone.maxProtection + zone.min);
    }
    assert zones[..|zones|] == zones;
  }

  lemma NoZones()
    ensures NodeMarks([]) == Marks(0, 0, 0)
  {
  }

  lemma OneZone(zones: seq<Zone>, i: nat)
    requires i < |zones|
    ensures NodeMarks(zones[..i + 1]) == Plus(NodeMarks(zones[..i]), ZoneMarks(zones[i]))
  {
    assert zones[..i + 1][..i] == zones[..i];
  }

  /** One more present zone adds its reserve and each of its limits to the limit of that name; an absent one nothing. */
  lemma ZoneCounts(nodes: seq<seq<Zone>>, zones: seq<Zone>, z: Zone)
    ensures var w, u := AllMarks(nodes + [zones]), AllMarks(nodes + [zones + [z]]);
            if z.present == 0 then u == w
            else && u.high == w.high + z.maxProtection + z.high
                 && u.low == w.low + z.maxProtection + z.low
                 && u.min == w.min + z.maxProtection + z.min
    ensures AllMarks(nodes + [[]]) == AllMarks(nodes) && AllMarks([]) == Marks(0, 0, 0)
  {
    hide NodeMarks, AllMarks;
    OneNode(nodes, zones);
    OneNode(nodes, zones + [z]);
    OneNode(nodes, []);
    NoZones();
    OneZone(zones + [z], |zones|);
    assert (zones + [z])[..|zones|] == zones;
    assert (zones + [z])[..|zones| + 1] == zones + [z];
  }

  lemma OneNode(nodes: seq<seq<Zone>>, zones: seq<Zone>)
    ensures AllMarks(nodes + [zones]) == Plus(AllMarks(nodes), NodeMarks(zones)) && AllMarks([]) == Marks(0, 0, 0)
  {
    hide NodeMarks;
    assert (nodes + [zones])[..|nodes|] == nodes;
  }

  ghost predicate Ordered(zones: seq<Zone>) {
    forall i | 0 <= i < |zones| && zones[i].present != 0 :: zones[i].min <= zones[i].low <= zones[i].high
  }

  lemma {:induction false} NodeOrdered(zones: seq<Zone>)
    requires Ordered(zones)
    ensures NodeMarks(zones).min <= NodeMarks(zones).low <= NodeMarks(zones).high
  {
    if zones != [] {
      NodeOrdered(zones[..|zones| - 1]);
    }
  }

  /** If min, low and high are in order in every present zone, so are their sums. */
  lemma {:induction false} SumsOrdered(nodes: seq<seq<Zone>>)
    requires forall n | 0 <= n < |nodes| :: Ordered(nodes[n])
    ensures AllMarks(nodes).min <= AllMarks(nodes).low <= AllMarks(nodes).high
  {
    if nodes != [] {
      NodeOrdered(nodes[|nodes| - 1]);
      SumsOrdered(nodes[..|nodes| - 1]);
    }
  }

  /** get_lowest_watermark on the free pages that are not CMA. */
  function LowestBreached(nrFree: int, w: Marks): Wmark {
    if nrFree < w.min then MinMark else if nrFree < w.low then LowMark else if nrFree < w.high then HighMark else NoMark
  }

  /** With limits in order the answer names the band the free memory lies in. */
  lemma BreachedBands(nodes: seq<seq<Zone>>, nrFree: int)
    requires forall n | 0 <= n < |nodes| :: Ordered(nodes[n])
    ensures var w := AllMarks(nodes);
            && (LowestBreached(nrFree, w).MinMark? <==> nrFree < w.min)
            && (LowestBreached(nrFree, w).Rank() <= 1 <==> nrFree < w.low)
            && (LowestBreached(nrFree, w).Rank() <= 2 <==> nrFree < w.high)
  {
    SumsOrdered(nodes);
  }

  /** More free memory never gives a more severe breach. */
  lemma MoreFreeNeverWorse(nrFree: int, more: int, w: Marks)
    requires nrFree <= more
    ensures LowestBreached(nrFree, w).Rank() <= LowestBreached(more, w).Rank()
  {
  }

  // ---------------------------------------------------------------- minfree levels

  const NO_KILL: int := 1001

  /** `hit` is the first entry that both free and file memory are below, and `score` its score; none selects no kill. */
  ghost predicate Selects(free: int, file: int, minfree: seq<int>, adj: seq<int>, score: int, hit: int)
    requires |minfree| == |adj|
  {
    && 0 <= hit <= |minfree| && (forall i | 0 <= i < hit :: free >= minfree[i] || file >= minfree[i])
    && (if hit < |minfree| then free < minfree[hit] && file < minfree[hit] && score == adj[hit] else score == NO_KILL)
  }

  /** The minfree loop of mp_event_common. */
  method SelectMinScore(free: int, file: int, minfree: seq<int>, adj: seq<int>) returns (score: int, hit: int)
    requires |minfree| == |adj|
    ensures Selects(free, file, minfree, adj, score, hit)
  {
    score := NO_KILL;
    for i := 0 to |minfree|
      invariant score == NO_KILL && forall j | 0 <= j < i :: free >= minfree[j] || file >= minfree[j]
    {
      if free < minfree[i] && file < minfree[i] {
        return adj[i], i;
      }
    }
    hit := |minfree|;
  }

  ghost predicate Ascending(s: seq<int>) {
    forall i, j | 0 <= i < j < |s| :: s[i] <= s[j]
  }

  /** With an ascending score table, less free and file memory never raises the selected minimum score. */
  lemma LessMemoryNeverSpares(free: int, file: int, less: int, lessFile: int, minfree: seq<int>, adj: seq<int>,
                              score: int, hit: int, score': int, hit': int)
    requires |minfree| == |adj| && Ascending(adj) && (forall i | 0 <= i < |adj| :: adj[i] <= 1000)
    requires less <= free && lessFile <= file
    requires Selects(free, file, minfree, adj, score, hit) && Selects(less, lessFile, minfree, adj, score', hit')
    ensures score' <= score
  {
    if hit < |minfree| {
      assert less < minfree[hit] && lessFile < minfree[hit];
      assert hit' <= hit;
    }
  }
}
