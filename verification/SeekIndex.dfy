/** Finding the packet an in-cache seek resumes from (find_seek_target), and why starting at the
    thinned index gives the packet a walk over the whole queue would give. */
module SeekIndex {
  import opened Timestamps
  import opened PacketQueue

  predicate StrictKeyframes(ps: seq<Packet>) {
    forall i, j :: 0 <= i < j < |ps| && SeekPoint(ps[i]) && SeekPoint(ps[j]) ==>
      ps[i].kfSeekPts < ps[j].kfSeekPts
  }

  function Distance(p: Packet, pts: real, forward: bool): real {
    if forward then pts - p.kfSeekPts else p.kfSeekPts - pts
  }

  /** A candidate at distance `d` does not beat the current target at distance `t`. */
  predicate NoGain(t: real, d: real) {
    if d <= 0.0 then t <= 0.0 && d <= t else d >= t
  }

  /** The walk from position `i` with `target` (or -1) as the best packet so far. */
  function Scan(ps: seq<Packet>, i: nat, pts: real, forward: bool, target: int): (t: int)
    requires i <= |ps| && -1 <= target < |ps|
    ensures -1 <= t < |ps|
    decreases |ps| - i
  {
    if i == |ps| then
      target
    else
      var d := Distance(ps[i], pts, forward);
      if !SeekPoint(ps[i]) || (forward && d > 0.0)
         || (target >= 0 && NoGain(Distance(ps[target], pts, forward), d)) then
        Scan(ps, i + 1, pts, forward, target)
      else if ps[i].kfSeekPts > pts then
        i
      else
        Scan(ps, i + 1, pts, forward, i)
  }

  /** Position the index suggests: its last entry before the first one past `pts`. */
  function IndexStart(q: Queue, pts: real, n: nat): (start: nat)
    requires QueueOk(q) && n <= |q.index|
    requires forall i :: 0 <= i < n ==> EntryOk(q.base, q.packets, q.index[i])
    ensures start < |q.packets| || (start == 0 && n == 0)
  {
    if n == 0 then 0
    else if q.Get(q.index[n - 1]).kfSeekPts > pts then IndexStart(q, pts, n - 1)
    else q.index[n - 1] - q.base
  }

  function SeekTarget(q: Queue, pts: real, forward: bool): (l: Link)
    requires QueueOk(q)
    ensures q.HoldsLink(l)
  {
    var t := Scan(q.packets, IndexStart(q, pts, |q.index|), pts, forward, -1);
    if t < 0 then Null else At(q.base + t)
  }

  // ---------- what the walk finds ----------

  /** The first seek point at or after `pts`, or none. */
  predicate FirstFrom(ps: seq<Packet>, pts: real, t: int) {
    && -1 <= t < |ps|
    && (t >= 0 ==> SeekPoint(ps[t]) && ps[t].kfSeekPts >= pts)
    && (forall i :: 0 <= i < |ps| && (t < 0 || i < t) && SeekPoint(ps[i]) ==> ps[i].kfSeekPts < pts)
  }

  /** The last seek point at or before `pts`, else the first seek point, else none. */
  predicate LastUpTo(ps: seq<Packet>, pts: real, t: int) {
    && -1 <= t < |ps|
    && (t < 0 ==> NoSeekPoint(ps))
    && (t >= 0 ==>
          && SeekPoint(ps[t])
          && (forall i :: t < i < |ps| && SeekPoint(ps[i]) ==> ps[i].kfSeekPts > pts)
          && (ps[t].kfSeekPts > pts ==> FirstSeekPoint(ps, t)))
  }

  lemma {:induction false} ScanForward(ps: seq<Packet>, i: nat, pts: real)
    requires i <= |ps| && StrictKeyframes(ps)
    requires forall k :: 0 <= k < i && SeekPoint(ps[k]) ==> ps[k].kfSeekPts < pts
    ensures FirstFrom(ps, pts, Scan(ps, i, pts, true, -1))
    decreases |ps| - i
  {
    if i < |ps| {
      if SeekPoint(ps[i]) && ps[i].kfSeekPts == pts {
        ScanKeeps(ps, i + 1, pts, i);
      } else if !SeekPoint(ps[i]) || ps[i].kfSeekPts < pts {
        ScanForward(ps, i + 1, pts);
      }
    }
  }

  /** An exact hit stays the target. */
  lemma {:induction false} ScanKeeps(ps: seq<Packet>, i: nat, pts: real, t: nat)
    requires t < i <= |ps| && SeekPoint(ps[t]) && ps[t].kfSeekPts == pts
    ensures Scan(ps, i, pts, true, t) == t
    decreases |ps| - i
  {
    if i < |ps| {
      ScanKeeps(ps, i + 1, pts, t);
    }
  }

  lemma {:induction false} ScanBackward(ps: seq<Packet>, i: nat, pts: real, t: int)
    requires i <= |ps| && -1 <= t < i && StrictKeyframes(ps)
    requires t >= 0 ==> SeekPoint(ps[t]) && ps[t].kfSeekPts <= pts
    requires t >= 0 ==> forall k :: t < k < i ==> !SeekPoint(ps[k]) || ps[k].kfSeekPts > pts
    requires t < 0 ==> forall k :: 0 <= k < i ==> !SeekPoint(ps[k])
    ensures LastUpTo(ps, pts, Scan(ps, i, pts, false, t))
    decreases |ps| - i
  {
    if i < |ps| {
      if !SeekPoint(ps[i]) {
        ScanBackward(ps, i + 1, pts, t);
      } else if ps[i].kfSeekPts <= pts {
        ScanBackward(ps, i + 1, pts, i);
      } else if t >= 0 {
        ScanBackward(ps, i + 1, pts, t);
      }
    }
  }

  // ---------- the index as a shortcut ----------

  /** Position `s` holds a seek point later than every seek point before it. */
  predicate Record(ps: seq<Packet>, s: nat) {
    s < |ps| && SeekPoint(ps[s]) && forall k :: 0 <= k < s && SeekPoint(ps[k]) ==> ps[k].kfSeekPts < ps[s].kfSeekPts
  }

  predicate AllRecords(base: nat, ps: seq<Packet>, index: seq<nat>) {
    forall i :: 0 <= i < |index| ==> index[i] >= base && Record(ps, index[i] - base)
  }

  predicate Recorded(q: Queue) {
    AllRecords(q.base, q.packets, q.index)
  }

  /** The index start is the queue's head or an entry at or before `pts`. */
  lemma {:induction false} IndexStartIs(q: Queue, pts: real, n: nat)
    requires QueueOk(q) && n <= |q.index|
    ensures forall i :: 0 <= i < n ==> EntryOk(q.base, q.packets, q.index[i])
    ensures var s := IndexStart(q, pts, n);
      || s == 0
      || (s < |q.packets| && SeekPoint(q.packets[s]) && q.packets[s].kfSeekPts <= pts && q.base + s in q.index)
  {
    if n > 0 {
      IndexStartIs(q, pts, n - 1);
      assert EntryOk(q.base, q.packets, q.index[n - 1]);
    }
  }

  /** Backwards, the walk may start at any record at or before `pts`. */
  lemma {:induction false} BackwardSkips(ps: seq<Packet>, i: nat, s: nat, pts: real, t: int)
    requires -1 <= t < i <= s && Record(ps, s) && ps[s].kfSeekPts <= pts
    requires t >= 0 ==> SeekPoint(ps[t])
    ensures Scan(ps, i, pts, false, t) == Scan(ps, s, pts, false, -1)
    decreases s - i
  {
    if i < s {
      if SeekPoint(ps[i]) && !(t >= 0 && NoGain(Distance(ps[t], pts, false), Distance(ps[i], pts, false))) {
        BackwardSkips(ps, i + 1, s, pts, i);
      } else {
        BackwardSkips(ps, i + 1, s, pts, t);
      }
    }
  }

  /** Forwards, everything before such a record is too early to matter. */
  lemma {:induction false} ForwardSkips(ps: seq<Packet>, i: nat, s: nat, pts: real)
    requires i <= s && Record(ps, s) && ps[s].kfSeekPts <= pts
    ensures Scan(ps, i, pts, true, -1) == Scan(ps, s, pts, true, -1)
    decreases s - i
  {
    if i < s {
      ForwardSkips(ps, i + 1, s, pts);
    }
  }

  /** What the walk over the whole queue, without the index, returns. */
  function HeadTarget(q: Queue, pts: real, forward: bool): Link {
    var t := Scan(q.packets, 0, pts, forward, -1);
    if t < 0 then Null else At(q.base + t)
  }

  /** If every indexed keyframe is later than all keyframes before it, the index is only a
      shortcut: in both directions and for every `pts` it leads to the packet the walk over the
      whole queue returns. */
  lemma IndexAgrees(q: Queue, pts: real, forward: bool)
    requires QueueOk(q) && Recorded(q)
    ensures SeekTarget(q, pts, forward) == HeadTarget(q, pts, forward)
  {
    var s := IndexStart(q, pts, |q.index|);
    IndexStartIs(q, pts, |q.index|);
    if s > 0 {
      var i :| 0 <= i < |q.index| && q.index[i] == q.base + s;
      assert Record(q.packets, q.index[i] - q.base);
      if forward {
        ForwardSkips(q.packets, 0, s, pts);
      } else {
        BackwardSkips(q.packets, 0, s, pts, -1);
      }
    }
  }

  /** And only then: an entry that is not later than everything before it sends some forward
      seek past the packet the whole queue would give. */
  lemma IndexDisagrees(q: Queue) returns (pts: real)
    requires QueueOk(q) && !Recorded(q)
    ensures SeekTarget(q, pts, true) != HeadTarget(q, pts, true)
  {
    var i :| 0 <= i < |q.index| && !(q.index[i] >= q.base && Record(q.packets, q.index[i] - q.base));
    assert EntryOk(q.base, q.packets, q.index[i]);
    var s := q.index[i] - q.base;
    var k :| 0 <= k < s && SeekPoint(q.packets[k]) && q.packets[k].kfSeekPts >= q.packets[s].kfSeekPts;
    pts := q.packets[s].kfSeekPts;
    IndexStartAt(q, i);
    ScanKeeps(q.packets, s + 1, pts, s);
    ScanStopsBy(q.packets, 0, k, pts);
  }

  /** Seeking exactly to an index entry starts there. */
  lemma IndexStartAt(q: Queue, i: nat)
    requires QueueOk(q) && i < |q.index|
    ensures forall i :: 0 <= i < |q.index| ==> EntryOk(q.base, q.packets, q.index[i])
    ensures IndexStart(q, q.Get(q.index[i]).kfSeekPts, |q.index|) == q.index[i] - q.base
  {
    forall i | 0 <= i < |q.index| ensures EntryOk(q.base, q.packets, q.index[i]) {}
    if i + 1 < |q.index| {
      assert Spaced(q.base, q.packets, q.indexDistance, q.index[i], q.index[i + 1]);
      IndexStartStops(q, q.Get(q.index[i]).kfSeekPts, i + 1, |q.index|);
    }
  }

  /** A forward walk never goes past the first keyframe at or after `pts`. */
  lemma {:induction false} ScanStopsBy(ps: seq<Packet>, i: nat, k: nat, pts: real)
    requires i <= k < |ps| && SeekPoint(ps[k]) && ps[k].kfSeekPts >= pts
    ensures 0 <= Scan(ps, i, pts, true, -1) <= k
    decreases k - i
  {
    if SeekPoint(ps[i]) && ps[i].kfSeekPts == pts {
      ScanKeeps(ps, i + 1, pts, i);
    } else if i < k && !(SeekPoint(ps[i]) && ps[i].kfSeekPts > pts) {
      ScanStopsBy(ps, i + 1, k, pts);
    }
  }

  /** Entries past the first one beyond `pts` are beyond it too. */
  lemma {:induction false} IndexStartStops(q: Queue, pts: real, n: nat, m: nat)
    requires QueueOk(q) && n < m <= |q.index|
    requires forall i :: 0 <= i < |q.index| ==> EntryOk(q.base, q.packets, q.index[i])
    requires q.Get(q.index[n]).kfSeekPts > pts
    ensures IndexStart(q, pts, m) == IndexStart(q, pts, n)
    decreases m
  {
    if n < m - 1 {
      assert Spaced(q.base, q.packets, q.indexDistance, q.index[n], q.index[m - 1]);
      IndexStartStops(q, pts, n, m - 1);
    }
  }

  lemma StrictIsRecorded(q: Queue)
    requires QueueOk(q) && StrictKeyframes(q.packets)
    ensures Recorded(q)
  {
    forall i | 0 <= i < |q.index|
      ensures q.index[i] >= q.base && Record(q.packets, q.index[i] - q.base)
    {
      assert EntryOk(q.base, q.packets, q.index[i]);
    }
  }

  /** What appending maintains: the index holds records, and no unindexed keyframe has run
      ahead of the last entry by the index distance. */
  predicate CoveringOf(base: nat, ps: seq<Packet>, index: seq<nat>, d: real) {
    && AllRecords(base, ps, index)
    && (index == [] ==> NoSeekPoint(ps))
    && (index != [] ==> AllBefore(ps, ps[index[|index| - 1] - base].kfSeekPts + d))
  }

  predicate Covering(q: Queue) {
    CoveringOf(q.base, q.packets, q.index, q.indexDistance)
  }

  predicate AllBefore(ps: seq<Packet>, limit: real) {
    forall k :: 0 <= k < |ps| && SeekPoint(ps[k]) ==> ps[k].kfSeekPts < limit
  }

  lemma StampKeepsRecords(base: nat, ps: seq<Packet>, index: seq<nat>, k: nat, p: Packet)
    requires k < |ps| && AllRecords(base, ps, index) && AllBelow(index, base + k)
    ensures AllRecords(base, ps[k := p], index)
  {
    forall i | 0 <= i < |index| ensures index[i] >= base && Record(ps[k := p], index[i] - base) {
      assert Record(ps, index[i] - base);
    }
  }

  lemma HalvedKeepsRecords(base: nat, ps: seq<Packet>, index: seq<nat>)
    requires AllRecords(base, ps, index) && |index| == MAX_INDEX_ENTRIES
    ensures AllRecords(base, ps, Halved(index))
  {
    forall i | 0 <= i < |Halved(index)|
      ensures Halved(index)[i] >= base && Record(ps, Halved(index)[i] - base)
    {
      assert Record(ps, index[2 * i] - base);
    }
  }

  lemma RecordsWith(base: nat, ps: seq<Packet>, index: seq<nat>, n: nat)
    requires AllRecords(base, ps, index) && n >= base && Record(ps, n - base)
    ensures AllRecords(base, ps, index + [n])
  {
  }

  lemma RecordBounds(ps: seq<Packet>, k: nat, d: real)
    requires Record(ps, k) && NoSeekPointFrom(ps, k + 1) && d > 0.0
    ensures AllBefore(ps, ps[k].kfSeekPts + d)
  {
  }

  /** An accepted entry is a record, and everything before it stays within the index distance. */
  lemma AcceptedCovers(base: nat, ps: seq<Packet>, index: seq<nat>, d: real, n: nat)
    requires AllRecords(base, ps, index) && n >= base && Record(ps, n - base)
    requires NoSeekPointFrom(ps, n - base + 1) && d > 0.0
    ensures CoveringOf(base, ps, index + [n], d)
  {
    RecordsWith(base, ps, index, n);
    RecordBounds(ps, n - base, d);
  }

  /** What a completed block finds before it: everything but itself is covered. */
  predicate CoveringBefore(base: nat, ps: seq<Packet>, index: seq<nat>, d: real, k: nat) {
    k < |ps| && AllRecords(base, ps, index) && CoveringOf(base, ps[..k], index, d) && NoSeekPointFrom(ps, k + 1)
  }

  predicate CoveringUpTo(q: Queue, k: nat) {
    CoveringBefore(q.base, q.packets, q.index, q.indexDistance, k)
  }

  function LastKf(base: nat, ps: seq<Packet>, index: seq<nat>): real
    requires AllRecords(base, ps, index) && index != []
  {
    ps[index[|index| - 1] - base].kfSeekPts
  }

  /** A block the index does not take is covered by its last entry; one that runs ahead of it
      is a record. */
  lemma NewBlockCovered(base: nat, ps: seq<Packet>, index: seq<nat>, d: real, k: nat)
    requires CoveringBefore(base, ps, index, d, k)
    ensures !SeekPoint(ps[k]) || (index != [] && ps[k].kfSeekPts < LastKf(base, ps, index) + d) ==>
              CoveringOf(base, ps, index, d)
    ensures SeekPoint(ps[k]) && (index == [] || ps[k].kfSeekPts >= LastKf(base, ps, index) + d) ==>
              Record(ps, k)
  {
    assert forall i :: 0 <= i < k ==> ps[i] == ps[..k][i];
    if index != [] {
      assert Record(ps[..k], index[|index| - 1] - base);
    }
  }

  lemma CloseBlockCovers(q: Queue)
    requires QueueOk(q) && q.keyframeLatest.At? && Covering(q) && Readable(q)
    ensures CoveringUpTo(CloseBlock(q), q.keyframeLatest.num - q.base)
  {
    var c := CloseBlock(q);
    var k := q.keyframeLatest.num - q.base;
    assert c.packets == q.packets[k := c.packets[k]];
    StampKeepsRecords(q.base, q.packets, q.index, k, c.packets[k]);
    forall i | 0 <= i < |q.index|
      ensures q.index[i] >= q.base && Record(c.packets[..k], q.index[i] - q.base)
    {
      assert Record(q.packets, q.index[i] - q.base) && q.index[i] < q.base + k;
    }
  }

  lemma {:induction false} WithIndexEntryCovers(c: Queue, n: nat)
    requires EntryOk(c.base, c.packets, n) && CoveringUpTo(c, n - c.base) && Readable(c)
    requires c.indexDistance > 0.0
    ensures Covering(WithIndexEntry(c, n))
  {
    hide AllBefore, NoSeekPoint, NoSeekPointFrom, Record, CoveringOf;
    NewBlockCovered(c.base, c.packets, c.index, c.indexDistance, n - c.base);
    if c.index == [] || c.Get(n).kfSeekPts >= LastIndexed(c) + c.indexDistance {
      if |c.index| == MAX_INDEX_ENTRIES {
        HalvedKeepsRecords(c.base, c.packets, c.index);
        AcceptedCovers(c.base, c.packets, Halved(c.index), c.indexDistance * 2.0, n);
      } else {
        AcceptedCovers(c.base, c.packets, c.index, c.indexDistance, n);
      }
    }
  }

  /** Completing a keyframe range keeps the index covering, whatever its timestamp and also when
      the index is thinned. */
  lemma {:induction false} IndexLatestCovers(c: Queue)
    requires LinksOk(c) && c.keyframeLatest.At? && Readable(c)
    requires CoveringUpTo(c, c.keyframeLatest.num - c.base)
    ensures Covering(IndexLatest(c))
  {
    var n := c.keyframeLatest.num;
    if c.Get(n).kfSeekPts != NOPTS {
      WithIndexEntryCovers(c, n);
    } else {
      NewBlockCovered(c.base, c.packets, c.index, c.indexDistance, n - c.base);
    }
  }

  /** With `SEEK_FORWARD`, the seek lands on the first keyframe at or after `pts`, or on nothing. */
  lemma ForwardTarget(q: Queue, pts: real)
    requires QueueOk(q) && StrictKeyframes(q.packets)
    ensures var l := SeekTarget(q, pts, true);
      FirstFrom(q.packets, pts, if l.At? then l.num - q.base else -1)
  {
    StrictIsRecorded(q);
    IndexAgrees(q, pts, true);
    ScanForward(q.packets, 0, pts);
  }

  /** Otherwise on the last keyframe at or before `pts`, or failing that on the first one. */
  lemma BackwardTarget(q: Queue, pts: real)
    requires QueueOk(q) && StrictKeyframes(q.packets)
    ensures var l := SeekTarget(q, pts, false);
      LastUpTo(q.packets, pts, if l.At? then l.num - q.base else -1)
  {
    StrictIsRecorded(q);
    IndexAgrees(q, pts, false);
    ScanBackward(q.packets, 0, pts, -1);
  }

  // ---------- without any order on the timestamps ----------

  /** A target at or before `pts` is never given up for one past it. */
  lemma {:induction false} ScanStaysBefore(ps: seq<Packet>, i: nat, pts: real, t: nat)
    requires t < i <= |ps| && SeekPoint(ps[t]) && ps[t].kfSeekPts <= pts
    ensures var r := Scan(ps, i, pts, false, t); r >= 0 && SeekPoint(ps[r]) && ps[r].kfSeekPts <= pts
    decreases |ps| - i
  {
    if i < |ps| {
      if SeekPoint(ps[i]) && ps[i].kfSeekPts <= pts && ps[i].kfSeekPts > ps[t].kfSeekPts {
        ScanStaysBefore(ps, i + 1, pts, i);
      } else {
        ScanStaysBefore(ps, i + 1, pts, t);
      }
    }
  }

  /** If the first seek point met is at or before `pts`, so is the result. */
  lemma {:induction false} ScanFromFirst(ps: seq<Packet>, i: nat, f: nat, pts: real)
    requires i <= f < |ps| && SeekPoint(ps[f]) && ps[f].kfSeekPts <= pts
    requires forall k :: i <= k < f ==> !SeekPoint(ps[k])
    ensures var r := Scan(ps, i, pts, false, -1); r >= 0 && SeekPoint(ps[r]) && ps[r].kfSeekPts <= pts
    decreases f - i
  {
    if i < f {
      ScanFromFirst(ps, i + 1, f, pts);
    } else {
      ScanStaysBefore(ps, i + 1, pts, i);
    }
  }

  /** A backward seek inside an honest window lands on a keyframe at or before the target,
      whatever order the keyframe timestamps come in. */
  lemma HonestWindowIsSeekable(q: Queue, pts: real)
    requires QueueOk(q) && Honest(q)
    requires q.seekStart != NOPTS && q.seekStart <= pts
    ensures var l := SeekTarget(q, pts, false);
      l.At? && SeekPoint(q.Get(l.num)) && q.Get(l.num).kfSeekPts <= pts
  {
    var s := IndexStart(q, pts, |q.index|);
    IndexStartIs(q, pts, |q.index|);
    if s > 0 || (|q.packets| > 0 && SeekPoint(q.packets[0]) && q.packets[0].kfSeekPts <= pts) {
      ScanFromFirst(q.packets, s, s, pts);
    } else {
      var f :| FirstSeekPoint(q.packets, f) && q.packets[f].kfSeekPts == q.seekStart;
      ScanFromFirst(q.packets, 0, f, pts);
    }
  }

  /** Packet `n` is a keyframe in the queue, at or before `pts`. */
  predicate KeyframeUpTo(q: Queue, n: nat, pts: real) {
    q.Holds(n) && SeekPoint(q.Get(n)) && q.Get(n).kfSeekPts <= pts
  }

  /** The queue's first keyframe is at or before `pts`, or some indexed one is. */
  ghost predicate StartsBy(q: Queue, pts: real) {
    || (exists i :: FirstSeekPoint(q.packets, i) && q.packets[i].kfSeekPts <= pts)
    || (exists j :: 0 <= j < |q.index| && KeyframeUpTo(q, q.index[j], pts))
  }

  lemma {:induction false} IndexStartFollows(q: Queue, pts: real, n: nat, j: nat)
    requires QueueOk(q) && j < n <= |q.index| && KeyframeUpTo(q, q.index[j], pts)
    ensures forall i :: 0 <= i < n ==> EntryOk(q.base, q.packets, q.index[i])
    ensures KeyframeUpTo(q, q.base + IndexStart(q, pts, n), pts)
  {
    IndexStartIs(q, pts, n);
    if q.Get(q.index[n - 1]).kfSeekPts > pts {
      IndexStartFollows(q, pts, n - 1, j);
    }
  }

  /** If the first seek point met is past `pts`, it is the result. */
  lemma {:induction false} ScanStopsAt(ps: seq<Packet>, i: nat, f: nat, pts: real)
    requires i <= f < |ps| && SeekPoint(ps[f]) && ps[f].kfSeekPts > pts
    requires forall k :: i <= k < f ==> !SeekPoint(ps[k])
    ensures Scan(ps, i, pts, false, -1) == f
    decreases f - i
  {
    if i < f {
      ScanStopsAt(ps, i + 1, f, pts);
    }
  }

  lemma {:induction false} ScanOfNone(ps: seq<Packet>, i: nat, pts: real)
    requires i <= |ps| && forall k :: i <= k < |ps| ==> !SeekPoint(ps[k])
    ensures Scan(ps, i, pts, false, -1) == -1
    decreases |ps| - i
  {
    if i < |ps| {
      ScanOfNone(ps, i + 1, pts);
    }
  }

  lemma {:induction false} FirstIs(ps: seq<Packet>, i: nat) returns (f: nat)
    requires i <= |ps| && forall j :: 0 <= j < i ==> !SeekPoint(ps[j])
    ensures f <= |ps| && (f < |ps| ==> FirstSeekPoint(ps, f)) && (f == |ps| ==> NoSeekPoint(ps))
    decreases |ps| - i
  {
    f := i;
    if i < |ps| && !SeekPoint(ps[i]) {
      f := FirstIs(ps, i + 1);
    }
  }

  lemma BackwardLands(q: Queue, pts: real)
    requires QueueOk(q) && StartsBy(q, pts)
    ensures var l := SeekTarget(q, pts, false); l.At? && KeyframeUpTo(q, l.num, pts)
  {
    hide QueueOk, Scan, IndexStart;
    IndexStartIs(q, pts, |q.index|);
    var s := IndexStart(q, pts, |q.index|);
    if j :| 0 <= j < |q.index| && KeyframeUpTo(q, q.index[j], pts) {
      IndexStartFollows(q, pts, |q.index|, j);
      ScanFromFirst(q.packets, s, s, pts);
    } else if s > 0 {
      ScanFromFirst(q.packets, s, s, pts);
    } else {
      var f :| FirstSeekPoint(q.packets, f) && q.packets[f].kfSeekPts <= pts;
      ScanFromFirst(q.packets, 0, f, pts);
    }
  }

  lemma IndexStartsAtHead(q: Queue, pts: real)
    requires QueueOk(q) && forall j :: 0 <= j < |q.index| ==> !KeyframeUpTo(q, q.index[j], pts)
    ensures forall j :: 0 <= j < |q.index| ==> EntryOk(q.base, q.packets, q.index[j])
    ensures IndexStart(q, pts, |q.index|) == 0
  {
    hide QueueOk, IndexStart;
    IndexStartIs(q, pts, |q.index|);
  }

  lemma BackwardMisses(q: Queue, pts: real)
    requires QueueOk(q) && !StartsBy(q, pts)
    ensures var l := SeekTarget(q, pts, false); !(l.At? && KeyframeUpTo(q, l.num, pts))
  {
    hide QueueOk, Scan, IndexStart, FirstSeekPoint, NoSeekPoint;
    IndexStartsAtHead(q, pts);
    HeadMisses(q.packets, pts);
  }

  lemma HeadMisses(ps: seq<Packet>, pts: real)
    requires forall i :: FirstSeekPoint(ps, i) ==> ps[i].kfSeekPts > pts
    ensures var t := Scan(ps, 0, pts, false, -1); t >= 0 ==> ps[t].kfSeekPts > pts
  {
    var f := FirstIs(ps, 0);
    if f == |ps| {
      ScanOfNone(ps, 0, pts);
    } else {
      ScanStopsAt(ps, 0, f, pts);
    }
  }

  /** In any queue, honest or not, a backward seek lands on a keyframe at or before its target if
      and only if the queue's first keyframe or an indexed one is there. */
  lemma BackwardLandsExactly(q: Queue, pts: real)
    requires QueueOk(q)
    ensures var l := SeekTarget(q, pts, false); l.At? && KeyframeUpTo(q, l.num, pts) <==> StartsBy(q, pts)
  {
    hide QueueOk, SeekTarget, KeyframeUpTo, StartsBy;
    if StartsBy(q, pts) {
      BackwardLands(q, pts);
    } else {
      BackwardMisses(q, pts);
    }
  }

  /** And it lands nowhere if and only if the queue has no keyframe with a seek timestamp. */
  lemma BackwardFindsSome(q: Queue, pts: real)
    requires QueueOk(q)
    ensures SeekTarget(q, pts, false).Null? <==> NoSeekPoint(q.packets)
  {
    hide QueueOk, Scan, IndexStart;
    IndexStartIs(q, pts, |q.index|);
    var s := IndexStart(q, pts, |q.index|);
    var f := FirstIs(q.packets, 0);
    if f == |q.packets| {
      assert s == 0;
      ScanOfNone(q.packets, 0, pts);
    } else if s > 0 {
      ScanFromFirst(q.packets, s, s, pts);
    } else if q.packets[f].kfSeekPts <= pts {
      ScanFromFirst(q.packets, 0, f, pts);
    } else {
      ScanStopsAt(q.packets, 0, f, pts);
    }
  }

  // ---------- looking for the found keyframe again ----------

  /** From position `s` on, `t` is the first seek point at or after `pts`. */
  predicate FirstAfter(ps: seq<Packet>, s: nat, pts: real, t: int) {
    && s <= t < |ps| && SeekPoint(ps[t]) && ps[t].kfSeekPts >= pts
    && (forall k :: s <= k < t && SeekPoint(ps[k]) ==> ps[k].kfSeekPts < pts)
  }

  /** From position `s` on, `t` is the seek point with the greatest timestamp up to `pts`, the first
      of several, if the first seek point of all is that early; otherwise it is that one. */
  predicate BestBefore(ps: seq<Packet>, s: nat, pts: real, t: int) {
    && s <= t < |ps| && SeekPoint(ps[t])
    && if ps[t].kfSeekPts > pts then forall k :: s <= k < t ==> !SeekPoint(ps[k])
       else StartsEarly(ps, s, pts, t)
            && (forall k :: s <= k < t && SeekPoint(ps[k]) && ps[k].kfSeekPts <= pts ==>
                  ps[k].kfSeekPts < ps[t].kfSeekPts)
            && (forall k :: t < k < |ps| && SeekPoint(ps[k]) && ps[k].kfSeekPts <= pts ==>
                  ps[k].kfSeekPts <= ps[t].kfSeekPts)
  }

  /** The first seek point from `s` on, which is not behind `t`, is at or before `pts`. */
  predicate StartsEarly(ps: seq<Packet>, s: nat, pts: real, t: int)
    requires t < |ps|
  {
    exists f :: s <= f <= t && SeekPoint(ps[f]) && ps[f].kfSeekPts <= pts
                && forall k :: s <= k < f ==> !SeekPoint(ps[k])
  }

  /** A forward walk finds the first seek point at or after `pts`, whatever their order. */
  lemma {:induction false} ScanForwardIs(ps: seq<Packet>, i: nat, pts: real)
    requires i <= |ps|
    ensures var t := Scan(ps, i, pts, true, -1);
      if t >= 0 then FirstAfter(ps, i, pts, t)
      else forall k :: i <= k < |ps| && SeekPoint(ps[k]) ==> ps[k].kfSeekPts < pts
    decreases |ps| - i
  {
    if i < |ps| {
      if SeekPoint(ps[i]) && ps[i].kfSeekPts == pts {
        ScanKeeps(ps, i + 1, pts, i);
      } else if !SeekPoint(ps[i]) || ps[i].kfSeekPts < pts {
        ScanForwardIs(ps, i + 1, pts);
      }
    }
  }

  /** What a backward walk that has `t` goes on to find. */
  lemma {:induction false} ScanOnwards(ps: seq<Packet>, s: nat, i: nat, pts: real, t: nat)
    requires s <= t < i <= |ps| && SeekPoint(ps[t]) && ps[t].kfSeekPts <= pts && StartsEarly(ps, s, pts, t)
    requires forall k :: s <= k < t && SeekPoint(ps[k]) && ps[k].kfSeekPts <= pts ==>
      ps[k].kfSeekPts < ps[t].kfSeekPts
    requires forall k :: t < k < i && SeekPoint(ps[k]) && ps[k].kfSeekPts <= pts ==>
      ps[k].kfSeekPts <= ps[t].kfSeekPts
    ensures var r := Scan(ps, i, pts, false, t); BestBefore(ps, s, pts, r) && ps[r].kfSeekPts <= pts
    decreases |ps| - i
  {
    if i < |ps| {
      if SeekPoint(ps[i]) && ps[t].kfSeekPts < ps[i].kfSeekPts <= pts {
        ScanOnwards(ps, s, i + 1, pts, i);
      } else {
        ScanOnwards(ps, s, i + 1, pts, t);
      }
    }
  }

  lemma {:induction false} ScanBackwardIs(ps: seq<Packet>, s: nat, i: nat, pts: real)
    requires s <= i <= |ps| && forall k :: s <= k < i ==> !SeekPoint(ps[k])
    ensures var t := Scan(ps, i, pts, false, -1);
      if t >= 0 then BestBefore(ps, s, pts, t) else forall k :: s <= k < |ps| ==> !SeekPoint(ps[k])
    decreases |ps| - i
  {
    if i < |ps| {
      if !SeekPoint(ps[i]) {
        ScanBackwardIs(ps, s, i + 1, pts);
      } else if ps[i].kfSeekPts <= pts {
        assert StartsEarly(ps, s, pts, i);
        ScanOnwards(ps, s, i + 1, pts, i);
      }
    }
  }

  lemma BestBeforeIsOne(ps: seq<Packet>, s: nat, pts: real, t: int, u: int)
    requires BestBefore(ps, s, pts, t) && BestBefore(ps, s, pts, u)
    ensures t == u
  {
  }

  /** No indexed keyframe behind packet `n` is at or before `ts`. */
  predicate NoEntryBehind(q: Queue, n: nat, ts: real) {
    forall j :: 0 <= j < |q.index| && q.index[j] > n ==> !KeyframeUpTo(q, q.index[j], ts)
  }

  /** The index start is not before any entry at or before `pts`. */
  lemma {:induction false} IndexStartIsLast(q: Queue, pts: real, n: nat, j: nat)
    requires QueueOk(q) && j < n <= |q.index| && KeyframeUpTo(q, q.index[j], pts)
    ensures forall i :: 0 <= i < n ==> EntryOk(q.base, q.packets, q.index[i])
    ensures q.index[j] <= q.base + IndexStart(q, pts, n)
  {
    IndexStartIs(q, pts, n);
    if q.Get(q.index[n - 1]).kfSeekPts > pts {
      IndexStartIsLast(q, pts, n - 1, j);
    } else if j < n - 1 {
      assert Spaced(q.base, q.packets, q.indexDistance, q.index[j], q.index[n - 1]);
    }
  }

  /** The walk starts at `s`: at the head or an indexed keyframe up to `pts`, and behind no other. */
  ghost predicate StartsAt(q: Queue, pts: real, s: nat) {
    && s <= |q.packets|
    && (s == 0 || (KeyframeUpTo(q, q.base + s, pts) && q.base + s in q.index))
    && forall j :: 0 <= j < |q.index| && KeyframeUpTo(q, q.index[j], pts) ==> q.index[j] <= q.base + s
  }

  /** Where a seek ends, in terms of where its walk starts. */
  lemma TargetIs(q: Queue, pts: real, forward: bool) returns (s: nat)
    requires QueueOk(q)
    ensures StartsAt(q, pts, s)
    ensures var l := SeekTarget(q, pts, forward);
      if l.At? then (if forward then FirstAfter(q.packets, s, pts, l.num - q.base)
                     else BestBefore(q.packets, s, pts, l.num - q.base))
      else forall k :: s <= k < |q.packets| && SeekPoint(q.packets[k]) ==> forward && q.packets[k].kfSeekPts < pts
  {
    hide QueueOk, Scan, IndexStart, FirstAfter, BestBefore;
    IndexStartIs(q, pts, |q.index|);
    s := IndexStart(q, pts, |q.index|);
    forall j | 0 <= j < |q.index| && KeyframeUpTo(q, q.index[j], pts) ensures q.index[j] <= q.base + s {
      IndexStartIsLast(q, pts, |q.index|, j);
    }
    if forward {
      ScanForwardIs(q.packets, s, pts);
    } else {
      ScanBackwardIs(q.packets, s, s, pts);
    }
  }

  /** A walk to the timestamp of a keyframe it meets, from a start before it, finds just that one. */
  lemma {:induction false} StartsBeforeFound(q: Queue, pts: real, forward: bool, u: nat, s: nat, s': nat)
    requires StartsAt(q, pts, s) && u < |q.packets| && SeekPoint(q.packets[u])
    requires if forward then FirstAfter(q.packets, s, pts, u) else BestBefore(q.packets, s, pts, u)
    requires StartsAt(q, q.packets[u].kfSeekPts, s') && s' <= u
    ensures BestBefore(q.packets, s', q.packets[u].kfSeekPts, u)
  {
    hide StartsEarly;
    var ps, ts := q.packets, q.packets[u].kfSeekPts;
    assert s > 0 ==> ps[s].kfSeekPts <= ts;
    assert s <= s' by {
      if s > 0 {
        var j :| 0 <= j < |q.index| && q.index[j] == q.base + s;
        assert KeyframeUpTo(q, q.index[j], ts);
      }
    }
    assert forall k :: s' <= k < u && SeekPoint(ps[k]) && ps[k].kfSeekPts <= ts ==> ps[k].kfSeekPts < ts;
    FoundStartsEarly(ps, s, s', pts, forward, u);
  }

  lemma {:induction false} FoundStartsEarly(ps: seq<Packet>, s: nat, s': nat, pts: real, forward: bool, u: nat)
    requires s <= s' <= u < |ps| && SeekPoint(ps[u])
    requires if forward then FirstAfter(ps, s, pts, u) else BestBefore(ps, s, pts, u)
    requires s' == 0 || (SeekPoint(ps[s']) && ps[s'].kfSeekPts <= ps[u].kfSeekPts)
    ensures StartsEarly(ps, s', ps[u].kfSeekPts, u)
  {
    if s' == 0 {
      var f := FirstIs(ps, 0);
      assert f <= u && SeekPoint(ps[f]) && ps[f].kfSeekPts <= ps[u].kfSeekPts;
    }
  }

  /** Seeking back to the timestamp of the keyframe a seek found lands at or before it; and on the
      very same keyframe if and only if no indexed keyframe behind it is that early. After a
      backward seek that landed in time none is. */
  lemma FoundAgain(q: Queue, pts: real, forward: bool)
    requires QueueOk(q) && SeekTarget(q, pts, forward).At?
    ensures var l := SeekTarget(q, pts, forward);
      && SeekPoint(q.Get(l.num))
      && var ts := q.Get(l.num).kfSeekPts;
         var again := SeekTarget(q, ts, false);
         && again.At? && KeyframeUpTo(q, again.num, ts)
         && (again == l <==> NoEntryBehind(q, l.num, ts))
         && (!forward && ts <= pts ==> again == l)
  {
    hide QueueOk, SeekTarget, StartsEarly;
    var l := SeekTarget(q, pts, forward);
    var s := TargetIs(q, pts, forward);
    var ts := q.Get(l.num).kfSeekPts;
    var again := SeekTarget(q, ts, false);
    var s' := TargetIs(q, ts, false);
    if NoEntryBehind(q, l.num, ts) {
      StartsBeforeFound(q, pts, forward, l.num - q.base, s, s');
      BestBeforeIsOne(q.packets, s', ts, l.num - q.base, again.num - q.base);
    }
  }

  /** If the index agrees with the queue, a keyframe is always found again. */
  lemma RecordedFoundAgain(q: Queue, pts: real, forward: bool)
    requires QueueOk(q) && Recorded(q) && SeekTarget(q, pts, forward).At?
    ensures var l := SeekTarget(q, pts, forward); SeekTarget(q, q.Get(l.num).kfSeekPts, false) == l
  {
    hide QueueOk, SeekTarget;
    FoundAgain(q, pts, forward);
    var l := SeekTarget(q, pts, forward);
    forall j | 0 <= j < |q.index| && q.index[j] > l.num ensures !KeyframeUpTo(q, q.index[j], q.Get(l.num).kfSeekPts) {
      assert Record(q.packets, q.index[j] - q.base);
    }
  }

  /** A time just before `limit`, behind all keyframes before `limit`. */
  lemma {:induction false} JustBefore(ps: seq<Packet>, limit: real) returns (pts: real)
    ensures pts < limit
    ensures forall k :: 0 <= k < |ps| && SeekPoint(ps[k]) && ps[k].kfSeekPts < limit ==> ps[k].kfSeekPts < pts
  {
    if ps == [] {
      pts := limit - 1.0;
    } else {
      var last := |ps| - 1;
      pts := JustBefore(ps[..last], limit);
      assert forall k :: 0 <= k < last ==> ps[k] == ps[..last][k];
      if pts <= ps[last].kfSeekPts < limit {
        pts := (ps[last].kfSeekPts + limit) / 2.0;
      }
    }
  }

  predicate RecordEntry(q: Queue, i: nat)
    requires i < |q.index|
  {
    q.index[i] >= q.base && Record(q.packets, q.index[i] - q.base)
  }

  lemma {:induction false} FirstNoRecord(q: Queue, i: nat) returns (f: nat)
    requires i < |q.index| && !Recorded(q) && forall j :: 0 <= j < i ==> RecordEntry(q, j)
    ensures f < |q.index| && !RecordEntry(q, f) && forall j :: 0 <= j < f ==> RecordEntry(q, j)
    decreases |q.index| - i
  {
    f := i;
    if RecordEntry(q, i) {
      var j :| 0 <= j < |q.index| && !(q.index[j] >= q.base && Record(q.packets, q.index[j] - q.base));
      assert !RecordEntry(q, j);
      f := FirstNoRecord(q, i + 1);
    }
  }

  /** And only then: in any other queue some forward seek finds a keyframe that seeking back to its
      timestamp does not find again. */
  lemma {:induction false} NotFoundAgain(q: Queue) returns (pts: real)
    requires QueueOk(q) && !Recorded(q)
    ensures var l := SeekTarget(q, pts, true);
      l.At? && SeekTarget(q, q.Get(l.num).kfSeekPts, false) != l
  {
    hide QueueOk, SeekTarget, Scan;
    var i := FirstNoRecord(q, 0);
    IndexIsOk(q);
    assert EntryOk(q.base, q.packets, q.index[i]);
    var limit := q.Get(q.index[i]).kfSeekPts;
    var k := RunAhead(q, i);
    pts := JustBefore(q.packets, limit);
    var s := TargetIs(q, pts, true);
    StartsBeforeEntry(q, pts, s, i, k);
    FoundAgain(q, pts, true);
    assert KeyframeUpTo(q, q.index[i], limit);
  }

  lemma IndexIsOk(q: Queue)
    requires QueueOk(q)
    ensures IndexOk(q)
  {
  }

  /** A keyframe that the `i`th entry, the first one that is no record, does not leave behind. */
  lemma RunAhead(q: Queue, i: nat) returns (k: nat)
    requires IndexOk(q) && i < |q.index| && !RecordEntry(q, i) && forall j :: 0 <= j < i ==> RecordEntry(q, j)
    ensures q.Holds(q.index[i]) && k < q.index[i] - q.base
    ensures SeekPoint(q.packets[k]) && q.packets[k].kfSeekPts >= q.Get(q.index[i]).kfSeekPts
    ensures forall j :: 0 <= j < i ==> q.base <= q.index[j] <= q.base + k
  {
    assert EntryOk(q.base, q.packets, q.index[i]);
    var e := q.index[i] - q.base;
    k :| 0 <= k < e && SeekPoint(q.packets[k]) && q.packets[k].kfSeekPts >= q.packets[e].kfSeekPts;
    forall j | 0 <= j < i ensures q.base <= q.index[j] <= q.base + k {
      assert RecordEntry(q, j);
      assert Spaced(q.base, q.packets, q.indexDistance, q.index[j], q.index[i]);
    }
  }

  lemma StartsBeforeEntry(q: Queue, pts: real, s: nat, i: nat, k: nat)
    requires IndexOk(q) && StartsAt(q, pts, s) && i < |q.index| && q.Holds(q.index[i])
    requires pts < q.Get(q.index[i]).kfSeekPts && forall j :: 0 <= j < i ==> q.index[j] <= q.base + k
    ensures s <= k
  {
    if s > 0 {
      var j :| 0 <= j < |q.index| && q.index[j] == q.base + s;
      assert j > i ==> Spaced(q.base, q.packets, q.indexDistance, q.index[i], q.index[j]);
    }
  }

  // ---------- the walk itself ----------

  method FindSeekTarget(q: Queue, pts: real, forward: bool) returns (l: Link)
    requires QueueOk(q)
    ensures l == SeekTarget(q, pts, forward)
  {
    var start, n := 0, 0;
    while n < |q.index|
      invariant 0 <= n <= |q.index|
      invariant forall i :: 0 <= i < |q.index| ==> EntryOk(q.base, q.packets, q.index[i])
      invariant start == IndexStart(q, pts, n)
      invariant forall i :: 0 <= i < n ==> q.Get(q.index[i]).kfSeekPts <= pts
    {
      if q.Get(q.index[n]).kfSeekPts > pts {
        IndexStartStops(q, pts, n, |q.index|);
        break;
      }
      start := q.index[n] - q.base;
      n := n + 1;
    }

    var target := -1;
    var dp := start;
    while dp < |q.packets|
      invariant start <= dp <= |q.packets| || dp == start
      invariant -1 <= target < |q.packets|
      invariant start <= |q.packets|
      invariant Scan(q.packets, start, pts, forward, -1) == Scan(q.packets, dp, pts, forward, target)
    {
      var p := q.packets[dp];
      dp := dp + 1;
      if !p.media.keyframe || p.kfSeekPts == NOPTS {
        continue;
      }
      var diff := p.kfSeekPts - pts;
      if forward {
        diff := -diff;
        if diff > 0.0 {
          continue;
        }
      }
      if target >= 0 {
        var targetDiff := Distance(q.packets[target], pts, forward);
        if diff <= 0.0 {
          if targetDiff <= 0.0 && diff <= targetDiff {
            continue;
          }
        } else if diff >= targetDiff {
          continue;
        }
      }
      target := dp - 1;
      if p.kfSeekPts > pts {
        return At(q.base + target);
      }
    }
    l := if target < 0 then Null else At(q.base + target);
  }

  // ---------- runs that only append ----------

  /** A packet arrives, or the end of the stream is seen. */
  datatype Event = NewPacket(media: Media) | EndOfStream

  function Step(q: Queue, e: Event, video: bool): (r: Queue)
    requires Readable(q)
    ensures Readable(r)
  {
    match e
    case NewPacket(m) => Added(q, m, video)
    case EndOfStream => Adjusted(q, Null)
  }

  function Run(q: Queue, events: seq<Event>, video: bool): (r: Queue)
    requires Readable(q)
    ensures Readable(r)
    decreases |events|
  {
    if events == [] then q else Run(Step(q, events[0], video), events[1..], video)
  }

  lemma {:induction false} ClosedCovers(q: Queue, l: Link)
    requires QueueOk(q) && Covering(q) && Readable(q) && q.HoldsLink(l)
    ensures Covering(Closed(q, l))
  {
    hide QueueOk, LinksOk, CloseBlock, WithIndexEntry, CoveringUpTo;
    if q.keyframeLatest.At? {
      CloseBlockOk(q);
      CloseBlockCovers(q);
      IndexLatestCovers(CloseBlock(q));
    }
  }

  lemma {:induction false} AdjustedCovers(q: Queue, l: Link)
    requires QueueOk(q) && Covering(q) && Readable(q) && q.HoldsLink(l)
    ensures Covering(Adjusted(q, l))
  {
    if l.Null? || q.Get(l.num).media.keyframe {
      ClosedCovers(q, l);
    }
  }

  lemma AppendedCovers(q: Queue, m: Media, video: bool)
    requires Covering(q)
    ensures Covering(Appended(q, m, video))
  {
    var a := Appended(q, m, video);
    forall i | 0 <= i < |q.index| ensures a.index[i] >= a.base && Record(a.packets, a.index[i] - a.base) {
      assert Record(q.packets, q.index[i] - q.base);
    }
  }

  /** A queue in order whose index covers it and whose window is honest. */
  ghost predicate Tidy(q: Queue) {
    QueueOk(q) && Readable(q) && Covering(q) && Honest(q)
  }

  lemma {:induction false} StepTidy(q: Queue, e: Event, video: bool)
    requires Tidy(q)
    ensures Tidy(Step(q, e, video))
  {
    match e {
      case NewPacket(m) =>
        AddedOk(q, m, video);
        AddedHonest(q, m, video);
        AppendedOk(q, m, video);
        AppendedCovers(q, m, video);
        var a := Appended(q, m, video);
        AdjustedCovers(a, a.Tail());
      case EndOfStream =>
        AdjustedOk(q, Null);
        AdjustedHonest(q, Null);
        AdjustedCovers(q, Null);
    }
  }

  lemma {:induction false} RunTidy(q: Queue, events: seq<Event>, video: bool)
    requires Tidy(q)
    ensures Tidy(Run(q, events, video))
    decreases |events|
  {
    if events != [] {
      StepTidy(q, events[0], video);
      RunTidy(Step(q, events[0], video), events[1..], video);
    }
  }

  /** Over every run of appends and stream ends, with timestamps in any order, a seek from the
      index and a seek over the whole queue find the same packet, and a backward seek into the
      queue's window finds a keyframe at or before its target. */
  lemma EveryAppendRunIsSeekable(events: seq<Event>, video: bool, pts: real, forward: bool)
    ensures QueueOk(Run(FRESH_QUEUE, events, video))
    ensures var q := Run(FRESH_QUEUE, events, video);
      && SeekTarget(q, pts, forward) == HeadTarget(q, pts, forward)
      && (q.seekStart != NOPTS && q.seekStart <= pts ==>
            var l := SeekTarget(q, pts, false); l.At? && SeekPoint(q.Get(l.num)) && q.Get(l.num).kfSeekPts <= pts)
  {
    RunTidy(FRESH_QUEUE, events, video);
    var q := Run(FRESH_QUEUE, events, video);
    IndexAgrees(q, pts, forward);
    if q.seekStart != NOPTS && q.seekStart <= pts {
      HonestWindowIsSeekable(q, pts);
    }
  }
}
