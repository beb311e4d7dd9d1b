/** Runs of the cache in which it does what it should not, as it does for one video stream: pruning
    finds no victim, and the seek index leads past the packet a seek should find. */
module CacheCounterexamples {
  import opened Timestamps
  import opened PacketQueue
  import opened CachedRanges
  import opened CacheRuns
  import CacheGuarantees
  import Pruning
  import RangeJoin
  import SeekIndex
  import SeekCompleteness

  function Frame(pts: real, dts: real, key: bool, len: nat): Media {
    Media(pts, dts, -1, len, key, false, NOPTS, NOPTS, 0)
  }

  const NO_SEEK := PendingSeek(false, SeekFlags(false, false, false), 0.0)

  /** A cache with one range and one stream, which is read eagerly and in order. */
  ghost predicate Sole(c: Cache, q: Queue, s: Stream) {
    && c.streams == [s] && |c.ranges| == 1 && c.ranges[0].id == c.current && c.ranges[0].queues == [q]
    && !c.pending.queued && Playing(s) && q.correctDts && ReaderOk(s, c.current, q) && QueueOk(q)
  }

  predicate Playing(s: Stream) {
    && s.kind == Video && !s.attachedPicture && s.selected && s.eager && !s.refreshing
    && s.globalCorrectDts && !s.eof && !s.skipToKeyframe
  }

  function WindowOf(x: Range): Window { Window(x.seekStart, x.seekEnd) }

  function QueueWindow(q: Queue): Window {
    if Empty(q) then NO_WINDOW else Window(q.seekStart, q.seekEnd)
  }

  lemma SoleWindow(q: Queue, s: Stream)
    requires Restricts(s)
    ensures SeekWindow([q], [s]) == QueueWindow(q)
  {
    assert EagerWindow([q], [s], 0) == NO_WINDOW;
    assert EagerWindow([q], [s], 1) == Window(q.seekStart, q.seekEnd);
    assert SparseStart([q], [s], 0, q.seekStart) == q.seekStart;
    assert Restricts([s][0]) && [q][0] == q;
    assert Blocked([q], [s], 1) <==> Empty(q);
    assert SparseStart([q], [s], 0, NOPTS) == NOPTS;
  }

  /** With a single range there is nothing to join. */
  lemma SoleAdjusts(ss: seq<Stream>, x: Range, p: PendingSeek, n: nat, l: Link)
    requires n < |x.queues| == |ss| && Readable(x.queues[n]) && x.queues[n].HoldsLink(l)
    ensures AdjustOutcome(ss, [x], p, n, l, ss, [AdjustedRange(x, ss, n, l)], p)
  {
    hide AdjustedRange;
    assert [x][0 := AdjustedRange(x, ss, n, l)] == [AdjustedRange(x, ss, n, l)];
  }

  /** What an arriving packet makes of the only range and its stream. */
  function Arrived(c: Cache, q: Queue, s: Stream, m: Media): Cache
    requires Readable(q) && |c.ranges| == 1
  {
    var a := Appended(q, m, true);
    var x := Range(c.current, [a], c.ranges[0].seekStart, c.ranges[0].seekEnd);
    c.(streams := [AfterAppend(s, a, m)], ranges := [AdjustedRange(x, [AfterAppend(s, a, m)], 0, a.Tail())])
  }

  lemma Arrives(c: Cache, q: Queue, s: Stream, m: Media)
    requires Sole(c, q, s) && Readable(q) && m.len != 0 && TimedMedia(m)
    ensures Happens(c, PacketArrives(0, m), true, Arrived(c, q, s, m))
  {
    hide Appended, AfterAppend, ReaderOk, QueueOk, AdjustOutcome, AdjustedRange;
    var a := Appended(q, m, true);
    var x := AppendedRange(c.ranges[0], 0, m, true);
    assert x == Range(c.current, [a], c.ranges[0].seekStart, c.ranges[0].seekEnd);
    assert c.ranges[0 := x] == [x] && AddedStreams([s], c.ranges[0], 0, m) == [AfterAppend(s, a, m)];
    SoleAdjusts([AfterAppend(s, a, m)], x, c.pending, 0, a.Tail());
  }

  /** The only range's queue takes the packet, and its window is renewed with a new keyframe. */
  lemma ArrivedIs(c: Cache, q: Queue, s: Stream, m: Media) returns (t: Stream)
    requires Sole(c, q, s) && Readable(q) && m.len != 0 && m.dts > q.lastDts && m.dts > NOPTS
    ensures var b := Arrived(c, q, s, m);
      && Sole(b, Added(q, m, true), t) && b.current == c.current && b.pending == c.pending
      && WindowOf(b.ranges[0]) == if m.keyframe && q.keyframeLatest.At? then QueueWindow(Added(q, m, true))
                                  else WindowOf(c.ranges[0])
    ensures Added(q, m, true).lastDts == m.dts
    ensures t.reader == if s.reader.NoPacket? then PacketAt(c.current, q.End()) else s.reader
  {
    hide Adjusted, QueueOk, ReaderAt;
    var a := Appended(q, m, true);
    t := AfterAppend(s, a, m);
    AddedOk(q, m, true);
    AddedKeeps(q, m);
    AfterAppendReader(s, c.current, q, m, true);
    AdjustedReader(t, c.current, a, a.Tail());
    SoleWindow(Added(q, m, true), t);
    assert [a][0 := Added(q, m, true)] == [Added(q, m, true)];
  }

  lemma AddedKeeps(q: Queue, m: Media)
    requires Readable(q) && q.correctDts && m.dts > q.lastDts && m.dts > NOPTS
    ensures var a := Added(q, m, true); a.correctDts && a.lastDts == m.dts
  {
  }

  // ---------- reading and pruning ----------

  lemma ReadsLast(c: Cache, q: Queue, s: Stream)
    requires c.streams == [s] && c.ranges != [] && c.ranges[|c.ranges| - 1].queues == [q]
    requires ReaderOk(s, c.current, q) && s.reader.PacketAt?
    ensures ReadableReader(s, q) && Happens(c, PacketRead(0), true, c.(streams := [AfterRead(s, q)]))
    ensures ReaderOk(AfterRead(s, q), c.current, q)
  {
    hide EstimateSize, ReaderAt;
    AfterReadReader(s, c.current, q);
    ReaderHolds(s, c.current, q);
    assert c.streams[0] == s && c.streams[0 := AfterRead(s, q)] == [AfterRead(s, q)];
  }

  lemma Reads(c: Cache, q: Queue, s: Stream) returns (b: Cache, t: Stream)
    requires Sole(c, q, s) && s.reader.PacketAt?
    ensures Happens(c, PacketRead(0), true, b) && Sole(b, q, t) && b == c.(streams := [t])
    ensures t.reader == if s.reader.num + 1 < q.End() then PacketAt(c.current, s.reader.num + 1) else NoPacket
  {
    hide QueueOk, EstimateSize, ReaderAt, Happens;
    ReadsLast(c, q, s);
    ReaderHolds(s, c.current, q);
    t := AfterRead(s, q);
    b := c.(streams := [t]);
  }

  lemma ReaderHolds(s: Stream, id: nat, q: Queue)
    requires ReaderOk(s, id, q) && s.reader.PacketAt?
    ensures q.Holds(s.reader.num) && s.reader.range == id
  {
  }

  /** The backlog is the one packet that was read. */
  lemma Backlog(c: Cache, q: Queue, s: Stream)
    requires Sole(c, q, s) && q.packets != []
    requires s.reader == if |q.packets| > 1 then PacketAt(c.current, q.base + 1) else NoPacket
    ensures RangesBytes(c.ranges) == ForwardBytes(c.streams) + EstimateSize(q.packets[0].media)
  {
    hide QueueOk, EstimateSize;
    assert c.ranges[1..] == [] && c.ranges[0].queues[1..] == [] && c.streams[1..] == [];
    assert RangesBytes(c.ranges) == QueuesBytes(c.ranges[0].queues) == Bytes(q.packets);
    assert ForwardBytes(c.streams) == s.fwBytes;
    if |q.packets| > 1 {
      assert q.packets[1..] == Forward(s, q);
    } else {
      assert Forward(s, q) == [] == q.packets[1..];
    }
  }

  /** One packet was read, and is pruned. */
  lemma PrunesOne(c: Cache, q: Queue, s: Stream, limit: nat) returns (b: Cache)
    requires Sole(c, q, s) && |q.packets| > 1 && s.reader == PacketAt(c.current, q.base + 1) && q.nextPrune.Null?
    requires q.packets[0].media.len > limit
    ensures Happens(c, Pruned(limit, 0), true, b)
    ensures var r := Drop(Pruning.Prepared(q), 1);
      && Sole(b, r, s) && b == c.(ranges := b.ranges) && WindowOf(b.ranges[0]) == QueueWindow(r)
  {
    hide QueueOk, EstimateSize, ReaderAt, Drop;
    Backlog(c, q, s);
    var p := Pruning.Prepared(q);
    Pruning.PreparedOk(q);
    DropOk(p, 1);
    assert Pruning.PruneCount(s, c.current, p, 1) == 1;
    assert Pruning.PrunedVictim(s, c.current, q, true) == Drop(p, 1);
    var y := Pruning.VictimPruned(c.ranges, c.streams, true, 0);
    assert [q][0 := Drop(p, 1)] == [Drop(p, 1)];
    SoleWindow(Drop(p, 1), s);
    b := c.(ranges := c.ranges[0 := y]);
    assert Pruning.PrunedVictimOutcome(c.ranges, c.streams, true, c.current, 0, b.ranges);
    DropKeeps(q, s, c.current);
  }

  lemma DropKeeps(q: Queue, s: Stream, id: nat)
    requires |q.packets| > 1 && s.reader == PacketAt(id, q.base + 1) && ReaderOk(s, id, q)
    ensures var r := Drop(Pruning.Prepared(q), 1); ReaderOk(s, id, r) && r.correctDts == q.correctDts
  {
    assert q.packets[1..][0..] == q.packets[1..];
  }

  // ---------- queues ----------

  /** The state of a queue that matters here. */
  predicate Looks(q: Queue, ps: seq<Packet>, latest: nat, kfPts: real, kfEnd: real, seekStart: real) {
    && q.base == 0 && q.packets == ps && q.nextPrune == Null && q.keyframeLatest == At(latest)
    && q.keyframePts == kfPts && q.keyframeEndPts == kfEnd && q.seekStart == seekStart && QueueOk(q) && Readable(q)
  }

  /** The first packet, a keyframe. */
  lemma Starts(m: Media)
    requires m == Frame(m.pts, m.dts, true, m.len) && m.pts > NOPTS
    ensures Looks(Added(FRESH_QUEUE, m, true), [Packet(m, NOPTS)], 0, m.pts, m.pts, NOPTS)
  {
    AddedOk(FRESH_QUEUE, m, true);
    var a := Appended(FRESH_QUEUE, m, true);
    assert a.packets == [Packet(m, NOPTS)];
    hide QueueOk;
  }

  /** A packet that continues the keyframe range. */
  lemma Continues(q: Queue, ps: seq<Packet>, latest: nat, kfPts: real, kfEnd: real, seekStart: real, m: Media)
    requires Looks(q, ps, latest, kfPts, kfEnd, seekStart) && m == Frame(m.pts, m.dts, false, m.len)
    requires NOPTS < kfPts <= m.pts && NOPTS < kfEnd <= m.pts
    ensures Looks(Added(q, m, true), ps + [Packet(m, NOPTS)], latest, kfPts, m.pts, seekStart)
  {
    AddedOk(q, m, true);
    hide QueueOk;
  }

  /** A keyframe that completes the latest one's range and starts its own. */
  lemma Completes(q: Queue, ps: seq<Packet>, latest: nat, kfPts: real, kfEnd: real, seekStart: real, m: Media)
    requires Looks(q, ps, latest, kfPts, kfEnd, seekStart) && m == Frame(m.pts, m.dts, true, m.len)
    requires NOPTS < kfPts && m.pts > NOPTS && latest < |ps|
    ensures Looks(Added(q, m, true), ps[latest := ps[latest].(kfSeekPts := kfPts)] + [Packet(m, NOPTS)],
                  |ps|, m.pts, m.pts, if seekStart == NOPTS then kfPts else seekStart)
  {
    AddedOk(q, m, true);
    var a := Appended(q, m, true);
    assert Stamped(a) == ps[latest := ps[latest].(kfSeekPts := kfPts)] + [Packet(m, NOPTS)];
    hide QueueOk, WithIndexEntry;
  }

  // ---------- runs ----------

  /** The cache after its first stream was added. */
  function Start(): Cache {
    Cache(WithEagerness([Reselected(NewStream(Video, false, true, 0))]), [EmptyRange(0, 1)], 0, NO_SEEK)
  }

  lemma StartIs() returns (s: Stream)
    ensures Sole(Start(), FRESH_QUEUE, s) && s.reader.NoPacket? && Start().current == 0
    ensures SelectionOutcome([NewStream(Video, false, true, 0)], Widened([Range(0, [], NOPTS, NOPTS)]), 0,
                             Start().streams, Start().ranges)
  {
    var added := NewStream(Video, false, true, 0);
    s := Reselected(added).(eager := true);
    assert Start().streams == [s];
    assert Forward(s, FRESH_QUEUE) == [];
    assert EmptyRange(0, 1).queues == [FRESH_QUEUE];
    assert Start().ranges == [Range(0, [FRESH_QUEUE], NOPTS, NOPTS)];
    assert [] + [FRESH_QUEUE] == [FRESH_QUEUE];
    assert Widened([Range(0, [], NOPTS, NOPTS)]) == Start().ranges;
    assert [added][0 := Reselected(added)] == [Reselected(added)];
    ClearedWindow([FRESH_QUEUE], [Reselected(added)]);
    assert Renewed(Start().ranges, [Reselected(added)], 0) == Start().ranges;
    assert Freed(Start().ranges) == Start().ranges;
  }

  /** A run of the cache from the start, so far. */
  ghost predicate Reached(trace: seq<Cache>, events: seq<CacheEvent>) {
    IsRun(trace, events, true) && trace[0] == Start()
  }

  function Last(trace: seq<Cache>): Cache
    requires trace != []
  {
    trace[|trace| - 1]
  }

  lemma Goes(trace: seq<Cache>, events: seq<CacheEvent>, e: CacheEvent, b: Cache)
    requires Reached(trace, events) && Happens(Last(trace), e, true, b)
    ensures Reached(trace + [b], events + [e])
  {
    hide Happens;
  }

  /** The run goes on with a packet. */
  lemma Takes(trace: seq<Cache>, events: seq<CacheEvent>, q: Queue, s: Stream, m: Media)
    returns (trace': seq<Cache>, t: Stream)
    requires Reached(trace, events) && Sole(Last(trace), q, s)
    requires m.len != 0 && TimedMedia(m) && m.dts > q.lastDts && m.dts > NOPTS
    ensures Reached(trace', events + [PacketArrives(0, m)]) && Readable(q) && Sole(Last(trace'), Added(q, m, true), t)
    ensures Last(trace').current == Last(trace).current && Added(q, m, true).lastDts == m.dts
    ensures t.reader == if s.reader.NoPacket? then PacketAt(Last(trace).current, q.End()) else s.reader
    ensures m.keyframe && q.keyframeLatest.At? ==> WindowOf(Last(trace').ranges[0]) == QueueWindow(Added(q, m, true))
  {
    hide Happens, QueueOk, Arrived, Added, ReaderOk;
    ReadableIfOk(q);
    Arrives(Last(trace), q, s, m);
    t := ArrivedIs(Last(trace), q, s, m);
    trace' := trace + [Arrived(Last(trace), q, s, m)];
    Goes(trace, events, PacketArrives(0, m), Arrived(Last(trace), q, s, m));
  }

  /** The run goes on with the first packet being read, and pruned. */
  lemma LosesOne(trace: seq<Cache>, events: seq<CacheEvent>, q: Queue, s: Stream, limit: nat)
    returns (trace': seq<Cache>, t: Stream)
    requires Reached(trace, events) && Sole(Last(trace), q, s) && |q.packets| > 1 && q.packets[0].media.len > limit
    requires s.reader == PacketAt(Last(trace).current, q.base) && q.nextPrune.Null?
    ensures Reached(trace', events + [PacketRead(0)] + [Pruned(limit, 0)])
    ensures Sole(Last(trace'), Drop(Pruning.Prepared(q), 1), t)
    ensures t.reader == PacketAt(Last(trace).current, q.base + 1)
    ensures Last(trace').current == Last(trace).current
  {
    hide Happens, QueueOk, Drop, ReaderOk;
    var b;
    b, t := Reads(Last(trace), q, s);
    Goes(trace, events, PacketRead(0), b);
    trace' := trace + [b];
    var d := PrunesOne(b, q, t, limit);
    Goes(trace', events + [PacketRead(0)], Pruned(limit, 0), d);
    trace' := trace' + [d];
  }

  // ---------- an index that leads astray ----------

  /** A block that is closed is indexed unless the only entry is too close. */
  lemma CompletesIndex(q: Queue, ps: seq<Packet>, latest: nat, kfPts: real, kfEnd: real, seekStart: real, m: Media)
    requires Looks(q, ps, latest, kfPts, kfEnd, seekStart) && m == Frame(m.pts, m.dts, true, m.len)
    requires NOPTS < kfPts && m.pts > NOPTS && latest < |ps| && q.indexDistance == 1.0
    requires q.index == [] || (|q.index| == 1 && q.index[0] < latest)
    ensures var a := Added(q, m, true);
      && a.indexDistance == 1.0
      && a.index == if q.index != [] && kfPts < ps[q.index[0]].kfSeekPts + 1.0 then q.index else q.index + [latest]
  {
    var a := Appended(q, m, true);
    assert Stamped(a) == ps[latest := ps[latest].(kfSeekPts := kfPts)] + [Packet(m, NOPTS)];
    hide QueueOk;
  }

  lemma ContinuesIndex(q: Queue, m: Media)
    requires Readable(q) && m == Frame(m.pts, m.dts, false, m.len)
    ensures Added(q, m, true).index == q.index && Added(q, m, true).indexDistance == q.indexDistance
  {
  }

  function Key(pts: real, dts: real, limit: nat): Media { Frame(pts, dts, true, limit + 1) }

  function ThreeKeys(limit: nat): (q: Queue)
    ensures QueueOk(q) && Readable(q)
  {
    AddedOk(FRESH_QUEUE, Key(10.0, 1.0, limit), true);
    var q1 := Added(FRESH_QUEUE, Key(10.0, 1.0, limit), true);
    AddedOk(q1, Key(10.5, 2.0, limit), true);
    var q2 := Added(q1, Key(10.5, 2.0, limit), true);
    AddedOk(q2, Key(9.0, 3.0, limit), true);
    Added(q2, Key(9.0, 3.0, limit), true)
  }

  lemma ThreeKeysLook(limit: nat) returns (ps: seq<Packet>)
    ensures var q := ThreeKeys(limit);
      Looks(q, ps, 2, 9.0, 9.0, 10.0) && q.index == [0] && q.indexDistance == 1.0
    ensures |ps| == 3 && ps[0] == Packet(Key(10.0, 1.0, limit), 10.0) && ps[1] == Packet(Key(10.5, 2.0, limit), 10.5)
    ensures ps[2].kfSeekPts == NOPTS
  {
    hide Added, Looks;
    var k1, k2, k3 := Key(10.0, 1.0, limit), Key(10.5, 2.0, limit), Key(9.0, 3.0, limit);
    Starts(k1);
    StartsIndex(k1);
    var q1, ps1 := Added(FRESH_QUEUE, k1, true), [Packet(k1, NOPTS)];
    Completes(q1, ps1, 0, 10.0, 10.0, NOPTS, k2);
    CompletesIndex(q1, ps1, 0, 10.0, 10.0, NOPTS, k2);
    var q2, ps2 := Added(q1, k2, true), [Packet(k1, 10.0), Packet(k2, NOPTS)];
    assert ps1[0 := ps1[0].(kfSeekPts := 10.0)] + [Packet(k2, NOPTS)] == ps2;
    Completes(q2, ps2, 1, 10.5, 10.5, 10.0, k3);
    CompletesIndex(q2, ps2, 1, 10.5, 10.5, 10.0, k3);
    ps := ps2[1 := ps2[1].(kfSeekPts := 10.5)] + [Packet(k3, NOPTS)];
  }

  lemma StartsIndex(m: Media)
    requires m == Frame(m.pts, m.dts, true, m.len)
    ensures Added(FRESH_QUEUE, m, true).index == [] && Added(FRESH_QUEUE, m, true).indexDistance == 1.0
  {
  }

  /** Keyframes at 10, 10.5, 9 and 30, of which the first is pruned before the last arrives: then
      the third is indexed, although the second one is later. */
  lemma PrunedIndex(limit: nat)
    ensures var d := Drop(Pruning.Prepared(ThreeKeys(limit)), 1); QueueOk(d) && Readable(d)
    ensures var q := Added(Drop(Pruning.Prepared(ThreeKeys(limit)), 1), Key(30.0, 4.0, limit), true);
      QueueOk(q) && !SeekIndex.Recorded(q)
  {
    var ps := ThreeKeysLook(limit);
    var q, k := ThreeKeys(limit), Key(30.0, 4.0, limit);
    Pruning.PreparedOk(q);
    DropOk(Pruning.Prepared(q), 1);
    var d := Drop(Pruning.Prepared(q), 1);
    ReadableIfOk(d);
    AddedOk(d, k, true);
    var r := Added(d, k, true);
    assert IndexFrom([0], 1) == [] by { assert [0][1..] == []; }
    LastIndexes(d, ps[1..], k);
    assert r.packets[0] == ps[1];
    assert !SeekIndex.Record(r.packets, 1);
  }

  /** With an empty index, a completed keyframe range is indexed whatever its timestamp. */
  lemma LastIndexes(d: Queue, ps: seq<Packet>, k: Media)
    requires Readable(d) && d.packets == ps && |ps| == 2 && d.base == 1 && d.index == [] && d.keyframeLatest == At(2)
    requires d.keyframePts == 9.0 && k == Frame(k.pts, k.dts, true, k.len)
    ensures var r := Added(d, k, true);
      r.base == 1 && r.index == [2] && |r.packets| == 3 && r.packets[0] == ps[0] && r.packets[1].kfSeekPts == 9.0
  {
    var a := Appended(d, k, true);
    assert Stamped(a) == ps[1 := ps[1].(kfSeekPts := 9.0)] + [Packet(k, NOPTS)];
  }

  lemma Begins()
    ensures Reached([Start()], [])
  {
  }

  /** So the index leads a forward seek past the packet that it should find: what appending alone
      never does, pruning makes possible. */
  lemma MisledIndexIsReached(limit: nat) returns (trace: seq<Cache>, events: seq<CacheEvent>, pts: real)
    ensures Reached(trace, events) && |events| == 6
    ensures var rs := Last(trace).ranges;
      && |rs| == 1 && |rs[0].queues| == 1 && QueueOk(rs[0].queues[0])
      && SeekIndex.SeekTarget(rs[0].queues[0], pts, true) != SeekIndex.HeadTarget(rs[0].queues[0], pts, true)
  {
    hide Happens, QueueOk, Drop, Start, Pruning.Prepared, Looks, ReaderOk, SeekIndex.SeekTarget, SeekIndex.HeadTarget;
    hide Added;
    var s := StartIs();
    var k1, k2, k3, k4 := Key(10.0, 1.0, limit), Key(10.5, 2.0, limit), Key(9.0, 3.0, limit), Key(30.0, 4.0, limit);
    trace, events := [Start()], [];
    Begins();
    trace, s := Takes(trace, events, FRESH_QUEUE, s, k1);
    events := events + [PacketArrives(0, k1)];
    var q := Added(FRESH_QUEUE, k1, true);
    trace, s := Takes(trace, events, q, s, k2);
    events := events + [PacketArrives(0, k2)];
    q := Added(q, k2, true);
    trace, s := Takes(trace, events, q, s, k3);
    events := events + [PacketArrives(0, k3)];
    q := Added(q, k3, true);
    var ps := ThreeKeysLook(limit);
    LooksLike(q, ps, 2, 9.0, 9.0, 10.0);
    trace, s := LosesOne(trace, events, q, s, limit);
    events := events + [PacketRead(0)] + [Pruned(limit, 0)];
    PrunedIndex(limit);
    PruningKeepsOrder(q, 1);
    q := Drop(Pruning.Prepared(q), 1);
    trace, s := Takes(trace, events, q, s, k4);
    events := events + [PacketArrives(0, k4)];
    pts := SeekIndex.IndexDisagrees(Added(q, k4, true));
  }

  lemma LooksLike(q: Queue, ps: seq<Packet>, latest: nat, kfPts: real, kfEnd: real, seekStart: real)
    requires Looks(q, ps, latest, kfPts, kfEnd, seekStart)
    ensures q.packets == ps && q.base == 0 && q.nextPrune.Null? && QueueOk(q)
  {
  }

  lemma PruningKeepsOrder(q: Queue, k: nat)
    requires q.packets != [] && k <= |q.packets|
    ensures Pruning.Prepared(q).packets == q.packets && Drop(Pruning.Prepared(q), k).lastDts == q.lastDts
  {
  }

  // ---------- pruning without a victim ----------

  /** The input ends: the last keyframe range is closed. */
  lemma Ends(c: Cache, q: Queue, s: Stream) returns (b: Cache)
    requires Sole(c, q, s) && q.keyframeLatest.At?
    ensures Readable(q) && Happens(c, InputEnds(0), true, b)
    ensures var e := Adjusted(q, Null);
      && b.streams == [s.(eof := true)] && |b.ranges| == 1 && b.ranges[0].queues == [e] && b.ranges[0].id == c.current
      && WindowOf(b.ranges[0]) == QueueWindow(e) && b.current == c.current && b.pending == c.pending
  {
    hide QueueOk, Adjusted, ReaderAt;
    ReadableIfOk(q);
    var x, e := c.ranges[0], Adjusted(q, Null);
    SoleAdjusts([s], x, c.pending, 0, Null);
    SoleWindow(e, s);
    assert [q][0 := e] == [e] && c.ranges == [x] && [s][0 := s.(eof := true)] == [s.(eof := true)];
    b := c.(streams := [s.(eof := true)], ranges := [AdjustedRange(x, [s], 0, Null)]);
    var was := Snapshot(c.streams, c.ranges, c.pending);
    assert EofAdjusted(was, 0, true, Snapshot(b.streams, b.ranges, b.pending), [s]);
  }

  /** A seek outside the only range puts it aside with its window, although its queue is emptied. */
  lemma PutsAside(c: Cache, e: Queue, s: Stream, pts: real) returns (b: Cache)
    requires c.streams == [s] && |c.ranges| == 1 && c.ranges[0].id == c.current && c.ranges[0].queues == [e]
    requires QueueOk(e) && s.globalCorrectDts && LeftBehind(e).packets == []
    requires NOPTS < c.ranges[0].seekStart && c.ranges[0].seekEnd < pts && NOPTS < pts
    ensures Happens(c, SeekMissed(pts, SeekFlags(false, false, true)), true, b)
    ensures b.streams == [Unread(s).(queue := c.current + 1, refreshing := false)]
    ensures b.current == c.current + 1 && b.pending.queued && |b.ranges| == 2 && Pruning.Drained(b.ranges[0])
    ensures b.ranges[1] == EmptyRange(c.current + 1, 1)
  {
    hide QueueOk, LeftBehind, SwitchedAway;
    var x, id, ss := c.ranges[0], c.current + 1, UnreadAll([s]);
    var y := x.(queues := [LeftBehind(e)]);
    assert ss == [Unread(s)] && c.ranges == [x];
    IsPutAside(x, e, ss, id, y);
    b := Cache(Switched(ss, id), [y, EmptyRange(id, 1)], id, PendingSeek(true, SeekFlags(false, false, true), pts));
    assert Switched(ss, id) == [Unread(s).(queue := id, refreshing := false)];
  }

  /** The range is put aside: it keeps its window, and so its place. */
  lemma IsPutAside(x: Range, e: Queue, ss: seq<Stream>, id: nat, y: Range)
    requires x.queues == [e] && QueueOk(e) && |ss| == 1 && ss[0].globalCorrectDts && x.seekStart != NOPTS
    requires y == x.(queues := [LeftBehind(e)])
    ensures SwitchedAway([x] + [EmptyRange(id, 1)], ss, [y, EmptyRange(id, 1)], y)
  {
    hide QueueOk, LeftBehind;
    var m := [x] + [EmptyRange(id, 1)];
    assert Resumable(ss) && Backgrounded(m[0], ss, y);
    assert m[0 := y] == [y, EmptyRange(id, 1)];
    KeptAll(m[0 := y], 0);
    assert Freed(m[0 := y]) == m[0 := y];
  }

  /** The seek is executed, one packet arrives in the fresh range, and is read. */
  lemma ReadsOneMore(c: Cache, s: Stream, m: Media) returns (trace: seq<Cache>)
    requires c.streams == [s] && |c.ranges| == 2 && Pruning.Drained(c.ranges[0])
    requires c.ranges[1] == EmptyRange(c.current, 1) && c.pending.queued
    requires Playing(s) && s == Unread(s).(queue := c.current) && m == Frame(m.pts, m.dts, true, m.len)
    requires m.len != 0 && TimedMedia(m)
    ensures |trace| == 4 && trace[0] == c && IsRun(trace, [SeekExecuted, PacketArrives(0, m), PacketRead(0)], true)
    ensures var d := trace[3];
      && |d.ranges| == 2 && d.ranges[0] == c.ranges[0]
      && RangesBytes(d.ranges) == ForwardBytes(d.streams) + EstimateSize(m)
  {
    hide EstimateSize, Happens, Added, AfterAppend, ReaderAt, Pruning.Drained;
    var q := Added(FRESH_QUEUE, m, true);
    var t := AfterAppend(s, Appended(FRESH_QUEUE, m, true), m);
    var e := c.(pending := c.pending.(queued := false));
    assert Happens(c, SeekExecuted, true, e) by { Executes(c); }
    FirstArrives(e, s, m);
    FirstReader(s, c.current, m);
    var a := e.(streams := [t], ranges := [c.ranges[0], Range(c.current, [q], NOPTS, NOPTS)]);
    ReadsLast(a, q, t);
    var d := a.(streams := [AfterRead(t, q)]);
    trace := [c, e, a, d];
    LastBytes(d, q, AfterRead(t, q), m);
  }

  lemma Executes(c: Cache)
    requires c.pending.queued
    ensures Happens(c, SeekExecuted, true, c.(pending := c.pending.(queued := false)))
  {
  }

  lemma FirstReader(s: Stream, id: nat, m: Media)
    requires s == Unread(s).(queue := id) && m == Frame(m.pts, m.dts, true, m.len)
    ensures var q, t := Added(FRESH_QUEUE, m, true), AfterAppend(s, Appended(FRESH_QUEUE, m, true), m);
      && ReaderOk(t, id, q) && t.reader == PacketAt(id, 0)
      && Medias(q.packets) == [m] && q.base == 0
  {
    hide Adjusted, Appended, ReaderAt, Bytes, EstimateSize;
    var a := Appended(FRESH_QUEUE, m, true);
    NothingRead(s, id);
    AfterAppendReader(s, id, FRESH_QUEUE, m, true);
    AdjustedReader(AfterAppend(s, a, m), id, a, At(0));
    assert Medias(FRESH_QUEUE.packets) == [];
  }

  lemma NothingRead(s: Stream, id: nat)
    requires s == Unread(s).(queue := id)
    ensures ReaderOk(s, id, FRESH_QUEUE)
  {
    assert Forward(s, FRESH_QUEUE) == [];
  }

  /** All that is counted is the packet that was read. */
  lemma LastBytes(d: Cache, q: Queue, t: Stream, m: Media)
    requires |d.ranges| == 2 && Pruning.Drained(d.ranges[0]) && d.ranges[1].queues == [q] && d.streams == [t]
    requires Medias(q.packets) == [m] && t.reader.NoPacket? && ReaderOk(t, d.current, q)
    ensures RangesBytes(d.ranges) == ForwardBytes(d.streams) + EstimateSize(m)
  {
    hide EstimateSize;
    EmptyQueuesBytes(d.ranges[0].queues);
    assert d.ranges[1..] == [d.ranges[1]] && d.ranges[1..][1..] == [] && d.ranges[1].queues[1..] == [];
    assert |q.packets| == |Medias(q.packets)| == 1 && q.packets[0].media == Medias(q.packets)[0] == m;
    assert q.packets[1..] == [] && d.streams[1..] == [] && Forward(t, q) == [];
    assert RangesBytes(d.ranges[1..]) == QueuesBytes(d.ranges[1].queues) == Bytes(q.packets) == EstimateSize(m);
  }

  lemma FirstArrives(c: Cache, s: Stream, m: Media)
    requires c.streams == [s] && |c.ranges| == 2 && c.ranges[1] == EmptyRange(c.current, 1) && !c.pending.queued
    requires Playing(s) && m == Frame(m.pts, m.dts, true, m.len) && m.len != 0 && TimedMedia(m)
    ensures var t := AfterAppend(s, Appended(FRESH_QUEUE, m, true), m);
      var x := Range(c.current, [Added(FRESH_QUEUE, m, true)], NOPTS, NOPTS);
      Happens(c, PacketArrives(0, m), true, c.(streams := [t], ranges := [c.ranges[0], x]))
  {
    hide Adjusted, AfterAppend;
    var a := Appended(FRESH_QUEUE, m, true);
    var t := AfterAppend(s, a, m);
    var x := AppendedRange(c.ranges[1], 0, m, true);
    assert EmptyRange(c.current, 1).queues == [FRESH_QUEUE];
    assert x == Range(c.current, [a], NOPTS, NOPTS);
    assert AddedStreams([s], c.ranges[1], 0, m) == [t];
    var y := AdjustedRange(x, [t], 0, a.Tail());
    assert [a][0 := Added(FRESH_QUEUE, m, true)] == [Added(FRESH_QUEUE, m, true)];
    assert y == Range(c.current, [Added(FRESH_QUEUE, m, true)], NOPTS, NOPTS);
    var rs := c.ranges[1 := x];
    assert rs[1 := y] == [c.ranges[0], y];
    assert AdjustOutcome([t], rs, c.pending, 0, a.Tail(), [t], [c.ranges[0], y], c.pending);
  }

  function Shot(ts: real, key: bool, limit: nat): Media { Frame(ts, ts, key, limit + 1) }

  /** A keyframe range at 0, complete, and one at 10, still being filled. */
  function FourFrames(limit: nat): (q: Queue)
    ensures QueueOk(q) && Readable(q)
  {
    AddedOk(ThreeFrames(limit), Shot(12.0, false, limit), true);
    Added(ThreeFrames(limit), Shot(12.0, false, limit), true)
  }

  lemma FourFramesLook(limit: nat) returns (ps: seq<Packet>)
    ensures Looks(FourFrames(limit), ps, 2, 10.0, 12.0, 0.0) && FourFrames(limit).index == [0]
    ensures ps[2] == Packet(Shot(10.0, true, limit), NOPTS) && ps[3] == Packet(Shot(12.0, false, limit), NOPTS)
    ensures |ps| == 4 && NoSeekPointFrom(ps, 1) && ps[0].media.len > limit && ps[1].media.len > limit
  {
    hide Added, Looks;
    var m1, m2 := Shot(0.0, true, limit), Shot(5.0, false, limit);
    var m3, m4 := Shot(10.0, true, limit), Shot(12.0, false, limit);
    Starts(m1);
    StartsIndex(m1);
    var q1, ps1 := Added(FRESH_QUEUE, m1, true), [Packet(m1, NOPTS)];
    Continues(q1, ps1, 0, 0.0, 0.0, NOPTS, m2);
    ContinuesIndex(q1, m2);
    var q2, ps2 := Added(q1, m2, true), [Packet(m1, NOPTS), Packet(m2, NOPTS)];
    assert ps1 + [Packet(m2, NOPTS)] == ps2;
    Completes(q2, ps2, 0, 0.0, 5.0, NOPTS, m3);
    CompletesIndex(q2, ps2, 0, 0.0, 5.0, NOPTS, m3);
    var q3, ps3 := Added(q2, m3, true), [Packet(m1, 0.0), Packet(m2, NOPTS), Packet(m3, NOPTS)];
    assert ps2[0 := ps2[0].(kfSeekPts := 0.0)] + [Packet(m3, NOPTS)] == ps3;
    Continues(q3, ps3, 2, 10.0, 10.0, 0.0, m4);
    ContinuesIndex(q3, m4);
    ps := ps3 + [Packet(m4, NOPTS)];
  }

  function ThreeFrames(limit: nat): (q: Queue)
    ensures QueueOk(q) && Readable(q)
  {
    AddedOk(FRESH_QUEUE, Shot(0.0, true, limit), true);
    var q1 := Added(FRESH_QUEUE, Shot(0.0, true, limit), true);
    AddedOk(q1, Shot(5.0, false, limit), true);
    var q2 := Added(q1, Shot(5.0, false, limit), true);
    AddedOk(q2, Shot(10.0, true, limit), true);
    Added(q2, Shot(10.0, true, limit), true)
  }

  lemma ThreeFramesWindow(limit: nat)
    ensures QueueWindow(ThreeFrames(limit)) == Window(0.0, 5.0)
    ensures var q2 := Added(Added(FRESH_QUEUE, Shot(0.0, true, limit), true), Shot(5.0, false, limit), true);
      Readable(q2) && q2.keyframeLatest.At?
  {
    hide Added, Looks;
    var m1, m2, m3 := Shot(0.0, true, limit), Shot(5.0, false, limit), Shot(10.0, true, limit);
    Starts(m1);
    var q1, ps1 := Added(FRESH_QUEUE, m1, true), [Packet(m1, NOPTS)];
    Continues(q1, ps1, 0, 0.0, 0.0, NOPTS, m2);
    var q2 := Added(q1, m2, true);
    CompletesWindow(q2, ps1 + [Packet(m2, NOPTS)], m3);
  }

  lemma CompletesWindow(q: Queue, ps: seq<Packet>, m: Media)
    requires Looks(q, ps, 0, 0.0, 5.0, NOPTS) && |ps| == 2 && m == Frame(m.pts, m.dts, true, m.len)
    ensures q.keyframeLatest.At?
    ensures Added(q, m, true).seekStart == 0.0 && Added(q, m, true).seekEnd == 5.0
  {
    hide QueueOk;
  }

  lemma ThreeArrive(limit: nat) returns (trace: seq<Cache>, events: seq<CacheEvent>, s: Stream)
    ensures Reached(trace, events) && |events| == 3
    ensures forall i :: 0 <= i < 3 ==> !SeekCompleteness.ChangesSelection(events[i])
    ensures var c := Last(trace);
      && Sole(c, ThreeFrames(limit), s) && s.reader == PacketAt(c.current, 0)
      && WindowOf(c.ranges[0]) == QueueWindow(ThreeFrames(limit))
    ensures ThreeFrames(limit).lastDts == 10.0
  {
    hide Happens, QueueOk, Start, Looks, ReaderOk, Added, QueueWindow;
    var m1, m2, m3 := Shot(0.0, true, limit), Shot(5.0, false, limit), Shot(10.0, true, limit);
    s := StartIs();
    trace, events := [Start()], [];
    Begins();
    ThreeFramesWindow(limit);
    trace, s := Takes(trace, events, FRESH_QUEUE, s, m1);
    events := events + [PacketArrives(0, m1)];
    var q := Added(FRESH_QUEUE, m1, true);
    trace, s := Takes(trace, events, q, s, m2);
    events := events + [PacketArrives(0, m2)];
    q := Added(q, m2, true);
    trace, s := Takes(trace, events, q, s, m3);
    events := events + [PacketArrives(0, m3)];
  }

  /** A fourth packet arrives, and the first one is read and pruned. */
  lemma FourArrive(limit: nat) returns (trace: seq<Cache>, events: seq<CacheEvent>, s: Stream)
    ensures Reached(trace, events) && |events| == 6 && events[5] == Pruned(limit, 0)
    ensures forall i :: 0 <= i < 6 ==> !SeekCompleteness.ChangesSelection(events[i])
    ensures Sole(Last(trace), Drop(Pruning.Prepared(FourFrames(limit)), 1), s)
    ensures s.reader == PacketAt(Last(trace).current, 1)
  {
    hide Happens, QueueOk, Drop, Start, Pruning.Prepared, Looks, ReaderOk, Added, QueueWindow;
    var m4 := Shot(12.0, false, limit);
    trace, events, s := ThreeArrive(limit);
    trace, s := Takes(trace, events, ThreeFrames(limit), s, m4);
    events := events + [PacketArrives(0, m4)];
    var q := FourFrames(limit);
    var ps := FourFramesLook(limit);
    LooksLike(q, ps, 2, 10.0, 12.0, 0.0);
    trace, s := LosesOne(trace, events, q, s, limit);
    events := events + [PacketRead(0)] + [Pruned(limit, 0)];
  }

  /** Then the input ends. */
  lemma PrunesThenEnds(limit: nat) returns (trace: seq<Cache>, events: seq<CacheEvent>, e: Queue, s: Stream)
    ensures Reached(trace, events) && |events| == 7 && events[5] == Pruned(limit, 0)
    ensures var c := Last(trace);
      && c.streams == [s] && |c.ranges| == 1 && c.ranges[0].id == c.current && c.ranges[0].queues == [e]
      && QueueOk(e) && Playing(s.(eof := false)) && LeftBehind(e).packets == []
      && c.ranges[0].seekStart == 10.0 && c.ranges[0].seekEnd == 12.0
  {
    hide Happens, QueueOk, Drop, Start, Pruning.Prepared, Looks, ReaderOk, Added, LeftBehind, Adjusted;
    trace, events, s := FourArrive(limit);
    var q := FourFrames(limit);
    var ps := FourFramesLook(limit);
    var b;
    b, e := EndDrains(Last(trace), q, ps, s);
    Goes(trace, events, InputEnds(0), b);
    trace, events, s := trace + [b], events + [InputEnds(0)], s.(eof := true);
  }

  lemma EndDrains(c: Cache, q: Queue, ps: seq<Packet>, s: Stream) returns (b: Cache, e: Queue)
    requires Looks(q, ps, 2, 10.0, 12.0, 0.0) && |ps| == 4 && NoSeekPointFrom(ps, 1)
    requires Sole(c, Drop(Pruning.Prepared(q), 1), s)
    ensures Happens(c, InputEnds(0), true, b) && b.current == c.current
    ensures b.streams == [s.(eof := true)]
    ensures |b.ranges| == 1 && b.ranges[0].queues == [e] && b.ranges[0].id == c.current
    ensures QueueOk(e) && LeftBehind(e).packets == [] && b.ranges[0].seekStart == 10.0 && b.ranges[0].seekEnd == 12.0
  {
    Pruning.PruneThenEndDrains(q, 1);
    var d := Drop(Pruning.Prepared(q), 1);
    assert d.keyframeLatest == At(2);
    b := Ends(c, d, s);
    e := Adjusted(d, Null);
    hide Happens, Adjusted, QueueOk, ReaderOk;
  }

  /** Pruning can fail to find a victim, whatever the limit: the run reads its last packet while
      more than allowed is behind the reader, and the least recently used range has run empty. */
  lemma NoVictimIsReached(limit: nat) returns (trace: seq<Cache>, events: seq<CacheEvent>)
    ensures Reached(trace, events) && |events| == 11 && events[5] == Pruned(limit, 0) && events[10] == PacketRead(0)
    ensures var c := Last(trace);
      && |c.ranges| > 1 && Pruning.Drained(c.ranges[0]) && RangesBytes(c.ranges) > ForwardBytes(c.streams) + limit
      && forall b, v :: !Happens(c, Pruned(limit, v), true, b)
  {
    hide Happens, QueueOk, Start, LeftBehind, IsRun, EstimateSize, Pruning.Drained;
    var e, s;
    trace, events, e, s := PrunesThenEnds(limit);
    RunHasStates(trace, events);
    var b := PutsAside(Last(trace), e, s, 100.0);
    Goes(trace, events, SeekMissed(100.0, SeekFlags(false, false, true)), b);
    trace, events := trace + [b], events + [SeekMissed(100.0, SeekFlags(false, false, true))];
    var m := Shot(100.0, true, limit);
    var more := ReadsOneMore(b, b.streams[0], m);
    var es := [SeekExecuted, PacketArrives(0, m), PacketRead(0)];
    GoesOn(trace, events, more, es);
    trace, events := trace + more[1..], events + es;
    var c := Last(trace);
    assert c == more[3];
    assert EstimateSize(m) > limit;
    NoVictim(c, limit);
  }

  lemma RunHasStates(trace: seq<Cache>, events: seq<CacheEvent>)
    requires IsRun(trace, events, true)
    ensures |trace| == |events| + 1
  {
  }

  lemma GoesOn(trace: seq<Cache>, events: seq<CacheEvent>, more: seq<Cache>, es: seq<CacheEvent>)
    requires Reached(trace, events) && IsRun(more, es, true) && more[0] == Last(trace)
    ensures Reached(trace + more[1..], events + es)
  {
    hide Happens, Start;
    var all, every := trace + more[1..], events + es;
    forall i | 0 <= i < |every| ensures Happens(all[i], every[i], true, all[i + 1]) {
      if i >= |events| {
        assert Happens(more[i - |events|], es[i - |events|], true, more[i - |events| + 1]);
      }
    }
  }

  /** Nothing can be pruned from a range without packets. */
  lemma NoVictim(c: Cache, limit: nat)
    requires c.ranges != [] && Pruning.Drained(c.ranges[0])
    ensures forall b, v :: !Happens(c, Pruned(limit, v), true, b)
  {
  }

  // ---------- a window that promises too much ----------

  /** A second round of pruning, up to the reader, with the target of the first one. */
  lemma PrunesTwo(c: Cache, q: Queue, s: Stream, limit: nat) returns (b: Cache)
    requires Sole(c, q, s) && |q.packets| > 2 && s.reader == PacketAt(c.current, q.base + 2)
    requires q.nextPrune == At(q.base + 2) && q.packets[0].media.len > limit
    ensures Happens(c, Pruned(limit, 0), true, b)
    ensures Sole(b, Drop(q, 2), s) && b == c.(ranges := b.ranges)
  {
    hide QueueOk, EstimateSize, ReaderAt, Drop;
    BacklogOfTwo(c, q, s);
    DropOk(q, 2);
    assert Pruning.PruneCount(s, c.current, q, 2) == 2;
    assert Pruning.PruneCount(s, c.current, q, 1) == 2;
    assert Pruning.PrunedVictim(s, c.current, q, true) == Drop(q, 2);
    var y := Pruning.VictimPruned(c.ranges, c.streams, true, 0);
    assert [q][0 := Drop(q, 2)] == [Drop(q, 2)];
    b := c.(ranges := c.ranges[0 := y]);
    assert Pruning.PrunedVictimOutcome(c.ranges, c.streams, true, c.current, 0, b.ranges);
    DropKeepsReader(q, s, c.current);
  }

  lemma DropKeepsReader(q: Queue, s: Stream, id: nat)
    requires |q.packets| > 2 && s.reader == PacketAt(id, q.base + 2) && ReaderOk(s, id, q)
    ensures ReaderOk(s, id, Drop(q, 2)) && Drop(q, 2).correctDts == q.correctDts
    ensures Drop(q, 2).lastDts == q.lastDts
  {
    assert q.packets[2..][0..] == q.packets[2..];
  }

  lemma BacklogOfTwo(c: Cache, q: Queue, s: Stream)
    requires Sole(c, q, s) && |q.packets| > 2 && s.reader == PacketAt(c.current, q.base + 2)
    ensures RangesBytes(c.ranges) >= ForwardBytes(c.streams) + EstimateSize(q.packets[0].media)
  {
    hide QueueOk, EstimateSize;
    assert c.ranges[1..] == [] && c.ranges[0].queues[1..] == [] && c.streams[1..] == [];
    assert RangesBytes(c.ranges) == QueuesBytes(c.ranges[0].queues) == Bytes(q.packets);
    assert ForwardBytes(c.streams) == s.fwBytes;
    assert q.packets[1..][1..] == q.packets[2..] == Forward(s, q);
  }

  /** Keyframe 10 is completed in a queue whose head is pruned: the window opens there, although
      the keyframe is due for pruning. */
  lemma Reopens(d: Queue, ps: seq<Packet>, m: Media)
    requires QueueOk(d) && Readable(d) && d.packets == ps && |ps| == 3 && d.base == 1 && d.index == []
    requires d.keyframeLatest == At(2) && d.keyframePts == 10.0 && d.seekStart == NOPTS && d.nextPrune == At(3)
    requires m == Frame(20.0, 20.0, true, m.len)
    ensures var r := Added(d, m, true);
      && r.base == 1 && r.packets == [ps[0], ps[1].(kfSeekPts := 10.0), ps[2], Packet(m, NOPTS)] && r.index == [2]
      && r.keyframeLatest == At(4) && r.keyframePts == 20.0 && r.keyframeEndPts == 20.0 && r.seekStart == 10.0
      && r.nextPrune == At(3) && QueueOk(r)
  {
    AddedOk(d, m, true);
    var a := Appended(d, m, true);
    assert Stamped(a) == [ps[0], ps[1].(kfSeekPts := 10.0), ps[2], Packet(m, NOPTS)];
    hide QueueOk;
  }

  /** Keyframe 20 is completed after keyframe 10 was pruned: the window still starts at 10. */
  lemma Overstates(d: Queue, ps: seq<Packet>, m: Media)
    requires QueueOk(d) && Readable(d) && d.packets == ps && |ps| == 2 && d.base == 3 && d.index == []
    requires d.keyframeLatest == At(4) && d.keyframePts == 20.0 && d.keyframeEndPts == 20.0 && d.seekStart == 10.0
    requires m == Frame(30.0, 30.0, true, m.len)
    ensures var r := Added(d, m, true);
      && r.base == 3 && r.packets == [ps[0], ps[1].(kfSeekPts := 20.0), Packet(m, NOPTS)] && r.index == [4]
      && r.seekStart == 10.0 && r.seekEnd == 20.0 && QueueOk(r)
  {
    AddedOk(d, m, true);
    var a := Appended(d, m, true);
    assert Stamped(a) == [ps[0], ps[1].(kfSeekPts := 20.0), Packet(m, NOPTS)];
    hide QueueOk;
  }

  /** The run goes on with a packet being read. */
  lemma ReadsOn(trace: seq<Cache>, events: seq<CacheEvent>, q: Queue, s: Stream)
    returns (trace': seq<Cache>, t: Stream)
    requires Reached(trace, events) && Sole(Last(trace), q, s) && s.reader.PacketAt?
    ensures Reached(trace', events + [PacketRead(0)]) && Sole(Last(trace'), q, t)
    ensures Last(trace').current == Last(trace).current
    ensures t.reader == if s.reader.num + 1 < q.End() then PacketAt(Last(trace).current, s.reader.num + 1) else NoPacket
  {
    hide Happens, QueueOk, ReaderOk;
    var b;
    b, t := Reads(Last(trace), q, s);
    Goes(trace, events, PacketRead(0), b);
    trace' := trace + [b];
  }

  /** What is left when keyframe 10 was pruned and keyframe 30 arrived. */
  lemma KeyframeLost(limit: nat) returns (trace: seq<Cache>, events: seq<CacheEvent>, q: Queue, s: Stream)
    ensures Reached(trace, events) && |events| == 11
    ensures forall i :: 0 <= i < 11 ==> !SeekCompleteness.ChangesSelection(events[i])
    ensures Sole(Last(trace), q, s) && WindowOf(Last(trace).ranges[0]) == Window(10.0, 20.0)
    ensures |q.packets| == 3 && !SeekPoint(q.packets[0])
    ensures q.packets[1].media.keyframe && q.packets[1].kfSeekPts == 20.0
    ensures q.base == 3 && q.index == [4]
  {
    hide Happens, QueueOk, Drop, Start, Pruning.Prepared, Looks, ReaderOk, Added;
    trace, events, q, s := BlindPruned(limit);
    var m5, m6 := Shot(20.0, true, limit), Shot(30.0, true, limit);
    var ps := q.packets;
    ReadableIfOk(q);
    trace, s := Takes(trace, events, q, s, m5);
    events := events + [PacketArrives(0, m5)];
    Reopens(q, ps, m5);
    q := Added(q, m5, true);
    trace, s := ReadsOn(trace, events, q, s);
    events := events + [PacketRead(0)];
    trace, s := ReadsOn(trace, events, q, s);
    events := events + [PacketRead(0)];
    var b := PrunesTwo(Last(trace), q, s, limit);
    Goes(trace, events, Pruned(limit, 0), b);
    trace, events := trace + [b], events + [Pruned(limit, 0)];
    DropsTwo(q);
    q := Drop(q, 2);
    ReadableIfOk(q);
    trace, s := Takes(trace, events, q, s, m6);
    events := events + [PacketArrives(0, m6)];
    Overstates(q, q.packets, m6);
    q := Added(q, m6, true);
  }

  lemma DropsTwo(q: Queue)
    requires |q.packets| > 2 && q.index == [q.base + 1] && q.keyframeLatest.At? && q.keyframeLatest.num >= q.base + 2
    ensures var d := Drop(q, 2);
      && d.packets == q.packets[2..] && d.base == q.base + 2 && d.index == [] && d.keyframeLatest == q.keyframeLatest
      && d.keyframePts == q.keyframePts && d.keyframeEndPts == q.keyframeEndPts && d.seekStart == q.seekStart
      && d.lastDts == q.lastDts
  {
    assert q.index[1..] == [];
    assert IndexFrom(q.index, q.base + 2) == IndexFrom(q.index[1..], q.base + 2);
  }

  /** Four packets have arrived and the first one is pruned, before the second keyframe's range
      is complete. */
  lemma BlindPruned(limit: nat) returns (trace: seq<Cache>, events: seq<CacheEvent>, q: Queue, s: Stream)
    ensures Reached(trace, events) && |events| == 6
    ensures forall i :: 0 <= i < 6 ==> !SeekCompleteness.ChangesSelection(events[i])
    ensures Sole(Last(trace), q, s) && s.reader == PacketAt(Last(trace).current, 1)
    ensures |q.packets| == 3 && q.base == 1 && q.index == [] && q.nextPrune == At(3) && q.lastDts == 12.0
    ensures q.keyframeLatest == At(2) && q.keyframePts == 10.0 && q.seekStart == NOPTS
    ensures q.packets[0].media.len > limit && q.packets[1] == Packet(Shot(10.0, true, limit), NOPTS)
    ensures q.packets[2] == Packet(Shot(12.0, false, limit), NOPTS)
  {
    hide Happens, QueueOk, Start, Looks, ReaderOk, Added, FourFrames, IsRun;
    trace, events, s := FourArrive(limit);
    var ps := FourFramesLook(limit);
    q := Drop(Pruning.Prepared(FourFrames(limit)), 1);
    BlindlyPrepared(FourFrames(limit), ps);
    FourFramesEnd(limit);
  }

  lemma FourFramesEnd(limit: nat)
    ensures FourFrames(limit).lastDts == 12.0
  {
    hide QueueOk;
  }

  lemma BlindlyPrepared(q: Queue, ps: seq<Packet>)
    requires Looks(q, ps, 2, 10.0, 12.0, 0.0) && |ps| == 4 && NoSeekPointFrom(ps, 1) && q.index == [0]
    ensures var d := Drop(Pruning.Prepared(q), 1);
      && d.packets == ps[1..] && d.base == 1 && d.index == [] && d.nextPrune == At(3) && d.lastDts == q.lastDts
      && d.keyframeLatest == At(2) && d.keyframePts == 10.0 && d.seekStart == NOPTS
  {
    hide QueueOk;
    assert Pruning.NextSeekPoint(ps, 1) == 4;
    assert [0][1..] == [];
  }

  /** A seek served by the only range, which is the current one. */
  lemma Serves(c: Cache, q: Queue, s: Stream, pts: real) returns (b: Cache)
    requires Sole(c, q, s) && Covers(c.ranges[0], pts) && pts != NOPTS
    ensures Happens(c, SeekServed(pts, SeekFlags(false, false, true), 0), true, b)
  {
    hide QueueOk, SeekIndex.SeekTarget, ReaderAt, Covers;
    var flags, ss := SeekFlags(false, false, true), UnreadAll(c.streams);
    b := c.(streams := SeekedAll(ss, c.ranges[0], SeekTo(c.ranges[0], ss, 0, pts, flags)));
    assert NoneCovers(c.ranges[..0], pts);
  }

  /** The window promises more than the queue holds: a run of a plain cache, in which the range is
      pruned once before it is known where its next keyframe is, and later an exact backward seek
      to 11, served by it, lands on the keyframe at 20. */
  lemma PrunedWindowMisleads(limit: nat) returns (trace: seq<Cache>, events: seq<CacheEvent>)
    ensures SeekCompleteness.PlainRun(trace, events) && |events| == 12
    ensures events[11] == SeekServed(11.0, SeekFlags(false, false, true), 0)
    ensures var a, s := trace[11], trace[12].streams;
      && |a.ranges| == |a.ranges[0].queues| == |a.streams| == |s| == 1 && Restricts(a.streams[0])
      && s[0].reader.PacketAt? && !SeekCompleteness.LandsAtOrBefore(a.ranges[0].queues[0], At(s[0].reader.num), 11.0)
      && !SeekCompleteness.NotPrunedBlindly(trace, events, 11, a.ranges[0].id)
  {
    hide Happens, QueueOk, Start, ReaderOk, IsRun, SeekIndex.StartsBy, SeekCompleteness.LandsAtOrBefore;
    hide SeekCompleteness.NotPrunedBlindly, NoSeekPoint;
    var q, s;
    trace, events, q, s := KeyframeLost(limit);
    RunHasStates(trace, events);
    var a, flags := Last(trace), SeekFlags(false, false, true);
    var b := Serves(a, q, s, 11.0);
    NothingBefore(q);
    SeekCompleteness.ExactSeekLands(a, 11.0, flags, 0, b, 0);
    SeekCompleteness.ServedFinds(a, 11.0, flags, 0, b, 0);
    ServedKeepsCount(a, 11.0, flags, b);
    Goes(trace, events, SeekServed(11.0, flags, 0), b);
    trace, events := trace + [b], events + [SeekServed(11.0, flags, 0)];
    IsPlain(trace, events);
    MustBeBlind(trace, events);
  }

  lemma NothingBefore(q: Queue)
    requires QueueOk(q) && |q.packets| == 3 && q.base == 3 && q.index == [4]
    requires !SeekPoint(q.packets[0]) && q.packets[1].media.keyframe && q.packets[1].kfSeekPts == 20.0
    ensures !SeekIndex.StartsBy(q, 11.0) && !NoSeekPoint(q.packets)
  {
    hide QueueOk;
    assert SeekPoint(q.packets[1]);
  }

  lemma ServedKeepsCount(a: Cache, pts: real, flags: SeekFlags, b: Cache)
    requires Happens(a, SeekServed(pts, flags, 0), true, b) && |a.ranges| > 0
    ensures |b.streams| == |a.streams| == |a.ranges[0].queues|
  {
    hide QueuesOk;
  }

  lemma IsPlain(trace: seq<Cache>, events: seq<CacheEvent>)
    requires Reached(trace, events) && forall i :: 0 <= i < |events| ==> !SeekCompleteness.ChangesSelection(events[i])
    ensures SeekCompleteness.PlainRun(trace, events)
  {
    hide IsRun;
    assert Start().ranges[0] == EmptyRange(0, 1);
    assert |Start().streams| == 1;
  }

  /** The seek cannot go wrong without such a round of pruning. */
  lemma MustBeBlind(trace: seq<Cache>, events: seq<CacheEvent>)
    requires SeekCompleteness.PlainRun(trace, events) && |events| == 12
    requires events[11] == SeekServed(11.0, SeekFlags(false, false, true), 0)
    requires |trace[11].ranges| > 0 && |trace[11].streams| > 0 && Restricts(trace[11].streams[0])
    requires |trace[11].ranges[0].queues| > 0 && |trace[12].streams| > 0
    requires var q, reader := trace[11].ranges[0].queues[0], trace[12].streams[0].reader;
      !(reader.PacketAt? && SeekCompleteness.LandsAtOrBefore(q, At(reader.num), 11.0))
    ensures !SeekCompleteness.NotPrunedBlindly(trace, events, 11, trace[11].ranges[0].id)
  {
    hide SeekCompleteness.NotPrunedBlindly, SeekCompleteness.LandsAtOrBefore, IsRun;
    RunHasStates(trace, events);
    if SeekCompleteness.NotPrunedBlindly(trace, events, 11, trace[11].ranges[0].id) {
      SeekCompleteness.ExactSeekIsComplete(trace, events, 11, 11.0, SeekFlags(false, false, true), 0, 0);
    }
  }

  // ---------- a stream that a seek leaves without packets ----------

  lemma TwoWindow(q: Queue, s: Stream, t: Stream)
    requires Restricts(s) && !Restricts(t)
    ensures SeekWindow([q, FRESH_QUEUE], [s, t]) == QueueWindow(q)
  {
    var qs, ss := [q, FRESH_QUEUE], [s, t];
    assert EagerWindow(qs, ss, 0) == NO_WINDOW;
    assert EagerWindow(qs, ss, 1) == Window(q.seekStart, q.seekEnd) == EagerWindow(qs, ss, 2);
    forall start ensures SparseStart(qs, ss, 2, start) == start {
      assert SparseStart(qs, ss, 0, start) == start == SparseStart(qs, ss, 1, start);
    }
    assert Restricts(ss[0]) && qs[0] == q;
    assert Blocked(qs, ss, 2) <==> Empty(q);
  }

  /** One range, with a stream that plays and an audio stream that has no packets. */
  ghost predicate Paired(c: Cache, q: Queue, s: Stream, t: Stream) {
    && c.streams == [s, t] && |c.ranges| == 1 && c.ranges[0].id == c.current
    && c.ranges[0].queues == [q, FRESH_QUEUE] && WindowOf(c.ranges[0]) == QueueWindow(q)
    && s.kind == Video && s.selected && s.eager && !s.attachedPicture && QueueOk(q)
    && t.kind == Audio && !t.attachedPicture && t.eager == t.selected
  }

  /** An audio stream turns up, and is not selected. */
  lemma AudioAppears(c: Cache, q: Queue, s: Stream) returns (b: Cache, t: Stream)
    requires Sole(c, q, s) && WindowOf(c.ranges[0]) == QueueWindow(q)
    ensures Happens(c, StreamAdded(Audio, false, false), true, b) && Paired(b, q, s, t) && !t.selected
    ensures b.current == c.current
  {
    hide QueueOk, ReaderOk, SeekWindow;
    var added := NewStream(Audio, false, false, c.current);
    t := Reselected(added);
    var ss, rs := c.streams + [added], Widened(c.ranges);
    var reset := ss[1 := t];
    assert reset == [s, t] && AnyAv(reset) by { assert reset[0] == s; }
    assert WithEagerness(reset) == [s, t];
    assert rs[0].queues == [q, FRESH_QUEUE] && Cleared(FRESH_QUEUE) == FRESH_QUEUE;
    assert [q, FRESH_QUEUE][1 := FRESH_QUEUE] == [q, FRESH_QUEUE];
    TwoWindow(q, s, t);
    var x := WithWindow(Deselected(rs[0], 1, false), reset);
    assert Renewed(rs, reset, 1) == [x];
    assert Freed([x]) == [x];
    b := c.(streams := [s, t], ranges := [x]);
  }

  /** It is selected: the range keeps its window. */
  lemma AudioSelected(c: Cache, q: Queue, s: Stream, t: Stream) returns (b: Cache, u: Stream)
    requires Paired(c, q, s, t) && !t.selected
    ensures Happens(c, SelectionChanges(1), true, b) && Paired(b, q, s, u) && u.selected
    ensures b.current == c.current
  {
    hide QueueOk, SeekWindow;
    var v := Reselected(t.(selected := true));
    u := v.(eager := true);
    var ss := Toggled(c.streams, 1);
    var reset := ss[1 := v];
    assert reset == [s, v] && AnyAv(reset) by { assert reset[0] == s; }
    assert WithEagerness(reset) == [s, u];
    TwoWindow(q, s, v);
    var x := WithWindow(Deselected(c.ranges[0], 1, true), reset);
    assert Renewed(c.ranges, reset, 1) == [x];
    assert Freed([x]) == [x];
    b := c.(streams := [s, u], ranges := [x]);
  }

  lemma PairServes(c: Cache, q: Queue, s: Stream, t: Stream, pts: real) returns (b: Cache)
    requires Paired(c, q, s, t) && Covers(c.ranges[0], pts) && pts != NOPTS
    ensures Happens(c, SeekServed(pts, SeekFlags(false, false, true), 0), true, b)
  {
    hide QueueOk, SeekIndex.SeekTarget, ReaderAt, Covers;
    FreshOk();
    var flags, ss := SeekFlags(false, false, true), UnreadAll(c.streams);
    b := c.(streams := SeekedAll(ss, c.ranges[0], SeekTo(c.ranges[0], ss, 0, pts, flags)));
    assert NoneCovers(c.ranges[..0], pts);
  }

  lemma FreshOk()
    ensures QueueOk(FRESH_QUEUE) && Readable(FRESH_QUEUE)
  {
  }

  /** Two keyframes and a frame of video are cached when an audio stream turns up and is selected. A
      seek into the window is served from the cache, and leaves the audio stream, which counts as
      read eagerly, with nothing to read. */
  lemma SelectedStreamIsLost() returns (trace: seq<Cache>, events: seq<CacheEvent>)
    ensures Reached(trace, events) && |events| == 6
    ensures events[3..] == [StreamAdded(Audio, false, false), SelectionChanges(1),
                            SeekServed(2.0, SeekFlags(false, false, true), 0)]
    ensures var s := Last(trace).streams; |s| == 2 && Restricts(trace[5].streams[1]) && s[1].reader.NoPacket?
  {
    hide Happens, QueueOk, Start, ReaderOk, Looks, Added, NoSeekPoint, ThreeFrames, QueueWindow;
    var s, t, b;
    trace, events, s := ThreeArrive(0);
    var q, flags := ThreeFrames(0), SeekFlags(false, false, true);
    ThreeFramesWindow(0);
    b, t := AudioAppears(Last(trace), q, s);
    Goes(trace, events, StreamAdded(Audio, false, false), b);
    trace, events := trace + [b], events + [StreamAdded(Audio, false, false)];
    b, t := AudioSelected(b, q, s, t);
    Goes(trace, events, SelectionChanges(1), b);
    trace, events := trace + [b], events + [SelectionChanges(1)];
    var c := PairServes(b, q, s, t, 2.0);
    Goes(trace, events, SeekServed(2.0, flags, 0), c);
    SeekCompleteness.ServedFinds(b, 2.0, flags, 0, c, 1);
    ServedKeepsCount(b, 2.0, flags, c);
    NoneInFresh();
    trace, events := trace + [c], events + [SeekServed(2.0, flags, 0)];
  }

  lemma NoneInFresh()
    ensures NoSeekPoint(FRESH_QUEUE.packets)
  {
  }

  // ---------- a join that shortens the window ----------

  const KEY_0 := Frame(0.0, 0.0, true, 1)
  const KEY_10 := Frame(10.0, 10.0, true, 1)
  const LATE_25 := Frame(25.0, 15.0, false, 1)
  const KEY_20 := Frame(20.0, 20.0, true, 1)
  const KEY_22 := Frame(22.0, 22.0, true, 1)

  /** The queue once it took the source's first four packets, and once it took its last four. */
  function Early(): (q: Queue)
    ensures Readable(q)
  {
    Added(Added(Added(Added(FRESH_QUEUE, KEY_0, true), KEY_10, true), LATE_25, true), KEY_20, true)
  }

  function Late(): (q: Queue)
    ensures Readable(q)
  {
    Added(Added(Added(Added(FRESH_QUEUE, KEY_10, true), LATE_25, true), KEY_20, true), KEY_22, true)
  }

  lemma Ending(q: Queue, m: Media)
    requires Readable(q)
    ensures var a := Added(q, m, true);
      && a.seekEnd == (if m.keyframe && q.keyframeLatest.At? && q.keyframeEndPts != NOPTS then q.keyframeEndPts
                       else q.seekEnd)
      && a.lastPruned == q.lastPruned
  {
    hide WithIndexEntry;
  }

  lemma EarlyIs()
    ensures QueueOk(Early()) && Timed(Early()) && Early().seekStart == 0.0 && Early().seekEnd == 25.0
    ensures |Early().packets| == 4 && Early().packets[3].media == KEY_20
  {
    hide Added, QueueOk, Readable;
    FreshOk();
    var q1 := Added(FRESH_QUEUE, KEY_0, true);
    var q2 := Added(q1, KEY_10, true);
    var q3 := Added(q2, LATE_25, true);
    Starts(KEY_0);
    var ps1 := [Packet(KEY_0, NOPTS)];
    Completes(q1, ps1, 0, 0.0, 0.0, NOPTS, KEY_10);
    var ps2 := ps1[0 := ps1[0].(kfSeekPts := 0.0)] + [Packet(KEY_10, NOPTS)];
    Continues(q2, ps2, 1, 10.0, 10.0, 0.0, LATE_25);
    var ps3 := ps2 + [Packet(LATE_25, NOPTS)];
    Completes(q3, ps3, 1, 10.0, 25.0, 0.0, KEY_20);
    Ending(FRESH_QUEUE, KEY_0);
    Ending(q1, KEY_10);
    Ending(q2, LATE_25);
    Ending(q3, KEY_20);
  }

  lemma LateIs()
    ensures QueueOk(Late()) && Timed(Late()) && Late().seekStart == 10.0 && Late().seekEnd == 20.0
    ensures Medias(Late().packets) == [KEY_10, LATE_25, KEY_20, KEY_22] && Late().base == 0
    ensures Late().keyframeLatest == At(3)
  {
    hide Added, QueueOk, Readable;
    FreshOk();
    var q1 := Added(FRESH_QUEUE, KEY_10, true);
    var q2 := Added(q1, LATE_25, true);
    var q3 := Added(q2, KEY_20, true);
    Starts(KEY_10);
    var ps1 := [Packet(KEY_10, NOPTS)];
    Continues(q1, ps1, 0, 10.0, 10.0, NOPTS, LATE_25);
    var ps2 := ps1 + [Packet(LATE_25, NOPTS)];
    Completes(q2, ps2, 0, 10.0, 25.0, NOPTS, KEY_20);
    var ps3 := ps2[0 := ps2[0].(kfSeekPts := 10.0)] + [Packet(KEY_20, NOPTS)];
    Completes(q3, ps3, 2, 20.0, 20.0, 10.0, KEY_22);
    Ending(FRESH_QUEUE, KEY_10);
    Ending(q1, LATE_25);
    Ending(q2, KEY_20);
    Ending(q3, KEY_22);
  }

  lemma LateOverlaps(s: Stream)
    requires s.globalCorrectDts && !s.globalCorrectPos
    ensures CanJoin(s, Early(), Late())
  {
    hide QueueOk, Early, Late;
    EarlyIs();
    LateIs();
    var q, o := Late(), OrderOf(s);
    assert |q.packets| == |Medias(q.packets)| == 4;
    assert q.packets[0].media == Medias(q.packets)[0] && q.packets[1].media == Medias(q.packets)[1];
    assert q.packets[2].media == Medias(q.packets)[2];
    assert RangeJoin.Overlap(q, KEY_20, o, 2) == RangeJoin.Found(3);
    assert RangeJoin.Overlap(q, KEY_20, o, 1) == RangeJoin.Found(3);
  }

  /** One video stream has a frame that is shown at 25 before the keyframe that is shown at 20. The
      range with the source's first packets covers everything up to 25; joined with the one that has
      the later packets, it ends at 20. */
  lemma JoinShortens(s: Stream) returns (rs: seq<Range>, ts: seq<Stream>, rs': seq<Range>, p': PendingSeek)
    requires Playing(s) && !s.globalCorrectPos && ReaderOk(s, 1, Early())
    ensures |rs| == 2 && rs[0].queues == [Late()] && rs[1].queues == [Early()]
    ensures CacheGuarantees.HasItsWindow(rs[0], [s]) && CacheGuarantees.HasItsWindow(rs[1], [s])
    ensures JoinOutcome([s], rs, NO_SEEK, ts, rs', p') && Covers(rs[1], 23.0)
    ensures |rs'| == 1 && rs'[0].id == 1 && WindowOf(rs'[0]) == Window(0.0, 20.0) && !Covers(rs'[0], 23.0)
  {
    hide QueueOk, Early, Late, ReaderOk, CanJoin, RangeJoin.Joined, HandedOver, JoinedStream;
    EarlyIs();
    LateIs();
    LateOverlaps(s);
    SoleWindow(Early(), s);
    SoleWindow(Late(), s);
    var y, x := Range(0, [Late()], 10.0, 20.0), Range(1, [Early()], 0.0, 25.0);
    rs := [y, x];
    assert JoinCandidate(rs, 0) == -1 && JoinCandidate(rs, 1) == 0;
    var rest := Remaining(s, Early(), Late());
    RemainsOk(s, Early(), Late());
    StreamJoinedOk(s, 1, Early(), rest);
    var j := RangeJoin.Joined(Early(), rest);
    ts := [JoinedStream(s, j)];
    var x' := WithWindow(Range(1, [j], NOPTS, NOPTS), ts);
    assert Remainings([s], x.queues, y.queues) == [rest];
    assert RangeJoined([s], x, [rest], ts, x');
    rs' := [x'];
    p' := PendingSeek(true, SeekFlags(false, false, true), 19.0);
    assert Remade(rs, 0, x') == [x'] && Freed([x']) == [x'];
    JoinedOutcome([s], rs, NO_SEEK, 0, ts, x', rs');
    CacheGuarantees.JoinCoversBoth([s], rs, NO_SEEK, ts, rs', p', 0);
  }

  lemma RemainsOk(s: Stream, q1: Queue, q2: Queue)
    requires QueueOk(q2) && q1.packets != []
    ensures QueueOk(Remaining(s, q1, q2))
  {
    DropOk(q2, RangeJoin.Overlap(q2, q1.packets[|q1.packets| - 1].media, OrderOf(s), 0).keep);
  }
}
