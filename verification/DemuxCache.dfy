/** The demuxer's packet cache (struct demux_internal): the streams, the list of cached ranges,
    and the operations that keep the redundant state on top of them consistent. */
module DemuxCache {
  import opened Timestamps
  import opened PacketQueue
  import opened SeekIndex
  import opened RangeJoin
  import opened RefreshSeek
  import opened CachedRanges
  import opened Pruning

  /** The loops of update_seek_ranges. */
  method ComputeWindow(qs: seq<Queue>, ss: seq<Stream>) returns (w: Window)
    requires |qs| == |ss|
    ensures w == SeekWindow(qs, ss)
  {
    var start, end := NOPTS, NOPTS;
    var n := 0;
    while n < |qs|
      invariant 0 <= n <= |qs|
      invariant !Blocked(qs, ss, n) && Window(start, end) == EagerWindow(qs, ss, n)
    {
      if ss[n].selected && ss[n].eager {
        start := PtsMax(start, qs[n].seekStart);
        end := PtsMin(end, qs[n].seekEnd);
        if qs[n].seekStart >= qs[n].seekEnd {
          start, end := NOPTS, NOPTS;
          break;
        }
      }
      n := n + 1;
    }
    ghost var eager := Window(start, end);
    assert eager == if Blocked(qs, ss, |qs|) then NO_WINDOW else EagerWindow(qs, ss, |qs|) by {
      if n < |qs| {
        assert Restricts(ss[n]) && Empty(qs[n]);
      }
    }
    n := 0;
    while n < |qs|
      invariant 0 <= n <= |qs|
      invariant start == SparseStart(qs, ss, n, eager.start)
    {
      if ss[n].selected && !ss[n].eager && qs[n].lastPruned != NOPTS {
        start := PtsMax(start, qs[n].lastPruned + 0.1);
      }
      n := n + 1;
    }
    w := if start >= end then NO_WINDOW else Window(start, end);
  }

  /** The first loop of attempt_range_joining: drops the next range's overlap with the current
      one, stream by stream, until one stream turns out not to be joinable. */
  method DropOverlaps(ss: seq<Stream>, q1s: seq<Queue>, q2s: seq<Queue>)
    returns (ok: bool, rest: seq<Queue>, dropped: nat)
    requires |q1s| == |q2s| == |ss| && QueuesOk(q2s)
    ensures |rest| == |q2s| && QueuesOk(rest) && QueuesBytes(rest) + dropped == QueuesBytes(q2s)
    ensures ok <==> AllCanJoin(ss, q1s, q2s)
    ensures ok ==> rest == Remainings(ss, q1s, q2s)
  {
    hide QueueOk, CanJoin, Remaining, Bytes, QueuesBytes;
    rest, dropped := q2s, 0;
    for n := 0 to |ss|
      invariant |rest| == |q2s| && QueuesOk(rest) && QueuesBytes(rest) + dropped == QueuesBytes(q2s)
      invariant forall i :: 0 <= i < n ==> CanJoin(ss[i], q1s[i], q2s[i])
      invariant forall i :: 0 <= i < n ==> rest[i] == Remaining(ss[i], q1s[i], q2s[i])
      invariant forall i :: n <= i < |ss| ==> rest[i] == q2s[i]
    {
      var joins, r, bytes := DropStreamOverlap(ss[n], q1s[n], q2s[n]);
      QueuesBytesUpdate(rest, n, r);
      rest, dropped := rest[n := r], dropped + bytes;
      if !joins {
        return false, rest, dropped;
      }
    }
    ok := true;
  }

  method DropStreamOverlap(ds: Stream, q1: Queue, q2: Queue) returns (ok: bool, r: Queue, dropped: nat)
    requires QueueOk(q2)
    ensures QueueOk(r) && Bytes(r.packets) + dropped == Bytes(q2.packets)
    ensures ok == CanJoin(ds, q1, q2)
    ensures ok ==> r == Remaining(ds, q1, q2)
  {
    if !ds.globalCorrectPos && !ds.globalCorrectDts {
      return false, q2, 0;
    }
    if q1.packets == [] {
      return true, q2, 0;
    }
    var j;
    j, r, dropped := DropOverlap(q2, q1.packets[|q1.packets| - 1].media, OrderOf(ds));
    DropOk(q2, j.keep);
    BytesSplit(q2.packets, j.keep);
    ok := j.Found? || (j.Missing? && !ds.eager);
  }

  /** recompute_buffers: counts the packets from the reader position to the tail. */
  method RecomputeBuffers(s: Stream, q: Queue) returns (r: Stream)
    requires s.reader.PacketAt? ==> q.Holds(s.reader.num)
    ensures r == Recounted(s, q)
  {
    var packs, bytes := 0, 0;
    if s.reader.PacketAt? {
      ghost var all := Forward(s, q);
      var dp := s.reader.num - q.base;
      while dp < |q.packets|
        invariant s.reader.num - q.base <= dp <= |q.packets|
        invariant bytes + Bytes(q.packets[dp..]) == Bytes(all) && packs + |q.packets| - dp == |all|
      {
        assert q.packets[dp..][1..] == q.packets[dp + 1..];
        bytes, packs := bytes + EstimateSize(q.packets[dp].media), packs + 1;
        dp := dp + 1;
      }
    }
    r := s.(fwPacks := packs, fwBytes := bytes);
  }

  /** The second loop of attempt_range_joining: appends the next range's queues to the current
      one's and empties them. */
  method JoinStreams(ss: seq<Stream>, id: nat, q1s: seq<Queue>, q2s: seq<Queue>)
    returns (ts: seq<Stream>, js: seq<Queue>, hs: seq<Queue>, fwBytes: nat)
    requires |ss| == |q1s| == |q2s| && QueuesOk(q1s) && QueuesOk(q2s)
    requires forall n :: 0 <= n < |ss| ==> ReaderOk(ss[n], id, q1s[n])
    ensures |ts| == |js| == |hs| == |ss|
    ensures forall n :: 0 <= n < |ss| ==> StreamJoined(ss[n], id, q1s[n], q2s[n], ts[n], js[n], hs[n])
    ensures forall n :: 0 <= n < |ss| ==> hs[n] == HandedOver(q2s[n])
    ensures fwBytes == ForwardBytes(ts)
    ensures QueuesBytes(js) + QueuesBytes(hs) == QueuesBytes(q1s) + QueuesBytes(q2s)
  {
    hide QueueOk, ReaderOk, StreamJoined, QueuesBytes, ForwardBytes, HandedOver;
    NothingYet(q1s, q2s);
    ts, js, hs, fwBytes := [], [], [], 0;
    for n := 0 to |ss|
      invariant |ts| == |js| == |hs| == n
      invariant forall i :: 0 <= i < n ==> StreamJoined(ss[i], id, q1s[i], q2s[i], ts[i], js[i], hs[i])
      invariant forall i :: 0 <= i < n ==> hs[i] == HandedOver(q2s[i])
      invariant fwBytes == ForwardBytes(ts)
      invariant QueuesBytes(js) + QueuesBytes(hs) == QueuesBytes(q1s[..n]) + QueuesBytes(q2s[..n])
    {
      var t, j := JoinStream(ss[n], id, q1s[n], q2s[n]);
      HandedOverIsEmpty(q2s[n]);
      QueuesBytesPush(q1s, q2s, n, js, hs, j, HandedOver(q2s[n]));
      ForwardBytesSnoc(ts, t);
      ts, js, hs := ts + [t], js + [j], hs + [HandedOver(q2s[n])];
      fwBytes := fwBytes + t.fwBytes;
    }
    assert q1s[..|ss|] == q1s && q2s[..|ss|] == q2s;
  }

  lemma NothingYet(q1s: seq<Queue>, q2s: seq<Queue>)
    ensures QueuesBytes([]) == QueuesBytes(q1s[..0]) == QueuesBytes(q2s[..0]) == 0 && ForwardBytes([]) == 0
  {
  }

  lemma HandedOverIsEmpty(q: Queue)
    ensures HandedOver(q).packets == []
  {
  }

  lemma JoinedOrder(ss: seq<Stream>, id: nat, q1s: seq<Queue>, q2s: seq<Queue>,
                    ts: seq<Stream>, js: seq<Queue>, hs: seq<Queue>)
    requires |ss| == |q1s| == |q2s| == |ts| == |js| == |hs|
    requires forall n :: 0 <= n < |ss| ==> StreamJoined(ss[n], id, q1s[n], q2s[n], ts[n], js[n], hs[n])
    ensures QueuesOk(js) && QueuesOk(hs) && forall n :: 0 <= n < |ss| ==> ReaderOk(ts[n], id, js[n])
  {
    hide QueueOk, ReaderOk;
  }

  method JoinStream(s: Stream, id: nat, q1: Queue, q2: Queue) returns (t: Stream, j: Queue)
    requires QueueOk(q1) && QueueOk(q2) && ReaderOk(s, id, q1)
    ensures StreamJoined(s, id, q1, q2, t, j, HandedOver(q2))
    ensures Bytes(j.packets) == Bytes(q1.packets) + Bytes(q2.packets)
  {
    hide QueueOk;
    StreamJoinedOk(s, id, q1, q2);
    BytesConcat(q1.packets, q2.packets);
    j := JoinQueues(q1, q2);
    t := RecomputeBuffers(s, j);
    t := t.(refreshing := s.selected);
  }

  /** The part of demux_add_packet that updates the queue. */
  method AppendToQueue(q: Queue, m: Media, video: bool) returns (r: Queue)
    ensures r == Appended(q, m, video)
  {
    r := q.(correctPos := q.correctPos && m.pos >= 0 && m.pos > q.lastPos,
            correctDts := q.correctDts && m.dts != NOPTS && m.dts > q.lastDts);
    r := r.(lastPos := m.pos, lastDts := m.dts);
    var dp := m;
    if !video && dp.pts == NOPTS {
      dp := dp.(pts := dp.dts);
    }
    r := r.(packets := r.packets + [Packet.Packet(dp, NOPTS)]);
    var ts := QueueTs(dp);
    if ts != NOPTS && (ts > r.lastTs || ts + 10.0 < r.lastTs) {
      r := r.(lastTs := ts);
    }
  }

  /** The part of demux_add_packet that updates the stream; `q` already holds the packet. */
  method CountPacket(s: Stream, q: Queue, m: Media) returns (ds: Stream, bytes: nat)
    requires q.packets != []
    ensures ds == AfterAppend(s, q, m) && bytes == EstimateSize(m)
  {
    hide EstimateSize;
    var reader, skipToKeyframe := s.reader, s.skipToKeyframe;
    if reader.NoPacket? && (!skipToKeyframe || m.keyframe) {
      reader, skipToKeyframe := PacketAt(s.queue, q.End() - 1), false;
    }
    bytes := EstimateSize(m);
    var fwPacks, fwBytes := s.fwPacks, s.fwBytes;
    if reader.PacketAt? {
      fwPacks, fwBytes := fwPacks + 1, fwBytes + bytes;
    }
    ds := s.(globalCorrectPos := s.globalCorrectPos && q.correctPos,
             globalCorrectDts := s.globalCorrectDts && q.correctDts,
             reader := reader, skipToKeyframe := skipToKeyframe, fwPacks := fwPacks, fwBytes := fwBytes,
             eof := s.eof && s.ignoreEof,
             baseTs := if s.baseTs == NOPTS then q.lastTs else s.baseTs);
  }

  /** adjust_seek_range_on_packet, up to the attempt to join ranges. */
  method AccountFor(x: Range, ss: seq<Stream>, n: nat, l: Link) returns (y: Range)
    requires n < |x.queues| == |ss| && Readable(x.queues[n]) && JustAdded(x.queues[n], l)
    requires QueuesOk(x.queues) && ReadersOk(ss, x)
    ensures y == AdjustedRange(x, ss, n, l)
    ensures y.id == x.id && |y.queues| == |ss| && QueuesOk(y.queues) && ReadersOk(ss, y)
    ensures QueuesBytes(y.queues) == QueuesBytes(x.queues)
  {
    AdjustedRangeOk(x, ss, n, l);
    hide ReadersOk, QueuesOk;
    y := x;
    var q := x.queues[n];
    var added := if l.At? then q.Get(l.num).media else Media(NOPTS, NOPTS, -1, 0, false, false, NOPTS, NOPTS, 0);
    if l.Null? || added.keyframe {
      if q.keyframeLatest.At? {
        var latest := q.keyframeLatest.num;
        var stamped := q.packets[latest - q.base].(kfSeekPts := q.keyframePts);
        q := q.(packets := q.packets[latest - q.base := stamped]);
        if q.seekStart == NOPTS {
          q := q.(seekStart := q.keyframePts);
        }
        if q.keyframeEndPts != NOPTS {
          q := q.(seekEnd := q.keyframeEndPts);
        }
        assert q == CloseBlock(x.queues[n]);
        AdjustedWindow(x, ss, n, l);
        var w := ComputeWindow(x.queues[n := q], ss);
        y := y.(seekStart := w.start, seekEnd := w.end);
        if q.Get(latest).kfSeekPts != NOPTS {
          q := AddIndexEntry(q, latest);
        }
      }
      q := q.(keyframeLatest := l, keyframePts := NOPTS, keyframeEndPts := NOPTS);
    }
    if l.At? {
      q := NoteTimestamp(q, added);
    }
    y := y.(queues := y.queues[n := q]);
  }

  /** The first loop of switch_current_range, for one queue: drops what is due for pruning. */
  method RemovePruned(q: Queue) returns (r: Queue, removed: nat)
    requires QueueOk(q)
    ensures r == LeftBehind(q) && QueueOk(r) && removed + Bytes(r.packets) == Bytes(q.packets)
  {
    QueueIndexOk(q);
    DropNone(q);
    hide QueueOk, IndexOk, EstimateSize, IndexFrom;
    r, removed := q, 0;
    ghost var k := 0;
    while r.nextPrune.At?
      invariant 0 <= k <= |q.packets| && r == Drop(q, k) && QueueOk(r)
      invariant removed + Bytes(r.packets) == Bytes(q.packets)
      invariant if q.nextPrune.At? then k <= q.nextPrune.num - q.base + 1 else k == 0
      decreases |r.packets|
    {
      assert q.nextPrune.num >= q.base + k && r.packets == q.packets[k..];
      removed := removed + EstimateSize(r.packets[0].media);
      DropStep(q, k);
      DropOk(q, k + 1);
      r := RemoveHead(r);
      k := k + 1;
    }
    assert q.nextPrune.At? ==> k == q.nextPrune.num - q.base + 1;
  }

  method RemoveAllPruned(qs: seq<Queue>) returns (rs: seq<Queue>, removed: nat)
    requires QueuesOk(qs)
    ensures |rs| == |qs| && QueuesOk(rs) && removed + QueuesBytes(rs) == QueuesBytes(qs)
    ensures forall n :: 0 <= n < |qs| ==> rs[n] == LeftBehind(qs[n])
  {
    hide QueueOk, QueuesBytes;
    rs, removed := qs, 0;
    for n := 0 to |qs|
      invariant |rs| == |qs| && QueuesOk(rs) && removed + QueuesBytes(rs) == QueuesBytes(qs)
      invariant forall i :: 0 <= i < n ==> QueueOk(qs[i]) && rs[i] == LeftBehind(qs[i])
      invariant forall i :: n <= i < |qs| ==> rs[i] == qs[i]
    {
      var r, bytes := RemovePruned(qs[n]);
      QueuesBytesUpdate(rs, n, r);
      rs, removed := rs[n := r], removed + bytes;
    }
  }

  method FindRange(rs: seq<Range>, id: nat) returns (n: nat)
    requires PositionOf(rs, id) != -1
    ensures n == PositionOf(rs, id)
  {
    n := 0;
    assert rs[0..] == rs;
    while rs[n].id != id
      invariant 0 <= n < |rs| && PositionOf(rs[n..], id) != -1
      invariant PositionOf(rs, id) == n + PositionOf(rs[n..], id)
      decreases |rs| - n
    {
      assert rs[n..][1..] == rs[n + 1..];
      n := n + 1;
    }
  }

  /** The last loop of switch_current_range: every stream reads from and appends to range `id`. */
  method SwitchStreams(ss: seq<Stream>, id: nat) returns (ts: seq<Stream>)
    ensures ts == Switched(ss, id)
  {
    ts := ss;
    for n := 0 to |ss|
      invariant |ts| == |ss|
      invariant forall i :: 0 <= i < n ==> ts[i] == ss[i].(queue := id, refreshing := false, eof := false)
      invariant forall i :: n <= i < |ss| ==> ts[i] == ss[i]
    {
      ts := ts[n := ts[n].(queue := id, refreshing := false, eof := false)];
    }
  }

  /** The first cached range that covers `pts`, or -1. */
  method FindSeekRange(rs: seq<Range>, pts: real) returns (r: int)
    ensures r == -1 ==> forall i :: 0 <= i < |rs| ==> !Covers(rs[i], pts)
    ensures r != -1 ==> 0 <= r < |rs| && Covers(rs[r], pts) && forall i :: 0 <= i < r ==> !Covers(rs[i], pts)
  {
    for n := 0 to |rs|
      invariant forall i :: 0 <= i < n ==> !Covers(rs[i], pts)
    {
      if rs[n].seekStart != NOPTS {
        if pts >= rs[n].seekStart && pts <= rs[n].seekEnd {
          return n;
        }
      }
    }
    return -1;
  }

  /** The first loop of try_seek_cache over the streams: seeks to the video's keyframe. */
  method FindTarget(x: Range, ss: seq<Stream>, pts: real, flags: SeekFlags) returns (t: Target)
    requires |x.queues| == |ss| && QueuesOk(x.queues)
    ensures t == SeekTo(x, ss, 0, pts, flags)
  {
    t := Target(pts, flags.forward);
    if flags.hr {
      return;
    }
    for n := 0 to |ss|
      invariant SeekTo(x, ss, 0, pts, flags) == SeekTo(x, ss, n, pts, flags)
    {
      if ss[n].selected && ss[n].kind == Video {
        var target := FindSeekTarget(x.queues[n], pts, flags.forward);
        if target.At? {
          var targetPts := x.queues[n].Get(target.num).kfSeekPts;
          if targetPts != NOPTS {
            t := Target(targetPts, false);
          }
        }
        return;
      }
    }
  }

  /** The second one: sends every reader to its target and counts what is ahead of it. */
  method SeekStreams(ss: seq<Stream>, x: Range, t: Target) returns (ts: seq<Stream>, fwBytes: nat)
    requires |x.queues| == |ss| && QueuesOk(x.queues)
    ensures ts == SeekedAll(ss, x, t) && fwBytes == ForwardBytes(ts)
  {
    hide QueueOk, Seeked;
    ts, fwBytes := [], 0;
    for n := 0 to |ss|
      invariant |ts| == n && fwBytes == ForwardBytes(ts)
      invariant forall i :: 0 <= i < n ==> ts[i] == Seeked(ss[i], x.id, x.queues[i], t.pts, t.forward)
    {
      var s := SeekStream(ss[n], x.id, x.queues[n], t);
      ForwardBytesConcat(ts, [s]);
      assert ForwardBytes([s]) == s.fwBytes;
      ts, fwBytes := ts + [s], fwBytes + s.fwBytes;
    }
    assert ts == SeekedAll(ss, x, t);
  }

  method SeekStream(s: Stream, id: nat, q: Queue, t: Target) returns (r: Stream)
    requires QueueOk(q)
    ensures r == Seeked(s, id, q, t.pts, t.forward)
  {
    var target := FindSeekTarget(q, t.pts, t.forward);
    hide QueueOk, SeekTarget, Forward, Bytes;
    var baseTs := s.baseTs;
    if target.At? {
      var m := q.Get(target.num).media;
      baseTs := PtsOrDef(m.pts, m.dts);
    }
    r := RecomputeBuffers(s.(reader := if target.At? then PacketAt(id, target.num) else NoPacket,
                             skipToKeyframe := target.Null?, baseTs := baseTs), q);
  }

  /** Whether every selected stream can be resumed or joined. */
  method CanResume(ss: seq<Stream>) returns (ok: bool)
    ensures ok == Resumable(ss)
  {
    for n := 0 to |ss|
      invariant forall i :: 0 <= i < n && ss[i].selected ==> ss[i].globalCorrectDts || ss[i].globalCorrectPos
    {
      if ss[n].selected && !(ss[n].globalCorrectDts || ss[n].globalCorrectPos) {
        return false;
      }
    }
    return true;
  }

  /** What reading from a stream yields. */
  datatype Dequeued = Nothing | Picture | Data(media: Media)

  class Demuxer {
    var streams: seq<Stream>
    var ranges: seq<Range>   // least recently used first; the last one is the current one
    var current: nat         // id of the range read from and appended to
    var nextId: nat          // no range has this id or a larger one
    var totalBytes: nat
    var fwBytes: nat
    var eof: bool
    var lastEof: bool
    var reading: bool
    var initialState: bool   // nothing was read and no seek executed yet
    var pending: PendingSeek
    const seekableCache: bool
    const maxBytesBw: nat

    /** What holds between any two statements: the ranges are in order and their bytes counted. */
    ghost predicate Shaped()
      reads `streams, `ranges, `nextId, `totalBytes
    {
      && RangesOk(ranges, |streams|) && ranges != [] && IdsBelow(ranges, nextId)
      && totalBytes == RangesBytes(ranges)
    }

    /** The consistency check the source keeps disabled, with the index invariant. */
    ghost predicate Valid()
      reads `streams, `ranges, `nextId, `totalBytes, `current, `fwBytes
    {
      && Shaped()
      && ranges[|ranges| - 1].id == current
      && ReadersOk(streams, ranges[|ranges| - 1])
      && fwBytes == ForwardBytes(streams)
    }

    constructor (seekableCache: bool, maxBytesBw: nat)
      ensures Valid() && totalBytes == 0 && streams == []
    {
      this.seekableCache, this.maxBytesBw := seekableCache, maxBytesBw;
      streams, ranges, current, nextId := [], [Range(0, [], NOPTS, NOPTS)], 0, 1;
      totalBytes, fwBytes := 0, 0;
      eof, lastEof, reading, initialState := false, false, false, true;
      pending := PendingSeek(false, SeekFlags(false, false, false), 0.0);
    }

    // ---------- primitives ----------

    method UpdateSeekRanges(r: nat)
      requires Shaped() && r < |ranges|
      modifies this`ranges
      ensures Shaped()
      ensures ranges == old(ranges)[r := WithWindow(old(ranges)[r], streams)]
    {
      WindowKeeps(ranges, r, streams);
      var w := ComputeWindow(ranges[r].queues, streams);
      ranges := ranges[r := ranges[r].(seekStart := w.start, seekEnd := w.end)];
    }

    method ClearQueue(r: nat, n: nat)
      requires Shaped() && r < |ranges| && n < |streams|
      requires streams[n].reader.PacketAt? ==> streams[n].reader.range != ranges[r].id
      modifies this`ranges, this`totalBytes
      ensures Shaped()
      ensures ranges == SetQueue(old(ranges), r, n, Cleared(old(ranges)[r].queues[n]))
      ensures totalBytes + Bytes(old(ranges)[r].queues[n].packets) == old(totalBytes)
    {
      hide RangesOk, IdsBelow, RangesBytes, EstimateSize, Cleared;
      ClearedQueueOk(ranges, r, n, |streams|, nextId);
      var q := ranges[r].queues[n];
      var dp := 0;
      while dp < |q.packets|
        invariant 0 <= dp <= |q.packets| && ranges == old(ranges)
        invariant Bytes(q.packets[dp..]) <= totalBytes
        invariant totalBytes + Bytes(q.packets) == old(totalBytes) + Bytes(q.packets[dp..])
      {
        totalBytes := totalBytes - EstimateSize(q.packets[dp].media);
        assert streams[n].reader != PacketAt(ranges[r].id, q.base + dp);
        assert q.packets[dp..][1..] == q.packets[dp + 1..];
        dp := dp + 1;
      }
      ranges := SetQueue(ranges, r, n, Cleared(q));
    }

    /** No reader is at a packet of range `r`. */
    ghost predicate NotRead(r: nat)
      reads `streams, `ranges
      requires r < |ranges|
    {
      forall n :: 0 <= n < |streams| && streams[n].reader.PacketAt? ==> streams[n].reader.range != ranges[r].id
    }

    method ClearCachedRange(r: nat)
      requires Shaped() && r < |ranges| && NotRead(r)
      modifies this`ranges, this`totalBytes
      ensures Shaped()
      ensures ranges == old(ranges)[r := ClearedRange(old(ranges)[r])]
      ensures totalBytes + QueuesBytes(old(ranges)[r].queues) == old(totalBytes)
    {
      hide RangesOk, IdsBelow, RangesBytes, QueuesBytes, Cleared;
      RangeIsOk(r);
      var n := 0;
      while n < |ranges[r].queues|
        invariant |ranges| == |old(ranges)| && |ranges[r].queues| == |streams|
        invariant Shaped() && |ranges| == |old(ranges)| && 0 <= n <= |streams|
        invariant ranges == old(ranges)[r := ranges[r]] && ranges[r].id == old(ranges)[r].id
        invariant forall i :: 0 <= i < n ==> ranges[r].queues[i] == Cleared(old(ranges)[r].queues[i])
        invariant forall i :: n <= i < |streams| ==> ranges[r].queues[i] == old(ranges)[r].queues[i]
      {
        ClearQueue(r, n);
        n := n + 1;
      }
      ClearedRangeIs(ranges[r], old(ranges)[r], streams);
      ClearedRangeBytes(old(ranges), r);
      UpdateSeekRanges(r);
    }

    method RemoveEmptyRange(n: nat)
      requires Shaped() && n < |ranges| - 1 && NotRead(n)
      modifies this`ranges, this`totalBytes
      ensures Shaped()
      ensures ranges == RemoveAt(old(ranges), n)
    {
      ClearCachedRange(n);
      RemoveKeeps(ranges, n, |streams|, nextId);
      EmptyQueuesBytes(ranges[n].queues);
      ranges := RemoveAt(ranges, n);
    }

    /** Removes the ranges without a window and finds the shortest of the others. */
    method RemoveEmptyRanges() returns (worst: int)
      requires Shaped() && ReadersInLast(streams, ranges)
      modifies this`ranges, this`totalBytes
      ensures Shaped() && ranges == Kept(old(ranges), 0)
      ensures |ranges| > 1 ==> worst == Shortest(ranges)
    {
      ghost var was := ranges;
      worst := -1;
      var n := |ranges| - 2;
      while n >= 0
        invariant -1 <= n <= |was| - 2
        invariant Shaped() && ranges == Visited(was, n + 1)
        invariant if worst == -1 then |Kept(was, n + 1)| == 1
                  else |Kept(was, n + 1)| > 1 && worst == n + 1 + Shortest(Kept(was, n + 1))
      {
        VisitedStep(was, n);
        worst := VisitRange(n, worst, was[..n], Kept(was, n + 1));
        n := n - 1;
      }
      VisitedAll(was);
    }

    lemma NotReadBeforeLast(n: nat)
      requires Shaped() && ReadersInLast(streams, ranges) && n < |ranges| - 1
      ensures NotRead(n)
    {
      OthersUnread(streams, ranges, n);
    }

    /** Removes range `n` if it has no window; else makes it the worst if it is the shortest. */
    method VisitRange(n: nat, worst: int, ghost before: seq<Range>, ghost after: seq<Range>) returns (worst': int)
      requires Shaped() && ReadersInLast(streams, ranges) && n == |before| && after != []
      requires |ranges| == n + 1 + |after| && ranges == before + [ranges[n]] + after
      requires if worst == -1 then |after| == 1 else |after| > 1 && worst == n + 1 + Shortest(after)
      modifies this`ranges, this`totalBytes
      ensures Shaped()
      ensures var x := old(ranges)[n];
        if x.seekStart == NOPTS then ranges == before + after && worst' == (if worst == -1 then -1 else worst - 1)
        else ranges == old(ranges) && worst' == n + Shortest([x] + after)
    {
      hide RangesOk, IdsBelow, RangesBytes, ReadersInLast, NotRead;
      NotReadBeforeLast(n);
      if ranges[n].seekStart == NOPTS {
        worst' := if worst == -1 then -1 else worst - 1;
        RemoveEmptyRange(n);
      } else {
        worst' := if worst == -1 || Span(ranges[n]) < Span(ranges[worst]) then n else worst;
      }
    }

    /** Removes the ranges without a window and, while there are too many, the shortest ones. */
    method FreeEmptyCachedRanges()
      requires Shaped() && ReadersInLast(streams, ranges)
      modifies this`ranges, this`totalBytes
      ensures Shaped() && ranges == Freed(old(ranges))
    {
      hide RangesOk, IdsBelow, RangesBytes;
      ghost var first := true;
      while true
        invariant Shaped() && ReadersInLast(streams, ranges)
        invariant Trim(Kept(ranges, 0), MAX_SEEK_RANGES) == Trim(Kept(old(ranges), 0), MAX_SEEK_RANGES)
        invariant !first ==> |Kept(ranges, 0)| < |ranges|
        decreases if first then 1 else 0, |ranges|
      {
        KeptHasWindows(ranges, 0);
        var worst := RemoveEmptyRanges();
        if |ranges| <= MAX_SEEK_RANGES {
          break;
        }
        KeptOfCleared(ranges, worst);
        NotReadBeforeLast(worst);
        ClearCachedRange(worst);
        first := false;
      }
    }

    // ---------- joining ----------

    lemma RangeIsOk(r: nat)
      requires Shaped() && r < |ranges|
      ensures |ranges[r].queues| == |streams| && QueuesOk(ranges[r].queues)
    {
    }

    method ReplaceQueues(r: nat, qs: seq<Queue>, dropped: nat)
      requires Shaped() && r < |ranges| && |qs| == |streams| && QueuesOk(qs)
      requires QueuesBytes(qs) + dropped == QueuesBytes(ranges[r].queues)
      modifies this`ranges, this`totalBytes
      ensures Shaped()
      ensures ranges == old(ranges)[r := old(ranges)[r].(queues := qs)] && totalBytes + dropped == old(totalBytes)
    {
      hide QueueOk, RangesOk, IdsBelow;
      ReplaceQueuesOk(ranges, r, ranges[r].(queues := qs), |streams|, nextId);
      totalBytes := totalBytes - dropped;
      ranges := ranges[r := ranges[r].(queues := qs)];
    }

    /** Moves the packets of range `next` to the current range. */
    method JoinInto(next: nat)
      requires Valid() && next < |ranges| - 1
      modifies this`ranges, this`streams, this`fwBytes
      ensures Valid()
      ensures |streams| == |old(streams)| && |ranges| == |old(ranges)|
      ensures var rs, last := old(ranges), |ranges| - 1;
        && ranges == rs[last := ranges[last]][next := ranges[next]]
        && |ranges[last].queues| == |rs[next].queues| == |streams|
        && ranges[last].id == rs[last].id
        && forall n :: 0 <= n < |streams| ==>
             StreamJoined(old(streams)[n], current, rs[last].queues[n], rs[next].queues[n],
                          streams[n], ranges[last].queues[n], HandedOver(rs[next].queues[n]))
    {
      hide QueueOk, ReaderOk, QueuesOk, StreamJoined, IdsBelow, QueuesBytes, RangesOk, RangesBytes, ForwardBytes;
      RangeIsOk(|ranges| - 1);
      RangeIsOk(next);
      var last := |ranges| - 1;
      var ts, js, hs, bytes := JoinStreams(streams, current, ranges[last].queues, ranges[next].queues);
      JoinedOrder(streams, current, ranges[last].queues, ranges[next].queues, ts, js, hs);
      ReplaceQueuesOk(ranges, last, ranges[last].(queues := js), |streams|, nextId);
      ranges := ranges[last := ranges[last].(queues := js)];
      ReplaceQueuesOk(ranges, next, ranges[next].(queues := hs), |streams|, nextId);
      ranges := ranges[next := ranges[next].(queues := hs)];
      streams, fwBytes := ts, bytes;
    }

    method CompleteJoin(next: nat)
      requires Valid() && next < |ranges| - 1
      modifies this`ranges, this`streams, this`fwBytes
      ensures Valid()
      ensures |streams| == |old(streams)| && |ranges| == |old(ranges)|
      ensures var rs, last := old(ranges), |ranges| - 1;
        && ranges == rs[last := ranges[last]][next := ranges[next]]
        && RangeJoined(old(streams), rs[last], rs[next].queues, streams, ranges[last])
    {
      hide QueueOk, ReaderOk, QueuesOk, StreamJoined, IdsBelow, QueuesBytes, ForwardBytes, RangesBytes;
      JoinInto(next);
      UpdateSeekRanges(|ranges| - 1);
    }

    /** Frees range `next` and whatever else is not needed. */
    method DiscardRange(next: nat)
      requires Valid() && next < |ranges| - 1
      modifies this`ranges, this`totalBytes
      ensures Valid() && ranges == Freed(RemoveAt(old(ranges), next))
    {
      hide QueueOk, ReaderOk, QueuesOk, IdsBelow, QueuesBytes, RangesBytes, ForwardBytes;
      ReadersAreInLast(streams, ranges);
      OthersUnread(streams, ranges, next);
      ClearCachedRange(next);
      assert RemoveAt(ranges, next) == RemoveAt(old(ranges), next);
      KeptWithout(ranges, next, 0);
      FreeEmptyCachedRanges();
    }

    /** The rest of the join once the overlaps with range `next` are dropped. */
    method FinishJoin(next: nat)
      requires Valid() && next < |ranges| - 1
      modifies this`ranges, this`streams, this`totalBytes, this`fwBytes, this`pending
      ensures Valid()
      ensures var rs, last := old(ranges), |old(ranges)| - 1;
        && RangeJoined(old(streams), rs[last], rs[next].queues, streams, ranges[|ranges| - 1])
        && ranges == Freed(Remade(rs, next, ranges[|ranges| - 1]))
        && pending == PendingSeek(true, SeekFlags(false, false, true), rs[next].seekEnd - 1.0)
    {
      hide Valid, Shaped, RangeJoined, Freed;
      var last := |ranges| - 1;
      var target := ranges[next].seekEnd - 1.0;
      CompleteJoin(next);
      pending := PendingSeek(true, SeekFlags(false, false, true), target);
      assert RemoveAt(ranges, next) == Remade(old(ranges), next, ranges[last]);
      DiscardRange(next);
    }

    /** Drops the overlap of range `next` with the current range, as far as the streams agree. */
    method DropOverlapsWith(next: nat) returns (ok: bool)
      requires Valid() && next < |ranges| - 1
      modifies this`ranges, this`totalBytes
      ensures Valid() && |ranges| == |old(ranges)| && ranges == old(ranges)[next := ranges[next]]
      ensures ranges[next].seekEnd == old(ranges)[next].seekEnd
      ensures var q1s, q2s := ranges[|ranges| - 1].queues, old(ranges)[next].queues;
        && |q1s| == |q2s| == |streams|
        && ok == AllCanJoin(streams, q1s, q2s)
        && (ok ==> ranges[next].queues == Remainings(streams, q1s, q2s))
    {
      hide QueueOk, ReaderOk, QueuesOk, IdsBelow, QueuesBytes, RangesBytes, ForwardBytes, AllCanJoin, Remainings;
      var rest, dropped;
      ok, rest, dropped := DropOverlaps(streams, ranges[|ranges| - 1].queues, ranges[next].queues);
      ReplaceQueues(next, rest, dropped);
    }

    /** Joins the current range with the next one if they overlap in every stream. The next range
        is gone afterwards in any case; if the join fails, nothing else changes. */
    method AttemptRangeJoining()
      requires Valid()
      modifies this`ranges, this`streams, this`totalBytes, this`fwBytes, this`pending
      ensures Valid()
      ensures JoinOutcome(old(streams), old(ranges), old(pending), streams, ranges, pending)
    {
      hide Valid, AllCanJoin, RangeJoined, Remainings, JoinCandidate, Freed, JoinOutcome, Remade, RemoveAt;
      ValidRanges();
      ghost var ss, rs, p := streams, ranges, pending;
      var next := FindNextRange();
      if next == -1 {
        NotOutcome(ss, rs, p);
        return;
      }
      var ok := DropOverlapsWith(next);
      ghost var mid := ranges;
      RemadeSame(mid, rs, next, mid[next]);
      if ok {
        FinishJoin(next);
        RemadeSame(mid, rs, next, ranges[|ranges| - 1]);
        JoinedOutcome(ss, rs, p, next, streams, ranges[|ranges| - 1], ranges);
      } else {
        DiscardRange(next);
        FailedOutcome(ss, rs, p, next);
      }
    }

    lemma ValidRanges()
      requires Valid()
      ensures ranges != [] && |ranges[|ranges| - 1].queues| == |streams|
    {
    }

    method FindNextRange() returns (next: int)
      requires ranges != []
      ensures next == JoinCandidate(ranges, |ranges| - 1)
    {
      var cur := ranges[|ranges| - 1];
      next := -1;
      for n := 0 to |ranges| - 1
        invariant next == JoinCandidate(ranges, n)
      {
        if cur.seekStart <= ranges[n].seekStart {
          var dist := cur.seekEnd - ranges[n].seekStart;
          if dist > 0.0 && (next == -1 || dist < cur.seekEnd - ranges[next].seekStart) {
            next := n;
          }
        }
      }
    }

    // ---------- adding packets ----------

    /** Accounts for packet `l` just appended to stream `n`, or (Null) for the end of the stream;
        a range that grows may then be joined with the next one. */
    method AdjustSeekRangeOnPacket(n: nat, l: Link)
      requires Valid() && n < |streams| && JustAdded(ranges[|ranges| - 1].queues[n], l)
      modifies this`ranges, this`streams, this`totalBytes, this`fwBytes, this`pending
      ensures Valid()
      ensures if !seekableCache then ranges == old(ranges) && streams == old(streams) && pending == old(pending)
              else AdjustOutcome(old(streams), old(ranges), old(pending), n, l, streams, ranges, pending)
    {
      hide Valid, QueuesOk, ReadersOk, QueuesBytes, JoinOutcome, AdjustedRange, Readable, JustAdded;
      if !seekableCache {
        return;
      }
      ValidRanges();
      ValidQueues();
      ValidReaders();
      ValidLast(n, l);
      var x := ranges[|ranges| - 1];
      var y := AccountFor(x, streams, n, l);
      ReplaceLast(y);
      if y.seekEnd > x.seekEnd {
        AttemptRangeJoining();
      }
    }

    lemma ValidLast(n: nat, l: Link)
      requires Valid() && n < |streams| && JustAdded(ranges[|ranges| - 1].queues[n], l)
      ensures var x := ranges[|ranges| - 1];
        x.id == current && n < |x.queues| && Readable(x.queues[n]) && x.queues[n].HoldsLink(l)
    {
      ReadableIfOk(ranges[|ranges| - 1].queues[n]);
    }

    method ReplaceLast(y: Range)
      requires Valid() && y.id == current && |y.queues| == |streams| && QueuesOk(y.queues) && ReadersOk(streams, y)
      requires QueuesBytes(y.queues) == QueuesBytes(ranges[|ranges| - 1].queues)
      modifies this`ranges
      ensures Valid() && ranges == old(ranges)[|old(ranges)| - 1 := y]
    {
      hide QueueOk, ReaderOk, QueuesBytes, RangesBytes, ForwardBytes;
      LastRangeOk(ranges, y, streams, nextId);
      ranges := ranges[|ranges| - 1 := y];
    }

    /** Hands a packet to stream `n`. It is refused if the stream is not selected or a seek is
        queued, skipped if the stream is resuming, and otherwise appended to its queue. */
    method AddPacket(n: nat, m: Media)
      requires Valid() && n < |streams|
      modifies this`ranges, this`streams, this`totalBytes, this`fwBytes, this`pending, this`eof, this`lastEof
      ensures Valid()
      ensures AddOutcome(old(streams), old(ranges), old(pending), seekableCache, n, m, streams, ranges, pending)
      ensures var reset := Appends(old(streams)[n], old(pending), m) && !old(streams)[n].ignoreEof;
        eof == (old(eof) && !reset) && lastEof == (old(lastEof) && !reset)
    {
      hide Valid, AdjustOutcome, AddOutcome, AppendDone, JustAdded;
      ghost var ss, rs, p := streams, ranges, pending;
      ValidRanges();
      var ds := streams[n];
      if m.len == 0 || !ds.selected || pending.queued {
        RefusedOutcome(ss, rs, p, seekableCache, n, m);
        return;
      }
      if ds.refreshing {
        SetRefreshing(n, StillBehind(ranges[|ranges| - 1].queues[n], m));
        SkippedOutcome(ss, rs, p, seekableCache, n, m);
        return;
      }
      var tail := AppendTo(n, m);
      ghost var ss', rs' := streams, ranges;
      if !ds.ignoreEof {
        eof, lastEof := false, false;
      }
      AdjustSeekRangeOnPacket(n, tail);
      AppendedOutcome(ss, rs, p, seekableCache, n, m, tail, ss', rs', streams, ranges, pending);
    }

    /** Replaces the streams by others that are read from the current range. */
    method ReplaceStreams(ts: seq<Stream>, bytes: nat)
      requires Valid() && |ts| == |streams| && bytes == ForwardBytes(ts)
      requires ranges != [] && ReadersOk(ts, ranges[|ranges| - 1])
      modifies this`streams, this`fwBytes
      ensures Valid() && streams == ts && fwBytes == bytes
    {
      hide RangesOk, ForwardBytes, RangesBytes, IdsBelow, ReadersOk;
      streams, fwBytes := ts, bytes;
    }

    /** Replaces one stream by one that is read from the same position. */
    method ReplaceStream(n: nat, s: Stream)
      requires Valid() && n < |streams| && SameReader(s, streams[n])
      modifies this`streams
      ensures Valid() && streams == old(streams)[n := s]
    {
      hide Valid, ForwardBytes, ReadersOk, SameReader;
      ValidRanges();
      ValidReaders();
      SameReaders(streams, ranges[|ranges| - 1], n, s);
      SetStreams(streams[n := s]);
    }

    method SetStreams(ts: seq<Stream>)
      requires Valid() && |ts| == |streams| && ForwardBytes(ts) == ForwardBytes(streams)
      requires ranges != [] && ReadersOk(ts, ranges[|ranges| - 1])
      modifies this`streams
      ensures Valid() && streams == ts
    {
      hide RangesOk, ForwardBytes, RangesBytes, IdsBelow, ReadersOk;
      streams := ts;
    }

    method SetRefreshing(n: nat, refreshing: bool)
      requires Valid() && n < |streams|
      modifies this`streams
      ensures Valid() && streams == old(streams)[n := old(streams)[n].(refreshing := refreshing)]
    {
      hide Valid;
      ReplaceStream(n, streams[n].(refreshing := refreshing));
    }

    method AppendTo(n: nat, m: Media) returns (tail: Link)
      requires Valid() && n < |streams|
      modifies this`ranges, this`streams, this`totalBytes, this`fwBytes
      ensures Valid() && |streams| == |old(streams)|
      ensures AppendDone(old(streams), old(ranges), n, m, streams, ranges, tail)
      ensures JustAdded(ranges[|ranges| - 1].queues[n], tail)
    {
      hide QueueOk, ReaderOk, RangesOk, ReadersOk, IdsBelow, RangesBytes, ForwardBytes, JustAdded, Readable;
      hide EstimateSize, Appended, AfterAppend;
      ghost var ss, rs := streams, ranges;
      AppendKeeps(rs, ss, n, m, nextId);
      var last := |ranges| - 1;
      var x := ranges[last];
      var q := AppendToQueue(x.queues[n], m, streams[n].kind == Video);
      var ds, bytes := CountPacket(streams[n], q, m);
      assert AddedStreams(ss, x, n, m) == ss[n := ds];
      var y := x.(queues := x.queues[n := q]);
      assert AppendedRange(x, n, m, ss[n].kind == Video) == y;
      hide AddedStreams, AppendedRange;
      totalBytes := totalBytes + bytes;
      if ds.reader.PacketAt? {
        fwBytes := fwBytes + bytes;
      }
      streams := streams[n := ds];
      ranges := ranges[last := y];
      tail := q.Tail();
    }

    // ---------- pruning and reading ----------

    function BackLimit(): nat {
      if seekableCache then maxBytesBw else 0
    }

    /** One round of pruning. Without a victim nothing changes (the source's assertion fails). */
    method PruneOnce() returns (ok: bool)
      requires Valid() && totalBytes > fwBytes
      modifies this`ranges, this`totalBytes
      ensures Valid()
      ensures ok ==> PruneOutcome(old(ranges), streams, seekableCache, current, ranges)
      ensures !ok ==> |ranges| > 1 && Drained(ranges[0]) && ranges == old(ranges) && totalBytes == old(totalBytes)
      ensures ok ==> totalBytes < old(totalBytes)
      ensures |old(ranges)| == 1 ==> ok && |ranges| == 1
      ensures RangePruned(ranges[|ranges| - 1], old(ranges)[|old(ranges)| - 1])
    {
      hide QueueOk, ReaderOk, RangesOk, IdsBelow, RangesBytes, ForwardBytes, Freed, ReadersOk, Drained, VictimPruned;
      ghost var rs, ss := ranges, streams;
      ValidRanges();
      RangeIsOk(0);
      VictimExists(rs, ss);
      RangePrunedRefl(rs[|rs| - 1]);
      var v := FindVictim(ranges[0], streams, seekableCache);
      if v == -1 {
        return false;
      }
      PruneVictim(v);
      if ranges[0].id != current && ranges[0].seekStart == NOPTS {
        FreeRanges();
      }
      assert PrunedVictimOutcome(rs, ss, seekableCache, current, v, ranges);
      return true;
    }

    method PruneVictim(v: nat)
      requires Valid() && v < |streams| && Prunable(streams[v], ranges[0].id, ranges[0].queues[v])
      modifies this`ranges, this`totalBytes
      ensures Valid() && totalBytes < old(totalBytes) && |old(ranges)[0].queues| == |streams|
      ensures ranges == old(ranges)[0 := VictimPruned(old(ranges), streams, seekableCache, v)]
      ensures RangePruned(ranges[|ranges| - 1], old(ranges)[|old(ranges)| - 1])
    {
      hide QueueOk, ReaderOk, IdsBelow, RangesBytes, ForwardBytes, PruneCount, Prepared, SeekWindow, PrunedFrom;
      ghost var rs, ss := ranges, streams;
      RangeIsOk(0);
      RangePrunedRefl(rs[|rs| - 1]);
      var x := ranges[0];
      var q, removed, prepared := PruneQueue(streams[v], x.id, x.queues[v], seekableCache);
      PruneKeeps(rs, ss, v, q, prepared, removed, nextId);
      hide RangesOk, ReadersOk, RangePruned;
      var w := Window(x.seekStart, x.seekEnd);
      if prepared {
        w := ComputeWindow(x.queues[v := q], streams);
      }
      var y := Range(x.id, x.queues[v := q], w.start, w.end);
      assert y == VictimPruned(rs, ss, seekableCache, v);
      hide PrunedRange, VictimPruned;
      ranges := ranges[0 := y];
      totalBytes := totalBytes - removed;
    }

    /** FreeEmptyCachedRanges in a consistent state. */
    method FreeRanges()
      requires Valid()
      modifies this`ranges, this`totalBytes
      ensures Valid() && ranges == Freed(old(ranges)) && totalBytes <= old(totalBytes)
    {
      hide QueueOk, ReaderOk, IdsBelow, RangesBytes, ForwardBytes;
      ReadersAreInLast(streams, ranges);
      FreedBytes(ranges);
      FreeEmptyCachedRanges();
    }

    /** Prunes until at most the allowed number of bytes lies behind the readers. What is ahead of
        them stays; with a single range this always succeeds. */
    method PruneOldPackets() returns (ok: bool)
      requires Valid()
      modifies this`ranges, this`totalBytes
      ensures Valid()
      ensures ok ==> totalBytes - fwBytes <= BackLimit()
      ensures !ok ==> totalBytes - fwBytes > BackLimit() && |ranges| > 1 && Drained(ranges[0])
      ensures |old(ranges)| == 1 ==> ok && |ranges| == 1
      ensures RangePruned(ranges[|ranges| - 1], old(ranges)[|old(ranges)| - 1])
      ensures old(totalBytes) - fwBytes <= BackLimit() ==> ranges == old(ranges) && totalBytes == old(totalBytes)
    {
      hide QueueOk, ReaderOk, RangesOk, IdsBelow, RangesBytes, ForwardBytes, ReadersOk, RangePruned, Drained;
      ghost var rs := ranges;
      ValidRanges();
      RangePrunedRefl(rs[|rs| - 1]);
      ForwardLeTotal(ranges, streams);
      while totalBytes - fwBytes > BackLimit()
        invariant Valid()
        invariant |rs| == 1 ==> |ranges| == 1
        invariant RangePruned(ranges[|ranges| - 1], rs[|rs| - 1])
        invariant old(totalBytes) - fwBytes <= BackLimit() ==> ranges == rs && totalBytes == old(totalBytes)
        decreases totalBytes
      {
        ghost var mid := ranges;
        var pruned := PruneOnce();
        RangePrunedTrans(ranges[|ranges| - 1], mid[|mid| - 1], rs[|rs| - 1]);
        if !pruned {
          return false;
        }
      }
      return true;
    }

    /** The packets stream `n` has yet to hand to its reader. */
    ghost function ToRead(n: nat): seq<Packet>
      reads `streams, `ranges
      requires ranges != [] && n < |streams| == |ranges[|ranges| - 1].queues|
    {
      Forward(streams[n], ranges[|ranges| - 1].queues[n])
    }

    method AdvanceReader(n: nat) returns (m: Media)
      requires Valid() && n < |streams| && streams[n].reader.PacketAt?
      modifies this`streams, this`fwBytes
      ensures Valid() && |streams| == |old(streams)|
      ensures var q := ranges[|ranges| - 1].queues[n];
        && q.Holds(old(streams)[n].reader.num) && m == q.Get(old(streams)[n].reader.num).media
        && streams == old(streams)[n := AfterRead(old(streams)[n], q)]
        && Forward(old(streams)[n], q) == [q.Get(old(streams)[n].reader.num)] + Forward(streams[n], q)
    {
      hide Valid, ReadersOk, ForwardBytes, EstimateSize, AfterRead, Forward;
      ValidRanges();
      ValidReaders();
      ValidBytes();
      ghost var ss := streams;
      var s, q := streams[n], ranges[|ranges| - 1].queues[n];
      AdvancedReaders(ss, ranges[|ranges| - 1], n);
      m := q.Get(s.reader.num).media;
      ReplaceStreams(streams[n := AfterRead(s, q)], fwBytes - EstimateSize(m));
    }

    /** Hands the next packet of stream `n` to its reader, if there is one; `ok` is whether the
        pruning that follows could be done. */
    method DequeuePacket(n: nat) returns (r: Dequeued, ok: bool)
      requires Valid() && n < |streams|
      modifies this`ranges, this`streams, this`totalBytes, this`fwBytes
      ensures Valid() && |streams| == |old(streams)|
      ensures old(streams)[n].attachedPicture ==>
        && ok && ranges == old(ranges) && totalBytes == old(totalBytes) && fwBytes == old(fwBytes)
        && streams == old(streams)[n := old(streams)[n].(eof := true, pictureAdded := true)]
        && r == if old(streams)[n].pictureAdded then Nothing else Picture
      ensures !old(streams)[n].attachedPicture && old(streams)[n].reader.NoPacket? ==>
        r == Nothing && ok && ranges == old(ranges) && streams == old(streams)
      ensures !old(streams)[n].attachedPicture && old(streams)[n].reader.PacketAt? ==>
        && r.Data? && RangePruned(ranges[|ranges| - 1], old(ranges)[|old(ranges)| - 1])
        && (ok ==> totalBytes - fwBytes <= BackLimit())
        && (!ok ==> |ranges| > 1 && Drained(ranges[0]))
        && |ranges[|ranges| - 1].queues| == |old(ranges)[|old(ranges)| - 1].queues| == |streams|
        && |old(ToRead(n))| > 0 && old(ToRead(n))[0].media == r.media && ToRead(n) == old(ToRead(n))[1..]
        && forall i :: 0 <= i < |streams| && i != n ==> streams[i] == old(streams)[i] && ToRead(i) == old(ToRead(i))
    {
      hide Valid, RangePruned, Drained, AfterRead, Forward;
      ValidRanges();
      if streams[n].attachedPicture {
        r := if streams[n].pictureAdded then Nothing else Picture;
        ShowPicture(n);
        return r, true;
      }
      if streams[n].reader.NoPacket? {
        return Nothing, true;
      }
      ghost var x, ss := ranges[|ranges| - 1], streams;
      var m := AdvanceReader(n);
      ValidReaders();
      ghost var ts := streams;
      ok := PruneOldPackets();
      ValidReaders();
      PruneKeepsForward(ts, x, ranges[|ranges| - 1]);
      r := Data(m);
    }

    method ShowPicture(n: nat)
      requires Valid() && n < |streams|
      modifies this`streams
      ensures Valid() && streams == old(streams)[n := old(streams)[n].(eof := true, pictureAdded := true)]
    {
      hide Valid;
      ReplaceStream(n, streams[n].(eof := true, pictureAdded := true));
    }

    lemma ValidBytes()
      requires Valid()
      ensures fwBytes == ForwardBytes(streams)
    {
    }

    lemma ValidQueues()
      requires Valid()
      ensures ranges != [] && QueuesOk(ranges[|ranges| - 1].queues)
    {
    }

    lemma ValidReaders()
      requires Valid()
      ensures ranges != [] && ReadersOk(streams, ranges[|ranges| - 1])
    {
    }

    // ---------- switching ranges ----------

    /** Makes the range with the given id the current one, and the most recently used. */
    method SetCurrentRange(id: nat)
      requires Shaped() && PositionOf(ranges, id) != -1
      modifies this`ranges, this`current
      ensures Shaped() && current == id && ranges == MovedToEnd(old(ranges), PositionOf(old(ranges), id))
    {
      hide QueueOk, QueuesOk, RangesBytes;
      current := id;
      var n := FindRange(ranges, id);
      MovedToEndOk(ranges, n, |streams|, nextId);
      ranges := MovedToEnd(ranges, n);
    }

    /** Puts range `r`, which is not read, into the background: drops what is due for pruning, and
        everything if the streams could not be resumed there. */
    method PutAside(r: nat)
      requires Shaped() && r < |ranges| && NotRead(r)
      modifies this`ranges, this`totalBytes
      ensures Shaped() && |ranges| == |old(ranges)| && ranges == old(ranges)[r := ranges[r]]
      ensures Backgrounded(old(ranges)[r], streams, ranges[r])
    {
      hide QueueOk, IdsBelow, RangesBytes, QueuesBytes, LeftBehind, Cleared;
      RangeIsOk(r);
      ghost var x := ranges[r];
      var qs, removed := RemoveAllPruned(ranges[r].queues);
      ReplaceQueues(r, qs, removed);
      var resumable := CanResume(streams);
      if !resumable {
        ClearCachedRange(r);
      }
    }

    /** Makes range `id`, to which the readers already point, the current one. */
    method SwitchCurrentRange(id: nat) returns (ghost y: Range)
      requires Shaped() && fwBytes == ForwardBytes(streams) && Switchable(streams, ranges, current, id)
      modifies this`ranges, this`streams, this`totalBytes, this`current
      ensures Valid() && current == id && streams == Switched(old(streams), id)
      ensures var m := MovedToEnd(old(ranges), PositionOf(old(ranges), id));
        |m| >= 2 && SwitchedAway(m, old(streams), ranges, y)
    {
      hide RangesOk, QueuesOk, IdsBelow, RangesBytes, ForwardBytes, Freed, Backgrounded, PositionOf, ReaderAt;
      ghost var m, ss := MovedToEnd(ranges, PositionOf(ranges, id)), streams;
      SetCurrentRange(id);
      var last := |ranges| - 1;
      ReadersPointTo(ss, ranges);
      NotReadBeforeLast(last - 1);
      PutAside(last - 1);
      y := ranges[last - 1];
      SwitchedReaders(ss, ranges[last]);
      streams := SwitchStreams(streams, id);
      ReadersAreInLast(streams, ranges);
      FreeEmptyCachedRanges();
    }

    // ---------- seeking ----------

    /** No reader is positioned anywhere, as at the start of every seek. */
    ghost predicate Unpositioned()
      reads `streams, `fwBytes
    {
      fwBytes == 0 && forall n :: 0 <= n < |streams| ==> streams[n].reader.NoPacket?
    }

    method SeekInCurrent(t: Target)
      requires Valid() && Unpositioned()
      modifies this`streams, this`fwBytes
      ensures Valid() && ranges != [] && |ranges[|ranges| - 1].queues| == |old(streams)|
      ensures QueuesOk(ranges[|ranges| - 1].queues) && streams == SeekedAll(old(streams), ranges[|ranges| - 1], t)
    {
      hide Valid, ReadersOk, QueuesOk, ForwardBytes, SeekedAll;
      ValidRanges();
      ValidReaders();
      ValidQueues();
      var x := ranges[|ranges| - 1];
      SeekedReadersOk(streams, x, t);
      var ts, bytes := SeekStreams(streams, x, t);
      ReplaceStreams(ts, bytes);
    }

    method SeekElsewhere(r: nat, t: Target) returns (ghost y: Range)
      requires Valid() && Unpositioned()
      requires r < |ranges| - 1 && |ranges[r].queues| == |streams| && QueuesOk(ranges[r].queues)
      modifies this`streams, this`ranges, this`fwBytes, this`totalBytes, this`current, this`pending
      ensures Valid() && current == old(ranges)[r].id
      ensures var m, sought := MovedToEnd(old(ranges), r), SeekedAll(old(streams), old(ranges)[r], t);
        && |m| >= 2 && SwitchedAway(m, sought, ranges, y)
        && streams == Resuming(Switched(sought, current))
      ensures pending == PendingSeek(true, SeekFlags(false, false, true), old(ranges)[r].seekEnd - 1.0)
    {
      hide QueueOk, QueuesOk, ReaderOk, ReaderAt, RangesBytes, ForwardBytes, IdsBelow, SeekedAll, Freed;
      hide Backgrounded, PositionOf;
      ghost var rs := ranges;
      var x := ranges[r];
      PositionIs(ranges, r, |streams|);
      SeekedReaders(streams, x, t);
      var ts, bytes := SeekStreams(streams, x, t);
      streams, fwBytes := ts, bytes;
      y := SwitchCurrentRange(x.id);
      pending := PendingSeek(true, SeekFlags(false, false, true), x.seekEnd - 1.0);
      ResumeStreams();
    }

    /** The selected streams drop what is delivered again. */
    method ResumeStreams()
      requires Valid()
      modifies this`streams
      ensures Valid() && streams == Resuming(old(streams))
    {
      hide Valid, ReadersOk, ForwardBytes;
      ValidRanges();
      ValidReaders();
      ResumingReaders(streams, ranges[|ranges| - 1]);
      var ts := streams;
      for n := 0 to |streams|
        invariant streams == old(streams) && |ts| == |streams|
        invariant forall i :: 0 <= i < n ==> ts[i] == streams[i].(refreshing := streams[i].selected)
        invariant forall i :: n <= i < |streams| ==> ts[i] == streams[i]
      {
        ts := ts[n := ts[n].(refreshing := ts[n].selected)];
      }
      assert ts == Resuming(streams);
      SetStreams(ts);
    }

    /** Serves a seek from the cache if some range covers its target. */
    method TrySeekCache(pts: real, flags: SeekFlags) returns (ok: bool, ghost r: int)
      requires Valid() && Unpositioned()
      modifies this`streams, this`ranges, this`fwBytes, this`totalBytes, this`current, this`pending
      ensures Valid()
      ensures !ok ==>
        && ranges == old(ranges) && streams == old(streams) && current == old(current) && pending == old(pending)
        && Unpositioned()
        && (flags.factor || !seekableCache || forall i :: 0 <= i < |ranges| ==> !Covers(ranges[i], pts))
      ensures ok ==>
        && !flags.factor && seekableCache
        && 0 <= r < |old(ranges)| && Covers(old(ranges)[r], pts)
        && (forall i :: 0 <= i < r ==> !Covers(old(ranges)[i], pts))
        && SeekOutcome(old(streams), old(ranges), old(current), old(pending), pts, flags, r,
                       streams, ranges, current, pending)
    {
      hide QueueOk, QueuesOk, ReaderOk, RangesBytes, ForwardBytes, IdsBelow, SeekedAll, Freed, Backgrounded, SeekTo;
      r := -1;
      if flags.factor || !seekableCache {
        return false, r;
      }
      var found := FindSeekRange(ranges, pts);
      r := found;
      if found == -1 {
        return false, r;
      }
      ghost var rs := ranges;
      RangeIsOk(found);
      var t := FindTarget(ranges[found], streams, pts, flags);
      if ranges[found].id != current {
        ghost var y := SeekElsewhere(found, t);
      } else {
        SeekInCurrent(t);
      }
      ok := true;
    }

    method ClearReaderState()
      requires Valid()
      modifies this`streams, this`fwBytes
      ensures Valid() && Unpositioned() && streams == UnreadAll(old(streams))
    {
      hide QueueOk, ReaderOk, RangesOk, IdsBelow, RangesBytes;
      UnreadReaders(streams, ranges[|ranges| - 1]);
      var ts := streams;
      var bytes := fwBytes;
      for n := 0 to |streams|
        invariant streams == old(streams) && fwBytes == old(fwBytes) && |ts| == |streams|
        invariant forall i :: 0 <= i < n ==> ts[i] == CachedRanges.Unread(streams[i])
        invariant forall i :: n <= i < |streams| ==> ts[i] == streams[i]
        invariant bytes == ForwardBytes(ts)
      {
        ForwardBytesUpdate(ts, n, CachedRanges.Unread(ts[n]));
        bytes := bytes - ts[n].fwBytes;
        ts := ts[n := CachedRanges.Unread(ts[n])];
      }
      assert ts == UnreadAll(streams);
      streams, fwBytes := ts, bytes;
    }

    /** Starts reading and appending to a blank range, keeping the old one if seeking back into it
        is possible at all. */
    method SwitchToFreshCacheRange()
      requires Valid() && Unpositioned()
      modifies this`streams, this`ranges, this`totalBytes, this`current, this`nextId
      ensures Valid() && Unpositioned()
      ensures current == if seekableCache then old(nextId) else old(current)
      ensures FreshOutcome(old(streams), old(ranges), seekableCache, current, streams, ranges)
    {
      hide Valid, Shaped, Switchable, PositionOf, Backgrounded, ClearedRange, MovedToEnd;
      ValidRanges();
      ghost var ss, rs := streams, ranges;
      if !seekableCache {
        ClearLast();
        return;
      }
      AddFreshRange();
      ghost var m := ranges;
      ghost var y := SwitchCurrentRange(nextId - 1);
      assert SwitchedAway(m, ss, ranges, y);
      FreshIsEmpty(ss, rs, true, current, streams, ranges);
    }

    lemma NotReadAnywhere(r: nat)
      requires Unpositioned() && r < |ranges|
      ensures NotRead(r)
    {
    }

    method ClearLast()
      requires Valid() && Unpositioned()
      modifies this`ranges, this`totalBytes
      ensures Valid() && ranges == old(ranges)[|old(ranges)| - 1 := ClearedRange(old(ranges)[|old(ranges)| - 1])]
    {
      hide QueueOk, IdsBelow, RangesBytes, ForwardBytes, RangesOk;
      ghost var x, ss := ranges[|ranges| - 1], streams;
      NotReadAnywhere(|ranges| - 1);
      UnreadStay(ss, x, ClearedRange(x));
      ClearCachedRange(|ranges| - 1);
    }

    method AddFreshRange()
      requires Valid() && Unpositioned()
      modifies this`ranges, this`nextId
      ensures Shaped() && nextId == old(nextId) + 1
      ensures ranges == old(ranges) + [EmptyRange(old(nextId), |streams|)]
      ensures PositionOf(ranges, old(nextId)) == |ranges| - 1 && MovedToEnd(ranges, |ranges| - 1) == ranges
      ensures |ranges| >= 2
      ensures Switchable(streams, ranges, current, old(nextId)) && fwBytes == ForwardBytes(streams)
    {
      hide RangesOk, IdsBelow, ReaderAt, RangesBytes, ForwardBytes, PositionOf, ReadersOk;
      FreshRangeOk(ranges, |streams|, nextId);
      LastRangeSize(ranges, |streams|);
      UnreadElsewhere(streams, ranges[|ranges| - 1], EmptyRange(nextId, |streams|));
      NewIdIsNew(ranges, nextId);
      var queues := FreshQueues(|streams|);
      ranges := ranges + [Range(nextId, queues, NOPTS, NOPTS)];
      nextId := nextId + 1;
      PositionOfLast(ranges, |streams|);
    }

    static method FreshQueues(n: nat) returns (qs: seq<Queue>)
      ensures qs == EmptyRange(0, n).queues
    {
      qs := [];
      for i := 0 to n
        invariant |qs| == i && forall k :: 0 <= k < i ==> qs[k] == FRESH_QUEUE
      {
        qs := qs + [FRESH_QUEUE];
      }
    }

    /** Seeks: from the cache if possible, else by queueing a seek of the demuxer. */
    method Seek(pts: real, flags: SeekFlags, seekable: bool) returns (r: bool, ghost served: int)
      requires Valid()
      modifies this`streams, this`ranges, this`fwBytes, this`totalBytes, this`current, this`pending, this`nextId,
               this`eof, this`lastEof, this`reading
      ensures Valid() && r == (seekable && pts != NOPTS)
      ensures !r ==>
        && ranges == old(ranges) && streams == old(streams) && pending == old(pending) && current == old(current)
        && totalBytes == old(totalBytes) && fwBytes == old(fwBytes) && nextId == old(nextId)
        && eof == old(eof) && lastEof == old(lastEof) && reading == old(reading)
      ensures r && served >= 0 ==>
        && served < |old(ranges)| && Covers(old(ranges)[served], pts)
        && SeekOutcome(UnreadAll(old(streams)), old(ranges), old(current), old(pending), pts, flags, served,
                       streams, ranges, current, pending)
      ensures r && served < 0 ==>
        && pending == PendingSeek(true, flags, pts) && Unpositioned()
        && FreshOutcome(UnreadAll(old(streams)), old(ranges), seekableCache, current, streams, ranges)
        && (flags.factor || !seekableCache || forall i :: 0 <= i < |old(ranges)| ==> !Covers(old(ranges)[i], pts))
      ensures r ==> !eof && !lastEof && !reading
    {
      hide Valid, SeekOutcome, FreshOutcome, Covers;
      served := -1;
      if !seekable || pts == NOPTS {
        return false, served;
      }
      ClearReaderState();
      eof, lastEof, reading := false, false, false;
      var ok;
      ok, served := TrySeekCache(pts, flags);
      if !ok {
        served := -1;
        SwitchToFreshCacheRange();
        pending := PendingSeek(true, flags, pts);
      }
      r := true;
    }

    /** The thread takes up the queued seek; from then on packets are accepted again. What the
        low-level demuxer does meanwhile is not part of this model. */
    method ExecuteSeek() returns (pts: real, flags: SeekFlags)
      requires Valid()
      modifies this`pending, this`initialState
      ensures Valid() && !initialState
      ensures pts == old(pending).pts && flags == old(pending).flags
      ensures pending == old(pending).(queued := false)
    {
      hide Shaped, ReadersOk, ForwardBytes;
      pts, flags := pending.pts, pending.flags;
      pending := pending.(queued := false);
      initialState := false;
    }

    /** A reader of stream `n` asks for more; if the end was seen, it has the demuxer try again. */
    method RequestMore(n: nat)
      requires Valid() && n < |streams|
      modifies this`eof, this`reading
      ensures Valid()
      ensures eof == (old(eof) && !streams[n].eager) && reading == (old(reading) || streams[n].eager)
    {
      hide Shaped, ReadersOk, ForwardBytes;
      if streams[n].eager {
        eof, reading := false, true;
      }
    }

    // ---------- flushing and selecting ----------

    /** Drops everything: all readers, all packets, all ranges but the current one. */
    method Flush()
      requires Valid()
      modifies this`streams, this`ranges, this`totalBytes, this`fwBytes
      ensures Valid() && totalBytes == 0 && fwBytes == 0
      ensures streams == UnreadAll(old(streams))
      ensures old(ranges) != [] && ranges == [ClearedRange(old(ranges)[|old(ranges)| - 1])]
    {
      hide ForwardBytes, Freed, IdsBelow, ClearedRange, ReaderOk;
      ClearReaderState();
      ghost var rs := ranges;
      ghost var last := rs[|rs| - 1];
      ClearedShape(last);
      ClearAllRanges();
      UnreadStay(streams, last, ranges[|ranges| - 1]);
      ReadersAreInLast(streams, ranges);
      FreedOfBlank(ranges, rs);
      FreeEmptyCachedRanges();
    }

    method ClearAllRanges()
      requires Shaped() && Unpositioned()
      modifies this`ranges, this`totalBytes
      ensures Shaped() && |ranges| == |old(ranges)|
      ensures forall i :: 0 <= i < |ranges| ==> ranges[i] == ClearedRange(old(ranges)[i])
    {
      hide RangesOk, IdsBelow, RangesBytes, ClearedRange;
      for n := 0 to |ranges|
        invariant Shaped() && |ranges| == |old(ranges)|
        invariant forall i :: 0 <= i < n ==> ranges[i] == ClearedRange(old(ranges)[i])
        invariant forall i :: n <= i < |ranges| ==> ranges[i] == old(ranges)[i]
      {
        NotReadAnywhere(n);
        ClearCachedRange(n);
      }
    }

    method ResetReader(n: nat)
      requires Valid() && n < |streams|
      modifies this`streams, this`fwBytes
      ensures Valid() && streams == old(streams)[n := Reselected(old(streams)[n])]
    {
      hide RangesOk, RangesBytes, IdsBelow, ReaderOk, ForwardBytes;
      ReselectedReaders(streams, ranges[|ranges| - 1], n);
      fwBytes := fwBytes - streams[n].fwBytes;
      streams := streams[n := Reselected(streams[n])];
    }

    method RenewRange(r: nat, n: nat)
      requires Valid() && r < |ranges| && n < |streams| && streams[n].reader.NoPacket?
      modifies this`ranges, this`totalBytes
      ensures Valid()
      ensures |old(ranges)[r].queues| == |streams|
      ensures ranges == old(ranges)[r := WithWindow(Deselected(old(ranges)[r], n, streams[n].selected), streams)]
    {
      hide QueueOk, ForwardBytes, ReaderOk, SeekWindow;
      ghost var rs := ranges;
      RangeIsOk(r);
      DeselectedIsUpdate(ranges, r, n);
      if r == |rs| - 1 {
        DeselectedReaders(streams, rs[r], n, streams[n].selected);
      }
      hide RangesOk, RangesBytes, IdsBelow, ReadersOk, Deselected;
      if !streams[n].selected {
        ClearQueue(r, n);
      }
      UpdateSeekRanges(r);
    }

    lemma RangesMatch()
      requires Valid()
      ensures ranges != [] && forall r :: 0 <= r < |ranges| ==> |ranges[r].queues| == |streams|
    {
    }

    method RenewRanges(n: nat)
      requires Valid() && n < |streams| && streams[n].reader.NoPacket?
      modifies this`ranges, this`totalBytes
      ensures Valid() && forall r :: 0 <= r < |old(ranges)| ==> |old(ranges)[r].queues| == |streams|
      ensures ranges == Renewed(old(ranges), streams, n)
    {
      hide Valid, WithWindow, Deselected, Renewed, RenewedUpTo;
      RangesMatch();
      ghost var rs := ranges;
      RenewedEnds(rs, streams, n);
      for r := 0 to |ranges|
        invariant Valid() && ranges == RenewedUpTo(rs, streams, n, r)
      {
        RenewedStep(rs, streams, n, r);
        RenewRange(r, n);
      }
    }

    /** update_stream_selection_state: stream `n` was selected or deselected. */
    method UpdateStreamSelection(n: nat)
      requires Valid() && n < |streams|
      modifies this`streams, this`ranges, this`totalBytes, this`fwBytes
      ensures Valid() && |streams| == |old(streams)|
      ensures SelectionOutcome(old(streams), old(ranges), n, streams, ranges)
    {
      hide Valid, Freed, Renewed, WithEagerness;
      RangesMatch();
      ResetReader(n);
      RenewRanges(n);
      FreeRanges();
      UpdateEagerness();
    }

    method UpdateEagerness()
      requires Valid()
      modifies this`streams
      ensures Valid() && streams == WithEagerness(old(streams))
    {
      hide Valid, ReadersOk, ForwardBytes;
      ValidRanges();
      ValidReaders();
      EagernessReaders(streams, ranges[|ranges| - 1]);
      var ts, anyAv := streams, false;
      for n := 0 to |streams|
        invariant |ts| == |streams| && streams == old(streams)
        invariant anyAv <==>
          exists i :: 0 <= i < n && streams[i].selected && !streams[i].attachedPicture && streams[i].kind != Sub
        invariant forall i :: 0 <= i < n ==>
          ts[i] == streams[i].(eager := streams[i].selected && !streams[i].attachedPicture)
        invariant forall i :: n <= i < |streams| ==> ts[i] == streams[i]
      {
        ts := ts[n := ts[n].(eager := ts[n].selected && !ts[n].attachedPicture)];
        if ts[n].eager && ts[n].kind != Sub {
          anyAv := true;
        }
      }
      if anyAv {
        ts := WithoutSubs(ts);
      }
      assert ts == WithEagerness(streams);
      SetStreams(ts);
    }

    static method WithoutSubs(ss: seq<Stream>) returns (ts: seq<Stream>)
      ensures |ts| == |ss|
      ensures forall i :: 0 <= i < |ss| ==> ts[i] == if ss[i].kind == Sub then ss[i].(eager := false) else ss[i]
    {
      ts := ss;
      for n := 0 to |ss|
        invariant |ts| == |ss|
        invariant forall i :: 0 <= i < n ==> ts[i] == if ss[i].kind == Sub then ss[i].(eager := false) else ss[i]
        invariant forall i :: n <= i < |ss| ==> ts[i] == ss[i]
      {
        if ts[n].kind == Sub {
          ts := ts[n := ts[n].(eager := false)];
        }
      }
    }

    // ---------- streams ----------

    /** Adds a stream; packets of it can be added and read from now on. */
    method AddStream(kind: StreamType, attachedPicture: bool, autoselect: bool)
      requires Valid()
      modifies this`streams, this`ranges, this`totalBytes, this`fwBytes
      ensures Valid()
      ensures SelectionOutcome(old(streams) + [NewStream(kind, attachedPicture, autoselect, current)],
                               Widened(old(ranges)), |old(streams)|, streams, ranges)
    {
      WidenRanges(NewStream(kind, attachedPicture, autoselect, current));
      hide Valid, SelectionOutcome;
      UpdateStreamSelection(|streams| - 1);
    }

    method WidenRanges(s: Stream)
      requires Valid() && s.queue == current && s.reader.NoPacket? && s.fwBytes == 0 && s.fwPacks == 0
      modifies this`streams, this`ranges
      ensures Valid() && streams == old(streams) + [s] && ranges == Widened(old(ranges))
    {
      hide RangesOk, ForwardBytes, RangesBytes, IdsBelow, ReadersOk, Widened;
      WidenedOk(ranges, |streams|, nextId);
      WidenedBytes(ranges);
      WidenedReaders(streams, ranges, s);
      WidenedLast(ranges);
      var rs := Widen(ranges);
      ranges, streams := rs, streams + [s];
    }

    /** add_missing_streams, for every range. */
    static method Widen(rs: seq<Range>) returns (ws: seq<Range>)
      ensures ws == Widened(rs)
    {
      ws := rs;
      for r := 0 to |rs|
        invariant |ws| == |rs|
        invariant forall i :: 0 <= i < r ==> ws[i] == rs[i].(queues := rs[i].queues + [FRESH_QUEUE])
        invariant forall i :: r <= i < |rs| ==> ws[i] == rs[i]
      {
        ws := ws[r := ws[r].(queues := ws[r].queues + [FRESH_QUEUE])];
      }
    }

    /** Selects or deselects stream `n`; selecting one while playing may send the demuxer back. */
    method SelectTrack(n: nat, refPts: real, selected: bool, seekable: bool) returns (ghost mid: seq<Stream>)
      requires Valid() && n < |streams|
      modifies this`streams, this`ranges, this`totalBytes, this`fwBytes, this`pending
      ensures Valid()
      ensures old(streams)[n].selected == selected ==>
        streams == old(streams) && ranges == old(ranges) && pending == old(pending)
      ensures old(streams)[n].selected != selected ==>
        && SelectionOutcome(old(streams)[n := old(streams)[n].(selected := selected)], old(ranges), n, mid, ranges)
        && ranges != []
        && (!selected || initialState ==> streams == mid && pending == old(pending))
        && (selected && !initialState ==>
              RefreshOutcome(mid, ranges[|ranges| - 1].queues, old(pending), n, refPts, seekable, streams, pending))
    {
      hide Valid, SelectionOutcome, RefreshOutcome;
      mid := streams;
      if streams[n].selected != selected {
        MarkSelected(n, selected);
        UpdateStreamSelection(n);
        mid := streams;
        ValidRanges();
        if selected && !initialState {
          InitiateRefreshSeek(n, refPts, seekable);
        }
      }
    }

    method MarkSelected(n: nat, selected: bool)
      requires Valid() && n < |streams|
      modifies this`streams
      ensures Valid() && streams == old(streams)[n := old(streams)[n].(selected := selected)]
    {
      hide Valid;
      ReplaceStream(n, streams[n].(selected := selected));
    }

    method InitiateRefreshSeek(n: nat, refPts: real, seekable: bool)
      requires Valid() && n < |streams|
      modifies this`streams, this`pending
      ensures Valid() && ranges != []
      ensures RefreshOutcome(old(streams), ranges[|ranges| - 1].queues, old(pending), n, refPts, seekable,
                             streams, pending)
    {
      hide Valid, ForwardBytes, ReadersOk, RefreshOutcome;
      ValidRanges();
      ValidReaders();
      ghost var ss, was := streams, pending;
      var x := ranges[|ranges| - 1];
      var ts, p := PlanRefresh(streams, x.queues, pending, n, refPts, seekable);
      RefreshingReaders(ss, x, was, n, refPts, seekable, ts, p);
      SetStreams(ts);
      pending := p;
    }

    static method PlanRefresh(ss: seq<Stream>, qs: seq<Queue>, p: PendingSeek, n: nat, refPts: real, seekable: bool)
      returns (ts: seq<Stream>, p': PendingSeek)
      requires |ss| == |qs|
      ensures RefreshOutcome(ss, qs, p, n, refPts, seekable, ts, p')
    {
      hide RefreshStart, OnlySelected, Refreshable, RefreshingAll;
      ts, p' := ss, p;
      var start, normal, possible := FindRefresh(ss, qs, n, refPts);
      if start == NOPTS || !seekable {
        return;
      }
      if !normal {
        if !possible {
          return;
        }
        ts := MarkRefreshing(ss, qs);
        start := start - 1.0;
      }
      p' := PendingSeek(true, SeekFlags(false, false, true), start);
    }

    /** The first loop of initiate_refresh_seek. */
    static method FindRefresh(ss: seq<Stream>, qs: seq<Queue>, n: nat, refPts: real)
      returns (start: real, normal: bool, possible: bool)
      requires |ss| == |qs|
      ensures start == RefreshStart(ss, |ss|, refPts) && normal == OnlySelected(ss, n)
      ensures possible == Refreshable(ss, qs)
    {
      start, normal, possible := refPts, true, true;
      for i := 0 to |ss|
        invariant start == RefreshStart(ss, i, refPts)
        invariant normal <==> forall k :: 0 <= k < i && ss[k].selected ==> k == n
        invariant possible <==> forall k :: 0 <= k < i && ss[k].selected ==> qs[k].correctDts || qs[k].correctPos
      {
        var ds := ss[i];
        if ds.selected {
          if ds.kind == Video || ds.kind == Audio {
            start := PtsMin(start, ds.baseTs);
          }
          normal := normal && i == n;
          possible := possible && (qs[i].correctDts || qs[i].correctPos);
        }
      }
    }

    static method MarkRefreshing(ss: seq<Stream>, qs: seq<Queue>) returns (ts: seq<Stream>)
      requires |ss| == |qs|
      ensures ts == RefreshingAll(ss, qs)
    {
      ts := ss;
      for n := 0 to |ss|
        invariant |ts| == |ss|
        invariant forall i :: 0 <= i < n ==> ts[i] == RefreshingAll(ss, qs)[i]
        invariant forall i :: n <= i < |ss| ==> ts[i] == ss[i]
      {
        if qs[n].lastPos != -1 || qs[n].lastDts != NOPTS {
          ts := ts[n := ts[n].(refreshing := ts[n].refreshing || ts[n].selected)];
        }
      }
    }

    // ---------- the demuxer's side of reading ----------

    static method Survey(ss: seq<Stream>, qs: seq<Queue>, minSecs: real) returns (readMore: bool, prefetchMore: bool)
      requires |ss| == |qs|
      ensures readMore <==> exists i :: 0 <= i < |ss| && Starved(ss[i])
      ensures prefetchMore <==> exists i :: 0 <= i < |ss| && Short(ss[i], qs[i], minSecs)
    {
      readMore, prefetchMore := false, false;
      for n := 0 to |ss|
        invariant readMore <==> exists i :: 0 <= i < n && Starved(ss[i])
        invariant prefetchMore <==> exists i :: 0 <= i < n && Short(ss[i], qs[i], minSecs)
      {
        var ds := ss[n];
        readMore := readMore || (ds.eager && ds.reader.NoPacket?);
        prefetchMore := prefetchMore || ds.refreshing;
        if ds.eager && qs[n].lastTs != NOPTS && minSecs > 0.0 && ds.baseTs != NOPTS && qs[n].lastTs >= ds.baseTs {
          prefetchMore := prefetchMore || qs[n].lastTs - ds.baseTs < minSecs;
        }
      }
    }

    static method MarkOutOfPackets(ss: seq<Stream>) returns (ts: seq<Stream>)
      ensures ts == OutOfPackets(ss)
    {
      ts := ss;
      for n := 0 to |ss|
        invariant |ts| == |ss|
        invariant forall i :: 0 <= i < n ==> ts[i] == ss[i].(eof := ss[i].eof || ss[i].reader.NoPacket?)
        invariant forall i :: n <= i < |ss| ==> ts[i] == ss[i]
      {
        ts := ts[n := ts[n].(eof := ts[n].eof || ts[n].reader.NoPacket?)];
      }
    }

    static method DecideRead(ss: seq<Stream>, qs: seq<Queue>, reading: bool, full: bool, minSecs: real)
      returns (read: bool, ts: seq<Stream>)
      requires |ss| == |qs|
      ensures ReadDecision(ss, qs, reading, full, minSecs, read, ts)
    {
      hide Starved, Short, OutOfPackets;
      ts := ss;
      if !reading {
        return false, ts;
      }
      var readMore, prefetchMore := Survey(ss, qs, minSecs);
      if full {
        if readMore {
          ts := MarkOutOfPackets(ss);
        }
        return false, ts;
      }
      read := readMore || prefetchMore;
    }

    /** The first half of read_packet: decides whether to read; on overflow, streams without
        packets are told that there are none. */
    method PrepareRead(maxBytes: nat, minSecs: real) returns (read: bool)
      requires Valid()
      modifies this`streams, this`eof, this`initialState
      ensures Valid() && !eof && initialState == (old(initialState) && !read)
      ensures ranges != []
      ensures ReadDecision(old(streams), ranges[|ranges| - 1].queues, reading, fwBytes >= maxBytes, minSecs,
                           read, streams)
    {
      hide Valid, ForwardBytes, ReadersOk, ReadDecision;
      ValidRanges();
      ValidReaders();
      ghost var ss := streams;
      var x, full := ranges[|ranges| - 1], fwBytes >= maxBytes;
      var ts;
      read, ts := DecideRead(streams, x.queues, reading, full, minSecs);
      DecidedReaders(ss, x, reading, full, minSecs, read, ts);
      SetStreams(ts);
      eof := false;
      if read {
        initialState := false;
      }
    }

    /** The second half, once the lock is held again: a seek queued meanwhile makes the result
        void; otherwise the end of the input is passed on to every stream. */
    method FinishRead(atEof: bool) returns (ghost trace: seq<Snapshot>)
      requires Valid()
      modifies this`streams, this`ranges, this`totalBytes, this`fwBytes, this`pending, this`eof, this`lastEof
      ensures Valid()
      ensures old(pending).queued || !atEof ==>
        streams == old(streams) && ranges == old(ranges) && pending == old(pending)
      ensures if old(pending).queued then eof == old(eof) && lastEof == old(lastEof)
              else eof == atEof && lastEof == atEof
      ensures atEof && !old(pending).queued ==>
        && |trace| == |streams| + 1 && |streams| == |old(streams)|
        && trace[0] == Snapshot(old(streams), old(ranges), old(pending))
        && trace[|streams|] == Snapshot(streams, ranges, pending)
        && (forall n :: 0 <= n < |streams| ==> EofStep(trace[n], n, seekableCache, trace[n + 1]))
        && (pending.queued <==> exists n :: 0 <= n < |streams| && EndJoins(trace[n], n, seekableCache))
    {
      hide Valid, EofStep, EndJoins;
      trace := [Snapshot(streams, ranges, pending)];
      if pending.queued {
        return;
      }
      if atEof {
        var count := |streams|;
        for n := 0 to count
          invariant Valid() && |streams| == count && |trace| == n + 1
          invariant trace[0] == Snapshot(old(streams), old(ranges), old(pending))
          invariant trace[n] == Snapshot(streams, ranges, pending)
          invariant forall i :: 0 <= i < n ==> EofStep(trace[i], i, seekableCache, trace[i + 1])
        {
          EndStream(n);
          trace := trace + [Snapshot(streams, ranges, pending)];
        }
        EndsQueueSeek(trace, count, seekableCache);
      }
      eof, lastEof := atEof, atEof;
    }

    method EndStream(n: nat)
      requires Valid() && n < |streams|
      modifies this`streams, this`ranges, this`totalBytes, this`fwBytes, this`pending
      ensures Valid() && |streams| == |old(streams)|
      ensures EofStep(Snapshot(old(streams), old(ranges), old(pending)), n, seekableCache,
                      Snapshot(streams, ranges, pending))
    {
      hide Valid, AdjustOutcome;
      ghost var a := Snapshot(streams, ranges, pending);
      if streams[n].eof {
        return;
      }
      ValidRanges();
      AdjustSeekRangeOnPacket(n, Null);
      ghost var ts := streams;
      if seekableCache {
        AdjustKeepsCount(a.streams, a.ranges, a.pending, n, Null, ts, ranges, pending);
      }
      MarkEof(n);
      assert EofAdjusted(a, n, seekableCache, Snapshot(streams, ranges, pending), ts);
    }

    method MarkEof(n: nat)
      requires Valid() && n < |streams|
      modifies this`streams
      ensures Valid() && streams == old(streams)[n := old(streams)[n].(eof := true)]
    {
      hide Valid;
      ReplaceStream(n, streams[n].(eof := true));
    }
  }
}
