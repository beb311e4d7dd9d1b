/** Runs of the demuxer's cache on values: what each operation does to the streams, the ranges, which
    of them is current, and the low-level seek that waits to be executed. */
module CacheRuns {
  import opened Timestamps
  import opened PacketQueue
  import opened CachedRanges
  import Pruning

  /** The part of the demuxer's state an operation of the cache changes. */
  datatype Cache = Cache(streams: seq<Stream>, ranges: seq<Range>, current: nat, pending: PendingSeek)

  /** What happens to the cache. */
  datatype CacheEvent =
    | PacketArrives(n: nat, media: Media)
    | InputEnds(n: nat)
    | ReadDecided(reading: bool, full: bool, minSecs: real, read: bool)
    | PacketRead(n: nat)
    | PictureRead(n: nat)
    | Pruned(limit: nat, victim: nat)
    | SeekServed(pts: real, flags: SeekFlags, r: nat)
    | SeekMissed(pts: real, flags: SeekFlags)
    | SeekExecuted
    | Flushed
    | SelectionChanges(n: nat)
    | StreamAdded(kind: StreamType, attachedPicture: bool, autoselect: bool)
    | RefreshQueued(n: nat, refPts: real, seekable: bool)

  /** Timestamps in use are not below the missing one. */
  predicate TimedMedia(m: Media) { m.pts >= NOPTS && m.dts >= NOPTS }

  ghost predicate Happens(a: Cache, e: CacheEvent, seekable: bool, b: Cache) {
    match e
    case PacketArrives(n, m) =>
      && b.current == a.current && TimedMedia(m)
      && AddOutcome(a.streams, a.ranges, a.pending, seekable, n, m, b.streams, b.ranges, b.pending)
    case InputEnds(n) =>
      && b.current == a.current
      && EofStep(Snapshot(a.streams, a.ranges, a.pending), n, seekable, Snapshot(b.streams, b.ranges, b.pending))
    case ReadDecided(reading, full, minSecs, read) =>
      && a.ranges != [] && b == a.(streams := b.streams)
      && ReadDecision(a.streams, a.ranges[|a.ranges| - 1].queues, reading, full, minSecs, read, b.streams)
    case PacketRead(n) =>
      && a.ranges != [] && n < |a.streams| == |a.ranges[|a.ranges| - 1].queues|
      && var q := a.ranges[|a.ranges| - 1].queues[n];
         && ReaderOk(a.streams[n], a.current, q) && ReadableReader(a.streams[n], q)
         && b == a.(streams := a.streams[n := AfterRead(a.streams[n], q)])
    case PictureRead(n) =>
      n < |a.streams| && b == a.(streams := a.streams[n := a.streams[n].(eof := true, pictureAdded := true)])
    case Pruned(limit, v) =>
      && RangesBytes(a.ranges) > ForwardBytes(a.streams) + limit && b == a.(ranges := b.ranges)
      && a.ranges != [] && v < |a.ranges[0].queues| == |a.streams|
      && Pruning.PrunedVictimOutcome(a.ranges, a.streams, seekable, a.current, v, b.ranges)
    case SeekServed(pts, flags, r) =>
      && seekable && !flags.factor && pts != NOPTS
      && r < |a.ranges| && Covers(a.ranges[r], pts) && NoneCovers(a.ranges[..r], pts)
      && SeekOutcome(UnreadAll(a.streams), a.ranges, a.current, a.pending, pts, flags, r,
                     b.streams, b.ranges, b.current, b.pending)
    case SeekMissed(pts, flags) =>
      && pts != NOPTS && (!seekable || flags.factor || NoneCovers(a.ranges, pts))
      && b.pending == PendingSeek(true, flags, pts)
      && (if seekable then NewId(a.ranges, b.current) else b.current == a.current)
      && FreshOutcome(UnreadAll(a.streams), a.ranges, seekable, b.current, b.streams, b.ranges)
    case SeekExecuted =>
      a.pending.queued && b == a.(pending := a.pending.(queued := false))
    case Flushed =>
      && a.ranges != []
      && b == a.(streams := UnreadAll(a.streams), ranges := [ClearedRange(a.ranges[|a.ranges| - 1])])
    case SelectionChanges(n) =>
      && n < |a.streams| && b == a.(streams := b.streams, ranges := b.ranges)
      && SelectionOutcome(Toggled(a.streams, n), a.ranges, n, b.streams, b.ranges)
    case StreamAdded(kind, picture, autoselect) =>
      && b == a.(streams := b.streams, ranges := b.ranges)
      && SelectionOutcome(a.streams + [NewStream(kind, picture, autoselect, a.current)], Widened(a.ranges), |a.streams|,
                          b.streams, b.ranges)
    case RefreshQueued(n, refPts, canSeek) =>
      && a.ranges != [] && b == a.(streams := b.streams, pending := b.pending)
      && RefreshOutcome(a.streams, a.ranges[|a.ranges| - 1].queues, a.pending, n, refPts, canSeek, b.streams, b.pending)
  }

  function Toggled(ss: seq<Stream>, n: nat): seq<Stream>
    requires n < |ss|
  {
    ss[n := ss[n].(selected := !ss[n].selected)]
  }

  predicate ReadableReader(s: Stream, q: Queue) {
    s.reader.PacketAt? && q.Holds(s.reader.num)
    && s.fwPacks > 0 && s.fwBytes >= EstimateSize(q.Get(s.reader.num).media)
  }

  predicate NoneCovers(rs: seq<Range>, pts: real) {
    forall r :: 0 <= r < |rs| ==> !Covers(rs[r], pts)
  }

  predicate NewId(rs: seq<Range>, id: nat) {
    forall r :: 0 <= r < |rs| ==> rs[r].id != id
  }

  ghost predicate IsRun(trace: seq<Cache>, events: seq<CacheEvent>, seekable: bool) {
    && |trace| == |events| + 1
    && forall i :: 0 <= i < |events| ==> Happens(trace[i], events[i], seekable, trace[i + 1])
  }
}
