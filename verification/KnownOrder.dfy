/** What the cache knows of a stream's order holds in every cached range: over every run, a stream that
    counts as ordered by dts, or by pos, has been so in each of its queues. Resuming a range and joining
    ranges rely on it. */
module KnownOrder {
  import opened Timestamps
  import opened PacketQueue
  import opened CachedRanges
  import opened CacheRuns
  import Pruning
  import RangeJoin
  import SeekCompleteness

  predicate KnownOf(q: Queue, s: Stream) {
    (s.globalCorrectDts ==> q.correctDts) && (s.globalCorrectPos ==> q.correctPos)
  }

  predicate RangeKnown(x: Range, ss: seq<Stream>) {
    |x.queues| == |ss| && forall n :: 0 <= n < |ss| ==> KnownOf(x.queues[n], ss[n])
  }

  predicate AllKnown(rs: seq<Range>, ss: seq<Stream>) {
    forall r :: 0 <= r < |rs| ==> RangeKnown(rs[r], ss)
  }

  /** Of no stream more is known than before. */
  predicate NoMoreKnown(ss: seq<Stream>, ts: seq<Stream>) {
    && |ss| == |ts|
    && forall n :: 0 <= n < |ss| ==>
         (ts[n].globalCorrectDts ==> ss[n].globalCorrectDts) && (ts[n].globalCorrectPos ==> ss[n].globalCorrectPos)
  }

  lemma KnownFor(rs: seq<Range>, ss: seq<Stream>, ts: seq<Stream>)
    requires AllKnown(rs, ss) && NoMoreKnown(ss, ts)
    ensures AllKnown(rs, ts)
  {
    forall r | 0 <= r < |rs| ensures RangeKnown(rs[r], ts) {
      assert RangeKnown(rs[r], ss);
    }
  }

  lemma ReplacedKnown(rs: seq<Range>, r: nat, y: Range, ss: seq<Stream>)
    requires AllKnown(rs, ss) && r < |rs| && RangeKnown(y, ss)
    ensures AllKnown(rs[r := y], ss)
  {
    hide RangeKnown;
  }

  lemma FreedKnown(rs: seq<Range>, ss: seq<Stream>)
    requires rs != [] && AllKnown(rs, ss)
    ensures AllKnown(Freed(rs), ss)
  {
    hide RangeKnown;
    var k := Freed(rs);
    forall r | 0 <= r < |k| ensures RangeKnown(k[r], ss) {
      assert k[r] in k;
      SeekCompleteness.TrimFrom(Kept(rs, 0), MAX_SEEK_RANGES, k[r]);
      SeekCompleteness.KeptFrom(rs, 0, k[r]);
    }
  }

  predicate BlankQueue(q: Queue) { q.correctDts && q.correctPos }

  lemma BlankKnown(x: Range, ss: seq<Stream>)
    requires |x.queues| == |ss| && forall n :: 0 <= n < |x.queues| ==> BlankQueue(x.queues[n])
    ensures RangeKnown(x, ss)
  {
  }

  // ---------- adding, joining, ending ----------

  lemma AdjustedFlags(q: Queue, l: Link)
    requires Readable(q) && q.HoldsLink(l)
    ensures Adjusted(q, l).correctDts == q.correctDts && Adjusted(q, l).correctPos == q.correctPos
  {
  }

  lemma AdjustedKnown(x: Range, ss: seq<Stream>, n: nat, l: Link)
    requires RangeKnown(x, ss) && n < |ss| && Readable(x.queues[n]) && x.queues[n].HoldsLink(l)
    ensures RangeKnown(AdjustedRange(x, ss, n, l), ss)
  {
    hide Adjusted, SeekWindow;
    AdjustedFlags(x.queues[n], l);
  }

  lemma JoinedFlags(s: Stream, q1: Queue, q2: Queue)
    requires RangeJoin.Joinable(q1, Remaining(s, q1, q2)) && KnownOf(q1, s) && KnownOf(q2, s)
    ensures KnownOf(RangeJoin.Joined(q1, Remaining(s, q1, q2)), s)
  {
  }

  lemma RangeJoinedKnown(ss: seq<Stream>, x: Range, y: Range, ts: seq<Stream>, x': Range)
    requires RangeKnown(x, ss) && RangeKnown(y, ss)
    requires RangeJoined(ss, x, Remainings(ss, x.queues, y.queues), ts, x')
    ensures NoMoreKnown(ss, ts) && RangeKnown(x', ts)
  {
    hide QueueOk, ReaderOk, Remaining, SeekWindow, RangeJoin.Joined;
    var rest := Remainings(ss, x.queues, y.queues);
    forall n | 0 <= n < |ss|
      ensures KnownOf(x'.queues[n], ss[n])
      ensures ts[n].globalCorrectDts == ss[n].globalCorrectDts && ts[n].globalCorrectPos == ss[n].globalCorrectPos
    {
      assert StreamJoined(ss[n], x.id, x.queues[n], rest[n], ts[n], x'.queues[n], HandedOver(rest[n]));
      JoinedFlags(ss[n], x.queues[n], y.queues[n]);
    }
  }

  lemma JoinKnown(ss: seq<Stream>, rs: seq<Range>, p: PendingSeek, ts: seq<Stream>, rs': seq<Range>, p': PendingSeek)
    requires JoinOutcome(ss, rs, p, ts, rs', p') && AllKnown(rs, ss)
    ensures AllKnown(rs', ts)
  {
    hide RangeKnown, AllCanJoin, RangeJoined, Remainings, Freed, JoinCandidate, NoMoreKnown;
    var last, c := |rs| - 1, JoinCandidate(rs, |rs| - 1);
    if c != -1 {
      if !AllCanJoin(ss, rs[last].queues, rs[c].queues) {
        FreedKnown(RemoveAt(rs, c), ss);
      } else {
        var x := rs'[|rs'| - 1];
        RangeJoinedKnown(ss, rs[last], rs[c], ts, x);
        KnownFor(rs, ss, ts);
        FreedKnown(Remade(rs, c, x), ts);
      }
    }
  }

  lemma AdjustKnown(ss: seq<Stream>, rs: seq<Range>, p: PendingSeek, n: nat, l: Link,
                    ts: seq<Stream>, rs': seq<Range>, p': PendingSeek)
    requires AdjustOutcome(ss, rs, p, n, l, ts, rs', p') && AllKnown(rs, ss)
    ensures AllKnown(rs', ts)
  {
    hide RangeKnown, JoinOutcome, AdjustedRange;
    var x := rs[|rs| - 1];
    var y := AdjustedRange(x, ss, n, l);
    AdjustedKnown(x, ss, n, l);
    ReplacedKnown(rs, |rs| - 1, y, ss);
    if y.seekEnd > x.seekEnd {
      JoinKnown(ss, rs[|rs| - 1 := y], p, ts, rs', p');
    }
  }

  lemma AppendedKnown(ss: seq<Stream>, x: Range, n: nat, m: Media)
    requires RangeKnown(x, ss) && n < |ss|
    ensures RangeKnown(AppendedRange(x, n, m, ss[n].kind == Video), AddedStreams(ss, x, n, m))
    ensures NoMoreKnown(ss, AddedStreams(ss, x, n, m))
  {
    hide Appended;
  }

  lemma AddKnown(ss: seq<Stream>, rs: seq<Range>, p: PendingSeek, seekable: bool, n: nat, m: Media,
                 ts: seq<Stream>, rs': seq<Range>, p': PendingSeek)
    requires AddOutcome(ss, rs, p, seekable, n, m, ts, rs', p') && AllKnown(rs, ss)
    ensures AllKnown(rs', ts)
  {
    hide RangeKnown, AdjustOutcome, AppendedRange, AddedStreams, NoMoreKnown;
    var x := rs[|rs| - 1];
    if m.len == 0 || !ss[n].selected || p.queued {
    } else if ss[n].refreshing {
      AsKnown(ss, ts);
      KnownFor(rs, ss, ts);
    } else {
      var a, mid := AppendedRange(x, n, m, ss[n].kind == Video), AddedStreams(ss, x, n, m);
      assert RangeKnown(x, ss);
      AppendedKnown(ss, x, n, m);
      KnownFor(rs, ss, mid);
      ReplacedKnown(rs, |rs| - 1, a, mid);
      if seekable {
        AppendedTail(x, n, m, ss[n].kind == Video);
        AdjustKnown(mid, rs[|rs| - 1 := a], p, n, a.queues[n].Tail(), ts, rs', p');
      }
    }
  }

  lemma AppendedTail(x: Range, n: nat, m: Media, video: bool)
    requires n < |x.queues|
    ensures n < |AppendedRange(x, n, m, video).queues|
  {
  }

  lemma AsKnown(ss: seq<Stream>, ts: seq<Stream>)
    requires |ts| == |ss|
    requires forall n :: 0 <= n < |ss| ==>
      ts[n].globalCorrectDts == ss[n].globalCorrectDts && ts[n].globalCorrectPos == ss[n].globalCorrectPos
    ensures NoMoreKnown(ss, ts)
  {
  }

  lemma EofKnown(a: Snapshot, n: nat, seekable: bool, b: Snapshot)
    requires EofStep(a, n, seekable, b) && AllKnown(a.ranges, a.streams)
    ensures AllKnown(b.ranges, b.streams)
  {
    hide RangeKnown, AdjustOutcome;
    if !a.streams[n].eof {
      var ts :| EofAdjusted(a, n, seekable, b, ts);
      if seekable {
        AdjustKnown(a.streams, a.ranges, a.pending, n, Null, ts, b.ranges, b.pending);
      }
      KnownFor(b.ranges, ts, b.streams);
    }
  }

  // ---------- seeking ----------

  lemma LeftBehindFlags(q: Queue)
    ensures LeftBehind(q).correctDts == q.correctDts && LeftBehind(q).correctPos == q.correctPos
  {
  }

  lemma BackgroundedKnown(x: Range, ss: seq<Stream>, y: Range)
    requires RangeKnown(x, ss) && Backgrounded(x, ss, y)
    ensures RangeKnown(y, ss)
  {
    hide QueueOk, LeftBehind, QueuesOk;
    forall n | 0 <= n < |ss| ensures KnownOf(y.queues[n], ss[n]) {
      LeftBehindFlags(x.queues[n]);
    }
  }

  lemma SwitchKnown(m: seq<Range>, ss: seq<Stream>, rs': seq<Range>, y: Range)
    requires |m| >= 2 && AllKnown(m, ss) && SwitchedAway(m, ss, rs', y)
    ensures AllKnown(rs', ss)
  {
    hide RangeKnown, Backgrounded, Freed;
    BackgroundedKnown(m[|m| - 2], ss, y);
    ReplacedKnown(m, |m| - 2, y, ss);
    FreedKnown(m[|m| - 2 := y], ss);
  }

  lemma SeekKnown(ss: seq<Stream>, rs: seq<Range>, cur: nat, p: PendingSeek, pts: real, flags: SeekFlags, r: nat,
                  ts: seq<Stream>, rs': seq<Range>, cur': nat, p': PendingSeek)
    requires SeekOutcome(ss, rs, cur, p, pts, flags, r, ts, rs', cur', p') && AllKnown(rs, ss)
    ensures AllKnown(rs', ts)
  {
    hide RangeKnown, QueuesOk, SwitchedAway, SeekTo, QueueOk;
    var sought := SeekedAll(ss, rs[r], SeekTo(rs[r], ss, 0, pts, flags));
    AsKnown(ss, sought);
    KnownFor(rs, ss, sought);
    if rs[r].id != cur {
      var m := MovedToEnd(rs, r);
      var y :| SwitchedAway(m, sought, rs', y);
      SwitchKnown(m, sought, rs', y);
      AsKnown(sought, ts);
      KnownFor(rs', sought, ts);
    }
  }

  lemma FreshKnown(ss: seq<Stream>, rs: seq<Range>, seekable: bool, id: nat, ts: seq<Stream>, rs': seq<Range>)
    requires FreshOutcome(ss, rs, seekable, id, ts, rs') && AllKnown(rs, ss)
    ensures AllKnown(rs', ts)
  {
    hide SwitchedAway;
    assert RangeKnown(rs[|rs| - 1], ss);
    if seekable {
      var m := rs + [EmptyRange(id, |ss|)];
      var y :| SwitchedAway(m, ss, rs', y);
      BlankKnown(EmptyRange(id, |ss|), ss);
      hide RangeKnown;
      SwitchKnown(m, ss, rs', y);
      AsKnown(ss, ts);
      KnownFor(rs', ss, ts);
    } else {
      BlankKnown(ClearedRange(rs[|rs| - 1]), ss);
      ReplacedKnown(rs, |rs| - 1, ClearedRange(rs[|rs| - 1]), ss);
    }
  }

  // ---------- pruning and selecting ----------

  lemma PruneKnown(rs: seq<Range>, ss: seq<Stream>, seekable: bool, current: nat, v: nat, rs': seq<Range>)
    requires rs != [] && v < |rs[0].queues| == |ss| && AllKnown(rs, ss)
    requires Pruning.PrunedVictimOutcome(rs, ss, seekable, current, v, rs')
    ensures AllKnown(rs', ss)
  {
    hide Freed, SeekWindow, QueueOk;
    assert RangeKnown(rs[0], ss);
    var y := Pruning.VictimPruned(rs, ss, seekable, v);
    assert RangeKnown(y, ss);
    hide RangeKnown, Pruning.VictimPruned;
    ReplacedKnown(rs, 0, y, ss);
    if rs' != rs[0 := y] {
      FreedKnown(rs[0 := y], ss);
    }
  }

  lemma SelectionKnown(ss: seq<Stream>, rs: seq<Range>, n: nat, ts: seq<Stream>, rs': seq<Range>)
    requires SelectionOutcome(ss, rs, n, ts, rs') && AllKnown(rs, ss)
    ensures AllKnown(rs', ts)
  {
    hide Freed, SeekWindow, AnyAv;
    var reset := ss[n := Reselected(ss[n])];
    var renewed := Renewed(rs, reset, n);
    forall r | 0 <= r < |renewed| ensures RangeKnown(renewed[r], reset) {
      assert RangeKnown(rs[r], ss);
    }
    AsKnown(reset, ts);
    hide RangeKnown, NoMoreKnown;
    FreedKnown(renewed, reset);
    KnownFor(rs', reset, ts);
  }

  lemma WidenedKnown(rs: seq<Range>, ss: seq<Stream>, s: Stream)
    requires AllKnown(rs, ss)
    ensures AllKnown(Widened(rs), ss + [s])
  {
    forall r | 0 <= r < |rs| ensures RangeKnown(Widened(rs)[r], ss + [s]) {
      assert RangeKnown(rs[r], ss);
    }
  }

  // ---------- runs ----------

  lemma HappensKnown(a: Cache, e: CacheEvent, seekable: bool, b: Cache)
    requires Happens(a, e, seekable, b) && AllKnown(a.ranges, a.streams)
    ensures AllKnown(b.ranges, b.streams)
  {
    hide RangeKnown, AddOutcome, EofStep, SeekOutcome, FreshOutcome, ReaderOk, Covers, SelectionOutcome;
    hide Pruning.PrunedVictimOutcome, NoMoreKnown, NewStream, Widened;
    match e {
      case PacketArrives(n, m) =>
        AddKnown(a.streams, a.ranges, a.pending, seekable, n, m, b.streams, b.ranges, b.pending);
      case InputEnds(n) =>
        EofKnown(Snapshot(a.streams, a.ranges, a.pending), n, seekable, Snapshot(b.streams, b.ranges, b.pending));
      case Pruned(_, v) =>
        PruneKnown(a.ranges, a.streams, seekable, a.current, v, b.ranges);
      case Flushed =>
        FlushedKnown(a.ranges, a.streams);
      case SeekServed(pts, flags, r) =>
        AsKnown(a.streams, UnreadAll(a.streams));
        KnownFor(a.ranges, a.streams, UnreadAll(a.streams));
        SeekKnown(UnreadAll(a.streams), a.ranges, a.current, a.pending, pts, flags, r,
                  b.streams, b.ranges, b.current, b.pending);
      case SeekMissed(_, _) =>
        AsKnown(a.streams, UnreadAll(a.streams));
        KnownFor(a.ranges, a.streams, UnreadAll(a.streams));
        FreshKnown(UnreadAll(a.streams), a.ranges, seekable, b.current, b.streams, b.ranges);
      case SelectionChanges(n) =>
        AsKnown(a.streams, Toggled(a.streams, n));
        KnownFor(a.ranges, a.streams, Toggled(a.streams, n));
        SelectionKnown(Toggled(a.streams, n), a.ranges, n, b.streams, b.ranges);
      case StreamAdded(kind, picture, autoselect) =>
        WidenedKnown(a.ranges, a.streams, NewStream(kind, picture, autoselect, a.current));
        SelectionKnown(a.streams + [NewStream(kind, picture, autoselect, a.current)], Widened(a.ranges), |a.streams|,
                       b.streams, b.ranges);
      case _ =>
        AsKnown(a.streams, b.streams);
        KnownFor(a.ranges, a.streams, b.streams);
    }
  }

  lemma FlushedKnown(rs: seq<Range>, ss: seq<Stream>)
    requires rs != [] && AllKnown(rs, ss)
    ensures AllKnown([ClearedRange(rs[|rs| - 1])], UnreadAll(ss))
  {
    assert RangeKnown(rs[|rs| - 1], ss);
    BlankKnown(ClearedRange(rs[|rs| - 1]), UnreadAll(ss));
  }

  /** Whatever happens to the cache - packets in any order, joins, seeks, pruning, selections - a stream
      that still counts as ordered by dts, or by pos, was so in the queue of every range. */
  lemma {:induction false} EveryRunKnowsOrder(trace: seq<Cache>, events: seq<CacheEvent>, seekable: bool, i: nat)
    requires IsRun(trace, events, seekable) && i < |trace| && AllKnown(trace[0].ranges, trace[0].streams)
    ensures AllKnown(trace[i].ranges, trace[i].streams)
  {
    hide Happens, AllKnown;
    if i > 0 {
      EveryRunKnowsOrder(trace, events, seekable, i - 1);
      HappensKnown(trace[i - 1], events[i - 1], seekable, trace[i]);
    }
  }
}
