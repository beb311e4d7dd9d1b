/** What the cache's operations mean for a reader: the packets ahead of it only ever grow at the end,
    and joining ranges neither repeats nor skips a packet. */
module CacheGuarantees {
  import opened Timestamps
  import opened PacketQueue
  import opened CachedRanges
  import opened RefreshSeek
  import RangeJoin
  import SeekCompleteness
  import SeekIndex

  lemma MediasConcat(a: seq<Packet>, b: seq<Packet>)
    ensures Medias(a + b) == Medias(a) + Medias(b)
  {
  }

  lemma MediasFrom(ps: seq<Packet>, rs: seq<Packet>, k: nat)
    requires Medias(ps) == Medias(rs) && k <= |ps|
    ensures |ps| == |rs| && Medias(ps[k..]) == Medias(rs[k..])
  {
    assert |Medias(ps)| == |Medias(rs)|;
    assert Medias(ps[k..]) == Medias(ps)[k..];
    assert Medias(rs[k..]) == Medias(rs)[k..];
  }

  /** What is ahead of the reader, without the rest of stream and queue. */
  function Ahead(reader: Ref, base: nat, ps: seq<Packet>): seq<Packet> {
    if reader.PacketAt? && base <= reader.num < base + |ps| then ps[reader.num - base..] else []
  }

  lemma AheadIsForward(s: Stream, q: Queue)
    ensures Forward(s, q) == Ahead(s.reader, q.base, q.packets)
  {
  }

  lemma AheadGrows(reader: Ref, base: nat, ps: seq<Packet>, more: seq<Packet>)
    requires reader.PacketAt? && base <= reader.num < base + |ps|
    ensures Ahead(reader, base, ps + more) == Ahead(reader, base, ps) + more
  {
  }

  lemma AheadMedias(reader: Ref, base: nat, ps: seq<Packet>, rs: seq<Packet>)
    requires Medias(ps) == Medias(rs)
    ensures Medias(Ahead(reader, base, ps)) == Medias(Ahead(reader, base, rs))
  {
    assert |Medias(ps)| == |Medias(rs)|;
    if reader.PacketAt? && base <= reader.num < base + |ps| {
      MediasFrom(ps, rs, reader.num - base);
    }
  }

  /** Where the reader is once `m` is appended. */
  lemma ReaderAfterAppend(s: Stream, q: Queue, m: Media)
    ensures var a := Appended(q, m, s.kind == Video);
      AfterAppend(s, a, m).reader ==
        if s.reader.NoPacket? && (!s.skipToKeyframe || m.keyframe) then PacketAt(s.queue, q.End()) else s.reader
  {
  }

  lemma AppendedAhead(s: Stream, id: nat, q: Queue, m: Media)
    requires ReaderOk(s, id, q)
    ensures var a := Appended(q, m, s.kind == Video);
      Ahead(AfterAppend(s, a, m).reader, a.base, a.packets) ==
        if s.reader.NoPacket? && s.skipToKeyframe && !m.keyframe then []
        else Forward(s, q) + [Packet(NormalPts(m, s.kind == Video), NOPTS)]
  {
    ReaderAfterAppend(s, q, m);
    AheadIsForward(s, q);
    hide AfterAppend, NormalPts;
    if s.reader.PacketAt? {
      AheadGrows(s.reader, q.base, q.packets, [Packet(NormalPts(m, s.kind == Video), NOPTS)]);
    }
  }

  /** A packet taken is read after everything that was already ahead of the reader; a reader that had
      run out gets it next, unless it waits for a keyframe and this is none. */
  lemma {:induction false} TakenIsReadLast(s: Stream, id: nat, q: Queue, m: Media)
    requires QueueOk(q) && ReaderOk(s, id, q)
    ensures Readable(q)
    ensures var video := s.kind == Video;
      var t := AfterAppend(s, Appended(q, m, video), m);
      Medias(Forward(t, Added(q, m, video))) ==
        if s.reader.NoPacket? && s.skipToKeyframe && !m.keyframe then []
        else Medias(Forward(s, q)) + [NormalPts(m, video)]
  {
    hide QueueOk, Adjusted, NormalPts, AfterAppend, Ahead, Readable, Forward, ReaderAt;
    ReadableIfOk(q);
    var video := s.kind == Video;
    var a := Appended(q, m, video);
    var t := AfterAppend(s, a, m);
    var p := Packet(NormalPts(m, video), NOPTS);
    AppendedAhead(s, id, q, m);
    AheadIsForward(t, Added(q, m, video));
    AddedMedias(q, m, video);
    AheadMedias(t.reader, q.base, Added(q, m, video).packets, a.packets);
    MediasConcat(Forward(s, q), [p]);
    assert Medias([p]) == [NormalPts(m, video)];
  }

  lemma AddedMedias(q: Queue, m: Media, video: bool)
    requires Readable(q)
    ensures Medias(Added(q, m, video).packets) == Medias(Appended(q, m, video).packets)
    ensures Added(q, m, video).base == q.base
  {
  }

  /** Joining gives a reader the second queue's packets after its own; but one that had run out
      stays without packets, although the joined queue may hold packets it has not read. */
  lemma {:induction false} JoinedIsReadLast(s: Stream, id: nat, q1: Queue, q2: Queue)
    requires ReaderOk(s, id, q1) && QueueOk(q1) && QueueOk(q2)
    ensures RangeJoin.Joinable(q1, q2)
    ensures var j := RangeJoin.Joined(q1, q2);
      Forward(JoinedStream(s, j), j) == if s.reader.PacketAt? then Forward(s, q1) + q2.packets else []
  {
    hide QueueOk, Bytes, RangeJoin.Joined, RangeJoin.TakeIndex;
    RangeJoin.OkIsJoinable(q1, q2);
    var j := RangeJoin.Joined(q1, q2);
    AheadIsForward(s, q1);
    AheadIsForward(JoinedStream(s, j), j);
    if s.reader.PacketAt? {
      AheadGrows(s.reader, q1.base, q1.packets, q2.packets);
    }
  }

  // ---------- re-delivered packets ----------

  /** Packets of stream `n` can be added. */
  ghost predicate Ready(a: Snapshot, n: nat) {
    && a.ranges != [] && n < |a.streams| == |a.ranges[|a.ranges| - 1].queues|
    && a.streams[n].selected && !a.pending.queued
  }

  function QueueOf(a: Snapshot, n: nat): Queue
    requires a.ranges != [] && n < |a.ranges[|a.ranges| - 1].queues|
  {
    a.ranges[|a.ranges| - 1].queues[n]
  }

  ghost predicate Adds(a: Snapshot, n: nat, m: Media, seekable: bool, b: Snapshot) {
    AddOutcome(a.streams, a.ranges, a.pending, seekable, n, m, b.streams, b.ranges, b.pending)
  }

  lemma {:induction false} AddedNext(a: Snapshot, n: nat, m: Media, seekable: bool, b: Snapshot)
    requires Ready(a, n) && Adds(a, n, m, seekable, b) && m.len != 0 && !b.pending.queued
    ensures Ready(b, n) && b.streams[n].kind == a.streams[n].kind
    ensures if a.streams[n].refreshing
            then QueueOf(b, n) == QueueOf(a, n) && b.streams[n].refreshing == StillBehind(QueueOf(a, n), m)
            else !b.streams[n].refreshing && Medias(QueueOf(b, n).packets)
                   == Medias(QueueOf(a, n).packets) + [NormalPts(m, a.streams[n].kind == Video)]
  {
    hide Appended, Adjusted, JoinCandidate, AllCanJoin, Freed, Readable, NormalPts, SeekWindow, StillBehind;
    if !a.streams[n].refreshing {
      var q := Appended(QueueOf(a, n), m, a.streams[n].kind == Video);
      MediasConcat(QueueOf(a, n).packets, [Packet(NormalPts(m, a.streams[n].kind == Video), NOPTS)]);
    }
  }

  ghost predicate DeliversAt(trace: seq<Snapshot>, n: nat, ms: seq<Media>, seekable: bool, i: nat)
    requires i < |ms| && |trace| == |ms| + 1
  {
    ms[i].len != 0 && Adds(trace[i], n, ms[i], seekable, trace[i + 1]) && !trace[i + 1].pending.queued
  }

  /** `ms` is delivered packet by packet, without any seek being queued meanwhile. */
  ghost predicate Delivers(trace: seq<Snapshot>, n: nat, ms: seq<Media>, seekable: bool) {
    |trace| == |ms| + 1 && forall i :: 0 <= i < |ms| ==> DeliversAt(trace, n, ms, seekable, i)
  }

  lemma LaterDelivers(trace: seq<Snapshot>, n: nat, ms: seq<Media>, seekable: bool)
    requires Delivers(trace, n, ms, seekable) && ms != []
    ensures ms[0].len != 0 && Adds(trace[0], n, ms[0], seekable, trace[1]) && !trace[1].pending.queued
    ensures Delivers(trace[1..], n, ms[1..], seekable)
  {
    hide Adds;
    assert DeliversAt(trace, n, ms, seekable, 0);
    forall i | 0 <= i < |ms| - 1 ensures DeliversAt(trace[1..], n, ms[1..], seekable, i) {
      assert DeliversAt(trace, n, ms, seekable, i + 1);
    }
  }

  /** What a stream takes of the packets delivered to it, one by one, is what `Taken` says: while it
      is refreshing, nothing up to the first packet that is not before the queue's end, and then
      everything. */
  lemma {:induction false} DeliveryTakes(trace: seq<Snapshot>, n: nat, ms: seq<Media>, seekable: bool)
    requires Delivers(trace, n, ms, seekable) && Ready(trace[0], n)
    ensures Ready(trace[|ms|], n)
    ensures var a := trace[0]; var s := a.streams[n];
      Medias(QueueOf(trace[|ms|], n).packets)
        == Medias(QueueOf(a, n).packets) + Normal(Taken(QueueOf(a, n), s.refreshing, ms), s.kind == Video)
    decreases |ms|
  {
    hide Adds, Delivers, StillBehind, NormalPts, Medias, Normal;
    DeliversCount(trace, n, ms, seekable);
    var video := trace[0].streams[n].kind == Video;
    TakenUnfold(QueueOf(trace[0], n), trace[0].streams[n].refreshing, ms, video);
    if ms != [] {
      LaterDelivers(trace, n, ms, seekable);
      AddedNext(trace[0], n, ms[0], seekable, trace[1]);
      DeliveryTakes(trace[1..], n, ms[1..], seekable);
      TakenUnfold(QueueOf(trace[1], n), false, ms[1..], video);
    }
  }

  lemma DeliversCount(trace: seq<Snapshot>, n: nat, ms: seq<Media>, seekable: bool)
    requires Delivers(trace, n, ms, seekable)
    ensures |trace| == |ms| + 1
  {
  }

  lemma TakenUnfold(q: Queue, refreshing: bool, ms: seq<Media>, video: bool)
    ensures ms == [] || !refreshing ==> Taken(q, refreshing, ms) == ms
    ensures Normal([], video) == []
    ensures ms != [] ==> Normal(ms, video) == [NormalPts(ms[0], video)] + Normal(ms[1..], video)
    ensures ms != [] && refreshing ==> Taken(q, true, ms) == Taken(q, StillBehind(q, ms[0]), ms[1..])
  {
  }

  /** Queue `n` of the current range and of range `k` are contiguous pieces of one source, ordered
      by what the stream is known to be ordered by. */
  ghost predicate PiecesOfSource(ss: seq<Stream>, rs: seq<Range>, k: nat, n: nat,
                                 src: seq<Media>, a: nat, b: nat, c: nat, d: nat)
  {
    && k < |rs| && n < |ss| && n < |rs[|rs| - 1].queues| && n < |rs[k].queues|
    && RangeJoin.Increasing(src, OrderOf(ss[n]))
    && RangeJoin.Window(rs[|rs| - 1].queues[n], src, a, b) && a < b
    && RangeJoin.Window(rs[k].queues[n], src, c, d) && QueueOk(rs[k].queues[n])
  }

  /** The current range holds the source's packets from `a` up to `d`, correctly counted. */
  ghost predicate HoldsPiece(ts: seq<Stream>, x: Range, n: nat, src: seq<Media>, a: nat, d: nat) {
    && n < |x.queues| && n < |ts| && RangeJoin.Window(x.queues[n], src, a, d)
    && ReaderOk(ts[n], x.id, x.queues[n])
  }

  /** The join of whole ranges, stream by stream: if both ranges hold contiguous pieces of one
      source, either nothing happens to the current range, or each of its eagerly read streams now
      holds exactly the piece that spans both, with the reader's forward packets counted right. */
  lemma {:induction false} JoinUnites(ss: seq<Stream>, rs: seq<Range>, p: PendingSeek,
                                      ts: seq<Stream>, rs': seq<Range>, p': PendingSeek,
                                      k: nat, n: nat, src: seq<Media>, a: nat, b: nat, c: nat, d: nat)
    requires JoinOutcome(ss, rs, p, ts, rs', p') && JoinCandidate(rs, |rs| - 1) == k
    requires PiecesOfSource(ss, rs, k, n, src, a, b, c, d) && ss[n].eager
    ensures rs' != []
    ensures || (ts == ss && p' == p && rs'[|rs'| - 1] == rs[|rs| - 1])
            || HoldsPiece(ts, rs'[|rs'| - 1], n, src, a, d)
  {
    hide QueueOk, JoinCandidate, Freed, SeekWindow, ReaderOk;
    var last := |rs| - 1;
    var q1, q2 := rs[last].queues[n], rs[k].queues[n];
    if AllCanJoin(ss, rs[last].queues, rs[k].queues) {
      assert CanJoin(ss[n], q1, q2);
      assert StreamJoined(ss[n], rs[last].id, q1, Remaining(ss[n], q1, q2), ts[n], rs'[|rs'| - 1].queues[n],
                          HandedOver(Remaining(ss[n], q1, q2)));
      WindowTail(q1, src, a, b);
      HasLinks(q2);
      RangeJoin.JoinIsWindowUnion(src, q1, a, b, q2, c, d, OrderOf(ss[n]));
    }
  }

  lemma HasLinks(q: Queue)
    requires QueueOk(q)
    ensures q.HoldsLink(q.keyframeLatest)
  {
  }

  lemma WindowTail(q: Queue, src: seq<Media>, a: nat, b: nat)
    requires RangeJoin.Window(q, src, a, b) && a < b
    ensures q.packets != [] && q.packets[|q.packets| - 1].media == src[b - 1]
  {
    assert |Medias(q.packets)| == b - a;
    assert Medias(q.packets)[b - a - 1] == src[b - 1];
  }

  // ---------- the joined window ----------

  /** Range `i` can be joined to the current one: it begins inside the current one's window. */
  predicate Overlaps(rs: seq<Range>, i: nat)
    requires i < |rs|
  {
    rs[|rs| - 1].seekStart <= rs[i].seekStart < rs[|rs| - 1].seekEnd
  }

  /** Joining is tried with the overlapping range that begins last, the first one of several. */
  lemma {:induction false} CandidateIs(rs: seq<Range>, n: nat)
    requires rs != [] && n < |rs|
    ensures var c := JoinCandidate(rs, n);
      if c == -1 then forall i :: 0 <= i < n ==> !Overlaps(rs, i)
      else Overlaps(rs, c) && forall i :: 0 <= i < n && Overlaps(rs, i) ==>
             rs[i].seekStart <= rs[c].seekStart && (i < c ==> rs[i].seekStart < rs[c].seekStart)
  {
    if n > 0 {
      CandidateIs(rs, n - 1);
    }
  }

  /** The queues keep the first ones' starts and take the second ones' ends. */
  predicate JoinedBounds(q1s: seq<Queue>, q2s: seq<Queue>, js: seq<Queue>) {
    && |q1s| == |q2s| == |js|
    && forall i :: 0 <= i < |js| ==>
         && js[i].seekStart == q1s[i].seekStart && js[i].lastPruned == q1s[i].lastPruned
         && js[i].seekEnd == q2s[i].seekEnd
  }

  lemma {:induction false} JoinedEager(q1s: seq<Queue>, q2s: seq<Queue>, js: seq<Queue>, ss: seq<Stream>, n: nat)
    requires JoinedBounds(q1s, q2s, js) && n <= |ss| == |js|
    ensures EagerWindow(js, ss, n) == Window(EagerWindow(q1s, ss, n).start, EagerWindow(q2s, ss, n).end)
    ensures forall start :: SparseStart(js, ss, n, start) == SparseStart(q1s, ss, n, start)
  {
    if n > 0 {
      JoinedEager(q1s, q2s, js, ss, n - 1);
    }
  }

  lemma JoinedWindow(q1s: seq<Queue>, q2s: seq<Queue>, js: seq<Queue>, ss: seq<Stream>)
    requires JoinedBounds(q1s, q2s, js) && |ss| == |js| && AllTimed(q1s) && AllTimed(q2s)
    requires NOPTS < SeekWindow(q1s, ss).start <= SeekWindow(q2s, ss).start
    ensures SeekWindow(js, ss) == Window(SeekWindow(q1s, ss).start, SeekWindow(q2s, ss).end)
  {
    hide EagerWindow, SparseStart, Timed;
    var w1, w2 := SeekWindow(q1s, ss), SeekWindow(q2s, ss);
    WindowIsIntersection(q1s, ss, w1.start, w1.start + 1.0);
    WindowIsIntersection(q2s, ss, w2.end, w2.end + 1.0);
    JoinedEager(q1s, q2s, js, ss, |ss|);
    forall i | 0 <= i < |ss| && Restricts(ss[i]) ensures !Empty(js[i]) {
      assert q1s[i].seekStart <= w1.start && w2.end <= q2s[i].seekEnd;
    }
  }

  lemma RemainingBounds(s: Stream, q1: Queue, q2: Queue)
    ensures Remaining(s, q1, q2).seekEnd == q2.seekEnd
  {
  }

  lemma RangeJoinedBounds(ss: seq<Stream>, x: Range, y: Range, ts: seq<Stream>, x': Range)
    requires |x.queues| == |y.queues| == |ss| && RangeJoined(ss, x, Remainings(ss, x.queues, y.queues), ts, x')
    ensures JoinedBounds(x.queues, y.queues, x'.queues) && |ts| == |ss|
    ensures forall n :: 0 <= n < |ss| ==>
      ts[n].selected == ss[n].selected && ts[n].eager == ss[n].eager && ts[n].refreshing == ss[n].selected
  {
    hide QueueOk, ReaderOk, Remaining, SeekWindow;
    var rest := Remainings(ss, x.queues, y.queues);
    forall n | 0 <= n < |ss|
      ensures var j := x'.queues[n]; j.seekStart == x.queues[n].seekStart && j.lastPruned == x.queues[n].lastPruned
      ensures x'.queues[n].seekEnd == y.queues[n].seekEnd
      ensures ts[n].selected == ss[n].selected && ts[n].eager == ss[n].eager && ts[n].refreshing == ss[n].selected
    {
      assert StreamJoined(ss[n], x.id, x.queues[n], rest[n], ts[n], x'.queues[n], HandedOver(rest[n]));
      RemainingBounds(ss[n], x.queues[n], y.queues[n]);
    }
  }

  predicate HasItsWindow(x: Range, ss: seq<Stream>) {
    |x.queues| == |ss| && AllTimed(x.queues) && Window(x.seekStart, x.seekEnd) == SeekWindow(x.queues, ss)
  }

  /** A stream's queues can be joined if its order is known and they meet; one that is read lazily may also
      have nothing where they would, unless there is something that is nearly the same. */
  lemma CanJoinIs(s: Stream, q1: Queue, q2: Queue)
    ensures var known := s.globalCorrectDts || s.globalCorrectPos;
      if q1.packets == [] then CanJoin(s, q1, q2) <==> known
      else
        var j := RangeJoin.Overlap(q2, q1.packets[|q1.packets| - 1].media,
                                   RangeJoin.Order(s.globalCorrectDts, s.globalCorrectPos), 0);
        CanJoin(s, q1, q2) <==> known && !j.GiveUp? && (j.Missing? ==> !s.eager)
  {
  }

  /** If a range with a window is joined, its window goes on from its start to the end of the range
      taken over, and the demuxer is sent to a second before that end. So the joined range covers
      exactly what the two covered, unless the range taken over ended first: then it covers less. */
  lemma {:induction false} JoinCoversBoth(ss: seq<Stream>, rs: seq<Range>, p: PendingSeek,
                                          ts: seq<Stream>, rs': seq<Range>, p': PendingSeek, c: nat)
    requires JoinOutcome(ss, rs, p, ts, rs', p') && c == JoinCandidate(rs, |rs| - 1)
    requires |rs[|rs| - 1].queues| == |rs[c].queues| == |ss| && AllCanJoin(ss, rs[|rs| - 1].queues, rs[c].queues)
    requires HasItsWindow(rs[|rs| - 1], ss) && HasItsWindow(rs[c], ss) && rs[|rs| - 1].seekStart != NOPTS
    ensures var x, y, x' := rs[|rs| - 1], rs[c], rs'[|rs'| - 1];
      && x'.id == x.id && x'.seekStart == x.seekStart && x'.seekEnd == y.seekEnd
      && (x.seekEnd <= y.seekEnd <==> forall pts :: Covers(x', pts) <==> Covers(x, pts) || Covers(y, pts))
      && (x.seekEnd <= y.seekEnd <==> forall pts :: Covers(x, pts) ==> Covers(x', pts))
    ensures |ts| == |ss| && forall n :: 0 <= n < |ss| ==> ts[n].refreshing == ss[n].selected
    ensures p' == PendingSeek(true, SeekFlags(false, false, true), rs'[|rs'| - 1].seekEnd - 1.0)
  {
    hide RangeJoined, AllCanJoin, Remainings, Freed, JoinCandidate, SeekWindow, AllTimed;
    var x, y, x' := rs[|rs| - 1], rs[c], rs'[|rs'| - 1];
    hide JoinOutcome;
    JoinedRange(ss, rs, p, ts, rs', p', c);
    RangeJoinedBounds(ss, x, y, ts, x');
    CandidateIs(rs, |rs| - 1);
    WindowIsIntersection(x.queues, ss, NOPTS, NOPTS + 1.0);
    WindowIsIntersection(y.queues, ss, NOPTS, NOPTS + 1.0);
    JoinedWindow(x.queues, y.queues, x'.queues, ss);
    SameWindow(x'.queues, ss, ts);
    assert Covers(x, x.seekEnd) && (Covers(x', x.seekEnd) <==> x.seekEnd <= y.seekEnd);
  }

  lemma JoinedRange(ss: seq<Stream>, rs: seq<Range>, p: PendingSeek, ts: seq<Stream>, rs': seq<Range>, p': PendingSeek,
                    c: nat)
    requires JoinOutcome(ss, rs, p, ts, rs', p') && c == JoinCandidate(rs, |rs| - 1)
    requires |rs[|rs| - 1].queues| == |rs[c].queues| == |ss| && AllCanJoin(ss, rs[|rs| - 1].queues, rs[c].queues)
    ensures rs' != []
    ensures var x, x' := rs[|rs| - 1], rs'[|rs'| - 1];
      && RangeJoined(ss, x, Remainings(ss, x.queues, rs[c].queues), ts, x')
      && |x'.queues| == |ts| && Window(x'.seekStart, x'.seekEnd) == SeekWindow(x'.queues, ts) && x'.id == x.id
    ensures p' == PendingSeek(true, SeekFlags(false, false, true), rs[c].seekEnd - 1.0)
  {
    hide StreamJoined, AllCanJoin, Remainings, Freed, JoinCandidate, SeekWindow;
  }

  // ---------- going back for a new stream ----------

  /** Stream `i` counts when it is decided how far to go back. */
  predicate Paces(s: Stream) {
    s.selected && s.kind != Sub && s.baseTs != NOPTS
  }

  /** The earliest of the reference time and the positions of all selected audio and video streams;
      a missing one counts as none. */
  lemma {:induction false} RefreshStartIs(ss: seq<Stream>, n: nat, refPts: real)
    requires n <= |ss|
    ensures var r := RefreshStart(ss, n, refPts);
      && (r == NOPTS <==> refPts == NOPTS && forall i :: 0 <= i < n ==> !Paces(ss[i]))
      && (refPts != NOPTS ==> r <= refPts)
      && (forall i :: 0 <= i < n && Paces(ss[i]) ==> r <= ss[i].baseTs)
      && (r == refPts || exists i :: 0 <= i < n && Paces(ss[i]) && r == ss[i].baseTs)
  {
    if n > 0 {
      RefreshStartIs(ss, n - 1, refPts);
      assert RefreshStart(ss, n, refPts) == RefreshStart(ss, n - 1, refPts)
             || (Paces(ss[n - 1]) && RefreshStart(ss, n, refPts) == ss[n - 1].baseTs);
    }
  }

  /** The queue has had packets since it was empty. */
  predicate HadPackets(q: Queue) {
    q.lastPos != -1 || q.lastDts != NOPTS
  }

  predicate Alone(ss: seq<Stream>, n: nat) {
    forall i :: 0 <= i < |ss| && ss[i].selected ==> i == n
  }

  predicate AllOrdered(ss: seq<Stream>, qs: seq<Queue>)
    requires |ss| == |qs|
  {
    forall i :: 0 <= i < |ss| && ss[i].selected ==> qs[i].correctDts || qs[i].correctPos
  }

  /** The selected streams that have had packets skip what they have. */
  predicate SkipWhatTheyHave(ss: seq<Stream>, qs: seq<Queue>, ts: seq<Stream>) {
    && |ss| == |qs| == |ts|
    && forall i :: 0 <= i < |ss| ==>
         ts[i] == if ss[i].selected && HadPackets(qs[i]) then ss[i].(refreshing := true) else ss[i]
  }

  lemma RefreshingIs(ss: seq<Stream>, qs: seq<Queue>, n: nat)
    requires |ss| == |qs|
    ensures SkipWhatTheyHave(ss, qs, RefreshingAll(ss, qs))
    ensures OnlySelected(ss, n) <==> Alone(ss, n)
    ensures Refreshable(ss, qs) <==> AllOrdered(ss, qs)
  {
  }

  /** Time `ts` is the earliest of the reference time and the positions of audio and video. */
  ghost predicate Earliest(ss: seq<Stream>, refPts: real, ts: real) {
    && (refPts != NOPTS ==> ts <= refPts)
    && (forall i :: 0 <= i < |ss| && Paces(ss[i]) ==> ts <= ss[i].baseTs)
    && ((refPts != NOPTS && ts == refPts) || exists i :: 0 <= i < |ss| && Paces(ss[i]) && ts == ss[i].baseTs)
  }

  lemma EarliestIs(ss: seq<Stream>, refPts: real)
    ensures var r := RefreshStart(ss, |ss|, refPts);
      if r == NOPTS then forall ts :: !Earliest(ss, refPts, ts) else Earliest(ss, refPts, r)
  {
    RefreshStartIs(ss, |ss|, refPts);
    hide RefreshStart, Paces;
  }

  /** A refresh for a newly selected stream goes back to the earliest place where a selected audio or video
      stream is read, and a second further if others are selected too; and then exactly the selected
      streams that had packets skip what they have. It is not done without a seekable input or any
      position, nor if some of several selected streams has been ordered neither by dts nor by pos. */
  lemma {:induction false} RefreshGoesBack(ss: seq<Stream>, qs: seq<Queue>, p: PendingSeek, n: nat, refPts: real,
                                           seekable: bool, ts: seq<Stream>, p': PendingSeek)
    requires RefreshOutcome(ss, qs, p, n, refPts, seekable, ts, p')
    ensures |ss| == |qs|
    ensures if seekable && (Alone(ss, n) || AllOrdered(ss, qs)) && exists t :: Earliest(ss, refPts, t) then
              && p'.queued && p'.flags == SeekFlags(false, false, true)
              && Earliest(ss, refPts, if Alone(ss, n) then p'.pts else p'.pts + 1.0)
              && (if Alone(ss, n) then ts == ss else SkipWhatTheyHave(ss, qs, ts))
            else ts == ss && p' == p
  {
    hide RefreshStart, OnlySelected, Refreshable, Alone, AllOrdered, SkipWhatTheyHave, Earliest, RefreshingAll;
    EarliestIs(ss, refPts);
    RefreshingIs(ss, qs, n);
  }

  // ---------- eagerness ----------

  /** Something is read eagerly whenever a stream other than a still picture is selected: audio and video
      always, and subtitles exactly if nothing else is there to pace them. */
  lemma EagernessIs(ss: seq<Stream>)
    ensures var ts := WithEagerness(ss);
      && (forall n :: 0 <= n < |ss| ==>
            && ts[n] == ss[n].(eager := ts[n].eager)
            && (ts[n].eager ==> ss[n].selected && !ss[n].attachedPicture)
            && (ss[n].kind != Sub ==> (ts[n].eager <==> ss[n].selected && !ss[n].attachedPicture)))
      && ((exists n :: 0 <= n < |ss| && ts[n].eager) <==>
            exists n :: 0 <= n < |ss| && ss[n].selected && !ss[n].attachedPicture)
      && (forall i, j :: 0 <= i < |ss| && 0 <= j < |ss| && ts[i].eager && ts[j].eager ==>
            (ss[i].kind == Sub <==> ss[j].kind == Sub))
  {
    var ts := WithEagerness(ss);
    if k :| 0 <= k < |ss| && ss[k].selected && !ss[k].attachedPicture && !ts[k].eager {
      var n :| 0 <= n < |ss| && ss[n].selected && !ss[n].attachedPicture && ss[n].kind != Sub;
      assert ts[n].eager;
    }
  }

  // ---------- what is not taken ----------

  /** While a seek is queued, and from a stream that is not selected, nothing is taken at all; while a
      stream resumes, only that it does may change. */
  lemma NothingTakenMeanwhile(ss: seq<Stream>, rs: seq<Range>, p: PendingSeek, seekable: bool, n: nat, m: Media,
                              ts: seq<Stream>, rs': seq<Range>, p': PendingSeek)
    requires AddOutcome(ss, rs, p, seekable, n, m, ts, rs', p') && n < |ss|
    ensures p.queued || !ss[n].selected || m.len == 0 ==> rs' == rs && ts == ss && p' == p
    ensures ss[n].refreshing ==> rs' == rs && p' == p && |ts| == |ss| && ts == ss[n := ts[n]]
    ensures ss[n].refreshing ==> n < |ts| && ts[n].(refreshing := true) == ss[n]
  {
    hide AdjustOutcome, Appended, StillBehind;
  }

  /** A packet appended gives a stream without a position the queue's newest timestamp for one, and takes
      back that the stream has ended, unless it is to ignore that; a stream waits for a keyframe no longer
      than until it gets one. */
  lemma AppendMoves(s: Stream, q: Queue, m: Media)
    ensures var a := Appended(q, m, s.kind == Video); var t := AfterAppend(s, a, m);
      && t.baseTs == (if s.baseTs == NOPTS then a.lastTs else s.baseTs)
      && (t.eof <==> s.eof && s.ignoreEof)
      && (t.skipToKeyframe <==> s.skipToKeyframe && (s.reader.PacketAt? || !m.keyframe))
      && (t.reader.NoPacket? <==> s.reader.NoPacket? && t.skipToKeyframe)
      && t.selected == s.selected && t.eager == s.eager && t.refreshing == s.refreshing && t.queue == s.queue
  {
    hide Appended;
  }

  /** Before any seek, and with a flush, every stream is as if it had not been read: without a position,
      an end or a packet ahead, and not waiting for a keyframe; but still selected, and still getting past
      what it has. */
  lemma StartOver(ss: seq<Stream>, n: nat)
    requires n < |ss|
    ensures var t, s := UnreadAll(ss)[n], ss[n];
      && t.reader.NoPacket? && t.baseTs == NOPTS && !t.eof && !t.skipToKeyframe && !t.pictureAdded
      && t.fwPacks == 0 && t.fwBytes == 0
      && t.selected == s.selected && t.eager == s.eager && t.refreshing == s.refreshing && t.queue == s.queue
      && t.kind == s.kind && t.globalCorrectDts == s.globalCorrectDts && t.globalCorrectPos == s.globalCorrectPos
  {
  }

  /** Reading moves the stream's position to the packet read, if that has a timestamp; the end of what is
      cached leaves the reader without a packet. */
  lemma ReadMoves(s: Stream, id: nat, q: Queue)
    requires ReaderOk(s, id, q) && s.reader.PacketAt?
    ensures s.fwPacks > 0 && s.fwBytes >= EstimateSize(q.Get(s.reader.num).media)
    ensures var t, m := AfterRead(s, q), q.Get(s.reader.num).media;
      && (m.dts != NOPTS ==> t.baseTs == m.dts)
      && (m.dts == NOPTS && m.pts != NOPTS ==> t.baseTs == m.pts)
      && (m.dts == NOPTS && m.pts == NOPTS ==> t.baseTs == s.baseTs)
      && (t.reader.NoPacket? <==> s.reader.num == q.End() - 1)
  {
    hide Forward;
    AfterReadReader(s, id, q);
  }

  /** Deselecting a stream drops its packets from every range that stays, and no other stream's; its
      reader is left without a packet either way. */
  lemma {:induction false} DeselectedLosesAll(ss: seq<Stream>, rs: seq<Range>, n: nat, ts: seq<Stream>, rs': seq<Range>,
                                              y: Range)
    requires SelectionOutcome(ss, rs, n, ts, rs') && y in rs'
    ensures n < |ss| == |ts| && ts[n].reader.NoPacket? && ts[n].fwPacks == 0 && !ts[n].refreshing
    ensures exists x :: x in rs && x.id == y.id && |x.queues| == |y.queues| == |ss|
                        && forall i :: 0 <= i < |ss| ==>
                             y.queues[i].packets == if i == n && !ss[n].selected then [] else x.queues[i].packets
  {
    hide SeekWindow, AnyAv, Freed;
    var reset := ss[n := Reselected(ss[n])];
    var renewed := Renewed(rs, reset, n);
    FreedFrom(renewed, y);
    var r :| 0 <= r < |renewed| && renewed[r] == y;
    assert rs[r] in rs;
  }

  lemma FreedFrom(rs: seq<Range>, y: Range)
    requires rs != [] && y in Freed(rs)
    ensures y in rs
  {
    SeekCompleteness.TrimFrom(Kept(rs, 0), MAX_SEEK_RANGES, y);
    SeekCompleteness.KeptFrom(rs, 0, y);
  }

  /** A seek into another range makes that the current one, to whose window's end the demuxer is sent with
      a second to spare; until it gets past what is cached, every selected stream waits. Within the
      current range nothing of the kind happens. */
  lemma SeekElsewhereResumes(ss: seq<Stream>, rs: seq<Range>, cur: nat, p: PendingSeek, pts: real, flags: SeekFlags,
                             r: nat, ts: seq<Stream>, rs': seq<Range>, cur': nat, p': PendingSeek)
    requires SeekOutcome(ss, rs, cur, p, pts, flags, r, ts, rs', cur', p')
    ensures r < |rs| && cur' == rs[r].id && |ts| == |ss| && rs' != []
    ensures if cur' == cur then
              p' == p && rs' == rs
              && forall n :: 0 <= n < |ss| ==>
                   ts[n].refreshing == ss[n].refreshing && ts[n].eof == ss[n].eof && ts[n].queue == ss[n].queue
            else
              p'.queued && p'.pts == rs[r].seekEnd - 1.0 && p'.flags == SeekFlags(false, false, true)
              && rs'[|rs'| - 1] == rs[r]
              && forall n :: 0 <= n < |ss| ==> ts[n].refreshing == ss[n].selected && !ts[n].eof && ts[n].queue == cur'
  {
    hide QueuesOk, SeekTo, Freed, Backgrounded, SeekIndex.SeekTarget, Forward;
    if cur' != cur {
      var sought := SeekedAll(ss, rs[r], SeekTo(rs[r], ss, 0, pts, flags));
      var y :| SwitchedAway(MovedToEnd(rs, r), sought, rs', y);
    }
  }

  /** A range is put aside with its packets only if all its selected streams can be resumed. */
  lemma KeptIsResumable(x: Range, ss: seq<Stream>, y: Range, n: nat, i: nat)
    requires Backgrounded(x, ss, y) && n < |y.queues| && y.queues[n].packets != []
    requires i < |ss| && ss[i].selected
    ensures ss[i].globalCorrectDts || ss[i].globalCorrectPos
  {
    hide LeftBehind;
  }

  /** The stream has nothing left, is still getting past what it has, or has less ahead than it should. */
  predicate LacksPackets(s: Stream, q: Queue, minSecs: real) {
    if s.refreshing then true
    else if !s.eager then false
    else if s.reader.NoPacket? then true
    else s.baseTs != NOPTS && q.lastTs != NOPTS && minSecs > 0.0 && s.baseTs <= q.lastTs < s.baseTs + minSecs
  }

  /** The demuxer is asked to read exactly if it is reading, is below the limit, and some stream lacks
      packets. At the limit, if an eager stream has nothing left, every stream without packets is told
      that it will get none. */
  lemma ReadsExactly(ss: seq<Stream>, qs: seq<Queue>, reading: bool, full: bool, minSecs: real,
                     read: bool, ts: seq<Stream>)
    requires ReadDecision(ss, qs, reading, full, minSecs, read, ts)
    ensures |ss| == |qs| == |ts|
    ensures read <==> reading && !full && exists n :: 0 <= n < |ss| && LacksPackets(ss[n], qs[n], minSecs)
    ensures var over := reading && full && exists i :: 0 <= i < |ss| && ss[i].eager && ss[i].reader.NoPacket?;
      forall n :: 0 <= n < |ss| ==>
        ts[n] == if over && ss[n].reader.NoPacket? then ss[n].(eof := true) else ss[n]
  {
    forall n | 0 <= n < |ss|
      ensures Starved(ss[n]) || Short(ss[n], qs[n], minSecs) <==> LacksPackets(ss[n], qs[n], minSecs)
      ensures Starved(ss[n]) <==> ss[n].eager && ss[n].reader.NoPacket?
    {
    }
    hide LacksPackets, Short, Starved;
  }
}
