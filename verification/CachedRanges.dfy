/** The demuxer's cached ranges as values (struct demux_cached_range and the parts of struct
    demux_stream that the cache uses), their byte counts and their seek windows. */
module CachedRanges {
  import opened Timestamps
  import opened PacketQueue
  import opened SeekIndex
  import opened RangeJoin
  import opened RefreshSeek

  const MAX_SEEK_RANGES: nat := 10

  datatype StreamType = Video | Audio | Sub

  /** A pointer to a packet: the range whose queue holds it, and its number there. */
  datatype Ref = NoPacket | PacketAt(range: nat, num: nat)

  datatype Stream = Stream(
    kind: StreamType, attachedPicture: bool,
    selected: bool, eager: bool, refreshing: bool,
    globalCorrectDts: bool, globalCorrectPos: bool,
    queue: nat,              // id of the range whose queue is read and appended to
    baseTs: real,
    fwPacks: nat, fwBytes: nat, eof: bool,
    reader: Ref, skipToKeyframe: bool, pictureAdded: bool, ignoreEof: bool)

  /** `id` is the range's identity (its address); `queues` is indexed like the streams. */
  datatype Range = Range(id: nat, queues: seq<Queue>, seekStart: real, seekEnd: real)

  // ---------- byte counts ----------

  function QueuesBytes(qs: seq<Queue>): nat {
    if qs == [] then 0 else Bytes(qs[0].packets) + QueuesBytes(qs[1..])
  }

  function RangesBytes(rs: seq<Range>): nat {
    if rs == [] then 0 else QueuesBytes(rs[0].queues) + RangesBytes(rs[1..])
  }

  lemma {:induction false} QueuesBytesUpdate(qs: seq<Queue>, n: nat, q: Queue)
    requires n < |qs|
    ensures QueuesBytes(qs[n := q]) + Bytes(qs[n].packets) == QueuesBytes(qs) + Bytes(q.packets)
    ensures Bytes(qs[n].packets) <= QueuesBytes(qs)
  {
    if n == 0 {
      assert qs[0 := q][1..] == qs[1..];
    } else {
      QueuesBytesUpdate(qs[1..], n - 1, q);
      assert qs[n := q][1..] == qs[1..][n - 1 := q];
    }
  }

  lemma {:induction false} QueuesBytesConcat(a: seq<Queue>, b: seq<Queue>)
    ensures QueuesBytes(a + b) == QueuesBytes(a) + QueuesBytes(b)
  {
    if a == [] {
      assert a + b == b;
    } else {
      QueuesBytesConcat(a[1..], b);
      assert (a + b)[0] == a[0] && (a + b)[1..] == a[1..] + b;
    }
  }

  lemma QueuesBytesSnoc(qs: seq<Queue>, q: Queue)
    ensures QueuesBytes(qs + [q]) == QueuesBytes(qs) + Bytes(q.packets)
  {
    QueuesBytesConcat(qs, [q]);
    assert [q][1..] == [];
  }

  lemma QueuesBytesNext(qs: seq<Queue>, n: nat)
    requires n < |qs|
    ensures QueuesBytes(qs[..n + 1]) == QueuesBytes(qs[..n]) + Bytes(qs[n].packets)
  {
    QueuesBytesSnoc(qs[..n], qs[n]);
    assert qs[..n + 1] == qs[..n] + [qs[n]];
  }

  /** One more stream joined: `j` has the bytes of both queues, `h` has none. */
  lemma QueuesBytesPush(q1s: seq<Queue>, q2s: seq<Queue>, n: nat, js: seq<Queue>, hs: seq<Queue>, j: Queue, h: Queue)
    requires n < |q1s| == |q2s| && h.packets == []
    requires Bytes(j.packets) == Bytes(q1s[n].packets) + Bytes(q2s[n].packets)
    requires QueuesBytes(js) + QueuesBytes(hs) == QueuesBytes(q1s[..n]) + QueuesBytes(q2s[..n])
    ensures QueuesBytes(js + [j]) + QueuesBytes(hs + [h]) == QueuesBytes(q1s[..n + 1]) + QueuesBytes(q2s[..n + 1])
  {
    hide QueuesBytes;
    QueuesBytesSnoc(js, j);
    QueuesBytesSnoc(hs, h);
    QueuesBytesNext(q1s, n);
    QueuesBytesNext(q2s, n);
  }

  lemma {:induction false} RangesBytesUpdate(rs: seq<Range>, r: nat, x: Range)
    requires r < |rs|
    ensures RangesBytes(rs[r := x]) + QueuesBytes(rs[r].queues) == RangesBytes(rs) + QueuesBytes(x.queues)
    ensures QueuesBytes(rs[r].queues) <= RangesBytes(rs)
  {
    if r == 0 {
      assert rs[0 := x][1..] == rs[1..];
    } else {
      RangesBytesUpdate(rs[1..], r - 1, x);
      assert rs[r := x][1..] == rs[1..][r - 1 := x];
    }
  }

  lemma {:induction false} RangesBytesConcat(a: seq<Range>, b: seq<Range>)
    ensures RangesBytes(a + b) == RangesBytes(a) + RangesBytes(b)
  {
    if a == [] {
      assert a + b == b;
    } else {
      RangesBytesConcat(a[1..], b);
      assert (a + b)[0] == a[0] && (a + b)[1..] == a[1..] + b;
    }
  }

  function RemoveAt<T>(s: seq<T>, k: nat): (r: seq<T>)
    requires k < |s|
    ensures |r| == |s| - 1
  {
    s[..k] + s[k + 1..]
  }

  lemma {:induction false} RangesBytesRemove(rs: seq<Range>, k: nat)
    requires k < |rs|
    ensures RangesBytes(RemoveAt(rs, k)) + QueuesBytes(rs[k].queues) == RangesBytes(rs)
  {
    RangesBytesConcat(rs[..k], rs[k + 1..]);
    RangesBytesConcat(rs[..k], rs[k..]);
    assert rs[..k] + rs[k..] == rs;
    assert rs[k..][1..] == rs[k + 1..];
  }

  function SetQueue(rs: seq<Range>, r: nat, n: nat, q: Queue): (rs': seq<Range>)
    requires r < |rs| && n < |rs[r].queues|
    ensures |rs'| == |rs|
  {
    rs[r := rs[r].(queues := rs[r].queues[n := q])]
  }

  lemma SetQueueBytes(rs: seq<Range>, r: nat, n: nat, q: Queue)
    requires r < |rs| && n < |rs[r].queues|
    ensures RangesBytes(SetQueue(rs, r, n, q)) + Bytes(rs[r].queues[n].packets) == RangesBytes(rs) + Bytes(q.packets)
    ensures Bytes(rs[r].queues[n].packets) <= RangesBytes(rs)
  {
    QueuesBytesUpdate(rs[r].queues, n, q);
    RangesBytesUpdate(rs, r, rs[r].(queues := rs[r].queues[n := q]));
  }

  // ---------- seek windows ----------

  datatype Window = Window(start: real, end: real)

  const NO_WINDOW := Window(NOPTS, NOPTS)

  predicate Restricts(s: Stream) { s.selected && s.eager }

  predicate Sparse(s: Stream) { s.selected && !s.eager }

  /** The first `n` eager queues' common window, or None as soon as one has no window. */
  function EagerWindow(qs: seq<Queue>, ss: seq<Stream>, n: nat): (w: Window)
    requires n <= |qs| == |ss|
  {
    if n == 0 then NO_WINDOW
    else
      var w := EagerWindow(qs, ss, n - 1);
      if !Restricts(ss[n - 1]) then w
      else Window(PtsMax(w.start, qs[n - 1].seekStart), PtsMin(w.end, qs[n - 1].seekEnd))
  }

  predicate Empty(q: Queue) { q.seekStart >= q.seekEnd }

  /** Some eager queue among the first `n` has no window, so the range has none. */
  predicate Blocked(qs: seq<Queue>, ss: seq<Stream>, n: nat)
    requires n <= |qs| == |ss|
  {
    exists i :: 0 <= i < n && Restricts(ss[i]) && Empty(qs[i])
  }

  /** What pruned sparse packets take off the window's start. */
  function SparseStart(qs: seq<Queue>, ss: seq<Stream>, n: nat, start: real): real
    requires n <= |qs| == |ss|
  {
    if n == 0 then start
    else
      var s := SparseStart(qs, ss, n - 1, start);
      if Sparse(ss[n - 1]) && qs[n - 1].lastPruned != NOPTS then PtsMax(s, qs[n - 1].lastPruned + 0.1) else s
  }

  function SeekWindow(qs: seq<Queue>, ss: seq<Stream>): Window
    requires |qs| == |ss|
  {
    var w := if Blocked(qs, ss, |qs|) then NO_WINDOW else EagerWindow(qs, ss, |qs|);
    var start := SparseStart(qs, ss, |qs|, w.start);
    if start >= w.end then NO_WINDOW else Window(start, w.end)
  }

  function WithWindow(r: Range, ss: seq<Stream>): Range
    requires |r.queues| == |ss|
  {
    var w := SeekWindow(r.queues, ss);
    r.(seekStart := w.start, seekEnd := w.end)
  }

  /** Every bound the queue contributes is NOPTS or later. */
  predicate Timed(q: Queue) {
    q.seekStart >= NOPTS && q.seekEnd >= NOPTS && q.lastPruned >= NOPTS
    && q.keyframePts >= NOPTS && q.keyframeEndPts >= NOPTS
  }

  predicate AllTimed(qs: seq<Queue>) {
    forall i :: 0 <= i < |qs| ==> Timed(qs[i])
  }

  /** `pts` lies in the window of every eager queue before the `n`th. */
  predicate InAllEager(qs: seq<Queue>, ss: seq<Stream>, n: nat, pts: real)
    requires n <= |qs| == |ss|
  {
    forall i :: 0 <= i < n && Restricts(ss[i]) ==> qs[i].seekStart <= pts <= qs[i].seekEnd
  }

  /** `pts` lies after everything pruned from the sparse queues before the `n`th. */
  predicate AfterPruned(qs: seq<Queue>, ss: seq<Stream>, n: nat, pts: real)
    requires n <= |qs| == |ss|
  {
    forall i :: 0 <= i < n && Sparse(ss[i]) && qs[i].lastPruned != NOPTS ==> qs[i].lastPruned + 0.1 <= pts
  }

  predicate AnyEager(ss: seq<Stream>, n: nat)
    requires n <= |ss|
  {
    exists i :: 0 <= i < n && Restricts(ss[i])
  }

  lemma {:induction false} EagerWindowIs(qs: seq<Queue>, ss: seq<Stream>, n: nat, pts: real)
    requires n <= |qs| == |ss| && AllTimed(qs) && pts >= NOPTS && !Blocked(qs, ss, n)
    ensures var w := EagerWindow(qs, ss, n);
      && w.start >= NOPTS
      && (if AnyEager(ss, n) then w.end > NOPTS && (w.start <= pts <= w.end <==> InAllEager(qs, ss, n, pts))
          else w == NO_WINDOW)
  {
    if n > 0 {
      EagerWindowIs(qs, ss, n - 1, pts);
      if Restricts(ss[n - 1]) {
        assert !Empty(qs[n - 1]);
        assert AnyEager(ss, n);
      }
    }
  }

  lemma {:induction false} SparseStartIs(qs: seq<Queue>, ss: seq<Stream>, n: nat, start: real, pts: real)
    requires n <= |qs| == |ss| && AllTimed(qs) && start >= NOPTS
    ensures var s := SparseStart(qs, ss, n, start);
      s >= NOPTS && (s <= pts <==> start <= pts && AfterPruned(qs, ss, n, pts))
  {
    if n > 0 {
      SparseStartIs(qs, ss, n - 1, start, pts);
    }
  }

  /** A range's window is exactly the intersection of its eager queues' windows, less what sparse
      streams have pruned; and there is no window if some eager queue has none, if nothing is
      read eagerly, or if the intersection has no extent. */
  lemma WindowIsIntersection(qs: seq<Queue>, ss: seq<Stream>, pts: real, later: real)
    requires |qs| == |ss| && AllTimed(qs) && NOPTS <= pts < later
    ensures var w := SeekWindow(qs, ss);
      && (w == NO_WINDOW || NOPTS <= w.start < w.end)
      && (Blocked(qs, ss, |qs|) || !AnyEager(ss, |ss|) ==> w == NO_WINDOW)
      && (w != NO_WINDOW ==>
            (w.start <= pts <= w.end <==> InAllEager(qs, ss, |qs|, pts) && AfterPruned(qs, ss, |qs|, pts)))
      && (!Blocked(qs, ss, |qs|) && AnyEager(ss, |ss|)
          && InAllEager(qs, ss, |qs|, pts) && AfterPruned(qs, ss, |qs|, pts) && InAllEager(qs, ss, |qs|, later) ==>
            w != NO_WINDOW)
  {
    if Blocked(qs, ss, |qs|) {
      SparseStartIs(qs, ss, |qs|, NOPTS, pts);
    } else {
      EagerWindowIs(qs, ss, |qs|, pts);
      EagerWindowIs(qs, ss, |qs|, later);
      var w := EagerWindow(qs, ss, |qs|);
      SparseStartIs(qs, ss, |qs|, w.start, pts);
    }
  }

  // ---------- consistency ----------

  predicate QueuesOk(qs: seq<Queue>) {
    forall i :: 0 <= i < |qs| ==> QueueOk(qs[i])
  }

  /** Every range has one queue in order per stream, and ranges have different ids. */
  predicate RangesOk(rs: seq<Range>, streams: nat) {
    && (forall r :: 0 <= r < |rs| ==> |rs[r].queues| == streams && QueuesOk(rs[r].queues))
    && (forall r, x :: 0 <= r < x < |rs| ==> rs[r].id != rs[x].id)
  }

  predicate IdsBelow(rs: seq<Range>, n: nat) {
    forall r :: 0 <= r < |rs| ==> rs[r].id < n
  }

  /** The packets from the reader position to the tail. */
  function Forward(s: Stream, q: Queue): seq<Packet> {
    if s.reader.PacketAt? && q.Holds(s.reader.num) then q.packets[s.reader.num - q.base..] else []
  }

  /** The reader, if anywhere, is in queue `q` of range `id`, and the forward counts are those of
      the packets from there on. */
  predicate ReaderAt(s: Stream, id: nat, q: Queue) {
    && (s.reader.PacketAt? ==> s.reader.range == id && q.Holds(s.reader.num))
    && s.fwBytes == Bytes(Forward(s, q))
    && s.fwPacks == |Forward(s, q)|
  }

  /** And that queue is the one the stream reads from and appends to. */
  predicate ReaderOk(s: Stream, id: nat, q: Queue) {
    s.queue == id && ReaderAt(s, id, q)
  }

  predicate ReadersOk(ss: seq<Stream>, x: Range) {
    |ss| == |x.queues| && forall n :: 0 <= n < |ss| ==> ReaderOk(ss[n], x.id, x.queues[n])
  }

  function ForwardBytes(ss: seq<Stream>): nat {
    if ss == [] then 0 else ss[0].fwBytes + ForwardBytes(ss[1..])
  }

  lemma {:induction false} ForwardBytesUpdate(ss: seq<Stream>, n: nat, s: Stream)
    requires n < |ss|
    ensures ForwardBytes(ss[n := s]) + ss[n].fwBytes == ForwardBytes(ss) + s.fwBytes
    ensures ss[n].fwBytes <= ForwardBytes(ss)
  {
    if n == 0 {
      assert ss[0 := s][1..] == ss[1..];
    } else {
      ForwardBytesUpdate(ss[1..], n - 1, s);
      assert ss[n := s][1..] == ss[1..][n - 1 := s];
    }
  }

  lemma {:induction false} ForwardBytesConcat(a: seq<Stream>, b: seq<Stream>)
    ensures ForwardBytes(a + b) == ForwardBytes(a) + ForwardBytes(b)
  {
    if a == [] {
      assert a + b == b;
    } else {
      ForwardBytesConcat(a[1..], b);
      assert (a + b)[0] == a[0] && (a + b)[1..] == a[1..] + b;
    }
  }

  lemma ForwardBytesSnoc(ss: seq<Stream>, s: Stream)
    ensures ForwardBytes(ss + [s]) == ForwardBytes(ss) + s.fwBytes
  {
    ForwardBytesConcat(ss, [s]);
    assert [s][1..] == [];
  }

  /** A range with its queues cleared has neither data nor window. */
  function ClearedRange(x: Range): Range {
    Range(x.id, seq(|x.queues|, i requires 0 <= i < |x.queues| => Cleared(x.queues[i])), NOPTS, NOPTS)
  }

  lemma {:induction false} EmptyQueuesBytes(qs: seq<Queue>)
    requires forall i :: 0 <= i < |qs| ==> qs[i].packets == []
    ensures QueuesBytes(qs) == 0
  {
    if qs != [] {
      EmptyQueuesBytes(qs[1..]);
    }
  }

  lemma {:induction false} ClearedSeekWindow(qs: seq<Queue>, ss: seq<Stream>, n: nat)
    requires n <= |qs| == |ss|
    requires forall i :: 0 <= i < |qs| ==>
      qs[i].seekStart == NOPTS && qs[i].seekEnd == NOPTS && qs[i].lastPruned == NOPTS
    ensures EagerWindow(qs, ss, n) == NO_WINDOW && SparseStart(qs, ss, n, NOPTS) == NOPTS
  {
    if n > 0 {
      ClearedSeekWindow(qs, ss, n - 1);
    }
  }

  lemma ClearedWindow(qs: seq<Queue>, ss: seq<Stream>)
    requires |qs| == |ss|
    requires forall i :: 0 <= i < |qs| ==>
      qs[i].seekStart == NOPTS && qs[i].seekEnd == NOPTS && qs[i].lastPruned == NOPTS
    ensures SeekWindow(qs, ss) == NO_WINDOW
  {
    ClearedSeekWindow(qs, ss, |qs|);
  }

  lemma ClearedRangeIs(x: Range, was: Range, ss: seq<Stream>)
    requires x.id == was.id && |x.queues| == |was.queues| == |ss|
    requires forall i :: 0 <= i < |x.queues| ==> x.queues[i] == Cleared(was.queues[i])
    ensures WithWindow(x, ss) == ClearedRange(was)
  {
    ClearedWindow(x.queues, ss);
    assert x.queues == ClearedRange(was).queues;
  }

  lemma ClearedRangeBytes(rs: seq<Range>, r: nat)
    requires r < |rs|
    ensures RangesBytes(rs[r := ClearedRange(rs[r])]) + QueuesBytes(rs[r].queues) == RangesBytes(rs)
  {
    EmptyQueuesBytes(ClearedRange(rs[r]).queues);
    RangesBytesUpdate(rs, r, ClearedRange(rs[r]));
  }

  lemma ClearedQueueOk(rs: seq<Range>, r: nat, n: nat, streams: nat, ids: nat)
    requires RangesOk(rs, streams) && IdsBelow(rs, ids) && r < |rs| && n < streams
    ensures |rs[r].queues| == streams
    ensures var t := SetQueue(rs, r, n, Cleared(rs[r].queues[n]));
      && RangesOk(t, streams) && IdsBelow(t, ids)
      && RangesBytes(t) + Bytes(rs[r].queues[n].packets) == RangesBytes(rs)
      && Bytes(rs[r].queues[n].packets) <= RangesBytes(rs)
  {
    SetQueueBytes(rs, r, n, Cleared(rs[r].queues[n]));
    hide RangesBytes, Bytes;
  }

  /** Changing a range's window changes neither its order nor its bytes. */
  lemma WindowKeeps(rs: seq<Range>, r: nat, ss: seq<Stream>)
    requires RangesOk(rs, |ss|) && r < |rs|
    ensures RangesOk(rs[r := WithWindow(rs[r], ss)], |ss|)
    ensures RangesBytes(rs[r := WithWindow(rs[r], ss)]) == RangesBytes(rs)
    ensures forall n :: IdsBelow(rs, n) ==> IdsBelow(rs[r := WithWindow(rs[r], ss)], n)
  {
    RangesBytesUpdate(rs, r, WithWindow(rs[r], ss));
  }

  // ---------- dropping ranges ----------

  /** The ranges from position `n` on that have a window, and the last one. */
  function Kept(rs: seq<Range>, n: nat): (k: seq<Range>)
    requires n < |rs|
    ensures 0 < |k| <= |rs| - n && k[|k| - 1] == rs[|rs| - 1]
    decreases |rs| - n
  {
    if n == |rs| - 1 then [rs[n]]
    else if rs[n].seekStart == NOPTS then Kept(rs, n + 1)
    else [rs[n]] + Kept(rs, n + 1)
  }

  predicate AllWindows(rs: seq<Range>) {
    forall i :: 0 <= i < |rs| - 1 ==> rs[i].seekStart != NOPTS
  }

  /** The list while its ranges are visited from the back: untouched up to `n`, then what is kept. */
  function Visited(was: seq<Range>, n: nat): seq<Range>
    requires n < |was|
  {
    was[..n] + Kept(was, n)
  }

  lemma VisitedStep(was: seq<Range>, n: nat)
    requires n < |was| - 1
    ensures var rs := Visited(was, n + 1);
      && |rs| == n + 1 + |Kept(was, n + 1)|
      && rs[n] == was[n] && rs == was[..n] + [was[n]] + Kept(was, n + 1)
      && Visited(was, n) == if was[n].seekStart == NOPTS then was[..n] + Kept(was, n + 1) else rs
  {
    assert was[..n + 1] == was[..n] + [was[n]];
    assert was[..n] + [was[n]] + Kept(was, n + 1) == was[..n] + ([was[n]] + Kept(was, n + 1));
  }

  lemma VisitedAll(was: seq<Range>)
    requires was != []
    ensures Visited(was, 0) == Kept(was, 0)
  {
    assert was[..0] == [];
  }

  lemma {:induction false} KeptHasWindows(rs: seq<Range>, n: nat)
    requires n < |rs|
    ensures AllWindows(Kept(rs, n))
    decreases |rs| - n
  {
    if n < |rs| - 1 {
      KeptHasWindows(rs, n + 1);
    }
  }

  lemma {:induction false} KeptAll(rs: seq<Range>, n: nat)
    requires n < |rs| && AllWindows(rs)
    ensures Kept(rs, n) == rs[n..]
    decreases |rs| - n
  {
    if n < |rs| - 1 {
      KeptAll(rs, n + 1);
    }
  }

  /** A range without a window goes, whatever else is in the list. */
  lemma {:induction false} KeptWithout(rs: seq<Range>, w: nat, n: nat)
    requires w < |rs| - 1 && rs[w].seekStart == NOPTS && n < |rs|
    ensures n <= w ==> Kept(rs, n) == Kept(RemoveAt(rs, w), n)
    ensures n > w ==> Kept(rs, n) == Kept(RemoveAt(rs, w), n - 1)
    decreases |rs| - n
  {
    hide RemoveAt, Kept;
    RemovedAt(rs, w, n);
    KeptUnfold(rs, n);
    if n < |rs| - 1 {
      KeptWithout(rs, w, n + 1);
      if n < w {
        KeptUnfold(RemoveAt(rs, w), n);
      } else if n > w {
        KeptUnfold(RemoveAt(rs, w), n - 1);
      }
    } else {
      KeptUnfold(RemoveAt(rs, w), n - 1);
    }
  }

  lemma RemovedAt(rs: seq<Range>, w: nat, n: nat)
    requires w < |rs| - 1 && n < |rs|
    ensures n < w ==> RemoveAt(rs, w)[n] == rs[n]
    ensures n > w ==> RemoveAt(rs, w)[n - 1] == rs[n]
  {
  }

  lemma KeptUnfold(rs: seq<Range>, n: nat)
    requires n < |rs|
    ensures Kept(rs, n) == if n == |rs| - 1 then [rs[n]]
                           else if rs[n].seekStart == NOPTS then Kept(rs, n + 1)
                           else [rs[n]] + Kept(rs, n + 1)
  {
  }

  lemma KeptOfCleared(k: seq<Range>, w: nat)
    requires w < |k| - 1 && AllWindows(k)
    ensures Kept(k[w := ClearedRange(k[w])], 0) == RemoveAt(k, w)
  {
    var c := k[w := ClearedRange(k[w])];
    KeptWithout(c, w, 0);
    assert RemoveAt(c, w) == RemoveAt(k, w);
    KeptAll(RemoveAt(k, w), 0);
  }

  function Span(x: Range): real {
    x.seekEnd - x.seekStart
  }

  /** Position of the shortest range before the last one, the most recent of equals. */
  function Shortest(rs: seq<Range>): (w: nat)
    requires |rs| > 1
    ensures w < |rs| - 1
  {
    if |rs| == 2 then 0
    else
      var w := 1 + Shortest(rs[1..]);
      if Span(rs[0]) < Span(rs[w]) then 0 else w
  }

  function Trim(rs: seq<Range>, max: nat): (k: seq<Range>)
    requires 1 <= max
    decreases |rs|
  {
    if |rs| <= max then rs else Trim(RemoveAt(rs, Shortest(rs)), max)
  }

  lemma {:induction false} ShortestIs(rs: seq<Range>)
    requires |rs| > 1
    ensures forall i :: 0 <= i < |rs| - 1 ==>
      Span(rs[Shortest(rs)]) <= Span(rs[i]) && (i > Shortest(rs) ==> Span(rs[Shortest(rs)]) < Span(rs[i]))
  {
    if |rs| > 2 {
      ShortestIs(rs[1..]);
    }
  }

  /** `part` is `all` without some of its members, in order. */
  ghost predicate Sublist(part: seq<Range>, all: seq<Range>) {
    if part == [] then true
    else if all == [] then false
    else if part[0] == all[0] && Sublist(part[1..], all[1..]) then true
    else Sublist(part, all[1..])
  }

  lemma {:induction false} SublistRefl(s: seq<Range>)
    ensures Sublist(s, s)
  {
    if s != [] {
      SublistRefl(s[1..]);
    }
  }

  lemma {:induction false} RemoveAtSublist(s: seq<Range>, k: nat)
    requires k < |s|
    ensures Sublist(RemoveAt(s, k), s)
    decreases k
  {
    if k == 0 {
      SublistRefl(s[1..]);
      SublistTail(s[1..], s[1..], s[0]);
      assert [s[0]] + s[1..] == s && RemoveAt(s, 0) == s[1..];
    } else {
      RemoveAtSublist(s[1..], k - 1);
      assert RemoveAt(s, k)[1..] == RemoveAt(s[1..], k - 1);
    }
  }

  lemma SublistTail(part: seq<Range>, all: seq<Range>, x: Range)
    requires Sublist(part, all)
    ensures Sublist(part, [x] + all)
  {
    assert ([x] + all)[1..] == all;
  }

  lemma {:induction false} SublistTrans(a: seq<Range>, b: seq<Range>, c: seq<Range>)
    requires Sublist(a, b) && Sublist(b, c)
    ensures Sublist(a, c)
    decreases |b| + |c|
  {
    if a != [] && b != [] && c != [] {
      if b[0] == c[0] && Sublist(b[1..], c[1..]) {
        if a[0] == b[0] && Sublist(a[1..], b[1..]) {
          SublistTrans(a[1..], b[1..], c[1..]);
        } else {
          SublistTrans(a, b[1..], c[1..]);
        }
      } else {
        SublistTrans(a, b, c[1..]);
      }
    }
  }

  lemma {:induction false} TrimIsSublist(rs: seq<Range>, max: nat)
    requires 1 <= max && rs != []
    ensures var k := Trim(rs, max);
      Sublist(k, rs) && |k| == (if |rs| <= max then |rs| else max) && k[|k| - 1] == rs[|rs| - 1]
    decreases |rs|
  {
    if |rs| <= max {
      SublistRefl(rs);
    } else {
      var rest := RemoveAt(rs, Shortest(rs));
      TrimIsSublist(rest, max);
      RemoveAtSublist(rs, Shortest(rs));
      SublistTrans(Trim(rest, max), rest, rs);
    }
  }

  lemma {:induction false} TrimHasWindows(rs: seq<Range>, max: nat)
    requires 1 <= max && AllWindows(rs)
    ensures AllWindows(Trim(rs, max))
    decreases |rs|
  {
    if |rs| > max {
      TrimHasWindows(RemoveAt(rs, Shortest(rs)), max);
    }
  }

  predicate AmongOthers(x: Range, rs: seq<Range>) {
    exists i :: 0 <= i < |rs| - 1 && rs[i] == x
  }

  /** Trimming drops no range whose window is longer than one that is kept. */
  lemma {:induction false} TrimKeepsLongest(rs: seq<Range>, max: nat, x: Range, y: Range)
    requires 1 <= max && rs != []
    requires AmongOthers(y, Trim(rs, max))
    ensures AmongOthers(y, rs)
    ensures AmongOthers(x, rs) && !AmongOthers(x, Trim(rs, max)) ==> Span(x) <= Span(y)
    decreases |rs|
  {
    if |rs| > max {
      var w := Shortest(rs);
      var rest := RemoveAt(rs, w);
      TrimKeepsLongest(rest, max, x, y);
      ShortestIs(rs);
      var j :| 0 <= j < |rest| - 1 && rest[j] == y;
      assert rs[if j < w then j else j + 1] == y;
      if AmongOthers(x, rs) && x != rs[w] {
        var i :| 0 <= i < |rs| - 1 && rs[i] == x;
        assert rest[if i < w then i else i - 1] == x;
      }
    }
  }

  lemma {:induction false} RemoveKeeps(rs: seq<Range>, k: nat, streams: nat, ids: nat)
    requires RangesOk(rs, streams) && IdsBelow(rs, ids) && k < |rs|
    ensures RangesOk(RemoveAt(rs, k), streams) && IdsBelow(RemoveAt(rs, k), ids)
    ensures RangesBytes(RemoveAt(rs, k)) + QueuesBytes(rs[k].queues) == RangesBytes(rs)
  {
    RangesBytesRemove(rs, k);
  }

  /** Readers are at packets of the last range only. */
  predicate ReadersInLast(ss: seq<Stream>, rs: seq<Range>)
    requires rs != []
  {
    forall n :: 0 <= n < |ss| && ss[n].reader.PacketAt? ==> ss[n].reader.range == rs[|rs| - 1].id
  }

  lemma ReadersAreInLast(ss: seq<Stream>, rs: seq<Range>)
    requires rs != [] && ReadersOk(ss, rs[|rs| - 1])
    ensures ReadersInLast(ss, rs)
  {
  }

  lemma OthersUnread(ss: seq<Stream>, rs: seq<Range>, r: nat)
    requires RangesOk(rs, |ss|) && rs != [] && ReadersInLast(ss, rs) && r < |rs| - 1
    ensures forall n :: 0 <= n < |ss| && ss[n].reader.PacketAt? ==> ss[n].reader.range != rs[r].id
  {
  }

  // ---------- joining ----------

  function OrderOf(s: Stream): Order {
    Order(s.globalCorrectDts, s.globalCorrectPos)
  }

  /** What is left of the next range's queue once the overlap with `q1` is dropped. */
  function Remaining(s: Stream, q1: Queue, q2: Queue): Queue {
    if q1.packets == [] then q2
    else Drop(q2, Overlap(q2, q1.packets[|q1.packets| - 1].media, OrderOf(s), 0).keep)
  }

  /** The stream's queues overlap; a stream read lazily need not, but must not be ambiguous. */
  predicate CanJoin(s: Stream, q1: Queue, q2: Queue) {
    && (s.globalCorrectDts || s.globalCorrectPos)
    && (q1.packets != [] ==>
          var j := Overlap(q2, q1.packets[|q1.packets| - 1].media, OrderOf(s), 0);
          j.Found? || (j.Missing? && !s.eager))
  }

  /** The next range's queue after its packets went to the current range. */
  function HandedOver(q: Queue): Queue {
    q.(packets := [], nextPrune := Null, keyframeLatest := Null, index := [])
  }

  lemma HandedOverOk(q: Queue)
    requires QueueOk(q)
    ensures QueueOk(HandedOver(q))
  {
  }

  /** The range to try joining with: the one overlapping the current range the least. */
  function JoinCandidate(rs: seq<Range>, n: nat): (c: int)
    requires rs != [] && n < |rs|
    ensures -1 <= c < n
  {
    if n == 0 then -1
    else
      var c := JoinCandidate(rs, n - 1);
      var cur := rs[|rs| - 1];
      if cur.seekStart <= rs[n - 1].seekStart && cur.seekEnd - rs[n - 1].seekStart > 0.0
         && (c == -1 || cur.seekEnd - rs[n - 1].seekStart < cur.seekEnd - rs[c].seekStart) then n - 1
      else c
  }

  /** The stream counts its forward packets again from its reader position. */
  function Recounted(s: Stream, q: Queue): Stream {
    s.(fwBytes := Bytes(Forward(s, q)), fwPacks := |Forward(s, q)|)
  }

  predicate AllCanJoin(ss: seq<Stream>, q1s: seq<Queue>, q2s: seq<Queue>)
    requires |ss| == |q1s| == |q2s|
  {
    forall n :: 0 <= n < |ss| ==> CanJoin(ss[n], q1s[n], q2s[n])
  }

  /** What a join makes of a stream: its forward packets now include the second queue's, and it
      waits for the demuxer to get past them. */
  function JoinedStream(s: Stream, q: Queue): Stream {
    Recounted(s, q).(refreshing := s.selected)
  }

  /** A stream with its two queues becomes `t` with queues `j` and `h`. */
  ghost predicate StreamJoined(s: Stream, id: nat, q1: Queue, q2: Queue, t: Stream, j: Queue, h: Queue) {
    && Joinable(q1, q2) && j == Joined(q1, q2) && QueueOk(j)
    && t == JoinedStream(s, j) && ReaderOk(t, id, j)
    && h == HandedOver(q2) && QueueOk(h)
  }

  lemma StreamJoinedOk(s: Stream, id: nat, q1: Queue, q2: Queue)
    requires ReaderOk(s, id, q1) && QueueOk(q1) && QueueOk(q2)
    ensures Joinable(q1, q2)
    ensures StreamJoined(s, id, q1, q2, JoinedStream(s, Joined(q1, q2)), Joined(q1, q2), HandedOver(q2))
  {
    hide QueueOk, Joined, HandedOver;
    OkIsJoinable(q1, q2);
    JoinedOk(q1, q2);
    HandedOverOk(q2);
  }

  /** Streams that are selected and read alike see the same windows. */
  lemma {:induction false} SameFlags(qs: seq<Queue>, ss: seq<Stream>, ts: seq<Stream>, n: nat)
    requires n <= |qs| == |ss| == |ts|
    requires forall i :: 0 <= i < |ss| ==> ss[i].selected == ts[i].selected && ss[i].eager == ts[i].eager
    ensures EagerWindow(qs, ss, n) == EagerWindow(qs, ts, n)
    ensures forall start :: SparseStart(qs, ss, n, start) == SparseStart(qs, ts, n, start)
  {
    if n > 0 {
      SameFlags(qs, ss, ts, n - 1);
    }
  }

  lemma SameWindow(qs: seq<Queue>, ss: seq<Stream>, ts: seq<Stream>)
    requires |qs| == |ss| == |ts|
    requires forall i :: 0 <= i < |ss| ==> ss[i].selected == ts[i].selected && ss[i].eager == ts[i].eager
    ensures SeekWindow(qs, ss) == SeekWindow(qs, ts)
  {
    SameFlags(qs, ss, ts, |qs|);
    assert Blocked(qs, ss, |qs|) <==> Blocked(qs, ts, |qs|);
  }

  lemma ReplaceQueuesOk(rs: seq<Range>, r: nat, x: Range, streams: nat, ids: nat)
    requires RangesOk(rs, streams) && IdsBelow(rs, ids) && r < |rs|
    requires x.id == rs[r].id && |x.queues| == streams && QueuesOk(x.queues)
    ensures RangesOk(rs[r := x], streams) && IdsBelow(rs[r := x], ids)
    ensures RangesBytes(rs[r := x]) + QueuesBytes(rs[r].queues) == RangesBytes(rs) + QueuesBytes(x.queues)
  {
    RangesBytesUpdate(rs, r, x);
  }

  /** What is left of the next range's queues once the overlaps are dropped. */
  function Remainings(ss: seq<Stream>, q1s: seq<Queue>, q2s: seq<Queue>): seq<Queue>
    requires |ss| == |q1s| == |q2s|
  {
    seq(|ss|, n requires 0 <= n < |ss| => Remaining(ss[n], q1s[n], q2s[n]))
  }

  /** Range `x` with streams `ss` has taken over `rest`, becoming `x'` with streams `ts`. */
  ghost predicate RangeJoined(ss: seq<Stream>, x: Range, rest: seq<Queue>, ts: seq<Stream>, x': Range) {
    && |x.queues| == |rest| == |x'.queues| == |ss| == |ts|
    && (forall n :: 0 <= n < |ss| ==>
          StreamJoined(ss[n], x.id, x.queues[n], rest[n], ts[n], x'.queues[n], HandedOver(rest[n])))
    && x'.id == x.id && Window(x'.seekStart, x'.seekEnd) == SeekWindow(x'.queues, ts)
  }

  /** What remains of a list of ranges without its `c`th one and with a new last one. */
  function Remade(rs: seq<Range>, c: nat, x: Range): seq<Range>
    requires c < |rs| - 1
  {
    RemoveAt(rs, c)[|rs| - 2 := x]
  }

  lemma RemadeSame(rs: seq<Range>, was: seq<Range>, c: nat, x: Range)
    requires c < |rs| - 1 && |was| == |rs| && rs == was[c := rs[c]]
    ensures Remade(rs, c, x) == Remade(was, c, x) && RemoveAt(rs, c) == RemoveAt(was, c)
  {
  }

  /** The list of ranges after emptied and surplus ranges are freed. */
  function Freed(rs: seq<Range>): (k: seq<Range>)
    requires rs != []
    ensures k != [] && k[|k| - 1] == rs[|rs| - 1]
  {
    TrimIsSublist(Kept(rs, 0), MAX_SEEK_RANGES);
    Trim(Kept(rs, 0), MAX_SEEK_RANGES)
  }

  /** After that every range but the current one has a window. */
  lemma FreedHasWindows(rs: seq<Range>)
    requires rs != []
    ensures AllWindows(Freed(rs))
  {
    KeptHasWindows(rs, 0);
    TrimHasWindows(Kept(rs, 0), MAX_SEEK_RANGES);
  }

  datatype SeekFlags = SeekFlags(factor: bool, forward: bool, hr: bool)

  /** The low-level seek waiting to be executed, if `queued`. */
  datatype PendingSeek = PendingSeek(queued: bool, flags: SeekFlags, pts: real)

  /** What attempting to join makes of streams, ranges and the queued seek: nothing if there is no
      overlapping range; otherwise that range goes, and its packets are appended to the current
      one exactly if every stream's queues can be joined. */
  ghost predicate JoinOutcome(ss: seq<Stream>, rs: seq<Range>, p: PendingSeek,
                              ts: seq<Stream>, rs': seq<Range>, p': PendingSeek)
  {
    && rs != [] && rs' != []
    && var last := |rs| - 1;
       var c := JoinCandidate(rs, last);
       if c == -1 then rs' == rs && ts == ss && p' == p
       else
         && |rs[last].queues| == |rs[c].queues| == |ss|
         && if !AllCanJoin(ss, rs[last].queues, rs[c].queues) then
              rs' == Freed(RemoveAt(rs, c)) && ts == ss && p' == p
            else
              && RangeJoined(ss, rs[last], Remainings(ss, rs[last].queues, rs[c].queues), ts, rs'[|rs'| - 1])
              && rs' == Freed(Remade(rs, c, rs'[|rs'| - 1]))
              && p' == PendingSeek(true, SeekFlags(false, false, true), rs[c].seekEnd - 1.0)
  }

  lemma NotOutcome(ss: seq<Stream>, rs: seq<Range>, p: PendingSeek)
    requires rs != [] && JoinCandidate(rs, |rs| - 1) == -1
    ensures JoinOutcome(ss, rs, p, ss, rs, p)
  {
  }

  lemma FailedOutcome(ss: seq<Stream>, rs: seq<Range>, p: PendingSeek, c: nat)
    requires rs != [] && c == JoinCandidate(rs, |rs| - 1) && |rs[|rs| - 1].queues| == |rs[c].queues| == |ss|
    requires !AllCanJoin(ss, rs[|rs| - 1].queues, rs[c].queues)
    ensures JoinOutcome(ss, rs, p, ss, Freed(RemoveAt(rs, c)), p)
  {
  }

  lemma JoinedOutcome(ss: seq<Stream>, rs: seq<Range>, p: PendingSeek, c: nat,
                      ts: seq<Stream>, x: Range, rs': seq<Range>)
    requires rs != [] && c == JoinCandidate(rs, |rs| - 1) && |rs[|rs| - 1].queues| == |rs[c].queues| == |ss|
    requires AllCanJoin(ss, rs[|rs| - 1].queues, rs[c].queues)
    requires RangeJoined(ss, rs[|rs| - 1], Remainings(ss, rs[|rs| - 1].queues, rs[c].queues), ts, x)
    requires rs' == Freed(Remade(rs, c, x))
    ensures JoinOutcome(ss, rs, p, ts, rs', PendingSeek(true, SeekFlags(false, false, true), rs[c].seekEnd - 1.0))
  {
    hide RangeJoined, AllCanJoin, Remainings;
    assert rs'[|rs'| - 1] == x;
  }

  // ---------- adding packets ----------

  /** What appending `m` to its queue (which becomes `q`) does to a stream. */
  function AfterAppend(s: Stream, q: Queue, m: Media): Stream
    requires q.packets != []
  {
    var start := s.reader.NoPacket? && (!s.skipToKeyframe || m.keyframe);
    var reader := if start then PacketAt(s.queue, q.End() - 1) else s.reader;
    var counted := reader.PacketAt?;
    s.(globalCorrectPos := s.globalCorrectPos && q.correctPos,
       globalCorrectDts := s.globalCorrectDts && q.correctDts,
       reader := reader,
       skipToKeyframe := s.skipToKeyframe && !start,
       fwPacks := if counted then s.fwPacks + 1 else s.fwPacks,
       fwBytes := if counted then s.fwBytes + EstimateSize(m) else s.fwBytes,
       eof := s.eof && s.ignoreEof,
       baseTs := if s.baseTs == NOPTS then q.lastTs else s.baseTs)
  }

  /** The forward packets grow by the new one, unless the reader waits for a keyframe. */
  lemma AfterAppendReader(s: Stream, id: nat, q: Queue, m: Media, video: bool)
    requires ReaderOk(s, id, q)
    ensures var a := Appended(q, m, video); var t := AfterAppend(s, a, m);
      ReaderOk(t, id, a) && (t.reader.PacketAt? ==> t.fwBytes == s.fwBytes + EstimateSize(m))
      && (t.reader.NoPacket? ==> t.fwBytes == s.fwBytes)
  {
    var a := Appended(q, m, video);
    var t := AfterAppend(s, a, m);
    var p := Packet(NormalPts(m, video), NOPTS);
    if s.reader.PacketAt? {
      assert Forward(t, a) == Forward(s, q) + [p];
      BytesConcat(Forward(s, q), [p]);
    } else {
      assert Forward(s, q) == [];
      if t.reader.PacketAt? {
        assert Forward(t, a) == [p];
      }
    }
    assert Bytes([p]) == EstimateSize(m);
  }

  /** Accounting for a keyframe range changes no size. */
  lemma AdjustedReader(s: Stream, id: nat, q: Queue, l: Link)
    requires ReaderOk(s, id, q) && Readable(q) && q.HoldsLink(l)
    ensures ReaderOk(s, id, Adjusted(q, l)) && Bytes(Adjusted(q, l).packets) == Bytes(q.packets)
  {
    hide Adjusted;
    var r := Adjusted(q, l);
    assert |r.packets| == |Medias(r.packets)| == |Medias(q.packets)| == |q.packets|;
    BytesOfMedias(r.packets, q.packets);
    if s.reader.PacketAt? {
      var k := s.reader.num - q.base;
      assert Medias(r.packets[k..]) == Medias(r.packets)[k..] == Medias(q.packets)[k..] == Medias(q.packets[k..]);
      BytesOfMedias(r.packets[k..], q.packets[k..]);
    }
  }

  /** The current range after accounting for packet `l` of stream `n`, or for its end. */
  function AdjustedRange(x: Range, ss: seq<Stream>, n: nat, l: Link): Range
    requires n < |x.queues| == |ss| && Readable(x.queues[n]) && x.queues[n].HoldsLink(l)
  {
    var q := x.queues[n];
    var y := x.(queues := x.queues[n := Adjusted(q, l)]);
    if (l.Null? || q.Get(l.num).media.keyframe) && q.keyframeLatest.At? then WithWindow(y, ss) else y
  }

  /** Windows depend on the queues' seek bounds only. */
  lemma {:induction false} SameBounds(qs: seq<Queue>, rs: seq<Queue>, ss: seq<Stream>, n: nat)
    requires n <= |qs| == |rs| == |ss|
    requires forall i :: 0 <= i < |qs| ==>
      qs[i].seekStart == rs[i].seekStart && qs[i].seekEnd == rs[i].seekEnd && qs[i].lastPruned == rs[i].lastPruned
    ensures EagerWindow(qs, ss, n) == EagerWindow(rs, ss, n)
    ensures forall start :: SparseStart(qs, ss, n, start) == SparseStart(rs, ss, n, start)
  {
    if n > 0 {
      SameBounds(qs, rs, ss, n - 1);
    }
  }

  lemma SameBoundsWindow(qs: seq<Queue>, rs: seq<Queue>, ss: seq<Stream>)
    requires |qs| == |rs| == |ss|
    requires forall i :: 0 <= i < |qs| ==>
      qs[i].seekStart == rs[i].seekStart && qs[i].seekEnd == rs[i].seekEnd && qs[i].lastPruned == rs[i].lastPruned
    ensures SeekWindow(qs, ss) == SeekWindow(rs, ss)
  {
    SameBounds(qs, rs, ss, |qs|);
    assert Blocked(qs, ss, |qs|) <==> Blocked(rs, ss, |qs|);
  }

  /** Replacing a queue of the last range by one of the same order and readers keeps everything. */
  lemma LastRangeOk(rs: seq<Range>, x: Range, ss: seq<Stream>, ids: nat)
    requires rs != [] && RangesOk(rs, |ss|) && IdsBelow(rs, ids)
    requires x.id == rs[|rs| - 1].id && |x.queues| == |ss| && QueuesOk(x.queues)
    requires QueuesBytes(x.queues) == QueuesBytes(rs[|rs| - 1].queues)
    ensures RangesOk(rs[|rs| - 1 := x], |ss|) && IdsBelow(rs[|rs| - 1 := x], ids)
    ensures RangesBytes(rs[|rs| - 1 := x]) == RangesBytes(rs)
  {
    RangesBytesUpdate(rs, |rs| - 1, x);
  }

  lemma {:induction false} AdjustedRangeOk(x: Range, ss: seq<Stream>, n: nat, l: Link)
    requires n < |x.queues| == |ss| && Readable(x.queues[n]) && JustAdded(x.queues[n], l)
    requires QueuesOk(x.queues) && ReadersOk(ss, x)
    ensures var y := AdjustedRange(x, ss, n, l);
      && y.id == x.id && |y.queues| == |ss| && QueuesOk(y.queues) && ReadersOk(ss, y)
      && QueuesBytes(y.queues) == QueuesBytes(x.queues)
  {
    hide QueueOk, ReaderOk, Adjusted, QueuesBytes;
    var q := x.queues[n];
    AdjustedOk(q, l);
    AdjustedReader(ss[n], x.id, q, l);
    QueuesBytesUpdate(x.queues, n, Adjusted(q, l));
  }

  /** The window of the closed block is the one of the whole adjustment. */
  lemma AdjustedWindow(x: Range, ss: seq<Stream>, n: nat, l: Link)
    requires n < |x.queues| == |ss| && Readable(x.queues[n]) && x.queues[n].HoldsLink(l)
    requires (l.Null? || x.queues[n].Get(l.num).media.keyframe) && x.queues[n].keyframeLatest.At?
    ensures SeekWindow(x.queues[n := CloseBlock(x.queues[n])], ss)
         == SeekWindow(x.queues[n := Adjusted(x.queues[n], l)], ss)
  {
    SameBoundsWindow(x.queues[n := CloseBlock(x.queues[n])], x.queues[n := Adjusted(x.queues[n], l)], ss);
  }

  /** The current range and the stream once `m` is appended to queue `n`. */
  function AppendedRange(x: Range, n: nat, m: Media, video: bool): Range
    requires n < |x.queues|
  {
    x.(queues := x.queues[n := Appended(x.queues[n], m, video)])
  }

  function AddedStreams(ss: seq<Stream>, x: Range, n: nat, m: Media): seq<Stream>
    requires n < |x.queues| == |ss|
  {
    ss[n := AfterAppend(ss[n], Appended(x.queues[n], m, ss[n].kind == Video), m)]
  }

  lemma AppendQueueKeeps(s: Stream, id: nat, q: Queue, m: Media)
    requires QueueOk(q) && ReaderOk(s, id, q)
    ensures var a := Appended(q, m, s.kind == Video);
      && Readable(q) && QueueOk(a) && JustAdded(a, a.Tail()) && ReaderOk(AfterAppend(s, a, m), id, a)
      && Bytes(a.packets) == Bytes(q.packets) + EstimateSize(m)
      && AfterAppend(s, a, m).fwBytes
           == s.fwBytes + (if AfterAppend(s, a, m).reader.PacketAt? then EstimateSize(m) else 0)
  {
    var video := s.kind == Video;
    ReadableIfOk(q);
    AppendedOk(q, m, video);
    AppendedIsNext(q, m, video);
    AfterAppendReader(s, id, q, m, video);
    BytesConcat(q.packets, [Packet(NormalPts(m, video), NOPTS)]);
    assert Bytes([Packet(NormalPts(m, video), NOPTS)]) == EstimateSize(m);
  }

  lemma AppendKeeps(rs: seq<Range>, ss: seq<Stream>, n: nat, m: Media, ids: nat)
    requires rs != [] && RangesOk(rs, |ss|) && IdsBelow(rs, ids) && ReadersOk(ss, rs[|rs| - 1]) && n < |ss|
    ensures var x := rs[|rs| - 1];
      && Readable(x.queues[n]) && |x.queues| == |ss|
      && var x' := AppendedRange(x, n, m, ss[n].kind == Video);
         var ss' := AddedStreams(ss, x, n, m);
         && RangesOk(rs[|rs| - 1 := x'], |ss|) && IdsBelow(rs[|rs| - 1 := x'], ids) && ReadersOk(ss', x')
         && RangesBytes(rs[|rs| - 1 := x']) == RangesBytes(rs) + EstimateSize(m)
         && ForwardBytes(ss') == ForwardBytes(ss) + (if ss'[n].reader.PacketAt? then EstimateSize(m) else 0)
         && JustAdded(x'.queues[n], x'.queues[n].Tail())
  {
    hide QueueOk, ReaderOk, Appended, AfterAppend, JustAdded, Readable, Bytes, IdsBelow;
    var x := rs[|rs| - 1];
    var q := x.queues[n];
    AppendQueueKeeps(ss[n], x.id, q, m);
    var a := Appended(q, m, ss[n].kind == Video);
    QueuesBytesUpdate(x.queues, n, a);
    ForwardBytesUpdate(ss, n, AfterAppend(ss[n], a, m));
    ReplaceQueuesOk(rs, |rs| - 1, AppendedRange(x, n, m, ss[n].kind == Video), |ss|, ids);
  }

  /** What accounting for packet `l` of stream `n`, or for its end, makes of streams, ranges and
      the queued seek; a range that grows may be joined with the next one. */
  ghost predicate AdjustOutcome(ss: seq<Stream>, rs: seq<Range>, p: PendingSeek, n: nat, l: Link,
                                ts: seq<Stream>, rs': seq<Range>, p': PendingSeek)
  {
    && rs != []
    && var x := rs[|rs| - 1];
       && n < |x.queues| == |ss| && Readable(x.queues[n]) && x.queues[n].HoldsLink(l)
       && var y := AdjustedRange(x, ss, n, l);
          if y.seekEnd > x.seekEnd then JoinOutcome(ss, rs[|rs| - 1 := y], p, ts, rs', p')
          else rs' == rs[|rs| - 1 := y] && ts == ss && p' == p
  }

  /** The stream appends the packet to its queue. */
  predicate Appends(s: Stream, p: PendingSeek, m: Media) {
    m.len != 0 && s.selected && !p.queued && !s.refreshing
  }

  /** What adding packet `m` to stream `n` does: it is refused while a seek is queued or the
      stream is not selected, skipped while the stream resumes, and otherwise appended. */
  ghost predicate AddOutcome(ss: seq<Stream>, rs: seq<Range>, p: PendingSeek, seekable: bool, n: nat, m: Media,
                             ts: seq<Stream>, rs': seq<Range>, p': PendingSeek)
  {
    && rs != []
    && var x := rs[|rs| - 1];
       && n < |x.queues| == |ss|
       && if m.len == 0 || !ss[n].selected || p.queued then
            rs' == rs && ts == ss && p' == p
          else if ss[n].refreshing then
            rs' == rs && p' == p && ts == ss[n := ss[n].(refreshing := StillBehind(x.queues[n], m))]
          else
            var a := AppendedRange(x, n, m, ss[n].kind == Video);
            if seekable then
              AdjustOutcome(AddedStreams(ss, x, n, m), rs[|rs| - 1 := a], p, n, a.queues[n].Tail(), ts, rs', p')
            else
              rs' == rs[|rs| - 1 := a] && ts == AddedStreams(ss, x, n, m) && p' == p
  }

  lemma RefusedOutcome(ss: seq<Stream>, rs: seq<Range>, p: PendingSeek, seekable: bool, n: nat, m: Media)
    requires rs != [] && n < |rs[|rs| - 1].queues| == |ss|
    requires m.len == 0 || !ss[n].selected || p.queued
    ensures AddOutcome(ss, rs, p, seekable, n, m, ss, rs, p)
  {
  }

  lemma SkippedOutcome(ss: seq<Stream>, rs: seq<Range>, p: PendingSeek, seekable: bool, n: nat, m: Media)
    requires rs != [] && n < |rs[|rs| - 1].queues| == |ss|
    requires !(m.len == 0 || !ss[n].selected || p.queued) && ss[n].refreshing
    ensures AddOutcome(ss, rs, p, seekable, n, m,
                       ss[n := ss[n].(refreshing := StillBehind(rs[|rs| - 1].queues[n], m))], rs, p)
  {
  }

  /** Packet `m` has been appended to stream `n`, as the new `tail` of its queue. */
  ghost predicate AppendDone(ss: seq<Stream>, rs: seq<Range>, n: nat, m: Media,
                             ts: seq<Stream>, rs': seq<Range>, tail: Link)
  {
    && rs != [] && n < |rs[|rs| - 1].queues| == |ss| == |ts|
    && var a := AppendedRange(rs[|rs| - 1], n, m, ss[n].kind == Video);
       && rs' == rs[|rs| - 1 := a] && tail == a.queues[n].Tail() && JustAdded(a.queues[n], tail)
       && ts == AddedStreams(ss, rs[|rs| - 1], n, m)
  }

  lemma AppendedOutcome(ss: seq<Stream>, rs: seq<Range>, p: PendingSeek, seekable: bool, n: nat, m: Media, tail: Link,
                        ss': seq<Stream>, rs': seq<Range>, ts: seq<Stream>, rs2: seq<Range>, p': PendingSeek)
    requires AppendDone(ss, rs, n, m, ss', rs', tail)
    requires !(m.len == 0 || !ss[n].selected || p.queued) && !ss[n].refreshing
    requires if seekable then AdjustOutcome(ss', rs', p, n, tail, ts, rs2, p')
             else rs2 == rs' && ts == ss' && p' == p
    ensures AddOutcome(ss, rs, p, seekable, n, m, ts, rs2, p')
  {
    hide AdjustOutcome;
  }

  lemma {:induction false} KeptBytes(rs: seq<Range>, n: nat)
    requires n < |rs|
    ensures RangesBytes(Kept(rs, n)) <= RangesBytes(rs[n..])
    decreases |rs| - n
  {
    assert rs[n..][1..] == rs[n + 1..];
    if n < |rs| - 1 {
      KeptBytes(rs, n + 1);
      assert ([rs[n]] + Kept(rs, n + 1))[1..] == Kept(rs, n + 1);
    }
  }

  lemma {:induction false} TrimBytes(rs: seq<Range>, max: nat)
    requires 1 <= max
    ensures RangesBytes(Trim(rs, max)) <= RangesBytes(rs)
    decreases |rs|
  {
    if |rs| > max {
      RangesBytesRemove(rs, Shortest(rs));
      TrimBytes(RemoveAt(rs, Shortest(rs)), max);
    }
  }

  lemma FreedBytes(rs: seq<Range>)
    requires rs != []
    ensures RangesBytes(Freed(rs)) <= RangesBytes(rs)
  {
    KeptBytes(rs, 0);
    assert rs[0..] == rs;
    TrimBytes(Kept(rs, 0), MAX_SEEK_RANGES);
  }

  // ---------- reading ----------

  /** The stream once its next packet has been handed to the reader. */
  function AfterRead(s: Stream, q: Queue): Stream
    requires s.reader.PacketAt? && q.Holds(s.reader.num)
    requires s.fwPacks > 0 && s.fwBytes >= EstimateSize(q.Get(s.reader.num).media)
  {
    var m := q.Get(s.reader.num).media;
    var ts := PtsOrDef(m.dts, m.pts);
    s.(reader := if s.reader.num + 1 < q.End() then PacketAt(s.reader.range, s.reader.num + 1) else NoPacket,
       fwPacks := s.fwPacks - 1,
       fwBytes := s.fwBytes - EstimateSize(m),
       baseTs := if ts != NOPTS then ts else s.baseTs)
  }

  /** Reading takes the first of the forward packets and counts the rest correctly. */
  lemma AfterReadReader(s: Stream, id: nat, q: Queue)
    requires ReaderOk(s, id, q) && s.reader.PacketAt?
    ensures s.fwPacks > 0 && s.fwBytes >= EstimateSize(q.Get(s.reader.num).media)
    ensures var t := AfterRead(s, q); var m := q.Get(s.reader.num).media;
      && ReaderOk(t, id, q)
      && Forward(s, q) == [q.Get(s.reader.num)] + Forward(t, q)
      && s.fwBytes == EstimateSize(m) + t.fwBytes && s.fwPacks == 1 + t.fwPacks
  {
    hide EstimateSize;
    var f := Forward(s, q);
    assert f[0] == q.Get(s.reader.num);
    assert f[1..] == q.packets[s.reader.num - q.base + 1..];
    BytesConcat([f[0]], f[1..]);
    assert [f[0]] + f[1..] == f;
    assert Bytes(f) == EstimateSize(f[0].media) + Bytes(f[1..]);
  }

  /** The same for a whole range's streams. */
  lemma AdvancedReaders(ss: seq<Stream>, x: Range, n: nat)
    requires ReadersOk(ss, x) && n < |ss| && ss[n].reader.PacketAt?
    ensures var s, q := ss[n], x.queues[n];
      && q.Holds(s.reader.num) && s.fwPacks > 0 && s.fwBytes >= EstimateSize(q.Get(s.reader.num).media)
      && var ts := ss[n := AfterRead(s, q)];
         && ReadersOk(ts, x) && ForwardBytes(ss) == EstimateSize(q.Get(s.reader.num).media) + ForwardBytes(ts)
         && Forward(s, q) == [q.Get(s.reader.num)] + Forward(ts[n], q)
  {
    hide EstimateSize, Forward, Bytes;
    assert ReaderOk(ss[n], x.id, x.queues[n]);
    AfterReadReader(ss[n], x.id, x.queues[n]);
    hide AfterRead;
    ForwardBytesUpdate(ss, n, AfterRead(ss[n], x.queues[n]));
  }

  /** The two streams are read from the same position, with the same counts. */
  predicate SameReader(s: Stream, t: Stream) {
    s.queue == t.queue && s.reader == t.reader && s.fwBytes == t.fwBytes && s.fwPacks == t.fwPacks
  }

  lemma SameReaders(ss: seq<Stream>, x: Range, n: nat, s: Stream)
    requires ReadersOk(ss, x) && n < |ss| && SameReader(s, ss[n])
    ensures ReadersOk(ss[n := s], x) && ForwardBytes(ss[n := s]) == ForwardBytes(ss)
  {
    ForwardBytesUpdate(ss, n, s);
    assert ReaderOk(ss[n], x.id, x.queues[n]);
    assert Forward(s, x.queues[n]) == Forward(ss[n], x.queues[n]);
  }

  lemma StillRead(s: Stream, t: Stream, id: nat, q: Queue)
    requires ReaderOk(s, id, q) && SameReader(t, s)
    ensures ReaderOk(t, id, q)
  {
    assert Forward(t, q) == Forward(s, q);
  }

  lemma {:induction false} SameForward(ss: seq<Stream>, ts: seq<Stream>)
    requires |ss| == |ts| && forall n :: 0 <= n < |ss| ==> ts[n].fwBytes == ss[n].fwBytes
    ensures ForwardBytes(ts) == ForwardBytes(ss)
  {
    if ss != [] {
      SameForward(ss[1..], ts[1..]);
    }
  }

  /** Streams that are read alike fit the same range. */
  lemma AllStillRead(ss: seq<Stream>, ts: seq<Stream>, x: Range)
    requires ReadersOk(ss, x) && |ts| == |ss| && forall n :: 0 <= n < |ss| ==> SameReader(ts[n], ss[n])
    ensures ReadersOk(ts, x) && ForwardBytes(ts) == ForwardBytes(ss)
  {
    hide ForwardBytes, ReaderOk;
    SameForward(ss, ts);
    forall n | 0 <= n < |ss| ensures ReaderOk(ts[n], x.id, x.queues[n]) {
      StillRead(ss[n], ts[n], x.id, x.queues[n]);
    }
  }

  // ---------- seeking ----------

  /** A stream sent to its seek target in range `x`. */
  function Seeked(s: Stream, id: nat, q: Queue, pts: real, forward: bool): Stream
    requires QueueOk(q)
  {
    var l := SeekTarget(q, pts, forward);
    var t := s.(reader := if l.At? then PacketAt(id, l.num) else NoPacket,
                skipToKeyframe := l.Null?,
                baseTs := if l.At? then PtsOrDef(q.Get(l.num).media.pts, q.Get(l.num).media.dts) else s.baseTs);
    Recounted(t, q)
  }

  lemma SeekedReader(s: Stream, id: nat, q: Queue, pts: real, forward: bool)
    requires QueueOk(q)
    ensures ReaderAt(Seeked(s, id, q, pts, forward), id, q)
  {
  }

  /** Where to seek in range `x`: unless the seek is exact, at the first selected video stream's
      keyframe. */
  datatype Target = Target(pts: real, forward: bool)

  function SeekTo(x: Range, ss: seq<Stream>, n: nat, pts: real, flags: SeekFlags): Target
    requires n <= |x.queues| == |ss| && QueuesOk(x.queues)
    decreases |ss| - n
  {
    if flags.hr || n == |ss| then Target(pts, flags.forward)
    else if ss[n].selected && ss[n].kind == Video then
      var l := SeekTarget(x.queues[n], pts, flags.forward);
      if l.At? && x.queues[n].Get(l.num).kfSeekPts != NOPTS then Target(x.queues[n].Get(l.num).kfSeekPts, false)
      else Target(pts, flags.forward)
    else SeekTo(x, ss, n + 1, pts, flags)
  }

  /** The packets a range need not keep for seeking back into it are dropped. */
  function LeftBehind(q: Queue): Queue {
    if q.nextPrune.At? && q.Holds(q.nextPrune.num) then Drop(q, q.nextPrune.num - q.base + 1) else q
  }

  predicate Resumable(ss: seq<Stream>) {
    forall n :: 0 <= n < |ss| && ss[n].selected ==> ss[n].globalCorrectDts || ss[n].globalCorrectPos
  }

  /** `y` is what becomes of range `x` when it is no longer the current one. */
  ghost predicate Backgrounded(x: Range, ss: seq<Stream>, y: Range) {
    && y.id == x.id && |y.queues| == |x.queues| && QueuesOk(x.queues)
    && if Resumable(ss) then
         && y.seekStart == x.seekStart && y.seekEnd == x.seekEnd
         && forall n :: 0 <= n < |x.queues| ==> y.queues[n] == LeftBehind(x.queues[n])
       else
         && y.seekStart == NOPTS && y.seekEnd == NOPTS
         && forall n :: 0 <= n < |x.queues| ==> y.queues[n] == Cleared(LeftBehind(x.queues[n]))
  }

  /** Range `r` made the last one, most recently used. */
  function MovedToEnd(rs: seq<Range>, r: nat): (m: seq<Range>)
    requires r < |rs|
    ensures |m| == |rs| && m[|m| - 1] == rs[r]
  {
    RemoveAt(rs, r) + [rs[r]]
  }

  lemma LastAppended(rs: seq<Range>, x: Range, streams: nat, ids: nat)
    requires RangesOk(rs, streams) && IdsBelow(rs, ids) && |x.queues| == streams && QueuesOk(x.queues) && x.id < ids
    requires forall i :: 0 <= i < |rs| ==> rs[i].id != x.id
    ensures RangesOk(rs + [x], streams) && IdsBelow(rs + [x], ids)
  {
    hide QueuesOk;
  }

  lemma OneRangeBytes(x: Range)
    ensures RangesBytes([x]) == QueuesBytes(x.queues)
  {
    assert [x][1..] == [];
  }

  lemma RemovedIdsDiffer(rs: seq<Range>, r: nat, streams: nat)
    requires RangesOk(rs, streams) && r < |rs|
    ensures forall i :: 0 <= i < |rs| - 1 ==> RemoveAt(rs, r)[i].id != rs[r].id
    ensures |rs[r].queues| == streams && QueuesOk(rs[r].queues)
  {
    hide QueuesOk;
  }

  lemma {:induction false} MovedToEndOk(rs: seq<Range>, r: nat, streams: nat, ids: nat)
    requires RangesOk(rs, streams) && IdsBelow(rs, ids) && r < |rs|
    ensures RangesOk(MovedToEnd(rs, r), streams) && IdsBelow(MovedToEnd(rs, r), ids)
    ensures RangesBytes(MovedToEnd(rs, r)) == RangesBytes(rs)
    ensures r == |rs| - 1 ==> MovedToEnd(rs, r) == rs
  {
    hide RangesOk, RangesBytes;
    RemoveKeeps(rs, r, streams, ids);
    RemovedIdsDiffer(rs, r, streams);
    LastAppended(RemoveAt(rs, r), rs[r], streams, ids);
    RangesBytesConcat(RemoveAt(rs, r), [rs[r]]);
    OneRangeBytes(rs[r]);
    assert r == |rs| - 1 ==> MovedToEnd(rs, r) == rs;
  }

  /** Position of the range with the given id. */
  function PositionOf(rs: seq<Range>, id: nat): (r: int)
    ensures r == -1 || (0 <= r < |rs| && rs[r].id == id)
    ensures r == -1 ==> forall i :: 0 <= i < |rs| ==> rs[i].id != id
  {
    if rs == [] then -1
    else if rs[0].id == id then 0
    else
      var r := PositionOf(rs[1..], id);
      assert forall i :: 0 < i < |rs| ==> rs[i] == rs[1..][i - 1];
      if r == -1 then -1 else r + 1
  }

  lemma PositionIs(rs: seq<Range>, r: nat, streams: nat)
    requires RangesOk(rs, streams) && r < |rs|
    ensures PositionOf(rs, rs[r].id) == r
  {
  }

  /** The streams once they read from range `id`. */
  function Switched(ss: seq<Stream>, id: nat): (ts: seq<Stream>)
    ensures |ts| == |ss|
  {
    seq(|ss|, n requires 0 <= n < |ss| => ss[n].(queue := id, refreshing := false, eof := false))
  }

  lemma SwitchedReaders(ss: seq<Stream>, x: Range)
    requires |ss| == |x.queues| && forall n :: 0 <= n < |ss| ==> ReaderAt(ss[n], x.id, x.queues[n])
    ensures ReadersOk(Switched(ss, x.id), x) && ForwardBytes(Switched(ss, x.id)) == ForwardBytes(ss)
  {
    SameForward(ss, Switched(ss, x.id));
    forall n | 0 <= n < |ss| ensures ReaderOk(Switched(ss, x.id)[n], x.id, x.queues[n]) {
      assert ReaderAt(ss[n], x.id, x.queues[n]);
    }
  }

  lemma ReadersPointTo(ss: seq<Stream>, rs: seq<Range>)
    requires rs != [] && |rs[|rs| - 1].queues| == |ss|
    requires forall n :: 0 <= n < |ss| ==> ReaderAt(ss[n], rs[|rs| - 1].id, rs[|rs| - 1].queues[n])
    ensures ReadersInLast(ss, rs)
  {
  }

  /** The range's window contains `pts`. */
  predicate Covers(x: Range, pts: real) {
    x.seekStart != NOPTS && x.seekStart <= pts <= x.seekEnd
  }

  /** The streams after a seek inside range `x`. */
  function SeekedAll(ss: seq<Stream>, x: Range, t: Target): (ts: seq<Stream>)
    requires |x.queues| == |ss| && QueuesOk(x.queues)
    ensures |ts| == |ss|
  {
    seq(|ss|, n requires 0 <= n < |ss| => Seeked(ss[n], x.id, x.queues[n], t.pts, t.forward))
  }

  /** The selected streams wait for the demuxer to get past what is cached. */
  function Resuming(ss: seq<Stream>): (ts: seq<Stream>)
    ensures |ts| == |ss|
  {
    seq(|ss|, n requires 0 <= n < |ss| => ss[n].(refreshing := ss[n].selected))
  }

  /** The current range is `cur`, and every reader already points into range `id`. */
  ghost predicate Switchable(ss: seq<Stream>, rs: seq<Range>, cur: nat, id: nat) {
    && PositionOf(rs, id) != -1 && cur != id
    && var m := MovedToEnd(rs, PositionOf(rs, id));
       && |m| >= 2 && m[|m| - 2].id == cur
       && |m[|m| - 1].queues| == |ss|
       && forall n :: 0 <= n < |ss| ==> ReaderAt(ss[n], id, m[|m| - 1].queues[n])
  }

  /** The list `m`, whose last range was just made current, with the previous one put aside as `y`. */
  ghost predicate SwitchedAway(m: seq<Range>, ss: seq<Stream>, rs': seq<Range>, y: Range)
    requires |m| >= 2
  {
    Backgrounded(m[|m| - 2], ss, y) && rs' == Freed(m[|m| - 2 := y])
  }

  /** A seek served from range `r`: the readers are sent to their targets there, and if it is not
      the current range it becomes current and the demuxer is sent to its end. */
  ghost predicate SeekOutcome(ss: seq<Stream>, rs: seq<Range>, cur: nat, p: PendingSeek,
                              pts: real, flags: SeekFlags, r: nat,
                              ts: seq<Stream>, rs': seq<Range>, cur': nat, p': PendingSeek)
  {
    && r < |rs| && |rs[r].queues| == |ss| && QueuesOk(rs[r].queues) && cur' == rs[r].id
    && var sought := SeekedAll(ss, rs[r], SeekTo(rs[r], ss, 0, pts, flags));
       if rs[r].id == cur then rs' == rs && ts == sought && p' == p
       else
         && |rs| >= 2
         && var m := MovedToEnd(rs, r);
            && (exists y :: SwitchedAway(m, sought, rs', y))
            && ts == Resuming(Switched(sought, cur'))
            && p' == PendingSeek(true, SeekFlags(false, false, true), rs[r].seekEnd - 1.0)
  }

  lemma ResumingReaders(ss: seq<Stream>, x: Range)
    requires ReadersOk(ss, x)
    ensures ReadersOk(Resuming(ss), x) && ForwardBytes(Resuming(ss)) == ForwardBytes(ss)
  {
    AllStillRead(ss, Resuming(ss), x);
  }

  lemma {:induction false} SeekedReaders(ss: seq<Stream>, x: Range, t: Target)
    requires |x.queues| == |ss| && QueuesOk(x.queues)
    ensures forall n :: 0 <= n < |ss| ==> ReaderAt(SeekedAll(ss, x, t)[n], x.id, x.queues[n])
    ensures forall n :: 0 <= n < |ss| ==> SeekedAll(ss, x, t)[n].queue == ss[n].queue
  {
    forall n | 0 <= n < |ss| ensures ReaderAt(SeekedAll(ss, x, t)[n], x.id, x.queues[n]) {
      SeekedReader(ss[n], x.id, x.queues[n], t.pts, t.forward);
    }
  }

  lemma {:induction false} SeekedReadersOk(ss: seq<Stream>, x: Range, t: Target)
    requires |x.queues| == |ss| && QueuesOk(x.queues) && ReadersOk(ss, x)
    ensures ReadersOk(SeekedAll(ss, x, t), x)
  {
    SeekedReaders(ss, x, t);
    forall n | 0 <= n < |ss| ensures ReaderOk(SeekedAll(ss, x, t)[n], x.id, x.queues[n]) {
      assert ReaderOk(ss[n], x.id, x.queues[n]);
    }
  }

  // ---------- clearing and selecting ----------

  /** ds_clear_reader_state. */
  function Unread(s: Stream): Stream {
    s.(reader := NoPacket, eof := false, baseTs := NOPTS, skipToKeyframe := false, pictureAdded := false,
       fwBytes := 0, fwPacks := 0)
  }

  function UnreadAll(ss: seq<Stream>): (ts: seq<Stream>)
    ensures |ts| == |ss|
  {
    seq(|ss|, n requires 0 <= n < |ss| => Unread(ss[n]))
  }

  lemma UnreadReader(s: Stream, id: nat, q: Queue)
    requires ReaderOk(s, id, q)
    ensures ReaderOk(Unread(s), id, q)
  {
    assert Forward(Unread(s), q) == [];
  }

  lemma {:induction false} NothingForward(ss: seq<Stream>)
    requires forall n :: 0 <= n < |ss| ==> ss[n].fwBytes == 0
    ensures ForwardBytes(ss) == 0
  {
    if ss != [] {
      NothingForward(ss[1..]);
    }
  }

  lemma UnreadReaders(ss: seq<Stream>, x: Range)
    requires ReadersOk(ss, x)
    ensures ReadersOk(UnreadAll(ss), x) && ForwardBytes(UnreadAll(ss)) == 0
  {
    NothingForward(UnreadAll(ss));
    forall n | 0 <= n < |ss| ensures ReaderOk(UnreadAll(ss)[n], x.id, x.queues[n]) {
      assert ReaderOk(ss[n], x.id, x.queues[n]);
      UnreadReader(ss[n], x.id, x.queues[n]);
    }
  }

  /** Some selected stream other than a subtitle or a still picture is read. */
  predicate AnyAv(ss: seq<Stream>) {
    exists n :: 0 <= n < |ss| && ss[n].selected && !ss[n].attachedPicture && ss[n].kind != Sub
  }

  /** Streams are read eagerly if selected; subtitles only if nothing else is. */
  function WithEagerness(ss: seq<Stream>): (ts: seq<Stream>)
    ensures |ts| == |ss|
  {
    seq(|ss|, n requires 0 <= n < |ss| =>
      ss[n].(eager := ss[n].selected && !ss[n].attachedPicture && !(ss[n].kind == Sub && AnyAv(ss))))
  }

  lemma EagernessReaders(ss: seq<Stream>, x: Range)
    requires ReadersOk(ss, x)
    ensures ReadersOk(WithEagerness(ss), x) && ForwardBytes(WithEagerness(ss)) == ForwardBytes(ss)
  {
    hide AnyAv;
    AllStillRead(ss, WithEagerness(ss), x);
  }

  /** A range with nothing in it for `n` streams. */
  function EmptyRange(id: nat, n: nat): (x: Range)
    ensures |x.queues| == n
  {
    Range(id, seq(n, i => FRESH_QUEUE), NOPTS, NOPTS)
  }

  lemma FreshRangeOk(rs: seq<Range>, streams: nat, id: nat)
    requires RangesOk(rs, streams) && IdsBelow(rs, id)
    ensures var rs' := rs + [EmptyRange(id, streams)];
      RangesOk(rs', streams) && IdsBelow(rs', id + 1) && RangesBytes(rs') == RangesBytes(rs)
  {
    var x := EmptyRange(id, streams);
    EmptyQueuesBytes(x.queues);
    RangesBytesConcat(rs, [x]);
    assert [x][1..] == [];
  }

  lemma LastRangeSize(rs: seq<Range>, streams: nat)
    requires RangesOk(rs, streams) && rs != []
    ensures |rs[|rs| - 1].queues| == streams
  {
  }

  lemma NewIdIsNew(rs: seq<Range>, id: nat)
    requires IdsBelow(rs, id) && rs != []
    ensures rs[|rs| - 1].id != id
  {
  }

  lemma PositionOfLast(rs: seq<Range>, streams: nat)
    requires rs != [] && RangesOk(rs, streams)
    ensures PositionOf(rs, rs[|rs| - 1].id) == |rs| - 1 && MovedToEnd(rs, |rs| - 1) == rs
  {
    hide RangesOk, PositionOf;
    PositionIs(rs, |rs| - 1, streams);
    assert rs[|rs|..] == [];
    assert rs[..|rs| - 1] + [] + [rs[|rs| - 1]] == rs;
  }

  /** Streams without a reader position fit any range with the same id. */
  lemma UnreadStay(ss: seq<Stream>, x: Range, y: Range)
    requires ReadersOk(ss, x) && y.id == x.id && |y.queues| == |x.queues|
    requires forall n :: 0 <= n < |ss| ==> ss[n].reader.NoPacket?
    ensures ReadersOk(ss, y)
  {
    forall n | 0 <= n < |ss| ensures ReaderOk(ss[n], y.id, y.queues[n]) {
      assert ReaderOk(ss[n], x.id, x.queues[n]);
      assert Forward(ss[n], y.queues[n]) == Forward(ss[n], x.queues[n]) == [];
    }
  }

  lemma UnreadElsewhere(ss: seq<Stream>, x: Range, y: Range)
    requires ReadersOk(ss, x) && |y.queues| == |x.queues|
    requires forall n :: 0 <= n < |ss| ==> ss[n].reader.NoPacket?
    ensures forall n :: 0 <= n < |ss| ==> ReaderAt(ss[n], y.id, y.queues[n])
  {
    forall n | 0 <= n < |ss| ensures ReaderAt(ss[n], y.id, y.queues[n]) {
      assert ReaderOk(ss[n], x.id, x.queues[n]);
      assert Forward(ss[n], y.queues[n]) == Forward(ss[n], x.queues[n]) == [];
    }
  }

  /** What switching to a fresh range does: the current range is cleared if the cache is not
      seekable; otherwise it is put aside and all streams read from the new, empty range `id`. */
  ghost predicate FreshOutcome(ss: seq<Stream>, rs: seq<Range>, seekable: bool, id: nat,
                               ts: seq<Stream>, rs': seq<Range>)
  {
    && rs != []
    && if !seekable then ts == ss && rs' == rs[|rs| - 1 := ClearedRange(rs[|rs| - 1])]
       else ts == Switched(ss, id) && exists y :: SwitchedAway(rs + [EmptyRange(id, |ss|)], ss, rs', y)
  }

  lemma FreshIsEmpty(ss: seq<Stream>, rs: seq<Range>, seekable: bool, id: nat, ts: seq<Stream>, rs': seq<Range>)
    requires FreshOutcome(ss, rs, seekable, id, ts, rs')
    ensures rs' != []
    ensures var qs := rs'[|rs'| - 1].queues; forall n :: 0 <= n < |qs| ==> qs[n].packets == []
    ensures forall n :: 0 <= n < |ss| ==> ts[n].reader == ss[n].reader
  {
    hide Freed, Backgrounded;
    if seekable {
      var m := rs + [EmptyRange(id, |ss|)];
      var y :| SwitchedAway(m, ss, rs', y);
      assert rs'[|rs'| - 1] == m[|m| - 1];
    }
  }

  /** All ranges emptied: only the last one survives. */
  lemma {:induction false} KeptOfBlank(rs: seq<Range>, n: nat)
    requires n < |rs| && forall i :: 0 <= i < |rs| ==> rs[i].seekStart == NOPTS
    ensures Kept(rs, n) == [rs[|rs| - 1]]
    decreases |rs| - n
  {
    if n < |rs| - 1 {
      KeptOfBlank(rs, n + 1);
    }
  }

  lemma FreedOfBlank(rs: seq<Range>, was: seq<Range>)
    requires rs != [] && |was| == |rs| && forall i :: 0 <= i < |rs| ==> rs[i] == ClearedRange(was[i])
    ensures Freed(rs) == [rs[|rs| - 1]] && RangesBytes(Freed(rs)) == 0
  {
    KeptOfBlank(rs, 0);
    EmptyQueuesBytes(rs[|rs| - 1].queues);
    assert Freed(rs)[1..] == [];
  }

  lemma ClearedShape(x: Range)
    ensures ClearedRange(x).id == x.id && |ClearedRange(x).queues| == |x.queues|
  {
  }

  /** A stream whose selection changed; its packets are dropped if it is no longer selected. */
  function Reselected(s: Stream): Stream {
    Unread(s).(refreshing := false)
  }

  function Deselected(x: Range, n: nat, selected: bool): Range
    requires n < |x.queues|
  {
    if selected then x else x.(queues := x.queues[n := Cleared(x.queues[n])])
  }

  /** All ranges after stream `n` of `ss` was selected or deselected. */
  function Renewed(rs: seq<Range>, ss: seq<Stream>, n: nat): (rs': seq<Range>)
    requires n < |ss| && forall r :: 0 <= r < |rs| ==> |rs[r].queues| == |ss|
    ensures |rs'| == |rs|
  {
    seq(|rs|, r requires 0 <= r < |rs| => WithWindow(Deselected(rs[r], n, ss[n].selected), ss))
  }

  /** While they are visited in order: the first `r` renewed, the others as they were. */
  function RenewedUpTo(rs: seq<Range>, ss: seq<Stream>, n: nat, r: nat): (rs': seq<Range>)
    requires n < |ss| && (forall r :: 0 <= r < |rs| ==> |rs[r].queues| == |ss|) && r <= |rs|
    ensures |rs'| == |rs|
  {
    Renewed(rs, ss, n)[..r] + rs[r..]
  }

  lemma RenewedStep(rs: seq<Range>, ss: seq<Stream>, n: nat, r: nat)
    requires n < |ss| && r < |rs| && forall r :: 0 <= r < |rs| ==> |rs[r].queues| == |ss|
    ensures var was := RenewedUpTo(rs, ss, n, r);
      && was[r] == rs[r]
      && RenewedUpTo(rs, ss, n, r + 1) == was[r := WithWindow(Deselected(rs[r], n, ss[n].selected), ss)]
  {
    hide WithWindow, Deselected;
  }

  lemma RenewedEnds(rs: seq<Range>, ss: seq<Stream>, n: nat)
    requires n < |ss| && forall r :: 0 <= r < |rs| ==> |rs[r].queues| == |ss|
    ensures RenewedUpTo(rs, ss, n, 0) == rs && RenewedUpTo(rs, ss, n, |rs|) == Renewed(rs, ss, n)
  {
    assert rs[0..] == rs && rs[|rs|..] == [];
  }

  /** What a change of stream `n`'s selection does: its reader state is reset, its packets go if
      it is not selected, all windows are renewed - with the eagerness from before the change -
      and then every stream's eagerness is renewed. */
  ghost predicate SelectionOutcome(ss: seq<Stream>, rs: seq<Range>, n: nat, ts: seq<Stream>, rs': seq<Range>) {
    && n < |ss| && rs != [] && (forall r :: 0 <= r < |rs| ==> |rs[r].queues| == |ss|)
    && var reset := ss[n := Reselected(ss[n])];
       && ts == WithEagerness(reset)
       && rs' == Freed(Renewed(rs, reset, n))
  }

  /** A stream that is not read anywhere may lose its packets. */
  lemma DeselectedReaders(ss: seq<Stream>, x: Range, n: nat, selected: bool)
    requires ReadersOk(ss, x) && n < |ss| && ss[n].reader.NoPacket?
    ensures ReadersOk(ss, WithWindow(Deselected(x, n, selected), ss))
  {
    var y := WithWindow(Deselected(x, n, selected), ss);
    forall i | 0 <= i < |ss| ensures ReaderOk(ss[i], y.id, y.queues[i]) {
      assert ReaderOk(ss[i], x.id, x.queues[i]);
      assert i == n ==> Forward(ss[i], y.queues[i]) == Forward(ss[i], x.queues[i]) == [];
    }
  }

  lemma DeselectedIsUpdate(rs: seq<Range>, r: nat, n: nat)
    requires r < |rs| && n < |rs[r].queues|
    ensures SetQueue(rs, r, n, Cleared(rs[r].queues[n])) == rs[r := Deselected(rs[r], n, false)]
    ensures rs[r := Deselected(rs[r], n, true)] == rs
  {
  }

  lemma ReselectedReaders(ss: seq<Stream>, x: Range, n: nat)
    requires ReadersOk(ss, x) && n < |ss|
    ensures ReadersOk(ss[n := Reselected(ss[n])], x)
    ensures ForwardBytes(ss[n := Reselected(ss[n])]) + ss[n].fwBytes == ForwardBytes(ss)
  {
    ForwardBytesUpdate(ss, n, Reselected(ss[n]));
    assert ReaderOk(ss[n], x.id, x.queues[n]);
    assert Forward(Reselected(ss[n]), x.queues[n]) == [];
  }

  // ---------- new streams ----------

  /** A stream as it is before its first selection update. */
  function NewStream(kind: StreamType, attachedPicture: bool, selected: bool, queue: nat): Stream {
    Stream(kind, attachedPicture, selected, false, false, true, true, queue, 0.0, 0, 0, false,
           NoPacket, false, false, false)
  }

  /** Every range gets an empty queue for a new stream. */
  function Widened(rs: seq<Range>): (rs': seq<Range>)
    ensures |rs'| == |rs|
  {
    seq(|rs|, r requires 0 <= r < |rs| => rs[r].(queues := rs[r].queues + [FRESH_QUEUE]))
  }

  lemma {:induction false} WidenedBytes(rs: seq<Range>)
    ensures RangesBytes(Widened(rs)) == RangesBytes(rs)
  {
    if rs != [] {
      WidenedBytes(rs[1..]);
      assert Widened(rs)[1..] == Widened(rs[1..]);
      QueuesBytesSnoc(rs[0].queues, FRESH_QUEUE);
    }
  }

  lemma WidenedOk(rs: seq<Range>, streams: nat, ids: nat)
    requires RangesOk(rs, streams) && IdsBelow(rs, ids)
    ensures RangesOk(Widened(rs), streams + 1) && IdsBelow(Widened(rs), ids)
  {
    var w := Widened(rs);
    forall r | 0 <= r < |w| ensures |w[r].queues| == streams + 1 && QueuesOk(w[r].queues) {
      assert QueuesOk(rs[r].queues);
    }
    forall r, x | 0 <= r < x < |w| ensures w[r].id != w[x].id {
      assert rs[r].id != rs[x].id;
    }
  }

  lemma WidenedLast(rs: seq<Range>)
    requires rs != []
    ensures Widened(rs)[|rs| - 1].id == rs[|rs| - 1].id
  {
  }

  lemma WidenedReaders(ss: seq<Stream>, rs: seq<Range>, s: Stream)
    requires rs != [] && ReadersOk(ss, rs[|rs| - 1])
    requires s.queue == rs[|rs| - 1].id && s.reader.NoPacket? && s.fwBytes == 0 && s.fwPacks == 0
    ensures ReadersOk(ss + [s], Widened(rs)[|rs| - 1]) && ForwardBytes(ss + [s]) == ForwardBytes(ss)
  {
    hide ForwardBytes, ReaderOk;
    ForwardBytesSnoc(ss, s);
    var x, y := rs[|rs| - 1], Widened(rs)[|rs| - 1];
    forall n | 0 <= n < |ss| + 1 ensures ReaderOk((ss + [s])[n], y.id, y.queues[n]) {
      if n < |ss| {
        assert ReaderOk(ss[n], x.id, x.queues[n]);
      } else {
        NewReader(s, y.id);
      }
    }
  }

  lemma NewReader(s: Stream, id: nat)
    requires s.queue == id && s.reader.NoPacket? && s.fwBytes == 0 && s.fwPacks == 0
    ensures ReaderOk(s, id, FRESH_QUEUE)
  {
    assert Forward(s, FRESH_QUEUE) == [];
  }

  // ---------- refreshing after a selection ----------

  /** Where to seek back to: the earliest position read in a selected video or audio stream. */
  function RefreshStart(ss: seq<Stream>, n: nat, ts: real): real
    requires n <= |ss|
  {
    if n == 0 then ts
    else
      var t := RefreshStart(ss, n - 1, ts);
      if ss[n - 1].selected && ss[n - 1].kind != Sub then PtsMin(t, ss[n - 1].baseTs) else t
  }

  /** No stream but the `n`th is selected. */
  predicate OnlySelected(ss: seq<Stream>, n: nat) {
    forall i :: 0 <= i < |ss| && ss[i].selected ==> i == n
  }

  predicate Refreshable(ss: seq<Stream>, qs: seq<Queue>)
    requires |ss| == |qs|
  {
    forall i :: 0 <= i < |ss| && ss[i].selected ==> qs[i].correctDts || qs[i].correctPos
  }

  /** Selected streams that have had packets wait until the demuxer passes them. */
  function RefreshingAll(ss: seq<Stream>, qs: seq<Queue>): (ts: seq<Stream>)
    requires |ss| == |qs|
    ensures |ts| == |ss|
  {
    seq(|ss|, n requires 0 <= n < |ss| =>
      if qs[n].lastPos != -1 || qs[n].lastDts != NOPTS then ss[n].(refreshing := ss[n].refreshing || ss[n].selected)
      else ss[n])
  }

  /** The seek queued for a newly selected stream `n`, if one is needed and possible. */
  ghost predicate RefreshOutcome(ss: seq<Stream>, qs: seq<Queue>, p: PendingSeek, n: nat, refPts: real, seekable: bool,
                                 ts: seq<Stream>, p': PendingSeek)
  {
    && |ss| == |qs|
    && var start := RefreshStart(ss, |ss|, refPts);
       if start == NOPTS || !seekable || (!OnlySelected(ss, n) && !Refreshable(ss, qs)) then ts == ss && p' == p
       else if OnlySelected(ss, n) then ts == ss && p' == PendingSeek(true, SeekFlags(false, false, true), start)
       else ts == RefreshingAll(ss, qs) && p' == PendingSeek(true, SeekFlags(false, false, true), start - 1.0)
  }

  lemma {:induction false} RefreshingReaders(ss: seq<Stream>, x: Range, p: PendingSeek, n: nat,
                                             refPts: real, seekable: bool,
                                             ts: seq<Stream>, p': PendingSeek)
    requires ReadersOk(ss, x) && RefreshOutcome(ss, x.queues, p, n, refPts, seekable, ts, p')
    ensures |ts| == |ss| && ReadersOk(ts, x) && ForwardBytes(ts) == ForwardBytes(ss)
  {
    hide RefreshStart, Refreshable, OnlySelected, ReadersOk, ForwardBytes;
    AllStillRead(ss, ts, x);
  }

  // ---------- deciding whether to read ----------

  predicate Starved(s: Stream) { s.eager && s.reader.NoPacket? }

  predicate Short(s: Stream, q: Queue, minSecs: real) {
    s.refreshing
    || (s.eager && q.lastTs != NOPTS && minSecs > 0.0 && s.baseTs != NOPTS && 0.0 <= q.lastTs - s.baseTs < minSecs)
  }

  function OutOfPackets(ss: seq<Stream>): (ts: seq<Stream>)
    ensures |ts| == |ss|
  {
    seq(|ss|, n requires 0 <= n < |ss| => ss[n].(eof := ss[n].eof || ss[n].reader.NoPacket?))
  }

  /** Some stream has run out of packets or wants to have more of them ahead of its reader. */
  predicate WantsMore(ss: seq<Stream>, qs: seq<Queue>, minSecs: real)
    requires |ss| == |qs|
  {
    exists n :: 0 <= n < |ss| && (Starved(ss[n]) || Short(ss[n], qs[n], minSecs))
  }

  predicate AnyStarved(ss: seq<Stream>) {
    exists n :: 0 <= n < |ss| && Starved(ss[n])
  }

  /** Whether to read, and what becomes of the streams: if the limit is reached although a stream
      has run out of packets, streams without packets are told that there are none. */
  ghost predicate ReadDecision(ss: seq<Stream>, qs: seq<Queue>, reading: bool, full: bool, minSecs: real,
                               read: bool, ts: seq<Stream>)
  {
    && |ss| == |qs|
    && read == (reading && !full && WantsMore(ss, qs, minSecs))
    && ts == if reading && full && AnyStarved(ss) then OutOfPackets(ss) else ss
  }

  lemma {:induction false} DecidedReaders(ss: seq<Stream>, x: Range, reading: bool, full: bool, minSecs: real,
                                          read: bool, ts: seq<Stream>)
    requires ReadersOk(ss, x) && ReadDecision(ss, x.queues, reading, full, minSecs, read, ts)
    ensures |ts| == |ss| && ReadersOk(ts, x) && ForwardBytes(ts) == ForwardBytes(ss)
  {
    hide WantsMore, AnyStarved, ReadersOk, ForwardBytes;
    AllStillRead(ss, ts, x);
  }

  // ---------- the end of the input ----------

  datatype Snapshot = Snapshot(streams: seq<Stream>, ranges: seq<Range>, pending: PendingSeek)

  /** Stream `n` learns of the end of the input: unless it knew, its last keyframe range is
      completed, which may join ranges. */
  ghost predicate EofStep(a: Snapshot, n: nat, seekable: bool, b: Snapshot) {
    && n < |a.streams|
    && if a.streams[n].eof then b == a
       else exists ts :: EofAdjusted(a, n, seekable, b, ts)
  }

  ghost predicate EofAdjusted(a: Snapshot, n: nat, seekable: bool, b: Snapshot, ts: seq<Stream>) {
    && n < |ts| == |a.streams|
    && b.streams == ts[n := ts[n].(eof := true)]
    && if seekable then AdjustOutcome(a.streams, a.ranges, a.pending, n, Null, ts, b.ranges, b.pending)
       else ts == a.streams && b.ranges == a.ranges && b.pending == a.pending
  }

  /** Closing stream `n`'s last keyframe range lets the current range grow into one that it can be
      joined with. */
  ghost predicate EndJoins(a: Snapshot, n: nat, seekable: bool) {
    && seekable && a.ranges != []
    && var x := a.ranges[|a.ranges| - 1];
       && n < |x.queues| == |a.streams| && !a.streams[n].eof && Readable(x.queues[n])
       && var y := AdjustedRange(x, a.streams, n, Null);
          && y.seekEnd > x.seekEnd
          && var c := JoinCandidate(a.ranges[|a.ranges| - 1 := y], |a.ranges| - 1);
             c != -1 && |a.ranges[c].queues| == |a.streams| && AllCanJoin(a.streams, y.queues, a.ranges[c].queues)
  }

  lemma {:induction false} EndQueuesSeek(a: Snapshot, n: nat, seekable: bool, b: Snapshot)
    requires EofStep(a, n, seekable, b)
    ensures b.pending.queued <==> a.pending.queued || EndJoins(a, n, seekable)
  {
    hide AdjustedRange, JoinCandidate, AllCanJoin, Freed, RangeJoined, Remainings, Readable;
    if !a.streams[n].eof {
      var ts :| EofAdjusted(a, n, seekable, b, ts);
    }
  }

  /** Telling all streams of the end of the input queues a seek if and only if that joins ranges. */
  lemma {:induction false} EndsQueueSeek(trace: seq<Snapshot>, count: nat, seekable: bool)
    requires |trace| > count && !trace[0].pending.queued
    requires forall n :: 0 <= n < count ==> EofStep(trace[n], n, seekable, trace[n + 1])
    ensures trace[count].pending.queued <==> exists n :: 0 <= n < count && EndJoins(trace[n], n, seekable)
  {
    hide EofStep, EndJoins;
    if count > 0 {
      EndsQueueSeek(trace, count - 1, seekable);
      EndQueuesSeek(trace[count - 1], count - 1, seekable, trace[count]);
    }
  }

  lemma AdjustKeepsCount(ss: seq<Stream>, rs: seq<Range>, p: PendingSeek, n: nat, l: Link,
                         ts: seq<Stream>, rs': seq<Range>, p': PendingSeek)
    requires AdjustOutcome(ss, rs, p, n, l, ts, rs', p')
    ensures |ts| == |ss|
  {
    hide AdjustedRange, JoinCandidate, Freed, SeekWindow, Remainings, StreamJoined;
  }
}
