/** One stream's queue of demuxed packets inside one cached range (struct demux_queue), the
    incrementally kept state on top of it, and what each queue operation does to it. */
module PacketQueue {
  import opened Timestamps

  const MAX_INDEX_ENTRIES: nat := 16
  const PACKET_OVERHEAD: nat := 128

  /** What a demuxer hands over; `overhead` is the share of an attached AVPacket in the size
      estimate. */
  datatype Media = Media(pts: real, dts: real, pos: int, len: nat, keyframe: bool,
                         segmented: bool, start: real, end: real, overhead: nat)

  /** A queued packet; `kfSeekPts` is filled in once its keyframe range is complete. */
  datatype Packet = Packet(media: Media, kfSeekPts: real)

  function RoundAlloc(n: nat): (r: nat)
    ensures n <= r < n + 64 && r % 64 == 0
  {
    (n + 63) / 64 * 64
  }

  function EstimateSize(m: Media): (bytes: nat)
    ensures bytes > m.len && bytes >= PACKET_OVERHEAD
  {
    PACKET_OVERHEAD + RoundAlloc(m.len) + m.overhead
  }

  function Bytes(ps: seq<Packet>): nat {
    if ps == [] then 0 else EstimateSize(ps[0].media) + Bytes(ps[1..])
  }

  lemma {:induction false} BytesConcat(a: seq<Packet>, b: seq<Packet>)
    ensures Bytes(a + b) == Bytes(a) + Bytes(b)
  {
    if a == [] {
      assert a + b == b;
    } else {
      BytesConcat(a[1..], b);
      assert (a + b)[0] == a[0] && (a + b)[1..] == a[1..] + b;
    }
  }

  lemma BytesSplit(ps: seq<Packet>, k: nat)
    requires k <= |ps|
    ensures Bytes(ps) == Bytes(ps[..k]) + Bytes(ps[k..])
  {
    BytesConcat(ps[..k], ps[k..]);
    assert ps[..k] + ps[k..] == ps;
  }

  function Medias(ps: seq<Packet>): (ms: seq<Media>)
    ensures |ms| == |ps|
  {
    seq(|ps|, i requires 0 <= i < |ps| => ps[i].media)
  }

  /** The size estimate depends on the media only. */
  lemma {:induction false} BytesOfMedias(a: seq<Packet>, b: seq<Packet>)
    requires Medias(a) == Medias(b)
    ensures Bytes(a) == Bytes(b)
  {
    if a != [] {
      assert |a| == |Medias(a)| == |Medias(b)| == |b|;
      assert a[0].media == Medias(a)[0] == Medias(b)[0] == b[0].media;
      forall i | 0 <= i < |a| - 1 ensures a[1..][i].media == b[1..][i].media {
        assert Medias(a)[i + 1] == Medias(b)[i + 1];
      }
      assert Medias(a[1..]) == Medias(b[1..]);
      BytesOfMedias(a[1..], b[1..]);
    }
  }

  /** A pointer to a packet of a known queue: packets are numbered in append order over the
      life of the queue, and removal at the head does not renumber the rest. */
  datatype Link = Null | At(num: nat)

  datatype Queue = Queue(
    base: nat,               // number of the head packet
    packets: seq<Packet>,
    nextPrune: Link,
    correctDts: bool, correctPos: bool,
    lastPos: int, lastDts: real, lastTs: real,
    keyframePts: real, keyframeEndPts: real, keyframeLatest: Link,
    seekStart: real, seekEnd: real, lastPruned: real,
    index: seq<nat>, indexDistance: real)
  {
    function End(): nat { base + |packets| }

    predicate Holds(n: nat) { base <= n < End() }

    predicate HoldsLink(l: Link) { l.At? ==> Holds(l.num) }

    function Get(n: nat): Packet
      requires Holds(n)
    {
      packets[n - base]
    }

    function Head(): Link { if packets == [] then Null else At(base) }

    function Tail(): Link { if packets == [] then Null else At(End() - 1) }
  }

  predicate SeekPoint(p: Packet) {
    p.media.keyframe && p.kfSeekPts != NOPTS
  }

  /** `n` numbers a seek point of `ps`, whose first packet has number `base`. */
  predicate EntryOk(base: nat, ps: seq<Packet>, n: nat) {
    base <= n < base + |ps| && SeekPoint(ps[n - base])
  }

  /** `m` comes after `n` and is a seek point at least `d` later. */
  predicate Spaced(base: nat, ps: seq<Packet>, d: real, n: nat, m: nat) {
    base <= n < m < base + |ps| && ps[n - base].kfSeekPts + d <= ps[m - base].kfSeekPts
  }

  /** The index is an in-order selection of the queue's seek points, at least `d` apart. */
  predicate IndexSpaced(base: nat, ps: seq<Packet>, index: seq<nat>, d: real) {
    && |index| <= MAX_INDEX_ENTRIES
    && d >= 1.0
    && (forall i :: 0 <= i < |index| ==> EntryOk(base, ps, index[i]))
    && (forall i, j :: 0 <= i < j < |index| ==> Spaced(base, ps, d, index[i], index[j]))
  }

  predicate IndexOk(q: Queue) {
    IndexSpaced(q.base, q.packets, q.index, q.indexDistance)
  }

  predicate AllBelow(index: seq<nat>, n: nat) {
    forall i :: 0 <= i < |index| ==> index[i] < n
  }

  /** No seek point at or after position `k`. */
  predicate NoSeekPointFrom(ps: seq<Packet>, k: int) {
    forall i :: 0 <= i < |ps| && k <= i ==> !SeekPoint(ps[i])
  }

  /** The keyframe range being filled: both its bounds are known or neither is, and nothing in
      it is a seek point yet. */
  predicate BlockOk(q: Queue) {
    && (q.keyframePts == NOPTS <==> q.keyframeEndPts == NOPTS)
    && (q.keyframeLatest.At? ==> NoSeekPointFrom(q.packets, q.keyframeLatest.num - q.base))
  }

  /** The packets the incremental state points to can be read. */
  predicate Readable(q: Queue) {
    && q.HoldsLink(q.keyframeLatest)
    && (q.index != [] ==> q.Holds(q.index[|q.index| - 1]))
  }

  predicate LinksOk(q: Queue) {
    && q.HoldsLink(q.nextPrune)
    && q.HoldsLink(q.keyframeLatest)
    && (q.keyframeLatest.At? ==> q.Get(q.keyframeLatest.num).media.keyframe)
    && IndexOk(q)
    && (q.keyframeLatest.At? ==> AllBelow(q.index, q.keyframeLatest.num))
  }

  /** What the disabled consistency checker asks of one queue, and the invariants of the index
      and of the current keyframe range. */
  predicate QueueOk(q: Queue) {
    && LinksOk(q)
    && BlockOk(q)
  }

  // ---------- clearing and removal ----------

  lemma ReadableIfOk(q: Queue)
    requires QueueOk(q)
    ensures Readable(q)
  {
    if q.index != [] {
      assert EntryOk(q.base, q.packets, q.index[|q.index| - 1]);
    }
  }

  function Cleared(q: Queue): Queue {
    Queue(q.End(), [], Null, true, true, -1, NOPTS, NOPTS, NOPTS, NOPTS, Null,
          NOPTS, NOPTS, NOPTS, [], 1.0)
  }

  const FRESH_QUEUE: Queue :=
    Queue(0, [], Null, true, true, -1, NOPTS, NOPTS, NOPTS, NOPTS, Null,
          NOPTS, NOPTS, NOPTS, [], 1.0)

  function Unless(l: Link, n: nat): Link {
    if l == At(n) then Null else l
  }

  function RemoveHead(q: Queue): Queue
    requires q.packets != []
  {
    q.(base := q.base + 1, packets := q.packets[1..],
       nextPrune := Unless(q.nextPrune, q.base),
       keyframeLatest := Unless(q.keyframeLatest, q.base),
       index := if q.index != [] && q.index[0] == q.base then q.index[1..] else q.index)
  }

  lemma RemoveHeadOk(q: Queue)
    requires QueueOk(q) && q.packets != []
    ensures QueueOk(RemoveHead(q))
  {
    RemoveHeadKeepsIndex(q, RemoveHead(q).index);
  }

  lemma RemoveHeadKeepsIndex(q: Queue, index: seq<nat>)
    requires IndexOk(q) && q.packets != []
    requires index == if q.index != [] && q.index[0] == q.base then q.index[1..] else q.index
    ensures IndexSpaced(q.base + 1, q.packets[1..], index, q.indexDistance)
  {
    if q.index != [] {
      assert EntryOk(q.base, q.packets, q.index[0]);
      ShiftSpaced(q.base, q.packets, q.index, q.indexDistance, if q.index[0] == q.base then 1 else 0);
    }
  }

  lemma ShiftSpaced(base: nat, ps: seq<Packet>, index: seq<nat>, d: real, off: nat)
    requires IndexSpaced(base, ps, index, d) && ps != [] && index != [] && off <= 1
    requires off == 0 ==> index[0] > base
    ensures IndexSpaced(base + 1, ps[1..], index[off..], d)
  {
    var r := index[off..];
    forall i | 0 <= i < |r| ensures EntryOk(base + 1, ps[1..], r[i]) {
      assert EntryOk(base, ps, index[i + off]);
      if i + off > 0 {
        assert Spaced(base, ps, d, index[0], index[i + off]);
      }
    }
    forall i, j | 0 <= i < j < |r| ensures Spaced(base + 1, ps[1..], d, r[i], r[j]) {
      assert Spaced(base, ps, d, index[i + off], index[j + off]);
      assert EntryOk(base + 1, ps[1..], r[i]);
    }
  }

  function KeepFrom(l: Link, n: nat): Link {
    if l.At? && l.num < n then Null else l
  }

  function IndexFrom(index: seq<nat>, n: nat): seq<nat> {
    if index == [] || index[0] >= n then index else IndexFrom(index[1..], n)
  }

  /** Removing `k` heads leaves every other packet, with its number. */
  function Drop(q: Queue, k: nat): Queue
    requires k <= |q.packets|
  {
    q.(base := q.base + k, packets := q.packets[k..],
       nextPrune := KeepFrom(q.nextPrune, q.base + k), keyframeLatest := KeepFrom(q.keyframeLatest, q.base + k),
       index := IndexFrom(q.index, q.base + k))
  }

  predicate Ascending(index: seq<nat>) {
    forall i, j :: 0 <= i < j < |index| ==> index[i] < index[j]
  }

  lemma {:induction false} IndexFromStep(index: seq<nat>, n: nat)
    requires Ascending(index)
    ensures var t := IndexFrom(index, n);
      IndexFrom(index, n + 1) == if t != [] && t[0] == n then t[1..] else t
  {
    if index != [] && index[0] < n {
      IndexFromStep(index[1..], n);
    } else if index != [] && index[0] == n {
      assert index[1..] == [] || index[1..][0] > n;
    }
  }

  lemma IndexAscends(q: Queue)
    requires IndexOk(q)
    ensures Ascending(q.index)
    ensures q.index != [] ==> q.index[0] >= q.base
  {
    forall i, j | 0 <= i < j < |q.index| ensures q.index[i] < q.index[j] {
      assert Spaced(q.base, q.packets, q.indexDistance, q.index[i], q.index[j]);
    }
    if q.index != [] {
      assert EntryOk(q.base, q.packets, q.index[0]);
    }
  }

  lemma DropStep(q: Queue, k: nat)
    requires IndexOk(q) && k < |q.packets|
    ensures Drop(q, k + 1) == RemoveHead(Drop(q, k))
  {
    IndexAscends(q);
    IndexFromStep(q.index, q.base + k);
    KeepFromStep(q.nextPrune, q.base + k);
    KeepFromStep(q.keyframeLatest, q.base + k);
    assert q.packets[k + 1..] == q.packets[k..][1..];
  }

  lemma KeepFromStep(l: Link, n: nat)
    ensures KeepFrom(l, n + 1) == Unless(KeepFrom(l, n), n)
  {
  }

  lemma DropNone(q: Queue)
    requires IndexOk(q)
    ensures q.HoldsLink(q.nextPrune) && q.HoldsLink(q.keyframeLatest) ==> Drop(q, 0) == q
  {
    IndexAscends(q);
    assert q.packets[0..] == q.packets;
  }

  lemma {:induction false} DropOk(q: Queue, k: nat)
    requires QueueOk(q) && k <= |q.packets|
    ensures QueueOk(Drop(q, k))
  {
    if k == 0 {
      DropNone(q);
    } else {
      DropOk(q, k - 1);
      DropStep(q, k - 1);
      RemoveHeadOk(Drop(q, k - 1));
    }
  }

  lemma {:induction false} IndexFromIs(index: seq<nat>, n: nat, k: nat)
    requires Ascending(index)
    ensures k in IndexFrom(index, n) <==> k in index && k >= n
  {
    if index != [] && index[0] < n {
      IndexFromIs(index[1..], n, k);
      assert index == [index[0]] + index[1..];
    }
  }

  /** The index loses exactly the entries whose packets go. */
  lemma DropKeepsIndex(q: Queue, k: nat, n: nat)
    requires IndexOk(q) && k <= |q.packets|
    ensures n in Drop(q, k).index <==> n in q.index && Drop(q, k).Holds(n)
  {
    IndexAscends(q);
    IndexFromIs(q.index, q.base + k, n);
    if n in q.index {
      var i :| 0 <= i < |q.index| && q.index[i] == n;
      assert EntryOk(q.base, q.packets, q.index[i]);
    }
  }

  // ---------- the seek index ----------

  /** Every second entry, from the first. */
  function Halved(index: seq<nat>): (h: seq<nat>)
    requires |index| == MAX_INDEX_ENTRIES
    ensures |h| == MAX_INDEX_ENTRIES / 2
  {
    seq(MAX_INDEX_ENTRIES / 2, i requires 0 <= i < MAX_INDEX_ENTRIES / 2 => index[2 * i])
  }

  lemma ThinnedOk(base: nat, ps: seq<Packet>, index: seq<nat>, d: real, m: nat)
    requires IndexSpaced(base, ps, index, d) && |index| == MAX_INDEX_ENTRIES
    requires Spaced(base, ps, d, index[MAX_INDEX_ENTRIES - 1], m)
    ensures IndexSpaced(base, ps, Halved(index), d * 2.0)
    ensures forall i :: 0 <= i < |Halved(index)| ==> Spaced(base, ps, d * 2.0, Halved(index)[i], m)
  {
    var h := Halved(index);
    forall i | 0 <= i < |h|
      ensures EntryOk(base, ps, h[i]) && Spaced(base, ps, d * 2.0, h[i], m)
    {
      assert EntryOk(base, ps, index[2 * i]);
      assert Spaced(base, ps, d, index[2 * i], index[MAX_INDEX_ENTRIES - 1]);
    }
    forall i, j | 0 <= i < j < |h|
      ensures Spaced(base, ps, d * 2.0, h[i], h[j])
    {
      assert Spaced(base, ps, d, index[2 * i], index[2 * i + 1]);
      assert Spaced(base, ps, d, index[2 * i + 1], index[2 * j]);
    }
  }

  lemma AppendedSpaced(base: nat, ps: seq<Packet>, index: seq<nat>, d: real, n: nat)
    requires IndexSpaced(base, ps, index, d) && |index| < MAX_INDEX_ENTRIES && EntryOk(base, ps, n)
    requires forall i :: 0 <= i < |index| ==> Spaced(base, ps, d, index[i], n)
    ensures IndexSpaced(base, ps, index + [n], d)
  {
    var r := index + [n];
    forall i, j | 0 <= i < j < |r| ensures Spaced(base, ps, d, r[i], r[j]) {
      if j < |index| {
        assert Spaced(base, ps, d, index[i], index[j]);
      }
    }
  }

  function LastIndexed(q: Queue): real
    requires Readable(q) && q.index != []
  {
    q.Get(q.index[|q.index| - 1]).kfSeekPts
  }

  function WithIndexEntry(q: Queue, n: nat): Queue
    requires Readable(q) && q.Holds(n)
  {
    if q.index != [] && q.Get(n).kfSeekPts < LastIndexed(q) + q.indexDistance then
      q
    else if |q.index| == MAX_INDEX_ENTRIES then
      q.(index := Halved(q.index) + [n], indexDistance := q.indexDistance * 2.0)
    else
      q.(index := q.index + [n])
  }

  /** Appending to the index keeps it spaced, also when it is thinned and the distance doubles. */
  lemma WithIndexEntryOk(q: Queue, n: nat)
    requires IndexOk(q) && EntryOk(q.base, q.packets, n) && Readable(q)
    requires AllBelow(q.index, n)
    ensures IndexOk(WithIndexEntry(q, n))
    ensures forall m: nat :: m > n ==> AllBelow(WithIndexEntry(q, n).index, m)
  {
    var b, ps, d := q.base, q.packets, q.indexDistance;
    if q.index == [] || q.Get(n).kfSeekPts >= LastIndexed(q) + d {
      if |q.index| == MAX_INDEX_ENTRIES {
        ThinnedOk(b, ps, q.index, d, n);
        AppendedSpaced(b, ps, Halved(q.index), d * 2.0, n);
      } else {
        forall i | 0 <= i < |q.index| ensures Spaced(b, ps, d, q.index[i], n) {
          assert EntryOk(b, ps, q.index[i]);
          if i < |q.index| - 1 {
            assert Spaced(b, ps, d, q.index[i], q.index[|q.index| - 1]);
          }
        }
        AppendedSpaced(b, ps, q.index, d, n);
      }
    }
  }

  /** Adds a completed keyframe range to the index, thinning it in place when it is full. */
  method AddIndexEntry(q: Queue, n: nat) returns (r: Queue)
    requires Readable(q) && q.Holds(n) && |q.index| <= MAX_INDEX_ENTRIES
    ensures r == WithIndexEntry(q, n)
  {
    r := q;
    if |r.index| != 0 {
      var prev := r.Get(r.index[|r.index| - 1]).kfSeekPts;
      if r.Get(n).kfSeekPts < prev + r.indexDistance {
        return;
      }
    }
    if |r.index| == MAX_INDEX_ENTRIES {
      var index := r.index;
      for i := 0 to MAX_INDEX_ENTRIES / 2
        invariant |index| == MAX_INDEX_ENTRIES
        invariant forall k :: 0 <= k < i ==> index[k] == q.index[2 * k]
        invariant forall k :: i <= k < MAX_INDEX_ENTRIES ==> index[k] == q.index[k]
      {
        index := index[i := index[2 * i]];
      }
      assert index[..MAX_INDEX_ENTRIES / 2] == Halved(q.index);
      r := r.(index := index[..MAX_INDEX_ENTRIES / 2], indexDistance := r.indexDistance * 2.0);
    }
    r := r.(index := r.index + [n]);
  }

  // ---------- appending ----------

  /** Only video keeps a missing pts; elsewhere the dts stands in for it. */
  function NormalPts(m: Media, video: bool): Media {
    if !video && m.pts == NOPTS then m.(pts := m.dts) else m
  }

  function QueueTs(m: Media): real {
    var ts := if m.dts == NOPTS then m.pts else m.dts;
    if m.segmented then PtsMin(ts, m.end) else ts
  }

  function Appended(q: Queue, m: Media, video: bool): (r: Queue)
    ensures r.base == q.base && r.packets == q.packets + [Packet(NormalPts(m, video), NOPTS)]
    ensures Readable(q) ==> Readable(r)
  {
    var m' := NormalPts(m, video);
    var ts := QueueTs(m');
    q.(packets := q.packets + [Packet(m', NOPTS)],
       correctPos := q.correctPos && m.pos >= 0 && m.pos > q.lastPos,
       correctDts := q.correctDts && m.dts != NOPTS && m.dts > q.lastDts,
       lastPos := m.pos, lastDts := m.dts,
       lastTs := if ts != NOPTS && (ts > q.lastTs || ts + 10.0 < q.lastTs) then ts else q.lastTs)
  }

  lemma AppendedOk(q: Queue, m: Media, video: bool)
    requires QueueOk(q)
    ensures QueueOk(Appended(q, m, video))
  {
    SameIndexOk(q, Appended(q, m, video).packets);
  }

  /** The index invariant looks at the indexed packets only. */
  lemma SameIndexOk(q: Queue, ps: seq<Packet>)
    requires IndexOk(q)
    requires |ps| >= |q.packets|
    requires forall i :: 0 <= i < |q.packets| && SeekPoint(q.packets[i]) && q.base + i in q.index ==>
      ps[i] == q.packets[i]
    ensures IndexSpaced(q.base, ps, q.index, q.indexDistance)
  {
    forall i | 0 <= i < |q.index|
      ensures EntryOk(q.base, ps, q.index[i]) && ps[q.index[i] - q.base] == q.packets[q.index[i] - q.base]
    {
      assert EntryOk(q.base, q.packets, q.index[i]);
    }
    forall i, j | 0 <= i < j < |q.index|
      ensures Spaced(q.base, ps, q.indexDistance, q.index[i], q.index[j])
    {
      assert Spaced(q.base, q.packets, q.indexDistance, q.index[i], q.index[j]);
    }
  }

  // ---------- keyframe ranges ----------

  /** The packets once the latest keyframe knows its seek timestamp. */
  function Stamped(q: Queue): (ps: seq<Packet>)
    requires q.keyframeLatest.At? && q.HoldsLink(q.keyframeLatest)
    ensures |ps| == |q.packets| && Medias(ps) == Medias(q.packets)
  {
    var i := q.keyframeLatest.num - q.base;
    q.packets[i := q.packets[i].(kfSeekPts := q.keyframePts)]
  }

  /** The latest keyframe range is complete: its seek timestamp and the queue's window follow. */
  function CloseBlock(q: Queue): (r: Queue)
    requires q.keyframeLatest.At? && Readable(q)
    ensures Readable(r) && r.base == q.base && r.keyframeLatest == q.keyframeLatest
  {
    q.(packets := Stamped(q),
       seekStart := if q.seekStart == NOPTS then q.keyframePts else q.seekStart,
       seekEnd := if q.keyframeEndPts != NOPTS then q.keyframeEndPts else q.seekEnd)
  }

  lemma CloseBlockOk(q: Queue)
    requires QueueOk(q) && q.keyframeLatest.At? && Readable(q)
    ensures LinksOk(CloseBlock(q)) && NoSeekPointFrom(CloseBlock(q).packets, q.keyframeLatest.num - q.base + 1)
  {
    SameIndexOk(q, Stamped(q));
  }

  function IndexLatest(q: Queue): (r: Queue)
    requires q.keyframeLatest.At? && Readable(q)
    ensures r == q.(index := r.index, indexDistance := r.indexDistance) && Readable(r)
  {
    var n := q.keyframeLatest.num;
    if q.Get(n).kfSeekPts != NOPTS then WithIndexEntry(q, n) else q
  }

  lemma IndexLatestOk(q: Queue)
    requires LinksOk(q) && q.keyframeLatest.At? && Readable(q)
    ensures IndexOk(IndexLatest(q))
    ensures forall m: nat :: m > q.keyframeLatest.num ==> AllBelow(IndexLatest(q).index, m)
  {
    var n := q.keyframeLatest.num;
    if q.Get(n).kfSeekPts != NOPTS {
      WithIndexEntryOk(q, n);
    }
  }

  function StartBlock(q: Queue, l: Link): Queue {
    q.(keyframeLatest := l, keyframePts := NOPTS, keyframeEndPts := NOPTS)
  }

  /** The timestamp a packet contributes to its keyframe range. */
  function BlockTs(m: Media): real {
    var ts := PtsOrDef(m.pts, m.dts);
    if m.segmented && (ts < m.start || ts > m.end) then NOPTS else ts
  }

  function NoteTimestamp(q: Queue, m: Media): Queue {
    q.(keyframePts := PtsMin(q.keyframePts, BlockTs(m)),
       keyframeEndPts := PtsMax(q.keyframeEndPts, BlockTs(m)))
  }

  /** `l` is a keyframe later than every earlier block, or null. */
  predicate NextKeyframe(q: Queue, l: Link) {
    l.At? ==>
      && l == q.Tail() && q.Get(l.num).media.keyframe && q.Get(l.num).kfSeekPts == NOPTS && AllBelow(q.index, l.num)
      && (q.keyframeLatest.At? ==> q.keyframeLatest.num < l.num)
  }

  function Closed(q: Queue, l: Link): (r: Queue)
    requires Readable(q) && q.HoldsLink(l)
    ensures Readable(r) && r.base == q.base && Medias(r.packets) == Medias(q.packets)
  {
    StartBlock(if q.keyframeLatest.At? then IndexLatest(CloseBlock(q)) else q, l)
  }

  lemma ClosedOk(q: Queue, l: Link)
    requires QueueOk(q) && NextKeyframe(q, l) && Readable(q)
    ensures QueueOk(Closed(q, l))
  {
    if q.keyframeLatest.At? {
      CloseBlockOk(q);
      IndexLatestOk(CloseBlock(q));
    }
  }

  /** What a packet just appended (or, with Null, the end of the stream) does to the seek state. */
  function Adjusted(q: Queue, l: Link): (r: Queue)
    requires Readable(q) && q.HoldsLink(l)
    ensures Readable(r) && r.base == q.base && Medias(r.packets) == Medias(q.packets)
  {
    var c := if l.Null? || q.Get(l.num).media.keyframe then Closed(q, l) else q;
    if l.At? then NoteTimestamp(c, q.Get(l.num).media) else c
  }

  /** The packet just added is the tail, and if it is a keyframe it starts a new block. */
  predicate JustAdded(q: Queue, l: Link) {
    l.At? ==> l == q.Tail() && (q.Get(l.num).media.keyframe ==> NextKeyframe(q, l))
  }

  lemma NoteTimestampOk(q: Queue, m: Media)
    requires QueueOk(q)
    ensures QueueOk(NoteTimestamp(q, m))
  {
  }

  lemma AdjustedOk(q: Queue, l: Link)
    requires QueueOk(q) && JustAdded(q, l) && Readable(q)
    ensures QueueOk(Adjusted(q, l))
  {
    if l.Null? {
      ClosedOk(q, l);
    } else {
      var m := q.Get(l.num).media;
      if m.keyframe {
        ClosedOk(q, l);
        NoteTimestampOk(Closed(q, l), m);
      } else {
        NoteTimestampOk(q, m);
      }
    }
  }

  lemma AppendedIsNext(q: Queue, m: Media, video: bool)
    requires IndexOk(q) && q.HoldsLink(q.keyframeLatest)
    ensures JustAdded(Appended(q, m, video), Appended(q, m, video).Tail())
  {
    forall i | 0 <= i < |q.index| ensures q.index[i] < q.End() {
      assert EntryOk(q.base, q.packets, q.index[i]);
    }
  }

  /** A packet the stream accepts, appended and accounted for. */
  function Added(q: Queue, m: Media, video: bool): (r: Queue)
    requires Readable(q)
    ensures Readable(r) && r.base == q.base
    ensures Medias(r.packets) == Medias(q.packets) + [NormalPts(m, video)]
  {
    var a := Appended(q, m, video);
    assert Medias(a.packets) == Medias(q.packets) + [NormalPts(m, video)];
    Adjusted(a, a.Tail())
  }

  lemma AddedOk(q: Queue, m: Media, video: bool)
    requires QueueOk(q) && Readable(q)
    ensures QueueOk(Added(q, m, video))
  {
    AppendedOk(q, m, video);
    AppendedIsNext(q, m, video);
    var a := Appended(q, m, video);
    AdjustedOk(a, a.Tail());
  }

  // ---------- the seek window of an unpruned queue ----------

  predicate NoSeekPoint(ps: seq<Packet>) {
    forall i :: 0 <= i < |ps| ==> !SeekPoint(ps[i])
  }

  predicate FirstSeekPoint(ps: seq<Packet>, i: int) {
    0 <= i < |ps| && SeekPoint(ps[i]) && forall j :: 0 <= j < i ==> !SeekPoint(ps[j])
  }

  /** The window starts at the first seek point, or there is neither a window nor a seek point. */
  ghost predicate WindowStarts(ps: seq<Packet>, seekStart: real, seekEnd: real) {
    if seekStart == NOPTS then seekEnd == NOPTS && NoSeekPoint(ps)
    else exists i :: FirstSeekPoint(ps, i) && ps[i].kfSeekPts == seekStart
  }

  /** The queue's window says what is in the queue. Pruning can break this; nothing else does. */
  ghost predicate Honest(q: Queue) {
    WindowStarts(q.packets, q.seekStart, q.seekEnd)
  }

  lemma CloseBlockHonest(q: Queue)
    requires QueueOk(q) && Honest(q) && q.keyframeLatest.At? && Readable(q)
    ensures Honest(CloseBlock(q))
  {
    var ps, c := q.packets, CloseBlock(q).packets;
    var k := q.keyframeLatest.num - q.base;
    assert c == ps[k := c[k]];
    if q.seekStart != NOPTS {
      var i :| FirstSeekPoint(ps, i) && ps[i].kfSeekPts == q.seekStart;
      assert FirstSeekPoint(c, i);
    } else if q.keyframePts != NOPTS {
      assert FirstSeekPoint(c, k);
    }
  }

  lemma AppendedHonest(q: Queue, m: Media, video: bool)
    requires Honest(q)
    ensures Honest(Appended(q, m, video))
  {
    var a := Appended(q, m, video);
    if q.seekStart != NOPTS {
      var i :| FirstSeekPoint(q.packets, i) && q.packets[i].kfSeekPts == q.seekStart;
      assert FirstSeekPoint(a.packets, i);
    }
  }

  /** Accounting for a packet or for the end of the stream keeps the window honest. */
  lemma AdjustedHonest(q: Queue, l: Link)
    requires QueueOk(q) && Honest(q) && Readable(q) && q.HoldsLink(l)
    ensures Honest(Adjusted(q, l))
  {
    if l.Null? || q.Get(l.num).media.keyframe {
      if q.keyframeLatest.At? {
        CloseBlockHonest(q);
      }
    }
  }

  lemma AddedHonest(q: Queue, m: Media, video: bool)
    requires QueueOk(q) && Honest(q) && Readable(q)
    ensures Honest(Added(q, m, video))
  {
    AppendedHonest(q, m, video);
    AppendedOk(q, m, video);
    var a := Appended(q, m, video);
    AdjustedHonest(a, a.Tail());
  }
}
