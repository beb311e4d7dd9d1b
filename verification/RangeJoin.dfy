/** Joining one stream's queues of two cached ranges (the per-stream parts of
    attempt_range_joining): finding where they overlap, and the queue that results. */
module RangeJoin {
  import opened Timestamps
  import opened PacketQueue

  /** Outcome of looking for the packet `end` in the next range's queue; `keep` is the position
      of the first packet not dropped. */
  datatype JoinPoint = Found(keep: nat) | Missing(keep: nat) | GiveUp(keep: nat)

  /** Whether dts and pos were strictly increasing in everything seen of the stream. */
  datatype Order = Order(dts: bool, pos: bool)

  predicate Reaches(m: Media, end: Media, o: Order) {
    (o.dts && m.dts == end.dts) || (o.pos && m.pos == end.pos)
  }

  predicate Passes(m: Media, end: Media, o: Order) {
    (o.dts && m.dts > end.dts) || (o.pos && m.pos > end.pos)
  }

  predicate LooksSame(m: Media, end: Media) {
    m.dts == end.dts && m.pos == end.pos && m.pts == end.pts && m.len == end.len
  }

  /** How a packet of the next range stands to the last packet of the current one. `Unsure` is
      the source's refusal: the keyframe still being filled, or a near match. */
  datatype Verdict = Earlier | Same | Later | Unsure

  function Judge(dp: Media, latest: bool, end: Media, o: Order): Verdict {
    if latest then Unsure
    else if Reaches(dp, end, o) then if LooksSame(dp, end) then Same else Unsure
    else if Passes(dp, end, o) then Later
    else Earlier
  }

  function Overlap(q: Queue, end: Media, o: Order, i: nat): (j: JoinPoint)
    requires i <= |q.packets|
    ensures i <= j.keep <= |q.packets|
    decreases |q.packets| - i
  {
    if i == |q.packets| then Missing(i)
    else
      match Judge(q.packets[i].media, q.keyframeLatest == At(q.base + i), end, o)
      case Unsure => GiveUp(i)
      case Same => Found(i + 1)
      case Later => Missing(i)
      case Earlier => Overlap(q, end, o, i + 1)
  }

  /** Drops the head of the next range's queue up to and including the join point. */
  method DropOverlap(q: Queue, end: Media, o: Order) returns (j: JoinPoint, r: Queue, dropped: nat)
    requires IndexOk(q) && q.HoldsLink(q.nextPrune) && q.HoldsLink(q.keyframeLatest)
    ensures j == Overlap(q, end, o, 0)
    ensures r == Drop(q, j.keep) && dropped == Bytes(q.packets[..j.keep])
  {
    r, dropped, j := q, 0, Missing(0);
    DropNone(q);
    while r.packets != []
      invariant j.Missing? && j.keep <= |q.packets|
      invariant r == Drop(q, j.keep) && dropped == Bytes(q.packets[..j.keep])
      invariant Overlap(q, end, o, 0) == Overlap(q, end, o, j.keep)
      decreases |r.packets|
    {
      var verdict := Judge(r.packets[0].media, r.keyframeLatest == At(r.base), end, o);
      if verdict == Unsure {
        j := GiveUp(j.keep);
        break;
      }
      if verdict == Later {
        break;
      }
      r, dropped := RemoveCounted(q, j.keep, r, dropped);
      if verdict == Same {
        j := Found(j.keep + 1);
        break;
      }
      j := Missing(j.keep + 1);
    }
  }

  method RemoveCounted(ghost q: Queue, ghost k: nat, r: Queue, dropped: nat) returns (r': Queue, dropped': nat)
    requires IndexOk(q) && k < |q.packets|
    requires r == Drop(q, k) && dropped == Bytes(q.packets[..k])
    ensures r' == Drop(q, k + 1) && dropped' == Bytes(q.packets[..k + 1])
  {
    DropStep(q, k);
    r' := RemoveHead(r);
    BytesOne(q.packets, k);
    dropped' := dropped + EstimateSize(r.packets[0].media);
  }

  /** The packet has the number that the search goes by, or it is behind it. */
  predicate AtOrBehind(m: Media, end: Media, o: Order) {
    (o.dts && m.dts >= end.dts) || (o.pos && m.pos >= end.pos)
  }

  function StoppedAt(j: JoinPoint): int {
    if j.Found? then j.keep - 1 else j.keep
  }

  predicate SameNumber(m: Media, end: Media, o: Order) {
    (o.dts && m.dts == end.dts) || (o.pos && m.pos == end.pos)
  }

  /** Packet `k` is clearly before the one looked for. */
  predicate Passed(q: Queue, end: Media, o: Order, k: nat)
    requires k < |q.packets|
  {
    q.keyframeLatest != At(q.base + k) && !AtOrBehind(q.packets[k].media, end, o)
  }

  predicate StopsRightly(q: Queue, end: Media, o: Order, j: JoinPoint)
    requires 0 <= StoppedAt(j) <= |q.packets|
  {
    if StoppedAt(j) == |q.packets| then j.Missing?
    else
      var m, latest := q.packets[StoppedAt(j)].media, q.keyframeLatest == At(q.base + StoppedAt(j));
      && (latest || AtOrBehind(m, end, o))
      && (j.Missing? <==> !latest && !SameNumber(m, end, o))
      && (j.Found? <==> !latest && SameNumber(m, end, o)
                        && m.dts == end.dts && m.pos == end.pos && m.pts == end.pts && m.len == end.len)
  }

  /** Where the search ends: at the first packet that is not clearly before the one looked for, or is
      the keyframe still being filled. That is the join point if and only if it is the same in dts, pos,
      pts and size; the search gives up if it has the same number otherwise. */
  lemma {:induction false} OverlapIs(q: Queue, end: Media, o: Order, i: nat)
    requires i <= |q.packets|
    ensures i <= StoppedAt(Overlap(q, end, o, i)) <= |q.packets|
    ensures forall k :: i <= k < StoppedAt(Overlap(q, end, o, i)) ==> Passed(q, end, o, k)
    ensures StopsRightly(q, end, o, Overlap(q, end, o, i))
    decreases |q.packets| - i
  {
    if i < |q.packets| {
      OverlapStep(q, end, o, i);
      if Judge(q.packets[i].media, q.keyframeLatest == At(q.base + i), end, o) == Earlier {
        OverlapIs(q, end, o, i + 1);
        EarlierIsBefore(q.packets[i].media, q.keyframeLatest == At(q.base + i), end, o);
      }
    }
  }

  lemma EarlierIsBefore(m: Media, latest: bool, end: Media, o: Order)
    requires Judge(m, latest, end, o) == Earlier
    ensures !latest && !AtOrBehind(m, end, o)
  {
  }

  lemma OverlapStep(q: Queue, end: Media, o: Order, i: nat)
    requires i < |q.packets|
    ensures Overlap(q, end, o, i) == match Judge(q.packets[i].media, q.keyframeLatest == At(q.base + i), end, o)
                                     case Unsure => GiveUp(i)
                                     case Same => Found(i + 1)
                                     case Later => Missing(i)
                                     case Earlier => Overlap(q, end, o, i + 1)
  {
  }

  lemma BytesOne(ps: seq<Packet>, i: nat)
    requires i < |ps|
    ensures Bytes(ps[..i + 1]) == Bytes(ps[..i]) + EstimateSize(ps[i].media)
  {
    BytesConcat(ps[..i], [ps[i]]);
    assert ps[..i + 1] == ps[..i] + [ps[i]];
  }

  // ---------- two windows of one source ----------

  /** The queue holds exactly the source packets from `a` up to `b`. */
  predicate Window(q: Queue, src: seq<Media>, a: nat, b: nat) {
    a <= b <= |src| && Medias(q.packets) == src[a..b]
  }

  predicate Increasing(src: seq<Media>, o: Order) {
    forall i, j :: 0 <= i < j < |src| ==>
      && (o.dts ==> src[i].dts < src[j].dts)
      && (o.pos ==> src[i].pos < src[j].pos)
  }

  /** Where the search ends when both queues come from one source: exactly at the packet after
      the first queue's tail, unless the second queue starts after it, ends before it, or holds
      it only in its unfinished keyframe range. */
  lemma {:induction false} OverlapOfWindows(src: seq<Media>, e: nat, q: Queue, c: nat, d: nat, o: Order, i: nat)
    requires Window(q, src, c, d) && e < |src| && (o.dts || o.pos) && Increasing(src, o)
    requires q.HoldsLink(q.keyframeLatest)
    requires i <= |q.packets| && (i > 0 ==> c + i - 1 < e)
    requires q.keyframeLatest.At? ==> q.keyframeLatest.num - q.base >= i
    ensures var j := Overlap(q, src[e], o, i);
      var k := if q.keyframeLatest.At? then q.keyframeLatest.num - q.base else |q.packets|;
      && (j.Found? <==> c + i <= e < c + k)
      && (j.Found? ==> c + j.keep == e + 1)
      && (j.Missing? && e < c + i ==> j.keep == i)
      && (j.Missing? && e >= c + i ==> j.keep == |q.packets| && e >= d)
    decreases |q.packets| - i
  {
    assert |q.packets| == |Medias(q.packets)| == d - c;
    if i < |q.packets| {
      assert q.packets[i].media == Medias(q.packets)[i] == src[c + i];
      if q.keyframeLatest != At(q.base + i) && c + i < e {
        OverlapOfWindows(src, e, q, c, d, o, i + 1);
      }
    }
  }

  lemma SameIsSame(src: seq<Media>, o: Order, i: nat, e: nat)
    requires i < |src| && e < |src| && Increasing(src, o) && (o.dts || o.pos) && LooksSame(src[i], src[e])
    ensures i == e
  {
  }

  /** If dts is known to increase, or pos, a join point is the right packet, whatever the other does. */
  lemma {:induction false} FoundIsExact(src: seq<Media>, e: nat, q: Queue, c: nat, d: nat, o: Order, i: nat)
    requires Window(q, src, c, d) && e < |src| && i <= |q.packets|
    requires Increasing(src, Order(true, false)) || Increasing(src, Order(false, true))
    ensures var j := Overlap(q, src[e], o, i); j.Found? ==> j.keep > i && c + j.keep == e + 1
    decreases |q.packets| - i
  {
    if i < |q.packets| {
      assert q.packets[i].media == Medias(q.packets)[i] == src[c + i];
      if LooksSame(src[c + i], src[e]) {
        var strict := if Increasing(src, Order(true, false)) then Order(true, false) else Order(false, true);
        SameIsSame(src, strict, c + i, e);
      }
      if Overlap(q, src[e], o, i) != Found(i + 1) {
        FoundIsExact(src, e, q, c, d, o, i + 1);
      }
    }
  }

  /** Two windows that meet in the second queue after its packet `k` make one. */
  lemma WindowsMeet(src: seq<Media>, q1: Queue, a: nat, b: nat, q2: Queue, c: nat, d: nat, k: nat)
    requires Window(q1, src, a, b) && Window(q2, src, c, d) && k <= |q2.packets| && c + k == b
    ensures b <= d && Medias(q1.packets + q2.packets[k..]) == src[a..d]
  {
    assert |q2.packets| == |Medias(q2.packets)| == d - c;
    assert |q1.packets| == |Medias(q1.packets)| == b - a;
    var ps := q1.packets + q2.packets[k..];
    forall i | 0 <= i < |ps| ensures ps[i].media == src[a..d][i] {
      if i < b - a {
        assert Medias(q1.packets)[i] == src[a + i];
      } else {
        assert Medias(q2.packets)[i - (b - a) + k] == src[c + (i - (b - a) + k)];
      }
    }
  }

  /** A successful join of two windows of one source is the window spanning both: nothing is
      duplicated, left out or reordered. It succeeds exactly if the first queue's last packet
      lies in the second queue, before the keyframe range the second queue is still filling. */
  lemma JoinIsWindowUnion(src: seq<Media>, q1: Queue, a: nat, b: nat, q2: Queue, c: nat, d: nat, o: Order)
    requires Window(q1, src, a, b) && a < b && Window(q2, src, c, d)
    requires (o.dts || o.pos) && Increasing(src, o) && q2.HoldsLink(q2.keyframeLatest)
    ensures var j := Overlap(q2, src[b - 1], o, 0);
      && (j.Found? <==> c < b && b - 1 < c + (if q2.keyframeLatest.At? then q2.keyframeLatest.num - q2.base else d - c))
      && (j.Found? ==> Medias(q1.packets + q2.packets[j.keep..]) == src[a..d])
  {
    OverlapOfWindows(src, b - 1, q2, c, d, o, 0);
    var j := Overlap(q2, src[b - 1], o, 0);
    assert |q2.packets| == |Medias(q2.packets)| == d - c;
    if j.Found? {
      WindowsMeet(src, q1, a, b, q2, c, d, j.keep);
    }
  }

  /** A stream that is read lazily may join without an overlap; still no packet is duplicated
      and the order is kept. */
  lemma SparseJoinIsOrdered(src: seq<Media>, q1: Queue, a: nat, b: nat, q2: Queue, c: nat, d: nat, o: Order)
    requires Window(q1, src, a, b) && a < b && Window(q2, src, c, d)
    requires (o.dts || o.pos) && Increasing(src, o) && q2.HoldsLink(q2.keyframeLatest)
    requires Overlap(q2, src[b - 1], o, 0).Missing?
    ensures var ps := q1.packets + q2.packets[Overlap(q2, src[b - 1], o, 0).keep..];
      || (b <= c && Medias(ps) == src[a..b] + src[c..d])
      || (d < b && Medias(ps) == src[a..b])
  {
    OverlapOfWindows(src, b - 1, q2, c, d, o, 0);
    assert |q2.packets| == |Medias(q2.packets)| == d - c;
    var j := Overlap(q2, src[b - 1], o, 0);
    if b <= c {
      assert q2.packets[0..] == q2.packets;
      assert Medias(q1.packets + q2.packets) == Medias(q1.packets) + Medias(q2.packets);
    } else {
      assert q2.packets[j.keep..] == [] && q1.packets + [] == q1.packets;
    }
  }

  // ---------- the joined queue ----------

  /** Number in the joined queue of packet `n` of the second queue. */
  function Moved(q1: Queue, q2: Queue, n: nat): nat
    requires n >= q2.base
  {
    n - q2.base + q1.End()
  }

  function MovedLink(q1: Queue, q2: Queue, l: Link): Link
    requires q2.HoldsLink(l)
  {
    if l.Null? then Null else At(Moved(q1, q2, l.num))
  }

  predicate IndexHeld(q: Queue) {
    forall i :: 0 <= i < |q.index| ==> q.Holds(q.index[i])
  }

  /** The two queues can be joined: what they point to is in them. */
  predicate Joinable(q1: Queue, q2: Queue) {
    IndexHeld(q1) && IndexHeld(q2) && q2.HoldsLink(q2.keyframeLatest)
  }

  /** The first queue once it has taken over the second one's packets and positions. */
  function Linked(q1: Queue, q2: Queue): (r: Queue)
    requires Joinable(q1, q2)
    ensures Readable(r)
  {
    q1.(packets := q1.packets + q2.packets,
        seekEnd := q2.seekEnd,
        correctDts := q1.correctDts && q2.correctDts, correctPos := q1.correctPos && q2.correctPos,
        lastPos := q2.lastPos, lastDts := q2.lastDts, lastTs := q2.lastTs,
        keyframePts := q2.keyframePts, keyframeEndPts := q2.keyframeEndPts,
        keyframeLatest := MovedLink(q1, q2, q2.keyframeLatest))
  }

  /** `Linked(q1, q2)` after taking over the first `n` entries of the second queue's index. */
  function TakeIndex(q1: Queue, q2: Queue, n: nat): (r: Queue)
    requires Joinable(q1, q2) && n <= |q2.index|
    ensures Readable(r) && r == Linked(q1, q2).(index := r.index, indexDistance := r.indexDistance)
  {
    if n == 0 then Linked(q1, q2)
    else WithIndexEntry(TakeIndex(q1, q2, n - 1), Moved(q1, q2, q2.index[n - 1]))
  }

  function Joined(q1: Queue, q2: Queue): (r: Queue)
    requires Joinable(q1, q2)
    ensures r.base == q1.base && r.packets == q1.packets + q2.packets
  {
    TakeIndex(q1, q2, |q2.index|)
  }

  lemma OkIsJoinable(q1: Queue, q2: Queue)
    requires QueueOk(q1) && QueueOk(q2)
    ensures Joinable(q1, q2)
  {
    forall i | 0 <= i < |q1.index| ensures q1.Holds(q1.index[i]) {
      assert EntryOk(q1.base, q1.packets, q1.index[i]);
    }
    forall i | 0 <= i < |q2.index| ensures q2.Holds(q2.index[i]) {
      assert EntryOk(q2.base, q2.packets, q2.index[i]);
    }
  }

  lemma EntryMoves(q1: Queue, q2: Queue, i: nat)
    requires IndexOk(q2) && i < |q2.index|
    ensures q2.base <= q2.index[i] < q2.End()
    ensures EntryOk(q1.base, q1.packets + q2.packets, Moved(q1, q2, q2.index[i]))
    ensures i > 0 ==> q2.base <= q2.index[i - 1] < q2.index[i]
  {
    assert EntryOk(q2.base, q2.packets, q2.index[i]);
    if i > 0 {
      assert EntryOk(q2.base, q2.packets, q2.index[i - 1]);
      assert Spaced(q2.base, q2.packets, q2.indexDistance, q2.index[i - 1], q2.index[i]);
    }
  }

  /** Each entry taken over keeps the index in order and spaced. */
  lemma {:induction false} TakeIndexOk(q1: Queue, q2: Queue, n: nat)
    requires Joinable(q1, q2) && IndexOk(q1) && IndexOk(q2) && n <= |q2.index|
    ensures IndexOk(TakeIndex(q1, q2, n))
    ensures n == 0 ==> AllBelow(TakeIndex(q1, q2, n).index, q1.End())
    ensures n > 0 ==> AllBelow(TakeIndex(q1, q2, n).index, Moved(q1, q2, q2.index[n - 1]) + 1)
  {
    if n == 0 {
      SameIndexOk(q1, q1.packets + q2.packets);
    } else {
      TakeIndexOk(q1, q2, n - 1);
      EntryMoves(q1, q2, n - 1);
      WithIndexEntryOk(TakeIndex(q1, q2, n - 1), Moved(q1, q2, q2.index[n - 1]));
    }
  }

  /** The joined queue satisfies the whole queue invariant. */
  lemma JoinedOk(q1: Queue, q2: Queue)
    requires QueueOk(q1) && QueueOk(q2) && Joinable(q1, q2)
    ensures QueueOk(Joined(q1, q2))
  {
    var r := Joined(q1, q2);
    var n := |q2.index|;
    TakeIndexOk(q1, q2, n);
    if r.keyframeLatest.At? {
      var kl := q2.keyframeLatest.num;
      if n > 0 {
        assert q2.index[n - 1] < kl;
      }
      forall i | 0 <= i < |r.packets| && r.keyframeLatest.num - r.base <= i ensures !SeekPoint(r.packets[i]) {
        assert r.packets[i] == q2.packets[i - |q1.packets|];
      }
    }
  }

  /** Packet `m` of the joined queue is indexed in the queue it comes from. */
  predicate WasIndexed(q1: Queue, q2: Queue, m: nat) {
    m in q1.index || (m >= q1.End() && m - q1.End() + q2.base in q2.index)
  }

  lemma WithEntryReaches(q: Queue, n: nat)
    requires Readable(q) && q.Holds(n) && IndexOk(q)
    ensures var r := WithIndexEntry(q, n);
      && r.index != [] && q.Get(n).kfSeekPts < LastIndexed(r) + r.indexDistance
      && (q.index != [] ==> LastIndexed(q) + q.indexDistance <= LastIndexed(r) + r.indexDistance)
      && (forall m :: m in r.index ==> m == n || m in q.index)
  {
  }

  lemma OkHasIndex(q: Queue)
    requires QueueOk(q)
    ensures IndexOk(q)
  {
  }

  lemma TakeNone(q1: Queue, q2: Queue)
    requires Joinable(q1, q2)
    ensures TakeIndex(q1, q2, 0) == Linked(q1, q2)
  {
  }

  lemma TakeNext(q1: Queue, q2: Queue, i: nat)
    requires Joinable(q1, q2) && IndexOk(q1) && IndexOk(q2) && i < |q2.index|
    ensures q2.index[i] >= q2.base
    ensures var t, n := TakeIndex(q1, q2, i), Moved(q1, q2, q2.index[i]);
      && t.Holds(n) && |t.index| <= MAX_INDEX_ENTRIES
      && TakeIndex(q1, q2, i + 1) == WithIndexEntry(t, n)
  {
    TakeIndexOk(q1, q2, i);
    hide WithIndexEntry, Spaced, EntryOk;
  }

  lemma TakeStep(q1: Queue, q2: Queue, n: nat) returns (e: nat)
    requires Joinable(q1, q2) && IndexOk(q1) && IndexOk(q2) && n < |q2.index|
    ensures q2.index[n] >= q2.base && e == Moved(q1, q2, q2.index[n])
    ensures var t, r := TakeIndex(q1, q2, n), TakeIndex(q1, q2, n + 1);
      && r.base == t.base && r.packets == t.packets && t.Holds(e)
      && r.index != [] && r.Get(e).kfSeekPts < LastIndexed(r) + r.indexDistance
      && (t.index != [] ==> LastIndexed(t) + t.indexDistance <= LastIndexed(r) + r.indexDistance)
      && (forall m :: m in r.index ==> m == e || m in t.index)
  {
    hide TakeIndex, WithIndexEntry, LastIndexed, IndexSpaced;
    TakeNext(q1, q2, n);
    TakeIndexOk(q1, q2, n);
    e := Moved(q1, q2, q2.index[n]);
    WithEntryReaches(TakeIndex(q1, q2, n), e);
  }

  /** None of the second queue's entries runs ahead of the joined index by its distance. */
  lemma {:induction false} TakeIndexReaches(q1: Queue, q2: Queue, n: nat, i: nat)
    requires Joinable(q1, q2) && IndexOk(q1) && IndexOk(q2) && i < n <= |q2.index|
    ensures var t := TakeIndex(q1, q2, n);
      && q2.index[i] >= q2.base && t.Holds(Moved(q1, q2, q2.index[i])) && t.index != []
      && t.Get(Moved(q1, q2, q2.index[i])).kfSeekPts < LastIndexed(t) + t.indexDistance
  {
    hide TakeIndex, IndexSpaced, LastIndexed;
    var e := TakeStep(q1, q2, n - 1);
    if i < n - 1 {
      TakeIndexReaches(q1, q2, n - 1, i);
    }
  }

  lemma {:induction false} TakeIndexFrom(q1: Queue, q2: Queue, n: nat, m: nat)
    requires Joinable(q1, q2) && IndexOk(q1) && IndexOk(q2) && n <= |q2.index|
    requires m in TakeIndex(q1, q2, n).index
    ensures WasIndexed(q1, q2, m)
  {
    hide TakeIndex, IndexSpaced, LastIndexed;
    if n == 0 {
      TakeNone(q1, q2);
    } else {
      var e := TakeStep(q1, q2, n - 1);
      assert e - q1.End() + q2.base == q2.index[n - 1];
      if m in TakeIndex(q1, q2, n - 1).index {
        TakeIndexFrom(q1, q2, n - 1, m);
      }
    }
  }

  /** The joined index has entries of both indexes only, and reaches as far as both. */
  lemma JoinedIndex(q1: Queue, q2: Queue, i: nat, m: nat)
    requires Joinable(q1, q2) && IndexOk(q1) && IndexOk(q2)
    ensures var j := Joined(q1, q2);
      && (m in j.index ==> WasIndexed(q1, q2, m))
      && (i < |q2.index| ==>
            && q2.index[i] >= q2.base && j.Holds(Moved(q1, q2, q2.index[i])) && j.index != []
            && j.Get(Moved(q1, q2, q2.index[i])).kfSeekPts < LastIndexed(j) + j.indexDistance)
  {
    hide TakeIndex, IndexSpaced, LastIndexed;
    if m in Joined(q1, q2).index {
      TakeIndexFrom(q1, q2, |q2.index|, m);
    }
    if i < |q2.index| {
      TakeIndexReaches(q1, q2, |q2.index|, i);
    }
  }

  /** What the source does to the joined queue's index: one entry after the other. */
  method JoinQueues(q1: Queue, q2: Queue) returns (r: Queue)
    requires QueueOk(q1) && QueueOk(q2) && Joinable(q1, q2)
    ensures r == Joined(q1, q2)
  {
    hide QueueOk, Linked, WithIndexEntry, TakeIndex, IndexSpaced;
    OkHasIndex(q1);
    OkHasIndex(q2);
    TakeNone(q1, q2);
    r := Linked(q1, q2);
    for i := 0 to |q2.index|
      invariant r == TakeIndex(q1, q2, i)
    {
      TakeNext(q1, q2, i);
      r := AddIndexEntry(r, Moved(q1, q2, q2.index[i]));
    }
  }

  /** Joining onto an honest queue with a window leaves the window honest. */
  lemma JoinedHonest(q1: Queue, q2: Queue)
    requires Joinable(q1, q2) && Honest(q1) && q1.seekStart != NOPTS
    ensures Honest(Joined(q1, q2))
  {
    var i :| FirstSeekPoint(q1.packets, i) && q1.packets[i].kfSeekPts == q1.seekStart;
    assert FirstSeekPoint(q1.packets + q2.packets, i);
  }
}
