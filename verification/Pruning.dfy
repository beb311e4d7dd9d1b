/** Pruning the backbuffer: which queue loses packets and how many (prune_old_packets), on values. */
module Pruning {
  import opened Timestamps
  import opened PacketQueue
  import opened CachedRanges

  /** The queue has packets behind the reader's position. */
  predicate Prunable(s: Stream, id: nat, q: Queue) {
    q.packets != [] && s.reader != PacketAt(id, q.base)
  }

  /** The head is no seek target, so it is dropped before any other queue's head. */
  predicate Always(q: Queue, seekable: bool)
    requires q.packets != []
  {
    !seekable || !SeekPoint(q.packets[0])
  }

  /** `v` is the queue to prune: the first one whose head is no seek target, or else one with the
      earliest head. */
  predicate IsVictim(x: Range, ss: seq<Stream>, seekable: bool, upTo: nat, v: int)
    requires upTo <= |x.queues| == |ss|
  {
    && 0 <= v < upTo && Prunable(ss[v], x.id, x.queues[v])
    && forall i :: 0 <= i < upTo && i != v && Prunable(ss[i], x.id, x.queues[i]) ==>
         if Always(x.queues[v], seekable) then i < v ==> !Always(x.queues[i], seekable)
         else !Always(x.queues[i], seekable)
              && x.queues[v].packets[0].kfSeekPts <= x.queues[i].packets[0].kfSeekPts
  }

  /** A victim is a queue from which seeking loses the least: one with a head that is no seek target, if
      there is any, the first of them; and otherwise none of the seek targets at the heads is earlier. */
  lemma VictimIsEarliest(x: Range, ss: seq<Stream>, seekable: bool, v: nat, i: nat)
    requires |x.queues| == |ss| && IsVictim(x, ss, seekable, |ss|, v) && i < |ss|
    ensures x.queues[v].packets != [] && ss[v].reader != PacketAt(x.id, x.queues[v].base)
    ensures x.queues[i].packets != [] && ss[i].reader != PacketAt(x.id, x.queues[i].base) ==>
      var head, other := x.queues[v].packets[0], x.queues[i].packets[0];
      if seekable && head.media.keyframe && head.kfSeekPts != NOPTS then
        other.media.keyframe && other.kfSeekPts != NOPTS && head.kfSeekPts <= other.kfSeekPts
      else i < v ==> seekable && other.media.keyframe && other.kfSeekPts != NOPTS
  {
  }

  method FindVictim(x: Range, ss: seq<Stream>, seekable: bool) returns (v: int)
    requires |x.queues| == |ss|
    ensures v == -1 ==> forall i :: 0 <= i < |ss| ==> !Prunable(ss[i], x.id, x.queues[i])
    ensures v != -1 ==> IsVictim(x, ss, seekable, |ss|, v)
  {
    v := -1;
    var n := 0;
    while n < |ss|
      invariant 0 <= n <= |ss|
      invariant v == -1 ==> forall i :: 0 <= i < n ==> !Prunable(ss[i], x.id, x.queues[i])
      invariant v != -1 ==> IsVictim(x, ss, seekable, n, v) && !Always(x.queues[v], seekable)
    {
      var q := x.queues[n];
      if q.packets != [] && ss[n].reader != PacketAt(x.id, q.base) {
        var head := q.packets[0];
        var always := !seekable || head.kfSeekPts == NOPTS || !head.media.keyframe;
        if always || v == -1 || head.kfSeekPts < x.queues[v].packets[0].kfSeekPts {
          v := n;
          if always {
            break;
          }
        }
      }
      n := n + 1;
    }
  }

  /** Position of the first seek point from `i` on, or the length. */
  function NextSeekPoint(ps: seq<Packet>, i: nat): (k: nat)
    requires i <= |ps|
    ensures i <= k <= |ps|
    ensures k < |ps| ==> SeekPoint(ps[k])
    ensures forall j :: i <= j < k ==> !SeekPoint(ps[j])
    decreases |ps| - i
  {
    if i == |ps| || SeekPoint(ps[i]) then i else NextSeekPoint(ps, i + 1)
  }

  /** The queue once it is decided how far to prune: up to just before its next seek point after
      the head, where the window now starts. */
  function Prepared(q: Queue): Queue
    requires q.packets != []
  {
    var k := NextSeekPoint(q.packets, 1);
    q.(lastPruned := if q.seekStart != NOPTS then q.seekStart else q.lastPruned,
       seekStart := if k < |q.packets| then q.packets[k].kfSeekPts else NOPTS,
       nextPrune := At(q.base + k - 1))
  }

  lemma PreparedOk(q: Queue)
    requires QueueOk(q) && q.packets != []
    ensures QueueOk(Prepared(q))
  {
  }

  /** While the window says what is in the queue, a round of pruning takes no seek target but those at the
      time it remembers as pruned, so that a window behind that time has lost none; and if a keyframe
      follows, the window goes on from that. */
  lemma PrunedIsRemembered(q: Queue, i: nat)
    requires q.packets != [] && Honest(q) && q.seekStart != NOPTS
    ensures var p, k := Prepared(q), NextSeekPoint(q.packets, 1);
      && p.lastPruned == q.seekStart
      && (i < k && SeekPoint(q.packets[i]) ==> q.packets[i].kfSeekPts == p.lastPruned)
      && (k < |q.packets| ==> FirstSeekPoint(q.packets[1..], k - 1) && p.seekStart == q.packets[1..][k - 1].kfSeekPts)
      && (k == |q.packets| ==> NoSeekPoint(q.packets[1..]) && p.seekStart == NOPTS)
  {
    var f :| FirstSeekPoint(q.packets, f) && q.packets[f].kfSeekPts == q.seekStart;
  }

  /** A queue left behind holds nothing that was due for pruning, and everything else it held. */
  lemma NothingDueStays(q: Queue)
    requires QueueOk(q)
    ensures var r := LeftBehind(q);
      && r.nextPrune.Null? && r.End() == q.End()
      && r.packets == q.packets[r.base - q.base..]
      && r.base == if q.nextPrune.At? then q.nextPrune.num + 1 else q.base
  {
    hide IndexOk;
    if q.nextPrune.Null? {
      assert q.packets[0..] == q.packets;
    }
  }

  /** So if it is left while its next keyframe is known, it begins with the keyframe that its window
      begins with. */
  lemma LeftBehindBegins(q: Queue)
    requires QueueOk(q) && q.packets != [] && NextSeekPoint(q.packets, 1) < |q.packets|
    ensures var r := LeftBehind(Prepared(q));
      r.packets != [] && SeekPoint(r.packets[0]) && r.packets[0].kfSeekPts == r.seekStart
  {
    hide QueueOk;
  }

  method PreparePrune(q: Queue) returns (r: Queue)
    requires q.packets != []
    ensures r == Prepared(q)
  {
    r := q;
    if r.seekStart != NOPTS {
      r := r.(lastPruned := r.seekStart);
    }
    r := r.(seekStart := NOPTS, nextPrune := r.Tail());
    var prev := 0;
    while prev + 1 < |q.packets|
      invariant 0 <= prev < |q.packets|
      invariant NextSeekPoint(q.packets, 1) == NextSeekPoint(q.packets, prev + 1)
    {
      var dp := q.packets[prev + 1];
      if dp.media.keyframe && dp.kfSeekPts != NOPTS {
        r := r.(seekStart := dp.kfSeekPts, nextPrune := At(q.base + prev));
        break;
      }
      prev := prev + 1;
    }
  }

  /** How many heads go: up to and including the target, but never the reader's packet. */
  function PruneCount(s: Stream, id: nat, q: Queue, k: nat): (c: nat)
    requires k <= |q.packets|
    ensures k <= c <= |q.packets|
    decreases |q.packets| - k
  {
    if k == |q.packets| || s.reader == PacketAt(id, q.base + k) then k
    else if q.nextPrune == At(q.base + k) then k + 1
    else PruneCount(s, id, q, k + 1)
  }

  lemma {:induction false} PruneStopsAtReader(s: Stream, id: nat, q: Queue, k: nat)
    requires k <= |q.packets|
    ensures s.reader.PacketAt? && s.reader.range == id && q.base + k <= s.reader.num ==>
              q.base + PruneCount(s, id, q, k) <= s.reader.num
    decreases |q.packets| - k
  {
    if k < |q.packets| && s.reader != PacketAt(id, q.base + k) && q.nextPrune != At(q.base + k) {
      PruneStopsAtReader(s, id, q, k + 1);
    }
  }

  /** Removes heads up to the prune target or the reader's packet. */
  method RemoveRun(s: Stream, id: nat, q: Queue) returns (r: Queue, removed: nat)
    requires QueueOk(q)
    ensures r == Drop(q, PruneCount(s, id, q, 0)) && QueueOk(r)
    ensures removed + Bytes(r.packets) == Bytes(q.packets)
  {
    hide QueueOk, IndexOk;
    ghost var k := 0;
    r, removed := q, 0;
    QueueIndexOk(q);
    DropNone(q);
    DropOk(q, 0);
    var done := false;
    while !done && r.packets != [] && s.reader != PacketAt(id, r.base)
      invariant 0 <= k <= |q.packets| && r == Drop(q, k) && QueueOk(r)
      invariant removed + Bytes(r.packets) == Bytes(q.packets)
      invariant if done then PruneCount(s, id, q, 0) == k else PruneCount(s, id, q, 0) == PruneCount(s, id, q, k)
      decreases |r.packets|
    {
      done := r.nextPrune == At(r.base);
      removed := removed + EstimateSize(r.packets[0].media);
      DropStep(q, k);
      DropOk(q, k + 1);
      r := RemoveHead(r);
      k := k + 1;
    }
  }

  lemma QueueIndexOk(q: Queue)
    requires QueueOk(q)
    ensures IndexOk(q) && q.HoldsLink(q.nextPrune) && q.HoldsLink(q.keyframeLatest)
  {
  }

  /** `r` is `q` without some packets at its head. */
  predicate PrunedFrom(r: Queue, q: Queue) {
    q.base <= r.base <= q.End() && r.packets == q.packets[r.base - q.base..]
  }

  /** Packets behind the reader can go without it noticing. */
  lemma DropReader(s: Stream, id: nat, q: Queue, k: nat)
    requires ReaderOk(s, id, q) && k <= |q.packets|
    requires s.reader.PacketAt? ==> q.base + k <= s.reader.num
    ensures ReaderOk(s, id, Drop(q, k)) && Forward(s, Drop(q, k)) == Forward(s, q)
  {
    if s.reader.PacketAt? {
      assert q.packets[k..][s.reader.num - (q.base + k)..] == q.packets[s.reader.num - q.base..];
    }
  }

  /** One victim pruned: `prepared` says whether its window moved. */
  method PruneQueue(s: Stream, id: nat, q: Queue, seekable: bool) returns (r: Queue, removed: nat, prepared: bool)
    requires QueueOk(q) && Prunable(s, id, q)
    ensures QueueOk(r) && PrunedFrom(r, q)
    ensures removed > 0 && removed + Bytes(r.packets) == Bytes(q.packets)
    ensures ReaderOk(s, id, q) ==> ReaderOk(s, id, r) && Forward(s, r) == Forward(s, q)
    ensures prepared <==> seekable && q.nextPrune.Null?
    ensures var p := if prepared then Prepared(q) else q; r == Drop(p, PruneCount(s, id, p, 0))
  {
    hide QueueOk;
    prepared := seekable && q.nextPrune.Null?;
    var p := q;
    if prepared {
      PreparedOk(q);
      p := PreparePrune(q);
    }
    r, removed := RemoveRun(s, id, p);
    var k := PruneCount(s, id, p, 0);
    PruneStopsAtReader(s, id, p, 0);
    PruneRemovesSome(s, id, p);
    if ReaderOk(s, id, q) {
      DropReader(s, id, p, k);
    }
  }

  lemma PruneRemovesSome(s: Stream, id: nat, q: Queue)
    requires Prunable(s, id, q)
    ensures PruneCount(s, id, q, 0) > 0 && Bytes(Drop(q, PruneCount(s, id, q, 0)).packets) < Bytes(q.packets)
  {
    var k := PruneCount(s, id, q, 0);
    BytesSplit(q.packets, k);
    assert Bytes(q.packets[..k]) > 0;
  }

  // ---------- is there a victim? ----------

  predicate Drained(x: Range) {
    forall n :: 0 <= n < |x.queues| ==> x.queues[n].packets == []
  }

  lemma {:induction false} NoVictimNoBacklog(ss: seq<Stream>, id: nat, qs: seq<Queue>)
    requires |ss| == |qs|
    requires forall n :: 0 <= n < |ss| ==> ReaderOk(ss[n], id, qs[n]) && !Prunable(ss[n], id, qs[n])
    ensures QueuesBytes(qs) == ForwardBytes(ss)
  {
    if ss != [] {
      NoVictimNoBacklog(ss[1..], id, qs[1..]);
      assert ReaderOk(ss[0], id, qs[0]);
      assert Forward(ss[0], qs[0]) == qs[0].packets;
    }
  }

  /** While more is buffered than the readers have ahead of them, the least recently used range
      has a victim, unless it is an old range that has lost all its packets and yet was not
      freed; with a single range there always is one. */
  lemma {:induction false} VictimExists(rs: seq<Range>, ss: seq<Stream>)
    requires rs != [] && RangesOk(rs, |ss|) && ReadersOk(ss, rs[|rs| - 1])
    requires RangesBytes(rs) > ForwardBytes(ss)
    ensures (exists n :: 0 <= n < |ss| && Prunable(ss[n], rs[0].id, rs[0].queues[n]))
            <==> !(|rs| > 1 && Drained(rs[0]))
  {
    var x := rs[0];
    if |rs| == 1 {
      assert rs[1..] == [];
      SingleRangeVictim(ss, x.id, x.queues);
    } else {
      assert x.id != rs[|rs| - 1].id;
      forall n | 0 <= n < |ss| ensures Prunable(ss[n], x.id, x.queues[n]) <==> x.queues[n].packets != [] {
        assert ReaderOk(ss[n], rs[|rs| - 1].id, rs[|rs| - 1].queues[n]);
      }
    }
  }

  lemma SingleRangeVictim(ss: seq<Stream>, id: nat, qs: seq<Queue>)
    requires |ss| == |qs| && forall n :: 0 <= n < |ss| ==> ReaderOk(ss[n], id, qs[n])
    requires QueuesBytes(qs) > ForwardBytes(ss)
    ensures exists n :: 0 <= n < |ss| && Prunable(ss[n], id, qs[n])
  {
    if !exists n :: 0 <= n < |ss| && Prunable(ss[n], id, qs[n]) {
      NoVictimNoBacklog(ss, id, qs);
    }
  }

  /** What the readers have ahead of them is part of what is buffered. */
  lemma {:induction false} ForwardIsBuffered(ss: seq<Stream>, id: nat, qs: seq<Queue>)
    requires |ss| == |qs| && forall n :: 0 <= n < |ss| ==> ReaderOk(ss[n], id, qs[n])
    ensures ForwardBytes(ss) <= QueuesBytes(qs)
  {
    if ss != [] {
      ForwardIsBuffered(ss[1..], id, qs[1..]);
      assert ReaderOk(ss[0], id, qs[0]);
      if ss[0].reader.PacketAt? {
        BytesSplit(qs[0].packets, ss[0].reader.num - qs[0].base);
      }
    }
  }

  lemma ForwardLeTotal(rs: seq<Range>, ss: seq<Stream>)
    requires rs != [] && ReadersOk(ss, rs[|rs| - 1])
    ensures ForwardBytes(ss) <= RangesBytes(rs)
  {
    ForwardIsBuffered(ss, rs[|rs| - 1].id, rs[|rs| - 1].queues);
    RangesBytesUpdate(rs, |rs| - 1, rs[|rs| - 1]);
  }

  // ---------- what pruning leaves of the current range ----------

  predicate RangePruned(y: Range, x: Range) {
    && y.id == x.id && |y.queues| == |x.queues|
    && forall n :: 0 <= n < |x.queues| ==> PrunedFrom(y.queues[n], x.queues[n])
  }

  lemma RangePrunedRefl(x: Range)
    ensures RangePruned(x, x)
  {
    forall n | 0 <= n < |x.queues| ensures PrunedFrom(x.queues[n], x.queues[n]) {
      assert x.queues[n].packets[0..] == x.queues[n].packets;
    }
  }

  lemma RangePrunedTrans(z: Range, y: Range, x: Range)
    requires RangePruned(z, y) && RangePruned(y, x)
    ensures RangePruned(z, x)
  {
    forall n | 0 <= n < |x.queues| ensures PrunedFrom(z.queues[n], x.queues[n]) {
      assert PrunedFrom(z.queues[n], y.queues[n]) && PrunedFrom(y.queues[n], x.queues[n]);
    }
  }

  /** The ranges after one victim is pruned, with its range's window renewed if it moved. */
  function PrunedRange(x: Range, ss: seq<Stream>, v: nat, q: Queue, renew: bool): Range
    requires v < |x.queues| == |ss|
  {
    var y := x.(queues := x.queues[v := q]);
    if renew then WithWindow(y, ss) else y
  }

  lemma OneQueuePruned(x: Range, ss: seq<Stream>, v: nat, q: Queue, renew: bool)
    requires v < |x.queues| == |ss| && PrunedFrom(q, x.queues[v])
    ensures var y := PrunedRange(x, ss, v, q, renew);
      RangePruned(y, x) && y.id == x.id && y.queues == x.queues[v := q]
  {
    hide SeekWindow;
    RangePrunedRefl(x);
  }

  lemma PrunedReaders(rs: seq<Range>, ss: seq<Stream>, v: nat, q: Queue, y: Range)
    requires rs != [] && ReadersOk(ss, rs[|rs| - 1]) && v < |rs[0].queues| == |ss|
    requires y.id == rs[0].id && y.queues == rs[0].queues[v := q]
    requires ReaderOk(ss[v], rs[0].id, rs[0].queues[v]) ==> ReaderOk(ss[v], rs[0].id, q)
    ensures ReadersOk(ss, rs[0 := y][|rs| - 1])
  {
    hide ReaderOk;
  }

  lemma PruneKeeps(rs: seq<Range>, ss: seq<Stream>, v: nat, q: Queue, renew: bool, removed: nat, ids: nat)
    requires rs != [] && RangesOk(rs, |ss|) && IdsBelow(rs, ids) && ReadersOk(ss, rs[|rs| - 1]) && v < |ss|
    requires QueueOk(q) && PrunedFrom(q, rs[0].queues[v])
    requires removed + Bytes(q.packets) == Bytes(rs[0].queues[v].packets)
    requires ReaderOk(ss[v], rs[0].id, rs[0].queues[v]) ==> ReaderOk(ss[v], rs[0].id, q)
    ensures var y := PrunedRange(rs[0], ss, v, q, renew);
      && RangesOk(rs[0 := y], |ss|) && IdsBelow(rs[0 := y], ids)
      && removed + RangesBytes(rs[0 := y]) == RangesBytes(rs)
      && ReadersOk(ss, rs[0 := y][|rs| - 1])
      && RangePruned(y, rs[0])
  {
    hide QueueOk, ReaderOk, PrunedRange, ReadersOk, RangePruned, PrunedFrom, RangesBytes, QueuesBytes;
    QueuesBytesUpdate(rs[0].queues, v, q);
    var y := PrunedRange(rs[0], ss, v, q, renew);
    OneQueuePruned(rs[0], ss, v, q, renew);
    PrunedReaders(rs, ss, v, q, y);
    ReplaceQueuesOk(rs, 0, y, |ss|, ids);
  }

  /** What lies ahead of a reader survives pruning unchanged. */
  lemma PruneKeepsForward(ss: seq<Stream>, x: Range, y: Range)
    requires RangePruned(y, x) && ReadersOk(ss, x) && ReadersOk(ss, y)
    ensures forall n :: 0 <= n < |ss| ==> Forward(ss[n], y.queues[n]) == Forward(ss[n], x.queues[n])
  {
    forall n | 0 <= n < |ss| ensures Forward(ss[n], y.queues[n]) == Forward(ss[n], x.queues[n]) {
      assert ReaderOk(ss[n], x.id, x.queues[n]) && ReaderOk(ss[n], y.id, y.queues[n]);
      assert PrunedFrom(y.queues[n], x.queues[n]);
    }
  }

  /** What is left of a victim's queue: it is first decided how far to prune, unless that is still
      pending from an earlier round, and then everything before the next seek point goes, but
      never the reader's packet. */
  function PrunedVictim(s: Stream, id: nat, q: Queue, seekable: bool): Queue
    requires q.packets != []
  {
    var p := if seekable && q.nextPrune.Null? then Prepared(q) else q;
    Drop(p, PruneCount(s, id, p, 0))
  }

  function VictimPruned(rs: seq<Range>, ss: seq<Stream>, seekable: bool, v: nat): Range
    requires rs != [] && v < |rs[0].queues| == |ss| && rs[0].queues[v].packets != []
  {
    var q := rs[0].queues[v];
    PrunedRange(rs[0], ss, v, PrunedVictim(ss[v], rs[0].id, q, seekable), seekable && q.nextPrune.Null?)
  }

  /** One round of pruning: the victim of the least recently used range is pruned; a range other
      than the current one that lost its window goes. */
  ghost predicate PruneOutcome(rs: seq<Range>, ss: seq<Stream>, seekable: bool, current: nat, rs': seq<Range>) {
    && rs != [] && |rs[0].queues| == |ss|
    && exists v: nat :: v < |ss| && PrunedVictimOutcome(rs, ss, seekable, current, v, rs')
  }

  ghost predicate PrunedVictimOutcome(rs: seq<Range>, ss: seq<Stream>, seekable: bool, current: nat, v: nat,
                                      rs': seq<Range>)
    requires rs != [] && v < |rs[0].queues| == |ss|
  {
    && IsVictim(rs[0], ss, seekable, |ss|, v)
    && var y := VictimPruned(rs, ss, seekable, v);
       var mid := rs[0 := y];
       rs' == if y.id != current && y.seekStart == NOPTS then Freed(mid) else mid
  }

  /** The queue pruned is never left without a window in the list, unless it is the current range's. */
  lemma WindowlessGoes(rs: seq<Range>, ss: seq<Stream>, seekable: bool, current: nat, v: nat, rs': seq<Range>)
    requires rs != [] && v < |rs[0].queues| == |ss| && PrunedVictimOutcome(rs, ss, seekable, current, v, rs')
    requires rs[0].id != current && rs[|rs| - 1].id == current && rs[0].seekStart != NOPTS
    ensures rs' != [] && rs'[0].seekStart == NOPTS ==> rs'[0].id == current
  {
    hide IsVictim, PrunedVictim, SeekWindow, Freed;
    VictimIsEarliest(rs[0], ss, seekable, v, v);
    FreedHasWindows(rs[0 := VictimPruned(rs, ss, seekable, v)]);
  }

  // ---------- a drained range with a window ----------

  /** How a range gets into the state in which pruning finds no victim although it is not freed.
      Pruning a queue in which no seek point after the head is known yet marks the whole queue as
      not worth keeping, although it drops only what lies behind the reader; if the input then ends
      before another keyframe, the range still being filled opens the window again; and when the
      range is put aside, everything marked is dropped, window or not. */
  lemma PruneThenEndDrains(q: Queue, k: nat)
    requires QueueOk(q) && q.keyframeLatest.At? && q.Holds(q.keyframeLatest.num)
    requires NOPTS < q.keyframePts < q.keyframeEndPts && NoSeekPointFrom(q.packets, 1)
    requires 1 <= k <= q.keyframeLatest.num - q.base
    ensures Readable(Drop(Prepared(q), k))
    ensures var e := Adjusted(Drop(Prepared(q), k), Null);
      && QueueOk(e) && e.packets != []
      && LeftBehind(e).packets == []
      && LeftBehind(e).seekStart == q.keyframePts && LeftBehind(e).seekEnd == q.keyframeEndPts
  {
    hide QueueOk, Adjusted, IndexFrom;
    var p := Prepared(q);
    PreparedOk(q);
    DropOk(p, k);
    var d := Drop(p, k);
    ReadableIfOk(d);
    AdjustedOk(d, Null);
    EndReopens(d, At(q.End() - 1));
    var e := Adjusted(d, Null);
    assert |Medias(e.packets)| == |Medias(d.packets)|;
  }

  lemma EndReopens(d: Queue, target: Link)
    requires Readable(d) && d.keyframeLatest.At? && d.seekStart == NOPTS && d.nextPrune == target
    requires NOPTS < d.keyframePts && NOPTS < d.keyframeEndPts
    ensures var e := Adjusted(d, Null);
      e.seekStart == d.keyframePts && e.seekEnd == d.keyframeEndPts && e.nextPrune == target && e.base == d.base
  {
  }
}
