/** Resuming a stream after the demuxer was sent back (the `refreshing` state of
    demux_add_packet): re-delivered packets are dropped until the old position is reached. */
module RefreshSeek {
  import opened PacketQueue
  import opened RangeJoin

  /** Whether a packet dropped while refreshing still lies before the queue's last one. */
  predicate StillBehind(q: Queue, m: Media) {
    if q.correctDts then m.dts < q.lastDts
    else if q.correctPos then m.pos < q.lastPos
    else false
  }

  /** The delivered packets the stream takes, starting with `refreshing` set; until the first
      one is taken, the queue they are compared with stays the same. */
  function Taken(q: Queue, refreshing: bool, ms: seq<Media>): seq<Media> {
    if !refreshing || ms == [] then ms else Taken(q, StillBehind(q, ms[0]), ms[1..])
  }

  function AddedAll(q: Queue, ms: seq<Media>, video: bool): (r: Queue)
    requires Readable(q)
    ensures Readable(r)
    decreases |ms|
  {
    if ms == [] then q else AddedAll(Added(q, ms[0], video), ms[1..], video)
  }

  function Normal(ms: seq<Media>, video: bool): (r: seq<Media>)
    ensures |r| == |ms|
  {
    seq(|ms|, i requires 0 <= i < |ms| => NormalPts(ms[i], video))
  }

  /** The queue after adding packets holds them in order behind what it had. */
  lemma {:induction false} AddedAllMedias(q: Queue, ms: seq<Media>, video: bool)
    requires Readable(q)
    ensures Medias(AddedAll(q, ms, video).packets) == Medias(q.packets) + Normal(ms, video)
    decreases |ms|
  {
    hide Readable, Added;
    if ms == [] {
      assert Medias(q.packets) + Normal(ms, video) == Medias(q.packets);
    } else {
      AddedAllMedias(Added(q, ms[0], video), ms[1..], video);
      assert Normal(ms, video) == [NormalPts(ms[0], video)] + Normal(ms[1..], video);
    }
  }

  /** The queue last took packet `e` of the source, and the order it resumes by is strict. */
  predicate ResumesAt(q: Queue, src: seq<Media>, e: nat) {
    && e < |src| && q.lastDts == src[e].dts && q.lastPos == src[e].pos
    && (q.correctDts || q.correctPos)
    && Increasing(src, if q.correctDts then Order(true, false) else Order(false, true))
  }

  /** Re-delivery from at or before the old position drops exactly what the queue already has;
      starting later, one packet beyond the gap is lost as well. */
  lemma {:induction false} TakenFrom(q: Queue, src: seq<Media>, e: nat, k: nat)
    requires ResumesAt(q, src, e) && k < |src|
    ensures Taken(q, true, src[k..]) == src[(if k <= e then e else k) + 1..]
    decreases |src| - k
  {
    assert src[k..][0] == src[k] && src[k..][1..] == src[k + 1..];
    if k < e {
      TakenFrom(q, src, e, k + 1);
    }
  }

  /** A refresh continues the queue with exactly the next source packet if and only if the
      demuxer went back to a packet the queue already has. */
  lemma RefreshIsExact(q: Queue, src: seq<Media>, e: nat, k: nat)
    requires ResumesAt(q, src, e) && k < |src|
    ensures Taken(q, true, src[k..]) == src[e + 1..] <==> k <= e
  {
    TakenFrom(q, src, e, k);
    if k > e {
      assert |src[k + 1..]| < |src[e + 1..]|;
    }
  }

  /** A stream without an order cannot tell where it was: it skips one packet, whatever that is. */
  lemma UnorderedSkipsOne(q: Queue, ms: seq<Media>)
    requires !q.correctDts && !q.correctPos && ms != []
    ensures Taken(q, true, ms) == ms[1..]
  {
  }

  /** So a queue that holds a contiguous piece of the source goes on holding one, up to whatever is
      delivered last. */
  lemma RefreshContinues(q: Queue, src: seq<Media>, a: nat, e: nat, k: nat, video: bool)
    requires Readable(q) && ResumesAt(q, src, e) && a <= e + 1 && k <= e
    requires Medias(q.packets) == Normal(src[a..e + 1], video)
    ensures Medias(AddedAll(q, Taken(q, true, src[k..]), video).packets) == Normal(src[a..], video)
  {
    hide Readable, AddedAll, Taken, Increasing;
    RefreshIsExact(q, src, e, k);
    AddedAllMedias(q, src[e + 1..], video);
    assert Normal(src[a..], video) == Normal(src[a..e + 1], video) + Normal(src[e + 1..], video);
  }

  /** Joining two ranges of one source and resuming from anywhere in the second one yields the
      source without a seam: first queue, rest of the second one, then what follows it. */
  lemma {:induction false} JoinThenRefresh(src: seq<Media>, q1: Queue, a: nat, b: nat, q2: Queue, c: nat, d: nat,
                                           o: Order, k: nat)
    requires QueueOk(q1) && Window(q1, src, a, b) && a < b
    requires QueueOk(q2) && Window(q2, src, c, d) && c < d
    requires q2.correctDts && q1.correctDts && q2.lastDts == src[d - 1].dts && q2.lastPos == src[d - 1].pos
    requires o.dts && Increasing(src, o)
    requires Overlap(q2, src[b - 1], o, 0).Found?
    requires k <= d - 1
    ensures var rest := Drop(q2, Overlap(q2, src[b - 1], o, 0).keep);
      Joinable(q1, rest)
      && Medias(Joined(q1, rest).packets) + Taken(Joined(q1, rest), true, src[k..]) == src[a..]
  {
    hide QueueOk, Overlap, Joined, Increasing, Taken;
    var keep := Overlap(q2, src[b - 1], o, 0).keep;
    var rest := Drop(q2, keep);
    DropOk(q2, keep);
    OkIsJoinable(q1, rest);
    OkHolds(q2);
    JoinIsWindowUnion(src, q1, a, b, q2, c, d, o);
    var joined := Joined(q1, rest);
    JoinedEnds(q1, rest);
    JoinedResumes(joined, src, d - 1, o);
    TakenFrom(joined, src, d - 1, k);
    assert Medias(joined.packets) == src[a..d];
    assert src[a..d] + src[d..] == src[a..];
  }

  lemma OkHolds(q: Queue)
    requires QueueOk(q)
    ensures q.HoldsLink(q.keyframeLatest)
  {
  }

  /** The joined queue continues where the second one ended. */
  lemma JoinedEnds(q1: Queue, q2: Queue)
    requires Joinable(q1, q2)
    ensures var j := Joined(q1, q2);
      && j.lastDts == q2.lastDts && j.lastPos == q2.lastPos && j.lastTs == q2.lastTs
      && j.correctDts == (q1.correctDts && q2.correctDts) && j.correctPos == (q1.correctPos && q2.correctPos)
  {
  }

  lemma JoinedResumes(q: Queue, src: seq<Media>, e: nat, o: Order)
    requires e < |src| && q.lastDts == src[e].dts && q.lastPos == src[e].pos && q.correctDts
    requires o.dts && Increasing(src, o)
    ensures ResumesAt(q, src, e)
  {
  }
}
