/** What a queue's incremental state says about the packets added to it: the bounds of its keyframe
    ranges, whether they came in order, and the newest timestamp. */
module QueueHistory {
  import opened Timestamps
  import opened PacketQueue
  import opened SeekIndex
  import RangeJoin

  // ---------- keyframe ranges ----------

  /** The packet is shown at `ts`: at its pts, or failing that its dts, if that is inside its segment. */
  predicate ShownAt(m: Media, ts: real) {
    && ts != NOPTS
    && (if m.pts != NOPTS then ts == m.pts else ts == m.dts)
    && (m.segmented ==> m.start <= ts <= m.end)
  }

  ghost predicate Attained(ms: seq<Media>, ts: real) {
    exists i :: 0 <= i < |ms| && ShownAt(ms[i], ts)
  }

  /** `lo` is the least and `hi` the greatest timestamp of the packets; both are missing exactly if no
      packet has one. */
  ghost predicate Bounds(ms: seq<Media>, lo: real, hi: real) {
    && (forall i, ts :: 0 <= i < |ms| && ShownAt(ms[i], ts) ==> lo != NOPTS && hi != NOPTS && lo <= ts <= hi)
    && (lo != NOPTS ==> Attained(ms, lo))
    && (hi != NOPTS ==> Attained(ms, hi))
  }

  lemma ShownAtBlockTs(m: Media, ts: real, video: bool)
    ensures ShownAt(m, ts) <==> ts != NOPTS && ts == BlockTs(m)
    ensures BlockTs(NormalPts(m, video)) == BlockTs(m)
  {
  }

  lemma AttainedLater(ms: seq<Media>, m: Media, ts: real)
    requires Attained(ms, ts) || ShownAt(m, ts)
    ensures Attained(ms + [m], ts)
  {
    if Attained(ms, ts) {
      var i :| 0 <= i < |ms| && ShownAt(ms[i], ts);
      assert (ms + [m])[i] == ms[i];
    } else {
      assert (ms + [m])[|ms|] == m;
    }
  }

  lemma BoundsGrow(ms: seq<Media>, lo: real, hi: real, m: Media)
    requires Bounds(ms, lo, hi)
    ensures Bounds(ms + [m], PtsMin(lo, BlockTs(m)), PtsMax(hi, BlockTs(m)))
  {
    hide BlockTs, ShownAt;
    var lo', hi', more := PtsMin(lo, BlockTs(m)), PtsMax(hi, BlockTs(m)), ms + [m];
    ShownAtBlockTs(m, lo', true);
    ShownAtBlockTs(m, hi', true);
    if lo' != NOPTS {
      AttainedLater(ms, m, lo');
    }
    if hi' != NOPTS {
      AttainedLater(ms, m, hi');
    }
    forall i, ts | 0 <= i < |more| && ShownAt(more[i], ts)
      ensures lo' != NOPTS && hi' != NOPTS && lo' <= ts <= hi'
    {
      if i < |ms| {
        assert ShownAt(ms[i], ts);
      } else {
        ShownAtBlockTs(m, ts, true);
      }
    }
  }

  /** The keyframe range being filled starts at position `i`, holds `ms`, and knows their bounds. */
  ghost predicate Filling(q: Queue, i: nat, ms: seq<Media>) {
    && q.keyframeLatest == At(q.base + i) && i + |ms| == |q.packets|
    && Bounds(ms, q.keyframePts, q.keyframeEndPts)
  }

  function Arrivals(ms: seq<Media>): (es: seq<Event>)
    ensures |es| == |ms|
  {
    seq(|ms|, i requires 0 <= i < |ms| => NewPacket(ms[i]))
  }

  lemma KeyframeStarts(q: Queue, m: Media, video: bool)
    requires Readable(q) && m.keyframe
    ensures Filling(Added(q, m, video), |q.packets|, [m])
  {
    ShownAtBlockTs(m, BlockTs(m), video);
    BoundsGrow([], NOPTS, NOPTS, m);
    assert [] + [m] == [m];
  }

  lemma OtherContinues(q: Queue, i: nat, ms: seq<Media>, m: Media, video: bool)
    requires Readable(q) && Filling(q, i, ms) && !m.keyframe
    ensures var r := Added(q, m, video);
      Filling(r, i, ms + [m]) && r.seekStart == q.seekStart && r.seekEnd == q.seekEnd
  {
    hide BlockTs;
    ShownAtBlockTs(m, NOPTS, video);
    BoundsGrow(ms, q.keyframePts, q.keyframeEndPts, m);
  }

  lemma {:induction false} RunConcat(q: Queue, a: seq<Event>, b: seq<Event>, video: bool)
    requires Readable(q)
    ensures Run(q, a + b, video) == Run(Run(q, a, video), b, video)
    decreases |a|
  {
    if a == [] {
      assert a + b == b;
    } else {
      assert (a + b)[0] == a[0] && (a + b)[1..] == a[1..] + b;
      RunConcat(Step(q, a[0], video), a[1..], b, video);
    }
  }

  lemma RunOne(q: Queue, e: Event, video: bool)
    requires Readable(q)
    ensures Run(q, [e], video) == Step(q, e, video)
  {
    assert [e][1..] == [];
  }

  lemma {:induction false} OthersContinue(q: Queue, i: nat, ms: seq<Media>, more: seq<Media>, video: bool)
    requires Readable(q) && Filling(q, i, ms) && forall k :: 0 <= k < |more| ==> !more[k].keyframe
    ensures Filling(Run(q, Arrivals(more), video), i, ms + more)
    decreases |more|
  {
    hide Added, Bounds;
    if more == [] {
      assert ms + more == ms;
    } else {
      OtherContinues(q, i, ms, more[0], video);
      assert Arrivals(more)[1..] == Arrivals(more[1..]);
      OthersContinue(Added(q, more[0], video), i, ms + [more[0]], more[1..], video);
      assert ms + more == ms + [more[0]] + more[1..];
    }
  }

  /** The end of the stream and the next keyframe close a range. */
  predicate Closes(e: Event) {
    e.NewPacket? ==> e.media.keyframe
  }

  lemma ClosingStamps(q: Queue, i: nat, ms: seq<Media>, e: Event, video: bool)
    requires Readable(q) && Filling(q, i, ms) && ms != [] && Closes(e)
    ensures var r := Step(q, e, video);
      && i < |r.packets| && r.packets[i].kfSeekPts == q.keyframePts
      && r.seekEnd == (if q.keyframeEndPts == NOPTS then q.seekEnd else q.keyframeEndPts)
      && r.seekStart == (if q.seekStart == NOPTS then q.keyframePts else q.seekStart)
      && r.base == q.base && r.keyframeLatest != At(r.base + i)
  {
    hide Bounds;
  }

  /** A seek timestamp stays as it is once its range is closed. */
  lemma {:induction false} StaysStamped(q: Queue, events: seq<Event>, i: nat, video: bool)
    requires Readable(q) && i < |q.packets| && q.keyframeLatest != At(q.base + i)
    ensures var r := Run(q, events, video); i < |r.packets| && r.packets[i] == q.packets[i]
    decreases |events|
  {
    if events != [] {
      StepStaysStamped(q, events[0], i, video);
      hide Step;
      StaysStamped(Step(q, events[0], video), events[1..], i, video);
    }
  }

  lemma StepStaysStamped(q: Queue, e: Event, i: nat, video: bool)
    requires Readable(q) && i < |q.packets| && q.keyframeLatest != At(q.base + i)
    ensures var r := Step(q, e, video);
      i < |r.packets| && r.packets[i] == q.packets[i] && r.keyframeLatest != At(r.base + i)
  {
    hide WithIndexEntry, PtsMin, PtsMax, BlockTs;
  }

  /** Whatever a queue has been through, and in whatever order timestamps come: once a keyframe's
      range is closed, the keyframe's seek timestamp is the least timestamp in the range, now and
      after everything that is added later; and the queue's window ends at the greatest one. A range
      without any timestamp has no seek timestamp and leaves the window alone. */
  lemma ClosedRangeIsBounded(q: Queue, m: Media, ms: seq<Media>, e: Event, after: seq<Event>, video: bool)
    returns (lo: real, hi: real)
    requires Readable(q) && m.keyframe && (forall k :: 0 <= k < |ms| ==> !ms[k].keyframe) && Closes(e)
    ensures Bounds([m] + ms, lo, hi)
    ensures var filled := Run(q, [NewPacket(m)] + Arrivals(ms), video);
      var closed := Step(filled, e, video);
      && closed.seekEnd == (if hi == NOPTS then filled.seekEnd else hi)
      && closed.seekStart == (if filled.seekStart == NOPTS then lo else filled.seekStart)
      && var r := Run(closed, after, video);
         |q.packets| < |r.packets| && r.packets[|q.packets|].kfSeekPts == lo
  {
    hide Step, Bounds;
    var filled := Run(q, [NewPacket(m)] + Arrivals(ms), video);
    RunConcat(q, [NewPacket(m)], Arrivals(ms), video);
    RunOne(q, NewPacket(m), video);
    var first := Step(q, NewPacket(m), video);
    assert Filling(first, |q.packets|, [m]) by {
      StepAdds(q, m, video);
      KeyframeStarts(q, m, video);
    }
    OthersContinue(first, |q.packets|, [m], ms, video);
    lo, hi := filled.keyframePts, filled.keyframeEndPts;
    ClosingStamps(filled, |q.packets|, [m] + ms, e, video);
    StaysStamped(Step(filled, e, video), after, |q.packets|, video);
  }

  lemma StepAdds(q: Queue, m: Media, video: bool)
    requires Readable(q)
    ensures Step(q, NewPacket(m), video) == Added(q, m, video)
  {
  }

  /** Dropping heads leaves the range being filled alone, or forgets it along with its keyframe. */
  lemma DropFills(q: Queue, i: nat, ms: seq<Media>, k: nat)
    requires Filling(q, i, ms) && k <= |q.packets|
    ensures if k <= i then Filling(Drop(q, k), i - k, ms) else Drop(q, k).keyframeLatest.Null?
  {
    hide Bounds;
  }

  /** A joined queue goes on filling the second one's range. */
  lemma JoinedFills(q1: Queue, q2: Queue, i: nat, ms: seq<Media>)
    requires RangeJoin.Joinable(q1, q2)
    ensures Filling(q2, i, ms) ==> Filling(RangeJoin.Joined(q1, q2), |q1.packets| + i, ms)
    ensures q2.keyframeLatest.Null? ==> RangeJoin.Joined(q1, q2).keyframeLatest.Null?
  {
    hide Bounds;
  }

  // ---------- order ----------

  /** The packets added by the events. */
  function Arrived(events: seq<Event>): seq<Media> {
    if events == [] then []
    else (if events[0].NewPacket? then [events[0].media] else []) + Arrived(events[1..])
  }

  predicate DtsAscends(ms: seq<Media>) {
    forall i :: 0 <= i < |ms| ==> ms[i].dts > NOPTS && (i > 0 ==> ms[i - 1].dts < ms[i].dts)
  }

  predicate PosAscends(ms: seq<Media>) {
    forall i :: 0 <= i < |ms| ==> ms[i].pos >= 0 && (i > 0 ==> ms[i - 1].pos < ms[i].pos)
  }

  /** The queue knows how the packets added since it was empty were ordered, and the last of them. */
  predicate KnowsOrder(q: Queue, ms: seq<Media>) {
    && (q.correctDts <==> DtsAscends(ms)) && (q.correctPos <==> PosAscends(ms))
    && q.lastDts == (if ms == [] then NOPTS else ms[|ms| - 1].dts)
    && q.lastPos == (if ms == [] then -1 else ms[|ms| - 1].pos)
  }

  lemma DtsGrows(ms: seq<Media>, m: Media)
    ensures DtsAscends(ms + [m]) <==>
      DtsAscends(ms) && m.dts != NOPTS && m.dts > if ms == [] then NOPTS else ms[|ms| - 1].dts
  {
    var more := ms + [m];
    assert more[|ms|] == m && forall i :: 0 <= i < |ms| ==> more[i] == ms[i];
    if DtsAscends(more) {
      assert forall i :: 0 <= i < |ms| ==> more[i].dts > NOPTS && (i > 0 ==> more[i - 1].dts < more[i].dts);
    }
  }

  lemma PosGrows(ms: seq<Media>, m: Media)
    ensures PosAscends(ms + [m]) <==>
      PosAscends(ms) && m.pos >= 0 && m.pos > if ms == [] then -1 else ms[|ms| - 1].pos
  {
    var more := ms + [m];
    assert more[|ms|] == m && forall i :: 0 <= i < |ms| ==> more[i] == ms[i];
    if PosAscends(more) {
      assert forall i :: 0 <= i < |ms| ==> more[i].pos >= 0 && (i > 0 ==> more[i - 1].pos < more[i].pos);
    }
  }

  lemma ArrivedOne(e: Event)
    ensures Arrived([e]) == if e.NewPacket? then [e.media] else []
  {
    assert [e][1..] == [];
  }

  lemma StepKnowsOrder(q: Queue, ms: seq<Media>, e: Event, video: bool)
    requires Readable(q) && KnowsOrder(q, ms)
    ensures KnowsOrder(Step(q, e, video), ms + Arrived([e]))
  {
    hide DtsAscends, PosAscends, WithIndexEntry, PtsMin, PtsMax, BlockTs, Arrived;
    ArrivedOne(e);
    if e.NewPacket? {
      DtsGrows(ms, e.media);
      PosGrows(ms, e.media);
    } else {
      assert ms + [] == ms;
    }
  }

  /** Over every run from an empty queue: dts counts as correct exactly if every packet had one and
      they increased strictly, and pos likewise; and the last packet's are remembered. */
  lemma {:induction false} OrderIsKnown(q: Queue, ms: seq<Media>, events: seq<Event>, video: bool)
    requires Readable(q) && KnowsOrder(q, ms)
    ensures KnowsOrder(FRESH_QUEUE, []) && KnowsOrder(Cleared(q), [])
    ensures KnowsOrder(Run(q, events, video), ms + Arrived(events))
    decreases |events|
  {
    hide Step, KnowsOrder;
    BlankKnowsOrder(q);
    if events == [] {
      assert ms + [] == ms;
    } else {
      StepKnowsOrder(q, ms, events[0], video);
      OrderIsKnown(Step(q, events[0], video), ms + Arrived([events[0]]), events[1..], video);
      ArrivedOne(events[0]);
      assert ms + Arrived([events[0]]) + Arrived(events[1..]) == ms + Arrived(events);
    }
  }

  lemma BlankKnowsOrder(q: Queue)
    ensures KnowsOrder(FRESH_QUEUE, []) && KnowsOrder(Cleared(q), [])
  {
  }

  // ---------- the packet itself ----------

  /** A packet is queued as it came, but that outside video a missing pts is its dts; and it is no seek
      target before its keyframe range is closed. */
  lemma QueuedAs(q: Queue, m: Media, video: bool)
    requires Readable(q)
    ensures var r := Added(q, m, video); var p := r.packets[|r.packets| - 1];
      && |r.packets| == |q.packets| + 1
      && p.media == m.(pts := if m.pts == NOPTS && !video then m.dts else m.pts)
      && p.kfSeekPts == NOPTS
  {
    hide WithIndexEntry;
  }

  // ---------- the newest timestamp ----------

  /** The packet is due at `ts`: at its dts, or failing that its pts, and no later than its segment's end. */
  predicate DueAt(m: Media, ts: real) {
    var t := if m.dts != NOPTS then m.dts else m.pts;
    && ts != NOPTS
    && if !m.segmented || m.end == NOPTS then ts == t
       else if t == NOPTS then ts == m.end
       else ts <= t && ts <= m.end && (ts == t || ts == m.end)
  }

  /** The queue's newest timestamp is never before the last packet's, and at most ten seconds after
      it: a larger step back is a new start. A packet without timestamps changes nothing. */
  lemma NewestTimestamp(q: Queue, m: Media, video: bool, ts: real)
    ensures var r := Appended(q, m, video).lastTs;
      && (DueAt(m, ts) ==> ts <= r <= ts + 10.0 && (r == ts || r == q.lastTs))
      && (r == q.lastTs || DueAt(m, r))
  {
  }
}
